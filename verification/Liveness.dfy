/** Chains can always go on: in every later slot the proposer has a block to add, and if all
    validators vote, finality can be driven past any slot. */
module Liveness {
  import opened Containers
  import opened Slots
  import opened Bits
  import opened Window
  import opened Justification
  import opened Finality
  import opened Soundness
  import opened Aggregation
  import opened StateTransitions
  import opened Chain
  import opened Bodies

  /** The block that the proposer of `slot` puts on top of a reachable state, stamped with the
      state it leads to if there is one. */
  lemma ProposedBlock(h: Hasher, st: State, slot: Slot, body: seq<AggregatedAttestation>) returns (b: Block, pre: State)
    requires Reachable(h, st) && st.slot < slot && !HasDuplicateData(h, body)
    ensures b.slot == slot && b.body == body && b.parentRoot == h.header(Filled(h, st).header) && BlockPre(h, st, b) == Ok(pre)
    ensures Transition(h, st, b) == AfterAttestations(pre, body)
  {
    hide AfterAttestations, HasDuplicateData, ExtendToSlot, Reachable;
    ReachableHeader(h, st);
    var ready := Filled(h, st).(slot := slot);
    var draft := Block(slot, slot % st.validators, h.header(ready.header), ZERO_ROOT, body);
    pre := AfterHeader(h, ready, draft).value;
    var out := AfterAttestations(pre, body);
    b := draft.(stateRoot := if out.Ok? then h.state(out.value) else ZERO_ROOT);
    assert AfterHeader(h, ready, b) == Ok(pre);
    assert AfterBlock(h, ready, b) == out;
  }

  /** A block without attestations is always accepted, and leaves finality and the justified
      slots as they are. */
  lemma QuietBlock(h: Hasher, st: State, slot: Slot) returns (b: Block, post: State)
    requires Reachable(h, st) && st.slot < slot
    ensures b.slot == slot && b.body == [] && b.parentRoot == h.header(Filled(h, st).header) && Transition(h, st, b) == Ok(post)
    ensures Sound(post) && post.slot == slot && post.validators == st.validators
    ensures post.history == st.history + [b.parentRoot] + EmptySlots(slot - st.slot - 1) && b.parentRoot != ZERO_ROOT
    ensures post.finalized.slot == st.finalized.slot
    ensures forall s: Slot :: Marked(post.window, post.finalized.slot, s) <==> Marked(st.window, st.finalized.slot, s)
  {
    hide Reachable, Transition, Marked, BlockPre, Sound;
    var pre;
    b, pre := ProposedBlock(h, st, slot, []);
    HeaderKeepsSound(h, st, b);
    NoAttestations(pre);
    post := AfterAttestations(pre, []).value;
    AttestationsKeepSound(pre, []);
    TransitionKeepsSound(h, st, b);
    SoundSlot(post);
    forall s: Slot ensures Marked(post.window, post.finalized.slot, s) <==> Marked(st.window, st.finalized.slot, s) {
      HeaderMarks(h, st, b, s);
    }
  }

  lemma SoundSlot(st: State)
    requires Sound(st)
    ensures st.slot == st.header.slot == |st.history| > 0 && st.validators > 0
  {
  }

  lemma NoAttestations(pre: State)
    requires Sound(pre)
    ensures AfterAttestations(pre, []).Ok?
    ensures var post := AfterAttestations(pre, []).value;
            post.window == pre.window && post.finalized == pre.finalized && post.justified == pre.justified
  {
    hide Sound;
    SoundMeansProgressSound(pre);
  }

  // A vote of all validators.

  function AllOnes(n: nat): (r: seq<bool>)
    ensures |r| == n && forall i :: 0 <= i < n ==> r[i]
  {
    seq(n, _ => true)
  }

  lemma {:induction false} CountAllOnes(n: nat)
    ensures Count(AllOnes(n)) == n
  {
    if n > 0 {
      assert AllOnes(n)[..n - 1] == AllOnes(n - 1);
      CountAllOnes(n - 1);
    }
  }

  function EveryoneVotes(validators: nat, data: AttestationData): AggregatedAttestation {
    AggregatedAttestation(AllOnes(validators), data)
  }

  /** A vote of all validators that is counted at all completes a supermajority. */
  lemma EveryoneJustifies(pre: State, p: Progress, data: AttestationData)
    requires pre.validators > 0 && TalliesSound(pre.history, pre.validators, p) && Countable(pre, p, data)
    ensures Justifies(pre, p, EveryoneVotes(pre.validators, data))
  {
    hide TalliesSound, Countable, RowAfter;
    var n, att := pre.validators, EveryoneVotes(pre.validators, data);
    assert 0 in Members(att.bits);
    RowPanicsExactly(pre, p, att);
    RowFailsExactly(pre, p, att);
    RowAfterSound(pre, p, att);
    var row := RowAfter(pre, p, att).value;
    forall i | 0 <= i < n ensures row[i] {
      assert i in Members(att.bits);
      assert i in Members(row);
    }
    assert row == AllOnes(n);
    CountAllOnes(n);
  }

  /** The history that the next block sees: it ends with the root of the last block. */
  ghost function NextHistory(h: Hasher, st: State): seq<Root> {
    st.history + [h.header(Filled(h, st).header)]
  }

  /** What it takes for a vote to be counted, given the history. */
  ghost predicate Votable(st: State, history: seq<Root>, source: Checkpoint, target: Checkpoint) {
    && source.slot < target.slot < |history|
    && history[source.slot] == source.root != ZERO_ROOT && history[target.slot] == target.root != ZERO_ROOT
    && Marked(st.window, st.finalized.slot, source.slot) && !Marked(st.window, st.finalized.slot, target.slot)
    && JustifiableAfter(target.slot, st.finalized.slot)
  }

  lemma VotableIsJustified(pre: State, data: AttestationData)
    requires Sound(pre) && Votable(pre, pre.history, data.source, data.target)
    ensures var atts := [EveryoneVotes(pre.validators, data)];
            Reached(pre, atts, 0) == Ok(Start(pre, VotesOf(pre))) && JustifiesAt(pre, atts, 0)
  {
    var atts := [EveryoneVotes(pre.validators, data)];
    assert atts[..0] == [];
    assert Countable(pre, Start(pre, VotesOf(pre)), data);
    EveryoneJustifies(pre, Start(pre, VotesOf(pre)), data);
  }

  /** The attestations of a block in which everyone casts the same vote. */
  lemma EveryoneVotesExactly(pre: State, data: AttestationData)
    requires Sound(pre) && Votable(pre, pre.history, data.source, data.target)
    ensures var out := AfterAttestations(pre, [EveryoneVotes(pre.validators, data)]);
            if data.source.slot + 1 < pre.finalized.slot then out == Panic(BeforeFinalized)
            else && out.Ok? && out.value.justified == data.target
                 && out.value.finalized == (if NextJustifiable(pre.finalized.slot, data.source.slot, data.target.slot)
                                            then data.source else pre.finalized)
                 && forall s: Slot :: s > out.value.finalized.slot ==>
                      (Marked(out.value.window, out.value.finalized.slot, s) <==>
                       Marked(pre.window, pre.finalized.slot, s) || s == data.target.slot)
  {
    hide Sound, Votable, Reached, Step, Marked, NextJustifiable, ProgressSound, IndexSound, AfterAttestations, Countable, RowAfter;
    var atts := [EveryoneVotes(pre.validators, data)];
    var start, index := Start(pre, VotesOf(pre)), IndexFor(pre);
    VotableIsJustified(pre, data);
    SoundMeansProgressSound(pre);
    ReachedSound(pre, atts, 0);
    SomeoneVotes(pre, data);
    StepPanicsExactly(pre, index, start, atts[0]);
    StepFailsExactly(pre, index, start, atts[0]);
    VotableIsAnswerable(pre, data);
    LoopIsReached(pre, atts);
    if data.source.slot + 1 < pre.finalized.slot {
      FailureEndsLoop(pre, atts, 0);
    } else {
      ReachedNext(pre, atts, 0);
      JustificationExact(pre, index, start, atts[0]);
    }
  }

  lemma SomeoneVotes(pre: State, data: AttestationData)
    requires Sound(pre)
    ensures Members(EveryoneVotes(pre.validators, data).bits) != {}
  {
    assert 0 in Members(EveryoneVotes(pre.validators, data).bits);
  }

  lemma VotableIsAnswerable(pre: State, data: AttestationData)
    requires Sound(pre) && Votable(pre, pre.history, data.source, data.target)
    ensures !Unanswerable(pre, Start(pre, VotesOf(pre)), EveryoneVotes(pre.validators, data))
  {
  }

  /** A block in which everyone votes for a target that can be counted. */
  lemma VotingBlock(h: Hasher, st: State, slot: Slot, source: Checkpoint, target: Checkpoint) returns (b: Block)
    requires Sound(st) && st.slot < slot && Votable(st, NextHistory(h, st), source, target)
    ensures b.slot == slot && b.body == [EveryoneVotes(st.validators, AttestationData(st.slot, target, target, source))]
    ensures b.parentRoot == h.header(Filled(h, st).header)
    ensures var out := Transition(h, st, b);
            if source.slot + 1 < st.finalized.slot then out == Panic(BeforeFinalized)
            else && out.Ok? && Sound(out.value) && out.value.slot == slot && out.value.validators == st.validators
                 && out.value.history == st.history + [b.parentRoot] + EmptySlots(slot - st.slot - 1)
                 && b.parentRoot != ZERO_ROOT
                 && out.value.justified == target
                 && out.value.finalized == (if NextJustifiable(st.finalized.slot, source.slot, target.slot)
                                            then source else st.finalized)
                 && forall s: Slot :: s > out.value.finalized.slot ==>
                      (Marked(out.value.window, out.value.finalized.slot, s) <==>
                       Marked(st.window, st.finalized.slot, s) || s == target.slot)
  {
    hide Transition, Marked, BlockPre, Sound, NextJustifiable, Votable;
    var data := AttestationData(st.slot, target, target, source);
    var pre;
    var atts := [EveryoneVotes(st.validators, data)];
    b, pre := ProposedBlock(h, st, slot, atts);
    HeaderKeepsSound(h, st, b);
    HeaderKeepsVotable(h, st, b, source, target);
    EveryoneVotesExactly(pre, data);
    if source.slot + 1 >= st.finalized.slot {
      TransitionKeepsSound(h, st, b);
      SoundSlot(Transition(h, st, b).value);
      forall s: Slot ensures Marked(pre.window, pre.finalized.slot, s) <==> Marked(st.window, st.finalized.slot, s) {
        HeaderMarks(h, st, b, s);
      }
    }
  }

  lemma HeaderKeepsVotable(h: Hasher, st: State, b: Block, source: Checkpoint, target: Checkpoint)
    requires Sound(st) && BlockPre(h, st, b).Ok? && Votable(st, NextHistory(h, st), source, target)
    ensures var pre := BlockPre(h, st, b).value;
            Votable(pre, pre.history, source, target) && pre.finalized == st.finalized && pre.validators == st.validators
  {
    hide Marked, ExtendToSlot;
    HeaderKeepsSound(h, st, b);
    HeaderMarks(h, st, b, source.slot);
    HeaderMarks(h, st, b, target.slot);
  }

  // Driving finality.

  /** The first justifiable slot after `slot`. */
  lemma FirstJustifiable(base: Slot, slot: Slot) returns (next: Slot)
    requires base <= slot
    ensures NextJustifiable(base, slot, next)
  {
    hide JustifiableDistance, Isqrt;
    var delta := NextJustifiableIsNear(slot - base);
    var limit := base + delta;
    next := slot + 1;
    while !JustifiableAfter(next, base)
      invariant slot < next <= limit && forall k :: slot < k < next ==> !JustifiableAfter(k, base)
      decreases limit - next
    {
      next := next + 1;
    }
  }

  lemma ChainExtends(h: Hasher, genesisTime: nat, validators: nat, blocks: seq<Block>, st: State, b: Block, post: State)
    requires IsChain(h, genesisTime, validators, blocks, st) && Transition(h, st, b) == Ok(post)
    ensures IsChain(h, genesisTime, validators, blocks + [b], post)
  {
    hide Transition;
    assert (blocks + [b])[..|blocks|] == blocks;
  }

  lemma EmptyChain(h: Hasher, genesisTime: nat, validators: nat)
    requires validators > 0
    ensures IsChain(h, genesisTime, validators, [], Genesis(h, genesisTime, validators))
  {
  }

  lemma NearIsJustifiable(slot: Slot, finalized: Slot)
    requires finalized <= slot <= finalized + 5
    ensures JustifiableAfter(slot, finalized)
  {
  }

  /** Slots past the tip are not justified yet. */
  lemma FutureIsUnmarked(h: Hasher, st: State, slot: Slot)
    requires Reachable(h, st) && slot >= st.slot && slot > st.finalized.slot
    ensures !Marked(st.window, st.finalized.slot, slot)
  {
  }

  lemma FinalizedEntry(st: State)
    requires Sound(st)
    ensures st.finalized.slot < |st.history| && st.history[st.finalized.slot] == st.finalized.root != ZERO_ROOT
    ensures Marked(st.window, st.finalized.slot, st.finalized.slot)
  {
  }

  /** Two empty blocks, one in each of the two slots. */
  lemma TwoQuietBlocks(h: Hasher, genesisTime: nat, validators: nat, blocks: seq<Block>, st: State, first: Slot, second: Slot)
    returns (more: seq<Block>, post: State)
    requires IsChain(h, genesisTime, validators, blocks, st) && st.slot < first < second
    ensures IsChain(h, genesisTime, validators, blocks + more, post)
    ensures Sound(post) && post.slot == second && post.history[first] != ZERO_ROOT
    ensures post.finalized.slot == st.finalized.slot
    ensures forall s: Slot :: Marked(post.window, post.finalized.slot, s) <==> Marked(st.window, st.finalized.slot, s)
  {
    hide IsChain, Transition, Marked, Sound;
    ChainReachable(h, genesisTime, validators, blocks, st);
    var a, mid := QuietBlock(h, st, first);
    ChainExtends(h, genesisTime, validators, blocks, st, a, mid);
    SoundSlot(mid);
    var b;
    b, post := QuietBlock(h, mid, second);
    ChainExtends(h, genesisTime, validators, blocks + [a], mid, b, post);
    SoundSlot(post);
    assert post.history[first] == b.parentRoot;
    more := [a, b];
    assert blocks + more == blocks + [a] + [b];
  }

  /** One block in which everyone votes, as a step of a chain. */
  lemma VotingStep(h: Hasher, genesisTime: nat, validators: nat, blocks: seq<Block>, st: State, source: Checkpoint, target: Checkpoint)
    returns (b: Block, post: State)
    requires IsChain(h, genesisTime, validators, blocks, st) && Sound(st)
    requires Votable(st, NextHistory(h, st), source, target) && st.finalized.slot <= source.slot
    ensures IsChain(h, genesisTime, validators, blocks + [b], post) && Transition(h, st, b) == Ok(post)
    ensures b.slot == st.slot + 1 && b.parentRoot == h.header(Filled(h, st).header)
    ensures Sound(post) && post.slot == st.slot + 1 && post.history == NextHistory(h, st) && post.history[st.slot] != ZERO_ROOT
    ensures post.justified == target
    ensures post.finalized == if NextJustifiable(st.finalized.slot, source.slot, target.slot) then source else st.finalized
    ensures forall s: Slot :: s > post.finalized.slot ==>
              (Marked(post.window, post.finalized.slot, s) <==> Marked(st.window, st.finalized.slot, s) || s == target.slot)
  {
    hide IsChain, Transition, Marked, Sound, Votable, NextJustifiable;
    SoundSlot(st);
    b := VotingBlock(h, st, st.slot + 1, source, target);
    post := Transition(h, st, b).value;
    ChainExtends(h, genesisTime, validators, blocks, st, b, post);
    assert EmptySlots(0) == [] && post.history == NextHistory(h, st);
    assert post.history[st.slot] == b.parentRoot;
  }

  /** Plausible liveness: whatever has happened so far on a chain, and whatever the hash
      function, there are further blocks, with votes of all validators, that the state
      transition accepts and that finalize a slot past any given bound. */
  lemma FinalityCanAdvance(h: Hasher, genesisTime: nat, validators: nat, blocks: seq<Block>, st: State, bound: Slot)
    returns (more: seq<Block>, post: State)
    requires IsChain(h, genesisTime, validators, blocks, st)
    ensures IsChain(h, genesisTime, validators, blocks + more, post)
    ensures post.finalized.slot > bound && post.finalized.slot > st.slot
  {
    hide IsChain, Transition, Marked, Sound, JustifiableDistance, Reachable;
    ChainReachable(h, genesisTime, validators, blocks, st);
    ReachableHeader(h, st);
    var f := st.finalized.slot;
    var first := FirstJustifiable(f, if bound < st.slot then st.slot else bound);
    var second := FirstJustifiable(f, first);
    FutureIsUnmarked(h, st, first);
    FutureIsUnmarked(h, st, second);
    var quiet, waiting := TwoQuietBlocks(h, genesisTime, validators, blocks, st, first, second);
    var path := blocks + quiet;
    SoundSlot(waiting);
    FinalizedEntry(waiting);
    var middle := Checkpoint(waiting.history[first], first);
    var a, justified := VotingStep(h, genesisTime, validators, path, waiting, waiting.finalized, middle);
    SoundSlot(justified);
    assert justified.history[first] == middle.root;
    var target := Checkpoint(justified.history[second], second);
    var b;
    b, post := VotingStep(h, genesisTime, validators, path + [a], justified, middle, target);
    more := quiet + [a, b];
    assert blocks + more == path + [a] + [b];
  }
}
