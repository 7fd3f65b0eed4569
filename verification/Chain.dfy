/** Whole chains: every state that successful transitions can reach from genesis. */
module Chain {
  import opened Containers
  import opened Bits
  import opened Window
  import opened Tallies
  import opened Justification
  import opened Finality
  import opened Soundness
  import opened Aggregation
  import opened StateTransitions

  /** The pending tallies of a state, read back from their flattened form. */
  ghost function VotesOf(st: State): Tallies {
    var read := Unflatten(st.tallyRoots, st.tallyBits, st.validators);
    if read.Ok? then read.value else map[]
  }

  ghost function ProgressOf(st: State): Progress {
    Progress(st.justified, st.finalized, st.window, VotesOf(st))
  }

  ghost predicate TalliesStored(st: State) {
    StrictlyIncreasing(st.tallyRoots) && |st.tallyBits| == Offset(|st.tallyRoots|, st.validators)
  }

  /** The invariant of every state after at least one block. */
  ghost predicate Sound(st: State) {
    && st.validators > 0
    && st.slot == st.header.slot == |st.history| > 0
    && st.header.stateRoot == ZERO_ROOT
    && TalliesStored(st)
    && CheckpointsSound(st.history, ProgressOf(st))
    && WindowSound(st.history, ProgressOf(st))
    && TalliesSound(st.history, st.validators, ProgressOf(st))
  }

  ghost predicate Reachable(h: Hasher, st: State) {
    Sound(st) || (st.validators > 0 && st == Genesis(h, st.genesisTime, st.validators))
  }

  lemma ReachableHeader(h: Hasher, st: State)
    requires Reachable(h, st)
    ensures st.validators > 0
    ensures st.header.stateRoot == ZERO_ROOT && st.slot == st.header.slot == |st.history|
    ensures st.finalized.slot <= st.justified.slot <= st.header.slot
  {
  }

  /** Extending history and window keeps the tallies and the window sound. */
  lemma ExtensionKeepsSound(st: State, history: seq<Root>, window: seq<bool>)
    requires Sound(st) && st.history <= history && window == ExtendToSlot(st.window, st.finalized.slot, |history| - 1)
    ensures var p := ProgressOf(st).(window := window);
            CheckpointsSound(history, p) && WindowSound(history, p) && TalliesSound(history, st.validators, p)
  {
    hide Supermajority;
    var f, p := st.finalized.slot, ProgressOf(st).(window := window);
    forall slot: Slot
      ensures Marked(window, f, slot) <==> Marked(st.window, f, slot)
    {
      ExtendRefinesSet(st.window, f, |history| - 1, slot);
    }
    ExtendRefinesSet(st.window, f, |history| - 1, f);
    forall root | root in p.votes ensures TallySound(history, st.validators, f, root, p.votes[root]) {
      assert TallySound(st.history, st.validators, f, root, p.votes[root]);
      var slot :| f < slot < |st.history| && st.history[slot] == root;
      assert history[slot] == root;
    }
    forall slot | f < slot < |history| && Marked(window, f, slot) ensures history[slot] != ZERO_ROOT {
      assert Marked(st.window, f, slot);
    }
  }

  /** What the header step does to a reachable state. */
  lemma HeaderKeepsSound(h: Hasher, st: State, b: Block)
    requires Reachable(h, st) && BlockPre(h, st, b).Ok?
    ensures var pre := BlockPre(h, st, b).value;
            && Sound(pre) && pre.validators == st.validators && pre.slot == b.slot > st.slot && pre.genesisTime == st.genesisTime
            && pre.history == st.history + [b.parentRoot] + EmptySlots(b.slot - st.slot - 1)
            && b.parentRoot == h.header(st.header.(stateRoot := h.state(st)))
            && pre.finalized.slot == st.finalized.slot
            && VotesOf(pre) == VotesOf(st)
  {
    hide ExtendToSlot, Marked, TallySound, Unflatten;
    var pre := BlockPre(h, st, b).value;
    ReachableHeader(h, st);
    assert VotesOf(pre) == VotesOf(st);
    if Sound(st) {
      ExtensionKeepsSound(st, pre.history, pre.window);
    } else {
      FirstHeaderSound(h, st, b);
    }
  }

  lemma FirstHeaderSound(h: Hasher, st: State, b: Block)
    requires st.validators > 0 && st == Genesis(h, st.genesisTime, st.validators) && BlockPre(h, st, b).Ok?
    ensures Sound(BlockPre(h, st, b).value)
  {
    var pre := BlockPre(h, st, b).value;
    assert VotesOf(pre) == map[];
    forall slot: Slot | slot > 0 ensures !Marked(pre.window, 0, slot) {}
  }

  lemma SoundMeansProgressSound(pre: State)
    requires Sound(pre)
    ensures Unflatten(pre.tallyRoots, pre.tallyBits, pre.validators) == Ok(VotesOf(pre))
    ensures ProgressSound(pre, Start(pre, VotesOf(pre)))
    ensures ZERO_ROOT !in pre.tallyRoots
  {
    FlattenInvertsUnflatten(pre.tallyRoots, pre.tallyBits, pre.validators);
    assert forall root :: root in pre.tallyRoots ==> root in VotesOf(pre);
  }

  /** Writing the tallies back and reading them again changes nothing. */
  lemma WriteBackReadsBack(pre: State, p: Progress)
    requires TalliesSound(pre.history, pre.validators, p)
    ensures TalliesStored(WriteBack(pre, p)) && ProgressOf(WriteBack(pre, p)) == p
  {
    var roots := Listing(p.votes.Keys);
    ListingIsSorted(p.votes.Keys);
    assert forall r :: r in roots <==> r in Elements(roots);
    UnflattenInvertsFlatten(roots, p.votes, pre.validators);
    OffsetIsProduct(|roots|, pre.validators);
  }

  /** In a sound state the internal consistency checks never fire, and a successful block
      leaves a sound state whose finalized slot is no lower. */
  lemma AttestationsKeepSound(pre: State, atts: seq<AggregatedAttestation>)
    requires Sound(pre)
    ensures AfterAttestations(pre, atts).Ok? ==>
              var post := AfterAttestations(pre, atts).value;
              Sound(post) && post.history == pre.history && post.validators == pre.validators &&
              post.genesisTime == pre.genesisTime && post.header == pre.header && pre.finalized.slot <= post.finalized.slot
    ensures AfterAttestations(pre, atts).Err? ==>
              AfterAttestations(pre, atts).error in {OutsideWindow, ValidatorOutOfRange}
    ensures AfterAttestations(pre, atts).Panic? ==>
              AfterAttestations(pre, atts).fault in {NoParticipants, BeforeFinalized}
  {
    SoundMeansProgressSound(pre);
    IndexForSound(pre);
    var start := Start(pre, VotesOf(pre));
    if AfterAttestations(pre, atts).Ok? {
      RunKeepsSound(pre, IndexFor(pre), start, atts);
      RunKeepsGuard(pre, IndexFor(pre), start, atts);
      WriteBackReadsBack(pre, Run(pre, IndexFor(pre), start, atts).value);
    } else {
      RunFailures(pre, IndexFor(pre), start, atts);
    }
  }

  lemma {:induction false} RunFailures(pre: State, index: map<Root, Slot>, p: Progress, atts: seq<AggregatedAttestation>)
    requires ProgressSound(pre, p) && IndexSound(pre.history, pre.finalized.slot, index)
    ensures Run(pre, index, p, atts).Err? ==> Run(pre, index, p, atts).error in {OutsideWindow, ValidatorOutOfRange}
    ensures Run(pre, index, p, atts).Panic? ==> Run(pre, index, p, atts).fault in {NoParticipants, BeforeFinalized}
    decreases |atts|
  {
    if atts != [] {
      var init, last := atts[..|atts| - 1], atts[|atts| - 1];
      RunFailures(pre, index, p, init);
      if Run(pre, index, p, init).Ok? {
        var q := Run(pre, index, p, init).value;
        RunKeepsSound(pre, index, p, init);
        StepFailsExactly(pre, index, q, last);
        StepPanicsExactly(pre, index, q, last);
      }
    }
  }

  /** One block: the invariant is kept, finality does not regress, history is extended. */
  lemma TransitionKeepsSound(h: Hasher, st: State, b: Block)
    requires Reachable(h, st) && Transition(h, st, b).Ok?
    ensures var post := Transition(h, st, b).value;
            && Sound(post) && post.validators == st.validators && post.genesisTime == st.genesisTime
            && post.header == HeaderOf(h, b).(stateRoot := ZERO_ROOT) && b.stateRoot == h.state(post)
            && post.history == st.history + [b.parentRoot] + EmptySlots(b.slot - st.slot - 1)
            && st.slot < b.slot
            && b.parentRoot == h.header(st.header.(stateRoot := h.state(st)))
            && st.finalized.slot <= post.finalized.slot
  {
    hide Reachable, Sound, AfterAttestations, HasDuplicateData, ExtendToSlot;
    HeaderKeepsSound(h, st, b);
    AttestationsKeepSound(BlockPre(h, st, b).value, b.body);
  }

  /** Which failures a transition of a reachable state can end in. */
  lemma TransitionFailures(h: Hasher, st: State, b: Block)
    requires Reachable(h, st)
    ensures Transition(h, st, b).Err? ==> Transition(h, st, b).error !in {ZeroTallyRoot, TallyWithoutSlot, OutsideHistory}
    ensures Transition(h, st, b).Panic? ==> Transition(h, st, b).fault in {NoParticipants, BeforeFinalized}
  {
    hide Reachable, Sound, AfterAttestations, HasDuplicateData, ExtendToSlot;
    ReachableHeader(h, st);
    if BlockPre(h, st, b).Ok? {
      HeaderKeepsSound(h, st, b);
      AttestationsKeepSound(BlockPre(h, st, b).value, b.body);
    }
  }

  /** Apply a list of blocks to a state. */
  ghost function Replay(h: Hasher, st: State, blocks: seq<Block>): Outcome<State>
    decreases |blocks|
  {
    if blocks == [] then Ok(st)
    else
      var before :- Replay(h, st, blocks[..|blocks| - 1]);
      Transition(h, before, blocks[|blocks| - 1])
  }

  /** `blocks` is a chain that the state transition accepts from genesis, ending in `st`. */
  ghost predicate IsChain(h: Hasher, genesisTime: nat, validators: nat, blocks: seq<Block>, st: State) {
    validators > 0 && Replay(h, Genesis(h, genesisTime, validators), blocks) == Ok(st)
  }

  /** The last block of a chain and the chain before it. */
  lemma ChainSplit(h: Hasher, genesisTime: nat, validators: nat, blocks: seq<Block>, st: State) returns (before: State)
    requires IsChain(h, genesisTime, validators, blocks, st) && blocks != []
    ensures IsChain(h, genesisTime, validators, blocks[..|blocks| - 1], before)
    ensures Transition(h, before, blocks[|blocks| - 1]) == Ok(st)
  {
    hide Transition;
    before := Replay(h, Genesis(h, genesisTime, validators), blocks[..|blocks| - 1]).value;
  }

  /** Every state reached from genesis satisfies the invariant. */
  lemma {:induction false} ChainReachable(h: Hasher, genesisTime: nat, validators: nat, blocks: seq<Block>, st: State)
    requires IsChain(h, genesisTime, validators, blocks, st)
    ensures st.validators == validators && st.genesisTime == genesisTime && Reachable(h, st) && (blocks != [] ==> Sound(st))
    decreases |blocks|
  {
    hide Transition, Sound;
    if blocks != [] {
      var before := ChainSplit(h, genesisTime, validators, blocks, st);
      ChainReachable(h, genesisTime, validators, blocks[..|blocks| - 1], before);
      TransitionKeepsSound(h, before, blocks[|blocks| - 1]);
    }
  }

  /** Finality is monotone and history append-only along every chain. */
  lemma {:induction false} ChainNeverGoesBack(h: Hasher, genesisTime: nat, validators: nat, blocks: seq<Block>, st: State, k: nat)
    returns (early: State)
    requires IsChain(h, genesisTime, validators, blocks, st) && k <= |blocks|
    ensures IsChain(h, genesisTime, validators, blocks[..k], early)
    ensures early.finalized.slot <= st.finalized.slot
    ensures early.history <= st.history
    decreases |blocks|
  {
    hide Transition, Reachable, Sound, IsChain;
    if k == |blocks| {
      assert blocks[..k] == blocks;
      early := st;
    } else {
      var init := blocks[..|blocks| - 1];
      assert init[..k] == blocks[..k];
      var before := ChainSplit(h, genesisTime, validators, blocks, st);
      early := ChainNeverGoesBack(h, genesisTime, validators, init, before, k);
      ChainReachable(h, genesisTime, validators, init, before);
      TransitionKeepsSound(h, before, blocks[|blocks| - 1]);
    }
  }

  /** A block that was finalized at some point of a chain is still in the history of every
      later state, at the same slot and at or below the later finalized slot. */
  lemma FinalizedIsForever(h: Hasher, genesisTime: nat, validators: nat, blocks: seq<Block>, st: State, k: nat)
    returns (early: State)
    requires IsChain(h, genesisTime, validators, blocks, st) && 0 < k <= |blocks|
    ensures IsChain(h, genesisTime, validators, blocks[..k], early)
    ensures early.finalized.slot <= st.finalized.slot < |st.history|
    ensures st.history[early.finalized.slot] == early.finalized.root
  {
    hide IsChain, TalliesWellKept;
    early := ChainNeverGoesBack(h, genesisTime, validators, blocks, st, k);
    ChainStatesWellKept(h, genesisTime, validators, blocks[..k], early);
    ChainStatesWellKept(h, genesisTime, validators, blocks, st);
  }

  /** The block that the next one has to name as its parent. */
  ghost function TipOf(h: Hasher, genesis: State, blocks: seq<Block>): Block {
    if blocks == [] then GenesisBlock(h, genesis) else blocks[|blocks| - 1]
  }

  /** A reachable state commits to its block: filling in its own root completes the header. */
  lemma CompletedHeaderIsTip(h: Hasher, genesisTime: nat, validators: nat, blocks: seq<Block>, st: State)
    requires IsChain(h, genesisTime, validators, blocks, st)
    ensures st.header.(stateRoot := h.state(st)) == HeaderOf(h, TipOf(h, Genesis(h, genesisTime, validators), blocks))
  {
    hide Transition, Reachable, Sound;
    if blocks != [] {
      var before := ChainSplit(h, genesisTime, validators, blocks, st);
      ChainReachable(h, genesisTime, validators, blocks[..|blocks| - 1], before);
      TransitionKeepsSound(h, before, blocks[|blocks| - 1]);
    }
  }

  /** Every accepted block extends the one before it, in a later slot, proposed by the validator
      whose turn it is, without repeated data, and commits to the state it leads to. */
  lemma AcceptedBlockExtendsTip(h: Hasher, genesisTime: nat, validators: nat, blocks: seq<Block>, st: State)
    requires IsChain(h, genesisTime, validators, blocks, st) && blocks != []
    ensures var tip, b := TipOf(h, Genesis(h, genesisTime, validators), blocks[..|blocks| - 1]), blocks[|blocks| - 1];
            && b.parentRoot == BlockRoot(h, tip) && b.slot > tip.slot
            && b.proposerIndex == b.slot % validators
            && b.stateRoot == h.state(st) && !HasDuplicateData(h, b.body)
            && st.header == BlockHeader(b.slot, b.slot % validators, BlockRoot(h, tip), ZERO_ROOT, h.body(b.body))
            && BlockRoot(h, b) == h.header(BlockHeader(b.slot, b.proposerIndex, b.parentRoot, h.state(st), h.body(b.body)))
  {
    hide Transition, Reachable, Sound, IsChain, HasDuplicateData;
    var init, b := blocks[..|blocks| - 1], blocks[|blocks| - 1];
    var before := ChainSplit(h, genesisTime, validators, blocks, st);
    ChainReachable(h, genesisTime, validators, init, before);
    CompletedHeaderIsTip(h, genesisTime, validators, init, before);
    TransitionChecks(h, before, b);
    TransitionKeepsSound(h, before, b);
    ReachableHeader(h, before);
    assert before.slot == TipOf(h, Genesis(h, genesisTime, validators), init).slot;
  }

  /** What every accepted block satisfies, whatever the state. */
  lemma TransitionChecks(h: Hasher, st: State, b: Block)
    requires Transition(h, st, b).Ok?
    ensures st.validators > 0 && b.proposerIndex == b.slot % st.validators && !HasDuplicateData(h, b.body)
    ensures b.slot > st.slot && b.slot > st.header.slot && b.stateRoot == h.state(Transition(h, st, b).value)
    ensures b.parentRoot == h.header(if st.header.stateRoot == ZERO_ROOT then st.header.(stateRoot := h.state(st)) else st.header)
  {
    hide AfterAttestations;
  }

  /** The invariant, spelled out in terms of what a reader of the state can observe. */
  ghost predicate WellKept(st: State) {
    && |st.history| == st.header.slot
    && st.finalized.slot <= st.justified.slot < st.header.slot
    && st.history[st.finalized.slot] == st.finalized.root
    && st.history[st.justified.slot] == st.justified.root
    && |st.window| == st.header.slot - 1 - st.finalized.slot
    && (forall slot: Slot :: IsSlotJustified(st.window, st.finalized.slot, slot).Ok? <==> slot < st.header.slot)
    && IsSlotJustified(st.window, st.finalized.slot, st.justified.slot) == Ok(true)
  }

  ghost predicate TalliesWellKept(st: State) {
    && |st.tallyBits| == |st.tallyRoots| * st.validators
    && Unflatten(st.tallyRoots, st.tallyBits, st.validators).Ok?
    && var votes := Unflatten(st.tallyRoots, st.tallyBits, st.validators).value;
       && Listing(votes.Keys) == st.tallyRoots
       && forall root :: root in votes ==>
            && root != ZERO_ROOT && Unfinalized(st.history, st.finalized.slot, root)
            && |votes[root]| == st.validators && 0 < 3 * Count(votes[root]) < 2 * st.validators
  }

  lemma SoundIsWellKept(st: State)
    requires Sound(st)
    ensures WellKept(st)
  {
  }

  lemma SoundTalliesWellKept(st: State)
    requires Sound(st)
    ensures TalliesWellKept(st)
  {
    hide Unflatten, Unfinalized;
    FlattenInvertsUnflatten(st.tallyRoots, st.tallyBits, st.validators);
    ListingIsSorted(VotesOf(st).Keys);
    IncreasingListingUnique(st.tallyRoots, Listing(VotesOf(st).Keys));
    OffsetIsProduct(|st.tallyRoots|, st.validators);
    forall root | root in VotesOf(st) ensures 0 < 3 * Count(VotesOf(st)[root]) < 2 * st.validators {
      assert TallySound(st.history, st.validators, st.finalized.slot, root, VotesOf(st)[root]);
      CountIsCardinality(VotesOf(st)[root]);
    }
  }

  /** Every state after the first block of any chain is well kept. */
  lemma ChainStatesWellKept(h: Hasher, genesisTime: nat, validators: nat, blocks: seq<Block>, st: State)
    requires IsChain(h, genesisTime, validators, blocks, st) && blocks != []
    ensures WellKept(st) && TalliesWellKept(st) && st.header.slot == blocks[|blocks| - 1].slot
  {
    hide Transition, Sound, Reachable, IsChain, WellKept, TalliesWellKept;
    ChainReachable(h, genesisTime, validators, blocks, st);
    SoundIsWellKept(st);
    SoundTalliesWellKept(st);
    CompletedHeaderIsTip(h, genesisTime, validators, blocks, st);
    assert st.header.(stateRoot := h.state(st)).slot == blocks[|blocks| - 1].slot;
  }

  /** A block that a transition rejects or crashes on never does so because of the
      bookkeeping that earlier blocks of the chain left behind. */
  lemma ChainNeverInconsistent(h: Hasher, genesisTime: nat, validators: nat, blocks: seq<Block>, st: State, b: Block)
    requires IsChain(h, genesisTime, validators, blocks, st)
    ensures Transition(h, st, b).Err? ==> Transition(h, st, b).error !in {ZeroTallyRoot, TallyWithoutSlot, OutsideHistory}
    ensures Transition(h, st, b).Panic? ==> Transition(h, st, b).fault in {NoParticipants, BeforeFinalized}
  {
    hide Transition, Reachable, IsChain;
    ChainReachable(h, genesisTime, validators, blocks, st);
    TransitionFailures(h, st, b);
  }
}
