/** What the attestations of a whole block do, seen from the state before the block: when
    processing them panics or fails, which slots they justify and which checkpoint they leave,
    for one block and along every chain. */
module Bodies {
  import opened Containers
  import opened Bits
  import opened Window
  import opened Tallies
  import opened Justification
  import opened Finality
  import opened Soundness
  import opened Aggregation
  import opened StateTransitions
  import opened Chain

  /** How far the loop has come before attestation k. */
  ghost function Reached(pre: State, atts: seq<AggregatedAttestation>, k: nat): Outcome<Progress>
    requires k <= |atts|
  {
    Run(pre, IndexFor(pre), Start(pre, VotesOf(pre)), atts[..k])
  }

  lemma ReachedNext(pre: State, atts: seq<AggregatedAttestation>, k: nat)
    requires k < |atts| && Reached(pre, atts, k).Ok?
    ensures Reached(pre, atts, k + 1) == Step(pre, IndexFor(pre), Reached(pre, atts, k).value, atts[k])
  {
    hide Step;
    assert atts[..k + 1][..k] == atts[..k];
  }

  lemma {:induction false} ReachedGuarded(pre: State, atts: seq<AggregatedAttestation>, k: nat)
    requires k <= |atts| && Reached(pre, atts, k).Ok?
    ensures Guarded(pre.finalized.slot, Reached(pre, atts, k).value)
  {
    RunKeepsGuard(pre, IndexFor(pre), Start(pre, VotesOf(pre)), atts[..k]);
  }

  lemma ReachedSound(pre: State, atts: seq<AggregatedAttestation>, k: nat)
    requires Sound(pre) && k <= |atts| && Reached(pre, atts, k).Ok?
    ensures ProgressSound(pre, Reached(pre, atts, k).value)
    ensures IndexSound(pre.history, pre.finalized.slot, IndexFor(pre))
  {
    hide Sound, ProgressSound, IndexSound, Run, IndexFor;
    SoundMeansProgressSound(pre);
    IndexForSound(pre);
    RunKeepsSound(pre, IndexFor(pre), Start(pre, VotesOf(pre)), atts[..k]);
  }

  // Where processing stops.

  /** The attestation at which the loop stops. */
  lemma {:induction false} FirstFailure(pre: State, atts: seq<AggregatedAttestation>, n: nat) returns (k: nat)
    requires n <= |atts| && !Reached(pre, atts, n).Ok?
    ensures k < n && Reached(pre, atts, k).Ok?
    ensures Step(pre, IndexFor(pre), Reached(pre, atts, k).value, atts[k]) == Reached(pre, atts, n)
    decreases n
  {
    hide Step;
    if Reached(pre, atts, n - 1).Ok? {
      k := n - 1;
      ReachedNext(pre, atts, k);
    } else {
      k := FirstFailure(pre, atts, n - 1);
      assert atts[..n][..n - 1] == atts[..n - 1];
    }
  }

  lemma FailureEndsLoop(pre: State, atts: seq<AggregatedAttestation>, k: nat)
    requires k < |atts| && Reached(pre, atts, k).Ok?
    requires !Step(pre, IndexFor(pre), Reached(pre, atts, k).value, atts[k]).Ok?
    ensures Reached(pre, atts, |atts|) == Step(pre, IndexFor(pre), Reached(pre, atts, k).value, atts[k])
  {
    hide Step;
    ReachedNext(pre, atts, k);
    RunStopsEarly(pre, IndexFor(pre), Start(pre, VotesOf(pre)), atts, k + 1);
    assert atts[..|atts|] == atts;
  }

  lemma LoopIsReached(pre: State, atts: seq<AggregatedAttestation>)
    requires ZERO_ROOT !in pre.tallyRoots && Unflatten(pre.tallyRoots, pre.tallyBits, pre.validators).Ok?
    ensures AfterAttestations(pre, atts) ==
            var p := Reached(pre, atts, |atts|);
            if p.Ok? then Ok(WriteBack(pre, p.value)) else p.PropagateFailure()
  {
    hide Run, Unflatten;
    assert atts[..|atts|] == atts;
  }

  lemma {:induction false} UnflattenNeverFails(roots: seq<Root>, bits: seq<bool>, n: nat)
    ensures !Unflatten(roots, bits, n).Err?
    decreases |roots|
  {
    if roots != [] { UnflattenNeverFails(roots[..|roots| - 1], bits, n); }
  }

  // Panics.

  /** The loop gets as far as attestation k and panics on it. */
  ghost predicate PanicsAt(pre: State, atts: seq<AggregatedAttestation>, k: nat) {
    k < |atts| && Reached(pre, atts, k).Ok? && PanicsOn(pre, Reached(pre, atts, k).value, atts[k])
  }

  /** When processing the attestations of a block panics, for every state: the stored tallies
      are too short, or some attestation panics after all those before it went through. */
  lemma AttestationsPanicExactly(pre: State, atts: seq<AggregatedAttestation>)
    ensures AfterAttestations(pre, atts).Panic? <==>
            && ZERO_ROOT !in pre.tallyRoots
            && (Unflatten(pre.tallyRoots, pre.tallyBits, pre.validators).Panic? || exists k: nat :: PanicsAt(pre, atts, k))
  {
    hide Reached, Unflatten, Step, PanicsOn, Guarded;
    UnflattenNeverFails(pre.tallyRoots, pre.tallyBits, pre.validators);
    if ZERO_ROOT !in pre.tallyRoots && Unflatten(pre.tallyRoots, pre.tallyBits, pre.validators).Ok? {
      LoopIsReached(pre, atts);
      if AfterAttestations(pre, atts).Panic? {
        var k := FirstFailure(pre, atts, |atts|);
        ReachedGuarded(pre, atts, k);
        StepPanicsExactly(pre, IndexFor(pre), Reached(pre, atts, k).value, atts[k]);
        assert PanicsAt(pre, atts, k);
      }
      if exists k: nat :: PanicsAt(pre, atts, k) {
        var k: nat :| PanicsAt(pre, atts, k);
        ReachedGuarded(pre, atts, k);
        StepPanicsExactly(pre, IndexFor(pre), Reached(pre, atts, k).value, atts[k]);
        FailureEndsLoop(pre, atts, k);
      }
    }
  }

  /** What a caller can check beforehand: the attestation names someone, and its source is at
      most one slot before finality. */
  ghost predicate Harmless(pre: State, att: AggregatedAttestation) {
    Members(att.bits) != {} && att.data.source.slot + 1 >= pre.finalized.slot
  }

  lemma HarmlessNeverPanics(pre: State, atts: seq<AggregatedAttestation>)
    requires forall i :: 0 <= i < |atts| ==> Harmless(pre, atts[i])
    requires Unflatten(pre.tallyRoots, pre.tallyBits, pre.validators).Ok?
    ensures !AfterAttestations(pre, atts).Panic?
  {
    hide Reached, Unflatten, Countable, Justifies;
    AttestationsPanicExactly(pre, atts);
  }

  // Errors.

  ghost predicate FailsAt(pre: State, atts: seq<AggregatedAttestation>, k: nat) {
    k < |atts| && Reached(pre, atts, k).Ok? && Unanswerable(pre, Reached(pre, atts, k).value, atts[k])
  }

  /** When processing the attestations of a block is an error. */
  lemma AttestationsFailExactly(pre: State, atts: seq<AggregatedAttestation>)
    requires Sound(pre)
    ensures AfterAttestations(pre, atts).Err? <==> exists k: nat :: FailsAt(pre, atts, k)
  {
    hide Sound, Reached, Unflatten, Step, Unanswerable, ProgressSound, IndexSound;
    SoundMeansProgressSound(pre);
    LoopIsReached(pre, atts);
    if AfterAttestations(pre, atts).Err? {
      var k := FirstFailure(pre, atts, |atts|);
      ReachedSound(pre, atts, k);
      StepFailsExactly(pre, IndexFor(pre), Reached(pre, atts, k).value, atts[k]);
      assert FailsAt(pre, atts, k);
    }
    if exists k: nat :: FailsAt(pre, atts, k) {
      var k: nat :| FailsAt(pre, atts, k);
      ReachedSound(pre, atts, k);
      StepFailsExactly(pre, IndexFor(pre), Reached(pre, atts, k).value, atts[k]);
      FailureEndsLoop(pre, atts, k);
    }
  }

  /** The attestation speaks of slots that the chain has reached and of known validators. */
  ghost predicate Answerable(pre: State, att: AggregatedAttestation) {
    && att.data.source.slot < |pre.history| && att.data.target.slot < |pre.history|
    && forall id :: id in Members(att.bits) ==> id < pre.validators
  }

  lemma AnswerableNeverFails(pre: State, atts: seq<AggregatedAttestation>)
    requires Sound(pre) && forall i :: 0 <= i < |atts| ==> Harmless(pre, atts[i]) && Answerable(pre, atts[i])
    ensures AfterAttestations(pre, atts).Ok?
  {
    hide Sound, Reached, Countable, Unflatten, Members;
    SoundMeansProgressSound(pre);
    HarmlessNeverPanics(pre, atts);
    AttestationsFailExactly(pre, atts);
  }

  /** When the state transition of a reachable state panics. */
  lemma TransitionPanicsExactly(h: Hasher, st: State, b: Block)
    requires Reachable(h, st)
    ensures Transition(h, st, b).Panic? <==>
            && BlockPre(h, st, b).Ok? && !HasDuplicateData(h, b.body)
            && exists k: nat :: PanicsAt(BlockPre(h, st, b).value, b.body, k)
  {
    hide Reachable, Sound, AfterAttestations, HasDuplicateData, ExtendToSlot, PanicsAt;
    ReachableHeader(h, st);
    if BlockPre(h, st, b).Ok? {
      var pre := BlockPre(h, st, b).value;
      HeaderKeepsSound(h, st, b);
      SoundMeansProgressSound(pre);
      AttestationsPanicExactly(pre, b.body);
    }
  }

  // Justified slots.

  /** Attestation k of the list completes a supermajority when the list is processed. */
  ghost predicate JustifiesAt(pre: State, atts: seq<AggregatedAttestation>, k: nat) {
    k < |atts| && Reached(pre, atts, k).Ok? && Justifies(pre, Reached(pre, atts, k).value, atts[k])
  }

  ghost predicate JustifiesSlot(pre: State, atts: seq<AggregatedAttestation>, n: nat, slot: Slot) {
    exists k: nat :: k < n && JustifiesAt(pre, atts, k) && atts[k].data.target.slot == slot
  }

  /** One more attestation justifies its target, if it completes a supermajority. */
  lemma JustifiesSlotNext(pre: State, atts: seq<AggregatedAttestation>, n: nat, slot: Slot)
    requires n < |atts|
    ensures JustifiesSlot(pre, atts, n + 1, slot) <==>
            JustifiesSlot(pre, atts, n, slot) || (JustifiesAt(pre, atts, n) && atts[n].data.target.slot == slot)
  {
    hide JustifiesAt;
  }

  lemma {:induction false} ReachedMarks(pre: State, atts: seq<AggregatedAttestation>, n: nat, slot: Slot)
    requires n <= |atts| && Reached(pre, atts, n).Ok?
    ensures var p := Reached(pre, atts, n).value;
            Marked(p.window, p.finalized.slot, slot) <==>
            slot <= p.finalized.slot || Marked(pre.window, pre.finalized.slot, slot) || JustifiesSlot(pre, atts, n, slot)
    decreases n
  {
    hide Marked, Step, Guarded, Justifies, JustifiesSlot, NextJustifiable;
    if n == 0 {
      assert atts[..0] == [];
      NothingJustified(pre, atts, slot);
      FinalizedIsMarked(pre.window, pre.finalized.slot, slot);
    } else {
      ReachedPrefixOk(pre, atts, n);
      var q, p := Reached(pre, atts, n - 1).value, Reached(pre, atts, n).value;
      ReachedMarks(pre, atts, n - 1, slot);
      ReachedGuarded(pre, atts, n - 1);
      JustifiesSlotNext(pre, atts, n - 1, slot);
      StepKeepsGuard(pre, IndexFor(pre), q, atts[n - 1]);
      if Justifies(pre, q, atts[n - 1]) {
        JustificationExact(pre, IndexFor(pre), q, atts[n - 1]);
      } else {
        OnlySupermajoritiesJustify(pre, IndexFor(pre), q, atts[n - 1]);
      }
      FinalizedIsMarked(p.window, p.finalized.slot, slot);
    }
  }

  lemma NothingJustified(pre: State, atts: seq<AggregatedAttestation>, slot: Slot)
    ensures !JustifiesSlot(pre, atts, 0, slot)
  {
  }

  lemma FinalizedIsMarked(window: seq<bool>, finalized: Slot, slot: Slot)
    ensures slot <= finalized ==> Marked(window, finalized, slot)
  {
  }

  lemma ReachedPrefixOk(pre: State, atts: seq<AggregatedAttestation>, n: nat)
    requires 0 < n <= |atts| && Reached(pre, atts, n).Ok?
    ensures Reached(pre, atts, n - 1).Ok?
    ensures Reached(pre, atts, n) == Step(pre, IndexFor(pre), Reached(pre, atts, n - 1).value, atts[n - 1])
  {
    hide Step;
    assert atts[..n][..n - 1] == atts[..n - 1];
  }

  lemma AfterIsReached(pre: State, atts: seq<AggregatedAttestation>)
    requires AfterAttestations(pre, atts).Ok?
    ensures Reached(pre, atts, |atts|).Ok?
    ensures AfterAttestations(pre, atts) == Ok(WriteBack(pre, Reached(pre, atts, |atts|).value))
  {
    hide Run, Unflatten;
    LoopIsReached(pre, atts);
  }

  /** Which slots are justified after the attestations of a block: those up to the new
      finality, those that were, and the targets of completed supermajorities. */
  lemma BodyMarksExactly(pre: State, atts: seq<AggregatedAttestation>, slot: Slot)
    requires AfterAttestations(pre, atts).Ok?
    ensures var post := AfterAttestations(pre, atts).value;
            Marked(post.window, post.finalized.slot, slot) <==>
            slot <= post.finalized.slot || Marked(pre.window, pre.finalized.slot, slot) || JustifiesSlot(pre, atts, |atts|, slot)
  {
    hide Marked, Reached, JustifiesSlot;
    AfterIsReached(pre, atts);
    ReachedMarks(pre, atts, |atts|, slot);
  }

  /** The header step justifies nothing. */
  lemma HeaderMarks(h: Hasher, st: State, b: Block, slot: Slot)
    requires Reachable(h, st) && BlockPre(h, st, b).Ok?
    ensures var pre := BlockPre(h, st, b).value;
            Marked(pre.window, pre.finalized.slot, slot) <==> Marked(st.window, st.finalized.slot, slot)
  {
    hide Reachable, ExtendToSlot, Marked;
    ReachableHeader(h, st);
    ExtendRefinesSet(st.window, st.finalized.slot, b.slot - 1, slot);
  }

  lemma BlockMarksExactly(h: Hasher, st: State, b: Block, slot: Slot)
    requires Reachable(h, st) && Transition(h, st, b).Ok?
    ensures BlockPre(h, st, b).Ok?
    ensures var post := Transition(h, st, b).value;
            Marked(post.window, post.finalized.slot, slot) <==>
            || slot <= post.finalized.slot || Marked(st.window, st.finalized.slot, slot)
            || JustifiesSlot(BlockPre(h, st, b).value, b.body, |b.body|, slot)
  {
    hide Reachable, AfterAttestations, HasDuplicateData, ExtendToSlot, Marked, JustifiesSlot;
    HeaderMarks(h, st, b, slot);
    BodyMarksExactly(BlockPre(h, st, b).value, b.body, slot);
  }

  /** Block i of a chain completes a supermajority for the slot. */
  ghost predicate BlockJustifies(h: Hasher, genesis: State, blocks: seq<Block>, i: nat, slot: Slot) {
    && i < |blocks|
    && var st := Replay(h, genesis, blocks[..i]);
       && st.Ok? && BlockPre(h, st.value, blocks[i]).Ok?
       && JustifiesSlot(BlockPre(h, st.value, blocks[i]).value, blocks[i].body, |blocks[i].body|, slot)
  }

  ghost predicate JustifiedInChain(h: Hasher, genesis: State, blocks: seq<Block>, slot: Slot) {
    exists i: nat :: BlockJustifies(h, genesis, blocks, i, slot)
  }

  lemma BlockJustifiesPrefix(h: Hasher, genesis: State, blocks: seq<Block>, n: nat, i: nat, slot: Slot)
    requires i < n <= |blocks|
    ensures BlockJustifies(h, genesis, blocks[..n], i, slot) <==> BlockJustifies(h, genesis, blocks, i, slot)
  {
    hide Replay, BlockPre, JustifiesSlot;
    assert blocks[..n][..i] == blocks[..i];
  }

  lemma JustifiedInChainSnoc(h: Hasher, genesis: State, blocks: seq<Block>, slot: Slot)
    requires blocks != []
    ensures JustifiedInChain(h, genesis, blocks, slot) <==>
            || JustifiedInChain(h, genesis, blocks[..|blocks| - 1], slot)
            || BlockJustifies(h, genesis, blocks, |blocks| - 1, slot)
  {
    hide BlockJustifies;
    var n := |blocks| - 1;
    forall i: nat | i < n
      ensures BlockJustifies(h, genesis, blocks[..n], i, slot) <==> BlockJustifies(h, genesis, blocks, i, slot)
    {
      BlockJustifiesPrefix(h, genesis, blocks, n, i, slot);
    }
    BlockIndexBound(h, genesis, blocks, slot);
    BlockIndexBound(h, genesis, blocks[..n], slot);
  }

  lemma BlockIndexBound(h: Hasher, genesis: State, blocks: seq<Block>, slot: Slot)
    ensures forall i: nat :: BlockJustifies(h, genesis, blocks, i, slot) ==> i < |blocks|
  {
  }

  /** The window of every state of every chain means exactly this: a slot is justified if and
      only if it is finalized or some block of the chain completed a supermajority for it. */
  lemma {:induction false} ChainWindowExact(h: Hasher, genesisTime: nat, validators: nat, blocks: seq<Block>, st: State, slot: Slot)
    requires IsChain(h, genesisTime, validators, blocks, st)
    ensures Marked(st.window, st.finalized.slot, slot) <==>
            slot <= st.finalized.slot || JustifiedInChain(h, Genesis(h, genesisTime, validators), blocks, slot)
    decreases |blocks|
  {
    hide Transition, Reachable, Sound, BlockPre, JustifiesSlot, JustifiedInChain;
    var genesis := Genesis(h, genesisTime, validators);
    if blocks == [] {
      NothingInEmptyChain(h, genesis, slot);
    } else {
      var init, b := blocks[..|blocks| - 1], blocks[|blocks| - 1];
      var before := ChainSplit(h, genesisTime, validators, blocks, st);
      ChainReachable(h, genesisTime, validators, init, before);
      ChainWindowExact(h, genesisTime, validators, init, before, slot);
      TransitionKeepsSound(h, before, b);
      BlockMarksExactly(h, before, b, slot);
      JustifiedInChainSnoc(h, genesis, blocks, slot);
    }
  }

  lemma NothingInEmptyChain(h: Hasher, genesis: State, slot: Slot)
    ensures !JustifiedInChain(h, genesis, [], slot)
  {
  }

  /** No justified slot is ever forgotten. */
  lemma JustifiedIsForever(h: Hasher, genesisTime: nat, validators: nat, blocks: seq<Block>, st: State, k: nat, slot: Slot)
    returns (early: State)
    requires IsChain(h, genesisTime, validators, blocks, st) && k <= |blocks|
    ensures IsChain(h, genesisTime, validators, blocks[..k], early)
    ensures Marked(early.window, early.finalized.slot, slot) ==> Marked(st.window, st.finalized.slot, slot)
  {
    hide IsChain, Marked, BlockJustifies;
    var genesis := Genesis(h, genesisTime, validators);
    early := ChainNeverGoesBack(h, genesisTime, validators, blocks, st, k);
    ChainWindowExact(h, genesisTime, validators, blocks[..k], early, slot);
    ChainWindowExact(h, genesisTime, validators, blocks, st, slot);
    if JustifiedInChain(h, genesis, blocks[..k], slot) {
      var i: nat :| BlockJustifies(h, genesis, blocks[..k], i, slot);
      BlockIndexBound(h, genesis, blocks[..k], slot);
      BlockJustifiesPrefix(h, genesis, blocks, k, i, slot);
    }
  }

  // The justified checkpoint.

  /** Attestation k completes the last supermajority among the first n attestations. */
  ghost predicate LastJustifies(pre: State, atts: seq<AggregatedAttestation>, n: nat, k: nat) {
    k < n && JustifiesAt(pre, atts, k) && forall j: nat :: k < j < n ==> !JustifiesAt(pre, atts, j)
  }

  lemma {:induction false} ReachedJustified(pre: State, atts: seq<AggregatedAttestation>, n: nat)
    requires n <= |atts| && Reached(pre, atts, n).Ok?
    ensures forall k: nat :: LastJustifies(pre, atts, n, k) ==> Reached(pre, atts, n).value.justified == atts[k].data.target
    ensures (forall k: nat :: k < n ==> !JustifiesAt(pre, atts, k)) ==> Reached(pre, atts, n).value.justified == pre.justified
    decreases n
  {
    hide Step, Guarded, Justifies, NextJustifiable, Marked;
    if n == 0 {
      assert atts[..0] == [];
    } else {
      ReachedPrefixOk(pre, atts, n);
      var q := Reached(pre, atts, n - 1).value;
      ReachedJustified(pre, atts, n - 1);
      ReachedGuarded(pre, atts, n - 1);
      if Justifies(pre, q, atts[n - 1]) {
        JustificationExact(pre, IndexFor(pre), q, atts[n - 1]);
        assert JustifiesAt(pre, atts, n - 1);
      } else {
        OnlySupermajoritiesJustify(pre, IndexFor(pre), q, atts[n - 1]);
        forall k: nat ensures LastJustifies(pre, atts, n - 1, k) <==> LastJustifies(pre, atts, n, k) {}
      }
    }
  }

  lemma {:induction false} LastExists(pre: State, atts: seq<AggregatedAttestation>, n: nat, some: nat) returns (k: nat)
    requires some < n && JustifiesAt(pre, atts, some)
    ensures LastJustifies(pre, atts, n, k)
    decreases n
  {
    hide JustifiesAt;
    if JustifiesAt(pre, atts, n - 1) { k := n - 1; } else { k := LastExists(pre, atts, n - 1, some); }
  }

  /** The justified checkpoint after the attestations of a block is the target of the last
      completed supermajority, or the one from before if there was none. */
  lemma JustifiedIsLastTarget(pre: State, atts: seq<AggregatedAttestation>)
    requires AfterAttestations(pre, atts).Ok?
    ensures forall k: nat :: LastJustifies(pre, atts, |atts|, k) ==> AfterAttestations(pre, atts).value.justified == atts[k].data.target
    ensures (forall k: nat :: !JustifiesAt(pre, atts, k)) ==> AfterAttestations(pre, atts).value.justified == pre.justified
  {
    hide Reached, LastJustifies, JustifiesAt;
    AfterIsReached(pre, atts);
    ReachedJustified(pre, atts, |atts|);
  }

  lemma JustifiesAtBound(pre: State, atts: seq<AggregatedAttestation>, k: nat)
    requires JustifiesAt(pre, atts, k)
    ensures k < |atts|
  {
  }

  /** A block lowers the justified slot exactly when the last supermajority that its
      attestations complete is for an earlier target. */
  lemma JustifiedMovesBackExactly(h: Hasher, st: State, b: Block)
    requires Reachable(h, st) && Transition(h, st, b).Ok?
    ensures BlockPre(h, st, b).Ok?
    ensures Transition(h, st, b).value.justified.slot < st.justified.slot <==>
            exists k: nat :: LastJustifies(BlockPre(h, st, b).value, b.body, |b.body|, k) && b.body[k].data.target.slot < st.justified.slot
  {
    hide Reachable, AfterAttestations, HasDuplicateData, ExtendToSlot, JustifiesAt;
    ReachableHeader(h, st);
    var pre := BlockPre(h, st, b).value;
    JustifiedIsLastTarget(pre, b.body);
    if some: nat :| JustifiesAt(pre, b.body, some) {
      JustifiesAtBound(pre, b.body, some);
      var k := LastExists(pre, b.body, |b.body|, some);
    }
  }

  /** What a caller can check beforehand: if no target lies before the justified slot, the
      block does not lower it. */
  lemma LateTargetsNeverMoveBack(h: Hasher, st: State, b: Block)
    requires Reachable(h, st) && Transition(h, st, b).Ok?
    requires forall i :: 0 <= i < |b.body| ==> b.body[i].data.target.slot >= st.justified.slot
    ensures Transition(h, st, b).value.justified.slot >= st.justified.slot
  {
    hide Reachable, Transition, BlockPre, JustifiesAt;
    JustifiedMovesBackExactly(h, st, b);
  }
}
