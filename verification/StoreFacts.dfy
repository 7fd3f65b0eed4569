/** What every run of a node guarantees about its store. */
module StoreFacts {
  import opened Containers
  import opened Aggregation
  import opened StateTransitions
  import opened Chain
  import opened Bodies
  import opened Provenance
  import opened BlockTree
  import opened HeadTheorems
  import opened StoreTree
  import opened StoreModel
  import opened Imports
  import opened Arrivals
  import opened Runs

  ghost predicate IsRun(env: Env, events: seq<Event>, s: View) {
    env.Valid() && InUniverse(env, events) && Play(env.h, Initial(env), events) == Ok(s)
  }

  lemma RunInv(env: Env, events: seq<Event>, s: View)
    requires IsRun(env, events, s)
    ensures Inv(env, s) && QueueShape(env, s.queue) && OnlyDelivered(env, s, Delivered(events)) && Quiet(env, s, Delivered(events))
  {
    hide Quiet, Coherent, Greatest;
    RunsStayQuiet(env, events);
    QuietInv(env, s, Delivered(events));
  }

  lemma FitAt(env: Env, s: View, r: Root)
    requires Coherent(env, s) && r in s.states
    ensures WellFormed(s.blocks) && Rooted(s.blocks) && StateFits(env, s.blocks, r, s.states[r])
  {
    hide Transition, Reachable;
    StoreIsRooted(env, s);
  }

  /** The history of a state is exactly the parent walk of its block: every proper ancestor sits
      at the index of its slot, and every other entry is zero. */
  ghost predicate IsParentWalk(blocks: Blocks, r: Root, st: State)
    requires WellFormed(blocks)
  {
    && r in blocks && |st.history| == blocks[r].slot == st.header.slot
    && (forall a :: Descends(blocks, r, a) && a != r ==>
          a in blocks && blocks[a].slot < blocks[r].slot && st.history[blocks[a].slot] == a)
    && (forall i :: 0 <= i < |st.history| && st.history[i] != ZERO_ROOT ==>
          var a := st.history[i]; Descends(blocks, r, a) && a != r && a in blocks && blocks[a].slot == i)
  }

  lemma HistoryExact(env: Env, s: View, r: Root)
    requires Coherent(env, s) && r in s.states
    ensures WellFormed(s.blocks) && IsParentWalk(s.blocks, r, s.states[r])
  {
    hide Coherent;
    FitAt(env, s, r);
    ReachableHeader(env.h, s.states[r]);
    HistoryLength(s.blocks, r);
    forall a | Descends(s.blocks, r, a) && a != r
      ensures a in s.blocks && s.blocks[a].slot < s.blocks[r].slot && s.states[r].history[s.blocks[a].slot] == a
    {
      AncestorsAreInHistory(s.blocks, r, a);
    }
    forall i | 0 <= i < |s.states[r].history| && s.states[r].history[i] != ZERO_ROOT
      ensures var a := s.states[r].history[i]; Descends(s.blocks, r, a) && a != r && a in s.blocks && s.blocks[a].slot == i
    {
      HistoryNamesAncestors(s.blocks, r, i);
    }
  }

  /** In every run, the history of every stored state is its parent walk. */
  lemma RunHistoryExact(env: Env, events: seq<Event>, s: View, r: Root)
    requires IsRun(env, events, s) && r in s.states
    ensures WellFormed(s.blocks) && IsParentWalk(s.blocks, r, s.states[r])
  {
    hide Coherent, Greatest, Quiet, IsParentWalk;
    RunInv(env, events, s);
    HistoryExact(env, s, r);
  }

  /** In every run, the store's checkpoints have the greatest slots among the stored states,
      name stored blocks of those slots, and the head descends from the justified one. */
  lemma RunCheckpointsGreatest(env: Env, events: seq<Event>, s: View)
    requires IsRun(env, events, s)
    ensures forall r :: r in s.states ==>
              s.states[r].justified.slot <= s.justified.slot && s.states[r].finalized.slot <= s.finalized.slot
    ensures exists r :: r in s.states && s.states[r].justified.slot == s.justified.slot
    ensures exists r :: r in s.states && s.states[r].finalized.slot == s.finalized.slot
    ensures s.justified.root in s.blocks && s.blocks[s.justified.root].slot == s.justified.slot
    ensures s.finalized.root in s.blocks && s.blocks[s.finalized.root].slot == s.finalized.slot
    ensures WellFormed(s.blocks) && Descends(s.blocks, s.head, s.justified.root)
  {
    RunInv(env, events, s);
    CheckpointsGreatest(env, s);
  }

  lemma CheckpointsGreatest(env: Env, s: View)
    requires Inv(env, s)
    ensures forall r :: r in s.states ==>
              s.states[r].justified.slot <= s.justified.slot && s.states[r].finalized.slot <= s.finalized.slot
    ensures exists r :: r in s.states && s.states[r].justified.slot == s.justified.slot
    ensures exists r :: r in s.states && s.states[r].finalized.slot == s.finalized.slot
  {
    hide Transition, Reachable;
    var jp, fp := JustifiedPoints(s.states), FinalizedPoints(s.states);
    forall r | r in s.states
      ensures s.states[r].justified.slot <= s.justified.slot && s.states[r].finalized.slot <= s.finalized.slot
    {
      assert jp[r] == s.states[r].justified && fp[r] == s.states[r].finalized;
    }
    var anchor := env.AnchorRoot();
    assert s.states[anchor].justified.slot == 0 == s.states[anchor].finalized.slot;
    if s.justified != Checkpoint(anchor, 0) {
      var r :| r in jp && jp[r] == s.justified;
      assert r in s.states && s.states[r].justified.slot == s.justified.slot;
    }
    if s.finalized != Checkpoint(anchor, 0) {
      var r :| r in fp && fp[r] == s.finalized;
      assert r in s.states && s.states[r].finalized.slot == s.finalized.slot;
    }
  }

  /** The state from which the store took its justified checkpoint. */
  lemma JustifiedOrigin(env: Env, s: View) returns (r: Root)
    requires Inv(env, s) && s.justified.slot > 0
    ensures r in s.states && s.states[r].justified == s.justified
  {
    hide Transition, Reachable;
    var points := JustifiedPoints(s.states);
    r :| r in points && points[r] == s.justified;
  }

  lemma FinalizedOrigin(env: Env, s: View) returns (r: Root)
    requires Inv(env, s) && s.finalized.slot > 0
    ensures r in s.states && s.states[r].finalized == s.finalized
  {
    hide Transition, Reachable;
    var points := FinalizedPoints(s.states);
    r :| r in points && points[r] == s.finalized;
  }

  /** In every run, what the store calls justified (or finalized) was voted for by two thirds
      of the validators in a chain of delivered blocks. */
  lemma RunCheckpointsBacked(env: Env, events: seq<Event>, s: View)
    requires IsRun(env, events, s)
    ensures s.justified.slot > 0 ==>
              exists path, r, st :: IsChainTo(env, Delivered(events), path, r, st) && st.justified == s.justified &&
                                    Backed(Log(path), env.validators, s.justified.root)
    ensures s.finalized.slot > 0 ==>
              exists path, r, st :: IsChainTo(env, Delivered(events), path, r, st) && st.finalized == s.finalized &&
                                    Backed(Log(path), env.validators, s.finalized.root)
  {
    hide Coherent, Greatest, Quiet, Backed;
    RunInv(env, events, s);
    if s.justified.slot > 0 {
      var r := JustifiedOrigin(env, s);
      var path := StoredHasChain(env, s, Delivered(events), r);
      ChainTraced(env.h, env.genesisTime, env.validators, path, s.states[r]);
      ChainReachable(env.h, env.genesisTime, env.validators, path, s.states[r]);
      assert IsChainTo(env, Delivered(events), path, r, s.states[r]);
    }
    if s.finalized.slot > 0 {
      var r := FinalizedOrigin(env, s);
      var path := StoredHasChain(env, s, Delivered(events), r);
      ChainTraced(env.h, env.genesisTime, env.validators, path, s.states[r]);
      ChainReachable(env.h, env.genesisTime, env.validators, path, s.states[r]);
      assert IsChainTo(env, Delivered(events), path, r, s.states[r]);
    }
  }

  /** In every run, when the safe target is recomputed and all pending voters are validators,
      the blocks on the path to it below the justified root are exactly those with two
      thirds of the validators among the pending votes in their subtree. */
  lemma RunSafeTargetExact(env: Env, events: seq<Event>, s: View, d: Root)
    requires IsRun(env, events, s) && VotersBelow(s.recent, env.validators) && WellFormed(s.blocks)
    requires Descends(s.blocks, d, s.justified.root) && d != s.justified.root
    ensures Descends(s.blocks, WithSafeTarget(s).safeTarget, d) <==> 3 * Weight(s.blocks, s.recent, d) >= 2 * env.validators
  {
    hide Coherent, Greatest, Quiet, GhostHead, Weight, Descends;
    RunCheckpointsGreatest(env, events, s);
    RunInv(env, events, s);
    assert s.head in s.blocks by { DescendsFacts(s.blocks, s.head, s.justified.root); }
    assert ValidatorsAtHead(s) == env.validators by { KeysAgree(env, s, Delivered(events)); FitAt(env, s, s.head); }
    assert env.validators > 0;
    SafeTargetExact(s.blocks, s.recent, env.validators, s.justified.root, d);
  }

  // When a run can crash.

  /** Attestation k of a delivered block panics, on top of an accepted chain of delivered
      blocks; see `Finality.PanicsOn` for what that takes. */
  ghost predicate FatalVote(env: Env, delivered: set<Block>, path: seq<Block>, st: State, d: Block, k: nat) {
    && d in delivered && IsChainTo(env, delivered, path, TipRoot(env, path), st)
    && BlockPre(env.h, st, d).Ok? && !HasDuplicateData(env.h, d.body)
    && PanicsAt(BlockPre(env.h, st, d).value, d.body, k)
  }

  lemma ChainToReachable(env: Env, delivered: set<Block>, path: seq<Block>, r: Root, st: State)
    requires env.validators > 0 && IsChainTo(env, delivered, path, r, st)
    ensures IsChain(env.h, env.genesisTime, env.validators, path, st) && Reachable(env.h, st)
  {
    hide Reachable, Transition;
    ChainReachable(env.h, env.genesisTime, env.validators, path, st);
  }

  /** A run crashes exactly when some delivered block, on top of an accepted chain of delivered
      blocks, carries an attestation that panics: one without participants, or one that
      completes a supermajority although its source lies before finality. No lookup of a
      block or state ever fails. */
  lemma RunCrashesOnlyInAttestations(env: Env, events: seq<Event>)
    requires env.Valid() && InUniverse(env, events)
    ensures !Play(env.h, Initial(env), events).Ok? <==>
            exists path, st, d, k: nat :: FatalVote(env, Delivered(events), path, st, d, k)
    ensures !Play(env.h, Initial(env), events).Ok? ==>
              Play(env.h, Initial(env), events) in {Panic(NoParticipants), Panic(BeforeFinalized)}
  {
    hide Play, Reachable, Transition, IsChainTo, BlockPre, PanicsAt, HasDuplicateData, IsChain;
    RunCrashesExactly(env, events);
    var all := Delivered(events);
    if Play(env.h, Initial(env), events).Panic? {
      var path, st, d :| IsFatal(env, all, path, st, d, Play(env.h, Initial(env), events).fault);
      ChainToReachable(env, all, path, TipRoot(env, path), st);
      TransitionPanicsExactly(env.h, st, d);
      TransitionFailures(env.h, st, d);
      var k: nat :| PanicsAt(BlockPre(env.h, st, d).value, d.body, k);
      assert FatalVote(env, all, path, st, d, k);
    }
    if exists path, st, d, k: nat :: FatalVote(env, all, path, st, d, k) {
      var path, st, d, k: nat :| FatalVote(env, all, path, st, d, k);
      ChainToReachable(env, all, path, TipRoot(env, path), st);
      TransitionPanicsExactly(env.h, st, d);
      assert IsFatal(env, all, path, st, d, Transition(env.h, st, d).fault);
      assert CrashesWith(env, all, Transition(env.h, st, d).fault);
    }
  }

  // Growth along a run.

  lemma {:induction false} DrainListGrows(env: Env, s: View, list: seq<SignedBlock>, roots: seq<Root>)
    requires Coherent(env, s) && forall i :: 0 <= i < |list| ==> list[i].block in env.universe
    ensures Upholds(env, s, DrainList(env.h, s, list, roots).0) && Grows(s, DrainList(env.h, s, list, roots).0)
    decreases |list|
  {
    hide Coherent, Greatest, AfterImport;
    if list != [] {
      ImportAlwaysGrows(env, s, list[0]);
      var (t, result) := AfterImport(env.h, s, list[0]);
      if !result.Panic? {
        var more := if result.Ok? then roots + [BlockRoot(env.h, list[0].block)] else roots;
        DrainListGrows(env, t, list[1..], more);
        GrowsTransitive(s, t, DrainList(env.h, t, list[1..], more).0);
      }
    }
  }

  lemma {:induction false} DrainGrows(env: Env, s: View, roots: seq<Root>)
    requires Coherent(env, s) && QueueShape(env, s.queue)
    ensures Upholds(env, s, Drain(env.h, s, roots).0) && Grows(s, Drain(env.h, s, roots).0)
    ensures QueueShape(env, Drain(env.h, s, roots).0.queue)
    decreases |s.queue|, |roots|
  {
    hide Coherent, Greatest, DrainList, Grows;
    GrowsReflexive(s);
    if roots != [] {
      var parent, rest := roots[|roots| - 1], roots[..|roots| - 1];
      if parent !in s.queue {
        DrainGrows(env, s, rest);
      } else {
        var popped := s.(queue := s.queue - {parent});
        QueueKeepsInv(env, s, popped.queue);
        QueueShrinks(s.queue, parent);
        assert ListShape(env, parent, s.queue[parent]);
        DrainListGrows(env, popped, s.queue[parent], rest);
        var (t, more, result) := DrainList(env.h, popped, s.queue[parent], rest);
        PopGrows(s, popped, t);
        if !result.Panic? {
          DrainGrows(env, t, more);
          GrowsTransitive(s, t, Drain(env.h, t, more).0);
        }
      }
    }
  }

  lemma GrowsReflexive(s: View)
    ensures Grows(s, s)
  {
  }

  lemma PopGrows(s: View, popped: View, t: View)
    requires popped == s.(queue := popped.queue) && Grows(popped, t)
    ensures Grows(s, t)
  {
  }

  lemma ArrivalGrows(env: Env, s: View, sb: SignedBlock)
    requires Coherent(env, s) && QueueShape(env, s.queue) && sb.block in env.universe
    ensures Upholds(env, s, AfterArrival(env.h, s, sb).0) && Grows(s, AfterArrival(env.h, s, sb).0)
    ensures QueueShape(env, AfterArrival(env.h, s, sb).0.queue)
  {
    hide Coherent, Greatest, AfterImport, Drain;
    var root, parent := BlockRoot(env.h, sb.block), sb.block.parentRoot;
    if root in s.blocks {
    } else if parent !in s.states && parent != ZERO_ROOT {
      QueueKeepsInv(env, s, Enqueue(s.queue, sb));
      EnqueueKeepsShape(env, s.queue, sb);
    } else {
      ImportAlwaysGrows(env, s, sb);
      var (t, result) := AfterImport(env.h, s, sb);
      if result.Ok? {
        DrainGrows(env, t, [root]);
        GrowsTransitive(s, t, Drain(env.h, t, [root]).0);
      }
    }
  }

  lemma EventGrows(env: Env, s: View, e: Event)
    requires Coherent(env, s) && QueueShape(env, s.queue) && (e.Arrive? ==> e.signed.block in env.universe)
    ensures Upholds(env, s, After(env.h, s, e).0) && Grows(s, After(env.h, s, e).0)
    ensures QueueShape(env, After(env.h, s, e).0.queue)
  {
    hide Coherent, Greatest, AfterArrival, TickTo, AfterAttestation, WithAccepted;
    match e
    case Tick(time, hasProposal) =>
      TickKeepsInv(env, s, TargetInterval(s, time), hasProposal);
    case Vote(id, data, fromBlock) =>
      VoteKeepsInv(env, s, id, data, fromBlock);
    case Arrive(signed) =>
      ArrivalGrows(env, s, signed);
    case Propose(slot) =>
      var target := TargetInterval(s, s.genesisTime + slot * SECONDS_PER_SLOT);
      TickKeepsInv(env, s, target, true);
      AcceptKeepsInv(env, TickTo(s, target, true));
  }

  /** Along every run nothing stored is lost, and a checkpoint is only ever replaced by one of
      a greater slot: neither moves back, and neither switches between forks at one slot. */
  lemma {:induction false} RunNeverGoesBack(env: Env, events: seq<Event>, s: View, k: nat) returns (earlier: View)
    requires IsRun(env, events, s) && k <= |events|
    ensures IsRun(env, events[..k], earlier) && Grows(earlier, s)
    ensures Advances(earlier.justified, s.justified) && Advances(earlier.finalized, s.finalized)
    decreases |events|
  {
    hide Coherent, Greatest, Quiet, After;
    if k == |events| {
      assert events[..k] == events;
      earlier := s;
    } else {
      var init, last := events[..|events| - 1], events[|events| - 1];
      assert init[..k] == events[..k];
      var before := Play(env.h, Initial(env), init).value;
      earlier := RunNeverGoesBack(env, init, before, k);
      RunInv(env, init, before);
      EventGrows(env, before, last);
      GrowsTransitive(earlier, before, s);
    }
  }

  /** A vote that passes the checks at some point of a run passes them ever after, and one that
      contradicts stored blocks or itself fails ever after, with the same error. */
  lemma ValidityLasts(env: Env, events: seq<Event>, s: View, k: nat, data: AttestationData) returns (earlier: View)
    requires IsRun(env, events, s) && k <= |events|
    ensures IsRun(env, events[..k], earlier)
    ensures Validate(earlier, data).Ok? ==> Validate(s, data).Ok?
    ensures Validate(earlier, data) in {Err(SourceAfterTarget), Err(SourceSlotMismatch), Err(TargetSlotMismatch)} ==>
              Validate(s, data) == Validate(earlier, data)
  {
    hide IsRun;
    earlier := RunNeverGoesBack(env, events, s, k);
  }

  // The head is always up to date.

  ghost predicate HeadCurrent(s: View) {
    Anchored(s) && s.head == GhostHead(s.blocks, s.known, 0, s.justified.root)
  }

  lemma InvAnchored(env: Env, s: View)
    requires Coherent(env, s)
    ensures Anchored(s)
  {
  }

  lemma ImportSetsHead(env: Env, s: View, sb: SignedBlock)
    requires Inv(env, s) && sb.block in env.universe && AfterImport(env.h, s, sb).1.Ok?
    ensures HeadCurrent(AfterImport(env.h, s, sb).0)
  {
    hide Coherent, Greatest, Transition;
    ImportAlwaysGrows(env, s, sb);
    InvAnchored(env, AfterImport(env.h, s, sb).0);
  }

  lemma {:induction false} DrainListKeepsHead(env: Env, s: View, list: seq<SignedBlock>, roots: seq<Root>)
    requires Inv(env, s) && HeadCurrent(s) && forall i :: 0 <= i < |list| ==> list[i].block in env.universe
    ensures HeadCurrent(DrainList(env.h, s, list, roots).0)
    decreases |list|
  {
    hide Coherent, Greatest, AfterImport, HeadCurrent;
    if list != [] {
      ImportAlwaysGrows(env, s, list[0]);
      var (t, result) := AfterImport(env.h, s, list[0]);
      if result.Ok? { ImportSetsHead(env, s, list[0]); }
      if !result.Panic? {
        DrainListKeepsHead(env, t, list[1..], if result.Ok? then roots + [BlockRoot(env.h, list[0].block)] else roots);
      }
    }
  }

  lemma {:induction false} DrainKeepsHead(env: Env, s: View, roots: seq<Root>)
    requires Inv(env, s) && QueueShape(env, s.queue) && HeadCurrent(s)
    ensures HeadCurrent(Drain(env.h, s, roots).0)
    decreases |s.queue|, |roots|
  {
    hide Coherent, Greatest, DrainList;
    if roots != [] {
      var parent, rest := roots[|roots| - 1], roots[..|roots| - 1];
      if parent !in s.queue {
        DrainKeepsHead(env, s, rest);
      } else {
        var popped := s.(queue := s.queue - {parent});
        QueueKeepsInv(env, s, popped.queue);
        QueueShrinks(s.queue, parent);
        assert ListShape(env, parent, s.queue[parent]);
        DrainListGrows(env, popped, s.queue[parent], rest);
        DrainListKeepsHead(env, popped, s.queue[parent], rest);
        var (t, more, result) := DrainList(env.h, popped, s.queue[parent], rest);
        if !result.Panic? { DrainKeepsHead(env, t, more); }
      }
    }
  }

  lemma IntervalKeepsHead(env: Env, s: View, hasProposal: bool)
    requires Inv(env, s) && HeadCurrent(s)
    ensures HeadCurrent(AfterInterval(s, hasProposal))
  {
    hide Coherent, Greatest, GhostHead, Anchored;
    IntervalKeepsInv(env, s, hasProposal);
    InvAnchored(env, AfterInterval(s, hasProposal));
  }

  lemma {:induction false} TickKeepsHead(env: Env, s: View, target: nat, hasProposal: bool)
    requires Inv(env, s) && HeadCurrent(s)
    ensures HeadCurrent(TickTo(s, target, hasProposal))
    decreases target - s.time
  {
    hide Coherent, Greatest, AfterInterval, HeadCurrent;
    if s.time < target {
      var signal := hasProposal && s.time + 1 == target;
      IntervalKeepsInv(env, s, signal);
      IntervalKeepsHead(env, s, signal);
      TickKeepsHead(env, AfterInterval(s, signal), target, hasProposal);
    }
  }

  lemma ArrivalKeepsHead(env: Env, s: View, sb: SignedBlock)
    requires Inv(env, s) && QueueShape(env, s.queue) && HeadCurrent(s) && sb.block in env.universe
    ensures HeadCurrent(AfterArrival(env.h, s, sb).0)
  {
    hide Coherent, Greatest, Drain, AfterImport, GhostHead;
    if BlockRoot(env.h, sb.block) !in s.blocks {
      ImportAlwaysGrows(env, s, sb);
      var (t, result) := AfterImport(env.h, s, sb);
      if result.Ok? {
        ImportSetsHead(env, s, sb);
        DrainKeepsHead(env, t, [BlockRoot(env.h, sb.block)]);
      }
    }
  }

  lemma EventKeepsHead(env: Env, s: View, e: Event)
    requires Inv(env, s) && QueueShape(env, s.queue) && HeadCurrent(s)
    requires (e.Arrive? ==> e.signed.block in env.universe) && (e.Vote? ==> !e.fromBlock)
    ensures HeadCurrent(After(env.h, s, e).0)
  {
    hide Coherent, Greatest, AfterArrival, TickTo, GhostHead;
    match e
    case Tick(time, hasProposal) =>
      TickKeepsHead(env, s, TargetInterval(s, time), hasProposal);
    case Vote(id, data, fromBlock) =>
    case Arrive(signed) =>
      ArrivalKeepsHead(env, s, signed);
    case Propose(slot) =>
      var target := TargetInterval(s, s.genesisTime + slot * SECONDS_PER_SLOT);
      TickKeepsInv(env, s, target, true);
      InvAnchored(env, TickTo(s, target, true));
  }

  ghost predicate GossipOnly(events: seq<Event>) {
    forall i :: 0 <= i < |events| && events[i].Vote? ==> !events[i].fromBlock
  }

  /** In every run in which votes outside blocks come from gossip, which is how the node calls
      the store, the head is at all times the LMD-GHOST head of the accepted votes. */
  lemma {:induction false} RunHeadIsGhost(env: Env, events: seq<Event>, s: View)
    requires IsRun(env, events, s) && GossipOnly(events)
    ensures Anchored(s) && s.head == GhostHead(s.blocks, s.known, 0, s.justified.root)
    decreases |events|
  {
    hide Coherent, Greatest, Quiet, After;
    if events == [] {
      InitialInv(env);
      InvAnchored(env, s);
      InitialHead(env);
    } else {
      var init, last := events[..|events| - 1], events[|events| - 1];
      var before := Play(env.h, Initial(env), init).value;
      RunHeadIsGhost(env, init, before);
      RunInv(env, init, before);
      EventKeepsHead(env, before, last);
    }
  }

  lemma InitialHead(env: Env)
    requires env.Valid() && WellFormed(Initial(env).blocks)
    ensures Initial(env).head == GhostHead(Initial(env).blocks, map[], 0, env.AnchorRoot())
  {
    assert Children(Initial(env).blocks, map[], 0, env.AnchorRoot()) == {};
  }
}
