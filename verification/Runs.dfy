/** Whole runs of a node: any sequence of ticks, votes, blocks and proposals from genesis. */
module Runs {
  import opened Containers
  import opened StateTransitions
  import opened Aggregation
  import opened Chain
  import opened Bodies
  import opened BlockTree
  import opened HeadTheorems
  import opened StoreModel
  import opened Imports
  import opened Arrivals

  datatype Event =
    | Tick(time: nat, hasProposal: bool)
    | Vote(id: ValidatorId, data: AttestationData, fromBlock: bool)
    | Arrive(signed: SignedBlock)
    | Propose(slot: Slot)

  ghost function After(h: Hasher, s: View, e: Event): (View, Outcome<()>) {
    match e
    case Tick(time, hasProposal) => (AfterTick(s, time, hasProposal), Ok(()))
    case Vote(id, data, fromBlock) => AfterAttestation(s, id, data, fromBlock)
    case Arrive(signed) => AfterArrival(h, s, signed)
    case Propose(slot) => (AtProposal(s, slot), Ok(()))
  }

  /** The store after a list of events. An error return leaves a store to go on with, a
      panic ends the run. */
  ghost function Play(h: Hasher, s: View, events: seq<Event>): Outcome<View>
    decreases |events|
  {
    if events == [] then Ok(s)
    else
      var before :- Play(h, s, events[..|events| - 1]);
      var (after, result) := After(h, before, events[|events| - 1]);
      if result.Panic? then Panic(result.fault) else Ok(after)
  }

  ghost function Initial(env: Env): View {
    StoreFrom(env.h, env.GenesisState(), env.Anchor(), env.genesisTime)
  }

  /** The blocks that were handed to the store. */
  ghost function Delivered(events: seq<Event>): set<Block> {
    set i | 0 <= i < |events| && events[i].Arrive? :: events[i].signed.block
  }

  ghost predicate InUniverse(env: Env, events: seq<Event>) {
    forall i :: 0 <= i < |events| && events[i].Arrive? ==> events[i].signed.block in env.universe
  }

  lemma InitialInv(env: Env)
    requires env.Valid()
    ensures Inv(env, Initial(env))
  {
    hide Transition;
    var s, root := Initial(env), env.AnchorRoot();
    assert env.h.header(env.GenesisState().header.(stateRoot := env.h.state(env.GenesisState()))) == root;
    assert StateFits(env, s.blocks, root, s.states[root]);
  }

  /** What a store made from any anchor looks like: the clock shows the first interval of the
      anchor's slot, the anchor is all there is, and it stands in for a checkpoint that the
      state does not have yet. */
  lemma AnchorStore(h: Hasher, state: State, block: Block, genesisTime: nat)
    ensures var s, root := StoreFrom(h, state, block, genesisTime), BlockRoot(h, block);
            && s.time == 4 * block.slot && s.genesisTime == genesisTime && s.head == root && s.safeTarget == root
            && s.blocks == map[root := block] && s.states == map[root := state]
            && s.justified == (if state.justified.root == ZERO_ROOT then Checkpoint(root, block.slot) else state.justified)
            && s.finalized == (if state.finalized.root == ZERO_ROOT then Checkpoint(root, block.slot) else state.finalized)
            && s.known == map[] && s.recent == map[] && s.queue == map[]
  {
  }

  lemma InitialQuiet(env: Env)
    requires env.Valid()
    ensures Quiet(env, Initial(env), {})
  {
    hide Coherent, Greatest;
    InitialInv(env);
  }

  // Ticks and votes leave blocks, states and the queue alone, and time goes forward.

  ghost predicate SameChain(s: View, t: View) {
    && s.time <= t.time && t.blocks == s.blocks && t.states == s.states && t.queue == s.queue
    && t.justified == s.justified && t.finalized == s.finalized && t.genesisTime == s.genesisTime
  }

  lemma SafeTargetKeepsInv(env: Env, s: View)
    requires Coherent(env, s)
    ensures Upholds(env, s, WithSafeTarget(s)) && SameChain(s, WithSafeTarget(s))
  {
    hide Transition, Reachable, AllSucceed, GhostHead, StateFits;
    var t := WithSafeTarget(s);
    HeadDescendsFromStart(s.blocks, s.recent, SafeThreshold(ValidatorsAtHead(s)), s.justified.root);
    EverythingDescendsFromAnchor(env, s, s.justified.root);
    DescendsTransitive(s.blocks, t.safeTarget, s.justified.root, env.AnchorRoot());
  }

  lemma {:induction false} EverythingDescendsFromAnchor(env: Env, s: View, r: Root)
    requires Coherent(env, s) && r in s.blocks
    ensures Descends(s.blocks, r, env.AnchorRoot())
    decreases SlotOf(s.blocks, r)
  {
    hide Transition, Reachable;
    if r != env.AnchorRoot() {
      assert IsSuccessor(env.h, s.blocks, s.states, r);
      EverythingDescendsFromAnchor(env, s, s.blocks[r].parentRoot);
    }
  }

  lemma AcceptKeepsInv(env: Env, s: View)
    requires Coherent(env, s)
    ensures Upholds(env, s, WithAccepted(s)) && SameChain(s, WithAccepted(s))
  {
    hide Transition, Reachable, AllSucceed, GhostHead, StateFits;
    HeadDescendsFromStart(s.blocks, s.known + s.recent, 0, s.justified.root);
  }

  lemma IntervalKeepsInv(env: Env, s: View, hasProposal: bool)
    requires Coherent(env, s)
    ensures Upholds(env, s, AfterInterval(s, hasProposal)) && SameChain(s, AfterInterval(s, hasProposal))
  {
    hide Coherent, Greatest, WithAccepted, WithSafeTarget;
    var t := s.(time := s.time + 1);
    TimeKeepsInv(env, s, s.time + 1);
    SafeTargetKeepsInv(env, t);
    AcceptKeepsInv(env, t);
  }

  lemma TimeKeepsInv(env: Env, s: View, time: nat)
    requires Coherent(env, s)
    ensures Upholds(env, s, s.(time := time))
  {
  }

  lemma {:induction false} TickKeepsInv(env: Env, s: View, target: nat, hasProposal: bool)
    requires Coherent(env, s)
    ensures Upholds(env, s, TickTo(s, target, hasProposal)) && SameChain(s, TickTo(s, target, hasProposal))
    decreases target - s.time
  {
    hide Coherent, Greatest, AfterInterval;
    if s.time < target {
      var signal := hasProposal && s.time + 1 == target;
      IntervalKeepsInv(env, s, signal);
      TickKeepsInv(env, AfterInterval(s, signal), target, hasProposal);
    }
  }

  lemma VotesKeepInv(env: Env, s: View, known: Votes, recent: Votes)
    requires Coherent(env, s)
    ensures Upholds(env, s, s.(known := known, recent := recent))
  {
  }

  lemma VoteKeepsInv(env: Env, s: View, id: ValidatorId, data: AttestationData, fromBlock: bool)
    requires Coherent(env, s)
    ensures Upholds(env, s, AfterAttestation(s, id, data, fromBlock).0)
    ensures SameChain(s, AfterAttestation(s, id, data, fromBlock).0)
  {
    hide Coherent, Greatest;
    var t := AfterAttestation(s, id, data, fromBlock).0;
    VotesKeepInv(env, s, t.known, t.recent);
  }

  lemma QuietInv(env: Env, s: View, delivered: set<Block>)
    requires Quiet(env, s, delivered)
    ensures Inv(env, s) && QueueShape(env, s.queue) && OnlyDelivered(env, s, delivered)
  {
  }

  lemma SameChainKeepsQuiet(env: Env, s: View, t: View, delivered: set<Block>)
    requires Quiet(env, s, delivered) && SameChain(s, t) && Inv(env, t)
    ensures Quiet(env, t, delivered)
  {
    hide Coherent, Greatest, Transition;
    forall d | d in delivered
      ensures BlockRoot(env.h, d) in t.blocks || Rejected(env, t, d) || Waiting(t, d) || Listed([], d)
    {
    }
  }

  lemma EventKeepsQuiet(env: Env, s: View, e: Event, delivered: set<Block>)
    requires Quiet(env, s, delivered) && (e.Arrive? ==> e.signed.block in env.universe)
    ensures !After(env.h, s, e).1.Panic? ==>
              Quiet(env, After(env.h, s, e).0, if e.Arrive? then delivered + {e.signed.block} else delivered)
  {
    hide Coherent, Greatest, Transition, AfterArrival, TickTo, AfterAttestation, WithAccepted, Quiet;
    QuietInv(env, s, delivered);
    var t := After(env.h, s, e).0;
    match e
    case Tick(time, hasProposal) =>
      TickKeepsInv(env, s, TargetInterval(s, time), hasProposal);
      SameChainKeepsQuiet(env, s, t, delivered);
    case Vote(id, data, fromBlock) =>
      VoteKeepsInv(env, s, id, data, fromBlock);
      SameChainKeepsQuiet(env, s, t, delivered);
    case Arrive(signed) =>
      ArrivalAccounts(env, s, delivered, signed);
    case Propose(slot) =>
      var target := TargetInterval(s, s.genesisTime + slot * SECONDS_PER_SLOT);
      TickKeepsInv(env, s, target, true);
      AcceptKeepsInv(env, TickTo(s, target, true));
      SameChainKeepsQuiet(env, s, t, delivered);
  }

  lemma DeliveredGrows(events: seq<Event>)
    requires events != []
    ensures var init, last := events[..|events| - 1], events[|events| - 1];
            Delivered(events) == if last.Arrive? then Delivered(init) + {last.signed.block} else Delivered(init)
  {
    var init, last := events[..|events| - 1], events[|events| - 1];
    forall b | b in Delivered(events)
      ensures b in Delivered(init) || (last.Arrive? && b == last.signed.block)
    {
      var i :| 0 <= i < |events| && events[i].Arrive? && events[i].signed.block == b;
      if i < |init| { assert init[i].Arrive? && init[i].signed.block == b; }
    }
    forall b | b in Delivered(init) ensures b in Delivered(events) {
      var i :| 0 <= i < |init| && init[i].Arrive? && init[i].signed.block == b;
      assert events[i].Arrive? && events[i].signed.block == b;
    }
    if last.Arrive? { assert last.signed.block in Delivered(events); }
  }

  /** Every run that does not crash ends quiet: the invariant holds, every delivered block is
      accounted for, and no queued parent is stored. */
  lemma {:induction false} RunsStayQuiet(env: Env, events: seq<Event>)
    requires env.Valid() && InUniverse(env, events) && Play(env.h, Initial(env), events).Ok?
    ensures Quiet(env, Play(env.h, Initial(env), events).value, Delivered(events))
    decreases |events|
  {
    hide Quiet, After;
    if events == [] {
      InitialQuiet(env);
      assert Delivered(events) == {};
    } else {
      var init, last := events[..|events| - 1], events[|events| - 1];
      RunsStayQuiet(env, init);
      EventKeepsQuiet(env, Play(env.h, Initial(env), init).value, last, Delivered(init));
      DeliveredGrows(events);
    }
  }

  // What ends up stored.

  ghost function TipRoot(env: Env, path: seq<Block>): Root {
    if path == [] then env.AnchorRoot() else BlockRoot(env.h, path[|path| - 1])
  }

  /** A chain of delivered blocks that the state transition accepts, ending in `r`. */
  ghost predicate IsChainTo(env: Env, delivered: set<Block>, path: seq<Block>, r: Root, st: State) {
    && (forall b :: b in path ==> b in delivered)
    && Replay(env.h, env.GenesisState(), path) == Ok(st) && TipRoot(env, path) == r
  }

  /** What the invariant says of one stored block other than the anchor. */
  lemma StoredSuccessor(env: Env, s: View, delivered: set<Block>, r: Root)
    requires Inv(env, s) && OnlyDelivered(env, s, delivered) && r in s.states && r != env.AnchorRoot()
    ensures r in s.blocks && s.blocks[r] in delivered && BlockRoot(env.h, s.blocks[r]) == r
    ensures s.blocks[r].parentRoot in s.states && SlotOf(s.blocks, s.blocks[r].parentRoot) < SlotOf(s.blocks, r)
    ensures Transition(env.h, s.states[s.blocks[r].parentRoot], s.blocks[r]) == Ok(s.states[r])
  {
    hide Transition, Reachable;
    assert IsSuccessor(env.h, s.blocks, s.states, r);
  }

  lemma AnchorStored(env: Env, s: View)
    requires Inv(env, s)
    ensures env.AnchorRoot() in s.states && s.states[env.AnchorRoot()] == env.GenesisState()
  {
    hide Transition, Reachable;
  }

  lemma ChainSnoc(env: Env, delivered: set<Block>, init: seq<Block>, parent: Root, before: State, d: Block, st: State)
    requires IsChainTo(env, delivered, init, parent, before) && d in delivered
    requires Transition(env.h, before, d) == Ok(st)
    ensures IsChainTo(env, delivered, init + [d], BlockRoot(env.h, d), st)
  {
    hide Transition;
    var path := init + [d];
    assert path[..|path| - 1] == init;
  }

  /** Whatever is stored is the end of an accepted chain of delivered blocks. */
  lemma {:induction false} StoredHasChain(env: Env, s: View, delivered: set<Block>, r: Root) returns (path: seq<Block>)
    requires Inv(env, s) && OnlyDelivered(env, s, delivered) && r in s.states
    ensures IsChainTo(env, delivered, path, r, s.states[r])
    decreases SlotOf(s.blocks, r)
  {
    hide Transition, Coherent, Greatest, OnlyDelivered;
    if r == env.AnchorRoot() {
      AnchorStored(env, s);
      path := [];
    } else {
      StoredSuccessor(env, s, delivered, r);
      var b := s.blocks[r];
      var init := StoredHasChain(env, s, delivered, b.parentRoot);
      ChainSnoc(env, delivered, init, b.parentRoot, s.states[b.parentRoot], b, s.states[r]);
      path := init + [b];
    }
  }

  /** A delivered block that extends a stored state is stored itself. */
  lemma ExtensionIsStored(env: Env, s: View, delivered: set<Block>, parent: Root, d: Block, st: State)
    requires Quiet(env, s, delivered) && parent in s.states && d in delivered
    requires Transition(env.h, s.states[parent], d) == Ok(st)
    ensures BlockRoot(env.h, d) in s.states && s.states[BlockRoot(env.h, d)] == st
  {
    hide Transition;
    ParentIsKey(env, s, parent, d, st);
    assert !Listed([], d);
    StoredAlready(env, s, d, st);
  }

  /** A block that a stored state accepts names that state's block as its parent. */
  lemma ParentIsKey(env: Env, s: View, parent: Root, d: Block, st: State)
    requires Inv(env, s) && parent in s.states && Transition(env.h, s.states[parent], d) == Ok(st)
    ensures d.parentRoot == parent != ZERO_ROOT
  {
    hide Transition;
    assert StateFits(env, s.blocks, parent, s.states[parent]);
    TransitionKeepsSound(env.h, s.states[parent], d);
  }

  /** Every accepted chain of delivered blocks is stored. */
  lemma {:induction false} ChainIsStored(env: Env, s: View, delivered: set<Block>, path: seq<Block>, st: State)
    requires Quiet(env, s, delivered) && IsChainTo(env, delivered, path, TipRoot(env, path), st)
    ensures TipRoot(env, path) in s.states && s.states[TipRoot(env, path)] == st
    decreases |path|
  {
    hide Transition, Quiet, Coherent, Greatest;
    if path == [] {
      QuietInv(env, s, delivered);
      AnchorStored(env, s);
    } else {
      var init, d := path[..|path| - 1], path[|path| - 1];
      var before := Replay(env.h, env.GenesisState(), init).value;
      ChainIsStored(env, s, delivered, init, before);
      ExtensionIsStored(env, s, delivered, TipRoot(env, init), d, st);
    }
  }

  /** The store holds exactly the ends of accepted chains of delivered blocks, with exactly
      the states that those chains lead to. */
  lemma StoredExactly(env: Env, s: View, delivered: set<Block>, r: Root, st: State)
    requires Quiet(env, s, delivered)
    ensures (r in s.states && s.states[r] == st) <==> exists path :: IsChainTo(env, delivered, path, r, st)
  {
    hide Quiet, IsChainTo;
    if r in s.states && s.states[r] == st {
      QuietInv(env, s, delivered);
      var path := StoredHasChain(env, s, delivered, r);
    }
    if exists path :: IsChainTo(env, delivered, path, r, st) {
      var path :| IsChainTo(env, delivered, path, r, st);
      assert TipRoot(env, path) == r by { TipOf(env, delivered, path, r, st); }
      ChainIsStored(env, s, delivered, path, st);
    }
  }

  lemma TipOf(env: Env, delivered: set<Block>, path: seq<Block>, r: Root, st: State)
    requires IsChainTo(env, delivered, path, r, st)
    ensures TipRoot(env, path) == r
  {
  }

  // When a run crashes.

  /** A delivered block panics on the state that an accepted chain of delivered blocks leads to. */
  ghost predicate IsFatal(env: Env, delivered: set<Block>, path: seq<Block>, st: State, d: Block, f: Fault) {
    d in delivered && IsChainTo(env, delivered, path, TipRoot(env, path), st) && Transition(env.h, st, d) == Panic(f)
  }

  ghost predicate CrashesWith(env: Env, delivered: set<Block>, f: Fault) {
    exists path, st, d :: IsFatal(env, delivered, path, st, d, f)
  }

  lemma MoreDeliveredMoreCrashes(env: Env, some: set<Block>, all: set<Block>, f: Fault)
    requires CrashesWith(env, some, f) && some <= all
    ensures CrashesWith(env, all, f)
  {
    hide Transition, Replay;
    var path, st, d :| IsFatal(env, some, path, st, d, f);
    assert IsFatal(env, all, path, st, d, f);
  }

  lemma ImportCrash(env: Env, s: View, delivered: set<Block>, sb: SignedBlock)
    requires Inv(env, s) && OnlyDelivered(env, s, delivered) && sb.block in delivered
    requires AfterImport(env.h, s, sb).1.Panic?
    ensures CrashesWith(env, delivered, AfterImport(env.h, s, sb).1.fault)
  {
    hide Transition, Coherent, Greatest, Imported;
    var parent := sb.block.parentRoot;
    var path := StoredHasChain(env, s, delivered, parent);
    assert IsFatal(env, delivered, path, s.states[parent], sb.block, AfterImport(env.h, s, sb).1.fault);
  }

  lemma DrainingOnlyDelivered(env: Env, s: View, delivered: set<Block>, list: seq<SignedBlock>, roots: seq<Root>)
    requires Draining(env, s, delivered, list, roots)
    ensures Inv(env, s) && OnlyDelivered(env, s, delivered) && delivered <= env.universe
  {
  }

  lemma {:induction false} DrainListCrash(env: Env, s: View, delivered: set<Block>, list: seq<SignedBlock>, roots: seq<Root>)
    requires Draining(env, s, delivered, list, roots)
    requires forall i :: 0 <= i < |list| ==> list[i].block.parentRoot in s.states && list[i].block in delivered
    requires DrainList(env.h, s, list, roots).2.Panic?
    ensures CrashesWith(env, delivered, DrainList(env.h, s, list, roots).2.fault)
    decreases |list|
  {
    hide Coherent, Greatest, AfterImport, Draining, OnlyDelivered, CrashesWith;
    DrainingOnlyDelivered(env, s, delivered, list, roots);
    if list != [] {
      ImportAlwaysGrows(env, s, list[0]);
      ImportAccounts(env, s, delivered, list, roots);
      var (t, result) := AfterImport(env.h, s, list[0]);
      if result.Panic? {
        ImportCrash(env, s, delivered, list[0]);
      } else {
        DrainListCrash(env, t, delivered, list[1..],
                       if result.Ok? then roots + [BlockRoot(env.h, list[0].block)] else roots);
      }
    }
  }

  lemma {:induction false} DrainCrash(env: Env, s: View, delivered: set<Block>, roots: seq<Root>)
    requires Draining(env, s, delivered, [], roots) && Drain(env.h, s, roots).1.Panic?
    ensures CrashesWith(env, delivered, Drain(env.h, s, roots).1.fault)
    decreases |s.queue|, |roots|
  {
    hide Coherent, Greatest, DrainList, Draining, CrashesWith;
    if roots != [] {
      var parent, rest := roots[|roots| - 1], roots[..|roots| - 1];
      if parent !in s.queue {
        SkipAccounts(env, s, delivered, roots);
        DrainCrash(env, s, delivered, rest);
      } else {
        var popped := s.(queue := s.queue - {parent});
        PopAccounts(env, s, delivered, roots);
        QueueShrinks(s.queue, parent);
        DrainListAccounts(env, popped, delivered, s.queue[parent], rest);
        var (t, more, result) := DrainList(env.h, popped, s.queue[parent], rest);
        if result.Panic? {
          DrainListCrash(env, popped, delivered, s.queue[parent], rest);
        } else {
          DrainCrash(env, t, delivered, more);
        }
      }
    }
  }

  lemma ArrivalCrash(env: Env, s: View, delivered: set<Block>, sb: SignedBlock)
    requires Quiet(env, s, delivered) && sb.block in env.universe && AfterArrival(env.h, s, sb).1.Panic?
    ensures CrashesWith(env, delivered + {sb.block}, AfterArrival(env.h, s, sb).1.fault)
  {
    hide Coherent, Greatest, AfterImport, Drain, CrashesWith, Quiet;
    var all := delivered + {sb.block};
    QuietInv(env, s, delivered);
    var (t, result) := AfterImport(env.h, s, sb);
    if result.Panic? {
      ImportCrash(env, s, all, sb);
    } else {
      FirstImportAccounts(env, s, delivered, sb);
      DrainCrash(env, t, all, [BlockRoot(env.h, sb.block)]);
    }
  }

  /** A block that panics on a stored state names that state's block as its parent. */
  lemma PanicParentIsKey(env: Env, s: View, parent: Root, d: Block)
    requires Inv(env, s) && parent in s.states && Transition(env.h, s.states[parent], d).Panic?
    ensures d.parentRoot == parent != ZERO_ROOT
  {
    hide Transition, BlockPre, HasDuplicateData, PanicsAt, Reachable;
    assert StateFits(env, s.blocks, parent, s.states[parent]);
    TransitionPanicsExactly(env.h, s.states[parent], d);
    HeaderKeepsSound(env.h, s.states[parent], d);
  }

  lemma StoredIsItself(env: Env, s: View, d: Block)
    requires Inv(env, s) && d in env.universe && BlockRoot(env.h, d) in s.blocks
    ensures s.blocks[BlockRoot(env.h, d)] == d
    ensures d.parentRoot != ZERO_ROOT ==>
              d.parentRoot in s.states && Transition(env.h, s.states[d.parentRoot], d).Ok?
  {
    hide Transition, Reachable;
    var r := BlockRoot(env.h, d);
    assert BlockRoot(env.h, s.blocks[r]) == r;
    assert s.blocks[r] == d;
    if d.parentRoot != ZERO_ROOT {
      assert r != env.AnchorRoot();
      assert IsSuccessor(env.h, s.blocks, s.states, r);
    }
  }

  /** While a store is quiet, no delivered block can be fatal: it would have been imported. */
  lemma QuietIsNotFatal(env: Env, s: View, delivered: set<Block>, f: Fault)
    requires Quiet(env, s, delivered)
    ensures !CrashesWith(env, delivered, f)
  {
    hide Transition, Coherent, Greatest, IsChainTo;
    if CrashesWith(env, delivered, f) {
      var path, st, d :| IsFatal(env, delivered, path, st, d, f);
      var parent := TipRoot(env, path);
      ChainIsStored(env, s, delivered, path, st);
      PanicParentIsKey(env, s, parent, d);
      assert !Listed([], d);
      if BlockRoot(env.h, d) in s.blocks { StoredIsItself(env, s, d); }
      assert false;
    }
  }

  /** When a run crashes: exactly when some delivered block panics on the state of an accepted
      chain of delivered blocks. The order of arrival plays no part in it. */
  lemma {:induction false} RunCrashesExactly(env: Env, events: seq<Event>)
    requires env.Valid() && InUniverse(env, events)
    ensures !Play(env.h, Initial(env), events).Err?
    ensures Play(env.h, Initial(env), events).Panic? <==> exists f :: CrashesWith(env, Delivered(events), f)
    ensures Play(env.h, Initial(env), events).Panic? ==>
              CrashesWith(env, Delivered(events), Play(env.h, Initial(env), events).fault)
    decreases |events|
  {
    hide Quiet, CrashesWith, AfterArrival, AfterTick, AtProposal;
    if Play(env.h, Initial(env), events).Ok? {
      RunsStayQuiet(env, events);
      forall f ensures !CrashesWith(env, Delivered(events), f) {
        QuietIsNotFatal(env, Play(env.h, Initial(env), events).value, Delivered(events), f);
      }
    } else {
      var init, last := events[..|events| - 1], events[|events| - 1];
      RunCrashesExactly(env, init);
      DeliveredGrows(events);
      if Play(env.h, Initial(env), init).Ok? {
        RunsStayQuiet(env, init);
        ArrivalCrash(env, Play(env.h, Initial(env), init).value, Delivered(init), last.signed);
      } else {
        MoreDeliveredMoreCrashes(env, Delivered(init), Delivered(events), Play(env.h, Initial(env), init).fault);
      }
    }
  }

  /** A run that is handed no other blocks than one that completes, completes as well. */
  lemma SameBlocksSameFate(env: Env, one: seq<Event>, two: seq<Event>)
    requires env.Valid() && InUniverse(env, one) && InUniverse(env, two) && Delivered(two) <= Delivered(one)
    requires Play(env.h, Initial(env), one).Ok?
    ensures Play(env.h, Initial(env), two).Ok?
  {
    hide CrashesWith, Play;
    RunCrashesExactly(env, one);
    RunCrashesExactly(env, two);
    if !Play(env.h, Initial(env), two).Ok? {
      var f :| CrashesWith(env, Delivered(two), f);
      MoreDeliveredMoreCrashes(env, Delivered(two), Delivered(one), f);
      assert false;
    }
  }

  /** Arrival order does not matter: if one run completes, then every run that is handed the
      same blocks, in any order, with any repetition and with any other events in between,
      completes too and stores the same blocks and the same states. */
  lemma ArrivalOrderIrrelevant(env: Env, one: seq<Event>, two: seq<Event>)
    requires env.Valid() && InUniverse(env, one) && InUniverse(env, two) && Delivered(one) == Delivered(two)
    requires Play(env.h, Initial(env), one).Ok?
    ensures Play(env.h, Initial(env), two).Ok?
    ensures Play(env.h, Initial(env), one).value.states == Play(env.h, Initial(env), two).value.states
    ensures Play(env.h, Initial(env), one).value.blocks == Play(env.h, Initial(env), two).value.blocks
  {
    hide Quiet, IsChainTo, Play;
    SameBlocksSameFate(env, one, two);
    var s, t := Play(env.h, Initial(env), one).value, Play(env.h, Initial(env), two).value;
    RunsStayQuiet(env, one);
    RunsStayQuiet(env, two);
    forall r | r in s.states ensures r in t.states && t.states[r] == s.states[r] {
      StoredExactly(env, s, Delivered(one), r, s.states[r]);
      StoredExactly(env, t, Delivered(two), r, s.states[r]);
    }
    forall r | r in t.states ensures r in s.states {
      StoredExactly(env, s, Delivered(one), r, t.states[r]);
      StoredExactly(env, t, Delivered(two), r, t.states[r]);
    }
    assert s.states == t.states;
    SameStatesSameBlocks(env, s, t, Delivered(one), Delivered(two));
  }

  lemma SameStatesSameBlocks(env: Env, s: View, t: View, a: set<Block>, b: set<Block>)
    requires Quiet(env, s, a) && Quiet(env, t, b) && s.states == t.states
    ensures s.blocks == t.blocks
  {
    hide Quiet;
    KeysAgree(env, s, a);
    KeysAgree(env, t, b);
    forall r | r in s.blocks ensures s.blocks[r] == t.blocks[r] {
      SameRootSameBlock(env, s, t, a, b, r);
    }
  }

  lemma KeysAgree(env: Env, s: View, delivered: set<Block>)
    requires Quiet(env, s, delivered)
    ensures s.blocks.Keys == s.states.Keys
  {
  }

  lemma SameRootSameBlock(env: Env, s: View, t: View, a: set<Block>, b: set<Block>, r: Root)
    requires Quiet(env, s, a) && Quiet(env, t, b) && r in s.blocks && r in t.blocks
    ensures s.blocks[r] == t.blocks[r]
  {
    hide Transition, Reachable;
    assert BlockRoot(env.h, s.blocks[r]) == r == BlockRoot(env.h, t.blocks[r]);
  }
}
