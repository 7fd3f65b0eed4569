/** A run in which a node panics when it is asked to vote: three blocks finalize slot 1 before
    the safe target has moved, and the walk back from the head ends before slot 1.
    `Duties.TargetExact` says exactly when this happens. */
module Staleness {
  import opened Containers
  import opened Slots
  import opened Window
  import opened Finality
  import opened StateTransitions
  import opened Chain
  import opened Liveness
  import opened BlockTree
  import opened StoreModel
  import opened Imports
  import opened Arrivals
  import opened Runs
  import opened StoreFacts
  import opened Duties

  /** A block in each of the slots 1 to 3; the second justifies slot 1, and the third slot 2,
      which finalizes slot 1. */
  ghost predicate FinalizesOne(h: Hasher, genesis: State, a: Block, b: Block, c: Block) {
    && a.slot == 1 && b.slot == 2 && c.slot == 3
    && var first := Transition(h, genesis, a);
       first.Ok? &&
       var second := Transition(h, first.value, b);
       second.Ok? &&
       var third := Transition(h, second.value, c);
       third.Ok? && third.value.finalized.slot == 1
  }

  lemma ThreeBlocks(h: Hasher, genesisTime: nat, validators: nat) returns (a: Block, b: Block, c: Block)
    requires validators > 0
    ensures FinalizesOne(h, Genesis(h, genesisTime, validators), a, b, c)
  {
    hide IsChain, Transition, Sound, Marked, JustifiableAfter;
    var genesis := Genesis(h, genesisTime, validators);
    EmptyChain(h, genesisTime, validators);
    ChainReachable(h, genesisTime, validators, [], genesis);
    var first, second, third;
    a, first := QuietBlock(h, genesis, 1);
    ChainExtends(h, genesisTime, validators, [], genesis, a, first);
    SoundSlot(first);
    FinalizedEntry(first);
    NearIsJustifiable(1, 0);
    NearIsJustifiable(2, 0);
    forall s: Slot | s > 0 ensures !Marked(first.window, first.finalized.slot, s) { FutureIsUnmarked(h, genesis, s); }
    b, second := VotingStep(h, genesisTime, validators, [] + [a], first, first.finalized, Checkpoint(NextHistory(h, first)[1], 1));
    SoundSlot(second);
    assert NextJustifiable(0, 1, 2);
    c, third := VotingStep(h, genesisTime, validators, [] + [a] + [b], second,
                           Checkpoint(second.history[1], 1), Checkpoint(NextHistory(h, second)[2], 2));
  }

  ghost predicate SlotsUpTo(blocks: Blocks, n: Slot) {
    forall r :: r in blocks ==> blocks[r].slot <= n
  }

  /** A block that extends a stored one arrives while nothing is queued. */
  lemma DirectArrival(env: Env, s: View, parent: Root, sb: SignedBlock, post: State)
    requires Inv(env, s) && s.queue == map[] && sb.block in env.universe
    requires sb.block.slot > 0 && SlotsUpTo(s.blocks, sb.block.slot - 1)
    requires parent in s.states && Transition(env.h, s.states[parent], sb.block) == Ok(post)
    ensures var (t, result) := AfterArrival(env.h, s, sb);
            && result.Ok? && Inv(env, t) && t.queue == map[] && t.safeTarget == s.safeTarget
            && SlotsUpTo(t.blocks, sb.block.slot)
            && BlockRoot(env.h, sb.block) in t.states && t.states[BlockRoot(env.h, sb.block)] == post
            && env.AnchorRoot() in t.blocks
  {
    hide Coherent, Greatest, Transition, Imported;
    var root := BlockRoot(env.h, sb.block);
    ParentIsKey(env, s, parent, sb.block, post);
    if root in s.blocks {
      StoredIsItself(env, s, sb.block);
      assert false;
    }
    ImportGrows(env, s, sb, post);
    ImportedChanges(env.h, s, sb, post);
    var t := Imported(env.h, s, sb, post);
    NothingToDrain(env.h, t, root);
    AnchorAtZero(env, s);
    AnchorStored(env, t);
    StoredKeys(env, t);
  }

  lemma StoredKeys(env: Env, s: View)
    requires Inv(env, s)
    ensures s.blocks.Keys == s.states.Keys
  {
  }

  lemma NothingToDrain(h: Hasher, s: View, root: Root)
    requires s.queue == map[]
    ensures Drain(h, s, [root]) == (s, Ok(()))
  {
    assert [root][..0] == [];
  }

  /** The run: the three blocks arrive in order, and nothing else happens. */
  ghost function InOrder(a: Block, b: Block, c: Block, vote: Attestation): seq<Event> {
    [Arrive(SignedBlock(a, vote)), Arrive(SignedBlock(b, vote)), Arrive(SignedBlock(c, vote))]
  }

  lemma PlayThree(h: Hasher, s: View, x: Event, y: Event, z: Event, s1: View, s2: View, s3: View)
    requires After(h, s, x).0 == s1 && After(h, s, x).1.Ok?
    requires After(h, s1, y).0 == s2 && After(h, s1, y).1.Ok?
    requires After(h, s2, z).0 == s3 && After(h, s2, z).1.Ok?
    ensures Play(h, s, [x, y, z]) == Ok(s3)
  {
    hide After;
    assert [x, y, z][..2] == [x, y] && [x, y][..1] == [x] && [x][..0] == [];
    assert Play(h, s, []) == Ok(s);
    assert Play(h, s, [x]) == Ok(s1);
    assert Play(h, s, [x, y]) == Ok(s2);
  }

  lemma ThreeArrivals(env: Env, a: Block, b: Block, c: Block, vote: Attestation) returns (s: View)
    requires env.Valid() && {a, b, c} <= env.universe && FinalizesOne(env.h, env.GenesisState(), a, b, c)
    ensures Play(env.h, Initial(env), InOrder(a, b, c, vote)) == Ok(s)
    ensures SlotsUpTo(s.blocks, 3) && s.safeTarget == env.AnchorRoot()
    ensures exists r :: r in s.states && s.states[r].finalized.slot == 1
  {
    hide Coherent, Greatest, Transition, AfterArrival;
    var s0 := Initial(env);
    InitialInv(env);
    var first := Transition(env.h, env.GenesisState(), a).value;
    var second := Transition(env.h, first, b).value;
    var third := Transition(env.h, second, c).value;
    DirectArrival(env, s0, env.AnchorRoot(), SignedBlock(a, vote), first);
    var s1 := AfterArrival(env.h, s0, SignedBlock(a, vote)).0;
    DirectArrival(env, s1, BlockRoot(env.h, a), SignedBlock(b, vote), second);
    var s2 := AfterArrival(env.h, s1, SignedBlock(b, vote)).0;
    DirectArrival(env, s2, BlockRoot(env.h, b), SignedBlock(c, vote), third);
    s := AfterArrival(env.h, s2, SignedBlock(c, vote)).0;
    PlayThree(env.h, s0, Arrive(SignedBlock(a, vote)), Arrive(SignedBlock(b, vote)), Arrive(SignedBlock(c, vote)), s1, s2, s);
  }

  lemma {:induction false} BackLosesSlots(blocks: Blocks, r: Root, k: nat)
    requires WellFormed(blocks)
    ensures SlotOf(blocks, Back(blocks, r, k)) + k <= SlotOf(blocks, r) || SlotOf(blocks, Back(blocks, r, k)) == 0
    decreases k
  {
    if k > 0 && r in blocks { BackLosesSlots(blocks, blocks[r].parentRoot, k - 1); }
  }

  /** In every environment that has three such blocks, their arrival leaves a store on which
      target selection panics. */
  lemma StaleTargetPanics(env: Env, a: Block, b: Block, c: Block, vote: Attestation) returns (s: View)
    requires env.Valid() && {a, b, c} <= env.universe && FinalizesOne(env.h, env.GenesisState(), a, b, c)
    ensures IsRun(env, InOrder(a, b, c, vote), s) && WellFormed(s.blocks) && TargetOf(s) == Panic(BeforeFinalized)
  {
    hide Coherent, Greatest, Transition, Play, TargetOf, FinalizesOne, Quiet, OnlyDelivered;
    var events := InOrder(a, b, c, vote);
    s := ThreeArrivals(env, a, b, c, vote);
    RunCheckpointsGreatest(env, events, s);
    RunInv(env, events, s);
    AnchorAtZero(env, s);
    var k := TargetExact(env, events, s);
    BackLosesSlots(s.blocks, s.head, k);
    var point := Back(s.blocks, s.head, k);
    assert SlotOf(s.blocks, s.head) <= 3;
    assert SlotOf(s.blocks, point) == 0;
    NothingJustifiableBefore(s.blocks, point, s.finalized.slot);
  }

  /** "A node can always choose a target" is false: for every hash function without collisions
      and every number of validators there is a run after which target selection panics. */
  lemma AttestingCanPanic(h: Hasher, genesisTime: nat, validators: nat, vote: Attestation)
    returns (env: Env, events: seq<Event>, s: View)
    requires validators > 0
    requires forall x: Block, y: Block {:trigger BlockRoot(h, x), BlockRoot(h, y)} :: BlockRoot(h, x) == BlockRoot(h, y) ==> x == y
    ensures env.h == h && env.genesisTime == genesisTime && env.validators == validators
    ensures env.Valid() && IsRun(env, events, s) && WellFormed(s.blocks) && TargetOf(s) == Panic(BeforeFinalized)
  {
    hide IsRun, TargetOf, FinalizesOne;
    var a, b, c := ThreeBlocks(h, genesisTime, validators);
    env := Env(h, genesisTime, validators, {GenesisBlock(h, Genesis(h, genesisTime, validators)), a, b, c});
    events := InOrder(a, b, c, vote);
    s := StaleTargetPanics(env, a, b, c, vote);
  }

  lemma NothingJustifiableBefore(blocks: Blocks, point: Root, finalized: Slot)
    requires WellFormed(blocks) && SlotOf(blocks, point) < finalized
    ensures !HasJustifiable(blocks, point, finalized)
  {
    forall a | Descends(blocks, point, a) ensures !JustifiableAfter(SlotOf(blocks, a), finalized) {
      DescendsFacts(blocks, point, a);
    }
  }
}
