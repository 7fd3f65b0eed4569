/** Two plausible-looking properties that fail, on chains from genesis, for every hash function
    and every number of validators. `Bodies` gives the exact conditions. */
module Witnesses {
  import opened Containers
  import opened Slots
  import opened Window
  import opened Finality
  import opened StateTransitions
  import opened Chain
  import opened Liveness

  /** A block in each of the slots 1 to n, and no votes. */
  lemma {:induction false} QuietChain(h: Hasher, genesisTime: nat, validators: nat, n: nat) returns (blocks: seq<Block>, st: State)
    requires validators > 0 && n > 0
    ensures IsChain(h, genesisTime, validators, blocks, st)
    ensures Sound(st) && st.slot == n && st.finalized.slot == 0 && |st.history| == n
    ensures forall i :: 0 <= i < n ==> st.history[i] != ZERO_ROOT
    ensures forall s: Slot :: Marked(st.window, 0, s) <==> s == 0
  {
    hide IsChain, Transition, Sound;
    var before;
    if n == 1 {
      blocks, before := [], Genesis(h, genesisTime, validators);
      EmptyChain(h, genesisTime, validators);
    } else {
      blocks, before := QuietChain(h, genesisTime, validators, n - 1);
    }
    ChainReachable(h, genesisTime, validators, blocks, before);
    var b;
    b, st := QuietBlock(h, before, n);
    ChainExtends(h, genesisTime, validators, blocks, before, b, st);
    blocks := blocks + [b];
  }

  /** The entry of the history at `slot`, as a checkpoint. */
  function At(st: State, slot: Slot): Checkpoint
    requires slot < |st.history|
  {
    Checkpoint(st.history[slot], slot)
  }

  /** Slots 2 and 3 are justified one after the other, which finalizes slot 2. */
  lemma SlotTwoFinalized(h: Hasher, genesisTime: nat, validators: nat) returns (blocks: seq<Block>, st: State)
    requires validators > 0
    ensures IsChain(h, genesisTime, validators, blocks, st) && Sound(st)
    ensures st.slot == |st.history| == 5 && st.finalized.slot == 2
    ensures st.history[0] != ZERO_ROOT && st.history[4] != ZERO_ROOT
    ensures !Marked(st.window, st.finalized.slot, 4)
  {
    hide IsChain, Transition, Sound, Marked, JustifiableAfter;
    var quiet, start := QuietChain(h, genesisTime, validators, 3);
    forall s: Slot | s <= 4 ensures JustifiableAfter(s, 0) { NearIsJustifiable(s, 0); }
    FinalizedEntry(start);
    var a, mid := VotingStep(h, genesisTime, validators, quiet, start, start.finalized, At(start, 2));
    SoundSlot(mid);
    var b;
    b, st := VotingStep(h, genesisTime, validators, quiet + [a], mid, At(mid, 2), At(mid, 3));
    SoundSlot(st);
    assert NextJustifiable(0, 2, 3);
    blocks := quiet + [a] + [b];
  }

  /** "Processing a block never panics" is false: when slot 2 is finalized, a supermajority for
      slot 4 with source slot 0 trips the assertion. */
  lemma OldSourcePanics(h: Hasher, genesisTime: nat, validators: nat) returns (blocks: seq<Block>, st: State, b: Block)
    requires validators > 0
    ensures IsChain(h, genesisTime, validators, blocks, st) && Transition(h, st, b) == Panic(BeforeFinalized)
  {
    hide IsChain, Transition, Sound, JustifiableAfter;
    blocks, st := SlotTwoFinalized(h, genesisTime, validators);
    NearIsJustifiable(4, 2);
    b := VotingBlock(h, st, 6, At(st, 0), At(st, 4));
  }

  /** "The justified checkpoint of a state never moves back" is false: a late supermajority for
      slot 2 replaces the justified slot 3. */
  lemma JustifiedCanMoveBack(h: Hasher, genesisTime: nat, validators: nat) returns (blocks: seq<Block>, st: State, b: Block)
    requires validators > 0
    ensures IsChain(h, genesisTime, validators, blocks, st) && Transition(h, st, b).Ok?
    ensures st.justified.slot == 3 && Transition(h, st, b).value.justified.slot == 2
  {
    hide IsChain, Transition, Sound, JustifiableAfter, Marked;
    var quiet, start := QuietChain(h, genesisTime, validators, 4);
    forall s: Slot | s <= 4 ensures JustifiableAfter(s, 0) { NearIsJustifiable(s, 0); }
    FinalizedEntry(start);
    var a;
    a, st := VotingStep(h, genesisTime, validators, quiet, start, start.finalized, At(start, 3));
    blocks := quiet + [a];
    SoundSlot(st);
    FinalizedEntry(st);
    b := VotingBlock(h, st, st.slot + 1, st.finalized, At(st, 2));
  }
}
