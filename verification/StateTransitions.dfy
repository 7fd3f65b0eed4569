/** The state transition: slot processing, the block header, the attestations. */
module StateTransitions {
  import opened Containers
  import opened Window
  import opened Justification
  import opened Aggregation

  /** The state whose latest header carries its own state root. */
  function Filled(h: Hasher, st: State): State {
    if st.header.stateRoot == ZERO_ROOT then st.(header := st.header.(stateRoot := h.state(st))) else st
  }

  /** `process_slots` in closed form: however many slots are skipped, the only thing they
      do besides counting is to fill in the header's state root once. */
  function AfterSlots(h: Hasher, st: State, target: Slot): Outcome<State> {
    if st.slot >= target then Err(SlotNotInFuture) else Ok(Filled(h, st).(slot := target))
  }

  method ProcessSlots(h: Hasher, st: State, target: Slot) returns (out: Outcome<State>)
    ensures out == AfterSlots(h, st, target)
  {
    if st.slot >= target { return Err(SlotNotInFuture); }
    var state := st;
    while state.slot < target
      invariant st.slot <= state.slot <= target
      invariant state == if state.slot == st.slot then st else Filled(h, st).(slot := state.slot)
    {
      if state.header.stateRoot == ZERO_ROOT {
        state := state.(header := state.header.(stateRoot := h.state(state)));
      }
      state := state.(slot := state.slot + 1);
    }
    out := Ok(state);
  }

  /** Skipping slots in two steps is the same as skipping them at once: the state root is filled
      in by the first slot only, and from the state as it was then. */
  lemma SlotsCompose(h: Hasher, st: State, first: Slot, second: Slot)
    requires st.slot < first < second
    ensures AfterSlots(h, st, first).Ok? && AfterSlots(h, st, second).Ok?
    ensures AfterSlots(h, AfterSlots(h, st, first).value, second) == AfterSlots(h, st, second)
    ensures st.header.stateRoot != ZERO_ROOT ==> AfterSlots(h, st, first) == Ok(st.(slot := first))
    ensures st.header.stateRoot == ZERO_ROOT ==> AfterSlots(h, st, first).value.header == st.header.(stateRoot := h.state(st))
  {
  }

  function EmptySlots(n: nat): (r: seq<Root>)
    ensures |r| == n && forall i :: 0 <= i < n ==> r[i] == ZERO_ROOT
  {
    seq(n, _ => ZERO_ROOT)
  }

  predicate IsProposerFor(index: ValidatorId, slot: Slot, validators: nat)
    requires validators > 0
  {
    slot % validators == index
  }

  /** `process_block_header` as a function. */
  function AfterHeader(h: Hasher, st: State, b: Block): Outcome<State> {
    var parent := st.header;
    var parentRoot := h.header(parent);
    if b.slot != st.slot then Err(SlotMismatch)
    else if b.slot <= parent.slot then Err(OlderThanHeader)
    else if st.validators == 0 then Panic(DivisionByZero)
    else if !IsProposerFor(b.proposerIndex, st.slot, st.validators) then Err(WrongProposer)
    else if b.parentRoot != parentRoot then Err(ParentRootMismatch)
    else
      var genesis := Checkpoint(parentRoot, 0);
      Ok(st.(justified := if parent.slot == 0 then genesis else st.justified,
             finalized := if parent.slot == 0 then genesis else st.finalized,
             history := st.history + [parentRoot] + EmptySlots(b.slot - parent.slot - 1),
             window := ExtendToSlot(st.window, st.finalized.slot, b.slot - 1),
             header := BlockHeader(b.slot, b.proposerIndex, b.parentRoot, ZERO_ROOT, h.body(b.body))))
  }

  method ProcessBlockHeader(h: Hasher, st: State, b: Block) returns (out: Outcome<State>)
    ensures out == AfterHeader(h, st, b)
  {
    var parent := st.header;
    var parentRoot := h.header(parent);
    if b.slot != st.slot { return Err(SlotMismatch); }
    if b.slot <= parent.slot { return Err(OlderThanHeader); }
    if st.validators == 0 { return Panic(DivisionByZero); }
    if !IsProposerFor(b.proposerIndex, st.slot, st.validators) { return Err(WrongProposer); }
    if b.parentRoot != parentRoot { return Err(ParentRootMismatch); }

    var justified, finalized := st.justified, st.finalized;
    if parent.slot == 0 {
      justified, finalized := Checkpoint(parentRoot, 0), Checkpoint(parentRoot, 0);
    }
    var empty := b.slot - parent.slot - 1;
    var history := st.history + [parentRoot];
    for i := 0 to empty
      invariant history == st.history + [parentRoot] + EmptySlots(i)
    {
      history := history + [ZERO_ROOT];
    }
    var window := ExtendToSlotByCopying(st.window, st.finalized.slot, b.slot - 1);
    var header := BlockHeader(b.slot, b.proposerIndex, b.parentRoot, ZERO_ROOT, h.body(b.body));
    out := Ok(st.(justified := justified, finalized := finalized, history := history,
                  window := window, header := header));
  }

  /** `process_block`. */
  ghost function AfterBlock(h: Hasher, st: State, b: Block): Outcome<State> {
    var pre :- AfterHeader(h, st, b);
    if HasDuplicateData(h, b.body) then Err(DuplicateData) else AfterAttestations(pre, b.body)
  }

  method ProcessBlock(h: Hasher, st: State, b: Block) returns (out: Outcome<State>)
    ensures out == AfterBlock(h, st, b)
  {
    var pre := ProcessBlockHeader(h, st, b);
    if pre.IsFailure() { return pre; }
    var duplicate := FindDuplicateData(h, b.body);
    if duplicate { return Err(DuplicateData); }
    out := ProcessAttestations(pre.value, b.body);
  }

  /** `state_transition`, whose signature flag is always true when fork choice calls it. */
  ghost function Transition(h: Hasher, st: State, b: Block): Outcome<State> {
    var ready :- AfterSlots(h, st, b.slot);
    var post :- AfterBlock(h, ready, b);
    if b.stateRoot == h.state(post) then Ok(post) else Err(StateRootMismatch)
  }

  method StateTransition(h: Hasher, st: State, b: Block) returns (out: Outcome<State>)
    ensures out == Transition(h, st, b)
  {
    var ready := ProcessSlots(h, st, b.slot);
    if ready.IsFailure() { return ready; }
    var post := ProcessBlock(h, ready.value, b);
    if post.IsFailure() { return post; }
    if b.stateRoot != h.state(post.value) { return Err(StateRootMismatch); }
    out := post;
  }

  /** `generate_genesis`. */
  function Genesis(h: Hasher, genesisTime: nat, validators: nat): State {
    State(genesisTime, 0, BlockHeader(0, 0, ZERO_ROOT, ZERO_ROOT, h.body([])),
          Checkpoint(ZERO_ROOT, 0), Checkpoint(ZERO_ROOT, 0), [], [], validators, [], [])
  }

  /** The block that a node puts under the genesis state. */
  function GenesisBlock(h: Hasher, genesis: State): Block {
    Block(0, 0, ZERO_ROOT, h.state(genesis), [])
  }

  /** The state that the attestations of a block are applied to. */
  function BlockPre(h: Hasher, st: State, b: Block): Outcome<State> {
    var ready :- AfterSlots(h, st, b.slot);
    AfterHeader(h, ready, b)
  }
}
