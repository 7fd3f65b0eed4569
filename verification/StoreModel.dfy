/** The fork choice store as a value, and what each handler does to it. */
module StoreModel {
  import opened Containers
  import opened Bits
  import opened BlockTree
  import opened HeadTheorems
  import opened StateTransitions
  import opened Chain
  import opened StoreTree

  const INTERVALS_PER_SLOT: nat := 4
  const SECONDS_PER_SLOT: nat := 4
  const SECONDS_PER_INTERVAL: nat := SECONDS_PER_SLOT / INTERVALS_PER_SLOT

  /** A block on the wire, with the vote of its proposer. */
  datatype SignedBlock = SignedBlock(block: Block, proposerVote: Attestation)

  datatype View = View(
    time: nat,
    genesisTime: nat,
    head: Root,
    safeTarget: Root,
    justified: Checkpoint,
    finalized: Checkpoint,
    blocks: Blocks,
    states: map<Root, State>,
    known: Votes,
    recent: Votes,
    queue: map<Root, seq<SignedBlock>>)

  /** `get_forkchoice_store`. */
  function StoreFrom(h: Hasher, state: State, block: Block, genesisTime: nat): View {
    var root := BlockRoot(h, block);
    var anchor := Checkpoint(root, block.slot);
    View(block.slot * INTERVALS_PER_SLOT, genesisTime, root, root,
         if state.justified.root == ZERO_ROOT then anchor else state.justified,
         if state.finalized.root == ZERO_ROOT then anchor else state.finalized,
         map[root := block], map[root := state], map[], map[], map[])
  }

  // Votes.

  /** A vote found in a block: it counts at once and supersedes an older pending vote. */
  function CastOnChain(s: View, id: ValidatorId, data: AttestationData): View {
    s.(known := if id !in s.known || s.known[id].slot < data.slot then s.known[id := data] else s.known,
       recent := if id in s.recent && s.recent[id].slot <= data.slot then s.recent - {id} else s.recent)
  }

  /** A vote heard from the network: it has to wait until votes are accepted. */
  function CastByGossip(s: View, id: ValidatorId, data: AttestationData): View {
    s.(recent := if id !in s.recent || s.recent[id].slot < data.slot then s.recent[id := data] else s.recent)
  }

  /** `on_attestation_internal`. */
  function Cast(s: View, id: ValidatorId, data: AttestationData, fromBlock: bool): View {
    if fromBlock then CastOnChain(s, id, data) else CastByGossip(s, id, data)
  }

  function CastEach(s: View, ids: seq<ValidatorId>, data: AttestationData): View {
    if ids == [] then s else CastOnChain(CastEach(s, ids[..|ids| - 1], data), ids[|ids| - 1], data)
  }

  /** The votes of a block body, one participant after the other. */
  function CastBody(s: View, body: seq<AggregatedAttestation>): View {
    if body == [] then s
    else
      var last := body[|body| - 1];
      CastEach(CastBody(s, body[..|body| - 1]), Indices(last.bits), last.data)
  }

  /** Everything but the two vote maps is untouched. */
  ghost predicate SameButVotes(s: View, t: View) {
    t == s.(known := t.known, recent := t.recent)
  }

  lemma {:induction false} CastEachOnlyVotes(s: View, ids: seq<ValidatorId>, data: AttestationData)
    ensures SameButVotes(s, CastEach(s, ids, data))
  {
    if ids != [] { CastEachOnlyVotes(s, ids[..|ids| - 1], data); }
  }

  lemma {:induction false} CastBodyOnlyVotes(s: View, body: seq<AggregatedAttestation>)
    ensures SameButVotes(s, CastBody(s, body))
  {
    if body != [] {
      CastBodyOnlyVotes(s, body[..|body| - 1]);
      var last := body[|body| - 1];
      CastEachOnlyVotes(CastBody(s, body[..|body| - 1]), Indices(last.bits), last.data);
    }
  }

  /** `validate_attestation_data`. */
  function Validate(s: View, data: AttestationData): Outcome<()> {
    if data.source.root !in s.blocks then Err(UnknownSource)
    else if data.target.root !in s.blocks then Err(UnknownTarget)
    else if data.head.root !in s.blocks then Err(UnknownHead)
    else if data.source.slot > data.target.slot then Err(SourceAfterTarget)
    else if s.blocks[data.source.root].slot != data.source.slot then Err(SourceSlotMismatch)
    else if s.blocks[data.target.root].slot != data.target.slot then Err(TargetSlotMismatch)
    else if data.slot > s.time / INTERVALS_PER_SLOT + 1 then Err(FutureVote)
    else Ok(())
  }

  /** The vote is about stored blocks, at the slots it claims and in the right order, and is not
      ahead of the clock by more than a slot. */
  ghost predicate Acceptable(s: View, data: AttestationData) {
    && {data.source.root, data.target.root, data.head.root} <= s.blocks.Keys
    && s.blocks[data.source.root].slot == data.source.slot <= data.target.slot == s.blocks[data.target.root].slot
    && data.slot <= s.time / INTERVALS_PER_SLOT + 1
  }

  /** `on_attestation`. */
  function AfterAttestation(s: View, id: ValidatorId, data: AttestationData, fromBlock: bool): (View, Outcome<()>) {
    var valid := Validate(s, data);
    if valid.Ok? then (Cast(s, id, data, fromBlock), Ok(())) else (s, valid)
  }

  // Head, safe target and time.

  ghost predicate Anchored(s: View) {
    WellFormed(s.blocks) && s.justified.root in s.blocks
  }

  /** `update_head`. Every store that a run can reach is anchored. */
  ghost function WithHead(s: View): View {
    if Anchored(s) then s.(head := GhostHead(s.blocks, s.known, 0, s.justified.root)) else s
  }

  function ValidatorsAtHead(s: View): nat {
    if s.head in s.states then s.states[s.head].validators else 0
  }

  /** `update_safe_target`. */
  ghost function WithSafeTarget(s: View): View {
    if Anchored(s) then
      s.(safeTarget := GhostHead(s.blocks, s.recent, SafeThreshold(ValidatorsAtHead(s)), s.justified.root))
    else s
  }

  /** `accept_new_attestations`. */
  ghost function WithAccepted(s: View): View {
    WithHead(s.(known := s.known + s.recent, recent := map[]))
  }

  /** `tick_interval`. */
  ghost function AfterInterval(s: View, hasProposal: bool): (t: View)
    ensures t.time == s.time + 1
  {
    var t := s.(time := s.time + 1);
    var phase := t.time % INTERVALS_PER_SLOT;
    if phase == 0 && hasProposal then WithAccepted(t)
    else if phase == 2 then WithSafeTarget(t)
    else if phase == 3 then WithAccepted(t)
    else t
  }

  function TargetInterval(s: View, time: nat): nat {
    (if time >= s.genesisTime then time - s.genesisTime else 0) / SECONDS_PER_INTERVAL
  }

  /** The loop of `on_tick`: one interval at a time, the proposal signalled in the last. */
  ghost function TickTo(s: View, target: nat, hasProposal: bool): (t: View)
    ensures s.time <= t.time
    decreases target - s.time
  {
    if s.time >= target then s
    else TickTo(AfterInterval(s, hasProposal && s.time + 1 == target), target, hasProposal)
  }

  /** `on_tick`. */
  ghost function AfterTick(s: View, time: nat, hasProposal: bool): View {
    TickTo(s, TargetInterval(s, time), hasProposal)
  }

  /** `get_proposal_head`: advance to the slot, then accept votes. */
  ghost function AtProposal(s: View, slot: Slot): View {
    WithAccepted(AfterTick(s, s.genesisTime + slot * SECONDS_PER_SLOT, true))
  }

  // Blocks.

  /** What is fixed for a whole run: the hash function, the genesis parameters, and the
      blocks that may ever show up, among which the hash has no collision. */
  datatype Env = Env(h: Hasher, genesisTime: nat, validators: nat, universe: set<Block>) {
    function GenesisState(): State { Genesis(h, genesisTime, validators) }

    function Anchor(): Block { GenesisBlock(h, GenesisState()) }

    function AnchorRoot(): Root { BlockRoot(h, Anchor()) }

    ghost predicate Valid() {
      && validators > 0 && Anchor() in universe
      && forall a, b {:trigger BlockRoot(h, a), BlockRoot(h, b)} ::
           a in universe && b in universe && BlockRoot(h, a) == BlockRoot(h, b) ==> a == b
    }
  }

  ghost predicate IsSuccessor(h: Hasher, blocks: Blocks, states: map<Root, State>, r: Root) {
    && r in blocks && r in states && blocks[r].parentRoot in states
    && Transition(h, states[blocks[r].parentRoot], blocks[r]) == Ok(states[r])
  }

  /** Every stored block but the anchor is the valid successor of its stored parent. */
  ghost predicate AllSucceed(h: Hasher, anchor: Root, blocks: Blocks, states: map<Root, State>) {
    forall r {:trigger IsSuccessor(h, blocks, states, r)} ::
      r in blocks && r != anchor ==> IsSuccessor(h, blocks, states, r)
  }

  /** Blocks are stored under their own roots. */
  ghost predicate KeyedByRoot(env: Env, blocks: Blocks) {
    forall r {:trigger BlockRoot(env.h, blocks[r])} ::
      r in blocks ==> BlockRoot(env.h, blocks[r]) == r && blocks[r] in env.universe
  }

  ghost predicate Linked(env: Env, blocks: Blocks, states: map<Root, State>) {
    && blocks.Keys == states.Keys
    && env.AnchorRoot() in blocks
    && blocks[env.AnchorRoot()] == env.Anchor() && states[env.AnchorRoot()] == env.GenesisState()
    && KeyedByRoot(env, blocks)
    && AllSucceed(env.h, env.AnchorRoot(), blocks, states)
  }

  /** A stored state belongs to its block: it is reachable, sits at the same slot, has the
      block's root as the root of its completed header, and its history is the parent walk. */
  ghost predicate StateFits(env: Env, blocks: Blocks, r: Root, st: State)
    requires WellFormed(blocks)
  {
    && r in blocks && Reachable(env.h, st) && st.validators == env.validators
    && st.slot == blocks[r].slot
    && env.h.header(st.header.(stateRoot := env.h.state(st))) == r
    && st.history == HistoryOf(blocks, r)
  }

  ghost predicate StatesFit(env: Env, blocks: Blocks, states: map<Root, State>)
    requires WellFormed(blocks)
  {
    forall r {:trigger StateFits(env, blocks, r, states[r])} :: r in states ==> StateFits(env, blocks, r, states[r])
  }

  /** No stored state has a checkpoint of a greater slot; the checkpoint is that of a stored
      state, or the anchor, and names a stored block of its slot. */
  ghost predicate IsGreatest(blocks: Blocks, anchor: Root, best: Checkpoint, points: map<Root, Checkpoint>) {
    && (forall r :: r in points ==> points[r].slot <= best.slot)
    && (best == Checkpoint(anchor, 0) || exists r :: r in points && points[r] == best)
    && IsStored(blocks, best)
  }

  /** The checkpoint names a stored block of its slot. */
  ghost predicate IsStored(blocks: Blocks, c: Checkpoint) {
    c.root in blocks && blocks[c.root].slot == c.slot
  }

  ghost function JustifiedPoints(states: map<Root, State>): map<Root, Checkpoint> {
    map r | r in states :: states[r].justified
  }

  ghost function FinalizedPoints(states: map<Root, State>): map<Root, Checkpoint> {
    map r | r in states :: states[r].finalized
  }

  /** What every store keeps, also when it produces blocks of its own: each stored block is the
      valid successor of its parent, each stored state fits its block, the checkpoints name
      stored blocks, and the head descends from the justified one. */
  ghost predicate Coherent(env: Env, s: View) {
    && env.Valid() && s.genesisTime == env.genesisTime
    && WellFormed(s.blocks) && Linked(env, s.blocks, s.states) && StatesFit(env, s.blocks, s.states)
    && IsStored(s.blocks, s.justified) && IsStored(s.blocks, s.finalized)
    && Descends(s.blocks, s.head, s.justified.root)
    && Descends(s.blocks, s.safeTarget, env.AnchorRoot())
  }

  /** Both checkpoints are the greatest among the stored states. */
  ghost predicate Greatest(env: Env, s: View) {
    && IsGreatest(s.blocks, env.AnchorRoot(), s.justified, JustifiedPoints(s.states))
    && IsGreatest(s.blocks, env.AnchorRoot(), s.finalized, FinalizedPoints(s.states))
  }

  /** The invariant of every store that a run can reach. */
  ghost predicate Inv(env: Env, s: View) {
    Coherent(env, s) && Greatest(env, s)
  }

  /** The step to `t` keeps coherence, and greatest checkpoints if there were such before. */
  ghost predicate Upholds(env: Env, s: View, t: View) {
    Coherent(env, t) && (Greatest(env, s) ==> Greatest(env, t))
  }

  /** The mutations of `process_block_internal` up to the vote handling. */
  function WithBlock(s: View, r: Root, b: Block, post: State): View {
    s.(blocks := s.blocks[r := b], states := s.states[r := post],
       justified := if post.justified.slot > s.justified.slot then post.justified else s.justified,
       finalized := if post.finalized.slot > s.finalized.slot then post.finalized else s.finalized)
  }

  /** The store after a successful `process_block_internal`. */
  ghost function Imported(h: Hasher, s: View, sb: SignedBlock, post: State): View {
    var t := WithBlock(s, BlockRoot(h, sb.block), sb.block, post);
    CastByGossip(WithHead(CastBody(t, sb.block.body)), sb.proposerVote.validatorId, sb.proposerVote.data)
  }

  lemma ImportedChanges(h: Hasher, s: View, sb: SignedBlock, post: State)
    ensures var t, u := WithBlock(s, BlockRoot(h, sb.block), sb.block, post), Imported(h, s, sb, post);
            u == t.(known := u.known, recent := u.recent, head := u.head)
  {
    CastBodyOnlyVotes(WithBlock(s, BlockRoot(h, sb.block), sb.block, post), sb.block.body);
  }

  /** `process_block_internal`. */
  ghost function AfterImport(h: Hasher, s: View, sb: SignedBlock): (r: (View, Outcome<()>))
    ensures r.0.queue == s.queue && r.0.time == s.time
  {
    var parent := sb.block.parentRoot;
    if parent !in s.states then (s, Err(NoParentState))
    else
      var post := Transition(h, s.states[parent], sb.block);
      if post.Ok? then
        ImportedChanges(h, s, sb, post.value);
        (Imported(h, s, sb, post.value), Ok(()))
      else (s, post.PropagateFailure())
  }

  /** The inner loop of `process_pending_blocks`: import the orphans of one parent, noting
      which of them succeeded. */
  ghost function DrainList(h: Hasher, s: View, list: seq<SignedBlock>, roots: seq<Root>)
    : (r: (View, seq<Root>, Outcome<()>))
    ensures r.0.queue == s.queue && r.0.time == s.time
    decreases |list|
  {
    if list == [] then (s, roots, Ok(()))
    else
      var (t, result) := AfterImport(h, s, list[0]);
      if result.Panic? then (t, roots, result)
      else DrainList(h, t, list[1..], if result.Ok? then roots + [BlockRoot(h, list[0].block)] else roots)
  }

  /** `process_pending_blocks`: pop a root, import its orphans, push those that succeeded. */
  ghost function Drain(h: Hasher, s: View, roots: seq<Root>): (r: (View, Outcome<()>))
    ensures r.0.time == s.time
    decreases |s.queue|, |roots|
  {
    if roots == [] then (s, Ok(()))
    else
      var parent, rest := roots[|roots| - 1], roots[..|roots| - 1];
      if parent !in s.queue then Drain(h, s, rest)
      else
        QueueShrinks(s.queue, parent);
        var (t, more, result) := DrainList(h, s.(queue := s.queue - {parent}), s.queue[parent], rest);
        if result.Panic? then (t, result) else Drain(h, t, more)
  }

  lemma QueueShrinks(queue: map<Root, seq<SignedBlock>>, k: Root)
    requires k in queue
    ensures |queue - {k}| < |queue|
  {
    assert (queue - {k}).Keys == queue.Keys - {k};
  }

  function Enqueue(queue: map<Root, seq<SignedBlock>>, sb: SignedBlock): map<Root, seq<SignedBlock>> {
    var k := sb.block.parentRoot;
    queue[k := (if k in queue then queue[k] else []) + [sb]]
  }

  /** `on_block`. */
  ghost function AfterArrival(h: Hasher, s: View, sb: SignedBlock): (View, Outcome<()>) {
    var root, parent := BlockRoot(h, sb.block), sb.block.parentRoot;
    if root in s.blocks then (s, Ok(()))
    else if parent !in s.states && parent != ZERO_ROOT then
      (s.(queue := Enqueue(s.queue, sb)), Err(ParentNotAvailable))
    else
      var (t, result) := AfterImport(h, s, sb);
      if !result.Ok? then (t, result) else Drain(h, t, [root])
  }
}
