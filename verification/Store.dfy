/** The fork choice store as the node runs it: an object whose handlers update its fields.
    Every handler is proved to do what the functions of `StoreModel` say. */
module ForkChoiceStore {
  import opened Containers
  import opened Bits
  import opened BlockTree
  import opened ForkChoice
  import opened StateTransitions
  import opened StoreModel
  import opened Imports
  import opened Arrivals
  import opened Runs
  import opened StoreFacts
  import opened Covering
  import opened Builder
  import opened Productions

  ghost predicate IsGenesisOf(env: Env, h: Hasher, state: State, block: Block, genesisTime: nat) {
    env.Valid() && env.h == h && state == env.GenesisState() && block == env.Anchor() && genesisTime == env.genesisTime
  }

  class Store {
    const h: Hasher
    const genesisTime: nat
    ghost const env: Env

    var time: nat
    var head: Root
    var safeTarget: Root
    var justified: Checkpoint
    var finalized: Checkpoint
    var blocks: Blocks
    var states: map<Root, State>
    var known: Votes
    var recent: Votes
    var queue: map<Root, seq<SignedBlock>>

    ghost function Snapshot(): View
      reads this
    {
      View(time, genesisTime, head, safeTarget, justified, finalized, blocks, states, known, recent, queue)
    }

    ghost predicate Valid()
      reads this
    {
      env.h == h && Coherent(env, Snapshot()) && QueueShape(env, queue)
    }

    /** `get_forkchoice_store`. The invariant holds of a store that is made from genesis. */
    constructor (h: Hasher, state: State, block: Block, genesisTime: nat, ghost env: Env)
      ensures this.h == h && this.env == env && Snapshot() == StoreFrom(h, state, block, genesisTime)
      ensures IsGenesisOf(env, h, state, block, genesisTime) ==> Valid()
    {
      var root := BlockRoot(h, block);
      var anchor := Checkpoint(root, block.slot);
      this.h, this.genesisTime, this.env := h, genesisTime, env;
      time := block.slot * INTERVALS_PER_SLOT;
      head, safeTarget := root, root;
      justified := if state.justified.root == ZERO_ROOT then anchor else state.justified;
      finalized := if state.finalized.root == ZERO_ROOT then anchor else state.finalized;
      blocks, states := map[root := block], map[root := state];
      known, recent, queue := map[], map[], map[];
      new;
      if IsGenesisOf(env, h, state, block, genesisTime) { InitialInv(env); }
    }

    method UpdateHead()
      requires Anchored(Snapshot())
      modifies this`head
      ensures Snapshot() == WithHead(old(Snapshot()))
    {
      var out := GetForkChoiceHead(blocks, justified.root, known, 0);
      head := out.value;
    }

    method UpdateSafeTarget()
      requires Anchored(Snapshot())
      modifies this`safeTarget
      ensures Snapshot() == WithSafeTarget(old(Snapshot()))
    {
      var validators := if head in states then states[head].validators else 0;
      var minScore := (validators * 2 + 2) / 3;
      var out := GetForkChoiceHead(blocks, justified.root, recent, minScore);
      safeTarget := out.value;
    }

    method AcceptNewAttestations()
      requires Anchored(Snapshot())
      modifies this`known, this`recent, this`head
      ensures Snapshot() == WithAccepted(old(Snapshot()))
    {
      known, recent := known + recent, map[];
      UpdateHead();
    }

    method TickInterval(hasProposal: bool)
      requires Valid()
      modifies this`time, this`known, this`recent, this`head, this`safeTarget
      ensures Valid() && Snapshot() == AfterInterval(old(Snapshot()), hasProposal)
    {
      hide Coherent;
      IntervalKeepsInv(env, Snapshot(), hasProposal);
      TimeKeepsInv(env, Snapshot(), time + 1);
      time := time + 1;
      InvAnchored(env, Snapshot());
      var phase := time % INTERVALS_PER_SLOT;
      if phase == 0 && hasProposal {
        AcceptNewAttestations();
      } else if phase == 2 {
        UpdateSafeTarget();
      } else if phase == 3 {
        AcceptNewAttestations();
      }
    }

    method OnTick(now: nat, hasProposal: bool)
      requires Valid()
      modifies this`time, this`known, this`recent, this`head, this`safeTarget
      ensures Valid() && Snapshot() == AfterTick(old(Snapshot()), now, hasProposal)
    {
      hide Coherent, AfterInterval;
      var target := (if now >= genesisTime then now - genesisTime else 0) / SECONDS_PER_INTERVAL;
      while time < target
        invariant Valid()
        invariant TickTo(Snapshot(), target, hasProposal) == TickTo(old(Snapshot()), target, hasProposal)
        decreases target - time
      {
        var signal := hasProposal && time + 1 == target;
        TickInterval(signal);
      }
    }

    method GetProposalHead(slot: Slot) returns (proposalHead: Root)
      requires Valid()
      modifies this`time, this`known, this`recent, this`head, this`safeTarget
      ensures Valid() && Snapshot() == AtProposal(old(Snapshot()), slot) && proposalHead == head
    {
      hide Coherent, TickTo, WithAccepted;
      OnTick(genesisTime + slot * SECONDS_PER_SLOT, true);
      AcceptKeepsInv(env, Snapshot());
      InvAnchored(env, Snapshot());
      AcceptNewAttestations();
      proposalHead := head;
    }

    /** `produce_block_with_signatures`. The caches of signatures and proofs are parameters. The
        store advances to the slot and accepts its votes in any case. The proposer whose turn
        it is gets what `build_block` makes of the accepted votes on top of the head, and a
        block that comes out is put into the store. */
    method ProduceBlockWithSignatures(slot: Slot, proposer: ValidatorId, gossip: GossipSignatures, payloads: Payloads, prover: Prover)
      returns (out: Outcome<(Root, Block, seq<Proof>)>, ghost ins: Inputs, ghost built: Outcome<(Block, State, seq<Proof>)>)
      requires Valid()
      modifies this
      ensures var s := AtProposal(old(Snapshot()), slot);
              if s.head !in s.states then out == Err(HeadStateNotFound)
              else if s.states[s.head].validators == 0 then out == Panic(DivisionByZero)
              else if proposer != slot % s.states[s.head].validators then out == Err(WrongProposer)
              else
                && IsProposal(s, slot, proposer, gossip, payloads, ins)
                && Promised(h, s.states[s.head], ins, [], prover, built)
                && out == if built.Ok? then Ok((BlockRoot(h, built.value.0), built.value.0, built.value.2)) else built.PropagateFailure()
      ensures !out.Ok? ==> Valid() && Snapshot() == AtProposal(old(Snapshot()), slot)
      ensures out.Ok? ==>
                && built.Ok? && ExtendsHead(h, AtProposal(old(Snapshot()), slot), out.value.1, built.value.1)
                && Snapshot() == WithOwnBlock(h, AtProposal(old(Snapshot()), slot), out.value.1, built.value.1)
      ensures out.Ok? && AcceptedAreSigned(h, AtProposal(old(Snapshot()), slot).known, gossip) ==>
                CarriesVotes(AtProposal(old(Snapshot()), slot), out.value.1.body, built.value.1)
      ensures out.Ok? && out.value.1 in env.universe ==> Valid()
    {
      hide Coherent, WithAccepted, TickTo, Promised, Transition, CarriesVotes, AcceptedAreSigned, ListsVotes;
      ins, built := Inputs(slot, proposer, ZERO_ROOT, [], {}, gossip, payloads), Err(HeadStateNotFound);
      var headRoot := GetProposalHead(slot);
      ghost var s := Snapshot();
      if headRoot !in states { return Err(HeadStateNotFound), ins, built; }
      var validators := states[headRoot].validators;
      if validators == 0 { return Panic(DivisionByZero), ins, built; }
      if proposer != slot % validators { return Err(WrongProposer), ins, built; }
      var available := ListVotes(known);
      var inputs := Inputs(slot, proposer, headRoot, available, blocks.Keys, gossip, payloads);
      var made := BuildBlock(h, states[headRoot], inputs, [], prover);
      ins, built := inputs, made;
      if made.IsFailure() { return made.PropagateFailure(), ins, built; }
      var (block, state, proofs) := made.value;
      var root := BlockRoot(h, block);
      PromisedBlock(h, states[headRoot], inputs, prover, made);
      if AcceptedAreSigned(h, known, gossip) {
        ProposalCarriesVotes(h, s, states[headRoot], slot, proposer, gossip, payloads, inputs, prover, block, state, proofs);
      }
      if block in env.universe { OwnBlockKeepsCoherent(env, s, block, state); }
      blocks, states := blocks[root := block], states[root := state];
      out := Ok((root, block, proofs));
    }

    method ValidateAttestationData(data: AttestationData) returns (r: Outcome<()>)
      ensures r == Validate(Snapshot(), data) && (r.Ok? <==> Acceptable(Snapshot(), data))
    {
      if data.source.root !in blocks { return Err(UnknownSource); }
      if data.target.root !in blocks { return Err(UnknownTarget); }
      if data.head.root !in blocks { return Err(UnknownHead); }
      if data.source.slot > data.target.slot { return Err(SourceAfterTarget); }
      if blocks[data.source.root].slot != data.source.slot { return Err(SourceSlotMismatch); }
      if blocks[data.target.root].slot != data.target.slot { return Err(TargetSlotMismatch); }
      var currentSlot := time / INTERVALS_PER_SLOT;
      if data.slot > currentSlot + 1 { return Err(FutureVote); }
      r := Ok(());
    }

    method OnAttestationInternal(id: ValidatorId, data: AttestationData, fromBlock: bool)
      modifies this`known, this`recent
      ensures Snapshot() == Cast(old(Snapshot()), id, data, fromBlock)
    {
      if fromBlock {
        if id !in known || known[id].slot < data.slot { known := known[id := data]; }
        if id in recent && recent[id].slot <= data.slot { recent := recent - {id}; }
      } else {
        if id !in recent || recent[id].slot < data.slot { recent := recent[id := data]; }
      }
    }

    method OnAttestation(id: ValidatorId, data: AttestationData, fromBlock: bool) returns (r: Outcome<()>)
      requires Valid()
      modifies this`known, this`recent
      ensures Valid() && (Snapshot(), r) == AfterAttestation(old(Snapshot()), id, data, fromBlock)
    {
      hide Coherent;
      VoteKeepsInv(env, Snapshot(), id, data, fromBlock);
      r := ValidateAttestationData(data);
      if r.Ok? { OnAttestationInternal(id, data, fromBlock); }
    }

    /** The votes of a block body. */
    method CastVotesOf(body: seq<AggregatedAttestation>)
      modifies this`known, this`recent
      ensures Snapshot() == CastBody(old(Snapshot()), body)
    {
      for i := 0 to |body|
        invariant Snapshot() == CastBody(old(Snapshot()), body[..i])
      {
        assert body[..i + 1][..i] == body[..i];
        var ids := Indices(body[i].bits);
        ghost var before := Snapshot();
        for j := 0 to |ids|
          invariant Snapshot() == CastEach(before, ids[..j], body[i].data)
        {
          assert ids[..j + 1][..j] == ids[..j];
          OnAttestationInternal(ids[j], body[i].data, true);
        }
        assert ids[..|ids|] == ids;
      }
      assert body[..|body|] == body;
    }

    /** Store a block with its state and raise the checkpoints. */
    method Keep(root: Root, block: Block, post: State)
      modifies this`blocks, this`states, this`justified, this`finalized
      ensures Snapshot() == WithBlock(old(Snapshot()), root, block, post)
    {
      blocks, states := blocks[root := block], states[root := post];
      if post.justified.slot > justified.slot { justified := post.justified; }
      if post.finalized.slot > finalized.slot { finalized := post.finalized; }
    }

    /** The vote handling of an imported block, around the head update. */
    method CountVotes(sb: SignedBlock)
      requires Anchored(Snapshot())
      modifies this`known, this`recent, this`head
      ensures Snapshot() == CastByGossip(WithHead(CastBody(old(Snapshot()), sb.block.body)),
                                         sb.proposerVote.validatorId, sb.proposerVote.data)
    {
      hide GhostHead;
      CastBodyOnlyVotes(Snapshot(), sb.block.body);
      CastVotesOf(sb.block.body);
      UpdateHead();
      OnAttestationInternal(sb.proposerVote.validatorId, sb.proposerVote.data, false);
    }

    method ProcessBlockInternal(sb: SignedBlock) returns (r: Outcome<()>)
      requires Valid() && sb.block in env.universe
      modifies this
      ensures Valid() && (Snapshot(), r) == AfterImport(h, old(Snapshot()), sb)
    {
      hide Coherent, Transition, Anchored, WithHead;
      ImportAlwaysGrows(env, Snapshot(), sb);
      var block := sb.block;
      if block.parentRoot !in states { return Err(NoParentState); }
      var post := StateTransition(h, states[block.parentRoot], block);
      if !post.Ok? { return post.PropagateFailure(); }
      StoredIsAnchored(env, Snapshot(), block, post.value);
      Keep(BlockRoot(h, block), block, post.value);
      CountVotes(sb);
      r := Ok(());
    }

    /** The inner loop: import the orphans of one parent, pushing those that succeed. */
    method ImportOrphans(list: seq<SignedBlock>, stack: seq<Root>) returns (more: seq<Root>, r: Outcome<()>)
      requires Valid() && forall i :: 0 <= i < |list| ==> list[i].block in env.universe
      modifies this
      ensures Valid() && (Snapshot(), more, r) == DrainList(h, old(Snapshot()), list, stack)
    {
      hide Coherent, AfterImport;
      more := stack;
      for i := 0 to |list|
        invariant Valid() && queue == old(queue)
        invariant DrainList(h, Snapshot(), list[i..], more) == DrainList(h, old(Snapshot()), list, stack)
      {
        assert list[i..][0] == list[i] && list[i..][1..] == list[i + 1..];
        r := ProcessBlockInternal(list[i]);
        if r.Panic? { return; }
        if r.Ok? { more := more + [BlockRoot(h, list[i].block)]; }
      }
      assert list[|list|..] == [];
      r := Ok(());
    }

    method ProcessPendingBlocks(roots: seq<Root>) returns (r: Outcome<()>)
      requires Valid()
      modifies this
      ensures Valid() && (Snapshot(), r) == Drain(h, old(Snapshot()), roots)
    {
      hide Coherent, DrainList;
      var stack := roots;
      while stack != []
        invariant Valid()
        invariant Drain(h, Snapshot(), stack) == Drain(h, old(Snapshot()), roots)
        decreases |queue|, |stack|
      {
        var parent := stack[|stack| - 1];
        stack := stack[..|stack| - 1];
        if parent in queue {
          var list := queue[parent];
          assert ListShape(env, parent, list);
          QueueKeepsInv(env, Snapshot(), queue - {parent});
          QueueShrinks(queue, parent);
          queue := queue - {parent};
          stack, r := ImportOrphans(list, stack);
          if r.Panic? { return; }
        }
      }
      r := Ok(());
    }

    method OnBlock(sb: SignedBlock) returns (r: Outcome<()>)
      requires Valid() && sb.block in env.universe
      modifies this
      ensures Valid() && (Snapshot(), r) == AfterArrival(h, old(Snapshot()), sb)
    {
      hide Coherent, AfterImport, Drain;
      var root, parent := BlockRoot(h, sb.block), sb.block.parentRoot;
      if root in blocks { return Ok(()); }
      if parent !in states && parent != ZERO_ROOT {
        QueueKeepsInv(env, Snapshot(), Enqueue(queue, sb));
        EnqueueKeepsShape(env, queue, sb);
        queue := queue[parent := (if parent in queue then queue[parent] else []) + [sb]];
        return Err(ParentNotAvailable);
      }
      r := ProcessBlockInternal(sb);
      if !r.Ok? { return; }
      r := ProcessPendingBlocks([root]);
    }
  }

  lemma PromisedBlock(h: Hasher, st: State, ins: Inputs, prover: Prover, out: Outcome<(Block, State, seq<Proof>)>)
    requires Promised(h, st, ins, [], prover, out) && out.Ok?
    ensures out.value.0.parentRoot == ins.parent && Transition(h, st, out.value.0) == Ok(out.value.1)
  {
    hide Transition, Settled, Conclusive, Buildable, VotesSealable, VotesSplit, UsableProofs, Collection, VotesFit, AllVotesProvable;
  }

  lemma StoredIsAnchored(env: Env, s: View, b: Block, post: State)
    requires Coherent(env, s) && Importable(env, s, b, post)
    ensures Anchored(WithBlock(s, BlockRoot(env.h, b), b, post))
  {
    ImportKeepsStore(env, s, b, post);
  }
}
