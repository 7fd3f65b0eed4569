/** Runs in which the node also builds blocks of its own. `produce_block_with_signatures` puts its
    block into the store without raising checkpoints or draining the queue; what a store keeps
    nevertheless, and exactly what it may lose. */
module Productions {
  import opened Containers
  import opened Aggregation
  import opened StateTransitions
  import opened Chain
  import opened Covering
  import opened Builder
  import opened BlockTree
  import opened StoreModel
  import opened Imports
  import opened Arrivals
  import opened Runs
  import opened StoreFacts

  /** The store with its own block put in. */
  function WithOwnBlock(h: Hasher, s: View, b: Block, post: State): View {
    s.(blocks := s.blocks[BlockRoot(h, b) := b], states := s.states[BlockRoot(h, b) := post])
  }

  /** The block extends the head of the store. */
  ghost predicate ExtendsHead(h: Hasher, s: View, b: Block, post: State) {
    s.head in s.states && b.parentRoot == s.head && Transition(h, s.states[s.head], b) == Ok(post)
  }

  /** The accepted votes, listed in some order. */
  ghost predicate ListsVotes(known: Votes, votes: seq<Attestation>) {
    forall a :: a in votes <==> a.validatorId in known && known[a.validatorId] == a.data
  }

  /** The hash map is turned into a list; its order is left open. */
  method ListVotes(known: Votes) returns (votes: seq<Attestation>)
    ensures ListsVotes(known, votes) && |votes| == |known|
  {
    votes := [];
    var rest := known.Keys;
    while rest != {}
      invariant rest <= known.Keys && |votes| + |rest| == |known.Keys|
      invariant forall a :: a in votes <==> a.validatorId in known.Keys - rest && known[a.validatorId] == a.data
      decreases |rest|
    {
      var id :| id in rest;
      votes, rest := votes + [Attestation(id, known[id])], rest - {id};
    }
    assert |known| == |known.Keys|;
  }

  /** What a proposal hands to `build_block`: all accepted votes, the roots of all stored blocks,
      and the head as the parent. */
  ghost predicate IsProposal(s: View, slot: Slot, proposer: ValidatorId, gossip: GossipSignatures, payloads: Payloads, ins: Inputs) {
    && ins.slot == slot && ins.proposer == proposer && ins.parent == s.head
    && ListsVotes(s.known, ins.available) && ins.knownRoots == s.blocks.Keys
    && ins.gossip == gossip && ins.payloads == payloads
  }

  ghost predicate AcceptedAreSigned(h: Hasher, known: Votes, gossip: GossipSignatures) {
    forall id :: id in known ==> SignatureKey(id, h.data(known[id])) in gossip
  }

  /** The body carries accepted votes about stored heads only, and all of those whose source is
      the justified checkpoint of the state that the block leads to. */
  ghost predicate CarriesVotes(s: View, body: seq<AggregatedAttestation>, post: State) {
    && (forall id, data :: Covers(body, data, id) ==> id in s.known && s.known[id] == data && data.head.root in s.blocks)
    && (forall id :: id in s.known && s.known[id].head.root in s.blocks && s.known[id].source == post.justified ==>
          Covers(body, s.known[id], id))
  }

  /** If all accepted votes are signed, a proposal carries them. */
  lemma ProposalCarriesVotes(h: Hasher, s: View, st: State, slot: Slot, proposer: ValidatorId, gossip: GossipSignatures,
                             payloads: Payloads, ins: Inputs, prover: Prover, block: Block, post: State, proofs: seq<Proof>)
    requires IsProposal(s, slot, proposer, gossip, payloads, ins) && AcceptedAreSigned(h, s.known, gossip)
    requires Promised(h, st, ins, [], prover, Ok((block, post, proofs)))
    ensures CarriesVotes(s, block.body, post)
  {
    hide Transition, Collection, AggregateByData, Covers, Settled, VotesSealable, VotesSplit, UsableProofs, Conclusive, Buildable, GenuineProofs, DistinctData;
    var taken := Collection(h, st, ins, []).value;
    CollectedAreSigned(h, st, s, ins, gossip, taken);
    SignedGroupsFit(h, ins.gossip, ins.payloads, taken);
    AggregationPreservesVotes(taken);
    var packed := AggregateByData(taken).value;
    assert block.body == packed;
    SamePost(h, st, ins, block, post);
    forall id, data | Covers(block.body, data, id)
      ensures id in s.known && s.known[id] == data && data.head.root in s.blocks
    {
      CollectedExactly(h, st, ins, [], Attestation(id, data));
    }
    forall id | id in s.known && s.known[id].head.root in s.blocks && s.known[id].source == post.justified
      ensures Covers(block.body, s.known[id], id)
    {
      var a := Attestation(id, s.known[id]);
      CollectedExactly(h, st, ins, [], a);
      assert taken[..|taken|] == taken;
      assert LedTo(h, st, ins, taken, |taken|, post);
    }
  }

  lemma CollectedAreSigned(h: Hasher, st: State, s: View, ins: Inputs, gossip: GossipSignatures, taken: seq<Attestation>)
    requires Settled(h, st, ins, [], taken) && ListsVotes(s.known, ins.available) && ins.gossip == gossip
    requires AcceptedAreSigned(h, s.known, gossip)
    ensures AggregateByData(taken).Ok? && forall a :: a in taken ==> HasSigned(h, ins.gossip, a)
  {
    hide Applied, AggregateByData, Eligible;
  }

  /** The returned state is the one that the candidate led to. */
  lemma SamePost(h: Hasher, st: State, ins: Inputs, block: Block, post: State)
    requires Transition(h, st, block) == Ok(post)
    requires block.slot == ins.slot && block.proposerIndex == ins.proposer && block.parentRoot == ins.parent
    ensures Applied(h, st, Candidate(ins, block.body)) == Ok(post)
  {
    hide AfterBlock;
    StateRootIsIgnored(h, Filled(h, st).(slot := block.slot), block, ZERO_ROOT);
    assert block.(stateRoot := ZERO_ROOT) == Candidate(ins, block.body);
  }

  /** A block of one's own keeps the store coherent, and nothing stored is lost. */
  lemma OwnBlockKeepsCoherent(env: Env, s: View, b: Block, post: State)
    requires Coherent(env, s) && b in env.universe && ExtendsHead(env.h, s, b, post)
    ensures Coherent(env, WithOwnBlock(env.h, s, b, post)) && Grows(s, WithOwnBlock(env.h, s, b, post))
  {
    hide Coherent, Transition;
    var t, r := WithOwnBlock(env.h, s, b, post), BlockRoot(env.h, b);
    StoredMatches(env, s, b, post);
    if r in s.blocks {
      assert s.blocks[r := b] == s.blocks && s.states[r := post] == s.states;
      assert t == s;
    } else {
      OwnNewBlock(env, s, b, post);
    }
  }

  lemma OwnNewBlock(env: Env, s: View, b: Block, post: State)
    requires Coherent(env, s) && b in env.universe && ExtendsHead(env.h, s, b, post) && BlockRoot(env.h, b) !in s.blocks
    ensures Coherent(env, WithOwnBlock(env.h, s, b, post))
  {
    hide Transition, StatesFit, Linked;
    NewBlockKeepsTree(env, s, b, post);
  }

  /** What it may lose: afterwards the checkpoints are still the greatest exactly when those of
      the new state are not greater, and no queued parent is stored exactly when nobody waits
      for the new block. */
  lemma OwnBlockKeepsRestExactly(env: Env, s: View, b: Block, post: State)
    requires Inv(env, s) && ExtendsHead(env.h, s, b, post) && BlockRoot(env.h, b) !in s.blocks && OpenKeys(s, [])
    ensures var t := WithOwnBlock(env.h, s, b, post);
            && (Greatest(env, t) <==> post.justified.slot <= s.justified.slot && post.finalized.slot <= s.finalized.slot)
            && (OpenKeys(t, []) <==> BlockRoot(env.h, b) !in s.queue)
  {
    hide Transition, StatesFit, Linked;
    var t, r := WithOwnBlock(env.h, s, b, post), BlockRoot(env.h, b);
    KeysMatch(env, s);
    StillGreatestExactly(s.blocks, env.AnchorRoot(), r, b, s.justified, post.justified, JustifiedPoints(s.states));
    StillGreatestExactly(s.blocks, env.AnchorRoot(), r, b, s.finalized, post.finalized, FinalizedPoints(s.states));
    assert JustifiedPoints(t.states) == JustifiedPoints(s.states)[r := post.justified];
    assert FinalizedPoints(t.states) == FinalizedPoints(s.states)[r := post.finalized];
  }

  lemma KeysMatch(env: Env, s: View)
    requires Coherent(env, s)
    ensures s.blocks.Keys == s.states.Keys
  {
  }

  lemma StillGreatestExactly(blocks: Blocks, anchor: Root, r: Root, b: Block, best: Checkpoint, c: Checkpoint,
                             points: map<Root, Checkpoint>)
    requires IsGreatest(blocks, anchor, best, points) && r !in points && r !in blocks
    ensures IsGreatest(blocks[r := b], anchor, best, points[r := c]) <==> c.slot <= best.slot
  {
    var after := points[r := c];
    assert after[r] == c;
    if best != Checkpoint(anchor, 0) {
      var x :| x in points && points[x] == best;
      assert x in after && after[x] == best;
    }
  }

  // Runs with productions.

  /** One step: an event that does not crash, or a proposal, which may also put in a block. */
  ghost predicate Steps(env: Env, s: View, t: View) {
    || (exists e: Event :: (e.Arrive? ==> e.signed.block in env.universe) && !After(env.h, s, e).1.Panic? && t == After(env.h, s, e).0)
    || (exists slot: Slot, b, post :: Produces(env, s, slot, b, post, t))
  }

  ghost predicate Produces(env: Env, s: View, slot: Slot, b: Block, post: State, t: View) {
    var p := AtProposal(s, slot);
    b in env.universe && b.slot == slot && ExtendsHead(env.h, p, b, post) && t == WithOwnBlock(env.h, p, b, post)
  }

  /** A run that also produces blocks, as the list of its stores. */
  ghost predicate IsProducingRun(env: Env, views: seq<View>) {
    && env.Valid() && views != [] && views[0] == Initial(env)
    && forall i :: 0 <= i < |views| - 1 ==> Steps(env, views[i], views[i + 1])
  }

  lemma StepKeepsCoherent(env: Env, s: View, t: View)
    requires Coherent(env, s) && QueueShape(env, s.queue) && Steps(env, s, t)
    ensures Coherent(env, t) && QueueShape(env, t.queue) && Grows(s, t)
  {
    hide Coherent, Greatest, After, ExtendsHead, Grows, QueueShape;
    if e: Event :| (e.Arrive? ==> e.signed.block in env.universe) && !After(env.h, s, e).1.Panic? && t == After(env.h, s, e).0 {
      EventGrows(env, s, e);
    } else {
      var slot: Slot, b, post :| Produces(env, s, slot, b, post, t);
      var p := AtProposal(s, slot);
      assert After(env.h, s, Propose(slot)).0 == p by { ProposalIsEvent(env.h, s, slot); }
      EventGrows(env, s, Propose(slot));
      OwnBlockKeepsCoherent(env, p, b, post);
      GrowsTransitive(s, p, t);
    }
  }

  lemma ProposalIsEvent(h: Hasher, s: View, slot: Slot)
    ensures After(h, s, Propose(slot)).0 == AtProposal(s, slot)
  {
  }

  lemma {:induction false} ProducingRunCoherent(env: Env, views: seq<View>, i: nat)
    requires IsProducingRun(env, views) && i < |views|
    ensures Coherent(env, views[i]) && QueueShape(env, views[i].queue)
    decreases i
  {
    hide Coherent, Greatest, Steps;
    if i == 0 {
      InitialInv(env);
    } else {
      ProducingRunCoherent(env, views, i - 1);
      StepKeepsCoherent(env, views[i - 1], views[i]);
    }
  }

  /** In every run, also with blocks of the node's own: every stored block but the anchor is the
      valid successor of its stored parent, the history of every stored state is its parent
      walk, both checkpoints name stored blocks of their slots, and the head descends from the
      justified one. */
  lemma ProducingRunKeepsChain(env: Env, views: seq<View>, i: nat)
    requires IsProducingRun(env, views) && i < |views|
    ensures var s := views[i];
            && WellFormed(s.blocks) && Descends(s.blocks, s.head, s.justified.root)
            && IsStored(s.blocks, s.justified) && IsStored(s.blocks, s.finalized)
            && (forall r :: r in s.blocks && r != env.AnchorRoot() ==> IsSuccessor(env.h, s.blocks, s.states, r))
            && (forall r :: r in s.states ==> IsParentWalk(s.blocks, r, s.states[r]))
  {
    hide IsParentWalk, Transition, IsSuccessor;
    var s := views[i];
    ProducingRunCoherent(env, views, i);
    forall r | r in s.states ensures IsParentWalk(s.blocks, r, s.states[r]) {
      HistoryExact(env, s, r);
    }
  }

  /** Nothing that was stored is lost, and checkpoints only advance, also across productions. */
  lemma {:induction false} ProducingRunGrows(env: Env, views: seq<View>, i: nat, j: nat)
    requires IsProducingRun(env, views) && i <= j < |views|
    ensures Grows(views[i], views[j])
    decreases j
  {
    hide Coherent, Greatest, Steps, Grows, QueueShape;
    if i == j {
      GrowsReflexive(views[i]);
    } else {
      ProducingRunGrows(env, views, i, j - 1);
      ProducingRunCoherent(env, views, j - 1);
      StepKeepsCoherent(env, views[j - 1], views[j]);
      GrowsTransitive(views[i], views[j - 1], views[j]);
    }
  }

  /** A proposal is sure to collect its votes: in a coherent store, for a later slot than that of
      the head, by the proposer of that slot, if the accepted votes are by registered
      validators for earlier targets and their roots do not collide. */
  lemma ProposalIsCollectable(env: Env, s: View, slot: Slot, proposer: ValidatorId,
                              gossip: GossipSignatures, payloads: Payloads, ins: Inputs)
    requires Coherent(env, s) && env.validators <= VALIDATOR_LIMIT && SlotOf(s.blocks, s.head) < slot
    requires proposer == slot % env.validators && IsProposal(s, slot, proposer, gossip, payloads, ins)
    requires forall id :: id in s.known ==> id < env.validators && s.known[id].target.slot < slot
    requires forall a, b :: a in s.known && b in s.known ==>
               (env.h.data(s.known[a]) == env.h.data(s.known[b]) ==> s.known[a] == s.known[b])
    ensures s.head in s.states
    ensures Collectable(env.h, s.states[s.head], ins, [])
  {
    hide Coherent, Reachable;
    HeadIsStored(env, s);
    FitAt(env, s, s.head);
    ReachableHeader(env.h, s.states[s.head]);
  }

  lemma HeadIsStored(env: Env, s: View)
    requires Coherent(env, s)
    ensures s.head in s.states && s.head in s.blocks && env.validators > 0
  {
    hide Transition, StatesFit;
    DescendsFacts(s.blocks, s.head, s.justified.root);
  }
}
