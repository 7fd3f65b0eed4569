/** No vote is forgotten: what a pending tally holds, in terms of the attestations of the chain
    alone, and that a target is justified as soon as two thirds of the validators have voted
    for it. */
module Counting {
  import opened Containers
  import opened Bits
  import opened Window
  import opened Justification
  import opened Finality
  import opened Soundness
  import opened StateTransitions
  import opened Chain
  import opened Bodies

  /** The validators with a pending vote for the root. */
  ghost function TallyOf(p: Progress, root: Root): set<ValidatorId> {
    if root in p.votes then Members(p.votes[root]) else {}
  }

  /** Wherever the root occurs in the history, its slot is neither finalized nor justified. */
  ghost predicate Open(history: seq<Root>, window: seq<bool>, finalized: Slot, root: Root) {
    forall slot :: 0 <= slot < |history| && history[slot] == root ==> !Marked(window, finalized, slot)
  }

  /** Attestation k of the list is counted when the loop gets to it. */
  ghost predicate CountedAt(pre: State, atts: seq<AggregatedAttestation>, k: nat) {
    k < |atts| && Reached(pre, atts, k).Ok? && Countable(pre, Reached(pre, atts, k).value, atts[k].data)
  }

  /** Among the first n attestations, one that is counted has the root as its target and names
      the validator. */
  ghost predicate VotesFor(pre: State, atts: seq<AggregatedAttestation>, n: nat, root: Root, id: ValidatorId) {
    exists k: nat :: k < n && CountedAt(pre, atts, k) && atts[k].data.target.root == root && id in Members(atts[k].bits)
  }

  lemma VotesForNext(pre: State, atts: seq<AggregatedAttestation>, n: nat, root: Root, id: ValidatorId)
    requires n < |atts|
    ensures VotesFor(pre, atts, n + 1, root, id) <==>
            || VotesFor(pre, atts, n, root, id)
            || (CountedAt(pre, atts, n) && atts[n].data.target.root == root && id in Members(atts[n].bits))
  {
    hide CountedAt, Members;
  }

  lemma NoVotesYet(pre: State, atts: seq<AggregatedAttestation>, root: Root, id: ValidatorId)
    ensures !VotesFor(pre, atts, 0, root, id)
  {
  }

  /** An attestation that is recorded adds its participants to the tally of its target. */
  lemma RecordedAddsVotes(pre: State, p: Progress, att: AggregatedAttestation, q: Progress, root: Root)
    requires ProgressSound(pre, p) && Recorded(pre, p, att, q)
    ensures TallyOf(q, root) == TallyOf(p, root) + if att.data.target.root == root then Members(att.bits) else {}
  {
    hide Guarded, CheckpointsSound, WindowSound, Countable, Supermajority;
    RowAfterSound(pre, p, att);
    assert Members(Zeros(pre.validators)) == {};
  }

  /** A justification leaves the tallies of open roots alone. */
  lemma JustifyingKeepsOpen(pre: State, index: map<Root, Slot>, p: Progress, att: AggregatedAttestation, root: Root)
    requires ProgressSound(pre, p) && IndexSound(pre.history, pre.finalized.slot, index)
    requires Justifies(pre, p, att) && Step(pre, index, p, att).Ok?
    requires var q := Step(pre, index, p, att).value; Open(pre.history, q.window, q.finalized.slot, root)
    ensures att.data.target.root != root
    ensures TallyOf(Step(pre, index, p, att).value, root) == TallyOf(p, root)
  {
    hide Justify, Step, NextJustifiable, Members, CheckpointsSound, WindowSound, TallySound, RowAfter;
    var q := Step(pre, index, p, att).value;
    JustifyingStep(pre, index, p, att);
    TargetIsMarked(pre, index, p, att);
    JustifyCases(pre, index, p, att);
    var m := AfterMark(p, att.data.target);
    if q != m && root in p.votes {
      OpenSurvivesPruning(pre, index, p, q, root);
    }
  }

  lemma TargetIsMarked(pre: State, index: map<Root, Slot>, p: Progress, att: AggregatedAttestation)
    requires Guarded(pre.finalized.slot, p) && Justifies(pre, p, att) && Step(pre, index, p, att).Ok?
    ensures var q := Step(pre, index, p, att).value; Marked(q.window, q.finalized.slot, att.data.target.slot)
    ensures att.data.target.slot < |pre.history| && pre.history[att.data.target.slot] == att.data.target.root
  {
    hide Justify, Step, NextJustifiable, RowAfter, Guarded;
    JustificationExact(pre, index, p, att);
  }

  lemma OpenSurvivesPruning(pre: State, index: map<Root, Slot>, p: Progress, q: Progress, root: Root)
    requires TalliesSound(pre.history, pre.validators, p) && root in p.votes
    requires IndexSound(pre.history, pre.finalized.slot, index) && pre.finalized.slot <= p.finalized.slot
    requires Open(pre.history, q.window, q.finalized.slot, root)
    ensures root in index && index[root] > q.finalized.slot
  {
    hide Members, Supermajority;
    assert TallySound(pre.history, pre.validators, p.finalized.slot, root, p.votes[root]);
    var slot :| p.finalized.slot < slot < |pre.history| && pre.history[slot] == root;
    assert pre.history[slot] in index;
  }

  /** One attestation: an open root gets the participants of a counted vote, and loses nobody. */
  lemma StepTally(pre: State, index: map<Root, Slot>, p: Progress, att: AggregatedAttestation, root: Root)
    requires ProgressSound(pre, p) && IndexSound(pre.history, pre.finalized.slot, index) && Step(pre, index, p, att).Ok?
    requires var q := Step(pre, index, p, att).value; Open(pre.history, q.window, q.finalized.slot, root)
    ensures TallyOf(Step(pre, index, p, att).value, root) ==
            TallyOf(p, root) + if Countable(pre, p, att.data) && att.data.target.root == root then Members(att.bits) else {}
  {
    hide Step, Justify, ProgressSound, Countable, Members, TallyOf, RowAfter, Supermajority, IndexSound, Open;
    var q := Step(pre, index, p, att).value;
    StepCases(pre, index, p, att);
    if Recorded(pre, p, att, q) {
      RecordedAddsVotes(pre, p, att, q, root);
    } else if Skipped(pre, p, att, q) {
      CountedExact(pre, p, att.data);
    } else {
      JustifyingKeepsOpen(pre, index, p, att, root);
    }
  }

  /** Marks only grow while a block is processed. */
  lemma OpenBefore(pre: State, atts: seq<AggregatedAttestation>, n: nat, root: Root)
    requires 0 < n <= |atts| && Reached(pre, atts, n).Ok? && Reached(pre, atts, n - 1).Ok?
    requires var q := Reached(pre, atts, n).value; Open(pre.history, q.window, q.finalized.slot, root)
    ensures var p := Reached(pre, atts, n - 1).value; Open(pre.history, p.window, p.finalized.slot, root)
  {
    hide Marked, Reached, JustifiesAt, Guarded;
    var p, q := Reached(pre, atts, n - 1).value, Reached(pre, atts, n).value;
    ReachedPrefixOk(pre, atts, n);
    ReachedGuarded(pre, atts, n - 1);
    StepKeepsGuard(pre, IndexFor(pre), p, atts[n - 1]);
    forall slot | 0 <= slot < |pre.history| && pre.history[slot] == root ensures !Marked(p.window, p.finalized.slot, slot) {
      assert !Marked(q.window, q.finalized.slot, slot);
      ReachedMarks(pre, atts, n, slot);
      ReachedMarks(pre, atts, n - 1, slot);
      FinalizedIsMarked(q.window, q.finalized.slot, slot);
      JustifiesSlotNext(pre, atts, n - 1, slot);
    }
  }

  /** The tally of an open root after the first n attestations of a block. */
  lemma {:induction false} ReachedTally(pre: State, atts: seq<AggregatedAttestation>, n: nat, root: Root, id: ValidatorId)
    requires Sound(pre) && n <= |atts| && Reached(pre, atts, n).Ok?
    requires var q := Reached(pre, atts, n).value; Open(pre.history, q.window, q.finalized.slot, root)
    ensures id in TallyOf(Reached(pre, atts, n).value, root) <==>
            id in TallyOf(ProgressOf(pre), root) || VotesFor(pre, atts, n, root, id)
    decreases n
  {
    hide Sound, Step, ProgressSound, IndexSound, Open, TallyOf, Countable, Members, VotesFor;
    if n == 0 {
      assert atts[..0] == [];
      NoVotesYet(pre, atts, root, id);
    } else {
      ReachedPrefixOk(pre, atts, n);
      OpenBefore(pre, atts, n, root);
      ReachedTally(pre, atts, n - 1, root, id);
      ReachedSound(pre, atts, n - 1);
      StepTally(pre, IndexFor(pre), Reached(pre, atts, n - 1).value, atts[n - 1], root);
      VotesForNext(pre, atts, n - 1, root, id);
    }
  }

  // Blocks and chains.

  lemma BodyTally(pre: State, atts: seq<AggregatedAttestation>, root: Root, id: ValidatorId)
    requires Sound(pre) && AfterAttestations(pre, atts).Ok?
    requires var post := AfterAttestations(pre, atts).value; Open(post.history, post.window, post.finalized.slot, root)
    ensures id in TallyOf(ProgressOf(AfterAttestations(pre, atts).value), root) <==>
            id in TallyOf(ProgressOf(pre), root) || VotesFor(pre, atts, |atts|, root, id)
  {
    hide Sound, Reached, TallyOf, VotesFor, Open, AfterAttestations, VotesOf;
    AfterIsReached(pre, atts);
    ReachedSound(pre, atts, |atts|);
    WriteBackReadsBack(pre, Reached(pre, atts, |atts|).value);
    ReachedTally(pre, atts, |atts|, root, id);
  }

  /** Some counted attestation of block i votes for the root and names the validator. */
  ghost predicate BlockVotesFor(h: Hasher, genesis: State, blocks: seq<Block>, i: nat, root: Root, id: ValidatorId) {
    && i < |blocks|
    && var st := Replay(h, genesis, blocks[..i]);
       && st.Ok? && BlockPre(h, st.value, blocks[i]).Ok?
       && VotesFor(BlockPre(h, st.value, blocks[i]).value, blocks[i].body, |blocks[i].body|, root, id)
  }

  ghost predicate VotedInChain(h: Hasher, genesis: State, blocks: seq<Block>, root: Root, id: ValidatorId) {
    exists i: nat :: BlockVotesFor(h, genesis, blocks, i, root, id)
  }

  lemma BlockVotesPrefix(h: Hasher, genesis: State, blocks: seq<Block>, n: nat, i: nat, root: Root, id: ValidatorId)
    requires i < n <= |blocks|
    ensures BlockVotesFor(h, genesis, blocks[..n], i, root, id) <==> BlockVotesFor(h, genesis, blocks, i, root, id)
  {
    hide Replay, BlockPre, VotesFor;
    assert blocks[..n][..i] == blocks[..i];
  }

  lemma VotedInChainSnoc(h: Hasher, genesis: State, blocks: seq<Block>, root: Root, id: ValidatorId)
    requires blocks != []
    ensures VotedInChain(h, genesis, blocks, root, id) <==>
            || VotedInChain(h, genesis, blocks[..|blocks| - 1], root, id)
            || BlockVotesFor(h, genesis, blocks, |blocks| - 1, root, id)
  {
    hide BlockVotesFor;
    var n := |blocks| - 1;
    forall i: nat | i < n
      ensures BlockVotesFor(h, genesis, blocks[..n], i, root, id) <==> BlockVotesFor(h, genesis, blocks, i, root, id)
    {
      BlockVotesPrefix(h, genesis, blocks, n, i, root, id);
    }
    VotingBlockBound(h, genesis, blocks, root, id);
    VotingBlockBound(h, genesis, blocks[..n], root, id);
  }

  lemma VotingBlockBound(h: Hasher, genesis: State, blocks: seq<Block>, root: Root, id: ValidatorId)
    ensures forall i: nat :: BlockVotesFor(h, genesis, blocks, i, root, id) ==> i < |blocks|
  {
  }

  lemma NoVotesInEmptyChain(h: Hasher, genesisTime: nat, validators: nat, root: Root, id: ValidatorId)
    ensures var genesis := Genesis(h, genesisTime, validators);
            !VotedInChain(h, genesis, [], root, id) && TallyOf(ProgressOf(genesis), root) == {}
  {
  }

  /** A root that is open after a block was open before it. */
  lemma OpenBeforeBlock(h: Hasher, st: State, b: Block, root: Root)
    requires Reachable(h, st) && Transition(h, st, b).Ok?
    requires var post := Transition(h, st, b).value; Open(post.history, post.window, post.finalized.slot, root)
    ensures Open(st.history, st.window, st.finalized.slot, root)
  {
    hide Reachable, Transition, Marked, Sound, JustifiesSlot, BlockPre;
    var post := Transition(h, st, b).value;
    TransitionKeepsSound(h, st, b);
    forall slot | 0 <= slot < |st.history| && st.history[slot] == root ensures !Marked(st.window, st.finalized.slot, slot) {
      assert post.history[slot] == root;
      BlockMarksExactly(h, st, b, slot);
    }
  }

  lemma BlockTally(h: Hasher, st: State, b: Block, root: Root, id: ValidatorId)
    requires Reachable(h, st) && Transition(h, st, b).Ok?
    requires var post := Transition(h, st, b).value; Open(post.history, post.window, post.finalized.slot, root)
    ensures BlockPre(h, st, b).Ok?
    ensures id in TallyOf(ProgressOf(Transition(h, st, b).value), root) <==>
            id in TallyOf(ProgressOf(st), root) || VotesFor(BlockPre(h, st, b).value, b.body, |b.body|, root, id)
  {
    hide Reachable, Sound, AfterAttestations, VotesFor, Open, VotesOf, ExtendToSlot;
    HeaderKeepsSound(h, st, b);
    BodyTally(BlockPre(h, st, b).value, b.body, root, id);
  }

  /** In every state of every chain, the pending votes for a root that is neither finalized nor
      justified are exactly those of the counted attestations of the chain: every validator
      that such an attestation names has its bit set, across any number of blocks, and nobody
      else. */
  lemma {:induction false} ChainTallyExact(h: Hasher, genesisTime: nat, validators: nat, blocks: seq<Block>, st: State,
                                           root: Root, id: ValidatorId)
    requires IsChain(h, genesisTime, validators, blocks, st) && Open(st.history, st.window, st.finalized.slot, root)
    ensures id in TallyOf(ProgressOf(st), root) <==> VotedInChain(h, Genesis(h, genesisTime, validators), blocks, root, id)
    decreases |blocks|
  {
    hide Transition, Reachable, Sound, Open, TallyOf, VotedInChain, VotesFor, BlockPre, ProgressOf, IsChain;
    if blocks == [] {
      EmptyChainState(h, genesisTime, validators, st);
      NoVotesInEmptyChain(h, genesisTime, validators, root, id);
    } else {
      var init, b := blocks[..|blocks| - 1], blocks[|blocks| - 1];
      var before := ChainSplit(h, genesisTime, validators, blocks, st);
      ChainReachable(h, genesisTime, validators, init, before);
      OpenBeforeBlock(h, before, b, root);
      ChainTallyExact(h, genesisTime, validators, init, before, root, id);
      BlockTally(h, before, b, root, id);
      VotedInChainSnoc(h, Genesis(h, genesisTime, validators), blocks, root, id);
      ChainIsReplay(h, genesisTime, validators, init, before);
    }
  }

  lemma EmptyChainState(h: Hasher, genesisTime: nat, validators: nat, st: State)
    requires IsChain(h, genesisTime, validators, [], st)
    ensures st == Genesis(h, genesisTime, validators)
  {
  }

  lemma ChainIsReplay(h: Hasher, genesisTime: nat, validators: nat, blocks: seq<Block>, st: State)
    requires IsChain(h, genesisTime, validators, blocks, st)
    ensures Replay(h, Genesis(h, genesisTime, validators), blocks) == Ok(st)
  {
  }

  /** A root is justified as soon as two thirds of the validators have voted for it: if counted
      attestations of the chain name that many, some slot that holds the root is justified. */
  lemma SupermajorityJustifies(h: Hasher, genesisTime: nat, validators: nat, blocks: seq<Block>, st: State,
                               root: Root, voters: set<ValidatorId>)
    requires IsChain(h, genesisTime, validators, blocks, st) && 3 * |voters| >= 2 * validators
    requires forall id :: id in voters ==> VotedInChain(h, Genesis(h, genesisTime, validators), blocks, root, id)
    ensures exists slot :: 0 <= slot < |st.history| && st.history[slot] == root && Marked(st.window, st.finalized.slot, slot)
  {
    hide IsChain, VotedInChain, TallyOf, Reachable, Marked;
    if Open(st.history, st.window, st.finalized.slot, root) {
      forall id | id in voters ensures id in TallyOf(ProgressOf(st), root) {
        ChainTallyExact(h, genesisTime, validators, blocks, st, root, id);
      }
      ChainReachable(h, genesisTime, validators, blocks, st);
      CardinalityMonotone(voters, TallyOf(ProgressOf(st), root));
      TallyIsSmall(h, st, root);
      assert false;
    }
  }

  lemma TallyIsSmall(h: Hasher, st: State, root: Root)
    requires Reachable(h, st)
    ensures 3 * |TallyOf(ProgressOf(st), root)| < 2 * st.validators
  {
    if root in VotesOf(st) {
      CountIsCardinality(VotesOf(st)[root]);
      assert Sound(st);
      assert TallySound(st.history, st.validators, st.finalized.slot, root, VotesOf(st)[root]);
    }
  }
}
