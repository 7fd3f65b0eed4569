/** Where justification comes from: every justified block is backed by the votes of a
    supermajority, each of them cast in a block of the same chain. */
module Provenance {
  import opened Containers
  import opened Slots
  import opened Bits
  import opened Window
  import opened Tallies
  import opened Justification
  import opened Finality
  import opened Soundness
  import opened StateTransitions
  import opened Chain
  import opened Bodies

  /** Validator `id` took part in an attestation of the log whose target is `root`. */
  ghost predicate Voted(log: seq<AggregatedAttestation>, id: ValidatorId, root: Root) {
    exists i :: 0 <= i < |log| && log[i].data.target.root == root && id in Members(log[i].bits)
  }

  /** A set of distinct voters that is large enough to justify `root`. */
  ghost predicate IsQuorum(log: seq<AggregatedAttestation>, validators: nat, root: Root, voters: set<ValidatorId>) {
    && 3 * |voters| >= 2 * validators
    && forall id :: id in voters ==> id < validators && Voted(log, id, root)
  }

  ghost predicate Backed(log: seq<AggregatedAttestation>, validators: nat, root: Root) {
    exists voters :: IsQuorum(log, validators, root, voters)
  }

  /** Every vote bit of a pending tally was cast. */
  ghost predicate VotesCast(log: seq<AggregatedAttestation>, votes: Tallies) {
    forall root, id :: root in votes && id in Members(votes[root]) ==> Voted(log, id, root)
  }

  /** Every justified slot after finality, and both checkpoints, are backed. The genesis
      checkpoint is justified without votes. */
  ghost predicate MarksBacked(log: seq<AggregatedAttestation>, history: seq<Root>, validators: nat, p: Progress) {
    && (forall slot :: p.finalized.slot < slot < |history| && Marked(p.window, p.finalized.slot, slot)
                       ==> Backed(log, validators, history[slot]))
    && (p.justified.slot > 0 ==> Backed(log, validators, p.justified.root))
    && (p.finalized.slot > 0 ==> Backed(log, validators, p.finalized.root))
  }

  ghost predicate Traced(log: seq<AggregatedAttestation>, pre: State, p: Progress) {
    VotesCast(log, p.votes) && MarksBacked(log, pre.history, pre.validators, p)
  }

  lemma VotedGrows(log: seq<AggregatedAttestation>, more: seq<AggregatedAttestation>, id: ValidatorId, root: Root)
    requires Voted(log, id, root)
    ensures Voted(log + more, id, root)
  {
    var i :| 0 <= i < |log| && log[i].data.target.root == root && id in Members(log[i].bits);
    assert (log + more)[i] == log[i];
  }

  lemma BackedGrows(log: seq<AggregatedAttestation>, more: seq<AggregatedAttestation>, validators: nat, root: Root)
    requires Backed(log, validators, root)
    ensures Backed(log + more, validators, root)
  {
    var voters :| IsQuorum(log, validators, root, voters);
    forall id | id in voters ensures Voted(log + more, id, root) { VotedGrows(log, more, id, root); }
    assert IsQuorum(log + more, validators, root, voters);
  }

  lemma TracedGrows(log: seq<AggregatedAttestation>, more: seq<AggregatedAttestation>, pre: State, p: Progress)
    requires Traced(log, pre, p) && CheckpointsSound(pre.history, p)
    ensures Traced(log + more, pre, p)
  {
    forall root, id | root in p.votes && id in Members(p.votes[root]) ensures Voted(log + more, id, root) {
      VotedGrows(log, more, id, root);
    }
    forall root | Backed(log, pre.validators, root) ensures Backed(log + more, pre.validators, root) {
      BackedGrows(log, more, pre.validators, root);
    }
  }

  /** The row after an attestation only holds votes that were cast. */
  lemma RowAfterCast(log: seq<AggregatedAttestation>, pre: State, p: Progress, att: AggregatedAttestation, id: ValidatorId)
    requires TalliesSound(pre.history, pre.validators, p) && VotesCast(log, p.votes)
    requires RowAfter(pre, p, att).Ok? && id in Members(RowAfter(pre, p, att).value)
    ensures id < pre.validators && Voted(log + [att], id, att.data.target.root)
  {
    RowAfterSound(pre, p, att);
    var root := att.data.target.root;
    if id in Members(att.bits) {
      assert (log + [att])[|log|] == att;
    } else {
      VotedGrows(log, [att], id, root);
    }
  }

  /** The attestation that justifies a target completes a quorum for it; the target holds a
      block of the chain and is justifiable from the finality that the block started with. */
  lemma JustificationHasQuorum(log: seq<AggregatedAttestation>, pre: State, p: Progress, att: AggregatedAttestation)
    requires TalliesSound(pre.history, pre.validators, p) && VotesCast(log, p.votes) && Justifies(pre, p, att)
    ensures Backed(log + [att], pre.validators, att.data.target.root)
    ensures JustifiableAfter(att.data.target.slot, pre.finalized.slot)
    ensures att.data.target.slot < |pre.history| && pre.history[att.data.target.slot] == att.data.target.root
  {
    var voters := Members(RowAfter(pre, p, att).value);
    CountIsCardinality(RowAfter(pre, p, att).value);
    forall id | id in voters
      ensures id < pre.validators && Voted(log + [att], id, att.data.target.root)
    {
      RowAfterCast(log, pre, p, att, id);
    }
    assert IsQuorum(log + [att], pre.validators, att.data.target.root, voters);
  }

  lemma RecordedKeepsTrace(log: seq<AggregatedAttestation>, pre: State, p: Progress, att: AggregatedAttestation, q: Progress)
    requires ProgressSound(pre, p) && Traced(log, pre, p) && Recorded(pre, p, att, q)
    ensures Traced(log + [att], pre, q)
  {
    TracedGrows(log, [att], pre, p);
    var target := att.data.target.root;
    forall root, id | root in q.votes && id in Members(q.votes[root]) ensures Voted(log + [att], id, root) {
      if root == target { RowAfterCast(log, pre, p, att, id); } else { assert root in p.votes; }
    }
  }

  lemma MarkKeepsTrace(log: seq<AggregatedAttestation>, pre: State, p: Progress, att: AggregatedAttestation)
    requires ProgressSound(pre, p) && Traced(log, pre, p) && Justifies(pre, p, att)
    ensures Traced(log + [att], pre, AfterMark(p, att.data.target))
  {
    var target, f := att.data.target, p.finalized.slot;
    var m := AfterMark(p, target);
    TracedGrows(log, [att], pre, p);
    JustificationHasQuorum(log, pre, p, att);
    forall slot | f < slot < |pre.history| && Marked(m.window, f, slot)
      ensures Backed(log + [att], pre.validators, pre.history[slot])
    {
      MarkRefinesSet(p.window, f, target.slot, slot);
    }
  }

  lemma FinalizeKeepsTrace(log: seq<AggregatedAttestation>, pre: State, index: map<Root, Slot>, m: Progress, source: Checkpoint)
    requires Traced(log, pre, m) && Finalize(index, m, source).Ok?
    requires m.finalized.slot <= source.slot < |pre.history| && pre.history[source.slot] == source.root
    requires Marked(m.window, m.finalized.slot, source.slot)
    requires source.slot == m.finalized.slot ==> source.root == m.finalized.root
    ensures Traced(log, pre, Finalize(index, m, source).value)
  {
    var f, delta := m.finalized.slot, source.slot - m.finalized.slot;
    if delta > 0 {
      var q := Finalize(index, m, source).value;
      assert Backed(log, pre.validators, source.root);
      forall slot | source.slot < slot < |pre.history| && Marked(q.window, source.slot, slot)
        ensures Backed(log, pre.validators, pre.history[slot])
      {
        ShiftRefinesSet(m.window, f, delta, slot);
      }
      forall root, id | root in q.votes && id in Members(q.votes[root]) ensures Voted(log, id, root) {
        assert root in m.votes && id in Members(m.votes[root]);
      }
    }
  }

  lemma StepKeepsTrace(log: seq<AggregatedAttestation>, pre: State, index: map<Root, Slot>, p: Progress, att: AggregatedAttestation)
    requires ProgressSound(pre, p) && Traced(log, pre, p) && Step(pre, index, p, att).Ok?
    ensures Traced(log + [att], pre, Step(pre, index, p, att).value)
  {
    var q := Step(pre, index, p, att).value;
    StepCases(pre, index, p, att);
    if Skipped(pre, p, att, q) {
      TracedGrows(log, [att], pre, p);
    } else if Recorded(pre, p, att, q) {
      RecordedKeepsTrace(log, pre, p, att, q);
    } else {
      JustifyCases(pre, index, p, att);
      MarkKeepsTrace(log, pre, p, att);
      var m := AfterMark(p, att.data.target);
      if q != m {
        MarkRefinesSet(p.window, p.finalized.slot, att.data.target.slot, att.data.source.slot);
        FinalizeKeepsTrace(log + [att], pre, index, m, att.data.source);
      }
    }
  }

  lemma {:induction false} RunKeepsTrace(log: seq<AggregatedAttestation>, pre: State, index: map<Root, Slot>, p: Progress,
                                         atts: seq<AggregatedAttestation>)
    requires ProgressSound(pre, p) && IndexSound(pre.history, pre.finalized.slot, index)
    requires Traced(log, pre, p) && Run(pre, index, p, atts).Ok?
    ensures Traced(log + atts, pre, Run(pre, index, p, atts).value)
    decreases |atts|
  {
    if atts == [] {
      assert log + atts == log;
    } else {
      var init, last := atts[..|atts| - 1], atts[|atts| - 1];
      RunKeepsTrace(log, pre, index, p, init);
      RunKeepsSound(pre, index, p, init);
      StepKeepsTrace(log + init, pre, index, Run(pre, index, p, init).value, last);
      assert (log + init) + [last] == log + atts;
    }
  }

  /** All the attestations of a chain, in order. */
  ghost function Log(blocks: seq<Block>): seq<AggregatedAttestation> {
    if blocks == [] then [] else Log(blocks[..|blocks| - 1]) + blocks[|blocks| - 1].body
  }

  /** The header step neither adds nor loses justification. */
  lemma HeaderKeepsTrace(h: Hasher, log: seq<AggregatedAttestation>, st: State, b: Block)
    requires Reachable(h, st) && BlockPre(h, st, b).Ok? && Traced(log, st, ProgressOf(st))
    ensures Traced(log, BlockPre(h, st, b).value, ProgressOf(BlockPre(h, st, b).value))
  {
    HeaderKeepsSound(h, st, b);
    var pre, f := BlockPre(h, st, b).value, st.finalized.slot;
    forall slot | f < slot < |pre.history| && Marked(pre.window, f, slot)
      ensures Backed(log, pre.validators, pre.history[slot])
    {
      assert Marked(st.window, f, slot);
      assert slot < |st.history| && pre.history[slot] == st.history[slot];
    }
  }

  /** Along every chain, every justified slot is backed by votes of that chain. */
  lemma {:induction false} ChainTraced(h: Hasher, genesisTime: nat, validators: nat, blocks: seq<Block>, st: State)
    requires IsChain(h, genesisTime, validators, blocks, st)
    ensures Traced(Log(blocks), st, ProgressOf(st))
    decreases |blocks|
  {
    hide Sound, Reachable, AfterAttestations;
    if blocks != [] {
      var init, b := blocks[..|blocks| - 1], blocks[|blocks| - 1];
      var before := ChainSplit(h, genesisTime, validators, blocks, st);
      ChainTraced(h, genesisTime, validators, init, before);
      ChainReachable(h, genesisTime, validators, init, before);
      HeaderKeepsSound(h, before, b);
      HeaderKeepsTrace(h, Log(init), before, b);
      BodyKeepsTrace(Log(init), BlockPre(h, before, b).value, b.body);
    }
  }

  lemma BodyKeepsTrace(log: seq<AggregatedAttestation>, pre: State, atts: seq<AggregatedAttestation>)
    requires Sound(pre) && Traced(log, pre, ProgressOf(pre)) && AfterAttestations(pre, atts).Ok?
    ensures var post := AfterAttestations(pre, atts).value; Traced(log + atts, post, ProgressOf(post))
  {
    SoundMeansProgressSound(pre);
    IndexForSound(pre);
    var start := Start(pre, VotesOf(pre));
    RunKeepsTrace(log, pre, IndexFor(pre), start, atts);
    RunKeepsSound(pre, IndexFor(pre), start, atts);
    WriteBackReadsBack(pre, Run(pre, IndexFor(pre), start, atts).value);
  }

  lemma JustificationInBody(log: seq<AggregatedAttestation>, pre: State, atts: seq<AggregatedAttestation>, k: nat)
    requires Sound(pre) && Traced(log, pre, ProgressOf(pre)) && JustifiesAt(pre, atts, k)
    ensures var target := atts[k].data.target;
            && JustifiableAfter(target.slot, pre.finalized.slot)
            && target.slot < |pre.history| && pre.history[target.slot] == target.root
            && Backed(log + atts[..k + 1], pre.validators, target.root)
  {
    hide Sound, ProgressSound, Traced, Justifies, Run, VotesOf, IndexFor, IndexSound, Backed, JustifiableAfter;
    SoundMeansProgressSound(pre);
    IndexForSound(pre);
    var start := Start(pre, VotesOf(pre));
    RunKeepsTrace(log, pre, IndexFor(pre), start, atts[..k]);
    RunKeepsSound(pre, IndexFor(pre), start, atts[..k]);
    JustificationHasQuorum(log + atts[..k], pre, Run(pre, IndexFor(pre), start, atts[..k]).value, atts[k]);
    assert log + atts[..k] + [atts[k]] == log + atts[..k + 1];
  }

  /** Every justification that ever happens in a chain: the target is a block of the chain,
      it is justifiable from the finality its block started with, and two thirds of the
      validators voted for it in this chain. */
  lemma EveryJustificationHasQuorum(h: Hasher, genesisTime: nat, validators: nat, blocks: seq<Block>, st: State,
                                    b: Block, pre: State, k: nat)
    requires IsChain(h, genesisTime, validators, blocks, st) && BlockPre(h, st, b) == Ok(pre)
    requires JustifiesAt(pre, b.body, k)
    ensures var target := b.body[k].data.target;
            && JustifiableAfter(target.slot, pre.finalized.slot)
            && target.slot < |pre.history| && pre.history[target.slot] == target.root
            && Backed(Log(blocks) + b.body[..k + 1], validators, target.root)
  {
    hide IsChain, Sound, Reachable, JustifiesAt, Traced, Backed, BlockPre, JustifiableAfter;
    ChainReachable(h, genesisTime, validators, blocks, st);
    ChainTraced(h, genesisTime, validators, blocks, st);
    HeaderKeepsSound(h, st, b);
    HeaderKeepsTrace(h, Log(blocks), st, b);
    JustificationInBody(Log(blocks), pre, b.body, k);
  }

  /** Any two quorums, on the same chain or on different ones, share a third of the validators. */
  lemma QuorumsIntersect(logA: seq<AggregatedAttestation>, rootA: Root, a: set<ValidatorId>,
                         logB: seq<AggregatedAttestation>, rootB: Root, b: set<ValidatorId>, validators: nat)
    requires IsQuorum(logA, validators, rootA, a) && IsQuorum(logB, validators, rootB, b)
    ensures 3 * |a * b| >= validators
    ensures forall id :: id in a * b ==> id < validators && Voted(logA, id, rootA) && Voted(logB, id, rootB)
  {
    BoundedSetSize(a + b, validators);
    assert |a + b| == |a| + |b| - |a * b|;
  }

  /** The justified checkpoint of a chain past genesis has a quorum of votes in that chain. */
  lemma JustifiedHasQuorum(h: Hasher, genesisTime: nat, validators: nat, blocks: seq<Block>, st: State)
    returns (voters: set<ValidatorId>)
    requires IsChain(h, genesisTime, validators, blocks, st) && st.justified.slot > 0
    ensures IsQuorum(Log(blocks), validators, st.justified.root, voters)
  {
    hide IsChain, IsQuorum, Reachable, Sound;
    ChainTraced(h, genesisTime, validators, blocks, st);
    ChainReachable(h, genesisTime, validators, blocks, st);
    voters :| IsQuorum(Log(blocks), validators, st.justified.root, voters);
  }

  /** Any two targets that are ever justified, on two chains over the same validators, whether
      forks or not, and even if a later supermajority of the same block overtakes them: at
      least a third of the validators voted for both. */
  lemma JustifiedBlocksShareVoters(h: Hasher, genesisTime: nat, validators: nat,
                                   blocksA: seq<Block>, a: State, blockA: Block, preA: State, i: nat,
                                   blocksB: seq<Block>, b: State, blockB: Block, preB: State, j: nat)
    returns (both: set<ValidatorId>)
    requires IsChain(h, genesisTime, validators, blocksA, a) && BlockPre(h, a, blockA) == Ok(preA) && JustifiesAt(preA, blockA.body, i)
    requires IsChain(h, genesisTime, validators, blocksB, b) && BlockPre(h, b, blockB) == Ok(preB) && JustifiesAt(preB, blockB.body, j)
    ensures 3 * |both| >= validators && i < |blockA.body| && j < |blockB.body|
    ensures forall id :: id in both ==>
              && id < validators
              && Voted(Log(blocksA) + blockA.body[..i + 1], id, blockA.body[i].data.target.root)
              && Voted(Log(blocksB) + blockB.body[..j + 1], id, blockB.body[j].data.target.root)
  {
    hide IsChain, IsQuorum, Voted, BlockPre, JustifiesAt, JustifiableAfter;
    JustifiesAtBound(preA, blockA.body, i);
    JustifiesAtBound(preB, blockB.body, j);
    EveryJustificationHasQuorum(h, genesisTime, validators, blocksA, a, blockA, preA, i);
    EveryJustificationHasQuorum(h, genesisTime, validators, blocksB, b, blockB, preB, j);
    var logA, rootA := Log(blocksA) + blockA.body[..i + 1], blockA.body[i].data.target.root;
    var logB, rootB := Log(blocksB) + blockB.body[..j + 1], blockB.body[j].data.target.root;
    var va :| IsQuorum(logA, validators, rootA, va);
    var vb :| IsQuorum(logB, validators, rootB, vb);
    QuorumsIntersect(logA, rootA, va, logB, rootB, vb, validators);
    both := va * vb;
  }

  /** In particular the justified checkpoints that two chains end with. */
  lemma CheckpointsShareVoters(h: Hasher, genesisTime: nat, validators: nat,
                               blocksA: seq<Block>, a: State, blocksB: seq<Block>, b: State)
    returns (both: set<ValidatorId>)
    requires IsChain(h, genesisTime, validators, blocksA, a) && a.justified.slot > 0
    requires IsChain(h, genesisTime, validators, blocksB, b) && b.justified.slot > 0
    ensures 3 * |both| >= validators
    ensures forall id :: id in both ==>
              id < validators && Voted(Log(blocksA), id, a.justified.root) && Voted(Log(blocksB), id, b.justified.root)
  {
    hide IsChain, IsQuorum, Voted;
    var va := JustifiedHasQuorum(h, genesisTime, validators, blocksA, a);
    var vb := JustifiedHasQuorum(h, genesisTime, validators, blocksB, b);
    QuorumsIntersect(Log(blocksA), a.justified.root, va, Log(blocksB), b.justified.root, vb, validators);
    both := va * vb;
  }
}
