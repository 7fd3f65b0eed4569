/** Block production: collecting votes up to a fixed point, and building a block that the state
    transition accepts. */
module Builder {
  import opened Containers
  import opened Bits
  import opened Window
  import opened Aggregation
  import opened Justification
  import opened StateTransitions
  import opened Chain
  import opened Bodies
  import opened Covering

  /** The state root of a block plays no part in processing it. */
  lemma StateRootIsIgnored(h: Hasher, st: State, b: Block, stateRoot: Root)
    ensures AfterBlock(h, st, b.(stateRoot := stateRoot)) == AfterBlock(h, st, b)
  {
    assert AfterHeader(h, st, b.(stateRoot := stateRoot)) == AfterHeader(h, st, b);
  }

  /** Slots and block processing without the final state root check. */
  ghost function Applied(h: Hasher, st: State, b: Block): Outcome<State> {
    var ready :- AfterSlots(h, st, b.slot);
    AfterBlock(h, ready, b)
  }

  method Apply(h: Hasher, st: State, b: Block) returns (out: Outcome<State>)
    ensures out == Applied(h, st, b)
  {
    var ready := ProcessSlots(h, st, b.slot);
    if ready.IsFailure() { return ready; }
    out := ProcessBlock(h, ready.value, b);
  }

  /** A block stamped with the state it leads to passes the state transition. */
  lemma StampedBlockIsValid(h: Hasher, st: State, b: Block, post: State)
    requires Applied(h, st, b) == Ok(post)
    ensures Transition(h, st, b.(stateRoot := h.state(post))) == Ok(post)
  {
    hide AfterBlock;
    StateRootIsIgnored(h, Filled(h, st).(slot := b.slot), b, h.state(post));
  }

  /** What a block is asked to be built from, besides the state and the initial votes. An
      absent pool of votes or proofs is an empty one. */
  datatype Inputs = Inputs(
    slot: Slot, proposer: ValidatorId, parent: Root, available: seq<Attestation>, knownRoots: set<Root>,
    gossip: GossipSignatures, payloads: Payloads)

  /** Which votes the collection loop takes in, given the justified checkpoint reached so far. */
  predicate Eligible(h: Hasher, ins: Inputs, a: Attestation, justified: Checkpoint) {
    var key := SignatureKey(a.validatorId, h.data(a.data));
    a.data.head.root in ins.knownRoots && a.data.source == justified && (key in ins.gossip || key in ins.payloads)
  }

  /** The available, eligible votes that are not taken yet, in order. */
  function NewVotes(h: Hasher, ins: Inputs, pool: seq<Attestation>, taken: seq<Attestation>, justified: Checkpoint): seq<Attestation> {
    if pool == [] then []
    else
      var a := pool[|pool| - 1];
      NewVotes(h, ins, pool[..|pool| - 1], taken, justified) +
        if a !in taken && Eligible(h, ins, a, justified) then [a] else []
  }

  lemma {:induction false} NewVotesExact(h: Hasher, ins: Inputs, pool: seq<Attestation>, taken: seq<Attestation>, justified: Checkpoint)
    ensures forall a :: a in NewVotes(h, ins, pool, taken, justified) <==> a in pool && a !in taken && Eligible(h, ins, a, justified)
    decreases |pool|
  {
    hide Eligible;
    if pool != [] {
      NewVotesExact(h, ins, pool[..|pool| - 1], taken, justified);
      assert pool == pool[..|pool| - 1] + [pool[|pool| - 1]];
    }
  }

  method FindNew(h: Hasher, ins: Inputs, taken: seq<Attestation>, justified: Checkpoint) returns (found: seq<Attestation>)
    ensures found == NewVotes(h, ins, ins.available, taken, justified)
    ensures forall a :: a in found <==>
              && a in ins.available && a !in taken && a.data.head.root in ins.knownRoots && a.data.source == justified
              && (SignatureKey(a.validatorId, h.data(a.data)) in ins.gossip || SignatureKey(a.validatorId, h.data(a.data)) in ins.payloads)
  {
    found := [];
    for i := 0 to |ins.available|
      invariant found == NewVotes(h, ins, ins.available[..i], taken, justified)
    {
      var a := ins.available[i];
      assert ins.available[..i + 1][..i] == ins.available[..i];
      if a.data.head.root !in ins.knownRoots { continue; }
      if a.data.source != justified { continue; }
      if a in taken { continue; }
      var key := SignatureKey(a.validatorId, h.data(a.data));
      if key in ins.gossip || key in ins.payloads { found := found + [a]; }
    }
    assert ins.available[..|ins.available|] == ins.available;
    NewVotesExact(h, ins, ins.available, taken, justified);
  }

  ghost function Untaken(available: seq<Attestation>, taken: seq<Attestation>): set<Attestation> {
    set a | a in available && a !in taken
  }

  lemma TakingShrinks(available: seq<Attestation>, taken: seq<Attestation>, found: seq<Attestation>)
    requires found != [] && forall a :: a in found ==> a in available && a !in taken
    ensures |Untaken(available, taken + found)| < |Untaken(available, taken)|
  {
    var a := found[0];
    assert a in found && a in Untaken(available, taken) && a !in Untaken(available, taken + found);
    CardinalityMonotone(Untaken(available, taken + found), Untaken(available, taken) - {a});
  }

  /** The block that carries the packed votes, not stamped yet. */
  function Candidate(ins: Inputs, body: seq<AggregatedAttestation>): Block {
    Block(ins.slot, ins.proposer, ins.parent, ZERO_ROOT, body)
  }

  /** The fixed-point loop of `build_block` as a function: pack and apply what is taken so far,
      take in what that makes eligible, and stop when there is nothing new. */
  ghost function Collection(h: Hasher, st: State, ins: Inputs, taken: seq<Attestation>): Outcome<seq<Attestation>>
    decreases |Untaken(ins.available, taken)|
  {
    var packed :- AggregateByData(taken);
    var post :- Applied(h, st, Candidate(ins, packed));
    var found := NewVotes(h, ins, ins.available, taken, post.justified);
    if found == [] then Ok(taken)
    else
      NewVotesExact(h, ins, ins.available, taken, post.justified);
      TakingShrinks(ins.available, taken, found);
      Collection(h, st, ins, taken + found)
  }

  /** What the collection loop settles on: nothing that is available and eligible for the
      state it reaches is left out, and nothing else was taken in. */
  ghost predicate Settled(h: Hasher, st: State, ins: Inputs, initial: seq<Attestation>, taken: seq<Attestation>) {
    && initial <= taken && (forall a :: a in taken ==> a in initial || a in ins.available)
    && var packed := AggregateByData(taken);
       packed.Ok? &&
       var post := Applied(h, st, Candidate(ins, packed.value));
       post.Ok? && forall a :: a in ins.available && Eligible(h, ins, a, post.value.justified) ==> a in taken
  }

  lemma {:induction false} CollectionSettles(h: Hasher, st: State, ins: Inputs, initial: seq<Attestation>)
    requires Collection(h, st, ins, initial).Ok?
    ensures Settled(h, st, ins, initial, Collection(h, st, ins, initial).value)
    decreases |Untaken(ins.available, initial)|
  {
    hide Applied, AggregateByData, Eligible;
    var post := Applied(h, st, Candidate(ins, AggregateByData(initial).value)).value;
    var found := NewVotes(h, ins, ins.available, initial, post.justified);
    NewVotesExact(h, ins, ins.available, initial, post.justified);
    if found != [] {
      TakingShrinks(ins.available, initial, found);
      CollectionSettles(h, st, ins, initial + found);
    } else {
      assert forall a :: a !in found;
    }
  }

  /** The votes collected by a number of rounds, and the state that they led to. */
  ghost predicate LedTo(h: Hasher, st: State, ins: Inputs, taken: seq<Attestation>, n: nat, post: State) {
    && n <= |taken| && AggregateByData(taken[..n]).Ok?
    && Applied(h, st, Candidate(ins, AggregateByData(taken[..n]).value)) == Ok(post)
  }

  /** Which votes are collected, spelled out: one that is available, about a known head, with a
      signature or a list of proofs, is taken if its source is the justified checkpoint that the
      collected votes lead to; and every vote that is taken beyond the initial ones is like
      that, with the justified checkpoint of an earlier round as its source. */
  lemma {:induction false} CollectedExactly(h: Hasher, st: State, ins: Inputs, initial: seq<Attestation>, a: Attestation)
    requires Collection(h, st, ins, initial).Ok?
    ensures var taken, key := Collection(h, st, ins, initial).value, SignatureKey(a.validatorId, h.data(a.data));
            && initial <= taken
            && (exists post :: LedTo(h, st, ins, taken, |taken|, post))
            && (a in ins.available && a.data.head.root in ins.knownRoots && (key in ins.gossip || key in ins.payloads) ==>
                  forall post :: LedTo(h, st, ins, taken, |taken|, post) && a.data.source == post.justified ==> a in taken)
            && (a in taken && a !in initial ==>
                  && a in ins.available && a.data.head.root in ins.knownRoots && (key in ins.gossip || key in ins.payloads)
                  && exists n: nat, post :: |initial| <= n && LedTo(h, st, ins, taken, n, post) && a.data.source == post.justified)
    decreases |Untaken(ins.available, initial)|
  {
    hide Applied, AggregateByData;
    var post := Applied(h, st, Candidate(ins, AggregateByData(initial).value)).value;
    var found := NewVotes(h, ins, ins.available, initial, post.justified);
    var taken := Collection(h, st, ins, initial).value;
    NewVotesExact(h, ins, ins.available, initial, post.justified);
    if found != [] {
      TakingShrinks(ins.available, initial, found);
      CollectedExactly(h, st, ins, initial + found, a);
      assert taken[..|initial|] == initial;
      assert LedTo(h, st, ins, taken, |initial|, post);
    } else {
      assert taken[..|taken|] == initial;
      assert LedTo(h, st, ins, taken, |taken|, post);
      assert forall x :: x !in found;
    }
  }

  /** The fixed-point loop of `build_block`. It ends because every round takes in at least one
      available vote that was not taken before. */
  method CollectVotes(h: Hasher, st: State, ins: Inputs, initial: seq<Attestation>) returns (out: Outcome<seq<Attestation>>)
    ensures out == Collection(h, st, ins, initial)
    ensures out.Ok? ==> Settled(h, st, ins, initial, out.value)
  {
    hide Applied, AggregateByData, Eligible, Settled;
    var taken := initial;
    while true
      invariant Collection(h, st, ins, initial) == Collection(h, st, ins, taken)
      decreases |Untaken(ins.available, taken)|
    {
      var packed := Aggregate(taken);
      if packed.IsFailure() { return packed.PropagateFailure(); }
      var post := Apply(h, st, Candidate(ins, packed.value));
      if post.IsFailure() { return post.PropagateFailure(); }
      var found := FindNew(h, ins, taken, post.value.justified);
      if found == [] {
        CollectionSettles(h, st, ins, initial);
        return Ok(taken);
      }
      TakingShrinks(ins.available, taken, found);
      taken := taken + found;
    }
  }

  // When a block comes out.

  ghost predicate AllVotesProvable(h: Hasher, ins: Inputs, taken: seq<Attestation>) {
    forall a :: a in taken ==> Provable(h, ins.gossip, ins.payloads, a)
  }

  /** The signatures of every data group can be aggregated. */
  ghost predicate VotesSealable(h: Hasher, st: State, ins: Inputs, taken: seq<Attestation>, prover: Prover) {
    AggregateByData(taken).Ok? && AllSealable(h, st.validators, AggregateByData(taken).value, ins.gossip, prover)
  }

  /** Some data group does not fit into one vote. */
  ghost predicate VotesSplit(h: Hasher, ins: Inputs, taken: seq<Attestation>) {
    AggregateByData(taken).Ok? && SomeSplits(h, ins.gossip, ins.payloads, AggregateByData(taken).value)
  }

  /** Every data group is such that one entry will do. */
  ghost predicate VotesFit(h: Hasher, ins: Inputs, taken: seq<Attestation>) {
    AggregateByData(taken).Ok? && AllFit(h, ins.gossip, ins.payloads, AggregateByData(taken).value)
  }

  /** Some voter of the group has a gossip signature, or its proofs are exact. */
  ghost predicate GroupDecided(h: Hasher, ins: Inputs, group: AggregatedAttestation) {
    var root, voters := h.data(group.data), Members(group.bits);
    (exists id :: id in voters && SignatureKey(id, root) in ins.gossip) || ExactProofs(ins.payloads, root, voters)
  }

  ghost predicate Decided(h: Hasher, ins: Inputs, taken: seq<Attestation>) {
    && AggregateByData(taken).Ok?
    && forall i :: 0 <= i < |AggregateByData(taken).value| ==> GroupDecided(h, ins, AggregateByData(taken).value[i])
  }

  /** The order in which proofs are picked cannot matter to any group. */
  ghost predicate Determined(h: Hasher, ins: Inputs, taken: seq<Attestation>) {
    && AggregateByData(taken).Ok?
    && forall i :: 0 <= i < |AggregateByData(taken).value| ==> GroupDetermined(h, ins, AggregateByData(taken).value[i])
  }

  ghost predicate GroupDetermined(h: Hasher, ins: Inputs, group: AggregatedAttestation) {
    var root, voters := h.data(group.data), Members(group.bits);
    Single(ins.gossip, ins.payloads, root, voters) || Splits(ins.gossip, ins.payloads, root, voters)
  }

  lemma UnsplitIsSingle(h: Hasher, ins: Inputs, taken: seq<Attestation>)
    requires Determined(h, ins, taken) && !VotesSplit(h, ins, taken)
    ensures AllSingle(h, ins.gossip, ins.payloads, AggregateByData(taken).value)
  {
    hide Members, Single, Splits, AggregateByData;
    var groups := AggregateByData(taken).value;
    forall i | 0 <= i < |groups| ensures Single(ins.gossip, ins.payloads, h.data(groups[i].data), Members(groups[i].bits)) {
      assert GroupDetermined(h, ins, groups[i]);
    }
  }

  /** Two voters for the same data, one with a gossip signature and one without, split it if all
      voters are provable. */
  lemma MixedVotesSplit(h: Hasher, ins: Inputs, taken: seq<Attestation>, a: Attestation, b: Attestation)
    requires AggregateByData(taken).Ok? && AllVotesProvable(h, ins, taken) && a in taken && b in taken && a.data == b.data
    requires HasSigned(h, ins.gossip, a) && !HasSigned(h, ins.gossip, b)
    ensures VotesSplit(h, ins, taken)
  {
    hide Members, Whole, SelfProved, Useful, AggregateByData, AllVotesProvable;
    var groups := AggregateByData(taken).value;
    var i := GroupOf(taken, a);
    VoterHasAttestation(taken, i, b.validatorId);
    assert Attestation(b.validatorId, a.data) == b;
    var root, voters := h.data(groups[i].data), Members(groups[i].bits);
    UnsignedAreUseful(h, ins, taken, i);
    assert b.validatorId in Unsigned(ins.gossip, root, voters) && a.validatorId !in Unsigned(ins.gossip, root, voters);
    assert Splits(ins.gossip, ins.payloads, root, voters);
  }

  lemma UnsignedAreUseful(h: Hasher, ins: Inputs, taken: seq<Attestation>, i: nat)
    requires AggregateByData(taken).Ok? && AllVotesProvable(h, ins, taken) && i < |AggregateByData(taken).value|
    ensures var group := AggregateByData(taken).value[i];
            AllUseful(ins.payloads, h.data(group.data), Unsigned(ins.gossip, h.data(group.data), Members(group.bits)))
  {
    hide Members, SelfProved, Useful, AggregateByData;
    var group := AggregateByData(taken).value[i];
    var root := h.data(group.data);
    var rest := Unsigned(ins.gossip, root, Members(group.bits));
    forall id | id in rest ensures Useful(ins.payloads, id, root, rest) {
      VoterHasAttestation(taken, i, id);
      assert Provable(h, ins.gossip, ins.payloads, Attestation(id, group.data));
      SelfProvedIsUseful(ins.payloads, id, root, rest);
    }
  }

  /** If every group is decided and none splits, then all of them fit. */
  lemma UnsplitFits(h: Hasher, ins: Inputs, taken: seq<Attestation>)
    requires AllVotesProvable(h, ins, taken) && Decided(h, ins, taken) && !VotesSplit(h, ins, taken)
    ensures VotesFit(h, ins, taken)
  {
    hide Members, Canonical, ExactProofs, Whole, AggregateByData, AllUseful, AllVotesProvable;
    var groups := AggregateByData(taken).value;
    AggregatesAreCanonical(taken);
    forall i | 0 <= i < |groups| ensures GroupFits(h, ins.gossip, ins.payloads, groups[i]) {
      assert GroupDecided(h, ins, groups[i]);
      assert !Splits(ins.gossip, ins.payloads, h.data(groups[i].data), Members(groups[i].bits));
      UnsignedAreUseful(h, ins, taken, i);
      SignedIfNoneUnsigned(ins.gossip, h.data(groups[i].data), Members(groups[i].bits));
    }
  }

  lemma SignedIfNoneUnsigned(gossip: GossipSignatures, dataRoot: Root, voters: set<ValidatorId>)
    ensures Unsigned(gossip, dataRoot, voters) == {} ==> Signed(gossip, dataRoot, voters)
    ensures Unsigned(gossip, dataRoot, voters) == voters <==> forall id :: id in voters ==> SignatureKey(id, dataRoot) !in gossip
  {
    if Unsigned(gossip, dataRoot, voters) == {} {
      forall id | id in voters ensures SignatureKey(id, dataRoot) in gossip {
        assert id !in Unsigned(gossip, dataRoot, voters);
      }
    }
    if Unsigned(gossip, dataRoot, voters) == voters {
      forall id | id in voters ensures SignatureKey(id, dataRoot) !in gossip {
        assert id in Unsigned(gossip, dataRoot, voters);
      }
    }
  }

  /** What a caller can check beforehand: it is the proposer's turn to extend this state, every
      vote is by a registered validator for a target before the block, the initial votes
      have sources neither far behind finality nor ahead, and no two different votes in the
      pool have the same root. */
  ghost predicate Collectable(h: Hasher, st: State, ins: Inputs, taken: seq<Attestation>) {
    && Reachable(h, st) && 0 < st.validators <= VALIDATOR_LIMIT && st.slot < ins.slot
    && ins.proposer == ins.slot % st.validators && ins.parent == h.header(Filled(h, st).header)
    && (forall a :: a in taken || a in ins.available ==> a.validatorId < st.validators && a.data.target.slot < ins.slot)
    && (forall a :: a in taken ==> st.finalized.slot <= a.data.source.slot + 1 && a.data.source.slot < ins.slot)
    && (forall a, b :: (a in taken || a in ins.available) && (b in taken || b in ins.available) ==>
          (h.data(a.data) == h.data(b.data) ==> a.data == b.data))
  }

  /** Besides, everyone has signed, and signatures can be aggregated. */
  ghost predicate Buildable(h: Hasher, st: State, ins: Inputs, initial: seq<Attestation>, prover: Prover) {
    && Collectable(h, st, ins, initial)
    && (forall a :: a in initial || a in ins.available ==> HasSigned(h, ins.gossip, a))
    && forall bits, sigs, root :: prover(bits, sigs, root).Ok?
  }

  /** Each packed vote speaks for attestations of the list. */
  lemma PackedSpeaksFor(taken: seq<Attestation>, i: nat) returns (a: Attestation)
    requires AggregateByData(taken).Ok? && i < |AggregateByData(taken).value|
    ensures a in taken && a.data == AggregateByData(taken).value[i].data
    ensures Members(AggregateByData(taken).value[i].bits) != {}
  {
    hide Members;
    GroupsNonEmpty(taken);
    var id :| id in Members(AggregateByData(taken).value[i].bits);
    VoterHasAttestation(taken, i, id);
    a := Attestation(id, AggregateByData(taken).value[i].data);
  }

  /** A body without repeated data in which every vote is for data of the list and by registered
      validators. */
  ghost predicate Speaks(st: State, taken: seq<Attestation>, body: seq<AggregatedAttestation>) {
    && DistinctData(body)
    && forall i :: 0 <= i < |body| ==>
         && VotedFor(taken, body[i].data) && Members(body[i].bits) != {}
         && forall v :: v in Members(body[i].bits) ==> v < st.validators
  }

  lemma PackedSpeaks(h: Hasher, st: State, ins: Inputs, taken: seq<Attestation>)
    requires Collectable(h, st, ins, taken)
    ensures AggregateByData(taken).Ok? && Speaks(st, taken, AggregateByData(taken).value)
  {
    hide AggregateByData, Reachable, Members, Covers;
    AggregationPreservesVotes(taken);
    var packed := AggregateByData(taken).value;
    forall i | 0 <= i < |packed|
      ensures VotedFor(taken, packed[i].data) && Members(packed[i].bits) != {}
      ensures forall v :: v in Members(packed[i].bits) ==> v < st.validators
    {
      var a := PackedSpeaksFor(taken, i);
      forall v | v in Members(packed[i].bits) ensures v < st.validators {
        VoterHasAttestation(taken, i, v);
        assert Attestation(v, packed[i].data) in taken;
      }
    }
  }

  lemma SpeakingHasNoDuplicates(h: Hasher, st: State, ins: Inputs, taken: seq<Attestation>, body: seq<AggregatedAttestation>)
    requires Collectable(h, st, ins, taken) && Speaks(st, taken, body)
    ensures !HasDuplicateData(h, body)
  {
    hide Reachable, Members;
    forall i, j | 0 <= i < j < |body| ensures h.data(body[i].data) != h.data(body[j].data) {
      assert VotedFor(taken, body[i].data) && VotedFor(taken, body[j].data);
      var a :| a in taken && a.data == body[i].data;
      var b :| b in taken && b.data == body[j].data;
    }
  }

  lemma SpeakingIsAnswerable(h: Hasher, st: State, ins: Inputs, taken: seq<Attestation>, body: seq<AggregatedAttestation>, pre: State, i: nat)
    requires Collectable(h, st, ins, taken) && Speaks(st, taken, body) && i < |body|
    requires |pre.history| == ins.slot && pre.validators == st.validators && pre.finalized.slot == st.finalized.slot
    ensures Harmless(pre, body[i]) && Answerable(pre, body[i])
  {
    hide Reachable, Members;
    assert VotedFor(taken, body[i].data);
    var a :| a in taken && a.data == body[i].data;
  }

  lemma CandidateHeader(h: Hasher, st: State, ins: Inputs, taken: seq<Attestation>, body: seq<AggregatedAttestation>)
    requires Collectable(h, st, ins, taken)
    ensures BlockPre(h, st, Candidate(ins, body)).Ok?
    ensures var pre := BlockPre(h, st, Candidate(ins, body)).value;
            && Sound(pre) && pre.validators == st.validators && pre.finalized.slot == st.finalized.slot
            && pre.header.slot == |pre.history| == ins.slot
    ensures !HasDuplicateData(h, body) ==>
              Applied(h, st, Candidate(ins, body)) == AfterAttestations(BlockPre(h, st, Candidate(ins, body)).value, body)
  {
    hide Reachable, AfterAttestations, HasDuplicateData, ExtendToSlot;
    ReachableHeader(h, st);
    HeaderKeepsSound(h, st, Candidate(ins, body));
    SoundIsWellKept(BlockPre(h, st, Candidate(ins, body)).value);
  }

  /** Every block whose body speaks for the list is accepted, and leaves a justified checkpoint
      that the next votes may have as their source. */
  lemma SpeakingApplies(h: Hasher, st: State, ins: Inputs, taken: seq<Attestation>, body: seq<AggregatedAttestation>)
    requires Collectable(h, st, ins, taken) && Speaks(st, taken, body)
    ensures Applied(h, st, Candidate(ins, body)).Ok?
    ensures st.finalized.slot <= Applied(h, st, Candidate(ins, body)).value.justified.slot < ins.slot
  {
    hide Reachable, Sound, BlockPre, Applied, HasDuplicateData, AfterAttestations, Harmless, Answerable, Speaks, Collectable;
    CandidateHeader(h, st, ins, taken, body);
    var pre := BlockPre(h, st, Candidate(ins, body)).value;
    SpeakingHasNoDuplicates(h, st, ins, taken, body);
    forall i | 0 <= i < |body| ensures Harmless(pre, body[i]) && Answerable(pre, body[i]) {
      SpeakingIsAnswerable(h, st, ins, taken, body, pre, i);
    }
    AnswerableNeverFails(pre, body);
    AttestationsKeepSound(pre, body);
    SoundIsWellKept(AfterAttestations(pre, body).value);
  }

  /** In particular the candidate block of every round. */
  lemma CandidateApplies(h: Hasher, st: State, ins: Inputs, taken: seq<Attestation>)
    requires Collectable(h, st, ins, taken)
    ensures AggregateByData(taken).Ok? && Applied(h, st, Candidate(ins, AggregateByData(taken).value)).Ok?
    ensures var post := Applied(h, st, Candidate(ins, AggregateByData(taken).value)).value;
            st.finalized.slot <= post.justified.slot < ins.slot
  {
    hide AggregateByData, Applied, Collectable, Speaks;
    PackedSpeaks(h, st, ins, taken);
    SpeakingApplies(h, st, ins, taken, AggregateByData(taken).value);
  }

  /** The collection loop never fails on what a caller can check beforehand. */
  lemma {:induction false} CollectionSucceeds(h: Hasher, st: State, ins: Inputs, taken: seq<Attestation>)
    requires Collectable(h, st, ins, taken)
    ensures Collection(h, st, ins, taken).Ok? && Collectable(h, st, ins, Collection(h, st, ins, taken).value)
    decreases |Untaken(ins.available, taken)|
  {
    hide AggregateByData, Reachable, Applied;
    CandidateApplies(h, st, ins, taken);
    var post := Applied(h, st, Candidate(ins, AggregateByData(taken).value)).value;
    var found := NewVotes(h, ins, ins.available, taken, post.justified);
    NewVotesExact(h, ins, ins.available, taken, post.justified);
    if found != [] {
      TakingShrinks(ins.available, taken, found);
      TakingKeepsCollectable(h, st, ins, taken, found, post.justified);
      CollectionSucceeds(h, st, ins, taken + found);
    }
  }

  lemma TakingKeepsCollectable(h: Hasher, st: State, ins: Inputs, taken: seq<Attestation>, found: seq<Attestation>, justified: Checkpoint)
    requires Collectable(h, st, ins, taken) && st.finalized.slot <= justified.slot < ins.slot
    requires forall a :: a in found ==> a in ins.available && Eligible(h, ins, a, justified)
    ensures Collectable(h, st, ins, taken + found)
  {
    hide Reachable, Filled;
    assert forall a :: a in taken + found ==> a in taken || a in found;
  }

  /** Signatures of registered validators can be sealed if the prover never fails. */
  lemma RegisteredIsSealable(h: Hasher, validators: nat, taken: seq<Attestation>, gossip: GossipSignatures, prover: Prover, i: nat)
    requires AggregateByData(taken).Ok? && i < |AggregateByData(taken).value| && validators <= VALIDATOR_LIMIT
    requires forall a :: a in taken ==> a.validatorId < validators
    requires forall bits, sigs, root :: prover(bits, sigs, root).Ok?
    ensures Sealable(h, validators, AggregateByData(taken).value[i], gossip, prover)
  {
    hide AggregateByData, Members, FromValidatorIndices;
    var group := AggregateByData(taken).value[i];
    var ids, root := Indices(group.bits), h.data(group.data);
    IndicesAreMembers(group.bits);
    assert forall id :: id in ids <==> id in Elements(ids);
    forall id | id in ids ensures id < validators {
      VoterHasAttestation(taken, i, id);
      assert Attestation(id, group.data) in taken;
    }
    SignersExact(gossip, root, ids);
    PackRoundTrip(SignersOf(gossip, root, ids));
  }

  lemma BuildableSucceeds(h: Hasher, st: State, ins: Inputs, initial: seq<Attestation>, prover: Prover)
    requires Buildable(h, st, ins, initial, prover)
    ensures Collection(h, st, ins, initial).Ok?
    ensures var taken := Collection(h, st, ins, initial).value;
            VotesFit(h, ins, taken) && VotesSealable(h, st, ins, taken, prover)
  {
    hide AggregateByData, Reachable, Applied, Sealable, HasSigned, Collection;
    CollectionSucceeds(h, st, ins, initial);
    CollectionSettles(h, st, ins, initial);
    var taken := Collection(h, st, ins, initial).value;
    SignedGroupsFit(h, ins.gossip, ins.payloads, taken);
    forall i | 0 <= i < |AggregateByData(taken).value|
      ensures Sealable(h, st.validators, AggregateByData(taken).value[i], ins.gossip, prover)
    {
      RegisteredIsSealable(h, st.validators, taken, ins.gossip, prover, i);
    }
  }

  /** The candidate of the last round. */
  lemma SettledCandidate(h: Hasher, st: State, ins: Inputs, initial: seq<Attestation>, taken: seq<Attestation>)
    requires Settled(h, st, ins, initial, taken)
    ensures AggregateByData(taken).Ok? && Applied(h, st, Candidate(ins, AggregateByData(taken).value)).Ok?
  {
  }

  /** Whatever else a block carries, its slot and header pass if those of the candidate did, and
      repeated data is an error. */
  lemma OtherBody(h: Hasher, st: State, ins: Inputs, body: seq<AggregatedAttestation>, other: seq<AggregatedAttestation>)
    requires Applied(h, st, Candidate(ins, body)).Ok?
    ensures !DistinctData(other) ==> Applied(h, st, Candidate(ins, other)) == Err(DuplicateData)
  {
    hide AfterAttestations, ExtendToSlot;
  }

  /** What a returned block is. */
  ghost predicate GoodBlock(h: Hasher, st: State, ins: Inputs, prover: Prover, result: (Block, State, seq<Proof>)) {
    var (block, post, proofs) := result;
    && GenuineProofs(h, ins.gossip, ins.payloads, prover, block.body, proofs)
    && Transition(h, st, block) == Ok(post)
    && block.slot == ins.slot && block.proposerIndex == ins.proposer && block.parentRoot == ins.parent
    && !HasDuplicateData(h, block.body) && DistinctData(block.body) && |proofs| == |block.body|
    && forall i :: 0 <= i < |proofs| ==> Members(block.body[i].bits) == Members(proofs[i].participants) != {}
  }

  /** What becomes of the collected votes, for every order in which proofs may be picked.
      A block comes out only if the signatures can be sealed and no group splits; a split group
      is a duplicate-data error. If every group fits, a block comes out exactly when the
      signatures can be sealed, and it carries the votes as they were packed. A block covers
      the votes if all are provable. */
  ghost predicate Dispatched(h: Hasher, st: State, ins: Inputs, taken: seq<Attestation>, prover: Prover,
                             out: Outcome<(Block, State, seq<Proof>)>)
  {
    && (out.Ok? ==> VotesSealable(h, st, ins, taken, prover) && !VotesSplit(h, ins, taken))
    && (UsableProofs(ins.payloads) && VotesSealable(h, st, ins, taken, prover) && VotesSplit(h, ins, taken) ==> out == Err(DuplicateData))
    && (VotesFit(h, ins, taken) ==>
          && (out.Ok? <==> VotesSealable(h, st, ins, taken, prover))
          && (out.Ok? ==> out.value.0.body == AggregateByData(taken).value))
    && (AllVotesProvable(h, ins, taken) && out.Ok? ==> forall a :: a in taken ==> Covers(out.value.0.body, a.data, a.validatorId))
  }

  /** When a block comes out: if the order cannot matter, kept proofs name registered validators
      only and the collection was sure to succeed, or if every vote is provable and every
      group decided, then exactly when the signatures can be sealed and no group splits. */
  ghost predicate Conclusive(h: Hasher, st: State, ins: Inputs, initial: seq<Attestation>, taken: seq<Attestation>) {
    || (Collectable(h, st, ins, initial) && RegisteredProofs(ins.payloads, st.validators) && Determined(h, ins, taken))
    || (AllVotesProvable(h, ins, taken) && Decided(h, ins, taken))
  }

  /** The contract of `build_block`: it fails like the collection loop if that fails; what it
      returns is a good block; and it says when it returns one. */
  ghost predicate Promised(h: Hasher, st: State, ins: Inputs, initial: seq<Attestation>, prover: Prover,
                           out: Outcome<(Block, State, seq<Proof>)>)
  {
    var c := Collection(h, st, ins, initial);
    && (c.Err? ==> out == Err(c.error)) && (c.Panic? ==> out == Panic(c.fault))
    && (out.Ok? ==> GoodBlock(h, st, ins, prover, out.value))
    && (c.Ok? ==>
          && Settled(h, st, ins, initial, c.value) && Dispatched(h, st, ins, c.value, prover, out)
          && (Conclusive(h, st, ins, initial, c.value) ==>
                (out.Ok? <==> VotesSealable(h, st, ins, c.value, prover) && !VotesSplit(h, ins, c.value))))
    && (Buildable(h, st, ins, initial, prover) ==> out.Ok?)
  }

  /** `build_block`. */
  method BuildBlock(h: Hasher, st: State, ins: Inputs, initial: seq<Attestation>, prover: Prover)
    returns (out: Outcome<(Block, State, seq<Proof>)>)
    ensures Promised(h, st, ins, initial, prover, out)
  {
    hide Applied, AggregateByData, Settled, Members, UsableProofs, AllVotesProvable, Covers, Transition, SomeSplits, AllSealable,
         Collection, Buildable, DistinctData, AllFit, Conclusive, GoodBlock, AllSingle, RegisteredProofs, GenuineProofs;
    if Buildable(h, st, ins, initial, prover) { BuildableSucceeds(h, st, ins, initial, prover); }
    var collected := CollectVotes(h, st, ins, initial);
    if collected.IsFailure() { return collected.PropagateFailure(); }
    var taken := collected.value;
    SettledCandidate(h, st, ins, initial, taken);
    ghost var sure := Conclusive(h, st, ins, initial, taken) && !VotesSplit(h, ins, taken);
    if sure { ConclusiveCases(h, st, ins, initial, taken); }
    var covered := ComputeAggregatedSignatures(h, st.validators, taken, ins.gossip, ins.payloads, prover);
    if covered.IsFailure() { return covered.PropagateFailure(); }
    var (votes, proofs) := covered.value;
    var draft := Candidate(ins, votes);
    var post := Apply(h, st, draft);
    OtherBody(h, st, ins, AggregateByData(taken).value, votes);
    if sure && !VotesFit(h, ins, taken) { SpeakingApplies(h, st, ins, taken, votes); }
    if post.IsFailure() { return post.PropagateFailure(); }
    StampedIsGood(h, st, ins, prover, votes, proofs, post.value);
    if AllVotesProvable(h, ins, taken) { ProvableMeans(h, ins, taken); }
    out := Ok((draft.(stateRoot := h.state(post.value)), post.value, proofs));
  }

  lemma ProvableMeans(h: Hasher, ins: Inputs, taken: seq<Attestation>)
    requires AllVotesProvable(h, ins, taken)
    ensures forall a :: a in taken ==> Provable(h, ins.gossip, ins.payloads, a)
  {
  }

  /** Why nothing can go wrong with conclusive votes that do not split. */
  lemma ConclusiveCases(h: Hasher, st: State, ins: Inputs, initial: seq<Attestation>, taken: seq<Attestation>)
    requires Collection(h, st, ins, initial) == Ok(taken)
    requires Conclusive(h, st, ins, initial, taken) && !VotesSplit(h, ins, taken)
    ensures || VotesFit(h, ins, taken)
            || (&& Collectable(h, st, ins, taken) && RegisteredProofs(ins.payloads, st.validators) && UsableProofs(ins.payloads)
                && AggregateByData(taken).Ok? && AllSingle(h, ins.gossip, ins.payloads, AggregateByData(taken).value))
  {
    hide Collection, Determined, Decided, VotesSplit, VotesFit, AllSingle, AggregateByData, RegisteredProofs, UsableProofs, Reachable;
    if AllVotesProvable(h, ins, taken) && Decided(h, ins, taken) {
      UnsplitFits(h, ins, taken);
    } else {
      CollectionSucceeds(h, st, ins, initial);
      RegisteredIsUsable(ins.payloads, st.validators);
      assert AggregateByData(taken).Ok? by { CandidateApplies(h, st, ins, taken); }
      UnsplitIsSingle(h, ins, taken);
    }
  }

  lemma RegisteredIsUsable(payloads: Payloads, validators: nat)
    requires RegisteredProofs(payloads, validators) && validators <= VALIDATOR_LIMIT
    ensures UsableProofs(payloads)
  {
    hide Members, Kept;
  }

  lemma StampedIsGood(h: Hasher, st: State, ins: Inputs, prover: Prover, votes: seq<AggregatedAttestation>, proofs: seq<Proof>, post: State)
    requires GenuineProofs(h, ins.gossip, ins.payloads, prover, votes, proofs)
    requires Applied(h, st, Candidate(ins, votes)) == Ok(post) && |votes| == |proofs|
    requires forall i :: 0 <= i < |votes| ==> Members(votes[i].bits) == Members(proofs[i].participants) != {}
    ensures GoodBlock(h, st, ins, prover, (Candidate(ins, votes).(stateRoot := h.state(post)), post, proofs))
  {
    hide Applied, Transition, Members, Genuine;
    AppliedHasNoDuplicates(h, st, Candidate(ins, votes));
    StampedBlockIsValid(h, st, Candidate(ins, votes), post);
  }

  lemma AppliedHasNoDuplicates(h: Hasher, st: State, b: Block)
    requires Applied(h, st, b).Ok?
    ensures !HasDuplicateData(h, b.body) && DistinctData(b.body)
  {
    hide AfterAttestations;
    forall i, j | 0 <= i < j < |b.body| ensures b.body[i].data != b.body[j].data {
      assert h.data(b.body[i].data) != h.data(b.body[j].data);
    }
  }

  // A concrete input on which no block comes out.

  /** Two validators vote for the genesis block, in the pool that the proposer draws from; the
      signature of one was heard by gossip, that of the other is only in a proof. */
  function MixedVote(h: Hasher, st: State): AttestationData {
    var c := Checkpoint(h.header(Filled(h, st).header), 0);
    AttestationData(0, c, c, c)
  }

  function MixedPool(h: Hasher, st: State): seq<Attestation> {
    [Attestation(0, MixedVote(h, st)), Attestation(1, MixedVote(h, st))]
  }

  function MixedInputs(h: Hasher, st: State): Inputs {
    var tip, root := h.header(Filled(h, st).header), h.data(MixedVote(h, st));
    Inputs(1, 1, tip, MixedPool(h, st), {tip}, map[SignatureKey(0, root) := 7],
           map[SignatureKey(1, root) := [Proof([false, true], 7)]])
  }

  lemma MixedIsCollectable(h: Hasher, genesisTime: nat)
    ensures var st := Genesis(h, genesisTime, 2); Collectable(h, st, MixedInputs(h, st), [])
  {
    var st := Genesis(h, genesisTime, 2);
    assert Reachable(h, st);
    assert forall a :: a in MixedPool(h, st) ==> a.data == MixedVote(h, st);
  }

  lemma MixedProofs(h: Hasher, st: State)
    ensures UsableProofs(MixedInputs(h, st).payloads) && SelfProved(MixedInputs(h, st).payloads, 1, h.data(MixedVote(h, st)))
  {
    var proof, root := Proof([false, true], 7), h.data(MixedVote(h, st));
    assert proof.participants[1];
    assert 1 in Members(proof.participants);
    assert Kept(MixedInputs(h, st).payloads, 1, root, proof);
  }

  /** The empty block on top of genesis justifies genesis, so both votes become eligible. */
  lemma MixedIsTaken(h: Hasher, genesisTime: nat)
    ensures var st := Genesis(h, genesisTime, 2);
            Collection(h, st, MixedInputs(h, st), []) == Ok(MixedPool(h, st)) && Collectable(h, st, MixedInputs(h, st), MixedPool(h, st))
  {
    hide Applied, Collectable, AggregateByData, NewVotes, Collection, MixedInputs, MixedVote, Genesis;
    var st := Genesis(h, genesisTime, 2);
    var ins, pool := MixedInputs(h, st), MixedPool(h, st);
    MixedIsCollectable(h, genesisTime);
    CollectionSucceeds(h, st, ins, []);
    NothingPacked();
    EmptyCandidate(h, genesisTime);
    MixedAreNew(h, st);
    MixedRounds(h, st, ins, pool);
  }

  /** From an empty candidate that makes the whole pool eligible, the collection takes it all. */
  lemma MixedRounds(h: Hasher, st: State, ins: Inputs, pool: seq<Attestation>)
    requires ins.available == pool != [] && Collection(h, st, ins, []).Ok? && AggregateByData([]) == Ok([])
    requires Applied(h, st, Candidate(ins, [])).Ok?
    requires NewVotes(h, ins, pool, [], Applied(h, st, Candidate(ins, [])).value.justified) == pool
    ensures Collection(h, st, ins, []) == Ok(pool)
  {
    hide Applied, AggregateByData, NewVotes;
    assert [] + pool == pool;
    assert Collection(h, st, ins, []) == Collection(h, st, ins, pool);
    NothingNew(h, ins, pool, Applied(h, st, Candidate(ins, AggregateByData(pool).value)).value.justified);
  }

  lemma MixedAreNew(h: Hasher, st: State)
    ensures MixedInputs(h, st).available == MixedPool(h, st)
    ensures NewVotes(h, MixedInputs(h, st), MixedPool(h, st), [], MixedVote(h, st).source) == MixedPool(h, st)
  {
    var ins, pool, c := MixedInputs(h, st), MixedPool(h, st), MixedVote(h, st).source;
    assert pool[..1] == [pool[0]] && pool[..1][..0] == [];
    assert NewVotes(h, ins, [], [], c) == [];
    assert NewVotes(h, ins, [pool[0]], [], c) == [pool[0]];
  }

  lemma NothingNew(h: Hasher, ins: Inputs, taken: seq<Attestation>, justified: Checkpoint)
    requires forall a :: a in ins.available ==> a in taken
    ensures NewVotes(h, ins, ins.available, taken, justified) == []
  {
    hide Eligible;
    var found := NewVotes(h, ins, ins.available, taken, justified);
    assert found == [] || found[0] in found;
    NewVotesExact(h, ins, ins.available, taken, justified);
  }

  lemma NothingPacked()
    ensures AggregateByData([]) == Ok([])
  {
  }

  lemma EmptyCandidate(h: Hasher, genesisTime: nat)
    ensures var st := Genesis(h, genesisTime, 2);
            var post := Applied(h, st, Candidate(MixedInputs(h, st), []));
            post.Ok? && post.value.justified == MixedVote(h, st).source
  {
    hide Collectable, Reachable;
    var st := Genesis(h, genesisTime, 2);
    MixedIsCollectable(h, genesisTime);
    CandidateHeader(h, st, MixedInputs(h, st), [], []);
    SoundMeansProgressSound(BlockPre(h, st, Candidate(MixedInputs(h, st), [])).value);
  }

  /** On genesis with two validators, for every hash function and even if aggregation never
      fails, both votes are collected and provable, but the group splits. */
  lemma MixedVotesWitness(h: Hasher, genesisTime: nat, prover: Prover)
    requires forall bits, sigs, root :: prover(bits, sigs, root).Ok?
    ensures var st := Genesis(h, genesisTime, 2);
            var ins, pool := MixedInputs(h, st), MixedPool(h, st);
            && ins.available == pool && Collection(h, st, ins, []) == Ok(pool)
            && AllVotesProvable(h, ins, pool) && UsableProofs(ins.payloads)
            && VotesSealable(h, st, ins, pool, prover) && VotesSplit(h, ins, pool)
  {
    hide AggregateByData, Applied, Collectable, Sealable, SelfProved, UsableProofs, VotesSplit, Collection;
    var st := Genesis(h, genesisTime, 2);
    var ins, pool := MixedInputs(h, st), MixedPool(h, st);
    MixedIsTaken(h, genesisTime);
    CandidateApplies(h, st, ins, pool);
    MixedProofs(h, st);
    forall i | 0 <= i < |AggregateByData(pool).value|
      ensures Sealable(h, 2, AggregateByData(pool).value[i], ins.gossip, prover)
    {
      RegisteredIsSealable(h, 2, pool, ins.gossip, prover, i);
    }
    MixedVotesSplit(h, ins, pool, pool[0], pool[1]);
  }

  /** "`build_block` always yields a block" is false: on that input, whatever meets its contract
      is a duplicate-data error. */
  lemma NoBlockForMixedVotes(h: Hasher, genesisTime: nat, prover: Prover, out: Outcome<(Block, State, seq<Proof>)>)
    requires forall bits, sigs, root :: prover(bits, sigs, root).Ok?
    requires var st := Genesis(h, genesisTime, 2); Promised(h, st, MixedInputs(h, st), [], prover, out)
    ensures out == Err(DuplicateData)
  {
    hide GoodBlock, Settled, Conclusive, Buildable, VotesSealable, VotesSplit, UsableProofs, Collection, VotesFit, AllVotesProvable;
    MixedVotesWitness(h, genesisTime, prover);
  }
}
