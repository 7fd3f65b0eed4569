/** Covering collected votes with proofs: gossip signatures first, then a greedy set cover over
    the proofs that earlier blocks carried. */
module Covering {
  import opened Containers
  import opened Bits
  import opened Aggregation

  /** One validator's vote, as the key under which signatures and proofs are kept. */
  datatype SignatureKey = SignatureKey(validatorId: ValidatorId, dataRoot: Root)

  type Signature = nat

  /** An aggregate proof: whose signatures it contains, and some bytes. */
  datatype Proof = Proof(participants: seq<bool>, bytes: nat)

  type GossipSignatures = map<SignatureKey, Signature>

  type Payloads = map<SignatureKey, seq<Proof>>

  /** Signature aggregation, which may fail, for instance with `AggregationFailed`. */
  type Prover = (seq<bool>, seq<Signature>, Root) -> Outcome<nat>

  datatype Entry = Entry(vote: AggregatedAttestation, proof: Proof)

  /** The vote of the entry names exactly the participants of its proof, in canonical bits. */
  ghost predicate Faithful(e: Entry, data: AttestationData) {
    && e.vote.data == data && Canonical(e.vote.bits)
    && Members(e.vote.bits) == Members(e.proof.participants) && Members(e.vote.bits) != {}
  }

  ghost predicate AllFaithful(entries: seq<Entry>, data: AttestationData) {
    forall i :: 0 <= i < |entries| ==> Faithful(entries[i], data)
  }

  ghost function CoveredBy(entries: seq<Entry>): set<ValidatorId> {
    if entries == [] then {} else CoveredBy(entries[..|entries| - 1]) + Members(entries[|entries| - 1].vote.bits)
  }

  lemma {:induction false} CoveredByExact(entries: seq<Entry>, id: ValidatorId)
    ensures id in CoveredBy(entries) <==> exists i :: 0 <= i < |entries| && id in Members(entries[i].vote.bits)
    decreases |entries|
  {
    if entries != [] {
      var init := entries[..|entries| - 1];
      CoveredByExact(init, id);
      if exists i :: 0 <= i < |entries| && id in Members(entries[i].vote.bits) {
        var i :| 0 <= i < |entries| && id in Members(entries[i].vote.bits);
        if i < |init| { assert init[i] == entries[i]; }
      }
      if id in CoveredBy(init) {
        var i :| 0 <= i < |init| && id in Members(init[i].vote.bits);
        assert entries[i] == init[i];
      }
    }
  }

  // What the stored proofs can do.

  ghost predicate Kept(payloads: Payloads, id: ValidatorId, dataRoot: Root, proof: Proof) {
    SignatureKey(id, dataRoot) in payloads && proof in payloads[SignatureKey(id, dataRoot)]
  }

  /** Some proof kept for the validator contains it. */
  ghost predicate SelfProved(payloads: Payloads, id: ValidatorId, dataRoot: Root) {
    exists proof :: Kept(payloads, id, dataRoot, proof) && id in Members(proof.participants)
  }

  /** Some proof kept for the validator contains all the voters. */
  ghost predicate Whole(payloads: Payloads, id: ValidatorId, dataRoot: Root, voters: set<ValidatorId>) {
    exists proof :: Kept(payloads, id, dataRoot, proof) && voters <= Members(proof.participants)
  }

  /** Some proof kept for the validator contains one of the voters. */
  ghost predicate Useful(payloads: Payloads, id: ValidatorId, dataRoot: Root, voters: set<ValidatorId>) {
    exists proof :: Kept(payloads, id, dataRoot, proof) && voters * Members(proof.participants) != {}
  }

  lemma SelfProvedIsUseful(payloads: Payloads, id: ValidatorId, dataRoot: Root, voters: set<ValidatorId>)
    requires SelfProved(payloads, id, dataRoot) && id in voters
    ensures Useful(payloads, id, dataRoot, voters)
  {
    hide Members, Kept;
    var proof :| Kept(payloads, id, dataRoot, proof) && id in Members(proof.participants);
    assert id in voters * Members(proof.participants);
  }

  /** The proof names someone, and nobody past the limit. */
  ghost predicate Usable(proof: Proof) {
    Members(proof.participants) != {} && forall id :: id in Members(proof.participants) ==> id < VALIDATOR_LIMIT
  }

  ghost predicate UsableProofs(payloads: Payloads) {
    forall id, dataRoot, proof :: Kept(payloads, id, dataRoot, proof) ==> Usable(proof)
  }

  /** Every kept proof names someone, and registered validators only. */
  ghost predicate RegisteredProofs(payloads: Payloads, validators: nat) {
    forall id, dataRoot, proof :: Kept(payloads, id, dataRoot, proof) ==>
      Members(proof.participants) != {} && forall v :: v in Members(proof.participants) ==> v < validators
  }

  /** If every proof contains the validator it is kept for, a non-empty list is enough. */
  lemma ListedIsSelfProved(payloads: Payloads, id: ValidatorId, dataRoot: Root)
    requires forall v, r, proof :: Kept(payloads, v, r, proof) ==> v in Members(proof.participants)
    requires SignatureKey(id, dataRoot) in payloads && payloads[SignatureKey(id, dataRoot)] != []
    ensures SelfProved(payloads, id, dataRoot)
  {
    assert Kept(payloads, id, dataRoot, payloads[SignatureKey(id, dataRoot)][0]);
  }

  /** What a proof would add to the cover. Asking a proof without participants panics. */
  method OverlapOf(proof: Proof, remaining: set<ValidatorId>) returns (out: Outcome<set<ValidatorId>>)
    ensures out == if Members(proof.participants) == {} then Panic(NoParticipants)
                   else Ok(remaining * Members(proof.participants))
  {
    IndicesAreMembers(proof.participants);
    var ids := ToValidatorIndices(proof.participants);
    if ids.Panic? { return Panic(ids.fault); }
    out := Ok(remaining * Elements(ids.value));
  }

  /** `max_by_key` over the candidates: the proof that covers most of what remains. */
  method BestCandidate(candidates: seq<Proof>, remaining: set<ValidatorId>)
    returns (out: Outcome<(Proof, set<ValidatorId>)>)
    requires candidates != []
    ensures out.Panic? <==> exists i :: 0 <= i < |candidates| && Members(candidates[i].participants) == {}
    ensures !out.Err?
    ensures out.Ok? ==>
              && out.value.0 in candidates && Members(out.value.0.participants) != {}
              && out.value.1 == remaining * Members(out.value.0.participants)
              && forall p :: p in candidates ==> |remaining * Members(p.participants)| <= |out.value.1|
  {
    hide Members;
    var best := candidates[0];
    var first := OverlapOf(best, remaining);
    if first.Panic? { return Panic(first.fault); }
    var covered := first.value;
    for i := 1 to |candidates|
      invariant best in candidates && covered == remaining * Members(best.participants) && Members(best.participants) != {}
      invariant forall j :: 0 <= j < i ==> Members(candidates[j].participants) != {}
      invariant forall j :: 0 <= j < i ==> |remaining * Members(candidates[j].participants)| <= |covered|
    {
      var overlap := OverlapOf(candidates[i], remaining);
      if overlap.Panic? { return Panic(overlap.fault); }
      if |overlap.value| >= |covered| { best, covered := candidates[i], overlap.value; }
    }
    out := Ok((best, covered));
  }

  /** All voters are covered: by one entry if each has a proof that contains them all, and by
      several if none has. */
  ghost predicate FullCover(payloads: Payloads, dataRoot: Root, voters: set<ValidatorId>, entries: seq<Entry>) {
    && voters <= CoveredBy(entries)
    && (voters != {} ==> entries != [])
    && (voters != {} && AllWhole(payloads, dataRoot, voters) ==> |entries| == 1)
    && (voters != {} && (forall id :: id in voters ==> !Whole(payloads, id, dataRoot, voters)) ==> |entries| >= 2)
  }

  /** The greedy fallback for one data group: pick any uncovered validator, add the best proof
      kept under its key, repeat. Terminates because every proof added covers someone new. It
      panics only on a kept proof that is not usable. If every validator has a proof that
      contains it, all are covered: with one proof if each has one that contains them all,
      and with several if none has. Nothing is added if nobody has a proof that helps, and
      something if everybody has. */
  method CoverRemaining(data: AttestationData, dataRoot: Root, remaining: set<ValidatorId>, payloads: Payloads)
    returns (out: Outcome<seq<Entry>>)
    ensures !out.Err?
    ensures out.Panic? ==> exists id, proof :: id in remaining && Kept(payloads, id, dataRoot, proof) && !Usable(proof)
    ensures remaining == {} ==> out == Ok([])
    ensures out.Ok? ==> AllFaithful(out.value, data) && |out.value| <= |remaining|
    ensures out.Ok? ==> forall e :: e in out.value ==> KeptFor(payloads, dataRoot, remaining, e.proof)
    ensures out.Ok? && (forall id :: id in remaining ==> SelfProved(payloads, id, dataRoot)) ==>
              FullCover(payloads, dataRoot, remaining, out.value)
    ensures out.Ok? && NoneUseful(payloads, dataRoot, remaining) ==> out.value == []
    ensures out.Ok? && remaining != {} && AllUseful(payloads, dataRoot, remaining) ==> out.value != []
  {
    hide Members, AllFaithful, Faithful, CoveredBy, SelfProved, Usable, SoFar, Kept, KeptFor, FullCover, Whole, Useful, NoneUseful;
    var left, entries: seq<Entry> := remaining, [];
    NothingCovered(payloads, dataRoot, remaining, data);
    while left != {}
      invariant SoFar(payloads, dataRoot, remaining, left, entries) && AllFaithful(entries, data)
      decreases |left|
    {
      SoFarFacts(payloads, dataRoot, remaining, left, entries);
      var target :| target in left;
      var next, covered := PickProof(data, dataRoot, target, left, payloads);
      if next.IsFailure() { return next; }
      if next.value == [] {
        if SelfProved(payloads, target, dataRoot) { SelfProvedIsUseful(payloads, target, dataRoot, left); }
        break;
      }
      FaithfulSnoc(entries, next.value[0], data);
      SoFarStep(payloads, dataRoot, remaining, left, entries, data, target, next.value[0], covered);
      entries, left := entries + [next.value[0]], left - covered;
    }
    SoFarFacts(payloads, dataRoot, remaining, left, entries);
    if left == {} { NobodyLeft(payloads, dataRoot, remaining, entries); }
    out := Ok(entries);
  }

  /** Some validator of the set has the proof. */
  ghost predicate KeptFor(payloads: Payloads, dataRoot: Root, voters: set<ValidatorId>, proof: Proof) {
    exists id :: id in voters && Kept(payloads, id, dataRoot, proof)
  }

  ghost predicate NoneUseful(payloads: Payloads, dataRoot: Root, voters: set<ValidatorId>) {
    forall id :: id in voters ==> !Useful(payloads, id, dataRoot, voters)
  }

  ghost predicate AllUseful(payloads: Payloads, dataRoot: Root, voters: set<ValidatorId>) {
    forall id :: id in voters ==> Useful(payloads, id, dataRoot, voters)
  }

  ghost predicate AllWhole(payloads: Payloads, dataRoot: Root, voters: set<ValidatorId>) {
    forall id :: id in voters ==> Whole(payloads, id, dataRoot, voters)
  }

  /** What the greedy loop keeps. */
  ghost predicate SoFar(payloads: Payloads, dataRoot: Root, remaining: set<ValidatorId>, left: set<ValidatorId>, entries: seq<Entry>) {
    && left <= remaining <= left + CoveredBy(entries) && |entries| + |left| <= |remaining|
    && (forall e :: e in entries ==> KeptFor(payloads, dataRoot, remaining, e.proof))
    && (entries == [] ==> left == remaining)
    && (|entries| == 1 ==> left == remaining - Members(entries[0].proof.participants))
    && (entries != [] && AllWhole(payloads, dataRoot, remaining) ==> left == {} && |entries| == 1)
    && (entries != [] ==> !NoneUseful(payloads, dataRoot, remaining))
  }

  lemma SoFarFacts(payloads: Payloads, dataRoot: Root, remaining: set<ValidatorId>, left: set<ValidatorId>, entries: seq<Entry>)
    requires SoFar(payloads, dataRoot, remaining, left, entries)
    ensures left <= remaining && |entries| <= |remaining| && (entries == [] ==> left == remaining)
    ensures forall e :: e in entries ==> KeptFor(payloads, dataRoot, remaining, e.proof)
    ensures NoneUseful(payloads, dataRoot, remaining) ==> entries == []
  {
    hide KeptFor, AllWhole, NoneUseful;
  }

  lemma SoFarStep(payloads: Payloads, dataRoot: Root, remaining: set<ValidatorId>, left: set<ValidatorId>, entries: seq<Entry>,
                  data: AttestationData, target: ValidatorId, entry: Entry, covered: set<ValidatorId>)
    requires SoFar(payloads, dataRoot, remaining, left, entries) && target in left
    requires AllFaithful(entries, data) && Faithful(entry, data) && Kept(payloads, target, dataRoot, entry.proof)
    requires covered == left * Members(entry.proof.participants) != {}
    requires Whole(payloads, target, dataRoot, left) ==> covered == left
    ensures SoFar(payloads, dataRoot, remaining, left - covered, entries + [entry]) && |left - covered| < |left|
  {
    hide Members, AllFaithful, Faithful, CoveredBy, Kept, Whole;
    FaithfulSnoc(entries, entry, data);
    var after := entries + [entry];
    assert |left - covered| + |covered| == |left|;
    assert KeptFor(payloads, dataRoot, remaining, entry.proof);
    if AllWhole(payloads, dataRoot, remaining) { assert entries == [] && Whole(payloads, target, dataRoot, left); }
    if entries == [] { assert Useful(payloads, target, dataRoot, remaining); }
  }

  /** When nobody is left, everyone is covered. */
  lemma NobodyLeft(payloads: Payloads, dataRoot: Root, remaining: set<ValidatorId>, entries: seq<Entry>)
    requires SoFar(payloads, dataRoot, remaining, {}, entries)
    ensures FullCover(payloads, dataRoot, remaining, entries)
  {
    hide Members, CoveredBy, Kept;
    if |entries| == 1 && remaining != {} {
      var proof := entries[0].proof;
      assert entries[0] in entries;
      var id :| id in remaining && Kept(payloads, id, dataRoot, proof);
      assert Whole(payloads, id, dataRoot, remaining);
    }
  }

  /** One round of the greedy loop: the best proof kept for `target`, if it has any overlap with
      those who are left, and the validators that it covers. */
  method PickProof(data: AttestationData, dataRoot: Root, target: ValidatorId, left: set<ValidatorId>, payloads: Payloads)
    returns (out: Outcome<seq<Entry>>, covered: set<ValidatorId>)
    requires target in left
    ensures !out.Err?
    ensures out.Panic? ==> exists proof :: Kept(payloads, target, dataRoot, proof) && !Usable(proof)
    ensures out.Ok? ==> |out.value| <= 1 && (out.value == [] ==> !Useful(payloads, target, dataRoot, left))
    ensures out.Ok? && out.value != [] ==>
              && Faithful(out.value[0], data) && Kept(payloads, target, dataRoot, out.value[0].proof)
              && covered == left * Members(out.value[0].proof.participants) != {}
              && (Whole(payloads, target, dataRoot, left) ==> covered == left)
  {
    hide Members, Useful, Usable, Whole;
    var key := SignatureKey(target, dataRoot);
    if key !in payloads || payloads[key] == [] {
      NoProof(payloads, target, dataRoot, left);
      return Ok([]), {};
    }
    var best := BestCandidate(payloads[key], left);
    if best.Panic? {
      ghost var i :| 0 <= i < |payloads[key]| && Members(payloads[key][i].participants) == {};
      EmptyIsUnusable(payloads[key][i]);
      assert Kept(payloads, target, dataRoot, payloads[key][i]);
      return Panic(best.fault), {};
    }
    var proof := best.value.0;
    covered := best.value.1;
    assert Kept(payloads, target, dataRoot, proof);
    BestOverlaps(payloads, target, dataRoot, left, covered);
    if covered == {} { return Ok([]), {}; }
    BestIsWhole(payloads, target, dataRoot, left, covered);
    var bits := RepackParticipants(proof);
    if bits.Panic? { return Panic(bits.fault), {}; }
    out := Ok([Entry(AggregatedAttestation(bits.value, data), proof)]);
  }

  lemma NothingCovered(payloads: Payloads, dataRoot: Root, remaining: set<ValidatorId>, data: AttestationData)
    ensures SoFar(payloads, dataRoot, remaining, remaining, []) && AllFaithful([], data)
  {
  }

  lemma EmptyIsUnusable(proof: Proof)
    requires Members(proof.participants) == {}
    ensures !Usable(proof)
  {
  }

  lemma NoProof(payloads: Payloads, id: ValidatorId, dataRoot: Root, left: set<ValidatorId>)
    requires SignatureKey(id, dataRoot) !in payloads || payloads[SignatureKey(id, dataRoot)] == []
    ensures !Useful(payloads, id, dataRoot, left)
  {
  }

  lemma FaithfulSnoc(entries: seq<Entry>, entry: Entry, data: AttestationData)
    requires AllFaithful(entries, data) && Faithful(entry, data)
    ensures AllFaithful(entries + [entry], data)
    ensures CoveredBy(entries + [entry]) == CoveredBy(entries) + Members(entry.proof.participants)
  {
    assert (entries + [entry])[..|entries|] == entries;
  }

  /** The best proof for a validator covers somebody if any of its proofs does. */
  lemma BestOverlaps(payloads: Payloads, id: ValidatorId, dataRoot: Root, left: set<ValidatorId>, covered: set<ValidatorId>)
    requires forall p :: Kept(payloads, id, dataRoot, p) ==> |left * Members(p.participants)| <= |covered|
    ensures Useful(payloads, id, dataRoot, left) ==> covered != {}
  {
    hide Members;
    if Useful(payloads, id, dataRoot, left) {
      var p :| Kept(payloads, id, dataRoot, p) && left * Members(p.participants) != {};
      assert |left * Members(p.participants)| > 0;
    }
  }

  /** The best proof for a validator covers everybody if any of its proofs does. */
  lemma BestIsWhole(payloads: Payloads, id: ValidatorId, dataRoot: Root, left: set<ValidatorId>, covered: set<ValidatorId>)
    requires covered <= left
    requires forall p :: Kept(payloads, id, dataRoot, p) ==> |left * Members(p.participants)| <= |covered|
    ensures Whole(payloads, id, dataRoot, left) ==> covered == left
  {
    hide Members;
    if Whole(payloads, id, dataRoot, left) {
      var p :| Kept(payloads, id, dataRoot, p) && left <= Members(p.participants);
      assert left * Members(p.participants) == left;
      assert |left - covered| == |left| - |covered|;
    }
  }

  /** The participants of a proof as the bits of a vote. */
  method RepackParticipants(proof: Proof) returns (out: Outcome<seq<bool>>)
    requires Members(proof.participants) != {}
    ensures out.Panic? <==> !Usable(proof)
    ensures !out.Err?
    ensures out.Ok? ==> Members(out.value) == Members(proof.participants) && Canonical(out.value)
  {
    IndicesAreMembers(proof.participants);
    var ids := Indices(proof.participants);
    assert forall id :: id in ids <==> id in Elements(ids);
    PackRoundTrip(ids);
    out := PackIndices(ids);
    if out.Ok? { PackedIsCanonical(ids); }
  }

  // Gossip signatures.

  /** The validators of the list that have a gossip signature. */
  function SignersOf(gossip: GossipSignatures, dataRoot: Root, ids: seq<ValidatorId>): seq<ValidatorId> {
    if ids == [] then []
    else
      var id := ids[|ids| - 1];
      SignersOf(gossip, dataRoot, ids[..|ids| - 1]) + if SignatureKey(id, dataRoot) in gossip then [id] else []
  }

  function SignaturesOf(gossip: GossipSignatures, dataRoot: Root, signers: seq<ValidatorId>): seq<Signature> {
    seq(|signers|, i requires 0 <= i < |signers| =>
      if SignatureKey(signers[i], dataRoot) in gossip then gossip[SignatureKey(signers[i], dataRoot)] else 0)
  }

  lemma {:induction false} SignersExact(gossip: GossipSignatures, dataRoot: Root, ids: seq<ValidatorId>)
    ensures forall id :: id in SignersOf(gossip, dataRoot, ids) <==> id in ids && SignatureKey(id, dataRoot) in gossip
    ensures (forall id :: id in ids ==> SignatureKey(id, dataRoot) in gossip) ==> SignersOf(gossip, dataRoot, ids) == ids
  {
    if ids != [] {
      SignersExact(gossip, dataRoot, ids[..|ids| - 1]);
      assert ids == ids[..|ids| - 1] + [ids[|ids| - 1]];
    }
  }

  lemma SignaturesAreOwn(gossip: GossipSignatures, dataRoot: Root, ids: seq<ValidatorId>)
    ensures var signers := SignersOf(gossip, dataRoot, ids);
            OwnSignatures(gossip, dataRoot, signers, SignaturesOf(gossip, dataRoot, signers))
  {
    SignersExact(gossip, dataRoot, ids);
    var signers := SignersOf(gossip, dataRoot, ids);
    forall i | 0 <= i < |signers| ensures SignatureKey(signers[i], dataRoot) in gossip { assert signers[i] in signers; }
  }

  /** The signatures are those of the signers, in their order. */
  ghost predicate OwnSignatures(gossip: GossipSignatures, dataRoot: Root, signers: seq<ValidatorId>, sigs: seq<Signature>) {
    && |sigs| == |signers|
    && forall i :: 0 <= i < |signers| ==>
         SignatureKey(signers[i], dataRoot) in gossip && sigs[i] == gossip[SignatureKey(signers[i], dataRoot)]
  }

  /** The proof is what the prover makes of the gossip signatures of its participants. */
  ghost predicate IsSeal(dataRoot: Root, gossip: GossipSignatures, prover: Prover,
                         signers: seq<ValidatorId>, sigs: seq<Signature>, proof: Proof)
  {
    && Elements(signers) == Members(proof.participants) && OwnSignatures(gossip, dataRoot, signers, sigs)
    && prover(proof.participants, sigs, dataRoot) == Ok(proof.bytes)
  }

  /** The proof was kept for this data, or sealed from signatures for this data. */
  ghost predicate Genuine(dataRoot: Root, gossip: GossipSignatures, payloads: Payloads, prover: Prover, proof: Proof) {
    || (exists id :: Kept(payloads, id, dataRoot, proof))
    || (exists signers, sigs :: IsSeal(dataRoot, gossip, prover, signers, sigs, proof))
  }

  ghost predicate AllGenuine(h: Hasher, gossip: GossipSignatures, payloads: Payloads, prover: Prover, entries: seq<Entry>) {
    forall i :: 0 <= i < |entries| ==> Genuine(h.data(entries[i].vote.data), gossip, payloads, prover, entries[i].proof)
  }

  /** The gossip phase for one data group: who has a signature, and who is left. It fails
      exactly when a signer is not in the registry. */
  method CollectGossip(validators: nat, dataRoot: Root, ids: seq<ValidatorId>, gossip: GossipSignatures)
    returns (out: Outcome<(seq<ValidatorId>, seq<Signature>)>, remaining: set<ValidatorId>)
    ensures out == if exists id :: id in ids && SignatureKey(id, dataRoot) in gossip && id >= validators
                   then Err(UnknownValidatorKey)
                   else Ok((SignersOf(gossip, dataRoot, ids), SignaturesOf(gossip, dataRoot, SignersOf(gossip, dataRoot, ids))))
    ensures out.Ok? ==> OwnSignatures(gossip, dataRoot, out.value.0, out.value.1)
    ensures out.Ok? ==> remaining == (set id | id in ids && SignatureKey(id, dataRoot) !in gossip)
  {
    var signers: seq<ValidatorId>, sigs: seq<Signature> := [], [];
    remaining := {};
    for i := 0 to |ids|
      invariant forall j :: 0 <= j < i && SignatureKey(ids[j], dataRoot) in gossip ==> ids[j] < validators
      invariant signers == SignersOf(gossip, dataRoot, ids[..i])
      invariant sigs == SignaturesOf(gossip, dataRoot, signers)
      invariant remaining == (set id | id in ids[..i] && SignatureKey(id, dataRoot) !in gossip)
    {
      var id := ids[i];
      assert ids[..i + 1] == ids[..i] + [id] && ids[..i + 1][..i] == ids[..i];
      var key := SignatureKey(id, dataRoot);
      if key in gossip {
        if id >= validators { return Err(UnknownValidatorKey), {}; }
        signers, sigs := signers + [id], sigs + [gossip[key]];
      } else {
        remaining := remaining + {id};
      }
    }
    assert ids[..|ids|] == ids;
    SignaturesAreOwn(gossip, dataRoot, ids);
    out := Ok((signers, sigs));
  }

  /** The entry that the gossip phase adds, if it collected anything. */
  method SealGossip(data: AttestationData, dataRoot: Root, signers: seq<ValidatorId>, sigs: seq<Signature>, prover: Prover)
    returns (out: Outcome<seq<Entry>>)
    ensures out.Ok? <==> Sealed(dataRoot, signers, sigs, prover)
    ensures out.Ok? ==> AllFaithful(out.value, data) && CoveredBy(out.value) == Elements(signers)
    ensures out.Ok? ==> |out.value| == if signers == [] then 0 else 1
    ensures out.Ok? ==> forall e :: e in out.value ==>
              Elements(signers) == Members(e.proof.participants) && prover(e.proof.participants, sigs, dataRoot) == Ok(e.proof.bytes)
  {
    EmptyIffNoElements(signers);
    if signers == [] { return Ok([]); }
    PackRoundTrip(signers);
    var bits := PackIndices(signers);
    if bits.IsFailure() { return bits.PropagateFailure(); }
    var bytes := prover(bits.value, sigs, dataRoot);
    if bytes.IsFailure() { return bytes.PropagateFailure(); }
    var entries := [Entry(AggregatedAttestation(bits.value, data), Proof(bits.value, bytes.value))];
    assert entries[..0] == [];
    assert CoveredBy(entries) == Members(bits.value);
    PackedIsCanonical(signers);
    out := Ok(entries);
  }

  /** The signers fit into a bit list, and their signatures can be aggregated. */
  predicate Sealed(dataRoot: Root, signers: seq<ValidatorId>, sigs: seq<Signature>, prover: Prover) {
    signers == [] ||
    (FromValidatorIndices(signers).Ok? && prover(FromValidatorIndices(signers).value, sigs, dataRoot).Ok?)
  }

  /** What the gossip phase needs: all signers registered, and their signatures aggregated. */
  ghost predicate Sealable(h: Hasher, validators: nat, group: AggregatedAttestation, gossip: GossipSignatures, prover: Prover) {
    var root, ids := h.data(group.data), Indices(group.bits);
    && (forall id :: id in ids && SignatureKey(id, root) in gossip ==> id < validators)
    && Sealed(root, SignersOf(gossip, root, ids), SignaturesOf(gossip, root, SignersOf(gossip, root, ids)), prover)
  }

  ghost predicate AllSealable(h: Hasher, validators: nat, groups: seq<AggregatedAttestation>, gossip: GossipSignatures, prover: Prover) {
    forall i :: 0 <= i < |groups| ==> Sealable(h, validators, groups[i], gossip, prover)
  }

  /** Every voter has a gossip signature. */
  ghost predicate Signed(gossip: GossipSignatures, dataRoot: Root, voters: set<ValidatorId>) {
    forall id :: id in voters ==> SignatureKey(id, dataRoot) in gossip
  }

  /** Every voter has a gossip signature or a proof that contains it. */
  ghost predicate GroupProvable(gossip: GossipSignatures, payloads: Payloads, dataRoot: Root, voters: set<ValidatorId>) {
    forall id :: id in voters ==> SignatureKey(id, dataRoot) in gossip || SelfProved(payloads, id, dataRoot)
  }

  /** The voters without a gossip signature. */
  ghost function Unsigned(gossip: GossipSignatures, dataRoot: Root, voters: set<ValidatorId>): set<ValidatorId> {
    set id | id in voters && SignatureKey(id, dataRoot) !in gossip
  }

  /** The group comes out as several entries, whatever the order: some voters have signed and
      each of the others has a proof that helps, or nobody has signed, everyone has a proof
      that contains it, and nobody one that contains them all. */
  ghost predicate Splits(gossip: GossipSignatures, payloads: Payloads, dataRoot: Root, voters: set<ValidatorId>) {
    var rest := Unsigned(gossip, dataRoot, voters);
    && rest != {}
    && if rest != voters then AllUseful(payloads, dataRoot, rest)
       else forall id :: id in voters ==> SelfProved(payloads, id, dataRoot) && !Whole(payloads, id, dataRoot, voters)
  }

  /** The group comes out as at most one entry, whatever the order: nobody among those who have
      not signed has a proof that helps, or nobody has signed and everyone has a proof that
      contains them all. */
  ghost predicate Single(gossip: GossipSignatures, payloads: Payloads, dataRoot: Root, voters: set<ValidatorId>) {
    var rest := Unsigned(gossip, dataRoot, voters);
    NoneUseful(payloads, dataRoot, rest) || (rest == voters && AllWhole(payloads, dataRoot, voters))
  }

  /** Each voter has a proof, and every proof kept for one of them has exactly them all. */
  ghost predicate ExactProofs(payloads: Payloads, dataRoot: Root, voters: set<ValidatorId>) {
    && (forall id :: id in voters ==> SelfProved(payloads, id, dataRoot))
    && (forall id, proof :: id in voters && Kept(payloads, id, dataRoot, proof) ==> Members(proof.participants) == voters)
  }

  /** One entry will do for this group: everyone has signed, or nobody has and the proofs are
      exact. */
  ghost predicate Fits(gossip: GossipSignatures, payloads: Payloads, dataRoot: Root, voters: set<ValidatorId>) {
    || Signed(gossip, dataRoot, voters)
    || ((forall id :: id in voters ==> SignatureKey(id, dataRoot) !in gossip) && ExactProofs(payloads, dataRoot, voters))
  }

  ghost predicate GroupFits(h: Hasher, gossip: GossipSignatures, payloads: Payloads, group: AggregatedAttestation) {
    Canonical(group.bits) && Fits(gossip, payloads, h.data(group.data), Members(group.bits))
  }

  /** The gossip phase for one data group. */
  method GossipPhase(h: Hasher, validators: nat, group: AggregatedAttestation, gossip: GossipSignatures, prover: Prover)
    returns (out: Outcome<seq<Entry>>, remaining: set<ValidatorId>)
    ensures out.Ok? <==> Sealable(h, validators, group, gossip, prover)
    ensures out.Ok? ==> AllFaithful(out.value, group.data)
    ensures out.Ok? ==> remaining == Unsigned(gossip, h.data(group.data), Members(group.bits))
    ensures out.Ok? ==> CoveredBy(out.value) == Members(group.bits) - remaining
    ensures out.Ok? ==> |out.value| == if Members(group.bits) == remaining then 0 else 1
    ensures out.Ok? ==> forall e :: e in out.value ==> exists signers, sigs :: IsSeal(h.data(group.data), gossip, prover, signers, sigs, e.proof)
  {
    hide Members, CoveredBy, Faithful, OwnSignatures;
    var dataRoot, ids := h.data(group.data), Indices(group.bits);
    SignersExact(gossip, dataRoot, ids);
    var collected;
    collected, remaining := CollectGossip(validators, dataRoot, ids, gossip);
    if collected.IsFailure() { return collected.PropagateFailure(), {}; }
    var signers := collected.value.0;
    SignersAndRest(gossip, dataRoot, group.bits, remaining);
    out := SealGossip(group.data, dataRoot, signers, collected.value.1, prover);
    if out.Ok? {
      forall e | e in out.value ensures exists signers, sigs :: IsSeal(dataRoot, gossip, prover, signers, sigs, e.proof) {
        assert IsSeal(dataRoot, gossip, prover, signers, collected.value.1, e.proof);
      }
    }
  }

  /** One data group: gossip first, then the greedy fallback. It succeeds only if the gossip
      phase can be sealed, and always then if the kept proofs are usable. A group that fits
      comes out as it went in, whether or not the proofs for other votes are usable. If kept
      proofs name registered validators only, so do the entries. */
  method CoverGroup(h: Hasher, validators: nat, group: AggregatedAttestation, gossip: GossipSignatures,
                    payloads: Payloads, prover: Prover) returns (out: Outcome<seq<Entry>>)
    requires Members(group.bits) != {}
    ensures out.Ok? ==> Sealable(h, validators, group, gossip, prover)
    ensures Sealable(h, validators, group, gossip, prover) && (UsableProofs(payloads) || GroupFits(h, gossip, payloads, group)) ==> out.Ok?
    ensures out.Ok? ==> AllFaithful(out.value, group.data)
    ensures out.Ok? && GroupFits(h, gossip, payloads, group) ==> VotesIn(out.value) == [group]
    ensures out.Ok? && GroupProvable(gossip, payloads, h.data(group.data), Members(group.bits)) ==> Members(group.bits) <= CoveredBy(out.value)
    ensures out.Ok? && Splits(gossip, payloads, h.data(group.data), Members(group.bits)) ==> |out.value| >= 2
    ensures out.Ok? && Single(gossip, payloads, h.data(group.data), Members(group.bits)) ==> |out.value| <= 1
    ensures out.Ok? && RegisteredProofs(payloads, validators) ==> AllRegistered(out.value, validators)
    ensures out.Ok? ==> AllGenuine(h, gossip, payloads, prover, out.value)
  {
    hide Members, SelfProved, Whole, CoveredBy, AllFaithful, AllGenuine, IsSeal, GroupFits, Splits, GroupProvable, UsableProofs, FullCover,
         Sealable, VotesIn, Usable, Kept, KeptFor, Single, RegisteredProofs, AllRegistered, NoneUseful, AllUseful, AllWhole, Unsigned;
    var dataRoot := h.data(group.data);
    var sealed, remaining := GossipPhase(h, validators, group, gossip, prover);
    if sealed.IsFailure() { return sealed; }
    var rest := CoverRemaining(group.data, dataRoot, remaining, payloads);
    if rest.IsFailure() {
      UnusableProof(h, gossip, payloads, group, remaining);
      return rest;
    }
    out := Ok(sealed.value + rest.value);
    if GroupFits(h, gossip, payloads, group) { FittingComesOut(h, gossip, payloads, group, remaining, sealed.value, rest.value); }
    VotesInConcat(sealed.value, rest.value);
    FaithfulConcat(sealed.value, rest.value, group.data);
    GroupIsGenuine(h, gossip, payloads, prover, group, remaining, sealed.value, rest.value);
    HowManyEntries(gossip, payloads, dataRoot, Members(group.bits), sealed.value, rest.value);
    if GroupProvable(gossip, payloads, dataRoot, Members(group.bits)) {
      ProvableIsCovered(gossip, payloads, dataRoot, Members(group.bits), sealed.value, rest.value);
    }
    if RegisteredProofs(payloads, validators) {
      EntriesAreRegistered(h, validators, group, gossip, prover, payloads, sealed.value, rest.value);
    }
  }

  lemma GroupIsGenuine(h: Hasher, gossip: GossipSignatures, payloads: Payloads, prover: Prover, group: AggregatedAttestation,
                       remaining: set<ValidatorId>, sealed: seq<Entry>, rest: seq<Entry>)
    requires AllFaithful(sealed, group.data) && AllFaithful(rest, group.data)
    requires forall e :: e in sealed ==> exists signers, sigs :: IsSeal(h.data(group.data), gossip, prover, signers, sigs, e.proof)
    requires forall e :: e in rest ==> KeptFor(payloads, h.data(group.data), remaining, e.proof)
    ensures AllGenuine(h, gossip, payloads, prover, sealed + rest)
  {
    hide Members, Canonical, Kept, IsSeal;
    var all := sealed + rest;
    forall i | 0 <= i < |all| ensures Genuine(h.data(all[i].vote.data), gossip, payloads, prover, all[i].proof) {
      if i < |sealed| {
        assert Faithful(sealed[i], group.data) && all[i] in sealed;
      } else {
        assert Faithful(rest[i - |sealed|], group.data) && all[i] == rest[i - |sealed|] && all[i] in rest;
      }
    }
  }

  ghost predicate AllRegistered(entries: seq<Entry>, validators: nat) {
    forall i, v :: 0 <= i < |entries| && v in Members(entries[i].vote.bits) ==> v < validators
  }

  lemma EntriesAreRegistered(h: Hasher, validators: nat, group: AggregatedAttestation, gossip: GossipSignatures, prover: Prover,
                             payloads: Payloads, sealed: seq<Entry>, rest: seq<Entry>)
    requires Sealable(h, validators, group, gossip, prover) && RegisteredProofs(payloads, validators)
    requires AllFaithful(rest, group.data) && CoveredBy(sealed) == Members(group.bits) - Unsigned(gossip, h.data(group.data), Members(group.bits))
    requires forall e :: e in rest ==> KeptFor(payloads, h.data(group.data), Unsigned(gossip, h.data(group.data), Members(group.bits)), e.proof)
    ensures AllRegistered(sealed + rest, validators)
  {
    hide Members, Kept, Sealed, CoveredBy;
    var all := sealed + rest;
    forall i, v | 0 <= i < |all| && v in Members(all[i].vote.bits) ensures v < validators {
      if i < |sealed| {
        CoveredByExact(sealed, v);
        IndicesAreMembers(group.bits);
        assert v in Elements(Indices(group.bits));
      } else {
        var e := rest[i - |sealed|];
        assert e == all[i] && e in rest && Faithful(e, group.data);
      }
    }
  }

  lemma HowManyEntries(gossip: GossipSignatures, payloads: Payloads, dataRoot: Root, voters: set<ValidatorId>,
                       sealed: seq<Entry>, rest: seq<Entry>)
    requires voters != {}
    requires var remaining := Unsigned(gossip, dataRoot, voters);
             && |sealed| == (if voters == remaining then 0 else 1)
             && (NoneUseful(payloads, dataRoot, remaining) ==> rest == [])
             && (remaining != {} && AllUseful(payloads, dataRoot, remaining) ==> rest != [])
             && ((forall id :: id in remaining ==> SelfProved(payloads, id, dataRoot)) ==> FullCover(payloads, dataRoot, remaining, rest))
    ensures Splits(gossip, payloads, dataRoot, voters) ==> |sealed + rest| >= 2
    ensures Single(gossip, payloads, dataRoot, voters) ==> |sealed + rest| <= 1
  {
    hide CoveredBy, Kept, Useful, SelfProved, Whole, Members;
    if AllWhole(payloads, dataRoot, voters) {
      forall id | id in voters ensures SelfProved(payloads, id, dataRoot) { WholeIsSelfProved(payloads, id, dataRoot, voters); }
    }
  }

  lemma WholeIsSelfProved(payloads: Payloads, id: ValidatorId, dataRoot: Root, voters: set<ValidatorId>)
    requires Whole(payloads, id, dataRoot, voters) && id in voters
    ensures SelfProved(payloads, id, dataRoot)
  {
  }

  /** An unusable proof is not one of the exact proofs of a group that fits. */
  lemma UnusableProof(h: Hasher, gossip: GossipSignatures, payloads: Payloads, group: AggregatedAttestation, remaining: set<ValidatorId>)
    requires exists id, proof :: id in remaining && Kept(payloads, id, h.data(group.data), proof) && !Usable(proof)
    requires remaining == Unsigned(gossip, h.data(group.data), Members(group.bits))
    ensures !UsableProofs(payloads) && !GroupFits(h, gossip, payloads, group)
  {
    hide Members, Kept, SelfProved;
    var id, proof :| id in remaining && Kept(payloads, id, h.data(group.data), proof) && !Usable(proof);
    if GroupFits(h, gossip, payloads, group) {
      CanonicalIsUsable(group.bits);
      assert false;
    }
  }

  lemma CanonicalIsUsable(bits: seq<bool>)
    requires Canonical(bits)
    ensures Members(bits) != {} && forall id :: id in Members(bits) ==> id < VALIDATOR_LIMIT
  {
    var ids := Indices(bits);
    PackRoundTrip(ids);
    IndicesAreMembers(bits);
    assert forall id :: id in ids <==> id in Elements(ids);
  }

  /** A group that fits becomes the one vote that it was. */
  lemma FittingComesOut(h: Hasher, gossip: GossipSignatures, payloads: Payloads, group: AggregatedAttestation,
                        remaining: set<ValidatorId>, sealed: seq<Entry>, rest: seq<Entry>)
    requires GroupFits(h, gossip, payloads, group) && AllFaithful(sealed, group.data) && AllFaithful(rest, group.data)
    requires remaining == Unsigned(gossip, h.data(group.data), Members(group.bits))
    requires CoveredBy(sealed) == Members(group.bits) - remaining && |sealed| == if Members(group.bits) == remaining then 0 else 1
    requires (forall id :: id in remaining ==> SelfProved(payloads, id, h.data(group.data))) ==>
               FullCover(payloads, h.data(group.data), remaining, rest)
    requires forall e :: e in rest ==> KeptFor(payloads, h.data(group.data), remaining, e.proof)
    requires |rest| <= |remaining|
    ensures VotesIn(sealed + rest) == [group]
  {
    hide Members, Kept, SelfProved, Canonical;
    var root, voters := h.data(group.data), Members(group.bits);
    CanonicalIsUsable(group.bits);
    if Signed(gossip, root, voters) {
      assert remaining == {};
      assert rest == [] && sealed + rest == sealed;
      assert sealed[..0] == [];
      OneVote(sealed, group);
    } else {
      assert remaining == voters;
      ExactIsWhole(payloads, root, voters);
      assert sealed == [] && sealed + rest == rest;
      assert rest[0] in rest;
      OneVote(rest, group);
    }
  }

  lemma ExactIsWhole(payloads: Payloads, dataRoot: Root, voters: set<ValidatorId>)
    requires ExactProofs(payloads, dataRoot, voters)
    ensures AllWhole(payloads, dataRoot, voters)
  {
    hide Members, Kept;
    forall id | id in voters ensures Whole(payloads, id, dataRoot, voters) {
      assert SelfProved(payloads, id, dataRoot);
      var proof :| Kept(payloads, id, dataRoot, proof) && id in Members(proof.participants);
      assert voters <= Members(proof.participants);
    }
  }

  lemma OneVote(entries: seq<Entry>, group: AggregatedAttestation)
    requires AllFaithful(entries, group.data) && |entries| == 1 && Canonical(group.bits)
    requires Members(entries[0].vote.bits) == Members(group.bits)
    ensures VotesIn(entries) == [group]
  {
    hide Members, Canonical;
    assert Faithful(entries[0], group.data);
    CanonicalUnique(entries[0].vote.bits, group.bits);
  }

  lemma SignersAndRest(gossip: GossipSignatures, dataRoot: Root, bits: seq<bool>, remaining: set<ValidatorId>)
    requires remaining == (set id | id in Indices(bits) && SignatureKey(id, dataRoot) !in gossip)
    ensures remaining == Unsigned(gossip, dataRoot, Members(bits))
    ensures var signers := SignersOf(gossip, dataRoot, Indices(bits));
            Elements(signers) == Members(bits) - remaining && (signers == [] <==> Members(bits) == remaining)
  {
    hide Members, SignersOf, Indices;
    var ids := Indices(bits);
    var signers := SignersOf(gossip, dataRoot, ids);
    IndicesAreMembers(bits);
    assert forall id :: id in Members(bits) <==> id in ids;
    SignersExact(gossip, dataRoot, ids);
    EmptyIffNoElements(signers);
    assert Elements(signers) == Members(bits) - remaining;
  }

  lemma ProvableIsCovered(gossip: GossipSignatures, payloads: Payloads, dataRoot: Root, voters: set<ValidatorId>,
                          sealed: seq<Entry>, rest: seq<Entry>)
    requires GroupProvable(gossip, payloads, dataRoot, voters)
    requires var remaining := Unsigned(gossip, dataRoot, voters);
             && CoveredBy(sealed) == voters - remaining
             && ((forall id :: id in remaining ==> SelfProved(payloads, id, dataRoot)) ==> FullCover(payloads, dataRoot, remaining, rest))
    ensures voters <= CoveredBy(sealed + rest)
  {
    hide SelfProved, Whole, CoveredBy;
    CoveredByConcat(sealed, rest);
  }

  lemma {:induction false} CoveredByConcat(a: seq<Entry>, b: seq<Entry>)
    ensures CoveredBy(a + b) == CoveredBy(a) + CoveredBy(b)
    decreases |b|
  {
    if b == [] {
      assert a + b == a;
    } else {
      assert (a + b)[..|a + b| - 1] == a + b[..|b| - 1];
      CoveredByConcat(a, b[..|b| - 1]);
    }
  }

  function VotesIn(entries: seq<Entry>): seq<AggregatedAttestation> {
    seq(|entries|, i requires 0 <= i < |entries| => entries[i].vote)
  }

  function ProofsIn(entries: seq<Entry>): seq<Proof> {
    seq(|entries|, i requires 0 <= i < |entries| => entries[i].proof)
  }

  /** Each entry is faithful to the data of one of the groups. */
  ghost predicate EntriesFrom(entries: seq<Entry>, groups: seq<AggregatedAttestation>) {
    forall i :: 0 <= i < |entries| ==>
      Faithful(entries[i], entries[i].vote.data) && exists g :: g in groups && g.data == entries[i].vote.data
  }

  /** The group is covered by the votes of the entries. */
  ghost predicate GroupCovered(entries: seq<Entry>, group: AggregatedAttestation) {
    forall id :: id in Members(group.bits) ==> Covers(VotesIn(entries), group.data, id)
  }

  lemma GroupCoveredByOwnEntries(before: seq<Entry>, own: seq<Entry>, group: AggregatedAttestation)
    requires AllFaithful(own, group.data) && Members(group.bits) <= CoveredBy(own)
    ensures GroupCovered(before + own, group)
  {
    hide Members, Canonical, CoveredBy;
    forall id | id in Members(group.bits) ensures Covers(VotesIn(before + own), group.data, id) {
      CoveredByExact(own, id);
      var i :| 0 <= i < |own| && id in Members(own[i].vote.bits);
      assert Faithful(own[i], group.data);
      assert VotesIn(before + own)[|before| + i] == own[i].vote;
    }
  }

  lemma GroupStaysCovered(before: seq<Entry>, more: seq<Entry>, group: AggregatedAttestation)
    requires GroupCovered(before, group)
    ensures GroupCovered(before + more, group)
  {
    forall id | id in Members(group.bits) ensures Covers(VotesIn(before + more), group.data, id) {
      var i :| 0 <= i < |VotesIn(before)| && VotesIn(before)[i].data == group.data && id in Members(VotesIn(before)[i].bits);
      assert VotesIn(before + more)[i] == VotesIn(before)[i];
    }
  }

  /** Two entries for one group are two votes with the same data. */
  lemma TwoEntriesRepeat(before: seq<Entry>, own: seq<Entry>, more: seq<Entry>, data: AttestationData)
    requires AllFaithful(own, data) && |own| >= 2
    ensures !DistinctData(VotesIn(before + own + more))
  {
    var votes := VotesIn(before + own + more);
    assert votes[|before|] == own[0].vote && votes[|before| + 1] == own[1].vote;
  }

  ghost predicate AllProvable(h: Hasher, gossip: GossipSignatures, payloads: Payloads, groups: seq<AggregatedAttestation>) {
    forall i :: 0 <= i < |groups| ==> GroupProvable(gossip, payloads, h.data(groups[i].data), Members(groups[i].bits))
  }

  ghost predicate AllFit(h: Hasher, gossip: GossipSignatures, payloads: Payloads, groups: seq<AggregatedAttestation>) {
    forall i :: 0 <= i < |groups| ==> GroupFits(h, gossip, payloads, groups[i])
  }

  ghost predicate SomeSplits(h: Hasher, gossip: GossipSignatures, payloads: Payloads, groups: seq<AggregatedAttestation>) {
    exists i :: 0 <= i < |groups| && Splits(gossip, payloads, h.data(groups[i].data), Members(groups[i].bits))
  }

  ghost predicate AllSingle(h: Hasher, gossip: GossipSignatures, payloads: Payloads, groups: seq<AggregatedAttestation>) {
    forall i :: 0 <= i < |groups| ==> Single(gossip, payloads, h.data(groups[i].data), Members(groups[i].bits))
  }

  /** No two entries have the same data, and all have the data of one of the first k groups. */
  ghost predicate DistinctFrom(entries: seq<Entry>, groups: seq<AggregatedAttestation>, k: nat) {
    && DistinctData(VotesIn(entries))
    && forall i :: 0 <= i < |entries| ==> exists j :: 0 <= j < k && j < |groups| && groups[j].data == entries[i].vote.data
  }

  lemma OneMoreIsDistinct(entries: seq<Entry>, own: seq<Entry>, groups: seq<AggregatedAttestation>, k: nat)
    requires k < |groups| && DistinctData(groups) && DistinctFrom(entries, groups, k)
    requires AllFaithful(own, groups[k].data) && |own| <= 1
    ensures DistinctFrom(entries + own, groups, k + 1)
  {
    hide Members, Canonical;
    var all := entries + own;
    forall i, j | 0 <= i < j < |all| ensures VotesIn(all)[i].data != VotesIn(all)[j].data {
      if j < |entries| {
        assert VotesIn(entries)[i].data != VotesIn(entries)[j].data;
      } else {
        assert Faithful(own[0], groups[k].data);
        assert all[i] == entries[i];
      }
    }
    forall i | 0 <= i < |all| ensures exists j :: 0 <= j < k + 1 && j < |groups| && groups[j].data == all[i].vote.data {
      if i < |entries| { assert all[i] == entries[i]; } else { assert Faithful(own[i - |entries|], groups[k].data); }
    }
  }

  lemma RegisteredConcat(a: seq<Entry>, b: seq<Entry>, validators: nat)
    requires AllRegistered(a, validators) && AllRegistered(b, validators)
    ensures AllRegistered(a + b, validators)
  {
    hide Members;
  }

  /** The loop over the data groups. */
  method CoverGroups(h: Hasher, validators: nat, groups: seq<AggregatedAttestation>, gossip: GossipSignatures,
                     payloads: Payloads, prover: Prover) returns (out: Outcome<seq<Entry>>)
    requires forall i :: 0 <= i < |groups| ==> Members(groups[i].bits) != {}
    ensures out.Ok? ==> AllSealable(h, validators, groups, gossip, prover)
    ensures AllSealable(h, validators, groups, gossip, prover) && (UsableProofs(payloads) || AllFit(h, gossip, payloads, groups)) ==> out.Ok?
    ensures out.Ok? ==> EntriesFrom(out.value, groups)
    ensures out.Ok? && AllFit(h, gossip, payloads, groups) ==> VotesIn(out.value) == groups
    ensures out.Ok? && AllProvable(h, gossip, payloads, groups) ==> forall i :: 0 <= i < |groups| ==> GroupCovered(out.value, groups[i])
    ensures out.Ok? && SomeSplits(h, gossip, payloads, groups) ==> !DistinctData(VotesIn(out.value))
    ensures out.Ok? && AllSingle(h, gossip, payloads, groups) && DistinctData(groups) ==> DistinctData(VotesIn(out.value))
    ensures out.Ok? && RegisteredProofs(payloads, validators) ==> AllRegistered(out.value, validators)
    ensures out.Ok? ==> AllGenuine(h, gossip, payloads, prover, out.value)
  {
    hide Members, Genuine, GroupCovered, Splits, GroupProvable, Faithful, DistinctData, CoveredBy, UsableProofs, Sealable, GroupFits,
         Single, RegisteredProofs, AllRegistered, DistinctFrom, VotesIn;
    ghost var single := AllSingle(h, gossip, payloads, groups) && DistinctData(groups);
    NoEntries(groups, validators);
    ghost var good := AllProvable(h, gossip, payloads, groups);
    var entries: seq<Entry> := [];
    for k := 0 to |groups|
      invariant EntriesFrom(entries, groups)
      invariant forall i :: 0 <= i < k ==> Sealable(h, validators, groups[i], gossip, prover)
      invariant AllFit(h, gossip, payloads, groups) ==> VotesIn(entries) == groups[..k]
      invariant good ==> forall i :: 0 <= i < k ==> GroupCovered(entries, groups[i])
      invariant SomeSplits(h, gossip, payloads, groups[..k]) ==> !DistinctData(VotesIn(entries))
      invariant single ==> DistinctFrom(entries, groups, k)
      invariant AllGenuine(h, gossip, payloads, prover, entries)
      invariant RegisteredProofs(payloads, validators) ==> AllRegistered(entries, validators)
    {
      var own := CoverGroup(h, validators, groups[k], gossip, payloads, prover);
      if own.IsFailure() { return own; }
      FaithfulFrom(entries, own.value, groups, k);
      VotesInConcat(entries, own.value);
      if good {
        GroupCoveredByOwnEntries(entries, own.value, groups[k]);
        forall i | 0 <= i < k ensures GroupCovered(entries + own.value, groups[i]) {
          GroupStaysCovered(entries, own.value, groups[i]);
        }
      }
      if SomeSplits(h, gossip, payloads, groups[..k + 1]) { RepeatStays(h, gossip, payloads, groups, k, entries, own.value); }
      if single { OneMoreIsDistinct(entries, own.value, groups, k); }
      if RegisteredProofs(payloads, validators) { RegisteredConcat(entries, own.value, validators); }
      assert groups[..k + 1] == groups[..k] + [groups[k]];
      entries := entries + own.value;
    }
    assert groups[..|groups|] == groups;
    out := Ok(entries);
    if single { assert DistinctData(VotesIn(entries)) by { DistinctFromIsDistinct(entries, groups); } }
  }

  lemma NoEntries(groups: seq<AggregatedAttestation>, validators: nat)
    ensures DistinctFrom([], groups, 0) && AllRegistered([], validators) && VotesIn([]) == []
  {
  }

  lemma DistinctFromIsDistinct(entries: seq<Entry>, groups: seq<AggregatedAttestation>)
    requires DistinctFrom(entries, groups, |groups|)
    ensures DistinctData(VotesIn(entries))
  {
  }

  lemma VotesInConcat(a: seq<Entry>, b: seq<Entry>)
    ensures VotesIn(a + b) == VotesIn(a) + VotesIn(b)
    ensures b == [] ==> VotesIn(a + b) == VotesIn(a)
  {
  }

  lemma FaithfulConcat(a: seq<Entry>, b: seq<Entry>, data: AttestationData)
    requires AllFaithful(a, data) && AllFaithful(b, data)
    ensures AllFaithful(a + b, data)
  {
    hide Faithful;
  }

  lemma FaithfulFrom(entries: seq<Entry>, own: seq<Entry>, groups: seq<AggregatedAttestation>, k: nat)
    requires EntriesFrom(entries, groups) && k < |groups| && AllFaithful(own, groups[k].data)
    ensures EntriesFrom(entries + own, groups)
  {
    hide Members;
    forall i | 0 <= i < |entries + own|
      ensures Faithful((entries + own)[i], (entries + own)[i].vote.data)
      ensures exists g :: g in groups && g.data == (entries + own)[i].vote.data
    {
      if i >= |entries| {
        assert (entries + own)[i] == own[i - |entries|];
        assert groups[k] in groups;
      }
    }
  }

  lemma RepeatStays(h: Hasher, gossip: GossipSignatures, payloads: Payloads, groups: seq<AggregatedAttestation>, k: nat,
                    entries: seq<Entry>, own: seq<Entry>)
    requires k < |groups| && SomeSplits(h, gossip, payloads, groups[..k + 1]) && AllFaithful(own, groups[k].data)
    requires SomeSplits(h, gossip, payloads, groups[..k]) ==> !DistinctData(VotesIn(entries))
    requires Splits(gossip, payloads, h.data(groups[k].data), Members(groups[k].bits)) ==> |own| >= 2
    ensures !DistinctData(VotesIn(entries + own))
  {
    hide Members, Splits;
    var i :| 0 <= i < |groups[..k + 1]| && Splits(gossip, payloads, h.data(groups[..k + 1][i].data), Members(groups[..k + 1][i].bits));
    if i == k {
      TwoEntriesRepeat(entries, own, [], groups[k].data);
      assert entries + own + [] == entries + own;
    } else {
      assert groups[..k][i] == groups[..k + 1][i];
      var a, b :| 0 <= a < b < |VotesIn(entries)| && VotesIn(entries)[a].data == VotesIn(entries)[b].data;
      var votes := VotesIn(entries + own);
      assert votes[a] == VotesIn(entries)[a] && votes[b] == VotesIn(entries)[b];
    }
  }

  ghost predicate VotedFor(atts: seq<Attestation>, data: AttestationData) {
    exists a :: a in atts && a.data == data
  }

  /** The voter of the attestation has a gossip signature or a proof that contains it. */
  ghost predicate Provable(h: Hasher, gossip: GossipSignatures, payloads: Payloads, a: Attestation) {
    SignatureKey(a.validatorId, h.data(a.data)) in gossip || SelfProved(payloads, a.validatorId, h.data(a.data))
  }

  ghost predicate HasSigned(h: Hasher, gossip: GossipSignatures, a: Attestation) {
    SignatureKey(a.validatorId, h.data(a.data)) in gossip
  }

  /** Votes and proofs match in number and participants, and the votes are for data of the list. */
  ghost predicate Matched(atts: seq<Attestation>, votes: seq<AggregatedAttestation>, proofs: seq<Proof>) {
    && |votes| == |proofs|
    && forall i :: 0 <= i < |votes| ==>
         Members(votes[i].bits) == Members(proofs[i].participants) != {} && VotedFor(atts, votes[i].data)
  }

  ghost predicate ByRegistered(votes: seq<AggregatedAttestation>, validators: nat) {
    forall i, v :: 0 <= i < |votes| && v in Members(votes[i].bits) ==> v < validators
  }

  /** Every vote comes with a genuine proof for its data. */
  ghost predicate GenuineProofs(h: Hasher, gossip: GossipSignatures, payloads: Payloads, prover: Prover,
                                votes: seq<AggregatedAttestation>, proofs: seq<Proof>)
  {
    |votes| == |proofs| && forall i :: 0 <= i < |votes| ==> Genuine(h.data(votes[i].data), gossip, payloads, prover, proofs[i])
  }

  lemma GenuineEntries(h: Hasher, gossip: GossipSignatures, payloads: Payloads, prover: Prover, entries: seq<Entry>)
    requires AllGenuine(h, gossip, payloads, prover, entries)
    ensures GenuineProofs(h, gossip, payloads, prover, VotesIn(entries), ProofsIn(entries))
  {
    hide Genuine;
  }

  lemma RegisteredVotes(entries: seq<Entry>, validators: nat)
    requires AllRegistered(entries, validators)
    ensures ByRegistered(VotesIn(entries), validators)
  {
    hide Members;
  }

  /** `compute_aggregated_signatures`. It succeeds only if the votes can be packed and every
      gossip phase sealed, and always then if the kept proofs are usable. On success every
      vote names exactly the participants of the proof at its position. If every voter has
      a signature or a proof that contains it, all are covered. A group that splits comes out
      as repeated data; if every group is single, no data is repeated. If every group fits,
      the votes come out as they were packed. */
  method ComputeAggregatedSignatures(h: Hasher, validators: nat, atts: seq<Attestation>, gossip: GossipSignatures,
                                     payloads: Payloads, prover: Prover)
    returns (out: Outcome<(seq<AggregatedAttestation>, seq<Proof>)>)
    ensures out.Ok? ==> AggregateByData(atts).Ok? && AllSealable(h, validators, AggregateByData(atts).value, gossip, prover)
    ensures AggregateByData(atts).Ok? && AllSealable(h, validators, AggregateByData(atts).value, gossip, prover) ==>
              (UsableProofs(payloads) || AllFit(h, gossip, payloads, AggregateByData(atts).value) ==> out.Ok?)
    ensures out.Ok? ==> Matched(atts, out.value.0, out.value.1)
    ensures out.Ok? ==> GenuineProofs(h, gossip, payloads, prover, out.value.0, out.value.1)
    ensures out.Ok? && RegisteredProofs(payloads, validators) ==> ByRegistered(out.value.0, validators)
    ensures out.Ok? && AllFit(h, gossip, payloads, AggregateByData(atts).value) ==> out.value.0 == AggregateByData(atts).value
    ensures out.Ok? && (forall a :: a in atts ==> Provable(h, gossip, payloads, a)) ==>
              forall a :: a in atts ==> Covers(out.value.0, a.data, a.validatorId)
    ensures out.Ok? && SomeSplits(h, gossip, payloads, AggregateByData(atts).value) ==> !DistinctData(out.value.0)
    ensures out.Ok? && AllSingle(h, gossip, payloads, AggregateByData(atts).value) ==> DistinctData(out.value.0)
  {
    hide Members, UsableProofs, AllSealable, SomeSplits, AllProvable, AllFit, Provable, RegisteredProofs, AllSingle, DistinctData, Covers,
         VotesIn, ProofsIn, EntriesFrom, AllRegistered, AllGenuine, GenuineProofs, Matched, ByRegistered, AggregateByData, GroupCovered;
    var groups := Aggregate(atts);
    if groups.IsFailure() { return groups.PropagateFailure(); }
    GroupsNonEmpty(atts);
    var covered := CoverGroups(h, validators, groups.value, gossip, payloads, prover);
    if covered.IsFailure() { return covered.PropagateFailure(); }
    var entries := covered.value;
    EntriesNameVotes(atts, entries);
    GenuineEntries(h, gossip, payloads, prover, entries);
    if RegisteredProofs(payloads, validators) { RegisteredVotes(entries, validators); }
    AggregationPreservesVotes(atts);
    if forall a :: a in atts ==> Provable(h, gossip, payloads, a) {
      GroupsAreProvable(h, gossip, payloads, atts);
      AllVotersCovered(atts, entries);
    }
    out := Ok((VotesIn(entries), ProofsIn(entries)));
  }

  lemma GroupsNonEmpty(atts: seq<Attestation>)
    requires AggregateByData(atts).Ok?
    ensures forall i :: 0 <= i < |AggregateByData(atts).value| ==> Members(AggregateByData(atts).value[i].bits) != {}
  {
    var groups := GroupByData(atts);
    GroupByDataPartitions(atts);
    PackKeepsGroups(groups);
    forall i | 0 <= i < |groups| ensures Members(AggregateByData(atts).value[i].bits) != {} {
      EmptyIffNoElements(groups[i].ids);
    }
  }

  /** The voters of a group are exactly the attestations with its data. */
  lemma VoterHasAttestation(atts: seq<Attestation>, i: nat, id: ValidatorId)
    requires AggregateByData(atts).Ok? && i < |AggregateByData(atts).value|
    ensures id in Members(AggregateByData(atts).value[i].bits) <==> Attestation(id, AggregateByData(atts).value[i].data) in atts
  {
    AggregationPreservesVotes(atts);
    var aggs := AggregateByData(atts).value;
    var data := aggs[i].data;
    if id in Members(aggs[i].bits) { assert Covers(aggs, data, id); }
    if Attestation(id, data) in atts {
      assert Covers(aggs, data, id);
      var j :| 0 <= j < |aggs| && aggs[j].data == data && id in Members(aggs[j].bits);
      assert i == j;
    }
  }

  lemma GroupOf(atts: seq<Attestation>, a: Attestation) returns (i: nat)
    requires AggregateByData(atts).Ok? && a in atts
    ensures i < |AggregateByData(atts).value| && AggregateByData(atts).value[i].data == a.data
    ensures a.validatorId in Members(AggregateByData(atts).value[i].bits)
  {
    AggregationPreservesVotes(atts);
    var aggs := AggregateByData(atts).value;
    assert Attestation(a.validatorId, a.data) == a;
    assert Covers(aggs, a.data, a.validatorId);
    i :| 0 <= i < |aggs| && aggs[i].data == a.data && a.validatorId in Members(aggs[i].bits);
  }

  lemma GroupNamedBy(entries: seq<Entry>, groups: seq<AggregatedAttestation>, i: nat) returns (j: nat)
    requires EntriesFrom(entries, groups) && i < |entries|
    ensures j < |groups| && groups[j].data == entries[i].vote.data
  {
    hide Members, Faithful;
    assert Faithful(entries[i], entries[i].vote.data);
    var g :| g in groups && g.data == entries[i].vote.data;
    j :| 0 <= j < |groups| && groups[j] == g;
  }

  lemma EntriesNameVotes(atts: seq<Attestation>, entries: seq<Entry>)
    requires AggregateByData(atts).Ok? && EntriesFrom(entries, AggregateByData(atts).value)
    ensures Matched(atts, VotesIn(entries), ProofsIn(entries))
  {
    hide Members;
    var groups := AggregateByData(atts).value;
    GroupsNonEmpty(atts);
    forall i | 0 <= i < |entries| ensures VotedFor(atts, VotesIn(entries)[i].data) {
      var j := GroupNamedBy(entries, groups, i);
      var id :| id in Members(groups[j].bits);
      VoterHasAttestation(atts, j, id);
      assert Attestation(id, groups[j].data).data == groups[j].data;
    }
  }

  lemma GroupsAreProvable(h: Hasher, gossip: GossipSignatures, payloads: Payloads, atts: seq<Attestation>)
    requires AggregateByData(atts).Ok? && forall a :: a in atts ==> Provable(h, gossip, payloads, a)
    ensures AllProvable(h, gossip, payloads, AggregateByData(atts).value)
  {
    hide Members, SelfProved;
    var groups := AggregateByData(atts).value;
    forall i, id | 0 <= i < |groups| && id in Members(groups[i].bits)
      ensures SignatureKey(id, h.data(groups[i].data)) in gossip || SelfProved(payloads, id, h.data(groups[i].data))
    {
      VoterHasAttestation(atts, i, id);
      assert Provable(h, gossip, payloads, Attestation(id, groups[i].data));
    }
  }

  /** If everyone has signed, every group fits. */
  lemma SignedGroupsFit(h: Hasher, gossip: GossipSignatures, payloads: Payloads, atts: seq<Attestation>)
    requires AggregateByData(atts).Ok? && forall a :: a in atts ==> HasSigned(h, gossip, a)
    ensures AllFit(h, gossip, payloads, AggregateByData(atts).value)
  {
    hide Members, Canonical, ExactProofs;
    var groups := AggregateByData(atts).value;
    AggregatesAreCanonical(atts);
    forall i | 0 <= i < |groups| ensures GroupFits(h, gossip, payloads, groups[i]) {
      forall id | id in Members(groups[i].bits) ensures SignatureKey(id, h.data(groups[i].data)) in gossip {
        VoterHasAttestation(atts, i, id);
        assert HasSigned(h, gossip, Attestation(id, groups[i].data));
      }
    }
  }

  lemma AllVotersCovered(atts: seq<Attestation>, entries: seq<Entry>)
    requires AggregateByData(atts).Ok?
    requires forall i :: 0 <= i < |AggregateByData(atts).value| ==> GroupCovered(entries, AggregateByData(atts).value[i])
    ensures forall a :: a in atts ==> Covers(VotesIn(entries), a.data, a.validatorId)
  {
    hide Members, Covers;
    forall a | a in atts ensures Covers(VotesIn(entries), a.data, a.validatorId) {
      var i := GroupOf(atts, a);
      assert GroupCovered(entries, AggregateByData(atts).value[i]);
    }
  }
}
