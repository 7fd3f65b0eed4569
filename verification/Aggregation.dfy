/** Grouping votes by their data and packing the voters of a group into a bit list. */
module Aggregation {
  import opened Containers
  import opened Bits

  const VALIDATOR_LIMIT: nat := 4096

  function Max(ids: seq<nat>): nat
    requires ids != []
  {
    if |ids| == 1 then ids[0]
    else
      var m := Max(ids[..|ids| - 1]);
      if m <= ids[|ids| - 1] then ids[|ids| - 1] else m
  }

  lemma {:induction false} MaxIsGreatest(ids: seq<nat>)
    requires ids != []
    ensures Max(ids) in ids && forall id :: id in ids ==> id <= Max(ids)
  {
    if |ids| > 1 {
      var init, last := ids[..|ids| - 1], ids[|ids| - 1];
      MaxIsGreatest(init);
      assert ids == init + [last];
    }
  }

  /** `from_validator_indices`: the shortest bit list that has a bit for every id. */
  function FromValidatorIndices(ids: seq<ValidatorId>): Outcome<seq<bool>> {
    if ids == [] then Panic(NoParticipants)
    else if Max(ids) >= VALIDATOR_LIMIT then Panic(IndexLimit)
    else SetAll(Zeros(Max(ids) + 1), ids)
  }

  method PackIndices(ids: seq<ValidatorId>) returns (out: Outcome<seq<bool>>)
    ensures out == FromValidatorIndices(ids)
  {
    if ids == [] { return Panic(NoParticipants); }
    var maxId := ids[0];
    assert ids[..1] == [ids[0]];
    for i := 1 to |ids|
      invariant maxId == Max(ids[..i])
    {
      assert ids[..i + 1][..i] == ids[..i];
      if maxId <= ids[i] { maxId := ids[i]; }
    }
    assert ids[..|ids|] == ids;
    if maxId >= VALIDATOR_LIMIT { return Panic(IndexLimit); }
    MaxIsGreatest(ids);
    var bits := Zeros(maxId + 1);
    for i := 0 to |ids|
      invariant |bits| == maxId + 1
      invariant SetAll(Zeros(maxId + 1), ids[..i]) == Ok(bits)
    {
      assert ids[..i + 1][..i] == ids[..i];
      assert ids[i] in ids;
      bits := bits[ids[i] := true];
    }
    out := Ok(bits);
  }

  /** Packing succeeds exactly on non-empty lists of ids below the limit, keeps every id
      and adds none, and reading the bits back gives the ids sorted without repeats. */
  lemma PackRoundTrip(ids: seq<ValidatorId>)
    ensures FromValidatorIndices(ids).Ok? <==> ids != [] && forall id :: id in ids ==> id < 4096
    ensures !FromValidatorIndices(ids).Err?
    ensures FromValidatorIndices(ids).Ok? ==>
              var bits := FromValidatorIndices(ids).value;
              && Members(bits) == Elements(ids)
              && ToValidatorIndices(bits) == Ok(Indices(bits))
              && StrictlyIncreasing(Indices(bits)) && Elements(Indices(bits)) == Elements(ids)
  {
    if ids != [] {
      MaxIsGreatest(ids);
      var zeros := Zeros(Max(ids) + 1);
      SetAllAddsMembers(zeros, ids);
      assert Members(zeros) == {};
      if FromValidatorIndices(ids).Ok? {
        var bits := FromValidatorIndices(ids).value;
        assert Members(bits) == Elements(ids);
        IndicesAreMembers(bits);
        assert ids[0] in Members(bits);
      }
    }
  }

  /** The bits are the ones that packing their own members gives. */
  ghost predicate Canonical(bits: seq<bool>) {
    FromValidatorIndices(Indices(bits)) == Ok(bits)
  }

  /** Bit lists of the same length and with the same members are the same. */
  lemma SameMembersSameBits(a: seq<bool>, b: seq<bool>)
    requires |a| == |b| && Members(a) == Members(b)
    ensures a == b
  {
    forall i | 0 <= i < |a| ensures a[i] == b[i] {
      assert i in Members(a) <==> a[i];
      assert i in Members(b) <==> b[i];
    }
  }

  lemma PackedLength(ids: seq<ValidatorId>)
    requires FromValidatorIndices(ids).Ok?
    ensures ids != [] && |FromValidatorIndices(ids).value| == Max(ids) + 1
  {
    SetAllAddsMembers(Zeros(Max(ids) + 1), ids);
  }

  /** Packing, reading back and packing again gives the same bits. */
  lemma PackedIsCanonical(ids: seq<ValidatorId>)
    requires FromValidatorIndices(ids).Ok?
    ensures Canonical(FromValidatorIndices(ids).value)
  {
    hide Members, Max;
    var bits := FromValidatorIndices(ids).value;
    var again := Indices(bits);
    PackRoundTrip(ids);
    IndicesAreMembers(bits);
    assert forall id :: id in again <==> id in Elements(again);
    assert forall id :: id in ids <==> id in Elements(ids);
    EmptyIffNoElements(again);
    EmptyIffNoElements(ids);
    PackRoundTrip(again);
    PackedLength(ids);
    PackedLength(again);
    MaxIsGreatest(ids);
    MaxIsGreatest(again);
    SameMembersSameBits(FromValidatorIndices(again).value, bits);
  }

  /** There is only one canonical bit list for a set of ids. */
  lemma CanonicalUnique(a: seq<bool>, b: seq<bool>)
    requires Canonical(a) && Canonical(b) && Members(a) == Members(b)
    ensures a == b
  {
    hide Members, FromValidatorIndices;
    IndicesAreMembers(a);
    IndicesAreMembers(b);
    IncreasingListingUnique(Indices(a), Indices(b));
  }

  datatype Group = Group(data: AttestationData, ids: seq<ValidatorId>)

  /** The position of the group for `data`, or the number of groups. */
  function FindGroup(groups: seq<Group>, data: AttestationData): (i: nat)
    ensures i <= |groups|
    ensures i < |groups| ==> groups[i].data == data
    ensures forall j :: 0 <= j < i ==> groups[j].data != data
  {
    if groups == [] then 0
    else if groups[0].data == data then 0
    else 1 + FindGroup(groups[1..], data)
  }

  function AddVote(groups: seq<Group>, a: Attestation): seq<Group> {
    var i := FindGroup(groups, a.data);
    if i < |groups| then groups[i := Group(a.data, groups[i].ids + [a.validatorId])]
    else groups + [Group(a.data, [a.validatorId])]
  }

  function GroupByData(atts: seq<Attestation>): seq<Group> {
    if atts == [] then []
    else AddVote(GroupByData(atts[..|atts| - 1]), atts[|atts| - 1])
  }

  function Pack(groups: seq<Group>): Outcome<seq<AggregatedAttestation>>
    decreases |groups|
  {
    if groups == [] then Ok([])
    else
      var init :- Pack(groups[..|groups| - 1]);
      var g := groups[|groups| - 1];
      var bits :- FromValidatorIndices(g.ids);
      Ok(init + [AggregatedAttestation(bits, g.data)])
  }

  /** `aggregate_by_data` as a function. */
  function AggregateByData(atts: seq<Attestation>): Outcome<seq<AggregatedAttestation>> {
    Pack(GroupByData(atts))
  }

  /** `aggregate_by_data`: two loops, one that fills the groups and one that packs them. */
  method Aggregate(atts: seq<Attestation>) returns (out: Outcome<seq<AggregatedAttestation>>)
    ensures out == AggregateByData(atts)
  {
    var groups := CollectGroups(atts);
    out := PackGroups(groups);
  }

  method CollectGroups(atts: seq<Attestation>) returns (groups: seq<Group>)
    ensures groups == GroupByData(atts)
  {
    groups := [];
    for k := 0 to |atts|
      invariant groups == GroupByData(atts[..k])
    {
      assert atts[..k + 1][..k] == atts[..k];
      var a := atts[k];
      var i := 0;
      while i < |groups| && groups[i].data != a.data
        invariant i <= |groups|
        invariant forall j :: 0 <= j < i ==> groups[j].data != a.data
      {
        i := i + 1;
      }
      if i < |groups| {
        groups := groups[i := Group(a.data, groups[i].ids + [a.validatorId])];
      } else {
        groups := groups + [Group(a.data, [a.validatorId])];
      }
    }
    assert atts[..|atts|] == atts;
  }

  method PackGroups(groups: seq<Group>) returns (out: Outcome<seq<AggregatedAttestation>>)
    ensures out == Pack(groups)
  {
    var packed := [];
    for k := 0 to |groups|
      invariant Pack(groups[..k]) == Ok(packed)
    {
      assert groups[..k + 1][..k] == groups[..k];
      var bits := PackIndices(groups[k].ids);
      if bits.IsFailure() {
        PackStopsEarly(groups, k + 1);
        return bits.PropagateFailure();
      }
      packed := packed + [AggregatedAttestation(bits.value, groups[k].data)];
    }
    assert groups[..|groups|] == groups;
    out := Ok(packed);
  }

  lemma {:induction false} PackStopsEarly(groups: seq<Group>, k: nat)
    requires k <= |groups| && !Pack(groups[..k]).Ok?
    ensures Pack(groups) == Pack(groups[..k])
    decreases |groups|
  {
    if k == |groups| {
      assert groups[..k] == groups;
    } else {
      assert groups[..|groups| - 1][..k] == groups[..k];
      PackStopsEarly(groups[..|groups| - 1], k);
    }
  }

  /** The validators that cast `data`, in the order of the list and with repeats. */
  ghost function VotersFor(atts: seq<Attestation>, data: AttestationData): seq<ValidatorId> {
    if atts == [] then []
    else
      var a := atts[|atts| - 1];
      VotersFor(atts[..|atts| - 1], data) + if a.data == data then [a.validatorId] else []
  }

  lemma {:induction false} VotersForExact(atts: seq<Attestation>, data: AttestationData, id: ValidatorId)
    ensures id in VotersFor(atts, data) <==> Attestation(id, data) in atts
    decreases |atts|
  {
    if atts != [] {
      VotersForExact(atts[..|atts| - 1], data, id);
      assert atts == atts[..|atts| - 1] + [atts[|atts| - 1]];
    }
  }

  /** Every group holds exactly the voters for its data, no two groups share their data,
      and every attestation has a group. */
  ghost predicate Partitions(groups: seq<Group>, atts: seq<Attestation>) {
    && (forall i :: 0 <= i < |groups| ==> groups[i].ids == VotersFor(atts, groups[i].data))
    && (forall i, j :: 0 <= i < j < |groups| ==> groups[i].data != groups[j].data)
    && (forall a :: a in atts ==> FindGroup(groups, a.data) < |groups|)
    && (forall i :: 0 <= i < |groups| ==> groups[i].ids != [])
  }

  lemma FindGroupFinds(groups: seq<Group>, data: AttestationData, i: nat)
    requires i < |groups| && groups[i].data == data
    ensures FindGroup(groups, data) < |groups|
  {
  }

  lemma {:induction false} GroupByDataPartitions(atts: seq<Attestation>)
    ensures Partitions(GroupByData(atts), atts)
  {
    if atts != [] {
      var init, a := atts[..|atts| - 1], atts[|atts| - 1];
      GroupByDataPartitions(init);
      AddVotePartitions(GroupByData(init), init, a);
      assert atts == init + [a];
    }
  }

  lemma NoVotersWithoutGroup(groups: seq<Group>, atts: seq<Attestation>, data: AttestationData)
    requires Partitions(groups, atts) && FindGroup(groups, data) == |groups|
    ensures VotersFor(atts, data) == []
  {
    if VotersFor(atts, data) != [] {
      var id := VotersFor(atts, data)[0];
      VotersForExact(atts, data, id);
      assert false;
    }
  }

  lemma VotersForSnoc(atts: seq<Attestation>, a: Attestation, data: AttestationData)
    ensures VotersFor(atts + [a], data) == VotersFor(atts, data) + if a.data == data then [a.validatorId] else []
  {
    assert (atts + [a])[..|atts|] == atts;
  }

  lemma AddVotePartitions(groups: seq<Group>, atts: seq<Attestation>, a: Attestation)
    requires Partitions(groups, atts)
    ensures Partitions(AddVote(groups, a), atts + [a])
  {
    hide VotersFor, FindGroup;
    var i := FindGroup(groups, a.data);
    var after, all := AddVote(groups, a), atts + [a];
    if i == |groups| { NoVotersWithoutGroup(groups, atts, a.data); }
    forall k | 0 <= k < |after| ensures after[k].ids == VotersFor(all, after[k].data) {
      VotersForSnoc(atts, a, after[k].data);
    }
    forall b | b in all ensures FindGroup(after, b.data) < |after| {
      FindGroupFinds(after, b.data, if b.data == a.data then i else FindGroup(groups, b.data));
    }
  }

  lemma {:induction false} PackKeepsGroups(groups: seq<Group>)
    requires forall i :: 0 <= i < |groups| ==> groups[i].ids != []
    ensures Pack(groups).Ok? <==> forall i, id :: 0 <= i < |groups| && id in groups[i].ids ==> id < VALIDATOR_LIMIT
    ensures Pack(groups).Ok? ==>
              var aggs := Pack(groups).value;
              |aggs| == |groups| &&
              forall i :: 0 <= i < |groups| ==>
                aggs[i].data == groups[i].data && Members(aggs[i].bits) == Elements(groups[i].ids)
    decreases |groups|
  {
    if groups != [] {
      PackKeepsGroups(groups[..|groups| - 1]);
      PackRoundTrip(groups[|groups| - 1].ids);
    }
  }

  lemma {:induction false} PackIsCanonical(groups: seq<Group>)
    requires Pack(groups).Ok?
    ensures forall i :: 0 <= i < |Pack(groups).value| ==> Canonical(Pack(groups).value[i].bits)
    decreases |groups|
  {
    hide Canonical;
    if groups != [] {
      PackIsCanonical(groups[..|groups| - 1]);
      PackedIsCanonical(groups[|groups| - 1].ids);
    }
  }

  lemma AggregatesAreCanonical(atts: seq<Attestation>)
    requires AggregateByData(atts).Ok?
    ensures forall i :: 0 <= i < |AggregateByData(atts).value| ==> Canonical(AggregateByData(atts).value[i].bits)
  {
    PackIsCanonical(GroupByData(atts));
  }

  /** Whether some aggregate for `data` has the bit of `id` set. */
  ghost predicate Covers(aggs: seq<AggregatedAttestation>, data: AttestationData, id: ValidatorId) {
    exists i :: 0 <= i < |aggs| && aggs[i].data == data && id in Members(aggs[i].bits)
  }

  ghost predicate DistinctData(aggs: seq<AggregatedAttestation>) {
    forall i, j :: 0 <= i < j < |aggs| ==> aggs[i].data != aggs[j].data
  }

  /** Aggregation loses no vote, invents none and never splits a group; it completes
      exactly when every voter id fits the bit list. */
  lemma AggregationPreservesVotes(atts: seq<Attestation>)
    ensures AggregateByData(atts).Ok? <==> forall a :: a in atts ==> a.validatorId < VALIDATOR_LIMIT
    ensures AggregateByData(atts).Ok? ==>
              var aggs := AggregateByData(atts).value;
              && DistinctData(aggs)
              && forall data, id :: Covers(aggs, data, id) <==> Attestation(id, data) in atts
  {
    var groups := GroupByData(atts);
    GroupByDataPartitions(atts);
    PackKeepsGroups(groups);
    forall a | a in atts ensures a.validatorId in groups[FindGroup(groups, a.data)].ids {
      VotersForExact(atts, a.data, a.validatorId);
    }
    forall i, id | 0 <= i < |groups| && id in groups[i].ids ensures Attestation(id, groups[i].data) in atts {
      VotersForExact(atts, groups[i].data, id);
    }
    if AggregateByData(atts).Ok? {
      var aggs := AggregateByData(atts).value;
      forall data, id | Attestation(id, data) in atts ensures Covers(aggs, data, id) {
        var a := Attestation(id, data);
        var i := FindGroup(groups, a.data);
        assert aggs[i].data == data && id in Members(aggs[i].bits);
      }
    }
  }

  /** The first vote for `data` is at position n. */
  ghost predicate IsFirst(atts: seq<Attestation>, data: AttestationData, n: nat) {
    n < |atts| && atts[n].data == data && forall m :: 0 <= m < n ==> atts[m].data != data
  }

  lemma {:induction false} GroupsInOrder(atts: seq<Attestation>, i: nat, j: nat, m: nat, n: nat)
    requires i < j < |GroupByData(atts)|
    requires IsFirst(atts, GroupByData(atts)[i].data, m) && IsFirst(atts, GroupByData(atts)[j].data, n)
    ensures m < n
    decreases |atts|
  {
    var init, a := atts[..|atts| - 1], atts[|atts| - 1];
    var before := GroupByData(init);
    GroupByDataPartitions(init);
    GroupWasCast(init, i);
    assert m < |init|;
    if j < |before| {
      GroupWasCast(init, j);
      assert n < |init|;
      GroupsInOrder(init, i, j, m, n);
    }
  }

  lemma GroupWasCast(atts: seq<Attestation>, i: nat)
    requires i < |GroupByData(atts)|
    ensures exists k :: 0 <= k < |atts| && atts[k].data == GroupByData(atts)[i].data
  {
    GroupByDataPartitions(atts);
    var group := GroupByData(atts)[i];
    VotersForExact(atts, group.data, group.ids[0]);
  }

  /** The aggregates come in the order in which their data was first cast. */
  lemma AggregatesInOrder(atts: seq<Attestation>, i: nat, j: nat, m: nat, n: nat)
    requires AggregateByData(atts).Ok? && i < j < |AggregateByData(atts).value|
    requires IsFirst(atts, AggregateByData(atts).value[i].data, m) && IsFirst(atts, AggregateByData(atts).value[j].data, n)
    ensures m < n
  {
    GroupByDataPartitions(atts);
    PackKeepsGroups(GroupByData(atts));
    GroupsInOrder(atts, i, j, m, n);
  }

  /** `has_duplicate_data` compares hash tree roots. */
  predicate HasDuplicateData(h: Hasher, aggs: seq<AggregatedAttestation>) {
    exists i, j :: 0 <= i < j < |aggs| && h.data(aggs[i].data) == h.data(aggs[j].data)
  }

  method FindDuplicateData(h: Hasher, aggs: seq<AggregatedAttestation>) returns (found: bool)
    ensures found == HasDuplicateData(h, aggs)
    ensures found <==> exists i, j :: 0 <= i < j < |aggs| && h.data(aggs[i].data) == h.data(aggs[j].data)
  {
    var seen: set<Root> := {};
    for k := 0 to |aggs|
      invariant forall r :: r in seen <==> exists i :: 0 <= i < k && h.data(aggs[i].data) == r
      invariant !HasDuplicateData(h, aggs[..k])
    {
      var root := h.data(aggs[k].data);
      if root in seen {
        return true;
      }
      seen := seen + {root};
    }
    assert aggs[..|aggs|] == aggs;
    found := false;
  }

  ghost predicate CollisionFree(h: Hasher, aggs: seq<AggregatedAttestation>) {
    forall i, j :: 0 <= i < j < |aggs| && h.data(aggs[i].data) == h.data(aggs[j].data) ==> aggs[i].data == aggs[j].data
  }

  /** What aggregation produces passes the duplicate check, unless two different votes collide. */
  lemma AggregatesHaveNoDuplicates(h: Hasher, atts: seq<Attestation>)
    requires AggregateByData(atts).Ok? && CollisionFree(h, AggregateByData(atts).value)
    ensures !HasDuplicateData(h, AggregateByData(atts).value)
  {
    AggregationPreservesVotes(atts);
  }
}
