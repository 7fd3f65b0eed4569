/** Bit lists as sets of validators. */
module Bits {
  import opened Containers

  /** The positions of the set bits. */
  ghost function Members(bits: seq<bool>): set<nat> {
    set i: nat | i < |bits| && bits[i]
  }

  function Count(bits: seq<bool>): nat {
    if bits == [] then 0
    else Count(bits[..|bits| - 1]) + if bits[|bits| - 1] then 1 else 0
  }

  /** The positions of the set bits, in increasing order. */
  function Indices(bits: seq<bool>): seq<nat> {
    if bits == [] then []
    else Indices(bits[..|bits| - 1]) + if bits[|bits| - 1] then [|bits| - 1] else []
  }

  function Elements(s: seq<nat>): set<nat> {
    set x | x in s
  }

  ghost predicate StrictlyIncreasing(s: seq<nat>) {
    forall i, j :: 0 <= i < j < |s| ==> s[i] < s[j]
  }

  function Zeros(n: nat): (r: seq<bool>)
    ensures |r| == n && forall i :: 0 <= i < n ==> !r[i]
  {
    seq(n, _ => false)
  }

  lemma MembersOfPrefix(bits: seq<bool>)
    requires bits != []
    ensures Members(bits) == Members(bits[..|bits| - 1]) + if bits[|bits| - 1] then {|bits| - 1} else {}
  {
  }

  lemma {:induction false} CountIsCardinality(bits: seq<bool>)
    ensures Count(bits) == |Members(bits)|
  {
    if bits != [] {
      CountIsCardinality(bits[..|bits| - 1]);
      MembersOfPrefix(bits);
    }
  }

  lemma {:induction false} IndicesAreMembers(bits: seq<bool>)
    ensures Elements(Indices(bits)) == Members(bits)
    ensures StrictlyIncreasing(Indices(bits))
    ensures Indices(bits) == [] <==> Members(bits) == {}
  {
    if bits != [] {
      var init := bits[..|bits| - 1];
      IndicesAreMembers(init);
      MembersOfPrefix(bits);
      forall i | 0 <= i < |Indices(init)| ensures Indices(init)[i] < |init| {
        assert Indices(init)[i] in Elements(Indices(init));
      }
      assert Elements(Indices(bits)) == Members(bits);
      if Indices(bits) != [] { assert Indices(bits)[0] in Elements(Indices(bits)); }
    }
  }

  lemma EmptyIffNoElements(s: seq<nat>)
    ensures s == [] <==> Elements(s) == {}
  {
    if s != [] { assert s[0] in Elements(s); }
  }

  lemma IncreasingPrefix(s: seq<nat>)
    requires s != [] && StrictlyIncreasing(s)
    ensures StrictlyIncreasing(s[..|s| - 1])
    ensures s[|s| - 1] !in s[..|s| - 1]
    ensures Elements(s) == Elements(s[..|s| - 1]) + {s[|s| - 1]}
  {
    assert s == s[..|s| - 1] + [s[|s| - 1]];
  }

  /** The last of an increasing list is its greatest element. */
  lemma LastIsGreatest(s: seq<nat>, x: nat)
    requires s != [] && StrictlyIncreasing(s) && x in Elements(s)
    ensures x <= s[|s| - 1]
  {
  }

  /** There is only one increasing listing of a finite set of numbers. */
  lemma {:induction false} IncreasingListingUnique(a: seq<nat>, b: seq<nat>)
    requires StrictlyIncreasing(a) && StrictlyIncreasing(b)
    requires Elements(a) == Elements(b)
    ensures a == b
    decreases |a|
  {
    hide StrictlyIncreasing;
    EmptyIffNoElements(a);
    EmptyIffNoElements(b);
    if a != [] {
      var a', b', m, n := a[..|a| - 1], b[..|b| - 1], a[|a| - 1], b[|b| - 1];
      IncreasingPrefix(a);
      IncreasingPrefix(b);
      LastIsGreatest(a, n);
      LastIsGreatest(b, m);
      assert Elements(a') == Elements(a) - {m} == Elements(b');
      IncreasingListingUnique(a', b');
      assert a == a' + [m] && b == b' + [n];
    }
  }

  lemma CardinalityMonotone<T>(a: set<T>, b: set<T>)
    requires a <= b
    ensures |a| <= |b|
  {
    assert b == a + (b - a);
  }

  /** Numbers below n make a set of at most n elements. */
  lemma {:induction false} BoundedSetSize(s: set<nat>, n: nat)
    requires forall x :: x in s ==> x < n
    ensures |s| <= n
  {
    if n > 0 {
      BoundedSetSize(s - {n - 1}, n - 1);
    } else {
      assert s == {};
    }
  }

  /** `to_validator_indices`: asserts that some bit is set. */
  function ToValidatorIndices(bits: seq<bool>): Outcome<seq<ValidatorId>> {
    var ids := Indices(bits);
    if ids == [] then Panic(NoParticipants) else Ok(ids)
  }

  /** Set the bits of `ids` in `row` one by one, failing on the first id past its end. */
  function SetAll(row: seq<bool>, ids: seq<nat>): Outcome<seq<bool>>
    decreases |ids|
  {
    if ids == [] then Ok(row)
    else
      var r :- SetAll(row, ids[..|ids| - 1]);
      var id := ids[|ids| - 1];
      if id < |r| then Ok(r[id := true]) else Err(ValidatorOutOfRange)
  }

  lemma {:induction false} SetAllAddsMembers(row: seq<bool>, ids: seq<nat>)
    ensures SetAll(row, ids).Ok? <==> forall id :: id in ids ==> id < |row|
    ensures !SetAll(row, ids).Panic?
    ensures SetAll(row, ids).Err? ==> SetAll(row, ids).error == ValidatorOutOfRange
    ensures SetAll(row, ids).Ok? ==>
              && |SetAll(row, ids).value| == |row|
              && Members(SetAll(row, ids).value) == Members(row) + Elements(ids)
    decreases |ids|
  {
    if ids != [] {
      var init, id := ids[..|ids| - 1], ids[|ids| - 1];
      assert ids == init + [id];
      SetAllAddsMembers(row, init);
      assert id in ids && forall x :: x in init ==> x in ids;
      assert Elements(ids) == Elements(init) + {id};
      if SetAll(row, ids).Ok? {
        var r := SetAll(row, init).value;
        assert Members(r[id := true]) == Members(r) + {id};
      }
    }
  }
}
