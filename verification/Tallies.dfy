/** Pending vote tallies: a map from target root to one vote bit per validator, stored in
    the state as a sorted list of roots and the concatenation of their rows. */
module Tallies {
  import opened Containers
  import opened Bits

  type Tallies = map<Root, seq<bool>>

  /** Every non-empty finite set of roots has a greatest element. */
  lemma {:induction false} MaxExists(s: set<nat>)
    requires s != {}
    ensures exists m :: m in s && forall x :: x in s ==> x <= m
    decreases |s|
  {
    var x :| x in s;
    var rest := s - {x};
    assert forall y :: y in s ==> y == x || y in rest;
    if rest != {} {
      MaxExists(rest);
      var m :| m in rest && forall y :: y in rest ==> y <= m;
      var top := if m <= x then x else m;
      assert top in s && forall y :: y in s ==> y <= top;
    }
  }

  ghost function MaxOf(s: set<nat>): (m: nat)
    requires s != {}
    ensures m in s && forall x :: x in s ==> x <= m
  {
    MaxExists(s);
    var m :| m in s && forall x :: x in s ==> x <= m;
    m
  }

  /** The elements of a finite set of roots in increasing order (see `ListingIsSorted`). */
  ghost function Listing(keys: set<nat>): seq<nat>
    decreases |keys|
  {
    if keys == {} then [] else Listing(keys - {MaxOf(keys)}) + [MaxOf(keys)]
  }

  lemma {:induction false} ListingIsSorted(keys: set<nat>)
    ensures StrictlyIncreasing(Listing(keys)) && Elements(Listing(keys)) == keys
    decreases |keys|
  {
    hide StrictlyIncreasing, Elements, MaxOf;
    if keys == {} {
      NothingListed();
    } else {
      var m := MaxOf(keys);
      ListingIsSorted(keys - {m});
      ListingSnoc(Listing(keys - {m}), m);
      assert (keys - {m}) + {m} == keys;
    }
  }

  lemma NothingListed()
    ensures StrictlyIncreasing([]) && Elements([]) == {}
  {
  }

  lemma ListingSnoc(init: seq<nat>, m: nat)
    requires StrictlyIncreasing(init) && forall x :: x in Elements(init) ==> x < m
    ensures StrictlyIncreasing(init + [m])
    ensures Elements(init + [m]) == Elements(init) + {m}
  {
    var s := init + [m];
    forall i, j | 0 <= i < j < |s| ensures s[i] < s[j] {
      if j == |init| { assert init[i] in Elements(init); }
    }
  }

  lemma ListingCons(m: nat, rest: seq<nat>)
    requires StrictlyIncreasing(rest) && forall x :: x in Elements(rest) ==> m < x
    ensures StrictlyIncreasing([m] + rest)
    ensures Elements([m] + rest) == Elements(rest) + {m}
  {
    var s := [m] + rest;
    forall i, j | 0 <= i < j < |s| ensures s[i] < s[j] {
      if i == 0 { assert rest[j - 1] in Elements(rest); }
    }
  }

  /** Collect the keys of a tally map and sort them, greatest first. */
  method SortRoots(keys: set<Root>) returns (roots: seq<Root>)
    ensures roots == Listing(keys)
  {
    roots := [];
    var rest := keys;
    while rest != {}
      invariant StrictlyIncreasing(roots) && Elements(roots) + rest == keys
      invariant forall x, y :: x in rest && y in Elements(roots) ==> x < y
      decreases rest
    {
      MaxExists(rest);
      var m :| m in rest && forall x :: x in rest ==> x <= m;
      ListingCons(m, roots);
      roots, rest := [m] + roots, rest - {m};
    }
    ListingIsSorted(keys);
    IncreasingListingUnique(roots, Listing(keys));
  }

  /** Where row i starts: i * n, summed up so that no product has to be reasoned about. */
  function Offset(i: nat, n: nat): nat {
    if i == 0 then 0 else Offset(i - 1, n) + n
  }

  lemma {:induction false} OffsetIsProduct(i: nat, n: nat)
    ensures Offset(i, n) == i * n
  {
    if i > 0 {
      OffsetIsProduct(i - 1, n);
      assert i * n == (i - 1) * n + n;
    }
  }

  lemma {:induction false} OffsetMonotone(i: nat, j: nat, n: nat)
    requires i <= j
    ensures Offset(i, n) <= Offset(j, n)
    decreases j
  {
    if i < j { OffsetMonotone(i, j - 1, n); }
  }

  /** Row i of the flattened bits, as a slice that panics when it is out of bounds. */
  function Row(bits: seq<bool>, i: nat, n: nat): Outcome<seq<bool>> {
    if Offset(i, n) + n <= |bits| then Ok(bits[Offset(i, n)..Offset(i, n) + n])
    else Panic(TallyOutOfBounds)
  }

  /** Read the flattened tallies back into a map. */
  function Unflatten(roots: seq<Root>, bits: seq<bool>, n: nat): Outcome<Tallies>
    decreases |roots|
  {
    if roots == [] then Ok(map[])
    else
      var votes :- Unflatten(roots[..|roots| - 1], bits, n);
      var row :- Row(bits, |roots| - 1, n);
      Ok(votes[roots[|roots| - 1] := row])
  }

  /** Concatenate the rows of `votes` in the order of `roots`. */
  function Flatten(roots: seq<Root>, votes: Tallies): seq<bool>
    requires forall r :: r in roots ==> r in votes
  {
    if roots == [] then []
    else Flatten(roots[..|roots| - 1], votes) + votes[roots[|roots| - 1]]
  }

  /** The rows of all tallies in the order of their roots. */
  ghost function FlattenSorted(votes: Tallies): seq<bool> {
    ListingIsSorted(votes.Keys);
    assert forall r :: r in Listing(votes.Keys) ==> r in Elements(Listing(votes.Keys));
    Flatten(Listing(votes.Keys), votes)
  }

  ghost predicate RowsOf(votes: Tallies, n: nat) {
    forall r :: r in votes ==> |votes[r]| == n
  }

  lemma {:induction false} FlattenLength(roots: seq<Root>, votes: Tallies, n: nat)
    requires RowsOf(votes, n) && forall r :: r in roots ==> r in votes
    ensures |Flatten(roots, votes)| == Offset(|roots|, n)
  {
    if roots != [] { FlattenLength(roots[..|roots| - 1], votes, n); }
  }

  /** Rows past those of the listed roots do not matter to reading. */
  lemma {:induction false} UnflattenPrefix(roots: seq<Root>, bits: seq<bool>, more: seq<bool>, n: nat)
    requires Offset(|roots|, n) <= |bits|
    ensures Unflatten(roots, bits + more, n) == Unflatten(roots, bits, n)
    decreases |roots|
  {
    if roots != [] {
      var k := |roots| - 1;
      UnflattenPrefix(roots[..k], bits, more, n);
      var start := Offset(k, n);
      assert (bits + more)[start..start + n] == bits[start..start + n];
    }
  }

  lemma {:induction false} ReadBack(roots: seq<Root>, votes: Tallies, n: nat)
    requires StrictlyIncreasing(roots) && RowsOf(votes, n)
    requires forall r :: r in roots ==> r in votes
    ensures Unflatten(roots, Flatten(roots, votes), n).Ok?
    ensures var read := Unflatten(roots, Flatten(roots, votes), n).value;
            read.Keys == Elements(roots) && forall r :: r in roots ==> r in read && read[r] == votes[r]
    decreases |roots|
  {
    hide StrictlyIncreasing, Elements;
    assert Elements([]) == {} by { EmptyIffNoElements([]); }
    if roots != [] {
      var init, last := roots[..|roots| - 1], roots[|roots| - 1];
      IncreasingPrefix(roots);
      ReadBack(init, votes, n);
      FlattenLength(init, votes, n);
      var before, row := Flatten(init, votes), votes[last];
      UnflattenPrefix(init, before, row, n);
      assert (before + row)[|before|..|before| + n] == row;
      assert Unflatten(roots, before + row, n) == Ok(Unflatten(init, before, n).value[last := row]);
    }
  }

  /** What one block writes, the next block reads back as the same map. */
  lemma UnflattenInvertsFlatten(roots: seq<Root>, votes: Tallies, n: nat)
    requires StrictlyIncreasing(roots) && Elements(roots) == votes.Keys
    requires RowsOf(votes, n)
    ensures Unflatten(roots, Flatten(roots, votes), n) == Ok(votes)
    ensures |Flatten(roots, votes)| == |roots| * n
  {
    assert forall r :: r in roots <==> r in Elements(roots);
    FlattenLength(roots, votes, n);
    OffsetIsProduct(|roots|, n);
    ReadBack(roots, votes, n);
    assert Unflatten(roots, Flatten(roots, votes), n).value == votes;
  }

  lemma {:induction false} FlattenCongruent(roots: seq<Root>, a: Tallies, b: Tallies)
    requires forall r :: r in roots ==> r in a && r in b && a[r] == b[r]
    ensures Flatten(roots, a) == Flatten(roots, b)
  {
    if roots != [] { FlattenCongruent(roots[..|roots| - 1], a, b); }
  }

  /** Conversely every well-shaped pair of lists is the flattening of the map read from it. */
  lemma {:induction false} FlattenInvertsUnflatten(roots: seq<Root>, bits: seq<bool>, n: nat)
    requires StrictlyIncreasing(roots) && |bits| == Offset(|roots|, n)
    ensures Unflatten(roots, bits, n).Ok?
    ensures var votes := Unflatten(roots, bits, n).value;
            && RowsOf(votes, n) && votes.Keys == Elements(roots)
            && (forall r :: r in roots ==> r in votes) && Flatten(roots, votes) == bits
    decreases |roots|
  {
    hide StrictlyIncreasing, Elements;
    assert Elements([]) == {} by { EmptyIffNoElements([]); }
    if roots != [] {
      var k := |roots| - 1;
      var init, last := roots[..k], roots[k];
      IncreasingPrefix(roots);
      var before, row := bits[..Offset(k, n)], bits[Offset(k, n)..];
      assert bits == before + row;
      FlattenInvertsUnflatten(init, before, n);
      UnflattenPrefix(init, before, row, n);
      var votes := Unflatten(init, before, n).value;
      assert bits[Offset(k, n)..Offset(k, n) + n] == row;
      assert Unflatten(roots, bits, n) == Ok(votes[last := row]);
      FlattenCongruent(init, votes, votes[last := row]);
      assert (votes[last := row]).Keys == votes.Keys + {last};
    }
  }

  /** `get_justifications`: like `Unflatten`, but a missing bit reads as false. */
  function GetJustifications(roots: seq<Root>, bits: seq<bool>, n: nat): Tallies
    decreases |roots|
  {
    if roots == [] then map[]
    else
      GetJustifications(roots[..|roots| - 1], bits, n)
        [roots[|roots| - 1] := GetRow(bits, Offset(|roots| - 1, n), n)]
  }

  function GetRow(bits: seq<bool>, start: nat, n: nat): seq<bool> {
    seq(n, j requires 0 <= j => if start + j < |bits| then bits[start + j] else false)
  }

  lemma {:induction false} GetJustificationsIsUnflatten(roots: seq<Root>, bits: seq<bool>, n: nat)
    requires Offset(|roots|, n) <= |bits|
    ensures Unflatten(roots, bits, n) == Ok(GetJustifications(roots, bits, n))
    decreases |roots|
  {
    if roots != [] {
      var start := Offset(|roots| - 1, n);
      GetJustificationsIsUnflatten(roots[..|roots| - 1], bits, n);
      assert bits[start..start + n] == GetRow(bits, start, n);
    }
  }

  /** `with_justifications`: write a map into fresh lists, bit by bit. */
  method WithJustifications(votes: Tallies, n: nat) returns (roots: seq<Root>, bits: seq<bool>)
    requires RowsOf(votes, n)
    ensures roots == Listing(votes.Keys)
    ensures GetJustifications(roots, bits, n) == votes
    ensures |bits| == |roots| * n
  {
    roots := SortRoots(votes.Keys);
    ListingIsSorted(votes.Keys);
    assert forall r :: r in roots <==> r in Elements(roots);
    bits := WriteRows(roots, votes, n);
    UnflattenInvertsFlatten(roots, votes, n);
    OffsetIsProduct(|roots|, n);
    GetJustificationsIsUnflatten(roots, bits, n);
  }

  method WriteRows(roots: seq<Root>, votes: Tallies, n: nat) returns (bits: seq<bool>)
    requires RowsOf(votes, n) && forall r :: r in roots ==> r in votes
    ensures bits == Flatten(roots, votes)
  {
    var total := Offset(|roots|, n);
    bits := Zeros(total);
    for i := 0 to |roots|
      invariant |bits| == total && Offset(i, n) <= total
      invariant bits[..Offset(i, n)] == Flatten(roots[..i], votes)
      invariant forall k :: Offset(i, n) <= k < |bits| ==> !bits[k]
    {
      OffsetMonotone(i + 1, |roots|, n);
      bits := WriteRow(bits, Offset(i, n), votes[roots[i]]);
      assert roots[..i + 1][..i] == roots[..i];
    }
    assert roots[..|roots|] == roots && bits[..total] == bits;
  }

  /** Set the bits of one row, which starts out all false. */
  method WriteRow(bits: seq<bool>, base: nat, row: seq<bool>) returns (out: seq<bool>)
    requires base + |row| <= |bits|
    requires forall k :: base <= k < |bits| ==> !bits[k]
    ensures |out| == |bits|
    ensures out[..base + |row|] == bits[..base] + row
    ensures forall k :: base + |row| <= k < |bits| ==> !out[k]
  {
    out := bits;
    for j := 0 to |row|
      invariant |out| == |bits|
      invariant out[..base + j] == bits[..base] + row[..j]
      invariant forall k :: base + j <= k < |bits| ==> !out[k]
    {
      if row[j] { out := out[base + j := true]; }
      assert out[..base + j + 1] == out[..base + j] + [row[j]];
    }
    assert row[..|row|] == row;
  }
}
