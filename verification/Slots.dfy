/** Slot arithmetic: which slots may be justified, given the last finalized one. */
module Slots {
  import opened Containers

  /** n * n, as the sum of the first n odd numbers: the many proofs that only pass through
      the justifiability test are then free of products (see `SqIsSquare`). */
  function Sq(n: nat): nat {
    if n == 0 then 0 else Sq(n - 1) + 2 * n - 1
  }

  lemma {:induction false} SqIsSquare(n: nat)
    ensures Sq(n) == n * n
  {
    if n > 0 {
      SqIsSquare(n - 1);
      assert n * n == (n - 1) * (n - 1) + 2 * n - 1;
    }
  }

  /** `(x as f64).sqrt() as u64`, over unbounded naturals. */
  function Isqrt(n: nat): nat {
    if n == 0 then 0
    else
      var r := Isqrt(n - 1);
      if Sq(r + 1) <= n then r + 1 else r
  }

  lemma {:induction false} IsqrtBounds(n: nat)
    ensures Isqrt(n) * Isqrt(n) <= n < (Isqrt(n) + 1) * (Isqrt(n) + 1)
  {
    if n > 0 {
      IsqrtBounds(n - 1);
      var r := Isqrt(n - 1);
      SqIsSquare(r + 1);
      assert (r + 2) * (r + 2) == (r + 1) * (r + 1) + 2 * r + 3;
    }
  }

  /** The test that `is_justifiable_after` applies to the distance from finality. */
  predicate JustifiableDistance(delta: nat) {
    var root := Isqrt(delta);
    var test := 4 * delta + 1;
    var testRoot := Isqrt(test);
    delta <= 5 || Sq(root) == delta || (Sq(testRoot) == test && testRoot % 2 == 1)
  }

  /** `is_justifiable_after`, whose assertion rejects slots before finality. */
  function IsJustifiableAfter(slot: Slot, finalized: Slot): Outcome<bool> {
    if slot < finalized then Panic(BeforeFinalized) else Ok(JustifiableDistance(slot - finalized))
  }

  /** `justified_index_after`: the position in the window, if the slot is after finality. */
  function JustifiedIndexAfter(slot: Slot, finalized: Slot): int {
    slot - (finalized + 1)
  }

  predicate JustifiableAfter(slot: Slot, finalized: Slot) {
    slot >= finalized && JustifiableDistance(slot - finalized)
  }

  function Square(n: nat): nat { n * n }

  function Pronic(n: nat): nat { n * (n + 1) }

  lemma SquareMonotone(a: nat, b: nat)
    requires a <= b
    ensures a * a <= b * b
  {
    assert b * b - a * a == (b - a) * (b + a);
  }

  lemma IsqrtUnique(n: nat, r: nat)
    requires r * r <= n < (r + 1) * (r + 1)
    ensures Isqrt(n) == r
  {
    var q := Isqrt(n);
    IsqrtBounds(n);
    if q < r { SquareMonotone(q + 1, r); }
    if r < q { SquareMonotone(r + 1, q); }
  }

  lemma IsqrtOfSquare(n: nat)
    ensures Isqrt(n * n) == n
  {
    IsqrtUnique(n * n, n);
  }

  lemma SquareIsJustifiable(n: nat)
    ensures JustifiableDistance(Square(n))
  {
    hide Isqrt, Sq;
    IsqrtOfSquare(n);
    SqIsSquare(n);
  }

  lemma OddSquare(n: nat)
    ensures (2 * n + 1) * (2 * n + 1) == 4 * Pronic(n) + 1
  {
  }

  lemma PronicIsJustifiable(n: nat)
    ensures JustifiableDistance(Pronic(n))
  {
    hide Isqrt, Sq, Pronic;
    var m := 2 * n + 1;
    OddSquare(n);
    IsqrtOfSquare(m);
    SqIsSquare(m);
    var test := 4 * Pronic(n) + 1;
    assert Isqrt(test) == m && Sq(m) == test && m % 2 == 1;
  }

  lemma OddSquareIsPronic(delta: nat, testRoot: nat)
    requires testRoot * testRoot == 4 * delta + 1 && testRoot % 2 == 1
    ensures delta == Pronic(testRoot / 2)
  {
    var n := testRoot / 2;
    assert testRoot == 2 * n + 1;
    OddSquare(n);
  }

  lemma AcceptedDistances(delta: nat)
    requires JustifiableDistance(delta) && delta > 5
    ensures delta == Square(Isqrt(delta)) || delta == Pronic(Isqrt(4 * delta + 1) / 2)
  {
    hide Isqrt, Sq, Pronic;
    SqIsSquare(Isqrt(delta));
    var testRoot := Isqrt(4 * delta + 1);
    SqIsSquare(testRoot);
    if Sq(testRoot) == 4 * delta + 1 && testRoot % 2 == 1 { OddSquareIsPronic(delta, testRoot); }
  }

  /** The floating-point test accepts exactly the distances that the 3SF-mini rule names. */
  lemma JustifiableDistanceExact(delta: nat)
    ensures JustifiableDistance(delta) <==>
            delta <= 5 || (exists n :: delta == Square(n)) || (exists n :: delta == Pronic(n))
  {
    hide Isqrt, Sq, Pronic, Square;
    if JustifiableDistance(delta) && delta > 5 { AcceptedDistances(delta); }
    if exists n :: delta == Square(n) {
      var n :| delta == Square(n);
      SquareIsJustifiable(n);
    }
    if exists n :: delta == Pronic(n) {
      var n :| delta == Pronic(n);
      PronicIsJustifiable(n);
    }
  }

  lemma NextCandidate(delta: nat, q: nat)
    requires q * q <= delta < (q + 1) * (q + 1)
    ensures delta < Pronic(q) ==> Pronic(q) <= delta + q + 1
    ensures Pronic(q) <= delta ==> delta < Square(q + 1) <= delta + q + 1
  {
    assert (q + 1) * (q + 1) == q * q + 2 * q + 1 && Pronic(q) == q * q + q;
  }

  /** However long finality stalls, the wait for the next justifiable slot is at most
      one more than the square root of the distance already covered. */
  lemma NextJustifiableIsNear(delta: nat) returns (next: nat)
    ensures delta < next <= delta + Isqrt(delta) + 1
    ensures JustifiableDistance(next)
  {
    hide Isqrt, JustifiableDistance, Pronic, Square;
    var q := Isqrt(delta);
    IsqrtBounds(delta);
    NextCandidate(delta, q);
    if delta < Pronic(q) {
      next := Pronic(q);
      PronicIsJustifiable(q);
    } else {
      next := Square(q + 1);
      SquareIsJustifiable(q + 1);
    }
  }

  /** From distance 9 on the accepted distances are n*n, n*(n+1), (n+1)*(n+1), ... with
      nothing accepted in between, so the bound of `NextJustifiableIsNear` is met. */
  lemma NothingBetweenSquareAndPronic(n: nat, delta: nat)
    requires n >= 3
    requires Square(n) < delta < Pronic(n) || Pronic(n) < delta < Square(n + 1)
    ensures !JustifiableDistance(delta)
  {
    assert Pronic(n) == Square(n) + n && Square(n + 1) == Square(n) + 2 * n + 1;
    assert delta > 5 by { SquareMonotone(3, n); }
    assert forall m :: delta != Square(m) by {
      forall m ensures delta != Square(m) { NotSquare(n, delta, m); }
    }
    assert forall m :: delta != Pronic(m) by {
      forall m ensures delta != Pronic(m) { NotPronic(n, delta, m); }
    }
    JustifiableDistanceExact(delta);
  }

  lemma NotSquare(n: nat, delta: nat, m: nat)
    requires Square(n) < delta < Square(n + 1)
    ensures delta != Square(m)
  {
    if m <= n { SquareMonotone(m, n); } else { SquareMonotone(n + 1, m); }
  }

  lemma PronicMonotone(a: nat, b: nat)
    requires a <= b
    ensures Pronic(a) <= Pronic(b)
  {
    SquareMonotone(a, b);
    assert Pronic(a) == a * a + a && Pronic(b) == b * b + b;
  }

  lemma NotPronic(n: nat, delta: nat, m: nat)
    requires Square(n) < delta < Square(n + 1) && delta != Pronic(n)
    ensures delta != Pronic(m)
  {
    if m < n {
      SquareMonotone(m + 1, n);
      assert Pronic(m) == m * m + m && Square(m + 1) == m * m + 2 * m + 1;
    } else if m > n {
      PronicMonotone(n + 1, m);
      assert Pronic(n + 1) == Square(n + 1) + (n + 1);
    }
  }
}
