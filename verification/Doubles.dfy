/**
 Binary64 numbers and division rounded to nearest (IEEE 754-2019, sections 3.4 and 4.3.1), as far as whole cents divided
 by 100 need them. Every rule for ties is covered, since what is proved holds of any nearest double.
 */
module Doubles {

  function Pow2(k: nat): (p: nat)
    ensures p >= 1
  {
    if k == 0 then 1 else 2 * Pow2(k - 1)
  }

  const MAX_SAFE: int := 9007199254740991

  const LEAST_EXPONENT: int := -1074
  const GREATEST_EXPONENT: int := 971

  // The value of a significand and an exponent.
  function Scaled(m: int, e: int): real {
    if e >= 0 then m as real * Pow2(e) as real else m as real / Pow2(-e) as real
  }

  // A finite double has a significand of at most 53 bits.
  ghost predicate IsDouble(x: real) {
    exists m: int, e: int :: IsScaled(x, m, e)
  }

  predicate IsScaled(x: real, m: int, e: int) {
    -MAX_SAFE <= m <= MAX_SAFE && LEAST_EXPONENT <= e <= GREATEST_EXPONENT && x == Scaled(m, e)
  }

  function Distance(x: real, y: real): real {
    if x <= y then y - x else x - y
  }

  // d is a double, and no double is nearer to x.
  ghost predicate IsNearest(d: real, x: real) {
    IsDouble(d) && forall y :: IsDouble(y) ==> Distance(d, x) <= Distance(y, x)
  }

  // There are finitely many doubles, so that a nearest one exists.

  ghost function Scale(e: int): set<real> {
    set m: int | -MAX_SAFE <= m <= MAX_SAFE :: Scaled(m, e)
  }

  ghost function AllDoubles(e: int): (all: set<real>)
    requires LEAST_EXPONENT - 1 <= e <= GREATEST_EXPONENT
    ensures forall x :: x in all <==> exists m: int, f: int :: f <= e && IsScaled(x, m, f)
    decreases e - LEAST_EXPONENT + 1
  {
    if e < LEAST_EXPONENT then {} else
      var below := AllDoubles(e - 1);
      ScaleMeans(e);
      below + Scale(e)
  }

  lemma ScaleMeans(e: int)
    requires LEAST_EXPONENT <= e <= GREATEST_EXPONENT
    ensures forall x :: x in Scale(e) <==> exists m: int :: IsScaled(x, m, e)
  {
    forall x ensures x in Scale(e) <==> exists m: int :: IsScaled(x, m, e) {
      if x in Scale(e) {
        var m: int :| -MAX_SAFE <= m <= MAX_SAFE && x == Scaled(m, e);
        assert IsScaled(x, m, e);
      }
    }
  }

  lemma Pick<T(!new)>(s: set<T>) returns (x: T)
    requires |s| > 0
    ensures x in s
  {
    x :| x in s;
  }

  lemma {:induction false} NearestOf(doubles: set<real>, x: real) returns (d: real)
    requires |doubles| > 0
    ensures d in doubles && forall y :: y in doubles ==> Distance(d, x) <= Distance(y, x)
    decreases |doubles|
  {
    d := Pick(doubles);
    if |doubles - {d}| > 0 {
      var e := NearestOf(doubles - {d}, x);
      if Distance(e, x) < Distance(d, x) {
        d := e;
      }
    }
  }

  /** Every real number has a nearest double. */
  lemma NearestExists(x: real)
    ensures exists d :: IsNearest(d, x)
  {
    var all := AllDoubles(GREATEST_EXPONENT);
    assert IsScaled(0.0, 0, 0);
    assert 0.0 in all;
    var d := NearestOf(all, x);
    forall y ensures IsDouble(y) <==> y in all {
      if IsDouble(y) {
        var m: int, e: int :| IsScaled(y, m, e);
      }
    }
    assert IsNearest(d, x);
  }

  // The double a correctly rounded operation gives for the exact result x.
  ghost function Rounded(x: real): (d: real)
    ensures IsNearest(d, x)
  {
    NearestExists(x);
    var d :| IsNearest(d, x);
    d
  }

  lemma WholeIsDouble(q: nat)
    requires q <= MAX_SAFE
    ensures IsDouble(q as real)
  {
    assert Pow2(0) == 1;
    assert IsScaled(q as real, q, 0);
  }

  // The double 1/64 below the whole number q + 1.
  lemma JustBelowIsDouble(q: nat)
    requires 64 * q + 63 <= MAX_SAFE
    ensures IsDouble(q as real + 63.0 / 64.0)
  {
    assert Pow2(6) == 64 by {
      assert Pow2(1) == 2 && Pow2(2) == 4 && Pow2(3) == 8;
      assert Pow2(4) == 16 && Pow2(5) == 32;
    }
    var m := 64 * q + 63;
    assert m as real == 64.0 * q as real + 63.0;
    assert Scaled(m, -6) == q as real + 63.0 / 64.0;
    assert IsScaled(q as real + 63.0 / 64.0, m, -6);
  }

  /** Flooring any double nearest to n / 100 gives the exact whole quotient, for every safe integer n. */
  lemma FloorOfNearest(n: nat, d: real)
    requires n <= MAX_SAFE && IsNearest(d, n as real / 100.0)
    ensures d.Floor == n / 100
  {
    var q, r := n / 100, n % 100;
    var x := n as real / 100.0;
    assert n == 100 * q + r;
    assert x == q as real + r as real / 100.0;
    WholeIsDouble(q);
    JustBelowIsDouble(q);
    var below := q as real + 63.0 / 64.0;
    assert Distance(d, x) <= Distance(q as real, x);
    assert Distance(d, x) <= Distance(below, x);
    assert q as real <= d < q as real + 1.0;
  }

  // Math.floor of the double quotient by 100.
  ghost function FlooredHundredth(n: nat): int {
    Rounded(n as real / 100.0).Floor
  }

  /** The floored double quotient and the remainder always recombine to the cents, and no cents are lost or gained. */
  lemma HundredthsRecombine(n: nat)
    requires n <= MAX_SAFE
    ensures FlooredHundredth(n) == n / 100
    ensures 100 * FlooredHundredth(n) + n % 100 == n
  {
    FloorOfNearest(n, Rounded(n as real / 100.0));
  }
}
