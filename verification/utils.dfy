/**
 Neighbour-index arithmetic on the linear site index (src/geometry/utils.rs).

 A lattice of side L in D dimensions has L^D sites numbered 0 .. L^D - 1.
 The neighbour of site i along dimension d is found by adding (or
 subtracting) L^d and reducing modulo L^D. This is a helical wrap of the
 linear index, not a per-coordinate torus: stepping past the last site
 of a row lands on the first site of the next row.
 */
module Utils {

  /** Natural-number power; `usize::pow` without overflow. */
  function Pow(b: nat, e: nat): (r: nat)
    ensures b >= 1 ==> r >= 1
    ensures b == 0 && e > 0 ==> r == 0
  {
    if e == 0 then 1 else b * Pow(b, e - 1)
  }

  /** Number of sites of a lattice of side L in D dimensions. */
  function Volume(L: nat, D: nat): nat
  {
    Pow(L, D)
  }

  /** Powers of a base of at least one do not decrease with the exponent. */
  lemma {:induction false} PowMonotone(L: nat, d: nat, D: nat)
    requires L >= 1 && d <= D
    ensures Pow(L, d) <= Pow(L, D)
  {
    if d < D {
      PowMonotone(L, d, D - 1);
      assert Pow(L, D) == L * Pow(L, D - 1);
    }
  }

  /** Powers of a base of at least two grow strictly with the exponent. */
  lemma {:induction false} PowStrict(L: nat, d: nat, D: nat)
    requires L >= 2 && d < D
    ensures Pow(L, d) < Pow(L, D)
  {
    PowMonotone(L, d, D - 1);
    assert Pow(L, D) == L * Pow(L, D - 1);
  }

  /** A non-empty lattice with at least one dimension has side at least one. */
  lemma PositiveSide(L: nat, D: nat)
    requires 0 < Volume(L, D) && D > 0
    ensures L >= 1
  {
  }

  /** `next_position`: the index L^d further on, wrapped modulo L^D. */
  function NextPosition(L: nat, D: nat, i: nat, d: nat): (r: nat)
    requires 0 < Volume(L, D)
    ensures r < Volume(L, D)
  {
    (i + Pow(L, d)) % Pow(L, D)
  }

  /**
   The unsigned subtraction in `previous_position` (add L^D, then subtract
   L^d) does not underflow.
   */
  predicate NoUnderflow(L: nat, D: nat, i: nat, d: nat)
  {
    Pow(L, d) <= i + Pow(L, D)
  }

  /** `previous_position`: the index L^d further back, wrapped modulo L^D. */
  function PreviousPosition(L: nat, D: nat, i: nat, d: nat): (r: nat)
    requires 0 < Volume(L, D) && NoUnderflow(L, D, i, d)
    ensures r < Volume(L, D)
  {
    (i + Pow(L, D) - Pow(L, d)) % Pow(L, D)
  }

  /** For every dimension up to D the subtraction in `previous_position` is safe, whatever the index. */
  lemma PreviousNeverUnderflows(L: nat, D: nat, i: nat, d: nat)
    requires L >= 1 && d <= D
    ensures 0 < Volume(L, D) && NoUnderflow(L, D, i, d)
  {
    PowMonotone(L, d, D);
  }

  lemma ModBelow(x: int, n: int)
    requires 0 <= x < n
    ensures x % n == x
  {
  }

  lemma ModOnce(x: int, n: int)
    requires 0 < n <= x < n + n
    ensures x % n == x - n
  {
    ModBelow(x - n, n);
  }

  /** `next_position` without the modulus: it subtracts L^D exactly when the sum passes the last index. */
  lemma NextClosedForm(L: nat, D: nat, i: nat, d: nat)
    requires L >= 1 && d <= D && i < Volume(L, D)
    ensures NextPosition(L, D, i, d)
      == if i + Pow(L, d) < Volume(L, D) then i + Pow(L, d) else i + Pow(L, d) - Volume(L, D)
  {
    PowMonotone(L, d, D);
    var n := Pow(L, D);
    var x := i + Pow(L, d);
    if x < n {
      ModBelow(x, n);
    } else {
      ModOnce(x, n);
    }
  }

  /** `previous_position` without the modulus: it adds L^D back exactly when i - L^d would be negative. */
  lemma PreviousClosedForm(L: nat, D: nat, i: nat, d: nat)
    requires L >= 1 && d <= D && i < Volume(L, D)
    ensures NoUnderflow(L, D, i, d)
    ensures PreviousPosition(L, D, i, d)
      == if i < Pow(L, d) then i + Volume(L, D) - Pow(L, d) else i - Pow(L, d)
  {
    PowMonotone(L, d, D);
    var n := Pow(L, D);
    var x := i + n - Pow(L, d);
    if i < Pow(L, d) {
      ModBelow(x, n);
    } else {
      ModOnce(x, n);
    }
  }

  /** Stepping forward and then back along the same dimension returns to the start. */
  lemma PreviousOfNext(L: nat, D: nat, i: nat, d: nat)
    requires L >= 1 && d <= D && i < Volume(L, D)
    ensures NoUnderflow(L, D, NextPosition(L, D, i, d), d)
    ensures PreviousPosition(L, D, NextPosition(L, D, i, d), d) == i
  {
    NextClosedForm(L, D, i, d);
    PreviousClosedForm(L, D, NextPosition(L, D, i, d), d);
  }

  /** Stepping back and then forward along the same dimension returns to the start. */
  lemma NextOfPrevious(L: nat, D: nat, i: nat, d: nat)
    requires L >= 1 && d <= D && i < Volume(L, D)
    ensures NoUnderflow(L, D, i, d)
    ensures NextPosition(L, D, PreviousPosition(L, D, i, d), d) == i
  {
    PreviousClosedForm(L, D, i, d);
    NextClosedForm(L, D, PreviousPosition(L, D, i, d), d);
  }

  /**
   For a side of at least two and a dimension below D, `next_position`
   goes backwards exactly when i + L^d passes the last index.
   */
  lemma NextWrapsExactly(L: nat, D: nat, i: nat, d: nat)
    requires L >= 2 && d < D && i < Volume(L, D)
    ensures NextPosition(L, D, i, d) < i <==> i + Pow(L, d) >= Volume(L, D)
  {
    PowStrict(L, d, D);
    NextClosedForm(L, D, i, d);
  }

  /**
   For a side of at least two and a dimension below D, `previous_position`
   goes forwards exactly when i is below L^d.
   */
  lemma PreviousWrapsExactly(L: nat, D: nat, i: nat, d: nat)
    requires L >= 2 && d < D && i < Volume(L, D)
    ensures NoUnderflow(L, D, i, d)
    ensures PreviousPosition(L, D, i, d) > i <==> i < Pow(L, d)
  {
    PowStrict(L, d, D);
    PreviousClosedForm(L, D, i, d);
  }

  /** The unit-test values for a side of 4 in 3 dimensions. */
  lemma NextPositionExamples()
    ensures NextPosition(4, 3, 0, 0) == 1
    ensures NextPosition(4, 3, 16, 2) == 32
    ensures NextPosition(4, 3, 31, 1) == 35
  {
    assert Pow(4, 3) == 64;
  }

  /** The last site of a side-4, 3-dimensional lattice wraps forward onto site 0. */
  lemma NextPositionWrapExample()
    ensures NextPosition(4, 3, 63, 0) == 0
  {
    assert Pow(4, 3) == 64;
  }

  lemma PreviousPositionExamples()
    ensures NoUnderflow(4, 3, 0, 0) && NoUnderflow(4, 3, 16, 2) && NoUnderflow(4, 3, 31, 1)
    ensures PreviousPosition(4, 3, 0, 0) == 63
    ensures PreviousPosition(4, 3, 16, 2) == 0
    ensures PreviousPosition(4, 3, 31, 1) == 27
  {
    assert Pow(4, 3) == 64;
  }
}
