/**
 The mapping of two axis values to a terminal cursor position. The program
 computes `a * 20 / 32767 + 20 + 1` for the column and `b * 10 / 32767 + 10 + 1`
 for the row with C `int` division, which truncates toward zero; Dafny's `/`
 on `int` is Euclidean, so the truncating quotient is defined here as `TDiv`.
 */
module Cursor {
  import opened Wrappers
  import opened JsEvent

  /** The full-scale axis value used as divisor. */
  const AXIS_MAX: int := 32767

  /** A terminal cell, 1-based, as the `ESC [ row ; col H` sequence addresses it. */
  datatype Pos = Pos(row: int, col: int)

  function Abs(x: int): nat {
    if x < 0 then -x else x
  }

  /**
   `q` is the quotient of `a` by `b` rounded toward zero: the remainder is
   smaller than the divisor in magnitude and is zero or has the sign of `a`.
   */
  ghost predicate IsTruncatedQuotient(a: int, b: int, q: int) {
    var rem := a - q * b;
    Abs(rem) < Abs(b) && (rem == 0 || (rem > 0 <==> a > 0))
  }

  /** Division truncating toward zero, as C's `/` on `int`. */
  function TDiv(a: int, b: int): (q: int)
    requires b != 0
    ensures IsTruncatedQuotient(a, b, q)
  {
    if a >= 0 then
      NonNegativeQuotient(a, b);
      a / b
    else
      NegativeQuotient(a, b);
      -((-a) / b)
  }

  lemma NonNegativeQuotient(a: int, b: int)
    requires a >= 0 && b != 0
    ensures IsTruncatedQuotient(a, b, a / b)
  {
    var q, rem := a / b, a % b;
    assert a == q * b + rem && 0 <= rem < Abs(b);
    assert a - q * b == rem;
  }

  lemma NegativeQuotient(a: int, b: int)
    requires a < 0 && b != 0
    ensures IsTruncatedQuotient(a, b, -((-a) / b))
  {
    var q, rem := (-a) / b, (-a) % b;
    assert -a == q * b + rem && 0 <= rem < Abs(b);
    assert a - (-q) * b == -rem;
  }

  lemma MulStrictBound(d: int, b: int)
    requires d != 0 && b != 0
    ensures Abs(d * b) >= Abs(b)
  {
    if d > 0 {
      if b > 0 { assert d * b >= b; } else { assert d * b <= b; }
    } else {
      if b > 0 { assert d * b <= -b; } else { assert d * b >= -b; }
    }
  }

  /** The truncating quotient is unique, so `TDiv` is the only function meeting its contract. */
  lemma TruncatedQuotientUnique(a: int, b: int, q1: int, q2: int)
    requires b != 0
    requires IsTruncatedQuotient(a, b, q1) && IsTruncatedQuotient(a, b, q2)
    ensures q1 == q2
  {
    var r1 := a - q1 * b;
    var r2 := a - q2 * b;
    assert r1 - r2 == (q2 - q1) * b;
    // both remainders lie on the same side of zero, so they differ by less than |b|
    assert Abs(r1 - r2) < Abs(b);
    if q1 != q2 {
      MulStrictBound(q2 - q1, b);
      assert false;
    }
  }

  /** Truncation is symmetric about zero, which Euclidean division is not. */
  lemma TDivOdd(a: int, b: int)
    requires b != 0
    ensures TDiv(-a, b) == -TDiv(a, b)
  {
  }

  /** Dividing by a positive number preserves order. */
  lemma TDivMonotone(a1: int, a2: int, b: int)
    requires b > 0 && a1 <= a2
    ensures TDiv(a1, b) <= TDiv(a2, b)
  {
    if a1 >= 0 {
      DivMonotone(a1, a2, b);
      assert TDiv(a1, b) == a1 / b && TDiv(a2, b) == a2 / b;
    } else if a2 >= 0 {
      DivNonNegative(-a1, b);
      DivNonNegative(a2, b);
      assert TDiv(a1, b) == -((-a1) / b) <= 0;
      assert TDiv(a2, b) == a2 / b >= 0;
    } else {
      DivMonotone(-a2, -a1, b);
      assert TDiv(a1, b) == -((-a1) / b) && TDiv(a2, b) == -((-a2) / b);
    }
  }

  lemma DivNonNegative(a: int, b: int)
    requires a >= 0 && b > 0
    ensures a / b >= 0
  {
  }

  lemma DivMonotone(a1: int, a2: int, b: int)
    requires 0 <= a1 <= a2 && b > 0
    ensures a1 / b <= a2 / b
  {
    var q1, q2 := a1 / b, a2 / b;
    var r1, r2 := a1 % b, a2 % b;
    assert a1 == q1 * b + r1 && a2 == q2 * b + r2;
    assert (q1 - q2) * b == (a1 - a2) - r1 + r2;
    NonPositiveFactor(q1 - q2, b);
  }

  lemma NonPositiveFactor(d: int, b: int)
    requires b > 0 && d * b < b
    ensures d <= 0
  {
    if d > 0 {
      assert (d - 1) * b >= 0;
    }
  }

  /** Where the truncation matters: -1 * 20 / 32767 is 0 in C but -1 under Euclidean division. */
  lemma TruncationDiffersFromEuclidean()
    ensures TDiv(-20, AXIS_MAX) == 0
    ensures -20 / AXIS_MAX == -1
  {
  }

  /** The column for axis value `a`; a signed 16-bit value keeps it in 1..41. */
  function CursorX(a: int): (x: int)
    ensures InInt16(a) ==> 1 <= x <= 41
  {
    ScaledQuotientBounds(a);
    TDiv(a * 20, AXIS_MAX) + 20 + 1
  }

  /** The row for axis value `b`; a signed 16-bit value keeps it in 1..21. */
  function CursorY(b: int): (y: int)
    ensures InInt16(b) ==> 1 <= y <= 21
  {
    ScaledQuotientBounds(b);
    TDiv(b * 10, AXIS_MAX) + 10 + 1
  }

  lemma ScaledQuotientBounds(a: int)
    ensures InInt16(a) ==> -20 <= TDiv(a * 20, AXIS_MAX) <= 20
    ensures InInt16(a) ==> -10 <= TDiv(a * 10, AXIS_MAX) <= 10
  {
    if InInt16(a) {
      TDivMonotone(-0x8000 * 20, a * 20, AXIS_MAX);
      TDivMonotone(a * 20, 0x7FFF * 20, AXIS_MAX);
      TDivMonotone(-0x8000 * 10, a * 10, AXIS_MAX);
      TDivMonotone(a * 10, 0x7FFF * 10, AXIS_MAX);
    }
  }

  /** A larger axis value never moves the cursor left or up. */
  lemma CursorMonotone(a1: int, a2: int)
    requires a1 <= a2
    ensures CursorX(a1) <= CursorX(a2)
    ensures CursorY(a1) <= CursorY(a2)
  {
    TDivMonotone(a1 * 20, a2 * 20, AXIS_MAX);
    TDivMonotone(a1 * 10, a2 * 10, AXIS_MAX);
  }

  /** The full-scale corners: centre (0,0) goes to column 21, row 11; (32767, -32767) to column 41, row 1. */
  lemma CursorCorners()
    ensures CursorX(0) == 21 && CursorY(0) == 11
    ensures CursorX(32767) == 41 && CursorY(-32767) == 1
    ensures CursorX(-32768) == 1 && CursorY(-32768) == 1
    ensures CursorX(-1) == 21 && CursorY(1) == 11
  {
  }

  /**
   The cursor of one render pass: present only when both the selected axis and
   the one after it have been seen.
   */
  function CursorFor(axes: map<int, int>, axis: int): (c: Option<Pos>)
    ensures c.Some? <==> axis in axes && axis + 1 in axes
    ensures c.Some? ==> c.value.col == CursorX(axes[axis]) && c.value.row == CursorY(axes[axis + 1])
    ensures c.Some? && InInt16(axes[axis]) && InInt16(axes[axis + 1]) ==>
              1 <= c.value.col <= 41 && 1 <= c.value.row <= 21
  {
    if axis in axes && axis + 1 in axes then
      Some(Pos(CursorY(axes[axis + 1]), CursorX(axes[axis])))
    else
      None
  }
}
