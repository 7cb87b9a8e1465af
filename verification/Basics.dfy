/** Shared vocabulary: optional values, fallible results and 64-bit signed arithmetic. */
module Basics {

  datatype Option<+T> = None | Some(value: T)

  datatype Result<+T, +E> = Ok(value: T) | Err(error: E)

  const I64_MAX := 0x7fff_ffff_ffff_ffff
  const I64_MIN := -0x8000_0000_0000_0000

  type i64 = x: int | I64_MIN <= x <= I64_MAX

  function Min(a: int, b: int): int { if a <= b then a else b }

  function Max(a: int, b: int): int { if a >= b then a else b }

  /** Rust's `saturating_add` and `saturating_sub` on `i64`. */
  function SatAdd(a: i64, b: i64): i64 { Max(I64_MIN, Min(I64_MAX, a + b)) }

  function SatSub(a: i64, b: i64): i64 { Max(I64_MIN, Min(I64_MAX, a - b)) }

  /** Rust's (and SQLite's) integer division, which truncates toward zero. */
  function TruncDiv(a: int, b: int): int
    requires 0 < b
  {
    if a >= 0 then a / b else -((-a) / b)
  }

  /** What truncating toward zero means: on either side of zero the quotient is the multiple next to it. */
  lemma TruncDivTruncates(a: int, b: int)
    requires 0 < b
    ensures var q := TruncDiv(a, b);
            if 0 <= a then b * q <= a < b * q + b else b * q - b < a <= b * q
  {
    if 0 <= a {
      assert a == b * (a / b) + a % b;
    } else {
      assert -a == b * ((-a) / b) + (-a) % b;
      assert b * -((-a) / b) == -(b * ((-a) / b));
    }
  }

  lemma TruncDivMonotone(a: int, c: int, b: int)
    requires 0 < b && a <= c
    ensures TruncDiv(a, b) <= TruncDiv(c, b)
  {
    if a >= 0 {
      DivMonotone(a, c, b);
    } else if c < 0 {
      DivMonotone(-c, -a, b);
    } else {
      DivMonotone(0, -a, b);
      DivMonotone(0, c, b);
    }
  }

  lemma DivMonotone(a: int, c: int, b: int)
    requires 0 < b && 0 <= a <= c
    ensures 0 <= a / b <= c / b
  {
    var q, r := a / b, c / b;
    assert a == b * q + a % b && c == b * r + c % b;
    assert b * (r + 1) == b * r + b;
    MulCancel(b, q, r + 1);
    assert b * (q + 1) == b * q + b;
    MulCancel(b, 0, q + 1);
  }

  lemma MulCancel(b: int, x: int, y: int)
    requires 0 < b && b * x < b * y
    ensures x < y
  {
    if y <= x { MulMonotone(b, y, x); }
  }

  lemma MulMonotone(b: int, x: int, y: int)
    requires 0 <= b && x <= y
    ensures b * x <= b * y
  {
    assert b * y - b * x == b * (y - x);
    assert b * (y - x) >= 0;
  }

  lemma EmptyOrNot(s: set<int>)
    ensures s == {} || exists x :: x in s
  {
    if forall x :: x !in s { assert s == {}; }
  }

  lemma HasMember(s: set<int>)
    requires s != {}
    ensures exists x :: x in s
  {
    EmptyOrNot(s);
  }
}
