/** The overflow-checked multiplication of external/CLI/CLI11.hpp, for integer types of 32 bits and
    more.  Each machine operation is `None` where its result is undefined: a signed result that does
    not fit, or a division by zero.
 */
module CheckedMultiply {
  import opened Options

  // An integer type; signed ones are two's complement.
  datatype Width = Signed(bits: nat) | Unsigned(bits: nat)

  function Power(n: nat): (p: nat)
    ensures p >= 1 && (n > 0 ==> p % 2 == 0)
  {
    if n == 0 then 1 else 2 * Power(n - 1)
  }

  function Lowest(w: Width): int
    requires w.bits > 0
  {
    if w.Signed? then 0 - Power(w.bits - 1) else 0
  }

  function Highest(w: Width): int
    requires w.bits > 0
  {
    if w.Signed? then Power(w.bits - 1) - 1 else Power(w.bits) - 1
  }

  predicate Has(w: Width, x: int)
    requires w.bits > 0
  {
    Lowest(w) <= x <= Highest(w)
  }

  predicate Wide(w: Width) {
    w.bits >= 32
  }

  // ---------------------------------------------------------------- machine operations

  function Magnitude(x: int): nat {
    if x < 0 then -x else x
  }

  // `/` truncates toward zero.
  function Truncated(a: int, b: int): int
    requires b != 0
  {
    if (a < 0) == (b < 0) then Magnitude(a) / Magnitude(b) else -(Magnitude(a) / Magnitude(b))
  }

  function InRange(w: Width, x: int): Option<int>
    requires w.bits > 0
  {
    if Has(w, x) then Some(x) else None
  }

  function Divide(w: Width, a: int, b: int): Option<int>
    requires w.bits > 0
  {
    if b == 0 then None else InRange(w, Truncated(a, b))
  }

  // `std::abs`
  function AbsOf(w: Width, x: int): Option<int>
    requires w.bits > 0
  {
    InRange(w, Magnitude(x))
  }

  function Negate(w: Width, x: int): Option<int>
    requires w.bits > 0
  {
    InRange(w, -x)
  }

  // ---------------------------------------------------------------- the check

  // `overflowCheck`: None when some operation in it is undefined.
  function OverflowCheck(w: Width, a: int, b: int): Option<bool>
    requires w.bits > 0
  {
    if w.Unsigned? then
      match Divide(w, Highest(w), a)
      case None => None
      case Some(q) => Some(q < b)
    else
      match (AbsOf(w, a), AbsOf(w, b))
      case (Some(x), Some(y)) =>
        if (a > 0) == (b > 0) then
          match Divide(w, Highest(w), x)
          case None => None
          case Some(q) => Some(q < y)
        else
          (match (Divide(w, Lowest(w), x), Negate(w, y))
           case (Some(q), Some(m)) => Some(q > m)
           case _ => None)
      case _ => None
  }

  // What comes of a call: whether it multiplied, and the operand afterwards.
  datatype Multiplied = Multiplied(ok: bool, a: int)

  /** `checked_multiply` */
  method Multiply(w: Width, a: int, b: int) returns (r: Option<Multiplied>)
    requires Wide(w) && Has(w, a) && Has(w, b)
    ensures r == Some(if Has(w, a * b) then Multiplied(true, a * b) else Multiplied(false, a))
  {
    LimitsAreWide(w);
    if a == 0 || b == 0 || a == 1 || b == 1 {
      return Times(w, a, b);
    }
    if a == Lowest(w) || b == Lowest(w) {
      LowestTimes(w, a, b);
      return Some(Multiplied(false, a));
    }
    OverflowCheckMeaning(w, a, b);
    var over := OverflowCheck(w, a, b);
    if over.None? {
      return None;
    }
    if over.value {
      return Some(Multiplied(false, a));
    }
    r := Times(w, a, b);
  }

  // `a *= b`
  function Times(w: Width, a: int, b: int): Option<Multiplied>
    requires w.bits > 0
  {
    if Has(w, a * b) then Some(Multiplied(true, a * b)) else None
  }

  lemma LimitsAreWide(w: Width)
    requires Wide(w)
    ensures Lowest(w) <= 0 && Highest(w) >= 3
    ensures w.Signed? ==> Lowest(w) == -Highest(w) - 1
  {
    PowerGrows(2, w.bits - 1);
    PowerGrows(2, w.bits);
  }

  lemma {:induction false} PowerGrows(m: nat, n: nat)
    requires m <= n
    ensures Power(m) <= Power(n)
  {
    if m < n {
      PowerGrows(m, n - 1);
    }
  }

  lemma LowestTimes(w: Width, a: int, b: int)
    requires Wide(w) && Has(w, a) && Has(w, b) && !(a == 0 || b == 0 || a == 1 || b == 1)
    requires a == Lowest(w) || b == Lowest(w)
    ensures !Has(w, a * b)
  {
    LimitsAreWide(w);
    var low, other := Lowest(w), if a == Lowest(w) then b else a;
    assert a * b == low * other;
    if w.Signed? {
      if other >= 2 {
        assert low * other <= low * 2 by { Monotone(2, other, -low); }
      } else {
        assert low * other >= -low by { Monotone(1, -other, -low); }
      }
    }
  }

  lemma Monotone(x: int, y: int, z: int)
    requires x <= y && z >= 0
    ensures x * z <= y * z
  {
  }

  lemma QuotientBound(limit: nat, x: nat, y: nat)
    requires x > 0
    ensures limit / x < y <==> limit < x * y
  {
    var q, m := limit / x, limit % x;
    assert limit == q * x + m;
    if q < y {
      Monotone(q + 1, y, x);
    } else {
      Monotone(y, q, x);
    }
  }

  lemma TruncatedSigns(limit: nat, x: nat)
    requires x > 0
    ensures Truncated(limit, x) == limit / x && Truncated(0 - limit, x) == 0 - limit / x
    ensures limit / x <= limit
  {
    QuotientSmall(limit, x);
    assert Magnitude(limit) == limit && Magnitude(0 - limit) == limit && Magnitude(x) == x;
    if limit == 0 {
      ZeroQuotient(x);
    }
  }

  lemma ZeroQuotient(x: nat)
    requires x > 0
    ensures 0 / x == 0
  {
  }

  // The check, each of its operations defined.
  lemma SameSigns(w: Width, a: int, b: int)
    requires Wide(w) && Has(w, a) && Has(w, b) && a != 0 && b != 0 && (a > 0) == (b > 0)
    requires w.Signed? ==> a != Lowest(w) && b != Lowest(w)
    ensures OverflowCheck(w, a, b) == Some(Highest(w) / Magnitude(a) < Magnitude(b))
  {
    LimitsAreWide(w);
    hide Lowest, Highest, Power, Truncated;
    TruncatedSigns(Highest(w), Magnitude(a));
  }

  lemma OtherSigns(w: Width, a: int, b: int)
    requires Wide(w) && Has(w, a) && Has(w, b) && a != 0 && b != 0 && (a > 0) != (b > 0)
    requires w.Signed? ==> a != Lowest(w) && b != Lowest(w)
    ensures OverflowCheck(w, a, b) == Some(-Lowest(w) / Magnitude(a) < Magnitude(b))
  {
    LimitsAreWide(w);
    hide Lowest, Highest, Power, Truncated;
    TruncatedSigns(-Lowest(w), Magnitude(a));
  }

  /** No operation of the check is undefined, and it tells overflow from its absence. */
  lemma OverflowCheckMeaning(w: Width, a: int, b: int)
    requires Wide(w) && Has(w, a) && Has(w, b) && a != 0 && b != 0
    requires w.Signed? ==> a != Lowest(w) && b != Lowest(w)
    ensures OverflowCheck(w, a, b) == Some(!Has(w, a * b))
  {
    hide OverflowCheck, Lowest, Highest, Power;
    LimitsAreWide(w);
    if (a > 0) == (b > 0) {
      SameSigns(w, a, b);
    } else {
      OtherSigns(w, a, b);
    }
    QuotientBound(if (a > 0) == (b > 0) then Highest(w) else -Lowest(w), Magnitude(a), Magnitude(b));
    SignOf(a, b);
  }

  lemma QuotientSmall(limit: nat, x: nat)
    requires x > 0
    ensures limit / x <= limit
  {
    Monotone(1, x, limit / x);
  }

  lemma SignOf(a: int, b: int)
    requires a != 0 && b != 0
    ensures Magnitude(a) * Magnitude(b) == if (a > 0) == (b > 0) then a * b else -(a * b)
    ensures Magnitude(a) * Magnitude(b) > 0
  {
  }

  // ---------------------------------------------------------------- its use

  // `expected_max_vector_size`
  const UNLIMITED := 0x2000_0000

  const INT := Signed(32)

  /** `get_items_expected_max`: the product of two `int`s, or the size of an unlimited vector. */
  method ItemsExpectedMax(typeSizeMax: int, expectedMax: int) returns (n: int)
    requires Has(INT, typeSizeMax) && Has(INT, expectedMax)
    ensures n == if Has(INT, typeSizeMax * expectedMax) then typeSizeMax * expectedMax else UNLIMITED
  {
    var t := Multiply(INT, typeSizeMax, expectedMax);
    n := if t.value.ok then t.value.a else UNLIMITED;
  }
}
