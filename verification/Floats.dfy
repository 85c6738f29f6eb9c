/** IEEE 754 doubles as far as the comparisons of src/query/ast.rs and
    src/adapters/index/property_index.rs look at them: bit patterns in their numeric order. */
module Floats {
  import opened Core
  import opened QueryAst

  const SIGN: int := 0x8000_0000_0000_0000
  const INFINITY: int := 0x7FF0_0000_0000_0000
  const NAN: F64 := 0x7FF8_0000_0000_0000

  /** Sign and magnitude: patterns that are numbers are ordered as this is, and both zeros are 0. */
  function Rank(f: F64): int {
    if f >= SIGN then SIGN - f else f
  }

  predicate IsNumber(f: F64) {
    -INFINITY <= Rank(f) <= INFINITY
  }

  predicate IsFinite(f: F64) {
    -INFINITY < Rank(f) < INFINITY
  }

  // ---- The numbers that patterns stand for ----

  const FRACTION: int := 0x10_0000_0000_0000

  function Pow2(k: nat): (p: nat)
    ensures p >= 1
  {
    if k == 0 then 1 else 2 * Pow2(k - 1)
  }

  function Exponent(f: F64): nat {
    f % SIGN / FRACTION
  }

  function Fraction(f: F64): nat {
    f % SIGN % FRACTION
  }

  /** A finite double times 2 to the 1074, which is an integer (section 3.4 of IEEE 754). */
  function Scaled(f: F64): int {
    var e := Exponent(f);
    var magnitude := if e == 0 then Fraction(f) else (FRACTION + Fraction(f)) * Pow2(e - 1);
    if f < SIGN then magnitude else -magnitude
  }

  /** The exponent field of all ones is for the infinities, with fraction 0, and the NaNs. */
  lemma NumberFields(f: F64)
    ensures IsFinite(f) <==> Exponent(f) < 2047
    ensures IsNumber(f) <==> Exponent(f) < 2047 || Fraction(f) == 0
  {
    assert f % SIGN == FRACTION * Exponent(f) + Fraction(f);
  }

  lemma {:induction false} Pow2Grows(j: nat, k: nat)
    requires j < k
    ensures 2 * Pow2(j) <= Pow2(k)
    decreases k
  {
    if j < k - 1 {
      Pow2Grows(j, k - 1);
    }
  }

  lemma ScaledGrows(a: F64, b: F64)
    requires a < b < SIGN
    ensures 0 <= Scaled(a) < Scaled(b)
  {
    hide Pow2;
    var m, n, i, j := Fraction(a), Fraction(b), Exponent(a), Exponent(b);
    assert a == FRACTION * i + m && b == FRACTION * j + n;
    assert i <= j && (i == j ==> m < n);
    if i == j {
      if i > 0 {
        SmallerTimes(FRACTION + m, FRACTION + n, Pow2(i - 1), Pow2(i - 1));
      }
    } else if i == 0 {
      SmallerTimes(m, FRACTION + n, 1, Pow2(j - 1));
    } else {
      Pow2Grows(i - 1, j - 1);
      SmallerTimes(FRACTION + m, 2 * (FRACTION + n), Pow2(i - 1), Pow2(i - 1));
      NotMoreTimes(FRACTION + n, 2 * Pow2(i - 1), Pow2(j - 1));
    }
  }

  lemma SmallerTimes(x: nat, y: nat, p: nat, q: nat)
    requires x < y && 1 <= p <= q
    ensures 0 <= x * p < y * q
  {
    NotMoreTimes(y, p, q);
    assert (y - x) * p >= 1;
  }

  lemma NotMoreTimes(x: nat, p: nat, q: nat)
    requires p <= q
    ensures x * p <= x * q
  {
  }

  lemma ScaledSign(f: F64)
    requires f >= SIGN
    ensures Scaled(f) == -Scaled(f - SIGN) && Rank(f) == -Rank(f - SIGN)
  {
    assert f % SIGN == (f - SIGN) % SIGN;
  }

  lemma ScaledZero()
    ensures Scaled(0) == 0
  {
  }

  lemma ScaledNotNegative(f: F64)
    requires f < SIGN
    ensures Scaled(f) >= 0 && (Scaled(f) == 0 <==> f == 0)
  {
    ScaledZero();
    if f > 0 {
      ScaledGrows(0, f);
    }
  }

  /** The order of ranks is that of the numbers, and so the comparisons by rank are those of section 5.11
      of IEEE 754; the two zeros are one number. */
  lemma RankIsNumeric(a: F64, b: F64)
    ensures Rank(a) < Rank(b) <==> Scaled(a) < Scaled(b)
    ensures Rank(a) == Rank(b) <==> Scaled(a) == Scaled(b)
  {
    hide Scaled;
    var x: F64, y: F64 := if a < SIGN then a else a - SIGN, if b < SIGN then b else b - SIGN;
    if a >= SIGN { ScaledSign(a); }
    if b >= SIGN { ScaledSign(b); }
    ScaledNotNegative(x);
    ScaledNotNegative(y);
    if x < y {
      ScaledGrows(x, y);
    } else if y < x {
      ScaledGrows(y, x);
    }
  }

  /** One pattern for all NaNs and one for both zeros. */
  function KeyOf(f: F64): F64 {
    if !IsNumber(f) then NAN else if Rank(f) == 0 then 0 else f
  }

  /** `OrderedF64::cmp`, with NaN below all numbers. */
  predicate KeyLess(a: F64, b: F64) {
    IsNumber(b) && (!IsNumber(a) || Rank(a) < Rank(b))
  }

  /** `compare_f64`; what is close, a difference below epsilon, is a parameter. */
  predicate Compare(close: (F64, F64) -> bool, op: Op, a: F64, b: F64) {
    IsNumber(a) && IsNumber(b) &&
    match op
    case Eq => close(a, b)
    case NotEq => Rank(a) != Rank(b) && !close(a, b)
    case _ => CompareOrd(op, Rank(a) < Rank(b), Rank(a) == Rank(b))
  }

  /** Differences of finite numbers with themselves are 0, those with an infinity are not small, and
      both zeros give the same differences. */
  ghost predicate IsCloseness(close: (F64, F64) -> bool) {
    && (forall a, b :: Rank(a) == Rank(b) && IsFinite(a) ==> close(a, b))
    && (forall a, b :: close(a, b) ==> IsFinite(a) && IsFinite(b))
    && (forall a, b, b' :: IsNumber(b) && Rank(b) == Rank(b') ==> close(a, b) == close(a, b'))
  }

  function Ieee(close: (F64, F64) -> bool, ofInt: I64 -> F64): FloatModel {
    FloatModel((op: Op, a: F64, b: F64) => Compare(close, op, a, b),
               (a: F64, b: F64) => IsNumber(a) && IsNumber(b) && Rank(a) == Rank(b),
               ofInt, KeyOf, KeyLess, IsNumber, IsFinite)
  }

  lemma SameKeys(fm: FloatModel, close: (F64, F64) -> bool, ofInt: I64 -> F64, a: F64, b: F64)
    requires fm == Ieee(close, ofInt)
    ensures fm.SameKey(a, b) == if IsNumber(a) && IsNumber(b) then Rank(a) == Rank(b) else IsNumber(a) == IsNumber(b)
    ensures fm.Less(a, b) == KeyLess(a, b)
  {
  }

  /** Finite doubles compare as the numbers they stand for, by value in a scan and by key in an index. */
  lemma FiniteNumeric(close: (F64, F64) -> bool, ofInt: I64 -> F64, op: Op, a: F64, b: F64)
    requires IsFinite(a) && IsFinite(b) && IsOrder(op)
    ensures var fm := Ieee(close, ofInt);
            && fm.compare(op, a, b) == CompareOrd(op, Scaled(a) < Scaled(b), Scaled(a) == Scaled(b))
            && fm.Less(a, b) == (Scaled(a) < Scaled(b)) && fm.SameKey(a, b) == (Scaled(a) == Scaled(b))
  {
    hide Scaled, Rank;
    RankIsNumeric(a, b);
    SameKeys(Ieee(close, ofInt), close, ofInt, a, b);
  }

  lemma OrderLawsHold(close: (F64, F64) -> bool, ofInt: I64 -> F64)
    requires forall i :: IsFinite(ofInt(i))
    ensures Ieee(close, ofInt).OrderLaws()
  {
    var fm := Ieee(close, ofInt);
    forall a: F64, b: F64
      ensures fm.SameKey(a, b) == if IsNumber(a) && IsNumber(b) then Rank(a) == Rank(b) else IsNumber(a) == IsNumber(b)
      ensures fm.Less(a, b) == KeyLess(a, b)
    {
      SameKeys(fm, close, ofInt, a, b);
    }
    hide FloatModel.SameKey, FloatModel.Less, KeyOf, KeyLess;
  }

  lemma Congruent(close: (F64, F64) -> bool, op: Op, a: F64, b: F64, b': F64)
    requires IsCloseness(close) && KeyOf(b) == KeyOf(b')
    ensures Compare(close, op, a, b) == Compare(close, op, a, b')
  {
    assert IsNumber(b) == IsNumber(b') && (IsNumber(b) ==> Rank(b) == Rank(b'));
  }

  lemma ByKey(fm: FloatModel, close: (F64, F64) -> bool, ofInt: I64 -> F64, a: F64, b: F64)
    requires fm == Ieee(close, ofInt) && IsCloseness(close)
    ensures fm.equal(a, b) <==> fm.number(a) && fm.number(b) && fm.SameKey(a, b)
    ensures fm.number(a) && fm.number(b) ==>
      && (forall op | IsOrder(op) :: fm.compare(op, a, b) == CompareOrd(op, fm.Less(a, b), fm.SameKey(a, b)))
      && (fm.SameKey(a, b) ==> fm.compare(Eq, a, b) == fm.finite(a) && !fm.compare(NotEq, a, b))
      && (!fm.SameKey(a, b) ==> fm.compare(NotEq, a, b) == !fm.compare(Eq, a, b))
  {
    SameKeys(fm, close, ofInt, a, b);
    hide KeyOf;
  }

  lemma CompareLawsHold(close: (F64, F64) -> bool, ofInt: I64 -> F64)
    requires IsCloseness(close)
    ensures Ieee(close, ofInt).CompareLaws()
  {
    hide KeyOf, KeyLess, IsNumber, IsFinite, CompareOrd, IsCloseness;
    var fm := Ieee(close, ofInt);
    forall a: F64, b: F64
      ensures fm.equal(a, b) <==> fm.number(a) && fm.number(b) && fm.SameKey(a, b)
      ensures fm.number(a) && fm.number(b) ==>
        && (forall op | IsOrder(op) :: fm.compare(op, a, b) == CompareOrd(op, fm.Less(a, b), fm.SameKey(a, b)))
        && (fm.SameKey(a, b) ==> fm.compare(Eq, a, b) == fm.finite(a) && !fm.compare(NotEq, a, b))
        && (!fm.SameKey(a, b) ==> fm.compare(NotEq, a, b) == !fm.compare(Eq, a, b))
    {
      ByKey(fm, close, ofInt, a, b);
    }
    forall op, a, b, b' | fm.SameKey(b, b') ensures fm.compare(op, a, b) == fm.compare(op, a, b') {
      Congruent(close, op, a, b, b');
    }
  }

  /** Doubles meet the laws the comparison results rest on. */
  lemma IeeeLaws(close: (F64, F64) -> bool, ofInt: I64 -> F64)
    requires IsCloseness(close) && forall i :: IsFinite(ofInt(i))
    ensures Ieee(close, ofInt).Laws()
  {
    OrderLawsHold(close, ofInt);
    CompareLawsHold(close, ofInt);
  }
}
