/**
  The text JavaScript gives a number (Number::toString of ECMA-262), as JSON.stringify uses it.

  A finite non-zero number is held as the algorithm holds it: a sign, the shortest digit string that
  identifies it (no zero at either end), and the position of the decimal point, so that the value is
  0.digits * 10^point.  Doubles themselves are not modelled.
 */
module NumberText {
  import opened Utf16

  const ZERO: Unit := 48
  const MINUS: Unit := 45
  const PLUS: Unit := 43
  const DOT: Unit := 46
  const EXP: Unit := 101

  datatype Number =
    | Zero
    | NegZero
    | NonFinite
    | Decimal(neg: bool, digits: Text, point: int)
  {
    predicate Valid() {
      Decimal? ==>
        && |digits| > 0 && AllDigits(digits)
        && digits[0] != ZERO && digits[|digits| - 1] != ZERO
    }
  }

  predicate IsDigit(u: Unit) { 48 <= u <= 57 }

  predicate AllDigits(t: Text) { forall i :: 0 <= i < |t| ==> IsDigit(t[i]) }

  predicate IsNumberUnit(u: Unit) {
    IsDigit(u) || u == 45 || u == 43 || u == 46 || u == 101
  }

  function Zeros(n: nat): (t: Text)
    ensures |t| == n && forall i :: 0 <= i < n ==> t[i] == ZERO
  {
    seq(n, _ => ZERO)
  }

  function NatText(n: nat): (t: Text)
    ensures |t| > 0 && AllDigits(t)
  {
    if n < 10 then [48 + n] else NatText(n / 10) + [48 + n % 10]
  }

  function Mantissa(ds: Text): Text
    requires |ds| > 0
  {
    if |ds| == 1 then ds else ds[..1] + [DOT] + ds[1..]
  }

  // The four layouts of a magnitude.
  function WholeText(ds: Text, zeros: nat): Text { ds + Zeros(zeros) }

  function SplitText(ds: Text, n: nat): Text
    requires n <= |ds|
  {
    ds[..n] + [DOT] + ds[n..]
  }

  function FractionText(ds: Text, zeros: nat): Text { [ZERO] + [DOT] + (Zeros(zeros) + ds) }

  function ScientificText(ds: Text, e: int): Text
    requires |ds| > 0
  {
    Mantissa(ds) + [EXP] + SignedText(e)
  }

  datatype Layout = Whole(zeros: nat) | Split(n: nat) | Fraction(zeros: nat) | Scientific(e: int)

  /** How many digits with the point at n are laid out. */
  function LayoutOf(digits: nat, n: int): (l: Layout)
    requires digits > 0
    ensures l.Split? ==> 0 < l.n < digits
  {
    if digits <= n <= 21 then Whole(n - digits)
    else if 0 < n <= 21 then Split(n)
    else if -6 < n <= 0 then Fraction(-n)
    else Scientific(n - 1)
  }

  function LaidOut(ds: Text, l: Layout): Text
    requires |ds| > 0 && (l.Split? ==> 0 < l.n < |ds|)
  {
    match l
    case Whole(zeros) => WholeText(ds, zeros)
    case Split(n) => SplitText(ds, n)
    case Fraction(zeros) => FractionText(ds, zeros)
    case Scientific(e) => ScientificText(ds, e)
  }

  function Magnitude(ds: Text, n: int): Text
    requires |ds| > 0
  {
    LaidOut(ds, LayoutOf(|ds|, n))
  }

  function SignedText(e: int): Text {
    if e < 0 then [MINUS] + NatText(-e) else [PLUS] + NatText(e)
  }

  /** The text of a finite number; both zeros print alike. */
  function Print(x: Number): Text
    requires x.Valid() && !x.NonFinite?
  {
    match x
    case Decimal(neg, digits, point) => (if neg then [MINUS] else []) + Magnitude(digits, point)
    case _ => [ZERO]
  }

  // ---- reading back ------------------------------------------------------

  // By code points: digits 48 to 57, minus 45, plus 43, point 46, e 101.

  /** The first position of u at or after i, or |t|. */
  function Find(t: Text, u: Unit, i: nat := 0): (k: nat)
    requires i <= |t|
    ensures i <= k <= |t| && forall j :: i <= j < k ==> t[j] != u
    ensures k < |t| ==> t[k] == u
    decreases |t| - i
  {
    if i == |t| || t[i] == u then i else Find(t, u, i + 1)
  }

  /** The first position at or after i holding no zero. */
  function SkipZeros(t: Text, i: nat := 0): (k: nat)
    requires i <= |t|
    ensures i <= k <= |t| && forall j :: i <= j < k ==> t[j] == 48
    ensures k < |t| ==> t[k] != 48
    decreases |t| - i
  {
    if i == |t| || t[i] != 48 then i else SkipZeros(t, i + 1)
  }

  /** The end of t once the zeros before m are dropped, but not those before lo. */
  function TrimZeros(t: Text, lo: nat, m: nat): (k: nat)
    requires lo <= m <= |t|
    ensures lo <= k <= m && forall j :: k <= j < m ==> t[j] == 48
    ensures k > lo ==> t[k - 1] != 48
  {
    if m == lo || t[m - 1] != 48 then m else TrimZeros(t, lo, m - 1)
  }

  function NatValue(t: Text): int {
    if t == [] then 0 else NatValue(t[..|t| - 1]) * 10 + (t[|t| - 1] as int - 48)
  }

  function SignedValue(t: Text): int {
    if t == [] then 0
    else if t[0] == 45 then -NatValue(t[1..])
    else if t[0] == 43 then NatValue(t[1..])
    else NatValue(t)
  }

  /** The digits of `whole.fraction` without the zeros at either end, and where its point then lies. */
  function Normalize(whole: Text, fraction: Text, exponent: int): (Text, int) {
    var all := whole + fraction;
    var lead := SkipZeros(all);
    (all[lead..TrimZeros(all, lead, |all|)], |whole| - lead + exponent)
  }

  function ReadMantissa(t: Text, exponent: int): (Text, int) {
    var dot := Find(t, 46);
    Normalize(t[..dot], if dot < |t| then t[dot + 1..] else [], exponent)
  }

  /** Digits and point of an unsigned text `I.FeX`. */
  function ReadMagnitude(t: Text): (Text, int) {
    var e := Find(t, 101);
    ReadMantissa(t[..e], if e < |t| then SignedValue(t[e + 1..]) else 0)
  }

  function Read(t: Text): Number {
    var neg := t != [] && t[0] == 45;
    var (digits, point) := ReadMagnitude(if neg then t[1..] else t);
    if digits == [] then Zero else Decimal(neg, digits, point)
  }

  // The grammar of section 6 of RFC 8259.
  predicate IsJsonExponent(t: Text) {
    if t != [] && (t[0] == 43 || t[0] == 45) then |t| > 1 && AllDigits(t[1..]) else t != [] && AllDigits(t)
  }

  predicate IsJsonMantissa(t: Text) {
    var dot := Find(t, 46);
    && dot > 0 && AllDigits(t[..dot]) && (t[0] == 48 ==> dot == 1)
    && (dot < |t| ==> dot + 1 < |t| && AllDigits(t[dot + 1..]))
  }

  predicate IsJsonUnsigned(t: Text) {
    var e := Find(t, 101);
    IsJsonMantissa(t[..e]) && (e < |t| ==> IsJsonExponent(t[e + 1..]))
  }

  predicate IsJsonNumber(t: Text) { IsJsonUnsigned(if t != [] && t[0] == 45 then t[1..] else t) }

  lemma FindIs(a: Text, u: Unit, b: Text)
    requires u !in a
    ensures Find(a + [u] + b, u) == |a|
  {
    var t := a + [u] + b;
    assert t[|a|] == u && forall j :: 0 <= j < |a| ==> t[j] == a[j];
  }

  lemma {:induction false} NatRoundTrip(n: nat)
    ensures NatValue(NatText(n)) == n
  {
    var t := NatText(n);
    if n >= 10 {
      assert t[..|t| - 1] == NatText(n / 10);
      NatRoundTrip(n / 10);
    } else {
      assert t[..0] == [];
    }
  }

  lemma SignedRoundTrip(e: int)
    ensures SignedValue(SignedText(e)) == e
  {
    NatRoundTrip(if e < 0 then -e else e);
    assert SignedText(e)[1..] == NatText(if e < 0 then -e else e);
  }

  predicate Significant(ds: Text) {
    |ds| > 0 && AllDigits(ds) && ds[0] != ZERO && ds[|ds| - 1] != ZERO
  }

  /** Zeros around a digit string with none at its ends are exactly what reading strips. */
  lemma StripZeros(whole: Text, fraction: Text, exponent: int, a: nat, ds: Text, b: nat)
    requires Significant(ds)
    requires whole + fraction == Zeros(a) + ds + Zeros(b)
    ensures Normalize(whole, fraction, exponent) == (ds, |whole| - a + exponent)
  {
    var all := Zeros(a) + ds + Zeros(b);
    var end := a + |ds|;
    assert forall j :: 0 <= j < a ==> all[j] == ZERO;
    assert all[a] == ds[0] && SkipZeros(all) == a;
    assert forall j :: end <= j < |all| ==> all[j] == ZERO;
    assert all[end - 1] == ds[|ds| - 1] && TrimZeros(all, a, |all|) == end;
    assert all[a..end] == ds;
  }

  lemma ReadDotted(whole: Text, fraction: Text, exponent: int)
    requires AllDigits(whole)
    ensures ReadMantissa(whole + [DOT] + fraction, exponent) == Normalize(whole, fraction, exponent)
  {
    FindIs(whole, DOT, fraction);
    var t := whole + [DOT] + fraction;
    assert t[..|whole|] == whole && t[|whole| + 1..] == fraction;
  }

  lemma ReadUndotted(whole: Text, exponent: int)
    requires AllDigits(whole)
    ensures ReadMantissa(whole, exponent) == Normalize(whole, [], exponent)
  {
    assert Find(whole, DOT) == |whole| && whole[..|whole|] == whole;
  }

  lemma NoExponent(t: Text)
    requires forall i :: 0 <= i < |t| ==> IsDigit(t[i]) || t[i] == DOT
    ensures ReadMagnitude(t) == ReadMantissa(t, 0)
  {
    assert Find(t, EXP) == |t| && t[..|t|] == t;
  }

  lemma StripNone(whole: Text, fraction: Text, exponent: int, ds: Text)
    requires Significant(ds) && whole + fraction == ds
    ensures Normalize(whole, fraction, exponent) == (ds, |whole| + exponent)
  {
    assert ds == Zeros(0) + ds + Zeros(0);
    StripZeros(whole, fraction, exponent, 0, ds, 0);
  }

  lemma Rejoin(ds: Text, n: nat)
    requires n <= |ds|
    ensures ds[..n] + ds[n..] == ds
  {
  }

  lemma MantissaRoundTrip(ds: Text, e: int)
    requires Significant(ds)
    ensures ReadMantissa(Mantissa(ds), e) == (ds, e + 1)
  {
    if |ds| == 1 {
      ReadUndotted(ds, e);
      assert ds + [] == ds;
      StripNone(ds, [], e, ds);
    } else {
      ReadDotted(ds[..1], ds[1..], e);
      Rejoin(ds, 1);
      StripNone(ds[..1], ds[1..], e, ds);
    }
  }

  lemma SplitAtExponent(m: Text, e: int)
    requires EXP !in m
    ensures ReadMagnitude(m + [EXP] + SignedText(e)) == ReadMantissa(m, e)
  {
    var t := m + [EXP] + SignedText(e);
    FindIs(m, EXP, SignedText(e));
    assert t[..|m|] == m && t[|m| + 1..] == SignedText(e);
    SignedRoundTrip(e);
  }

  /** Where a layout puts the point. */
  function PointOf(digits: nat, l: Layout): int {
    match l
    case Whole(zeros) => digits + zeros
    case Split(n) => n
    case Fraction(zeros) => 0 - zeros
    case Scientific(e) => e + 1
  }

  lemma ReadScientific(ds: Text, e: int)
    requires Significant(ds)
    ensures ReadMagnitude(ScientificText(ds, e)) == (ds, e + 1)
  {
    assert EXP !in Mantissa(ds);
    SplitAtExponent(Mantissa(ds), e);
    MantissaRoundTrip(ds, e);
  }

  lemma ReadPlain(t: Text)
    requires AllDigits(t)
    ensures ReadMagnitude(t) == Normalize(t, [], 0)
  {
    NoExponent(t);
    ReadUndotted(t, 0);
  }

  lemma ReadPointed(whole: Text, fraction: Text)
    requires AllDigits(whole) && AllDigits(fraction)
    ensures ReadMagnitude(whole + [DOT] + fraction) == Normalize(whole, fraction, 0)
  {
    NoExponent(whole + [DOT] + fraction);
    ReadDotted(whole, fraction, 0);
  }

  lemma TrailingZeros(ds: Text, zeros: nat)
    requires Significant(ds)
    ensures Normalize(ds + Zeros(zeros), [], 0) == (ds, |ds| + zeros)
  {
    var whole := ds + Zeros(zeros);
    assert whole + [] == whole;
    assert Zeros(0) + ds == ds;
    StripZeros(whole, [], 0, 0, ds, zeros);
  }

  lemma ReadWhole(ds: Text, zeros: nat)
    requires Significant(ds)
    ensures ReadMagnitude(WholeText(ds, zeros)) == (ds, |ds| + zeros)
  {
    TrailingZeros(ds, zeros);
    ReadPlain(ds + Zeros(zeros));
  }

  lemma PointedReads(whole: Text, fraction: Text, ds: Text)
    requires AllDigits(whole) && AllDigits(fraction) && Significant(ds) && whole + fraction == ds
    ensures ReadMagnitude(whole + [DOT] + fraction) == (ds, |whole|)
  {
    ReadPointed(whole, fraction);
    StripNone(whole, fraction, 0, ds);
  }

  lemma ReadSplit(ds: Text, n: nat)
    requires Significant(ds) && 0 < n < |ds|
    ensures ReadMagnitude(SplitText(ds, n)) == (ds, n)
  {
    Rejoin(ds, n);
    PointedReads(ds[..n], ds[n..], ds);
  }

  lemma LeadingZeros(ds: Text, zeros: nat)
    requires Significant(ds)
    ensures Normalize([ZERO], Zeros(zeros) + ds, 0) == (ds, 0 - zeros)
  {
    var whole: Text := [ZERO];
    assert whole + (Zeros(zeros) + ds) == Zeros(1 + zeros) + ds + Zeros(0);
    StripZeros(whole, Zeros(zeros) + ds, 0, 1 + zeros, ds, 0);
  }

  lemma ReadFraction(ds: Text, zeros: nat)
    requires Significant(ds)
    ensures ReadMagnitude(FractionText(ds, zeros)) == (ds, 0 - zeros)
  {
    LeadingZeros(ds, zeros);
    ReadPointed([ZERO], Zeros(zeros) + ds);
  }

  /** Reading gives back the digits, and the point where the layout put it. */
  predicate ReadsBack(ds: Text, l: Layout)
    requires |ds| > 0 && (l.Split? ==> 0 < l.n < |ds|)
  {
    ReadMagnitude(LaidOut(ds, l)) == (ds, PointOf(|ds|, l))
  }

  /** Only the text and the point matter. */
  lemma TextReadsBack(ds: Text, l: Layout, t: Text, point: int)
    requires |ds| > 0 && (l.Split? ==> 0 < l.n < |ds|)
    requires LaidOut(ds, l) == t && PointOf(|ds|, l) == point && ReadMagnitude(t) == (ds, point)
    ensures ReadsBack(ds, l)
  {
  }

  lemma WholeReads(ds: Text, zeros: nat)
    requires Significant(ds)
    ensures ReadsBack(ds, Whole(zeros))
  {
    ReadWhole(ds, zeros);
    TextReadsBack(ds, Whole(zeros), WholeText(ds, zeros), |ds| + zeros);
  }

  lemma SplitReads(ds: Text, n: nat)
    requires Significant(ds) && 0 < n < |ds|
    ensures ReadsBack(ds, Split(n))
  {
    ReadSplit(ds, n);
    TextReadsBack(ds, Split(n), SplitText(ds, n), n);
  }

  lemma FractionReads(ds: Text, zeros: nat)
    requires Significant(ds)
    ensures ReadsBack(ds, Fraction(zeros))
  {
    ReadFraction(ds, zeros);
    TextReadsBack(ds, Fraction(zeros), FractionText(ds, zeros), 0 - zeros);
  }

  lemma ScientificReads(ds: Text, e: int)
    requires Significant(ds)
    ensures ReadsBack(ds, Scientific(e))
  {
    ReadScientific(ds, e);
    TextReadsBack(ds, Scientific(e), ScientificText(ds, e), e + 1);
  }

  lemma LayoutReads(ds: Text, l: Layout)
    requires Significant(ds) && (l.Split? ==> 0 < l.n < |ds|)
    ensures ReadsBack(ds, l)
  {
    match l
    case Whole(zeros) => WholeReads(ds, zeros);
    case Split(n) => SplitReads(ds, n);
    case Fraction(zeros) => FractionReads(ds, zeros);
    case Scientific(e) => ScientificReads(ds, e);
  }

  lemma LayoutKeepsPoint(digits: nat, n: int)
    requires digits > 0
    ensures PointOf(digits, LayoutOf(digits, n)) == n
  {
  }

  lemma MagnitudeRoundTrip(ds: Text, n: int)
    requires Significant(ds)
    ensures ReadMagnitude(Magnitude(ds, n)) == (ds, n)
  {
    LayoutReads(ds, LayoutOf(|ds|, n));
    LayoutKeepsPoint(|ds|, n);
  }

  predicate AllNumberUnits(t: Text) { forall i :: 0 <= i < |t| ==> IsNumberUnit(t[i]) }

  lemma Shapes(a: Text, u: Unit, b: Text)
    requires AllNumberUnits(a) && IsNumberUnit(u) && AllNumberUnits(b)
    ensures AllNumberUnits(a + [u] + b)
  {
  }

  lemma ScientificShape(ds: Text, e: int)
    requires |ds| > 0 && AllDigits(ds)
    ensures AllNumberUnits(ScientificText(ds, e)) && ScientificText(ds, e)[0] == ds[0]
  {
    assert AllNumberUnits(Mantissa(ds)) && Mantissa(ds)[0] == ds[0];
    assert AllNumberUnits(SignedText(e));
    Shapes(Mantissa(ds), EXP, SignedText(e));
  }

  lemma SplitShape(ds: Text, n: nat)
    requires 0 < n <= |ds| && AllDigits(ds)
    ensures AllNumberUnits(SplitText(ds, n)) && SplitText(ds, n)[0] == ds[0]
  {
    Shapes(ds[..n], DOT, ds[n..]);
  }

  lemma FractionShape(ds: Text, zeros: nat)
    requires AllDigits(ds)
    ensures AllNumberUnits(FractionText(ds, zeros)) && FractionText(ds, zeros)[0] == ZERO
  {
    Shapes([ZERO], DOT, Zeros(zeros) + ds);
  }

  lemma WholeShape(ds: Text, zeros: nat)
    requires |ds| > 0 && AllDigits(ds)
    ensures AllNumberUnits(WholeText(ds, zeros)) && WholeText(ds, zeros)[0] == ds[0]
  {
  }

  lemma LayoutShape(ds: Text, l: Layout)
    requires |ds| > 0 && AllDigits(ds) && (l.Split? ==> 0 < l.n < |ds|)
    ensures AllNumberUnits(LaidOut(ds, l)) && |LaidOut(ds, l)| > 0 && IsDigit(LaidOut(ds, l)[0])
  {
    match l
    case Whole(zeros) => WholeShape(ds, zeros);
    case Split(n) => SplitShape(ds, n);
    case Fraction(zeros) => FractionShape(ds, zeros);
    case Scientific(e) => ScientificShape(ds, e);
  }

  lemma MagnitudeShape(ds: Text, n: int)
    requires |ds| > 0 && AllDigits(ds)
    ensures AllNumberUnits(Magnitude(ds, n))
    ensures |Magnitude(ds, n)| > 0 && IsDigit(Magnitude(ds, n)[0])
  {
    LayoutShape(ds, LayoutOf(|ds|, n));
  }

  // ---- the text is a JSON number -----------------------------------------

  lemma PlainMantissa(t: Text)
    requires t != [] && AllDigits(t) && (t[0] == 48 ==> |t| == 1)
    ensures IsJsonMantissa(t)
  {
    assert Find(t, 46) == |t| && t[..|t|] == t;
  }

  lemma PointedMantissa(whole: Text, fraction: Text)
    requires whole != [] && AllDigits(whole) && (whole[0] == 48 ==> |whole| == 1)
    requires fraction != [] && AllDigits(fraction)
    ensures IsJsonMantissa(whole + [DOT] + fraction)
  {
    var t := whole + [DOT] + fraction;
    FindIs(whole, DOT, fraction);
    assert t[..|whole|] == whole && t[|whole| + 1..] == fraction;
  }

  lemma NoExponentJson(t: Text)
    requires IsJsonMantissa(t) && forall i :: 0 <= i < |t| ==> IsDigit(t[i]) || t[i] == DOT
    ensures IsJsonUnsigned(t)
  {
    assert Find(t, 101) == |t| && t[..|t|] == t;
  }

  lemma MantissaJson(ds: Text)
    requires Significant(ds)
    ensures IsJsonMantissa(Mantissa(ds))
  {
    if |ds| == 1 {
      PlainMantissa(ds);
    } else {
      PointedMantissa(ds[..1], ds[1..]);
    }
  }

  lemma ExponentJson(e: int)
    ensures IsJsonExponent(SignedText(e))
  {
    assert SignedText(e)[1..] == NatText(if e < 0 then -e else e);
  }

  lemma ScientificJson(ds: Text, e: int)
    requires Significant(ds)
    ensures IsJsonUnsigned(ScientificText(ds, e))
  {
    var m, t := Mantissa(ds), ScientificText(ds, e);
    assert EXP !in m;
    FindIs(m, EXP, SignedText(e));
    assert t[..|m|] == m && t[|m| + 1..] == SignedText(e);
    MantissaJson(ds);
    ExponentJson(e);
  }

  lemma WholeJson(ds: Text, zeros: nat)
    requires Significant(ds)
    ensures IsJsonUnsigned(WholeText(ds, zeros))
  {
    PlainMantissa(WholeText(ds, zeros));
    NoExponentJson(WholeText(ds, zeros));
  }

  lemma SplitJson(ds: Text, n: nat)
    requires Significant(ds) && 0 < n < |ds|
    ensures IsJsonUnsigned(SplitText(ds, n))
  {
    PointedMantissa(ds[..n], ds[n..]);
    NoExponentJson(SplitText(ds, n));
  }

  lemma FractionJson(ds: Text, zeros: nat)
    requires Significant(ds)
    ensures IsJsonUnsigned(FractionText(ds, zeros))
  {
    PointedMantissa([ZERO], Zeros(zeros) + ds);
    NoExponentJson(FractionText(ds, zeros));
  }

  lemma LayoutJson(ds: Text, l: Layout)
    requires Significant(ds) && (l.Split? ==> 0 < l.n < |ds|)
    ensures IsJsonUnsigned(LaidOut(ds, l))
  {
    match l
    case Whole(zeros) => WholeJson(ds, zeros);
    case Split(n) => SplitJson(ds, n);
    case Fraction(zeros) => FractionJson(ds, zeros);
    case Scientific(e) => ScientificJson(ds, e);
  }

  /** Every number is printed by the grammar of JSON. */
  lemma PrintIsJson(x: Number)
    requires x.Valid() && !x.NonFinite?
    ensures IsJsonNumber(Print(x))
  {
    if x.Decimal? {
      var m := Magnitude(x.digits, x.point);
      LayoutJson(x.digits, LayoutOf(|x.digits|, x.point));
      LayoutShape(x.digits, LayoutOf(|x.digits|, x.point));
      if x.neg {
        assert Print(x)[1..] == m;
      } else {
        assert Print(x) == m;
      }
    } else {
      PlainMantissa(Print(x));
      NoExponentJson(Print(x));
    }
  }

  /** With the point past the digits but at most at 21: the digits and the zeros up to the point. */
  lemma WholeExactly(ds: Text, n: int)
    requires Significant(ds) && |ds| <= n <= 21
    ensures |Magnitude(ds, n)| == n && AllDigits(Magnitude(ds, n)) && ds <= Magnitude(ds, n)
  {
    assert Magnitude(ds, n) == WholeText(ds, n - |ds|);
  }

  /** With the point among them: the digits and a point. */
  lemma SplitExactly(ds: Text, n: int)
    requires Significant(ds) && 0 < n < |ds| && n <= 21
    ensures Magnitude(ds, n) == ds[..n] + [46] + ds[n..]
  {
    assert Magnitude(ds, n) == SplitText(ds, n);
  }

  /** With the point up to five places before them: 0. and zeros up to the digits. */
  lemma FractionExactly(ds: Text, n: int)
    requires Significant(ds) && -6 < n <= 0
    ensures var t := Magnitude(ds, n);
            && |t| == |ds| - n + 2 && t[..2] == [48, 46]
            && (forall i :: 2 <= i < 2 - n ==> t[i] == 48) && t[2 - n..] == ds
  {
    assert Magnitude(ds, n) == FractionText(ds, -n);
  }

  /** Anywhere else: one digit, the others after a point, e, a sign, and the exponent without zeros before it. */
  lemma ScientificExactly(ds: Text, n: int)
    requires Significant(ds) && (n <= -6 || n > 21)
    ensures exists x: Text :: x != [] && x[0] != 48 && AllDigits(x) && Magnitude(ds, n) ==
              (if |ds| == 1 then ds else [ds[0], 46] + ds[1..]) + [101] + ([if n > 0 then 43 else 45] + x)
  {
    var e := if n > 0 then n - 1 else 1 - n;
    NoLeadingZero(e);
    assert Magnitude(ds, n) == ScientificText(ds, n - 1);
    assert |ds| > 1 ==> Mantissa(ds) == [ds[0], 46] + ds[1..];
    assert SignedText(n - 1) == [if n > 0 then 43 else 45] + NatText(e);
    assert Magnitude(ds, n) ==
      (if |ds| == 1 then ds else [ds[0], 46] + ds[1..]) + [101] + ([if n > 0 then 43 else 45] + NatText(e));
  }

  lemma {:induction false} NoLeadingZero(n: nat)
    ensures NatText(n)[0] == 48 ==> n == 0
  {
    if n >= 10 {
      NoLeadingZero(n / 10);
    }
  }

  lemma PrintShape(x: Number)
    requires x.Valid() && !x.NonFinite?
    ensures AllNumberUnits(Print(x))
    ensures |Print(x)| > 0 && (IsDigit(Print(x)[0]) || Print(x)[0] == MINUS)
  {
    if x.Decimal? {
      MagnitudeShape(x.digits, x.point);
    }
  }

  /** The text identifies the number, except that the two zeros share one. */
  lemma RoundTrip(x: Number)
    requires x.Valid() && !x.NonFinite?
    ensures Read(Print(x)) == if x.NegZero? then Zero else x
  {
    if x.Decimal? {
      MagnitudeShape(x.digits, x.point);
      MagnitudeRoundTrip(x.digits, x.point);
      if x.neg {
        assert Print(x)[1..] == Magnitude(x.digits, x.point);
      } else {
        assert Print(x) == Magnitude(x.digits, x.point);
      }
    } else {
      NoExponent(Print(x));
      ReadUndotted(Print(x), 0);
    }
  }
}
