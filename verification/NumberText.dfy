/**
 IEEE doubles as JavaScript prints them. A non-zero finite double is represented by the digits
 and the point position of its shortest round-tripping decimal, which is how
 `Number::toString` (ECMA-262 section 6.1.6.1.20) describes it: the value is
 0.d1 d2 ... dk times ten to the power `point`.
 */
module NumberText {
  import opened Utf16Text

  type Digit = d: int | 0 <= d <= 9

  /** Shortest decimals neither start nor end with a zero. */
  type Digits = s: seq<Digit> | |s| > 0 && s[0] != 0 && s[|s| - 1] != 0 witness [1]

  datatype Num =
    | NaN
    | Infinity(negative: bool)
    | Zero(negative: bool)
    | Finite(negative: bool, digits: Digits, point: int)
  {
    predicate IsFinite() { Zero? || Finite? }
  }

  const DOT: Unit := '.' as int
  const EXPONENT: Unit := 'e' as int
  const ZERO: Unit := '0' as int
  const MINUS: Unit := '-' as int
  const PLUS: Unit := '+' as int

  predicate IsDigitUnit(u: Unit) { ZERO <= u <= ZERO + 9 }

  function DigitText(d: seq<Digit>): (t: Text)
    ensures |t| == |d| && forall i :: 0 <= i < |t| ==> IsDigitUnit(t[i])
  {
    seq(|d|, i requires 0 <= i < |d| => ZERO + d[i])
  }

  function Zeros(n: nat): (t: Text)
    ensures |t| == n && forall i :: 0 <= i < n ==> t[i] == ZERO
  {
    seq(n, _ => ZERO)
  }

  function NatText(n: nat): (t: Text)
    ensures |t| > 0 && forall i :: 0 <= i < |t| ==> IsDigitUnit(t[i])
  {
    if n < 10 then [ZERO + n] else NatText(n / 10) + [ZERO + n % 10]
  }

  function Mantissa(digits: Digits): (t: Text)
  {
    var d := DigitText(digits);
    if |d| == 1 then d else d[..1] + [DOT] + d[1..]
  }

  function ExponentText(e: int): Text
  {
    [if e < 0 then MINUS else PLUS] + NatText(if e < 0 then -e else e)
  }

  /** The four layouts of `Number::toString`, chosen by digit count and point position. */
  function Magnitude(digits: Digits, point: int): Text
  {
    var d := DigitText(digits);
    if |d| <= point <= 21 then
      d + Zeros(point - |d|)
    else if 0 < point <= 21 then
      d[..point] + [DOT] + d[point..]
    else if -6 < point <= 0 then
      [ZERO] + [DOT] + (Zeros(-point) + d)
    else
      Mantissa(digits) + [EXPONENT] + ExponentText(point - 1)
  }

  function NumberToString(x: Num): Text
  {
    match x
    case NaN => Ascii("NaN")
    case Infinity(negative) => if negative then Ascii("-Infinity") else Ascii("Infinity")
    case Zero(_) => [ZERO]
    case Finite(negative, digits, point) =>
      if negative then [MINUS] + Magnitude(digits, point) else Magnitude(digits, point)
  }

  // ----- The printed form of a finite number determines it, up to the sign of zero -----

  /** A separator that does not occur before it splits a text in one way only. */
  lemma SplitOnce(p: Text, u: Text, q: Text, v: Text, sep: Unit)
    requires p + [sep] + u == q + [sep] + v
    requires sep !in p && sep !in q
    ensures p == q && u == v
  {
    var t := p + [sep] + u;
    assert t[|p|] == sep && t[|q|] == sep;
    assert t == q + [sep] + v;
    assert forall i :: 0 <= i < |p| ==> t[i] == p[i] != sep;
    assert forall i :: 0 <= i < |q| ==> t[i] == q[i] != sep;
    assert p == t[..|p|] && q == t[..|q|];
    assert u == t[|p| + 1..] && v == t[|q| + 1..];
  }

  lemma DigitTextInjective(a: seq<Digit>, b: seq<Digit>)
    requires DigitText(a) == DigitText(b)
    ensures a == b
  {
    forall i | 0 <= i < |a| ensures a[i] == b[i] {
      assert DigitText(a)[i] == DigitText(b)[i];
    }
  }

  lemma {:induction false} NatTextInjective(a: nat, b: nat)
    requires NatText(a) == NatText(b)
    ensures a == b
  {
    var s, t := NatText(a), NatText(b);
    assert (a >= 10 <==> |s| >= 2) && (b >= 10 <==> |t| >= 2);
    if a >= 10 && b >= 10 {
      assert s[..|s| - 1] == NatText(a / 10) && t[..|t| - 1] == NatText(b / 10);
      assert s[|s| - 1] == ZERO + a % 10 && t[|t| - 1] == ZERO + b % 10;
      NatTextInjective(a / 10, b / 10);
    } else {
      assert s[0] == t[0];
    }
  }

  /** Trailing zeros can be told from digits that end in a non-zero digit. */
  lemma TrailingZeros(a: Digits, m: nat, b: Digits, n: nat)
    requires DigitText(a) + Zeros(m) == DigitText(b) + Zeros(n)
    ensures a == b && m == n
  {
    var s, t := DigitText(a) + Zeros(m), DigitText(b) + Zeros(n);
    assert s[|a| - 1] == ZERO + a[|a| - 1] && t[|b| - 1] == ZERO + b[|b| - 1];
    assert forall i :: |a| <= i < |s| ==> s[i] == ZERO;
    assert forall i :: |b| <= i < |t| ==> t[i] == ZERO;
    assert DigitText(a) == s[..|a|] == t[..|b|] == DigitText(b);
    DigitTextInjective(a, b);
  }

  /** Leading zeros can be told from digits that start with a non-zero digit. */
  lemma LeadingZeros(m: nat, a: Digits, n: nat, b: Digits)
    requires Zeros(m) + DigitText(a) == Zeros(n) + DigitText(b)
    ensures a == b && m == n
  {
    var s, t := Zeros(m) + DigitText(a), Zeros(n) + DigitText(b);
    assert s[m] == ZERO + a[0] && t[n] == ZERO + b[0];
    assert forall i :: 0 <= i < m ==> s[i] == ZERO;
    assert forall i :: 0 <= i < n ==> t[i] == ZERO;
    assert DigitText(a) == s[m..] == t[n..] == DigitText(b);
    DigitTextInjective(a, b);
  }

  lemma DotInside(a: seq<Digit>, m: nat, b: seq<Digit>, n: nat)
    requires m <= |a| && n <= |b|
    requires DigitText(a)[..m] + [DOT] + DigitText(a)[m..] == DigitText(b)[..n] + [DOT] + DigitText(b)[n..]
    ensures a == b && m == n
  {
    var s, t := DigitText(a), DigitText(b);
    SplitOnce(s[..m], s[m..], t[..n], t[n..], DOT);
    assert s == s[..m] + s[m..] && t == t[..n] + t[n..];
    DigitTextInjective(a, b);
  }

  datatype Layout = Whole | Inside | Below | Scientific

  function LayoutOf(digits: Digits, point: int): Layout
  {
    if |digits| <= point <= 21 then Whole
    else if 0 < point <= 21 then Inside
    else if -6 < point <= 0 then Below
    else Scientific
  }

  lemma ScientificVisible(digits: Digits, point: int)
    ensures var t := Mantissa(digits) + [EXPONENT] + ExponentText(point - 1);
            && IsDigitUnit(t[0]) && t[0] != ZERO && EXPONENT in t && forall u :: u in t ==> IsNumberUnit(u)
  {
    var t := Mantissa(digits) + [EXPONENT] + ExponentText(point - 1);
    assert t[|Mantissa(digits)|] == EXPONENT;
  }

  /** Each layout is recognisable from the text alone. */
  lemma LayoutVisible(digits: Digits, point: int)
    ensures var t := Magnitude(digits, point);
            var l := LayoutOf(digits, point);
            && t != [] && IsDigitUnit(t[0])
            && (EXPONENT in t <==> l.Scientific?)
            && (!l.Scientific? ==> (DOT in t <==> !l.Whole?))
            && (t[0] == ZERO <==> l.Below?)
            && forall u :: u in t ==> IsNumberUnit(u)
  {
    var t, d := Magnitude(digits, point), DigitText(digits);
    assert forall u :: u in d ==> IsDigitUnit(u) && u != DOT && u != EXPONENT;
    ScientificVisible(digits, point);
    hide Mantissa;
    hide ExponentText;
    assert d[0] == ZERO + digits[0];
    match LayoutOf(digits, point)
    case Whole => assert t[0] == d[0];
    case Inside => assert t[point] == DOT && t[0] == d[0];
    case Below => assert t[1] == DOT && t[0] == ZERO;
    case Scientific =>
  }

  predicate IsNumberUnit(u: Unit)
  {
    IsDigitUnit(u) || u == DOT || u == EXPONENT || u == MINUS || u == PLUS
  }

  lemma MagnitudeInjective(a: Digits, m: int, b: Digits, n: int)
    requires Magnitude(a, m) == Magnitude(b, n)
    ensures a == b && m == n
  {
    LayoutVisible(a, m);
    LayoutVisible(b, n);
    assert LayoutOf(a, m) == LayoutOf(b, n);
    var s, t := DigitText(a), DigitText(b);
    match LayoutOf(a, m)
    case Whole => TrailingZeros(a, m - |a|, b, n - |b|);
    case Inside => DotInside(a, m, b, n);
    case Below =>
      assert Magnitude(a, m)[2..] == Zeros(-m) + s && Magnitude(b, n)[2..] == Zeros(-n) + t;
      LeadingZeros(-m, a, -n, b);
    case Scientific => ScientificInjective(a, m, b, n);
  }

  lemma ScientificInjective(a: Digits, m: int, b: Digits, n: int)
    requires Mantissa(a) + [EXPONENT] + ExponentText(m - 1) == Mantissa(b) + [EXPONENT] + ExponentText(n - 1)
    ensures a == b && m == n
  {
    SplitOnce(Mantissa(a), ExponentText(m - 1), Mantissa(b), ExponentText(n - 1), EXPONENT);
    var x, y := ExponentText(m - 1), ExponentText(n - 1);
    assert x[0] == y[0] && x[1..] == y[1..];
    NatTextInjective(if m < 1 then 1 - m else m - 1, if n < 1 then 1 - n else n - 1);
    MantissaInjective(a, b);
  }

  lemma MantissaInjective(a: Digits, b: Digits)
    requires Mantissa(a) == Mantissa(b)
    ensures a == b
  {
    assert (|a| > 1 <==> |Mantissa(a)| > 1) && (|b| > 1 <==> |Mantissa(b)| > 1);
    if |a| == 1 {
      DigitTextInjective(a, b);
    } else {
      DotInside(a, 1, b, 1);
    }
  }

  /** JavaScript's `===` on finite numbers: the two zeros are one number. */
  function NormalNum(x: Num): Num
  {
    if x.Zero? then Zero(false) else x
  }

  lemma NumberToStringInjective(x: Num, y: Num)
    requires x.IsFinite() && y.IsFinite()
    ensures NumberToString(x) == NumberToString(y) <==> NormalNum(x) == NormalNum(y)
  {
    NumberShape(x);
    NumberShape(y);
    if NumberToString(x) == NumberToString(y) && x.Finite? && y.Finite? {
      assert x.negative == y.negative;
      var s, t := NumberToString(x), NumberToString(y);
      if x.negative {
        assert s[1..] == Magnitude(x.digits, x.point) && t[1..] == Magnitude(y.digits, y.point);
      }
      MagnitudeInjective(x.digits, x.point, y.digits, y.point);
    } else if NumberToString(x) == NumberToString(y) && x.Finite? != y.Finite? {
      ZeroIsAlone(if x.Finite? then x else y);
    }
  }

  /** No non-zero number prints as the text of zero. */
  lemma ZeroIsAlone(x: Num)
    requires x.Finite?
    ensures NumberToString(x) != [ZERO]
  {
    LayoutVisible(x.digits, x.point);
    if !x.negative && LayoutOf(x.digits, x.point).Below? {
      assert Magnitude(x.digits, x.point)[1] == DOT;
    }
  }

  lemma NumberShape(x: Num)
    requires x.IsFinite()
    ensures var t := NumberToString(x);
            && t != []
            && (t[0] == MINUS <==> x.Finite? && x.negative)
            && (t[0] != MINUS ==> IsDigitUnit(t[0]))
            && forall u :: u in t ==> IsNumberUnit(u)
  {
    if x.Finite? {
      LayoutVisible(x.digits, x.point);
    }
  }

  // ----- Order and integrality, for the numeric schema keywords -----

  function Power10(e: int): real
    decreases if e < 0 then -e else e
  {
    if e == 0 then 1.0 else if e > 0 then 10.0 * Power10(e - 1) else Power10(e + 1) / 10.0
  }

  function DigitsValue(d: seq<Digit>): nat
  {
    if d == [] then 0 else 10 * DigitsValue(d[..|d| - 1]) + d[|d| - 1]
  }

  function Value(x: Num): real
    requires x.IsFinite()
  {
    if x.Zero? then 0.0
    else
      var magnitude := DigitsValue(x.digits) as real * Power10(x.point - |x.digits|);
      if x.negative then -magnitude else magnitude
  }

  /** JavaScript's `<`: false as soon as either side is NaN. */
  predicate Less(x: Num, y: Num)
  {
    if x.NaN? || y.NaN? then false
    else if x.Infinity? then x.negative && !(y.Infinity? && y.negative)
    else if y.Infinity? then !y.negative
    else Value(x) < Value(y)
  }

  predicate IsSafeInteger(x: Num)
  {
    x.IsFinite() && Value(x).Floor as real == Value(x) && -9007199254740991.0 <= Value(x) <= 9007199254740991.0
  }
}
