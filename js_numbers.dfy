/** JavaScript number values and the two conversions the probe engine leans on:
    number to string (template literals, property keys, array joins) and
    string to number (`Number(x)`, `isNaN(x)`, loose `==`).

    A finite number is kept as an exact decimal `mantissa / 10^scale`; the
    binary rounding of IEEE-754 doubles is not modelled. */
module JsNumbers {
  import opened Wrappers

  datatype Number = NaN | Infinity(negative: bool) | Finite(mantissa: int, scale: nat)

  function Pow10(k: nat): (p: nat)
    ensures p >= 1
  {
    if k == 0 then 1 else 10 * Pow10(k - 1)
  }

  function Abs(i: int): nat {
    if i < 0 then -i else i
  }

  function FromInt(i: int): Number {
    Finite(i, 0)
  }

  /** Strict equality `===` of two numbers: NaN equals nothing, not even itself. */
  predicate SameValue(a: Number, b: Number) {
    match (a, b)
    case (Finite(m1, k1), Finite(m2, k2)) => m1 * Pow10(k2) == m2 * Pow10(k1)
    case (Infinity(n1), Infinity(n2)) => n1 == n2
    case _ => false
  }

  /** NaN is the same value as nothing, itself included. */
  lemma NaNSameAsNothing(a: Number, b: Number)
    requires a.NaN?
    ensures !SameValue(a, b) && !SameValue(b, a)
  {
  }

  /** `n === i` for an integer `i`, as in a comparison with a status code. */
  predicate EqualsInt(n: Number, i: int) {
    SameValue(n, FromInt(i))
  }

  /** `n > i` for an integer `i`; NaN compares false with everything. */
  predicate GreaterThanInt(n: Number, i: int) {
    match n
    case NaN => false
    case Infinity(neg) => !neg
    case Finite(m, k) => m > i * Pow10(k)
  }

  /** The truthiness of a number: false for NaN and zero. */
  predicate Truthy(n: Number) {
    match n
    case NaN => false
    case Infinity(_) => true
    case Finite(m, _) => m != 0
  }

  function Negate(n: Number): Number {
    match n
    case NaN => NaN
    case Infinity(neg) => Infinity(!neg)
    case Finite(m, k) => Finite(-m, k)
  }

  // ---------------------------------------------------------------------------
  // Decimal digits

  predicate IsDigit(c: char) {
    '0' <= c <= '9'
  }

  predicate AllDigits(s: string) {
    forall i :: 0 <= i < |s| ==> IsDigit(s[i])
  }

  function DigitValue(c: char): (d: nat)
    requires IsDigit(c)
    ensures d < 10
  {
    c as int - '0' as int
  }

  function DigitChar(d: nat): (c: char)
    requires d < 10
    ensures IsDigit(c) && DigitValue(c) == d
  {
    ('0' as int + d) as char
  }

  /** The value of a string of decimal digits, most significant first. */
  function DigitsValue(s: string): nat
    requires AllDigits(s)
  {
    if s == [] then 0 else DigitsValue(s[..|s| - 1]) * 10 + DigitValue(s[|s| - 1])
  }

  /** The canonical decimal spelling of a natural number: no leading zero
      except for zero itself. */
  function NatToString(n: nat): (s: string)
    ensures |s| >= 1 && AllDigits(s)
    ensures s[0] == '0' ==> n == 0 && s == "0"
  {
    if n < 10 then [DigitChar(n)] else NatToString(n / 10) + [DigitChar(n % 10)]
  }

  function IntToString(i: int): (s: string)
    ensures |s| >= 1
  {
    if i < 0 then "-" + NatToString(-i) else NatToString(i)
  }

  /** The last `k` decimal digits of `a`, zero-padded on the left. */
  function FixedDigits(a: nat, k: nat): (s: string)
    ensures |s| == k && AllDigits(s)
  {
    if k == 0 then "" else FixedDigits(a / 10, k - 1) + [DigitChar(a % 10)]
  }

  /** `a` without its last `k` decimal digits. */
  function Shift(a: nat, k: nat): nat {
    if k == 0 then a else Shift(a / 10, k - 1)
  }

  lemma {:induction false} NatToStringValue(n: nat)
    ensures DigitsValue(NatToString(n)) == n
  {
    if n >= 10 {
      var s := NatToString(n);
      assert s[..|s| - 1] == NatToString(n / 10);
      NatToStringValue(n / 10);
    }
  }

  lemma {:induction false} ShiftAndFixedDigits(a: nat, k: nat)
    ensures Shift(a, k) * Pow10(k) + DigitsValue(FixedDigits(a, k)) == a
  {
    if k > 0 {
      var s := FixedDigits(a, k);
      var t := FixedDigits(a / 10, k - 1);
      assert s[..|s| - 1] == t;
      assert DigitsValue(s) == DigitsValue(t) * 10 + a % 10;
      ShiftAndFixedDigits(a / 10, k - 1);
      DigitStep(Shift(a, k), Pow10(k - 1), DigitsValue(t), a / 10, a % 10);
    }
  }

  /** Appending a digit `r` to both parts of `h * p + d == q` multiplies by
      ten and adds `r`. */
  lemma DigitStep(h: int, p: int, d: int, q: int, r: int)
    requires h * p + d == q
    ensures h * (10 * p) + (d * 10 + r) == 10 * q + r
  {
  }

  /** A canonical array index spelling ("0", "1", ..., never "01"), as used
      when a string is a property key of an array or string. */
  function CanonicalIndex(key: string): (r: Option<nat>)
    ensures r.Some? ==> NatToString(r.value) == key
  {
    if |key| >= 1 && AllDigits(key) && (key[0] != '0' || |key| == 1) then
      NatToStringOfDigits(key);
      Some(DigitsValue(key))
    else
      None
  }

  lemma {:induction false} NatToStringOfDigits(s: string)
    requires |s| >= 1 && AllDigits(s) && (s[0] != '0' || |s| == 1)
    ensures NatToString(DigitsValue(s)) == s
  {
    if |s| > 1 {
      var p := s[..|s| - 1];
      NatToStringOfDigits(p);
      assert p[0] != '0';
    }
  }

  lemma CanonicalIndexOfNatToString(n: nat)
    ensures CanonicalIndex(NatToString(n)) == Some(n)
  {
    NatToStringValue(n);
  }

  // ---------------------------------------------------------------------------
  // Number to string

  /** Strips trailing zero digits of the fraction without changing the value. */
  function Normalize(m: int, k: nat): (r: (int, nat))
    ensures r.1 <= k
    ensures r.1 > 0 ==> r.0 % 10 != 0
    decreases k
  {
    if k > 0 && m % 10 == 0 then Normalize(m / 10, k - 1) else (m, k)
  }

  lemma {:induction false} NormalizeKeepsValue(m: int, k: nat)
    ensures SameValue(Finite(m, k), Finite(Normalize(m, k).0, Normalize(m, k).1))
    decreases k
  {
    if k > 0 && m % 10 == 0 {
      var r := Normalize(m / 10, k - 1);
      NormalizeKeepsValue(m / 10, k - 1);
      assert m == 10 * (m / 10);
      ScaleStep(m, m / 10, Pow10(r.1), r.0, Pow10(k - 1));
    }
  }

  /** Scaling one side of `q * a == c * b` by ten scales the other. */
  lemma ScaleStep(m: int, q: int, a: int, c: int, b: int)
    requires m == 10 * q && q * a == c * b
    ensures m * a == c * (10 * b)
  {
  }

  /** `a / 10^k` spelled with exactly `k` fraction digits. */
  function DecimalString(a: nat, k: nat): string {
    NatToString(Shift(a, k)) + "." + FixedDigits(a, k)
  }

  /** `a / 10^k` in decimal: an integer when `k` is zero. */
  function UnsignedSpelling(a: nat, k: nat): string {
    if k == 0 then NatToString(a) else DecimalString(a, k)
  }

  /** `String(n)`: shortest decimal spelling, "NaN" and "Infinity" for the
      non-finite values. */
  function NumberToString(n: Number): (s: string)
    ensures |s| >= 1
  {
    match n
    case NaN => "NaN"
    case Infinity(neg) => if neg then "-Infinity" else "Infinity"
    case Finite(m, k) =>
      var r := Normalize(m, k);
      (if r.0 < 0 then "-" else "") + UnsignedSpelling(Abs(r.0), r.1)
  }

  // ---------------------------------------------------------------------------
  // String to number

  /** The white space and line terminators that `Number(s)` ignores at both ends. */
  predicate IsWhitespace(c: char) {
    c == '\t' || c == '\n' || c == '\U{B}' || c == '\U{C}' || c == '\r' || c == ' '
    || c == '\U{A0}' || c == '\U{1680}' || ('\U{2000}' <= c <= '\U{200A}')
    || c == '\U{2028}' || c == '\U{2029}' || c == '\U{202F}' || c == '\U{205F}'
    || c == '\U{3000}' || c == '\U{FEFF}'
  }

  function TrimStart(s: string): (t: string)
    ensures |t| <= |s| && t == s[|s| - |t|..]
    ensures t != [] ==> !IsWhitespace(t[0])
  {
    if s != [] && IsWhitespace(s[0]) then TrimStart(s[1..]) else s
  }

  function TrimEnd(s: string): (t: string)
    ensures |t| <= |s| && t == s[..|t|]
    ensures t != [] ==> !IsWhitespace(t[|t| - 1])
  {
    if s != [] && IsWhitespace(s[|s| - 1]) then TrimEnd(s[..|s| - 1]) else s
  }

  function Trim(s: string): string {
    TrimEnd(TrimStart(s))
  }

  /** The first position of a character of `cs` in `s`. */
  function IndexOfAny(s: string, cs: set<char>): (r: Option<nat>)
    ensures r.Some? ==> r.value < |s| && s[r.value] in cs && forall i :: 0 <= i < r.value ==> s[i] !in cs
    ensures r.None? ==> forall i :: 0 <= i < |s| ==> s[i] !in cs
  {
    if s == [] then None
    else if s[0] in cs then Some(0)
    else match IndexOfAny(s[1..], cs)
      case None => None
      case Some(i) => Some(i + 1)
  }

  function RadixDigit(c: char, radix: nat): Option<nat> {
    var d :=
      if '0' <= c <= '9' then c as int - '0' as int
      else if 'a' <= c <= 'z' then c as int - 'a' as int + 10
      else if 'A' <= c <= 'Z' then c as int - 'A' as int + 10
      else 36;
    if d < radix then Some(d) else None
  }

  /** The value of a non-empty digit string in base `radix`, if every
      character is a digit of that base. */
  function RadixValue(s: string, radix: nat): Option<nat>
    decreases |s|
  {
    if s == [] then None
    else
      var d := RadixDigit(s[|s| - 1], radix);
      if d.None? then None
      else if |s| == 1 then d
      else match RadixValue(s[..|s| - 1], radix)
        case None => None
        case Some(v) => Some(v * radix + d.value)
  }

  /** An optional sign followed by at least one digit: an exponent part. */
  function ParseExponent(s: string): Option<int> {
    if |s| >= 2 && (s[0] == '+' || s[0] == '-') && AllDigits(s[1..]) then
      var v: int := DigitsValue(s[1..]);
      Some(if s[0] == '-' then -v else v)
    else if |s| >= 1 && AllDigits(s) then
      Some(DigitsValue(s))
    else
      None
  }

  /** An unsigned decimal literal taken apart: the digits before the point,
      the digits after it and the exponent. */
  datatype DecimalParts = DecimalParts(whole: string, fraction: string, exponent: int)

  /** `digits`, `digits.`, `digits.digits` or `.digits`, then an optional
      exponent `e`/`E` with an optional sign. */
  function SplitDecimal(u: string): (r: Option<DecimalParts>)
    ensures r.Some? ==> AllDigits(r.value.whole) && AllDigits(r.value.fraction)
  {
    var (mant, exp) :=
      match IndexOfAny(u, {'e', 'E'})
      case None => (u, Some(0))
      case Some(e) => (u[..e], ParseExponent(u[e + 1..]));
    var (whole, fraction) :=
      match IndexOfAny(mant, {'.'})
      case None => (mant, "")
      case Some(d) => (mant[..d], mant[d + 1..]);
    if exp.None? || !AllDigits(whole) || !AllDigits(fraction) || |whole| + |fraction| == 0 then None
    else Some(DecimalParts(whole, fraction, exp.value))
  }

  function PartsValue(p: DecimalParts): Number
    requires AllDigits(p.whole) && AllDigits(p.fraction)
  {
    var m := DigitsValue(p.whole) * Pow10(|p.fraction|) + DigitsValue(p.fraction);
    var shift := |p.fraction| - p.exponent;
    if shift >= 0 then Finite(m, shift) else Finite(m * Pow10(-shift), 0)
  }

  function ParseUnsigned(u: string): Option<Number> {
    match SplitDecimal(u)
    case None => None
    case Some(p) => Some(PartsValue(p))
  }

  /** A decimal literal with an optional sign. */
  function ParseDecimal(t: string): Option<Number> {
    if t != [] && t[0] == '-' then
      match ParseUnsigned(t[1..])
      case None => None
      case Some(n) => Some(Negate(n))
    else if t != [] && t[0] == '+' then ParseUnsigned(t[1..])
    else ParseUnsigned(t)
  }

  /** The sign of `Infinity`, `+Infinity` or `-Infinity`. */
  function InfinityLiteral(t: string): Option<bool> {
    if t == "Infinity" || t == "+Infinity" then Some(false)
    else if t == "-Infinity" then Some(true)
    else None
  }

  /** `0x`, `0o` or `0b` (either case) followed by something. */
  predicate RadixPrefixed(t: string) {
    |t| > 2 && t[0] == '0' && t[1] in {'x', 'X', 'o', 'O', 'b', 'B'}
  }

  function RadixLiteral(t: string): Number
    requires RadixPrefixed(t)
  {
    var radix := if t[1] in {'x', 'X'} then 16 else if t[1] in {'o', 'O'} then 8 else 2;
    match RadixValue(t[2..], radix)
    case None => NaN
    case Some(v) => Finite(v, 0)
  }

  /** `Number(t)` for a string without white space at either end. */
  function TrimmedToNumber(t: string): Number {
    if t == "" then Finite(0, 0)
    else if InfinityLiteral(t).Some? then Infinity(InfinityLiteral(t).value)
    else if RadixPrefixed(t) then RadixLiteral(t)
    else match ParseDecimal(t)
      case None => NaN
      case Some(n) => n
  }

  /** `Number(s)` for a string `s`. */
  function StringToNumber(s: string): (r: Number)
    ensures (forall i :: 0 <= i < |s| ==> IsWhitespace(s[i])) ==> r == Finite(0, 0)
  {
    TrimmedToNumber(Trim(s))
  }

  // ---------------------------------------------------------------------------
  // Properties

  lemma TrimUnpadded(s: string)
    requires s != [] && !IsWhitespace(s[0]) && !IsWhitespace(s[|s| - 1])
    ensures Trim(s) == s
  {
  }

  lemma SplitDecimalOfInteger(a: string)
    requires |a| >= 1 && AllDigits(a)
    ensures SplitDecimal(a) == Some(DecimalParts(a, "", 0))
  {
    if IndexOfAny(a, {'e', 'E'}).Some? {
      assert false;
    }
    if IndexOfAny(a, {'.'}).Some? {
      assert false;
    }
  }

  lemma SplitDecimalOfFraction(a: string, f: string)
    requires AllDigits(a) && AllDigits(f)
    ensures SplitDecimal(a + "." + f) == Some(DecimalParts(a, f, 0)) || |a| + |f| == 0
  {
    var u := a + "." + f;
    assert forall i :: 0 <= i < |u| ==> IsDigit(u[i]) || u[i] == '.';
    if IndexOfAny(u, {'e', 'E'}).Some? {
      assert false;
    }
    var d := IndexOfAny(u, {'.'});
    assert u[|a|] == '.';
    if d.None? {
      assert false;
    } else if d.value < |a| {
      assert false;
    }
    assert u[..|a|] == a && u[|a| + 1..] == f;
  }

  lemma ParseUnsignedInteger(a: string)
    requires |a| >= 1 && AllDigits(a)
    ensures ParseUnsigned(a) == Some(Finite(DigitsValue(a), 0))
  {
    IntegerParts(a);
    IntegerPartsValue(a);
  }

  lemma IntegerParts(a: string)
    requires |a| >= 1 && AllDigits(a)
    ensures ParseUnsigned(a) == Some(PartsValue(DecimalParts(a, "", 0)))
  {
    SplitDecimalOfInteger(a);
  }

  lemma IntegerPartsValue(a: string)
    requires AllDigits(a)
    ensures PartsValue(DecimalParts(a, "", 0)) == Finite(DigitsValue(a), 0)
  {
    assert DigitsValue("") == 0 && Pow10(0) == 1;
  }

  lemma ParseUnsignedFraction(a: string, f: string)
    requires |a| >= 1 && AllDigits(a) && AllDigits(f)
    ensures ParseUnsigned(a + "." + f) == Some(Finite(DigitsValue(a) * Pow10(|f|) + DigitsValue(f), |f|))
  {
    FractionParts(a, f);
    FractionPartsValue(a, f);
  }

  lemma FractionParts(a: string, f: string)
    requires |a| >= 1 && AllDigits(a) && AllDigits(f)
    ensures ParseUnsigned(a + "." + f) == Some(PartsValue(DecimalParts(a, f, 0)))
  {
    SplitDecimalOfFraction(a, f);
  }

  lemma FractionPartsValue(a: string, f: string)
    requires AllDigits(a) && AllDigits(f)
    ensures PartsValue(DecimalParts(a, f, 0)) == Finite(DigitsValue(a) * Pow10(|f|) + DigitsValue(f), |f|)
  {
  }

  /** A literal that starts and ends with a digit is read by the decimal
      path of `Number(s)`, with or without a leading minus sign. */
  lemma StringToNumberOfLiteral(body: string, x: Number)
    requires |body| >= 1 && IsDigit(body[0]) && IsDigit(body[|body| - 1])
    requires |body| >= 2 ==> IsDigit(body[1]) || body[1] == '.'
    requires ParseUnsigned(body) == Some(x)
    ensures StringToNumber(body) == x
    ensures StringToNumber("-" + body) == Negate(x)
  {
    UnsignedLiteral(body, x);
    NegativeLiteral(body, x);
  }

  lemma UnsignedLiteral(body: string, x: Number)
    requires |body| >= 1 && IsDigit(body[0]) && IsDigit(body[|body| - 1])
    requires |body| >= 2 ==> IsDigit(body[1]) || body[1] == '.'
    requires ParseUnsigned(body) == Some(x)
    ensures StringToNumber(body) == x
  {
    assert TrimmedToNumber(body) == x by {
      assert InfinityLiteral(body).None? by {
        assert body[0] != 'I' && body[0] != '+' && body[0] != '-';
      }
      assert !RadixPrefixed(body);
      assert ParseDecimal(body) == Some(x);
    }
    TrimUnpadded(body);
  }

  lemma NegativeLiteral(body: string, x: Number)
    requires |body| >= 1 && IsDigit(body[0]) && IsDigit(body[|body| - 1])
    requires ParseUnsigned(body) == Some(x)
    ensures StringToNumber("-" + body) == Negate(x)
  {
    var s := "-" + body;
    assert TrimmedToNumber(s) == Negate(x) by {
      assert InfinityLiteral(s).None? by {
        assert s[0] == '-' && s[1] != 'I';
      }
      assert !RadixPrefixed(s);
      assert s[1..] == body;
      assert ParseDecimal(s) == Some(Negate(x));
    }
    TrimUnpadded(s);
  }

  lemma UnsignedSpellingReadsBack(a: nat, k: nat)
    ensures StringToNumber(UnsignedSpelling(a, k)) == Finite(a, k)
    ensures StringToNumber("-" + UnsignedSpelling(a, k)) == Finite(-(a as int), k)
  {
    if k == 0 {
      IntegerSpellingReadsBack(a);
    } else {
      DecimalSpellingReadsBack(a, k);
    }
  }

  lemma IntegerSpellingReadsBack(a: nat)
    ensures StringToNumber(NatToString(a)) == Finite(a, 0)
    ensures StringToNumber("-" + NatToString(a)) == Finite(-(a as int), 0)
  {
    IntegerStringParses(a);
    StringToNumberOfLiteral(NatToString(a), Finite(a, 0));
  }

  lemma IntegerStringParses(a: nat)
    ensures var body := NatToString(a);
      && |body| >= 1 && IsDigit(body[0]) && IsDigit(body[|body| - 1])
      && (|body| >= 2 ==> IsDigit(body[1]))
      && ParseUnsigned(body) == Some(Finite(a, 0))
  {
    var body := NatToString(a);
    NatToStringValue(a);
    ParseUnsignedInteger(body);
  }

  lemma DecimalSpellingReadsBack(a: nat, k: nat)
    requires k > 0
    ensures StringToNumber(DecimalString(a, k)) == Finite(a, k)
    ensures StringToNumber("-" + DecimalString(a, k)) == Finite(-(a as int), k)
  {
    DecimalReadsBack(a, k);
    NegativeDecimalReadsBack(a, k);
  }

  lemma DecimalReadsBack(a: nat, k: nat)
    requires k > 0
    ensures StringToNumber(DecimalString(a, k)) == Finite(a, k)
  {
    DecimalStringParses(a, k);
    UnsignedLiteral(DecimalString(a, k), Finite(a, k));
  }

  lemma NegativeDecimalReadsBack(a: nat, k: nat)
    requires k > 0
    ensures StringToNumber("-" + DecimalString(a, k)) == Finite(-(a as int), k)
  {
    DecimalStringParses(a, k);
    NegativeLiteral(DecimalString(a, k), Finite(a, k));
  }

  lemma DecimalStringParses(a: nat, k: nat)
    requires k > 0
    ensures var body := DecimalString(a, k);
      && |body| >= 2 && IsDigit(body[0]) && IsDigit(body[|body| - 1])
      && (IsDigit(body[1]) || body[1] == '.')
      && ParseUnsigned(body) == Some(Finite(a, k))
  {
    DecimalStringShape(a, k);
    DecimalStringValue(a, k);
  }

  lemma DecimalStringShape(a: nat, k: nat)
    requires k > 0
    ensures var body := DecimalString(a, k);
      && |body| >= 2 && IsDigit(body[0]) && IsDigit(body[|body| - 1])
      && (IsDigit(body[1]) || body[1] == '.')
  {
    FractionShape(NatToString(Shift(a, k)), FixedDigits(a, k));
  }

  lemma DecimalStringValue(a: nat, k: nat)
    requires k > 0
    ensures ParseUnsigned(DecimalString(a, k)) == Some(Finite(a, k))
  {
    var q, fd := NatToString(Shift(a, k)), FixedDigits(a, k);
    assert DecimalString(a, k) == q + "." + fd;
    assert |fd| == k;
    assert DigitsValue(q) * Pow10(|fd|) + DigitsValue(fd) == a by {
      DecimalDigitsValue(a, k);
    }
    ParseUnsignedFraction(q, fd);
  }

  lemma DecimalDigitsValue(a: nat, k: nat)
    ensures DigitsValue(NatToString(Shift(a, k))) * Pow10(k) + DigitsValue(FixedDigits(a, k)) == a
  {
    NatToStringValue(Shift(a, k));
    ShiftAndFixedDigits(a, k);
  }

  /** Digits, a point and at least one more digit: starts and ends with a
      digit, and its second character is a digit or the point. */
  lemma FractionShape(q: string, fd: string)
    requires |q| >= 1 && AllDigits(q) && |fd| >= 1 && AllDigits(fd)
    ensures var body := q + "." + fd;
      && |body| >= 2 && IsDigit(body[0]) && IsDigit(body[|body| - 1])
      && (IsDigit(body[1]) || body[1] == '.')
  {
    var body := q + "." + fd;
    assert body[0] == q[0];
    assert body[|body| - 1] == fd[|fd| - 1];
    if |q| >= 2 {
      assert body[1] == q[1];
    }
  }

  /** Printing a number and reading it back yields the same number. */
  lemma NumberToStringRoundTrip(n: Number)
    ensures n.NaN? ==> StringToNumber(NumberToString(n)).NaN?
    ensures !n.NaN? ==> SameValue(StringToNumber(NumberToString(n)), n)
  {
    match n
    case NaN =>
      NaNSpellingReadsBack();
    case Infinity(neg) =>
      InfinitySpellingReadsBack(neg);
    case Finite(m, k) =>
      FiniteRoundTrip(m, k);
  }

  /** A decimal literal starts with a digit or a point. */
  lemma SplitDecimalNeedsDigit(u: string)
    requires u != [] && !IsDigit(u[0]) && u[0] != '.'
    ensures SplitDecimal(u) == None
  {
    var mant := match IndexOfAny(u, {'e', 'E'}) case None => u case Some(e) => u[..e];
    if mant != [] {
      assert mant[0] == u[0];
      var whole := match IndexOfAny(mant, {'.'}) case None => mant case Some(d) => mant[..d];
      if whole != [] {
        assert whole[0] == u[0];
      }
    }
  }

  /** A string that, once trimmed, starts with anything but a digit, a
      point, a sign or the letter I reads as NaN. */
  lemma LeadingNonNumericIsNaN(s: string)
    requires s != [] && !IsWhitespace(s[0]) && !IsWhitespace(s[|s| - 1])
    requires !IsDigit(s[0]) && s[0] != '.' && s[0] != '+' && s[0] != '-' && s[0] != 'I'
    ensures StringToNumber(s) == NaN
  {
    TrimUnpadded(s);
    assert TrimmedToNumber(s) == NaN by {
      assert InfinityLiteral(s).None? by {
        assert s != "Infinity" && s != "+Infinity" && s != "-Infinity" by {
          assert "Infinity"[0] == 'I' && "+Infinity"[0] == '+' && "-Infinity"[0] == '-';
        }
      }
      assert !RadixPrefixed(s);
      assert ParseDecimal(s) == ParseUnsigned(s);
      SplitDecimalNeedsDigit(s);
    }
  }

  lemma InfinitySpellingReadsBack(neg: bool)
    ensures StringToNumber(NumberToString(Infinity(neg))) == Infinity(neg)
  {
    var u := NumberToString(Infinity(neg));
    assert InfinityLiteral(u) == Some(neg);
    assert Trim(u) == u by {
      TrimUnpadded(u);
    }
  }

  lemma NaNSpellingReadsBack()
    ensures StringToNumber("NaN") == NaN
  {
    LeadingNonNumericIsNaN("NaN");
  }

  lemma FiniteRoundTrip(m: int, k: nat)
    ensures SameValue(StringToNumber(NumberToString(Finite(m, k))), Finite(m, k))
  {
    var r := Normalize(m, k);
    var sp := UnsignedSpelling(Abs(r.0), r.1);
    assert StringToNumber(NumberToString(Finite(m, k))) == Finite(r.0, r.1) by {
      UnsignedSpellingReadsBack(Abs(r.0), r.1);
      if r.0 < 0 {
        assert NumberToString(Finite(m, k)) == "-" + sp;
      } else {
        assert NumberToString(Finite(m, k)) == sp;
      }
    }
    NormalizeKeepsValue(m, k);
  }

  /** Reading back the decimal spelling of an integer gives that integer;
      status codes in messages and parsed search values agree. */
  lemma IntToStringRoundTrip(i: int)
    ensures StringToNumber(IntToString(i)) == FromInt(i)
  {
    IntegerSpellingReadsBack(Abs(i));
    if i < 0 {
      assert IntToString(i) == "-" + NatToString(Abs(i));
    }
  }
}
