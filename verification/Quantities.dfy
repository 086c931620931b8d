/**
 Kubernetes-style quantities as byte counts (internal/system/storage.go). A literal is what the source's
 regular expression accepts; its value is an exact rational, rounded up at the end.
 */
module Quantities {
  import opened Options
  import opened Units

  const INT64_MIN: int := -0x8000_0000_0000_0000
  const INT64_MAX: int := 0x7fff_ffff_ffff_ffff

  // Literals.

  datatype Sign = NoSign | Plus | Minus

  datatype Exponent = NoExponent | Exponent(marker: char, sign: Sign, digits: string)

  datatype Literal = Literal(
    sign: Sign,
    whole: string, dot: bool, frac: string,
    exponent: Exponent,
    suffix: string)

  predicate IsDigit(c: char) { '0' <= c <= '9' }

  predicate IsLetter(c: char) { 'a' <= c <= 'z' || 'A' <= c <= 'Z' }

  predicate AllDigits(s: string) { forall k | 0 <= k < |s| :: IsDigit(s[k]) }

  /** [+-]? (digits (. digits?)? | . digits) ([eE] [+-]? digits)? letter{0,2} */
  predicate WellFormed(l: Literal) {
    && AllDigits(l.whole) && AllDigits(l.frac)
    && (if l.dot then l.whole != "" || l.frac != "" else l.whole != "" && l.frac == "")
    && (l.exponent.Exponent? ==>
          (l.exponent.marker == 'e' || l.exponent.marker == 'E') && l.exponent.digits != "" && AllDigits(l.exponent.digits))
    && |l.suffix| <= 2 && forall k | 0 <= k < |l.suffix| :: IsLetter(l.suffix[k])
  }

  function SignText(s: Sign): string {
    match s case NoSign => "" case Plus => "+" case Minus => "-"
  }

  function MantissaText(l: Literal): string {
    SignText(l.sign) + (if l.dot then l.whole + "." + l.frac else l.whole)
  }

  function ExponentText(e: Exponent): string {
    if e.NoExponent? then "" else [e.marker] + (SignText(e.sign) + e.digits)
  }

  /** The first group of the regular expression. */
  function NumberText(l: Literal): string {
    MantissaText(l) + ExponentText(l.exponent)
  }

  function Decimal(s: string): nat
    requires AllDigits(s)
  {
    if s == "" then 0 else 10 * Decimal(s[..|s| - 1]) + (s[|s| - 1] - '0') as nat
  }

  function Signed(negative: bool, n: int): int {
    if negative then -n else n
  }

  function Pow10(n: nat): (p: nat)
    ensures p > 0
  {
    if n == 0 then 1 else 10 * Pow10(n - 1)
  }

  /** The mantissa's digits as a number, without the decimal point. */
  function MantissaOf(l: Literal): nat
    requires WellFormed(l)
  {
    Decimal(l.whole + l.frac)
  }

  function ExponentOf(l: Literal): int
    requires WellFormed(l)
  {
    match l.exponent
    case NoExponent => 0
    case Exponent(_, sign, digits) => Signed(sign.Minus?, Decimal(digits))
  }

  /** What one unit of the suffix stands for, as a fraction. */
  function SuffixFactor(suffix: string): (f: Option<(nat, nat)>)
    ensures f.Some? ==> f.value.1 > 0
  {
    if suffix == "" then Some((1, 1))
    else if suffix == "n" then Some((1, 1_000_000_000))
    else if suffix == "u" then Some((1, 1_000_000))
    else if suffix == "m" then Some((1, 1_000))
    else if suffix == "k" then Some((1_000, 1))
    else if suffix == "M" then Some((1_000_000, 1))
    else if suffix == "G" then Some((1_000_000_000, 1))
    else if suffix == "T" then Some((1_000_000_000_000, 1))
    else if suffix == "P" then Some((1_000_000_000_000_000, 1))
    else if suffix == "E" then Some((1_000_000_000_000_000_000, 1))
    else if suffix == "Ki" then Some((0x400, 1))
    else if suffix == "Mi" then Some((0x10_0000, 1))
    else if suffix == "Gi" then Some((0x4000_0000, 1))
    else if suffix == "Ti" then Some((0x100_0000_0000, 1))
    else if suffix == "Pi" then Some((0x4_0000_0000_0000, 1))
    else if suffix == "Ei" then Some((0x1000_0000_0000_0000, 1))
    else None
  }

  // Rationals.

  /** num / den with den > 0. The source's library also cancels common factors, which no ceiling can tell. */
  datatype Rat = Rat(num: int, den: int)

  /** The least integer that is not below n / d. */
  function CeilDiv(n: int, d: int): int
    requires d > 0
  {
    if n % d != 0 then n / d + 1 else n / d
  }

  lemma CeilIsLeast(n: int, d: int, k: int)
    requires d > 0
    ensures CeilDiv(n, d) <= k <==> n <= k * d
  {
    var q := n / d;
    assert n == q * d + n % d && (q + 1) * d == q * d + d;
    ScaledOrder(q, k, d);
    ScaledOrder(k, q, d);
    ScaledOrder(q + 1, k, d);
  }

  lemma CeilIgnoresCommonFactors(n: int, d: int, g: int)
    requires d > 0 && g > 0
    ensures d * g > 0 && CeilDiv(n * g, d * g) == CeilDiv(n, d)
  {
    var c, c' := CeilDiv(n, d), CeilDiv(n * g, d * g);
    CeilIsLeast(n, d, c);
    CeilIsLeast(n, d, c');
    CeilIsLeast(n * g, d * g, c);
    CeilIsLeast(n * g, d * g, c');
    assert c * (d * g) == c * d * g && c' * (d * g) == c' * d * g;
    ScaledOrder(n, c * d, g);
    ScaledOrder(n, c' * d, g);
  }

  lemma ScaledOrder(a: int, b: int, g: int)
    requires g > 0
    ensures a <= b <==> a * g <= b * g
  {
    assert b * g - a * g == (b - a) * g;
  }

  datatype SizeError = InvalidQuantity | UnsupportedSuffix | BadExponent | MissingMantissa | MissingDigits
                     | InvalidDigit | MustBeNonNegative | UnknownSuffix | NegativeValue | Overflow

  method RatCeilToUint64(r: Rat) returns (v: Result<nat, SizeError>)
    requires r.den > 0
    ensures v == CeilOutcome(r)
  {
    if r.num < 0 {
      return Err(NegativeValue);
    }
    var q, rem := r.num / r.den, r.num % r.den;
    if rem != 0 {
      q := q + 1;
    }
    if q >= TWO64 {
      return Err(Overflow);
    }
    return Ok(q);
  }

  /** The rounded value, unless it is negative or takes more than 64 bits. */
  function CeilOutcome(r: Rat): Result<nat, SizeError>
    requires r.den > 0
  {
    if r.num < 0 then Err(NegativeValue)
    else
      var q := CeilDiv(r.num, r.den);
      if q >= TWO64 then Err(Overflow) else Ok(q)
  }

  // Parsing.

  /** The first position of one of the characters, or the length. */
  function IndexOf(s: string, chars: set<char>): (i: nat)
    ensures i <= |s|
    ensures i < |s| ==> s[i] in chars
    ensures forall k | 0 <= k < i :: s[k] !in chars
  {
    if s == "" || s[0] in chars then 0 else 1 + IndexOf(s[1..], chars)
  }

  /** strconv.Atoi, for 64-bit integers. */
  function Atoi(s: string): Option<int> {
    var digits := Unsigned(s);
    if digits == "" || !AllDigits(digits) then None
    else
      var v := Signed(s[0] == '-', Decimal(digits));
      if INT64_MIN <= v <= INT64_MAX then Some(v) else None
  }

  /** The text without a leading sign. */
  function Unsigned(s: string): string {
    if s != "" && (s[0] == '+' || s[0] == '-') then s[1..] else s
  }

  /** Negation of a 64-bit integer. */
  function Negate64(x: int): int {
    if x == INT64_MIN then x else -x
  }

  /** How often pow10Int multiplies: the magnitude, but for the least integer, which has none. */
  function Pow10Turns(n: int): nat {
    var m := if n < 0 then Negate64(n) else n;
    if m < 0 then 0 else m
  }

  method Pow10Int(n: int) returns (out: nat)
    ensures out == Pow10(Pow10Turns(n))
  {
    var m := n;
    if m < 0 {
      m := Negate64(m);
    }
    out := 1;
    var i := 0;
    while i < m
      invariant 0 <= i && (m >= 0 ==> i <= m) && (m < 0 ==> i == 0)
      invariant out == Pow10(i)
    {
      out := 10 * out;
      i := i + 1;
    }
  }

  function ParseNumber(numStr: string): (r: Result<Rat, SizeError>)
    ensures r.Ok? ==> r.value.den > 0
  {
    var i := IndexOf(numStr, {'e', 'E'});
    var exp10 := if i < |numStr| then Atoi(numStr[i + 1..]) else Some(0);
    if exp10.None? then Err(BadExponent) else ParseMantissa(numStr[..i], exp10.value)
  }

  function ParseMantissa(mant: string, exp10: int): (r: Result<Rat, SizeError>)
    ensures r.Ok? ==> r.value.den > 0
  {
    var body := Unsigned(mant);
    if body == "" then Err(MissingMantissa)
    else
      var dot := IndexOf(body, {'.'});
      var digits := if dot < |body| then body[..dot] + body[dot + 1..] else body;
      var decimals := if dot < |body| then |body| - dot - 1 else 0;
      if digits == "" then Err(MissingDigits)
      else if !AllDigits(digits) then Err(InvalidDigit)
      else Ok(Scaled(mant[0] == '-', Decimal(digits), decimals, exp10))
  }

  /** mantissa * 10^(exp10 - decimals), with the powers of ten that the code computes. */
  function Scaled(negative: bool, mantissa: nat, decimals: nat, exp10: int): (r: Rat)
    ensures r.den > 0
  {
    var num := Signed(negative, mantissa);
    if exp10 > 0 then Rat(num * Pow10(exp10), Pow10(decimals))
    else if exp10 < 0 then Positive(num, Pow10(decimals), Pow10(Pow10Turns(Negate64(exp10))))
    else Rat(num, Pow10(decimals))
  }

  function Positive(num: int, a: nat, b: nat): (r: Rat)
    requires a > 0 && b > 0
    ensures r.den > 0 && r == Rat(num, a * b)
  {
    Rat(num, a * b)
  }

  method ParseNumberToRat(numStr: string) returns (r: Result<Rat, SizeError>)
    ensures r == ParseNumber(numStr)
  {
    var mant := numStr;
    var exp10 := 0;
    var i := IndexOf(numStr, {'e', 'E'});
    if i < |numStr| {
      mant := numStr[..i];
      var e := numStr[i + 1..];
      if e == "" {
        return Err(BadExponent);
      }
      var ee := Atoi(e);
      if ee.None? {
        return Err(BadExponent);
      }
      exp10 := ee.value;
    }
    assert mant == numStr[..i];
    r := ParseMantissaToRat(mant, exp10);
  }

  /** parseNumberToRat after the exponent is split off. */
  method ParseMantissaToRat(text: string, exp10: int) returns (r: Result<Rat, SizeError>)
    ensures r == ParseMantissa(text, exp10)
  {
    hide Scaled, Decimal, IndexOf;
    var mant := text;
    var negative := false;
    if mant != "" && mant[0] == '+' {
      mant := mant[1..];
    } else if mant != "" && mant[0] == '-' {
      negative := true;
      mant := mant[1..];
    }
    if mant == "" {
      return Err(MissingMantissa);
    }
    var decimals := 0;
    var dot := IndexOf(mant, {'.'});
    if dot < |mant| {
      decimals := |mant| - dot - 1;
      mant := mant[..dot] + mant[dot + 1..];
    }
    if mant == "" {
      return Err(MissingDigits);
    }
    var valid := HasOnlyDigits(mant);
    if !valid {
      return Err(InvalidDigit);
    }
    var rat := ScaleMantissa(negative, Decimal(mant), decimals, exp10);
    return Ok(rat);
  }

  method HasOnlyDigits(mant: string) returns (valid: bool)
    ensures valid <==> AllDigits(mant)
  {
    for k := 0 to |mant|
      invariant AllDigits(mant[..k])
    {
      if mant[k] < '0' || mant[k] > '9' {
        return false;
      }
    }
    assert mant[..|mant|] == mant;
    return true;
  }

  /** The last part of parseNumberToRat: the sign, the decimal point and the exponent. */
  method ScaleMantissa(negative: bool, mantissa: nat, decimals: nat, exp10: int) returns (rat: Rat)
    ensures rat == Scaled(negative, mantissa, decimals, exp10)
  {
    assert Pow10(0) == 1;
    hide Pow10;
    rat := Rat(Signed(negative, mantissa), 1);
    if decimals > 0 {
      var p := Pow10Int(decimals);
      rat := Rat(rat.num, rat.den * p);
    }
    if exp10 > 0 {
      var p := Pow10Int(exp10);
      rat := Rat(rat.num * p, rat.den);
    } else if exp10 < 0 {
      var p := Pow10Int(Negate64(exp10));
      rat := Rat(rat.num, rat.den * p);
    }
  }

  method MulPow10(r: Rat, exp: int) returns (out: Rat)
    ensures out == if exp > 0 then Rat(r.num * Pow10(exp), r.den) else Rat(r.num, r.den * Pow10(Pow10Turns(exp)))
  {
    if exp == 0 {
      return r;
    }
    if exp > 0 {
      var p := Pow10Int(exp);
      return Rat(r.num * p, r.den);
    }
    var p := Pow10Int(Negate64(exp));
    return Rat(r.num, r.den * p);
  }

  function Pow2(n: nat): nat {
    if n == 0 then 1 else 2 * Pow2(n - 1)
  }

  method MulPow2(r: Rat, bits: nat) returns (out: Rat)
    ensures out == Rat(r.num * Pow2(bits), r.den)
  {
    out := Rat(r.num * Pow2(bits), r.den);
  }

  /** The rational times what the suffix stands for. */
  function WithSuffix(r: Rat, suffix: string): (out: Option<Rat>)
    ensures out.Some? && r.den > 0 && r.num >= 0 ==> out.value.den > 0 && out.value.num >= 0
  {
    var f := SuffixFactor(suffix);
    if f.None? then None
    else
      ProductSigns(r.num, f.value.0, r.den, f.value.1);
      Some(Rat(r.num * f.value.0, r.den * f.value.1))
  }

  lemma ProductSigns(a: int, b: nat, c: int, d: nat)
    requires d > 0
    ensures a >= 0 ==> a * b >= 0
    ensures c > 0 ==> c * d > 0
  {
  }

  lemma PowersOfSuffixes()
    ensures Pow10(3) == 1_000 && Pow10(6) == 1_000_000 && Pow10(9) == 1_000_000_000
    ensures Pow10(12) == 1_000_000_000_000 && Pow10(15) == 1_000_000_000_000_000
    ensures Pow10(18) == 1_000_000_000_000_000_000
    ensures Pow2(10) == 0x400 && Pow2(20) == 0x10_0000 && Pow2(30) == 0x4000_0000
    ensures Pow2(40) == 0x100_0000_0000 && Pow2(50) == 0x4_0000_0000_0000 && Pow2(60) == 0x1000_0000_0000_0000
  {
  }

  method ApplyK8sSuffix(r: Rat, suf: string) returns (ok: bool, out: Rat)
    ensures WithSuffix(r, suf) == if ok then Some(out) else None
  {
    ok, out := true, r;
    PowersOfSuffixes();
    hide Pow10, Pow2;
    match suf {
      case "" =>
      case "n" => out := MulPow10(r, -9);
      case "u" => out := MulPow10(r, -6);
      case "m" => out := MulPow10(r, -3);
      case "k" => out := MulPow10(r, 3);
      case "M" => out := MulPow10(r, 6);
      case "G" => out := MulPow10(r, 9);
      case "T" => out := MulPow10(r, 12);
      case "P" => out := MulPow10(r, 15);
      case "E" => out := MulPow10(r, 18);
      case "Ki" => out := MulPow2(r, 10);
      case "Mi" => out := MulPow2(r, 20);
      case "Gi" => out := MulPow2(r, 30);
      case "Ti" => out := MulPow2(r, 40);
      case "Pi" => out := MulPow2(r, 50);
      case "Ei" => out := MulPow2(r, 60);
      case _ => ok := false;
    }
  }

  /** What the regular expression's two groups captured. */
  datatype Match = Match(num: string, suffix: string)

  function EndsInB(suffix: string): bool {
    suffix != "" && (suffix[|suffix| - 1] == 'B' || suffix[|suffix| - 1] == 'b')
  }

  function ParseSize(text: string, m: Option<Match>): Result<nat, SizeError> {
    if text == "" then Ok(0)
    else if m.None? then Err(InvalidQuantity)
    else if EndsInB(m.value.suffix) then Err(UnsupportedSuffix)
    else
      var r := ParseNumber(m.value.num);
      if r.Err? then Err(r.error)
      else if r.value.num < 0 then Err(MustBeNonNegative)
      else
        var scaled := WithSuffix(r.value, m.value.suffix);
        if scaled.None? then Err(UnknownSuffix) else CeilOutcome(scaled.value)
  }

  /** text has its outer white space removed, and m is what the regular expression made of it. */
  method ParseSizeBytes(text: string, m: Option<Match>) returns (v: Result<nat, SizeError>)
    ensures v == ParseSize(text, m)
    ensures text == "" ==> v == Ok(0)
    ensures text != "" && m.None? ==> v == Err(InvalidQuantity)
    ensures text != "" && m.Some? && m.value.suffix != "" && m.value.suffix[|m.value.suffix| - 1] in {'B', 'b'} ==>
              v == Err(UnsupportedSuffix)
  {
    if text == "" {
      return Ok(0);
    }
    if m.None? {
      return Err(InvalidQuantity);
    }
    if EndsInB(m.value.suffix) {
      return Err(UnsupportedSuffix);
    }
    var parsed := ParseNumberToRat(m.value.num);
    if parsed.Err? {
      return Err(parsed.error);
    }
    if parsed.value.num < 0 {
      return Err(MustBeNonNegative);
    }
    var ok, r := ApplyK8sSuffix(parsed.value, m.value.suffix);
    if !ok {
      return Err(UnknownSuffix);
    }
    v := RatCeilToUint64(r);
  }

  // What is parsed.

  lemma {:induction false} IndexOfAt(a: string, b: string, chars: set<char>)
    requires forall k | 0 <= k < |a| :: a[k] !in chars
    requires b == "" || b[0] in chars
    ensures IndexOf(a + b, chars) == |a|
  {
    if a == "" {
      assert a + b == b;
    } else {
      assert (a + b)[1..] == a[1..] + b;
      IndexOfAt(a[1..], b, chars);
    }
  }

  lemma UnsignedDrops(sign: Sign, rest: string)
    requires rest != "" && rest[0] != '+' && rest[0] != '-'
    ensures Unsigned(SignText(sign) + rest) == rest
    ensures ((SignText(sign) + rest)[0] == '-') == sign.Minus?
  {
  }

  lemma ExponentMeans(l: Literal)
    requires WellFormed(l) && l.exponent.Exponent?
    ensures var e := ExponentOf(l);
            Atoi(SignText(l.exponent.sign) + l.exponent.digits) == if INT64_MIN <= e <= INT64_MAX then Some(e) else None
  {
    assert IsDigit(l.exponent.digits[0]);
    UnsignedDrops(l.exponent.sign, l.exponent.digits);
  }

  /** The mantissa without its sign. */
  function Body(l: Literal): string {
    if l.dot then l.whole + "." + l.frac else l.whole
  }

  lemma BodyMeans(l: Literal)
    requires WellFormed(l)
    ensures Body(l) != "" && Body(l)[0] != '+' && Body(l)[0] != '-'
    ensures IndexOf(Body(l), {'.'}) == |l.whole|
    ensures l.dot ==> |l.whole| < |Body(l)| && Body(l)[..|l.whole|] + Body(l)[|l.whole| + 1..] == l.whole + l.frac
    ensures !l.dot ==> Body(l) == l.whole + l.frac && |Body(l)| == |l.whole|
    ensures l.whole + l.frac != "" && AllDigits(l.whole + l.frac)
  {
    assert l.whole != "" ==> IsDigit(l.whole[0]);
    IndexOfAt(l.whole, if l.dot then "." + l.frac else "", {'.'});
    if l.dot {
      assert Body(l) == l.whole + ("." + l.frac);
    } else {
      assert Body(l) == l.whole + "" == l.whole + l.frac;
    }
  }

  lemma MantissaMeans(l: Literal, exp10: int)
    requires WellFormed(l)
    ensures ParseMantissa(MantissaText(l), exp10) == Ok(Scaled(l.sign.Minus?, MantissaOf(l), |l.frac|, exp10))
  {
    BodyMeans(l);
    UnsignedDrops(l.sign, Body(l));
    assert MantissaText(l) == SignText(l.sign) + Body(l);
    hide IndexOf, Scaled, Decimal, AllDigits;
  }

  lemma PlainNumberMeans(l: Literal)
    requires WellFormed(l) && l.exponent.NoExponent?
    ensures ExponentOf(l) == 0
    ensures ParseNumber(NumberText(l)) == ParseMantissa(MantissaText(l), 0)
  {
    hide ParseNumber, ParseMantissa, NumberText, MantissaText, IndexOf, WellFormed;
    NumberSplits(l);
    ParseNumberUnfold(NumberText(l), |MantissaText(l)|);
  }

  lemma ScaledNumberMeans(l: Literal)
    requires WellFormed(l) && l.exponent.Exponent?
    ensures ParseNumber(NumberText(l)) ==
            if INT64_MIN <= ExponentOf(l) <= INT64_MAX then ParseMantissa(MantissaText(l), ExponentOf(l)) else Err(BadExponent)
  {
    hide *;
    NumberSplits(l);
    ParseNumberUnfold(NumberText(l), |MantissaText(l)|);
    ExponentMeans(l);
  }

  /** The number in a literal is read as it is written, unless its exponent does not fit into 64 bits. */
  lemma NumberMeans(l: Literal)
    requires WellFormed(l)
    ensures ParseNumber(NumberText(l)) ==
            if INT64_MIN <= ExponentOf(l) <= INT64_MAX
            then Ok(Scaled(l.sign.Minus?, MantissaOf(l), |l.frac|, ExponentOf(l))) else Err(BadExponent)
  {
    assert INT64_MIN <= 0 <= INT64_MAX;
    hide *;
    MantissaMeans(l, ExponentOf(l));
    if l.exponent.NoExponent? {
      PlainNumberMeans(l);
    } else {
      ScaledNumberMeans(l);
    }
  }

  lemma ParseNumberUnfold(numStr: string, i: nat)
    requires i <= |numStr| && i == IndexOf(numStr, {'e', 'E'})
    ensures i == |numStr| ==> ParseNumber(numStr) == ParseMantissa(numStr[..i], 0)
    ensures i < |numStr| ==>
              ParseNumber(numStr) == (if Atoi(numStr[i + 1..]).None? then Err(BadExponent)
                                      else ParseMantissa(numStr[..i], Atoi(numStr[i + 1..]).value))
  {
    hide IndexOf, Atoi, ParseMantissa;
  }

  /** The exponent marker is the first e or E of the text. */
  lemma NumberSplits(l: Literal)
    requires WellFormed(l)
    ensures var n, i := NumberText(l), |MantissaText(l)|;
            && i <= |n| && IndexOf(n, {'e', 'E'}) == i && n[..i] == MantissaText(l)
            && (l.exponent.NoExponent? <==> i == |n|)
            && (l.exponent.Exponent? ==> n[i + 1..] == SignText(l.exponent.sign) + l.exponent.digits)
  {
    var a, b := MantissaText(l), ExponentText(l.exponent);
    NoMarkerInMantissa(l);
    assert b == "" <==> l.exponent.NoExponent?;
    assert b != "" ==> b[0] in {'e', 'E'} && b[1..] == SignText(l.exponent.sign) + l.exponent.digits;
    hide *;
    IndexOfAt(a, b, {'e', 'E'});
    assert NumberText(l) == a + b by { NumberIsPair(l); }
    assert (a + b)[..|a|] == a;
    if b != "" {
      assert (a + b)[|a| + 1..] == b[1..];
    }
  }

  lemma NumberIsPair(l: Literal)
    ensures NumberText(l) == MantissaText(l) + ExponentText(l.exponent)
  {
  }

  lemma NoMarkerInMantissa(l: Literal)
    requires WellFormed(l)
    ensures forall k | 0 <= k < |MantissaText(l)| :: MantissaText(l)[k] !in {'e', 'E'}
  {
    assert MantissaText(l) == SignText(l.sign) + Body(l);
    assert forall k | 0 <= k < |l.whole| :: IsDigit(l.whole[k]);
    assert forall k | 0 <= k < |l.frac| :: IsDigit(l.frac[k]);
  }

  // What it is worth.

  function Max0(x: int): nat { if x < 0 then 0 else x }

  /** mantissa * 10^(exponent - decimals) * suffix. */
  function ExactValue(l: Literal): (r: Rat)
    requires WellFormed(l) && SuffixFactor(l.suffix).Some?
    ensures r.den > 0
  {
    var f := SuffixFactor(l.suffix).value;
    var d := Pow10(|l.frac|) * Pow10(Max0(-ExponentOf(l)));
    Rat(Signed(l.sign.Minus?, MantissaOf(l)) * Pow10(Max0(ExponentOf(l))) * f.0, d * f.1)
  }

  /** The literal is accepted but for its magnitude: a known suffix, not negative, a 64-bit exponent. */
  predicate Measurable(l: Literal) {
    && WellFormed(l) && SuffixFactor(l.suffix).Some?
    && (l.sign.Minus? ==> MantissaOf(l) == 0)
    && INT64_MIN <= ExponentOf(l) <= INT64_MAX
  }

  /** The text of a literal, as matched. */
  function Parsed(l: Literal): Result<nat, SizeError> {
    ParseSize(NumberText(l) + l.suffix, Some(Match(NumberText(l), l.suffix)))
  }

  /** The ceiling of a rational: exact when it fits into 64 bits, an overflow exactly when it does not. */
  lemma OutcomeMeans(r: Rat, v: nat)
    requires r.den > 0
    ensures CeilOutcome(r) == Ok(v) <==>
            0 <= r.num <= v * r.den && v < TWO64 && (v == 0 || r.num > (v - 1) * r.den)
    ensures CeilOutcome(r) == Err(Overflow) <==> r.num > (TWO64 - 1) * r.den
    ensures CeilOutcome(r) == Err(NegativeValue) <==> r.num < 0
    ensures CeilOutcome(r).Err? ==> CeilOutcome(r).error == Overflow || CeilOutcome(r).error == NegativeValue
  {
    var c := CeilDiv(r.num, r.den);
    CeilIsLeast(r.num, r.den, v);
    CeilIsLeast(r.num, r.den, v - 1);
    CeilIsLeast(r.num, r.den, TWO64 - 1);
    assert r.num >= 0 ==> c >= 0;
  }

  lemma KnownSuffixHasNoB(suffix: string)
    requires SuffixFactor(suffix).Some?
    ensures !EndsInB(suffix)
  {
  }

  lemma TextIsNotEmpty(l: Literal)
    requires WellFormed(l)
    ensures NumberText(l) + l.suffix != ""
  {
    BodyMeans(l);
    assert MantissaText(l) == SignText(l.sign) + Body(l);
  }

  /** What the code makes of a measurable literal. */
  lemma ParsedIsCeiling(l: Literal)
    requires Measurable(l)
    ensures var r := WithSuffix(Scaled(l.sign.Minus?, MantissaOf(l), |l.frac|, ExponentOf(l)), l.suffix);
            r.Some? && r.value.num >= 0 && r.value.den > 0 && Parsed(l) == CeilOutcome(r.value)
  {
    NumberMeans(l);
    KnownSuffixHasNoB(l.suffix);
    TextIsNotEmpty(l);
    ScaledSign(l.sign.Minus?, MantissaOf(l), |l.frac|, ExponentOf(l));
    hide NumberText, ParseNumber, CeilOutcome, Scaled, SuffixFactor, EndsInB;
  }

  lemma ScaledSign(negative: bool, mantissa: nat, decimals: nat, exp10: int)
    requires negative ==> mantissa == 0
    ensures Scaled(negative, mantissa, decimals, exp10).num >= 0
  {
    hide Pow10;
    if exp10 > 0 {
      ProductSigns(mantissa, Pow10(exp10), 1, 1);
    }
  }

  /**
   The documented value, exactly: for every accepted literal the result is the ceiling of
   mantissa * 10^(exponent - decimals) * suffix, or an overflow when that takes more than 64 bits. The one
   exponent whose negation does not fit into 64 bits is read as 0; then the result is right exactly when
   the value without the exponent rounds to at most 1, or the value with it overflows as well.
   */
  lemma SizeIsExact(l: Literal)
    requires Measurable(l)
    ensures var exact := ExactValue(l);
            && exact.num >= 0
            && (Parsed(l) == CeilOutcome(exact) <==>
                  || ExponentOf(l) != INT64_MIN
                  || MantissaOf(l) * SuffixFactor(l.suffix).value.0 <= Pow10(|l.frac|) * SuffixFactor(l.suffix).value.1
                  || exact.num > (TWO64 - 1) * exact.den)
  {
    var e, f := ExponentOf(l), SuffixFactor(l.suffix).value;
    var num, d := Signed(l.sign.Minus?, MantissaOf(l)), Pow10(|l.frac|);
    ParsedIsCeiling(l);
    assert Pow10(0) == 1;
    if e == INT64_MIN {
      SmallestExponent(l);
    } else {
      ScaledIsExact(l);
    }
  }

  lemma ScaledIsExact(l: Literal)
    requires Measurable(l) && ExponentOf(l) != INT64_MIN
    ensures WithSuffix(Scaled(l.sign.Minus?, MantissaOf(l), |l.frac|, ExponentOf(l)), l.suffix) == Some(ExactValue(l))
  {
    assert Pow10(0) == 1;
    hide Pow10, SuffixFactor;
  }

  lemma SmallestExponent(l: Literal)
    requires Measurable(l) && ExponentOf(l) == INT64_MIN
    ensures var exact := ExactValue(l);
            var f := SuffixFactor(l.suffix).value;
            var used := WithSuffix(Scaled(l.sign.Minus?, MantissaOf(l), |l.frac|, ExponentOf(l)), l.suffix);
            && exact.num >= 0 && used.Some? && used.value.num >= 0 && used.value.den > 0
            && (CeilOutcome(used.value) == CeilOutcome(exact) <==>
                  MantissaOf(l) * f.0 <= Pow10(|l.frac|) * f.1 || exact.num > (TWO64 - 1) * exact.den)
  {
    var f := SuffixFactor(l.suffix).value;
    var p := SmallestScaled(l);
    ProductSigns(MantissaOf(l), f.0, Pow10(|l.frac|), f.1);
    hide *;
    CeilUnscaled(MantissaOf(l) * f.0, Pow10(|l.frac|) * f.1, p);
  }

  lemma SmallestScaled(l: Literal) returns (p: nat)
    requires Measurable(l) && ExponentOf(l) == INT64_MIN
    ensures p >= 10
    ensures var f := SuffixFactor(l.suffix).value;
            && ExactValue(l) == Rat(MantissaOf(l) * f.0, Pow10(|l.frac|) * f.1 * p)
            && WithSuffix(Scaled(l.sign.Minus?, MantissaOf(l), |l.frac|, ExponentOf(l)), l.suffix)
               == Some(Rat(MantissaOf(l) * f.0, Pow10(|l.frac|) * f.1))
  {
    p := Pow10(-ExponentOf(l));
    assert p == 10 * Pow10(-ExponentOf(l) - 1);
    SmallestRead(l);
    Reorder(Pow10(|l.frac|), p, SuffixFactor(l.suffix).value.1);
    assert Pow10(0) == 1;
    hide Pow10, SuffixFactor, WellFormed, Decimal, Scaled, WithSuffix;
  }

  lemma SmallestRead(l: Literal)
    requires Measurable(l) && ExponentOf(l) == INT64_MIN
    ensures var f := SuffixFactor(l.suffix).value;
            WithSuffix(Scaled(l.sign.Minus?, MantissaOf(l), |l.frac|, ExponentOf(l)), l.suffix)
            == Some(Rat(MantissaOf(l) * f.0, Pow10(|l.frac|) * f.1))
  {
    assert Signed(l.sign.Minus?, MantissaOf(l)) == MantissaOf(l) && Pow10(0) == 1;
    assert Pow10Turns(Negate64(ExponentOf(l))) == 0;
    hide Pow10, SuffixFactor, WellFormed, Decimal;
  }

  // It makes a difference: 5e-9223372036854775808 is read as 5, and is 1 rounded up.

  const SMALLEST_EXPONENT: string := "9223372036854775808"

  const FIVE: Literal := Literal(NoSign, "5", false, "", Exponent('e', Minus, SMALLEST_EXPONENT), "")

  lemma DecimalSnoc(s: string, c: char)
    requires AllDigits(s) && IsDigit(c)
    ensures AllDigits(s + [c]) && Decimal(s + [c]) == 10 * Decimal(s) + (c - '0') as nat
  {
    assert (s + [c])[..|s|] == s;
  }

  lemma DecimalOfFour(s: string, a: char, b: char, c: char, d: char)
    requires AllDigits(s) && IsDigit(a) && IsDigit(b) && IsDigit(c) && IsDigit(d)
    ensures AllDigits(s + [a, b, c, d])
    ensures Decimal(s + [a, b, c, d])
         == 10_000 * Decimal(s) + (1000 * (a - '0') as nat + 100 * (b - '0') as nat + 10 * (c - '0') as nat + (d - '0') as nat)
  {
    hide *;
    assert s + [a, b, c, d] == s + [a] + [b] + [c] + [d];
    DecimalSnoc(s, a);
    DecimalSnoc(s + [a], b);
    DecimalSnoc(s + [a] + [b], c);
    DecimalSnoc(s + [a] + [b] + [c], d);
  }

  lemma LeadingDigitsMean()
    ensures AllDigits("92233720368") && Decimal("92233720368") == 92233720368
  {
    assert Decimal("") == 0;
    assert Decimal("922") == 922;
    hide Decimal;
    DecimalOfFour("922", '3', '3', '7', '2');
    assert "922" + ['3', '3', '7', '2'] == "9223372";
    DecimalOfFour("9223372", '0', '3', '6', '8');
    assert "9223372" + ['0', '3', '6', '8'] == "92233720368";
  }

  lemma SmallestExponentMeans()
    ensures AllDigits(SMALLEST_EXPONENT) && Decimal(SMALLEST_EXPONENT) == -INT64_MIN
  {
    LeadingDigitsMean();
    hide Decimal;
    DecimalOfFour("92233720368", '5', '4', '7', '7');
    assert "92233720368" + ['5', '4', '7', '7'] == "922337203685477";
    DecimalOfFour("922337203685477", '5', '8', '0', '8');
    assert "922337203685477" + ['5', '8', '0', '8'] == SMALLEST_EXPONENT;
  }

  lemma SmallestExponentIsMisread()
    ensures Measurable(FIVE) && ExponentOf(FIVE) == INT64_MIN
    ensures Parsed(FIVE) == Ok(5) && CeilOutcome(ExactValue(FIVE)) == Ok(1)
  {
    SmallestExponentMeans();
    DecimalSnoc("", '5');
    assert Decimal("") == 0 && "" + ['5'] == "5" + "";
    assert Measurable(FIVE) && MantissaOf(FIVE) == 5 && |FIVE.frac| == 0 && SuffixFactor(FIVE.suffix).value == (1, 1);
    assert ExponentOf(FIVE) == INT64_MIN && Pow10(0) == 1;
    var p := SmallestScaled(FIVE);
    ParsedIsCeiling(FIVE);
    hide *;
    OutcomeOfFive(p);
  }

  lemma OutcomeOfFive(p: nat)
    requires p >= 10
    ensures CeilOutcome(Rat(5 * 1, 1 * 1)) == Ok(5) && CeilOutcome(Rat(5 * 1, 1 * 1 * p)) == Ok(1)
  {
  }

  lemma Reorder(a: int, b: int, c: int)
    ensures a * b * c == a * c * b
  {
  }

  lemma CeilUnscaled(n: nat, d: nat, p: nat)
    requires d > 0 && p >= 2
    ensures d * p > 0
    ensures CeilOutcome(Rat(n, d)) == CeilOutcome(Rat(n, d * p)) <==> n <= d || n > (TWO64 - 1) * (d * p)
  {
    var c := CeilDiv(n, d);
    CeilIsLeast(n, d, 0);
    CeilIsLeast(n, d, 1);
    CeilIsLeast(n, d, c);
    CeilIsLeast(n, d * p, 0);
    CeilIsLeast(n, d * p, 1);
    CeilIsLeast(n, d * p, TWO64 - 1);
    if n > d {
      CeilIsLeast(n, d * p, c - 1);
      assert c * d <= (c - 1) * (d * p) by { Halved(c, d, p); }
    } else {
      assert d <= d * p;
    }
  }

  lemma Halved(c: int, d: nat, p: nat)
    requires c >= 2 && d > 0 && p >= 2
    ensures c * d <= (c - 1) * (d * p)
  {
    assert (c - 1) * (d * p) == (c - 1) * d * p;
    assert (c - 1) * d * p >= (c - 1) * d * 2;
  }

  /** The decimal suffixes, from nano to exa. */
  lemma DecimalSuffixesMean()
    ensures SuffixFactor("n") == Some((1, Pow10(9))) && SuffixFactor("u") == Some((1, Pow10(6)))
    ensures SuffixFactor("m") == Some((1, Pow10(3))) && SuffixFactor("k") == Some((Pow10(3), 1))
    ensures SuffixFactor("M") == Some((Pow10(6), 1)) && SuffixFactor("G") == Some((Pow10(9), 1))
    ensures SuffixFactor("T") == Some((Pow10(12), 1)) && SuffixFactor("P") == Some((Pow10(15), 1))
    ensures SuffixFactor("E") == Some((Pow10(18), 1)) && SuffixFactor("") == Some((1, 1))
  {
    PowersOfSuffixes();
    OneLetterSuffixes();
    hide *;
  }

  lemma OneLetterSuffixes()
    ensures SuffixFactor("n") == Some((1, 1_000_000_000)) && SuffixFactor("u") == Some((1, 1_000_000))
    ensures SuffixFactor("m") == Some((1, 1_000)) && SuffixFactor("k") == Some((1_000, 1))
    ensures SuffixFactor("M") == Some((1_000_000, 1)) && SuffixFactor("G") == Some((1_000_000_000, 1))
    ensures SuffixFactor("T") == Some((1_000_000_000_000, 1)) && SuffixFactor("P") == Some((1_000_000_000_000_000, 1))
    ensures SuffixFactor("E") == Some((1_000_000_000_000_000_000, 1)) && SuffixFactor("") == Some((1, 1))
  {
  }

  /** The binary suffixes, from Ki to Ei. */
  lemma BinarySuffixesMean()
    ensures SuffixFactor("Ki") == Some((Pow2(10), 1)) && SuffixFactor("Mi") == Some((Pow2(20), 1))
    ensures SuffixFactor("Gi") == Some((Pow2(30), 1)) && SuffixFactor("Ti") == Some((Pow2(40), 1))
    ensures SuffixFactor("Pi") == Some((Pow2(50), 1)) && SuffixFactor("Ei") == Some((Pow2(60), 1))
  {
    PowersOfSuffixes();
    TwoLetterSuffixes();
    hide *;
  }

  lemma TwoLetterSuffixes()
    ensures SuffixFactor("Ki") == Some((0x400, 1)) && SuffixFactor("Mi") == Some((0x10_0000, 1))
    ensures SuffixFactor("Gi") == Some((0x4000_0000, 1)) && SuffixFactor("Ti") == Some((0x100_0000_0000, 1))
    ensures SuffixFactor("Pi") == Some((0x4_0000_0000_0000, 1)) && SuffixFactor("Ei") == Some((0x1000_0000_0000_0000, 1))
  {
  }

  lemma KnownSuffixes(suffix: string)
    ensures SuffixFactor(suffix).Some? <==>
            || suffix in {"", "n", "u", "m", "k", "M", "G", "T", "P", "E"}
            || suffix in {"Ki", "Mi", "Gi", "Ti", "Pi", "Ei"}
  {
  }

  /**
   The result, without the names for it: v is the least integer with mantissa * 10^e * suffix <= v * 10^decimals,
   the negative power of ten moved to the other side, and it must be below 2^64.
   */
  lemma SizeIsLeast(l: Literal, v: nat)
    requires Measurable(l) && ExponentOf(l) != INT64_MIN
    ensures var e, f := ExponentOf(l), SuffixFactor(l.suffix).value;
            var num := Decimal(l.whole + l.frac) * Pow10(if e > 0 then e else 0) * f.0;
            var den := Pow10(|l.frac|) * Pow10(if e < 0 then -e else 0) * f.1;
            && (Parsed(l) == Ok(v) <==>
                  v < 0x1_0000_0000_0000_0000 && num <= v * den && (v == 0 || num > (v - 1) * den))
            && (Parsed(l) == Err(Overflow) <==> num > 0xffff_ffff_ffff_ffff * den)
  {
    SizeIsExact(l);
    ExactIs(l);
    var r := ExactValue(l);
    OutcomeMeans(r, v);
    hide ExactValue, Pow10, Decimal, SuffixFactor, ExponentOf, CeilOutcome, Parsed;
  }

  lemma ExactIs(l: Literal)
    requires Measurable(l)
    ensures var e, f := ExponentOf(l), SuffixFactor(l.suffix).value;
            ExactValue(l) == Rat(Decimal(l.whole + l.frac) * Pow10(if e > 0 then e else 0) * f.0,
                                 Pow10(|l.frac|) * Pow10(if e < 0 then -e else 0) * f.1)
  {
    hide Pow10, Decimal, SuffixFactor;
  }

  /** 1.5Gi, +250m, 1E3k and -1, as they are written. */
  lemma SomeQuantities()
    ensures ParseSize("1.5Gi", Some(Match("1.5", "Gi"))) == Ok(1_610_612_736)
    ensures ParseSize("+250m", Some(Match("+250", "m"))) == Ok(1)
    ensures ParseSize("1E3k", Some(Match("1E3", "k"))) == Ok(1_000_000)
    ensures ParseSize("-1", Some(Match("-1", ""))) == Err(MustBeNonNegative)
  {
    OneAndAHalf();
    QuarterRoundsUp();
    ThousandThousands();
    MinusOne();
  }

  lemma OneAndAHalf()
    ensures ParseSize("1.5Gi", Some(Match("1.5", "Gi"))) == Ok(1_610_612_736)
  {
    var l := Literal(NoSign, "1", true, "5", NoExponent, "Gi");
    assert "1" + "5" == "15" && MantissaText(l) == "1.5" && NumberText(l) == "1.5" && NumberText(l) + l.suffix == "1.5Gi";
    DigitsMean();
    assert Pow10(0) == 1 && Pow10(1) == 10;
    assert Measurable(l) && ExponentOf(l) == 0 && SuffixFactor("Gi") == Some((0x4000_0000, 1));
    hide Pow10, Decimal, SuffixFactor, NumberText, ParseSize;
    assert Parsed(l) == ParseSize("1.5Gi", Some(Match("1.5", "Gi")));
    SizeIsLeast(l, 1_610_612_736);
  }

  lemma QuarterRoundsUp()
    ensures ParseSize("+250m", Some(Match("+250", "m"))) == Ok(1)
  {
    var l := Literal(Plus, "250", false, "", NoExponent, "m");
    assert "250" + "" == "250" && MantissaText(l) == "+250" && NumberText(l) == "+250" && NumberText(l) + l.suffix == "+250m";
    DigitsMean();
    assert Pow10(0) == 1;
    assert Measurable(l) && ExponentOf(l) == 0 && SuffixFactor("m") == Some((1, 1_000));
    hide Pow10, Decimal, SuffixFactor, NumberText, ParseSize;
    assert Parsed(l) == ParseSize("+250m", Some(Match("+250", "m")));
    SizeIsLeast(l, 1);
  }

  lemma ThousandThousands()
    ensures ParseSize("1E3k", Some(Match("1E3", "k"))) == Ok(1_000_000)
  {
    var l := Literal(NoSign, "1", false, "", Exponent('E', NoSign, "3"), "k");
    assert "1" + "" == "1" && MantissaText(l) == "1" && ExponentText(l.exponent) == "E3" && NumberText(l) == "1E3"
           && NumberText(l) + l.suffix == "1E3k";
    DigitsMean();
    assert Pow10(0) == 1 && Pow10(1) == 10 && Pow10(2) == 100 && Pow10(3) == 1_000;
    assert Measurable(l) && ExponentOf(l) == 3 && SuffixFactor("k") == Some((1_000, 1));
    hide Pow10, Decimal, SuffixFactor, NumberText, ParseSize;
    assert Parsed(l) == ParseSize("1E3k", Some(Match("1E3", "k")));
    SizeIsLeast(l, 1_000_000);
  }

  lemma MinusOne()
    ensures ParseSize("-1", Some(Match("-1", ""))) == Err(MustBeNonNegative)
  {
    var l := Literal(Minus, "1", false, "", NoExponent, "");
    assert "1" + "" == "1" && MantissaText(l) == "-1" && NumberText(l) == "-1" && NumberText(l) + l.suffix == "-1";
    DigitsMean();
    assert WellFormed(l) && ExponentOf(l) == 0 && MantissaOf(l) == 1;
    RefusedLiterals(l);
  }

  lemma DigitsMean()
    ensures AllDigits("1") && Decimal("1") == 1 && AllDigits("3") && Decimal("3") == 3
    ensures AllDigits("15") && Decimal("15") == 15 && AllDigits("250") && Decimal("250") == 250
  {
    assert Decimal("") == 0;
    hide Decimal;
    assert "" + ['1'] == "1" && "" + ['3'] == "3" && "1" + ['5'] == "15" && "" + ['2'] == "2" && "2" + ['5'] == "25" && "25" + ['0'] == "250";
    DecimalSnoc("", '1');
    DecimalSnoc("", '3');
    DecimalSnoc("1", '5');
    DecimalSnoc("", '2');
    DecimalSnoc("2", '5');
    DecimalSnoc("25", '0');
  }

  /** Every other literal is refused, each for the first reason that applies. */
  lemma RefusedLiterals(l: Literal)
    requires WellFormed(l) && !Measurable(l)
    ensures Parsed(l) == Err(
              if EndsInB(l.suffix) then UnsupportedSuffix
              else if !(INT64_MIN <= ExponentOf(l) <= INT64_MAX) then BadExponent
              else if l.sign.Minus? && MantissaOf(l) > 0 then MustBeNonNegative
              else UnknownSuffix)
  {
    NumberMeans(l);
    TextIsNotEmpty(l);
    if SuffixFactor(l.suffix).Some? {
      KnownSuffixHasNoB(l.suffix);
    }
    ScaledNegative(l.sign.Minus?, MantissaOf(l), |l.frac|, ExponentOf(l));
    hide NumberText, ParseNumber, CeilOutcome, Scaled, SuffixFactor, EndsInB;
  }

  lemma ScaledNegative(negative: bool, mantissa: nat, decimals: nat, exp10: int)
    ensures Scaled(negative, mantissa, decimals, exp10).num < 0 <==> negative && mantissa > 0
  {
    hide Pow10;
    if exp10 > 0 {
      assert mantissa > 0 ==> mantissa * Pow10(exp10) > 0;
      var m: int := mantissa;
      assert (-m) * Pow10(exp10) == -(m * Pow10(exp10));
    }
  }
}
