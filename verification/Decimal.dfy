/**
  Decimal literals: the printer behind the UI amounts (`weiToUI`, which prints a
  `big.Rat` with `FloatString`) and the two parsers that read them back: `decimal.NewFromString` in
  `util.FromUiString`, which truncates, and `big.Rat.SetString` in the route code, which is exact.
  Only plain signed decimal literals are read; exponents and fractions are outside the model.
 */
module Decimal {
  import opened Text

  function Pow10(n: nat): (p: nat)
    ensures p > 0
  {
    if n == 0 then 1 else 10 * Pow10(n - 1)
  }

  lemma {:induction false} Pow10Add(a: nat, b: nat)
    ensures Pow10(a + b) == Pow10(a) * Pow10(b)
  {
    if a > 0 {
      Pow10Add(a - 1, b);
      assert Pow10(a + b) == 10 * (Pow10(a - 1) * Pow10(b));
    }
  }

  // ---- Digit strings ----

  predicate IsDigit(c: char) { '0' <= c <= '9' }

  predicate IsSign(c: char) { c == '+' || c == '-' }

  predicate AllDigits(s: string) { forall i :: 0 <= i < |s| ==> IsDigit(s[i]) }

  function DigitValue(c: char): nat
    requires IsDigit(c)
  {
    (c - '0') as nat
  }

  function DigitChar(n: nat): (c: char)
    requires n < 10
    ensures IsDigit(c) && DigitValue(c) == n
  {
    '0' + n as char
  }

  /** The number a digit string denotes. */
  function Number(s: string): nat
    requires AllDigits(s)
  {
    if s == [] then 0 else 10 * Number(s[..|s| - 1]) + DigitValue(s[|s| - 1])
  }

  /** The shortest digit string of a number. */
  function Digits(n: nat): (s: string)
    ensures |s| > 0 && AllDigits(s)
  {
    if n < 10 then [DigitChar(n)] else Digits(n / 10) + [DigitChar(n % 10)]
  }

  function Zeros(n: nat): (s: string)
    ensures |s| == n && AllDigits(s)
  {
    seq(n, i => '0')
  }

  /** `s` left-padded with zeros to at least `width` characters. */
  function Pad(s: string, width: nat): (r: string)
    requires AllDigits(s)
    ensures AllDigits(r) && |r| == if |s| < width then width else |s|
  {
    (if |s| < width then Zeros(width - |s|) else []) + s
  }

  lemma {:induction false} NumberOfDigits(n: nat)
    ensures Number(Digits(n)) == n
  {
    var s := Digits(n);
    if n >= 10 {
      NumberOfDigits(n / 10);
      assert s[..|s| - 1] == Digits(n / 10);
    } else {
      assert s[..|s| - 1] == [];
    }
  }

  lemma TimesTen(x: int, p: int)
    ensures x * (10 * p) == 10 * (x * p)
  {}

  lemma {:induction false} NumberConcat(a: string, b: string)
    requires AllDigits(a) && AllDigits(b)
    ensures AllDigits(a + b) && Number(a + b) == Number(a) * Pow10(|b|) + Number(b)
  {
    if b == [] {
      assert a + b == a;
    } else {
      var b' := b[..|b| - 1];
      NumberConcat(a, b');
      assert (a + b)[..|a + b| - 1] == a + b';
      assert (a + b)[|a + b| - 1] == b[|b| - 1];
      TimesTen(Number(a), Pow10(|b'|));
    }
  }

  lemma {:induction false} NumberOfZeros(n: nat)
    ensures Number(Zeros(n)) == 0
  {
    if n > 0 {
      NumberOfZeros(n - 1);
      assert Zeros(n)[..n - 1] == Zeros(n - 1);
    }
  }

  lemma {:induction false} DigitsLength(n: nat, width: nat)
    requires width > 0 && n < Pow10(width)
    ensures |Digits(n)| <= width
  {
    if n >= 10 {
      DigitsLength(n / 10, width - 1);
    }
  }

  lemma PadKeepsNumber(s: string, width: nat)
    requires AllDigits(s)
    ensures Number(Pad(s, width)) == Number(s)
  {
    if |s| < width {
      var z := Zeros(width - |s|);
      NumberOfZeros(width - |s|);
      NumberConcat(z, s);
      assert Number(z) * Pow10(|s|) == 0;
    } else {
      assert Pad(s, width) == s;
    }
  }

  lemma NumberOfPadded(n: nat, width: nat)
    requires width > 0 && n < Pow10(width)
    ensures |Pad(Digits(n), width)| == width && Number(Pad(Digits(n), width)) == n
  {
    DigitsLength(n, width);
    NumberOfDigits(n);
    PadKeepsNumber(Digits(n), width);
  }

  // ---- Printing ----

  function Abs(x: int): nat { if x < 0 then -x else x }

  /** n/den as an integer part and a count of 1/p parts, the last one rounded half up. */
  function Rounded(n: nat, den: nat, p: nat): (nat, nat)
    requires den > 0
  {
    var q, scaled := n / den, (n % den) * p;
    var f := scaled / den;
    if 2 * (scaled % den) < den then (q, f)
    else if f + 1 >= p then (q + 1, f + 1 - p)
    else (q, f + 1)
  }

  /** Integer part `q` and, when there are decimals, a dot and exactly that many digits of `f`. */
  function Plain(q: nat, f: nat, decimals: nat): string {
    if decimals > 0 then Digits(q) + "." + Pad(Digits(f), decimals) else Digits(q)
  }

  function WithSign(negative: bool, s: string): string {
    if negative then "-" + s else s
  }

  /** `big.Rat.FloatString` */
  function FloatString(num: int, den: nat, prec: nat): string
    requires den > 0
  {
    var (q, f) := Rounded(Abs(num), den, Pow10(prec));
    WithSign(num < 0, Plain(q, f, prec))
  }

  function WeiToUI(wei: int, decimals: nat): string {
    if wei == 0 then "0" else FloatString(wei, Pow10(decimals), decimals)
  }

  // ---- Parsing ----

  /** coef * 10^-places */
  datatype Literal = Literal(coef: int, places: nat)
  {
    function Real(): real { coef as real / Pow10(places) as real }
  }

  function ParseDigits(s: string): Option<nat> {
    if s != [] && AllDigits(s) then Some(Number(s)) else None
  }

  function Signed(negative: bool, n: nat): int { if negative then 0 - n else n }

  function ParseInt(s: string): Option<int> {
    if s != [] && IsSign(s[0]) then
      match ParseDigits(s[1..])
      case None => None
      case Some(n) => Some(Signed(s[0] == '-', n))
    else
      match ParseDigits(s)
      case None => None
      case Some(n) => Some(n)
  }

  /** Position of the first dot, or |s|. */
  function DotIndex(s: string): (i: nat)
    ensures i <= |s| && (i < |s| ==> s[i] == '.') && '.' !in s[..i]
  {
    if s == [] || s[0] == '.' then 0 else
    assert forall c :: c in s[..1 + DotIndex(s[1..])] ==> c == s[0] || c in s[1..][..DotIndex(s[1..])];
    1 + DotIndex(s[1..])
  }

  function Whole(s: string): string { s[..DotIndex(s)] }

  function Frac(s: string): string {
    if DotIndex(s) < |s| then s[DotIndex(s) + 1..] else []
  }

  /** `decimal.NewFromString`: drop the one dot, read what is left as an integer. */
  function NewFromString(s: string): Option<Literal> {
    if '.' in Frac(s) then None else
    match ParseInt(Whole(s) + Frac(s))
    case None => None
    case Some(n) => Some(Literal(n, |Frac(s)|))
  }

  /** `big.Rat.SetString` on plain literals: a sign, then digits with at most one dot among them. */
  function ParseRat(s: string): Option<Literal> {
    if s != [] && IsSign(s[0]) then
      match ParseUnsigned(s[1..])
      case None => None
      case Some(l) => Some(Literal(if s[0] == '-' then 0 - l.coef else l.coef, l.places))
    else
      ParseUnsigned(s)
  }

  function ParseUnsigned(s: string): Option<Literal> {
    match ParseDigits(Whole(s) + Frac(s))
    case None => None
    case Some(n) => Some(Literal(n, |Frac(s)|))
  }

  /** Integer division rounding toward zero, as `big.Int.Quo`. */
  function Quo(a: int, b: nat): int
    requires b > 0
  {
    if a < 0 then -(-a / b) else a / b
  }

  /** `v.Shift(decimals).BigInt()` */
  function Shifted(l: Literal, decimals: int): int {
    var e := decimals - l.places;
    if e >= 0 then l.coef * Pow10(e) else Quo(l.coef, Pow10(-e))
  }

  function FromUiString(amount: string, decimals: int): Option<int> {
    match NewFromString(amount)
    case None => None
    case Some(l) => Some(Shifted(l, decimals))
  }

  // ---- Round trips ----

  lemma DivCancel(k: nat, a: nat, b: nat)
    requires k > 0 && b > 0
    ensures k * b > 0 && (k * a) / (k * b) == a / b && (k * a) % (k * b) == k * (a % b)
  {
    var q, r := a / b, a % b;
    assert a == q * b + r;
    assert k * a == q * (k * b) + k * r by { assert k * (q * b) == q * (k * b); }
    assert 0 <= k * r <= k * (b - 1) < k * b;
    DivUnique(k * a, k * b, q, k * r);
  }

  lemma DivUnique(n: int, d: nat, q: int, r: int)
    requires d > 0 && 0 <= r < d && n == q * d + r
    ensures n / d == q && n % d == r
  {
    var dq := n / d - q;
    assert dq * d == r - n % d;
    assert dq >= 1 ==> dq * d >= d;
    assert dq <= -1 ==> dq * d <= -1 * d;
  }

  /** The printed form does not depend on how the fraction is represented (lowest terms or not). */
  lemma FloatStringOfScaled(k: nat, num: int, den: nat, prec: nat)
    requires k > 0 && den > 0
    ensures k * den > 0 && FloatString(k * num, k * den, prec) == FloatString(num, den, prec)
  {
    assert Abs(k * num) == k * Abs(num);
    RoundedOfScaled(k, Abs(num), den, Pow10(prec));
    assert k * num < 0 <==> num < 0;
  }

  lemma ScaleCompare(k: nat, a: int, b: int)
    requires k > 0
    ensures k * a < k * b <==> a < b
  {}

  lemma HalfCompare(k: nat, m: int, b: int)
    requires k > 0
    ensures 2 * (k * m) < k * b <==> 2 * m < b
  {}

  lemma RoundedOfScaled(k: nat, n: nat, den: nat, p: nat)
    requires k > 0 && den > 0
    ensures k * den > 0 && Rounded(k * n, k * den, p) == Rounded(n, den, p)
  {
    var r := n % den;
    var scaled: nat := r * p;
    DivCancel(k, n, den);
    DivCancel(k, scaled, den);
    assert (k * r) * p == k * scaled by { Regroup(k, r, p); }
    HalfCompare(k, scaled % den, den);
  }

  lemma {:induction false} SplitNoDot(a: string)
    requires '.' !in a
    ensures DotIndex(a) == |a| && Whole(a) == a && Frac(a) == []
  {}

  lemma {:induction false} SplitAtDot(a: string, b: string)
    requires '.' !in a
    ensures DotIndex(a + "." + b) == |a| && Whole(a + "." + b) == a && Frac(a + "." + b) == b
  {
    if a == [] {
      assert a + "." + b == "." + b;
    } else {
      SplitAtDot(a[1..], b);
      assert (a + "." + b)[1..] == a[1..] + "." + b;
    }
  }

  lemma SplitAfterSign(c: char, body: string)
    requires c != '.'
    ensures Whole([c] + body) == [c] + Whole(body) && Frac([c] + body) == Frac(body)
  {}

  lemma DigitsOfConcat(a: string, b: string)
    ensures AllDigits(a + b) <==> AllDigits(a) && AllDigits(b)
  {
    if AllDigits(a + b) {
      forall j | 0 <= j < |a| ensures IsDigit(a[j]) { assert a[j] == (a + b)[j]; }
      forall j | 0 <= j < |b| ensures IsDigit(b[j]) { assert b[j] == (a + b)[|a| + j]; }
    }
  }

  lemma UnsignedInt(body: string)
    requires body != [] && AllDigits(body)
    ensures ParseInt(body) == Some(Number(body))
  {}

  lemma SignedInt(c: char, body: string)
    requires IsSign(c) && body != [] && AllDigits(body)
    ensures ParseInt([c] + body) == Some(Signed(c == '-', Number(body)))
  {}

  lemma NoDotInDigits(s: string)
    requires AllDigits(s)
    ensures '.' !in s
  {}

  lemma UnsignedReadIsDecimalRead(s: string)
    requires ParseUnsigned(s).Some?
    ensures NewFromString(s) == ParseUnsigned(s)
  {
    DigitsOfConcat(Whole(s), Frac(s));
    NoDotInDigits(Frac(s));
    UnsignedInt(Whole(s) + Frac(s));
  }

  lemma SignedReadIsDecimalRead(c: char, body: string)
    requires IsSign(c) && ParseUnsigned(body).Some?
    ensures NewFromString([c] + body)
      == Some(Literal(Signed(c == '-', ParseUnsigned(body).value.coef), ParseUnsigned(body).value.places))
  {
    var w, f := Whole(body), Frac(body);
    DigitsOfConcat(w, f);
    NoDotInDigits(f);
    SignedInt(c, w + f);
    assert Whole([c] + body) + Frac([c] + body) == [c] + (w + f) by { SplitAfterSign(c, body); }
    assert Frac([c] + body) == f by { SplitAfterSign(c, body); }
  }

  /** Wherever `big.Rat` reads a literal, the decimal library reads the same number. */
  lemma RatReadIsDecimalRead(s: string)
    requires ParseRat(s).Some?
    ensures NewFromString(s) == ParseRat(s)
  {
    if s != [] && IsSign(s[0]) {
      SignedReadIsDecimalRead(s[0], s[1..]);
      assert [s[0]] + s[1..] == s;
    } else {
      UnsignedReadIsDecimalRead(s);
    }
  }

  /** A whole number of 1/p parts needs no rounding. */
  lemma RoundedExact(n: nat, p: nat) returns (q: nat, f: nat)
    requires p > 0
    ensures Rounded(n, p, p) == (q, f) && f < p && n == q * p + f
  {
    q, f := n / p, n % p;
    DivUnique(f * p, p, f, 0);
  }

  lemma UnsignedOf(whole: string, frac: string)
    requires whole != [] && AllDigits(whole) && AllDigits(frac)
    ensures AllDigits(whole + frac)
    ensures ParseUnsigned(whole + "." + frac) == Some(Literal(Number(whole + frac), |frac|))
  {
    NoDotInDigits(whole);
    SplitAtDot(whole, frac);
    DigitsOfConcat(whole, frac);
  }

  lemma UnsignedInteger(whole: string)
    requires whole != [] && AllDigits(whole)
    ensures ParseUnsigned(whole) == Some(Literal(Number(whole), 0))
  {
    NoDotInDigits(whole);
    SplitNoDot(whole);
    assert whole + [] == whole;
  }

  lemma NumberOfParts(q: nat, f: nat, decimals: nat, p: nat)
    requires decimals > 0 && p == Pow10(decimals) && f < p
    ensures |Pad(Digits(f), decimals)| == decimals
    ensures AllDigits(Digits(q) + Pad(Digits(f), decimals))
    ensures Number(Digits(q) + Pad(Digits(f), decimals)) == q * p + f
  {
    NumberOfDigits(q);
    NumberOfPadded(f, decimals);
    NumberConcat(Digits(q), Pad(Digits(f), decimals));
  }

  lemma ReadPlain(n: nat, q: nat, f: nat, decimals: nat)
    requires decimals > 0 ==>
      var s := Digits(q) + Pad(Digits(f), decimals);
      |Pad(Digits(f), decimals)| == decimals && AllDigits(s) && Number(s) == n
    requires decimals == 0 ==> Number(Digits(q)) == n
    ensures ParseUnsigned(Plain(q, f, decimals)) == Some(Literal(n, decimals))
  {
    if decimals > 0 {
      UnsignedOf(Digits(q), Pad(Digits(f), decimals));
    } else {
      UnsignedInteger(Digits(q));
    }
  }

  lemma ReadPlainOf(n: nat, q: nat, f: nat, decimals: nat, p: nat)
    requires p == Pow10(decimals) && f < p && n == q * p + f
    ensures ParseUnsigned(Plain(q, f, decimals)) == Some(Literal(n, decimals))
  {
    if decimals > 0 {
      NumberOfParts(q, f, decimals, p);
    } else {
      NumberOfDigits(q);
    }
    ReadPlain(n, q, f, decimals);
  }

  lemma UnsignedLiteralRead(whole: string, frac: string)
    requires AllDigits(whole) && AllDigits(frac) && whole + frac != []
    ensures AllDigits(whole + frac)
    ensures ParseUnsigned(whole + "." + frac) == Some(Literal(Number(whole + frac), |frac|))
    ensures !IsSign((whole + "." + frac)[0])
  {
    NoDotInDigits(whole);
    SplitAtDot(whole, frac);
    DigitsOfConcat(whole, frac);
    if whole != [] { assert (whole + "." + frac)[0] == whole[0]; }
  }

  lemma SignedBodyRead(sign: string, body: string)
    requires sign in {"", "+", "-"} && ParseUnsigned(body).Some? && body != [] && !IsSign(body[0])
    ensures ParseRat(sign + body)
      == Some(Literal(Signed(sign == "-", ParseUnsigned(body).value.coef), ParseUnsigned(body).value.places))
  {
    if sign == "" {
      assert sign + body == body;
    } else {
      assert (sign + body)[0] == sign[0] && (sign + body)[1..] == body;
    }
  }

  /** Both parsers read a sign, digits and a point as the number the digits denote, whichever side has digits. */
  lemma SignedLiteralRead(sign: string, whole: string, frac: string)
    requires sign in {"", "+", "-"} && AllDigits(whole) && AllDigits(frac) && whole + frac != []
    ensures AllDigits(whole + frac)
    ensures var s, l := sign + (whole + "." + frac), Literal(Signed(sign == "-", Number(whole + frac)), |frac|);
      ParseRat(s) == NewFromString(s) == Some(l)
  {
    UnsignedLiteralRead(whole, frac);
    SignedBodyRead(sign, whole + "." + frac);
    RatReadIsDecimalRead(sign + (whole + "." + frac));
  }

  /** No needless leading zero is printed. */
  lemma {:induction false} ShortestDigits(n: nat)
    ensures Digits(n)[0] == '0' <==> n == 0
    ensures |Digits(n)| == 1 || Digits(n)[0] != '0'
  {
    if n >= 10 {
      ShortestDigits(n / 10);
    }
  }

  lemma PlainStartsWithDigit(q: nat, f: nat, decimals: nat)
    ensures Plain(q, f, decimals) != [] && IsDigit(Plain(q, f, decimals)[0])
  {}

  lemma ReadSigned(negative: bool, body: string)
    requires ParseUnsigned(body).Some? && body != [] && IsDigit(body[0])
    ensures ParseRat(WithSign(negative, body))
      == Some(Literal(Signed(negative, ParseUnsigned(body).value.coef), ParseUnsigned(body).value.places))
  {
    if negative {
      assert ("-" + body)[1..] == body;
    }
  }

  lemma ReadPrintedNonZero(wei: int, decimals: nat)
    requires wei != 0
    ensures ParseRat(WeiToUI(wei, decimals)) == Some(Literal(wei, decimals))
  {
    var q, f := RoundedExact(Abs(wei), Pow10(decimals));
    ReadPlainOf(Abs(wei), q, f, decimals, Pow10(decimals));
    PlainStartsWithDigit(q, f, decimals);
    ReadSigned(wei < 0, Plain(q, f, decimals));
  }

  /** What the printer writes, `big.Rat` reads back as exactly wei / 10^decimals, zero included. */
  lemma ReadPrinted(wei: int, decimals: nat)
    ensures ParseRat(WeiToUI(wei, decimals)) == Some(if wei == 0 then Literal(0, 0) else Literal(wei, decimals))
    ensures ParseRat(WeiToUI(wei, decimals)).value.Real() == wei as real / Pow10(decimals) as real
  {
    if wei == 0 { ReadZero(); } else { ReadPrintedNonZero(wei, decimals); }
  }

  /** Printing in UI units and parsing back to the smallest unit is the identity, for every amount. */
  lemma PrintThenParse(wei: int, decimals: nat)
    ensures FromUiString(WeiToUI(wei, decimals), decimals) == Some(wei)
  {
    if wei == 0 {
      assert NewFromString("0") == Some(Literal(0, 0)) by { ReadZero(); }
    } else {
      ReadPrinted(wei, decimals);
      RatReadIsDecimalRead(WeiToUI(wei, decimals));
    }
  }

  lemma ReadZero()
    ensures ParseRat("0") == NewFromString("0") == Some(Literal(0, 0))
  {
    var s := "0";
    SplitNoDot(s);
    assert s + [] == s;
    assert s[..|s| - 1] == [];
    assert Number(s) == 0;
    RatReadIsDecimalRead(s);
  }

  // ---- Flooring (route code) against truncating (util) ----

  /** `calculateFee`'s conversion to the smallest unit: scale the exact amount and floor. */
  function FloorToWei(amount: real, decimals: nat): int {
    (amount * Pow10(decimals) as real).Floor
  }

  /** It is the one integer w with w <= amount * 10^decimals < w + 1. */
  lemma FloorToWeiBounds(amount: real, decimals: nat, w: int, scaled: real)
    requires scaled == amount * Pow10(decimals) as real
    ensures w == FloorToWei(amount, decimals) <==> w as real <= scaled < w as real + 1.0
  {
    FloorIsUnique(w, scaled);
  }

  lemma FloorIsUnique(w: int, x: real)
    ensures w == x.Floor <==> w as real <= x < w as real + 1.0
  {}

  lemma FloorOfQuotient(a: int, b: nat)
    requires b > 0
    ensures (a as real / b as real).Floor == a / b
  {
    var q, r, br := a / b, a % b, b as real;
    assert a == q * b + r;
    assert a as real == q as real * br + r as real;
    assert a as real / br == q as real + r as real / br by { RealSplit(q as real, r as real, br); }
    assert 0.0 <= r as real / br < 1.0;
  }

  lemma RealSplit(q: real, r: real, b: real)
    requires b > 0.0
    ensures (q * b + r) / b == q + r / b
  {}

  lemma RealMulDiv(c: real, p: real, d: real)
    requires p > 0.0
    ensures (c / p) * d == (c * d) / p
  {}

  lemma RealProduct(a: int, b: int)
    ensures (a * b) as real == a as real * b as real
  {}

  lemma FloorOfScaled(c: int, p: nat, d: nat)
    requires p > 0
    ensures ((c as real / p as real) * d as real).Floor == (c * d) / p
  {
    RealMulDiv(c as real, p as real, d as real);
    RealProduct(c, d);
    FloorOfQuotient(c * d, p);
  }

  lemma FloorToWeiIsDiv(l: Literal, decimals: nat)
    ensures FloorToWei(l.Real(), decimals) == (l.coef * Pow10(decimals)) / Pow10(l.places)
  {
    FloorOfScaled(l.coef, Pow10(l.places), Pow10(decimals));
  }

  /** The printed text, read as a rational, scaled and floored as the fee code does, is the amount. */
  lemma PrintThenFloor(wei: int, decimals: nat)
    ensures ParseRat(WeiToUI(wei, decimals)).Some?
    ensures FloorToWei(ParseRat(WeiToUI(wei, decimals)).value.Real(), decimals) == wei
  {
    if wei == 0 {
      ReadZero();
    } else {
      ReadPrinted(wei, decimals);
      FloorToWeiIsDiv(Literal(wei, decimals), decimals);
      DivUnique(wei * Pow10(decimals), Pow10(decimals), wei, 0);
    }
  }

  /**
    The two conversions of one literal agree exactly when it is not negative or loses no digits:
    `util.FromUiString` truncates toward zero, the fee code floors, so otherwise they are one unit apart.
   */
  lemma TruncationAgreesWithFloor(l: Literal, decimals: nat)
    ensures Shifted(l, decimals) == FloorToWei(l.Real(), decimals)
      <==> l.coef >= 0 || (l.coef * Pow10(decimals)) % Pow10(l.places) == 0
    ensures FloorToWei(l.Real(), decimals) <= Shifted(l, decimals) <= FloorToWei(l.Real(), decimals) + 1
  {
    var a, m := AsQuotients(l, decimals);
    QuoAgainstDiv(a, m);
  }

  /** Both conversions divide the same number by the same number. */
  lemma AsQuotients(l: Literal, decimals: nat) returns (a: int, m: nat)
    ensures m > 0 && Shifted(l, decimals) == Quo(a, m) && FloorToWei(l.Real(), decimals) == a / m
    ensures (a >= 0 <==> l.coef >= 0)
    ensures (l.coef * Pow10(decimals)) % Pow10(l.places) == 0 <==> a % m == 0
  {
    FloorToWeiIsDiv(l, decimals);
    if decimals >= l.places {
      var e := decimals - l.places;
      Pow10Add(e, l.places);
      Regroup(l.coef, Pow10(e), Pow10(l.places));
      a, m := l.coef * Pow10(e), 1;
      DivUnique(l.coef * Pow10(decimals), Pow10(l.places), a, 0);
      SignOfProduct(l.coef, Pow10(e));
    } else {
      a, m := l.coef, Pow10(l.places - decimals);
      Pow10Add(decimals, l.places - decimals);
      DivCancelInt(Pow10(decimals), a, m);
    }
  }

  lemma SignOfProduct(x: int, p: nat)
    requires p > 0
    ensures x * p >= 0 <==> x >= 0
  {}

  lemma Regroup(a: int, b: int, c: int)
    ensures a * (b * c) == (a * b) * c
  {}

  lemma DivCancelInt(k: nat, a: int, b: nat)
    requires k > 0 && b > 0
    ensures k * b > 0 && (a * k) / (k * b) == a / b && ((a * k) % (k * b) == 0 <==> a % b == 0)
  {
    var q, r := a / b, a % b;
    assert a * k == q * (k * b) + k * r by { assert (q * b + r) * k == q * (k * b) + k * r; }
    ScaleCompare(k, r, b);
    ScaleCompare(k, 0, r);
    ScaleCompare(k, r, 0);
    DivUnique(a * k, k * b, q, k * r);
  }

  lemma QuoAgainstDiv(a: int, m: nat)
    requires m > 0
    ensures Quo(a, m) == a / m <==> a >= 0 || a % m == 0
    ensures a / m <= Quo(a, m) <= a / m + 1
  {
    if a < 0 {
      var q, r := a / m, a % m;
      assert -a == (-q) * m - r;
      if r == 0 {
        DivUnique(-a, m, -q, 0);
      } else {
        assert -a == (-q - 1) * m + (m - r);
        DivUnique(-a, m, -q - 1, m - r);
      }
    }
  }
}
