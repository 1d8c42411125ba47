/**
  The two 64-digit checksum encodings. The hash functions are parameters, so every result holds for
  any hash: a Starknet hash of bytes to a number, a Fuel hash of a string to 32 bytes.
 */
module Addresses {
  import opened Text

  datatype Error = AddressTooLong | NotHex | HashTooLong | NotB256
  datatype Result<+T> = Ok(value: T) | Err(error: Error)

  type Byte = b: nat | b < 0x100
  type Digest = s: seq<Byte> | |s| == 32 witness seq(32, i => 0)

  // ---- Hex strings ----

  predicate IsHexCharacter(c: char) {
    '0' <= c <= '9' || 'a' <= c <= 'f' || 'A' <= c <= 'F'
  }

  predicate IsHexString(s: string) {
    forall i :: 0 <= i < |s| ==> IsHexCharacter(s[i])
  }

  function HexValue(c: char): (v: nat)
    requires IsHexCharacter(c)
    ensures v < 16
  {
    if c <= '9' then (c - '0') as nat else if c <= 'F' then 10 + (c - 'A') as nat else 10 + (c - 'a') as nat
  }

  /** The lower-case digit. */
  function HexChar(v: nat): (c: char)
    requires v < 16
    ensures IsHexCharacter(c) && HexValue(c) == v && LowerChar(c) == c
  {
    if v < 10 then '0' + v as char else 'a' + (v - 10) as char
  }

  function HexNumber(s: string): nat
    requires IsHexString(s)
  {
    if s == [] then 0 else 16 * HexNumber(s[..|s| - 1]) + HexValue(s[|s| - 1])
  }

  /** The digits of a number, lower case, without leading zeros. */
  function HexOf(n: nat): (s: string)
    ensures IsHexString(s) && (s != [] ==> s[0] != '0') && (n > 0 ==> s != [])
  {
    if n == 0 then [] else HexOf(n / 16) + [HexChar(n % 16)]
  }

  /** strings.TrimLeft(s, "0") */
  function TrimZeros(s: string): (r: string)
    ensures |r| <= |s| && (r != [] ==> r[0] != '0')
  {
    if s != [] && s[0] == '0' then TrimZeros(s[1..]) else s
  }

  /** Zero-padded on the left to 64 digits. */
  function Pad64(s: string): (r: string)
    requires |s| <= 64
    ensures |r| == 64 && (IsHexString(s) ==> IsHexString(r))
  {
    seq(64 - |s|, i => '0') + s
  }

  /** One zero in front of an odd number of digits. */
  function Even(s: string): (r: string)
    ensures |r| % 2 == 0 && (IsHexString(s) ==> IsHexString(r))
  {
    if |s| % 2 != 0 then "0" + s else s
  }

  /** hex.DecodeString of an even number of digits. */
  function HexDecode(s: string): (r: seq<Byte>)
    requires IsHexString(s) && |s| % 2 == 0
    ensures |r| == |s| / 2
  {
    seq(|s| / 2, j requires 0 <= j < |s| / 2 => 16 * HexValue(s[2 * j]) + HexValue(s[2 * j + 1]))
  }

  // ---- Starknet style ----

  /** Digit i is written in upper case when nibble i of the mask is at least 8. */
  function Cased(digits: string, mask: string): (r: string)
    requires |digits| == |mask| && IsHexString(mask)
    ensures |r| == |digits|
  {
    seq(|digits|, i requires 0 <= i < |digits| => if HexValue(mask[i]) >= 8 then UpperChar(digits[i]) else digits[i])
  }

  function TrimPrefix(s: string): string {
    if |s| >= 2 && s[..2] == "0x" then s[2..] else s
  }

  /** The digits of an address as typed: outer space, letter case and 0x dropped. */
  function Body(address: string): string {
    TrimPrefix(ToLower(TrimSpace(address)))
  }

  /** The loop that rewrites the digits in place, two per hash byte. */
  method CaseDigits(chars: array<char>, mask: string)
    requires chars.Length == |mask| == 64 && IsHexString(mask)
    modifies chars
    ensures chars[..] == Cased(old(chars[..]), mask)
  {
    var hashed := HexDecode(mask);
    var i := 0;
    while i < chars.Length
      invariant 0 <= i <= 64 && i % 2 == 0
      invariant forall j :: 0 <= j < i ==> chars[j] == Cased(old(chars[..]), mask)[j]
      invariant forall j :: i <= j < 64 ==> chars[j] == old(chars[j])
    {
      var b: nat := hashed[i / 2];
      assert b / 16 == HexValue(mask[i]) && b % 16 == HexValue(mask[i + 1]);
      if b / 16 >= 8 {
        chars[i] := UpperChar(chars[i]);
      }
      if b % 16 >= 8 {
        chars[i + 1] := UpperChar(chars[i + 1]);
      }
      i := i + 2;
    }
  }

  method GetChecksumAddress64(address: string, hash: seq<Byte> -> nat) returns (r: Result<string>)
    ensures r == Checksum64(Body(address), hash)
  {
    var trimmed := TrimZeros(TrimPrefix(ToLower(TrimSpace(address))));
    EvenKeeps(trimmed);
    if |trimmed| % 2 != 0 {
      trimmed := "0" + trimmed;
    }
    if |trimmed| > 64 {
      return Err(AddressTooLong);
    }
    var address64 := Pad64(trimmed);
    var chars := new char[64](i requires 0 <= i < 64 => address64[i]);
    if !IsHexString(trimmed) {
      return Err(NotHex);
    }
    var byteSlice := HexDecode(trimmed);
    var hs := TrimZeros(HexOf(hash(byteSlice)));
    if |hs| > 64 {
      return Err(HashTooLong);
    }
    assert chars[..] == address64;
    CaseDigits(chars, Pad64(hs));
    return Ok("0x" + chars[..]);
  }

  /** What the method computes from the typed digits. */
  function Checksum64(body: string, hash: seq<Byte> -> nat): Result<string> {
    var s := TrimZeros(body);
    if |s| > 64 then Err(AddressTooLong)
    else if !IsHexString(s) then Err(NotHex)
    else
      var hs := HexOf(hash(HexDecode(Even(s))));
      if |hs| > 64 then Err(HashTooLong) else Ok("0x" + Cased(Pad64(s), Pad64(hs)))
  }

  lemma EvenKeeps(s: string)
    ensures |Even(s)| <= 64 <==> |s| <= 64
    ensures |s| <= 64 ==> Pad64(Even(s)) == Pad64(s)
    ensures IsHexString(Even(s)) <==> IsHexString(s)
  {
    if |s| % 2 != 0 {
      assert forall i :: 0 <= i < |s| ==> Even(s)[i + 1] == s[i];
    }
  }

  /** The number and its hash have at most 256 bits. */
  predicate Fits(n: nat, hash: seq<Byte> -> nat) {
    |HexOf(n)| <= 64 && |HexOf(hash(HexDecode(Even(HexOf(n)))))| <= 64
  }

  /** The 64 hash digits that decide the letter case. */
  function Mask(n: nat, hash: seq<Byte> -> nat): (m: string)
    requires Fits(n, hash)
    ensures |m| == 64 && IsHexString(m)
  {
    Pad64(HexOf(hash(HexDecode(Even(HexOf(n))))))
  }

  /** The checksum address of a number. */
  function Canonical(n: nat, hash: seq<Byte> -> nat): string
    requires Fits(n, hash)
  {
    "0x" + Cased(Pad64(HexOf(n)), Mask(n, hash))
  }

  lemma {:induction false} TrimZerosKeepsNumber(s: string)
    requires IsHexString(s)
    ensures IsHexString(TrimZeros(s)) && HexNumber(TrimZeros(s)) == HexNumber(s)
  {
    if s != [] && s[0] == '0' {
      TrimZerosKeepsNumber(s[1..]);
      LeadingZero(s[1..]);
      assert s == "0" + s[1..];
    }
  }

  lemma {:induction false} LeadingZero(s: string)
    requires IsHexString(s)
    ensures IsHexString("0" + s) && HexNumber("0" + s) == HexNumber(s)
  {
    var z := "0" + s;
    if s == [] {
      assert z[..|z| - 1] == [];
    } else {
      LeadingZero(s[..|s| - 1]);
      assert z[..|z| - 1] == "0" + s[..|s| - 1];
    }
  }

  lemma Quotient16(n: nat, v: nat)
    requires v < 16
    ensures (16 * n + v) / 16 == n && (16 * n + v) % 16 == v
  {}

  lemma AppendDigit(n: nat, c: char)
    requires IsHexCharacter(c) && LowerChar(c) == c && (n > 0 || c != '0')
    ensures HexOf(16 * n + HexValue(c)) == HexOf(n) + [c]
  {
    Quotient16(n, HexValue(c));
  }

  lemma DigitsExtend(front: string, c: char)
    requires IsHexString(front) && IsHexCharacter(c) && LowerChar(c) == c && (front == [] ==> c != '0')
    requires HexOf(HexNumber(front)) == front
    ensures IsHexString(front + [c]) && HexOf(HexNumber(front + [c])) == front + [c]
  {
    assert (front + [c])[..|front|] == front;
    AppendDigit(HexNumber(front), c);
  }

  /** Lower-case digits without leading zeros are the digits of their number. */
  lemma {:induction false} DigitsOfNumber(s: string)
    requires IsHexString(s) && IsLower(s) && (s != [] ==> s[0] != '0')
    ensures HexOf(HexNumber(s)) == s
  {
    if s != [] {
      var front, c := s[..|s| - 1], s[|s| - 1];
      assert s == front + [c];
      DigitsOfNumber(front);
      DigitsExtend(front, c);
    }
  }

  lemma {:induction false} NumberOfHex(n: nat)
    ensures HexNumber(HexOf(n)) == n && IsLower(HexOf(n))
  {
    if n > 0 {
      NumberOfHex(n / 16);
      assert HexOf(n)[..|HexOf(n)| - 1] == HexOf(n / 16);
    }
  }

  lemma {:induction false} NumberOfPad(s: string, k: nat)
    requires IsHexString(s)
    ensures var p := seq(k, i => '0') + s; IsHexString(p) && HexNumber(p) == HexNumber(s)
    decreases k
  {
    var p := seq(k, i => '0') + s;
    if k == 0 {
      assert p == s;
    } else {
      NumberOfPad(s, k - 1);
      LeadingZero(seq(k - 1, i => '0') + s);
      assert p == "0" + (seq(k - 1, i => '0') + s);
    }
  }

  lemma TrimZerosKeepsLower(s: string)
    requires IsLower(s)
    ensures IsLower(TrimZeros(s))
  {}

  /** Valid input: hex digits, at most 64 significant ones, and a hash of at most 256 bits. */
  predicate ValidBody(body: string, hash: seq<Byte> -> nat) {
    IsHexString(body) && IsLower(body) && Fits(HexNumber(body), hash)
  }

  /** The checksum address is a function of the number typed, not of case, spacing, prefix or leading zeros. */
  lemma ChecksumIsCanonical(body: string, hash: seq<Byte> -> nat)
    requires ValidBody(body, hash)
    ensures Checksum64(body, hash) == Ok(Canonical(HexNumber(body), hash))
  {
    TrimZerosKeepsNumber(body);
    TrimZerosKeepsLower(body);
    DigitsOfNumber(TrimZeros(body));
  }

  // ---- The canonical form is its own checksum address ----

  lemma BodyOfPrinted(digits: string, mask: string)
    requires |digits| == |mask| == 64 && IsHexString(mask) && IsHexString(digits) && IsLower(digits)
    ensures Body("0x" + Cased(digits, mask)) == digits
  {}

  lemma PaddedDigits(n: nat)
    requires |HexOf(n)| <= 64
    ensures IsLower(Pad64(HexOf(n))) && HexNumber(Pad64(HexOf(n))) == n
  {
    NumberOfHex(n);
    NumberOfPad(HexOf(n), 64 - |HexOf(n)|);
  }

  /**
    Reading the canonical address of n back gives 64 digits of n, and its checksum address is itself. So
    the encoding is idempotent and every spelling of a number has the same checksum address.
   */
  lemma CanonicalIsFixed(n: nat, hash: seq<Byte> -> nat)
    requires Fits(n, hash)
    ensures |Canonical(n, hash)| == 66 && Canonical(n, hash)[..2] == "0x"
    ensures var body := Body(Canonical(n, hash)); |body| == 64 && IsHexString(body) && HexNumber(body) == n
    ensures Checksum64(Body(Canonical(n, hash)), hash) == Ok(Canonical(n, hash))
  {
    PaddedDigits(n);
    BodyOfPrinted(Pad64(HexOf(n)), Mask(n, hash));
    ChecksumIsCanonical(Pad64(HexOf(n)), hash);
  }

  /** Two addresses typed with the same number get the same checksum address, however they are spelled. */
  lemma SpellingDoesNotMatter(a: string, b: string, hash: seq<Byte> -> nat)
    requires ValidBody(Body(a), hash) && IsHexString(Body(b)) && HexNumber(Body(a)) == HexNumber(Body(b))
    ensures Checksum64(Body(a), hash).Ok? && Checksum64(Body(a), hash) == Checksum64(Body(b), hash)
  {
    assert IsLower(Body(b));
    ChecksumIsCanonical(Body(a), hash);
    ChecksumIsCanonical(Body(b), hash);
  }

  // ---- The checksum rule, in terms of the number and its hash ----

  function Pow16(n: nat): (p: nat)
    ensures p > 0
  {
    if n == 0 then 1 else 16 * Pow16(n - 1)
  }

  /** Hex digit of n at place i, counted from the lowest. */
  function Nibble(n: nat, i: nat): (v: nat)
    ensures v < 16
  {
    (n / Pow16(i)) % 16
  }

  /** The bytes of a number, most significant first, without leading zero bytes. */
  function BigEndian(n: nat): seq<Byte> {
    if n == 0 then [] else BigEndian(n / 0x100) + [n % 0x100]
  }

  lemma Div16(n: nat, p: nat)
    requires p > 0
    ensures (n / 16) / p == n / (16 * p)
  {
    var y, s := n / 16, n % 16;
    var q, r := y / p, y % p;
    assert n == q * (16 * p) + (16 * r + s);
    assert 0 <= 16 * r + s < 16 * p;
    QuotientUnique(n, 16 * p, q, 16 * r + s);
  }

  lemma QuotientUnique(n: nat, d: nat, q: nat, r: nat)
    requires r < d && n == q * d + r
    ensures n / d == q
  {
    var dq := n / d - q;
    assert dq * d == r - n % d;
    assert dq >= 1 ==> dq * d >= d;
    assert dq <= -1 ==> dq * d <= -1 * d;
  }

  /** Character by character: the digits of a padded number are its nibbles, highest first. */
  lemma {:induction false} NibblesOfHex(n: nat, i: nat)
    requires |HexOf(n)| <= 64 && i < 64
    ensures HexValue(Pad64(HexOf(n))[63 - i]) == Nibble(n, i)
    decreases i
  {
    if n > 0 {
      if i > 0 {
        NibblesOfHex(n / 16, i - 1);
        Div16(n, Pow16(i - 1));
      }
    }
  }

  lemma {:induction false} HexFits(n: nat, k: nat)
    ensures |HexOf(n)| <= k <==> n < Pow16(k)
    decreases k
  {
    if n > 0 && k > 0 {
      HexFits(n / 16, k - 1);
    }
  }

  lemma EvenAppend(s: string, a: char, b: char)
    ensures Even(s + [a] + [b]) == Even(s) + [a, b]
  {}

  lemma HexOfStep(n: nat)
    requires n > 0
    ensures HexOf(n) == HexOf(n / 16) + [HexChar(n % 16)]
  {}

  lemma LastTwoDigits(n: nat, m: nat)
    requires n > 0 && m == n / 16 / 16
    ensures Even(HexOf(n)) == Even(HexOf(m)) + [HexChar(n / 16 % 16), HexChar(n % 16)]
  {
    var high, low := HexChar(n / 16 % 16), HexChar(n % 16);
    HexOfStep(n);
    if n >= 16 {
      HexOfStep(n / 16);
      EvenAppend(HexOf(m), high, low);
    } else {
      assert HexOf(n) == [low] && HexOf(m) == [] && Even([low]) == ['0', low];
    }
  }

  lemma DecodeLastByte(s: string, t: string, high: nat, low: nat, b: Byte)
    requires IsHexString(s) && |s| % 2 == 0 && high < 16 && low < 16 && b == 16 * high + low
    requires t == s + [HexChar(high), HexChar(low)]
    ensures IsHexString(t) && |t| % 2 == 0 && HexDecode(t) == HexDecode(s) + [b]
  {
    assert forall j :: 0 <= j < |s| ==> t[j] == s[j];
    assert t[|s|] == HexChar(high) && t[|s| + 1] == HexChar(low);
  }

  lemma DivMod256(n: nat)
    ensures n / 16 / 16 == n / 0x100 && 16 * (n / 16 % 16) + n % 16 == n % 0x100
  {}

  lemma HashedLastByte(n: nat, m: nat)
    requires n > 0 && m == n / 0x100
    ensures HexDecode(Even(HexOf(n))) == HexDecode(Even(HexOf(m))) + [n % 0x100]
  {
    DivMod256(n);
    LastTwoDigits(n, m);
    DecodeLastByte(Even(HexOf(m)), Even(HexOf(n)), n / 16 % 16, n % 16, n % 0x100);
  }

  /** What is hashed are the bytes of the number, most significant first. */
  lemma {:induction false} HashedBytes(n: nat)
    ensures HexDecode(Even(HexOf(n))) == BigEndian(n)
  {
    if n > 0 {
      HashedLastByte(n, n / 0x100);
      HashedBytes(n / 0x100);
    }
  }

  const LOWER_DIGITS := "0123456789abcdef"
  const UPPER_DIGITS := "0123456789ABCDEF"

  lemma DigitTables(v: nat)
    requires v < 16
    ensures HexChar(v) == LOWER_DIGITS[v] && UpperChar(HexChar(v)) == UPPER_DIGITS[v]
  {}

  lemma CharIsLowerDigit(c: char)
    requires IsHexCharacter(c) && LowerChar(c) == c
    ensures c == HexChar(HexValue(c))
  {}

  lemma CaseOfDigit(digits: string, mask: string, i: nat)
    requires |digits| == |mask| && IsHexString(mask) && IsHexString(digits) && IsLower(digits) && i < |digits|
    ensures Cased(digits, mask)[i]
      == (if HexValue(mask[i]) >= 8 then UPPER_DIGITS else LOWER_DIGITS)[HexValue(digits[i])]
  {
    CharIsLowerDigit(digits[i]);
    DigitTables(HexValue(digits[i]));
  }

  /** Digit i from the left, given the nibbles of the number and of the hash. */
  lemma CasedDigit(n: nat, hash: seq<Byte> -> nat, i: nat)
    requires Fits(n, hash) && i < 64
    ensures var h := hash(BigEndian(n));
      Canonical(n, hash)[2 + i]
        == (if Nibble(h, 63 - i) >= 8 then UPPER_DIGITS else LOWER_DIGITS)[Nibble(n, 63 - i)]
  {
    HashedBytes(n);
    PaddedDigits(n);
    NibblesOfHex(n, 63 - i);
    NibblesOfHex(hash(BigEndian(n)), 63 - i);
    CaseOfDigit(Pad64(HexOf(n)), Mask(n, hash), i);
  }

  lemma FitsExactly(n: nat, hash: seq<Byte> -> nat)
    ensures Fits(n, hash) <==> n < Pow16(64) && hash(BigEndian(n)) < Pow16(64)
  {
    HashedBytes(n);
    HexFits(n, 64);
    HexFits(hash(BigEndian(n)), 64);
  }

  lemma AcceptedExactly(body: string, hash: seq<Byte> -> nat)
    requires IsHexString(body) && IsLower(body)
    ensures Checksum64(body, hash).Ok? <==> Fits(HexNumber(body), hash)
  {
    TrimZerosKeepsNumber(body);
    TrimZerosKeepsLower(body);
    DigitsOfNumber(TrimZeros(body));
  }

  /**
    The checksum rule. An address of hex digits is accepted exactly when its number n and the hash h of the
    big-endian bytes of n are below 2^256. The answer is then 0x and the 64 hex digits of n, digit i in upper
    case exactly when digit i of h is at least 8.
   */
  lemma ChecksumRule(body: string, hash: seq<Byte> -> nat, i: nat)
    requires IsHexString(body) && IsLower(body) && i < 64
    ensures var n := HexNumber(body);
      var h := hash(BigEndian(n));
      var r := Checksum64(body, hash);
      && (r.Ok? <==> n < Pow16(64) && h < Pow16(64))
      && (r.Ok? ==>
        && |r.value| == 66 && r.value[..2] == "0x"
        && r.value[2 + i] == (if Nibble(h, 63 - i) >= 8 then UPPER_DIGITS else LOWER_DIGITS)[Nibble(n, 63 - i)])
  {
    FitsExactly(HexNumber(body), hash);
    AcceptedExactly(body, hash);
    if Fits(HexNumber(body), hash) {
      ChecksumIsCanonical(body, hash);
      CasedDigit(HexNumber(body), hash, i);
    }
  }

  /** Anything but hex digits is an error. */
  lemma {:induction false} NonHexRejected(body: string, hash: seq<Byte> -> nat)
    requires !IsHexString(body)
    ensures Checksum64(body, hash).Err?
  {
    if body[0] == '0' {
      NonHexRejected(body[1..], hash);
      assert TrimZeros(body) == TrimZeros(body[1..]);
    }
  }

  lemma SolidEnds(prefix: string, digits: string)
    requires prefix in {"", "0x", "0X"} && IsHexString(digits) && digits != []
    ensures var typed := prefix + digits; !IsSpace(typed[0]) && !IsSpace(typed[|typed| - 1])
  {}

  lemma PrefixTrimmed(low: string)
    requires IsHexString(low)
    ensures TrimPrefix("0x" + low) == TrimPrefix(low) == low
  {
    if |low| >= 2 { assert low[..2][1] == low[1] != 'x'; }
  }

  lemma BodyOfTyped(prefix: string, digits: string)
    requires prefix in {"", "0x", "0X"} && IsHexString(digits)
    ensures TrimPrefix(ToLower(prefix + digits)) == ToLower(digits)
  {
    LowerHex(digits);
    PrefixTrimmed(ToLower(digits));
    assert ToLower(prefix + digits) == if prefix == "" then ToLower(digits) else "0x" + ToLower(digits);
  }

  /** However an address is typed, what counts are its digits: outer space, a 0x or 0X prefix and letter case do not. */
  lemma BodyOfSpelling(left: string, prefix: string, digits: string, right: string)
    requires AllSpace(left) && AllSpace(right) && prefix in {"", "0x", "0X"} && IsHexString(digits) && digits != []
    ensures Body(left + (prefix + digits) + right) == ToLower(digits)
    ensures IsHexString(ToLower(digits)) && IsLower(ToLower(digits))
  {
    SolidEnds(prefix, digits);
    TrimAround(left, prefix + digits, right);
    BodyOfTyped(prefix, digits);
    LowerHex(digits);
  }

  // ---- Fuel ----

  /** `^(0x)[0-9a-fA-F]{64}$` */
  predicate IsB256(address: string) {
    |address| == 66 && address[..2] == "0x" && IsHexString(address[2..])
  }

  /** Digit 2i takes its case from the high, digit 2i+1 from the low half of byte i. */
  function FuelCased(digits: string, checksum: Digest): (r: string)
    requires |digits| == 64
    ensures |r| == 64
  {
    seq(64, i requires 0 <= i < 64 =>
      if HalfByte(checksum, i) >= 8 then UpperChar(digits[i]) else digits[i])
  }

  function HalfByte(checksum: Digest, i: nat): nat
    requires i < 64
  {
    if i % 2 == 0 then checksum[i / 2] / 16 else checksum[i / 2] % 16
  }

  method ToFuelChecksumAddress(address: string, sha256: string -> Digest) returns (ret: string)
    requires IsB256(address)
    ensures ret == "0x" + FuelCased(ToLower(address[2..]), sha256(ToLower(address[2..])))
  {
    var addressHex := ToLower(address[2..]);
    var checksum := sha256(addressHex);
    ret := "0x";
    for i := 0 to 32
      invariant ret == "0x" + FuelCased(addressHex, checksum)[..2 * i]
    {
      var ha, hb := addressHex[i * 2], addressHex[i * 2 + 1];
      var high, low := (checksum[i] / 16) * 16, checksum[i] % 16;
      ret := ret + [if high >= 0x80 then UpperChar(ha) else ha];
      ret := ret + [if low >= 0x08 then UpperChar(hb) else hb];
      assert HalfByte(checksum, 2 * i) == checksum[i] / 16 && HalfByte(checksum, 2 * i + 1) == low;
    }
  }

  method GetFuelChecksumAddress(address: string, sha256: string -> Digest) returns (r: Result<string>)
    ensures r == FuelChecksum(address, sha256)
  {
    if !IsB256(address) {
      return Err(NotB256);
    }
    var ret := ToFuelChecksumAddress(address, sha256);
    return Ok(ret);
  }

  function FuelChecksum(address: string, sha256: string -> Digest): Result<string> {
    if !IsB256(address) then Err(NotB256)
    else Ok("0x" + FuelCased(ToLower(address[2..]), sha256(ToLower(address[2..]))))
  }

  lemma FuelCasedFolds(digits: string, checksum: Digest)
    requires |digits| == 64 && IsHexString(digits) && IsLower(digits)
    ensures IsHexString(FuelCased(digits, checksum)) && ToLower(FuelCased(digits, checksum)) == digits
  {}

  /** The casing rule: bit 7 of byte i of the digest decides digit 2i, bit 3 decides digit 2i + 1. */
  lemma FuelRule(address: string, sha256: string -> Digest, i: nat)
    requires IsB256(address) && i < 32
    ensures var digest := sha256(ToLower(address[2..]));
      var r := FuelChecksum(address, sha256);
      && r.Ok? && |r.value| == 66 && r.value[..2] == "0x"
      && r.value[2 + 2 * i] == (if digest[i] >= 0x80 then UpperChar else LowerChar)(address[2 + 2 * i])
      && r.value[3 + 2 * i] == (if digest[i] % 0x10 >= 8 then UpperChar else LowerChar)(address[3 + 2 * i])
  {
  }

  lemma LowerHex(s: string)
    requires IsHexString(s)
    ensures IsHexString(ToLower(s)) && IsLower(ToLower(s))
  {}

  /** The Fuel encoding changes only letter case, ignores the case it is given, and is idempotent. */
  lemma FuelChecksumFolds(address: string, other: string, sha256: string -> Digest)
    requires IsB256(address) && IsB256(other)
    ensures var r := FuelChecksum(address, sha256);
      && r.Ok? && IsB256(r.value)
      && ToLower(r.value) == ToLower(address)
      && FuelChecksum(r.value, sha256) == r
      && (ToLower(other) == ToLower(address) ==> FuelChecksum(other, sha256) == r)
  {
    var digits := ToLower(address[2..]);
    LowerHex(address[2..]);
    FuelCasedFolds(digits, sha256(digits));
    var out := "0x" + FuelCased(digits, sha256(digits));
    assert out[2..] == FuelCased(digits, sha256(digits));
    LowerFrom2(address);
    LowerFrom2(out);
    LowerFrom2(other);
  }

  lemma LowerFrom2(s: string)
    requires IsB256(s)
    ensures ToLower(s)[2..] == ToLower(s[2..]) && ToLower(s) == "0x" + ToLower(s[2..])
  {}
}
