/** C++ `std::string` as the search service uses it: a sequence of bytes,
    with the C-locale character classes of `<cctype>`. A byte is written as
    a `char` below 256 so that string literals can be used directly. */
module Bytes {

  type Byte = c: char | c as int < 256

  type Bytes = seq<Byte>

  predicate IsDigit(c: char) {
    '0' <= c <= '9'
  }

  predicate IsUpper(c: char) {
    'A' <= c <= 'Z'
  }

  predicate IsLowerLetter(c: char) {
    'a' <= c <= 'z'
  }

  /** `isalnum` in the C locale: ASCII letters and digits only. */
  predicate IsAlnum(c: char) {
    IsDigit(c) || IsUpper(c) || IsLowerLetter(c)
  }

  /** `isspace` in the C locale. */
  predicate IsSpace(c: char) {
    c == ' ' || '\t' <= c <= '\r'
  }

  /** `tolower` in the C locale. */
  function ToLower(c: Byte): (r: Byte)
    ensures !IsUpper(r)
    ensures !IsUpper(c) ==> r == c
    ensures IsAlnum(c) <==> IsAlnum(r)
  {
    if IsUpper(c) then (c as int + 32) as char else c
  }

  /** `std::transform(s.begin(), s.end(), s.begin(), ::tolower)`. */
  function Lower(s: Bytes): (r: Bytes)
    ensures |r| == |s|
    ensures forall i :: 0 <= i < |s| ==> r[i] == ToLower(s[i])
  {
    seq(|s|, i requires 0 <= i < |s| => ToLower(s[i]))
  }

  /** Lower-casing twice changes nothing more. */
  lemma LowerIdempotent(s: Bytes)
    ensures Lower(Lower(s)) == Lower(s)
  {
  }

  /** The digits of a natural number, most significant first. */
  function NatDigits(n: nat): (r: Bytes)
    ensures |r| > 0
    ensures forall i :: 0 <= i < |r| ==> IsDigit(r[i])
  {
    var d := "0123456789"[n % 10];
    if n < 10 then [d] else NatDigits(n / 10) + [d]
  }

  /** `stream << n` for an `int`. */
  function Decimal(n: int): (r: Bytes)
    ensures |r| > 0
    ensures forall i :: 0 <= i < |r| ==> IsDigit(r[i]) || r[i] == '-'
  {
    if n < 0 then "-" + NatDigits(-n) else NatDigits(n)
  }

  /** The number a run of decimal digits denotes. */
  function DigitsValue(s: Bytes): nat
    requires forall i :: 0 <= i < |s| ==> IsDigit(s[i])
  {
    if s == [] then 0
    else
      var d := s[|s| - 1];
      assert IsDigit(d);
      10 * DigitsValue(s[..|s| - 1]) + (d as int - '0' as int)
  }

  /** The number a decimal numeral denotes, with an optional leading minus. */
  function DecimalValue(s: Bytes): int
    requires s != [] && (s[0] == '-' || IsDigit(s[0]))
    requires forall i :: 1 <= i < |s| ==> IsDigit(s[i])
  {
    if s[0] == '-' then -(DigitsValue(s[1..]) as int) else DigitsValue(s)
  }

  lemma DigitChar(k: nat)
    requires k < 10
    ensures "0123456789"[k] as int - '0' as int == k
  {
    if k < 5 {
      assert k == 0 || k == 1 || k == 2 || k == 3 || k == 4;
    } else {
      assert k == 5 || k == 6 || k == 7 || k == 8 || k == 9;
    }
  }

  /** The digits of `n` read back as `n`, with no leading zero. */
  lemma {:induction false} NatDigitsRoundTrip(n: nat)
    ensures DigitsValue(NatDigits(n)) == n
    ensures NatDigits(n)[0] != '0' || n == 0
  {
    DigitChar(n % 10);
    if n >= 10 {
      var r := NatDigits(n);
      assert r[..|r| - 1] == NatDigits(n / 10);
      NatDigitsRoundTrip(n / 10);
    }
  }

  /** `Decimal` reads back as the number it prints. */
  lemma DecimalRoundTrip(n: int)
    ensures Decimal(n)[0] == '-' || IsDigit(Decimal(n)[0])
    ensures DecimalValue(Decimal(n)) == n
  {
    if n < 0 {
      NatDigitsRoundTrip(-n);
      assert Decimal(n)[1..] == NatDigits(-n);
    } else {
      NatDigitsRoundTrip(n);
    }
  }
}
