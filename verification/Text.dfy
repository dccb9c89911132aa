/**
 Text helpers (utils.cpp): trimming, ASCII lower-casing and 64-bit decimal numbers.
 A C++ char is modelled by a Dafny char; no proof depends on the size of the alphabet.
 */
module Text {
  import opened Wrappers

  const UINT64_LIMIT := 0x1_0000_0000_0000_0000

  /** std::uint64_t: every value that fits in 64 bits. Wrap-around is written out where it is computed. */
  type uint64 = n: int | 0 <= n < UINT64_LIMIT

  predicate IsBlank(c: char) {
    c == ' ' || c == '\t' || c == '\r' || c == '\n'
  }

  predicate AllBlank(s: string) {
    forall i | 0 <= i < |s| :: IsBlank(s[i])
  }

  function TrimLeft(s: string): (r: string)
    ensures r != "" ==> !IsBlank(r[0])
  {
    if s != "" && IsBlank(s[0]) then TrimLeft(s[1..]) else s
  }

  function TrimRight(s: string): (r: string)
    ensures r <= s
    ensures r != "" ==> !IsBlank(r[|r| - 1])
  {
    if s != "" && IsBlank(s[|s| - 1]) then TrimRight(s[..|s| - 1]) else s
  }

  function Trim(s: string): (r: string)
    ensures IsTrimmed(r)
  {
    TrimRight(TrimLeft(s))
  }

  predicate IsTrimmed(s: string) {
    s != "" ==> !IsBlank(s[0]) && !IsBlank(s[|s| - 1])
  }

  lemma TrimmedIsFixed(s: string)
    requires IsTrimmed(s)
    ensures Trim(s) == s
  {
  }

  lemma {:induction false} TrimRightDropsBlanks(s: string) returns (right: string)
    ensures s == TrimRight(s) + right && AllBlank(right)
  {
    if s != "" && IsBlank(s[|s| - 1]) {
      var rest := TrimRightDropsBlanks(s[..|s| - 1]);
      right := rest + [s[|s| - 1]];
    } else {
      right := "";
    }
  }

  lemma {:induction false} TrimLeftDropsBlanks(s: string) returns (left: string)
    ensures s == left + TrimLeft(s) && AllBlank(left)
  {
    if s != "" && IsBlank(s[0]) {
      var rest := TrimLeftDropsBlanks(s[1..]);
      left := [s[0]] + rest;
    } else {
      left := "";
    }
  }

  /** Trimming removes blanks from the two ends and nothing else. */
  lemma TrimDropsOnlyBlanks(s: string) returns (left: string, right: string)
    ensures s == left + Trim(s) + right
    ensures AllBlank(left) && AllBlank(right)
  {
    left := TrimLeftDropsBlanks(s);
    right := TrimRightDropsBlanks(TrimLeft(s));
    assert s == left + (Trim(s) + right) == left + Trim(s) + right;
  }

  function Lower(c: char): char {
    if 'A' <= c <= 'Z' then c - 'A' + 'a' else c
  }

  function ToLower(s: string): (r: string)
    ensures |r| == |s|
    ensures forall i | 0 <= i < |s| :: r[i] == Lower(s[i])
  {
    if s == "" then "" else [Lower(s[0])] + ToLower(s[1..])
  }

  /** The first position of c in s, or |s| when there is none. */
  function IndexOf(s: string, c: char): (i: nat)
    ensures i <= |s|
    ensures i < |s| ==> s[i] == c
    ensures forall j | 0 <= j < i :: s[j] != c
  {
    if s == "" || s[0] == c then 0
    else
      var rest := IndexOf(s[1..], c);
      assert forall j | 0 < j < rest + 1 :: s[j] == s[1..][j - 1];
      rest + 1
  }

  /** Two positions with the same description of "first" are the same position. */
  lemma IndexOfIs(s: string, c: char, i: nat)
    requires i < |s| && s[i] == c
    requires forall j | 0 <= j < i :: s[j] != c
    ensures IndexOf(s, c) == i
  {
  }

  // ----- decimal numbers

  predicate IsDigit(c: char) {
    '0' <= c <= '9'
  }

  predicate AllDigits(s: string) {
    forall i | 0 <= i < |s| :: IsDigit(s[i])
  }

  function DigitValue(c: char): (d: nat)
    requires IsDigit(c)
    ensures d < 10
  {
    c as int - '0' as int
  }

  function DigitChar(d: nat): (c: char)
    requires d < 10
    ensures IsDigit(c) && DigitValue(c) == d
  {
    '0' + d as char
  }

  function DecimalValue(s: string): nat
    requires AllDigits(s)
  {
    if s == "" then 0 else 10 * DecimalValue(s[..|s| - 1]) + DigitValue(s[|s| - 1])
  }

  /** std::to_string on an unsigned value. */
  function Decimal(n: nat): (s: string)
    ensures s != "" && AllDigits(s)
  {
    if n < 10 then [DigitChar(n)] else Decimal(n / 10) + [DigitChar(n % 10)]
  }

  lemma {:induction false} DecimalValueOfDecimal(n: nat)
    ensures DecimalValue(Decimal(n)) == n
  {
    var s := Decimal(n);
    if n < 10 {
      assert s[..0] == "";
    } else {
      DecimalValueOfDecimal(n / 10);
      assert s[..|s| - 1] == Decimal(n / 10);
    }
  }

  lemma DecimalInjective(a: nat, b: nat)
    requires Decimal(a) == Decimal(b)
    ensures a == b
  {
    DecimalValueOfDecimal(a);
    DecimalValueOfDecimal(b);
  }

  /** parse_optional_uint: trimmed, all digits, and below 2^64. */
  function ParseUint(s: string): Option<uint64> {
    var t := Trim(s);
    if t == "" || !AllDigits(t) then None
    else
      var n := DecimalValue(t);
      if n < UINT64_LIMIT then Some(n) else None
  }

  lemma DigitsAreTrimmed(s: string)
    requires AllDigits(s)
    ensures IsTrimmed(s) && Trim(s) == s
  {
    TrimmedIsFixed(s);
  }

  /** A printed number is read back exactly when it fits in 64 bits, and is rejected otherwise. */
  lemma ParsePrintedUint(n: nat)
    ensures n < UINT64_LIMIT ==> ParseUint(Decimal(n)) == Some(n)
    ensures n >= UINT64_LIMIT ==> ParseUint(Decimal(n)) == None
  {
    DigitsAreTrimmed(Decimal(n));
    DecimalValueOfDecimal(n);
  }


  // ----- numbers with anything around them

  lemma {:induction false} TrimLeftOf(left: string, s: string)
    requires AllBlank(left) && (s != "" ==> !IsBlank(s[0]))
    ensures TrimLeft(left + s) == s
  {
    if left == "" {
      assert left + s == s;
    } else {
      assert (left + s)[1..] == left[1..] + s;
      TrimLeftOf(left[1..], s);
    }
  }

  lemma {:induction false} TrimRightOf(s: string, right: string)
    requires AllBlank(right) && (s != "" ==> !IsBlank(s[|s| - 1]))
    ensures TrimRight(s + right) == s
  {
    if right == "" {
      assert s + right == s;
    } else {
      var n := |right| - 1;
      assert (s + right)[..|s| + n] == s + right[..n];
      TrimRightOf(s, right[..n]);
    }
  }

  /** Blanks on both sides are trimmed, whatever their number. */
  lemma TrimOf(left: string, s: string, right: string)
    requires AllBlank(left) && AllBlank(right) && IsTrimmed(s) && s != ""
    ensures Trim(left + s + right) == s
  {
    assert left + s + right == left + (s + right);
    TrimLeftOf(left, s + right);
    TrimRightOf(s, right);
  }

  /** The four blanks are the space, the tab and the two line breaks; no other white space is trimmed. */
  lemma BlanksAreTrimmed()
    ensures Trim(" \t\r\na b\n\r\t ") == "a b"
    ensures Trim("\U{0B}\U{0C}") == "\U{0B}\U{0C}"
  {
    TrimOf(" \t\r\n", "a b", "\n\r\t ");
    assert " \t\r\n" + "a b" + "\n\r\t " == " \t\r\na b\n\r\t ";
    TrimmedIsFixed("\U{0B}\U{0C}");
  }

  lemma NumbersHave64Bits()
    ensures UINT64_LIMIT == 4294967296 * 4294967296
  {
  }

  /** A printed number is read through blanks on either side. */
  lemma ParsePaddedUint(left: string, n: nat, right: string)
    requires AllBlank(left) && AllBlank(right) && n < UINT64_LIMIT
    ensures ParseUint(left + Decimal(n) + right) == Some(n)
  {
    DigitsAreTrimmed(Decimal(n));
    TrimOf(left, Decimal(n), right);
    DecimalValueOfDecimal(n);
  }

  lemma NonBlankIsInside(left: string, t: string, right: string, i: nat)
    requires AllBlank(left) && AllBlank(right)
    requires i < |left + t + right| && !IsBlank((left + t + right)[i])
    ensures |left| <= i < |left| + |t| && t[i - |left|] == (left + t + right)[i]
  {
  }

  /** A text with any character that is neither a digit nor a blank is no number, and neither is one of blanks only. */
  lemma ParseUintRejects(s: string, i: nat)
    requires i < |s| && !IsDigit(s[i]) && !IsBlank(s[i])
    ensures ParseUint(s) == None
  {
    hide Trim;
    var left, right := TrimDropsOnlyBlanks(s);
    NonBlankIsInside(left, Trim(s), right, i);
  }

  lemma ParseUintOfBlanks(s: string)
    requires AllBlank(s)
    ensures ParseUint(s) == None
  {
    TrimLeftOf(s, "");
    assert s + "" == s;
  }

  /** Exactly the 26 capital letters change, and each becomes its small letter. */
  lemma LowerIs(c: char)
    ensures Lower(c) != c <==> 'A' <= c <= 'Z'
    ensures 'A' <= c <= 'Z' ==> Lower(c) as int == c as int + 32
  {
  }
}
