/** The owner file inside a lock directory (download_lock.cpp): written as "pid N", read back word by word. */
module LockOwner {
  import opened Wrappers
  import opened Text
  import opened TextStream

  const INT_MAX := 0x7fff_ffff
  const LONG_LONG_MAX := 0x7fff_ffff_ffff_ffff

  /** write_lock_owner_metadata */
  function OwnerText(pid: nat): string {
    "pid " + (Decimal(pid) + "\n")
  }

  function DigitCount(s: string): (n: nat)
    ensures n <= |s|
    ensures AllDigits(s[..n])
    ensures n < |s| ==> !IsDigit(s[n])
  {
    if s == "" || !IsDigit(s[0]) then 0
    else
      var n := DigitCount(s[1..]);
      assert s[..n + 1] == [s[0]] + s[1..][..n];
      n + 1
  }

  /** input >> number for a long long: an optional sign, digits up to the first other character, and a range check. */
  function ExtractInteger(i: Input): Option<int> {
    var rest := SkipSpace(i.rest);
    if !i.Good() || rest == "" then None
    else
      var signed := rest[0] == '-' || rest[0] == '+';
      var body := if signed then rest[1..] else rest;
      var n := DigitCount(body);
      if n == 0 then None
      else
        var value: int := DecimalValue(body[..n]);
        if rest[0] == '-' then if value <= LONG_LONG_MAX + 1 then Some(-value) else None
        else if value <= LONG_LONG_MAX then Some(value) else None
  }

  /** input.ignore up to and including the next line break. */
  function IgnoreLine(i: Input): (r: Input)
    ensures |r.rest| <= |i.rest|
  {
    if !i.Good() then i.(fail := true)
    else
      var n := IndexOf(i.rest, '\n');
      if n == |i.rest| then Input("", true, false) else Input(i.rest[n + 1..], false, false)
  }

  function OwnerFrom(i: Input): Option<int>
    decreases |i.rest|
  {
    var (afterLabel, word) := ExtractWord(i);
    if afterLabel.fail then None
    else if word == "pid" then
      var pid := ExtractInteger(afterLabel);
      if pid.Some? && 0 < pid.value <= INT_MAX then pid else None
    else OwnerFrom(IgnoreLine(afterLabel))
  }

  function OwnerOf(text: string): Option<int> {
    OwnerFrom(Input(text, false, false))
  }

  /** load_lock_owner_pid on an existing file: lines with other labels are skipped. */
  method LoadLockOwnerPid(text: string) returns (owner: Option<int>)
    ensures owner == OwnerOf(text)
  {
    var input := Input(text, false, false);
    var r := ExtractWord(input);
    while !r.0.fail
      invariant r == ExtractWord(input) && OwnerFrom(input) == OwnerOf(text)
      decreases |input.rest|
    {
      if r.1 == "pid" {
        var pid := ExtractInteger(r.0);
        if pid.Some? && 0 < pid.value <= INT_MAX {
          return pid;
        }
        return None;
      }
      input := IgnoreLine(r.0);
      r := ExtractWord(input);
    }
    return None;
  }

  lemma {:induction false} DigitCountOf(digits: string, rest: string)
    requires AllDigits(digits) && (rest != "" ==> !IsDigit(rest[0]))
    ensures DigitCount(digits + rest) == |digits|
  {
    var s := digits + rest;
    if digits == "" {
      assert s == rest;
    } else {
      assert s[1..] == digits[1..] + rest;
      DigitCountOf(digits[1..], rest);
    }
  }

  lemma IntegerIsRead(digits: string, rest: string)
    requires digits != "" && AllDigits(digits) && (rest != "" ==> !IsDigit(rest[0]))
    ensures ExtractInteger(Input(" " + (digits + rest), false, false)) ==
            if DecimalValue(digits) <= LONG_LONG_MAX then Some(DecimalValue(digits)) else None
  {
    hide DigitCount;
    var tail := " " + (digits + rest);
    assert tail[1..] == digits + rest;
    assert SkipSpace(tail) == SkipSpace(digits + rest) == digits + rest;
    DigitCountOf(digits, rest);
    assert (digits + rest)[..|digits|] == digits;
  }

  lemma PidIsRead(digits: string, rest: string)
    requires digits != "" && AllDigits(digits) && (rest == "" || rest == "\n")
    ensures OwnerOf("pid " + (digits + rest)) ==
            if 0 < DecimalValue(digits) <= INT_MAX then Some(DecimalValue(digits)) else None
  {
    hide ExtractWord, ExtractInteger, DecimalValue;
    var tail := " " + (digits + rest);
    assert "pid " + (digits + rest) == "pid" + tail;
    WordExtracted("pid", tail);
    IntegerIsRead(digits, rest);
  }

  /** What was written is read back, for every pid an int can hold; anything else reads as no owner. */
  lemma OwnerRoundTrip(pid: nat)
    ensures OwnerOf(OwnerText(pid)) == if 0 < pid <= 2147483647 then Some(pid) else None
    ensures OwnerText(pid) == "pid " + Decimal(pid) + "\n"
  {
    hide OwnerOf;
    PidIsRead(Decimal(pid), "\n");
    DecimalValueOfDecimal(pid);
  }

  /**
   An owner file cut inside its number does not read as "no owner" but as the number written so far. This is why
   the protocol needs the file to appear in one piece: a cut one can name a process that is not the owner.
   */
  lemma CutOwnerNamesAnotherPid(pid: nat, n: nat)
    requires 0 < n < |Decimal(pid)|
    ensures var digits := Decimal(pid)[..n];
            var cut, value := "pid " + digits, DecimalValue(digits);
            && cut <= OwnerText(pid)
            && OwnerOf(cut) == (if 0 < value <= INT_MAX then Some(value) else None)
            && OwnerOf(cut) != Some(pid)
  {
    hide OwnerOf;
    var digits := Decimal(pid)[..n];
    assert digits + "" == digits;
    PidIsRead(digits, "");
    PrefixIsSmaller(Decimal(pid), n);
    DecimalValueOfDecimal(pid);
    LeadingDigitIsNotZero(pid);
    assert "pid " + digits <= OwnerText(pid);
  }

  lemma {:induction false} LeadingDigitIsNotZero(n: nat)
    ensures n > 0 ==> DigitValue(Decimal(n)[0]) > 0
    ensures |Decimal(n)| > 1 ==> n > 0
  {
    if n >= 10 {
      LeadingDigitIsNotZero(n / 10);
    }
  }

  lemma {:induction false} PrefixIsSmaller(s: string, n: nat)
    requires AllDigits(s) && n < |s|
    ensures DecimalValue(s[..n]) <= DecimalValue(s)
    ensures DecimalValue(s) > 0 ==> DecimalValue(s[..n]) < DecimalValue(s)
    decreases |s|
  {
    var shorter := s[..|s| - 1];
    if n < |shorter| {
      PrefixIsSmaller(shorter, n);
      assert shorter[..n] == s[..n];
    } else {
      assert s[..n] == shorter;
    }
  }


  /** Lines with another label are skipped, whatever they contain. */
  lemma OtherLinesAreSkipped(other: string, rest: string, text: string)
    requires other != "" && NoSpace(other) && other != "pid" && '\n' !in rest
    ensures OwnerOf(other + (" " + (rest + ("\n" + text)))) == OwnerOf(text)
  {
    hide ExtractWord, ExtractInteger;
    var tail := " " + (rest + ("\n" + text));
    WordExtracted(other, tail);
    IndexOfIs(tail, '\n', 1 + |rest|);
    assert tail[1 + |rest| + 1..] == text;
  }

  lemma SignedIntegerIsRead(sign: char, digits: string, rest: string)
    requires (sign == '-' || sign == '+') && digits != "" && AllDigits(digits)
    requires rest != "" ==> !IsDigit(rest[0])
    ensures var value: int := DecimalValue(digits);
            value <= LONG_LONG_MAX ==>
              ExtractInteger(Input(" " + ([sign] + (digits + rest)), false, false)) ==
              Some(if sign == '-' then -value else value)
  {
    hide DigitCount;
    var body := digits + rest;
    var text := [sign] + body;
    assert (" " + text)[1..] == text && SkipSpace(" " + text) == SkipSpace(text) == text;
    assert text[1..] == body;
    DigitCountOf(digits, rest);
    assert body[..|digits|] == digits;
  }

  /** No process has a negative pid; a plus sign is read as none. */
  lemma SignedPids(sign: char, pid: nat)
    requires (sign == '-' || sign == '+') && pid <= INT_MAX
    ensures OwnerOf("pid " + ([sign] + (Decimal(pid) + "\n"))) == if sign == '+' && pid > 0 then Some(pid) else None
  {
    hide ExtractWord, ExtractInteger, Decimal;
    var tail := " " + ([sign] + (Decimal(pid) + "\n"));
    assert "pid " + ([sign] + (Decimal(pid) + "\n")) == "pid" + tail;
    WordExtracted("pid", tail);
    DecimalValueOfDecimal(pid);
    SignedIntegerIsRead(sign, Decimal(pid), "\n");
  }
}
