/**
 Content-Range parsing and validation (download_resume.cpp), after section 14.4 of RFC 9110.
 */
module ContentRange {
  import opened Wrappers
  import opened Text
  import opened Http

  datatype Range = Range(start: uint64, end: uint64, total: uint64)

  /** The first blank separates the unit from the range; a header without one is malformed. */
  function SeparatorOf(text: string): (i: nat)
    ensures i <= |text|
    ensures i < |text| ==> text[i] == ' ' || text[i] == '\t'
    ensures forall j | 0 <= j < i :: text[j] != ' ' && text[j] != '\t'
  {
    var space := IndexOf(text, ' ');
    var tab := IndexOf(text, '\t');
    if space < tab then space else tab
  }

  /** What follows the "bytes" unit, or nothing when the unit is absent or different. */
  function RangeSpec(value: string): Option<string> {
    var text := Trim(value);
    var separator := SeparatorOf(text);
    if separator == |text| then None
    else if ToLower(Trim(text[..separator])) != "bytes" then None
    else Some(Trim(text[separator + 1..]))
  }

  function ParseContentRange(value: string): Option<Range> {
    var spec := RangeSpec(value);
    if spec.None? then None else ParseRangeSpec(spec.value)
  }

  /** "start-end/total", with exactly one slash and one dash before it. */
  function ParseRangeSpec(spec: string): Option<Range> {
    var slash := IndexOf(spec, '/');
    if slash == |spec| || '/' in spec[slash + 1..] then None
    else
      var bounds := ParseBounds(Trim(spec[..slash]));
      var total := ParseUint(spec[slash + 1..]);
      if total.None? || bounds.None? then None
      else Some(Range(bounds.value.0, bounds.value.1, total.value))
  }

  function ParseBounds(byteRange: string): Option<(uint64, uint64)> {
    var dash := IndexOf(byteRange, '-');
    if dash == |byteRange| || '-' in byteRange[dash + 1..] then None
    else
      var start := ParseUint(byteRange[..dash]);
      var end := ParseUint(byteRange[dash + 1..]);
      if start.None? || end.None? then None else Some((start.value, end.value))
  }

  predicate IsUnsatisfied(value: string) {
    var spec := RangeSpec(value);
    spec.Some? && "*/" <= spec.value
  }

  function ParseContentRangeTotal(value: string): Option<uint64> {
    var range := ParseContentRange(value);
    if range.Some? then Some(range.value.total)
    else if !IsUnsatisfied(value) then None
    else ParseUint(RangeSpec(value).value[2..])
  }

  // ----- printed forms, as section 14.4 of RFC 9110 writes them

  function PrintRange(start: nat, end: nat, total: nat): string {
    "bytes " + (Decimal(start) + "-" + Decimal(end) + "/" + Decimal(total))
  }

  function PrintUnsatisfied(total: nat): string {
    "bytes " + ("*/" + Decimal(total))
  }

  lemma BytesIsLowerCase()
    ensures ToLower("bytes") == "bytes"
  {
  }

  lemma PrintedSpec(spec: string)
    requires spec != "" && IsTrimmed(spec)
    ensures RangeSpec("bytes " + spec) == Some(spec)
  {
    hide IndexOf, Trim, ToLower;
    var text := "bytes " + spec;
    TrimmedIsFixed(text);
    IndexOfIs(text, ' ', 5);
    assert text[..5] == "bytes";
    assert text[6..] == spec;
    TrimmedIsFixed("bytes");
    TrimmedIsFixed(spec);
    BytesIsLowerCase();
  }

  lemma DigitsHaveNo(s: string, c: char)
    requires AllDigits(s) && !IsDigit(c)
    ensures c !in s
  {
  }

  lemma PrintedBoundsParse(start: nat, end: nat)
    ensures ParseBounds(Decimal(start) + "-" + Decimal(end)) ==
            if start < UINT64_LIMIT && end < UINT64_LIMIT then Some((start, end)) else None
  {
    var s, e := Decimal(start), Decimal(end);
    var byteRange := s + "-" + e;
    DigitsHaveNo(s, '-');
    DigitsHaveNo(e, '-');
    IndexOfIs(byteRange, '-', |s|);
    assert byteRange[..|s|] == s;
    assert byteRange[|s| + 1..] == e;
    ParsePrintedUint(start);
    ParsePrintedUint(end);
  }

  lemma SplitSpec(byteRange: string, t: string)
    requires '/' !in byteRange && '/' !in t && IsTrimmed(byteRange)
    ensures ParseRangeSpec(byteRange + "/" + t) ==
            if ParseBounds(byteRange).Some? && ParseUint(t).Some?
            then Some(Range(ParseBounds(byteRange).value.0, ParseBounds(byteRange).value.1, ParseUint(t).value))
            else None
  {
    var spec := byteRange + "/" + t;
    IndexOfIs(spec, '/', |byteRange|);
    assert spec[..|byteRange|] == byteRange;
    assert spec[|byteRange| + 1..] == t;
    TrimmedIsFixed(byteRange);
  }

  /**
   Parsing a printed range returns its three numbers exactly when all three fit in 64 bits;
   otherwise the header is rejected.
   */
  lemma PrintedRangeParses(start: nat, end: nat, total: nat)
    ensures ParseContentRange(PrintRange(start, end, total)) ==
            if start < UINT64_LIMIT && end < UINT64_LIMIT && total < UINT64_LIMIT
            then Some(Range(start, end, total)) else None
  {
    var s, e, t := Decimal(start), Decimal(end), Decimal(total);
    var byteRange := s + "-" + e;
    DigitsHaveNo(s, '/');
    DigitsHaveNo(e, '/');
    DigitsHaveNo(t, '/');
    SplitSpec(byteRange, t);
    PrintedSpec(byteRange + "/" + t);
    PrintedBoundsParse(start, end);
    ParsePrintedUint(total);
  }

  /** No header is accepted both as a range and in the unsatisfied form. */
  lemma FormsAreExclusive(value: string)
    ensures !(IsUnsatisfied(value) && ParseContentRange(value).Some?)
  {
    if IsUnsatisfied(value) {
      var spec := RangeSpec(value).value;
      assert spec[0] == "*/"[0] && spec[1] == "*/"[1];
      IndexOfIs(spec, '/', 1);
      assert spec[..1] == "*";
      TrimmedIsFixed("*");
    }
  }

  /** The unsatisfied form yields its total and only its total, within the same 64-bit limit. */
  lemma UnsatisfiedYieldsTotalOnly(total: nat)
    ensures IsUnsatisfied(PrintUnsatisfied(total))
    ensures ParseContentRange(PrintUnsatisfied(total)) == None
    ensures ParseContentRangeTotal(PrintUnsatisfied(total)) == if total < UINT64_LIMIT then Some(total) else None
  {
    var spec := "*/" + Decimal(total);
    PrintedSpec(spec);
    assert spec[2..] == Decimal(total);
    FormsAreExclusive(PrintUnsatisfied(total));
    ParsePrintedUint(total);
  }

  // ----- validating the answer to a resumed request

  /** Why a resumed response is unsafe, in the order the checks are made. */
  datatype RangeCheck =
    | Valid(range: Range)
    | MissingHeader
    | UnsatisfiedForm
    | Malformed
    | WrongStart(range: Range)
    | EndBeforeStart(range: Range)
    | ZeroTotal(range: Range)
    | EndBeyondTotal(range: Range)
    | TotalDiffersFromRemote(range: Range)
    | BadContentLength(range: Range)
    | LengthDiffersFromSpan(range: Range)

  /** The number of bytes in a range, computed in 64-bit arithmetic as the program does. */
  function Span(r: Range): uint64 {
    (r.end - r.start + 1) % UINT64_LIMIT
  }

  function CheckResumedRange(response: Response, remoteLength: Option<uint64>, start: nat): RangeCheck {
    var header := Header(response.headers, "content-range");
    if header.None? then MissingHeader
    else if IsUnsatisfied(header.value) then UnsatisfiedForm
    else
      var parsed := ParseContentRange(header.value);
      if parsed.None? then Malformed
      else CheckRange(parsed.value, Header(response.headers, "content-length"), remoteLength, start)
  }

  function CheckRange(r: Range, lengthHeader: Option<string>, remoteLength: Option<uint64>, start: nat): RangeCheck {
    if r.start != start then WrongStart(r)
    else if r.end < r.start then EndBeforeStart(r)
    else if r.total == 0 then ZeroTotal(r)
    else if r.end >= r.total then EndBeyondTotal(r)
    else if remoteLength.Some? && remoteLength.value != r.total then TotalDiffersFromRemote(r)
    else if lengthHeader.None? then Valid(r)
    else
      var length := ParseUint(lengthHeader.value);
      if length.None? then BadContentLength(r)
      else if length.value != Span(r) then LengthDiffersFromSpan(r)
      else Valid(r)
  }

  /** What a safe answer to "bytes=start-" looks like, in unbounded arithmetic. */
  ghost predicate SafeAnswer(response: Response, remoteLength: Option<uint64>, start: nat, r: Range) {
    && Header(response.headers, "content-range").Some?
    && ParseContentRange(response.headers["content-range"]) == Some(r)
    && SafeRange(r, Header(response.headers, "content-length"), remoteLength, start)
  }

  ghost predicate SafeRange(r: Range, lengthHeader: Option<string>, remoteLength: Option<uint64>, start: nat) {
    && r.start == start <= r.end < r.total
    && (remoteLength.Some? ==> remoteLength.value == r.total)
    && (lengthHeader.Some? ==>
          ParseUint(lengthHeader.value).Some? && start + ParseUint(lengthHeader.value).value == r.end + 1)
  }

  /** The span never wraps once the end is known to lie below the total. */
  lemma SpanIsExact(r: Range)
    requires r.start <= r.end < r.total
    ensures Span(r) == r.end - r.start + 1
  {
  }

  lemma CheckRangeIffSafe(r: Range, lengthHeader: Option<string>, remoteLength: Option<uint64>, start: nat)
    ensures var check := CheckRange(r, lengthHeader, remoteLength, start);
            && (check == Valid(r) <==> SafeRange(r, lengthHeader, remoteLength, start))
            && (check.Valid? ==> check == Valid(r))
  {
    hide ParseUint, Span;
    if r.start <= r.end < r.total {
      SpanIsExact(r);
    }
  }

  /**
   A resumed response passes exactly when it is a safe answer, with the span read as an unbounded number:
   it is computed only after the end is known to lie below the total.
   */
  lemma ValidIffSafeAnswer(response: Response, remoteLength: Option<uint64>, start: nat, r: Range)
    ensures CheckResumedRange(response, remoteLength, start) == Valid(r) <==>
            SafeAnswer(response, remoteLength, start, r)
  {
    hide ParseContentRange, IsUnsatisfied, ParseUint, CheckRange, SafeRange;
    var header := Header(response.headers, "content-range");
    if header.Some? {
      FormsAreExclusive(header.value);
      var parsed := ParseContentRange(header.value);
      if parsed.Some? {
        CheckRangeIffSafe(parsed.value, Header(response.headers, "content-length"), remoteLength, start);
      }
    }
  }

  // ----- the size the finished file must have

  /** expected_total_size, with the 64-bit wrap-around of the last fallback written out. */
  function ExpectedTotal(response: Response, remoteLength: Option<uint64>, start: nat): Option<uint64> {
    var range := Header(response.headers, "content-range");
    var total := if range.Some? then ParseContentRangeTotal(range.value) else None;
    if total.Some? then total
    else
      var length := Header(response.headers, "content-length");
      var parsed := if length.Some? then ParseUint(length.value) else None;
      if parsed.None? then remoteLength
      else if response.status == 206 then Some((start + parsed.value) % UINT64_LIMIT)
      else parsed
  }

  /** A resumed response that passed validation is measured by the total of its range. */
  lemma ExpectedTotalOfValidRange(response: Response, remoteLength: Option<uint64>, start: nat, r: Range)
    requires CheckResumedRange(response, remoteLength, start) == Valid(r)
    ensures ExpectedTotal(response, remoteLength, start) == Some(r.total)
  {
    ValidIffSafeAnswer(response, remoteLength, start, r);
  }


  // ----- other layouts

  lemma SeparatorIs(text: string, i: nat)
    requires i < |text| && (text[i] == ' ' || text[i] == '\t')
    requires forall j | 0 <= j < i :: text[j] != ' ' && text[j] != '\t'
    ensures SeparatorOf(text) == i
  {
  }

  /** The unit is read in any case, and anything but "bytes" is refused, by both parsers. */
  lemma UnitDecides(unit: string, blank: char, spec: string)
    requires unit != "" && (forall j | 0 <= j < |unit| :: !IsBlank(unit[j]))
    requires blank == ' ' || blank == '\t'
    requires spec != "" && IsTrimmed(spec)
    ensures RangeSpec(unit + [blank] + spec) == if ToLower(unit) == "bytes" then Some(spec) else None
    ensures ToLower(unit) != "bytes" ==>
              ParseContentRange(unit + [blank] + spec) == None && ParseContentRangeTotal(unit + [blank] + spec) == None
  {
    hide ToLower;
    var text := unit + [blank] + spec;
    TrimmedIsFixed(text);
    SeparatorIs(text, |unit|);
    assert text[..|unit|] == unit && text[|unit| + 1..] == spec;
    TrimmedIsFixed(unit);
    TrimmedIsFixed(spec);
  }

  /** Without a blank after the unit there is no range. */
  lemma NoBlankNoRange(value: string)
    requires forall j | 0 <= j < |value| :: !IsBlank(value[j])
    ensures ParseContentRange(value) == None && ParseContentRangeTotal(value) == None
  {
    TrimmedIsFixed(value);
  }

  /** Where the expected size comes from when there is no total: the length, plus the start on a 206, or else HEAD. */
  lemma SizeWithoutTotal(response: Response, remoteLength: Option<uint64>, start: nat, length: nat)
    requires "content-range" in response.headers ==> ParseContentRangeTotal(response.headers["content-range"]) == None
    requires length < UINT64_LIMIT
    ensures "content-length" !in response.headers ==> ExpectedTotal(response, remoteLength, start) == remoteLength
    ensures Header(response.headers, "content-length") == Some(Decimal(length)) && response.status != 206 ==>
              ExpectedTotal(response, remoteLength, start) == Some(length)
    ensures Header(response.headers, "content-length") == Some(Decimal(length)) && response.status == 206
            && start + length < UINT64_LIMIT ==>
              ExpectedTotal(response, remoteLength, start) == Some(start + length)
  {
    hide ParseContentRangeTotal, ParseUint, Decimal;
    ParsePrintedUint(length);
  }


  /** Of several things that are wrong with an answer, the first in this order is the reason given. */
  lemma ReasonsInOrder(r: Range, lengthHeader: Option<string>, remoteLength: Option<uint64>, start: nat)
    ensures var check := CheckRange(r, lengthHeader, remoteLength, start);
            var inOrder := r.start == start && r.start <= r.end;
            && (check == WrongStart(r) <==> r.start != start)
            && (check == EndBeforeStart(r) <==> r.start == start && r.end < r.start)
            && (check == ZeroTotal(r) <==> inOrder && r.total == 0)
            && (check == EndBeyondTotal(r) <==> inOrder && 0 < r.total <= r.end)
            && (check == TotalDiffersFromRemote(r) <==>
                  inOrder && r.end < r.total && remoteLength.Some? && remoteLength.value != r.total)
            && (check == BadContentLength(r) <==>
                  && inOrder && r.end < r.total && (remoteLength.Some? ==> remoteLength.value == r.total)
                  && lengthHeader.Some? && ParseUint(lengthHeader.value).None?)
            && (check == LengthDiffersFromSpan(r) <==>
                  && inOrder && r.end < r.total && (remoteLength.Some? ==> remoteLength.value == r.total)
                  && lengthHeader.Some? && ParseUint(lengthHeader.value).Some?
                  && start + ParseUint(lengthHeader.value).value != r.end + 1)
  {
    hide ParseUint, Span;
    if r.start <= r.end < r.total {
      SpanIsExact(r);
    }
  }

  /** Before the numbers are looked at, the header must be there, not be of the unsatisfied form, and be readable. */
  lemma ReasonsBefore(response: Response, remoteLength: Option<uint64>, start: nat)
    ensures var check, h := CheckResumedRange(response, remoteLength, start), response.headers;
            && (check == MissingHeader <==> "content-range" !in h)
            && (check == UnsatisfiedForm <==> "content-range" in h && IsUnsatisfied(h["content-range"]))
            && (check == Malformed <==>
                  && "content-range" in h && !IsUnsatisfied(h["content-range"])
                  && ParseContentRange(h["content-range"]) == None)
  {
    hide ParseContentRange, IsUnsatisfied, ParseUint;
  }
}
