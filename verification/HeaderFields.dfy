/** Collecting the header lines of a transfer (header_callback in http_client.cpp). */
module HeaderFields {
  import opened Wrappers
  import opened Text
  import opened Http

  datatype Collected = Collected(status: int, headers: Headers)

  /** static_cast<int> on an unsigned 64-bit value. */
  function ToInt32(n: uint64): int {
    var low := n % 0x1_0000_0000;
    if low < 0x8000_0000 then low else low - 0x1_0000_0000
  }

  predicate IsStatusLine(raw: string) {
    "HTTP/" <= Trim(raw)
  }

  /** The word after the first space of a status line, as a status code. */
  function StatusIn(line: string): Option<int> {
    var first := IndexOf(line, ' ');
    if first == |line| then None
    else
      var rest := line[first + 1..];
      var code := ParseUint(rest[..IndexOf(rest, ' ')]);
      if code.None? then None else Some(ToInt32(code.value))
  }

  /** One line: a status line starts a new response, a field replaces one of the same name, anything else is ignored. */
  function WithLine(c: Collected, raw: string): Collected {
    var line := Trim(raw);
    if line == "" then c
    else if "HTTP/" <= line then
      Collected(if StatusIn(line).Some? then StatusIn(line).value else c.status, map[])
    else
      var colon := IndexOf(line, ':');
      if colon == |line| then c
      else c.(headers := c.headers[ToLower(Trim(line[..colon])) := Trim(line[colon + 1..])])
  }

  function WithLines(c: Collected, lines: seq<string>): Collected
    decreases |lines|
  {
    if lines == [] then c else WithLines(WithLine(c, lines[0]), lines[1..])
  }

  class HeaderState {
    var statusCode: int
    var headers: Headers

    function Value(): Collected
      reads this
    {
      Collected(statusCode, headers)
    }

    constructor ()
      ensures Value() == Collected(0, map[])
    {
      statusCode, headers := 0, map[];
    }

    method HeaderCallback(data: string)
      modifies this
      ensures Value() == WithLine(old(Value()), data)
    {
      var line := Trim(data);
      if line == "" {
        return;
      }
      if "HTTP/" <= line {
        headers := map[];
        var firstSpace := IndexOf(line, ' ');
        if firstSpace < |line| {
          var rest := line[firstSpace + 1..];
          var parsed := ParseUint(rest[..IndexOf(rest, ' ')]);
          if parsed.Some? {
            statusCode := ToInt32(parsed.value);
          }
        }
        return;
      }
      var colon := IndexOf(line, ':');
      if colon == |line| {
        return;
      }
      headers := headers[ToLower(Trim(line[..colon])) := Trim(line[colon + 1..])];
    }
  }

  lemma {:induction false} WithLinesAppend(c: Collected, a: seq<string>, b: seq<string>)
    ensures WithLines(c, a + b) == WithLines(WithLines(c, a), b)
    decreases |a|
  {
    hide WithLine;
    if a == [] {
      assert a + b == b;
    } else {
      WithLinesAppend(WithLine(c, a[0]), a[1..], b);
      assert (a + b)[1..] == a[1..] + b;
    }
  }

  /** Two collections with the same fields collect the same fields from the same lines. */
  lemma {:induction false} FieldsDependOnFields(c: Collected, d: Collected, lines: seq<string>)
    requires c.headers == d.headers
    ensures WithLines(c, lines).headers == WithLines(d, lines).headers
    decreases |lines|
  {
    if lines != [] {
      FieldsDependOnFields(WithLine(c, lines[0]), WithLine(d, lines[0]), lines[1..]);
    }
  }

  /** Only the last response counts: redirects and interim answers leave no field behind. */
  lemma LastResponseWins(c: Collected, before: seq<string>, statusLine: string, fields: seq<string>)
    requires IsStatusLine(statusLine)
    ensures WithLines(c, before + [statusLine] + fields).headers == WithLines(Collected(0, map[]), fields).headers
  {
    WithLinesAppend(c, before + [statusLine], fields);
    WithLinesAppend(c, before, [statusLine]);
    var d := WithLines(c, before);
    assert [statusLine][1..] == [];
    assert WithLines(d, [statusLine]) == WithLine(d, statusLine);
    FieldsDependOnFields(WithLine(d, statusLine), Collected(0, map[]), fields);
  }

  ghost predicate Normalized(h: Headers) {
    forall name | name in h :: ToLower(name) == name && IsTrimmed(name) && IsTrimmed(h[name])
  }

  lemma {:induction false} ToLowerIsIdempotent(s: string)
    ensures ToLower(ToLower(s)) == ToLower(s)
  {
    var t := ToLower(s);
    assert |ToLower(t)| == |t|;
    forall i | 0 <= i < |t|
      ensures ToLower(t)[i] == t[i]
    {
      assert Lower(Lower(s[i])) == Lower(s[i]);
    }
  }

  lemma LowerKeepsTrimmed(s: string)
    requires IsTrimmed(s)
    ensures IsTrimmed(ToLower(s))
  {
  }

  lemma LineKeepsNormalized(c: Collected, line: string)
    requires Normalized(c.headers)
    ensures Normalized(WithLine(c, line).headers)
  {
    hide ToLower, IndexOf, StatusIn;
    var t := Trim(line);
    var colon := IndexOf(t, ':');
    if t != "" && !("HTTP/" <= t) && colon < |t| {
      ToLowerIsIdempotent(Trim(t[..colon]));
      LowerKeepsTrimmed(Trim(t[..colon]));
    }
  }

  /** Whatever lines arrive, field names end up in lower case and names and values trimmed. */
  lemma {:induction false} LinesKeepNormalized(c: Collected, lines: seq<string>)
    requires Normalized(c.headers)
    ensures Normalized(WithLines(c, lines).headers)
    decreases |lines|
  {
    hide WithLine, Normalized;
    if lines != [] {
      LineKeepsNormalized(c, lines[0]);
      LinesKeepNormalized(WithLine(c, lines[0]), lines[1..]);
    }
  }


  // ----- printed lines are read back

  /** A field line as HTTP prints it: name, colon, blank, value. */
  function FieldLine(name: string, value: string): string {
    name + (": " + value)
  }

  /** A field is collected under its name in lower case; the status stays. */
  lemma FieldLineIsCollected(c: Collected, name: string, value: string)
    requires name != "" && IsTrimmed(name) && ':' !in name && !("HTTP/" <= name)
    requires value != "" && IsTrimmed(value)
    ensures WithLine(c, FieldLine(name, value)) == Collected(c.status, c.headers[ToLower(name) := value])
  {
    hide ToLower, Trim, IndexOf, FieldLine;
    var line := FieldLine(name, value);
    FieldLineShape(name, value);
    FieldIsNoStatusLine(name, line);
  }

  lemma FieldLineShape(name: string, value: string)
    requires name != "" && IsTrimmed(name) && ':' !in name && value != "" && IsTrimmed(value)
    ensures var line := FieldLine(name, value);
            && line != "" && Trim(line) == line && name + ":" <= line
            && IndexOf(line, ':') == |name| && |name| < |line|
            && Trim(line[..|name|]) == name && Trim(line[|name| + 1..]) == value
  {
    hide Trim, IndexOf;
    var line := FieldLine(name, value);
    TrimmedIsFixed(line);
    IndexOfIs(line, ':', |name|);
    assert line[..|name|] == name && line[|name| + 1..] == " " + value + "";
    TrimmedIsFixed(name);
    TrimOf(" ", value, "");
  }

  lemma FieldIsNoStatusLine(name: string, line: string)
    requires ':' !in name && !("HTTP/" <= name) && name + ":" <= line
    ensures !("HTTP/" <= line)
  {
    assert line[|name|] == ':';
    if |name| >= 5 {
      assert line[..5] == name[..5];
    }
  }

  function StatusLine(version: string, status: nat, reason: string): string {
    "HTTP/" + (version + (" " + (Decimal(status) + reason)))
  }

  /** A status line starts an empty response with its status, with or without a reason phrase. */
  lemma StatusLineIsRead(c: Collected, version: string, status: nat, reason: string)
    requires ' ' !in version && status < 0x8000_0000
    requires reason != "" ==> reason[0] == ' ' && !IsBlank(reason[|reason| - 1])
    ensures WithLine(c, StatusLine(version, status, reason)) == Collected(status, map[])
  {
    hide StatusIn;
    var line := StatusLine(version, status, reason);
    StatusIsFound(version, status, reason);
    assert Decimal(status)[|Decimal(status)| - 1] == line[|line| - |reason| - 1];
    TrimmedIsFixed(line);
  }

  lemma StatusIsFound(version: string, status: nat, reason: string)
    requires ' ' !in version && status < 0x8000_0000
    requires reason != "" ==> reason[0] == ' '
    ensures StatusIn(StatusLine(version, status, reason)) == Some(status)
  {
    hide Decimal, ParseUint;
    var digits, line := Decimal(status), StatusLine(version, status, reason);
    var rest := digits + reason;
    IndexOfIs(line, ' ', 5 + |version|);
    assert line[5 + |version| + 1..] == rest;
    WordEnds(digits, reason);
    assert rest[..|digits|] == digits;
    ParsePrintedUint(status);
  }

  lemma WordEnds(digits: string, reason: string)
    requires AllDigits(digits) && (reason != "" ==> reason[0] == ' ')
    ensures IndexOf(digits + reason, ' ') == |digits|
  {
    var rest := digits + reason;
    if reason == "" {
      assert rest == digits;
    } else {
      IndexOfIs(rest, ' ', |digits|);
    }
  }


  /** A line of blanks, or one without a colon that is no status line, changes nothing. */
  lemma OtherLinesAreIgnored(c: Collected, line: string)
    requires AllBlank(line) || (':' !in line && !IsStatusLine(line))
    ensures WithLine(c, line) == c
  {
    hide Trim, IndexOf, AllBlank, ToLower;
    if AllBlank(line) {
      BlankLineIsEmpty(line);
    } else {
      TrimmingAddsNothing(line, ':');
    }
  }

  lemma BlankLineIsEmpty(line: string)
    requires AllBlank(line)
    ensures Trim(line) == ""
  {
    TrimLeftOf(line, "");
    assert line + "" == line;
  }

  lemma TrimmingAddsNothing(line: string, c: char)
    requires c !in line
    ensures c !in Trim(line)
  {
    hide Trim;
    var left, right := TrimDropsOnlyBlanks(line);
    var t := Trim(line);
    assert line == left + (t + right);
    forall i | 0 <= i < |t|
      ensures t[i] != c
    {
      assert t[i] == line[|left| + i];
    }
  }

  /** A status line whose second word is no number starts an empty response under the status there was. */
  lemma UnreadableStatusIsKept(c: Collected, version: string, word: string, i: nat)
    requires ' ' !in version && ' ' !in word && i < |word| && !IsDigit(word[i]) && !IsBlank(word[i])
    requires !IsBlank(word[|word| - 1])
    ensures WithLine(c, "HTTP/" + (version + (" " + word))) == Collected(c.status, map[])
  {
    hide ParseUint, Trim, IndexOf;
    var line := "HTTP/" + (version + (" " + word));
    TrimmedIsFixed(line);
    IndexOfIs(line, ' ', 5 + |version|);
    assert line[5 + |version| + 1..] == word;
    assert IndexOf(word, ' ') == |word| && word[..|word|] == word;
    ParseUintRejects(word, i);
  }
}
