/**
 Formatted input as std::istream performs it in the C locale: extraction of words and of std::quoted
 strings, with the end-of-file and failure bits.
 */
module TextStream {
  import opened Wrappers

  /** What is left to read, and the two state bits. */
  datatype Input = Input(rest: string, eof: bool, fail: bool) {
    predicate Good() {
      !eof && !fail
    }
  }

  predicate IsSpace(c: char) {
    c == ' ' || c == '\t' || c == '\n' || c == '\r' || c == '\U{0B}' || c == '\U{0C}'
  }

  predicate NoSpace(s: string) {
    forall i | 0 <= i < |s| :: !IsSpace(s[i])
  }

  function SkipSpace(s: string): (r: string)
    ensures |r| <= |s|
    ensures r != "" ==> !IsSpace(r[0])
  {
    if s != "" && IsSpace(s[0]) then SkipSpace(s[1..]) else s
  }

  function WordLength(s: string): (n: nat)
    ensures n <= |s|
    ensures NoSpace(s[..n])
    ensures n < |s| ==> IsSpace(s[n])
    ensures s != "" && !IsSpace(s[0]) ==> n > 0
  {
    if s == "" || IsSpace(s[0]) then 0
    else
      var n := WordLength(s[1..]);
      assert s[..n + 1] == [s[0]] + s[1..][..n];
      n + 1
  }

  const FAILED_INPUT := Input("", true, true)

  /** input >> word */
  function ExtractWord(i: Input): (r: (Input, string))
    ensures !r.0.fail ==> |r.0.rest| < |i.rest| && r.1 != "" && NoSpace(r.1) && i.Good()
    ensures r.0.fail ==> r.0.eof || i.fail
  {
    if !i.Good() then (i.(fail := true), "")
    else
      var rest := SkipSpace(i.rest);
      if rest == "" then (FAILED_INPUT, "")
      else
        var n := WordLength(rest);
        (Input(rest[n..], n == |rest|, false), rest[..n])
  }

  /** What follows an opening quote: the value and the text after the closing quote, or nothing if it never closes. */
  function ReadQuoted(s: string): (r: Option<(string, string)>)
    ensures r.Some? ==> |r.value.1| < |s|
  {
    if s == "" then None
    else if s[0] == '"' then Some(("", s[1..]))
    else if s[0] == '\\' then
      if |s| == 1 then None
      else
        var tail := ReadQuoted(s[2..]);
        if tail.None? then None else Some(([s[1]] + tail.value.0, tail.value.1))
    else
      var tail := ReadQuoted(s[1..]);
      if tail.None? then None else Some(([s[0]] + tail.value.0, tail.value.1))
  }

  /** input >> std::quoted(value): an unquoted word is accepted as it stands. */
  function ExtractQuoted(i: Input): (r: (Input, string))
    ensures !r.0.fail ==> |r.0.rest| < |i.rest| && i.Good()
  {
    if !i.Good() then (i.(fail := true), "")
    else
      var rest := SkipSpace(i.rest);
      if rest == "" then (FAILED_INPUT, "")
      else if rest[0] != '"' then ExtractWord(Input(rest, false, false))
      else
        match ReadQuoted(rest[1..])
        case None => (FAILED_INPUT, "")
        case Some((value, tail)) => (Input(tail, false, false), value)
  }

  function Escape(s: string): string {
    if s == "" then ""
    else if s[0] == '"' || s[0] == '\\' then ['\\', s[0]] + Escape(s[1..])
    else [s[0]] + Escape(s[1..])
  }

  /** output << std::quoted(value) */
  function Quote(s: string): string {
    "\"" + Escape(s) + "\""
  }

  /** A quoted string is read back whatever it contains, quotes, backslashes and newlines included. */
  lemma {:induction false} ReadBackQuoted(s: string, tail: string)
    ensures ReadQuoted(Escape(s) + "\"" + tail) == Some((s, tail))
  {
    var text := Escape(s) + "\"" + tail;
    if s == "" {
      assert text[1..] == tail;
    } else {
      ReadBackQuoted(s[1..], tail);
      var rest := Escape(s[1..]) + "\"" + tail;
      if s[0] == '"' || s[0] == '\\' {
        assert text == ['\\', s[0]] + rest && text[2..] == rest;
      } else {
        assert text == [s[0]] + rest && text[1..] == rest;
      }
      assert s == [s[0]] + s[1..];
    }
  }

  /** A quoted string that is cut anywhere before its closing quote is not accepted. */
  lemma {:induction false} TornQuoteFails(s: string, n: nat)
    requires n <= |Escape(s)|
    ensures ReadQuoted(Escape(s)[..n]) == None
  {
    var text := Escape(s)[..n];
    if s != "" && n > 0 {
      var k := if s[0] == '"' || s[0] == '\\' then 2 else 1;
      if n >= k {
        assert text[k..] == Escape(s[1..])[..n - k];
        TornQuoteFails(s[1..], n - k);
      }
    }
  }

  lemma {:induction false} WordLengthOf(word: string, tail: string)
    requires NoSpace(word)
    requires tail != "" ==> IsSpace(tail[0])
    ensures WordLength(word + tail) == |word|
  {
    var text := word + tail;
    if word == "" {
      assert text == tail;
    } else {
      assert text[1..] == word[1..] + tail;
      WordLengthOf(word[1..], tail);
    }
  }

  /** A word is read up to the next white space or the end of the text. */
  lemma WordExtracted(word: string, tail: string)
    requires word != "" && NoSpace(word)
    requires tail != "" ==> IsSpace(tail[0])
    ensures ExtractWord(Input(word + tail, false, false)) == (Input(tail, tail == "", false), word)
  {
    var text := word + tail;
    assert SkipSpace(text) == text;
    WordLengthOf(word, tail);
    assert text[..|word|] == word && text[|word|..] == tail;
  }

  const SEPARATORS: set<char> := {' ', '\t', '\n', '\r', '\U{0B}', '\U{0C}'}

  /** A word ends before one of the six white-space characters and runs on over any other. */
  lemma WordsAreSeparated(word: string, c: char, rest: string)
    requires word != "" && forall i | 0 <= i < |word| :: word[i] !in SEPARATORS
    ensures c in SEPARATORS ==> ExtractWord(Input(word + ([c] + rest), false, false)).1 == word
    ensures c !in SEPARATORS ==> ExtractWord(Input(word + [c], false, false)).1 == word + [c]
  {
    if c in SEPARATORS {
      WordExtracted(word, [c] + rest);
    } else {
      WordExtracted(word + [c], "");
      assert word + [c] + "" == word + [c];
    }
  }

  lemma LeadingSpaceIsSkipped(c: char, text: string)
    requires IsSpace(c)
    ensures ExtractWord(Input([c] + text, false, false)) == ExtractWord(Input(text, false, false))
    ensures ExtractQuoted(Input([c] + text, false, false)) == ExtractQuoted(Input(text, false, false))
  {
    assert ([c] + text)[1..] == text;
  }

  lemma QuotedExtracted(value: string, tail: string)
    ensures ExtractQuoted(Input(Quote(value) + tail, false, false)) == (Input(tail, false, false), value)
  {
    var text := Quote(value) + tail;
    assert SkipSpace(text) == text;
    assert text[1..] == Escape(value) + "\"" + tail;
    ReadBackQuoted(value, tail);
  }

  lemma TornQuotedFails(value: string, n: nat)
    requires n < |Quote(value)|
    ensures ExtractQuoted(Input(Quote(value)[..n], false, false)).0.fail
  {
    var text := Quote(value)[..n];
    if n > 0 {
      assert SkipSpace(text) == text;
      assert text[1..] == Escape(value)[..n - 1];
      TornQuoteFails(value, n - 1);
    }
  }

  /** An open stream; extraction updates its state in place. */
  class InputStream {
    var state: Input

    constructor (text: string)
      ensures state == Input(text, false, false)
    {
      state := Input(text, false, false);
    }

    method ReadWord() returns (ok: bool, word: string)
      modifies this
      ensures (state, word) == ExtractWord(old(state))
      ensures ok == !state.fail
    {
      var r := ExtractWord(state);
      state, word := r.0, r.1;
      ok := !state.fail;
    }

    method ReadQuotedString() returns (ok: bool, value: string)
      modifies this
      ensures (state, value) == ExtractQuoted(old(state))
      ensures ok == !state.fail
    {
      var r := ExtractQuoted(state);
      state, value := r.0, r.1;
      ok := !state.fail;
    }
  }
}
