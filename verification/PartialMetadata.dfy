/**
 The ".part.meta" record that says which remote file a partial download belongs to (download_resume.cpp).
 */
module PartialMetadata {
  import opened Wrappers
  import opened Text
  import opened TextStream

  /** What a HEAD request reported. */
  datatype Remote = Remote(
    length: Option<uint64>,
    acceptsRanges: Option<bool>,
    etag: Option<string>,
    lastModified: Option<string>)

  /** What a ".part.meta" file says. */
  datatype Stored = Stored(length: Option<uint64>, etag: Option<string>, lastModified: Option<string>)

  const NOTHING_STORED := Stored(None, None, None)

  function TrimToOptional(s: string): Option<string> {
    if Trim(s) == "" then None else Some(Trim(s))
  }

  function OrEmpty(s: Option<string>): string {
    if s.Some? then s.value else ""
  }

  predicate IsNonBlank(s: Option<string>) {
    s.Some? && Trim(s.value) != ""
  }

  predicate HasIdentity(r: Remote) {
    IsNonBlank(r.etag) || IsNonBlank(r.lastModified)
  }

  function ChooseIfRange(r: Remote): Option<string> {
    if r.etag.Some? && r.etag.value != "" then r.etag
    else if r.lastModified.Some? && r.lastModified.value != "" then r.lastModified
    else None
  }

  predicate Matches(s: Stored, r: Remote) {
    && (r.length.Some? ==> s.length == r.length)
    && (r.etag.Some? ==> s.etag == r.etag)
    && (r.lastModified.Some? ==> s.lastModified == r.lastModified)
    && HasIdentity(r)
  }

  // ----- the writer

  function LengthWord(length: Option<uint64>): string {
    if length.Some? then Decimal(length.value) else "-"
  }

  function LengthLine(length: Option<uint64>): string {
    "content_length" + (" " + LengthWord(length))
  }

  /** A line break and a quoted entry: the text is laid out so that every entry starts with its separator. */
  function Entry(key: string, value: string): string {
    "\n" + (key + (" " + Quote(value)))
  }

  function MetadataText(r: Remote): string {
    LengthLine(r.length) + (Entry("etag", OrEmpty(r.etag)) + (Entry("last_modified", OrEmpty(r.lastModified)) + "\n"))
  }

  // ----- the reader

  function LoadFrom(i: Input, found: Stored, sawLength: bool): Option<Stored>
    decreases |i.rest|
  {
    var (afterKey, key) := ExtractWord(i);
    if afterKey.fail then
      if afterKey.eof && sawLength then Some(found) else None
    else if key == "content_length" then
      var (afterValue, value) := ExtractWord(afterKey);
      if afterValue.fail then None
      else if value == "-" then LoadFrom(afterValue, found, true)
      else
        var length := ParseUint(value);
        if length.None? then None else LoadFrom(afterValue, found.(length := length), true)
    else
      var (afterValue, value) := ExtractQuoted(afterKey);
      if afterValue.fail then None
      else if key == "etag" then LoadFrom(afterValue, found.(etag := TrimToOptional(value)), sawLength)
      else if key == "last_modified" then LoadFrom(afterValue, found.(lastModified := TrimToOptional(value)), sawLength)
      else None
  }

  function Load(text: string): Option<Stored> {
    LoadFrom(Input(text, false, false), NOTHING_STORED, false)
  }

  /** load_partial_metadata on an existing file: the stream loop, one entry per turn. */
  method LoadMetadata(text: string) returns (result: Option<Stored>)
    ensures result == Load(text)
  {
    var input := new InputStream(text);
    var found, sawLength := NOTHING_STORED, false;
    var more, key := input.ReadWord();
    ghost var before := Input(text, false, false);
    while more
      invariant (input.state, key) == ExtractWord(before) && more == !input.state.fail
      invariant LoadFrom(before, found, sawLength) == Load(text)
      decreases |before.rest|
    {
      if key == "content_length" {
        sawLength := true;
        var ok, value := input.ReadWord();
        if !ok {
          return None;
        }
        if value != "-" {
          var length := ParseUint(value);
          if length.None? {
            return None;
          }
          found := found.(length := length);
        }
      } else {
        var ok, value := input.ReadQuotedString();
        if !ok {
          return None;
        }
        if key == "etag" {
          found := found.(etag := TrimToOptional(value));
        } else if key == "last_modified" {
          found := found.(lastModified := TrimToOptional(value));
        } else {
          return None;
        }
      }
      before := input.state;
      more, key := input.ReadWord();
    }
    if !input.state.eof || !sawLength {
      return None;
    }
    return Some(found);
  }

  // ----- what the loaded validators look like

  predicate IsCleanValidator(s: Option<string>) {
    s.Some? ==> s.value != "" && IsTrimmed(s.value)
  }

  lemma {:induction false} LoadedValidatorsAreClean(i: Input, found: Stored, sawLength: bool)
    requires IsCleanValidator(found.etag) && IsCleanValidator(found.lastModified)
    ensures var r := LoadFrom(i, found, sawLength);
            r.Some? ==> IsCleanValidator(r.value.etag) && IsCleanValidator(r.value.lastModified)
    decreases |i.rest|
  {
    hide ExtractWord, ExtractQuoted, ParseUint, Trim;
    var (afterKey, key) := ExtractWord(i);
    if afterKey.fail {
    } else if key == "content_length" {
      var (afterValue, value) := ExtractWord(afterKey);
      if !afterValue.fail {
        LoadedValidatorsAreClean(afterValue, found, true);
        LoadedValidatorsAreClean(afterValue, found.(length := ParseUint(value)), true);
      }
    } else {
      var (afterValue, value) := ExtractQuoted(afterKey);
      if !afterValue.fail {
        LoadedValidatorsAreClean(afterValue, found.(etag := TrimToOptional(value)), sawLength);
        LoadedValidatorsAreClean(afterValue, found.(lastModified := TrimToOptional(value)), sawLength);
      }
    }
  }

  /**
   Whatever the file contained, a remote that matches it has a usable If-Range value: the blank check that
   admits a resume (trimmed) and the one that picks the value (untrimmed) cannot disagree.
   */
  lemma MatchedRemoteHasIfRange(text: string, r: Remote)
    requires Load(text).Some? && Matches(Load(text).value, r)
    ensures ChooseIfRange(r).Some? && IsNonBlank(ChooseIfRange(r))
    ensures ChooseIfRange(r) == r.etag || ChooseIfRange(r) == r.lastModified
  {
    LoadedValidatorsAreClean(Input(text, false, false), NOTHING_STORED, false);
    var stored := Load(text).value;
    if r.etag.Some? {
      TrimmedIsFixed(r.etag.value);
    } else {
      TrimmedIsFixed(r.lastModified.value);
    }
  }

  // ----- round trip

  lemma LengthWordIsWord(length: Option<uint64>)
    ensures LengthWord(length) != "" && NoSpace(LengthWord(length))
  {
  }

  lemma LengthKeyExtracted(tail: string)
    requires tail != "" ==> IsSpace(tail[0])
    ensures ExtractWord(Input("content_length" + tail, false, false)) ==
            (Input(tail, tail == "", false), "content_length")
  {
    WordExtracted("content_length", tail);
  }

  lemma SpacedWordExtracted(word: string, tail: string)
    requires word != "" && NoSpace(word)
    requires tail != "" ==> IsSpace(tail[0])
    ensures ExtractWord(Input(" " + (word + tail), false, false)) == (Input(tail, tail == "", false), word)
  {
    LeadingSpaceIsSkipped(' ', word + tail);
    WordExtracted(word, tail);
  }

  lemma LoadLengthLine(length: Option<uint64>, tail: string)
    requires tail != "" ==> IsSpace(tail[0])
    ensures Load(LengthLine(length) + tail) ==
            LoadFrom(Input(tail, tail == "", false), Stored(length, None, None), true)
  {
    var word := LengthWord(length);
    var afterKey := " " + (word + tail);
    LengthWordIsWord(length);
    assert LengthLine(length) + tail == "content_length" + afterKey;
    LengthKeyExtracted(afterKey);
    SpacedWordExtracted(word, tail);
    LengthWordParses(length);
  }

  lemma LengthWordParses(length: Option<uint64>)
    ensures length.None? <==> LengthWord(length) == "-"
    ensures length.Some? ==> ParseUint(LengthWord(length)) == length
  {
    if length.Some? {
      ParsePrintedUint(length.value);
      assert IsDigit(Decimal(length.value)[0]);
    }
  }

  function WithEntry(found: Stored, key: string, value: string): Stored
    requires key == "etag" || key == "last_modified"
  {
    if key == "etag" then found.(etag := TrimToOptional(value)) else found.(lastModified := TrimToOptional(value))
  }

  lemma KeyExtracted(key: string, tail: string)
    requires key == "etag" || key == "last_modified"
    requires tail != "" ==> IsSpace(tail[0])
    ensures ExtractWord(Input("\n" + (key + tail), false, false)) == (Input(tail, tail == "", false), key)
  {
    hide ExtractWord;
    LeadingSpaceIsSkipped('\n', key + tail);
    WordExtracted(key, tail);
  }

  lemma LoadEntry(key: string, value: string, tail: string, found: Stored)
    requires key == "etag" || key == "last_modified"
    ensures LoadFrom(Input(Entry(key, value) + tail, false, false), found, true) ==
            LoadFrom(Input(tail, false, false), WithEntry(found, key, value), true)
  {
    var afterKey := " " + Quote(value) + tail;
    assert Entry(key, value) + tail == "\n" + (key + afterKey);
    KeyExtracted(key, afterKey);
    assert afterKey == [' '] + (Quote(value) + tail);
    LeadingSpaceIsSkipped(' ', Quote(value) + tail);
    QuotedExtracted(value, tail);
  }

  /** What the writer's text says when read back in full. */
  function Recorded(r: Remote): Stored {
    Stored(r.length, TrimToOptional(OrEmpty(r.etag)), TrimToOptional(OrEmpty(r.lastModified)))
  }

  lemma LoadEntries(r: Remote, tail: string)
    requires tail == "" || tail == "\n"
    ensures var etag, modified := Entry("etag", OrEmpty(r.etag)), Entry("last_modified", OrEmpty(r.lastModified));
            Load(LengthLine(r.length) + (etag + (modified + tail))) == Some(Recorded(r))
  {
    var etag, modified := OrEmpty(r.etag), OrEmpty(r.lastModified);
    var lastEntry := Entry("last_modified", modified) + tail;
    LoadLengthLine(r.length, Entry("etag", etag) + lastEntry);
    var found := Stored(r.length, None, None);
    LoadEntry("etag", etag, lastEntry, found);
    LoadEntry("last_modified", modified, tail, WithEntry(found, "etag", etag));
    if tail == "\n" {
      assert SkipSpace(tail) == "";
    }
  }

  /**
   Reading back what was written gives the same length, and the same validators up to trimming;
   an absent or blank validator comes back absent.
   */
  lemma MetadataRoundTrip(r: Remote)
    ensures Load(MetadataText(r)) == Some(Recorded(r))
  {
    LoadEntries(r, "\n");
  }

  /** A record matches the file it was written for exactly when that has an identity made of clean validators. */
  lemma RecordedMatchesItself(r: Remote)
    ensures Matches(Recorded(r), r) <==>
            HasIdentity(r) && IsCleanValidator(r.etag) && IsCleanValidator(r.lastModified)
  {
    if r.etag.Some? && IsTrimmed(r.etag.value) {
      TrimmedIsFixed(r.etag.value);
    }
    if r.lastModified.Some? && IsTrimmed(r.lastModified.value) {
      TrimmedIsFixed(r.lastModified.value);
    }
  }

  // ----- torn writes

  /** A key with nothing after it, or only the beginning of a key, is not a record. */
  lemma LoneKeyFails(word: string, found: Stored, sawLength: bool)
    requires word != "" && NoSpace(word)
    ensures LoadFrom(Input(word, false, false), found, sawLength) == None
  {
    assert word == word + "";
    WordExtracted(word, "");
  }

  lemma KeyAndBlankFails(text: string, key: string)
    requires key == "content_length" && text == key + " "
    ensures Load(text) == None
  {
    LengthKeyExtracted(" ");
    assert SkipSpace(" ") == "";
  }

  /** A length line cut anywhere yields no validators, so nothing that could be matched. */
  lemma TornLengthLine(length: Option<uint64>, n: nat)
    requires n <= |LengthLine(length)|
    ensures var r := Load(LengthLine(length)[..n]);
            r.Some? ==> r.value.etag == None && r.value.lastModified == None
  {
    var key, word := "content_length", LengthWord(length);
    var text := LengthLine(length)[..n];
    LengthWordIsWord(length);
    if n == 0 {
    } else if n <= |key| {
      assert text == key[..n];
      LoneKeyFails(key[..n], NOTHING_STORED, false);
    } else if n == |key| + 1 {
      assert text == key + " ";
      KeyAndBlankFails(text, key);
    } else {
      TornLengthWord(word[..n - |key| - 1]);
      assert text == "content_length" + (" " + word[..n - |key| - 1]);
    }
  }

  lemma TornLengthWord(value: string)
    requires value != "" && NoSpace(value)
    ensures var r := Load("content_length" + (" " + value));
            r.Some? ==> r.value.etag == None && r.value.lastModified == None
  {
    LengthKeyExtracted(" " + value);
    assert value == value + "";
    SpacedWordExtracted(value, "");
    var atEnd := Input("", true, false);
    assert LoadFrom(atEnd, NOTHING_STORED, true) == Some(NOTHING_STORED);
    var length := ParseUint(value);
    assert LoadFrom(atEnd, NOTHING_STORED.(length := length), true) == Some(NOTHING_STORED.(length := length));
  }

  lemma KeyIsWord(key: string, n: nat)
    requires key == "etag" || key == "last_modified"
    requires n <= |key|
    ensures NoSpace(key[..n])
  {
  }

  lemma CutEntry(key: string, value: string, n: nat)
    requires 0 < n < |Entry(key, value)|
    ensures n <= 1 + |key| ==> Entry(key, value)[..n] == "\n" + key[..n - 1]
    ensures n > 1 + |key| ==> Entry(key, value)[..n] == "\n" + (key + ([' '] + Quote(value)[..n - |key| - 2]))
  {
    hide Quote;
  }

  lemma TornKey(key: string, n: nat, found: Stored)
    requires key == "etag" || key == "last_modified"
    requires 0 < n <= |key|
    ensures LoadFrom(Input("\n" + key[..n], false, false), found, true) == None
  {
    hide ExtractQuoted;
    LeadingSpaceIsSkipped('\n', key[..n]);
    KeyIsWord(key, n);
    LoneKeyFails(key[..n], found, true);
  }

  /** An entry cut before its closing quote is either invisible or spoils the whole record. */
  lemma TornEntry(key: string, value: string, n: nat, found: Stored)
    requires key == "etag" || key == "last_modified"
    requires n < |Entry(key, value)|
    ensures var r := LoadFrom(Input(Entry(key, value)[..n], false, false), found, true);
            r == None || r == Some(found)
  {
    hide Entry, Quote, ExtractQuoted, WordLength;
    var text := Entry(key, value)[..n];
    if n == 0 {
    } else if n == 1 {
      CutEntry(key, value, n);
      assert text == "\n" && SkipSpace(text) == "";
    } else if n <= 1 + |key| {
      CutEntry(key, value, n);
      TornKey(key, n - 1, found);
    } else {
      CutEntry(key, value, n);
      EntryLength(key, value);
      TornValue(key, value, n - |key| - 2, found);
    }
  }

  lemma EntryLength(key: string, value: string)
    ensures |Entry(key, value)| == |key| + 2 + |Quote(value)|
  {
  }

  lemma TornValue(key: string, value: string, n: nat, found: Stored)
    requires key == "etag" || key == "last_modified"
    requires n < |Quote(value)|
    ensures LoadFrom(Input("\n" + (key + ([' '] + Quote(value)[..n])), false, false), found, true) == None
  {
    var quoted := Quote(value)[..n];
    KeyExtracted(key, [' '] + quoted);
    LeadingSpaceIsSkipped(' ', quoted);
    TornQuotedFails(value, n);
  }

  /** The record left by a write cut after n characters: unreadable, or the full record without some validators. */
  lemma TornRecord(r: Remote, n: nat)
    requires n <= |MetadataText(r)|
    ensures var torn := Load(MetadataText(r)[..n]);
            torn.Some? ==>
              || (torn.value.etag == None && torn.value.lastModified == None)
              || torn.value == Recorded(r).(lastModified := None)
              || torn.value == Recorded(r)
  {
    var first, etag, modified := LengthLine(r.length), OrEmpty(r.etag), OrEmpty(r.lastModified);
    var second, third := Entry("etag", etag), Entry("last_modified", modified);
    var text := MetadataText(r)[..n];
    var found := Stored(r.length, None, None);
    if n <= |first| {
      assert text == first[..n];
      TornLengthLine(r.length, n);
    } else if n < |first| + |second| {
      var cut := second[..n - |first|];
      assert text == first + cut;
      LoadLengthLine(r.length, cut);
      TornEntry("etag", etag, n - |first|, found);
    } else if n < |first| + |second| + |third| {
      var m := n - |first| - |second|;
      assert text == first + (second + third[..m]);
      LoadLengthLine(r.length, second + third[..m]);
      LoadEntry("etag", etag, third[..m], found);
      TornEntry("last_modified", modified, m, WithEntry(found, "etag", etag));
    } else {
      var tail := "\n"[..n - |first| - |second| - |third|];
      assert text == first + (second + (third + tail));
      LoadEntries(r, tail);
    }
  }

  /**
   Torn metadata is harmless: whatever remote file a cut-off record matches is also matched by the record
   that was being written.
   */
  lemma TornMetadataIsHarmless(written: Remote, text: string, remote: Remote)
    requires text <= MetadataText(written)
    requires Load(text).Some? && Matches(Load(text).value, remote)
    ensures Matches(Recorded(written), remote)
  {
    var n := |text|;
    assert text == MetadataText(written)[..n];
    TornRecord(written, n);
  }


  // ----- what a match says

  /** There is an ETag or a Last-Modified with something in it besides blanks. */
  lemma IdentityIff(r: Remote)
    ensures HasIdentity(r) <==>
            || (r.etag.Some? && !AllBlank(r.etag.value))
            || (r.lastModified.Some? && !AllBlank(r.lastModified.value))
  {
    if r.etag.Some? {
      BlankIff(r.etag.value);
    }
    if r.lastModified.Some? {
      BlankIff(r.lastModified.value);
    }
  }

  lemma BlankIff(s: string)
    ensures Trim(s) == "" <==> AllBlank(s)
  {
    if AllBlank(s) {
      TrimLeftOf(s, "");
      assert s + "" == s;
    } else {
      var left, right := TrimDropsOnlyBlanks(s);
      assert Trim(s) == "" ==> s == left + right;
    }
  }

  /** A reported value is the recorded one up to the blanks around it. */
  predicate SameValidator(reported: Option<string>, recorded: Option<string>) {
    reported.Some? ==> recorded.Some? && reported.value != "" && Trim(recorded.value) == reported.value
  }

  /** Every field that the remote file reports is the one that was reported when the record was written. */
  predicate Agrees(written: Remote, remote: Remote) {
    && (remote.length.Some? ==> written.length == remote.length)
    && SameValidator(remote.etag, written.etag)
    && SameValidator(remote.lastModified, written.lastModified)
  }

  predicate Recognizes(text: string, remote: Remote) {
    Load(text).Some? && Matches(Load(text).value, remote)
  }

  lemma SameValidatorIff(reported: Option<string>, recorded: Option<string>)
    ensures (reported.Some? ==> TrimToOptional(OrEmpty(recorded)) == reported) <==> SameValidator(reported, recorded)
  {
    TrimmedIsFixed("");
  }

  /** A full record is recognized exactly by a remote file with an identity that reports only what was recorded. */
  lemma FullRecordRecognizedIff(written: Remote, remote: Remote)
    ensures Recognizes(MetadataText(written), remote) <==> HasIdentity(remote) && Agrees(written, remote)
  {
    hide MetadataText, Load, HasIdentity, SameValidator, TrimToOptional, OrEmpty;
    MetadataRoundTrip(written);
    SameValidatorIff(remote.etag, written.etag);
    SameValidatorIff(remote.lastModified, written.lastModified);
  }

  /** A record cut anywhere is recognized only by such a remote file. */
  lemma CutRecordAgrees(written: Remote, text: string, remote: Remote)
    requires text <= MetadataText(written) && Recognizes(text, remote)
    ensures HasIdentity(remote) && Agrees(written, remote)
  {
    hide MetadataText, Load, HasIdentity, Matches;
    TornMetadataIsHarmless(written, text, remote);
    MetadataRoundTrip(written);
    FullRecordRecognizedIff(written, remote);
  }

  // ----- what else a record may not contain

  lemma {:induction false} PlainTextIsNotEscaped(s: string)
    requires '"' !in s && '\\' !in s
    ensures Escape(s) == s
  {
    if s != "" {
      PlainTextIsNotEscaped(s[1..]);
      assert s == [s[0]] + s[1..];
    }
  }

  lemma EntryLooksLike(key: string, value: string)
    requires '"' !in value && '\\' !in value
    ensures Entry(key, value) == "\n" + key + " \"" + value + "\""
  {
    hide Escape;
    PlainTextIsNotEscaped(value);
    var quoted := "\"" + value + "\"";
    assert "\n" + (key + (" " + quoted)) == "\n" + key + " \"" + value + "\"";
  }

  /** The text of a record, line by line, for validators that need no escapes. */
  lemma RecordLooksLike(r: Remote)
    requires '"' !in OrEmpty(r.etag) && '\\' !in OrEmpty(r.etag)
    requires '"' !in OrEmpty(r.lastModified) && '\\' !in OrEmpty(r.lastModified)
    ensures var length := if r.length.Some? then Decimal(r.length.value) else "-";
            var etag := if r.etag.Some? then r.etag.value else "";
            var modified := if r.lastModified.Some? then r.lastModified.value else "";
            MetadataText(r) ==
            ("content_length" + (" " + length))
            + (("\n" + "etag" + " \"" + etag + "\"") + (("\n" + "last_modified" + " \"" + modified + "\"") + "\n"))
  {
    hide Entry, Decimal;
    EntryLooksLike("etag", OrEmpty(r.etag));
    EntryLooksLike("last_modified", OrEmpty(r.lastModified));
  }

  /** An entry under any other key spoils the record it is added to. */
  lemma OtherKeySpoils(r: Remote, key: string, value: string)
    requires key != "" && NoSpace(key) && key !in {"content_length", "etag", "last_modified"}
    ensures Load(LengthLine(r.length) + ("\n" + (key + (" " + Quote(value))))) == None
  {
    hide ExtractWord, ExtractQuoted;
    var quoted := Quote(value);
    var tail := " " + quoted;
    LoadLengthLine(r.length, "\n" + (key + tail));
    LeadingSpaceIsSkipped('\n', key + tail);
    WordExtracted(key, tail);
    assert "\n" + (key + tail) == ['\n'] + (key + tail);
    assert quoted + "" == quoted && tail == [' '] + quoted;
    LeadingSpaceIsSkipped(' ', quoted);
    QuotedExtracted(value, "");
  }

  /** Without a length line there is no record. */
  lemma NoLengthNoRecord(etag: string)
    ensures Load(Entry("etag", etag)) == None
  {
    hide ExtractWord, ExtractQuoted;
    var quoted := Quote(etag);
    var tail := " " + quoted;
    KeyExtracted("etag", tail);
    assert quoted + "" == quoted && tail == [' '] + quoted;
    LeadingSpaceIsSkipped(' ', quoted);
    QuotedExtracted(etag, "");
    NothingLeft(NOTHING_STORED.(etag := TrimToOptional(etag)), false);
    assert Entry("etag", etag) == "\n" + ("etag" + tail);
  }

  lemma NothingLeft(found: Stored, sawLength: bool)
    ensures LoadFrom(Input("", false, false), found, sawLength) == if sawLength then Some(found) else None
  {
  }

  /** A length that is no number spoils the record, whatever follows. */
  lemma BadLengthSpoils(word: string, tail: string)
    requires word != "" && word != "-" && NoSpace(word) && ParseUint(word) == None
    requires tail != "" ==> IsSpace(tail[0])
    ensures Load("content_length" + (" " + (word + tail))) == None
  {
    hide ExtractWord, ParseUint;
    LengthKeyExtracted(" " + (word + tail));
    SpacedWordExtracted(word, tail);
  }
}
