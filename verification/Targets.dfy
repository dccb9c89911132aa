/**
 From a request for years to the files it names (models.cpp, providers/psl.cpp): one target per year, in
 order, and no two of them ever touching the same path.
 */
module Targets {
  import opened Wrappers
  import opened Text

  datatype FileMode = PerYear | SingleFile

  datatype Dataset = Dataset(
    id: string, providerKey: string, baseUrl: string, filenamePattern: string, mode: FileMode,
    startYear: Option<int>, endYear: Option<int>)

  datatype RemoteTarget = RemoteTarget(datasetId: string, year: Option<int>, fileName: string, url: string)

  datatype DownloadTarget = DownloadTarget(remote: RemoteTarget, outputPath: string)

  /** The exceptions thrown before any target is built. */
  datatype Refusal = ProviderMismatch | YearsNotAccepted | YearsMissing | YearNotSupported | TooManyFiles

  datatype Built = Built(targets: seq<RemoteTarget>) | Refused(why: Refusal)

  const PSL_PROVIDER := "psl"
  const MAX_REQUESTED_FILES := 500
  const YEAR_TOKEN := "{year}"

  // ----- file names

  /** std::to_string on an int. */
  function IntText(n: int): string {
    if n < 0 then "-" + Decimal(-n) else Decimal(n)
  }

  /** The first position of the token, or |s| when it does not occur. */
  function FindToken(s: string): (i: nat)
    ensures i <= |s|
    ensures i < |s| ==> YEAR_TOKEN <= s[i..]
  {
    if s == "" || YEAR_TOKEN <= s then 0
    else
      var i := FindToken(s[1..]);
      assert s[i + 1..] == s[1..][i..];
      i + 1
  }

  predicate HasToken(pattern: string) {
    FindToken(pattern) < |pattern|
  }

  /** render_year_pattern: only the first token is replaced. */
  function RenderYear(pattern: string, year: int): string {
    var i := FindToken(pattern);
    if i == |pattern| then pattern else pattern[..i] + IntText(year) + pattern[i + |YEAR_TOKEN|..]
  }

  // ----- which years are accepted

  /** validate_year; `now` is the current calendar year. */
  predicate SupportsYear(d: Dataset, year: int, now: int) {
    d.mode.SingleFile? ||
    ((d.startYear.Some? ==> d.startYear.value <= year) && year <= (if d.endYear.Some? then d.endYear.value else now))
  }

  /** validate_dataset and validate_requested_years, in the order in which they throw. */
  function Check(d: Dataset, start: Option<int>, end: Option<int>, now: int): Option<Refusal> {
    if d.providerKey != PSL_PROVIDER then Some(ProviderMismatch)
    else if d.mode.SingleFile? then
      if start.Some? || end.Some? then Some(YearsNotAccepted) else None
    else if start.None? || end.None? then Some(YearsMissing)
    else if !SupportsYear(d, start.value, now) || !SupportsYear(d, end.value, now) then Some(YearNotSupported)
    else if end.value - start.value + 1 > MAX_REQUESTED_FILES then Some(TooManyFiles)
    else None
  }

  /** DownloadRequest::years */
  method Years(start: int, end: int) returns (result: seq<int>)
    ensures |result| == if start <= end then end - start + 1 else 0
    ensures forall i | 0 <= i < |result| :: result[i] == start + i
  {
    result := [];
    var year := start;
    while year <= end
      invariant if start <= end then year <= end + 1 else year == start
      invariant year == start + |result|
      invariant forall i | 0 <= i < |result| :: result[i] == start + i
    {
      result := result + [year];
      year := year + 1;
    }
  }

  function TargetFor(d: Dataset, year: Option<int>): RemoteTarget {
    var name := if year.Some? then RenderYear(d.filenamePattern, year.value) else d.filenamePattern;
    RemoteTarget(d.id, year, name, d.baseUrl + "/" + name)
  }

  /** Every year between two supported years is supported, so naming its file never throws. */
  lemma YearsBetweenAreSupported(d: Dataset, start: int, end: int, now: int, year: int)
    requires SupportsYear(d, start, now) && SupportsYear(d, end, now) && start <= year <= end
    ensures SupportsYear(d, year, now)
  {
  }

  /** PSLProvider::build_targets */
  method BuildTargets(d: Dataset, start: Option<int>, end: Option<int>, now: int) returns (built: Built)
    ensures Check(d, start, end, now).Some? ==> built == Refused(Check(d, start, end, now).value)
    ensures Check(d, start, end, now).None? && d.mode.SingleFile? ==> built == Built([TargetFor(d, None)])
    ensures Check(d, start, end, now).None? && d.mode.PerYear? ==>
              && built.Built?
              && |built.targets| == (if start.value <= end.value then end.value - start.value + 1 else 0)
              && forall i | 0 <= i < |built.targets| :: built.targets[i] == TargetFor(d, Some(start.value + i))
  {
    hide TargetFor;
    var refusal := Check(d, start, end, now);
    if refusal.Some? {
      return Refused(refusal.value);
    }
    if d.mode.SingleFile? {
      return Built([TargetFor(d, None)]);
    }
    var years := Years(start.value, end.value);
    var targets := [];
    for k := 0 to |years|
      invariant |targets| == k
      invariant forall i | 0 <= i < k :: targets[i] == TargetFor(d, Some(start.value + i))
    {
      YearsBetweenAreSupported(d, start.value, end.value, now, years[k]);
      assert SupportsYear(d, years[k], now);
      targets := targets + [TargetFor(d, Some(years[k]))];
    }
    return Built(targets);
  }

  // ----- paths

  function OutputPath(root: string, r: RemoteTarget): string {
    root + "/" + r.datasetId + "/" + r.fileName
  }

  /** make_download_targets */
  method MakeDownloadTargets(root: string, remotes: seq<RemoteTarget>) returns (targets: seq<DownloadTarget>)
    ensures |targets| == |remotes|
    ensures forall i | 0 <= i < |targets| :: targets[i] == DownloadTarget(remotes[i], OutputPath(root, remotes[i]))
  {
    targets := [];
    for k := 0 to |remotes|
      invariant |targets| == k
      invariant forall i | 0 <= i < k :: targets[i] == DownloadTarget(remotes[i], OutputPath(root, remotes[i]))
    {
      targets := targets + [DownloadTarget(remotes[k], OutputPath(root, remotes[k]))];
    }
  }

  /** The output itself and its four sidecars. */
  datatype Role = OutputRole | PartRole | MetaRole | LockRole | BackupRole

  function Suffix(r: Role): string {
    match r
    case OutputRole => ""
    case PartRole => ".part"
    case MetaRole => ".part.meta"
    case LockRole => ".lock"
    case BackupRole => ".replace-backup"
  }

  function PathOf(t: DownloadTarget, r: Role): string {
    t.outputPath + Suffix(r)
  }

  // ----- names say the year

  /** The token does not occur in the text. */
  predicate NoTokenIn(s: string) {
    forall i | 0 <= i <= |s| :: !("{year}" <= s[i..])
  }

  lemma {:induction false} TokenIsFoundAfter(before: string, after: string)
    requires NoTokenIn(before)
    ensures FindToken(before + (YEAR_TOKEN + after)) == |before|
    decreases |before|
  {
    hide NoTokenIn, FindToken;
    var pattern := before + (YEAR_TOKEN + after);
    if before == "" {
      assert pattern == YEAR_TOKEN + after;
    } else {
      TailHasNoToken(before);
      TokenIsFoundAfter(before[1..], after);
      assert pattern[1..] == before[1..] + (YEAR_TOKEN + after);
      TokenDoesNotBeginBefore(before, after);
    }
    FindTokenStep(pattern);
  }

  lemma FindTokenStep(s: string)
    requires s != ""
    ensures FindToken(s) == if YEAR_TOKEN <= s then 0 else FindToken(s[1..]) + 1
  {
  }

  lemma TailHasNoToken(before: string)
    requires before != "" && NoTokenIn(before)
    ensures NoTokenIn(before[1..])
  {
    forall i | 0 <= i <= |before[1..]|
      ensures !(YEAR_TOKEN <= before[1..][i..])
    {
      assert before[1..][i..] == before[i + 1..];
    }
  }

  /** The token has its only opening brace in front, so it cannot overlap with itself. */
  lemma TokenDoesNotBeginBefore(before: string, after: string)
    requires before != "" && NoTokenIn(before)
    ensures !(YEAR_TOKEN <= before + (YEAR_TOKEN + after))
  {
    var pattern := before + (YEAR_TOKEN + after);
    if |before| < |YEAR_TOKEN| {
      assert pattern[|before|] == '{' && YEAR_TOKEN[|before|] != '{';
    } else {
      assert !(YEAR_TOKEN <= before[0..]);
      assert pattern[..|YEAR_TOKEN|] == before[..|YEAR_TOKEN|];
    }
  }

  /**
   The target of a year is named after that year, in the place of the token, and fetched from the dataset's
   address under that name; other tokens further on stay as they are.
   */
  lemma TargetIsNamedAfterYear(d: Dataset, before: string, after: string, year: nat)
    requires d.filenamePattern == before + ("{year}" + after) && NoTokenIn(before)
    ensures var name := before + Decimal(year) + after;
            TargetFor(d, Some(year)) == RemoteTarget(d.id, Some(year), name, d.baseUrl + "/" + name)
    ensures var t := TargetFor(d, Some(year));
            && ParseUint(t.fileName[|before|..|t.fileName| - |after|]) ==
               (if year < UINT64_LIMIT then Some(year) else None)
            && forall root: string :: OutputPath(root, t) == root + "/" + d.id + "/" + before + Decimal(year) + after
  {
    hide FindToken, ParseUint, Decimal;
    var pattern, name := d.filenamePattern, before + Decimal(year) + after;
    TokenIsFoundAfter(before, after);
    assert pattern[..|before|] == before && pattern[|before| + |YEAR_TOKEN|..] == after;
    assert name[|before|..|name| - |after|] == Decimal(year);
    ParsePrintedUint(year);
    forall root: string
      ensures root + "/" + d.id + "/" + name == root + "/" + d.id + "/" + before + Decimal(year) + after
    {
    }
  }

  /** A year before the year 0 is printed with its sign. */
  lemma TargetOfNegativeYear(d: Dataset, before: string, after: string, year: int)
    requires d.filenamePattern == before + ("{year}" + after) && NoTokenIn(before) && year < 0
    ensures TargetFor(d, Some(year)).fileName == before + ("-" + Decimal(-year)) + after
  {
    hide FindToken, Decimal;
    var pattern := d.filenamePattern;
    TokenIsFoundAfter(before, after);
    assert pattern[..|before|] == before && pattern[|before| + |YEAR_TOKEN|..] == after;
  }

  /** A single file is named as it stands, and the four sidecars of any output are named after it. */
  lemma FixedNames(d: Dataset, t: DownloadTarget)
    ensures TargetFor(d, None) ==
            RemoteTarget(d.id, None, d.filenamePattern, d.baseUrl + "/" + d.filenamePattern)
    ensures PathOf(t, OutputRole) == t.outputPath
    ensures PathOf(t, PartRole) == t.outputPath + ".part"
    ensures PathOf(t, MetaRole) == t.outputPath + ".part" + ".meta"
    ensures PathOf(t, LockRole) == t.outputPath + ".lock"
    ensures PathOf(t, BackupRole) == t.outputPath + ".replace-backup"
  {
    assert t.outputPath + ".part" + ".meta" == t.outputPath + ".part.meta";
    assert t.outputPath + "" == t.outputPath;
  }

  /** Which requests are accepted, whatever the order of the checks. */
  lemma RequestAcceptedIff(d: Dataset, start: Option<int>, end: Option<int>, now: int)
    ensures Check(d, start, end, now).None? <==>
            && d.providerKey == "psl"
            && (if d.mode.SingleFile? then start.None? && end.None?
                else
                  && start.Some? && end.Some?
                  && (d.startYear.Some? ==> d.startYear.value <= start.value && d.startYear.value <= end.value)
                  && (d.endYear.Some? ==> start.value <= d.endYear.value && end.value <= d.endYear.value)
                  && (d.endYear.None? ==> start.value <= now && end.value <= now)
                  && end.value - start.value < 500)
  {
  }

  // ----- no collisions

  lemma {:induction false} NumberTextHasNoLetters(n: int, c: char)
    requires 'a' <= c <= 'z'
    ensures c !in IntText(n)
    ensures multiset(IntText(n))[c] == 0
  {
  }

  lemma IntTextInjective(a: int, b: int)
    requires IntText(a) == IntText(b)
    ensures a == b
  {
    var s := IntText(a);
    assert !IsDigit('-');
    assert s[0] == '-' <==> a < 0;
    assert IntText(b)[0] == '-' <==> b < 0;
    if a < 0 {
      assert s[1..] == Decimal(-a) == Decimal(-b);
      DecimalInjective(-a, -b);
    } else {
      DecimalInjective(a, b);
    }
  }

  lemma CountsMembers(s: string, c: char)
    ensures multiset(s)[c] > 0 <==> c in s
  {
  }

  lemma LettersInSuffix(r: Role)
    ensures 'm' in Suffix(r) <==> r.MetaRole?
    ensures 'o' in Suffix(r) <==> r.LockRole?
    ensures 'b' in Suffix(r) <==> r.BackupRole?
    ensures 't' in Suffix(r) <==> r.PartRole? || r.MetaRole?
  {
    var s := Suffix(r);
    match r
    case OutputRole =>
    case PartRole => assert s[4] == 't';
    case MetaRole => assert s[6] == 'm' && s[8] == 't';
    case LockRole => assert s[2] == 'o';
    case BackupRole => assert s[9] == 'b';
  }

  lemma LettersOfSuffix(r: Role)
    ensures multiset(Suffix(r))['m'] > 0 <==> r.MetaRole?
    ensures multiset(Suffix(r))['o'] > 0 <==> r.LockRole?
    ensures multiset(Suffix(r))['b'] > 0 <==> r.BackupRole?
    ensures multiset(Suffix(r))['t'] > 0 <==> r.PartRole? || r.MetaRole?
  {
    LettersInSuffix(r);
    hide Suffix;
    CountsMembers(Suffix(r), 'm');
    CountsMembers(Suffix(r), 'o');
    CountsMembers(Suffix(r), 'b');
    CountsMembers(Suffix(r), 't');
  }

  /** The letters of a suffix tell which suffix it is. */
  lemma SuffixByLetters(r: Role, s: Role)
    requires forall c | 'a' <= c <= 'z' :: multiset(Suffix(r))[c] == multiset(Suffix(s))[c]
    ensures r == s
  {
    hide Suffix;
    LettersOfSuffix(r);
    LettersOfSuffix(s);
  }

  /** A number between the same text on both sides, with a suffix behind: the whole determines number and suffix. */
  lemma NumberAndSuffixDetermined(before: string, after: string, a: int, b: int, r: Role, s: Role)
    requires before + IntText(a) + after + Suffix(r) == before + IntText(b) + after + Suffix(s)
    ensures a == b && r == s
  {
    hide IntText, Suffix;
    var x, y := before + IntText(a) + after + Suffix(r), before + IntText(b) + after + Suffix(s);
    assert multiset(x) == multiset(before) + multiset(IntText(a)) + multiset(after) + multiset(Suffix(r));
    assert multiset(y) == multiset(before) + multiset(IntText(b)) + multiset(after) + multiset(Suffix(s));
    forall c | 'a' <= c <= 'z'
      ensures multiset(Suffix(r))[c] == multiset(Suffix(s))[c]
    {
      NumberTextHasNoLetters(a, c);
      NumberTextHasNoLetters(b, c);
      assert multiset(x)[c] == multiset(y)[c];
    }
    SuffixByLetters(r, s);
    assert |IntText(a)| == |IntText(b)|;
    assert IntText(a) == x[|before|..|before| + |IntText(a)|];
    assert IntText(b) == y[|before|..|before| + |IntText(b)|];
    IntTextInjective(a, b);
  }

  /** Two years of one dataset share no path, whatever follows the token, exactly when the pattern has the token. */
  lemma YearsNeverCollideIff(root: string, d: Dataset, a: int, b: int)
    requires a != b
    ensures var x := DownloadTarget(TargetFor(d, Some(a)), OutputPath(root, TargetFor(d, Some(a))));
            var y := DownloadTarget(TargetFor(d, Some(b)), OutputPath(root, TargetFor(d, Some(b))));
            (forall r, s :: PathOf(x, r) != PathOf(y, s)) <==> HasToken(d.filenamePattern)
  {
    hide Suffix, IntText, FindToken;
    var x := DownloadTarget(TargetFor(d, Some(a)), OutputPath(root, TargetFor(d, Some(a))));
    var y := DownloadTarget(TargetFor(d, Some(b)), OutputPath(root, TargetFor(d, Some(b))));
    var i := FindToken(d.filenamePattern);
    if HasToken(d.filenamePattern) {
      var before := root + "/" + d.id + "/" + d.filenamePattern[..i];
      var after := d.filenamePattern[i + |YEAR_TOKEN|..];
      forall r, s
        ensures PathOf(x, r) != PathOf(y, s)
      {
        assert PathOf(x, r) == before + IntText(a) + after + Suffix(r);
        assert PathOf(y, s) == before + IntText(b) + after + Suffix(s);
        if PathOf(x, r) == PathOf(y, s) {
          NumberAndSuffixDetermined(before, after, a, b, r, s);
          assert false;
        }
      }
    } else {
      assert PathOf(x, OutputRole) == PathOf(y, OutputRole);
    }
  }

  lemma OnePathPerRole(t: DownloadTarget, r: Role, s: Role)
    requires r != s
    ensures PathOf(t, r) != PathOf(t, s)
  {
    hide Suffix;
    LettersOfSuffix(r);
    LettersOfSuffix(s);
    assert PathOf(t, r)[|t.outputPath|..] == Suffix(r);
    assert PathOf(t, s)[|t.outputPath|..] == Suffix(s);
  }

  /** The targets of an accepted per-year request over a dataset whose pattern has the year token. */
  ghost predicate AcceptedTargets(root: string, d: Dataset, start: int, end: int, now: int, ts: seq<DownloadTarget>) {
    && d.mode.PerYear? && HasToken(d.filenamePattern)
    && Check(d, Some(start), Some(end), now).None?
    && |ts| == (if start <= end then end - start + 1 else 0)
    && forall i | 0 <= i < |ts| ::
         ts[i] == DownloadTarget(TargetFor(d, Some(start + i)), OutputPath(root, TargetFor(d, Some(start + i))))
  }

  /** No output, ".part", ".part.meta", ".lock" or ".replace-backup" is shared, by two targets or within one. */
  lemma PathsNeverCollide(root: string, d: Dataset, start: int, end: int, now: int, ts: seq<DownloadTarget>)
    requires AcceptedTargets(root, d, start, end, now, ts)
    ensures |ts| <= MAX_REQUESTED_FILES
    ensures forall i, j, r, s | 0 <= i < |ts| && 0 <= j < |ts| && (i, r) != (j, s) ::
              PathOf(ts[i], r) != PathOf(ts[j], s)
  {
    hide TargetFor, OutputPath, PathOf, HasToken;
    forall i, j, r, s | 0 <= i < |ts| && 0 <= j < |ts| && (i, r) != (j, s)
      ensures PathOf(ts[i], r) != PathOf(ts[j], s)
    {
      if i == j {
        OnePathPerRole(ts[i], r, s);
      } else {
        YearsNeverCollideIff(root, d, start + i, start + j);
      }
    }
  }

  /** The whole way from the request to the local targets, with what the two steps promise together. */
  method TargetsOf(root: string, d: Dataset, start: int, end: int, now: int) returns (ts: seq<DownloadTarget>)
    requires d.mode.PerYear? && HasToken(d.filenamePattern) && Check(d, Some(start), Some(end), now).None?
    ensures AcceptedTargets(root, d, start, end, now, ts)
    ensures forall i, j | 0 <= i < j < |ts| :: ts[i].remote.year.value < ts[j].remote.year.value
  {
    var built := BuildTargets(d, Some(start), Some(end), now);
    ts := MakeDownloadTargets(root, built.targets);
  }
}
