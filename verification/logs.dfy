/** The Haunted Log Cleaner steps (apps/haunted_log_cleaner/pipelines.py):
    parsing raw lines against the fixed `YYYY-MM-DD HH:MM:SS [LEVEL] message`
    format, redacting messages, counting entries per level, and the lines of
    the markdown report. Reading and writing files is left to the caller:
    the steps here take the lines and give back the lines. */
module Logs {
  import opened Wrappers
  import opened Values
  import opened Text
  import opened Seqs

  /** A parsed log line, the dict `{timestamp, level, message}`. */
  datatype LogEntry = LogEntry(timestamp: string, level: string, message: string)

  // ---------------------------------------------------------------------------
  // The line format
  // ---------------------------------------------------------------------------

  /** `\d{n}` at position i. */
  predicate DigitsAt(s: string, i: nat, n: nat) {
    i + n <= |s| && forall k :: i <= k < i + n ==> IsDigit(s[k])
  }

  /** `\d{4}-\d{2}-\d{2}` at position i. */
  predicate DateAt(s: string, i: nat) {
    i + 10 <= |s| && DigitsAt(s, i, 4) && s[i + 4] == '-' && DigitsAt(s, i + 5, 2) &&
    s[i + 7] == '-' && DigitsAt(s, i + 8, 2)
  }

  /** `\d{2}:\d{2}:\d{2}` at position i. */
  predicate TimeAt(s: string, i: nat) {
    i + 8 <= |s| && DigitsAt(s, i, 2) && s[i + 2] == ':' && DigitsAt(s, i + 3, 2) &&
    s[i + 5] == ':' && DigitsAt(s, i + 6, 2)
  }

  /** A line with no surrounding whitespace, as `str.strip()` leaves it. */
  predicate Stripped(s: string) {
    s == [] || (!IsSpace(s[0]) && !IsSpace(s[|s| - 1]))
  }

  /** Span starting at position i, in positions of `s`. */
  function SpanFrom(s: string, i: nat, p: char -> bool): (r: nat)
    requires i <= |s|
    ensures i <= r <= |s|
    ensures forall k :: i <= k < r ==> p(s[k])
    ensures r < |s| ==> !p(s[r])
  {
    var n := Span(s[i..], p);
    assert forall k :: i <= k < i + n ==> s[k] == s[i..][k - i];
    i + n
  }

  /** Where the groups of a matching line start and end: the timestamp is
      `line[..b]`, the level `line[c + 1..d]`, the message `line[e..]`. */
  datatype Cuts = Cuts(b: nat, c: nat, d: nat, e: nat)

  /** The cut points of `^(\d{4}-\d{2}-\d{2}\s+\d{2}:\d{2}:\d{2})\s+\[(\w+)\]\s+(.+)$`
      on a stripped line, or None when the line does not match. Every
      repetition except the last is followed by a character it cannot
      consume, so its greedy span is the only one that can succeed; `(.+)$`
      then needs a non-empty rest without a line break. */
  function LogCuts(line: string): (r: Option<Cuts>)
    ensures r.Some? ==>
              var k := r.value;
              DateAt(line, 0) && 10 < k.b - 8 && TimeAt(line, k.b - 8) &&
              (forall i :: 10 <= i < k.b - 8 ==> IsSpace(line[i])) &&
              TailAt(line, k)
  {
    if !DateAt(line, 0) then None
    else
      var a := SpanFrom(line, 10, IsSpace);
      if a == 10 || !TimeAt(line, a) then None
      else TailCuts(line, a + 8)
  }

  /** `\s+\[(\w+)\]\s+(.+)$` from position k.b onwards, as cut by k. */
  predicate TailAt(line: string, k: Cuts) {
    k.b < k.c < k.d < k.e < |line| &&
    (forall i :: k.b <= i < k.c ==> IsSpace(line[i])) && line[k.c] == '[' &&
    k.c + 1 < k.d && (forall i :: k.c + 1 <= i < k.d ==> IsWordChar(line[i])) && line[k.d] == ']' &&
    k.d + 1 < k.e && (forall i :: k.d + 1 <= i < k.e ==> IsSpace(line[i])) &&
    '\n' !in line[k.e..]
  }

  /** The cut points after the timestamp, which ends at b. */
  function TailCuts(line: string, b: nat): (r: Option<Cuts>)
    requires b <= |line|
    ensures r.Some? ==> r.value.b == b && TailAt(line, r.value)
  {
    var c := SpanFrom(line, b, IsSpace);
    if c == b || c >= |line| || line[c] != '[' then None
    else
      var d := SpanFrom(line, c + 1, IsWordChar);
      if d == c + 1 || d >= |line| || line[d] != ']' then None
      else
        var e := SpanFrom(line, d + 1, IsSpace);
        if e == d + 1 || e >= |line| || '\n' in line[e..] then None
        else
          TailAtIntro(line, Cuts(b, c, d, e));
          Some(Cuts(b, c, d, e))
  }

  /** TailAt from its pieces, one group at a time. */
  lemma TailAtIntro(line: string, k: Cuts)
    requires k.b < k.c < k.d < k.e < |line|
    requires forall i :: k.b <= i < k.c ==> IsSpace(line[i])
    requires line[k.c] == '[' && line[k.d] == ']'
    requires k.c + 1 < k.d && forall i :: k.c + 1 <= i < k.d ==> IsWordChar(line[i])
    requires k.d + 1 < k.e && forall i :: k.d + 1 <= i < k.e ==> IsSpace(line[i])
    requires '\n' !in line[k.e..]
    ensures TailAt(line, k)
  {
  }

  /** `LOG_PATTERN.match(line)` on a stripped line (the only kind the step
      gives it): the three groups, or None. */
  function MatchLog(line: string): (r: Option<LogEntry>)
    requires Stripped(line)
  {
    match LogCuts(line)
    case None => None
    case Some(k) => Some(LogEntry(line[..k.b], line[k.c + 1..k.d], line[k.e..]))
  }

  /** A level is one or more word characters. */
  predicate IsWord(s: string) {
    |s| > 0 && forall i :: 0 <= i < |s| ==> IsWordChar(s[i])
  }

  /** The date and time patterns only look at their own characters, so
      they hold in a prefix exactly when they hold in the whole line. */
  lemma PrefixDateTime(s: string, m: nat, i: nat)
    requires m <= |s|
    ensures i + 10 <= m ==> (DateAt(s[..m], i) <==> DateAt(s, i))
    ensures i + 8 <= m ==> (TimeAt(s[..m], i) <==> TimeAt(s, i))
  {
    assert forall k :: 0 <= k < m ==> s[..m][k] == s[k];
  }

  /** The timestamp group keeps the date and the time it was matched with. */
  lemma TimestampOf(line: string, b: nat)
    requires 18 <= b <= |line| && DateAt(line, 0) && TimeAt(line, b - 8)
    ensures DateAt(line[..b], 0) && TimeAt(line[..b], b - 8)
  {
    PrefixDateTime(line, b, 0);
    PrefixDateTime(line, b, b - 8);
  }

  /** A property of every character in a range holds of the slice. */
  lemma SliceAll(s: string, lo: nat, hi: nat, p: char -> bool)
    requires lo <= hi <= |s|
    requires forall i :: lo <= i < hi ==> p(s[i])
    ensures forall i :: 0 <= i < hi - lo ==> p(s[lo..hi][i])
  {
  }

  /** A span whose end is known. */
  lemma SpanFromExact(s: string, i: nat, p: char -> bool, r: nat)
    requires i <= r <= |s|
    requires forall k :: i <= k < r ==> p(s[k])
    requires r < |s| ==> !p(s[r])
    ensures SpanFrom(s, i, p) == r
  {
    assert forall k :: 0 <= k < r - i ==> s[i..][k] == s[i + k];
    SpanExact(s[i..], p, r - i);
  }

  /** A log line laid out from its parts: timestamp, whitespace, the level
      in brackets, whitespace, message. */
  function Layout(ts: string, sp1: string, level: string, sp2: string, msg: string): string {
    ts + sp1 + "[" + level + "]" + sp2 + msg
  }

  /** Where each part of a layout sits. */
  lemma LayoutParts(ts: string, sp1: string, level: string, sp2: string, msg: string)
    ensures var line := Layout(ts, sp1, level, sp2, msg);
            var c := |ts| + |sp1|;
            var d := c + 1 + |level|;
            var e := d + 1 + |sp2|;
            |line| == e + |msg| &&
            line[..|ts|] == ts && line[|ts|..c] == sp1 && line[c] == '[' &&
            line[c + 1..d] == level && line[d] == ']' && line[d + 1..e] == sp2 && line[e..] == msg
  {
  }

  /** A line cut at k is the layout of its pieces. */
  lemma CutsLayout(line: string, k: Cuts)
    requires TailAt(line, k)
    ensures line == Layout(line[..k.b], line[k.b..k.c], line[k.c + 1..k.d], line[k.d + 1..k.e], line[k.e..])
  {
    assert line == line[..k.b] + line[k.b..k.c] + line[k.c..k.c + 1] + line[k.c + 1..k.d] +
                   line[k.d..k.d + 1] + line[k.d + 1..k.e] + line[k.e..];
    assert line[k.c..k.c + 1] == "[" && line[k.d..k.d + 1] == "]";
  }

  /** A match is the three groups at the cut points. */
  lemma MatchIsCuts(line: string)
    requires Stripped(line) && MatchLog(line).Some?
    ensures LogCuts(line).Some?
    ensures var k := LogCuts(line).value;
            var e := MatchLog(line).value;
            CutAt(line, k, e)
  {
  }

  /** The entry `e` holds the three groups of a line cut at k, after a
      date, whitespace and a time. */
  predicate CutAt(line: string, k: Cuts, e: LogEntry) {
    DateAt(line, 0) && 18 <= k.b && TimeAt(line, k.b - 8) && TailAt(line, k) &&
    e.timestamp == line[..k.b] && e.level == line[k.c + 1..k.d] && e.message == line[k.e..]
  }

  /** The pieces between the groups of a line cut at k are non-empty
      whitespace, and the line is their layout. */
  lemma CutsParts(line: string, k: Cuts)
    requires TailAt(line, k)
    ensures |line[k.b..k.c]| > 0 && AllSpace(line[k.b..k.c])
    ensures |line[k.d + 1..k.e]| > 0 && AllSpace(line[k.d + 1..k.e])
    ensures line == Layout(line[..k.b], line[k.b..k.c], line[k.c + 1..k.d], line[k.d + 1..k.e], line[k.e..])
  {
    SliceAll(line, k.b, k.c, IsSpace);
    SliceAll(line, k.d + 1, k.e, IsSpace);
    CutsLayout(line, k);
  }

  /** The groups cut at k have the shapes the pattern gives them. */
  lemma CutFields(line: string, k: Cuts, e: LogEntry)
    requires CutAt(line, k, e)
    ensures DateAt(e.timestamp, 0) && TimeAt(e.timestamp, |e.timestamp| - 8) &&
            IsWord(e.level) && |e.message| > 0 && '\n' !in e.message
  {
    TimestampOf(line, k.b);
    SliceAll(line, k.c + 1, k.d, IsWordChar);
  }

  /** The line cut at k is the layout of its groups and two whitespace runs. */
  lemma CutLayout(line: string, k: Cuts, e: LogEntry)
    requires CutAt(line, k, e)
    ensures exists sp1, sp2 :: |sp1| > 0 && AllSpace(sp1) && |sp2| > 0 && AllSpace(sp2) &&
              line == Layout(e.timestamp, sp1, e.level, sp2, e.message)
  {
    CutsParts(line, k);
    var sp1, sp2 := line[k.b..k.c], line[k.d + 1..k.e];
    assert line == Layout(e.timestamp, sp1, e.level, sp2, e.message);
  }

  /** What a match yields: a timestamp that is a date, whitespace and a
      time, a level of word characters, and a non-empty one-line message. */
  lemma MatchFields(line: string)
    requires Stripped(line) && MatchLog(line).Some?
    ensures var e := MatchLog(line).value;
            DateAt(e.timestamp, 0) && TimeAt(e.timestamp, |e.timestamp| - 8) &&
            IsWord(e.level) && |e.message| > 0 && '\n' !in e.message
  {
    MatchIsCuts(line);
    CutFields(line, LogCuts(line).value, MatchLog(line).value);
  }

  /** The matched line is exactly the timestamp, whitespace, the bracketed
      level, whitespace and the message. */
  lemma MatchLayout(line: string)
    requires Stripped(line) && MatchLog(line).Some?
    ensures var e := MatchLog(line).value;
            exists sp1, sp2 :: |sp1| > 0 && AllSpace(sp1) && |sp2| > 0 && AllSpace(sp2) &&
              line == Layout(e.timestamp, sp1, e.level, sp2, e.message)
  {
    MatchIsCuts(line);
    CutLayout(line, LogCuts(line).value, MatchLog(line).value);
  }

  /** A well-formed entry as the application's logs write it: the timestamp
      `YYYY-MM-DD HH:MM:SS` with one space, a word for the level, and a
      one-line message that neither starts nor ends with whitespace. */
  predicate WellFormed(e: LogEntry) {
    |e.timestamp| == 19 && DateAt(e.timestamp, 0) && e.timestamp[10] == ' ' && TimeAt(e.timestamp, 11) &&
    IsWord(e.level) &&
    |e.message| > 0 && '\n' !in e.message && !IsSpace(e.message[0]) && !IsSpace(e.message[|e.message| - 1])
  }

  /** The line `timestamp [LEVEL] message`. */
  function FormatLog(e: LogEntry): string {
    Layout(e.timestamp, " ", e.level, " ", e.message)
  }

  /** The timestamp of a formatted well-formed entry is matched as a
      date, one space and a time. */
  lemma FormatHead(e: LogEntry)
    requires WellFormed(e)
    ensures var line := FormatLog(e);
            DateAt(line, 0) && SpanFrom(line, 10, IsSpace) == 11 && TimeAt(line, 11)
  {
    var line := FormatLog(e);
    LayoutParts(e.timestamp, " ", e.level, " ", e.message);
    PrefixDateTime(line, 19, 0);
    PrefixDateTime(line, 19, 11);
    SpanFromExact(line, 10, IsSpace, 11);
  }

  /** The characters of a formatted entry after its 19-character timestamp. */
  lemma FormatChars(e: LogEntry)
    requires |e.timestamp| == 19
    ensures var line := FormatLog(e);
            var n := |e.level|;
            |line| == 23 + n + |e.message| && line[19] == ' ' && line[20] == '[' &&
            (forall i :: 0 <= i < n ==> line[21 + i] == e.level[i]) &&
            line[21 + n] == ']' && line[22 + n] == ' ' && line[23 + n..] == e.message
  {
    LayoutParts(e.timestamp, " ", e.level, " ", e.message);
  }

  /** The three spans after the timestamp of a formatted well-formed entry:
      one space, the level, one space. */
  lemma FormatSpans(e: LogEntry)
    requires WellFormed(e)
    ensures var line := FormatLog(e);
            var n := |e.level|;
            |line| > 23 + n &&
            SpanFrom(line, 19, IsSpace) == 20 && SpanFrom(line, 21, IsWordChar) == 21 + n &&
            SpanFrom(line, 22 + n, IsSpace) == 23 + n
  {
    var line := FormatLog(e);
    var n := |e.level|;
    FormatChars(e);
    SpanFromExact(line, 19, IsSpace, 20);
    SpanFromExact(line, 21, IsWordChar, 21 + n);
    assert line[23 + n] == e.message[0];
    SpanFromExact(line, 22 + n, IsSpace, 23 + n);
  }

  /** The rest of a formatted well-formed entry is cut around the
      bracketed level. */
  lemma FormatTail(e: LogEntry)
    requires WellFormed(e)
    ensures |FormatLog(e)| >= 19 && TailCuts(FormatLog(e), 19) == Some(Cuts(19, 20, 21 + |e.level|, 23 + |e.level|))
  {
    FormatChars(e);
    FormatSpans(e);
  }

  /** The cut points of a formatted well-formed entry. */
  lemma FormatCuts(e: LogEntry)
    requires WellFormed(e)
    ensures LogCuts(FormatLog(e)) == Some(Cuts(19, 20, 21 + |e.level|, 23 + |e.level|))
  {
    FormatHead(e);
    FormatTail(e);
  }

  /** Formatting a well-formed entry and matching the line gives the entry
      back. */
  lemma FormatThenMatch(e: LogEntry)
    requires WellFormed(e)
    ensures Stripped(FormatLog(e)) && MatchLog(FormatLog(e)) == Some(e)
  {
    LayoutParts(e.timestamp, " ", e.level, " ", e.message);
    FormatCuts(e);
  }

  /** `\w` is not only ASCII: a level spelled with a Latin-1 letter is
      matched like any other. */
  lemma LatinLevelMatches(line: string)
    requires line == "2024-01-01 12:00:00 [\U{C9}RROR] x"
    ensures MatchLog(line) == Some(LogEntry("2024-01-01 12:00:00", "\U{C9}RROR", "x"))
  {
    var e := LogEntry("2024-01-01 12:00:00", "\U{C9}RROR", "x");
    SampleStamp(e.timestamp);
    assert IsWord(e.level);
    SampleLine(e, line);
    FormatThenMatch(e);
  }

  /** The sample entry formats to the sample line. */
  lemma SampleLine(e: LogEntry, line: string)
    requires e == LogEntry("2024-01-01 12:00:00", "\U{C9}RROR", "x")
    requires line == "2024-01-01 12:00:00 [\U{C9}RROR] x"
    ensures FormatLog(e) == line
  {
  }

  /** The sample timestamp is a date, one space and a time. */
  lemma SampleStamp(ts: string)
    requires ts == "2024-01-01 12:00:00"
    ensures DateAt(ts, 0) && TimeAt(ts, 11)
  {
    assert DigitsAt(ts, 0, 4) && DigitsAt(ts, 5, 2) && DigitsAt(ts, 8, 2);
    assert DigitsAt(ts, 11, 2) && DigitsAt(ts, 14, 2) && DigitsAt(ts, 17, 2);
  }

  // ---------------------------------------------------------------------------
  // ParseLogsStep
  // ---------------------------------------------------------------------------

  /** What happens to one raw line: blank after stripping, parsed, or
      skipped as unparseable. */
  datatype LineOutcome = Blank | Parsed(entry: LogEntry) | Unparsed

  function ParseLine(raw: string): (r: LineOutcome)
    ensures r.Blank? <==> AllSpace(raw)
  {
    var line := Strip(raw);
    if line == [] then Blank
    else
      match MatchLog(line)
      case Some(e) => Parsed(e)
      case None => Unparsed
  }

  /** The entries parsed from `lines`, in input order. */
  function ParsedEntries(lines: seq<string>): seq<LogEntry> {
    if |lines| == 0 then []
    else
      var init := ParsedEntries(lines[..|lines| - 1]);
      match ParseLine(lines[|lines| - 1])
      case Parsed(e) => init + [e]
      case _ => init
  }

  /** The number of non-blank lines that did not parse. */
  function SkippedLines(lines: seq<string>): nat {
    if |lines| == 0 then 0
    else SkippedLines(lines[..|lines| - 1]) + (if ParseLine(lines[|lines| - 1]).Unparsed? then 1 else 0)
  }

  /** The number of lines that are not blank after stripping. */
  function NonBlankLines(lines: seq<string>): nat {
    if |lines| == 0 then 0
    else NonBlankLines(lines[..|lines| - 1]) + (if AllSpace(lines[|lines| - 1]) then 0 else 1)
  }

  /** Every non-blank line is either parsed or skipped. */
  lemma {:induction false} ParsedPlusSkipped(lines: seq<string>)
    ensures |ParsedEntries(lines)| + SkippedLines(lines) == NonBlankLines(lines)
  {
    if |lines| > 0 {
      ParsedPlusSkipped(lines[..|lines| - 1]);
    }
  }

  /** Each entry comes from a line of the input that matched. */
  lemma {:induction false} ParsedFromLines(lines: seq<string>)
    ensures forall k :: 0 <= k < |ParsedEntries(lines)| ==>
              exists i :: 0 <= i < |lines| && ParseLine(lines[i]) == Parsed(ParsedEntries(lines)[k])
  {
    if |lines| > 0 {
      var init := lines[..|lines| - 1];
      var last := lines[|lines| - 1];
      ParsedFromLines(init);
      var pe, pi := ParsedEntries(lines), ParsedEntries(init);
      assert pi <= pe;
      forall k | 0 <= k < |ParsedEntries(lines)|
        ensures exists i :: 0 <= i < |lines| && ParseLine(lines[i]) == Parsed(ParsedEntries(lines)[k])
      {
        if k < |pi| {
          var i :| 0 <= i < |init| && ParseLine(init[i]) == Parsed(pi[k]);
          assert lines[i] == init[i] && pe[k] == pi[k];
        } else {
          assert ParseLine(last) == Parsed(pe[k]);
        }
      }
    } else {
      assert ParsedEntries(lines) == [];
    }
  }

  /** `ParseLogsStep.run`: every line is stripped, blank lines are passed
      over, lines that match are parsed in order and the others counted as
      skipped; `parsed_count` and `skipped_count` go into the context, and
      the two add up to the number of non-blank lines. */
  method ParseLogs(lines: seq<string>, ctx: Context) returns (logs: seq<LogEntry>, ctx': Context)
    ensures logs == ParsedEntries(lines)
    ensures ctx' == ctx["parsed_count" := Int(|logs|)]["skipped_count" := Int(SkippedLines(lines))]
    ensures |logs| + SkippedLines(lines) == NonBlankLines(lines)
  {
    logs := [];
    var skipped: nat := 0;
    for i := 0 to |lines|
      invariant logs == ParsedEntries(lines[..i])
      invariant skipped == SkippedLines(lines[..i])
    {
      assert lines[..i + 1][..i] == lines[..i];
      // strip the line, skip it if blank, otherwise try the pattern
      match ParseLine(lines[i])
      case Blank =>
      case Parsed(e) =>
        logs := logs + [e];
      case Unparsed =>
        skipped := skipped + 1;
    }
    assert lines[..|lines|] == lines;
    ParsedPlusSkipped(lines);
    ctx' := ctx["parsed_count" := Int(|logs|)]["skipped_count" := Int(skipped)];
  }

  // ---------------------------------------------------------------------------
  // AnonymizeLogsStep
  // ---------------------------------------------------------------------------

  /** The number of entries whose message the redaction changes. */
  function ChangedCount(logs: seq<LogEntry>, redact: string -> string): nat {
    if |logs| == 0 then 0
    else
      var e := logs[|logs| - 1];
      ChangedCount(logs[..|logs| - 1], redact) + (if redact(e.message) != e.message then 1 else 0)
  }

  /** `AnonymizeLogsStep.run`, with the two `re.sub` passes (e-mail
      addresses, then IPv4 addresses, each replaced by `[REDACTED]`) as the
      function `redact`: the same entries in the same order with only their
      messages redacted, and `anonymized_count` the number of messages that
      changed. */
  function AnonymizeLogs(logs: seq<LogEntry>, redact: string -> string): (r: (seq<LogEntry>, nat))
    ensures |r.0| == |logs|
    ensures forall i :: 0 <= i < |logs| ==>
              r.0[i].timestamp == logs[i].timestamp && r.0[i].level == logs[i].level &&
              r.0[i].message == redact(logs[i].message)
    ensures r.1 == ChangedCount(logs, redact)
  {
    (Map(logs, (e: LogEntry) => e.(message := redact(e.message))), ChangedCount(logs, redact))
  }

  /** No message changes exactly when nothing is counted, and then the
      entries come back as they were. */
  lemma {:induction false} NothingToRedact(logs: seq<LogEntry>, redact: string -> string)
    ensures ChangedCount(logs, redact) == 0 <==>
            forall i :: 0 <= i < |logs| ==> redact(logs[i].message) == logs[i].message
    ensures ChangedCount(logs, redact) == 0 ==> AnonymizeLogs(logs, redact).0 == logs
    ensures ChangedCount(logs, redact) <= |logs|
  {
    if |logs| > 0 {
      var init := logs[..|logs| - 1];
      NothingToRedact(init, redact);
      assert forall i :: 0 <= i < |init| ==> init[i] == logs[i];
    }
  }

  // ---------------------------------------------------------------------------
  // AggregateErrorsStep
  // ---------------------------------------------------------------------------

  /** The aggregated statistics `{total, by_level, logs}`; `by_level` keeps
      its levels in first-appearance order, as the Python dict does. */
  datatype LogStats = LogStats(total: nat, byLevel: seq<(string, nat)>, logs: seq<LogEntry>)

  function Level(e: LogEntry): string {
    e.level
  }

  function Same(s: string): string {
    s
  }

  /** `by_level`: the levels with their counts, in first-appearance order. */
  function ByLevel(logs: seq<LogEntry>): seq<(string, nat)> {
    Tally(Map(logs, Level), Same)
  }

  /** `by_level.get(level, 0)`. */
  function LevelCount(byLevel: seq<(string, nat)>, level: string): nat {
    CountOf(byLevel, Same, level)
  }

  /** `level in by_level`. */
  predicate HasLevel(byLevel: seq<(string, nat)>, level: string) {
    exists g :: 0 <= g < |byLevel| && byLevel[g].0 == level
  }

  /** `AggregateErrorsStep.run`: the total, the per-level counts, the logs
      passed through, and `error_count` in the context, the number of
      entries whose level is "ERROR". The counts add up to the total. */
  function Aggregate(logs: seq<LogEntry>, ctx: Context): (r: (LogStats, Context))
    ensures r.0.total == |logs| && r.0.logs == logs && r.0.byLevel == ByLevel(logs)
    ensures SumCounts(r.0.byLevel) == |logs|
    ensures r.1 == ctx["error_count" := Int(|Filter(Map(logs, Level), HasKey(Same, "ERROR"))|)]
  {
    TallySum(Map(logs, Level), Same);
    LevelCountIsOccurrences(logs, "ERROR");
    (LogStats(|logs|, ByLevel(logs), logs), ctx["error_count" := Int(LevelCount(ByLevel(logs), "ERROR"))])
  }

  /** Each level's count is the number of entries at that level; a level no
      entry has counts 0. */
  lemma LevelCountIsOccurrences(logs: seq<LogEntry>, level: string)
    ensures LevelCount(ByLevel(logs), level) == |Filter(Map(logs, Level), HasKey(Same, level))|
  {
    TallyCountOf(Map(logs, Level), Same, level);
  }

  /** `by_level` lists each level once, and exactly the levels some entry
      has. */
  lemma ByLevelListsLevels(logs: seq<LogEntry>, level: string)
    ensures var byLevel := ByLevel(logs);
            forall g, h :: 0 <= g < h < |byLevel| ==> byLevel[g].0 != byLevel[h].0
    ensures HasLevel(ByLevel(logs), level) <==> exists i :: 0 <= i < |logs| && logs[i].level == level
  {
    var levels := Map(logs, Level);
    var byLevel := ByLevel(logs);
    assert Distinct(KeysInOrder(levels, Same));
    TallyHasKey(levels, Same, level);
    if exists i :: 0 <= i < |logs| && logs[i].level == level {
      var i :| 0 <= i < |logs| && logs[i].level == level;
      assert levels[i] == level;
    }
  }

  // ---------------------------------------------------------------------------
  // WriteMarkdownReportStep
  // ---------------------------------------------------------------------------

  /** The levels of `by_level`. */
  function LevelNames(byLevel: seq<(string, nat)>): set<string> {
    set g | 0 <= g < |byLevel| :: byLevel[g].0
  }

  /** One table row per level, levels in sorted order. */
  function LevelRows(byLevel: seq<(string, nat)>): (r: seq<string>)
    ensures |r| == |LevelNames(byLevel)|
    ensures forall i :: 0 <= i < |r| ==>
              var lv := SortedStrings(LevelNames(byLevel))[i];
              r[i] == "| " + lv + " | " + NatToString(LevelCount(byLevel, lv)) + " |"
  {
    var names := SortedStrings(LevelNames(byLevel));
    Map(names, (lv: string) => "| " + lv + " | " + NatToString(LevelCount(byLevel, lv)) + " |")
  }

  /** One bullet per entry. */
  function SampleRow(e: LogEntry): string {
    "- **[" + e.level + "]** " + e.timestamp + ": " + e.message
  }

  /** Five parts laid end to end, and where each sits. */
  lemma Sections<T>(a: seq<T>, b: seq<T>, c: seq<T>, d: seq<T>, e: seq<T>)
    ensures var s := a + b + c + d + e;
            var i := |a| + |b|;
            var j := i + |c|;
            s[..|a|] == a && s[|a|..i] == b && s[i..j] == c && s[j..j + |d|] == d && s[j + |d|..] == e
  {
    var s := a + b + c + d + e;
    assert s == a + (b + (c + (d + e)));
  }

  /** The title, the total and the table header. */
  function ReportFront(total: nat): (r: seq<string>)
    ensures |r| == 10 && r[4] == "**Total log entries:** " + NatToString(total)
  {
    ["# \U{1FA78} Haunted Log Report", "", "## Summary", "",
     "**Total log entries:** " + NatToString(total), "", "## Counts by Level", "",
     "| Level | Count |", "|-------|-------|"]
  }

  const SampleHeading: seq<string> := ["", "## Sample Messages", ""]

  /** The lines `WriteMarkdownReportStep.run` joins with newlines: the
      title and the total, a table row per level with the levels in
      ascending order, the first (at most) five entries as samples, and a
      final empty line. */
  function ReportLines(stats: LogStats): (r: seq<string>)
    ensures var rows := LevelRows(stats.byLevel);
            var samples := TakeFirst(stats.logs, 5);
            |r| == 14 + |rows| + |samples| &&
            r[4] == "**Total log entries:** " + NatToString(stats.total) &&
            r[10..10 + |rows|] == rows &&
            r[13 + |rows|..13 + |rows| + |samples|] == Map(samples, SampleRow) &&
            r[|r| - 1] == ""
  {
    var front := ReportFront(stats.total);
    var rows := LevelRows(stats.byLevel);
    var samples := Map(TakeFirst(stats.logs, 5), SampleRow);
    Sections(front, rows, SampleHeading, samples, [""]);
    front + rows + SampleHeading + samples + [""]
  }

  /** The report step hands on the statistics unchanged and records where
      the report went. */
  function WriteReport(stats: LogStats, outputPath: string, ctx: Context): (r: (LogStats, Context, string))
    ensures r.0 == stats
    ensures r.1 == ctx["report_path" := Str(outputPath)]
    ensures r.2 == Join(ReportLines(stats), "\n")
  {
    (stats, ctx["report_path" := Str(outputPath)], Join(ReportLines(stats), "\n"))
  }
}
