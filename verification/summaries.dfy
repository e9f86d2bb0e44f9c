/** The deterministic summaries of skeleton_core/summarization.py and the
    rule that decides whether a model-written paragraph is appended to them.
    The environment is a map from variable names to values, and the model's
    answer is a parameter: what the call returned, or a failure when the
    code around it raised. */
module Summaries {
  import opened Wrappers
  import opened Values
  import opened Text
  import opened Seqs
  import opened Logs

  // ---------------------------------------------------------------------------
  // Configuration
  // ---------------------------------------------------------------------------

  /** `SummarizationConfig`: provider, API key and model, each None when
      unset, and the `use_llm` flag of the context. */
  datatype SummarizationConfig = SummarizationConfig(
    provider: Option<string>, apiKey: Option<string>, model: Option<string>, useLlmFlag: bool)

  /** `os.getenv(name) or None`: an empty value counts as unset. */
  function EnvSetting(env: map<string, string>, name: string): Option<string> {
    if name in env && env[name] != "" then Some(env[name]) else None
  }

  /** `get_summarization_config(context)`: the three settings come from the
      environment, the flag is the truthiness of `context["use_llm"]`, and a
      missing context reads as an empty one. */
  function GetConfig(context: Option<Context>, env: map<string, string>): (c: SummarizationConfig)
    ensures c.useLlmFlag <==> context.Some? && "use_llm" in context.value && Truthy(context.value["use_llm"])
    ensures c.provider.Some? <==> "BONESAW_LLM_PROVIDER" in env && env["BONESAW_LLM_PROVIDER"] != ""
    ensures c.model.Some? <==> "BONESAW_LLM_MODEL" in env && env["BONESAW_LLM_MODEL"] != ""
    ensures c.apiKey.Some? <==> "BONESAW_LLM_API_KEY" in env && env["BONESAW_LLM_API_KEY"] != ""
  {
    var ctx := if context.Some? then context.value else map[];
    SummarizationConfig(
      EnvSetting(env, "BONESAW_LLM_PROVIDER"),
      EnvSetting(env, "BONESAW_LLM_API_KEY"),
      EnvSetting(env, "BONESAW_LLM_MODEL"),
      Truthy(Get(ctx, "use_llm")))
  }

  /** Python's truthiness of an optional string. */
  predicate Set(o: Option<string>) {
    o.Some? && o.value != ""
  }

  /** `llm_enabled(config)`. */
  predicate LlmEnabled(c: SummarizationConfig) {
    c.useLlmFlag && Set(c.provider) && Set(c.model) && Set(c.apiKey)
  }

  /** The model is used exactly when the context asks for it and all three
      environment variables are set to non-empty values. */
  lemma LlmEnabledFromEnv(context: Option<Context>, env: map<string, string>)
    ensures LlmEnabled(GetConfig(context, env)) <==>
              (context.Some? && "use_llm" in context.value && Truthy(context.value["use_llm"])) &&
              (forall name :: name in {"BONESAW_LLM_PROVIDER", "BONESAW_LLM_MODEL", "BONESAW_LLM_API_KEY"} ==>
                 name in env && env[name] != "")
  {
    var c := GetConfig(context, env);
    var names := {"BONESAW_LLM_PROVIDER", "BONESAW_LLM_MODEL", "BONESAW_LLM_API_KEY"};
    if LlmEnabled(c) {
      forall name | name in names ensures name in env && env[name] != "" {
        assert name == "BONESAW_LLM_PROVIDER" || name == "BONESAW_LLM_MODEL" || name == "BONESAW_LLM_API_KEY";
      }
    } else if forall name :: name in names ==> name in env && env[name] != "" {
      assert "BONESAW_LLM_PROVIDER" in names && "BONESAW_LLM_MODEL" in names && "BONESAW_LLM_API_KEY" in names;
    }
  }

  /** What every `summarize_*` function does once the template summary is
      built: without the model it is the answer; with it, the model's text
      follows a rule; when the call raises, the template alone again. */
  function WithLlm(base: string, config: SummarizationConfig, llm: Result<string, string>): (r: string)
    ensures !LlmEnabled(config) || llm.Failure? ==> r == base
    ensures LlmEnabled(config) && llm.Success? ==> r == base + "\n\n---\n\n" + llm.value
  {
    if !LlmEnabled(config) then base
    else
      match llm
      case Success(text) => base + "\n\n---\n\n" + text
      case Failure(_) => base
  }

  /** The template summary is always kept in full at the front. */
  lemma TemplateAlwaysFirst(base: string, config: SummarizationConfig, llm: Result<string, string>)
    ensures base <= WithLlm(base, config, llm)
    ensures WithLlm(base, config, llm) != base ==> LlmEnabled(config) && llm.Success?
  {
  }

  // ---------------------------------------------------------------------------
  // template_log_summary
  // ---------------------------------------------------------------------------

  /** The level listed first by a stable sort of `by_level` on count,
      largest first, or "UNKNOWN" when there are no levels: the first level
      with the largest count. */
  function DominantLevel(byLevel: seq<(string, nat)>): (r: string)
    ensures |byLevel| == 0 ==> r == "UNKNOWN"
    ensures |byLevel| > 0 ==>
              exists g :: 0 <= g < |byLevel| && r == byLevel[g].0 &&
                (forall h :: 0 <= h < |byLevel| ==> byLevel[h].1 <= byLevel[g].1) &&
                (forall h :: 0 <= h < g ==> byLevel[h].1 < byLevel[g].1)
  {
    if |byLevel| == 0 then "UNKNOWN"
    else
      SortHeadIsFirstMax(byLevel);
      var g := FirstMax(byLevel);
      assert SortByCountDesc(byLevel)[0].0 == byLevel[g].0;
      SortByCountDesc(byLevel)[0].0
  }

  /** One sample bullet: the level, the timestamp and the first 120
      characters of the message. */
  function LogSampleLine(e: LogEntry): string {
    "- [" + e.level + "] " + e.timestamp + ": " + TakeFirst(e.message, 120)
  }

  function LogTotalLine(stats: LogStats): string {
    "The system emitted " + NatToString(stats.total) + " log entries across " +
    NatToString(|stats.byLevel|) + " levels."
  }

  function DominantLine(byLevel: seq<(string, nat)>): string {
    "The dominant level appears to be " + DominantLevel(byLevel) + "."
  }

  function ErrorLine(n: nat): string {
    "There are " + NatToString(n) + " ERROR-level events that may need attention."
  }

  /** The lines over the samples: the totals, the dominant level, and the
      ERROR line exactly when "ERROR" is one of the levels. */
  function LogHead(stats: LogStats): (r: seq<string>)
    ensures |r| == if HasLevel(stats.byLevel, "ERROR") then 3 else 2
    ensures r[0] == LogTotalLine(stats) && r[1] == DominantLine(stats.byLevel)
    ensures HasLevel(stats.byLevel, "ERROR") ==> r[2] == ErrorLine(LevelCount(stats.byLevel, "ERROR"))
  {
    [LogTotalLine(stats), DominantLine(stats.byLevel)] +
    (if HasLevel(stats.byLevel, "ERROR") then [ErrorLine(LevelCount(stats.byLevel, "ERROR"))] else [])
  }

  /** A heading over at most three sample bullets, or nothing when there
      are no entries. */
  function LogSamples(logs: seq<LogEntry>): (r: seq<string>)
    ensures |logs| == 0 ==> r == []
    ensures |logs| > 0 ==>
              |r| == 1 + |TakeFirst(logs, 3)| && r[0] == "Recent notable entries:" &&
              forall i :: 0 <= i < |TakeFirst(logs, 3)| ==> r[1 + i] == LogSampleLine(logs[i])
  {
    if |logs| > 0 then ["Recent notable entries:"] + Map(TakeFirst(logs, 3), LogSampleLine) else []
  }

  /** The lines `template_log_summary` joins with newlines. */
  function TemplateLogLines(stats: LogStats): seq<string> {
    LogHead(stats) + LogSamples(stats.logs)
  }

  /** The head of the log summary: the totals, the dominant level, and an
      ERROR line exactly when "ERROR" is one of the levels. */
  lemma LogLinesHead(stats: LogStats)
    ensures var r := TemplateLogLines(stats);
            |r| >= 2 && r[0] == LogTotalLine(stats) && r[1] == DominantLine(stats.byLevel) &&
            (HasLevel(stats.byLevel, "ERROR") <==> |r| > 2 && r[2] == ErrorLine(LevelCount(stats.byLevel, "ERROR")))
  {
    var head := LogHead(stats);
    var tail := LogSamples(stats.logs);
    var r := head + tail;
    assert |tail| > 0 ==> r[|head|] == tail[0];
    HeadingIsNotErrorLine(LevelCount(stats.byLevel, "ERROR"));
  }

  /** The samples of the log summary: when there are entries, a heading
      over at most three sample bullets ends the summary, after the ERROR
      line if there is one. */
  lemma LogLinesSamples(stats: LogStats)
    ensures var r := TemplateLogLines(stats);
            var samples := TakeFirst(stats.logs, 3);
            var e := if HasLevel(stats.byLevel, "ERROR") then 1 else 0;
            |r| == 2 + e + (if |samples| > 0 then 1 + |samples| else 0) &&
            (|samples| > 0 ==> r[2 + e] == "Recent notable entries:") &&
            forall i :: 0 <= i < |samples| ==> r[3 + e + i] == LogSampleLine(stats.logs[i])
  {
    var head := LogHead(stats);
    var tail := LogSamples(stats.logs);
    assert |head| == 2 + if HasLevel(stats.byLevel, "ERROR") then 1 else 0;
    ConcatTail(head, tail);
  }

  /** Indexing past the first part of a concatenation reads the second. */
  lemma ConcatTail(head: seq<string>, tail: seq<string>)
    ensures forall i :: 0 <= i < |tail| ==> (head + tail)[|head| + i] == tail[i]
  {
  }

  /** The sample heading cannot be mistaken for the ERROR line. */
  lemma HeadingIsNotErrorLine(n: nat)
    ensures "Recent notable entries:" != ErrorLine(n)
  {
    assert ErrorLine(n)[0] == 'T';
  }

  /** `template_log_summary(stats)`. */
  function TemplateLogSummary(stats: LogStats): string {
    Join(TemplateLogLines(stats), "\n")
  }

  /** On the statistics the aggregation step produces: the first line
      reports the number of entries and of distinct levels, and the ERROR
      line appears exactly when some entry is at level ERROR, reporting how
      many are. */
  lemma LogSummaryOfAggregate(logs: seq<LogEntry>, ctx: Context)
    ensures var stats := Aggregate(logs, ctx).0;
            var lines := TemplateLogLines(stats);
            var errors := |Filter(Map(logs, Level), HasKey(Same, "ERROR"))|;
            lines[0] == "The system emitted " + NatToString(|logs|) + " log entries across " +
                        NatToString(|KeysInOrder(Map(logs, Level), Same)|) + " levels." &&
            ((exists i :: 0 <= i < |logs| && logs[i].level == "ERROR") <==> |lines| > 2 && lines[2] == ErrorLine(errors))
  {
    var stats := Aggregate(logs, ctx).0;
    LogLinesHead(stats);
    ByLevelListsLevels(logs, "ERROR");
    LevelCountIsOccurrences(logs, "ERROR");
  }

  /** `summarize_logs(stats, context)`. */
  function SummarizeLogs(stats: LogStats, context: Option<Context>, env: map<string, string>,
                         llm: Result<string, string>): string {
    WithLlm(TemplateLogSummary(stats), GetConfig(context, env), llm)
  }

  // ---------------------------------------------------------------------------
  // template_feed_summary
  // ---------------------------------------------------------------------------

  /** `e.get("feed_title") or "Unknown Feed"`: the key an entry is counted
      under. */
  function FeedName(e: Dict): Value {
    OrElse(Get(e, "feed_title"), Str("Unknown Feed"))
  }

  /** The `counts` dict: each feed name (compared as Python compares dict
      keys) with its number of entries, in first-appearance order, the name
      shown being the first one inserted. */
  function FeedCounts(entries: seq<Dict>): seq<(Value, nat)> {
    Tally(Map(entries, FeedName), Canon)
  }

  /** `sorted(counts.items(), key=count, reverse=True)[:3]`. */
  function TopFeeds(entries: seq<Dict>): seq<(Value, nat)> {
    TakeFirst(SortByCountDesc(FeedCounts(entries)), 3)
  }

  /** The counts add up to the number of entries, and an entry without a
      title, or with an empty one, is counted under "Unknown Feed". */
  lemma FeedCountsSum(entries: seq<Dict>, e: Dict)
    ensures SumCounts(FeedCounts(entries)) == |entries|
    ensures !Truthy(Get(e, "feed_title")) ==> FeedName(e) == Str("Unknown Feed")
    ensures CountOf(FeedCounts(entries), Canon, Str("Unknown Feed")) ==
            |Filter(Map(entries, FeedName), HasKey(Canon, Str("Unknown Feed")))|
  {
    TallySum(Map(entries, FeedName), Canon);
    TallyCountOf(Map(entries, FeedName), Canon, Str("Unknown Feed"));
  }

  /** The listed sources: at most three, counts never increasing, each one
      a counted feed, the first being the first feed with the largest
      count. */
  lemma TopFeedsShape(entries: seq<Dict>)
    ensures var counts := FeedCounts(entries);
            var top := TopFeeds(entries);
            |top| == (if |counts| <= 3 then |counts| else 3) &&
            NonIncreasing(top) &&
            (forall i :: 0 <= i < |top| ==> top[i] in counts) &&
            (|counts| > 0 ==> top[0] == counts[FirstMax(counts)])
  {
    TopOfSorted(FeedCounts(entries), 3);
  }

  /** Every feed left off the list has no more entries than the last one
      on it. */
  lemma TopFeedsAreTop(entries: seq<Dict>, p: (Value, nat))
    requires p in FeedCounts(entries) && p !in TopFeeds(entries)
    ensures |TopFeeds(entries)| > 0 && p.1 <= TopFeeds(entries)[|TopFeeds(entries)| - 1].1
  {
    LeftOutOfTop(FeedCounts(entries), 3, p);
  }

  /** `"{name} ({count})"`. */
  function FeedCountText(p: (Value, nat)): string {
    Show(p.0) + " (" + NatToString(p.1) + ")"
  }

  /** One sample bullet, `f"- {feed_title}: {entry_title[:120]}"`; slicing
      a title that is not a string raises TypeError. */
  function FeedSampleLine(e: Dict): (r: Result<string, PyError>)
    ensures r.Success? <==> GetOr(e, "entry_title", Str("Untitled")).Str?
  {
    var title := GetOr(e, "entry_title", Str("Untitled"));
    if !title.Str? then Failure(TypeError("object is not subscriptable"))
    else Success("- " + Show(GetOr(e, "feed_title", Str("Unknown Feed"))) + ": " + TakeFirst(title.s, 120))
  }

  /** The sample bullets in order, or the first error. */
  function FeedSampleLines(es: seq<Dict>): (r: Result<seq<string>, PyError>)
    ensures r.Success? <==> forall i :: 0 <= i < |es| ==> FeedSampleLine(es[i]).Success?
    ensures r.Success? ==>
              |r.value| == |es| && forall i :: 0 <= i < |es| ==> r.value[i] == FeedSampleLine(es[i]).value
  {
    if |es| == 0 then Success([])
    else
      match FeedSampleLine(es[0])
      case Failure(e) => Failure(e)
      case Success(line) =>
        match FeedSampleLines(es[1..])
        case Failure(e) => Failure(e)
        case Success(rest) =>
          assert forall i :: 1 <= i < |es| ==> es[i] == es[1..][i - 1];
          Success([line] + rest)
  }

  const NoEntries := "No entries were found in the configured feeds."

  /** The sample bullets fail exactly when one of the first three entries
      has a title that is not a string. */
  lemma FeedSamplesFail(entries: seq<Dict>)
    ensures FeedSampleLines(TakeFirst(entries, 3)).Failure? <==>
              exists i :: 0 <= i < |entries| && i < 3 && !GetOr(entries[i], "entry_title", Str("Untitled")).Str?
  {
    var samples := TakeFirst(entries, 3);
    assert forall i :: 0 <= i < |samples| ==> samples[i] == entries[i];
  }

  /** The three lines over the samples: the totals, the most active
      sources, and the heading. */
  function FeedHead(entries: seq<Dict>): (r: seq<string>)
    ensures |r| == 3
    ensures r[0] == "Collected " + NatToString(|entries|) + " entries from " + NatToString(|FeedCounts(entries)|) + " feeds."
    ensures r[1] == "The most active sources include: " + Join(Map(TopFeeds(entries), FeedCountText), ", ") + "."
    ensures r[2] == "Sample entries:"
  {
    ["Collected " + NatToString(|entries|) + " entries from " + NatToString(|FeedCounts(entries)|) + " feeds.",
     "The most active sources include: " + Join(Map(TopFeeds(entries), FeedCountText), ", ") + ".",
     "Sample entries:"]
  }

  /** Every listed source appears, with its count, on the second line. */
  lemma FeedHeadNamesTop(entries: seq<Dict>)
    ensures forall i :: 0 <= i < |TopFeeds(entries)| ==>
              Contains(FeedHead(entries)[1], FeedCountText(TopFeeds(entries)[i]))
  {
    JoinInLine("The most active sources include: ", Map(TopFeeds(entries), FeedCountText), ", ", ".");
  }

  /** The lines `template_feed_summary` joins with newlines: a fixed
      sentence for no entries; otherwise the totals, the most active
      sources, and a heading over the first (at most) three entries. It
      raises when one of those three has a title that is not a string. */
  function TemplateFeedLines(entries: seq<Dict>): (r: Result<seq<string>, PyError>)
    ensures |entries| == 0 ==> r == Success([NoEntries])
    ensures r.Failure? <==>
              exists i :: 0 <= i < |entries| && i < 3 && !GetOr(entries[i], "entry_title", Str("Untitled")).Str?
    ensures |entries| > 0 && r.Success? ==>
              r.value == FeedHead(entries) + FeedSampleLines(TakeFirst(entries, 3)).value
  {
    FeedSamplesFail(entries);
    if |entries| == 0 then Success([NoEntries])
    else
      match FeedSampleLines(TakeFirst(entries, 3))
      case Failure(e) => Failure(e)
      case Success(lines) => Success(FeedHead(entries) + lines)
  }

  /** `template_feed_summary(entries)`. */
  function TemplateFeedSummary(entries: seq<Dict>): Result<string, PyError> {
    match TemplateFeedLines(entries)
    case Failure(e) => Failure(e)
    case Success(lines) => Success(Join(lines, "\n"))
  }

  /** `summarize_feeds(entries, context)`: the template summary is built
      before the guarded model call, so its error escapes. */
  function SummarizeFeeds(entries: seq<Dict>, context: Option<Context>, env: map<string, string>,
                          llm: Result<string, string>): (r: Result<string, PyError>)
    ensures r.Success? <==> TemplateFeedSummary(entries).Success?
    ensures r.Success? && !LlmEnabled(GetConfig(context, env)) ==> r.value == TemplateFeedSummary(entries).value
    ensures |entries| == 0 && !LlmEnabled(GetConfig(context, env)) ==> r == Success(NoEntries)
  {
    match TemplateFeedSummary(entries)
    case Failure(e) => Failure(e)
    case Success(base) => Success(WithLlm(base, GetConfig(context, env), llm))
  }

  // ---------------------------------------------------------------------------
  // summarize_text
  // ---------------------------------------------------------------------------

  /** A sample line as shown: cut to 100 characters followed by "..." when
      longer than that. */
  function Display(line: string): (r: string)
    ensures |line| <= 100 ==> r == line
    ensures |line| > 100 ==> |r| == 103 && r[..100] == line[..100] && r[100..] == "..."
  {
    if |line| > 100 then line[..100] + "..." else line
  }

  function TextSampleLine(line: string): string {
    "  - " + Display(line)
  }

  const TextClosing := "The transformed text has been captured in the spectral realm of the pipeline... \U{1F47B}"

  /** The lines of the template part of `summarize_text`: the line count, a
      heading over at most three sample lines when there are any, and a
      closing sentence. */
  function TemplateTextLines(lines: seq<string>): (r: seq<string>)
    ensures var samples := TakeFirst(lines, 3);
            |r| == 2 + (if |samples| > 0 then 1 + |samples| else 0) &&
            r[0] == "The pipeline processed " + NatToString(|lines|) + " lines of text." &&
            r[|r| - 1] == TextClosing &&
            (|samples| > 0 ==> r[1] == "Sample lines:") &&
            forall i :: 0 <= i < |samples| ==> r[2 + i] == TextSampleLine(lines[i])
  {
    var samples := TakeFirst(lines, 3);
    assert forall i :: 0 <= i < |samples| ==> samples[i] == lines[i];
    ["The pipeline processed " + NatToString(|lines|) + " lines of text."] +
    (if |samples| > 0 then ["Sample lines:"] + Map(samples, TextSampleLine) else []) +
    [TextClosing]
  }

  /** `summarize_text(lines, context)`. */
  function SummarizeText(lines: seq<string>, context: Option<Context>, env: map<string, string>,
                         llm: Result<string, string>): string {
    WithLlm(Join(TemplateTextLines(lines), "\n"), GetConfig(context, env), llm)
  }

  /** Without `use_llm` in the context the model is never consulted and
      every summary is its template. */
  lemma NoFlagNoModel(context: Option<Context>, env: map<string, string>, llm: Result<string, string>,
                      stats: LogStats, lines: seq<string>)
    requires context.None? || "use_llm" !in context.value || !Truthy(context.value["use_llm"])
    ensures !LlmEnabled(GetConfig(context, env))
    ensures SummarizeLogs(stats, context, env, llm) == TemplateLogSummary(stats)
    ensures SummarizeText(lines, context, env, llm) == Join(TemplateTextLines(lines), "\n")
  {
  }

  // ---------------------------------------------------------------------------
  // The summary steps of the two applications
  // ---------------------------------------------------------------------------

  const AiSummaryHeading := "\n## \U{1F52E} AI Summary\n\n"
  const OverviewHeading := "\n## \U{1F9D9} Necromancer's Overview\n\n"

  /** `LogLLMSummaryStep.run`: the statistics pass through, the summary is
      recorded as `llm_summary`, and the text appended to the report is the
      heading, the summary and a newline, the template summary always
      leading it. */
  function LogSummaryStep(stats: LogStats, ctx: Context, env: map<string, string>, llm: Result<string, string>)
    : (r: (LogStats, Context, string))
    ensures r.0 == stats
    ensures r.1 == ctx["llm_summary" := Str(SummarizeLogs(stats, Some(ctx), env, llm))]
    ensures r.2 == AiSummaryHeading + SummarizeLogs(stats, Some(ctx), env, llm) + "\n"
    ensures AiSummaryHeading + TemplateLogSummary(stats) <= r.2
  {
    var text := SummarizeLogs(stats, Some(ctx), env, llm);
    TemplateAlwaysFirst(TemplateLogSummary(stats), GetConfig(Some(ctx), env), llm);
    (stats, ctx["llm_summary" := Str(text)], AiSummaryHeading + text + "\n")
  }

  /** `FeedLLMSummaryStep.run`: the entries pass through, the overview is
      recorded as `llm_overview`, and the text appended to the grimoire is
      the heading, the overview and a newline; an error of the template
      summary escapes before anything is written. */
  function FeedSummaryStep(entries: seq<Dict>, ctx: Context, env: map<string, string>, llm: Result<string, string>)
    : (r: Result<(seq<Dict>, Context, string), PyError>)
    ensures r.Success? <==> TemplateFeedSummary(entries).Success?
    ensures r.Success? ==>
              var text := SummarizeFeeds(entries, Some(ctx), env, llm).value;
              r.value == (entries, ctx["llm_overview" := Str(text)], OverviewHeading + text + "\n") &&
              OverviewHeading + TemplateFeedSummary(entries).value <= r.value.2
  {
    match SummarizeFeeds(entries, Some(ctx), env, llm)
    case Failure(e) => Failure(e)
    case Success(text) =>
      TemplateAlwaysFirst(TemplateFeedSummary(entries).value, GetConfig(Some(ctx), env), llm);
      Success((entries, ctx["llm_overview" := Str(text)], OverviewHeading + text + "\n"))
  }
}
