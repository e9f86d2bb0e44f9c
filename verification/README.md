# bonesaw in Dafny

This project models the core of bonesaw, a small Python framework for
"skeleton" pipelines. A pipeline is a named, ordered list of steps. One data
value and one shared context dict are threaded through the steps. The model
covers five parts:

- **Engine** (`pipeline.dfy`): the pipeline engine. It runs steps left to
  right and stops at the first step that raises. The failure is wrapped with
  the pipeline name, the 1-based position, the step count and the step's
  class name. The loop is proved against a reference nested application,
  `Compose`.
- **Config** (`config.dfy`): the step registry and the config-driven
  builder. Problems are checked in a fixed order: `pipeline`, then `steps`,
  then each entry's `type`, registration and construction, each reported
  with its 1-based position.
- **Cache** (`cache.dfy`): the TTL cache decorator as a state machine over
  an explicit store and an integer clock. It also covers `clear_cache` and
  `cache_stats`.
- **Summaries** (`summaries.dfy`): the deterministic template summaries, and
  how the optional language-model answer is appended to them.
- **The steps of the two example applications and the generic steps**:
  - `logs.dfy`: Haunted Log Cleaner. Parsing against the fixed line format,
    redaction counting, per-level aggregation and the markdown report.
  - `feeds.dfy`: Graveyard Feed Reviver. URL-line filtering, entry
    normalisation, and the markdown grimoire grouped by feed.
  - `textops.dfy`: grep, split and join lines.
  - `dataops.dfy`: field filtering, markdown entry lists, and CSV output.

Shared vocabulary:

- `wrappers.dfy`: `Option` and `Result`.
- `values.dfy`: Python scalars with their `str()`, truthiness and dict-key
  equality.
- `text.dfy`: string helpers such as strip, split, join, integer formatting
  and lexicographic order.
- `seqs.dfy`: sequence helpers such as filter, map, group-by in
  first-appearance order, counting and a stable sort by count.

The context dict is a `map<string, Value>`. A step's `run` either returns
the next data value and the context it leaves, or raises. Files, the
network, the environment, the clock and the language model are all
parameters (see "Left out").

## Model

| member | source | states |
|---|---|---|
| Engine.NewPipeline | skeleton_core/pipeline.py:46-55 | The steps are kept as given. A missing or empty name becomes "unnamed_pipeline" and any other name is kept, so a pipeline's name is never empty. |
| Engine.Compose | skeleton_core/pipeline.py:78-103 | The reference semantics: the last step applied to what the earlier steps produced. A stop always names a step inside the list. |
| Engine.Calls | skeleton_core/pipeline.py:81-87 | The inputs the steps were called with. There is at most one call per step. |
| Engine.ComposeAppend | skeleton_core/pipeline.py:81-87 | Running `a + b` means running `a` and, if it completed, running `b` on its output and context. A stop inside `b` is reported after `a`'s steps. |
| Engine.StopIgnoresLaterSteps | skeleton_core/pipeline.py:91-100 | Once a step raises, no later step matters: appending steps does not change the outcome. |
| Engine.CallsCount | skeleton_core/pipeline.py:81-100 | All n steps are called when the run completes. When the step at 0-based index i raises, exactly steps 1..i+1 are called. |
| Engine.CallsChain | skeleton_core/pipeline.py:81-87 | The first step sees the initial data and context. Every later step sees exactly the data and shared context the previous step returned. The last call produced the outcome. |
| Engine.Run | skeleton_core/pipeline.py:57-103 | The engine's loop agrees with Compose. A missing context starts as an empty map. An empty step list returns the initial data unchanged. A failure carries the pipeline name, the 1-based position, the step count, the failing step's class name and the cause. |
| Engine.FirstStepSeesEmptyContext | skeleton_core/pipeline.py:72-73 | Without a caller context, the first step is called with an empty map. |
| Engine.Message | skeleton_core/pipeline.py:91-100 | The wrapped error's message names the pipeline, the failing step's 1-based position over the step count as "i/n", the step's class and the cause. |
| Engine.WorkedExamples | tests/test_pipeline_core.py:29-48 | [AddOne, MultiplyByTwo] on 3 gives 8, and [AddOne] on 5 with no context gives 6. |
| Config.Register | skeleton_core/config.py:44-53 | A fresh name adds exactly that entry and leaves every other entry unchanged. A taken name fails with an error naming both classes and leaves the registry untouched. |
| Config.RegisterCommutes | skeleton_core/config.py:44-53 | Registrations under distinct names commute, so import order does not matter. |
| Config.RegisterMessage | skeleton_core/config.py:45-50 | The duplicate-registration message names the step, the existing class and the new class. |
| Config.Params | skeleton_core/config.py:138 | The constructor receives exactly the entry's keys minus `type`, with their values. |
| Config.BuildStep | skeleton_core/config.py:115-148 | Three failures are told apart: a missing `type`, an unregistered type (reported with all registered names in strictly ascending order) and a refused construction (a TypeError, reported with the type and the position). Any other constructor exception escapes unchanged. A built step carries the class name and what the constructor made from the parameters. |
| Config.InitBuilds | skeleton_core/config.py:115-148 | Whether an entry of a prefix builds does not depend on the entries after it. |
| Config.InitFailure | skeleton_core/config.py:115-148 | A failure of a prefix's build is a failure at some entry of the whole list, with every earlier entry building. |
| Config.BuildSteps | skeleton_core/config.py:115-148 | The build succeeds iff every entry builds, giving one step per entry in config order. Otherwise it reports the error of the first entry that does not build. |
| Config.ResolveName | skeleton_core/config.py:109 | A non-empty string name is kept. A missing or falsy name becomes "unnamed_pipeline". The result is never empty. |
| Config.Build | skeleton_core/config.py:78-154 | A missing `pipeline` fails first, then a missing `steps`. A success holds one step per entry in config order, each of the registered class, under the resolved name. The build succeeds iff every entry builds: a failure is the first failing entry's error, and a success holds exactly the steps built from the entries. |
| Config.MissingTypeStopsBuild | skeleton_core/config.py:119-123 | The first entry lacking `type` (1-based position p) fails the build with an error naming p, and later entries are not examined. |
| Config.Available | skeleton_core/config.py:128-133 | The list of available names is the registered names joined with ", ", and it mentions each of them. When that text is empty (no names, or the single name "") it reads "(none registered)" instead. |
| Text.JoinContainsParts | skeleton_core/config.py:130 | A joined text contains each of its parts. |
| Config.BuildMessage | skeleton_core/config.py:105-148 | Each build error's message names what failed: "pipeline", "steps", the position and "type", or the type, the position and the cause. |
| Config.UnknownTypeMessage | skeleton_core/config.py:128-133 | The unknown-type message contains "Unknown step type", the identifier, its position and every registered name. With no names, or only the name "", it contains "(none registered)". |
| Config.UnknownTypeHead | skeleton_core/config.py:129-131 | The head of the unknown-type message contains "Unknown step type", the identifier and its position. |
| Cache.PublicAttrs | skeleton_core/cache.py:68-71 | Exactly the attributes whose name does not start with `_` take part in the key, with their values. |
| Cache.Items | skeleton_core/cache.py:36-43 | The sorted items hold every attribute once, with its value, in strictly ascending name order. |
| Cache.ItemsComplete | skeleton_core/cache.py:36-43 | Every attribute appears among the sorted items. |
| Cache.SameItemsEntry | skeleton_core/cache.py:36-43 | Equal sorted items mean equal values for every attribute. |
| Cache.ItemsInjective | skeleton_core/cache.py:36-43 | The sorted items determine the attributes, so attribute order does not matter. |
| Cache.KeyOfExactly | skeleton_core/cache.py:67-83 | Two calls share a key iff they have the same class name, the same data text and the same public attributes. |
| Cache.CachedRun | skeleton_core/cache.py:65-122 | The undecorated run is called iff there is no entry younger than the TTL. An entry exactly `ttl` old has expired. A hit leaves the store as it was, and it returns iff the file holds a complete pickle. |
| Cache.HitOnTruncatedRaises | skeleton_core/cache.py:88-98 | A hit on a file whose `pickle.dump` failed raises from `pickle.load`, with the context untouched. |
| Cache.HitServesStored | skeleton_core/cache.py:88-104 | A hit on a complete pickle returns the stored value and sets `cache_hit` to True and `cache_age` to the entry's age. |
| Cache.MissRaisedStoresNothing | skeleton_core/cache.py:109-111 | A miss whose run raises lets the exception escape and stores nothing. |
| Cache.MissReturnedStores | skeleton_core/cache.py:109-122 | A miss returns the run's result with `cache_hit` set to False. Under the call's key, stamped `now`, it stores the pickle when the write succeeds, nothing new when `open` fails, and an unreadable file when `pickle.dump` fails. Every other entry is unchanged. |
| Cache.WriteFailureInvisible | skeleton_core/cache.py:113-118 | A failed write never changes what the failing call itself returns. |
| Cache.DumpFailureSurfacesLater | skeleton_core/cache.py:88-118 | After a miss whose `pickle.dump` failed, the same call within the TTL runs nothing and raises from `pickle.load`. |
| Cache.OpenFailureRetries | skeleton_core/cache.py:88-118 | After a miss whose `open` failed, the next same call runs the step again. |
| Cache.MissThenHit | skeleton_core/cache.py:88-122 | A stored miss is served: the same call within the TTL is a hit that returns the stored result without running the step. |
| Cache.FaithfulPreserved | skeleton_core/cache.py:65-122 | With an injective data text and a step whose result does not depend on the context, every stored entry remains what the step returns for its key. |
| Cache.FaithfulTransparent | skeleton_core/cache.py:65-122 | Under the same conditions, the decorated call returns iff the undecorated one does and the call's fresh file, if any, is a complete pickle; what it returns is what the undecorated one returns. |
| Cache.StrKeyCollision | skeleton_core/cache.py:74-83 | A concrete case: keyed on `str(data)`, the result computed for the int 1 is served for the string "1", although the step answers differently for it. |
| Cache.TypedShowInjective | skeleton_core/cache.py:74-83 | A data text tagged with the value's type tells every two values apart. |
| Cache.TypedKeyTransparent | skeleton_core/cache.py:65-122 | Keyed on the typed text, decorated calls return only what the step itself returns for that data, and fail to return only when the step raises or the file is truncated. |
| Cache.ClearCache | skeleton_core/cache.py:130-151 | `clear_cache(None)` empties the store. `clear_cache(t)` removes exactly the entries older than t and leaves the rest as they were. |
| Cache.ClearIdempotent | skeleton_core/cache.py:141-149 | Clearing twice with the same age is clearing once. |
| Cache.OldestExists | skeleton_core/cache.py:179-187 | A non-empty set of entries has an oldest one. |
| Cache.NewestExists | skeleton_core/cache.py:179-187 | A non-empty set of entries has a newest one. |
| Cache.CacheStats | skeleton_core/cache.py:154-188 | The count is the number of entries. The ages are absent iff the store is empty. Otherwise the oldest and newest ages are ages of actual entries and bound every entry's age, with newest <= oldest. |
| Cache.ClearBoundsOldest | skeleton_core/cache.py:141-188 | After `clear_cache(t)` no remaining entry is older than t. |
| Logs.SpanFrom | apps/haunted_log_cleaner/pipelines.py:63-65 | A greedy run of characters of one class: every character in it belongs to the class, and the next one does not. |
| Logs.LogCuts | apps/haunted_log_cleaner/pipelines.py:63-65 | When the pattern's groups can be cut, the line starts with a date, whitespace and a time, followed by whitespace, a bracketed level, whitespace and a message. |
| Logs.TailCuts | apps/haunted_log_cleaner/pipelines.py:63-65 | The cut points after the timestamp delimit whitespace, a bracketed word, whitespace and a non-empty one-line message. |
| Logs.PrefixDateTime | apps/haunted_log_cleaner/pipelines.py:63-65 | The date and time patterns depend only on their own characters. |
| Logs.TimestampOf | apps/haunted_log_cleaner/pipelines.py:63-65 | The captured timestamp is itself a date followed by a time. |
| Logs.SliceAll | apps/haunted_log_cleaner/pipelines.py:63-65 | A slice of a run of one character class is still in that class. |
| Logs.SpanFromExact | apps/haunted_log_cleaner/pipelines.py:63-65 | The greedy span is the only span with those properties. |
| Logs.LayoutParts | apps/haunted_log_cleaner/pipelines.py:63-65 | Where each part of a laid-out log line sits. |
| Logs.CutsLayout | apps/haunted_log_cleaner/pipelines.py:63-65 | A cut line is the layout of its pieces. |
| Logs.MatchIsCuts | apps/haunted_log_cleaner/pipelines.py:63-89 | A match's fields are the pieces between the cut points. |
| Logs.CutsParts | apps/haunted_log_cleaner/pipelines.py:63-65 | The separators between the groups are non-empty whitespace. |
| Logs.CutFields | apps/haunted_log_cleaner/pipelines.py:63-89 | The fields of a cut line are a date-and-time timestamp, a word level, and a non-empty one-line message. |
| Logs.CutLayout | apps/haunted_log_cleaner/pipelines.py:63-89 | A cut line is exactly its fields joined by non-empty whitespace runs. |
| Logs.MatchFields | apps/haunted_log_cleaner/pipelines.py:63-89 | A matched line yields a date-and-time timestamp, a level of word characters, and a non-empty message without line breaks. |
| Logs.MatchLayout | apps/haunted_log_cleaner/pipelines.py:63-89 | A matched line is exactly timestamp, whitespace, `[level]`, whitespace, message. |
| Logs.FormatHead | apps/haunted_log_cleaner/pipelines.py:63-65 | A formatted well-formed entry starts with its date and time. |
| Logs.FormatChars | apps/haunted_log_cleaner/pipelines.py:63-65 | The characters of a formatted entry, position by position. |
| Logs.FormatSpans | apps/haunted_log_cleaner/pipelines.py:63-65 | The whitespace and word spans of a formatted entry end where the layout says. |
| Logs.FormatTail | apps/haunted_log_cleaner/pipelines.py:63-65 | The tail of a formatted entry is cut at the layout's positions. |
| Logs.FormatCuts | apps/haunted_log_cleaner/pipelines.py:63-65 | A formatted entry is cut exactly at the layout's positions. |
| Logs.FormatThenMatch | apps/haunted_log_cleaner/pipelines.py:63-89 | Round trip: a well-formed entry written as `timestamp [LEVEL] message` is stripped and parses back to the same entry. |
| Logs.LatinLevelMatches | apps/haunted_log_cleaner/pipelines.py:63-65 | `\w` admits Latin-1 letters: the line "2024-01-01 12:00:00 [ÉRROR] x" parses with level "ÉRROR". |
| Logs.ParseLine | apps/haunted_log_cleaner/pipelines.py:75-89 | A line is ignored as blank iff it is all whitespace. |
| Logs.ParsedPlusSkipped | apps/haunted_log_cleaner/pipelines.py:75-92 | parsed_count + skipped_count equals the number of non-blank lines. |
| Logs.ParsedFromLines | apps/haunted_log_cleaner/pipelines.py:75-89 | Every parsed entry comes from some input line that parses to it. |
| Logs.ParseLogs | apps/haunted_log_cleaner/pipelines.py:67-96 | The step's loop yields the parsed entries in input order and records `parsed_count` and `skipped_count`, which together count the non-blank lines. |
| Logs.AnonymizeLogs | apps/haunted_log_cleaner/pipelines.py:114-138 | The same number of entries in the same order. Timestamp and level are kept and only the message is redacted. The count is the number of messages that changed. |
| Logs.NothingToRedact | apps/haunted_log_cleaner/pipelines.py:121-135 | The count is zero iff no message changes, and then the entries come back unchanged. The count never exceeds the number of entries. |
| Logs.Aggregate | apps/haunted_log_cleaner/pipelines.py:151-173 | `total` is the number of entries and equals the sum of the per-level counts. The entries pass through. `error_count` is the number of ERROR entries. |
| Logs.LevelCountIsOccurrences | apps/haunted_log_cleaner/pipelines.py:158-165 | Each level's count is the number of entries at that level. |
| Logs.ByLevelListsLevels | apps/haunted_log_cleaner/pipelines.py:158-165 | `by_level` lists each level once, and exactly the levels some entry has. |
| Logs.LevelRows | apps/haunted_log_cleaner/pipelines.py:216-218 | One table row per level, the levels in ascending order, each row showing its count. |
| Logs.Sections | apps/haunted_log_cleaner/pipelines.py:202-229 | Where each part of the report sits once the parts are laid end to end. |
| Logs.ReportFront | apps/haunted_log_cleaner/pipelines.py:202-215 | The report's title block, whose fifth line gives the total. |
| Logs.ReportLines | apps/haunted_log_cleaner/pipelines.py:202-229 | The report shows the total, then a row per level in sorted order, then the first (at most) five entries as samples, and ends with an empty line. |
| Logs.WriteReport | apps/haunted_log_cleaner/pipelines.py:195-238 | The statistics pass through unchanged and `report_path` is recorded. The text is the report lines joined by newlines. |
| Summaries.GetConfig | skeleton_core/summarization.py:31-52 | The flag is set iff the context's `use_llm` is truthy. Each setting is present iff its environment variable is set and non-empty. |
| Summaries.LlmEnabledFromEnv | skeleton_core/summarization.py:55-65 | The model is used iff the context asks for it and all three environment variables are non-empty. |
| Summaries.WithLlm | skeleton_core/summarization.py:273-305 | The model's answer is appended after a rule only when the model is enabled and answers. Otherwise the template stands alone. |
| Summaries.TemplateAlwaysFirst | skeleton_core/summarization.py:273-308 | The template summary always leads the result. The result differs from it only when the model was enabled and answered. |
| Summaries.DominantLevel | skeleton_core/summarization.py:78-81 | The dominant level is "UNKNOWN" when there are no levels. Otherwise it is the first level with the largest count. |
| Summaries.LogHead | skeleton_core/summarization.py:91-99 | The totals line and the dominant-level line, plus an ERROR line iff ERROR is a level, reporting its count. |
| Summaries.LogSamples | skeleton_core/summarization.py:82-89 | No entries give no sample section. Otherwise a heading is followed by one bullet for each of the first (at most) three entries. |
| Summaries.LogLinesHead | skeleton_core/summarization.py:91-103 | The log summary starts with the totals and the dominant level. An ERROR line follows iff ERROR is one of the levels. |
| Summaries.LogLinesSamples | skeleton_core/summarization.py:82-103 | The summary has at most three sample bullets, in entry order, under a heading that appears iff there are entries. |
| Summaries.HeadingIsNotErrorLine | skeleton_core/summarization.py:96-103 | The sample heading is never mistaken for the ERROR line. |
| Summaries.LogSummaryOfAggregate | skeleton_core/summarization.py:68-105 | On aggregated logs, the first line reports the number of entries and of distinct levels. The ERROR line appears iff some entry is at level ERROR, with their number. |
| Summaries.FeedCountsSum | skeleton_core/summarization.py:122-127 | The feed counts add up to the number of entries. A missing or empty title is counted under "Unknown Feed". |
| Summaries.TopFeedsShape | skeleton_core/summarization.py:122-142 | At most three sources are listed, with counts never increasing, each a counted feed, and the first is the first feed with the largest count. |
| Summaries.TopFeedsAreTop | skeleton_core/summarization.py:127 | Every feed left off the list has no more entries than the last one listed. |
| Summaries.FeedSampleLine | skeleton_core/summarization.py:130-134 | A sample bullet fails iff the entry title is not a string, because it cannot be sliced. |
| Summaries.FeedSampleLines | skeleton_core/summarization.py:130-134 | The bullets, one per entry in order, or the first error. |
| Summaries.FeedSamplesFail | skeleton_core/summarization.py:130-134 | The samples fail iff one of the first three entries has a non-string title. |
| Summaries.FeedHead | skeleton_core/summarization.py:136-146 | The three lines above the samples: the entry total and the number of distinct feeds (FeedCounts), the "most active sources" line built from the top feeds, then the "Sample entries:" heading. |
| Summaries.FeedHeadNamesTop | skeleton_core/summarization.py:140-142 | Every one of the (at most three) most active sources appears on the second line with its count. |
| Summaries.TemplateFeedLines | skeleton_core/summarization.py:108-148 | No entries give the fixed "No entries were found in the configured feeds." line. Otherwise the head is followed by the samples. The summary fails exactly on a non-string title among the first three entries. |
| Summaries.SummarizeFeeds | skeleton_core/summarization.py:396-450 | The template's error escapes. Without the model the result is the template, and no entries give the fixed sentence. |
| Summaries.Display | skeleton_core/summarization.py:338-341 | A line longer than 100 characters shows as its first 100 and "...". A shorter line is unchanged. |
| Summaries.TemplateTextLines | skeleton_core/summarization.py:329-347 | The line count, a heading over at most three sample lines when there are any, and a closing sentence. |
| Summaries.NoFlagNoModel | skeleton_core/summarization.py:255-393 | Without `use_llm` the model is never consulted, and the log and text summaries are exactly their templates. |
| Summaries.LogSummaryStep | apps/haunted_log_cleaner/pipelines.py:263-281 | The statistics pass through and the summary is recorded as `llm_summary`. The appended text is the heading, the summary and a newline, and the template summary always leads it. |
| Summaries.FeedSummaryStep | apps/graveyard_feed_reviver/pipelines.py:276-294 | The entries pass through and the overview is recorded as `llm_overview`. The appended text starts with the heading and the template summary. An error of the template escapes. |
| Feeds.LoadFeedUrls | apps/graveyard_feed_reviver/pipelines.py:39-54 | The step's loop gives the stripped, non-empty, non-comment lines in file order, and records their number as `url_count`. |
| Feeds.FeedUrlsMembers | apps/graveyard_feed_reviver/pipelines.py:43-51 | A URL is returned iff it is a non-empty, non-`#` stripped input line. The result is a subsequence of the stripped lines. |
| Feeds.NormalizeEntry | apps/graveyard_feed_reviver/pipelines.py:126-136 | A normalised entry has exactly the five fields, each the entry's value or its default. |
| Feeds.NormalizeEntries | apps/graveyard_feed_reviver/pipelines.py:120-139 | Length and order are preserved and `normalized_count` is recorded. |
| Feeds.NormalizeIdempotent | apps/graveyard_feed_reviver/pipelines.py:126-136 | Normalising twice is normalising once. An entry is unchanged iff it has exactly the five fields. |
| Feeds.TruncateSummary | apps/graveyard_feed_reviver/pipelines.py:233-238 | A summary longer than 300 characters becomes its first 297 and "..." (300 in all). A shorter one is unchanged. |
| Feeds.EntryBlock | apps/graveyard_feed_reviver/pipelines.py:220-242 | An entry's block builds iff the four fields are present and a truthy summary is a string; otherwise the first missing field's KeyError or the TypeError. A block is the title line and a blank line, then "**Link:** <link>" and a blank line when the link is truthy, then "**Published:** <date>" and a blank line when the date is truthy, then the truncated summary and a blank line when it is truthy, then "---" and a blank line. |
| Feeds.Blocks | apps/graveyard_feed_reviver/pipelines.py:220-242 | A group's blocks build iff every entry's block does. |
| Feeds.Sections | apps/graveyard_feed_reviver/pipelines.py:217-242 | The sections build iff every group's blocks do. A success is, group after group, the heading "## 📡 <feed title of the group's first entry>", a blank line and the group's blocks. |
| Feeds.SectionAt | apps/graveyard_feed_reviver/pipelines.py:217-242 | Group g's section starts after the sections before it with its heading line, then a blank line, then exactly its blocks' lines. |
| Feeds.GrimoireLines | apps/graveyard_feed_reviver/pipelines.py:201-242 | A missing feed title raises KeyError before anything is written. Otherwise the grimoire builds iff the sections of the entries grouped by feed do, fails with their error when they do not, and is the header reporting the number of entries followed by those sections. |
| Feeds.GrimoireSucceeds | apps/graveyard_feed_reviver/pipelines.py:201-242 | The grimoire is written iff every entry has a feed title and a block that builds. |
| Feeds.SectionsBuild | apps/graveyard_feed_reviver/pipelines.py:217-242 | The sections build iff every entry of every group builds. |
| Feeds.GroupedByFeed | apps/graveyard_feed_reviver/pipelines.py:209-214 | Each feed appears once, in order of its first entry. Each group holds exactly that feed's entries in input order, and the groups together hold every entry. |
| Feeds.WriteMarkdown | apps/graveyard_feed_reviver/pipelines.py:195-251 | The entries pass through unchanged and `markdown_path` is recorded. It succeeds iff the grimoire can be written. |
| Feeds.WriteJson | apps/graveyard_feed_reviver/pipelines.py:161-173 | The entries pass through unchanged and `json_path` is recorded; no other context key changes. |
| TextOps.Grep | skeleton_core/steps/text_ops.py:37-60 | The loop keeps, in order, the lines where match differs from invert, and records `match_count` and `total_lines`. |
| TextOps.GrepSplitsLines | skeleton_core/steps/text_ops.py:50-57 | A line is kept iff it is an input line that matches (or, inverted, does not). The result is a subsequence. The plain and inverted match counts sum to the line count. |
| TextOps.SplitLines | skeleton_core/steps/text_ops.py:122-136 | Lines are stripped when asked. Empty ones are dropped when asked, and then no output line is empty. `line_count` is the result's length. |
| TextOps.SplitThenJoin | skeleton_core/steps/text_ops.py:122-165 | Splitting and joining with "\n" gives back the text up to a final newline. |
| TextOps.JoinLines | skeleton_core/steps/text_ops.py:156-165 | The output length is the sum of the line lengths plus the separators. `line_count` and `output_length` are recorded. |
| TextOps.JoinThenSplit | skeleton_core/steps/text_ops.py:156-165 | Joining on a one-character separator that no line contains, then splitting on it, gives back the lines. |
| DataOps.PyLess | skeleton_core/steps/data_ops.py:246-249 | Python's `<` on scalars: numbers by value, strings by code points, and TypeError for any other pair. |
| DataOps.FilterOrFail | skeleton_core/steps/data_ops.py:239-254 | Filtering succeeds iff no item's test raises, keeping the passing items in order. Otherwise it reports the error of the first item that raises. |
| DataOps.FilterData | skeleton_core/steps/data_ops.py:231-260 | The kept items in order, or the first raised error. `input_count` and `output_count` are recorded. |
| DataOps.ConditionsKeep | skeleton_core/steps/data_ops.py:239-254 | `equals` keeps items whose field (None if absent) equals the value. `exists` keeps items having the field. An unknown condition keeps nothing. The output is a subsequence of the input. |
| DataOps.TotalConditions | skeleton_core/steps/data_ops.py:239-251 | `equals` and `exists` never raise. An item without the field fails `exists` and passes `equals` iff the value is None. |
| DataOps.EntryLines | skeleton_core/steps/data_ops.py:334-358 | The title line comes first, a blank line last. Without `include_summary` a truthy date follows the title. With it, the summary and then the date follow only when the summary is truthy. |
| DataOps.EntryBlocks | skeleton_core/steps/data_ops.py:334-358 | One block per entry, numbered consecutively. |
| DataOps.EntryStartsAt | skeleton_core/steps/data_ops.py:334-360 | Entry k's title line, numbered start + k, sits right after the blank line ending entry k-1. |
| DataOps.FormatEntriesMarkdown | skeleton_core/steps/data_ops.py:327-363 | No entries give the empty text. Otherwise the text shows each entry's title line with its number k + 1. |
| DataOps.FormatEntriesSplits | skeleton_core/steps/data_ops.py:327-363 | When no field's text holds a newline, splitting the text at newlines gives back the entries' lines, with entry k's title line at the start of its block, right after the blank line ending entry k-1. |
| DataOps.ToCsv | skeleton_core/steps/data_ops.py:182-207 | No rows give "" and leave the context alone. Otherwise the rendered text is returned and `row_count` and `output_size` are recorded. |
| Values.Show | skeleton_core/cache.py:74-77 | Python's `str`: a string is itself and an integer is its decimal text. |
| Values.Canon | skeleton_core/summarization.py:122-126 | Dict-key equality: True becomes the integer 1 and False the integer 0, no result is a boolean, and every other value is unchanged. |
| Values.GetOr | skeleton_core/steps/data_ops.py:335-338 | `dict.get(k, default)`. |
| Values.OrElse | skeleton_core/summarization.py:125 | `v or fallback` on a scalar. |
| Text.Strip | apps/haunted_log_cleaner/pipelines.py:76 | `str.strip()`: the result is the input with only whitespace removed before and after it, does not itself start or end with whitespace, and is empty iff the input is all whitespace. |
| Text.Lines | skeleton_core/steps/text_ops.py:40-43 | `splitlines()` on "\n": no line contains a newline, and only the empty text has no lines. |
| Text.LinesRoundTrip | skeleton_core/steps/text_ops.py:122-136 | The lines joined with "\n", plus a final newline if there was one, give back the text. |
| Text.SplitOnJoin | skeleton_core/steps/text_ops.py:156-165 | Splitting a joined list on a separator none of its parts contains gives back the parts. |
| Text.JoinSplitOn | skeleton_core/steps/text_ops.py:156-165 | Joining the pieces of a split gives back the text. |
| Text.NatToStringRoundTrip | skeleton_core/pipeline.py:91-100 | The decimal text of a number reads back as that number. |
| Text.IntToStringInjective | skeleton_core/cache.py:74-77 | Distinct integers have distinct decimal texts. |
| Text.SortedStrings | apps/haunted_log_cleaner/pipelines.py:216 | `sorted(set)`: every member once, strictly ascending. |
| Seqs.TakeFirst | skeleton_core/summarization.py:130 | The slice `xs[:n]`: a prefix of the input holding its first n items, or all of them when there are fewer. |
| Seqs.FilterIsSubsequence | skeleton_core/steps/data_ops.py:239-257 | A list comprehension's result is a subsequence of its input. |
| Seqs.FilterComplement | skeleton_core/steps/text_ops.py:53 | A predicate and its negation split the list between them. |
| Seqs.DedupFirstAppearance | apps/graveyard_feed_reviver/pipelines.py:209-214 | Distinct keys are listed in order of their first appearance. |
| Seqs.GroupInOrder | apps/graveyard_feed_reviver/pipelines.py:209-214 | The loop that creates a list the first time it meets a key and appends each item to its key's list builds exactly the reference grouping: keys in first-appearance order, each group that key's items in input order. |
| Seqs.GroupsCover | apps/graveyard_feed_reviver/pipelines.py:209-242 | A property holds of every grouped item iff it holds of every input item. |
| Seqs.TallySum | skeleton_core/summarization.py:122-126 | Counting into a dict gives counts that sum to the number of items. |
| Seqs.TallyCountOf | skeleton_core/summarization.py:122-126 | Each key's count is its number of occurrences. |
| Seqs.SortHeadIsFirstMax | skeleton_core/summarization.py:78-81 | A stable descending sort by count puts first the first item with the largest count. |
| Seqs.TopOfSorted | skeleton_core/summarization.py:127 | The first n of that sort are non-increasing members of the input. |
| Seqs.LeftOutOfTop | skeleton_core/summarization.py:127 | Nothing left out of the top n has a larger count than the last one kept. |

## Left out

- `load_config` and YAML parsing: the builder takes the already-parsed document as a typed record. A step entry is a dict of scalars. A non-mapping `pipeline` section or a non-list `steps` value is not representable.
- `LoadLogsStep`, `FetchFeedsStep`, `ParseRSSStep`, `skeleton_core/steps/file_ops.py`, `skeleton_core/steps/http_ops.py` and `utils.validate_file_path`: these are file and network I/O. The modelled steps take the lines of a file and return the text they would write, and the file writes and appends are left out.
- `ReplaceStep`, `TemplateStep`, `ToUppercaseStep`, `ToLowercaseStep`, and the JSON, YAML and CSV parse and emit steps: they are thin wrappers over the regex engine, `str.format`, Unicode case mapping and library serialisers.
- `_call_llm` and `_simulated_response`: the model's answer, or its failure, is a parameter `llm`. The prompts and the `json.dumps` of the statistics are not modelled.
- `os.getenv` is the map `env`. Logging is left out.
- Cache persistence: pickle, the SHA-256 of the key's JSON, the real file system and `mkdir` are left out. The structured key stands for an injective hash, the store is a map, the clock is an integer `now`, and how the write went is the parameter `write`: written, `open` failed, or `pickle.dump` failed after `open` had emptied the file. A file holding part of a pickle is modelled like an empty one: loading it raises, and the model names the error "Ran out of input" although a partial pickle can raise a different unpickling error. `total_size_mb` (a float) is not modelled.
- Cache.CachedRun: the `repr` fallback when `str(data)` raises is not modelled. The data text is the parameter `show`, with Python's `str` as Values.Show for scalar data.
- Text.Lines: `str.splitlines` is modelled on "\n" only. The other line separators are not split on.
- Text.IsSpace and Text.IsWordChar: `\s`, `\w` and `\d` are modelled on Latin-1, not on all of Unicode.
- Logs.AnonymizeLogs: the e-mail and IPv4 regular expressions are the function `redact`. The in-place mutation of entries becomes a returned new list.
- TextOps.Grep: the compiled regular expression, with its case folding, is the predicate `matches`. The `re.error` that `re.compile` raises on an invalid pattern is not modelled, so the model's Grep always succeeds.
- Seqs.SortByCountDesc: `sorted(..., reverse=True)` is stable; the contract states the order and the permutation, and stability only through Seqs.SortHeadIsFirstMax (ties keep the first item first), not for every pair of tied items.
- DataOps.ToCsv: the `csv` writer is the function `render`. Its errors are not modelled: the error on non-dict rows, and the ValueError `DictWriter` raises when a later row has a key the first row lacks. The model's ToCsv always succeeds.
- DataOps.PyLess: only scalars are compared. Lists and dicts as field values, and float comparison, are not modelled.
- Logs.MatchLog: it is stated for stripped lines only, the only kind the step passes to the pattern.
- Summaries.SummarizeLogs and Summaries.SummarizeText carry no contract of their own. Their behaviour is stated through Summaries.NoFlagNoModel and Summaries.TemplateAlwaysFirst.
- Logs.ReportFront and the other fixed-text lines: the exact wording and emoji are modelled, and contracts state where the data appears in them, not the wording of every fixed line.
- Config.ResolveName: for a truthy name that is not a string, `str()` of the name is used. Lists and dicts as names are not representable.
- `skeleton_core/cli.py`, `bonesaw_mcp_server.py`, `main.py`, `skeleton_core/scaffold.py` and `tests/conftest.py`: the command-line and server front ends, code generation and test scaffolding.

## Findings

| source | as written | input that shows it | evidently intended | confidence | as-written member | corrected member |
|---|---|---|---|---|---|---|
| skeleton_core/cache.py:74-83 | the cache key uses `str(data)`, which drops the data's type | a step called on the int 1 and then, within the TTL, on the string "1": the second call is served the first call's result | a key that tells any two different inputs apart | not executed | Cache.StrKeyCollision | Cache.TypedKeyTransparent |
