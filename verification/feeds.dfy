/** The Graveyard Feed Reviver steps (apps/graveyard_feed_reviver/pipelines.py)
    that do not touch the network: picking feed URLs out of the lines of a
    file, normalising entries to five fields, and the markdown grimoire with
    its entries grouped by feed. Files are left to the caller: the steps take
    lines and give back the text they would write. */
module Feeds {
  import opened Wrappers
  import opened Values
  import opened Text
  import opened Seqs

  // ---------------------------------------------------------------------------
  // LoadFeedURLsStep
  // ---------------------------------------------------------------------------

  /** A stripped line that names a feed: non-empty and not a `#` comment. */
  predicate IsUrlLine(s: string) {
    s != "" && !StartsWith(s, "#")
  }

  /** The feed URLs of a file: its lines stripped, keeping those that name a
      feed, in file order. */
  function FeedUrls(lines: seq<string>): seq<string> {
    Filter(Map(lines, Strip), IsUrlLine)
  }

  /** `LoadFeedURLsStep.run` on the lines of the file: its loop strips each
      line and keeps the feed URLs, giving FeedUrls, with `url_count`
      recorded. */
  method LoadFeedUrls(lines: seq<string>, ctx: Context) returns (urls: seq<string>, ctx': Context)
    ensures urls == FeedUrls(lines)
    ensures ctx' == ctx["url_count" := Int(|urls|)]
  {
    urls := [];
    for i := 0 to |lines|
      invariant urls == FeedUrls(lines[..i])
    {
      var line := Strip(lines[i]);
      assert Map(lines[..i + 1], Strip)[..i] == Map(lines[..i], Strip);
      if IsUrlLine(line) {
        urls := urls + [line];
      }
    }
    assert lines[..|lines|] == lines;
    ctx' := ctx["url_count" := Int(|urls|)];
  }

  /** A URL is kept exactly when it names a feed and is some line of the
      file once stripped; the URLs keep the order of their lines. */
  lemma FeedUrlsMembers(lines: seq<string>, u: string)
    ensures u in FeedUrls(lines) <==> IsUrlLine(u) && exists i :: 0 <= i < |lines| && Strip(lines[i]) == u
    ensures IsSubsequence(FeedUrls(lines), Map(lines, Strip))
  {
    var stripped := Map(lines, Strip);
    FilterMembers(stripped, IsUrlLine, u);
    FilterIsSubsequence(stripped, IsUrlLine);
    if u in stripped {
      var i :| 0 <= i < |stripped| && stripped[i] == u;
      assert Strip(lines[i]) == u;
    }
    if exists i :: 0 <= i < |lines| && Strip(lines[i]) == u {
      var i :| 0 <= i < |lines| && Strip(lines[i]) == u;
      assert stripped[i] == u;
    }
  }

  // ---------------------------------------------------------------------------
  // NormalizeEntriesStep
  // ---------------------------------------------------------------------------

  /** The five fields of a normalised entry. */
  const EntryFields: set<string> := {"feed_title", "entry_title", "link", "published", "summary"}

  /** The default a normalised entry takes for a field the entry lacks. */
  function FieldDefault(k: string): Value {
    if k == "feed_title" then Str("Unknown Feed")
    else if k == "entry_title" then Str("Untitled")
    else if k == "link" then Str("")
    else Null
  }

  /** One entry of `NormalizeEntriesStep.run`: exactly the five fields, each
      taken from the entry when present and defaulted otherwise; every other
      field is dropped. */
  function NormalizeEntry(e: Dict): (r: Dict)
    ensures r.Keys == EntryFields
    ensures forall k :: k in EntryFields ==> r[k] == if k in e then e[k] else FieldDefault(k)
  {
    map k | k in EntryFields :: GetOr(e, k, FieldDefault(k))
  }

  /** `NormalizeEntriesStep.run`: one normalised entry per entry, in order,
      with `normalized_count` recorded. */
  function NormalizeEntries(entries: seq<Dict>, ctx: Context): (r: (seq<Dict>, Context))
    ensures |r.0| == |entries| && forall i :: 0 <= i < |entries| ==> r.0[i] == NormalizeEntry(entries[i])
    ensures r.1 == ctx["normalized_count" := Int(|entries|)]
  {
    (Map(entries, NormalizeEntry), ctx["normalized_count" := Int(|entries|)])
  }

  /** Normalising twice is normalising once, and an entry comes back
      unchanged exactly when it already has just the five fields. */
  lemma NormalizeIdempotent(e: Dict)
    ensures NormalizeEntry(NormalizeEntry(e)) == NormalizeEntry(e)
    ensures NormalizeEntry(e) == e <==> e.Keys == EntryFields
  {
    if e.Keys == EntryFields {
      assert forall k :: k in e ==> NormalizeEntry(e)[k] == e[k];
    }
  }

  // ---------------------------------------------------------------------------
  // WriteMarkdownStep
  // ---------------------------------------------------------------------------

  /** A summary longer than 300 characters is cut to its first 297 and
      "..." (300 in all); a shorter one is kept. */
  function TruncateSummary(s: string): (r: string)
    ensures |s| <= 300 ==> r == s
    ensures |s| > 300 ==> |r| == 300 && r[..297] == s[..297] && r[297..] == "..."
  {
    if |s| > 300 then s[..297] + "..." else s
  }

  /** The lines for one entry: its title, then link, publication date and
      summary each only when truthy, then a rule. Reading a missing field
      raises KeyError, and taking the length of a truthy summary that is
      not a string raises TypeError, in the order `run` reads them. */
  function EntryBlock(e: Dict): (r: Result<seq<string>, PyError>)
    ensures r.Success? <==>
              {"entry_title", "link", "published", "summary"} <= e.Keys &&
              (Truthy(e["summary"]) ==> e["summary"].Str?)
    ensures r.Success? ==>
              var extra := (if Truthy(e["link"]) then 2 else 0) + (if Truthy(e["published"]) then 2 else 0) +
                           (if Truthy(e["summary"]) then 2 else 0);
              |r.value| == 4 + extra &&
              r.value[0] == "### \U{1F9DF} " + Show(e["entry_title"]) && r.value[1] == ""
    ensures r.Success? && Truthy(e["link"]) ==>
              |r.value| > 3 && r.value[2] == "**Link:** " + Show(e["link"]) && r.value[3] == ""
    ensures r.Success? && Truthy(e["published"]) ==>
              var at := if Truthy(e["link"]) then 4 else 2;
              |r.value| > at + 1 && r.value[at] == "**Published:** " + Show(e["published"]) && r.value[at + 1] == ""
    ensures r.Success? && Truthy(e["summary"]) ==>
              |r.value| >= 6 &&
              r.value[|r.value| - 4] == TruncateSummary(e["summary"].s) && r.value[|r.value| - 3] == ""
    ensures r.Success? ==> |r.value| >= 4 && r.value[|r.value| - 2..] == ["---", ""]
  {
    if "entry_title" !in e then Failure(KeyError("entry_title"))
    else if "link" !in e then Failure(KeyError("link"))
    else if "published" !in e then Failure(KeyError("published"))
    else if "summary" !in e then Failure(KeyError("summary"))
    else if Truthy(e["summary"]) && !e["summary"].Str? then Failure(TypeError("object has no len()"))
    else
      var link := if Truthy(e["link"]) then ["**Link:** " + Show(e["link"]), ""] else [];
      var published := if Truthy(e["published"]) then ["**Published:** " + Show(e["published"]), ""] else [];
      var summary := if Truthy(e["summary"]) then [TruncateSummary(e["summary"].s), ""] else [];
      Success(["### \U{1F9DF} " + Show(e["entry_title"]), ""] + link + published + summary + ["---", ""])
  }

  /** The blocks of several entries one after another, or the first error. */
  function Blocks(es: seq<Dict>): (r: Result<seq<string>, PyError>)
    ensures r.Success? <==> forall i :: 0 <= i < |es| ==> EntryBlock(es[i]).Success?
  {
    if |es| == 0 then Success([])
    else
      match EntryBlock(es[0])
      case Failure(err) => Failure(err)
      case Success(block) =>
        assert forall i :: 1 <= i < |es| ==> es[i] == es[1..][i - 1];
        match Blocks(es[1..])
        case Failure(err) => Failure(err)
        case Success(rest) => Success(block + rest)
  }

  /** The key an entry is grouped under: its feed title, compared as Python
      compares dict keys. */
  function FeedKey(e: Dict): Value {
    Canon(Get(e, "feed_title"))
  }

  /** The heading line of a group's section: the feed title of its first
      entry. */
  function HeadingLine(group: seq<Dict>): string
    requires |group| > 0
  {
    "## \U{1F4E1} " + Show(Get(group[0], "feed_title"))
  }

  /** Each group's section on its own: its heading, then its blocks. */
  function SectionTexts(gs: seq<seq<Dict>>): (r: seq<seq<string>>)
    requires forall g :: 0 <= g < |gs| ==> |gs[g]| > 0 && Blocks(gs[g]).Success?
    ensures |r| == |gs|
  {
    seq(|gs|, g requires 0 <= g < |gs| => [HeadingLine(gs[g]), ""] + Blocks(gs[g]).value)
  }

  /** Dropping the first group drops its section. */
  lemma SectionTextsTail(gs: seq<seq<Dict>>)
    requires |gs| > 0
    requires forall g :: 0 <= g < |gs| ==> |gs[g]| > 0 && Blocks(gs[g]).Success?
    ensures SectionTexts(gs) == SectionTexts(gs[..1]) + SectionTexts(gs[1..])
  {
    assert forall g :: 1 <= g < |gs| ==> gs[g] == gs[1..][g - 1];
  }

  /** The sections of the grimoire, written group by group, stopping at the
      first entry whose block fails. A success is every group's heading
      followed by its blocks, the groups one after another. */
  function Sections(gs: seq<seq<Dict>>): (r: Result<seq<string>, PyError>)
    requires forall g :: 0 <= g < |gs| ==> |gs[g]| > 0
    ensures r.Success? <==> forall g :: 0 <= g < |gs| ==> Blocks(gs[g]).Success?
    ensures r.Success? ==> r.value == Concat(SectionTexts(gs))
  {
    if |gs| == 0 then Success([])
    else
      match Blocks(gs[0])
      case Failure(err) => Failure(err)
      case Success(blocks) =>
        assert forall g :: 1 <= g < |gs| ==> gs[g] == gs[1..][g - 1];
        match Sections(gs[1..])
        case Failure(err) => Failure(err)
        case Success(rest) =>
          SectionTextsTail(gs);
          Success([HeadingLine(gs[0]), ""] + blocks + rest)
  }

  /** Where group g's section sits among the sections: its heading with the
      group's feed title, a blank line, then the lines of its blocks. */
  lemma SectionAt(gs: seq<seq<Dict>>, g: nat)
    requires forall h :: 0 <= h < |gs| ==> |gs[h]| > 0
    requires Sections(gs).Success? && g < |gs|
    ensures BlockStart(SectionTexts(gs), g) + 2 + |Blocks(gs[g]).value| <= |Sections(gs).value|
    ensures Sections(gs).value[BlockStart(SectionTexts(gs), g)] == HeadingLine(gs[g])
    ensures Sections(gs).value[BlockStart(SectionTexts(gs), g) + 1] == ""
    ensures forall j :: 0 <= j < |Blocks(gs[g]).value| ==>
              Sections(gs).value[BlockStart(SectionTexts(gs), g) + 2 + j] == Blocks(gs[g]).value[j]
  {
    SectionTextAt(SectionTexts(gs), gs, g);
  }

  /** The lines of the section texts at group g's section. */
  lemma SectionTextAt(ts: seq<seq<string>>, gs: seq<seq<Dict>>, g: nat)
    requires forall h :: 0 <= h < |gs| ==> |gs[h]| > 0 && Blocks(gs[h]).Success?
    requires ts == SectionTexts(gs) && g < |gs|
    ensures BlockStart(ts, g) + 2 + |Blocks(gs[g]).value| <= |Concat(ts)|
    ensures Concat(ts)[BlockStart(ts, g)] == HeadingLine(gs[g])
    ensures Concat(ts)[BlockStart(ts, g) + 1] == ""
    ensures forall j :: 0 <= j < |Blocks(gs[g]).value| ==>
              Concat(ts)[BlockStart(ts, g) + 2 + j] == Blocks(gs[g]).value[j]
  {
    var head, blocks := [HeadingLine(gs[g]), ""], Blocks(gs[g]).value;
    assert ts[g] == head + blocks;
    HeadedBlock(ts, g, head, blocks);
    assert Concat(ts)[BlockStart(ts, g) + 0] == head[0];
    assert Concat(ts)[BlockStart(ts, g) + 1] == head[1];
  }

  /** The four lines before the sections. */
  function GrimoireHeader(count: nat): seq<string> {
    ["# \U{2620}\U{FE0F} Graveyard Feed Reviver", "",
     "Resurrected " + NatToString(count) + " entries from the digital graveyard.", ""]
  }

  /** The lines `WriteMarkdownStep.run` joins with newlines: the header,
      then the entries grouped by feed. Grouping reads every entry's feed
      title first (KeyError when one is missing); the sections are then
      written group by group. */
  function GrimoireLines(entries: seq<Dict>): (r: Result<seq<string>, PyError>)
    ensures (exists i :: 0 <= i < |entries| && "feed_title" !in entries[i]) ==> r == Failure(KeyError("feed_title"))
    ensures (forall i :: 0 <= i < |entries| ==> "feed_title" in entries[i]) ==>
              var sections := Sections(GroupBy(entries, FeedKey));
              (r.Success? <==> sections.Success?) &&
              (sections.Failure? ==> r == Failure(sections.error)) &&
              (r.Success? ==> r.value == GrimoireHeader(|entries|) + sections.value)
  {
    if exists i :: 0 <= i < |entries| && "feed_title" !in entries[i] then Failure(KeyError("feed_title"))
    else
      var groups := GroupBy(entries, FeedKey);
      match Sections(groups)
      case Failure(err) => Failure(err)
      case Success(body) => Success(GrimoireHeader(|entries|) + body)
  }

  /** An entry can be written: it has a feed title and its block builds. */
  predicate Writable(e: Dict) {
    "feed_title" in e && EntryBlock(e).Success?
  }

  /** The grimoire is written exactly when every entry can be written. */
  lemma GrimoireSucceeds(entries: seq<Dict>)
    ensures GrimoireLines(entries).Success? <==> forall i :: 0 <= i < |entries| ==> Writable(entries[i])
  {
    if forall i :: 0 <= i < |entries| ==> "feed_title" in entries[i] {
      var groups := GroupBy(entries, FeedKey);
      assert GrimoireLines(entries).Success? <==> Sections(groups).Success?;
      SectionsBuild(groups);
      GroupsCover(entries, FeedKey, BlockBuilds);
    } else {
      var i :| 0 <= i < |entries| && "feed_title" !in entries[i];
      assert !Writable(entries[i]);
    }
  }

  /** The sections build exactly when every entry's block does. */
  lemma SectionsBuild(gs: seq<seq<Dict>>)
    requires forall g :: 0 <= g < |gs| ==> |gs[g]| > 0
    ensures Sections(gs).Success? <==>
              forall g, j :: 0 <= g < |gs| && 0 <= j < |gs[g]| ==> BlockBuilds(gs[g][j])
  {
  }

  /** The block of an entry builds. */
  predicate BlockBuilds(e: Dict) {
    EntryBlock(e).Success?
  }

  /** How the entries are grouped: each feed once, feeds in the order of
      their first entry, each group holding exactly that feed's entries in
      input order, and every entry in exactly one group. */
  lemma GroupedByFeed(entries: seq<Dict>)
    ensures var keys := KeysInOrder(entries, FeedKey);
            var groups := GroupBy(entries, FeedKey);
            Distinct(keys) && |groups| == |keys| &&
            (forall g :: 0 <= g < |groups| ==> groups[g] == Filter(entries, HasKey(FeedKey, keys[g]))) &&
            (forall g, h :: 0 <= g < h < |keys| ==>
               FirstIndex(Map(entries, FeedKey), keys[g]) < FirstIndex(Map(entries, FeedKey), keys[h])) &&
            SumSizes(groups) == |entries|
  {
    var keys := KeysInOrder(entries, FeedKey);
    forall g, h | 0 <= g < h < |keys|
      ensures FirstIndex(Map(entries, FeedKey), keys[g]) < FirstIndex(Map(entries, FeedKey), keys[h])
    {
      DedupFirstAppearance(Map(entries, FeedKey), g, h);
    }
    GroupSizesSum(entries, FeedKey);
  }

  /** `WriteMarkdownStep.run`: the entries handed on unchanged, the path
      recorded as `markdown_path`, and the text that goes to the file. */
  function WriteMarkdown(entries: seq<Dict>, outputPath: string, ctx: Context): (r: Result<(seq<Dict>, Context, string), PyError>)
    ensures r.Success? <==> GrimoireLines(entries).Success?
    ensures r.Success? ==>
              r.value.0 == entries && r.value.1 == ctx["markdown_path" := Str(outputPath)] &&
              r.value.2 == Join(GrimoireLines(entries).value, "\n")
  {
    match GrimoireLines(entries)
    case Failure(err) => Failure(err)
    case Success(lines) => Success((entries, ctx["markdown_path" := Str(outputPath)], Join(lines, "\n")))
  }

  // ---------------------------------------------------------------------------
  // WriteJSONStep
  // ---------------------------------------------------------------------------

  /** `WriteJSONStep.run`: the entries handed on unchanged and the path
      recorded as `json_path`; the serialised text is left out. */
  function WriteJson(entries: seq<Dict>, outputPath: string, ctx: Context): (r: (seq<Dict>, Context))
    ensures r.0 == entries
    ensures r.1.Keys == ctx.Keys + {"json_path"} && r.1["json_path"] == Str(outputPath)
    ensures forall k :: k in ctx && k != "json_path" ==> r.1[k] == ctx[k]
  {
    (entries, ctx["json_path" := Str(outputPath)])
  }
}
