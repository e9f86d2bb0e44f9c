/** The record steps of skeleton_core/steps/data_ops.py: filtering records
    on one field, rendering feed entries as a markdown list, and the empty
    case of CSV output. Records are dicts of scalars. */
module DataOps {
  import opened Wrappers
  import opened Values
  import opened Text
  import opened Seqs

  // ---------------------------------------------------------------------------
  // FilterDataStep
  // ---------------------------------------------------------------------------

  /** Python's `a < b` on two scalars: numbers (bools counting as 0 and 1)
      by value, strings by code points; any other pair raises TypeError. */
  function PyLess(a: Value, b: Value): (r: Result<bool, PyError>)
    ensures r.Success? <==> (Canon(a).Int? && Canon(b).Int?) || (a.Str? && b.Str?)
    ensures Canon(a).Int? && Canon(b).Int? ==> r == Success(Canon(a).i < Canon(b).i)
    ensures a.Str? && b.Str? ==> r == Success(LexLess(a.s, b.s))
  {
    var ca, cb := Canon(a), Canon(b);
    if ca.Int? && cb.Int? then Success(ca.i < cb.i)
    else if ca.Str? && cb.Str? then Success(LexLess(ca.s, cb.s))
    else Failure(TypeError("comparison not supported between these types"))
  }

  /** Whether FilterDataStep keeps `item`: the field's value (None when
      absent) compared with `value` as `condition` says. `contains` needs a
      string `value`, `gt` and `lt` comparable operands; an unknown
      condition keeps nothing. */
  function Keep(item: Dict, field: string, value: Value, condition: string): Result<bool, PyError> {
    var fv := Get(item, field);
    if condition == "equals" then Success(PyEq(fv, value))
    else if condition == "contains" then
      if value.Str? then Success(Contains(Show(fv), value.s))
      else Failure(TypeError("'in <string>' requires string as left operand"))
    else if condition == "gt" then PyLess(value, fv)
    else if condition == "lt" then PyLess(fv, value)
    else if condition == "exists" then Success(field in item)
    else Success(false)
  }

  /** The items the step keeps. */
  function Kept(field: string, value: Value, condition: string): Dict -> bool {
    item => Keep(item, field, value, condition) == Success(true)
  }

  /** The items a fallible test accepts. */
  function Passes<T, E>(test: T -> Result<bool, E>): T -> bool {
    item => test(item) == Success(true)
  }

  /** The items passing `test`, in order, or the error of the first item
      whose test fails. */
  method FilterOrFail<T, E>(items: seq<T>, test: T -> Result<bool, E>) returns (r: Result<seq<T>, E>)
    ensures r.Success? <==> forall i :: 0 <= i < |items| ==> test(items[i]).Success?
    ensures r.Failure? ==>
              exists i :: 0 <= i < |items| && test(items[i]) == Failure(r.error) &&
                forall j :: 0 <= j < i ==> test(items[j]).Success?
    ensures r.Success? ==> r.value == Filter(items, Passes(test))
  {
    var filtered: seq<T> := [];
    for i := 0 to |items|
      invariant filtered == Filter(items[..i], Passes(test))
      invariant forall j :: 0 <= j < i ==> test(items[j]).Success?
    {
      assert items[..i + 1][..i] == items[..i];
      var keep := test(items[i]);
      if keep.Failure? {
        return Failure(keep.error);
      }
      if keep.value {
        filtered := filtered + [items[i]];
      }
    }
    assert items[..|items|] == items;
    r := Success(filtered);
  }

  /** `FilterDataStep.run`: it raises the error of the first item whose
      test raises; otherwise it returns the kept items in order with
      `input_count` and `output_count` recorded. */
  method FilterData(items: seq<Dict>, field: string, value: Value, condition: string, ctx: Context)
    returns (r: Result<(seq<Dict>, Context), PyError>)
    ensures r.Success? <==> forall i :: 0 <= i < |items| ==> Keep(items[i], field, value, condition).Success?
    ensures r.Failure? ==>
              exists i :: 0 <= i < |items| && Keep(items[i], field, value, condition) == Failure(r.error) &&
                forall j :: 0 <= j < i ==> Keep(items[j], field, value, condition).Success?
    ensures r.Success? ==>
              r.value.0 == Filter(items, Kept(field, value, condition)) &&
              r.value.1 == ctx["input_count" := Int(|items|)]["output_count" := Int(|r.value.0|)]
  {
    var test := item => Keep(item, field, value, condition);
    var kept := FilterOrFail(items, test);
    FilterSame(items, Kept(field, value, condition), Passes(test));
    match kept
    case Failure(err) =>
      r := Failure(err);
    case Success(filtered) =>
      r := Success((filtered, ctx["input_count" := Int(|items|)]["output_count" := Int(|filtered|)]));
  }

  /** What each condition keeps: `equals` the items whose field equals the
      value (a missing field reading as None), `exists` the items that have
      the field whatever its value, and an unknown condition nothing. The
      kept items are always a subsequence of the input. */
  lemma ConditionsKeep(items: seq<Dict>, field: string, value: Value, condition: string, item: Dict)
    ensures IsSubsequence(Filter(items, Kept(field, value, condition)), items)
    ensures condition == "equals" ==> (Kept(field, value, condition)(item) <==> PyEq(Get(item, field), value))
    ensures condition == "exists" ==> (Kept(field, value, condition)(item) <==> field in item)
    ensures condition !in {"equals", "contains", "gt", "lt", "exists"} ==>
              Filter(items, Kept(field, value, condition)) == []
  {
    FilterIsSubsequence(items, Kept(field, value, condition));
    if condition !in {"equals", "contains", "gt", "lt", "exists"} {
      FilterNone(items, Kept(field, value, condition));
    }
  }

  /** `equals` and `exists` never raise, and an item that lacks the field
      never passes `exists` and passes `equals` exactly when the value is
      None. */
  lemma TotalConditions(item: Dict, field: string, value: Value)
    ensures Keep(item, field, value, "equals").Success? && Keep(item, field, value, "exists").Success?
    ensures field !in item ==>
              Keep(item, field, value, "exists") == Success(false) &&
              Keep(item, field, value, "equals") == Success(value == Null)
  {
  }

  // ---------------------------------------------------------------------------
  // FormatEntriesMarkdownStep
  // ---------------------------------------------------------------------------

  /** `f"{i}. "` when numbered, `"- "` otherwise. */
  function Prefix(i: nat, numbered: bool): string {
    if numbered then NatToString(i) + ". " else "- "
  }

  /** The first line of entry i: the title, linked as `[title](link)` when
      the link is truthy. */
  function HeadLine(i: nat, e: Dict, numbered: bool): string {
    var title := Show(GetOr(e, "title", Str("Untitled")));
    var link := GetOr(e, "link", Str(""));
    if Truthy(link) then Prefix(i, numbered) + "[" + title + "](" + Show(link) + ")"
    else Prefix(i, numbered) + title
  }

  function PublishedLine(e: Dict): string {
    "  _" + Show(GetOr(e, "published", Str(""))) + "_"
  }

  function SummaryLine(e: Dict): string {
    "  " + Show(GetOr(e, "summary", Str("")))
  }

  /** The lines of entry i (1-based). Without `include_summary` the
      publication date follows the title when truthy; with it, the summary
      and then the date follow only when the summary is truthy. A blank line
      ends every entry. */
  function EntryLines(i: nat, e: Dict, includeSummary: bool, numbered: bool): (r: seq<string>)
    ensures |r| >= 2 && r[0] == HeadLine(i, e, numbered) && r[|r| - 1] == ""
    ensures var published := Truthy(GetOr(e, "published", Str("")));
            !includeSummary ==> |r| == (if published then 3 else 2) && (published ==> r[1] == PublishedLine(e))
    ensures includeSummary && !Truthy(GetOr(e, "summary", Str(""))) ==> |r| == 2
    ensures var published := Truthy(GetOr(e, "published", Str("")));
            includeSummary && Truthy(GetOr(e, "summary", Str(""))) ==>
              |r| == (if published then 4 else 3) && r[1] == SummaryLine(e) && (published ==> r[2] == PublishedLine(e))
  {
    var published := Truthy(GetOr(e, "published", Str("")));
    var summary := Truthy(GetOr(e, "summary", Str("")));
    var dateAlone := if published && !includeSummary then [PublishedLine(e)] else [];
    var withSummary := if includeSummary && summary then
                         [SummaryLine(e)] + (if published then [PublishedLine(e)] else [])
                       else [];
    [HeadLine(i, e, numbered)] + dateAlone + withSummary + [""]
  }

  /** The line blocks of the entries, numbered from `start`. */
  function EntryBlocks(es: seq<Dict>, start: nat, includeSummary: bool, numbered: bool): (r: seq<seq<string>>)
    ensures |r| == |es|
    ensures forall k :: 0 <= k < |es| ==> r[k] == EntryLines(start + k, es[k], includeSummary, numbered)
  {
    seq(|es|, k requires 0 <= k < |es| => EntryLines(start + k, es[k], includeSummary, numbered))
  }

  /** Entry k (0-based) begins where the lines of the entries before it
      end, with its head line numbered start + k, and the line before it is
      the blank line ending the entry before. */
  lemma EntryStartsAt(es: seq<Dict>, start: nat, includeSummary: bool, numbered: bool, k: nat)
    requires k < |es|
    ensures var bs := EntryBlocks(es, start, includeSummary, numbered);
            var o := BlockStart(bs, k);
            o < |Concat(bs)| && Concat(bs)[o] == HeadLine(start + k, es[k], numbered) &&
            (k > 0 ==> Concat(bs)[o - 1] == "")
  {
    var bs := EntryBlocks(es, start, includeSummary, numbered);
    assert bs[k] == EntryLines(start + k, es[k], includeSummary, numbered);
    if k > 0 {
      assert bs[k - 1] == EntryLines(start + (k - 1), es[k - 1], includeSummary, numbered);
    }
    BlockBoundary(bs, k, HeadLine(start + k, es[k], numbered), "");
  }

  /** `FormatEntriesMarkdownStep.run`: the entries' lines, numbered from 1,
      joined with newlines. No entries give the empty text; otherwise the
      text shows every entry's title line with its number. */
  function FormatEntriesMarkdown(entries: seq<Dict>, includeSummary: bool, numbered: bool): (r: string)
    ensures |entries| == 0 ==> r == ""
    ensures forall k :: 0 <= k < |entries| ==> Contains(r, HeadLine(1 + k, entries[k], numbered))
  {
    var bs := EntryBlocks(entries, 1, includeSummary, numbered);
    var lines := Concat(bs);
    JoinContainsParts(lines, "\n");
    forall k | 0 <= k < |entries| ensures HeadLine(1 + k, entries[k], numbered) in lines {
      EntryStartsAt(entries, 1, includeSummary, numbered, k);
    }
    Join(lines, "\n")
  }

  /** When no field's text holds a newline, splitting the formatted text at
      newlines gives back exactly the entries' lines, entry k's title line,
      numbered k + 1, at the start of its block and right after the blank
      line that ends entry k - 1. */
  lemma FormatEntriesSplits(entries: seq<Dict>, includeSummary: bool, numbered: bool, k: nat)
    requires k < |entries|
    requires var lines := Concat(EntryBlocks(entries, 1, includeSummary, numbered));
             forall i :: 0 <= i < |lines| ==> '\n' !in lines[i]
    ensures var bs := EntryBlocks(entries, 1, includeSummary, numbered);
            var lines := SplitOn(FormatEntriesMarkdown(entries, includeSummary, numbered), '\n');
            var o := BlockStart(bs, k);
            lines == Concat(bs) && o < |lines| && lines[o] == HeadLine(1 + k, entries[k], numbered) &&
            (k > 0 ==> lines[o - 1] == "")
  {
    var bs := EntryBlocks(entries, 1, includeSummary, numbered);
    EntryStartsAt(entries, 1, includeSummary, numbered, k);
    SplitOnJoin(Concat(bs), '\n');
    assert "\n" == ['\n'];
  }

  // ---------------------------------------------------------------------------
  // ToCSVStep
  // ---------------------------------------------------------------------------

  /** `ToCSVStep.run`, with the `csv` module's writer as `render`: no rows
      give the empty text and leave the context alone; otherwise the
      rendered text, with `row_count` and `output_size` recorded. */
  function ToCsv(rows: seq<Dict>, ctx: Context, render: seq<Dict> -> string): (r: (string, Context))
    ensures |rows| == 0 ==> r == ("", ctx)
    ensures |rows| > 0 ==>
              r.0 == render(rows) && r.1 == ctx["row_count" := Int(|rows|)]["output_size" := Int(|r.0|)]
  {
    if |rows| == 0 then ("", ctx)
    else
      var result := render(rows);
      (result, ctx["row_count" := Int(|rows|)]["output_size" := Int(|result|)])
  }
}
