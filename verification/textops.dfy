/** The line-oriented text steps of skeleton_core/steps/text_ops.py: grep
    with an inverting switch, splitting a text into lines, and joining lines.
    The regular expression is left to the caller as the predicate `matches`
    (the result of `regex.search(line) is not None`, case folding included). */
module TextOps {
  import opened Values
  import opened Text
  import opened Seqs

  // ---------------------------------------------------------------------------
  // GrepStep
  // ---------------------------------------------------------------------------

  /** What GrepStep accepts: a text, which it splits into lines, or a list
      of lines. */
  datatype TextInput = Whole(text: string) | LineList(lines: seq<string>)

  function InputLines(data: TextInput): seq<string> {
    match data
    case Whole(text) => Lines(text)
    case LineList(lines) => lines
  }

  /** `is_match != self.invert`: the matching lines, or with `invert` the
      others. */
  function Selected(matches: string -> bool, invert: bool): string -> bool {
    line => matches(line) != invert
  }

  /** `GrepStep.run`: one pass over the lines, keeping the selected ones in
      order, with `match_count` and `total_lines` recorded. */
  method Grep(data: TextInput, matches: string -> bool, invert: bool, ctx: Context)
    returns (out: seq<string>, ctx': Context)
    ensures out == Filter(InputLines(data), Selected(matches, invert))
    ensures ctx' == ctx["match_count" := Int(|out|)]["total_lines" := Int(|InputLines(data)|)]
  {
    var lines := InputLines(data);
    out := [];
    for i := 0 to |lines|
      invariant out == Filter(lines[..i], Selected(matches, invert))
    {
      assert lines[..i + 1][..i] == lines[..i];
      if matches(lines[i]) != invert {
        out := out + [lines[i]];
      }
    }
    assert lines[..|lines|] == lines;
    ctx' := ctx["match_count" := Int(|out|)]["total_lines" := Int(|lines|)];
  }

  /** A line is kept exactly when it is one of the input lines and matches
      (or, inverted, does not); the kept lines keep their order; and the
      plain and the inverted grep split the input between them. */
  lemma GrepSplitsLines(lines: seq<string>, matches: string -> bool, invert: bool, line: string)
    ensures line in Filter(lines, Selected(matches, invert)) <==> line in lines && matches(line) != invert
    ensures IsSubsequence(Filter(lines, Selected(matches, invert)), lines)
    ensures |Filter(lines, Selected(matches, false))| + |Filter(lines, Selected(matches, true))| == |lines|
  {
    FilterMembers(lines, Selected(matches, invert), line);
    FilterIsSubsequence(lines, Selected(matches, invert));
    FilterComplement(lines, Selected(matches, false), Selected(matches, true));
  }

  // ---------------------------------------------------------------------------
  // SplitLinesStep
  // ---------------------------------------------------------------------------

  predicate NonEmpty(line: string) {
    line != ""
  }

  /** `SplitLinesStep.run` on `str(data)`: the lines, each stripped when
      `strip` is set, the empty ones dropped when `skip_empty` is set, with
      `line_count` recorded. */
  function SplitLines(text: string, strip: bool, skipEmpty: bool, ctx: Context): (r: (seq<string>, Context))
    ensures var base := if strip then Map(Lines(text), Strip) else Lines(text);
            (skipEmpty ==> r.0 == Filter(base, NonEmpty)) && (!skipEmpty ==> r.0 == base)
    ensures skipEmpty ==> forall i :: 0 <= i < |r.0| ==> r.0[i] != ""
    ensures !skipEmpty ==> |r.0| == |Lines(text)|
    ensures r.1 == ctx["line_count" := Int(|r.0|)]
  {
    var lines := Lines(text);
    var lines' := if strip then Map(lines, Strip) else lines;
    var lines'' := if skipEmpty then Filter(lines', NonEmpty) else lines';
    (lines'', ctx["line_count" := Int(|lines''|)])
  }

  /** Splitting without stripping or skipping, then joining with "\n",
      gives back the text up to a final newline. */
  lemma SplitThenJoin(text: string, ctx: Context)
    ensures var lines := SplitLines(text, false, false, ctx).0;
            JoinLines(lines, "\n", ctx).0 + (if EndsWithNewline(text) then "\n" else "") == text
  {
    LinesRoundTrip(text);
  }

  // ---------------------------------------------------------------------------
  // JoinLinesStep
  // ---------------------------------------------------------------------------

  /** `JoinLinesStep.run`: the lines joined with the separator, with
      `line_count` and `output_length` recorded. */
  function JoinLines(lines: seq<string>, separator: string, ctx: Context): (r: (string, Context))
    ensures |r.0| == SumLengths(lines) + (if |lines| == 0 then 0 else (|lines| - 1) * |separator|)
    ensures r.1 == ctx["line_count" := Int(|lines|)]["output_length" := Int(|r.0|)]
  {
    var result := Join(lines, separator);
    (result, ctx["line_count" := Int(|lines|)]["output_length" := Int(|result|)])
  }

  /** Joining with a one-character separator that no line contains, then
      splitting on it, gives back the lines. */
  lemma JoinThenSplit(lines: seq<string>, c: char, ctx: Context)
    requires |lines| >= 1 && forall i :: 0 <= i < |lines| ==> c !in lines[i]
    ensures SplitOn(JoinLines(lines, [c], ctx).0, c) == lines
  {
    SplitOnJoin(lines, c);
  }
}
