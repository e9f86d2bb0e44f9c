/** The pipeline engine (skeleton_core/pipeline.py): a named, ordered list of
    steps run strictly left to right, one data value and one shared context
    threaded through them, stopping at the first step that raises and
    reporting it with the pipeline's name, the step's 1-based position, the
    step count and the step's class name. */
module Engine {
  import opened Wrappers
  import opened Values
  import opened Text

  /** What one call of a step's `run` does: it returns the next data value,
      or it raises. Either way the context is handed on as the step left it:
      every step shares one mutable dict. */
  datatype StepOutcome<D> = Returned(data: D, ctx: Context) | Raised(cause: string, ctx: Context)

  /** A step instance: the name of its class and its `run(data, context)`. */
  datatype Step<!D> = Step(className: string, run: (D, Context) -> StepOutcome<D>)

  const DefaultName: string := "unnamed_pipeline"

  /** A pipeline: its steps in execution order and its display name. */
  datatype Pipeline<!D> = Pipeline(steps: seq<Step<D>>, name: string)

  /** `Pipeline(steps, name)`: the steps are kept as given and a missing or
      empty name falls back to "unnamed_pipeline", so a pipeline's name is
      never empty. */
  function NewPipeline<D>(steps: seq<Step<D>>, name: Option<string>): (p: Pipeline<D>)
    ensures p.steps == steps
    ensures p.name != ""
    ensures name.Some? && name.value != "" ==> p.name == name.value
    ensures name.None? || name.value == "" ==> p.name == DefaultName
  {
    Pipeline(steps, if name.Some? && name.value != "" then name.value else DefaultName)
  }

  // ---------------------------------------------------------------------------
  // Reference semantics: nested application
  // ---------------------------------------------------------------------------

  /** The outcome of applying a list of steps: either all of them returned,
      or the step at 0-based `index` raised `cause`. */
  datatype Exec<D> = Completed(data: D, ctx: Context) | Stopped(index: nat, cause: string, ctx: Context)

  /** `s_n.run(... s_1.run(d, c) ...)`: the last step applied to what the
      earlier steps produced. This is the reference the engine's loop is
      proved against. */
  function Compose<D>(steps: seq<Step<D>>, d: D, c: Context): (e: Exec<D>)
    ensures e.Stopped? ==> e.index < |steps|
    decreases |steps|
  {
    if |steps| == 0 then Completed(d, c)
    else
      match Compose(steps[..|steps| - 1], d, c)
      case Stopped(i, cause, c') => Stopped(i, cause, c')
      case Completed(d', c') =>
        match steps[|steps| - 1].run(d', c')
        case Returned(d'', c'') => Completed(d'', c'')
        case Raised(cause, c'') => Stopped(|steps| - 1, cause, c'')
  }

  /** The (data, context) pairs the steps were called with, in call order;
      a step that is never reached contributes nothing. */
  function Calls<D>(steps: seq<Step<D>>, d: D, c: Context): (r: seq<(D, Context)>)
    ensures |r| <= |steps|
    decreases |steps|
  {
    if |steps| == 0 then []
    else
      var init := steps[..|steps| - 1];
      match Compose(init, d, c)
      case Stopped(_, _, _) => Calls(init, d, c)
      case Completed(d', c') => Calls(init, d, c) + [(d', c')]
  }

  /** Moves a stop position past `offset` earlier steps. */
  function Shift<D>(e: Exec<D>, offset: nat): Exec<D> {
    match e
    case Completed(d, c) => e
    case Stopped(i, cause, c) => Stopped(i + offset, cause, c)
  }

  /** Running `a + b` is running `a` and then, if it completed, running `b`
      on what `a` produced; a stop inside `b` is reported after `a`'s steps. */
  lemma {:induction false} ComposeAppend<D>(a: seq<Step<D>>, b: seq<Step<D>>, d: D, c: Context)
    ensures Compose(a + b, d, c) ==
      match Compose(a, d, c)
      case Stopped(i, cause, c') => Stopped(i, cause, c')
      case Completed(d', c') => Shift(Compose(b, d', c'), |a|)
    decreases |b|
  {
    if |b| == 0 {
      assert a + b == a;
    } else {
      var b' := b[..|b| - 1];
      assert (a + b)[..|a + b| - 1] == a + b';
      ComposeAppend(a, b', d, c);
    }
  }

  /** A step that raises ends the run: whatever follows it is never
      consulted, so the outcome is the same for every continuation. */
  lemma StopIgnoresLaterSteps<D>(steps: seq<Step<D>>, later: seq<Step<D>>, d: D, c: Context)
    requires Compose(steps, d, c).Stopped?
    ensures Compose(steps + later, d, c) == Compose(steps, d, c)
  {
    ComposeAppend(steps, later, d, c);
  }

  /** Exactly the steps up to the one that raised were called, each once and
      in order: all n steps when the run completes, steps 1..i+1 when the step
      at 0-based index i raised. */
  lemma {:induction false} CallsCount<D>(steps: seq<Step<D>>, d: D, c: Context)
    ensures var e := Compose(steps, d, c);
            |Calls(steps, d, c)| == if e.Completed? then |steps| else e.index + 1
    decreases |steps|
  {
    if |steps| > 0 {
      CallsCount(steps[..|steps| - 1], d, c);
    }
  }

  /** The data flow between calls: the first step sees the initial data and
      context; every later step sees exactly the data and context returned by
      the step before it; the last call produced the outcome. */
  lemma {:induction false} CallsChain<D>(steps: seq<Step<D>>, d: D, c: Context)
    ensures var calls := Calls(steps, d, c);
            (|calls| > 0 ==> calls[0] == (d, c)) &&
            (forall k :: 0 <= k < |calls| - 1 ==>
               steps[k].run(calls[k].0, calls[k].1) == Returned(calls[k + 1].0, calls[k + 1].1)) &&
            (|calls| > 0 ==>
               var last := |calls| - 1;
               match Compose(steps, d, c)
               case Completed(d', c') => steps[last].run(calls[last].0, calls[last].1) == Returned(d', c')
               case Stopped(i, cause, c') =>
                 i == last && steps[last].run(calls[last].0, calls[last].1) == Raised(cause, c'))
    decreases |steps|
  {
    CallsCount(steps, d, c);
    if |steps| > 0 {
      var init := steps[..|steps| - 1];
      CallsChain(init, d, c);
      CallsCount(init, d, c);
      var calls := Calls(steps, d, c);
      var prev := Calls(init, d, c);
      match Compose(init, d, c)
      case Stopped(_, _, _) =>
        assert calls == prev;
      case Completed(d', c') =>
        assert calls == prev + [(d', c')];
        assert |prev| == |init|;
        forall k | 0 <= k < |calls| - 1
          ensures steps[k].run(calls[k].0, calls[k].1) == Returned(calls[k + 1].0, calls[k + 1].1)
        {
          if k < |prev| - 1 {
            assert steps[k] == init[k];
          } else {
            assert steps[k] == init[k];
          }
        }
    }
  }

  // ---------------------------------------------------------------------------
  // The engine
  // ---------------------------------------------------------------------------

  /** The pipeline-level failure: which pipeline, which step (1-based) out of
      how many, the step's class name, and the underlying cause. */
  datatype PipelineError = StepFailed(pipeline: string, position: nat, total: nat, stepName: string, cause: string)

  /** What `Pipeline.run` ends with: the last step's data, or the wrapped
      failure; in both cases the context as the steps left it (the caller's
      dict is shared). */
  datatype RunResult<D> = Finished(data: D, ctx: Context) | Failed(error: PipelineError, ctx: Context)

  /** `Pipeline.run(initial_data, context)`: a fresh empty context when none
      is given, then each step in turn on the previous step's output. Its
      result agrees with the nested application Compose, and a failure names
      the pipeline, the failing step's 1-based position, the step count and
      the failing step's class name. */
  method Run<D>(p: Pipeline<D>, initialData: D, context: Option<Context>) returns (r: RunResult<D>)
    ensures var e := Compose(p.steps, initialData, context.GetOr(map[]));
            (r.Finished? <==> e.Completed?) &&
            (r.Finished? ==> r.data == e.data && r.ctx == e.ctx) &&
            (r.Failed? ==>
               1 <= r.error.position <= r.error.total == |p.steps| &&
               r.error == StepFailed(p.name, e.index + 1, |p.steps|, p.steps[e.index].className, e.cause) &&
               r.ctx == e.ctx)
    ensures |p.steps| == 0 ==> r == Finished(initialData, context.GetOr(map[]))
  {
    var ctx: Context := if context.None? then map[] else context.value;
    ghost var c0 := ctx;
    var data := initialData;
    for i := 0 to |p.steps|
      invariant Compose(p.steps[..i], initialData, c0) == Completed(data, ctx)
    {
      var step := p.steps[i];
      assert p.steps[..i + 1][..i] == p.steps[..i];
      match step.run(data, ctx)
      case Raised(cause, c') =>
        StopIgnoresLaterSteps(p.steps[..i + 1], p.steps[i + 1..], initialData, c0);
        assert p.steps[..i + 1] + p.steps[i + 1..] == p.steps;
        return Failed(StepFailed(p.name, i + 1, |p.steps|, step.className, cause), c');
      case Returned(d', c') =>
        data, ctx := d', c';
    }
    assert p.steps[..|p.steps|] == p.steps;
    return Finished(data, ctx);
  }

  /** Without a caller-supplied context, the first step is called with an
      empty one. */
  lemma FirstStepSeesEmptyContext<D>(steps: seq<Step<D>>, d: D)
    requires |steps| > 0
    ensures |Calls(steps, d, map[])| > 0 && Calls(steps, d, map[])[0] == (d, map[])
  {
    CallsCount(steps, d, map[]);
    CallsChain(steps, d, map[]);
  }

  /** The message `RuntimeError` carries: it names the pipeline, the
      failing step's 1-based position out of the step count, the step's
      class and the cause. */
  function Message(e: PipelineError): (m: string)
    ensures Contains(m, e.pipeline) && Contains(m, e.stepName) && Contains(m, e.cause)
    ensures Contains(m, NatToString(e.position) + "/" + NatToString(e.total))
  {
    InterleavedContains("Pipeline '", e.pipeline, Progress(e.position, e.total), e.stepName, "): ", e.cause);
    ProgressContained(e.pipeline, e.position, e.total, e.stepName, e.cause);
    "Pipeline '" + e.pipeline + Progress(e.position, e.total) + e.stepName + "): " + e.cause
  }

  /** The message shows the "i/n" fraction of its progress part. */
  lemma ProgressContained(pipeline: string, position: nat, total: nat, stepName: string, cause: string)
    ensures Contains("Pipeline '" + pipeline + Progress(position, total) + stepName + "): " + cause,
                     Fraction(position, total))
  {
    var fraction := Fraction(position, total);
    var progress := Progress(position, total);
    ContainsInfix("' failed at step ", fraction, " (");
    ContainsSuffix("Pipeline '" + pipeline, progress, fraction);
    ContainsPrefix("Pipeline '" + pipeline + progress, stepName, fraction);
    ContainsPrefix("Pipeline '" + pipeline + progress + stepName, "): ", fraction);
    ContainsPrefix("Pipeline '" + pipeline + progress + stepName + "): ", cause, fraction);
  }

  /** The "' failed at step i/n (" part of the message. */
  function Progress(position: nat, total: nat): string {
    "' failed at step " + Fraction(position, total) + " ("
  }

  /** The "i/n" of the message. */
  function Fraction(position: nat, total: nat): string {
    NatToString(position) + "/" + NatToString(total)
  }

  // ---------------------------------------------------------------------------
  // The worked examples of the test suite
  // ---------------------------------------------------------------------------

  function AddOne(): Step<int> {
    Step("AddOneStep", (d: int, c: Context) => Returned(d + 1, c))
  }

  function MultiplyByTwo(): Step<int> {
    Step("MultiplyByTwoStep", (d: int, c: Context) => Returned(d * 2, c))
  }

  /** (3 + 1) * 2 = 8, and [AddOne] on 5 with the default empty context
      gives 6. */
  lemma WorkedExamples()
    ensures Compose([AddOne(), MultiplyByTwo()], 3, map[]) == Completed(8, map[])
    ensures Compose([AddOne()], 5, map[]) == Completed(6, map[])
  {
    assert [AddOne(), MultiplyByTwo()][..1] == [AddOne()];
  }
}
