/** The step registry and the config-driven pipeline builder
    (skeleton_core/config.py). The global `STEP_REGISTRY` becomes a map that
    is passed and returned explicitly; a step class becomes a constructor
    that either yields a `run` function or refuses its keyword arguments; the
    parsed YAML document becomes a typed record whose optional parts are
    `Option`s. */
module Config {
  import opened Wrappers
  import opened Values
  import opened Text
  import opened Engine

  /** Why a step class could not be instantiated from its parameters: a
      `TypeError` (a missing or unexpected keyword argument), which the
      builder re-raises with the step type and position, or any other
      exception, which escapes unchanged. */
  datatype CtorFailure = ArgMismatch(msg: string) | Other(msg: string)

  /** A registered step class: its `__name__` and its constructor
      `cls(**params)`. */
  datatype Ctor<!D> = Ctor(className: string, make: Dict -> Result<(D, Context) -> StepOutcome<D>, CtorFailure>)

  /** `STEP_REGISTRY`: step type name to step class. */
  type Registry<!D> = map<string, Ctor<D>>

  /** The `ValueError` of a second registration under a taken name. */
  datatype RegisterError = Duplicate(name: string, existingClass: string, newClass: string)

  /** `@register_step(name)` applied to a class: the registry afterwards and
      the error raised, if any. A fresh name adds exactly one entry and
      leaves every other entry as it was; a taken name fails, naming both
      classes, and leaves the registry untouched. */
  function Register<D>(reg: Registry<D>, name: string, ctor: Ctor<D>): (r: (Registry<D>, Option<RegisterError>))
    ensures r.1.None? <==> name !in reg
    ensures r.1.Some? ==> r.0 == reg && r.1.value == Duplicate(name, reg[name].className, ctor.className)
    ensures r.1.None? ==>
              r.0.Keys == reg.Keys + {name} && r.0[name] == ctor &&
              forall k :: k in reg ==> r.0[k] == reg[k]
  {
    if name in reg then (reg, Some(Duplicate(name, reg[name].className, ctor.className)))
    else (reg[name := ctor], None)
  }

  /** Decorating classes under distinct names gives the same registry
      whichever module is imported first. */
  lemma RegisterCommutes<D>(reg: Registry<D>, a: string, x: Ctor<D>, b: string, y: Ctor<D>)
    requires a != b
    ensures Register(Register(reg, a, x).0, b, y).0 == Register(Register(reg, b, y).0, a, x).0
  {
    var ab := Register(Register(reg, a, x).0, b, y).0;
    var ba := Register(Register(reg, b, y).0, a, x).0;
    assert ab.Keys == ba.Keys;
    forall k | k in ab ensures ab[k] == ba[k] {
      if k != a && k != b {
        assert k in reg;
      }
    }
  }

  /** The registry message: "Step '<name>' is already registered. Existing
      class: <old>, New class: <new>". */
  function RegisterMessage(e: RegisterError): (m: string)
    ensures Contains(m, e.name) && Contains(m, e.existingClass) && Contains(m, e.newClass)
  {
    var x1 := "Step '";
    var x2 := "' is already registered. Existing class: ";
    var x3 := ", New class: ";
    InterleavedContains(x1, e.name, x2, e.existingClass, x3, e.newClass);
    x1 + e.name + x2 + e.existingClass + x3 + e.newClass
  }

  // ---------------------------------------------------------------------------
  // The parsed configuration
  // ---------------------------------------------------------------------------

  /** The `pipeline:` mapping: an optional `name` and an optional `steps`
      list, each step entry a mapping. */
  datatype Section = Section(name: Option<Value>, steps: Option<seq<Dict>>)

  /** The whole document: an optional `pipeline` mapping. */
  datatype ConfigDoc = ConfigDoc(pipeline: Option<Section>)

  /** The first problem `build_pipeline_from_config` finds, in the order it
      looks: `pipeline`, then `steps`, then for each entry in turn its
      `type`, its registration and its construction. Positions are 1-based. */
  datatype BuildError =
    | MissingPipeline
    | MissingSteps
    | MissingType(position: nat)
    | UnknownType(stepType: Value, position: nat, known: seq<string>)
    | CtorFailed(typeName: string, position: nat, cause: string)
    | CtorRaised(cause: string)

  /** The constructor's keyword arguments: every key of the entry except
      `type`, with its value. */
  function Params(entry: Dict): (p: Dict)
    ensures p.Keys == entry.Keys - {"type"}
    ensures forall k :: k in p ==> p[k] == entry[k]
  {
    map k | k in entry && k != "type" :: entry[k]
  }

  /** The step type an entry names is registered. */
  predicate Registered<D>(reg: Registry<D>, entry: Dict) {
    "type" in entry && entry["type"].Str? && entry["type"].s in reg
  }

  /** One entry at 1-based `position`: a missing `type`, an unregistered
      type (reported with the registered names in sorted order) and a
      refused construction are told apart; a built step carries the class
      name and the `run` its constructor produced from Params(entry). */
  function BuildStep<D>(reg: Registry<D>, entry: Dict, position: nat): (r: Result<Step<D>, BuildError>)
    ensures "type" !in entry ==> r == Failure(MissingType(position))
    ensures "type" in entry && !Registered(reg, entry) ==>
              r.Failure? && r.error.UnknownType? && r.error.stepType == entry["type"] &&
              r.error.position == position &&
              |r.error.known| == |reg| && (forall i :: 0 <= i < |r.error.known| ==> r.error.known[i] in reg) &&
              (forall i, j :: 0 <= i < j < |r.error.known| ==> LexLess(r.error.known[i], r.error.known[j]))
    ensures Registered(reg, entry) ==>
              var ctor := reg[entry["type"].s];
              var made := ctor.make(Params(entry));
              (r.Success? <==> made.Success?) &&
              (r.Success? ==> r.value == Step(ctor.className, made.value)) &&
              (made.Failure? && made.error.ArgMismatch? ==>
                 r == Failure(CtorFailed(entry["type"].s, position, made.error.msg))) &&
              (made.Failure? && made.error.Other? ==> r == Failure(CtorRaised(made.error.msg)))
  {
    if "type" !in entry then Failure(MissingType(position))
    else
      var t := entry["type"];
      if !(t.Str? && t.s in reg) then Failure(UnknownType(t, position, SortedStrings(reg.Keys)))
      else
        var ctor := reg[t.s];
        match ctor.make(Params(entry))
        case Success(run) => Success(Step(ctor.className, run))
        case Failure(ArgMismatch(msg)) => Failure(CtorFailed(t.s, position, msg))
        case Failure(Other(msg)) => Failure(CtorRaised(msg))
  }

  /** The entry at 0-based index i builds. */
  predicate EntryBuilds<D>(reg: Registry<D>, entries: seq<Dict>, i: int)
    requires 0 <= i < |entries|
  {
    BuildStep(reg, entries[i], i + 1).Success?
  }

  /** Whether an entry builds depends only on the entry and its position. */
  lemma InitBuilds<D>(reg: Registry<D>, entries: seq<Dict>)
    requires |entries| > 0
    ensures forall i :: 0 <= i < |entries| - 1 ==>
              EntryBuilds(reg, entries[..|entries| - 1], i) == EntryBuilds(reg, entries, i)
  {
    assert forall i :: 0 <= i < |entries| - 1 ==> entries[..|entries| - 1][i] == entries[i];
  }

  /** A failure among all but the last entry is a failure of the whole list. */
  lemma InitFailure<D>(reg: Registry<D>, entries: seq<Dict>, e: BuildError)
    requires |entries| > 0 && BuildSteps(reg, entries[..|entries| - 1]) == Failure(e)
    ensures exists p :: 0 <= p < |entries| && !EntryBuilds(reg, entries, p) &&
              e == BuildStep(reg, entries[p], p + 1).error &&
              forall i :: 0 <= i < p ==> EntryBuilds(reg, entries, i)
    decreases |entries|, 0
  {
    var init := entries[..|entries| - 1];
    var p :| 0 <= p < |init| && !EntryBuilds(reg, init, p) &&
             e == BuildStep(reg, init[p], p + 1).error &&
             forall i :: 0 <= i < p ==> EntryBuilds(reg, init, i);
    InitBuilds(reg, entries);
    assert init[p] == entries[p];
    assert !EntryBuilds(reg, entries, p);
  }

  /** The steps of a config, built in order: one step per entry when every
      entry builds, otherwise the error of the first entry that does not,
      every entry before it having built. */
  function BuildSteps<D>(reg: Registry<D>, entries: seq<Dict>): (r: Result<seq<Step<D>>, BuildError>)
    ensures r.Success? <==> forall i :: 0 <= i < |entries| ==> EntryBuilds(reg, entries, i)
    ensures r.Success? ==>
              |r.value| == |entries| &&
              forall i :: 0 <= i < |entries| ==>
                EntryBuilds(reg, entries, i) && r.value[i] == BuildStep(reg, entries[i], i + 1).value
    ensures r.Failure? ==>
              exists p :: 0 <= p < |entries| && !EntryBuilds(reg, entries, p) &&
                r.error == BuildStep(reg, entries[p], p + 1).error &&
                forall i :: 0 <= i < p ==> EntryBuilds(reg, entries, i)
    decreases |entries|, 1
  {
    if |entries| == 0 then Success([])
    else
      var init := entries[..|entries| - 1];
      var n := |entries|;
      InitBuilds(reg, entries);
      match BuildSteps(reg, init)
      case Failure(e) =>
        InitFailure(reg, entries, e);
        Failure(e)
      case Success(prefix) =>
        match BuildStep(reg, entries[n - 1], n)
        case Failure(e) =>
          assert !EntryBuilds(reg, entries, n - 1) && e == BuildStep(reg, entries[n - 1], n).error;
          Failure(e)
        case Success(s) =>
          assert forall i :: 0 <= i < n - 1 ==> (prefix + [s])[i] == prefix[i];
          Success(prefix + [s])
  }

  /** The pipeline's name: `pipeline_config.get("name", "unnamed_pipeline")`
      and then `Pipeline`'s `name or "unnamed_pipeline"`; a non-string name
      is shown as Python's `str` of it. */
  function ResolveName(name: Option<Value>): (r: string)
    ensures r != ""
    ensures name.Some? && name.value.Str? && name.value.s != "" ==> r == name.value.s
    ensures name.None? || !Truthy(name.value) ==> r == DefaultName
  {
    var v := name.GetOr(Str(DefaultName));
    if Truthy(v) then (if v.Str? then v.s else if Show(v) == "" then DefaultName else Show(v))
    else DefaultName
  }

  /** `build_pipeline_from_config(config)`: checks for `pipeline` before
      anything else, then for `steps`, then builds every entry in order; on
      success the pipeline holds one step per entry, in config order, under
      the resolved name. */
  function Build<D>(reg: Registry<D>, doc: ConfigDoc): (r: Result<Pipeline<D>, BuildError>)
    ensures doc.pipeline.None? ==> r == Failure(MissingPipeline)
    ensures doc.pipeline.Some? && doc.pipeline.value.steps.None? ==> r == Failure(MissingSteps)
    ensures r.Success? ==>
              doc.pipeline.Some? && doc.pipeline.value.steps.Some? &&
              var entries := doc.pipeline.value.steps.value;
              r.value.name == ResolveName(doc.pipeline.value.name) &&
              |r.value.steps| == |entries| &&
              (forall i :: 0 <= i < |entries| ==>
                 Registered(reg, entries[i]) &&
                 r.value.steps[i].className == reg[entries[i]["type"].s].className)
    ensures doc.pipeline.Some? && doc.pipeline.value.steps.Some? ==>
              var built := BuildSteps(reg, doc.pipeline.value.steps.value);
              (r.Success? <==> built.Success?) &&
              (built.Failure? ==> r == Failure(built.error)) &&
              (built.Success? ==> r.value.steps == built.value)
  {
    if doc.pipeline.None? then Failure(MissingPipeline)
    else
      var section := doc.pipeline.value;
      if section.steps.None? then Failure(MissingSteps)
      else
        var entries := section.steps.value;
        match BuildSteps(reg, entries)
        case Failure(e) => Failure(e)
        case Success(steps) =>
          assert forall i :: 0 <= i < |entries| ==>
            EntryBuilds(reg, entries, i) && Registered(reg, entries[i]) &&
            steps[i].className == reg[entries[i]["type"].s].className;
          Success(NewPipeline(steps, Some(ResolveName(section.name))))
  }

  /** A missing `type` is reported for the first entry lacking one, provided
      the entries before it build; nothing after it is examined. */
  lemma MissingTypeStopsBuild<D>(reg: Registry<D>, section: Section, p: nat)
    requires section.steps.Some? && p < |section.steps.value|
    requires "type" !in section.steps.value[p]
    requires forall i :: 0 <= i < p ==> EntryBuilds(reg, section.steps.value, i)
    ensures Build(reg, ConfigDoc(Some(section))) == Failure(MissingType(p + 1))
  {
    var entries := section.steps.value;
    var r := BuildSteps(reg, entries);
    assert !EntryBuilds(reg, entries, p);
    var q :| 0 <= q < |entries| && !EntryBuilds(reg, entries, q) &&
             r.error == BuildStep(reg, entries[q], q + 1).error &&
             forall i :: 0 <= i < q ==> EntryBuilds(reg, entries, i);
    assert q == p;
  }

  // ---------------------------------------------------------------------------
  // Messages
  // ---------------------------------------------------------------------------

  /** The text of the registered names in an unknown-type message: the
      names joined with ", ", or "(none registered)" when that text is
      empty, which happens for no names and for the single name "". */
  function Available(known: seq<string>): (r: string)
    ensures known == [] || known == [""] ==> r == "(none registered)"
    ensures !(known == [] || known == [""]) ==> r == Join(known, ", ")
    ensures forall i :: 0 <= i < |known| ==> Contains(r, known[i])
  {
    var joined := Join(known, ", ");
    JoinEmpty(known, ", ");
    if joined == "" then
      assert forall i :: 0 <= i < |known| ==> known[i] == "";
      ContainsInfix("", "", "(none registered)");
      assert "" + "" + "(none registered)" == "(none registered)";
      "(none registered)"
    else
      JoinContainsParts(known, ", ");
      joined
  }

  /** The text of each build error, as raised. */
  function BuildMessage(e: BuildError): (m: string)
    ensures e.MissingSteps? ==> Contains(m, "steps")
    ensures e.MissingPipeline? ==> Contains(m, "pipeline")
    ensures e.UnknownType? ==>
              Contains(m, "Unknown step type") && Contains(m, Show(e.stepType)) &&
              Contains(m, NatToString(e.position)) &&
              (forall i :: 0 <= i < |e.known| ==> Contains(m, e.known[i])) &&
              (e.known == [] || e.known == [""] ==> Contains(m, "(none registered)"))
    ensures e.MissingType? ==> Contains(m, NatToString(e.position)) && Contains(m, "type")
    ensures e.CtorFailed? ==> Contains(m, e.typeName) && Contains(m, NatToString(e.position)) && Contains(m, e.cause)
    ensures e.CtorRaised? ==> m == e.cause
  {
    match e
    case MissingPipeline =>
      ContainsInfix("Configuration must contain a '", "pipeline", "' key");
      "Configuration must contain a '" + "pipeline" + "' key"
    case MissingSteps =>
      ContainsInfix("Pipeline configuration must contain a '", "steps", "' list");
      "Pipeline configuration must contain a '" + "steps" + "' list"
    case MissingType(p) =>
      InterleavedContains("Step ", NatToString(p), " is missing required '", "type", "", "' field");
      "Step " + NatToString(p) + " is missing required '" + "type" + "" + "' field"
    case UnknownType(t, p, known) => UnknownTypeMessage(Show(t), NatToString(p), known)
    case CtorFailed(t, p, cause) =>
      InterleavedContains("Failed to instantiate step '", t, "' at position ", NatToString(p), ": ", cause);
      "Failed to instantiate step '" + t + "' at position " + NatToString(p) + ": " + cause
    case CtorRaised(cause) =>
      cause
  }

  /** "Unknown step type '<t>' at position <p>. Available types: <names>". */
  function UnknownTypeMessage(t: string, p: string, known: seq<string>): (m: string)
    ensures Contains(m, "Unknown step type") && Contains(m, t) && Contains(m, p)
    ensures forall i :: 0 <= i < |known| ==> Contains(m, known[i])
    ensures known == [] || known == [""] ==> Contains(m, "(none registered)")
  {
    var avail := Available(known);
    var head := UnknownTypeHead(t, p);
    ContainsPrefix(head, avail, "Unknown step type");
    ContainsPrefix(head, avail, t);
    ContainsPrefix(head, avail, p);
    ContainsSuffixEach(head, avail, known);
    if known == [] || known == [""] then ContainsSelf(avail); ContainsSuffix(head, avail, "(none registered)"); head + avail
    else head + avail
  }

  /** "Unknown step type '<t>' at position <p>. Available types: ". */
  function UnknownTypeHead(t: string, p: string): (m: string)
    ensures Contains(m, "Unknown step type") && Contains(m, t) && Contains(m, p)
  {
    HeadContains("Unknown step type", " '", t, "' at position ", p, ". Available types: ");
    "Unknown step type" + " '" + t + "' at position " + p + ". Available types: "
  }
}
