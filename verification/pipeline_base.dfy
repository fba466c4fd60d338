/**
 * The pipeline container (`app/pipeline/base.py`): the context's step results and
 * metadata, the per-step SKIPPED / FAILED / COMPLETED rules of `PipelineStep.execute`,
 * and the list operations and runs of `Pipeline`. A step's own behaviour — whether it
 * skips, whether its input is valid, what `process` does or raises — is an oracle, and
 * so is the clock that times it.
 */
module PipelineBase {
  import opened Wrappers

  // ---------------------------------------------------------------------------
  // Step results

  datatype Status = Pending | Running | Completed | Failed | Skipped

  /** The enum's value, as stored in a step result. */
  function StatusValue(s: Status): string {
    match s
    case Pending => "pending"
    case Running => "running"
    case Completed => "completed"
    case Failed => "failed"
    case Skipped => "skipped"
  }

  lemma StatusValueInjective(a: Status, b: Status)
    ensures StatusValue(a) == StatusValue(b) ==> a == b
  {
  }

  /** One entry of `step_results`: status, duration and the error message, if any. */
  datatype StepResult = StepResult(status: Status, duration: real, error: Option<string>)

  /** The keys of an insertion-ordered dictionary, in order. */
  function Keys<V>(d: seq<(string, V)>): (ks: seq<string>)
    ensures |ks| == |d| && forall i :: 0 <= i < |d| ==> ks[i] == d[i].0
  {
    seq(|d|, i requires 0 <= i < |d| => d[i].0)
  }

  predicate DistinctKeys<V>(d: seq<(string, V)>) {
    forall i, j :: 0 <= i < j < |d| ==> d[i].0 != d[j].0
  }

  /** The value stored under `k`. */
  function Lookup<V>(d: seq<(string, V)>, k: string): (r: Option<V>)
    ensures r.None? <==> k !in Keys(d)
    decreases |d|
  {
    if |d| == 0 then None
    else if d[0].0 == k then Some(d[0].1)
    else Lookup(d[1..], k)
  }

  /**
   * `d[k] = v` on a Python dictionary: an existing key keeps its place and takes the
   * new value, a new key goes last; no other entry changes.
   */
  function Put<V>(d: seq<(string, V)>, k: string, v: V): (r: seq<(string, V)>)
    ensures Keys(r) == if k in Keys(d) then Keys(d) else Keys(d) + [k]
    decreases |d|
  {
    if |d| == 0 then [(k, v)]
    else if d[0].0 == k then [(k, v)] + d[1..]
    else
      var rest := Put(d[1..], k, v);
      assert Keys(d) == [d[0].0] + Keys(d[1..]);
      assert Keys([d[0]] + rest) == [d[0].0] + Keys(rest);
      [d[0]] + rest
  }

  /** After `d[k] = v`, `k` reads `v` and every other key reads as before. */
  lemma {:induction false} PutLookup<V>(d: seq<(string, V)>, k: string, v: V, k': string)
    ensures Lookup(Put(d, k, v), k') == if k' == k then Some(v) else Lookup(d, k')
    decreases |d|
  {
    if |d| > 0 && d[0].0 != k {
      PutLookup(d[1..], k, v, k');
      assert ([d[0]] + Put(d[1..], k, v))[1..] == Put(d[1..], k, v);
    }
  }

  /** Keys stay distinct under `d[k] = v`. */
  lemma PutDistinct<V>(d: seq<(string, V)>, k: string, v: V)
    requires DistinctKeys(d)
    ensures DistinctKeys(Put(d, k, v))
  {
    var r := Put(d, k, v);
    assert Keys(r) == if k in Keys(d) then Keys(d) else Keys(d) + [k];
    forall i, j | 0 <= i < j < |r|
      ensures r[i].0 != r[j].0
    {
      assert Keys(r)[i] == r[i].0 && Keys(r)[j] == r[j].0;
      if j >= |d| {
        assert Keys(r)[j] == k && k !in Keys(d) && Keys(d)[i] == d[i].0;
      } else {
        assert Keys(d)[i] == d[i].0 && Keys(d)[j] == d[j].0;
      }
    }
  }

  // ---------------------------------------------------------------------------
  // The context

  /**
   * The parts of `PipelineContext` the container touches: the steps' own data, the
   * `metadata` dictionary and `step_results`.
   */
  datatype Context<D> = Context(data: D, metadata: map<string, D>, results: seq<(string, StepResult)>)

  /** `PipelineContext.get`: the metadata value, or the default. */
  function Get<D>(ctx: Context<D>, key: string, default: D): D {
    if key in ctx.metadata then ctx.metadata[key] else default
  }

  /** `PipelineContext.set`. */
  function Set<D>(ctx: Context<D>, key: string, value: D): Context<D> {
    ctx.(metadata := ctx.metadata[key := value])
  }

  /** A value set is read back under its key; every other key reads as before. */
  lemma GetAfterSet<D>(ctx: Context<D>, key: string, value: D, key': string, default: D)
    ensures Get(Set(ctx, key, value), key', default) == if key' == key then value else Get(ctx, key', default)
    ensures Set(ctx, key, value).results == ctx.results && Set(ctx, key, value).data == ctx.data
  {
  }

  /** `PipelineContext.add_step_result`. */
  function AddStepResult<D>(ctx: Context<D>, name: string, status: Status, duration: real, error: Option<string>): (c: Context<D>)
    ensures Lookup(c.results, name) == Some(StepResult(status, duration, error))
    ensures forall k :: k != name ==> Lookup(c.results, k) == Lookup(ctx.results, k)
    ensures c.data == ctx.data && c.metadata == ctx.metadata
  {
    var r := StepResult(status, duration, error);
    PutLookup(ctx.results, name, r, name);
    forall k | k != name
      ensures Lookup(Put(ctx.results, name, r), k) == Lookup(ctx.results, k)
    {
      PutLookup(ctx.results, name, r, k);
    }
    ctx.(results := Put(ctx.results, name, r))
  }

  // ---------------------------------------------------------------------------
  // Steps

  /** A step: its name and its overridable behaviour, as oracles. */
  datatype Step<!D> = Step(name: string, shouldSkip: Context<D> -> bool, validInput: Context<D> -> bool,
                          process: Context<D> -> Result<Context<D>, string>)

  /** The context after a step or a run, and the message of the exception raised, if any. */
  datatype Outcome<D> = Outcome(context: Context<D>, error: Option<string>)

  /** The message `PipelineStep.execute` raises when `validate_input` fails. */
  function ValidationMessage(name: string): string {
    "Input validation failed for step: " + name
  }

  /**
   * `PipelineStep.execute`, taking `duration` seconds: a skipped step records SKIPPED
   * without running `process`; failed validation or an exception from `process` records
   * FAILED with the message and re-raises it; otherwise the processed context records
   * COMPLETED.
   */
  function ExecuteStep<D>(s: Step<D>, ctx: Context<D>, duration: real): (o: Outcome<D>)
    ensures o.error.None? <==> s.shouldSkip(ctx) || (s.validInput(ctx) && s.process(ctx).Ok?)
    ensures Lookup(o.context.results, s.name).Some?
    ensures Lookup(o.context.results, s.name).value
      == StepResult(if s.shouldSkip(ctx) then Skipped else if o.error.Some? then Failed else Completed,
                    duration, o.error)
    ensures !s.shouldSkip(ctx) && !s.validInput(ctx) ==> o.error == Some(ValidationMessage(s.name))
    ensures !s.shouldSkip(ctx) && s.validInput(ctx) && s.process(ctx).Err? ==> o.error == Some(s.process(ctx).error)
    ensures o.error.Some? || s.shouldSkip(ctx) ==> o.context.data == ctx.data && o.context.metadata == ctx.metadata
    ensures o.error.None? && !s.shouldSkip(ctx) ==> o.context.data == s.process(ctx).value.data
  {
    if s.shouldSkip(ctx) then Outcome(AddStepResult(ctx, s.name, Skipped, duration, None), None)
    else if !s.validInput(ctx) then
      var e := ValidationMessage(s.name);
      Outcome(AddStepResult(ctx, s.name, Failed, duration, Some(e)), Some(e))
    else match s.process(ctx)
      case Ok(c) => Outcome(AddStepResult(c, s.name, Completed, duration, None), None)
      case Err(e) => Outcome(AddStepResult(ctx, s.name, Failed, duration, Some(e)), Some(e))
  }

  // ---------------------------------------------------------------------------
  // Runs

  /**
   * Running `steps` in order from `ctx`, step `i` taking `clock(i)` seconds: after the
   * first failure nothing more runs and its exception propagates.
   */
  function RunSteps<D>(steps: seq<Step<D>>, ctx: Context<D>, clock: int -> real): Outcome<D>
    decreases |steps|
  {
    if |steps| == 0 then Outcome(ctx, None)
    else
      var o := RunSteps(steps[..|steps| - 1], ctx, clock);
      if o.error.Some? then o else ExecuteStep(steps[|steps| - 1], o.context, clock(|steps| - 1))
  }

  lemma RunSnoc<D>(steps: seq<Step<D>>, i: int, ctx: Context<D>, clock: int -> real)
    requires 0 <= i < |steps|
    ensures var o := RunSteps(steps[..i], ctx, clock);
      RunSteps(steps[..i + 1], ctx, clock) == if o.error.Some? then o else ExecuteStep(steps[i], o.context, clock(i))
  {
    assert steps[..i + 1][..i] == steps[..i];
  }

  /** Once a prefix has failed, the longer run ends in that same failure. */
  lemma {:induction false} FailureSticks<D>(steps: seq<Step<D>>, k: int, ctx: Context<D>, clock: int -> real)
    requires 0 <= k <= |steps| && RunSteps(steps[..k], ctx, clock).error.Some?
    ensures RunSteps(steps, ctx, clock) == RunSteps(steps[..k], ctx, clock)
    decreases |steps| - k
  {
    if k < |steps| {
      RunSnoc(steps, k, ctx, clock);
      FailureSticks(steps, k + 1, ctx, clock);
    } else {
      assert steps[..k] == steps;
    }
  }

  /**
   * A failed run stops at its first failing step: every step before it succeeded, and
   * the run's outcome is that step's failed execution.
   */
  lemma {:induction false} StopsAtFirstFailure<D>(steps: seq<Step<D>>, ctx: Context<D>, clock: int -> real)
    requires RunSteps(steps, ctx, clock).error.Some?
    ensures exists k :: (0 <= k < |steps| && RunSteps(steps[..k], ctx, clock).error.None?
      && RunSteps(steps, ctx, clock) == ExecuteStep(steps[k], RunSteps(steps[..k], ctx, clock).context, clock(k)))
    decreases |steps|
  {
    var n := |steps|;
    var prefix := steps[..n - 1];
    var o := RunSteps(prefix, ctx, clock);
    if o.error.Some? {
      StopsAtFirstFailure(prefix, ctx, clock);
      var k :| 0 <= k < n - 1 && RunSteps(prefix[..k], ctx, clock).error.None?
        && o == ExecuteStep(prefix[k], RunSteps(prefix[..k], ctx, clock).context, clock(k));
      assert prefix[..k] == steps[..k] && prefix[k] == steps[k];
    } else {
      assert RunSteps(steps, ctx, clock) == ExecuteStep(steps[n - 1], o.context, clock(n - 1));
    }
  }

  /** `Pipeline.execute`: every step in order, stopping at the first failure. */
  method Execute<D>(steps: seq<Step<D>>, ctx: Context<D>, clock: int -> real) returns (o: Outcome<D>)
    ensures o == RunSteps(steps, ctx, clock)
  {
    var c := ctx;
    var i := 0;
    assert steps[..0] == [];
    while i < |steps|
      invariant 0 <= i <= |steps|
      invariant RunSteps(steps[..i], ctx, clock) == Outcome(c, None)
    {
      RunSnoc(steps, i, ctx, clock);
      var r := ExecuteStep(steps[i], c, clock(i));
      if r.error.Some? {
        FailureSticks(steps, i + 1, ctx, clock);
        return r;
      }
      c := r.context;
      i := i + 1;
    }
    assert steps[..i] == steps;
    return Outcome(c, None);
  }

  function StepNames<D>(steps: seq<Step<D>>): (ns: seq<string>)
    ensures |ns| == |steps| && forall i :: 0 <= i < |steps| ==> ns[i] == steps[i].name
  {
    seq(|steps|, i requires 0 <= i < |steps| => steps[i].name)
  }

  lemma StepNamesSnoc<D>(steps: seq<Step<D>>)
    requires |steps| > 0
    ensures StepNames(steps) == StepNames(steps[..|steps| - 1]) + [steps[|steps| - 1].name]
  {
    var a := StepNames(steps);
    var b := StepNames(steps[..|steps| - 1]) + [steps[|steps| - 1].name];
    assert |a| == |b|;
    forall k | 0 <= k < |a|
      ensures a[k] == b[k]
    {
      if k < |steps| - 1 {
        assert b[k] == steps[..|steps| - 1][k].name;
      }
    }
  }

  /** A step whose `process` leaves the recorded step results as it found them. */
  ghost predicate KeepsResults<D(!new)>(s: Step<D>) {
    forall c :: s.process(c).Ok? ==> s.process(c).value.results == c.results
  }

  /** A successful step whose processing leaves the results alone records one new entry, last. */
  lemma ExecuteStepRecords<D(!new)>(s: Step<D>, c: Context<D>, duration: real)
    requires KeepsResults(s) && s.name !in Keys(c.results)
    requires ExecuteStep(s, c, duration).error.None?
    ensures Keys(ExecuteStep(s, c, duration).context.results) == Keys(c.results) + [s.name]
  {
    if !s.shouldSkip(c) {
      assert s.process(c).value.results == c.results;
    }
  }

  /** The hypotheses of `SuccessfulRunRecords` pass to the run's prefix, and its last name is new. */
  lemma FreshNamesPrefix<D(!new)>(steps: seq<Step<D>>, recorded: seq<string>)
    requires |steps| > 0
    requires forall i, j :: 0 <= i < j < |steps| ==> steps[i].name != steps[j].name
    requires forall i :: 0 <= i < |steps| ==> steps[i].name !in recorded
    ensures var p := steps[..|steps| - 1];
      (forall i, j :: 0 <= i < j < |p| ==> p[i].name != p[j].name)
      && (forall i :: 0 <= i < |p| ==> p[i].name !in recorded)
      && steps[|steps| - 1].name !in recorded + StepNames(p)
  {
    var p := steps[..|steps| - 1];
    forall i | 0 <= i < |p|
      ensures StepNames(p)[i] != steps[|steps| - 1].name
    {
      assert p[i] == steps[i];
    }
  }

  /**
   * A successful run of distinctly named steps, none already recorded, whose processing
   * leaves the step results alone, records each step once, in the order of the run.
   */
  lemma {:induction false} SuccessfulRunRecords<D(!new)>(steps: seq<Step<D>>, ctx: Context<D>, clock: int -> real)
    requires forall i :: 0 <= i < |steps| ==> KeepsResults(steps[i])
    requires forall i, j :: 0 <= i < j < |steps| ==> steps[i].name != steps[j].name
    requires forall i :: 0 <= i < |steps| ==> steps[i].name !in Keys(ctx.results)
    requires RunSteps(steps, ctx, clock).error.None?
    ensures Keys(RunSteps(steps, ctx, clock).context.results) == Keys(ctx.results) + StepNames(steps)
    decreases |steps|
  {
    if |steps| > 0 {
      var n := |steps|;
      var p := steps[..n - 1];
      var o := RunSteps(p, ctx, clock);
      var s := steps[n - 1];
      assert o.error.None?;
      FreshNamesPrefix(steps, Keys(ctx.results));
      assert forall i :: 0 <= i < |p| ==> KeepsResults(p[i]);
      SuccessfulRunRecords(p, ctx, clock);
      ExecuteStepRecords(s, o.context, clock(n - 1));
      StepNamesSnoc(steps);
    }
  }

  // ---------------------------------------------------------------------------
  // The step list

  /** The position of the first step named `name`. */
  function Find<D>(steps: seq<Step<D>>, name: string): (r: Option<nat>)
    ensures r.None? <==> forall i :: 0 <= i < |steps| ==> steps[i].name != name
    ensures r.Some? ==> (r.value < |steps| && steps[r.value].name == name
      && forall i :: 0 <= i < r.value ==> steps[i].name != name)
    decreases |steps|
  {
    if |steps| == 0 then None
    else if steps[0].name == name then Some(0)
    else match Find(steps[1..], name)
      case None => None
      case Some(i) => Some(i + 1)
  }

  /** `Pipeline.get_step`: the first step with the name, or none. */
  method GetStep<D>(steps: seq<Step<D>>, name: string) returns (r: Option<Step<D>>)
    ensures r.None? <==> forall i :: 0 <= i < |steps| ==> steps[i].name != name
    ensures r.Some? ==> exists i :: (0 <= i < |steps| && steps[i] == r.value && steps[i].name == name
      && forall j :: 0 <= j < i ==> steps[j].name != name)
  {
    var i := 0;
    while i < |steps|
      invariant 0 <= i <= |steps|
      invariant forall j :: 0 <= j < i ==> steps[j].name != name
    {
      if steps[i].name == name {
        return Some(steps[i]);
      }
      i := i + 1;
    }
    return None;
  }

  /** The message `execute_from` raises for a name not in the pipeline. */
  function NotFoundMessage(name: string): string {
    "Step '" + name + "' not found in pipeline"
  }

  /**
   * `Pipeline.execute_from`: raises, running nothing, when no step has the name;
   * otherwise runs exactly the steps from the first one with it to the end.
   */
  method ExecuteFrom<D>(steps: seq<Step<D>>, ctx: Context<D>, name: string, clock: int -> real) returns (o: Outcome<D>)
    ensures Find(steps, name).None? ==> o == Outcome(ctx, Some(NotFoundMessage(name)))
    ensures Find(steps, name).Some? ==> o == RunSteps(steps[Find(steps, name).value..], ctx, clock)
  {
    var start: Option<nat> := None;
    var i := 0;
    while i < |steps|
      invariant 0 <= i <= |steps|
      invariant forall j :: 0 <= j < i ==> steps[j].name != name
    {
      if steps[i].name == name {
        start := Some(i);
        break;
      }
      i := i + 1;
    }
    if start.None? {
      return Outcome(ctx, Some(NotFoundMessage(name)));
    }
    o := Execute(steps[start.value..], ctx, clock);
  }

  /**
   * The steps `execute_until` goes through: a prefix of the pipeline that ends at the
   * first step with the name, or the whole pipeline when none has it.
   */
  function UntilPrefix<D>(steps: seq<Step<D>>, name: string): (u: seq<Step<D>>)
    ensures |u| <= |steps| && u == steps[..|u|]
    ensures forall j :: 0 <= j < |u| - 1 ==> steps[j].name != name
    ensures |u| < |steps| ==> |u| > 0 && steps[|u| - 1].name == name
    ensures |u| == |steps| ==> forall j :: 0 <= j < |steps| - 1 ==> steps[j].name != name
  {
    match Find(steps, name)
    case None => steps
    case Some(k) => steps[..k + 1]
  }

  /**
   * `Pipeline.execute_until`: runs the steps in order and stops after the first one
   * with the name (all of them when none has it), or at the first failure.
   */
  method ExecuteUntil<D>(steps: seq<Step<D>>, ctx: Context<D>, name: string, clock: int -> real) returns (o: Outcome<D>)
    ensures o == RunSteps(UntilPrefix(steps, name), ctx, clock)
  {
    ghost var u := UntilPrefix(steps, name);
    var c := ctx;
    var i := 0;
    assert u[..0] == [];
    while i < |steps|
      invariant 0 <= i <= |u|
      invariant RunSteps(u[..i], ctx, clock) == Outcome(c, None)
      invariant forall j :: 0 <= j < i ==> steps[j].name != name
    {
      assert u[i] == steps[i];
      RunSnoc(u, i, ctx, clock);
      var r := ExecuteStep(steps[i], c, clock(i));
      if r.error.Some? {
        FailureSticks(u, i + 1, ctx, clock);
        return r;
      }
      c := r.context;
      if steps[i].name == name {
        assert |u| == i + 1 && u[..i + 1] == u;
        return Outcome(c, None);
      }
      i := i + 1;
    }
    assert u[..i] == u;
    return Outcome(c, None);
  }

  /** `Pipeline.add_steps`: each step appended in turn, in the given order. */
  method AddSteps<D>(steps: seq<Step<D>>, more: seq<Step<D>>) returns (r: seq<Step<D>>)
    ensures r == steps + more
  {
    r := steps;
    var i := 0;
    while i < |more|
      invariant 0 <= i <= |more| && r == steps + more[..i]
    {
      assert more[..i + 1] == more[..i] + [more[i]];
      r := r + [more[i]];
      i := i + 1;
    }
    assert more[..i] == more;
  }

  /** `Pipeline.remove_step`: every step with the name dropped, the rest in order. */
  function RemoveStep<D>(steps: seq<Step<D>>, name: string): (r: seq<Step<D>>)
    ensures forall i :: 0 <= i < |r| ==> r[i].name != name
    ensures |r| <= |steps|
    decreases |steps|
  {
    if |steps| == 0 then []
    else
      var rest := RemoveStep(steps[..|steps| - 1], name);
      if steps[|steps| - 1].name == name then rest else rest + [steps[|steps| - 1]]
  }

  /** Removing distributes over concatenation, so the kept steps keep their relative order. */
  lemma {:induction false} RemoveAppend<D>(a: seq<Step<D>>, b: seq<Step<D>>, name: string)
    ensures RemoveStep(a + b, name) == RemoveStep(a, name) + RemoveStep(b, name)
    decreases |b|
  {
    if |b| == 0 {
      assert a + b == a;
    } else {
      RemoveAppend(a, b[..|b| - 1], name);
      assert (a + b)[..|a + b| - 1] == a + b[..|b| - 1];
    }
  }

  /** A list without the name is unchanged, so removing twice is removing once. */
  lemma {:induction false} RemoveAbsent<D>(steps: seq<Step<D>>, name: string)
    requires forall i :: 0 <= i < |steps| ==> steps[i].name != name
    ensures RemoveStep(steps, name) == steps
    decreases |steps|
  {
    if |steps| > 0 {
      RemoveAbsent(steps[..|steps| - 1], name);
    }
  }

  /** Where Python's `list.insert(index, x)` puts `x`: a negative index counts from the end, then clamped. */
  function InsertPosition(n: nat, index: int): (p: nat)
    ensures p <= n
    ensures 0 <= index <= n ==> p == index
  {
    if index < 0 then (if index + n < 0 then 0 else index + n)
    else if index > n then n
    else index
  }

  /** `Pipeline.insert_step`: the step at its position, the others shifted past it. */
  function InsertStep<D>(steps: seq<Step<D>>, index: int, s: Step<D>): (r: seq<Step<D>>)
    ensures var p := InsertPosition(|steps|, index);
      |r| == |steps| + 1 && r[p] == s
      && (forall i :: 0 <= i < p ==> r[i] == steps[i])
      && (forall i :: p <= i < |steps| ==> r[i + 1] == steps[i])
  {
    var p := InsertPosition(|steps|, index);
    steps[..p] + [s] + steps[p..]
  }

  /** Removing a name held by one step only, between two lists without it, leaves the two lists. */
  lemma RemoveBetween<D>(a: seq<Step<D>>, s: Step<D>, b: seq<Step<D>>)
    requires forall i :: 0 <= i < |a| ==> a[i].name != s.name
    requires forall i :: 0 <= i < |b| ==> b[i].name != s.name
    ensures RemoveStep(a + ([s] + b), s.name) == a + b
  {
    RemoveAppend(a, [s] + b, s.name);
    RemoveAppend([s], b, s.name);
    assert RemoveStep([s], s.name) == [] by {
      assert [s][..0] == [];
    }
    RemoveAbsent(a, s.name);
    RemoveAbsent(b, s.name);
    calc {
      RemoveStep(a + ([s] + b), s.name);
      RemoveStep(a, s.name) + RemoveStep([s] + b, s.name);
      a + (RemoveStep([s], s.name) + RemoveStep(b, s.name));
      { assert [] + b == b; }
      a + b;
    }
  }

  /** Inserting a step under a fresh name, then removing that name, restores the list. */
  lemma InsertThenRemove<D>(steps: seq<Step<D>>, index: int, s: Step<D>)
    requires forall i :: 0 <= i < |steps| ==> steps[i].name != s.name
    ensures RemoveStep(InsertStep(steps, index, s), s.name) == steps
  {
    var p := InsertPosition(|steps|, index);
    var a, b := steps[..p], steps[p..];
    assert InsertStep(steps, index, s) == a + ([s] + b);
    assert forall i :: 0 <= i < |a| ==> a[i] == steps[i];
    assert forall i :: 0 <= i < |b| ==> b[i] == steps[p + i];
    RemoveBetween(a, s, b);
    assert a + b == steps;
  }
}
