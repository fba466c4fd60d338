/**
 * `PipelineOrchestrator` (`app/pipeline/orchestrator.py`): the two pipeline factories,
 * the execution summary and the configuration check. A step is described by its kind
 * and the configuration values it is built with; its name is its class name.
 */
module Orchestrator {
  import opened Wrappers
  import opened PipelineBase

  /** The configuration dictionary; every value the factories read is a number. */
  type Config = map<string, real>

  /** `config.get(key, default)`. */
  function ConfigGet(config: Config, key: string, default: real): real {
    if key in config then config[key] else default
  }

  /** A configured step: its class and the constructor arguments taken from the configuration. */
  datatype StepKind =
    | AudioResampling(targetSampleRate: real)
    | SilenceDetection(minSilenceLen: real, silenceThresh: real, keepSilence: real)
    | ChunkMerging(minChunkDuration: real, minSilenceGap: real)
    | ChunkTranscription
    | DuplicateRemoval
    | TranscriptionCombining
    | VerseMatching
    | TimestampCalculation
    | SilenceSplitting
    | AudioSplitting

  /** The step's name: its class name, since no step passes a name of its own. */
  function ClassName(k: StepKind): string {
    match k
    case AudioResampling(_) => "AudioResamplingStep"
    case SilenceDetection(_, _, _) => "SilenceDetectionStep"
    case ChunkMerging(_, _) => "ChunkMergingStep"
    case ChunkTranscription => "ChunkTranscriptionStep"
    case DuplicateRemoval => "DuplicateRemovalStep"
    case TranscriptionCombining => "TranscriptionCombiningStep"
    case VerseMatching => "VerseMatchingStep"
    case TimestampCalculation => "TimestampCalculationStep"
    case SilenceSplitting => "SilenceSplittingStep"
    case AudioSplitting => "AudioSplittingStep"
  }

  function Names(ks: seq<StepKind>): (ns: seq<string>)
    ensures |ns| == |ks| && forall i :: 0 <= i < |ks| ==> ns[i] == ClassName(ks[i])
  {
    seq(|ks|, i requires 0 <= i < |ks| => ClassName(ks[i]))
  }

  /** The ten steps of the transcription pipeline, in order; the alignment step is not among them. */
  const FullOrder: seq<string> := [
    "AudioResamplingStep", "SilenceDetectionStep", "ChunkMergingStep", "ChunkTranscriptionStep",
    "DuplicateRemovalStep", "TranscriptionCombiningStep", "VerseMatchingStep",
    "TimestampCalculationStep", "SilenceSplittingStep", "AudioSplittingStep"]

  /** `step_map` of `create_partial_pipeline`: the step a known name builds. */
  function StepMap(name: string, config: Config): Option<StepKind> {
    if name == "AudioResamplingStep" then Some(AudioResampling(ConfigGet(config, "target_sample_rate", 16000.0)))
    else if name == "SilenceDetectionStep" then
      Some(SilenceDetection(ConfigGet(config, "min_silence_len", 500.0), ConfigGet(config, "silence_thresh", -40.0),
                            ConfigGet(config, "keep_silence", 200.0)))
    else if name == "ChunkMergingStep" then
      Some(ChunkMerging(ConfigGet(config, "min_chunk_duration", 3.0), ConfigGet(config, "min_silence_gap", 0.5)))
    else if name == "ChunkTranscriptionStep" then Some(ChunkTranscription)
    else if name == "DuplicateRemovalStep" then Some(DuplicateRemoval)
    else if name == "TranscriptionCombiningStep" then Some(TranscriptionCombining)
    else if name == "VerseMatchingStep" then Some(VerseMatching)
    else if name == "TimestampCalculationStep" then Some(TimestampCalculation)
    else if name == "SilenceSplittingStep" then Some(SilenceSplitting)
    else if name == "AudioSplittingStep" then Some(AudioSplitting)
    else None
  }

  /** `k` is the step the map builds for its class name. */
  predicate Built(k: StepKind, config: Config) {
    StepMap(ClassName(k), config) == Some(k)
  }

  /** The map builds, for each of its keys, a step of that class name. */
  lemma StepMapNames(name: string, config: Config)
    ensures StepMap(name, config).Some? <==> name in FullOrder
    ensures StepMap(name, config).Some? ==> ClassName(StepMap(name, config).value) == name
  {
  }

  /** `create_full_pipeline`: the ten steps added one by one. */
  function FullPipeline(config: Config): seq<StepKind> {
    [AudioResampling(ConfigGet(config, "target_sample_rate", 16000.0)),
     SilenceDetection(ConfigGet(config, "min_silence_len", 500.0), ConfigGet(config, "silence_thresh", -40.0),
                      ConfigGet(config, "keep_silence", 200.0)),
     ChunkMerging(ConfigGet(config, "min_chunk_duration", 3.0), ConfigGet(config, "min_silence_gap", 0.5)),
     ChunkTranscription, DuplicateRemoval, TranscriptionCombining, VerseMatching,
     TimestampCalculation, SilenceSplitting, AudioSplitting]
  }

  /**
   * The full pipeline has exactly the ten steps of `FullOrder`, in that order, with the
   * documented defaults for every key the configuration lacks.
   */
  lemma FullPipelineShape(config: Config)
    ensures Names(FullPipeline(config)) == FullOrder
    ensures "TranscriptionAlignmentStep" !in Names(FullPipeline(config))
    ensures "target_sample_rate" !in config ==> FullPipeline(config)[0].targetSampleRate == 16000.0
    ensures "min_silence_len" !in config ==> FullPipeline(config)[1].minSilenceLen == 500.0
    ensures "silence_thresh" !in config ==> FullPipeline(config)[1].silenceThresh == -40.0
    ensures "keep_silence" !in config ==> FullPipeline(config)[1].keepSilence == 200.0
    ensures "min_chunk_duration" !in config ==> FullPipeline(config)[2].minChunkDuration == 3.0
    ensures "min_silence_gap" !in config ==> FullPipeline(config)[2].minSilenceGap == 0.5
  {
    assert Names(FullPipeline(config)) == FullOrder;
  }

  /** The requested names the map knows, in request order, repeats kept. */
  function KnownNames(names: seq<string>): (ks: seq<string>)
    ensures |ks| <= |names| && forall i :: 0 <= i < |ks| ==> ks[i] in FullOrder
    decreases |names|
  {
    if |names| == 0 then []
    else KnownNames(names[..|names| - 1]) + (if names[|names| - 1] in FullOrder then [names[|names| - 1]] else [])
  }

  /** One request of `create_partial_pipeline`: a known name appends its step, an unknown one nothing. */
  lemma PartialStep(names: seq<string>, i: int, r: seq<StepKind>, config: Config)
    requires 0 <= i < |names| && Names(r) == KnownNames(names[..i])
    ensures var m := StepMap(names[i], config);
      Names(if m.Some? then r + [m.value] else r) == KnownNames(names[..i + 1])
      && (m.Some? ==> Built(m.value, config))
  {
    assert names[..i + 1][..i] == names[..i];
    StepMapNames(names[i], config);
    var m := StepMap(names[i], config);
    if m.Some? {
      assert Names(r + [m.value]) == Names(r) + [names[i]];
    }
  }

  /**
   * `create_partial_pipeline`: for each requested name in turn, the step the map builds
   * for it, unknown names skipped.
   */
  method PartialPipeline(names: seq<string>, config: Config) returns (r: seq<StepKind>)
    ensures Names(r) == KnownNames(names)
    ensures forall i :: 0 <= i < |r| ==> Built(r[i], config)
  {
    r := [];
    var i := 0;
    while i < |names|
      invariant 0 <= i <= |names|
      invariant Names(r) == KnownNames(names[..i])
      invariant forall j :: 0 <= j < |r| ==> Built(r[j], config)
    {
      PartialStep(names, i, r, config);
      var m := StepMap(names[i], config);
      if m.Some? {
        r := r + [m.value];
      }
      i := i + 1;
    }
    assert names[..i] == names;
  }

  /** The ten names are distinct. */
  lemma FullOrderDistinct()
    ensures forall i, j :: 0 <= i < j < |FullOrder| ==> FullOrder[i] != FullOrder[j]
  {
    forall i, j | 0 <= i < j < |FullOrder|
      ensures FullOrder[i] != FullOrder[j]
    {
      assert |FullOrder[i]| != |FullOrder[j]| || FullOrder[i][7] != FullOrder[j][7];
    }
  }

  /** Name `i` of the full order builds step `i` of the full pipeline. */
  lemma StepMapFull(config: Config, i: int)
    requires 0 <= i < |FullOrder|
    ensures StepMap(FullOrder[i], config) == Some(FullPipeline(config)[i])
  {
  }

  /** Asking for every name of the full pipeline, in order, builds the full pipeline. */
  lemma PartialOfFullOrder(config: Config, r: seq<StepKind>)
    requires Names(r) == KnownNames(FullOrder)
    requires forall i :: 0 <= i < |r| ==> Built(r[i], config)
    ensures r == FullPipeline(config)
  {
    KnownAll(FullOrder);
    var f := FullPipeline(config);
    forall i | 0 <= i < |r|
      ensures r[i] == f[i]
    {
      assert ClassName(r[i]) == Names(r)[i] == FullOrder[i];
      StepMapFull(config, i);
    }
  }

  lemma {:induction false} KnownAll(names: seq<string>)
    requires forall i :: 0 <= i < |names| ==> names[i] in FullOrder
    ensures KnownNames(names) == names
    decreases |names|
  {
    if |names| > 0 {
      KnownAll(names[..|names| - 1]);
    }
  }

  /** A name outside the map, such as the alignment step's, adds nothing. */
  lemma UnknownDropped(names: seq<string>, extra: string)
    requires extra !in FullOrder
    ensures KnownNames(names + [extra]) == KnownNames(names)
  {
    assert (names + [extra])[..|names|] == names;
  }

  // ---------------------------------------------------------------------------
  // Summary and validation

  /** One entry of the summary's `steps`. */
  datatype SummaryStep = SummaryStep(name: string, status: string, duration: real)

  datatype Summary = Summary(stepsExecuted: nat, totalDuration: real, steps: seq<SummaryStep>)

  function TotalDuration(results: seq<(string, StepResult)>): real
    decreases |results|
  {
    if |results| == 0 then 0.0 else TotalDuration(results[..|results| - 1]) + results[|results| - 1].1.duration
  }

  /**
   * `get_pipeline_summary`: one entry per recorded result, in the dictionary's order,
   * carrying its name, status value and duration; the count and the total over them.
   */
  function GetPipelineSummary<D>(ctx: Context<D>): (s: Summary)
    ensures s.stepsExecuted == |s.steps| == |ctx.results|
    ensures forall i :: 0 <= i < |s.steps| ==> (s.steps[i].name == Keys(ctx.results)[i]
      && s.steps[i].status == StatusValue(ctx.results[i].1.status) && s.steps[i].duration == ctx.results[i].1.duration)
    ensures s.totalDuration == TotalDuration(ctx.results)
  {
    var steps := seq(|ctx.results|, i requires 0 <= i < |ctx.results| =>
      SummaryStep(ctx.results[i].0, StatusValue(ctx.results[i].1.status), ctx.results[i].1.duration));
    Summary(|ctx.results|, TotalDuration(ctx.results), steps)
  }

  /**
   * After a successful run of the full pipeline from a context with no results, the
   * summary reports ten steps executed, named in the pipeline's order.
   */
  lemma SummaryOfFullRun<D(!new)>(steps: seq<Step<D>>, config: Config, ctx: Context<D>, clock: int -> real)
    requires StepNames(steps) == Names(FullPipeline(config))
    requires forall i :: 0 <= i < |steps| ==> KeepsResults(steps[i])
    requires ctx.results == []
    requires RunSteps(steps, ctx, clock).error.None?
    ensures var s := GetPipelineSummary(RunSteps(steps, ctx, clock).context);
      s.stepsExecuted == 10 && forall i :: 0 <= i < 10 ==> s.steps[i].name == FullOrder[i]
  {
    FullPipelineShape(config);
    FullOrderDistinct();
    assert StepNames(steps) == FullOrder;
    SuccessfulRunRecords(steps, ctx, clock);
  }

  /**
   * The context `execute_pipeline` starts from: the audio data, no step results, and
   * the debug recorder stored under `debug_recorder` only when one is given.
   */
  function InitialContext<D>(data: D, recorder: Option<D>): (c: Context<D>)
    ensures c.data == data && c.results == []
    ensures "debug_recorder" in c.metadata <==> recorder.Some?
    ensures recorder.Some? ==> c.metadata["debug_recorder"] == recorder.value
    ensures forall k :: k in c.metadata ==> k == "debug_recorder"
  {
    match recorder
    case None => Context(data, map[], [])
    case Some(r) => Context(data, map["debug_recorder" := r], [])
  }

  /** `execute_pipeline`: the pipeline run from the initial context. */
  method ExecutePipeline<D>(steps: seq<Step<D>>, data: D, recorder: Option<D>, clock: int -> real) returns (o: Outcome<D>)
    ensures o == RunSteps(steps, InitialContext(data, recorder), clock)
  {
    var ctx := InitialContext(data, recorder);
    o := Execute(steps, ctx, clock);
  }

  /**
   * A successful `execute_pipeline` of distinctly named steps that leave the step
   * results alone records exactly the pipeline's step names, in order, and keeps the
   * recorder it was given.
   */
  lemma ExecutePipelineRecords<D(!new)>(steps: seq<Step<D>>, data: D, recorder: Option<D>, clock: int -> real)
    requires forall i :: 0 <= i < |steps| ==> KeepsResults(steps[i])
    requires forall i, j :: 0 <= i < j < |steps| ==> steps[i].name != steps[j].name
    requires RunSteps(steps, InitialContext(data, recorder), clock).error.None?
    ensures Keys(RunSteps(steps, InitialContext(data, recorder), clock).context.results) == StepNames(steps)
  {
    SuccessfulRunRecords(steps, InitialContext(data, recorder), clock);
  }

  /** `validate_pipeline_config`: every configuration is accepted. */
  function ValidatePipelineConfig(config: Config): (ok: bool)
    ensures ok
  {
    true
  }
}
