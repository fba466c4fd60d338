/**
 * `ChunkMergingStep`: every chunk shorter than the minimum duration is glued onto the
 * group before it; the first chunk always opens a group. Each group becomes one
 * chunk, and the result is re-indexed from 0. The configured minimum silence gap is
 * stored but never read.
 */
module ChunkMerging {
  import opened Wrappers
  import opened SilenceDetection

  /** The step's two settings; only `minChunkDuration` takes part in merging. */
  datatype MergeConfig = MergeConfig(minChunkDuration: real, minSilenceGap: real)

  const DefaultConfig: MergeConfig := MergeConfig(3.0, 0.5)

  /** A `(duration, [chunk_index, ...])` pair of the source's reduction. */
  datatype Group = Group(duration: real, members: seq<int>)

  /** The total duration of some chunks. */
  function SumDur(cs: seq<Chunk>): real
    decreases |cs|
  {
    if |cs| == 0 then 0.0 else SumDur(cs[..|cs| - 1]) + cs[|cs| - 1].duration
  }

  /** The `chunk_index` fields of some chunks, in order. */
  function Indices(cs: seq<Chunk>): (xs: seq<int>)
    ensures |xs| == |cs|
    decreases |cs|
  {
    if |cs| == 0 then [] else Indices(cs[..|cs| - 1]) + [cs[|cs| - 1].chunkIndex]
  }

  /**
   * The source's reduction loop: the first chunk opens a group; each later chunk
   * shorter than `min` adds its duration and index to the last group, any other
   * chunk opens a new group.
   */
  function GroupDurations(cs: seq<Chunk>, min: real): (gs: seq<Group>)
    ensures |cs| == 0 <==> |gs| == 0
    ensures |gs| <= |cs|
    ensures forall k :: 0 <= k < |gs| ==> |gs[k].members| > 0
    decreases |cs|
  {
    if |cs| == 0 then []
    else
      var gs := GroupDurations(cs[..|cs| - 1], min);
      var c := cs[|cs| - 1];
      if |gs| > 0 && c.duration < min then
        var g := gs[|gs| - 1];
        gs[..|gs| - 1] + [Group(g.duration + c.duration, g.members + [c.chunkIndex])]
      else gs + [Group(c.duration, [c.chunkIndex])]
  }

  /** Python's `xs[i]`: negative indices count from the end; anything else raises. */
  function PyIndex(cs: seq<Chunk>, i: int): (r: Option<Chunk>)
    ensures r.Some? <==> -|cs| <= i < |cs|
    ensures 0 <= i < |cs| ==> r == Some(cs[i])
  {
    if 0 <= i < |cs| then Some(cs[i])
    else if -|cs| <= i < 0 then Some(cs[|cs| + i])
    else None
  }

  /**
   * The conversion loop as written: group number `k` becomes a chunk with the group's
   * duration, index `k`, and the start and end times of the chunks found at the
   * positions named by its first and last `chunk_index`. A position outside the list
   * raises `IndexError`.
   */
  function MergeGroups(cs: seq<Chunk>, gs: seq<Group>): (r: Result<seq<Chunk>, string>)
    requires forall k :: 0 <= k < |gs| ==> |gs[k].members| > 0
    ensures r.Ok? ==> |r.value| == |gs|
    ensures r.Ok? ==> forall k :: 0 <= k < |gs| ==>
      r.value[k].chunkIndex == k && r.value[k].duration == gs[k].duration
    ensures r.Err? <==> exists k :: 0 <= k < |gs| && !GroupInRange(cs, gs[k])
    decreases |gs|
  {
    if |gs| == 0 then Ok([])
    else
      var init := gs[..|gs| - 1];
      var g := gs[|gs| - 1];
      assert forall k :: 0 <= k < |init| ==> init[k] == gs[k];
      match MergeGroups(cs, init)
      case Err(e) => Err(e)
      case Ok(ms) =>
        var first := PyIndex(cs, g.members[0]);
        var last := PyIndex(cs, g.members[|g.members| - 1]);
        if first.None? || last.None? then Err("list index out of range")
        else
          var m := ms + [Chunk(first.value.startTime, last.value.endTime, g.duration, |ms|)];
          assert forall k :: 0 <= k < |ms| ==> m[k] == ms[k];
          Ok(m)
  }

  /** Both ends of a group name a position Python can index. */
  predicate GroupInRange(cs: seq<Chunk>, g: Group)
    requires |g.members| > 0
  {
    PyIndex(cs, g.members[0]).Some? && PyIndex(cs, g.members[|g.members| - 1]).Some?
  }

  /** `ChunkMergingStep.process`, as written. */
  function MergeChunks(cs: seq<Chunk>, config: MergeConfig): (r: Result<seq<Chunk>, string>)
    ensures r.Ok? ==> (|cs| == 0 <==> |r.value| == 0) && |r.value| <= |cs|
    ensures r.Ok? ==> forall k :: 0 <= k < |r.value| ==> r.value[k].chunkIndex == k
  {
    MergeGroups(cs, GroupDurations(cs, config.minChunkDuration))
  }

  /** `validate_input`: the chunk list must be present and non-empty. */
  function ValidateInput(chunks: Option<seq<Chunk>>): (ok: bool)
    ensures ok <==> chunks.Some? && |chunks.value| > 0
  {
    chunks.Some? && |chunks.value| > 0
  }

  // ---------------------------------------------------------------------------
  // The reference: merging as a partition of the chunk list into runs.

  function Flatten(bs: seq<seq<Chunk>>): seq<Chunk>
    decreases |bs|
  {
    if |bs| == 0 then [] else Flatten(bs[..|bs| - 1]) + bs[|bs| - 1]
  }

  /**
   * `bs` cuts `cs` into consecutive non-empty runs, each opened by the first chunk or
   * by a chunk of at least `min` seconds, and continued only by shorter chunks.
   */
  predicate RunPartition(bs: seq<seq<Chunk>>, cs: seq<Chunk>, min: real) {
    && Flatten(bs) == cs
    && (forall k :: 0 <= k < |bs| ==> |bs[k]| > 0)
    && (forall k :: 0 < k < |bs| ==> bs[k][0].duration >= min)
    && (forall k, j :: 0 <= k < |bs| && 0 < j < |bs[k]| ==> bs[k][j].duration < min)
  }

  /** The runs, built chunk by chunk. */
  function Blocks(cs: seq<Chunk>, min: real): (bs: seq<seq<Chunk>>)
    ensures |cs| == 0 <==> |bs| == 0
    decreases |cs|
  {
    if |cs| == 0 then []
    else
      var bs := Blocks(cs[..|cs| - 1], min);
      var c := cs[|cs| - 1];
      if |bs| > 0 && c.duration < min then bs[..|bs| - 1] + [bs[|bs| - 1] + [c]]
      else bs + [[c]]
  }

  /**
   * The corrected conversion: each run becomes one chunk that starts where its own
   * first chunk starts, ends where its own last chunk ends, lasts their summed
   * duration and is numbered by its position.
   */
  function MergeByPosition(bs: seq<seq<Chunk>>): (ms: seq<Chunk>)
    requires forall k :: 0 <= k < |bs| ==> |bs[k]| > 0
    ensures |ms| == |bs|
    ensures forall k :: 0 <= k < |bs| ==>
      ms[k] == Chunk(bs[k][0].startTime, bs[k][|bs[k]| - 1].endTime, SumDur(bs[k]), k)
  {
    seq(|bs|, k requires 0 <= k < |bs| => Chunk(bs[k][0].startTime, bs[k][|bs[k]| - 1].endTime, SumDur(bs[k]), k))
  }

  /** Merging that never looks a chunk up by its `chunk_index`. */
  function MergeChunksByPosition(cs: seq<Chunk>, config: MergeConfig): (ms: seq<Chunk>)
    ensures |ms| <= |cs| && (|cs| == 0 <==> |ms| == 0)
    ensures forall k :: 0 <= k < |ms| ==> ms[k].chunkIndex == k
    ensures SumDur(ms) == SumDur(cs)
  {
    var bs := Blocks(cs, config.minChunkDuration);
    BlocksPartition(cs, config.minChunkDuration);
    BlocksCount(bs, cs, config.minChunkDuration);
    MergedSum(bs);
    MergeByPosition(bs)
  }

  // ---------------------------------------------------------------------------

  lemma FlattenSnoc(bs: seq<seq<Chunk>>, b: seq<Chunk>)
    ensures Flatten(bs + [b]) == Flatten(bs) + b
  {
    assert (bs + [b])[..|bs|] == bs;
  }

  lemma {:induction false} FlattenLength(bs: seq<seq<Chunk>>)
    requires forall k :: 0 <= k < |bs| ==> |bs[k]| > 0
    ensures |bs| <= |Flatten(bs)|
    decreases |bs|
  {
    if |bs| > 0 {
      FlattenLength(bs[..|bs| - 1]);
    }
  }

  lemma SumDurAppend(a: seq<Chunk>, b: seq<Chunk>)
    ensures SumDur(a + b) == SumDur(a) + SumDur(b)
    decreases |b|
  {
    if |b| == 0 {
      assert a + b == a;
    } else {
      assert (a + b)[..|a + b| - 1] == a + b[..|b| - 1];
      SumDurAppend(a, b[..|b| - 1]);
    }
  }

  /** The runs, the merged list and the input all last equally long in total. */
  lemma {:induction false} MergedSum(bs: seq<seq<Chunk>>)
    requires forall k :: 0 <= k < |bs| ==> |bs[k]| > 0
    ensures SumDur(MergeByPosition(bs)) == SumDur(Flatten(bs))
    decreases |bs|
  {
    if |bs| > 0 {
      var init := bs[..|bs| - 1];
      MergedSum(init);
      var ms := MergeByPosition(bs);
      assert ms[..|ms| - 1] == MergeByPosition(init);
      SumDurAppend(Flatten(init), bs[|bs| - 1]);
    }
  }

  /** Adding a short chunk to the last run keeps a run partition. */
  lemma PartitionExtend(bs: seq<seq<Chunk>>, cs: seq<Chunk>, c: Chunk, min: real)
    requires RunPartition(bs, cs, min) && |bs| > 0 && c.duration < min
    ensures RunPartition(bs[..|bs| - 1] + [bs[|bs| - 1] + [c]], cs + [c], min)
  {
    var pre := bs[..|bs| - 1];
    var b := bs[|bs| - 1];
    var bs': seq<seq<Chunk>> := pre + [b + [c]];
    assert bs == pre + [b];
    FlattenSnoc(pre, b);
    FlattenSnoc(pre, b + [c]);
    assert Flatten(bs') == cs + [c];
    forall k, j | 0 <= k < |bs'| && 0 < j < |bs'[k]|
      ensures bs'[k][j].duration < min
    {
      if k < |pre| {
        assert bs'[k] == bs[k];
      } else if j < |b| {
        assert bs'[k][j] == bs[k][j];
      }
    }
    forall k | 0 < k < |bs'|
      ensures |bs'[k]| > 0 && bs'[k][0].duration >= min
    {
      assert bs'[k][0] == bs[k][0];
    }
  }

  /** Opening a new run with a chunk keeps a run partition when the chunk may open one. */
  lemma PartitionOpen(bs: seq<seq<Chunk>>, cs: seq<Chunk>, c: Chunk, min: real)
    requires RunPartition(bs, cs, min) && (|bs| > 0 ==> c.duration >= min)
    ensures RunPartition(bs + [[c]], cs + [c], min)
  {
    var bs': seq<seq<Chunk>> := bs + [[c]];
    FlattenSnoc(bs, [c]);
    forall k, j | 0 <= k < |bs'| && 0 < j < |bs'[k]|
      ensures bs'[k][j].duration < min
    {
      assert bs'[k] == bs[k];
    }
  }

  /** `Blocks` is a run partition of its input. */
  lemma {:induction false} BlocksPartition(cs: seq<Chunk>, min: real)
    ensures RunPartition(Blocks(cs, min), cs, min)
    decreases |cs|
  {
    if |cs| > 0 {
      var init := cs[..|cs| - 1];
      var c := cs[|cs| - 1];
      var bs := Blocks(init, min);
      BlocksPartition(init, min);
      assert cs == init + [c];
      if |bs| > 0 && c.duration < min {
        PartitionExtend(bs, init, c, min);
      } else {
        PartitionOpen(bs, init, c, min);
      }
    }
  }

  /** There are no more runs than chunks. */
  lemma BlocksCount(bs: seq<seq<Chunk>>, cs: seq<Chunk>, min: real)
    requires RunPartition(bs, cs, min)
    ensures |bs| <= |cs|
  {
    FlattenLength(bs);
  }

  /** A run partition whose last run is one chunk is a run partition of the rest plus that chunk. */
  lemma PartitionUnopen(bs: seq<seq<Chunk>>, cs: seq<Chunk>, min: real)
    requires RunPartition(bs, cs, min) && |bs| > 0 && |bs[|bs| - 1]| == 1
    ensures |cs| > 0 && RunPartition(bs[..|bs| - 1], cs[..|cs| - 1], min)
    ensures bs == bs[..|bs| - 1] + [[cs[|cs| - 1]]]
    ensures |bs| > 1 ==> cs[|cs| - 1].duration >= min
  {
    var pre := bs[..|bs| - 1];
    var b := bs[|bs| - 1];
    assert bs == pre + [b];
    FlattenSnoc(pre, b);
    assert cs == Flatten(pre) + b;
    assert cs[..|cs| - 1] == Flatten(pre);
    assert b == [cs[|cs| - 1]];
    forall k, j | 0 <= k < |pre| && 0 < j < |pre[k]|
      ensures pre[k][j].duration < min
    {
      assert pre[k] == bs[k];
    }
  }

  /** A run partition whose last run is longer is a run partition of the rest, extended. */
  lemma PartitionUnextend(bs: seq<seq<Chunk>>, cs: seq<Chunk>, min: real)
    requires RunPartition(bs, cs, min) && |bs| > 0 && |bs[|bs| - 1]| > 1
    ensures var b := bs[|bs| - 1];
      var bs': seq<seq<Chunk>> := bs[..|bs| - 1] + [b[..|b| - 1]];
      && |cs| > 0
      && RunPartition(bs', cs[..|cs| - 1], min)
      && bs == bs'[..|bs'| - 1] + [bs'[|bs'| - 1] + [cs[|cs| - 1]]]
      && cs[|cs| - 1].duration < min
  {
    var pre := bs[..|bs| - 1];
    var b := bs[|bs| - 1];
    var b' := b[..|b| - 1];
    var bs': seq<seq<Chunk>> := pre + [b'];
    assert bs == pre + [b];
    assert b == b' + [b[|b| - 1]];
    FlattenSnoc(pre, b);
    FlattenSnoc(pre, b');
    assert cs == Flatten(bs') + [b[|b| - 1]];
    assert cs[..|cs| - 1] == Flatten(bs');
    forall k | 0 < k < |bs'|
      ensures |bs'[k]| > 0 && bs'[k][0].duration >= min
    {
      assert bs'[k][0] == bs[k][0];
    }
    forall k, j | 0 <= k < |bs'| && 0 < j < |bs'[k]|
      ensures bs'[k][j].duration < min
    {
      assert bs'[k][j] == bs[k][j];
    }
    assert bs'[..|bs'| - 1] == pre;
  }

  /** A run partition is unique: `Blocks` is the only one. */
  lemma {:induction false} RunPartitionUnique(bs: seq<seq<Chunk>>, cs: seq<Chunk>, min: real)
    requires RunPartition(bs, cs, min)
    ensures bs == Blocks(cs, min)
    decreases |cs|
  {
    if |bs| == 0 {
      assert cs == [];
    } else if |bs[|bs| - 1]| == 1 {
      PartitionUnopen(bs, cs, min);
      RunPartitionUnique(bs[..|bs| - 1], cs[..|cs| - 1], min);
    } else {
      PartitionUnextend(bs, cs, min);
      var b := bs[|bs| - 1];
      var bs': seq<seq<Chunk>> := bs[..|bs| - 1] + [b[..|b| - 1]];
      RunPartitionUnique(bs', cs[..|cs| - 1], min);
    }
  }

  /** A run's `(duration, indices)` summary. */
  function Summary(b: seq<Chunk>): Group {
    Group(SumDur(b), Indices(b))
  }

  function Summaries(bs: seq<seq<Chunk>>): (gs: seq<Group>)
    ensures |gs| == |bs|
    ensures forall k :: 0 <= k < |bs| ==> gs[k] == Summary(bs[k])
  {
    seq(|bs|, k requires 0 <= k < |bs| => Summary(bs[k]))
  }

  lemma SummariesSnoc(bs: seq<seq<Chunk>>, b: seq<Chunk>)
    ensures Summaries(bs + [b]) == Summaries(bs) + [Summary(b)]
  {
    var l := Summaries(bs + [b]);
    var r := Summaries(bs) + [Summary(b)];
    assert forall k :: 0 <= k < |bs| ==> (bs + [b])[k] == bs[k];
    assert forall k :: 0 <= k < |l| ==> l[k] == r[k];
  }

  /** A run grown by one chunk has that chunk's duration and index added to its summary. */
  lemma SummaryExtend(b: seq<Chunk>, c: Chunk)
    ensures Summary(b + [c]) == Group(Summary(b).duration + c.duration, Summary(b).members + [c.chunkIndex])
  {
    assert (b + [c])[..|b|] == b;
  }

  lemma SummaryOpen(c: Chunk)
    ensures Summary([c]) == Group(c.duration, [c.chunkIndex])
  {
    assert [c][..0] == [];
    assert SumDur([c]) == SumDur([]) + c.duration;
    assert Indices([c]) == Indices([]) + [c.chunkIndex];
  }

  lemma GroupsExtendStep(pre: seq<seq<Chunk>>, b: seq<Chunk>, c: Chunk)
    ensures var gs := Summaries(pre + [b]);
      gs[..|pre|] + [Group(gs[|pre|].duration + c.duration, gs[|pre|].members + [c.chunkIndex])]
        == Summaries(pre + [b + [c]])
  {
    var gs := Summaries(pre + [b]);
    var rhs := Summaries(pre + [b + [c]]);
    var lhs := gs[..|pre|] + [Group(gs[|pre|].duration + c.duration, gs[|pre|].members + [c.chunkIndex])];
    assert forall k :: 0 <= k < |pre| ==> (pre + [b])[k] == pre[k] == (pre + [b + [c]])[k];
    assert forall k :: 0 <= k < |pre| ==> lhs[k] == rhs[k];
    SummaryExtend(b, c);
    assert lhs[|pre|] == rhs[|pre|];
  }

  lemma GroupsOpenStep(gs: seq<Group>, bs: seq<seq<Chunk>>, c: Chunk)
    requires gs == Summaries(bs)
    ensures gs + [Group(c.duration, [c.chunkIndex])] == Summaries(bs + [[c]])
  {
    SummariesSnoc(bs, [c]);
    SummaryOpen(c);
  }

  /** The loop's groups are the runs' durations and index lists. */
  lemma {:induction false} GroupsAreRuns(cs: seq<Chunk>, min: real)
    ensures GroupDurations(cs, min) == Summaries(Blocks(cs, min))
    decreases |cs|
  {
    if |cs| > 0 {
      var init := cs[..|cs| - 1];
      var c := cs[|cs| - 1];
      GroupsAreRuns(init, min);
      var bs := Blocks(init, min);
      if |bs| > 0 && c.duration < min {
        var pre := bs[..|bs| - 1];
        var b := bs[|bs| - 1];
        assert bs == pre + [b];
        GroupsExtendStep(pre, b, c);
      } else {
        GroupsOpenStep(GroupDurations(init, min), bs, c);
      }
    }
  }

  /** Every group after the first lasts at least `min`, when no chunk has a negative duration. */
  lemma GroupsLongEnough(cs: seq<Chunk>, min: real, k: int)
    requires forall i :: 0 <= i < |cs| ==> cs[i].duration >= 0.0
    requires 0 < k < |GroupDurations(cs, min)|
    ensures GroupDurations(cs, min)[k].duration >= min
  {
    var bs := Blocks(cs, min);
    GroupsAreRuns(cs, min);
    BlocksPartition(cs, min);
    FlattenMember(bs, k);
    HeadBound(bs[k]);
  }

  /** Every chunk of a run occurs in the flattened list. */
  lemma {:induction false} FlattenMember(bs: seq<seq<Chunk>>, k: int)
    requires 0 <= k < |bs|
    ensures forall j :: 0 <= j < |bs[k]| ==> bs[k][j] in Flatten(bs)
    decreases |bs|
  {
    var pre := bs[..|bs| - 1];
    assert bs == pre + [bs[|bs| - 1]];
    FlattenSnoc(pre, bs[|bs| - 1]);
    if k < |bs| - 1 {
      FlattenMember(pre, k);
      assert bs[k] == pre[k];
    }
  }

  /** With no negative duration, a run lasts at least as long as its first chunk. */
  lemma {:induction false} HeadBound(b: seq<Chunk>)
    requires |b| > 0 && forall j :: 0 <= j < |b| ==> b[j].duration >= 0.0
    ensures SumDur(b) >= b[0].duration
    decreases |b|
  {
    if |b| > 1 {
      HeadBound(b[..|b| - 1]);
    } else {
      assert b[..0] == [];
    }
  }

  /**
   * When every chunk's `chunk_index` is its position (as the detector produces when it
   * drops no range), the code as written computes the corrected merge.
   */
  lemma MergeAgrees(cs: seq<Chunk>, config: MergeConfig)
    requires forall i :: 0 <= i < |cs| ==> cs[i].chunkIndex == i
    ensures MergeChunks(cs, config) == Ok(MergeChunksByPosition(cs, config))
  {
    var min := config.minChunkDuration;
    var bs: seq<seq<Chunk>> := Blocks(cs, min);
    BlocksPartition(cs, min);
    GroupsAreRuns(cs, min);
    forall k, j | 0 <= k < |bs| && 0 <= j < |bs[k]|
      ensures PyIndex(cs, bs[k][j].chunkIndex) == Some(bs[k][j])
    {
      FlattenMember(bs, k);
    }
    MergeRuns(cs, bs);
  }

  lemma {:induction false} IndicesAt(cs: seq<Chunk>, i: int)
    requires 0 <= i < |cs|
    ensures Indices(cs)[i] == cs[i].chunkIndex
    decreases |cs|
  {
    if i < |cs| - 1 {
      IndicesAt(cs[..|cs| - 1], i);
    }
  }

  /** One more group: the previous result extended by that group's chunk, or an error. */
  lemma MergeGroupsSnoc(cs: seq<Chunk>, gs: seq<Group>, g: Group)
    requires forall k :: 0 <= k < |gs| ==> |gs[k].members| > 0
    requires |g.members| > 0
    ensures var r := MergeGroups(cs, gs + [g]);
      MergeGroups(cs, gs).Ok? && GroupInRange(cs, g) ==>
        r == Ok(MergeGroups(cs, gs).value
                + [Chunk(PyIndex(cs, g.members[0]).value.startTime,
                         PyIndex(cs, g.members[|g.members| - 1]).value.endTime,
                         g.duration, |gs|)])
  {
    assert (gs + [g])[..|gs|] == gs;
  }

  lemma MergeByPositionSnoc(pre: seq<seq<Chunk>>, b: seq<Chunk>)
    requires forall k :: 0 <= k < |pre| ==> |pre[k]| > 0
    requires |b| > 0
    ensures MergeByPosition(pre + [b]) == MergeByPosition(pre) + [Chunk(b[0].startTime, b[|b| - 1].endTime, SumDur(b), |pre|)]
  {
    var l := MergeByPosition(pre + [b]);
    var r := MergeByPosition(pre) + [Chunk(b[0].startTime, b[|b| - 1].endTime, SumDur(b), |pre|)];
    forall k | 0 <= k < |l|
      ensures l[k] == r[k]
    {
      if k < |pre| {
        assert (pre + [b])[k] == pre[k];
      }
    }
  }

  /** The last run: its first and last chunks found by index, its merged chunk follows the rest. */
  lemma MergeRunsStep(cs: seq<Chunk>, pre: seq<seq<Chunk>>, b: seq<Chunk>)
    requires forall k :: 0 <= k < |pre| ==> |pre[k]| > 0
    requires |b| > 0
    requires forall k :: 0 <= k < |pre| ==> |Summaries(pre)[k].members| > 0
    requires MergeGroups(cs, Summaries(pre)) == Ok(MergeByPosition(pre))
    requires PyIndex(cs, b[0].chunkIndex) == Some(b[0])
    requires PyIndex(cs, b[|b| - 1].chunkIndex) == Some(b[|b| - 1])
    ensures forall k :: 0 <= k < |pre + [b]| ==> |Summaries(pre + [b])[k].members| > 0
    ensures MergeGroups(cs, Summaries(pre + [b])) == Ok(MergeByPosition(pre + [b]))
  {
    SummariesSnoc(pre, b);
    IndicesAt(b, 0);
    IndicesAt(b, |b| - 1);
    MergeGroupsSnoc(cs, Summaries(pre), Summary(b));
    MergeByPositionSnoc(pre, b);
  }

  lemma {:induction false} MergeRuns(cs: seq<Chunk>, bs: seq<seq<Chunk>>)
    requires forall k :: 0 <= k < |bs| ==> |bs[k]| > 0
    requires forall k, j :: 0 <= k < |bs| && 0 <= j < |bs[k]| ==> PyIndex(cs, bs[k][j].chunkIndex) == Some(bs[k][j])
    ensures forall k :: 0 <= k < |bs| ==> |Summaries(bs)[k].members| > 0
    ensures MergeGroups(cs, Summaries(bs)) == Ok(MergeByPosition(bs))
    decreases |bs|
  {
    if |bs| > 0 {
      var pre := bs[..|bs| - 1];
      var b := bs[|bs| - 1];
      assert bs == pre + [b];
      assert forall k :: 0 <= k < |pre| ==> pre[k] == bs[k];
      MergeRuns(cs, pre);
      MergeRunsStep(cs, pre, b);
    }
  }

  /** The minimum silence gap has no effect on the result. */
  lemma GapIgnored(cs: seq<Chunk>, min: real, g1: real, g2: real)
    ensures MergeChunks(cs, MergeConfig(min, g1)) == MergeChunks(cs, MergeConfig(min, g2))
  {
  }

  /**
   * With a `keep_silence` of 0 the detector drops a 50 ms range in the middle and
   * numbers the survivors 0 and 2. The ranges are ones pydub's detector returns with a
   * `min_silence_len` of 400 ms: the silences between them last 500 and 450 ms.
   */
  lemma DetectorSkipsIndex()
    ensures DetectChunks([(0, 1000), (1500, 1550), (2000, 3000)], 3000, 48000, 16000, 0)
      == [Chunk(0.0, 1.0, 1.0, 0), Chunk(2.0, 3.0, 1.0, 2)]
  {
    var ranges := [(0, 1000), (1500, 1550), (2000, 3000)];
    assert RangeChunk(ranges[0], 0, 3000, 48000, 16000, 0) == Some(Chunk(0.0, 1.0, 1.0, 0));
    assert RangeChunk(ranges[1], 1, 3000, 48000, 16000, 0) == None;
    assert RangeChunk(ranges[2], 2, 3000, 48000, 16000, 0) == Some(Chunk(2.0, 3.0, 1.0, 2));
    var os := Candidates(ranges, 3000, 48000, 16000, 0);
    assert os[..2][..1] == os[..1];
    assert os[..1][..0] == [];
  }

  /** The two chunks the detector keeps form one group naming positions 0 and 2. */
  lemma SkippedIndexGroups()
    ensures GroupDurations([Chunk(0.0, 1.0, 1.0, 0), Chunk(2.0, 3.0, 1.0, 2)], 3.0) == [Group(2.0, [0, 2])]
  {
    var cs := [Chunk(0.0, 1.0, 1.0, 0), Chunk(2.0, 3.0, 1.0, 2)];
    assert cs[..1] == [cs[0]];
    assert cs[..1][..0] == [];
    var g0 := GroupDurations(cs[..1], 3.0);
    assert g0 == [Group(1.0, [0])];
    assert g0[..0] == [];
    assert [0] + [2] == [0, 2];
  }

  /** The same two chunks form one run. */
  lemma SkippedIndexRuns()
    ensures var cs := [Chunk(0.0, 1.0, 1.0, 0), Chunk(2.0, 3.0, 1.0, 2)];
      Blocks(cs, 3.0) == [cs] && SumDur(cs) == 2.0
  {
    var cs := [Chunk(0.0, 1.0, 1.0, 0), Chunk(2.0, 3.0, 1.0, 2)];
    assert cs[..1] == [cs[0]];
    assert cs[..1][..0] == [];
    var b0 := Blocks(cs[..1], 3.0);
    assert b0 == [[cs[0]]];
    assert b0[..0] == [];
    assert [cs[0]] + [cs[1]] == cs;
  }

  /**
   * Merging those two short chunks looks up position 2 of a two-element list and
   * raises `IndexError`; the corrected merge gives one chunk spanning both.
   */
  lemma SkippedIndexBreaksMerge()
    ensures var cs := [Chunk(0.0, 1.0, 1.0, 0), Chunk(2.0, 3.0, 1.0, 2)];
      && MergeChunks(cs, DefaultConfig).Err?
      && MergeChunksByPosition(cs, DefaultConfig) == [Chunk(0.0, 3.0, 2.0, 0)]
  {
    var cs := [Chunk(0.0, 1.0, 1.0, 0), Chunk(2.0, 3.0, 1.0, 2)];
    SkippedIndexGroups();
    var gs: seq<Group> := GroupDurations(cs, 3.0);
    assert !GroupInRange(cs, gs[0]);
    SkippedIndexRuns();
  }
}
