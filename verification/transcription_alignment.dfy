/**
 * The bookkeeping of `TranscriptionAlignmentStep`: walking back through the CTC
 * trellis, merging the path into character segments and the segments into words,
 * and the per-chunk loop that skips reused or already aligned chunks and splits
 * the omitted-duplicate prefix off each alignment.
 */
module TranscriptionAlignment {
  import opened Wrappers
  import opened Text
  import TranscriptionCombining

  // ---------------------------------------------------------------------------
  // `_backtrack`

  /**
   * The path found walking back from row `t` with `j` tokens still to place:
   * `changed(t - 1, j)` is the trellis comparison `changed > stayed` made on row
   * `t - 1`, and says whether token `j - 1` was emitted there. Rows are Python
   * indices, so `t - 1` may be negative; below `-frames` the lookup raises.
   */
  function Walk(frames: nat, changed: (int, int) -> bool, t: int, j: nat): (r: Result<seq<(int, int)>, string>)
    ensures r.Ok? ==> |r.value| == j
    ensures r.Ok? ==> forall k :: 0 <= k < j ==> r.value[k].1 == k && 0 <= r.value[k].0 + frames && r.value[k].0 < t
    ensures r.Ok? ==> forall a, b :: 0 <= a < b < j ==> r.value[a].0 < r.value[b].0
    decreases t + frames
  {
    if j == 0 then Ok([])
    else if t - 1 + frames < 0 then Err("index out of range")
    else if changed(t - 1, j) then
      match Walk(frames, changed, t - 1, j - 1)
      case Ok(p) => Ok(p + [(t - 1, j - 1)])
      case Err(e) => Err(e)
    else Walk(frames, changed, t - 1, j)
  }

  function Reverse<T>(s: seq<T>): (r: seq<T>)
    ensures |r| == |s| && forall k :: 0 <= k < |s| ==> r[k] == s[|s| - 1 - k]
    decreases |s|
  {
    if |s| == 0 then [] else [s[|s| - 1]] + Reverse(s[..|s| - 1])
  }

  /** A successful path with `s` appended; a failure unchanged. */
  function Append(r: Result<seq<(int, int)>, string>, s: seq<(int, int)>): Result<seq<(int, int)>, string> {
    match r
    case Ok(p) => Ok(p + s)
    case Err(e) => Err(e)
  }

  lemma AppendTwice(r: Result<seq<(int, int)>, string>, a: seq<(int, int)>, b: seq<(int, int)>)
    ensures Append(Append(r, a), b) == Append(r, a + b)
  {
    if r.Ok? {
      assert r.value + a + b == r.value + (a + b);
    }
  }

  lemma AppendNothing(r: Result<seq<(int, int)>, string>)
    ensures Append(r, []) == r
  {
    if r.Ok? {
      assert r.value + [] == r.value;
    }
  }

  /**
   * `_backtrack` over a trellis of `frames` rows for `tokens` tokens: the loop walks
   * back from the last row, appending `(t, j)` whenever a token is placed, and
   * returns the path reversed.
   */
  method Backtrack(frames: nat, tokens: nat, changed: (int, int) -> bool) returns (r: Result<seq<(int, int)>, string>)
    ensures r == Walk(frames, changed, frames - 1, tokens)
  {
    var t: int := frames - 1;
    var j: nat := tokens;
    var path: seq<(int, int)> := [];
    AppendNothing(Walk(frames, changed, t, j));
    while j > 0
      invariant Walk(frames, changed, frames - 1, tokens) == Append(Walk(frames, changed, t, j), Reverse(path))
      decreases t + frames
    {
      if t - 1 + frames < 0 {
        return Err("index out of range");
      }
      var c := changed(t - 1, j);
      t := t - 1;
      if c {
        j := j - 1;
        assert Reverse(path + [(t, j)]) == [(t, j)] + Reverse(path);
        AppendTwice(Walk(frames, changed, t, j), [(t, j)], Reverse(path));
        path := path + [(t, j)];
      }
    }
    assert [] + Reverse(path) == Reverse(path);
    return Ok(Reverse(path));
  }

  // ---------------------------------------------------------------------------
  // `_merge_repeats`

  /** One character segment: its label, first frame, end frame and frame count. */
  datatype Segment = Segment(symbol: char, start: int, end: int, score: int)

  /** Path entry `k` begins a run of equal token index. */
  predicate RunStart(path: seq<(int, int)>, k: int)
    requires 0 <= k < |path|
  {
    k == 0 || path[k].1 != path[k - 1].1
  }

  /** The positions among the first `n` path entries where a run begins, in order. */
  function RunStarts(path: seq<(int, int)>, n: nat): (rs: seq<int>)
    requires n <= |path|
    ensures forall m :: 0 <= m < |rs| ==> 0 <= rs[m] < n && RunStart(path, rs[m])
    ensures forall a, b :: 0 <= a < b < |rs| ==> rs[a] < rs[b]
    ensures n > 0 ==> |rs| > 0 && rs[0] == 0
    decreases n
  {
    if n == 0 then [] else RunStarts(path, n - 1) + (if RunStart(path, n - 1) then [n - 1] else [])
  }

  /** Every run start among the first `n` entries is listed. */
  lemma {:induction false} RunStartsComplete(path: seq<(int, int)>, n: nat, k: int)
    requires n <= |path| && 0 <= k < n && RunStart(path, k)
    ensures k in RunStarts(path, n)
    decreases n
  {
    if k < n - 1 {
      RunStartsComplete(path, n - 1, k);
    }
  }

  /** Python's `t[j]`, where a negative `j` counts from the end. */
  function PyChar(t: string, j: int): char
    requires -|t| <= j < |t|
  {
    if j < 0 then t[|t| + j] else t[j]
  }

  predicate ValidTokens(path: seq<(int, int)>, t: string) {
    forall k :: 0 <= k < |path| ==> -|t| <= path[k].1 < |t|
  }

  /**
   * The segment of run `m`: labelled with the run's token, from the run's first frame
   * to the next run's first frame (the last frame of the path for the last run).
   */
  function RunSegment(path: seq<(int, int)>, t: string, rs: seq<int>, m: int): Segment
    requires ValidTokens(path, t) && 0 <= m < |rs|
    requires forall q :: 0 <= q < |rs| ==> 0 <= rs[q] < |path|
  {
    var start := path[rs[m]].0;
    var end := if m + 1 < |rs| then path[rs[m + 1]].0 else path[|path| - 1].0;
    Segment(PyChar(t, path[rs[m]].1), start, end, end - start)
  }

  /** One segment per run of the whole path. */
  function Segments(path: seq<(int, int)>, t: string): (segs: seq<Segment>)
    requires ValidTokens(path, t)
    ensures |segs| == |RunStarts(path, |path|)|
  {
    var rs := RunStarts(path, |path|);
    seq(|rs|, m requires 0 <= m < |rs| => RunSegment(path, t, rs, m))
  }

  /** Each run is maximal: every entry of it has the run's token, and the next run's differs. */
  lemma {:induction false} RunsMaximal(path: seq<(int, int)>, m: int)
    requires 0 <= m < |RunStarts(path, |path|)|
    ensures var rs := RunStarts(path, |path|);
      var next := if m + 1 < |rs| then rs[m + 1] else |path|;
      (forall k :: rs[m] <= k < next ==> path[k].1 == path[rs[m]].1)
        && (next < |path| ==> path[next].1 != path[next - 1].1)
  {
    var rs := RunStarts(path, |path|);
    var next := if m + 1 < |rs| then rs[m + 1] else |path|;
    forall k | rs[m] <= k < next
      ensures path[k].1 == path[rs[m]].1
    {
      RunConstant(path, |path|, rs, m, next, k);
    }
  }

  /** Within the first `n` entries, every entry of run `m` has the run's token. */
  lemma {:induction false} RunConstant(path: seq<(int, int)>, n: nat, rs: seq<int>, m: int, next: int, k: int)
    requires n <= |path| && rs == RunStarts(path, n) && 0 <= m < |rs|
    requires next == if m + 1 < |rs| then rs[m + 1] else n
    requires rs[m] <= k < next
    ensures path[k].1 == path[rs[m]].1
    decreases k - rs[m]
  {
    if k > rs[m] {
      RunConstant(path, n, rs, m, next, k - 1);
      forall q | 0 <= q < |rs|
        ensures rs[q] != k
      {
        if q <= m {
          assert rs[q] <= rs[m];
        } else {
          assert next == rs[m + 1] <= rs[q];
        }
      }
      if RunStart(path, k) {
        RunStartsComplete(path, n, k);
        assert false;
      }
    }
  }

  /** Run `m + 1`'s segment in a longer prefix's run list is unchanged for earlier runs. */
  lemma RunSegmentStable(path: seq<(int, int)>, t: string, rs: seq<int>, rs': seq<int>, m: int)
    requires ValidTokens(path, t) && 0 <= m && m + 1 < |rs| <= |rs'| && rs == rs'[..|rs|]
    requires forall q :: 0 <= q < |rs'| ==> 0 <= rs'[q] < |path|
    ensures RunSegment(path, t, rs, m) == RunSegment(path, t, rs', m)
  {
    assert rs[m] == rs'[m] && rs[m + 1] == rs'[m + 1];
  }

  /** The segments of all runs but the last among the first `i` entries. */
  ghost predicate ClosedRuns(segs: seq<Segment>, path: seq<(int, int)>, t: string, i: nat)
    requires ValidTokens(path, t) && i <= |path|
  {
    var rs := RunStarts(path, i);
    |segs| + 1 == |rs| && forall m :: 0 <= m < |segs| ==> segs[m] == RunSegment(path, t, rs, m)
  }

  /** The start of the last run among the first `n` entries. */
  function LastRun(path: seq<(int, int)>, n: nat): (k: int)
    requires 0 < n <= |path|
    ensures 0 <= k < n
  {
    var rs := RunStarts(path, n);
    rs[|rs| - 1]
  }

  /** The segment from the first frame of run start `k` to frame `end`. */
  function SegmentFrom(path: seq<(int, int)>, t: string, k: int, end: int): Segment
    requires ValidTokens(path, t) && 0 <= k < |path|
  {
    Segment(PyChar(t, path[k].1), path[k].0, end, end - path[k].0)
  }

  /**
   * Entry `i` with a token other than the current run's opens a new run: the current
   * run closes with a segment ending at entry `i`'s frame.
   */
  lemma CloseRun(segs: seq<Segment>, path: seq<(int, int)>, t: string, i: nat)
    requires ValidTokens(path, t) && 0 < i < |path| && ClosedRuns(segs, path, t, i)
    requires path[i].1 != path[LastRun(path, i)].1
    ensures ClosedRuns(segs + [SegmentFrom(path, t, LastRun(path, i), path[i].0)], path, t, i + 1)
    ensures LastRun(path, i + 1) == i
  {
    var rs := RunStarts(path, i);
    RunConstant(path, i, rs, |rs| - 1, i, i - 1);
    var rs' := RunStarts(path, i + 1);
    assert rs' == rs + [i];
    var segs' := segs + [SegmentFrom(path, t, LastRun(path, i), path[i].0)];
    forall m | 0 <= m < |segs'|
      ensures segs'[m] == RunSegment(path, t, rs', m)
    {
      if m < |segs| {
        RunSegmentStable(path, t, rs, rs', m);
      }
    }
  }

  /** Entry `i` with the current run's token extends that run. */
  lemma ExtendRun(segs: seq<Segment>, path: seq<(int, int)>, t: string, i: nat)
    requires ValidTokens(path, t) && 0 < i < |path| && ClosedRuns(segs, path, t, i)
    requires path[i].1 == path[LastRun(path, i)].1
    ensures ClosedRuns(segs, path, t, i + 1)
    ensures LastRun(path, i + 1) == LastRun(path, i)
  {
    var rs := RunStarts(path, i);
    RunConstant(path, i, rs, |rs| - 1, i, i - 1);
    assert RunStarts(path, i + 1) == rs;
  }

  /** Closing the last run at the path's last frame gives the segments of the whole path. */
  lemma CloseLastRun(segs: seq<Segment>, path: seq<(int, int)>, t: string)
    requires ValidTokens(path, t) && 0 < |path| && ClosedRuns(segs, path, t, |path|)
    ensures segs + [SegmentFrom(path, t, LastRun(path, |path|), path[|path| - 1].0)] == Segments(path, t)
  {
    var rs := RunStarts(path, |path|);
    var segs' := segs + [SegmentFrom(path, t, LastRun(path, |path|), path[|path| - 1].0)];
    forall m | 0 <= m < |segs'|
      ensures segs'[m] == Segments(path, t)[m]
    {
    }
  }

  /**
   * The state of `_merge_repeats` after the first `i` entries: the closed runs' segments,
   * and the first frame and token of the open run.
   */
  ghost predicate Merging(path: seq<(int, int)>, t: string, i: nat, segs: seq<Segment>, i1: int, i2: int) {
    ValidTokens(path, t) && 0 < i <= |path| && ClosedRuns(segs, path, t, i)
      && i1 == path[LastRun(path, i)].0 && i2 == path[LastRun(path, i)].1
  }

  lemma MergeRepeatsInitially(path: seq<(int, int)>, t: string)
    requires ValidTokens(path, t) && 0 < |path|
    ensures Merging(path, t, 1, [], path[0].0, path[0].1)
  {
    assert RunStarts(path, 1) == [0];
  }

  /** One pass of the loop of `_merge_repeats`, over entry `i`. */
  method MergeEntry(path: seq<(int, int)>, t: string, i: nat, segs: seq<Segment>, i1: int, i2: int)
    returns (segs': seq<Segment>, i1': int, i2': int)
    requires i < |path| && Merging(path, t, i, segs, i1, i2)
    ensures Merging(path, t, i + 1, segs', i1', i2')
  {
    if path[i].1 != i2 {
      CloseRun(segs, path, t, i);
      segs' := segs + [Segment(PyChar(t, i2), i1, path[i].0, path[i].0 - i1)];
      i1', i2' := path[i].0, path[i].1;
    } else {
      ExtendRun(segs, path, t, i);
      segs', i1', i2' := segs, i1, i2;
    }
  }

  /** The end of `_merge_repeats`: the open run closes at the path's last frame. */
  lemma MergedRepeats(path: seq<(int, int)>, t: string, segs: seq<Segment>, i1: int, i2: int)
    requires Merging(path, t, |path|, segs, i1, i2)
    ensures segs + [Segment(PyChar(t, i2), i1, path[|path| - 1].0, path[|path| - 1].0 - i1)] == Segments(path, t)
  {
    CloseLastRun(segs, path, t);
  }

  /**
   * `_merge_repeats`: one segment per maximal run of equal token index. The source
   * raises on an empty path and on a token index outside the transcript.
   */
  method MergeRepeats(path: seq<(int, int)>, t: string) returns (r: Result<seq<Segment>, string>)
    ensures r.Err? <==> |path| == 0 || !ValidTokens(path, t)
    ensures r.Ok? ==> r.value == Segments(path, t)
  {
    if |path| == 0 {
      return Err("list index out of range");
    }
    if !ValidTokens(path, t) {
      return Err("string index out of range");
    }
    var i1, i2 := path[0].0, path[0].1;
    var segs: seq<Segment> := [];
    MergeRepeatsInitially(path, t);
    var i := 1;
    while i < |path|
      invariant Merging(path, t, i, segs, i1, i2)
    {
      segs, i1, i2 := MergeEntry(path, t, i, segs, i1, i2);
      i := i + 1;
    }
    MergedRepeats(path, t, segs, i1, i2);
    segs := segs + [Segment(PyChar(t, i2), i1, path[|path| - 1].0, path[|path| - 1].0 - i1)];
    return Ok(segs);
  }

  // ---------------------------------------------------------------------------
  // `_merge_words`

  /** One word: its text, the start of its first segment, its end and its mean frame count. */
  datatype Word = Word(text: string, start: int, end: int, score: real)

  /** The labels of the segments, in order. */
  function Labels(segs: seq<Segment>): (s: string)
    ensures |s| == |segs| && forall k :: 0 <= k < |segs| ==> s[k] == segs[k].symbol
  {
    seq(|segs|, k requires 0 <= k < |segs| => segs[k].symbol)
  }

  function Texts(words: seq<Word>): (ts: seq<string>)
    ensures |ts| == |words| && forall m :: 0 <= m < |words| ==> ts[m] == words[m].text
  {
    seq(|words|, m requires 0 <= m < |words| => words[m].text)
  }

  /** The summed frame counts of the segments. */
  function Score(segs: seq<Segment>): int
    decreases |segs|
  {
    if |segs| == 0 then 0 else Score(segs[..|segs| - 1]) + segs[|segs| - 1].score
  }

  /** A maximal run of non-separator segments begins at segment `k`. */
  predicate RunBegins(segs: seq<Segment>, sep: char, k: int)
    requires 0 <= k < |segs|
  {
    segs[k].symbol != sep && (k == 0 || segs[k - 1].symbol == sep)
  }

  /** Where the runs of non-separator segments among the first `n` begin. */
  function WordStarts(segs: seq<Segment>, sep: char, n: nat): seq<int>
    requires n <= |segs|
    decreases n
  {
    if n == 0 then [] else WordStarts(segs, sep, n - 1) + (if RunBegins(segs, sep, n - 1) then [n - 1] else [])
  }

  /** The run starts are listed in increasing order, and every run start is listed. */
  lemma {:induction false} WordStartsExact(segs: seq<Segment>, sep: char, n: nat)
    requires n <= |segs|
    ensures forall m :: 0 <= m < |WordStarts(segs, sep, n)| ==>
      0 <= WordStarts(segs, sep, n)[m] < n && RunBegins(segs, sep, WordStarts(segs, sep, n)[m])
    ensures forall a, b :: 0 <= a < b < |WordStarts(segs, sep, n)| ==> WordStarts(segs, sep, n)[a] < WordStarts(segs, sep, n)[b]
    ensures forall k :: 0 <= k < n && RunBegins(segs, sep, k) ==> k in WordStarts(segs, sep, n)
    decreases n
  {
    if n > 0 {
      WordStartsExact(segs, sep, n - 1);
    }
  }

  /**
   * Word `w` is the maximal run of non-separator segments starting at `f`: it follows
   * a separator or the start, is followed by a separator or the end, and is the word
   * those segments make.
   */
  predicate WordAt(segs: seq<Segment>, sep: char, w: Word, f: int) {
    var n := |w.text|;
    0 <= f && 0 < n && f + n <= |segs|
    && (f == 0 || segs[f - 1].symbol == sep)
    && (f + n == |segs| || segs[f + n].symbol == sep)
    && sep !in w.text
    && w == RunWord(segs, f, n)
  }

  /**
   * The word made of the `n` segments from `f`: their labels, the first one's start,
   * the end of the segment after them (the last segment for the final run), and the
   * mean of their frame counts.
   */
  function RunWord(segs: seq<Segment>, f: int, n: int): Word
    requires 0 <= f && 0 < n && f + n <= |segs|
  {
    Word(Labels(segs[f..f + n]), segs[f].start, if f + n < |segs| then segs[f + n].end else segs[|segs| - 1].end,
         Score(segs[f..f + n]) as real / n as real)
  }

  lemma TextsSnoc(words: seq<Word>, w: Word)
    ensures Texts(words + [w]) == Texts(words) + [w.text]
  {
  }

  lemma NonEmptySnoc(p: seq<string>, x: string)
    ensures TranscriptionCombining.NonEmpty(p + [x]) == TranscriptionCombining.NonEmpty(p) + (if |x| > 0 then [x] else [])
  {
    assert (p + [x])[..|p|] == p;
  }

  lemma LabelsSnoc(segs: seq<Segment>, i: int)
    requires 0 <= i < |segs|
    ensures Labels(segs[..i + 1]) == Labels(segs[..i]) + [segs[i].symbol]
  {
  }

  /**
   * After the first `i` segments, the closed words' texts are the non-empty pieces
   * before the last one, and the open word is the last piece.
   */
  ghost predicate TextsSoFar(segs: seq<Segment>, sep: char, i: int, words: seq<Word>, chars: string)
    requires 0 <= i <= |segs|
  {
    var p := SplitOn(Labels(segs[..i]), sep);
    Texts(words) == TranscriptionCombining.NonEmpty(p[..|p| - 1]) && chars == p[|p| - 1]
  }

  lemma TextsAtSeparator(segs: seq<Segment>, sep: char, i: int, words: seq<Word>, chars: string, words': seq<Word>)
    requires 0 <= i < |segs| && segs[i].symbol == sep && TextsSoFar(segs, sep, i, words, chars)
    requires Texts(words') == Texts(words) + (if |chars| > 0 then [chars] else [])
    ensures TextsSoFar(segs, sep, i + 1, words', "")
  {
    LabelsSnoc(segs, i);
    SplitOnSnocSep(Labels(segs[..i]), sep);
    var p := SplitOn(Labels(segs[..i]), sep);
    var p' := SplitOn(Labels(segs[..i + 1]), sep);
    assert p' == p + [""];
    assert p'[..|p'| - 1] == p == p[..|p| - 1] + [chars];
    NonEmptySnoc(p[..|p| - 1], chars);
  }

  lemma TextsAtLetter(segs: seq<Segment>, sep: char, i: int, words: seq<Word>, chars: string)
    requires 0 <= i < |segs| && segs[i].symbol != sep && TextsSoFar(segs, sep, i, words, chars)
    ensures TextsSoFar(segs, sep, i + 1, words, chars + [segs[i].symbol])
  {
    LabelsSnoc(segs, i);
    SplitOnSnocOther(Labels(segs[..i]), segs[i].symbol, sep);
    var p := SplitOn(Labels(segs[..i]), sep);
    var p' := SplitOn(Labels(segs[..i + 1]), sep);
    assert p'[..|p'| - 1] == p[..|p| - 1];
  }

  lemma TextsAtEnd(segs: seq<Segment>, sep: char, words: seq<Word>, chars: string, words': seq<Word>)
    requires TextsSoFar(segs, sep, |segs|, words, chars)
    requires Texts(words') == Texts(words) + (if |chars| > 0 then [chars] else [])
    ensures Texts(words') == TranscriptionCombining.NonEmpty(SplitOn(Labels(segs), sep))
  {
    assert segs[..|segs|] == segs;
    var p := SplitOn(Labels(segs), sep);
    assert p == p[..|p| - 1] + [chars];
    NonEmptySnoc(p[..|p| - 1], chars);
  }

  /** The open word of `chars` ends just before segment `i`. */
  ghost predicate OpenWord(segs: seq<Segment>, sep: char, i: int, chars: string, start: int, score: int)
    requires |chars| <= i <= |segs|
  {
    var f := i - |chars|;
    (f == 0 || segs[f - 1].symbol == sep) && sep !in chars && Labels(segs[f..i]) == chars
      && (|chars| > 0 ==> start == segs[f].start) && score == Score(segs[f..i])
  }

  lemma OpenAtSeparator(segs: seq<Segment>, sep: char, i: int, start: int)
    requires 0 <= i < |segs| && segs[i].symbol == sep
    ensures OpenWord(segs, sep, i + 1, "", start, 0)
  {
    assert Labels(segs[i + 1..i + 1]) == "";
  }

  lemma OpenAtLetter(segs: seq<Segment>, sep: char, i: int, chars: string, start: int, score: int)
    requires |chars| <= i < |segs| && segs[i].symbol != sep && OpenWord(segs, sep, i, chars, start, score)
    ensures OpenWord(segs, sep, i + 1, chars + [segs[i].symbol],
                     if |chars| == 0 then segs[i].start else start, score + segs[i].score)
  {
    var f := i - |chars|;
    var run := segs[f..i + 1];
    assert run[..|run| - 1] == segs[f..i] && run[|run| - 1] == segs[i];
    assert Score(run) == Score(segs[f..i]) + segs[i].score;
    assert Labels(run) == Labels(segs[f..i]) + [segs[i].symbol] by {
      LabelsSnoc(run, |run| - 1);
      assert run[..|run|] == run;
    }
    assert sep !in chars + [segs[i].symbol] by {
      assert forall k :: 0 <= k < |chars| ==> (chars + [segs[i].symbol])[k] == chars[k];
    }
  }

  /**
   * An open word closed at segment `i` (a separator, or past the end) is the maximal
   * run it was built from.
   */
  lemma ClosedWordAt(segs: seq<Segment>, sep: char, i: int, chars: string, start: int, score: int)
    requires 0 < |chars| <= i <= |segs| && OpenWord(segs, sep, i, chars, start, score)
    requires i == |segs| || segs[i].symbol == sep
    ensures WordAt(segs, sep, Word(chars, start, if i < |segs| then segs[i].end else segs[|segs| - 1].end,
                                   score as real / |chars| as real), i - |chars|)
  {
  }

  /**
   * The closed words are the runs begun among the first `i` segments, in order, bar
   * the run of the open word.
   */
  ghost predicate WordsSoFar(segs: seq<Segment>, sep: char, i: int, words: seq<Word>, chars: string)
    requires 0 <= |chars| <= i <= |segs|
  {
    var st := WordStarts(segs, sep, i);
    |st| == |words| + (if |chars| > 0 then 1 else 0)
      && (|chars| > 0 ==> st[|st| - 1] == i - |chars|)
      && forall m :: 0 <= m < |words| ==> WordAt(segs, sep, words[m], st[m])
  }

  /** Word `m` is the maximal run that begins at the `m`-th run start, and there is one word per run. */
  predicate RunWords(segs: seq<Segment>, sep: char, words: seq<Word>) {
    var st := WordStarts(segs, sep, |segs|);
    |words| == |st| && forall m :: 0 <= m < |words| ==> WordAt(segs, sep, words[m], st[m])
  }

  /** The state of `_merge_words` after the first `i` segments. */
  ghost predicate Merged(segs: seq<Segment>, sep: char, i: int, words: seq<Word>, chars: string, start: int, score: int) {
    0 <= |chars| <= i <= |segs| && TextsSoFar(segs, sep, i, words, chars)
      && WordsSoFar(segs, sep, i, words, chars) && OpenWord(segs, sep, i, chars, start, score)
  }

  /** A separator closes the open word, which is the last run begun. */
  lemma WordsAtSeparator(segs: seq<Segment>, sep: char, i: int, words: seq<Word>, chars: string, start: int, score: int)
    requires 0 < |chars| <= i < |segs| && segs[i].symbol == sep
    requires WordsSoFar(segs, sep, i, words, chars) && OpenWord(segs, sep, i, chars, start, score)
    ensures WordsSoFar(segs, sep, i + 1, words + [Word(chars, start, segs[i].end, score as real / |chars| as real)], "")
  {
    ClosedWordAt(segs, sep, i, chars, start, score);
    assert WordStarts(segs, sep, i + 1) == WordStarts(segs, sep, i);
  }

  /** A letter either extends the open word or begins a new run. */
  lemma WordsAtLetter(segs: seq<Segment>, sep: char, i: int, words: seq<Word>, chars: string, start: int, score: int)
    requires |chars| <= i < |segs| && segs[i].symbol != sep
    requires WordsSoFar(segs, sep, i, words, chars) && OpenWord(segs, sep, i, chars, start, score)
    ensures WordsSoFar(segs, sep, i + 1, words, chars + [segs[i].symbol])
  {
    var st, st' := WordStarts(segs, sep, i), WordStarts(segs, sep, i + 1);
    if |chars| > 0 {
      assert segs[i - 1].symbol == Labels(segs[i - |chars|..i])[|chars| - 1];
      assert st' == st;
    } else {
      assert st' == st + [i];
    }
  }

  /** One pass of the loop of `_merge_words`, over segment `i`. */
  method MergeSegment(segs: seq<Segment>, sep: char, i: int, words: seq<Word>, chars: string, start: int, score: int)
    returns (words': seq<Word>, chars': string, start': int, score': int)
    requires i < |segs| && Merged(segs, sep, i, words, chars, start, score)
    ensures Merged(segs, sep, i + 1, words', chars', start', score')
  {
    var c := segs[i];
    words', chars', start', score' := words, chars, start, score;
    if c.symbol == sep {
      OpenAtSeparator(segs, sep, i, start);
      if |chars| > 0 {
        var w := Word(chars, start, c.end, score as real / |chars| as real);
        WordsAtSeparator(segs, sep, i, words, chars, start, score);
        TextsSnoc(words, w);
        TextsAtSeparator(segs, sep, i, words, chars, words + [w]);
        words' := words + [w];
        chars' := "";
        score' := 0;
      } else {
        assert WordStarts(segs, sep, i + 1) == WordStarts(segs, sep, i);
        TextsAtSeparator(segs, sep, i, words, chars, words);
      }
    } else {
      TextsAtLetter(segs, sep, i, words, chars);
      OpenAtLetter(segs, sep, i, chars, start, score);
      WordsAtLetter(segs, sep, i, words, chars, start, score);
      if |chars| == 0 {
        start' := c.start;
      }
      chars' := chars + [c.symbol];
      score' := score + c.score;
    }
  }

  lemma MergedInitially(segs: seq<Segment>, sep: char)
    ensures Merged(segs, sep, 0, [], "", 0, 0)
  {
    assert segs[..0] == [] && segs[0..0] == [];
  }

  /** Closing the open word at the end leaves one word per run, in order. */
  lemma WordsAtEnd(segs: seq<Segment>, sep: char, words: seq<Word>, chars: string, start: int, score: int, words': seq<Word>)
    requires Merged(segs, sep, |segs|, words, chars, start, score)
    requires words' == words + (if |chars| > 0 then [Word(chars, start, segs[|segs| - 1].end, score as real / |chars| as real)] else [])
    ensures RunWords(segs, sep, words')
  {
    var st := WordStarts(segs, sep, |segs|);
    if |chars| > 0 {
      ClosedWordAt(segs, sep, |segs|, chars, start, score);
    }
    forall m | 0 <= m < |words'|
      ensures WordAt(segs, sep, words'[m], st[m])
    {
      if m < |words| {
        assert words'[m] == words[m];
      }
    }
  }

  /** The end of `_merge_words`: an open word closes at the last segment's end. */
  method CloseLastWord(segs: seq<Segment>, sep: char, words: seq<Word>, chars: string, start: int, score: int)
    returns (words': seq<Word>)
    requires Merged(segs, sep, |segs|, words, chars, start, score)
    ensures Texts(words') == TranscriptionCombining.NonEmpty(SplitOn(Labels(segs), sep))
    ensures RunWords(segs, sep, words')
  {
    if |chars| > 0 {
      var w := Word(chars, start, segs[|segs| - 1].end, score as real / |chars| as real);
      TextsSnoc(words, w);
      TextsAtEnd(segs, sep, words, chars, words + [w]);
      words' := words + [w];
    } else {
      TextsAtEnd(segs, sep, words, chars, words);
      words' := words;
    }
    WordsAtEnd(segs, sep, words, chars, start, score, words');
  }

  /**
   * `_merge_words`: one word per maximal run of non-separator segments, in order. The
   * texts are the non-empty pieces of the labels split at the separator, and word `m`
   * is the run that begins at the `m`-th run start.
   */
  method MergeWords(segs: seq<Segment>, sep: char) returns (words: seq<Word>)
    ensures Texts(words) == TranscriptionCombining.NonEmpty(SplitOn(Labels(segs), sep))
    ensures RunWords(segs, sep, words)
  {
    var chars, start, score;
    words, chars, start, score := MergeAll(segs, sep);
    words := CloseLastWord(segs, sep, words, chars, start, score);
  }

  /** The loop of `_merge_words` over every segment. */
  method MergeAll(segs: seq<Segment>, sep: char) returns (words: seq<Word>, chars: string, start: int, score: int)
    ensures Merged(segs, sep, |segs|, words, chars, start, score)
  {
    words, chars, start, score := [], "", 0, 0;
    var i := 0;
    MergedInitially(segs, sep);
    while i < |segs|
      invariant 0 <= i <= |segs|
      invariant Merged(segs, sep, i, words, chars, start, score)
    {
      words, chars, start, score := MergeSegment(segs, sep, i, words, chars, start, score);
      i := i + 1;
    }
    assert i == |segs|;
  }

  // ---------------------------------------------------------------------------
  // `process`

  /** One aligned word: its text, start and end in seconds, and confidence. */
  datatype WordAlignment = WordAlignment(word: string, start: real, end: real, confidence: real)

  /**
   * A matched chunk as the step reads and updates it: the inputs (index, reuse flag,
   * times, normalised text, the omitted duplicate text) and the fields it sets.
   */
  datatype Chunk = Chunk(chunkIndex: int, reuse: bool, startTime: real, endTime: real,
                         normalizedText: string, omittedText: string,
                         wordAlignments: Option<seq<WordAlignment>>,
                         alignmentsFull: Option<seq<WordAlignment>>,
                         alignmentsOmitted: Option<seq<WordAlignment>>,
                         alignmentMethod: Option<string>, alignmentError: Option<string>)

  /**
   * The aligner (wav2vec2 or DTW) as an oracle: the chunk's start and end times and
   * the text to align give the word alignments, or the message of the exception raised.
   */
  type Aligner = (real, real, string) -> Result<seq<WordAlignment>, string>

  /** `validate_input`: matched chunks must be present and non-empty, and audio present. */
  function ValidateInput(matched: Option<seq<Chunk>>, audio: Option<seq<real>>): (ok: bool)
    ensures ok <==> matched.Some? && |matched.value| > 0 && audio.Some?
  {
    match matched
    case None => false
    case Some(cs) => if |cs| == 0 then false else audio != None
  }

  /** The text handed to the aligner: the omitted duplicate words first, when there are any. */
  function FullText(c: Chunk): string {
    if |c.omittedText| > 0 then c.omittedText + " " + c.normalizedText else c.normalizedText
  }

  /** The chunk is handed to the aligner: not reused, index not yet aligned, text and a positive span. */
  predicate Attempted(c: Chunk, processed: set<int>) {
    !c.reuse && c.chunkIndex !in processed && |FullText(c)| > 0 && c.startTime < c.endTime
  }

  /** The chunk is attempted and the aligner returns without raising. */
  predicate Succeeds(c: Chunk, processed: set<int>, align: Aligner) {
    Attempted(c, processed) && align(c.startTime, c.endTime, FullText(c)).Ok?
  }

  /** How many leading alignments belong to the omitted words: Python's slice bound clamped. */
  function OmittedCount(c: Chunk, fa: seq<WordAlignment>): (n: nat)
    ensures n <= |fa|
  {
    var n := |Split(c.omittedText)|;
    if n < |fa| then n else |fa|
  }

  /**
   * One pass of the loop over the chunks: the updated chunk, and whether it was aligned
   * (its index then joins `processed_chunks` and the count goes up).
   */
  function AlignChunk(c: Chunk, processed: set<int>, align: Aligner, methodName: string): (r: (Chunk, bool))
    ensures r.1 <==> Succeeds(c, processed, align)
    ensures !Attempted(c, processed) ==> r.0 == c
    ensures r.0.chunkIndex == c.chunkIndex && r.0.reuse == c.reuse && r.0.normalizedText == c.normalizedText
      && r.0.omittedText == c.omittedText && r.0.startTime == c.startTime && r.0.endTime == c.endTime
  {
    if !Attempted(c, processed) then (c, false)
    else match align(c.startTime, c.endTime, FullText(c))
      case Err(e) => (c.(wordAlignments := Some([]), alignmentError := Some(e)), false)
      case Ok(fa) =>
        if |c.omittedText| > 0 && |fa| > 0 then
          var n := OmittedCount(c, fa);
          (c.(wordAlignments := Some(fa[n..]), alignmentsFull := Some(fa), alignmentsOmitted := Some(fa[..n]),
              alignmentMethod := Some(methodName)), true)
        else (c.(wordAlignments := Some(fa), alignmentMethod := Some(methodName)), true)
  }

  /**
   * A successful alignment: the kept alignments follow the omitted ones, which cover as
   * many leading words as the omitted text has; without omitted text everything is kept.
   */
  lemma AlignedSplit(c: Chunk, processed: set<int>, align: Aligner, methodName: string)
    requires AlignChunk(c, processed, align, methodName).1
    ensures var fa := align(c.startTime, c.endTime, FullText(c)).value;
      var c' := AlignChunk(c, processed, align, methodName).0;
      c'.wordAlignments.Some? && c'.alignmentMethod == Some(methodName)
      && (|c.omittedText| > 0 && |fa| > 0 ==>
            c'.alignmentsFull == Some(fa) && c'.alignmentsOmitted.Some?
            && c'.alignmentsOmitted.value + c'.wordAlignments.value == fa
            && |c'.alignmentsOmitted.value| == if |Split(c.omittedText)| < |fa| then |Split(c.omittedText)| else |fa|)
      && (|c.omittedText| == 0 || |fa| == 0 ==> c'.wordAlignments == Some(fa))
  {
    var fa := align(c.startTime, c.endTime, FullText(c)).value;
    if |c.omittedText| > 0 && |fa| > 0 {
      var n := OmittedCount(c, fa);
      assert fa[..n] + fa[n..] == fa;
    }
  }

  /** The alignments of `ws + vs`, past the first `|ws|`, are those of `vs`. */
  lemma AlignmentsSuffix(fa: seq<WordAlignment>, ws: seq<string>, vs: seq<string>)
    requires |fa| == |ws + vs| && forall k :: 0 <= k < |fa| ==> fa[k].word == (ws + vs)[k]
    ensures |fa[|ws|..]| == |vs| && forall k :: 0 <= k < |vs| ==> fa[|ws|..][k].word == vs[k]
  {
    forall k | 0 <= k < |vs|
      ensures fa[|ws|..][k].word == vs[k]
    {
      assert fa[|ws| + k].word == (ws + vs)[|ws| + k];
    }
  }

  /**
   * When the aligner returns one alignment per word of the text it was given, the kept
   * alignments are exactly those of the chunk's own normalised words.
   */
  lemma KeptWordsAreOwn(c: Chunk, processed: set<int>, align: Aligner, methodName: string)
    requires AlignChunk(c, processed, align, methodName).1
    requires var fa := align(c.startTime, c.endTime, FullText(c)).value;
      |fa| == |Split(FullText(c))| && forall k :: 0 <= k < |fa| ==> fa[k].word == Split(FullText(c))[k]
    ensures var kept := AlignChunk(c, processed, align, methodName).0.wordAlignments.value;
      |kept| == |Split(c.normalizedText)|
      && forall k :: 0 <= k < |kept| ==> kept[k].word == Split(c.normalizedText)[k]
  {
    var fa := align(c.startTime, c.endTime, FullText(c)).value;
    var kept := AlignChunk(c, processed, align, methodName).0.wordAlignments.value;
    AlignedSplit(c, processed, align, methodName);
    if |c.omittedText| > 0 {
      var ws := Split(c.omittedText);
      var vs := Split(c.normalizedText);
      assert FullText(c) == c.omittedText + [' '] + c.normalizedText;
      SplitSep(c.omittedText, ' ', c.normalizedText);
      assert Split(FullText(c)) == ws + vs;
      if |fa| > 0 {
        assert OmittedCount(c, fa) == |ws|;
        assert kept == fa[|ws|..];
        AlignmentsSuffix(fa, ws, vs);
      } else {
        assert kept == fa;
      }
    } else {
      assert kept == fa && FullText(c) == c.normalizedText;
    }
  }

  /** An exception from the aligner: no alignments, the message recorded, the index not marked. */
  lemma FailedAlignment(c: Chunk, processed: set<int>, align: Aligner, methodName: string)
    requires Attempted(c, processed) && align(c.startTime, c.endTime, FullText(c)).Err?
    ensures var c' := AlignChunk(c, processed, align, methodName).0;
      c'.wordAlignments == Some([]) && c'.alignmentError == Some(align(c.startTime, c.endTime, FullText(c)).error)
      && !AlignChunk(c, processed, align, methodName).1
  {
  }

  /** The indices in `processed_chunks` after the first `n` chunks. */
  function Processed(chunks: seq<Chunk>, align: Aligner, n: nat): set<int>
    requires n <= |chunks|
    decreases n
  {
    if n == 0 then {}
    else
      var p := Processed(chunks, align, n - 1);
      p + if Succeeds(chunks[n - 1], p, align) then {chunks[n - 1].chunkIndex} else {}
  }

  /** Chunk `i` was aligned successfully. */
  predicate Aligned(chunks: seq<Chunk>, align: Aligner, i: nat)
    requires i < |chunks|
  {
    Succeeds(chunks[i], Processed(chunks, align, i), align)
  }

  /** Some chunk among the first `n`, aligned successfully, has index `x`. */
  ghost predicate AlignedIndex(chunks: seq<Chunk>, align: Aligner, n: nat, x: int)
    requires n <= |chunks|
  {
    exists i :: 0 <= i < n && Aligned(chunks, align, i) && chunks[i].chunkIndex == x
  }

  /** Every index in `processed_chunks` is that of a chunk aligned so far. */
  lemma {:induction false} ProcessedSound(chunks: seq<Chunk>, align: Aligner, n: nat, x: int)
    requires n <= |chunks| && x in Processed(chunks, align, n)
    ensures AlignedIndex(chunks, align, n, x)
    decreases n
  {
    var p := Processed(chunks, align, n - 1);
    if x in p {
      ProcessedSound(chunks, align, n - 1, x);
      var i :| 0 <= i < n - 1 && Aligned(chunks, align, i) && chunks[i].chunkIndex == x;
      assert 0 <= i < n && Aligned(chunks, align, i) && chunks[i].chunkIndex == x;
    } else {
      assert 0 <= n - 1 < n && Aligned(chunks, align, n - 1) && chunks[n - 1].chunkIndex == x;
    }
  }

  /** The index of every chunk aligned so far is in `processed_chunks`. */
  lemma {:induction false} ProcessedComplete(chunks: seq<Chunk>, align: Aligner, n: nat, i: nat)
    requires i < n <= |chunks| && Aligned(chunks, align, i)
    ensures chunks[i].chunkIndex in Processed(chunks, align, n)
    decreases n
  {
    if i < n - 1 {
      ProcessedComplete(chunks, align, n - 1, i);
    }
  }

  /** `processed_chunks` holds exactly the indices of the chunks aligned so far. */
  lemma ProcessedIndices(chunks: seq<Chunk>, align: Aligner, n: nat, x: int)
    requires n <= |chunks|
    ensures x in Processed(chunks, align, n) <==> AlignedIndex(chunks, align, n, x)
  {
    if x in Processed(chunks, align, n) {
      ProcessedSound(chunks, align, n, x);
    }
    if AlignedIndex(chunks, align, n, x) {
      var i :| 0 <= i < n && Aligned(chunks, align, i) && chunks[i].chunkIndex == x;
      ProcessedComplete(chunks, align, n, i);
    }
  }

  /** No chunk index is aligned successfully twice. */
  lemma AlignedOnce(chunks: seq<Chunk>, align: Aligner, i: nat, j: nat)
    requires i < j < |chunks|
    requires Aligned(chunks, align, i) && Aligned(chunks, align, j)
    ensures chunks[i].chunkIndex != chunks[j].chunkIndex
  {
    ProcessedIndices(chunks, align, j, chunks[i].chunkIndex);
  }

  /** The first `n` chunks as the loop leaves them. */
  function Outputs(chunks: seq<Chunk>, align: Aligner, methodName: string, n: nat): (out: seq<Chunk>)
    requires n <= |chunks|
    ensures |out| == n
    decreases n
  {
    if n == 0 then []
    else
      var prior := Outputs(chunks, align, methodName, n - 1);
      prior + [AlignChunk(chunks[n - 1], Processed(chunks, align, n - 1), align, methodName).0]
  }

  lemma {:induction false} OutputsAt(chunks: seq<Chunk>, align: Aligner, methodName: string, n: nat, k: nat)
    requires k < n <= |chunks|
    ensures Outputs(chunks, align, methodName, n)[k]
      == AlignChunk(chunks[k], Processed(chunks, align, k), align, methodName).0
    decreases n
  {
    if k < n - 1 {
      OutputsAt(chunks, align, methodName, n - 1, k);
    }
  }

  /** One pass of the loop: the index of an aligned chunk is new to `processed_chunks`. */
  lemma ProcessStep(chunks: seq<Chunk>, align: Aligner, methodName: string, i: nat)
    requires i < |chunks|
    ensures var p := Processed(chunks, align, i);
      var r := AlignChunk(chunks[i], p, align, methodName);
      Processed(chunks, align, i + 1) == (if r.1 then p + {chunks[i].chunkIndex} else p)
      && (r.1 ==> chunks[i].chunkIndex !in p)
      && Outputs(chunks, align, methodName, i + 1) == Outputs(chunks, align, methodName, i) + [r.0]
  {
  }

  /** What the loop leaves in each place: the chunk updated against the indices before it. */
  lemma OutputsMeaning(chunks: seq<Chunk>, align: Aligner, methodName: string)
    ensures var out := Outputs(chunks, align, methodName, |chunks|);
      (forall i :: 0 <= i < |chunks| ==>
        out[i] == AlignChunk(chunks[i], Processed(chunks, align, i), align, methodName).0)
      && forall i :: 0 <= i < |chunks| && chunks[i].reuse ==> out[i] == chunks[i]
  {
    forall k | 0 <= k < |chunks|
      ensures Outputs(chunks, align, methodName, |chunks|)[k]
        == AlignChunk(chunks[k], Processed(chunks, align, k), align, methodName).0
    {
      OutputsAt(chunks, align, methodName, |chunks|, k);
    }
  }

  /** The loop's state after the first `i` chunks. */
  predicate LoopState(chunks: seq<Chunk>, align: Aligner, methodName: string, i: nat,
                      processed: set<int>, count: nat, out: seq<Chunk>)
  {
    && i <= |chunks|
    && processed == Processed(chunks, align, i) && count == |processed|
    && out == Outputs(chunks, align, methodName, i)
  }

  /** One pass of `process`'s loop body, on chunk `i`. */
  method ProcessChunk(chunks: seq<Chunk>, align: Aligner, methodName: string, i: nat,
                      processed: set<int>, count: nat, out: seq<Chunk>)
    returns (processed': set<int>, count': nat, out': seq<Chunk>)
    requires i < |chunks| && LoopState(chunks, align, methodName, i, processed, count, out)
    ensures LoopState(chunks, align, methodName, i + 1, processed', count', out')
  {
    ProcessStep(chunks, align, methodName, i);
    var r := AlignChunk(chunks[i], processed, align, methodName);
    processed', count' := processed, count;
    if r.1 {
      processed' := processed + {chunks[i].chunkIndex};
      count' := count + 1;
    }
    out' := out + [r.0];
  }

  /**
   * `process`'s loop: every chunk updated in order against the indices aligned before
   * it; the count of aligned chunks is the number of distinct indices aligned.
   */
  method Process(chunks: seq<Chunk>, align: Aligner, methodName: string) returns (out: seq<Chunk>, count: nat)
    ensures |out| == |chunks|
    ensures forall i :: 0 <= i < |chunks| ==>
      out[i] == AlignChunk(chunks[i], Processed(chunks, align, i), align, methodName).0
    ensures forall i :: 0 <= i < |chunks| && chunks[i].reuse ==> out[i] == chunks[i]
    ensures count == |Processed(chunks, align, |chunks|)|
  {
    var processed: set<int> := {};
    out := [];
    count := 0;
    var i := 0;
    while i < |chunks|
      invariant LoopState(chunks, align, methodName, i, processed, count, out)
    {
      processed, count, out := ProcessChunk(chunks, align, methodName, i, processed, count, out);
      i := i + 1;
    }
    OutputsMeaning(chunks, align, methodName);
  }
}
