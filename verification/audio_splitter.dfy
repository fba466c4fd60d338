/**
 * The silence-aware `AudioSplitter` (`app/utils/audio_splitter.py`): ayah boundaries
 * are moved to the middle of the gap between consecutive ayahs; where two ayahs meet
 * exactly, a silence near the cut is searched for and, if one is found, both ayahs
 * are cut at its midpoint; otherwise the later ayah is flagged as uncertain.
 */
module AudioSplitter {
  import opened Wrappers
  import opened Text
  import opened Timestamps
  import opened AyahFiles
  import SilenceDetection
  import QuranData

  /**
   * The loaded recording: its length in milliseconds, and pydub's
   * `detect_silence(audio[a:b], min_silence_len=500, silence_thresh=-40)`, whose ranges
   * are relative to `a`, and `len(audio[a:b])`.
   */
  datatype Audio = Audio(lengthMs: int, detectSilence: (int, int) -> seq<(int, int)>,
                         sliceLen: (int, int) -> nat)

  /** How far, in ms, the zero-gap search looks on each side of the cut. */
  const SearchWindowMs: int := 10000

  function Abs(x: int): nat {
    if x < 0 then -x else x
  }

  // ---------------------------------------------------------------------------
  // `_find_silence_near_cutoff`

  /** The searched region `[max(0, c - w), min(len, c + w)]`. */
  function WindowStart(c: int, w: int): int {
    SilenceDetection.Max(0, c - w)
  }

  function WindowEnd(audio: Audio, c: int, w: int): int {
    SilenceDetection.Min(audio.lengthMs, c + w)
  }

  /** The silences the detector reports in the searched region, relative to its start. */
  function Silences(audio: Audio, c: int, w: int): seq<(int, int)> {
    audio.detectSilence(WindowStart(c, w), WindowEnd(audio, c, w))
  }

  /** The floor midpoint, in absolute time, of a silence found in a region starting at `lo`. */
  function Midpoint(lo: int, s: (int, int)): int {
    (lo + s.0 + lo + s.1) / 2
  }

  function Midpoints(lo: int, sil: seq<(int, int)>): (ms: seq<int>)
    ensures |ms| == |sil| && forall i :: 0 <= i < |sil| ==> ms[i] == Midpoint(lo, sil[i])
  {
    seq(|sil|, i requires 0 <= i < |sil| => Midpoint(lo, sil[i]))
  }

  /**
   * The scan for the closest value: a value replaces the best so far only when it is
   * strictly closer, so the first of several equally close values wins.
   */
  function Closest(ms: seq<int>, c: int): (k: nat)
    requires |ms| > 0
    ensures k < |ms|
    ensures forall j :: 0 <= j < |ms| ==> Abs(ms[k] - c) <= Abs(ms[j] - c)
    ensures forall j :: 0 <= j < k ==> Abs(ms[j] - c) > Abs(ms[k] - c)
    decreases |ms|
  {
    if |ms| == 1 then 0
    else
      var init := ms[..|ms| - 1];
      assert forall j :: 0 <= j < |init| ==> init[j] == ms[j];
      var k := Closest(init, c);
      if Abs(ms[|ms| - 1] - c) < Abs(ms[k] - c) then |ms| - 1 else k
  }

  /**
   * `_find_silence_near_cutoff`: `None` iff the detector finds no silence in the
   * region, else the midpoint of the silence closest to the cut `c`.
   */
  function FindSilenceNearCutoff(audio: Audio, c: int, w: int): (r: Option<int>)
    ensures r.None? <==> |Silences(audio, c, w)| == 0
    ensures r.Some? ==> exists k :: (0 <= k < |Silences(audio, c, w)|
      && r.value == Midpoint(WindowStart(c, w), Silences(audio, c, w)[k]))
    ensures r.Some? ==> forall j :: 0 <= j < |Silences(audio, c, w)| ==>
      Abs(r.value - c) <= Abs(Midpoint(WindowStart(c, w), Silences(audio, c, w)[j]) - c)
  {
    var sil := Silences(audio, c, w);
    if |sil| == 0 then None
    else
      var ms := Midpoints(WindowStart(c, w), sil);
      Some(ms[Closest(ms, c)])
  }

  // ---------------------------------------------------------------------------
  // `_detect_silence_gaps_in_segment`

  datatype SilenceGap = SilenceGap(startMs: int, endMs: int, durationMs: int)

  /** A silence neither in the first nor in the last tenth of a segment of `len` ms. */
  predicate Internal(s: (int, int), len: int) {
    (s.0 as real) >= (len as real) * 0.1 && (s.1 as real) <= (len as real) * 0.9
  }

  function GapOf(s: (int, int)): SilenceGap {
    SilenceGap(s.0, s.1, s.1 - s.0)
  }

  /** The positions of the internal silences among `sil`, in increasing order. */
  function InternalPositions(sil: seq<(int, int)>, len: int): (idx: seq<nat>)
    ensures forall k :: 0 <= k < |idx| ==> idx[k] < |sil| && Internal(sil[idx[k]], len)
    ensures forall a, b :: 0 <= a < b < |idx| ==> idx[a] < idx[b]
    ensures forall i :: 0 <= i < |sil| && Internal(sil[i], len) ==> i in idx
    decreases |sil|
  {
    if |sil| == 0 then []
    else InternalPositions(sil[..|sil| - 1], len) + (if Internal(sil[|sil| - 1], len) then [|sil| - 1] else [])
  }

  /**
   * The internal silences of a segment, in detector order: exactly the detected
   * silences that are internal, each with its duration, and each as often as detected.
   */
  function DetectSilenceGaps(sil: seq<(int, int)>, len: int): (gs: seq<SilenceGap>)
    ensures |gs| == |InternalPositions(sil, len)| <= |sil|
    ensures forall k :: 0 <= k < |gs| ==> gs[k] == GapOf(sil[InternalPositions(sil, len)[k]])
    decreases |sil|
  {
    if |sil| == 0 then []
    else
      var init := sil[..|sil| - 1];
      var s := sil[|sil| - 1];
      var gs := DetectSilenceGaps(init, len);
      if Internal(s, len) then gs + [GapOf(s)] else gs
  }

  /**
   * Seen as sets, the gaps are exactly the internal silences: every gap is a detected
   * internal silence with its duration, and every detected internal silence is a gap.
   */
  lemma GapsAreInternalSilences(sil: seq<(int, int)>, len: int)
    ensures forall j :: 0 <= j < |DetectSilenceGaps(sil, len)| ==>
      var g := DetectSilenceGaps(sil, len)[j];
      (g.startMs, g.endMs) in sil && Internal((g.startMs, g.endMs), len) && g.durationMs == g.endMs - g.startMs
    ensures forall i :: 0 <= i < |sil| && Internal(sil[i], len) ==> GapOf(sil[i]) in DetectSilenceGaps(sil, len)
  {
    var gs, idx := DetectSilenceGaps(sil, len), InternalPositions(sil, len);
    forall i | 0 <= i < |sil| && Internal(sil[i], len)
      ensures GapOf(sil[i]) in gs
    {
      var k :| 0 <= k < |idx| && idx[k] == i;
      assert gs[k] == GapOf(sil[i]);
    }
  }

  // ---------------------------------------------------------------------------
  // `_calculate_adjusted_timestamps`

  /** Each ayah's original bounds in milliseconds, as `_parse_timestamp` reads them. */
  function Spans(ds: seq<AyahDetail>): (sp: seq<(int, int)>)
    ensures |sp| == |ds|
    ensures forall i :: 0 <= i < |ds| ==>
      sp[i] == (ParseTimestamp(ds[i].startTimestamp), ParseTimestamp(ds[i].endTimestamp))
  {
    seq(|ds|, i requires 0 <= i < |ds| => (ParseTimestamp(ds[i].startTimestamp), ParseTimestamp(ds[i].endTimestamp)))
  }

  function StartMs(sp: seq<(int, int)>, i: int): int
    requires 0 <= i < |sp|
  {
    sp[i].0
  }

  function EndMs(sp: seq<(int, int)>, i: int): int
    requires 0 <= i < |sp|
  {
    sp[i].1
  }

  /** The gap between ayah `i - 1`'s end and ayah `i`'s start; negative for an overlap. */
  function Gap(sp: seq<(int, int)>, i: int): int
    requires 0 < i < |sp|
  {
    StartMs(sp, i) - EndMs(sp, i - 1)
  }

  /** The silence search around ayah `i`'s start. */
  function SilenceAt(sp: seq<(int, int)>, i: int, audio: Audio): Option<int>
    requires 0 <= i < |sp|
  {
    FindSilenceNearCutoff(audio, StartMs(sp, i), SearchWindowMs)
  }

  /** Python's truth value of the search result: a midpoint of 0 counts as not found. */
  predicate Truthy(m: Option<int>) {
    m.Some? && m.value != 0
  }

  /** Ayah `i` meets the previous one exactly and there is audio to search. */
  predicate Searched(sp: seq<(int, int)>, i: int, audio: Option<Audio>)
    requires 0 < i < |sp|
  {
    Gap(sp, i) == 0 && audio.Some?
  }

  /** The search at the cut before ayah `i` found a usable silence. */
  predicate Resplit(sp: seq<(int, int)>, i: int, audio: Option<Audio>)
    requires 0 < i < |sp|
  {
    Searched(sp, i, audio) && Truthy(SilenceAt(sp, i, audio.value))
  }

  /** Ayah `i` is flagged: the search at its start found nothing usable. */
  predicate Uncertain(sp: seq<(int, int)>, i: int, audio: Option<Audio>)
    requires 0 <= i < |sp|
  {
    0 < i && Searched(sp, i, audio) && !Truthy(SilenceAt(sp, i, audio.value))
  }

  /** Ayah `i`'s adjusted start. */
  function AdjustedStart(sp: seq<(int, int)>, i: int, audio: Option<Audio>): int
    requires 0 <= i < |sp|
  {
    if i == 0 then StartMs(sp, 0)
    else if Resplit(sp, i, audio) then SilenceAt(sp, i, audio.value).value
    else if Gap(sp, i) > 0 then EndMs(sp, i - 1) + Gap(sp, i) / 2
    else StartMs(sp, i)
  }

  /** Ayah `i`'s end as first computed, before the next ayah's search can move it. */
  function ProvisionalEnd(sp: seq<(int, int)>, i: int, audio: Option<Audio>): int
    requires 0 <= i < |sp|
  {
    if i == |sp| - 1 then EndMs(sp, i)
    else if Searched(sp, i + 1, audio) then EndMs(sp, i)
    else if Gap(sp, i + 1) > 0 then EndMs(sp, i) + Gap(sp, i + 1) / 2
    else EndMs(sp, i)
  }

  /** Ayah `i`'s adjusted end: moved to the next cut's silence when one was found. */
  function AdjustedEnd(sp: seq<(int, int)>, i: int, audio: Option<Audio>): int
    requires 0 <= i < |sp|
  {
    if i < |sp| - 1 && Resplit(sp, i + 1, audio) then SilenceAt(sp, i + 1, audio.value).value
    else ProvisionalEnd(sp, i, audio)
  }

  /** Ayah `i`'s adjusted (start, end, uncertain) triple. */
  function Triple(sp: seq<(int, int)>, i: int, audio: Option<Audio>): (int, int, bool)
    requires 0 <= i < |sp|
  {
    (AdjustedStart(sp, i, audio), AdjustedEnd(sp, i, audio), Uncertain(sp, i, audio))
  }

  /** The triple of every ayah. */
  function Adjusted(sp: seq<(int, int)>, audio: Option<Audio>): (ts: seq<(int, int, bool)>)
    ensures |ts| == |sp|
    ensures forall i :: 0 <= i < |sp| ==> ts[i] == Triple(sp, i, audio)
  {
    seq(|sp|, i requires 0 <= i < |sp| => Triple(sp, i, audio))
  }

  /**
   * The start half of one iteration: ayah `idx`'s start and flag, and the silence
   * midpoint that also becomes the previous ayah's end when the search succeeds.
   */
  method AdjustStart(sp: seq<(int, int)>, idx: int, audio: Option<Audio>) returns (start: int, uncertain: bool, moved: Option<int>)
    requires 0 <= idx < |sp|
    ensures start == AdjustedStart(sp, idx, audio) && uncertain == Uncertain(sp, idx, audio)
    ensures moved.Some? <==> idx > 0 && Resplit(sp, idx, audio)
    ensures moved.Some? ==> moved.value == start
  {
    var startTime := sp[idx].0;
    uncertain := false;
    moved := None;
    if idx > 0 {
      var prevEnd := sp[idx - 1].1;
      var gap := startTime - prevEnd;
      if gap == 0 && audio.Some? {
        var midpoint := FindSilenceNearCutoff(audio.value, startTime, SearchWindowMs);
        if midpoint.Some? && midpoint.value != 0 {
          start := midpoint.value;
          moved := midpoint;
        } else {
          start := startTime;
          uncertain := true;
        }
      } else if gap > 0 {
        start := prevEnd + gap / 2;
      } else {
        start := startTime;
      }
    } else {
      start := startTime;
    }
  }

  /** The end half of one iteration: a zero gap is left to the next ayah's search. */
  method AdjustEnd(sp: seq<(int, int)>, idx: int, audio: Option<Audio>) returns (end: int)
    requires 0 <= idx < |sp|
    ensures end == ProvisionalEnd(sp, idx, audio)
  {
    var endTime := sp[idx].1;
    if idx < |sp| - 1 {
      var nextStart := sp[idx + 1].0;
      var gap := nextStart - endTime;
      if gap == 0 && audio.Some? {
        end := endTime;
      } else if gap > 0 {
        end := endTime + gap / 2;
      } else {
        end := endTime;
      }
    } else {
      end := endTime;
    }
  }

  /** The end of ayah `i - 1` is final once the search at ayah `i`'s start is done. */
  lemma EndAfterSearch(sp: seq<(int, int)>, i: int, audio: Option<Audio>)
    requires 0 < i < |sp|
    ensures Triple(sp, i - 1, audio) == Triple(sp, i - 1, audio).(1 := ProvisionalEnd(sp, i - 1, audio)).(1 :=
      if Resplit(sp, i, audio) then AdjustedStart(sp, i, audio) else ProvisionalEnd(sp, i - 1, audio))
  {
  }

  /** The first `n` triples are final. */
  ghost predicate Settled(ts: seq<(int, int, bool)>, sp: seq<(int, int)>, audio: Option<Audio>, n: int)
    requires 0 <= n <= |ts| && n <= |sp|
  {
    forall i :: 0 <= i < n ==> ts[i] == Triple(sp, i, audio)
  }

  /** Settling triple `n` in a sequence that keeps the earlier ones settles `n + 1` triples. */
  lemma SettleNext(done: seq<(int, int, bool)>, ts: seq<(int, int, bool)>, sp: seq<(int, int)>, audio: Option<Audio>, n: int)
    requires 0 <= n < |ts| <= |sp| && n <= |done| && Settled(done, sp, audio, n)
    requires forall i :: 0 <= i < n ==> ts[i] == done[i]
    requires ts[n] == Triple(sp, n, audio)
    ensures Settled(ts, sp, audio, n + 1)
  {
  }

  /**
   * `_calculate_adjusted_timestamps`: each ayah's triple is appended, and a silence
   * found at a cut overwrites the end of the triple appended just before.
   */
  method CalculateAdjustedTimestamps(sp: seq<(int, int)>, audio: Option<Audio>) returns (ts: seq<(int, int, bool)>)
    ensures ts == Adjusted(sp, audio)
    ensures |sp| > 0 ==> ts[0].0 == StartMs(sp, 0) && ts[|sp| - 1].1 == EndMs(sp, |sp| - 1)
  {
    ts := [];
    var idx := 0;
    while idx < |sp|
      invariant 0 <= idx <= |sp| && |ts| == idx
      invariant idx > 0 ==> Settled(ts, sp, audio, idx - 1)
      invariant idx > 0 ==> ts[idx - 1] == Triple(sp, idx - 1, audio).(1 := ProvisionalEnd(sp, idx - 1, audio))
    {
      ghost var done := ts;
      var start, uncertain, moved := AdjustStart(sp, idx, audio);
      if moved.Some? && |ts| > 0 {
        var (ps, _, pu) := ts[|ts| - 1];
        ts := ts[..|ts| - 1] + [(ps, moved.value, pu)];
      }
      if idx > 0 {
        EndAfterSearch(sp, idx, audio);
        assert ts[idx - 1] == Triple(sp, idx - 1, audio);
        SettleNext(done, ts, sp, audio, idx - 1);
      }
      var end := AdjustEnd(sp, idx, audio);
      ghost var settled := ts;
      ts := ts + [(start, end, uncertain)];
      assert forall i :: 0 <= i < idx ==> ts[i] == settled[i];
      idx := idx + 1;
    }
    assert forall i :: 0 <= i < |sp| ==> ts[i] == Triple(sp, i, audio) by {
      if |sp| > 0 {
        SettleNext(ts, ts, sp, audio, |sp| - 1);
      }
    }
  }

  // ---------------------------------------------------------------------------
  // Boundary properties

  /**
   * Where the gap before ayah `i` is positive, both ayahs are cut at the floor middle
   * of the gap: the earlier one ends where the later one starts, neither loses audio,
   * and the later one is not flagged.
   */
  lemma PositiveGapMidway(sp: seq<(int, int)>, i: int, audio: Option<Audio>)
    requires 0 < i < |sp| && Gap(sp, i) > 0
    ensures AdjustedEnd(sp, i - 1, audio) == AdjustedStart(sp, i, audio)
    ensures EndMs(sp, i - 1) <= AdjustedStart(sp, i, audio) < StartMs(sp, i)
    ensures 2 * (AdjustedStart(sp, i, audio) - EndMs(sp, i - 1)) <= Gap(sp, i)
    ensures Gap(sp, i) <= 2 * (AdjustedStart(sp, i, audio) - EndMs(sp, i - 1)) + 1
    ensures !Uncertain(sp, i, audio)
  {
  }

  /**
   * Where two ayahs meet exactly and a usable silence is found, both are cut at the
   * midpoint of the silence nearest the cut, and the later one is not flagged.
   */
  lemma ResplitAtSilence(sp: seq<(int, int)>, i: int, audio: Audio)
    requires 0 < i < |sp| && Gap(sp, i) == 0
    requires Truthy(SilenceAt(sp, i, audio))
    ensures AdjustedEnd(sp, i - 1, Some(audio)) == AdjustedStart(sp, i, Some(audio))
    ensures var cut := AdjustedStart(sp, i, Some(audio));
      var sil := Silences(audio, StartMs(sp, i), SearchWindowMs);
      var lo := WindowStart(StartMs(sp, i), SearchWindowMs);
      cut != 0 && (exists k :: 0 <= k < |sil| && cut == Midpoint(lo, sil[k]))
        && forall j :: 0 <= j < |sil| ==> Abs(cut - StartMs(sp, i)) <= Abs(Midpoint(lo, sil[j]) - StartMs(sp, i))
    ensures !Uncertain(sp, i, Some(audio))
  {
  }

  /**
   * Where two ayahs meet exactly but no usable silence is found (none, or one whose
   * midpoint is at time 0), the cut stays where it was and only the later ayah is
   * flagged.
   */
  lemma UnresolvedCut(sp: seq<(int, int)>, i: int, audio: Audio)
    requires 0 < i < |sp| && Gap(sp, i) == 0
    requires !Truthy(SilenceAt(sp, i, audio))
    ensures AdjustedEnd(sp, i - 1, Some(audio)) == EndMs(sp, i - 1) == StartMs(sp, i) == AdjustedStart(sp, i, Some(audio))
    ensures Uncertain(sp, i, Some(audio))
    ensures i < |sp| - 1 && Gap(sp, i + 1) != 0 ==> !Uncertain(sp, i + 1, Some(audio))
  {
  }

  /** Overlapping ayahs keep their original bounds at the overlap and are not flagged. */
  lemma NegativeGapKept(sp: seq<(int, int)>, i: int, audio: Option<Audio>)
    requires 0 < i < |sp| && Gap(sp, i) < 0
    ensures AdjustedEnd(sp, i - 1, audio) == EndMs(sp, i - 1)
    ensures AdjustedStart(sp, i, audio) == StartMs(sp, i)
    ensures !Uncertain(sp, i, audio)
  {
  }

  /**
   * Without audio the adjustment never flags an ayah and never overlaps or shortens
   * one: each ayah keeps at least its original span, and consecutive ayahs that do not
   * overlap share their boundary.
   */
  lemma {:induction false} WithoutAudio(sp: seq<(int, int)>, i: int)
    requires 0 <= i < |sp|
    ensures !Uncertain(sp, i, None)
    ensures AdjustedStart(sp, i, None) <= StartMs(sp, i) && EndMs(sp, i) <= AdjustedEnd(sp, i, None)
    ensures i > 0 && Gap(sp, i) >= 0 ==> AdjustedEnd(sp, i - 1, None) == AdjustedStart(sp, i, None)
  {
  }

  // ---------------------------------------------------------------------------
  // `_create_zip_with_timestamps`

  /**
   * One entry of `metadata.json`. `cutStartMs`/`cutEndMs` are the adjusted bounds the
   * source stores under its `_legacy` keys, the relative offsets are the original
   * bounds minus the adjusted ones, and `durationMs` is the length of the cut segment,
   * which the source writes in seconds as `duration_seconds`.
   */
  datatype AyahMetadata = AyahMetadata(
    surahNumber: int, ayahNumber: int, textTashkeel: string, textNormalized: string,
    wordCount: int, startFromWord: int, endToWord: int,
    startTimestamp: string, endTimestamp: string,
    absoluteStartMs: int, absoluteEndMs: int, isBasmala: bool, fileName: string, durationMs: nat,
    cutStartMs: int, cutEndMs: int, relativeStartMs: int, relativeEndMs: int,
    silenceGaps: seq<SilenceGap>, cutoffUncertain: bool)

  /** The splitter's own normalisation: marks deleted, letters folded, words single-spaced. */
  function SplitterNormalize(t: string): string {
    Join(Split(QuranData.Folded(t)), " ")
  }

  /** The splitter normalises exactly as the reference-text normaliser does. */
  lemma SplitterNormalizeAgrees(t: string)
    ensures SplitterNormalize(t) == QuranData.Normalize(t)
  {
    QuranData.NormalizeWords(t);
  }

  /** The metadata entry of one ayah cut at `t = (start, end, uncertain)`. */
  function Metadata(d: AyahDetail, t: (int, int, bool), ext: string, audio: Audio): (m: AyahMetadata)
    ensures m.surahNumber == d.surahNumber && m.ayahNumber == MetadataAyah(d)
    ensures m.fileName == FileName(d, ext) && m.isBasmala == d.isBasmala
    ensures Split(m.textNormalized) == Split(QuranData.Folded(d.textTashkeel))
    ensures m.wordCount == d.wordCount.GetOr(|Split(QuranData.Folded(d.textTashkeel))|)
    ensures m.endToWord == d.endToWord.GetOr(|Split(QuranData.Folded(d.textTashkeel))|)
    ensures m.startFromWord == d.startFromWord.GetOr(1)
    ensures m.absoluteStartMs == ParseTimestamp(d.startTimestamp) == m.cutStartMs + m.relativeStartMs
    ensures m.absoluteEndMs == ParseTimestamp(d.endTimestamp) == m.cutEndMs + m.relativeEndMs
    ensures (m.cutStartMs, m.cutEndMs, m.cutoffUncertain) == t
    ensures m.durationMs == audio.sliceLen(t.0, t.1)
  {
    var norm := SplitterNormalize(d.textTashkeel);
    SplitJoin(Split(QuranData.Folded(d.textTashkeel)));
    var words := |Split(norm)|;
    var s := ParseTimestamp(d.startTimestamp);
    var e := ParseTimestamp(d.endTimestamp);
    AyahMetadata(d.surahNumber, MetadataAyah(d), d.textTashkeel, norm,
                 d.wordCount.GetOr(words), d.startFromWord.GetOr(1), d.endToWord.GetOr(words),
                 d.startTimestamp, d.endTimestamp, s, e, d.isBasmala, FileName(d, ext),
                 audio.sliceLen(t.0, t.1), t.0, t.1, s - t.0, e - t.1,
                 DetectSilenceGaps(audio.detectSilence(t.0, t.1), audio.sliceLen(t.0, t.1)), t.2)
  }

  /** The elements of `xs[..n]` at the positions `keep` accepts, in order. */
  function Kept<T>(xs: seq<T>, keep: int -> bool, n: nat): (ys: seq<T>)
    requires n <= |xs|
    ensures |ys| <= n
    decreases n
  {
    if n == 0 then [] else Kept(xs, keep, n - 1) + (if keep(n - 1) then [xs[n - 1]] else [])
  }

  /** The positions below `n` that `keep` accepts, in order. */
  function KeptAt(keep: int -> bool, n: nat): seq<int>
    decreases n
  {
    if n == 0 then [] else KeptAt(keep, n - 1) + (if keep(n - 1) then [n - 1] else [])
  }

  /** The accepted positions are listed once each, in ascending order, and all are listed. */
  lemma {:induction false} KeptAtAscending(keep: int -> bool, n: nat)
    ensures var ks := KeptAt(keep, n);
      && (forall j :: 0 <= j < |ks| ==> 0 <= ks[j] < n && keep(ks[j]))
      && (forall j, k :: 0 <= j < k < |ks| ==> ks[j] < ks[k])
      && (forall i :: 0 <= i < n && keep(i) ==> i in ks)
    decreases n
  {
    if n > 0 {
      KeptAtAscending(keep, n - 1);
    }
  }

  /** The `j`-th kept element is the element at the `j`-th accepted position. */
  lemma {:induction false} KeptAtPositions<T>(xs: seq<T>, keep: int -> bool, n: nat)
    requires n <= |xs|
    ensures var ks := KeptAt(keep, n);
      |Kept(xs, keep, n)| == |ks| && forall j :: 0 <= j < |ks| ==> (0 <= ks[j] < n && Kept(xs, keep, n)[j] == xs[ks[j]])
    decreases n
  {
    if n > 0 {
      KeptAtPositions(xs, keep, n - 1);
      KeptAtAscending(keep, n - 1);
    }
  }

  /** Every ayah's metadata entry, as it would be written. */
  function Metas(ds: seq<AyahDetail>, ts: seq<(int, int, bool)>, ext: string, audio: Audio): (ms: seq<AyahMetadata>)
    requires |ts| == |ds|
    ensures |ms| == |ds| && forall i :: 0 <= i < |ds| ==> ms[i] == Metadata(ds[i], ts[i], ext, audio)
  {
    seq(|ds|, i requires 0 <= i < |ds| => Metadata(ds[i], ts[i], ext, audio))
  }

  /**
   * The entries of `metadata.json`: ayah `i` has one only if writing its file succeeded
   * (`written(i)`), as a failure is logged and the ayah skipped.
   */
  function Entries(ds: seq<AyahDetail>, ts: seq<(int, int, bool)>, ext: string, audio: Audio,
                   written: int -> bool): seq<AyahMetadata>
    requires |ts| == |ds|
  {
    Kept(Metas(ds, ts, ext, audio), written, |ds|)
  }

  /**
   * Entry `j` is the metadata of the `j`-th written ayah, cut at that ayah's bounds, so
   * the entries follow ayah order and every written ayah has exactly one.
   */
  lemma EntriesOfWritten(ds: seq<AyahDetail>, ts: seq<(int, int, bool)>, ext: string,
                         audio: Audio, written: int -> bool)
    requires |ts| == |ds|
    ensures var ms := Entries(ds, ts, ext, audio, written);
      var ws := KeptAt(written, |ds|);
      |ms| == |ws| && forall j :: 0 <= j < |ws| ==>
        (0 <= ws[j] < |ds| && written(ws[j]) && ms[j] == Metadata(ds[ws[j]], ts[ws[j]], ext, audio))
  {
    KeptAtPositions(Metas(ds, ts, ext, audio), written, |ds|);
    KeptAtAscending(written, |ds|);
  }

  /** Python's `ext.replace('.', '')`: every dot deleted. */
  predicate NotDot(c: char) {
    c != '.'
  }

  lemma {:induction false} ReplaceDeletesDots(s: string)
    ensures Replace(s, ".", "") == Filter(NotDot, s)
    decreases |s|
  {
    if |s| > 0 {
      ReplaceDeletesDots(s[1..]);
      assert s == [s[0]] + s[1..];
      FilterAppend(NotDot, [s[0]], s[1..]);
      assert Filter(NotDot, [s[0]]) == Filter(NotDot, []) + (if NotDot(s[0]) then [s[0]] else "");
      if s[0] == '.' {
        assert StartsWith(s, ".");
      } else {
        assert s[..1] == [s[0]];
        assert !StartsWith(s, ".");
      }
    }
  }

  /**
   * The `audio_format` of an extension such as `.mp3` is the extension without its dot;
   * that of an empty extension is empty.
   */
  lemma AudioFormatOfExt(ext: string)
    requires SuffixExt(ext)
    ensures ext != "" ==> Replace(ext, ".", "") == ext[1..]
    ensures ext == "" ==> Replace(ext, ".", "") == ""
  {
    ReplaceDeletesDots(ext);
    if ext == "" {
      return;
    }
    assert ext == [ext[0]] + ext[1..];
    FilterAppend(NotDot, [ext[0]], ext[1..]);
    assert Filter(NotDot, [ext[0]]) == Filter(NotDot, []) + "";
    FilterAll(NotDot, ext[1..]);
  }

  /** The contents of the archive's `metadata.json`. */
  datatype Archive = Archive(surahNumber: Option<int>, totalAyahs: int, transcription: string,
                             audioFormat: string, ayahs: seq<AyahMetadata>)

  function Texts(ds: seq<AyahDetail>): (ts: seq<string>)
    ensures |ts| == |ds| && forall i :: 0 <= i < |ds| ==> ts[i] == ds[i].textTashkeel
  {
    seq(|ds|, i requires 0 <= i < |ds| => ds[i].textTashkeel)
  }

  /** `_create_zip_with_timestamps`: the metadata written beside the ayah files. */
  function CreateArchive(ds: seq<AyahDetail>, ts: seq<(int, int, bool)>, ext: string, audio: Audio,
                         written: int -> bool): (a: Archive)
    requires |ts| == |ds|
    ensures a.totalAyahs == |ds| >= |a.ayahs|
    ensures a.surahNumber == SurahNumber(ds)
    ensures Split(a.transcription) == SplitAll(Texts(ds))
  {
    SplitJoinAll(Texts(ds));
    Archive(SurahNumber(ds), |ds|, Join(Texts(ds), " "), Replace(ext, ".", ""),
            Entries(ds, ts, ext, audio, written))
  }

  /**
   * `split_audio_by_ayahs` on a loaded recording: the archive and its name, or the
   * error raised when no surah number can be formatted (no ayahs at all).
   */
  function SplitAudioByAyahs(ds: seq<AyahDetail>, ext: string, audio: Audio, written: int -> bool): (r: Result<(Archive, string), string>)
    ensures r.Err? <==> |ds| == 0
    ensures r.Ok? ==> (r.value.0 == CreateArchive(ds, Adjusted(Spans(ds), Some(audio)), ext, audio, written)
      && Some(r.value.1) == ZipName(ds))
  {
    match ZipName(ds)
    case None => Err("unsupported format string passed to NoneType.__format__")
    case Some(name) => Ok((CreateArchive(ds, Adjusted(Spans(ds), Some(audio)), ext, audio, written), name))
  }
}
