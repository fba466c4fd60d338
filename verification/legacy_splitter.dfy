/**
 * The original `AudioSplitter` (`app/audio_splitter.py`): every gap between two
 * ayahs is split in the middle and nothing else moves; the archive's metadata holds
 * the ayah text and file name only.
 */
module LegacySplitter {
  import opened Wrappers
  import opened AyahFiles
  import AudioSplitter

  /** Ayah `i`'s adjusted start: the middle of a positive gap before it, else its own start. */
  function LegacyStart(sp: seq<(int, int)>, i: int): int
    requires 0 <= i < |sp|
  {
    if i > 0 && sp[i].0 - sp[i - 1].1 > 0 then sp[i - 1].1 + (sp[i].0 - sp[i - 1].1) / 2
    else sp[i].0
  }

  /** Ayah `i`'s adjusted end: the middle of a positive gap after it, else its own end. */
  function LegacyEnd(sp: seq<(int, int)>, i: int): int
    requires 0 <= i < |sp|
  {
    if i < |sp| - 1 && sp[i + 1].0 - sp[i].1 > 0 then sp[i].1 + (sp[i + 1].0 - sp[i].1) / 2
    else sp[i].1
  }

  /**
   * `_calculate_adjusted_timestamps`: one (start, end) pair per ayah, each computed
   * from the original bounds of the ayah and of its neighbours.
   */
  method CalculateAdjustedTimestamps(sp: seq<(int, int)>) returns (ts: seq<(int, int)>)
    ensures |ts| == |sp|
    ensures forall i :: 0 <= i < |sp| ==> ts[i] == (LegacyStart(sp, i), LegacyEnd(sp, i))
  {
    ts := [];
    var idx := 0;
    while idx < |sp|
      invariant 0 <= idx <= |sp| && |ts| == idx
      invariant forall i :: 0 <= i < idx ==> ts[i] == (LegacyStart(sp, i), LegacyEnd(sp, i))
    {
      var startTime := sp[idx].0;
      var endTime := sp[idx].1;
      var adjustedStart;
      if idx > 0 {
        var prevEnd := sp[idx - 1].1;
        var gap := startTime - prevEnd;
        if gap > 0 {
          adjustedStart := prevEnd + gap / 2;
        } else {
          adjustedStart := startTime;
        }
      } else {
        adjustedStart := startTime;
      }
      var adjustedEnd;
      if idx < |sp| - 1 {
        var nextStart := sp[idx + 1].0;
        var gap := nextStart - endTime;
        if gap > 0 {
          adjustedEnd := endTime + gap / 2;
        } else {
          adjustedEnd := endTime;
        }
      } else {
        adjustedEnd := endTime;
      }
      ts := ts + [(adjustedStart, adjustedEnd)];
      idx := idx + 1;
    }
  }

  /**
   * No ayah loses audio: each adjusted segment contains the original one, and where
   * the ayahs do not overlap, consecutive segments meet inside the gap.
   */
  lemma LegacyCovers(sp: seq<(int, int)>, i: int)
    requires 0 <= i < |sp|
    ensures LegacyStart(sp, i) <= sp[i].0 && sp[i].1 <= LegacyEnd(sp, i)
    ensures i > 0 && sp[i].0 - sp[i - 1].1 >= 0 ==>
      sp[i - 1].1 <= LegacyEnd(sp, i - 1) == LegacyStart(sp, i) <= sp[i].0
  {
  }

  /** Overlapping ayahs keep their original bounds at the overlap. */
  lemma LegacyOverlapKept(sp: seq<(int, int)>, i: int)
    requires 0 < i < |sp| && sp[i].0 - sp[i - 1].1 < 0
    ensures LegacyEnd(sp, i - 1) == sp[i - 1].1 && LegacyStart(sp, i) == sp[i].0
  {
  }

  /**
   * The silence-aware splitter without audio is the original one: the same bounds
   * and no ayah flagged.
   */
  lemma LegacyIsSilenceFree(sp: seq<(int, int)>, i: int)
    requires 0 <= i < |sp|
    ensures AudioSplitter.AdjustedStart(sp, i, None) == LegacyStart(sp, i)
    ensures AudioSplitter.AdjustedEnd(sp, i, None) == LegacyEnd(sp, i)
    ensures !AudioSplitter.Uncertain(sp, i, None)
  {
  }

  /**
   * Where no two ayahs meet exactly, the silence search is never made and both
   * splitters cut the same bounds, with or without audio.
   */
  lemma LegacyWithoutTouchingAyahs(sp: seq<(int, int)>, audio: Option<AudioSplitter.Audio>, i: int)
    requires 0 <= i < |sp|
    requires forall k :: 0 < k < |sp| ==> sp[k].0 != sp[k - 1].1
    ensures AudioSplitter.AdjustedStart(sp, i, audio) == LegacyStart(sp, i)
    ensures AudioSplitter.AdjustedEnd(sp, i, audio) == LegacyEnd(sp, i)
    ensures !AudioSplitter.Uncertain(sp, i, audio)
  {
    if i > 0 {
      assert sp[i].0 != sp[i - 1].1;
    }
    if i < |sp| - 1 {
      assert sp[i + 1].0 != sp[i].1;
    }
  }

  /**
   * One entry of the original `metadata.json`; `durationMs` is the length of the cut
   * segment, which the source writes in seconds as `duration_seconds`.
   */
  datatype LegacyEntry = LegacyEntry(surahNumber: int, ayahNumber: int, ayahText: string,
                                     fileName: string, isBasmala: bool, durationMs: nat)

  /** The original `metadata.json`. */
  datatype LegacyArchive = LegacyArchive(surahNumber: Option<int>, totalAyahs: int,
                                         audioFormat: string, ayahs: seq<LegacyEntry>)

  /** The adjusted (start, end) pair of every ayah, as `CalculateAdjustedTimestamps` computes them. */
  function LegacyAdjusted(sp: seq<(int, int)>): (ts: seq<(int, int)>)
    ensures |ts| == |sp| && forall i :: 0 <= i < |sp| ==> ts[i] == (LegacyStart(sp, i), LegacyEnd(sp, i))
  {
    seq(|sp|, i requires 0 <= i < |sp| => (LegacyStart(sp, i), LegacyEnd(sp, i)))
  }

  /** The entry of one ayah cut at `t = (start, end)` from `audio`. */
  function Entry(d: AyahDetail, t: (int, int), ext: string, audio: AudioSplitter.Audio): (e: LegacyEntry)
    ensures e.fileName == FileName(d, ext) && e.ayahText == d.textTashkeel
    ensures e.ayahNumber == (if d.isBasmala then 0 else d.ayahNumber)
    ensures e.durationMs == audio.sliceLen(t.0, t.1)
  {
    LegacyEntry(d.surahNumber, MetadataAyah(d), d.textTashkeel, FileName(d, ext), d.isBasmala,
                audio.sliceLen(t.0, t.1))
  }

  function LegacyEntries(ds: seq<AyahDetail>, ts: seq<(int, int)>, ext: string,
                         audio: AudioSplitter.Audio): (es: seq<LegacyEntry>)
    requires |ts| == |ds|
    ensures |es| == |ds| && forall i :: 0 <= i < |ds| ==> es[i] == Entry(ds[i], ts[i], ext, audio)
  {
    seq(|ds|, i requires 0 <= i < |ds| => Entry(ds[i], ts[i], ext, audio))
  }

  /**
   * `split_audio_by_ayahs` on a loaded recording: the archive's metadata, with an entry
   * for each ayah whose file was written (`written(i)`), each cut at the ayah's adjusted
   * bounds, and the archive's name; the error raised when no surah number can be
   * formatted (no ayahs at all).
   */
  function SplitAudioByAyahs(ds: seq<AyahDetail>, ext: string, audio: AudioSplitter.Audio,
                             written: int -> bool): (r: Result<(LegacyArchive, string), string>)
    ensures r.Err? <==> |ds| == 0
    ensures r.Ok? ==> (r.value.0.totalAyahs == |ds| >= |r.value.0.ayahs|
      && r.value.0.surahNumber == SurahNumber(ds) && Some(r.value.1) == ZipName(ds))
  {
    var ts := LegacyAdjusted(AudioSplitter.Spans(ds));
    var archive := LegacyArchive(SurahNumber(ds), |ds|, Text.Replace(ext, ".", ""),
                                 AudioSplitter.Kept(LegacyEntries(ds, ts, ext, audio), written, |ds|));
    match ZipName(ds)
    case None => Err("unsupported format string passed to NoneType.__format__")
    case Some(name) => Ok((archive, name))
  }

  /**
   * Both splitters list the same ayahs under the same numbers and file names: entry
   * `j` of the original metadata describes the same file as entry `j` of the
   * silence-aware one, and where both cut every ayah at the same bounds the two
   * entries report the same duration.
   */
  lemma SameFilesAsSilenceAware(ds: seq<AyahDetail>, lts: seq<(int, int)>, ts: seq<(int, int, bool)>,
                                ext: string, audio: AudioSplitter.Audio, written: int -> bool)
    requires |lts| == |ds| && |ts| == |ds|
    ensures var plain := AudioSplitter.Kept(LegacyEntries(ds, lts, ext, audio), written, |ds|);
      var rich := AudioSplitter.Entries(ds, ts, ext, audio, written);
      && |plain| == |rich|
      && (forall j :: 0 <= j < |plain| ==>
            (plain[j].fileName == rich[j].fileName && plain[j].ayahNumber == rich[j].ayahNumber
              && plain[j].surahNumber == rich[j].surahNumber && plain[j].isBasmala == rich[j].isBasmala
              && plain[j].ayahText == rich[j].textTashkeel))
      && ((forall k :: 0 <= k < |ds| ==> lts[k] == (ts[k].0, ts[k].1)) ==>
            forall j :: 0 <= j < |plain| ==> plain[j].durationMs == rich[j].durationMs)
  {
    AudioSplitter.KeptAtPositions(LegacyEntries(ds, lts, ext, audio), written, |ds|);
    AudioSplitter.EntriesOfWritten(ds, ts, ext, audio, written);
  }

  /**
   * Where no two ayahs touch, both splitters write the same files with the same
   * durations: the silence search is never made, so both cut the same bounds.
   */
  lemma SameDurationsWithoutTouchingAyahs(ds: seq<AyahDetail>, ext: string, audio: AudioSplitter.Audio,
                                          written: int -> bool)
    requires var sp := AudioSplitter.Spans(ds); forall k :: 0 < k < |sp| ==> sp[k].0 != sp[k - 1].1
    ensures var plain := SplitAudioByAyahs(ds, ext, audio, written);
      var rich := AudioSplitter.SplitAudioByAyahs(ds, ext, audio, written);
      plain.Ok? <==> rich.Ok?
    ensures var plain := SplitAudioByAyahs(ds, ext, audio, written);
      var rich := AudioSplitter.SplitAudioByAyahs(ds, ext, audio, written);
      plain.Ok? && rich.Ok? ==>
        && plain.value.1 == rich.value.1
        && |plain.value.0.ayahs| == |rich.value.0.ayahs|
        && forall j :: 0 <= j < |plain.value.0.ayahs| ==>
             && plain.value.0.ayahs[j].fileName == rich.value.0.ayahs[j].fileName
             && plain.value.0.ayahs[j].durationMs == rich.value.0.ayahs[j].durationMs
  {
    var sp := AudioSplitter.Spans(ds);
    var lts := LegacyAdjusted(sp);
    var ts := AudioSplitter.Adjusted(sp, Some(audio));
    forall k | 0 <= k < |ds| ensures lts[k] == (ts[k].0, ts[k].1) {
      LegacyWithoutTouchingAyahs(sp, Some(audio), k);
    }
    SameFilesAsSilenceAware(ds, lts, ts, ext, audio, written);
  }
}
