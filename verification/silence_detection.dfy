/**
 * The range-to-chunk conversion of `SilenceDetectionStep.process`: the detector's
 * non-silent ranges (in milliseconds) become padded, clamped audio chunks; chunks
 * shorter than a tenth of a second are dropped.
 */
module SilenceDetection {
  import opened Wrappers

  /**
   * An audio chunk: its times in seconds, its duration, and its position in the
   * detector output. The samples themselves are `audio[startTime*sr : endTime*sr]`.
   */
  datatype Chunk = Chunk(startTime: real, endTime: real, duration: real, chunkIndex: int)

  function Max(a: int, b: int): int {
    if a < b then b else a
  }

  function Min(a: int, b: int): int {
    if a < b then a else b
  }

  /** Python's `int(a / b)` for a positive `b`: the quotient truncated towards zero. */
  function TruncDiv(a: int, b: int): (q: int)
    requires b > 0
    ensures a >= 0 ==> q >= 0 && q * b <= a < (q + 1) * b
    ensures a < 0 ==> q <= 0 && (q - 1) * b < a <= q * b
  {
    if a >= 0 then
      QuotientBounds(a, b);
      a / b
    else
      QuotientBounds(-a, b);
      -((-a) / b)
  }

  /** Euclidean division of a natural number brackets it between consecutive multiples. */
  lemma QuotientBounds(n: int, b: int)
    requires n >= 0 && b > 0
    ensures n / b >= 0 && (n / b) * b <= n < (n / b + 1) * b
  {
    var q, m := n / b, n % b;
    assert n == q * b + m && 0 <= m < b;
    assert (q + 1) * b == q * b + b;
  }

  /** Where a slice bound `i` lands in a sequence of length `n` (negative counts from the end). */
  function SliceBound(i: int, n: nat): (j: nat)
    ensures j <= n
    ensures 0 <= i <= n ==> j == i
  {
    if i < 0 then Max(0, i + n) else Min(i, n)
  }

  /** `len(a[lo:hi])` for a sequence of length `n`. */
  function SliceLen(n: nat, lo: int, hi: int): (len: nat)
    ensures len <= n
    ensures 0 <= lo <= hi <= n ==> len == hi - lo
  {
    Max(0, SliceBound(hi, n) - SliceBound(lo, n))
  }

  /**
   * The chunk made from range number `idx`: widened by `keep` ms on each side, clamped
   * to `[0, lenMs]`, converted to sample bounds with truncation, and kept only if it
   * holds at least `0.1 * sr` samples.
   */
  function RangeChunk(range: (int, int), idx: int, lenMs: int, n: nat, sr: int, keep: int): (r: Option<Chunk>)
    requires sr > 0
    ensures r.Some? ==> r.value.chunkIndex == idx
    ensures r.Some? ==> r.value.startTime >= 0.0
    ensures r.Some? && lenMs >= 0 ==> r.value.endTime <= (lenMs as real) / 1000.0
    ensures r.Some? ==> r.value.duration >= 0.1
    ensures r.Some? ==> r.value.duration <= (n as real) / (sr as real)
  {
    var startMs := Max(0, range.0 - keep);
    var endMs := Min(lenMs, range.1 + keep);
    var startSample := TruncDiv(startMs * sr, 1000);
    var endSample := TruncDiv(endMs * sr, 1000);
    var len := SliceLen(n, startSample, endSample);
    if (len as real) >= (sr as real) * 0.1 then
      DivideBounds(len, n, sr);
      StartBound(startMs, sr);
      EndBound(endMs, lenMs, sr);
      Some(Chunk((startSample as real) / (sr as real), (endSample as real) / (sr as real),
                 (len as real) / (sr as real), idx))
    else None
  }

  lemma DivideBounds(len: nat, n: nat, sr: int)
    requires sr > 0 && len <= n && (len as real) >= (sr as real) * 0.1
    ensures (len as real) / (sr as real) >= 0.1
    ensures (len as real) / (sr as real) <= (n as real) / (sr as real)
  {
  }

  /** A clamped start is never negative, so neither is the start time. */
  lemma StartBound(startMs: int, sr: int)
    requires sr > 0 && startMs >= 0
    ensures (TruncDiv(startMs * sr, 1000) as real) / (sr as real) >= 0.0
  {
  }

  /** A clamped end never lies past the audio: `end_sample / sr <= len_ms / 1000`. */
  lemma EndBound(endMs: int, lenMs: int, sr: int)
    requires sr > 0 && endMs <= lenMs
    ensures lenMs >= 0 ==> (TruncDiv(endMs * sr, 1000) as real) / (sr as real) <= (lenMs as real) / 1000.0
  {
    var es := TruncDiv(endMs * sr, 1000);
    if lenMs >= 0 {
      assert endMs * sr <= lenMs * sr;
      assert es * 1000 <= lenMs * sr;
      var x := (es as real) / (sr as real);
      assert x * (sr as real) == es as real;
      assert (es as real) * 1000.0 <= (lenMs as real) * (sr as real);
      assert x * (sr as real) * 1000.0 <= (lenMs as real) * (sr as real);
      assert x * 1000.0 <= lenMs as real;
    }
  }

  /** Every range's chunk, or `None` where the range is dropped. */
  function Candidates(ranges: seq<(int, int)>, lenMs: int, n: nat, sr: int, keep: int): (os: seq<Option<Chunk>>)
    requires sr > 0
    ensures |os| == |ranges|
    ensures forall i :: 0 <= i < |ranges| ==> os[i] == RangeChunk(ranges[i], i, lenMs, n, sr, keep)
    ensures forall i :: 0 <= i < |os| && os[i].Some? ==> os[i].value.chunkIndex == i
  {
    seq(|ranges|, i requires 0 <= i < |ranges| => RangeChunk(ranges[i], i, lenMs, n, sr, keep))
  }

  /** The present chunks, in order. */
  function Present(os: seq<Option<Chunk>>): (cs: seq<Chunk>)
    requires forall i :: 0 <= i < |os| && os[i].Some? ==> os[i].value.chunkIndex == i
    ensures |cs| <= |os|
    ensures forall j :: 0 <= j < |cs| ==> 0 <= cs[j].chunkIndex < |os| && os[cs[j].chunkIndex] == Some(cs[j])
    ensures forall i, j :: 0 <= i < j < |cs| ==> cs[i].chunkIndex < cs[j].chunkIndex
    ensures forall i :: 0 <= i < |os| && os[i].Some? ==> exists j :: 0 <= j < |cs| && cs[j].chunkIndex == i
    decreases |os|
  {
    if |os| == 0 then []
    else
      var init := os[..|os| - 1];
      assert forall i :: 0 <= i < |init| ==> init[i] == os[i];
      var prev := Present(init);
      match os[|os| - 1]
      case Some(c) =>
        var cs := prev + [c];
        assert cs[|prev|].chunkIndex == |os| - 1;
        assert forall j :: 0 <= j < |prev| ==> cs[j] == prev[j];
        cs
      case None => prev
  }

  /**
   * `process`: no non-silent range gives one chunk spanning the whole audio; otherwise
   * one chunk per range that is long enough, indexed by the range's position.
   */
  function DetectChunks(ranges: seq<(int, int)>, lenMs: int, n: nat, sr: int, keep: int): (cs: seq<Chunk>)
    requires sr > 0
    ensures |ranges| == 0 ==> cs == [Chunk(0.0, (n as real) / (sr as real), (n as real) / (sr as real), 0)]
    ensures |ranges| > 0 ==> |cs| <= |ranges|
    ensures |ranges| > 0 ==> forall i, j :: 0 <= i < j < |cs| ==> cs[i].chunkIndex < cs[j].chunkIndex
  {
    if |ranges| == 0 then [Chunk(0.0, (n as real) / (sr as real), (n as real) / (sr as real), 0)]
    else Present(Candidates(ranges, lenMs, n, sr, keep))
  }

  /** `validate_input`: audio must be present. */
  function ValidateInput(audio: Option<seq<real>>): (ok: bool)
    ensures ok <==> audio.Some?
  {
    audio.Some?
  }

  // ---------------------------------------------------------------------------

  /**
   * The output is exactly the long-enough ranges' chunks: a range yields a chunk iff
   * its padded slice holds at least `0.1 * sr` samples, in range order, so indices
   * skip over dropped ranges.
   */
  lemma DetectChunksExact(ranges: seq<(int, int)>, lenMs: int, n: nat, sr: int, keep: int, i: int)
    requires sr > 0 && 0 <= i < |ranges|
    ensures var cs := DetectChunks(ranges, lenMs, n, sr, keep);
      (exists j :: 0 <= j < |cs| && cs[j].chunkIndex == i) <==> RangeChunk(ranges[i], i, lenMs, n, sr, keep).Some?
  {
    var os := Candidates(ranges, lenMs, n, sr, keep);
    var cs := DetectChunks(ranges, lenMs, n, sr, keep);
    if exists j :: 0 <= j < |cs| && cs[j].chunkIndex == i {
      var j :| 0 <= j < |cs| && cs[j].chunkIndex == i;
      assert os[i] == Some(cs[j]);
    }
  }

  /** Each kept chunk is the chunk of the range at its index. */
  lemma DetectChunksSource(ranges: seq<(int, int)>, lenMs: int, n: nat, sr: int, keep: int, j: int)
    requires sr > 0 && |ranges| > 0
    requires 0 <= j < |DetectChunks(ranges, lenMs, n, sr, keep)|
    ensures var c := DetectChunks(ranges, lenMs, n, sr, keep)[j];
      0 <= c.chunkIndex < |ranges| && RangeChunk(ranges[c.chunkIndex], c.chunkIndex, lenMs, n, sr, keep) == Some(c)
  {
  }

  /**
   * When the sample bounds fall inside the audio, a chunk's duration is its end time
   * minus its start time.
   */
  lemma DurationIsSpan(range: (int, int), idx: int, lenMs: int, n: nat, sr: int, keep: int)
    requires sr > 0
    requires RangeChunk(range, idx, lenMs, n, sr, keep).Some?
    requires var startMs := Max(0, range.0 - keep);
      var endMs := Min(lenMs, range.1 + keep);
      TruncDiv(startMs * sr, 1000) <= TruncDiv(endMs * sr, 1000) <= n
    ensures var c := RangeChunk(range, idx, lenMs, n, sr, keep).value;
      c.duration == c.endTime - c.startTime
  {
    var startMs := Max(0, range.0 - keep);
    var endMs := Min(lenMs, range.1 + keep);
    var ss := TruncDiv(startMs * sr, 1000);
    var es := TruncDiv(endMs * sr, 1000);
    assert ss >= 0;
    SpanQuotient(ss, es, n, sr);
  }

  lemma SpanQuotient(ss: int, es: int, n: nat, sr: int)
    requires sr > 0 && 0 <= ss <= es <= n
    ensures (SliceLen(n, ss, es) as real) / (sr as real) == (es as real) / (sr as real) - (ss as real) / (sr as real)
  {
    assert SliceLen(n, ss, es) == es - ss;
  }
}
