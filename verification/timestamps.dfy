/**
 * `_parse_timestamp`, shared word for word by both audio splitters: an
 * `HH:MM:SS.mmm` string to whole milliseconds, with 0 for anything it cannot read.
 */
module Timestamps {
  import opened Wrappers
  import opened Text
  import opened Numbers

  /**
   * The four integer fields of `H:M:S.f`, or `None` where the source raises: the text
   * must split on '.' into exactly two parts, the first on ':' into exactly three,
   * and all four must be integers.
   */
  function TimestampFields(ts: string): (r: Option<(int, int, int, int)>)
    ensures r.Some? ==> |SplitOn(ts, '.')| == 2
  {
    var halves := SplitOn(ts, '.');
    if |halves| != 2 then None
    else
      var hms := SplitOn(halves[0], ':');
      if |hms| != 3 then None
      else
        match (ParseInt(hms[0]), ParseInt(hms[1]), ParseInt(hms[2]), ParseInt(halves[1]))
        case (Some(h), Some(m), Some(s), Some(f)) => Some((h, m, s, f))
        case _ => None
  }

  /** Milliseconds from `HH:MM:SS.mmm`; every malformed input yields 0. */
  function ParseTimestamp(ts: string): (ms: int)
    ensures TimestampFields(ts).None? ==> ms == 0
  {
    match TimestampFields(ts)
    case None => 0
    case Some((h, m, s, f)) => (h * 3600 + m * 60 + s) * 1000 + f
  }

  /** A timestamp without a '.' (or with two) is malformed and reads as 0. */
  lemma ParseWithoutDot(ts: string)
    requires forall i :: 0 <= i < |ts| ==> ts[i] != '.'
    ensures ParseTimestamp(ts) == 0
  {
    SplitOnNone(ts, '.');
  }
}
