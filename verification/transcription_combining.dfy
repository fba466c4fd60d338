/**
 * `TranscriptionCombiningStep`: the cleaned chunk transcriptions, in order, joined
 * into one normalised transcription and one original-text transcription.
 */
module TranscriptionCombining {
  import opened Wrappers
  import opened Text
  import opened DuplicateRemoval

  /** The positions of the non-empty strings of `xs`, in increasing order. */
  function NonEmptyPositions(xs: seq<string>): (idx: seq<nat>)
    ensures forall k :: 0 <= k < |idx| ==> idx[k] < |xs| && |xs[idx[k]]| > 0
    ensures forall a, b :: 0 <= a < b < |idx| ==> idx[a] < idx[b]
    ensures forall i :: 0 <= i < |xs| && |xs[i]| > 0 ==> i in idx
    decreases |xs|
  {
    if |xs| == 0 then []
    else NonEmptyPositions(xs[..|xs| - 1]) + (if |xs[|xs| - 1]| > 0 then [|xs| - 1] else [])
  }

  /** The non-empty strings of `xs`, in order (the comprehension's `if t.get(...)` filter). */
  function NonEmpty(xs: seq<string>): (ys: seq<string>)
    ensures |ys| <= |xs|
    ensures forall i :: 0 <= i < |ys| ==> |ys[i]| > 0
    decreases |xs|
  {
    if |xs| == 0 then []
    else NonEmpty(xs[..|xs| - 1]) + (if |xs[|xs| - 1]| > 0 then [xs[|xs| - 1]] else [])
  }

  /** Entry `k` of the filtered list is the input entry at the `k`-th non-empty position. */
  lemma {:induction false} NonEmptyInOrder(xs: seq<string>)
    ensures |NonEmpty(xs)| == |NonEmptyPositions(xs)|
    ensures forall k :: 0 <= k < |NonEmpty(xs)| ==> NonEmpty(xs)[k] == xs[NonEmptyPositions(xs)[k]]
    decreases |xs|
  {
    if |xs| > 0 {
      var init, x := xs[..|xs| - 1], xs[|xs| - 1];
      NonEmptyInOrder(init);
      var ys, idx := NonEmpty(init), NonEmptyPositions(init);
      assert NonEmpty(xs) == ys + if |x| > 0 then [x] else [];
      assert NonEmptyPositions(xs) == idx + if |x| > 0 then [|xs| - 1] else [];
      forall k | 0 <= k < |ys|
        ensures NonEmpty(xs)[k] == xs[NonEmptyPositions(xs)[k]]
      {
        assert NonEmpty(xs)[k] == ys[k] == init[idx[k]] == xs[idx[k]];
      }
    }
  }

  function Normalized(ts: seq<Transcription>): (xs: seq<string>)
    ensures |xs| == |ts| && forall i :: 0 <= i < |ts| ==> xs[i] == ts[i].normalizedText
  {
    seq(|ts|, i requires 0 <= i < |ts| => ts[i].normalizedText)
  }

  function Texts(ts: seq<Transcription>): (xs: seq<string>)
    ensures |xs| == |ts| && forall i :: 0 <= i < |ts| ==> xs[i] == ts[i].text
  {
    seq(|ts|, i requires 0 <= i < |ts| => ts[i].text)
  }

  /** The step's two outputs. */
  datatype Combined = Combined(normalized: string, finalTranscription: string)

  /**
   * `TranscriptionCombiningStep.process`: the non-empty normalised texts, and separately
   * the non-empty original texts, joined by single spaces in input order.
   */
  function Combine(ts: seq<Transcription>): (r: Combined)
    ensures Split(r.normalized) == SplitAll(Normalized(ts))
    ensures Split(r.finalTranscription) == SplitAll(Texts(ts))
  {
    CombineWords(Normalized(ts));
    CombineWords(Texts(ts));
    Combined(Join(NonEmpty(Normalized(ts)), " "), Join(NonEmpty(Texts(ts)), " "))
  }

  /** `validate_input`: the cleaned list must be present and non-empty. */
  function ValidateInput(cleaned: Option<seq<Transcription>>): (ok: bool)
    ensures ok <==> cleaned.Some? && |cleaned.value| > 0
  {
    cleaned.Some? && |cleaned.value| > 0
  }

  // ---------------------------------------------------------------------------

  /** Empty strings contribute no words. */
  lemma {:induction false} SplitAllNonEmpty(xs: seq<string>)
    ensures SplitAll(NonEmpty(xs)) == SplitAll(xs)
    decreases |xs|
  {
    if |xs| > 0 {
      var init := xs[..|xs| - 1];
      var x := xs[|xs| - 1];
      SplitAllNonEmpty(init);
      if |x| > 0 {
        var ys := NonEmpty(init) + [x];
        assert ys[..|ys| - 1] == NonEmpty(init);
      } else {
        assert NonEmpty(xs) == NonEmpty(init);
        assert Split(x) == [];
        assert SplitAll(xs) == SplitAll(init) + [];
      }
    }
  }

  /** The combined words are the entries' words, in order. */
  lemma CombineWords(xs: seq<string>)
    ensures Split(Join(NonEmpty(xs), " ")) == SplitAll(xs)
  {
    SplitJoinAll(NonEmpty(xs));
    SplitAllNonEmpty(xs);
  }

  /** The total number of words of the strings. */
  function SumWords(xs: seq<string>): nat
    decreases |xs|
  {
    if |xs| == 0 then 0 else SumWords(xs[..|xs| - 1]) + |Split(xs[|xs| - 1])|
  }

  lemma {:induction false} SplitAllCount(xs: seq<string>)
    ensures |SplitAll(xs)| == SumWords(xs)
    decreases |xs|
  {
    if |xs| > 0 {
      SplitAllCount(xs[..|xs| - 1]);
    }
  }

  /** The combined word count is the sum of the entries' word counts. */
  lemma CombinedWordCount(ts: seq<Transcription>)
    ensures |Split(Combine(ts).normalized)| == SumWords(Normalized(ts))
  {
    SplitAllCount(Normalized(ts));
  }

  /** Single-spacing canonical, non-empty strings re-spaces their words. */
  lemma {:induction false} JoinCanonical(xs: seq<string>)
    requires forall i :: 0 <= i < |xs| ==> |xs[i]| > 0 && Canonical(xs[i])
    ensures Join(xs, " ") == Join(SplitAll(xs), " ")
    ensures |xs| > 0 ==> |SplitAll(xs)| > 0
    decreases |xs|
  {
    if |xs| == 1 {
      assert xs[..0] == [];
      assert SplitAll(xs) == Split(xs[0]);
    } else if |xs| > 1 {
      var init := xs[..|xs| - 1];
      var x := xs[|xs| - 1];
      JoinCanonical(init);
      assert |Split(x)| > 0;
      JoinAppend(SplitAll(init), Split(x));
    }
  }

  /**
   * When every entry is whitespace-canonical, so is the combination: empty entries
   * add no separator and no doubled spaces appear.
   */
  lemma CombineCanonical(ts: seq<Transcription>)
    requires forall i :: 0 <= i < |ts| ==> Canonical(ts[i].normalizedText)
    ensures Canonical(Combine(ts).normalized)
  {
    var ys := NonEmpty(Normalized(ts));
    NonEmptyCanonical(Normalized(ts));
    JoinCanonical(ys);
    SplitJoinAll(ys);
  }

  lemma {:induction false} NonEmptyCanonical(xs: seq<string>)
    requires forall i :: 0 <= i < |xs| ==> Canonical(xs[i])
    ensures forall i :: 0 <= i < |NonEmpty(xs)| ==> Canonical(NonEmpty(xs)[i])
    decreases |xs|
  {
    if |xs| > 0 {
      NonEmptyCanonical(xs[..|xs| - 1]);
    }
  }
}
