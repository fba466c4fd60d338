/**
 * `DuplicateRemovalStep`: consecutive chunks were cut with overlapping audio, so the
 * words that end one transcription may open the next. The step removes, from each
 * transcription, the longest run of leading words that repeats the end of the
 * previous one, then drops a trailing closing-phrase chunk.
 */
module DuplicateRemoval {
  import opened Text

  /** One chunk's transcription: the original text, its normalised form and its word count. */
  datatype Transcription = Transcription(chunkIndex: int, text: string, normalizedText: string, wordCount: int)

  /** The last `k` words of `p` are the first `k` words of `c`. */
  predicate Overlaps(p: seq<string>, c: seq<string>, k: int) {
    1 <= k <= |p| && k <= |c| && p[|p| - k..] == c[..k]
  }

  function Min(a: int, b: int): int {
    if a < b then a else b
  }

  /** The largest overlap of at most `j` words, or 0. */
  function OverlapUpTo(p: seq<string>, c: seq<string>, j: nat): (k: nat)
    ensures k <= j
    ensures k == 0 || Overlaps(p, c, k)
    ensures forall i :: k < i <= j ==> !Overlaps(p, c, i)
  {
    if j == 0 then 0
    else if Overlaps(p, c, j) then j
    else OverlapUpTo(p, c, j - 1)
  }

  /**
   * The longest suffix of `p` that is a prefix of `c`, in words: the largest
   * `k <= min(|p|, |c|)` with an overlap, 0 if there is none.
   */
  function Overlap(p: seq<string>, c: seq<string>): (k: nat)
    ensures k <= |p| && k <= |c|
    ensures k == 0 || Overlaps(p, c, k)
    ensures forall i :: k < i ==> !Overlaps(p, c, i)
  {
    OverlapUpTo(p, c, Min(|p|, |c|))
  }

  /**
   * The source's search: every overlap length from 1 to `min(|p|, |c|)` is tried
   * in ascending order and the last one that matches is kept.
   */
  method BoundaryOverlap(p: seq<string>, c: seq<string>) returns (k: nat)
    ensures k == Overlap(p, c)
  {
    var maxOverlap := Min(|p|, |c|);
    k := 0;
    var j := 1;
    while j <= maxOverlap
      invariant 1 <= j <= maxOverlap + 1
      invariant k < j
      invariant k == 0 || Overlaps(p, c, k)
      invariant forall i :: k < i < j ==> !Overlaps(p, c, i)
    {
      if p[|p| - j..] == c[..j] {
        k := j;
      }
      j := j + 1;
    }
  }

  /** The number of leading words removed from `cur`, given the entry before it. */
  function Removed(prev: Transcription, cur: Transcription): (k: nat)
    ensures k <= |Split(cur.normalizedText)|
    ensures k > 0 ==> Overlaps(Split(prev.normalizedText), Split(cur.normalizedText), k)
    ensures forall i :: k < i ==> !Overlaps(Split(prev.normalizedText), Split(cur.normalizedText), i)
  {
    if |cur.normalizedText| == 0 || |prev.normalizedText| == 0 then 0
    else
      var cw := Split(cur.normalizedText);
      var pw := Split(prev.normalizedText);
      if |cw| == 0 || |pw| == 0 then 0 else Overlap(pw, cw)
  }

  /**
   * The cleaned copy of `cur`: with `k` repeated words, the normalised text becomes the
   * remaining words single-spaced, the word count their number, and the original text
   * loses its first `k` words if it has that many.
   */
  function Clean(prev: Transcription, cur: Transcription): (r: Transcription)
    ensures r.chunkIndex == cur.chunkIndex
    ensures Removed(prev, cur) == 0 ==> r == cur
    ensures Removed(prev, cur) > 0 ==>
      var k := Removed(prev, cur);
      && Split(r.normalizedText) == Split(cur.normalizedText)[k..]
      && Canonical(r.normalizedText)
      && r.wordCount == |Split(cur.normalizedText)| - k
      && (|Split(cur.text)| >= k ==> Split(r.text) == Split(cur.text)[k..])
      && (|Split(cur.text)| < k ==> r.text == cur.text)
  {
    var k := Removed(prev, cur);
    if k == 0 then cur
    else
      var cw := Split(cur.normalizedText);
      var ow := Split(cur.text);
      var rest := cw[k..];
      SplitJoinSuffix(cw, k);
      SplitJoinSuffix(ow, Min(k, |ow|));
      JoinSplitCanonical(Join(rest, " "));
      cur.(normalizedText := Join(rest, " "),
           text := if |ow| >= k then Join(ow[k..], " ") else cur.text,
           wordCount := |rest|)
  }

  /** The words from position `k` on, single-spaced, split back into themselves. */
  lemma SplitJoinSuffix(ws: seq<string>, k: nat)
    requires AllWords(ws) && k <= |ws|
    ensures Split(Join(ws[k..], " ")) == ws[k..]
  {
    assert AllWords(ws[k..]);
    SplitJoin(ws[k..]);
  }

  /** "صدق الله العظيم", the closing phrase a recitation may end with. */
  const Closing: string :=
    "\U{0635}\U{062F}\U{0642} \U{0627}\U{0644}\U{0644}\U{0647} \U{0627}\U{0644}\U{0639}\U{0638}\U{064A}\U{0645}"

  /** Every entry cleaned against its predecessor in the input; the first is copied as is. */
  function CleanAll(ts: seq<Transcription>): (cs: seq<Transcription>)
    ensures |cs| == |ts|
    ensures |ts| > 0 ==> cs[0] == ts[0]
    ensures forall i :: 0 < i < |ts| ==> cs[i] == Clean(ts[i - 1], ts[i])
  {
    seq(|ts|, i requires 0 <= i < |ts| => if i == 0 then ts[0] else Clean(ts[i - 1], ts[i]))
  }

  /** `DuplicateRemovalStep.process`: clean every entry, then drop a closing-phrase last entry. */
  function RemoveDuplicates(ts: seq<Transcription>): (r: seq<Transcription>)
    ensures |r| == |ts| || |r| == |ts| - 1
    ensures r == CleanAll(ts)[..|r|]
    ensures |r| == |ts| - 1 <==> |ts| > 0 && Strip(CleanAll(ts)[|ts| - 1].normalizedText) == Closing
  {
    var cs := CleanAll(ts);
    if |cs| > 0 && Strip(cs[|cs| - 1].normalizedText) == Closing then cs[..|cs| - 1] else cs
  }

  /** `validate_input`: there must be at least one transcription. */
  function ValidateInput(ts: seq<Transcription>): (ok: bool)
    ensures ok <==> |ts| > 0
  {
    |ts| > 0
  }

  // ---------------------------------------------------------------------------

  /** The first transcription always survives unchanged, unless it alone is the closing phrase. */
  lemma FirstUnchanged(ts: seq<Transcription>)
    requires |ts| > 1 || (|ts| == 1 && Strip(ts[0].normalizedText) != Closing)
    ensures |RemoveDuplicates(ts)| > 0 && RemoveDuplicates(ts)[0] == ts[0]
  {
  }

  /** An entry whose own or previous normalised text has no words is passed through. */
  lemma NoWordsUnchanged(prev: Transcription, cur: Transcription)
    requires |Split(cur.normalizedText)| == 0 || |Split(prev.normalizedText)| == 0
    ensures Clean(prev, cur) == cur
  {
  }

  /** The cleaned words are the input words after the removed ones: always a suffix. */
  lemma CleanedSuffix(prev: Transcription, cur: Transcription)
    ensures Split(Clean(prev, cur).normalizedText) == Split(cur.normalizedText)[Removed(prev, cur)..]
  {
    var w := Split(cur.normalizedText);
    if Removed(prev, cur) == 0 {
      assert w[0..] == w;
    }
  }

  /** Every kept entry after the first holds the suffix of its own input words. */
  lemma RemoveDuplicatesSuffixes(ts: seq<Transcription>)
    ensures var r := RemoveDuplicates(ts);
      forall i :: 0 < i < |r| ==>
        Split(r[i].normalizedText) == Split(ts[i].normalizedText)[Removed(ts[i - 1], ts[i])..]
  {
    var r := RemoveDuplicates(ts);
    forall i | 0 < i < |r|
      ensures Split(r[i].normalizedText) == Split(ts[i].normalizedText)[Removed(ts[i - 1], ts[i])..]
    {
      assert r[i] == CleanAll(ts)[i] == Clean(ts[i - 1], ts[i]);
      CleanedSuffix(ts[i - 1], ts[i]);
    }
  }

  /**
   * The removal is exactly the longest boundary repeat: when the previous entry's last
   * `k` words open the current one and no longer repeat exists, `k` words are removed.
   */
  lemma RemovesLongestRepeat(prev: Transcription, cur: Transcription, k: nat)
    requires k > 0 && Overlaps(Split(prev.normalizedText), Split(cur.normalizedText), k)
    requires forall i :: k < i ==> !Overlaps(Split(prev.normalizedText), Split(cur.normalizedText), i)
    ensures Removed(prev, cur) == k
    ensures Split(Clean(prev, cur).normalizedText) == Split(cur.normalizedText)[k..]
  {
    assert |cur.normalizedText| > 0 && |prev.normalizedText| > 0;
  }
}
