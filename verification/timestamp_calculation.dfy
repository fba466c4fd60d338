/**
 * `TimestampCalculationStep`: the chunk-centric matches (each chunk with the verses
 * it matched) are pivoted into verse-centric entries; each verse, in ascending
 * (surah, ayah) order, keeps one run of consecutive chunks that starts after the
 * previous emitted verse's run, and takes its times from that run.
 */
module TimestampCalculation {
  import opened Wrappers
  import opened Text
  import DuplicateRemoval

  /** A verse a chunk matched. */
  datatype Ayah = Ayah(surah: int, ayah: int, text: string, textNormalized: string,
                       isBasmalah: bool, similarity: Option<real>)

  /** One entry of `matched_chunk_verses`. */
  datatype MatchedChunk = MatchedChunk(chunkIndex: int, startTime: real, endTime: real,
                                       normalizedText: string, similarity: Option<real>,
                                       matchedAyahs: seq<Ayah>)

  /** The chunk information recorded under a verse. */
  datatype ChunkRef = ChunkRef(chunkIndex: int, startTime: real, endTime: real,
                               normalizedText: string, similarity: Option<real>)

  /** A verse with the chunks that matched it. */
  datatype VerseEntry = VerseEntry(surah: int, ayah: int, text: string, textNormalized: string,
                                   isBasmalah: bool, chunks: seq<ChunkRef>)

  /** One entry of `verse_slices_timestamps`. */
  datatype VerseSlice = VerseSlice(surah: int, ayah: int, text: string, textNormalized: string,
                                   isBasmalah: bool, startTime: real, endTime: real,
                                   duration: real, chunks: seq<ChunkRef>, numChunks: int)

  type Key = (int, int)

  /** Python's ordering of `(surah, ayah)` tuples. */
  predicate KeyLess(x: Key, y: Key) {
    x.0 < y.0 || (x.0 == y.0 && x.1 < y.1)
  }

  predicate Ascending(ks: seq<Key>) {
    forall i, j :: 0 <= i < j < |ks| ==> KeyLess(ks[i], ks[j])
  }

  function KeyOf(a: Ayah): Key {
    (a.surah, a.ayah)
  }

  function EntryKey(e: VerseEntry): Key {
    (e.surah, e.ayah)
  }

  function SliceKey(s: VerseSlice): Key {
    (s.surah, s.ayah)
  }

  // ---------------------------------------------------------------------------
  // `_are_chunks_consecutive`

  /** The fuzzy score the source requires of a matching window. */
  const Threshold: real := 85.0

  function Min3(a: int, b: int, c: int): int {
    DuplicateRemoval.Min(DuplicateRemoval.Min(a, b), c)
  }

  /** `' '.join(words[i:i + w])`. */
  function Window(words: seq<string>, i: nat, w: nat): string
    requires i + w <= |words|
  {
    Join(words[i..i + w], " ")
  }

  /**
   * The first window position `i` in `lo .. |words| - w` (the source's `range`) whose
   * window scores at least the threshold against `text`.
   */
  function FirstMatch(text: string, words: seq<string>, lo: nat, w: nat,
                      ratio: (string, string) -> real): (r: Option<nat>)
    ensures r.Some? ==> lo <= r.value && r.value + w <= |words|
    ensures r.Some? ==> ratio(text, Window(words, r.value, w)) >= Threshold
    ensures r.Some? ==> forall i :: lo <= i < r.value ==> ratio(text, Window(words, i, w)) < Threshold
    ensures r.None? ==> forall i :: lo <= i && i + w <= |words| ==> ratio(text, Window(words, i, w)) < Threshold
    decreases |words| - lo
  {
    if lo + w > |words| then None
    else if ratio(text, Window(words, lo, w)) >= Threshold then Some(lo)
    else FirstMatch(text, words, lo + 1, w, ratio)
  }

  /** The truthy ayah texts, previous, current and next, in that order. */
  function ContextParts(prevAyah: Option<string>, curAyah: string, nextAyah: Option<string>): (parts: seq<string>)
    ensures forall i :: 0 <= i < |parts| ==> |parts[i]| > 0
  {
    (if prevAyah.Some? && |prevAyah.value| > 0 then [prevAyah.value] else [])
    + (if |curAyah| > 0 then [curAyah] else [])
    + (if nextAyah.Some? && |nextAyah.value| > 0 then [nextAyah.value] else [])
  }

  /** Python's `s[:n]` for a non-negative `n`. */
  function Prefix(s: string, n: nat): string {
    if n <= |s| then s[..n] else s
  }

  /**
   * Where the previous chunk's text ends in the context: after its exact occurrence,
   * else after the first window of as many words scoring at least the threshold,
   * else `None` (the source returns false).
   */
  function PrevEnd(p: string, full: string, ratio: (string, string) -> real): Option<nat> {
    var pos := FindFrom(full, p, 0);
    if pos != -1 then Some(pos + |p|)
    else
      var words := Split(full);
      match FirstMatch(p, words, 0, |Split(p)|, ratio)
      case None => None
      case Some(i) => Some(|Join(words[..i + |Split(p)|], " ")|)
  }

  /**
   * `_are_chunks_consecutive`: two chunk texts follow each other if the previous one's
   * last words open the current one (up to ten), or if, within the surrounding ayah
   * texts, the current one is found after the previous one, exactly or fuzzily.
   */
  function AreChunksConsecutive(p: string, c: string, prevAyah: Option<string>, curAyah: string,
                                nextAyah: Option<string>, ratio: (string, string) -> real): (r: bool)
    ensures r ==> |Split(p)| > 0 && |Split(c)| > 0
  {
    if |p| == 0 || |c| == 0 then false
    else
      var pw := Split(p);
      var cw := Split(c);
      if |pw| == 0 || |cw| == 0 then false
      else if DuplicateRemoval.OverlapUpTo(pw, cw, Min3(|pw|, |cw|, 10)) > 0 then true
      else
        var parts := ContextParts(prevAyah, curAyah, nextAyah);
        if |parts| == 0 then false
        else
          var full := Join(parts, " ");
          match PrevEnd(p, full, ratio)
          case None => false
          case Some(e) =>
            var pos := FindFrom(full, c, e);
            if pos == -1 then
              FirstMatch(c, Split(full), |Split(Prefix(full, e))|, |cw|, ratio).Some?
            else pos >= e
  }

  // ---------------------------------------------------------------------------
  // The run of chunks a verse keeps

  /** `b` may follow `a` in a run: the next index, and the texts pass the check. */
  predicate Linked(a: ChunkRef, b: ChunkRef, ok: (string, string) -> bool) {
    b.chunkIndex == a.chunkIndex + 1 && ok(a.normalizedText, b.normalizedText)
  }

  /** The first position at or after `i` holding a chunk past `last`. */
  function FirstAfter(cs: seq<ChunkRef>, last: int, i: nat): (r: Option<nat>)
    ensures r.Some? ==> i <= r.value < |cs| && cs[r.value].chunkIndex > last
    ensures r.Some? ==> forall j :: i <= j < r.value ==> cs[j].chunkIndex <= last
    ensures r.None? ==> forall j :: i <= j < |cs| ==> cs[j].chunkIndex <= last
    decreases |cs| - i
  {
    if i >= |cs| then None
    else if cs[i].chunkIndex > last then Some(i)
    else FirstAfter(cs, last, i + 1)
  }

  /** The run `acc` grown by the leading chunks of `rest` while each links to the one before. */
  function Extend(acc: seq<ChunkRef>, rest: seq<ChunkRef>, ok: (string, string) -> bool): seq<ChunkRef>
    requires |acc| > 0
    decreases |rest|
  {
    if |rest| == 0 then acc
    else if Linked(acc[|acc| - 1], rest[0], ok) then Extend(acc + [rest[0]], rest[1..], ok)
    else acc
  }

  /**
   * The grown run is `acc` followed by the longest prefix of `rest` in which each chunk
   * links to the one before, and it stops at the first chunk that does not link.
   */
  lemma {:induction false} ExtendFacts(acc: seq<ChunkRef>, rest: seq<ChunkRef>, ok: (string, string) -> bool)
    requires |acc| > 0
    ensures var r := Extend(acc, rest, ok);
      && |acc| <= |r| <= |acc| + |rest|
      && r == acc + rest[..|r| - |acc|]
      && (forall i :: |acc| - 1 <= i < |r| - 1 ==> Linked(r[i], r[i + 1], ok))
      && (|r| < |acc| + |rest| ==> !Linked(r[|r| - 1], rest[|r| - |acc|], ok))
    decreases |rest|
  {
    if |rest| > 0 && Linked(acc[|acc| - 1], rest[0], ok) {
      var r := Extend(acc + [rest[0]], rest[1..], ok);
      ExtendFacts(acc + [rest[0]], rest[1..], ok);
      assert rest[..|r| - |acc|] == [rest[0]] + rest[1..][..|r| - |acc| - 1];
    } else {
      assert rest[..0] == [];
    }
  }

  /**
   * The chunks a verse keeps from its index-sorted chunks: the first one past `last`,
   * then each following chunk while it links to the one before.
   */
  function Run(cs: seq<ChunkRef>, last: int, ok: (string, string) -> bool): (r: seq<ChunkRef>)
    ensures |r| <= |cs|
  {
    match FirstAfter(cs, last, 0)
    case None => []
    case Some(p) =>
      ExtendFacts([cs[p]], cs[p + 1..], ok);
      Extend([cs[p]], cs[p + 1..], ok)
  }

  /** One step of `Extend`: the next chunk either joins the run or ends it. */
  lemma ExtendStep(acc: seq<ChunkRef>, cs: seq<ChunkRef>, i: nat, ok: (string, string) -> bool)
    requires |acc| > 0 && i < |cs|
    ensures Linked(acc[|acc| - 1], cs[i], ok) ==> Extend(acc, cs[i..], ok) == Extend(acc + [cs[i]], cs[i + 1..], ok)
    ensures !Linked(acc[|acc| - 1], cs[i], ok) ==> Extend(acc, cs[i..], ok) == acc
  {
    assert cs[i..][0] == cs[i] && cs[i..][1..] == cs[i + 1..];
  }

  /** Before the run starts: the chunk at `i` either starts it or is skipped. */
  lemma RunStep(cs: seq<ChunkRef>, last: int, ok: (string, string) -> bool, i: nat)
    requires i < |cs| && FirstAfter(cs, last, 0) == FirstAfter(cs, last, i)
    ensures cs[i].chunkIndex > last ==> Run(cs, last, ok) == Extend([cs[i]], cs[i + 1..], ok)
    ensures cs[i].chunkIndex <= last ==> FirstAfter(cs, last, 0) == FirstAfter(cs, last, i + 1)
  {
  }

  /** A loop that never started a run leaves it empty, and a run with nothing left is done. */
  lemma RunEnd(cs: seq<ChunkRef>, last: int, ok: (string, string) -> bool, filtered: seq<ChunkRef>)
    requires |filtered| == 0 ==> FirstAfter(cs, last, 0) == FirstAfter(cs, last, |cs|)
    requires |filtered| > 0 ==> Run(cs, last, ok) == Extend(filtered, cs[|cs|..], ok)
    ensures filtered == Run(cs, last, ok)
  {
  }

  /** The source's filtering loop, with its early `break`. */
  method FilterChunks(cs: seq<ChunkRef>, last: int, ok: (string, string) -> bool) returns (filtered: seq<ChunkRef>)
    ensures filtered == Run(cs, last, ok)
  {
    filtered := [];
    var i := 0;
    while i < |cs|
      invariant 0 <= i <= |cs|
      invariant |filtered| == 0 ==> FirstAfter(cs, last, 0) == FirstAfter(cs, last, i)
      invariant |filtered| > 0 ==> Run(cs, last, ok) == Extend(filtered, cs[i..], ok)
    {
      var chunk := cs[i];
      if |filtered| == 0 {
        RunStep(cs, last, ok, i);
        if chunk.chunkIndex > last {
          filtered := [chunk];
        }
      } else {
        ExtendStep(filtered, cs, i, ok);
        if Linked(filtered[|filtered| - 1], chunk, ok) {
          filtered := filtered + [chunk];
        } else {
          return;
        }
      }
      i := i + 1;
    }
    RunEnd(cs, last, ok, filtered);
  }

  // ---------------------------------------------------------------------------
  // Pivoting chunk-centric matches into verse-centric entries

  /** What a chunk records under a verse; the verse's own similarity wins when it has one. */
  function RefOf(c: MatchedChunk, a: Ayah): ChunkRef {
    ChunkRef(c.chunkIndex, c.startTime, c.endTime, c.normalizedText,
             if a.similarity.Some? then a.similarity else c.similarity)
  }

  /** Every (verse, chunk reference) pair, chunk by chunk, verse by verse. */
  function Pairs(ms: seq<MatchedChunk>): seq<(Ayah, ChunkRef)>
    decreases |ms|
  {
    if |ms| == 0 then []
    else
      var c := ms[|ms| - 1];
      Pairs(ms[..|ms| - 1]) + seq(|c.matchedAyahs|, i requires 0 <= i < |c.matchedAyahs| =>
                                     (c.matchedAyahs[i], RefOf(c, c.matchedAyahs[i])))
  }

  /** The source's `verse_to_chunks` dictionary, built pair by pair. */
  function Pivot(ps: seq<(Ayah, ChunkRef)>): (m: map<Key, VerseEntry>)
    decreases |ps|
  {
    if |ps| == 0 then map[]
    else
      var m := Pivot(ps[..|ps| - 1]);
      var (a, r) := ps[|ps| - 1];
      var k := KeyOf(a);
      if k in m then m[k := m[k].(chunks := m[k].chunks + [r])]
      else m[k := VerseEntry(a.surah, a.ayah, a.text, a.textNormalized, a.isBasmalah, [r])]
  }

  /** The chunk references recorded for verse `k`, in input order. */
  function RefsFor(ps: seq<(Ayah, ChunkRef)>, k: Key): seq<ChunkRef>
    decreases |ps|
  {
    if |ps| == 0 then []
    else RefsFor(ps[..|ps| - 1], k) + (if KeyOf(ps[|ps| - 1].0) == k then [ps[|ps| - 1].1] else [])
  }

  function KeySet(ps: seq<(Ayah, ChunkRef)>): set<Key> {
    set i | 0 <= i < |ps| :: KeyOf(ps[i].0)
  }

  function KeyList(ps: seq<(Ayah, ChunkRef)>): (ks: seq<Key>)
    ensures |ks| == |ps| && forall i :: 0 <= i < |ps| ==> ks[i] == KeyOf(ps[i].0)
  {
    seq(|ps|, i requires 0 <= i < |ps| => KeyOf(ps[i].0))
  }

  /** `sorted(...)` on distinct keys: `k` placed into an ascending list, once. */
  function InsertKey(k: Key, ks: seq<Key>): (r: seq<Key>)
    requires Ascending(ks)
    ensures Ascending(r)
    ensures forall x :: x in r <==> x in ks || x == k
    decreases |ks|
  {
    if |ks| == 0 then [k]
    else if ks[0] == k then ks
    else if KeyLess(k, ks[0]) then [k] + ks
    else
      assert ks == [ks[0]] + ks[1..];
      assert KeyLess(ks[0], k);
      var t := InsertKey(k, ks[1..]);
      assert forall x :: x in t ==> KeyLess(ks[0], x);
      [ks[0]] + t
  }

  /** The distinct keys of a list, ascending. */
  function SortKeys(ks: seq<Key>): (r: seq<Key>)
    ensures Ascending(r)
    ensures forall x :: x in r <==> x in ks
    decreases |ks|
  {
    if |ks| == 0 then []
    else
      var init := ks[..|ks| - 1];
      assert ks == init + [ks[|ks| - 1]];
      InsertKey(ks[|ks| - 1], SortKeys(init))
  }

  // ---------------------------------------------------------------------------
  // Sorting a verse's chunks by index (Python's sort is stable)

  predicate IndexSorted(cs: seq<ChunkRef>) {
    forall i, j :: 0 <= i < j < |cs| ==> cs[i].chunkIndex <= cs[j].chunkIndex
  }

  /** `c` placed after every chunk whose index is not larger. */
  function InsertChunk(c: ChunkRef, cs: seq<ChunkRef>): (r: seq<ChunkRef>)
    requires IndexSorted(cs)
    ensures IndexSorted(r)
    ensures |r| == |cs| + 1
    ensures forall x :: x in r <==> x in cs || x == c
    decreases |cs|
  {
    if |cs| == 0 then [c]
    else if cs[|cs| - 1].chunkIndex <= c.chunkIndex then cs + [c]
    else
      var init := cs[..|cs| - 1];
      var last := cs[|cs| - 1];
      assert cs == init + [last];
      var t := InsertChunk(c, init);
      assert forall x :: x in t ==> x.chunkIndex <= last.chunkIndex;
      t + [last]
  }

  lemma {:induction false} InsertChunkPermutes(c: ChunkRef, cs: seq<ChunkRef>)
    requires IndexSorted(cs)
    ensures multiset(InsertChunk(c, cs)) == multiset(cs) + multiset{c}
    decreases |cs|
  {
    if |cs| > 0 && cs[|cs| - 1].chunkIndex > c.chunkIndex {
      var init := cs[..|cs| - 1];
      assert cs == init + [cs[|cs| - 1]];
      InsertChunkPermutes(c, init);
    }
  }

  /** `chunks.sort(key=lambda c: c['chunk_index'])`. */
  function SortChunks(cs: seq<ChunkRef>): (r: seq<ChunkRef>)
    ensures IndexSorted(r)
    ensures |r| == |cs|
    decreases |cs|
  {
    if |cs| == 0 then []
    else InsertChunk(cs[|cs| - 1], SortChunks(cs[..|cs| - 1]))
  }

  /** Sorting only reorders the chunks. */
  lemma {:induction false} SortChunksPermutes(cs: seq<ChunkRef>)
    ensures multiset(SortChunks(cs)) == multiset(cs)
    decreases |cs|
  {
    if |cs| > 0 {
      var init := cs[..|cs| - 1];
      assert cs == init + [cs[|cs| - 1]];
      SortChunksPermutes(init);
      InsertChunkPermutes(cs[|cs| - 1], SortChunks(init));
    }
  }

  /** The chunks with index `v`, in order: what a stable sort must keep in order. */
  function WithIndex(cs: seq<ChunkRef>, v: int): seq<ChunkRef>
    decreases |cs|
  {
    if |cs| == 0 then []
    else WithIndex(cs[..|cs| - 1], v) + (if cs[|cs| - 1].chunkIndex == v then [cs[|cs| - 1]] else [])
  }

  // ---------------------------------------------------------------------------
  // The per-verse loop

  /** The normalised text of the verse at position `i` of the sorted keys, if there is one. */
  function TextAt(keys: seq<Key>, m: map<Key, VerseEntry>, i: int): Option<string>
    requires forall j :: 0 <= j < |keys| ==> keys[j] in m
  {
    if 0 <= i < |keys| then Some(m[keys[i]].textNormalized) else None
  }

  /** The slice a verse yields from its kept run. */
  function SliceOf(e: VerseEntry, run: seq<ChunkRef>): VerseSlice
    requires |run| > 0
  {
    VerseSlice(e.surah, e.ayah, e.text, e.textNormalized, e.isBasmalah,
               run[0].startTime, run[|run| - 1].endTime, run[|run| - 1].endTime - run[0].startTime,
               run, |run|)
  }

  /** The consecutiveness check for a verse with the given neighbouring texts. */
  function CheckFor(prev: Option<string>, cur: string, next: Option<string>,
                    ratio: (string, string) -> real): (string, string) -> bool
  {
    (x: string, y: string) => AreChunksConsecutive(x, y, prev, cur, next, ratio)
  }

  /** The run verse number `i` keeps after `last`. */
  function VerseRun(keys: seq<Key>, m: map<Key, VerseEntry>, i: nat, last: int,
                    ratio: (string, string) -> real): seq<ChunkRef>
    requires forall j :: 0 <= j < |keys| ==> keys[j] in m
    requires i < |keys|
  {
    var e := m[keys[i]];
    var prev := TextAt(keys, m, i - 1);
    var next := TextAt(keys, m, i + 1);
    Run(SortChunks(e.chunks), last, CheckFor(prev, e.textNormalized, next, ratio))
  }

  /** The run each verse position keeps after a given chunk index. */
  type RunChoice = (nat, int) -> seq<ChunkRef>

  /** The runs of the verses at the sorted keys; a position past the end keeps nothing. */
  function RunsOf(keys: seq<Key>, m: map<Key, VerseEntry>, ratio: (string, string) -> real): RunChoice
    requires forall j :: 0 <= j < |keys| ==> keys[j] in m
  {
    (i: nat, last: int) => if i < |keys| then VerseRun(keys, m, i, last, ratio) else []
  }

  /** The verse entries in the order of the sorted keys. */
  function EntriesAt(keys: seq<Key>, m: map<Key, VerseEntry>): (es: seq<VerseEntry>)
    requires forall j :: 0 <= j < |keys| ==> keys[j] in m
    ensures |es| == |keys| && forall j :: 0 <= j < |keys| ==> es[j] == m[keys[j]]
  {
    seq(|keys|, j requires 0 <= j < |keys| => m[keys[j]])
  }

  /**
   * The loop over the verses from position `i`, with `last` the last chunk index kept
   * so far: a verse with no run is skipped and leaves `last` alone.
   */
  function ProcessFrom(es: seq<VerseEntry>, i: nat, last: int, runs: RunChoice): (out: seq<VerseSlice>)
    ensures i <= |es| ==> |out| <= |es| - i
    ensures i >= |es| ==> out == []
    ensures forall a :: 0 <= a < |out| ==> out[a].numChunks == |out[a].chunks| > 0
    decreases |es| - i
  {
    if i >= |es| then []
    else
      var run := runs(i, last);
      if |run| == 0 then ProcessFrom(es, i + 1, last, runs)
      else [SliceOf(es[i], run)] + ProcessFrom(es, i + 1, run[|run| - 1].chunkIndex, runs)
  }

  /** The `last` chunk index that `ProcessFrom` carries from position `i` to `i + 1`. */
  function NextLast(runs: RunChoice, i: nat, last: int): int {
    var run := runs(i, last);
    if |run| == 0 then last else run[|run| - 1].chunkIndex
  }

  /**
   * `TimestampCalculationStep.process`: the verse slices come out in ascending
   * (surah, ayah) order, each for a verse some chunk matched and each spanning its
   * chunk run, and the runs never overlap but advance from verse to verse.
   */
  function CalculateTimestamps(ms: seq<MatchedChunk>, ratio: (string, string) -> real): (out: seq<VerseSlice>)
    ensures SlicesAscend(out)
    ensures forall a :: 0 <= a < |out| ==> SliceKey(out[a]) in KeySet(Pairs(ms)) && SpansRun(out[a])
    ensures StartsAfter(out, -1) && RunsAscend(out)
  {
    var ps := Pairs(ms);
    var keys := SortKeys(KeyList(ps));
    PivotKeys(ps);
    PivotEntryKeys(ps);
    var m := Pivot(ps);
    var es := EntriesAt(keys, m);
    var runs := RunsOf(keys, m, ratio);
    RunsOfAfter(keys, m, ratio);
    ProcessKeysAscend(keys, es, 0, -1, runs);
    ProcessSpans(es, 0, -1, runs);
    ProcessOrdered(es, 0, -1, runs);
    ProcessFrom(es, 0, -1, runs)
  }

  /**
   * `validate_input`: the step checks `matched_verses`, although it reads
   * `matched_chunk_verses`.
   */
  function ValidateInput<T>(matchedVerses: Option<seq<T>>): (ok: bool)
    ensures ok <==> matchedVerses.Some? && |matchedVerses.value| > 0
  {
    matchedVerses.Some? && |matchedVerses.value| > 0
  }

  // ---------------------------------------------------------------------------
  // Properties

  /** A verse has an entry iff some pair names it. */
  lemma {:induction false} PivotKeys(ps: seq<(Ayah, ChunkRef)>)
    ensures Pivot(ps).Keys == KeySet(ps)
    ensures forall k :: k in KeySet(ps) <==> k in KeyList(ps)
    decreases |ps|
  {
    if |ps| > 0 {
      var init := ps[..|ps| - 1];
      PivotKeys(init);
      assert KeySet(ps) == KeySet(init) + {KeyOf(ps[|ps| - 1].0)} by {
        forall k | k in KeySet(ps) ensures k in KeySet(init) + {KeyOf(ps[|ps| - 1].0)} {
          var i :| 0 <= i < |ps| && KeyOf(ps[i].0) == k;
          if i < |init| {
            assert init[i] == ps[i];
          }
        }
        forall k | k in KeySet(init) ensures k in KeySet(ps) {
          var i :| 0 <= i < |init| && KeyOf(init[i].0) == k;
          assert ps[i] == init[i];
        }
      }
    }
  }

  /** A stable sort: the chunks sharing an index keep their input order. */
  lemma {:induction false} SortChunksStable(cs: seq<ChunkRef>, v: int)
    ensures WithIndex(SortChunks(cs), v) == WithIndex(cs, v)
    decreases |cs|
  {
    if |cs| > 0 {
      var init := cs[..|cs| - 1];
      SortChunksStable(init, v);
      InsertChunkStable(cs[|cs| - 1], SortChunks(init), v);
    }
  }

  lemma {:induction false} InsertChunkStable(c: ChunkRef, cs: seq<ChunkRef>, v: int)
    requires IndexSorted(cs)
    ensures WithIndex(InsertChunk(c, cs), v) == WithIndex(cs, v) + (if c.chunkIndex == v then [c] else [])
    decreases |cs|
  {
    if |cs| == 0 {
      assert [c][..0] == [];
    } else if cs[|cs| - 1].chunkIndex <= c.chunkIndex {
      assert (cs + [c])[..|cs|] == cs;
    } else {
      var init := cs[..|cs| - 1];
      var last := cs[|cs| - 1];
      var t := InsertChunk(c, init);
      var tail := if last.chunkIndex == v then [last] else [];
      InsertChunkStable(c, init, v);
      assert InsertChunk(c, cs) == t + [last];
      assert (t + [last])[..|t|] == t;
      assert WithIndex(t + [last], v) == WithIndex(t, v) + tail;
      assert WithIndex(cs, v) == WithIndex(init, v) + tail;
      if c.chunkIndex == v {
        assert tail == [];
      }
    }
  }

  /** Each verse's entry holds exactly its chunk references, in input order. */
  lemma {:induction false} PivotChunks(ps: seq<(Ayah, ChunkRef)>, k: Key)
    ensures k in Pivot(ps) ==> Pivot(ps)[k].chunks == RefsFor(ps, k) && |RefsFor(ps, k)| > 0
    ensures k !in Pivot(ps) ==> RefsFor(ps, k) == []
    decreases |ps|
  {
    if |ps| > 0 {
      PivotChunks(ps[..|ps| - 1], k);
    }
  }

  /** A verse's text fields come from the first pair that names it. */
  lemma {:induction false} PivotFirst(ps: seq<(Ayah, ChunkRef)>, i: int)
    requires 0 <= i < |ps|
    requires forall j :: 0 <= j < i ==> KeyOf(ps[j].0) != KeyOf(ps[i].0)
    ensures var a := ps[i].0;
      && KeyOf(a) in Pivot(ps)
      && Pivot(ps)[KeyOf(a)].surah == a.surah && Pivot(ps)[KeyOf(a)].ayah == a.ayah
      && Pivot(ps)[KeyOf(a)].text == a.text && Pivot(ps)[KeyOf(a)].textNormalized == a.textNormalized
      && Pivot(ps)[KeyOf(a)].isBasmalah == a.isBasmalah
    decreases |ps|
  {
    var init := ps[..|ps| - 1];
    if i < |ps| - 1 {
      assert forall j :: 0 <= j < i ==> init[j] == ps[j];
      PivotFirst(init, i);
    } else {
      PivotKeys(init);
      assert forall j :: 0 <= j < |init| ==> init[j] == ps[j];
      assert KeyOf(ps[i].0) !in KeySet(init);
    }
  }

  /** Linked chunks carry consecutive indices. */
  lemma {:induction false} LinkedIndices(r: seq<ChunkRef>, ok: (string, string) -> bool)
    requires forall t :: 0 <= t < |r| - 1 ==> Linked(r[t], r[t + 1], ok)
    ensures forall t :: 0 <= t < |r| ==> r[t].chunkIndex == r[0].chunkIndex + t
    decreases |r|
  {
    if |r| > 1 {
      var init := r[..|r| - 1];
      assert forall t :: 0 <= t < |init| ==> init[t] == r[t];
      LinkedIndices(init, ok);
      assert Linked(r[|r| - 2], r[|r| - 1], ok);
    }
  }

  /**
   * The kept run: empty iff no chunk lies past `last`; otherwise a contiguous stretch
   * of the sorted chunks that starts at the first chunk past `last`, in which each
   * chunk links to the one before, and which stops at the first chunk that does not.
   */
  lemma RunFacts(cs: seq<ChunkRef>, last: int, ok: (string, string) -> bool) returns (p: nat)
    ensures |Run(cs, last, ok)| == 0 <==> forall j :: 0 <= j < |cs| ==> cs[j].chunkIndex <= last
    ensures forall t :: 0 <= t < |Run(cs, last, ok)| - 1 ==> Linked(Run(cs, last, ok)[t], Run(cs, last, ok)[t + 1], ok)
    ensures |Run(cs, last, ok)| > 0 ==> p + |Run(cs, last, ok)| <= |cs| && Run(cs, last, ok) == cs[p..p + |Run(cs, last, ok)|]
    ensures |Run(cs, last, ok)| > 0 ==> cs[p].chunkIndex > last && forall j :: 0 <= j < p ==> cs[j].chunkIndex <= last
    ensures |Run(cs, last, ok)| > 0 && p + |Run(cs, last, ok)| < |cs| ==>
      !Linked(Run(cs, last, ok)[|Run(cs, last, ok)| - 1], cs[p + |Run(cs, last, ok)|], ok)
  {
    match FirstAfter(cs, last, 0)
    case None =>
      p := 0;
    case Some(q) =>
      p := q;
      ExtendSlice(cs, p, ok);
  }

  /** A run grown from the chunk at `p` is the stretch of `cs` from `p` that stays linked. */
  lemma ExtendSlice(cs: seq<ChunkRef>, p: nat, ok: (string, string) -> bool)
    requires p < |cs|
    ensures var r := Extend([cs[p]], cs[p + 1..], ok);
      && 0 < |r| && p + |r| <= |cs| && r == cs[p..p + |r|]
      && (forall t :: 0 <= t < |r| - 1 ==> Linked(r[t], r[t + 1], ok))
      && (p + |r| < |cs| ==> !Linked(r[|r| - 1], cs[p + |r|], ok))
  {
    var rest := cs[p + 1..];
    var r := Extend([cs[p]], rest, ok);
    ExtendFacts([cs[p]], rest, ok);
    assert r == [cs[p]] + rest[..|r| - 1];
    assert r == cs[p..p + |r|];
    if p + |r| < |cs| {
      assert rest[|r| - 1] == cs[p + |r|];
    }
  }

  /** Every slice has a run, and every run starts past `last`. */
  predicate StartsAfter(out: seq<VerseSlice>, last: int) {
    forall a :: 0 <= a < |out| ==> |out[a].chunks| > 0 && out[a].chunks[0].chunkIndex > last
  }

  /** Each run ends before the next one starts. */
  predicate RunsAscend(out: seq<VerseSlice>)
    requires forall a :: 0 <= a < |out| ==> |out[a].chunks| > 0
  {
    forall a, b :: 0 <= a < b < |out| ==>
      out[a].chunks[|out[a].chunks| - 1].chunkIndex < out[b].chunks[0].chunkIndex
  }

  lemma ConsOrdered(x: VerseSlice, rest: seq<VerseSlice>, last: int)
    requires |x.chunks| > 0 && x.chunks[0].chunkIndex > last
    requires x.chunks[|x.chunks| - 1].chunkIndex >= x.chunks[0].chunkIndex
    requires StartsAfter(rest, x.chunks[|x.chunks| - 1].chunkIndex) && RunsAscend(rest)
    ensures StartsAfter([x] + rest, last) && RunsAscend([x] + rest)
  {
    var out := [x] + rest;
    assert forall a :: 0 < a < |out| ==> out[a] == rest[a - 1];
  }

  /** A kept run, if any, starts past `last` and carries consecutive chunk indices. */
  predicate RunAfter(run: seq<ChunkRef>, last: int) {
    |run| > 0 ==>
      (&& run[0].chunkIndex > last
       && forall t :: 0 <= t < |run| ==> run[t].chunkIndex == run[0].chunkIndex + t)
  }

  ghost predicate RunsAfter(runs: RunChoice) {
    forall i: nat, last: int :: RunAfter(runs(i, last), last)
  }

  /** The kept run of verse `i`, with the facts the loop relies on. */
  lemma VerseRunFacts(keys: seq<Key>, m: map<Key, VerseEntry>, i: nat, last: int,
                      ratio: (string, string) -> real)
    requires forall j :: 0 <= j < |keys| ==> keys[j] in m
    requires i < |keys|
    ensures RunAfter(VerseRun(keys, m, i, last, ratio), last)
  {
    var e := m[keys[i]];
    var ok := CheckFor(TextAt(keys, m, i - 1), e.textNormalized, TextAt(keys, m, i + 1), ratio);
    var _ := RunFacts(SortChunks(e.chunks), last, ok);
    LinkedIndices(Run(SortChunks(e.chunks), last, ok), ok);
  }

  lemma RunsOfAfter(keys: seq<Key>, m: map<Key, VerseEntry>, ratio: (string, string) -> real)
    requires forall j :: 0 <= j < |keys| ==> keys[j] in m
    ensures RunsAfter(RunsOf(keys, m, ratio))
  {
    forall i: nat, last: int ensures RunAfter(RunsOf(keys, m, ratio)(i, last), last) {
      if i < |keys| {
        VerseRunFacts(keys, m, i, last, ratio);
      }
    }
  }

  /** Every emitted slice starts past `last`, and the runs ascend without overlapping. */
  lemma {:induction false} ProcessOrdered(es: seq<VerseEntry>, i: nat, last: int, runs: RunChoice)
    requires RunsAfter(runs)
    ensures StartsAfter(ProcessFrom(es, i, last, runs), last)
    ensures RunsAscend(ProcessFrom(es, i, last, runs))
    decreases |es| - i
  {
    if i < |es| {
      var run := runs(i, last);
      assert RunAfter(run, last);
      ProcessOrdered(es, i + 1, NextLast(runs, i, last), runs);
      if |run| > 0 {
        ConsOrdered(SliceOf(es[i], run), ProcessFrom(es, i + 1, run[|run| - 1].chunkIndex, runs), last);
      }
    }
  }

  /**
   * A slice spans its run: it starts at the first kept chunk, ends at the last, lasts
   * the difference, counts the run, and the run's indices are consecutive.
   */
  predicate SpansRun(x: VerseSlice) {
    && |x.chunks| > 0
    && x.numChunks == |x.chunks|
    && x.startTime == x.chunks[0].startTime
    && x.endTime == x.chunks[|x.chunks| - 1].endTime
    && x.duration == x.endTime - x.startTime
    && (forall t :: 0 <= t < |x.chunks| ==> x.chunks[t].chunkIndex == x.chunks[0].chunkIndex + t)
  }

  lemma {:induction false} ProcessSpans(es: seq<VerseEntry>, i: nat, last: int, runs: RunChoice)
    requires RunsAfter(runs)
    ensures forall a :: 0 <= a < |ProcessFrom(es, i, last, runs)| ==> SpansRun(ProcessFrom(es, i, last, runs)[a])
    decreases |es| - i
  {
    if i < |es| {
      var run := runs(i, last);
      assert RunAfter(run, last);
      ProcessSpans(es, i + 1, NextLast(runs, i, last), runs);
      if |run| > 0 {
        var rest := ProcessFrom(es, i + 1, run[|run| - 1].chunkIndex, runs);
        var out := [SliceOf(es[i], run)] + rest;
        assert SpansRun(out[0]);
        assert forall a :: 0 < a < |out| ==> out[a] == rest[a - 1];
      }
    }
  }

  /**
   * The `last` chunk index the loop carries into position `j` when it starts at
   * position `i` with `last`.
   */
  function LastAt(runs: RunChoice, i: nat, last: int, j: nat): int
    requires i <= j
    decreases j - i
  {
    if j == i then last else LastAt(runs, i + 1, NextLast(runs, i, last), j)
  }

  /** The positions from `i` on whose verse keeps a non-empty run, in order. */
  function Emitted(es: seq<VerseEntry>, i: nat, last: int, runs: RunChoice): seq<nat>
    decreases |es| - i
  {
    if i >= |es| then []
    else (if |runs(i, last)| > 0 then [i] else []) + Emitted(es, i + 1, NextLast(runs, i, last), runs)
  }

  /** Positions that lie in `[lo, hi)` and strictly ascend. */
  predicate PositionsWithin(ps: seq<nat>, lo: nat, hi: nat) {
    && (forall a :: 0 <= a < |ps| ==> lo <= ps[a] < hi)
    && (forall a, b :: 0 <= a < b < |ps| ==> ps[a] < ps[b])
  }

  /** The emitted positions lie in `[i, |es|)` and strictly ascend. */
  lemma {:induction false} EmittedAscend(es: seq<VerseEntry>, i: nat, last: int, runs: RunChoice)
    ensures PositionsWithin(Emitted(es, i, last, runs), i, |es|)
    decreases |es| - i
  {
    if i < |es| {
      var next := NextLast(runs, i, last);
      EmittedAscend(es, i + 1, next, runs);
      var ps' := Emitted(es, i + 1, next, runs);
      if |runs(i, last)| > 0 {
        assert Emitted(es, i, last, runs) == [i] + ps';
        ConsPositions(ps', i, |es|);
      } else {
        assert Emitted(es, i, last, runs) == ps';
      }
    }
  }

  lemma ConsPositions(ps: seq<nat>, i: nat, hi: nat)
    requires i < hi && PositionsWithin(ps, i + 1, hi)
    ensures PositionsWithin([i] + ps, i, hi)
  {
    var ps2 := [i] + ps;
    assert forall a :: 0 < a < |ps2| ==> ps2[a] == ps[a - 1];
  }

  /** Past position `i`, the running `last` is the one carried out of position `i`. */
  lemma LastAtStep(runs: RunChoice, i: nat, last: int)
    ensures forall j: nat :: i < j ==> LastAt(runs, i, last, j) == LastAt(runs, i + 1, NextLast(runs, i, last), j)
  {
  }

  /** Every position whose run after the running `last` is non-empty is emitted. */
  lemma {:induction false} EmittedComplete(es: seq<VerseEntry>, i: nat, last: int, runs: RunChoice)
    ensures forall j: nat :: i <= j < |es| && |runs(j, LastAt(runs, i, last, j))| > 0 ==>
      j in Emitted(es, i, last, runs)
    decreases |es| - i
  {
    if i < |es| {
      var next := NextLast(runs, i, last);
      EmittedComplete(es, i + 1, next, runs);
      LastAtStep(runs, i, last);
      assert Emitted(es, i, last, runs) == (if |runs(i, last)| > 0 then [i] else []) + Emitted(es, i + 1, next, runs);
    }
  }

  /**
   * Slice `a` is the slice of verse position `ps[a]`, built from that verse's non-empty
   * run after the running `last` of a loop started at position `i` with `last`.
   */
  ghost predicate SlicesAt(out: seq<VerseSlice>, es: seq<VerseEntry>, ps: seq<nat>, i: nat, last: int,
                           runs: RunChoice)
  {
    && |out| == |ps|
    && forall a :: 0 <= a < |ps| ==>
         && i <= ps[a] < |es|
         && |runs(ps[a], LastAt(runs, i, last, ps[a]))| > 0
         && out[a] == SliceOf(es[ps[a]], runs(ps[a], LastAt(runs, i, last, ps[a])))
  }

  lemma {:induction false} ProcessFromSlices(es: seq<VerseEntry>, i: nat, last: int, runs: RunChoice)
    ensures SlicesAt(ProcessFrom(es, i, last, runs), es, Emitted(es, i, last, runs), i, last, runs)
    decreases |es| - i
  {
    if i < |es| {
      var run := runs(i, last);
      var next := NextLast(runs, i, last);
      ProcessFromSlices(es, i + 1, next, runs);
      var rest, ps' := ProcessFrom(es, i + 1, next, runs), Emitted(es, i + 1, next, runs);
      if |run| > 0 {
        assert ProcessFrom(es, i, last, runs) == [SliceOf(es[i], run)] + rest;
        assert Emitted(es, i, last, runs) == [i] + ps';
        ConsSlicesAt(rest, es, ps', i, last, runs);
      } else {
        assert ProcessFrom(es, i, last, runs) == rest;
        assert Emitted(es, i, last, runs) == ps';
        SkipSlicesAt(rest, es, ps', i, last, runs);
      }
    }
  }

  lemma ConsSlicesAt(rest: seq<VerseSlice>, es: seq<VerseEntry>, ps: seq<nat>, i: nat, last: int, runs: RunChoice)
    requires i < |es| && |runs(i, last)| > 0
    requires SlicesAt(rest, es, ps, i + 1, NextLast(runs, i, last), runs)
    ensures SlicesAt([SliceOf(es[i], runs(i, last))] + rest, es, [i] + ps, i, last, runs)
  {
    var out, ps2 := [SliceOf(es[i], runs(i, last))] + rest, [i] + ps;
    LastAtStep(runs, i, last);
    forall a | 0 < a < |ps2|
      ensures i <= ps2[a] < |es| && |runs(ps2[a], LastAt(runs, i, last, ps2[a]))| > 0
      ensures out[a] == SliceOf(es[ps2[a]], runs(ps2[a], LastAt(runs, i, last, ps2[a])))
    {
      assert out[a] == rest[a - 1] && ps2[a] == ps[a - 1];
    }
  }

  lemma SkipSlicesAt(rest: seq<VerseSlice>, es: seq<VerseEntry>, ps: seq<nat>, i: nat, last: int, runs: RunChoice)
    requires |runs(i, last)| == 0
    requires SlicesAt(rest, es, ps, i + 1, last, runs)
    ensures SlicesAt(rest, es, ps, i, last, runs)
  {
    LastAtStep(runs, i, last);
  }

  /**
   * The running `last` at the first position of `ps` is `last` itself, and at each later
   * one it is the last chunk index of the slice before.
   */
  ghost predicate LastsChain(out: seq<VerseSlice>, ps: seq<nat>, i: nat, last: int, runs: RunChoice)
  {
    && |out| == |ps|
    && (forall a :: 0 <= a < |ps| ==> i <= ps[a])
    && (|ps| > 0 ==> LastAt(runs, i, last, ps[0]) == last)
    && forall a :: 0 < a < |ps| ==> LastFollows(out, ps, i, last, runs, a)
  }

  /** The running `last` at position `ps[a]` is the last chunk index of slice `a - 1`. */
  ghost predicate LastFollows(out: seq<VerseSlice>, ps: seq<nat>, i: nat, last: int, runs: RunChoice, a: nat)
    requires 0 < a < |ps| && |out| == |ps| && i <= ps[a]
  {
    && |out[a - 1].chunks| > 0
    && LastAt(runs, i, last, ps[a]) == out[a - 1].chunks[|out[a - 1].chunks| - 1].chunkIndex
  }

  lemma {:induction false} ProcessFromLast(es: seq<VerseEntry>, i: nat, last: int, runs: RunChoice)
    ensures LastsChain(ProcessFrom(es, i, last, runs), Emitted(es, i, last, runs), i, last, runs)
    decreases |es| - i
  {
    if i < |es| {
      var run := runs(i, last);
      var next := NextLast(runs, i, last);
      ProcessFromLast(es, i + 1, next, runs);
      var rest, ps' := ProcessFrom(es, i + 1, next, runs), Emitted(es, i + 1, next, runs);
      if |run| > 0 {
        assert ProcessFrom(es, i, last, runs) == [SliceOf(es[i], run)] + rest;
        assert Emitted(es, i, last, runs) == [i] + ps';
        ConsLastsChain(rest, es, ps', i, last, runs);
      } else {
        assert ProcessFrom(es, i, last, runs) == rest;
        assert Emitted(es, i, last, runs) == ps';
        SkipLastsChain(rest, ps', i, last, runs);
      }
    }
  }

  lemma ConsLastsChain(rest: seq<VerseSlice>, es: seq<VerseEntry>, ps: seq<nat>, i: nat, last: int, runs: RunChoice)
    requires i < |es| && |runs(i, last)| > 0
    requires LastsChain(rest, ps, i + 1, NextLast(runs, i, last), runs)
    ensures LastsChain([SliceOf(es[i], runs(i, last))] + rest, [i] + ps, i, last, runs)
  {
    var out, ps2 := [SliceOf(es[i], runs(i, last))] + rest, [i] + ps;
    LastAtStep(runs, i, last);
    assert forall a :: 0 < a < |ps2| ==> ps2[a] == ps[a - 1];
    forall a | 0 < a < |ps2| ensures LastFollows(out, ps2, i, last, runs, a) {
      var b := a - 1;
      assert LastAt(runs, i, last, ps2[a]) == LastAt(runs, i + 1, NextLast(runs, i, last), ps[b]);
      if b > 0 {
        assert LastFollows(rest, ps, i + 1, NextLast(runs, i, last), runs, b);
        assert out[a - 1] == rest[b - 1];
      } else {
        assert out[0].chunks == runs(i, last);
      }
    }
  }

  lemma SkipLastsChain(rest: seq<VerseSlice>, ps: seq<nat>, i: nat, last: int, runs: RunChoice)
    requires |runs(i, last)| == 0
    requires LastsChain(rest, ps, i + 1, last, runs)
    ensures LastsChain(rest, ps, i, last, runs)
  {
    LastAtStep(runs, i, last);
    forall a | 0 < a < |ps| ensures LastFollows(rest, ps, i, last, runs, a) {
      assert LastFollows(rest, ps, i + 1, last, runs, a);
    }
  }

  /** The slices come from the loop over the verse entries at the sorted keys. */
  lemma CalculateTimestampsLoop(ms: seq<MatchedChunk>, ratio: (string, string) -> real)
    ensures var ps := Pairs(ms);
      var keys := SortKeys(KeyList(ps));
      var m := Pivot(ps);
      && (forall j :: 0 <= j < |keys| ==> keys[j] in m)
      && (forall k :: k in m ==> EntryKey(m[k]) == k && m[k].chunks == RefsFor(ps, k))
      && CalculateTimestamps(ms, ratio) == ProcessFrom(EntriesAt(keys, m), 0, -1, RunsOf(keys, m, ratio))
  {
    var ps := Pairs(ms);
    PivotKeys(ps);
    PivotEntryKeys(ps);
    forall k | k in Pivot(ps) ensures Pivot(ps)[k].chunks == RefsFor(ps, k) {
      PivotChunks(ps, k);
    }
  }

  /**
   * `x` is the slice of verse position `p`: it names the verse, carries its text fields,
   * and holds the verse's run after `last`.
   */
  ghost predicate IsVerseSlice(x: VerseSlice, keys: seq<Key>, m: map<Key, VerseEntry>, p: nat, last: int,
                               ratio: (string, string) -> real)
    requires forall j :: 0 <= j < |keys| ==> keys[j] in m
    requires p < |keys|
  {
    && SliceKey(x) == keys[p]
    && x.text == m[keys[p]].text
    && x.textNormalized == m[keys[p]].textNormalized
    && x.isBasmalah == m[keys[p]].isBasmalah
    && x.chunks == VerseRun(keys, m, p, last, ratio)
  }

  /**
   * The loop over the verses at `keys`: slice `a` is the slice of position `pos[a]` after
   * the running `last`, and a verse is left out only when its run after the running
   * `last` is empty.
   */
  lemma ProcessKeysExact(keys: seq<Key>, m: map<Key, VerseEntry>, ratio: (string, string) -> real)
    requires forall j :: 0 <= j < |keys| ==> keys[j] in m
    requires forall k :: k in m ==> EntryKey(m[k]) == k
    ensures var runs := RunsOf(keys, m, ratio);
      var pos := Emitted(EntriesAt(keys, m), 0, -1, runs);
      var out := ProcessFrom(EntriesAt(keys, m), 0, -1, runs);
      && PositionsWithin(pos, 0, |keys|)
      && |out| == |pos|
      && (forall a :: 0 <= a < |pos| ==> IsVerseSlice(out[a], keys, m, pos[a], LastAt(runs, 0, -1, pos[a]), ratio))
      && (forall j :: 0 <= j < |keys| && |VerseRun(keys, m, j, LastAt(runs, 0, -1, j), ratio)| > 0 ==>
            j in pos)
      && LastsChain(out, pos, 0, -1, runs)
  {
    var es := EntriesAt(keys, m);
    var runs := RunsOf(keys, m, ratio);
    EmittedAscend(es, 0, -1, runs);
    EmittedComplete(es, 0, -1, runs);
    ProcessFromSlices(es, 0, -1, runs);
    ProcessFromLast(es, 0, -1, runs);
    KeySlices(keys, m, ratio, ProcessFrom(es, 0, -1, runs), Emitted(es, 0, -1, runs));
    KeysComplete(keys, m, ratio, Emitted(es, 0, -1, runs));
  }

  /** The slices `SlicesAt` describes, restated per verse key. */
  lemma KeySlices(keys: seq<Key>, m: map<Key, VerseEntry>, ratio: (string, string) -> real,
                  out: seq<VerseSlice>, pos: seq<nat>)
    requires forall j :: 0 <= j < |keys| ==> keys[j] in m
    requires forall k :: k in m ==> EntryKey(m[k]) == k
    requires SlicesAt(out, EntriesAt(keys, m), pos, 0, -1, RunsOf(keys, m, ratio))
    ensures forall a :: 0 <= a < |pos| ==>
      && pos[a] < |keys|
      && IsVerseSlice(out[a], keys, m, pos[a], LastAt(RunsOf(keys, m, ratio), 0, -1, pos[a]), ratio)
  {
    var es := EntriesAt(keys, m);
    var runs := RunsOf(keys, m, ratio);
    forall a | 0 <= a < |pos|
      ensures pos[a] < |keys| && IsVerseSlice(out[a], keys, m, pos[a], LastAt(runs, 0, -1, pos[a]), ratio)
    {
      var p := pos[a];
      var last := LastAt(runs, 0, -1, p);
      assert p < |keys|;
      assert runs(p, last) == VerseRun(keys, m, p, last, ratio);
      assert out[a] == SliceOf(es[p], VerseRun(keys, m, p, last, ratio));
      assert es[p] == m[keys[p]];
    }
  }

  /** Completeness of the emitted positions, restated per verse key. */
  lemma KeysComplete(keys: seq<Key>, m: map<Key, VerseEntry>, ratio: (string, string) -> real, pos: seq<nat>)
    requires forall j :: 0 <= j < |keys| ==> keys[j] in m
    requires forall j: nat :: j < |keys| && |RunsOf(keys, m, ratio)(j, LastAt(RunsOf(keys, m, ratio), 0, -1, j))| > 0 ==>
      j in pos
    ensures forall j :: 0 <= j < |keys| && |VerseRun(keys, m, j, LastAt(RunsOf(keys, m, ratio), 0, -1, j), ratio)| > 0 ==>
      j in pos
  {
    var runs := RunsOf(keys, m, ratio);
    forall j | 0 <= j < |keys| && |VerseRun(keys, m, j, LastAt(runs, 0, -1, j), ratio)| > 0 ensures j in pos {
      assert runs(j, LastAt(runs, 0, -1, j)) == VerseRun(keys, m, j, LastAt(runs, 0, -1, j), ratio);
    }
  }

  /**
   * `TimestampCalculationStep.process`, slice by slice. With `keys` the sorted verse keys,
   * `m` the entries filed under them and `pos` the positions whose run is kept: each
   * entry holds exactly its verse's chunk references, slice `a` is the slice of verse
   * `keys[pos[a]]`, its run is taken after the running `last` (-1 for the first slice and
   * the last chunk index of the slice before for every later one), and a verse is left
   * out only when that run is empty.
   */
  lemma CalculateTimestampsExact(ms: seq<MatchedChunk>, ratio: (string, string) -> real)
    ensures var ps := Pairs(ms);
      var keys := SortKeys(KeyList(ps));
      var m := Pivot(ps);
      && (forall j :: 0 <= j < |keys| ==> keys[j] in m)
      && (forall k :: k in m ==> m[k].chunks == RefsFor(ps, k))
      && var runs := RunsOf(keys, m, ratio);
         var pos := Emitted(EntriesAt(keys, m), 0, -1, runs);
         var out := CalculateTimestamps(ms, ratio);
         && PositionsWithin(pos, 0, |keys|)
         && |out| == |pos|
         && (forall a :: 0 <= a < |pos| ==>
               IsVerseSlice(out[a], keys, m, pos[a], LastAt(runs, 0, -1, pos[a]), ratio))
         && (forall j :: 0 <= j < |keys| && |VerseRun(keys, m, j, LastAt(runs, 0, -1, j), ratio)| > 0 ==>
               j in pos)
         && LastsChain(out, pos, 0, -1, runs)
  {
    CalculateTimestampsLoop(ms, ratio);
    var ps := Pairs(ms);
    ProcessKeysExact(SortKeys(KeyList(ps)), Pivot(ps), ratio);
  }

  predicate KeyLe(x: Key, y: Key) {
    x == y || KeyLess(x, y)
  }

  /** Every slice names one of the keys, none below the one at position `i`. */
  predicate KeysWithin(out: seq<VerseSlice>, keys: seq<Key>, i: nat) {
    forall a :: 0 <= a < |out| ==>
      SliceKey(out[a]) in keys && (i < |keys| ==> KeyLe(keys[i], SliceKey(out[a])))
  }

  predicate SlicesAscend(out: seq<VerseSlice>) {
    forall a, b :: 0 <= a < b < |out| ==> KeyLess(SliceKey(out[a]), SliceKey(out[b]))
  }

  lemma ConsKeys(x: VerseSlice, rest: seq<VerseSlice>, keys: seq<Key>, i: nat)
    requires i < |keys| && Ascending(keys) && SliceKey(x) == keys[i]
    requires KeysWithin(rest, keys, i + 1) && SlicesAscend(rest)
    requires i + 1 == |keys| ==> rest == []
    ensures KeysWithin([x] + rest, keys, i) && SlicesAscend([x] + rest)
  {
    var out := [x] + rest;
    assert forall a :: 0 < a < |out| ==> out[a] == rest[a - 1];
    if i + 1 < |keys| {
      assert KeyLess(keys[i], keys[i + 1]);
    }
  }

  lemma SkipKeys(rest: seq<VerseSlice>, keys: seq<Key>, i: nat)
    requires i < |keys| && Ascending(keys) && KeysWithin(rest, keys, i + 1)
    requires i + 1 == |keys| ==> rest == []
    ensures KeysWithin(rest, keys, i)
  {
    if i + 1 < |keys| {
      assert KeyLess(keys[i], keys[i + 1]);
    }
  }

  /** `keys` ascend and name the entries of `es`, position by position. */
  predicate Indexes(keys: seq<Key>, es: seq<VerseEntry>) {
    && |keys| == |es|
    && Ascending(keys)
    && forall j :: 0 <= j < |es| ==> EntryKey(es[j]) == keys[j]
  }

  /** The emitted verses are a selection of the sorted keys, so they ascend by (surah, ayah). */
  lemma {:induction false} ProcessKeysAscend(keys: seq<Key>, es: seq<VerseEntry>, i: nat, last: int,
                                             runs: RunChoice)
    requires Indexes(keys, es) && i <= |es|
    ensures KeysWithin(ProcessFrom(es, i, last, runs), keys, i)
    ensures SlicesAscend(ProcessFrom(es, i, last, runs))
    decreases |es| - i
  {
    if i < |es| {
      var run := runs(i, last);
      ProcessKeysAscend(keys, es, i + 1, NextLast(runs, i, last), runs);
      if |run| == 0 {
        SkipKeys(ProcessFrom(es, i + 1, last, runs), keys, i);
      } else {
        var x := SliceOf(es[i], run);
        assert SliceKey(x) == EntryKey(es[i]);
        ConsKeys(x, ProcessFrom(es, i + 1, run[|run| - 1].chunkIndex, runs), keys, i);
      }
    }
  }

  /** Each entry of the pivot is filed under its own verse. */
  lemma {:induction false} PivotEntryKeys(ps: seq<(Ayah, ChunkRef)>)
    ensures forall k :: k in Pivot(ps) ==> EntryKey(Pivot(ps)[k]) == k
    decreases |ps|
  {
    if |ps| > 0 {
      PivotEntryKeys(ps[..|ps| - 1]);
    }
  }

  // ---------------------------------------------------------------------------
  // The consecutiveness check

  /** The last `n` words of `pw` open `cw`, for some `n` from 1 to 10. */
  ghost predicate SharesBoundary(pw: seq<string>, cw: seq<string>) {
    exists n :: 1 <= n <= 10 && DuplicateRemoval.Overlaps(pw, cw, n)
  }

  /** `c` occurs in `full` at or after position `e`. */
  ghost predicate FoundAfter(full: string, c: string, e: nat) {
    exists q :: e <= q && OccursAt(full, c, q)
  }

  /**
   * The check in full: both texts have words, and either the previous text's last words
   * (at most ten) open the current one, or the ayah context is non-empty, the previous
   * text is located in it, and the current text occurs after it or a window after it
   * scores at least the threshold. The source's final `pos >= prev_end` test always
   * holds, since the search starts there.
   */
  lemma ConsecutiveIff(p: string, c: string, prevAyah: Option<string>, curAyah: string,
                       nextAyah: Option<string>, ratio: (string, string) -> real)
    ensures AreChunksConsecutive(p, c, prevAyah, curAyah, nextAyah, ratio) <==>
      && |Split(p)| > 0 && |Split(c)| > 0
      && (|| SharesBoundary(Split(p), Split(c))
          || (&& |ContextParts(prevAyah, curAyah, nextAyah)| > 0
              && PrevEnd(p, Join(ContextParts(prevAyah, curAyah, nextAyah), " "), ratio).Some?
              && (|| FoundAfter(Join(ContextParts(prevAyah, curAyah, nextAyah), " "), c,
                                PrevEnd(p, Join(ContextParts(prevAyah, curAyah, nextAyah), " "), ratio).value)
                  || FirstMatch(c, Split(Join(ContextParts(prevAyah, curAyah, nextAyah), " ")),
                                |Split(Prefix(Join(ContextParts(prevAyah, curAyah, nextAyah), " "),
                                              PrevEnd(p, Join(ContextParts(prevAyah, curAyah, nextAyah), " "), ratio).value))|,
                                |Split(c)|, ratio).Some?)))
  {
    var pw := Split(p);
    var cw := Split(c);
    if |p| == 0 || |c| == 0 {
      assert |pw| == 0 || |cw| == 0;
    } else if |pw| > 0 && |cw| > 0 {
      var j := Min3(|pw|, |cw|, 10);
      var k := DuplicateRemoval.OverlapUpTo(pw, cw, j);
      if SharesBoundary(pw, cw) {
        var n :| 1 <= n <= 10 && DuplicateRemoval.Overlaps(pw, cw, n);
        assert n <= j;
      }
      if k > 0 {
        assert SharesBoundary(pw, cw);
      }
      var parts := ContextParts(prevAyah, curAyah, nextAyah);
      if |parts| > 0 {
        var full := Join(parts, " ");
        match PrevEnd(p, full, ratio)
        case None =>
        case Some(e) =>
          var pos := FindFrom(full, c, e);
          if pos != -1 {
            assert FoundAfter(full, c, e);
          }
      }
    }
  }

  /** Repeated boundary words alone make two chunks consecutive, whatever the context. */
  lemma ConsecutiveOverlap(p: string, c: string, prevAyah: Option<string>, curAyah: string,
                           nextAyah: Option<string>, ratio: (string, string) -> real, n: int)
    requires 1 <= n <= 10 && DuplicateRemoval.Overlaps(Split(p), Split(c), n)
    ensures AreChunksConsecutive(p, c, prevAyah, curAyah, nextAyah, ratio)
  {
    ConsecutiveIff(p, c, prevAyah, curAyah, nextAyah, ratio);
  }

  /** Without repeated boundary words and without ayah context, chunks are not consecutive. */
  lemma ConsecutiveNeedsContext(p: string, c: string, ratio: (string, string) -> real)
    requires forall n :: 1 <= n <= 10 ==> !DuplicateRemoval.Overlaps(Split(p), Split(c), n)
    ensures !AreChunksConsecutive(p, c, None, "", None, ratio)
  {
    ConsecutiveIff(p, c, None, "", None, ratio);
  }
}
