/**
 * The reference-text helpers of `QuranData`: Arabic normalisation, word counting,
 * the `surah|ayah|text` line format of the Uthmani file, verse lookup with
 * fallbacks, and the `HH:MM:SS.mmm` formatter.
 */
module QuranData {
  import opened Wrappers
  import opened Text
  import opened Numbers
  import opened Timestamps

  // ---------------------------------------------------------------------------
  // Normalisation

  /** The diacritics and Quranic marks the normalising regex deletes. */
  predicate IsMark(c: char) {
    || ('\U{064B}' <= c <= '\U{065F}')
    || c == '\U{0670}'
    || ('\U{0610}' <= c <= '\U{061A}')
    || ('\U{06D6}' <= c <= '\U{06ED}')
  }

  predicate NotMark(c: char) {
    !IsMark(c)
  }

  /** Hamza-carrying alefs (U+0623, U+0625, U+0622) and taa marbuta (U+0629). */
  predicate IsFoldable(c: char) {
    c == '\U{0623}' || c == '\U{0625}' || c == '\U{0622}' || c == '\U{0629}'
  }

  /** The letter replacements: each alef variant becomes bare alef, taa marbuta becomes haa. */
  function FoldChar(c: char): (r: char)
    ensures !IsFoldable(r)
    ensures IsMark(r) == IsMark(c) && IsSpace(r) == IsSpace(c)
  {
    if c == '\U{0623}' || c == '\U{0625}' || c == '\U{0622}' then '\U{0627}'
    else if c == '\U{0629}' then '\U{0647}'
    else c
  }

  /** A character `normalize_arabic_text` may emit: no mark, no foldable letter. */
  predicate Normal(c: char) {
    !IsMark(c) && !IsFoldable(c)
  }

  /** The text after mark deletion and letter folding, before whitespace clean-up. */
  function Folded(t: string): string {
    Map(FoldChar, Filter(NotMark, t))
  }

  /** `normalize_arabic_text`. */
  function Normalize(t: string): (r: string)
    ensures Canonical(r)
  {
    if |t| == 0 then ""
    else
      var j := Join(Split(Folded(t)), " ");
      JoinSplitCanonical(Folded(t));
      CanonicalEdges(j);
      StripNoEdges(j);
      Strip(j)
  }

  /** The output is the words of the folded text, single-spaced, nothing at the ends. */
  lemma NormalizeWords(t: string)
    ensures Normalize(t) == Join(Split(Folded(t)), " ")
    ensures Split(Normalize(t)) == Split(Folded(t))
    ensures |Normalize(t)| > 0 ==> !IsSpace(Normalize(t)[0]) && !IsSpace(Normalize(t)[|Normalize(t)| - 1])
  {
    if |t| > 0 {
      var j := Join(Split(Folded(t)), " ");
      JoinSplitCanonical(Folded(t));
      CanonicalEdges(j);
      StripNoEdges(j);
    } else {
      assert Folded(t) == "";
    }
    SplitJoin(Split(Folded(t)));
    CanonicalEdges(Normalize(t));
  }

  lemma FoldedNormal(t: string)
    ensures AllChars(Normal, Folded(t))
  {
    var f := Filter(NotMark, t);
    FilterChars(NotMark, t);
    assert AllChars(NotMark, f);
    forall i | 0 <= i < |Folded(t)|
      ensures Normal(Folded(t)[i])
    {
      assert Folded(t)[i] == FoldChar(f[i]);
      assert NotMark(f[i]);
    }
  }

  /** No mark, hamza-alef or taa marbuta survives normalisation. */
  lemma NormalizeNoMarks(t: string)
    ensures AllChars(Normal, Normalize(t))
  {
    NormalizeWords(t);
    FoldedNormal(t);
    JoinSplitChars(Folded(t), Normal);
  }

  /**
   * Apart from whitespace, the output is exactly the input's non-mark characters,
   * in order, each folded; everything outside the mark ranges, tatweel included, is kept.
   */
  lemma NormalizeKeeps(t: string)
    ensures Filter(NotSpace, Normalize(t)) == Map(FoldChar, Filter(Both(NotMark, NotSpace), t))
  {
    NormalizeWords(t);
    var f := Folded(t);
    FilterJoin(Split(f));
    ConcatSplit(f);
    FilterMap(FoldChar, Filter(NotMark, t));
    FilterFilter(NotMark, NotSpace, t);
  }

  /** Normalising a normalised text changes nothing. */
  lemma NormalizeIdempotent(t: string)
    ensures Normalize(Normalize(t)) == Normalize(t)
  {
    var r := Normalize(t);
    if |r| > 0 {
      NormalizeNoMarks(t);
      FilterAll(NotMark, r);
      MapIdentity(FoldChar, r);
      assert Folded(r) == r;
      NormalizeWords(r);
    }
  }

  // ---------------------------------------------------------------------------
  // Word counting

  /** `count_words`: the number of whitespace-separated tokens of the stripped text. */
  function CountWords(t: string): (n: nat)
    ensures n == |Split(t)|
  {
    SplitStrip(t);
    |Split(Strip(t))|
  }

  /** Normalisation can merge words (a lone mark between spaces vanishes) but never adds one. */
  lemma NormalizeFewerWords(t: string)
    ensures CountWords(Normalize(t)) <= CountWords(t)
  {
    NormalizeWords(t);
    SplitMapCount(FoldChar, Filter(NotMark, t));
    SplitFilterFewer(NotMark, t);
  }

  // ---------------------------------------------------------------------------
  // Verse keys, the Uthmani line format and lookup

  /** The dictionary key `f"{surah}:{ayah}"`. */
  function VerseKey(surah: int, ayah: int): string {
    IntToString(surah) + ":" + IntToString(ayah)
  }

  lemma FormatIntNoColon(n: int, width: nat)
    ensures forall i :: 0 <= i < |FormatInt(n, width)| ==> FormatInt(n, width)[i] != ':'
  {
  }

  /** Reads a verse key back into its two numbers. */
  function ParseKey(key: string): Option<(int, int)> {
    var parts := SplitOn(key, ':');
    if |parts| != 2 then None
    else
      match (ParseInt(parts[0]), ParseInt(parts[1]))
      case (Some(s), Some(a)) => Some((s, a))
      case _ => None
  }

  lemma SplitVerseKey(surah: int, ayah: int)
    ensures SplitOn(VerseKey(surah, ayah), ':') == [IntToString(surah), IntToString(ayah)]
  {
    FormatIntNoColon(surah, 0);
    FormatIntNoColon(ayah, 0);
    assert VerseKey(surah, ayah) == IntToString(surah) + [':'] + IntToString(ayah);
    SplitOnCons(IntToString(surah), ':', IntToString(ayah));
    SplitOnNone(IntToString(ayah), ':');
  }

  lemma ParseVerseKey(surah: int, ayah: int)
    ensures ParseKey(VerseKey(surah, ayah)) == Some((surah, ayah))
  {
    SplitVerseKey(surah, ayah);
    ParseFormatInt(surah, 0);
    ParseFormatInt(ayah, 0);
  }

  /** Distinct verses never share a key. */
  lemma VerseKeyInjective(s1: int, a1: int, s2: int, a2: int)
    requires VerseKey(s1, a1) == VerseKey(s2, a2)
    ensures s1 == s2 && a1 == a2
  {
    ParseVerseKey(s1, a1);
    ParseVerseKey(s2, a2);
  }

  /**
   * One line of the Uthmani file (the body of the loop in `_load_uthmani_text`):
   * blank and '#' lines are skipped, the rest must split on '|' into exactly three
   * fields whose first two are integers; the result is the verse key and the text.
   */
  function ParseLine(line: string): (r: Option<(string, string)>)
    ensures r.Some? ==> |Strip(line)| > 0 && Strip(line)[0] != '#'
    ensures r.Some? ==> |SplitOn(Strip(line), '|')| == 3 && r.value.1 == SplitOn(Strip(line), '|')[2]
  {
    var t := Strip(line);
    if |t| == 0 || t[0] == '#' then None
    else
      var parts := SplitOn(t, '|');
      if |parts| != 3 then None
      else
        match (ParseInt(parts[0]), ParseInt(parts[1]))
        case (Some(s), Some(a)) => Some((VerseKey(s, a), parts[2]))
        case _ => None
  }

  /** A line as the Uthmani file writes it. */
  function FormatLine(surah: nat, ayah: nat, text: string): string {
    NatToDigits(surah) + "|" + NatToDigits(ayah) + "|" + text
  }

  lemma FormatLineStrip(surah: nat, ayah: nat, text: string)
    requires |text| == 0 || !IsSpace(text[|text| - 1])
    ensures Strip(FormatLine(surah, ayah, text)) == FormatLine(surah, ayah, text)
    ensures FormatLine(surah, ayah, text)[0] != '#'
  {
    var line := FormatLine(surah, ayah, text);
    var ds := NatToDigits(surah);
    assert line[0] == ds[0] && IsDigit(ds[0]);
    assert |text| > 0 ==> line[|line| - 1] == text[|text| - 1];
    assert !IsSpace(line[|line| - 1]);
    StripNoEdges(line);
  }

  lemma SplitFormatLine(surah: nat, ayah: nat, text: string)
    requires forall i :: 0 <= i < |text| ==> text[i] != '|'
    ensures SplitOn(FormatLine(surah, ayah, text), '|') == [NatToDigits(surah), NatToDigits(ayah), text]
  {
    var ds := NatToDigits(surah);
    var da := NatToDigits(ayah);
    assert FormatLine(surah, ayah, text) == ds + ['|'] + (da + ['|'] + text);
    assert forall i :: 0 <= i < |ds| ==> IsDigit(ds[i]);
    assert forall i :: 0 <= i < |da| ==> IsDigit(da[i]);
    SplitOnCons(ds, '|', da + ['|'] + text);
    SplitOnCons(da, '|', text);
    SplitOnNone(text, '|');
  }

  /** A stripped, uncommented line of three fields whose first two are integers is accepted. */
  lemma ParseLineFields(line: string, a: string, b: string, c: string, x: int, y: int)
    requires |line| > 0 && Strip(line) == line && line[0] != '#'
    requires SplitOn(line, '|') == [a, b, c] && ParseInt(a) == Some(x) && ParseInt(b) == Some(y)
    ensures ParseLine(line) == Some((VerseKey(x, y), c))
  {
  }

  /** Reading back a well-formed line gives its verse key and its text. */
  lemma ParseFormatLine(surah: nat, ayah: nat, text: string)
    requires forall i :: 0 <= i < |text| ==> text[i] != '|'
    requires |text| == 0 || !IsSpace(text[|text| - 1])
    ensures ParseLine(FormatLine(surah, ayah, text)) == Some((VerseKey(surah, ayah), text))
  {
    FormatLineStrip(surah, ayah, text);
    SplitFormatLine(surah, ayah, text);
    assert Pad(surah, 0) == NatToDigits(surah);
    assert Pad(ayah, 0) == NatToDigits(ayah);
    ParsePad(surah, 0);
    ParsePad(ayah, 0);
    ParseLineFields(FormatLine(surah, ayah, text), NatToDigits(surah), NatToDigits(ayah), text, surah, ayah);
  }

  /** Each line of the file, parsed. */
  function ParsedLines(lines: seq<string>): (es: seq<Option<(string, string)>>)
    ensures |es| == |lines|
    decreases |lines|
  {
    if |lines| == 0 then [] else ParsedLines(lines[..|lines| - 1]) + [ParseLine(lines[|lines| - 1])]
  }

  lemma {:induction false} ParsedAt(lines: seq<string>, i: int)
    requires 0 <= i < |lines|
    ensures ParsedLines(lines)[i] == ParseLine(lines[i])
    decreases |lines|
  {
    if i < |lines| - 1 {
      ParsedAt(lines[..|lines| - 1], i);
    }
  }

  /** Entry `i` was accepted with key `k`. */
  predicate HasKey(es: seq<Option<(string, string)>>, i: int, k: string) {
    0 <= i < |es| && es[i].Some? && es[i].value.0 == k
  }

  /** Entry `i` is the last of the first `n` entries with key `k`. */
  predicate LastFor(es: seq<Option<(string, string)>>, i: int, k: string, n: int) {
    HasKey(es, i, k) && i < n && forall j :: i < j < n ==> !HasKey(es, j, k)
  }

  /** Some of the first `n` entries was accepted with key `k`. */
  ghost predicate Accepted(es: seq<Option<(string, string)>>, k: string, n: int) {
    exists i :: HasKey(es, i, k) && i < n
  }

  /** What the dictionary holds after the first `n` entries. */
  ghost predicate Loaded(es: seq<Option<(string, string)>>, n: int, m: map<string, string>) {
    && (forall k :: k in m <==> Accepted(es, k, n))
    && (forall i, k :: LastFor(es, i, k, n) ==> k in m && m[k] == es[i].value.1)
  }

  /** The dictionary invariant survives an accepted entry, which overwrites its key. */
  lemma AcceptEntry(es: seq<Option<(string, string)>>, n: int, n': int, m: map<string, string>)
    requires 0 <= n < |es| && n' == n + 1 && es[n].Some?
    requires Loaded(es, n, m)
    ensures Loaded(es, n', m[es[n].value.0 := es[n].value.1])
  {
    var (k, v) := es[n].value;
    var m' := m[k := v];
    assert HasKey(es, n, k);
    forall k' | k' in m'
      ensures Accepted(es, k', n')
    {
      if k' != k {
        var i :| HasKey(es, i, k') && i < n;
        assert HasKey(es, i, k') && i < n';
      }
    }
    forall i, k' | LastFor(es, i, k', n')
      ensures k' in m' && m'[k'] == es[i].value.1
    {
      if i < n {
        assert !HasKey(es, n, k');
        assert LastFor(es, i, k', n);
      }
    }
  }

  /** The dictionary invariant survives a skipped entry. */
  lemma SkipEntry(es: seq<Option<(string, string)>>, n: int, n': int, m: map<string, string>)
    requires 0 <= n < |es| && n' == n + 1 && es[n].None?
    requires Loaded(es, n, m)
    ensures Loaded(es, n', m)
  {
    forall i, k | LastFor(es, i, k, n')
      ensures LastFor(es, i, k, n)
    {
    }
  }

  /** One line of `_load_uthmani_text`: an accepted line sets its key, any other line changes nothing. */
  method LoadLine(line: string, ghost es: seq<Option<(string, string)>>, n: int, m: map<string, string>)
    returns (m': map<string, string>)
    requires 0 <= n < |es| && es[n] == ParseLine(line) && Loaded(es, n, m)
    ensures Loaded(es, n + 1, m')
  {
    var parsed := ParseLine(line);
    if parsed.Some? {
      AcceptEntry(es, n, n + 1, m);
      m' := m[parsed.value.0 := parsed.value.1];
    } else {
      SkipEntry(es, n, n + 1, m);
      m' := m;
    }
  }

  /**
   * `_load_uthmani_text` over the lines of the file: a key is present iff some line
   * is accepted with it, and it maps to the text of the last such line.
   */
  method LoadUthmani(lines: seq<string>) returns (m: map<string, string>)
    ensures forall k :: k in m <==> Accepted(ParsedLines(lines), k, |lines|)
    ensures forall i, k :: LastFor(ParsedLines(lines), i, k, |lines|) ==> k in m && m[k] == ParsedLines(lines)[i].value.1
  {
    ghost var es := ParsedLines(lines);
    m := map[];
    var n := 0;
    while n < |lines|
      invariant 0 <= n <= |lines|
      invariant Loaded(es, n, m)
    {
      ParsedAt(lines, n);
      m := LoadLine(lines[n], es, n, m);
      n := n + 1;
    }
  }

  /** `get_verse_with_tashkeel`: Uthmani text, else the secondary source, else a placeholder. */
  function VerseWithTashkeel(uthmani: map<string, string>, pyquran: map<string, string>, surah: int, ayah: int): (r: string)
    ensures VerseKey(surah, ayah) in uthmani ==> r == uthmani[VerseKey(surah, ayah)]
    ensures VerseKey(surah, ayah) !in uthmani && VerseKey(surah, ayah) in pyquran ==> r == pyquran[VerseKey(surah, ayah)]
    ensures VerseKey(surah, ayah) !in uthmani && VerseKey(surah, ayah) !in pyquran ==>
      r == "[Verse " + IntToString(surah) + ":" + IntToString(ayah) + "]"
  {
    var key := VerseKey(surah, ayah);
    if key in uthmani then uthmani[key]
    else if key in pyquran then pyquran[key]
    else "[Verse " + VerseKey(surah, ayah) + "]"
  }

  /** After loading, the lookup returns the text of the last line written for the verse. */
  method LookupLoaded(lines: seq<string>, pyquran: map<string, string>, surah: nat, ayah: nat, text: string) returns (r: string)
    requires forall i :: 0 <= i < |text| ==> text[i] != '|'
    requires |text| == 0 || !IsSpace(text[|text| - 1])
    requires |lines| > 0 && lines[|lines| - 1] == FormatLine(surah, ayah, text)
    ensures r == text
  {
    var m := LoadUthmani(lines);
    ParseFormatLine(surah, ayah, text);
    ParsedAt(lines, |lines| - 1);
    assert LastFor(ParsedLines(lines), |lines| - 1, VerseKey(surah, ayah), |lines|);
    r := VerseWithTashkeel(m, pyquran, surah, ayah);
  }

  // ---------------------------------------------------------------------------
  // Timestamps

  /**
   * `_format_timestamp` for a whole number of milliseconds: hours, minutes and
   * seconds zero-padded to two digits and milliseconds to three.
   */
  function FormatTimestamp(ms: nat): (r: string)
    ensures |r| >= 12
  {
    var hours := ms / 3600000;
    var minutes := (ms % 3600000) / 60000;
    var secs := (ms % 60000) / 1000;
    Pad(hours, 2) + ":" + Pad(minutes, 2) + ":" + Pad(secs, 2) + "." + Pad(ms % 1000, 3)
  }

  lemma MinuteRemainder(ms: nat)
    ensures ms % 3600000 % 60000 == ms % 60000
  {
    var h := ms / 3600000;
    assert ms == h * 60 * 60000 + ms % 3600000;
  }

  lemma SecondRemainder(ms: nat)
    ensures ms % 60000 % 1000 == ms % 1000
  {
    var m := ms / 60000;
    assert ms == m * 60 * 1000 + ms % 60000;
  }

  lemma TimeDecompose(ms: nat)
    ensures (ms / 3600000 * 3600 + (ms % 3600000) / 60000 * 60 + (ms % 60000) / 1000) * 1000 + ms % 1000 == ms
  {
    MinuteRemainder(ms);
    SecondRemainder(ms);
    var r := ms % 3600000;
    var r2 := ms % 60000;
    assert ms == ms / 3600000 * 3600000 + r;
    assert r == r / 60000 * 60000 + r2;
    assert r2 == r2 / 1000 * 1000 + ms % 1000;
  }

  lemma NoDots(s: string)
    requires AllDigits(s)
    ensures forall i :: 0 <= i < |s| ==> s[i] != '.' && s[i] != ':'
  {
  }

  lemma ClockRegroup(a: string, b: string, c: string, f: string)
    ensures a + ":" + b + ":" + c + "." + f == (a + ":" + b + ":" + c) + ['.'] + f
    ensures a + ":" + b + ":" + c == a + [':'] + (b + [':'] + c)
  {
    assert ":" == [':'] && "." == ['.'];
    assert a + ":" + b + ":" + c == a + [':'] + (b + [':'] + c) by {
      var x := a + [':'];
      assert x + b + [':'] + c == x + (b + [':'] + c);
    }
  }

  lemma SplitClock(a: string, b: string, c: string, f: string)
    requires AllDigits(a) && AllDigits(b) && AllDigits(c) && AllDigits(f)
    ensures SplitOn(a + ":" + b + ":" + c + "." + f, '.') == [a + ":" + b + ":" + c, f]
    ensures SplitOn(a + ":" + b + ":" + c, ':') == [a, b, c]
  {
    NoDots(a);
    NoDots(b);
    NoDots(c);
    NoDots(f);
    var hms := a + ":" + b + ":" + c;
    ClockRegroup(a, b, c, f);
    assert forall i :: 0 <= i < |hms| ==> hms[i] != '.';
    SplitOnCons(hms, '.', f);
    SplitOnNone(f, '.');
    SplitOnCons(a, ':', b + [':'] + c);
    SplitOnCons(b, ':', c);
    SplitOnNone(c, ':');
  }

  lemma FormatFields(ms: nat)
    ensures TimestampFields(FormatTimestamp(ms)) ==
      Some((ms / 3600000, (ms % 3600000) / 60000, (ms % 60000) / 1000, ms % 1000))
  {
    var ph := Pad(ms / 3600000, 2);
    var pm := Pad((ms % 3600000) / 60000, 2);
    var ps := Pad((ms % 60000) / 1000, 2);
    var pf := Pad(ms % 1000, 3);
    SplitClock(ph, pm, ps, pf);
    ParsePad(ms / 3600000, 2);
    ParsePad((ms % 3600000) / 60000, 2);
    ParsePad((ms % 60000) / 1000, 2);
    ParsePad(ms % 1000, 3);
  }

  /** The formatter's output reads back, through `_parse_timestamp`, as the same milliseconds. */
  lemma FormatParseTimestamp(ms: nat)
    ensures ParseTimestamp(FormatTimestamp(ms)) == ms
  {
    FormatFields(ms);
    TimeDecompose(ms);
  }
}
