/**
 * The naming rules both audio splitters share: one file per ayah named
 * `surah_XXX_ayah_YYY{ext}` (basmala as `surah_XXX_ayah_000_basmala{ext}`), the surah
 * number of the whole archive, and the archive's own name.
 */
module AyahFiles {
  import opened Wrappers
  import opened Text
  import opened Numbers

  /**
   * One entry of `ayah_details`, as far as the splitters read it; the optional
   * fields are the keys read with `.get`.
   */
  datatype AyahDetail = AyahDetail(surahNumber: int, ayahNumber: int, isBasmala: bool,
                                   startTimestamp: string, endTimestamp: string,
                                   textTashkeel: string, wordCount: Option<int>,
                                   startFromWord: Option<int>, endToWord: Option<int>)

  /** The extensions the splitters export natively; anything else is written as WAV. */
  predicate KnownExt(ext: string) {
    ext == ".mp3" || ext == ".wav" || ext == ".m4a" || ext == ".ogg" || ext == ".flac"
  }

  /** The ayah number the metadata records: 0 for the basmala. */
  function MetadataAyah(d: AyahDetail): int {
    if d.isBasmala then 0 else d.ayahNumber
  }

  /** The ayah field of a file name: `000_basmala` for the basmala. */
  function AyahField(d: AyahDetail): string {
    if d.isBasmala then "000_basmala" else FormatInt(d.ayahNumber, 3)
  }

  /** The file name before the extension. */
  function BaseName(d: AyahDetail): string {
    "surah_" + FormatInt(d.surahNumber, 3) + "_ayah_" + AyahField(d)
  }

  /**
   * The name an ayah's file gets in the archive: for an extension that is not exported
   * natively the segment is written as WAV and the name's extension text is replaced.
   */
  function FileName(d: AyahDetail, ext: string): string {
    if KnownExt(ext) then BaseName(d) + ext else Replace(BaseName(d) + ext, ext, ".wav")
  }

  /**
   * An extension as `Path(...).suffix.lower()` yields it: empty for a name without a
   * dot, otherwise a dot followed by at least one character, none of them a dot.
   */
  predicate SuffixExt(ext: string) {
    ext == "" || (|ext| >= 2 && ext[0] == '.' && forall i :: 1 <= i < |ext| ==> ext[i] != '.')
  }

  // ---------------------------------------------------------------------------
  // Surah number and archive name

  /** The surah of the first ayah that is not a basmala. */
  function FirstRegular(ds: seq<AyahDetail>): (r: Option<int>)
    ensures r.Some? <==> exists j :: 0 <= j < |ds| && !ds[j].isBasmala
    decreases |ds|
  {
    if |ds| == 0 then None
    else if !ds[0].isBasmala then Some(ds[0].surahNumber)
    else
      var r := FirstRegular(ds[1..]);
      assert forall j :: 0 < j < |ds| ==> ds[j] == ds[1..][j - 1];
      r
  }

  /**
   * The archive's surah number: the first non-basmala ayah's, unless there is none or
   * it is 0 (falsy), in which case the first ayah's; `None` for no ayahs at all.
   */
  function SurahNumber(ds: seq<AyahDetail>): (r: Option<int>)
    ensures r.None? <==> |ds| == 0
  {
    var s := FirstRegular(ds);
    if s.Some? && s.value != 0 then s
    else if |ds| > 0 then Some(ds[0].surahNumber)
    else None
  }

  /** `f"surah_{surah_num:03d}_ayahs.zip"`, which raises when there is no surah number. */
  function ZipName(ds: seq<AyahDetail>): (r: Option<string>)
    ensures r.None? <==> |ds| == 0
  {
    match SurahNumber(ds)
    case None => None
    case Some(s) => Some("surah_" + FormatInt(s, 3) + "_ayahs.zip")
  }

  // ---------------------------------------------------------------------------
  // Properties

  lemma FormatIntPlain(n: int, width: nat)
    ensures forall i :: 0 <= i < |FormatInt(n, width)| ==>
      FormatInt(n, width)[i] != '_' && FormatInt(n, width)[i] != '.'
  {
  }

  /** The file name in its parts: the surah field, then the ayah field and extension. */
  lemma NameParts(d: AyahDetail, ext: string) returns (t: string)
    requires SuffixExt(ext) && ext != ""
    ensures FileName(d, ext) == "surah_" + (FormatInt(d.surahNumber, 3) + ['_'] + ("ayah_" + t))
    ensures d.isBasmala ==> t == "000_basmala" + FileExt(ext)
    ensures !d.isBasmala ==> t == FormatInt(d.ayahNumber, 3) + FileExt(ext)
  {
    var e := FileNameShape(d, ext);
    var b := BaseParts(d);
    t := b + e;
    RegroupTail("surah_", FormatInt(d.surahNumber, 3), ['_'], "ayah_", b, e);
  }

  lemma BaseParts(d: AyahDetail) returns (b: string)
    ensures BaseName(d) == "surah_" + (FormatInt(d.surahNumber, 3) + ['_'] + ("ayah_" + b))
    ensures d.isBasmala ==> b == "000_basmala"
    ensures !d.isBasmala ==> b == FormatInt(d.ayahNumber, 3)
  {
    b := AyahField(d);
    assert "_ayah_" == ['_'] + "ayah_";
    Regroup("surah_", FormatInt(d.surahNumber, 3), ['_'], "ayah_", b);
  }

  lemma Regroup(s: string, f: string, u: string, a: string, b: string)
    ensures s + f + (u + a) + b == s + (f + u + (a + b))
  {
  }

  lemma RegroupTail(s: string, f: string, u: string, a: string, b: string, e: string)
    ensures s + (f + u + (a + b)) + e == s + (f + u + (a + (b + e)))
  {
  }

  lemma RegroupPrefix(s: string, f: string, u: string, r: string)
    ensures |s + f + u| <= |s + (f + u + r)| && (s + (f + u + r))[..|s + f + u|] == s + f + u
  {
    assert s + (f + u + r) == (s + f + u) + r;
  }

  /** The format the segments are written in: the extension's own if exported natively, WAV otherwise. */
  function FileExt(ext: string): (e: string)
    ensures KnownExt(e)
    ensures KnownExt(ext) <==> e == ext
  {
    if KnownExt(ext) then ext else ".wav"
  }

  /** The natively exported extensions are dot-led, without underscores or further dots. */
  lemma KnownExtPlain(e: string)
    requires KnownExt(e)
    ensures |e| > 1 && e[0] == '.' && forall i :: 0 <= i < |e| ==> e[i] != '_' && (i > 0 ==> e[i] != '.')
  {
  }

  /** The name of a known or fallback extension ends in a dot-led, underscore-free suffix. */
  lemma FileNameShape(d: AyahDetail, ext: string) returns (e: string)
    requires SuffixExt(ext) && ext != ""
    ensures e == FileExt(ext) && FileName(d, ext) == BaseName(d) + e
  {
    if KnownExt(ext) {
      e := ext;
    } else {
      e := ".wav";
      FormatIntPlain(d.surahNumber, 3);
      FormatIntPlain(d.ayahNumber, 3);
      ReplaceSuffix(BaseName(d), ext, ".wav");
    }
  }

  /** Two texts cut at their first `sep` agree on both sides of the cut. */
  lemma CutAt(a: string, b: string, c: string, d: string, sep: char)
    requires forall i :: 0 <= i < |a| ==> a[i] != sep
    requires forall i :: 0 <= i < |c| ==> c[i] != sep
    requires a + [sep] + b == c + [sep] + d
    ensures a == c && b == d
  {
    assert (a + [sep] + b)[|a|] == sep;
    assert (c + [sep] + d)[|c|] == sep;
    assert |a| == |c|;
    assert a == (a + [sep] + b)[..|a|];
    assert c == (c + [sep] + d)[..|c|];
    assert b == (a + [sep] + b)[|a| + 1..];
    assert d == (c + [sep] + d)[|c| + 1..];
  }

  /** A dot-free stem followed by a dot-led suffix: the stem is the part before the dot. */
  lemma CutAtDot(a: string, e1: string, c: string, e2: string)
    requires forall i :: 0 <= i < |a| ==> a[i] != '.'
    requires forall i :: 0 <= i < |c| ==> c[i] != '.'
    requires |e1| > 0 && e1[0] == '.' && |e2| > 0 && e2[0] == '.'
    requires a + e1 == c + e2
    ensures a == c
  {
    assert a + e1 == a + ['.'] + e1[1..];
    assert c + e2 == c + ['.'] + e2[1..];
    CutAt(a, e1[1..], c, e2[1..], '.');
  }

  /** The shared "surah_" opening removed. */
  lemma DropOpening(x: string, y: string)
    requires "surah_" + x == "surah_" + y
    ensures x == y
  {
    assert x == ("surah_" + x)[6..];
    assert y == ("surah_" + y)[6..];
  }

  /** A basmala name's tail always holds an underscore; a regular name's tail never does. */
  lemma BasmalaTailDiffers(fa: string, e: string, e': string)
    requires forall i :: 0 <= i < |fa| ==> fa[i] != '_'
    requires KnownExt(e) && KnownExt(e')
    ensures "000_basmala" + e != fa + e'
  {
    KnownExtPlain(e');
    var t := "000_basmala" + e;
    assert t[3] == '_';
    assert forall i :: 0 <= i < |fa + e'| ==> (fa + e')[i] != '_';
  }

  /**
   * Two ayahs share a file name only if they share surah, metadata ayah and basmala
   * flag, so no file of the archive overwrites another.
   */
  lemma FileNamesDistinct(d1: AyahDetail, d2: AyahDetail, ext: string)
    requires SuffixExt(ext)
    requires FileName(d1, ext) == FileName(d2, ext)
    ensures d1.surahNumber == d2.surahNumber && MetadataAyah(d1) == MetadataAyah(d2)
    ensures d1.isBasmala == d2.isBasmala
  {
    if ext == "" {
      assert BaseName(d1) + ext == BaseName(d1) && BaseName(d2) + ext == BaseName(d2);
      ReplaceEmptyInjective(BaseName(d1), BaseName(d2), ".wav");
      assert FileName(d1, ".wav") == FileName(d2, ".wav");
      DottedNamesDistinct(d1, d2, ".wav");
    } else {
      DottedNamesDistinct(d1, d2, ext);
    }
  }

  /** `FileNamesDistinct` for an extension with a dot. */
  lemma DottedNamesDistinct(d1: AyahDetail, d2: AyahDetail, ext: string)
    requires SuffixExt(ext) && ext != ""
    requires FileName(d1, ext) == FileName(d2, ext)
    ensures d1.surahNumber == d2.surahNumber && MetadataAyah(d1) == MetadataAyah(d2)
    ensures d1.isBasmala == d2.isBasmala
  {
    var t1 := NameParts(d1, ext);
    var t2 := NameParts(d2, ext);
    var e := FileExt(ext);
    var f1 := FormatInt(d1.surahNumber, 3);
    var f2 := FormatInt(d2.surahNumber, 3);
    FormatIntPlain(d1.surahNumber, 3);
    FormatIntPlain(d2.surahNumber, 3);
    FormatIntPlain(d1.ayahNumber, 3);
    FormatIntPlain(d2.ayahNumber, 3);
    DropOpening(f1 + ['_'] + ("ayah_" + t1), f2 + ['_'] + ("ayah_" + t2));
    CutAt(f1, "ayah_" + t1, f2, "ayah_" + t2, '_');
    ParseFormatInt(d1.surahNumber, 3);
    ParseFormatInt(d2.surahNumber, 3);
    assert t1 == ("ayah_" + t1)[5..];
    assert t2 == ("ayah_" + t2)[5..];
    if d1.isBasmala && !d2.isBasmala {
      BasmalaTailDiffers(FormatInt(d2.ayahNumber, 3), e, e);
    } else if !d1.isBasmala && d2.isBasmala {
      BasmalaTailDiffers(FormatInt(d1.ayahNumber, 3), e, e);
    } else if !d1.isBasmala {
      KnownExtPlain(e);
      CutAtDot(FormatInt(d1.ayahNumber, 3), e, FormatInt(d2.ayahNumber, 3), e);
      ParseFormatInt(d1.ayahNumber, 3);
      ParseFormatInt(d2.ayahNumber, 3);
    }
  }

  /**
   * An unknown extension gives the `.wav` name; an empty one (a file name without a
   * dot) has `.wav` inserted around every character of the base name instead.
   */
  lemma FallbackIsWav(d: AyahDetail, ext: string)
    requires SuffixExt(ext) && !KnownExt(ext)
    ensures ext != "" ==> FileName(d, ext) == BaseName(d) + ".wav"
    ensures ext == "" ==> FileName(d, ext) == ".wav" + Join(Chars(BaseName(d)), ".wav") + ".wav"
  {
    if ext == "" {
      EmptySuffixName(d);
    } else {
      var _ := FileNameShape(d, ext);
    }
  }

  /**
   * With an empty extension `filename.replace('', '.wav')` yields the base name's
   * characters joined by `.wav`, with `.wav` at both ends.
   */
  lemma EmptySuffixName(d: AyahDetail)
    ensures FileName(d, "") == ".wav" + Join(Chars(BaseName(d)), ".wav") + ".wav"
  {
    assert BaseName(d) + "" == BaseName(d);
    ReplaceEmptyJoins(BaseName(d), ".wav");
  }

  /** The first non-basmala ayah with a non-zero surah decides the surah number. */
  lemma SurahOfFirstRegular(ds: seq<AyahDetail>, j: int)
    requires 0 <= j < |ds| && !ds[j].isBasmala && ds[j].surahNumber != 0
    requires forall i :: 0 <= i < j ==> ds[i].isBasmala
    ensures SurahNumber(ds) == Some(ds[j].surahNumber)
  {
    FirstRegularAt(ds, j);
  }

  lemma {:induction false} FirstRegularAt(ds: seq<AyahDetail>, j: int)
    requires 0 <= j < |ds| && !ds[j].isBasmala
    requires forall i :: 0 <= i < j ==> ds[i].isBasmala
    ensures FirstRegular(ds) == Some(ds[j].surahNumber)
    decreases j
  {
    if j > 0 {
      FirstRegularAt(ds[1..], j - 1);
    }
  }

  /**
   * Without a usable non-basmala ayah (none at all, or the first one's surah is 0) the
   * first ayah's surah is used.
   */
  lemma SurahFallback(ds: seq<AyahDetail>)
    requires |ds| > 0
    requires (forall i :: 0 <= i < |ds| ==> ds[i].isBasmala)
      || exists j :: 0 <= j < |ds| && !ds[j].isBasmala && ds[j].surahNumber == 0
           && forall i :: 0 <= i < j ==> ds[i].isBasmala
    ensures SurahNumber(ds) == Some(ds[0].surahNumber)
  {
    if exists j :: 0 <= j < |ds| && !ds[j].isBasmala && ds[j].surahNumber == 0
         && forall i :: 0 <= i < j ==> ds[i].isBasmala {
      var j :| 0 <= j < |ds| && !ds[j].isBasmala && ds[j].surahNumber == 0
         && forall i :: 0 <= i < j ==> ds[i].isBasmala;
      FirstRegularAt(ds, j);
    }
  }

  /**
   * In a single-surah recitation the archive and every file open with the same
   * `surah_XXX_` field.
   */
  lemma ZipNameMatchesFiles(ds: seq<AyahDetail>, ext: string, k: int)
    requires SuffixExt(ext) && ext != "" && 0 <= k < |ds|
    requires forall i :: 0 <= i < |ds| ==> ds[i].surahNumber == ds[k].surahNumber
    ensures var pre := "surah_" + FormatInt(ds[k].surahNumber, 3) + "_";
      && ZipName(ds) == Some(pre + "ayahs.zip")
      && |pre| <= |FileName(ds[k], ext)| && FileName(ds[k], ext)[..|pre|] == pre
  {
    SingleSurah(ds, k);
    FilePrefix(ds[k], ext);
    var f := FormatInt(ds[k].surahNumber, 3);
    assert "_ayahs.zip" == "_" + "ayahs.zip";
    assert "surah_" + f + "_ayahs.zip" == ("surah_" + f + "_") + "ayahs.zip";
  }

  lemma SingleSurah(ds: seq<AyahDetail>, k: int)
    requires 0 <= k < |ds|
    requires forall i :: 0 <= i < |ds| ==> ds[i].surahNumber == ds[k].surahNumber
    ensures SurahNumber(ds) == Some(ds[k].surahNumber)
  {
    FirstRegularOfOne(ds, ds[k].surahNumber);
  }

  lemma FilePrefix(d: AyahDetail, ext: string)
    requires SuffixExt(ext) && ext != ""
    ensures var pre := "surah_" + FormatInt(d.surahNumber, 3) + "_";
      |pre| <= |FileName(d, ext)| && FileName(d, ext)[..|pre|] == pre
  {
    BasePrefix(d);
    var e := FileNameShape(d, ext);
    var base := BaseName(d);
    assert (base + e)[..|base|] == base;
    PrefixOfPrefix(FileName(d, ext), base, "surah_" + FormatInt(d.surahNumber, 3) + "_");
  }

  lemma BasePrefix(d: AyahDetail)
    ensures var pre := "surah_" + FormatInt(d.surahNumber, 3) + "_";
      |pre| <= |BaseName(d)| && BaseName(d)[..|pre|] == pre
  {
    var b := BaseParts(d);
    RegroupPrefix("surah_", FormatInt(d.surahNumber, 3), ['_'], "ayah_" + b);
  }

  lemma PrefixOfPrefix(n: string, b: string, p: string)
    requires |b| <= |n| && n[..|b|] == b
    requires |p| <= |b| && b[..|p|] == p
    ensures |p| <= |n| && n[..|p|] == p
  {
    assert n[..|p|] == n[..|b|][..|p|];
  }

  /** When every ayah names surah `v`, so does the first non-basmala one. */
  lemma {:induction false} FirstRegularOfOne(ds: seq<AyahDetail>, v: int)
    requires forall i :: 0 <= i < |ds| ==> ds[i].surahNumber == v
    ensures FirstRegular(ds).Some? ==> FirstRegular(ds).value == v
    decreases |ds|
  {
    if |ds| > 0 && ds[0].isBasmala {
      assert forall i :: 0 <= i < |ds[1..]| ==> ds[1..][i] == ds[i + 1];
      FirstRegularOfOne(ds[1..], v);
    }
  }
}
