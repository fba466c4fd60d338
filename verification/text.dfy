/**
 * Python string primitives the source relies on, with their exact semantics:
 * `str.split()` (whitespace runs), `' '.join`, `str.strip()`, `str.find`,
 * `str.split(sep)` on a single character, and `str.replace`.
 */
module Text {

  /** The characters Python's `str.split()` and `str.strip()` treat as whitespace. */
  predicate IsSpace(c: char) {
    || c == ' ' || c == '\t' || c == '\n' || c == '\r'
    || c == '\U{000B}' || c == '\U{000C}'
    || ('\U{001C}' <= c <= '\U{001F}')
    || c == '\U{0085}' || c == '\U{00A0}' || c == '\U{1680}'
    || ('\U{2000}' <= c <= '\U{200A}')
    || c == '\U{2028}' || c == '\U{2029}' || c == '\U{202F}'
    || c == '\U{205F}' || c == '\U{3000}'
  }

  predicate NotSpace(c: char) {
    !IsSpace(c)
  }

  /** A word as `str.split()` produces it: non-empty, no whitespace. */
  predicate IsWord(w: string) {
    |w| > 0 && forall i :: 0 <= i < |w| ==> !IsSpace(w[i])
  }

  predicate AllWords(ws: seq<string>) {
    forall i :: 0 <= i < |ws| ==> IsWord(ws[i])
  }

  /** A non-space character appended here would start a new word. */
  predicate EndsOpen(s: string) {
    |s| == 0 || IsSpace(s[|s| - 1])
  }

  /**
   * Python's `s.split()`: the maximal runs of non-whitespace characters, in order.
   * Defined by the last character so that appending behaves like the scanner.
   */
  function Split(s: string): (ws: seq<string>)
    ensures AllWords(ws)
    ensures !EndsOpen(s) ==> |ws| > 0
    decreases |s|
  {
    if |s| == 0 then []
    else
      var init := s[..|s| - 1];
      var c := s[|s| - 1];
      var ws := Split(init);
      if IsSpace(c) then ws
      else if EndsOpen(init) then ws + [[c]]
      else ws[..|ws| - 1] + [ws[|ws| - 1] + [c]]
  }

  /** Python's `sep.join(ws)`. */
  function Join(ws: seq<string>, sep: string): string
    decreases |ws|
  {
    if |ws| == 0 then ""
    else if |ws| == 1 then ws[0]
    else Join(ws[..|ws| - 1], sep) + sep + ws[|ws| - 1]
  }

  /** Python's `s.strip()`. */
  function Strip(s: string): string {
    DropTrailing(DropLeading(s))
  }

  function DropLeading(s: string): (r: string)
    ensures |r| > 0 ==> !IsSpace(r[0])
    decreases |s|
  {
    if |s| > 0 && IsSpace(s[0]) then DropLeading(s[1..]) else s
  }

  function DropTrailing(s: string): (r: string)
    ensures |r| > 0 ==> !IsSpace(r[|r| - 1])
    decreases |s|
  {
    if |s| > 0 && IsSpace(s[|s| - 1]) then DropTrailing(s[..|s| - 1]) else s
  }

  /** The characters of `s` that satisfy `p`, in order (a regex deletion of the others). */
  function Filter(p: char -> bool, s: string): string
    decreases |s|
  {
    if |s| == 0 then ""
    else Filter(p, s[..|s| - 1]) + (if p(s[|s| - 1]) then [s[|s| - 1]] else "")
  }

  /** `f` applied to every character (a chain of single-character `str.replace` calls). */
  function Map(f: char -> char, s: string): (r: string)
    ensures |r| == |s|
    ensures forall i :: 0 <= i < |s| ==> r[i] == f(s[i])
    decreases |s|
  {
    if |s| == 0 then "" else Map(f, s[..|s| - 1]) + [f(s[|s| - 1])]
  }

  /** The words of every string, in order: what `' '.join(ts).split()` yields. */
  function SplitAll(ts: seq<string>): seq<string>
    decreases |ts|
  {
    if |ts| == 0 then [] else SplitAll(ts[..|ts| - 1]) + Split(ts[|ts| - 1])
  }

  function Concat(ws: seq<string>): string
    decreases |ws|
  {
    if |ws| == 0 then "" else Concat(ws[..|ws| - 1]) + ws[|ws| - 1]
  }

  /** Whitespace-canonical: words separated by single spaces, nothing at either end. */
  predicate Canonical(s: string) {
    Join(Split(s), " ") == s
  }

  // ---------------------------------------------------------------------------
  // Split

  lemma SplitSnoc(s: string, c: char)
    ensures Split(s + [c]) ==
      var ws := Split(s);
      if IsSpace(c) then ws
      else if EndsOpen(s) then ws + [[c]]
      else ws[..|ws| - 1] + [ws[|ws| - 1] + [c]]
  {
    assert (s + [c])[..|s + [c]| - 1] == s;
  }

  /** How appending one character changes the word count and the open end. */
  lemma SplitSnocCount(s: string, c: char)
    ensures IsSpace(c) ==> |Split(s + [c])| == |Split(s)| && EndsOpen(s + [c])
    ensures !IsSpace(c) ==> |Split(s + [c])| == |Split(s)| + Open(s) && !EndsOpen(s + [c])
  {
    SplitSnoc(s, c);
  }

  /** A space separates: the words of `a + sp + b` are the words of `a` then those of `b`. */
  lemma {:induction false} SplitSep(a: string, sp: char, b: string)
    requires IsSpace(sp)
    ensures Split(a + [sp] + b) == Split(a) + Split(b)
    decreases |b|
  {
    if |b| == 0 {
      assert a + [sp] + b == a + [sp];
      SplitSnoc(a, sp);
    } else {
      var b' := b[..|b| - 1];
      var c := b[|b| - 1];
      SplitSep(a, sp, b');
      assert b == b' + [c];
      assert a + [sp] + b == (a + [sp] + b') + [c];
      SplitSepStep(a + [sp] + b', b', c, Split(a));
    }
  }

  /** One step of `SplitSep`: appending a character to both sides keeps them related. */
  lemma SplitSepStep(x: string, b': string, c: char, wa: seq<string>)
    requires Split(x) == wa + Split(b')
    requires |b'| > 0 ==> |x| > 0 && x[|x| - 1] == b'[|b'| - 1]
    requires |b'| == 0 ==> EndsOpen(x)
    ensures Split(x + [c]) == wa + Split(b' + [c])
  {
    SplitSnoc(x, c);
    SplitSnoc(b', c);
    var wb := Split(b');
    if IsSpace(c) {
    } else if EndsOpen(b') {
      assert EndsOpen(x);
    } else {
      assert !EndsOpen(x);
      ExtendLastWord(wa, wb, c);
    }
  }

  /** Extending the last word of `wa + wb` extends the last word of `wb`. */
  lemma ExtendLastWord(wa: seq<string>, wb: seq<string>, c: char)
    requires |wb| > 0
    ensures var w := wa + wb;
      w[..|w| - 1] + [w[|w| - 1] + [c]] == wa + (wb[..|wb| - 1] + [wb[|wb| - 1] + [c]])
  {
  }

  lemma SplitLeadingSpace(sp: char, b: string)
    requires IsSpace(sp)
    ensures Split([sp] + b) == Split(b)
  {
    SplitSep([], sp, b);
    assert [] + [sp] + b == [sp] + b;
  }

  /** Appending a word after whitespace adds exactly that word. */
  lemma {:induction false} SplitAppendWord(x: string, w: string)
    requires EndsOpen(x) && IsWord(w)
    ensures Split(x + w) == Split(x) + [w]
    decreases |w|
  {
    var w' := w[..|w| - 1];
    var c := w[|w| - 1];
    assert w == w' + [c];
    assert x + w == (x + w') + [c];
    SplitSnoc(x + w', c);
    if |w'| == 0 {
      assert x + w' == x;
    } else {
      SplitAppendWord(x, w');
      assert (x + w')[|x + w'| - 1] == w'[|w'| - 1];
      var ws := Split(x) + [w'];
      assert ws[..|ws| - 1] == Split(x);
      assert ws[|ws| - 1] + [c] == w;
    }
  }

  lemma SplitWord(w: string)
    requires IsWord(w)
    ensures Split(w) == [w]
  {
    SplitAppendWord("", w);
    assert "" + w == w;
  }

  lemma JoinSnoc(ws: seq<string>, w: string, sep: string)
    requires |ws| > 0
    ensures Join(ws + [w], sep) == Join(ws, sep) + sep + w
  {
    assert (ws + [w])[..|ws + [w]| - 1] == ws;
  }

  /** `' '.join(ts).split()` is the words of each string, in order, for any strings. */
  lemma {:induction false} SplitJoinAll(ts: seq<string>)
    ensures Split(Join(ts, " ")) == SplitAll(ts)
    decreases |ts|
  {
    if |ts| == 0 {
    } else if |ts| == 1 {
      assert ts[..0] == [];
    } else {
      var init := ts[..|ts| - 1];
      SplitJoinAll(init);
      SplitSep(Join(init, " "), ' ', ts[|ts| - 1]);
      assert Join(init, " ") + " " + ts[|ts| - 1] == Join(init, " ") + [' '] + ts[|ts| - 1];
    }
  }

  lemma {:induction false} SplitAllWords(ws: seq<string>)
    requires AllWords(ws)
    ensures SplitAll(ws) == ws
    decreases |ws|
  {
    if |ws| > 0 {
      SplitAllWords(ws[..|ws| - 1]);
      SplitWord(ws[|ws| - 1]);
      assert ws == ws[..|ws| - 1] + [ws[|ws| - 1]];
    }
  }

  /** Joining words with single spaces and splitting again gives the words back. */
  lemma SplitJoin(ws: seq<string>)
    requires AllWords(ws)
    ensures Split(Join(ws, " ")) == ws
  {
    SplitJoinAll(ws);
    SplitAllWords(ws);
  }

  lemma {:induction false} SplitDropLeading(s: string)
    ensures Split(DropLeading(s)) == Split(s)
    decreases |s|
  {
    if |s| > 0 && IsSpace(s[0]) {
      SplitDropLeading(s[1..]);
      SplitLeadingSpace(s[0], s[1..]);
      assert s == [s[0]] + s[1..];
    }
  }

  lemma {:induction false} SplitDropTrailing(s: string)
    ensures Split(DropTrailing(s)) == Split(s)
    decreases |s|
  {
    if |s| > 0 && IsSpace(s[|s| - 1]) {
      SplitDropTrailing(s[..|s| - 1]);
      SplitSnoc(s[..|s| - 1], s[|s| - 1]);
      assert s == s[..|s| - 1] + [s[|s| - 1]];
    }
  }

  /** Stripping never changes the words: `s.strip().split() == s.split()`. */
  lemma SplitStrip(s: string)
    ensures Split(Strip(s)) == Split(s)
  {
    SplitDropLeading(s);
    SplitDropTrailing(DropLeading(s));
  }

  lemma {:induction false} StripNoEdges(s: string)
    requires |s| == 0 || (!IsSpace(s[0]) && !IsSpace(s[|s| - 1]))
    ensures Strip(s) == s
  {
  }

  // ---------------------------------------------------------------------------
  // Join

  lemma {:induction false} JoinAppend(a: seq<string>, b: seq<string>)
    requires |a| > 0 && |b| > 0
    ensures Join(a + b, " ") == Join(a, " ") + " " + Join(b, " ")
    decreases |b|
  {
    if |b| == 1 {
      JoinSnoc(a, b[0], " ");
      assert a + b == a + [b[0]];
    } else {
      var b' := b[..|b| - 1];
      var w := b[|b| - 1];
      JoinAppend(a, b');
      assert a + b == (a + b') + [w];
      JoinSnoc(a + b', w, " ");
      JoinSnoc(b', w, " ");
    }
  }

  /** Joining words with single spaces yields a string with no whitespace at either end. */
  lemma {:induction false} JoinWordsEdges(ws: seq<string>)
    requires AllWords(ws)
    ensures var s := Join(ws, " ");
      |ws| > 0 ==> (|s| > 0 && !IsSpace(s[0]) && !IsSpace(s[|s| - 1]))
    decreases |ws|
  {
    if |ws| > 1 {
      JoinWordsEdges(ws[..|ws| - 1]);
      assert IsWord(ws[|ws| - 1]);
    } else if |ws| == 1 {
      assert IsWord(ws[0]);
    }
  }

  /** Every character of `s` satisfies `P`. */
  predicate AllChars(P: char -> bool, s: string) {
    forall i :: 0 <= i < |s| ==> P(s[i])
  }

  lemma AllCharsAppend(P: char -> bool, a: string, b: string)
    requires AllChars(P, a) && AllChars(P, b)
    ensures AllChars(P, a + b)
  {
    assert forall i :: |a| <= i < |a + b| ==> (a + b)[i] == b[i - |a|];
  }

  /** Every character of the joined string is a separator character or comes from a word. */
  lemma {:induction false} JoinChars(ws: seq<string>, sep: string, P: char -> bool)
    requires AllChars(P, sep)
    requires forall k :: 0 <= k < |ws| ==> AllChars(P, ws[k])
    ensures AllChars(P, Join(ws, sep))
    decreases |ws|
  {
    if |ws| > 1 {
      JoinChars(ws[..|ws| - 1], sep, P);
      AllCharsAppend(P, Join(ws[..|ws| - 1], sep), sep);
      AllCharsAppend(P, Join(ws[..|ws| - 1], sep) + sep, ws[|ws| - 1]);
    }
  }

  /** The words of `s` only contain characters of `s`. */
  lemma {:induction false} SplitChars(s: string, P: char -> bool)
    requires AllChars(P, s)
    ensures forall k :: 0 <= k < |Split(s)| ==> AllChars(P, Split(s)[k])
    decreases |s|
  {
    if |s| > 0 {
      var init := s[..|s| - 1];
      var c := s[|s| - 1];
      SplitChars(init, P);
      SplitSnoc(init, c);
      assert s == init + [c];
      var ws := Split(init);
      if !IsSpace(c) && !EndsOpen(init) {
        AllCharsAppend(P, ws[|ws| - 1], [c]);
      }
    }
  }

  /** Re-spacing keeps every character property that holds of the text and of ' '. */
  lemma JoinSplitChars(s: string, P: char -> bool)
    requires P(' ')
    requires AllChars(P, s)
    ensures AllChars(P, Join(Split(s), " "))
  {
    SplitChars(s, P);
    assert AllChars(P, " ");
    JoinChars(Split(s), " ", P);
  }

  /** Re-spacing any text with single spaces gives a canonical text. */
  lemma JoinSplitCanonical(s: string)
    ensures Canonical(Join(Split(s), " "))
  {
    SplitJoin(Split(s));
  }

  /** A canonical text has no whitespace at either end. */
  lemma CanonicalEdges(s: string)
    requires Canonical(s)
    ensures |s| > 0 ==> !IsSpace(s[0]) && !IsSpace(s[|s| - 1])
  {
    JoinWordsEdges(Split(s));
  }

  // ---------------------------------------------------------------------------
  // Filter, Map and word counts

  lemma FilterSnoc(p: char -> bool, s: string, c: char)
    ensures Filter(p, s + [c]) == Filter(p, s) + (if p(c) then [c] else "")
  {
    assert (s + [c])[..|s + [c]| - 1] == s;
  }

  lemma {:induction false} FilterAppend(p: char -> bool, a: string, b: string)
    ensures Filter(p, a + b) == Filter(p, a) + Filter(p, b)
    decreases |b|
  {
    if |b| == 0 {
      assert a + b == a;
    } else {
      var b', x := b[..|b| - 1], b[|b| - 1];
      var tail: string := if p(x) then [x] else "";
      calc {
        Filter(p, a + b);
        { assert a + b == (a + b') + [x]; }
        Filter(p, (a + b') + [x]);
        { FilterSnoc(p, a + b', x); }
        Filter(p, a + b') + tail;
        { FilterAppend(p, a, b'); }
        (Filter(p, a) + Filter(p, b')) + tail;
        Filter(p, a) + (Filter(p, b') + tail);
        { FilterSnoc(p, b', x); assert b == b' + [x]; }
        Filter(p, a) + Filter(p, b);
      }
    }
  }

  lemma {:induction false} FilterAll(p: char -> bool, s: string)
    requires forall i :: 0 <= i < |s| ==> p(s[i])
    ensures Filter(p, s) == s
    decreases |s|
  {
    if |s| > 0 {
      FilterAll(p, s[..|s| - 1]);
    }
  }

  lemma {:induction false} FilterNone(p: char -> bool, s: string)
    requires forall i :: 0 <= i < |s| ==> !p(s[i])
    ensures Filter(p, s) == ""
    decreases |s|
  {
    if |s| > 0 {
      FilterNone(p, s[..|s| - 1]);
    }
  }

  lemma {:induction false} FilterChars(p: char -> bool, s: string)
    ensures AllChars(p, Filter(p, s))
    decreases |s|
  {
    if |s| > 0 {
      FilterChars(p, s[..|s| - 1]);
      assert s == s[..|s| - 1] + [s[|s| - 1]];
      FilterSnoc(p, s[..|s| - 1], s[|s| - 1]);
    }
  }

  lemma {:induction false} MapIdentity(f: char -> char, s: string)
    requires forall i :: 0 <= i < |s| ==> f(s[i]) == s[i]
    ensures Map(f, s) == s
  {
  }

  /** The non-space characters of the words, concatenated, are those of the text. */
  lemma {:induction false} ConcatSplit(s: string)
    ensures Concat(Split(s)) == Filter(NotSpace, s)
    decreases |s|
  {
    if |s| > 0 {
      var init := s[..|s| - 1];
      var c := s[|s| - 1];
      ConcatSplit(init);
      SplitSnoc(init, c);
      FilterSnoc(NotSpace, init, c);
      assert s == init + [c];
      var ws := Split(init);
      if !IsSpace(c) && !EndsOpen(init) {
        var n := |ws|;
        assert ws == ws[..n - 1] + [ws[n - 1]];
        assert (ws[..n - 1] + [ws[n - 1] + [c]])[..n - 1] == ws[..n - 1];
        assert Concat(ws) == Concat(ws[..n - 1]) + ws[n - 1];
      } else if !IsSpace(c) {
        assert (ws + [[c]])[..|ws|] == ws;
      }
    }
  }

  /** Deleting the spaces of a single-space join of words gives their concatenation. */
  lemma {:induction false} FilterJoin(ws: seq<string>)
    requires AllWords(ws)
    ensures Filter(NotSpace, Join(ws, " ")) == Concat(ws)
    decreases |ws|
  {
    if |ws| == 1 {
      FilterAll(NotSpace, ws[0]);
      assert ws[..0] == [];
    } else if |ws| > 1 {
      var init := ws[..|ws| - 1];
      var w := ws[|ws| - 1];
      FilterJoin(init);
      FilterAppend(NotSpace, Join(init, " ") + " ", w);
      FilterAppend(NotSpace, Join(init, " "), " ");
      FilterSnoc(NotSpace, "", ' ');
      assert "" + [' '] == " ";
      FilterAll(NotSpace, w);
    }
  }

  function Open(s: string): nat {
    if EndsOpen(s) then 1 else 0
  }

  /**
   * Deleting non-space characters never adds words. The word count plus "ends open"
   * can only drop, which is the invariant the induction carries.
   */
  lemma {:induction false} SplitFilterCount(p: char -> bool, s: string)
    requires forall c :: IsSpace(c) ==> p(c)
    ensures |Split(Filter(p, s))| + Open(Filter(p, s)) <= |Split(s)| + Open(s)
    ensures EndsOpen(s) ==> EndsOpen(Filter(p, s))
    decreases |s|
  {
    if |s| > 0 {
      var init := s[..|s| - 1];
      var c := s[|s| - 1];
      SplitFilterCount(p, init);
      assert s == init + [c];
      SplitSnocCount(init, c);
      FilterSnoc(p, init, c);
      var f := Filter(p, init);
      if p(c) {
        SplitSnocCount(f, c);
        assert Filter(p, s) == f + [c];
        if IsSpace(c) {
          assert EndsOpen(init) ==> EndsOpen(f);
          assert |Split(f)| <= |Split(init)|;
        } else {
          assert Open(init) == 0 ==> Open(f) == 0 || |Split(f)| < |Split(init)|;
        }
      } else {
        assert Filter(p, s) == f;
        assert !IsSpace(c);
      }
    }
  }

  lemma SplitFilterFewer(p: char -> bool, s: string)
    requires forall c :: IsSpace(c) ==> p(c)
    ensures |Split(Filter(p, s))| <= |Split(s)|
  {
    SplitFilterCount(p, s);
  }

  /** A character map that keeps whitespace and non-whitespace apart keeps the word count. */
  lemma MapSnoc(f: char -> char, s: string, c: char)
    ensures Map(f, s + [c]) == Map(f, s) + [f(c)]
  {
    assert (s + [c])[..|s + [c]| - 1] == s;
  }

  lemma SplitMapStep(f: char -> char, init: string, c: char)
    requires IsSpace(f(c)) == IsSpace(c)
    requires |Split(Map(f, init))| == |Split(init)| && EndsOpen(Map(f, init)) == EndsOpen(init)
    ensures |Split(Map(f, init + [c]))| == |Split(init + [c])|
    ensures EndsOpen(Map(f, init + [c])) == EndsOpen(init + [c])
  {
    SplitSnocCount(init, c);
    MapSnoc(f, init, c);
    SplitSnocCount(Map(f, init), f(c));
  }

  lemma {:induction false} SplitMapCount(f: char -> char, s: string)
    requires forall c :: IsSpace(f(c)) == IsSpace(c)
    ensures |Split(Map(f, s))| == |Split(s)|
    ensures EndsOpen(Map(f, s)) == EndsOpen(s)
    decreases |s|
  {
    if |s| > 0 {
      var init, c := s[..|s| - 1], s[|s| - 1];
      SplitMapCount(f, init);
      SplitMapStep(f, init, c);
      assert s == init + [c];
    }
  }

  lemma {:induction false} FilterMap(f: char -> char, s: string)
    requires forall c :: IsSpace(f(c)) == IsSpace(c)
    ensures Filter(NotSpace, Map(f, s)) == Map(f, Filter(NotSpace, s))
    decreases |s|
  {
    if |s| > 0 {
      var init := s[..|s| - 1];
      var c := s[|s| - 1];
      FilterMap(f, init);
      assert s == init + [c];
      MapSnoc(f, init, c);
      FilterSnoc(NotSpace, Map(f, init), f(c));
      FilterSnoc(NotSpace, init, c);
      if NotSpace(c) {
        MapSnoc(f, Filter(NotSpace, init), c);
      }
    }
  }

  /** The conjunction of two character predicates. */
  function Both(p: char -> bool, q: char -> bool): char -> bool {
    c => p(c) && q(c)
  }

  lemma {:induction false} FilterFilter(p: char -> bool, q: char -> bool, s: string)
    ensures Filter(q, Filter(p, s)) == Filter(Both(p, q), s)
    decreases |s|
  {
    if |s| > 0 {
      var init := s[..|s| - 1];
      var c := s[|s| - 1];
      var pq := Both(p, q);
      FilterFilter(p, q, init);
      assert s == init + [c];
      FilterSnoc(p, init, c);
      FilterSnoc(pq, init, c);
      assert pq(c) == (p(c) && q(c));
      if p(c) {
        FilterSnoc(q, Filter(p, init), c);
        calc {
          Filter(q, Filter(p, s));
          Filter(q, Filter(p, init) + [c]);
          Filter(q, Filter(p, init)) + (if q(c) then [c] else "");
          Filter(pq, init) + (if q(c) then [c] else "");
          Filter(pq, s);
        }
      } else {
        assert Filter(p, s) == Filter(p, init);
        assert Filter(pq, s) == Filter(pq, init);
      }
    }
  }

  // ---------------------------------------------------------------------------
  // Search

  /** `h[i..]` begins with `n`. */
  predicate OccursAt(h: string, n: string, i: int) {
    0 <= i && i + |n| <= |h| && h[i..i + |n|] == n
  }

  /**
   * Python's `h.find(n, start)` for a non-negative start: the first position at or
   * after `start` where `n` occurs, or -1.
   */
  function FindFrom(h: string, n: string, start: nat): (r: int)
    ensures r == -1 || (start <= r && OccursAt(h, n, r))
    ensures r == -1 <==> forall i :: start <= i ==> !OccursAt(h, n, i)
    ensures r != -1 ==> forall i :: start <= i < r ==> !OccursAt(h, n, i)
    decreases |h| - start
  {
    if start + |n| > |h| then
      assert forall i :: start <= i ==> !OccursAt(h, n, i);
      -1
    else if h[start..start + |n|] == n then start
    else FindFrom(h, n, start + 1)
  }

  /** `s` begins with `p` (Python's `s.startswith(p)`). */
  predicate StartsWith(s: string, p: string) {
    |p| <= |s| && s[..|p|] == p
  }

  /**
   * Python's `s.split(sep)` for a one-character separator: always at least one part,
   * and the parts never contain the separator.
   */
  function SplitOn(s: string, sep: char): (parts: seq<string>)
    ensures |parts| >= 1
    decreases |s|
  {
    if |s| == 0 then [""]
    else if s[0] == sep then [""] + SplitOn(s[1..], sep)
    else
      var rest := SplitOn(s[1..], sep);
      [[s[0]] + rest[0]] + rest[1..]
  }

  /** A text without the separator is one part. */
  lemma {:induction false} SplitOnNone(s: string, sep: char)
    requires forall i :: 0 <= i < |s| ==> s[i] != sep
    ensures SplitOn(s, sep) == [s]
    decreases |s|
  {
    if |s| > 0 {
      SplitOnNone(s[1..], sep);
      assert [s[0]] + s[1..] == s;
    }
  }

  /** The separator after a separator-free prefix ends the first part. */
  lemma {:induction false} SplitOnCons(a: string, sep: char, b: string)
    requires forall i :: 0 <= i < |a| ==> a[i] != sep
    ensures SplitOn(a + [sep] + b, sep) == [a] + SplitOn(b, sep)
    decreases |a|
  {
    if |a| == 0 {
      assert a + [sep] + b == [sep] + b;
      assert ([sep] + b)[1..] == b;
    } else {
      SplitOnCons(a[1..], sep, b);
      assert (a + [sep] + b)[1..] == a[1..] + [sep] + b;
      assert [a[0]] + a[1..] == a;
    }
  }

  /** Appending the separator opens a new, empty last part. */
  lemma {:induction false} SplitOnSnocSep(s: string, sep: char)
    ensures SplitOn(s + [sep], sep) == SplitOn(s, sep) + [""]
    decreases |s|
  {
    if |s| == 0 {
      assert s + [sep] == [sep] && [sep][1..] == [];
    } else {
      SplitOnSnocSep(s[1..], sep);
      assert (s + [sep])[1..] == s[1..] + [sep];
      if s[0] != sep {
        var q := SplitOn(s[1..], sep);
        assert (q + [""])[1..] == q[1..] + [""];
      }
    }
  }

  /** `parts` with `c` appended to its last part. */
  function ExtendLast(parts: seq<string>, c: char): seq<string>
    requires |parts| > 0
  {
    parts[..|parts| - 1] + [parts[|parts| - 1] + [c]]
  }

  lemma ExtendLastEmptyHead(q: seq<string>, c: char)
    requires |q| > 0
    ensures [""] + ExtendLast(q, c) == ExtendLast([""] + q, c)
  {
    assert ([""] + q)[..|q|] == [""] + q[..|q| - 1];
  }

  lemma ExtendLastJoinHead(x: char, q: seq<string>, c: char)
    requires |q| > 0
    ensures var r := ExtendLast(q, c);
      [[x] + r[0]] + r[1..] == ExtendLast([[x] + q[0]] + q[1..], c)
  {
    var n := |q|;
    var r := ExtendLast(q, c);
    var p := [[x] + q[0]] + q[1..];
    if n == 1 {
      assert [x] + (q[0] + [c]) == [x] + q[0] + [c];
    } else {
      assert r[0] == q[0];
      assert r[1..] == q[1..n - 1] + [q[n - 1] + [c]];
      assert p[..n - 1] == [[x] + q[0]] + q[1..n - 1];
    }
  }

  /** Appending any other character extends the last part. */
  lemma {:induction false} SplitOnSnocOther(s: string, c: char, sep: char)
    requires c != sep
    ensures SplitOn(s + [c], sep) == ExtendLast(SplitOn(s, sep), c)
    decreases |s|
  {
    if |s| == 0 {
      assert s + [c] == [c] && [c][1..] == [];
      assert SplitOn([c][1..], sep) == [""];
      assert [c] + "" == "" + [c] == [c];
    } else {
      SplitOnSnocOther(s[1..], c, sep);
      assert (s + [c])[1..] == s[1..] + [c];
      var q := SplitOn(s[1..], sep);
      if s[0] == sep {
        ExtendLastEmptyHead(q, c);
      } else {
        ExtendLastJoinHead(s[0], q, c);
      }
    }
  }

  /**
   * Python's `s.replace(old, new)`: every leftmost non-overlapping occurrence replaced;
   * an empty `old` inserts `new` before every character and at the end.
   */
  function Replace(s: string, target: string, replacement: string): string
    decreases |s|
  {
    if |target| == 0 then
      if |s| == 0 then replacement else replacement + [s[0]] + Replace(s[1..], target, replacement)
    else if |s| == 0 then ""
    else if StartsWith(s, target) then replacement + Replace(s[|target|..], target, replacement)
    else [s[0]] + Replace(s[1..], target, replacement)
  }

  /** The characters of `s`, each as a one-character string. */
  function Chars(s: string): (cs: seq<string>)
    ensures |cs| == |s| && forall i :: 0 <= i < |s| ==> cs[i] == [s[i]]
  {
    seq(|s|, i requires 0 <= i < |s| => [s[i]])
  }

  /** Joining a list with a new head puts the head and a separator in front. */
  lemma {:induction false} JoinCons(a: string, ws: seq<string>, sep: string)
    requires |ws| > 0
    ensures Join([a] + ws, sep) == a + sep + Join(ws, sep)
    decreases |ws|
  {
    if |ws| > 1 {
      var init, w := ws[..|ws| - 1], ws[|ws| - 1];
      JoinCons(a, init, sep);
      assert ([a] + ws)[..|ws|] == [a] + init;
      assert Join([a] + ws, sep) == Join([a] + init, sep) + sep + w;
    } else {
      assert ([a] + ws)[..1] == [a];
    }
  }

  /** With an empty `old`, `s.replace("", r)` is `r + r.join(s) + r` for a non-empty `s`. */
  lemma {:induction false} ReplaceEmptyJoins(s: string, r: string)
    requires |s| > 0
    ensures Replace(s, "", r) == r + Join(Chars(s), r) + r
    decreases |s|
  {
    if |s| == 1 {
      assert s[1..] == "";
      assert Chars(s) == [[s[0]]];
    } else {
      ReplaceEmptyJoins(s[1..], r);
      assert Chars(s) == [[s[0]]] + Chars(s[1..]);
      JoinCons([s[0]], Chars(s[1..]), r);
    }
  }

  /** Replacing the empty string loses nothing: different texts stay different. */
  lemma {:induction false} ReplaceEmptyInjective(a: string, b: string, r: string)
    requires Replace(a, "", r) == Replace(b, "", r)
    ensures a == b
    decreases |a|
  {
    var ra, rb := Replace(a, "", r), Replace(b, "", r);
    if |a| > 0 && |b| > 0 {
      assert ra[|r|] == a[0] && rb[|r|] == b[0];
      assert ra[|r| + 1..] == Replace(a[1..], "", r);
      assert rb[|r| + 1..] == Replace(b[1..], "", r);
      ReplaceEmptyInjective(a[1..], b[1..], r);
      assert a == [a[0]] + a[1..] && b == [b[0]] + b[1..];
    }
  }

  /** Replacing a dot-led suffix of a dot-free stem touches only that suffix. */
  lemma {:induction false} ReplaceSuffix(stem: string, ext: string, replacement: string)
    requires |ext| > 0 && ext[0] == '.'
    requires forall i :: 0 <= i < |stem| ==> stem[i] != '.'
    ensures Replace(stem + ext, ext, replacement) == stem + replacement
    decreases |stem|
  {
    var s := stem + ext;
    if |stem| == 0 {
      assert s == ext;
      assert StartsWith(s, ext);
      assert s[|ext|..] == "";
      assert Replace(s, ext, replacement) == replacement + Replace("", ext, replacement);
    } else {
      assert s[0] == stem[0];
      assert s[0] != ext[0];
      assert !StartsWith(s, ext);
      assert s[1..] == stem[1..] + ext;
      ReplaceSuffix(stem[1..], ext, replacement);
      assert Replace(s, ext, replacement) == [s[0]] + Replace(s[1..], ext, replacement);
      assert [stem[0]] + stem[1..] == stem;
    }
  }
}
