/**
 * `slugify` (scrape.py:18-25): turns a video title into the file-name token
 * used for the downloaded file. After the Unicode fold the title goes through
 * four rewrites, each modelled here as its own function over characters:
 *
 *   lowercase                         `value.lower()`
 *   drop what is not \w, \s or '-'    `re.sub(r'[^\w\s-]', '', ...)`
 *   collapse runs of '-' and \s       `re.sub(r'[-\s]+', '-', ...)`
 *   strip '-' and '_' at both ends    `.strip('-_')`
 *
 * The NFKD normalisation is a parameter `nfkd` (its Unicode tables are not
 * part of this model); the ASCII encode with 'ignore' that follows it drops
 * every code point from 128 up and is modelled exactly.
 */
module Slug {
  import opened Chars

  /** The elements of `s` that satisfy `keep`, in their original order. */
  function Filter<T(!new)>(s: seq<T>, keep: T -> bool): (r: seq<T>)
    ensures |r| <= |s|
    ensures forall x :: x in r <==> x in s && keep(x)
  {
    if s == [] then []
    else (if keep(s[0]) then [s[0]] else []) + Filter(s[1..], keep)
  }

  lemma {:induction false} FilterConcat<T(!new)>(a: seq<T>, b: seq<T>, keep: T -> bool)
    ensures Filter(a + b, keep) == Filter(a, keep) + Filter(b, keep)
  {
    if a == [] {
      assert a + b == b;
    } else {
      assert (a + b)[1..] == a[1..] + b;
      FilterConcat(a[1..], b, keep);
    }
  }

  lemma {:induction false} FilterAll<T(!new)>(s: seq<T>, keep: T -> bool)
    requires forall i :: 0 <= i < |s| ==> keep(s[i])
    ensures Filter(s, keep) == s
  {
    if s != [] {
      FilterAll(s[1..], keep);
    }
  }

  lemma {:induction false} FilterNone<T(!new)>(s: seq<T>, keep: T -> bool)
    requires forall i :: 0 <= i < |s| ==> !keep(s[i])
    ensures Filter(s, keep) == []
  {
    if s != [] {
      FilterNone(s[1..], keep);
    }
  }

  /** `.encode('ascii', 'ignore').decode('ascii')` (scrape.py:22-23). */
  function AsciiFold(s: string): (r: string)
    ensures IsAscii(r)
    ensures forall x :: x in r <==> x in s && IsAsciiChar(x)
  {
    Filter(s, IsAsciiChar)
  }

  /** The fold leaves ASCII text unchanged. */
  lemma AsciiFoldOfAscii(s: string)
    requires IsAscii(s)
    ensures AsciiFold(s) == s
  {
    FilterAll(s, IsAsciiChar);
  }

  /** `value.lower()` on ASCII text. */
  function Lower(s: string): (r: string)
    ensures |r| == |s|
    ensures forall i :: 0 <= i < |s| ==> r[i] == LowerChar(s[i])
  {
    seq(|s|, i requires 0 <= i < |s| => LowerChar(s[i]))
  }

  /** The characters `[^\w\s-]` does not match. */
  predicate IsKept(c: char) {
    IsWordChar(c) || IsSpace(c) || c == '-'
  }

  /** `re.sub(r'[^\w\s-]', '', value)` on ASCII text. */
  function DropPunctuation(s: string): (r: string)
    ensures forall x :: x in r <==> x in s && IsKept(x)
  {
    Filter(s, IsKept)
  }

  /** The characters of the class `[-\s]`. */
  predicate IsSep(c: char) {
    c == '-' || IsSpace(c)
  }

  /** The rest of `s` after its leading run of `[-\s]` characters. */
  function DropSeps(s: string): (r: string)
    ensures |r| <= |s| && r == s[|s| - |r|..]
    ensures forall i :: 0 <= i < |s| - |r| ==> IsSep(s[i])
    ensures r == [] || !IsSep(r[0])
  {
    if s != [] && IsSep(s[0]) then DropSeps(s[1..]) else s
  }

  /** No two adjacent '-' in `s`. */
  predicate NoDoubleHyphen(s: string) {
    forall i, j :: 0 <= i < |s| && 0 <= j < |s| && j == i + 1 ==> !(s[i] == '-' && s[j] == '-')
  }

  /**
   * `re.sub(r'[-\s]+', '-', value)`: every maximal run of '-' and whitespace
   * becomes a single '-'. The result holds no whitespace and no two adjacent
   * '-', and it starts with '-' exactly when the input starts with a run.
   */
  function CollapseSeps(s: string): (r: string)
    ensures NoDoubleHyphen(r)
    ensures r == [] <==> s == []
    ensures r != [] ==> (r[0] == '-' <==> IsSep(s[0]))
    decreases |s|
  {
    if s == [] then []
    else if IsSep(s[0]) then "-" + CollapseSeps(DropSeps(s[1..]))
    else [s[0]] + CollapseSeps(s[1..])
  }

  /** Every character CollapseSeps emits is '-' or a character of its input
      outside `[-\s]`. */
  lemma {:induction false} CollapseSepsChars(s: string)
    ensures forall c :: c in CollapseSeps(s) ==> c == '-' || (c in s && !IsSep(c))
    decreases |s|
  {
    if s != [] {
      var out := CollapseSeps(s);
      if IsSep(s[0]) {
        var rest := DropSeps(s[1..]);
        CollapseSepsChars(rest);
        assert out == "-" + CollapseSeps(rest);
        forall c | c in rest ensures c in s {
          var k :| 0 <= k < |rest| && rest[k] == c;
          assert s[1..][|s[1..]| - |rest| + k] == c;
        }
      } else {
        CollapseSepsChars(s[1..]);
        assert out == [s[0]] + CollapseSeps(s[1..]);
      }
    }
  }

  /** A run of `[-\s]` followed by text that does not start with one is
      dropped whole. */
  lemma {:induction false} DropSepsRun(a: string, b: string)
    requires forall i :: 0 <= i < |a| ==> IsSep(a[i])
    requires b == [] || !IsSep(b[0])
    ensures DropSeps(a + b) == b
  {
    if a == [] {
      assert a + b == b;
    } else {
      assert (a + b)[1..] == a[1..] + b;
      DropSepsRun(a[1..], b);
    }
  }

  /** The characters `.strip('-_')` removes. */
  predicate IsStripChar(c: char) {
    c == '-' || c == '_'
  }

  function StripLeft(s: string): (r: string)
    ensures |r| <= |s| && r == s[|s| - |r|..]
    ensures forall i :: 0 <= i < |s| - |r| ==> IsStripChar(s[i])
    ensures r == [] || !IsStripChar(r[0])
  {
    if s != [] && IsStripChar(s[0]) then StripLeft(s[1..]) else s
  }

  function StripRight(s: string): (r: string)
    ensures |r| <= |s| && r == s[..|r|]
    ensures forall i :: |r| <= i < |s| ==> IsStripChar(s[i])
    ensures r == [] || !IsStripChar(r[|r| - 1])
  {
    if s != [] && IsStripChar(s[|s| - 1]) then StripRight(s[..|s| - 1]) else s
  }

  /** `.strip('-_')`: both ends lose every '-' and '_'. */
  function Strip(s: string): (r: string)
    ensures r == [] || (!IsStripChar(r[0]) && !IsStripChar(r[|r| - 1]))
  {
    StripRight(StripLeft(s))
  }

  /** The characters a slug is made of: `[a-z0-9_-]`. */
  predicate IsSlugChar(c: char) {
    IsLowerLetter(c) || IsDigit(c) || c == '_' || c == '-'
  }

  /**
   * What `slugify` promises of its output: only `[a-z0-9_-]`, no two
   * adjacent '-', and neither end a '-' or a '_'.
   */
  predicate IsSlug(t: string) {
    && (forall i :: 0 <= i < |t| ==> IsSlugChar(t[i]))
    && NoDoubleHyphen(t)
    && (t == [] || (!IsStripChar(t[0]) && !IsStripChar(t[|t| - 1])))
  }

  /** The letters and digits of `s`, in order. */
  function Alnums(s: string): (r: string)
    ensures forall x :: x in r <==> x in s && IsAlnum(x)
  {
    Filter(s, IsAlnum)
  }

  /** The four rewrites of scrape.py:24-25 applied to ASCII text. */
  function SlugifyAscii(s: string): (r: string)
    requires IsAscii(s)
    ensures IsSlug(r)
    ensures Alnums(r) == Alnums(Lower(s))
  {
    var lowered := Lower(s);
    var kept := DropPunctuation(lowered);
    var collapsed := CollapseSeps(kept);
    CollapsedIsSlugBeforeStrip(lowered, kept, collapsed);
    StripKeepsSlug(collapsed);
    AlnumsDropPunctuation(lowered);
    AlnumsCollapseSeps(kept);
    AlnumsStrip(collapsed);
    Strip(collapsed)
  }

  /** `slugify(value)` (scrape.py:18-25), with NFKD supplied as `nfkd`. */
  function Slugify(nfkd: string -> string, value: string): (r: string)
    ensures IsSlug(r)
    ensures Alnums(r) == Alnums(Lower(AsciiFold(nfkd(value))))
  {
    SlugifyAscii(AsciiFold(nfkd(value)))
  }

  // ---------------------------------------------------------------------
  // Output invariants

  /** Before stripping, the text is already made of slug characters with no
      "--"; only the ends may still be '-' or '_'. */
  lemma CollapsedIsSlugBeforeStrip(lowered: string, kept: string, collapsed: string)
    requires forall i :: 0 <= i < |lowered| ==> !IsUpper(lowered[i])
    requires IsAscii(lowered)
    requires kept == DropPunctuation(lowered)
    requires collapsed == CollapseSeps(kept)
    ensures forall i :: 0 <= i < |collapsed| ==> IsSlugChar(collapsed[i])
    ensures NoDoubleHyphen(collapsed)
  {
    forall i | 0 <= i < |collapsed|
      ensures IsSlugChar(collapsed[i])
    {
      var c := collapsed[i];
      assert c in collapsed;
      CollapseSepsChars(kept);
      if c != '-' {
        assert c in kept && !IsSep(c);
        assert c in lowered && IsKept(c);
      }
    }
  }

  /** Slug characters with no "--" keep both properties in any slice. */
  predicate SlugBody(s: string) {
    && (forall i :: 0 <= i < |s| ==> IsSlugChar(s[i]))
    && NoDoubleHyphen(s)
  }

  lemma SlugBodySlice(s: string, lo: nat, hi: nat)
    requires SlugBody(s) && lo <= hi <= |s|
    ensures SlugBody(s[lo..hi])
  {
    var t := s[lo..hi];
    assert forall i :: 0 <= i < |t| ==> t[i] == s[lo + i];
  }

  lemma StripKeepsSlug(s: string)
    requires forall i :: 0 <= i < |s| ==> IsSlugChar(s[i])
    requires NoDoubleHyphen(s)
    ensures IsSlug(Strip(s))
  {
    var l := StripLeft(s);
    SlugBodySlice(s, |s| - |l|, |s|);
    var r := StripRight(l);
    SlugBodySlice(l, 0, |r|);
  }

  // ---------------------------------------------------------------------
  // Letters and digits survive every step

  lemma AlnumsDropPunctuation(s: string)
    ensures Alnums(DropPunctuation(s)) == Alnums(s)
  {
    AlnumsOfFilterKept(s);
  }

  lemma {:induction false} AlnumsOfFilterKept(s: string)
    ensures Filter(Filter(s, IsKept), IsAlnum) == Filter(s, IsAlnum)
  {
    if s != [] {
      AlnumsOfFilterKept(s[1..]);
      var head := if IsKept(s[0]) then [s[0]] else [];
      FilterConcat(head, Filter(s[1..], IsKept), IsAlnum);
    }
  }

  lemma AlnumsOfSeps(s: string)
    requires forall i :: 0 <= i < |s| ==> IsSep(s[i])
    ensures Alnums(s) == []
  {
    FilterNone(s, IsAlnum);
  }

  lemma AlnumsDropSeps(s: string)
    ensures Alnums(DropSeps(s)) == Alnums(s)
  {
    var r := DropSeps(s);
    var k := |s| - |r|;
    assert s == s[..k] + r;
    FilterConcat(s[..k], r, IsAlnum);
    AlnumsOfSeps(s[..k]);
  }

  lemma {:induction false} AlnumsCollapseSeps(s: string)
    ensures Alnums(CollapseSeps(s)) == Alnums(s)
    decreases |s|
  {
    if s != [] {
      var out := CollapseSeps(s);
      if IsSep(s[0]) {
        var rest := DropSeps(s[1..]);
        AlnumsCollapseSeps(rest);
        AlnumsDropSeps(s[1..]);
        assert out == "-" + CollapseSeps(rest);
        assert out[1..] == CollapseSeps(rest);
      } else {
        AlnumsCollapseSeps(s[1..]);
        assert out == [s[0]] + CollapseSeps(s[1..]);
        assert out[1..] == CollapseSeps(s[1..]);
      }
    }
  }

  lemma AlnumsStripLeft(s: string)
    ensures Alnums(StripLeft(s)) == Alnums(s)
  {
    var l := StripLeft(s);
    var k := |s| - |l|;
    assert s == s[..k] + l;
    FilterConcat(s[..k], l, IsAlnum);
    FilterNone(s[..k], IsAlnum);
  }

  lemma AlnumsStripRight(s: string)
    ensures Alnums(StripRight(s)) == Alnums(s)
  {
    var r := StripRight(s);
    assert s == r + s[|r|..];
    FilterConcat(r, s[|r|..], IsAlnum);
    FilterNone(s[|r|..], IsAlnum);
  }

  lemma AlnumsStrip(s: string)
    ensures Alnums(Strip(s)) == Alnums(s)
  {
    AlnumsStripLeft(s);
    AlnumsStripRight(StripLeft(s));
  }

  // ---------------------------------------------------------------------
  // Properties of slugify

  /** A slug is left unchanged by all four rewrites. */
  lemma SlugIsFixedPoint(t: string)
    requires IsSlug(t)
    ensures IsAscii(t) && SlugifyAscii(t) == t
  {
    assert IsAscii(t) by {
      forall i | 0 <= i < |t| ensures IsAsciiChar(t[i]) {
        assert IsSlugChar(t[i]);
      }
    }
    var lowered := Lower(t);
    assert lowered == t by {
      forall i | 0 <= i < |t| ensures lowered[i] == t[i] {
        assert IsSlugChar(t[i]);
      }
    }
    assert DropPunctuation(t) == t by {
      forall i | 0 <= i < |t| ensures IsKept(t[i]) {
        assert IsSlugChar(t[i]);
      }
      FilterAll(t, IsKept);
    }
    assert CollapseSeps(t) == t by {
      forall i | 0 <= i < |t| ensures !IsSpace(t[i]) {
        assert IsSlugChar(t[i]);
      }
      CollapseSlug(t);
    }
    assert StripLeft(t) == t;
    assert StripRight(t) == t;
  }

  /** CollapseSeps leaves text with no whitespace and no "--" alone. */
  lemma {:induction false} CollapseSlug(t: string)
    requires forall i :: 0 <= i < |t| ==> !IsSpace(t[i])
    requires NoDoubleHyphen(t)
    ensures CollapseSeps(t) == t
    decreases |t|
  {
    if t != [] {
      CollapseSlug(t[1..]);
      if IsSep(t[0]) {
        assert t[0] == '-';
        assert DropSeps(t[1..]) == t[1..];
      }
    }
  }

  /** `slugify(slugify(x)) == slugify(x)` on the rewrites. */
  lemma SlugifyAsciiIdempotent(s: string)
    requires IsAscii(s)
    ensures SlugifyAscii(SlugifyAscii(s)) == SlugifyAscii(s)
  {
    SlugIsFixedPoint(SlugifyAscii(s));
  }

  /** `slugify(slugify(x)) == slugify(x)`, given that NFKD leaves ASCII text
      alone (which the Unicode standard guarantees). */
  lemma SlugifyIdempotent(nfkd: string -> string, value: string)
    requires forall t :: IsAscii(t) ==> nfkd(t) == t
    ensures Slugify(nfkd, Slugify(nfkd, value)) == Slugify(nfkd, value)
  {
    var once := Slugify(nfkd, value);
    SlugIsFixedPoint(once);
    AsciiFoldOfAscii(once);
  }

  /** The slug is empty exactly when the folded title holds no ASCII letter
      or digit: punctuation, whitespace, '-' and '_' alone leave nothing. */
  lemma SlugEmptyIffNoAlnum(s: string)
    requires IsAscii(s)
    ensures SlugifyAscii(s) == [] <==> forall i :: 0 <= i < |s| ==> !IsAlnum(s[i])
  {
    var r := SlugifyAscii(s);
    if r == [] {
      forall i | 0 <= i < |s|
        ensures !IsAlnum(s[i])
      {
      }
    } else {
      assert IsAlnum(r[0]);
      assert r[0] in Alnums(r);
      var c :| c in Lower(s) && IsAlnum(c);
      var i :| 0 <= i < |s| && Lower(s)[i] == c;
      assert IsAlnum(s[i]);
    }
  }

  /** Text free of `[-\s]` passes through CollapseSeps unchanged. */
  lemma {:induction false} CollapseWord(a: string, b: string)
    requires forall i :: 0 <= i < |a| ==> !IsSep(a[i])
    ensures CollapseSeps(a + b) == a + CollapseSeps(b)
  {
    if a != [] {
      var s := a + b;
      assert s[0] == a[0] && !IsSep(s[0]);
      assert s[1..] == a[1..] + b;
      assert CollapseSeps(s) == [a[0]] + CollapseSeps(a[1..] + b);
      CollapseWord(a[1..], b);
      assert a == [a[0]] + a[1..];
    } else {
      assert a + b == b;
    }
  }

  /** A whole run of `[-\s]` becomes a single '-'. */
  lemma CollapseRun(a: string, b: string)
    requires a != [] && forall i :: 0 <= i < |a| ==> IsSep(a[i])
    requires b == [] || !IsSep(b[0])
    ensures CollapseSeps(a + b) == "-" + CollapseSeps(b)
  {
    var s := a + b;
    assert s[1..] == a[1..] + b;
    DropSepsRun(a[1..], b);
  }

  /** A kept piece survives DropPunctuation and the punctuation piece after
      it vanishes. */
  lemma DropPair(x: string, p: string, rest: string)
    requires forall i :: 0 <= i < |x| ==> IsKept(x[i])
    requires forall i :: 0 <= i < |p| ==> !IsKept(p[i])
    ensures DropPunctuation(x + (p + rest)) == x + DropPunctuation(rest)
  {
    FilterNone(p, IsKept);
    FilterConcat(p, rest, IsKept);
    assert [] + Filter(rest, IsKept) == Filter(rest, IsKept);
    assert Filter(p + rest, IsKept) == Filter(rest, IsKept);
    FilterAll(x, IsKept);
    FilterConcat(x, p + rest, IsKept);
  }

  /** Three kept pieces, each followed by punctuation, leave the three pieces. */
  lemma DropPieces(x1: string, p1: string, x2: string, p2: string, x3: string, p3: string)
    requires forall i :: 0 <= i < |x1| ==> IsKept(x1[i])
    requires forall i :: 0 <= i < |x2| ==> IsKept(x2[i])
    requires forall i :: 0 <= i < |x3| ==> IsKept(x3[i])
    requires forall i :: 0 <= i < |p1| ==> !IsKept(p1[i])
    requires forall i :: 0 <= i < |p2| ==> !IsKept(p2[i])
    requires forall i :: 0 <= i < |p3| ==> !IsKept(p3[i])
    ensures DropPunctuation(x1 + (p1 + (x2 + (p2 + (x3 + p3))))) == x1 + (x2 + x3)
  {
    assert p3 + [] == p3;
    assert DropPunctuation([]) == [];
    DropPair(x3, p3, []);
    assert x3 + [] == x3;
    DropPair(x2, p2, x3 + p3);
    DropPair(x1, p1, x2 + (p2 + (x3 + p3)));
  }

  /** The title "My Video!! (2020)" becomes "my-video-2020". */
  lemma SlugifyExample(nfkd: string -> string)
    requires forall t :: IsAscii(t) ==> nfkd(t) == t
    ensures Slugify(nfkd, "My Video!! (2020)") == "my-video-2020"
  {
    var title := "My Video!! (2020)";
    ExampleLower();
    assert nfkd(title) == title;
    AsciiFoldOfAscii(title);
    ExampleSteps();
  }

  /** The rewrites after the fold, step by step. */
  lemma ExampleSteps()
    ensures SlugifyAscii("My Video!! (2020)") == "my-video-2020"
  {
    ExampleLower();
    ExampleDrop();
    ExampleCollapse();
    ExampleStrip();
  }

  lemma ExampleLower()
    ensures IsAscii("My Video!! (2020)") && Lower("My Video!! (2020)") == "my video!! (2020)"
  {
  }

  lemma ExampleStrip()
    ensures Strip("my-video-2020") == "my-video-2020"
  {
    var collapsed := "my-video-2020";
    assert StripLeft(collapsed) == collapsed;
    assert StripRight(collapsed) == collapsed;
  }

  lemma ExampleDrop()
    ensures DropPunctuation("my video!! (2020)") == "my video 2020"
  {
    var x1, p1, x2, p2, x3, p3 := "my video", "!!", " ", "(", "2020", ")";
    assert "my video!! (2020)" == x1 + (p1 + (x2 + (p2 + (x3 + p3))));
    DropPieces(x1, p1, x2, p2, x3, p3);
    assert x1 + (x2 + x3) == "my video 2020";
  }

  lemma ExampleCollapse()
    ensures CollapseSeps("my video 2020") == "my-video-2020"
  {
    var w1, s1, w2, s2, w3 := "my", " ", "video", " ", "2020";
    assert "my video 2020" == w1 + (s1 + (w2 + (s2 + w3)));
    CollapsePieces(w1, s1, w2, s2, w3);
    assert w1 + ("-" + (w2 + ("-" + w3))) == "my-video-2020";
  }

  /** Three words separated by runs of `[-\s]` collapse to the words joined
      by single '-'. */
  lemma CollapsePieces(w1: string, s1: string, w2: string, s2: string, w3: string)
    requires w2 != [] && w3 != []
    requires s1 != [] && s2 != []
    requires forall i :: 0 <= i < |w1| ==> !IsSep(w1[i])
    requires forall i :: 0 <= i < |w2| ==> !IsSep(w2[i])
    requires forall i :: 0 <= i < |w3| ==> !IsSep(w3[i])
    requires forall i :: 0 <= i < |s1| ==> IsSep(s1[i])
    requires forall i :: 0 <= i < |s2| ==> IsSep(s2[i])
    ensures CollapseSeps(w1 + (s1 + (w2 + (s2 + w3)))) == w1 + ("-" + (w2 + ("-" + w3)))
  {
    assert w3 + [] == w3;
    assert CollapseSeps([]) == [];
    CollapseWord(w3, []);
    CollapseRun(s2, w3);
    CollapseWord(w2, s2 + w3);
    CollapseRun(s1, w2 + (s2 + w3));
    CollapseWord(w1, s1 + (w2 + (s2 + w3)));
  }
}
