/**
 * `slugify` of src/lib/utils.ts on ASCII input: lower-case, drop everything that is
 * not a word character, white space or `-`, turn every run of white space, `_` and
 * `-` into one `-`, then drop the leading and trailing `-`.
 */
module Slugs {
  import opened Text

  /** Characters `/[^\w\s-]/g` does not remove. */
  predicate IsKept(c: char) {
    IsWordChar(c) || IsSpace(c) || c == '-'
  }

  /** The class `[\s_-]`. */
  predicate IsSeparator(c: char) {
    IsSpace(c) || c == '_' || c == '-'
  }

  predicate IsSlugChar(c: char) {
    IsLower(c) || IsDigit(c) || c == '-'
  }

  predicate NoDoubleDash(s: string) {
    forall i :: 0 <= i < |s| - 1 ==> !(s[i] == '-' && s[i + 1] == '-')
  }

  predicate AllSlugChars(s: string) {
    forall i :: 0 <= i < |s| ==> IsSlugChar(s[i])
  }

  /** What is left after lower-casing and removing punctuation. */
  predicate AllLoweredKept(s: string) {
    forall i :: 0 <= i < |s| ==> IsKept(s[i]) && !IsUpper(s[i])
  }

  /** What `slugify` produces: `[a-z0-9-]*`, no `-` at either end, no `--`. */
  predicate IsSlug(s: string) {
    && AllSlugChars(s)
    && (|s| > 0 ==> s[0] != '-' && s[|s| - 1] != '-')
    && NoDoubleDash(s)
  }

  /** The alphanumeric characters of `s`, in order. */
  function Alnums(s: string): string
    decreases |s|
  {
    if |s| == 0 then [] else (if IsAlnum(s[0]) then [s[0]] else []) + Alnums(s[1..])
  }

  /** `.replace(/[^\w\s-]/g, '')` */
  function StripPunctuation(s: string): (r: string)
    ensures forall i :: 0 <= i < |r| ==> IsKept(r[i])
    ensures forall c {:trigger multiset(r)[c]} :: multiset(r)[c] == if IsKept(c) then multiset(s)[c] else 0
    ensures (forall i :: 0 <= i < |s| ==> !IsUpper(s[i])) ==> AllLoweredKept(r)
    decreases |s|
  {
    if |s| == 0 then []
    else
      assert s == [s[0]] + s[1..];
      (if IsKept(s[0]) then [s[0]] else []) + StripPunctuation(s[1..])
  }

  /** The global replace works character by character, so it distributes over concatenation. */
  lemma {:induction false} StripPunctuationAppend(a: string, b: string)
    ensures StripPunctuation(a + b) == StripPunctuation(a) + StripPunctuation(b)
    decreases |a|
  {
    if |a| == 0 {
      assert a + b == b;
    } else {
      var head := if IsKept(a[0]) then [a[0]] else [];
      StripPunctuationAppend(a[1..], b);
      assert (a + b)[0] == a[0] && (a + b)[1..] == a[1..] + b;
      assert StripPunctuation(a + b) == head + StripPunctuation(a[1..] + b);
      assert StripPunctuation(a) == head + StripPunctuation(a[1..]);
    }
  }

  /** One character is kept exactly when it is in `[\w\s-]`. */
  lemma StripPunctuationChar(c: char)
    ensures StripPunctuation([c]) == if IsKept(c) then [c] else []
  {
    assert [c][1..] == [];
  }

  /** What is left of `s` after its leading run of separators. */
  function SkipSeparators(s: string): (r: string)
    ensures |r| <= |s| && r == s[|s| - |r|..]
    ensures |s| > 0 && IsSeparator(s[0]) ==> |r| < |s|
    ensures |r| > 0 ==> !IsSeparator(r[0])
    ensures forall i :: 0 <= i < |s| - |r| ==> IsSeparator(s[i])
    decreases |s|
  {
    if |s| > 0 && IsSeparator(s[0]) then
      var r := SkipSeparators(s[1..]);
      assert forall i :: 1 <= i < |s| - |r| ==> s[i] == s[1..][i - 1];
      r
    else s
  }

  /** `.replace(/[\s_-]+/g, '-')` */
  function CollapseSeparators(s: string): (r: string)
    ensures AllLoweredKept(s) ==> AllSlugChars(r)
    ensures NoDoubleDash(r)
    ensures |s| == 0 ==> r == []
    ensures |s| > 0 && !IsSeparator(s[0]) ==> |r| > 0 && r[0] == s[0]
    ensures |s| > 0 && IsSeparator(s[0]) ==> |r| > 0 && r[0] == '-'
    decreases |s|
  {
    if |s| == 0 then []
    else if IsSeparator(s[0]) then
      var rest := SkipSeparators(s);
      assert forall i :: 0 <= i < |rest| ==> rest[i] == s[|s| - |rest| + i];
      "-" + CollapseSeparators(rest)
    else
      [s[0]] + CollapseSeparators(s[1..])
  }

  /** A separator run followed by a non-separator is skipped as a whole. */
  lemma {:induction false} SkipSeparatorsRun(sep: string, t: string)
    requires forall i :: 0 <= i < |sep| ==> IsSeparator(sep[i])
    requires |t| > 0 ==> !IsSeparator(t[0])
    ensures SkipSeparators(sep + t) == t
    decreases |sep|
  {
    var st := sep + t;
    if |sep| == 0 {
      assert st == t;
    } else {
      assert st[0] == sep[0] && st[1..] == sep[1..] + t;
      SkipSeparatorsRun(sep[1..], t);
      assert SkipSeparators(st) == SkipSeparators(st[1..]);
    }
  }

  lemma CollapseSeparatorsCopies(s: string)
    requires |s| > 0 && !IsSeparator(s[0])
    ensures CollapseSeparators(s) == [s[0]] + CollapseSeparators(s[1..])
  {
  }

  predicate NoSeparators(s: string) {
    forall i :: 0 <= i < |s| ==> !IsSeparator(s[i])
  }

  lemma Regroup(w: string, x: string)
    requires |w| > 0
    ensures [w[0]] + (w[1..] + x) == w + x
  {
    assert w == [w[0]] + w[1..];
  }

  /** Characters other than separators are copied. */
  lemma {:induction false} CollapseSeparatorsWord(w: string, t: string)
    requires NoSeparators(w)
    ensures CollapseSeparators(w + t) == w + CollapseSeparators(t)
    decreases |w|
  {
    var wt := w + t;
    if |w| == 0 {
      assert wt == t;
    } else {
      var tail := w[1..];
      assert wt[0] == w[0] && wt[1..] == tail + t;
      assert !IsSeparator(wt[0]);
      CollapseSeparatorsCopies(wt);
      assert NoSeparators(tail) by {
        assert forall i :: 0 <= i < |tail| ==> tail[i] == w[i + 1];
      }
      CollapseSeparatorsWord(tail, t);
      calc {
        CollapseSeparators(wt);
        [w[0]] + CollapseSeparators(tail + t);
        [w[0]] + (tail + CollapseSeparators(t));
        { Regroup(w, CollapseSeparators(t)); }
        w + CollapseSeparators(t);
      }
    }
  }

  /** A whole run of separators becomes a single `-`. */
  lemma CollapseSeparatorsRun(sep: string, t: string)
    requires |sep| > 0 && forall i :: 0 <= i < |sep| ==> IsSeparator(sep[i])
    requires |t| > 0 ==> !IsSeparator(t[0])
    ensures CollapseSeparators(sep + t) == "-" + CollapseSeparators(t)
  {
    assert (sep + t)[0] == sep[0];
    SkipSeparatorsRun(sep, t);
  }

  /** A slice of a string without `--` has no `--`. */
  lemma SliceNoDoubleDash(s: string, lo: nat, hi: nat)
    requires lo <= hi <= |s|
    ensures NoDoubleDash(s) ==> NoDoubleDash(s[lo..hi])
  {
    var t := s[lo..hi];
    forall i | 0 <= i < |t| - 1 && NoDoubleDash(s)
      ensures !(t[i] == '-' && t[i + 1] == '-')
    {
      assert t[i] == s[lo + i] && t[i + 1] == s[lo + i + 1];
    }
  }

  /** The `^-+` alternative of `.replace(/^-+|-+$/g, '')` */
  function TrimLeadingDashes(s: string): (r: string)
    ensures |r| <= |s| && r == s[|s| - |r|..]
    ensures |r| > 0 ==> r[0] != '-'
    ensures forall i :: 0 <= i < |s| - |r| ==> s[i] == '-'
    decreases |s|
  {
    if |s| > 0 && s[0] == '-' then
      var r := TrimLeadingDashes(s[1..]);
      assert s[1..][|s| - 1 - |r|..] == s[|s| - |r|..];
      r
    else s
  }

  /** The `-+$` alternative of `.replace(/^-+|-+$/g, '')` */
  function TrimTrailingDashes(s: string): (r: string)
    ensures |r| <= |s| && r == s[..|r|]
    ensures |r| > 0 ==> r[|r| - 1] != '-'
    ensures forall i :: |r| <= i < |s| ==> s[i] == '-'
    decreases |s|
  {
    if |s| > 0 && s[|s| - 1] == '-' then
      var r := TrimTrailingDashes(s[..|s| - 1]);
      assert s[..|s| - 1][..|r|] == s[..|r|];
      r
    else s
  }

  /** Both alternatives of `.replace(/^-+|-+$/g, '')` */
  function TrimDashes(s: string): (r: string)
    ensures NoDoubleDash(s) ==> NoDoubleDash(r)
    ensures AllSlugChars(s) ==> AllSlugChars(r)
    ensures |r| > 0 ==> r[0] != '-' && r[|r| - 1] != '-'
    ensures exists i, j :: 0 <= i <= j <= |s| && r == s[i..j] && DashesOnly(s[..i]) && DashesOnly(s[j..])
  {
    var lead := TrimLeadingDashes(s);
    var r := TrimTrailingDashes(lead);
    TrimmedSlice(s, lead, r);
    SliceNoDoubleDash(s, |s| - |lead|, |s| - |lead| + |r|);
    r
  }

  /** Where the two trims cut: a slice of `s` with only dashes on either side. */
  lemma TrimmedSlice(s: string, lead: string, r: string)
    requires |lead| <= |s| && lead == s[|s| - |lead|..]
    requires forall i :: 0 <= i < |s| - |lead| ==> s[i] == '-'
    requires |r| <= |lead| && r == lead[..|r|]
    requires forall i :: |r| <= i < |lead| ==> lead[i] == '-'
    ensures var i, j := |s| - |lead|, |s| - |lead| + |r|;
            && 0 <= i <= j <= |s| && r == s[i..j] && DashesOnly(s[..i]) && DashesOnly(s[j..])
  {
    var i, j := |s| - |lead|, |s| - |lead| + |r|;
    assert s[j..] == lead[|r|..];
    assert r == s[i..j];
    assert DashesOnly(s[..i]) by {
      forall k | 0 <= k < i
        ensures s[..i][k] == '-'
      {
      }
    }
    assert DashesOnly(lead[|r|..]) by {
      forall k | 0 <= k < |lead| - |r|
        ensures lead[|r|..][k] == '-'
      {
        assert lead[|r|..][k] == lead[|r| + k];
      }
    }
  }

  predicate DashesOnly(s: string) {
    forall i :: 0 <= i < |s| ==> s[i] == '-'
  }

  /** `slugify(str)` for an ASCII `str`. */
  function Slugify(s: string): (slug: string)
    requires AllAscii(s)
    ensures IsSlug(slug)
  {
    TrimDashes(CollapseSeparators(StripPunctuation(Lower(s))))
  }

  // ---------------------------------------------------------------------------
  // Idempotence
  // ---------------------------------------------------------------------------

  lemma {:induction false} StripPunctuationKeepsKept(s: string)
    requires forall i :: 0 <= i < |s| ==> IsKept(s[i])
    ensures StripPunctuation(s) == s
    decreases |s|
  {
    if |s| > 0 {
      StripPunctuationKeepsKept(s[1..]);
      assert s == [s[0]] + s[1..];
    }
  }

  /** A dash followed by a slug character is a separator run of length one. */
  lemma SkipSingleDash(s: string)
    requires |s| > 0 && s[0] == '-'
    requires |s| > 1 ==> IsSlugChar(s[1]) && s[1] != '-'
    ensures SkipSeparators(s) == s[1..]
  {
    if |s| > 1 {
      assert !IsSeparator(s[1]);
    }
    assert SkipSeparators(s) == SkipSeparators(s[1..]);
  }

  /** One step of `CollapseSeparators` on a slug: the first character is kept as it is. */
  lemma CollapseSeparatorsStep(s: string)
    requires |s| > 0 && IsSlugChar(s[0])
    requires |s| > 1 ==> IsSlugChar(s[1]) && !(s[0] == '-' && s[1] == '-')
    ensures CollapseSeparators(s) == [s[0]] + CollapseSeparators(s[1..])
  {
    if s[0] == '-' {
      SkipSingleDash(s);
    } else {
      assert !IsSeparator(s[0]);
    }
  }

  lemma {:induction false} CollapseSeparatorsKeepsSlug(s: string)
    requires forall i :: 0 <= i < |s| ==> IsSlugChar(s[i])
    requires NoDoubleDash(s)
    ensures CollapseSeparators(s) == s
    decreases |s|
  {
    if |s| > 0 {
      var tail := s[1..];
      SliceNoDoubleDash(s, 1, |s|);
      CollapseSeparatorsKeepsSlug(tail);
      CollapseSeparatorsStep(s);
      assert s == [s[0]] + tail;
    }
  }

  lemma LowerKeepsLowercase(s: string)
    requires forall i :: 0 <= i < |s| ==> !IsUpper(s[i])
    ensures Lower(s) == s
  {
  }

  lemma TrimDashesKeepsSlug(s: string)
    requires IsSlug(s)
    ensures TrimDashes(s) == s
  {
    assert TrimLeadingDashes(s) == s;
    assert TrimTrailingDashes(s) == s;
  }

  lemma SlugCharIsAscii(c: char)
    requires IsSlugChar(c)
    ensures IsAscii(c)
  {
    assert c as int <= 'z' as int;
  }

  /** A slug is its own slug. */
  lemma SlugifyFixesSlugs(t: string)
    requires IsSlug(t)
    ensures AllAscii(t)
    ensures Slugify(t) == t
  {
    forall i | 0 <= i < |t|
      ensures IsAscii(t[i])
    {
      SlugCharIsAscii(t[i]);
    }
    assert Slugify(t) == TrimDashes(CollapseSeparators(StripPunctuation(Lower(t))));
    LowerKeepsLowercase(t);
    StripPunctuationKeepsKept(t);
    CollapseSeparatorsKeepsSlug(t);
    TrimDashesKeepsSlug(t);
  }

  /** `slugify(slugify(s)) == slugify(s)` */
  lemma SlugifyIdempotent(s: string)
    requires AllAscii(s)
    ensures AllAscii(Slugify(s)) && Slugify(Slugify(s)) == Slugify(s)
  {
    SlugifyFixesSlugs(Slugify(s));
  }

  // ---------------------------------------------------------------------------
  // Where the dashes go
  // ---------------------------------------------------------------------------

  lemma LowerAppend(a: string, b: string)
    ensures Lower(a + b) == Lower(a) + Lower(b)
  {
  }

  predicate AllAlnum(s: string) {
    forall i :: 0 <= i < |s| ==> IsAlnum(s[i])
  }

  predicate AllSeparators(s: string) {
    forall i :: 0 <= i < |s| ==> IsSeparator(s[i])
  }

  /** A lower-cased word of letters and digits is a slug without dashes. */
  lemma LowerWord(w: string)
    requires AllAlnum(w)
    ensures forall i :: 0 <= i < |Lower(w)| ==> IsSlugChar(Lower(w)[i]) && Lower(w)[i] != '-'
    ensures NoSeparators(Lower(w))
  {
  }

  /** Lower-casing leaves the separators between two words alone. */
  lemma LowerJoin(a: string, sep: string, b: string)
    requires AllSeparators(sep)
    ensures Lower(a + sep + b) == Lower(a) + sep + Lower(b)
  {
    LowerAppend(a + sep, b);
    LowerAppend(a, sep);
    LowerKeepsLowercase(sep);
  }

  /** The three pieces are ASCII, and the lower-cased pieces lose nothing to punctuation removal. */
  lemma JoinIsKept(a: string, sep: string, b: string)
    requires AllAlnum(a) && AllAlnum(b) && AllSeparators(sep)
    ensures AllAscii(a + sep + b)
    ensures StripPunctuation(Lower(a) + sep + Lower(b)) == Lower(a) + sep + Lower(b)
  {
    var s := a + sep + b;
    assert forall i :: 0 <= i < |a| ==> s[i] == a[i];
    assert forall i :: |a| <= i < |a| + |sep| ==> s[i] == sep[i - |a|];
    assert forall i :: |a| + |sep| <= i < |s| ==> s[i] == b[i - |a| - |sep|];
    var x := Lower(a) + sep + Lower(b);
    assert forall i :: 0 <= i < |a| ==> x[i] == Lower(a)[i];
    assert forall i :: |a| <= i < |a| + |sep| ==> x[i] == sep[i - |a|];
    assert forall i :: |a| + |sep| <= i < |x| ==> x[i] == Lower(b)[i - |a| - |sep|];
    StripPunctuationKeepsKept(x);
  }

  /** The separator run between two lower-cased words becomes one dash. */
  lemma CollapseJoin(la: string, sep: string, lb: string)
    requires |lb| > 0 && |sep| > 0 && AllSeparators(sep)
    requires NoSeparators(la) && NoSeparators(lb)
    ensures CollapseSeparators(la + sep + lb) == la + "-" + lb
  {
    assert la + sep + lb == la + (sep + lb);
    CollapseSeparatorsWord(la, sep + lb);
    CollapseSeparatorsRun(sep, lb);
    CollapseSeparatorsWord(lb, []);
    assert lb + [] == lb;
  }

  lemma JoinIsSlug(la: string, lb: string)
    requires forall i :: 0 <= i < |la| ==> IsSlugChar(la[i]) && la[i] != '-'
    requires forall i :: 0 <= i < |lb| ==> IsSlugChar(lb[i]) && lb[i] != '-'
    requires |la| > 0 && |lb| > 0
    ensures IsSlug(la + "-" + lb)
  {
    var y := la + "-" + lb;
    forall i | 0 <= i < |y|
      ensures IsSlugChar(y[i]) && (y[i] == '-' <==> i == |la|)
    {
      if i < |la| {
        assert y[i] == la[i];
      } else if i > |la| {
        assert y[i] == lb[i - |la| - 1];
      }
    }
  }

  /**
   * Two words of letters and digits joined by any run of white space, `_` and `-`
   * give the two words lower-cased with one dash between them.
   */
  lemma SlugifyJoinsWords(a: string, sep: string, b: string)
    requires |a| > 0 && |b| > 0 && |sep| > 0
    requires AllAlnum(a) && AllAlnum(b) && AllSeparators(sep)
    ensures AllAscii(a + sep + b)
    ensures Slugify(a + sep + b) == Lower(a) + "-" + Lower(b)
  {
    var la, lb := Lower(a), Lower(b);
    LowerWord(a);
    LowerWord(b);
    LowerJoin(a, sep, b);
    JoinIsKept(a, sep, b);
    CollapseJoin(la, sep, lb);
    JoinIsSlug(la, lb);
    TrimDashesKeepsSlug(la + "-" + lb);
  }

  // ---------------------------------------------------------------------------
  // What survives: the letters and digits, lower-cased, in order
  // ---------------------------------------------------------------------------

  lemma {:induction false} AlnumsAppend(a: string, b: string)
    ensures Alnums(a + b) == Alnums(a) + Alnums(b)
    decreases |a|
  {
    if |a| == 0 {
      assert a + b == b;
    } else {
      var ab := a + b;
      var head := if IsAlnum(a[0]) then [a[0]] else [];
      AlnumsAppend(a[1..], b);
      assert ab[0] == a[0] && ab[1..] == a[1..] + b;
      assert Alnums(ab) == head + Alnums(a[1..] + b);
      assert Alnums(a) == head + Alnums(a[1..]);
      assert head + (Alnums(a[1..]) + Alnums(b)) == (head + Alnums(a[1..])) + Alnums(b);
    }
  }

  lemma {:induction false} AlnumsNone(s: string)
    requires forall i :: 0 <= i < |s| ==> !IsAlnum(s[i])
    ensures Alnums(s) == []
    decreases |s|
  {
    if |s| > 0 {
      AlnumsNone(s[1..]);
    }
  }

  lemma {:induction false} AlnumsLower(s: string)
    ensures Alnums(Lower(s)) == Lower(Alnums(s))
    decreases |s|
  {
    if |s| > 0 {
      AlnumsLower(s[1..]);
      assert Lower(s)[1..] == Lower(s[1..]);
      var head := if IsAlnum(s[0]) then [s[0]] else [];
      assert Lower(head + Alnums(s[1..])) == Lower(head) + Lower(Alnums(s[1..]));
    }
  }

  lemma {:induction false} AlnumsStripPunctuation(s: string)
    ensures Alnums(StripPunctuation(s)) == Alnums(s)
    decreases |s|
  {
    if |s| > 0 {
      AlnumsStripPunctuation(s[1..]);
      var head := if IsKept(s[0]) then [s[0]] else [];
      AlnumsAppend(head, StripPunctuation(s[1..]));
    }
  }

  lemma AlnumsSkipSeparators(s: string)
    ensures Alnums(SkipSeparators(s)) == Alnums(s)
  {
    var r := SkipSeparators(s);
    var k := |s| - |r|;
    assert s == s[..k] + r;
    AlnumsAppend(s[..k], r);
    AlnumsNone(s[..k]);
  }

  lemma {:induction false} AlnumsCollapseSeparators(s: string)
    ensures Alnums(CollapseSeparators(s)) == Alnums(s)
    decreases |s|
  {
    if |s| > 0 {
      if IsSeparator(s[0]) {
        var rest := SkipSeparators(s);
        AlnumsCollapseSeparators(rest);
        AlnumsAppend("-", CollapseSeparators(rest));
        AlnumsSkipSeparators(s);
      } else {
        AlnumsCollapseSeparators(s[1..]);
        AlnumsAppend([s[0]], CollapseSeparators(s[1..]));
      }
    }
  }

  lemma AlnumsTrimLeadingDashes(s: string)
    ensures Alnums(TrimLeadingDashes(s)) == Alnums(s)
  {
    var lead := TrimLeadingDashes(s);
    var dashes := s[..|s| - |lead|];
    assert s == dashes + lead;
    assert forall i :: 0 <= i < |dashes| ==> !IsAlnum(dashes[i]);
    AlnumsAppend(dashes, lead);
    AlnumsNone(dashes);
  }

  lemma AlnumsTrimTrailingDashes(s: string)
    ensures Alnums(TrimTrailingDashes(s)) == Alnums(s)
  {
    var r := TrimTrailingDashes(s);
    var dashes := s[|r|..];
    assert s == r + dashes;
    assert forall i :: 0 <= i < |dashes| ==> !IsAlnum(dashes[i]);
    AlnumsAppend(r, dashes);
    AlnumsNone(dashes);
  }

  lemma AlnumsTrimDashes(s: string)
    ensures Alnums(TrimDashes(s)) == Alnums(s)
  {
    AlnumsTrimLeadingDashes(s);
    AlnumsTrimTrailingDashes(TrimLeadingDashes(s));
  }

  /** The slug keeps exactly the letters and digits of the input, lower-cased and in order. */
  lemma SlugifyKeepsAlphanumerics(s: string)
    requires AllAscii(s)
    ensures Alnums(Slugify(s)) == Lower(Alnums(s))
  {
    var kept := StripPunctuation(Lower(s));
    AlnumsLower(s);
    AlnumsStripPunctuation(Lower(s));
    AlnumsCollapseSeparators(kept);
    AlnumsTrimDashes(CollapseSeparators(kept));
  }

  /** The slug is empty exactly when the input has no letter or digit. */
  lemma SlugifyEmptyIffNoAlphanumerics(s: string)
    requires AllAscii(s)
    ensures Slugify(s) == [] <==> Alnums(s) == []
  {
    var slug := Slugify(s);
    SlugifyKeepsAlphanumerics(s);
    if slug != [] {
      assert IsAlnum(slug[0]);
      assert slug == [slug[0]] + slug[1..];
      assert Alnums(slug) != [];
    }
  }
}
