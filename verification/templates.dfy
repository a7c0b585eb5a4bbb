/**
 * The template helpers of src/lib/utils.ts: placeholder extraction (`extractVariables`),
 * placeholder filling (`fillTemplate`) and truncation (`truncate`).
 *
 * A placeholder is `{{name}}` where `name` is a non-empty run of `\w` characters.
 */
module Templates {
  import opened Wrappers
  import opened Text

  /** The placeholder text for `name`. */
  function Braced(name: string): (b: string)
    ensures |b| == |name| + 4
    ensures b[0] == '{' && b[1] == '{' && b[|name| + 2] == '}' && b[|name| + 3] == '}'
    ensures b[2..|name| + 2] == name
  {
    "{{" + name + "}}"
  }

  /** What `(\w+)` can capture. */
  predicate IsName(w: string) {
    |w| > 0 && forall j :: 0 <= j < |w| ==> IsWordChar(w[j])
  }

  predicate NoDuplicates(xs: seq<string>) {
    forall a, b :: 0 <= a < b < |xs| ==> xs[a] != xs[b]
  }

  // ---------------------------------------------------------------------------
  // Placeholder scanning: the `regex.exec` loop of `extractVariables`
  // ---------------------------------------------------------------------------

  /** The length of the greedy run of `\w` characters that starts at `i`. */
  function WordRun(s: string, i: nat): (k: nat)
    requires i <= |s|
    ensures i + k <= |s|
    ensures forall j :: i <= j < i + k ==> IsWordChar(s[j])
    ensures i + k == |s| || !IsWordChar(s[i + k])
    decreases |s| - i
  {
    if i < |s| && IsWordChar(s[i]) then 1 + WordRun(s, i + 1) else 0
  }

  /**
   * Whether `/\{\{(\w+)\}\}/` matches at index `i`, and if so the length of the capture.
   * `\w+` is greedy and `}` is not a word character, so backtracking never finds
   * a shorter capture: the capture is the whole word run.
   */
  function MatchAt(s: string, i: nat): (m: Option<nat>)
    requires i <= |s|
    ensures m.Some? ==> i + m.value + 4 <= |s|
    ensures m.Some? ==> IsName(s[i + 2..i + 2 + m.value])
    ensures m.Some? ==> OccursAt(Braced(s[i + 2..i + 2 + m.value]), s, i)
  {
    if i + 2 <= |s| && s[i] == '{' && s[i + 1] == '{' then
      var k := WordRun(s, i + 2);
      if 0 < k && i + k + 4 <= |s| && s[i + k + 2] == '}' && s[i + k + 3] == '}' then
        assert s[i..i + k + 4] == Braced(s[i + 2..i + 2 + k]);
        Some(k)
      else None
    else None
  }

  /** A successful `exec`: where the match starts and what `(\w+)` captured. */
  datatype Hit = Hit(pos: nat, name: string)

  /**
   * The matches of the global regular expression from `lastIndex == i` on, in the
   * order `exec` returns them: after a match the search resumes at its end, after
   * a failed attempt at the next index.
   */
  function Scan(s: string, i: nat): (hits: seq<Hit>)
    requires i <= |s|
    ensures hits != [] ==> i <= hits[0].pos
    decreases |s| - i
  {
    if i == |s| then []
    else
      var m := MatchAt(s, i);
      if m.Some? then [Hit(i, s[i + 2..i + 2 + m.value])] + Scan(s, i + m.value + 4)
      else Scan(s, i + 1)
  }

  /** A hit is a placeholder occurrence. */
  predicate IsPlaceholderAt(s: string, h: Hit) {
    IsName(h.name) && OccursAt(Braced(h.name), s, h.pos)
  }

  /** Every hit lies at or after `lo`. */
  predicate AllFrom(hits: seq<Hit>, lo: nat) {
    forall h :: h in hits ==> lo <= h.pos
  }

  /** Hits in strictly increasing position. */
  predicate Increasing(hits: seq<Hit>) {
    forall a, b :: 0 <= a < b < |hits| ==> hits[a].pos < hits[b].pos
  }

  /** A hit placed before a list of later, increasing hits keeps the list increasing. */
  lemma ConsKeepsOrder(hit: Hit, rest: seq<Hit>, lo: nat)
    requires hit.pos < lo
    requires AllFrom(rest, lo)
    requires Increasing(rest)
    ensures Increasing([hit] + rest)
  {
    var all := [hit] + rest;
    forall a, b | 0 <= a < b < |all|
      ensures all[a].pos < all[b].pos
    {
      assert all[b] == rest[b - 1] && all[b] in rest;
      if a > 0 {
        assert all[a] == rest[a - 1];
      }
    }
  }

  /** Every match is a placeholder occurrence at or after `i`, and matches come in increasing position. */
  lemma ScanSound(s: string, i: nat)
    requires i <= |s|
    ensures forall h :: h in Scan(s, i) ==> i <= h.pos && IsPlaceholderAt(s, h)
    ensures forall a, b :: 0 <= a < b < |Scan(s, i)| ==> Scan(s, i)[a].pos < Scan(s, i)[b].pos
  {
    ScanHitsArePlaceholders(s, i);
    ScanIncreasing(s, i);
  }

  /** Every match is a placeholder occurrence at or after `i`. */
  lemma {:induction false} ScanHitsArePlaceholders(s: string, i: nat)
    requires i <= |s|
    ensures forall h :: h in Scan(s, i) ==> i <= h.pos && IsPlaceholderAt(s, h)
    decreases |s| - i
  {
    if i < |s| {
      var m := MatchAt(s, i);
      ScanStep(s, i);
      if m.Some? {
        ScanHitsArePlaceholders(s, i + m.value + 4);
      } else {
        ScanHitsArePlaceholders(s, i + 1);
      }
    }
  }

  /**
   * One step of `exec` from `i`, seen only by its shape: at most one hit, at `i`,
   * and the search resumes at a later index.
   */
  lemma ScanShape(s: string, i: nat) returns (hit: Option<Hit>, next: nat)
    requires i < |s|
    ensures i < next <= |s|
    ensures hit.Some? ==> hit.value.pos == i
    ensures Scan(s, i) == (if hit.Some? then [hit.value] else []) + Scan(s, next)
  {
    var m := MatchAt(s, i);
    if m.Some? {
      hit, next := Some(Hit(i, s[i + 2..i + 2 + m.value])), i + m.value + 4;
    } else {
      hit, next := None, i + 1;
    }
    ScanStep(s, i);
  }

  /** The matches come in increasing position. */
  lemma {:induction false} ScanIncreasing(s: string, i: nat)
    requires i <= |s|
    ensures Increasing(Scan(s, i))
    decreases |s| - i
  {
    if i < |s| {
      var hit, next := ScanShape(s, i);
      ScanIncreasing(s, next);
      if hit.Some? {
        ConsKeepsOrder(hit.value, Scan(s, next), next);
      } else {
        assert Scan(s, i) == Scan(s, next);
      }
    }
  }

  function Names(hits: seq<Hit>): (names: seq<string>)
    ensures |names| == |hits|
    ensures forall j :: 0 <= j < |hits| ==> names[j] == hits[j].name
  {
    seq(|hits|, j requires 0 <= j < |hits| => hits[j].name)
  }

  /** Index of the first occurrence of `x` in `xs`. */
  function FirstIndex(xs: seq<string>, x: string): (k: nat)
    requires x in xs
    ensures k < |xs| && xs[k] == x
    ensures forall j :: 0 <= j < k ==> xs[j] != x
  {
    if xs[0] == x then 0 else 1 + FirstIndex(xs[1..], x)
  }

  /**
   * The `if (!variables.includes(name)) variables.push(name)` accumulation:
   * the distinct elements of `xs`, ordered by where each first occurs in `xs`.
   */
  function Dedup(xs: seq<string>): (r: seq<string>)
    ensures NoDuplicates(r)
    ensures forall x :: x in r <==> x in xs
    ensures forall a, b :: 0 <= a < b < |r| ==> FirstIndex(xs, r[a]) < FirstIndex(xs, r[b])
    decreases |xs|
  {
    if |xs| == 0 then []
    else
      var init := xs[..|xs| - 1];
      var last := xs[|xs| - 1];
      assert xs == init + [last];
      var d := Dedup(init);
      FirstIndexOfPrefix(init, last);
      if last in d then d else d + [last]
  }

  /** Looking for an element of `xs` in `xs + [y]` finds it where it was. */
  lemma FirstIndexOfPrefix(xs: seq<string>, y: string)
    ensures forall x :: x in xs ==> FirstIndex(xs + [y], x) == FirstIndex(xs, x)
    ensures y !in xs ==> FirstIndex(xs + [y], y) == |xs|
  {
    forall x | x in xs
      ensures FirstIndex(xs + [y], x) == FirstIndex(xs, x)
    {
      var k := FirstIndex(xs, x);
      var k' := FirstIndex(xs + [y], x);
      assert (xs + [y])[k] == x;
    }
  }

  /** `extractVariables(content)` */
  function ExtractVariables(content: string): (names: seq<string>)
    ensures NoDuplicates(names)
    ensures forall w :: w in names ==> IsName(w) && Contains(content, Braced(w))
  {
    var hits := Scan(content, 0);
    var r := Dedup(Names(hits));
    ScanSound(content, 0);
    assert forall w :: w in r ==> IsName(w) && Contains(content, Braced(w)) by {
      forall w | w in r
        ensures IsName(w) && Contains(content, Braced(w))
      {
        var j := FirstIndex(Names(hits), w);
        assert hits[j] in hits;
        assert OccursAt(Braced(w), content, hits[j].pos);
      }
    }
    r
  }

  /** The placeholder occurrence at `p` cannot start inside a match that starts before `p`. */
  lemma MatchesDoNotOverlap(s: string, i: nat, p: nat, w: string)
    requires i < p && i <= |s|
    requires MatchAt(s, i).Some?
    requires IsName(w) && OccursAt(Braced(w), s, p)
    ensures i + MatchAt(s, i).value + 4 <= p
  {
    var k := MatchAt(s, i).value;
    var name := s[i + 2..i + 2 + k];
    var b := Braced(name);
    assert s[p] == Braced(w)[0] && s[p + 1] == Braced(w)[1];
    // Past its opening braces the match holds word characters and `}` only.
    forall j | i + 2 <= j < i + k + 4
      ensures s[j] != '{'
    {
      assert s[j] == s[i..i + k + 4][j - i] == b[j - i];
      if j < i + k + 2 {
        assert b[j - i] == b[2..k + 2][j - i - 2] == name[j - i - 2];
      }
    }
  }

  /** At the start of a placeholder occurrence, the pattern matches and captures its name. */
  lemma MatchAtPlaceholder(s: string, p: nat, w: string)
    requires IsName(w) && OccursAt(Braced(w), s, p)
    ensures MatchAt(s, p) == Some(|w|)
    ensures s[p + 2..p + 2 + |w|] == w
  {
    var b := Braced(w);
    assert forall j :: 0 <= j < |w| ==> b[j + 2] == w[j];
    assert forall j :: 0 <= j < |b| ==> s[p + j] == b[j] by {
      forall j | 0 <= j < |b| ensures s[p + j] == b[j] {
        assert s[p..p + |b|][j] == b[j];
      }
    }
    assert s[p + 2..p + 2 + |w|] == w;
  }

  lemma ScanStep(s: string, i: nat)
    requires i < |s|
    ensures MatchAt(s, i).Some? ==>
      Scan(s, i) == [Hit(i, s[i + 2..i + 2 + MatchAt(s, i).value])] + Scan(s, i + MatchAt(s, i).value + 4)
    ensures MatchAt(s, i).None? ==> Scan(s, i) == Scan(s, i + 1)
  {
  }

  /** Every placeholder occurrence at or after `i` is one of the matches. */
  lemma {:induction false} ScanFindsEveryPlaceholder(s: string, i: nat, p: nat, w: string)
    requires i <= p && IsName(w) && OccursAt(Braced(w), s, p)
    ensures Hit(p, w) in Scan(s, i)
    decreases |s| - i
  {
    assert i < |s|;
    ScanStep(s, i);
    if i == p {
      MatchAtPlaceholder(s, p, w);
      assert Scan(s, i)[0] == Hit(p, w);
    } else {
      var m := MatchAt(s, i);
      if m.Some? {
        MatchesDoNotOverlap(s, i, p, w);
        ScanFindsEveryPlaceholder(s, i + m.value + 4, p, w);
        assert Hit(p, w) in Scan(s, i + m.value + 4);
      } else {
        ScanFindsEveryPlaceholder(s, i + 1, p, w);
        assert Hit(p, w) in Scan(s, i + 1);
      }
    }
  }

  /** A name is extracted exactly when its placeholder occurs in the content. */
  lemma ExtractVariablesExact(content: string, w: string)
    ensures w in ExtractVariables(content) <==> IsName(w) && Contains(content, Braced(w))
  {
    if IsName(w) && Contains(content, Braced(w)) {
      var p :| 0 <= p <= |content| - |Braced(w)| && OccursAt(Braced(w), content, p);
      ScanFindsEveryPlaceholder(content, 0, p, w);
      var hits := Scan(content, 0);
      var j :| 0 <= j < |hits| && hits[j] == Hit(p, w);
      assert Names(hits)[j] == w;
    }
  }

  /**
   * Names come out in order of first occurrence: the placeholder of an earlier name
   * occurs somewhere before every occurrence of the placeholder of a later name.
   */
  lemma ExtractVariablesInFirstOccurrenceOrder(content: string, a: nat, b: nat)
    requires a < b < |ExtractVariables(content)|
    ensures exists p :: OccursAt(Braced(ExtractVariables(content)[a]), content, p)
                        && forall q :: OccursAt(Braced(ExtractVariables(content)[b]), content, q) ==> p < q
  {
    var hits := Scan(content, 0);
    var ns := Names(hits);
    var r := ExtractVariables(content);
    assert r == Dedup(ns);
    ScanSound(content, 0);
    var fa := FirstIndex(ns, r[a]);
    var fb := FirstIndex(ns, r[b]);
    var p := hits[fa].pos;
    assert hits[fa] in hits;
    forall q | OccursAt(Braced(r[b]), content, q)
      ensures p < q
    {
      LaterNameOccursLater(content, r[b], fa, q);
    }
  }

  /** Every occurrence of `w` lies beyond the match at index `j` of the scan, when `j` precedes `w`'s first match. */
  lemma LaterNameOccursLater(content: string, w: string, j: nat, q: nat)
    requires IsName(w) && OccursAt(Braced(w), content, q)
    requires w in Names(Scan(content, 0)) && j < FirstIndex(Names(Scan(content, 0)), w)
    ensures Scan(content, 0)[j].pos < q
  {
    var hits := Scan(content, 0);
    ScanSound(content, 0);
    ScanFindsEveryPlaceholder(content, 0, q, w);
    var k :| 0 <= k < |hits| && hits[k] == Hit(q, w);
    assert Names(hits)[k] == w;
  }


  // ---------------------------------------------------------------------------
  // fillTemplate
  // ---------------------------------------------------------------------------

  /**
   * `s.replace(new RegExp(pat, 'g'), v)` for a pattern without metacharacters and a
   * replacement without `$`: left to right, each occurrence is replaced and the
   * search resumes after it.
   */
  function ReplaceAll(s: string, pat: string, v: string): (r: string)
    requires |pat| > 0
    ensures CountReplaced(s, pat) == 0 ==> r == s
    decreases |s|
  {
    if |s| < |pat| then s
    else if s[..|pat|] == pat then v + ReplaceAll(s[|pat|..], pat, v)
    else [s[0]] + ReplaceAll(s[1..], pat, v)
  }

  /** How many occurrences `ReplaceAll` replaces. */
  function CountReplaced(s: string, pat: string): nat
    requires |pat| > 0
    decreases |s|
  {
    if |s| < |pat| then 0
    else if s[..|pat|] == pat then 1 + CountReplaced(s[|pat|..], pat)
    else CountReplaced(s[1..], pat)
  }

  /** When the pattern is not a prefix, it occurs in `s` exactly when it occurs in `s[1..]`. */
  lemma ContainsPastFirst(s: string, pat: string)
    requires 0 < |pat| <= |s| && s[..|pat|] != pat
    ensures Contains(s, pat) <==> Contains(s[1..], pat)
  {
    if Contains(s, pat) {
      var p :| 0 <= p <= |s| - |pat| && OccursAt(pat, s, p);
      assert p != 0;
      assert s[1..][p - 1..p - 1 + |pat|] == s[p..p + |pat|];
      assert OccursAt(pat, s[1..], p - 1);
    }
    if Contains(s[1..], pat) {
      var p :| 0 <= p <= |s[1..]| - |pat| && OccursAt(pat, s[1..], p);
      assert s[1..][p..p + |pat|] == s[p + 1..p + 1 + |pat|];
      assert OccursAt(pat, s, p + 1);
    }
  }

  /** Something is replaced exactly when the pattern occurs. */
  lemma {:induction false} CountReplacedZeroIffAbsent(s: string, pat: string)
    requires |pat| > 0
    ensures CountReplaced(s, pat) == 0 <==> !Contains(s, pat)
    decreases |s|
  {
    if |s| >= |pat| {
      if s[..|pat|] == pat {
        assert OccursAt(pat, s, 0);
      } else {
        ContainsPastFirst(s, pat);
        CountReplacedZeroIffAbsent(s[1..], pat);
      }
    }
  }

  /** Every replaced occurrence changes the length by `|v| - |pat|`. */
  lemma {:induction false} ReplaceAllLength(s: string, pat: string, v: string)
    requires |pat| > 0
    ensures |ReplaceAll(s, pat, v)| == |s| + CountReplaced(s, pat) * (|v| - |pat|)
    decreases |s|
  {
    if |s| >= |pat| {
      if s[..|pat|] == pat {
        var rest := s[|pat|..];
        ReplaceAllLength(rest, pat, v);
        assert ReplaceAll(s, pat, v) == v + ReplaceAll(rest, pat, v);
        assert CountReplaced(s, pat) == CountReplaced(rest, pat) + 1;
        MultiplySuccessor(CountReplaced(rest, pat), |v| - |pat|);
      } else {
        ReplaceAllLength(s[1..], pat, v);
        assert ReplaceAll(s, pat, v) == [s[0]] + ReplaceAll(s[1..], pat, v);
        assert CountReplaced(s, pat) == CountReplaced(s[1..], pat);
      }
    }
  }

  lemma MultiplySuccessor(c: int, d: int)
    ensures (c + 1) * d == c * d + d
  {
  }

  /** Replacing a pattern that does not occur leaves the string unchanged. */
  lemma {:induction false} ReplaceAllAbsent(s: string, pat: string, v: string)
    requires |pat| > 0
    requires !Contains(s, pat)
    ensures ReplaceAll(s, pat, v) == s
    decreases |s|
  {
    if |s| >= |pat| {
      assert !OccursAt(pat, s, 0);
      ContainsPastFirst(s, pat);
      ReplaceAllAbsent(s[1..], pat, v);
      assert s == [s[0]] + s[1..];
    }
  }

  /** Replacing a pattern by itself is the identity. */
  lemma {:induction false} ReplaceAllBySelf(s: string, pat: string)
    requires |pat| > 0
    ensures ReplaceAll(s, pat, pat) == s
    decreases |s|
  {
    if |s| >= |pat| {
      if s[..|pat|] == pat {
        ReplaceAllBySelf(s[|pat|..], pat);
        assert s == s[..|pat|] + s[|pat|..];
      } else {
        ReplaceAllBySelf(s[1..], pat);
        assert s == [s[0]] + s[1..];
      }
    }
  }

  /** A key that `new RegExp` reads literally: only `\w` characters. */
  predicate IsLiteralKey(key: string) {
    forall j :: 0 <= j < |key| ==> IsWordChar(key[j])
  }

  /** A replacement that `String.prototype.replace` inserts literally: no `$` patterns. */
  predicate IsLiteralValue(value: string) {
    forall j :: 0 <= j < |value| ==> value[j] != '$'
  }

  /** The `Object.entries(variables)` pairs `fillTemplate` can be given. */
  predicate IsLiteralEntries(entries: seq<(string, string)>) {
    forall e :: e in entries ==> IsLiteralKey(e.0) && IsLiteralValue(e.1)
  }

  /**
   * `fillTemplate(content, variables)`, with `entries` the pairs of
   * `Object.entries(variables)` in their iteration order: each key's placeholders
   * are replaced in turn, so a later key also sees text inserted by earlier ones.
   */
  function FillTemplate(content: string, entries: seq<(string, string)>): (filled: string)
    requires IsLiteralEntries(entries)
    ensures |entries| == 0 ==> filled == content
    decreases |entries|
  {
    if |entries| == 0 then content
    else FillTemplate(ReplaceAll(content, Braced(entries[0].0), entries[0].1), entries[1..])
  }

  /** Filling with two lists in a row is filling with their concatenation: the keys are applied one after another. */
  lemma {:induction false} FillTemplateAppend(content: string, first: seq<(string, string)>, second: seq<(string, string)>)
    requires IsLiteralEntries(first) && IsLiteralEntries(second)
    ensures IsLiteralEntries(first + second)
    ensures FillTemplate(content, first + second) == FillTemplate(FillTemplate(content, first), second)
    decreases |first|
  {
    assert forall e :: e in first + second ==> e in first || e in second;
    if |first| > 0 {
      var step := ReplaceAll(content, Braced(first[0].0), first[0].1);
      assert (first + second)[0] == first[0];
      assert (first + second)[1..] == first[1..] + second;
      assert forall e :: e in first[1..] ==> e in first;
      FillTemplateAppend(step, first[1..], second);
      assert FillTemplate(content, first + second) == FillTemplate(step, first[1..] + second);
      assert FillTemplate(content, first) == FillTemplate(step, first[1..]);
    } else {
      assert first + second == second;
    }
  }

  /**
   * Filling does not guarantee that a filled key's placeholder is gone: replaced
   * text can join the characters around it into a new occurrence.
   */
  lemma FillCanLeaveFilledPlaceholder()
    ensures IsLiteralEntries([("abc", "b")])
    ensures FillTemplate("{{a{{abc}}c}}", [("abc", "b")]) == "{{abc}}"
  {
    ReplacedExampleFront();
    BracedExample();
    FillOneEntry("{{a{{abc}}c}}", "abc", "b");
  }

  lemma BracedExample()
    ensures Braced("abc") == "{{abc}}"
  {
  }

  /** With one entry, filling is one global replace. */
  lemma FillOneEntry(content: string, key: string, value: string)
    requires IsLiteralKey(key) && IsLiteralValue(value)
    ensures IsLiteralEntries([(key, value)])
    ensures FillTemplate(content, [(key, value)]) == ReplaceAll(content, Braced(key), value)
  {
    assert [(key, value)][1..] == [];
  }

  lemma ReplacedExampleTail()
    ensures ReplaceAll("{{abc}}c}}", "{{abc}}", "b") == "bc}}"
  {
    ReplaceAllReplaces("{{abc}}c}}", "c}}", "{{abc}}", "b");
    assert ReplaceAll("c}}", "{{abc}}", "b") == "c}}";
  }

  lemma ReplacedExampleMiddle()
    ensures ReplaceAll("a{{abc}}c}}", "{{abc}}", "b") == "abc}}"
  {
    ReplacedExampleTail();
    ReplaceAllKeeps("a{{abc}}c}}", "{{abc}}c}}", "{{abc}}", "b");
  }

  lemma ReplacedExampleFront()
    ensures ReplaceAll("{{a{{abc}}c}}", "{{abc}}", "b") == "{{abc}}"
  {
    ReplacedExampleMiddle();
    assert "{a{{abc}}c}}"[..7][1] != "{{abc}}"[1];
    ReplaceAllKeeps("{a{{abc}}c}}", "a{{abc}}c}}", "{{abc}}", "b");
    assert "{{a{{abc}}c}}"[..7][3] != "{{abc}}"[3];
    ReplaceAllKeeps("{{a{{abc}}c}}", "{a{{abc}}c}}", "{{abc}}", "b");
  }

  /** A position where the pattern does not start keeps its character. */
  lemma ReplaceAllKeeps(s: string, rest: string, pat: string, v: string)
    requires |pat| > 0 && |s| >= |pat| && s[..|pat|] != pat && rest == s[1..]
    ensures ReplaceAll(s, pat, v) == [s[0]] + ReplaceAll(rest, pat, v)
  {
  }

  /** A position where the pattern starts has the occurrence replaced, and the search resumes after it. */
  lemma ReplaceAllReplaces(s: string, rest: string, pat: string, v: string)
    requires |pat| > 0 && |s| >= |pat| && s[..|pat|] == pat && rest == s[|pat|..]
    ensures ReplaceAll(s, pat, v) == v + ReplaceAll(rest, pat, v)
  {
  }

  /** Keys whose placeholder does not occur in the content change nothing. */
  lemma {:induction false} FillTemplateSkipsAbsentKeys(content: string, entries: seq<(string, string)>)
    requires IsLiteralEntries(entries)
    requires forall e :: e in entries ==> !Contains(content, Braced(e.0))
    ensures FillTemplate(content, entries) == content
    decreases |entries|
  {
    if |entries| > 0 {
      assert entries[0] in entries;
      ReplaceAllAbsent(content, Braced(entries[0].0), entries[0].1);
      assert forall e :: e in entries[1..] ==> e in entries;
      FillTemplateSkipsAbsentKeys(content, entries[1..]);
    }
  }

  /** Filling a name that `extractVariables` does not report leaves the content unchanged. */
  lemma FillUnlistedVariable(content: string, key: string, value: string)
    requires IsName(key) && IsLiteralValue(value)
    requires key !in ExtractVariables(content)
    ensures FillTemplate(content, [(key, value)]) == content
  {
    ExtractVariablesExact(content, key);
    FillTemplateSkipsAbsentKeys(content, [(key, value)]);
  }

  /** Filling every placeholder with its own text is the identity. */
  lemma {:induction false} FillTemplateWithPlaceholders(content: string, entries: seq<(string, string)>)
    requires IsLiteralEntries(entries)
    requires forall e :: e in entries ==> e.1 == Braced(e.0)
    ensures FillTemplate(content, entries) == content
    decreases |entries|
  {
    if |entries| > 0 {
      assert entries[0] in entries;
      ReplaceAllBySelf(content, Braced(entries[0].0));
      assert forall e :: e in entries[1..] ==> e in entries;
      FillTemplateWithPlaceholders(content, entries[1..]);
    }
  }

  // ---------------------------------------------------------------------------
  // truncate
  // ---------------------------------------------------------------------------

  /** One UTF-16 code unit; a JavaScript string is a sequence of them. */
  newtype CodeUnit = x: int | 0 <= x < 0x1_0000

  /** The UTF-16 encoding of one character: itself below U+10000, a surrogate pair above. */
  function EncodeChar(c: char): (units: seq<CodeUnit>)
    ensures |units| == if (c as int) < 0x1_0000 then 1 else 2
    ensures (c as int) < 0x1_0000 ==> units[0] as int == c as int
    ensures (c as int) >= 0x1_0000 ==>
              && 0xD800 <= units[0] as int < 0xDC00 <= units[1] as int < 0xE000
              && c as int == 0x1_0000 + (units[0] as int - 0xD800) * 0x400 + (units[1] as int - 0xDC00)
  {
    if (c as int) < 0x1_0000 then [c as int as CodeUnit]
    else
      var v := c as int - 0x1_0000;
      [(0xD800 + v / 0x400) as CodeUnit, (0xDC00 + v % 0x400) as CodeUnit]
  }

  /** The JavaScript string holding `s`: its characters' code units, in order. */
  function Utf16(s: string): (units: seq<CodeUnit>)
    ensures |units| >= |s|
    decreases |s|
  {
    if |s| == 0 then [] else EncodeChar(s[0]) + Utf16(s[1..])
  }

  /** Every character lies below U+10000, so each is one code unit. */
  predicate InBasicPlane(s: string) {
    forall i :: 0 <= i < |s| ==> (s[i] as int) < 0x1_0000
  }

  /** Below U+10000 the code units are the characters themselves. */
  lemma {:induction false} Utf16BasicPlane(s: string)
    requires InBasicPlane(s)
    ensures |Utf16(s)| == |s|
    ensures forall i :: 0 <= i < |s| ==> Utf16(s)[i] as int == s[i] as int
    decreases |s|
  {
    if |s| > 0 {
      Utf16BasicPlane(s[1..]);
      var rest := Utf16(s[1..]);
      assert Utf16(s) == EncodeChar(s[0]) + rest;
      forall i | 1 <= i < |s|
        ensures Utf16(s)[i] as int == s[i] as int
      {
        assert Utf16(s)[i] == rest[i - 1];
        assert s[1..][i - 1] == s[i];
      }
    }
  }

  lemma {:induction false} Utf16Append(a: string, b: string)
    ensures Utf16(a + b) == Utf16(a) + Utf16(b)
    decreases |a|
  {
    if |a| == 0 {
      assert a + b == b;
    } else {
      Utf16Append(a[1..], b);
      assert (a + b)[0] == a[0] && (a + b)[1..] == a[1..] + b;
    }
  }

  /**
   * `truncate(str, length)` for a non-negative `length`. `str.length` and
   * `str.slice` count UTF-16 code units, so a cut can fall between the two
   * halves of a surrogate pair.
   */
  function Truncate(s: seq<CodeUnit>, length: nat): (r: seq<CodeUnit>)
    ensures |s| <= length ==> r == s
    ensures |s| > length ==> |r| == length + 3 && r[..length] == s[..length] && r[length..] == Utf16("...")
  {
    if |s| <= length then s else s[..length] + Utf16("...")
  }

  /** Truncating twice to the same length is truncating once. */
  lemma TruncateIdempotent(s: seq<CodeUnit>, length: nat)
    ensures Truncate(Truncate(s, length), length) == Truncate(s, length)
  {
    if |s| > length {
      var t := Truncate(s, length);
      assert t[..length] == s[..length];
    }
  }

  /** Below U+10000 the first `n` code units encode the first `n` characters. */
  lemma Utf16Prefix(s: string, n: nat)
    requires InBasicPlane(s) && n <= |s|
    ensures Utf16(s)[..n] == Utf16(s[..n])
  {
    var pre, post := s[..n], s[n..];
    assert s == pre + post;
    Utf16Append(pre, post);
    assert InBasicPlane(pre);
    Utf16BasicPlane(pre);
  }

  /** On text below U+10000 the length counts characters: the first `length` are kept. */
  lemma TruncateBasicPlane(s: string, length: nat)
    requires InBasicPlane(s)
    ensures |s| <= length ==> Truncate(Utf16(s), length) == Utf16(s)
    ensures |s| > length ==> Truncate(Utf16(s), length) == Utf16(s[..length] + "...")
  {
    Utf16BasicPlane(s);
    if |s| > length {
      Utf16Prefix(s, length);
      Utf16Append(s[..length], "...");
    }
  }

  /** A character above U+10000 counts twice: two emoji are longer than two. */
  lemma TruncateCountsCodeUnits()
    ensures Truncate(Utf16("\U{1F600}\U{1F600}"), 2) == Utf16("\U{1F600}...")
  {
    var e := "\U{1F600}";
    assert |EncodeChar(e[0])| == 2;
    Utf16Append(e, e);
    Utf16Append(e, "...");
    assert e + e == "\U{1F600}\U{1F600}";
    assert e + "..." == "\U{1F600}...";
  }

  /** A cut through a surrogate pair leaves its high half alone before the dots. */
  lemma TruncateCanSplitPair()
    ensures Truncate(Utf16("\U{1F600}"), 1) == [0xD83D as CodeUnit] + Utf16("...")
  {
    assert Utf16("\U{1F600}") == EncodeChar('\U{1F600}');
  }
}
