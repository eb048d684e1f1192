/**
 * The token engine (src/lib/templates/engine.ts): finding the `{name}`
 * placeholders of a template and rendering it with values.
 *
 * Both operations use the same global pattern, `{` followed by one or more
 * ASCII letters, digits or underscores, followed by `}`. The pattern engine's
 * scan is modelled by `MatchAt` (does a placeholder start here?) and
 * `Matches` (the list of matches found from left to right, each search
 * resuming after the previous match).
 */
module Engine {
  import opened Wrappers
  import Sorting

  // ------------------------------------------------------------ the pattern

  predicate IsWordChar(c: char) {
    ('a' <= c <= 'z') || ('A' <= c <= 'Z') || ('0' <= c <= '9') || c == '_'
  }

  /** A placeholder name: non-empty, made of word characters only. */
  predicate IsWord(w: string) {
    |w| > 0 && forall i :: 0 <= i < |w| ==> IsWordChar(w[i])
  }

  /** `{w}` occurs in `s` starting at position `p`. */
  predicate OccursAt(s: string, w: string, p: int) {
    && 0 <= p
    && p + |w| + 2 <= |s|
    && s[p] == '{'
    && s[p + 1..p + 1 + |w|] == w
    && s[p + 1 + |w|] == '}'
  }

  /** `w` is a placeholder name of `s`: some `{w}` with `w` over the word characters occurs in `s`. */
  ghost predicate IsTokenOf(s: string, w: string) {
    IsWord(w) && exists p :: OccursAt(s, w, p)
  }

  /** The end of the longest run of word characters starting at `k`. */
  function WordRunEnd(s: string, k: nat): (j: nat)
    requires k <= |s|
    ensures k <= j <= |s|
    ensures forall i :: k <= i < j ==> IsWordChar(s[i])
    ensures j == |s| || !IsWordChar(s[j])
    decreases |s| - k
  {
    if k < |s| && IsWordChar(s[k]) then WordRunEnd(s, k + 1) else k
  }

  /** The name of the placeholder starting at `p`, if one does. */
  function MatchAt(s: string, p: nat): (r: Option<string>)
    requires p <= |s|
    ensures r.Some? ==> IsWord(r.value) && OccursAt(s, r.value, p)
  {
    if p < |s| && s[p] == '{' then
      var j := WordRunEnd(s, p + 1);
      if p + 1 < j < |s| && s[j] == '}' then Some(s[p + 1..j]) else None
    else None
  }

  /** A placeholder occurrence always matches, with its own name: names cannot overlap a closing brace. */
  lemma {:induction false} MatchAtFinds(s: string, w: string, p: nat)
    requires IsWord(w) && OccursAt(s, w, p)
    ensures MatchAt(s, p) == Some(w)
  {
    var j := WordRunEnd(s, p + 1);
    forall i | p + 1 <= i < p + 1 + |w| ensures IsWordChar(s[i]) {
      assert s[i] == s[p + 1..p + 1 + |w|][i - (p + 1)];
    }
    assert !IsWordChar(s[p + 1 + |w|]);
  }

  datatype Match = Match(start: nat, key: string) {
    /** The position just after the closing brace. */
    function End(): nat { start + |key| + 2 }
  }

  /** Matches that lie in `s` from `from` on, in order and apart. */
  predicate Disjoint(s: string, from: nat, ms: seq<Match>)
    decreases |ms|
  {
    ms == [] || (from <= ms[0].start && ms[0].End() <= |s| && Disjoint(s, ms[0].End(), ms[1..]))
  }

  /** The matches a global scan finds from position `from`, left to right. */
  function Matches(s: string, from: nat): seq<Match>
    requires from <= |s|
    decreases |s| - from
  {
    if from == |s| then []
    else
      match MatchAt(s, from)
      case Some(key) => [Match(from, key)] + Matches(s, from + |key| + 2)
      case None => Matches(s, from + 1)
  }

  /** The scan finds genuine matches, in order and apart. */
  lemma {:induction false} MatchesSound(s: string, from: nat)
    requires from <= |s|
    ensures Disjoint(s, from, Matches(s, from))
    ensures forall i :: 0 <= i < |Matches(s, from)| ==>
      Matches(s, from)[i].End() <= |s| && MatchAt(s, Matches(s, from)[i].start) == Some(Matches(s, from)[i].key)
    decreases |s| - from
  {
    if from < |s| {
      var m := MatchAt(s, from);
      if m.Some? {
        var next := from + |m.value| + 2;
        MatchesSound(s, next);
        MatchesAt(s, from, m.value);
        var ms, rest := Matches(s, from), Matches(s, next);
        forall i | 0 < i < |ms| ensures ms[i] == rest[i - 1] {}
      } else {
        MatchesSound(s, from + 1);
        MatchesSkip(s, from);
      }
    }
  }

  /** Matches never overlap: no placeholder starts inside another one. */
  lemma {:induction false} NoStartInside(s: string, m: Match, q: int)
    requires IsWord(m.key) && OccursAt(s, m.key, m.start)
    requires m.start < q < m.End()
    ensures s[q] != '{'
  {
    if q < m.start + 1 + |m.key| {
      assert s[q] == s[m.start + 1..m.start + 1 + |m.key|][q - (m.start + 1)];
      assert IsWordChar(s[q]);
    }
  }

  /** Every placeholder occurrence from `from` on is one of the matches: the scan misses none. */
  lemma {:induction false} MatchesComplete(s: string, from: nat, w: string, p: nat)
    requires from <= p && IsWord(w) && OccursAt(s, w, p)
    ensures Match(p, w) in Matches(s, from)
    decreases |s| - from
  {
    if from == p {
      MatchAtFinds(s, w, p);
      MatchesAt(s, p, w);
      assert Matches(s, p)[0] == Match(p, w);
    } else {
      var m := MatchAt(s, from);
      if m.Some? {
        var next := from + |m.value| + 2;
        if p < next {
          NoStartInside(s, Match(from, m.value), p);
        }
        MatchesComplete(s, next, w, p);
        KeptAfterMatch(s, from, m.value, Match(p, w));
      } else {
        MatchesComplete(s, from + 1, w, p);
        MatchesSkip(s, from);
      }
    }
  }

  /** A match the scan finds after a match is one the scan from that match finds. */
  lemma KeptAfterMatch(s: string, from: nat, key: string, x: Match)
    requires from < |s| && MatchAt(s, from) == Some(key)
    requires from + |key| + 2 <= |s| && x in Matches(s, from + |key| + 2)
    ensures x in Matches(s, from)
  {
    var ms, rest := Matches(s, from), Matches(s, from + |key| + 2);
    MatchesAt(s, from, key);
    var j :| 0 <= j < |rest| && rest[j] == x;
    assert ms[1..][j] == x;
    assert ms[j + 1] == x;
  }

  /** A scan from a match records it and resumes after it. */
  lemma MatchesAt(s: string, from: nat, key: string)
    requires from < |s| && MatchAt(s, from) == Some(key)
    ensures from + |key| + 2 <= |s|
    ensures Matches(s, from) != [] && Matches(s, from)[0] == Match(from, key)
    ensures Matches(s, from)[1..] == Matches(s, from + |key| + 2)
  {
    var rest := Matches(s, from + |key| + 2);
    assert Matches(s, from) == [Match(from, key)] + rest;
    assert ([Match(from, key)] + rest)[1..] == rest;
  }

  /** A scan from a position where nothing matches resumes one further on. */
  lemma MatchesSkip(s: string, from: nat)
    requires from < |s| && MatchAt(s, from).None?
    ensures Matches(s, from) == Matches(s, from + 1)
  {
  }

  // -------------------------------------------------------- string ordering

  /**
   * A fixed total order on strings: lexicographic by character code. (The
   * application compares with the locale's collation, which this model does
   * not reproduce.)
   */
  predicate StrLe(a: string, b: string) {
    if |a| == 0 then true
    else if |b| == 0 then false
    else if a[0] != b[0] then a[0] < b[0]
    else StrLe(a[1..], b[1..])
  }

  lemma {:induction false} StrLeTotal(a: string, b: string)
    ensures StrLe(a, b) || StrLe(b, a)
  {
    if |a| > 0 && |b| > 0 && a[0] == b[0] {
      StrLeTotal(a[1..], b[1..]);
    }
  }

  lemma {:induction false} StrLeTransitive(a: string, b: string, c: string)
    requires StrLe(a, b) && StrLe(b, c)
    ensures StrLe(a, c)
  {
    if |a| > 0 && |b| > 0 && |c| > 0 && a[0] == b[0] && b[0] == c[0] {
      StrLeTransitive(a[1..], b[1..], c[1..]);
    }
  }

  lemma {:induction false} StrLeAntisymmetric(a: string, b: string)
    requires StrLe(a, b) && StrLe(b, a)
    ensures a == b
  {
    if |a| > 0 && |b| > 0 {
      StrLeAntisymmetric(a[1..], b[1..]);
      assert a == [a[0]] + a[1..];
      assert b == [b[0]] + b[1..];
    }
  }

  lemma StrLeIsTotalPreorder()
    ensures Sorting.IsTotalPreorder(StrLe)
  {
    forall a, b ensures StrLe(a, b) || StrLe(b, a) {
      StrLeTotal(a, b);
    }
    forall a, b, c | StrLe(a, b) && StrLe(b, c) ensures StrLe(a, c) {
      StrLeTransitive(a, b, c);
    }
  }

  /** Ascending without repetition. */
  predicate StrictlyAscending(s: seq<string>) {
    forall i, j :: 0 <= i < j < |s| ==> StrLe(s[i], s[j]) && s[i] != s[j]
  }

  // ------------------------------------------------------------ extraction

  /** The names of the matches, as a set. */
  function MatchKeys(ms: seq<Match>): set<string> {
    set k | 0 <= k < |ms| :: ms[k].key
  }

  lemma MatchKeysSnoc(ms: seq<Match>, i: nat)
    requires i < |ms|
    ensures MatchKeys(ms[..i + 1]) == MatchKeys(ms[..i]) + {ms[i].key}
  {
    var a, b := ms[..i], ms[..i + 1];
    forall w | w in MatchKeys(b) ensures w in MatchKeys(a) + {ms[i].key} {
      var k :| 0 <= k < |b| && b[k].key == w;
      if k < i {
        assert a[k] == b[k];
      }
    }
    forall w | w in MatchKeys(a) + {ms[i].key} ensures w in MatchKeys(b) {
      if w == ms[i].key {
        assert b[i] == ms[i];
      } else {
        var k :| 0 <= k < |a| && a[k].key == w;
        assert b[k] == a[k];
      }
    }
  }

  /** The names a scan of the whole content matches are exactly its placeholder names. */
  lemma MatchKeysAreTokens(content: string, w: string)
    ensures w in MatchKeys(Matches(content, 0)) <==> IsTokenOf(content, w)
  {
    var ms := Matches(content, 0);
    MatchesSound(content, 0);
    if IsTokenOf(content, w) {
      var p :| OccursAt(content, w, p);
      MatchesComplete(content, 0, w, p);
      var k :| 0 <= k < |ms| && ms[k] == Match(p, w);
      assert w == ms[k].key;
    }
  }

  /**
   * The distinct placeholder names of `content`, ascending. A name is listed
   * exactly when `{name}` occurs in the content; `{}` and names with other
   * characters are not placeholders.
   */
  method ExtractTokens(content: string) returns (tokens: seq<string>)
    ensures forall w :: w in tokens <==> IsTokenOf(content, w)
    ensures StrictlyAscending(tokens)
  {
    var found: set<string> := {};
    var ms := Matches(content, 0);
    MatchesSound(content, 0);
    for i := 0 to |ms|
      invariant found == MatchKeys(ms[..i])
    {
      var token := ms[i].key;
      assert MatchAt(content, ms[i].start) == Some(token);
      MatchKeysSnoc(ms, i);
      if token != "" {
        found := found + {token};
      }
    }
    assert ms[..|ms|] == ms;
    tokens := SortedElements(found);
    forall w ensures w in tokens <==> IsTokenOf(content, w) {
      MatchKeysAreTokens(content, w);
    }
  }

  // ------------------------------------------------------------ round trip

  /** Content built only from the given names, each wrapped in braces, in order. */
  function Braced(ws: seq<string>): string
    decreases |ws|
  {
    if ws == [] then "" else Braced(ws[..|ws| - 1]) + ("{" + ws[|ws| - 1] + "}")
  }

  /** Braced content is empty or ends with a closing brace. */
  lemma BracedEndsWithBrace(ws: seq<string>)
    ensures Braced(ws) == [] || Braced(ws)[|Braced(ws)| - 1] == '}'
  {
  }

  /** Text appended after an occurrence leaves it in place, and adds none that lies wholly before. */
  lemma OccursInPrefix(b: string, x: string, w: string, p: nat)
    requires p + |w| + 2 <= |b|
    ensures OccursAt(b + x, w, p) <==> OccursAt(b, w, p)
  {
    var s := b + x;
    assert s[p + 1..p + 1 + |w|] == b[p + 1..p + 1 + |w|];
  }

  /** Occurrences at or after `|b|` in `b + x` are the occurrences of `x`, shifted. */
  lemma OccursInSuffix(b: string, x: string, w: string, p: nat)
    requires |b| <= p
    ensures OccursAt(b + x, w, p) <==> OccursAt(x, w, p - |b|)
  {
    if p + |w| + 2 <= |b + x| {
      var s, q := b + x, p - |b|;
      assert s[p + 1..p + 1 + |w|] == x[q + 1..q + 1 + |w|];
    }
  }

  /** After a closing brace, no placeholder occurrence straddles the boundary. */
  lemma NoOccurrenceAcross(b: string, x: string, w: string, p: nat)
    requires b == [] || b[|b| - 1] == '}'
    requires IsWord(w) && OccursAt(b + x, w, p)
    ensures p + |w| + 2 <= |b| || |b| <= p
  {
    var s := b + x;
    if p < |b| {
      var e := |b| - 1;
      assert s[e] == '}' && !IsWordChar(s[e]);
      forall k | p + 1 <= k <= p + |w| ensures IsWordChar(s[k]) {
        assert s[k] == s[p + 1..p + 1 + |w|][k - p - 1];
      }
    }
  }

  /** The only occurrence in `{last}` is `last` itself, at its start. */
  lemma OnlyItself(last: string, w: string, q: nat)
    requires IsWord(last) && IsWord(w) && OccursAt("{" + last + "}", w, q)
    ensures q == 0 && w == last
  {
    var t := "{" + last + "}";
    forall k | 1 <= k <= |last| ensures t[k] == last[k - 1] && IsWordChar(t[k]) {}
    assert t[|last| + 1] == '}';
    assert q == 0;
    forall k | 1 <= k <= |w| ensures IsWordChar(t[k]) {
      assert t[k] == t[1..1 + |w|][k - 1];
    }
    assert |w| == |last|;
    assert t[1..1 + |w|] == last;
  }

  /**
   * Extracting names from content built only of braced names gives back
   * exactly those names: a string is a placeholder name of `Braced(ws)`
   * exactly when it is one of `ws`.
   */
  lemma {:induction false} BracedTokens(ws: seq<string>, w: string)
    requires forall i :: 0 <= i < |ws| ==> IsWord(ws[i])
    ensures IsTokenOf(Braced(ws), w) <==> w in ws
    decreases |ws|
  {
    if ws != [] {
      var n := |ws| - 1;
      var init, last := ws[..n], ws[n];
      var b, t := Braced(init), "{" + last + "}";
      assert Braced(ws) == b + t;
      assert forall i :: 0 <= i < |init| ==> init[i] == ws[i];
      BracedTokens(init, w);
      assert w in ws <==> w in init || w == last by {
        if w in ws {
          var i :| 0 <= i < |ws| && ws[i] == w;
          if i < n {
            assert init[i] == w;
          }
        }
      }
      if w in init {
        var p :| OccursAt(b, w, p);
        OccursInPrefix(b, t, w, p);
      } else if w == last {
        assert OccursAt(t, last, 0);
        OccursInSuffix(b, t, last, |b|);
      }
      if IsTokenOf(b + t, w) {
        var p :| OccursAt(b + t, w, p);
        BracedEndsWithBrace(init);
        NoOccurrenceAcross(b, t, w, p);
        if p + |w| + 2 <= |b| {
          OccursInPrefix(b, t, w, p);
        } else {
          OccursInSuffix(b, t, w, p);
          OnlyItself(last, w, p - |b|);
        }
      }
    }
  }

  /** Two strictly ascending lists with the same elements are the same list. */
  lemma {:induction false} AscendingUnique(a: seq<string>, b: seq<string>)
    requires StrictlyAscending(a) && StrictlyAscending(b)
    requires forall w :: w in a <==> w in b
    ensures a == b
    decreases |a|
  {
    assert |b| == 0 || b[0] in b;
    if a != [] {
      assert a[0] in a;
      var i :| 0 <= i < |a| && a[i] == b[0];
      var j :| 0 <= j < |b| && b[j] == a[0];
      if i != 0 && j != 0 {
        StrLeAntisymmetric(a[0], b[0]);
      }
      assert a[0] == b[0];
      forall w ensures w in a[1..] <==> w in b[1..] {
        if w in a[1..] {
          var k :| 0 <= k < |a[1..]| && a[1..][k] == w;
          assert a[k + 1] == w && w in a;
          var m :| 0 <= m < |b| && b[m] == w;
          assert m != 0;
          assert b[1..][m - 1] == w;
        }
        if w in b[1..] {
          var k :| 0 <= k < |b[1..]| && b[1..][k] == w;
          assert b[k + 1] == w && w in b;
          var m :| 0 <= m < |a| && a[m] == w;
          assert m != 0;
          assert a[1..][m - 1] == w;
        }
      }
      AscendingUnique(a[1..], b[1..]);
      assert a == [a[0]] + a[1..] && b == [b[0]] + b[1..];
    }
  }

  /**
   * Extraction is idempotent on its own output written back as content: if
   * `tokens` is what `ExtractTokens` returns for some content and `again` is
   * what it returns for `Braced(tokens)`, the two lists are equal.
   */
  lemma ExtractBracedRoundTrip(content: string, tokens: seq<string>, again: seq<string>)
    requires (forall w :: w in tokens <==> IsTokenOf(content, w)) && StrictlyAscending(tokens)
    requires (forall w :: w in again <==> IsTokenOf(Braced(tokens), w)) && StrictlyAscending(again)
    ensures again == tokens
  {
    assert forall i :: 0 <= i < |tokens| ==> IsWord(tokens[i]) by {
      forall i | 0 <= i < |tokens| ensures IsWord(tokens[i]) {
        assert tokens[i] in tokens;
      }
    }
    forall w ensures w in again <==> w in tokens {
      BracedTokens(tokens, w);
    }
    AscendingUnique(again, tokens);
  }

  /** The elements of a set of strings, spread into an array and sorted. */
  method SortedElements(found: set<string>) returns (sorted: seq<string>)
    ensures forall w :: w in sorted <==> w in found
    ensures StrictlyAscending(sorted)
  {
    var all := Spread(found);
    var a := new string[|all|](k requires 0 <= k < |all| => all[k]);
    assert a[..] == all;
    StrLeIsTotalPreorder();
    Sorting.InsertionSort(a, StrLe);
    sorted := a[..];
    forall i, j | 0 <= i < j < |sorted| ensures sorted[i] != sorted[j] {
      SetMultiplicityOne(sorted, found, i, j);
    }
    forall w ensures w in sorted <==> w in found {
      assert w in sorted <==> w in multiset(sorted);
    }
  }

  /** The elements of a set, in some order, each once. */
  method Spread(found: set<string>) returns (all: seq<string>)
    ensures multiset(all) == multiset(found)
  {
    all := [];
    var rest := found;
    while rest != {}
      invariant rest <= found
      invariant multiset(all) == multiset(found - rest)
      decreases |rest|
    {
      var x :| x in rest;
      all := all + [x];
      rest := rest - {x};
      assert found - rest == (found - (rest + {x})) + {x};
    }
    assert found - rest == found;
  }

  /** A sequence with the multiset of a set repeats no element. */
  lemma SetMultiplicityOne<T>(s: seq<T>, found: set<T>, i: int, j: int)
    requires multiset(s) == multiset(found)
    requires 0 <= i < j < |s|
    ensures s[i] != s[j]
  {
    var x := s[i];
    assert multiset(found)[x] <= 1;
    assert s == s[..i] + [x] + s[i + 1..];
    assert s[j] in s[i + 1..];
  }

  // ------------------------------------------------------------- rendering

  /**
   * The characters JavaScript's `trim` removes: the white space characters
   * (tab, vertical tab, form feed, no-break space, zero width no-break space
   * and every space separator of the Unicode standard) and the line
   * terminators.
   */
  const SPACES: set<char> := {
    '\t', '\n', '\U{000B}', '\U{000C}', '\r', ' ', '\U{00A0}', '\U{1680}',
    '\U{2000}', '\U{2001}', '\U{2002}', '\U{2003}', '\U{2004}', '\U{2005}',
    '\U{2006}', '\U{2007}', '\U{2008}', '\U{2009}', '\U{200A}',
    '\U{2028}', '\U{2029}', '\U{202F}', '\U{205F}', '\U{3000}', '\U{FEFF}'}

  predicate IsSpace(c: char) {
    c in SPACES
  }

  predicate IsBlank(s: string) {
    forall i :: 0 <= i < |s| ==> IsSpace(s[i])
  }

  /** The first position at or after `i` that does not hold white space, or `|s|`. */
  function SpaceRunEnd(s: string, i: nat): (k: nat)
    requires i <= |s|
    ensures i <= k <= |s|
    ensures forall m :: i <= m < k ==> IsSpace(s[m])
    ensures k < |s| ==> !IsSpace(s[k])
    decreases |s| - i
  {
    if i < |s| && IsSpace(s[i]) then SpaceRunEnd(s, i + 1) else i
  }

  /** The position after the last character before `j`, and not before `lo`, that is not white space, or `lo`. */
  function SpaceRunStart(s: string, lo: nat, j: nat): (k: nat)
    requires lo <= j <= |s|
    ensures lo <= k <= j
    ensures forall m :: k <= m < j ==> IsSpace(s[m])
    ensures lo < k ==> !IsSpace(s[k - 1])
    decreases j
  {
    if lo < j && IsSpace(s[j - 1]) then SpaceRunStart(s, lo, j - 1) else j
  }

  /** `r` is `s` with `i` white space characters cut from the front and white space only cut from the back. */
  predicate TrimmedAt(s: string, r: string, i: int) {
    && 0 <= i <= |s| - |r|
    && s[i..i + |r|] == r
    && (forall k :: 0 <= k < i ==> IsSpace(s[k]))
    && (forall k :: i + |r| <= k < |s| ==> IsSpace(s[k]))
  }

  /**
   * `s` without its leading and trailing white space: only white space is
   * cut, from the two ends, and what is left neither starts nor ends with it.
   */
  function Trim(s: string): (r: string)
    ensures TrimmedAt(s, r, SpaceRunEnd(s, 0))
    ensures r == [] || (!IsSpace(r[0]) && !IsSpace(r[|r| - 1]))
    ensures r == [] <==> IsBlank(s)
  {
    var i := SpaceRunEnd(s, 0);
    var j := SpaceRunStart(s, i, |s|);
    assert i < |s| ==> i < j;
    s[i..j]
  }

  datatype Mode = Preview | Final

  /**
   * The value supplied for `key`, or "" when none is: `values[key] ?? ""` as
   * intended, reading only the values' own properties. The source's plain
   * object also yields inherited properties; `LookupAsWritten` models that.
   */
  function Lookup(values: map<string, string>, key: string): string {
    if key in values then values[key] else ""
  }

  /**
   * What a placeholder is replaced by: the supplied value without its
   * surrounding white space if that is not empty; otherwise the marker
   * `[key]` in preview mode and nothing in final mode.
   */
  function Replacement(key: string, values: map<string, string>, mode: Mode): (r: string)
    ensures !IsBlank(Lookup(values, key)) ==> r == Trim(Lookup(values, key)) && r != ""
    ensures IsBlank(Lookup(values, key)) && mode == Preview ==> r == "[" + key + "]"
    ensures r == "" <==> IsBlank(Lookup(values, key)) && mode == Final
  {
    var v := Trim(Lookup(values, key));
    if |v| > 0 then v
    else if mode == Preview then "[" + key + "]"
    else assert v == []; assert IsBlank(Lookup(values, key)); assert mode == Final; ""
  }

  /**
   * Replacing every match of the pattern from `from` on, in one
   * left-to-right pass, by what `callback` returns for its name; every other
   * character is copied. This is the string `replace` with the global pattern
   * and a replacement callback.
   */
  function ReplaceMatches(s: string, from: nat, callback: string -> string): string
    requires from <= |s|
    decreases |s| - from
  {
    if from == |s| then ""
    else
      match MatchAt(s, from)
      case Some(key) => callback(key) + ReplaceMatches(s, from + |key| + 2, callback)
      case None => [s[from]] + ReplaceMatches(s, from + 1, callback)
  }

  /** The replacement callback of rendering, for given values and mode. */
  function Filler(values: map<string, string>, mode: Mode): string -> string {
    key => Replacement(key, values, mode)
  }

  /**
   * The rendered template, as intended; preview is the default mode. It
   * reads values through `Lookup`, so a name the values do not define
   * renders like any other missing value even when it is one of the
   * inherited property names; `RenderAsWritten` is the render as the source
   * does it. The result is the splice of the scan's matches.
   */
  function RenderTemplate(input: string, values: map<string, string>, mode: Mode := Preview): (r: string)
    ensures Disjoint(input, 0, Matches(input, 0))
    ensures r == Splice(input, 0, Matches(input, 0), Filler(values, mode))
  {
    ReplaceIsSplice(input, 0, Filler(values, mode));
    ReplaceMatches(input, 0, Filler(values, mode))
  }

  /**
   * The text between the given matches, copied, with each match replaced:
   * the reference meaning of a substitution over known matches.
   */
  function Splice(s: string, from: nat, ms: seq<Match>, callback: string -> string): string
    requires from <= |s| && Disjoint(s, from, ms)
    decreases |ms|
  {
    if ms == [] then s[from..]
    else s[from..ms[0].start] + (callback(ms[0].key) + Splice(s, ms[0].End(), ms[1..], callback))
  }

  lemma {:induction false} SpliceCopiesFirst(s: string, from: nat, ms: seq<Match>, callback: string -> string)
    requires from < |s| && Disjoint(s, from + 1, ms)
    ensures Disjoint(s, from, ms)
    ensures Splice(s, from, ms, callback) == [s[from]] + Splice(s, from + 1, ms, callback)
  {
    if ms == [] {
      assert s[from..] == [s[from]] + s[from + 1..];
    } else {
      var tail := callback(ms[0].key) + Splice(s, ms[0].End(), ms[1..], callback);
      assert s[from..ms[0].start] == [s[from]] + s[from + 1..ms[0].start];
      assert Splice(s, from + 1, ms, callback) == s[from + 1..ms[0].start] + tail;
      assert Splice(s, from, ms, callback) == ([s[from]] + s[from + 1..ms[0].start]) + tail;
    }
  }

  /**
   * The one-pass replacement is the splice of the matches the scan finds:
   * the text outside placeholders is copied unchanged, every placeholder is
   * replaced, and a replacement is never scanned again.
   */
  lemma {:induction false} ReplaceIsSplice(s: string, from: nat, callback: string -> string)
    requires from <= |s|
    ensures Disjoint(s, from, Matches(s, from))
    ensures ReplaceMatches(s, from, callback) == Splice(s, from, Matches(s, from), callback)
    decreases |s| - from
  {
    if from < |s| {
      var m := MatchAt(s, from);
      if m.Some? {
        MatchesAt(s, from, m.value);
        ReplaceIsSplice(s, from + |m.value| + 2, callback);
        SpliceStepAtMatch(s, from, m.value, callback);
      } else {
        ReplaceIsSplice(s, from + 1, callback);
        SpliceStepSkip(s, from, callback);
      }
    } else {
      assert Matches(s, from) == [];
      assert ReplaceMatches(s, from, callback) == [] == s[from..];
    }
  }

  /** The induction step of `ReplaceIsSplice` at a match. */
  lemma SpliceStepAtMatch(s: string, from: nat, key: string, callback: string -> string)
    requires from < |s| && MatchAt(s, from) == Some(key) && from + |key| + 2 <= |s|
    requires Disjoint(s, from + |key| + 2, Matches(s, from + |key| + 2))
    requires ReplaceMatches(s, from + |key| + 2, callback) == Splice(s, from + |key| + 2, Matches(s, from + |key| + 2), callback)
    ensures Disjoint(s, from, Matches(s, from))
    ensures ReplaceMatches(s, from, callback) == Splice(s, from, Matches(s, from), callback)
  {
    var next, ms := from + |key| + 2, Matches(s, from);
    MatchesAt(s, from, key);
    assert ms[0].End() == next;
    assert Disjoint(s, from, ms);
    ReplaceAt(s, from, key, callback);
    SpliceAtMatch(s, from, ms, callback);
    assert Splice(s, from, ms, callback) == callback(key) + Splice(s, next, Matches(s, next), callback);
  }

  /** The induction step of `ReplaceIsSplice` where nothing matches. */
  lemma SpliceStepSkip(s: string, from: nat, callback: string -> string)
    requires from < |s| && MatchAt(s, from).None?
    requires Disjoint(s, from + 1, Matches(s, from + 1))
    requires ReplaceMatches(s, from + 1, callback) == Splice(s, from + 1, Matches(s, from + 1), callback)
    ensures Disjoint(s, from, Matches(s, from))
    ensures ReplaceMatches(s, from, callback) == Splice(s, from, Matches(s, from), callback)
  {
    MatchesSkip(s, from);
    ReplaceSkip(s, from, callback);
    SpliceCopiesFirst(s, from, Matches(s, from + 1), callback);
  }

  /** The replace at a match inserts the callback's result and resumes after the match. */
  lemma ReplaceAt(s: string, from: nat, key: string, callback: string -> string)
    requires from < |s| && MatchAt(s, from) == Some(key)
    ensures from + |key| + 2 <= |s|
    ensures ReplaceMatches(s, from, callback) == callback(key) + ReplaceMatches(s, from + |key| + 2, callback)
  {
  }

  /** The replace where nothing matches copies the character and moves on. */
  lemma ReplaceSkip(s: string, from: nat, callback: string -> string)
    requires from < |s| && MatchAt(s, from).None?
    ensures ReplaceMatches(s, from, callback) == [s[from]] + ReplaceMatches(s, from + 1, callback)
  {
  }

  /** The splice of matches whose first one starts at `from` begins with that match's replacement. */
  lemma SpliceAtMatch(s: string, from: nat, ms: seq<Match>, callback: string -> string)
    requires ms != [] && from <= |s| && Disjoint(s, from, ms) && ms[0].start == from
    ensures Splice(s, from, ms, callback) == callback(ms[0].key) + Splice(s, ms[0].End(), ms[1..], callback)
  {
    assert s[from..from] == [];
  }

  /** A content without placeholders gives the scan nothing to match. */
  lemma NoMatchesWithoutTokens(s: string)
    requires forall w :: !IsTokenOf(s, w)
    ensures Matches(s, 0) == []
  {
    var ms := Matches(s, 0);
    MatchesSound(s, 0);
    if ms != [] {
      var m := ms[0];
      assert MatchAt(s, m.start) == Some(m.key);
      assert OccursAt(s, m.key, m.start);
      assert IsTokenOf(s, m.key);
      assert false;
    }
  }

  /** A template without placeholders renders to itself, in either mode. */
  lemma RenderWithoutPlaceholders(s: string, values: map<string, string>, mode: Mode)
    requires forall w :: !IsTokenOf(s, w)
    ensures RenderTemplate(s, values, mode) == s
  {
    NoMatchesWithoutTokens(s);
    ReplaceIsSplice(s, 0, Filler(values, mode));
    assert s[0..] == s;
  }

  /** A template that is a single placeholder renders to that placeholder's replacement. */
  lemma {:induction false} RenderSinglePlaceholder(w: string, values: map<string, string>, mode: Mode)
    requires IsWord(w)
    ensures RenderTemplate("{" + w + "}", values, mode) == Replacement(w, values, mode)
  {
    var s := "{" + w + "}";
    assert s[1..1 + |w|] == w;
    assert OccursAt(s, w, 0);
    MatchAtFinds(s, w, 0);
    var cb := Filler(values, mode);
    assert ReplaceMatches(s, |s|, cb) == "";
    assert ReplaceMatches(s, 0, cb) == cb(w) + ReplaceMatches(s, |s|, cb);
  }

  /** An unfilled placeholder, whatever its name, shows as `[name]` in the default preview mode. */
  lemma RenderUnfilledPlaceholder(w: string, values: map<string, string>)
    requires IsWord(w) && w !in values
    ensures RenderTemplate("{" + w + "}", values) == "[" + w + "]"
  {
    RenderSinglePlaceholder(w, values, Preview);
    assert IsBlank(Lookup(values, w));
  }

  /**
   * A supplied value is inserted trimmed and literally, in either mode: even
   * when it contains `{x}`, it is not rendered again.
   */
  lemma FilledPlaceholderIsLiteral(w: string, v: string, mode: Mode)
    requires IsWord(w) && !IsBlank(v)
    ensures RenderTemplate("{" + w + "}", map[w := v], mode) == Trim(v)
  {
    RenderSinglePlaceholder(w, map[w := v], mode);
  }

  // ------------------------------------------- inherited keys, as written

  /**
   * The names a plain JavaScript object inherits from `Object.prototype`
   * that the placeholder pattern can match. Reading one from a values
   * object that does not define it yields a function (or, for `__proto__`,
   * an object): not nullish, so `?? ""` keeps it, and it has no `trim`.
   */
  const INHERITED_KEYS: set<string> := {
    "constructor", "hasOwnProperty", "isPrototypeOf", "propertyIsEnumerable",
    "toLocaleString", "toString", "valueOf", "__defineGetter__",
    "__defineSetter__", "__lookupGetter__", "__lookupSetter__", "__proto__"}

  const TRIM_TYPE_ERROR := "TypeError: trim is not a function"

  /** `values[key]` on a plain object, as the source reads it: `None` where the value read is not a string and `trim` throws. */
  function LookupAsWritten(values: map<string, string>, key: string): (r: Option<string>)
    ensures r.None? <==> key !in values && key in INHERITED_KEYS
    ensures r.Some? ==> r.value == Lookup(values, key)
  {
    if key in values then Some(values[key])
    else if key in INHERITED_KEYS then None
    else Some("")
  }

  /**
   * The render as written: the callback throws, and the whole `replace`
   * with it, as soon as a placeholder names an inherited key the values do
   * not define; otherwise the result is the render.
   */
  function RenderAsWritten(input: string, values: map<string, string>, mode: Mode): (r: Result<string, string>)
    ensures r.Failure? ==> r.error == TRIM_TYPE_ERROR
    ensures r.Success? ==> r.value == RenderTemplate(input, values, mode)
  {
    var ms := Matches(input, 0);
    if exists i :: 0 <= i < |ms| && LookupAsWritten(values, ms[i].key).None? then Failure(TRIM_TYPE_ERROR)
    else Success(RenderTemplate(input, values, mode))
  }

  /**
   * A template naming an inherited key the values do not define, such as
   * `{constructor}` with no values at all, throws instead of rendering.
   */
  lemma InheritedKeyPlaceholderThrows(w: string, values: map<string, string>, mode: Mode)
    requires w in INHERITED_KEYS && IsWord(w) && w !in values
    ensures RenderAsWritten("{" + w + "}", values, mode) == Failure(TRIM_TYPE_ERROR)
  {
    var s := "{" + w + "}";
    assert s[1..1 + |w|] == w;
    assert OccursAt(s, w, 0);
    MatchAtFinds(s, w, 0);
    MatchesAt(s, 0, w);
    assert Matches(s, 0)[0] == Match(0, w);
    assert LookupAsWritten(values, w).None?;
  }

  /**
   * As written, a render throws exactly when the template has a placeholder
   * naming an inherited property that the values do not define; every other
   * render gives the intended result.
   */
  lemma RenderAsWrittenThrowsIff(input: string, values: map<string, string>, mode: Mode)
    ensures RenderAsWritten(input, values, mode).Failure? <==>
      exists w :: w in INHERITED_KEYS && w !in values && IsTokenOf(input, w)
  {
    if RenderAsWritten(input, values, mode).Failure? {
      ThrowsOnlyOnInherited(input, values);
    }
    if exists w :: w in INHERITED_KEYS && w !in values && IsTokenOf(input, w) {
      var w :| w in INHERITED_KEYS && w !in values && IsTokenOf(input, w);
      ThrowsOnEveryInherited(input, values, w);
    }
  }

  lemma ThrowsOnlyOnInherited(input: string, values: map<string, string>)
    requires exists i :: 0 <= i < |Matches(input, 0)| && LookupAsWritten(values, Matches(input, 0)[i].key).None?
    ensures exists w :: w in INHERITED_KEYS && w !in values && IsTokenOf(input, w)
  {
    var ms := Matches(input, 0);
    var i :| 0 <= i < |ms| && LookupAsWritten(values, ms[i].key).None?;
    var w := ms[i].key;
    assert w in MatchKeys(ms);
    MatchKeysAreTokens(input, w);
  }

  lemma ThrowsOnEveryInherited(input: string, values: map<string, string>, w: string)
    requires w in INHERITED_KEYS && w !in values && IsTokenOf(input, w)
    ensures exists i :: 0 <= i < |Matches(input, 0)| && LookupAsWritten(values, Matches(input, 0)[i].key).None?
  {
    var ms := Matches(input, 0);
    MatchKeysAreTokens(input, w);
    var k :| 0 <= k < |ms| && ms[k].key == w;
    assert LookupAsWritten(values, ms[k].key).None?;
  }

  /** The intended render treats a placeholder naming an inherited key like every other unfilled placeholder. */
  lemma InheritedKeyPlaceholderRenders(w: string, values: map<string, string>)
    requires w in INHERITED_KEYS && IsWord(w) && w !in values
    ensures RenderTemplate("{" + w + "}", values) == "[" + w + "]"
  {
    RenderUnfilledPlaceholder(w, values);
  }
}
