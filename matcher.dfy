/**
 * The marker matcher. The source compiles the regular expression
 * `<(/?)(n1|n2|...)>` over the configured names (or a pattern that never
 * matches when there are none) and iterates over its matches with
 * `finditer`. Here the same matcher is a pure function: a match at index
 * `i` is `<`, an optional `/`, a configured name and `>`; `FindAll` lists
 * the matches left to right, resuming after each one as `finditer` does.
 */
module Matcher {
  import opened Base
  import opened Tags

  /** One occurrence of a marker: where it starts, whether it closes, and the tag name. */
  datatype TagMatch = TagMatch(start: nat, closing: bool, name: string)

  /** The text of a marker: `<name>` or `</name>`. */
  function MarkerText(closing: bool, name: string): string {
    (if closing then "</" else "<") + name + ">"
  }

  /** The index just past a match. */
  function End(m: TagMatch): nat {
    m.start + |MarkerText(m.closing, m.name)|
  }

  /** `m` is an occurrence in `s` of a marker for one of `names`. */
  predicate IsMatch(names: seq<string>, s: string, m: TagMatch) {
    m.name in names && End(m) <= |s| && s[m.start..End(m)] == MarkerText(m.closing, m.name)
  }

  /** Names as the validator admits them: non-empty, starting with neither `/` nor, anywhere, an angle bracket. */
  ghost predicate WellFormedNames(names: seq<string>) {
    forall n :: n in names ==> n != "" && n[0] != '/' && forall k :: 0 <= k < |n| ==> n[k] != '<' && n[k] != '>'
  }

  /** Every validated configuration has well-formed names. */
  lemma ValidNamesWellFormed(tags: seq<TagSpec>)
    requires forall i :: 0 <= i < |tags| ==> EntryOk(tags[i])
    ensures WellFormedNames(Names(tags))
  {
    forall n | n in Names(tags)
      ensures n != "" && n[0] != '/' && forall k :: 0 <= k < |n| ==> n[k] != '<' && n[k] != '>'
    {
      var i :| 0 <= i < |Names(tags)| && Names(tags)[i] == n;
      assert EntryOk(tags[i]);
      if !IsBareName(n) {
        assert IsBareName(n[..|n| - 1]);
        assert forall k :: 0 <= k < |n| - 1 ==> n[k] == n[..|n| - 1][k];
      }
    }
  }

  /** The name `n` followed by `>` stands in `s` at index `j`. */
  predicate Fits(s: string, j: nat, n: string) {
    j + |n| + 1 <= |s| && s[j..j + |n| + 1] == n + ">"
  }

  /** The alternation `(n1|n2|...)>`: the first name, in configured order, that fits at `j`. */
  function FirstFit(names: seq<string>, s: string, j: nat): (r: Option<string>)
    ensures r.Some? ==> r.value in names && Fits(s, j, r.value)
    ensures r.None? ==> forall n :: n in names ==> !Fits(s, j, n)
  {
    if names == [] then None
    else if Fits(s, j, names[0]) then Some(names[0])
    else FirstFit(names[1..], s, j)
  }

  /**
   * The match at index `i`, if any, as the regular expression finds it:
   * `<`, then `/` if the closing form fits, else the opening form.
   */
  function MatchAt(names: seq<string>, s: string, i: nat): (r: Option<TagMatch>)
    ensures r.Some? ==> r.value.start == i && IsMatch(names, s, r.value)
    ensures r.None? ==> forall m: TagMatch :: m.start == i ==> !IsMatch(names, s, m)
  {
    if i < |s| && s[i] == '<' then
      var c := if i + 1 < |s| && s[i + 1] == '/' then FirstFit(names, s, i + 2) else None;
      if c.Some? then
        MarkerFits(s, TagMatch(i, true, c.value));
        Some(TagMatch(i, true, c.value))
      else
        var o := FirstFit(names, s, i + 1);
        if o.Some? then
          MarkerFits(s, TagMatch(i, false, o.value));
          Some(TagMatch(i, false, o.value))
        else
          NoMarkerAt(names, s, i);
          None
    else
      NoMarkerAt(names, s, i);
      None
  }

  /** A marker stands at its start exactly when `<`, the optional `/`, and the name with `>` do. */
  lemma MarkerFits(s: string, m: TagMatch)
    ensures (End(m) <= |s| && s[m.start..End(m)] == MarkerText(m.closing, m.name)) <==>
      (m.start < |s| && s[m.start] == '<'
       && (m.closing ==> m.start + 1 < |s| && s[m.start + 1] == '/')
       && Fits(s, m.start + (if m.closing then 2 else 1), m.name))
  {
    var off := if m.closing then 2 else 1;
    var t := MarkerText(m.closing, m.name);
    assert |t| == off + |m.name| + 1;
    assert t[off..] == m.name + ">";
    if End(m) <= |s| && s[m.start..End(m)] == t {
      assert s[m.start + off..m.start + off + |m.name| + 1] == s[m.start..End(m)][off..];
    }
    if m.start < |s| && s[m.start] == '<' && (m.closing ==> m.start + 1 < |s| && s[m.start + 1] == '/')
       && Fits(s, m.start + off, m.name) {
      assert s[m.start..End(m)] == s[m.start..m.start + off] + s[m.start + off..End(m)];
      assert s[m.start..m.start + off] == t[..off];
    }
  }

  /** When neither form fits at `i`, nothing matches there. */
  lemma NoMarkerAt(names: seq<string>, s: string, i: nat)
    requires !(i < |s| && s[i] == '<') ||
      ((!(i + 1 < |s| && s[i + 1] == '/') || forall n :: n in names ==> !Fits(s, i + 2, n))
       && forall n :: n in names ==> !Fits(s, i + 1, n))
    ensures forall m: TagMatch :: m.start == i ==> !IsMatch(names, s, m)
  {
    forall m: TagMatch | m.start == i && IsMatch(names, s, m) ensures false {
      MarkerFits(s, m);
    }
  }

  /** The characters of a name that fits at `j`, and the `>` after it. */
  lemma FitsChars(s: string, j: nat, n: string)
    requires Fits(s, j, n)
    ensures forall k :: 0 <= k < |n| ==> s[j + k] == n[k]
    ensures s[j + |n|] == '>'
  {
    forall k | 0 <= k <= |n| ensures s[j + k] == (n + ">")[k] {
      assert s[j..j + |n| + 1][k] == s[j + k];
    }
  }

  /** Two names without `>` that fit at the same index are the same name. */
  lemma FitsSame(s: string, j: nat, n1: string, n2: string)
    requires Fits(s, j, n1) && Fits(s, j, n2)
    requires forall k :: 0 <= k < |n1| ==> n1[k] != '>'
    requires forall k :: 0 <= k < |n2| ==> n2[k] != '>'
    ensures n1 == n2
  {
    FitsChars(s, j, n1);
    FitsChars(s, j, n2);
  }

  /** With well-formed names at most one marker starts at any index. */
  lemma MatchUnique(names: seq<string>, s: string, m1: TagMatch, m2: TagMatch)
    requires WellFormedNames(names)
    requires IsMatch(names, s, m1) && IsMatch(names, s, m2) && m1.start == m2.start
    ensures m1 == m2
  {
    MarkerFits(s, m1);
    MarkerFits(s, m2);
    if m1.closing != m2.closing {
      var o := if m1.closing then m2 else m1;
      FitsChars(s, o.start + 1, o.name);
    } else {
      FitsSame(s, m1.start + (if m1.closing then 2 else 1), m1.name, m2.name);
    }
  }

  /** Inside a marker (past its `<`) there is no `<`, so no other marker starts there. */
  lemma NoLtInsideMatch(names: seq<string>, s: string, m: TagMatch, p: nat)
    requires WellFormedNames(names)
    requires IsMatch(names, s, m) && m.start < p < End(m)
    ensures s[p] != '<'
  {
    var t := MarkerText(m.closing, m.name);
    assert s[p] == t[p - m.start];
    var off := if m.closing then 2 else 1;
    if p - m.start >= off && p - m.start < off + |m.name| {
      assert t[p - m.start] == m.name[p - m.start - off];
    }
  }

  /** The matches after the last one end, pairwise, before the next begins. */
  ghost predicate Chained(ms: seq<TagMatch>) {
    forall j, k :: 0 <= j < k < |ms| ==> End(ms[j]) <= ms[k].start
  }

  /**
   * `finditer` from index `i`: every match, left to right; after a match
   * the search resumes at its end.
   */
  function FindAll(names: seq<string>, s: string, i: nat): (r: seq<TagMatch>)
    decreases |s| - i
    ensures forall k :: 0 <= k < |r| ==> i <= r[k].start && End(r[k]) <= |s|
  {
    if i >= |s| then []
    else
      match MatchAt(names, s, i)
      case Some(m) => [m] + FindAll(names, s, End(m))
      case None => FindAll(names, s, i + 1)
  }

  /** Everything `FindAll` reports is a marker occurrence. */
  lemma {:induction false} FindAllSound(names: seq<string>, s: string, i: nat)
    ensures forall k :: 0 <= k < |FindAll(names, s, i)| ==> IsMatch(names, s, FindAll(names, s, i)[k])
    decreases |s| - i
  {
    if i < |s| {
      var o := MatchAt(names, s, i);
      if o.Some? {
        FindAllSound(names, s, End(o.value));
        assert FindAll(names, s, i) == [o.value] + FindAll(names, s, End(o.value));
      } else {
        FindAllSound(names, s, i + 1);
      }
    }
  }

  /** The matches come left to right, each ending before the next begins. */
  lemma {:induction false} FindAllOrdered(names: seq<string>, s: string, i: nat)
    ensures Chained(FindAll(names, s, i))
    decreases |s| - i
  {
    if i < |s| {
      var o := MatchAt(names, s, i);
      if o.Some? {
        var m0 := o.value;
        FindAllOrdered(names, s, End(m0));
        FindAllUnfold(names, s, i);
        ChainedCons(m0, FindAll(names, s, End(m0)));
      } else {
        FindAllOrdered(names, s, i + 1);
      }
    }
  }

  /**
   * Matches never overlap, so `FindAll` finds every occurrence of a marker
   * at or after `i`.
   */
  lemma {:induction false} FindAllComplete(names: seq<string>, s: string, i: nat, m: TagMatch)
    requires WellFormedNames(names)
    requires IsMatch(names, s, m) && i <= m.start
    ensures m in FindAll(names, s, i)
    decreases |s| - i
  {
    FindAllUnfold(names, s, i);
    var o := MatchAt(names, s, i);
    if o.Some? {
      var m0 := o.value;
      if m.start < End(m0) {
        MatchAtCovers(names, s, i, m, m0);
      } else {
        FindAllComplete(names, s, End(m0), m);
      }
    } else {
      assert m.start != i;
      FindAllComplete(names, s, i + 1, m);
    }
  }

  /** One step of `finditer` at an index inside the text. */
  lemma FindAllUnfold(names: seq<string>, s: string, i: nat)
    requires i < |s|
    ensures var o := MatchAt(names, s, i);
      && (o.Some? ==> FindAll(names, s, i) == [o.value] + FindAll(names, s, End(o.value)))
      && (o.None? ==> FindAll(names, s, i) == FindAll(names, s, i + 1))
  {
  }

  /** A match that ends before every match of an ordered list can go in front of it. */
  lemma ChainedCons(m0: TagMatch, rest: seq<TagMatch>)
    requires Chained(rest) && forall k :: 0 <= k < |rest| ==> End(m0) <= rest[k].start
    ensures Chained([m0] + rest)
  {
    forall j, k | 0 <= j < k < |rest| + 1
      ensures End(([m0] + rest)[j]) <= ([m0] + rest)[k].start
    {
      assert ([m0] + rest)[k] == rest[k - 1];
      if j > 0 {
        assert ([m0] + rest)[j] == rest[j - 1];
      }
    }
  }

  /** A marker that starts inside the match found at `i` is that match. */
  lemma MatchAtCovers(names: seq<string>, s: string, i: nat, m: TagMatch, m0: TagMatch)
    requires WellFormedNames(names)
    requires IsMatch(names, s, m) && i <= m.start
    requires MatchAt(names, s, i) == Some(m0) && m.start < End(m0)
    ensures m == m0
  {
    MarkerFits(s, m);
    if m.start == i {
      MatchUnique(names, s, m, m0);
    } else {
      NoLtInsideMatch(names, s, m0, m.start);
    }
  }

  /** Where no marker occurs from `i` on, `FindAll` reports none. */
  lemma {:induction false} NoMatchesFindNothing(names: seq<string>, s: string, i: nat)
    requires forall m: TagMatch :: i <= m.start ==> !IsMatch(names, s, m)
    ensures FindAll(names, s, i) == []
    decreases |s| - i
  {
    if i < |s| {
      assert MatchAt(names, s, i).None?;
      NoMatchesFindNothing(names, s, i + 1);
    }
  }

  /** `FindAll` reports nothing exactly when no marker occurs at all. */
  lemma FindNothingIff(names: seq<string>, s: string)
    requires WellFormedNames(names)
    ensures FindAll(names, s, 0) == [] <==> forall m :: !IsMatch(names, s, m)
  {
    if forall m :: !IsMatch(names, s, m) {
      NoMatchesFindNothing(names, s, 0);
    } else {
      var m :| IsMatch(names, s, m);
      FindAllComplete(names, s, 0, m);
    }
  }

  /** With no tags configured, nothing matches: `<` is ordinary text. */
  lemma {:induction false} NoNamesNoMatches(s: string, i: nat)
    ensures FindAll([], s, i) == []
    decreases |s| - i
  {
    if i < |s| {
      assert MatchAt([], s, i) == None;
      NoNamesNoMatches(s, i + 1);
    }
  }

  /**
   * Python's `rfind`: the index of the last occurrence of `c` in `s`, or
   * -1 when there is none.
   */
  function RFind(s: string, c: char): (r: int)
    ensures -1 <= r < |s|
    ensures r == -1 ==> forall j :: 0 <= j < |s| ==> s[j] != c
    ensures r >= 0 ==> s[r] == c && forall j :: r < j < |s| ==> s[j] != c
  {
    if s == [] then -1
    else if s[|s| - 1] == c then |s| - 1
    else RFind(s[..|s| - 1], c)
  }
}
