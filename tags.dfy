/** Small shared datatypes. */
module Base {
  datatype Option<+T> = None | Some(value: T)

  /** The elements of an optional value, as a sequence of length 0 or 1. */
  function AsSeq<T>(o: Option<T>): (s: seq<T>)
    ensures |s| == (if o.Some? then 1 else 0)
    ensures o.Some? ==> s[0] == o.value
  {
    if o.Some? then [o.value] else []
  }
}

/**
 * The tag registry of the stream parser: validation of the configured
 * tag-name/step-label pairs, the state identifier of each tag, the tag map
 * from a name to its (state, label) pair, and the lookup from a state back
 * to its label. The configuration is a Python dict, so it is modelled as a
 * sequence of pairs in insertion order with pairwise distinct names.
 */
module Tags {
  import opened Base

  /** A configured tag: its name (written between angle brackets) and its step label. */
  type TagSpec = (string, string)

  /** The reasons construction can fail (the source raises ValueError for each). */
  datatype ConfigError =
    | EmptyTagName
    | BadTagName(name: string)
    | EmptyStepName(name: string)

  datatype Result<+T> = Ok(value: T) | Err(error: ConfigError)

  /** The state of the parser: outside every block, or inside the block with the given identifier. */
  datatype State = Idle | InBlock(id: string)

  predicate IsAsciiLetter(c: char) {
    'a' <= c <= 'z' || 'A' <= c <= 'Z'
  }

  predicate IsNameChar(c: char) {
    IsAsciiLetter(c) || '0' <= c <= '9' || c == '_' || c == '-'
  }

  /** All of `s` is a letter followed by letters, digits, `_` or `-`. */
  predicate IsBareName(s: string) {
    |s| > 0 && IsAsciiLetter(s[0]) && forall i :: 1 <= i < |s| ==> IsNameChar(s[i])
  }

  /**
   * `re.match(r'^[a-zA-Z][a-zA-Z0-9_-]*$', s)` succeeds. Python's `$` also
   * matches just before a single newline that ends the string.
   */
  predicate MatchesNamePattern(s: string) {
    IsBareName(s) || (|s| > 1 && s[|s| - 1] == '\n' && IsBareName(s[..|s| - 1]))
  }

  /** One configuration entry passes every check of the validator. */
  predicate EntryOk(t: TagSpec) {
    t.0 != "" && MatchesNamePattern(t.0) && t.1 != ""
  }

  /** The error the validator raises for an entry that fails, in the order it checks. */
  function EntryError(t: TagSpec): ConfigError {
    if t.0 == "" then EmptyTagName
    else if !MatchesNamePattern(t.0) then BadTagName(t.0)
    else EmptyStepName(t.0)
  }

  /**
   * The validator: it walks the entries in order and fails on the first bad
   * one; when all are good the validated map is the input map.
   */
  function Validate(tags: seq<TagSpec>): (r: Result<seq<TagSpec>>)
    ensures r.Ok? <==> forall i :: 0 <= i < |tags| ==> EntryOk(tags[i])
    ensures r.Ok? ==> r.value == tags
    ensures r.Err? ==>
      exists i :: 0 <= i < |tags| && !EntryOk(tags[i]) && r.error == EntryError(tags[i])
        && forall j :: 0 <= j < i ==> EntryOk(tags[j])
  {
    if tags == [] then Ok([])
    else if !EntryOk(tags[0]) then Err(EntryError(tags[0]))
    else
      match Validate(tags[1..])
      case Ok(rest) => Ok([tags[0]] + rest)
      case Err(e) =>
        ghost var i :| 0 <= i < |tags[1..]| && !EntryOk(tags[1..][i]) && e == EntryError(tags[1..][i])
                       && forall j :: 0 <= j < i ==> EntryOk(tags[1..][j]);
        assert !EntryOk(tags[i + 1]) && forall j :: 0 <= j < i + 1 ==> EntryOk(tags[j]);
        Err(e)
  }

  /** The configuration has passed validation and, being a dict, has no repeated name. */
  ghost predicate ConfigOk(tags: seq<TagSpec>) {
    (forall i :: 0 <= i < |tags| ==> EntryOk(tags[i]))
    && DistinctNames(tags)
  }

  ghost predicate DistinctNames(tags: seq<TagSpec>) {
    forall i, j :: 0 <= i < j < |tags| ==> tags[i].0 != tags[j].0
  }

  /** The tag names in insertion order (the dict's keys). */
  function Names(tags: seq<TagSpec>): (r: seq<string>)
    ensures |r| == |tags|
    ensures forall i :: 0 <= i < |tags| ==> r[i] == tags[i].0
  {
    seq(|tags|, i requires 0 <= i < |tags| => tags[i].0)
  }

  /** `str.upper()` on one character; exact on the ASCII characters a valid name is made of. */
  function UpperChar(c: char): char {
    if 'a' <= c <= 'z' then (c as int - 32) as char else c
  }

  function Upper(s: string): (r: string)
    ensures |r| == |s|
    ensures forall i :: 0 <= i < |s| ==> r[i] == UpperChar(s[i])
  {
    seq(|s|, i requires 0 <= i < |s| => UpperChar(s[i]))
  }

  /** The state identifier of a tag, `IN_<NAME>_BLOCK`. */
  function StateName(name: string): string {
    "IN_" + Upper(name) + "_BLOCK"
  }

  /** The state a tag's opening marker enters. */
  function TagState(name: string): State {
    InBlock(StateName(name))
  }

  /** The string a state stands for in the source. */
  function StateString(st: State): string {
    match st
    case Idle => "IDLE"
    case InBlock(id) => id
  }

  /** Two tag names share a state exactly when they agree after upper-casing. */
  lemma {:induction false} StateNameCollision(a: string, b: string)
    ensures StateName(a) == StateName(b) <==> Upper(a) == Upper(b)
  {
    if StateName(a) == StateName(b) {
      var sa, sb := StateName(a), StateName(b);
      assert |Upper(a)| == |Upper(b)|;
      forall i | 0 <= i < |Upper(a)| ensures Upper(a)[i] == Upper(b)[i] {
        assert sa[3 + i] == Upper(a)[i];
        assert sb[3 + i] == Upper(b)[i];
      }
    }
  }

  /** A tag's state string is never the idle state's, so the two cannot be confused. */
  lemma StateNameIsNotIdle(name: string)
    ensures StateName(name) != "IDLE"
    ensures StateString(TagState(name)) != StateString(Idle)
  {
    assert |StateName(name)| >= 9;
  }

  /**
   * The `states` table: `IDLE` and the state of every tag, each mapped to
   * itself, built in insertion order.
   */
  function States(tags: seq<TagSpec>): (r: map<string, string>)
    ensures "IDLE" in r && r["IDLE"] == "IDLE"
    ensures forall i :: 0 <= i < |tags| ==> StateName(tags[i].0) in r
    ensures forall k :: k in r ==> r[k] == k
    ensures forall k :: k in r ==> k == "IDLE" || exists i :: 0 <= i < |tags| && StateName(tags[i].0) == k
  {
    if tags == [] then map["IDLE" := "IDLE"]
    else
      var prev := States(tags[..|tags| - 1]);
      var s := StateName(tags[|tags| - 1].0);
      assert forall i :: 0 <= i < |tags| - 1 ==> tags[..|tags| - 1][i] == tags[i];
      prev[s := s]
  }

  /**
   * The tag map: each name to its (state, label) pair. Like the dict the
   * source builds, a later entry with the same name would replace an earlier one.
   */
  function TagMap(tags: seq<TagSpec>): map<string, (State, string)> {
    if tags == [] then map[]
    else
      var t := tags[|tags| - 1];
      TagMap(tags[..|tags| - 1])[t.0 := (TagState(t.0), t.1)]
  }

  /**
   * The tag map has exactly the configured names, and maps each to its own
   * state and to the label of the last entry with that name.
   */
  lemma {:induction false} TagMapSpec(tags: seq<TagSpec>)
    ensures forall n :: n in TagMap(tags) <==> n in Names(tags)
    ensures forall n :: n in TagMap(tags) ==>
      exists i :: 0 <= i < |tags| && tags[i].0 == n && TagMap(tags)[n] == (TagState(n), tags[i].1)
        && forall j :: i < j < |tags| ==> tags[j].0 != n
  {
    if tags != [] {
      var p, t := tags[..|tags| - 1], tags[|tags| - 1];
      TagMapSpec(p);
      assert forall i :: 0 <= i < |p| ==> p[i] == tags[i];
      assert Names(tags) == Names(p) + [t.0];
    }
  }

  /** With distinct names every entry is found in the tag map as it was configured. */
  lemma TagMapEntry(tags: seq<TagSpec>, i: int)
    requires DistinctNames(tags)
    requires 0 <= i < |tags|
    ensures tags[i].0 in TagMap(tags)
    ensures TagMap(tags)[tags[i].0] == (TagState(tags[i].0), tags[i].1)
  {
    TagMapSpec(tags);
    assert tags[i].0 == Names(tags)[i];
  }

  /**
   * The label of a state: the label of the FIRST tag, in insertion order,
   * whose state is `st`; `dflt` when there is none.
   */
  function LookupLabel(tags: seq<TagSpec>, st: State, dflt: string): (r: string)
    ensures r == dflt || exists i :: 0 <= i < |tags| && TagState(tags[i].0) == st && r == tags[i].1
  {
    if tags == [] then dflt
    else if TagState(tags[0].0) == st then tags[0].1
    else LookupLabel(tags[1..], st, dflt)
  }

  /** When no tag owns the state, the default label is returned. */
  lemma {:induction false} LookupLabelDefault(tags: seq<TagSpec>, st: State, dflt: string)
    requires forall i :: 0 <= i < |tags| ==> TagState(tags[i].0) != st
    ensures LookupLabel(tags, st, dflt) == dflt
  {
    if tags != [] {
      var rest := tags[1..];
      forall j | 0 <= j < |rest| ensures TagState(rest[j].0) != st {
        assert rest[j] == tags[j + 1];
      }
      LookupLabelDefault(rest, st, dflt);
    }
  }

  /** The label found is the one of the first tag, in insertion order, that owns the state. */
  lemma {:induction false} LookupLabelFirst(tags: seq<TagSpec>, st: State, dflt: string, i: nat)
    requires i < |tags| && TagState(tags[i].0) == st
    requires forall j :: 0 <= j < i ==> TagState(tags[j].0) != st
    ensures LookupLabel(tags, st, dflt) == tags[i].1
  {
    if i > 0 {
      var rest := tags[1..];
      assert TagState(tags[0].0) != st;
      assert rest[i - 1] == tags[i];
      forall j | 0 <= j < i - 1 ensures TagState(rest[j].0) != st {
        assert rest[j] == tags[j + 1];
      }
      LookupLabelFirst(rest, st, dflt, i - 1);
    }
  }
}
