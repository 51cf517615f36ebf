/**
 * Where the stream is cut into chunks does not change the complete
 * messages. Two calls with the chunks `a` and `b` emit the same complete
 * messages, in label, content and order, as one call with `a + b`. They
 * also leave the same buffer, state, gathered content and content recorded
 * as sent, so `finalize` then sends the same last message; the same holds
 * for any number of chunks. Step numbers and partial messages do depend on
 * the cuts and are not compared.
 *
 * The proof looks at a call through a `Flow`: the state, the content, the
 * content recorded as sent, whether text was added, and the complete
 * messages, which is all the rest depends on. The matches of `a + b` are
 * those of the first call followed by those of the second, shifted by where
 * the second call's buffer begins.
 */
module Chunking {
  import opened Base
  import opened Tags
  import opened Matcher
  import opened Machine

  // ---------------------------------------------------------------- complete messages

  /** A complete message without its step number. */
  datatype Flush = Flush(stepName: string, content: string)

  /** The complete messages of `ms`, in order, without their step numbers. */
  function Completes(ms: seq<StreamMessage>): seq<Flush> {
    if ms == [] then []
    else
      var m := ms[|ms| - 1];
      Completes(ms[..|ms| - 1]) + (if m.isComplete then [Flush(m.stepName, m.content)] else [])
  }

  lemma {:induction false} CompletesAppend(xs: seq<StreamMessage>, ys: seq<StreamMessage>)
    ensures Completes(xs + ys) == Completes(xs) + Completes(ys)
    decreases |ys|
  {
    if ys == [] {
      assert xs + ys == xs;
    } else {
      var init := ys[..|ys| - 1];
      assert (xs + ys)[..|xs + ys| - 1] == xs + init;
      CompletesAppend(xs, init);
    }
  }

  // ---------------------------------------------------------------- flows

  /**
   * What of a scan the cuts cannot change: the state, the gathered content,
   * the content recorded as sent, whether text was added since the call
   * began or the last flush, and the complete messages.
   */
  datatype Flow = Flow(state: State, content: string, lastSent: string, added: bool, flushes: seq<Flush>)

  function FlowOf(sc: Scan): Flow {
    Flow(sc.core.state, sc.core.content, sc.core.lastSent, sc.added, Completes(sc.messages))
  }

  /** The complete message flushing `content` under `lbl`; none for empty content. */
  function FlushOf(lbl: string, content: string): seq<Flush> {
    if content == "" then [] else [Flush(lbl, content)]
  }

  /**
   * What a marker needs of the configuration: the tag map, and the label of
   * the block each state belongs to.
   */
  datatype Policy = Policy(tm: map<string, (State, string)>, tags: seq<TagSpec>, streaming: bool)

  function PolicyOf(cfg: Config): Policy {
    Policy(TagMap(cfg.tags), cfg.tags, cfg.enableTagsStreaming)
  }

  /** One event, seen through the state, the content and the complete messages only. */
  function FlowStep(pol: Policy, f: Flow, e: Event): Flow {
    var tm := pol.tm;
    match e
    case Text(t) => f.(content := f.content + t, added := f.added || t != "")
    case Marker(m) =>
      if !m.closing then
        Flow(if m.name in tm then tm[m.name].0 else Idle, "", "", false,
             f.flushes + FlushOf(BlockLabel(pol.tags, f.state, AnswerLabel), f.content))
      else if m.name in tm && tm[m.name].0 == f.state then
        Flow(Idle, "", "", false, f.flushes + FlushOf(tm[m.name].1, f.content))
      else f
  }

  function FlowRun(pol: Policy, f: Flow, evs: seq<Event>): Flow {
    if evs == [] then f else FlowStep(pol, FlowRun(pol, f, evs[..|evs| - 1]), evs[|evs| - 1])
  }

  /** A flushing marker adds to a scan's complete messages exactly what the flow adds. */
  lemma CompletesFlush(ms: seq<StreamMessage>, counters: map<string, nat>, lbl: string, content: string)
    ensures Completes(ms + AsSeq(Generate(counters, lbl, content, true).msg)) == Completes(ms) + FlushOf(lbl, content)
  {
    var g := Generate(counters, lbl, content, true);
    if content == "" {
      assert ms + AsSeq(g.msg) == ms;
    } else {
      assert (ms + [g.msg.value])[..|ms|] == ms;
    }
  }

  /** A step of the state machine, seen as a flow, is a step of the flow. */
  lemma StepFlow(cfg: Config, sc: Scan, e: Event)
    ensures FlowOf(StepEvent(cfg, sc, e)) == FlowStep(PolicyOf(cfg), FlowOf(sc), e)
  {
    var c := sc.core;
    var tm := TagMap(cfg.tags);
    match e
    case Text(t) =>
      assert c.content + "" == c.content;
    case Marker(m) =>
      if !m.closing {
        if c.content != "" {
          CompletesFlush(sc.messages, c.counters, BlockLabel(cfg.tags, c.state, AnswerLabel), c.content);
        } else {
          assert sc.messages + [] == sc.messages;
        }
      } else if m.name in tm && tm[m.name].0 == c.state {
        CompletesFlush(sc.messages, c.counters, tm[m.name].1, c.content);
      }
  }

  lemma {:induction false} RunFlow(cfg: Config, sc: Scan, evs: seq<Event>)
    ensures FlowOf(Run(cfg, sc, evs)) == FlowRun(PolicyOf(cfg), FlowOf(sc), evs)
  {
    if evs != [] {
      RunFlow(cfg, sc, evs[..|evs| - 1]);
      StepFlow(cfg, Run(cfg, sc, evs[..|evs| - 1]), evs[|evs| - 1]);
    }
  }

  /**
   * What the partial-emission policy records as sent: the whole content when
   * the policy allows a partial here and the content reaches past what was
   * sent, else what was sent before.
   */
  function PartialSent(pol: Policy, f: Flow): string {
    if (pol.streaming || f.state == Idle) && |f.content| > |f.lastSent| then f.content else f.lastSent
  }

  /** What a call that ends in the flow `f` leaves recorded as sent. */
  function SentAfter(pol: Policy, f: Flow): string {
    if f.added then PartialSent(pol, f) else f.lastSent
  }

  /** Partial messages are incomplete, change neither state nor content, and record what `PartialSent` gives. */
  lemma EmitPartialFlow(cfg: Config, sc: Scan)
    ensures FlowOf(EmitPartial(cfg, sc)) == FlowOf(sc).(lastSent := PartialSent(PolicyOf(cfg), FlowOf(sc)))
  {
    var r := EmitPartial(cfg, sc);
    if |r.messages| == |sc.messages| {
      assert r.messages == r.messages[..|sc.messages|];
    } else {
      var m := r.messages[|sc.messages|];
      assert r.messages == sc.messages + [m];
      assert (sc.messages + [m])[..|sc.messages|] == sc.messages;
    }
  }

  /** A call, seen as a flow, runs the flow over the events it consumes. */
  lemma ParseChunkFlow(cfg: Config, snap: Snapshot, chunk: string)
    ensures var t := Tokenize(Names(cfg.tags), snap.buffer + chunk);
      var o := ParseChunkSpec(cfg, snap, chunk);
      var f := FlowRun(PolicyOf(cfg), Flow(snap.core.state, snap.core.content, snap.core.lastSent, false, []), t.events);
      && o.snap.buffer == t.rest
      && o.snap.core.state == f.state && o.snap.core.content == f.content
      && o.snap.core.lastSent == SentAfter(PolicyOf(cfg), f)
      && Completes(o.messages) == f.flushes
  {
    var t := Tokenize(Names(cfg.tags), snap.buffer + chunk);
    var sc0 := Scan(snap.core, [], false);
    var sc := Run(cfg, sc0, t.events);
    RunFlow(cfg, sc0, t.events);
    EmitPartialFlow(cfg, sc);
  }

  lemma FlowStepFrom(pol: Policy, f: Flow, done: seq<Flush>, e: Event)
    ensures var r := FlowStep(pol, f, e);
      FlowStep(pol, f.(flushes := done + f.flushes), e) == r.(flushes := done + r.flushes)
  {
    var tm := pol.tm;
    if e.Marker? {
      var m := e.m;
      var l := if m.closing && m.name in tm then tm[m.name].1 else BlockLabel(pol.tags, f.state, AnswerLabel);
      assert (done + f.flushes) + FlushOf(l, f.content) == done + (f.flushes + FlushOf(l, f.content));
    }
  }

  /** The complete messages a flow had before a run stay in front of those the run adds. */
  lemma {:induction false} FlowRunFrom(pol: Policy, f: Flow, done: seq<Flush>, evs: seq<Event>)
    ensures var r := FlowRun(pol, f.(flushes := []), evs);
      FlowRun(pol, f.(flushes := done), evs) == r.(flushes := done + r.flushes)
  {
    if evs == [] {
      assert done + [] == done;
    } else {
      FlowRunFrom(pol, f, done, evs[..|evs| - 1]);
      FlowStepFrom(pol, FlowRun(pol, f.(flushes := []), evs[..|evs| - 1]), done, evs[|evs| - 1]);
    }
  }

  lemma FlowRunTwoMore(pol: Policy, f: Flow, evs: seq<Event>, a: Event, b: Event)
    ensures FlowRun(pol, f, evs + [a, b]) == FlowStep(pol, FlowStep(pol, FlowRun(pol, f, evs), a), b)
  {
    assert (evs + [a, b])[..|evs| + 1] == evs + [a];
    assert (evs + [a])[..|evs|] == evs;
  }

  lemma FlowRunOneMore(pol: Policy, f: Flow, evs: seq<Event>, a: Event)
    ensures FlowRun(pol, f, evs + [a]) == FlowStep(pol, FlowRun(pol, f, evs), a)
  {
    assert (evs + [a])[..|evs|] == evs;
  }

  // ---------------------------------------------------------------- matches across a cut

  function Shift(m: TagMatch, d: nat): TagMatch {
    m.(start := m.start + d)
  }

  function ShiftAll(ms: seq<TagMatch>, d: nat): (r: seq<TagMatch>)
    ensures |r| == |ms|
    ensures forall k :: 0 <= k < |ms| ==> r[k] == Shift(ms[k], d)
  {
    seq(|ms|, k requires 0 <= k < |ms| => Shift(ms[k], d))
  }

  /** In a list in left-to-right order, the first match starts no later than any other, and every other starts after it ends. */
  lemma FirstOfChained(xs: seq<TagMatch>, m: TagMatch)
    requires Chained(xs) && m in xs
    ensures xs[0].start <= m.start
    ensures m != xs[0] ==> End(xs[0]) <= m.start
  {
    var i :| 0 <= i < |xs| && xs[i] == m;
    if i > 0 {
      assert End(xs[0]) <= xs[i].start;
    }
  }

  lemma FirstIsMember(ys: seq<TagMatch>)
    ensures ys != [] ==> ys[0] in ys
  {
  }

  /** Two match lists in left-to-right order with the same elements are the same list. */
  lemma {:induction false} SameMatchLists(xs: seq<TagMatch>, ys: seq<TagMatch>)
    requires Chained(xs) && Chained(ys)
    requires forall m :: m in xs <==> m in ys
    ensures xs == ys
    decreases |xs|
  {
    if xs == [] {
      FirstIsMember(ys);
    } else {
      var x0 := xs[0];
      assert x0 in ys;
      var y0 := ys[0];
      assert y0 in xs;
      FirstOfChained(xs, y0);
      FirstOfChained(ys, x0);
      assert x0 == y0;
      var xt, yt := xs[1..], ys[1..];
      assert xs == [x0] + xt && ys == [y0] + yt;
      forall m | m in xt ensures m in yt {
        FirstOfChained(xs, m);
      }
      forall m | m in yt ensures m in xt {
        FirstOfChained(ys, m);
      }
      SameMatchLists(xt, yt);
    }
  }

  lemma MatchInPrefix(names: seq<string>, s: string, more: string, m: TagMatch)
    requires End(m) <= |s|
    ensures IsMatch(names, s + more, m) <==> IsMatch(names, s, m)
  {
    assert (s + more)[m.start..End(m)] == s[m.start..End(m)];
  }

  lemma MatchInSuffix(names: seq<string>, s: string, q: nat, m: TagMatch)
    requires q <= |s|
    ensures IsMatch(names, s[q..], m) <==> IsMatch(names, s, Shift(m, q))
  {
    if End(m) <= |s| - q {
      assert s[q..][m.start..End(m)] == s[q + m.start..q + End(m)];
    }
  }

  /** The matches of the first part, then the shifted matches of the second, are in order. */
  lemma CutChained(ms: seq<TagMatch>, ms2: seq<TagMatch>, q: nat)
    requires Chained(ms) && Chained(ms2)
    requires LastEnd(ms, |ms|) <= q
    ensures Chained(ms + ShiftAll(ms2, q))
  {
    var sh := ShiftAll(ms2, q);
    var all := ms + sh;
    forall j, k | 0 <= j < k < |all| ensures End(all[j]) <= all[k].start {
      if j >= |ms| {
        assert all[j] == sh[j - |ms|] && all[k] == sh[k - |ms|];
      } else if k >= |ms| {
        assert End(ms[j]) <= LastEnd(ms, |ms|) by {
          if j < |ms| - 1 {
            assert End(ms[j]) <= ms[|ms| - 1].start;
          }
        }
        assert all[k] == sh[k - |ms|];
      }
    }
  }

  /** Every occurrence of a marker in `s` is in `ms`, and everything in `ms` is one. */
  ghost predicate AllMatches(names: seq<string>, s: string, ms: seq<TagMatch>) {
    (forall k :: 0 <= k < |ms| ==> IsMatch(names, s, ms[k]))
    && (forall m :: IsMatch(names, s, m) ==> m in ms)
  }

  lemma FindAllIsAllMatches(names: seq<string>, s: string)
    requires WellFormedNames(names)
    ensures AllMatches(names, s, FindAll(names, s, 0)) && Chained(FindAll(names, s, 0))
  {
    FindAllSound(names, s, 0);
    FindAllOrdered(names, s, 0);
    forall m | IsMatch(names, s, m) ensures m in FindAll(names, s, 0) {
      FindAllComplete(names, s, 0, m);
    }
  }

  /**
   * No marker of `s + more` starts before the kept tail `rest` of `s` and
   * ends past `s`: the tail starts with the only `<` after the last match,
   * and a marker holds no `<` past its first character.
   */
  lemma NoCrossing(names: seq<string>, s: string, more: string, m: TagMatch, ms: seq<TagMatch>, rest: string)
    requires WellFormedNames(names) && IsMatch(names, s + more, m)
    requires AllMatches(names, s, ms) && Chained(ms)
    requires SplitTail(s[LastEnd(ms, |ms|)..]).rest == rest
    ensures End(m) <= |s| || |s| - |rest| <= m.start
  {
    var c := s + more;
    var from := LastEnd(ms, |ms|);
    var t := SplitTail(s[from..]);
    var q := |s| - |rest|;
    MarkerFits(c, m);
    if End(m) > |s| && m.start < q {
      if rest != "" {
        assert c[q] == rest[0];
        NoLtInsideMatch(names, c, m, q);
        assert false;
      } else {
        forall i | from <= i < |s| ensures s[i] != '<' {
          assert s[from..][i - from] == s[i];
        }
        assert c[m.start] == s[m.start];
        var last := ms[|ms| - 1];
        MatchInPrefix(names, s, more, last);
        MarkerFits(c, last);
        if m.start < last.start {
          NoLtInsideMatch(names, c, m, last.start);
          assert false;
        } else if m.start == last.start {
          MatchUnique(names, c, m, last);
          assert false;
        } else {
          NoLtInsideMatch(names, c, last, m.start);
          assert false;
        }
      }
    }
  }

  /** The tail that `SplitTail` keeps is a suffix of the text. */
  lemma TailIsSuffix(s: string, from: nat, rest: string)
    requires from <= |s| && SplitTail(s[from..]).rest == rest
    ensures from + |rest| <= |s| && s[|s| - |rest|..] == rest
  {
    var t := SplitTail(s[from..]);
    assert s[|s| - |rest|..] == s[from..][|t.safe|..];
  }

  lemma AppendAfter(s: string, more: string, q: nat)
    requires q <= |s|
    ensures (s + more)[q..] == s[q..] + more
  {
  }

  /** Every marker of `s + more` is a match of `s` or a shifted match of `rest + more`. */
  lemma CutComplete(names: seq<string>, s: string, more: string, m: TagMatch, ms: seq<TagMatch>, rest: string,
                    ms2: seq<TagMatch>, q: nat)
    requires WellFormedNames(names) && IsMatch(names, s + more, m)
    requires AllMatches(names, s, ms) && Chained(ms) && AllMatches(names, rest + more, ms2)
    requires SplitTail(s[LastEnd(ms, |ms|)..]).rest == rest
    requires q + |rest| == |s| && s[q..] == rest
    ensures m in ms + ShiftAll(ms2, q)
  {
    NoCrossing(names, s, more, m, ms, rest);
    if End(m) <= |s| {
      MatchInPrefix(names, s, more, m);
      assert m in ms;
    } else {
      AppendAfter(s, more, q);
      var m2 := m.(start := m.start - q);
      assert Shift(m2, q) == m;
      MatchInSuffix(names, s + more, q, m2);
      assert m2 in ms2;
      var k :| 0 <= k < |ms2| && ms2[k] == m2;
      assert ShiftAll(ms2, q)[k] == m;
    }
  }

  /** Every match of `s`, and every shifted match of `rest + more`, is a marker of `s + more`. */
  lemma CutSound(names: seq<string>, s: string, more: string, m: TagMatch, ms: seq<TagMatch>, rest: string,
                 ms2: seq<TagMatch>, q: nat)
    requires AllMatches(names, s, ms) && AllMatches(names, rest + more, ms2)
    requires q + |rest| == |s| && s[q..] == rest
    requires m in ms + ShiftAll(ms2, q)
    ensures IsMatch(names, s + more, m)
  {
    if m in ms {
      var i :| 0 <= i < |ms| && ms[i] == m;
      MatchInPrefix(names, s, more, m);
    } else {
      var i :| 0 <= i < |ms2| && ShiftAll(ms2, q)[i] == m;
      AppendAfter(s, more, q);
      MatchInSuffix(names, s + more, q, ms2[i]);
    }
  }

  lemma CutHasSameElements(names: seq<string>, s: string, more: string, ms: seq<TagMatch>, rest: string,
                            ms2: seq<TagMatch>, whole: seq<TagMatch>, q: nat)
    requires WellFormedNames(names)
    requires AllMatches(names, s, ms) && Chained(ms) && AllMatches(names, rest + more, ms2)
    requires AllMatches(names, s + more, whole)
    requires SplitTail(s[LastEnd(ms, |ms|)..]).rest == rest
    requires q + |rest| == |s| && s[q..] == rest
    ensures forall m :: m in whole <==> m in ms + ShiftAll(ms2, q)
  {
    forall m ensures m in whole <==> m in ms + ShiftAll(ms2, q) {
      if m in whole {
        CutComplete(names, s, more, m, ms, rest, ms2, q);
      }
      if m in ms + ShiftAll(ms2, q) {
        CutSound(names, s, more, m, ms, rest, ms2, q);
      }
    }
  }

  /** A list in order with the same elements as the matches of both parts is their concatenation. */
  lemma ChainedSame(whole: seq<TagMatch>, ms: seq<TagMatch>, ms2: seq<TagMatch>, q: nat)
    requires Chained(whole) && Chained(ms) && Chained(ms2) && LastEnd(ms, |ms|) <= q
    requires forall m :: m in whole <==> m in ms + ShiftAll(ms2, q)
    ensures whole == ms + ShiftAll(ms2, q)
  {
    CutChained(ms, ms2, q);
    SameMatchLists(whole, ms + ShiftAll(ms2, q));
  }

  /**
   * The matches of `s + more` are those of `s`, then those of the tail
   * `rest` kept buffered after them followed by `more`, shifted to where
   * that tail begins.
   */
  lemma FindAllAcrossCut(names: seq<string>, s: string, more: string, rest: string)
    requires WellFormedNames(names)
    requires rest == SplitTail(s[LastEnd(FindAll(names, s, 0), |FindAll(names, s, 0)|)..]).rest
    ensures |rest| <= |s|
    ensures FindAll(names, s + more, 0) == FindAll(names, s, 0) + ShiftAll(FindAll(names, rest + more, 0), |s| - |rest|)
  {
    FindAllIsAllMatches(names, s);
    FindAllIsAllMatches(names, rest + more);
    FindAllIsAllMatches(names, s + more);
    MatchesAcrossCut(names, s, more, FindAll(names, s, 0), rest, FindAll(names, rest + more, 0), FindAll(names, s + more, 0));
  }

  lemma MatchesAcrossCut(names: seq<string>, s: string, more: string, ms: seq<TagMatch>, rest: string,
                         ms2: seq<TagMatch>, whole: seq<TagMatch>)
    requires WellFormedNames(names)
    requires AllMatches(names, s, ms) && Chained(ms)
    requires AllMatches(names, rest + more, ms2) && Chained(ms2)
    requires AllMatches(names, s + more, whole) && Chained(whole)
    requires SplitTail(s[LastEnd(ms, |ms|)..]).rest == rest
    ensures |rest| <= |s| && whole == ms + ShiftAll(ms2, |s| - |rest|)
  {
    TailIsSuffix(s, LastEnd(ms, |ms|), rest);
    SameAndChained(names, s, more, ms, rest, ms2, whole, |s| - |rest|);
  }

  lemma SameAndChained(names: seq<string>, s: string, more: string, ms: seq<TagMatch>, rest: string,
                       ms2: seq<TagMatch>, whole: seq<TagMatch>, q: nat)
    requires WellFormedNames(names)
    requires AllMatches(names, s, ms) && Chained(ms)
    requires AllMatches(names, rest + more, ms2) && Chained(ms2)
    requires AllMatches(names, s + more, whole) && Chained(whole)
    requires SplitTail(s[LastEnd(ms, |ms|)..]).rest == rest
    requires q + |rest| == |s| && s[q..] == rest && LastEnd(ms, |ms|) <= q
    ensures whole == ms + ShiftAll(ms2, q)
  {
    CutHasSameElements(names, s, more, ms, rest, ms2, whole, q);
    ChainedSame(whole, ms, ms2, q);
  }

  // ---------------------------------------------------------------- events and tails across a cut

  /** The events of the first `k` matches do not change when text is appended after them. */
  lemma {:induction false} TagEventsPrefix(s: string, more: string, ms: seq<TagMatch>, all: seq<TagMatch>, k: nat)
    requires InOrder(ms, |s|) && InOrder(all, |s + more|)
    requires k <= |ms| <= |all| && all[..|ms|] == ms
    ensures TagEvents(s + more, all, k) == TagEvents(s, ms, k)
  {
    if k > 0 {
      TagEventsPrefix(s, more, ms, all, k - 1);
      assert all[k - 1] == ms[k - 1];
      assert LastEnd(all, k - 1) == LastEnd(ms, k - 1) by {
        if k > 1 {
          assert all[k - 2] == ms[k - 2];
        }
      }
      assert (s + more)[LastEnd(ms, k - 1)..ms[k - 1].start] == s[LastEnd(ms, k - 1)..ms[k - 1].start];
    }
  }

  lemma TextJoin(pol: Policy, f: Flow, u: string, v: string)
    ensures FlowStep(pol, FlowStep(pol, f, Text(u)), Text(v)) == FlowStep(pol, f, Text(u + v))
  {
    assert f.content + u + v == f.content + (u + v);
  }

  lemma SliceAfter(c: string, q: nat, r: string, u: nat, v: nat)
    requires q <= |c| && c[q..] == r && u <= v <= |r|
    ensures c[q + u..q + v] == r[u..v]
  {
    assert c[q + u..q + v] == c[q..][u..v];
  }

  /** Where a marker starts does not matter to the flow. */
  lemma MarkerShift(pol: Policy, f: Flow, m: TagMatch, q: nat)
    ensures FlowStep(pol, f, Marker(Shift(m, q))) == FlowStep(pol, f, Marker(m))
  {
  }

  /** The last `|ms2|` matches of `all` are the matches `ms2` of `c[q..]`, shifted by `q`. */
  ghost predicate EndsShifted(all: seq<TagMatch>, k0: nat, ms2: seq<TagMatch>, q: nat) {
    |all| == k0 + |ms2| && forall k :: k0 <= k < |all| ==> all[k] == Shift(ms2[k - k0], q)
  }

  lemma ShiftedLastEnd(all: seq<TagMatch>, k0: nat, ms2: seq<TagMatch>, q: nat, j: nat, n: nat)
    requires EndsShifted(all, k0, ms2, q) && 0 < j <= |ms2| && n == k0 + j
    ensures all[n - 1] == Shift(ms2[j - 1], q)
    ensures LastEnd(all, n) == q + LastEnd(ms2, j)
  {
    assert all[n - 1] == Shift(ms2[n - 1 - k0], q);
  }

  lemma StartWithin(ms: seq<TagMatch>, n: nat, k: nat)
    requires InOrder(ms, n) && k < |ms|
    ensures ms[k].start <= End(ms[k]) <= n
  {
  }

  // ---------------------------------------------------------------- pieces

  /** The text before a match and the match's marker, without the match's position. */
  datatype Piece = Piece(text: string, closing: bool, name: string)

  ghost function PieceAt(buf: string, ms: seq<TagMatch>, i: nat): Piece
    requires InOrder(ms, |buf|) && i < |ms|
  {
    StartWithin(ms, |buf|, i);
    Piece(buf[LastEnd(ms, i)..ms[i].start], ms[i].closing, ms[i].name)
  }

  /** The pieces of the first `k` matches of `buf`. */
  ghost function Pieces(buf: string, ms: seq<TagMatch>, k: nat): (ps: seq<Piece>)
    requires InOrder(ms, |buf|) && k <= |ms|
    ensures |ps| == k
  {
    if k == 0 then [] else Pieces(buf, ms, k - 1) + [PieceAt(buf, ms, k - 1)]
  }

  lemma {:induction false} PiecesIndex(buf: string, ms: seq<TagMatch>, k: nat, i: nat)
    requires InOrder(ms, |buf|) && i < k <= |ms|
    ensures Pieces(buf, ms, k)[i] == PieceAt(buf, ms, i)
  {
    if i < k - 1 {
      PiecesIndex(buf, ms, k - 1, i);
    }
  }

  /** The text of a piece, then its marker. */
  function StepPiece(pol: Policy, f: Flow, pc: Piece): Flow {
    FlowStep(pol, FlowStep(pol, f, Text(pc.text)), Marker(TagMatch(0, pc.closing, pc.name)))
  }

  function FlowPieces(pol: Policy, f: Flow, ps: seq<Piece>): Flow {
    if ps == [] then f else StepPiece(pol, FlowPieces(pol, f, ps[..|ps| - 1]), ps[|ps| - 1])
  }

  /** Stepping through `a + b` is stepping through `a`, then through `b`. */
  lemma {:induction false} FlowPiecesAppend(pol: Policy, f: Flow, a: seq<Piece>, b: seq<Piece>)
    ensures FlowPieces(pol, f, a + b) == FlowPieces(pol, FlowPieces(pol, f, a), b)
    decreases |b|
  {
    if b == [] {
      assert a + b == a;
    } else {
      FlowPiecesAppend(pol, f, a, b[..|b| - 1]);
      assert (a + b)[..|a + b| - 1] == a + b[..|b| - 1];
    }
  }

  lemma FlowPiecesLast(pol: Policy, f: Flow, ps: seq<Piece>, pc: Piece)
    ensures FlowPieces(pol, f, ps + [pc]) == StepPiece(pol, FlowPieces(pol, f, ps), pc)
  {
    assert (ps + [pc])[..|ps|] == ps;
  }

  /** A text and a marker are the piece they make, wherever the marker is. */
  lemma StepPieceOf(pol: Policy, f: Flow, u: string, m: TagMatch)
    ensures FlowStep(pol, FlowStep(pol, f, Text(u)), Marker(m)) == StepPiece(pol, f, Piece(u, m.closing, m.name))
  {
    MarkerShift(pol, FlowStep(pol, f, Text(u)), TagMatch(0, m.closing, m.name), m.start);
  }

  /** Running the events of the first `k` matches is stepping through their pieces. */
  lemma {:induction false} PiecesRun(pol: Policy, f: Flow, buf: string, ms: seq<TagMatch>, k: nat)
    requires InOrder(ms, |buf|) && k <= |ms|
    ensures FlowRun(pol, f, TagEvents(buf, ms, k)) == FlowPieces(pol, f, Pieces(buf, ms, k))
  {
    if k > 0 {
      PiecesRun(pol, f, buf, ms, k - 1);
      var evs := TagEvents(buf, ms, k - 1);
      var pc := PieceAt(buf, ms, k - 1);
      var m := ms[k - 1];
      var u := pc.text;
      FlowRunTwoMore(pol, f, evs, Text(u), Marker(m));
      StepPieceOf(pol, FlowRun(pol, f, evs), u, m);
      FlowPiecesLast(pol, f, Pieces(buf, ms, k - 1), pc);
    }
  }

  /** The piece of the first match after the cut: its text runs from the last match before the cut. */
  lemma PieceAtCut(c: string, all: seq<TagMatch>, k0: nat, r: string, ms2: seq<TagMatch>, q: nat)
    requires InOrder(all, |c|) && InOrder(ms2, |r|)
    requires q <= |c| && c[q..] == r
    requires EndsShifted(all, k0, ms2, q) && LastEnd(all, k0) <= q && |ms2| > 0
    ensures var p := PieceAt(r, ms2, 0);
      PieceAt(c, all, k0) == Piece(c[LastEnd(all, k0)..q] + p.text, p.closing, p.name)
  {
    var s0 := ms2[0].start;
    assert all[k0] == Shift(ms2[0], q);
    StartWithin(ms2, |r|, 0);
    SliceAfter(c, q, r, 0, s0);
    assert c[LastEnd(all, k0)..q + s0] == c[LastEnd(all, k0)..q] + c[q..q + s0];
  }

  /** Every later piece of `c` is the piece of `r` it was shifted from. */
  lemma PieceAfterCut(c: string, all: seq<TagMatch>, k0: nat, r: string, ms2: seq<TagMatch>, q: nat, t: nat, i: nat)
    requires InOrder(all, |c|) && InOrder(ms2, |r|)
    requires q <= |c| && c[q..] == r
    requires EndsShifted(all, k0, ms2, q) && 0 < t < |ms2| && i == k0 + t
    ensures PieceAt(c, all, i) == PieceAt(r, ms2, t)
  {
    assert all[i] == Shift(ms2[t], q);
    ShiftedLastEnd(all, k0, ms2, q, t, i);
    StartWithin(ms2, |r|, t);
    SliceAfter(c, q, r, LastEnd(ms2, t), ms2[t].start);
  }

  /** The `i`-th piece of `c`: before the cut, across it, or after it. */
  lemma PieceAcrossCut(c: string, all: seq<TagMatch>, k0: nat, r: string, ms2: seq<TagMatch>, q: nat, i: nat)
    requires InOrder(all, |c|) && InOrder(ms2, |r|)
    requires q <= |c| && c[q..] == r
    requires EndsShifted(all, k0, ms2, q) && LastEnd(all, k0) <= q && |ms2| > 0 && i < |all|
    ensures var ps := Pieces(r, ms2, |ms2|);
      Pieces(c, all, |all|)[i]
      == if i < k0 then Pieces(c, all, k0)[i]
         else if i == k0 then Piece(c[LastEnd(all, k0)..q] + ps[0].text, ps[0].closing, ps[0].name)
         else ps[i - k0]
  {
    PiecesIndex(c, all, |all|, i);
    if i < k0 {
      PiecesIndex(c, all, k0, i);
    } else if i == k0 {
      PiecesIndex(r, ms2, |ms2|, 0);
      PieceAtCut(c, all, k0, r, ms2, q);
    } else {
      PiecesIndex(r, ms2, |ms2|, i - k0);
      PieceAfterCut(c, all, k0, r, ms2, q, i - k0, i);
    }
  }

  /** Sequence step with no counterpart in the parser; kept apart only to keep the caller's proof cost down. */
  lemma SpliceIndex(a: seq<Piece>, m: Piece, b: seq<Piece>, i: nat)
    requires b != [] && i < |a| + |b|
    ensures (a + [m] + b[1..])[i] == if i < |a| then a[i] else if i == |a| then m else b[i - |a|]
  {
  }

  /**
   * The pieces of `c` across the cut at `q`: those before the cut, one whose
   * text runs across it, then the later pieces of `r`.
   */
  lemma PiecesAcrossCut(c: string, all: seq<TagMatch>, k0: nat, r: string, ms2: seq<TagMatch>, q: nat)
    requires InOrder(all, |c|) && InOrder(ms2, |r|)
    requires q <= |c| && c[q..] == r
    requires EndsShifted(all, k0, ms2, q) && LastEnd(all, k0) <= q && |ms2| > 0
    ensures var ps := Pieces(r, ms2, |ms2|);
      Pieces(c, all, |all|)
      == Pieces(c, all, k0) + [Piece(c[LastEnd(all, k0)..q] + ps[0].text, ps[0].closing, ps[0].name)] + ps[1..]
  {
    var ps := Pieces(r, ms2, |ms2|);
    var whole := Pieces(c, all, |all|);
    var a := Pieces(c, all, k0);
    var m := Piece(c[LastEnd(all, k0)..q] + ps[0].text, ps[0].closing, ps[0].name);
    forall i | 0 <= i < |all| ensures whole[i] == (a + [m] + ps[1..])[i] {
      PieceAcrossCut(c, all, k0, r, ms2, q, i);
      SpliceIndex(a, m, ps, i);
    }
  }

  /** A piece whose text starts with `u` is the text `u`, then the piece without it. */
  lemma FlowPiecesSplice(pol: Policy, f: Flow, a: seq<Piece>, u: string, pc: Piece, rest: seq<Piece>)
    ensures FlowPieces(pol, f, a + [Piece(u + pc.text, pc.closing, pc.name)] + rest)
      == FlowPieces(pol, FlowStep(pol, FlowPieces(pol, f, a), Text(u)), [pc] + rest)
  {
    var m := Piece(u + pc.text, pc.closing, pc.name);
    var x := FlowPieces(pol, f, a);
    var y := FlowStep(pol, x, Text(u));
    FlowPiecesAppend(pol, f, a + [m], rest);
    FlowPiecesLast(pol, f, a, m);
    TextJoin(pol, x, u, pc.text);
    FlowPiecesAppend(pol, y, [pc], rest);
    FlowPiecesLast(pol, y, [], pc);
    assert [] + [pc] == [pc];
  }

  /** Sequence step with no counterpart in the parser; kept apart only to keep the caller's proof cost down. */
  lemma FirstAndRest(ps: seq<Piece>)
    requires ps != []
    ensures [ps[0]] + ps[1..] == ps
  {
  }

  /**
   * Stepping through the pieces of `c` is stepping through those before the
   * cut, then the text up to the cut, then the pieces of `r`.
   */
  lemma FlowPiecesAcrossCut(pol: Policy, f0: Flow, c: string, all: seq<TagMatch>, k0: nat, r: string,
                            ms2: seq<TagMatch>, q: nat)
    requires InOrder(all, |c|) && InOrder(ms2, |r|)
    requires q <= |c| && c[q..] == r
    requires EndsShifted(all, k0, ms2, q) && LastEnd(all, k0) <= q && |ms2| > 0
    ensures FlowPieces(pol, f0, Pieces(c, all, |all|))
      == FlowPieces(pol, FlowStep(pol, FlowPieces(pol, f0, Pieces(c, all, k0)), Text(c[LastEnd(all, k0)..q])),
                    Pieces(r, ms2, |ms2|))
  {
    var ps := Pieces(r, ms2, |ms2|);
    PiecesAcrossCut(c, all, k0, r, ms2, q);
    FlowPiecesSplice(pol, f0, Pieces(c, all, k0), c[LastEnd(all, k0)..q], ps[0], ps[1..]);
    FirstAndRest(ps);
  }

  /** `SplitTail` is the only split of its kind. */
  lemma TailUnique(x: string, u: string, v: string)
    requires u + v == x
    requires v == "" || (v[0] == '<' && forall i :: 0 < i < |v| ==> v[i] != '<')
    requires v == "" ==> forall i :: 0 <= i < |x| ==> x[i] != '<'
    ensures SplitTail(x) == Tail(u, v)
  {
    if v != "" {
      assert x[|u|] == v[0];
      assert forall i :: |u| < i < |x| ==> x[i] == v[i - |u|];
      assert RFind(x, '<') == |u|;
      assert x[..|u|] == u && x[|u|..] == v;
    } else {
      assert x == u;
    }
  }

  /**
   * When the first part's tail `rest` follows a literal part `u`, the tail
   * of `u + rest + more` is the tail of `rest + more`, and everything before
   * it is literal.
   */
  lemma TailJoined(u: string, rest: string, more: string)
    requires SplitTail(u + rest) == Tail(u, rest)
    ensures var t2 := SplitTail(rest + more);
      SplitTail(u + (rest + more)) == Tail(u + t2.safe, t2.rest)
  {
    var r := rest + more;
    var t2 := SplitTail(r);
    var x := u + r;
    assert (u + t2.safe) + t2.rest == x;
    FirstOfAppend(rest, more);
    if t2.rest == "" {
      assert rest == "";
      assert u + rest == u;
      forall i | 0 <= i < |x| ensures x[i] != '<' {
        if i < |u| {
          assert x[i] == (u + rest)[i];
        } else {
          assert x[i] == r[i - |u|];
        }
      }
    }
    TailUnique(x, u + t2.safe, t2.rest);
  }

  lemma FirstOfAppend(u: string, v: string)
    ensures u != "" ==> (u + v)[0] == u[0]
  {
  }

  lemma SliceConcat(c: string, from: nat, q: nat, u: string, v: string)
    requires from <= q <= |c| && c[from..q] == u && c[q..] == v
    ensures c[from..] == u + v
  {
    assert c[from..] == c[from..q] + c[q..];
  }

  lemma SliceJoin(c: string, e: nat, w: nat, u: string, v: string)
    requires e <= |c| && c[e..] == u + v && w == e + |u|
    ensures c[e..w] == u
  {
    assert c[e..w] == c[e..][..|u|];
  }

  lemma TailAfterAt(c: string, q: nat, r: string, w: nat, u: nat)
    requires q <= |c| && c[q..] == r && u <= |r| && w == q + u
    ensures c[w..] == r[u..]
  {
    assert c[w..] == c[q..][u..];
  }

  /**
   * With only the literal text `u` from the last match of `c` to the cut at
   * `q`, where `c[q..] == r`, the tail of `c` from that match is the tail of
   * `r`, and `u` joins what precedes it.
   */
  lemma TailAcrossCut(c: string, q: nat, r: string, e: nat, u: string, rest: string, more: string)
    requires q <= |c| && c[q..] == r && r == rest + more
    requires e + |u| == q && c[e..q] == u && SplitTail(u + rest) == Tail(u, rest)
    ensures var t, t2 := SplitTail(c[e..]), SplitTail(r);
      t.safe == u + t2.safe && t.rest == t2.rest
  {
    SliceConcat(c, e, q, u, r);
    TailJoined(u, rest, more);
  }

  /** The matches after the cut, run from the flow at the cut, finish the run over all matches. */
  lemma RunAcrossCut(pol: Policy, f0: Flow, c: string, all: seq<TagMatch>, k0: nat, r: string,
                     ms2: seq<TagMatch>, q: nat, y: Flow)
    requires InOrder(all, |c|) && InOrder(ms2, |r|)
    requires q <= |c| && c[q..] == r
    requires EndsShifted(all, k0, ms2, q) && LastEnd(all, k0) <= q && |ms2| > 0
    requires y == FlowStep(pol, FlowRun(pol, f0, TagEvents(c, all, k0)), Text(c[LastEnd(all, k0)..q]))
    ensures FlowRun(pol, f0, TagEvents(c, all, |all|)) == FlowRun(pol, y, TagEvents(r, ms2, |ms2|))
  {
    PiecesRun(pol, f0, c, all, |all|);
    PiecesRun(pol, f0, c, all, k0);
    PiecesRun(pol, y, r, ms2, |ms2|);
    FlowPiecesAcrossCut(pol, f0, c, all, k0, r, ms2, q);
  }

  /** The matches of `s + more`: those of `s`, then those after the cut at `q`, shifted. */
  lemma CutMatches(ms: seq<TagMatch>, ms2: seq<TagMatch>, all: seq<TagMatch>, q: nat)
    requires all == ms + ShiftAll(ms2, q)
    ensures EndsShifted(all, |ms|, ms2, q) && all[..|ms|] == ms && LastEnd(all, |ms|) == LastEnd(ms, |ms|)
  {
    var k0 := |ms|;
    forall k | k0 <= k < |all| ensures all[k] == Shift(ms2[k - k0], q) {
      assert all[k] == ShiftAll(ms2, q)[k - k0];
    }
    if k0 > 0 {
      assert all[k0 - 1] == ms[k0 - 1];
    }
  }

  /** What a cut at `q` in `s + more` fixes: `rest` follows the literal text `u` after the last match of `s`. */
  lemma CutText(s: string, more: string, from: nat, rest: string)
    requires from <= |s| && SplitTail(s[from..]).rest == rest
    ensures var q, u := |s| - |rest|, SplitTail(s[from..]).safe;
      && |rest| <= |s| && (s + more)[q..] == rest + more && from + |u| == q
      && (s + more)[from..q] == u && SplitTail(u + rest) == Tail(u, rest)
  {
    var q := |s| - |rest|;
    var u := SplitTail(s[from..]).safe;
    TailIsSuffix(s, from, rest);
    AppendAfter(s, more, q);
    assert s[from..] == u + rest;
    SliceJoin(s, from, q, u, rest);
    assert (s + more)[from..q] == s[from..q];
  }

  /**
   * The events of the matches of `c` from the last one before the cut at `q`,
   * with the text after them, are the text up to the cut, then the events of
   * the matches of `r == c[q..]` with the text after them; both leave the
   * same tail.
   */
  lemma EventsAfterCut(pol: Policy, f0: Flow, c: string, all: seq<TagMatch>, k0: nat, r: string,
                       ms2: seq<TagMatch>, q: nat, u: string, rest: string, more: string)
    requires InOrder(all, |c|) && InOrder(ms2, |r|)
    requires q <= |c| && c[q..] == r && r == rest + more
    requires EndsShifted(all, k0, ms2, q) && LastEnd(all, k0) + |u| == q
    requires c[LastEnd(all, k0)..q] == u && SplitTail(u + rest) == Tail(u, rest)
    ensures var t := SplitTail(c[LastEnd(all, |all|)..]);
      var t2 := SplitTail(r[LastEnd(ms2, |ms2|)..]);
      var y := FlowStep(pol, FlowRun(pol, f0, TagEvents(c, all, k0)), Text(u));
      && t.rest == t2.rest
      && FlowStep(pol, FlowRun(pol, f0, TagEvents(c, all, |all|)), Text(t.safe))
         == FlowStep(pol, FlowRun(pol, y, TagEvents(r, ms2, |ms2|)), Text(t2.safe))
  {
    if |ms2| > 0 {
      MatchesAfterCut(pol, f0, c, all, k0, r, ms2, q, u);
    } else {
      NoMatchAfterCut(pol, f0, c, all, k0, r, ms2, q, u, rest, more);
    }
  }

  lemma MatchesAfterCut(pol: Policy, f0: Flow, c: string, all: seq<TagMatch>, k0: nat, r: string,
                        ms2: seq<TagMatch>, q: nat, u: string)
    requires InOrder(all, |c|) && InOrder(ms2, |r|)
    requires q <= |c| && c[q..] == r && |ms2| > 0
    requires EndsShifted(all, k0, ms2, q) && LastEnd(all, k0) + |u| == q && c[LastEnd(all, k0)..q] == u
    ensures var t := SplitTail(c[LastEnd(all, |all|)..]);
      var t2 := SplitTail(r[LastEnd(ms2, |ms2|)..]);
      var y := FlowStep(pol, FlowRun(pol, f0, TagEvents(c, all, k0)), Text(u));
      && t == t2
      && FlowRun(pol, f0, TagEvents(c, all, |all|)) == FlowRun(pol, y, TagEvents(r, ms2, |ms2|))
  {
    var n := |all|;
    ShiftedLastEnd(all, k0, ms2, q, |ms2|, n);
    TailAfterAt(c, q, r, LastEnd(all, n), LastEnd(ms2, |ms2|));
    RunAcrossCut(pol, f0, c, all, k0, r, ms2, q, FlowStep(pol, FlowRun(pol, f0, TagEvents(c, all, k0)), Text(u)));
  }

  lemma NoMatchAfterCut(pol: Policy, f0: Flow, c: string, all: seq<TagMatch>, k0: nat, r: string,
                        ms2: seq<TagMatch>, q: nat, u: string, rest: string, more: string)
    requires InOrder(all, |c|)
    requires q <= |c| && c[q..] == r && r == rest + more && |ms2| == 0
    requires EndsShifted(all, k0, ms2, q) && LastEnd(all, k0) + |u| == q
    requires c[LastEnd(all, k0)..q] == u && SplitTail(u + rest) == Tail(u, rest)
    ensures var t := SplitTail(c[LastEnd(all, |all|)..]);
      var t2 := SplitTail(r);
      var x0 := FlowRun(pol, f0, TagEvents(c, all, |all|));
      && t.rest == t2.rest
      && FlowStep(pol, x0, Text(t.safe)) == FlowStep(pol, FlowStep(pol, x0, Text(u)), Text(t2.safe))
  {
    TailAcrossCut(c, q, r, LastEnd(all, k0), u, rest, more);
    TextJoin(pol, FlowRun(pol, f0, TagEvents(c, all, k0)), u, SplitTail(r).safe);
  }

  /**
   * The events of the matches `all == ms + ShiftAll(ms2, q)` of `c == s + more`
   * with the text after them, run in one go, are those of `ms` with the text
   * up to `rest`, followed by those of `ms2` in `rest + more` with the text
   * up to its tail, and both leave the same tail.
   */
  lemma EventsAcrossCut(pol: Policy, s: string, more: string, ms: seq<TagMatch>, rest: string,
                        ms2: seq<TagMatch>, all: seq<TagMatch>, f0: Flow)
    requires InOrder(ms, |s|) && InOrder(ms2, |rest + more|) && InOrder(all, |s + more|)
    requires |rest| <= |s| && all == ms + ShiftAll(ms2, |s| - |rest|)
    requires SplitTail(s[LastEnd(ms, |ms|)..]).rest == rest
    ensures var t := SplitTail((s + more)[LastEnd(all, |all|)..]);
      var t1 := SplitTail(s[LastEnd(ms, |ms|)..]);
      var t2 := SplitTail((rest + more)[LastEnd(ms2, |ms2|)..]);
      && t.rest == t2.rest
      && FlowRun(pol, f0, TagEvents(s + more, all, |all|) + [Text(t.safe)])
         == FlowRun(pol, FlowRun(pol, f0, TagEvents(s, ms, |ms|) + [Text(t1.safe)]),
                    TagEvents(rest + more, ms2, |ms2|) + [Text(t2.safe)])
  {
    var c, r := s + more, rest + more;
    var q := |s| - |rest|;
    var k0 := |ms|;
    var t1 := SplitTail(s[LastEnd(ms, k0)..]);
    CutMatches(ms, ms2, all, q);
    CutText(s, more, LastEnd(ms, k0), rest);
    TagEventsPrefix(s, more, ms, all, k0);
    EventsAfterCut(pol, f0, c, all, k0, r, ms2, q, t1.safe, rest, more);
    var y := FlowStep(pol, FlowRun(pol, f0, TagEvents(s, ms, k0)), Text(t1.safe));
    FlowRunOneMore(pol, f0, TagEvents(s, ms, k0), Text(t1.safe));
    FlowRunOneMore(pol, f0, TagEvents(c, all, |all|), Text(SplitTail(c[LastEnd(all, |all|)..]).safe));
    FlowRunOneMore(pol, y, TagEvents(r, ms2, |ms2|), Text(SplitTail(r[LastEnd(ms2, |ms2|)..]).safe));
  }

  // ---------------------------------------------------------------- two calls and one

  /**
   * Tokenizing `s + more` runs the flow as tokenizing `s`, then tokenizing
   * the tail it keeps with `more` appended, and leaves the same tail.
   */
  lemma TokenizeAcrossCut(pol: Policy, names: seq<string>, s: string, more: string, f0: Flow)
    requires WellFormedNames(names)
    ensures var t1 := Tokenize(names, s);
      var t2 := Tokenize(names, t1.rest + more);
      var t := Tokenize(names, s + more);
      && t.rest == t2.rest
      && FlowRun(pol, f0, t.events) == FlowRun(pol, FlowRun(pol, f0, t1.events), t2.events)
  {
    var rest := Tokenize(names, s).rest;
    var ms, ms2, all := FindAll(names, s, 0), FindAll(names, rest + more, 0), FindAll(names, s + more, 0);
    FindAllOrdered(names, s, 0);
    FindAllOrdered(names, rest + more, 0);
    FindAllOrdered(names, s + more, 0);
    FindAllAcrossCut(names, s, more, rest);
    EventsAcrossCut(pol, s, more, ms, rest, ms2, all, f0);
  }

  // ---------------------------------------------------------------- what is recorded as sent

  /**
   * `x` and `y` are where runs over the same events from `f` and from `g`
   * have got to, when `g` is `f` after the partial-emission policy ran and a
   * new call began. Either a flush has reset both alike, or neither run has
   * flushed yet and `x` differs from `f` only by the text both runs added.
   */
  ghost predicate SentRelated(pol: Policy, f: Flow, x: Flow, y: Flow) {
    && x.state == y.state && x.content == y.content && x.flushes == y.flushes
    && ((x.lastSent == y.lastSent && x.added == y.added)
        || (&& x.state == f.state && x.lastSent == f.lastSent && y.lastSent == SentAfter(pol, f)
            && x.added == (f.added || y.added) && f.content <= x.content
            && (y.added <==> |x.content| > |f.content|)))
  }

  lemma SentRelatedStep(pol: Policy, f: Flow, x: Flow, y: Flow, e: Event)
    requires SentRelated(pol, f, x, y)
    ensures SentRelated(pol, f, FlowStep(pol, x, e), FlowStep(pol, y, e))
  {
    if e.Text? && !(x.lastSent == y.lastSent && x.added == y.added) {
      assert (x.content + e.text)[..|f.content|] == x.content[..|f.content|];
    }
  }

  lemma {:induction false} SentRelatedRun(pol: Policy, f: Flow, g: Flow, evs: seq<Event>)
    requires g.state == f.state && g.content == f.content && g.flushes == f.flushes
    requires g.lastSent == SentAfter(pol, f) && !g.added
    ensures SentRelated(pol, f, FlowRun(pol, f, evs), FlowRun(pol, g, evs))
  {
    if evs != [] {
      var init := evs[..|evs| - 1];
      SentRelatedRun(pol, f, g, init);
      SentRelatedStep(pol, f, FlowRun(pol, f, init), FlowRun(pol, g, init), evs[|evs| - 1]);
    }
  }

  /**
   * Running the next call's events from `f` itself, or from `g`, which is
   * `f` after its call recorded what it sent, leaves the same state, content
   * and complete messages, and the same content recorded as sent once the
   * call ends.
   */
  lemma SentAcrossCut(pol: Policy, f: Flow, g: Flow, evs: seq<Event>)
    requires g.state == f.state && g.content == f.content && g.flushes == f.flushes
    requires g.lastSent == SentAfter(pol, f) && !g.added
    ensures var x, y := FlowRun(pol, f, evs), FlowRun(pol, g, evs);
      && x.state == y.state && x.content == y.content && x.flushes == y.flushes
      && SentAfter(pol, x) == SentAfter(pol, y)
  {
    SentRelatedRun(pol, f, g, evs);
    var x, y := FlowRun(pol, f, evs), FlowRun(pol, g, evs);
    if !(x.lastSent == y.lastSent && x.added == y.added) && !y.added {
      assert x.content == x.content[..|f.content|];
    }
  }

  /**
   * The flow of one call with the next call's events appended, against the
   * next call begun afresh from where the first one ended.
   */
  lemma NextCallFlow(pol: Policy, f1: Flow, evs: seq<Event>)
    ensures var x := FlowRun(pol, f1, evs);
      var y := FlowRun(pol, Flow(f1.state, f1.content, SentAfter(pol, f1), false, []), evs);
      && x.state == y.state && x.content == y.content && SentAfter(pol, x) == SentAfter(pol, y)
      && x.flushes == f1.flushes + y.flushes
  {
    SentAcrossCut(pol, f1.(flushes := []), Flow(f1.state, f1.content, SentAfter(pol, f1), false, []), evs);
    FlowRunFrom(pol, f1, f1.flushes, evs);
  }

  // ---------------------------------------------------------------- the cut theorem

  /** Sequence step with no counterpart in the parser; kept apart only to keep the caller's proof cost down. */
  lemma JoinChunks(x: string, y: string, z: string)
    ensures x + (y + z) == (x + y) + z
  {
  }

  /**
   * Where the input is cut into chunks does not change the complete
   * messages: two calls with `a` and then `b` emit the same complete
   * messages, in label, content and order, as one call with `a + b`, and
   * leave the same buffer, state, content and content recorded as sent.
   */
  lemma ChunkCutKeepsCompleteMessages(cfg: Config, snap: Snapshot, a: string, b: string)
    requires forall i :: 0 <= i < |cfg.tags| ==> EntryOk(cfg.tags[i])
    ensures var o1 := ParseChunkSpec(cfg, snap, a);
      var o2 := ParseChunkSpec(cfg, o1.snap, b);
      var o := ParseChunkSpec(cfg, snap, a + b);
      && o.snap.buffer == o2.snap.buffer
      && o.snap.core.state == o2.snap.core.state
      && o.snap.core.content == o2.snap.core.content
      && o.snap.core.lastSent == o2.snap.core.lastSent
      && Completes(o.messages) == Completes(o1.messages + o2.messages)
  {
    var pol, names := PolicyOf(cfg), Names(cfg.tags);
    var o1 := ParseChunkSpec(cfg, snap, a);
    var o2 := ParseChunkSpec(cfg, o1.snap, b);
    var f0 := Flow(snap.core.state, snap.core.content, snap.core.lastSent, false, []);
    var s := snap.buffer + a;
    JoinChunks(snap.buffer, a, b);
    ValidNamesWellFormed(cfg.tags);
    TokenizeAcrossCut(pol, names, s, b, f0);
    ParseChunkFlow(cfg, snap, a);
    ParseChunkFlow(cfg, o1.snap, b);
    ParseChunkFlow(cfg, snap, a + b);
    var t2 := Tokenize(names, o1.snap.buffer + b);
    NextCallFlow(pol, FlowRun(pol, f0, Tokenize(names, s).events), t2.events);
    CompletesAppend(o1.messages, o2.messages);
  }

  /** `finalize` sends the same message from fields that agree but for the counters. */
  lemma FinalizeSameFields(cfg: Config, s1: Snapshot, s2: Snapshot)
    requires s1.buffer == s2.buffer && s1.core.state == s2.core.state
    requires s1.core.content == s2.core.content && s1.core.lastSent == s2.core.lastSent
    ensures Completes(AsSeq(FinalizeSpec(cfg, s1).msg)) == Completes(AsSeq(FinalizeSpec(cfg, s2).msg))
  {
    var z1, z2 := FinalizeSpec(cfg, s1), FinalizeSpec(cfg, s2);
    if z1.msg.Some? {
      assert AsSeq(z1.msg)[..0] == [];
      assert AsSeq(z2.msg)[..0] == [];
    }
  }

  /**
   * The same holds of the whole stream: after two calls with `a` and `b`
   * and `finalize`, the complete messages are those of one call with
   * `a + b` and `finalize`, and `finalize` leaves the same fields.
   */
  lemma ChunkCutKeepsFinalMessage(cfg: Config, snap: Snapshot, a: string, b: string)
    requires forall i :: 0 <= i < |cfg.tags| ==> EntryOk(cfg.tags[i])
    ensures var o1 := ParseChunkSpec(cfg, snap, a);
      var o2 := ParseChunkSpec(cfg, o1.snap, b);
      var o := ParseChunkSpec(cfg, snap, a + b);
      var z2, z := FinalizeSpec(cfg, o2.snap), FinalizeSpec(cfg, o.snap);
      && z.snap.core.state == z2.snap.core.state && z.snap.core.content == z2.snap.core.content
      && z.snap.core.lastSent == z2.snap.core.lastSent
      && Completes(o.messages + AsSeq(z.msg)) == Completes(o1.messages + o2.messages + AsSeq(z2.msg))
  {
    var o1 := ParseChunkSpec(cfg, snap, a);
    var o2 := ParseChunkSpec(cfg, o1.snap, b);
    var o := ParseChunkSpec(cfg, snap, a + b);
    ChunkCutKeepsCompleteMessages(cfg, snap, a, b);
    FinalizeSameFields(cfg, o.snap, o2.snap);
    CompletesAppend(o.messages, AsSeq(FinalizeSpec(cfg, o.snap).msg));
    CompletesAppend(o1.messages + o2.messages, AsSeq(FinalizeSpec(cfg, o2.snap).msg));
  }

  // ---------------------------------------------------------------- any number of chunks

  /** The chunks joined in order. */
  function Concat(cs: seq<string>): string {
    if cs == [] then "" else Concat(cs[..|cs| - 1]) + cs[|cs| - 1]
  }

  /** One call per chunk, in order, from `snap`, with the messages of all calls in order. */
  function RunChunks(cfg: Config, snap: Snapshot, cs: seq<string>): Outcome {
    if cs == [] then Outcome(snap, [])
    else
      var o1 := RunChunks(cfg, snap, cs[..|cs| - 1]);
      var o2 := ParseChunkSpec(cfg, o1.snap, cs[|cs| - 1]);
      Outcome(o2.snap, o1.messages + o2.messages)
  }

  /** Two outcomes agree on every field but the counters, and on the complete messages. */
  predicate SameOutcome(o: Outcome, p: Outcome) {
    && o.snap.buffer == p.snap.buffer && o.snap.core.state == p.snap.core.state
    && o.snap.core.content == p.snap.core.content && o.snap.core.lastSent == p.snap.core.lastSent
    && Completes(o.messages) == Completes(p.messages)
  }

  /** What a call does, but for step numbers and counters, does not depend on the counters. */
  lemma CountersDoNotSteer(cfg: Config, s1: Snapshot, s2: Snapshot, chunk: string)
    requires s1.buffer == s2.buffer && s1.core.state == s2.core.state
    requires s1.core.content == s2.core.content && s1.core.lastSent == s2.core.lastSent
    ensures SameOutcome(ParseChunkSpec(cfg, s1, chunk), ParseChunkSpec(cfg, s2, chunk))
  {
    ParseChunkFlow(cfg, s1, chunk);
    ParseChunkFlow(cfg, s2, chunk);
  }

  /** The cut theorem, stated as agreement of outcomes. */
  lemma ChunkCutSameOutcome(cfg: Config, snap: Snapshot, a: string, b: string)
    requires forall i :: 0 <= i < |cfg.tags| ==> EntryOk(cfg.tags[i])
    ensures var o1 := ParseChunkSpec(cfg, snap, a);
      var o2 := ParseChunkSpec(cfg, o1.snap, b);
      SameOutcome(Outcome(o2.snap, o1.messages + o2.messages), ParseChunkSpec(cfg, snap, a + b))
  {
    ChunkCutKeepsCompleteMessages(cfg, snap, a, b);
  }

  /** Appending calls that agree to runs that agree keeps them in agreement. */
  lemma SameOutcomeJoin(r: Outcome, p: Outcome, o2: Outcome, p2: Outcome, w: Outcome)
    requires Completes(r.messages) == Completes(p.messages) && SameOutcome(o2, p2)
    requires SameOutcome(Outcome(p2.snap, p.messages + p2.messages), w)
    ensures SameOutcome(Outcome(o2.snap, r.messages + o2.messages), w)
  {
    CompletesAppend(r.messages, o2.messages);
    CompletesAppend(p.messages, p2.messages);
  }

  /**
   * However the input is cut into a non-empty list of chunks, one call per
   * chunk emits the same complete messages as one call with all of them,
   * and leaves the same fields but for the counters.
   */
  lemma {:induction false} ChunksCutKeepCompleteMessages(cfg: Config, snap: Snapshot, cs: seq<string>)
    requires forall i :: 0 <= i < |cfg.tags| ==> EntryOk(cfg.tags[i])
    requires |cs| > 0
    ensures SameOutcome(RunChunks(cfg, snap, cs), ParseChunkSpec(cfg, snap, Concat(cs)))
  {
    var init, last := cs[..|cs| - 1], cs[|cs| - 1];
    if init == [] {
      OneChunk(cfg, snap, cs);
    } else {
      ChunksCutKeepCompleteMessages(cfg, snap, init);
      MoreChunks(cfg, snap, cs);
    }
  }

  lemma OneChunk(cfg: Config, snap: Snapshot, cs: seq<string>)
    requires |cs| == 1
    ensures SameOutcome(RunChunks(cfg, snap, cs), ParseChunkSpec(cfg, snap, Concat(cs)))
  {
    var o := ParseChunkSpec(cfg, snap, cs[0]);
    assert cs[..0] == [];
    assert Concat(cs) == cs[0] by {
      assert Concat(cs) == "" + cs[0];
    }
    assert RunChunks(cfg, snap, cs[..0]) == Outcome(snap, []);
    var w := RunChunks(cfg, snap, cs);
    assert w.snap == o.snap && w.messages == [] + o.messages;
    assert [] + o.messages == o.messages;
  }

  /** The step of the induction: one more chunk after those that already agree. */
  lemma MoreChunks(cfg: Config, snap: Snapshot, cs: seq<string>)
    requires forall i :: 0 <= i < |cfg.tags| ==> EntryOk(cfg.tags[i])
    requires |cs| > 1
    requires SameOutcome(RunChunks(cfg, snap, cs[..|cs| - 1]), ParseChunkSpec(cfg, snap, Concat(cs[..|cs| - 1])))
    ensures SameOutcome(RunChunks(cfg, snap, cs), ParseChunkSpec(cfg, snap, Concat(cs)))
  {
    var init, last := cs[..|cs| - 1], cs[|cs| - 1];
    var r := RunChunks(cfg, snap, init);
    var p := ParseChunkSpec(cfg, snap, Concat(init));
    var o2, p2 := ParseChunkSpec(cfg, r.snap, last), ParseChunkSpec(cfg, p.snap, last);
    CountersDoNotSteer(cfg, r.snap, p.snap, last);
    ChunkCutSameOutcome(cfg, snap, Concat(init), last);
    SameOutcomeJoin(r, p, o2, p2, ParseChunkSpec(cfg, snap, Concat(init) + last));
  }
}
