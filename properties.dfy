/**
 * What the parser promises, proved about the pure description in module
 * Machine: the buffer and content invariants each call keeps, per-label
 * step numbering, the behaviour of closing and opening markers, the
 * partial-emission policy and `finalize`.
 */
module ParserProperties {
  import opened Base
  import opened Tags
  import opened Matcher
  import opened Machine

  // ---------------------------------------------------------------- numbering

  /** The counters count, for every label, the messages that carry it. */
  lemma {:induction false} CountsCount(h: seq<StreamMessage>, l: string)
    ensures Counter(Counts(h), l) == CountLabel(h, l)
  {
    if h != [] {
      CountsCount(h[..|h| - 1], l);
    }
  }

  /**
   * What a history means: the n-th message with a given label has step n,
   * whatever the other labels did; no message is empty; and each counter is
   * the number of messages with its label.
   */
  lemma {:induction false} HistoryMeans(counters: map<string, nat>, h: seq<StreamMessage>)
    requires History(counters, h)
    ensures forall i :: 0 <= i < |h| ==> h[i].step == CountLabel(h[..i + 1], h[i].stepName)
    ensures forall i :: 0 <= i < |h| ==> h[i].content != ""
    ensures forall l :: Counter(counters, l) == CountLabel(h, l)
  {
    forall l ensures Counter(counters, l) == CountLabel(h, l) {
      CountsCount(h, l);
    }
    if h != [] {
      var p := h[..|h| - 1];
      HistoryMeans(Counts(p), p);
      forall i | 0 <= i < |h| ensures h[i].step == CountLabel(h[..i + 1], h[i].stepName) && h[i].content != "" {
        if i < |p| {
          assert h[..i + 1] == p[..i + 1];
        } else {
          assert h[..i + 1] == h;
          assert h[..i + 1][..i] == p;
          CountsCount(p, h[i].stepName);
        }
      }
    }
  }

  /**
   * The factory keeps the history numbered: the message it makes has, as
   * its step, its rank among the messages with its label.
   */
  lemma GenerateKeepsHistory(counters: map<string, nat>, h: seq<StreamMessage>, stepName: string, content: string, complete: bool)
    requires History(counters, h)
    ensures var g := Generate(counters, stepName, content, complete);
      History(g.counters, h + AsSeq(g.msg))
  {
    var g := Generate(counters, stepName, content, complete);
    if g.msg.Some? {
      assert (h + [g.msg.value])[..|h|] == h;
    } else {
      assert h + AsSeq(g.msg) == h;
    }
  }

  /** Extending the messages of a call extends the history by the same messages. */
  lemma ExtendHistory(h: seq<StreamMessage>, ms: seq<StreamMessage>, out: seq<StreamMessage>)
    requires |ms| <= |out| && out[..|ms|] == ms
    ensures (h + ms) + out[|ms|..] == h + out
  {
    assert out == ms + out[|ms|..];
  }

  lemma StepKeepsHistory(cfg: Config, sc: Scan, e: Event, h: seq<StreamMessage>)
    requires History(sc.core.counters, h + sc.messages)
    ensures var r := StepEvent(cfg, sc, e); History(r.core.counters, h + r.messages)
  {
    var c := sc.core;
    match e
    case Text(_) =>
    case Marker(m) =>
      var tm := TagMap(cfg.tags);
      if m.closing {
        if m.name in tm && tm[m.name].0 == c.state {
          var g := Generate(c.counters, tm[m.name].1, c.content, true);
          GenerateKeepsHistory(c.counters, h + sc.messages, tm[m.name].1, c.content, true);
          assert h + (sc.messages + AsSeq(g.msg)) == (h + sc.messages) + AsSeq(g.msg);
        }
      } else if c.content != "" {
        var lbl := BlockLabel(cfg.tags, c.state, AnswerLabel);
        var g := Generate(c.counters, lbl, c.content, true);
        GenerateKeepsHistory(c.counters, h + sc.messages, lbl, c.content, true);
        assert h + (sc.messages + AsSeq(g.msg)) == (h + sc.messages) + AsSeq(g.msg);
      } else {
        assert h + (sc.messages + []) == h + sc.messages;
      }
  }

  lemma {:induction false} RunKeepsHistory(cfg: Config, sc: Scan, evs: seq<Event>, h: seq<StreamMessage>)
    requires History(sc.core.counters, h + sc.messages)
    ensures var r := Run(cfg, sc, evs); History(r.core.counters, h + r.messages)
  {
    if evs != [] {
      RunKeepsHistory(cfg, sc, evs[..|evs| - 1], h);
      StepKeepsHistory(cfg, Run(cfg, sc, evs[..|evs| - 1]), evs[|evs| - 1], h);
    }
  }

  lemma EmitPartialKeepsHistory(cfg: Config, sc: Scan, h: seq<StreamMessage>)
    requires History(sc.core.counters, h + sc.messages)
    ensures var r := EmitPartial(cfg, sc); History(r.core.counters, h + r.messages)
  {
    var c := sc.core;
    var delta := PySliceFrom(c.content, |c.lastSent|);
    var lbl := BlockLabel(cfg.tags, c.state, UnknownLabel);
    var g := Generate(c.counters, lbl, delta, false);
    GenerateKeepsHistory(c.counters, h + sc.messages, lbl, delta, false);
    assert h + (sc.messages + AsSeq(g.msg)) == (h + sc.messages) + AsSeq(g.msg);
  }

  /**
   * Over a whole call, every message returned is numbered per label in the
   * order of emission, carries content, and the counters count them.
   */
  lemma ParseChunkKeepsHistory(cfg: Config, snap: Snapshot, chunk: string, h: seq<StreamMessage>)
    requires History(snap.core.counters, h)
    ensures var o := ParseChunkSpec(cfg, snap, chunk); History(o.snap.core.counters, h + o.messages)
  {
    var t := Tokenize(Names(cfg.tags), snap.buffer + chunk);
    var sc0 := Scan(snap.core, [], false);
    assert h + sc0.messages == h;
    RunKeepsHistory(cfg, sc0, t.events, h);
    var sc := Run(cfg, sc0, t.events);
    if sc.added {
      EmitPartialKeepsHistory(cfg, sc, h);
    }
  }

  lemma FinalizeKeepsHistory(cfg: Config, snap: Snapshot, h: seq<StreamMessage>)
    requires History(snap.core.counters, h)
    ensures var f := FinalizeSpec(cfg, snap); History(f.snap.core.counters, h + AsSeq(f.msg))
  {
    var c := snap.core;
    var content := if snap.buffer != "" then c.content + snap.buffer else c.content;
    var delta := PySliceFrom(content, |c.lastSent|);
    GenerateKeepsHistory(c.counters, h, BlockLabel(cfg.tags, c.state, UnknownLabel), delta, true);
    assert h + [] == h;
  }

  // ---------------------------------------------------------------- state and content

  /** Between events: the sent content is a prefix of the content, and the state is a configured one. */
  ghost predicate ScanOk(cfg: Config, sc: Scan) {
    sc.core.lastSent <= sc.core.content && StateOk(cfg.tags, sc.core.state)
  }

  lemma PrefixOfExtension(a: string, b: string, t: string)
    requires a <= b
    ensures a <= b + t
  {
    assert (b + t)[..|a|] == b[..|a|];
  }

  lemma StepKeepsScanOk(cfg: Config, sc: Scan, e: Event)
    requires ScanOk(cfg, sc)
    ensures ScanOk(cfg, StepEvent(cfg, sc, e))
  {
    match e
    case Text(t) =>
      PrefixOfExtension(sc.core.lastSent, sc.core.content, t);
    case Marker(m) =>
      var tm := TagMap(cfg.tags);
      TagMapSpec(cfg.tags);
      if !m.closing && m.name in tm {
        var i :| 0 <= i < |cfg.tags| && cfg.tags[i].0 == m.name && tm[m.name] == (TagState(m.name), cfg.tags[i].1)
                 && forall j :: i < j < |cfg.tags| ==> cfg.tags[j].0 != m.name;
        assert StepEvent(cfg, sc, e).core.state == TagState(cfg.tags[i].0);
      }
  }

  lemma {:induction false} RunKeepsScanOk(cfg: Config, sc: Scan, evs: seq<Event>)
    requires ScanOk(cfg, sc)
    ensures ScanOk(cfg, Run(cfg, sc, evs))
  {
    if evs != [] {
      RunKeepsScanOk(cfg, sc, evs[..|evs| - 1]);
      StepKeepsScanOk(cfg, Run(cfg, sc, evs[..|evs| - 1]), evs[|evs| - 1]);
    }
  }

  /** Two more events run as two more steps. */
  lemma RunTwoMore(cfg: Config, sc: Scan, evs: seq<Event>, a: Event, b: Event)
    ensures Run(cfg, sc, evs + [a, b]) == StepEvent(cfg, StepEvent(cfg, Run(cfg, sc, evs), a), b)
  {
    assert (evs + [a, b])[..|evs| + 1] == evs + [a];
    assert (evs + [a])[..|evs|] == evs;
  }

  /** One more event runs as one more step. */
  lemma RunOneMore(cfg: Config, sc: Scan, evs: seq<Event>, a: Event)
    ensures Run(cfg, sc, evs + [a]) == StepEvent(cfg, Run(cfg, sc, evs), a)
  {
    assert (evs + [a])[..|evs|] == evs;
  }

  /** Every match of a chained list ends no later than the last one. */
  lemma EndsWithinLastEnd(ms: seq<TagMatch>)
    requires Chained(ms)
    ensures forall k :: 0 <= k < |ms| ==> End(ms[k]) <= LastEnd(ms, |ms|)
  {
  }

  /** A marker found in a suffix of `s` is a marker of `s`, shifted by where the suffix starts. */
  lemma ShiftMatch(names: seq<string>, s: string, base: nat, m: TagMatch)
    requires base <= |s|
    requires IsMatch(names, s[base..], m)
    ensures IsMatch(names, s, m.(start := base + m.start))
  {
    var m' := m.(start := base + m.start);
    assert End(m') == base + End(m);
    SliceOfSuffix(s, base, m.start, End(m));
  }

  lemma SliceOfSuffix(s: string, base: nat, i: nat, j: nat)
    requires i <= j && base + j <= |s|
    ensures s[base..][i..j] == s[base + i..base + j]
  {
    forall k | 0 <= k < j - i ensures s[base..][i..j][k] == s[base + i..base + j][k] {
    }
  }

  /** The events of a call: those of the scan loop, then the literal text after the last match. */
  lemma TokenizeAfterScan(names: seq<string>, text: string, ms: seq<TagMatch>, safe: string, rest: string)
    requires ms == FindAll(names, text, 0) && InOrder(ms, |text|) && LastEnd(ms, |ms|) <= |text|
    requires SplitTail(text[LastEnd(ms, |ms|)..]) == Tail(safe, rest)
    ensures Tokenize(names, text) == Tokens(TagEvents(text, ms, |ms|) + [Text(safe)], rest)
  {
  }

  /** The next match lies between where the scan stands and the end of the text. */
  lemma NextMatchInside(ms: seq<TagMatch>, n: nat, k: nat)
    requires InOrder(ms, n) && k < |ms|
    ensures LastEnd(ms, k) <= ms[k].start && End(ms[k]) <= n
  {
    if k > 0 {
      assert End(ms[k - 1]) <= ms[k].start;
    }
  }

  /** One round of the scan loop: the text before the next match, then its marker. */
  lemma ScanStep(cfg: Config, sc0: Scan, text: string, ms: seq<TagMatch>, k: nat, sc: Scan, scText: Scan)
    requires InOrder(ms, |text|) && k < |ms|
    requires sc == Run(cfg, sc0, TagEvents(text, ms, k))
    requires scText == StepEvent(cfg, sc, Text(text[LastEnd(ms, k)..ms[k].start]))
    ensures StepEvent(cfg, scText, Marker(ms[k])) == Run(cfg, sc0, TagEvents(text, ms, k + 1))
  {
    RunTwoMore(cfg, sc0, TagEvents(text, ms, k), Text(text[LastEnd(ms, k)..ms[k].start]), Marker(ms[k]));
  }

  /** Every marker of the text starts before the point where the scan stopped. */
  lemma MatchBeforeLastEnd(names: seq<string>, s: string, m: TagMatch)
    requires WellFormedNames(names)
    requires IsMatch(names, s, m)
    ensures m.start < LastEnd(FindAll(names, s, 0), |FindAll(names, s, 0)|)
  {
    var ms := FindAll(names, s, 0);
    FindAllOrdered(names, s, 0);
    FindAllComplete(names, s, 0, m);
    var k :| 0 <= k < |ms| && ms[k] == m;
    EndsWithinLastEnd(ms);
  }

  /**
   * When every marker of `buf` starts before `from`, a suffix of what
   * follows `from` that has no `<` past its first character holds no marker.
   */
  lemma TailHasNoMarker(names: seq<string>, buf: string, from: nat, safe: string, rest: string)
    requires from <= |buf| && safe + rest == buf[from..]
    requires forall i :: 0 < i < |rest| ==> rest[i] != '<'
    requires forall m :: IsMatch(names, buf, m) ==> m.start < from
    ensures forall m :: !IsMatch(names, rest, m)
  {
    var base := from + |safe|;
    assert buf[base..] == rest by {
      assert buf[from..][|safe|..] == rest;
    }
    forall m ensures !IsMatch(names, rest, m) {
      if IsMatch(names, rest, m) {
        MarkerFits(rest, m);
        assert m.start == 0;
        ShiftMatch(names, buf, base, m);
      }
    }
  }

  /**
   * What a call keeps buffered is empty or one `<` with no other after it,
   * and it holds no complete marker: every marker in the text was found.
   */
  lemma TokenizeRest(names: seq<string>, buf: string)
    requires WellFormedNames(names)
    ensures BufferShape(Tokenize(names, buf).rest)
    ensures NoMarkerIn(names, Tokenize(names, buf).rest)
  {
    var ms := FindAll(names, buf, 0);
    var from := LastEnd(ms, |ms|);
    assert from <= |buf|;
    var t := SplitTail(buf[from..]);
    assert Tokenize(names, buf).rest == t.rest;
    forall m | IsMatch(names, buf, m) ensures m.start < from {
      MatchBeforeLastEnd(names, buf, m);
    }
    TailHasNoMarker(names, buf, from, t.safe, t.rest);
    NoMatchesFindNothing(names, t.rest, 0);
  }

  /**
   * Each call keeps the invariants of the fields: the buffer is empty or
   * starts with its only `<` and holds no complete marker, the sent content
   * is a prefix of the content, and the state is idle or a tag's state.
   */
  lemma ParseChunkKeepsInvariant(cfg: Config, snap: Snapshot, chunk: string)
    requires ConfigOk(cfg.tags)
    requires SnapshotOk(cfg, snap)
    ensures SnapshotOk(cfg, ParseChunkSpec(cfg, snap, chunk).snap)
  {
    var names := Names(cfg.tags);
    ValidNamesWellFormed(cfg.tags);
    TokenizeRest(names, snap.buffer + chunk);
    var t := Tokenize(names, snap.buffer + chunk);
    RunKeepsScanOk(cfg, Scan(snap.core, [], false), t.events);
  }

  /** A new parser is idle with nothing buffered, gathered, sent or emitted. */
  lemma InitialSnapshotOk(cfg: Config)
    ensures SnapshotOk(cfg, Snapshot("", Core(Idle, "", "", map[])))
    ensures History(map[], [])
  {
  }

  lemma FinalizeKeepsInvariant(cfg: Config, snap: Snapshot)
    requires SnapshotOk(cfg, snap)
    ensures SnapshotOk(cfg, FinalizeSpec(cfg, snap).snap)
  {
    PrefixOfExtension(snap.core.lastSent, snap.core.content, snap.buffer);
  }
}
