/**
 * The observable behaviour of the parser, proved about the pure description
 * in module Machine: what one call consumes and keeps buffered, that every
 * marker is handled even when split across chunks, what closing and opening
 * markers emit, the partial-emission policy, and `finalize`.
 */
module Behaviour {
  import opened Base
  import opened Tags
  import opened Matcher
  import opened Machine
  import opened ParserProperties

  // ---------------------------------------------------------------- consumption

  lemma RenderOneMore(evs: seq<Event>, a: Event)
    ensures Render(evs + [a]) == Render(evs) + EventText(a)
  {
    assert (evs + [a])[..|evs|] == evs;
  }

  lemma RenderTwoMore(evs: seq<Event>, a: Event, b: Event)
    ensures Render(evs + [a, b]) == Render(evs) + EventText(a) + EventText(b)
  {
    assert (evs + [a, b])[..|evs| + 1] == evs + [a];
    RenderOneMore(evs, a);
  }

  /** One more match: the text before it and its marker extend what was written out up to its end. */
  lemma RenderStep(buf: string, before: seq<Event>, p: nat, m: TagMatch)
    requires p <= m.start && End(m) <= |buf|
    requires Render(before) == buf[..p]
    requires buf[m.start..End(m)] == MarkerText(m.closing, m.name)
    ensures Render(before + [Text(buf[p..m.start]), Marker(m)]) == buf[..End(m)]
  {
    var e := End(m);
    var x, y := buf[p..m.start], buf[m.start..e];
    RenderTwoMore(before, Text(x), Marker(m));
    assert EventText(Marker(m)) == y;
    JoinSlices(buf, p, m.start, e);
  }

  /** Sequence step with no counterpart in the parser; kept apart only to keep the caller's proof cost down. */
  lemma JoinSlices(s: string, p: nat, q: nat, r: nat)
    requires p <= q <= r <= |s|
    ensures s[..p] + s[p..q] + s[q..r] == s[..r]
  {
  }

  /** The events of the first `k` matches, written out, are the text up to the end of the k-th. */
  lemma {:induction false} RenderTagEvents(names: seq<string>, buf: string, ms: seq<TagMatch>, k: nat)
    requires InOrder(ms, |buf|) && k <= |ms|
    requires forall j :: 0 <= j < |ms| ==> IsMatch(names, buf, ms[j])
    ensures Render(TagEvents(buf, ms, k)) == buf[..LastEnd(ms, k)]
  {
    if k > 0 {
      RenderTagEvents(names, buf, ms, k - 1);
      RenderNextMatch(names, buf, ms, k);
    } else {
      assert buf[..0] == "";
    }
  }

  lemma RenderNextMatch(names: seq<string>, buf: string, ms: seq<TagMatch>, k: nat)
    requires InOrder(ms, |buf|) && 0 < k <= |ms|
    requires IsMatch(names, buf, ms[k - 1])
    requires Render(TagEvents(buf, ms, k - 1)) == buf[..LastEnd(ms, k - 1)]
    ensures Render(TagEvents(buf, ms, k)) == buf[..LastEnd(ms, k)]
  {
    var m, p := ms[k - 1], LastEnd(ms, k - 1);
    assert p <= m.start by {
      if k > 1 {
        assert End(ms[k - 2]) <= ms[k - 1].start;
      }
    }
    var before := TagEvents(buf, ms, k - 1);
    RenderStep(buf, before, p, m);
    assert TagEvents(buf, ms, k) == before + [Text(buf[p..m.start]), Marker(m)];
    assert LastEnd(ms, k) == End(m);
  }

  /**
   * Nothing is lost or invented: the events a call consumes, written out,
   * followed by what it keeps buffered, are exactly the old buffer plus the
   * chunk.
   */
  lemma TokenizeRenders(names: seq<string>, buf: string)
    ensures Render(Tokenize(names, buf).events) + Tokenize(names, buf).rest == buf
  {
    var ms := FindAll(names, buf, 0);
    FindAllOrdered(names, buf, 0);
    FindAllSound(names, buf, 0);
    var from := LastEnd(ms, |ms|);
    var evs := TagEvents(buf, ms, |ms|);
    var t := SplitTail(buf[from..]);
    RenderTagEvents(names, buf, ms, |ms|);
    RenderTail(buf, evs, from, t.safe, t.rest);
    assert Tokenize(names, buf) == Tokens(evs + [Text(t.safe)], t.rest);
  }

  lemma RenderTail(buf: string, evs: seq<Event>, from: nat, safe: string, rest: string)
    requires from <= |buf| && Render(evs) == buf[..from] && safe + rest == buf[from..]
    ensures Render(evs + [Text(safe)]) + rest == buf
  {
    RenderOneMore(evs, Text(safe));
    PrefixThenTail(buf, from, safe, rest);
  }

  /** Sequence step with no counterpart in the parser; kept apart only to keep the caller's proof cost down. */
  lemma PrefixThenTail(buf: string, from: nat, safe: string, rest: string)
    requires from <= |buf| && safe + rest == buf[from..]
    ensures buf[..from] + safe + rest == buf
  {
    assert buf[..from] + safe + rest == buf[..from] + (safe + rest);
    assert buf == buf[..from] + buf[from..];
  }

  lemma {:induction false} TagEventsMarker(buf: string, ms: seq<TagMatch>, k: nat, j: nat)
    requires InOrder(ms, |buf|) && j < k <= |ms|
    ensures 2 * j + 1 < |TagEvents(buf, ms, k)| && TagEvents(buf, ms, k)[2 * j + 1] == Marker(ms[j])
  {
    if j < k - 1 {
      TagEventsMarker(buf, ms, k - 1, j);
    }
  }

  /**
   * Every marker that occurs in the buffer plus the chunk is handled by the
   * call, including one whose start arrived in an earlier chunk.
   */
  lemma EveryMarkerIsHandled(cfg: Config, snap: Snapshot, chunk: string, m: TagMatch)
    requires forall i :: 0 <= i < |cfg.tags| ==> EntryOk(cfg.tags[i])
    requires IsMatch(Names(cfg.tags), snap.buffer + chunk, m)
    ensures Marker(m) in Tokenize(Names(cfg.tags), snap.buffer + chunk).events
  {
    var names, buf := Names(cfg.tags), snap.buffer + chunk;
    var ms := FindAll(names, buf, 0);
    ValidNamesWellFormed(cfg.tags);
    FindAllOrdered(names, buf, 0);
    FindAllComplete(names, buf, 0, m);
    var j :| 0 <= j < |ms| && ms[j] == m;
    TagEventsMarker(buf, ms, |ms|, j);
    assert Tokenize(names, buf).events[2 * j + 1] == Marker(m);
  }

  /** Between calls the buffer holds no complete marker. */
  lemma BufferHoldsNoMarker(cfg: Config, snap: Snapshot)
    requires ConfigOk(cfg.tags) && SnapshotOk(cfg, snap)
    ensures forall m :: !IsMatch(Names(cfg.tags), snap.buffer, m)
  {
    ValidNamesWellFormed(cfg.tags);
    FindNothingIff(Names(cfg.tags), snap.buffer);
  }

  /** When the matcher finds nothing, a call only splits off the tail from the last `<`. */
  lemma TokensWithoutMatches(names: seq<string>, buf: string)
    requires FindAll(names, buf, 0) == []
    ensures Tokenize(names, buf) == Tokens([Text(SplitTail(buf).safe)], SplitTail(buf).rest)
  {
    assert buf[0..] == buf;
  }

  /** A call whose whole input is one piece of literal text and a buffered tail. */
  lemma OneTextCall(cfg: Config, snap: Snapshot, chunk: string, safe: string, rest: string)
    requires Tokenize(Names(cfg.tags), snap.buffer + chunk) == Tokens([Text(safe)], rest)
    ensures var sc := StepEvent(cfg, Scan(snap.core, [], false), Text(safe));
      ParseChunkSpec(cfg, snap, chunk)
        == Outcome(Snapshot(rest, if sc.added then EmitPartial(cfg, sc).core else sc.core),
                   if sc.added then EmitPartial(cfg, sc).messages else sc.messages)
  {
    RunSingle(cfg, Scan(snap.core, [], false), Text(safe));
  }

  lemma RunSingle(cfg: Config, sc: Scan, e: Event)
    ensures Run(cfg, sc, [e]) == StepEvent(cfg, sc, e)
  {
    assert [e][..0] == [];
  }

  /** Feeding an empty chunk changes nothing and emits nothing. */
  lemma EmptyChunkChangesNothing(cfg: Config, snap: Snapshot)
    requires SnapshotOk(cfg, snap)
    ensures ParseChunkSpec(cfg, snap, "") == Outcome(snap, [])
  {
    var buf := snap.buffer + "";
    assert buf == snap.buffer;
    if buf != "" {
      assert RFind(buf, '<') == 0;
    }
    assert SplitTail(buf) == Tail("", buf);
    TokensWithoutMatches(Names(cfg.tags), buf);
    OneTextCall(cfg, snap, "", "", buf);
  }

  /** Text with no `<`, after an empty buffer, joins the content: nothing is buffered and the state stays. */
  lemma PlainTextJoinsContent(cfg: Config, snap: Snapshot, chunk: string)
    requires snap.buffer == ""
    requires forall i :: 0 <= i < |chunk| ==> chunk[i] != '<'
    ensures var o := ParseChunkSpec(cfg, snap, chunk);
      o.snap.buffer == "" && o.snap.core.state == snap.core.state
      && o.snap.core.content == snap.core.content + chunk && |o.messages| <= 1
  {
    var names, buf := Names(cfg.tags), snap.buffer + chunk;
    assert buf == chunk;
    forall m: TagMatch ensures !IsMatch(names, buf, m) {
      if IsMatch(names, buf, m) {
        MarkerFits(buf, m);
      }
    }
    NoMatchesFindNothing(names, buf, 0);
    assert SplitTail(buf) == Tail(buf, "");
    TokensWithoutMatches(names, buf);
    OneTextCall(cfg, snap, chunk, buf, "");
    var sc := StepEvent(cfg, Scan(snap.core, [], false), Text(buf));
    assert snap.core.content + "" == snap.core.content;
    if sc.added {
      EmitPartialShape(cfg, sc);
    }
  }

  /**
   * With no tags configured every `<` is text: the parser stays idle, all
   * text received is content or, from the last `<` on, buffered, and the only
   * messages are partial answers.
   */
  lemma NoTagsOnlyAnswers(enableTagsStreaming: bool, snap: Snapshot, chunk: string)
    requires snap.core.state == Idle && snap.core.lastSent <= snap.core.content
    ensures var o := ParseChunkSpec(Config([], enableTagsStreaming), snap, chunk);
      o.snap.core.state == Idle
      && o.snap.core.content + o.snap.buffer == snap.core.content + snap.buffer + chunk
      && |o.messages| <= 1
      && forall k :: 0 <= k < |o.messages| ==> o.messages[k].stepName == AnswerLabel && !o.messages[k].isComplete
  {
    var cfg := Config([], enableTagsStreaming);
    var buf := snap.buffer + chunk;
    assert Names([]) == [];
    var t := SplitTail(buf);
    NoNamesNoMatches(buf, 0);
    TokensWithoutMatches([], buf);
    OneTextCall(cfg, snap, chunk, t.safe, t.rest);
    IdleTextStep(cfg, snap.core, t.safe);
    Regroup(snap.core.content, snap.buffer, chunk, t.safe, t.rest);
  }

  /** Without tags, literal text keeps the parser idle and emits at most one partial answer. */
  lemma IdleTextStep(cfg: Config, core: Core, safe: string)
    requires cfg.tags == [] && core.state == Idle && core.lastSent <= core.content
    ensures var sc := StepEvent(cfg, Scan(core, [], false), Text(safe));
      var r := if sc.added then EmitPartial(cfg, sc) else sc;
      && r.core.state == Idle && r.core.content == core.content + safe && |r.messages| <= 1
      && forall k :: 0 <= k < |r.messages| ==> r.messages[k].stepName == AnswerLabel && !r.messages[k].isComplete
  {
    var sc := StepEvent(cfg, Scan(core, [], false), Text(safe));
    assert core.content + "" == core.content;
    assert sc.core.state == Idle && sc.core.content == core.content + safe && sc.messages == [];
    PrefixOfExtension(core.lastSent, core.content, safe);
    if sc.added {
      PartialPolicy(cfg, sc);
      EmitPartialShape(cfg, sc);
    }
  }

  /** Sequence step with no counterpart in the parser; kept apart only to keep the caller's proof cost down. */
  lemma Regroup(c: string, a: string, b: string, x: string, y: string)
    requires x + y == a + b
    ensures c + a + b == c + x + y
  {
    assert c + a + b == c + (a + b);
    assert c + x + y == c + (x + y);
  }

  // ---------------------------------------------------------------- markers

  /**
   * A closing marker whose tag's state is the active one flushes the whole
   * block, including text already sent as partials, as one complete message
   * under the closing tag's own label, and the parser goes idle with nothing
   * gathered or sent.
   */
  lemma ClosingActiveBlock(cfg: Config, sc: Scan, i: nat)
    requires DistinctNames(cfg.tags) && i < |cfg.tags|
    requires sc.core.state == TagState(cfg.tags[i].0)
    ensures var r := CloseTag(cfg, sc, cfg.tags[i].0); var c := sc.core; var l := cfg.tags[i].1;
      r.core.state == Idle && r.core.content == "" && r.core.lastSent == "" && !r.added
      && r.messages == sc.messages + (if c.content == "" then [] else [StreamMessage(Counter(c.counters, l) + 1, l, c.content, true)])
  {
    TagMapEntry(cfg.tags, i);
  }

  /** A closing marker for a block that is not the active one is consumed and changes nothing. */
  lemma ClosingOtherBlockIgnored(cfg: Config, sc: Scan, name: string)
    requires sc.core.state != TagState(name)
    ensures CloseTag(cfg, sc, name) == sc
  {
    TagMapSpec(cfg.tags);
  }

  /**
   * An opening marker flushes the gathered content as one complete message,
   * under the answer label when idle or else under the label of the block
   * being left (blocks do not nest), then enters the tag's block with nothing
   * gathered or sent.
   */
  lemma OpeningEntersBlock(cfg: Config, sc: Scan, i: nat)
    requires DistinctNames(cfg.tags) && i < |cfg.tags|
    ensures var r := OpenTag(cfg, sc, cfg.tags[i].0); var c := sc.core;
      var l := BlockLabel(cfg.tags, c.state, AnswerLabel);
      r.core.state == TagState(cfg.tags[i].0) && r.core.content == "" && r.core.lastSent == "" && !r.added
      && r.messages == sc.messages + (if c.content == "" then [] else [StreamMessage(Counter(c.counters, l) + 1, l, c.content, true)])
  {
    TagMapEntry(cfg.tags, i);
  }

  /**
   * Tag names that differ only in case share one state, and the label found
   * for that state is the one of the first such tag in configuration order.
   */
  lemma SharedStateTakesFirstLabel(tags: seq<TagSpec>, i: nat, j: nat, dflt: string)
    requires i < j < |tags|
    requires Upper(tags[i].0) == Upper(tags[j].0)
    requires forall k :: 0 <= k < i ==> Upper(tags[k].0) != Upper(tags[i].0)
    ensures TagState(tags[j].0) == TagState(tags[i].0)
    ensures LookupLabel(tags, TagState(tags[j].0), dflt) == tags[i].1
  {
    StateNameCollision(tags[i].0, tags[j].0);
    forall k | 0 <= k < i ensures TagState(tags[k].0) != TagState(tags[i].0) {
      StateNameCollision(tags[k].0, tags[i].0);
    }
    LookupLabelFirst(tags, TagState(tags[i].0), dflt, i);
  }

  /**
   * The fallback label is never used for a state the invariants admit: the
   * idle state has the answer label, and every other one is owned by a tag.
   */
  lemma DefaultLabelUnused(tags: seq<TagSpec>, st: State, d1: string, d2: string)
    requires StateOk(tags, st)
    ensures BlockLabel(tags, st, d1) == BlockLabel(tags, st, d2)
  {
    if st != Idle {
      var i :| 0 <= i < |tags| && st == TagState(tags[i].0);
      OwnedLabelIgnoresDefault(tags, st, d1, d2, i);
    }
  }

  lemma {:induction false} OwnedLabelIgnoresDefault(tags: seq<TagSpec>, st: State, d1: string, d2: string, i: nat)
    requires i < |tags| && st == TagState(tags[i].0)
    ensures LookupLabel(tags, st, d1) == LookupLabel(tags, st, d2)
  {
    if TagState(tags[0].0) != st {
      assert tags[1..][i - 1] == tags[i];
      OwnedLabelIgnoresDefault(tags[1..], st, d1, d2, i - 1);
    }
  }

  // ---------------------------------------------------------------- partial messages

  /**
   * The partial-emission policy: when streaming is on or the parser is idle,
   * and some content has not been sent, exactly that unsent remainder goes
   * out as one incomplete message under the block's label, and all content
   * then counts as sent; otherwise nothing happens.
   */
  lemma PartialPolicy(cfg: Config, sc: Scan)
    requires sc.core.lastSent <= sc.core.content
    ensures var r := EmitPartial(cfg, sc); var c := sc.core;
      var l := BlockLabel(cfg.tags, c.state, UnknownLabel);
      if (cfg.enableTagsStreaming || c.state == Idle) && |c.lastSent| < |c.content| then
        |r.messages| == |sc.messages| + 1 && r.messages[..|sc.messages|] == sc.messages
        && var msg := r.messages[|sc.messages|];
        c.lastSent + msg.content == c.content
        && msg == StreamMessage(Counter(c.counters, l) + 1, l, msg.content, false)
        && r.core == c.(lastSent := c.content, counters := c.counters[l := Counter(c.counters, l) + 1])
        && r.added == sc.added
      else r == sc
  {
    var c := sc.core;
    if |c.lastSent| < |c.content| {
      assert c.content == c.lastSent + c.content[|c.lastSent|..];
    }
  }

  /** The policy keeps the state and content and adds at most one message at the end. */
  lemma EmitPartialShape(cfg: Config, sc: Scan)
    ensures var r := EmitPartial(cfg, sc);
      r.core.state == sc.core.state && r.core.content == sc.core.content
      && |sc.messages| <= |r.messages| <= |sc.messages| + 1 && r.messages[..|sc.messages|] == sc.messages
  {
  }

  /** Every message of `ms` closes its block. */
  predicate AllComplete(ms: seq<StreamMessage>) {
    forall k :: 0 <= k < |ms| ==> ms[k].isComplete
  }

  /** Markers only ever emit complete messages. */
  lemma StepKeepsComplete(cfg: Config, sc: Scan, e: Event)
    requires AllComplete(sc.messages)
    ensures AllComplete(StepEvent(cfg, sc, e).messages)
  {
    if e.Marker? {
      var c := sc.core;
      var tm := TagMap(cfg.tags);
      if !e.m.closing {
        if c.content != "" {
          FlushKeepsComplete(sc.messages, c.counters, BlockLabel(cfg.tags, c.state, AnswerLabel), c.content);
        } else {
          assert sc.messages + [] == sc.messages;
        }
      } else if e.m.name in tm && tm[e.m.name].0 == c.state {
        FlushKeepsComplete(sc.messages, c.counters, tm[e.m.name].1, c.content);
      }
    }
  }

  lemma FlushKeepsComplete(ms: seq<StreamMessage>, counters: map<string, nat>, lbl: string, content: string)
    requires AllComplete(ms)
    ensures AllComplete(ms + AsSeq(Generate(counters, lbl, content, true).msg))
  {
  }

  lemma {:induction false} RunKeepsComplete(cfg: Config, sc: Scan, evs: seq<Event>)
    requires AllComplete(sc.messages)
    ensures AllComplete(Run(cfg, sc, evs).messages)
  {
    if evs != [] {
      RunKeepsComplete(cfg, sc, evs[..|evs| - 1]);
      StepKeepsComplete(cfg, Run(cfg, sc, evs[..|evs| - 1]), evs[|evs| - 1]);
    }
  }

  /**
   * In the messages of one call every message is complete except possibly
   * the last; a partial last message leaves all content counted as sent,
   * and without tag streaming it is an answer given outside every block.
   */
  lemma OnlyTheLastMessageIsPartial(cfg: Config, snap: Snapshot, chunk: string)
    requires SnapshotOk(cfg, snap)
    ensures var o := ParseChunkSpec(cfg, snap, chunk); var n := |o.messages|;
      (forall k :: 0 <= k < n - 1 ==> o.messages[k].isComplete)
      && (n > 0 && !o.messages[n - 1].isComplete ==>
            o.snap.core.lastSent == o.snap.core.content
            && (!cfg.enableTagsStreaming ==> o.snap.core.state == Idle && o.messages[n - 1].stepName == AnswerLabel))
  {
    var t := Tokenize(Names(cfg.tags), snap.buffer + chunk);
    var sc0 := Scan(snap.core, [], false);
    RunKeepsComplete(cfg, sc0, t.events);
    RunKeepsScanOk(cfg, sc0, t.events);
    var sc := Run(cfg, sc0, t.events);
    if sc.added {
      PartialPolicy(cfg, sc);
    }
  }

  // ---------------------------------------------------------------- finalize

  /**
   * `finalize` moves the buffer into the content and returns the part of
   * the content not sent yet as one complete message under the block's label
   * (nothing when everything was sent); the state and the sent part stay.
   */
  lemma FinalizeSendsUnsent(cfg: Config, snap: Snapshot)
    requires snap.core.lastSent <= snap.core.content
    ensures var f := FinalizeSpec(cfg, snap); var c := snap.core;
      var all := c.content + snap.buffer; var l := BlockLabel(cfg.tags, c.state, UnknownLabel);
      f.snap.buffer == "" && f.snap.core.content == all
      && f.snap.core.state == c.state && f.snap.core.lastSent == c.lastSent
      && (f.msg.None? <==> |c.lastSent| == |all|)
      && (f.msg.Some? ==> c.lastSent + f.msg.value.content == all
                          && f.msg.value == StreamMessage(Counter(c.counters, l) + 1, l, f.msg.value.content, true))
  {
    var c := snap.core;
    var all := c.content + snap.buffer;
    PrefixOfExtension(c.lastSent, c.content, snap.buffer);
    assert all == c.lastSent + all[|c.lastSent|..];
  }

  /**
   * `finalize` does not record what it sent: called again, it sends the same
   * text once more, as the next step of the same label.
   */
  lemma FinalizeTwiceRepeats(cfg: Config, snap: Snapshot)
    requires snap.core.lastSent <= snap.core.content
    ensures var f1 := FinalizeSpec(cfg, snap); var f2 := FinalizeSpec(cfg, f1.snap);
      (f2.msg.Some? <==> f1.msg.Some?)
      && (f1.msg.Some? ==> f2.msg.value == f1.msg.value.(step := f1.msg.value.step + 1))
      && f2.snap.core.content == f1.snap.core.content && f2.snap.buffer == ""
  {
    FinalizeSendsUnsent(cfg, snap);
    var f1 := FinalizeSpec(cfg, snap);
    PrefixOfExtension(snap.core.lastSent, snap.core.content, snap.buffer);
    FinalizeSendsUnsent(cfg, f1.snap);
  }
}
