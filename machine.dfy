/**
 * A pure description of what one `StreamParser` call does, used as the
 * specification of the imperative class in module Parser. A chunk is first
 * cut into events (literal text and recognised markers) by the matcher;
 * the events then drive the single-block state machine; finally the
 * partial-emission policy may surface the unsent part of the content.
 */
module Machine {
  import opened Base
  import opened Tags
  import opened Matcher

  /** The label of content outside every block ("answer"). */
  const AnswerLabel: string := "\U{56DE}\U{7B54}"

  /** The fallback label of a state no tag owns ("unknown"); unused under the invariants (`Behaviour.DefaultLabelUnused`). */
  const UnknownLabel: string := "\U{672A}\U{77E5}"

  /** One output record: its per-label ordinal, label, content and whether the block was closed. */
  datatype StreamMessage = StreamMessage(step: nat, stepName: string, content: string, isComplete: bool)

  /** What the parser is constructed with. */
  datatype Config = Config(tags: seq<TagSpec>, enableTagsStreaming: bool)

  /** The fields of the parser a marker or a piece of text changes. */
  datatype Core = Core(state: State, content: string, lastSent: string, counters: map<string, nat>)

  /** All the mutable fields of the parser. */
  datatype Snapshot = Snapshot(buffer: string, core: Core)

  // ---------------------------------------------------------------- message factory

  /** The counter of a label; a label not yet used counts 0. */
  function Counter(counters: map<string, nat>, stepName: string): nat {
    if stepName in counters then counters[stepName] else 0
  }

  datatype Generated = Generated(counters: map<string, nat>, msg: Option<StreamMessage>)

  /**
   * The message factory: no message and no counting for empty content;
   * otherwise the label's counter goes up by one and numbers the message.
   */
  function Generate(counters: map<string, nat>, stepName: string, content: string, complete: bool): (g: Generated)
    ensures g.msg.None? <==> content == ""
    ensures g.msg.None? ==> g.counters == counters
    ensures g.msg.Some? ==> g.msg.value == StreamMessage(Counter(g.counters, stepName), stepName, content, complete)
    ensures Counter(g.counters, stepName) == Counter(counters, stepName) + |AsSeq(g.msg)|
    ensures forall l :: l != stepName ==> Counter(g.counters, l) == Counter(counters, l)
  {
    if content == "" then Generated(counters, None)
    else
      var n := Counter(counters, stepName) + 1;
      Generated(counters[stepName := n], Some(StreamMessage(n, stepName, content, complete)))
  }

  /** How many messages of `h` carry the label. */
  function CountLabel(h: seq<StreamMessage>, stepName: string): nat {
    if h == [] then 0
    else CountLabel(h[..|h| - 1], stepName) + (if h[|h| - 1].stepName == stepName then 1 else 0)
  }

  /** The counters after the factory has produced the messages of `h`, starting from none. */
  function Counts(h: seq<StreamMessage>): map<string, nat> {
    if h == [] then map[]
    else
      var c, m := Counts(h[..|h| - 1]), h[|h| - 1];
      c[m.stepName := Counter(c, m.stepName) + 1]
  }

  /**
   * Each message of `h` carries content and is numbered one past the
   * messages before it with the same label.
   */
  ghost predicate Numbered(h: seq<StreamMessage>) {
    h == [] ||
    (Numbered(h[..|h| - 1]) && h[|h| - 1].content != ""
     && h[|h| - 1].step == Counter(Counts(h[..|h| - 1]), h[|h| - 1].stepName) + 1)
  }

  /** `h` is everything emitted so far, and `counters` are the counters it leaves. */
  ghost predicate History(counters: map<string, nat>, h: seq<StreamMessage>) {
    Numbered(h) && counters == Counts(h)
  }

  // ---------------------------------------------------------------- events

  /** What the matcher cuts the buffer into: literal text, or a recognised marker. */
  datatype Event = Text(text: string) | Marker(m: TagMatch)

  function EventText(e: Event): string {
    match e
    case Text(t) => t
    case Marker(m) => MarkerText(m.closing, m.name)
  }

  /** The text a sequence of events was cut from. */
  function Render(evs: seq<Event>): string {
    if evs == [] then "" else Render(evs[..|evs| - 1]) + EventText(evs[|evs| - 1])
  }

  /** Where the scan resumes after the first `k` matches. */
  function LastEnd(ms: seq<TagMatch>, k: nat): nat
    requires k <= |ms|
  {
    if k == 0 then 0 else End(ms[k - 1])
  }

  /** Matches in order, all inside a text of length `n`. */
  ghost predicate InOrder(ms: seq<TagMatch>, n: nat) {
    Chained(ms) && forall k :: 0 <= k < |ms| ==> End(ms[k]) <= n
  }

  /** For each of the first `k` matches in turn: the text since the previous one, then the marker. */
  function TagEvents(buf: string, ms: seq<TagMatch>, k: nat): (evs: seq<Event>)
    requires InOrder(ms, |buf|) && k <= |ms|
    ensures |evs| == 2 * k
    ensures LastEnd(ms, k) <= |buf|
  {
    if k == 0 then []
    else TagEvents(buf, ms, k - 1) + [Text(buf[LastEnd(ms, k - 1)..ms[k - 1].start]), Marker(ms[k - 1])]
  }

  datatype Tail = Tail(safe: string, rest: string)

  /**
   * What follows the last match: the part before its last `<` is literal;
   * from that `<` on it may be the start of a marker and stays buffered.
   */
  function SplitTail(remaining: string): (t: Tail)
    ensures t.safe + t.rest == remaining
    ensures t.rest == "" || (t.rest[0] == '<' && forall i :: 0 < i < |t.rest| ==> t.rest[i] != '<')
    ensures t.rest == "" ==> forall i :: 0 <= i < |remaining| ==> remaining[i] != '<'
  {
    var p := RFind(remaining, '<');
    if p >= 0 then Tail(remaining[..p], remaining[p..]) else Tail(remaining, "")
  }

  datatype Tokens = Tokens(events: seq<Event>, rest: string)

  /** The events a call consumes from its buffer, and what it keeps buffered. */
  function Tokenize(names: seq<string>, buf: string): (r: Tokens)
    ensures |r.rest| <= |buf| && r.rest == buf[|buf| - |r.rest|..]
    ensures BufferShape(r.rest)
  {
    var ms := FindAll(names, buf, 0);
    FindAllOrdered(names, buf, 0);
    var t := SplitTail(buf[LastEnd(ms, |ms|)..]);
    assert buf[LastEnd(ms, |ms|)..][|t.safe|..] == buf[|buf| - |t.rest|..];
    Tokens(TagEvents(buf, ms, |ms|) + [Text(t.safe)], t.rest)
  }

  // ---------------------------------------------------------------- the state machine

  /** The state of one call while it works through the events. */
  datatype Scan = Scan(core: Core, messages: seq<StreamMessage>, added: bool)

  /** `after` is `before` with at most one message appended. */
  predicate Extends(before: seq<StreamMessage>, after: seq<StreamMessage>) {
    |before| <= |after| <= |before| + 1 && after[..|before|] == before
  }

  /**
   * The label of the block a state belongs to: the answer label when idle,
   * else the label found for the state (or `dflt`).
   */
  function BlockLabel(tags: seq<TagSpec>, st: State, dflt: string): string {
    if st == Idle then AnswerLabel else LookupLabel(tags, st, dflt)
  }

  /**
   * A closing marker: when its state is the active one the whole content is
   * flushed under the closing tag's own label and the parser goes idle;
   * any other closing marker is absorbed.
   */
  function CloseTag(cfg: Config, sc: Scan, name: string): (r: Scan)
    ensures r == sc || (r.core.state == Idle && r.core.content == "" && r.core.lastSent == "" && !r.added)
    ensures Extends(sc.messages, r.messages)
    ensures |r.messages| > |sc.messages| ==>
      r.messages[|sc.messages|].content == sc.core.content && r.messages[|sc.messages|].isComplete
  {
    var tm := TagMap(cfg.tags);
    if name in tm && tm[name].0 == sc.core.state then
      var g := Generate(sc.core.counters, tm[name].1, sc.core.content, true);
      Scan(Core(Idle, "", "", g.counters), sc.messages + AsSeq(g.msg), false)
    else sc
  }

  /**
   * An opening marker: the content gathered so far is flushed whole, then
   * the tag's state is entered with nothing gathered.
   */
  function OpenTag(cfg: Config, sc: Scan, name: string): (r: Scan)
    ensures r.core.content == "" && r.core.lastSent == "" && !r.added
    ensures Extends(sc.messages, r.messages)
    ensures |r.messages| == |sc.messages| <==> sc.core.content == ""
    ensures |r.messages| > |sc.messages| ==>
      r.messages[|sc.messages|].content == sc.core.content && r.messages[|sc.messages|].isComplete
  {
    var c := sc.core;
    var g := if c.content != "" then Generate(c.counters, BlockLabel(cfg.tags, c.state, AnswerLabel), c.content, true)
             else Generated(c.counters, None);
    var tm := TagMap(cfg.tags);
    var next := if name in tm then tm[name].0 else Idle;
    Scan(Core(next, "", "", g.counters), sc.messages + AsSeq(g.msg), false)
  }

  function StepEvent(cfg: Config, sc: Scan, e: Event): Scan {
    match e
    case Text(t) =>
      if t == "" then sc else sc.(core := sc.core.(content := sc.core.content + t), added := true)
    case Marker(m) =>
      if m.closing then CloseTag(cfg, sc, m.name) else OpenTag(cfg, sc, m.name)
  }

  function Run(cfg: Config, sc: Scan, evs: seq<Event>): Scan {
    if evs == [] then sc else StepEvent(cfg, Run(cfg, sc, evs[..|evs| - 1]), evs[|evs| - 1])
  }

  /** Python's `s[k:]` for `k >= 0`. */
  function PySliceFrom(s: string, k: nat): string {
    if k <= |s| then s[k..] else ""
  }

  /**
   * The partial-emission policy: inside a block only when streaming is on,
   * always when idle; it emits the content not yet sent, marked incomplete,
   * and records the content as sent.
   */
  function EmitPartial(cfg: Config, sc: Scan): (r: Scan)
    ensures r.core.state == sc.core.state && r.core.content == sc.core.content && r.added == sc.added
    ensures Extends(sc.messages, r.messages)
    ensures |r.messages| > |sc.messages| ==>
      !r.messages[|sc.messages|].isComplete && r.core.lastSent == r.core.content
  {
    var c := sc.core;
    if !cfg.enableTagsStreaming && c.state != Idle then sc
    else if c.content == c.lastSent then sc
    else
      var delta := PySliceFrom(c.content, |c.lastSent|);
      if delta == "" then sc
      else
        var g := Generate(c.counters, BlockLabel(cfg.tags, c.state, UnknownLabel), delta, false);
        if g.msg.Some? then Scan(c.(counters := g.counters, lastSent := c.content), sc.messages + [g.msg.value], sc.added)
        else sc
  }

  /** The new fields and the returned messages of one call. */
  datatype Outcome = Outcome(snap: Snapshot, messages: seq<StreamMessage>)

  /** `parse_chunk(chunk)` from the fields `snap`. */
  function ParseChunkSpec(cfg: Config, snap: Snapshot, chunk: string): (r: Outcome)
    ensures var b := snap.buffer + chunk; |r.snap.buffer| <= |b| && r.snap.buffer == b[|b| - |r.snap.buffer|..]
    ensures BufferShape(r.snap.buffer)
  {
    var t := Tokenize(Names(cfg.tags), snap.buffer + chunk);
    var sc := Run(cfg, Scan(snap.core, [], false), t.events);
    var sc' := if sc.added then EmitPartial(cfg, sc) else sc;
    Outcome(Snapshot(t.rest, sc'.core), sc'.messages)
  }

  datatype Finalized = Finalized(snap: Snapshot, msg: Option<StreamMessage>)

  /**
   * `finalize()`: the buffer becomes content; what was not sent yet goes
   * out as one complete message. The state and the sent content stay.
   */
  function FinalizeSpec(cfg: Config, snap: Snapshot): (r: Finalized)
    ensures r.snap.buffer == "" && r.snap.core.content == snap.core.content + snap.buffer
    ensures r.snap.core.state == snap.core.state && r.snap.core.lastSent == snap.core.lastSent
    ensures r.msg.Some? ==> r.msg.value.isComplete && r.msg.value.content != ""
  {
    var c := snap.core;
    var content := if snap.buffer != "" then c.content + snap.buffer else c.content;
    var delta := PySliceFrom(content, |c.lastSent|);
    if delta == "" then Finalized(Snapshot("", c.(content := content)), None)
    else
      var g := Generate(c.counters, BlockLabel(cfg.tags, c.state, UnknownLabel), delta, true);
      Finalized(Snapshot("", c.(content := content, counters := g.counters)), g.msg)
  }

  // ---------------------------------------------------------------- invariants

  /** The buffer is empty or holds one candidate marker tail: a `<` and no other. */
  predicate BufferShape(b: string) {
    b == "" || (b[0] == '<' && forall i :: 0 < i < |b| ==> b[i] != '<')
  }

  /** The matcher finds no marker in `b`. */
  predicate NoMarkerIn(names: seq<string>, b: string) {
    FindAll(names, b, 0) == []
  }

  /** The state is idle or the state of a configured tag. */
  ghost predicate StateOk(tags: seq<TagSpec>, st: State) {
    st == Idle || exists i :: 0 <= i < |tags| && st == TagState(tags[i].0)
  }

  /** What holds of the fields between calls. */
  ghost predicate SnapshotOk(cfg: Config, snap: Snapshot) {
    && BufferShape(snap.buffer)
    && NoMarkerIn(Names(cfg.tags), snap.buffer)
    && snap.core.lastSent <= snap.core.content
    && StateOk(cfg.tags, snap.core.state)
  }
}
