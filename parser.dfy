/**
 * The stream parser itself: an object whose fields are updated in place by
 * `ParseChunk` and `Finalize`. Each method is proved to do what the pure
 * description in module Machine says, and to keep `Valid()`, under which
 * the properties proved in module ParserProperties apply to every call.
 */
module Parser {
  import opened Base
  import opened Tags
  import opened Matcher
  import opened Machine
  import opened ParserProperties

  class StreamParser {
    /** The validated configuration, in insertion order. */
    const tags: seq<TagSpec>
    const enableTagsStreaming: bool
    /** The `states` table: each state string to itself. */
    const states: map<string, string> := States(tags)
    /** Each tag name to its (state, label) pair. */
    const tagMap: map<string, (State, string)> := TagMap(tags)
    /** The names the compiled marker pattern alternates over, in order. */
    const tagNames: seq<string> := Names(tags)

    /** Text received but not yet consumed: empty, or a possible marker start. */
    var buffer: string
    var currentState: State
    /** The content gathered for the current block (or outside every block). */
    var currentContent: string
    /** The part of `currentContent` already emitted as partial messages. */
    var lastSentContent: string
    /** Per label, the step of the last message emitted with it. */
    var stepCounters: map<string, nat>

    /** Every message this parser has returned, in order. */
    ghost var emitted: seq<StreamMessage>

    function Cfg(): Config {
      Config(tags, enableTagsStreaming)
    }

    function CoreOf(): Core
      reads this
    {
      Core(currentState, currentContent, lastSentContent, stepCounters)
    }

    function Snap(): Snapshot
      reads this
    {
      Snapshot(buffer, CoreOf())
    }

    /** The tables agree with the configuration, and the fields and the history are consistent. */
    ghost predicate Valid()
      reads this
    {
      && ConfigOk(tags)
      && SnapshotOk(Cfg(), Snap())
      && History(stepCounters, emitted)
    }

    /** Construction from an already validated configuration. */
    constructor Init(tags: seq<TagSpec>, enableTagsStreaming: bool)
      requires ConfigOk(tags)
      ensures Valid()
      ensures this.tags == tags && this.enableTagsStreaming == enableTagsStreaming
      ensures Snap() == Snapshot("", Core(Idle, "", "", map[]))
      ensures emitted == []
    {
      this.tags := tags;
      this.enableTagsStreaming := enableTagsStreaming;
      buffer := "";
      currentState := Idle;
      currentContent := "";
      lastSentContent := "";
      stepCounters := map[];
      emitted := [];
      InitialSnapshotOk(Config(tags, enableTagsStreaming));
    }

    /**
     * `StreamParser(tags, enable_tags_streaming)`: validation first, then a
     * fresh idle parser with empty buffer, content and counters. The
     * configuration is a dict, so its names are distinct.
     */
    static method New(tags: seq<TagSpec>, enableTagsStreaming: bool) returns (r: Result<StreamParser>)
      requires DistinctNames(tags)
      ensures r.Err? <==> Validate(tags).Err?
      ensures r.Err? ==> r.error == Validate(tags).error
      ensures r.Ok? ==> fresh(r.value) && r.value.Valid()
      ensures r.Ok? ==> r.value.tags == tags && r.value.enableTagsStreaming == enableTagsStreaming
      ensures r.Ok? ==> r.value.Snap() == Snapshot("", Core(Idle, "", "", map[])) && r.value.emitted == []
    {
      var v := Validate(tags);
      if v.Err? {
        r := Err(v.error);
      } else {
        var p := new StreamParser.Init(v.value, enableTagsStreaming);
        r := Ok(p);
      }
    }

    /** The message factory: no message for empty content, else the label's next step. */
    method GenerateMessage(stepName: string, content: string, isComplete: bool) returns (m: Option<StreamMessage>)
      modifies this`stepCounters
      ensures Generated(stepCounters, m) == Generate(old(stepCounters), stepName, content, isComplete)
    {
      if content == "" {
        m := None;
      } else {
        var n := (if stepName in stepCounters then stepCounters[stepName] else 0) + 1;
        stepCounters := stepCounters[stepName := n];
        m := Some(StreamMessage(n, stepName, content, isComplete));
      }
    }

    /**
     * Emits the unsent part of the content as an incomplete message, when
     * the policy allows it, and appends it to `messages`.
     */
    method MaybeEmitPartial(messages: seq<StreamMessage>) returns (out: seq<StreamMessage>)
      modifies this`stepCounters, this`lastSentContent
      ensures var sc := EmitPartial(Cfg(), Scan(old(CoreOf()), messages, true));
        CoreOf() == sc.core && out == sc.messages
      ensures |messages| <= |out| && out[..|messages|] == messages
    {
      out := messages;
      if !enableTagsStreaming && currentState != Idle {
        return;
      }
      if currentContent == lastSentContent {
        return;
      }
      var newContent := if |lastSentContent| <= |currentContent| then currentContent[|lastSentContent|..] else "";
      if newContent == "" {
        return;
      }
      var stepName := if currentState == Idle then AnswerLabel else LookupLabel(tags, currentState, UnknownLabel);
      var m := GenerateMessage(stepName, newContent, false);
      if m.Some? {
        out := out + [m.value];
        lastSentContent := currentContent;
      }
    }

    /**
     * A closing marker (part of the scan loop of `parse_chunk`): when its
     * state is the active one, the whole content goes out as a complete
     * message under the closing tag's label and the parser becomes idle with
     * nothing gathered or sent; any other closing marker changes nothing.
     */
    method HandleClosingTag(name: string, messages: seq<StreamMessage>, added: bool)
      returns (out: seq<StreamMessage>, stillAdded: bool)
      modifies this`currentState, this`currentContent, this`lastSentContent, this`stepCounters
      ensures Scan(CoreOf(), out, stillAdded) == CloseTag(Cfg(), Scan(old(CoreOf()), messages, added), name)
      ensures |messages| <= |out| && out[..|messages|] == messages
    {
      out, stillAdded := messages, added;
      if name in tagMap && currentState == tagMap[name].0 {
        var msg := GenerateMessage(tagMap[name].1, currentContent, true);
        if msg.Some? {
          out := out + [msg.value];
        }
        currentState := Idle;
        currentContent := "";
        lastSentContent := "";
        stillAdded := false;
      }
    }

    /**
     * An opening marker (part of the scan loop of `parse_chunk`): the
     * content gathered so far goes out whole as a complete message under the
     * label of the block it belongs to, then the tag's state is entered with
     * nothing gathered or sent.
     */
    method HandleOpeningTag(name: string, messages: seq<StreamMessage>, added: bool)
      returns (out: seq<StreamMessage>, stillAdded: bool)
      modifies this`currentState, this`currentContent, this`lastSentContent, this`stepCounters
      ensures Scan(CoreOf(), out, stillAdded) == OpenTag(Cfg(), Scan(old(CoreOf()), messages, added), name)
      ensures |messages| <= |out| && out[..|messages|] == messages
    {
      out := messages;
      if currentContent != "" {
        var stepNameForOldContent := if currentState == Idle then AnswerLabel else LookupLabel(tags, currentState, AnswerLabel);
        var msg := GenerateMessage(stepNameForOldContent, currentContent, true);
        if msg.Some? {
          out := out + [msg.value];
        }
      }
      currentState := if name in tagMap then tagMap[name].0 else Idle;
      currentContent := "";
      lastSentContent := "";
      stillAdded := false;
    }

    /** Text before a marker (part of the scan loop of `parse_chunk`) joins the content. */
    method AddText(t: string, messages: seq<StreamMessage>, added: bool) returns (stillAdded: bool)
      modifies this`currentContent
      ensures Scan(CoreOf(), messages, stillAdded) == StepEvent(Cfg(), Scan(old(CoreOf()), messages, added), Text(t))
    {
      stillAdded := added;
      if t != "" {
        currentContent := currentContent + t;
        stillAdded := true;
      }
    }

    /** A marker (part of the scan loop of `parse_chunk`): closing or opening. */
    method HandleMarker(m: TagMatch, messages: seq<StreamMessage>, added: bool)
      returns (out: seq<StreamMessage>, stillAdded: bool)
      modifies this`currentState, this`currentContent, this`lastSentContent, this`stepCounters
      ensures Scan(CoreOf(), out, stillAdded) == StepEvent(Cfg(), Scan(old(CoreOf()), messages, added), Marker(m))
    {
      if m.closing {
        out, stillAdded := HandleClosingTag(m.name, messages, added);
      } else {
        out, stillAdded := HandleOpeningTag(m.name, messages, added);
      }
    }

    /**
     * The scan loop of `parse_chunk`: for every marker the matcher finds in
     * `text`, left to right, the text before it joins the content, then the
     * marker is handled. Returns the messages produced, where the scan
     * stopped, and whether content was added since the last flush.
     */
    method ScanMarkers(text: string, ms: seq<TagMatch>) returns (messages: seq<StreamMessage>, lastPos: nat, contentAdded: bool)
      requires InOrder(ms, |text|)
      modifies this`currentState, this`currentContent, this`lastSentContent, this`stepCounters
      ensures lastPos == LastEnd(ms, |ms|)
      ensures Scan(CoreOf(), messages, contentAdded) == Run(Cfg(), Scan(old(CoreOf()), [], false), TagEvents(text, ms, |ms|))
    {
      ghost var sc0 := Scan(CoreOf(), [], false);
      messages := [];
      lastPos := 0;
      contentAdded := false;
      for k := 0 to |ms|
        invariant lastPos == LastEnd(ms, k)
        invariant Scan(CoreOf(), messages, contentAdded) == Run(Cfg(), sc0, TagEvents(text, ms, k))
      {
        var m := ms[k];
        NextMatchInside(ms, |text|, k);
        ghost var sc := Scan(CoreOf(), messages, contentAdded);
        var textBeforeTag := text[lastPos..m.start];
        contentAdded := AddText(textBeforeTag, messages, contentAdded);
        ghost var scText := Scan(CoreOf(), messages, contentAdded);
        messages, contentAdded := HandleMarker(m, messages, contentAdded);
        ScanStep(Cfg(), sc0, text, ms, k, sc, scText);
        lastPos := End(m);
      }
    }

    /**
     * `parse_chunk(chunk)`: appends the chunk to the buffer, handles every
     * complete marker in order, keeps a possible marker start buffered, and
     * returns the messages produced, in order.
     */
    method ParseChunk(chunk: string) returns (messages: seq<StreamMessage>)
      requires Valid()
      modifies this
      ensures Valid()
      ensures Snap() == ParseChunkSpec(Cfg(), old(Snap()), chunk).snap
      ensures messages == ParseChunkSpec(Cfg(), old(Snap()), chunk).messages
      ensures emitted == old(emitted) + messages
    {
      ghost var snap0 := Snap();
      var contentAdded;
      messages, contentAdded := ConsumeChunk(chunk);
      if contentAdded {
        messages := MaybeEmitPartial(messages);
      }
      emitted := emitted + messages;
      assert Valid() by {
        ParseChunkKeepsInvariant(Cfg(), snap0, chunk);
        ParseChunkKeepsHistory(Cfg(), snap0, chunk, old(emitted));
      }
    }

    /**
     * The body of `parse_chunk` up to the partial emission: every complete
     * marker of the buffer plus the chunk is handled, the literal text after
     * the last one joins the content except from its last `<` on, which
     * stays buffered.
     */
    method ConsumeChunk(chunk: string) returns (messages: seq<StreamMessage>, contentAdded: bool)
      modifies this`buffer, this`currentState, this`currentContent, this`lastSentContent, this`stepCounters
      ensures buffer == Tokenize(tagNames, old(buffer) + chunk).rest
      ensures Scan(CoreOf(), messages, contentAdded)
              == Run(Cfg(), Scan(old(CoreOf()), [], false), Tokenize(tagNames, old(buffer) + chunk).events)
    {
      ghost var sc0 := Scan(CoreOf(), [], false);
      var text := buffer + chunk;
      buffer := text;
      var ms := FindAll(tagNames, text, 0);
      FindAllOrdered(tagNames, text, 0);
      var lastPos;
      messages, lastPos, contentAdded := ScanMarkers(text, ms);
      var remainingText := text[lastPos..];
      var potentialTagStart := RFind(remainingText, '<');
      var safeContent := remainingText;
      var rest := "";
      if potentialTagStart >= 0 {
        safeContent := remainingText[..potentialTagStart];
        rest := remainingText[potentialTagStart..];
      }
      if safeContent != "" {
        currentContent := currentContent + safeContent;
        contentAdded := true;
      }
      buffer := rest;
      assert SplitTail(remainingText) == Tail(safeContent, rest);
      TokenizeAfterScan(tagNames, text, ms, safeContent, rest);
      RunOneMore(Cfg(), sc0, TagEvents(text, ms, |ms|), Text(safeContent));
    }

    /**
     * `finalize()`: the buffer joins the content, and the part of the
     * content not yet sent is returned as one complete message. The state
     * and the sent content are left as they are.
     */
    method Finalize() returns (m: Option<StreamMessage>)
      requires Valid()
      modifies this
      ensures Valid()
      ensures Snap() == FinalizeSpec(Cfg(), old(Snap())).snap
      ensures m == FinalizeSpec(Cfg(), old(Snap())).msg
      ensures emitted == old(emitted) + AsSeq(m)
    {
      FinalizeKeepsInvariant(Cfg(), Snap());
      FinalizeKeepsHistory(Cfg(), Snap(), emitted);
      if buffer != "" {
        currentContent := currentContent + buffer;
        buffer := "";
      }
      var finalContent := if |lastSentContent| <= |currentContent| then currentContent[|lastSentContent|..] else "";
      m := None;
      if finalContent != "" {
        var stepName := if currentState == Idle then AnswerLabel else LookupLabel(tags, currentState, UnknownLabel);
        m := GenerateMessage(stepName, finalContent, true);
      }
      emitted := emitted + AsSeq(m);
    }
  }
}
