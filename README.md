# StreamParser, modelled in Dafny

`StreamParser` (`llm_stream_parser/parser.py`) turns the text chunks of a
language-model stream into labelled step messages. The parser is configured
with tag names and their step labels, for example `think` with the label
"思考". Text between `<think>` and `</think>` becomes "思考" content. Text
outside every block is an answer, labelled "回答". Each message carries:

- a per-label ordinal (`step`);
- the label;
- the content;
- whether its block was closed (`is_complete`).

A marker may be split across chunks. The parser therefore keeps everything
from the last `<` of the unconsumed text buffered. That tail stays buffered,
growing with each chunk, until a later `<` or a completed marker lets it be
consumed, or until `finalize`. Without tag streaming, partial messages are surfaced only for
answers. With it, they are also surfaced inside blocks, carrying only the
content not sent before.

The model has eight modules, in seven files:

- `Base` (in `tags.dfy`): an option type.
- `Tags` (`tags.dfy`): validation of the configuration, the state names
  `IN_<NAME>_BLOCK`, the `states` table, the tag map, and the label lookup
  from a state back to its label.
- `Matcher` (`matcher.dfy`): the regular expression `<(/?)(n1|n2|...)>`
  and `finditer` over it, written as a pure function `FindAll`. It also
  holds `rfind`. It proves that the matches are sound, left to right and
  non-overlapping, and that none is missed.
- `Machine` (`machine.dfy`): a pure description of one call.
  - A buffer is cut into events: literal text and recognised markers.
  - The events drive the one-block state machine.
  - The partial-emission policy then applies.
  - `ParseChunkSpec` and `FinalizeSpec` are the whole of `parse_chunk` and
    `finalize`.
- `ParserProperties` (`properties.dfy`) proves the invariants these
  operations keep:
  - the buffer is empty or begins with its only `<`, and holds no complete
    marker;
  - the sent content is a prefix of the content;
  - the state is idle or a configured tag's state;
  - the numbering history holds: the n-th message with a label has step n,
    and the counters count the messages emitted per label.
- `Behaviour` (`behaviour.dfy`) proves the observable behaviour:
  - nothing is lost or invented;
  - every marker is handled, even one split across chunks;
  - what closing and opening markers emit;
  - the partial policy;
  - only the last message of a call can be partial;
  - the no-tags configuration;
  - `finalize`.
- `Parser` (`parser.dfy`) is the class `StreamParser`. Its fields are
  updated in place by `ParseChunk` and `Finalize`. Each method is proved to
  leave the fields and return the messages that the pure description gives.
  Each method also keeps `Valid()`, the invariants plus a ghost record of
  every message returned so far.
- `Chunking` (`chunking.dfy`) proves that where the stream is cut into
  chunks does not change the complete messages. Two calls with `a` and then
  `b` emit the same complete messages, in label, content and order, as one
  call with `a + b`. They leave the same buffer, state, content and
  `last_sent_content`, so `finalize` then sends the same last message. The
  same holds for any non-empty list of chunks against one call with all of
  them joined. It looks at a call through a flow: the state, the content,
  the content recorded as sent, whether text was added, and the complete
  messages. It shows that the matches of `a + b` are those of the first
  call followed by those of the second, shifted by where the second call's
  buffer begins.

Two behaviours of the code deserve a note:

- **A second `finalize`.** `finalize` does not update `last_sent_content`,
  so a second call re-sends the same unsent text with the next step number
  (`Behaviour.FinalizeTwiceRepeats`).
- **Untagged text.** The idle state always allows partial messages. So for
  `"这是<普通>文本"` with no tags configured, `parse_chunk` sends the text
  before the last `<` (`这是`) as a partial answer
  (`Behaviour.NoTagsOnlyAnswers`, `Behaviour.PartialPolicy`). The
  repository's tests at `tests/test_parser.py:29-37` and `:269-278` expect
  no message from `parse_chunk` for untagged text. The test at
  `tests/test_parser.py:280-287` expects `finalize` to return content
  holding `这是<普通>文本`, but since `这是` was already sent, `finalize`
  returns only `<普通>文本` (`Behaviour.FinalizeSendsUnsent`). The model
  follows the code.

## Model

| member | source | states |
|---|---|---|
| Tags.Validate | llm_stream_parser/parser.py:40-70 | Succeeds exactly when every entry has a non-empty name matching `^[a-zA-Z][a-zA-Z0-9_-]*$` (where `$` also admits one final newline) and a non-empty label; it then returns the configuration unchanged. Otherwise it fails with the error of the first failing entry, for the first condition it fails in the order the code examines them. |
| Tags.StateNameCollision | llm_stream_parser/parser.py:81-83 | Two tag names get the same state identifier exactly when they agree after upper-casing. |
| Tags.StateNameIsNotIdle | llm_stream_parser/parser.py:79-83 | No tag's state string is `IDLE`. |
| Tags.States | llm_stream_parser/parser.py:72-85 | The `states` table holds `IDLE` and every tag's state, each mapped to itself, and nothing else. |
| Tags.StateName | llm_stream_parser/parser.py:82 | The state identifier `IN_<NAME>_BLOCK` of a tag. `Tags.StateNameCollision` proves when two names share it, and `Tags.StateNameIsNotIdle` that it is never `IDLE`. |
| Tags.TagMap | llm_stream_parser/parser.py:87-100 | The dict from each name to its state and label, built in insertion order with later entries replacing earlier ones. Its keys and values are those `Tags.TagMapSpec` and `Tags.TagMapEntry` state. |
| Tags.TagMapSpec | llm_stream_parser/parser.py:87-100 | The tag map's keys are exactly the configured names. Each name maps to its own state and to the label of the last entry with that name. |
| Tags.TagMapEntry | llm_stream_parser/parser.py:94-98 | With distinct names, every configured tag maps to its own state and its own label. |
| Tags.LookupLabel | llm_stream_parser/parser.py:173-176 | The label found for a state is the default or the label of a tag owning that state. `Tags.LookupLabelFirst` and `Tags.LookupLabelDefault` say which. |
| Tags.LookupLabelFirst | llm_stream_parser/parser.py:173-176 | The label found for a state is that of the first tag, in insertion order, owning the state. |
| Tags.LookupLabelDefault | llm_stream_parser/parser.py:302-305 | When no tag owns the state, the default label is returned. |
| Matcher.ValidNamesWellFormed | llm_stream_parser/parser.py:57-62 | Validated names are non-empty, do not start with `/`, and contain no `<` or `>`. |
| Matcher.FirstFit | llm_stream_parser/parser.py:114-116 | The alternation picks a configured name followed by `>` at the given index, and fails only when no configured name fits there. |
| Matcher.MatchAt | llm_stream_parser/parser.py:102-117 | A match found at an index is a marker occurrence starting there. When none is found, no marker starts there. |
| Matcher.MarkerFits | llm_stream_parser/parser.py:116 | A marker stands at an index exactly when `<`, the `/` of a closing marker, the name and `>` do. |
| Matcher.MatchUnique | llm_stream_parser/parser.py:116 | With validated names at most one marker starts at any index. |
| Matcher.NoLtInsideMatch | llm_stream_parser/parser.py:116 | Past its first character a marker contains no `<`. |
| Matcher.FindAll | llm_stream_parser/parser.py:201 | Every match reported starts at or after the search start and ends within the text. |
| Matcher.FindAllSound | llm_stream_parser/parser.py:201 | Every match reported is an occurrence of a configured marker. |
| Matcher.FindAllOrdered | llm_stream_parser/parser.py:201 | Matches come left to right, each ending before the next begins. |
| Matcher.FindAllComplete | llm_stream_parser/parser.py:201 | Every marker occurrence at or after the search start is reported. |
| Matcher.NoMatchesFindNothing | llm_stream_parser/parser.py:201 | Where no marker occurs, nothing is reported. |
| Matcher.FindNothingIff | llm_stream_parser/parser.py:201 | Nothing is reported exactly when no marker occurs in the text. |
| Matcher.NoNamesNoMatches | llm_stream_parser/parser.py:109-111 | With no tags the pattern never matches. |
| Matcher.RFind | llm_stream_parser/parser.py:254 | Returns the index of the last occurrence of the character, or -1 exactly when it does not occur. |
| Machine.Generate | llm_stream_parser/parser.py:119-144 | Empty content gives no message and leaves the counters alone. Otherwise the label's counter goes up by one and numbers the message, and other labels' counters are unchanged. |
| Machine.TagEvents | llm_stream_parser/parser.py:201-247 | The scan loop yields two events per match and stops within the text. |
| Machine.SplitTail | llm_stream_parser/parser.py:250-270 | Safe text followed by the kept tail is the remaining text. The tail is empty or starts with its only `<`, and it is empty only when the remaining text has no `<`. |
| Machine.Tokenize | llm_stream_parser/parser.py:201-270 | What a call keeps buffered is a suffix of the old buffer plus the chunk, empty or starting with its only `<`. `Behaviour.TokenizeRenders` proves that nothing else is lost, and `ParserProperties.TokenizeRest` that it holds no complete marker. |
| Machine.CloseTag | llm_stream_parser/parser.py:213-224 | A closing marker either changes nothing, or appends at most one message, complete and holding the whole content, and leaves the parser idle with nothing gathered or sent. `Behaviour.ClosingActiveBlock` says which. |
| Machine.OpenTag | llm_stream_parser/parser.py:225-245 | An opening marker appends one complete message holding the whole content exactly when there is content. It leaves nothing gathered or sent. `Behaviour.OpeningEntersBlock` gives the label and the state entered. |
| Machine.BlockLabel | llm_stream_parser/parser.py:169-176 | The label of the block a state belongs to: `回答` when idle, else the first tag owning the state, with a fallback. The same choice is made at lines 227-235 and 299-305. `Behaviour.DefaultLabelUnused` proves the fallback never applies on a reachable state, and `Behaviour.SharedStateTakesFirstLabel` that a state shared by several tags takes the first one's label. |
| Machine.StepEvent | llm_stream_parser/parser.py:206-245 | The body of the scan loop: the text before a marker, or the marker itself. `ParserProperties.StepKeepsHistory` and `ParserProperties.StepKeepsScanOk` give the invariants it keeps, and `Chunking.StepFlow` what it does to the state, the content and the complete messages. |
| Machine.Run | llm_stream_parser/parser.py:201-247 | The `for match in finditer` loop, as `StepEvent` over the events in order. `ParserProperties.RunKeepsHistory`, `ParserProperties.RunKeepsScanOk`, `Behaviour.RunKeepsComplete` and `Chunking.RunFlow` state what it keeps and does. |
| Machine.EmitPartial | llm_stream_parser/parser.py:146-183 | The partial policy keeps the state and the content and appends at most one message. A message appended is incomplete, and all content then counts as sent. `Behaviour.PartialPolicy` says when and what. |
| Machine.ParseChunkSpec | llm_stream_parser/parser.py:185-276 | After a call the buffer is a suffix of the old buffer plus the chunk, and is empty or starts with its only `<`. `ParserProperties.ParseChunkKeepsInvariant` and `ParseChunkKeepsHistory` give the rest. |
| Machine.FinalizeSpec | llm_stream_parser/parser.py:279-307 | The buffer joins the content and is emptied. The state and the sent part stay, and a message returned is complete and non-empty. `Behaviour.FinalizeSendsUnsent` gives its content and label. |
| ParserProperties.CountsCount | llm_stream_parser/parser.py:134-137 | After a history of messages, a label's counter is the number of messages with that label. |
| ParserProperties.HistoryMeans | llm_stream_parser/parser.py:119-144 | Under the history invariant: the n-th message with a label has step n, every message has content, and every counter is its label's message count. |
| ParserProperties.GenerateKeepsHistory | llm_stream_parser/parser.py:131-144 | The message factory keeps the history invariant. |
| ParserProperties.StepKeepsHistory | llm_stream_parser/parser.py:206-245 | Handling text or a marker keeps the history invariant. |
| ParserProperties.RunKeepsHistory | llm_stream_parser/parser.py:201-247 | The scan loop keeps the history invariant. |
| ParserProperties.EmitPartialKeepsHistory | llm_stream_parser/parser.py:146-183 | Partial emission keeps the history invariant. |
| ParserProperties.ParseChunkKeepsHistory | llm_stream_parser/parser.py:185-276 | The messages of a call extend the history consistently with the counters. |
| ParserProperties.FinalizeKeepsHistory | llm_stream_parser/parser.py:279-307 | The message of `finalize` extends the history consistently with the counters. |
| ParserProperties.StepKeepsScanOk | llm_stream_parser/parser.py:206-245 | Handling text or a marker keeps the sent content a prefix of the content, and keeps the state idle or a configured tag's state. |
| ParserProperties.RunKeepsScanOk | llm_stream_parser/parser.py:201-247 | The scan loop keeps the same two facts. |
| ParserProperties.MatchBeforeLastEnd | llm_stream_parser/parser.py:201-250 | Every marker of the text starts before the point where the scan loop stops. |
| ParserProperties.TokenizeRest | llm_stream_parser/parser.py:250-270 | The text kept buffered is empty or begins with its only `<`, and contains no complete marker. |
| ParserProperties.ParseChunkKeepsInvariant | llm_stream_parser/parser.py:185-276 | A call keeps the buffer shape, the absence of complete markers in the buffer, the sent content as a prefix of the content, and the state idle or a tag's state. |
| ParserProperties.InitialSnapshotOk | llm_stream_parser/parser.py:27-33 | The fresh parser satisfies the invariants, with an empty history. |
| ParserProperties.FinalizeKeepsInvariant | llm_stream_parser/parser.py:279-307 | `finalize` keeps the invariants. |
| Behaviour.RenderTagEvents | llm_stream_parser/parser.py:201-247 | The text before each match and the match itself, written out in order, are exactly the text up to the end of the last match handled. |
| Behaviour.TokenizeRenders | llm_stream_parser/parser.py:195-270 | What a call consumes, followed by what it keeps buffered, is exactly the old buffer plus the chunk. |
| Behaviour.EveryMarkerIsHandled | llm_stream_parser/parser.py:195-204 | Every marker in the old buffer plus the chunk is handled by the call, including one split across chunks. |
| Behaviour.BufferHoldsNoMarker | llm_stream_parser/parser.py:250-270 | Between calls the buffer holds no complete marker. |
| Behaviour.EmptyChunkChangesNothing | llm_stream_parser/parser.py:185-276 | An empty chunk changes no field and emits nothing. |
| Behaviour.PlainTextJoinsContent | llm_stream_parser/parser.py:265-270 | After an empty buffer, a chunk without `<` joins the content whole. Nothing is buffered, the state stays, and at most one message is emitted. |
| Behaviour.NoTagsOnlyAnswers | llm_stream_parser/parser.py:109-111 | With no tags the parser stays idle. Content plus buffer is all text received. Each call emits at most one message, a partial answer. |
| Behaviour.ClosingActiveBlock | llm_stream_parser/parser.py:213-224 | Closing the active block flushes all its content as one complete message under the closing tag's label. The parser then goes idle with nothing gathered or sent. |
| Behaviour.ClosingOtherBlockIgnored | llm_stream_parser/parser.py:214-215 | A closing marker for a block that is not active changes nothing. |
| Behaviour.OpeningEntersBlock | llm_stream_parser/parser.py:225-245 | An opening marker flushes the gathered content as one complete message. The label is "回答" when idle, else the label of the block being left. The tag's block is then entered with nothing gathered or sent. |
| Behaviour.SharedStateTakesFirstLabel | llm_stream_parser/parser.py:82-98 | Names differing only in case share one state, whose label is that of the first such tag. |
| Behaviour.DefaultLabelUnused | llm_stream_parser/parser.py:173-176 | For the idle state or a configured tag's state, the fallback passed to the label lookup never changes the label found. |
| Behaviour.PartialPolicy | llm_stream_parser/parser.py:146-183 | A partial message is sent when streaming is on or the parser is idle, and some content is unsent. It holds exactly the unsent remainder, is incomplete, carries the block's label and the next step, and all content then counts as sent. Otherwise nothing changes. |
| Behaviour.RunKeepsComplete | llm_stream_parser/parser.py:213-245 | Markers emit only complete messages. |
| Behaviour.OnlyTheLastMessageIsPartial | llm_stream_parser/parser.py:185-276 | In one call every message but the last is complete. A partial last message leaves all content counted as sent, and without tag streaming it is an answer given while idle. |
| Behaviour.FinalizeSendsUnsent | llm_stream_parser/parser.py:279-307 | The buffer joins the content. The unsent part goes out as one complete message under the block's label, with no message when nothing is unsent. The state and the sent part stay. |
| Behaviour.FinalizeTwiceRepeats | llm_stream_parser/parser.py:291-307 | A second `finalize` sends the same text again, with the next step of the same label. |
| Chunking.StepFlow | llm_stream_parser/parser.py:206-245 | Seen through its state, content, sent content, added flag and complete messages, handling text or a marker is one step of the flow. Text sets the flag only when non-empty; a flushing marker clears content, sent content and flag. A marker's flushed message depends only on the label and the content, not on the counters. |
| Chunking.RunFlow | llm_stream_parser/parser.py:201-247 | The scan loop, seen the same way, runs the flow over the events. |
| Chunking.EmitPartialFlow | llm_stream_parser/parser.py:146-183 | Partial emission changes neither the state, the content nor the complete messages. It records the whole content as sent exactly when the policy allows a partial and the content reaches past what was sent. |
| Chunking.ParseChunkFlow | llm_stream_parser/parser.py:185-276 | A call leaves the buffer its tokenizer keeps. Its state, content and complete messages are the flow run over the events it consumes. Its `last_sent_content` is what the partial policy records at the end of that run when text was added, and the run's own otherwise. |
| Chunking.FlowRunFrom | llm_stream_parser/parser.py:185-276 | Complete messages emitted before a call stay in front of those the call emits. |
| Chunking.SentAcrossCut | llm_stream_parser/parser.py:146-183 | Running the next events from where a call's run ended, or from where the call left the fields after its partial policy ran, gives the same state, content and complete messages, and the same `last_sent_content` once the policy runs again. |
| Chunking.NextCallFlow | llm_stream_parser/parser.py:185-276 | The same, with the complete messages of the first call kept in front. |
| Chunking.MatchesAcrossCut | llm_stream_parser/parser.py:201 | Any three ordered lists holding every match of `s`, of the tail `rest` that `s` keeps plus `more`, and of `s + more` are related: the third is the first followed by the second, shifted by where `rest` begins in `s`. |
| Chunking.FindAllAcrossCut | llm_stream_parser/parser.py:201 | The matches `finditer` reports in `s + more` are those in `s`, then those in the kept tail plus `more`, shifted to where that tail begins. |
| Chunking.EventsAcrossCut | llm_stream_parser/parser.py:201-270 | The events of `s + more`, with the literal text before its tail, run the flow as those of `s` and then those of the kept tail plus `more` do, and the same tail is kept. |
| Chunking.TokenizeAcrossCut | llm_stream_parser/parser.py:195-270 | Tokenizing `s + more` keeps the same tail and runs the flow as tokenizing `s` and then its kept tail plus `more`. |
| Chunking.ChunkCutKeepsCompleteMessages | llm_stream_parser/parser.py:185-276 | Two calls with `a` and then `b` leave the same buffer, state, content and `last_sent_content` as one call with `a + b`. Their complete messages are the same, in label, content and order. |
| Chunking.FinalizeSameFields | llm_stream_parser/parser.py:279-307 | `finalize` sends the same complete message, in label and content, from fields that agree but for the counters. |
| Chunking.ChunkCutKeepsFinalMessage | llm_stream_parser/parser.py:279-307 | After two calls with `a` and `b` and then `finalize`, the complete messages of the whole stream, the last one included, are those of one call with `a + b` and `finalize`, which leaves the same state, content and sent content. |
| Chunking.CountersDoNotSteer | llm_stream_parser/parser.py:185-276 | A call from fields that agree but for the counters leaves the same buffer, state, content and sent content, and emits the same complete messages. |
| Chunking.ChunksCutKeepCompleteMessages | llm_stream_parser/parser.py:185-276 | For any non-empty list of chunks, one call per chunk leaves the same buffer, state, content and sent content as one call with the chunks joined, and emits the same complete messages in label, content and order. |
| Parser.StreamParser.Init | llm_stream_parser/parser.py:23-38 | A validated configuration gives an idle parser with empty buffer, content and counters that satisfies the invariants. |
| Parser.StreamParser.New | llm_stream_parser/parser.py:10-38 | Construction fails exactly when validation does, with its error. Otherwise it returns a fresh idle, empty parser satisfying the invariants. |
| Parser.StreamParser.GenerateMessage | llm_stream_parser/parser.py:119-144 | Updates the counters and returns the message exactly as the message factory does. |
| Parser.StreamParser.MaybeEmitPartial | llm_stream_parser/parser.py:146-183 | Updates the fields and appends the message the partial policy gives, keeping the earlier messages. |
| Parser.StreamParser.HandleClosingTag | llm_stream_parser/parser.py:213-224 | Changes the fields and messages as a closing marker does. |
| Parser.StreamParser.HandleOpeningTag | llm_stream_parser/parser.py:225-245 | Changes the fields and messages as an opening marker does. |
| Parser.StreamParser.AddText | llm_stream_parser/parser.py:206-210 | Text before a marker joins the content. |
| Parser.StreamParser.HandleMarker | llm_stream_parser/parser.py:212-245 | Dispatches a marker to the closing or opening case. |
| Parser.StreamParser.ScanMarkers | llm_stream_parser/parser.py:196-247 | The scan loop leaves the fields and messages that running the events of the matches gives, and stops at the end of the last match. |
| Parser.StreamParser.ConsumeChunk | llm_stream_parser/parser.py:195-270 | Handles every marker and the literal text after them. It keeps the tail from the last `<` buffered, exactly as described by the events of the call. |
| Parser.StreamParser.ParseChunk | llm_stream_parser/parser.py:185-276 | Leaves the fields and returns the messages that `ParseChunkSpec` gives. It keeps the invariants and records the messages in the history. |
| Parser.StreamParser.Finalize | llm_stream_parser/parser.py:279-307 | Leaves the fields and returns the message that `FinalizeSpec` gives. It keeps the invariants and records the message in the history. |

## Left out

- `process_llm_stream` (lines 311-332): an asynchronous generator over an I/O
  stream. It only calls `parse_chunk` for each chunk and `finalize` once.
- The demonstration and assertion code after line 334.
- `step_counter` (line 30): set but never read.
- The `isinstance` checks (lines 57 and 65): names and labels are strings
  by their type here. `tags or {}` is modelled by passing the empty
  sequence.
- The keyword default `enable_tags_streaming=False` (line 10) is not
  modelled: `Init` and `New` take the flag explicitly, and a caller that
  relies on the default passes `false`.
- The definition of `StreamMessage` is not part of this model. It is
  modelled as a datatype of its four fields.
- The regular expression engine: the one pattern the parser compiles is
  modelled directly (`Matcher.MatchAt`, `Matcher.FindAll`). The escaping of
  names by `re.escape` is the identity here.
- `str.upper` is modelled on ASCII letters only. That is exact for names
  the validator admits.
- Parser.StreamParser.New: requires distinct names, because a Python dict
  cannot repeat a key.
- Parser.StreamParser.HandleClosingTag, HandleOpeningTag, AddText,
  HandleMarker, ScanMarkers and ConsumeChunk are the body of `parse_chunk`,
  split into parts. The source runs it as one method.
- Chunking.ChunkCutKeepsCompleteMessages, ChunkCutKeepsFinalMessage and
  ChunksCutKeepCompleteMessages: compare complete messages without their
  step numbers, and do not compare partial messages or the counters. Those
  do depend on where the chunks are cut.
