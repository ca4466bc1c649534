# fire-mermaid: the streaming diagram route, modelled in Dafny

fire-mermaid turns free text into a Mermaid diagram. It has one server route,
`POST /api/generate-mermaid`. The route checks the request and picks the
endpoint, key and model. It then streams the model's reply from an
OpenAI-style upstream, pulls the fenced diagram out of the reply as it
arrives, and relays it to the client as a server-sent event stream. The
events are `chunk` events carrying pieces of the diagram, then one `final`
event carrying the whole diagram, or one `error` event. This project models
that core and proves what it promises.

- **Fence extractor** (`Fence`). `processIncoming` is a three-state machine
  (search, collect, done) over a pending buffer.
  - `Advance`/`Feed` specify one call.
  - The class `FenceExtractor` holds `pending` and `mode` and updates them in
    place.
  - Proved: the opener is the first fence; no increment contains a fence;
    the mode only moves forward; done absorbs everything.
  - Chunk independence: feeding `a` then `b` equals feeding `a + b`, as long
    as no fence is split across the cut. A counterexample shows the
    condition is needed.
- **Frame decoder** (`FrameDecoder`). The `data: ` record handling of the
  read loop: trimming, skipping blank and `[DONE]` payloads, the parse carry
  (`dataBuffer`), and dropping the carry past 10240 characters. `JSON.parse`
  plus the `choices[0].delta.content` lookup is the parameter `parse`.
- **Session** (`Session`). The variables of one streaming response
  (`pending`, `mode`, `dataBuffer`, `rawAll`, `finalCollected`, the events
  sent) live in the class `StreamSession`. Its methods are proved against the
  value-level `LineStep`/`ChunkStep`. `Respond` produces the whole
  transcript.
- **Syntax advisory** (`Advisory`). `validateMermaidSyntax` is a method
  proved equal to the specification `Advise`. The lemmas say exactly which
  warnings it reports.
- **Configuration** (`Config`). Credential precedence, request refusals and
  the upstream URL rule. The environment variables are the parameter `env`.
- **Text helpers** (`TextUtils`). `cleanText`, `countCharacters`,
  `isWithinCharLimit` and `truncateText` from `lib/utils.js`.
- `Strings` models the JavaScript string built-ins the code relies on:
  `indexOf`, `includes`, `startsWith`, `trim`, `split('\n')` and the `\s`
  character class. `Wrappers` holds `Option` and `Result`.
- `Reassembly` covers how the read loop handles a record cut between two
  network chunks (see Findings).

## Model

| member | source | states |
|---|---|---|
| Fence.FenceExtractor.Process | app/api/generate-mermaid/route.js:121-161 | the new mode, buffer and returned increments are those of `Feed` on the old mode and buffer plus the text; the mode never moves back |
| Fence.FenceExtractor.constructor | app/api/generate-mermaid/route.js:115-116 | the extractor starts in search mode with an empty buffer |
| Fence.OpenerIsFirstFence | app/api/generate-mermaid/route.js:126-133 | the opener chosen between the first "```mermaid" and the first "```" is always the first "```" |
| Fence.SearchWaits | app/api/generate-mermaid/route.js:134-140 | with no fence, or no newline after the first fence, search mode keeps the whole buffer and releases nothing |
| Fence.SearchOpens | app/api/generate-mermaid/route.js:137-143 | once the fence line is complete, everything up to and including its newline is dropped and collecting starts on the rest |
| Fence.CollectFlushes | app/api/generate-mermaid/route.js:145-151 | in collect mode without a closing fence, the whole buffer is released as one increment (none if empty) and the buffer is emptied |
| Fence.CollectCloses | app/api/generate-mermaid/route.js:145-155 | at the first closing fence, the text before it is released, the text after it is kept, and the mode becomes done |
| Fence.ClosedPrefixFenceFree | app/api/generate-mermaid/route.js:153 | the increment released at the closing fence contains no fence |
| Fence.DoneAbsorbs | app/api/generate-mermaid/route.js:156-158 | in done mode input is only buffered, never released |
| Fence.ModeMonotone | app/api/generate-mermaid/route.js:124-159 | one call never moves the mode back (search, then collect, then done) |
| Fence.NothingBeforeOpener | app/api/generate-mermaid/route.js:134-143 | search mode releases something only if the buffer holds a fence followed by a newline |
| Fence.IncrementsFenceFree | app/api/generate-mermaid/route.js:144-155 | no released increment contains a fence |
| Fence.FeedSplit | app/api/generate-mermaid/route.js:121-161 | chunk independence: feeding two texts in turn gives the mode, buffer and concatenated increments of feeding them at once, when no fence straddles the cut |
| Fence.CollectSplit | app/api/generate-mermaid/route.js:144-155 | chunk independence of collect mode, closing fence found in either piece or in neither |
| Fence.StraddledCloserIsMissed | app/api/generate-mermaid/route.js:145-150 | without the no-straddle condition chunk independence fails: a closing fence cut after one backtick is released as diagram text and collecting goes on past it, where the reply in one piece stops at that fence |
| Fence.FencedDelivery | app/api/generate-mermaid/route.js:125-155 | a whole backtick-free block between an opening fence line, whose tag (such as `mermaid`) holds no backtick or line break, and a closing fence is released as one increment and the mode becomes done |
| Fence.NoBacktickWaits | app/api/generate-mermaid/route.js:134-135 | text without a backtick is kept whole in search mode and nothing is released |
| FrameDecoder.CarryPolicy | app/api/generate-mermaid/route.js:171-214 | case by case: a non-record keeps the carry; an empty or `[DONE]` payload clears it; a successful parse clears it and yields the content; a failed parse keeps carry plus payload, or nothing past 10240 characters |
| FrameDecoder.CarryBounded | app/api/generate-mermaid/route.js:204-213 | after any `data: ` record the carry is at most 10240 characters; any other line leaves it unchanged |
| FrameDecoder.DecodeLinesInvariant | app/api/generate-mermaid/route.js:170-215 | over any run of records the carry stays within 10240 characters and every delivered content is non-empty |
| FrameDecoder.SplitPayloadRecovered | app/api/generate-mermaid/route.js:188-213 | a payload split over two records, whose first half, at most 10240 characters and read from an empty carry, does not parse and whose halves together do, delivers its content at the second record and leaves no carry |
| FrameDecoder.OversizedHalfLost | app/api/generate-mermaid/route.js:204-213 | a first half longer than 10240 characters that does not parse is dropped, so the second half is parsed alone and the content of the two halves together is never delivered |
| FrameDecoder.UnparsableIsDropped | app/api/generate-mermaid/route.js:204-213 | if nothing ever parses, nothing is delivered and the carry never exceeds 10240 characters, however many records arrive |
| FrameDecoder.ShortLineIgnored | app/api/generate-mermaid/route.js:171-178 | a line shorter than `data: ` is skipped and the carry kept |
| FrameDecoder.RecordParsed | app/api/generate-mermaid/route.js:178-213 | a record `data: x` with a trimmed, non-empty, non-sentinel payload sends carry plus `x` to the parser and follows its outcome |
| FrameDecoder.PayloadNeverEmpty | app/api/generate-mermaid/route.js:178-185 | the payload of a `data: ` record is never empty, so of the two clearing tests at route.js:182 only `[DONE]` can hold |
| Session.FinalCode | app/api/generate-mermaid/route.js:267 | the final code is the trimmed collected text if that is not blank, else the trimmed raw text; it is empty exactly when both are blank; it has no whitespace at either end |
| Session.StreamSession.constructor | app/api/generate-mermaid/route.js:113-119 | a fresh session is the start state: search mode, empty buffers, no events |
| Session.StreamSession.HandleContent | app/api/generate-mermaid/route.js:194-203 | a content is added to `rawAll`, fed to the extractor, and each increment is appended to `finalCollected` and sent as a `chunk` event, in order |
| Session.StreamSession.SendIncrements | app/api/generate-mermaid/route.js:197-202 | `finalCollected` grows by the increments' text and one `chunk` event per increment is sent, in order; nothing else changes |
| Session.StreamSession.HandleLine | app/api/generate-mermaid/route.js:170-215 | one line moves the session to `LineStep` of the old state |
| Session.StreamSession.HandleChunk | app/api/generate-mermaid/route.js:166-216 | one chunk moves the session to `ChunkStep` of the old state, its lines taken in order |
| Session.StreamSession.Finish | app/api/generate-mermaid/route.js:267-277 | the final code is `FinalCode` of the collected and raw text; the advisory runs exactly when it is non-empty; one `final` event carrying it is appended |
| Session.StreamSession.Fail | app/api/generate-mermaid/route.js:278-281 | one `error` event is appended, carrying the message after the fixed prefix, or "unknown error" when the message is empty |
| Session.Respond | app/api/generate-mermaid/route.js:104-284 | the events sent are exactly the transcript of the upstream answer |
| Session.TranscriptShape | app/api/generate-mermaid/route.js:104-284 | every transcript ends in exactly one `final` or `error` event; all earlier events are fence-free `chunk` events; a refused upstream answer sends only its error |
| Session.CompletedFinal | app/api/generate-mermaid/route.js:267-277 | a completed stream's final event carries `FinalCode` of the text of the chunk events sent; if no fence was opened, it is the only event and carries the whole reply, trimmed |
| Session.DeliverKeeps | app/api/generate-mermaid/route.js:194-203 | one content keeps the session invariant (fence-free chunk events, `finalCollected` is their text, no event while searching, bounded carry) and moves the session forward |
| Session.ChunksStepKeeps | app/api/generate-mermaid/route.js:163-217 | any run of chunks keeps the session invariant and moves the session forward |
| Session.DoneIsFinal | app/api/generate-mermaid/route.js:156-157 | after the closing fence, further chunks change neither the collected text nor the events |
| Session.ChunksAreLines | app/api/generate-mermaid/route.js:163-217 | the read loop equals the frame decoder run over each chunk's lines in order: the carry is the decoder's, and `rawAll` is every content it delivers |
| Session.LinesStepDecodes | app/api/generate-mermaid/route.js:170-215 | over a run of lines the session's carry is the decoder's carry and `rawAll` grows by exactly the delivered contents |
| Session.DeliverSplit | app/api/generate-mermaid/route.js:194-203 | two contents delivered in turn leave the same mode, buffer, raw text and collected text as their concatenation, when no fence straddles the cut |
| Session.FencedReplyExample | app/api/generate-mermaid/route.js:121-161 | the reply "```\nAB```" sends one chunk "AB", ends in done mode, and its final code is "AB" |
| Session.MermaidReplyExample | app/api/generate-mermaid/route.js:121-161 | the reply "```mermaid\nX\n```" sends one chunk "X\n", ends in done mode, and its final code is "X" |
| Session.PlainReplyExample | app/api/generate-mermaid/route.js:267 | the unfenced reply "hello world" sends no chunk, and its final code falls back to the raw text "hello world" |
| Session.CutFenceExample | app/api/generate-mermaid/route.js:144-155 | the same reply cut inside its closing fence keeps collecting and collects "AB```" |
| Reassembly.MidLineCutLosesRecord | app/api/generate-mermaid/route.js:163-217 | a record cut inside its line loses its content: whole, `data: AB` yields "X"; cut after `data: A`, it yields nothing, and the final event is empty |
| Reassembly.BufferedReadIgnoresCuts | app/api/generate-mermaid/route.js:163-217 | with the partial last line kept between chunks, the stream reads the same however it is cut: as one chunk holding all of it |
| Reassembly.CarrySpoilsLaterRecord | app/api/generate-mermaid/route.js:188-213 | with a half record carried, the next whole record is parsed with the carry in front, fails, and is carried in turn (dropped only past 10240 characters) |
| Reassembly.LaterRecordLost | app/api/generate-mermaid/route.js:163-217 | after the cut chunks `data: A`, `B`, the whole record `data: AB` in the next chunk is lost too: nothing is delivered and the carry is `AAB` |
| Advisory.ValidateMermaidSyntax | app/api/generate-mermaid/route.js:220-265 | the warnings returned are exactly `Advise(code)`: per-line multi-node warnings in line order, then the bracket imbalances |
| Advisory.CountBrackets | app/api/generate-mermaid/route.js:234-241 | the three counters are the net counts (openings minus closings) of square, curly and round brackets on the line |
| Advisory.AppendImbalances | app/api/generate-mermaid/route.js:254-262 | one imbalance warning is appended per non-zero counter, square then curly then round |
| Advisory.ImbalanceReported | app/api/generate-mermaid/route.js:254-262 | an imbalance of a bracket kind is reported exactly when its net count over the counted lines is non-zero, and the report carries that count |
| Advisory.MultiNodeReported | app/api/generate-mermaid/route.js:229-250 | line n is reported as multi-node exactly when it is counted (non-blank, not a `%%` comment) and, trimmed, has two or more node openers and no edge arrow |
| Advisory.AdviseShape | app/api/generate-mermaid/route.js:220-265 | the per-line warnings come first, followed by at most three imbalance warnings |
| Advisory.UnclosedSquareExample | app/api/generate-mermaid/route.js:254-255 | "A[x" yields one square-bracket imbalance of 1, logged as missing one `]` |
| Config.ResolveConfig | app/api/generate-mermaid/route.js:8-55 | a missing or empty text is refused with 400 and only then; an accepted configuration has a non-empty URL, key and model; every refusal is a 400 or the 401 bad-password refusal |
| Config.CompleteConfigWins | app/api/generate-mermaid/route.js:17-25 | a complete client configuration is used as given, whatever the password and server settings |
| Config.BadPasswordRefused | app/api/generate-mermaid/route.js:27-38 | without a complete client configuration, a given password is refused with 401 exactly when the server has none or it differs |
| Config.ServerConfigUsed | app/api/generate-mermaid/route.js:41-55 | otherwise the server's URL and key are used with the selected model, or the server's model when none is selected; a missing one is refused with 400 |
| Config.RequestUrl | app/api/generate-mermaid/route.js:72-74 | the URL is the configured one followed by `/chat/completions`, preceded by `/v1` exactly when the configured URL contains neither `v1` nor `v3` |
| Config.RequestUrlVersioned | app/api/generate-mermaid/route.js:72-74 | the URL always contains `v1` or `v3` |
| TextUtils.CleanText | lib/utils.js:13-23 | falsy input gives ""; the result has no whitespace at its ends, only plain spaces, and never two adjacent |
| TextUtils.CleanTextIsJoinedWords | lib/utils.js:13-23 | cleaning gives exactly the words of the input (its maximal runs of non-whitespace characters) joined by single spaces |
| TextUtils.CleanTextKeepsWords | lib/utils.js:16-20 | the words of the input survive cleaning, all of them and in order: each whitespace run between two words becomes one space, and runs at the ends disappear |
| TextUtils.CleanTextKeepsText | lib/utils.js:16-20 | the non-whitespace characters of the input survive cleaning, all of them and in order: only whitespace is replaced or removed |
| TextUtils.CleanTextIdempotent | lib/utils.js:13-23 | cleaning cleaned text changes nothing |
| TextUtils.CollapseFixed | lib/utils.js:17 | collapsing whitespace runs leaves already well-spaced text unchanged |
| TextUtils.CountCharacters | lib/utils.js:30-32 | the length of the text, 0 for a missing one |
| TextUtils.IsWithinCharLimit | lib/utils.js:40-42 | true exactly when the character count is at most the limit |
| TextUtils.TruncateText | lib/utils.js:65-70 | falsy input gives ""; text within the length is returned unchanged; longer text keeps its first `length` characters (none for a negative length) followed by "..." |
| TextUtils.TruncateTextDefault | lib/utils.js:65-70 | called without a length, text of at most 100 characters comes back unchanged and longer text keeps its first 100 characters followed by "..."; falsy input gives "" |

## Left out

- HTTP, `fetch`, `TextDecoder`, the SSE encoding of outgoing events and the response headers: events are values of the datatype `Event`.
- `JSON.parse` and the `choices[0]?.delta?.content` lookup: they are the parameter `parse`.
- `process.env` is the parameter `env` of `Config.ResolveConfig`.
- Console logging (the URL log, parse-overflow and advisory warnings) is left out, because it sends nothing to the client. The advisory's warnings are returned by `Finish` but never sent, as in the route.
- The system prompt (`lib/prompts/mermaid.js`), `diagramType` and the message list sent upstream are left out: they are opaque text passed to the model.
- The upstream body is given as the list of decoded chunks it arrives in (`Upstream`). The network, backpressure and cancellation are not modelled. The HTTP status of a refused upstream answer is a `nat`.
- The outer `catch` of the route (route.js:297-302) is left out. It answers with a plain JSON error, status 500, when the request body cannot be read, and also when `cleanText` gets a `text` that is not a string (route.js:12, lib/utils.js:17) or `.includes` gets an `apiUrl` that is not a string (route.js:72). The model types `text` and every configuration value as an optional string, so those type errors cannot arise in it.
- Closing the event stream (`controller.close()` at route.js:108 and in the `finally` at route.js:283) is not modelled: a transcript ends with its last event, and closing twice on the refused path has no counterpart here.
- `formatFileSize`, `cn` and `copyToClipboard` in `lib/utils.js` are left out: they are presentation and browser code, not part of the route.
- String lengths count Dafny characters, while JavaScript counts UTF-16 code units. A character outside the Basic Multilingual Plane therefore counts once here and twice in the source.
- Advisory.NodeOpeners: counts a `[` right after a word character instead of running the regular expression `/\w+\[/g`. The two counts agree because the match is greedy and non-overlapping, but that agreement is argued in a comment, not proved.
- TextUtils.TruncateText: `length` is an integer. In the source it is a JavaScript number, so fractional and NaN lengths are possible there; they are not modelled.
- TextUtils.IsWithinCharLimit: the limit is an integer. Fractional and NaN limits of the JavaScript number are not modelled.
- TextUtils.CleanText: the `/\s+/g` replacement is the recursive `CollapseSpaces` over the whitespace set in `Strings.IsSpace`. The characters of that set are written out, not derived from the ECMAScript standard.

## Findings

| source | as written | input that shows it | evidently intended | confidence | as-written member | corrected member |
|---|---|---|---|---|---|---|
| app/api/generate-mermaid/route.js:163-217 | each network chunk is split into lines on its own, so a record cut in the middle of its line becomes two lines: the first half is carried as unparsable and the second half, not starting with `data: `, is skipped | chunks `["data: A", "B"]` with a parser that accepts only `AB` (content `X`): the content `X` is lost and the final event carries "" instead of "X"; worse, the carried half is put in front of every later record, so a whole `data: AB` in the next chunk fails too, until a `[DONE]` payload clears the carry, a later payload completes it so that it parses, or it passes 10240 characters | keep the unterminated last line of each chunk and prepend it to the next chunk, so the stream reads the same however it is cut | not executed | Reassembly.MidLineCutLosesRecord | Reassembly.BufferedReadIgnoresCuts |
