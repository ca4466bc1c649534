/** The streaming session of app/api/generate-mermaid/route.js (lines
    113-284): the read loop that splits each upstream chunk into lines, runs
    every line through the frame decoder, feeds each delivered content to
    the fence extractor, forwards every increment as a `chunk` event, and at
    the end sends one `final` event with the diagram text, or one `error`
    event when the upstream refuses the request or the stream fails. */
module Session {
  import opened Wrappers
  import opened Strings
  import opened Fence
  import opened FrameDecoder
  import opened Advisory

  /** The events sent to the client, in the order sent. */
  datatype Event =
    | Chunk(data: string)       // `{ type: 'chunk', data }`
    | Final(data: string)       // `{ type: 'final', data, ok: true }`
    | Failure(message: string)  // `{ type: 'error', message, ok: false }`

  /** How the upstream answered: refused with a status that is not ok, or
      streamed `chunks` (each already decoded to text) and then either
      completed or failed with an error whose message may be empty. */
  datatype Ending = Completed | Failed(message: string)
  datatype Upstream = Rejected(status: nat) | Streamed(chunks: seq<string>, ending: Ending)

  /** One `chunk` event per increment, in order. */
  function ChunkEvents(increments: seq<string>): (r: seq<Event>)
    ensures |r| == |increments|
    ensures forall k :: 0 <= k < |r| ==> r[k] == Chunk(increments[k])
  {
    if increments == [] then []
    else ChunkEvents(increments[..|increments| - 1]) + [Chunk(increments[|increments| - 1])]
  }

  /** The text carried by the `chunk` events of `events`, in order. */
  function ChunkText(events: seq<Event>): string
  {
    if events == [] then ""
    else
      var e := events[|events| - 1];
      ChunkText(events[..|events| - 1]) + (if e.Chunk? then e.data else "")
  }

  /** The session's variables: the extractor's mode and buffer, the decoder's
      carry (`dataBuffer`), every content received (`rawAll`), every increment
      released (`finalCollected`), and the events sent so far. */
  datatype State = State(mode: Mode, pending: string, dataBuffer: string,
                         rawAll: string, collected: string, events: seq<Event>)

  const Start: State := State(Search, "", "", "", "", [])

  /** A non-empty content received (route.js:194-202). */
  function Deliver(st: State, content: string): State
  {
    var r := Feed(st.mode, st.pending, content);
    st.(mode := r.mode, pending := r.pending, rawAll := st.rawAll + content,
        collected := st.collected + Concat(r.out), events := st.events + ChunkEvents(r.out))
  }

  /** One line of a chunk (route.js:171-215). */
  function LineStep(st: State, line: string, parse: string -> Option<string>): State
  {
    var d := DecodeLine(st.dataBuffer, line, parse);
    var st' := st.(dataBuffer := d.carry);
    if d.delta == "" then st' else Deliver(st', d.delta)
  }

  /** The lines of one chunk, in order. */
  function LinesStep(st: State, lines: seq<string>, parse: string -> Option<string>): State
  {
    if lines == [] then st
    else LineStep(LinesStep(st, lines[..|lines| - 1], parse), lines[|lines| - 1], parse)
  }

  /** One more line of a chunk. */
  lemma LinesStepNext(st: State, lines: seq<string>, i: nat, parse: string -> Option<string>)
    requires i < |lines|
    ensures LinesStep(st, lines[..i + 1], parse) == LineStep(LinesStep(st, lines[..i], parse), lines[i], parse)
  {
    assert lines[..i + 1][..i] == lines[..i];
  }

  /** One chunk: its `split('\n')` lines (route.js:169-170). */
  function ChunkStep(st: State, chunk: string, parse: string -> Option<string>): State
  {
    LinesStep(st, Split(chunk, '\n'), parse)
  }

  /** The chunks read, in order (route.js:163-217). */
  function ChunksStep(st: State, chunks: seq<string>, parse: string -> Option<string>): State
  {
    if chunks == [] then st
    else ChunkStep(ChunksStep(st, chunks[..|chunks| - 1], parse), chunks[|chunks| - 1], parse)
  }

  /** `finalCollected.trim() || rawAll.trim()` (route.js:267). */
  function FinalCode(collected: string, rawAll: string): (r: string)
    ensures Trim(collected) != "" ==> r == Trim(collected)
    ensures Trim(collected) == "" ==> r == Trim(rawAll)
    ensures r == "" <==> Trim(collected) == "" && Trim(rawAll) == ""
    ensures r == [] || (!IsSpace(r[0]) && !IsSpace(r[|r| - 1]))
  {
    TrimEnds(collected);
    TrimEnds(rawAll);
    var t := Trim(collected);
    if t != "" then t else Trim(rawAll)
  }

  /** The message of the error event for a refused request (route.js:107). */
  function StatusMessage(status: nat): string
  {
    "AI服务返回错误 (" + NatToString(status) + ")"
  }

  /** The message of the error event for a failed stream (route.js:280-281):
      an empty or missing message reads as "unknown error". */
  function ErrorText(message: string): string
  {
    "处理请求时发生错误: " + (if message == "" then "未知错误" else message)
  }

  /** Everything the client receives for an upstream answer. */
  function Transcript(parse: string -> Option<string>, up: Upstream): seq<Event>
  {
    match up
    case Rejected(status) => [Failure(StatusMessage(status))]
    case Streamed(chunks, ending) =>
      var st := ChunksStep(Start, chunks, parse);
      st.events + [match ending
                   case Completed => Final(FinalCode(st.collected, st.rawAll))
                   case Failed(message) => Failure(ErrorText(message))]
  }

  // ---------------------------------------------------------------------
  // Invariants of the session

  /** What holds of the session between any two lines: every event so far
      is a `chunk` event without a fence in it, `finalCollected` is the text
      of those events, nothing was sent while still searching for the
      opening fence, and the carry is bounded. */
  predicate Consistent(st: State)
  {
    && (forall k :: 0 <= k < |st.events| ==> st.events[k].Chunk? && !Contains(st.events[k].data, FenceMark))
    && st.collected == ChunkText(st.events)
    && (st.mode == Search ==> st.events == [])
    && |st.dataBuffer| <= MaxCarry
  }

  /** `b` is a later state of the session than `a`: the mode never moves
      back, the events only grow, and once the closing fence was seen
      nothing more is collected or sent. */
  predicate Follows(a: State, b: State)
  {
    && Rank(b.mode) <= Rank(a.mode)
    && a.events <= b.events
    && (a.mode == Done ==> b.mode == Done && b.events == a.events && b.collected == a.collected)
  }

  lemma {:induction false} ChunkTextAppend(events: seq<Event>, increments: seq<string>)
    ensures ChunkText(events + ChunkEvents(increments)) == ChunkText(events) + Concat(increments)
    decreases |increments|
  {
    if increments == [] {
      assert events + ChunkEvents(increments) == events;
    } else {
      var init := increments[..|increments| - 1];
      var last := increments[|increments| - 1];
      ChunkTextAppend(events, init);
      var es := events + ChunkEvents(init);
      assert events + ChunkEvents(increments) == es + [Chunk(last)];
      ChunkTextSnoc(es, Chunk(last));
      Associative(ChunkText(events), Concat(init), last);
    }
  }

  /** One more event after a run of them. */
  lemma ChunkTextSnoc(es: seq<Event>, e: Event)
    ensures ChunkText(es + [e]) == ChunkText(es) + (if e.Chunk? then e.data else "")
  {
    assert (es + [e])[..|es|] == es;
  }

  /** The extractor is still searching only if it never left search mode,
      and then it released nothing. */
  lemma StillSearching(m: Mode, p: string)
    requires Advance(m, p).mode == Search
    ensures m == Search && Advance(m, p).out == []
  {
  }

  /** Receiving a content keeps the invariant and moves the session on. */
  lemma DeliverKeeps(st: State, content: string)
    requires Consistent(st)
    ensures Consistent(Deliver(st, content)) && Follows(st, Deliver(st, content))
  {
    var r := Feed(st.mode, st.pending, content);
    var st2 := Deliver(st, content);
    IncrementsFenceFree(st.mode, st.pending + content);
    ModeMonotone(st.mode, st.pending + content);
    ChunkTextAppend(st.events, r.out);
    forall k | 0 <= k < |st2.events|
      ensures st2.events[k].Chunk? && !Contains(st2.events[k].data, FenceMark)
    {
      if k >= |st.events| {
        assert st2.events[k] == Chunk(r.out[k - |st.events|]);
      }
    }
    if r.mode == Search {
      StillSearching(st.mode, st.pending + content);
    }
    if st.mode == Done {
      DoneAbsorbs(st.pending, content);
      assert st2.events == st.events + [];
    }
  }

  /** One line keeps the invariant and moves the session on. */
  lemma LineStepKeeps(st: State, line: string, parse: string -> Option<string>)
    requires Consistent(st)
    ensures Consistent(LineStep(st, line, parse)) && Follows(st, LineStep(st, line, parse))
  {
    var d := DecodeLine(st.dataBuffer, line, parse);
    CarryBounded(st.dataBuffer, line, parse);
    var st' := st.(dataBuffer := d.carry);
    assert Consistent(st');
    if d.delta != "" {
      DeliverKeeps(st', d.delta);
    }
  }

  lemma {:induction false} LinesStepKeeps(st: State, lines: seq<string>, parse: string -> Option<string>)
    requires Consistent(st)
    ensures Consistent(LinesStep(st, lines, parse)) && Follows(st, LinesStep(st, lines, parse))
  {
    if lines != [] {
      var mid := LinesStep(st, lines[..|lines| - 1], parse);
      LinesStepKeeps(st, lines[..|lines| - 1], parse);
      LineStepKeeps(mid, lines[|lines| - 1], parse);
    }
  }

  /** Any run of chunks keeps the invariant and moves the session on. */
  lemma {:induction false} ChunksStepKeeps(st: State, chunks: seq<string>, parse: string -> Option<string>)
    requires Consistent(st)
    ensures Consistent(ChunksStep(st, chunks, parse)) && Follows(st, ChunksStep(st, chunks, parse))
  {
    if chunks != [] {
      var mid := ChunksStep(st, chunks[..|chunks| - 1], parse);
      ChunksStepKeeps(st, chunks[..|chunks| - 1], parse);
      LinesStepKeeps(mid, Split(chunks[|chunks| - 1], '\n'), parse);
    }
  }

  // ---------------------------------------------------------------------
  // What the client receives

  /** The transcript ends in exactly one terminal event: a refused request
      yields one error event and nothing else; a stream yields `chunk`
      events whose text holds no fence, then one `final` or `error` event. */
  lemma TranscriptShape(parse: string -> Option<string>, up: Upstream)
    ensures var t := Transcript(parse, up);
            && |t| >= 1
            && !t[|t| - 1].Chunk?
            && (forall k :: 0 <= k < |t| - 1 ==> t[k].Chunk? && !Contains(t[k].data, FenceMark))
            && (up.Rejected? ==> t == [Failure(StatusMessage(up.status))])
            && (up.Streamed? && up.ending.Failed? ==> t[|t| - 1] == Failure(ErrorText(up.ending.message)))
  {
    var t := Transcript(parse, up);
    if up.Streamed? {
      var st := ChunksStep(Start, up.chunks, parse);
      ChunksStepKeeps(Start, up.chunks, parse);
      assert t[..|t| - 1] == st.events;
      forall k | 0 <= k < |t| - 1
        ensures t[k].Chunk? && !Contains(t[k].data, FenceMark)
      {
        assert t[k] == st.events[k];
      }
    }
  }

  /** A completed stream ends with the diagram text: the trimmed text of
      the `chunk` events when that is not blank, otherwise the trimmed
      text of everything received. With no fenced block opened, that is
      the whole reply, trimmed. */
  lemma CompletedFinal(parse: string -> Option<string>, chunks: seq<string>)
    ensures var t := Transcript(parse, Streamed(chunks, Completed));
            var st := ChunksStep(Start, chunks, parse);
            && t[|t| - 1] == Final(FinalCode(ChunkText(t[..|t| - 1]), st.rawAll))
            && (st.mode == Search ==> t == [Final(Trim(st.rawAll))])
  {
    var st := ChunksStep(Start, chunks, parse);
    ChunksStepKeeps(Start, chunks, parse);
    FinalOfState(st, Transcript(parse, Streamed(chunks, Completed)), FinalCode(st.collected, st.rawAll));
  }

  /** The `final` event after a consistent state's events. */
  lemma FinalOfState(st: State, t: seq<Event>, code: string)
    requires Consistent(st) && code == FinalCode(st.collected, st.rawAll) && t == st.events + [Final(code)]
    ensures t[|t| - 1] == Final(FinalCode(ChunkText(t[..|t| - 1]), st.rawAll))
    ensures st.mode == Search ==> t == [Final(Trim(st.rawAll))]
  {
    assert t[..|t| - 1] == st.events;
    if st.mode == Search {
      assert st.collected == ChunkText([]);
    }
  }

  /** Once the closing fence was seen, further chunks change neither the
      collected text nor the events sent. */
  lemma DoneIsFinal(st: State, chunks: seq<string>, parse: string -> Option<string>)
    requires Consistent(st) && st.mode == Done
    ensures var st2 := ChunksStep(st, chunks, parse);
            st2.mode == Done && st2.collected == st.collected && st2.events == st.events
  {
    ChunksStepKeeps(st, chunks, parse);
  }

  // ---------------------------------------------------------------------
  // How lines, records and contents relate

  /** Lines are taken one after the other: a run of lines split in two is
      the first part followed by the second. */
  lemma {:induction false} LinesStepAppend(st: State, a: seq<string>, b: seq<string>, parse: string -> Option<string>)
    ensures LinesStep(st, a + b, parse) == LinesStep(LinesStep(st, a, parse), b, parse)
    decreases |b|
  {
    if b == [] {
      assert a + b == a;
    } else {
      var init, last := b[..|b| - 1], b[|b| - 1];
      LinesStepAppend(st, a, init, parse);
      AppendInit(a, b, init, last);
    }
  }

  /** Over a run of lines the session's carry is the frame decoder's carry,
      and `rawAll` grows by exactly the contents the decoder delivers, in
      order. */
  lemma {:induction false} LinesStepDecodes(st: State, lines: seq<string>, parse: string -> Option<string>)
    ensures var d := DecodeLines(st.dataBuffer, lines, parse);
            LinesStep(st, lines, parse).dataBuffer == d.carry
            && LinesStep(st, lines, parse).rawAll == st.rawAll + Concat(d.deltas)
  {
    if lines != [] {
      var init := lines[..|lines| - 1];
      LinesStepDecodes(st, init, parse);
      var mid := LinesStep(st, init, parse);
      var prev := DecodeLines(st.dataBuffer, init, parse);
      var dd := DecodeLine(prev.carry, lines[|lines| - 1], parse);
      LineStepFields(mid, lines[|lines| - 1], parse);
      var deltas := prev.deltas + if dd.delta == "" then [] else [dd.delta];
      assert DecodeLines(st.dataBuffer, lines, parse) == DecodedLines(dd.carry, deltas);
      ConcatStep(prev.deltas, dd.delta);
    }
  }

  /** One line moves the carry as the frame decoder does and adds its
      content, if any, to `rawAll`. */
  lemma LineStepFields(st: State, line: string, parse: string -> Option<string>)
    ensures var d := DecodeLine(st.dataBuffer, line, parse);
            LineStep(st, line, parse).dataBuffer == d.carry
            && LineStep(st, line, parse).rawAll == st.rawAll + d.delta
  {
  }

  lemma ConcatStep(parts: seq<string>, x: string)
    ensures Concat(parts + if x == "" then [] else [x]) == Concat(parts) + x
  {
    if x == "" {
      assert parts + [] == parts;
    } else {
      assert (parts + [x])[..|parts|] == parts;
    }
  }

  /** The lines the read loop sees: each chunk split on its own, in order. */
  function StreamLines(chunks: seq<string>): seq<string>
  {
    if chunks == [] then [] else StreamLines(chunks[..|chunks| - 1]) + Split(chunks[|chunks| - 1], '\n')
  }

  /** The read loop is the frame decoder run over the chunks' lines: the
      carry left at the end is the decoder's, and `rawAll` is every content
      it delivers, in order. */
  lemma {:induction false} ChunksAreLines(chunks: seq<string>, parse: string -> Option<string>)
    ensures ChunksStep(Start, chunks, parse) == LinesStep(Start, StreamLines(chunks), parse)
    ensures var d := DecodeLines("", StreamLines(chunks), parse);
            ChunksStep(Start, chunks, parse).dataBuffer == d.carry
            && ChunksStep(Start, chunks, parse).rawAll == Concat(d.deltas)
  {
    if chunks != [] {
      ChunksAreLines(chunks[..|chunks| - 1], parse);
      LinesStepAppend(Start, StreamLines(chunks[..|chunks| - 1]), Split(chunks[|chunks| - 1], '\n'), parse);
    }
    LinesStepDecodes(Start, StreamLines(chunks), parse);
    assert "" + Concat(DecodeLines("", StreamLines(chunks), parse).deltas)
           == Concat(DecodeLines("", StreamLines(chunks), parse).deltas);
  }

  /** Contents can be cut anywhere a fence is not: receiving `a` then `b`
      leaves the extractor in the same mode and buffer, and collects the
      same text, as receiving `a + b` at once. */
  lemma DeliverSplit(st: State, a: string, b: string)
    requires NoFenceStraddle(st.pending + a, b)
    ensures var two := Deliver(Deliver(st, a), b);
            var one := Deliver(st, a + b);
            two.mode == one.mode && two.pending == one.pending
            && two.rawAll == one.rawAll && two.collected == one.collected
  {
    var s1 := Deliver(st, a);
    var r1 := DeliverResult(st, a);
    var r2 := DeliverResult(s1, b);
    var one := DeliverResult(st, a + b);
    FeedSplitCollected(st.mode, st.pending, a, b);
    Associative(st.collected, Concat(r1.out), Concat(r2.out));
    Associative(st.rawAll, a, b);
  }


  /** One delivery spelled out through the extractor's result. */
  lemma DeliverResult(st: State, c: string) returns (r: Extracted)
    ensures r == Feed(st.mode, st.pending, c)
    ensures Deliver(st, c).mode == r.mode && Deliver(st, c).pending == r.pending
    ensures Deliver(st, c).rawAll == st.rawAll + c && Deliver(st, c).collected == st.collected + Concat(r.out)
  {
    r := Feed(st.mode, st.pending, c);
  }

  /** The extractor's side of `DeliverSplit`. */
  lemma FeedSplitCollected(m: Mode, p: string, a: string, b: string)
    requires NoFenceStraddle(p + a, b)
    ensures var r1 := Feed(m, p, a);
            var r2 := Feed(r1.mode, r1.pending, b);
            var one := Feed(m, p, a + b);
            r2.mode == one.mode && r2.pending == one.pending
            && Concat(r1.out) + Concat(r2.out) == Concat(one.out)
  {
    var r1 := Feed(m, p, a);
    FeedSplit(m, p, a, b);
    ConcatAppend(r1.out, Feed(r1.mode, r1.pending, b).out);
  }

  /** A whole reply holding one fenced block: the fence lines are dropped,
      the interior is sent as one `chunk` event, and it is the diagram. */
  lemma FencedReplyExample()
    ensures var st := Deliver(Start, "```\nAB```");
            st.mode == Done && st.collected == "AB" && st.events == [Chunk("AB")]
            && FinalCode(st.collected, st.rawAll) == "AB"
  {
    DeliverFencedReply("", "AB", "```\nAB```");
    TrimUnchanged("AB");
  }

  /** A reply tagged `mermaid` in one content: the diagram text between
      the fence lines is sent as one chunk, and the final code is that text
      trimmed. */
  lemma MermaidReplyExample()
    ensures var st := Deliver(Start, "```mermaid\nX\n```");
            st.mode == Done && st.collected == "X\n" && st.events == [Chunk("X\n")]
            && FinalCode(st.collected, st.rawAll) == "X"
  {
    DeliverFencedReply("mermaid", "X\n", "```mermaid\nX\n```");
    TrimsToX("X\n");
  }

  lemma TrimsToX(s: string)
    requires s == "X\n"
    ensures Trim(s) == "X"
  {
    assert !IsSpace(s[0]) && IsSpace(s[1]);
    assert TrimStart(s) == s;
    var x := s[..1];
    assert x == "X" && !IsSpace(x[0]);
    assert TrimEnd(s) == TrimEnd(x) == x;
  }

  /** A whole fenced reply in one content, seen by the session: the body is
      its one chunk event and all of the collected text. */
  lemma DeliverFencedReply(tag: string, body: string, w: string)
    requires '\n' !in tag && '`' !in tag && '`' !in body
    requires w == FenceMark + tag + "\n" + body + FenceMark
    ensures Deliver(Start, w) == State(Done, "", "", w, body, [Chunk(body)])
  {
    FencedDelivery(tag, body, w);
    ConcatSmall(body, "");
    assert "" + w == w && "" + body == body;
  }

  /** A reply with no fence at all: nothing is sent as a chunk, and the
      final code falls back to everything received, trimmed. */
  lemma PlainReplyExample()
    ensures var st := Deliver(Start, "hello world");
            st.mode == Search && st.events == [] && st.collected == ""
            && FinalCode(st.collected, st.rawAll) == "hello world"
  {
    var w := "hello world";
    assert "" + w == w;
    NoBacktickWaits(w);
    assert Concat([]) == "";
    TrimUnchanged(w);
  }

  /** The same reply in two contents cut inside the closing fence: the
      fence is missed, its first backtick is sent as diagram text, and
      collection goes on. */
  lemma CutFenceExample()
    ensures var st := Deliver(Deliver(Start, "```\nAB`"), "``");
            st.mode == Collect && st.collected == "AB```"
  {
    StraddledCloserIsMissed();
    var r1 := Feed(Search, "", "```\nAB`");
    var r2 := Feed(r1.mode, r1.pending, "``");
    ConcatAppend(r1.out, r2.out);
  }

  // ---------------------------------------------------------------------
  // The session as the source runs it

  /** The variables of one streaming response, updated line by line. */
  class StreamSession {
    const parse: string -> Option<string>
    const extractor: FenceExtractor
    var dataBuffer: string
    var rawAll: string
    var finalCollected: string
    var events: seq<Event>

    /** The session's variables as a value. */
    ghost function Snapshot(): State
      reads this, extractor
    {
      State(extractor.mode, extractor.pending, dataBuffer, rawAll, finalCollected, events)
    }

    /** The variables set up before the read loop (route.js:113-119). */
    constructor (parse: string -> Option<string>)
      ensures this.parse == parse && fresh(extractor)
      ensures Snapshot() == Start
    {
      this.parse := parse;
      extractor := new FenceExtractor();
      dataBuffer := "";
      rawAll := "";
      finalCollected := "";
      events := [];
    }

    /** A non-empty content: record it, feed it to the extractor and send
        every increment (route.js:195-202). */
    method HandleContent(content: string)
      modifies this, extractor
      ensures Snapshot() == Deliver(old(Snapshot()), content)
    {
      rawAll := rawAll + content;
      var increments := extractor.Process(content);
      SendIncrements(increments);
    }

    /** Each increment is added to `finalCollected` and sent as a `chunk`
        event, in order (route.js:197-202). */
    method SendIncrements(increments: seq<string>)
      modifies this
      ensures finalCollected == old(finalCollected) + Concat(increments)
      ensures events == old(events) + ChunkEvents(increments)
      ensures rawAll == old(rawAll) && dataBuffer == old(dataBuffer)
    {
      for k := 0 to |increments|
        invariant finalCollected == old(finalCollected) + Concat(increments[..k])
        invariant events == old(events) + ChunkEvents(increments[..k])
        invariant rawAll == old(rawAll) && dataBuffer == old(dataBuffer)
      {
        assert increments[..k + 1][..k] == increments[..k];
        finalCollected := finalCollected + increments[k];
        events := events + [Chunk(increments[k])];
      }
      assert increments[..|increments|] == increments;
    }

    /** One line of a chunk (route.js:171-215). */
    method HandleLine(line: string)
      modifies this, extractor
      ensures Snapshot() == LineStep(old(Snapshot()), line, parse)
    {
      var trimmedLine := Trim(line);
      if trimmedLine == "" {
        return;
      }
      if StartsWith(trimmedLine, DataPrefix) {
        var data := Trim(trimmedLine[6..]);
        if data == "" || data == DoneSentinel {
          dataBuffer := "";
          return;
        }
        var jsonToParse := dataBuffer + data;
        match parse(jsonToParse)
        case Some(content) =>
          dataBuffer := "";
          if content != "" {
            HandleContent(content);
          }
        case None =>
          dataBuffer := jsonToParse;
          if |dataBuffer| > MaxCarry {
            dataBuffer := "";
          }
      }
    }

    /** One chunk read from the upstream (route.js:166-216). */
    method HandleChunk(chunk: string)
      modifies this, extractor
      ensures Snapshot() == ChunkStep(old(Snapshot()), chunk, parse)
    {
      var lines := Split(chunk, '\n');
      for i := 0 to |lines|
        invariant Snapshot() == LinesStep(old(Snapshot()), lines[..i], parse)
      {
        LinesStepNext(old(Snapshot()), lines, i, parse);
        HandleLine(lines[i]);
      }
      assert lines[..|lines|] == lines;
    }

    /** The end of a completed stream: the diagram text, the advisory's
        warnings about it when it is not blank, and the `final` event
        (route.js:267-277). */
    method Finish() returns (finalCode: string, warnings: seq<Warning>)
      modifies this`events
      ensures finalCode == FinalCode(finalCollected, rawAll)
      ensures finalCode == "" ==> warnings == []
      ensures finalCode != "" ==> warnings == Advise(finalCode)
      ensures events == old(events) + [Final(finalCode)]
    {
      finalCode := FinalCode(finalCollected, rawAll);
      warnings := [];
      if finalCode != "" {
        warnings := ValidateMermaidSyntax(finalCode);
      }
      events := events + [Final(finalCode)];
    }

    /** The `error` event of a stream that failed (route.js:278-281). */
    method Fail(message: string)
      modifies this`events
      ensures events == old(events) + [Failure(ErrorText(message))]
    {
      events := events + [Failure(ErrorText(message))];
    }
  }

  /** The streaming response for an upstream answer, event by event
      (route.js:104-284). */
  method Respond(parse: string -> Option<string>, up: Upstream) returns (sent: seq<Event>)
    ensures sent == Transcript(parse, up)
  {
    match up
    case Rejected(status) =>
      sent := [Failure(StatusMessage(status))];
    case Streamed(chunks, ending) =>
      var session := new StreamSession(parse);
      for i := 0 to |chunks|
        invariant fresh(session) && fresh(session.extractor) && session.parse == parse
        invariant session.Snapshot() == ChunksStep(Start, chunks[..i], parse)
      {
        assert chunks[..i + 1][..i] == chunks[..i];
        session.HandleChunk(chunks[i]);
      }
      assert chunks[..|chunks|] == chunks;
      match ending {
        case Completed =>
          var finalCode, warnings := session.Finish();
        case Failed(message) =>
          session.Fail(message);
      }
      sent := session.events;
  }
}
