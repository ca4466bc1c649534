/** How the read loop of app/api/generate-mermaid/route.js (lines 163-217)
    treats records cut between two chunks, and the line-buffered reading
    its decoder carry (`dataBuffer`, route.js:119) is there to provide.

    The loop splits every chunk on its own, so a record cut in the middle
    of its line arrives as two lines: the first half goes to the parser
    and, failing there, into the carry; the second half does not start with
    `data: ` and is skipped. `MidLineCutLosesRecord` shows a content lost
    this way, and `LaterRecordLost` the whole records after it that the
    carried half spoils. `BufferedRead` keeps the unterminated end of each chunk until
    the next one completes it, and reads the same however the stream is
    cut (`BufferedReadIgnoresCuts`). */
module Reassembly {
  import opened Wrappers
  import opened Strings
  import opened Fence
  import opened FrameDecoder
  import opened Session

  /** The session and the unterminated last line of the chunks so far. */
  datatype Reader = Reader(st: State, partial: string)

  /** Chunks read with line buffering: each chunk continues the pending
      partial line, every completed line is processed, and the new
      unterminated end is kept. */
  function BufferedChunks(chunks: seq<string>, parse: string -> Option<string>): Reader
  {
    if chunks == [] then Reader(Start, "")
    else
      var prev := BufferedChunks(chunks[..|chunks| - 1], parse);
      var lines := Split(prev.partial + chunks[|chunks| - 1], '\n');
      Reader(LinesStep(prev.st, lines[..|lines| - 1], parse), lines[|lines| - 1])
  }

  /** The stream read with line buffering, the partial line processed at
      its end. */
  function BufferedRead(chunks: seq<string>, parse: string -> Option<string>): State
  {
    var r := BufferedChunks(chunks, parse);
    LineStep(r.st, r.partial, parse)
  }

  /** After any chunks, the buffered reader has processed exactly the
      complete lines of everything received, and holds its last line. */
  lemma {:induction false} BufferedChunksLines(chunks: seq<string>, parse: string -> Option<string>)
    ensures var lines := Split(Concat(chunks), '\n');
            BufferedChunks(chunks, parse) == Reader(LinesStep(Start, lines[..|lines| - 1], parse), lines[|lines| - 1])
  {
    if chunks == [] {
      SplitWithout("", '\n');
    } else {
      var init := chunks[..|chunks| - 1];
      var last := chunks[|chunks| - 1];
      BufferedChunksLines(init, parse);
      assert Concat(chunks) == Concat(init) + last;
      LastLineSplit(Concat(init), last);
      var before := Split(Concat(init), '\n');
      var more := Split(before[|before| - 1] + last, '\n');
      LinesStepAppend(Start, before[..|before| - 1], more[..|more| - 1], parse);
    }
  }

  /** The complete lines of `x + y` are those of `x` followed by those its
      last line makes with `y`; the last line is the one that last line
      and `y` end with. */
  lemma LastLineSplit(x: string, y: string)
    ensures var before := Split(x, '\n');
            var more := Split(before[|before| - 1] + y, '\n');
            var lines := Split(x + y, '\n');
            lines[..|lines| - 1] == before[..|before| - 1] + more[..|more| - 1]
            && lines[|lines| - 1] == more[|more| - 1]
  {
    SplitAppend(x, y, '\n');
  }

  /** Line buffering reads the stream the same however it is cut into
      chunks: exactly as one chunk holding all of it. */
  lemma BufferedReadIgnoresCuts(chunks: seq<string>, parse: string -> Option<string>)
    ensures BufferedRead(chunks, parse) == ChunkStep(Start, Concat(chunks), parse)
  {
    BufferedChunksLines(chunks, parse);
    LinesStepLast(Start, Split(Concat(chunks), '\n'), parse);
  }

  /** The last of a run of lines is taken after the others. */
  lemma LinesStepLast(st: State, lines: seq<string>, parse: string -> Option<string>)
    requires lines != []
    ensures LinesStep(st, lines, parse) == LineStep(LinesStep(st, lines[..|lines| - 1], parse), lines[|lines| - 1], parse)
  {
  }

  /** Two cuttings of the same stream read alike with line buffering. */
  lemma BufferedReadAgrees(c1: seq<string>, c2: seq<string>, parse: string -> Option<string>)
    requires Concat(c1) == Concat(c2)
    ensures BufferedRead(c1, parse) == BufferedRead(c2, parse)
  {
    BufferedReadIgnoresCuts(c1, parse);
    BufferedReadIgnoresCuts(c2, parse);
  }

  /** A parser that knows one payload, `AB`, whose content is `X`. */
  function OnePayload(s: string): Option<string>
  {
    if s == "AB" then Some("X") else None
  }

  /** One `data: ` record, with a payload the parser does not know: it is
      carried. */
  lemma FirstHalfCarried(st: State)
    requires st.dataBuffer == ""
    ensures LineStep(st, DataPrefix + "A", OnePayload) == st.(dataBuffer := "A")
  {
    FirstHalfDecoded(st.dataBuffer, "A");
  }

  lemma FirstHalfDecoded(carry: string, x: string)
    requires carry == "" && x == "A"
    ensures DecodeLine(carry, DataPrefix + x, OnePayload) == Decoded("A", "")
  {
    HalfPayload(x);
    PrependEmpty(carry, x);
    assert OnePayload(carry + x) == None && |carry + x| <= MaxCarry;
    RecordParsed(carry, x, OnePayload);
  }

  /** The first half is trimmed, not the sentinel, and unknown to the parser. */
  lemma HalfPayload(x: string)
    requires x == "A"
    ensures x != "" && Trim(x) == x && x != DoneSentinel && OnePayload(x) == None
  {
    assert x != DoneSentinel;
    TrimUnchanged(x);
  }

  /** A continuation line is not a record and is skipped. */
  lemma SecondHalfSkipped(st: State)
    ensures LineStep(st, "B", OnePayload) == st
  {
    ShortLineIgnored(st.dataBuffer, "B", OnePayload);
  }

  lemma WholeRecordDecoded(carry: string, x: string)
    requires carry == "" && x == "AB"
    ensures DecodeLine(carry, DataPrefix + x, OnePayload) == Decoded("", "X")
  {
    KnownPayload(x);
    assert OnePayload(x) == Some("X");
    RecordDelivers(carry, x, OnePayload, "X");
  }

  /** The payload the parser knows is trimmed and is not the sentinel. */
  lemma KnownPayload(x: string)
    requires x == "AB"
    ensures x != "" && Trim(x) == x && x != DoneSentinel
  {
    assert x != "" && x != DoneSentinel;
    TrimUnchanged(x);
  }

  lemma RecordDelivers(carry: string, x: string, parse: string -> Option<string>, content: string)
    requires carry == "" && x != "" && Trim(x) == x && x != DoneSentinel && parse(x) == Some(content)
    ensures DecodeLine(carry, DataPrefix + x, parse) == Decoded("", content)
  {
    RecordParsed(carry, x, parse);
    PrependEmpty(carry, x);
  }


  /** The whole record delivers its content `X`, which holds no fence and
      so stays in the extractor's buffer. */
  lemma WholeRecordDelivered()
    ensures LineStep(Start, DataPrefix + "AB", OnePayload) == State(Search, "X", "", "X", "", [])
  {
    WholeRecordDecoded(Start.dataBuffer, "AB");
    MismatchAt("X", FenceMark, 0, 0);
    SearchWaits("", "X");
    assert Concat([]) == "";
  }

  /** A chunk without a line break is one line. */
  lemma OneLineChunk(st: State, chunk: string, parse: string -> Option<string>)
    requires '\n' !in chunk
    ensures ChunkStep(st, chunk, parse) == LineStep(st, chunk, parse)
  {
    SplitWithout(chunk, '\n');
    LinesStepLast(st, [chunk], parse);
    assert [chunk][..0] == [];
  }

  /** A record whose payload has no line break is one line. */
  lemma RecordOneLine(x: string)
    requires '\n' !in x
    ensures '\n' !in DataPrefix + x
  {
  }

  /** One chunk, then two chunks, read in turn. */
  lemma OneChunk(c: string, parse: string -> Option<string>)
    ensures ChunksStep(Start, [c], parse) == ChunkStep(Start, c, parse)
  {
    assert [c][..0] == [];
  }

  lemma TwoChunks(c1: string, c2: string, parse: string -> Option<string>)
    ensures ChunksStep(Start, [c1, c2], parse) == ChunkStep(ChunkStep(Start, c1, parse), c2, parse)
  {
    OneChunk(c1, parse);
    assert [c1, c2][..1] == [c1];
  }

  /** As written, a record cut inside its line loses its content: read
      whole, `data: AB` yields the diagram text `X`; cut after `data: A`, it
      yields nothing. Read with line buffering, both cuttings yield `X`. */
  lemma MidLineCutLosesRecord()
    ensures ChunksStep(Start, [DataPrefix + "AB"], OnePayload).rawAll == "X"
    ensures ChunksStep(Start, [DataPrefix + "A", "B"], OnePayload).rawAll == ""
    ensures Transcript(OnePayload, Streamed([DataPrefix + "AB"], Completed)) == [Final("X")]
    ensures Transcript(OnePayload, Streamed([DataPrefix + "A", "B"], Completed)) == [Final("")]
    ensures BufferedRead([DataPrefix + "A", "B"], OnePayload).rawAll == "X"
  {
    WholeChunkRead();
    CutChunksRead();
    TrimUnchanged("X");
    assert FinalCode("", "X") == "X";
    assert FinalCode("", "") == "";
    BufferedWholeRecord();
  }

  /** The record in one chunk. */
  lemma WholeChunkRead()
    ensures ChunksStep(Start, [DataPrefix + "AB"], OnePayload) == State(Search, "X", "", "X", "", [])
  {
    var whole := DataPrefix + "AB";
    RecordOneLine("AB");
    OneChunk(whole, OnePayload);
    OneLineChunk(Start, whole, OnePayload);
    WholeRecordDelivered();
  }

  /** The record cut in two chunks inside its line. */
  lemma CutChunksRead()
    ensures ChunksStep(Start, [DataPrefix + "A", "B"], OnePayload) == Start.(dataBuffer := "A")
  {
    TwoChunks(DataPrefix + "A", "B", OnePayload);
    FirstChunkRead();
    SecondChunkRead();
  }

  lemma FirstChunkRead()
    ensures ChunkStep(Start, DataPrefix + "A", OnePayload) == Start.(dataBuffer := "A")
  {
    RecordOneLine("A");
    OneLineChunk(Start, DataPrefix + "A", OnePayload);
    FirstHalfCarried(Start);
  }

  lemma SecondChunkRead()
    ensures ChunkStep(Start.(dataBuffer := "A"), "B", OnePayload) == Start.(dataBuffer := "A")
  {
    OneLineChunk(Start.(dataBuffer := "A"), "B", OnePayload);
    SecondHalfSkipped(Start.(dataBuffer := "A"));
  }

  /** The carried half spoils the records after it: a whole record of the
      known payload arriving with a carry in front is parsed together with
      the carry, fails, and is carried in turn (or the carry dropped past
      10240 characters). A `[DONE]` payload, a later payload that makes it
      parse, or passing 10240 characters clears it. */
  lemma CarrySpoilsLaterRecord(carry: string, x: string)
    requires carry != "" && x == "AB"
    ensures DecodeLine(carry, DataPrefix + x, OnePayload)
            == Decoded(if |carry + x| > MaxCarry then "" else carry + x, "")
  {
    KnownPayload(x);
    RecordParsed(carry, x, OnePayload);
    assert |carry + x| > 2;
    assert OnePayload(carry + x) == None;
  }

  /** After the cut record, the same record sent whole in the next chunk is
      lost as well: nothing reaches `rawAll`, and the carry grows to `AAB`. */
  lemma LaterRecordLost()
    ensures ChunksStep(Start, [DataPrefix + "A", "B", DataPrefix + "AB"], OnePayload)
            == Start.(dataBuffer := "AAB")
  {
    var c := [DataPrefix + "A", "B", DataPrefix + "AB"];
    assert c[..2] == [DataPrefix + "A", "B"];
    CutChunksRead();
    var st := Start.(dataBuffer := "A");
    RecordOneLine("AB");
    OneLineChunk(st, DataPrefix + "AB", OnePayload);
    SpoiledRecord(st);
  }

  lemma SpoiledRecord(st: State)
    requires st.dataBuffer == "A"
    ensures LineStep(st, DataPrefix + "AB", OnePayload) == st.(dataBuffer := "AAB")
  {
    CarrySpoilsLaterRecord(st.dataBuffer, "AB");
    assert st.dataBuffer + "AB" == "AAB";
  }

  /** The cut record read with line buffering. */
  lemma BufferedWholeRecord()
    ensures BufferedRead([DataPrefix + "A", "B"], OnePayload).rawAll == "X"
  {
    var whole, first := DataPrefix + "AB", DataPrefix + "A";
    ConcatSmall(first, "B");
    assert first + "B" == whole;
    BufferedReadIgnoresCuts([first, "B"], OnePayload);
    OneLineChunk(Start, whole, OnePayload);
    WholeRecordDelivered();
  }
}
