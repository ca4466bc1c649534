/** The frame decoder of app/api/generate-mermaid/route.js: it picks the
    `data: ` records out of the upstream event stream, skips blank and `[DONE]`
    payloads, and carries a payload that does not parse yet over to the next
    record, dropping the carry once it grows past 10240 characters.

    `JSON.parse` followed by `parsed.choices[0]?.delta?.content || ''` is the
    parameter `parse`: `None` when either throws (a syntax error, or a
    TypeError on a value without `choices`), else `Some` of the content, with
    the empty string for a missing or falsy content. */
module FrameDecoder {
  import opened Wrappers
  import opened Strings

  /** The largest carry kept between records. */
  const MaxCarry: nat := 10240

  /** The record prefix of the upstream event stream. */
  const DataPrefix: string := "data: "

  /** The stream-end sentinel payload. */
  const DoneSentinel: string := "[DONE]"

  /** The payload of one record: the trimmed text after `data: ` when the
      trimmed record starts with it (route.js:171-179). */
  function Payload(line: string): Option<string>
  {
    var trimmed := Trim(line);
    if trimmed != "" && StartsWith(trimmed, DataPrefix) then Some(Trim(trimmed[6..])) else None
  }

  /** A payload is never empty: the trimmed record ends in a non-space
      character after the space of `data: `, so the `!data` test of the read
      loop (route.js:182) never holds and only `[DONE]` clears the carry there. */
  lemma PayloadNeverEmpty(line: string)
    ensures Payload(line).Some? ==> Payload(line).value != ""
  {
    var t := Trim(line);
    if t != "" && StartsWith(t, DataPrefix) {
      TrimEnds(line);
      assert t[5] == ' ' && !IsSpace(t[|t| - 1]);
      var x := t[6..];
      assert x != [] && x[|x| - 1] == t[|t| - 1];
      BlankTrimsEmpty(x);
    }
  }

  /** Only a string of whitespace trims to nothing. */
  lemma BlankTrimsEmpty(x: string)
    requires x != [] && !IsSpace(x[|x| - 1])
    ensures Trim(x) != ""
  {
    var i, j := TrimBounds(x);
  }

  /** The carry left after one record and the content it delivers (empty
      when it delivers none). */
  datatype Decoded = Decoded(carry: string, delta: string)

  /** One record through the decoder (route.js:170-215). */
  function DecodeLine(carry: string, line: string, parse: string -> Option<string>): Decoded
  {
    match Payload(line)
    case None => Decoded(carry, "")
    case Some(data) =>
      if data == "" || data == DoneSentinel then Decoded("", "")
      else
        var json := carry + data;
        match parse(json)
        case Some(content) => Decoded("", content)
        case None => Decoded(if |json| > MaxCarry then "" else json, "")
  }

  /** The carry policy, case by case: untouched by a record that is not a
      `data: ` record, cleared by an empty or `[DONE]` payload and by a
      successful parse, and after a failed parse the old carry plus the
      payload, or nothing when that is longer than 10240 characters. */
  lemma CarryPolicy(carry: string, line: string, parse: string -> Option<string>)
    ensures var d := DecodeLine(carry, line, parse);
            match Payload(line)
            case None => d == Decoded(carry, "")
            case Some(data) =>
              if data == "" || data == DoneSentinel then d == Decoded("", "")
              else if parse(carry + data).Some? then d == Decoded("", parse(carry + data).value)
              else d.delta == "" && d.carry == (if |carry + data| > MaxCarry then "" else carry + data)
  {
  }

  /** The carry is bounded: after any `data: ` record it is at most 10240
      characters long, and a record that is not one leaves it as it was. */
  lemma CarryBounded(carry: string, line: string, parse: string -> Option<string>)
    ensures Payload(line).Some? ==> |DecodeLine(carry, line, parse).carry| <= MaxCarry
    ensures Payload(line).None? ==> DecodeLine(carry, line, parse).carry == carry
  {
  }

  /** Records decoded in order: the final carry and the non-empty contents
      delivered, in order. */
  datatype DecodedLines = DecodedLines(carry: string, deltas: seq<string>)

  function DecodeLines(carry: string, lines: seq<string>, parse: string -> Option<string>): DecodedLines
  {
    if lines == [] then DecodedLines(carry, [])
    else
      var prev := DecodeLines(carry, lines[..|lines| - 1], parse);
      var d := DecodeLine(prev.carry, lines[|lines| - 1], parse);
      DecodedLines(d.carry, prev.deltas + if d.delta == "" then [] else [d.delta])
  }

  /** Over any run of records, every delivered content is non-empty and the
      carry stays within 10240 characters when it started there. */
  lemma {:induction false} DecodeLinesInvariant(carry: string, lines: seq<string>, parse: string -> Option<string>)
    requires |carry| <= MaxCarry
    ensures |DecodeLines(carry, lines, parse).carry| <= MaxCarry
    ensures forall k :: 0 <= k < |DecodeLines(carry, lines, parse).deltas| ==>
              DecodeLines(carry, lines, parse).deltas[k] != ""
  {
    if lines != [] {
      DecodeLinesInvariant(carry, lines[..|lines| - 1], parse);
      var prev := DecodeLines(carry, lines[..|lines| - 1], parse);
      CarryBounded(prev.carry, lines[|lines| - 1], parse);
    }
  }

  /** A `data: ` record whose payload `x` is trimmed, non-empty and not
      the sentinel goes to the parser appended to the carry. */
  lemma RecordParsed(carry: string, x: string, parse: string -> Option<string>)
    requires x != "" && Trim(x) == x && x != DoneSentinel
    ensures var d := DecodeLine(carry, DataPrefix + x, parse);
            match parse(carry + x)
            case Some(content) => d == Decoded("", content)
            case None => d == Decoded(if |carry + x| > MaxCarry then "" else carry + x, "")
  {
    PayloadOfRecord(x);
  }

  /** Split-payload recovery: a payload cut in two records, whose first half
      does not parse and whose halves together do, delivers its content once
      the second half arrives, and leaves no carry. */
  lemma SplitPayloadRecovered(x: string, y: string, parse: string -> Option<string>)
    requires x != "" && y != "" && Trim(x) == x && Trim(y) == y
    requires x != DoneSentinel && y != DoneSentinel && |x| <= MaxCarry
    requires parse(x).None? && parse(x + y).Some?
    ensures var r := DecodeLines("", [DataPrefix + x, DataPrefix + y], parse);
            r.carry == "" && r.deltas == (if parse(x + y).value == "" then [] else [parse(x + y).value])
  {
    PrependEmpty("", x);
    RecordParsed("", x, parse);
    RecordParsed(x, y, parse);
    TwoRecords(DataPrefix + x, DataPrefix + y, parse);
  }

  /** The 10240-character cap loses split payloads: a first half longer than
      the cap that does not parse is dropped, so the second half is parsed on
      its own, and the content of the two halves together is never delivered. */
  lemma OversizedHalfLost(x: string, y: string, parse: string -> Option<string>)
    requires x != "" && y != "" && Trim(x) == x && Trim(y) == y
    requires x != DoneSentinel && y != DoneSentinel && |x| > MaxCarry
    requires parse(x).None? && parse(y).None? && parse(x + y).Some?
    ensures var r := DecodeLines("", [DataPrefix + x, DataPrefix + y], parse);
            r.deltas == [] && r.carry == (if |y| > MaxCarry then "" else y)
  {
    FailedFromEmpty(x, parse);
    FailedFromEmpty(y, parse);
    TwoRecords(DataPrefix + x, DataPrefix + y, parse);
  }

  /** From an empty carry, a record whose payload does not parse delivers
      nothing and is carried, unless it is longer than the cap. */
  lemma FailedFromEmpty(x: string, parse: string -> Option<string>)
    requires x != "" && Trim(x) == x && x != DoneSentinel && parse(x).None?
    ensures DecodeLine("", DataPrefix + x, parse) == Decoded(if |x| > MaxCarry then "" else x, "")
  {
    PrependEmpty("", x);
    RecordParsed("", x, parse);
  }

  /** Two records decoded in turn. */
  lemma TwoRecords(l1: string, l2: string, parse: string -> Option<string>)
    ensures var d1 := DecodeLine("", l1, parse);
            var d2 := DecodeLine(d1.carry, l2, parse);
            DecodeLines("", [l1, l2], parse)
            == DecodedLines(d2.carry, (if d1.delta == "" then [] else [d1.delta])
                                      + (if d2.delta == "" then [] else [d2.delta]))
  {
    OneRecord("", l1, parse);
    NextRecord("", [l1], l2, parse);
    assert [l1] + [l2] == [l1, l2];
  }

  /** One record decoded on its own. */
  lemma OneRecord(carry: string, l: string, parse: string -> Option<string>)
    ensures var d := DecodeLine(carry, l, parse);
            DecodeLines(carry, [l], parse) == DecodedLines(d.carry, if d.delta == "" then [] else [d.delta])
  {
    assert [l][..0] == [];
  }

  /** A record decoded after a run of others. */
  lemma NextRecord(carry: string, lines: seq<string>, l: string, parse: string -> Option<string>)
    ensures var prev := DecodeLines(carry, lines, parse);
            var d := DecodeLine(prev.carry, l, parse);
            DecodeLines(carry, lines + [l], parse)
            == DecodedLines(d.carry, prev.deltas + if d.delta == "" then [] else [d.delta])
  {
    assert (lines + [l])[..|lines|] == lines;
  }

  /** `data: x` with a trimmed, non-empty `x` carries the payload `x`. */
  lemma PayloadOfRecord(x: string)
    requires x != "" && Trim(x) == x
    ensures Payload(DataPrefix + x) == Some(x)
  {
    var line := DataPrefix + x;
    Halves(DataPrefix, x);
    RecordTrimmed(x);
    PayloadOfTrimmed(line, x);
  }

  /** A trimmed record's payload is the text after the prefix. */
  lemma PayloadOfTrimmed(line: string, x: string)
    requires line != "" && Trim(line) == line && StartsWith(line, DataPrefix)
    requires line[|DataPrefix|..] == x && Trim(x) == x
    ensures Payload(line) == Some(x)
  {
  }

  /** A record whose payload has no trailing whitespace is trimmed. */
  lemma RecordTrimmed(x: string)
    requires x != "" && Trim(x) == x
    ensures Trim(DataPrefix + x) == DataPrefix + x
  {
    var line := DataPrefix + x;
    assert !IsSpace(x[|x| - 1]) by { TrimEnds(x); }
    assert line[0] == 'd' && line[|line| - 1] == x[|x| - 1];
    TrimUnchanged(line);
  }

  /** With a parser that accepts nothing, nothing is ever delivered and
      the carry never grows past the limit: however many records arrive, it
      stays within 10240 characters. */
  lemma {:induction false} UnparsableIsDropped(carry: string, lines: seq<string>, parse: string -> Option<string>)
    requires |carry| <= MaxCarry
    requires forall s :: parse(s).None?
    ensures |DecodeLines(carry, lines, parse).carry| <= MaxCarry
    ensures DecodeLines(carry, lines, parse).deltas == []
  {
    if lines != [] {
      var init, last := lines[..|lines| - 1], lines[|lines| - 1];
      UnparsableIsDropped(carry, init, parse);
      var prev := DecodeLines(carry, init, parse);
      CarryBounded(prev.carry, last, parse);
      NothingDelivered(prev.carry, last, parse);
    }
  }

  /** A line shorter than the prefix is not a record: it is skipped and
      the carry kept. */
  lemma ShortLineIgnored(carry: string, line: string, parse: string -> Option<string>)
    requires |line| < |DataPrefix|
    ensures DecodeLine(carry, line, parse) == Decoded(carry, "")
  {
    assert |Trim(line)| <= |line|;
  }

  /** A record whose payload never parses delivers nothing. */
  lemma NothingDelivered(carry: string, line: string, parse: string -> Option<string>)
    requires forall s :: parse(s).None?
    ensures DecodeLine(carry, line, parse).delta == ""
  {
  }
}
