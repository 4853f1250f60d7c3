/** Streaming an answer: slices of 50 characters, each a server-sent event
    holding one JSON object, and the client that puts the answer together again
    (section 9.2.6 of the WHATWG HTML Standard). */
module Sse {
  import opened Wrappers
  import opened Utf16
  import Json

  const CHUNK_SIZE := 50

  function Slices(t: Text): seq<Text>
    decreases |t|
  {
    if |t| == 0 then []
    else
      var n := if |t| < CHUNK_SIZE then |t| else CHUNK_SIZE;
      [t[..n]] + Slices(t[n..])
  }

  /** ASCII text as code points. */
  function Ascii(s: string): Text
    requires forall k :: 0 <= k < |s| ==> s[k] < 128 as char
  {
    seq(|s|, k requires 0 <= k < |s| => s[k] as int)
  }

  const TYPE: Text := Ascii("type")
  const CHUNK: Text := Ascii("chunk")
  const CONTENT: Text := Ascii("content")

  function ChunkPayload(token: Text): string {
    Json.Dumps([(TYPE, CHUNK), (CONTENT, token)])
  }

  function Frame(payload: string): string {
    "data: " + payload + "\n\n"
  }

  function Concat(parts: seq<string>): string {
    if |parts| == 0 then "" else parts[0] + Concat(parts[1..])
  }

  function ChunkPayloads(tokens: seq<Text>): seq<string> {
    if |tokens| == 0 then [] else [ChunkPayload(tokens[0])] + ChunkPayloads(tokens[1..])
  }

  function Frames(payloads: seq<string>): seq<string> {
    if |payloads| == 0 then [] else [Frame(payloads[0])] + Frames(payloads[1..])
  }

  /** The response loop: one event per slice of the answer. */
  method StreamAnswer(answer: Text) returns (frames: seq<string>)
    ensures frames == Frames(ChunkPayloads(Slices(answer)))
  {
    hide ChunkPayload, Frame;
    frames := [];
    var i := 0;
    while i < |answer|
      invariant 0 <= i
      invariant frames + Frames(ChunkPayloads(Slices(answer[if i < |answer| then i else |answer|..])))
                == Frames(ChunkPayloads(Slices(answer)))
    {
      var end := if i + CHUNK_SIZE < |answer| then i + CHUNK_SIZE else |answer|;
      var token := answer[i..end];
      ghost var rest := answer[i..];
      assert Slices(rest) == [token] + Slices(answer[end..]) by {
        assert rest[..end - i] == token && rest[end - i..] == answer[end..];
      }
      frames := frames + [Frame(ChunkPayload(token))];
      i := i + CHUNK_SIZE;
    }
  }

  // ------------------------------------------------------------- the receiver

  predicate IsBreak(c: char) {
    c == '\n' || c == '\r'
  }

  /** Position of the first line break, or the length. */
  function LineEnd(w: string): (k: nat)
    ensures k <= |w|
    ensures forall j :: 0 <= j < k ==> !IsBreak(w[j])
    ensures k < |w| ==> IsBreak(w[k])
  {
    if |w| == 0 || IsBreak(w[0]) then 0 else 1 + LineEnd(w[1..])
  }

  /** The complete lines of a stream; LF, CR and CR LF all end a line. */
  function Lines(w: string): seq<string>
    decreases |w|
  {
    var k := LineEnd(w);
    if k == |w| then []
    else
      var skip := if w[k] == '\r' && k + 1 < |w| && w[k + 1] == '\n' then 2 else 1;
      [w[..k]] + Lines(w[k + skip..])
  }

  function FieldEnd(line: string): (k: nat)
    ensures k <= |line|
  {
    if |line| == 0 || line[0] == ':' then 0 else 1 + FieldEnd(line[1..])
  }

  /** What follows the colon, without one leading space. */
  function FieldValue(line: string): string {
    var k := FieldEnd(line);
    if k == |line| then ""
    else if k + 1 < |line| && line[k + 1] == ' ' then line[k + 2..]
    else line[k + 1..]
  }

  datatype Message = Message(event: string, data: string)

  /** The event stream interpretation: `data` and `event` are the two buffers. */
  function Interpret(lines: seq<string>, data: string, event: string): seq<Message> {
    if |lines| == 0 then []
    else
      var line := lines[0];
      if |line| == 0 then
        (if |data| == 0 then []
         else [Message(if event == "" then "message" else event,
                       if data[|data| - 1] == '\n' then data[..|data| - 1] else data)])
        + Interpret(lines[1..], "", "")
      else
        var field := line[..FieldEnd(line)];
        if field == "data" then Interpret(lines[1..], data + FieldValue(line) + "\n", event)
        else if field == "event" then Interpret(lines[1..], data, FieldValue(line))
        else Interpret(lines[1..], data, event)
  }

  function Receive(stream: string): seq<Message> {
    Interpret(Lines(stream), "", "")
  }

  /** The value of the last member with the given key. */
  function Lookup(ms: seq<Json.Member>, key: seq<Unit>): Option<seq<Unit>> {
    if |ms| == 0 then None
    else if ms[|ms| - 1].0 == key then Some(ms[|ms| - 1].1)
    else Lookup(ms[..|ms| - 1], key)
  }

  /** What a message adds to the answer: the content of a chunk, else nothing. */
  function ChunkContent(m: Message): seq<Unit> {
    match Json.Loads(m.data)
    case None => []
    case Some(ms) =>
      if Lookup(ms, Encode(TYPE)) == Some(Encode(CHUNK)) && Lookup(ms, Encode(CONTENT)).Some?
      then Lookup(ms, Encode(CONTENT)).value else []
  }

  function Assemble(messages: seq<Message>): seq<Unit> {
    if |messages| == 0 then [] else ChunkContent(messages[0]) + Assemble(messages[1..])
  }

  // -------------------------------------------------------------- round trips

  /** Every slice is non-empty and at most 50 long, and together they are the answer. */
  lemma {:induction false} SlicesPartition(t: Text)
    ensures forall k :: 0 <= k < |Slices(t)| ==> 0 < |Slices(t)[k]| <= CHUNK_SIZE
    ensures Flatten(Slices(t)) == t
    ensures |Slices(t)| == (|t| + CHUNK_SIZE - 1) / CHUNK_SIZE
    decreases |t|
  {
    if |t| > 0 {
      var n := if |t| < CHUNK_SIZE then |t| else CHUNK_SIZE;
      SlicesPartition(t[n..]);
      assert t == t[..n] + t[n..];
    }
  }

  function Flatten(ts: seq<Text>): Text {
    if |ts| == 0 then [] else ts[0] + Flatten(ts[1..])
  }

  lemma {:induction false} LineEndOf(line: string, rest: string)
    requires forall k :: 0 <= k < |line| ==> !IsBreak(line[k])
    ensures LineEnd(line + ("\n" + rest)) == |line|
  {
    if |line| > 0 {
      LineEndOf(line[1..], rest);
      assert (line + ("\n" + rest))[1..] == line[1..] + ("\n" + rest);
    }
  }

  lemma LinesOf(line: string, rest: string)
    requires forall k :: 0 <= k < |line| ==> !IsBreak(line[k])
    ensures Lines(line + ("\n" + rest)) == [line] + Lines(rest)
  {
    LineEndOf(line, rest);
    var w := line + ("\n" + rest);
    assert w[..|line|] == line && w[|line| + 1..] == rest;
  }

  lemma DataLine(payload: string)
    ensures var line := "data: " + payload;
            line[..FieldEnd(line)] == "data" && FieldValue(line) == payload
  {
    var line := "data: " + payload;
    assert FieldEnd(line) == 4 by {
      var a := line[1..];
      var b := a[1..];
      var c := b[1..];
      var d := c[1..];
      assert a[0] == 'a' && b[0] == 't' && c[0] == 'a' && d[0] == ':';
      assert FieldEnd(d) == 0 && FieldEnd(c) == 1 && FieldEnd(b) == 2 && FieldEnd(a) == 3;
    }
    assert line[6..] == payload;
  }

  predicate OneLine(payload: string) {
    forall k :: 0 <= k < |payload| ==> !IsBreak(payload[k])
  }

  lemma InterpretData(line: string, lines: seq<string>, data: string, event: string)
    requires |line| > 0 && line[..FieldEnd(line)] == "data"
    ensures Interpret([line] + lines, data, event) == Interpret(lines, data + FieldValue(line) + "\n", event)
  {
    hide FieldEnd, FieldValue;
    assert ([line] + lines)[1..] == lines;
  }

  lemma InterpretBlank(lines: seq<string>, payload: string)
    ensures Interpret([""] + lines, payload + "\n", "") == [Message("message", payload)] + Interpret(lines, "", "")
  {
    var data := payload + "\n";
    assert ([""] + lines)[1..] == lines;
    assert data[..|data| - 1] == payload;
  }

  /** Any payload without line breaks arrives as one message, whatever follows. */
  lemma FrameReceived(payload: string, rest: string)
    requires OneLine(payload)
    ensures Receive(Frame(payload) + rest) == [Message("message", payload)] + Receive(rest)
  {
    hide Lines, Interpret, FieldEnd, FieldValue;
    var line := "data: " + payload;
    var lines := Lines(rest);
    assert Lines("\n" + rest) == [""] + lines by {
      LinesOf("", rest);
      assert "" + ("\n" + rest) == "\n" + rest;
    }
    assert Lines(Frame(payload) + rest) == [line] + ([""] + lines) by {
      LinesOf(line, "\n" + rest);
      assert Frame(payload) + rest == line + ("\n" + ("\n" + rest));
    }
    DataLine(payload);
    InterpretData(line, [""] + lines, "", "");
    assert "" + payload + "\n" == payload + "\n";
    InterpretBlank(lines, payload);
  }

  function Messages(payloads: seq<string>): seq<Message> {
    if |payloads| == 0 then [] else [Message("message", payloads[0])] + Messages(payloads[1..])
  }

  /** A stream of framed one-line payloads decodes to exactly those payloads. */
  lemma {:induction false} StreamReceived(payloads: seq<string>)
    requires forall k :: 0 <= k < |payloads| ==> OneLine(payloads[k])
    ensures Receive(Concat(Frames(payloads))) == Messages(payloads)
  {
    if |payloads| > 0 {
      StreamReceived(payloads[1..]);
      FrameReceived(payloads[0], Concat(Frames(payloads[1..])));
      assert Frames(payloads)[1..] == Frames(payloads[1..]);
    }
  }

  lemma ChunkOneLine(token: Text)
    ensures OneLine(ChunkPayload(token))
  {
    Json.DumpsVisible([(TYPE, CHUNK), (CONTENT, token)]);
  }

  lemma KeysDiffer()
    ensures Encode(TYPE) != Encode(CONTENT)
  {
    EncodeAscii(TYPE);
    EncodeAscii(CONTENT);
  }

  lemma ChunkRead(token: Text)
    ensures ChunkContent(Message("message", ChunkPayload(token))) == Encode(token)
  {
    hide Json.Loads, Json.Dumps, Encode;
    var ms := [(TYPE, CHUNK), (CONTENT, token)];
    Json.DumpsRoundTrip(ms);
    var read := Json.EncodeMembers(ms);
    assert read == [(Encode(TYPE), Encode(CHUNK)), (Encode(CONTENT), Encode(token))] by {
      assert Json.EncodeMembers(ms[1..]) == [(Encode(CONTENT), Encode(token))];
    }
    KeysDiffer();
    assert Lookup(read[..1], Encode(TYPE)) == Some(Encode(CHUNK));
  }

  /** A text below U+10000 is its own UTF-16. */
  lemma {:induction false} EncodeAscii(t: Text)
    requires forall k :: 0 <= k < |t| ==> t[k] < 0x10000
    ensures |Encode(t)| == |t| && forall k :: 0 <= k < |t| ==> Encode(t)[k] == t[k]
  {
    if |t| > 0 {
      EncodeAscii(t[1..]);
    }
  }

  lemma {:induction false} TokensAssemble(tokens: seq<Text>)
    ensures |ChunkPayloads(tokens)| == |tokens|
    ensures forall k :: 0 <= k < |tokens| ==> OneLine(ChunkPayloads(tokens)[k])
    ensures Assemble(Messages(ChunkPayloads(tokens))) == Encode(Flatten(tokens))
  {
    hide ChunkContent, ChunkPayload, OneLine;
    if |tokens| > 0 {
      TokensAssemble(tokens[1..]);
      ChunkOneLine(tokens[0]);
      ChunkRead(tokens[0]);
      EncodeConcat(tokens[0], Flatten(tokens[1..]));
      assert ChunkPayloads(tokens)[1..] == ChunkPayloads(tokens[1..]);
    }
  }

  /** Slicing, escaping, framing, receiving, parsing and joining give back the UTF-16 of
      every answer, and the answer itself exactly when it holds no split pair. */
  lemma AnswerRoundTrip(answer: Text)
    ensures Assemble(Receive(Concat(Frames(ChunkPayloads(Slices(answer)))))) == Encode(answer)
    ensures Decode(Assemble(Receive(Concat(Frames(ChunkPayloads(Slices(answer))))))) == answer <==>
            !HasSplitPair(answer)
  {
    var tokens := Slices(answer);
    SlicesPartition(answer);
    TokensAssemble(tokens);
    StreamReceived(ChunkPayloads(tokens));
    DecodesExactlyWhen(answer);
  }
}
