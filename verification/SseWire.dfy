/** The bytes of the streamed answer, written out. */
module SseWire {
  import opened Wrappers
  import opened Utf16
  import Json
  import opened Sse

  /** Position `k` of the answer in slices of 50 characters. */
  function SliceAt(answer: Text, k: nat): Text
    requires k * 50 < |answer|
  {
    answer[k * 50..if (k + 1) * 50 < |answer| then (k + 1) * 50 else |answer|]
  }

  lemma {:induction false} SlicesAt(answer: Text, k: nat)
    requires k * 50 < |answer|
    ensures k < |Slices(answer)| && Slices(answer)[k] == SliceAt(answer, k)
    decreases k
  {
    if k > 0 {
      var rest := answer[50..];
      SlicesAt(rest, k - 1);
      assert Slices(answer) == [answer[..50]] + Slices(rest);
      assert SliceAt(rest, k - 1) == SliceAt(answer, k);
    }
  }

  lemma {:induction false} FramesAt(tokens: seq<Text>, k: nat)
    requires k < |tokens|
    ensures |Frames(ChunkPayloads(tokens))| == |tokens|
    ensures Frames(ChunkPayloads(tokens))[k] == Frame(ChunkPayload(tokens[k]))
  {
    hide Frame, ChunkPayload;
    FrameCount(tokens);
    if k > 0 {
      FramesAt(tokens[1..], k - 1);
      assert ChunkPayloads(tokens)[1..] == ChunkPayloads(tokens[1..]);
    }
  }

  lemma {:induction false} FrameCount(tokens: seq<Text>)
    ensures |Frames(ChunkPayloads(tokens))| == |tokens|
  {
    hide Frame, ChunkPayload;
    if |tokens| > 0 {
      FrameCount(tokens[1..]);
      assert ChunkPayloads(tokens)[1..] == ChunkPayloads(tokens[1..]);
    }
  }

  lemma {:induction false} AsciiEscapes(s: string)
    requires forall k :: 0 <= k < |s| ==> 'a' <= s[k] <= 'z'
    ensures Json.EscapeAll(Encode(Ascii(s))) == s
  {
    if |s| > 0 {
      AsciiEscapes(s[1..]);
      assert Ascii(s)[1..] == Ascii(s[1..]);
      assert s == [s[0]] + s[1..];
    }
  }

  lemma QuotedAscii(s: string)
    requires forall k :: 0 <= k < |s| ==> 'a' <= s[k] <= 'z'
    ensures Json.Quote(Ascii(s)) == "\"" + s + "\""
  {
    AsciiEscapes(s);
  }

  lemma TwoMembers(a: Text, b: Text, c: Text, d: Text)
    ensures Json.Dumps([(a, b), (c, d)])
         == "{" + (Json.Quote(a) + ": " + Json.Quote(b) + ", " + (Json.Quote(c) + ": " + Json.Quote(d))) + "}"
  {
    hide Json.Quote;
    var ms := [(a, b), (c, d)];
    assert ms[1..] == [(c, d)];
    assert Json.DumpMembers([(c, d)]) == Json.Quote(c) + ": " + Json.Quote(d);
  }

  lemma PayloadText(token: Text)
    ensures ChunkPayload(token)
         == "{\"type\": \"chunk\", \"content\": \"" + Json.EscapeAll(Encode(token)) + "\"}"
  {
    hide Json.EscapeAll, Encode, Json.Dumps;
    TwoMembers(TYPE, CHUNK, CONTENT, token);
    QuotedAscii("type");
    QuotedAscii("chunk");
    QuotedAscii("content");
    var e := Json.EscapeAll(Encode(token));
    assert Json.Quote(token) == "\"" + e + "\"";
    hide Json.Quote, Ascii;
    var quote := "\"";
    Reassociate("{", quote + "type" + quote, ": ", quote + "chunk" + quote, ", ", quote + "content" + quote, quote, e,
                "}");
    PayloadStart();
    assert quote + "}" == "\"}";
  }

  lemma Reassociate(
        open: string, a: string, colon: string, b: string, comma: string, c: string, quote: string, e: string,
        close: string)
    ensures open + (a + colon + b + comma + (c + colon + (quote + e + quote))) + close
         == (open + a + colon + b + comma + c + colon + quote) + e + (quote + close)
  {
  }

  lemma PayloadStart()
    ensures "{" + ("\"" + "type" + "\"") + ": " + ("\"" + "chunk" + "\"") + ", " + ("\"" + "content" + "\"")
            + ": " + "\""
         == "{\"type\": \"chunk\", \"content\": \""
  {
  }

  /** Every event of the stream, as text: one for each slice of 50 characters. */
  lemma FrameText(answer: Text, k: nat)
    requires k * 50 < |answer|
    ensures var frames := Frames(ChunkPayloads(Slices(answer)));
            && k < |frames| == (|answer| + 49) / 50
            && frames[k] == "data: {\"type\": \"chunk\", \"content\": \""
                            + Json.EscapeAll(Encode(SliceAt(answer, k))) + "\"}\n\n"
  {
    hide ChunkPayload, Slices, Frame, Frames, ChunkPayloads, Json.EscapeAll, Encode;
    SlicesPartition(answer);
    SlicesAt(answer, k);
    FramesAt(Slices(answer), k);
    PayloadText(SliceAt(answer, k));
    Framed("{\"type\": \"chunk\", \"content\": \"", Json.EscapeAll(Encode(SliceAt(answer, k))), "\"}");
    FrameStart();
  }

  lemma Framed(start: string, e: string, end: string)
    ensures Frame(start + e + end) == ("data: " + start) + e + (end + "\n\n")
  {
  }

  lemma FrameStart()
    ensures "data: " + "{\"type\": \"chunk\", \"content\": \"" == "data: {\"type\": \"chunk\", \"content\": \""
    ensures "\"}" + "\n\n" == "\"}\n\n"
  {
  }

  /** The value of a lower-case hexadecimal digit. */
  function DigitValue(c: char): int {
    if '0' <= c <= '9' then c as int - '0' as int else if 'a' <= c <= 'f' then c as int - 'a' as int + 10 else 0x10000
  }

  /** How one UTF-16 unit is written: printable ASCII as itself, with a backslash before a
      quote and a backslash; five control characters as a letter; all else in four digits. */
  lemma EscapeIs(u: Unit)
    ensures 0x20 <= u <= 0x7E && u != '"' as int && u != '\\' as int ==> Json.Escape(u) == [u as char]
    ensures u == '"' as int || u == '\\' as int ==> Json.Escape(u) == ['\\', u as char]
    ensures u in {8, 9, 10, 12, 13} ==>
              Json.Escape(u) == ['\\', if u == 8 then 'b' else if u == 9 then 't' else if u == 10 then 'n'
                                       else if u == 12 then 'f' else 'r']
    ensures (u < 0x20 && u !in {8, 9, 10, 12, 13}) || u > 0x7E ==>
              var w := Json.Escape(u);
              && |w| == 6 && w[0] == '\\' && w[1] == 'u'
              && DigitValue(w[2]) * 4096 + DigitValue(w[3]) * 256 + DigitValue(w[4]) * 16 + DigitValue(w[5]) == u
  {
    if (u < 0x20 && u !in {8, 9, 10, 12, 13}) || u > 0x7E {
      HexIs(u);
    }
  }

  lemma HexDigits(d: nat)
    requires d < 16
    ensures DigitValue(Json.HEX[d]) == d
  {
  }

  lemma HexIs(u: Unit)
    ensures var w := Json.Hex4(u);
            |w| == 4
            && DigitValue(w[0]) * 4096 + DigitValue(w[1]) * 256 + DigitValue(w[2]) * 16 + DigitValue(w[3]) == u
  {
    HexDigits(u / 4096);
    HexDigits(u / 256 % 16);
    HexDigits(u / 16 % 16);
    HexDigits(u % 16);
    assert u / 256 / 16 == u / 4096 && u / 16 / 16 == u / 256;
    hide DigitValue;
  }

  // --------------------------------------------------------------- how a reader reads

  /** A line feed, a carriage return or both end one line. */
  lemma AnyBreakEndsALine(line: string, brk: string, rest: string)
    requires forall k :: 0 <= k < |line| ==> line[k] != '\n' && line[k] != '\r'
    requires brk == "\n" || brk == "\r\n" || (brk == "\r" && (rest == "" || rest[0] != '\n'))
    ensures Lines(line + (brk + rest)) == [line] + Lines(rest)
  {
    var w := line + (brk + rest);
    assert w[|line|] == brk[0];
    assert forall k :: 0 <= k < |line| ==> w[k] == line[k];
    assert LineEnd(w) == |line|;
    assert w[..|line|] == line && w[|line| + |brk|..] == rest;
    assert |line| + 1 < |w| ==> w[|line| + 1] == (brk + rest)[1];
  }

  /** A line is a field name, a colon and the value, without one leading space. */
  lemma {:induction false} FieldIs(name: string, value: string)
    requires ':' !in name
    ensures var line := name + (":" + value);
            && line[..FieldEnd(line)] == name
            && FieldValue(line) == if value != "" && value[0] == ' ' then value[1..] else value
  {
    var line := name + (":" + value);
    FieldEnds(name, value);
    assert line[..|name|] == name && line[|name| + 1..] == value;
    if value != "" {
      assert line[|name| + 1] == value[0] && line[|name| + 2..] == value[1..];
    }
  }

  lemma {:induction false} FieldEnds(name: string, value: string)
    requires ':' !in name
    ensures FieldEnd(name + (":" + value)) == |name|
  {
    if |name| > 0 {
      assert (name + (":" + value))[1..] == name[1..] + (":" + value);
      FieldEnds(name[1..], value);
    }
  }

  /** `data` adds a line to the data, `event` names the event, other fields do nothing. */
  lemma FieldsAre(line: string, lines: seq<string>, data: string, event: string)
    requires |line| > 0
    ensures var field := line[..FieldEnd(line)];
            Interpret([line] + lines, data, event)
            == Interpret(lines, if field == "data" then data + FieldValue(line) + "\n" else data,
                         if field == "event" then FieldValue(line) else event)
  {
    hide FieldEnd, FieldValue;
    assert ([line] + lines)[1..] == lines;
  }
}
