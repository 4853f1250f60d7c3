/** Python's `json.dumps` for an object of string members, and a parser for the
    strings and objects of RFC 8259. */
module Json {
  import opened Wrappers
  import opened Utf16

  const HEX := "0123456789abcdef"

  function Hex4(u: Unit): string {
    [HEX[u / 4096], HEX[u / 256 % 16], HEX[u / 16 % 16], HEX[u % 16]]
  }

  /** The default `ensure_ascii` escaping, one UTF-16 unit at a time. */
  function Escape(u: Unit): string {
    if u == 0x22 then "\\\""
    else if u == 0x5C then "\\\\"
    else if u == 0x0A then "\\n"
    else if u == 0x0D then "\\r"
    else if u == 0x09 then "\\t"
    else if u == 0x0C then "\\f"
    else if u == 0x08 then "\\b"
    else if 0x20 <= u <= 0x7E then [u as char]
    else "\\u" + Hex4(u)
  }

  function EscapeAll(us: seq<Unit>): string {
    if |us| == 0 then "" else Escape(us[0]) + EscapeAll(us[1..])
  }

  function Quote(t: Text): string {
    "\"" + EscapeAll(Encode(t)) + "\""
  }

  function DumpMembers(ms: seq<(Text, Text)>): string
    requires |ms| > 0
  {
    var member := Quote(ms[0].0) + ": " + Quote(ms[0].1);
    if |ms| == 1 then member else member + ", " + DumpMembers(ms[1..])
  }

  function Dumps(ms: seq<(Text, Text)>): string {
    if |ms| == 0 then "{}" else "{" + DumpMembers(ms) + "}"
  }

  // ----------------------------------------------------------------- parsing

  function HexDigit(c: char): Option<int> {
    if '0' <= c <= '9' then Some(c as int - '0' as int)
    else if 'a' <= c <= 'f' then Some(c as int - 'a' as int + 10)
    else if 'A' <= c <= 'F' then Some(c as int - 'A' as int + 10)
    else None
  }

  function HexValue(w: string): (r: Option<Unit>)
    requires |w| == 4
  {
    var a, b, c, d := HexDigit(w[0]), HexDigit(w[1]), HexDigit(w[2]), HexDigit(w[3]);
    if a.Some? && b.Some? && c.Some? && d.Some?
    then
      var v := a.value * 4096 + b.value * 256 + c.value * 16 + d.value;
      if 0 <= v < 0x10000 then Some(v) else None
    else None
  }

  function ShortEscape(c: char): Option<Unit> {
    if c == '"' then Some(0x22)
    else if c == '\\' then Some(0x5C)
    else if c == '/' then Some(0x2F)
    else if c == 'b' then Some(0x08)
    else if c == 'f' then Some(0x0C)
    else if c == 'n' then Some(0x0A)
    else if c == 'r' then Some(0x0D)
    else if c == 't' then Some(0x09)
    else None
  }

  datatype Parsed<T> = Parsed(value: T, rest: string)

  /** One character of a string body: its units and what follows it. */
  function ParseChar(w: string): (r: Option<Parsed<seq<Unit>>>)
    ensures r.Some? ==> |r.value.rest| < |w|
  {
    if |w| == 0 || w[0] == '"' || w[0] < ' ' then None
    else if w[0] != '\\' then Some(Parsed(Units(w[0] as int), w[1..]))
    else if |w| >= 6 && w[1] == 'u' && HexValue(w[2..6]).Some? then Some(Parsed([HexValue(w[2..6]).value], w[6..]))
    else if |w| >= 2 && ShortEscape(w[1]).Some? then Some(Parsed([ShortEscape(w[1]).value], w[2..]))
    else None
  }

  /** A string body up to and including its closing quote. */
  function ParseBody(w: string): (r: Option<Parsed<seq<Unit>>>)
    ensures r.Some? ==> |r.value.rest| < |w|
    decreases |w|
  {
    if |w| > 0 && w[0] == '"' then Some(Parsed([], w[1..]))
    else match ParseChar(w)
      case None => None
      case Some(Parsed(us, rest)) =>
        match ParseBody(rest)
        case None => None
        case Some(Parsed(more, end)) => Some(Parsed(us + more, end))
  }

  function SkipSpace(w: string): (r: string)
    ensures |r| <= |w|
  {
    if |w| > 0 && w[0] in " \t\n\r" then SkipSpace(w[1..]) else w
  }

  /** Optional white space, then the given character. */
  function Expect(w: string, c: char): (r: Option<string>)
    ensures r.Some? ==> |r.value| < |w|
  {
    var v := SkipSpace(w);
    if |v| > 0 && v[0] == c then Some(v[1..]) else None
  }

  function ParseString(w: string): (r: Option<Parsed<seq<Unit>>>)
    ensures r.Some? ==> |r.value.rest| < |w|
  {
    match Expect(w, '"')
    case None => None
    case Some(body) => ParseBody(body)
  }

  type Member = (seq<Unit>, seq<Unit>)

  function ParseMember(w: string): (r: Option<Parsed<Member>>)
    ensures r.Some? ==> |r.value.rest| < |w|
  {
    match ParseString(w)
    case None => None
    case Some(Parsed(key, afterKey)) =>
      match Expect(afterKey, ':')
      case None => None
      case Some(afterColon) =>
        match ParseString(afterColon)
        case None => None
        case Some(Parsed(value, rest)) => Some(Parsed((key, value), rest))
  }

  /** Members up to and including the closing brace. */
  function ParseMembers(w: string): Option<Parsed<seq<Member>>>
    decreases |w|
  {
    match ParseMember(w)
    case None => None
    case Some(Parsed(m, rest)) =>
      if Expect(rest, '}').Some? then Some(Parsed([m], Expect(rest, '}').value))
      else match Expect(rest, ',')
        case None => None
        case Some(afterComma) =>
          match ParseMembers(afterComma)
          case None => None
          case Some(Parsed(ms, end)) => Some(Parsed([m] + ms, end))
  }

  function Loads(w: string): Option<seq<Member>> {
    match Expect(w, '{')
    case None => None
    case Some(body) =>
      if Expect(body, '}').Some?
      then (if SkipSpace(Expect(body, '}').value) == "" then Some([]) else None)
      else match ParseMembers(body)
        case None => None
        case Some(Parsed(ms, end)) => if SkipSpace(end) == "" then Some(ms) else None
  }

  // -------------------------------------------------------------- round trip

  lemma HexDigitBack(n: int)
    requires 0 <= n < 16
    ensures HexDigit(HEX[n]) == Some(n)
  {
  }

  lemma HexDigitsOf(u: Unit)
    ensures u == u / 4096 * 4096 + u / 256 % 16 * 256 + u / 16 % 16 * 16 + u % 16
  {
    assert u == u / 16 * 16 + u % 16;
    assert u / 16 == u / 256 * 16 + u / 16 % 16;
    assert u / 256 == u / 4096 * 16 + u / 256 % 16;
  }

  lemma HexBack(u: Unit)
    ensures HexValue(Hex4(u)) == Some(u)
  {
    hide HexDigit;
    HexDigitBack(u / 4096);
    HexDigitBack(u / 256 % 16);
    HexDigitBack(u / 16 % 16);
    HexDigitBack(u % 16);
    HexDigitsOf(u);
  }

  lemma EscapeParses(u: Unit, tail: string)
    ensures ParseChar(Escape(u) + tail) == Some(Parsed([u], tail))
  {
    var w := Escape(u) + tail;
    if |Escape(u)| == 6 {
      assert w[2..6] == Hex4(u);
      HexBack(u);
      assert w[6..] == tail;
    } else if |Escape(u)| == 2 {
      assert w[2..] == tail;
    } else {
      assert w[1..] == tail;
    }
  }

  lemma EscapeIsVisible(u: Unit)
    ensures |Escape(u)| > 0 && Escape(u)[0] != '"'
    ensures forall k :: 0 <= k < |Escape(u)| ==> ' ' <= Escape(u)[k] <= '~'
  {
    if u < 0x20 || u > 0x7E {
      Hex4IsVisible(u);
      hide Hex4;
    }
  }

  lemma Hex4IsVisible(u: Unit)
    ensures forall k :: 0 <= k < |Hex4(u)| ==> ' ' <= Hex4(u)[k] <= '~'
  {
    forall n | 0 <= n < 16 ensures ' ' <= HEX[n] <= '~' {
    }
  }

  lemma {:induction false} BodyRoundTrip(us: seq<Unit>, tail: string)
    ensures ParseBody(EscapeAll(us) + ("\"" + tail)) == Some(Parsed(us, tail))
  {
    hide ParseChar, Escape;
    if |us| == 0 {
      assert EscapeAll(us) + ("\"" + tail) == "\"" + tail;
      assert ("\"" + tail)[1..] == tail;
    } else {
      var rest := EscapeAll(us[1..]) + ("\"" + tail);
      BodyRoundTrip(us[1..], tail);
      EscapeParses(us[0], rest);
      EscapeIsVisible(us[0]);
      assert EscapeAll(us) + ("\"" + tail) == Escape(us[0]) + rest;
      assert us == [us[0]] + us[1..];
    }
  }

  /** White space in front of a token changes nothing. */
  lemma SpaceSkipped(w: string, c: char)
    ensures Expect(" " + w, c) == Expect(w, c)
    ensures |w| > 0 && w[0] == c && c !in " \t\n\r" ==> Expect(w, c) == Some(w[1..])
  {
    assert (" " + w)[1..] == w;
  }

  lemma StringRoundTrip(t: Text, tail: string)
    ensures ParseString(Quote(t) + tail) == Some(Parsed(Encode(t), tail))
  {
    hide ParseBody, EscapeAll, Encode;
    var body := EscapeAll(Encode(t)) + ("\"" + tail);
    assert Quote(t) + tail == "\"" + body;
    assert ("\"" + body)[1..] == body;
    BodyRoundTrip(Encode(t), tail);
  }

  lemma MemberRoundTrip(m: (Text, Text), tail: string)
    ensures ParseMember(Quote(m.0) + ": " + Quote(m.1) + tail) == Some(Parsed((Encode(m.0), Encode(m.1)), tail))
  {
    hide Quote, Encode, ParseString, Expect;
    var value := Quote(m.1) + tail;
    var colon := ":" + (" " + value);
    assert Quote(m.0) + ": " + Quote(m.1) + tail == Quote(m.0) + colon;
    StringRoundTrip(m.0, colon);
    assert colon[1..] == " " + value;
    SpaceSkipped(colon, ':');
    StringRoundTrip(m.1, tail);
    LeadingSpace(value);
  }

  lemma LeadingSpace(w: string)
    ensures ParseString(" " + w) == ParseString(w)
    ensures ParseMember(" " + w) == ParseMember(w)
    ensures ParseMembers(" " + w) == ParseMembers(w)
  {
    hide Expect;
    SpaceSkipped(w, '"');
  }

  function EncodeMembers(ms: seq<(Text, Text)>): seq<Member> {
    if |ms| == 0 then [] else [(Encode(ms[0].0), Encode(ms[0].1))] + EncodeMembers(ms[1..])
  }

  lemma {:induction false} MembersRoundTrip(ms: seq<(Text, Text)>)
    requires |ms| > 0
    ensures ParseMembers(DumpMembers(ms) + "}") == Some(Parsed(EncodeMembers(ms), ""))
  {
    hide Quote, Encode, ParseMember, Expect;
    var member := Quote(ms[0].0) + ": " + Quote(ms[0].1);
    if |ms| == 1 {
      MemberRoundTrip(ms[0], "}");
      SpaceSkipped("}", '}');
      assert "}"[1..] == "";
      assert EncodeMembers(ms) == [(Encode(ms[0].0), Encode(ms[0].1))];
    } else {
      var more := DumpMembers(ms[1..]) + "}";
      var comma := "," + (" " + more);
      assert DumpMembers(ms) + "}" == member + comma;
      MemberRoundTrip(ms[0], comma);
      assert comma[1..] == " " + more;
      SpaceSkipped(comma, ',');
      NoBraceBeforeComma(comma);
      MembersRoundTrip(ms[1..]);
      LeadingSpace(more);
    }
  }

  lemma NoBraceBeforeComma(w: string)
    requires |w| > 0 && w[0] == ','
    ensures Expect(w, '}') == None
  {
  }

  /** Parsing what was dumped gives the members back, as UTF-16. */
  lemma DumpsUnfold(ms: seq<(Text, Text)>)
    requires |ms| > 0
    ensures Expect(Dumps(ms), '{') == Some(DumpMembers(ms) + "}") && Expect(DumpMembers(ms) + "}", '}').None?
  {
    hide DumpMembers, Expect;
    DumpStartsQuoted(ms);
    Braces(DumpMembers(ms));
  }

  lemma Braces(m: string)
    requires |m| > 0 && m[0] == '"'
    ensures Expect("{" + m + "}", '{') == Some(m + "}") && Expect(m + "}", '}').None?
  {
    var w := "{" + m + "}";
    assert w[0] == '{' && w[1..] == m + "}" && (m + "}")[0] == '"';
  }

  lemma DumpStartsQuoted(ms: seq<(Text, Text)>)
    requires |ms| > 0
    ensures |DumpMembers(ms)| > 0 && DumpMembers(ms)[0] == '"'
  {
    hide EscapeAll, Encode;
  }

  lemma DumpsRoundTrip(ms: seq<(Text, Text)>)
    ensures Loads(Dumps(ms)) == Some(EncodeMembers(ms))
  {
    if |ms| > 0 {
      hide Dumps, ParseMembers, DumpMembers, Expect;
      DumpsUnfold(ms);
      MembersRoundTrip(ms);
    }
  }

  predicate Visible(w: string) {
    forall k :: 0 <= k < |w| ==> ' ' <= w[k] <= '~'
  }

  lemma {:induction false} EscapeAllVisible(us: seq<Unit>)
    ensures Visible(EscapeAll(us))
  {
    if |us| > 0 {
      EscapeIsVisible(us[0]);
      EscapeAllVisible(us[1..]);
    }
  }

  lemma QuoteVisible(t: Text)
    ensures Visible(Quote(t))
  {
    hide EscapeAll, Encode;
    EscapeAllVisible(Encode(t));
  }

  lemma {:induction false} DumpMembersVisible(ms: seq<(Text, Text)>)
    requires |ms| > 0
    ensures Visible(DumpMembers(ms))
  {
    hide Quote;
    QuoteVisible(ms[0].0);
    QuoteVisible(ms[0].1);
    var member := Quote(ms[0].0) + ": " + Quote(ms[0].1);
    assert Visible(member);
    if |ms| > 1 {
      DumpMembersVisible(ms[1..]);
      assert Visible(member + ", ");
      assert DumpMembers(ms) == (member + ", ") + DumpMembers(ms[1..]);
    }
  }

  /** A dumped object is printable ASCII, so it never contains a line break. */
  lemma DumpsVisible(ms: seq<(Text, Text)>)
    ensures Visible(Dumps(ms))
  {
    if |ms| > 0 {
      DumpMembersVisible(ms);
    }
  }
}
