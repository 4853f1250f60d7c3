/** Python text is a sequence of code points; a browser sees UTF-16 code units. */
module Utf16 {
  type CodePoint = x: int | 0 <= x < 0x110000
  type Unit = x: int | 0 <= x < 0x10000
  type Text = seq<CodePoint>

  predicate High(x: int) {
    0xD800 <= x < 0xDC00
  }

  predicate Low(x: int) {
    0xDC00 <= x < 0xE000
  }

  function Units(c: CodePoint): seq<Unit> {
    if c < 0x10000 then [c]
    else [0xD800 + (c - 0x10000) / 0x400, 0xDC00 + (c - 0x10000) % 0x400]
  }

  function Pair(high: int, low: int): int {
    0x10000 + (high - 0xD800) * 0x400 + (low - 0xDC00)
  }

  function Encode(t: Text): seq<Unit> {
    if |t| == 0 then [] else Units(t[0]) + Encode(t[1..])
  }

  function Decode(u: seq<Unit>): Text
    decreases |u|
  {
    if |u| == 0 then []
    else if |u| > 1 && High(u[0]) && Low(u[1])
    then [Pair(u[0], u[1])] + Decode(u[2..])
    else [u[0]] + Decode(u[1..])
  }

  /** Two separate code points that UTF-16 reads as one. */
  predicate HasSplitPair(t: Text) {
    exists k :: 0 <= k < |t| - 1 && High(t[k]) && Low(t[k + 1])
  }

  lemma {:induction false} EncodeConcat(a: Text, b: Text)
    ensures Encode(a + b) == Encode(a) + Encode(b)
  {
    hide Units;
    if |a| == 0 {
      assert a + b == b;
    } else {
      assert (a + b)[0] == a[0] && (a + b)[1..] == a[1..] + b;
      EncodeConcat(a[1..], b);
    }
  }

  /** The first unit of a text is a low surrogate only if its first code point is. */
  lemma FirstUnit(t: Text)
    ensures |t| > 0 ==> |Encode(t)| > 0 && (Low(Encode(t)[0]) <==> Low(t[0]))
  {
  }

  lemma PairValue(c: CodePoint)
    requires c >= 0x10000
    ensures High(Units(c)[0]) && Low(Units(c)[1])
    ensures Pair(Units(c)[0], Units(c)[1]) == c
  {
    var d := c - 0x10000;
    assert d == (d / 0x400) * 0x400 + d % 0x400 && 0 <= d / 0x400 < 0x400;
  }

  lemma DecodeHead(c: CodePoint, rest: Text)
    requires !(High(c) && |rest| > 0 && Low(rest[0]))
    ensures Decode(Encode([c] + rest)) == [c] + Decode(Encode(rest))
  {
    hide Units, High, Low;
    assert ([c] + rest)[1..] == rest;
    FirstUnit(rest);
    var u := Units(c) + Encode(rest);
    if c >= 0x10000 {
      PairValue(c);
      assert |Units(c)| == 2 by {
        UnitsLength(c);
      }
      assert u[2..] == Encode(rest);
    } else {
      UnitsLength(c);
      assert u[1..] == Encode(rest);
    }
  }

  lemma UnitsLength(c: CodePoint)
    ensures if c < 0x10000 then Units(c) == [c] else |Units(c)| == 2
  {
  }

  lemma {:induction false} NoSplitPairDecodes(t: Text)
    requires !HasSplitPair(t)
    ensures Decode(Encode(t)) == t
  {
    if |t| > 0 {
      forall k | 0 <= k < |t[1..]| - 1 ensures !(High(t[1..][k]) && Low(t[1..][k + 1])) {
        assert t[k + 1] == t[1..][k];
      }
      NoSplitPairDecodes(t[1..]);
      assert t == [t[0]] + t[1..];
      DecodeHead(t[0], t[1..]);
    }
  }

  lemma {:induction false} SplitPairShrinks(t: Text)
    ensures |Decode(Encode(t))| <= |t|
    ensures HasSplitPair(t) ==> |Decode(Encode(t))| < |t|
    decreases |t|
  {
    if |t| > 1 && High(t[0]) && Low(t[1]) {
      SplitPairShrinks(t[2..]);
      assert t[1..][1..] == t[2..];
      assert Encode(t) == [t[0]] + ([t[1]] + Encode(t[2..]));
      assert Encode(t)[2..] == Encode(t[2..]);
    } else if |t| > 0 {
      SplitPairShrinks(t[1..]);
      assert t == [t[0]] + t[1..];
      DecodeHead(t[0], t[1..]);
      if HasSplitPair(t) {
        var k :| 0 <= k < |t| - 1 && High(t[k]) && Low(t[k + 1]);
        assert t[1..][k - 1] == t[k] && t[1..][k] == t[k + 1];
      }
    }
  }

  /** UTF-16 gives a text back exactly when the text holds no split pair. */
  lemma DecodesExactlyWhen(t: Text)
    ensures Decode(Encode(t)) == t <==> !HasSplitPair(t)
  {
    SplitPairShrinks(t);
    if !HasSplitPair(t) {
      NoSplitPairDecodes(t);
    }
  }
}
