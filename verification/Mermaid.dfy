/** Extraction of fenced mermaid diagrams from an answer, with the meaning of its
    regular expression: leftmost match, greedy white space, lazy body. */
module Mermaid {
  import opened Wrappers

  const OPEN := "```mermaid"
  const CLOSE := "```"

  /** White space to both the pattern's `\s` and `str.strip`. */
  predicate IsSpace(c: char) {
    var x := c as int;
    0x09 <= x <= 0x0D || 0x1C <= x <= 0x20 || x == 0x85 || x == 0xA0 || x == 0x1680
    || 0x2000 <= x <= 0x200A || x == 0x2028 || x == 0x2029 || x == 0x202F || x == 0x205F || x == 0x3000
  }

  /** All of them, one by one. */
  lemma SpacesAre(c: char)
    ensures IsSpace(c) <==>
              c as int in {9, 10, 11, 12, 13, 28, 29, 30, 31, 32, 133, 160, 5760, 8192, 8193, 8194, 8195, 8196, 8197,
                           8198, 8199, 8200, 8201, 8202, 8232, 8233, 8239, 8287, 12288}
  {
  }

  predicate At(w: string, p: nat, piece: string) {
    p + |piece| <= |w| && w[p..p + |piece|] == piece
  }

  /** The pattern's language, for a match at the start of `w`: the line break is at
      `nl` and the closing fence at `end`. */
  ghost predicate Matches(w: string, nl: nat, end: nat) {
    && At(w, 0, OPEN)
    && |OPEN| <= nl < end <= |w|
    && (forall k :: |OPEN| <= k < nl ==> IsSpace(w[k]))
    && w[nl] == '\n'
    && At(w, end, CLOSE)
  }

  function SpaceEnd(w: string, k: nat): (r: nat)
    requires k <= |w|
    ensures k <= r <= |w|
    ensures forall j :: k <= j < r ==> IsSpace(w[j])
    ensures r < |w| ==> !IsSpace(w[r])
    decreases |w| - k
  {
    if k < |w| && IsSpace(w[k]) then SpaceEnd(w, k + 1) else k
  }

  function LastNewline(w: string, lo: nat, hi: nat): (r: Option<nat>)
    requires lo <= hi <= |w|
    ensures r.Some? ==> lo <= r.value < hi && w[r.value] == '\n'
    ensures forall j :: lo <= j < hi && w[j] == '\n' ==> r.Some? && j <= r.value
    decreases hi - lo
  {
    if lo == hi then None
    else if w[hi - 1] == '\n' then Some(hi - 1)
    else LastNewline(w, lo, hi - 1)
  }

  function FirstClose(w: string, k: nat): (r: Option<nat>)
    ensures r.Some? ==> k <= r.value && At(w, r.value, CLOSE)
    ensures forall j: nat :: k <= j && At(w, j, CLOSE) ==> r.Some? && r.value <= j
    decreases if k < |w| then |w| - k else 0
  {
    if k >= |w| then None
    else if At(w, k, CLOSE) then Some(k)
    else FirstClose(w, k + 1)
  }

  datatype Span = Span(nl: nat, end: nat)

  /** The match the engine picks at the start of `w`. */
  function MatchHere(w: string): Option<Span> {
    if !At(w, 0, OPEN) then None
    else match LastNewline(w, |OPEN|, SpaceEnd(w, |OPEN|))
      case None => None
      case Some(nl) =>
        match FirstClose(w, nl + 1)
        case None => None
        case Some(end) => Some(Span(nl, end))
  }

  datatype Found = Found(start: nat, span: Span)

  function Find(w: string): (r: Option<Found>)
    ensures r.Some? ==> r.value.start + r.value.span.nl < r.value.start + r.value.span.end <= |w| - 3
  {
    if |w| == 0 then None
    else if MatchHere(w).Some? then Some(Found(0, MatchHere(w).value))
    else match Find(w[1..])
      case None => None
      case Some(f) => Some(Found(f.start + 1, f.span))
  }

  function StripLeft(w: string): string {
    if |w| > 0 && IsSpace(w[0]) then StripLeft(w[1..]) else w
  }

  function StripRight(w: string): string {
    if |w| > 0 && IsSpace(w[|w| - 1]) then StripRight(w[..|w| - 1]) else w
  }

  function Strip(w: string): string {
    StripRight(StripLeft(w))
  }

  function Extract(w: string): seq<string>
    decreases |w|
  {
    match Find(w)
    case None => []
    case Some(Found(start, Span(nl, end))) =>
      [Strip(w[start + nl + 1..start + end])] + Extract(w[start + end + |CLOSE|..])
  }

  // --------------------------------------------------- the engine's choice

  /** A match is found exactly when there is one, with the longest white space and
      then the shortest body. */
  lemma MatchHereIsTheChoice(w: string)
    ensures MatchHere(w).None? ==> forall nl: nat, end: nat :: !Matches(w, nl, end)
    ensures MatchHere(w).Some? ==>
              var m := MatchHere(w).value;
              && Matches(w, m.nl, m.end)
              && (forall nl: nat, end: nat :: Matches(w, nl, end) ==> nl <= m.nl)
              && (forall end: nat :: Matches(w, m.nl, end) ==> m.end <= end)
  {
    forall nl: nat, end: nat | Matches(w, nl, end)
      ensures MatchHere(w).Some? && nl <= MatchHere(w).value.nl
    {
      var stop := SpaceEnd(w, |OPEN|);
      assert IsSpace('\n');
      var last := LastNewline(w, |OPEN|, stop);
      assert nl < stop;
      assert last.Some? && nl <= last.value;
      assert w[end] == '`' by {
        assert w[end] == w[end..end + 3][0];
      }
      assert !IsSpace('`');
    }
  }

  /** The search returns the leftmost position with a match. */
  lemma {:induction false} FindIsLeftmost(w: string)
    ensures Find(w).None? ==> forall p: nat :: p <= |w| ==> MatchHere(w[p..]).None?
    ensures Find(w).Some? ==>
              var f := Find(w).value;
              && f.start <= |w| && MatchHere(w[f.start..]) == Some(f.span)
              && forall p: nat :: p < f.start ==> MatchHere(w[p..]).None?
  {
    assert w[0..] == w;
    if |w| > 0 && MatchHere(w).None? {
      FindIsLeftmost(w[1..]);
      forall p: nat | p <= |w| ensures w[p..] == if p == 0 then w else w[1..][p - 1..] {
      }
    }
  }

  // -------------------------------------------------------------- round trip

  ghost predicate NoFence(w: string) {
    forall p: nat :: !At(w, p, CLOSE)
  }

  predicate Trimmed(d: string) {
    |d| > 0 ==> !IsSpace(d[0]) && !IsSpace(d[|d| - 1])
  }

  function Block(d: string): string {
    OPEN + "\n" + d + "\n" + CLOSE
  }

  /** Text and diagrams in alternation, starting and ending with text. */
  function Render(texts: seq<string>, diagrams: seq<string>): string
    requires |texts| == |diagrams| + 1
  {
    if |diagrams| == 0 then texts[0]
    else texts[0] + (Block(diagrams[0]) + Render(texts[1..], diagrams[1..]))
  }

  lemma NoMatchWithoutFence(w: string)
    requires !At(w, 0, CLOSE)
    ensures MatchHere(w).None?
  {
    assert OPEN[..3] == CLOSE;
    assert |w| >= |OPEN| ==> w[0..|OPEN|][..3] == w[0..3];
  }

  lemma {:induction false} NothingInPlainText(t: string)
    requires NoFence(t)
    ensures Find(t).None?
  {
    if |t| > 0 {
      NoMatchWithoutFence(t);
      NoFenceSuffix(t, 1);
      NothingInPlainText(t[1..]);
    }
  }

  lemma NoFenceSuffix(t: string, n: nat)
    requires NoFence(t) && n <= |t|
    ensures NoFence(t[n..])
  {
    forall p: nat ensures !At(t[n..], p, CLOSE) {
      assert !At(t, n + p, CLOSE);
      if p + 3 <= |t[n..]| {
        assert t[n..][p..p + 3] == t[n + p..n + p + 3];
      }
    }
  }

  /** An opening fence cannot start inside text without fences, even when the text
      ends in back-ticks. */
  lemma NoMatchBeforeOpen(t: string, rest: string)
    requires NoFence(t) && |t| > 0
    ensures MatchHere(t + (OPEN + rest)).None?
  {
    var w := t + (OPEN + rest);
    assert !At(t, 0, CLOSE);
    assert OPEN[..3] == CLOSE && OPEN[3] == 'm';
    if |t| >= 3 {
      assert w[0..3] == t[0..3];
      assert w[0..|OPEN|][..3] == w[0..3];
    } else {
      assert w[3] == OPEN[3 - |t|] == '`';
      assert w[0..|OPEN|][3] == w[3];
    }
  }

  lemma {:induction false} FindSkipsText(t: string, rest: string)
    requires NoFence(t) && MatchHere(OPEN + rest).Some?
    ensures Find(t + (OPEN + rest)) == Some(Found(|t|, MatchHere(OPEN + rest).value))
  {
    hide MatchHere, NoFence;
    var w := t + (OPEN + rest);
    if |t| == 0 {
      assert w == OPEN + rest;
    } else {
      NoMatchBeforeOpen(t, rest);
      NoFenceSuffix(t, 1);
      FindSkipsText(t[1..], rest);
      assert w[1..] == t[1..] + (OPEN + rest);
    }
  }

  lemma NoCloseInBlock(d: string, rest: string, j: nat)
    requires NoFence(d) && |OPEN| < j < |OPEN| + |d| + 2
    ensures !At(Block(d) + rest, j, CLOSE)
  {
    var w := Block(d) + rest;
    var last := |OPEN| + |d| + 1;
    assert w[last] == '\n';
    if j + 3 > last {
      assert w[j..j + 3][last - j] == '\n';
    } else {
      var k := j - |OPEN| - 1;
      assert !At(d, k, CLOSE);
      assert w[j..j + 3] == d[k..k + 3];
    }
  }

  /** The closing fence of a block is the first one after its line break. */
  lemma BlockClose(d: string, rest: string, from: nat)
    requires NoFence(d) && |OPEN| < from <= |OPEN| + |d| + 2
    ensures FirstClose(Block(d) + rest, from) == Some(|OPEN| + |d| + 2)
  {
    var w := Block(d) + rest;
    var end := |OPEN| + |d| + 2;
    assert w[end..end + 3] == CLOSE;
    assert At(w, end, CLOSE);
    var found := FirstClose(w, from).value;
    if found < end {
      NoCloseInBlock(d, rest, found);
    }
  }

  lemma BlockMatch(d: string, rest: string)
    requires NoFence(d) && Trimmed(d)
    ensures MatchHere(Block(d) + rest).Some?
    ensures var m := MatchHere(Block(d) + rest).value;
            && m.nl < m.end == |OPEN| + |d| + 2 <= |Block(d) + rest|
            && Strip((Block(d) + rest)[m.nl + 1..m.end]) == d
  {
    var w := Block(d) + rest;
    var open := |OPEN|;
    assert w[0..open] == OPEN;
    assert w[open] == '\n' && IsSpace('\n') && !IsSpace('`');
    if |d| == 0 {
      assert w[open + 1] == '\n' && w[open + 2] == '`';
      assert SpaceEnd(w, open) == open + 2;
      BlockClose(d, rest, open + 2);
      assert w[open + 2..open + 2] == "";
    } else {
      assert w[open + 1] == d[0];
      assert SpaceEnd(w, open) == open + 1;
      BlockClose(d, rest, open + 1);
      assert w[open + 1..open + |d| + 2] == d + "\n";
      StripTrailingBreak(d);
    }
  }

  lemma StripTrailingBreak(d: string)
    requires Trimmed(d) && |d| > 0
    ensures Strip(d + "\n") == d
  {
    assert IsSpace('\n');
    var w := d + "\n";
    assert StripLeft(w) == w;
    assert w[|w| - 1] == '\n' && w[..|w| - 1] == d;
    assert StripRight(w) == StripRight(d) == d;
  }

  lemma ExtractStep(t: string, d: string, rest: string)
    requires NoFence(t) && NoFence(d) && Trimmed(d)
    ensures Extract(t + (Block(d) + rest)) == [d] + Extract(rest)
  {
    hide NoFence, Trimmed, Strip, MatchHere, Find;
    var w := t + (Block(d) + rest);
    var tail := "\n" + d + "\n" + CLOSE + rest;
    assert Block(d) + rest == OPEN + tail;
    BlockMatch(d, rest);
    FindSkipsText(t, tail);
    var m := MatchHere(Block(d) + rest).value;
    assert w[|t| + m.nl + 1..|t| + m.end] == (Block(d) + rest)[m.nl + 1..m.end];
    assert w[|t| + m.end + 3..] == rest;
  }

  /** Extraction inverts rendering: exactly the diagrams, in order. */
  lemma {:induction false} ExtractInvertsRender(texts: seq<string>, diagrams: seq<string>)
    requires |texts| == |diagrams| + 1
    requires forall k :: 0 <= k < |texts| ==> NoFence(texts[k])
    requires forall k :: 0 <= k < |diagrams| ==> NoFence(diagrams[k]) && Trimmed(diagrams[k])
    ensures Extract(Render(texts, diagrams)) == diagrams
    decreases |diagrams|
  {
    hide NoFence, Trimmed, Extract;
    if |diagrams| == 0 {
      NothingInPlainText(texts[0]);
      NothingExtracted(texts[0]);
    } else {
      ExtractStep(texts[0], diagrams[0], Render(texts[1..], diagrams[1..]));
      ExtractInvertsRender(texts[1..], diagrams[1..]);
      assert diagrams == [diagrams[0]] + diagrams[1..];
    }
  }

  lemma NothingExtracted(w: string)
    requires Find(w).None?
    ensures Extract(w) == []
  {
  }

  // ------------------------------------------------- every text whatever

  lemma {:induction false} StripLeftIsSuffix(w: string) returns (n: nat)
    ensures n <= |w| && StripLeft(w) == w[n..]
    ensures |StripLeft(w)| > 0 ==> !IsSpace(StripLeft(w)[0])
  {
    n := 0;
    if |w| > 0 && IsSpace(w[0]) {
      n := StripLeftIsSuffix(w[1..]);
      n := n + 1;
    }
  }

  lemma {:induction false} StripRightIsPrefix(w: string) returns (n: nat)
    ensures n <= |w| && StripRight(w) == w[..n]
    ensures |StripRight(w)| > 0 ==> !IsSpace(StripRight(w)[n - 1])
  {
    n := |w|;
    if |w| > 0 && IsSpace(w[|w| - 1]) {
      n := StripRightIsPrefix(w[..|w| - 1]);
    }
  }

  lemma StripKeeps(w: string)
    requires NoFence(w)
    ensures NoFence(Strip(w)) && Trimmed(Strip(w))
  {
    var n := StripLeftIsSuffix(w);
    NoFenceSuffix(w, n);
    var k := StripRightIsPrefix(w[n..]);
    NoFencePrefix(w[n..], k);
  }

  lemma NoFencePrefix(t: string, n: nat)
    requires NoFence(t) && n <= |t|
    ensures NoFence(t[..n])
  {
    forall p: nat ensures !At(t[..n], p, CLOSE) {
      assert !At(t, p, CLOSE);
      if p + 3 <= n {
        assert t[..n][p..p + 3] == t[p..p + 3];
      }
    }
  }

  lemma NoFenceBeforeClose(w: string, k: nat)
    requires FirstClose(w, k).Some?
    ensures NoFence(w[k..FirstClose(w, k).value])
  {
    var body := w[k..FirstClose(w, k).value];
    forall p: nat ensures !At(body, p, CLOSE) {
      assert p + 3 <= |body| ==> !At(w, k + p, CLOSE) && body[p..p + 3] == w[k + p..k + p + 3];
    }
  }

  lemma BodyHasNoFence(w: string)
    requires MatchHere(w).Some?
    ensures var m := MatchHere(w).value; m.nl < m.end <= |w| && NoFence(w[m.nl + 1..m.end])
  {
    hide NoFence;
    NoFenceBeforeClose(w, MatchHere(w).value.nl + 1);
  }

  /** Whatever the text, each extracted diagram is trimmed and free of fences. */
  lemma {:induction false} ExtractedAreClean(w: string)
    ensures forall k :: 0 <= k < |Extract(w)| ==> NoFence(Extract(w)[k]) && Trimmed(Extract(w)[k])
    decreases |w|
  {
    hide NoFence, Trimmed, Strip, MatchHere, Find;
    match Find(w)
    case None =>
    case Some(Found(start, Span(nl, end))) =>
      FindIsLeftmost(w);
      BodyHasNoFence(w[start..]);
      assert w[start..][nl + 1..end] == w[start + nl + 1..start + end];
      StripKeeps(w[start + nl + 1..start + end]);
      ExtractedAreClean(w[start + end + |CLOSE|..]);
  }

  /** Re-rendering what was extracted from any text, between any plain texts, and
      extracting again changes nothing. */
  lemma ExtractIsStable(w: string, texts: seq<string>)
    requires |texts| == |Extract(w)| + 1
    requires forall k :: 0 <= k < |texts| ==> NoFence(texts[k])
    ensures Extract(Render(texts, Extract(w))) == Extract(w)
  {
    hide NoFence, Trimmed;
    ExtractedAreClean(w);
    ExtractInvertsRender(texts, Extract(w));
  }

  // ----------------------------------------------- one diagram for each match

  /** A match of the pattern in a text: the opening fence at `start`, the line break and
      the closing fence at `start` plus the span. */
  ghost predicate MatchAt(w: string, f: Found) {
    f.start <= |w| && Matches(w[f.start..], f.span.nl, f.span.end)
  }

  function EndOf(f: Found): nat {
    f.start + f.span.end + |CLOSE|
  }

  /** The match a search from `from` finds: no other starts before it, and of those that
      start with it none has longer white space, or as long and a shorter body. */
  ghost predicate IsNextMatch(w: string, from: nat, f: Found) {
    && from <= f.start && MatchAt(w, f)
    && forall g: Found :: from <= g.start && MatchAt(w, g) ==>
         || f.start < g.start
         || (f.start == g.start
             && (g.span.nl < f.span.nl || (g.span.nl == f.span.nl && f.span.end <= g.span.end)))
  }

  ghost predicate NoMatchFrom(w: string, from: nat) {
    forall g: Found :: from <= g.start ==> !MatchAt(w, g)
  }

  /** The diagram is the text with nothing but white space removed, at both ends. */
  ghost predicate IsStripped(text: string, diagram: string) {
    && Trimmed(diagram)
    && exists i, k :: 0 <= i <= k <= |text| && diagram == text[i..k]
         && (forall j :: 0 <= j < i ==> IsSpace(text[j])) && (forall j :: k <= j < |text| ==> IsSpace(text[j]))
  }

  function Body(w: string, f: Found): string
    requires f.start + f.span.nl < f.start + f.span.end <= |w|
  {
    w[f.start + f.span.nl + 1..f.start + f.span.end]
  }

  /** Where the search for the match at position `k` begins. */
  function Behind(ms: seq<Found>, k: nat, from: nat): nat
    requires k <= |ms|
  {
    if k == 0 then from else EndOf(ms[k - 1])
  }

  /** Successive matches, each searched for behind the closing fence of the one before,
      with no match behind the last, and the stripped bodies of all of them. */
  ghost predicate Successive(w: string, from: nat, ms: seq<Found>, diagrams: seq<string>) {
    && |ms| == |diagrams|
    && (forall k :: 0 <= k < |ms| ==> IsNextMatch(w, Behind(ms, k, from), ms[k]))
    && (forall k :: 0 <= k < |ms| ==>
          ms[k].start + ms[k].span.nl < ms[k].start + ms[k].span.end <= |w| && IsStripped(Body(w, ms[k]), diagrams[k]))
    && NoMatchFrom(w, Behind(ms, |ms|, from))
  }

  lemma {:induction false} LeftSpace(w: string) returns (n: nat)
    ensures n <= |w| && StripLeft(w) == w[n..] && forall j :: 0 <= j < n ==> IsSpace(w[j])
    ensures |StripLeft(w)| > 0 ==> !IsSpace(StripLeft(w)[0])
  {
    n := 0;
    if |w| > 0 && IsSpace(w[0]) {
      var m := LeftSpace(w[1..]);
      n := m + 1;
      assert forall j :: 0 < j < n ==> w[j] == w[1..][j - 1];
    }
  }

  lemma {:induction false} RightSpace(w: string) returns (n: nat)
    ensures n <= |w| && StripRight(w) == w[..n] && forall j :: n <= j < |w| ==> IsSpace(w[j])
    ensures n > 0 ==> !IsSpace(w[n - 1])
  {
    n := |w|;
    if |w| > 0 && IsSpace(w[|w| - 1]) {
      n := RightSpace(w[..|w| - 1]);
    }
  }

  lemma StripIsStripped(w: string)
    ensures IsStripped(w, Strip(w))
  {
    hide IsSpace, StripLeft, StripRight;
    var i := LeftSpace(w);
    var n := RightSpace(w[i..]);
    var k := i + n;
    assert Strip(w) == w[i..k];
    forall j | k <= j < |w| ensures IsSpace(w[j]) {
      assert w[j] == w[i..][j - i];
    }
    if n > 0 {
      assert w[i..k][0] == w[i..][0] && w[i..k][n - 1] == w[i..][n - 1];
    }
  }

  /** Shifting a text by a prefix shifts its matches. */
  lemma MatchesShift(w: string, from: nat, g: Found)
    requires from <= |w|
    ensures MatchAt(w[from..], g) <==> MatchAt(w, Found(from + g.start, g.span))
  {
    if g.start <= |w[from..]| {
      assert w[from..][g.start..] == w[from + g.start..];
    }
  }

  lemma FoundIsNextMatch(w: string)
    ensures Find(w).None? ==> NoMatchFrom(w, 0)
    ensures Find(w).Some? ==> IsNextMatch(w, 0, Find(w).value)
  {
    hide Find, MatchHere, Matches;
    FindIsLeftmost(w);
    forall g: Found | MatchAt(w, g)
      ensures Find(w).Some? && Find(w).value.start <= g.start && MatchHere(w[g.start..]).Some?
    {
      MatchHereIsTheChoice(w[g.start..]);
    }
    if Find(w).Some? {
      MatchHereIsTheChoice(w[Find(w).value.start..]);
    }
  }

  /** From a suffix to the text: the first match moves by the length of the prefix. */
  lemma NextMatchShifts(w: string, from: nat, f: Found)
    requires from <= |w| && IsNextMatch(w[from..], 0, f)
    ensures IsNextMatch(w, from, Found(from + f.start, f.span))
  {
    hide MatchAt;
    MatchesShift(w, from, f);
    forall g: Found | from <= g.start && MatchAt(w, g) ensures MatchAt(w[from..], Found(g.start - from, g.span)) {
      MatchesShift(w, from, Found(g.start - from, g.span));
      assert Found(from + (g.start - from), g.span) == g;
    }
  }

  lemma NoMatchShifts(w: string, from: nat)
    requires from <= |w| && NoMatchFrom(w[from..], 0)
    ensures NoMatchFrom(w, from)
  {
    hide MatchAt;
    forall g: Found | from <= g.start ensures !MatchAt(w, g) {
      MatchesShift(w, from, Found(g.start - from, g.span));
      assert Found(from + (g.start - from), g.span) == g;
    }
  }

  lemma SuccessiveCons(w: string, from: nat, f: Found, ms: seq<Found>, d: string, rest: seq<string>)
    requires IsNextMatch(w, from, f) && f.start + f.span.nl < f.start + f.span.end <= |w|
    requires IsStripped(Body(w, f), d) && Successive(w, EndOf(f), ms, rest)
    ensures Successive(w, from, [f] + ms, [d] + rest)
  {
    hide IsNextMatch, IsStripped, Body, NoMatchFrom, EndOf;
    var all, ds := [f] + ms, [d] + rest;
    BehindCons(f, ms, from);
    hide Behind;
    forall k | 0 <= k < |all| ensures IsNextMatch(w, Behind(all, k, from), all[k]) {
      if k > 0 {
        assert all[k] == ms[k - 1] && IsNextMatch(w, Behind(ms, k - 1, EndOf(f)), ms[k - 1]);
      }
    }
    forall k | 0 <= k < |all|
      ensures all[k].start + all[k].span.nl < all[k].start + all[k].span.end <= |w|
              && IsStripped(Body(w, all[k]), ds[k])
    {
      if k > 0 {
        assert all[k] == ms[k - 1] && ds[k] == rest[k - 1];
      }
    }
  }

  lemma BehindCons(f: Found, ms: seq<Found>, from: nat)
    ensures Behind([f] + ms, 0, from) == from
    ensures forall k :: 0 < k <= |ms| + 1 ==> Behind([f] + ms, k, from) == Behind(ms, k - 1, EndOf(f))
  {
    hide EndOf;
    var all := [f] + ms;
    forall k | 0 < k <= |all| ensures Behind(all, k, from) == Behind(ms, k - 1, EndOf(f)) {
      assert all[k - 1] == if k == 1 then f else ms[k - 2];
    }
  }

  lemma {:induction false} ExtractFrom(w: string, from: nat) returns (ms: seq<Found>)
    requires from <= |w|
    ensures Successive(w, from, ms, Extract(w[from..]))
    decreases |w| - from
  {
    hide IsNextMatch, IsStripped, NoMatchFrom, Strip, Find;
    var v := w[from..];
    FoundIsNextMatch(v);
    match Find(v)
    case None =>
      NoMatchShifts(w, from);
      ms := [];
    case Some(f) =>
      NextMatchShifts(w, from, f);
      var g := Found(from + f.start, f.span);
      assert v[f.start + f.span.end + |CLOSE|..] == w[EndOf(g)..];
      assert Body(w, g) == v[f.start + f.span.nl + 1..f.start + f.span.end];
      StripIsStripped(Body(w, g));
      var rest := ExtractFrom(w, EndOf(g));
      SuccessiveCons(w, from, g, rest, Strip(Body(w, g)), Extract(w[EndOf(g)..]));
      ms := [g] + rest;
  }

  /** From any text, extraction returns one diagram for each of the successive matches of
      the pattern, its body stripped of white space at both ends. */
  lemma ExtractsEveryMatch(w: string) returns (ms: seq<Found>)
    ensures Successive(w, 0, ms, Extract(w))
  {
    assert w[0..] == w;
    ms := ExtractFrom(w, 0);
  }

  /** There is one such list of matches only. */
  lemma {:induction false} SuccessiveIsUnique(
        w: string, from: nat, ms: seq<Found>, ds: seq<string>, ns: seq<Found>, es: seq<string>)
    requires Successive(w, from, ms, ds) && Successive(w, from, ns, es)
    ensures ms == ns
    decreases |ms|
  {
    hide Successive;
    SuccessiveEnds(w, from, ms, ds);
    SuccessiveEnds(w, from, ns, es);
    if |ms| > 0 && |ns| > 0 {
      FirstIsNext(w, from, ms, ds);
      FirstIsNext(w, from, ns, es);
      NextIsUnique(w, from, ms[0], ns[0]);
      SuccessiveTail(w, from, ms, ds);
      SuccessiveTail(w, from, ns, es);
      SuccessiveIsUnique(w, EndOf(ms[0]), ms[1..], ds[1..], ns[1..], es[1..]);
      assert ms == [ms[0]] + ms[1..] && ns == [ns[0]] + ns[1..];
    }
  }

  lemma SuccessiveEnds(w: string, from: nat, ms: seq<Found>, ds: seq<string>)
    requires Successive(w, from, ms, ds)
    ensures |ms| == |ds| && (|ms| == 0 <==> NoMatchFrom(w, from))
  {
    hide IsStripped, Body, MatchAt;
    if |ms| > 0 {
      FirstIsNext(w, from, ms, ds);
    }
  }

  lemma NextIsUnique(w: string, from: nat, f: Found, g: Found)
    requires IsNextMatch(w, from, f) && IsNextMatch(w, from, g)
    ensures f == g
  {
    hide MatchAt;
  }

  lemma FirstIsNext(w: string, from: nat, ms: seq<Found>, ds: seq<string>)
    requires Successive(w, from, ms, ds) && |ms| > 0
    ensures IsNextMatch(w, from, ms[0])
  {
    assert IsNextMatch(w, Behind(ms, 0, from), ms[0]);
  }

  lemma SuccessiveTail(w: string, from: nat, ms: seq<Found>, ds: seq<string>)
    requires Successive(w, from, ms, ds) && |ms| > 0
    ensures Successive(w, EndOf(ms[0]), ms[1..], ds[1..])
  {
    hide IsNextMatch, IsStripped, Body, NoMatchFrom, EndOf;
    var rest := ms[1..];
    forall k | 0 <= k <= |rest| ensures Behind(rest, k, EndOf(ms[0])) == Behind(ms, k + 1, from) {
    }
    forall k | 0 <= k < |rest| ensures IsNextMatch(w, Behind(rest, k, EndOf(ms[0])), rest[k]) {
      assert rest[k] == ms[k + 1] && IsNextMatch(w, Behind(ms, k + 1, from), ms[k + 1]);
    }
  }
}
