/** Recording model calls as numbered files and replaying them: a cursor that
    only moves forward and serves the next recording in the caller's scope. */
module Recorder {
  import opened Wrappers
  import opened Lexical

  datatype Entry = Entry(index: nat, step: string, phase: string, output: string)

  datatype Call = Call(step: string, phase: string)

  datatype Mode = Record | Mock | Off

  // ------------------------------------------------------------------- replay

  /** What the call asks for: both labels, the one it gives, or anything. */
  predicate InScope(e: Entry, c: Call) {
    if c.step != "" && c.phase != "" then e.step == c.step && e.phase == c.phase
    else if c.step != "" then e.step == c.step
    else if c.phase != "" then e.phase == c.phase
    else true
  }

  /** The first recording in scope at or after `from`. */
  function NextMatch(es: seq<Entry>, from: nat, c: Call): (r: Option<nat>)
    ensures r.Some? ==> from <= r.value < |es| && InScope(es[r.value], c)
    ensures forall i :: from <= i < |es| && InScope(es[i], c) ==> r.Some? && r.value <= i
    decreases if from < |es| then |es| - from else 0
  {
    if from >= |es| then None
    else if InScope(es[from], c) then Some(from)
    else NextMatch(es, from + 1, c)
  }

  /** The recording served: the next match, else simply the next recording. */
  function Serve(es: seq<Entry>, cursor: nat, c: Call): Option<nat> {
    if cursor >= |es| then None
    else match NextMatch(es, cursor, c)
      case Some(i) => Some(i)
      case None => Some(cursor)
  }

  function CursorAfter(cursor: nat, served: Option<nat>): nat {
    match served
    case None => cursor
    case Some(i) => i + 1
  }

  /** The indices served to a sequence of calls. */
  function Replay(es: seq<Entry>, cursor: nat, calls: seq<Call>): (r: seq<Option<nat>>)
    ensures |r| == |calls|
    decreases |calls|
  {
    if |calls| == 0 then []
    else
      var served := Serve(es, cursor, calls[0]);
      [served] + Replay(es, CursorAfter(cursor, served), calls[1..])
  }

  ghost predicate AllInScope(es: seq<Entry>, cursor: nat, calls: seq<Call>) {
    var r := Replay(es, cursor, calls);
    forall k :: 0 <= k < |calls| ==> r[k].Some? && r[k].value < |es| && InScope(es[r[k].value], calls[k])
  }

  /** A strictly increasing choice of one recording in scope for every call. */
  ghost predicate IsAssignment(es: seq<Entry>, cursor: nat, calls: seq<Call>, f: seq<nat>) {
    && |f| == |calls|
    && (forall k :: 0 <= k < |f| ==> cursor <= f[k] < |es| && InScope(es[f[k]], calls[k]))
    && (forall i, k :: 0 <= i < k < |f| ==> f[i] < f[k])
  }

  /** Indices within bounds, strictly rising, with nothing served after a None. */
  ghost predicate Rising(r: seq<Option<nat>>, lo: nat, hi: nat) {
    && (forall k :: 0 <= k < |r| && r[k].Some? ==> lo <= r[k].value < hi)
    && (forall i, k :: 0 <= i < k < |r| && r[k].Some? ==> r[i].Some? && r[i].value < r[k].value)
  }

  /** Served indices never move back: each recording is served at most once. */
  lemma {:induction false} ServedIncrease(es: seq<Entry>, cursor: nat, calls: seq<Call>)
    ensures Rising(Replay(es, cursor, calls), cursor, |es|)
    decreases |calls|
  {
    if |calls| > 0 {
      var served := Serve(es, cursor, calls[0]);
      var rest := Replay(es, CursorAfter(cursor, served), calls[1..]);
      ServedIncrease(es, CursorAfter(cursor, served), calls[1..]);
      assert Rising(rest, CursorAfter(cursor, served), |es|);
      RisingCons(served, rest, cursor, |es|);
    }
  }

  lemma RisingCons(served: Option<nat>, rest: seq<Option<nat>>, cursor: nat, hi: nat)
    requires Rising(rest, CursorAfter(cursor, served), hi)
    requires if served.None? then cursor >= hi else cursor <= served.value < hi
    ensures Rising([served] + rest, cursor, hi)
  {
    var r := [served] + rest;
    assert forall k :: 0 < k < |r| ==> r[k] == rest[k - 1];
  }

  /** The exchange argument: greedy stays at or before any assignment. */
  lemma ShiftAssignment(es: seq<Entry>, cursor: nat, calls: seq<Call>, f: seq<nat>, served: nat)
    requires IsAssignment(es, cursor, calls, f) && |calls| > 0 && served <= f[0]
    ensures IsAssignment(es, served + 1, calls[1..], f[1..])
  {
    forall k | 0 <= k < |f[1..]| ensures served + 1 <= f[1..][k] {
      assert f[0] < f[k + 1];
    }
  }

  lemma {:induction false} GreedyStaysAhead(es: seq<Entry>, cursor: nat, calls: seq<Call>, f: seq<nat>)
    requires IsAssignment(es, cursor, calls, f)
    ensures AllInScope(es, cursor, calls)
    ensures forall k :: 0 <= k < |calls| ==> Replay(es, cursor, calls)[k].value <= f[k]
    decreases |calls|
  {
    if |calls| > 0 {
      var served := Serve(es, cursor, calls[0]);
      assert InScope(es[f[0]], calls[0]) && served.Some? && served.value <= f[0];
      ShiftAssignment(es, cursor, calls, f, served.value);
      GreedyStaysAhead(es, served.value + 1, calls[1..], f[1..]);
      var rest := Replay(es, served.value + 1, calls[1..]);
      assert Replay(es, cursor, calls) == [served] + rest;
      forall k | 0 <= k < |calls|
        ensures ([served] + rest)[k].Some? && ([served] + rest)[k].value <= f[k] < |es|
        ensures InScope(es[([served] + rest)[k].value], calls[k])
      {
        if k > 0 {
          assert ([served] + rest)[k] == rest[k - 1] && f[k] == f[1..][k - 1] && calls[k] == calls[1..][k - 1];
          assert InScope(es[rest[k - 1].value], calls[1..][k - 1]);
        }
      }
    }
  }

  ghost function ServedIndices(r: seq<Option<nat>>): seq<nat>
    requires forall k :: 0 <= k < |r| ==> r[k].Some?
  {
    seq(|r|, k requires 0 <= k < |r| => r[k].value)
  }

  /** Greedy replay is complete: every call is served within its own scope exactly
      when some strictly increasing assignment of recordings to calls exists, and
      no assignment gets further ahead with fewer recordings. */
  lemma GreedyIsComplete(es: seq<Entry>, calls: seq<Call>)
    ensures AllInScope(es, 0, calls) <==> exists f :: IsAssignment(es, 0, calls, f)
    ensures forall f :: IsAssignment(es, 0, calls, f) ==>
              forall k :: 0 <= k < |calls| ==> Replay(es, 0, calls)[k].Some? && Replay(es, 0, calls)[k].value <= f[k]
  {
    forall f | IsAssignment(es, 0, calls, f)
      ensures AllInScope(es, 0, calls)
      ensures forall k :: 0 <= k < |calls| ==> Replay(es, 0, calls)[k].Some? && Replay(es, 0, calls)[k].value <= f[k]
    {
      GreedyStaysAhead(es, 0, calls, f);
    }
    if AllInScope(es, 0, calls) {
      ServedIncrease(es, 0, calls);
      assert IsAssignment(es, 0, calls, ServedIndices(Replay(es, 0, calls)));
    }
  }

  /** The first wanted recording at or after the cursor, or the one at the cursor when
      none is wanted. */
  ghost predicate FirstOrNext(es: seq<Entry>, cursor: nat, at: nat, wanted: Entry -> bool) {
    && cursor <= at < |es|
    && (forall i :: cursor <= i < at ==> !wanted(es[i]))
    && (wanted(es[at]) || (at == cursor && forall i :: cursor <= i < |es| ==> !wanted(es[i])))
  }

  /** What is served while recordings remain: with both labels given, both must be equal;
      with one given, that one; with none, it is the next recording. */
  lemma ServesFirstMatch(es: seq<Entry>, cursor: nat, c: Call)
    ensures Serve(es, cursor, c).None? <==> cursor >= |es|
    ensures cursor < |es| ==>
              var at := Serve(es, cursor, c).value;
              && (c.step != "" && c.phase != "" ==>
                    FirstOrNext(es, cursor, at, (e: Entry) => e.step == c.step && e.phase == c.phase))
              && (c.step != "" && c.phase == "" ==> FirstOrNext(es, cursor, at, (e: Entry) => e.step == c.step))
              && (c.step == "" && c.phase != "" ==> FirstOrNext(es, cursor, at, (e: Entry) => e.phase == c.phase))
              && (c.step == "" && c.phase == "" ==> at == cursor)
  {
    if cursor < |es| {
      var next := NextMatch(es, cursor, c);
      if next.None? {
        assert forall i :: cursor <= i < |es| ==> !InScope(es[i], c);
      } else {
        assert forall i :: cursor <= i < next.value ==> !InScope(es[i], c);
      }
    }
  }

  /** A call is served something outside its scope exactly when recordings remain
      and none of them is in scope. */
  lemma OutOfScopeExactlyWhen(es: seq<Entry>, cursor: nat, c: Call)
    ensures (Serve(es, cursor, c).Some? && Serve(es, cursor, c).value < |es|
            && !InScope(es[Serve(es, cursor, c).value], c))
            <==> cursor < |es| && forall i :: cursor <= i < |es| ==> !InScope(es[i], c)
  {
    if cursor < |es| && NextMatch(es, cursor, c).None? {
      assert !InScope(es[cursor], c);
    }
  }

  /** So a scoped miss consumes an unrelated recording, although the documented
      fallback is for unscoped calls only. */
  lemma ScopedMissFallsThrough()
    ensures var es := [Entry(1, "gap", "plan", "a")];
            Serve(es, 0, Call("draft", "plan")) == Some(0) && !InScope(es[0], Call("draft", "plan"))
  {
    var es := [Entry(1, "gap", "plan", "a")];
    assert NextMatch(es, 1, Call("draft", "plan")).None?;
  }

  // ---------------------------------------------------------------- recording

  function Digits(n: nat): string {
    if n < 10 then [('0' as int + n) as char] else Digits(n / 10) + [('0' as int + n % 10) as char]
  }

  /** `%03d` */
  function Padded(n: nat): string {
    if n < 10 then "00" + Digits(n) else if n < 100 then "0" + Digits(n) else Digits(n)
  }

  const SUFFIX := ".json"

  function FileName(n: nat, c: Call): string {
    Padded(n) + "_" + c.phase + "_" + c.step + SUFFIX
  }

  predicate IsDigit(c: char) {
    '0' <= c <= '9'
  }

  /** The glob pattern of recording files: three digits, then an underscore. */
  predicate IsRecording(name: string) {
    && |name| >= 4 + |SUFFIX|
    && IsDigit(name[0]) && IsDigit(name[1]) && IsDigit(name[2]) && name[3] == '_'
    && name[|name| - |SUFFIX|..] == SUFFIX
  }

  /** Labels that can be part of a file name. */
  predicate FileSafe(c: Call) {
    forall k :: 0 <= k < |c.phase + c.step| ==> (c.phase + c.step)[k] != '/' && (c.phase + c.step)[k] != '\0'
  }

  type Directory = map<string, Entry>

  datatype Recording = Recording(call: Call, output: string)

  function EntryOf(n: nat, r: Recording): Entry {
    Entry(n, r.call.step, r.call.phase, r.output)
  }

  /** What recording changes: the counter, the manifest and the directory. */
  datatype Tape = Tape(counter: nat, manifest: seq<(nat, Call, string)>, files: Directory)

  /** One recorded call. A label that no file name can hold makes the write fail,
      after the counter has moved on. */
  function Recorded(t: Tape, r: Recording): Tape {
    var n := t.counter + 1;
    if !FileSafe(r.call) then t.(counter := n)
    else Tape(n, t.manifest + [(n, r.call, FileName(n, r.call))], t.files[FileName(n, r.call) := EntryOf(n, r)])
  }

  /** A whole run of recorded calls into an empty directory. */
  function RecordAll(rs: seq<Recording>): (t: Tape)
    ensures t.counter == |rs|
  {
    if |rs| == 0 then Tape(0, [], map[]) else Recorded(RecordAll(rs[..|rs| - 1]), rs[|rs| - 1])
  }

  function Filter(names: seq<string>): seq<string> {
    if |names| == 0 then []
    else if IsRecording(names[0]) then [names[0]] + Filter(names[1..])
    else Filter(names[1..])
  }

  /** The files of a directory in the order the system happens to list them. */
  ghost predicate IsListing(dir: Directory, listing: seq<string>) {
    Distinct(listing) && forall name :: name in listing <==> name in dir
  }

  function ReadAll(dir: Directory, names: seq<string>): seq<Entry>
    requires forall name :: name in names ==> name in dir
  {
    if |names| == 0 then [] else [dir[names[0]]] + ReadAll(dir, names[1..])
  }

  lemma {:induction false} FilterKeeps(names: seq<string>)
    requires Distinct(names)
    ensures Distinct(Filter(names))
    ensures forall x :: x in Filter(names) <==> x in names && IsRecording(x)
  {
    if |names| > 0 {
      FilterKeeps(names[1..]);
      assert names == [names[0]] + names[1..];
      assert names[0] !in names[1..];
    }
  }

  function Load(dir: Directory, listing: seq<string>): seq<Entry>
    requires IsListing(dir, listing)
  {
    FilterKeeps(listing);
    SortSorts(Filter(listing));
    ReadAll(dir, Sort(Filter(listing)))
  }

  /** A name of three digits, an underscore, anything, and ".json". */
  predicate ThreeDigitJson(name: string) {
    && |name| >= 9
    && (forall k :: 0 <= k < 3 ==> '0' <= name[k] <= '9')
    && name[3] == '_' && name[|name| - 5..] == ".json"
  }

  /** Loading reads each file with such a name once, in rising order of the names,
      whatever else is in the directory. */
  lemma LoadReadsInOrder(dir: Directory, listing: seq<string>) returns (names: seq<string>)
    requires IsListing(dir, listing)
    ensures Sorted(names) && forall name :: name in names <==> name in dir && ThreeDigitJson(name)
    ensures var es := Load(dir, listing);
            |es| == |names| && forall k :: 0 <= k < |es| ==> names[k] in dir && es[k] == dir[names[k]]
  {
    FilterKeeps(listing);
    SortSorts(Filter(listing));
    names := Sort(Filter(listing));
    hide Sorted, Sort, Filter, ReadAll, IsRecording, ThreeDigitJson, Distinct;
    forall name: string ensures IsRecording(name) <==> ThreeDigitJson(name) {
      RecordingNames(name);
    }
    ReadAllReads(dir, names);
  }

  lemma RecordingNames(name: string)
    ensures IsRecording(name) <==> ThreeDigitJson(name)
  {
  }

  lemma {:induction false} ReadAllReads(dir: Directory, names: seq<string>)
    requires forall name :: name in names ==> name in dir
    ensures |ReadAll(dir, names)| == |names|
    ensures forall k :: 0 <= k < |names| ==> names[k] in dir && ReadAll(dir, names)[k] == dir[names[k]]
  {
    if |names| > 0 {
      ReadAllReads(dir, names[1..]);
    }
  }

  // -------------------------------------------------------------- the recorder

  class LLMRecorder {
    const mode: Mode
    const hasDirectory: bool
    var counter: nat
    var manifest: seq<(nat, Call, string)>
    var files: Directory
    var entries: Option<seq<Entry>>

    constructor (mode: Mode, hasDirectory: bool)
      ensures this.mode == mode && this.hasDirectory == hasDirectory
      ensures counter == 0 && manifest == [] && files == map[] && entries == None
    {
      this.mode, this.hasDirectory := mode, hasDirectory;
      counter, manifest, files, entries := 0, [], map[], None;
    }

    ghost function State(): Tape
      reads this
    {
      Tape(counter, manifest, files)
    }

    /** Records in record mode with a directory, and else does nothing. */
    method RecordCall(r: Recording) returns (written: bool)
      modifies this
      ensures entries == old(entries)
      ensures State() == if mode.Record? && hasDirectory then Recorded(old(State()), r) else old(State())
      ensures written == (mode.Record? && hasDirectory && FileSafe(r.call))
    {
      if !mode.Record? || !hasDirectory {
        return false;
      }
      counter := counter + 1;
      if !FileSafe(r.call) {
        return false;
      }
      var name := FileName(counter, r.call);
      files := files[name := EntryOf(counter, r)];
      manifest := manifest + [(counter, r.call, name)];
      written := true;
    }

    method LoadMockEntries(dir: Directory, listing: seq<string>)
      requires IsListing(dir, listing)
      modifies this
      ensures entries == Some(Load(dir, listing))
      ensures counter == old(counter) && manifest == old(manifest) && files == old(files)
    {
      FilterKeeps(listing);
      SortSorts(Filter(listing));
      var names := Sort(Filter(listing));
      var loaded := [];
      assert names[0..] == names;
      for i := 0 to |names|
        invariant loaded + ReadAll(dir, names[i..]) == ReadAll(dir, names)
        invariant counter == old(counter) && manifest == old(manifest) && files == old(files)
      {
        assert names[i..][1..] == names[i + 1..];
        loaded := loaded + [dir[names[i]]];
      }
      assert names[|names|..] == [];
      assert loaded == loaded + [] == ReadAll(dir, names);
      entries := Some(loaded);
    }

    method GetMockResponse(c: Call) returns (r: Option<Entry>)
      modifies this
      ensures entries == old(entries) && manifest == old(manifest) && files == old(files)
      ensures mode.Mock? && entries.Some? ==>
                var served := Serve(entries.value, old(counter), c);
                && r == (if served.None? then None else Some(entries.value[served.value]))
                && counter == CursorAfter(old(counter), served)
      ensures !(mode.Mock? && entries.Some?) ==> r == None && counter == old(counter)
    {
      if !mode.Mock? || entries.None? {
        return None;
      }
      var es := entries.value;
      if counter >= |es| {
        return None;
      }
      if c.step != "" && c.phase != "" {
        var i := counter;
        while i < |es|
          invariant counter <= i <= |es|
          invariant NextMatch(es, counter, c) == NextMatch(es, i, c)
          invariant counter == old(counter) && entries == old(entries) && manifest == old(manifest)
                    && files == old(files)
        {
          if es[i].step == c.step && es[i].phase == c.phase {
            counter := i + 1;
            return Some(es[i]);
          }
          i := i + 1;
        }
      } else if c.step != "" || c.phase != "" {
        var i := counter;
        while i < |es|
          invariant counter <= i <= |es|
          invariant NextMatch(es, counter, c) == NextMatch(es, i, c)
          invariant counter == old(counter) && entries == old(entries) && manifest == old(manifest)
                    && files == old(files)
        {
          if (if c.step != "" then es[i].step == c.step else es[i].phase == c.phase) {
            counter := i + 1;
            return Some(es[i]);
          }
          i := i + 1;
        }
      }
      r := Some(es[counter]);
      counter := counter + 1;
    }

    method RewindMockRun()
      modifies this
      ensures entries == old(entries) && files == old(files)
      ensures mode.Mock? ==> counter == 0 && manifest == []
      ensures !mode.Mock? ==> counter == old(counter) && manifest == old(manifest)
    {
      if mode.Mock? {
        counter, manifest := 0, [];
      }
    }
  }

  // ------------------------------------------------------ record, then replay

  const LIMIT := 999

  lemma ManyDigits(n: nat)
    requires n >= 1000
    ensures |Digits(n)| >= 4 && forall k :: 0 <= k < |Digits(n)| ==> IsDigit(Digits(n)[k])
  {
    AllDigits(n);
    assert |Digits(n / 10)| >= 3 by {
      assert |Digits(n / 100)| >= 2 by {
        assert |Digits(n / 1000)| >= 1;
        assert n / 100 / 10 == n / 1000;
      }
      assert n / 10 / 10 == n / 100;
    }
  }

  lemma {:induction false} AllDigits(n: nat)
    ensures |Digits(n)| >= 1 && forall k :: 0 <= k < |Digits(n)| ==> IsDigit(Digits(n)[k])
  {
    if n >= 10 {
      AllDigits(n / 10);
    }
  }

  function Digit(d: nat): char
    requires d < 10
  {
    ('0' as int + d) as char
  }

  lemma ThreeDigits(n: nat)
    requires n <= LIMIT
    ensures n / 100 < 10 && Padded(n) == [Digit(n / 100), Digit(n / 10 % 10), Digit(n % 10)]
  {
    if n < 10 {
      assert Padded(n) == ['0', '0', Digit(n)];
    } else if n < 100 {
      assert Digits(n / 10) == [Digit(n / 10)];
      assert Padded(n) == ['0', Digit(n / 10), Digit(n % 10)];
    } else {
      assert n / 10 / 10 == n / 100;
      assert Digits(n / 100) == [Digit(n / 100)];
      assert Digits(n / 10) == [Digit(n / 100), Digit(n / 10 % 10)];
    }
  }

  lemma FileNameStart(n: nat, c: Call)
    requires n <= LIMIT
    ensures |FileName(n, c)| >= 3
    ensures FileName(n, c)[..3] == [Digit(n / 100), Digit(n / 10 % 10), Digit(n % 10)]
  {
    ThreeDigits(n);
  }

  /** The number a row of decimal digits stands for. */
  function Decimal(w: string): nat
    requires forall k :: 0 <= k < |w| ==> IsDigit(w[k])
  {
    if |w| == 0 then 0
    else
      assert IsDigit(w[|w| - 1]);
      Decimal(w[..|w| - 1]) * 10 + (w[|w| - 1] as int - '0' as int)
  }

  lemma {:induction false} DigitsStandFor(n: nat)
    ensures forall k :: 0 <= k < |Digits(n)| ==> IsDigit(Digits(n)[k])
    ensures Decimal(Digits(n)) == n
  {
    AllDigits(n);
    if n >= 10 {
      DigitsStandFor(n / 10);
      assert Digits(n)[..|Digits(n)| - 1] == Digits(n / 10);
    } else {
      assert Digits(n)[..0] == [];
    }
  }

  lemma {:induction false} AppendDigit(w: string, c: char)
    requires forall k :: 0 <= k < |w| ==> IsDigit(w[k])
    requires IsDigit(c)
    ensures Decimal(w + [c]) == Decimal(w) * 10 + (c as int - '0' as int)
  {
    assert (w + [c])[..|w|] == w;
  }

  lemma ThreeDecimal(a: nat, b: nat, c: nat)
    requires a < 10 && b < 10 && c < 10
    ensures forall k :: 0 <= k < 3 ==> IsDigit([Digit(a), Digit(b), Digit(c)][k])
    ensures Decimal([Digit(a), Digit(b), Digit(c)]) == (a * 10 + b) * 10 + c
  {
    hide Decimal;
    AppendDigit([], Digit(a));
    AppendDigit([Digit(a)], Digit(b));
    AppendDigit([Digit(a), Digit(b)], Digit(c));
    assert [] + [Digit(a)] == [Digit(a)] && [Digit(a)] + [Digit(b)] == [Digit(a), Digit(b)];
    assert [Digit(a), Digit(b)] + [Digit(c)] == [Digit(a), Digit(b), Digit(c)];
    assert Decimal([]) == 0 by {
      DecimalOfNothing();
    }
  }

  lemma DecimalOfNothing()
    ensures Decimal([]) == 0
  {
  }

  lemma PaddedStandsFor(n: nat)
    ensures |Padded(n)| >= 3 && (|Padded(n)| > 3 ==> Padded(n)[0] != '0')
    ensures forall k :: 0 <= k < |Padded(n)| ==> IsDigit(Padded(n)[k])
    ensures Decimal(Padded(n)) == n
  {
    hide Decimal, IsDigit;
    if n <= LIMIT {
      ThreeDigits(n);
      ThreeDecimal(n / 100, n / 10 % 10, n % 10);
      assert n / 10 / 10 == n / 100;
      hide Padded, Digit;
    } else {
      DigitsStandFor(n);
      ManyDigits(n);
      NoLeadingZero(n);
    }
  }

  /** A file name reads: the number in three digits or more, the phase, the step. */
  lemma NameReads(n: nat, c: Call) returns (d: nat)
    ensures 3 <= d < |FileName(n, c)|
    ensures var name := FileName(n, c);
            && (forall k :: 0 <= k < d ==> IsDigit(name[..d][k])) && Decimal(name[..d]) == n
            && (d > 3 ==> name[0] != '0')
            && name[d..] == "_" + c.phase + "_" + c.step + ".json"
  {
    hide Padded, Decimal, IsDigit;
    PaddedStandsFor(n);
    d := |Padded(n)|;
    assert FileName(n, c) == Padded(n) + ("_" + c.phase + "_" + c.step + ".json");
    assert FileName(n, c)[..d] == Padded(n);
  }

  lemma {:induction false} NoLeadingZero(n: nat)
    requires n > 0
    ensures |Digits(n)| >= 1 && Digits(n)[0] != '0'
  {
    if n >= 10 {
      NoLeadingZero(n / 10);
    }
  }

  /** A file is picked up exactly when its number still has three digits. */
  lemma RecordingExactlyBelowLimit(n: nat, c: Call)
    ensures IsRecording(FileName(n, c)) <==> n <= LIMIT
  {
    var name := FileName(n, c);
    assert name[|name| - |SUFFIX|..] == SUFFIX;
    if n <= LIMIT {
      ThreeDigits(n);
    } else {
      ManyDigits(n);
      assert name[3] == Digits(n)[3];
    }
  }

  lemma DigitsInOrder(i: nat, k: nat)
    requires i < k <= LIMIT
    ensures i / 100 <= k / 100 < 10
    ensures i / 100 == k / 100 ==> i / 10 % 10 <= k / 10 % 10
    ensures i / 100 == k / 100 && i / 10 % 10 == k / 10 % 10 ==> i % 10 < k % 10
  {
    assert i / 10 == i / 100 * 10 + i / 10 % 10 && k / 10 == k / 100 * 10 + k / 10 % 10;
  }

  lemma NamesInOrder(i: nat, k: nat, c: Call, d: Call)
    requires i < k <= LIMIT
    ensures Less(FileName(i, c), FileName(k, d)) && FileName(i, c) != FileName(k, d)
  {
    FileNameStart(i, c);
    FileNameStart(k, d);
    DigitsInOrder(i, k);
    LessByDigits(FileName(i, c), FileName(k, d),
                 i / 100, i / 10 % 10, i % 10, k / 100, k / 10 % 10, k % 10);
  }

  lemma LessByDigits(a: string, b: string, a0: nat, a1: nat, a2: nat, b0: nat, b1: nat, b2: nat)
    requires a0 < 10 && a1 < 10 && a2 < 10 && b0 < 10 && b1 < 10 && b2 < 10
    requires |a| >= 3 && a[..3] == [Digit(a0), Digit(a1), Digit(a2)]
    requires |b| >= 3 && b[..3] == [Digit(b0), Digit(b1), Digit(b2)]
    requires a0 < b0 || (a0 == b0 && (a1 < b1 || (a1 == b1 && a2 < b2)))
    ensures Less(a, b) && a != b
  {
    hide Less;
    assert forall j :: 0 <= j < 3 ==> a[j] == a[..3][j] && b[j] == b[..3][j];
    if a0 < b0 {
      LessAt(a, b, 0);
    } else if a1 < b1 {
      LessAt(a, b, 1);
    } else {
      LessAt(a, b, 2);
    }
  }

  /** The recordings of a run that were written, with their numbers, in call order. */
  function Written(rs: seq<Recording>): seq<(nat, Recording)> {
    if |rs| == 0 then []
    else if FileSafe(rs[|rs| - 1].call) then Written(rs[..|rs| - 1]) + [(|rs|, rs[|rs| - 1])]
    else Written(rs[..|rs| - 1])
  }

  /** They are exactly the file-safe ones, in rising order of their numbers. */
  lemma {:induction false} WrittenAre(rs: seq<Recording>)
    ensures forall i: nat, r :: (i, r) in Written(rs) <==> 1 <= i <= |rs| && rs[i - 1] == r && FileSafe(r.call)
    ensures forall j, k :: 0 <= j < k < |Written(rs)| ==> Written(rs)[j].0 < Written(rs)[k].0
  {
    hide FileSafe;
    if |rs| > 0 {
      var init, last := rs[..|rs| - 1], rs[|rs| - 1];
      WrittenAre(init);
      assert forall j :: 0 <= j < |Written(init)| ==> Written(init)[j] in Written(init);
      assert forall j :: 0 <= j < |Written(init)| ==> Written(init)[j].0 < |rs| by {
        forall j | 0 <= j < |Written(init)| ensures Written(init)[j].0 < |rs| {
          var w := Written(init)[j];
          assert (w.0, w.1) in Written(init);
        }
      }
      forall i: nat, r ensures (i, r) in Written(rs) <==> 1 <= i <= |rs| && rs[i - 1] == r && FileSafe(r.call) {
        assert i <= |init| && i >= 1 ==> init[i - 1] == rs[i - 1];
      }
    }
  }

  lemma {:induction false} WrittenPrefix(rs: seq<Recording>, m: nat)
    requires m <= |rs|
    ensures Written(rs[..m]) <= Written(rs)
  {
    if m < |rs| {
      WrittenPrefix(rs[..|rs| - 1], m);
      assert rs[..|rs| - 1][..m] == rs[..m];
    } else {
      assert rs[..m] == rs;
    }
  }

  function NamesOf(ws: seq<(nat, Recording)>): (names: seq<string>)
    ensures |names| == |ws|
  {
    seq(|ws|, j requires 0 <= j < |ws| => FileName(ws[j].0, ws[j].1.call))
  }

  function EntriesOf(ws: seq<(nat, Recording)>): (es: seq<Entry>)
    ensures |es| == |ws|
  {
    seq(|ws|, j requires 0 <= j < |ws| => EntryOf(ws[j].0, ws[j].1))
  }

  function CallsOf(ws: seq<(nat, Recording)>): (calls: seq<Call>)
    ensures |calls| == |ws|
  {
    seq(|ws|, j requires 0 <= j < |ws| => ws[j].1.call)
  }

  function Min(a: nat, b: nat): nat {
    if a < b then a else b
  }

  /** The names of two recordings differ if one of them is below the limit. */
  lemma NamesDiffer(i: nat, k: nat, c: Call, d: Call)
    requires i <= LIMIT && i < k
    ensures FileName(i, c) != FileName(k, d)
  {
    hide FileName, IsRecording;
    RecordingExactlyBelowLimit(i, c);
    RecordingExactlyBelowLimit(k, d);
    if k <= LIMIT {
      NamesInOrder(i, k, c, d);
    }
  }

  /** The recordings a loader can see: those written with at most three digits. */
  function Loadable(rs: seq<Recording>): seq<(nat, Recording)> {
    Written(rs[..Min(|rs|, LIMIT)])
  }

  lemma LoadableAre(rs: seq<Recording>)
    ensures forall j :: 0 <= j < |Loadable(rs)| ==>
              var w := Loadable(rs)[j];
              1 <= w.0 <= Min(|rs|, LIMIT) && rs[w.0 - 1] == w.1 && FileSafe(w.1.call)
    ensures forall j, k :: 0 <= j < k < |Loadable(rs)| ==> Loadable(rs)[j].0 < Loadable(rs)[k].0
  {
    hide FileSafe, Written;
    var m := Min(|rs|, LIMIT);
    WrittenAre(rs[..m]);
    forall j | 0 <= j < |Loadable(rs)|
      ensures var w := Loadable(rs)[j]; 1 <= w.0 <= m && rs[w.0 - 1] == w.1 && FileSafe(w.1.call)
    {
      var w := Loadable(rs)[j];
      assert (w.0, w.1) in Written(rs[..m]);
      assert rs[..m][w.0 - 1] == rs[w.0 - 1];
    }
  }

  lemma NamesSorted(rs: seq<Recording>)
    ensures Sorted(NamesOf(Loadable(rs)))
  {
    hide FileSafe, Loadable, FileName;
    LoadableAre(rs);
    var ws := Loadable(rs);
    forall i, k | 0 <= i < k < |ws| ensures Less(NamesOf(ws)[i], NamesOf(ws)[k]) {
      NamesInOrder(ws[i].0, ws[k].0, ws[i].1.call, ws[k].1.call);
    }
  }

  /** The directory holds under each name what was written under it last, and the
      names that a loader can see are those of the loadable recordings. */
  lemma {:induction false} DirectoryHolds(rs: seq<Recording>)
    ensures forall name :: name in RecordAll(rs).files && IsRecording(name) ==> name in NamesOf(Loadable(rs))
    ensures forall j :: 0 <= j < |Loadable(rs)| ==>
              var w, files := Loadable(rs)[j], RecordAll(rs).files;
              FileName(w.0, w.1.call) in files && files[FileName(w.0, w.1.call)] == EntryOf(w.0, w.1)
  {
    hide FileName, IsRecording, FileSafe, Written, Loadable;
    if |rs| > 0 {
      DirectoryHolds(rs[..|rs| - 1]);
      NewNames(rs);
      NewEntries(rs);
    } else {
      NothingLoadable(rs);
    }
  }

  lemma NothingLoadable(rs: seq<Recording>)
    requires |rs| == 0
    ensures Loadable(rs) == [] && RecordAll(rs).files == map[]
  {
    assert rs[..0] == [];
  }

  /** One more call adds at most its own name to those a loader can see. */
  lemma NewNames(rs: seq<Recording>)
    requires |rs| > 0
    requires var init := rs[..|rs| - 1];
             forall name :: name in RecordAll(init).files && IsRecording(name) ==> name in NamesOf(Loadable(init))
    ensures forall name :: name in RecordAll(rs).files && IsRecording(name) ==> name in NamesOf(Loadable(rs))
  {
    hide FileName, IsRecording, FileSafe, Written;
    var n := |rs|;
    var init, last := rs[..n - 1], rs[n - 1];
    LoadableGrows(rs);
    RecordingExactlyBelowLimit(n, last.call);
    hide Loadable;
    assert forall j :: 0 <= j < |Loadable(init)| ==> NamesOf(Loadable(rs))[j] == NamesOf(Loadable(init))[j];
    forall name | name in RecordAll(rs).files && IsRecording(name) ensures name in NamesOf(Loadable(rs)) {
      if name in NamesOf(Loadable(init)) {
        var j :| 0 <= j < |Loadable(init)| && NamesOf(Loadable(init))[j] == name;
        assert NamesOf(Loadable(rs))[j] == name;
      } else {
        assert name == FileName(n, last.call);
        assert NamesOf(Loadable(rs))[|Loadable(init)|] == name;
      }
    }
  }

  /** One more call overwrites no loadable file. */
  lemma NewEntries(rs: seq<Recording>)
    requires |rs| > 0
    requires var init := rs[..|rs| - 1];
             forall j :: 0 <= j < |Loadable(init)| ==>
               var w, files := Loadable(init)[j], RecordAll(init).files;
               FileName(w.0, w.1.call) in files && files[FileName(w.0, w.1.call)] == EntryOf(w.0, w.1)
    ensures forall j :: 0 <= j < |Loadable(rs)| ==>
              var w, files := Loadable(rs)[j], RecordAll(rs).files;
              FileName(w.0, w.1.call) in files && files[FileName(w.0, w.1.call)] == EntryOf(w.0, w.1)
  {
    hide FileName, FileSafe, Written;
    var n := |rs|;
    var init, last := rs[..n - 1], rs[n - 1];
    LoadableAre(init);
    LoadableGrows(rs);
    hide Loadable;
    forall j | 0 <= j < |Loadable(init)|
      ensures FileName(Loadable(init)[j].0, Loadable(init)[j].1.call) != FileName(n, last.call)
    {
      NamesDiffer(Loadable(init)[j].0, n, Loadable(init)[j].1.call, last.call);
    }
    forall j | 0 <= j < |Loadable(rs)|
      ensures var w, files := Loadable(rs)[j], RecordAll(rs).files;
              FileName(w.0, w.1.call) in files && files[FileName(w.0, w.1.call)] == EntryOf(w.0, w.1)
    {
      if j < |Loadable(init)| {
        assert Loadable(rs)[j] == Loadable(init)[j];
      }
    }
  }

  /** The manifest lists the written calls in order, each under its file's name. */
  lemma {:induction false} ManifestLists(rs: seq<Recording>)
    ensures var manifest := RecordAll(rs).manifest;
            && |manifest| == |Written(rs)|
            && forall j :: 0 <= j < |manifest| ==>
                 var (n, r) := Written(rs)[j]; manifest[j] == (n, r.call, FileName(n, r.call))
  {
    hide FileName, FileSafe;
    if |rs| > 0 {
      ManifestLists(rs[..|rs| - 1]);
    }
  }

  lemma LoadableGrows(rs: seq<Recording>)
    requires |rs| > 0
    ensures var n, last := |rs|, rs[|rs| - 1];
            Loadable(rs) == if n <= LIMIT && FileSafe(last.call) then Loadable(rs[..n - 1]) + [(n, last)]
                            else Loadable(rs[..n - 1])
  {
    hide FileSafe;
    var n := |rs|;
    if n <= LIMIT {
      assert rs[..n] == rs && rs[..n - 1][..n - 1] == rs[..n - 1];
    } else {
      assert rs[..n - 1][..LIMIT] == rs[..LIMIT];
    }
  }

  lemma {:induction false} ReadAllAt(dir: Directory, names: seq<string>, es: seq<Entry>)
    requires forall name :: name in names ==> name in dir
    requires |names| == |es| && forall k :: 0 <= k < |names| ==> names[k] in dir && dir[names[k]] == es[k]
    ensures ReadAll(dir, names) == es
  {
    if |names| > 0 {
      ReadAllAt(dir, names[1..], es[1..]);
      assert es == [es[0]] + es[1..];
    }
  }

  /** Loading a recorded directory gives back exactly the recordings that were written
      under the first 999 numbers, in call order, whatever order the system lists
      the files in. */
  lemma RecordThenLoad(rs: seq<Recording>, listing: seq<string>)
    requires IsListing(RecordAll(rs).files, listing)
    ensures Load(RecordAll(rs).files, listing) == EntriesOf(Loadable(rs))
  {
    hide FileName, IsRecording, RecordAll, Sort, Filter, ReadAll, Sorted, Loadable, FileSafe;
    var ws, files := Loadable(rs), RecordAll(rs).files;
    var names := NamesOf(ws);
    DirectoryHolds(rs);
    LoadableAre(rs);
    NamesSorted(rs);
    FilterKeeps(listing);
    SortSorts(Filter(listing));
    forall j | 0 <= j < |ws| ensures names[j] in files && IsRecording(names[j]) {
      RecordingExactlyBelowLimit(ws[j].0, ws[j].1.call);
    }
    SortedIsUnique(Sort(Filter(listing)), names);
    ReadAllAt(files, names, EntriesOf(ws));
  }

  /** No slash and no NUL in either label. */
  predicate PlainLabels(c: Call) {
    && (forall k :: 0 <= k < |c.phase| ==> c.phase[k] != '/' && c.phase[k] != '\0')
    && (forall k :: 0 <= k < |c.step| ==> c.step[k] != '/' && c.step[k] != '\0')
  }

  lemma SafeWhenPlain(c: Call)
    ensures FileSafe(c) <==> PlainLabels(c)
  {
    var both := c.phase + c.step;
    assert forall k :: 0 <= k < |c.phase| ==> both[k] == c.phase[k];
    assert forall k :: 0 <= k < |c.step| ==> both[|c.phase| + k] == c.step[k];
  }

  /** The entry says what the call with its number was, and what it answered. */
  predicate Tells(e: Entry, rs: seq<Recording>) {
    && 1 <= e.index <= |rs|
    && e.step == rs[e.index - 1].call.step && e.phase == rs[e.index - 1].call.phase
    && e.output == rs[e.index - 1].output
  }

  /** Record, then load, field by field: one entry for each of the first 999 calls with
      plain labels, in call order, with that call's number, labels and answer. */
  lemma LoadTellsRun(rs: seq<Recording>, listing: seq<string>)
    requires IsListing(RecordAll(rs).files, listing)
    ensures var es := Load(RecordAll(rs).files, listing);
            && (forall j :: 0 <= j < |es| ==>
                  Tells(es[j], rs) && es[j].index <= 999 && PlainLabels(rs[es[j].index - 1].call))
            && (forall i, j :: 0 <= i < j < |es| ==> es[i].index < es[j].index)
            && (forall k :: 0 <= k < |rs| && k < 999 && PlainLabels(rs[k].call) ==>
                  exists j :: 0 <= j < |es| && es[j].index == k + 1)
  {
    hide IsListing, RecordAll, Load, FileSafe, Loadable, PlainLabels;
    RecordThenLoad(rs, listing);
    LoadableAre(rs);
    forall c: Call ensures FileSafe(c) <==> PlainLabels(c) {
      SafeWhenPlain(c);
    }
    var es := EntriesOf(Loadable(rs));
    forall k | 0 <= k < |rs| && k < 999 && PlainLabels(rs[k].call)
      ensures exists j :: 0 <= j < |es| && es[j].index == k + 1
    {
      var j := LoadablePosition(rs, k + 1);
      assert es[j].index == k + 1;
    }
  }

  lemma LoadablePosition(rs: seq<Recording>, n: nat) returns (j: nat)
    requires 1 <= n <= Min(|rs|, LIMIT) && FileSafe(rs[n - 1].call)
    ensures j < |Loadable(rs)| && Loadable(rs)[j].0 == n
  {
    hide FileSafe, Written;
    var m := Min(|rs|, LIMIT);
    WrittenAre(rs[..m]);
    assert rs[..m][n - 1] == rs[n - 1];
    assert (n, rs[n - 1]) in Written(rs[..m]);
    j :| 0 <= j < |Loadable(rs)| && Loadable(rs)[j] == (n, rs[n - 1]);
  }

  lemma ServeInStep(ws: seq<(nat, Recording)>, m: nat, from: nat)
    requires m <= |ws| && from < |ws|
    ensures Serve(EntriesOf(ws[..m]), Min(from, m), ws[from].1.call) == if from < m then Some(from) else None
  {
    if from < m {
      assert InScope(EntriesOf(ws[..m])[from], ws[from].1.call);
    }
  }

  ghost predicate InStep(r: seq<Option<nat>>, from: nat, m: nat) {
    forall k :: 0 <= k < |r| ==> r[k] == if from + k < m then Some(from + k) else None
  }

  /** From position `from`, replaying the labels of recordings serves each of the first
      `m` in turn, with no skips, and nothing once they run out. */
  lemma {:induction false} ReplayInStep(ws: seq<(nat, Recording)>, m: nat, from: nat)
    requires m <= |ws| && from <= |ws|
    ensures InStep(Replay(EntriesOf(ws[..m]), Min(from, m), CallsOf(ws)[from..]), from, m)
    decreases |ws| - from
  {
    hide EntriesOf, Serve;
    if from < |ws| {
      var es := EntriesOf(ws[..m]);
      var calls := CallsOf(ws)[from..];
      assert calls[0] == ws[from].1.call && calls[1..] == CallsOf(ws)[from + 1..];
      ServeInStep(ws, m, from);
      ReplayInStep(ws, m, from + 1);
      var served := Serve(es, Min(from, m), calls[0]);
      assert CursorAfter(Min(from, m), served) == Min(from + 1, m);
      var rest := Replay(es, Min(from + 1, m), calls[1..]);
      var r := [served] + rest;
      assert Replay(es, Min(from, m), calls) == r;
      assert forall k :: 0 < k < |r| ==> r[k] == rest[k - 1];
    }
  }

  /** Record, load and replay: the labels of the written calls come back one by one,
      and nothing once the loadable ones run out. */
  lemma RecordLoadReplay(rs: seq<Recording>, listing: seq<string>, k: nat)
    requires IsListing(RecordAll(rs).files, listing) && k < |Written(rs)|
    ensures var es := Load(RecordAll(rs).files, listing);
            && Replay(es, 0, CallsOf(Written(rs)))[k] == (if k < |es| then Some(k) else None)
            && (k < |es| ==> es[k] == EntryOf(Written(rs)[k].0, Written(rs)[k].1))
  {
    hide IsListing, RecordAll, Load, FileSafe;
    RecordThenLoad(rs, listing);
    WrittenPrefix(rs, Min(|rs|, LIMIT));
    hide Written;
    var ws, m := Written(rs), |Loadable(rs)|;
    assert ws[..m] == Loadable(rs);
    ReplayInStep(ws, m, 0);
    assert CallsOf(ws)[0..] == CallsOf(ws);
  }

  function Labels(rs: seq<Recording>): (calls: seq<Call>)
    ensures |calls| == |rs|
  {
    seq(|rs|, k requires 0 <= k < |rs| => rs[k].call)
  }

  /** Call `k` of the run is served its own recording. */
  ghost predicate GetsItsOwn(rs: seq<Recording>, es: seq<Entry>, k: nat)
    requires k < |rs|
  {
    var served := Replay(es, 0, Labels(rs))[k];
    served.Some? && served.value < |es| && es[served.value] == EntryOf(k + 1, rs[k])
  }

  lemma {:induction false} AllWritten(rs: seq<Recording>, m: nat)
    requires m <= |rs| && forall k :: 0 <= k < m ==> FileSafe(rs[k].call)
    ensures |Written(rs[..m])| == m && forall k :: 0 <= k < m ==> Written(rs[..m])[k] == (k + 1, rs[k])
  {
    hide FileSafe;
    if m > 0 {
      AllWritten(rs, m - 1);
      assert rs[..m][..m - 1] == rs[..m - 1] && rs[..m][m - 1] == rs[m - 1];
    }
  }

  lemma AllTheirOwn(rs: seq<Recording>, es: seq<Entry>)
    requires es == EntriesOf(Loadable(rs)) && forall k :: 0 <= k < Min(|rs|, LIMIT) ==> FileSafe(rs[k].call)
    ensures forall k :: 0 <= k < Min(|rs|, LIMIT) ==> GetsItsOwn(rs, es, k)
  {
    hide FileSafe, Written, Replay;
    var m := Min(|rs|, LIMIT);
    var ws := seq(|rs|, k requires 0 <= k < |rs| => (k + 1, rs[k]));
    AllWritten(rs, m);
    assert ws[..m] == Loadable(rs);
    ReplayInStep(ws, m, 0);
    assert CallsOf(ws)[0..] == Labels(rs);
  }

  /** Replaying all labels of a run serves each of the first 999 calls its own
      recording exactly when all their labels can be part of a file name. */
  lemma ReplaysAllExactlyWhen(rs: seq<Recording>, listing: seq<string>)
    requires IsListing(RecordAll(rs).files, listing)
    ensures var m := Min(|rs|, LIMIT);
            (forall k :: 0 <= k < m ==> GetsItsOwn(rs, Load(RecordAll(rs).files, listing), k))
            <==> (forall k :: 0 <= k < m ==> FileSafe(rs[k].call))
  {
    hide IsListing, RecordAll, Load, FileSafe, Loadable, EntriesOf, GetsItsOwn;
    var m, es := Min(|rs|, LIMIT), Load(RecordAll(rs).files, listing);
    RecordThenLoad(rs, listing);
    if forall k :: 0 <= k < m ==> FileSafe(rs[k].call) {
      AllTheirOwn(rs, es);
    } else {
      var u :| 0 <= u < m && !FileSafe(rs[u].call);
      NoneOfItsOwn(rs, es, u);
    }
  }

  /** So when all labels of a run of at most 999 calls are plain, replaying them returns
      the answers of the run, one by one. */
  lemma ReplayAnswers(rs: seq<Recording>, listing: seq<string>, k: nat)
    requires IsListing(RecordAll(rs).files, listing) && k < |rs| <= 999
    requires forall i :: 0 <= i < |rs| ==> PlainLabels(rs[i].call)
    ensures var es := Load(RecordAll(rs).files, listing);
            var served := Replay(es, 0, Labels(rs))[k];
            served.Some? && served.value < |es| && es[served.value].output == rs[k].output
  {
    hide IsListing, RecordAll, Load, Replay, PlainLabels, FileSafe;
    forall i | 0 <= i < |rs| ensures FileSafe(rs[i].call) {
      SafeWhenPlain(rs[i].call);
    }
    ReplaysAllExactlyWhen(rs, listing);
    assert GetsItsOwn(rs, Load(RecordAll(rs).files, listing), k);
  }

  /** In any run, replaying the labels of the written calls returns the answer of each that
      is numbered at most 999, and nothing for the others. */
  lemma ReplayAnswersWritten(rs: seq<Recording>, listing: seq<string>, k: nat)
    requires IsListing(RecordAll(rs).files, listing) && k < |Written(rs)|
    ensures var es, n := Load(RecordAll(rs).files, listing), Written(rs)[k].0;
            var served := Replay(es, 0, CallsOf(Written(rs)))[k];
            && 1 <= n <= |rs| && PlainLabels(rs[n - 1].call)
            && (served.Some? <==> n <= 999)
            && (served.Some? ==>
                  served.value < |es| && es[served.value].index == n && es[served.value].output == rs[n - 1].output)
  {
    hide IsListing, RecordAll, Load, Replay, PlainLabels, FileSafe;
    RecordLoadReplay(rs, listing, k);
    RecordThenLoad(rs, listing);
    var n := Written(rs)[k].0;
    WrittenCall(rs, k);
    SafeWhenPlain(rs[n - 1].call);
    LoadableExactlyBelow(rs, k);
  }

  lemma WrittenCall(rs: seq<Recording>, k: nat)
    requires k < |Written(rs)|
    ensures var (n, r) := Written(rs)[k]; 1 <= n <= |rs| && rs[n - 1] == r && FileSafe(r.call)
  {
    hide FileSafe;
    WrittenAre(rs);
    hide Written;
    var w := Written(rs)[k];
    assert (w.0, w.1) in Written(rs);
  }

  lemma LoadableExactlyBelow(rs: seq<Recording>, k: nat)
    requires k < |Written(rs)|
    ensures k < |Loadable(rs)| <==> Written(rs)[k].0 <= LIMIT
  {
    hide FileSafe;
    var n := Written(rs)[k].0;
    WrittenPrefix(rs, Min(|rs|, LIMIT));
    LoadableAre(rs);
    WrittenCall(rs, k);
    WrittenAre(rs);
    hide Written;
    if k < |Loadable(rs)| {
      assert Loadable(rs)[k] == Written(rs)[k];
    }
    if n <= LIMIT {
      var j := LoadablePosition(rs, n);
      assert Written(rs)[j] == Loadable(rs)[j];
      assert j == k;
    }
  }

  lemma NoneOfItsOwn(rs: seq<Recording>, es: seq<Entry>, u: nat)
    requires u < |rs| && !FileSafe(rs[u].call) && es == EntriesOf(Loadable(rs))
    ensures !GetsItsOwn(rs, es, u)
  {
    hide FileSafe, Loadable, Replay;
    LoadableAre(rs);
    forall j | 0 <= j < |es| ensures es[j] != EntryOf(u + 1, rs[u]) {
      assert es[j].index == Loadable(rs)[j].0;
    }
  }
}
