/** The thread-to-async progress pipeline: worker threads schedule callbacks on the
    event loop, the callbacks fill a queue, a consumer task drains it until the end
    marker. One step is one action of one thread or task. */
module Progress {
  datatype Event = Event(phase: string, message: string)

  /** The queue holds events and `None`, the end marker. */
  datatype Item = Ev(event: Event) | Sentinel

  /** What the loop has been asked to run: the worker's events, and the news that
      the worker's thread has returned. */
  datatype Callback = Put(worker: nat, event: Event) | Returned(worker: nat)

  /** `+= 1` on a shared counter is a read followed by a write. */
  datatype Worker = Between | Accepted | ReadSent(seen: nat) | Refused | ReadDropped(seen: nat) | Done

  datatype Consumer = Waiting | Sending | Stopped | Cancelled

  datatype Outcome = Delivered | NotDelivered | Raised

  datatype State = State(
    workers: seq<Worker>, closed: bool, sent: nat, dropped: nat,
    pending: seq<Callback>, returned: set<nat>, queue: seq<Item>,
    consumer: Consumer, consumed: nat, failures: nat, forwarded: seq<Event>,
    // History: accepted events, number of refused ones, everything ever put on the queue.
    accepted: seq<Event>, refused: nat, enqueued: seq<Item>)

  datatype Step =
    | Schedule(w: nat, event: Event)
    | ReadCounter(w: nat)
    | WriteCounter(w: nat)
    | Return(w: nat)
    | RunCallback
    | PutSentinel
    | Take
    | SendEnds(outcome: Outcome)
    | CloseLoop
    | Cancel

  function Init(n: nat): (s: State)
    ensures |s.workers| == n
  {
    State(seq(n, _ => Between), false, 0, 0, [], {}, [], Waiting, 0, 0, [], [], 0, [])
  }

  function WorkerStep(s: State, step: Step): State
    requires step.Schedule? || step.ReadCounter? || step.WriteCounter? || step.Return?
  {
    if step.w >= |s.workers| then s
    else match step
      case Schedule(w, e) =>
        if !s.workers[w].Between? then s
        else if s.closed then s.(workers := s.workers[w := Refused], refused := s.refused + 1)
        else s.(workers := s.workers[w := Accepted], pending := s.pending + [Put(w, e)], accepted := s.accepted + [e])
      case ReadCounter(w) =>
        if s.workers[w].Accepted? then s.(workers := s.workers[w := ReadSent(s.sent)])
        else if s.workers[w].Refused? then s.(workers := s.workers[w := ReadDropped(s.dropped)])
        else s
      case WriteCounter(w) =>
        if s.workers[w].ReadSent? then s.(workers := s.workers[w := Between], sent := s.workers[w].seen + 1)
        else if s.workers[w].ReadDropped? then s.(workers := s.workers[w := Between], dropped := s.workers[w].seen + 1)
        else s
      case Return(w) =>
        if !s.workers[w].Between? then s
        else if s.closed then s.(workers := s.workers[w := Done])
        else s.(workers := s.workers[w := Done], pending := s.pending + [Returned(w)])
  }

  /** Steps taken on the loop's own thread; none once the loop is closed. */
  function LoopStep(s: State, step: Step): State
  {
    if s.closed then s
    else match step
      case RunCallback =>
        if |s.pending| == 0 then s
        else (match s.pending[0]
              case Put(_, e) =>
                s.(pending := s.pending[1..], queue := s.queue + [Ev(e)], enqueued := s.enqueued + [Ev(e)])
              case Returned(w) => s.(pending := s.pending[1..], returned := s.returned + {w}))
      case PutSentinel => s.(queue := s.queue + [Sentinel], enqueued := s.enqueued + [Sentinel])
      case Take =>
        if !s.consumer.Waiting? || |s.queue| == 0 then s
        else if s.queue[0].Sentinel? then s.(queue := s.queue[1..], consumer := Stopped)
        else s.(queue := s.queue[1..], consumer := Sending, consumed := s.consumed + 1,
                forwarded := s.forwarded + [s.queue[0].event])
      case SendEnds(o) =>
        if !s.consumer.Sending? then s
        else s.(consumer := Waiting, failures := if o.NotDelivered? then s.failures + 1 else s.failures)
      case CloseLoop => s.(closed := true)
      case Cancel => if s.consumer.Stopped? then s else s.(consumer := Cancelled)
      case _ => s
  }

  function Next(s: State, step: Step): State {
    if step.Schedule? || step.ReadCounter? || step.WriteCounter? || step.Return? then WorkerStep(s, step)
    else LoopStep(s, step)
  }

  function Run(s: State, steps: seq<Step>): State
    decreases |steps|
  {
    if |steps| == 0 then s else Run(Next(s, steps[0]), steps[1..])
  }

  // --------------------------------------------------------------- the sequences

  function Events(items: seq<Item>): seq<Event>
    decreases |items|
  {
    if |items| == 0 then []
    else if items[0].Sentinel? then Events(items[1..])
    else [items[0].event] + Events(items[1..])
  }

  function Puts(pending: seq<Callback>): seq<Event>
    decreases |pending|
  {
    if |pending| == 0 then []
    else if pending[0].Returned? then Puts(pending[1..])
    else [pending[0].event] + Puts(pending[1..])
  }

  /** The events in front of the first end marker. */
  function BeforeSentinel(items: seq<Item>): seq<Event>
    decreases |items|
  {
    if |items| == 0 || items[0].Sentinel? then [] else [items[0].event] + BeforeSentinel(items[1..])
  }

  lemma {:induction false} EventsConcat(a: seq<Item>, b: seq<Item>)
    ensures Events(a + b) == Events(a) + Events(b)
  {
    if |a| == 0 {
      assert a + b == b;
    } else {
      assert (a + b)[0] == a[0] && (a + b)[1..] == a[1..] + b;
      EventsConcat(a[1..], b);
    }
  }

  lemma {:induction false} PutsConcat(a: seq<Callback>, b: seq<Callback>)
    ensures Puts(a + b) == Puts(a) + Puts(b)
  {
    if |a| == 0 {
      assert a + b == b;
    } else {
      assert (a + b)[0] == a[0] && (a + b)[1..] == a[1..] + b;
      PutsConcat(a[1..], b);
    }
  }

  lemma {:induction false} BeforeSentinelIs(items: seq<Item>, k: nat)
    requires k < |items| && items[k].Sentinel? && forall i :: 0 <= i < k ==> items[i].Ev?
    ensures BeforeSentinel(items) == Events(items[..k]) && |BeforeSentinel(items)| == k
    ensures forall i :: 0 <= i < k ==> BeforeSentinel(items)[i] == items[i].event
  {
    if k > 0 {
      BeforeSentinelIs(items[1..], k - 1);
      assert items[..k][1..] == items[1..][..k - 1];
      forall i | 0 <= i < k ensures BeforeSentinel(items)[i] == items[i].event {
        if i > 0 {
          assert items[1..][i - 1] == items[i];
        }
      }
    }
  }

  // ---------------------------------------------------- conservation and order

  /** Everything accepted is, in order, on the queue's history or still a pending callback. */
  ghost predicate NothingLost(s: State) {
    s.accepted == Events(s.enqueued) + Puts(s.pending)
  }

  function TakenCount(s: State): nat {
    |s.forwarded| + if s.consumer.Stopped? then 1 else 0
  }

  /** What was taken from the queue is what was put on it first. */
  ghost predicate TakenInOrder(s: State) {
    && |s.enqueued| == TakenCount(s) + |s.queue|
    && s.enqueued[TakenCount(s)..] == s.queue
    && (forall i :: 0 <= i < |s.forwarded| ==> s.enqueued[i] == Ev(s.forwarded[i]))
    && (s.consumer.Stopped? ==> s.enqueued[|s.forwarded|] == Sentinel)
    && s.consumed == |s.forwarded|
    && s.failures + (if s.consumer.Sending? then 1 else 0) <= s.consumed
  }

  lemma CallbackKeepsNothingLost(s: State)
    requires NothingLost(s)
    ensures NothingLost(LoopStep(s, RunCallback))
  {
    if |s.pending| > 0 && s.pending[0].Put? {
      EventsConcat(s.enqueued, [Ev(s.pending[0].event)]);
      assert Events([Ev(s.pending[0].event)]) == [s.pending[0].event] + Events([]);
    }
  }

  lemma AppendKeepsNothingLost(s: State, t: State, c: Callback)
    requires NothingLost(s) && t.pending == s.pending + [c] && t.enqueued == s.enqueued
    requires t.accepted == if c.Put? then s.accepted + [c.event] else s.accepted
    ensures NothingLost(t)
  {
    PutsOne(c);
    PutsConcat(s.pending, [c]);
    hide Puts, Events;
    var before := Events(s.enqueued);
    assert (before + Puts(s.pending)) + Puts([c]) == before + (Puts(s.pending) + Puts([c]));
  }

  lemma PutsOne(c: Callback)
    ensures Puts([c]) == if c.Put? then [c.event] else []
  {
    assert [c][1..] == [];
  }

  lemma MarkerKeepsNothingLost(s: State)
    requires NothingLost(s)
    ensures NothingLost(LoopStep(s, PutSentinel))
  {
    EventsConcat(s.enqueued, [Sentinel]);
    assert Events([Sentinel]) == Events([]);
  }

  lemma StepKeepsNothingLost(s: State, step: Step)
    requires NothingLost(s)
    ensures NothingLost(Next(s, step))
  {
    if step.RunCallback? {
      CallbackKeepsNothingLost(s);
    } else if step.PutSentinel? {
      MarkerKeepsNothingLost(s);
    } else {
      hide Puts, Events;
      var t := Next(s, step);
      if t.pending != s.pending {
        hide NothingLost;
        AppendKeepsNothingLost(s, t, t.pending[|s.pending|]);
      }
    }
  }

  ghost predicate SameConsumer(s: State, t: State) {
    s.consumer == t.consumer && s.consumed == t.consumed && s.failures == t.failures && s.forwarded == t.forwarded
  }

  lemma EnqueueKeepsTakenInOrder(s: State, t: State, x: Item)
    requires TakenInOrder(s) && SameConsumer(s, t)
    requires t.queue == s.queue + [x] && t.enqueued == s.enqueued + [x]
    ensures TakenInOrder(t)
  {
    assert t.enqueued[TakenCount(s)..] == s.enqueued[TakenCount(s)..] + [x];
  }

  lemma TakeKeepsTakenInOrder(s: State)
    requires TakenInOrder(s)
    ensures TakenInOrder(LoopStep(s, Take))
  {
    var k, t := TakenCount(s), LoopStep(s, Take);
    if t != s {
      assert s.enqueued[k] == s.queue[0];
      assert t.enqueued[k + 1..] == s.enqueued[k..][1..];
    }
  }

  lemma SameQueueKeepsTakenInOrder(s: State, t: State)
    requires TakenInOrder(s) && SameConsumer(s, t) && t.queue == s.queue && t.enqueued == s.enqueued
    ensures TakenInOrder(t)
  {
  }

  lemma StepKeepsTakenInOrder(s: State, step: Step)
    requires TakenInOrder(s)
    ensures TakenInOrder(Next(s, step))
  {
    var t := Next(s, step);
    if step.Take? {
      TakeKeepsTakenInOrder(s);
    } else if t.enqueued != s.enqueued {
      hide TakenInOrder;
      EnqueueKeepsTakenInOrder(s, t, t.enqueued[|s.enqueued|]);
    } else if step.SendEnds? || step.Cancel? {
      assert t.queue == s.queue;
    } else {
      hide TakenInOrder;
      SameQueueKeepsTakenInOrder(s, t);
    }
  }

  lemma {:induction false} RunKeepsFlow(s: State, steps: seq<Step>)
    requires NothingLost(s) && TakenInOrder(s)
    ensures NothingLost(Run(s, steps)) && TakenInOrder(Run(s, steps))
    decreases |steps|
  {
    hide NothingLost, TakenInOrder, Next;
    if |steps| > 0 {
      StepKeepsNothingLost(s, steps[0]);
      StepKeepsTakenInOrder(s, steps[0]);
      RunKeepsFlow(Next(s, steps[0]), steps[1..]);
    }
  }

  lemma {:induction false} EventsOfForwarded(items: seq<Item>, forwarded: seq<Event>)
    requires |items| == |forwarded| && forall i :: 0 <= i < |items| ==> items[i] == Ev(forwarded[i])
    ensures Events(items) == forwarded
    decreases |items|
  {
    if |items| > 0 {
      EventsOfForwarded(items[1..], forwarded[1..]);
    }
  }

  lemma TakenEvents(s: State)
    requires TakenInOrder(s)
    ensures Events(s.enqueued[..TakenCount(s)]) == s.forwarded
  {
    var m := |s.forwarded|;
    var head := s.enqueued[..m];
    EventsOfForwarded(head, s.forwarded);
    if s.consumer.Stopped? {
      assert s.enqueued[..m + 1] == head + [Sentinel];
      EventsConcat(head, [Sentinel]);
      assert Events([Sentinel]) == Events([]) == [];
      assert s.forwarded + [] == s.forwarded;
    }
  }

  lemma QueuedEvents(s: State)
    requires TakenInOrder(s)
    ensures Events(s.enqueued) == s.forwarded + Events(s.queue)
  {
    hide Events;
    TakenEvents(s);
    EventsConcat(s.enqueued[..TakenCount(s)], s.queue);
    assert s.enqueued == s.enqueued[..TakenCount(s)] + s.queue;
  }

  /** In every reachable state the accepted events are, in the order of acceptance,
      the forwarded ones, then the queued ones, then those whose callback has not
      run; the consumer's count is exact. */
  lemma AcceptedIsConserved(n: nat, steps: seq<Step>)
    ensures var s := Run(Init(n), steps);
            && s.accepted == s.forwarded + Events(s.queue) + Puts(s.pending)
            && s.consumed == |s.forwarded| && s.failures <= s.consumed
  {
    RunKeepsFlow(Init(n), steps);
    hide Run, Events, Puts;
    QueuedEvents(Run(Init(n), steps));
  }

  /** Once the consumer has stopped, it has forwarded exactly the events put on the
      queue before the first end marker, in that order; until then, a prefix. */
  lemma ForwardedIsBeforeSentinel(n: nat, steps: seq<Step>)
    ensures var s := Run(Init(n), steps);
            && (s.consumer.Stopped? ==> s.forwarded == BeforeSentinel(s.enqueued))
            && (forall i :: 0 <= i < |s.forwarded| ==> i < |s.enqueued| && s.enqueued[i] == Ev(s.forwarded[i]))
  {
    hide Run;
    RunKeepsFlow(Init(n), steps);
    var s := Run(Init(n), steps);
    if s.consumer.Stopped? {
      BeforeSentinelIs(s.enqueued, |s.forwarded|);
    }
  }

  lemma {:induction false} HistoryGrows(s: State, steps: seq<Step>)
    ensures s.enqueued <= Run(s, steps).enqueued && s.accepted <= Run(s, steps).accepted
    decreases |steps|
  {
    if |steps| > 0 {
      assert s.enqueued <= Next(s, steps[0]).enqueued && s.accepted <= Next(s, steps[0]).accepted;
      HistoryGrows(Next(s, steps[0]), steps[1..]);
    }
  }

  lemma {:induction false} RunAppend(s: State, a: seq<Step>, b: seq<Step>)
    ensures Run(s, a + b) == Run(Run(s, a), b)
    decreases |a|
  {
    if |a| == 0 {
      assert a + b == b;
    } else {
      assert (a + b)[0] == a[0] && (a + b)[1..] == a[1..] + b;
      RunAppend(Next(s, a[0]), a[1..], b);
    }
  }

  lemma MarkerIsPut(s: State)
    requires !s.closed
    ensures Next(s, PutSentinel).enqueued == s.enqueued + [Sentinel]
  {
  }

  /** The end marker overtakes callbacks that have not run: what the consumer has not
      forwarded when it stops, of the events accepted before the marker was put,
      is exactly what was pending at that moment. */
  lemma LostIsWhatWasPending(n: nat, before: seq<Step>, after: seq<Step>)
    requires var s := Run(Init(n), before); !s.closed && Sentinel !in s.enqueued
    requires Run(Next(Run(Init(n), before), PutSentinel), after).consumer.Stopped?
    ensures var s := Run(Init(n), before);
            var t := Run(Next(s, PutSentinel), after);
            s.accepted == t.forwarded + Puts(s.pending)
  {
    var s := Run(Init(n), before);
    var u := Next(s, PutSentinel);
    var t := Run(u, after);
    hide Run, Next;
    RunKeepsFlow(Init(n), before);
    RunAppend(Init(n), before, [PutSentinel] + after);
    OneThen(s, PutSentinel, after);
    ForwardedIsBeforeSentinel(n, before + ([PutSentinel] + after));
    HistoryGrows(u, after);
    MarkerIsPut(s);
    BeforeSentinelIs(t.enqueued, |s.enqueued|);
    assert t.enqueued[..|s.enqueued|] == s.enqueued;
  }

  lemma OneThen(s: State, step: Step, after: seq<Step>)
    ensures Run(s, [step] + after) == Run(Next(s, step), after)
  {
    assert ([step] + after)[1..] == after;
  }

  // ------------------------------------------------- waiting for the threads

  /** Workers whose return has been reported are done, and no callback of a worker
      stands behind its return. */
  ghost predicate ReturnsInOrder(s: State) {
    && (forall w :: w in s.returned ==> w < |s.workers| && s.workers[w].Done?)
    && (forall i :: 0 <= i < |s.pending| && s.pending[i].Put? ==> s.pending[i].worker !in s.returned)
    && (forall i :: 0 <= i < |s.pending| ==> s.pending[i].worker < |s.workers|)
    && (forall i :: 0 <= i < |s.pending| && s.pending[i].Returned? ==>
          s.workers[s.pending[i].worker].Done?
          && forall k :: i < k < |s.pending| ==> s.pending[k].worker != s.pending[i].worker)
  }

  lemma CallbackKeepsReturns(s: State)
    requires ReturnsInOrder(s)
    ensures ReturnsInOrder(LoopStep(s, RunCallback))
  {
    var t := LoopStep(s, RunCallback);
    if t != s {
      assert forall i :: 0 <= i < |t.pending| ==> t.pending[i] == s.pending[i + 1];
    }
  }

  lemma AppendKeepsReturns(s: State, t: State, c: Callback)
    requires ReturnsInOrder(s) && c.worker < |s.workers| && !s.workers[c.worker].Done?
    requires t.returned == s.returned && t.pending == s.pending + [c] && |t.workers| == |s.workers|
    requires t.workers == s.workers[c.worker := t.workers[c.worker]] && (c.Returned? ==> t.workers[c.worker].Done?)
    ensures ReturnsInOrder(t)
  {
    assert c.worker !in s.returned;
    forall i | 0 <= i < |t.pending| && t.pending[i].Returned?
      ensures t.workers[t.pending[i].worker].Done?
      ensures forall k :: i < k < |t.pending| ==> t.pending[k].worker != t.pending[i].worker
    {
      if i < |s.pending| {
        assert t.pending[i] == s.pending[i];
      }
    }
  }

  lemma WorkerStepKeepsReturns(s: State, step: Step)
    requires ReturnsInOrder(s)
    requires step.Schedule? || step.ReadCounter? || step.WriteCounter? || step.Return?
    ensures ReturnsInOrder(WorkerStep(s, step))
  {
    var t := WorkerStep(s, step);
    if t.pending != s.pending {
      hide ReturnsInOrder;
      AppendKeepsReturns(s, t, t.pending[|s.pending|]);
    } else if t != s {
      assert !s.workers[step.w].Done? && t.workers == s.workers[step.w := t.workers[step.w]];
    }
  }

  lemma {:induction false} RunKeepsReturns(s: State, steps: seq<Step>)
    requires ReturnsInOrder(s)
    ensures ReturnsInOrder(Run(s, steps))
    decreases |steps|
  {
    if |steps| > 0 {
      assert ReturnsInOrder(Next(s, steps[0])) by {
        if steps[0].RunCallback? {
          CallbackKeepsReturns(s);
        } else if steps[0].Schedule? || steps[0].ReadCounter? || steps[0].WriteCounter? || steps[0].Return? {
          WorkerStepKeepsReturns(s, steps[0]);
        } else {
          assert Next(s, steps[0]).pending == s.pending;
        }
      }
      hide ReturnsInOrder, Next;
      RunKeepsReturns(Next(s, steps[0]), steps[1..]);
    }
  }

  /** Every thread has returned. */
  predicate AllDone(s: State) {
    forall w :: 0 <= w < |s.workers| ==> s.workers[w].Done?
  }

  lemma {:induction false} DoneAcceptsNothing(s: State, steps: seq<Step>)
    requires AllDone(s)
    ensures Run(s, steps).accepted == s.accepted
    decreases |steps|
  {
    if |steps| > 0 {
      assert Next(s, steps[0]).workers == s.workers;
      DoneAcceptsNothing(Next(s, steps[0]), steps[1..]);
    }
  }

  lemma {:induction false} NoPuts(pending: seq<Callback>)
    requires forall i :: 0 <= i < |pending| ==> pending[i].Returned?
    ensures Puts(pending) == []
    decreases |pending|
  {
    if |pending| > 0 {
      NoPuts(pending[1..]);
    }
  }

  lemma {:induction false} WorkerCountKept(s: State, steps: seq<Step>)
    ensures |Run(s, steps).workers| == |s.workers|
    decreases |steps|
  {
    if |steps| > 0 {
      WorkerCountKept(Next(s, steps[0]), steps[1..]);
    }
  }

  /** If the marker is put only after every thread's return has been reported on the
      loop, which is what awaiting the threads does, then every accepted event of
      the whole run has been forwarded when the consumer stops. */
  lemma WaitingLosesNothing(n: nat, before: seq<Step>, after: seq<Step>)
    requires var s := Run(Init(n), before);
             !s.closed && Sentinel !in s.enqueued && forall w: nat :: w < n ==> w in s.returned
    requires Run(Next(Run(Init(n), before), PutSentinel), after).consumer.Stopped?
    ensures var t := Run(Next(Run(Init(n), before), PutSentinel), after);
            t.forwarded == t.accepted
  {
    var s := Run(Init(n), before);
    LostIsWhatWasPending(n, before, after);
    assert ReturnsInOrder(s) && |s.workers| == n by {
      RunKeepsReturns(Init(n), before);
      WorkerCountKept(Init(n), before);
    }
    hide Run;
    forall i | 0 <= i < |s.pending| ensures s.pending[i].Returned? {
      assert s.pending[i].worker in s.returned;
    }
    NoPuts(s.pending);
    DoneAcceptsNothing(Next(s, PutSentinel), after);
  }

  // ---------------------------------------------------------------- the counters

  predicate IsUncounted(w: Worker, refusals: bool) {
    if refusals then w.Refused? || w.ReadDropped? else w.Accepted? || w.ReadSent?
  }

  /** Calls that have been accepted, or refused, and not yet counted. */
  function Uncounted(ws: seq<Worker>, refusals: bool): nat
    decreases |ws|
  {
    if |ws| == 0 then 0
    else if IsUncounted(ws[|ws| - 1], refusals) then Uncounted(ws[..|ws| - 1], refusals) + 1
    else Uncounted(ws[..|ws| - 1], refusals)
  }

  lemma {:induction false} UncountedUpdate(ws: seq<Worker>, w: nat, x: Worker, refusals: bool)
    requires w < |ws|
    ensures Uncounted(ws[w := x], refusals)
         == Uncounted(ws, refusals) - (if IsUncounted(ws[w], refusals) then 1 else 0)
            + (if IsUncounted(x, refusals) then 1 else 0)
    decreases |ws|
  {
    if w == |ws| - 1 {
      assert ws[w := x][..|ws| - 1] == ws[..|ws| - 1];
    } else {
      assert ws[w := x][..|ws| - 1] == ws[..|ws| - 1][w := x];
      UncountedUpdate(ws[..|ws| - 1], w, x, refusals);
    }
  }

  ghost predicate SentBelow(s: State) {
    && s.sent + Uncounted(s.workers, false) <= |s.accepted|
    && (forall w :: 0 <= w < |s.workers| && s.workers[w].ReadSent? ==>
         s.workers[w].seen + Uncounted(s.workers, false) <= |s.accepted|)
  }

  ghost predicate DroppedBelow(s: State) {
    && s.dropped + Uncounted(s.workers, true) <= s.refused
    && (forall w :: 0 <= w < |s.workers| && s.workers[w].ReadDropped? ==>
         s.workers[w].seen + Uncounted(s.workers, true) <= s.refused)
  }

  /** The counters never exceed the calls they count, the ones still being counted apart. */
  ghost predicate CountersBelow(s: State) {
    SentBelow(s) && DroppedBelow(s)
  }

  lemma WorkerStepKeepsSent(s: State, step: Step)
    requires step.Schedule? || step.ReadCounter? || step.WriteCounter? || step.Return?
    requires SentBelow(s) && step.w < |s.workers|
    ensures SentBelow(WorkerStep(s, step))
  {
    hide Uncounted;
    var t := WorkerStep(s, step);
    UncountedUpdate(s.workers, step.w, t.workers[step.w], false);
    assert t.workers == s.workers[step.w := t.workers[step.w]];
  }

  lemma WorkerStepKeepsDropped(s: State, step: Step)
    requires step.Schedule? || step.ReadCounter? || step.WriteCounter? || step.Return?
    requires DroppedBelow(s) && step.w < |s.workers|
    ensures DroppedBelow(WorkerStep(s, step))
  {
    hide Uncounted;
    var t := WorkerStep(s, step);
    UncountedUpdate(s.workers, step.w, t.workers[step.w], true);
    assert t.workers == s.workers[step.w := t.workers[step.w]];
  }

  lemma StepKeepsCounters(s: State, step: Step)
    requires CountersBelow(s)
    ensures CountersBelow(Next(s, step))
  {
    if step.Schedule? || step.ReadCounter? || step.WriteCounter? || step.Return? {
      if step.w < |s.workers| {
        hide SentBelow, DroppedBelow, WorkerStep;
        WorkerStepKeepsSent(s, step);
        WorkerStepKeepsDropped(s, step);
      }
    }
  }

  lemma {:induction false} RunKeepsCounters(s: State, steps: seq<Step>)
    requires CountersBelow(s)
    ensures CountersBelow(Run(s, steps))
    decreases |steps|
  {
    hide CountersBelow, Next;
    if |steps| > 0 {
      StepKeepsCounters(s, steps[0]);
      RunKeepsCounters(Next(s, steps[0]), steps[1..]);
    }
  }

  lemma {:induction false} NoneUncounted(ws: seq<Worker>, refusals: bool)
    requires forall w :: 0 <= w < |ws| ==> !IsUncounted(ws[w], refusals)
    ensures Uncounted(ws, refusals) == 0
    decreases |ws|
  {
    if |ws| > 0 {
      NoneUncounted(ws[..|ws| - 1], refusals);
    }
  }

  /** With any number of threads the counters are lower bounds. */
  lemma CountersAreLowerBounds(n: nat, steps: seq<Step>)
    ensures var s := Run(Init(n), steps); s.sent <= |s.accepted| && s.dropped <= s.refused
  {
    NoneUncounted(Init(n).workers, false);
    NoneUncounted(Init(n).workers, true);
    RunKeepsCounters(Init(n), steps);
  }

  /** No call is being counted. */
  predicate Settled(s: State) {
    forall w :: 0 <= w < |s.workers| ==> s.workers[w].Between? || s.workers[w].Done?
  }

  /** The bridge's statistics are right: sent plus dropped is the number of calls. */
  predicate CountsExact(s: State) {
    Settled(s) ==> s.sent == |s.accepted| && s.dropped == s.refused
  }

  predicate OneWorkerExact(s: State) {
    && |s.workers| <= 1
    && (|s.workers| == 0 ==> s.sent == |s.accepted| && s.dropped == s.refused)
    && (|s.workers| == 1 ==>
          var w := s.workers[0];
          && s.sent + (if IsUncounted(w, false) then 1 else 0) == |s.accepted|
          && s.dropped + (if IsUncounted(w, true) then 1 else 0) == s.refused
          && (w.ReadSent? ==> w.seen == s.sent) && (w.ReadDropped? ==> w.seen == s.dropped))
  }

  lemma WorkerStepStaysExact(s: State, step: Step)
    requires OneWorkerExact(s)
    requires step.Schedule? || step.ReadCounter? || step.WriteCounter? || step.Return?
    ensures OneWorkerExact(WorkerStep(s, step))
  {
  }

  lemma StepStaysExact(s: State, step: Step)
    requires OneWorkerExact(s)
    ensures OneWorkerExact(Next(s, step))
  {
    if step.Schedule? || step.ReadCounter? || step.WriteCounter? || step.Return? {
      hide OneWorkerExact, WorkerStep;
      WorkerStepStaysExact(s, step);
    }
  }

  lemma {:induction false} OneWorkerStaysExact(s: State, steps: seq<Step>)
    requires OneWorkerExact(s)
    ensures OneWorkerExact(Run(s, steps))
    decreases |steps|
  {
    hide OneWorkerExact, Next;
    if |steps| > 0 {
      StepStaysExact(s, steps[0]);
      OneWorkerStaysExact(Next(s, steps[0]), steps[1..]);
    }
  }

  /** Two threads that read the counter before either writes it lose an update. */
  function LostUpdate(e: Event): seq<Step> {
    [Schedule(0, e), Schedule(1, e), ReadCounter(0), ReadCounter(1), WriteCounter(0), WriteCounter(1)]
  }

  lemma LostUpdateSteps(s: State, e: Event)
    ensures var s1 := Next(s, Schedule(0, e));
            var s2 := Next(s1, Schedule(1, e));
            var s3 := Next(s2, ReadCounter(0));
            var s4 := Next(s3, ReadCounter(1));
            var s5 := Next(s4, WriteCounter(0));
            Run(s, LostUpdate(e)) == Next(s5, WriteCounter(1))
  {
    hide Next;
    var s1 := Next(s, Schedule(0, e));
    var s2 := Next(s1, Schedule(1, e));
    var s3 := Next(s2, ReadCounter(0));
    var s4 := Next(s3, ReadCounter(1));
    var s5 := Next(s4, WriteCounter(0));
    var r5 := [WriteCounter(1)];
    var r4 := [WriteCounter(0)] + r5;
    var r3 := [ReadCounter(1)] + r4;
    var r2 := [ReadCounter(0)] + r3;
    var r1 := [Schedule(1, e)] + r2;
    OneThen(s, Schedule(0, e), r1);
    OneThen(s1, Schedule(1, e), r2);
    OneThen(s2, ReadCounter(0), r3);
    OneThen(s3, ReadCounter(1), r4);
    OneThen(s4, WriteCounter(0), r5);
    OneThen(s5, WriteCounter(1), []);
    assert r5 == [WriteCounter(1)] + [];
    assert LostUpdate(e) == [Schedule(0, e)] + r1;
  }

  lemma LostUpdateLoses(n: nat, e: Event)
    requires n >= 2
    ensures !CountsExact(Run(Init(n), LostUpdate(e)))
  {
    LostUpdateSteps(Init(n), e);
    hide Run, LostUpdate;
    var s2 := Next(Next(Init(n), Schedule(0, e)), Schedule(1, e));
    var s4 := Next(Next(s2, ReadCounter(0)), ReadCounter(1));
    var s6 := Next(Next(s4, WriteCounter(0)), WriteCounter(1));
    assert s6.workers == Init(n).workers && s6.sent == 1 && |s6.accepted| == 2;
    assert Settled(s6);
  }

  /** The statistics are right in every settled state of every run exactly when at
      most one thread uses the bridge. */
  lemma CountsExactExactlyWhen(n: nat)
    ensures (forall steps :: CountsExact(Run(Init(n), steps))) <==> n <= 1
  {
    hide Run;
    if n <= 1 {
      forall steps ensures CountsExact(Run(Init(n), steps)) {
        OneWorkerStaysExact(Init(n), steps);
      }
    } else {
      LostUpdateLoses(n, Event("p", "m"));
    }
  }

  // ------------------------------------------------------------------- the code

  /** The bridge as one thread sees it. */
  class ThreadSafeBridge {
    var closed: bool
    var pending: seq<Callback>
    var eventsSent: nat
    var eventsDropped: nat

    constructor ()
      ensures !closed && pending == [] && eventsSent == 0 && eventsDropped == 0
    {
      closed, pending, eventsSent, eventsDropped := false, [], 0, 0;
    }

    /** Never raises: a closed loop only drops the event. */
    method Send(worker: nat, event: Event)
      modifies this`pending, this`eventsSent, this`eventsDropped
      ensures pending == if closed then old(pending) else old(pending) + [Put(worker, event)]
      ensures eventsSent == old(eventsSent) + (if closed then 0 else 1)
      ensures eventsDropped == old(eventsDropped) + (if closed then 1 else 0)
    {
      if closed {
        eventsDropped := eventsDropped + 1;
      } else {
        pending := pending + [Put(worker, event)];
        eventsSent := eventsSent + 1;
      }
    }
  }

  /** The steps of one call that no other thread interrupts. */
  lemma CallIsThreeSteps(s: State, w: nat, e: Event)
    requires w < |s.workers| && s.workers[w].Between?
    ensures var t := Run(s, [Schedule(w, e), ReadCounter(w), WriteCounter(w)]);
            && t.workers == s.workers
            && t.pending == (if s.closed then s.pending else s.pending + [Put(w, e)])
            && t.sent == s.sent + (if s.closed then 0 else 1)
            && t.dropped == s.dropped + (if s.closed then 1 else 0)
  {
    var s1 := Next(s, Schedule(w, e));
    var s2 := Next(s1, ReadCounter(w));
    OneThen(s, Schedule(w, e), [ReadCounter(w), WriteCounter(w)]);
    OneThen(s1, ReadCounter(w), [WriteCounter(w)]);
    OneThen(s2, WriteCounter(w), []);
    assert [Schedule(w, e)] + [ReadCounter(w), WriteCounter(w)] == [Schedule(w, e), ReadCounter(w), WriteCounter(w)];
    assert [ReadCounter(w)] + [WriteCounter(w)] == [ReadCounter(w), WriteCounter(w)];
    assert [WriteCounter(w)] + [] == [WriteCounter(w)];
    assert Next(s2, WriteCounter(w)).workers == s.workers;
  }

  /** The positions among the first `n` whose event was not delivered. */
  ghost function FailedSends(outcomes: seq<Outcome>, n: nat): set<nat> {
    set i: nat | i < n && i < |outcomes| && outcomes[i] == NotDelivered
  }

  lemma FailedNone(outcomes: seq<Outcome>)
    ensures |FailedSends(outcomes, 0)| == 0
  {
    assert FailedSends(outcomes, 0) == {};
  }

  lemma FailedOneMore(outcomes: seq<Outcome>, n: nat)
    requires n < |outcomes|
    ensures |FailedSends(outcomes, n + 1)|
            == |FailedSends(outcomes, n)| + if outcomes[n].NotDelivered? then 1 else 0
  {
    if outcomes[n].NotDelivered? {
      assert FailedSends(outcomes, n + 1) == FailedSends(outcomes, n) + {n};
    } else {
      assert FailedSends(outcomes, n + 1) == FailedSends(outcomes, n);
    }
  }

  lemma BeforeSentinelFrom(queue: seq<Item>, i: nat)
    requires i < |queue|
    ensures BeforeSentinel(queue[i..])
            == if queue[i].Sentinel? then [] else [queue[i].event] + BeforeSentinel(queue[i + 1..])
  {
    assert queue[i..][1..] == queue[i + 1..];
  }

  /** The consumer's loop over what arrives on the queue: `outcomes[i]` is how sending
      event `i` ends. It stops at the first end marker and at nothing else. */
  method ConsumeProgressQueue(queue: seq<Item>, outcomes: seq<Outcome>)
    returns (forwarded: seq<Event>, eventsConsumed: nat, sendFailures: nat)
    requires Sentinel in queue && |outcomes| >= |queue|
    ensures forwarded == BeforeSentinel(queue) && eventsConsumed == |forwarded| <= |queue|
    ensures eventsConsumed < |queue| && queue[eventsConsumed] == Sentinel
    ensures forall i :: 0 <= i < eventsConsumed ==> queue[i] == Ev(forwarded[i])
    ensures sendFailures == |FailedSends(outcomes, eventsConsumed)|
  {
    hide BeforeSentinel, FailedSends;
    forwarded, eventsConsumed, sendFailures := [], 0, 0;
    assert queue[0..] == queue;
    FailedNone(outcomes);
    while true
      invariant eventsConsumed == |forwarded| <= |queue|
      invariant forall i :: 0 <= i < eventsConsumed ==> queue[i] == Ev(forwarded[i])
      invariant forwarded + BeforeSentinel(queue[eventsConsumed..]) == BeforeSentinel(queue)
      invariant sendFailures == |FailedSends(outcomes, eventsConsumed)|
      decreases |queue| - eventsConsumed
    {
      assert eventsConsumed < |queue|;
      var item := queue[eventsConsumed];
      BeforeSentinelFrom(queue, eventsConsumed);
      if item.Sentinel? {
        assert forwarded + [] == forwarded;
        break;
      }
      FailedOneMore(outcomes, eventsConsumed);
      assert forwarded + ([item.event] + BeforeSentinel(queue[eventsConsumed + 1..]))
          == (forwarded + [item.event]) + BeforeSentinel(queue[eventsConsumed + 1..]);
      if outcomes[eventsConsumed].NotDelivered? {
        sendFailures := sendFailures + 1;
      }
      forwarded := forwarded + [item.event];
      eventsConsumed := eventsConsumed + 1;
    }
  }
}
