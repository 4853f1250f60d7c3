/** The two-level event fan-in behind a streamed multi-repository answer.

    Every repository runs a workflow and a collector for its bounded progress
    queue; both put into the repository's own queue, whose loop forwards to the
    queue shared by all repositories, which the response loop drains. Every
    `await` is a point where any other task may run, so a run is an arbitrary
    sequence of the steps below. */
module FanIn {
  import opened Wrappers
  import opened SentinelQueue

  /** The size of a workflow's progress queue. */
  const CAPACITY := 100

  /** A workflow's final state; a value counts as present when it is non-empty. */
  type State = map<string, string>

  /** Tags of the two producers of a repository's queue. */
  const WORKFLOW: nat := 0
  const PROGRESS: nat := 1

  datatype Event = Event(source: nat, text: string)
  datatype Payload = Forward(event: Event) | Keepalive

  /** What the workflow does, in order: report granular progress, or yield a
      node event together with the node's state update. */
  datatype Action = Emit(text: string) | Yield(text: string, delta: State)

  /** One repository's workflow. An exception during set-up means nothing runs; an
      exception in the workflow only shortens `actions`; the collector has none, and
      may be left waiting for as long as the schedule likes. `checkpoint` is the reduced
      snapshot, or None when it is missing, empty or cannot be read. */
  datatype Script = Script(setupFails: bool, actions: seq<Action>, checkpoint: Option<State>)

  datatype Phase = Starting | Streaming | Ended
  datatype ProducerPhase = Running | Closed | Reported

  /** One repository task. `accepted`, `puts` and `sent` are histories: texts the
      progress queue took, non-empty events put into `queue`, and payloads put
      into the shared queue. */
  datatype Repo = Repo(
    phase: Phase,
    actions: seq<Action>,
    workflow: ProducerPhase,
    progress: seq<Option<string>>,
    collected: bool,
    queue: seq<Msg<string>>,
    seen: set<nat>,
    state: State,
    accepted: seq<string>,
    puts: seq<Event>,
    sent: seq<Payload>,
    keepalives: nat)

  datatype RepoStep = Start | RunWorkflow | CloseProgress | ReportWorkflow | Collect | Dequeue | Timeout | Finish

  function InitialRepo(sc: Script): Repo {
    Repo(Starting, sc.actions, Running, [], false, [], {}, map[], [], [], [], 0)
  }

  /** Both done flags of the repository loop are set. */
  predicate BothDone(r: Repo) {
    WORKFLOW in r.seen && PROGRESS in r.seen
  }

  predicate RepoEnabled(r: Repo, step: RepoStep) {
    match step
    case Start => r.phase.Starting?
    case RunWorkflow => r.phase.Streaming? && r.workflow.Running? && |r.actions| > 0
    case CloseProgress => r.phase.Streaming? && r.workflow.Running? && |r.actions| == 0
    case ReportWorkflow => r.phase.Streaming? && r.workflow.Closed?
    case Collect => r.phase.Streaming? && !r.collected && |r.progress| > 0
    case Dequeue => r.phase.Streaming? && !BothDone(r) && |r.queue| > 0
    case Timeout => r.phase.Streaming? && !BothDone(r)
    // After the loop the task waits for both collectors.
    case Finish => r.phase.Streaming? && BothDone(r) && r.workflow.Reported? && r.collected
  }

  function PutEvent(r: Repo, source: nat, text: string): Repo {
    r.(queue := r.queue + [Data(source, text)],
       puts := if |text| > 0 then r.puts + [Event(source, text)] else r.puts)
  }

  function SendPayload(r: Repo, p: Payload): Repo {
    r.(sent := r.sent + [p])
  }

  function RepoApply(sc: Script, r: Repo, step: RepoStep): Repo
    requires RepoEnabled(r, step)
  {
    match step
    case Start => r.(phase := if sc.setupFails then Ended else Streaming)
    case RunWorkflow => (
      var rest := r.(actions := r.actions[1..]);
      match r.actions[0]
      case Emit(text) =>
        if |r.progress| < CAPACITY
        then rest.(progress := r.progress + [Some(text)], accepted := r.accepted + [text])
        else rest
      case Yield(text, delta) => PutEvent(rest, WORKFLOW, text).(state := r.state + delta))
    case CloseProgress =>
      // A full queue silently loses the end marker.
      r.(workflow := Closed, progress := if |r.progress| < CAPACITY then r.progress + [None] else r.progress)
    case ReportWorkflow => r.(workflow := Reported, queue := r.queue + [Last(WORKFLOW)])
    case Collect => (
      var rest := r.(progress := r.progress[1..]);
      match r.progress[0]
      case None => rest.(collected := true, queue := r.queue + [Last(PROGRESS)])
      case Some(text) => PutEvent(rest, PROGRESS, text))
    case Dequeue => (
      var rest := r.(queue := r.queue[1..]);
      match r.queue[0]
      case Last(tag) => rest.(seen := r.seen + {tag})
      case Data(tag, text) => if |text| > 0 then SendPayload(rest, Forward(Event(tag, text))) else rest)
    case Timeout => SendPayload(r, Keepalive).(keepalives := r.keepalives + 1)
    case Finish => r.(phase := Ended)
  }

  /** What the step puts into the shared queue, for the task with tag `t`. */
  function Output(sc: Script, r: Repo, step: RepoStep, t: nat): seq<Msg<Payload>>
    requires RepoEnabled(r, step)
  {
    match step
    case Start => if sc.setupFails then [Last(t)] else []
    case Finish => [Last(t)]
    case Timeout => [Data(t, Keepalive)]
    case Dequeue =>
      if r.queue[0].Data? && |r.queue[0].payload| > 0
      then [Data(t, Forward(Event(r.queue[0].tag, r.queue[0].payload)))] else []
    case _ => []
  }

  /** What a finished task leaves in the result slot: the checkpoint when there
      is one, else the accumulated deltas; nothing if that is empty. */
  function SlotValue(sc: Script, r: Repo): Option<State> {
    var final := if !sc.setupFails && sc.checkpoint.Some? && sc.checkpoint.value != map[]
                 then sc.checkpoint.value else r.state;
    if final == map[] then None else Some(final)
  }

  datatype Config = Config(ids: seq<string>, scripts: seq<Script>)

  ghost predicate WellFormed(c: Config) {
    |c.ids| == |c.scripts|
  }

  /** `finished` and `dequeues` are histories of the response loop; `out` is what
      it yielded, its own keepalives carrying the tag |ids|. */
  datatype System = System(
    tasks: seq<Repo>,
    shared: seq<Msg<Payload>>,
    slot: map<string, Option<State>>,
    reposDone: set<string>,
    out: seq<Msg<Payload>>,
    finished: set<nat>,
    dequeues: nat)

  datatype Step = Task(i: nat, step: RepoStep) | TakeShared | Idle

  function Initial(c: Config): System
    requires |c.ids| == |c.scripts|
  {
    System(seq(|c.scripts|, i requires 0 <= i < |c.scripts| => InitialRepo(c.scripts[i])), [], map[], {}, [], {}, 0)
  }

  /** The response loop's exit test counts distinct ids against the list's length. */
  predicate Exited(c: Config, s: System) {
    |s.reposDone| >= |c.ids|
  }

  predicate Enabled(c: Config, s: System, step: Step) {
    match step
    case Task(i, st) => i < |s.tasks| == |c.ids| == |c.scripts| && RepoEnabled(s.tasks[i], st)
    case TakeShared => !Exited(c, s) && |s.shared| > 0 && s.shared[0].tag < |c.ids|
    case Idle => !Exited(c, s)
  }

  function Apply(c: Config, s: System, step: Step): System
    requires Enabled(c, s, step)
  {
    match step
    case Task(i, st) =>
      var r := s.tasks[i];
      var r' := RepoApply(c.scripts[i], r, st);
      s.(tasks := s.tasks[i := r'],
         shared := s.shared + Output(c.scripts[i], r, st, i),
         slot := if r'.phase.Ended? && !r.phase.Ended? then s.slot[c.ids[i] := SlotValue(c.scripts[i], r')] else s.slot)
    case TakeShared =>
      var rest := s.(shared := s.shared[1..], dequeues := s.dequeues + 1);
      if s.shared[0].Last?
      then rest.(reposDone := s.reposDone + {c.ids[s.shared[0].tag]}, finished := s.finished + {s.shared[0].tag})
      else rest.(out := s.out + [s.shared[0]])
    case Idle => s.(out := s.out + [Data(|c.ids|, Keepalive)])
  }

  // ---------------------------------------------------------------- one task

  /** The non-empty events of a producer, as texts. */
  function Texts(events: seq<Event>, source: nat): seq<string> {
    if |events| == 0 then []
    else if events[0].source == source then [events[0].text] + Texts(events[1..], source)
    else Texts(events[1..], source)
  }

  function Forwarded(ps: seq<Payload>): seq<Event> {
    if |ps| == 0 then []
    else if ps[0].Forward? then [ps[0].event] + Forwarded(ps[1..])
    else Forwarded(ps[1..])
  }

  function Queued(q: seq<Msg<string>>): seq<Event> {
    if |q| == 0 then []
    else if q[0].Data? && |q[0].payload| > 0 then [Event(q[0].tag, q[0].payload)] + Queued(q[1..])
    else Queued(q[1..])
  }

  function NonEmpty(texts: seq<string>): seq<string> {
    if |texts| == 0 then []
    else if |texts[0]| > 0 then [texts[0]] + NonEmpty(texts[1..])
    else NonEmpty(texts[1..])
  }

  function Waiting(p: seq<Option<string>>): seq<string> {
    if |p| == 0 then []
    else if p[0].Some? then [p[0].value] + Waiting(p[1..])
    else Waiting(p[1..])
  }

  /** The node events a workflow yields, and the progress texts it emits. */
  function Yields(actions: seq<Action>): seq<string> {
    if |actions| == 0 then []
    else if actions[0].Yield? then [actions[0].text] + Yields(actions[1..])
    else Yields(actions[1..])
  }

  function Emits(actions: seq<Action>): seq<string> {
    if |actions| == 0 then []
    else if actions[0].Emit? then [actions[0].text] + Emits(actions[1..])
    else Emits(actions[1..])
  }

  /** The state after the remaining updates. */
  function Merge(state: State, actions: seq<Action>): State
    decreases actions
  {
    if |actions| == 0 then state
    else if actions[0].Yield? then Merge(state + actions[0].delta, actions[1..])
    else Merge(state, actions[1..])
  }

  lemma {:induction false} TextsConcat(a: seq<Event>, b: seq<Event>, source: nat)
    ensures Texts(a + b, source) == Texts(a, source) + Texts(b, source)
  {
    if |a| == 0 {
      assert a + b == b;
    } else {
      assert (a + b)[0] == a[0] && (a + b)[1..] == a[1..] + b;
      TextsConcat(a[1..], b, source);
    }
  }

  lemma {:induction false} ForwardedConcat(a: seq<Payload>, b: seq<Payload>)
    ensures Forwarded(a + b) == Forwarded(a) + Forwarded(b)
  {
    if |a| == 0 {
      assert a + b == b;
    } else {
      assert (a + b)[0] == a[0] && (a + b)[1..] == a[1..] + b;
      ForwardedConcat(a[1..], b);
    }
  }

  lemma {:induction false} QueuedConcat(a: seq<Msg<string>>, b: seq<Msg<string>>)
    ensures Queued(a + b) == Queued(a) + Queued(b)
  {
    if |a| == 0 {
      assert a + b == b;
    } else {
      assert (a + b)[0] == a[0] && (a + b)[1..] == a[1..] + b;
      QueuedConcat(a[1..], b);
    }
  }

  lemma {:induction false} NonEmptyConcat(a: seq<string>, b: seq<string>)
    ensures NonEmpty(a + b) == NonEmpty(a) + NonEmpty(b)
  {
    if |a| == 0 {
      assert a + b == b;
    } else {
      assert (a + b)[0] == a[0] && (a + b)[1..] == a[1..] + b;
      NonEmptyConcat(a[1..], b);
    }
  }

  lemma {:induction false} WaitingConcat(a: seq<Option<string>>, b: seq<Option<string>>)
    ensures Waiting(a + b) == Waiting(a) + Waiting(b)
  {
    if |a| == 0 {
      assert a + b == b;
    } else {
      assert (a + b)[0] == a[0] && (a + b)[1..] == a[1..] + b;
      WaitingConcat(a[1..], b);
    }
  }

  /** Producers of the repository queue that have put their sentinel. */
  function ClosedTags(r: Repo): set<nat> {
    (if r.workflow.Reported? then {WORKFLOW} else {}) + (if r.collected then {PROGRESS} else {})
  }

  /** The queue, the flags and the producers agree. */
  ghost predicate QueueInv(r: Repo) {
    && Consistent(r.queue, ClosedTags(r), r.seen)
    && (forall k :: 0 <= k < |r.queue| ==> r.queue[k].tag <= 1)
    && (r.phase.Starting? ==> r.queue == [] && r.seen == {} && r.workflow.Running? && !r.collected)
  }

  /** The end marker, if there is one, is the last thing in the progress queue. */
  ghost predicate ProgressInv(r: Repo) {
    && |r.progress| <= CAPACITY
    && (forall k :: 0 <= k < |r.progress| && r.progress[k].None? ==> k == |r.progress| - 1 && !r.workflow.Running?)
    && (r.collected ==> r.progress == [] && !r.workflow.Running?)
    && (!r.workflow.Running? ==> |r.actions| == 0)
  }

  /** Forwarded events, then queued ones, are the events put, in order. */
  ghost predicate SentInv(r: Repo) {
    && Forwarded(r.sent) + Queued(r.queue) == r.puts
    && |r.sent| == |Forwarded(r.sent)| + r.keepalives
    && (forall k :: 0 <= k < |r.puts| ==> r.puts[k].source <= 1)
  }

  /** Node events put, then those still to come, are the workflow's. */
  ghost predicate NodeInv(sc: Script, r: Repo) {
    && Texts(r.puts, WORKFLOW) + NonEmpty(Yields(r.actions)) == NonEmpty(Yields(sc.actions))
    && Merge(r.state, r.actions) == Merge(map[], sc.actions)
  }

  /** Progress events put, then those waiting, are the ones accepted. */
  ghost predicate GranularInv(r: Repo) {
    Texts(r.puts, PROGRESS) + NonEmpty(Waiting(r.progress)) == NonEmpty(r.accepted)
  }

  ghost predicate PhaseInv(sc: Script, r: Repo) {
    && (r.phase.Starting? ==> r == InitialRepo(sc))
    && (r.phase.Streaming? ==> !sc.setupFails)
    && (r.phase.Ended? && !sc.setupFails ==> BothDone(r))
    && (sc.setupFails ==> r.(phase := Starting) == InitialRepo(sc))
  }

  /** With fewer than CAPACITY progress texts none is dropped, and neither is the
      end marker. */
  predicate Fits(sc: Script) {
    sc.setupFails || |Emits(sc.actions)| < CAPACITY
  }

  ghost predicate FitsInv(sc: Script, r: Repo) {
    && r.accepted + Emits(r.actions) == Emits(sc.actions)
    && |r.progress| <= |r.accepted| + (if r.workflow.Running? then 0 else 1)
    && (!r.workflow.Running? && !r.collected ==> |r.progress| > 0 && r.progress[|r.progress| - 1].None?)
  }

  ghost predicate RepoInv(sc: Script, r: Repo) {
    && QueueInv(r) && ProgressInv(r) && SentInv(r) && NodeInv(sc, r) && GranularInv(r) && PhaseInv(sc, r)
    && (Fits(sc) && !sc.setupFails ==> FitsInv(sc, r))
  }

  lemma QueueKept(sc: Script, r: Repo, step: RepoStep)
    requires RepoEnabled(r, step) && QueueInv(r) && ProgressInv(r)
    ensures QueueInv(RepoApply(sc, r, step))
  {
    hide Consistent;
    var r' := RepoApply(sc, r, step);
    match step
    case RunWorkflow =>
      if r.actions[0].Yield? {
        PutData(r.queue, ClosedTags(r), r.seen, WORKFLOW, r.actions[0].text);
      }
    case ReportWorkflow =>
      PutLast(r.queue, ClosedTags(r), r.seen, WORKFLOW);
      assert ClosedTags(r') == ClosedTags(r) + {WORKFLOW};
    case Collect =>
      if r.progress[0].None? {
        PutLast(r.queue, ClosedTags(r), r.seen, PROGRESS);
        assert ClosedTags(r') == ClosedTags(r) + {PROGRESS};
      } else {
        PutData(r.queue, ClosedTags(r), r.seen, PROGRESS, r.progress[0].value);
      }
    case Dequeue => Take(r.queue, ClosedTags(r), r.seen);
    case _ =>
  }

  lemma ProgressKept(sc: Script, r: Repo, step: RepoStep)
    requires RepoEnabled(r, step) && ProgressInv(r)
    ensures ProgressInv(RepoApply(sc, r, step))
  {
  }

  lemma MarkerIsNoEvent(q: seq<Msg<string>>, tag: nat)
    ensures Queued(q + [Last(tag)]) == Queued(q)
  {
    QueuedConcat(q, [Last(tag)]);
  }

  lemma PutKeepsSent(r: Repo, source: nat, text: string)
    requires SentInv(r) && source <= 1
    ensures SentInv(PutEvent(r, source, text))
  {
    hide Forwarded;
    QueuedConcat(r.queue, [Data(source, text)]);
    if |text| > 0 {
      assert Queued([Data(source, text)]) == [Event(source, text)];
    }
  }

  lemma SendKeepsSent(r: Repo)
    requires SentInv(r) && |r.queue| > 0 && r.queue[0].Data? && |r.queue[0].payload| > 0
    ensures SentInv(SendPayload(r.(queue := r.queue[1..]), Forward(Event(r.queue[0].tag, r.queue[0].payload))))
  {
    var e := Event(r.queue[0].tag, r.queue[0].payload);
    ForwardedConcat(r.sent, [Forward(e)]);
    assert Forwarded([Forward(e)]) == [e];
  }

  lemma MarkerKeepsSent(r: Repo, tag: nat)
    requires SentInv(r)
    ensures SentInv(r.(queue := r.queue + [Last(tag)]))
  {
    hide Forwarded, Queued;
    MarkerIsNoEvent(r.queue, tag);
  }

  lemma KeepaliveKeepsSent(r: Repo)
    requires SentInv(r)
    ensures SentInv(SendPayload(r, Keepalive).(keepalives := r.keepalives + 1))
  {
    hide Queued;
    ForwardedConcat(r.sent, [Keepalive]);
    assert Forwarded([Keepalive]) == Forwarded([]) == [];
  }

  lemma SilentKeepsSent(r: Repo)
    requires SentInv(r) && |r.queue| > 0 && !(r.queue[0].Data? && |r.queue[0].payload| > 0)
    ensures SentInv(r.(queue := r.queue[1..]))
  {
    hide Forwarded;
  }

  /** The invariant does not look at the other fields. */
  lemma SentOnly(r: Repo, r': Repo)
    requires SentInv(r) && r'.sent == r.sent && r'.queue == r.queue && r'.puts == r.puts
             && r'.keepalives == r.keepalives
    ensures SentInv(r')
  {
  }

  lemma SentKept(sc: Script, r: Repo, step: RepoStep)
    requires RepoEnabled(r, step) && SentInv(r)
    ensures SentInv(RepoApply(sc, r, step))
  {
    hide SentInv;
    var r' := RepoApply(sc, r, step);
    match step
    case RunWorkflow =>
      if r.actions[0].Yield? {
        PutKeepsSent(r, WORKFLOW, r.actions[0].text);
        SentOnly(PutEvent(r, WORKFLOW, r.actions[0].text), r');
      } else {
        SentOnly(r, r');
      }
    case ReportWorkflow =>
      MarkerKeepsSent(r, WORKFLOW);
      SentOnly(r.(queue := r.queue + [Last(WORKFLOW)]), r');
    case Collect =>
      if r.progress[0].None? {
        MarkerKeepsSent(r, PROGRESS);
        SentOnly(r.(queue := r.queue + [Last(PROGRESS)]), r');
      } else {
        PutKeepsSent(r, PROGRESS, r.progress[0].value);
        SentOnly(PutEvent(r, PROGRESS, r.progress[0].value), r');
      }
    case Dequeue =>
      if r.queue[0].Data? && |r.queue[0].payload| > 0 {
        SendKeepsSent(r);
      } else {
        SilentKeepsSent(r);
        SentOnly(r.(queue := r.queue[1..]), r');
      }
    case Timeout => KeepaliveKeepsSent(r);
    case _ => SentOnly(r, r');
  }

  lemma PutTexts(puts: seq<Event>, source: nat, text: string, other: nat)
    ensures Texts(puts + [Event(source, text)], other) == Texts(puts, other) + (if source == other then [text] else [])
  {
    TextsConcat(puts, [Event(source, text)], other);
  }

  lemma YieldKeepsNode(sc: Script, r: Repo)
    requires RepoEnabled(r, RunWorkflow) && r.actions[0].Yield? && NodeInv(sc, r)
    ensures NodeInv(sc, RepoApply(sc, r, RunWorkflow))
  {
    hide Texts;
    var text := r.actions[0].text;
    var rest := Yields(r.actions[1..]);
    PutTexts(r.puts, WORKFLOW, text, WORKFLOW);
    assert Yields(r.actions) == [text] + rest;
    NonEmptyConcat([text], rest);
    assert NonEmpty([text]) == if |text| > 0 then [text] else [];
  }

  lemma NodeKept(sc: Script, r: Repo, step: RepoStep)
    requires RepoEnabled(r, step) && NodeInv(sc, r)
    ensures NodeInv(sc, RepoApply(sc, r, step))
  {
    hide Texts, NonEmpty;
    match step
    case RunWorkflow =>
      if r.actions[0].Yield? {
        YieldKeepsNode(sc, r);
      }
    case Collect =>
      if r.progress[0].Some? {
        PutTexts(r.puts, PROGRESS, r.progress[0].value, WORKFLOW);
      }
    case _ =>
  }

  lemma EmitKeepsGranular(r: Repo, text: string)
    requires GranularInv(r)
    ensures Texts(r.puts, PROGRESS) + NonEmpty(Waiting(r.progress + [Some(text)])) == NonEmpty(r.accepted + [text])
  {
    WaitingConcat(r.progress, [Some(text)]);
    assert Waiting([Some(text)]) == [text];
    NonEmptyConcat(Waiting(r.progress), [text]);
    NonEmptyConcat(r.accepted, [text]);
  }

  lemma CollectKeepsGranular(r: Repo, text: string)
    requires GranularInv(r) && |r.progress| > 0 && r.progress[0] == Some(text)
    ensures GranularInv(PutEvent(r.(progress := r.progress[1..]), PROGRESS, text))
  {
    hide Texts;
    var rest := Waiting(r.progress[1..]);
    PutTexts(r.puts, PROGRESS, text, PROGRESS);
    NonEmptyConcat([text], rest);
    if |text| > 0 {
      assert NonEmpty([text]) == [text];
    }
  }

  lemma GranularKept(sc: Script, r: Repo, step: RepoStep)
    requires RepoEnabled(r, step) && GranularInv(r)
    ensures GranularInv(RepoApply(sc, r, step))
  {
    hide Texts, NonEmpty;
    match step
    case RunWorkflow =>
      if r.actions[0].Emit? {
        EmitKeepsGranular(r, r.actions[0].text);
      } else {
        PutTexts(r.puts, WORKFLOW, r.actions[0].text, PROGRESS);
      }
    case CloseProgress =>
      WaitingConcat(r.progress, [None]);
      assert Waiting([None]) == [];
      assert Waiting(r.progress + [None]) == Waiting(r.progress);
    case Collect =>
      if r.progress[0].Some? {
        CollectKeepsGranular(r, r.progress[0].value);
      }
    case _ =>
  }

  lemma EmitsUnfold(actions: seq<Action>)
    requires |actions| > 0
    ensures Emits(actions) == (if actions[0].Emit? then [actions[0].text] else []) + Emits(actions[1..])
  {
  }

  lemma FitsKept(sc: Script, r: Repo, step: RepoStep)
    requires RepoEnabled(r, step) && FitsInv(sc, r) && ProgressInv(r) && |Emits(sc.actions)| < CAPACITY
    ensures FitsInv(sc, RepoApply(sc, r, step))
  {
    hide Emits;
    if step.RunWorkflow? {
      EmitsUnfold(r.actions);
    }
  }

  lemma PhaseKept(sc: Script, r: Repo, step: RepoStep)
    requires RepoEnabled(r, step) && PhaseInv(sc, r)
    ensures PhaseInv(sc, RepoApply(sc, r, step))
  {
  }

  lemma RepoInvKept(sc: Script, r: Repo, step: RepoStep)
    requires RepoEnabled(r, step) && RepoInv(sc, r)
    ensures RepoInv(sc, RepoApply(sc, r, step))
  {
    hide QueueInv, ProgressInv, SentInv, NodeInv, GranularInv, PhaseInv, FitsInv, RepoApply, RepoEnabled;
    QueueKept(sc, r, step);
    ProgressKept(sc, r, step);
    SentKept(sc, r, step);
    NodeKept(sc, r, step);
    GranularKept(sc, r, step);
    PhaseKept(sc, r, step);
    if Fits(sc) && !sc.setupFails {
      FitsKept(sc, r, step);
    }
  }

  /** When a repository loop ends, everything its producers put has been forwarded. */
  lemma EndedRepoIsDrained(sc: Script, r: Repo)
    requires RepoInv(sc, r) && r.phase.Ended? && !sc.setupFails
    ensures r.queue == [] && r.workflow.Reported? && r.collected
    ensures Forwarded(r.sent) == r.puts
    ensures Texts(r.puts, WORKFLOW) == NonEmpty(Yields(sc.actions))
    ensures Texts(r.puts, PROGRESS) == NonEmpty(r.accepted)
    ensures Fits(sc) ==> r.accepted == Emits(sc.actions)
    ensures r.state == Merge(map[], sc.actions)
  {
    assert WORKFLOW in ClosedTags(r) && PROGRESS in ClosedTags(r);
    Drained(r.queue, ClosedTags(r), r.seen);
  }

  /** A repository task that has not ended, and whose end marker cannot be lost,
      always has a step other than waiting. */
  function UsefulStep(r: Repo): RepoStep {
    if r.phase.Starting? then Start
    else if r.workflow.Running? then (if |r.actions| > 0 then RunWorkflow else CloseProgress)
    else if r.workflow.Closed? then ReportWorkflow
    else if !r.collected && |r.progress| > 0 then Collect
    else if BothDone(r) then Finish
    else Dequeue
  }

  lemma UsefulStepEnabled(sc: Script, r: Repo)
    requires RepoInv(sc, r) && Fits(sc) && !r.phase.Ended?
    ensures RepoEnabled(r, UsefulStep(r)) && !UsefulStep(r).Timeout?
  {
    hide SentInv, NodeInv, GranularInv;
    if UsefulStep(r).Dequeue? {
      assert r.collected && r.workflow.Reported?;
      assert WORKFLOW in ClosedTags(r) && PROGRESS in ClosedTags(r);
    } else if UsefulStep(r).Finish? {
      assert r.phase.Streaming?;
    }
  }
}
