/** The WebSocket connection table, the workflow table with its event numbers, and
    what disconnecting leaves behind. A send issues its number first and awaits the
    socket afterwards, so other steps can come between. */
module Connections {
  import opened Wrappers

  datatype Workflow = Workflow(client: string, status: string, lastEventId: nat)

  /** `running`: the keepalive tasks the event loop still runs. */
  datatype Manager = Manager(
    active: map<string, nat>, workflows: map<string, Workflow>,
    sessions: map<string, string>, keepalives: map<string, nat>, running: set<nat>)

  predicate IsTerminal(status: string) {
    status == "complete" || status == "cancelled" || status == "error"
  }

  /** A second connection of a client replaces its task without cancelling it. */
  function Connected(m: Manager, client: string, socket: nat, task: nat): Manager {
    m.(active := m.active[client := socket], keepalives := m.keepalives[client := task], running := m.running + {task})
  }

  function WithoutTerminal(workflows: map<string, Workflow>, client: string): map<string, Workflow> {
    map w | w in workflows && !(workflows[w].client == client && IsTerminal(workflows[w].status)) :: workflows[w]
  }

  function WithoutClient(sessions: map<string, string>, client: string): map<string, string> {
    map s | s in sessions && sessions[s] != client :: sessions[s]
  }

  function Disconnected(m: Manager, client: string): Manager {
    Manager(
      m.active - {client},
      WithoutTerminal(m.workflows, client),
      WithoutClient(m.sessions, client),
      m.keepalives - {client},
      if client in m.keepalives then m.running - {m.keepalives[client]} else m.running)
  }

  lemma TerminalRemoved(workflows: map<string, Workflow>, client: string)
    ensures workflows - (set w | w in workflows && workflows[w].client == client && IsTerminal(workflows[w].status))
         == WithoutTerminal(workflows, client)
  {
  }

  lemma StaleRemoved(sessions: map<string, string>, client: string)
    ensures sessions - (set s | s in sessions && sessions[s] == client) == WithoutClient(sessions, client)
  {
  }

  /** Every send for a workflow that is not in the table gets number 1. */
  function NextEventId(m: Manager, workflow: string): nat {
    if workflow in m.workflows then m.workflows[workflow].lastEventId + 1 else 1
  }

  function Numbered(m: Manager, workflow: string): Manager {
    if workflow !in m.workflows then m
    else
      var w := m.workflows[workflow];
      m.(workflows := m.workflows[workflow := w.(lastEventId := w.lastEventId + 1)])
  }

  function StatusSet(m: Manager, workflow: string, status: string): Manager {
    if workflow !in m.workflows then m
    else m.(workflows := m.workflows[workflow := m.workflows[workflow].(status := status)])
  }

  /** How awaiting the socket ends. */
  datatype Outcome = Delivered | Disconnects | Fails

  function Sent(m: Manager, client: string, workflow: string, outcome: Outcome): Manager {
    if client !in m.active then m
    else if outcome.Disconnects? then Disconnected(Numbered(m, workflow), client)
    else Numbered(m, workflow)
  }

  class ConnectionManager {
    var active: map<string, nat>
    var workflows: map<string, Workflow>
    var sessions: map<string, string>
    var keepalives: map<string, nat>
    var running: set<nat>

    ghost function State(): Manager
      reads this
    {
      Manager(active, workflows, sessions, keepalives, running)
    }

    constructor ()
      ensures State() == Manager(map[], map[], map[], map[], {})
    {
      active, workflows, sessions, keepalives, running := map[], map[], map[], map[], {};
    }

    /** Two sections under the lock. No section awaits, so the lock is always free and
        taking it does not suspend: nothing comes between the two. */
    method Connect(client: string, socket: nat, task: nat)
      modifies this
      ensures State() == Connected(old(State()), client, socket, task)
    {
      active := active[client := socket];
      keepalives := keepalives[client := task];
      running := running + {task};
    }

    /** Removes exactly the client's connection, keepalive, sessions and terminal
        workflows; everything else keeps its value. */
    method Disconnect(client: string)
      modifies this
      ensures State() == Disconnected(old(State()), client)
      ensures active == old(active) - {client} && keepalives == old(keepalives) - {client}
      ensures forall s :: s in sessions <==> s in old(sessions) && old(sessions)[s] != client
      ensures forall s :: s in sessions ==> sessions[s] == old(sessions)[s]
    {
      hide WithoutTerminal, WithoutClient, IsTerminal;
      if client in keepalives {
        var task := keepalives[client];
        keepalives := keepalives - {client};
        running := running - {task};
      }
      assert keepalives == old(keepalives) - {client};
      if client in active {
        active := active - {client};
      }
      assert active == old(active) - {client};
      var terminal := set w | w in workflows && workflows[w].client == client && IsTerminal(workflows[w].status);
      TerminalRemoved(workflows, client);
      workflows := workflows - terminal;
      var stale := set s | s in sessions && sessions[s] == client;
      StaleRemoved(sessions, client);
      sessions := sessions - stale;
    }

    method GetNextEventId(workflow: string) returns (id: nat)
      modifies this`workflows
      ensures id == NextEventId(old(State()), workflow)
      ensures State() == Numbered(old(State()), workflow)
    {
      if workflow in workflows {
        var w := workflows[workflow];
        workflows := workflows[workflow := w.(lastEventId := w.lastEventId + 1)];
        return w.lastEventId + 1;
      }
      id := 1;
    }

    /** One send that nothing interrupts; `None` when the client is not connected. */
    method SendEvent(client: string, workflow: string, outcome: Outcome) returns (ok: bool, id: Option<nat>)
      modifies this
      ensures ok <==> client in old(active) && outcome.Delivered?
      ensures id == if client in old(active) then Some(NextEventId(old(State()), workflow)) else None
      ensures State() == Sent(old(State()), client, workflow, outcome)
    {
      if client !in active {
        return false, None;
      }
      var n := GetNextEventId(workflow);
      match outcome
      case Delivered =>
        return true, Some(n);
      case Disconnects =>
        Disconnect(client);
        return false, Some(n);
      case Fails =>
        return false, Some(n);
    }

    /** `workflow` is a new identifier. */
    method CreateWorkflow(client: string, workflow: string)
      modifies this`workflows
      ensures State() == old(State()).(workflows := old(workflows)[workflow := Workflow(client, "running", 0)])
    {
      workflows := workflows[workflow := Workflow(client, "running", 0)];
    }

    method CompleteWorkflow(workflow: string, status: string)
      modifies this`workflows
      ensures State() == StatusSet(old(State()), workflow, status)
    {
      if workflow in workflows {
        workflows := workflows[workflow := workflows[workflow].(status := status)];
      }
    }

    method RegisterSession(session: string, client: string)
      modifies this`sessions
      ensures sessions == old(sessions)[session := client]
    {
      sessions := sessions[session := client];
    }

    method UnregisterSession(session: string)
      modifies this`sessions
      ensures sessions == old(sessions) - {session}
    {
      sessions := sessions - {session};
    }

    /** To the session's client, under the session id as workflow; an empty client id
        counts as none. */
    method BroadcastToSession(session: string, outcome: Outcome) returns (ok: bool, id: Option<nat>)
      modifies this
      ensures var client := if session in old(sessions) then old(sessions)[session] else "";
              (client == "" ==> !ok && id == None && State() == old(State()))
              && (client != "" ==>
                    && (ok <==> client in old(active) && outcome.Delivered?)
                    && State() == Sent(old(State()), client, session, outcome))
    {
      var client := if session in sessions then sessions[session] else "";
      if client == "" {
        return false, None;
      }
      ok, id := SendEvent(client, session, outcome);
    }
  }

  // ------------------------------------------------------------------ every run

  /** A send between its number and its end. */
  datatype Send = Send(client: string, socket: nat, workflow: string, id: nat, registered: bool)

  /** `issued` and `delivered`: the numbers of each workflow ever created, in order. */
  datatype World = World(
    m: Manager, flights: seq<Send>, tasks: set<nat>, issued: map<string, seq<nat>>, delivered: map<string, seq<nat>>)

  datatype Step =
    | Connect(client: string, socket: nat, task: nat)
    | Disconnect(client: string)
    | Create(client: string, workflow: string)
    | SetStatus(workflow: string, status: string)
    | Register(session: string, client: string)
    | Unregister(session: string)
    | BeginSend(client: string, workflow: string)
    | EndSend(flight: nat, outcome: Outcome)

  const START := World(Manager(map[], map[], map[], map[], {}), [], {}, map[], map[])

  function Begun(w: World, client: string, workflow: string): World
    requires client in w.m.active
  {
    var registered := workflow in w.m.workflows;
    var id := NextEventId(w.m, workflow);
    var send := Send(client, w.m.active[client], workflow, id, registered);
    var t := w.(m := Numbered(w.m, workflow), flights := w.flights + [send]);
    if registered && workflow in w.issued then t.(issued := w.issued[workflow := w.issued[workflow] + [id]]) else t
  }

  function Ended(w: World, k: nat, outcome: Outcome): World
    requires k < |w.flights|
  {
    var f := w.flights[k];
    var t := w.(flights := w.flights[..k] + w.flights[k + 1..]);
    match outcome
    case Delivered =>
      if f.registered && f.workflow in w.delivered
      then t.(delivered := w.delivered[f.workflow := w.delivered[f.workflow] + [f.id]])
      else t
    case Disconnects => t.(m := Disconnected(w.m, f.client))
    case Fails => t
  }

  /** Generated workflow ids and tasks do not repeat. */
  function Next(w: World, step: Step): World {
    match step
    case Connect(client, socket, task) =>
      if task in w.tasks then w else w.(m := Connected(w.m, client, socket, task), tasks := w.tasks + {task})
    case Disconnect(client) => w.(m := Disconnected(w.m, client))
    case Create(client, workflow) =>
      if workflow in w.issued then w
      else w.(m := w.m.(workflows := w.m.workflows[workflow := Workflow(client, "running", 0)]),
              issued := w.issued[workflow := []], delivered := w.delivered[workflow := []])
    case SetStatus(workflow, status) => w.(m := StatusSet(w.m, workflow, status))
    case Register(session, client) => w.(m := w.m.(sessions := w.m.sessions[session := client]))
    case Unregister(session) => w.(m := w.m.(sessions := w.m.sessions - {session}))
    case BeginSend(client, workflow) => if client in w.m.active then Begun(w, client, workflow) else w
    case EndSend(k, outcome) => if k < |w.flights| then Ended(w, k, outcome) else w
  }

  function Run(w: World, steps: seq<Step>): World
    decreases |steps|
  {
    if |steps| == 0 then w else Run(Next(w, steps[0]), steps[1..])
  }

  // -------------------------------------------------------------------- numbering

  /** The numbers issued for a workflow are 1, 2, 3, ... up to the one in the table. */
  ghost predicate Counting(w: World) {
    && w.issued.Keys == w.delivered.Keys
    && (forall f :: f in w.m.workflows ==> f in w.issued && w.m.workflows[f].lastEventId == |w.issued[f]|)
    && (forall f, i :: f in w.issued && 0 <= i < |w.issued[f]| ==> w.issued[f][i] == i + 1)
  }

  lemma DisconnectKeepsCounting(w: World, client: string)
    requires Counting(w)
    ensures Counting(w.(m := Disconnected(w.m, client)))
  {
  }

  lemma BeginKeepsCounting(w: World, client: string, workflow: string)
    requires Counting(w) && client in w.m.active
    ensures Counting(Begun(w, client, workflow))
  {
  }

  lemma EndKeepsCounting(w: World, k: nat, outcome: Outcome)
    requires Counting(w) && k < |w.flights|
    ensures Counting(Ended(w, k, outcome))
  {
    if outcome.Disconnects? {
      DisconnectKeepsCounting(w, w.flights[k].client);
    }
  }

  lemma StepKeepsCounting(w: World, step: Step)
    requires Counting(w)
    ensures Counting(Next(w, step))
  {
    hide Begun, Ended, Disconnected;
    match step
    case BeginSend(client, workflow) =>
      if client in w.m.active {
        BeginKeepsCounting(w, client, workflow);
      }
    case EndSend(k, outcome) =>
      if k < |w.flights| {
        EndKeepsCounting(w, k, outcome);
      }
    case Disconnect(client) => DisconnectKeepsCounting(w, client);
    case _ =>
  }

  lemma {:induction false} RunKeepsCounting(w: World, steps: seq<Step>)
    requires Counting(w)
    ensures Counting(Run(w, steps))
    decreases |steps|
  {
    hide Counting, Next;
    if |steps| > 0 {
      StepKeepsCounting(w, steps[0]);
      RunKeepsCounting(Next(w, steps[0]), steps[1..]);
    }
  }

  /** In every run, whatever connects, disconnects, fails or overlaps, the numbers
      issued while a workflow is in the table are 1, 2, 3, ... without gap or repeat. */
  lemma IssuedCountUp(steps: seq<Step>, f: string, i: nat)
    requires f in Run(START, steps).issued && i < |Run(START, steps).issued[f]|
    ensures Run(START, steps).issued[f][i] == i + 1
  {
    RunKeepsCounting(START, steps);
  }

  predicate Of(s: Send, f: string) {
    s.registered && s.workflow == f
  }

  /** In-flight numbers of one workflow have been issued and differ. */
  ghost predicate FlightsDiffer(w: World, f: string) {
    && (forall k :: 0 <= k < |w.flights| && Of(w.flights[k], f) ==>
         f in w.issued && 1 <= w.flights[k].id <= |w.issued[f]|)
    && (forall j, k :: 0 <= j < k < |w.flights| && Of(w.flights[j], f) && Of(w.flights[k], f) ==>
         w.flights[j].id != w.flights[k].id)
  }

  /** Delivered numbers have been issued, differ, and are no longer in flight. */
  ghost predicate DeliveredDiffer(w: World, f: string) {
    f in w.delivered ==>
      && f in w.issued
      && (forall i :: 0 <= i < |w.delivered[f]| ==> 1 <= w.delivered[f][i] <= |w.issued[f]|)
      && (forall i, k :: 0 <= i < |w.delivered[f]| && 0 <= k < |w.flights| && Of(w.flights[k], f) ==>
           w.delivered[f][i] != w.flights[k].id)
      && (forall i, j :: 0 <= i < j < |w.delivered[f]| ==> w.delivered[f][i] != w.delivered[f][j])
  }

  /** The parts of the world that numbering is about. */
  predicate SameNumbers(w: World, t: World) {
    w.flights == t.flights && w.issued == t.issued && w.delivered == t.delivered
  }

  lemma BeginKeepsDiffer(w: World, f: string, client: string, workflow: string)
    requires Counting(w) && FlightsDiffer(w, f) && DeliveredDiffer(w, f) && client in w.m.active
    ensures FlightsDiffer(Begun(w, client, workflow), f) && DeliveredDiffer(Begun(w, client, workflow), f)
  {
    var t := Begun(w, client, workflow);
    var last := t.flights[|w.flights|];
    assert forall k :: 0 <= k < |w.flights| ==> t.flights[k] == w.flights[k];
    assert Of(last, f) ==> f in w.issued && last.id == |w.issued[f]| + 1 == |t.issued[f]|;
    assert f in w.issued ==> f in t.issued && |w.issued[f]| <= |t.issued[f]|;
    hide Counting, Begun;
    assert FlightsDiffer(t, f) by {
      hide DeliveredDiffer;
    }
    hide FlightsDiffer;
  }

  lemma EndKeepsDiffer(w: World, f: string, k: nat, outcome: Outcome)
    requires FlightsDiffer(w, f) && DeliveredDiffer(w, f) && k < |w.flights|
    ensures FlightsDiffer(Ended(w, k, outcome), f) && DeliveredDiffer(Ended(w, k, outcome), f)
  {
    hide Disconnected;
    var t := Ended(w, k, outcome);
    assert forall j :: 0 <= j < |t.flights| ==> t.flights[j] == w.flights[if j < k then j else j + 1];
  }

  lemma StepKeepsDiffer(w: World, step: Step, f: string)
    requires Counting(w) && FlightsDiffer(w, f) && DeliveredDiffer(w, f)
    ensures FlightsDiffer(Next(w, step), f) && DeliveredDiffer(Next(w, step), f)
  {
    hide Begun, Ended, Disconnected;
    match step
    case BeginSend(client, workflow) =>
      if client in w.m.active {
        BeginKeepsDiffer(w, f, client, workflow);
      }
    case EndSend(k, outcome) =>
      if k < |w.flights| {
        EndKeepsDiffer(w, f, k, outcome);
      }
    case Create(_, _) =>
    case _ => assert SameNumbers(w, Next(w, step));
  }

  lemma {:induction false} RunKeepsDiffer(w: World, steps: seq<Step>, f: string)
    requires Counting(w) && FlightsDiffer(w, f) && DeliveredDiffer(w, f)
    ensures FlightsDiffer(Run(w, steps), f) && DeliveredDiffer(Run(w, steps), f)
    decreases |steps|
  {
    hide Counting, FlightsDiffer, DeliveredDiffer, Next;
    if |steps| > 0 {
      StepKeepsCounting(w, steps[0]);
      StepKeepsDiffer(w, steps[0], f);
      RunKeepsDiffer(Next(w, steps[0]), steps[1..], f);
    }
  }

  /** No number of a workflow is delivered twice, and none that was not issued. */
  lemma DeliveredOnce(steps: seq<Step>, f: string, i: nat, j: nat)
    requires var w := Run(START, steps); f in w.delivered && i < j < |w.delivered[f]|
    ensures var w := Run(START, steps);
            && f in w.issued && w.delivered[f][i] != w.delivered[f][j]
            && 1 <= w.delivered[f][i] <= |w.issued[f]| && 1 <= w.delivered[f][j] <= |w.issued[f]|
  {
    RunKeepsDiffer(START, steps, f);
  }

  predicate InFlight(w: World, f: string) {
    exists k :: 0 <= k < |w.flights| && Of(w.flights[k], f)
  }

  /** The run never begins a send for the workflow while another one is under way. */
  predicate Serial(w: World, steps: seq<Step>, f: string)
    decreases |steps|
  {
    |steps| > 0 ==>
      && !(steps[0].BeginSend? && steps[0].workflow == f && InFlight(w, f))
      && Serial(Next(w, steps[0]), steps[1..], f)
  }

  predicate Increasing(s: seq<nat>) {
    forall i, j :: 0 <= i < j < |s| ==> s[i] < s[j]
  }

  /** At most one send is under way, with the last number issued. */
  ghost predicate OneFlight(w: World, f: string) {
    && (forall k :: 0 <= k < |w.flights| && Of(w.flights[k], f) ==> f in w.issued && w.flights[k].id == |w.issued[f]|)
    && (forall j, k :: 0 <= j < k < |w.flights| ==> !(Of(w.flights[j], f) && Of(w.flights[k], f)))
  }

  ghost predicate InOrder(w: World, f: string) {
    f in w.delivered ==>
      && f in w.issued && Increasing(w.delivered[f])
      && (forall i :: 0 <= i < |w.delivered[f]| ==> w.delivered[f][i] <= |w.issued[f]|)
      && (forall i :: 0 <= i < |w.delivered[f]| && InFlight(w, f) ==> w.delivered[f][i] < |w.issued[f]|)
  }

  lemma BeginKeepsOrder(w: World, f: string, client: string, workflow: string)
    requires Counting(w) && OneFlight(w, f) && InOrder(w, f) && client in w.m.active
    requires workflow == f ==> !InFlight(w, f)
    ensures OneFlight(Begun(w, client, workflow), f) && InOrder(Begun(w, client, workflow), f)
  {
    var t := Begun(w, client, workflow);
    var last := t.flights[|w.flights|];
    assert forall k :: 0 <= k < |w.flights| ==> t.flights[k] == w.flights[k];
    if workflow == f {
      assert Of(last, f) ==> f in w.issued && last.id == |w.issued[f]| + 1 == |t.issued[f]|;
      assert !Of(last, f) ==> f in w.issued ==> t.issued[f] == w.issued[f];
      assert InFlight(t, f) ==> Of(last, f);
    } else {
      assert !Of(last, f);
      assert InFlight(t, f) ==> InFlight(w, f);
    }
  }

  lemma EndKeepsOrder(w: World, f: string, k: nat, outcome: Outcome)
    requires OneFlight(w, f) && InOrder(w, f) && k < |w.flights|
    ensures OneFlight(Ended(w, k, outcome), f) && InOrder(Ended(w, k, outcome), f)
  {
    hide Disconnected;
    var t := Ended(w, k, outcome);
    assert forall j :: 0 <= j < |t.flights| ==> t.flights[j] == w.flights[if j < k then j else j + 1];
    assert Of(w.flights[k], f) ==> InFlight(w, f) && !InFlight(t, f);
    assert InFlight(t, f) ==> InFlight(w, f);
  }

  lemma StepKeepsOrder(w: World, step: Step, f: string)
    requires Counting(w) && OneFlight(w, f) && InOrder(w, f)
    requires !(step.BeginSend? && step.workflow == f && InFlight(w, f))
    ensures OneFlight(Next(w, step), f) && InOrder(Next(w, step), f)
  {
    hide Begun, Ended, Disconnected;
    match step
    case BeginSend(client, workflow) =>
      if client in w.m.active {
        BeginKeepsOrder(w, f, client, workflow);
      }
    case EndSend(k, outcome) =>
      if k < |w.flights| {
        EndKeepsOrder(w, f, k, outcome);
      }
    case Create(_, _) =>
    case _ => assert SameNumbers(w, Next(w, step));
  }

  lemma {:induction false} RunKeepsOrder(w: World, steps: seq<Step>, f: string)
    requires Counting(w) && OneFlight(w, f) && InOrder(w, f) && Serial(w, steps, f)
    ensures InOrder(Run(w, steps), f)
    decreases |steps|
  {
    hide Counting, OneFlight, InOrder, Next, InFlight;
    if |steps| > 0 {
      StepKeepsCounting(w, steps[0]);
      StepKeepsOrder(w, steps[0], f);
      RunKeepsOrder(Next(w, steps[0]), steps[1..], f);
    }
  }

  /** When the sends of a workflow are awaited one after the other, as the progress
      consumer does, its delivered numbers strictly increase, over disconnects and
      reconnects too. */
  lemma DeliveredIncrease(steps: seq<Step>, f: string)
    requires Serial(START, steps, f) && f in Run(START, steps).delivered
    ensures Increasing(Run(START, steps).delivered[f])
  {
    RunKeepsOrder(START, steps, f);
  }

  /** Two sends of one workflow under way can be delivered the wrong way round. */
  lemma OverlapCanReorder(before: seq<Step>, f: string, j: nat, k: nat)
    requires var w := Run(START, before);
             f in w.delivered && j < k < |w.flights| && Of(w.flights[j], f) && Of(w.flights[k], f)
    ensures exists first, second ::
              var t := Next(Next(Run(START, before), EndSend(first, Delivered)), EndSend(second, Delivered));
              f in t.delivered && !Increasing(t.delivered[f])
  {
    RunKeepsDiffer(START, before, f);
    hide Run;
    var w := Run(START, before);
    if w.flights[j].id < w.flights[k].id {
      TwoDelivered(w, f, k, j, j);
    } else {
      TwoDelivered(w, f, j, k, k - 1);
    }
  }

  lemma TwoDelivered(w: World, f: string, hi: nat, lo: nat, rest: nat)
    requires f in w.delivered && hi < |w.flights| && lo < |w.flights| && Of(w.flights[hi], f) && Of(w.flights[lo], f)
    requires w.flights[lo].id < w.flights[hi].id && rest == if lo < hi then lo else lo - 1
    ensures var t := Next(Next(w, EndSend(hi, Delivered)), EndSend(rest, Delivered));
            f in t.delivered && !Increasing(t.delivered[f])
  {
    var u := Next(w, EndSend(hi, Delivered));
    assert u.flights[rest] == w.flights[lo];
    var t := Next(u, EndSend(rest, Delivered));
    var n := |w.delivered[f]|;
    assert t.delivered[f][n] == w.flights[hi].id && t.delivered[f][n + 1] == w.flights[lo].id;
  }

  // ------------------------------------------------- exactly when order is kept

  /** Delivered in order so far, and at most one send under way, with a later number. */
  ghost predicate Poised(w: World, f: string) {
    f in w.delivered ==>
      && Increasing(w.delivered[f])
      && (forall i, k :: 0 <= i < |w.delivered[f]| && 0 <= k < |w.flights| && Of(w.flights[k], f) ==>
            w.delivered[f][i] < w.flights[k].id)
      && (forall j, k :: 0 <= j < k < |w.flights| ==> !(Of(w.flights[j], f) && Of(w.flights[k], f)))
  }

  /** The step begins a numbered send of the workflow while another is under way. */
  predicate Overlaps(w: World, step: Step, f: string) {
    step.BeginSend? && step.workflow == f && f in w.m.workflows && step.client in w.m.active && InFlight(w, f)
  }

  lemma EndKeepsPoised(w: World, f: string, k: nat, outcome: Outcome)
    requires Poised(w, f) && k < |w.flights|
    ensures Poised(Ended(w, k, outcome), f)
  {
    hide Disconnected;
    var t := Ended(w, k, outcome);
    assert forall j :: 0 <= j < |t.flights| ==> t.flights[j] == w.flights[if j < k then j else j + 1];
  }

  lemma BeginPoisedExactlyWhen(w: World, f: string, client: string, workflow: string)
    requires Counting(w) && DeliveredDiffer(w, f) && Poised(w, f) && client in w.m.active
    ensures Poised(Begun(w, client, workflow), f) <==> !Overlaps(w, BeginSend(client, workflow), f)
  {
    var t := Begun(w, client, workflow);
    var n := |w.flights|;
    assert forall k :: 0 <= k < n ==> t.flights[k] == w.flights[k];
    if workflow == f && f in w.m.workflows {
      assert Of(t.flights[n], f) && f in w.delivered && t.flights[n].id == |w.issued[f]| + 1;
      if InFlight(w, f) {
        var k :| 0 <= k < n && Of(w.flights[k], f);
        assert Of(t.flights[k], f);
      }
    } else {
      assert !Of(t.flights[n], f);
    }
  }

  lemma StepKeepsPoisedExactlyWhen(w: World, step: Step, f: string)
    requires Counting(w) && FlightsDiffer(w, f) && DeliveredDiffer(w, f) && Poised(w, f)
    ensures Poised(Next(w, step), f) <==> !Overlaps(w, step, f)
  {
    hide Begun, Ended, Disconnected, InFlight;
    match step
    case BeginSend(client, workflow) =>
      if client in w.m.active {
        BeginPoisedExactlyWhen(w, f, client, workflow);
      }
    case EndSend(k, outcome) =>
      if k < |w.flights| {
        EndKeepsPoised(w, f, k, outcome);
      }
    case Create(_, _) =>
    case _ => assert SameNumbers(w, Next(w, step));
  }

  ghost predicate PoisedThroughout(w: World, steps: seq<Step>, f: string)
    decreases |steps|
  {
    Poised(w, f) && (|steps| > 0 ==> PoisedThroughout(Next(w, steps[0]), steps[1..], f))
  }

  predicate NoOverlap(w: World, steps: seq<Step>, f: string)
    decreases |steps|
  {
    |steps| > 0 ==> !Overlaps(w, steps[0], f) && NoOverlap(Next(w, steps[0]), steps[1..], f)
  }

  lemma {:induction false} PoisedRunExactlyWhen(w: World, steps: seq<Step>, f: string)
    requires Counting(w) && FlightsDiffer(w, f) && DeliveredDiffer(w, f) && Poised(w, f)
    ensures PoisedThroughout(w, steps, f) <==> NoOverlap(w, steps, f)
    decreases |steps|
  {
    hide Counting, FlightsDiffer, DeliveredDiffer, Poised, Overlaps, Next;
    if |steps| > 0 {
      StepKeepsPoisedExactlyWhen(w, steps[0], f);
      StepKeepsCounting(w, steps[0]);
      StepKeepsDiffer(w, steps[0], f);
      if Poised(Next(w, steps[0]), f) {
        PoisedRunExactlyWhen(Next(w, steps[0]), steps[1..], f);
      } else {
        NotPoisedNow(Next(w, steps[0]), steps[1..], f);
      }
    }
  }

  lemma NotPoisedNow(w: World, steps: seq<Step>, f: string)
    requires !Poised(w, f)
    ensures !PoisedThroughout(w, steps, f)
  {
  }

  predicate OnlyEnds(steps: seq<Step>) {
    forall i :: 0 <= i < |steps| ==> steps[i].EndSend?
  }

  predicate Ordered(w: World, f: string) {
    f in w.delivered ==> Increasing(w.delivered[f])
  }

  /** Whatever becomes of the sends under way, delivery is in order. */
  ghost predicate OrderedHoweverEnded(w: World, f: string) {
    forall ends :: OnlyEnds(ends) ==> Ordered(Run(w, ends), f)
  }

  lemma {:induction false} EndsKeepPoised(w: World, steps: seq<Step>, f: string)
    requires Poised(w, f) && OnlyEnds(steps)
    ensures Ordered(Run(w, steps), f)
    decreases |steps|
  {
    hide Ended, Increasing;
    if |steps| > 0 {
      if steps[0].flight < |w.flights| {
        EndKeepsPoised(w, f, steps[0].flight, steps[0].outcome);
      }
      EndsKeepPoised(Next(w, steps[0]), steps[1..], f);
    }
  }

  lemma PoisedExactlyWhen(w: World, f: string)
    requires FlightsDiffer(w, f) && DeliveredDiffer(w, f)
    ensures OrderedHoweverEnded(w, f) <==> Poised(w, f)
  {
    hide FlightsDiffer, DeliveredDiffer, Increasing;
    if Poised(w, f) {
      forall ends | OnlyEnds(ends) ensures Ordered(Run(w, ends), f) {
        EndsKeepPoised(w, ends, f);
      }
    } else if Increasing(w.delivered[f]) {
      var ends := GoesWrong(w, f);
      assert !Ordered(Run(w, ends), f);
    } else {
      assert OnlyEnds([]) && !Ordered(Run(w, []), f);
    }
  }

  /** However the sends under way end, delivery is in order exactly when it is so far, at
      most one send is under way, and its number is above all delivered ones. */
  lemma StaysInOrderExactlyWhen(before: seq<Step>, f: string)
    ensures var w := Run(START, before);
            (forall ends :: OnlyEnds(ends) ==> Ordered(Run(w, ends), f)) <==> Poised(w, f)
  {
    RunKeepsDiffer(START, before, f);
    PoisedExactlyWhen(Run(START, before), f);
  }

  lemma {:induction false} OrderedRunExactlyWhen(w: World, steps: seq<Step>, f: string)
    requires Counting(w) && FlightsDiffer(w, f) && DeliveredDiffer(w, f)
    ensures (forall n :: 0 <= n <= |steps| ==> OrderedHoweverEnded(Run(w, steps[..n]), f))
            <==> PoisedThroughout(w, steps, f)
    decreases |steps|
  {
    hide Counting, FlightsDiffer, DeliveredDiffer, Poised, Next, OrderedHoweverEnded;
    PoisedExactlyWhen(w, f);
    assert steps[..0] == [] && Run(w, []) == w;
    if |steps| > 0 {
      var next, rest := Next(w, steps[0]), steps[1..];
      StepKeepsCounting(w, steps[0]);
      StepKeepsDiffer(w, steps[0], f);
      OrderedRunExactlyWhen(next, rest, f);
      forall n | 0 <= n <= |rest| ensures Run(next, rest[..n]) == Run(w, steps[..n + 1]) {
        assert steps[..n + 1][0] == steps[0] && steps[..n + 1][1..] == rest[..n];
      }
      if n :| 1 <= n <= |steps| && !OrderedHoweverEnded(Run(w, steps[..n]), f) {
        assert !OrderedHoweverEnded(Run(next, rest[..n - 1]), f);
      }
    }
  }

  /** At every point of a run, and whatever becomes of the sends under way there, the
      delivered numbers of a workflow increase, exactly when no two of its sends overlap. */
  lemma InOrderThroughoutExactlyWhen(steps: seq<Step>, f: string)
    ensures (forall n, ends :: 0 <= n <= |steps| && OnlyEnds(ends) ==>
               Ordered(Run(Run(START, steps[..n]), ends), f))
            <==> NoOverlap(START, steps, f)
  {
    PoisedRunExactlyWhen(START, steps, f);
    OrderedRunExactlyWhen(START, steps, f);
    hide Run, NoOverlap, PoisedThroughout, Ordered, OnlyEnds;
  }

  lemma GoesWrong(w: World, f: string) returns (steps: seq<Step>)
    requires FlightsDiffer(w, f) && DeliveredDiffer(w, f) && f in w.delivered && Increasing(w.delivered[f])
             && !Poised(w, f)
    ensures OnlyEnds(steps) && f in Run(w, steps).delivered && !Increasing(Run(w, steps).delivered[f])
  {
    hide FlightsDiffer, DeliveredDiffer;
    if i, k :| 0 <= i < |w.delivered[f]| && 0 <= k < |w.flights| && Of(w.flights[k], f)
               && w.flights[k].id <= w.delivered[f][i] {
      var t := Next(w, EndSend(k, Delivered));
      assert t.delivered[f][|w.delivered[f]|] == w.flights[k].id && t.delivered[f][i] == w.delivered[f][i];
      steps := [EndSend(k, Delivered)];
      assert Run(t, steps[1..]) == t;
    } else {
      var j, k :| 0 <= j < k < |w.flights| && Of(w.flights[j], f) && Of(w.flights[k], f);
      steps := OneAfterTheOther(w, f, j, k);
    }
  }

  lemma OneAfterTheOther(w: World, f: string, j: nat, k: nat) returns (steps: seq<Step>)
    requires f in w.delivered && j < k < |w.flights| && Of(w.flights[j], f) && Of(w.flights[k], f)
             && FlightsDiffer(w, f)
    ensures OnlyEnds(steps) && f in Run(w, steps).delivered && !Increasing(Run(w, steps).delivered[f])
  {
    var hi, rest := k, j;
    if w.flights[j].id > w.flights[k].id {
      hi, rest := j, k - 1;
      TwoDelivered(w, f, j, k, k - 1);
    } else {
      TwoDelivered(w, f, k, j, j);
    }
    hide Next, Of, FlightsDiffer, Increasing;
    var first, second := EndSend(hi, Delivered), EndSend(rest, Delivered);
    steps := [first, second];
    OneThen(w, first, [second]);
    OneThen(Next(w, first), second, []);
    assert [second] + [] == [second] && [first] + [second] == steps;
  }

  // ---------------------------------------------------------- what a disconnect is

  predicate Untouched(step: Step, f: string) {
    step.SetStatus? && step.workflow == f ==> !IsTerminal(step.status)
  }

  lemma StepKeepsRunning(w: World, step: Step, f: string)
    requires Counting(w) && f in w.m.workflows && !IsTerminal(w.m.workflows[f].status) && Untouched(step, f)
    ensures var t := Next(w, step);
            && f in t.m.workflows && !IsTerminal(t.m.workflows[f].status)
            && t.m.workflows[f].client == w.m.workflows[f].client
            && w.m.workflows[f].lastEventId <= t.m.workflows[f].lastEventId
  {
  }

  /** A workflow that nobody ends stays in the table with its client and goes on
      counting where it was, whatever connections come and go. */
  lemma {:induction false} RunningWorkflowSurvives(w: World, steps: seq<Step>, f: string)
    requires Counting(w) && f in w.m.workflows && !IsTerminal(w.m.workflows[f].status)
    requires forall i :: 0 <= i < |steps| ==> Untouched(steps[i], f)
    ensures var t := Run(w, steps);
            && f in t.m.workflows && t.m.workflows[f].client == w.m.workflows[f].client
            && w.m.workflows[f].lastEventId <= t.m.workflows[f].lastEventId
            && f in t.issued && t.m.workflows[f].lastEventId == |t.issued[f]|
    decreases |steps|
  {
    hide Next, IsTerminal, Untouched;
    if |steps| > 0 {
      assert Untouched(steps[0], f);
      StepKeepsCounting(w, steps[0]);
      StepKeepsRunning(w, steps[0], f);
      RunningWorkflowSurvives(Next(w, steps[0]), steps[1..], f);
    }
  }

  /** Once a finished workflow has been removed, its later events are all number 1,
      a number it has already used if it ever sent. */
  lemma RemovedWorkflowRepeats(steps: seq<Step>, f: string, client: string)
    requires var w := Run(START, steps);
             f in w.issued && |w.issued[f]| > 0 && f !in w.m.workflows && client in w.m.active
    ensures var w := Run(START, steps);
            var t := Begun(w, client, f);
            t.flights[|t.flights| - 1].id == w.issued[f][0]
  {
    IssuedCountUp(steps, f, 0);
  }

  // --------------------------------------------------- whose connection is taken

  /** Every send under way whose client is connected uses the client's connection. */
  ghost predicate OwnSockets(w: World) {
    forall k :: 0 <= k < |w.flights| && w.flights[k].client in w.m.active ==>
      w.m.active[w.flights[k].client] == w.flights[k].socket
  }

  /** Failing takes down a connection that the send was not made on. */
  predicate TakesAnother(w: World, k: nat)
    requires k < |w.flights|
  {
    var f := w.flights[k];
    && f.client in w.m.active && w.m.active[f.client] != f.socket
    && f.client !in Next(w, EndSend(k, Disconnects)).m.active
  }

  /** Some send under way can take down another connection exactly when not all of
      them use their client's current one. */
  lemma TakesAnotherExactlyWhen(w: World)
    ensures (exists k :: 0 <= k < |w.flights| && TakesAnother(w, k)) <==> !OwnSockets(w)
  {
    if !OwnSockets(w) {
      var k :| 0 <= k < |w.flights| && w.flights[k].client in w.m.active
               && w.m.active[w.flights[k].client] != w.flights[k].socket;
      assert TakesAnother(w, k);
    }
  }

  /** The step connects no client that has a send under way on another connection. */
  predicate OpensClean(w: World, step: Step) {
    step.Connect? && step.task !in w.tasks ==>
      forall k :: 0 <= k < |w.flights| && w.flights[k].client == step.client ==> w.flights[k].socket == step.socket
  }

  lemma ConnectOwnExactlyWhen(w: World, client: string, socket: nat, task: nat)
    requires OwnSockets(w) && task !in w.tasks
    ensures OwnSockets(Next(w, Connect(client, socket, task))) <==> OpensClean(w, Connect(client, socket, task))
  {
    var t := Next(w, Connect(client, socket, task));
    if OwnSockets(t) {
      forall k | 0 <= k < |w.flights| && w.flights[k].client == client ensures w.flights[k].socket == socket {
        assert t.flights[k].client in t.m.active;
      }
    }
  }

  lemma OthersKeepOwn(w: World, step: Step)
    requires OwnSockets(w) && !step.Connect?
    ensures OwnSockets(Next(w, step))
  {
    hide WithoutTerminal, WithoutClient, NextEventId;
    var t := Next(w, step);
    assert forall c :: c in t.m.active ==> c in w.m.active && t.m.active[c] == w.m.active[c];
    if step.EndSend? && step.flight < |w.flights| {
      var k := step.flight;
      assert forall j :: 0 <= j < |t.flights| ==> t.flights[j] == w.flights[if j < k then j else j + 1];
    }
  }

  /** Connecting keeps it so exactly when the client's sends under way are all on the
      connection being opened; every other step keeps it so. */
  lemma StepKeepsOwnExactlyWhen(w: World, step: Step)
    requires OwnSockets(w)
    ensures OwnSockets(Next(w, step)) <==> OpensClean(w, step)
  {
    hide OwnSockets, OpensClean;
    if step.Connect? && step.task !in w.tasks {
      ConnectOwnExactlyWhen(w, step.client, step.socket, step.task);
    } else {
      NotOpening(w, step);
      if !step.Connect? {
        OthersKeepOwn(w, step);
      }
    }
  }

  lemma NotOpening(w: World, step: Step)
    requires !step.Connect? || step.task in w.tasks
    ensures OpensClean(w, step)
  {
  }

  ghost predicate OwnThroughout(w: World, steps: seq<Step>)
    decreases |steps|
  {
    OwnSockets(w) && (|steps| > 0 ==> OwnThroughout(Next(w, steps[0]), steps[1..]))
  }

  predicate OpensCleanThroughout(w: World, steps: seq<Step>)
    decreases |steps|
  {
    |steps| > 0 ==> OpensClean(w, steps[0]) && OpensCleanThroughout(Next(w, steps[0]), steps[1..])
  }

  lemma {:induction false} OwnRunExactlyWhen(w: World, steps: seq<Step>)
    requires OwnSockets(w)
    ensures OwnThroughout(w, steps) <==> OpensCleanThroughout(w, steps)
    decreases |steps|
  {
    hide OwnSockets, OpensClean, Next;
    if |steps| > 0 {
      StepKeepsOwnExactlyWhen(w, steps[0]);
      if OwnSockets(Next(w, steps[0])) {
        OwnRunExactlyWhen(Next(w, steps[0]), steps[1..]);
      } else {
        NotOwnNow(Next(w, steps[0]), steps[1..]);
      }
    }
  }

  lemma NotOwnNow(w: World, steps: seq<Step>)
    requires !OwnSockets(w)
    ensures !OwnThroughout(w, steps)
  {
  }

  /** In every state of a run all sends use their client's connection, so that none can
      take down another, exactly when no client connects while it has a send under
      way on another connection. */
  lemma OwnThroughoutExactlyWhen(steps: seq<Step>)
    ensures OwnThroughout(START, steps) <==> OpensCleanThroughout(START, steps)
  {
    OwnRunExactlyWhen(START, steps);
  }

  /** The send that fails takes down the client's connection, even one that was
      opened after the send began. */
  lemma FailingSendDropsNewerSocket(client: string, f: string)
    ensures var steps := [Connect(client, 1, 1), BeginSend(client, f), Disconnect(client), Connect(client, 2, 2)];
            var w := Run(START, steps);
            && client in w.m.active && w.m.active[client] == 2
            && |w.flights| == 1 && w.flights[0].socket == 1
            && client !in Next(w, EndSend(0, Disconnects)).m.active
  {
    var s1 := Next(START, Connect(client, 1, 1));
    var s2 := Next(s1, BeginSend(client, f));
    var s3 := Next(s2, Disconnect(client));
    var s4 := Next(s3, Connect(client, 2, 2));
    OneThen(START, Connect(client, 1, 1), [BeginSend(client, f), Disconnect(client), Connect(client, 2, 2)]);
    OneThen(s1, BeginSend(client, f), [Disconnect(client), Connect(client, 2, 2)]);
    OneThen(s2, Disconnect(client), [Connect(client, 2, 2)]);
    OneThen(s3, Connect(client, 2, 2), []);
    var r := [Connect(client, 2, 2)];
    assert r == r + [] && [Disconnect(client)] + r == [Disconnect(client), Connect(client, 2, 2)];
    assert [BeginSend(client, f)] + ([Disconnect(client)] + r)
        == [BeginSend(client, f), Disconnect(client), Connect(client, 2, 2)];
    assert [Connect(client, 1, 1)] + ([BeginSend(client, f)] + ([Disconnect(client)] + r))
        == [Connect(client, 1, 1), BeginSend(client, f), Disconnect(client), Connect(client, 2, 2)];
  }

  lemma OneThen(w: World, step: Step, rest: seq<Step>)
    ensures Run(w, [step] + rest) == Run(Next(w, step), rest)
  {
    assert ([step] + rest)[1..] == rest;
  }

  // -------------------------------------------------------------- keepalive tasks

  /** The running keepalive tasks are exactly those the table knows, one per client. */
  ghost predicate KeepalivesKnown(w: World) {
    && w.m.running == w.m.keepalives.Values
    && (forall c, d :: c in w.m.keepalives && d in w.m.keepalives && c != d ==> w.m.keepalives[c] != w.m.keepalives[d])
    && w.m.keepalives.Values <= w.tasks
  }

  lemma ValueOf(m: map<string, nat>, c: string)
    requires c in m
    ensures m[c] in m.Values
  {
  }

  /** Connecting leaves a task that nobody can cancel exactly when the client
      connects again without having been disconnected. */
  lemma ConnectKeepsKnownExactlyWhen(w: World, client: string, socket: nat, task: nat)
    requires KeepalivesKnown(w) && task !in w.tasks
    ensures KeepalivesKnown(Next(w, Connect(client, socket, task))) <==> client !in w.m.keepalives
  {
    var t := Next(w, Connect(client, socket, task));
    assert t.m.keepalives[client] == task;
    if client in w.m.keepalives {
      var earlier := w.m.keepalives[client];
      ValueOf(w.m.keepalives, client);
      assert earlier in t.m.running;
      assert forall c :: c in t.m.keepalives && c != client ==> t.m.keepalives[c] == w.m.keepalives[c] != earlier;
      assert task != earlier;
      assert earlier !in t.m.keepalives.Values;
    } else {
      assert forall x :: x in t.m.running ==> x in t.m.keepalives.Values by {
        forall x | x in t.m.running ensures x in t.m.keepalives.Values {
          if x != task {
            var c :| c in w.m.keepalives && w.m.keepalives[c] == x;
            assert c in t.m.keepalives && t.m.keepalives[c] == x;
          } else {
            ValueOf(t.m.keepalives, client);
          }
        }
      }
    }
  }

  lemma DisconnectKeepsKnown(w: World, client: string)
    requires KeepalivesKnown(w)
    ensures KeepalivesKnown(w.(m := Disconnected(w.m, client)))
  {
    hide WithoutTerminal, WithoutClient;
    var m := Disconnected(w.m, client);
    forall x | x in m.running ensures x in m.keepalives.Values {
      var c :| c in w.m.keepalives && w.m.keepalives[c] == x;
      assert c in m.keepalives && m.keepalives[c] == x;
    }
    forall x | x in m.keepalives.Values ensures x in m.running {
      var c :| c in m.keepalives && m.keepalives[c] == x;
      assert c != client && c in w.m.keepalives;
      ValueOf(w.m.keepalives, c);
    }
  }

  /** The step connects no client that still has a keepalive task. */
  predicate ConnectsOnce(w: World, step: Step) {
    step.Connect? && step.task !in w.tasks ==> step.client !in w.m.keepalives
  }

  lemma StepKeepsKnownExactlyWhen(w: World, step: Step)
    requires KeepalivesKnown(w)
    ensures KeepalivesKnown(Next(w, step)) <==> ConnectsOnce(w, step)
  {
    hide Disconnected;
    match step
    case Connect(client, socket, task) =>
      if task !in w.tasks {
        ConnectKeepsKnownExactlyWhen(w, client, socket, task);
      }
    case Disconnect(client) => DisconnectKeepsKnown(w, client);
    case EndSend(k, outcome) =>
      if k < |w.flights| {
        DisconnectKeepsKnown(w, w.flights[k].client);
      }
    case _ =>
  }

  ghost predicate KnownThroughout(w: World, steps: seq<Step>)
    decreases |steps|
  {
    KeepalivesKnown(w) && (|steps| > 0 ==> KnownThroughout(Next(w, steps[0]), steps[1..]))
  }

  predicate ConnectsOnceThroughout(w: World, steps: seq<Step>)
    decreases |steps|
  {
    |steps| > 0 ==> ConnectsOnce(w, steps[0]) && ConnectsOnceThroughout(Next(w, steps[0]), steps[1..])
  }

  lemma {:induction false} KnownRunExactlyWhen(w: World, steps: seq<Step>)
    requires KeepalivesKnown(w)
    ensures KnownThroughout(w, steps) <==> ConnectsOnceThroughout(w, steps)
    decreases |steps|
  {
    hide KeepalivesKnown, ConnectsOnce, Next;
    if |steps| > 0 {
      StepKeepsKnownExactlyWhen(w, steps[0]);
      if KeepalivesKnown(Next(w, steps[0])) {
        KnownRunExactlyWhen(Next(w, steps[0]), steps[1..]);
      } else {
        NotKnownNow(Next(w, steps[0]), steps[1..]);
      }
    }
  }

  lemma NotKnownNow(w: World, steps: seq<Step>)
    requires !KeepalivesKnown(w)
    ensures !KnownThroughout(w, steps)
  {
  }

  /** In every state of a run exactly one keepalive task runs for each client in the
      table and none besides, exactly when every reconnect follows a disconnect. */
  lemma NoStrayKeepalivesExactlyWhen(steps: seq<Step>)
    ensures KnownThroughout(START, steps) <==> ConnectsOnceThroughout(START, steps)
  {
    KnownRunExactlyWhen(START, steps);
  }
}
