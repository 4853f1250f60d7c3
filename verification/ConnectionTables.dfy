/** What the connection, session and workflow tables hold after any run, read off its
    steps: the last step that entered something, unless a later one removed it. */
module ConnectionTables {
  import opened Wrappers
  import opened Connections

  // ---------------------------------------------------------------- one disconnect

  /** A disconnect takes the client's connection, keepalive task, sessions and ended
      workflows, and leaves everything else as it was. */
  lemma DisconnectTakesOnlyItsOwn(m: Manager, client: string)
    ensures var d := Disconnected(m, client);
            && (forall c :: c in d.active <==> c in m.active && c != client)
            && (forall c :: c in d.active ==> d.active[c] == m.active[c])
            && (forall c :: c in d.keepalives <==> c in m.keepalives && c != client)
            && (forall c :: c in d.keepalives ==> d.keepalives[c] == m.keepalives[c])
            && (forall s :: s in d.sessions <==> s in m.sessions && m.sessions[s] != client)
            && (forall s :: s in d.sessions ==> d.sessions[s] == m.sessions[s])
            && (forall f :: f in d.workflows <==>
                  f in m.workflows
                  && !(m.workflows[f].client == client && m.workflows[f].status in {"complete", "cancelled", "error"}))
            && (forall f :: f in d.workflows ==> d.workflows[f] == m.workflows[f])
            && (forall t :: t in d.running <==>
                  t in m.running && !(client in m.keepalives && m.keepalives[client] == t))
  {
  }

  /** One send that nothing interrupts is a number taken and a socket awaited: the two
      steps of a send in a row. */
  lemma SendIsTwoSteps(w: World, client: string, workflow: string, outcome: Outcome)
    requires client in w.m.active
    ensures var begun := Next(w, BeginSend(client, workflow));
            var ended := Next(begun, EndSend(|w.flights|, outcome));
            && Sent(w.m, client, workflow, outcome) == ended.m && ended.flights == w.flights
            && |begun.flights| == |w.flights| + 1
            && begun.flights[|w.flights|].id == NextEventId(w.m, workflow)
            && begun.flights[|w.flights|].client == client
            && begun.flights[|w.flights|].socket == w.m.active[client]
  {
    hide Disconnected;
  }

  /** Without a connection nothing is sent, and nothing changes. */
  lemma NoConnectionNoSend(w: World, client: string, workflow: string, outcome: Outcome)
    requires client !in w.m.active
    ensures Sent(w.m, client, workflow, outcome) == w.m && Next(w, BeginSend(client, workflow)) == w
  {
  }

  /** The step disconnects the client, by itself or by a send that finds its socket gone. */
  predicate Drops(w: World, step: Step, client: string) {
    || step == Disconnect(client)
    || (step.EndSend? && step.outcome.Disconnects? && step.flight < |w.flights|
        && w.flights[step.flight].client == client)
  }

  // ------------------------------------------------------------------ the last step

  function Before(steps: seq<Step>, i: nat): World
    requires i <= |steps|
  {
    Run(START, steps[..i])
  }

  lemma {:induction false} RunOneMore(w: World, steps: seq<Step>, step: Step)
    ensures Run(w, steps + [step]) == Next(Run(w, steps), step)
    decreases |steps|
  {
    hide Next;
    if |steps| == 0 {
      assert steps + [step] == [step] && [step][1..] == [];
    } else {
      assert (steps + [step])[0] == steps[0] && (steps + [step])[1..] == steps[1..] + [step];
      RunOneMore(Next(w, steps[0]), steps[1..], step);
    }
  }

  lemma BeforeNext(steps: seq<Step>, i: nat)
    requires i < |steps|
    ensures Before(steps, i + 1) == Next(Before(steps, i), steps[i])
  {
    hide Next;
    assert steps[..i + 1] == steps[..i] + [steps[i]];
    RunOneMore(START, steps[..i], steps[i]);
  }

  // ------------------------------------------------------------------------ sessions

  predicate Unmaps(w: World, step: Step, session: string, client: string) {
    || (step.Register? && step.session == session)
    || step == Unregister(session)
    || Drops(w, step, client)
  }

  predicate Mapped(w: World, session: string, client: string) {
    session in w.m.sessions && w.m.sessions[session] == client
  }

  lemma StepMaps(w: World, step: Step, session: string, client: string)
    ensures Mapped(Next(w, step), session, client)
            <==> step == Register(session, client) || (Mapped(w, session, client) && !Unmaps(w, step, session, client))
  {
  }

  /** Step `j` registered the session to the client, and none up to `n` unmapped it since. */
  ghost predicate LastMap(steps: seq<Step>, n: nat, j: nat, session: string, client: string)
    requires n <= |steps|
  {
    && j < n && steps[j] == Register(session, client)
    && forall i :: j < i < n ==> !Unmaps(Before(steps, i), steps[i], session, client)
  }

  lemma {:induction false} MappedUpTo(steps: seq<Step>, n: nat, session: string, client: string)
    requires n <= |steps|
    ensures Mapped(Before(steps, n), session, client) <==> exists j: nat :: LastMap(steps, n, j, session, client)
  {
    hide Next, Unmaps;
    if n == 0 {
      assert steps[..0] == [];
    } else {
      hide Before, Mapped;
      var i := n - 1;
      MappedUpTo(steps, i, session, client);
      BeforeNext(steps, i);
      StepMaps(Before(steps, i), steps[i], session, client);
      forall j: nat | LastMap(steps, n, j, session, client) && j < i
        ensures LastMap(steps, i, j, session, client)
      {
      }
      if steps[i] == Register(session, client) {
        assert LastMap(steps, n, i, session, client);
      } else if Mapped(Before(steps, n), session, client) {
        var j: nat :| LastMap(steps, i, j, session, client);
        assert LastMap(steps, n, j, session, client);
      }
    }
  }

  /** A session is mapped to a client exactly when it was registered to it at some point
      and since then neither registered again nor unregistered, and the client was not
      disconnected. */
  lemma SessionMappedExactlyWhen(steps: seq<Step>, session: string, client: string)
    ensures Mapped(Run(START, steps), session, client)
            <==> exists j: nat :: LastMap(steps, |steps|, j, session, client)
  {
    MappedUpTo(steps, |steps|, session, client);
    assert steps[..|steps|] == steps;
  }

  // --------------------------------------------------------------------- connections

  /** The step connects the client, with a task that is new. */
  predicate Opens(steps: seq<Step>, i: nat, client: string)
    requires i < |steps|
  {
    steps[i].Connect? && steps[i].client == client
    && forall h :: 0 <= h < i && steps[h].Connect? ==> steps[h].task != steps[i].task
  }

  lemma {:induction false} TasksOfRun(steps: seq<Step>, n: nat, task: nat)
    requires n <= |steps|
    ensures task in Before(steps, n).tasks <==> exists h :: 0 <= h < n && steps[h].Connect? && steps[h].task == task
  {
    if n == 0 {
      assert steps[..0] == [];
    } else {
      TasksOfRun(steps, n - 1, task);
      BeforeNext(steps, n - 1);
      StepTasks(Before(steps, n - 1), steps[n - 1], task);
      hide Next, Run, Before;
    }
  }

  lemma StepTasks(w: World, step: Step, task: nat)
    ensures task in Next(w, step).tasks <==> task in w.tasks || (step.Connect? && step.task == task)
  {
  }

  predicate ConnectedBy(w: World, client: string, socket: nat, task: nat) {
    && client in w.m.active && w.m.active[client] == socket
    && client in w.m.keepalives && w.m.keepalives[client] == task
  }

  lemma StepConnects(w: World, step: Step, client: string, socket: nat, task: nat)
    ensures var opens := step.Connect? && step.client == client && step.task !in w.tasks;
            ConnectedBy(Next(w, step), client, socket, task)
            <==> (opens && step.socket == socket && step.task == task)
                 || (ConnectedBy(w, client, socket, task) && !opens && !Drops(w, step, client))
  {
  }

  /** Step `j` connected the client so, and none up to `n` connected or disconnected it since. */
  ghost predicate LastOpen(steps: seq<Step>, n: nat, j: nat, client: string, socket: nat, task: nat)
    requires n <= |steps|
  {
    && j < n && Opens(steps, j, client) && steps[j] == Connect(client, socket, task)
    && forall i :: j < i < n ==> !Opens(steps, i, client) && !Drops(Before(steps, i), steps[i], client)
  }

  lemma {:induction false} ConnectedUpTo(steps: seq<Step>, n: nat, client: string, socket: nat, task: nat)
    requires n <= |steps|
    ensures ConnectedBy(Before(steps, n), client, socket, task)
            <==> exists j: nat :: LastOpen(steps, n, j, client, socket, task)
  {
    hide Next, Drops, Opens;
    if n == 0 {
      assert steps[..0] == [];
    } else {
      hide Before, ConnectedBy;
      var i := n - 1;
      ConnectedUpTo(steps, i, client, socket, task);
      BeforeNext(steps, i);
      StepConnects(Before(steps, i), steps[i], client, socket, task);
      OpensExactlyWhen(steps, i, client);
      forall j: nat | LastOpen(steps, n, j, client, socket, task) && j < i
        ensures LastOpen(steps, i, j, client, socket, task)
      {
      }
      if Opens(steps, i, client) && steps[i] == Connect(client, socket, task) {
        assert LastOpen(steps, n, i, client, socket, task);
      } else if ConnectedBy(Before(steps, n), client, socket, task) {
        var j: nat :| LastOpen(steps, i, j, client, socket, task);
        assert LastOpen(steps, n, j, client, socket, task);
      }
    }
  }

  /** A client is connected, by a socket and with a keepalive task, exactly when some step
      connected it so, and since then it neither connected again nor was disconnected. */
  lemma ConnectedExactlyWhen(steps: seq<Step>, client: string, socket: nat, task: nat)
    ensures ConnectedBy(Run(START, steps), client, socket, task)
            <==> exists j: nat :: LastOpen(steps, |steps|, j, client, socket, task)
  {
    ConnectedUpTo(steps, |steps|, client, socket, task);
    assert steps[..|steps|] == steps;
  }

  lemma OpensExactlyWhen(steps: seq<Step>, i: nat, client: string)
    requires i < |steps|
    ensures Opens(steps, i, client)
            <==> steps[i].Connect? && steps[i].client == client && steps[i].task !in Before(steps, i).tasks
  {
    hide Before;
    if steps[i].Connect? {
      TasksOfRun(steps, i, steps[i].task);
    }
  }

  // ----------------------------------------------------------------------- workflows

  /** The step creates the workflow; identifiers do not repeat. */
  predicate Makes(steps: seq<Step>, i: nat, f: string)
    requires i < |steps|
  {
    steps[i].Create? && steps[i].workflow == f
    && forall h :: 0 <= h < i && steps[h].Create? ==> steps[h].workflow != f
  }

  lemma {:induction false} CreatedOfRun(steps: seq<Step>, n: nat, f: string)
    requires n <= |steps|
    ensures f in Before(steps, n).issued <==> exists h :: 0 <= h < n && steps[h].Create? && steps[h].workflow == f
  {
    if n == 0 {
      assert steps[..0] == [];
    } else {
      CreatedOfRun(steps, n - 1, f);
      BeforeNext(steps, n - 1);
      StepCreated(Before(steps, n - 1), steps[n - 1], f);
      hide Next, Run, Before;
    }
  }

  lemma StepCreated(w: World, step: Step, f: string)
    ensures f in Next(w, step).issued <==> f in w.issued || (step.Create? && step.workflow == f)
  {
  }

  lemma MakesExactlyWhen(steps: seq<Step>, i: nat, f: string)
    requires i < |steps|
    ensures Makes(steps, i, f) <==> steps[i].Create? && steps[i].workflow == f && f !in Before(steps, i).issued
  {
    hide Before;
    if steps[i].Create? {
      CreatedOfRun(steps, i, f);
    }
  }

  predicate Owned(w: World, f: string, client: string) {
    f in w.m.workflows && w.m.workflows[f].client == client
  }

  /** The step disconnects the client while its workflow has ended. */
  predicate Discards(w: World, step: Step, f: string, client: string) {
    Drops(w, step, client) && f in w.m.workflows && w.m.workflows[f].status in {"complete", "cancelled", "error"}
  }

  lemma StepOwns(w: World, step: Step, f: string, client: string)
    requires Counting(w)
    ensures var makes := step.Create? && step.workflow == f && f !in w.issued;
            Owned(Next(w, step), f, client)
            <==> (makes && step.client == client)
                 || (Owned(w, f, client) && !makes && !Discards(w, step, f, client))
  {
    StepWorkflow(w, step, f);
    hide Next;
  }

  /** What a step does to one entry of the workflow table, its number apart. */
  lemma StepWorkflow(w: World, step: Step, f: string)
    requires Counting(w)
    ensures var t := Next(w, step).m.workflows;
            if step.Create? && step.workflow == f && f !in w.issued
            then f in t && t[f].client == step.client && t[f].status == "running"
            else
              && (f in t <==> f in w.m.workflows && !Discards(w, step, f, w.m.workflows[f].client))
              && (f in t ==>
                    && t[f].client == w.m.workflows[f].client
                    && t[f].status == if step.SetStatus? && step.workflow == f then step.status
                                      else w.m.workflows[f].status)
  {
    hide Counting;
    match step
    case Create(_, _) => CountedIsIssued(w, f);
    case BeginSend(client, workflow) =>
    case EndSend(k, outcome) =>
    case _ =>
  }

  lemma CountedIsIssued(w: World, f: string)
    requires Counting(w)
    ensures f in w.m.workflows ==> f in w.issued
  {
  }

  /** Step `j` created the workflow for the client, and none up to `n` discarded it since. */
  ghost predicate LastMake(steps: seq<Step>, n: nat, j: nat, f: string, client: string)
    requires n <= |steps|
  {
    && j < n && Makes(steps, j, f) && steps[j] == Create(client, f)
    && forall i :: j < i < n ==> !Discards(Before(steps, i), steps[i], f, client)
  }

  lemma {:induction false} OwnedUpTo(steps: seq<Step>, n: nat, f: string, client: string)
    requires n <= |steps|
    ensures Owned(Before(steps, n), f, client) <==> exists j: nat :: LastMake(steps, n, j, f, client)
  {
    hide Next, Discards, Makes, Counting;
    if n == 0 {
      assert steps[..0] == [];
    } else {
      hide Before, Owned;
      var i := n - 1;
      OwnedUpTo(steps, i, f, client);
      BeforeNext(steps, i);
      BeforeCounts(steps, i);
      StepOwns(Before(steps, i), steps[i], f, client);
      MakesExactlyWhen(steps, i, f);
      forall j: nat | LastMake(steps, n, j, f, client) && j < i
        ensures LastMake(steps, i, j, f, client) && !Makes(steps, i, f)
      {
        MadeOnce(steps, f, j, i);
      }
      if Makes(steps, i, f) && steps[i] == Create(client, f) {
        assert LastMake(steps, n, i, f, client);
      } else if Owned(Before(steps, n), f, client) {
        var j: nat :| LastMake(steps, i, j, f, client);
        assert LastMake(steps, n, j, f, client);
      }
    }
  }

  /** A workflow is in the table, under a client, exactly when that client created it and
      has not been disconnected since at a time when the workflow had ended. */
  lemma WorkflowKeptExactlyWhen(steps: seq<Step>, f: string, client: string)
    ensures Owned(Run(START, steps), f, client) <==> exists j: nat :: LastMake(steps, |steps|, j, f, client)
  {
    OwnedUpTo(steps, |steps|, f, client);
    assert steps[..|steps|] == steps;
  }

  lemma MadeOnce(steps: seq<Step>, f: string, j: nat, i: nat)
    requires j < i < |steps| && Makes(steps, j, f)
    ensures !Makes(steps, i, f)
  {
  }

  lemma BeforeCounts(steps: seq<Step>, i: nat)
    requires i <= |steps|
    ensures Counting(Before(steps, i))
  {
    RunKeepsCounting(START, steps[..i]);
  }

  /** The workflow is in the table with the status. */
  predicate HasStatus(w: World, f: string, status: string) {
    f in w.m.workflows && w.m.workflows[f].status == status
  }

  /** The step gives a workflow that is in the table the status. */
  predicate Gives(steps: seq<Step>, i: nat, f: string, status: string)
    requires i < |steps|
  {
    || (steps[i] == SetStatus(f, status) && f in Before(steps, i).m.workflows)
    || (Makes(steps, i, f) && status == "running")
  }

  /** The step gives the workflow any status, or discards it. */
  predicate Ends(steps: seq<Step>, i: nat, f: string)
    requires i < |steps|
  {
    var w := Before(steps, i);
    || (steps[i].SetStatus? && steps[i].workflow == f)
    || (f in w.m.workflows && Discards(w, steps[i], f, w.m.workflows[f].client))
  }

  lemma StepStatus(w: World, step: Step, f: string, status: string)
    requires Counting(w)
    ensures var makes := step.Create? && step.workflow == f && f !in w.issued;
            HasStatus(Next(w, step), f, status)
            <==> (step == SetStatus(f, status) && f in w.m.workflows) || (makes && status == "running")
                 || (HasStatus(w, f, status) && !(step.SetStatus? && step.workflow == f)
                     && !Discards(w, step, f, w.m.workflows[f].client))
  {
    StepWorkflow(w, step, f);
    hide Next, Counting;
    CountedIsIssued(w, f);
  }

  /** Step `j` gave the workflow the status, and none up to `n` gave it another or
      discarded it since. */
  ghost predicate LastGive(steps: seq<Step>, n: nat, j: nat, f: string, status: string)
    requires n <= |steps|
  {
    j < n && Gives(steps, j, f, status) && forall i :: j < i < n ==> !Ends(steps, i, f)
  }

  lemma {:induction false} StatusUpTo(steps: seq<Step>, n: nat, f: string, status: string)
    requires n <= |steps|
    ensures HasStatus(Before(steps, n), f, status) <==> exists j: nat :: LastGive(steps, n, j, f, status)
  {
    hide Next, Gives, Ends;
    if n == 0 {
      assert steps[..0] == [];
    } else {
      hide Before, HasStatus;
      var i := n - 1;
      StatusUpTo(steps, i, f, status);
      BeforeNext(steps, i);
      OneStatus(steps, i, f, status);
      forall j: nat | LastGive(steps, n, j, f, status) && j < i
        ensures LastGive(steps, i, j, f, status)
      {
      }
      if Gives(steps, i, f, status) {
        assert LastGive(steps, n, i, f, status);
      } else if HasStatus(Before(steps, n), f, status) {
        var j: nat :| LastGive(steps, i, j, f, status);
        assert LastGive(steps, n, j, f, status);
      }
    }
  }

  /** A workflow in the table has the status it was given last: "running" when it was
      created, or what was set since. */
  lemma StatusIsLastSet(steps: seq<Step>, f: string, status: string)
    ensures HasStatus(Run(START, steps), f, status) <==> exists j: nat :: LastGive(steps, |steps|, j, f, status)
  {
    StatusUpTo(steps, |steps|, f, status);
    assert steps[..|steps|] == steps;
  }

  lemma OneStatus(steps: seq<Step>, i: nat, f: string, status: string)
    requires i < |steps|
    ensures HasStatus(Next(Before(steps, i), steps[i]), f, status)
            <==> Gives(steps, i, f, status) || (HasStatus(Before(steps, i), f, status) && !Ends(steps, i, f))
  {
    hide Before, Next, Discards, Counting, Makes;
    BeforeCounts(steps, i);
    StepStatus(Before(steps, i), steps[i], f, status);
    MakesExactlyWhen(steps, i, f);
  }
}
