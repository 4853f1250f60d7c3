/** Whole runs of the fan-in: what every interleaving keeps, what is true when
    the response loop exits, and exactly when every run can finish. */
module FanInRuns {
  import opened Wrappers
  import opened SentinelQueue
  import opened FanIn

  function EndedTags(s: System): set<nat> {
    set i: nat | i < |s.tasks| && s.tasks[i].phase.Ended?
  }

  function PutCount(r: Repo): nat {
    |r.sent| + if r.phase.Ended? then 1 else 0
  }

  ghost predicate ShapeInv(c: Config, s: System) {
    |s.tasks| == |c.ids| == |c.scripts|
  }

  ghost predicate SharedInv(c: Config, s: System) {
    && Consistent(s.shared, EndedTags(s), s.finished)
    && (forall k :: 0 <= k < |s.shared| ==> s.shared[k].tag < |c.ids|)
  }

  ghost predicate DoneInv(c: Config, s: System) {
    && (forall t :: t in s.finished ==> t < |c.ids|)
    && (forall t :: t in s.finished && t < |c.ids| ==> c.ids[t] in s.reposDone)
    && (forall id :: id in s.reposDone ==> exists t :: t in s.finished && t < |c.ids| && c.ids[t] == id)
  }

  /** What task `i` put into the shared queue was yielded or is still queued, in order. */
  ghost predicate YieldInv(s: System) {
    forall i: nat :: i < |s.tasks| ==> s.tasks[i].sent == Of(s.out, i) + Of(s.shared, i)
  }

  ghost predicate CountInv(s: System) {
    s.dequeues + |s.shared| == Sum(s.tasks, PutCount)
  }

  ghost predicate SlotInv(c: Config, s: System)
    requires ShapeInv(c, s)
  {
    && (forall i: nat :: i < |s.tasks| && s.tasks[i].phase.Ended? ==> c.ids[i] in s.slot)
    && (forall id :: id in s.slot ==> exists i: nat :: IsSource(c, s, i, id))
  }

  /** The entry comes from this ended task. */
  ghost predicate IsSource(c: Config, s: System, i: nat, id: string)
    requires ShapeInv(c, s) && id in s.slot
  {
    i < |s.tasks| && s.tasks[i].phase.Ended? && c.ids[i] == id && s.slot[id] == SlotValue(c.scripts[i], s.tasks[i])
  }

  ghost predicate TasksInv(c: Config, s: System)
    requires ShapeInv(c, s)
  {
    forall i: nat :: i < |s.tasks| ==> RepoInv(c.scripts[i], s.tasks[i])
  }

  ghost predicate Inv(c: Config, s: System) {
    && ShapeInv(c, s) && SharedInv(c, s) && DoneInv(c, s) && YieldInv(s) && CountInv(s)
    && SlotInv(c, s) && TasksInv(c, s)
  }

  // ------------------------------------------------------------ preservation

  lemma InitialQueueInv(sc: Script)
    ensures QueueInv(InitialRepo(sc)) && ProgressInv(InitialRepo(sc))
  {
  }

  lemma InitialSentInv(sc: Script)
    ensures SentInv(InitialRepo(sc)) && GranularInv(InitialRepo(sc))
  {
  }

  lemma InitialNodeInv(sc: Script)
    ensures NodeInv(sc, InitialRepo(sc)) && PhaseInv(sc, InitialRepo(sc))
    ensures Fits(sc) && !sc.setupFails ==> FitsInv(sc, InitialRepo(sc))
  {
    hide Yields, Emits, NonEmpty, Merge;
    assert Texts([], WORKFLOW) == [];
  }

  lemma InitialRepoInv(sc: Script)
    ensures RepoInv(sc, InitialRepo(sc))
  {
    hide QueueInv, ProgressInv, SentInv, NodeInv, GranularInv, PhaseInv, FitsInv, Fits;
    InitialQueueInv(sc);
    InitialSentInv(sc);
    InitialNodeInv(sc);
  }

  lemma {:induction false} SumOfZeros<T>(s: seq<T>, f: T -> nat)
    requires forall k :: 0 <= k < |s| ==> f(s[k]) == 0
    ensures Sum(s, f) == 0
  {
    if |s| > 0 {
      SumOfZeros(s[1..], f);
    }
  }

  lemma NothingPut(sc: Script)
    ensures PutCount(InitialRepo(sc)) == 0
  {
  }

  lemma NothingOf(t: nat)
    ensures Of<Payload>([], t) == []
  {
  }

  lemma InitialInv(c: Config)
    requires WellFormed(c)
    ensures Inv(c, Initial(c))
  {
    hide RepoInv, SlotValue, PutCount, Of, Sum;
    var s := Initial(c);
    assert EndedTags(s) == {};
    forall i: nat ensures Of<Payload>([], i) == [] {
      NothingOf(i);
    }
    forall i: nat | i < |s.tasks| ensures RepoInv(c.scripts[i], s.tasks[i]) {
      InitialRepoInv(c.scripts[i]);
    }
    forall k | 0 <= k < |s.tasks| ensures PutCount(s.tasks[k]) == 0 {
      NothingPut(c.scripts[k]);
    }
    SumOfZeros(s.tasks, PutCount);
  }

  /** A step of task `t` appends to the shared queue exactly what it adds to its history. */
  lemma OutputIsSent(sc: Script, r: Repo, step: RepoStep, t: nat)
    requires RepoEnabled(r, step)
    ensures RepoApply(sc, r, step).sent == r.sent + Of(Output(sc, r, step, t), t)
    ensures forall i: nat :: i != t ==> Of(Output(sc, r, step, t), i) == []
    ensures PutCount(RepoApply(sc, r, step)) == PutCount(r) + |Output(sc, r, step, t)|
  {
  }

  lemma TaskKeepsShared(c: Config, s: System, t: nat, st: RepoStep)
    requires ShapeInv(c, s) && SharedInv(c, s) && Enabled(c, s, Task(t, st))
    ensures SharedInv(c, Apply(c, s, Task(t, st)))
  {
    var s' := Apply(c, s, Task(t, st));
    var r := s.tasks[t];
    var output := Output(c.scripts[t], r, st, t);
    assert t !in EndedTags(s);
    if s'.tasks[t].phase.Ended? {
      assert EndedTags(s') == EndedTags(s) + {t};
      PutLast(s.shared, EndedTags(s), s.finished, t);
    } else {
      assert EndedTags(s') == EndedTags(s);
      if |output| > 0 {
        PutData(s.shared, EndedTags(s), s.finished, t, output[0].payload);
      } else {
        assert s'.shared == s.shared;
      }
    }
  }

  lemma TaskKeepsYields(c: Config, s: System, t: nat, st: RepoStep)
    requires ShapeInv(c, s) && YieldInv(s) && CountInv(s) && Enabled(c, s, Task(t, st))
    ensures YieldInv(Apply(c, s, Task(t, st))) && CountInv(Apply(c, s, Task(t, st)))
  {
    hide RepoApply, Output, Of, PutCount, RepoEnabled;
    var s' := Apply(c, s, Task(t, st));
    var output := Output(c.scripts[t], s.tasks[t], st, t);
    OutputIsSent(c.scripts[t], s.tasks[t], st, t);
    forall i: nat | i < |s'.tasks| ensures s'.tasks[i].sent == Of(s'.out, i) + Of(s'.shared, i) {
      OfConcat(s.shared, output, i);
      assert i != t ==> s'.tasks[i] == s.tasks[i] && Of(output, i) == [];
    }
    SumUpdate(s.tasks, t, s'.tasks[t], PutCount);
  }

  lemma TaskKeepsSlot(c: Config, s: System, t: nat, st: RepoStep)
    requires ShapeInv(c, s) && SlotInv(c, s) && Enabled(c, s, Task(t, st))
    ensures SlotInv(c, Apply(c, s, Task(t, st)))
  {
    hide SlotValue, Output, RepoApply;
    var s' := Apply(c, s, Task(t, st));
    forall id | id in s'.slot ensures exists i: nat :: IsSource(c, s', i, id) {
      if id == c.ids[t] && s'.tasks[t].phase.Ended? {
        assert IsSource(c, s', t, id);
      } else {
        var i: nat :| IsSource(c, s, i, id);
        assert i != t && s'.tasks[i] == s.tasks[i];
        assert IsSource(c, s', i, id);
      }
    }
  }

  lemma TaskKeepsInv(c: Config, s: System, t: nat, st: RepoStep)
    requires Inv(c, s) && Enabled(c, s, Task(t, st))
    ensures Inv(c, Apply(c, s, Task(t, st)))
  {
    hide SharedInv, YieldInv, CountInv, SlotInv, RepoInv;
    TaskKeepsShared(c, s, t, st);
    TaskKeepsYields(c, s, t, st);
    TaskKeepsSlot(c, s, t, st);
    RepoInvKept(c.scripts[t], s.tasks[t], st);
  }

  /** The slot law looks at the tasks and the slot alone. */
  lemma SameSlot(c: Config, s: System, s': System)
    requires ShapeInv(c, s) && SlotInv(c, s) && s'.tasks == s.tasks && s'.slot == s.slot
    ensures ShapeInv(c, s') && SlotInv(c, s')
  {
    hide SlotValue;
    forall id | id in s'.slot ensures exists i: nat :: IsSource(c, s', i, id) {
      var i: nat :| IsSource(c, s, i, id);
      assert IsSource(c, s', i, id);
    }
  }

  lemma TakeKeepsDone(c: Config, s: System)
    requires ShapeInv(c, s) && SharedInv(c, s) && DoneInv(c, s) && Enabled(c, s, TakeShared)
    ensures DoneInv(c, Apply(c, s, TakeShared))
  {
    var s' := Apply(c, s, TakeShared);
    forall id | id in s'.reposDone ensures exists t :: t in s'.finished && t < |c.ids| && c.ids[t] == id {
      if id in s.reposDone {
        var t :| t in s.finished && t < |c.ids| && c.ids[t] == id;
        assert t in s'.finished;
      } else {
        assert s.shared[0].tag in s'.finished;
      }
    }
  }

  lemma TakeKeepsYields(c: Config, s: System)
    requires ShapeInv(c, s) && SharedInv(c, s) && YieldInv(s) && Enabled(c, s, TakeShared)
    ensures YieldInv(Apply(c, s, TakeShared))
  {
    var s' := Apply(c, s, TakeShared);
    forall i: nat | i < |s'.tasks| ensures s'.tasks[i].sent == Of(s'.out, i) + Of(s'.shared, i) {
      OfConcat(s.out, [s.shared[0]], i);
    }
  }

  lemma IdleKeepsYields(c: Config, s: System)
    requires ShapeInv(c, s) && YieldInv(s) && Enabled(c, s, Idle)
    ensures YieldInv(Apply(c, s, Idle))
  {
    var s' := Apply(c, s, Idle);
    forall i: nat | i < |s'.tasks| ensures s'.tasks[i].sent == Of(s'.out, i) + Of(s'.shared, i) {
      OfConcat(s.out, [Data(|c.ids|, Keepalive)], i);
    }
  }

  lemma TakeKeepsShared(c: Config, s: System)
    requires ShapeInv(c, s) && SharedInv(c, s) && Enabled(c, s, TakeShared)
    ensures SharedInv(c, Apply(c, s, TakeShared))
  {
    hide Consistent;
    Take(s.shared, EndedTags(s), s.finished);
    assert EndedTags(Apply(c, s, TakeShared)) == EndedTags(s);
  }

  lemma TakeKeepsInv(c: Config, s: System)
    requires Inv(c, s) && Enabled(c, s, TakeShared)
    ensures Inv(c, Apply(c, s, TakeShared))
  {
    hide SharedInv, DoneInv, YieldInv, SlotInv, RepoInv, Sum;
    SameSlot(c, s, Apply(c, s, TakeShared));
    TakeKeepsShared(c, s);
    TakeKeepsDone(c, s);
    TakeKeepsYields(c, s);
  }

  lemma IdleKeepsInv(c: Config, s: System)
    requires Inv(c, s) && Enabled(c, s, Idle)
    ensures Inv(c, Apply(c, s, Idle))
  {
    hide Consistent, YieldInv, RepoInv, SlotInv;
    SameSlot(c, s, Apply(c, s, Idle));
    assert EndedTags(Apply(c, s, Idle)) == EndedTags(s);
    IdleKeepsYields(c, s);
  }

  lemma InvKept(c: Config, s: System, step: Step)
    requires Inv(c, s) && Enabled(c, s, step)
    ensures Inv(c, Apply(c, s, step))
  {
    match step
    case Task(t, st) => TaskKeepsInv(c, s, t, st);
    case TakeShared => TakeKeepsInv(c, s);
    case Idle => IdleKeepsInv(c, s);
  }

  // -------------------------------------------------------------------- runs

  /** `steps` is a schedule that leads from `a` to `b`. */
  ghost predicate Runs(c: Config, a: System, steps: seq<Step>, b: System)
    decreases |steps|
  {
    if |steps| == 0 then a == b
    else Enabled(c, a, steps[0]) && Runs(c, Apply(c, a, steps[0]), steps[1..], b)
  }

  lemma {:induction false} RunsKeepInv(c: Config, a: System, steps: seq<Step>, b: System)
    requires Inv(c, a) && Runs(c, a, steps, b)
    ensures Inv(c, b)
    decreases |steps|
  {
    hide Inv;
    if |steps| > 0 {
      InvKept(c, a, steps[0]);
      RunsKeepInv(c, Apply(c, a, steps[0]), steps[1..], b);
    }
  }

  ghost predicate Reachable(c: Config, s: System)
    requires WellFormed(c)
  {
    exists steps :: Runs(c, Initial(c), steps, s)
  }

  lemma ReachableInv(c: Config, s: System)
    requires WellFormed(c) && Reachable(c, s)
    ensures Inv(c, s)
  {
    hide Inv;
    InitialInv(c);
    var steps :| Runs(c, Initial(c), steps, s);
    RunsKeepInv(c, Initial(c), steps, s);
  }

  function Idles(steps: seq<Step>): nat {
    if |steps| == 0 then 0 else (if steps[0].Idle? then 1 else 0) + Idles(steps[1..])
  }

  /** Each time-out of the response loop yields one keepalive of its own. */
  lemma {:induction false} IdlesAreYielded(c: Config, a: System, steps: seq<Step>, b: System)
    requires Runs(c, a, steps, b)
    ensures |Of(b.out, |c.ids|)| == |Of(a.out, |c.ids|)| + Idles(steps)
    decreases |steps|
  {
    hide Of, RepoEnabled, RepoApply, Output, SlotValue;
    if |steps| > 0 {
      IdleYields(c, a, steps[0]);
      hide Enabled, Apply;
      IdlesAreYielded(c, Apply(c, a, steps[0]), steps[1..], b);
    }
  }

  lemma IdleYields(c: Config, s: System, step: Step)
    requires Enabled(c, s, step)
    ensures |Of(Apply(c, s, step).out, |c.ids|)| == |Of(s.out, |c.ids|)| + if step.Idle? then 1 else 0
  {
    hide RepoEnabled, RepoApply, Output, SlotValue;
    if step.TakeShared? && s.shared[0].Data? {
      OfConcat(s.out, [s.shared[0]], |c.ids|);
    } else if step.Idle? {
      OfConcat(s.out, [Data(|c.ids|, Keepalive)], |c.ids|);
    }
  }

  // ------------------------------------------------------------- at the exit

  ghost predicate Distinct(ids: seq<string>) {
    forall i, k :: 0 <= i < k < |ids| ==> ids[i] != ids[k]
  }

  function Below(n: nat): (r: set<nat>)
    ensures |r| == n && forall k: nat :: k in r <==> k < n
  {
    if n == 0 then {} else Below(n - 1) + {n - 1}
  }

  /** Every name stands at one of the positions. */
  ghost predicate NamedBy(ids: seq<string>, names: set<string>, positions: set<nat>) {
    forall id :: id in names ==> exists t :: t in positions && t < |ids| && ids[t] == id
  }

  /** The names of a set of positions are no more than the positions. */
  lemma {:induction false} NamesAtMost(ids: seq<string>, names: set<string>, positions: set<nat>)
    requires NamedBy(ids, names, positions)
    ensures |names| <= |positions|
    decreases |names|
  {
    if |names| > 0 {
      var id :| id in names;
      var t :| t in positions && t < |ids| && ids[t] == id;
      forall other | other in names - {id} ensures exists u :: u in positions - {t} && u < |ids| && ids[u] == other {
        var u :| u in positions && u < |ids| && ids[u] == other;
        assert u in positions - {t};
      }
      NamesAtMost(ids, names - {id}, positions - {t});
    }
  }

  lemma RepeatedIdShrinks(ids: seq<string>, names: set<string>, i: nat, k: nat)
    requires NamedBy(ids, names, Below(|ids|))
    requires i < k < |ids| && ids[i] == ids[k]
    ensures |names| < |ids|
  {
    var fewer := Below(|ids|) - {k};
    forall id | id in names ensures exists t :: t in fewer && t < |ids| && ids[t] == id {
      var t :| t in Below(|ids|) && t < |ids| && ids[t] == id;
      assert (if t == k then i else t) in fewer;
    }
    NamesAtMost(ids, names, fewer);
  }

  lemma SubsetOfSameSize<T>(a: set<T>, b: set<T>)
    requires a <= b && |a| >= |b|
    ensures a == b
  {
    assert b == a + (b - a);
  }

  lemma FullImageMeansDistinct(ids: seq<string>, names: set<string>, positions: set<nat>)
    requires NamedBy(ids, names, positions)
    requires positions <= Below(|ids|) && |names| >= |ids|
    ensures positions == Below(|ids|) && Distinct(ids)
  {
    hide NamedBy;
    NamesAtMost(ids, names, positions);
    SubsetOfSameSize(positions, Below(|ids|));
    forall i, k | 0 <= i < k < |ids| ensures ids[i] != ids[k] {
      if ids[i] == ids[k] {
        RepeatedIdShrinks(ids, names, i, k);
      }
    }
  }

  /** The loop exits only when the sentinel of every task has been taken, and
      only if the ids are pairwise distinct. */
  lemma ExitMeansAllFinished(c: Config, s: System)
    requires Inv(c, s) && Exited(c, s)
    ensures s.finished == Below(|c.ids|) && Distinct(c.ids)
    ensures s.reposDone == set id | id in c.ids
    ensures forall i: nat :: i < |c.ids| ==> i < |s.tasks| && s.tasks[i].phase.Ended?
  {
    hide YieldInv, CountInv, SlotInv, TasksInv, Distinct;
    FullImageMeansDistinct(c.ids, s.reposDone, s.finished);
    forall t: nat | t < |c.ids| ensures t < |s.tasks| && s.tasks[t].phase.Ended? && c.ids[t] in s.reposDone {
      assert t in s.finished;
      assert t in EndedTags(s);
    }
  }

  lemma SetupFailureSendsNothing(sc: Script, r: Repo)
    requires RepoInv(sc, r) && sc.setupFails
    ensures r.sent == [] && r.state == map[]
  {
  }

  /** When the response loop exits, whatever the interleaving: both levels of
      queues are empty, and each repository's node events and progress events have
      been yielded exactly once, in the order its own queue received them. */
  lemma ExitDeliversEverything(c: Config, s: System, i: nat)
    requires WellFormed(c) && Reachable(c, s) && Exited(c, s) && i < |c.ids|
    ensures s.shared == [] && i < |s.tasks| && s.tasks[i].phase.Ended?
    ensures Of(s.out, i) == s.tasks[i].sent
    ensures !c.scripts[i].setupFails ==>
              var events := Forwarded(Of(s.out, i));
              && s.tasks[i].queue == []
              && events == s.tasks[i].puts
              && Texts(events, WORKFLOW) == NonEmpty(Yields(c.scripts[i].actions))
              && Texts(events, PROGRESS) == NonEmpty(s.tasks[i].accepted)
              && (Fits(c.scripts[i]) ==> s.tasks[i].accepted == Emits(c.scripts[i].actions))
    ensures c.scripts[i].setupFails ==> Of(s.out, i) == []
  {
    hide RepoInv, SlotInv, DoneInv, CountInv, Reachable;
    ReachableInv(c, s);
    ExitMeansAllFinished(c, s);
    Drained(s.shared, EndedTags(s), s.finished);
    if c.scripts[i].setupFails {
      SetupFailureSendsNothing(c.scripts[i], s.tasks[i]);
    } else {
      EndedRepoIsDrained(c.scripts[i], s.tasks[i]);
    }
  }

  /** What a repository's run leaves for the synthesis step. */
  function Result(sc: Script): Option<State> {
    if sc.setupFails then None
    else
      var final := if sc.checkpoint.Some? && sc.checkpoint.value != map[]
                   then sc.checkpoint.value else Merge(map[], sc.actions);
      if final == map[] then None else Some(final)
  }

  predicate Present(state: State, key: string) {
    key in state && |state[key]| > 0
  }

  predicate HasAnswer(v: Option<State>) {
    v.Some? && (Present(v.value, "final_output") || Present(v.value, "llm_response"))
  }

  function Successful(slot: map<string, Option<State>>): set<string> {
    set id | id in slot && HasAnswer(slot[id])
  }

  function Failed(ids: seq<string>, slot: map<string, Option<State>>): seq<string> {
    if |ids| == 0 then []
    else if ids[0] in Successful(slot) then Failed(ids[1..], slot)
    else [ids[0]] + Failed(ids[1..], slot)
  }

  lemma {:induction false} FailedMembers(ids: seq<string>, slot: map<string, Option<State>>)
    ensures forall id :: id in Failed(ids, slot) <==> id in ids && id !in Successful(slot)
  {
    if |ids| > 0 {
      FailedMembers(ids[1..], slot);
      assert ids == [ids[0]] + ids[1..];
    }
  }

  lemma SlotHoldsResult(c: Config, s: System, i: nat)
    requires Inv(c, s) && Exited(c, s) && i < |c.ids|
    ensures c.ids[i] in s.slot && s.slot[c.ids[i]] == Result(c.scripts[i])
  {
    hide RepoInv, SharedInv, DoneInv, YieldInv, CountInv, Merge, Below;
    ExitMeansAllFinished(c, s);
    var k: nat :| k < |s.tasks| && s.tasks[k].phase.Ended? && c.ids[k] == c.ids[i]
                  && s.slot[c.ids[i]] == SlotValue(c.scripts[k], s.tasks[k]);
    assert k == i;
    if c.scripts[i].setupFails {
      SetupFailureSendsNothing(c.scripts[i], s.tasks[i]);
    } else {
      EndedRepoIsDrained(c.scripts[i], s.tasks[i]);
    }
  }

  /** The result slot has exactly one entry per repository, holding that
      repository's own result, and the ids split into successful and failed. */
  lemma ExitPartitionsResults(c: Config, s: System)
    requires WellFormed(c) && Reachable(c, s) && Exited(c, s)
    ensures s.slot.Keys == set id | id in c.ids
    ensures forall i: nat :: i < |c.ids| ==> c.ids[i] in s.slot && s.slot[c.ids[i]] == Result(c.scripts[i])
    ensures forall i: nat :: i < |c.ids| ==>
              (c.ids[i] in Successful(s.slot) <==> HasAnswer(Result(c.scripts[i])))
              && (c.ids[i] in Failed(c.ids, s.slot) <==> c.ids[i] !in Successful(s.slot))
    ensures Successful(s.slot) + (set id | id in Failed(c.ids, s.slot)) == set id | id in c.ids
  {
    hide RepoInv, SharedInv, DoneInv, YieldInv, CountInv, Result, HasAnswer, Reachable, SlotValue;
    ReachableInv(c, s);
    FailedMembers(c.ids, s.slot);
    forall i: nat | i < |c.ids| ensures c.ids[i] in s.slot && s.slot[c.ids[i]] == Result(c.scripts[i]) {
      SlotHoldsResult(c, s, i);
    }
    assert forall id :: id in s.slot ==> id in c.ids;
  }

  /** The yield at position `k` is the last one whose update holds the key. */
  predicate LastUpdate(actions: seq<Action>, k: nat, key: string) {
    && k < |actions| && actions[k].Yield? && key in actions[k].delta
    && forall j :: k < j < |actions| && actions[j].Yield? ==> key !in actions[j].delta
  }

  ghost predicate Updated(actions: seq<Action>, key: string) {
    exists k: nat :: LastUpdate(actions, k, key)
  }

  lemma {:induction false} MergeHoldsLastUpdates(state: State, actions: seq<Action>, key: string)
    ensures forall k: nat :: LastUpdate(actions, k, key) ==>
              key in Merge(state, actions) && Merge(state, actions)[key] == actions[k].delta[key]
    ensures !Updated(actions, key) ==>
              (key in Merge(state, actions) <==> key in state)
              && (key in state ==> key in Merge(state, actions) && Merge(state, actions)[key] == state[key])
    decreases |actions|
  {
    if |actions| > 0 {
      var rest := actions[1..];
      var next := if actions[0].Yield? then state + actions[0].delta else state;
      MergeHoldsLastUpdates(next, rest, key);
      assert forall k :: 0 < k < |actions| ==> actions[k] == rest[k - 1];
      forall k: nat | LastUpdate(actions, k, key) && k > 0 ensures LastUpdate(rest, k - 1, key) {
      }
      if Updated(rest, key) {
        var k: nat :| LastUpdate(rest, k, key);
        assert LastUpdate(actions, k + 1, key);
        assert !LastUpdate(actions, 0, key) by {
          assert actions[k + 1].Yield? && key in actions[k + 1].delta;
        }
      } else if actions[0].Yield? && key in actions[0].delta {
        NoneLater(actions, key);
      }
    }
  }

  /** When no later yield holds the key, the first one is the last. */
  lemma NoneLater(actions: seq<Action>, key: string)
    requires |actions| > 0 && actions[0].Yield? && key in actions[0].delta && !Updated(actions[1..], key)
    ensures LastUpdate(actions, 0, key)
  {
    forall j | 0 < j < |actions| && actions[j].Yield? ensures key !in actions[j].delta {
      if key in actions[j].delta {
        var k := LatestFrom(actions[1..], j - 1, key);
      }
    }
  }

  lemma {:induction false} LatestFrom(actions: seq<Action>, from: nat, key: string) returns (k: nat)
    requires from < |actions| && actions[from].Yield? && key in actions[from].delta
    ensures LastUpdate(actions, k, key)
    decreases |actions| - from
  {
    if j :| from < j < |actions| && actions[j].Yield? && key in actions[j].delta {
      k := LatestFrom(actions, j, key);
    } else {
      k := from;
    }
  }

  /** The workflow left its own snapshot of the state. */
  predicate HasSnapshot(sc: Script) {
    sc.checkpoint.Some? && sc.checkpoint.value != map[]
  }

  /** What the result slot holds at the exit, key by key: nothing after a failed set-up;
      the snapshot when there is one; else for every key what the last update that holds
      it says, and nothing when no update holds any. */
  lemma ExitHoldsLastUpdates(c: Config, s: System, i: nat, key: string)
    requires WellFormed(c) && Reachable(c, s) && Exited(c, s) && i < |c.ids|
    ensures c.ids[i] in s.slot
    ensures var sc, v := c.scripts[i], s.slot[c.ids[i]];
            && (sc.setupFails ==> v == None)
            && (!sc.setupFails && HasSnapshot(sc) ==> v == sc.checkpoint)
            && (!sc.setupFails && !HasSnapshot(sc) ==>
                  && (v.None? <==> forall other :: !Updated(sc.actions, other))
                  && (v.Some? && key in v.value <==> Updated(sc.actions, key))
                  && forall k: nat :: LastUpdate(sc.actions, k, key) ==>
                       v.Some? && key in v.value && v.value[key] == sc.actions[k].delta[key])
  {
    hide Inv, Reachable, Merge, LastUpdate, Updated;
    ReachableInv(c, s);
    SlotHoldsResult(c, s, i);
    var merged := Merge(map[], c.scripts[i].actions);
    forall other ensures other in merged <==> Updated(c.scripts[i].actions, other) {
      InMergeExactlyWhen(c.scripts[i].actions, other);
    }
    MergeHoldsLastUpdates(map[], c.scripts[i].actions, key);
    assert merged == map[] <==> forall other :: other !in merged;
  }

  lemma InMergeExactlyWhen(actions: seq<Action>, key: string)
    ensures key in Merge(map[], actions) <==> Updated(actions, key)
  {
    hide Merge;
    MergeHoldsLastUpdates(map[], actions, key);
  }

  /** The repository's state has a non-empty text under the key: in its snapshot, or else
      in the last update that holds the key. */
  ghost predicate Says(sc: Script, key: string) {
    !sc.setupFails
    && if HasSnapshot(sc) then key in sc.checkpoint.value && sc.checkpoint.value[key] != ""
       else exists k: nat :: LastUpdate(sc.actions, k, key) && sc.actions[k].delta[key] != ""
  }

  lemma SaysExactlyWhen(c: Config, s: System, i: nat, key: string)
    requires WellFormed(c) && Reachable(c, s) && Exited(c, s) && i < |c.ids|
    ensures c.ids[i] in s.slot
    ensures var v := s.slot[c.ids[i]];
            Says(c.scripts[i], key) <==> v.Some? && key in v.value && v.value[key] != ""
  {
    hide Reachable, LastUpdate;
    ExitHoldsLastUpdates(c, s, i, key);
  }

  /** At the exit a repository is successful exactly when its state says something under
      one of the two keys of an answer; the others are failed, in request order. */
  lemma ExitAnswers(c: Config, s: System)
    requires WellFormed(c) && Reachable(c, s) && Exited(c, s)
    ensures forall i: nat :: i < |c.ids| ==>
              (c.ids[i] in Successful(s.slot)
               <==> Says(c.scripts[i], "final_output") || Says(c.scripts[i], "llm_response"))
    ensures forall i: nat :: i < |c.ids| ==>
              (c.ids[i] in Failed(c.ids, s.slot)
               <==> !Says(c.scripts[i], "final_output") && !Says(c.scripts[i], "llm_response"))
    ensures forall id :: id in Successful(s.slot) ==> id in c.ids
    ensures InOrderOf(Failed(c.ids, s.slot), c.ids)
  {
    hide Reachable, Says, HasAnswer, Exited;
    ExitPartitionsResults(c, s);
    FailedInOrder(c.ids, s.slot);
    FailedMembers(c.ids, s.slot);
    forall i: nat | i < |c.ids|
      ensures c.ids[i] in s.slot
      ensures HasAnswer(s.slot[c.ids[i]])
              <==> Says(c.scripts[i], "final_output") || Says(c.scripts[i], "llm_response")
    {
      AnswerIsSaid(c, s, i);
    }
  }

  lemma AnswerIsSaid(c: Config, s: System, i: nat)
    requires WellFormed(c) && Reachable(c, s) && Exited(c, s) && i < |c.ids|
    ensures c.ids[i] in s.slot
    ensures HasAnswer(s.slot[c.ids[i]])
            <==> Says(c.scripts[i], "final_output") || Says(c.scripts[i], "llm_response")
  {
    hide Reachable, Says, Exited;
    SaysExactlyWhen(c, s, i, "final_output");
    SaysExactlyWhen(c, s, i, "llm_response");
  }

  /** Names picked from a list, at rising positions. */
  ghost predicate InOrderOf(picked: seq<string>, ids: seq<string>) {
    exists at: seq<nat> ::
      && |at| == |picked|
      && (forall k :: 0 <= k < |at| ==> at[k] < |ids| && ids[at[k]] == picked[k])
      && (forall j, k :: 0 <= j < k < |at| ==> at[j] < at[k])
  }

  lemma FailedInOrder(ids: seq<string>, slot: map<string, Option<State>>)
    ensures InOrderOf(Failed(ids, slot), ids)
  {
    var at := FailedAt(ids, slot);
  }

  lemma {:induction false} FailedAt(ids: seq<string>, slot: map<string, Option<State>>) returns (at: seq<nat>)
    ensures |at| == |Failed(ids, slot)|
    ensures forall k :: 0 <= k < |at| ==> at[k] < |ids| && ids[at[k]] == Failed(ids, slot)[k]
    ensures forall j, k :: 0 <= j < k < |at| ==> at[j] < at[k]
  {
    at := [];
    if |ids| > 0 {
      var rest := FailedAt(ids[1..], slot);
      at := seq(|rest|, k requires 0 <= k < |rest| => rest[k] + 1);
      if ids[0] !in Successful(slot) {
        at := [0] + at;
      }
    }
  }

  // -------------------------------------------------------------- dequeues

  /** Events a repository delivers, as a number. */
  function EventCount(sc: Script): nat {
    if sc.setupFails then 0 else |NonEmpty(Yields(sc.actions))| + |NonEmpty(Emits(sc.actions))|
  }

  function Keepalives(r: Repo): nat {
    r.keepalives
  }

  lemma {:induction false} TextsSplit(events: seq<Event>)
    requires forall k :: 0 <= k < |events| ==> events[k].source <= 1
    ensures |events| == |Texts(events, WORKFLOW)| + |Texts(events, PROGRESS)|
  {
    if |events| > 0 {
      TextsSplit(events[1..]);
    }
  }

  lemma EndedPutCount(sc: Script, r: Repo)
    requires RepoInv(sc, r) && r.phase.Ended? && Fits(sc)
    ensures PutCount(r) == 1 + EventCount(sc) + Keepalives(r)
  {
    if sc.setupFails {
      SetupFailureSendsNothing(sc, r);
    } else {
      EndedRepoIsDrained(sc, r);
      TextsSplit(r.puts);
    }
  }

  lemma {:induction false} SumOfParts(scripts: seq<Script>, tasks: seq<Repo>)
    requires |scripts| == |tasks|
    requires forall i :: 0 <= i < |tasks| ==> PutCount(tasks[i]) == 1 + EventCount(scripts[i]) + Keepalives(tasks[i])
    ensures Sum(tasks, PutCount) == |tasks| + Sum(scripts, EventCount) + Sum(tasks, Keepalives)
  {
    if |tasks| > 0 {
      SumOfParts(scripts[1..], tasks[1..]);
    }
  }

  ghost predicate AllFit(c: Config) {
    forall i :: 0 <= i < |c.scripts| ==> Fits(c.scripts[i])
  }

  /** The number of reads from the shared queue does not depend on the
      interleaving, only on the events and on how often a repository timed out. */
  lemma ExitCountsDequeues(c: Config, s: System)
    requires WellFormed(c) && Reachable(c, s) && Exited(c, s) && AllFit(c)
    ensures s.dequeues == |c.ids| + Sum(c.scripts, EventCount) + Sum(s.tasks, Keepalives)
  {
    hide RepoInv, SlotInv, DoneInv, YieldInv, Reachable, PutCount, EventCount, Fits, Consistent;
    ReachableInv(c, s);
    ExitMeansAllFinished(c, s);
    if |c.ids| > 0 {
      ExitDeliversEverything(c, s, 0);
    }
    forall i: nat | i < |s.tasks|
      ensures PutCount(s.tasks[i]) == 1 + EventCount(c.scripts[i]) + Keepalives(s.tasks[i])
    {
      EndedPutCount(c.scripts[i], s.tasks[i]);
    }
    SumOfParts(c.scripts, s.tasks);
  }

  // -------------------------------------------------------------- termination

  function Work(r: Repo): nat {
    (match r.phase case Starting => 3 case Streaming => 2 case Ended => 0)
    + (match r.workflow case Running => 8 case Closed => 3 case Reported => 0)
    + 4 * |r.actions| + 3 * |r.progress| + 2 * |r.queue|
  }

  function TotalWork(s: System): nat {
    Sum(s.tasks, Work) + |s.shared|
  }

  predicate IsTimeout(step: Step) {
    step.Idle? || (step.Task? && step.step.Timeout?)
  }

  function Timeouts(steps: seq<Step>): nat {
    if |steps| == 0 then 0 else (if IsTimeout(steps[0]) then 1 else 0) + Timeouts(steps[1..])
  }

  lemma RepoStepWork(sc: Script, r: Repo, step: RepoStep, t: nat)
    requires RepoEnabled(r, step)
    ensures step.Timeout? ==> Work(RepoApply(sc, r, step)) + |Output(sc, r, step, t)| == Work(r) + 1
    ensures !step.Timeout? ==> Work(RepoApply(sc, r, step)) + |Output(sc, r, step, t)| < Work(r)
  {
  }

  lemma StepWork(c: Config, s: System, step: Step)
    requires Enabled(c, s, step)
    ensures IsTimeout(step) ==> TotalWork(Apply(c, s, step)) <= TotalWork(s) + 1
    ensures !IsTimeout(step) ==> TotalWork(Apply(c, s, step)) < TotalWork(s)
  {
    hide Work;
    if step.Task? {
      var r := s.tasks[step.i];
      RepoStepWork(c.scripts[step.i], r, step.step, step.i);
      SumUpdate(s.tasks, step.i, RepoApply(c.scripts[step.i], r, step.step), Work);
    }
  }

  /** In any run, steps other than timeouts are bounded by the initial work plus
      the keepalives that the timeouts themselves queued. */
  lemma {:induction false} RunsAreBounded(c: Config, a: System, steps: seq<Step>, b: System)
    requires Runs(c, a, steps, b)
    ensures |steps| + TotalWork(b) <= TotalWork(a) + 2 * Timeouts(steps)
    decreases |steps|
  {
    hide TotalWork;
    if |steps| > 0 {
      StepWork(c, a, steps[0]);
      RunsAreBounded(c, Apply(c, a, steps[0]), steps[1..], b);
    }
  }

  lemma {:induction false} DistinctNames(ids: seq<string>, names: set<string>)
    requires Distinct(ids) && forall k :: 0 <= k < |ids| ==> ids[k] in names
    ensures |names| >= |ids|
  {
    if |ids| > 0 {
      DistinctNames(ids[1..], names - {ids[0]});
    }
  }

  lemma AllEndedAndEmptyMeansExited(c: Config, s: System)
    requires Inv(c, s) && Distinct(c.ids) && s.shared == []
    requires forall i: nat :: i < |s.tasks| ==> s.tasks[i].phase.Ended?
    ensures Exited(c, s)
  {
    hide RepoInv, SlotInv, YieldInv, CountInv, Distinct;
    forall k: nat | k < |c.ids| ensures c.ids[k] in s.reposDone {
      assert k in EndedTags(s);
      assert Last(k) !in s.shared;
    }
    DistinctNames(c.ids, s.reposDone);
  }

  /** A run that has not exited is never stuck: some task can do more than time out. */
  lemma NotStuck(c: Config, s: System) returns (step: Step)
    requires Inv(c, s) && Distinct(c.ids) && AllFit(c) && !Exited(c, s)
    ensures Enabled(c, s, step) && !IsTimeout(step)
  {
    hide RepoInv, SlotInv, YieldInv, CountInv, Distinct, Consistent, Fits, UsefulStep, RepoEnabled, DoneInv;
    if i: nat :| i < |s.tasks| && !s.tasks[i].phase.Ended? {
      UsefulStepEnabled(c.scripts[i], s.tasks[i]);
      return Task(i, UsefulStep(s.tasks[i]));
    }
    if |s.shared| == 0 {
      AllEndedAndEmptyMeansExited(c, s);
    }
    return TakeShared;
  }

  /** From every state of a run the response loop can still reach its exit,
      and it does so within the remaining work if nothing times out. */
  lemma {:induction false} CanFinish(c: Config, s: System) returns (steps: seq<Step>, b: System)
    requires Inv(c, s) && Distinct(c.ids) && AllFit(c)
    ensures Runs(c, s, steps, b) && Exited(c, b) && |steps| <= TotalWork(s)
    decreases TotalWork(s)
  {
    hide Inv, Distinct, AllFit, TotalWork;
    if Exited(c, s) {
      return [], s;
    }
    var step := NotStuck(c, s);
    InvKept(c, s, step);
    StepWork(c, s, step);
    var rest;
    rest, b := CanFinish(c, Apply(c, s, step));
    steps := [step] + rest;
  }

  // ------------------------------------------------------ the two ways to hang

  /** The end marker never got into the full progress queue. */
  ghost predicate MarkerLost(r: Repo) {
    && r.phase.Streaming? && !r.workflow.Running? && !r.collected
    && forall k :: 0 <= k < |r.progress| ==> r.progress[k].Some?
  }

  lemma MarkerStaysLost(sc: Script, r: Repo, step: RepoStep)
    requires RepoEnabled(r, step) && MarkerLost(r)
    ensures MarkerLost(RepoApply(sc, r, step))
  {
  }

  /** Once a marker is lost no schedule ever reaches the exit. */
  lemma {:induction false} LostMarkerHangs(c: Config, a: System, steps: seq<Step>, b: System, i: nat)
    requires Inv(c, a) && Runs(c, a, steps, b) && i < |a.tasks| && MarkerLost(a.tasks[i])
    ensures !Exited(c, b)
    decreases |steps|
  {
    hide SharedInv, DoneInv, YieldInv, CountInv, SlotInv, TasksInv, MarkerLost;
    if |steps| == 0 {
      assert !a.tasks[i].phase.Ended? by {
        LostIsStreaming(a.tasks[i]);
      }
      if Exited(c, a) {
        ExitMeansAllFinished(c, a);
      }
    } else {
      InvKept(c, a, steps[0]);
      if steps[0].Task? && steps[0].i == i {
        MarkerStaysLost(c.scripts[i], a.tasks[i], steps[0].step);
      }
      LostMarkerHangs(c, Apply(c, a, steps[0]), steps[1..], b, i);
    }
  }

  lemma LostIsStreaming(r: Repo)
    requires MarkerLost(r)
    ensures r.phase.Streaming?
  {
  }

  /** Running the workflow to its end before its collector gets a turn. */
  lemma {:induction false} Flood(c: Config, a: System, i: nat) returns (steps: seq<Step>, b: System)
    requires |a.tasks| == |c.ids| == |c.scripts| && i < |a.tasks|
    requires var r := a.tasks[i];
             r.phase.Streaming? && r.workflow.Running? && !r.collected
             && (forall k :: 0 <= k < |r.progress| ==> r.progress[k].Some?)
             && |r.progress| <= CAPACITY <= |r.progress| + |Emits(r.actions)|
    ensures Runs(c, a, steps, b) && |b.tasks| == |a.tasks| && MarkerLost(b.tasks[i])
    decreases |a.tasks[i].actions|
  {
    if |a.tasks[i].actions| == 0 {
      var step := Task(i, CloseProgress);
      b := Apply(c, a, step);
      steps := [step];
      assert steps[1..] == [] && Runs(c, b, [], b);
    } else {
      var step := Task(i, RunWorkflow);
      var rest;
      rest, b := Flood(c, Apply(c, a, step), i);
      steps := [step] + rest;
      assert steps[1..] == rest;
    }
  }

  lemma OverflowHangs(c: Config, i: nat) returns (b: System)
    requires WellFormed(c) && i < |c.scripts| && !Fits(c.scripts[i])
    ensures Reachable(c, b) && Inv(c, b) && i < |b.tasks| && MarkerLost(b.tasks[i])
  {
    hide Inv;
    InitialInv(c);
    var a := Initial(c);
    var start := Task(i, Start);
    var rest;
    rest, b := Flood(c, Apply(c, a, start), i);
    var steps := [start] + rest;
    assert steps[1..] == rest;
    assert Runs(c, a, steps, b);
    ReachableInv(c, b);
  }

  ghost predicate CanExit(c: Config, s: System) {
    exists steps, b :: Runs(c, s, steps, b) && Exited(c, b)
  }

  /** No schedule can hang the response. */
  ghost predicate NeverHangs(c: Config)
    requires WellFormed(c)
  {
    forall s :: Reachable(c, s) ==> CanExit(c, s)
  }

  lemma RepeatedIdHangs(c: Config, s: System)
    requires Inv(c, s) && CanExit(c, s)
    ensures Distinct(c.ids)
  {
    hide Inv, Distinct;
    var steps, b :| Runs(c, s, steps, b) && Exited(c, b);
    RunsKeepInv(c, s, steps, b);
    ExitMeansAllFinished(c, b);
  }

  lemma OverflowedCannotExit(c: Config, s: System, i: nat)
    requires Inv(c, s) && i < |s.tasks| && MarkerLost(s.tasks[i])
    ensures !CanExit(c, s)
  {
    hide Inv, MarkerLost;
    if CanExit(c, s) {
      var steps, b :| Runs(c, s, steps, b) && Exited(c, b);
      LostMarkerHangs(c, s, steps, b, i);
    }
  }

  /** Exactly when no schedule can hang: the request names each repository once,
      and every workflow emits fewer progress texts than its queue holds. */
  lemma NeverHangsExactlyWhen(c: Config)
    requires WellFormed(c)
    ensures NeverHangs(c) <==>
              && Distinct(c.ids)
              && forall i: nat :: i < |c.scripts| ==>
                   c.scripts[i].setupFails || |Emits(c.scripts[i].actions)| < 100
  {
    assert AllFit(c) <==> forall i: nat :: i < |c.scripts| ==>
             c.scripts[i].setupFails || |Emits(c.scripts[i].actions)| < 100;
    hide Inv, Distinct, Fits, CanExit, MarkerLost;
    if Distinct(c.ids) && AllFit(c) {
      forall s | Reachable(c, s) ensures CanExit(c, s) {
        ReachableInv(c, s);
        CompletesFrom(c, s);
      }
    }
    if NeverHangs(c) {
      InitialInv(c);
      assert Runs(c, Initial(c), [], Initial(c));
      assert Reachable(c, Initial(c));
      RepeatedIdHangs(c, Initial(c));
      forall i: nat | i < |c.scripts| ensures Fits(c.scripts[i]) {
        if !Fits(c.scripts[i]) {
          var b := OverflowHangs(c, i);
          OverflowedCannotExit(c, b, i);
        }
      }
    }
  }

  lemma CompletesFrom(c: Config, s: System)
    requires Inv(c, s) && Distinct(c.ids) && AllFit(c)
    ensures CanExit(c, s)
  {
    hide Inv, Distinct, AllFit;
    var steps, b := CanFinish(c, s);
  }
}
