/** What becomes of every call to the model cache: the account of a whole run. */
module ModelCalls {
  import opened Wrappers
  import opened ModelCache

  /** The thread is in a call for the key. */
  predicate Busy(c: Cache, t: nat, key: Key) {
    t < |c.threads|
    && match c.threads[t]
       case Checking(k) => k == key
       case Fetching(k, _) => k == key
       case Waiting(k) => k == key
       case Rechecking(k) => k == key
       case Loading(k) => k == key
       case Storing(k, _) => k == key
       case _ => false
  }

  function Calls(steps: seq<Step>, t: nat, key: Key): nat {
    if |steps| == 0 then 0 else (if steps[0] == CallGet(t, key) then 1 else 0) + Calls(steps[1..], t, key)
  }

  /** How often the thread got a model for the key. */
  function Gets(returned: seq<Returned>, t: nat, key: Key): nat {
    if |returned| == 0 then 0
    else Gets(returned[..|returned| - 1], t, key)
         + if returned[|returned| - 1].thread == t && returned[|returned| - 1].key == key then 1 else 0
  }

  /** The step ends the thread's call for the key without a model: the key was cleared, or
      loading failed. */
  predicate Fails(c: Cache, step: Step, t: nat, key: Key) {
    t < |c.threads|
    && ((step == Fetch(t) && c.threads[t].Fetching? && c.threads[t].key == key && key !in c.models)
        || (step == Load(t, false) && c.threads[t] == Loading(key)))
  }

  ghost function Failures(c: Cache, steps: seq<Step>, t: nat, key: Key): nat
    decreases |steps|
  {
    if |steps| == 0 || !Enabled(c, steps[0]) then 0
    else (if Fails(c, steps[0], t, key) then 1 else 0) + Failures(Apply(c, steps[0]), steps[1..], t, key)
  }

  function One(b: bool): nat {
    if b then 1 else 0
  }

  /** The step ends the thread's call for the key with a model. */
  predicate Answers(c: Cache, step: Step, t: nat, key: Key) {
    t < |c.threads|
    && ((step == Fetch(t) && c.threads[t].Fetching? && c.threads[t].key == key && key in c.models)
        || (step == Recheck(t) && c.threads[t] == Rechecking(key) && key in c.models)
        || (step == Store(t) && c.threads[t].Storing? && c.threads[t].key == key))
  }

  lemma StepAnswers(c: Cache, step: Step, t: nat, key: Key)
    requires Enabled(c, step)
    ensures Gets(Apply(c, step).returned, t, key) == Gets(c.returned, t, key) + One(Answers(c, step, t, key))
  {
    var d := Apply(c, step);
    if step.Fetch? || step.Recheck? || step.Store? {
      if |d.returned| > |c.returned| {
        assert d.returned[..|d.returned| - 1] == c.returned;
      }
    }
  }

  lemma StepFrees(c: Cache, step: Step, t: nat, key: Key)
    requires Enabled(c, step)
    ensures One(step == CallGet(t, key)) + One(Busy(c, t, key))
            == One(Answers(c, step, t, key)) + One(Fails(c, step, t, key)) + One(Busy(Apply(c, step), t, key))
  {
    hide Gets;
    if step.t != t {
      OthersStay(c, step, t);
    }
  }

  lemma OthersStay(c: Cache, step: Step, t: nat)
    requires Enabled(c, step) && step.t != t
    ensures |Apply(c, step).threads| == |c.threads|
    ensures t < |c.threads| ==> Apply(c, step).threads[t] == c.threads[t]
  {
  }

  lemma {:induction false} RunAccounts(a: Cache, steps: seq<Step>, b: Cache, t: nat, key: Key)
    requires Runs(a, steps, b)
    ensures Calls(steps, t, key) + One(Busy(a, t, key)) + Gets(a.returned, t, key)
            == Gets(b.returned, t, key) + Failures(a, steps, t, key) + One(Busy(b, t, key))
    decreases |steps|
  {
    hide Enabled, Apply, Busy, Fails, Answers, Gets;
    if |steps| > 0 {
      StepAnswers(a, steps[0], t, key);
      StepFrees(a, steps[0], t, key);
      RunAccounts(Apply(a, steps[0]), steps[1..], b, t, key);
    }
  }

  /** In every run each call of a thread for a key has returned a model for it, has failed,
      or is still under way. */
  lemma EveryCallIsAnswered(n: nat, steps: seq<Step>, c: Cache, t: nat, key: Key)
    requires Runs(Initial(n), steps, c)
    ensures Calls(steps, t, key)
            == Gets(c.returned, t, key) + Failures(Initial(n), steps, t, key) + One(Busy(c, t, key))
  {
    RunAccounts(Initial(n), steps, c, t, key);
  }

  function Clears(steps: seq<Step>): nat {
    if |steps| == 0 then 0 else One(steps[0].Clear?) + Clears(steps[1..])
  }

  lemma {:induction false} RunClears(a: Cache, steps: seq<Step>, b: Cache)
    requires Runs(a, steps, b)
    ensures b.clears == a.clears + Clears(steps)
    decreases |steps|
  {
    if |steps| > 0 {
      assert Apply(a, steps[0]).clears == a.clears + One(steps[0].Clear?);
      RunClears(Apply(a, steps[0]), steps[1..], b);
    }
  }

  /** The clears counted are those that were carried out, and after each the cache is empty. */
  lemma ClearsAreCounted(n: nat, steps: seq<Step>, c: Cache)
    requires Runs(Initial(n), steps, c)
    ensures c.clears == Clears(steps)
    ensures forall s: Step :: s.Clear? && Enabled(c, s) ==> Apply(c, s).models == map[]
  {
    RunClears(Initial(n), steps, c);
  }
}
