/** The shared model cache: double-checked locking as interleaved steps of any
    number of threads. Only the fast path reads the dictionary without the lock. */
module ModelCache {
  import opened Wrappers

  type Key = string
  type Instance = nat

  // --------------------------------------------------------------------- keys

  datatype Hardware = Hardware(cuda: bool, mpsPresent: bool, mpsWorks: bool)

  predicate MpsUsable(h: Hardware) {
    h.mpsPresent && h.mpsWorks
  }

  /** An empty request, like none, means automatic detection. */
  function ResolveDevice(requested: string, h: Hardware): (d: string)
    ensures d in {"cuda", "mps", "cpu"}
    ensures d == "cuda" <==> h.cuda && requested in {"", "cuda"}
    ensures d == "mps" <==> h.mpsPresent && h.mpsWorks && (requested == "mps" || (requested == "" && !h.cuda))
  {
    if requested != "" then
      if requested == "cuda" && h.cuda then "cuda"
      else if requested == "mps" && MpsUsable(h) then "mps"
      else "cpu"
    else if h.cuda then "cuda"
    else if MpsUsable(h) then "mps"
    else "cpu"
  }

  function CacheKey(name: string, device: string): Key {
    name + "@" + device
  }

  /** Two requests share a key exactly when name and resolved device agree, even if
      a model name contains the separator. */
  lemma CacheKeyInjective(name1: string, name2: string, req1: string, req2: string, h: Hardware)
    ensures CacheKey(name1, ResolveDevice(req1, h)) == CacheKey(name2, ResolveDevice(req2, h))
            <==> name1 == name2 && ResolveDevice(req1, h) == ResolveDevice(req2, h)
  {
    var d1, d2 := ResolveDevice(req1, h), ResolveDevice(req2, h);
    if CacheKey(name1, d1) == CacheKey(name2, d2) {
      SeparatorAgrees(name1, d1, name2, d2);
    }
  }

  lemma SeparatorAgrees(a: string, d: string, b: string, e: string)
    requires '@' !in d && '@' !in e
    requires a + "@" + d == b + "@" + e
    ensures a == b && d == e
  {
    var k := a + "@" + d;
    assert k[|a|] == '@' && k[|b|] == '@';
    forall j | |a| < j < |k| ensures k[j] != '@' {
      assert k[j] == d[j - |a| - 1];
    }
    forall j | |b| < j < |k| ensures k[j] != '@' {
      assert k[j] == e[j - |b| - 1];
    }
    assert |a| == |b|;
    assert a == k[..|a|] && b == k[..|b|] && d == k[|a| + 1..] && e == k[|b| + 1..];
  }

  // ----------------------------------------------------------------- the cache

  /** Where a thread is. `generation` counts the clears seen when the key was found. */
  datatype Thread =
    | Idle
    | Checking(key: Key)
    | Fetching(key: Key, generation: nat)
    | Waiting(key: Key)
    | Rechecking(key: Key)
    | Loading(key: Key)
    | Storing(key: Key, model: Instance)
    | WaitingToClear
    | Clearing

  datatype Stored = Stored(key: Key, model: Instance, generation: nat)
  datatype Returned = Returned(thread: nat, key: Key, model: Instance)

  /** `stored`, `returned`, `keyErrors` and `clears` are histories. */
  datatype Cache = Cache(
    models: map<Key, Instance>,
    lock: Option<nat>,
    threads: seq<Thread>,
    nextInstance: nat,
    stored: seq<Stored>,
    returned: seq<Returned>,
    keyErrors: seq<nat>,
    clears: nat)

  datatype Step =
    | CallGet(t: nat, key: Key)
    | CallClear(t: nat)
    | Check(t: nat)
    | Fetch(t: nat)
    | Acquire(t: nat)
    | Recheck(t: nat)
    | Load(t: nat, succeeds: bool)
    | Store(t: nat)
    | Clear(t: nat)

  function Initial(n: nat): Cache {
    Cache(map[], None, seq(n, _ => Idle), 0, [], [], [], 0)
  }

  ghost predicate Enabled(c: Cache, s: Step) {
    s.t < |c.threads|
    && var pc := c.threads[s.t];
       match s
       case CallGet(_, _) => pc.Idle?
       case CallClear(_) => pc.Idle?
       case Check(_) => pc.Checking?
       case Fetch(_) => pc.Fetching?
       case Acquire(_) => (pc.Waiting? || pc.WaitingToClear?) && c.lock.None?
       case Recheck(_) => pc.Rechecking?
       case Load(_, _) => pc.Loading?
       case Store(_) => pc.Storing?
       case Clear(_) => pc.Clearing?
  }

  function Goto(c: Cache, t: nat, pc: Thread): Cache
    requires t < |c.threads|
  {
    c.(threads := c.threads[t := pc])
  }

  function Return(c: Cache, t: nat, key: Key, model: Instance): Cache
    requires t < |c.threads|
  {
    Goto(c, t, Idle).(returned := c.returned + [Returned(t, key, model)])
  }

  ghost function Apply(c: Cache, s: Step): Cache
    requires Enabled(c, s)
  {
    var t := s.t;
    match s
    case CallGet(_, key) => Goto(c, t, Checking(key))
    case CallClear(_) => Goto(c, t, WaitingToClear)
    case Check(_) =>
      var key := c.threads[t].key;
      Goto(c, t, if key in c.models then Fetching(key, c.clears) else Waiting(key))
    case Fetch(_) =>
      // The key may have been cleared since it was found.
      var key := c.threads[t].key;
      if key in c.models then Return(c, t, key, c.models[key])
      else Goto(c, t, Idle).(keyErrors := c.keyErrors + [t])
    case Acquire(_) =>
      Goto(c, t, if c.threads[t].Waiting? then Rechecking(c.threads[t].key) else Clearing).(lock := Some(t))
    case Recheck(_) =>
      var key := c.threads[t].key;
      if key in c.models then Return(c, t, key, c.models[key]).(lock := None)
      else Goto(c, t, Loading(key))
    case Load(_, succeeds) =>
      if succeeds
      then Goto(c, t, Storing(c.threads[t].key, c.nextInstance)).(nextInstance := c.nextInstance + 1)
      else Goto(c, t, Idle).(lock := None)
    case Store(_) =>
      var key, model := c.threads[t].key, c.threads[t].model;
      Return(c, t, key, model).(lock := None, models := c.models[key := model],
                                stored := c.stored + [Stored(key, model, c.clears)])
    case Clear(_) =>
      Goto(c, t, Idle).(lock := None, models := map[], clears := c.clears + 1)
  }

  predicate HoldsLock(pc: Thread) {
    pc.Rechecking? || pc.Loading? || pc.Storing? || pc.Clearing?
  }

  predicate IsLoading(pc: Thread) {
    pc.Loading? || pc.Storing?
  }

  /** Exactly the thread that holds the lock is inside the locked region. */
  ghost predicate LockInv(c: Cache) {
    forall t: nat :: t < |c.threads| ==> (HoldsLock(c.threads[t]) <==> c.lock == Some(t))
  }

  /** A model is loaded only while its key is absent; within one generation a found
      key stays. */
  ghost predicate ThreadInv(c: Cache) {
    forall t: nat :: t < |c.threads| ==>
      && (IsLoading(c.threads[t]) ==> c.threads[t].key !in c.models)
      && (c.threads[t].Storing? ==> c.threads[t].model < c.nextInstance)
      && (c.threads[t].Fetching? ==> c.threads[t].generation <= c.clears)
      && (c.threads[t].Fetching? && c.threads[t].generation == c.clears ==> c.threads[t].key in c.models)
  }

  /** The dictionary is what was stored since the last clear, each key once. */
  ghost predicate StoredInv(c: Cache) {
    && (forall k :: 0 <= k < |c.stored| ==>
          c.stored[k].generation <= c.clears
          && (c.stored[k].generation == c.clears ==>
               c.stored[k].key in c.models && c.models[c.stored[k].key] == c.stored[k].model))
    && (forall key :: key in c.models ==> Stored(key, c.models[key], c.clears) in c.stored)
    && (forall i, k :: 0 <= i < k < |c.stored| ==>
          !(c.stored[i].key == c.stored[k].key && c.stored[i].generation == c.stored[k].generation))
  }

  ghost predicate IsStored(c: Cache, r: Returned) {
    exists k :: 0 <= k < |c.stored| && c.stored[k].key == r.key && c.stored[k].model == r.model
  }

  /** Callers only ever get stored models; a missing key means there was a clear. */
  ghost predicate ReturnedInv(c: Cache) {
    && (forall k :: 0 <= k < |c.returned| ==> IsStored(c, c.returned[k]))
    && (|c.keyErrors| > 0 ==> c.clears > 0)
  }

  ghost predicate Inv(c: Cache) {
    LockInv(c) && ThreadInv(c) && StoredInv(c) && ReturnedInv(c)
  }

  lemma LockKept(c: Cache, s: Step)
    requires LockInv(c) && Enabled(c, s)
    ensures LockInv(Apply(c, s))
  {
  }

  lemma ThreadKept(c: Cache, s: Step)
    requires LockInv(c) && ThreadInv(c) && Enabled(c, s)
    ensures ThreadInv(Apply(c, s))
  {
    var c' := Apply(c, s);
    forall t: nat | t < |c'.threads| && t != s.t ensures c'.threads[t] == c.threads[t] {
    }
    if s.Store? || s.Clear? {
      forall t: nat | t < |c.threads| && t != s.t ensures !IsLoading(c.threads[t]) {
        assert c.lock == Some(s.t);
      }
    }
  }

  lemma StoreKeepsStored(c: Cache, s: Step)
    requires ThreadInv(c) && StoredInv(c) && Enabled(c, s) && s.Store?
    ensures StoredInv(Apply(c, s))
  {
    var key, model := c.threads[s.t].key, c.threads[s.t].model;
    var c' := Apply(c, s);
    assert key !in c.models;
    hide ThreadInv;
    assert c'.stored[|c.stored|] == Stored(key, model, c.clears);
    forall k | k in c'.models ensures Stored(k, c'.models[k], c'.clears) in c'.stored {
      assert k != key ==> Stored(k, c.models[k], c.clears) in c.stored;
    }
  }

  lemma StoredKept(c: Cache, s: Step)
    requires ThreadInv(c) && StoredInv(c) && Enabled(c, s)
    ensures StoredInv(Apply(c, s))
  {
    if s.Store? {
      hide StoredInv, ThreadInv, Apply, Enabled;
      StoreKeepsStored(c, s);
    } else {
      hide ThreadInv;
    }
  }

  lemma ReturnedKept(c: Cache, s: Step)
    requires ThreadInv(c) && StoredInv(c) && ReturnedInv(c) && Enabled(c, s)
    ensures ReturnedInv(Apply(c, s))
  {
    var c' := Apply(c, s);
    assert |c.keyErrors| < |c'.keyErrors| ==> c.clears > 0;
    forall k | 0 <= k < |c'.returned| ensures IsStored(c', c'.returned[k]) {
      if k < |c.returned| {
        StaysStored(c, s, c.returned[k]);
      } else {
        ReturnsStored(c, s);
      }
    }
  }

  lemma StaysStored(c: Cache, s: Step, r: Returned)
    requires Enabled(c, s) && IsStored(c, r)
    ensures IsStored(Apply(c, s), r)
  {
    var j :| 0 <= j < |c.stored| && c.stored[j].key == r.key && c.stored[j].model == r.model;
    assert Apply(c, s).stored[j] == c.stored[j];
  }

  lemma ReturnsStored(c: Cache, s: Step)
    requires StoredInv(c) && Enabled(c, s) && |Apply(c, s).returned| > |c.returned|
    ensures IsStored(Apply(c, s), Apply(c, s).returned[|c.returned|])
  {
    var c' := Apply(c, s);
    var key := c.threads[s.t].key;
    if s.Store? {
      assert c'.stored[|c.stored|] == Stored(key, c.threads[s.t].model, c.clears);
    } else {
      assert Stored(key, c.models[key], c.clears) in c.stored;
    }
  }

  lemma InvKept(c: Cache, s: Step)
    requires Inv(c) && Enabled(c, s)
    ensures Inv(Apply(c, s))
  {
    hide LockInv, ThreadInv, StoredInv, ReturnedInv, Enabled, Apply;
    LockKept(c, s);
    ThreadKept(c, s);
    StoredKept(c, s);
    ReturnedKept(c, s);
  }

  ghost predicate Runs(a: Cache, steps: seq<Step>, b: Cache)
    decreases |steps|
  {
    if |steps| == 0 then a == b
    else Enabled(a, steps[0]) && Runs(Apply(a, steps[0]), steps[1..], b)
  }

  lemma {:induction false} RunsKeepInv(a: Cache, steps: seq<Step>, b: Cache)
    requires Inv(a) && Runs(a, steps, b)
    ensures Inv(b)
    decreases |steps|
  {
    hide Inv, Enabled, Apply;
    if |steps| > 0 {
      InvKept(a, steps[0]);
      RunsKeepInv(Apply(a, steps[0]), steps[1..], b);
    }
  }

  ghost predicate Reachable(n: nat, c: Cache) {
    exists steps :: Runs(Initial(n), steps, c)
  }

  lemma ReachableInv(n: nat, c: Cache)
    requires Reachable(n, c)
    ensures Inv(c)
  {
    var steps :| Runs(Initial(n), steps, c);
    RunsKeepInv(Initial(n), steps, c);
  }

  // --------------------------------------------------------------- over all runs

  /** At most one thread is loading at any time. */
  lemma OneLoaderAtATime(n: nat, c: Cache, t: nat, u: nat)
    requires Reachable(n, c) && t < |c.threads| && u < |c.threads|
    requires IsLoading(c.threads[t]) && IsLoading(c.threads[u])
    ensures t == u
  {
    ReachableInv(n, c);
    assert c.lock == Some(t) && c.lock == Some(u);
  }

  function Loads(stored: seq<Stored>, key: Key): seq<Stored> {
    if |stored| == 0 then []
    else if stored[|stored| - 1].key == key then Loads(stored[..|stored| - 1], key) + [stored[|stored| - 1]]
    else Loads(stored[..|stored| - 1], key)
  }

  lemma {:induction false} LoadsMembers(stored: seq<Stored>, key: Key)
    requires forall i, k :: 0 <= i < k < |stored| ==>
               !(stored[i].key == stored[k].key && stored[i].generation == stored[k].generation)
    ensures forall k :: 0 <= k < |Loads(stored, key)| ==>
              Loads(stored, key)[k] in stored && Loads(stored, key)[k].key == key
    ensures forall i, k :: 0 <= i < k < |Loads(stored, key)| ==>
              Loads(stored, key)[i].generation != Loads(stored, key)[k].generation
  {
    if |stored| > 0 {
      var init, last := stored[..|stored| - 1], stored[|stored| - 1];
      LoadsMembers(init, key);
      assert forall s :: s in init ==> s in stored;
      if last.key == key {
        forall k | 0 <= k < |Loads(init, key)| ensures Loads(init, key)[k].generation != last.generation {
          var j :| 0 <= j < |init| && init[j] == Loads(init, key)[k];
          assert stored[j] == init[j];
        }
      }
    }
  }

  lemma DistinctBounded(values: seq<Stored>, bound: nat)
    requires forall k :: 0 <= k < |values| ==> values[k].generation < bound
    requires forall i, k :: 0 <= i < k < |values| ==> values[i].generation != values[k].generation
    ensures |values| <= bound
  {
    var gens := set k | 0 <= k < |values| :: values[k].generation;
    GenerationsAsMany(values);
    BoundedSet(gens, bound);
  }

  lemma {:induction false} GenerationsAsMany(values: seq<Stored>)
    requires forall i, k :: 0 <= i < k < |values| ==> values[i].generation != values[k].generation
    ensures |set k | 0 <= k < |values| :: values[k].generation| == |values|
  {
    if |values| > 0 {
      var init, last := values[..|values| - 1], values[|values| - 1].generation;
      GenerationsAsMany(init);
      var gens := set k | 0 <= k < |init| :: init[k].generation;
      assert (set k | 0 <= k < |values| :: values[k].generation) == gens + {last} by {
        assert forall k :: 0 <= k < |init| ==> init[k] == values[k];
        forall g | g in gens + {last} ensures exists k :: 0 <= k < |values| && values[k].generation == g {
          if g == last {
            assert values[|values| - 1].generation == g;
          } else {
            var k :| 0 <= k < |init| && init[k].generation == g;
            assert values[k].generation == g;
          }
        }
      }
      assert last !in gens;
    }
  }

  lemma {:induction false} BoundedSet(s: set<nat>, bound: nat)
    requires forall x :: x in s ==> x < bound
    ensures |s| <= bound
    decreases bound
  {
    if bound > 0 {
      BoundedSet(s - {bound - 1}, bound - 1);
      assert bound - 1 in s ==> s == (s - {bound - 1}) + {bound - 1};
      assert bound - 1 !in s ==> s == s - {bound - 1};
    } else {
      assert forall x :: x !in s;
      assert s == {};
    }
  }

  /** A key is loaded successfully at most once more often than the cache was cleared. */
  lemma LoadsBoundedByClears(n: nat, c: Cache, key: Key)
    requires Reachable(n, c)
    ensures |Loads(c.stored, key)| <= 1 + c.clears
  {
    hide Reachable, Loads;
    ReachableInv(n, c);
    LoadsMembers(c.stored, key);
    DistinctBounded(Loads(c.stored, key), 1 + c.clears);
  }

  /** Without clears every caller of a key gets the same model, and nobody an error. */
  lemma SameModelWithoutClears(n: nat, c: Cache, i: nat, k: nat)
    requires Reachable(n, c) && c.clears == 0
    ensures c.keyErrors == []
    ensures i < |c.returned| && k < |c.returned| && c.returned[i].key == c.returned[k].key ==>
              c.returned[i].model == c.returned[k].model
  {
    ReachableInv(n, c);
    if i < |c.returned| && k < |c.returned| && c.returned[i].key == c.returned[k].key {
      var a :| 0 <= a < |c.stored| && c.stored[a].key == c.returned[i].key && c.stored[a].model == c.returned[i].model;
      var b :| 0 <= b < |c.stored| && c.stored[b].key == c.returned[k].key && c.stored[b].model == c.returned[k].model;
      assert c.stored[a].generation == 0 && c.stored[b].generation == 0;
    }
  }

  /** The fast path raises a key error exactly when the cache was cleared after the
      key had been found and the key has not been loaded again since. */
  lemma KeyErrorExactlyWhen(n: nat, c: Cache, t: nat)
    requires Reachable(n, c) && Enabled(c, Fetch(t))
    ensures |Apply(c, Fetch(t)).keyErrors| > |c.keyErrors| <==>
              && c.threads[t].generation < c.clears
              && forall k :: 0 <= k < |c.stored| ==>
                   !(c.stored[k].key == c.threads[t].key && c.stored[k].generation == c.clears)
  {
    ReachableInv(n, c);
    var key := c.threads[t].key;
    if key in c.models {
      assert Stored(key, c.models[key], c.clears) in c.stored;
    }
  }

  lemma {:induction false} RunsExtend(a: Cache, steps: seq<Step>, b: Cache, s: Step)
    requires Runs(a, steps, b) && Enabled(b, s)
    ensures Runs(a, steps + [s], Apply(b, s))
    decreases |steps|
  {
    hide Enabled, Apply;
    if |steps| == 0 {
      assert steps + [s] == [s];
      assert Runs(Apply(b, s), [s][1..], Apply(b, s));
    } else {
      RunsExtend(Apply(a, steps[0]), steps[1..], b, s);
      assert (steps + [s])[1..] == steps[1..] + [s];
    }
  }

  lemma ReachableExtends(n: nat, c: Cache, s: Step)
    requires Reachable(n, c) && Enabled(c, s)
    ensures Reachable(n, Apply(c, s))
  {
    hide Enabled, Apply;
    var steps :| Runs(Initial(n), steps, c);
    RunsExtend(Initial(n), steps, c, s);
  }

  /** What one thread alone keeps: nothing clears between its test and its read. */
  ghost predicate Alone(c: Cache) {
    && |c.threads| <= 1
    && c.keyErrors == []
    && forall t: nat :: t < |c.threads| && c.threads[t].Fetching? ==> c.threads[t].generation == c.clears
  }

  lemma AloneKept(c: Cache, s: Step)
    requires Inv(c) && Alone(c) && Enabled(c, s)
    ensures Alone(Apply(c, s))
  {
    hide LockInv, StoredInv, ReturnedInv;
  }

  lemma {:induction false} AloneRuns(a: Cache, steps: seq<Step>, b: Cache)
    requires Inv(a) && Alone(a) && Runs(a, steps, b)
    ensures Alone(b)
    decreases |steps|
  {
    hide Inv, Alone, Enabled, Apply;
    if |steps| > 0 {
      InvKept(a, steps[0]);
      AloneKept(a, steps[0]);
      AloneRuns(Apply(a, steps[0]), steps[1..], b);
    }
  }

  /** What the first two of any number of threads are doing. */
  ghost predicate Doing(n: nat, c: Cache, first: Thread, second: Thread) {
    Reachable(n, c) && |c.threads| == n >= 2 && c.threads[0] == first && c.threads[1] == second
  }

  lemma StartsIdle(n: nat) returns (c: Cache)
    requires n >= 2
    ensures Doing(n, c, Idle, Idle) && c.models == map[] && c.lock == None && c.clears == 0
  {
    c := Initial(n);
    assert Runs(c, [], c);
  }

  /** A caller finds nothing, takes the lock and loads. */
  lemma LoadedOnce(n: nat) returns (c: Cache)
    requires n >= 2
    ensures Doing(n, c, Idle, Idle) && "m" in c.models && c.lock == None && c.clears == 0
  {
    hide Reachable, Runs, Initial;
    c := StartsIdle(n);
    ReachableExtends(n, c, CallGet(0, "m"));
    c := Apply(c, CallGet(0, "m"));
    ReachableExtends(n, c, Check(0));
    c := Apply(c, Check(0));
    ReachableExtends(n, c, Acquire(0));
    c := Apply(c, Acquire(0));
    ReachableExtends(n, c, Recheck(0));
    c := Apply(c, Recheck(0));
    ReachableExtends(n, c, Load(0, true));
    c := Apply(c, Load(0, true));
    ReachableExtends(n, c, Store(0));
    c := Apply(c, Store(0));
  }

  /** A caller finds the key, another thread clears, the read fails. */
  lemma ClearedBetween(n: nat) returns (c: Cache)
    requires n >= 2
    ensures Reachable(n, c) && c.keyErrors != []
  {
    hide Reachable, Runs, Initial;
    c := LoadedOnce(n);
    ReachableExtends(n, c, CallGet(0, "m"));
    c := Apply(c, CallGet(0, "m"));
    ReachableExtends(n, c, Check(0));
    c := Apply(c, Check(0));
    ReachableExtends(n, c, CallClear(1));
    c := Apply(c, CallClear(1));
    ReachableExtends(n, c, Acquire(1));
    c := Apply(c, Acquire(1));
    ReachableExtends(n, c, Clear(1));
    c := Apply(c, Clear(1));
    ReachableExtends(n, c, Fetch(0));
    c := Apply(c, Fetch(0));
  }

  /** No run ever raises a key error exactly when at most one thread uses the cache. */
  lemma NoKeyErrorExactlyWhen(n: nat)
    ensures (forall c :: Reachable(n, c) ==> c.keyErrors == []) <==> n <= 1
  {
    if n <= 1 {
      forall c | Reachable(n, c) ensures c.keyErrors == [] {
        var steps :| Runs(Initial(n), steps, c);
        AloneRuns(Initial(n), steps, c);
      }
    } else {
      var c := ClearedBetween(n);
    }
  }
}
