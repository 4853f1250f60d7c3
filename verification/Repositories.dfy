/** The repositories table: the status machine, validated or not, and deletes that
    cascade to the five child tables. */
module Repositories {
  import opened Wrappers

  /** `Other` stands for any status value outside the five. */
  datatype Status = Pending | Indexing | Paused | Ready | Error | Other(name: string)

  datatype ChildTable = FileIndex | EmbeddingProgress | IndexingProgress | PendingChunk | FailedChunk

  datatype Child = Child(table: ChildTable, repoId: string, key: string)

  function ValidNext(s: Status): set<Status> {
    match s
    case Pending => {Indexing}
    case Indexing => {Ready, Error, Paused, Indexing}
    case Paused => {Indexing, Error}
    case Ready => {Indexing}
    case Error => {Pending, Indexing}
    case Other(_) => {}
  }

  datatype Repo = Repo(status: Status, error: Option<string>)

  datatype Op =
    | Create(repoId: string, initial: Repo)
    | UpdateStatus(repoId: string, to: Repo, validate: bool)
    | AddChild(child: Child)
    | Delete(repoId: string)

  datatype Tables = Tables(repos: map<string, Repo>, children: set<Child>)

  /** A new id, a listed transition if it is to be validated, a child row or a deletion
      that concerns a repository. An update that is not validated is never refused. */
  predicate Accepted(t: Tables, op: Op) {
    match op
    case Create(id, _) => id !in t.repos
    case UpdateStatus(id, to, validate) => validate ==> id in t.repos && to.status in ValidNext(t.repos[id].status)
    case AddChild(c) => c.repoId in t.repos
    case Delete(id) => id in t.repos
  }

  /** An update of an unknown repository changes no row. */
  function Step(t: Tables, op: Op): Tables {
    if !Accepted(t, op) then t
    else match op
      case Create(id, initial) => t.(repos := t.repos[id := initial])
      case UpdateStatus(id, to, _) => if id in t.repos then t.(repos := t.repos[id := to]) else t
      case AddChild(c) => t.(children := t.children + {c})
      case Delete(id) => Tables(t.repos - {id}, set c | c in t.children && c.repoId != id)
  }

  function After(ops: seq<Op>): Tables {
    if |ops| == 0 then Tables(map[], {}) else Step(After(ops[..|ops| - 1]), ops[|ops| - 1])
  }

  class RepositoryStore {
    var repos: map<string, Repo>
    var children: set<Child>

    function View(): Tables
      reads this
    {
      Tables(repos, children)
    }

    constructor ()
      ensures View() == After([])
    {
      repos, children := map[], {};
    }

    method CreateRepository(repoId: string, initial: Repo) returns (ok: bool)
      modifies this
      ensures ok == Accepted(old(View()), Create(repoId, initial))
      ensures View() == Step(old(View()), Create(repoId, initial))
    {
      ok := repoId !in repos;
      if ok {
        repos := repos[repoId := initial];
      }
    }

    method UpdateRepositoryStatus(repoId: string, status: Status, error: Option<string>, validate: bool)
      returns (ok: bool)
      modifies this
      ensures ok == Accepted(old(View()), UpdateStatus(repoId, Repo(status, error), validate))
      ensures View() == Step(old(View()), UpdateStatus(repoId, Repo(status, error), validate))
    {
      if validate {
        if repoId !in repos || status !in ValidNext(repos[repoId].status) {
          return false;
        }
      }
      if repoId in repos {
        repos := repos[repoId := Repo(status, error)];
      }
      ok := true;
    }

    /** The foreign key rejects rows of unknown repositories. */
    method InsertChild(c: Child) returns (ok: bool)
      modifies this
      ensures ok == Accepted(old(View()), AddChild(c)) && View() == Step(old(View()), AddChild(c))
    {
      ok := c.repoId in repos;
      if ok {
        children := children + {c};
      }
    }

    /** Deletes the dependent rows table by table, then the repository. */
    method DeleteRepository(repoId: string) returns (ok: bool)
      modifies this
      ensures ok == Accepted(old(View()), Delete(repoId)) && View() == Step(old(View()), Delete(repoId))
    {
      if repoId !in repos {
        return false;
      }
      var tables := [FileIndex, EmbeddingProgress, IndexingProgress, PendingChunk, FailedChunk];
      for i := 0 to |tables|
        invariant repos == old(repos)
        invariant children == set c | c in old(children) && !(c.repoId == repoId && c.table in tables[..i])
      {
        assert tables[..i + 1] == tables[..i] + [tables[i]];
        children := set c | c in children && !(c.repoId == repoId && c.table == tables[i]);
      }
      forall t: ChildTable ensures t in tables {
        match t
        case FileIndex => assert tables[0] == t;
        case EmbeddingProgress => assert tables[1] == t;
        case IndexingProgress => assert tables[2] == t;
        case PendingChunk => assert tables[3] == t;
        case FailedChunk => assert tables[4] == t;
      }
      assert tables[..|tables|] == tables;
      repos := repos - {repoId};
      ok := true;
    }
  }

  // ------------------------------------------------------------------ all runs

  /** Every child row references a repository that exists. */
  ghost predicate Consistent(t: Tables) {
    forall c :: c in t.children ==> c.repoId in t.repos
  }

  lemma {:induction false} RunsStayConsistent(ops: seq<Op>)
    ensures Consistent(After(ops))
  {
    if |ops| > 0 {
      RunsStayConsistent(ops[..|ops| - 1]);
    }
  }

  lemma AfterOne(ops: seq<Op>, op: Op)
    ensures After(ops + [op]) == Step(After(ops), op)
  {
    assert (ops + [op])[..|ops|] == ops;
  }

  /** Deleting removes exactly the repository and its own rows of every child table, so
      that one created again under the same id starts without any. */
  lemma DeleteRemovesExactly(ops: seq<Op>, repoId: string, initial: Repo)
    ensures var before, after := After(ops), After(ops + [Delete(repoId)]);
            && after.repos == before.repos - {repoId}
            && (forall c: Child :: c in after.children <==> c in before.children && c.repoId != repoId)
    ensures var again := After(ops + [Delete(repoId)] + [Create(repoId, initial)]);
            && again.repos == After(ops).repos[repoId := initial]
            && forall c :: c in again.children ==> c.repoId != repoId
  {
    hide After;
    RunsStayConsistent(ops);
    AfterOne(ops, Delete(repoId));
    AfterOne(ops + [Delete(repoId)], Create(repoId, initial));
  }

  function StatusAfter(ops: seq<Op>, n: nat, repoId: string): Option<Status>
    requires n <= |ops|
  {
    var t := After(ops[..n]);
    if repoId in t.repos then Some(t.repos[repoId].status) else None
  }

  /** A change along the status machine, which starts at Pending and may end anywhere. */
  predicate Lawful(before: Option<Status>, after: Option<Status>) {
    || before == after
    || after.None?
    || (before.None? && after.value.Pending?)
    || (before.Some? && after.value in ValidNext(before.value))
  }

  /** The operation creates no repository elsewhere than at Pending, and takes none past
      the validation it skips. */
  predicate Minds(t: Tables, op: Op) {
    match op
    case Create(id, initial) => id !in t.repos ==> initial.status.Pending?
    case UpdateStatus(id, to, validate) =>
      !validate && id in t.repos ==> to.status == t.repos[id].status || to.status in ValidNext(t.repos[id].status)
    case _ => true
  }

  ghost predicate LawfulAt(ops: seq<Op>, n: nat)
    requires n < |ops|
  {
    forall repoId :: Lawful(StatusAfter(ops, n, repoId), StatusAfter(ops, n + 1, repoId))
  }

  ghost predicate LawfulRun(ops: seq<Op>) {
    forall n :: 0 <= n < |ops| ==> LawfulAt(ops, n)
  }

  lemma StepLawfulExactlyWhen(ops: seq<Op>, n: nat)
    requires n < |ops|
    ensures LawfulAt(ops, n) <==> Minds(After(ops[..n]), ops[n])
  {
    assert ops[..n + 1] == ops[..n] + [ops[n]];
    AfterOne(ops[..n], ops[n]);
    hide After;
    if !Minds(After(ops[..n]), ops[n]) {
      assert !Lawful(StatusAfter(ops, n, ops[n].repoId), StatusAfter(ops, n + 1, ops[n].repoId));
    }
  }

  /** All status changes of a run follow the machine exactly when every repository is
      created Pending and no update that skips validation would have failed it. */
  lemma RunLawfulExactlyWhen(ops: seq<Op>)
    ensures LawfulRun(ops) <==> forall n :: 0 <= n < |ops| ==> Minds(After(ops[..n]), ops[n])
  {
    hide After, Minds, LawfulAt;
    forall n | 0 <= n < |ops| ensures LawfulAt(ops, n) <==> Minds(After(ops[..n]), ops[n]) {
      StepLawfulExactlyWhen(ops, n);
    }
  }

  /** What the machine says of single changes, at a point of a lawful run. */
  lemma EnteredOnlyFrom(ops: seq<Op>, n: nat, repoId: string)
    requires LawfulRun(ops) && n < |ops|
    ensures var before, after := StatusAfter(ops, n, repoId), StatusAfter(ops, n + 1, repoId);
            before != after ==>
              && (after == Some(Ready) || after == Some(Paused) ==> before == Some(Indexing))
              && (after == Some(Pending) ==> before == Some(Error) || before == None)
  {
    hide After;
    assert LawfulAt(ops, n);
    assert Lawful(StatusAfter(ops, n, repoId), StatusAfter(ops, n + 1, repoId));
  }

  /** In a lawful run, what is ready or paused has been indexing before, and has not
      been deleted since. */
  lemma {:induction false} ReadyWasIndexing(ops: seq<Op>, n: nat, repoId: string) returns (m: nat)
    requires LawfulRun(ops) && n <= |ops|
    requires StatusAfter(ops, n, repoId) == Some(Ready) || StatusAfter(ops, n, repoId) == Some(Paused)
    ensures m < n && StatusAfter(ops, m, repoId) == Some(Indexing)
    ensures forall j :: m <= j <= n ==> StatusAfter(ops, j, repoId).Some?
    decreases n
  {
    hide After, StatusAfter;
    NothingYet(ops, repoId);
    EnteredOnlyFrom(ops, n - 1, repoId);
    if StatusAfter(ops, n - 1, repoId) == StatusAfter(ops, n, repoId) {
      m := ReadyWasIndexing(ops, n - 1, repoId);
    } else {
      m := n - 1;
    }
  }

  lemma NothingYet(ops: seq<Op>, repoId: string)
    ensures StatusAfter(ops, 0, repoId) == None
  {
    assert ops[..0] == [];
  }

  predicate ValidatedUpdates(more: seq<Op>, repoId: string) {
    forall k :: 0 <= k < |more| ==> more[k].UpdateStatus? && more[k].repoId == repoId && more[k].validate
  }

  /** A status outside the five is never left by a validated update. */
  lemma {:induction false} StuckOutside(ops: seq<Op>, more: seq<Op>, repoId: string)
    requires repoId in After(ops).repos && After(ops).repos[repoId].status.Other? && ValidatedUpdates(more, repoId)
    ensures repoId in After(ops + more).repos && After(ops + more).repos[repoId] == After(ops).repos[repoId]
    decreases |more|
  {
    if |more| == 0 {
      assert ops + more == ops;
    } else {
      var init, last := more[..|more| - 1], more[|more| - 1];
      assert ops + more == (ops + init) + [last];
      StuckOutside(ops, init, repoId);
      AfterOne(ops + init, last);
      hide After;
    }
  }

  lemma TwoUpdates(ops: seq<Op>, repoId: string) returns (more: seq<Op>)
    requires repoId in After(ops).repos && !After(ops).repos[repoId].status.Other?
    ensures |more| <= 2 && ValidatedUpdates(more, repoId)
    ensures repoId in After(ops + more).repos && After(ops + more).repos[repoId].status.Ready?
  {
    var s := After(ops).repos[repoId].status;
    var toReady := UpdateStatus(repoId, Repo(Ready, None), true);
    var toIndexing := UpdateStatus(repoId, Repo(Indexing, None), true);
    AfterOne(ops, toReady);
    AfterOne(ops, toIndexing);
    AfterOne(ops + [toIndexing], toReady);
    hide After;
    if s.Ready? {
      more := [];
      assert ops + more == ops;
    } else if s.Indexing? {
      more := [toReady];
    } else {
      more := [toIndexing, toReady];
      assert ops + more == ops + [toIndexing] + [toReady];
    }
  }

  /** After any run whatever, validated updates can bring a repository to ready exactly
      when its status is one of the five. */
  lemma ReadyReachableExactlyWhen(ops: seq<Op>, repoId: string)
    requires repoId in After(ops).repos
    ensures (exists more :: ValidatedUpdates(more, repoId) && repoId in After(ops + more).repos
                            && After(ops + more).repos[repoId].status.Ready?)
            <==> !After(ops).repos[repoId].status.Other?
  {
    if !After(ops).repos[repoId].status.Other? {
      var more := TwoUpdates(ops, repoId);
    } else {
      forall more | ValidatedUpdates(more, repoId)
        ensures repoId in After(ops + more).repos && After(ops + more).repos[repoId] == After(ops).repos[repoId]
      {
        StuckOutside(ops, more, repoId);
      }
    }
  }

  /** In a lawful run no status is ever outside the five. */
  lemma {:induction false} LawfulStaysInside(ops: seq<Op>, n: nat, repoId: string)
    requires LawfulRun(ops) && n <= |ops|
    ensures StatusAfter(ops, n, repoId).Some? ==> !StatusAfter(ops, n, repoId).value.Other?
    decreases n
  {
    hide After, StatusAfter;
    if n == 0 {
      NothingYet(ops, repoId);
    } else {
      assert LawfulAt(ops, n - 1);
      assert Lawful(StatusAfter(ops, n - 1, repoId), StatusAfter(ops, n - 1 + 1, repoId));
      LawfulStaysInside(ops, n - 1, repoId);
    }
  }

  /** After any lawful run every repository there is can be brought to ready by validated
      updates. */
  lemma LawfulStaysReady(ops: seq<Op>, repoId: string)
    requires LawfulRun(ops) && repoId in After(ops).repos
    ensures exists more :: ValidatedUpdates(more, repoId) && repoId in After(ops + more).repos
                           && After(ops + more).repos[repoId].status.Ready?
  {
    assert ops[..|ops|] == ops;
    LawfulStaysInside(ops, |ops|, repoId);
    ReadyReachableExactlyWhen(ops, repoId);
  }
}
