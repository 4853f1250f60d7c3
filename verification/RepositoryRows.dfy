/** What the repositories table and its child tables hold after any run: the last thing
    written, unless it was deleted since. */
module RepositoryRows {
  import opened Wrappers
  import opened Repositories

  /** The status machine as pairs. */
  const ALLOWED: set<(Status, Status)> := {
    (Pending, Indexing),
    (Indexing, Ready), (Indexing, Error), (Indexing, Paused), (Indexing, Indexing),
    (Paused, Indexing), (Paused, Error),
    (Ready, Indexing),
    (Error, Pending), (Error, Indexing)
  }

  lemma AllowedIs(from: Status, to: Status)
    ensures to in ValidNext(from) <==> (from, to) in ALLOWED
  {
  }

  /** The operation gives the repository this row. */
  predicate Writes(t: Tables, op: Op, repoId: string, row: Repo) {
    match op
    case Create(id, initial) => id == repoId && initial == row && id !in t.repos
    case UpdateStatus(id, to, validate) =>
      && id == repoId && to == row && id in t.repos
      && (validate ==> (t.repos[id].status, to.status) in ALLOWED)
    case _ => false
  }

  predicate Overwrites(t: Tables, op: Op, repoId: string) {
    op == Delete(repoId) || (op.Create? && Writes(t, op, repoId, op.initial))
    || (op.UpdateStatus? && Writes(t, op, repoId, op.to))
  }

  predicate HasRow(t: Tables, repoId: string, row: Repo) {
    repoId in t.repos && t.repos[repoId] == row
  }

  lemma StepWrites(t: Tables, op: Op, repoId: string, row: Repo)
    ensures HasRow(Step(t, op), repoId, row)
            <==> Writes(t, op, repoId, row) || (HasRow(t, repoId, row) && !Overwrites(t, op, repoId))
  {
    if op.UpdateStatus? && op.repoId in t.repos {
      AllowedIs(t.repos[op.repoId].status, op.to.status);
    }
  }

  lemma AfterNext(ops: seq<Op>, i: nat)
    requires i < |ops|
    ensures After(ops[..i + 1]) == Step(After(ops[..i]), ops[i])
  {
    assert ops[..i + 1] == ops[..i] + [ops[i]];
    AfterOne(ops[..i], ops[i]);
  }

  /** Operation `j` wrote the row, and none up to `n` wrote another or deleted it. */
  ghost predicate LastWrite(ops: seq<Op>, n: nat, j: nat, repoId: string, row: Repo)
    requires n <= |ops|
  {
    && j < n && Writes(After(ops[..j]), ops[j], repoId, row)
    && forall i :: j < i < n ==> !Overwrites(After(ops[..i]), ops[i], repoId)
  }

  lemma {:induction false} RowUpTo(ops: seq<Op>, n: nat, repoId: string, row: Repo)
    requires n <= |ops|
    ensures HasRow(After(ops[..n]), repoId, row) <==> exists j: nat :: LastWrite(ops, n, j, repoId, row)
  {
    hide Step, Writes, Overwrites;
    if n > 0 {
      hide After, HasRow;
      var i := n - 1;
      RowUpTo(ops, i, repoId, row);
      AfterNext(ops, i);
      StepWrites(After(ops[..i]), ops[i], repoId, row);
      forall j: nat | LastWrite(ops, n, j, repoId, row) && j < i
        ensures LastWrite(ops, i, j, repoId, row)
      {
      }
      if Writes(After(ops[..i]), ops[i], repoId, row) {
        assert LastWrite(ops, n, i, repoId, row);
      } else if HasRow(After(ops[..n]), repoId, row) {
        var j: nat :| LastWrite(ops, i, j, repoId, row);
        assert LastWrite(ops, n, j, repoId, row);
      }
    }
  }

  /** A repository has a row, with status and message, exactly when some operation wrote it
      and none has written another or deleted it since. */
  lemma RowIsLastWritten(ops: seq<Op>, repoId: string, row: Repo)
    ensures HasRow(After(ops), repoId, row) <==> exists j: nat :: LastWrite(ops, |ops|, j, repoId, row)
  {
    RowUpTo(ops, |ops|, repoId, row);
    assert ops[..|ops|] == ops;
  }

  /** Operation `j` added the child row while its repository existed, and none up to `n`
      deleted the repository. */
  ghost predicate LastAdded(ops: seq<Op>, n: nat, j: nat, c: Child)
    requires n <= |ops|
  {
    && j < n && ops[j] == AddChild(c) && c.repoId in After(ops[..j]).repos
    && forall i :: j < i < n ==> ops[i] != Delete(c.repoId)
  }

  lemma StepAdds(t: Tables, op: Op, c: Child)
    requires Consistent(t)
    ensures c in Step(t, op).children
            <==> (op == AddChild(c) && c.repoId in t.repos) || (c in t.children && op != Delete(c.repoId))
  {
  }

  lemma {:induction false} ChildUpTo(ops: seq<Op>, n: nat, c: Child)
    requires n <= |ops|
    ensures c in After(ops[..n]).children <==> exists j: nat :: LastAdded(ops, n, j, c)
  {
    hide Step, Consistent;
    if n > 0 {
      hide After;
      var i := n - 1;
      ChildUpTo(ops, i, c);
      AfterNext(ops, i);
      RunsStayConsistent(ops[..i]);
      StepAdds(After(ops[..i]), ops[i], c);
      forall j: nat | LastAdded(ops, n, j, c) && j < i
        ensures LastAdded(ops, i, j, c)
      {
      }
      if ops[i] == AddChild(c) && c.repoId in After(ops[..i]).repos {
        assert LastAdded(ops, n, i, c);
      } else if c in After(ops[..n]).children {
        var j: nat :| LastAdded(ops, i, j, c);
        assert LastAdded(ops, n, j, c);
      }
    }
  }

  /** A child row is there exactly when it was added while its repository existed and the
      repository has not been deleted since. */
  lemma ChildIsKept(ops: seq<Op>, c: Child)
    ensures c in After(ops).children <==> exists j: nat :: LastAdded(ops, |ops|, j, c)
  {
    ChildUpTo(ops, |ops|, c);
    assert ops[..|ops|] == ops;
  }
}
