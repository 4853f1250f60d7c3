/** Which threads are reported as returned, and how many sends failed, read off a run. */
module ProgressReports {
  import opened Progress

  /** The state before step `i`. */
  function Before(n: nat, steps: seq<Step>, i: nat): State
    requires i <= |steps|
  {
    Run(Init(n), steps[..i])
  }

  lemma BeforeNext(n: nat, steps: seq<Step>, i: nat)
    requires i < |steps|
    ensures Before(n, steps, i + 1) == Next(Before(n, steps, i), steps[i])
  {
    hide Next;
    assert steps[..i + 1] == steps[..i] + [steps[i]];
    RunAppend(Init(n), steps[..i], [steps[i]]);
    OneThen(Before(n, steps, i), steps[i], []);
    assert [steps[i]] + [] == [steps[i]];
  }

  /** The thread returns at step `i`, while the loop is open. */
  predicate ReturnsAt(n: nat, steps: seq<Step>, i: nat, w: nat)
    requires i < |steps|
  {
    var s := Before(n, steps, i);
    steps[i] == Return(w) && w < |s.workers| && s.workers[w].Between? && !s.closed
  }

  predicate Announced(s: State, w: nat) {
    w in s.returned || Returned(w) in s.pending
  }

  lemma StepAnnounces(s: State, step: Step, w: nat)
    ensures Announced(Next(s, step), w)
            <==> Announced(s, w) || (step == Return(w) && w < |s.workers| && s.workers[w].Between? && !s.closed)
  {
    if step.RunCallback? && |s.pending| > 0 {
      assert s.pending == [s.pending[0]] + s.pending[1..];
    }
  }

  ghost predicate ReturnedBefore(n: nat, steps: seq<Step>, k: nat, w: nat)
    requires k <= |steps|
  {
    exists i :: 0 <= i < k && ReturnsAt(n, steps, i, w)
  }

  lemma {:induction false} AnnouncedUpTo(n: nat, steps: seq<Step>, k: nat, w: nat)
    requires k <= |steps|
    ensures Announced(Before(n, steps, k), w) <==> ReturnedBefore(n, steps, k, w)
  {
    hide Next;
    if k == 0 {
      assert steps[..0] == [];
    } else {
      hide Before;
      AnnouncedUpTo(n, steps, k - 1, w);
      BeforeNext(n, steps, k - 1);
      StepAnnounces(Before(n, steps, k - 1), steps[k - 1], w);
      assert ReturnedBefore(n, steps, k, w)
             <==> ReturnedBefore(n, steps, k - 1, w) || ReturnsAt(n, steps, k - 1, w) by {
        forall i | 0 <= i < k && ReturnsAt(n, steps, i, w)
          ensures ReturnedBefore(n, steps, k - 1, w) || ReturnsAt(n, steps, k - 1, w)
        {
        }
      }
    }
  }

  /** A thread is reported to the loop, or its report is still pending, exactly when it has
      returned while the loop was open; with nothing pending, exactly those are reported. */
  lemma ReturnsAreReported(n: nat, steps: seq<Step>, w: nat)
    ensures var s := Run(Init(n), steps);
            && (w in s.returned || Returned(w) in s.pending <==> ReturnedBefore(n, steps, |steps|, w))
            && (s.pending == [] ==> (w in s.returned <==> ReturnedBefore(n, steps, |steps|, w)))
  {
    AnnouncedUpTo(n, steps, |steps|, w);
    assert steps[..|steps|] == steps;
  }

  /** The send under way ends undelivered at step `i`. */
  predicate FailsAt(n: nat, steps: seq<Step>, i: nat)
    requires i < |steps|
  {
    steps[i] == SendEnds(NotDelivered) && Before(n, steps, i).consumer.Sending? && !Before(n, steps, i).closed
  }

  ghost function Failures(n: nat, steps: seq<Step>, k: nat): set<nat>
    requires k <= |steps|
  {
    set i: nat | i < k && FailsAt(n, steps, i)
  }

  lemma StepFails(s: State, step: Step)
    ensures Next(s, step).failures
            == s.failures + if step == SendEnds(NotDelivered) && s.consumer.Sending? && !s.closed then 1 else 0
  {
  }

  lemma {:induction false} FailuresUpTo(n: nat, steps: seq<Step>, k: nat)
    requires k <= |steps|
    ensures Before(n, steps, k).failures == |Failures(n, steps, k)|
  {
    hide Next;
    if k == 0 {
      assert steps[..0] == [];
      assert Failures(n, steps, 0) == {};
    } else {
      hide Before;
      var i := k - 1;
      FailuresUpTo(n, steps, i);
      BeforeNext(n, steps, i);
      StepFails(Before(n, steps, i), steps[i]);
      if FailsAt(n, steps, i) {
        assert Failures(n, steps, k) == Failures(n, steps, i) + {i};
      } else {
        assert Failures(n, steps, k) == Failures(n, steps, i);
      }
    }
  }

  /** The consumer's failure count is the number of its sends that ended undelivered. */
  lemma FailuresAreCounted(n: nat, steps: seq<Step>)
    ensures Run(Init(n), steps).failures == |Failures(n, steps, |steps|)|
  {
    FailuresUpTo(n, steps, |steps|);
    assert steps[..|steps|] == steps;
  }
}
