/** A FIFO queue shared by several producers, each of which ends its stream with
    one sentinel. Both levels of the streaming fan-in (two producers per
    repository, N repositories per request) are such a queue. */
module SentinelQueue {

  datatype Msg<T> = Data(tag: nat, payload: T) | Last(tag: nat)

  ghost predicate Absent<T>(q: seq<Msg<T>>, t: nat) {
    forall k :: 0 <= k < |q| ==> q[k].tag != t
  }

  /** `closed`: producers that have put their sentinel; `seen`: producers whose
      sentinel the consumer has taken. */
  ghost predicate Consistent<T(!new)>(q: seq<Msg<T>>, closed: set<nat>, seen: set<nat>) {
    && seen <= closed
    && (forall t :: t in seen ==> Absent(q, t))
    && (forall k :: 0 <= k < |q| && q[k].Last? ==> q[k].tag in closed)
    && (forall t :: t in closed && t !in seen ==> Last(t) in q)
    && (forall i, k :: 0 <= i < k < |q| && q[i].Last? ==> q[k].tag != q[i].tag)
  }

  /** The payloads producer `t` has in the queue, in queue order. */
  function Of<T>(q: seq<Msg<T>>, t: nat): seq<T> {
    if |q| == 0 then []
    else if q[0].Data? && q[0].tag == t then [q[0].payload] + Of(q[1..], t)
    else Of(q[1..], t)
  }

  lemma {:induction false} OfConcat<T>(a: seq<Msg<T>>, b: seq<Msg<T>>, t: nat)
    ensures Of(a + b, t) == Of(a, t) + Of(b, t)
  {
    if |a| == 0 {
      assert a + b == b;
    } else {
      assert (a + b)[0] == a[0] && (a + b)[1..] == a[1..] + b;
      OfConcat(a[1..], b, t);
    }
  }

  lemma PutData<T(!new)>(q: seq<Msg<T>>, closed: set<nat>, seen: set<nat>, t: nat, x: T)
    requires Consistent(q, closed, seen) && t !in closed
    ensures Consistent(q + [Data(t, x)], closed, seen)
  {
    var q' := q + [Data(t, x)];
    forall u | u in closed && u !in seen ensures Last(u) in q' {
      assert Last(u) in q;
    }
  }

  lemma PutLast<T(!new)>(q: seq<Msg<T>>, closed: set<nat>, seen: set<nat>, t: nat)
    requires Consistent(q, closed, seen) && t !in closed
    ensures Consistent(q + [Last(t)], closed + {t}, seen)
  {
    var q' := q + [Last(t)];
    forall u | u in closed + {t} && u !in seen ensures Last(u) in q' {
      if u == t {
        assert q'[|q|] == Last(t);
      } else {
        assert Last(u) in q;
      }
    }
  }

  /** Taking the head keeps the queue consistent; taking a sentinel proves that
      its producer has nothing left in the queue. */
  lemma Take<T(!new)>(q: seq<Msg<T>>, closed: set<nat>, seen: set<nat>)
    requires Consistent(q, closed, seen) && q != []
    ensures Consistent(q[1..], closed, if q[0].Last? then seen + {q[0].tag} else seen)
    ensures q[0].tag !in seen
  {
    var seen' := if q[0].Last? then seen + {q[0].tag} else seen;
    forall t | t in seen ensures q[0].tag != t {
      assert Absent(q, t);
    }
    forall t | t in seen' ensures Absent(q[1..], t) {
      if t in seen {
        assert Absent(q, t);
      }
    }
    forall t | t in closed && t !in seen' ensures Last(t) in q[1..] {
      assert Last(t) in q && q[0] != Last(t);
    }
  }

  /** Once every producer's sentinel has been taken the queue is empty. */
  lemma Drained<T(!new)>(q: seq<Msg<T>>, closed: set<nat>, seen: set<nat>)
    requires Consistent(q, closed, seen)
    requires forall k :: 0 <= k < |q| ==> q[k].tag in seen
    ensures q == []
  {
    if |q| > 0 {
      assert q[0].tag in seen;
      forall t | t in seen ensures q[0].tag != t {
        assert Absent(q, t);
      }
    }
  }
}
