/** The cursor walk over a syntax tree: a loop driven by one flag and a cursor
    that can only step to a first child, a next sibling or the parent. */
module TreeWalk {

  datatype Tree = Node(kind: string, kids: seq<Tree>)

  /** A node is identified by the child indices that lead to it from the root. */
  type Path = seq<nat>

  predicate ValidPath(t: Tree, p: Path)
    decreases |p|
  {
    |p| == 0 || (p[0] < |t.kids| && ValidPath(t.kids[p[0]], p[1..]))
  }

  function Subtree(t: Tree, p: Path): Tree
    requires ValidPath(t, p)
    decreases |p|
  {
    if |p| == 0 then t else Subtree(t.kids[p[0]], p[1..])
  }

  lemma {:induction false} SubtreeOfChild(t: Tree, p: Path, i: nat)
    requires ValidPath(t, p)
    ensures ValidPath(t, p + [i]) <==> i < |Subtree(t, p).kids|
    ensures i < |Subtree(t, p).kids| ==> Subtree(t, p + [i]) == Subtree(t, p).kids[i]
    decreases |p|
  {
    if |p| == 0 {
      assert p + [i] == [i] && [i][1..] == [];
    } else {
      SubtreeOfChild(t.kids[p[0]], p[1..], i);
      assert (p + [i])[1..] == p[1..] + [i];
    }
  }

  lemma {:induction false} PrefixValid(t: Tree, p: Path, i: nat)
    requires ValidPath(t, p + [i])
    ensures ValidPath(t, p)
    decreases |p|
  {
    if |p| > 0 {
      assert (p + [i])[1..] == p[1..] + [i];
      PrefixValid(t.kids[p[0]], p[1..], i);
    }
  }

  class Cursor {
    const root: Tree
    var path: Path

    ghost predicate Valid()
      reads this
    {
      ValidPath(root, path)
    }

    constructor (root: Tree)
      ensures this.root == root && path == [] && Valid()
    {
      this.root := root;
      this.path := [];
    }

    method GotoFirstChild() returns (moved: bool)
      requires Valid()
      modifies this
      ensures Valid()
      ensures moved <==> |Subtree(root, old(path)).kids| > 0
      ensures path == if moved then old(path) + [0] else old(path)
    {
      SubtreeOfChild(root, path, 0);
      moved := |Subtree(root, path).kids| > 0;
      if moved {
        path := path + [0];
      }
    }

    method GotoNextSibling() returns (moved: bool)
      requires Valid()
      modifies this
      ensures Valid()
      ensures moved <==> |old(path)| > 0 && ValidPath(root, NextSibling(old(path)))
      ensures path == if moved then NextSibling(old(path)) else old(path)
    {
      moved := false;
      if |path| > 0 {
        var up, i := path[..|path| - 1], path[|path| - 1];
        assert path == up + [i];
        PrefixValid(root, up, i);
        SubtreeOfChild(root, up, i + 1);
        if i + 1 < |Subtree(root, up).kids| {
          path, moved := up + [i + 1], true;
        }
      }
    }

    method GotoParent() returns (moved: bool)
      requires Valid()
      modifies this
      ensures Valid()
      ensures moved <==> |old(path)| > 0
      ensures path == if moved then old(path)[..|old(path)| - 1] else old(path)
    {
      moved := |path| > 0;
      if moved {
        assert path == path[..|path| - 1] + [path[|path| - 1]];
        PrefixValid(root, path[..|path| - 1], path[|path| - 1]);
        path := path[..|path| - 1];
      }
    }
  }

  function NextSibling(p: Path): Path
    requires |p| > 0
  {
    p[..|p| - 1] + [p[|p| - 1] + 1]
  }

  // ------------------------------------------------------ recursive preorder

  function Preorder(t: Tree, at: Path): seq<Path>
    decreases t, |t.kids| + 1
  {
    [at] + PreorderFrom(t, at, 0)
  }

  /** The subtrees of the children from index `i` on. */
  function PreorderFrom(t: Tree, at: Path, i: nat): seq<Path>
    decreases t, if i < |t.kids| then |t.kids| - i else 0
  {
    if i >= |t.kids| then [] else Preorder(t.kids[i], at + [i]) + PreorderFrom(t, at, i + 1)
  }

  function Size(t: Tree): nat
    decreases t, |t.kids| + 1
  {
    1 + SizeFrom(t, 0)
  }

  function SizeFrom(t: Tree, i: nat): nat
    decreases t, if i < |t.kids| then |t.kids| - i else 0
  {
    if i >= |t.kids| then 0 else Size(t.kids[i]) + SizeFrom(t, i + 1)
  }

  /** What preorder lists after the whole subtree at `p`. */
  function After(t: Tree, p: Path, at: Path): seq<Path>
    requires ValidPath(t, p)
    decreases |p|
  {
    if |p| == 0 then []
    else After(t.kids[p[0]], p[1..], at + [p[0]]) + PreorderFrom(t, at, p[0] + 1)
  }

  /** Loop iterations left once the subtree at `p` has been dealt with. */
  function Rest(t: Tree, p: Path): nat
    requires ValidPath(t, p)
    decreases |p|
  {
    if |p| == 0 then 0
    else Rest(t.kids[p[0]], p[1..]) + 2 * SizeFrom(t, p[0] + 1) + 1
  }

  lemma {:induction false} AfterChild(t: Tree, p: Path, i: nat, at: Path)
    requires ValidPath(t, p) && ValidPath(t, p + [i])
    ensures After(t, p + [i], at) == PreorderFrom(Subtree(t, p), at + p, i + 1) + After(t, p, at)
    ensures Rest(t, p + [i]) == 2 * SizeFrom(Subtree(t, p), i + 1) + 1 + Rest(t, p)
    decreases |p|
  {
    if |p| == 0 {
      assert p + [i] == [i] && [i][1..] == [] && at + p == at;
    } else {
      assert (p + [i])[1..] == p[1..] + [i];
      AfterChild(t.kids[p[0]], p[1..], i, at + [p[0]]);
      assert at + [p[0]] + p[1..] == at + p;
    }
  }

  /** What the loop has still to yield, and how many iterations that takes. */
  ghost function ToYield(t: Tree, p: Path, visited: bool): seq<Path>
    requires ValidPath(t, p)
  {
    (if visited then [] else Preorder(Subtree(t, p), p)) + After(t, p, [])
  }

  ghost function ToIterate(t: Tree, p: Path, visited: bool): nat
    requires ValidPath(t, p)
  {
    (if visited then 1 else 2 * Size(Subtree(t, p))) + Rest(t, p)
  }

  lemma StepDown(t: Tree, p: Path)
    requires ValidPath(t, p) && ValidPath(t, p + [0])
    ensures ToYield(t, p, false) == [p] + ToYield(t, p + [0], false)
    ensures ToIterate(t, p, false) == 1 + ToIterate(t, p + [0], false)
  {
    SubtreeOfChild(t, p, 0);
    AfterChild(t, p, 0, []);
    assert [] + p == p;
    var sub := Subtree(t, p);
    assert PreorderFrom(sub, p, 0) == Preorder(sub.kids[0], p + [0]) + PreorderFrom(sub, p, 1);
    assert SizeFrom(sub, 0) == Size(sub.kids[0]) + SizeFrom(sub, 1);
  }

  lemma StepLeaf(t: Tree, p: Path)
    requires ValidPath(t, p) && |Subtree(t, p).kids| == 0
    ensures ToYield(t, p, false) == [p] + ToYield(t, p, true)
    ensures ToIterate(t, p, false) == 1 + ToIterate(t, p, true)
  {
    assert PreorderFrom(Subtree(t, p), p, 0) == [] && SizeFrom(Subtree(t, p), 0) == 0;
  }

  lemma StepAcross(t: Tree, up: Path, i: nat)
    requires ValidPath(t, up) && ValidPath(t, up + [i]) && ValidPath(t, up + [i + 1])
    ensures ToYield(t, up + [i], true) == ToYield(t, up + [i + 1], false)
    ensures ToIterate(t, up + [i], true) == 1 + ToIterate(t, up + [i + 1], false)
  {
    SubtreeOfChild(t, up, i + 1);
    AfterChild(t, up, i, []);
    AfterChild(t, up, i + 1, []);
    assert [] + up == up;
  }

  lemma StepUp(t: Tree, up: Path, i: nat)
    requires ValidPath(t, up) && ValidPath(t, up + [i]) && !ValidPath(t, up + [i + 1])
    ensures ToYield(t, up + [i], true) == ToYield(t, up, true)
    ensures ToIterate(t, up + [i], true) == 1 + ToIterate(t, up, true)
  {
    SubtreeOfChild(t, up, i + 1);
    AfterChild(t, up, i, []);
  }

  lemma AtRoot(t: Tree)
    ensures ToYield(t, [], false) == Preorder(t, []) && ToYield(t, [], true) == []
    ensures ToIterate(t, [], false) == 2 * Size(t) && ToIterate(t, [], true) == 1
  {
  }

  /** The walk yields the recursive preorder and takes two iterations a node. */
  method WalkTree(root: Tree) returns (out: seq<Path>, iterations: nat)
    ensures out == Preorder(root, [])
    ensures iterations == 2 * Size(root)
  {
    hide ToYield, ToIterate, Preorder, Size, Subtree, ValidPath;
    var cursor := new Cursor(root);
    out, iterations := [], 0;
    AtRoot(root);
    var visitedChildren := false;
    while true
      invariant cursor.root == root && cursor.Valid() && fresh(cursor)
      invariant out + ToYield(root, cursor.path, visitedChildren) == Preorder(root, [])
      invariant iterations + ToIterate(root, cursor.path, visitedChildren) == 2 * Size(root)
      decreases ToIterate(root, cursor.path, visitedChildren)
    {
      ghost var p := cursor.path;
      iterations := iterations + 1;
      if !visitedChildren {
        out := out + [cursor.path];
        SubtreeOfChild(root, p, 0);
        var moved := cursor.GotoFirstChild();
        if moved {
          StepDown(root, p);
          assert out[..|out| - 1] + ([p] + ToYield(root, p + [0], false)) == out + ToYield(root, p + [0], false);
        } else {
          visitedChildren := true;
          StepLeaf(root, p);
          assert out[..|out| - 1] + ([p] + ToYield(root, p, true)) == out + ToYield(root, p, true);
        }
      } else {
        ghost var up, i := if |p| > 0 then p[..|p| - 1] else [], if |p| > 0 then p[|p| - 1] else 0;
        if |p| > 0 {
          assert p == up + [i];
          PrefixValid(root, up, i);
        }
        var moved := cursor.GotoNextSibling();
        if moved {
          visitedChildren := false;
          StepAcross(root, up, i);
        } else {
          moved := cursor.GotoParent();
          if !moved {
            break;
          }
          StepUp(root, up, i);
        }
      }
    }
  }

  // ------------------------------------------- what the preorder sequence is

  /** Document order: an ancestor comes first, then earlier siblings. */
  predicate Before(p: Path, q: Path) {
    |q| > 0 && (|p| == 0 || p[0] < q[0] || (p[0] == q[0] && Before(p[1..], q[1..])))
  }

  ghost predicate InOrder(s: seq<Path>) {
    forall i, k :: 0 <= i < k < |s| ==> Before(s[i], s[k])
  }

  /** `p` names a node of the tree `t` that hangs at `at`. */
  ghost predicate Names(t: Tree, at: Path, p: Path) {
    |at| <= |p| && p[..|at|] == at && ValidPath(t, p[|at|..])
  }

  ghost predicate NamesFrom(t: Tree, at: Path, i: nat, p: Path) {
    Names(t, at, p) && |p| > |at| && p[|at|] >= i
  }

  lemma NamesOfChild(t: Tree, at: Path, i: nat, p: Path)
    requires i < |t.kids|
    ensures NamesFrom(t, at, i, p) <==> Names(t.kids[i], at + [i], p) || NamesFrom(t, at, i + 1, p)
  {
    if |p| > |at| {
      assert p[|at|..][1..] == p[|at| + 1..];
      assert p[..|at| + 1] == p[..|at|] + [p[|at|]];
      assert |at + [i]| == |at| + 1;
      if p[..|at| + 1] == at + [i] {
        assert p[|at|] == (p[..|at| + 1])[|at|] == i;
        assert p[..|at|] == (at + [i])[..|at|] == at;
      }
    }
  }

  /** Preorder lists exactly the nodes of the tree. */
  lemma {:induction false} PreorderIsComplete(t: Tree, at: Path, p: Path)
    ensures p in Preorder(t, at) <==> Names(t, at, p)
    decreases t, |t.kids| + 1
  {
    PreorderFromIsComplete(t, at, 0, p);
    if |p| == |at| {
      assert p[..|at|] == p;
    }
  }

  lemma {:induction false} PreorderFromIsComplete(t: Tree, at: Path, i: nat, p: Path)
    ensures p in PreorderFrom(t, at, i) <==> NamesFrom(t, at, i, p)
    decreases t, if i < |t.kids| then |t.kids| - i else 0
  {
    if i < |t.kids| {
      PreorderIsComplete(t.kids[i], at + [i], p);
      PreorderFromIsComplete(t, at, i + 1, p);
      NamesOfChild(t, at, i, p);
    }
  }

  lemma {:induction false} BeforeUnder(at: Path, p: Path, q: Path)
    ensures Before(at + p, at + q) <==> Before(p, q)
  {
    if |at| == 0 {
      assert at + p == p && at + q == q;
    } else {
      BeforeUnder(at[1..], p, q);
      assert (at + p)[1..] == at[1..] + p && (at + q)[1..] == at[1..] + q;
    }
  }

  lemma AncestorBefore(at: Path, p: Path)
    requires |at| < |p| && p[..|at|] == at
    ensures Before(at, p)
  {
    BeforeUnder(at, [], p[|at|..]);
    assert at + [] == at && at + p[|at|..] == p;
  }

  lemma SiblingBefore(at: Path, p: Path, q: Path)
    requires |at| < |p| && |at| < |q| && p[..|at|] == at == q[..|at|] && p[|at|] < q[|at|]
    ensures Before(p, q)
  {
    BeforeUnder(at, p[|at|..], q[|at|..]);
    assert at + p[|at|..] == p && at + q[|at|..] == q;
  }

  /** Preorder is strictly in document order, so no node is listed twice. */
  lemma {:induction false} PreorderIsOrdered(t: Tree, at: Path)
    ensures InOrder(Preorder(t, at))
    decreases t, |t.kids| + 1
  {
    var rest := PreorderFrom(t, at, 0);
    PreorderFromIsOrdered(t, at, 0);
    forall k | 0 <= k < |rest| ensures Before(at, rest[k]) {
      PreorderFromIsComplete(t, at, 0, rest[k]);
      AncestorBefore(at, rest[k]);
    }
  }

  lemma {:induction false} PreorderFromIsOrdered(t: Tree, at: Path, i: nat)
    ensures InOrder(PreorderFrom(t, at, i))
    decreases t, if i < |t.kids| then |t.kids| - i else 0
  {
    if i < |t.kids| {
      var first, rest := Preorder(t.kids[i], at + [i]), PreorderFrom(t, at, i + 1);
      PreorderIsOrdered(t.kids[i], at + [i]);
      PreorderFromIsOrdered(t, at, i + 1);
      forall j, k | 0 <= j < |first| && 0 <= k < |rest| ensures Before(first[j], rest[k]) {
        PreorderIsComplete(t.kids[i], at + [i], first[j]);
        PreorderFromIsComplete(t, at, i + 1, rest[k]);
        NamesOfChild(t, at, i, first[j]);
        assert first[j][..|at| + 1] == at + [i];
        assert first[j][|at|] == (first[j][..|at| + 1])[|at|] == i;
        SiblingBefore(at, first[j], rest[k]);
      }
    }
  }

  lemma {:induction false} PreorderSize(t: Tree, at: Path)
    ensures |Preorder(t, at)| == Size(t)
    decreases t, |t.kids| + 1
  {
    PreorderFromSize(t, at, 0);
  }

  lemma {:induction false} PreorderFromSize(t: Tree, at: Path, i: nat)
    ensures |PreorderFrom(t, at, i)| == SizeFrom(t, i)
    decreases t, if i < |t.kids| then |t.kids| - i else 0
  {
    if i < |t.kids| {
      PreorderSize(t.kids[i], at + [i]);
      PreorderFromSize(t, at, i + 1);
    }
  }

  lemma {:induction false} BeforeIsStrict(p: Path)
    ensures !Before(p, p)
  {
    if |p| > 0 {
      BeforeIsStrict(p[1..]);
    }
  }

  /** Together: the walk visits every node of any tree exactly once, in document
      order, as many visits as there are nodes. */
  lemma WalkVisitsEveryNodeOnce(root: Tree)
    ensures var out := Preorder(root, []);
            && (forall p: Path :: p in out <==> ValidPath(root, p))
            && (forall i, k :: 0 <= i < k < |out| ==> Before(out[i], out[k]) && out[i] != out[k])
            && |out| == Size(root)
  {
    var out := Preorder(root, []);
    forall p: Path ensures p in out <==> ValidPath(root, p) {
      PreorderIsComplete(root, [], p);
      assert p[0..] == p;
    }
    PreorderIsOrdered(root, []);
    PreorderSize(root, []);
    forall i, k | 0 <= i < k < |out| ensures Before(out[i], out[k]) && out[i] != out[k] {
      BeforeIsStrict(out[i]);
    }
  }
}
