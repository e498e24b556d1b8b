/*
 * `Private.fitAll`: fits every widget of a tree, each child's subtree in
 * turn and then the widget itself. A node is named by its path, the child
 * indices that lead to it from the root, so that the order of the fit calls
 * can be stated whatever the widgets themselves are.
 */
module Private {

  /** A widget and its children, in the order the widget lists them. */
  datatype Widget = Widget(children: seq<Widget>)

  /** A node of a widget tree: the child indices leading to it from the root. */
  type Path = seq<nat>

  /** `p` leads from `w` to one of its nodes (the empty path is `w` itself). */
  predicate IsNode(w: Widget, p: Path)
    decreases |p|
  {
    p == [] || (p[0] < |w.children| && IsNode(w.children[p[0]], p[1..]))
  }

  /** The paths `ps` of a child's subtree, as seen from its parent, where it is child `i`. */
  function Under(i: nat, ps: seq<Path>): seq<Path> {
    seq(|ps|, k requires 0 <= k < |ps| => [i] + ps[k])
  }

  /** The nodes `fitAll(w)` calls `fit` on, in call order. */
  function FitAll(w: Widget): (r: seq<Path>)
    ensures |r| > 0 && r[|r| - 1] == []
    decreases w, 1, 0
  {
    FitChildren(w, 0) + [[]]
  }

  /** The fit calls made for the children of `w` from the `i`-th on. */
  function FitChildren(w: Widget, i: nat): seq<Path>
    requires i <= |w.children|
    decreases w, 0, |w.children| - i
  {
    if i == |w.children| then [] else Under(i, FitAll(w.children[i])) + FitChildren(w, i + 1)
  }

  /** No node is fitted twice. */
  predicate Distinct(ps: seq<Path>) {
    forall a, b :: 0 <= a < b < |ps| ==> ps[a] != ps[b]
  }

  /** Every node is fitted before each of its ancestors (`<` is "is a proper prefix of"). */
  predicate ChildrenFirst(ps: seq<Path>) {
    forall a, b :: 0 <= a < |ps| && 0 <= b < |ps| && ps[b] < ps[a] ==> a < b
  }

  lemma PrefixOfExtended(i: nat, x: Path, y: Path)
    ensures ([i] + x == [i] + y) ==> x == y
    ensures ([i] + x < [i] + y) ==> x < y
  {
    assert ([i] + x)[1..] == x;
    assert ([i] + y)[1..] == y;
  }

  lemma {:induction false} UnderKeepsOrder(i: nat, ps: seq<Path>)
    requires Distinct(ps) && ChildrenFirst(ps)
    ensures Distinct(Under(i, ps)) && ChildrenFirst(Under(i, ps))
  {
    var r := Under(i, ps);
    forall a, b | 0 <= a < |r| && 0 <= b < |r|
      ensures a < b ==> r[a] != r[b]
      ensures r[b] < r[a] ==> a < b
    {
      PrefixOfExtended(i, ps[a], ps[b]);
      PrefixOfExtended(i, ps[b], ps[a]);
    }
  }

  lemma {:induction false} ConcatKeepsOrder(xs: seq<Path>, ys: seq<Path>)
    requires Distinct(xs) && ChildrenFirst(xs) && Distinct(ys) && ChildrenFirst(ys)
    requires forall x, y :: x in xs && y in ys ==> !(x <= y)
    ensures Distinct(xs + ys) && ChildrenFirst(xs + ys)
  {
    var r := xs + ys;
    forall a, b | 0 <= a < |r| && 0 <= b < |r|
      ensures a < b ==> r[a] != r[b]
      ensures r[b] < r[a] ==> a < b
    {
      if a < |xs| && |xs| <= b {
        assert r[a] in xs && r[b] in ys;
      } else if b < |xs| && |xs| <= a {
        assert r[b] in xs && r[a] in ys;
      } else if |xs| <= a && |xs| <= b {
        assert r[a] == ys[a - |xs|] && r[b] == ys[b - |xs|];
      }
    }
  }

  lemma {:induction false} FitAllShape(w: Widget)
    ensures Distinct(FitAll(w)) && ChildrenFirst(FitAll(w))
    ensures forall p :: p in FitAll(w) ==> IsNode(w, p)
    decreases w, 1, 0
  {
    FitChildrenShape(w, 0);
    var cs := FitChildren(w, 0);
    forall x, y | x in cs && y in [[]] ensures !(x <= y) {
    }
    ConcatKeepsOrder(cs, [[]]);
  }

  lemma {:induction false} FitChildrenShape(w: Widget, i: nat)
    requires i <= |w.children|
    ensures Distinct(FitChildren(w, i)) && ChildrenFirst(FitChildren(w, i))
    ensures forall p :: p in FitChildren(w, i) ==> |p| > 0 && i <= p[0] < |w.children| && IsNode(w, p)
    decreases w, 0, |w.children| - i
  {
    if i < |w.children| {
      var c := w.children[i];
      FitAllShape(c);
      UnderKeepsOrder(i, FitAll(c));
      FitChildrenShape(w, i + 1);
      var xs := Under(i, FitAll(c));
      var ys := FitChildren(w, i + 1);
      forall p | p in xs ensures |p| > 0 && p[0] == i && IsNode(w, p) {
        var k :| 0 <= k < |xs| && xs[k] == p;
        assert p[1..] == FitAll(c)[k];
      }
      forall x, y | x in xs && y in ys ensures !(x <= y) {
        assert x[0] == i < y[0];
      }
      ConcatKeepsOrder(xs, ys);
    }
  }

  lemma {:induction false} ChildFitted(w: Widget, i: nat, k: nat, q: Path)
    requires i <= k < |w.children| && q in FitAll(w.children[k])
    ensures [k] + q in FitChildren(w, i)
    decreases k - i
  {
    if i < k {
      ChildFitted(w, i + 1, k, q);
    } else {
      var j :| 0 <= j < |FitAll(w.children[k])| && FitAll(w.children[k])[j] == q;
      assert Under(k, FitAll(w.children[k]))[j] == [k] + q;
    }
  }

  lemma {:induction false} NodeFitted(w: Widget, p: Path)
    requires IsNode(w, p)
    ensures p in FitAll(w)
    decreases |p|
  {
    if p != [] {
      NodeFitted(w.children[p[0]], p[1..]);
      ChildFitted(w, 0, p[0], p[1..]);
      assert [p[0]] + p[1..] == p;
    }
  }

  /**
   * `fitAll` fits every node of the tree exactly once, every node before all
   * of its ancestors, and the widget it was called on last.
   */
  lemma FitAllOrder(w: Widget)
    ensures forall p :: p in FitAll(w) <==> IsNode(w, p)
    ensures Distinct(FitAll(w)) && ChildrenFirst(FitAll(w))
    ensures FitAll(w)[|FitAll(w)| - 1] == []
  {
    FitAllShape(w);
    forall p | IsNode(w, p) ensures p in FitAll(w) {
      NodeFitted(w, p);
    }
  }
}
