/** Preorder indices: the order in which a diff numbers its patches and a crawl finds the nodes for them. */
module VirtualDomAttach {
  import opened Basics
  import opened VirtualDomFacts
  import opened VirtualDom
  import opened VirtualDomShape

  /** The nodes of a subtree in order of traversal. */
  function Preorder(t: IdTree): seq<Id>
    decreases t, 1, 0
  {
    [t.id] + PreorderFrom(t.kids, 0)
  }

  function PreorderFrom(ts: seq<IdTree>, i: nat): seq<Id>
    decreases ts, 0, |ts| - i
  {
    if i >= |ts| then [] else Preorder(ts[i]) + PreorderFrom(ts, i + 1)
  }

  ghost predicate SameShape(t: IdTree, v: VNode) {
    match v
    case Text(_) => t.kids == []
    case Element(_, _, _, children, _) =>
      |t.kids| == |children| && forall i :: 0 <= i < |t.kids| ==> SameShape(t.kids[i], children[i])
  }

  lemma {:induction false} ShownShape(nodes: map<Id, DomNode>, t: IdTree, v: VNode, parent: Option<Id>)
    requires Shows(nodes, t, v, parent)
    ensures SameShape(t, v)
    decreases t
  {
    if v.Element? {
      forall i | 0 <= i < |t.kids|
        ensures SameShape(t.kids[i], v.children[i])
      {
        ShownShape(nodes, t.kids[i], v.children[i], Some(t.id));
      }
    }
  }

  /** `descendantsCount` counts the nodes below. */
  lemma {:induction false} PreorderLength(t: IdTree, v: VNode)
    requires SameShape(t, v) && Built(v)
    ensures |Preorder(t)| == 1 + Count(v)
    decreases t, 1, 0
  {
    if v.Element? {
      PreorderFromLength(t.kids, v.children, 0);
    }
  }

  ghost predicate AllFit(ts: seq<IdTree>, vs: seq<VNode>) {
    |ts| == |vs| && forall i :: 0 <= i < |ts| ==> SameShape(ts[i], vs[i]) && Built(vs[i])
  }

  lemma {:induction false} PreorderFromLength(ts: seq<IdTree>, vs: seq<VNode>, i: nat)
    requires AllFit(ts, vs) && i <= |ts|
    ensures |PreorderFrom(ts, i)| == CountAll(vs, |vs|) - CountAll(vs, i)
    decreases ts, 0, |ts| - i
  {
    if i < |ts| {
      PreorderLength(ts[i], vs[i]);
      PreorderFromLength(ts, vs, i + 1);
    }
  }

  lemma {:induction false} PreorderSplit(ts: seq<IdTree>, vs: seq<VNode>, j: nat) returns (before: seq<Id>)
    requires AllFit(ts, vs) && j <= |ts|
    ensures PreorderFrom(ts, 0) == before + PreorderFrom(ts, j) && |before| == CountAll(vs, j)
  {
    if j == 0 {
      before := [];
    } else {
      var b := PreorderSplit(ts, vs, j - 1);
      PreorderLength(ts[j - 1], vs[j - 1]);
      before := b + Preorder(ts[j - 1]);
      Assoc(b, Preorder(ts[j - 1]), PreorderFrom(ts, j));
    }
  }

  lemma Assoc<T>(a: seq<T>, b: seq<T>, c: seq<T>)
    ensures a + (b + c) == a + b + c
  {
  }

  /** Where the nodes of the `j`-th child stand among those of its parent. */
  lemma ChildInPreorder(t: IdTree, v: VNode, j: nat) returns (before: seq<Id>, after: seq<Id>)
    requires v.Element? && SameShape(t, v) && Built(v) && j < |t.kids|
    ensures Preorder(t) == before + Preorder(t.kids[j]) + after && |before| == 1 + CountAll(v.children, j)
    ensures |Preorder(t.kids[j])| == 1 + Count(v.children[j])
  {
    assert AllFit(t.kids, v.children);
    var b := PreorderSplit(t.kids, v.children, j);
    before, after := [t.id] + b, PreorderFrom(t.kids, j + 1);
    PreorderLength(t.kids[j], v.children[j]);
    Assoc(b, Preorder(t.kids[j]), after);
    Assoc([t.id], b + Preorder(t.kids[j]), after);
    Assoc([t.id], b, Preorder(t.kids[j]));
  }

  // ---------------------------------------------------------------- indices of patches

  ghost predicate IndicesWithin(ps: seq<Patch>, lo: nat, hi: nat) {
    forall i :: 0 <= i < |ps| ==> lo <= ps[i].index <= hi
  }

  predicate InOrder(p: Patch, q: Patch) {
    p.index <= q.index
  }

  ghost predicate Ascending(ps: seq<Patch>) {
    forall i, j {:trigger InOrder(ps[i], ps[j])} :: 0 <= i < j < |ps| ==> InOrder(ps[i], ps[j])
  }

  lemma AscendingJoin(p: seq<Patch>, q: seq<Patch>, r: seq<Patch>, lo: nat, from: nat, mid: nat, hi: nat)
    requires Ascending(p) && Ascending(q) && IndicesWithin(p, from, mid) && IndicesWithin(q, mid, hi)
    requires r == p + q && lo <= from <= mid <= hi
    ensures Ascending(r) && IndicesWithin(r, lo, hi)
  {
  }

  /** A diff numbers its patches in ascending order, within the numbers of the old node. */
  lemma {:induction false} DiffIndices(same: Sharing, a: VNode, b: VNode, index: nat)
    requires Built(a)
    ensures Ascending(Diff(same, a, b, index)) && IndicesWithin(Diff(same, a, b, index), index, index + Count(a))
    decreases a, 1, 0
  {
    if !same(a, b, index) && a.Element? && b.Element? && a.tag == b.tag && a.namespace == b.namespace {
      DiffChildrenIndices(same, a.children, b.children, 0, index, index + Count(a));
      AscendingJoin(OwnPatches(a, b, index), DiffChildren(same, a.children, b.children, 0, index),
                    Diff(same, a, b, index), index, index, index, index + Count(a));
    }
  }

  lemma {:induction false} CountAllGrows(vs: seq<VNode>, i: nat, j: nat)
    requires i <= j <= |vs|
    ensures CountAll(vs, i) <= CountAll(vs, j)
    decreases j - i
  {
    if i < j {
      CountAllGrows(vs, i, j - 1);
    }
  }

  lemma DiffChildrenUnfolds(same: Sharing, a: seq<VNode>, b: seq<VNode>, i: nat, index: nat)
    ensures DiffChildren(same, a, b, i, index) ==
            if i < MinLen(a, b)
            then Diff(same, a[i], b[i], index + 1) + DiffChildren(same, a, b, i + 1, index + 1 + Count(a[i]))
            else []
  {
  }

  lemma CountAllStep(vs: seq<VNode>, i: nat)
    requires i < |vs|
    ensures CountAll(vs, i + 1) == CountAll(vs, i) + 1 + Count(vs[i]) <= CountAll(vs, |vs|)
  {
    CountAllGrows(vs, i + 1, |vs|);
  }

  /** The patches of one child come before those of the others. */
  lemma DiffChildrenInOrder(same: Sharing, a: seq<VNode>, b: seq<VNode>, i: nat, index: nat, next: nat, hi: nat)
    requires i < MinLen(a, b) && index < next <= hi && next == index + 1 + Count(a[i])
    requires Ascending(Diff(same, a[i], b[i], index + 1)) && IndicesWithin(Diff(same, a[i], b[i], index + 1), index + 1, next)
    requires Ascending(DiffChildren(same, a, b, i + 1, next)) && IndicesWithin(DiffChildren(same, a, b, i + 1, next), next, hi)
    ensures Ascending(DiffChildren(same, a, b, i, index)) && IndicesWithin(DiffChildren(same, a, b, i, index), index, hi)
  {
    DiffChildrenUnfolds(same, a, b, i, index);
    AscendingJoin(Diff(same, a[i], b[i], index + 1), DiffChildren(same, a, b, i + 1, next),
                  DiffChildren(same, a, b, i, index), index, index + 1, next, hi);
  }

  lemma {:induction false} DiffChildrenIndices(same: Sharing, a: seq<VNode>, b: seq<VNode>, i: nat, index: nat, hi: nat)
    requires i <= |a| && forall j {:trigger Built(a[j])} :: 0 <= j < |a| ==> Built(a[j])
    requires index <= hi == index + CountAll(a, |a|) - CountAll(a, i)
    ensures Ascending(DiffChildren(same, a, b, i, index)) && IndicesWithin(DiffChildren(same, a, b, i, index), index, hi)
    decreases a, 0, |a| - i
  {
    if i < MinLen(a, b) {
      var next := index + 1 + Count(a[i]);
      CountAllStep(a, i);
      DiffChildrenIndices(same, a, b, i + 1, next, hi);
      assert Built(a[i]);
      DiffIndices(same, a[i], b[i], index + 1);
      DiffChildrenInOrder(same, a, b, i, index, next, hi);
    } else {
      DiffChildrenUnfolds(same, a, b, i, index);
    }
  }

  // ---------------------------------------------------------------- attaching patches to nodes

  /** A patch numbered from `base`, attached to the node with that number. */
  function AttachOne(p: Patch, ids: seq<Id>, base: nat): Patch {
    if base <= p.index < base + |ids| then p.(domNode := Some(ids[p.index - base])) else p
  }

  function Attach(ps: seq<Patch>, ids: seq<Id>, base: nat): (r: seq<Patch>)
    ensures |r| == |ps| && forall i :: 0 <= i < |ps| ==> r[i] == AttachOne(ps[i], ids, base)
  {
    seq(|ps|, i requires 0 <= i < |ps| => AttachOne(ps[i], ids, base))
  }

  lemma AttachConcat(p: seq<Patch>, q: seq<Patch>, ids: seq<Id>, base: nat)
    ensures Attach(p + q, ids, base) == Attach(p, ids, base) + Attach(q, ids, base)
  {
  }

  lemma AttachMiddle(ps: seq<Patch>, before: seq<Id>, ids: seq<Id>, after: seq<Id>, base: nat)
    requires |ids| > 0 && IndicesWithin(ps, base + |before|, base + |before| + |ids| - 1)
    ensures Attach(ps, before + ids + after, base) == Attach(ps, ids, base + |before|)
  {
  }

  /** The patches of the children, each attached within its own subtree. */
  function AttachChildren(same: Sharing, a: seq<VNode>, b: seq<VNode>, i: nat, index: nat, kids: seq<IdTree>): seq<Patch>
    requires |kids| == |a|
    decreases |a| - i
  {
    if i >= MinLen(a, b) then []
    else Attach(Diff(same, a[i], b[i], index + 1), Preorder(kids[i]), index + 1)
         + AttachChildren(same, a, b, i + 1, index + 1 + Count(a[i]), kids)
  }

  lemma AttachInChild(same: Sharing, a: VNode, b: VNode, i: nat, base: nat, t: IdTree, index: nat)
    requires a.Element? && SameShape(t, a) && Built(a) && i < |a.children| && index == base + CountAll(a.children, i) + 1
    ensures Attach(Diff(same, a.children[i], b, index), Preorder(t), base) ==
            Attach(Diff(same, a.children[i], b, index), Preorder(t.kids[i]), index)
  {
    var before, after := ChildInPreorder(t, a, i);
    DiffIndices(same, a.children[i], b, index);
    AttachMiddle(Diff(same, a.children[i], b, index), before, Preorder(t.kids[i]), after, base);
  }

  lemma AttachChildrenUnfolds(same: Sharing, a: seq<VNode>, b: seq<VNode>, i: nat, index: nat, kids: seq<IdTree>)
    requires |kids| == |a|
    ensures AttachChildren(same, a, b, i, index, kids) ==
            if i < MinLen(a, b)
            then Attach(Diff(same, a[i], b[i], index + 1), Preorder(kids[i]), index + 1)
                 + AttachChildren(same, a, b, i + 1, index + 1 + Count(a[i]), kids)
            else []
  {
  }

  lemma AttachOneMore(same: Sharing, a: seq<VNode>, b: seq<VNode>, i: nat, index: nat, next: nat, kids: seq<IdTree>,
                      ids: seq<Id>, base: nat)
    requires |kids| == |a| && i < MinLen(a, b) && next == index + 1 + Count(a[i])
    requires Attach(Diff(same, a[i], b[i], index + 1), ids, base)
          == Attach(Diff(same, a[i], b[i], index + 1), Preorder(kids[i]), index + 1)
    requires Attach(DiffChildren(same, a, b, i + 1, next), ids, base) == AttachChildren(same, a, b, i + 1, next, kids)
    ensures Attach(DiffChildren(same, a, b, i, index), ids, base) == AttachChildren(same, a, b, i, index, kids)
  {
    DiffChildrenUnfolds(same, a, b, i, index);
    AttachChildrenUnfolds(same, a, b, i, index, kids);
    AttachConcat(Diff(same, a[i], b[i], index + 1), DiffChildren(same, a, b, i + 1, next), ids, base);
  }

  lemma {:induction false} AttachBelow(same: Sharing, a: VNode, b: VNode, i: nat, base: nat, t: IdTree, index: nat)
    requires a.Element? && b.Element? && SameShape(t, a) && Built(a) && i <= |a.children|
    requires index == base + CountAll(a.children, i)
    ensures Attach(DiffChildren(same, a.children, b.children, i, index), Preorder(t), base) ==
            AttachChildren(same, a.children, b.children, i, index, t.kids)
    decreases |a.children| - i
  {
    if i < MinLen(a.children, b.children) {
      var next := index + 1 + Count(a.children[i]);
      CountAllStep(a.children, i);
      AttachBelow(same, a, b, i + 1, base, t, next);
      AttachInChild(same, a, b.children[i], i, base, t, index + 1);
      AttachOneMore(same, a.children, b.children, i, index, next, t.kids, Preorder(t), base);
    } else {
      DiffChildrenUnfolds(same, a.children, b.children, i, index);
    }
  }
}
