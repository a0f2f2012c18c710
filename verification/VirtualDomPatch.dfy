/** Applying the patches of a diff turns a rendering of the old node into a rendering of the new one. */
module VirtualDomPatch {
  import opened Basics
  import opened VirtualDomFacts
  import opened VirtualDom
  import opened VirtualDomShape
  import opened VirtualDomAttach

  /** The subtree `t` shows `v`; it is a tree, and if it has a parent it is one of its children. */
  ghost predicate Rooted(d: Doc, t: IdTree, v: VNode, parent: Option<Id>) {
    && DocOk(d)
    && Shows(d.nodes, t, v, parent)
    && Distinct(t)
    && (forall x :: x in t.region ==> x < d.next)
    && (parent.Some? ==> IsElement(d, parent.value) && parent.value !in t.region
                         && t.id in d.nodes[parent.value].childNodes)
  }

  /** The parent's record once its child `x` has been replaced by `y`. */
  function Rehung(n: DomNode, x: Id, y: Id): DomNode {
    if n.ElementNode? then n.(childNodes := Substitute(n.childNodes, x, y)) else n
  }

  /** From `d` to `d'` only the subtree `t` changed, into `t'`: everything outside it is as before,
      except that its parent now has the new root for a child. */
  ghost predicate Evolved(d: Doc, t: IdTree, parent: Option<Id>, d': Doc, t': IdTree) {
    && d.next <= d'.next
    && t'.region <= t.region + Created(d.next, d'.next)
    && (forall x :: x in d.nodes && x !in t.region && parent != Some(x) ==> x in d'.nodes && d'.nodes[x] == d.nodes[x])
    && (parent.Some? && parent.value in d.nodes ==>
          parent.value in d'.nodes && d'.nodes[parent.value] == Rehung(d.nodes[parent.value], t.id, t'.id))
  }

  lemma EvolvedInPlace(d: Doc, t: IdTree, parent: Option<Id>, d': Doc, t': IdTree)
    requires d.next <= d'.next && t'.id == t.id && t'.region <= t.region + Created(d.next, d'.next)
    requires forall x :: x in d.nodes && x !in t.region ==> x in d'.nodes && d'.nodes[x] == d.nodes[x]
    requires parent.Some? ==> parent.value !in t.region
    ensures Evolved(d, t, parent, d', t')
  {
    if parent.Some? && parent.value in d.nodes && d.nodes[parent.value].ElementNode? {
      var s := d.nodes[parent.value].childNodes;
      assert Substitute(s, t.id, t.id) == s;
    }
  }

  lemma EvolvedThen(d: Doc, t: IdTree, parent: Option<Id>, d1: Doc, t1: IdTree, d2: Doc, t2: IdTree)
    requires Evolved(d, t, parent, d1, t1) && Evolved(d1, t1, parent, d2, t2) && t1.id == t.id
    requires DocOk(d) && (parent.Some? ==> parent.value !in t.region && parent.value in d.nodes)
    ensures Evolved(d, t, parent, d2, t2)
  {
    if parent.Some? && d.nodes[parent.value].ElementNode? {
      var s := d.nodes[parent.value].childNodes;
      assert Substitute(s, t.id, t.id) == s;
    }
  }

  /** How the root node handed around by `applyPatchesHelp` follows a change of `t` into `t'`. */
  function Followed(root: Id, t: IdTree, t': IdTree): Id {
    if root == t.id then t'.id else root
  }

  lemma {:induction false} ApplyAllConcat(d: Doc, root: Id, p: seq<Patch>, q: seq<Patch>)
    requires DocOk(d) && ApplyAll(d, root, p).Done?
    ensures ApplyAll(d, root, p + q) ==
            (var (d1, root1) := ApplyAll(d, root, p).value; ApplyAll(d1, root1, q))
    decreases |p|
  {
    if p == [] {
      assert p + q == q;
    } else {
      assert (p + q)[0] == p[0] && (p + q)[1..] == p[1..] + q;
      var (d1, n) := ApplyPatch(d, p[0]).value;
      ApplyAllConcat(d1, if p[0].domNode == Some(root) then n else root, p[1..], q);
    }
  }

  /** Two runs of patches, one after the other, as one run. */
  lemma ApplyBoth(d: Doc, root: Id, p: seq<Patch>, d1: Doc, root1: Id, q: seq<Patch>, d2: Doc, root2: Id, all: seq<Patch>)
    requires DocOk(d) && DocOk(d1) && all == p + q
    requires ApplyAll(d, root, p) == Done((d1, root1)) && ApplyAll(d1, root1, q) == Done((d2, root2))
    ensures ApplyAll(d, root, all) == Done((d2, root2))
  {
    ApplyAllConcat(d, root, p, q);
  }

  lemma ApplyAllOne(d: Doc, root: Id, p: Patch)
    requires DocOk(d) && ApplyPatch(d, p).Done?
    ensures var (d1, n) := ApplyPatch(d, p).value;
            ApplyAll(d, root, [p]) == Done((d1, if p.domNode == Some(root) then n else root))
  {
    assert [p][1..] == [];
  }

  // ---------------------------------------------------------------- single patches

  lemma ApplyText(d: Doc, t: IdTree, a: VNode, s: string, parent: Option<Id>, index: nat) returns (d': Doc)
    requires a.Text? && Rooted(d, t, a, parent)
    ensures ApplyPatch(d, Patch(index, TextChange(s), Some(t.id))) == Done((d', t.id))
    ensures Rooted(d', t, Text(s), parent) && Evolved(d, t, parent, d', t)
  {
    d' := ApplyPatch(d, Patch(index, TextChange(s), Some(t.id))).value.0;
    EvolvedInPlace(d, t, parent, d', t);
  }

  lemma ApplyFactsChange(d: Doc, t: IdTree, a: VNode, b: Facts, diff: AttrDiff, parent: Option<Id>, index: nat)
    returns (d': Doc)
    requires a.Element? && Rooted(d, t, a, parent) && ApplyAttrs(Attrs(a.facts), diff) == Attrs(b)
    ensures ApplyPatch(d, Patch(index, FactsChange(diff), Some(t.id))) == Done((d', t.id))
    ensures Rooted(d', t, a.(facts := b), parent) && Evolved(d, t, parent, d', t)
  {
    d' := ApplyPatch(d, Patch(index, FactsChange(diff), Some(t.id))).value.0;
    EvolvedInPlace(d, t, parent, d', t);
    Reroot(d.nodes, d'.nodes, t, a, a.(facts := b), parent, parent);
  }

  lemma ApplyRedraw(d: Doc, t: IdTree, a: VNode, b: VNode, parent: Option<Id>, index: nat)
    returns (d': Doc, t': IdTree)
    requires Rooted(d, t, a, parent)
    ensures ApplyPatch(d, Patch(index, Redraw(b), Some(t.id))) == Done((d', t'.id)) && t'.id == d.next
    ensures Rooted(d', t', b, parent) && Evolved(d, t, parent, d', t')
  {
    if parent.None? {
      t' := RenderShows(d, b);
      d' := Render(d, b).0;
    } else {
      d', t' := ReplaceShown(d, t, a, b, parent.value);
    }
  }

  lemma ReplaceShown(d: Doc, t: IdTree, a: VNode, b: VNode, p: Id) returns (d': Doc, t': IdTree)
    requires Rooted(d, t, a, Some(p))
    ensures t'.id == d.next && ReplaceChild(Render(d, b).0, p, d.next, t.id) == Done(d')
    ensures Rooted(d', t', b, Some(p)) && Evolved(d, t, Some(p), d', t')
  {
    t' := RenderShows(d, b);
    var d1 := Render(d, b).0;
    assert d1.nodes[p] == d.nodes[p] && d1.nodes[t.id] == d.nodes[t.id] && t'.id !in t.region;
    d' := HangNew(d1, t', b, p, t.id);
  }

  /** A parentless rendering takes the place of a child. */
  lemma HangNew(d: Doc, t: IdTree, v: VNode, p: Id, x: Id) returns (d': Doc)
    requires DocOk(d) && Shows(d.nodes, t, v, None) && Distinct(t)
    requires IsElement(d, p) && x in d.nodes && x in d.nodes[p].childNodes
    requires p !in t.region && x !in t.region && p != x
    ensures ReplaceChild(d, p, t.id, x) == Done(d')
    ensures Shows(d'.nodes, t, v, Some(p)) && d'.next == d.next && d'.nodes.Keys == d.nodes.Keys
    ensures d'.nodes[p] == Rehung(d.nodes[p], x, t.id)
    ensures forall y :: y in d.nodes && y !in {p, x, t.id} ==> d'.nodes[y] == d.nodes[y]
  {
    d' := ReplaceChild(d, p, t.id, x).value;
    Reroot(d.nodes, d'.nodes, t, v, v, None, Some(p));
  }

  // ---------------------------------------------------------------- the child list

  /** Dropping the last child. */
  lemma DropLast(d: Doc, t: IdTree, v: VNode, parent: Option<Id>) returns (d': Doc, t': IdTree)
    requires v.Element? && Rooted(d, t, v, parent) && t.kids != []
    ensures t' == t.(kids := t.kids[..|t.kids| - 1])
    ensures RemoveLastChildren(d, t.id, 1) == Done(d')
    ensures forall n: nat :: RemoveLastChildren(d, t.id, n + 1) == RemoveLastChildren(d', t.id, n)
    ensures Rooted(d', t', v.(children := v.children[..|t.kids| - 1]), parent) && Evolved(d, t, parent, d', t')
  {
    var last := t.kids[|t.kids| - 1];
    var node := d.nodes[t.id];
    assert Shows(d.nodes, last, v.children[|t.kids| - 1], Some(t.id));
    assert Distinct(last) && last.region <= t.region - {t.id};
    t' := t.(kids := t.kids[..|t.kids| - 1]);
    d' := d.(nodes := d.nodes[t.id := node.(childNodes := node.childNodes[..|t.kids| - 1])]
                             [last.id := d.nodes[last.id].(parent := None)]);
    assert node.childNodes[..|t.kids| - 1] == Roots(t'.kids);
    var vs := v.children[..|t.kids| - 1];
    assert ShowsAll(d'.nodes, t'.kids, vs, Some(t.id)) by {
      assert forall i :: 0 <= i < |t'.kids| ==> t'.kids[i] == t.kids[i] && last.id !in t.kids[i].region;
      ShowsAllFrame(d.nodes, d'.nodes, t'.kids, vs, Some(t.id));
    }
    EvolvedInPlace(d, t, parent, d', t');
  }

  lemma TakeTake<T>(s: seq<T>, m: nat, n: nat)
    requires n <= m <= |s|
    ensures s[..m][..n] == s[..n]
  {
  }

  lemma {:induction false} ApplyRemoveLast(d: Doc, t: IdTree, v: VNode, n: nat, parent: Option<Id>)
    returns (d': Doc, t': IdTree)
    requires v.Element? && Rooted(d, t, v, parent) && n <= |t.kids|
    ensures t' == t.(kids := t.kids[..|t.kids| - n])
    ensures RemoveLastChildren(d, t.id, n) == Done(d')
    ensures Rooted(d', t', v.(children := v.children[..|t.kids| - n]), parent) && Evolved(d, t, parent, d', t')
    decreases n
  {
    if n == 0 {
      d', t' := d, t;
      assert t.kids[..|t.kids|] == t.kids && v.children[..|t.kids|] == v.children;
      EvolvedInPlace(d, t, parent, d', t');
    } else {
      var d1, t1 := DropLast(d, t, v, parent);
      var v1 := v.(children := v.children[..|t.kids| - 1]);
      d', t' := ApplyRemoveLast(d1, t1, v1, n - 1, parent);
      TakeTake(t.kids, |t.kids| - 1, |t.kids| - n);
      TakeTake(v.children, |t.kids| - 1, |t.kids| - n);
      EvolvedThen(d, t, parent, d1, t1, d', t');
    }
  }

  lemma ApplyAppend(d: Doc, t: IdTree, v: VNode, vs: seq<VNode>, parent: Option<Id>) returns (d': Doc, t': IdTree)
    requires v.Element? && Rooted(d, t, v, parent)
    ensures t'.id == t.id && |t'.kids| == |t.kids| + |vs| && t'.kids[..|t.kids|] == t.kids
    ensures d' == RenderChildren(d, t.id, vs, 0)
    ensures Rooted(d', t', v.(children := v.children + vs), parent) && Evolved(d, t, parent, d', t')
  {
    var kids := RenderChildrenShows(d, t.id, vs, 0);
    assert vs[0..] == vs;
    d' := RenderChildren(d, t.id, vs, 0);
    t' := IdTree(t.id, t.kids + kids, t.region + Created(d.next, d'.next));
    forall i | 0 <= i < |t.kids|
      ensures AgreeOn(d.nodes, d'.nodes, t.kids[i].region)
    {
      ExtendsAgrees(d, d', t.id, t.kids[i].region);
    }
    ShowsAllFrame(d.nodes, d'.nodes, t.kids, v.children, Some(t.id));
    AppendKids(d, d', t, kids, v, vs, parent, t');
    EvolvedInPlace(d, t, parent, d', t');
  }

  lemma AppendKids(d: Doc, d': Doc, t: IdTree, kids: seq<IdTree>, v: VNode, vs: seq<VNode>, parent: Option<Id>, t': IdTree)
    requires v.Element? && Rooted(d, t, v, parent) && DocOk(d') && d.next <= d'.next
    requires ShowsAll(d'.nodes, t.kids, v.children, Some(t.id))
    requires NewKids(d'.nodes, kids, vs, t.id, d.next, d'.next)
    requires t' == IdTree(t.id, t.kids + kids, t.region + Created(d.next, d'.next))
    requires t.id in d'.nodes
    requires d'.nodes[t.id] == d.nodes[t.id].(childNodes := d.nodes[t.id].childNodes + Roots(kids))
    ensures Distinct(t') && Shows(d'.nodes, t', v.(children := v.children + vs), parent)
  {
    assert Roots(t.kids) + Roots(kids) == Roots(t'.kids);
    JoinShown(d'.nodes, t.kids, v.children, kids, vs, Some(t.id));
    JoinApart(t.kids, t.region - {t.id}, kids, Created(d.next, d'.next));
  }

  lemma JoinShown(nodes: map<Id, DomNode>, s: seq<IdTree>, us: seq<VNode>, t: seq<IdTree>, vs: seq<VNode>, p: Option<Id>)
    requires ShowsAll(nodes, s, us, p) && ShowsAll(nodes, t, vs, p)
    ensures ShowsAll(nodes, s + t, us + vs, p)
  {
  }

  ghost predicate AllWithin(ts: seq<IdTree>, region: set<Id>) {
    forall i :: 0 <= i < |ts| ==> Distinct(ts[i]) && ts[i].region <= region
  }

  lemma JoinApart(s: seq<IdTree>, r: set<Id>, t: seq<IdTree>, q: set<Id>)
    requires Apart(s) && Apart(t) && AllWithin(s, r) && AllWithin(t, q) && r !! q
    ensures Apart(s + t) && AllWithin(s + t, r + q)
  {
    forall i, j | 0 <= i < j < |s + t|
      ensures (s + t)[i].region !! (s + t)[j].region
    {
      assert (s + t)[i].region <= if i < |s| then r else q;
      assert (s + t)[j].region <= if j < |s| then r else q;
    }
  }

  // ---------------------------------------------------------------- one child at a time

  lemma ChildRooted(d: Doc, t: IdTree, v: VNode, parent: Option<Id>, i: nat)
    requires v.Element? && Rooted(d, t, v, parent) && i < |t.kids|
    ensures Rooted(d, t.kids[i], v.children[i], Some(t.id)) && t.kids[i].region <= t.region - {t.id}
  {
    assert Roots(t.kids)[i] == t.kids[i].id;
  }

  /** A change confined to one child is a change confined to its parent. */
  lemma LiftChild(d: Doc, t: IdTree, v: VNode, parent: Option<Id>, i: nat, d': Doc, kid: IdTree, w: VNode)
    returns (t': IdTree)
    requires v.Element? && Rooted(d, t, v, parent) && i < |t.kids|
    requires Rooted(d', kid, w, Some(t.id)) && Evolved(d, t.kids[i], Some(t.id), d', kid)
    ensures t' == IdTree(t.id, t.kids[i := kid], t.region + kid.region)
    ensures Rooted(d', t', v.(children := v.children[i := w]), parent) && Evolved(d, t, parent, d', t')
  {
    t' := IdTree(t.id, t.kids[i := kid], t.region + kid.region);
    ChildRooted(d, t, v, parent, i);
    LiftRegions(d, t, v, parent, i, d', kid);
    LiftShown(d, t, v, parent, i, d', kid, w);
    EvolvedInPlace(d, t, parent, d', t');
  }

  lemma LiftRegions(d: Doc, t: IdTree, v: VNode, parent: Option<Id>, i: nat, d': Doc, kid: IdTree)
    requires v.Element? && Rooted(d, t, v, parent) && i < |t.kids|
    requires Distinct(kid) && kid.region <= t.kids[i].region + Created(d.next, d'.next)
    ensures Distinct(IdTree(t.id, t.kids[i := kid], t.region + kid.region))
  {
    var kids := t.kids[i := kid];
    forall j | 0 <= j < |kids| && j != i
      ensures kids[j].region !! kid.region
    {
      assert Distinct(t.kids[j]) && t.kids[j].region <= t.region;
      assert t.kids[j].region !! t.kids[i].region;
    }
  }

  lemma LiftShown(d: Doc, t: IdTree, v: VNode, parent: Option<Id>, i: nat, d': Doc, kid: IdTree, w: VNode)
    requires v.Element? && Rooted(d, t, v, parent) && i < |t.kids|
    requires Shows(d'.nodes, kid, w, Some(t.id)) && Evolved(d, t.kids[i], Some(t.id), d', kid)
    ensures Shows(d'.nodes, IdTree(t.id, t.kids[i := kid], t.region + kid.region), v.(children := v.children[i := w]), parent)
  {
    var kids := t.kids[i := kid];
    assert Substitute(Roots(t.kids), t.kids[i].id, kid.id) == Roots(kids) by {
      assert forall j :: 0 <= j < |kids| ==> Distinct(t.kids[j]) && t.kids[j].id in t.kids[j].region;
    }
    forall j | 0 <= j < |kids| && j != i
      ensures Shows(d'.nodes, kids[j], v.children[j], Some(t.id))
    {
      assert t.kids[j].region !! t.kids[i].region;
      ShowsFrame(d.nodes, d'.nodes, t.kids[j], v.children[j], Some(t.id));
    }
  }

  // ---------------------------------------------------------------- which nodes stay

  /** Two virtual nodes that one node of the document can stand for, one after the other. */
  predicate Alike(a: VNode, b: VNode) {
    match (a, b)
    case (Text(_), Text(_)) => true
    case (Element(s, m, _, _, _), Element(t, n, _, _, _)) => s == t && m == n
    case _ => false
  }

  /** A node of the document stays exactly when the old and the new virtual node are alike, and then so it is for each
      child that both have. */
  ghost predicate Kept(t: IdTree, t': IdTree, a: VNode, b: VNode)
    decreases a
  {
    && (t'.id == t.id <==> Alike(a, b))
    && (a.Element? && Alike(a, b) ==> KidsKept(t.kids, t'.kids, a.children, b.children, 0))
  }

  ghost predicate KidsKept(kids: seq<IdTree>, kids': seq<IdTree>, a: seq<VNode>, b: seq<VNode>, from: nat)
    decreases a
  {
    && |kids| == |a| && |kids'| == |b|
    && forall i {:trigger Kept(kids[i], kids'[i], a[i], b[i])} ::
         from <= i < |a| && i < |b| ==> Kept(kids[i], kids'[i], a[i], b[i])
  }

  lemma {:induction false} KeptAsItIs(nodes: map<Id, DomNode>, t: IdTree, a: VNode, parent: Option<Id>)
    requires Shows(nodes, t, a, parent)
    ensures Kept(t, t, a, a)
    decreases a
  {
    if a.Element? {
      forall i | 0 <= i < |a.children|
        ensures Kept(t.kids[i], t.kids[i], a.children[i], a.children[i])
      {
        KeptAsItIs(nodes, t.kids[i], a.children[i], Some(t.id));
      }
    }
  }

  // ---------------------------------------------------------------- whole diffs

  /** The children when the first `i` of the common ones have been brought up to date. */
  function Mixed(a: seq<VNode>, b: seq<VNode>, i: nat): (r: seq<VNode>)
    ensures |r| == |b|
    ensures forall k :: 0 <= k < |b| ==> r[k] == if i <= k < |a| then a[k] else b[k]
  {
    seq(|b|, k requires 0 <= k < |b| => if i <= k < |a| then a[k] else b[k])
  }

  /** The root handed around is this subtree's root or lies outside it. */
  ghost predicate RootOutside(d: Doc, root: Id, t: IdTree) {
    root < d.next && (root in t.region ==> root == t.id)
  }

  /** The patches a diff gives to an element itself. */
  lemma ApplyOwn(d: Doc, root: Id, t: IdTree, a: VNode, b: VNode, parent: Option<Id>, index: nat)
    returns (d': Doc, t': IdTree)
    requires a.Element? && b.Element? && a.tag == b.tag && a.namespace == b.namespace
    requires Rooted(d, t, a, parent) && DiffFacts(a.facts, b.facts).Done?
    ensures t'.id == t.id && |t'.kids| == |b.children|
    ensures forall j :: 0 <= j < MinLen(a.children, b.children) ==> t'.kids[j] == t.kids[j]
    ensures ApplyAll(d, root, Attach(OwnPatches(a, b, index), Preorder(t), index)) == Done((d', root))
    ensures Rooted(d', t', b.(facts := Some(Patched(a.facts, b.facts)), children := Mixed(a.children, b.children, 0)), parent)
    ensures Evolved(d, t, parent, d', t')
  {
    var ids := Preorder(t);
    var facts, length := FactsPatch(a, b, index), LengthPatch(a.children, b.children, index);
    AttachConcat(facts, length, ids, index);
    var d1 := ApplyFactsPatch(d, root, t, a, b, parent, index);
    var a1 := a.(facts := Some(Patched(a.facts, b.facts)));
    d', t' := ApplyLengthPatch(d1, root, t, a1, b.children, parent, index);
    ApplyBoth(d, root, Attach(facts, ids, index), d1, root, Attach(length, ids, index), d', root,
              Attach(OwnPatches(a, b, index), ids, index));
    EvolvedThen(d, t, parent, d1, t, d', t');
  }

  lemma AttachSelf(p: Patch, t: IdTree)
    ensures Attach([p], Preorder(t), p.index) == [p.(domNode := Some(t.id))]
  {
    assert Preorder(t)[0] == t.id;
  }

  lemma LengthPatches(d: Doc, x: Id, index: nat, n: nat, vs: seq<VNode>)
    requires DocOk(d) && IsElement(d, x)
    ensures RemoveLastChildren(d, x, n).Done? ==>
              ApplyPatch(d, Patch(index, RemoveLast(n), Some(x))) == Done((RemoveLastChildren(d, x, n).value, x))
    ensures ApplyPatch(d, Patch(index, Append(vs), Some(x))) == Done((RenderChildren(d, x, vs, 0), x))
  {
  }

  /** A single patch for the root of a subtree. */
  lemma ApplySelf(d: Doc, root: Id, t: IdTree, change: Change, index: nat, d': Doc, n: Id)
    requires DocOk(d) && ApplyPatch(d, Patch(index, change, Some(t.id))) == Done((d', n))
    ensures ApplyAll(d, root, Attach([MakePatch(change, index)], Preorder(t), index)) ==
            Done((d', if root == t.id then n else root))
  {
    AttachSelf(MakePatch(change, index), t);
    ApplyAllOne(d, root, Patch(index, change, Some(t.id)));
  }

  lemma ApplyFactsPatch(d: Doc, root: Id, t: IdTree, a: VNode, b: VNode, parent: Option<Id>, index: nat) returns (d': Doc)
    requires a.Element? && b.Element? && Rooted(d, t, a, parent) && DiffFacts(a.facts, b.facts).Done?
    ensures ApplyAll(d, root, Attach(FactsPatch(a, b, index), Preorder(t), index)) == Done((d', root))
    ensures Rooted(d', t, a.(facts := Some(Patched(a.facts, b.facts))), parent) && Evolved(d, t, parent, d', t)
  {
    var facts := Some(Patched(a.facts, b.facts));
    match DiffFacts(a.facts, b.facts).value
    case None =>
      d' := d;
      EvolvedInPlace(d, t, parent, d, t);
      Reroot(d.nodes, d.nodes, t, a, a.(facts := facts), parent, parent);
    case Some(diff) =>
      d' := ApplyFactsChange(d, t, a, facts, diff, parent, index);
      ApplySelf(d, root, t, FactsChange(diff), index, d', t.id);
  }

  lemma ApplyLengthPatch(d: Doc, root: Id, t: IdTree, a: VNode, b: seq<VNode>, parent: Option<Id>, index: nat)
    returns (d': Doc, t': IdTree)
    requires a.Element? && Rooted(d, t, a, parent)
    ensures t'.id == t.id && |t'.kids| == |b|
    ensures forall j :: 0 <= j < MinLen(a.children, b) ==> t'.kids[j] == t.kids[j]
    ensures ApplyAll(d, root, Attach(LengthPatch(a.children, b, index), Preorder(t), index)) == Done((d', root))
    ensures Rooted(d', t', a.(children := Mixed(a.children, b, 0)), parent) && Evolved(d, t, parent, d', t')
  {
    if |a.children| > |b| {
      d', t' := ApplyShorten(d, root, t, a, b, parent, index);
    } else if |a.children| < |b| {
      d', t' := ApplyLengthen(d, root, t, a, b, parent, index);
    } else {
      d', t' := d, t;
      assert a.children == Mixed(a.children, b, 0);
      EvolvedInPlace(d, t, parent, d, t);
    }
  }

  lemma MixedAtStart(a: seq<VNode>, b: seq<VNode>)
    ensures Mixed(a, b, 0) == if |a| >= |b| then a[..|b|] else a + b[|a|..]
  {
  }

  lemma ApplyShorten(d: Doc, root: Id, t: IdTree, a: VNode, b: seq<VNode>, parent: Option<Id>, index: nat)
    returns (d': Doc, t': IdTree)
    requires a.Element? && Rooted(d, t, a, parent) && |a.children| > |b|
    ensures t'.id == t.id && t'.kids == t.kids[..|b|]
    ensures ApplyAll(d, root, Attach(LengthPatch(a.children, b, index), Preorder(t), index)) == Done((d', root))
    ensures Rooted(d', t', a.(children := Mixed(a.children, b, 0)), parent) && Evolved(d, t, parent, d', t')
  {
    var n := |a.children| - |b|;
    d', t' := ApplyRemoveLast(d, t, a, n, parent);
    MixedAtStart(a.children, b);
    LengthPatches(d, t.id, index, n, []);
    ApplySelf(d, root, t, RemoveLast(n), index, d', t.id);
  }

  lemma ApplyLengthen(d: Doc, root: Id, t: IdTree, a: VNode, b: seq<VNode>, parent: Option<Id>, index: nat)
    returns (d': Doc, t': IdTree)
    requires a.Element? && Rooted(d, t, a, parent) && |a.children| < |b|
    ensures t'.id == t.id && |t'.kids| == |b| && t'.kids[..|a.children|] == t.kids
    ensures ApplyAll(d, root, Attach(LengthPatch(a.children, b, index), Preorder(t), index)) == Done((d', root))
    ensures Rooted(d', t', a.(children := Mixed(a.children, b, 0)), parent) && Evolved(d, t, parent, d', t')
  {
    var vs := b[|a.children|..];
    d', t' := ApplyAppend(d, t, a, vs, parent);
    MixedAtStart(a.children, b);
    LengthPatches(d, t.id, index, 0, vs);
    ApplySelf(d, root, t, Append(vs), index, d', t.id);
  }

  /** Applying the attached patches of a diff gives a rendering of the updated node, and touches nothing else. */
  lemma {:induction false} ApplyUpdates(
    same: Sharing, d: Doc, root: Id, t: IdTree, a: VNode, b: VNode, parent: Option<Id>, index: nat)
    returns (d': Doc, t': IdTree)
    requires Sound(same) && Built(a) && !Throws(same, a, b, index) && Rooted(d, t, a, parent) && RootOutside(d, root, t)
    ensures ApplyAll(d, root, Attach(Diff(same, a, b, index), Preorder(t), index)) == Done((d', Followed(root, t, t')))
    ensures Rooted(d', t', Updated(same, a, b, index), parent) && Evolved(d, t, parent, d', t') && Kept(t, t', a, b)
    decreases a, 1, 0
  {
    if same(a, b, index) || (a.Text? && b.Text? && a.text == b.text) {
      d', t' := d, t;
      EvolvedInPlace(d, t, parent, d, t);
      KeptAsItIs(d.nodes, t, a, parent);
    } else if a.Text? && b.Text? {
      t' := t;
      d' := ApplyText(d, t, a, b.text, parent, index);
      ApplySelf(d, root, t, TextChange(b.text), index, d', t.id);
    } else if Compared(same, a, b, index) {
      d', t' := ApplyElement(same, d, root, t, a, b, parent, index);
    } else {
      d', t' := ApplyRedraw(d, t, a, b, parent, index);
      ApplySelf(d, root, t, Redraw(b), index, d', t'.id);
    }
  }

  lemma {:induction false} ApplyElement(
    same: Sharing, d: Doc, root: Id, t: IdTree, a: VNode, b: VNode, parent: Option<Id>, index: nat)
    returns (d': Doc, t': IdTree)
    requires Sound(same) && Built(a) && !Throws(same, a, b, index) && Rooted(d, t, a, parent) && RootOutside(d, root, t)
    requires Compared(same, a, b, index)
    ensures var ps := OwnPatches(a, b, index) + DiffChildren(same, a.children, b.children, 0, index);
            ApplyAll(d, root, Attach(ps, Preorder(t), index)) == Done((d', root))
    ensures t'.id == t.id && Rooted(d', t', Updated(same, a, b, index), parent) && Evolved(d, t, parent, d', t')
    ensures KidsKept(t.kids, t'.kids, a.children, b.children, 0)
    decreases a, 0, 0
  {
    var ids := Preorder(t);
    var own, below := OwnPatches(a, b, index), DiffChildren(same, a.children, b.children, 0, index);
    AttachConcat(own, below, ids, index);
    ShownShape(d.nodes, t, a, parent);
    var attached := AttachChildren(same, a.children, b.children, 0, index, t.kids);
    assert Attach(below, ids, index) == attached by { AttachBelow(same, a, b, 0, index, t, index); }
    var d1, t1 := ApplyOwn(d, root, t, a, b, parent, index);
    var c := Updated(same, a, b, index);
    MixedUpdated(same, a.children, b.children, index);
    d', t' := ApplyChildren(same, d1, root, t1, a.children, b.children, c, parent, 0, index, t.kids);
    ApplyBoth(d, root, Attach(own, ids, index), d1, root, attached, d', root, Attach(own + below, ids, index));
    EvolvedThen(d, t, parent, d1, t1, d', t');
  }

  /** Children beyond the common ones are not updated. */
  lemma {:induction false} UpdatedTail(same: Sharing, a: seq<VNode>, b: seq<VNode>, i: nat, index: nat, k: nat)
    requires i <= k < |b| && k >= |a|
    ensures UpdatedChildren(same, a, b, i, index)[k - i] == b[k]
    decreases |b| - i
  {
    if i < MinLen(a, b) {
      UpdatedTail(same, a, b, i + 1, index + 1 + Count(a[i]), k);
    }
  }

  lemma MixedUpdated(same: Sharing, a: seq<VNode>, b: seq<VNode>, index: nat)
    ensures Mixed(a, UpdatedChildren(same, a, b, 0, index), 0) == Mixed(a, b, 0)
  {
    forall k | |a| <= k < |b|
      ensures UpdatedChildren(same, a, b, 0, index)[k] == b[k]
    {
      UpdatedTail(same, a, b, 0, index, k);
    }
  }

  lemma {:induction false} ApplyChildren(
    same: Sharing, d: Doc, root: Id, t: IdTree, a: seq<VNode>, b: seq<VNode>, c: VNode, parent: Option<Id>, i: nat,
    index: nat, kids: seq<IdTree>)
    returns (d': Doc, t': IdTree)
    requires Sound(same) && c.Element? && i <= MinLen(a, b) && |kids| == |a|
    requires forall j {:trigger Built(a[j])} :: 0 <= j < |a| ==> Built(a[j])
    requires !ChildrenThrow(same, a, b, i, index)
    requires |c.children| == |b| && c.children[i..] == UpdatedChildren(same, a, b, i, index)
    requires Rooted(d, t, c.(children := Mixed(a, c.children, i)), parent) && RootOutside(d, root, t)
    requires forall j :: i <= j < MinLen(a, b) ==> t.kids[j] == kids[j]
    ensures ApplyAll(d, root, AttachChildren(same, a, b, i, index, kids)) == Done((d', root))
    ensures t'.id == t.id && Rooted(d', t', c, parent) && Evolved(d, t, parent, d', t')
    ensures |t'.kids| == |t.kids| && forall j :: 0 <= j < i ==> t'.kids[j] == t.kids[j]
    ensures KidsKept(kids, t'.kids, a, b, i)
    decreases a, 0, |a| - i
  {
    if i == MinLen(a, b) {
      d', t' := d, t;
      AttachChildrenUnfolds(same, a, b, i, index, kids);
      assert Mixed(a, c.children, i) == c.children;
      EvolvedInPlace(d, t, parent, d, t);
    } else {
      assert Built(a[i]) && t.kids[i] == kids[i];
      NextUpdated(same, a, b, c.children, i, index);
      var d1, t1 := ApplyOneChild(same, d, root, t, a, b, c, parent, i, index);
      d', t' := ApplyChildren(same, d1, root, t1, a, b, c, parent, i + 1, index + 1 + Count(a[i]), kids);
      ApplyThenRest(same, d, root, a, b, i, index, kids, d1, d');
      EvolvedThen(d, t, parent, d1, t1, d', t');
      KidsKeptFrom(kids, t'.kids, a, b, i);
    }
  }

  lemma KidsKeptFrom(kids: seq<IdTree>, kids': seq<IdTree>, a: seq<VNode>, b: seq<VNode>, i: nat)
    requires KidsKept(kids, kids', a, b, i + 1) && i < MinLen(a, b) && Kept(kids[i], kids'[i], a[i], b[i])
    ensures KidsKept(kids, kids', a, b, i)
  {
  }

  lemma NextUpdated(same: Sharing, a: seq<VNode>, b: seq<VNode>, c: seq<VNode>, i: nat, index: nat)
    requires i < MinLen(a, b) && |c| == |b| && c[i..] == UpdatedChildren(same, a, b, i, index)
    ensures c[i] == Updated(same, a[i], b[i], index + 1)
    ensures c[i + 1..] == UpdatedChildren(same, a, b, i + 1, index + 1 + Count(a[i]))
  {
    assert c[i] == c[i..][0] && c[i + 1..] == c[i..][1..];
  }

  lemma ApplyThenRest(same: Sharing, d: Doc, root: Id, a: seq<VNode>, b: seq<VNode>, i: nat, index: nat, kids: seq<IdTree>,
                      d1: Doc, d2: Doc)
    requires |kids| == |a| && i < MinLen(a, b) && DocOk(d) && DocOk(d1)
    requires ApplyAll(d, root, Attach(Diff(same, a[i], b[i], index + 1), Preorder(kids[i]), index + 1)) == Done((d1, root))
    requires ApplyAll(d1, root, AttachChildren(same, a, b, i + 1, index + 1 + Count(a[i]), kids)) == Done((d2, root))
    ensures ApplyAll(d, root, AttachChildren(same, a, b, i, index, kids)) == Done((d2, root))
  {
    AttachChildrenUnfolds(same, a, b, i, index, kids);
    ApplyBoth(d, root, Attach(Diff(same, a[i], b[i], index + 1), Preorder(kids[i]), index + 1), d1, root,
              AttachChildren(same, a, b, i + 1, index + 1 + Count(a[i]), kids), d2, root,
              AttachChildren(same, a, b, i, index, kids));
  }

  /** The patches of one child. */
  lemma {:induction false} ApplyOneChild(
    same: Sharing, d: Doc, root: Id, t: IdTree, a: seq<VNode>, b: seq<VNode>, c: VNode, parent: Option<Id>, i: nat,
    index: nat)
    returns (d': Doc, t': IdTree)
    requires Sound(same) && c.Element? && i < MinLen(a, b) && Built(a[i]) && !Throws(same, a[i], b[i], index + 1)
    requires |c.children| == |b| && c.children[i] == Updated(same, a[i], b[i], index + 1)
    requires Rooted(d, t, c.(children := Mixed(a, c.children, i)), parent) && RootOutside(d, root, t)
    ensures ApplyAll(d, root, Attach(Diff(same, a[i], b[i], index + 1), Preorder(t.kids[i]), index + 1)) == Done((d', root))
    ensures t'.id == t.id && |t'.kids| == |t.kids| && forall j :: 0 <= j < |t.kids| && j != i ==> t'.kids[j] == t.kids[j]
    ensures Kept(t.kids[i], t'.kids[i], a[i], b[i])
    ensures Rooted(d', t', c.(children := Mixed(a, c.children, i + 1)), parent) && Evolved(d, t, parent, d', t')
    ensures RootOutside(d', root, t')
    decreases a[i], 2, 0
  {
    var v := c.(children := Mixed(a, c.children, i));
    ChildRooted(d, t, v, parent, i);
    assert t.kids[i].id in t.kids[i].region && root !in t.kids[i].region;
    var kid;
    d', kid := ApplyUpdates(same, d, root, t.kids[i], a[i], b[i], Some(t.id), index + 1);
    t' := LiftChild(d, t, v, parent, i, d', kid, c.children[i]);
    assert v.children[i := c.children[i]] == Mixed(a, c.children, i + 1);
  }

  // ---------------------------------------------------------------- when the result is the new node

  /** Looking alike is being shown by the same nodes. */
  lemma {:induction false} ShowsAlike(nodes: map<Id, DomNode>, t: IdTree, v: VNode, w: VNode, parent: Option<Id>)
    requires Shows(nodes, t, v, parent)
    ensures Shows(nodes, t, w, parent) <==> Depict(v) == Depict(w)
    decreases t
  {
    if v.Element? && w.Element? && |w.children| == |v.children| {
      forall i | 0 <= i < |t.kids|
        ensures Shows(nodes, t.kids[i], w.children[i], Some(t.id)) <==> Depict(v.children[i]) == Depict(w.children[i])
      {
        ShowsAlike(nodes, t.kids[i], v.children[i], w.children[i], Some(t.id));
      }
      DepictAlike(v, w);
    } else if v.Element? && w.Element? {
      assert |Depict(v).children| != |Depict(w).children|;
    }
  }

  lemma DepictAlike(v: VNode, w: VNode)
    requires v.Element? && w.Element? && |v.children| == |w.children|
    ensures Depict(v) == Depict(w) <==>
            && v.tag == w.tag && v.namespace == w.namespace && Attrs(v.facts) == Attrs(w.facts)
            && forall i :: 0 <= i < |v.children| ==> Depict(v.children[i]) == Depict(w.children[i])
  {
    var (p, q) := (Depict(v).children, Depict(w).children);
    if forall i :: 0 <= i < |v.children| ==> Depict(v.children[i]) == Depict(w.children[i]) {
      assert p == q;
    } else {
      var i :| 0 <= i < |v.children| && Depict(v.children[i]) != Depict(w.children[i]);
      assert p[i] != q[i];
    }
  }

  /** The updated node looks like the new one if and only if all new attributes could be reached. */
  lemma {:induction false} UpdatedIsNewIff(same: Sharing, a: VNode, b: VNode, index: nat)
    ensures !Throws(same, a, b, index) && Depict(Updated(same, a, b, index)) == Depict(b) <==> Matches(same, a, b, index)
    decreases a, 1, 0
  {
    if Compared(same, a, b, index) {
      var c := Updated(same, a, b, index);
      DiffFactsAppliesIff(a.facts, b.facts);
      UpdatedAreNewIff(same, a.children, b.children, 0, index, c.children);
      DepictAlike(c, b);
    }
  }

  lemma {:induction false} UpdatedAreNewIff(same: Sharing, a: seq<VNode>, b: seq<VNode>, i: nat, index: nat, c: seq<VNode>)
    requires i <= |b| && |c| == |b| && c[i..] == UpdatedChildren(same, a, b, i, index)
    ensures !ChildrenThrow(same, a, b, i, index) && (forall k :: i <= k < |b| ==> Depict(c[k]) == Depict(b[k])) <==>
            ChildrenMatch(same, a, b, i, index)
    decreases a, 0, |a| - i
  {
    if i < MinLen(a, b) {
      NextUpdated(same, a, b, c, i, index);
      UpdatedIsNewIff(same, a[i], b[i], index + 1);
      UpdatedAreNewIff(same, a, b, i + 1, index + 1 + Count(a[i]), c);
    } else {
      assert forall k :: i <= k < |b| ==> c[k] == c[i..][k - i] == b[i..][k - i] == b[k];
    }
  }

  /** For all trees, unless the diff throws: applying the attached patches of `diff(a, b)` to a rendering of `a` leads
      to a rendering of `b` in its place, with nothing else touched, if and only if the attributes of all elements
      that are compared could be reached. The nodes of the document that stay are those of texts and of elements with
      an unchanged tag and namespace. */
  lemma ApplyDiff(same: Sharing, d: Doc, root: Id, t: IdTree, a: VNode, b: VNode, parent: Option<Id>, index: nat)
    returns (d': Doc, t': IdTree)
    requires Sound(same) && Built(a) && !Throws(same, a, b, index) && Rooted(d, t, a, parent) && RootOutside(d, root, t)
    ensures ApplyAll(d, root, Attach(Diff(same, a, b, index), Preorder(t), index)) == Done((d', Followed(root, t, t')))
    ensures Rooted(d', t', Updated(same, a, b, index), parent) && Evolved(d, t, parent, d', t')
    ensures Rooted(d', t', b, parent) <==> Matches(same, a, b, index)
    ensures Kept(t, t', a, b)
  {
    d', t' := ApplyUpdates(same, d, root, t, a, b, parent, index);
    UpdatedIsNewIff(same, a, b, index);
    ShowsAlike(d'.nodes, t', Updated(same, a, b, index), b, parent);
  }

  /** Names that mean nothing to objects and to the diff. */
  ghost predicate Plain(v: VNode) {
    v.Element? ==>
      && (forall k :: k in Attrs(v.facts) ==> !Inherited(k) && !Category(k))
      && forall i {:trigger Plain(v.children[i])} :: 0 <= i < |v.children| ==> Plain(v.children[i])
  }

  /** Views with plain names only always match. */
  lemma {:induction false} PlainMatches(same: Sharing, a: VNode, b: VNode, index: nat)
    requires Plain(a) && Plain(b)
    ensures Matches(same, a, b, index)
    decreases a, 1, 0
  {
    if Compared(same, a, b, index) {
      PlainChildrenMatch(same, a.children, b.children, 0, index);
    }
  }

  lemma {:induction false} PlainChildrenMatch(same: Sharing, a: seq<VNode>, b: seq<VNode>, i: nat, index: nat)
    requires forall k {:trigger Plain(a[k])} :: 0 <= k < |a| ==> Plain(a[k])
    requires forall k {:trigger Plain(b[k])} :: 0 <= k < |b| ==> Plain(b[k])
    ensures ChildrenMatch(same, a, b, i, index)
    decreases a, 0, |a| - i
  {
    if i < MinLen(a, b) {
      assert Plain(a[i]) && Plain(b[i]);
      PlainMatches(same, a[i], b[i], index + 1);
      PlainChildrenMatch(same, a, b, i + 1, index + 1 + Count(a[i]));
    }
  }

  /** No element has an attribute that is set again each time. */
  ghost predicate Steady(v: VNode) {
    v.Element? ==>
      && "value" !in Attrs(v.facts)
      && forall i {:trigger Steady(v.children[i])} :: 0 <= i < |v.children| ==> Steady(v.children[i])
  }

  lemma NoFactsPatch(v: VNode, index: nat)
    requires v.Element? && Plain(v) && Steady(v)
    ensures FactsPatch(v, v, index) == []
  {
    if v.facts.Some? {
      var a := v.facts.value;
      forall k | k in a
        ensures k !in NameDiffs(a, a)
      {
        assert !Inherited(k) && !Category(k);
        ChangesExactly(a, a, k);
      }
      assert NameDiffs(a, a) == map[];
    }
  }

  /** A view that is built again gives no patches. */
  lemma {:induction false} NothingToDo(same: Sharing, v: VNode, index: nat)
    requires Plain(v) && Steady(v)
    ensures Diff(same, v, v, index) == []
    decreases v, 1, 0
  {
    if v.Element? {
      NoFactsPatch(v, index);
      NothingToDoBelow(same, v.children, 0, index);
    }
  }

  lemma {:induction false} NothingToDoBelow(same: Sharing, vs: seq<VNode>, i: nat, index: nat)
    requires forall k {:trigger Plain(vs[k])} :: 0 <= k < |vs| ==> Plain(vs[k])
    requires forall k {:trigger Steady(vs[k])} :: 0 <= k < |vs| ==> Steady(vs[k])
    ensures DiffChildren(same, vs, vs, i, index) == []
    decreases vs, 0, |vs| - i
  {
    if i < |vs| {
      assert Plain(vs[i]) && Steady(vs[i]);
      NothingToDo(same, vs[i], index + 1);
      NothingToDoBelow(same, vs, i + 1, index + 1 + Count(vs[i]));
    }
  }
}
