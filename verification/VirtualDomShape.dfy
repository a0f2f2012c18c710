/** What it means for part of a document to be the rendering of a virtual node, and how rendering achieves it. */
module VirtualDomShape {
  import opened Basics
  import opened VirtualDomFacts
  import opened VirtualDom

  /** The identities of the nodes of a DOM subtree, and a region of identities it lives in. */
  datatype IdTree = IdTree(id: Id, kids: seq<IdTree>, region: set<Id>)

  function Roots(ts: seq<IdTree>): (r: seq<Id>)
    ensures |r| == |ts| && forall i :: 0 <= i < |ts| ==> r[i] == ts[i].id
  {
    seq(|ts|, i requires 0 <= i < |ts| => ts[i].id)
  }

  /** The subtrees live in regions of their own. */
  ghost predicate Apart(ts: seq<IdTree>) {
    forall i, j :: 0 <= i < j < |ts| ==> ts[i].region !! ts[j].region
  }

  /** A tree without sharing: below a node, every subtree has a region of its own. */
  ghost predicate Distinct(t: IdTree) {
    && t.id in t.region
    && (forall i :: 0 <= i < |t.kids| ==> Distinct(t.kids[i]) && t.kids[i].region <= t.region - {t.id})
    && Apart(t.kids)
  }

  /** The subtree `t` of the document is exactly the rendering of `v`, hanging below `parent`. */
  ghost predicate Shows(nodes: map<Id, DomNode>, t: IdTree, v: VNode, parent: Option<Id>)
    decreases t
  {
    && t.id in nodes
    && match v
       case Text(s) => t.kids == [] && nodes[t.id] == TextNode(parent, s)
       case Element(tag, ns, facts, children, _) =>
         && |t.kids| == |children|
         && nodes[t.id] == ElementNode(parent, tag, ns, Attrs(facts), Roots(t.kids))
         && forall i :: 0 <= i < |t.kids| ==> Shows(nodes, t.kids[i], children[i], Some(t.id))
  }

  ghost predicate ShowsAll(nodes: map<Id, DomNode>, ts: seq<IdTree>, vs: seq<VNode>, parent: Option<Id>) {
    |ts| == |vs| && forall i :: 0 <= i < |ts| ==> Shows(nodes, ts[i], vs[i], parent)
  }

  ghost predicate AgreeOn(nodes: map<Id, DomNode>, nodes': map<Id, DomNode>, region: set<Id>) {
    forall x :: x in region && x in nodes ==> x in nodes' && nodes'[x] == nodes[x]
  }

  /** A change elsewhere does not disturb a rendering. */
  lemma {:induction false} ShowsFrame(
    nodes: map<Id, DomNode>, nodes': map<Id, DomNode>, t: IdTree, v: VNode, parent: Option<Id>)
    requires Shows(nodes, t, v, parent) && Distinct(t) && AgreeOn(nodes, nodes', t.region)
    ensures Shows(nodes', t, v, parent)
    decreases t
  {
    if v.Element? {
      forall i | 0 <= i < |t.kids|
        ensures Shows(nodes', t.kids[i], v.children[i], Some(t.id))
      {
        ShowsFrame(nodes, nodes', t.kids[i], v.children[i], Some(t.id));
      }
    }
  }

  lemma ShowsAllFrame(
    nodes: map<Id, DomNode>, nodes': map<Id, DomNode>, ts: seq<IdTree>, vs: seq<VNode>, parent: Option<Id>)
    requires ShowsAll(nodes, ts, vs, parent)
    requires forall i :: 0 <= i < |ts| ==> Distinct(ts[i]) && AgreeOn(nodes, nodes', ts[i].region)
    ensures ShowsAll(nodes', ts, vs, parent)
  {
    forall i | 0 <= i < |ts|
      ensures Shows(nodes', ts[i], vs[i], parent)
    {
      ShowsFrame(nodes, nodes', ts[i], vs[i], parent);
    }
  }

  /** Changing only the root's own record. */
  lemma Reroot(nodes: map<Id, DomNode>, nodes': map<Id, DomNode>, t: IdTree, v: VNode, v': VNode,
               parent: Option<Id>, parent': Option<Id>)
    requires Shows(nodes, t, v, parent) && Distinct(t) && AgreeOn(nodes, nodes', t.region - {t.id})
    requires t.id in nodes'
    requires v.Text? ==> v'.Text? && nodes'[t.id] == TextNode(parent', v'.text)
    requires v.Element? ==> v'.Element? && v'.children == v.children
    requires v.Element? ==> nodes'[t.id] == ElementNode(parent', v'.tag, v'.namespace, Attrs(v'.facts), Roots(t.kids))
    ensures Shows(nodes', t, v', parent')
  {
    if v.Element? {
      forall i | 0 <= i < |t.kids|
        ensures Shows(nodes', t.kids[i], v.children[i], Some(t.id))
      {
        ShowsFrame(nodes, nodes', t.kids[i], v.children[i], Some(t.id));
      }
    }
  }

  // ---------------------------------------------------------------- what a document displays

  /** What can be seen of a node: no identities, no parents. */
  datatype Picture =
    | PText(data: string)
    | PElement(tag: string, namespace: Option<string>, attrs: map<string, string>, children: seq<Picture>)
    | Missing

  /** What a virtual node should look like. */
  function Depict(v: VNode): Picture {
    match v
    case Text(s) => PText(s)
    case Element(tag, ns, facts, children, _) =>
      PElement(tag, ns, Attrs(facts), seq(|children|, i requires 0 <= i < |children| => Depict(children[i])))
  }

  /** What is seen by following `childNodes` from node `x`, down to a depth. */
  function Displayed(nodes: map<Id, DomNode>, x: Id, depth: nat): Picture
    decreases depth
  {
    if depth == 0 || x !in nodes then Missing
    else match nodes[x]
      case TextNode(_, s) => PText(s)
      case ElementNode(_, tag, ns, attrs, kids) =>
        PElement(tag, ns, attrs, seq(|kids|, i requires 0 <= i < |kids| => Displayed(nodes, kids[i], depth - 1)))
  }

  ghost predicate Fits(v: VNode, depth: nat) {
    depth > 0 && (v.Element? ==> forall i :: 0 <= i < |v.children| ==> Fits(v.children[i], depth - 1))
  }

  /** How deep a virtual node is. */
  function Depth(v: VNode): nat {
    if v.Text? then 1 else 1 + DepthAll(v.children, |v.children|)
  }

  function DepthAll(vs: seq<VNode>, n: nat): nat
    requires n <= |vs|
  {
    if n == 0 then 0
    else
      var (before, last) := (DepthAll(vs, n - 1), Depth(vs[n - 1]));
      if before > last then before else last
  }

  lemma {:induction false} DepthOfOne(vs: seq<VNode>, n: nat, i: nat)
    requires i < n <= |vs|
    ensures Depth(vs[i]) <= DepthAll(vs, n)
    decreases n
  {
    if i < n - 1 {
      DepthOfOne(vs, n - 1, i);
    }
  }

  /** Looking as deep as the node is deep shows all of it. */
  lemma {:induction false} DepthFits(v: VNode, depth: nat)
    requires depth >= Depth(v)
    ensures Fits(v, depth)
    decreases v
  {
    if v.Element? {
      forall i | 0 <= i < |v.children|
        ensures Fits(v.children[i], depth - 1)
      {
        DepthOfOne(v.children, |v.children|, i);
        DepthFits(v.children[i], depth - 1);
      }
    }
  }

  /** A subtree that shows `v` looks like `v`. */
  lemma {:induction false} ShownPicture(nodes: map<Id, DomNode>, t: IdTree, v: VNode, parent: Option<Id>, depth: nat)
    requires Shows(nodes, t, v, parent) && Fits(v, depth)
    ensures Displayed(nodes, t.id, depth) == Depict(v)
    decreases t
  {
    if v.Element? {
      forall i | 0 <= i < |t.kids|
        ensures Displayed(nodes, t.kids[i].id, depth - 1) == Depict(v.children[i])
      {
        ShownPicture(nodes, t.kids[i], v.children[i], Some(t.id), depth - 1);
      }
    }
  }

  // ---------------------------------------------------------------- rendering

  /** The identities handed out between two states of a document. */
  function Created(lo: Id, hi: Id): (s: set<Id>)
    ensures forall x: Id :: x in s <==> lo <= x < hi
    decreases hi
  {
    if lo < hi then Created(lo, hi - 1) + {hi - 1} else {}
  }

  /** The subtrees `ts`, all made of nodes created between `lo` and `hi`, show `vs` below `p`. */
  ghost predicate NewKids(nodes: map<Id, DomNode>, ts: seq<IdTree>, vs: seq<VNode>, p: Id, lo: Id, hi: Id) {
    && ShowsAll(nodes, ts, vs, Some(p))
    && Apart(ts)
    && forall k :: 0 <= k < |ts| ==> Distinct(ts[k]) && ts[k].region <= Created(lo, hi)
  }

  /** `render` builds a rendering out of new nodes only. */
  lemma {:induction false} RenderShows(d: Doc, v: VNode) returns (t: IdTree)
    requires DocOk(d)
    ensures t.id == d.next && t.region == Created(d.next, Render(d, v).0.next) && Distinct(t)
    ensures Shows(Render(d, v).0.nodes, t, v, None)
    decreases v, 1, 0
  {
    match v
    case Text(_) =>
      t := IdTree(d.next, [], Created(d.next, d.next + 1));
    case Element(tag, ns, facts, children, _) =>
      var d1 := Create(d, ElementNode(None, tag, ns, Attrs(facts), []));
      var kids := RenderChildrenShows(d1, d.next, children, 0);
      var d' := RenderChildren(d1, d.next, children, 0);
      assert children[0..] == children && [] + Roots(kids) == Roots(kids);
      t := NewElementShown(d'.nodes, d.next, kids, v, d'.next);
  }

  lemma NewElementShown(nodes: map<Id, DomNode>, x: Id, kids: seq<IdTree>, v: VNode, hi: Id) returns (t: IdTree)
    requires v.Element? && NewKids(nodes, kids, v.children, x, x + 1, hi) && x < hi
    requires x in nodes && nodes[x] == ElementNode(None, v.tag, v.namespace, Attrs(v.facts), Roots(kids))
    ensures t.id == x && t.region == Created(x, hi) && Distinct(t) && Shows(nodes, t, v, None)
  {
    t := IdTree(x, kids, Created(x, hi));
  }

  lemma {:induction false} RenderChildrenShows(d: Doc, p: Id, vs: seq<VNode>, i: nat) returns (kids: seq<IdTree>)
    requires DocOk(d) && IsElement(d, p) && i <= |vs|
    ensures var d' := RenderChildren(d, p, vs, i);
            && NewKids(d'.nodes, kids, vs[i..], p, d.next, d'.next)
            && d'.nodes[p] == d.nodes[p].(childNodes := d.nodes[p].childNodes + Roots(kids))
    decreases vs, 0, |vs| - i
  {
    if i == |vs| {
      kids := [];
      assert d.nodes[p].childNodes + Roots(kids) == d.nodes[p].childNodes;
    } else {
      var t := RenderOneShows(d, p, vs[i]);
      var d2 := AppendChild(Render(d, vs[i]).0, p, t.id);
      var rest := RenderChildrenShows(d2, p, vs, i + 1);
      var d' := RenderChildren(d2, p, vs, i + 1);
      kids := [t] + rest;
      ExtendsAgrees(d2, d', p, t.region);
      ShowsFrame(d2.nodes, d'.nodes, t, vs[i], Some(p));
      NewKidsCons(d'.nodes, t, rest, vs, i, p, d.next, d2.next, d'.next);
      RootsCons(d.nodes[p].childNodes, t, rest);
    }
  }

  lemma ExtendsAgrees(d: Doc, d': Doc, p: Id, region: set<Id>)
    requires Extends(d, d', Some(p)) && p !in region
    ensures AgreeOn(d.nodes, d'.nodes, region)
  {
  }

  lemma RootsCons(s: seq<Id>, t: IdTree, rest: seq<IdTree>)
    ensures s + [t.id] + Roots(rest) == s + Roots([t] + rest)
  {
  }

  lemma RenderOneShows(d: Doc, p: Id, v: VNode) returns (t: IdTree)
    requires DocOk(d) && IsElement(d, p)
    ensures t.id == d.next && Distinct(t) && t.id in Render(d, v).0.nodes
    ensures var d' := AppendChild(Render(d, v).0, p, t.id);
            && Shows(d'.nodes, t, v, Some(p)) && t.region == Created(d.next, d'.next)
            && DocOk(d') && Extends(d, d', Some(p)) && IsElement(d', p)
            && d'.nodes[p] == d.nodes[p].(childNodes := d.nodes[p].childNodes + [t.id])
    decreases v, 2, 0
  {
    t := RenderShows(d, v);
    var d1 := Render(d, v).0;
    Reroot(d1.nodes, AppendChild(d1, p, t.id).nodes, t, v, v, None, Some(p));
  }

  lemma NewKidsCons(nodes: map<Id, DomNode>, t: IdTree, rest: seq<IdTree>, vs: seq<VNode>, i: nat, p: Id,
                    lo: Id, mid: Id, hi: Id)
    requires i < |vs| && lo <= mid <= hi
    requires Shows(nodes, t, vs[i], Some(p)) && Distinct(t) && t.region == Created(lo, mid)
    requires NewKids(nodes, rest, vs[i + 1..], p, mid, hi)
    ensures NewKids(nodes, [t] + rest, vs[i..], p, lo, hi)
  {
    assert Created(lo, mid) !! Created(mid, hi) && Created(lo, mid) + Created(mid, hi) == Created(lo, hi);
  }
}
