/** The renderer as it runs: one document, one array of patches, and the loops that build, attach and apply them. */
module VirtualDomRenderer {
  import opened Basics
  import opened VirtualDomFacts
  import opened VirtualDom
  import opened VirtualDomShape
  import opened VirtualDomAttach
  import opened VirtualDomPatch

  /** `nodeHelp`: the loop that counts descendants. */
  method NodeHelp(tag: string, namespace: Option<string>, facts: Facts, kidList: seq<VNode>) returns (v: VNode)
    requires forall i :: 0 <= i < |kidList| ==> Built(kidList[i])
    ensures v.Element? && v.tag == tag && v.namespace == namespace && v.facts == facts && v.children == kidList
    ensures Built(v)
  {
    var children, descendantsCount := [], 0;
    for i := 0 to |kidList|
      invariant children == kidList[..i]
      invariant descendantsCount + i == CountAll(kidList, i)
    {
      descendantsCount := descendantsCount + Count(kidList[i]);
      children := children + [kidList[i]];
    }
    descendantsCount := descendantsCount + |children|;
    v := Element(tag, namespace, facts, children, descendantsCount);
  }

  /** Which of the patches from `from` to `upto` have been attached, and that nothing else changed. */
  ghost predicate AttachedBetween(ps: seq<Patch>, ps': seq<Patch>, from: nat, upto: nat, ids: seq<Id>, base: nat) {
    && |ps'| == |ps| && from <= upto <= |ps|
    && (forall k :: 0 <= k < |ps| && !(from <= k < upto) ==> ps'[k] == ps[k])
    && (forall k :: from <= k < upto ==> ps'[k] == AttachOne(ps[k], ids, base))
  }

  ghost predicate Spanned(ps: seq<Patch>, from: nat, upto: nat, lo: nat, hi: nat)
    requires upto <= |ps|
  {
    forall k :: from <= k < upto ==> lo <= ps[k].index <= hi
  }

  lemma AttachOneMiddle(p: Patch, all: seq<Id>, before: seq<Id>, ids: seq<Id>, after: seq<Id>, base: nat, start: nat)
    requires all == before + ids + after && start == base + |before| && start <= p.index < start + |ids|
    ensures AttachOne(p, all, base) == AttachOne(p, ids, start)
  {
  }

  lemma AttachOneInChild(p: Patch, t: IdTree, v: VNode, j: nat, base: nat, start: nat)
    requires v.Element? && SameShape(t, v) && Built(v) && j < |t.kids|
    requires start == base + CountAll(v.children, j) + 1 && start <= p.index <= start + Count(v.children[j])
    ensures AttachOne(p, Preorder(t), base) == AttachOne(p, Preorder(t.kids[j]), start)
  {
    var before, after := ChildInPreorder(t, v, j);
    AttachOneMiddle(p, Preorder(t), before, Preorder(t.kids[j]), after, base, start);
  }

  /** The crawl has attached the patches from `first` to `next` to nodes of `t`, numbered from `low`. */
  ghost predicate Crawled(ps: seq<Patch>, ps': seq<Patch>, first: nat, next: nat, t: IdTree, low: nat, high: nat) {
    && AttachedBetween(ps, ps', first, next, Preorder(t), low)
    && Spanned(ps, first, next, low, high)
  }

  lemma StillAscending(ps: seq<Patch>, ps': seq<Patch>, first: nat, next: nat, t: IdTree, low: nat, high: nat)
    requires Crawled(ps, ps', first, next, t, low, high) && Ascending(ps)
    ensures Ascending(ps')
  {
    forall i, j | 0 <= i < j < |ps'|
      ensures InOrder(ps'[i], ps'[j])
    {
      assert InOrder(ps[i], ps[j]);
    }
  }

  lemma CrawledMore(ps: seq<Patch>, ps1: seq<Patch>, ps2: seq<Patch>, first: nat, mid: nat, next: nat, t: IdTree, low: nat, high: nat)
    requires Crawled(ps, ps1, first, mid, t, low, high) && Crawled(ps1, ps2, mid, next, t, low, high)
    ensures Crawled(ps, ps2, first, next, t, low, high)
  {
  }

  /** What was attached within a child was attached within its parent. */
  lemma AttachedThrough(ps: seq<Patch>, ps': seq<Patch>, first: nat, next: nat, t: IdTree, v: VNode, j: nat, base: nat, start: nat)
    requires v.Element? && SameShape(t, v) && Built(v) && j < |t.kids|
    requires start == base + CountAll(v.children, j) + 1
    requires Crawled(ps, ps', first, next, t.kids[j], start, start + Count(v.children[j]))
    ensures Crawled(ps, ps', first, next, t, base, base + Count(v))
  {
    forall k | first <= k < next
      ensures ps'[k] == AttachOne(ps[k], Preorder(t), base)
    {
      AttachOneInChild(ps[k], t, v, j, base, start);
    }
    ChildSpan(v, j);
  }

  lemma ChildSpan(v: VNode, j: nat)
    requires v.Element? && Built(v) && j < |v.children|
    ensures CountAll(v.children, j) + 1 + Count(v.children[j]) <= Count(v)
  {
    CountAllStep(v.children, j);
  }

  lemma Assoc4<T>(a: seq<T>, b: seq<T>, c: seq<T>, d: seq<T>)
    ensures (a + b) + (c + d) == a + ((b + c) + d)
  {
  }

  class Renderer {
    /** The browser's document. */
    var doc: Doc
    /** The array `diff` pushes to, the crawl annotates and the patching reads. */
    var patches: seq<Patch>

    constructor ()
      ensures doc == Doc(map[], 0) && patches == []
    {
      doc, patches := Doc(map[], 0), [];
    }

    /** `render`: create the node, then render and append its children. */
    method RenderNode(v: VNode) returns (id: Id)
      requires DocOk(doc)
      modifies this`doc
      ensures (doc, id) == Render(old(doc), v)
      decreases v
    {
      id := doc.next;
      match v
      case Text(s) =>
        doc := Create(doc, TextNode(None, s));
      case Element(tag, ns, facts, children, _) =>
        doc := Create(doc, ElementNode(None, tag, ns, Attrs(facts), []));
        RenderInto(id, children);
    }

    /** The loop that appends renderings to a node. */
    method RenderInto(p: Id, vs: seq<VNode>)
      requires DocOk(doc) && IsElement(doc, p)
      modifies this`doc
      ensures doc == RenderChildren(old(doc), p, vs, 0)
      decreases vs
    {
      for i := 0 to |vs|
        invariant DocOk(doc) && IsElement(doc, p)
        invariant RenderChildren(doc, p, vs, i) == RenderChildren(old(doc), p, vs, 0)
      {
        ghost var before := doc;
        var c := RenderNode(vs[i]);
        doc := AppendChild(doc, p, c);
        RenderChildrenUnfolds(before, p, vs, i, doc);
      }
    }

    /** `diffHelp` pushes the patches of a diff, or throws. */
    method DiffHelp(same: Sharing, a: VNode, b: VNode, index: nat) returns (r: Outcome<()>)
      modifies this`patches
      ensures r.Crash? <==> Throws(same, a, b, index)
      ensures r.Done? ==> patches == old(patches) + Diff(same, a, b, index)
      decreases a, 1
    {
      if same(a, b, index) {
        return Done(());
      }
      if a.Text? != b.Text? {
        patches := patches + [MakePatch(Redraw(b), index)];
        return Done(());
      }
      if b.Text? {
        if a.text != b.text {
          patches := patches + [MakePatch(TextChange(b.text), index)];
        }
        return Done(());
      }
      if a.tag != b.tag || a.namespace != b.namespace {
        patches := patches + [MakePatch(Redraw(b), index)];
        return Done(());
      }
      var factsDiff :- DiffFactsLoop(a.facts, b.facts);
      if factsDiff.Some? {
        patches := patches + [MakePatch(FactsChange(factsDiff.value), index)];
      }
      assert patches == old(patches) + FactsPatch(a, b, index);
      r := DiffChildrenOf(same, a.children, b.children, index);
      Assoc4(old(patches), FactsPatch(a, b, index), LengthPatch(a.children, b.children, index),
             DiffChildren(same, a.children, b.children, 0, index));
    }

    /** `diffChildren`: the length patch, then the pairwise diffs in a loop. */
    method DiffChildrenOf(same: Sharing, a: seq<VNode>, b: seq<VNode>, rootIndex: nat) returns (r: Outcome<()>)
      modifies this`patches
      ensures r.Crash? <==> ChildrenThrow(same, a, b, 0, rootIndex)
      ensures r.Done? ==> patches == old(patches) + (LengthPatch(a, b, rootIndex) + DiffChildren(same, a, b, 0, rootIndex))
      decreases a, 0
    {
      if |a| > |b| {
        patches := patches + [MakePatch(RemoveLast(|a| - |b|), rootIndex)];
      } else if |a| < |b| {
        patches := patches + [MakePatch(Append(b[|a|..]), rootIndex)];
      }
      assert patches == old(patches) + LengthPatch(a, b, rootIndex);
      ghost var before := patches;
      var index: nat := rootIndex;
      for i := 0 to MinLen(a, b)
        invariant patches + DiffChildren(same, a, b, i, index) == before + DiffChildren(same, a, b, 0, rootIndex)
        invariant ChildrenThrow(same, a, b, i, index) <==> ChildrenThrow(same, a, b, 0, rootIndex)
      {
        index := index + 1;
        ghost var prior := patches;
        var child := DiffHelp(same, a[i], b[i], index);
        if child.Crash? {
          return Crash;
        }
        Assoc(prior, Diff(same, a[i], b[i], index), DiffChildren(same, a, b, i + 1, index + Count(a[i])));
        index := index + Count(a[i]);
      }
      assert patches + [] == patches;
      Assoc(old(patches), LengthPatch(a, b, rootIndex), DiffChildren(same, a, b, 0, rootIndex));
      return Done(());
    }

    /** The first loop of `addDomNodesHelp`: every patch numbered `low` belongs to `dom` itself. */
    method AttachHere(dom: Id, first: nat, low: nat, ghost ids: seq<Id>) returns (i: nat)
      requires Ascending(patches) && first < |patches| && low <= patches[first].index && ids != [] && ids[0] == dom
      modifies this`patches
      ensures first <= i <= |patches| && AttachedBetween(old(patches), patches, first, i, ids, low)
      ensures Spanned(old(patches), first, i, low, low)
      ensures i < |patches| ==> patches[i].index > low
    {
      i := first;
      while i < |patches| && patches[i].index == low
        invariant first <= i <= |patches| && AttachedBetween(old(patches), patches, first, i, ids, low)
        invariant Spanned(old(patches), first, i, low, low)
      {
        patches := patches[i := patches[i].(domNode := Some(dom))];
        i := i + 1;
      }
      if first < i < |patches| {
        assert InOrder(old(patches)[first], old(patches)[i]);
      }
    }

    /** `addDomNodesHelp`: the sparse crawl. It attaches to `dom` and its descendants every patch numbered
        from `low` to `high`, starting at the `first`-th patch, and never reaches the throw for text nodes. */
    method AddDomNodesHelp(dom: Id, v: VNode, first: nat, low: nat, high: nat, ghost t: IdTree, ghost parent: Option<Id>)
      returns (r: Outcome<nat>)
      requires Shows(doc.nodes, t, v, parent) && t.id == dom && Built(v) && high == low + Count(v)
      requires Ascending(patches) && first < |patches| && low <= patches[first].index <= high
      modifies this`patches
      ensures r.Done? && first < r.value <= |patches| && (r.value < |patches| ==> patches[r.value].index > high)
      ensures Crawled(old(patches), patches, first, r.value, t, low, high)
      decreases v, 1
    {
      var i := AttachHere(dom, first, low, Preorder(t));
      if i == |patches| || patches[i].index > high {
        return Done(i);
      }
      if v.Text? {
        return Crash;
      }
      ghost var before := patches;
      StillAscending(old(patches), patches, first, i, t, low, high);
      var next := CrawlChildren(dom, v, i, low, high, t, parent);
      CrawledMore(old(patches), before, patches, first, i, next, t, low, high);
      return Done(next);
    }

    /** One round of the second loop: descend into a child that has patches, skip one that has none. */
    method CrawlChild(dom: Id, v: VNode, j: nat, i: nat, low: nat, ghost t: IdTree, ghost parent: Option<Id>,
                      ghost ps: seq<Patch>, ghost first: nat, ghost from: nat, ghost high: nat)
      returns (next: nat, nextLow: nat)
      requires v.Element? && Shows(doc.nodes, t, v, parent) && t.id == dom && Built(v) && j < |v.children|
      requires low == from + CountAll(v.children, j) && high == from + Count(v)
      requires i < |patches| && low < patches[i].index && Crawled(ps, patches, first, i, t, from, high) && Ascending(ps)
      modifies this`patches
      ensures nextLow == from + CountAll(v.children, j + 1)
      ensures i <= next <= |patches| && (next < |patches| ==> patches[next].index > nextLow)
      ensures Crawled(ps, patches, first, next, t, from, high)
      decreases v, 0, 0
    {
      StillAscending(ps, patches, first, i, t, from, high);
      CountAllStep(v.children, j);
      next, nextLow := i, low + 1 + Count(v.children[j]);
      if low + 1 <= patches[i].index <= nextLow {
        var r := AddDomNodesHelp(doc.nodes[dom].childNodes[j], v.children[j], i, low + 1, nextLow, t.kids[j], Some(dom));
        next := r.value;
        ShownShape(doc.nodes, t, v, parent);
        AttachedThrough(old(patches), patches, i, next, t, v, j, from, low + 1);
        CrawledMore(ps, old(patches), patches, first, i, next, t, from, high);
      }
    }

    /** The second loop of `addDomNodesHelp`. */
    method CrawlChildren(dom: Id, v: VNode, first: nat, from: nat, high: nat, ghost t: IdTree, ghost parent: Option<Id>)
      returns (i: nat)
      requires v.Element? && Shows(doc.nodes, t, v, parent) && t.id == dom && Built(v) && high == from + Count(v)
      requires Ascending(patches) && first < |patches| && from < patches[first].index <= high
      modifies this`patches
      ensures first <= i <= |patches| && (i < |patches| ==> patches[i].index > high)
      ensures Crawled(old(patches), patches, first, i, t, from, high)
      decreases v, 0, 1
    {
      ghost var ps := patches;
      i := first;
      var low: nat, j: nat := from, 0;
      while j < |v.children|
        invariant 0 <= j <= |v.children| && low == from + CountAll(v.children, j)
        invariant first <= i < |patches| && low < patches[i].index <= high
        invariant Crawled(ps, patches, first, i, t, from, high)
      {
        i, low := CrawlChild(dom, v, j, i, low, t, parent, ps, first, from, high);
        if i == |patches| || patches[i].index > high {
          break;
        }
        j := j + 1;
      }
    }

    /** `addDomNodes`: after the crawl every patch hangs at the node with its preorder number. */
    method AddDomNodes(dom: Id, v: VNode, ghost t: IdTree, ghost parent: Option<Id>) returns (r: Outcome<()>)
      requires Shows(doc.nodes, t, v, parent) && t.id == dom && Built(v)
      requires patches != [] && Ascending(patches) && IndicesWithin(patches, 0, Count(v))
      modifies this`patches
      ensures r.Done? && patches == Attach(old(patches), Preorder(t), 0)
    {
      var last := AddDomNodesHelp(dom, v, 0, 0, Count(v), t, parent);
      if last.Crash? {
        return Crash;
      }
      return Done(());
    }

    /** `while (i--) domNode.removeChild(domNode.lastChild)`. */
    method RemoveLastLoop(p: Id, n: nat) returns (r: Outcome<()>)
      requires DocOk(doc)
      modifies this`doc
      ensures r.Done? <==> RemoveLastChildren(old(doc), p, n).Done?
      ensures r.Done? ==> doc == RemoveLastChildren(old(doc), p, n).value
    {
      var i := n;
      while i > 0
        invariant 0 <= i <= n && RemoveLastChildren(doc, p, i) == RemoveLastChildren(old(doc), p, n)
      {
        i := i - 1;
        if !IsElement(doc, p) || doc.nodes[p].childNodes == [] {
          return Crash;
        }
        var parent := doc.nodes[p];
        var last := parent.childNodes[|parent.childNodes| - 1];
        if last !in doc.nodes || last == p {
          return Crash;
        }
        doc := doc.(nodes := doc.nodes[p := parent.(childNodes := parent.childNodes[..|parent.childNodes| - 1])]
                                      [last := doc.nodes[last].(parent := None)]);
      }
      return Done(());
    }

    /** `applyPatch`. */
    method ApplyOnePatch(patch: Patch) returns (r: Outcome<Id>)
      requires DocOk(doc)
      modifies this`doc
      ensures r.Done? <==> ApplyPatch(old(doc), patch).Done?
      ensures r.Done? ==> (doc, r.value) == ApplyPatch(old(doc), patch).value
    {
      if patch.domNode.None? || patch.domNode.value !in doc.nodes {
        return Crash;
      }
      var x := patch.domNode.value;
      var node := doc.nodes[x];
      match patch.change
      case Redraw(v) =>
        var n := RenderNode(v);
        if node.parent.Some? {
          var replaced := ReplaceChild(doc, node.parent.value, n, x);
          if replaced.Crash? {
            return Crash;
          }
          doc := replaced.value;
        }
        return Done(n);
      case FactsChange(diff) =>
        if node.TextNode? {
          return Crash;
        }
        doc := doc.(nodes := doc.nodes[x := node.(attrs := ApplyAttrs(node.attrs, diff))]);
        return Done(x);
      case TextChange(s) =>
        if node.ElementNode? {
          return Crash;
        }
        doc := doc.(nodes := doc.nodes[x := node.(data := s)]);
        return Done(x);
      case RemoveLast(n) =>
        var removed := RemoveLastLoop(x, n);
        return if removed.Done? then Done(x) else Crash;
      case Append(vs) =>
        if node.TextNode? {
          return Crash;
        }
        RenderInto(x, vs);
        return Done(x);
    }

    /** `applyPatchesHelp`. */
    method ApplyPatchesHelp(rootDomNode: Id) returns (r: Outcome<Id>)
      requires DocOk(doc)
      modifies this`doc
      ensures r.Done? <==> ApplyAll(old(doc), rootDomNode, patches).Done?
      ensures r.Done? ==> (doc, r.value) == ApplyAll(old(doc), rootDomNode, patches).value
    {
      var root := rootDomNode;
      for i := 0 to |patches|
        invariant DocOk(doc)
        invariant ApplyAll(doc, root, patches[i..]) == ApplyAll(old(doc), rootDomNode, patches)
      {
        assert patches[i..][1..] == patches[i + 1..];
        var newNode := ApplyOnePatch(patches[i]);
        if newNode.Crash? {
          return Crash;
        }
        if patches[i].domNode == Some(root) {
          root := newNode.value;
        }
      }
      return Done(root);
    }

    /** Diff the old view against the new one and patch the document. If the diff throws, the document stays as it is.
        Otherwise it ends up showing the new view, in the old one's place and with everything else untouched, if and
        only if the new attributes could be reached. */
    method Rerender(same: Sharing, root: Id, a: VNode, b: VNode, ghost t: IdTree, ghost parent: Option<Id>)
      returns (r: Outcome<Id>, ghost t': IdTree)
      requires Sound(same) && Built(a) && Rooted(doc, t, a, parent) && t.id == root
      modifies this
      ensures r.Crash? <==> Throws(same, a, b, 0)
      ensures r.Crash? ==> doc == old(doc) && t' == t
      ensures r.Done? ==> r.value == t'.id && Rooted(doc, t', Updated(same, a, b, 0), parent) && Evolved(old(doc), t, parent, doc, t')
      ensures r.Done? ==> Kept(t, t', a, b)
      ensures r.Done? && Rooted(doc, t', b, parent) <==> Matches(same, a, b, 0)
    {
      patches := [];
      t' := t;
      UpdatedIsNewIff(same, a, b, 0);
      var diffed := DiffHelp(same, a, b, 0);
      if diffed.Crash? {
        return Crash, t;
      }
      assert patches == Diff(same, a, b, 0);
      DiffIndices(same, a, b, 0);
      ghost var d';
      d', t' := ApplyDiff(same, doc, root, t, a, b, parent, 0);
      if patches == [] {
        assert Attach(patches, Preorder(t), 0) == [];
        return Done(root), t';
      }
      var attached := AddDomNodes(root, a, t, parent);
      r := ApplyPatchesHelp(root);
    }

    /** A program's life below some node of the page: render the first view and hang it there, then re-render for every
        later one. As long as the attributes of each view can be reached from those of the one before, the document
        displays exactly the latest view. */
    method ShowViews(parent: Id, sharing: seq<Sharing>, views: seq<VNode>) returns (r: Outcome<Id>, ghost t: IdTree)
      requires views != [] && |sharing| == |views| && DocOk(doc) && IsElement(doc, parent)
      requires forall i :: 0 <= i < |views| ==> Sound(sharing[i]) && Built(views[i])
      requires forall i :: 0 < i < |views| ==> Matches(sharing[i], views[i - 1], views[i], 0)
      modifies this
      ensures r == Done(t.id) && Rooted(doc, t, views[|views| - 1], Some(parent))
      ensures Displayed(doc.nodes, t.id, Depth(views[|views| - 1])) == Depict(views[|views| - 1])
    {
      var root;
      root, t := RenderBelow(parent, views[0]);
      for i := 1 to |views|
        invariant t.id == root && Rooted(doc, t, views[i - 1], Some(parent))
      {
        var next;
        next, t := Rerender(sharing[i], root, views[i - 1], views[i], t, Some(parent));
        root := next.value;
      }
      DepthFits(views[|views| - 1], Depth(views[|views| - 1]));
      ShownPicture(doc.nodes, t, views[|views| - 1], Some(parent), Depth(views[|views| - 1]));
      r := Done(root);
    }

    /** `normalRenderer`: render a view and append it to a node of the page. */
    method RenderBelow(parent: Id, v: VNode) returns (root: Id, ghost t: IdTree)
      requires DocOk(doc) && IsElement(doc, parent)
      modifies this`doc
      ensures t.id == root && Rooted(doc, t, v, Some(parent))
      ensures forall x :: x in old(doc).nodes && x != parent ==> x in doc.nodes && doc.nodes[x] == old(doc).nodes[x]
    {
      t := RenderOneShows(doc, parent, v);
      root := RenderNode(v);
      doc := AppendChild(doc, parent, root);
    }
  }
}
