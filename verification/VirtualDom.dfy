/** Virtual nodes, the diff of two of them, and a DOM to render them into and to patch.

    Covers text nodes and plain elements with attribute facts. */
module VirtualDom {
  import opened Basics
  import opened VirtualDomFacts

  // ---------------------------------------------------------------- virtual nodes

  datatype VNode =
    | Text(text: string)
    | Element(tag: string, namespace: Option<string>, facts: Facts, children: seq<VNode>, descendantsCount: nat)

  /** `vNode.descendantsCount || 0`. */
  function Count(v: VNode): nat {
    if v.Text? then 0 else v.descendantsCount
  }

  /** How many nodes lie below the first `n` of `vs`, themselves included. */
  function CountAll(vs: seq<VNode>, n: nat): nat
    requires n <= |vs|
  {
    if n == 0 then 0 else CountAll(vs, n - 1) + 1 + Count(vs[n - 1])
  }

  /** What `text` and `node` build: every stored count is right. */
  ghost predicate Built(v: VNode) {
    match v
    case Text(_) => true
    case Element(_, _, facts, children, n) =>
      n == CountAll(children, |children|) && forall i {:trigger Built(children[i])} :: 0 <= i < |children| ==> Built(children[i])
  }

  // ---------------------------------------------------------------- diff

  datatype Change =
    | Redraw(vnode: VNode)
    | FactsChange(attrs: AttrDiff)
    | TextChange(data: string)
    | RemoveLast(count: nat)
    | Append(vnodes: seq<VNode>)

  type Id = nat

  datatype Patch = Patch(index: nat, change: Change, domNode: Option<Id>)

  function MakePatch(change: Change, index: nat): Patch {
    Patch(index, change, None)
  }

  /** Which visited pairs of nodes are one JavaScript object, by preorder index. */
  type Sharing = (VNode, VNode, nat) -> bool

  ghost predicate Sound(same: Sharing) {
    forall a, b, i :: same(a, b, i) ==> a == b
  }

  /** The patches of `diffHelp`, when it does not throw. */
  function Diff(same: Sharing, a: VNode, b: VNode, index: nat): seq<Patch>
    decreases a, 1, 0
  {
    if same(a, b, index) then []
    else match (a, b)
      case (Text(s), Text(t)) => if s != t then [MakePatch(TextChange(t), index)] else []
      case (Element(_, _, _, _, _), Element(_, _, _, _, _)) =>
        if a.tag != b.tag || a.namespace != b.namespace then [MakePatch(Redraw(b), index)]
        else OwnPatches(a, b, index) + DiffChildren(same, a.children, b.children, 0, index)
      case _ => [MakePatch(Redraw(b), index)]
  }

  /** The patches an element gets for its facts and for the length of its child list. */
  function OwnPatches(a: VNode, b: VNode, index: nat): seq<Patch>
    requires a.Element? && b.Element?
  {
    FactsPatch(a, b, index) + LengthPatch(a.children, b.children, index)
  }

  function FactsPatch(a: VNode, b: VNode, index: nat): seq<Patch>
    requires a.Element? && b.Element?
  {
    match DiffFacts(a.facts, b.facts)
    case Done(Some(d)) => [MakePatch(FactsChange(d), index)]
    case _ => []
  }

  function LengthPatch(a: seq<VNode>, b: seq<VNode>, index: nat): seq<Patch> {
    if |a| > |b| then [MakePatch(RemoveLast(|a| - |b|), index)]
    else if |a| < |b| then [MakePatch(Append(b[|a|..]), index)]
    else []
  }

  function MinLen(a: seq<VNode>, b: seq<VNode>): nat {
    if |a| < |b| then |a| else |b|
  }

  /** The pairwise diffs from child `i` on; `index` is the last index given out before it. */
  function DiffChildren(same: Sharing, a: seq<VNode>, b: seq<VNode>, i: nat, index: nat): seq<Patch>
    decreases a, 0, |a| - i
  {
    if i >= MinLen(a, b) then []
    else Diff(same, a[i], b[i], index + 1) + DiffChildren(same, a, b, i + 1, index + 1 + Count(a[i]))
  }

  /** Two elements that are compared and not replaced. */
  predicate Compared(same: Sharing, a: VNode, b: VNode, index: nat) {
    !same(a, b, index) && a.Element? && b.Element? && a.tag == b.tag && a.namespace == b.namespace
  }

  /** Comparing the facts of some pair of elements throws. */
  predicate Throws(same: Sharing, a: VNode, b: VNode, index: nat)
    decreases a, 1, 0
  {
    Compared(same, a, b, index) &&
    (DiffFacts(a.facts, b.facts).Crash? || ChildrenThrow(same, a.children, b.children, 0, index))
  }

  predicate ChildrenThrow(same: Sharing, a: seq<VNode>, b: seq<VNode>, i: nat, index: nat)
    decreases a, 0, |a| - i
  {
    i < MinLen(a, b) &&
    (Throws(same, a[i], b[i], index + 1) || ChildrenThrow(same, a, b, i + 1, index + 1 + Count(a[i])))
  }

  /** What a rendering of `a` shows once the patches have been applied: `b`, up to the attributes of the elements
      that were compared. */
  function Updated(same: Sharing, a: VNode, b: VNode, index: nat): VNode
    decreases a, 1, 0
  {
    if Compared(same, a, b, index)
    then b.(facts := Some(Patched(a.facts, b.facts)), children := UpdatedChildren(same, a.children, b.children, 0, index))
    else b
  }

  function UpdatedChildren(same: Sharing, a: seq<VNode>, b: seq<VNode>, i: nat, index: nat): (r: seq<VNode>)
    requires i <= |b|
    ensures |r| == |b| - i
    decreases a, 0, |a| - i
  {
    if i >= MinLen(a, b) then b[i..]
    else [Updated(same, a[i], b[i], index + 1)] + UpdatedChildren(same, a, b, i + 1, index + 1 + Count(a[i]))
  }

  /** The new attributes of all elements that are compared can be reached from the old ones. */
  predicate Matches(same: Sharing, a: VNode, b: VNode, index: nat)
    decreases a, 1, 0
  {
    Compared(same, a, b, index) ==>
      Reachable(a.facts, b.facts) && ChildrenMatch(same, a.children, b.children, 0, index)
  }

  predicate ChildrenMatch(same: Sharing, a: seq<VNode>, b: seq<VNode>, i: nat, index: nat)
    decreases a, 0, |a| - i
  {
    i < MinLen(a, b) ==>
      Matches(same, a[i], b[i], index + 1) && ChildrenMatch(same, a, b, i + 1, index + 1 + Count(a[i]))
  }

  // ---------------------------------------------------------------- the DOM

  datatype DomNode =
    | TextNode(parent: Option<Id>, data: string)
    | ElementNode(parent: Option<Id>, tag: string, namespace: Option<string>, attrs: map<string, string>,
                  childNodes: seq<Id>)

  /** A document's nodes, by identity; `next` is the identity of the next node to be created. */
  datatype Doc = Doc(nodes: map<Id, DomNode>, next: Id)

  ghost predicate DocOk(d: Doc) {
    forall x :: x in d.nodes ==> x < d.next
  }

  predicate IsElement(d: Doc, x: Id) {
    x in d.nodes && d.nodes[x].ElementNode?
  }

  function Create(d: Doc, n: DomNode): Doc {
    Doc(d.nodes[d.next := n], d.next + 1)
  }

  /** `appendChild` of a node without a parent. */
  function AppendChild(d: Doc, p: Id, c: Id): Doc
    requires IsElement(d, p) && c in d.nodes && c != p
  {
    var parent := d.nodes[p];
    d.(nodes := d.nodes[p := parent.(childNodes := parent.childNodes + [c])]
                       [c := d.nodes[c].(parent := Some(p))])
  }

  /** Nothing that was in `d` changes in `d'`, except possibly `p`'s list of children. */
  ghost predicate Extends(d: Doc, d': Doc, p: Option<Id>) {
    && d.next <= d'.next
    && forall x :: x in d.nodes && p != Some(x) ==> x in d'.nodes && d'.nodes[x] == d.nodes[x]
  }

  function Render(d: Doc, v: VNode): (r: (Doc, Id))
    requires DocOk(d)
    ensures r.1 == d.next && r.1 in r.0.nodes && r.0.nodes[r.1].parent.None?
    ensures DocOk(r.0) && Extends(d, r.0, None)
    decreases v, 1, 0
  {
    match v
    case Text(s) => (Create(d, TextNode(None, s)), d.next)
    case Element(tag, ns, facts, children, _) =>
      (RenderChildren(Create(d, ElementNode(None, tag, ns, Attrs(facts), [])), d.next, children, 0), d.next)
  }

  /** Render `vs[i..]` and append each to `p`. */
  function RenderChildren(d: Doc, p: Id, vs: seq<VNode>, i: nat): (d': Doc)
    requires DocOk(d) && IsElement(d, p) && i <= |vs|
    ensures DocOk(d') && Extends(d, d', Some(p)) && IsElement(d', p)
    ensures d'.nodes[p].(childNodes := []) == d.nodes[p].(childNodes := [])
    decreases vs, 0, |vs| - i
  {
    if i == |vs| then d
    else
      var (d1, c) := Render(d, vs[i]);
      RenderChildren(AppendChild(d1, p, c), p, vs, i + 1)
  }

  lemma RenderChildrenUnfolds(d: Doc, p: Id, vs: seq<VNode>, i: nat, d': Doc)
    requires DocOk(d) && IsElement(d, p) && i < |vs|
    requires IsElement(Render(d, vs[i]).0, p) && d' == AppendChild(Render(d, vs[i]).0, p, Render(d, vs[i]).1)
    ensures DocOk(d') && IsElement(d', p) && RenderChildren(d, p, vs, i) == RenderChildren(d', p, vs, i + 1)
  {
  }

  // ---------------------------------------------------------------- applying patches

  function Substitute(s: seq<Id>, old': Id, new': Id): (r: seq<Id>)
    ensures |r| == |s| && forall i :: 0 <= i < |s| ==> r[i] == if s[i] == old' then new' else s[i]
  {
    seq(|s|, i requires 0 <= i < |s| => if s[i] == old' then new' else s[i])
  }

  /** `parent.replaceChild(new, old)` of a node without a parent; throws if `old` is not a child. */
  function ReplaceChild(d: Doc, p: Id, new': Id, old': Id): (r: Outcome<Doc>)
    requires new' in d.nodes && old' in d.nodes
    ensures r.Done? ==> r.value.next == d.next && r.value.nodes.Keys == d.nodes.Keys
  {
    if IsElement(d, p) && old' in d.nodes[p].childNodes && p != new' && p != old' && new' != old' then
      var parent := d.nodes[p];
      Done(d.(nodes := d.nodes[p := parent.(childNodes := Substitute(parent.childNodes, old', new'))]
                              [old' := d.nodes[old'].(parent := None)]
                              [new' := d.nodes[new'].(parent := Some(p))]))
    else Crash
  }

  /** `while (i--) domNode.removeChild(domNode.lastChild)`; throws if there are too few children. */
  function RemoveLastChildren(d: Doc, p: Id, n: nat): (r: Outcome<Doc>)
    ensures r.Done? ==> r.value.next == d.next && r.value.nodes.Keys == d.nodes.Keys
    decreases n
  {
    if n == 0 then Done(d)
    else if IsElement(d, p) && d.nodes[p].childNodes != [] then
      var parent := d.nodes[p];
      var last := parent.childNodes[|parent.childNodes| - 1];
      if last in d.nodes && last != p then
        RemoveLastChildren(
          d.(nodes := d.nodes[p := parent.(childNodes := parent.childNodes[..|parent.childNodes| - 1])]
                             [last := d.nodes[last].(parent := None)]), p, n - 1)
      else Crash
    else Crash
  }

  /** The document after a patch, and the node that now stands where the patched one stood. */
  function ApplyPatch(d: Doc, patch: Patch): (r: Outcome<(Doc, Id)>)
    requires DocOk(d)
    ensures r.Done? ==> DocOk(r.value.0)
  {
    if patch.domNode.None? || patch.domNode.value !in d.nodes then Crash
    else
      var x := patch.domNode.value;
      var node := d.nodes[x];
      match patch.change
      case Redraw(v) =>
        var (d1, n) := Render(d, v);
        if node.parent.None? then Done((d1, n))
        else
          var d2 :- ReplaceChild(d1, node.parent.value, n, x);
          Done((d2, n))
      case FactsChange(diff) =>
        if node.ElementNode? then Done((d.(nodes := d.nodes[x := node.(attrs := ApplyAttrs(node.attrs, diff))]), x))
        else Crash
      case TextChange(s) =>
        if node.TextNode? then Done((d.(nodes := d.nodes[x := node.(data := s)]), x)) else Crash
      case RemoveLast(n) =>
        var d1 :- RemoveLastChildren(d, x, n);
        Done((d1, x))
      case Append(vs) =>
        if node.ElementNode? then Done((RenderChildren(d, x, vs, 0), x)) else Crash
  }

  /** `applyPatchesHelp`: all patches in order, following the root node as it is replaced. */
  function ApplyAll(d: Doc, root: Id, patches: seq<Patch>): (r: Outcome<(Doc, Id)>)
    requires DocOk(d)
    ensures r.Done? ==> DocOk(r.value.0)
    decreases |patches|
  {
    if patches == [] then Done((d, root))
    else
      var (d1, n) :- ApplyPatch(d, patches[0]);
      ApplyAll(d1, if patches[0].domNode == Some(root) then n else root, patches[1..])
  }
}
