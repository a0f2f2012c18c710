/** Array operations on JavaScript objects. A node object refers to its `table` and `lengths`, which are arrays of their
    own that several nodes may share; operations copy what they write to, so every version made earlier stays. */
module RrbHeap {
  import opened Basics
  import opened RrbArray
  import opened RrbBuild

  type Addr = nat

  /** What there is at an address: a node object, or one of the arrays that node objects refer to. */
  datatype Cell<T> =
    | LeafObject(table: Addr)
    | NodeObject(height: nat, table: Addr, lengths: Addr)
    | Items(items: seq<T>)
    | Nodes(nodes: seq<Addr>)
    | Lengths(sums: seq<nat>)

  type Store<T> = map<Addr, Cell<T>>

  predicate ItemsAt<T(==)>(cells: Store<T>, x: Addr, items: seq<T>) {
    x in cells && cells[x] == Items(items)
  }

  predicate LeafAt<T(==)>(cells: Store<T>, x: Addr, items: seq<T>) {
    x in cells && cells[x].LeafObject? && ItemsAt(cells, cells[x].table, items)
  }

  predicate NodeAt<T(==)>(cells: Store<T>, x: Addr, h: nat, refs: seq<Addr>, lengths: seq<nat>) {
    && x in cells && cells[x].NodeObject? && cells[x].height == h
    && cells[x].table in cells && cells[cells[x].table] == Nodes(refs)
    && cells[x].lengths in cells && cells[cells[x].lengths] == Lengths(lengths)
  }

  predicate IsNode<T>(cells: Store<T>, x: Addr) {
    && x in cells && cells[x].NodeObject?
    && cells[x].table in cells && cells[cells[x].table].Nodes?
    && cells[x].lengths in cells && cells[cells[x].lengths].Lengths?
  }

  function RefsOf<T>(cells: Store<T>, x: Addr): seq<Addr>
    requires IsNode(cells, x)
  {
    cells[cells[x].table].nodes
  }

  /** The object at `x` and what it refers to form the tree `a`; anything may be shared. */
  ghost predicate Holds<T>(cells: Store<T>, x: Addr, a: Arr<T>)
    decreases a
  {
    match a
    case Leaf(items) => LeafAt(cells, x, items)
    case Node(h, nodes, lengths) =>
      && IsNode(cells, x) && NodeAt(cells, x, h, RefsOf(cells, x), lengths)
      && |RefsOf(cells, x)| == |nodes|
      && forall i {:trigger Holds(cells, RefsOf(cells, x)[i], nodes[i])} ::
           0 <= i < |nodes| ==> Holds(cells, RefsOf(cells, x)[i], nodes[i])
  }

  /** Nothing in `cells` has been written to. */
  ghost predicate Untouched<T(!new)>(cells: Store<T>, cells': Store<T>) {
    forall x :: x in cells ==> x in cells' && cells'[x] == cells[x]
  }

  /** Writing to what is new touches nothing old. */
  lemma OnlyNewTouched<T(!new)>(cells: Store<T>, cells': Store<T>, cells'': Store<T>, t: Addr)
    requires Untouched(cells, cells') && t !in cells && Untouched(cells' - {t}, cells'')
    ensures Untouched(cells, cells'')
  {
  }

  /** Every array made earlier is still what it was. */
  lemma {:induction false} StillHolds<T(!new)>(cells: Store<T>, cells': Store<T>, x: Addr, a: Arr<T>)
    requires Holds(cells, x, a) && Untouched(cells, cells')
    ensures Holds(cells', x, a)
    decreases a
  {
    if a.Node? {
      var refs := RefsOf(cells, x);
      assert RefsOf(cells', x) == refs;
      forall i | 0 <= i < |a.nodes|
        ensures Holds(cells', refs[i], a.nodes[i])
      {
        assert Holds(cells, RefsOf(cells, x)[i], a.nodes[i]);
        StillHolds(cells, cells', refs[i], a.nodes[i]);
      }
    }
  }

  ghost predicate AllHold<T>(cells: Store<T>, refs: seq<Addr>, nodes: seq<Arr<T>>) {
    |refs| == |nodes| && forall i {:trigger Holds(cells, refs[i], nodes[i])} :: 0 <= i < |nodes| ==> Holds(cells, refs[i], nodes[i])
  }

  lemma KidsHold<T>(cells: Store<T>, x: Addr, a: Arr<T>)
    requires a.Node? && Holds(cells, x, a)
    ensures IsNode(cells, x) && AllHold(cells, RefsOf(cells, x), a.nodes)
  {
    var refs := RefsOf(cells, x);
    forall i | 0 <= i < |a.nodes|
      ensures Holds(cells, refs[i], a.nodes[i])
    {
      assert Holds(cells, RefsOf(cells, x)[i], a.nodes[i]);
    }
  }

  lemma NodeHolds<T>(cells: Store<T>, x: Addr, a: Arr<T>, refs: seq<Addr>)
    requires a.Node? && NodeAt(cells, x, a.height, refs, a.lengths) && AllHold(cells, refs, a.nodes)
    ensures Holds(cells, x, a)
  {
    assert RefsOf(cells, x) == refs;
  }

  lemma AllStillHold<T(!new)>(cells: Store<T>, cells': Store<T>, refs: seq<Addr>, nodes: seq<Arr<T>>)
    requires AllHold(cells, refs, nodes) && Untouched(cells, cells')
    ensures AllHold(cells', refs, nodes)
  {
    forall i | 0 <= i < |nodes|
      ensures Holds(cells', refs[i], nodes[i])
    {
      StillHolds(cells, cells', refs[i], nodes[i]);
    }
  }

  /** One reference redirected to a new subtree. */
  lemma OneRedirected<T>(cells: Store<T>, refs: seq<Addr>, nodes: seq<Arr<T>>, s: nat, z: Addr, b: Arr<T>)
    requires AllHold(cells, refs, nodes) && s < |nodes| && Holds(cells, z, b)
    ensures AllHold(cells, refs[s := z], nodes[s := b])
  {
  }

  /** A copied node whose reference in one slot leads to a new subtree. */
  lemma SlotRedirected<T(!new)>(before: Store<T>, during: Store<T>, after: Store<T>, a: Arr<T>, refs: seq<Addr>,
                                s: nat, z: Addr, b: Arr<T>, y: Addr)
    requires a.Node? && AllHold(before, refs, a.nodes) && s < |a.nodes| && Holds(during, z, b)
    requires Untouched(before, after) && Untouched(during, after)
    requires NodeAt(after, y, a.height, refs[s := z], a.lengths)
    ensures Holds(after, y, Node(a.height, a.nodes[s := b], a.lengths))
  {
    StillHolds(during, after, z, b);
    AllStillHold(before, after, refs, a.nodes);
    OneRedirected(after, refs, a.nodes, s, z, b);
    NodeHolds(after, y, Node(a.height, a.nodes[s := b], a.lengths), refs[s := z]);
  }

  lemma SlotUpdated<T>(a: Arr<T>, h: nat, s: nat, b: Arr<T>, i: nat, item: T)
    requires a.Node? && Shaped(a, h) && HoldsIndex(a.nodes, s, i) && Shaped(b, h - 1)
    requires Elements(b) == Elements(a.nodes[s])[i - |Flat(a.nodes, s)| := item]
    requires Packed(a.nodes[s], h - 1) ==> Packed(b, h - 1)
    ensures var r := Node(a.height, a.nodes[s := b], a.lengths);
            Shaped(r, h) && i < |Elements(a)| && Elements(r) == Elements(a)[i := item] && (Packed(a, h) ==> Packed(r, h))
  {
    UpdatedShape(a, h, s, b);
    UpdatedElements(a, s, b, i, item);
    if Packed(a, h) {
      UpdatedPacked(a, h, s, b);
    }
  }

  lemma OneMore<T>(cells: Store<T>, refs: seq<Addr>, nodes: seq<Arr<T>>, z: Addr, b: Arr<T>)
    requires AllHold(cells, refs, nodes) && Holds(cells, z, b)
    ensures AllHold(cells, refs + [z], nodes + [b])
  {
  }

  lemma SiblingsHold<T(!new)>(cells: Store<T>, y: Addr, x: Addr, a: Arr<T>, z: Addr, b: Arr<T>)
    requires Holds(cells, x, a) && Holds(cells, z, b) && (a.Node? ==> a.lengths != []) && (b.Node? ==> b.lengths != [])
    requires NodeAt(cells, y, Height(a) + 1, [x, z], [Length(a), Length(a) + Length(b)])
    ensures Holds(cells, y, Siblise(a, b))
  {
    NodeHolds(cells, y, Siblise(a, b), [x, z]);
  }

  /** `array[i] = v`, one past the end included. A slot that `new Array(n)` has made counts as there once written. */
  function Put<A>(s: seq<A>, i: nat, v: A): seq<A>
    requires i <= |s|
  {
    if i == |s| then s + [v] else s[i := v]
  }

  lemma HiddenWrite<T>(cells: Store<T>, t: Addr, c: Cell<T>, busy: set<Addr>)
    requires t in busy
    ensures cells[t := c] - busy == cells - busy
  {
  }

  /** The first subtrees, mapped. */
  ghost predicate MappedSoFar<T>(f: (nat, T) -> T, nodes: seq<Arr<T>>, mapped: seq<Arr<T>>, from: nat, h: nat) {
    MapsKids(nodes, mapped, h) && Flat(mapped, |mapped|) == Mapped(f, Flat(nodes, |mapped|), from)
  }

  lemma OneMoreMapped<T>(f: (nat, T) -> T, a: Arr<T>, mapped: seq<Arr<T>>, kid: Arr<T>, from: nat, start: nat, h: nat)
    requires a.Node? && Shaped(a, h) && |mapped| < |a.nodes| && MappedSoFar(f, a.nodes, mapped, from, h - 1)
    requires start == if mapped == [] then from else from + a.lengths[|mapped| - 1]
    requires Shaped(kid, h - 1) && (Packed(a.nodes[|mapped|], h - 1) ==> Packed(kid, h - 1))
    requires Elements(kid) == Mapped(f, Elements(a.nodes[|mapped|]), start)
    ensures MappedSoFar(f, a.nodes, mapped + [kid], from, h - 1)
  {
    var i := |mapped|;
    MappedConcat(f, Flat(a.nodes, i), Elements(a.nodes[i]), from);
    MapsKidsMore(a.nodes, mapped, kid, h - 1);
  }

  lemma AllMapped<T>(f: (nat, T) -> T, a: Arr<T>, mapped: seq<Arr<T>>, from: nat, h: nat)
    requires a.Node? && Shaped(a, h) && |mapped| == |a.nodes| && MappedSoFar(f, a.nodes, mapped, from, h - 1)
    ensures var b := Node(a.height, mapped, a.lengths);
            Shaped(b, h) && Elements(b) == Mapped(f, Elements(a), from) && (Packed(a, h) ==> Packed(b, h))
  {
    MapsKidsShape(a, mapped, h);
  }

  class Heap<T(!new, ==)> {
    var cells: Store<T>
    var next: Addr

    ghost predicate Valid()
      reads this
    {
      forall x :: x in cells ==> x < next
    }

    constructor ()
      ensures Valid() && cells == map[]
    {
      cells, next := map[], 0;
    }

    // -------------------------------------------------------------- what JavaScript does

    method Alloc(c: Cell<T>) returns (y: Addr)
      requires Valid()
      modifies this
      ensures Valid() && y == old(next) && next == y + 1 && y !in old(cells) && cells == old(cells)[y := c]
    {
      y := next;
      cells, next := cells[y := c], next + 1;
    }

    method PutItem(t: Addr, i: nat, item: T)
      requires t in cells && cells[t].Items? && i <= |cells[t].items|
      modifies this`cells
      ensures cells == old(cells)[t := Items(Put(old(cells)[t].items, i, item))]
    {
      cells := cells[t := Items(Put(cells[t].items, i, item))];
    }

    method PutNode(t: Addr, i: nat, z: Addr)
      requires t in cells && cells[t].Nodes? && i <= |cells[t].nodes|
      modifies this`cells
      ensures cells == old(cells)[t := Nodes(Put(old(cells)[t].nodes, i, z))]
    {
      cells := cells[t := Nodes(Put(cells[t].nodes, i, z))];
    }

    method PutLength(l: Addr, i: nat, n: nat)
      requires l in cells && cells[l].Lengths? && i <= |cells[l].sums|
      modifies this`cells
      ensures cells == old(cells)[l := Lengths(Put(old(cells)[l].sums, i, n))]
    {
      cells := cells[l := Lengths(Put(cells[l].sums, i, n))];
    }

    /** An object literal with two array literals. */
    method NewNode(h: nat, refs: seq<Addr>, sums: seq<nat>) returns (y: Addr)
      requires Valid()
      modifies this
      ensures Valid() && Untouched(old(cells), cells) && old(next) <= next && NodeAt(cells, y, h, refs, sums)
    {
      var table := Alloc(Nodes(refs));
      var lengths := Alloc(Lengths(sums));
      y := Alloc(NodeObject(h, table, lengths));
    }

    /** A reference and a length are written into the arrays of a new object. */
    method PutEntry(y: Addr, i: nat, z: Addr, n: nat, ghost refs: seq<Addr>, ghost sums: seq<nat>, ghost base: Store<T>)
      requires Valid() && y in cells && cells[y].NodeObject? && NodeAt(cells, y, cells[y].height, refs, sums)
      requires Untouched(base, cells) && cells[y].table !in base && cells[y].lengths !in base
      requires i <= |refs| && i <= |sums|
      modifies this
      ensures Valid() && Untouched(base, cells)
      ensures NodeAt(cells, y, old(cells[y].height), Put(refs, i, z), Put(sums, i, n))
    {
      PutNode(cells[y].table, i, z);
      PutLength(cells[y].lengths, i, n);
    }

    // -------------------------------------------------------------- the library

    /** `nodeCopy` of a leaf: a new object with a `slice()` of the table. */
    method CopyLeaf(x: Addr) returns (y: Addr)
      requires Valid() && x in cells && cells[x].LeafObject? && cells[x].table in cells && cells[cells[x].table].Items?
      modifies this
      ensures Valid() && Untouched(old(cells), cells) && old(next) <= next
      ensures LeafAt(cells, y, old(cells[cells[x].table].items)) && old(next) <= y && old(next) <= cells[y].table
    {
      var table := Alloc(cells[cells[x].table]);
      y := Alloc(LeafObject(table));
    }

    /** `nodeCopy` of an inner node: a new object with a `slice()` of both arrays. */
    method CopyNode(x: Addr) returns (y: Addr)
      requires Valid() && IsNode(cells, x)
      modifies this
      ensures Valid() && Untouched(old(cells), cells) && old(next) <= next
      ensures NodeAt(cells, y, old(cells[x].height), old(RefsOf(cells, x)), old(cells[cells[x].lengths].sums))
      ensures old(next) <= y && old(next) <= cells[y].table && old(next) <= cells[y].lengths
    {
      var table := Alloc(cells[cells[x].table]);
      var lengths := Alloc(cells[cells[x].lengths]);
      y := Alloc(NodeObject(cells[x].height, table, lengths));
    }

    /** `length`. */
    method LengthOf(x: Addr, ghost a: Arr<T>) returns (n: nat)
      requires Holds(cells, x, a) && (a.Node? ==> a.lengths != [])
      ensures n == Length(a)
    {
      if cells[x].LeafObject? {
        return |cells[cells[x].table].items|;
      }
      var sums := cells[cells[x].lengths].sums;
      return sums[|sums| - 1];
    }

    /** `getSlot` on an object. */
    method FindSlot(i: nat, x: Addr, ghost a: Arr<T>, ghost h: nat) returns (slot: nat)
      requires a.Node? && IsNode(cells, x) && NodeAt(cells, x, a.height, RefsOf(cells, x), a.lengths)
      requires Shaped(a, h) && h <= 6 && i < |Elements(a)| && i < TWO31
      ensures HoldsIndex(a.nodes, slot, i)
    {
      ghost var s := SlotExists(a.nodes, |a.nodes|, i);
      GuessNeverOvershoots(a, h, i, s);
      slot := ShiftRight(i, 5 * cells[x].height);
      while cells[cells[x].lengths].sums[slot] <= i
        invariant slot <= s
        invariant slot > ShiftRight(i, 5 * h) ==> |Flat(a.nodes, slot)| <= i
        decreases s - slot
      {
        slot := slot + 1;
      }
      FlatGrows(a.nodes, slot + 1, s + 1);
      FlatGrows(a.nodes, slot, s);
    }

    /** `unsafeSet`. The tables in `busy` belong to copies still being worked on further up; no tree uses them. */
    method UnsafeSet(i: nat, item: T, x: Addr, ghost a: Arr<T>, ghost h: nat, ghost busy: set<Addr>)
      returns (y: Addr, ghost b: Arr<T>)
      requires Valid() && Holds(cells - busy, x, a) && (forall z :: z in busy ==> z < next)
      requires Shaped(a, h) && h <= 6 && i < |Elements(a)| && i < TWO31
      modifies this
      ensures Valid() && Untouched(old(cells), cells) && old(next) <= next
      ensures Holds(cells - busy, y, b) && Shaped(b, h) && Elements(b) == Elements(a)[i := item]
      ensures Packed(a, h) ==> Packed(b, h)
      decreases h, 2
    {
      if cells[x].LeafObject? {
        y := CopyLeaf(x);
        PutItem(cells[y].table, i, item);
        b := Leaf(a.table[i := item]);
      } else {
        y, b := UnsafeSetBelow(i, item, x, a, h, busy);
      }
    }

    method UnsafeSetBelow(i: nat, item: T, x: Addr, ghost a: Arr<T>, ghost h: nat, ghost busy: set<Addr>)
      returns (y: Addr, ghost b: Arr<T>)
      requires Valid() && Holds(cells - busy, x, a) && (forall z :: z in busy ==> z < next)
      requires Shaped(a, h) && h <= 6 && i < |Elements(a)| && i < TWO31 && a.Node?
      modifies this
      ensures Valid() && Untouched(old(cells), cells) && old(next) <= next
      ensures Holds(cells - busy, y, b) && Shaped(b, h) && Elements(b) == Elements(a)[i := item]
      ensures Packed(a, h) ==> Packed(b, h)
      decreases h, 1
    {
      ghost var before := cells - busy;
      KidsHold(before, x, a);
      ghost var refs := RefsOf(before, x);
      y := CopyNode(x);
      ghost var copied, table := cells, cells[y].table;
      var slot := FindSlot(i, y, a, h);
      var j: nat := i;
      if slot > 0 {
        j := j - cells[cells[y].lengths].sums[slot - 1];
      }
      ghost var kid := SetSlot(y, slot, j, item, a, h, refs, before, busy);
      b := Node(a.height, a.nodes[slot := kid], a.lengths);
      OnlyNewTouched(old(cells), copied, cells, table);
      SlotUpdated(a, h, slot, kid, i, item);
    }

    /** `array.table[slot] = unsafeSet(i, item, array.table[slot])`, for a copy of a node that was there `before`. */
    method SetSlot(y: Addr, slot: nat, i: nat, item: T, ghost a: Arr<T>, ghost h: nat, ghost refs: seq<Addr>,
                   ghost before: Store<T>, ghost busy: set<Addr>)
      returns (ghost kid: Arr<T>)
      requires Valid() && a.Node? && NodeAt(cells - busy, y, a.height, refs, a.lengths) && AllHold(before, refs, a.nodes)
      requires Untouched(before, cells - busy) && cells[y].table !in before && (forall z :: z in busy ==> z < next)
      requires h <= 6 && slot < |a.nodes| && Shaped(a, h) && i < |Elements(a.nodes[slot])| && i < TWO31
      modifies this
      ensures Valid() && old(next) <= next && Untouched(old(cells) - {old(cells[y].table)}, cells)
      ensures Holds(cells - busy, y, Node(a.height, a.nodes[slot := kid], a.lengths))
      ensures Shaped(kid, h - 1) && Elements(kid) == Elements(a.nodes[slot])[i := item]
      ensures Packed(a.nodes[slot], h - 1) ==> Packed(kid, h - 1)
      decreases h, 0
    {
      var table := cells[y].table;
      ghost var working := busy + {table};
      var child := cells[table].nodes[slot];
      assert Shaped(a.nodes[slot], h - 1);
      StillHolds(before, cells - working, child, a.nodes[slot]);
      var z;
      z, kid := UnsafeSet(i, item, child, a.nodes[slot], h - 1, working);
      ghost var during := cells - working;
      PutNode(table, slot, z);
      SlotRedirected(before, during, cells - busy, a, refs, slot, z, kid, y);
    }

    /** `set`: a new array, or the same one when the index is out of range. Every array that existed before,
        `set`'s argument included, is exactly what it was. */
    method Set(i: int, item: T, x: Addr, ghost a: Arr<T>, ghost h: nat) returns (y: Addr, ghost b: Arr<T>)
      requires Valid() && Holds(cells, x, a) && Shaped(a, h) && h <= 6 && |Elements(a)| < TWO31
      modifies this
      ensures Valid() && Untouched(old(cells), cells)
      ensures Holds(cells, y, b) && Shaped(b, h) && (Good(a, h) ==> Good(b, h))
      ensures Elements(b) == if 0 <= i < |Elements(a)| then Elements(a)[i := item] else Elements(a)
      ensures forall z, c :: Holds(old(cells), z, c) ==> Holds(cells, z, c)
    {
      ShapedLength(a, h);
      var length := LengthOf(x, a);
      if i < 0 || length <= i {
        y, b := x, a;
      } else {
        assert cells - {} == cells;
        y, b := UnsafeSet(i, item, x, a, h, {});
        assert cells - {} == cells;
      }
      EarlierHold(old(cells), cells);
    }

    /** `create`: a chain of new objects down to one item. */
    method CreateChain(item: T, h: nat) returns (y: Addr)
      requires Valid()
      modifies this
      ensures Valid() && Untouched(old(cells), cells) && Holds(cells, y, Create(item, h)) && old(next) <= next
      decreases h
    {
      if h == 0 {
        var table := Alloc(Items([item]));
        y := Alloc(LeafObject(table));
      } else {
        var kid := CreateChain(item, h - 1);
        ghost var before := cells;
        y := NewNode(h, [kid], [1]);
        StillHolds(before, cells, kid, Create(item, h - 1));
        NodeHolds(cells, y, Create(item, h), [kid]);
      }
    }

    /** `push_`: a copy of the right edge with the item on it, or nothing when there is no room. */
    method PushInto(item: T, x: Addr, ghost a: Arr<T>, ghost h: nat) returns (y: Option<Addr>)
      requires Valid() && Holds(cells, x, a) && Shaped(a, h)
      modifies this
      ensures Valid() && Untouched(old(cells), cells)
      ensures y.Some? <==> RrbArray.PushInto(item, a).Some?
      ensures y.Some? ==> Holds(cells, y.value, RrbArray.PushInto(item, a).value)
      decreases h
    {
      if cells[x].LeafObject? {
        var n := |cells[cells[x].table].items|;
        if n < M {
          var z := CopyLeaf(x);
          PutItem(cells[z].table, n, item);
          return Some(z);
        }
        return None;
      }
      KidsHold(cells, x, a);
      var refs := RefsOf(cells, x);
      var last := |refs| - 1;
      assert Shaped(a.nodes[last], h - 1);
      var pushed := PushInto(item, refs[last], a.nodes[last], h - 1);
      StillHolds(old(cells), cells, x, a);
      if pushed.Some? {
        var z := ReplaceLast(x, a, h, pushed.value, RrbArray.PushInto(item, a.nodes[last]).value);
        return Some(z);
      }
      if |cells[cells[x].table].nodes| < M {
        var z := AppendSlot(item, x, a, h);
        ShapedLength(Create(item, h - 1), h - 1);
        return Some(z);
      }
      return None;
    }

    /** A copy of a node with another last subtree, one item longer. */
    method ReplaceLast(x: Addr, ghost a: Arr<T>, ghost h: nat, z: Addr, ghost b: Arr<T>) returns (y: Addr)
      requires Valid() && a.Node? && Holds(cells, x, a) && Shaped(a, h) && Holds(cells, z, b)
      modifies this
      ensures Valid() && Untouched(old(cells), cells)
      ensures Holds(cells, y, WithNewLast(a, b, a.lengths[|a.lengths| - 1] + 1))
    {
      KidsHold(cells, x, a);
      ghost var refs := RefsOf(cells, x);
      y := CopyNode(x);
      var last := |cells[cells[y].table].nodes| - 1;
      PutEntry(y, last, z, cells[cells[y].lengths].sums[last] + 1, refs, a.lengths, old(cells));
      StillHolds(old(cells), cells, z, b);
      AllStillHold(old(cells), cells, refs, a.nodes);
      OneRedirected(cells, refs, a.nodes, last, z, b);
      NodeHolds(cells, y, WithNewLast(a, b, a.lengths[last] + 1), refs[last := z]);
    }

    /** A copy of a node with a new slot that holds the item alone. */
    method AppendSlot(item: T, x: Addr, ghost a: Arr<T>, ghost h: nat) returns (y: Addr)
      requires Valid() && a.Node? && Holds(cells, x, a) && Shaped(a, h)
      modifies this
      ensures Valid() && Untouched(old(cells), cells)
      ensures Holds(cells, y, WithOneMore(a, Create(item, h - 1), a.lengths[|a.lengths| - 1] + 1))
    {
      KidsHold(cells, x, a);
      ghost var refs, b := RefsOf(cells, x), Create(item, h - 1);
      var newSlot := CreateChain(item, cells[x].height - 1);
      ghost var mid := cells;
      y := CopyNode(x);
      var n := |cells[cells[y].table].nodes|;
      PutEntry(y, n, newSlot, cells[cells[y].lengths].sums[n - 1] + 1, refs, a.lengths, mid);
      StillHolds(mid, cells, newSlot, b);
      AllStillHold(old(cells), cells, refs, a.nodes);
      OneMore(cells, refs, a.nodes, newSlot, b);
      NodeHolds(cells, y, WithOneMore(a, b, a.lengths[n - 1] + 1), refs + [newSlot]);
    }

    /** `push`: a new array with the item at the end. Every array that existed before is exactly what it was. */
    method Push(item: T, x: Addr, ghost a: Arr<T>, ghost h: nat) returns (y: Addr)
      requires Valid() && Holds(cells, x, a) && Shaped(a, h)
      modifies this
      ensures Valid() && Untouched(old(cells), cells)
      ensures Holds(cells, y, RrbArray.Push(item, a)) && Elements(RrbArray.Push(item, a)) == Elements(a) + [item]
      ensures forall z, c :: Holds(old(cells), z, c) ==> Holds(cells, z, c)
    {
      PushAppends(item, a, h);
      var pushed := PushInto(item, x, a, h);
      if pushed.Some? {
        y := pushed.value;
      } else {
        StillHolds(old(cells), cells, x, a);
        y := NewRoot(item, x, a, h);
      }
      EarlierHold(old(cells), cells);
    }

    /** `siblise` of an array and a new tree for the item. */
    method NewRoot(item: T, x: Addr, ghost a: Arr<T>, ghost h: nat) returns (y: Addr)
      requires Valid() && Holds(cells, x, a) && Shaped(a, h)
      modifies this
      ensures Valid() && Untouched(old(cells), cells) && Holds(cells, y, Siblise(a, Create(item, h)))
    {
      ghost var b := Create(item, h);
      ShapedLength(b, h);
      var height := if cells[x].LeafObject? then 0 else cells[x].height;
      var length := LengthOf(x, a);
      var tree := CreateChain(item, height);
      ghost var mid := cells;
      y := NewNode(height + 1, [x, tree], [length, length + 1]);
      StillHolds(old(cells), cells, x, a);
      StillHolds(mid, cells, tree, b);
      SiblingsHold(cells, y, x, a, tree, b);
    }

    /** `indexedMap_`: new objects with new tables, which share the `lengths` of the old ones. */
    method IndexedMapFrom(f: (nat, T) -> T, x: Addr, from: nat, ghost a: Arr<T>, ghost h: nat, ghost busy: set<Addr>)
      returns (y: Addr, ghost b: Arr<T>)
      requires Valid() && Holds(cells - busy, x, a) && Shaped(a, h) && (forall z :: z in busy ==> z < next)
      modifies this
      ensures Valid() && Untouched(old(cells), cells) && old(next) <= next
      ensures Holds(cells - busy, y, b) && Shaped(b, h) && Elements(b) == Mapped(f, Elements(a), from)
      ensures a.Node? ==> b.Node? && cells[y].lengths == old(cells[x].lengths)
      ensures Packed(a, h) ==> Packed(b, h)
      decreases h, 2
    {
      if cells[x].LeafObject? {
        y := MapItems(f, x, from, a);
        b := Leaf(Mapped(f, a.table, from));
        assert LeafAt(cells - busy, y, Mapped(f, a.table, from));
      } else {
        y, b := MapNodes(f, x, from, a, h, busy);
      }
    }

    method MapItems(f: (nat, T) -> T, x: Addr, from: nat, ghost a: Arr<T>) returns (y: Addr)
      requires Valid() && a.Leaf? && Holds(cells, x, a)
      modifies this
      ensures Valid() && Untouched(old(cells), cells) && old(next) <= next
      ensures LeafAt(cells, y, Mapped(f, a.table, from)) && old(next) <= y && old(next) <= cells[y].table
    {
      var table := Alloc(Items([]));
      y := Alloc(LeafObject(table));
      for i := 0 to |cells[cells[x].table].items|
        invariant Valid() && Untouched(old(cells), cells) && old(next) <= next
        invariant y in cells && cells[y] == LeafObject(table)
        invariant ItemsAt(cells, table, Mapped(f, a.table[..i], from))
      {
        PutItem(table, i, f(from + i, cells[cells[x].table].items[i]));
        assert Mapped(f, a.table[..i + 1], from) == Mapped(f, a.table[..i], from) + [f(from + i, a.table[i])];
      }
      assert a.table[..|a.table|] == a.table;
    }

    method MapNodes(f: (nat, T) -> T, x: Addr, from: nat, ghost a: Arr<T>, ghost h: nat, ghost busy: set<Addr>)
      returns (y: Addr, ghost b: Arr<T>)
      requires Valid() && Holds(cells - busy, x, a) && Shaped(a, h) && (forall z :: z in busy ==> z < next) && a.Node?
      modifies this
      ensures Valid() && Untouched(old(cells), cells) && old(next) <= next
      ensures Holds(cells - busy, y, b) && Shaped(b, h) && Elements(b) == Mapped(f, Elements(a), from)
      ensures a.Node? ==> b.Node? && cells[y].lengths == old(cells[x].lengths)
      ensures Packed(a, h) ==> Packed(b, h)
      decreases h, 1
    {
      ghost var before := cells - busy;
      KidsHold(before, x, a);
      var table := Alloc(Nodes([]));
      y := Alloc(NodeObject(cells[x].height, table, cells[x].lengths));
      ghost var made := cells;
      ghost var nodes := MapTable(f, x, table, from, a, h, before, busy + {table});
      OnlyNewTouched(old(cells), made, cells, table);
      b := Node(a.height, nodes, a.lengths);
      AllMapped(f, a, nodes, from, h);
      AllStillHold(cells - (busy + {table}), cells - busy, cells[table].nodes, nodes);
      NodeHolds(cells - busy, y, b, cells[table].nodes);
    }

    /** The loop over the table of a node that was there `before`. */
    method MapTable(f: (nat, T) -> T, x: Addr, table: Addr, from: nat, ghost a: Arr<T>, ghost h: nat,
                    ghost before: Store<T>, ghost busy: set<Addr>)
      returns (ghost nodes: seq<Arr<T>>)
      requires Valid() && a.Node? && Shaped(a, h) && Holds(before, x, a) && AllHold(before, RefsOf(before, x), a.nodes)
      requires Untouched(before, cells - busy) && (forall z :: z in busy ==> z < next)
      requires table in busy && table in cells && cells[table] == Nodes([])
      modifies this
      ensures Valid() && old(next) <= next && Untouched(old(cells) - {table}, cells) && Untouched(before, cells - busy)
      ensures table in cells && cells[table].Nodes? && AllHold(cells - busy, cells[table].nodes, nodes)
      ensures |nodes| == |a.nodes| && MappedSoFar(f, a.nodes, nodes, from, h - 1)
      decreases h, 0
    {
      nodes := [];
      for i := 0 to |cells[cells[x].table].nodes|
        invariant Valid() && old(next) <= next && Untouched(old(cells) - {table}, cells) && Untouched(before, cells - busy)
        invariant table in cells && cells[table].Nodes? && AllHold(cells - busy, cells[table].nodes, nodes)
        invariant |nodes| == i && MappedSoFar(f, a.nodes, nodes, from, h - 1)
      {
        var ref := cells[cells[x].table].nodes[i];
        var start := if i == 0 then from else from + cells[cells[x].lengths].sums[i - 1];
        assert Shaped(a.nodes[i], h - 1);
        StillHolds(before, cells - busy, ref, a.nodes[i]);
        ghost var kid := MapSlot(f, ref, start, a.nodes[i], h - 1, table, nodes, busy);
        OneMoreMapped(f, a, nodes, kid, from, start, h);
        nodes := nodes + [kid];
      }
    }

    /** One turn of the loop: a mapped subtree is written into the next slot of the new table. */
    method MapSlot(f: (nat, T) -> T, ref: Addr, start: nat, ghost b: Arr<T>, ghost h: nat,
                   table: Addr, ghost nodes: seq<Arr<T>>, ghost busy: set<Addr>)
      returns (ghost kid: Arr<T>)
      requires Valid() && Holds(cells - busy, ref, b) && Shaped(b, h) && (forall z :: z in busy ==> z < next)
      requires table in busy && table in cells && cells[table].Nodes? && AllHold(cells - busy, cells[table].nodes, nodes)
      modifies this
      ensures Valid() && old(next) <= next && Untouched(old(cells) - {table}, cells)
      ensures table in cells && cells[table].Nodes? && AllHold(cells - busy, cells[table].nodes, nodes + [kid])
      ensures Shaped(kid, h) && Elements(kid) == Mapped(f, Elements(b), start) && (Packed(b, h) ==> Packed(kid, h))
      decreases h, 3
    {
      ghost var zs := cells[table].nodes;
      var z;
      z, kid := IndexedMapFrom(f, ref, start, b, h, busy);
      AllStillHold(old(cells) - busy, cells - busy, zs, nodes);
      OneMore(cells - busy, zs, nodes, z, kid);
      HiddenWrite(cells, table, Nodes(zs + [z]), busy);
      PutNode(table, |cells[table].nodes|, z);
    }

    /** `indexedMap`, which shares `lengths`. Every array that existed before is exactly what it was. */
    method IndexedMap(f: (nat, T) -> T, x: Addr, ghost a: Arr<T>, ghost h: nat) returns (y: Addr, ghost b: Arr<T>)
      requires Valid() && Holds(cells, x, a) && Shaped(a, h)
      modifies this
      ensures Valid() && Untouched(old(cells), cells)
      ensures Holds(cells, y, b) && Shaped(b, h) && (Good(a, h) ==> Good(b, h)) && Elements(b) == Mapped(f, Elements(a), 0)
      ensures a.Node? ==> b.Node? && cells[y].lengths == old(cells[x].lengths)
      ensures forall z, c :: Holds(old(cells), z, c) ==> Holds(cells, z, c)
    {
      assert cells - {} == cells;
      y, b := IndexedMapFrom(f, x, 0, a, h, {});
      assert cells - {} == cells;
      EarlierHold(old(cells), cells);
    }

    /** `map` goes the same way without the index. */
    method Map(f: T -> T, x: Addr, ghost a: Arr<T>, ghost h: nat) returns (y: Addr, ghost b: Arr<T>)
      requires Valid() && Holds(cells, x, a) && Shaped(a, h)
      modifies this
      ensures Valid() && Untouched(old(cells), cells)
      ensures Holds(cells, y, b) && Shaped(b, h) && (Good(a, h) ==> Good(b, h))
      ensures Elements(b) == seq(|Elements(a)|, i requires 0 <= i < |Elements(a)| => f(Elements(a)[i]))
      ensures a.Node? ==> b.Node? && cells[y].lengths == old(cells[x].lengths)
    {
      y, b := IndexedMap((_, item) => f(item), x, a, h);
    }

    // -------------------------------------------------------------- runs

    method Empty() returns (y: Addr)
      requires Valid()
      modifies this
      ensures Valid() && Untouched(old(cells), cells) && Holds(cells, y, Leaf([]))
    {
      var table := Alloc(Items([]));
      y := Alloc(LeafObject(table));
    }

    /** One operation on an array that the library hands out. */
    method Apply(op: ArrayOp<T>, x: Addr, ghost a: Arr<T>, ghost h: nat) returns (y: Addr, ghost b: Arr<T>, ghost h': nat)
      requires Valid() && Holds(cells, x, a) && Good(a, h) && h <= 6 && |Elements(a)| < TWO31
      modifies this
      ensures Valid() && Untouched(old(cells), cells)
      ensures Holds(cells, y, b) && Good(b, h') && Elements(b) == OnSeq(Elements(a), op)
    {
      match op
      case PushOp(item) =>
        PushGood(item, a, h);
        y := Push(item, x, a, h);
        b := RrbArray.Push(item, a);
        h' := Height(b);
      case SetOp(i, item) =>
        y, b := Set(i, item, x, a, h);
        h' := h;
      case MapOp(f) =>
        y, b := IndexedMap(f, x, a, h);
        h' := h;
    }

    /** Any run of operations, each on any version made so far: at the end every version, old or new, is an array that
        the library relies on and has the elements it was made with. */
    method RunVersions(ops: seq<VersionOp<T>>) returns (roots: seq<Addr>, ghost trees: seq<Arr<T>>, ghost heights: seq<nat>)
      requires Valid() && |ops| < TWO31 && InRange(ops)
      modifies this
      ensures Valid() && Untouched(old(cells), cells) && AllHold(cells, roots, trees)
      ensures AreVersions(trees, heights, Versions(ops))
    {
      var empty := Empty();
      roots, trees, heights := [empty], [Leaf([])], [0];
      for k := 0 to |ops|
        invariant Valid() && Untouched(old(cells), cells) && AllHold(cells, roots, trees)
        invariant |roots| == k + 1 && AreVersions(trees, heights, Versions(ops[..k]))
      {
        ghost var v := ops[k].version;
        VersionsGrow(ops, k);
        VersionsBounded(ops[..k], v);
        GoodHeight(trees[v], heights[v]);
        ghost var before := cells;
        var y; ghost var b, h;
        y, b, h := Apply(ops[k].op, roots[ops[k].version], trees[v], heights[v]);
        AllStillHold(before, cells, roots, trees);
        OneMore(cells, roots, trees, y, b);
        OneMoreVersion(trees, heights, Versions(ops[..k]), b, h, OnSeq(Versions(ops[..k])[v], ops[k].op));
        roots, trees, heights := roots + [y], trees + [b], heights + [h];
      }
      assert ops[..|ops|] == ops;
    }
  }

  /** An operation on one of the versions made so far; its result is one version more. */
  datatype VersionOp<!T> = VersionOp(version: nat, op: ArrayOp<T>)

  predicate InRange<T>(ops: seq<VersionOp<T>>) {
    forall k :: 0 <= k < |ops| ==> ops[k].version <= k
  }

  /** What the versions should hold, the empty one first. */
  function Versions<T>(ops: seq<VersionOp<T>>): (r: seq<seq<T>>)
    requires InRange(ops)
    ensures |r| == |ops| + 1
  {
    if ops == [] then [[]]
    else
      var before := Versions(ops[..|ops| - 1]);
      before + [OnSeq(before[ops[|ops| - 1].version], ops[|ops| - 1].op)]
  }

  ghost predicate AreVersions<T>(trees: seq<Arr<T>>, heights: seq<nat>, contents: seq<seq<T>>) {
    && |trees| == |heights| == |contents|
    && forall k {:trigger Good(trees[k], heights[k])} ::
         0 <= k < |trees| ==> Good(trees[k], heights[k]) && Elements(trees[k]) == contents[k]
  }

  lemma OneMoreVersion<T>(trees: seq<Arr<T>>, heights: seq<nat>, contents: seq<seq<T>>, b: Arr<T>, h: nat, content: seq<T>)
    requires AreVersions(trees, heights, contents) && Good(b, h) && Elements(b) == content
    ensures AreVersions(trees + [b], heights + [h], contents + [content])
  {
  }

  lemma VersionsGrow<T>(ops: seq<VersionOp<T>>, k: nat)
    requires InRange(ops) && k < |ops|
    ensures var before := Versions(ops[..k]);
            Versions(ops[..k + 1]) == before + [OnSeq(before[ops[k].version], ops[k].op)]
  {
    assert ops[..k + 1][..k] == ops[..k];
  }

  lemma {:induction false} VersionsBounded<T>(ops: seq<VersionOp<T>>, k: nat)
    requires InRange(ops) && k <= |ops|
    ensures |Versions(ops)[k]| <= k
    decreases |ops|
  {
    if ops != [] {
      var front := ops[..|ops| - 1];
      VersionsBounded(front, if k < |ops| then k else ops[|ops| - 1].version);
    }
  }

  lemma EarlierHold<T(!new)>(cells: Store<T>, cells': Store<T>)
    requires Untouched(cells, cells')
    ensures forall z, c :: Holds(cells, z, c) ==> Holds(cells', z, c)
  {
    forall z, c | Holds(cells, z, c)
      ensures Holds(cells', z, c)
    {
      StillHolds(cells, cells', z, c);
    }
  }
}
