/** Elm's arrays: trees with tables of at most 32 entries and cumulative lengths, seen as sequences. */
module RrbArray {
  import opened Basics

  /** The maximal table size, `M`. */
  const M: nat := 32

  datatype Arr<T> =
    | Leaf(table: seq<T>)
    | Node(height: nat, nodes: seq<Arr<T>>, lengths: seq<nat>)

  function Height<T>(a: Arr<T>): nat {
    if a.Leaf? then 0 else a.height
  }

  /** `length`: the table's length, or the last cumulative length. */
  function Length<T>(a: Arr<T>): nat
    requires a.Node? ==> a.lengths != []
  {
    if a.Leaf? then |a.table| else a.lengths[|a.lengths| - 1]
  }

  /** The sequence an array stands for. */
  function Elements<T>(a: Arr<T>): seq<T>
    decreases a, 1, 0
  {
    match a
    case Leaf(table) => table
    case Node(_, nodes, _) => Flat(nodes, |nodes|)
  }

  /** The elements of the first `n` subtrees. */
  function Flat<T>(nodes: seq<Arr<T>>, n: nat): seq<T>
    requires n <= |nodes|
    decreases nodes, 0, n
  {
    if n == 0 then [] else Flat(nodes, n - 1) + Elements(nodes[n - 1])
  }

  /** 32 to the power `h`. */
  function Pow32(h: nat): (p: nat)
    ensures p > 0
  {
    if h == 0 then 1 else M * Pow32(h - 1)
  }

  ghost predicate ExactLengths<T>(nodes: seq<Arr<T>>, lengths: seq<nat>) {
    |lengths| == |nodes| && forall i :: 0 <= i < |nodes| ==> lengths[i] == |Flat(nodes, i + 1)|
  }

  /** All leaves at depth `h`, tables of at most 32, no empty inner table, exact cumulative lengths. */
  ghost predicate Shaped<T>(a: Arr<T>, h: nat) {
    match a
    case Leaf(table) => h == 0 && |table| <= M
    case Node(height, nodes, lengths) =>
      && height == h > 0
      && 1 <= |nodes| <= M
      && ExactLengths(nodes, lengths)
      && forall i {:trigger Shaped(nodes[i], h - 1)} :: 0 <= i < |nodes| ==> Shaped(nodes[i], h - 1)
  }

  lemma ShapedLength<T>(a: Arr<T>, h: nat)
    requires Shaped(a, h)
    ensures Length(a) == |Elements(a)|
  {
  }

  /** A tree of height `h` holds at most 32 to the power `h + 1` elements. */
  lemma {:induction false} ShapedBound<T>(a: Arr<T>, h: nat)
    requires Shaped(a, h)
    ensures |Elements(a)| <= Pow32(h + 1)
    decreases a, 1, 0
  {
    if a.Node? {
      FlatBound(a.nodes, h - 1, |a.nodes|);
      MulMono(|a.nodes|, M, Pow32(h));
    } else {
      assert Pow32(1) == M * Pow32(0);
    }
  }

  lemma {:induction false} FlatBound<T>(nodes: seq<Arr<T>>, h: nat, n: nat)
    requires n <= |nodes| && forall i :: 0 <= i < |nodes| ==> Shaped(nodes[i], h)
    ensures |Flat(nodes, n)| <= n * Pow32(h + 1)
    decreases nodes, 0, n
  {
    if n > 0 {
      FlatBound(nodes, h, n - 1);
      ShapedBound(nodes[n - 1], h);
      MulStep(n - 1, Pow32(h + 1));
    }
  }

  lemma MulMono(a: nat, b: nat, c: nat)
    requires a <= b
    ensures a * c <= b * c
  {
  }

  lemma MulStep(n: nat, p: nat)
    ensures (n + 1) * p == n * p + p
  {
  }

  lemma DivLess(i: nat, s: nat, p: nat)
    requires p > 0 && i < (s + 1) * p
    ensures Quotient(i, p) <= s
  {
    if i / p > s {
      MulMono(s + 1, i / p, p);
    }
  }

  lemma {:induction false} FlatGrows<T>(nodes: seq<Arr<T>>, m: nat, n: nat)
    requires m <= n <= |nodes|
    ensures |Flat(nodes, m)| <= |Flat(nodes, n)| && Flat(nodes, n)[..|Flat(nodes, m)|] == Flat(nodes, m)
    decreases n
  {
    if m < n {
      FlatGrows(nodes, m, n - 1);
    }
  }

  // ---------------------------------------------------------------- indexing

  function Pow2(n: nat): (p: nat)
    ensures p > 0
  {
    if n == 0 then 1 else 2 * Pow2(n - 1)
  }

  const TWO31: nat := 0x8000_0000

  /** JavaScript's `i >> n`, for a number that is a non-negative 32-bit integer: only the last five bits
      of `n` count. */
  function ShiftRight(i: nat, n: nat): nat
    requires i < TWO31
  {
    Quotient(i, Pow2(n % 32))
  }

  function Quotient(i: nat, p: nat): nat
    requires p > 0
  {
    i / p
  }

  /** Shifting by 5 * h divides by 32 to the power h, as long as the shift is below 32. */
  lemma {:induction false} ShiftIsDivision(i: nat, h: nat)
    requires i < TWO31 && h <= 6
    ensures ShiftRight(i, 5 * h) == Quotient(i, Pow32(h))
  {
    assert 5 * h % 32 == 5 * h;
    Pow2Is32(h);
  }

  lemma {:induction false} Pow2Is32(h: nat)
    ensures Pow2(5 * h) == Pow32(h)
  {
    if h > 0 {
      Pow2Is32(h - 1);
      assert Pow2(5 * h) == 2 * Pow2(5 * h - 1) == 4 * Pow2(5 * h - 2) == 8 * Pow2(5 * h - 3);
      assert 8 * Pow2(5 * h - 3) == 16 * Pow2(5 * h - 4) == 32 * Pow2(5 * (h - 1));
    }
  }

  /** Slot `s` of the table holds index `i`. */
  ghost predicate HoldsIndex<T>(nodes: seq<Arr<T>>, s: nat, i: nat) {
    s < |nodes| && |Flat(nodes, s)| <= i < |Flat(nodes, s + 1)|
  }

  /** Some slot holds every index of a well-shaped node, and the radix guess does not overshoot it. */
  lemma {:induction false} SlotExists<T>(nodes: seq<Arr<T>>, n: nat, i: nat) returns (s: nat)
    requires n <= |nodes| && i < |Flat(nodes, n)|
    ensures s < n && HoldsIndex(nodes, s, i)
  {
    if i >= |Flat(nodes, n - 1)| {
      s := n - 1;
    } else {
      s := SlotExists(nodes, n - 1, i);
    }
  }

  lemma GuessNeverOvershoots<T>(a: Arr<T>, h: nat, i: nat, s: nat)
    requires a.Node? && Shaped(a, h) && h <= 6 && i < TWO31 && HoldsIndex(a.nodes, s, i)
    ensures ShiftRight(i, 5 * h) <= s
  {
    ShiftIsDivision(i, h);
    FlatBound(a.nodes, h - 1, s + 1);
    DivLess(i, s, Pow32(h));
  }

  /** `getSlot`: the radix guess, then a forward search in `lengths`. */
  method GetSlot<T>(i: nat, a: Arr<T>, ghost h: nat) returns (slot: nat)
    requires a.Node? && Shaped(a, h) && h <= 6 && i < |Elements(a)| && i < TWO31
    ensures HoldsIndex(a.nodes, slot, i)
  {
    ghost var s := SlotExists(a.nodes, |a.nodes|, i);
    GuessNeverOvershoots(a, h, i, s);
    slot := ShiftRight(i, 5 * a.height);
    while a.lengths[slot] <= i
      invariant slot <= s
      invariant slot > 0 && slot > ShiftRight(i, 5 * h) ==> |Flat(a.nodes, slot)| <= i
      decreases s - slot
    {
      slot := slot + 1;
    }
    FlatGrows(a.nodes, slot + 1, s + 1);
    FlatGrows(a.nodes, slot, s);
  }

  /** An index in slot `s` of a node, looked up in that slot. */
  lemma {:induction false} ElementAt<T>(nodes: seq<Arr<T>>, n: nat, s: nat, i: nat)
    requires s < n <= |nodes| && HoldsIndex(nodes, s, i)
    ensures i < |Flat(nodes, n)| && Flat(nodes, n)[i] == Elements(nodes[s])[i - |Flat(nodes, s)|]
    decreases n
  {
    FlatGrows(nodes, s + 1, n);
    if n > s + 1 {
      ElementAt(nodes, n - 1, s, i);
    }
  }

  /** `unsafeGet`: the loop down the tree. */
  method UnsafeGet<T>(index: nat, root: Arr<T>, ghost height: nat) returns (x: T)
    requires Shaped(root, height) && height <= 6 && index < |Elements(root)| && index < TWO31
    ensures x == Elements(root)[index]
  {
    var i: nat, a, h := index, root, Height(root);
    while h > 0
      invariant Shaped(a, h) && h <= 6 && i < |Elements(a)| && i < TWO31
      invariant Elements(a)[i] == Elements(root)[index]
      decreases h
    {
      var slot := GetSlot(i, a, h);
      ElementAt(a.nodes, |a.nodes|, slot, i);
      assert Shaped(a.nodes[slot], h - 1);
      if slot > 0 {
        i := i - a.lengths[slot - 1];
      }
      a, h := a.nodes[slot], h - 1;
    }
    return a.table[i];
  }

  /** `get` throws exactly outside the array's range. */
  method Get<T>(i: int, a: Arr<T>, ghost h: nat) returns (r: Outcome<T>)
    requires Shaped(a, h) && h <= 6 && |Elements(a)| < TWO31
    ensures r == if 0 <= i < |Elements(a)| then Done(Elements(a)[i]) else Crash
  {
    ShapedLength(a, h);
    if i < 0 || i >= Length(a) {
      return Crash;
    }
    var x := UnsafeGet(i, a, h);
    return Done(x);
  }

  // ---------------------------------------------------------------- set

  /** Replacing one subtree by another of the same length. */
  lemma {:induction false} FlatUpdate<T>(nodes: seq<Arr<T>>, n: nat, s: nat, b: Arr<T>)
    requires n <= |nodes| && s < |nodes| && |Elements(b)| == |Elements(nodes[s])|
    ensures |Flat(nodes[s := b], n)| == |Flat(nodes, n)|
    ensures s >= n ==> Flat(nodes[s := b], n) == Flat(nodes, n)
    ensures s < n ==> |Flat(nodes, s)| + |Elements(b)| <= |Flat(nodes, n)|
    ensures s < n ==> Flat(nodes[s := b], n) ==
                      Flat(nodes, n)[..|Flat(nodes, s)|] + Elements(b) + Flat(nodes, n)[|Flat(nodes, s)| + |Elements(b)|..]
    decreases n
  {
    if n > 0 {
      FlatUpdate(nodes, n - 1, s, b);
      if s < n - 1 {
        var (f, k, m) := (Flat(nodes, n - 1), |Flat(nodes, s)|, |Flat(nodes, s)| + |Elements(b)|);
        assert Flat(nodes[s := b], n) == Flat(nodes[s := b], n - 1) + Elements(nodes[n - 1]);
        ReplaceThenMore(f, k, Elements(b), m, Elements(nodes[n - 1]));
      } else if s == n - 1 {
        assert Flat(nodes[s := b], n) == Flat(nodes, s) + Elements(b);
        assert Flat(nodes, n)[..|Flat(nodes, s)|] == Flat(nodes, s);
      }
    }
  }

  lemma ReplaceThenMore<T>(f: seq<T>, k: nat, mid: seq<T>, m: nat, more: seq<T>)
    requires k <= m <= |f|
    ensures f[..k] + mid + f[m..] + more == (f + more)[..k] + mid + (f + more)[m..]
  {
  }

  /** `unsafeSet`: copy the nodes on the path to `i` and write the item into the copied leaf. */
  method UnsafeSet<T>(i: nat, item: T, a: Arr<T>, ghost h: nat) returns (r: Arr<T>)
    requires Shaped(a, h) && h <= 6 && i < |Elements(a)| && i < TWO31
    ensures Shaped(r, h) && Elements(r) == Elements(a)[i := item]
    ensures Packed(a, h) ==> Packed(r, h)
    decreases a
  {
    if a.Leaf? {
      return Leaf(a.table[i := item]);
    }
    var slot := GetSlot(i, a, h);
    var j: nat := i;
    if slot > 0 {
      j := j - a.lengths[slot - 1];
    }
    assert Shaped(a.nodes[slot], h - 1);
    var b := UnsafeSet(j, item, a.nodes[slot], h - 1);
    r := Node(a.height, a.nodes[slot := b], a.lengths);
    UpdatedShape(a, h, slot, b);
    UpdatedElements(a, slot, b, i, item);
    if Packed(a, h) {
      UpdatedPacked(a, h, slot, b);
    }
  }

  lemma UpdatedPacked<T>(a: Arr<T>, h: nat, s: nat, b: Arr<T>)
    requires a.Node? && Packed(a, h) && s < |a.nodes|
    requires Packed(a.nodes[s], h - 1) ==> Packed(b, h - 1)
    requires Shaped(b, h - 1) && |Elements(b)| == |Elements(a.nodes[s])|
    ensures Packed(Node(a.height, a.nodes[s := b], a.lengths), h)
  {
    UpdatedShape(a, h, s, b);
    FlatUpdate(a.nodes, |a.nodes|, s, b);
    assert Packed(a.nodes[s], h - 1);
    assert s < |a.nodes| - 1 ==> Full(a.nodes[s], h - 1);
  }

  lemma UpdatedShape<T>(a: Arr<T>, h: nat, s: nat, b: Arr<T>)
    requires a.Node? && Shaped(a, h) && s < |a.nodes| && Shaped(b, h - 1) && |Elements(b)| == |Elements(a.nodes[s])|
    ensures Shaped(Node(a.height, a.nodes[s := b], a.lengths), h)
  {
    forall i | 0 <= i < |a.nodes|
      ensures a.lengths[i] == |Flat(a.nodes[s := b], i + 1)|
    {
      FlatUpdate(a.nodes, i + 1, s, b);
    }
  }

  lemma UpdatedElements<T>(a: Arr<T>, s: nat, b: Arr<T>, i: nat, item: T)
    requires a.Node? && HoldsIndex(a.nodes, s, i)
    requires Elements(b) == Elements(a.nodes[s])[i - |Flat(a.nodes, s)| := item]
    ensures i < |Elements(a)| && Elements(Node(a.height, a.nodes[s := b], a.lengths)) == Elements(a)[i := item]
  {
    FlatUpdate(a.nodes, |a.nodes|, s, b);
    FlatGrows(a.nodes, s + 1, |a.nodes|);
    var e, m := Elements(a), |Flat(a.nodes, s)|;
    assert e[m..m + |Elements(b)|] == Elements(a.nodes[s]) by {
      forall k | 0 <= k < |Elements(b)|
        ensures e[m + k] == Elements(a.nodes[s])[k]
      {
        ElementAt(a.nodes, |a.nodes|, s, m + k);
      }
    }
  }

  /** `set` leaves the array alone when the index is out of range. */
  method Set<T>(i: int, item: T, a: Arr<T>, ghost h: nat) returns (r: Arr<T>)
    requires Shaped(a, h) && h <= 6 && |Elements(a)| < TWO31
    ensures Shaped(r, h) && (Good(a, h) ==> Good(r, h))
    ensures Elements(r) == if 0 <= i < |Elements(a)| then Elements(a)[i := item] else Elements(a)
  {
    ShapedLength(a, h);
    if i < 0 || Length(a) <= i {
      return a;
    }
    r := UnsafeSet(i, item, a, h);
  }

  // ---------------------------------------------------------------- push

  /** `create`: a tree of height `h` with one item. */
  function Create<T>(item: T, h: nat): (r: Arr<T>)
    ensures Packed(r, h) && Elements(r) == [item]
  {
    if h == 0 then Leaf([item])
    else
      var kid := Create(item, h - 1);
      assert Flat([kid], 1) == Flat([kid], 0) + Elements(kid);
      Node(h, [kid], [1])
  }

  /** `siblise`: two trees of one height under a new root. */
  function Siblise<T>(a: Arr<T>, b: Arr<T>): Arr<T>
    requires (a.Node? ==> a.lengths != []) && (b.Node? ==> b.lengths != [])
  {
    Node(Height(a) + 1, [a, b], [Length(a), Length(a) + Length(b)])
  }

  /** A node whose last subtree has been replaced. */
  function WithNewLast<T>(a: Arr<T>, b: Arr<T>, length: nat): Arr<T>
    requires a.Node? && a.nodes != [] && |a.lengths| == |a.nodes|
  {
    var last := |a.nodes| - 1;
    Node(a.height, a.nodes[last := b], a.lengths[last := length])
  }

  /** A node with one more subtree. */
  function WithOneMore<T>(a: Arr<T>, b: Arr<T>, length: nat): Arr<T>
    requires a.Node?
  {
    Node(a.height, a.nodes + [b], a.lengths + [length])
  }

  /** `push_`: put an item at the bottom right, if there is room. */
  function PushInto<T>(item: T, a: Arr<T>): Option<Arr<T>>
    requires Shaped(a, Height(a))
  {
    match a
    case Leaf(table) => if |table| < M then Some(Leaf(table + [item])) else None
    case Node(h, nodes, lengths) =>
      var last := |nodes| - 1;
      assert Shaped(nodes[last], h - 1);
      match PushInto(item, nodes[last])
      case Some(pushed) => Some(WithNewLast(a, pushed, lengths[last] + 1))
      case None =>
        if |nodes| < M then
          var newSlot := Create(item, h - 1);
          Some(WithOneMore(a, newSlot, lengths[last] + Length(newSlot)))
        else None
  }

  function Push<T>(item: T, a: Arr<T>): Arr<T>
    requires Shaped(a, Height(a))
  {
    match PushInto(item, a)
    case Some(pushed) => pushed
    case None => Siblise(a, Create(item, Height(a)))
  }

  /** A tree is full when it holds as many elements as its height allows. */
  ghost predicate Full<T>(a: Arr<T>, h: nat) {
    |Elements(a)| == Pow32(h + 1)
  }

  /** Filled from the left: every subtree but the last is full, and none is empty. */
  ghost predicate Packed<T>(a: Arr<T>, h: nat) {
    && Shaped(a, h)
    && Elements(a) != []
    && (a.Node? ==>
          && (forall i {:trigger Packed(a.nodes[i], h - 1)} :: 0 <= i < |a.nodes| ==> Packed(a.nodes[i], h - 1))
          && (forall i {:trigger Full(a.nodes[i], h - 1)} :: 0 <= i < |a.nodes| - 1 ==> Full(a.nodes[i], h - 1)))
  }

  lemma {:induction false} FlatPrefix<T>(nodes: seq<Arr<T>>, nodes': seq<Arr<T>>, n: nat)
    requires n <= |nodes| && n <= |nodes'| && nodes[..n] == nodes'[..n]
    ensures Flat(nodes, n) == Flat(nodes', n)
    decreases n
  {
    if n > 0 {
      assert nodes[n - 1] == nodes[..n][n - 1] == nodes'[..n][n - 1] == nodes'[n - 1];
      assert nodes[..n - 1] == nodes[..n][..n - 1] && nodes'[..n - 1] == nodes'[..n][..n - 1];
      FlatPrefix(nodes, nodes', n - 1);
    }
  }

  /** Putting `b` in the place of the last subtree, or after it. */
  lemma WithLast<T>(nodes: seq<Arr<T>>, lengths: seq<nat>, b: Arr<T>, nodes': seq<Arr<T>>, lengths': seq<nat>)
    requires ExactLengths(nodes, lengths) && nodes' != [] && |nodes'| - 1 <= |nodes|
    requires nodes' == nodes[..|nodes'| - 1] + [b]
    requires lengths' == lengths[..|nodes'| - 1] + [|Flat(nodes, |nodes'| - 1)| + |Elements(b)|]
    ensures ExactLengths(nodes', lengths') && Flat(nodes', |nodes'|) == Flat(nodes, |nodes'| - 1) + Elements(b)
  {
    var n := |nodes'| - 1;
    forall i | 0 <= i < n
      ensures lengths'[i] == |Flat(nodes', i + 1)|
    {
      assert nodes[..i + 1] == nodes'[..i + 1];
      FlatPrefix(nodes, nodes', i + 1);
    }
    assert nodes[..n] == nodes'[..n];
    FlatPrefix(nodes, nodes', n);
  }

  lemma KidsShaped<T>(nodes: seq<Arr<T>>, b: Arr<T>, nodes': seq<Arr<T>>, h: nat)
    requires nodes' == nodes + [b] && Shaped(b, h)
    requires forall i {:trigger Shaped(nodes[i], h)} :: 0 <= i < |nodes| ==> Shaped(nodes[i], h)
    ensures forall i {:trigger Shaped(nodes'[i], h)} :: 0 <= i < |nodes'| ==> Shaped(nodes'[i], h)
  {
    forall i | 0 <= i < |nodes'|
      ensures Shaped(nodes'[i], h)
    {
      assert i < |nodes| ==> Shaped(nodes[i], h);
    }
  }

  lemma NewLastShaped<T>(a: Arr<T>, b: Arr<T>, h: nat)
    requires a.Node? && Shaped(a, h) && Shaped(b, h - 1)
    ensures var last := |a.nodes| - 1;
            var r := WithNewLast(a, b, |Flat(a.nodes, last)| + |Elements(b)|);
            Shaped(r, h) && Elements(r) == Flat(a.nodes, last) + Elements(b)
  {
    var last := |a.nodes| - 1;
    var length := |Flat(a.nodes, last)| + |Elements(b)|;
    assert a.nodes[last := b] == a.nodes[..last] + [b];
    assert a.lengths[last := length] == a.lengths[..last] + [length];
    WithLast(a.nodes, a.lengths, b, a.nodes[last := b], a.lengths[last := length]);
    KidsShaped(a.nodes[..last], b, a.nodes[last := b], h - 1);
  }

  lemma OneMoreShaped<T>(a: Arr<T>, b: Arr<T>, h: nat)
    requires a.Node? && Shaped(a, h) && Shaped(b, h - 1) && |a.nodes| < M
    ensures var r := WithOneMore(a, b, |Elements(a)| + |Elements(b)|);
            Shaped(r, h) && Elements(r) == Elements(a) + Elements(b)
  {
    var length := |Elements(a)| + |Elements(b)|;
    assert a.nodes[..|a.nodes|] == a.nodes && a.lengths[..|a.nodes|] == a.lengths;
    WithLast(a.nodes, a.lengths, b, a.nodes + [b], a.lengths + [length]);
    KidsShaped(a.nodes, b, a.nodes + [b], h - 1);
  }

  /** What `push_` does with what came of the last subtree. */
  lemma PushIntoUnfolds<T>(item: T, a: Arr<T>, h: nat, z: Arr<T>)
    requires a.Node? && Shaped(a, h) && z == a.nodes[|a.nodes| - 1]
    ensures Shaped(z, h - 1)
    ensures PushInto(item, a) == match PushInto(item, z)
                                 case Some(pushed) => Some(WithNewLast(a, pushed, |Elements(a)| + 1))
                                 case None =>
                                   if |a.nodes| < M then Some(WithOneMore(a, Create(item, h - 1), |Elements(a)| + 1)) else None
  {
    ShapedLength(a, h);
    ShapedLength(Create(item, h - 1), h - 1);
  }

  lemma NewLastAppends<T>(item: T, a: Arr<T>, h: nat, z: Arr<T>, pushed: Arr<T>)
    requires a.Node? && Shaped(a, h) && z == a.nodes[|a.nodes| - 1]
    requires Shaped(pushed, h - 1) && Elements(pushed) == Elements(z) + [item]
    ensures var r := WithNewLast(a, pushed, |Elements(a)| + 1); Shaped(r, h) && Elements(r) == Elements(a) + [item]
  {
    var last := |a.nodes| - 1;
    NewLastShaped(a, pushed, h);
    assert Elements(a) == Flat(a.nodes, last) + Elements(z);
    assert Flat(a.nodes, last) + (Elements(z) + [item]) == Elements(a) + [item];
  }

  /** `push_` appends one element, or reports that there is no room. */
  lemma {:induction false} PushIntoAppends<T>(item: T, a: Arr<T>, h: nat)
    requires Shaped(a, h)
    ensures var r := PushInto(item, a); r.Some? ==> Shaped(r.value, h) && Elements(r.value) == Elements(a) + [item]
    decreases a
  {
    if a.Node? {
      var z := a.nodes[|a.nodes| - 1];
      PushIntoUnfolds(item, a, h, z);
      PushIntoAppends(item, z, h - 1);
      if PushInto(item, z).Some? {
        NewLastAppends(item, a, h, z, PushInto(item, z).value);
      } else if |a.nodes| < M {
        OneMoreShaped(a, Create(item, h - 1), h);
      }
    }
  }

  lemma FlatTwo<T>(a: Arr<T>, b: Arr<T>)
    ensures Flat([a, b], 1) == Elements(a) && Flat([a, b], 2) == Elements(a) + Elements(b)
    ensures ExactLengths([a, b], [|Elements(a)|, |Elements(a)| + |Elements(b)|])
  {
    assert Flat([a, b], 0) == [];
    assert Flat([a, b], 1) == [] + Elements(a);
  }

  lemma SibliseShaped<T>(a: Arr<T>, b: Arr<T>, h: nat)
    requires Shaped(a, h) && Shaped(b, h)
    ensures Shaped(Siblise(a, b), h + 1) && Elements(Siblise(a, b)) == Elements(a) + Elements(b)
  {
    ShapedLength(a, h);
    ShapedLength(b, h);
    FlatTwo(a, b);
  }

  /** `push` appends one element to any well-shaped array. */
  lemma PushAppends<T>(item: T, a: Arr<T>, h: nat)
    requires Shaped(a, h)
    ensures var r := Push(item, a);
            (Shaped(r, h) || Shaped(r, h + 1)) && Elements(r) == Elements(a) + [item]
  {
    PushIntoAppends(item, a, h);
    if PushInto(item, a).None? {
      SibliseShaped(a, Create(item, h), h);
    }
  }

  // ---------------------------------------------------------------- packed arrays

  /** The arrays the library hands out: empty, or filled from the left and no taller than needed. */
  ghost predicate Good<T>(a: Arr<T>, h: nat) {
    || (a == Leaf([]) && h == 0)
    || (Packed(a, h) && (h > 0 ==> Pow32(h) <= |Elements(a)|))
  }

  /** A full subtree followed by others: how many elements the first `n` hold. */
  lemma {:induction false} FlatFull<T>(nodes: seq<Arr<T>>, h: nat, n: nat)
    requires n <= |nodes| && forall i :: 0 <= i < n ==> Full(nodes[i], h)
    ensures |Flat(nodes, n)| == n * Pow32(h + 1)
    decreases n
  {
    if n > 0 {
      FlatFull(nodes, h, n - 1);
      MulStep(n - 1, Pow32(h + 1));
    }
  }

  /** How many elements a packed node holds. */
  lemma PackedSize<T>(a: Arr<T>, h: nat)
    requires a.Node? && Packed(a, h)
    ensures var last := |a.nodes| - 1;
            |Elements(a)| == last * Pow32(h) + |Elements(a.nodes[last])| && |Elements(a.nodes[last])| <= Pow32(h)
  {
    var last := |a.nodes| - 1;
    assert Packed(a.nodes[last], h - 1);
    FlatFull(a.nodes, h - 1, last);
    ShapedBound(a.nodes[last], h - 1);
  }

  /** A node with room in its last subtree is not full. */
  lemma RoomBelow<T>(a: Arr<T>, h: nat)
    requires a.Node? && Packed(a, h) && !Full(a.nodes[|a.nodes| - 1], h - 1)
    ensures !Full(a, h)
  {
    PackedSize(a, h);
    MulStep(|a.nodes| - 1, Pow32(h));
    MulMono(|a.nodes|, M, Pow32(h));
  }

  /** A node whose last subtree is full is full exactly when its table is. */
  lemma FullTable<T>(a: Arr<T>, h: nat)
    requires a.Node? && Packed(a, h) && Full(a.nodes[|a.nodes| - 1], h - 1)
    ensures Full(a, h) <==> |a.nodes| == M
  {
    PackedSize(a, h);
    MulStep(|a.nodes| - 1, Pow32(h));
    if |a.nodes| < M {
      MulMono(|a.nodes| + 1, M, Pow32(h));
      MulStep(|a.nodes|, Pow32(h));
    }
  }

  lemma NewLastPacked<T>(a: Arr<T>, b: Arr<T>, h: nat, length: nat)
    requires a.Node? && Packed(a, h) && Packed(b, h - 1) && Shaped(WithNewLast(a, b, length), h)
    requires Elements(WithNewLast(a, b, length)) != []
    ensures Packed(WithNewLast(a, b, length), h)
  {
    var nodes := WithNewLast(a, b, length).nodes;
    forall i | 0 <= i < |nodes|
      ensures Packed(nodes[i], h - 1) && (i < |nodes| - 1 ==> Full(nodes[i], h - 1))
    {
      if i < |nodes| - 1 {
        assert Packed(a.nodes[i], h - 1) && Full(a.nodes[i], h - 1);
      }
    }
  }

  lemma OneMorePacked<T>(a: Arr<T>, b: Arr<T>, h: nat, length: nat)
    requires a.Node? && Packed(a, h) && Packed(b, h - 1) && Shaped(WithOneMore(a, b, length), h)
    requires Full(a.nodes[|a.nodes| - 1], h - 1) && Elements(WithOneMore(a, b, length)) != []
    ensures Packed(WithOneMore(a, b, length), h)
  {
    var nodes := WithOneMore(a, b, length).nodes;
    forall i | 0 <= i < |nodes|
      ensures Packed(nodes[i], h - 1) && (i < |nodes| - 1 ==> Full(nodes[i], h - 1))
    {
      if i < |nodes| - 1 {
        assert Packed(a.nodes[i], h - 1) && (i < |a.nodes| - 1 ==> Full(a.nodes[i], h - 1));
      }
    }
  }

  /** What comes of a packed node, from what came of its last subtree `z`. */
  lemma PackedAfter<T>(a: Arr<T>, h: nat, z: Arr<T>, below: Option<Arr<T>>, newSlot: Arr<T>, r: Option<Arr<T>>)
    requires a.Node? && Packed(a, h) && z == a.nodes[|a.nodes| - 1] && Packed(newSlot, h - 1)
    requires (below.None? <==> Full(z, h - 1)) && (below.Some? ==> Packed(below.value, h - 1))
    requires r == if below.Some? then Some(WithNewLast(a, below.value, |Elements(a)| + 1))
                  else if |a.nodes| < M then Some(WithOneMore(a, newSlot, |Elements(a)| + 1)) else None
    requires r.Some? ==> Shaped(r.value, h) && Elements(r.value) != []
    ensures (r.None? <==> Full(a, h)) && (r.Some? ==> Packed(r.value, h))
  {
    if below.Some? {
      RoomBelow(a, h);
      NewLastPacked(a, below.value, h, |Elements(a)| + 1);
    } else {
      FullTable(a, h);
      if |a.nodes| < M {
        OneMorePacked(a, newSlot, h, |Elements(a)| + 1);
      }
    }
  }

  /** In a packed tree `push_` finds room exactly when the tree is not full, and keeps it packed. */
  lemma {:induction false} PushIntoPacked<T>(item: T, a: Arr<T>, h: nat)
    requires Packed(a, h)
    ensures PushInto(item, a).None? <==> Full(a, h)
    ensures PushInto(item, a).Some? ==> Packed(PushInto(item, a).value, h)
    decreases a
  {
    if a.Node? {
      var z := a.nodes[|a.nodes| - 1];
      assert Packed(z, h - 1);
      PushIntoPacked(item, z, h - 1);
      PushIntoUnfolds(item, a, h, z);
      PushIntoAppends(item, a, h);
      PackedAfter(a, h, z, PushInto(item, z), Create(item, h - 1), PushInto(item, a));
    } else {
      assert Pow32(1) == M * Pow32(0);
    }
  }

  /** `push` keeps every array the library hands out good. */
  lemma PushGood<T>(item: T, a: Arr<T>, h: nat)
    requires Good(a, h)
    ensures Good(Push(item, a), h) || Good(Push(item, a), h + 1)
    ensures Elements(Push(item, a)) == Elements(a) + [item]
  {
    PushAppends(item, a, h);
    if a == Leaf([]) {
    } else {
      PushIntoPacked(item, a, h);
      PushIntoAppends(item, a, h);
      if PushInto(item, a).None? {
        SibliseShaped(a, Create(item, h), h);
      }
    }
  }

  /** In a packed node the radix guess is the slot: there is nothing left to search. */
  lemma PackedGuessExact<T>(a: Arr<T>, h: nat, i: nat, s: nat)
    requires a.Node? && Packed(a, h) && h <= 6 && i < TWO31 && HoldsIndex(a.nodes, s, i)
    ensures ShiftRight(i, 5 * h) == s
  {
    GuessNeverOvershoots(a, h, i, s);
    ShiftIsDivision(i, h);
    FlatFull(a.nodes, h - 1, s);
    QuotientAtLeast(i, s, Pow32(h));
  }

  lemma QuotientAtLeast(i: nat, s: nat, p: nat)
    requires p > 0 && s * p <= i
    ensures s <= Quotient(i, p)
  {
    if i / p < s {
      MulMono(i / p + 1, s, p);
      MulStep(i / p, p);
    }
  }

  /** So far from 32-bit trouble: an array with fewer than 2 to the power 31 elements has height at most 6. */
  lemma GoodHeight<T>(a: Arr<T>, h: nat)
    requires Good(a, h) && |Elements(a)| < TWO31
    ensures h <= 6
  {
    if h > 6 {
      Pow32Mono(7, h);
    }
  }

  lemma {:induction false} Pow32Mono(a: nat, b: nat)
    requires a <= b
    ensures Pow32(a) <= Pow32(b)
    decreases b
  {
    if a < b {
      Pow32Mono(a, b - 1);
    }
  }
}
