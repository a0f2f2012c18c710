/** Building arrays from lists, functions and JavaScript arrays, and taking them apart again. */
module RrbBuild {
  import opened Basics
  import opened RrbArray

  // ---------------------------------------------------------------- fromList

  /** Entry `j` of `fromList`'s `nodes`: the finished subtrees of height `j`; the last may be partly filled. */
  ghost predicate Loose<T>(n: Arr<T>, j: nat) {
    && n.Node? && n.height == j + 1 && |n.nodes| < M && ExactLengths(n.nodes, n.lengths)
    && (forall i {:trigger Packed(n.nodes[i], j)} :: 0 <= i < |n.nodes| ==> Packed(n.nodes[i], j))
    && (forall i {:trigger Full(n.nodes[i], j)} :: 0 <= i < |n.nodes| - 1 ==> Full(n.nodes[i], j))
  }

  ghost predicate Strict<T>(n: Arr<T>, j: nat) {
    Loose(n, j) && forall i {:trigger Full(n.nodes[i], j)} :: 0 <= i < |n.nodes| ==> Full(n.nodes[i], j)
  }

  ghost predicate StrictFrom<T>(nodes: seq<Arr<T>>, k: nat) {
    forall j {:trigger Strict(nodes[j], j)} :: k <= j < |nodes| ==> Strict(nodes[j], j)
  }

  /** From level `k` up, only the lowest level that is in use may end in a partly filled subtree. */
  ghost predicate LooseFrom<T>(nodes: seq<Arr<T>>, k: nat)
    decreases |nodes| - k
  {
    && k < |nodes| && Loose(nodes[k], k)
    && if nodes[k].nodes == [] then LooseFrom(nodes, k + 1) else StrictFrom(nodes, k + 1)
  }

  /** The top level is in use; if it holds a single tree, that one is as big as its height suggests. */
  ghost predicate DenseTop<T>(nodes: seq<Arr<T>>) {
    nodes != [] ==>
      var top := |nodes| - 1;
      && nodes[top].Node? && nodes[top].nodes != []
      && (top > 0 && |nodes[top].nodes| == 1 ==> Pow32(top) <= |Elements(nodes[top].nodes[0])|)
  }

  /** The elements on level `k` and above: higher levels come first. */
  function Upper<T>(nodes: seq<Arr<T>>, k: nat): seq<T>
    decreases |nodes| - k
  {
    if k >= |nodes| then [] else Upper(nodes, k + 1) + Elements(nodes[k])
  }

  /** How many trees hang on level `k` and above. */
  function Trees<T>(nodes: seq<Arr<T>>, k: nat): nat
    decreases |nodes| - k
  {
    if k >= |nodes| then 0 else Trees(nodes, k + 1) + if nodes[k].Node? then |nodes[k].nodes| else 0
  }

  lemma {:induction false} UpperSame<T>(nodes: seq<Arr<T>>, nodes': seq<Arr<T>>, k: nat)
    requires k <= |nodes| == |nodes'| && nodes[k..] == nodes'[k..]
    ensures Upper(nodes, k) == Upper(nodes', k) && Trees(nodes, k) == Trees(nodes', k)
    decreases |nodes| - k
  {
    if k < |nodes| {
      assert nodes[k] == nodes[k..][0] && nodes'[k] == nodes'[k..][0];
      assert nodes[k + 1..] == nodes[k..][1..] && nodes'[k + 1..] == nodes'[k..][1..];
      UpperSame(nodes, nodes', k + 1);
    }
  }

  function EmptyNode<T>(h: nat): Arr<T> {
    Node(h, [], [])
  }

  /** A level that is in use is a packed tree. */
  lemma LooseIsPacked<T>(n: Arr<T>, j: nat)
    requires Loose(n, j) && n.nodes != []
    ensures Packed(n, j + 1)
    ensures |n.nodes| > 1 ==> Pow32(j + 1) <= |Elements(n)|
  {
    forall i | 0 <= i < |n.nodes|
      ensures Packed(n.nodes[i], j) && Shaped(n.nodes[i], j) && (i < |n.nodes| - 1 ==> Full(n.nodes[i], j))
    {
      assert Packed(n.nodes[i], j);
    }
    FirstKid(n.nodes, j);
    assert |n.nodes| > 1 ==> Full(n.nodes[0], j);
  }

  lemma FirstKid<T>(nodes: seq<Arr<T>>, j: nat)
    requires nodes != [] && Packed(nodes[0], j)
    ensures |Elements(nodes[0])| <= |Flat(nodes, |nodes|)| && Flat(nodes, |nodes|) != []
    ensures Full(nodes[0], j) ==> Pow32(j + 1) <= |Flat(nodes, |nodes|)|
  {
    FlatGrows(nodes, 1, |nodes|);
    assert Flat(nodes, 1) == Flat(nodes, 0) + Elements(nodes[0]);
  }

  /** A level with one more tree on it: still a level, or a complete table that moves up. */
  lemma AddTree<T>(n: Arr<T>, t: Arr<T>, j: nat)
    requires Strict(n, j) && Packed(t, j)
    ensures var n' := WithOneMore(n, t, |Elements(n)| + |Elements(t)|);
            && Elements(n') == Elements(n) + Elements(t)
            && (|n.nodes| + 1 < M ==> Loose(n', j) && (Full(t, j) ==> Strict(n', j)))
            && (|n.nodes| + 1 == M ==> Packed(n', j + 1) && Pow32(j + 1) <= |Elements(n')| && (Full(t, j) ==> Full(n', j + 1)))
  {
    var length := |Elements(n)| + |Elements(t)|;
    assert n.nodes[..|n.nodes|] == n.nodes && n.lengths[..|n.nodes|] == n.lengths;
    WithLast(n.nodes, n.lengths, t, n.nodes + [t], n.lengths + [length]);
    if |n.nodes| + 1 == M {
      FullTable(n, t, j);
    }
  }

  lemma FullTable<T>(n: Arr<T>, t: Arr<T>, j: nat)
    requires Strict(n, j) && Packed(t, j) && |n.nodes| + 1 == M
    requires ExactLengths(n.nodes + [t], n.lengths + [|Elements(n)| + |Elements(t)|])
    requires Flat(n.nodes + [t], M) == Elements(n) + Elements(t)
    ensures var n' := WithOneMore(n, t, |Elements(n)| + |Elements(t)|);
            Packed(n', j + 1) && Pow32(j + 1) <= |Elements(n')| && (Full(t, j) ==> Full(n', j + 1))
  {
    var kids := n.nodes + [t];
    forall i | 0 <= i < M
      ensures Packed(kids[i], j) && Shaped(kids[i], j) && (i < M - 1 ==> Full(kids[i], j))
    {
      if i < M - 1 {
        assert Packed(n.nodes[i], j) && Full(n.nodes[i], j);
      }
    }
    FirstKid(kids, j);
    if Full(t, j) {
      FlatFull(kids, j, M);
    }
  }

  /** What `fromListPush` promises about its result. */
  ghost predicate Pushed<T>(toPush: Arr<T>, h: nat, nodes: seq<Arr<T>>, r: seq<Arr<T>>) {
    PushedShape(toPush, h, nodes, r) && PushedContents(toPush, h, nodes, r)
  }

  ghost predicate PushedShape<T>(toPush: Arr<T>, h: nat, nodes: seq<Arr<T>>, r: seq<Arr<T>>) {
    && h < |r| && |nodes| <= |r| && h <= |nodes| && r[..h] == nodes[..h]
    && LooseFrom(r, h) && DenseTop(r) && (Full(toPush, h) ==> StrictFrom(r, h))
  }

  ghost predicate PushedContents<T>(toPush: Arr<T>, h: nat, nodes: seq<Arr<T>>, r: seq<Arr<T>>) {
    && Upper(r, h) == Upper(nodes, h) + Elements(toPush)
    && Trees(r, h) <= Trees(nodes, h) + (if |r| > |nodes| > h then 0 else 1)
  }

  /** `n` is level `h` of `nodes` with `toPush` added. */
  ghost predicate Grown<T>(toPush: Arr<T>, h: nat, nodes: seq<Arr<T>>, n: Arr<T>) {
    && h < |nodes| && Packed(toPush, h) && StrictFrom(nodes, h) && Strict(nodes[h], h)
    && n == WithOneMore(nodes[h], toPush, |Elements(nodes[h])| + |Elements(toPush)|)
  }

  lemma PushedHere<T>(toPush: Arr<T>, h: nat, nodes: seq<Arr<T>>, n: Arr<T>)
    requires Grown(toPush, h, nodes, n) && |n.nodes| < M
    requires DenseTop(nodes) || (h == |nodes| - 1 && nodes[h].nodes == [] && (h > 0 ==> Pow32(h) <= |Elements(toPush)|))
    ensures Pushed(toPush, h, nodes, nodes[h := n])
  {
    AddTree(nodes[h], toPush, h);
    PushedHereShape(toPush, h, nodes, n);
    UpperSame(nodes, nodes[h := n], h + 1);
    Assoc3(Upper(nodes, h + 1), Elements(nodes[h]), Elements(toPush));
  }

  lemma PushedHereShape<T>(toPush: Arr<T>, h: nat, nodes: seq<Arr<T>>, n: Arr<T>)
    requires Grown(toPush, h, nodes, n) && Loose(n, h) && (Full(toPush, h) ==> Strict(n, h))
    requires DenseTop(nodes) || (h == |nodes| - 1 && nodes[h].nodes == [] && (h > 0 ==> Pow32(h) <= |Elements(toPush)|))
    ensures PushedShape(toPush, h, nodes, nodes[h := n])
  {
    var r := nodes[h := n];
    forall j | h < j < |r|
      ensures Strict(r[j], j)
    {
      assert Strict(nodes[j], j);
    }
  }

  lemma Assoc3<T>(a: seq<T>, b: seq<T>, c: seq<T>)
    ensures a + (b + c) == a + b + c
  {
  }

  lemma PushedUp<T>(toPush: Arr<T>, h: nat, nodes: seq<Arr<T>>, n: Arr<T>, up: seq<Arr<T>>)
    requires Grown(toPush, h, nodes, n) && |n.nodes| == M
    requires Pushed(n, h + 1, nodes[h := n], up)
    ensures Pushed(toPush, h, nodes, up[h := EmptyNode(h + 1)])
  {
    AddTree(nodes[h], toPush, h);
    PushedUpShape(toPush, h, nodes, n, up);
    PushedUpContents(toPush, h, nodes, n, up);
  }

  lemma PushedUpShape<T>(toPush: Arr<T>, h: nat, nodes: seq<Arr<T>>, n: Arr<T>, up: seq<Arr<T>>)
    requires h < |nodes| && PushedShape(n, h + 1, nodes[h := n], up) && (Full(toPush, h) ==> Full(n, h + 1))
    ensures PushedShape(toPush, h, nodes, up[h := EmptyNode(h + 1)])
  {
    var r := up[h := EmptyNode(h + 1)];
    LooseSame(up, r, h + 1);
    assert r[..h] == up[..h + 1][..h] && nodes[h := n][..h + 1][..h] == nodes[..h];
  }

  lemma UpperReplaced<T>(nodes: seq<Arr<T>>, h: nat, n: Arr<T>)
    requires h < |nodes|
    ensures Upper(nodes[h := n], h + 1) == Upper(nodes, h + 1) && Trees(nodes[h := n], h + 1) == Trees(nodes, h + 1)
  {
    UpperSame(nodes, nodes[h := n], h + 1);
  }

  lemma UpperEmptied<T>(nodes: seq<Arr<T>>, h: nat)
    requires h < |nodes| && nodes[h] == EmptyNode(h + 1)
    ensures Upper(nodes, h) == Upper(nodes, h + 1) && Trees(nodes, h) == Trees(nodes, h + 1)
  {
    assert Elements(nodes[h]) == Flat(nodes[h].nodes, 0) == [];
  }

  lemma PushedUpContents<T>(toPush: Arr<T>, h: nat, nodes: seq<Arr<T>>, n: Arr<T>, up: seq<Arr<T>>)
    requires h < |nodes| <= |up| && PushedContents(n, h + 1, nodes[h := n], up)
    requires nodes[h].Node? && |nodes[h].nodes| > 0 && Elements(n) == Elements(nodes[h]) + Elements(toPush)
    ensures PushedContents(toPush, h, nodes, up[h := EmptyNode(h + 1)])
  {
    UpperReplaced(nodes, h, n);
    UpperReplaced(up, h, EmptyNode(h + 1));
    UpperEmptied(up[h := EmptyNode(h + 1)], h);
    Assoc3(Upper(nodes, h + 1), Elements(nodes[h]), Elements(toPush));
  }

  lemma {:induction false} LooseSame<T>(nodes: seq<Arr<T>>, nodes': seq<Arr<T>>, k: nat)
    requires k <= |nodes| == |nodes'| && nodes[k..] == nodes'[k..] && LooseFrom(nodes, k)
    ensures LooseFrom(nodes', k)
    ensures StrictFrom(nodes, k) ==> StrictFrom(nodes', k)
    decreases |nodes| - k
  {
    assert forall j :: k <= j < |nodes| ==> nodes[j] == nodes[k..][j - k] == nodes'[k..][j - k] == nodes'[j];
    if nodes[k].nodes == [] {
      assert nodes[k + 1..] == nodes[k..][1..] && nodes'[k + 1..] == nodes'[k..][1..];
      LooseSame(nodes, nodes', k + 1);
    } else {
      forall j | k < j < |nodes|
        ensures Strict(nodes'[j], j)
      {
        assert Strict(nodes[j], j);
      }
    }
  }

  /** `fromListPush`: hang a tree into the level above it; a complete table moves one level up. */
  method FromListPush<T>(toPush: Arr<T>, nodes: seq<Arr<T>>, ghost h: nat) returns (r: seq<Arr<T>>)
    requires Packed(toPush, h) && h <= |nodes| && StrictFrom(nodes, h) && DenseTop(nodes)
    requires h == |nodes| && h > 0 ==> Pow32(h) <= |Elements(toPush)|
    ensures Pushed(toPush, h, nodes, r)
    decreases |nodes| - h
  {
    var height := Height(toPush);
    r := OpenLevel(toPush, nodes, h);
    ghost var start := r;
    var n := AddToLevel(r[height], toPush, h);
    assert Grown(toPush, h, start, n);
    r := r[height := n];
    if |n.nodes| == M {
      ReadyAbove(toPush, h, start, n);
      r := FromListPush(n, r, h + 1);
      PushedUp(toPush, h, start, n, r);
      r := r[height := EmptyNode(height + 1)];
    } else {
      PushedHere(toPush, h, start, n);
    }
    PushedOnNew(toPush, h, nodes, start, r);
  }

  /** The level above the tree is there, new and empty if need be. */
  ghost predicate Started<T>(toPush: Arr<T>, h: nat, nodes: seq<Arr<T>>, start: seq<Arr<T>>) {
    && (start == nodes || (h == |nodes| && start == nodes + [EmptyNode(h + 1)]))
    && h < |start| && Height(toPush) == h && StrictFrom(start, h) && Strict(start[h], h)
    && (DenseTop(start) || (h == |start| - 1 && start[h].nodes == [] && (h > 0 ==> Pow32(h) <= |Elements(toPush)|)))
  }

  method OpenLevel<T>(toPush: Arr<T>, nodes: seq<Arr<T>>, ghost h: nat) returns (r: seq<Arr<T>>)
    requires Packed(toPush, h) && h <= |nodes| && StrictFrom(nodes, h) && DenseTop(nodes)
    requires h == |nodes| && h > 0 ==> Pow32(h) <= |Elements(toPush)|
    ensures Started(toPush, h, nodes, r)
  {
    var height := Height(toPush);
    r := nodes;
    if |r| == height {
      r := r + [EmptyNode(height + 1)];
      NewLevel(nodes);
    } else {
      assert Strict(nodes[h], h);
    }
  }

  /** A level's table and lengths, one tree longer. */
  method AddToLevel<T>(level: Arr<T>, toPush: Arr<T>, ghost h: nat) returns (n: Arr<T>)
    requires Strict(level, h) && Packed(toPush, h)
    ensures n == WithOneMore(level, toPush, |Elements(level)| + |Elements(toPush)|)
  {
    ShapedLength(toPush, h);
    var len := Length(toPush);
    if level.lengths != [] {
      len := len + level.lengths[|level.lengths| - 1];
    }
    n := WithOneMore(level, toPush, len);
  }

  /** A complete table may be pushed to the level above. */
  lemma ReadyAbove<T>(toPush: Arr<T>, h: nat, nodes: seq<Arr<T>>, n: Arr<T>)
    requires Grown(toPush, h, nodes, n) && |n.nodes| == M && DenseTop(nodes)
    ensures Packed(n, h + 1) && Pow32(h + 1) <= |Elements(n)|
    ensures StrictFrom(nodes[h := n], h + 1) && DenseTop(nodes[h := n])
  {
    AddTree(nodes[h], toPush, h);
    var r := nodes[h := n];
    forall j | h < j < |r|
      ensures Strict(r[j], j)
    {
      assert Strict(nodes[j], j);
    }
  }

  lemma PushedOnNew<T>(toPush: Arr<T>, h: nat, nodes: seq<Arr<T>>, start: seq<Arr<T>>, r: seq<Arr<T>>)
    requires Pushed(toPush, h, start, r)
    requires start == nodes || (h == |nodes| && start == nodes + [EmptyNode(h + 1)])
    ensures Pushed(toPush, h, nodes, r)
  {
    if start != nodes {
      NewLevel(nodes);
      assert start[..h] == nodes[..h];
    }
  }

  /** Adding an unused level on top changes no element. */
  lemma NewLevel<T>(nodes: seq<Arr<T>>)
    ensures var r := nodes + [EmptyNode(|nodes| + 1)];
            Strict(r[|nodes|], |nodes|) && Upper(r, |nodes|) == [] && Trees(r, |nodes|) == 0
  {
    var r := nodes + [EmptyNode<T>(|nodes| + 1)];
    assert Elements(r[|nodes|]) == [];
  }

  /** `fromList`: fill leaves, push them, then close the levels from the bottom up. */
  method FromList<T>(list: seq<T>) returns (a: Arr<T>, ghost h: nat)
    ensures Good(a, h) && Elements(a) == list
  {
    if list == [] {
      return Leaf([]), 0;
    }
    var nodes, k := FillLeaves(list);
    if k < |list| {
      nodes := FromListPush(Leaf(list[k..]), nodes, 0);
      assert list[..k] + list[k..] == list;
    } else {
      assert list[..k] == list;
      StrictIsLoose(nodes, 0);
    }
    a, h := CloseLevels(nodes);
  }

  /** The first loop of `fromList`: every complete block of 32 becomes a leaf; `k` elements are consumed. */
  method FillLeaves<T>(list: seq<T>) returns (nodes: seq<Arr<T>>, k: nat)
    ensures k <= |list| < k + M
    ensures StrictFrom(nodes, 0) && DenseTop(nodes) && Upper(nodes, 0) == list[..k]
    ensures k == 0 <==> nodes == []
  {
    nodes, k := [], 0;
    var table: seq<T>, i: nat := [], 0;
    while i < |list|
      invariant k <= i <= |list| && |table| == i - k < M && table == list[k..i]
      invariant StrictFrom(nodes, 0) && DenseTop(nodes) && Upper(nodes, 0) == list[..k]
      invariant k == 0 <==> nodes == []
    {
      table := table + [list[i]];
      i := i + 1;
      if |table| == M {
        assert Pow32(1) == M * Pow32(0);
        nodes := FromListPush(Leaf(table), nodes, 0);
        assert list[..k] + list[k..i] == list[..i];
        table, k := [], i;
      }
    }
  }

  lemma {:induction false} StrictIsLoose<T>(nodes: seq<Arr<T>>, k: nat)
    requires k < |nodes| && StrictFrom(nodes, k) && DenseTop(nodes)
    ensures LooseFrom(nodes, k)
    decreases |nodes| - k
  {
    assert Strict(nodes[k], k);
    if nodes[k].nodes == [] {
      StrictIsLoose(nodes, k + 1);
    }
  }

  /** The last loop of `fromList`, and the choice of the root. */
  method CloseLevels<T>(levels: seq<Arr<T>>) returns (a: Arr<T>, ghost h: nat)
    requires LooseFrom(levels, 0) && DenseTop(levels)
    ensures Good(a, h) && Elements(a) == Upper(levels, 0)
  {
    var nodes := levels;
    var k := 0;
    while k < |nodes| - 1
      invariant 0 <= k < |nodes| && LooseFrom(nodes, k) && DenseTop(nodes)
      invariant Upper(nodes, k) == Upper(levels, 0)
      decreases Trees(nodes, k), |nodes| - k
    {
      if nodes[k].nodes != [] {
        LooseIsPacked(nodes[k], k);
        nodes := FromListPush(nodes[k], nodes, k + 1);
      } else {
        assert Elements(nodes[k]) == [];
      }
      k := k + 1;
    }
    var head := nodes[|nodes| - 1];
    assert Upper(nodes, k + 1) == [];
    LooseIsPacked(head, k);
    if |head.nodes| == 1 {
      assert Packed(head.nodes[0], k);
      assert Flat(head.nodes, 1) == Flat(head.nodes, 0) + Elements(head.nodes[0]);
      return head.nodes[0], k;
    } else {
      return head, k + 1;
    }
  }

  // ---------------------------------------------------------------- initialize, fromJSArray

  /** The numbers `from <= i < upto` through `f`. */
  function Table<T>(f: nat -> T, from: nat, upto: nat): (s: seq<T>)
    requires from <= upto
    ensures |s| == upto - from && forall i :: 0 <= i < |s| ==> s[i] == f(from + i)
  {
    seq(upto - from, i requires 0 <= i < upto - from => f(from + i))
  }

  lemma TableSplit<T>(f: nat -> T, from: nat, mid: nat, upto: nat)
    requires from <= mid <= upto
    ensures Table(f, from, upto) == Table(f, from, mid) + Table(f, mid, upto)
  {
  }

  /** `Math.ceil(n / p)`. */
  function Ceiling(n: nat, p: nat): (c: nat)
    requires p > 0
    ensures n <= c * p && (n > 0 ==> c > 0 && (c - 1) * p < n)
  {
    (n + p - 1) / p
  }

  /** `initialize_`: a tree of height `h` over the numbers from `from` to `upto`. */
  method InitializeRange<T>(f: nat -> T, h: nat, from: nat, upto: nat) returns (a: Arr<T>)
    requires from < upto <= from + Pow32(h + 1)
    ensures Packed(a, h) && Elements(a) == Table(f, from, upto)
    decreases h
  {
    if h == 0 {
      assert Pow32(1) == M * Pow32(0);
      var size := (upto - from) % (M + 1);
      var table := [];
      for i := 0 to size
        invariant table == Table(f, from, from + i)
      {
        table := table + [f(from + i)];
      }
      return Leaf(table);
    }
    a := InitializeNode(f, h, from, upto);
  }

  function Min(a: nat, b: nat): nat {
    if a < b then a else b
  }

  lemma BlockBounds(i: nat, count: nat, step: nat, n: nat)
    requires i < count && (count - 1) * step < n <= count * step
    ensures i * step < n && (i + 1) * step == i * step + step
    ensures i < count - 1 ==> (i + 1) * step < n
  {
    MulMono(i, count - 1, step);
    MulStep(i, step);
    if i < count - 1 {
      MulMono(i + 1, count - 1, step);
    }
  }

  /** The kids built so far: packed, all full unless the range ends with the last of them. */
  ghost predicate Blocks<T>(nodes: seq<Arr<T>>, lengths: seq<nat>, h: nat, count: nat) {
    && |nodes| <= count && ExactLengths(nodes, lengths)
    && (forall j {:trigger Packed(nodes[j], h)} :: 0 <= j < |nodes| ==> Packed(nodes[j], h))
    && (forall j {:trigger Full(nodes[j], h)} :: 0 <= j < |nodes| && j < count - 1 ==> Full(nodes[j], h))
  }

  lemma BlocksMore<T>(nodes: seq<Arr<T>>, lengths: seq<nat>, h: nat, count: nat, b: Arr<T>, length: nat)
    requires Blocks(nodes, lengths, h, count) && |nodes| < count && Packed(b, h)
    requires |nodes| < count - 1 ==> Full(b, h)
    requires length == |Flat(nodes, |nodes|)| + |Elements(b)|
    ensures Blocks(nodes + [b], lengths + [length], h, count)
    ensures Flat(nodes + [b], |nodes| + 1) == Flat(nodes, |nodes|) + Elements(b)
  {
    assert nodes[..|nodes|] == nodes && lengths[..|nodes|] == lengths;
    WithLast(nodes, lengths, b, nodes + [b], lengths + [length]);
  }

  lemma BlocksPacked<T>(nodes: seq<Arr<T>>, lengths: seq<nat>, h: nat)
    requires 1 <= |nodes| <= M && Blocks(nodes, lengths, h, |nodes|)
    ensures Packed(Node(h + 1, nodes, lengths), h + 1)
  {
    forall i | 0 <= i < |nodes|
      ensures Packed(nodes[i], h) && Shaped(nodes[i], h) && (i < |nodes| - 1 ==> Full(nodes[i], h))
    {
      assert Packed(nodes[i], h);
    }
    FirstKid(nodes, h);
  }

  lemma TableMore<T>(f: nat -> T, from: nat, lo: nat, hi: nat, nodes: seq<Arr<T>>, kid: Arr<T>)
    requires from <= lo <= hi && Flat(nodes, |nodes|) == Table(f, from, lo) && Elements(kid) == Table(f, lo, hi)
    ensures Flat(nodes + [kid], |nodes| + 1) == Table(f, from, hi)
  {
    FlatSnoc(nodes, kid);
    TableSplit(f, from, lo, hi);
  }

  /** The `i`-th block of a node. */
  method InitializeKid<T>(f: nat -> T, h: nat, from: nat, upto: nat, step: nat, i: nat, count: nat) returns (kid: Arr<T>)
    requires h > 0 && step == Pow32(h) && from < upto && i < count && (count - 1) * step < upto - from <= count * step
    ensures from + i * step < Min(from + (i + 1) * step, upto)
    ensures Packed(kid, h - 1) && Elements(kid) == Table(f, from + i * step, Min(from + (i + 1) * step, upto))
    ensures Length(kid) == |Elements(kid)| && Min(from + i * step, upto) == from + i * step
    ensures i < count - 1 ==> Full(kid, h - 1)
    decreases h, 0
  {
    BlockBounds(i, count, step, upto - from);
    kid := InitializeRange(f, h - 1, from + i * step, Min(from + (i + 1) * step, upto));
    ShapedLength(kid, h - 1);
  }

  /** The inner nodes of `initialize_`: a table of blocks of 32 to the power `h`. */
  method InitializeNode<T>(f: nat -> T, h: nat, from: nat, upto: nat) returns (a: Arr<T>)
    requires h > 0 && from < upto <= from + Pow32(h + 1)
    ensures Packed(a, h) && Elements(a) == Table(f, from, upto)
    decreases h, 1
  {
    var step, n := Pow32(h), upto - from;
    var count := Ceiling(n, step);
    CountFits(n, count, step);
    var nodes: seq<Arr<T>>, lengths: seq<nat> := [], [];
    for i := 0 to count
      invariant |nodes| == i && Blocks(nodes, lengths, h - 1, count)
      invariant Flat(nodes, i) == Table(f, from, Min(from + i * step, upto))
    {
      var kid := InitializeKid(f, h, from, upto, step, i, count);
      var length := Length(kid) + if i > 0 then lengths[i - 1] else 0;
      BlocksMore(nodes, lengths, h - 1, count, kid, length);
      TableMore(f, from, from + i * step, Min(from + (i + 1) * step, upto), nodes, kid);
      nodes, lengths := nodes + [kid], lengths + [length];
    }
    a := Node(h, nodes, lengths);
    BlocksPacked(nodes, lengths, h - 1);
  }

  lemma CountFits(n: nat, count: nat, step: nat)
    requires 0 < n <= M * step && count > 0 && (count - 1) * step < n
    ensures count <= M
  {
    if count > M {
      MulMono(M, count - 1, step);
    }
  }

  /** `initialize`. The source takes for `h` the integer part of the logarithm of `len` to base 32; all that
      matters is that `len` fits a tree of height `h`. */
  method Initialize<T>(len: int, f: nat -> T, h: nat) returns (a: Arr<T>)
    requires len > 0 ==> len <= Pow32(h + 1)
    ensures Elements(a) == if len <= 0 then [] else Table(f, 0, len)
    ensures if len <= 0 then Good(a, 0) else Packed(a, h) && (Pow32(h) <= len ==> Good(a, h))
  {
    if len <= 0 {
      return Leaf([]);
    }
    a := InitializeRange(f, h, 0, len);
  }

  /** `fromJSArray` is `initialize` with the JavaScript array as the function, `slice` filling the leaves. */
  method FromJSArray<T>(jsArray: seq<T>, h: nat) returns (a: Arr<T>)
    requires jsArray != [] ==> |jsArray| <= Pow32(h + 1)
    ensures Elements(a) == jsArray
    ensures jsArray == [] ==> Good(a, 0)
    ensures jsArray != [] ==> Packed(a, h) && (Pow32(h) <= |jsArray| ==> Good(a, h))
  {
    if jsArray == [] {
      return Leaf([]);
    }
    var f := (i: nat) => if i < |jsArray| then jsArray[i] else jsArray[0];
    a := InitializeRange(f, h, 0, |jsArray|);
    assert Table(f, 0, |jsArray|) == jsArray;
  }

  // ---------------------------------------------------------------- taking arrays apart

  /** `toList_`: from the last table entry to the first, in front of `list`. */
  method ToListOnto<T>(list: seq<T>, a: Arr<T>, ghost h: nat) returns (r: seq<T>)
    requires Shaped(a, h)
    ensures r == Elements(a) + list
    decreases a
  {
    r := list;
    if a.Leaf? {
      for i := |a.table| downto 0
        invariant r == a.table[i..] + list
      {
        r := [a.table[i]] + r;
      }
    } else {
      for i := |a.nodes| downto 0
        invariant Flat(a.nodes, i) + r == Elements(a) + list
      {
        assert Shaped(a.nodes[i], h - 1);
        ghost var before := r;
        r := ToListOnto(r, a.nodes[i], h - 1);
        Assoc3(Flat(a.nodes, i), Elements(a.nodes[i]), before);
      }
    }
  }

  /** `toList` undoes `fromList`. */
  method ListRoundTrip<T>(list: seq<T>) returns (r: seq<T>)
    ensures r == list
  {
    var a, h := FromList(list);
    r := ToListOnto([], a, h);
  }

  /** What mapping with indices from `from` on makes of a sequence. */
  function Mapped<T, U>(f: (nat, T) -> U, s: seq<T>, from: nat): (r: seq<U>)
    ensures |r| == |s| && forall i :: 0 <= i < |s| ==> r[i] == f(from + i, s[i])
  {
    seq(|s|, i requires 0 <= i < |s| => f(from + i, s[i]))
  }

  lemma MappedConcat<T, U>(f: (nat, T) -> U, s: seq<T>, t: seq<T>, from: nat)
    ensures Mapped(f, s + t, from) == Mapped(f, s, from) + Mapped(f, t, from + |s|)
  {
  }

  /** `indexedMap_`: the indices of a subtree start at its parent's cumulative length. */
  method IndexedMapFrom<T, U>(f: (nat, T) -> U, a: Arr<T>, from: nat, ghost h: nat) returns (r: Arr<U>)
    requires Shaped(a, h)
    ensures Shaped(r, h) && Elements(r) == Mapped(f, Elements(a), from)
    ensures Packed(a, h) ==> Packed(r, h)
    decreases a
  {
    if a.Leaf? {
      var table := [];
      for i := 0 to |a.table|
        invariant table == Mapped(f, a.table[..i], from)
      {
        table := table + [f(from + i, a.table[i])];
      }
      assert a.table[..|a.table|] == a.table;
      return Leaf(table);
    }
    var nodes: seq<Arr<U>> := [];
    for i := 0 to |a.nodes|
      invariant |nodes| == i && Flat(nodes, i) == Mapped(f, Flat(a.nodes, i), from)
      invariant MapsKids(a.nodes, nodes, h - 1)
    {
      assert Shaped(a.nodes[i], h - 1);
      var start := if i == 0 then from else from + a.lengths[i - 1];
      var b := IndexedMapFrom(f, a.nodes[i], start, h - 1);
      MappedConcat(f, Flat(a.nodes, i), Elements(a.nodes[i]), from);
      MapsKidsMore(a.nodes, nodes, b, h - 1);
      nodes := nodes + [b];
    }
    r := Node(a.height, nodes, a.lengths);
    MapsKidsShape(a, nodes, h);
  }

  /** The subtrees in `s` correspond to the first ones in `t`, with the same lengths. */
  ghost predicate MapsKids<T, U>(t: seq<Arr<T>>, s: seq<Arr<U>>, h: nat) {
    && |s| <= |t|
    && (forall i {:trigger Shaped(s[i], h)} :: 0 <= i < |s| ==> Shaped(s[i], h))
    && (forall i {:trigger Packed(s[i], h)} :: 0 <= i < |s| && Packed(t[i], h) ==> Packed(s[i], h))
    && (forall i {:trigger Flat(s, i)} :: 0 <= i <= |s| ==> |Flat(s, i)| == |Flat(t, i)|)
    && (forall i {:trigger Elements(s[i])} :: 0 <= i < |s| ==> |Elements(s[i])| == |Elements(t[i])|)
  }

  lemma MapsKidsMore<T, U>(t: seq<Arr<T>>, s: seq<Arr<U>>, b: Arr<U>, h: nat)
    requires MapsKids(t, s, h) && |s| < |t| && Shaped(b, h) && |Elements(b)| == |Elements(t[|s|])|
    requires Packed(t[|s|], h) ==> Packed(b, h)
    ensures MapsKids(t, s + [b], h) && Flat(s + [b], |s| + 1) == Flat(s, |s|) + Elements(b)
  {
    var s' := s + [b];
    FlatSnoc(s, b);
    forall i | 0 <= i < |s'|
      ensures Shaped(s'[i], h) && |Elements(s'[i])| == |Elements(t[i])| && (Packed(t[i], h) ==> Packed(s'[i], h))
    {
      if i < |s| {
        assert Shaped(s[i], h) && |Elements(s[i])| == |Elements(t[i])|;
      }
    }
  }

  lemma FlatSnoc<T>(s: seq<Arr<T>>, b: Arr<T>)
    ensures forall i {:trigger Flat(s + [b], i)} :: 0 <= i <= |s| ==> Flat(s + [b], i) == Flat(s, i)
    ensures Flat(s + [b], |s| + 1) == Flat(s, |s|) + Elements(b)
  {
    forall i | 0 <= i <= |s|
      ensures Flat(s + [b], i) == Flat(s, i)
    {
      assert (s + [b])[..i] == s[..i];
      FlatPrefix(s + [b], s, i);
    }
  }

  lemma MapsKidsShape<T, U>(a: Arr<T>, nodes: seq<Arr<U>>, h: nat)
    requires a.Node? && Shaped(a, h) && MapsKids(a.nodes, nodes, h - 1) && |nodes| == |a.nodes|
    ensures var r := Node(a.height, nodes, a.lengths); Shaped(r, h) && (Packed(a, h) ==> Packed(r, h))
  {
    forall i | 0 <= i < |nodes|
      ensures a.lengths[i] == |Flat(nodes, i + 1)|
    {
    }
    if Packed(a, h) {
      MapsKidsPacked(a, nodes, h);
    }
  }

  lemma MapsKidsPacked<T, U>(a: Arr<T>, nodes: seq<Arr<U>>, h: nat)
    requires a.Node? && Packed(a, h) && MapsKids(a.nodes, nodes, h - 1) && |nodes| == |a.nodes|
    requires Shaped(Node(a.height, nodes, a.lengths), h)
    ensures Packed(Node(a.height, nodes, a.lengths), h)
  {
    forall i | 0 <= i < |nodes|
      ensures Packed(nodes[i], h - 1) && (i < |nodes| - 1 ==> Full(nodes[i], h - 1))
    {
      assert Packed(a.nodes[i], h - 1);
      assert i < |nodes| - 1 ==> Full(a.nodes[i], h - 1);
    }
    assert |Flat(nodes, |nodes|)| == |Flat(a.nodes, |nodes|)|;
  }

  /** `s` with `x` written over it from position `at` on. */
  function Overwritten<T>(s: seq<T>, at: nat, x: seq<T>): seq<T>
    requires at + |x| <= |s|
  {
    s[..at] + x + s[at + |x|..]
  }

  lemma OverwriteTwice<T>(s: seq<T>, at: nat, x: seq<T>, y: seq<T>)
    requires at + |x| + |y| <= |s|
    ensures Overwritten(Overwritten(s, at, x), at + |x|, y) == Overwritten(s, at, x + y)
  {
  }

  lemma OverwriteOne<T>(s: seq<T>, at: nat, table: seq<T>, t: nat)
    requires t < |table| && at + |table| <= |s|
    ensures Overwritten(s, at, table[..t])[at + t := table[t]] == Overwritten(s, at, table[..t + 1])
  {
    assert table[..t + 1] == table[..t] + [table[t]];
  }

  /** A leaf's table, item by item. */
  method WriteTable<T>(js: array<T>, at: nat, table: seq<T>)
    requires at + |table| <= js.Length
    modifies js
    ensures js[..] == Overwritten(old(js[..]), at, table)
  {
    ghost var s := js[..];
    for t := 0 to |table|
      invariant js[..] == Overwritten(s, at, table[..t])
    {
      OverwriteOne(s, at, table, t);
      js[at + t] := table[t];
    }
    assert table[..|table|] == table;
  }

  lemma OverwriteKid<T>(s: seq<T>, at: nat, nodes: seq<Arr<T>>, t: nat, inc: nat)
    requires t < |nodes| && inc == |Flat(nodes, t)| && at + |Flat(nodes, t + 1)| <= |s|
    ensures |Flat(nodes, t + 1)| == inc + |Elements(nodes[t])|
    ensures Overwritten(Overwritten(s, at, Flat(nodes, t)), at + inc, Elements(nodes[t]))
         == Overwritten(s, at, Flat(nodes, t + 1))
  {
    OverwriteTwice(s, at, Flat(nodes, t), Elements(nodes[t]));
  }

  /** Where a subtree's elements are. */
  lemma KidPlace<T>(a: Arr<T>, h: nat, t: nat)
    requires a.Node? && Shaped(a, h) && t < |a.nodes|
    ensures Shaped(a.nodes[t], h - 1) && |Flat(a.nodes, t)| == (if t == 0 then 0 else a.lengths[t - 1])
    ensures Flat(a.nodes, t + 1) == Flat(a.nodes, t) + Elements(a.nodes[t]) && |Flat(a.nodes, t + 1)| <= |Elements(a)|
  {
    FlatGrows(a.nodes, t + 1, |a.nodes|);
  }

  /** `toJSArray_`: write the elements into a JavaScript array, from position `at` on. */
  method WriteInto<T>(js: array<T>, at: nat, a: Arr<T>, ghost h: nat)
    requires Shaped(a, h) && at + |Elements(a)| <= js.Length
    modifies js
    ensures js[..] == Overwritten(old(js[..]), at, Elements(a))
    decreases a
  {
    ghost var s := js[..];
    if a.Leaf? {
      WriteTable(js, at, a.table);
    } else {
      for t := 0 to |a.nodes|
        invariant |Flat(a.nodes, t)| <= |Elements(a)|
        invariant js[..] == Overwritten(s, at, Flat(a.nodes, t))
      {
        KidPlace(a, h, t);
        var inc := if t == 0 then 0 else a.lengths[t - 1];
        OverwriteKid(s, at, a.nodes, t, inc);
        WriteInto(js, at + inc, a.nodes[t], h - 1);
      }
    }
  }

  /** `toJSArray` undoes `fromJSArray`. */
  method JSArrayRoundTrip<T(0)>(jsArray: seq<T>, h: nat) returns (r: array<T>)
    requires jsArray != [] ==> |jsArray| <= Pow32(h + 1)
    ensures fresh(r) && r[..] == jsArray
  {
    var a := FromJSArray(jsArray, h);
    ghost var height := if jsArray == [] then 0 else h;
    ShapedLength(a, height);
    r := new T[Length(a)];
    WriteInto(r, 0, a, height);
  }

  // ---------------------------------------------------------------- runs

  datatype ArrayOp<!T> = PushOp(item: T) | SetOp(index: int, item: T) | MapOp(f: (nat, T) -> T)

  /** One operation on a plain sequence. */
  function OnSeq<T>(s: seq<T>, op: ArrayOp<T>): (r: seq<T>)
    ensures |s| <= |r| <= |s| + 1
  {
    match op
    case PushOp(x) => s + [x]
    case SetOp(i, x) => if 0 <= i < |s| then s[i := x] else s
    case MapOp(f) => Mapped(f, s, 0)
  }

  /** The same operations on a plain sequence. */
  function RunSeq<T>(s: seq<T>, ops: seq<ArrayOp<T>>): (r: seq<T>)
    ensures |s| <= |r| <= |s| + |ops|
    decreases |ops|
  {
    if ops == [] then s else RunSeq(OnSeq(s, ops[0]), ops[1..])
  }

  /** One operation on an array. */
  method OnArray<T>(a: Arr<T>, ghost h: nat, op: ArrayOp<T>) returns (r: Arr<T>, ghost h': nat)
    requires Good(a, h) && h <= 6 && |Elements(a)| < TWO31
    ensures Good(r, h') && Elements(r) == OnSeq(Elements(a), op)
  {
    match op
    case PushOp(x) =>
      PushGood(x, a, h);
      r := Push(x, a);
      h' := Height(r);
    case SetOp(i, x) =>
      r := Set(i, x, a, h);
      h' := h;
    case MapOp(f) =>
      r := IndexedMapFrom(f, a, 0, h);
      h' := h;
  }

  /** Any run of `push`, `set` and `indexedMap` on an array that the library hands out keeps the shape the library
      relies on, agrees with the same run on a plain sequence, and stays low enough for 32-bit index arithmetic. */
  method RunArray<T>(start: Arr<T>, ghost low: nat, ops: seq<ArrayOp<T>>) returns (a: Arr<T>, ghost h: nat)
    requires Good(start, low) && |Elements(start)| + |ops| < TWO31
    ensures Good(a, h) && h <= 6 && Elements(a) == RunSeq(Elements(start), ops)
  {
    a, h := start, low;
    GoodHeight(a, h);
    for i := 0 to |ops|
      invariant Good(a, h) && h <= 6 && |Elements(a)| <= |Elements(start)| + i
      invariant RunSeq(Elements(a), ops[i..]) == RunSeq(Elements(start), ops)
    {
      assert ops[i..][1..] == ops[i + 1..];
      a, h := OnArray(a, h, ops[i]);
      GoodHeight(a, h);
    }
  }
}
