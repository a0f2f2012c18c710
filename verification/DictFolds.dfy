/** The dictionary operations that walk a tree with a loop: `get`, the folds, `toList`, `size` and `merge`. */
module DictFolds {
  import opened Basics
  import opened Dict

  /** `get` agrees with the dictionary's map. */
  method Get<K(==, !new), V>(cmp: (K, K) -> Order, targetKey: K, dict: Dict<K, V>) returns (r: Option<V>)
    requires TotalOrder(cmp) && Sorted(cmp, Items(dict))
    ensures r == Lookup(Contents(dict), targetKey)
  {
    var t := dict;
    while t.RBNode?
      invariant Sorted(cmp, Items(t))
      invariant Lookup(Contents(t), targetKey) == Lookup(Contents(dict), targetKey)
      decreases t
    {
      GetStep(cmp, targetKey, t);
      match cmp(targetKey, t.key)
      case LT => t := t.left;
      case EQ => return Some(t.value);
      case GT => t := t.right;
    }
    return None;
  }

  lemma GetStep<K(!new), V>(cmp: (K, K) -> Order, k: K, t: Dict<K, V>)
    requires TotalOrder(cmp) && t.RBNode? && Sorted(cmp, Items(t))
    ensures Sorted(cmp, Items(t.left)) && Sorted(cmp, Items(t.right))
    ensures Lookup(Contents(t), k) ==
            match cmp(k, t.key)
            case LT => Lookup(Contents(t.left), k)
            case EQ => Some(t.value)
            case GT => Lookup(Contents(t.right), k)
  {
    var l, e, r := Items(t.left), (t.key, t.value), Items(t.right);
    ItemsSplit(t, []);
    SortedSplit(cmp, l, e, r);
    MapOfConcat(l + [e], r);
    MapOfConcat(l, [e]);
    assert MapOf([e]) == map[t.key := t.value] by { assert [e][1..] == []; }
    match cmp(k, t.key)
    case LT =>
      AboveMore(cmp, k, [], e, r);
      assert [] + [e] + r == [e] + r;
      NotBelow(cmp, [e] + r, k);
      MapOfConcat([e], r);
    case EQ =>
      NotBelow(cmp, l, k);
    case GT =>
      BelowMore(cmp, k, l, e, []);
      assert l + [e] + [] == l + [e];
      NotBelow(cmp, l + [e], k);
      MapOfConcat(l, [e]);
  }

  // ---------------------------------------------------------------- folds

  function FoldrList<K, V, B>(f: (K, V, B) -> B, acc: B, s: seq<(K, V)>): B {
    if s == [] then acc else f(s[0].0, s[0].1, FoldrList(f, acc, s[1..]))
  }

  function FoldlList<K, V, B>(f: (K, V, B) -> B, acc: B, s: seq<(K, V)>): B
    decreases |s|
  {
    if s == [] then acc else FoldlList(f, f(s[0].0, s[0].1, acc), s[1..])
  }

  lemma {:induction false} FoldrConcat<K, V, B>(f: (K, V, B) -> B, acc: B, a: seq<(K, V)>, b: seq<(K, V)>)
    ensures FoldrList(f, acc, a + b) == FoldrList(f, FoldrList(f, acc, b), a)
  {
    if a == [] {
      assert a + b == b;
    } else {
      assert (a + b)[1..] == a[1..] + b;
      FoldrConcat(f, acc, a[1..], b);
    }
  }

  lemma {:induction false} FoldlConcat<K, V, B>(f: (K, V, B) -> B, acc: B, a: seq<(K, V)>, b: seq<(K, V)>)
    ensures FoldlList(f, acc, a + b) == FoldlList(f, FoldlList(f, acc, a), b)
    decreases |a|
  {
    if a == [] {
      assert a + b == b;
    } else {
      assert (a + b)[1..] == a[1..] + b;
      FoldlConcat(f, f(a[0].0, a[0].1, acc), a[1..], b);
    }
  }

  lemma FoldsAtNode<K, V, B>(f: (K, V, B) -> B, acc: B, t: Dict<K, V>)
    requires t.RBNode?
    ensures FoldrList(f, acc, Items(t)) ==
            FoldrList(f, f(t.key, t.value, FoldrList(f, acc, Items(t.right))), Items(t.left))
    ensures FoldlList(f, acc, Items(t)) ==
            FoldlList(f, f(t.key, t.value, FoldlList(f, acc, Items(t.left))), Items(t.right))
  {
    var e := [(t.key, t.value)];
    ItemsSplit(t, []);
    FoldrConcat(f, acc, Items(t.left) + e, Items(t.right));
    FoldrConcat(f, FoldrList(f, acc, Items(t.right)), Items(t.left), e);
    FoldlConcat(f, acc, Items(t.left) + e, Items(t.right));
    FoldlConcat(f, acc, Items(t.left), e);
    assert e[1..] == [];
  }

  /** `foldr`: a loop down the left spine, with a call on every right subtree. */
  method Foldr<K, V, B>(f: (K, V, B) -> B, init: B, dict: Dict<K, V>) returns (acc: B)
    ensures acc == FoldrList(f, init, Items(dict))
    decreases dict
  {
    acc := init;
    var t := dict;
    while t.RBNode?
      invariant t == dict || t < dict
      invariant FoldrList(f, acc, Items(t)) == FoldrList(f, init, Items(dict))
      decreases t
    {
      FoldsAtNode(f, acc, t);
      var right := Foldr(f, acc, t.right);
      acc, t := f(t.key, t.value, right), t.left;
    }
  }

  /** `foldl`: a loop down the right spine, with a call on every left subtree. */
  method Foldl<K, V, B>(f: (K, V, B) -> B, init: B, dict: Dict<K, V>) returns (acc: B)
    ensures acc == FoldlList(f, init, Items(dict))
    decreases dict
  {
    acc := init;
    var t := dict;
    while t.RBNode?
      invariant t == dict || t < dict
      invariant FoldlList(f, acc, Items(t)) == FoldlList(f, init, Items(dict))
      decreases t
    {
      FoldsAtNode(f, acc, t);
      var left := Foldl(f, acc, t.left);
      acc, t := f(t.key, t.value, left), t.right;
    }
  }

  function Cons<K, V>(k: K, v: V, list: seq<(K, V)>): seq<(K, V)> {
    [(k, v)] + list
  }

  lemma {:induction false} FoldrConsIsCopy<K, V>(s: seq<(K, V)>)
    ensures FoldrList((k, v, list) => Cons(k, v, list), [], s) == s
  {
    if s != [] {
      FoldrConsIsCopy(s[1..]);
    }
  }

  /** `toList` lists the pairs in strictly ascending key order, and exactly those of the map. */
  method ToList<K(!new), V>(ghost cmp: (K, K) -> Order, dict: Dict<K, V>) returns (list: seq<(K, V)>)
    requires TotalOrder(cmp) && Sorted(cmp, Items(dict))
    ensures list == Items(dict) && Sorted(cmp, list)
    ensures forall k, v :: (k, v) in list <==> k in Contents(dict) && Contents(dict)[k] == v
  {
    list := Foldr((k, v, list) => Cons(k, v, list), [], dict);
    FoldrConsIsCopy(Items(dict));
    forall k, v
      ensures (k, v) in list <==> k in Contents(dict) && Contents(dict)[k] == v
    {
      ItemsExact(cmp, list, k, v);
    }
  }

  lemma {:induction false} ItemsSize<K, V>(t: Dict<K, V>)
    ensures |Items(t)| == Size(t)
    decreases t
  {
    if t.RBNode? {
      ItemsSplit(t, []);
      ItemsSize(t.left);
      ItemsSize(t.right);
    }
  }

  /** `size` counts the listed pairs. */
  method SizeHelp<K, V>(n0: nat, dict: Dict<K, V>) returns (n: nat)
    ensures n == n0 + |Items(dict)|
    decreases dict
  {
    n := n0;
    var t := dict;
    while t.RBNode?
      invariant t == dict || t < dict
      invariant n + |Items(t)| == n0 + |Items(dict)|
      decreases t
    {
      ItemsSplit(t, []);
      n := SizeHelp(n + 1, t.right);
      t := t.left;
    }
  }

  /** `maxWithDefault` finds the last pair of a node's listing. */
  method FindMax<K, V>(k0: K, v0: V, r0: Dict<K, V>) returns (e: (K, V))
    ensures e == MaxWithDefault(k0, v0, r0)
    ensures e == ([(k0, v0)] + Items(r0))[|Items(r0)|]
  {
    var k, v, r := k0, v0, r0;
    while r.RBNode?
      invariant MaxWithDefault(k, v, r) == MaxWithDefault(k0, v0, r0)
      invariant ([(k, v)] + Items(r))[|Items(r)|] == ([(k0, v0)] + Items(r0))[|Items(r0)|]
      decreases r
    {
      ItemsSplit(r, []);
      k, v, r := r.key, r.value, r.right;
    }
    return (k, v);
  }

  // ---------------------------------------------------------------- merge

  /** One call `merge` makes: for a key of the left dictionary only, of both, or of the right only. */
  datatype Call<K, A, B> = LeftStep(key: K, a: A) | BothStep(key: K, a: A, b: B) | RightStep(key: K, b: B)

  /** The three callbacks of `merge`. */
  datatype Steps<!K, !A, !B, !R> =
    Steps(left: (K, A, R) -> R, both: (K, A, B, R) -> R, right: (K, B, R) -> R)

  function Invoke<K, A, B, R>(f: Steps<K, A, B, R>, c: Call<K, A, B>, acc: R): R {
    match c
    case LeftStep(k, a) => f.left(k, a, acc)
    case BothStep(k, a, b) => f.both(k, a, b, acc)
    case RightStep(k, b) => f.right(k, b, acc)
  }

  function InvokeAll<K, A, B, R>(f: Steps<K, A, B, R>, calls: seq<Call<K, A, B>>, acc: R): R
    decreases |calls|
  {
    if calls == [] then acc else InvokeAll(f, calls[1..], Invoke(f, calls[0], acc))
  }

  /** The calls, read off two sorted listings. */
  function MergeCalls<K, A, B>(cmp: (K, K) -> Order, l: seq<(K, A)>, r: seq<(K, B)>): seq<Call<K, A, B>>
    decreases |l| + |r|
  {
    if l == [] && r == [] then []
    else if r == [] || (l != [] && cmp(l[0].0, r[0].0) == LT) then
      [LeftStep(l[0].0, l[0].1)] + MergeCalls(cmp, l[1..], r)
    else if l == [] || cmp(l[0].0, r[0].0) == GT then
      [RightStep(r[0].0, r[0].1)] + MergeCalls(cmp, l, r[1..])
    else
      [BothStep(l[0].0, l[0].1, r[0].1)] + MergeCalls(cmp, l[1..], r[1..])
  }

  /** The state transformer `merge` folds over the right dictionary. */
  function StepState<K, A, B, R>(cmp: (K, K) -> Order, f: Steps<K, A, B, R>, rKey: K, rValue: B, state: (seq<(K, A)>, R))
    : (seq<(K, A)>, R)
    decreases |state.0|
  {
    var (list, acc) := state;
    if list == [] || cmp(list[0].0, rKey) == GT then (list, f.right(rKey, rValue, acc))
    else if cmp(list[0].0, rKey) == LT then
      StepState(cmp, f, rKey, rValue, (list[1..], f.left(list[0].0, list[0].1, acc)))
    else (list[1..], f.both(list[0].0, list[0].1, rValue, acc))
  }

  /** `stepState`, as the loop it is. */
  method StepStateLoop<K, A, B, R>(cmp: (K, K) -> Order, f: Steps<K, A, B, R>, rKey: K, rValue: B,
                                   state: (seq<(K, A)>, R))
    returns (next: (seq<(K, A)>, R))
    ensures next == StepState(cmp, f, rKey, rValue, state)
  {
    var (list, acc) := state;
    while true
      invariant StepState(cmp, f, rKey, rValue, (list, acc)) == StepState(cmp, f, rKey, rValue, state)
      decreases |list|
    {
      if list == [] {
        return (list, f.right(rKey, rValue, acc));
      }
      match cmp(list[0].0, rKey)
      case LT => list, acc := list[1..], f.left(list[0].0, list[0].1, acc);
      case GT => return (list, f.right(rKey, rValue, acc));
      case EQ => return (list[1..], f.both(list[0].0, list[0].1, rValue, acc));
    }
  }

  lemma {:induction false} StepStateCalls<K, A, B, R>(
    cmp: (K, K) -> Order, f: Steps<K, A, B, R>, l: seq<(K, A)>, r: seq<(K, B)>, acc: R)
    requires r != []
    ensures var (l', acc') := StepState(cmp, f, r[0].0, r[0].1, (l, acc));
            InvokeAll(f, MergeCalls(cmp, l, r), acc) == InvokeAll(f, MergeCalls(cmp, l', r[1..]), acc')
    decreases |l|
  {
    var calls := MergeCalls(cmp, l, r);
    if l != [] && cmp(l[0].0, r[0].0) == LT {
      assert calls[1..] == MergeCalls(cmp, l[1..], r);
      StepStateCalls(cmp, f, l[1..], r, f.left(l[0].0, l[0].1, acc));
    } else if l == [] || cmp(l[0].0, r[0].0) == GT {
      assert calls[1..] == MergeCalls(cmp, l, r[1..]);
    } else {
      assert calls[1..] == MergeCalls(cmp, l[1..], r[1..]);
    }
  }

  lemma {:induction false} FoldStepState<K, A, B, R>(
    cmp: (K, K) -> Order, f: Steps<K, A, B, R>, l: seq<(K, A)>, r: seq<(K, B)>, acc: R)
    ensures var (rest, acc') := FoldlList((k, v, s) => StepState(cmp, f, k, v, s), (l, acc), r);
            InvokeAll(f, MergeCalls(cmp, l, r), acc) == FoldlList(f.left, acc', rest)
    decreases |r|
  {
    if r == [] {
      Leftovers(cmp, f, l, r, acc);
    } else {
      StepStateCalls(cmp, f, l, r, acc);
      var (l', acc') := StepState(cmp, f, r[0].0, r[0].1, (l, acc));
      FoldStepState(cmp, f, l', r[1..], acc');
    }
  }

  lemma {:induction false} Leftovers<K, A, B, R>(
    cmp: (K, K) -> Order, f: Steps<K, A, B, R>, l: seq<(K, A)>, r: seq<(K, B)>, acc: R)
    requires r == []
    ensures InvokeAll(f, MergeCalls(cmp, l, r), acc) == FoldlList(f.left, acc, l)
    decreases |l|
  {
    if l != [] {
      assert MergeCalls(cmp, l, r)[1..] == MergeCalls(cmp, l[1..], r);
      Leftovers(cmp, f, l[1..], r, f.left(l[0].0, l[0].1, acc));
    }
  }

  /** Exactly one call for each key of the union, with the values the two maps hold, keys ascending. */
  ghost predicate ExactCalls<K(!new), A(!new), B(!new)>(
    cmp: (K, K) -> Order, l: map<K, A>, r: map<K, B>, calls: seq<Call<K, A, B>>)
  {
    && (forall i, j :: 0 <= i < j < |calls| ==> cmp(calls[i].key, calls[j].key) == LT)
    && (forall c :: c in calls <==> Due(l, r, c))
  }

  predicate Due<K, A(==), B(==)>(l: map<K, A>, r: map<K, B>, c: Call<K, A, B>) {
    match c
    case LeftStep(k, a) => k in l && k !in r && l[k] == a
    case BothStep(k, a, b) => k in l && k in r && l[k] == a && r[k] == b
    case RightStep(k, b) => k in r && k !in l && r[k] == b
  }

  ghost predicate KeysAbove<K(!new), V>(cmp: (K, K) -> Order, k: K, m: map<K, V>) {
    forall x :: x in m ==> cmp(k, x) == LT
  }

  lemma TailAbove<K(!new), V>(cmp: (K, K) -> Order, s: seq<(K, V)>)
    requires s != [] && Sorted(cmp, s)
    ensures Sorted(cmp, s[1..]) && KeysAbove(cmp, s[0].0, MapOf(s[1..]))
  {
    forall x | x in MapOf(s[1..])
      ensures cmp(s[0].0, x) == LT
    {
      MapOfKeys(s[1..], x);
      var i :| 0 <= i < |s[1..]| && s[1..][i] == (x, MapOf(s[1..])[x]);
      assert s[i + 1].0 == x;
    }
  }

  lemma WholeAbove<K(!new), V>(cmp: (K, K) -> Order, k: K, s: seq<(K, V)>)
    requires TotalOrder(cmp) && Sorted(cmp, s) && (s != [] ==> cmp(k, s[0].0) == LT)
    ensures KeysAbove(cmp, k, MapOf(s))
  {
    if s != [] {
      TailAbove(cmp, s);
    }
  }

  /** Putting the call for the least key of the union in front of the calls for the others. */
  lemma ExactCons<K(!new), A(!new), B(!new)>(
    cmp: (K, K) -> Order, l: map<K, A>, r: map<K, B>, c: Call<K, A, B>, l': map<K, A>, r': map<K, B>,
    calls: seq<Call<K, A, B>>)
    requires TotalOrder(cmp) && ExactCalls(cmp, l', r', calls) && Due(l, r, c)
    requires l' == l - {c.key} && r' == r - {c.key} && KeysAbove(cmp, c.key, l') && KeysAbove(cmp, c.key, r')
    ensures ExactCalls(cmp, l, r, [c] + calls)
  {
    forall d
      ensures d in [c] + calls <==> Due(l, r, d)
    {
      assert d in [c] + calls <==> d == c || d in calls;
      assert d in calls <==> Due(l', r', d);
      if d.key == c.key {
        assert d.key !in l' && d.key !in r';
      }
    }
    forall d | d in calls
      ensures cmp(c.key, d.key) == LT
    {
      assert Due(l', r', d);
    }
  }

  lemma LeftFirst<K(!new), A(!new), B(!new)>(
    cmp: (K, K) -> Order, l: seq<(K, A)>, r: seq<(K, B)>)
    requires TotalOrder(cmp) && Sorted(cmp, l) && Sorted(cmp, r)
    requires l != [] && (r == [] || cmp(l[0].0, r[0].0) == LT)
    requires ExactCalls(cmp, MapOf(l[1..]), MapOf(r), MergeCalls(cmp, l[1..], r))
    ensures ExactCalls(cmp, MapOf(l), MapOf(r), MergeCalls(cmp, l, r))
  {
    TailAbove(cmp, l);
    WholeAbove(cmp, l[0].0, r);
    ExactCons(cmp, MapOf(l), MapOf(r), LeftStep(l[0].0, l[0].1), MapOf(l[1..]), MapOf(r), MergeCalls(cmp, l[1..], r));
  }

  lemma RightFirst<K(!new), A(!new), B(!new)>(
    cmp: (K, K) -> Order, l: seq<(K, A)>, r: seq<(K, B)>)
    requires TotalOrder(cmp) && Sorted(cmp, l) && Sorted(cmp, r)
    requires r != [] && (l == [] || cmp(l[0].0, r[0].0) == GT)
    requires ExactCalls(cmp, MapOf(l), MapOf(r[1..]), MergeCalls(cmp, l, r[1..]))
    ensures ExactCalls(cmp, MapOf(l), MapOf(r), MergeCalls(cmp, l, r))
  {
    TailAbove(cmp, r);
    WholeAbove(cmp, r[0].0, l);
    ExactCons(cmp, MapOf(l), MapOf(r), RightStep(r[0].0, r[0].1), MapOf(l), MapOf(r[1..]), MergeCalls(cmp, l, r[1..]));
  }

  lemma BothFirst<K(!new), A(!new), B(!new)>(
    cmp: (K, K) -> Order, l: seq<(K, A)>, r: seq<(K, B)>)
    requires TotalOrder(cmp) && Sorted(cmp, l) && Sorted(cmp, r)
    requires l != [] && r != [] && cmp(l[0].0, r[0].0) == EQ
    requires ExactCalls(cmp, MapOf(l[1..]), MapOf(r[1..]), MergeCalls(cmp, l[1..], r[1..]))
    ensures ExactCalls(cmp, MapOf(l), MapOf(r), MergeCalls(cmp, l, r))
  {
    TailAbove(cmp, l);
    TailAbove(cmp, r);
    ExactCons(cmp, MapOf(l), MapOf(r), BothStep(l[0].0, l[0].1, r[0].1), MapOf(l[1..]), MapOf(r[1..]),
              MergeCalls(cmp, l[1..], r[1..]));
  }

  lemma TailSorted<K(!new), V>(cmp: (K, K) -> Order, s: seq<(K, V)>)
    requires Sorted(cmp, s)
    ensures s != [] ==> Sorted(cmp, s[1..])
  {
  }

  lemma {:induction false} MergeCallsExact<K(!new), A(!new), B(!new)>(
    cmp: (K, K) -> Order, l: seq<(K, A)>, r: seq<(K, B)>)
    requires TotalOrder(cmp) && Sorted(cmp, l) && Sorted(cmp, r)
    ensures ExactCalls(cmp, MapOf(l), MapOf(r), MergeCalls(cmp, l, r))
    decreases |l| + |r|
  {
    TailSorted(cmp, l);
    TailSorted(cmp, r);
    if l == [] && r == [] {
    } else if r == [] || (l != [] && cmp(l[0].0, r[0].0) == LT) {
      MergeCallsExact(cmp, l[1..], r);
      LeftFirst(cmp, l, r);
    } else if l == [] || cmp(l[0].0, r[0].0) == GT {
      MergeCallsExact(cmp, l, r[1..]);
      RightFirst(cmp, l, r);
    } else {
      MergeCallsExact(cmp, l[1..], r[1..]);
      BothFirst(cmp, l, r);
    }
  }

  /** `merge`: the result is that of the exact calls, made in ascending key order. */
  method Merge<K(!new), A(!new), B(!new), R>(
    cmp: (K, K) -> Order, f: Steps<K, A, B, R>, leftDict: Dict<K, A>, rightDict: Dict<K, B>, initialResult: R)
    returns (result: R)
    requires TotalOrder(cmp) && Sorted(cmp, Items(leftDict)) && Sorted(cmp, Items(rightDict))
    ensures exists calls :: ExactCalls(cmp, Contents(leftDict), Contents(rightDict), calls)
                            && result == InvokeAll(f, calls, initialResult)
  {
    var list := ToList(cmp, leftDict);
    var state := Foldl((k, v, s) => StepState(cmp, f, k, v, s), (list, initialResult), rightDict);
    var leftovers;
    leftovers, result := state.0, state.1;
    result := FoldLeftovers(f, leftovers, result);
    FoldStepState(cmp, f, Items(leftDict), Items(rightDict), initialResult);
    MergeCallsExact(cmp, Items(leftDict), Items(rightDict));
    ghost var calls := MergeCalls(cmp, Items(leftDict), Items(rightDict));
    assert ExactCalls(cmp, Contents(leftDict), Contents(rightDict), calls);
  }

  /** `List.foldl leftStep` over what the fold left behind. */
  method FoldLeftovers<K, A, B, R>(f: Steps<K, A, B, R>, leftovers: seq<(K, A)>, init: R) returns (result: R)
    ensures result == FoldlList(f.left, init, leftovers)
  {
    result := init;
    for i := 0 to |leftovers|
      invariant FoldlList(f.left, result, leftovers[i..]) == FoldlList(f.left, init, leftovers)
    {
      result := f.left(leftovers[i].0, leftovers[i].1, result);
      assert leftovers[i..][1..] == leftovers[i + 1..];
    }
  }
}
