/** The red-black dictionary of Elm's core library: insertion, and deletion with double-black nodes. */
module Dict {
  import opened Basics

  datatype NColor = Red | Black | BBlack | NBlack
  datatype LeafColor = LBlack | LBBlack

  datatype Dict<K, V> =
    | RBEmpty(leaf: LeafColor)
    | RBNode(color: NColor, key: K, value: V, left: Dict<K, V>, right: Dict<K, V>)

  function Empty<K, V>(): Dict<K, V> {
    RBEmpty(LBlack)
  }

  predicate IsNode<K, V>(t: Dict<K, V>, c: NColor) {
    t.RBNode? && t.color == c
  }

  predicate IsBBlack<K, V>(t: Dict<K, V>) {
    IsNode(t, BBlack) || t == RBEmpty(LBBlack)
  }

  predicate Blackish<K, V>(t: Dict<K, V>) {
    t.RBNode? ==> t.color == Black || t.color == BBlack
  }

  // ---------------------------------------------------------------- operations

  function MoreBlack(c: NColor): Outcome<NColor> {
    match c
    case Black => Done(BBlack)
    case Red => Done(Black)
    case NBlack => Done(Red)
    case BBlack => Crash
  }

  function LessBlack(c: NColor): Outcome<NColor> {
    match c
    case BBlack => Done(Black)
    case Black => Done(Red)
    case Red => Done(NBlack)
    case NBlack => Crash
  }

  function LessBlackTree<K, V>(t: Dict<K, V>): Outcome<Dict<K, V>> {
    match t
    case RBNode(c, k, v, l, r) =>
      var c' :- LessBlack(c);
      Done(RBNode(c', k, v, l, r))
    case RBEmpty(_) => Done(RBEmpty(LBlack))
  }

  function EnsureBlackRoot<K, V>(t: Dict<K, V>): Dict<K, V> {
    if IsNode(t, Red) then t.(color := Black) else t
  }

  function Blacken<K, V>(t: Dict<K, V>): Dict<K, V> {
    match t
    case RBEmpty(_) => RBEmpty(LBlack)
    case RBNode(_, k, v, l, r) => RBNode(Black, k, v, l, r)
  }

  function Redden<K, V>(t: Dict<K, V>): Outcome<Dict<K, V>> {
    match t
    case RBEmpty(_) => Crash
    case RBNode(_, k, v, l, r) => Done(RBNode(Red, k, v, l, r))
  }

  function BalancedTree<K, V>(
    col: NColor, xk: K, xv: V, yk: K, yv: V, zk: K, zv: V,
    a: Dict<K, V>, b: Dict<K, V>, c: Dict<K, V>, d: Dict<K, V>): Outcome<Dict<K, V>>
  {
    var col' :- LessBlack(col);
    Done(RBNode(col', yk, yv, RBNode(Black, xk, xv, a, b), RBNode(Black, zk, zv, c, d)))
  }

  /** The six rebalancing cases, tried in the order of the source's patterns. */
  function BalanceHelp<K, V>(t: Dict<K, V>): Outcome<Dict<K, V>>
    decreases IsNode(t, BBlack), 0
  {
    if t.RBEmpty? then Done(t)
    else
      var l, r := t.left, t.right;
      if IsNode(l, Red) && IsNode(l.left, Red) then
        BalancedTree(t.color, l.left.key, l.left.value, l.key, l.value, t.key, t.value,
                     l.left.left, l.left.right, l.right, r)
      else if IsNode(l, Red) && IsNode(l.right, Red) then
        BalancedTree(t.color, l.key, l.value, l.right.key, l.right.value, t.key, t.value,
                     l.left, l.right.left, l.right.right, r)
      else if IsNode(r, Red) && IsNode(r.left, Red) then
        BalancedTree(t.color, t.key, t.value, r.left.key, r.left.value, r.key, r.value,
                     l, r.left.left, r.left.right, r.right)
      else if IsNode(r, Red) && IsNode(r.right, Red) then
        BalancedTree(t.color, t.key, t.value, r.key, r.value, r.right.key, r.right.value,
                     l, r.left, r.right.left, r.right.right)
      else if t.color == BBlack && IsNode(r, NBlack) && IsNode(r.left, Black) && IsNode(r.right, Black) then
        var d :- Redden(r.right);
        var right :- Balance(Black, r.key, r.value, r.left.right, d);
        Done(RBNode(Black, r.left.key, r.left.value, RBNode(Black, t.key, t.value, l, r.left.left), right))
      else if t.color == BBlack && IsNode(l, NBlack) && IsNode(l.left, Black) && IsNode(l.right, Black) then
        var a :- Redden(l.left);
        var left :- Balance(Black, l.key, l.value, a, l.right.left);
        Done(RBNode(Black, l.right.key, l.right.value, left, RBNode(Black, t.key, t.value, l.right.right, r)))
      else Done(t)
  }

  function Balance<K, V>(c: NColor, k: K, v: V, l: Dict<K, V>, r: Dict<K, V>): Outcome<Dict<K, V>>
    decreases c == BBlack, 1
  {
    var t := RBNode(c, k, v, l, r);
    if Blackish(t) then BalanceHelp(t) else Done(t)
  }

  function Bubble<K, V>(c: NColor, k: K, v: V, l: Dict<K, V>, r: Dict<K, V>): Outcome<Dict<K, V>> {
    if IsBBlack(l) || IsBBlack(r) then
      var c' :- MoreBlack(c);
      var l' :- LessBlackTree(l);
      var r' :- LessBlackTree(r);
      Balance(c', k, v, l', r')
    else Done(RBNode(c, k, v, l, r))
  }

  function MaxWithDefault<K, V>(k: K, v: V, r: Dict<K, V>): (K, V)
    decreases r
  {
    match r
    case RBEmpty(_) => (k, v)
    case RBNode(_, k', v', _, r') => MaxWithDefault(k', v', r')
  }

  /** `removeMax` receives a node's five fields; here they are the fields of `t`. */
  function RemoveMax<K, V>(t: Dict<K, V>): Outcome<Dict<K, V>>
    requires t.RBNode?
    decreases t, 0
  {
    if t.right.RBEmpty? then Rem(t.color, t.left, t.right)
    else
      var r' :- RemoveMax(t.right);
      Bubble(t.color, t.key, t.value, t.left, r')
  }

  function Rem<K, V>(c: NColor, l: Dict<K, V>, r: Dict<K, V>): Outcome<Dict<K, V>>
    decreases l, 1
  {
    match (l, r)
    case (RBEmpty(_), RBEmpty(_)) =>
      (match c
       case Red => Done(RBEmpty(LBlack))
       case Black => Done(RBEmpty(LBBlack))
       case _ => Crash)
    case (RBEmpty(lc), RBNode(rc, k, v, rl, rr)) =>
      if c == Black && lc == LBlack && rc == Red then Done(RBNode(Black, k, v, rl, rr)) else Crash
    case (RBNode(lc, k, v, ll, lr), RBEmpty(rc)) =>
      if c == Black && lc == Red && rc == LBlack then Done(RBNode(Black, k, v, ll, lr)) else Crash
    case (RBNode(lc, lk, lv, ll, lr), RBNode(_, _, _, _, _)) =>
      var newLeft :- RemoveMax(l);
      var (k, v) := MaxWithDefault(lk, lv, lr);
      Bubble(c, k, v, newLeft, r)
  }

  datatype Flag = Insert | Remove | Same

  /** The recursive worker of `update`. */
  function Up<K, V>(cmp: (K, K) -> Order, k: K, alter: Option<V> -> Option<V>, t: Dict<K, V>)
    : Outcome<(Flag, Dict<K, V>)>
    decreases t
  {
    match t
    case RBEmpty(_) =>
      (match alter(None)
       case None => Done((Same, Empty()))
       case Some(v) => Done((Insert, RBNode(Red, k, v, Empty(), Empty()))))
    case RBNode(c, tk, tv, l, r) =>
      match cmp(k, tk)
      case EQ =>
        (match alter(Some(tv))
         case None =>
           var t' :- Rem(c, l, r);
           Done((Remove, t'))
         case Some(v) => Done((Same, RBNode(c, tk, v, l, r))))
      case LT =>
        var (flag, l') :- Up(cmp, k, alter, l);
        Reassemble(flag, c, tk, tv, l', r)
      case GT =>
        var (flag, r') :- Up(cmp, k, alter, r);
        Reassemble(flag, c, tk, tv, l, r')
  }

  /** How `up` rebuilds a node around a changed child. */
  function Reassemble<K, V>(flag: Flag, c: NColor, k: K, v: V, l: Dict<K, V>, r: Dict<K, V>)
    : Outcome<(Flag, Dict<K, V>)>
  {
    match flag
    case Same => Done((Same, RBNode(c, k, v, l, r)))
    case Insert =>
      var t' :- Balance(c, k, v, l, r);
      Done((Insert, t'))
    case Remove =>
      var t' :- Bubble(c, k, v, l, r);
      Done((Remove, t'))
  }

  function Update<K, V>(cmp: (K, K) -> Order, k: K, alter: Option<V> -> Option<V>, t: Dict<K, V>)
    : Outcome<Dict<K, V>>
  {
    var (flag, t') :- Up(cmp, k, alter, t);
    match flag
    case Same => Done(t')
    case Insert => Done(EnsureBlackRoot(t'))
    case Remove => Done(Blacken(t'))
  }

  // ---------------------------------------------------------------- contents

  /** The key-value pairs of a tree in symmetric order, in front of `rest`. */
  function ItemsOnto<K, V>(t: Dict<K, V>, rest: seq<(K, V)>): seq<(K, V)>
    decreases t
  {
    match t
    case RBEmpty(_) => rest
    case RBNode(_, k, v, l, r) => ItemsOnto(l, [(k, v)] + ItemsOnto(r, rest))
  }

  function Items<K, V>(t: Dict<K, V>): seq<(K, V)> {
    ItemsOnto(t, [])
  }

  lemma BalancedTreeItems<K, V>(
    col: NColor, xk: K, xv: V, yk: K, yv: V, zk: K, zv: V,
    a: Dict<K, V>, b: Dict<K, V>, c: Dict<K, V>, d: Dict<K, V>, rest: seq<(K, V)>)
    requires col != NBlack
    ensures ItemsOnto(BalancedTree(col, xk, xv, yk, yv, zk, zv, a, b, c, d).value, rest) ==
            ItemsOnto(a, [(xk, xv)] + ItemsOnto(b, [(yk, yv)] + ItemsOnto(c, [(zk, zv)] + ItemsOnto(d, rest))))
  {
    var t := BalancedTree(col, xk, xv, yk, yv, zk, zv, a, b, c, d).value;
    assert ItemsOnto(t, rest) == ItemsOnto(t.left, [(yk, yv)] + ItemsOnto(t.right, rest));
  }

  /** No rotation loses, adds or reorders a pair. */
  lemma BalanceItems<K, V>(c: NColor, k: K, v: V, l: Dict<K, V>, r: Dict<K, V>, rest: seq<(K, V)>)
    ensures Balance(c, k, v, l, r).Done? ==>
              ItemsOnto(Balance(c, k, v, l, r).value, rest) == ItemsOnto(RBNode(c, k, v, l, r), rest)
    decreases c == BBlack
  {
    var t := RBNode(c, k, v, l, r);
    var more := [(k, v)] + ItemsOnto(r, rest);
    if !Blackish(t) {
    } else if IsNode(l, Red) && IsNode(l.left, Red) {
      BalancedTreeItems(c, l.left.key, l.left.value, l.key, l.value, k, v,
                        l.left.left, l.left.right, l.right, r, rest);
      assert ItemsOnto(l, more) == ItemsOnto(l.left, [(l.key, l.value)] + ItemsOnto(l.right, more));
    } else if IsNode(l, Red) && IsNode(l.right, Red) {
      BalancedTreeItems(c, l.key, l.value, l.right.key, l.right.value, k, v,
                        l.left, l.right.left, l.right.right, r, rest);
      assert ItemsOnto(l, more) == ItemsOnto(l.left, [(l.key, l.value)] + ItemsOnto(l.right, more));
    } else if IsNode(r, Red) && IsNode(r.left, Red) {
      BalancedTreeItems(c, k, v, r.left.key, r.left.value, r.key, r.value,
                        l, r.left.left, r.left.right, r.right, rest);
      assert ItemsOnto(r, rest) == ItemsOnto(r.left, [(r.key, r.value)] + ItemsOnto(r.right, rest));
    } else if IsNode(r, Red) && IsNode(r.right, Red) {
      BalancedTreeItems(c, k, v, r.key, r.value, r.right.key, r.right.value,
                        l, r.left, r.right.left, r.right.right, rest);
      assert ItemsOnto(r, rest) == ItemsOnto(r.left, [(r.key, r.value)] + ItemsOnto(r.right, rest));
    } else if c == BBlack && IsNode(r, NBlack) && IsNode(r.left, Black) && IsNode(r.right, Black) {
      BalanceItems(Black, r.key, r.value, r.left.right, Redden(r.right).value, rest);
      assert ItemsOnto(r, rest) == ItemsOnto(r.left, [(r.key, r.value)] + ItemsOnto(r.right, rest));
    } else if c == BBlack && IsNode(l, NBlack) && IsNode(l.left, Black) && IsNode(l.right, Black) {
      BalanceItems(Black, l.key, l.value, Redden(l.left).value, l.right.left,
                   [(l.right.key, l.right.value)] + ItemsOnto(l.right.right, more));
      assert ItemsOnto(l, more) == ItemsOnto(l.left, [(l.key, l.value)] + ItemsOnto(l.right, more));
    }
  }

  lemma BubbleItems<K, V>(c: NColor, k: K, v: V, l: Dict<K, V>, r: Dict<K, V>, rest: seq<(K, V)>)
    ensures Bubble(c, k, v, l, r).Done? ==>
              ItemsOnto(Bubble(c, k, v, l, r).value, rest) == ItemsOnto(RBNode(c, k, v, l, r), rest)
  {
    var c', l', r' := MoreBlack(c), LessBlackTree(l), LessBlackTree(r);
    if c'.Done? && l'.Done? && r'.Done? {
      BalanceItems(c'.value, k, v, l'.value, r'.value, rest);
      var more := [(k, v)] + ItemsOnto(r, rest);
      assert ItemsOnto(l'.value, more) == ItemsOnto(l, more);
    }
  }

  lemma {:induction false} RemoveMaxItems<K, V>(t: Dict<K, V>, rest: seq<(K, V)>)
    requires t.RBNode?
    ensures RemoveMax(t).Done? ==>
              ItemsOnto(RemoveMax(t).value, [MaxWithDefault(t.key, t.value, t.right)] + rest) == ItemsOnto(t, rest)
    decreases t
  {
    var max := MaxWithDefault(t.key, t.value, t.right);
    if t.right.RBEmpty? {
    } else if RemoveMax(t.right).Done? {
      RemoveMaxItems(t.right, rest);
      BubbleItems(t.color, t.key, t.value, t.left, RemoveMax(t.right).value, [max] + rest);
    }
  }

  /** Removing a node keeps every other pair, in order. */
  lemma RemItems<K, V>(c: NColor, l: Dict<K, V>, r: Dict<K, V>, rest: seq<(K, V)>)
    ensures Rem(c, l, r).Done? ==> ItemsOnto(Rem(c, l, r).value, rest) == ItemsOnto(l, ItemsOnto(r, rest))
  {
    if l.RBNode? && r.RBNode? && RemoveMax(l).Done? {
      var (k, v) := MaxWithDefault(l.key, l.value, l.right);
      BubbleItems(c, k, v, RemoveMax(l).value, r, rest);
      RemoveMaxItems(l, ItemsOnto(r, rest));
    }
  }

  // ---------------------------------------------------------------- shape

  /** A proper red-black tree with `n` black nodes on every path: only Red/Black nodes and LBlack
      leaves, and no red node with a red child. */
  ghost predicate RedBlack<K, V>(t: Dict<K, V>, n: nat) {
    match t
    case RBEmpty(c) => c == LBlack && n == 0
    case RBNode(Red, _, _, l, r) =>
      RedBlack(l, n) && RedBlack(r, n) && !IsNode(l, Red) && !IsNode(r, Red)
    case RBNode(Black, _, _, l, r) =>
      n > 0 && RedBlack(l, n - 1) && RedBlack(r, n - 1)
    case _ => false
  }

  /** What an insertion may leave behind below a black node: a red root above a red child. */
  ghost predicate Infrared<K, V>(t: Dict<K, V>, n: nat) {
    IsNode(t, Red) && RedBlack(t.left, n) && RedBlack(t.right, n)
  }

  /** What a deletion may leave behind: a root that counts as two black nodes. */
  ghost predicate DoubleBlack<K, V>(t: Dict<K, V>, n: nat) {
    match t
    case RBEmpty(c) => c == LBBlack && n == 1
    case RBNode(c, _, _, l, r) => c == BBlack && n >= 2 && RedBlack(l, n - 2) && RedBlack(r, n - 2)
  }

  /** `t'` is what an insertion below the root may make of a red-black tree `t`. */
  ghost predicate Inserted<K, V>(t: Dict<K, V>, n: nat, t': Dict<K, V>) {
    if IsNode(t, Red) then Infrared(t', n) else RedBlack(t', n)
  }

  /** `t'` is what a deletion may make of a red-black tree `t`. */
  ghost predicate Deleted<K, V>(t: Dict<K, V>, n: nat, t': Dict<K, V>) {
    if IsNode(t, Red) then RedBlack(t', n) else (RedBlack(t', n) && !IsNode(t', Red)) || DoubleBlack(t', n)
  }

  ghost function ChildHeight(c: NColor, n: nat): (m: int) {
    if c == Black then n - 1 else n
  }

  /** Rebalancing a black or double-black node whose left child is a red node above a red child. */
  lemma BalanceLeft<K, V>(c: NColor, k: K, v: V, l: Dict<K, V>, r: Dict<K, V>, m: nat)
    requires Infrared(l, m) && RedBlack(r, m)
    requires c == Black || (c == BBlack && !IsNode(r, Red))
    ensures var t' := Balance(c, k, v, l, r);
            t'.Done? && (if c == Black then RedBlack(t'.value, m + 1)
                         else (RedBlack(t'.value, m + 2) && !IsNode(t'.value, Red)) || DoubleBlack(t'.value, m + 2))
  {
    var t' := Balance(c, k, v, l, r).value;
    if IsNode(l.left, Red) || IsNode(l.right, Red) {
      assert RedBlack(t'.left, m + 1) && RedBlack(t'.right, m + 1);
    } else {
      assert RedBlack(l, m);
    }
  }

  lemma BalanceRight<K, V>(c: NColor, k: K, v: V, l: Dict<K, V>, r: Dict<K, V>, m: nat)
    requires RedBlack(l, m) && Infrared(r, m)
    requires c == Black || (c == BBlack && !IsNode(l, Red))
    ensures var t' := Balance(c, k, v, l, r);
            t'.Done? && (if c == Black then RedBlack(t'.value, m + 1)
                         else (RedBlack(t'.value, m + 2) && !IsNode(t'.value, Red)) || DoubleBlack(t'.value, m + 2))
  {
    var t' := Balance(c, k, v, l, r).value;
    if IsNode(r.left, Red) || IsNode(r.right, Red) {
      assert RedBlack(t'.left, m + 1) && RedBlack(t'.right, m + 1);
    } else {
      assert RedBlack(r, m);
    }
  }

  /** A black child stays black and a red child may go infrared: one level up both are repaired. */
  lemma BalanceInsert<K, V>(c: NColor, k: K, v: V, l: Dict<K, V>, r: Dict<K, V>,
                            l': Dict<K, V>, r': Dict<K, V>, n: nat)
    requires RedBlack(RBNode(c, k, v, l, r), n)
    requires (l' == l && Inserted(r, ChildHeight(c, n), r')) || (r' == r && Inserted(l, ChildHeight(c, n), l'))
    ensures Balance(c, k, v, l', r').Done? && Inserted(RBNode(c, k, v, l, r), n, Balance(c, k, v, l', r').value)
  {
    if c == Black {
      if Infrared(l', n - 1) && RedBlack(r', n - 1) {
        BalanceLeft(c, k, v, l', r', n - 1);
      } else if Infrared(r', n - 1) && RedBlack(l', n - 1) {
        BalanceRight(c, k, v, l', r', n - 1);
      }
    }
  }

  /** A double-black left child next to a red sibling: the negative-black rotation applies. */
  lemma BubbleLeftRedSibling<K, V>(k: K, v: V, l: Dict<K, V>, r: Dict<K, V>, m: nat)
    requires DoubleBlack(l, m) && RedBlack(r, m) && IsNode(r, Red)
    ensures Bubble(Black, k, v, l, r).Done?
    ensures RedBlack(Bubble(Black, k, v, l, r).value, m + 1) && !IsNode(Bubble(Black, k, v, l, r).value, Red)
  {
    var l', d := LessBlackTree(l).value, Redden(r.right).value;
    assert RedBlack(l', m - 1) && !IsNode(l', Red);
    assert IsNode(r.left, Black) && IsNode(r.right, Black);
    var left := RBNode(Black, k, v, l', r.left.left);
    assert RedBlack(left, m);
    BalanceRight(Black, r.key, r.value, r.left.right, d, m - 1);
  }

  lemma BubbleRightRedSibling<K, V>(k: K, v: V, l: Dict<K, V>, r: Dict<K, V>, m: nat)
    requires DoubleBlack(r, m) && RedBlack(l, m) && IsNode(l, Red)
    ensures Bubble(Black, k, v, l, r).Done?
    ensures RedBlack(Bubble(Black, k, v, l, r).value, m + 1) && !IsNode(Bubble(Black, k, v, l, r).value, Red)
  {
    var r', a := LessBlackTree(r).value, Redden(l.left).value;
    assert RedBlack(r', m - 1) && !IsNode(r', Red);
    assert IsNode(l.left, Black) && IsNode(l.right, Black);
    var right := RBNode(Black, k, v, l.right.right, r');
    assert RedBlack(right, m);
    BalanceLeft(Black, l.key, l.value, a, l.right.left, m - 1);
  }

  lemma BubbleLeft<K, V>(c: NColor, k: K, v: V, l: Dict<K, V>, l': Dict<K, V>, r: Dict<K, V>, n: nat)
    requires RedBlack(RBNode(c, k, v, l, r), n) && Deleted(l, ChildHeight(c, n), l')
    ensures Bubble(c, k, v, l', r).Done? && Deleted(RBNode(c, k, v, l, r), n, Bubble(c, k, v, l', r).value)
  {
    if IsBBlack(l') && IsNode(r, Red) {
      BubbleLeftRedSibling(k, v, l', r, n - 1);
    } else if IsBBlack(l') {
      var l'' := LessBlackTree(l').value;
      assert RedBlack(l'', ChildHeight(c, n) - 1) && !IsNode(l'', Red);
      assert IsNode(r, Black);
      BalanceRight(MoreBlack(c).value, k, v, l'', LessBlackTree(r).value, ChildHeight(c, n) - 1);
    }
  }

  lemma BubbleRight<K, V>(c: NColor, k: K, v: V, l: Dict<K, V>, r: Dict<K, V>, r': Dict<K, V>, n: nat)
    requires RedBlack(RBNode(c, k, v, l, r), n) && Deleted(r, ChildHeight(c, n), r')
    ensures Bubble(c, k, v, l, r').Done? && Deleted(RBNode(c, k, v, l, r), n, Bubble(c, k, v, l, r').value)
  {
    if IsBBlack(r') && IsNode(l, Red) {
      BubbleRightRedSibling(k, v, l, r', n - 1);
    } else if IsBBlack(r') {
      var r'' := LessBlackTree(r').value;
      assert RedBlack(r'', ChildHeight(c, n) - 1) && !IsNode(r'', Red);
      assert IsNode(l, Black);
      BalanceLeft(MoreBlack(c).value, k, v, LessBlackTree(l).value, r'', ChildHeight(c, n) - 1);
    }
  }

  lemma {:induction false} RemoveMaxShape<K, V>(t: Dict<K, V>, n: nat)
    requires t.RBNode? && RedBlack(t, n)
    ensures RemoveMax(t).Done? && Deleted(t, n, RemoveMax(t).value)
    decreases t, 0
  {
    if t.right.RBEmpty? {
      RemShape(t.color, t.key, t.value, t.left, t.right, n);
    } else {
      RemoveMaxShape(t.right, ChildHeight(t.color, n));
      BubbleRight(t.color, t.key, t.value, t.left, t.right, RemoveMax(t.right).value, n);
    }
  }

  /** No crash branch of `rem` is reached on a red-black tree. */
  lemma {:induction false} RemShape<K, V>(c: NColor, k: K, v: V, l: Dict<K, V>, r: Dict<K, V>, n: nat)
    requires RedBlack(RBNode(c, k, v, l, r), n)
    ensures Rem(c, l, r).Done? && Deleted(RBNode(c, k, v, l, r), n, Rem(c, l, r).value)
    decreases l, 1
  {
    if l.RBNode? && r.RBNode? {
      RemoveMaxShape(l, ChildHeight(c, n));
      var (k', v') := MaxWithDefault(l.key, l.value, l.right);
      BubbleLeft(c, k', v', l, RemoveMax(l).value, r, n);
    }
  }

  /** What `up` may make of a red-black tree, by the flag it returns. */
  ghost predicate Changed<K, V>(flag: Flag, t: Dict<K, V>, n: nat, t': Dict<K, V>) {
    match flag
    case Same => RedBlack(t', n) && (IsNode(t, Red) <==> IsNode(t', Red))
    case Insert => Inserted(t, n, t')
    case Remove => Deleted(t, n, t')
  }

  lemma {:induction false} UpShape<K, V>(
    cmp: (K, K) -> Order, k: K, alter: Option<V> -> Option<V>, t: Dict<K, V>, n: nat)
    requires RedBlack(t, n)
    ensures Up(cmp, k, alter, t).Done?
    ensures var (flag, t') := Up(cmp, k, alter, t).value; Changed(flag, t, n, t')
    decreases t
  {
    if t.RBNode? {
      var m := ChildHeight(t.color, n);
      match cmp(k, t.key)
      case EQ =>
        RemShape(t.color, t.key, t.value, t.left, t.right, n);
      case LT =>
        UpShape(cmp, k, alter, t.left, m);
        var (flag, l') := Up(cmp, k, alter, t.left).value;
        ReassembleShape(flag, t.color, t.key, t.value, t.left, t.right, l', t.right, n);
      case GT =>
        UpShape(cmp, k, alter, t.right, m);
        var (flag, r') := Up(cmp, k, alter, t.right).value;
        ReassembleShape(flag, t.color, t.key, t.value, t.left, t.right, t.left, r', n);
    }
  }

  lemma ReassembleShape<K, V>(flag: Flag, c: NColor, k: K, v: V, l: Dict<K, V>, r: Dict<K, V>,
                              l': Dict<K, V>, r': Dict<K, V>, n: nat)
    requires RedBlack(RBNode(c, k, v, l, r), n)
    requires (l' == l && Changed(flag, r, ChildHeight(c, n), r')) || (r' == r && Changed(flag, l, ChildHeight(c, n), l'))
    ensures Reassemble(flag, c, k, v, l', r').Done?
    ensures var (flag', t') := Reassemble(flag, c, k, v, l', r').value;
            flag' == flag && Changed(flag, RBNode(c, k, v, l, r), n, t')
  {
    match flag
    case Same =>
    case Insert =>
      BalanceInsert(c, k, v, l, r, l', r', n);
    case Remove =>
      if l' == l && Deleted(r, ChildHeight(c, n), r') {
        BubbleRight(c, k, v, l, r, r', n);
      } else {
        BubbleLeft(c, k, v, l, l', r, n);
      }
  }

  // ---------------------------------------------------------------- refinement of finite maps

  ghost predicate AllBelow<K, V>(cmp: (K, K) -> Order, s: seq<(K, V)>, k: K) {
    forall i :: 0 <= i < |s| ==> cmp(s[i].0, k) == LT
  }

  ghost predicate AllAbove<K, V>(cmp: (K, K) -> Order, k: K, s: seq<(K, V)>) {
    forall i :: 0 <= i < |s| ==> cmp(k, s[i].0) == LT
  }

  /** Strictly ascending keys. */
  ghost predicate Sorted<K, V>(cmp: (K, K) -> Order, s: seq<(K, V)>) {
    forall i, j :: 0 <= i < j < |s| ==> cmp(s[i].0, s[j].0) == LT
  }

  function Entry<K, V>(k: K, v: Option<V>): seq<(K, V)> {
    if v.None? then [] else [(k, v.value)]
  }

  lemma {:induction false} ItemsSplit<K, V>(t: Dict<K, V>, rest: seq<(K, V)>)
    ensures ItemsOnto(t, rest) == Items(t) + rest
    ensures t.RBNode? ==> Items(t) == Items(t.left) + [(t.key, t.value)] + Items(t.right)
    decreases t
  {
    if t.RBNode? {
      var e := [(t.key, t.value)];
      ItemsSplit(t.right, rest);
      ItemsSplit(t.left, e + ItemsOnto(t.right, rest));
      ItemsSplit(t.left, e + Items(t.right));
      assert Items(t) == Items(t.left) + (e + Items(t.right));
      assert Items(t.left) + (e + (Items(t.right) + rest)) == Items(t.left) + (e + Items(t.right)) + rest;
    }
  }

  lemma ReassembleItems<K, V>(flag: Flag, c: NColor, k: K, v: V, l: Dict<K, V>, r: Dict<K, V>)
    ensures Reassemble(flag, c, k, v, l, r).Done? ==>
              Items(Reassemble(flag, c, k, v, l, r).value.1) == Items(l) + [(k, v)] + Items(r)
  {
    ItemsSplit(RBNode(c, k, v, l, r), []);
    BalanceItems(c, k, v, l, r, []);
    BubbleItems(c, k, v, l, r, []);
  }

  lemma SortedSplit<K, V>(cmp: (K, K) -> Order, a: seq<(K, V)>, e: (K, V), b: seq<(K, V)>)
    requires Sorted(cmp, a + [e] + b)
    ensures AllBelow(cmp, a, e.0) && AllAbove(cmp, e.0, b) && Sorted(cmp, a) && Sorted(cmp, b)
  {
    var s, m := a + [e] + b, |a|;
    assert s[m] == e;
    assert forall i :: 0 <= i < m ==> s[i] == a[i];
    assert forall i :: 0 <= i < |b| ==> s[m + 1 + i] == b[i];
  }

  lemma SortedJoin<K(!new), V>(cmp: (K, K) -> Order, k: K, pre: seq<(K, V)>, v: Option<V>, post: seq<(K, V)>)
    requires TotalOrder(cmp) && Sorted(cmp, pre) && Sorted(cmp, post)
    requires AllBelow(cmp, pre, k) && AllAbove(cmp, k, post)
    ensures Sorted(cmp, pre + Entry(k, v) + post)
  {
  }

  lemma AboveMore<K(!new), V>(cmp: (K, K) -> Order, k: K, post: seq<(K, V)>, e: (K, V), right: seq<(K, V)>)
    requires TotalOrder(cmp) && cmp(k, e.0) == LT && AllAbove(cmp, k, post) && AllAbove(cmp, e.0, right)
    ensures AllAbove(cmp, k, post + [e] + right)
  {
  }

  lemma BelowMore<K(!new), V>(cmp: (K, K) -> Order, k: K, left: seq<(K, V)>, e: (K, V), pre: seq<(K, V)>)
    requires TotalOrder(cmp) && cmp(e.0, k) == LT && AllBelow(cmp, left, e.0) && AllBelow(cmp, pre, k)
    ensures AllBelow(cmp, left + [e] + pre, k)
  {
  }

  /** `up` finds the one place for `k` and changes nothing on either side of it. */
  lemma {:induction false} UpItems<K(!new), V>(
    cmp: (K, K) -> Order, k: K, alter: Option<V> -> Option<V>, t: Dict<K, V>)
    returns (pre: seq<(K, V)>, was: Option<V>, post: seq<(K, V)>)
    requires TotalOrder(cmp) && Sorted(cmp, Items(t)) && Up(cmp, k, alter, t).Done?
    ensures Items(t) == pre + Entry(k, was) + post
    ensures AllBelow(cmp, pre, k) && AllAbove(cmp, k, post)
    ensures Items(Up(cmp, k, alter, t).value.1) == pre + Entry(k, alter(was)) + post
    decreases t
  {
    if t.RBEmpty? {
      pre, was, post := [], None, [];
      if alter(None).Some? {
        ItemsSplit(RBNode(Red, k, alter(None).value, Empty(), Empty()), []);
      }
    } else {
      var e := (t.key, t.value);
      ItemsSplit(t, []);
      SortedSplit(cmp, Items(t.left), e, Items(t.right));
      match cmp(k, t.key)
      case EQ =>
        pre, was, post := Items(t.left), Some(t.value), Items(t.right);
        UpItemsHere(cmp, k, alter, t);
      case LT =>
        pre, was, post := UpItems(cmp, k, alter, t.left);
        var (flag, l') := Up(cmp, k, alter, t.left).value;
        ReassembleItems(flag, t.color, t.key, t.value, l', t.right);
        AboveMore(cmp, k, post, e, Items(t.right));
        Reassociate(pre, Entry(k, was), post, [e], Items(t.right));
        Reassociate(pre, Entry(k, alter(was)), post, [e], Items(t.right));
        post := post + [e] + Items(t.right);
      case GT =>
        pre, was, post := UpItems(cmp, k, alter, t.right);
        var (flag, r') := Up(cmp, k, alter, t.right).value;
        ReassembleItems(flag, t.color, t.key, t.value, t.left, r');
        BelowMore(cmp, k, Items(t.left), e, pre);
        Reassociate(Items(t.left), [e], pre, Entry(k, was), post);
        Reassociate(Items(t.left), [e], pre, Entry(k, alter(was)), post);
        pre := Items(t.left) + [e] + pre;
    }
  }

  lemma Reassociate<T>(a: seq<T>, b: seq<T>, c: seq<T>, d: seq<T>, e: seq<T>)
    ensures (a + b + c) + d + e == a + b + (c + d + e)
  {
  }

  lemma UpItemsHere<K, V>(cmp: (K, K) -> Order, k: K, alter: Option<V> -> Option<V>, t: Dict<K, V>)
    requires t.RBNode? && k == t.key && cmp(k, t.key) == EQ && Up(cmp, k, alter, t).Done?
    ensures Items(Up(cmp, k, alter, t).value.1) == Items(t.left) + Entry(k, alter(Some(t.value))) + Items(t.right)
  {
    var v := alter(Some(t.value));
    if v.None? {
      RemItems(t.color, t.left, t.right, []);
      ItemsSplit(t.left, Items(t.right));
    } else {
      ItemsSplit(t.(value := v.value), []);
    }
  }

  /** The finite map a list of pairs stands for. */
  function MapOf<K, V>(s: seq<(K, V)>): map<K, V> {
    if s == [] then map[] else MapOf(s[1..])[s[0].0 := s[0].1]
  }

  function Contents<K, V>(t: Dict<K, V>): map<K, V> {
    MapOf(Items(t))
  }

  function Lookup<K, V>(m: map<K, V>, k: K): Option<V> {
    if k in m then Some(m[k]) else None
  }

  /** What `update k alter` means on a finite map. */
  function Altered<K, V>(m: map<K, V>, k: K, alter: Option<V> -> Option<V>): map<K, V> {
    match alter(Lookup(m, k))
    case None => m - {k}
    case Some(v) => m[k := v]
  }

  lemma {:induction false} MapOfConcat<K, V>(a: seq<(K, V)>, b: seq<(K, V)>)
    ensures MapOf(a + b) == MapOf(b) + MapOf(a)
  {
    if a == [] {
      assert a + b == b;
    } else {
      assert (a + b)[1..] == a[1..] + b;
      MapOfConcat(a[1..], b);
    }
  }

  lemma {:induction false} MapOfKeys<K, V>(s: seq<(K, V)>, k: K)
    requires k in MapOf(s)
    ensures exists i :: 0 <= i < |s| && s[i] == (k, MapOf(s)[k])
  {
    if k == s[0].0 {
      assert s[0] == (k, MapOf(s)[k]);
    } else {
      MapOfKeys(s[1..], k);
      var i :| 0 <= i < |s[1..]| && s[1..][i] == (k, MapOf(s)[k]);
      assert s[i + 1] == (k, MapOf(s)[k]);
    }
  }

  lemma NotBelow<K(!new), V>(cmp: (K, K) -> Order, s: seq<(K, V)>, k: K)
    requires TotalOrder(cmp) && (AllBelow(cmp, s, k) || AllAbove(cmp, k, s))
    ensures k !in MapOf(s)
  {
    assert cmp(k, k) == EQ;
    if k in MapOf(s) {
      MapOfKeys(s, k);
    }
  }

  /** The map of a list split around `k`. */
  lemma MapOfSplit<K(!new), V>(cmp: (K, K) -> Order, k: K, pre: seq<(K, V)>, v: Option<V>, post: seq<(K, V)>)
    requires TotalOrder(cmp) && AllBelow(cmp, pre, k) && AllAbove(cmp, k, post)
    ensures Lookup(MapOf(pre + Entry(k, v) + post), k) == v
    ensures MapOf(pre + Entry(k, v) + post) - {k} == MapOf(post) + MapOf(pre)
  {
    NotBelow(cmp, pre, k);
    NotBelow(cmp, post, k);
    MapOfConcat(pre + Entry(k, v), post);
    MapOfConcat(pre, Entry(k, v));
    if v.Some? {
      assert MapOf(Entry(k, v)) == map[k := v.value] by { assert Entry(k, v)[1..] == []; }
    }
  }

  lemma SameLookup<K, V>(a: map<K, V>, b: map<K, V>, k: K)
    requires a - {k} == b - {k} && Lookup(a, k) == Lookup(b, k)
    ensures a == b
  {
    forall x
      ensures x in a <==> x in b
      ensures x in a ==> a[x] == b[x]
    {
      if x != k {
        assert x in a <==> x in a - {k};
        assert x in b <==> x in b - {k};
        if x in a {
          assert a[x] == (a - {k})[x] == (b - {k})[x];
        }
      }
    }
  }

  // ---------------------------------------------------------------- main results

  /** A dictionary the library can hand out. */
  ghost predicate Valid<K, V>(cmp: (K, K) -> Order, t: Dict<K, V>) {
    !IsNode(t, Red) && (exists n: nat :: RedBlack(t, n)) && Sorted(cmp, Items(t))
  }

  /** `update` never crashes, keeps the invariant, and refines map update. */
  lemma UpdateCorrect<K(!new), V>(cmp: (K, K) -> Order, k: K, alter: Option<V> -> Option<V>, t: Dict<K, V>)
    requires TotalOrder(cmp) && Valid(cmp, t)
    ensures Update(cmp, k, alter, t).Done?
    ensures Valid(cmp, Update(cmp, k, alter, t).value)
    ensures Contents(Update(cmp, k, alter, t).value) == Altered(Contents(t), k, alter)
  {
    UpdateShape(cmp, k, alter, t);
    var u := Up(cmp, k, alter, t).value.1;
    var t' := Update(cmp, k, alter, t).value;
    assert Items(t') == Items(u);
    var pre, was, post := UpItems(cmp, k, alter, t);
    MapOfSplit(cmp, k, pre, was, post);
    MapOfSplit(cmp, k, pre, alter(was), post);
    SameLookup(Contents(t'), Altered(Contents(t), k, alter), k);
    SortedParts(cmp, k, pre, was, post);
    SortedJoin(cmp, k, pre, alter(was), post);
  }

  lemma SortedParts<K, V>(cmp: (K, K) -> Order, k: K, pre: seq<(K, V)>, v: Option<V>, post: seq<(K, V)>)
    requires Sorted(cmp, pre + Entry(k, v) + post)
    ensures Sorted(cmp, pre) && Sorted(cmp, post)
  {
    var s, m := pre + Entry(k, v) + post, |pre + Entry(k, v)|;
    assert forall i :: 0 <= i < |pre| ==> s[i] == pre[i];
    assert forall i :: 0 <= i < |post| ==> s[m + i] == post[i];
  }

  lemma UpdateShape<K, V>(cmp: (K, K) -> Order, k: K, alter: Option<V> -> Option<V>, t: Dict<K, V>)
    requires !IsNode(t, Red) && exists n: nat :: RedBlack(t, n)
    ensures Up(cmp, k, alter, t).Done? && Update(cmp, k, alter, t).Done?
    ensures var t' := Update(cmp, k, alter, t).value; !IsNode(t', Red) && exists n: nat :: RedBlack(t', n)
  {
    var n: nat :| RedBlack(t, n);
    UpShape(cmp, k, alter, t, n);
    var (flag, u) := Up(cmp, k, alter, t).value;
    var t' := Update(cmp, k, alter, t).value;
    match flag
    case Same =>
    case Insert =>
      assert RedBlack(t', n) || RedBlack(t', n + 1);
    case Remove =>
      if DoubleBlack(u, n) {
        assert RedBlack(t', n - 1);
      }
  }

  /** The listing of a dictionary holds exactly the pairs of its map. */
  lemma ItemsExact<K(!new), V>(cmp: (K, K) -> Order, s: seq<(K, V)>, k: K, v: V)
    requires TotalOrder(cmp) && Sorted(cmp, s)
    ensures (k, v) in s <==> k in MapOf(s) && MapOf(s)[k] == v
  {
    if (k, v) in s {
      var i :| 0 <= i < |s| && s[i] == (k, v);
      assert s == s[..i] + Entry(k, Some(v)) + s[i + 1..];
      SortedSplit(cmp, s[..i], s[i], s[i + 1..]);
      MapOfSplit(cmp, k, s[..i], Some(v), s[i + 1..]);
    } else if k in MapOf(s) {
      MapOfKeys(s, k);
    }
  }

  // ---------------------------------------------------------------- runs

  datatype Op<!K, !V> =
    | InsertOp(key: K, value: V)
    | RemoveOp(key: K)
    | UpdateOp(key: K, alter: Option<V> -> Option<V>)

  /** `insert` and `remove` are updates with a constant function. */
  function Alteration<K, V>(op: Op<K, V>): Option<V> -> Option<V> {
    match op
    case InsertOp(_, v) => (_: Option<V>) => Some(v)
    case RemoveOp(_) => (_: Option<V>) => None
    case UpdateOp(_, f) => f
  }

  function Run<K, V>(cmp: (K, K) -> Order, ops: seq<Op<K, V>>): Outcome<Dict<K, V>> {
    if ops == [] then Done(Empty())
    else
      var op := ops[|ops| - 1];
      var t :- Run(cmp, ops[..|ops| - 1]);
      Update(cmp, op.key, Alteration(op), t)
  }

  /** The same operations on a finite map. */
  function RunMap<K, V>(ops: seq<Op<K, V>>): map<K, V> {
    if ops == [] then map[]
    else
      var op, m := ops[|ops| - 1], RunMap(ops[..|ops| - 1]);
      match op
      case InsertOp(k, v) => m[k := v]
      case RemoveOp(k) => m - {k}
      case UpdateOp(k, f) => Altered(m, k, f)
  }

  /** Every dictionary reached from `empty` keeps the invariant, and no crash branch is reached. */
  lemma {:induction false} RunCorrect<K(!new), V>(cmp: (K, K) -> Order, ops: seq<Op<K, V>>)
    requires TotalOrder(cmp)
    ensures Run(cmp, ops).Done? && Valid(cmp, Run(cmp, ops).value)
    ensures Contents(Run(cmp, ops).value) == RunMap(ops)
  {
    if ops == [] {
      assert RedBlack(Empty<K, V>(), 0);
    } else {
      var op, before := ops[|ops| - 1], ops[..|ops| - 1];
      RunCorrect(cmp, before);
      UpdateCorrect(cmp, op.key, Alteration(op), Run(cmp, before).value);
    }
  }

  // ---------------------------------------------------------------- height

  function Pow2(n: nat): nat {
    if n == 0 then 1 else 2 * Pow2(n - 1)
  }

  function Size<K, V>(t: Dict<K, V>): nat {
    match t
    case RBEmpty(_) => 0
    case RBNode(_, _, _, l, r) => Size(l) + 1 + Size(r)
  }

  function Height<K, V>(t: Dict<K, V>): nat {
    match t
    case RBEmpty(_) => 0
    case RBNode(_, _, _, l, r) => 1 + if Height(l) > Height(r) then Height(l) else Height(r)
  }

  lemma {:induction false} BlackHeightBounds<K, V>(t: Dict<K, V>, n: nat)
    requires RedBlack(t, n)
    ensures Pow2(n) <= Size(t) + 1
    ensures Height(t) <= 2 * n + if IsNode(t, Red) then 1 else 0
    decreases t
  {
    if t.RBNode? {
      BlackHeightBounds(t.left, ChildHeight(t.color, n));
      BlackHeightBounds(t.right, ChildHeight(t.color, n));
    }
  }

  lemma {:induction false} Pow2Monotone(a: nat, b: nat)
    requires a <= b
    ensures Pow2(a) <= Pow2(b)
    decreases b - a
  {
    if a < b {
      Pow2Monotone(a, b - 1);
    }
  }

  lemma {:induction false} Pow2Square(n: nat)
    ensures Pow2(2 * n) == Pow2(n) * Pow2(n)
  {
    if n > 0 {
      Pow2Square(n - 1);
      assert Pow2(2 * n) == 2 * (2 * Pow2(2 * n - 2));
    }
  }

  /** Height at most 2 * log2(size + 1), said without logarithms. */
  lemma HeightLogarithmic<K, V>(cmp: (K, K) -> Order, t: Dict<K, V>)
    requires Valid(cmp, t)
    ensures Pow2(Height(t)) <= (Size(t) + 1) * (Size(t) + 1)
  {
    var n: nat :| RedBlack(t, n);
    BlackHeightBounds(t, n);
    Pow2Monotone(Height(t), 2 * n);
    Pow2Square(n);
    MulMonotone(Pow2(n), Size(t) + 1);
  }

  lemma MulMonotone(a: nat, b: nat)
    requires a <= b
    ensures a * a <= b * b
  {
  }
}
