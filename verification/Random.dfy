/** The combined linear congruential generator: multiplication modulo two primes without leaving 32 bits. */
module Random {
  const M0 := 40014
  const M1 := 53668
  const M2 := 12211
  const M3 := 52774
  const M4 := 40692
  const M5 := 3791
  const M6 := 2147483563
  const M7 := 2147483399
  const M8 := 2147483562

  datatype State = State(s1: int, s2: int)

  predicate Valid(s: State) {
    1 <= s.s1 <= M6 - 1 && 1 <= s.s2 <= M7 - 1
  }

  predicate Int32(n: int) {
    -0x8000_0000 <= n < 0x8000_0000
  }

  // ---------------------------------------------------------------- operations

  /** JavaScript's `|0` on an integer. */
  function ToInt32(n: int): (r: int)
    ensures Int32(r) && (Int32(n) ==> r == n)
  {
    (n + 0x8000_0000) % 0x1_0000_0000 - 0x8000_0000
  }

  /** `(a / b) | 0` for positive `b`: the quotient is cut towards zero. */
  function Div(a: int, b: int): int
    requires b > 0
  {
    ToInt32(if a >= 0 then a / b else -(-a / b))
  }

  function InitState(seed: int): State {
    var s := if seed > -seed then seed else -seed;
    var q := Div(s, M6 - 1);
    State(s % (M6 - 1) + 1, q % (M7 - 1) + 1)
  }

  /** One multiplication: split off the high part so that no product gets too large. */
  function Multiplied(s: int, a: int, q: int, r: int, m: int): int
    requires q > 0
  {
    var k := Div(s, q);
    var raw := a * (s - k * q) - k * r;
    if raw < 0 then raw + m else raw
  }

  function Next(s: State): (int, State) {
    var newState2 := Multiplied(s.s2, M4, M3, M5, M7);
    var newState1 := Multiplied(s.s1, M0, M1, M2, M6);
    var z := newState1 - newState2;
    (if z < 1 then z + M8 else z, State(newState1, newState2))
  }

  function SplitState(s: State): (State, State) {
    var t := Next(s).1;
    var new_s2 := if s.s2 == 1 then M7 - 1 else s.s2 - 1;
    var new_s1 := if s.s1 == M6 - 1 then 1 else s.s1 + 1;
    (State(new_s1, t.s2), State(t.s1, new_s2))
  }

  const BASE := 2147483561

  /** How many digits to that base. */
  function ILogBase(i: int): nat
    decreases if i < 0 then 0 else i
  {
    if i < BASE then 1 else 1 + ILogBase(Div(i, BASE))
  }

  /** The number made of the next `n` outputs as digits, after a leading `acc`; a seed brings its own `next`. */
  function Number<S>(next: S -> (int, S), n: nat, acc: int, s: S): (int, S) {
    if n == 0 then (acc, s)
    else
      var (x, s') := next(s);
      Number(next, n - 1, x + acc * BASE, s')
  }

  /** The loop inside `int`. */
  method NumberLoop(count: nat, start: int, from: State) returns (acc: int, s: State)
    ensures (acc, s) == Number(Next, count, start, from)
    ensures Valid(from) ==> Valid(s)
  {
    var n := count;
    acc, s := start, from;
    while n != 0
      invariant Number(Next, n, acc, s) == Number(Next, count, start, from)
      invariant Valid(from) ==> Valid(s)
    {
      if Valid(s) {
        NextInRange(s);
      }
      var (x, nextState) := Next(s);
      n, acc, s := n - 1, x + acc * BASE, nextState;
    }
  }

  /** A number between two bounds, whichever is the lower. */
  method IntBetween(a: int, b: int, s: State) returns (r: int, s': State)
    requires Valid(s)
    ensures Valid(s') && (a <= r <= b || b <= r <= a)
    ensures var (lo, k) := if a < b then (a, b - a + 1) else (b, a - b + 1);
            var (v, t) := Number(Next, ILogBase(k), 1, s);
            r == lo + v % k && s' == t
  {
    var lo, hi := if a < b then a else b, if a < b then b else a;
    var k := hi - lo + 1;
    var v;
    v, s' := NumberLoop(ILogBase(k), 1, s);
    r := lo + v % k;
  }

  /** `listHelp`: so many values, the first one generated first. */
  method ListHelp<A, S>(count: int, generate: S -> (A, S), start: S) returns (list: seq<A>, seed: S)
    ensures |list| == if count < 1 then 0 else count
    ensures forall i :: 0 <= i < |list| ==> list[i] == generate(Later(generate, start, i)).0
    ensures seed == Later(generate, start, |list|)
  {
    var n, reversed := count, [];
    seed := start;
    while n >= 1
      invariant |reversed| == if count < 1 then 0 else count - n
      invariant n <= count && (n >= 0 || n == count)
      invariant seed == Later(generate, start, |reversed|)
      invariant forall i :: 0 <= i < |reversed| ==> reversed[|reversed| - 1 - i] == generate(Later(generate, start, i)).0
      decreases n
    {
      var (value, newSeed) := generate(seed);
      reversed, n, seed := [value] + reversed, n - 1, newSeed;
    }
    list := seq(|reversed|, i requires 0 <= i < |reversed| => reversed[|reversed| - 1 - i]);
  }

  /** The seed after so many values. */
  function Later<A, S>(generate: S -> (A, S), start: S, n: nat): S {
    if n == 0 then start else generate(Later(generate, start, n - 1)).1
  }

  // ---------------------------------------------------------------- what multiplication computes

  /** The split multiplication is the product modulo `m`, for a state within `m` and `m == a * q + r`, `r < q`;
      its product, its difference and the result fit 32 bits. */
  predicate Small(s: int, a: int, q: int, r: int)
    requires q > 0
  {
    var k := Div(s, q);
    Int32(k * q) && Int32(a * (s - k * q)) && Int32(k * r) && Int32(a * (s - k * q) - k * r)
  }

  lemma {:induction false} MultipleFar(d: int, m: int)
    requires d != 0 && m > 0
    ensures if d > 0 then d * m >= m else d * m <= -m
    decreases if d > 0 then d else -d
  {
    if d > 1 {
      MultipleFar(d - 1, m);
      assert d * m == (d - 1) * m + m;
    } else if d < -1 {
      MultipleFar(d + 1, m);
      assert d * m == (d + 1) * m - m;
    }
  }

  lemma RemainderIs(n: int, m: int, k: int, r: int)
    requires n == k * m + r && 0 <= r < m
    ensures n % m == r
  {
    var q := n / m;
    assert n == q * m + n % m;
    assert (q - k) * m == q * m - k * m;
    if q != k {
      MultipleFar(q - k, m);
      assert false;
    }
  }

  lemma FirstProduct(s: int)
    requires 1 <= s <= M6 - 1
    ensures Multiplied(s, M0, M1, M2, M6) == M0 * s % M6 && Small(s, M0, M1, M2)
  {
    var k := s / M1;
    assert s == k * M1 + s % M1;
    var raw := M0 * (s - k * M1) - k * M2;
    assert raw == M0 * s - k * M6;
    assert -M6 < raw < M6;
    if raw < 0 {
      RemainderIs(M0 * s, M6, k - 1, raw + M6);
    } else {
      RemainderIs(M0 * s, M6, k, raw);
    }
  }

  lemma SecondProduct(s: int)
    requires 1 <= s <= M7 - 1
    ensures Multiplied(s, M4, M3, M5, M7) == M4 * s % M7 && Small(s, M4, M3, M5)
  {
    var k := s / M3;
    assert s == k * M3 + s % M3;
    var raw := M4 * (s - k * M3) - k * M5;
    assert raw == M4 * s - k * M7;
    assert -M7 < raw < M7;
    if raw < 0 {
      RemainderIs(M4 * s, M7, k - 1, raw + M7);
    } else {
      RemainderIs(M4 * s, M7, k, raw);
    }
  }

  // ---------------------------------------------------------------- no state is lost

  /** The inverses of the two multipliers. */
  const INVERSE1 := 2082061899
  const INVERSE2 := 1481316021

  /** Multiplying by the inverse gives the state back: so no state becomes 0, and no two become one. */
  lemma FirstInverse(s: int)
    requires 0 <= s < M6
    ensures INVERSE1 * (M0 * s % M6) % M6 == s
  {
    var k, p := M0 * s / M6, M0 * s % M6;
    assert M0 * s == k * M6 + p;
    assert M0 * INVERSE1 == 38795 * M6 + 1;
    RemainderIs(INVERSE1 * p, M6, 38795 * s - INVERSE1 * k, s);
  }

  lemma SecondInverse(s: int)
    requires 0 <= s < M7
    ensures INVERSE2 * (M4 * s % M7) % M7 == s
  {
    var k, p := M4 * s / M7, M4 * s % M7;
    assert M4 * s == k * M7 + p;
    assert M4 * INVERSE2 == 28069 * M7 + 1;
    RemainderIs(INVERSE2 * p, M7, 28069 * s - INVERSE2 * k, s);
  }

  lemma FirstKeeps(s: int)
    requires 1 <= s <= M6 - 1
    ensures 1 <= Multiplied(s, M0, M1, M2, M6) <= M6 - 1
  {
    FirstProduct(s);
    FirstInverse(s);
  }

  lemma SecondKeeps(s: int)
    requires 1 <= s <= M7 - 1
    ensures 1 <= Multiplied(s, M4, M3, M5, M7) <= M7 - 1
  {
    SecondProduct(s);
    SecondInverse(s);
  }

  /** `next` keeps both states in range; its output is their difference, brought into range. */
  lemma NextInRange(s: State)
    requires Valid(s)
    ensures Valid(Next(s).1) && 1 <= Next(s).0 <= M8
    ensures (Next(s).0 - (Next(s).1.s1 - Next(s).1.s2)) % M8 == 0
  {
    FirstKeeps(s.s1);
    SecondKeeps(s.s2);
  }

  /** `next` multiplies the two states modulo the two primes, keeps them in range, and gives an output in range. */
  lemma NextValid(s: State)
    requires Valid(s)
    ensures Next(s).1 == State(M0 * s.s1 % M6, M4 * s.s2 % M7)
    ensures Valid(Next(s).1)
    ensures 1 <= Next(s).0 <= M8 && (Next(s).0 - (Next(s).1.s1 - Next(s).1.s2)) % M8 == 0
    ensures Small(s.s1, M0, M1, M2) && Small(s.s2, M4, M3, M5)
  {
    NextInRange(s);
    FirstProduct(s.s1);
    SecondProduct(s.s2);
  }

  /** `next` never takes two states to one, so a run never loses a state it could come back to. */
  lemma NextInjective(s: State, t: State)
    requires Valid(s) && Valid(t) && Next(s).1 == Next(t).1
    ensures s == t
  {
    NextValid(s);
    NextValid(t);
    FirstInverse(s.s1);
    FirstInverse(t.s1);
    SecondInverse(s.s2);
    SecondInverse(t.s2);
  }

  /** The state `next` came from. */
  function Previous(s: State): State {
    State(INVERSE1 * s.s1 % M6, INVERSE2 * s.s2 % M7)
  }

  lemma PreviousUndoesNext(s: State)
    requires Valid(s)
    ensures Previous(Next(s).1) == s
  {
    NextValid(s);
    FirstInverse(s.s1);
    SecondInverse(s.s2);
  }

  lemma InitValid(seed: int)
    ensures Valid(InitState(seed))
  {
  }

  /** Up to here every integer is a JavaScript number, and quotients are exact. */
  const TWO53: nat := 0x20_0000_0000_0000

  /** A seed can be read off the states it gives, so no two seeds give the same, up to sign. */
  lemma SeedRecovered(seed: int)
    requires 0 <= seed < TWO53
    ensures var s := InitState(seed); (s.s2 - 1) * (M6 - 1) + (s.s1 - 1) == seed
    ensures InitState(-seed) == InitState(seed)
  {
    var q := seed / (M6 - 1);
    assert seed == q * (M6 - 1) + seed % (M6 - 1);
    assert 0 <= q < M7 - 1;
    RemainderIs(q, M7 - 1, 0, q);
  }

  /** What is split can be put together again: no two states split into the same two. */
  lemma SplitInjective(s: State, t: State)
    requires Valid(s) && Valid(t) && SplitState(s) == SplitState(t)
    ensures s == t
  {
  }

  /** What the halves are: each has one part of the next state, and one part next to the old one, round the end of its
      range: one more in the first half, one less in the second. */
  lemma SplitHalves(s: State)
    requires Valid(s)
    ensures var (first, second) := SplitState(s);
            && first.s2 == M4 * s.s2 % M7 && second.s1 == M0 * s.s1 % M6
            && first.s1 - 1 == s.s1 % (M6 - 1) && second.s2 - 1 == (s.s2 - 2) % (M7 - 1)
  {
    NextValid(s);
    if s.s1 < M6 - 1 {
      RemainderIs(s.s1, M6 - 1, 0, s.s1);
    } else {
      RemainderIs(s.s1, M6 - 1, 1, 0);
    }
    if s.s2 == 1 {
      RemainderIs(s.s2 - 2, M7 - 1, -1, M7 - 2);
    } else {
      RemainderIs(s.s2 - 2, M7 - 1, 0, s.s2 - 2);
    }
  }

  /** The one state that splits into the same state twice. */
  const TWIN := State(591707852, 1228505531)

  lemma FirstHalf(s: int)
    requires 1 <= s <= M6 - 1
    ensures M0 * s % M6 == (if s == M6 - 1 then 1 else s + 1) <==> s == TWIN.s1
  {
    if s == M6 - 1 {
      RemainderIs(M0 * s, M6, M0 - 1, M6 - M0);
    } else if M0 * s % M6 == s + 1 {
      var k := M0 * s / M6;
      assert M0 * s == k * M6 + (s + 1);
      assert 40013 * TWIN.s1 == 11025 * M6 + 1;
      RemainderIs(s, M6, TWIN.s1 * k - 11025 * s, TWIN.s1);
      RemainderIs(s, M6, 0, s);
    } else if s == TWIN.s1 {
      RemainderIs(M0 * s, M6, 11025, s + 1);
    }
  }

  lemma SecondHalf(s: int)
    requires 1 <= s <= M7 - 1
    ensures M4 * s % M7 == (if s == 1 then M7 - 1 else s - 1) <==> s == TWIN.s2
  {
    if s == 1 {
      RemainderIs(M4 * s, M7, 0, M4);
    } else if M4 * s % M7 == s - 1 {
      var k := M4 * s / M7;
      assert M4 * s == k * M7 + (s - 1);
      assert 40691 * TWIN.s2 == 23278 * M7 - 1;
      RemainderIs(s, M7, 23278 * s - TWIN.s2 * k, TWIN.s2);
      RemainderIs(s, M7, 0, s);
    } else if s == TWIN.s2 {
      RemainderIs(M4 * s, M7, 23278, s - 1);
    }
  }

  /** The two halves are different for every valid state but one. */
  lemma HalvesDifferUnless(s: State)
    requires Valid(s)
    ensures Valid(TWIN) && (SplitState(s).0 == SplitState(s).1 <==> s == TWIN)
  {
    NextValid(s);
    FirstHalf(s.s1);
    SecondHalf(s.s2);
  }

  lemma SplitValid(s: State)
    requires Valid(s)
    ensures Valid(SplitState(s).0) && Valid(SplitState(s).1)
  {
    NextInRange(s);
  }

  // ---------------------------------------------------------------- whole runs

  /** What a program does with a state: take the next one, or go on with one of the two it splits into. */
  datatype Use = Take | Left | Right

  function After(s: State, uses: seq<Use>): State {
    if uses == [] then s
    else
      var before := After(s, uses[..|uses| - 1]);
      match uses[|uses| - 1]
      case Take => Next(before).1
      case Left => SplitState(before).0
      case Right => SplitState(before).1
  }

  /** From any seed, however the state is used, both halves stay in range and every output is in range. */
  lemma {:induction false} RunValid(seed: int, uses: seq<Use>)
    ensures Valid(After(InitState(seed), uses))
    ensures 1 <= Next(After(InitState(seed), uses)).0 <= M8
    decreases |uses|
  {
    var s := After(InitState(seed), uses);
    if uses == [] {
      InitValid(seed);
    } else {
      var before := After(InitState(seed), uses[..|uses| - 1]);
      RunValid(seed, uses[..|uses| - 1]);
      NextInRange(before);
      SplitValid(before);
    }
    NextInRange(s);
  }

  function Power(a: int, n: nat): int {
    if n == 0 then 1 else a * Power(a, n - 1)
  }

  /** After `n` steps the states are the first ones times the `n`-th powers of the multipliers. */
  lemma {:induction false} NthState(s: State, n: nat)
    requires Valid(s)
    ensures Valid(Later(Next, s, n))
    ensures Later(Next, s, n) == State(Power(M0, n) * s.s1 % M6, Power(M4, n) * s.s2 % M7)
  {
    if n == 0 {
      RemainderIs(s.s1, M6, 0, s.s1);
      RemainderIs(s.s2, M7, 0, s.s2);
    } else {
      NthState(s, n - 1);
      NextValid(Later(Next, s, n - 1));
      NextPower(M0, n, s.s1, M6);
      NextPower(M4, n, s.s2, M7);
    }
  }

  lemma NextPower(a: int, n: nat, x: int, m: int)
    requires n > 0 && m > 0
    ensures a * (Power(a, n - 1) * x % m) % m == Power(a, n) * x % m
  {
    var p := Power(a, n - 1);
    ProductOfRemainder(a, p * x, m);
    assert a * (p * x) == a * p * x;
  }

  lemma ProductOfRemainder(a: int, x: int, m: int)
    requires m > 0
    ensures a * (x % m) % m == a * x % m
  {
    var y := a * (x % m);
    assert x == x / m * m + x % m;
    assert a * x == a * (x / m) * m + y;
    assert y == y / m * m + y % m;
    assert a * x == (a * (x / m) + y / m) * m + y % m;
    RemainderIs(a * x, m, a * (x / m) + y / m, y % m);
  }

  // ---------------------------------------------------------------- the numbers that are made

  /** The next `n` values. */
  function Outputs<A, S>(generate: S -> (A, S), start: S, n: nat): (r: seq<A>)
    ensures |r| == n
  {
    if n == 0 then [] else [generate(start).0] + Outputs(generate, generate(start).1, n - 1)
  }

  lemma {:induction false} LaterFirst<A, S>(generate: S -> (A, S), start: S, n: nat)
    ensures Later(generate, start, n + 1) == Later(generate, generate(start).1, n)
    decreases n
  {
    if n > 0 {
      LaterFirst(generate, start, n - 1);
    }
  }

  /** The value of some digits, the first counting most. */
  function Positional(digits: seq<int>): int {
    if digits == [] then 0
    else digits[0] * Power(BASE, |digits| - 1) + Positional(digits[1..])
  }

  lemma PositionalFirst(x: int, digits: seq<int>)
    ensures Positional([x] + digits) == x * Power(BASE, |digits|) + Positional(digits)
  {
    assert ([x] + digits)[1..] == digits;
  }

  lemma Distributed(x: int, acc: int, b: int, p: int, rest: int)
    ensures (x + acc * b) * p + rest == acc * (b * p) + (x * p + rest)
  {
    assert (x + acc * b) * p == x * p + acc * b * p;
    assert acc * b * p == acc * (b * p);
  }

  /** The number is its leading part and the next outputs as digits, and the state has moved on by as many. */
  lemma {:induction false} NumberIsDigits<S>(next: S -> (int, S), n: nat, acc: int, s: S)
    ensures Number(next, n, acc, s) == (acc * Power(BASE, n) + Positional(Outputs(next, s, n)), Later(next, s, n))
    decreases n
  {
    if n > 0 {
      var (x, s') := next(s);
      NumberIsDigits(next, n - 1, x + acc * BASE, s');
      LaterFirst(next, s, n - 1);
      PositionalFirst(x, Outputs(next, s', n - 1));
      Distributed(x, acc, BASE, Power(BASE, n - 1), Positional(Outputs(next, s', n - 1)));
    }
  }

  lemma QuotientBounds(i: int, q: int, low: int, high: int)
    requires i >= 0 && q == i / BASE && low <= q < high
    ensures BASE * low <= i < BASE * high
  {
    assert i == BASE * q + i % BASE;
    assert BASE * (q + 1) <= BASE * high;
  }

  /** So many digits are needed for a number, and they suffice. */
  lemma {:induction false} DigitsSuffice(i: int)
    requires 1 <= i < TWO53
    ensures ILogBase(i) > 0 && Power(BASE, ILogBase(i) - 1) <= i < Power(BASE, ILogBase(i))
    decreases i
  {
    if i < BASE {
      assert Power(BASE, 1) == BASE * Power(BASE, 0);
    } else {
      var q := i / BASE;
      assert Div(i, BASE) == q;
      DigitsSuffice(q);
      QuotientBounds(i, q, Power(BASE, ILogBase(q) - 1), Power(BASE, ILogBase(q)));
    }
  }
}
