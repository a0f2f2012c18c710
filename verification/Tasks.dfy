/** Elm tasks: the `root`/`stack` machine that the scheduler drives, and what a task means by direct recursion. */
module Tasks {
  import opened Basics

  /** A task. A callback is code together with the values it captured; `call` says what it returns, so that a
      task may also run forever. */
  datatype Task<V, C> =
    | Succeed(value: V)
    | Fail(value: V)
    | AndThen(callback: C, task: Task<V, C>)
    | OnError(callback: C, task: Task<V, C>)
    | NativeBinding(callback: C)
    | Receive(callback: C)

  datatype Frame<C> = AndThenFrame(callback: C) | OnErrorFrame(callback: C)

  /** What a process gets from others: messages, and the tasks that its bindings are answered with. */
  datatype Input<V, C> = Input(inbox: seq<V>, answers: seq<Task<V, C>>)

  function NoInput<V, C>(): Input<V, C> {
    Input([], [])
  }

  /** Some input, and what comes after it. */
  function Plus<V, C>(a: Input<V, C>, b: Input<V, C>): Input<V, C> {
    Input(a.inbox + b.inbox, a.answers + b.answers)
  }

  /** What a process works on: `root`, `stack` (innermost frame first) and the input it has not used yet. */
  datatype Config<V, C> = Config(root: Task<V, C>, stack: seq<Frame<C>>, input: Input<V, C>)

  /** How a task ends. */
  datatype Verdict<V> = Ok(value: V) | Err(value: V)

  function Return<V, C>(r: Verdict<V>): Task<V, C> {
    match r
    case Ok(v) => Succeed(v)
    case Err(v) => Fail(v)
  }

  predicate Handles<V, C>(f: Frame<C>, r: Verdict<V>) {
    f.AndThenFrame? <==> r.Ok?
  }

  /** The stack from the innermost frame that takes this verdict: the inner loop that pops the others. */
  function Unwind<V, C>(stack: seq<Frame<C>>, r: Verdict<V>): (rest: seq<Frame<C>>)
    ensures rest != [] ==> Handles(rest[0], r)
  {
    if stack == [] || Handles(stack[0], r) then stack else Unwind(stack[1..], r)
  }

  /** One turn of the `step` loop, or the answer to a binding; nothing if the process has ended or has to wait. */
  function MachineStep<V, C>(call: (C, V) -> Task<V, C>, c: Config<V, C>): Option<Config<V, C>> {
    match c.root
    case Succeed(v) => Resolve(call, c, Ok(v))
    case Fail(v) => Resolve(call, c, Err(v))
    case AndThen(k, t) => Some(Config(t, [AndThenFrame(k)] + c.stack, c.input))
    case OnError(k, t) => Some(Config(t, [OnErrorFrame(k)] + c.stack, c.input))
    case NativeBinding(_) =>
      var answers := c.input.answers;
      if answers == [] then None else Some(Config(answers[0], c.stack, c.input.(answers := answers[1..])))
    case Receive(k) =>
      var inbox := c.input.inbox;
      if inbox == [] then None else Some(Config(call(k, inbox[0]), c.stack, c.input.(inbox := inbox[1..])))
  }

  function Resolve<V, C>(call: (C, V) -> Task<V, C>, c: Config<V, C>, r: Verdict<V>): Option<Config<V, C>> {
    var rest := Unwind(c.stack, r);
    if rest != [] then Some(Config(call(rest[0].callback, r.value), rest[1..], c.input))
    else if c.stack != [] then Some(c.(stack := []))
    else None
  }

  /** `k` turns, all of them possible. */
  function MachineSteps<V, C>(call: (C, V) -> Task<V, C>, c: Config<V, C>, k: nat): Option<Config<V, C>>
    decreases k
  {
    if k == 0 then Some(c)
    else match MachineStep(call, c)
      case None => None
      case Some(c') => MachineSteps(call, c', k - 1)
  }

  /** How a task ends, and the input it has left. */
  datatype Result<V, C> = Result(verdict: Verdict<V>, rest: Input<V, C>)

  /** What a task means: direct recursive evaluation on some input, `fuel` calls deep. A binding means its answer, and
      nothing comes of a task that the input does not suffice for. */
  function Eval<V, C>(call: (C, V) -> Task<V, C>, t: Task<V, C>, input: Input<V, C>, fuel: nat): Option<Result<V, C>>
    decreases fuel
  {
    if fuel == 0 then None
    else match t
      case Succeed(v) => Some(Result(Ok(v), input))
      case Fail(v) => Some(Result(Err(v), input))
      case AndThen(k, u) =>
        (match Eval(call, u, input, fuel - 1)
         case Some(Result(Ok(v), rest)) => Eval(call, call(k, v), rest, fuel - 1)
         case other => other)
      case OnError(k, u) =>
        (match Eval(call, u, input, fuel - 1)
         case Some(Result(Err(v), rest)) => Eval(call, call(k, v), rest, fuel - 1)
         case other => other)
      case NativeBinding(_) =>
        if input.answers == [] then None
        else Eval(call, input.answers[0], input.(answers := input.answers[1..]), fuel - 1)
      case Receive(k) =>
        if input.inbox == [] then None
        else Eval(call, call(k, input.inbox[0]), input.(inbox := input.inbox[1..]), fuel - 1)
  }

  // ---------------------------------------------------------------- steps

  lemma {:induction false} StepsThen<V, C>(call: (C, V) -> Task<V, C>, c: Config<V, C>, j: nat, k: nat)
    requires MachineSteps(call, c, j).Some?
    ensures MachineSteps(call, c, j + k) == MachineSteps(call, MachineSteps(call, c, j).value, k)
    decreases j
  {
    if j > 0 {
      StepsThen(call, MachineStep(call, c).value, j - 1, k);
    }
  }

  lemma RestOfMore<T>(a: seq<T>, b: seq<T>)
    requires a != []
    ensures (a + b)[0] == a[0] && (a + b)[1..] == a[1..] + b
  {
  }

  lemma StepMoreInput<V, C>(call: (C, V) -> Task<V, C>, c: Config<V, C>, extra: Input<V, C>)
    requires MachineStep(call, c).Some?
    ensures var d := MachineStep(call, c).value;
            MachineStep(call, c.(input := Plus(c.input, extra))) == Some(d.(input := Plus(d.input, extra)))
  {
    if c.root.Receive? {
      RestOfMore(c.input.inbox, extra.inbox);
    } else if c.root.NativeBinding? {
      RestOfMore(c.input.answers, extra.answers);
    }
  }

  /** Input that has not been needed yet changes nothing. */
  lemma {:induction false} MoreInput<V, C>(call: (C, V) -> Task<V, C>, c: Config<V, C>, k: nat, extra: Input<V, C>)
    requires MachineSteps(call, c, k).Some?
    ensures var d := MachineSteps(call, c, k).value;
            MachineSteps(call, c.(input := Plus(c.input, extra)), k) == Some(d.(input := Plus(d.input, extra)))
    decreases k
  {
    if k > 0 {
      StepMoreInput(call, c, extra);
      MoreInput(call, MachineStep(call, c).value, k - 1, extra);
    }
  }

  /** None of these frames takes the verdict. */
  ghost predicate Junk<V, C>(frames: seq<Frame<C>>, r: Verdict<V>) {
    forall i :: 0 <= i < |frames| ==> !Handles(frames[i], r)
  }

  lemma {:induction false} UnwindJunk<V, C>(junk: seq<Frame<C>>, stack: seq<Frame<C>>, r: Verdict<V>)
    requires Junk(junk, r)
    ensures Unwind(junk + stack, r) == Unwind(stack, r)
  {
    if junk == [] {
      assert junk + stack == stack;
    } else {
      assert (junk + stack)[1..] == junk[1..] + stack;
      UnwindJunk(junk[1..], stack, r);
    }
  }

  /** The handler on top of some junk is called. */
  lemma HandlerCalled<V, C>(call: (C, V) -> Task<V, C>, junk: seq<Frame<C>>, f: Frame<C>, stack: seq<Frame<C>>,
                            r: Verdict<V>, input: Input<V, C>)
    requires Junk(junk, r) && Handles(f, r)
    ensures MachineStep(call, Config(Return(r), junk + [f] + stack, input)) ==
            Some(Config(call(f.callback, r.value), stack, input))
  {
    assert junk + [f] + stack == junk + ([f] + stack);
    UnwindJunk(junk, [f] + stack, r);
    assert ([f] + stack)[1..] == stack;
  }

  /** Entering a composed task and running its inner task. */
  lemma EnterRun<V, C>(call: (C, V) -> Task<V, C>, t: Task<V, C>, stack: seq<Frame<C>>, input: Input<V, C>, k: nat, d: Config<V, C>)
    requires t.AndThen? || t.OnError?
    requires MachineSteps(call, Config(t.task, [FrameOf(t)] + stack, input), k) == Some(d)
    ensures MachineSteps(call, Config(t, stack, input), 1 + k) == Some(d)
  {
    assert MachineStep(call, Config(t, stack, input)) == Some(Config(t.task, [FrameOf(t)] + stack, input));
  }

  /** Reaching a verdict, calling its handler and running on. */
  lemma HandledRun<V, C>(call: (C, V) -> Task<V, C>, c: Config<V, C>, j: nat, junk: seq<Frame<C>>, f: Frame<C>,
                         stack: seq<Frame<C>>, r: Verdict<V>, input: Input<V, C>, k: nat)
    requires MachineSteps(call, c, j) == Some(Config(Return(r), junk + [f] + stack, input))
    requires Junk(junk, r) && Handles(f, r)
    ensures MachineSteps(call, c, j + 1 + k) == MachineSteps(call, Config(call(f.callback, r.value), stack, input), k)
  {
    HandlerCalled(call, junk, f, stack, r, input);
    StepsThen(call, c, j, 1 + k);
  }

  /** The frame that a composed task leaves on the stack. */
  function FrameOf<V, C>(t: Task<V, C>): Frame<C>
    requires t.AndThen? || t.OnError?
  {
    if t.AndThen? then AndThenFrame(t.callback) else OnErrorFrame(t.callback)
  }

  /** After `k` turns the machine has brought `c` to the verdict and the input `r`, above `stack` and some frames to be
      skipped. */
  ghost predicate Comes<V, C>(call: (C, V) -> Task<V, C>, c: Config<V, C>, k: nat, r: Result<V, C>, junk: seq<Frame<C>>,
                              stack: seq<Frame<C>>)
  {
    Junk(junk, r.verdict) && MachineSteps(call, c, k) == Some(Config(Return(r.verdict), junk + stack, r.rest))
  }

  lemma ComesAtOnce<V, C>(call: (C, V) -> Task<V, C>, r: Result<V, C>, stack: seq<Frame<C>>)
    ensures Comes(call, Config(Return(r.verdict), stack, r.rest), 0, r, [], stack)
  {
    assert [] + stack == stack;
  }

  /** The inner task of a composed one ends, and the composed one's frame does not take its verdict. */
  lemma ComesUnhandled<V, C>(call: (C, V) -> Task<V, C>, t: Task<V, C>, stack: seq<Frame<C>>, input: Input<V, C>,
                             k: nat, r: Result<V, C>, junk: seq<Frame<C>>)
    requires (t.AndThen? || t.OnError?) && !Handles(FrameOf(t), r.verdict)
    requires Comes(call, Config(t.task, [FrameOf(t)] + stack, input), k, r, junk, [FrameOf(t)] + stack)
    ensures Comes(call, Config(t, stack, input), 1 + k, r, junk + [FrameOf(t)], stack)
  {
    var f := FrameOf(t);
    assert junk + ([f] + stack) == junk + [f] + stack;
    EnterRun(call, t, stack, input, k, Config(Return(r.verdict), junk + [f] + stack, r.rest));
  }

  /** The inner task ends, the frame takes its verdict, and the task its callback returns ends in turn. */
  lemma ComesHandled<V, C>(call: (C, V) -> Task<V, C>, t: Task<V, C>, stack: seq<Frame<C>>, input: Input<V, C>,
                           k: nat, r: Result<V, C>, junk: seq<Frame<C>>, j: nat)
    requires (t.AndThen? || t.OnError?) && Handles(FrameOf(t), r.verdict)
    requires Comes(call, Config(t.task, [FrameOf(t)] + stack, input), k, r, junk, [FrameOf(t)] + stack)
    ensures MachineSteps(call, Config(t, stack, input), 1 + k + 1 + j) ==
            MachineSteps(call, Config(call(t.callback, r.verdict.value), stack, r.rest), j)
  {
    var f := FrameOf(t);
    assert junk + ([f] + stack) == junk + [f] + stack;
    EnterRun(call, t, stack, input, k, Config(Return(r.verdict), junk + [f] + stack, r.rest));
    HandledRun(call, Config(t, stack, input), 1 + k, junk, f, stack, r.verdict, r.rest, j);
  }

  /** What a task goes on with that takes its next message or answer. */
  function Taken<V, C>(call: (C, V) -> Task<V, C>, t: Task<V, C>, input: Input<V, C>): Option<Config<V, C>>
    requires t.NativeBinding? || t.Receive?
  {
    MachineStep(call, Config(t, [], input))
  }

  /** Taking input leaves the stack alone. */
  lemma TakenAbove<V, C>(call: (C, V) -> Task<V, C>, t: Task<V, C>, stack: seq<Frame<C>>, input: Input<V, C>)
    requires t.NativeBinding? || t.Receive?
    ensures MachineStep(call, Config(t, stack, input)) ==
            match Taken(call, t, input) case None => None case Some(d) => Some(d.(stack := stack))
  {
  }

  lemma EvalTaken<V, C>(call: (C, V) -> Task<V, C>, t: Task<V, C>, input: Input<V, C>, fuel: nat)
    requires fuel > 0 && (t.NativeBinding? || t.Receive?)
    ensures Eval(call, t, input, fuel) ==
            match Taken(call, t, input) case None => None case Some(d) => Eval(call, d.root, d.input, fuel - 1)
  {
  }

  /** A task that takes input ends if what it goes on with does. */
  lemma ComesTaken<V, C>(call: (C, V) -> Task<V, C>, t: Task<V, C>, stack: seq<Frame<C>>, input: Input<V, C>,
                         k: nat, r: Result<V, C>, junk: seq<Frame<C>>)
    requires (t.NativeBinding? || t.Receive?) && Taken(call, t, input).Some?
    requires var d := Taken(call, t, input).value; Comes(call, Config(d.root, stack, d.input), k, r, junk, stack)
    ensures Comes(call, Config(t, stack, input), 1 + k, r, junk, stack)
  {
    TakenAbove(call, t, stack, input);
  }

  // ---------------------------------------------------------------- from evaluation to the machine

  lemma {:induction false} EvalMonotone<V, C>(call: (C, V) -> Task<V, C>, t: Task<V, C>, input: Input<V, C>, fuel: nat, more: nat)
    requires fuel <= more && Eval(call, t, input, fuel).Some?
    ensures Eval(call, t, input, more) == Eval(call, t, input, fuel)
    decreases fuel
  {
    if t.AndThen? || t.OnError? {
      EvalComposed(call, t, input, fuel);
      EvalComposed(call, t, input, more);
      EvalMonotone(call, t.task, input, fuel - 1, more - 1);
      var r := Eval(call, t.task, input, fuel - 1).value;
      if Handles(FrameOf(t), r.verdict) {
        EvalMonotone(call, call(t.callback, r.verdict.value), r.rest, fuel - 1, more - 1);
      }
    } else if t.NativeBinding? || t.Receive? {
      EvalTaken(call, t, input, fuel);
      EvalTaken(call, t, input, more);
      var d := Taken(call, t, input).value;
      EvalMonotone(call, d.root, d.input, fuel - 1, more - 1);
    }
  }

  /** Evaluating a composed task, from what its inner task comes to. */
  lemma EvalComposed<V, C>(call: (C, V) -> Task<V, C>, t: Task<V, C>, input: Input<V, C>, fuel: nat)
    requires fuel > 0 && (t.AndThen? || t.OnError?)
    ensures Eval(call, t, input, fuel) ==
            match Eval(call, t.task, input, fuel - 1)
            case None => None
            case Some(r) =>
              if Handles(FrameOf(t), r.verdict) then Eval(call, call(t.callback, r.verdict.value), r.rest, fuel - 1)
              else Some(r)
  {
  }

  /** A task that evaluates to a verdict brings the machine to that verdict. */
  lemma {:induction false} EvalRuns<V, C>(
    call: (C, V) -> Task<V, C>, t: Task<V, C>, input: Input<V, C>, fuel: nat, stack: seq<Frame<C>>)
    returns (k: nat, junk: seq<Frame<C>>)
    requires Eval(call, t, input, fuel).Some?
    ensures Comes(call, Config(t, stack, input), k, Eval(call, t, input, fuel).value, junk, stack)
    decreases fuel
  {
    if t.Succeed? || t.Fail? {
      k, junk := 0, [];
      ComesAtOnce(call, Eval(call, t, input, fuel).value, stack);
    } else if t.NativeBinding? || t.Receive? {
      EvalTaken(call, t, input, fuel);
      var d := Taken(call, t, input).value;
      var k1;
      k1, junk := EvalRuns(call, d.root, d.input, fuel - 1, stack);
      ComesTaken(call, t, stack, input, k1, Eval(call, t, input, fuel).value, junk);
      k := 1 + k1;
    } else {
      EvalComposed(call, t, input, fuel);
      var k1, junk1 := EvalRuns(call, t.task, input, fuel - 1, [FrameOf(t)] + stack);
      var r1 := Eval(call, t.task, input, fuel - 1).value;
      if Handles(FrameOf(t), r1.verdict) {
        var k2, junk2 := EvalRuns(call, call(t.callback, r1.verdict.value), r1.rest, fuel - 1, stack);
        ComesHandled(call, t, stack, input, k1, r1, junk1, k2);
        k, junk := 1 + k1 + 1 + k2, junk2;
      } else {
        ComesUnhandled(call, t, stack, input, k1, r1, junk1);
        k, junk := 1 + k1, junk1 + [FrameOf(t)];
      }
    }
  }

  // ---------------------------------------------------------------- from the machine to evaluation

  /** A process that has come to an end. */
  predicate Ended<V, C>(c: Config<V, C>) {
    (c.root.Succeed? || c.root.Fail?) && c.stack == []
  }

  ghost predicate Ends<V, C>(call: (C, V) -> Task<V, C>, c: Config<V, C>, k: nat) {
    MachineSteps(call, c, k).Some? && Ended(MachineSteps(call, c, k).value)
  }

  /** A machine that ends from a composed task ends from its inner task. */
  lemma EndsInside<V, C>(call: (C, V) -> Task<V, C>, t: Task<V, C>, stack: seq<Frame<C>>, input: Input<V, C>, k: nat)
    requires (t.AndThen? || t.OnError?) && Ends(call, Config(t, stack, input), k)
    ensures k > 0 && Ends(call, Config(t.task, [FrameOf(t)] + stack, input), k - 1)
  {
    assert MachineStep(call, Config(t, stack, input)) == Some(Config(t.task, [FrameOf(t)] + stack, input));
  }

  /** ... and, once its frame has taken the inner verdict, from the task that the callback returned. */
  lemma EndsAfter<V, C>(call: (C, V) -> Task<V, C>, t: Task<V, C>, stack: seq<Frame<C>>, input: Input<V, C>, k: nat, j: nat,
                        r: Result<V, C>, junk: seq<Frame<C>>)
    requires (t.AndThen? || t.OnError?) && Handles(FrameOf(t), r.verdict) && Ends(call, Config(t, stack, input), k) && j < k
    requires Comes(call, Config(t.task, [FrameOf(t)] + stack, input), j, r, junk, [FrameOf(t)] + stack)
    ensures j + 2 <= k && Ends(call, Config(call(t.callback, r.verdict.value), stack, r.rest), k - 2 - j)
  {
    var f := FrameOf(t);
    var c := Config(t, stack, input);
    assert junk + ([f] + stack) == junk + [f] + stack;
    EnterRun(call, t, stack, input, j, Config(Return(r.verdict), junk + [f] + stack, r.rest));
    if k > j + 1 {
      HandledRun(call, c, 1 + j, junk, f, stack, r.verdict, r.rest, k - 2 - j);
    }
  }

  /** A machine that ends from a task that takes input finds that input, and ends from what the task goes on with. */
  lemma EndsTaken<V, C>(call: (C, V) -> Task<V, C>, t: Task<V, C>, stack: seq<Frame<C>>, input: Input<V, C>, k: nat)
    requires (t.NativeBinding? || t.Receive?) && Ends(call, Config(t, stack, input), k)
    ensures k > 0 && Taken(call, t, input).Some?
    ensures var d := Taken(call, t, input).value; Ends(call, Config(d.root, stack, d.input), k - 1)
  {
    TakenAbove(call, t, stack, input);
  }

  /** If the machine comes to an end from `t` above `stack`, then on its way it passed the end of `t` itself, with the
      verdict and the input left that evaluation gives. */
  lemma {:induction false} RunEvals<V, C>(
    call: (C, V) -> Task<V, C>, t: Task<V, C>, stack: seq<Frame<C>>, input: Input<V, C>, k: nat)
    returns (fuel: nat, j: nat, junk: seq<Frame<C>>)
    requires Ends(call, Config(t, stack, input), k)
    ensures Eval(call, t, input, fuel).Some? && j <= k
    ensures Comes(call, Config(t, stack, input), j, Eval(call, t, input, fuel).value, junk, stack)
    decreases k
  {
    if t.Succeed? || t.Fail? {
      fuel, j, junk := 1, 0, [];
      ComesAtOnce(call, Eval(call, t, input, fuel).value, stack);
    } else if t.NativeBinding? || t.Receive? {
      EndsTaken(call, t, stack, input, k);
      var d := Taken(call, t, input).value;
      var fuel1, j1;
      fuel1, j1, junk := RunEvals(call, d.root, stack, d.input, k - 1);
      fuel, j := 1 + fuel1, 1 + j1;
      EvalTaken(call, t, input, fuel);
      ComesTaken(call, t, stack, input, j1, Eval(call, t, input, fuel).value, junk);
    } else {
      fuel, j, junk := RunEvalsComposed(call, t, stack, input, k);
    }
  }

  lemma {:induction false} RunEvalsComposed<V, C>(
    call: (C, V) -> Task<V, C>, t: Task<V, C>, stack: seq<Frame<C>>, input: Input<V, C>, k: nat)
    returns (fuel: nat, j: nat, junk: seq<Frame<C>>)
    requires (t.AndThen? || t.OnError?) && Ends(call, Config(t, stack, input), k)
    ensures Eval(call, t, input, fuel).Some? && j <= k
    ensures Comes(call, Config(t, stack, input), j, Eval(call, t, input, fuel).value, junk, stack)
    decreases k, 0
  {
    EndsInside(call, t, stack, input, k);
    var fuel1, j1, junk1 := RunEvals(call, t.task, [FrameOf(t)] + stack, input, k - 1);
    var r1 := Eval(call, t.task, input, fuel1).value;
    if Handles(FrameOf(t), r1.verdict) {
      EndsAfter(call, t, stack, input, k, j1, r1, junk1);
      var u := call(t.callback, r1.verdict.value);
      var fuel2, j2, junk2 := RunEvals(call, u, stack, r1.rest, k - 2 - j1);
      ComesHandled(call, t, stack, input, j1, r1, junk1, j2);
      fuel, j, junk := 1 + if fuel1 < fuel2 then fuel2 else fuel1, 1 + j1 + 1 + j2, junk2;
      EvalMonotone(call, t.task, input, fuel1, fuel - 1);
      EvalMonotone(call, u, r1.rest, fuel2, fuel - 1);
    } else {
      ComesUnhandled(call, t, stack, input, j1, r1, junk1);
      fuel, j, junk := 1 + fuel1, 1 + j1, junk1 + [FrameOf(t)];
    }
    EvalComposed(call, t, input, fuel);
  }

  /** On any input, the machine ends with a verdict exactly when evaluation gives that verdict, and with the same input
      left. */
  lemma MachineIsEval<V(!new), C(!new)>(call: (C, V) -> Task<V, C>, t: Task<V, C>, input: Input<V, C>, r: Result<V, C>)
    ensures (exists k :: MachineSteps(call, Config(t, [], input), k) == Some(Config(Return(r.verdict), [], r.rest))) <==>
            (exists fuel :: Eval(call, t, input, fuel) == Some(r))
  {
    if fuel :| Eval(call, t, input, fuel) == Some(r) {
      var k, junk := EvalRuns(call, t, input, fuel, []);
      assert junk + [] == junk;
      LastTurn(call, Config(t, [], input), k, r, junk);
    }
    if k :| MachineSteps(call, Config(t, [], input), k) == Some(Config(Return(r.verdict), [], r.rest)) {
      assert Ends(call, Config(t, [], input), k);
      var fuel, j, junk := RunEvals(call, t, [], input, k);
      assert junk + [] == junk;
      var r' := Eval(call, t, input, fuel).value;
      OnlyJunkLeft(call, Config(Return(r'.verdict), junk, r'.rest), k - j, r', junk);
      StepsThen(call, Config(t, [], input), j, k - j);
    }
  }

  /** With nothing but frames to be skipped, one more turn empties the stack. */
  lemma LastTurn<V, C>(call: (C, V) -> Task<V, C>, c: Config<V, C>, k: nat, r: Result<V, C>, junk: seq<Frame<C>>)
    requires Junk(junk, r.verdict) && MachineSteps(call, c, k) == Some(Config(Return(r.verdict), junk, r.rest))
    ensures exists n :: MachineSteps(call, c, n) == Some(Config(Return(r.verdict), [], r.rest))
  {
    if junk != [] {
      var d: Config<V, C> := Config(Return(r.verdict), junk, r.rest);
      UnwindJunk(junk, [], r.verdict);
      assert junk + [] == junk;
      assert MachineStep(call, d) == Some(Config(Return(r.verdict), [], r.rest));
      StepsThen(call, c, k, 1);
      assert MachineSteps(call, d, 1) == Some(Config(Return(r.verdict), [], r.rest));
    }
  }

  lemma OnlyJunkLeft<V, C>(call: (C, V) -> Task<V, C>, c: Config<V, C>, k: nat, r: Result<V, C>, junk: seq<Frame<C>>)
    requires c == Config(Return(r.verdict), junk, r.rest) && Junk(junk, r.verdict)
    ensures MachineSteps(call, c, k).Some? ==>
              MachineSteps(call, c, k).value.root == Return(r.verdict) && MachineSteps(call, c, k).value.input == r.rest
  {
    UnwindJunk(junk, [], r.verdict);
    assert junk + [] == junk;
    if k > 0 && junk != [] {
      assert MachineStep(call, c) == Some(Config(Return(r.verdict), [], r.rest));
      assert MachineStep(call, Config(Return(r.verdict), [], r.rest)) == None;
    }
  }
}
