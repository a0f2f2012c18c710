/** What processes end with in whole runs of the scheduler, and that they end. */
module SchedulerEnds {
  import opened Basics
  import opened Tasks
  import opened Scheduler
  import opened SchedulerRuns

  // ---------------------------------------------------------------- what a process ends with

  /** A task that evaluates takes a fixed number of turns. */
  ghost predicate Takes<V, C>(call: (C, V) -> Task<V, C>, t: Task<V, C>, input: Input<V, C>, r: Result<V, C>, k: nat) {
    MachineSteps(call, Config(t, [], input), k) == Some(Config(Return(r.verdict), [], r.rest))
  }

  lemma TurnsOf<V(!new), C(!new)>(call: (C, V) -> Task<V, C>, t: Task<V, C>, input: Input<V, C>, fuel: nat, r: Result<V, C>)
    returns (k: nat)
    requires Eval(call, t, input, fuel) == Some(r)
    ensures Takes(call, t, input, r, k)
  {
    MachineIsEval(call, t, input, r);
    k :| MachineSteps(call, Config(t, [], input), k) == Some(Config(Return(r.verdict), [], r.rest));
  }

  /** With more input it takes as many, and leaves the rest. */
  lemma TakesWithMore<V, C>(call: (C, V) -> Task<V, C>, t: Task<V, C>, input: Input<V, C>, r: Result<V, C>, k: nat,
                            extra: Input<V, C>)
    requires Takes(call, t, input, r, k)
    ensures Takes(call, t, Plus(input, extra), Result(r.verdict, Plus(r.rest, extra)), k)
  {
    MoreInput(call, Config(t, [], input), k, extra);
  }

  /** A process on a task that evaluates takes no more turns than that. */
  lemma WithinTurns<V, C>(call: (C, V) -> Task<V, C>, q: Process<V, C>, t: Task<V, C>, input: Input<V, C>, r: Result<V, C>,
                          k: nat)
    requires q.root.Some? && q.orderly && Computes(call, q, t, input) && Takes(call, t, input, r, k)
    ensures q.turns <= k && MachineSteps(call, ConfigOf(q), k - q.turns) == Some(Config(Return(r.verdict), [], r.rest))
  {
    var c := Config(t, [], input);
    assert MachineStep(call, Config(Return(r.verdict), [], r.rest)) == None;
    if q.turns > k {
      StepsThen(call, c, k, q.turns - k);
    } else {
      StepsThen(call, c, q.turns, k - q.turns);
    }
  }

  lemma AtRest<V, C>(call: (C, V) -> Task<V, C>, q: Process<V, C>, k: nat, r: Result<V, C>)
    requires q.root.Some? && !Awake(q)
    requires MachineSteps(call, ConfigOf(q), k) == Some(Config(Return(r.verdict), [], r.rest))
    ensures q.root == Some(Return(r.verdict))
  {
    var c := ConfigOf(q);
    if k > 0 {
      assert MachineStep(call, c) == Some(c.(stack := []));
      assert MachineStep(call, c.(stack := [])) == None;
    }
  }

  /** In this run nobody was killed twice, and this process was resumed only when its binding was waiting. */
  ghost predicate InOrder<V, C>(call: (C, V) -> Task<V, C>, env: Environment<V, C>, events: seq<Event<V, C>>, p: Pid) {
    var (s, acts) := (Run(call, env, Initial(), events).state, Performed(call, env, events));
    !KilledTwice(acts) && p < Spawns(acts) && p in s.procs && s.procs[p].orderly
  }

  /** A process that nobody resumed is in order. */
  lemma NeverResumedInOrder<V, C>(call: (C, V) -> Task<V, C>, env: Environment<V, C>, events: seq<Event<V, C>>, p: Pid)
    requires var acts := Performed(call, env, events); !KilledTwice(acts) && p < Spawns(acts) && NeverResumed(acts, p)
    ensures InOrder(call, env, events, p)
  {
    RunRecorded(call, env, events);
    assert Accounted(call, Run(call, env, Initial(), events).state.procs[p], Performed(call, env, events), p);
  }

  lemma Spawned<V, C>(call: (C, V) -> Task<V, C>, env: Environment<V, C>, events: seq<Event<V, C>>, p: Pid)
    requires InOrder(call, env, events, p)
    ensures var (s, acts) := (Run(call, env, Initial(), events).state, Performed(call, env, events));
            && Live(s) && Computes(call, s.procs[p], SpawnTasks(acts)[p], InputTo(acts, p))
            && (s.procs[p].root.None? <==> Dead(acts, p))
  {
    RunRecorded(call, env, events);
    LiveUnlessKilledTwice(call, env, events);
    assert Accounted(call, Run(call, env, Initial(), events).state.procs[p], Performed(call, env, events), p);
  }

  /** In every run, however it was sliced and whatever ran in between: what a process in order has ended with is what
      its task evaluates to, on the messages it was sent and the answers its bindings were given; what evaluation leaves
      of the messages is in the mailbox. */
  lemma EndedWithEval<V(!new), C(!new)>(
    call: (C, V) -> Task<V, C>, env: Environment<V, C>, events: seq<Event<V, C>>, p: Pid, r: Verdict<V>)
    requires InOrder(call, env, events, p)
    requires var q := Run(call, env, Initial(), events).state.procs[p]; q.root == Some(Return(r)) && q.stack == []
    ensures var (q, acts) := (Run(call, env, Initial(), events).state.procs[p], Performed(call, env, events));
            exists fuel :: Eval(call, SpawnTasks(acts)[p], InputTo(acts, p), fuel) == Some(Result(r, Input(q.mailbox, [])))
  {
    Spawned(call, env, events, p);
    var (q, acts) := (Run(call, env, Initial(), events).state.procs[p], Performed(call, env, events));
    var (t, input) := (SpawnTasks(acts)[p], InputTo(acts, p));
    var result := Result(r, Input(q.mailbox, []));
    assert ConfigOf(q) == Config(Return(result.verdict), [], result.rest);
    assert MachineSteps(call, Config(t, [], input), q.turns) == Some(Config(Return(result.verdict), [], result.rest));
    MachineIsEval(call, t, input, result);
  }

  /** ... and a process whose task evaluates has something to do until it has the verdict, unless it is killed. */
  lemma AwakeUntilEval<V(!new), C(!new)>(
    call: (C, V) -> Task<V, C>, env: Environment<V, C>, events: seq<Event<V, C>>, p: Pid, fuel: nat, r: Result<V, C>)
    requires InOrder(call, env, events, p) && !Dead(Performed(call, env, events), p)
    requires var acts := Performed(call, env, events);
             Eval(call, SpawnTasks(acts)[p], InputTo(acts, p), fuel) == Some(r)
    ensures var q := Run(call, env, Initial(), events).state.procs[p]; Awake(q) || q.root == Some(Return(r.verdict))
  {
    Spawned(call, env, events, p);
    var (q, acts) := (Run(call, env, Initial(), events).state.procs[p], Performed(call, env, events));
    var (t, input) := (SpawnTasks(acts)[p], InputTo(acts, p));
    var k := TurnsOf(call, t, input, fuel, r);
    WithinTurns(call, q, t, input, r, k);
    if !Awake(q) {
      AtRest(call, q, k - q.turns, r);
    }
  }

  // ---------------------------------------------------------------- one process while others work

  /** A process has moved on, or is where it was. */
  predicate Onward<V(==), C(==)>(q: Process<V, C>, q': Process<V, C>) {
    && (q.orderly ==> q'.orderly) && (q.root.Some? ==> q'.root.Some?)
    && (q'.turns > q.turns || (q'.turns == q.turns && q'.root == q.root && q'.stack == q.stack && q.mailbox <= q'.mailbox))
  }

  /** The next turn of the process goes on. */
  predicate Ready<V, C>(call: (C, V) -> Task<V, C>, q: Process<V, C>) {
    q.root.Some? && TakeTurn(call, q).Continue?
  }

  /** Neither killed nor resumed. */
  predicate Spares<V, C>(script: seq<Action<V, C>>, p: Pid) {
    forall i :: 0 <= i < |script| ==> !Kills(script[i], p) && !Resumes(script[i], p)
  }

  ghost predicate Spared<V, C>(env: Environment<V, C>, from: nat, upto: nat, p: Pid) {
    forall c: nat {:trigger env(c)} :: from <= c < upto ==> Spares(env(c), p)
  }

  lemma SparesParts<V, C>(a: seq<Action<V, C>>, b: seq<Action<V, C>>, p: Pid)
    requires Spares(a + b, p)
    ensures Spares(a, p) && Spares(b, p)
  {
    assert forall i :: 0 <= i < |a| ==> (a + b)[i] == a[i];
    assert forall i :: 0 <= i < |b| ==> (a + b)[|a| + i] == b[i];
  }

  lemma {:induction false} SparedByAll<V, C>(env: Environment<V, C>, from: nat, upto: nat, p: Pid)
    requires Spares(Scripts(env, from, upto), p)
    ensures Spared(env, from, upto, p)
    decreases upto
  {
    if from < upto {
      SparesParts(Scripts(env, from, upto - 1), env(upto - 1), p);
      SparedByAll(env, from, upto - 1, p);
    }
  }

  /** A process of the table, and what has become of it. */
  ghost predicate MovedOn<V, C>(s: State<V, C>, s': State<V, C>, p: Pid) {
    s.next <= s'.next && (p in s.procs && p < s.next ==> p in s'.procs && Onward(s.procs[p], s'.procs[p]))
  }

  lemma ActMovesOn<V, C>(s: State<V, C>, a: Action<V, C>, p: Pid)
    requires !Kills(a, p) && !Resumes(a, p)
    ensures MovedOn(s, Act(s, a).state, p)
  {
  }

  lemma {:induction false} ActAllMovesOn<V, C>(s: State<V, C>, script: seq<Action<V, C>>, p: Pid)
    requires Spares(script, p)
    ensures MovedOn(s, ActAll(s, script).state, p) && ActAll(s, script).state.calls == s.calls
    decreases |script|
  {
    if script != [] {
      ActMovesOn(s, script[0], p);
      ActAllMovesOn(Act(s, script[0]).state, script[1..], p);
    }
  }

  lemma TurnMovesOn<V, C>(call: (C, V) -> Task<V, C>, q: Process<V, C>)
    requires q.root.Some? && !TakeTurn(call, q).Bind?
    ensures Onward(q, TakeTurn(call, q).process)
    ensures TakeTurn(call, q).Continue? ==> TakeTurn(call, q).process.turns > q.turns
  {
  }

  lemma BindingMovesOn<V, C>(env: Environment<V, C>, s: State<V, C>, x: Pid, p: Pid)
    requires x in s.procs && Spares(env(s.calls), p)
    ensures MovedOn(s, RunBinding(env, s, x).state, p) && RunBinding(env, s, x).state.calls == s.calls + 1
  {
    ActAllMovesOn(WithProcess(s, x, s.procs[x].(started := true)).(calls := s.calls + 1), env(s.calls), p);
  }

  lemma {:induction false} StepCalls<V, C>(
    call: (C, V) -> Task<V, C>, env: Environment<V, C>, s: State<V, C>, numSteps: nat, x: Pid, r: Stepped<V, C>)
    requires x in s.procs && s.procs[x].root.Some? && r == Step(call, env, s, numSteps, x)
    ensures s.calls <= r.ran.state.calls
    decreases MAX_STEPS - numSteps
  {
    StepUnfolds(call, env, s, numSteps, x);
    if numSteps < MAX_STEPS {
      match TakeTurn(call, s.procs[x])
      case Continue(q) => StepCalls(call, env, Counted(s, x, q), numSteps + 1, x, r);
      case Break(q) =>
      case Bind => ScriptCalls(WithProcess(s, x, s.procs[x].(started := true)).(calls := s.calls + 1), env(s.calls));
    }
  }

  lemma {:induction false} ScriptCalls<V, C>(s: State<V, C>, script: seq<Action<V, C>>)
    ensures ActAll(s, script).state.calls == s.calls
    decreases |script|
  {
    if script != [] {
      ScriptCalls(Act(s, script[0]).state, script[1..]);
    }
  }

  /** A stretch of `step` moves every process on that is spared. */
  lemma {:induction false} StepMovesOn<V, C>(
    call: (C, V) -> Task<V, C>, env: Environment<V, C>, s: State<V, C>, numSteps: nat, x: Pid, p: Pid, r: Stepped<V, C>)
    requires x in s.procs && s.procs[x].root.Some? && r == Step(call, env, s, numSteps, x)
    requires Spared(env, s.calls, r.ran.state.calls, p)
    ensures MovedOn(s, r.ran.state, p)
    decreases MAX_STEPS - numSteps
  {
    StepUnfolds(call, env, s, numSteps, x);
    if numSteps < MAX_STEPS {
      match TakeTurn(call, s.procs[x])
      case Continue(q) =>
        TurnMovesOn(call, s.procs[x]);
        StepMovesOn(call, env, Counted(s, x, q), numSteps + 1, x, p, r);
      case Break(q) =>
        TurnMovesOn(call, s.procs[x]);
      case Bind =>
        ScriptCalls(WithProcess(s, x, s.procs[x].(started := true)).(calls := s.calls + 1), env(s.calls));
        assert Spares(env(s.calls), p);
        BindingMovesOn(env, s, x, p);
    }
  }

  /** A process that is stepped while it is ready takes a turn. */
  lemma StepServes<V, C>(
    call: (C, V) -> Task<V, C>, env: Environment<V, C>, s: State<V, C>, numSteps: nat, p: Pid, r: Stepped<V, C>)
    requires p in s.procs && p < s.next && Ready(call, s.procs[p]) && numSteps < MAX_STEPS
    requires r == Step(call, env, s, numSteps, p) && Spared(env, s.calls, r.ran.state.calls, p)
    ensures MovedOn(s, r.ran.state, p) && r.ran.state.procs[p].turns > s.procs[p].turns
  {
    StepUnfolds(call, env, s, numSteps, p);
    TurnMovesOn(call, s.procs[p]);
    var q := TakeTurn(call, s.procs[p]).process;
    StepMovesOn(call, env, Counted(s, p, q), numSteps + 1, p, p, r);
  }

  lemma {:induction false} WorkLoopCalls<V, C>(call: (C, V) -> Task<V, C>, env: Environment<V, C>, s: State<V, C>, numSteps: nat)
    ensures s.calls <= WorkLoop(call, env, s, numSteps).state.calls
    decreases MAX_STEPS - numSteps, |s.queue|
  {
    if numSteps < MAX_STEPS && s.queue != [] {
      var (p, s1) := (s.queue[0], s.(queue := s.queue[1..], head := s.head + 1));
      if p !in s1.procs || s1.procs[p].root.None? {
        WorkLoopCalls(call, env, s1, numSteps);
      } else {
        var stepped := Step(call, env, s1, numSteps, p);
        StepCalls(call, env, s1, numSteps, p, stepped);
        if !stepped.ran.thrown {
          WorkLoopCalls(call, env, stepped.ran.state, stepped.numSteps);
        }
      }
    }
  }

  lemma {:induction false} WorkLoopMovesOn<V, C>(
    call: (C, V) -> Task<V, C>, env: Environment<V, C>, s: State<V, C>, numSteps: nat, p: Pid, r: Ran<V, C>)
    requires r == WorkLoop(call, env, s, numSteps) && Spared(env, s.calls, r.state.calls, p)
    ensures MovedOn(s, r.state, p)
    decreases MAX_STEPS - numSteps, |s.queue|
  {
    if numSteps < MAX_STEPS && s.queue != [] {
      var (x, s1) := (s.queue[0], s.(queue := s.queue[1..], head := s.head + 1));
      if x !in s1.procs || s1.procs[x].root.None? {
        WorkLoopMovesOn(call, env, s1, numSteps, p, r);
      } else {
        var stepped := Step(call, env, s1, numSteps, x);
        StepCalls(call, env, s1, numSteps, x, stepped);
        if !stepped.ran.thrown {
          WorkLoopCalls(call, env, stepped.ran.state, stepped.numSteps);
          StepMovesOn(call, env, s1, numSteps, x, p, stepped);
          WorkLoopMovesOn(call, env, stepped.ran.state, stepped.numSteps, p, r);
        } else {
          StepMovesOn(call, env, s1, numSteps, x, p, stepped);
        }
      }
    }
  }

  // ---------------------------------------------------------------- being served

  /** Somewhere between two states of the queue the process was taken out of it. */
  ghost predicate TakenOut<V, C>(s: State<V, C>, s': State<V, C>, p: Pid) {
    exists h :: s.head <= h < s'.head && h < |s'.log| && s'.log[h] == p
  }

  /** A ready process that is taken out of the queue takes a turn. */
  ghost predicate Serves<V, C>(s: State<V, C>, s': State<V, C>, p: Pid) {
    MovedOn(s, s', p) && (p in s.procs && p in s'.procs && TakenOut(s, s', p) ==> s'.procs[p].turns > s.procs[p].turns)
  }

  lemma {:induction false} WorkLoopServes<V, C>(
    call: (C, V) -> Task<V, C>, env: Environment<V, C>, s: State<V, C>, numSteps: nat, p: Pid, r: Ran<V, C>)
    requires Inside(s, None) && r == WorkLoop(call, env, s, numSteps) && !r.thrown && numSteps <= MAX_STEPS
    requires Spared(env, s.calls, r.state.calls, p) && p in s.procs && Ready(call, s.procs[p])
    ensures Serves(s, r.state, p)
    decreases MAX_STEPS - numSteps, |s.queue|, 0
  {
    WorkLoopMovesOn(call, env, s, numSteps, p, r);
    if numSteps < MAX_STEPS && s.queue != [] {
      Dequeued(s);
      WorkLoopGrows(call, env, s, numSteps);
      var (x, s1) := (s.queue[0], s.(queue := s.queue[1..], head := s.head + 1));
      assert s.log[s.head] == x && r.state.log[s.head] == x;
      if s1.procs[x].root.None? {
        WorkLoopServes(call, env, s1, numSteps, p, r);
        ServesLater(s, s1, r.state, p);
      } else {
        SteppedServes(call, env, s, s1, numSteps, x, p, r);
      }
    }
  }

  lemma {:induction false} SteppedServes<V, C>(
    call: (C, V) -> Task<V, C>, env: Environment<V, C>, s: State<V, C>, s1: State<V, C>, numSteps: nat, x: Pid, p: Pid,
    r: Ran<V, C>)
    requires Inside(s, None) && r == WorkLoop(call, env, s, numSteps) && !r.thrown && numSteps < MAX_STEPS
    requires Spared(env, s.calls, r.state.calls, p) && p in s.procs && Ready(call, s.procs[p]) && MovedOn(s, r.state, p)
    requires s.queue != [] && x == s.queue[0] && s1 == s.(queue := s.queue[1..], head := s.head + 1)
    requires x in s1.procs && s1.procs[x].root.Some? && s.head < |r.state.log| && r.state.log[s.head] == x
    ensures Serves(s, r.state, p)
    decreases MAX_STEPS - numSteps, |s1.queue|, 2
  {
    Dequeued(s);
    var stepped := Step(call, env, s1, numSteps, x);
    StepCalls(call, env, s1, numSteps, x, stepped);
    WorkLoopCalls(call, env, stepped.ran.state, stepped.numSteps);
    if x == p {
      StepServes(call, env, s1, numSteps, p, stepped);
      WorkLoopMovesOn(call, env, stepped.ran.state, stepped.numSteps, p, r);
    } else {
      StepMovesOn(call, env, s1, numSteps, x, p, stepped);
      StepKeeps(call, env, s1, numSteps, x, stepped);
      StepGrows(call, env, s1, numSteps, x);
      AfterOther(call, env, s, stepped.ran.state, stepped.numSteps, p, r);
    }
  }

  /** After another process has been stepped. */
  lemma {:induction false} AfterOther<V, C>(
    call: (C, V) -> Task<V, C>, env: Environment<V, C>, s: State<V, C>, s2: State<V, C>, numSteps: nat, p: Pid, r: Ran<V, C>)
    requires Inside(s2, None) && r == WorkLoop(call, env, s2, numSteps) && !r.thrown && numSteps <= MAX_STEPS
    requires Spared(env, s2.calls, r.state.calls, p) && p in s.procs && p < s.next && Ready(call, s.procs[p])
    requires MovedOn(s, s2, p) && MovedOn(s, r.state, p)
    requires s2.head == s.head + 1 && s.head < |r.state.log| && r.state.log[s.head] != p
    ensures Serves(s, r.state, p)
    decreases MAX_STEPS - numSteps, |s2.queue|, 1
  {
    if s2.procs[p].turns == s.procs[p].turns {
      ReadySame(call, s.procs[p], s2.procs[p]);
      WorkLoopServes(call, env, s2, numSteps, p, r);
      ServesLater(s, s2, r.state, p);
    } else {
      WorkLoopMovesOn(call, env, s2, numSteps, p, r);
    }
  }

  lemma ReadySame<V, C>(call: (C, V) -> Task<V, C>, q: Process<V, C>, q': Process<V, C>)
    requires Ready(call, q) && q'.root == q.root && q'.stack == q.stack && q.mailbox <= q'.mailbox
    ensures Ready(call, q')
  {
  }

  /** Who was taken out is not the first in the queue, and so was taken out later. */
  lemma ServesLater<V, C>(s: State<V, C>, s1: State<V, C>, s': State<V, C>, p: Pid)
    requires s1.head == s.head + 1 && s.head < |s'.log| && s'.log[s.head] != p
    requires p in s.procs && p in s1.procs && s1.procs[p].turns == s.procs[p].turns
    requires MovedOn(s, s', p) && Serves(s1, s', p)
    ensures Serves(s, s', p)
  {
    assert TakenOut(s, s', p) ==> TakenOut(s1, s', p);
  }

  /** One event. */
  lemma EventServes<V, C>(call: (C, V) -> Task<V, C>, env: Environment<V, C>, s: State<V, C>, e: Event<V, C>, p: Pid)
    requires Live(s) && !Happen(call, env, s, e).thrown && p in s.procs
    requires e.Outside? ==> !Resumes(e.action, p)
    requires e.TimerFires? ==> Spared(env, s.calls, Happen(call, env, s, e).state.calls, p)
    ensures MovedOn(s, Happen(call, env, s, e).state, p)
    ensures Ready(call, s.procs[p]) ==> Serves(s, Happen(call, env, s, e).state, p)
  {
    if e.Outside? {
      if Possible(s, e) {
        ActMovesOn(s, e.action, p);
      }
    } else if Possible(s, e) {
      var s0 := s.(timers := s.timers - 1);
      WorkLoopMovesOn(call, env, s0, 0, p, Work(call, env, s));
      if Ready(call, s.procs[p]) {
        WorkLoopServes(call, env, s0, 0, p, Work(call, env, s));
        assert TakenOut(s, Work(call, env, s).state, p) ==> TakenOut(s0, Work(call, env, s).state, p);
      }
    }
  }

  // ---------------------------------------------------------------- endless runs

  function Prefix<V, C>(f: nat -> Event<V, C>, n: nat): (r: seq<Event<V, C>>)
    ensures |r| == n
  {
    if n == 0 then [] else Prefix(f, n - 1) + [f(n - 1)]
  }

  /** The state after `n` events. */
  function At<V, C>(call: (C, V) -> Task<V, C>, env: Environment<V, C>, f: nat -> Event<V, C>, n: nat): State<V, C> {
    Run(call, env, Initial(), Prefix(f, n)).state
  }

  function Acts<V, C>(call: (C, V) -> Task<V, C>, env: Environment<V, C>, f: nat -> Event<V, C>, n: nat): seq<Action<V, C>> {
    Performed(call, env, Prefix(f, n))
  }

  lemma ActsGrow<V, C>(call: (C, V) -> Task<V, C>, env: Environment<V, C>, f: nat -> Event<V, C>, n: nat)
    ensures Acts(call, env, f, n) <= Acts(call, env, f, n + 1)
  {
    assert Prefix(f, n + 1)[..n] == Prefix(f, n);
  }

  ghost predicate GrowsAt<A>(g: nat -> seq<A>, k: nat) {
    g(k) <= g(k + 1)
  }

  lemma {:induction false} KeepsGrowing<A>(g: nat -> seq<A>, n: nat, m: nat)
    requires n <= m && forall k: nat :: GrowsAt(g, k)
    ensures g(n) <= g(m)
    decreases m
  {
    if n < m {
      KeepsGrowing(g, n, m - 1);
      assert GrowsAt(g, m - 1);
    }
  }

  lemma ActsStay<V, C>(call: (C, V) -> Task<V, C>, env: Environment<V, C>, f: nat -> Event<V, C>, n: nat, m: nat)
    requires n <= m
    ensures Acts(call, env, f, n) <= Acts(call, env, f, m)
  {
    var g := (k: nat) => Acts(call, env, f, k);
    forall k: nat
      ensures GrowsAt(g, k)
    {
      ActsGrow(call, env, f, k);
    }
    KeepsGrowing(g, n, m);
  }

  /** What happens from the `from`-th event to the `upto`-th. */
  function ActsBetween<V, C>(call: (C, V) -> Task<V, C>, env: Environment<V, C>, f: nat -> Event<V, C>, from: nat, upto: nat)
    : seq<Action<V, C>>
    requires from <= upto
  {
    ActsStay(call, env, f, from, upto);
    Acts(call, env, f, upto)[|Acts(call, env, f, from)|..]
  }

  /** In this endless run nobody is killed twice, and this process is neither killed nor resumed any more. */
  ghost predicate Undisturbed<V, C>(
    call: (C, V) -> Task<V, C>, env: Environment<V, C>, f: nat -> Event<V, C>, p: Pid, from: nat)
  {
    forall n: nat {:trigger Acts(call, env, f, n)} :: n >= from ==>
      !KilledTwice(Acts(call, env, f, n)) && Spares(ActsBetween(call, env, f, from, n), p)
  }

  /** An event from one live state to another that leaves a process alone. */
  ghost predicate GoesOn<V, C>(
    call: (C, V) -> Task<V, C>, env: Environment<V, C>, s: State<V, C>, e: Event<V, C>, s': State<V, C>, p: Pid)
  {
    && Live(s) && Live(s') && Happen(call, env, s, e) == Ran(s', false)
    && (e.Outside? ==> !Resumes(e.action, p))
    && (e.TimerFires? ==> Spared(env, s.calls, s'.calls, p))
  }

  lemma BetweenGrows<T>(a: seq<T>, b: seq<T>, more: seq<T>)
    requires a <= b
    ensures (b + more)[|a|..] == b[|a|..] + more
  {
  }

  /** How an endless run goes on. */
  lemma AtNext<V, C>(call: (C, V) -> Task<V, C>, env: Environment<V, C>, f: nat -> Event<V, C>, from: nat, n: nat, p: Pid)
    requires Undisturbed(call, env, f, p, from) && n >= from
    ensures GoesOn(call, env, At(call, env, f, n), f(n), At(call, env, f, n + 1), p)
  {
    var (events, e) := (Prefix(f, n), f(n));
    assert Prefix(f, n + 1)[..n] == events;
    assert !KilledTwice(Acts(call, env, f, n)) && !KilledTwice(Acts(call, env, f, n + 1));
    RunRecorded(call, env, events);
    RunRecorded(call, env, Prefix(f, n + 1));
    LiveUnlessKilledTwice(call, env, events);
    LiveUnlessKilledTwice(call, env, Prefix(f, n + 1));
    NextSpares(call, env, f, from, n, p);
  }

  /** What the next event does leaves the process alone. */
  lemma NextSpares<V, C>(call: (C, V) -> Task<V, C>, env: Environment<V, C>, f: nat -> Event<V, C>, from: nat, n: nat, p: Pid)
    requires Undisturbed(call, env, f, p, from) && n >= from
    ensures f(n).Outside? ==> !Resumes(f(n).action, p)
    ensures f(n).TimerFires? ==> Spared(env, At(call, env, f, n).calls, At(call, env, f, n + 1).calls, p)
  {
    assert Prefix(f, n + 1)[..n] == Prefix(f, n);
    ActsStay(call, env, f, from, n);
    assert Spares(ActsBetween(call, env, f, from, n + 1), p);
    var (acts0, acts) := (Acts(call, env, f, from), Acts(call, env, f, n));
    match f(n)
    case TimerFires =>
      var scripts := Scripts(env, At(call, env, f, n).calls, At(call, env, f, n + 1).calls);
      assert Acts(call, env, f, n + 1) == acts + scripts;
      BetweenGrows(acts0, acts, scripts);
      SparesParts(acts[|acts0|..], scripts, p);
      SparedByAll(env, At(call, env, f, n).calls, At(call, env, f, n + 1).calls, p);
    case Outside(a) =>
      if !a.Kill? {
        assert Acts(call, env, f, n + 1) == acts + [a];
        BetweenGrows(acts0, acts, [a]);
        SparesParts(acts[|acts0|..], [a], p);
        assert !Resumes([a][0], p);
      }
  }

  /** Two stretches of a run, one after the other. */
  lemma ServesThen<V, C>(s: State<V, C>, s1: State<V, C>, s2: State<V, C>, p: Pid)
    requires p in s.procs && p < s.next && Serves(s, s1, p) && s1.log <= s2.log && s.head <= s1.head <= s2.head <= |s2.log|
    requires s1.head <= |s1.log| && MovedOn(s1, s2, p)
    requires s1.procs[p].turns == s.procs[p].turns ==> Serves(s1, s2, p)
    ensures Serves(s, s2, p)
  {
    if TakenOut(s, s2, p) && s1.procs[p].turns == s.procs[p].turns {
      var h :| s.head <= h < s2.head && h < |s2.log| && s2.log[h] == p;
      if h < s1.head {
        assert s1.log[h] == p;
        assert TakenOut(s, s1, p);
      }
      assert TakenOut(s1, s2, p);
    }
  }

  lemma OneMoreEvent<V, C>(call: (C, V) -> Task<V, C>, env: Environment<V, C>, s: State<V, C>, s1: State<V, C>, e: Event<V, C>,
                           s2: State<V, C>, p: Pid)
    requires GoesOn(call, env, s1, e, s2, p) && p in s.procs && p < s.next && Ready(call, s.procs[p])
    requires Serves(s, s1, p) && s.head <= s1.head
    ensures Serves(s, s2, p) && s.head <= s2.head
  {
    HappenServes(call, env, s1, e);
    EventServes(call, env, s1, e, p);
    if s1.procs[p].turns == s.procs[p].turns {
      ReadySame(call, s.procs[p], s1.procs[p]);
    }
    ServesThen(s, s1, s2, p);
  }

  /** An endless sequence of states, each of which goes on to the next. */
  ghost predicate Endless<V, C>(
    call: (C, V) -> Task<V, C>, env: Environment<V, C>, f: nat -> Event<V, C>, at: nat -> State<V, C>, p: Pid, from: nat)
  {
    forall n: nat :: n >= from ==> NextIs(call, env, f, at, p, n)
  }

  ghost predicate NextIs<V, C>(
    call: (C, V) -> Task<V, C>, env: Environment<V, C>, f: nat -> Event<V, C>, at: nat -> State<V, C>, p: Pid, n: nat)
  {
    GoesOn(call, env, at(n), f(n), at(n + 1), p)
  }

  lemma UndisturbedIsEndless<V, C>(
    call: (C, V) -> Task<V, C>, env: Environment<V, C>, f: nat -> Event<V, C>, at: nat -> State<V, C>, p: Pid, from: nat)
    requires Undisturbed(call, env, f, p, from) && forall n: nat :: at(n) == At(call, env, f, n)
    ensures Endless(call, env, f, at, p, from)
  {
    forall n: nat | n >= from
      ensures NextIs(call, env, f, at, p, n)
    {
      AtNext(call, env, f, from, n, p);
    }
  }

  /** Over any stretch of an endless run, a ready process that is taken out of the queue takes a turn. */
  lemma {:induction false} SpanServes<V, C>(
    call: (C, V) -> Task<V, C>, env: Environment<V, C>, f: nat -> Event<V, C>, at: nat -> State<V, C>, p: Pid, n: nat, m: nat)
    requires Endless(call, env, f, at, p, n) && n <= m && p in at(n).procs && Ready(call, at(n).procs[p])
    ensures p < at(n).next && Serves(at(n), at(m), p) && at(n).head <= at(m).head
    decreases m
  {
    if n == m {
      assert NextIs(call, env, f, at, p, n);
    } else {
      SpanServes(call, env, f, at, p, n, m - 1);
      assert NextIs(call, env, f, at, p, m - 1);
      OneMoreEvent(call, env, at(n), at(m - 1), f(m - 1), at(m), p);
    }
  }

  function TimersBetween<V, C>(f: nat -> Event<V, C>, n: nat, m: nat): nat
    decreases m
  {
    if m <= n then 0 else TimersBetween(f, n, m - 1) + if f(m - 1).TimerFires? then 1 else 0
  }

  /** The timer fires again and again. */
  ghost predicate Fair<V, C>(f: nat -> Event<V, C>) {
    forall n: nat :: FiresAfter(f, n)
  }

  ghost predicate FiresAfter<V, C>(f: nat -> Event<V, C>, n: nat) {
    exists m: nat :: m >= n && f(m).TimerFires?
  }

  lemma {:induction false} EnoughTimers<V, C>(f: nat -> Event<V, C>, n: nat, c: nat) returns (m: nat)
    requires Fair(f)
    ensures m >= n && TimersBetween(f, n, m) >= c
    decreases c
  {
    if c == 0 {
      m := n;
    } else {
      var m1 := EnoughTimers(f, n, c - 1);
      assert FiresAfter(f, m1);
      var m2: nat :| m2 >= m1 && f(m2).TimerFires?;
      MoreTimers(f, n, m1, m2);
      m := m2 + 1;
    }
  }

  lemma {:induction false} MoreTimers<V, C>(f: nat -> Event<V, C>, n: nat, m: nat, m': nat)
    requires m <= m'
    ensures TimersBetween(f, n, m) <= TimersBetween(f, n, m')
    decreases m'
  {
    if m < m' {
      MoreTimers(f, n, m, m' - 1);
    }
  }

  /** Every firing serves somebody who was waiting. */
  lemma {:induction false} HeadAdvances<V, C>(
    call: (C, V) -> Task<V, C>, env: Environment<V, C>, f: nat -> Event<V, C>, at: nat -> State<V, C>, p: Pid, n: nat, m: nat)
    requires Endless(call, env, f, at, p, n) && n <= m
    ensures at(n).log <= at(m).log && (at(n).head + TimersBetween(f, n, m) <= at(m).head || |at(n).log| <= at(m).head)
    decreases m
  {
    if n < m {
      HeadAdvances(call, env, f, at, p, n, m - 1);
      assert NextIs(call, env, f, at, p, m - 1);
      HappenServes(call, env, at(m - 1), f(m - 1));
    }
  }

  /** Ended: the verdict is there and nothing is left to do. */
  predicate EndedWith<V(==), C(==)>(s: State<V, C>, p: Pid, r: Verdict<V>) {
    p in s.procs && !Awake(s.procs[p]) && s.procs[p].root == Some(Return(r))
  }

  lemma AwakeIsReady<V, C>(call: (C, V) -> Task<V, C>, q: Process<V, C>, r: Result<V, C>, k: nat)
    requires Awake(q) && MachineSteps(call, ConfigOf(q), k) == Some(Config(Return(r.verdict), [], r.rest))
    ensures Ready(call, q)
  {
  }

  lemma PlaceInQueue<V, C>(s: State<V, C>, p: Pid) returns (i: nat)
    requires Live(s) && p in s.procs && Awake(s.procs[p])
    ensures s.head + i < |s.log| && s.log[s.head + i] == p
  {
    assert p in s.queue;
    i :| 0 <= i < |s.queue| && s.queue[i] == p;
  }

  /** From a process that has something to do to a later moment at which it has taken another turn. */
  lemma TakesTurn<V, C>(
    call: (C, V) -> Task<V, C>, env: Environment<V, C>, f: nat -> Event<V, C>, at: nat -> State<V, C>, p: Pid, n: nat)
    returns (m: nat)
    requires Endless(call, env, f, at, p, n) && Fair(f)
    requires p in at(n).procs && Awake(at(n).procs[p]) && Ready(call, at(n).procs[p])
    ensures m >= n && p in at(m).procs && at(m).procs[p].turns > at(n).procs[p].turns
    ensures Onward(at(n).procs[p], at(m).procs[p])
  {
    var s := at(n);
    assert NextIs(call, env, f, at, p, n);
    var i := PlaceInQueue(s, p);
    m := EnoughTimers(f, n, i + 1);
    HeadAdvances(call, env, f, at, p, n, m);
    SpanServes(call, env, f, at, p, n, m);
    assert NextIs(call, env, f, at, p, m);
    assert at(m).log[s.head + i] == p;
  }

  lemma SpawnTasksGrow<V, C>(a: seq<Action<V, C>>, b: seq<Action<V, C>>)
    requires a <= b
    ensures SpawnTasks(a) <= SpawnTasks(b)
  {
    assert b[..|a|] == a;
    SpawnsGrow(b, |a|);
  }

  /** Later actions add to the input of a process. */
  lemma {:induction false} InputGrows<V, C>(a: seq<Action<V, C>>, b: seq<Action<V, C>>, p: Pid) returns (extra: Input<V, C>)
    requires a <= b
    ensures InputTo(b, p) == Plus(InputTo(a, p), extra)
    decreases |b|
  {
    if a == b {
      extra := NoInput();
      PlusNothing(InputTo(a, p));
    } else {
      var (front, last) := (b[..|b| - 1], b[|b| - 1]);
      assert b == front + [last];
      var before := InputGrows(a, front, p);
      InputAfter(front, last, p);
      var one := if p >= Spawns(front) then NoInput()
                 else if SendsTo(last, p) then Input([last.msg], [])
                 else if Resumes(last, p) then Input([], [last.task])
                 else NoInput();
      extra := Plus(before, one);
      PlusJoins(InputTo(a, p), before, one);
    }
  }

  lemma PlusJoins<V, C>(a: Input<V, C>, b: Input<V, C>, c: Input<V, C>)
    ensures Plus(Plus(a, b), c) == Plus(a, Plus(b, c))
  {
  }

  /** The process is alive and in order after `n` events. */
  ghost predicate Lives<V, C>(call: (C, V) -> Task<V, C>, env: Environment<V, C>, f: nat -> Event<V, C>, p: Pid, n: nat) {
    InOrder(call, env, Prefix(f, n), p) && At(call, env, f, n).procs[p].root.Some?
  }

  /** A task that evaluates on what had come after `n` events does so on what has come later. */
  lemma TakesLater<V, C>(call: (C, V) -> Task<V, C>, env: Environment<V, C>, f: nat -> Event<V, C>, p: Pid, n: nat, m: nat,
                         r: Result<V, C>, k: nat)
    returns (r': Result<V, C>)
    requires n <= m && p < Spawns(Acts(call, env, f, n))
    requires Takes(call, SpawnTasks(Acts(call, env, f, n))[p], InputTo(Acts(call, env, f, n), p), r, k)
    ensures p < Spawns(Acts(call, env, f, m)) && r'.verdict == r.verdict
    ensures Takes(call, SpawnTasks(Acts(call, env, f, m))[p], InputTo(Acts(call, env, f, m), p), r', k)
  {
    var (a, b) := (Acts(call, env, f, n), Acts(call, env, f, m));
    ActsStay(call, env, f, n, m);
    SpawnTasksGrow(a, b);
    var extra := InputGrows(a, b, p);
    TakesWithMore(call, SpawnTasks(a)[p], InputTo(a, p), r, k, extra);
    r' := Result(r.verdict, Plus(r.rest, extra));
  }

  lemma UndisturbedLater<V, C>(
    call: (C, V) -> Task<V, C>, env: Environment<V, C>, f: nat -> Event<V, C>, p: Pid, from: nat, later: nat)
    requires Undisturbed(call, env, f, p, from) && from <= later
    ensures Undisturbed(call, env, f, p, later)
  {
    forall n: nat {:trigger Acts(call, env, f, n)} | n >= later
      ensures !KilledTwice(Acts(call, env, f, n)) && Spares(ActsBetween(call, env, f, later, n), p)
    {
      assert Spares(ActsBetween(call, env, f, from, n), p);
      ActsStay(call, env, f, from, later);
      ActsStay(call, env, f, later, n);
      SparesSuffix(Acts(call, env, f, from), Acts(call, env, f, later), Acts(call, env, f, n), p);
    }
  }

  lemma SparesSuffix<V, C>(a: seq<Action<V, C>>, b: seq<Action<V, C>>, c: seq<Action<V, C>>, p: Pid)
    requires a <= b <= c && Spares(c[|a|..], p)
    ensures Spares(c[|b|..], p)
  {
    assert c[|a|..] == c[|a|..|b|] + c[|b|..];
    SparesParts(c[|a|..|b|], c[|b|..], p);
  }

  /** A process that has something to do, from one turn to a later one. */
  lemma LivesOn<V, C>(
    call: (C, V) -> Task<V, C>, env: Environment<V, C>, f: nat -> Event<V, C>, p: Pid, n: nat, r: Result<V, C>, k: nat)
    returns (m: nat)
    requires Undisturbed(call, env, f, p, n) && Fair(f) && Lives(call, env, f, p, n)
    requires Awake(At(call, env, f, n).procs[p])
    requires MachineSteps(call, ConfigOf(At(call, env, f, n).procs[p]), k) == Some(Config(Return(r.verdict), [], r.rest))
    ensures m >= n && Lives(call, env, f, p, m)
    ensures At(call, env, f, m).procs[p].turns > At(call, env, f, n).procs[p].turns
  {
    AwakeIsReady(call, At(call, env, f, n).procs[p], r, k);
    var at := (i: nat) => At(call, env, f, i);
    UndisturbedIsEndless(call, env, f, at, p, n);
    m := TakesTurn(call, env, f, at, p, n);
    assert !KilledTwice(Acts(call, env, f, m));
    ActsStay(call, env, f, n, m);
    SpawnTasksGrow(Acts(call, env, f, n), Acts(call, env, f, m));
  }

  lemma {:induction false} EndsFrom<V, C>(
    call: (C, V) -> Task<V, C>, env: Environment<V, C>, f: nat -> Event<V, C>, p: Pid, n: nat, r: Result<V, C>, k: nat)
    returns (m: nat)
    requires Undisturbed(call, env, f, p, n) && Fair(f) && Lives(call, env, f, p, n)
    requires Takes(call, SpawnTasks(Acts(call, env, f, n))[p], InputTo(Acts(call, env, f, n), p), r, k)
    ensures m >= n && EndedWith(At(call, env, f, m), p, r.verdict)
    decreases k - (if p in At(call, env, f, n).procs then At(call, env, f, n).procs[p].turns else 0)
  {
    Spawned(call, env, Prefix(f, n), p);
    var (q, acts) := (At(call, env, f, n).procs[p], Acts(call, env, f, n));
    WithinTurns(call, q, SpawnTasks(acts)[p], InputTo(acts, p), r, k);
    if Awake(q) {
      var m1 := LivesOn(call, env, f, p, n, r, k - q.turns);
      UndisturbedLater(call, env, f, p, n, m1);
      var r1 := TakesLater(call, env, f, p, n, m1, r, k);
      m := EndsFrom(call, env, f, p, m1, r1, k);
    } else {
      m := n;
      AtRest(call, q, k - q.turns, r);
    }
  }

  /** In every endless run in which the timer keeps firing: a process in order whose task evaluates on the messages and
      answers it has been given, and that nobody kills or resumes from then on, comes to an end, and with the verdict of
      the evaluation. */
  lemma EventuallyEnds<V(!new), C(!new)>(
    call: (C, V) -> Task<V, C>, env: Environment<V, C>, f: nat -> Event<V, C>, p: Pid, n: nat, fuel: nat, r: Result<V, C>)
    requires Undisturbed(call, env, f, p, n) && Fair(f)
    requires InOrder(call, env, Prefix(f, n), p) && !Dead(Acts(call, env, f, n), p)
    requires Eval(call, SpawnTasks(Acts(call, env, f, n))[p], InputTo(Acts(call, env, f, n), p), fuel) == Some(r)
    ensures exists m: nat :: m >= n && EndedWith(At(call, env, f, m), p, r.verdict)
  {
    Spawned(call, env, Prefix(f, n), p);
    var k := TurnsOf(call, SpawnTasks(Acts(call, env, f, n))[p], InputTo(Acts(call, env, f, n), p), fuel, r);
    var m := EndsFrom(call, env, f, p, n, r, k);
  }
}
