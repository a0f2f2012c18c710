/** The cooperative scheduler: processes, mailboxes, the work queue and its timer. */
module Scheduler {
  import opened Basics
  import opened Tasks

  type Pid = nat

  const MAX_STEPS: nat := 10000

  /** A process. Besides `root` (none once killed), `stack` and `mailbox` it carries a record of its past: whether the
      binding at its root has been started, how many turns it has taken, the messages it has received, and whether it
      was resumed only while it was waiting for its binding to be answered. */
  datatype Process<V, C> = Process(
    root: Option<Task<V, C>>, stack: seq<Frame<C>>, mailbox: seq<V>,
    started: bool, turns: nat, received: seq<V>, orderly: bool)

  /** The scheduler's variables, `timers` counting pending calls of `work`; `calls` numbers the bindings run,
      `log` lists every `enqueue`, of which the first `head` have been dequeued, and `reductions` counts turns. */
  datatype State<V, C> = State(
    procs: map<Pid, Process<V, C>>, next: Pid, queue: seq<Pid>, working: bool, timers: nat,
    calls: nat, log: seq<Pid>, head: nat, reductions: nat)

  /** What native code may do: spawn, send, resume a process with a new task, kill. */
  datatype Action<V, C> =
    | Spawn(task: Task<V, C>)
    | Send(pid: Pid, msg: V)
    | Resume(pid: Pid, task: Task<V, C>)
    | Kill(pid: Pid)

  /** A state, and whether an exception was thrown on the way to it. */
  datatype Ran<V, C> = Ran(state: State<V, C>, thrown: bool)

  /** The environment: what the callback of the `k`-th binding does before it returns. */
  type Environment<V, C> = nat -> seq<Action<V, C>>

  function Initial<V, C>(): State<V, C> {
    State(map[], 0, [], false, 0, 0, [], 0, 0)
  }

  // ---------------------------------------------------------------- operations

  function Enqueue<V, C>(s: State<V, C>, p: Pid): State<V, C> {
    s.(queue := s.queue + [p], log := s.log + [p], working := true,
       timers := if s.working then s.timers else s.timers + 1)
  }

  function NewProcess<V, C>(t: Task<V, C>): Process<V, C> {
    Process(Some(t), [], [], false, 0, [], true)
  }

  /** The binding at the root has been started and not been answered yet. */
  predicate Waiting<V, C>(q: Process<V, C>) {
    q.root.Some? && q.root.value.NativeBinding? && q.started
  }

  /** The process is given a new root; its stack stays. */
  function Resumed<V, C>(q: Process<V, C>, t: Task<V, C>): Process<V, C> {
    q.(root := Some(t), started := false, turns := q.turns + 1, orderly := q.orderly && Waiting(q))
  }

  function WithProcess<V, C>(s: State<V, C>, p: Pid, q: Process<V, C>): State<V, C> {
    s.(procs := s.procs[p := q])
  }

  /** One action of native code. Nobody can hold a process that was never spawned. Killing a process that has no
      root reads a property of null. */
  function Act<V, C>(s: State<V, C>, a: Action<V, C>): Ran<V, C> {
    match a
    case Spawn(t) =>
      Ran(Enqueue(WithProcess(s, s.next, NewProcess(t)).(next := s.next + 1), s.next), false)
    case Send(p, m) =>
      if p !in s.procs then Ran(s, false)
      else
        var q := s.procs[p];
        Ran(Enqueue(WithProcess(s, p, q.(mailbox := q.mailbox + [m])), p), false)
    case Resume(p, t) =>
      if p !in s.procs then Ran(s, false)
      else Ran(Enqueue(WithProcess(s, p, Resumed(s.procs[p], t)), p), false)
    case Kill(p) =>
      if p !in s.procs then Ran(s, false)
      else if s.procs[p].root.None? then Ran(s, true)
      else Ran(WithProcess(s, p, s.procs[p].(root := None)), false)
  }

  function ActAll<V, C>(s: State<V, C>, script: seq<Action<V, C>>): Ran<V, C>
    decreases |script|
  {
    if script == [] then Ran(s, false)
    else
      var r := Act(s, script[0]);
      if r.thrown then r else ActAll(r.state, script[1..])
  }

  /** One turn of the `step` loop for a process: go on with it, leave it, or run its binding. */
  datatype Turn<V, C> = Continue(process: Process<V, C>) | Break(process: Process<V, C>) | Bind

  function TakeTurn<V, C>(call: (C, V) -> Task<V, C>, q: Process<V, C>): Turn<V, C>
    requires q.root.Some?
  {
    match q.root.value
    case Succeed(v) => TakeVerdict(call, q, Ok(v))
    case Fail(v) => TakeVerdict(call, q, Err(v))
    case AndThen(k, t) => Continue(Moved(q, t, [AndThenFrame(k)] + q.stack))
    case OnError(k, t) => Continue(Moved(q, t, [OnErrorFrame(k)] + q.stack))
    case NativeBinding(_) => Bind
    case Receive(k) =>
      if q.mailbox == [] then Break(q)
      else
        var m := q.mailbox[0];
        Continue(Moved(q.(mailbox := q.mailbox[1..], received := q.received + [m]), call(k, m), q.stack))
  }

  function TakeVerdict<V, C>(call: (C, V) -> Task<V, C>, q: Process<V, C>, r: Verdict<V>): Turn<V, C>
    requires q.root == Some(Return(r))
  {
    var rest := Unwind(q.stack, r);
    if rest != [] then Continue(Moved(q, call(rest[0].callback, r.value), rest[1..]))
    else if q.stack != [] then Break(Moved(q, q.root.value, []))
    else Break(q)
  }

  function Moved<V, C>(q: Process<V, C>, root: Task<V, C>, stack: seq<Frame<C>>): Process<V, C> {
    q.(root := Some(root), stack := stack, started := false, turns := q.turns + 1)
  }

  /** A state and the count of steps used up, or an exception. */
  datatype Stepped<V, C> = Stepped(ran: Ran<V, C>, numSteps: nat)

  /** `step`. */
  function Step<V, C>(call: (C, V) -> Task<V, C>, env: Environment<V, C>, s: State<V, C>, numSteps: nat, p: Pid)
    : (r: Stepped<V, C>)
    requires p in s.procs && s.procs[p].root.Some?
    ensures numSteps < MAX_STEPS ==> numSteps < r.numSteps <= MAX_STEPS
    decreases MAX_STEPS - numSteps
  {
    if numSteps >= MAX_STEPS then Stepped(Ran(Enqueue(s, p), false), numSteps)
    else match TakeTurn(call, s.procs[p])
      case Continue(q) => Step(call, env, WithProcess(s, p, q).(reductions := s.reductions + 1), numSteps + 1, p)
      case Break(q) => Stepped(Ran(WithProcess(s, p, q), false), numSteps + 1)
      case Bind => Stepped(RunBinding(env, s, p), numSteps + 1)
  }

  /** The root's binding is started: its callback does what the environment says. */
  function RunBinding<V, C>(env: Environment<V, C>, s: State<V, C>, p: Pid): Ran<V, C>
    requires p in s.procs
  {
    ActAll(WithProcess(s, p, s.procs[p].(started := true)).(calls := s.calls + 1), env(s.calls))
  }

  /** The loop of `work`, from a number of steps already used up. */
  function WorkLoop<V, C>(call: (C, V) -> Task<V, C>, env: Environment<V, C>, s: State<V, C>, numSteps: nat): Ran<V, C>
    decreases MAX_STEPS - numSteps, |s.queue|
  {
    if numSteps >= MAX_STEPS then Ran(s.(timers := s.timers + 1), false)
    else if s.queue == [] then Ran(s.(working := false), false)
    else
      var p := s.queue[0];
      var s1 := s.(queue := s.queue[1..], head := s.head + 1);
      if p !in s1.procs || s1.procs[p].root.None? then WorkLoop(call, env, s1, numSteps)
      else
        var stepped := Step(call, env, s1, numSteps, p);
        if stepped.ran.thrown then stepped.ran
        else WorkLoop(call, env, stepped.ran.state, stepped.numSteps)
  }

  /** A timer fires and `work` runs. */
  function Work<V, C>(call: (C, V) -> Task<V, C>, env: Environment<V, C>, s: State<V, C>): Ran<V, C>
    requires s.timers > 0
  {
    WorkLoop(call, env, s.(timers := s.timers - 1), 0)
  }

  // ---------------------------------------------------------------- what a turn is

  /** A process as the task machine sees it: its mailbox is the input it has left. */
  function ConfigOf<V, C>(q: Process<V, C>): Config<V, C>
    requires q.root.Some?
  {
    Config(q.root.value, q.stack, Input(q.mailbox, []))
  }

  /** There is something to do for this process without the outside. */
  predicate Awake<V, C>(q: Process<V, C>) {
    q.root.Some? &&
    match q.root.value
    case Succeed(v) => Unwind(q.stack, Ok(v)) != []
    case Fail(v) => Unwind(q.stack, Err(v)) != []
    case AndThen(_, _) => true
    case OnError(_, _) => true
    case NativeBinding(_) => !q.started
    case Receive(_) => q.mailbox != []
  }

  /** What a turn leaves alone: no message is lost or reordered between mailbox and receipt. */
  predicate SameMessages<V(==), C>(q: Process<V, C>, q': Process<V, C>) {
    q'.received + q'.mailbox == q.received + q.mailbox && q'.orderly == q.orderly
  }

  /** A turn that is not a binding's is one step of the task machine, or none where the machine has none; a process is
      left alone only when it has nothing to do. */
  lemma TurnIsMachineStep<V, C>(call: (C, V) -> Task<V, C>, q: Process<V, C>)
    requires q.root.Some?
    ensures TakeTurn(call, q).Bind? <==> q.root.value.NativeBinding?
    ensures var turn := TakeTurn(call, q);
            !turn.Bind? ==>
              && turn.process.root.Some? && SameMessages(q, turn.process)
              && (if turn.process.turns == q.turns then turn.process == q && MachineStep(call, ConfigOf(q)) == None
                  else turn.process.turns == q.turns + 1 && MachineStep(call, ConfigOf(q)) == Some(ConfigOf(turn.process)))
              && (turn.Continue? ==> turn.process.turns > q.turns)
              && (turn.Break? ==> !Awake(turn.process))
  {
    if q.root.value.Receive? && q.mailbox != [] {
      assert q.mailbox == [q.mailbox[0]] + q.mailbox[1..];
    }
  }

  /** An action leaves a process orderly unless it resumes it at another time than while its binding waits. */
  lemma OrderlyUnless<V, C>(s: State<V, C>, a: Action<V, C>, p: Pid)
    requires p in s.procs && p != s.next
    ensures p in Act(s, a).state.procs
    ensures Act(s, a).state.procs[p].orderly <==>
            s.procs[p].orderly && !(a.Resume? && a.pid == p && !(s.procs[p].root.Some? && s.procs[p].root.value.NativeBinding?
                                                                && s.procs[p].started))
  {
  }

  lemma OneMoreTurn<V, C>(call: (C, V) -> Task<V, C>, origin: Config<V, C>, turns: nat, c: Config<V, C>)
    requires MachineSteps(call, origin, turns) == Some(c) && MachineStep(call, c).Some?
    ensures MachineSteps(call, origin, turns + 1) == MachineStep(call, c)
  {
    StepsThen(call, origin, turns, 1);
    assert MachineSteps(call, c, 1) == MachineStep(call, c);
  }

  // ---------------------------------------------------------------- what the scheduler keeps

  /** The queue holds known processes and is what is left of the log. */
  ghost predicate Sane<V, C>(s: State<V, C>) {
    && (forall p :: p in s.queue ==> p in s.procs)
    && (forall p :: p in s.procs ==> p < s.next)
    && s.head <= |s.log| && s.queue == s.log[s.head..]
  }

  /** Every process that has something to do is in the queue, except one that is being stepped. */
  ghost predicate NoneForgotten<V, C>(s: State<V, C>, stepping: Option<Pid>) {
    forall p :: p in s.procs && Awake(s.procs[p]) ==> p in s.queue || stepping == Some(p)
  }

  /** While `work` runs there is no timer, and `working` is set. */
  ghost predicate Inside<V, C>(s: State<V, C>, stepping: Option<Pid>) {
    Sane(s) && NoneForgotten(s, stepping) && s.working && s.timers == 0
  }

  /** Between runs of `work`: exactly one timer is pending if `working` is set, none otherwise; and whoever has
      something to do is in the queue, which is empty unless a timer is pending. */
  ghost predicate Live<V, C>(s: State<V, C>) {
    && Sane(s) && NoneForgotten(s, None)
    && s.timers == (if s.working then 1 else 0)
    && (s.queue != [] ==> s.timers == 1)
  }

  /** What the scheduler keeps, inside `work` or outside. */
  ghost predicate Kept<V, C>(s: State<V, C>, inside: bool, stepping: Option<Pid>) {
    if inside then Inside(s, stepping) else stepping == None && Live(s)
  }

  lemma AtTheEnd(queue: seq<Pid>, log: seq<Pid>, head: nat, p: Pid)
    requires head <= |log| && queue == log[head..]
    ensures queue + [p] == (log + [p])[head..]
    ensures forall x :: x in queue + [p] <==> x in queue || x == p
  {
  }

  lemma EnqueueSane<V, C>(s: State<V, C>, p: Pid, q: Process<V, C>, next: Pid)
    requires Sane(s) && s.next <= next && p < next
    ensures Sane(Enqueue(WithProcess(s, p, q).(next := next), p))
  {
    AtTheEnd(s.queue, s.log, s.head, p);
  }

  lemma EnqueueForgetsNone<V, C>(s: State<V, C>, p: Pid, q: Process<V, C>, next: Pid, stepping: Option<Pid>)
    requires NoneForgotten(s, stepping)
    ensures NoneForgotten(Enqueue(WithProcess(s, p, q).(next := next), p), stepping)
  {
    AtTheEnd(s.queue, s.queue, 0, p);
  }

  /** Entering a process into the table and the queue. */
  lemma EnqueueKeeps<V, C>(s: State<V, C>, p: Pid, q: Process<V, C>, next: Pid,
                           inside: bool, stepping: Option<Pid>)
    requires Kept(s, inside, stepping) && s.next <= next && p < next
    ensures Kept(Enqueue(WithProcess(s, p, q).(next := next), p), inside, stepping)
  {
    EnqueueSane(s, p, q, next);
    EnqueueForgetsNone(s, p, q, next, stepping);
  }

  lemma ActKeeps<V, C>(s: State<V, C>, a: Action<V, C>, inside: bool, stepping: Option<Pid>)
    requires Kept(s, inside, stepping)
    ensures Kept(Act(s, a).state, inside, stepping)
    ensures Act(s, a).thrown <==> a.Kill? && a.pid in s.procs && s.procs[a.pid].root.None?
  {
    match a
    case Spawn(t) =>
      EnqueueKeeps(s, s.next, NewProcess(t), s.next + 1, inside, stepping);
    case Send(p, m) =>
      if p in s.procs {
        var q := s.procs[p];
        EnqueueKeeps(s, p, q.(mailbox := q.mailbox + [m]), s.next, inside, stepping);
      }
    case Resume(p, t) =>
      if p in s.procs {
        EnqueueKeeps(s, p, Resumed(s.procs[p], t), s.next, inside, stepping);
      }
    case Kill(p) =>
  }

  lemma {:induction false} ActAllKeeps<V, C>(
    s: State<V, C>, script: seq<Action<V, C>>, inside: bool, stepping: Option<Pid>)
    requires Kept(s, inside, stepping)
    ensures Kept(ActAll(s, script).state, inside, stepping)
    decreases |script|
  {
    if script != [] {
      ActKeeps(s, script[0], inside, stepping);
      ActAllKeeps(Act(s, script[0]).state, script[1..], inside, stepping);
    }
  }

  /** Changing the process that is being stepped. */
  lemma ReplaceKeeps<V, C>(s: State<V, C>, p: Pid, q: Process<V, C>, s': State<V, C>)
    requires Inside(s, Some(p)) && p in s.procs
    requires s'.(calls := 0, reductions := 0) == WithProcess(s, p, q).(calls := 0, reductions := 0)
    ensures Inside(s', Some(p)) && (!Awake(q) ==> Inside(s', None))
  {
  }

  lemma RunBindingKeeps<V, C>(env: Environment<V, C>, s: State<V, C>, p: Pid)
    requires Inside(s, Some(p)) && p in s.procs && s.procs[p].root.Some? && s.procs[p].root.value.NativeBinding?
    ensures Inside(RunBinding(env, s, p).state, None)
  {
    var q := s.procs[p].(started := true);
    var s' := WithProcess(s, p, q).(calls := s.calls + 1);
    ReplaceKeeps(s, p, q, s');
    ActAllKeeps(s', env(s.calls), true, None);
  }

  /** How `step` unfolds. */
  lemma StepUnfolds<V, C>(call: (C, V) -> Task<V, C>, env: Environment<V, C>, s: State<V, C>, numSteps: nat, p: Pid)
    requires p in s.procs && s.procs[p].root.Some?
    ensures Step(call, env, s, numSteps, p) ==
            if numSteps >= MAX_STEPS then Stepped(Ran(Enqueue(s, p), false), numSteps)
            else match TakeTurn(call, s.procs[p])
              case Continue(q) => Step(call, env, Counted(s, p, q), numSteps + 1, p)
              case Break(q) => Stepped(Ran(WithProcess(s, p, q), false), numSteps + 1)
              case Bind => Stepped(RunBinding(env, s, p), numSteps + 1)
  {
  }

  function Counted<V, C>(s: State<V, C>, p: Pid, q: Process<V, C>): State<V, C> {
    WithProcess(s, p, q).(reductions := s.reductions + 1)
  }

  /** One turn of a process keeps what the scheduler keeps. */
  lemma TurnKeeps<V, C>(call: (C, V) -> Task<V, C>, s: State<V, C>, p: Pid)
    requires Inside(s, Some(p)) && p in s.procs && s.procs[p].root.Some?
    ensures match TakeTurn(call, s.procs[p])
            case Continue(q) => Inside(Counted(s, p, q), Some(p))
            case Break(q) => Inside(WithProcess(s, p, q), None)
            case Bind => true
  {
    var turn := TakeTurn(call, s.procs[p]);
    if !turn.Bind? {
      TurnIsMachineStep(call, s.procs[p]);
      ReplaceKeeps(s, p, turn.process, Counted(s, p, turn.process));
      ReplaceKeeps(s, p, turn.process, WithProcess(s, p, turn.process));
    }
  }

  /** `step` leaves its process at rest, in the queue, or waiting for the outside. */
  lemma {:induction false} StepKeeps<V, C>(
    call: (C, V) -> Task<V, C>, env: Environment<V, C>, s: State<V, C>, numSteps: nat, p: Pid, r: Stepped<V, C>)
    requires Inside(s, Some(p)) && p in s.procs && s.procs[p].root.Some?
    requires r == Step(call, env, s, numSteps, p)
    ensures Inside(r.ran.state, None)
    decreases MAX_STEPS - numSteps
  {
    StepUnfolds(call, env, s, numSteps, p);
    if numSteps >= MAX_STEPS {
      StepEnqueues(s, p);
    } else {
      TurnKeeps(call, s, p);
      match TakeTurn(call, s.procs[p])
      case Continue(q) =>
        StepKeeps(call, env, Counted(s, p, q), numSteps + 1, p, r);
      case Break(q) =>
      case Bind =>
        RunBindingKeeps(env, s, p);
    }
  }

  lemma StepEnqueues<V, C>(s: State<V, C>, p: Pid)
    requires Inside(s, Some(p)) && p in s.procs
    ensures Inside(Enqueue(s, p), None)
  {
    AtTheEnd(s.queue, s.log, s.head, p);
  }

  lemma Dequeued<V, C>(s: State<V, C>)
    requires Inside(s, None) && s.queue != []
    ensures Inside(s.(queue := s.queue[1..], head := s.head + 1), Some(s.queue[0])) && s.queue[0] in s.procs
  {
    assert s.log[s.head + 1..] == s.log[s.head..][1..];
    assert forall x :: x in s.queue ==> x == s.queue[0] || x in s.queue[1..];
  }

  /** A run of `work` that throws nothing ends live; one that throws leaves `working` set and no timer. */
  lemma {:induction false} WorkLoopKeeps<V, C>(
    call: (C, V) -> Task<V, C>, env: Environment<V, C>, s: State<V, C>, numSteps: nat)
    requires Inside(s, None)
    ensures var r := WorkLoop(call, env, s, numSteps);
            if r.thrown then Inside(r.state, None) else Live(r.state)
    decreases MAX_STEPS - numSteps, |s.queue|
  {
    if numSteps < MAX_STEPS && s.queue != [] {
      Dequeued(s);
      var p := s.queue[0];
      var s1 := s.(queue := s.queue[1..], head := s.head + 1);
      if s1.procs[p].root.None? {
        WorkLoopKeeps(call, env, s1, numSteps);
      } else {
        var stepped := Step(call, env, s1, numSteps, p);
        StepKeeps(call, env, s1, numSteps, p, stepped);
        if !stepped.ran.thrown {
          WorkLoopKeeps(call, env, stepped.ran.state, stepped.numSteps);
        }
      }
    }
  }

  /** A run of `work` from a live state ends in a live state exactly when it throws nothing. */
  lemma WorkKeepsLive<V, C>(call: (C, V) -> Task<V, C>, env: Environment<V, C>, s: State<V, C>)
    requires Live(s) && s.timers > 0
    ensures Live(Work(call, env, s).state) <==> !Work(call, env, s).thrown
  {
    WorkLoopKeeps(call, env, s.(timers := s.timers - 1), 0);
  }

  // ---------------------------------------------------------------- budgets

  /** What only ever grows: the log, the number of dequeues, the number of turns. */
  ghost predicate Grows<V, C>(s: State<V, C>, s': State<V, C>, turns: nat) {
    s.log <= s'.log && s.head <= s'.head && s.reductions <= s'.reductions <= s.reductions + turns
  }

  lemma {:induction false} ActAllGrows<V, C>(s: State<V, C>, script: seq<Action<V, C>>)
    ensures Grows(s, ActAll(s, script).state, 0) && ActAll(s, script).state.head == s.head
    decreases |script|
  {
    if script != [] {
      ActAllGrows(Act(s, script[0]).state, script[1..]);
    }
  }

  lemma {:induction false} StepGrows<V, C>(
    call: (C, V) -> Task<V, C>, env: Environment<V, C>, s: State<V, C>, numSteps: nat, p: Pid)
    requires p in s.procs && s.procs[p].root.Some? && numSteps <= MAX_STEPS
    ensures var r := Step(call, env, s, numSteps, p);
            numSteps <= r.numSteps <= MAX_STEPS && Grows(s, r.ran.state, r.numSteps - numSteps) && r.ran.state.head == s.head
    decreases MAX_STEPS - numSteps
  {
    if numSteps < MAX_STEPS {
      match TakeTurn(call, s.procs[p])
      case Continue(q) =>
        StepGrows(call, env, WithProcess(s, p, q).(reductions := s.reductions + 1), numSteps + 1, p);
      case Break(_) =>
      case Bind =>
        ActAllGrows(WithProcess(s, p, s.procs[p].(started := true)).(calls := s.calls + 1), env(s.calls));
    }
  }

  /** One run of `work` takes at most MAX_STEPS turns, and serves at least the first in the queue. */
  lemma {:induction false} WorkLoopGrows<V, C>(
    call: (C, V) -> Task<V, C>, env: Environment<V, C>, s: State<V, C>, numSteps: nat)
    requires numSteps <= MAX_STEPS
    ensures var r := WorkLoop(call, env, s, numSteps);
            Grows(s, r.state, MAX_STEPS - numSteps) && (numSteps < MAX_STEPS && s.queue != [] ==> r.state.head > s.head)
    decreases MAX_STEPS - numSteps, |s.queue|
  {
    if numSteps < MAX_STEPS && s.queue != [] {
      var p := s.queue[0];
      var s1 := s.(queue := s.queue[1..], head := s.head + 1);
      if p !in s1.procs || s1.procs[p].root.None? {
        WorkLoopGrows(call, env, s1, numSteps);
      } else {
        StepGrows(call, env, s1, numSteps, p);
        var stepped := Step(call, env, s1, numSteps, p);
        if !stepped.ran.thrown {
          WorkLoopGrows(call, env, stepped.ran.state, stepped.numSteps);
        }
      }
    }
  }

  // ---------------------------------------------------------------- whole runs

  /** What happens to the scheduler: its timer fires, or native code outside `work` spawns, sends or resumes. */
  datatype Event<V, C> = TimerFires | Outside(action: Action<V, C>)

  predicate Possible<V, C>(s: State<V, C>, e: Event<V, C>) {
    if e.TimerFires? then s.timers > 0 else !e.action.Kill?
  }

  function Happen<V, C>(call: (C, V) -> Task<V, C>, env: Environment<V, C>, s: State<V, C>, e: Event<V, C>): Ran<V, C> {
    if !Possible(s, e) then Ran(s, false)
    else if e.TimerFires? then Work(call, env, s)
    else Act(s, e.action)
  }

  /** The state after a run from `s`; an exception ends only the event it occurs in. */
  function Run<V, C>(call: (C, V) -> Task<V, C>, env: Environment<V, C>, s: State<V, C>, events: seq<Event<V, C>>): Ran<V, C> {
    if events == [] then Ran(s, false)
    else
      var before := Run(call, env, s, events[..|events| - 1]);
      var after := Happen(call, env, before.state, events[|events| - 1]);
      Ran(after.state, before.thrown || after.thrown)
  }

  lemma InitialIsLive<V, C>()
    ensures Live(Initial<V, C>())
  {
  }

  /** What one event does to a live scheduler: it stays live, or an exception stalls it. */
  lemma HappenKeeps<V, C>(call: (C, V) -> Task<V, C>, env: Environment<V, C>, s: State<V, C>, e: Event<V, C>)
    requires Live(s)
    ensures var r := Happen(call, env, s, e); if r.thrown then Stalled(r.state) else Live(r.state)
  {
    if Possible(s, e) {
      if e.TimerFires? {
        WorkLoopKeeps(call, env, s.(timers := s.timers - 1), 0);
      } else {
        ActKeeps(s, e.action, false, None);
      }
    }
  }

  /** Stalled: `working` is set but no timer will ever call `work` again. */
  predicate Stalled<V, C>(s: State<V, C>) {
    s.working && s.timers == 0
  }

  /** A stalled scheduler takes no turn and serves nobody, whatever happens. */
  lemma StalledForGood<V, C>(call: (C, V) -> Task<V, C>, env: Environment<V, C>, s: State<V, C>, e: Event<V, C>)
    requires Stalled(s)
    ensures var r := Happen(call, env, s, e);
            && !r.thrown && Stalled(r.state)
            && r.state.head == s.head && r.state.reductions == s.reductions && s.queue <= r.state.queue
  {
  }

  /** A run stays live until an exception is thrown, and the first exception stalls the scheduler for good. */
  lemma {:induction false} LiveOrThrown<V, C>(
    call: (C, V) -> Task<V, C>, env: Environment<V, C>, s: State<V, C>, events: seq<Event<V, C>>)
    requires Live(s)
    ensures var r := Run(call, env, s, events); (Live(r.state) <==> !r.thrown) && (Stalled(r.state) <==> r.thrown)
  {
    if events != [] {
      var before, e := Run(call, env, s, events[..|events| - 1]), events[|events| - 1];
      LiveOrThrown(call, env, s, events[..|events| - 1]);
      if before.thrown {
        StalledForGood(call, env, before.state, e);
      } else {
        HappenKeeps(call, env, before.state, e);
      }
    }
  }

  function TimersIn<V, C>(events: seq<Event<V, C>>): nat {
    if events == [] then 0
    else TimersIn(events[..|events| - 1]) + if events[|events| - 1].TimerFires? then 1 else 0
  }

  /** An event never shortens the log, and a run of `work` serves somebody if anybody is waiting. */
  lemma HappenServes<V, C>(call: (C, V) -> Task<V, C>, env: Environment<V, C>, s: State<V, C>, e: Event<V, C>)
    requires Live(s)
    ensures var s' := Happen(call, env, s, e).state;
            s.log <= s'.log && s.head <= s'.head && (e.TimerFires? ==> s.head < s'.head || s.head == |s.log|)
  {
    if e.TimerFires? && Possible(s, e) {
      WorkLoopGrows(call, env, s.(timers := s.timers - 1), 0);
    }
  }

  /** Whoever is at position `k` of the queue is served within `k + 1` runs of `work`: after `n` of them at least
      the first `n` of the entries that were in the queue have been dequeued. */
  lemma {:induction false} ServedInTurn<V, C>(
    call: (C, V) -> Task<V, C>, env: Environment<V, C>, s: State<V, C>, events: seq<Event<V, C>>)
    requires Live(s) && !Run(call, env, s, events).thrown
    ensures var r := Run(call, env, s, events).state;
            s.log <= r.log && (s.head + TimersIn(events) <= r.head || |s.log| <= r.head)
  {
    if events != [] {
      ServedInTurn(call, env, s, events[..|events| - 1]);
      LiveOrThrown(call, env, s, events[..|events| - 1]);
      HappenServes(call, env, Run(call, env, s, events[..|events| - 1]).state, events[|events| - 1]);
    }
  }

  /** Each run of `work` takes at most MAX_STEPS turns. */
  lemma WorkBudget<V, C>(call: (C, V) -> Task<V, C>, env: Environment<V, C>, s: State<V, C>)
    requires s.timers > 0
    ensures Work(call, env, s).state.reductions <= s.reductions + MAX_STEPS
  {
    WorkLoopGrows(call, env, s.(timers := s.timers - 1), 0);
  }
}
