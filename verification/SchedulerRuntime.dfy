/** The scheduler as it runs: an object whose fields its functions update, and the loops of `step` and `work`. */
module SchedulerRuntime {
  import opened Basics
  import opened Tasks
  import opened Scheduler

  class Runtime<V, C> {
    /** What callbacks return, and what the callbacks of bindings do. */
    const call: (C, V) -> Task<V, C>
    const env: Environment<V, C>

    var procs: map<Pid, Process<V, C>>
    var next: Pid
    var queue: seq<Pid>
    var working: bool
    var timers: nat
    var calls: nat
    ghost var log: seq<Pid>
    ghost var head: nat
    ghost var reductions: nat

    ghost function View(): State<V, C>
      reads this
    {
      State(procs, next, queue, working, timers, calls, log, head, reductions)
    }

    constructor (call: (C, V) -> Task<V, C>, env: Environment<V, C>)
      ensures View() == Initial() && Live(View()) && this.call == call && this.env == env
    {
      this.call, this.env := call, env;
      procs, next, queue, working, timers, calls := map[], 0, [], false, 0, 0;
      log, head, reductions := [], 0, 0;
    }

    method Enqueue(p: Pid)
      modifies this
      ensures View() == Scheduler.Enqueue(old(View()), p)
    {
      queue, log := queue + [p], log + [p];
      if !working {
        timers, working := timers + 1, true;
      }
    }

    method RawSpawn(task: Task<V, C>) returns (p: Pid)
      modifies this
      ensures View() == Act(old(View()), Spawn(task)).state && p == old(next)
    {
      p := next;
      procs, next := procs[p := NewProcess(task)], next + 1;
      Enqueue(p);
    }

    method RawSend(p: Pid, msg: V)
      requires p in procs
      modifies this
      ensures View() == Act(old(View()), Send(p, msg)).state
    {
      var q := procs[p];
      procs := procs[p := q.(mailbox := q.mailbox + [msg])];
      Enqueue(p);
    }

    /** The function a binding receives: it gives its process a new root. */
    method ResumeWith(p: Pid, newRoot: Task<V, C>)
      requires p in procs
      modifies this
      ensures View() == Act(old(View()), Resume(p, newRoot)).state
    {
      procs := procs[p := Resumed(procs[p], newRoot)];
      Enqueue(p);
    }

    method KillProcess(p: Pid) returns (thrown: bool)
      requires p in procs
      modifies this
      ensures Ran(View(), thrown) == Act(old(View()), Kill(p))
    {
      if procs[p].root.None? {
        return true;
      }
      procs := procs[p := procs[p].(root := None)];
      return false;
    }

    /** What a binding's callback does before it returns. */
    method RunScript(script: seq<Action<V, C>>) returns (thrown: bool)
      modifies this
      ensures Ran(View(), thrown) == ActAll(old(View()), script)
    {
      for i := 0 to |script|
        invariant ActAll(View(), script[i..]) == ActAll(old(View()), script)
      {
        assert script[i..][1..] == script[i + 1..];
        match script[i]
        case Spawn(t) =>
          var p := RawSpawn(t);
        case Send(p, m) =>
          if p in procs {
            RawSend(p, m);
          }
        case Resume(p, t) =>
          if p in procs {
            ResumeWith(p, t);
          }
        case Kill(p) =>
          if p in procs {
            var t := KillProcess(p);
            if t {
              return true;
            }
          }
      }
      return false;
    }

    /** The inner loops of `step`: pop the frames that do not take the verdict. */
    method PopFrames(stack: seq<Frame<C>>, r: Verdict<V>) returns (rest: seq<Frame<C>>)
      ensures rest == Unwind(stack, r)
    {
      rest := stack;
      while rest != [] && !Handles(rest[0], r)
        invariant Unwind(rest, r) == Unwind(stack, r)
      {
        rest := rest[1..];
      }
    }

    /** A process whose root has come to a verdict: call the handler, or stop. */
    method Settle(q: Process<V, C>, r: Verdict<V>) returns (turn: Turn<V, C>)
      requires q.root == Some(Return(r))
      ensures turn == TakeVerdict(call, q, r)
    {
      var rest := PopFrames(q.stack, r);
      if rest == [] {
        return Break(if q.stack == [] then q else Moved(q, q.root.value, []));
      }
      return Continue(Moved(q, call(rest[0].callback, r.value), rest[1..]));
    }

    /** One turn of a process, by the constructor of its root. */
    method NextTurn(q: Process<V, C>) returns (turn: Turn<V, C>)
      requires q.root.Some?
      ensures turn == TakeTurn(call, q)
    {
      match q.root.value {
        case Succeed(v) => turn := Settle(q, Ok(v));
        case Fail(v) => turn := Settle(q, Err(v));
        case AndThen(k, t) => turn := Continue(Moved(q, t, [AndThenFrame(k)] + q.stack));
        case OnError(k, t) => turn := Continue(Moved(q, t, [OnErrorFrame(k)] + q.stack));
        case NativeBinding(_) => turn := Bind;
        case Receive(k) =>
          if q.mailbox == [] {
            return Break(q);
          }
          var m := q.mailbox[0];
          var q' := q.(mailbox := q.mailbox[1..], received := q.received + [m]);
          turn := Continue(Moved(q', call(k, m), q.stack));
      }
    }

    /** The binding at the root of a process is started. */
    method StartBinding(p: Pid) returns (thrown: bool)
      requires p in procs
      modifies this
      ensures Ran(View(), thrown) == RunBinding(env, old(View()), p)
    {
      procs, calls := procs[p := procs[p].(started := true)], calls + 1;
      thrown := RunScript(env(calls - 1));
    }

    /** The body of the loop of `step`: one reduction, after which the process goes on or not. */
    method Reduce(used: nat, p: Pid) returns (goesOn: bool, thrown: bool)
      requires p in procs && procs[p].root.Some? && used < MAX_STEPS
      modifies this
      ensures goesOn ==> p in procs && procs[p].root.Some?
      ensures Step(call, env, old(View()), used, p) ==
              if goesOn then Step(call, env, View(), used + 1, p) else Stepped(Ran(View(), thrown), used + 1)
    {
      StepUnfolds(call, env, View(), used, p);
      var turn := NextTurn(procs[p]);
      if turn.Bind? {
        thrown := StartBinding(p);
        return false, thrown;
      }
      procs := procs[p := turn.process];
      if turn.Continue? {
        reductions := reductions + 1;
      }
      return turn.Continue?, false;
    }

    /** `step`. */
    method StepProcess(used: nat, p: Pid) returns (numSteps: nat, thrown: bool)
      requires p in procs && procs[p].root.Some?
      modifies this
      ensures Stepped(Ran(View(), thrown), numSteps) == Step(call, env, old(View()), used, p)
    {
      numSteps := used;
      while numSteps < MAX_STEPS
        invariant p in procs && procs[p].root.Some?
        invariant Step(call, env, View(), numSteps, p) == Step(call, env, old(View()), used, p)
        decreases MAX_STEPS - numSteps
      {
        var goesOn;
        goesOn, thrown := Reduce(numSteps, p);
        numSteps := numSteps + 1;
        if !goesOn {
          return;
        }
      }
      StepUnfolds(call, env, View(), numSteps, p);
      Enqueue(p);
      return numSteps, false;
    }

    /** The body of the loop of `work`: the first process in the queue is taken out and stepped, if it lives. */
    method Dispatch(used: nat) returns (numSteps: nat, thrown: bool)
      requires used < MAX_STEPS && queue != []
      modifies this
      ensures WorkLoop(call, env, old(View()), used) ==
              if thrown then Ran(View(), true) else WorkLoop(call, env, View(), numSteps)
      ensures used < numSteps <= MAX_STEPS || (numSteps == used && |queue| < old(|queue|))
    {
      var p := queue[0];
      queue, head := queue[1..], head + 1;
      if p !in procs || procs[p].root.None? {
        return used, false;
      }
      numSteps, thrown := StepProcess(used, p);
    }

    /** `work`, called by the timer. */
    method WorkNow() returns (thrown: bool)
      requires timers > 0
      modifies this
      ensures Ran(View(), thrown) == Work(call, env, old(View()))
      ensures old(Live(View())) ==> (Live(View()) <==> !thrown)
    {
      ghost var before := View();
      timers := timers - 1;
      ghost var start := View();
      var numSteps := 0;
      while numSteps < MAX_STEPS && queue != []
        invariant 0 <= numSteps
        invariant WorkLoop(call, env, View(), numSteps) == WorkLoop(call, env, start, 0)
        decreases MAX_STEPS - numSteps, |queue|
      {
        numSteps, thrown := Dispatch(numSteps);
        if thrown {
          WorkKeeps(before);
          return true;
        }
      }
      if numSteps < MAX_STEPS {
        working := false;
      } else {
        timers := timers + 1;
      }
      thrown := false;
      WorkKeeps(before);
    }

    lemma WorkKeeps(s: State<V, C>)
      requires s.timers > 0
      ensures Live(s) ==> (Live(Work(call, env, s).state) <==> !Work(call, env, s).thrown)
    {
      if Live(s) {
        WorkKeepsLive(call, env, s);
      }
    }
  }
}
