/** Whole runs of the scheduler: which of them stall, and what their processes end with. */
module SchedulerRuns {
  import opened Basics
  import opened Tasks
  import opened Scheduler

  // ---------------------------------------------------------------- the actions of a run

  /** What the bindings from the `from`-th on, up to the `upto`-th, do. */
  function Scripts<V, C>(env: Environment<V, C>, from: nat, upto: nat): seq<Action<V, C>>
    decreases upto
  {
    if upto <= from then [] else Scripts(env, from, upto - 1) + env(upto - 1)
  }

  /** All actions of a run in order: those from outside, and those of the bindings that were run. */
  function Performed<V, C>(call: (C, V) -> Task<V, C>, env: Environment<V, C>, events: seq<Event<V, C>>): seq<Action<V, C>> {
    if events == [] then []
    else
      var (front, e) := (events[..|events| - 1], events[|events| - 1]);
      Performed(call, env, front) +
      match e
      case Outside(a) => if a.Kill? then [] else [a]
      case TimerFires =>
        Scripts(env, Run(call, env, Initial(), front).state.calls, Run(call, env, Initial(), events).state.calls)
  }

  /** The tasks these actions spawn processes with; processes are numbered as they are spawned. */
  function SpawnTasks<V, C>(acts: seq<Action<V, C>>): seq<Task<V, C>> {
    if acts == [] then []
    else SpawnTasks(acts[..|acts| - 1]) + match acts[|acts| - 1] case Spawn(t) => [t] case _ => []
  }

  function Spawns<V, C>(acts: seq<Action<V, C>>): nat {
    |SpawnTasks(acts)|
  }

  predicate Resumes<V, C>(a: Action<V, C>, p: Pid) {
    a.Resume? && a.pid == p
  }

  predicate Kills<V, C>(a: Action<V, C>, p: Pid) {
    a.Kill? && a.pid == p
  }

  predicate SendsTo<V, C>(a: Action<V, C>, p: Pid) {
    a.Send? && a.pid == p
  }

  /** The messages sent to a process by these actions, from when it was spawned. */
  function SentTo<V, C>(acts: seq<Action<V, C>>, p: Pid): seq<V> {
    if acts == [] then []
    else
      var (front, a) := (acts[..|acts| - 1], acts[|acts| - 1]);
      SentTo(front, p) + if SendsTo(a, p) && p < Spawns(front) then [a.msg] else []
  }

  /** The tasks that it was resumed with. */
  function AnswersTo<V, C>(acts: seq<Action<V, C>>, p: Pid): seq<Task<V, C>> {
    if acts == [] then []
    else
      var (front, a) := (acts[..|acts| - 1], acts[|acts| - 1]);
      AnswersTo(front, p) + if Resumes(a, p) && p < Spawns(front) then [a.task] else []
  }

  function InputTo<V, C>(acts: seq<Action<V, C>>, p: Pid): Input<V, C> {
    Input(SentTo(acts, p), AnswersTo(acts, p))
  }

  /** The `i`-th action kills a process that has been spawned, and up to the `j`-th nobody resumes it. */
  predicate KilledFrom<V, C>(acts: seq<Action<V, C>>, i: nat, j: nat, p: Pid)
    requires i < j <= |acts|
  {
    Kills(acts[i], p) && p < Spawns(acts[..i]) && forall k :: i < k < j ==> !Resumes(acts[k], p)
  }

  /** Some process is killed a second time without having been resumed in between. */
  ghost predicate KilledTwice<V, C>(acts: seq<Action<V, C>>) {
    exists i, j, p: Pid {:trigger KilledFrom(acts, i, j, p)} :: 0 <= i < j < |acts| && KilledFrom(acts, i, j, p) && Kills(acts[j], p)
  }

  /** The process has been killed, and not been resumed since. */
  ghost predicate Dead<V, C>(acts: seq<Action<V, C>>, p: Pid) {
    exists i {:trigger KilledFrom(acts, i, |acts|, p)} :: 0 <= i < |acts| && KilledFrom(acts, i, |acts|, p)
  }

  lemma KilledFromMore<V, C>(acts: seq<Action<V, C>>, more: seq<Action<V, C>>, i: nat, j: nat, p: Pid)
    requires i < j <= |acts|
    ensures KilledFrom(acts + more, i, j, p) <==> KilledFrom(acts, i, j, p)
  {
    assert (acts + more)[..i] == acts[..i];
    assert forall k :: 0 <= k < |acts| ==> (acts + more)[k] == acts[k];
  }

  lemma KilledTwiceMore<V, C>(acts: seq<Action<V, C>>, more: seq<Action<V, C>>)
    requires KilledTwice(acts)
    ensures KilledTwice(acts + more)
  {
    var i, j, p :| 0 <= i < j < |acts| && KilledFrom(acts, i, j, p) && Kills(acts[j], p);
    KilledFromMore(acts, more, i, j, p);
  }

  lemma DeadAfter<V, C>(acts: seq<Action<V, C>>, a: Action<V, C>, p: Pid)
    ensures Dead(acts + [a], p) <==>
            if Resumes(a, p) then false else Dead(acts, p) || (Kills(a, p) && p < Spawns(acts))
  {
    var acts', n := acts + [a], |acts|;
    assert acts'[..n] == acts;
    if Dead(acts', p) {
      var i :| 0 <= i < n + 1 && KilledFrom(acts', i, n + 1, p);
      if i < n {
        assert KilledFrom(acts', i, n, p);
        KilledFromMore(acts, [a], i, n, p);
        assert !Resumes(acts'[n], p);
      }
    }
    if !Resumes(a, p) {
      if Dead(acts, p) {
        var i :| 0 <= i < n && KilledFrom(acts, i, n, p);
        KilledFromMore(acts, [a], i, n, p);
        assert KilledFrom(acts', i, n + 1, p);
      } else if Kills(a, p) && p < Spawns(acts) {
        assert KilledFrom(acts', n, n + 1, p);
      }
    }
  }

  lemma KilledTwiceAfter<V, C>(acts: seq<Action<V, C>>, a: Action<V, C>)
    ensures KilledTwice(acts + [a]) <==> KilledTwice(acts) || (a.Kill? && Dead(acts, a.pid))
  {
    var acts', n := acts + [a], |acts|;
    if KilledTwice(acts') {
      var i, j, p :| 0 <= i < j < n + 1 && KilledFrom(acts', i, j, p) && Kills(acts'[j], p);
      KilledFromMore(acts, [a], i, j, p);
    }
    if KilledTwice(acts) {
      KilledTwiceMore(acts, [a]);
    } else if a.Kill? && Dead(acts, a.pid) {
      var i :| 0 <= i < n && KilledFrom(acts, i, n, a.pid);
      KilledFromMore(acts, [a], i, n, a.pid);
      assert KilledFrom(acts', i, n, a.pid) && Kills(acts'[n], a.pid);
    }
  }

  lemma {:induction false} SpawnsGrow<V, C>(acts: seq<Action<V, C>>, i: nat)
    requires i <= |acts|
    ensures SpawnTasks(acts[..i]) <= SpawnTasks(acts)
    decreases |acts|
  {
    if i < |acts| {
      var front := acts[..|acts| - 1];
      assert front[..i] == acts[..i];
      SpawnsGrow(front, i);
    } else {
      assert acts[..i] == acts;
    }
  }

  lemma DeadIsSpawned<V, C>(acts: seq<Action<V, C>>, p: Pid)
    requires Dead(acts, p)
    ensures p < Spawns(acts)
  {
    var i :| 0 <= i < |acts| && KilledFrom(acts, i, |acts|, p);
    SpawnsGrow(acts, i);
  }

  // ---------------------------------------------------------------- states and actions

  predicate NeverResumed<V, C>(acts: seq<Action<V, C>>, p: Pid) {
    forall k :: 0 <= k < |acts| ==> !Resumes(acts[k], p)
  }

  /** What a process has received and what is in its mailbox is what was sent to it, in order. */
  predicate Delivered<V(==), C>(q: Process<V, C>, sent: seq<V>) {
    q.received + q.mailbox == sent
  }

  /** As long as it was resumed in order only, a process is where the task machine is after as many turns as it has
      taken, from the task it was spawned with and on the input it was given. */
  ghost predicate Computes<V, C>(call: (C, V) -> Task<V, C>, q: Process<V, C>, t: Task<V, C>, input: Input<V, C>) {
    q.root.Some? && q.orderly ==> MachineSteps(call, Config(t, [], input), q.turns) == Some(ConfigOf(q))
  }

  /** A process is what the actions have made of it. */
  ghost predicate Accounted<V, C>(call: (C, V) -> Task<V, C>, q: Process<V, C>, acts: seq<Action<V, C>>, p: Pid) {
    && p < Spawns(acts)
    && Delivered(q, SentTo(acts, p)) && Computes(call, q, SpawnTasks(acts)[p], InputTo(acts, p))
    && (NeverResumed(acts, p) ==> q.orderly)
    && (q.root.None? <==> Dead(acts, p))
  }

  /** The table of processes is what the actions have made of it: the spawned ones, each accounted for. */
  ghost predicate Recorded<V, C>(call: (C, V) -> Task<V, C>, s: State<V, C>, acts: seq<Action<V, C>>) {
    && s.next == Spawns(acts)
    && (forall p: Pid :: p in s.procs <==> p < s.next)
    && forall p: Pid {:trigger Accounted(call, s.procs[p], acts, p)} :: p in s.procs ==> Accounted(call, s.procs[p], acts, p)
  }

  lemma SpawnsAfter<V, C>(acts: seq<Action<V, C>>, a: Action<V, C>)
    ensures SpawnTasks(acts + [a]) == SpawnTasks(acts) + match a case Spawn(t) => [t] case _ => []
  {
    assert (acts + [a])[..|acts|] == acts;
  }

  lemma InputAfter<V, C>(acts: seq<Action<V, C>>, a: Action<V, C>, p: Pid)
    ensures InputTo(acts + [a], p) ==
            Plus(InputTo(acts, p), if p >= Spawns(acts) then NoInput()
                                   else if SendsTo(a, p) then Input([a.msg], [])
                                   else if Resumes(a, p) then Input([], [a.task])
                                   else NoInput())
  {
    assert (acts + [a])[..|acts|] == acts;
  }

  lemma PlusNothing<V, C>(input: Input<V, C>)
    ensures Plus(input, NoInput()) == input
  {
  }

  /** A process that is spawned only now has been given nothing. */
  lemma {:induction false} NothingBeforeSpawn<V, C>(acts: seq<Action<V, C>>, p: Pid)
    requires p >= Spawns(acts)
    ensures InputTo(acts, p) == NoInput()
    decreases |acts|
  {
    if acts != [] {
      var (front, a) := (acts[..|acts| - 1], acts[|acts| - 1]);
      assert acts == front + [a];
      SpawnsAfter(front, a);
      NothingBeforeSpawn(front, p);
      InputAfter(front, a, p);
      PlusNothing(InputTo(front, p));
    }
  }

  lemma NeverResumedAfter<V, C>(acts: seq<Action<V, C>>, a: Action<V, C>, p: Pid)
    ensures NeverResumed(acts + [a], p) <==> NeverResumed(acts, p) && !Resumes(a, p)
  {
    assert forall k :: 0 <= k < |acts| ==> (acts + [a])[k] == acts[k];
    assert (acts + [a])[|acts|] == a;
  }

  /** A message more, and the process that has it in its mailbox. */
  lemma ComputesWithMessage<V, C>(call: (C, V) -> Task<V, C>, q: Process<V, C>, t: Task<V, C>, input: Input<V, C>, m: V)
    requires Computes(call, q, t, input)
    ensures Computes(call, q.(mailbox := q.mailbox + [m]), t, Plus(input, Input([m], [])))
  {
    var q' := q.(mailbox := q.mailbox + [m]);
    if q.root.Some? && q.orderly {
      MoreInput(call, Config(t, [], input), q.turns, Input([m], []));
      assert Plus<V, C>(Input(q.mailbox, []), Input([m], [])) == Input(q.mailbox + [m], []);
    }
  }

  /** An answer more, and the process that has taken it in place of its binding. */
  lemma ComputesWithAnswer<V, C>(
    call: (C, V) -> Task<V, C>, q: Process<V, C>, t: Task<V, C>, input: Input<V, C>, answer: Task<V, C>)
    requires Computes(call, q, t, input)
    ensures Computes(call, Resumed(q, answer), t, Plus(input, Input([], [answer])))
  {
    if q.orderly && Waiting(q) {
      MoreInput(call, Config(t, [], input), q.turns, Input([], [answer]));
      assert Plus(Input(q.mailbox, []), Input([], [answer])) == Input(q.mailbox, [answer]);
      var c := Config(q.root.value, q.stack, Input(q.mailbox, [answer]));
      assert [answer][1..] == [];
      assert MachineStep(call, c) == Some(Config(answer, q.stack, Input(q.mailbox, [])));
      OneMoreTurn(call, Config(t, [], Plus(input, Input([], [answer]))), q.turns, c);
    }
  }

  /** What is the same for a process whatever the action. */
  lemma AccountedStill<V, C>(call: (C, V) -> Task<V, C>, q: Process<V, C>, acts: seq<Action<V, C>>, a: Action<V, C>, p: Pid)
    requires Accounted(call, q, acts, p)
    ensures p < Spawns(acts + [a]) && SpawnTasks(acts + [a])[p] == SpawnTasks(acts)[p]
    ensures NeverResumed(acts + [a], p) ==> q.orderly && !Resumes(a, p)
    ensures Dead(acts + [a], p) <==> if Resumes(a, p) then false else q.root.None? || Kills(a, p)
  {
    SpawnsAfter(acts, a);
    NeverResumedAfter(acts, a, p);
    DeadAfter(acts, a, p);
  }

  lemma SendAccounted<V, C>(call: (C, V) -> Task<V, C>, q: Process<V, C>, acts: seq<Action<V, C>>, a: Action<V, C>, p: Pid)
    requires Accounted(call, q, acts, p) && SendsTo(a, p)
    ensures Accounted(call, q.(mailbox := q.mailbox + [a.msg]), acts + [a], p)
  {
    var q' := q.(mailbox := q.mailbox + [a.msg]);
    AccountedStill(call, q, acts, a, p);
    InputAfter(acts, a, p);
    ComputesWithMessage(call, q, SpawnTasks(acts)[p], InputTo(acts, p), a.msg);
    assert q.received + (q.mailbox + [a.msg]) == q.received + q.mailbox + [a.msg];
  }

  lemma AnswerAccounted<V, C>(call: (C, V) -> Task<V, C>, q: Process<V, C>, acts: seq<Action<V, C>>, a: Action<V, C>, p: Pid)
    requires Accounted(call, q, acts, p) && Resumes(a, p)
    ensures Accounted(call, Resumed(q, a.task), acts + [a], p)
  {
    AccountedStill(call, q, acts, a, p);
    InputAfter(acts, a, p);
    ComputesWithAnswer(call, q, SpawnTasks(acts)[p], InputTo(acts, p), a.task);
    assert SentTo(acts, p) + [] == SentTo(acts, p);
  }

  lemma OtherAccounted<V, C>(call: (C, V) -> Task<V, C>, q: Process<V, C>, acts: seq<Action<V, C>>, a: Action<V, C>, p: Pid)
    requires Accounted(call, q, acts, p) && !SendsTo(a, p) && !Resumes(a, p)
    ensures Accounted(call, if Kills(a, p) then q.(root := None) else q, acts + [a], p)
  {
    AccountedStill(call, q, acts, a, p);
    InputAfter(acts, a, p);
    PlusNothing(InputTo(acts, p));
  }

  /** One action, as seen by a process that is there. */
  lemma ActAccounted<V, C>(call: (C, V) -> Task<V, C>, s: State<V, C>, acts: seq<Action<V, C>>, a: Action<V, C>, p: Pid)
    requires !Act(s, a).thrown && p in s.procs && p != s.next && Accounted(call, s.procs[p], acts, p)
    ensures p in Act(s, a).state.procs && Accounted(call, Act(s, a).state.procs[p], acts + [a], p)
  {
    if SendsTo(a, p) {
      SendAccounted(call, s.procs[p], acts, a, p);
    } else if Resumes(a, p) {
      AnswerAccounted(call, s.procs[p], acts, a, p);
    } else {
      OtherAccounted(call, s.procs[p], acts, a, p);
    }
  }

  /** One action, as seen by the process it spawns. */
  lemma SpawnAccounted<V, C>(call: (C, V) -> Task<V, C>, acts: seq<Action<V, C>>, t: Task<V, C>)
    ensures Accounted(call, NewProcess(t), acts + [Spawn(t)], Spawns(acts))
  {
    var p := Spawns(acts);
    SpawnsAfter(acts, Spawn(t));
    NothingBeforeSpawn(acts, p);
    InputAfter(acts, Spawn(t), p);
    PlusNothing<V, C>(NoInput());
    DeadAfter(acts, Spawn(t), p);
    if Dead(acts, p) {
      DeadIsSpawned(acts, p);
    }
  }

  /** A process takes a turn. */
  lemma TurnAccounted<V, C>(call: (C, V) -> Task<V, C>, q: Process<V, C>, acts: seq<Action<V, C>>, p: Pid)
    requires Accounted(call, q, acts, p) && q.root.Some? && !TakeTurn(call, q).Bind?
    ensures Accounted(call, TakeTurn(call, q).process, acts, p)
  {
    TurnIsMachineStep(call, q);
    var q' := TakeTurn(call, q).process;
    if q.orderly && q'.turns != q.turns {
      OneMoreTurn(call, Config(SpawnTasks(acts)[p], [], InputTo(acts, p)), q.turns, ConfigOf(q));
    }
  }

  /** Changing one process that stays accounted for. */
  lemma ReplaceRecorded<V, C>(call: (C, V) -> Task<V, C>, s: State<V, C>, acts: seq<Action<V, C>>, p: Pid, q: Process<V, C>,
                              s': State<V, C>)
    requires Recorded(call, s, acts) && p in s.procs && Accounted(call, q, acts, p)
    requires s'.procs == s.procs[p := q] && s'.next == s.next
    ensures Recorded(call, s', acts)
  {
    forall x: Pid | x in s'.procs
      ensures Accounted(call, s'.procs[x], acts, x)
    {
      assert x != p ==> Accounted(call, s.procs[x], acts, x);
    }
  }

  lemma TurnRecorded<V, C>(call: (C, V) -> Task<V, C>, s: State<V, C>, acts: seq<Action<V, C>>, p: Pid, s': State<V, C>)
    requires Recorded(call, s, acts) && p in s.procs && s.procs[p].root.Some? && !TakeTurn(call, s.procs[p]).Bind?
    requires s'.procs == s.procs[p := TakeTurn(call, s.procs[p]).process] && s'.next == s.next
    ensures Recorded(call, s', acts)
  {
    assert Accounted(call, s.procs[p], acts, p);
    TurnAccounted(call, s.procs[p], acts, p);
    ReplaceRecorded(call, s, acts, p, TakeTurn(call, s.procs[p]).process, s');
  }

  /** One action throws exactly when it kills for the second time. */
  lemma ActRecorded<V, C>(call: (C, V) -> Task<V, C>, s: State<V, C>, acts: seq<Action<V, C>>, a: Action<V, C>)
    requires Recorded(call, s, acts) && !KilledTwice(acts)
    ensures Act(s, a).thrown <==> KilledTwice(acts + [a])
    ensures !Act(s, a).thrown ==> Recorded(call, Act(s, a).state, acts + [a])
  {
    KilledTwiceAfter(acts, a);
    if a.Kill? {
      if a.pid in s.procs {
        assert Accounted(call, s.procs[a.pid], acts, a.pid);
      } else if Dead(acts, a.pid) {
        DeadIsSpawned(acts, a.pid);
      }
    }
    var r := Act(s, a);
    if !r.thrown {
      SpawnsAfter(acts, a);
      forall p: Pid | p in r.state.procs
        ensures Accounted(call, r.state.procs[p], acts + [a], p)
      {
        if p in s.procs {
          assert Accounted(call, s.procs[p], acts, p);
          ActAccounted(call, s, acts, a, p);
        } else {
          SpawnAccounted(call, acts, a.task);
        }
      }
    }
  }

  lemma {:induction false} ActAllRecorded<V, C>(call: (C, V) -> Task<V, C>, s: State<V, C>, acts: seq<Action<V, C>>, script: seq<Action<V, C>>)
    requires Recorded(call, s, acts) && !KilledTwice(acts)
    ensures var r := ActAll(s, script);
            && (r.thrown <==> KilledTwice(acts + script)) && r.state.calls == s.calls
            && (!r.thrown ==> Recorded(call, r.state, acts + script))
    decreases |script|
  {
    if script == [] {
      assert acts + script == acts;
    } else {
      var (a, rest) := (script[0], script[1..]);
      assert acts + script == acts + [a] + rest;
      ActRecorded(call, s, acts, a);
      if Act(s, a).thrown {
        KilledTwiceMore(acts + [a], rest);
      } else {
        ActAllRecorded(call, Act(s, a).state, acts + [a], rest);
      }
    }
  }

  lemma {:induction false} ScriptsJoin<V, C>(env: Environment<V, C>, a: nat, b: nat, c: nat)
    requires a <= b <= c
    ensures Scripts(env, a, b) + Scripts(env, b, c) == Scripts(env, a, c)
    decreases c
  {
    if b < c {
      ScriptsJoin(env, a, b, c - 1);
      assert Scripts(env, a, b) + (Scripts(env, b, c - 1) + env(c - 1)) == Scripts(env, a, b) + Scripts(env, b, c - 1) + env(c - 1);
    } else {
      assert Scripts(env, a, b) + [] == Scripts(env, a, b);
    }
  }

  /** What a stretch of the scheduler's work has to do with the actions of the bindings it ran. */
  ghost predicate Follows<V, C>(call: (C, V) -> Task<V, C>, env: Environment<V, C>, s: State<V, C>, acts: seq<Action<V, C>>, r: Ran<V, C>) {
    var acts' := acts + Scripts(env, s.calls, r.state.calls);
    s.calls <= r.state.calls && (r.thrown <==> KilledTwice(acts')) && (!r.thrown ==> Recorded(call, r.state, acts'))
  }

  lemma BindingRecorded<V, C>(call: (C, V) -> Task<V, C>, env: Environment<V, C>, s: State<V, C>, acts: seq<Action<V, C>>, p: Pid)
    requires Recorded(call, s, acts) && !KilledTwice(acts) && p in s.procs
    ensures Follows(call, env, s, acts, RunBinding(env, s, p))
  {
    var s1 := WithProcess(s, p, s.procs[p].(started := true)).(calls := s.calls + 1);
    assert Accounted(call, s.procs[p], acts, p);
    ReplaceRecorded(call, s, acts, p, s.procs[p].(started := true), s1);
    ActAllRecorded(call, s1, acts, env(s.calls));
    assert Scripts(env, s.calls, s.calls + 1) == [] + env(s.calls) == env(s.calls);
  }

  lemma FollowsNothing<V, C>(call: (C, V) -> Task<V, C>, env: Environment<V, C>, s: State<V, C>, acts: seq<Action<V, C>>, s': State<V, C>)
    requires !KilledTwice(acts) && Recorded(call, s', acts) && s'.calls == s.calls
    ensures Follows(call, env, s, acts, Ran(s', false))
  {
    assert acts + Scripts(env, s.calls, s.calls) == acts;
  }

  lemma Joined<T>(a: seq<T>, b: seq<T>, c: seq<T>)
    ensures a + b + c == a + (b + c)
  {
  }

  lemma FollowsBoth<V, C>(call: (C, V) -> Task<V, C>, env: Environment<V, C>, s: State<V, C>, acts: seq<Action<V, C>>, s1: State<V, C>, acts1: seq<Action<V, C>>,
                          r: Ran<V, C>)
    requires s.calls <= s1.calls && acts1 == acts + Scripts(env, s.calls, s1.calls) && Follows(call, env, s1, acts1, r)
    ensures Follows(call, env, s, acts, r)
  {
    ScriptsJoin(env, s.calls, s1.calls, r.state.calls);
    Joined(acts, Scripts(env, s.calls, s1.calls), Scripts(env, s1.calls, r.state.calls));
  }

  lemma RestRecorded<V, C>(
    call: (C, V) -> Task<V, C>, env: Environment<V, C>, s: State<V, C>, acts: seq<Action<V, C>>, p: Pid, q: Process<V, C>)
    requires Recorded(call, s, acts) && !KilledTwice(acts) && p in s.procs && s.procs[p].root.Some?
    requires TakeTurn(call, s.procs[p]) == Break(q)
    ensures Follows(call, env, s, acts, Ran(WithProcess(s, p, q), false))
  {
    TurnRecorded(call, s, acts, p, WithProcess(s, p, q));
    FollowsNothing(call, env, s, acts, WithProcess(s, p, q));
  }

  lemma GoesOnRecorded<V, C>(
    call: (C, V) -> Task<V, C>, s: State<V, C>, acts: seq<Action<V, C>>, p: Pid, q: Process<V, C>)
    requires Recorded(call, s, acts) && p in s.procs && s.procs[p].root.Some? && TakeTurn(call, s.procs[p]) == Continue(q)
    ensures Recorded(call, Counted(s, p, q), acts) && q.root.Some?
  {
    TurnRecorded(call, s, acts, p, Counted(s, p, q));
  }

  lemma {:induction false} StepRecorded<V, C>(
    call: (C, V) -> Task<V, C>, env: Environment<V, C>, s: State<V, C>, acts: seq<Action<V, C>>, numSteps: nat, p: Pid,
    r: Stepped<V, C>)
    requires Recorded(call, s, acts) && !KilledTwice(acts) && p in s.procs && s.procs[p].root.Some?
    requires r == Step(call, env, s, numSteps, p)
    ensures Follows(call, env, s, acts, r.ran)
    decreases MAX_STEPS - numSteps
  {
    StepUnfolds(call, env, s, numSteps, p);
    if numSteps >= MAX_STEPS {
      FollowsNothing(call, env, s, acts, r.ran.state);
    } else {
      match TakeTurn(call, s.procs[p])
      case Continue(q) =>
        GoesOnRecorded(call, s, acts, p, q);
        StepRecorded(call, env, Counted(s, p, q), acts, numSteps + 1, p, r);
      case Break(q) =>
        RestRecorded(call, env, s, acts, p, q);
      case Bind =>
        BindingRecorded(call, env, s, acts, p);
    }
  }

  lemma {:induction false} WorkLoopRecorded<V, C>(
    call: (C, V) -> Task<V, C>, env: Environment<V, C>, s: State<V, C>, acts: seq<Action<V, C>>, numSteps: nat)
    requires Recorded(call, s, acts) && !KilledTwice(acts)
    ensures Follows(call, env, s, acts, WorkLoop(call, env, s, numSteps))
    decreases MAX_STEPS - numSteps, |s.queue|
  {
    if numSteps >= MAX_STEPS || s.queue == [] {
      FollowsNothing(call, env, s, acts, WorkLoop(call, env, s, numSteps).state);
    } else {
      var (p, s1) := (s.queue[0], s.(queue := s.queue[1..], head := s.head + 1));
      if p !in s1.procs || s1.procs[p].root.None? {
        WorkLoopRecorded(call, env, s1, acts, numSteps);
      } else {
        var stepped := Step(call, env, s1, numSteps, p);
        StepRecorded(call, env, s1, acts, numSteps, p, stepped);
        if !stepped.ran.thrown {
          var acts1 := acts + Scripts(env, s.calls, stepped.ran.state.calls);
          WorkLoopRecorded(call, env, stepped.ran.state, acts1, stepped.numSteps);
          FollowsBoth(call, env, s, acts, stepped.ran.state, acts1, WorkLoop(call, env, stepped.ran.state, stepped.numSteps));
        }
      }
    }
  }

  // ---------------------------------------------------------------- which runs stall

  /** Performed, with what follows from it, one event at a time. */
  lemma {:induction false} RunRecorded<V, C>(call: (C, V) -> Task<V, C>, env: Environment<V, C>, events: seq<Event<V, C>>)
    ensures var (r, acts) := (Run(call, env, Initial(), events), Performed(call, env, events));
            (r.thrown <==> KilledTwice(acts)) && (!r.thrown ==> Recorded(call, r.state, acts))
  {
    if events == [] {
      NothingPerformed(call);
    } else {
      var (front, e) := (events[..|events| - 1], events[|events| - 1]);
      var (before, acts) := (Run(call, env, Initial(), front), Performed(call, env, front));
      RunRecorded(call, env, front);
      var more := Performed(call, env, events)[|acts|..];
      assert Performed(call, env, events) == acts + more;
      if before.thrown {
        KilledTwiceMore(acts, more);
      } else {
        EventRecorded(call, env, before.state, acts, e);
      }
    }
  }

  lemma NothingPerformed<V, C>(call: (C, V) -> Task<V, C>)
    ensures !KilledTwice<V, C>([]) && Recorded(call, Initial<V, C>(), [])
  {
  }

  lemma EventRecorded<V, C>(call: (C, V) -> Task<V, C>, env: Environment<V, C>, s: State<V, C>, acts: seq<Action<V, C>>,
                            e: Event<V, C>)
    requires Recorded(call, s, acts) && !KilledTwice(acts)
    ensures var r := Happen(call, env, s, e);
            var more := match e
                        case Outside(a) => if a.Kill? then [] else [a]
                        case TimerFires => Scripts(env, s.calls, r.state.calls);
            (r.thrown <==> KilledTwice(acts + more)) && (!r.thrown ==> Recorded(call, r.state, acts + more))
  {
    assert acts + [] == acts;
    if e.Outside? {
      ActRecorded(call, s, acts, e.action);
    } else if Possible(s, e) {
      WorkLoopRecorded(call, env, s.(timers := s.timers - 1), acts, 0);
    } else {
      FollowsNothing(call, env, s, acts, s);
    }
  }

  /** In every run from the start: every process with something to do is queued, and exactly one timer is pending while
      `working` is set, if and only if no process was killed a second time without being resumed in between. The first
      such kill stalls the scheduler for good. */
  lemma LiveUnlessKilledTwice<V, C>(call: (C, V) -> Task<V, C>, env: Environment<V, C>, events: seq<Event<V, C>>)
    ensures var (r, acts) := (Run(call, env, Initial(), events), Performed(call, env, events));
            (Live(r.state) <==> !KilledTwice(acts)) && (Stalled(r.state) <==> KilledTwice(acts))
  {
    InitialIsLive<V, C>();
    LiveOrThrown(call, env, Initial(), events);
    RunRecorded(call, env, events);
  }

  /** In every such run: what a process has received, followed by its mailbox, is what was sent to it since it was
      spawned, in order. */
  lemma MessagesDelivered<V, C>(call: (C, V) -> Task<V, C>, env: Environment<V, C>, events: seq<Event<V, C>>, p: Pid)
    requires !KilledTwice(Performed(call, env, events)) && p < Spawns(Performed(call, env, events))
    ensures p in Run(call, env, Initial(), events).state.procs
    ensures var q := Run(call, env, Initial(), events).state.procs[p];
            q.received + q.mailbox == SentTo(Performed(call, env, events), p)
  {
    RunRecorded(call, env, events);
    assert Accounted(call, Run(call, env, Initial(), events).state.procs[p], Performed(call, env, events), p);
  }

  /** No process is killed by two of these actions. */
  ghost predicate KilledOnce<V, C>(acts: seq<Action<V, C>>) {
    forall i, j, p: Pid {:trigger Kills(acts[i], p), Kills(acts[j], p)} ::
      0 <= i < j < |acts| ==> !(Kills(acts[i], p) && Kills(acts[j], p))
  }

  /** If nobody is ever killed twice, no run stalls. */
  lemma LiveIfKilledOnce<V, C>(call: (C, V) -> Task<V, C>, env: Environment<V, C>, events: seq<Event<V, C>>)
    requires KilledOnce(Performed(call, env, events))
    ensures Live(Run(call, env, Initial(), events).state)
  {
    LiveUnlessKilledTwice(call, env, events);
  }

  // ---------------------------------------------------------------- a run that stalls

  /** A root that is a binding is run in the next turn. */
  lemma StepBinding<V, C>(call: (C, V) -> Task<V, C>, env: Environment<V, C>, s: State<V, C>, numSteps: nat, p: Pid)
    requires p in s.procs && s.procs[p].root.Some? && s.procs[p].root.value.NativeBinding? && numSteps < MAX_STEPS
    ensures Step(call, env, s, numSteps, p) == Stepped(RunBinding(env, s, p), numSteps + 1)
  {
  }

  /** The first turn of a process at work. */
  lemma StepOn<V, C>(call: (C, V) -> Task<V, C>, env: Environment<V, C>, s: State<V, C>, numSteps: nat, p: Pid, q: Process<V, C>)
    requires p in s.procs && s.procs[p].root.Some? && TakeTurn(call, s.procs[p]) == Continue(q) && numSteps < MAX_STEPS
    ensures q.root.Some? && Step(call, env, s, numSteps, p) == Step(call, env, Counted(s, p, q), numSteps + 1, p)
  {
    StepUnfolds(call, env, s, numSteps, p);
  }

  /** `Process.kill` kills and then goes on with its caller. */
  lemma KillAndGoOn(s: State<int, int>, x: Pid, p: Pid)
    requires p in s.procs && x in s.procs && p != x && s.procs[x].root.Some?
    ensures var r := ActAll(s, [Kill(x), Resume(p, Succeed(0))]);
            && !r.thrown && r.state.queue == s.queue + [p] && r.state.calls == s.calls
            && r.state.working && (s.working ==> r.state.timers == s.timers)
            && x in r.state.procs && r.state.procs[x].root.None?
            && p in r.state.procs && r.state.procs[p].root == Some(Succeed(0)) && r.state.procs[p].stack == s.procs[p].stack
  {
    var script: seq<Action<int, int>> := [Kill(x), Resume(p, Succeed(0))];
    assert script[1..] == [Resume(p, Succeed(0))] && script[1..][1..] == [];
    var s1 := Act(s, Kill(x)).state;
    assert ActAll(s, script) == ActAll(s1, script[1..]);
    assert ActAll(s1, script[1..]) == ActAll(Act(s1, script[1]).state, []);
  }

  /** The killer's first stretch: it enters the `andThen`, and its binding kills and resumes it. */
  lemma FirstKill(call: (int, int) -> Task<int, int>, env: Environment<int, int>, s: State<int, int>, k: int, b: int, x: Pid, p: Pid)
    requires p in s.procs && x in s.procs && p != x && s.procs[x].root.Some? && s.working
    requires s.procs[p].root == Some(AndThen(k, NativeBinding(b))) && s.procs[p].stack == []
    requires env(s.calls) == [Kill(x), Resume(p, Succeed(0))]
    ensures var r := Step(call, env, s, 0, p);
            && r.numSteps == 2 && !r.ran.thrown && r.ran.state.queue == s.queue + [p] && r.ran.state.calls == s.calls + 1
            && r.ran.state.working && r.ran.state.timers == s.timers
            && x in r.ran.state.procs && r.ran.state.procs[x].root.None?
            && p in r.ran.state.procs && r.ran.state.procs[p].root == Some(Succeed(0))
            && r.ran.state.procs[p].stack == [AndThenFrame(k)]
  {
    var q := Moved(s.procs[p], NativeBinding(b), [AndThenFrame(k)] + s.procs[p].stack);
    assert [AndThenFrame(k)] + [] == [AndThenFrame(k)];
    StepOn(call, env, s, 0, p, q);
    var s1 := Counted(s, p, q);
    StepBinding(call, env, s1, 1, p);
    KillAndGoOn(WithProcess(s1, p, q.(started := true)).(calls := s1.calls + 1), x, p);
  }

  /** The killer's second stretch: the callback gives another binding, and that one kills what is dead. */
  lemma SecondKill(call: (int, int) -> Task<int, int>, env: Environment<int, int>, s: State<int, int>, numSteps: nat, k: int,
                   x: Pid, p: Pid)
    requires p in s.procs && x in s.procs && p != x && s.procs[x].root.None? && numSteps + 1 < MAX_STEPS
    requires s.procs[p].root == Some(Succeed(0)) && s.procs[p].stack == [AndThenFrame(k)]
    requires call(k, 0).NativeBinding? && env(s.calls) == [Kill(x)]
    ensures var r := Step(call, env, s, numSteps, p).ran; r.thrown && r.state.working == s.working && r.state.timers == s.timers
  {
    var q := Moved(s.procs[p], call(k, 0), []);
    assert [AndThenFrame(k)][1..] == [];
    assert Unwind(s.procs[p].stack, Ok(0)) == [AndThenFrame(k)];
    StepOn(call, env, s, numSteps, p, q);
    StepBinding(call, env, Counted(s, p, q), numSteps + 1, p);
  }

  /** `Process.kill p |> Task.andThen (\_ -> Process.kill p)`, next to the process it kills: the scheduler stalls. */
  lemma KillingTwiceStalls(call: (int, int) -> Task<int, int>, env: Environment<int, int>, k: int, b: int)
    requires call(k, 0).NativeBinding?
    requires env(0) == [Kill(1), Resume(0, Succeed(0))] && env(1) == [Kill(1)]
    ensures var events := [Outside(Spawn(AndThen(k, NativeBinding(b)))), Outside(Spawn(Succeed(0))), TimerFires];
            Stalled(Run(call, env, Initial(), events).state) && KilledTwice(Performed(call, env, events))
  {
    var e0, e1 := Outside(Spawn(AndThen(k, NativeBinding(b)))), Outside(Spawn(Succeed(0)));
    var events := [e0, e1, TimerFires];
    var s1 := Act(Initial(), e0.action).state;
    var s2 := Act(s1, e1.action).state;
    assert events[..2] == [e0, e1] && [e0, e1][..1] == [e0] && [e0][..0] == [];
    assert Run(call, env, Initial(), [e0]) == Ran(s1, false);
    assert Run(call, env, Initial(), [e0, e1]) == Ran(s2, false);
    assert s2.queue == [0, 1] && s2.timers == 1 && s2.working;
    SpawnedThenStalled(call, env, s2, k, b);
    LiveUnlessKilledTwice(call, env, events);
  }

  lemma SpawnedThenStalled(call: (int, int) -> Task<int, int>, env: Environment<int, int>, s: State<int, int>, k: int, b: int)
    requires call(k, 0).NativeBinding?
    requires env(0) == [Kill(1), Resume(0, Succeed(0))] && env(1) == [Kill(1)]
    requires s.queue == [0, 1] && s.calls == 0 && s.working && s.timers == 1 && 0 in s.procs && 1 in s.procs
    requires s.procs[0].root == Some(AndThen(k, NativeBinding(b))) && s.procs[0].stack == [] && s.procs[1].root.Some?
    ensures Stalled(Work(call, env, s).state)
  {
    var s1 := s.(timers := 0, queue := [1], head := s.head + 1);
    assert [0, 1][1..] == [1];
    FirstKill(call, env, s1, k, b, 1, 0);
    var s2 := Step(call, env, s1, 0, 0).ran.state;
    assert Work(call, env, s) == WorkLoop(call, env, s2, 2);
    assert s2.queue == [1, 0];
    var s3 := s2.(queue := [0], head := s2.head + 1);
    assert WorkLoop(call, env, s2, 2) == WorkLoop(call, env, s3, 2);
    var s4 := s3.(queue := [], head := s3.head + 1);
    SecondKill(call, env, s4, 2, k, 1, 0);
    assert WorkLoop(call, env, s3, 2) == Step(call, env, s4, 2, 0).ran;
  }

  // ---------------------------------------------------------------- a run in which a binding is answered

  /** The first stretch of a process that is to wait for a binding: it comes to rest at the binding, which is started. */
  lemma Falls(call: (int, int) -> Task<int, int>, env: Environment<int, int>, s: State<int, int>, k: int, b: int)
    requires env(s.calls) == [] && s.queue == [0] && s.timers == 1 && 0 in s.procs
    requires s.procs[0] == NewProcess(AndThen(k, NativeBinding(b)))
    ensures var r := Work(call, env, s);
            && !r.thrown && 0 in r.state.procs && Waiting(r.state.procs[0]) && r.state.procs[0].orderly
            && r.state.procs[0].stack == [AndThenFrame(k)] && r.state.calls == s.calls + 1
  {
    var s0 := s.(timers := 0, queue := [], head := s.head + 1);
    var q := Moved(s.procs[0], NativeBinding(b), [AndThenFrame(k)] + []);
    assert [AndThenFrame(k)] + [] == [AndThenFrame(k)] && [0][1..] == [];
    StepOn(call, env, s0, 0, 0, q);
    var s1 := Counted(s0, 0, q);
    StepBinding(call, env, s1, 1, 0);
    var s2 := WithProcess(s1, 0, q.(started := true)).(calls := s1.calls + 1);
    assert RunBinding(env, s1, 0) == Ran(s2, false);
    assert Work(call, env, s) == WorkLoop(call, env, s2, 2);
    assert WorkLoop(call, env, s2, 2) == Ran(s2.(working := false), false);
  }

  /** A task like `Process.sleep`, answered from outside: the process is orderly and goes on above its stack. */
  lemma SleeperGoesOn(call: (int, int) -> Task<int, int>, env: Environment<int, int>, k: int, b: int, v: int)
    requires env(0) == []
    ensures var t: Task<int, int> := AndThen(k, NativeBinding(b));
            var s := Run(call, env, Initial(), [Outside(Spawn(t)), TimerFires, Outside(Resume(0, Succeed(v)))]).state;
            && 0 in s.procs && s.procs[0].orderly && 0 in s.queue
            && s.procs[0].root == Some(Succeed(v)) && s.procs[0].stack == [AndThenFrame(k)]
  {
    var t: Task<int, int> := AndThen(k, NativeBinding(b));
    var e0, e2 := Outside(Spawn(t)), Outside(Resume(0, Succeed(v)));
    var events := [e0, TimerFires, e2];
    var s1 := Act(Initial(), Spawn(t)).state;
    assert events[..2] == [e0, TimerFires] && [e0, TimerFires][..1] == [e0] && [e0][..0] == [];
    assert Run(call, env, Initial(), [e0]) == Ran(s1, false);
    Falls(call, env, s1, k, b);
    var s2 := Work(call, env, s1).state;
    assert Run(call, env, Initial(), [e0, TimerFires]) == Ran(s2, false);
  }

  // ---------------------------------------------------------------- what does not hold of bindings

  /** The state in which the binding of the only process in the queue is called. */
  function Called<V, C>(s: State<V, C>, p: Pid): State<V, C>
    requires p in s.procs && s.queue != [] && s.timers > 0
  {
    WithProcess(s, p, s.procs[p].(started := true)).(
      queue := s.queue[1..], head := s.head + 1, timers := s.timers - 1, calls := s.calls + 1)
  }

  /** A run of `work` with just one process in the queue, which is at a binding, started or not. */
  lemma WorkCalls<V, C>(call: (C, V) -> Task<V, C>, env: Environment<V, C>, s: State<V, C>, p: Pid, s': State<V, C>)
    requires s.queue == [p] && s.timers > 0 && p in s.procs && s.procs[p].root.Some? && s.procs[p].root.value.NativeBinding?
    requires ActAll(Called(s, p), env(s.calls)) == Ran(s', false) && s'.queue == []
    ensures Work(call, env, s) == Ran(s'.(working := false), false)
  {
    var s0 := s.(timers := s.timers - 1, queue := s.queue[1..], head := s.head + 1);
    assert s.queue[1..] == [];
    StepBinding(call, env, s0, 0, p);
    assert WithProcess(s0, p, s0.procs[p].(started := true)).(calls := s0.calls + 1) == Called(s, p);
    assert Work(call, env, s) == WorkLoop(call, env, s', 1);
  }

  /** A process that waits for its binding runs it again when a message comes. */
  lemma MessageRunsBindingAgain(call: (int, int) -> Task<int, int>, env: Environment<int, int>, b: int, m: int)
    requires env(0) == [] && env(1) == []
    ensures var events := [Outside(Spawn(NativeBinding(b))), TimerFires, Outside(Send(0, m)), TimerFires];
            Spawns(Performed(call, env, events)) == 1 && Run(call, env, Initial(), events).state.calls == 2
  {
    var (e0, e2) := (Outside(Spawn(NativeBinding(b))), Outside(Send(0, m)));
    var events := [e0, TimerFires, e2, TimerFires];
    assert events[..3] == [e0, TimerFires, e2] && [e0, TimerFires, e2][..2] == [e0, TimerFires];
    assert [e0, TimerFires][..1] == [e0] && [e0][..0] == [];
    var s1 := Act(Initial(), e0.action).state;
    assert Run(call, env, Initial(), [e0]) == Ran(s1, false);
    WorkCalls(call, env, s1, 0, Called(s1, 0));
    var s2 := Called(s1, 0).(working := false);
    assert Run(call, env, Initial(), [e0, TimerFires]) == Ran(s2, false);
    var s3 := Act(s2, e2.action).state;
    assert Run(call, env, Initial(), [e0, TimerFires, e2]) == Ran(s3, false);
    WorkCalls(call, env, s3, 0, Called(s3, 0));
    assert Run(call, env, Initial(), events) == Ran(Called(s3, 0).(working := false), false);
    RunRecorded(call, env, events);
  }

  /** A process that was killed goes on when its binding calls back. */
  lemma KilledGoesOn(s: State<int, int>, p: Pid, v: int)
    requires p in s.procs && s.procs[p].root.Some?
    ensures var r := ActAll(s, [Kill(p), Resume(p, Succeed(v))]);
            && !r.thrown && p in r.state.procs && r.state.procs[p].root == Some(Succeed(v))
            && r.state.procs[p].stack == s.procs[p].stack && p in r.state.queue && !r.state.procs[p].orderly
  {
    var (kill, resume) := (Kill(p), Resume(p, Succeed(v)));
    var script: seq<Action<int, int>> := [kill, resume];
    assert script[1..] == [resume] && script[1..][1..] == [];
    var s1 := Act(s, kill).state;
    assert ActAll(s, script) == ActAll(s1, [resume]);
    assert ActAll(s1, [resume]) == ActAll(Act(s1, resume).state, [resume][1..]);
  }
}
