/** The time-travel debugger: a running or paused program over its history. */
module Debugger {
  import opened Basics
  import opened History

  datatype State<M> = Running(model: M) | Paused(index: int, indexModel: M, latest: M)

  datatype Model<M, A> = Model(history: History<M, A>, state: State<M>, isDebuggerOpen: bool)

  /** The debugger's messages. `Load` is an import that passed the overlay's assessment, none if its list of
      messages cannot be read. */
  datatype Msg<A> =
    | NoOp
    | UserMsg(msg: A)
    | Resume
    | Jump(index: int)
    | Open
    | Close
    | Up
    | Down
    | Load(messages: Option<seq<A>>)

  // ---------------------------------------------------------------- operations

  function Start<M, A>(initial: M): Model<M, A> {
    Model(Empty(initial), Running(initial), false)
  }

  function GetLatestModel<M>(state: State<M>): M {
    match state
    case Running(model) => model
    case Paused(_, _, latest) => latest
  }

  function UpdateUserMsg<M, A>(update: (A, M) -> M, msg: A, model: Model<M, A>): Model<M, A> {
    var userModel := GetLatestModel(model.state);
    var newHistory := Add(msg, userModel, model.history);
    var newUserModel := update(msg, userModel);
    match model.state
    case Running(_) => model.(history := newHistory, state := Running(newUserModel))
    case Paused(index, indexModel, _) =>
      model.(history := newHistory, state := Paused(index, indexModel, newUserModel))
  }

  function LoadNewHistory<M, A>(update: (A, M) -> M, raw: Option<seq<A>>, model: Model<M, A>): Model<M, A> {
    match raw
    case None => model
    case Some(messages) =>
      var (latest, history) := Decode(update, InitialModel(model.history), messages);
      model.(history := history, state := Running(latest))
  }

  function JumpTo<M, A>(update: (A, M) -> M, index: int, model: Model<M, A>): Outcome<Model<M, A>> {
    var found :- Get(update, index, model.history);
    Done(model.(state := Paused(index, found.0, GetLatestModel(model.state))))
  }

  function ResumeNow<M, A>(model: Model<M, A>): Model<M, A> {
    match model.state
    case Running(_) => model
    case Paused(_, _, latest) => model.(state := Running(latest))
  }

  /** What a message that is not a key press does. */
  function Settled<M, A>(update: (A, M) -> M, msg: Msg<A>, model: Model<M, A>): Outcome<Model<M, A>>
    requires !msg.Up? && !msg.Down?
  {
    match msg
    case NoOp => Done(model)
    case UserMsg(m) => Done(UpdateUserMsg(update, m, model))
    case Resume => Done(ResumeNow(model))
    case Jump(i) => JumpTo(update, i, model)
    case Open => Done(model.(isDebuggerOpen := true))
    case Close => Done(model.(isDebuggerOpen := false))
    case Load(raw) => Done(LoadNewHistory(update, raw, model))
  }

  /** What a key press stands for. */
  function Meaning<M, A>(msg: Msg<A>, model: Model<M, A>): (r: Msg<A>)
    ensures !r.Up? && !r.Down?
  {
    match msg
    case Up =>
      var index := if model.state.Paused? then model.state.index else model.history.numMessages;
      if index > 0 then Jump(index - 1) else NoOp
    case Down =>
      if model.state.Running? then NoOp
      else if model.state.index == model.history.numMessages - 1 then Resume
      else Jump(model.state.index + 1)
    case _ => msg
  }

  function Update<M, A>(update: (A, M) -> M, msg: Msg<A>, model: Model<M, A>): Outcome<Model<M, A>> {
    Settled(update, Meaning(msg, model), model)
  }

  /** `wrapUpdate`: a key press goes round the loop once more, as the message it stands for. */
  method WrapUpdate<M, A>(update: (A, M) -> M, message: Msg<A>, model: Model<M, A>) returns (r: Outcome<Model<M, A>>)
    ensures r == Update(update, message, model)
  {
    var msg := message;
    while true
      invariant Update(update, msg, model) == Update(update, message, model)
      decreases if msg.Up? || msg.Down? then 1 else 0
    {
      match msg
      case NoOp => return Done(model);
      case UserMsg(m) => return Done(UpdateUserMsg(update, m, model));
      case Resume =>
        if model.state.Running? {
          return Done(model);
        }
        return Done(model.(state := Running(model.state.latest)));
      case Jump(i) => return JumpTo(update, i, model);
      case Open => return Done(model.(isDebuggerOpen := true));
      case Close => return Done(model.(isDebuggerOpen := false));
      case Load(raw) => return Done(LoadNewHistory(update, raw, model));
      case Up =>
        var index := if model.state.Paused? then model.state.index else model.history.numMessages;
        if index <= 0 {
          return Done(model);
        }
        msg := Jump(index - 1);
      case Down =>
        if model.state.Running? {
          return Done(model);
        }
        if model.state.index == model.history.numMessages - 1 {
          msg := Resume;
        } else {
          msg := Jump(model.state.index + 1);
        }
    }
  }

  // ---------------------------------------------------------------- what the debugger stands for

  /** A session as its user sees it: the messages so far and the one paused at. There are no models in it. */
  datatype Session<A> = Session(log: seq<A>, at: Option<nat>, open: bool)

  predicate InLog<A>(s: Session<A>) {
    s.at.Some? ==> s.at.value < |s.log|
  }

  /** One step. Only a jump to an index that is not in the log fails. */
  function Step<A>(s: Session<A>, msg: Msg<A>): (r: Outcome<Session<A>>)
    requires InLog(s)
    ensures r.Done? ==> InLog(r.value)
    ensures r.Crash? <==> msg.Jump? && !(0 <= msg.index < |s.log|)
  {
    match msg
    case NoOp => Done(s)
    case UserMsg(m) => Done(s.(log := s.log + [m]))
    case Resume => Done(s.(at := None))
    case Jump(i) => if 0 <= i < |s.log| then Done(s.(at := Some(i))) else Crash
    case Open => Done(s.(open := true))
    case Close => Done(s.(open := false))
    case Up =>
      var i := if s.at.Some? then s.at.value else |s.log|;
      Done(if i == 0 then s else s.(at := Some(i - 1)))
    case Down =>
      Done(if s.at.None? then s else s.(at := if s.at.value + 1 == |s.log| then None else Some(s.at.value + 1)))
    case Load(raw) => Done(if raw.None? then s else Session(raw.value, None, s.open))
  }

  /** The debugger of a session: its history, the latest model, and the model at the message paused at. */
  function Shown<M, A>(update: (A, M) -> M, initial: M, s: Session<A>): Model<M, A>
    requires InLog(s)
  {
    var latest := Replay(update, initial, s.log);
    Model(HistoryOf(update, initial, s.log),
          if s.at.None? then Running(latest)
          else Paused(s.at.value, Replay(update, initial, s.log[..s.at.value + 1]), latest),
          s.open)
  }

  function ShownAfter<M, A>(update: (A, M) -> M, initial: M, s: Outcome<Session<A>>): Outcome<Model<M, A>>
    requires s.Done? ==> InLog(s.value)
  {
    if s.Crash? then Crash else Done(Shown(update, initial, s.value))
  }

  // ---------------------------------------------------------------- refinement

  lemma UserMsgRefines<M, A>(update: (A, M) -> M, initial: M, s: Session<A>, m: A)
    requires InLog(s)
    ensures UpdateUserMsg(update, m, Shown(update, initial, s)) == Shown(update, initial, s.(log := s.log + [m]))
  {
    var log' := s.log + [m];
    AddExtends(update, initial, s.log, m);
    assert log'[..|s.log|] == s.log;
    if s.at.Some? {
      assert log'[..s.at.value + 1] == s.log[..s.at.value + 1];
    }
  }

  lemma JumpRefines<M, A>(update: (A, M) -> M, initial: M, s: Session<A>, i: int)
    requires InLog(s)
    ensures JumpTo(update, i, Shown(update, initial, s)) == ShownAfter(update, initial, Step(s, Jump(i)))
  {
    GetReplays(update, initial, s.log, i);
  }

  lemma LoadRefines<M, A>(update: (A, M) -> M, initial: M, s: Session<A>, messages: seq<A>)
    requires InLog(s)
    ensures LoadNewHistory(update, Some(messages), Shown(update, initial, s))
         == Shown(update, initial, Session(messages, None, s.open))
  {
    InitialModelKept(update, initial, s.log);
    DecodeIsHistory(update, initial, messages);
  }

  lemma SettledRefines<M, A>(update: (A, M) -> M, initial: M, s: Session<A>, msg: Msg<A>)
    requires InLog(s) && !msg.Up? && !msg.Down?
    ensures Settled(update, msg, Shown(update, initial, s)) == ShownAfter(update, initial, Step(s, msg))
  {
    match msg
    case UserMsg(m) => UserMsgRefines(update, initial, s, m);
    case Jump(i) => JumpRefines(update, initial, s, i);
    case Load(raw) => if raw.Some? { LoadRefines(update, initial, s, raw.value); }
    case _ =>
  }

  /** A key press does to the session what the message it stands for does, and that message is never a bad jump. */
  lemma KeysMean<M, A>(update: (A, M) -> M, initial: M, s: Session<A>, msg: Msg<A>)
    requires InLog(s)
    ensures Step(s, Meaning(msg, Shown(update, initial, s))) == Step(s, msg)
  {
  }

  /** The debugger does what the session does. */
  lemma UpdateRefines<M, A>(update: (A, M) -> M, initial: M, s: Session<A>, msg: Msg<A>)
    requires InLog(s)
    ensures Update(update, msg, Shown(update, initial, s)) == ShownAfter(update, initial, Step(s, msg))
  {
    KeysMean(update, initial, s, msg);
    SettledRefines(update, initial, s, Meaning(msg, Shown(update, initial, s)));
  }

  // ---------------------------------------------------------------- whole runs

  /** The debugger after a run of messages, unless one of them crashed. */
  function Run<M, A>(update: (A, M) -> M, msgs: seq<Msg<A>>, model: Model<M, A>): Outcome<Model<M, A>>
    decreases |msgs|
  {
    if msgs == [] then Done(model)
    else
      var next :- Update(update, msgs[0], model);
      Run(update, msgs[1..], next)
  }

  function RunSession<A>(msgs: seq<Msg<A>>, s: Session<A>): (r: Outcome<Session<A>>)
    requires InLog(s)
    ensures r.Done? ==> InLog(r.value)
    decreases |msgs|
  {
    if msgs == [] then Done(s)
    else
      var next :- Step(s, msgs[0]);
      RunSession(msgs[1..], next)
  }

  lemma {:induction false} RunRefines<M, A>(update: (A, M) -> M, initial: M, msgs: seq<Msg<A>>, s: Session<A>)
    requires InLog(s)
    ensures Run(update, msgs, Shown(update, initial, s)) == ShownAfter(update, initial, RunSession(msgs, s))
    decreases |msgs|
  {
    if msgs != [] {
      UpdateRefines(update, initial, s, msgs[0]);
      var next := Step(s, msgs[0]);
      if next.Done? {
        RunRefines(update, initial, msgs[1..], next.value);
      }
    }
  }

  /** In every run, from the start of the program: the latest model is the fold of all messages, a paused debugger
      shows the replay up to its index, and the run crashes just when the session does. */
  lemma RunIsSession<M, A>(update: (A, M) -> M, initial: M, msgs: seq<Msg<A>>)
    ensures Run(update, msgs, Start(initial)) == ShownAfter(update, initial, RunSession(msgs, Session([], None, false)))
  {
    DecodeIsHistory(update, initial, []);
    RunRefines(update, initial, msgs, Session([], None, false));
  }

  /** No run without explicit jumps crashes: the keys never leave the log. */
  lemma {:induction false} KeysNeverCrash<A>(msgs: seq<Msg<A>>, s: Session<A>)
    requires InLog(s)
    requires forall i :: 0 <= i < |msgs| ==> !msgs[i].Jump?
    ensures RunSession(msgs, s).Done?
    decreases |msgs|
  {
    if msgs != [] {
      KeysNeverCrash(msgs[1..], Step(s, msgs[0]).value);
    }
  }

  /** Exporting at any time and importing what was exported leaves the program running on the same history. */
  lemma ExportImport<M, A>(update: (A, M) -> M, initial: M, s: Session<A>)
    requires InLog(s)
    ensures var model := Shown(update, initial, s);
            Update(update, Load(Some(Encode(model.history))), model) == Done(ResumeNow(model))
  {
    EncodeIsLog(update, initial, s.log);
    LoadRefines(update, initial, s, s.log);
  }
}
