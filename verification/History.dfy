/** The message history of the time-travel debugger: a snapshot of the model every 64 messages. */
module History {
  import opened Basics

  const MAX_SNAPSHOT_SIZE: int := 64

  /** A model, and the 64 messages that came after it, newest first. */
  datatype Snapshot<M, A> = Snapshot(model: M, messages: seq<A>)

  /** A model, and the messages since, newest first. */
  datatype RecentHistory<M, A> = RecentHistory(model: M, messages: seq<A>, numMessages: int)

  datatype History<M, A> = History(snapshots: seq<Snapshot<M, A>>, recent: RecentHistory<M, A>, numMessages: int)

  /** A search through messages: over, with the message found and the model after it, or with so many to go. */
  datatype GetResult<M, A> = Found(msg: A, model: M) | Stepping(togo: int, model: M)

  /** A line of the debugger's sidebar. */
  datatype Entry<A> = Entry(index: int, msg: A, selected: bool)

  // ---------------------------------------------------------------- operations

  function Empty<M, A>(model: M): History<M, A> {
    History([], RecentHistory(model, [], 0), 0)
  }

  function AddRecent<M, A>(msg: A, newModel: M, r: RecentHistory<M, A>)
    : (Option<Snapshot<M, A>>, RecentHistory<M, A>)
  {
    if r.numMessages == MAX_SNAPSHOT_SIZE
    then (Some(Snapshot(r.model, r.messages)), RecentHistory(newModel, [msg], 1))
    else (None, RecentHistory(r.model, [msg] + r.messages, r.numMessages + 1))
  }

  /** A message that arrived when the model was `model`. */
  function Add<M, A>(msg: A, model: M, h: History<M, A>): History<M, A> {
    var (snapshot, recent) := AddRecent(msg, model, h.recent);
    match snapshot
    case Some(s) => History(h.snapshots + [s], recent, h.numMessages + 1)
    case None => History(h.snapshots, recent, h.numMessages + 1)
  }

  function GetHelp<M, A>(update: (A, M) -> M, msg: A, r: GetResult<M, A>): GetResult<M, A> {
    match r
    case Found(_, _) => r
    case Stepping(n, model) =>
      if n == 0 then Found(msg, update(msg, model)) else Stepping(n - 1, update(msg, model))
  }

  /** `foldr` of `GetHelp`: the last message, which is the oldest, comes first. */
  function GetFold<M, A>(update: (A, M) -> M, r: GetResult<M, A>, messages: seq<A>): GetResult<M, A>
    decreases |messages|
  {
    if messages == [] then r
    else
      var last := |messages| - 1;
      GetFold(update, GetHelp(update, messages[last], r), messages[..last])
  }

  function Undone<M, A>(r: GetResult<M, A>): Outcome<(M, A)> {
    match r
    case Found(msg, model) => Done((model, msg))
    case Stepping(_, _) => Crash
  }

  /** Division and remainder of JavaScript, which truncate towards zero. */
  function Quotient(a: int): int {
    if a >= 0 then a / MAX_SNAPSHOT_SIZE else -(-a / MAX_SNAPSHOT_SIZE)
  }

  function Remainder(a: int): int {
    a - MAX_SNAPSHOT_SIZE * Quotient(a)
  }

  /** The model after the message with this index, and the message. */
  function Get<M, A>(update: (A, M) -> M, index: int, h: History<M, A>): Outcome<(M, A)> {
    var snapshotMax := h.numMessages - h.recent.numMessages;
    if index >= snapshotMax
    then Undone(GetFold(update, Stepping(index - snapshotMax, h.recent.model), h.recent.messages))
    else GetOld(update, Quotient(index), Remainder(index), h.snapshots)
  }

  function GetOld<M, A>(update: (A, M) -> M, k: int, n: int, snapshots: seq<Snapshot<M, A>>): Outcome<(M, A)> {
    if 0 <= k < |snapshots| then Undone(GetFold(update, Stepping(n, snapshots[k].model), snapshots[k].messages))
    else Crash
  }

  function InitialModel<M, A>(h: History<M, A>): M {
    if h.snapshots != [] then h.snapshots[0].model else h.recent.model
  }

  /** `foldl` of cons. */
  function ConsAll<A>(messages: seq<A>, onto: seq<A>): seq<A>
    decreases |messages|
  {
    if messages == [] then onto else ConsAll(messages[1..], [messages[0]] + onto)
  }

  /** `foldr` over the snapshots, the last one first. */
  function EncodeSnapshots<M, A>(snapshots: seq<Snapshot<M, A>>, onto: seq<A>): seq<A>
    decreases |snapshots|
  {
    if snapshots == [] then onto
    else
      var last := |snapshots| - 1;
      EncodeSnapshots(snapshots[..last], ConsAll(snapshots[last].messages, onto))
  }

  function Encode<M, A>(h: History<M, A>): seq<A> {
    EncodeSnapshots(h.snapshots, Reversed(h.recent.messages))
  }

  /** `foldl` of the decoder's `addMessage`. */
  function AddMessages<M, A>(update: (A, M) -> M, model: M, h: History<M, A>, messages: seq<A>): (M, History<M, A>)
    decreases |messages|
  {
    if messages == [] then (model, h)
    else AddMessages(update, update(messages[0], model), Add(messages[0], model, h), messages[1..])
  }

  function Decode<M, A>(update: (A, M) -> M, initialModel: M, messages: seq<A>): (M, History<M, A>) {
    AddMessages(update, initialModel, Empty(initialModel), messages)
  }

  /** `foldl` of `consMsg`: entries numbered downwards, put in front one by one. */
  function ConsEntries<A>(current: int, index: int, messages: seq<A>, onto: seq<Entry<A>>): seq<Entry<A>>
    decreases |messages|
  {
    if messages == [] then onto
    else ConsEntries(current, index - 1, messages[1..], [Entry(index, messages[0], current == index)] + onto)
  }

  /** `foldr` of `consSnapshot`. Each block of the sidebar is told the selected index only if it is in the block. */
  function ViewSnapshots<M, A>(current: int, high: int, snapshots: seq<Snapshot<M, A>>, onto: seq<Entry<A>>): seq<Entry<A>>
    decreases |snapshots|
  {
    if snapshots == [] then onto
    else
      var last := |snapshots| - 1;
      var low := high - MAX_SNAPSHOT_SIZE;
      var here := if low <= current < high then current else -1;
      ViewSnapshots(current, low, snapshots[..last], ConsEntries(here, high - 1, snapshots[last].messages, []) + onto)
  }

  function View<M, A>(paused: Option<int>, h: History<M, A>): seq<Entry<A>> {
    var current := if paused.Some? then paused.value else -1;
    ViewSnapshots(current, MAX_SNAPSHOT_SIZE * |h.snapshots|, h.snapshots,
                  ConsEntries(current, h.numMessages - 1, h.recent.messages, []))
  }

  // ---------------------------------------------------------------- the plain log

  function Reversed<A>(s: seq<A>): seq<A> {
    seq(|s|, i requires 0 <= i < |s| => s[|s| - 1 - i])
  }

  /** The model after all these messages. */
  function Replay<M, A>(update: (A, M) -> M, model: M, log: seq<A>): M
    decreases |log|
  {
    if log == [] then model
    else update(log[|log| - 1], Replay(update, model, log[..|log| - 1]))
  }

  /** How many full snapshots a log of this length has: the last 1 to 64 messages are kept as recent. */
  function Blocks(n: nat): nat {
    if n == 0 then 0 else (n - 1) / 64
  }

  function SnapshotOf<M, A>(update: (A, M) -> M, initial: M, log: seq<A>, i: nat): Snapshot<M, A>
    requires 64 * i + 64 <= |log|
  {
    Snapshot(Replay(update, initial, log[..64 * i]), Reversed(log[64 * i..64 * i + 64]))
  }

  /** The first `n` snapshots of a log, and what is recent after them. */
  function SnapshotsOf<M, A>(update: (A, M) -> M, initial: M, log: seq<A>, n: nat): seq<Snapshot<M, A>>
    requires 64 * n <= |log|
  {
    seq(n, i requires 0 <= i < n => SnapshotOf(update, initial, log, i))
  }

  function RecentOf<M, A>(update: (A, M) -> M, initial: M, log: seq<A>, n: nat): RecentHistory<M, A>
    requires 64 * n <= |log|
  {
    RecentHistory(Replay(update, initial, log[..64 * n]), Reversed(log[64 * n..]), |log| - 64 * n)
  }

  function HistoryCut<M, A>(update: (A, M) -> M, initial: M, log: seq<A>, n: nat): History<M, A>
    requires 64 * n <= |log|
  {
    History(SnapshotsOf(update, initial, log, n), RecentOf(update, initial, log, n), |log|)
  }

  /** What the history of a log has to be. */
  function HistoryOf<M, A>(update: (A, M) -> M, initial: M, log: seq<A>): History<M, A> {
    HistoryCut(update, initial, log, Blocks(|log|))
  }

  // ---------------------------------------------------------------- adding

  lemma SnapshotsStay<M, A>(update: (A, M) -> M, initial: M, log: seq<A>, msg: A, n: nat)
    requires 64 * n <= |log|
    ensures SnapshotsOf(update, initial, log + [msg], n) == SnapshotsOf(update, initial, log, n)
  {
    var log' := log + [msg];
    forall i | 0 <= i < n
      ensures SnapshotOf(update, initial, log, i) == SnapshotOf(update, initial, log', i)
    {
      assert log[..64 * i] == log'[..64 * i];
      assert log[64 * i..64 * i + 64] == log'[64 * i..64 * i + 64];
    }
  }

  lemma SnapshotCloses<M, A>(update: (A, M) -> M, initial: M, log: seq<A>, msg: A, n: nat)
    requires |log| == 64 * n + 64
    ensures Reversed(log[64 * n..]) == SnapshotOf(update, initial, log + [msg], n).messages
    ensures Replay(update, initial, log[..64 * n]) == SnapshotOf(update, initial, log + [msg], n).model
    ensures RecentOf(update, initial, log + [msg], n + 1) == RecentHistory(Replay(update, initial, log), [msg], 1)
  {
    var log' := log + [msg];
    assert log[..64 * n] == log'[..64 * n];
    assert log[64 * n..] == log'[64 * n..64 * n + 64];
    assert log'[..64 * (n + 1)] == log;
    assert log'[64 * (n + 1)..] == [msg] && Reversed([msg]) == [msg];
  }

  lemma RecentGrows<M, A>(update: (A, M) -> M, initial: M, log: seq<A>, msg: A, n: nat)
    requires 64 * n <= |log|
    ensures var r := RecentOf(update, initial, log, n);
            RecentOf(update, initial, log + [msg], n) == RecentHistory(r.model, [msg] + r.messages, r.numMessages + 1)
  {
    var log' := log + [msg];
    assert log[..64 * n] == log'[..64 * n];
    assert log'[64 * n..] == log[64 * n..] + [msg];
    assert Reversed(log[64 * n..] + [msg]) == [msg] + Reversed(log[64 * n..]);
  }

  /** The 65th recent message closes a snapshot; any other just joins the recent ones. */
  lemma AddRecentExtends<M, A>(update: (A, M) -> M, initial: M, log: seq<A>, msg: A, n: nat)
    requires 64 * n <= |log| <= 64 * n + 64
    ensures AddRecent(msg, Replay(update, initial, log), RecentOf(update, initial, log, n)) ==
            if |log| == 64 * n + 64
            then (Some(SnapshotOf(update, initial, log + [msg], n)), RecentOf(update, initial, log + [msg], n + 1))
            else (None, RecentOf(update, initial, log + [msg], n))
  {
    if |log| == 64 * n + 64 {
      SnapshotCloses(update, initial, log, msg, n);
    } else {
      RecentGrows(update, initial, log, msg, n);
    }
  }

  lemma BlocksGrow(n: nat)
    ensures 64 * Blocks(n) <= n <= 64 * Blocks(n) + 64
    ensures Blocks(n + 1) == if n == 64 * Blocks(n) + 64 then Blocks(n) + 1 else Blocks(n)
  {
  }

  lemma AddExtendsCut<M, A>(update: (A, M) -> M, initial: M, log: seq<A>, msg: A, n: nat)
    requires 64 * n <= |log| <= 64 * n + 64
    ensures Add(msg, Replay(update, initial, log), HistoryCut(update, initial, log, n))
         == HistoryCut(update, initial, log + [msg], if |log| == 64 * n + 64 then n + 1 else n)
  {
    AddRecentExtends(update, initial, log, msg, n);
    SnapshotsStay(update, initial, log, msg, n);
    if |log| == 64 * n + 64 {
      assert SnapshotsOf(update, initial, log + [msg], n + 1)
          == SnapshotsOf(update, initial, log + [msg], n) + [SnapshotOf(update, initial, log + [msg], n)];
    }
  }

  /** Whatever the log, adding one message gives the history of the longer log. */
  lemma AddExtends<M, A>(update: (A, M) -> M, initial: M, log: seq<A>, msg: A)
    ensures Add(msg, Replay(update, initial, log), HistoryOf(update, initial, log))
         == HistoryOf(update, initial, log + [msg])
  {
    BlocksGrow(|log|);
    AddExtendsCut(update, initial, log, msg, Blocks(|log|));
  }

  lemma {:induction false} AddMessagesExtends<M, A>(update: (A, M) -> M, initial: M, log: seq<A>, messages: seq<A>)
    ensures AddMessages(update, Replay(update, initial, log), HistoryOf(update, initial, log), messages)
         == (Replay(update, initial, log + messages), HistoryOf(update, initial, log + messages))
    decreases |messages|
  {
    if messages == [] {
      assert log + messages == log;
    } else {
      var m, log' := messages[0], log + [messages[0]];
      assert log' + messages[1..] == log + messages;
      assert log'[..|log|] == log;
      AddExtends(update, initial, log, m);
      assert Replay(update, initial, log') == update(m, Replay(update, initial, log));
      AddMessagesExtends(update, initial, log', messages[1..]);
    }
  }

  // ---------------------------------------------------------------- reading

  lemma {:induction false} ReplayJoin<M, A>(update: (A, M) -> M, model: M, xs: seq<A>, ys: seq<A>)
    ensures Replay(update, Replay(update, model, xs), ys) == Replay(update, model, xs + ys)
    decreases |ys|
  {
    if ys == [] {
      assert xs + ys == xs;
    } else {
      var last := |ys| - 1;
      ReplayJoin(update, model, xs, ys[..last]);
      assert (xs + ys)[..|xs| + last] == xs + ys[..last];
    }
  }

  /** Searching through messages finds the one so many places from the oldest, or none. */
  lemma {:induction false} GetFoldFinds<M, A>(update: (A, M) -> M, n: int, model: M, messages: seq<A>)
    ensures var r := GetFold(update, Stepping(n, model), Reversed(messages));
            if 0 <= n < |messages|
            then r == Found(messages[n], Replay(update, model, messages[..n + 1]))
            else r.Stepping?
    decreases |messages|
  {
    if messages != [] {
      var m, rest, rev := messages[0], messages[1..], Reversed(messages);
      assert rev[|rev| - 1] == m && rev[..|rev| - 1] == Reversed(rest);
      assert Replay(update, model, [m]) == update(m, model);
      if n == 0 {
        GetFoldFound(update, m, update(m, model), Reversed(rest));
        assert messages[..1] == [m];
      } else {
        GetFoldFinds(update, n - 1, update(m, model), rest);
        if 0 < n < |messages| {
          ReplayJoin(update, model, [m], rest[..n]);
          assert [m] + rest[..n] == messages[..n + 1];
        }
      }
    }
  }

  lemma {:induction false} GetFoldFound<M, A>(update: (A, M) -> M, msg: A, model: M, messages: seq<A>)
    ensures GetFold(update, Found(msg, model), messages) == Found(msg, model)
    decreases |messages|
  {
    if messages != [] {
      GetFoldFound(update, msg, model, messages[..|messages| - 1]);
    }
  }

  /** Which block an index falls into, and where in it. */
  lemma QuotientAndRemainder(index: int)
    ensures index == 64 * Quotient(index) + Remainder(index)
    ensures index >= 0 ==> 0 <= Quotient(index) && 0 <= Remainder(index) < 64
    ensures index < 0 ==> Quotient(index) <= 0 && Remainder(index) <= 0 && (Quotient(index) == 0 ==> Remainder(index) < 0)
  {
  }

  lemma GetOldReplays<M, A>(update: (A, M) -> M, initial: M, log: seq<A>, k: int, r: int, n: nat)
    requires 64 * n <= |log|
    ensures GetOld(update, k, r, SnapshotsOf(update, initial, log, n)) ==
            if 0 <= k < n && 0 <= r < 64
            then Done((Replay(update, initial, log[..64 * k + r + 1]), log[64 * k + r])) else Crash
  {
    if 0 <= k < n {
      GetInBlock(update, initial, log, 64 * k, 64 * k + 64, r);
      assert SnapshotsOf(update, initial, log, n)[k] == SnapshotOf(update, initial, log, k);
    }
  }

  lemma GetReplaysCut<M, A>(update: (A, M) -> M, initial: M, log: seq<A>, index: int, n: nat)
    requires 64 * n <= |log|
    ensures Get(update, index, HistoryCut(update, initial, log, n)) ==
            if 0 <= index < |log| then Done((Replay(update, initial, log[..index + 1]), log[index])) else Crash
  {
    if index >= 64 * n {
      GetInBlock(update, initial, log, 64 * n, |log|, index - 64 * n);
      assert log[64 * n..] == log[64 * n..|log|];
    } else {
      QuotientAndRemainder(index);
      GetOldReplays(update, initial, log, Quotient(index), Remainder(index), n);
    }
  }

  /** Reading the history is reading the log; it fails exactly for an index the log does not have. */
  lemma GetReplays<M, A>(update: (A, M) -> M, initial: M, log: seq<A>, index: int)
    ensures Get(update, index, HistoryOf(update, initial, log)) ==
            if 0 <= index < |log| then Done((Replay(update, initial, log[..index + 1]), log[index])) else Crash
  {
    BlocksGrow(|log|);
    GetReplaysCut(update, initial, log, index, Blocks(|log|));
  }

  lemma GetInBlock<M, A>(update: (A, M) -> M, initial: M, log: seq<A>, low: nat, high: nat, n: int)
    requires low <= high <= |log|
    ensures Undone(GetFold(update, Stepping(n, Replay(update, initial, log[..low])), Reversed(log[low..high]))) ==
            if 0 <= n < high - low
            then Done((Replay(update, initial, log[..low + n + 1]), log[low + n])) else Crash
  {
    GetFoldFinds(update, n, Replay(update, initial, log[..low]), log[low..high]);
    if 0 <= n < high - low {
      ReplayJoin(update, initial, log[..low], log[low..high][..n + 1]);
      assert log[..low] + log[low..high][..n + 1] == log[..low + n + 1];
    }
  }

  lemma InitialModelKept<M, A>(update: (A, M) -> M, initial: M, log: seq<A>)
    ensures InitialModel(HistoryOf(update, initial, log)) == initial
  {
    assert log[..0] == [];
  }

  // ---------------------------------------------------------------- export and import

  lemma {:induction false} ConsAllReverses<A>(messages: seq<A>, onto: seq<A>)
    ensures ConsAll(Reversed(messages), onto) == messages + onto
    decreases |messages|
  {
    if messages == [] {
      assert messages + onto == onto;
    } else {
      var last, rev := |messages| - 1, Reversed(messages);
      assert rev[0] == messages[last] && rev[1..] == Reversed(messages[..last]);
      ConsAllReverses(messages[..last], [messages[last]] + onto);
      assert messages[..last] + ([messages[last]] + onto) == messages + onto;
    }
  }

  lemma {:induction false} EncodeSnapshotsIsLog<M, A>(
    update: (A, M) -> M, initial: M, log: seq<A>, snapshots: seq<Snapshot<M, A>>)
    requires 64 * |snapshots| <= |log|
    requires forall i :: 0 <= i < |snapshots| ==> snapshots[i] == SnapshotOf(update, initial, log, i)
    ensures EncodeSnapshots(snapshots, log[64 * |snapshots|..]) == log
    decreases |snapshots|
  {
    if snapshots == [] {
      assert log[0..] == log;
    } else {
      var last := |snapshots| - 1;
      ConsAllReverses(log[64 * last..64 * last + 64], log[64 * |snapshots|..]);
      assert log[64 * last..64 * last + 64] + log[64 * |snapshots|..] == log[64 * last..];
      EncodeSnapshotsIsLog(update, initial, log, snapshots[..last]);
    }
  }

  /** The export is the log. */
  lemma EncodeIsLog<M, A>(update: (A, M) -> M, initial: M, log: seq<A>)
    ensures Encode(HistoryOf(update, initial, log)) == log
  {
    var h := HistoryOf(update, initial, log);
    EncodeSnapshotsIsLog(update, initial, log, h.snapshots);
    assert Reversed(Reversed(log[64 * |h.snapshots|..])) == log[64 * |h.snapshots|..];
  }

  /** Decoding a list of messages gives their history and the latest model. */
  lemma DecodeIsHistory<M, A>(update: (A, M) -> M, initial: M, log: seq<A>)
    ensures Decode(update, initial, log) == (Replay(update, initial, log), HistoryOf(update, initial, log))
  {
    AddMessagesExtends(update, initial, [], log);
    assert [] + log == log;
    assert HistoryOf(update, initial, []) == Empty<M, A>(initial) by {
      assert log[..0] == [] && Reversed<A>([]) == [];
    }
  }

  /** Import undoes export, for every history. */
  lemma DecodeUndoesEncode<M, A>(update: (A, M) -> M, initial: M, log: seq<A>)
    ensures var h := HistoryOf(update, initial, log);
            Decode(update, InitialModel(h), Encode(h)) == (Replay(update, initial, log), h)
  {
    EncodeIsLog(update, initial, log);
    InitialModelKept(update, initial, log);
    DecodeIsHistory(update, initial, log);
  }

  // ---------------------------------------------------------------- the sidebar

  /** The entries of a stretch of the log. */
  function Entries<A>(current: int, log: seq<A>, low: nat, high: nat): seq<Entry<A>>
    requires low <= high <= |log|
  {
    seq(high - low, i requires 0 <= i < high - low => Entry(low + i, log[low + i], current == low + i))
  }

  lemma EntriesJoin<A>(current: int, log: seq<A>, low: nat, mid: nat, high: nat, onto: seq<Entry<A>>)
    requires low <= mid <= high <= |log|
    ensures Entries(current, log, low, mid) + (Entries(current, log, mid, high) + onto)
         == Entries(current, log, low, high) + onto
  {
  }

  /** A block that is not told the selected index selects nothing, and would not have. */
  lemma EntriesHere<A>(current: int, log: seq<A>, low: nat, high: nat)
    requires low <= high <= |log|
    ensures Entries(if low <= current < high then current else -1, log, low, high) == Entries(current, log, low, high)
  {
  }

  lemma {:induction false} ConsEntriesAre<A>(current: int, log: seq<A>, low: nat, high: nat, onto: seq<Entry<A>>)
    requires low <= high <= |log|
    ensures ConsEntries(current, high - 1, Reversed(log[low..high]), onto) == Entries(current, log, low, high) + onto
    decreases high - low
  {
    if low == high {
      assert Entries(current, log, low, high) + onto == onto;
    } else {
      var rev, e := Reversed(log[low..high]), Entry(high - 1, log[high - 1], current == high - 1);
      assert rev[0] == log[high - 1] && rev[1..] == Reversed(log[low..high - 1]);
      ConsEntriesAre(current, log, low, high - 1, [e] + onto);
      assert Entries(current, log, low, high) == Entries(current, log, low, high - 1) + [e];
      assert Entries(current, log, low, high - 1) + ([e] + onto) == Entries(current, log, low, high) + onto;
    }
  }

  lemma {:induction false} ViewSnapshotsAre<M, A>(
    update: (A, M) -> M, initial: M, log: seq<A>, current: int, snapshots: seq<Snapshot<M, A>>, onto: seq<Entry<A>>)
    requires 64 * |snapshots| <= |log|
    requires forall i :: 0 <= i < |snapshots| ==> snapshots[i] == SnapshotOf(update, initial, log, i)
    ensures ViewSnapshots(current, 64 * |snapshots|, snapshots, onto) == Entries(current, log, 0, 64 * |snapshots|) + onto
    decreases |snapshots|
  {
    var high := 64 * |snapshots|;
    if snapshots == [] {
      assert Entries(current, log, 0, 0) + onto == onto;
    } else {
      var last, low := |snapshots| - 1, high - 64;
      var here := if low <= current < high then current else -1;
      ConsEntriesAre(here, log, low, high, []);
      EntriesHere(current, log, low, high);
      assert Entries(current, log, low, high) + [] == Entries(current, log, low, high);
      ViewSnapshotsAre(update, initial, log, current, snapshots[..last], Entries(current, log, low, high) + onto);
      EntriesJoin(current, log, 0, low, high, onto);
    }
  }

  lemma ViewIsEntries<M, A>(update: (A, M) -> M, initial: M, log: seq<A>, paused: Option<int>, n: nat)
    requires 64 * n <= |log|
    ensures View(paused, HistoryCut(update, initial, log, n))
         == Entries(if paused.Some? then paused.value else -1, log, 0, |log|)
  {
    var current, high := if paused.Some? then paused.value else -1, 64 * n;
    ConsEntriesAre(current, log, high, |log|, []);
    assert log[high..|log|] == log[high..];
    ViewSnapshotsAre(update, initial, log, current, SnapshotsOf(update, initial, log, n),
                     Entries(current, log, high, |log|) + []);
    EntriesJoin(current, log, 0, high, |log|, []);
    assert Entries(current, log, 0, |log|) + [] == Entries(current, log, 0, |log|);
  }

  /** The sidebar lists every message once, under its own index and in order, so that only real indices can be
      clicked; the selected line is the one paused at, wherever the snapshots are cut. */
  lemma ViewIsLog<M, A>(update: (A, M) -> M, initial: M, log: seq<A>, paused: Option<int>)
    ensures var v := View(paused, HistoryOf(update, initial, log));
            && |v| == |log|
            && forall i :: 0 <= i < |log| ==> v[i] == Entry(i, log[i], paused == Some(i))
  {
    BlocksGrow(|log|);
    ViewIsEntries(update, initial, log, paused, Blocks(|log|));
  }
}
