/** The upload handler as it runs: a loop over a connection's writes that updates its maps and the files on disk. */
module Upload {
  import opened Basics
  import opened Text
  import opened Recording

  /** The files that all connections share. */
  class Storage {
    var disk: Disk

    constructor ()
      ensures disk == map[]
    {
      disk := map[];
    }
  }

  lemma {:induction false} TerminatedSnoc(parts: seq<string>, part: string, end: char)
    ensures Terminated(parts + [part], end) == Terminated(parts, end) + part + [end]
    decreases |parts|
  {
    if parts == [] {
      assert [part][1..] == [];
      assert parts + [part] == [part];
    } else {
      assert (parts + [part])[1..] == parts[1..] + [part];
      TerminatedSnoc(parts[1..], part, end);
    }
  }

  /** The loop that joins labels, each with an end after it. */
  method JoinLabels(labels: seq<string>, end: char) returns (text: string)
    ensures text == Terminated(labels, end)
  {
    text := "";
    for i := 0 to |labels|
      invariant text == Terminated(labels[..i], end)
    {
      TerminatedSnoc(labels[..i], labels[i], end);
      assert labels[..i] + [labels[i]] == labels[..i + 1];
      text := text + labels[i] + [end];
    }
    assert labels[..|labels|] == labels;
  }

  /** The loop that takes from the labels what is not plain. */
  method SanitizeAll(labels: array<string>)
    modifies labels
    ensures forall i :: 0 <= i < labels.Length ==> labels[i] == Sanitized(old(labels[i]))
  {
    for i := 0 to labels.Length
      invariant forall j :: 0 <= j < i ==> labels[j] == Sanitized(old(labels[j]))
      invariant forall j :: i <= j < labels.Length ==> labels[j] == old(labels[j])
    {
      labels[i] := Sanitized(labels[i]);
    }
  }

  class Connection {
    const cfg: Config
    const storage: Storage
    var files: map<Hash, Handle>
    var timestamps: map<Hash, nat>

    constructor (cfg: Config, storage: Storage)
      ensures this.cfg == cfg && this.storage == storage && View() == Conn(map[], map[])
    {
      this.cfg, this.storage := cfg, storage;
      files, timestamps := map[], map[];
    }

    ghost function View(): Conn
      reads this
    {
      Conn(files, timestamps)
    }

    method WriteLabelsFile(w: TtyWrite)
      modifies storage
      ensures storage.disk == WriteLabels(cfg, old(storage.disk), w)
    {
      var labels := new string[][w.podNamespace, w.podName, w.containerName, w.hostname];
      SanitizeAll(labels);
      var path := LabelsName(Session(cfg, w));
      if path !in storage.disk {
        var text := JoinLabels(labels[..], '\n');
        assert labels[..] == Labels(w);
        storage.disk := storage.disk[path := text];
      }
    }

    method OpenCastFile(w: TtyWrite)
      modifies this, storage
      ensures (storage.disk, View()) == OpenCast(cfg, old(storage.disk), old(View()), w)
    {
      var h := Session(cfg, w);
      var path := CastName(h);
      if h !in files {
        if path !in storage.disk {
          var created := Handle(false, 0);
          var header := HeaderText(Second(w));
          assert Written("", created, header) == header;
          storage.disk := storage.disk[path := Written("", created, header)];
          timestamps := timestamps[h := Second(w)];
          files := files[h := Advanced("", created, header)];
        } else {
          files := files[h := Handle(true, 0)];
        }
      }
    }

    method LearnTimestamp(h: Hash) returns (fatal: bool)
      modifies this
      ensures if fatal then LearnSecond(storage.disk, old(View()), h).Crash?
              else LearnSecond(storage.disk, old(View()), h) == Done(View())
    {
      if h in timestamps {
        return false;
      }
      var path := CastName(h);
      if path !in storage.disk {
        return true;
      }
      var header := ReadHeader(FirstLine(storage.disk[path]));
      if header.None? {
        return true;
      }
      timestamps := timestamps[h := header.value.timestamp];
      return false;
    }

    /** `asciinema.Append`. */
    method Append(w: TtyWrite) returns (alive: bool)
      requires Session(cfg, w) in files && Session(cfg, w) in timestamps && CastName(Session(cfg, w)) in storage.disk
      modifies this, storage
      ensures Served(storage.disk, View(), alive) == AppendEntry(cfg, old(storage.disk), old(View()), w)
    {
      if w.count > |w.buffer| {
        return false;
      }
      var h := Session(cfg, w);
      var path, file := CastName(h), files[h];
      var bytes := "\n" + EntryText(cfg, w, timestamps[h]);
      files := files[h := Advanced(storage.disk[path], file, bytes)];
      storage.disk := storage.disk[path := Written(storage.disk[path], file, bytes)];
      return true;
    }

    /** One turn of the loop, fatal to the whole server if the header of an existing file cannot be read. */
    method ReceiveWrite(w: TtyWrite) returns (fatal: bool, alive: bool)
      modifies this, storage
      ensures if fatal then Receive(cfg, old(storage.disk), old(View()), w).Crash?
              else Receive(cfg, old(storage.disk), old(View()), w) == Done(Served(storage.disk, View(), alive))
    {
      WriteLabelsFile(w);
      OpenCastFile(w);
      fatal := LearnTimestamp(Session(cfg, w));
      if fatal || CastName(Session(cfg, w)) !in storage.disk {
        return true, false;
      }
      alive := Append(w);
    }

    /** The loop of the handler, over what the connection sends until it ends, a panic, or a fatal error. */
    method HandleUpload(writes: seq<TtyWrite>) returns (fatal: bool, alive: bool)
      modifies this, storage
      ensures if fatal then ReceiveAll(cfg, old(storage.disk), old(View()), writes).Crash?
              else ReceiveAll(cfg, old(storage.disk), old(View()), writes) == Done(Served(storage.disk, View(), alive))
    {
      alive := true;
      for i := 0 to |writes|
        invariant ReceiveAll(cfg, old(storage.disk), old(View()), writes[..i]) == Done(Served(storage.disk, View(), true))
        invariant alive
      {
        assert writes[..i + 1][..i] == writes[..i];
        fatal, alive := ReceiveWrite(writes[i]);
        if fatal || !alive {
          StoppedStays(cfg, old(storage.disk), old(View()), writes, i + 1);
          return;
        }
      }
      assert writes[..|writes|] == writes;
      fatal := false;
    }
  }

  function ReceiveAll(cfg: Config, disk: Disk, conn: Conn, writes: seq<TtyWrite>): Outcome<Served> {
    if writes == [] then Done(Served(disk, conn, true))
    else
      var before :- ReceiveAll(cfg, disk, conn, writes[..|writes| - 1]);
      if !before.alive then Done(before) else Receive(cfg, before.disk, before.conn, writes[|writes| - 1])
  }

  lemma {:induction false} StoppedStays(cfg: Config, disk: Disk, conn: Conn, writes: seq<TtyWrite>, n: nat)
    requires n <= |writes|
    requires var r := ReceiveAll(cfg, disk, conn, writes[..n]); r.Crash? || !r.value.alive
    ensures ReceiveAll(cfg, disk, conn, writes) == ReceiveAll(cfg, disk, conn, writes[..n])
    decreases |writes|
  {
    if n == |writes| {
      assert writes[..n] == writes;
    } else {
      var front := writes[..|writes| - 1];
      assert front[..n] == writes[..n];
      StoppedStays(cfg, disk, conn, front, n);
    }
  }

  function ArriveAll(c: nat, writes: seq<TtyWrite>): seq<Event> {
    if writes == [] then [] else ArriveAll(c, writes[..|writes| - 1]) + [Arrive(c, writes[|writes| - 1])]
  }

  lemma RunOneMore(cfg: Config, s: State, events: seq<Event>, e: Event, s': State)
    requires Run(cfg, s, events) == Done(s')
    ensures Run(cfg, s, events + [e]) == Step(cfg, s', e)
  {
    assert (events + [e])[..|events|] == events;
  }

  lemma StepOfWrite(cfg: Config, s: State, conns: map<nat, Conn>, c: nat, w: TtyWrite, r: Served)
    requires Receive(cfg, s.disk, ConnOf(s, c), w) == Done(r) && r.alive
    requires s.conns == conns || s.conns == conns[c := ConnOf(s, c)]
    ensures Step(cfg, s, Arrive(c, w)) == Done(State(r.disk, conns[c := r.conn]))
  {
    assert s.conns[c := r.conn] == conns[c := r.conn];
  }

  /** The loop of one connection is a run of the whole server in which only that connection has something to say. */
  lemma {:induction false} UploadIsRun(cfg: Config, s: State, c: nat, writes: seq<TtyWrite>, r: Served)
    requires writes != [] && ReceiveAll(cfg, s.disk, ConnOf(s, c), writes) == Done(r) && r.alive
    ensures Run(cfg, s, ArriveAll(c, writes)) == Done(State(r.disk, s.conns[c := r.conn]))
    decreases |writes|
  {
    var (front, last) := (writes[..|writes| - 1], writes[|writes| - 1]);
    var before := ReceiveAll(cfg, s.disk, ConnOf(s, c), front).value;
    var s' := if front == [] then s else State(before.disk, s.conns[c := before.conn]);
    if front != [] {
      UploadIsRun(cfg, s, c, front, before);
    }
    RunOneMore(cfg, s, ArriveAll(c, front), Arrive(c, last), s');
    StepOfWrite(cfg, s', s.conns, c, last, r);
  }
}
