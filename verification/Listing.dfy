/** The list handler: one message that names every cast file and its labels. */
module Listing {
  import opened Basics
  import opened Text
  import opened Recording
  import opened Upload
  import opened Globbing

  // ---------------------------------------------------------------- names of files

  /** Where a character is last, or -1. */
  function LastIndex(s: string, c: char): (i: int)
    ensures -1 <= i < |s|
  {
    if s == [] then -1
    else if s[|s| - 1] == c then |s| - 1
    else LastIndex(s[..|s| - 1], c)
  }

  function Base(path: string): string {
    path[LastIndex(path, '/') + 1..]
  }

  /** A name without its extension. */
  function Stem(name: string): string {
    var dot := LastIndex(name, '.');
    if dot < 0 then name else name[..dot]
  }

  /** The session of a number; that it is no number is fatal. */
  function ParseHash(s: string): Outcome<Hash> {
    match ParseInt(s)
    case Some(n) => Done(n % 0x1_0000_0000)
    case None => Crash
  }

  /** The session a file belongs to. */
  function HashOf(file: string): Outcome<Hash> {
    ParseHash(Stem(Base(file)))
  }

  lemma {:induction false} LastIndexOf(a: string, c: char, b: string)
    requires c !in b
    ensures LastIndex(a + [c] + b, c) == |a|
    decreases |b|
  {
    var s := a + [c] + b;
    if b != [] {
      var front := b[..|b| - 1];
      assert s[..|s| - 1] == a + [c] + front;
      assert s[|s| - 1] == b[|b| - 1];
      LastIndexOf(a, c, front);
    }
  }

  lemma {:induction false} NotThere(s: string, c: char)
    requires c !in s
    ensures LastIndex(s, c) == -1
    decreases |s|
  {
    if s != [] {
      NotThere(s[..|s| - 1], c);
    }
  }

  /** The base of a file's path is its name. */
  lemma BaseOfPath(dataPath: string, name: string)
    requires '/' !in name
    ensures Base(Prefix(dataPath) + name) == name
  {
    PrefixEnds(dataPath);
    var p := Prefix(dataPath);
    if p == "" {
      assert p + name == name;
      NotThere(name, '/');
    } else {
      var dir :| p == dir + ['/'];
      LastIndexOf(dir, '/', name);
    }
  }

  lemma NameShape(h: Hash)
    ensures '/' !in CastName(h) && '/' !in LabelsName(h) && '\n' !in CastName(h) && Matches(CastName(h))
    ensures CastName(h) == Decimal(h) + ['.'] + "cast" && CastName(h) + ".labels" == LabelsName(h)
    ensures IsName(CastName(h)) && '0' <= CastName(h)[0] <= '9'
  {
    assert forall c :: c in Decimal(h) ==> '0' <= c <= '9';
    assert ".cast" + ".labels" == ".cast.labels";
    assert CastName(h)[|CastName(h)| - 5..] == ".cast";
  }

  lemma LabelsDoNotMatch(h: Hash)
    ensures !Matches(LabelsName(h))
  {
    var name := LabelsName(h);
    assert name[|name| - 5..][4] == 's' && ".cast"[4] == 't';
  }

  /** The path that a session's file is listed by. */
  function CastPath(dataPath: string, h: Hash): string {
    Prefix(dataPath) + CastName(h)
  }

  lemma ParsedHash(s: string, h: Hash)
    requires ParseDecimal(s) == Some(h)
    ensures ParseHash(s) == Done(h)
  {
    ParseUnsigned(s, h);
  }

  lemma StemOfName(h: Hash, name: string)
    requires name == Decimal(h) + ['.'] + "cast"
    ensures Stem(name) == Decimal(h)
  {
    assert '.' !in "cast";
    LastIndexOf(Decimal(h), '.', "cast");
  }

  /** The list handler reads a session's hash back from the path of its file. */
  lemma HashOfCastPath(dataPath: string, h: Hash)
    ensures HashOf(CastPath(dataPath, h)) == Done(h)
  {
    NameShape(h);
    BaseOfPath(dataPath, CastName(h));
    StemOfName(h, CastName(h));
    ParsedDecimal(h);
    ParsedHash(Decimal(h), h);
  }

  lemma LabelsBeside(dataPath: string, h: Hash)
    ensures Base(CastPath(dataPath, h) + ".labels") == LabelsName(h)
  {
    NameShape(h);
    assert CastPath(dataPath, h) + ".labels" == Prefix(dataPath) + LabelsName(h);
    BaseOfPath(dataPath, LabelsName(h));
  }

  // ---------------------------------------------------------------- the message

  type Cache = map<Hash, seq<string>>

  /** What one file adds to the message. */
  function Item(file: string, labels: seq<string>): string {
    file + "\n" + Terminated(labels, '.') + "\n"
  }

  /** A label file of the data directory. */
  function ScanFile(disk: Disk, path: string): Outcome<seq<string>> {
    if Base(path) in disk then Done(ScanLines(disk[Base(path)])) else Crash
  }

  /** The labels of a file, remembered or read, and what is remembered after that. */
  function Recall(disk: Disk, cache: Cache, file: string): Outcome<(seq<string>, Cache)> {
    var h :- HashOf(file);
    if h in cache then Done((cache[h], cache))
    else
      var lines :- ScanFile(disk, file + ".labels");
      Done((lines, if lines == [] then cache else cache[h := lines]))
  }

  /** The message about these files, and what is remembered after it. */
  function Told(disk: Disk, cache: Cache, files: seq<string>): Outcome<(string, Cache)> {
    if files == [] then Done(("", cache))
    else
      var last := |files| - 1;
      var before :- Told(disk, cache, files[..last]);
      var recalled :- Recall(disk, before.1, files[last]);
      Done((before.0 + Item(files[last], recalled.0), recalled.1))
  }

  lemma ToldGrows(disk: Disk, cache: Cache, files: seq<string>, i: nat)
    requires i < |files|
    ensures Told(disk, cache, files[..i + 1])
         == var before :- Told(disk, cache, files[..i]);
            var recalled :- Recall(disk, before.1, files[i]);
            Done((before.0 + Item(files[i], recalled.0), recalled.1))
  {
    assert files[..i + 1][..i] == files[..i];
  }

  lemma {:induction false} ToldCrashes(disk: Disk, cache: Cache, files: seq<string>, n: nat)
    requires n <= |files| && Told(disk, cache, files[..n]).Crash?
    ensures Told(disk, cache, files).Crash?
    decreases |files|
  {
    if n == |files| {
      assert files[..n] == files;
    } else {
      var front := files[..|files| - 1];
      assert front[..n] == files[..n];
      ToldCrashes(disk, cache, front, n);
    }
  }

  /** The list handler of one connection, with the labels it has read so far. */
  class Lister {
    const cfg: Config
    const storage: Storage
    var labels: Cache

    constructor (cfg: Config, storage: Storage)
      ensures this.cfg == cfg && this.storage == storage && labels == map[]
    {
      this.cfg, this.storage := cfg, storage;
      labels := map[];
    }

    /** One turn of the handler's loop, over the files there are. */
    method ListOnce() returns (message: Outcome<string>, ghost names: seq<string>)
      requires PatternFree(cfg.dataPath)
      modifies this
      ensures Found(storage.disk, names)
      ensures var r := Told(storage.disk, old(labels), PathsOf(cfg.dataPath, names));
              if message.Crash? then r.Crash? else r == Done((message.value, labels))
    {
      var files := Glob(cfg.dataPath, storage.disk);
      names :| Found(storage.disk, names) && files == PathsOf(cfg.dataPath, names);
      var text := "";
      for i := 0 to |files|
        invariant Told(storage.disk, old(labels), files[..i]) == Done((text, labels))
      {
        ToldGrows(storage.disk, old(labels), files, i);
        var r := ReadLabels(files[i]);
        if r.Crash? {
          ToldCrashes(storage.disk, old(labels), files, i + 1);
          return Crash, names;
        }
        var joined := JoinLabels(r.value, '.');
        text := text + (files[i] + "\n" + joined + "\n");
      }
      assert files[..|files|] == files;
      return Done(text), names;
    }

    /** The labels of a file, remembered or read. */
    method ReadLabels(file: string) returns (r: Outcome<seq<string>>)
      modifies this
      ensures if r.Crash? then Recall(storage.disk, old(labels), file).Crash?
              else Recall(storage.disk, old(labels), file) == Done((r.value, labels))
    {
      var hash := HashOf(file);
      if hash.Crash? {
        return Crash;
      }
      if hash.value in labels {
        return Done(labels[hash.value]);
      }
      var lines := ScanFile(storage.disk, file + ".labels");
      if lines.Done? && lines.value != [] {
        labels := labels[hash.value := lines.value];
      }
      return lines;
    }
  }

  // ---------------------------------------------------------------- remembering makes no difference

  /** What the handler remembers of a session's labels is what is on disk. */
  ghost predicate CacheAgrees(disk: Disk, cache: Cache) {
    forall h :: h in cache ==> LabelsName(h) in disk && cache[h] == ScanLines(disk[LabelsName(h)])
  }

  lemma RecallReads(dataPath: string, disk: Disk, cache: Cache, h: Hash)
    requires CacheAgrees(disk, cache)
    ensures var (r, lines) := (Recall(disk, cache, CastPath(dataPath, h)), LabelsName(h));
            if lines in disk then r.Done? && r.value.0 == ScanLines(disk[lines]) && CacheAgrees(disk, r.value.1) else r.Crash?
  {
    HashOfCastPath(dataPath, h);
    LabelsBeside(dataPath, h);
  }

  /** The paths of these sessions' files. */
  function Paths(dataPath: string, hs: seq<Hash>): seq<string> {
    seq(|hs|, i requires 0 <= i < |hs| => CastPath(dataPath, hs[i]))
  }

  /** The message about these sessions, should their labels be these. */
  function MessageOf(dataPath: string, hs: seq<Hash>, labels: seq<seq<string>>): string
    requires |labels| == |hs|
  {
    if hs == [] then ""
    else
      var last := |hs| - 1;
      MessageOf(dataPath, hs[..last], labels[..last]) + Item(CastPath(dataPath, hs[last]), labels[last])
  }

  lemma PathsGrow(dataPath: string, hs: seq<Hash>)
    requires hs != []
    ensures var last := |hs| - 1; Paths(dataPath, hs) == Paths(dataPath, hs[..last]) + [CastPath(dataPath, hs[last])]
  {
  }

  /** These are the labels on disk of a session. */
  ghost predicate LabelsAt(disk: Disk, h: Hash, labels: seq<string>) {
    LabelsName(h) in disk && labels == ScanLines(disk[LabelsName(h)])
  }

  ghost predicate LabelsAre(disk: Disk, hs: seq<Hash>, labels: seq<seq<string>>) {
    |labels| == |hs| && forall i {:trigger LabelsAt(disk, hs[i], labels[i])} :: 0 <= i < |hs| ==> LabelsAt(disk, hs[i], labels[i])
  }

  lemma LabelsAreFront(disk: Disk, hs: seq<Hash>, labels: seq<seq<string>>, last: nat)
    requires LabelsAre(disk, hs, labels) && |hs| == last + 1
    ensures LabelsAre(disk, hs[..last], labels[..last]) && LabelsAt(disk, hs[last], labels[last])
  {
    forall i | 0 <= i <= last
      ensures LabelsAt(disk, hs[i], labels[i])
    {
    }
  }

  lemma ToldOneMore(disk: Disk, cache: Cache, files: seq<string>, before: (string, Cache), file: string)
    requires files != [] && files[|files| - 1] == file && Recall(disk, before.1, file).Done?
    requires Told(disk, cache, files[..|files| - 1]) == Done(before)
    ensures var r := Recall(disk, before.1, file).value; Told(disk, cache, files) == Done((before.0 + Item(file, r.0), r.1))
  {
  }

  /** The message about some files is this, and what is remembered after it is right. */
  ghost predicate Tells(disk: Disk, cache: Cache, files: seq<string>, message: string) {
    var r := Told(disk, cache, files);
    r.Done? && r.value.0 == message && CacheAgrees(disk, r.value.1)
  }

  lemma TellsNext(dataPath: string, disk: Disk, cache: Cache, front: seq<string>, message: string, h: Hash,
                  labels: seq<string>, files: seq<string>, message': string)
    requires Tells(disk, cache, front, message) && LabelsAt(disk, h, labels)
    requires files == front + [CastPath(dataPath, h)] && message' == message + Item(CastPath(dataPath, h), labels)
    ensures Tells(disk, cache, files, message')
  {
    var before := Told(disk, cache, front).value;
    assert files[..|files| - 1] == front;
    RecallReads(dataPath, disk, before.1, h);
    ToldOneMore(disk, cache, files, before, CastPath(dataPath, h));
  }

  /** For files of the recorder, whatever is remembered: the message gives the labels on disk. */
  lemma {:induction false} ToldIsMessage(dataPath: string, disk: Disk, cache: Cache, hs: seq<Hash>, labels: seq<seq<string>>)
    requires CacheAgrees(disk, cache) && LabelsAre(disk, hs, labels)
    ensures Tells(disk, cache, Paths(dataPath, hs), MessageOf(dataPath, hs, labels))
    decreases |hs|
  {
    if hs != [] {
      var last := |hs| - 1;
      LabelsAreFront(disk, hs, labels, last);
      ToldIsMessage(dataPath, disk, cache, hs[..last], labels[..last]);
      PathsGrow(dataPath, hs);
      TellsNext(dataPath, disk, cache, Paths(dataPath, hs[..last]), MessageOf(dataPath, hs[..last], labels[..last]), hs[last],
                labels[last], Paths(dataPath, hs), MessageOf(dataPath, hs, labels));
    }
  }

  /** Label files are written once: no event of the recorder makes what a list handler remembers wrong. */
  lemma CacheStays(cfg: Config, s: State, e: Event, cache: Cache)
    requires CacheAgrees(s.disk, cache) && Step(cfg, s, e).Done?
    ensures CacheAgrees(Step(cfg, s, e).value.disk, cache)
  {
    if e.Arrive? {
      forall h | h in cache
        ensures LabelsName(h) in Step(cfg, s, e).value.disk
        ensures cache[h] == ScanLines(Step(cfg, s, e).value.disk[LabelsName(h)])
      {
        LabelFileStays(cfg, s.disk, ConnOf(s, e.conn), e.write, h);
      }
    }
  }

  lemma LabelFileStays(cfg: Config, disk: Disk, conn: Conn, w: TtyWrite, h: Hash)
    requires LabelsName(h) in disk && Receive(cfg, disk, conn, w).Done?
    ensures var r := Receive(cfg, disk, conn, w).value;
            LabelsName(h) in r.disk && r.disk[LabelsName(h)] == disk[LabelsName(h)]
  {
    NamesApart(Session(cfg, w), h);
    var (disk1, conn1) := OpenCast(cfg, WriteLabels(cfg, disk, w), conn, w);
    assert LabelsName(h) in disk1 && disk1[LabelsName(h)] == disk[LabelsName(h)];
  }

  // ---------------------------------------------------------------- against the recorder

  function CastNames(hs: seq<Hash>): seq<string> {
    seq(|hs|, i requires 0 <= i < |hs| => CastName(hs[i]))
  }

  /** The sessions that writes have come for, each once, in the order of their files' names. */
  ghost predicate Sessions(cfg: Config, events: seq<Event>, hs: seq<Hash>) {
    Ascending(CastNames(hs)) && forall h: Hash :: h in hs <==> Arrivals(cfg, events, h) != []
  }

  predicate NamesCast(name: string) {
    exists h: Hash :: name == CastName(h)
  }

  lemma {:induction false} NamedBy(names: seq<string>) returns (hs: seq<Hash>)
    requires forall n :: n in names ==> NamesCast(n)
    ensures names == CastNames(hs)
    decreases |names|
  {
    if names == [] {
      hs := [];
    } else {
      var last := names[|names| - 1];
      assert last in names && forall n :: n in names[..|names| - 1] ==> n in names;
      var front := NamedBy(names[..|names| - 1]);
      var h: Hash :| last == CastName(h);
      hs := front + [h];
    }
  }

  lemma OwnFile(cfg: Config, disk: Disk, events: seq<Event>, name: string)
    requires FilesOfSessions(cfg, disk, events)
    ensures name in disk && Matches(name) <==> exists h: Hash :: name == CastName(h) && Arrivals(cfg, events, h) != []
  {
    if name in disk && Matches(name) {
      var h: Hash :| BelongsTo(name, h) && Arrivals(cfg, events, h) != [];
      LabelsDoNotMatch(h);
    }
    if h: Hash :| name == CastName(h) && Arrivals(cfg, events, h) != [] {
      NameShape(h);
      assert BelongsTo(name, h);
    }
  }

  lemma InNames(hs: seq<Hash>, h: Hash)
    ensures h in hs <==> CastName(h) in CastNames(hs)
  {
    if h in hs {
      var i :| 0 <= i < |hs| && hs[i] == h;
      assert CastNames(hs)[i] == CastName(h);
    }
    if CastName(h) in CastNames(hs) {
      var i :| 0 <= i < |hs| && CastNames(hs)[i] == CastName(h);
      NamesApart(hs[i], h);
    }
  }

  /** What `Glob` finds after any run of the recorder: one file for each session that writes have come for, no label
      files, and nothing else. */
  lemma FoundAreSessions(cfg: Config, disk: Disk, events: seq<Event>, names: seq<string>) returns (hs: seq<Hash>)
    requires FilesOfSessions(cfg, disk, events) && Found(disk, names)
    ensures names == CastNames(hs) && Sessions(cfg, events, hs)
  {
    forall n
      ensures n in names <==> exists h: Hash :: n == CastName(h) && Arrivals(cfg, events, h) != []
    {
      OwnFile(cfg, disk, events, n);
    }
    hs := NamedBy(names);
    forall h: Hash
      ensures h in hs <==> Arrivals(cfg, events, h) != []
    {
      InNames(hs, h);
      NamesApartAll(h);
    }
  }

  lemma NamesApartAll(h: Hash)
    ensures forall k: Hash :: CastName(k) == CastName(h) ==> k == h
  {
    forall k: Hash | CastName(k) == CastName(h)
      ensures k == h
    {
      NamesApart(k, h);
    }
  }

  lemma PathsOfNames(dataPath: string, hs: seq<Hash>)
    ensures PathsOf(dataPath, CastNames(hs)) == Paths(dataPath, hs)
  {
    forall i | 0 <= i < |hs|
      ensures PathOf(dataPath, CastName(hs[i])) == CastPath(dataPath, hs[i])
    {
      NameShape(hs[i]);
      PathBehindPrefix(dataPath, CastName(hs[i]));
    }
  }

  lemma LabelsScanned(w: TtyWrite)
    ensures ScanLines(Terminated(Labels(w), '\n')) == Labels(w)
  {
    assert Free(Labels(w), '\n') && Free(Labels(w), '\r');
    ScanTerminated(Labels(w));
  }

  /** The labels of each session's first write. */
  function FirstLabels(cfg: Config, events: seq<Event>, hs: seq<Hash>): seq<seq<string>>
    requires forall i :: 0 <= i < |hs| ==> Arrivals(cfg, events, hs[i]) != []
  {
    seq(|hs|, i requires 0 <= i < |hs| => Labels(Arrivals(cfg, events, hs[i])[0]))
  }

  lemma FirstLabelsAre(cfg: Config, disk: Disk, events: seq<Event>, hs: seq<Hash>)
    requires Recorded(cfg, disk, events) && forall i :: 0 <= i < |hs| ==> Arrivals(cfg, events, hs[i]) != []
    ensures LabelsAre(disk, hs, FirstLabels(cfg, events, hs))
  {
    forall i | 0 <= i < |hs|
      ensures LabelsAt(disk, hs[i], FirstLabels(cfg, events, hs)[i])
    {
      var ws := Arrivals(cfg, events, hs[i]);
      assert SessionOnDisk(cfg, disk, hs[i], ws);
      LabelsScanned(ws[0]);
    }
  }

  lemma MessageOfSessions(cfg: Config, disk: Disk, events: seq<Event>, cache: Cache, hs: seq<Hash>)
    requires Recorded(cfg, disk, events) && CacheAgrees(disk, cache) && Sessions(cfg, events, hs)
    ensures Tells(disk, cache, Paths(cfg.dataPath, hs), MessageOf(cfg.dataPath, hs, FirstLabels(cfg, events, hs)))
  {
    FirstLabelsAre(cfg, disk, events, hs);
    ToldIsMessage(cfg.dataPath, disk, cache, hs, FirstLabels(cfg, events, hs));
  }

  /** On a disk that the recorder has kept, listing what is found never fails, whatever is remembered: the message
      names every session that writes have come for, once, with its first write's labels. */
  lemma MessageOfRecord(cfg: Config, disk: Disk, events: seq<Event>, cache: Cache, names: seq<string>) returns (hs: seq<Hash>)
    requires Recorded(cfg, disk, events) && FilesOfSessions(cfg, disk, events)
    requires CacheAgrees(disk, cache) && Found(disk, names)
    ensures Sessions(cfg, events, hs) && PathsOf(cfg.dataPath, names) == Paths(cfg.dataPath, hs)
    ensures Tells(disk, cache, PathsOf(cfg.dataPath, names), MessageOf(cfg.dataPath, hs, FirstLabels(cfg, events, hs)))
  {
    hs := FoundAreSessions(cfg, disk, events, names);
    PathsOfNames(cfg.dataPath, hs);
    MessageOfSessions(cfg, disk, events, cache, hs);
  }
}
