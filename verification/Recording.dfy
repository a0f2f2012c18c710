/** The recorder: terminal writes arrive over connections and become one cast file and one label file per session. */
module Recording {
  import opened Basics
  import opened Text
  import opened Json

  const NANOSECONDS: nat := 1_000_000_000

  type Hash = x: nat | x < 0x1_0000_0000

  type Uint64 = x: nat | x < 0x1_0000_0000_0000_0000

  /** What a connection sends. */
  datatype TtyWrite = TtyWrite(
    count: nat, buffer: string, timestamp: Uint64, inode: Uint64, mountNamespaceInum: Uint64,
    hostname: string, containerName: string, podName: string, podNamespace: string)

  /** Where the files are, the hash of a session's name, and how the encoder writes a number. */
  datatype Config = Config(dataPath: string, hash: string -> Hash, number: real -> string)

  /** The data directory: what is in its files, by their names. */
  type Disk = map<string, string>

  /** An open file. One that was opened to append writes at the end, one that was created at its own offset. */
  datatype Handle = Handle(append: bool, offset: nat)

  /** What a connection remembers: its open files, and the second at which each session's recording starts. */
  datatype Conn = Conn(files: map<Hash, Handle>, timestamps: map<Hash, nat>)

  /** The disk and the connection after a write; a panic ends the connection. */
  datatype Served = Served(disk: Disk, conn: Conn, alive: bool)

  /** The name of the terminal that a write comes from. */
  function TerminalName(w: TtyWrite): string {
    w.hostname + Decimal(w.inode) + Decimal(w.mountNamespaceInum)
  }

  function Session(cfg: Config, w: TtyWrite): Hash {
    cfg.hash(TerminalName(w))
  }

  function CastName(h: Hash): string {
    Decimal(h) + ".cast"
  }

  function LabelsName(h: Hash): string {
    Decimal(h) + ".cast.labels"
  }

  // ---------------------------------------------------------------- texts

  predicate Plain(c: char) {
    'a' <= c <= 'z' || 'A' <= c <= 'Z' || '0' <= c <= '9' || c == '-'
  }

  /** A label without the characters that are not plain. */
  function Sanitized(s: string): (r: string)
    ensures forall i :: 0 <= i < |r| ==> Plain(r[i])
    ensures forall c :: c in r <==> c in s && Plain(c)
  {
    if s == [] then []
    else if Plain(s[0]) then [s[0]] + Sanitized(s[1..])
    else Sanitized(s[1..])
  }

  function Labels(w: TtyWrite): seq<string> {
    [Sanitized(w.podNamespace), Sanitized(w.podName), Sanitized(w.containerName), Sanitized(w.hostname)]
  }

  /** The first line of a cast file. */
  datatype Header = Header(version: nat, width: nat, height: nat, timestamp: nat)

  function HeaderFields(h: Header): seq<Field> {
    [("version", h.version), ("width", h.width), ("height", h.height), ("timestamp", h.timestamp)]
  }

  /** The header of a recording that starts at this second. */
  function HeaderText(second: nat): string {
    ObjectText(HeaderFields(Header(2, 80, 32, second)))
  }

  /** `json.Unmarshal` into a header. */
  function ReadHeader(line: string): Option<Header> {
    match ReadObject(line)
    case None => None
    case Some(fields) =>
      Some(Header(Lookup(fields, "version"), Lookup(fields, "width"), Lookup(fields, "height"), Lookup(fields, "timestamp")))
  }

  function Second(w: TtyWrite): nat {
    w.timestamp / NANOSECONDS
  }

  function ReplaceChar(s: string, c: char, sub: string): string {
    if s == [] then [] else (if s[0] == c then sub else [s[0]]) + ReplaceChar(s[1..], c, sub)
  }

  /** Newlines become carriage return and newline, shift-outs become nulls. */
  function Translated(s: string): string {
    ReplaceChar(ReplaceChar(s, '\n', "\r\n"), '\U{000E}', "\0")
  }

  function EntryTime(w: TtyWrite, second: nat): real {
    w.timestamp as real / NANOSECONDS as real - second as real
  }

  function EntryText(cfg: Config, w: TtyWrite, second: nat): string
    requires w.count <= |w.buffer|
  {
    "[" + cfg.number(EntryTime(w, second)) + ",\"o\",\"" + Escape(Translated(w.buffer[..w.count])) + "\"]"
  }

  // ---------------------------------------------------------------- operations

  function Zeros(n: nat): string {
    seq(n, _ => '\0')
  }

  /** The content of a file after a write at an offset. */
  function WrittenAt(content: string, offset: nat, bytes: string): string {
    if offset > |content| then content + Zeros(offset - |content|) + bytes
    else if offset + |bytes| < |content| then content[..offset] + bytes + content[offset + |bytes|..]
    else content[..offset] + bytes
  }

  function Written(content: string, f: Handle, bytes: string): string {
    WrittenAt(content, if f.append then |content| else f.offset, bytes)
  }

  function Advanced(content: string, f: Handle, bytes: string): Handle {
    f.(offset := (if f.append then |content| else f.offset) + |bytes|)
  }

  /** The label file is written once. */
  function WriteLabels(cfg: Config, disk: Disk, w: TtyWrite): Disk {
    var path := LabelsName(Session(cfg, w));
    if path in disk then disk else disk[path := Terminated(Labels(w), '\n')]
  }

  /** The cast file is created with a header, or opened to append, unless the connection has it open. */
  function OpenCast(cfg: Config, disk: Disk, conn: Conn, w: TtyWrite): (Disk, Conn) {
    var h := Session(cfg, w);
    var path := CastName(h);
    if h in conn.files then (disk, conn)
    else if path in disk then (disk, conn.(files := conn.files[h := Handle(true, 0)]))
    else
      var header := HeaderText(Second(w));
      (disk[path := header],
       Conn(conn.files[h := Handle(false, |header|)], conn.timestamps[h := Second(w)]))
  }

  /** The start of the recording is read from the header, unless the connection knows it. Failing is fatal. */
  function LearnSecond(disk: Disk, conn: Conn, h: Hash): Outcome<Conn> {
    if h in conn.timestamps then Done(conn)
    else if CastName(h) !in disk then Crash
    else
      match ReadHeader(FirstLine(disk[CastName(h)]))
      case None => Crash
      case Some(header) => Done(conn.(timestamps := conn.timestamps[h := header.timestamp]))
  }

  /** Bytes are written to the open file of a session. */
  function AppendBytes(disk: Disk, conn: Conn, h: Hash, bytes: string): Served
    requires h in conn.files && CastName(h) in disk
  {
    var (path, f) := (CastName(h), conn.files[h]);
    Served(disk[path := Written(disk[path], f, bytes)],
           conn.(files := conn.files[h := Advanced(disk[path], f, bytes)]), true)
  }

  /** A write longer than its buffer panics, which ends the connection. */
  function AppendEntry(cfg: Config, disk: Disk, conn: Conn, w: TtyWrite): Served
    requires Session(cfg, w) in conn.files && Session(cfg, w) in conn.timestamps && CastName(Session(cfg, w)) in disk
  {
    var h := Session(cfg, w);
    if w.count > |w.buffer| then Served(disk, conn, false)
    else AppendBytes(disk, conn, h, "\n" + EntryText(cfg, w, conn.timestamps[h]))
  }

  /** One turn of the upload loop. */
  function Receive(cfg: Config, disk: Disk, conn: Conn, w: TtyWrite): Outcome<Served> {
    var (disk1, conn1) := OpenCast(cfg, WriteLabels(cfg, disk, w), conn, w);
    var h := Session(cfg, w);
    var conn2 :- LearnSecond(disk1, conn1, h);
    if CastName(h) !in disk1 then Crash
    else Done(AppendEntry(cfg, disk1, conn2, w))
  }

  // ---------------------------------------------------------------- what should be on disk

  function EntryLine(cfg: Config, w: TtyWrite, second: nat): string {
    if w.count > |w.buffer| then [] else "\n" + EntryText(cfg, w, second)
  }

  function EntryLines(cfg: Config, ws: seq<TtyWrite>, second: nat): string {
    if ws == [] then [] else EntryLines(cfg, ws[..|ws| - 1], second) + EntryLine(cfg, ws[|ws| - 1], second)
  }

  /** The cast file of a session, from the writes that came for it in the order in which they came. */
  function CastText(cfg: Config, ws: seq<TtyWrite>): string
    requires ws != []
  {
    HeaderText(Second(ws[0])) + EntryLines(cfg, ws, Second(ws[0]))
  }

  ghost predicate SessionOnDisk(cfg: Config, disk: Disk, h: Hash, ws: seq<TtyWrite>) {
    var (cast, labels) := (CastName(h), LabelsName(h));
    if ws == [] then cast !in disk && labels !in disk
    else cast in disk && labels in disk && disk[cast] == CastText(cfg, ws) && disk[labels] == Terminated(Labels(ws[0]), '\n')
  }

  /** What a connection remembers of a session is so. */
  ghost predicate Remembers(conn: Conn, h: Hash, ws: seq<TtyWrite>) {
    && (h in conn.timestamps ==> h in conn.files)
    && (h in conn.files ==> ws != [] && h in conn.timestamps && conn.timestamps[h] == Second(ws[0]))
  }

  /** Someone else has written to the file behind the connection's back. */
  predicate Stale(disk: Disk, conn: Conn, h: Hash) {
    && h in conn.files && CastName(h) in disk
    && !conn.files[h].append && conn.files[h].offset != |disk[CastName(h)]|
  }

  // ---------------------------------------------------------------- one write

  lemma NamesApart(h: Hash, k: Hash)
    ensures CastName(h) != LabelsName(k)
    ensures CastName(h) == CastName(k) ==> h == k
    ensures LabelsName(h) == LabelsName(k) ==> h == k
  {
    var (p, q) := (CastName(h), LabelsName(k));
    assert p[|p| - 1] == 't' && q[|q| - 1] == 's';
    if CastName(h) == CastName(k) {
      assert CastName(h)[..|CastName(h)| - 5] == Decimal(h);
      assert CastName(k)[..|CastName(k)| - 5] == Decimal(k);
      DecimalUnique(h, k);
    }
    if LabelsName(h) == LabelsName(k) {
      assert LabelsName(h)[..|LabelsName(h)| - 12] == Decimal(h);
      assert LabelsName(k)[..|LabelsName(k)| - 12] == Decimal(k);
      DecimalUnique(h, k);
    }
  }

  lemma LookedUp(fields: seq<Field>, f: Field, name: string)
    ensures Lookup(fields + [f], name) == if f.0 == name then f.1 else Lookup(fields, name)
  {
    assert (fields + [f])[..|fields|] == fields;
  }

  lemma FieldsLookedUp(h: Header)
    ensures var fields := HeaderFields(h);
            && Lookup(fields, "version") == h.version && Lookup(fields, "width") == h.width
            && Lookup(fields, "height") == h.height && Lookup(fields, "timestamp") == h.timestamp
  {
    var (a, b, c, d) := (("version", h.version), ("width", h.width), ("height", h.height), ("timestamp", h.timestamp));
    assert HeaderFields(h) == [] + [a] + [b] + [c] + [d];
    forall name
      ensures Lookup(HeaderFields(h), name) == if d.0 == name then d.1 else if c.0 == name then c.1
                                               else if b.0 == name then b.1 else if a.0 == name then a.1 else 0
    {
      LookedUp([], a, name);
      LookedUp([] + [a], b, name);
      LookedUp([] + [a] + [b], c, name);
      LookedUp([] + [a] + [b] + [c], d, name);
    }
  }

  lemma PlainHeader(h: Header)
    ensures PlainNames(HeaderFields(h))
  {
    assert PlainName("version");
    assert PlainName("width");
    assert PlainName("height");
    assert PlainName("timestamp");
  }

  /** The header is one line, and says version 2, 80 columns, 32 rows and the second. */
  lemma HeaderRead(second: nat)
    ensures ReadHeader(HeaderText(second)) == Some(Header(2, 80, 32, second))
    ensures '\n' !in HeaderText(second)
    ensures var line := HeaderText(second); line != [] && line[|line| - 1] == '}'
  {
    var h := Header(2, 80, 32, second);
    PlainHeader(h);
    ObjectRead(HeaderFields(h));
    FieldsLookedUp(h);
  }

  lemma {:induction false} EntryLinesStart(cfg: Config, ws: seq<TtyWrite>, second: nat)
    ensures EntryLines(cfg, ws, second) == [] || EntryLines(cfg, ws, second)[0] == '\n'
    decreases |ws|
  {
    if ws != [] {
      EntryLinesStart(cfg, ws[..|ws| - 1], second);
    }
  }

  /** The header read back from a cast file is that of the session's first write. */
  lemma CastHeader(cfg: Config, ws: seq<TtyWrite>)
    requires ws != []
    ensures ReadHeader(FirstLine(CastText(cfg, ws))) == Some(Header(2, 80, 32, Second(ws[0])))
  {
    var second := Second(ws[0]);
    HeaderRead(second);
    EntryLinesStart(cfg, ws, second);
    FirstLineOf(HeaderText(second), EntryLines(cfg, ws, second));
  }

  lemma EntryLinesGrow(cfg: Config, ws: seq<TtyWrite>, w: TtyWrite, second: nat)
    ensures EntryLines(cfg, ws + [w], second) == EntryLines(cfg, ws, second) + EntryLine(cfg, w, second)
  {
    assert (ws + [w])[..|ws|] == ws;
  }

  lemma CastTextGrows(cfg: Config, ws: seq<TtyWrite>, w: TtyWrite)
    requires ws != []
    ensures CastText(cfg, ws + [w]) == CastText(cfg, ws) + EntryLine(cfg, w, Second(ws[0]))
  {
    EntryLinesGrow(cfg, ws, w, Second(ws[0]));
  }

  /** A write adds its bytes at the end exactly when the handle appends or is where the file ends. */
  lemma WrittenAppendsIff(content: string, f: Handle, bytes: string)
    requires bytes != []
    ensures Written(content, f, bytes) == content + bytes <==> f.append || f.offset == |content|
    ensures Advanced(content, f, bytes).append == f.append
    ensures f.offset == |content| ==> Advanced(content, f, bytes).offset == |content + bytes|
  {
    if f.append || f.offset == |content| {
      assert content[..|content|] == content;
    } else if f.offset > |content| {
      assert |Written(content, f, bytes)| > |content + bytes|;
    } else {
      assert |Written(content, f, bytes)| < |content + bytes|;
    }
  }

  /** The bytes of a write are where the handle was, which is then behind them; what else there was stays, and a gap is
      filled with nulls. */
  lemma WrittenExactly(content: string, f: Handle, bytes: string)
    ensures var (start, end) := (if f.append then |content| else f.offset, Advanced(content, f, bytes).offset);
            var r := Written(content, f, bytes);
            && end == start + |bytes| && Advanced(content, f, bytes).append == f.append
            && |r| == (if end > |content| then end else |content|)
            && r[start..end] == bytes
            && forall i :: 0 <= i < |r| && !(start <= i < end) ==> r[i] == if i < |content| then content[i] else '\0'
  {
  }

  /** The first write of a session, once this one has come. */
  function First(ws: seq<TtyWrite>, w: TtyWrite): (r: TtyWrite)
    ensures r == (ws + [w])[0]
  {
    if ws == [] then w else ws[0]
  }

  /** After the file is open and the start is known, the session is as it should be but for the entry. */
  ghost predicate Ready(cfg: Config, disk: Disk, conn: Conn, w: TtyWrite, ws: seq<TtyWrite>) {
    var h := Session(cfg, w);
    && CastName(h) in disk && LabelsName(h) in disk
    && disk[CastName(h)] == (if ws == [] then HeaderText(Second(w)) else CastText(cfg, ws))
    && disk[LabelsName(h)] == Terminated(Labels(First(ws, w)), '\n')
    && h in conn.files && h in conn.timestamps && conn.timestamps[h] == Second(First(ws, w))
  }

  lemma Opened(cfg: Config, disk: Disk, conn: Conn, w: TtyWrite, ws: seq<TtyWrite>)
    requires SessionOnDisk(cfg, disk, Session(cfg, w), ws) && Remembers(conn, Session(cfg, w), ws)
    ensures var (disk1, conn1) := OpenCast(cfg, WriteLabels(cfg, disk, w), conn, w);
            var r := LearnSecond(disk1, conn1, Session(cfg, w));
            && r.Done? && Ready(cfg, disk1, r.value, w, ws)
            && (Stale(disk1, r.value, Session(cfg, w)) <==> Stale(disk, conn, Session(cfg, w)))
  {
    var h := Session(cfg, w);
    NamesApart(h, h);
    if ws != [] {
      CastHeader(cfg, ws);
    }
  }

  /** What the file should be after this write, from what it is before. */
  lemma EntryAdded(cfg: Config, content: string, w: TtyWrite, ws: seq<TtyWrite>)
    requires content == (if ws == [] then HeaderText(Second(w)) else CastText(cfg, ws))
    ensures CastText(cfg, ws + [w]) == content + EntryLine(cfg, w, Second(First(ws, w)))
  {
    if ws == [] {
      EntryLinesGrow(cfg, [], w, Second(w));
    } else {
      CastTextGrows(cfg, ws, w);
    }
  }

  /** Bytes are added at the end of the session's file unless the handle is stale; a handle that is not stays so. */
  lemma BytesAppended(cfg: Config, disk: Disk, conn: Conn, h: Hash, bytes: string, r: Served)
    requires h in conn.files && CastName(h) in disk && bytes != []
    requires r == AppendBytes(disk, conn, h, bytes)
    ensures r.disk.Keys == disk.Keys && r.conn.files.Keys == conn.files.Keys && r.conn.timestamps == conn.timestamps
    ensures forall p :: p in disk && p != CastName(h) ==> r.disk[p] == disk[p]
    ensures r.disk[CastName(h)] == disk[CastName(h)] + bytes <==> !Stale(disk, conn, h)
    ensures !Stale(disk, conn, h) ==> !Stale(r.disk, r.conn, h)
  {
    WrittenAppendsIff(disk[CastName(h)], conn.files[h], bytes);
  }

  lemma Appended(cfg: Config, disk: Disk, conn: Conn, w: TtyWrite, ws: seq<TtyWrite>, r: Served)
    requires Ready(cfg, disk, conn, w, ws) && r == AppendEntry(cfg, disk, conn, w)
    ensures Remembers(r.conn, Session(cfg, w), ws + [w])
    ensures r.alive == (w.count <= |w.buffer|)
    ensures SessionOnDisk(cfg, r.disk, Session(cfg, w), ws + [w]) <==> !(Stale(disk, conn, Session(cfg, w)) && r.alive)
    ensures r.alive && !Stale(disk, conn, Session(cfg, w)) ==> !Stale(r.disk, r.conn, Session(cfg, w))
  {
    var h := Session(cfg, w);
    NamesApart(h, h);
    EntryAdded(cfg, disk[CastName(h)], w, ws);
    if w.count <= |w.buffer| {
      BytesAppended(cfg, disk, conn, h, EntryLine(cfg, w, Second(First(ws, w))), r);
    }
  }

  /** One write of a session: the record is right again, unless the handle was stale and an entry was written. */
  lemma ReceiveRecords(cfg: Config, disk: Disk, conn: Conn, w: TtyWrite, ws: seq<TtyWrite>)
    requires SessionOnDisk(cfg, disk, Session(cfg, w), ws) && Remembers(conn, Session(cfg, w), ws)
    ensures var (h, r) := (Session(cfg, w), Receive(cfg, disk, conn, w));
            && r.Done? && Remembers(r.value.conn, h, ws + [w])
            && r.value.alive == (w.count <= |w.buffer|)
            && (SessionOnDisk(cfg, r.value.disk, h, ws + [w]) <==> !(Stale(disk, conn, h) && r.value.alive))
            && (r.value.alive && !Stale(disk, conn, h) ==> !Stale(r.value.disk, r.value.conn, h))
  {
    var h := Session(cfg, w);
    Opened(cfg, disk, conn, w, ws);
    var (disk1, conn1) := OpenCast(cfg, WriteLabels(cfg, disk, w), conn, w);
    Appended(cfg, disk1, LearnSecond(disk1, conn1, h).value, w, ws, Receive(cfg, disk, conn, w).value);
  }

  /** Nothing of this session has changed, on disk or in memory. */
  ghost predicate Untouched(disk: Disk, conn: Conn, disk': Disk, conn': Conn, k: Hash) {
    var (c, l) := (CastName(k), LabelsName(k));
    && (c in disk' <==> c in disk) && (c in disk ==> disk'[c] == disk[c])
    && (l in disk' <==> l in disk) && (l in disk ==> disk'[l] == disk[l])
    && (k in conn'.files <==> k in conn.files) && (k in conn.files ==> conn'.files[k] == conn.files[k])
    && (k in conn'.timestamps <==> k in conn.timestamps)
    && (k in conn.timestamps ==> conn'.timestamps[k] == conn.timestamps[k])
  }

  lemma OpenFrame(cfg: Config, disk: Disk, conn: Conn, w: TtyWrite, k: Hash)
    requires k != Session(cfg, w)
    ensures var (disk1, conn1) := OpenCast(cfg, WriteLabels(cfg, disk, w), conn, w);
            Untouched(disk, conn, disk1, conn1, k)
  {
    NamesApart(Session(cfg, w), k);
    NamesApart(k, Session(cfg, w));
  }

  lemma AppendFrame(cfg: Config, disk: Disk, conn: Conn, w: TtyWrite, k: Hash)
    requires Session(cfg, w) in conn.files && Session(cfg, w) in conn.timestamps && CastName(Session(cfg, w)) in disk
    requires k != Session(cfg, w)
    ensures var r := AppendEntry(cfg, disk, conn, w); Untouched(disk, conn, r.disk, r.conn, k)
  {
    NamesApart(Session(cfg, w), k);
  }

  /** A write touches nothing of any other session. */
  lemma ReceiveFrame(cfg: Config, disk: Disk, conn: Conn, w: TtyWrite, k: Hash)
    requires Receive(cfg, disk, conn, w).Done? && k != Session(cfg, w)
    ensures var r := Receive(cfg, disk, conn, w).value; Untouched(disk, conn, r.disk, r.conn, k)
  {
    OpenFrame(cfg, disk, conn, w, k);
    var (disk1, conn1) := OpenCast(cfg, WriteLabels(cfg, disk, w), conn, w);
    AppendFrame(cfg, disk1, LearnSecond(disk1, conn1, Session(cfg, w)).value, w, k);
  }

  // ---------------------------------------------------------------- whole runs

  /** A write arrives on a connection (a new one, if nothing is known of it), or a connection closes. */
  datatype Event = Arrive(conn: nat, write: TtyWrite) | Close(conn: nat)

  datatype State = State(disk: Disk, conns: map<nat, Conn>)

  function ConnOf(s: State, c: nat): Conn {
    if c in s.conns then s.conns[c] else Conn(map[], map[])
  }

  function Step(cfg: Config, s: State, e: Event): Outcome<State> {
    match e
    case Close(c) => Done(s.(conns := s.conns - {c}))
    case Arrive(c, w) =>
      var served :- Receive(cfg, s.disk, ConnOf(s, c), w);
      Done(State(served.disk, if served.alive then s.conns[c := served.conn] else s.conns - {c}))
  }

  function Run(cfg: Config, s: State, events: seq<Event>): Outcome<State> {
    if events == [] then Done(s)
    else
      var before :- Run(cfg, s, events[..|events| - 1]);
      Step(cfg, before, events[|events| - 1])
  }

  /** The writes that came for a session, in order of arrival, over whatever connections. */
  function Arrivals(cfg: Config, events: seq<Event>, h: Hash): seq<TtyWrite> {
    if events == [] then []
    else
      var (before, e) := (Arrivals(cfg, events[..|events| - 1], h), events[|events| - 1]);
      if e.Arrive? && Session(cfg, e.write) == h then before + [e.write] else before
  }

  /** Every session's files are what its writes should give. */
  ghost predicate Recorded(cfg: Config, disk: Disk, events: seq<Event>) {
    forall h: Hash :: SessionOnDisk(cfg, disk, h, Arrivals(cfg, events, h))
  }

  ghost predicate AllRemember(cfg: Config, s: State, events: seq<Event>) {
    forall c, h: Hash {:trigger Remembers(s.conns[c], h, Arrivals(cfg, events, h))} ::
      c in s.conns ==> Remembers(s.conns[c], h, Arrivals(cfg, events, h))
  }

  /** An entry is about to be written through a stale handle. */
  predicate Overwrites(cfg: Config, s: State, e: Event) {
    e.Arrive? && e.write.count <= |e.write.buffer| && Stale(s.disk, ConnOf(s, e.conn), Session(cfg, e.write))
  }

  lemma ArrivalsAfter(cfg: Config, events: seq<Event>, c: nat, w: TtyWrite, k: Hash)
    ensures Arrivals(cfg, events + [Arrive(c, w)], k)
         == Arrivals(cfg, events, k) + if k == Session(cfg, w) then [w] else []
  {
    assert (events + [Arrive(c, w)])[..|events|] == events;
  }

  /** A write, as seen by its session's files. */
  lemma ArriveOwn(cfg: Config, s: State, events: seq<Event>, c: nat, w: TtyWrite, r: Served)
    requires Recorded(cfg, s.disk, events) && Remembers(ConnOf(s, c), Session(cfg, w), Arrivals(cfg, events, Session(cfg, w)))
    requires Receive(cfg, s.disk, ConnOf(s, c), w) == Done(r)
    ensures SessionOnDisk(cfg, r.disk, Session(cfg, w), Arrivals(cfg, events + [Arrive(c, w)], Session(cfg, w)))
            <==> !Overwrites(cfg, s, Arrive(c, w))
  {
    var ws := Arrivals(cfg, events, Session(cfg, w));
    ArrivalsAfter(cfg, events, c, w, Session(cfg, w));
    assert SessionOnDisk(cfg, s.disk, Session(cfg, w), ws);
    ReceiveRecords(cfg, s.disk, ConnOf(s, c), w, ws);
  }

  /** A write, as seen by the disk. */
  lemma ArriveRecords(cfg: Config, s: State, events: seq<Event>, c: nat, w: TtyWrite, r: Served)
    requires Recorded(cfg, s.disk, events) && Remembers(ConnOf(s, c), Session(cfg, w), Arrivals(cfg, events, Session(cfg, w)))
    requires Receive(cfg, s.disk, ConnOf(s, c), w) == Done(r)
    ensures Recorded(cfg, r.disk, events + [Arrive(c, w)]) <==> !Overwrites(cfg, s, Arrive(c, w))
  {
    ArriveOwn(cfg, s, events, c, w, r);
    forall k: Hash | k != Session(cfg, w)
      ensures SessionOnDisk(cfg, r.disk, k, Arrivals(cfg, events + [Arrive(c, w)], k))
    {
      ArrivalsAfter(cfg, events, c, w, k);
      assert SessionOnDisk(cfg, s.disk, k, Arrivals(cfg, events, k));
      OthersOnDisk(cfg, s.disk, ConnOf(s, c), w, r, k, Arrivals(cfg, events, k));
    }
  }

  lemma OthersOnDisk(cfg: Config, disk: Disk, conn: Conn, w: TtyWrite, r: Served, k: Hash, ws: seq<TtyWrite>)
    requires k != Session(cfg, w) && SessionOnDisk(cfg, disk, k, ws) && Receive(cfg, disk, conn, w) == Done(r)
    ensures SessionOnDisk(cfg, r.disk, k, ws)
  {
    ReceiveFrame(cfg, disk, conn, w, k);
  }

  /** A write, as seen by one connection that is there after it. */
  lemma ArriveRemembers(cfg: Config, s: State, events: seq<Event>, c: nat, w: TtyWrite, r: Served, k: Hash)
    requires Recorded(cfg, s.disk, events) && Remembers(ConnOf(s, c), Session(cfg, w), Arrivals(cfg, events, Session(cfg, w)))
    requires Receive(cfg, s.disk, ConnOf(s, c), w) == Done(r)
    requires Remembers(ConnOf(s, c), k, Arrivals(cfg, events, k))
    ensures Remembers(r.conn, k, Arrivals(cfg, events + [Arrive(c, w)], k))
  {
    var (h, conn, events') := (Session(cfg, w), ConnOf(s, c), events + [Arrive(c, w)]);
    assert events'[..|events|] == events;
    if k == h {
      assert SessionOnDisk(cfg, s.disk, h, Arrivals(cfg, events, h));
      ReceiveRecords(cfg, s.disk, conn, w, Arrivals(cfg, events, h));
    } else {
      ReceiveFrame(cfg, s.disk, conn, w, k);
    }
  }

  /** What was remembered is still so after one more event. */
  lemma RemembersOn(cfg: Config, conn: Conn, events: seq<Event>, e: Event, k: Hash)
    requires Remembers(conn, k, Arrivals(cfg, events, k))
    ensures Remembers(conn, k, Arrivals(cfg, events + [e], k))
  {
    assert (events + [e])[..|events|] == events;
  }

  lemma NothingToRemember(cfg: Config, s: State, events: seq<Event>, c: nat, k: Hash)
    requires AllRemember(cfg, s, events)
    ensures Remembers(ConnOf(s, c), k, Arrivals(cfg, events, k))
  {
    if c in s.conns {
      assert Remembers(s.conns[c], k, Arrivals(cfg, events, k));
    }
  }

  /** One event never fails: what connections remember stays so, and the record is kept unless an entry goes
      through a stale handle, and only then is it not. */
  lemma StepRecords(cfg: Config, s: State, events: seq<Event>, e: Event)
    requires Recorded(cfg, s.disk, events) && AllRemember(cfg, s, events)
    ensures Step(cfg, s, e).Done? && AllRemember(cfg, Step(cfg, s, e).value, events + [e])
    ensures Recorded(cfg, Step(cfg, s, e).value.disk, events + [e]) <==> !Overwrites(cfg, s, e)
  {
    var events' := events + [e];
    assert events'[..|events|] == events;
    if e.Arrive? {
      var (c, w, h) := (e.conn, e.write, Session(cfg, e.write));
      NothingToRemember(cfg, s, events, c, h);
      assert SessionOnDisk(cfg, s.disk, h, Arrivals(cfg, events, h));
      ReceiveRecords(cfg, s.disk, ConnOf(s, c), w, Arrivals(cfg, events, h));
      ArriveRecords(cfg, s, events, c, w, Receive(cfg, s.disk, ConnOf(s, c), w).value);
    } else {
      assert forall h: Hash :: Arrivals(cfg, events', h) == Arrivals(cfg, events, h);
      assert Recorded(cfg, s.disk, events');
    }
    var s' := Step(cfg, s, e).value;
    forall d, k: Hash | d in s'.conns
      ensures Remembers(s'.conns[d], k, Arrivals(cfg, events', k))
    {
      NothingToRemember(cfg, s, events, d, k);
      if e.Arrive? && e.conn == d {
        ArriveRemembers(cfg, s, events, d, e.write, Receive(cfg, s.disk, ConnOf(s, d), e.write).value, k);
      } else {
        RemembersOn(cfg, s.conns[d], events, e, k);
      }
    }
  }

  const START := State(map[], map[])

  /** The record was right after every event so far. */
  ghost predicate AlwaysRecorded(cfg: Config, events: seq<Event>) {
    && Run(cfg, START, events).Done? && Recorded(cfg, Run(cfg, START, events).value.disk, events)
    && (events == [] || AlwaysRecorded(cfg, events[..|events| - 1]))
  }

  /** No event wrote an entry through a stale handle. */
  predicate NeverOverwrites(cfg: Config, events: seq<Event>) {
    events == [] ||
    var (front, last) := (events[..|events| - 1], events[|events| - 1]);
    NeverOverwrites(cfg, front) && Run(cfg, START, front).Done? && !Overwrites(cfg, Run(cfg, START, front).value, last)
  }

  /** One event more. */
  lemma AlwaysOneMore(cfg: Config, front: seq<Event>, last: Event, s: State)
    requires Run(cfg, START, front) == Done(s) && AlwaysRecorded(cfg, front) && AllRemember(cfg, s, front)
    ensures Run(cfg, START, front + [last]) == Step(cfg, s, last) && Step(cfg, s, last).Done?
    ensures AlwaysRecorded(cfg, front + [last]) <==> !Overwrites(cfg, s, last)
    ensures NeverOverwrites(cfg, front + [last]) <==> NeverOverwrites(cfg, front) && !Overwrites(cfg, s, last)
    ensures AllRemember(cfg, Step(cfg, s, last).value, front + [last])
  {
    StepRecords(cfg, s, front, last);
    assert (front + [last])[..|front|] == front;
  }

  lemma {:induction false} RecordedAndRemembered(cfg: Config, events: seq<Event>)
    ensures AlwaysRecorded(cfg, events) <==> NeverOverwrites(cfg, events)
    ensures AlwaysRecorded(cfg, events) ==> AllRemember(cfg, Run(cfg, START, events).value, events)
    decreases |events|
  {
    if events == [] {
      assert Recorded(cfg, START.disk, events);
    } else {
      var (front, last) := (events[..|events| - 1], events[|events| - 1]);
      LastEvent(events);
      RecordedAndRemembered(cfg, front);
      if AlwaysRecorded(cfg, front) {
        AlwaysOneMore(cfg, front, last, Run(cfg, START, front).value);
      }
    }
  }

  lemma LastEvent(events: seq<Event>)
    requires events != []
    ensures events[..|events| - 1] + [events[|events| - 1]] == events
  {
  }

  /** For every run: the record is right all along exactly when no entry is written through a stale handle. */
  lemma RecordedIff(cfg: Config, events: seq<Event>)
    ensures AlwaysRecorded(cfg, events) <==> NeverOverwrites(cfg, events)
  {
    RecordedAndRemembered(cfg, events);
  }

  // ---------------------------------------------------------------- the files there are

  /** A name that the recorder gives to a file of this session. */
  predicate BelongsTo(name: string, h: Hash) {
    name == CastName(h) || name == LabelsName(h)
  }

  /** A write leaves the files there are, and those of its own session. */
  lemma ReceiveFiles(cfg: Config, disk: Disk, conn: Conn, w: TtyWrite, r: Served)
    requires Receive(cfg, disk, conn, w) == Done(r)
    ensures forall name :: name in r.disk <==> name in disk || BelongsTo(name, Session(cfg, w))
  {
    var h := Session(cfg, w);
    NamesApart(h, h);
    var (disk1, conn1) := OpenCast(cfg, WriteLabels(cfg, disk, w), conn, w);
    assert CastName(h) in disk1 && LabelsName(h) in disk1;
    assert forall name :: name in disk1 <==> name in disk || BelongsTo(name, h);
  }

  ghost predicate FilesOfSessions(cfg: Config, disk: Disk, events: seq<Event>) {
    forall name :: name in disk <==> exists h: Hash :: BelongsTo(name, h) && Arrivals(cfg, events, h) != []
  }

  lemma FilesAfter(cfg: Config, disk: Disk, disk': Disk, events: seq<Event>, c: nat, w: TtyWrite)
    requires FilesOfSessions(cfg, disk, events)
    requires forall name :: name in disk' <==> name in disk || BelongsTo(name, Session(cfg, w))
    ensures FilesOfSessions(cfg, disk', events + [Arrive(c, w)])
  {
    var events' := events + [Arrive(c, w)];
    forall h: Hash
      ensures Arrivals(cfg, events', h) != [] <==> Arrivals(cfg, events, h) != [] || h == Session(cfg, w)
    {
      ArrivalsAfter(cfg, events, c, w, h);
    }
  }

  /** After any run that does not fail, overwritten or not: the files are those of the sessions that writes have come
      for, and no others. */
  lemma {:induction false} FilesThereAre(cfg: Config, events: seq<Event>)
    requires Run(cfg, START, events).Done?
    ensures FilesOfSessions(cfg, Run(cfg, START, events).value.disk, events)
    decreases |events|
  {
    if events != [] {
      var (front, e) := (events[..|events| - 1], events[|events| - 1]);
      LastEvent(events);
      FilesThereAre(cfg, front);
      var s := Run(cfg, START, front).value;
      if e.Arrive? {
        var r := Receive(cfg, s.disk, ConnOf(s, e.conn), e.write).value;
        ReceiveFiles(cfg, s.disk, ConnOf(s, e.conn), e.write, r);
        FilesAfter(cfg, s.disk, r.disk, front, e.conn, e.write);
      } else {
        assert forall h: Hash :: Arrivals(cfg, events, h) == Arrivals(cfg, front, h);
      }
    }
  }

  // ---------------------------------------------------------------- one live writer per session

  /** The connections that are open and have carried writes, with the sessions they carried. */
  function Carrying(cfg: Config, events: seq<Event>): set<(nat, Hash)> {
    if events == [] then {}
    else
      var (before, e) := (Carrying(cfg, events[..|events| - 1]), events[|events| - 1]);
      var others := set p | p in before && p.0 != e.conn;
      if e.Close? || e.write.count > |e.write.buffer| then others
      else before + {(e.conn, Session(cfg, e.write))}
  }

  /** No write arrives for a session that another open connection has carried. */
  predicate OneWriter(cfg: Config, events: seq<Event>) {
    events == [] ||
    var (front, e) := (events[..|events| - 1], events[|events| - 1]);
    && OneWriter(cfg, front)
    && (e.Arrive? ==> forall p :: p in Carrying(cfg, front) && p.1 == Session(cfg, e.write) ==> p.0 == e.conn)
  }

  /** An open file is carried, and is not stale. */
  ghost predicate Fresh(cfg: Config, s: State, carrying: set<(nat, Hash)>, c: nat, h: Hash) {
    c in s.conns && h in s.conns[c].files ==> (c, h) in carrying && !Stale(s.disk, s.conns[c], h)
  }

  ghost predicate AllFresh(cfg: Config, s: State, events: seq<Event>) {
    forall c, h: Hash {:trigger Fresh(cfg, s, Carrying(cfg, events), c, h)} :: Fresh(cfg, s, Carrying(cfg, events), c, h)
  }

  lemma CarryingAfter(cfg: Config, events: seq<Event>, e: Event, c: nat, h: Hash)
    ensures (c, h) in Carrying(cfg, events + [e]) <==>
            if e.Close? || e.write.count > |e.write.buffer| then (c, h) in Carrying(cfg, events) && c != e.conn
            else (c, h) in Carrying(cfg, events) || (c == e.conn && h == Session(cfg, e.write))
  {
    assert (events + [e])[..|events|] == events;
  }

  /** A write leaves no handle stale if the session is carried by no other connection. */
  lemma FreshAfterWrite(cfg: Config, s: State, carrying: set<(nat, Hash)>, c: nat, w: TtyWrite, ws: seq<TtyWrite>, r: Served,
                        d: nat, k: Hash)
    requires SessionOnDisk(cfg, s.disk, Session(cfg, w), ws) && Remembers(ConnOf(s, c), Session(cfg, w), ws)
    requires Receive(cfg, s.disk, ConnOf(s, c), w) == Done(r) && r.alive
    requires Fresh(cfg, s, carrying, c, k) && Fresh(cfg, s, carrying, d, k)
    requires k == Session(cfg, w) && (d, k) in carrying ==> d == c
    ensures Fresh(cfg, State(r.disk, s.conns[c := r.conn]), carrying + {(c, Session(cfg, w))}, d, k)
  {
    if k != Session(cfg, w) {
      ReceiveFrame(cfg, s.disk, ConnOf(s, c), w, k);
    } else {
      ReceiveRecords(cfg, s.disk, ConnOf(s, c), w, ws);
    }
  }

  /** A write that panics changes only its own session, which no other connection carries. */
  lemma FreshAfterPanic(cfg: Config, s: State, carrying: set<(nat, Hash)>, c: nat, w: TtyWrite, r: Served, d: nat, k: Hash)
    requires Receive(cfg, s.disk, ConnOf(s, c), w) == Done(r)
    requires Fresh(cfg, s, carrying, d, k)
    requires k == Session(cfg, w) && (d, k) in carrying ==> d == c
    ensures d != c ==> Fresh(cfg, State(r.disk, s.conns - {c}), carrying, d, k)
  {
    if k != Session(cfg, w) {
      ReceiveFrame(cfg, s.disk, ConnOf(s, c), w, k);
    }
  }

  lemma FreshAfter(cfg: Config, s: State, events: seq<Event>, e: Event, d: nat, k: Hash)
    requires Recorded(cfg, s.disk, events) && AllRemember(cfg, s, events) && AllFresh(cfg, s, events)
    requires OneWriter(cfg, events + [e]) && Step(cfg, s, e).Done?
    ensures Fresh(cfg, Step(cfg, s, e).value, Carrying(cfg, events + [e]), d, k)
  {
    assert (events + [e])[..|events|] == events;
    CarryingAfter(cfg, events, e, d, k);
    var carrying := Carrying(cfg, events);
    assert Fresh(cfg, s, carrying, d, k);
    if e.Arrive? {
      var (c, w, h) := (e.conn, e.write, Session(cfg, e.write));
      var r := Receive(cfg, s.disk, ConnOf(s, c), w).value;
      assert Fresh(cfg, s, carrying, c, k);
      NothingToRemember(cfg, s, events, c, h);
      assert SessionOnDisk(cfg, s.disk, h, Arrivals(cfg, events, h));
      if r.alive {
        FreshAfterWrite(cfg, s, carrying, c, w, Arrivals(cfg, events, h), r, d, k);
      } else {
        FreshAfterPanic(cfg, s, carrying, c, w, r, d, k);
      }
      ReceiveRecords(cfg, s.disk, ConnOf(s, c), w, Arrivals(cfg, events, h));
    }
  }

  /** One event under the assumption. */
  lemma FreshStep(cfg: Config, s: State, events: seq<Event>, e: Event)
    requires Recorded(cfg, s.disk, events) && AllRemember(cfg, s, events) && AllFresh(cfg, s, events)
    requires OneWriter(cfg, events + [e])
    ensures !Overwrites(cfg, s, e) && Step(cfg, s, e).Done? && AllFresh(cfg, Step(cfg, s, e).value, events + [e])
  {
    StepRecords(cfg, s, events, e);
    if e.Arrive? {
      assert Fresh(cfg, s, Carrying(cfg, events), e.conn, Session(cfg, e.write));
    }
    forall c, h: Hash
      ensures Fresh(cfg, Step(cfg, s, e).value, Carrying(cfg, events + [e]), c, h)
    {
      FreshAfter(cfg, s, events, e, c, h);
    }
  }

  lemma {:induction false} OneWriterFresh(cfg: Config, events: seq<Event>)
    requires OneWriter(cfg, events)
    ensures AlwaysRecorded(cfg, events) && AllFresh(cfg, Run(cfg, START, events).value, events)
    decreases |events|
  {
    if events == [] {
      RecordedAndRemembered(cfg, events);
    } else {
      var (front, last) := (events[..|events| - 1], events[|events| - 1]);
      LastEvent(events);
      OneWriterFresh(cfg, front);
      RecordedAndRemembered(cfg, front);
      var s := Run(cfg, START, front).value;
      AlwaysOneMore(cfg, front, last, s);
      FreshStep(cfg, s, front, last);
    }
  }

  /** Over any connections with at most one live writer per session: nothing fails, and every cast file is its
      header and one entry for each write in the order of arrival, timed from the second of the session's first
      write, however often the session was reconnected. */
  lemma OneWriterRecords(cfg: Config, events: seq<Event>)
    requires OneWriter(cfg, events)
    ensures Run(cfg, START, events).Done? && Recorded(cfg, Run(cfg, START, events).value.disk, events)
  {
    OneWriterFresh(cfg, events);
  }

  /** The connection that creates the file keeps an offset, which is where the file ends for now. */
  lemma CreatorKeepsOffset(cfg: Config, w: TtyWrite, r: Served)
    requires w.count <= |w.buffer| && Receive(cfg, map[], Conn(map[], map[]), w) == Done(r)
    ensures var (h, p) := (Session(cfg, w), CastName(Session(cfg, w)));
            r.alive && h in r.conn.files && p in r.disk && r.conn.files[h] == Handle(false, |r.disk[p]|)
  {
    var h := Session(cfg, w);
    NamesApart(h, h);
  }

  /** Another connection makes the file longer. */
  lemma OtherMakesLonger(cfg: Config, disk: Disk, w: TtyWrite, ws: seq<TtyWrite>, r: Served)
    requires w.count <= |w.buffer| && ws != [] && SessionOnDisk(cfg, disk, Session(cfg, w), ws)
    requires Receive(cfg, disk, Conn(map[], map[]), w) == Done(r)
    ensures var p := CastName(Session(cfg, w)); p in disk && p in r.disk && |r.disk[p]| > |disk[p]|
  {
    ReceiveRecords(cfg, disk, Conn(map[], map[]), w, ws);
    CastTextGrows(cfg, ws, w);
  }

  /** So the creator's handle is stale once another connection has written. */
  lemma CreatorGoesStale(cfg: Config, w: TtyWrite, s1: State, s2: State)
    requires w.count <= |w.buffer| && SessionOnDisk(cfg, s1.disk, Session(cfg, w), [w])
    requires Step(cfg, START, Arrive(0, w)) == Done(s1) && Step(cfg, s1, Arrive(1, w)) == Done(s2)
    ensures Overwrites(cfg, s2, Arrive(0, w))
  {
    CreatorKeepsOffset(cfg, w, Receive(cfg, START.disk, ConnOf(START, 0), w).value);
    OtherMakesLonger(cfg, s1.disk, w, [w], Receive(cfg, s1.disk, ConnOf(s1, 1), w).value);
  }

  /** With two live writers the record is lost: the one that created the file writes over the other's entry. */
  lemma TwoWritersLose(cfg: Config, w: TtyWrite)
    requires w.count <= |w.buffer|
    ensures !AlwaysRecorded(cfg, [Arrive(0, w)] + [Arrive(1, w)] + [Arrive(0, w)])
    ensures AlwaysRecorded(cfg, [Arrive(0, w)] + [Arrive(1, w)])
  {
    var (e0, e1, h) := (Arrive(0, w), Arrive(1, w), Session(cfg, w));
    assert [] + [e0] == [e0] && [e0][..0] == [];
    assert Arrivals(cfg, [e0], h) == [w];
    RecordedAndRemembered(cfg, []);
    AlwaysOneMore(cfg, [], e0, START);
    var s1 := Step(cfg, START, e0).value;
    assert SessionOnDisk(cfg, s1.disk, h, Arrivals(cfg, [e0], h));
    AlwaysOneMore(cfg, [e0], e1, s1);
    var s2 := Step(cfg, s1, e1).value;
    CreatorGoesStale(cfg, w, s1, s2);
    AlwaysOneMore(cfg, [e0] + [e1], e0, s2);
  }

  // ---------------------------------------------------------------- reading a cast file

  /** JSON numbers are written with these. */
  ghost predicate JsonNumbers(cfg: Config) {
    forall x, c :: c in cfg.number(x) ==> '0' <= c <= '9' || c == '-' || c == '+' || c == '.' || c == 'e'
  }

  /** The lines of the entries. */
  function Entries(cfg: Config, ws: seq<TtyWrite>, second: nat): seq<string> {
    if ws == [] then []
    else if ws[0].count > |ws[0].buffer| then Entries(cfg, ws[1..], second)
    else [EntryText(cfg, ws[0], second)] + Entries(cfg, ws[1..], second)
  }

  /** The number and the text of an entry's line. */
  function ReadEntry(line: string): Option<(string, string)> {
    var parts := Split(line, ',');
    var n := |parts[0]|;
    if n == 0 || |line| < n + 6 || line[0] != '[' || line[n..n + 6] != ",\"o\",\"" then None
    else
      match ReadString(line[n + 6..])
      case Some((text, rest)) => if rest == "]" then Some((parts[0][1..], text)) else None
      case None => None
  }

  lemma EntryShape(number: string, escaped: string, text: string, line: string)
    requires line == "[" + number + ",\"o\",\"" + escaped + "\"]"
    requires ',' !in number && ReadString(escaped + ['"'] + "]") == Some((text, "]"))
    ensures ReadEntry(line) == Some((number, text))
  {
    var tail := "\"o\",\"" + escaped + "\"]";
    assert line == ("[" + number) + [','] + tail;
    SplitFirst("[" + number, tail, ',');
    var n := 1 + |number|;
    assert line[n..n + 6] == ",\"o\",\"";
    assert line[n + 6..] == escaped + ['"'] + "]";
    assert ("[" + number)[1..] == number;
  }

  lemma EntryIsOneLine(number: string, escaped: string)
    requires '\n' !in number && '\n' !in escaped
    ensures '\n' !in "[" + number + ",\"o\",\"" + escaped + "\"]"
  {
  }

  /** An entry's line holds no newline, and its time and text can be read back. */
  lemma EntryRead(cfg: Config, w: TtyWrite, second: nat)
    requires JsonNumbers(cfg) && w.count <= |w.buffer|
    ensures '\n' !in EntryText(cfg, w, second)
    ensures ReadEntry(EntryText(cfg, w, second)) == Some((cfg.number(EntryTime(w, second)), Translated(w.buffer[..w.count])))
  {
    var (number, text) := (cfg.number(EntryTime(w, second)), Translated(w.buffer[..w.count]));
    assert ',' !in number && '\n' !in number;
    ReadEscaped(text, "]");
    EntryIsOneLine(number, Escape(text));
    EntryShape(number, Escape(text), text, EntryText(cfg, w, second));
  }

  lemma {:induction false} EntryLinesFront(cfg: Config, ws: seq<TtyWrite>, second: nat)
    requires ws != []
    ensures EntryLines(cfg, ws, second) == EntryLine(cfg, ws[0], second) + EntryLines(cfg, ws[1..], second)
    decreases |ws|
  {
    var last := |ws| - 1;
    if last > 0 {
      EntryLinesFront(cfg, ws[..last], second);
      assert ws[..last][1..] == ws[1..][..last - 1] && ws[1..][last - 1] == ws[last];
    }
  }

  lemma SplitOneMore(line: string, entry: string, rest: string)
    requires '\n' !in line
    ensures Split(line + (("\n" + entry) + rest), '\n') == [line] + Split(entry + rest, '\n')
  {
    assert line + (("\n" + entry) + rest) == line + ['\n'] + (entry + rest);
    SplitFirst(line, entry + rest, '\n');
  }

  lemma {:induction false} SplitEntries(cfg: Config, line: string, ws: seq<TtyWrite>, second: nat)
    requires JsonNumbers(cfg) && '\n' !in line
    ensures Split(line + EntryLines(cfg, ws, second), '\n') == [line] + Entries(cfg, ws, second)
    decreases |ws|
  {
    if ws == [] {
      SplitPart(line, '\n');
      assert line + [] == line;
    } else {
      EntryLinesFront(cfg, ws, second);
      var rest := EntryLines(cfg, ws[1..], second);
      if ws[0].count > |ws[0].buffer| {
        assert line + ([] + rest) == line + rest;
        SplitEntries(cfg, line, ws[1..], second);
      } else {
        var entry := EntryText(cfg, ws[0], second);
        EntryRead(cfg, ws[0], second);
        SplitEntries(cfg, entry, ws[1..], second);
        SplitOneMore(line, entry, rest);
      }
    }
  }

  /** Splitting a cast file on newlines gives the header and the entries, one line each. */
  lemma CastLines(cfg: Config, ws: seq<TtyWrite>)
    requires JsonNumbers(cfg) && ws != []
    ensures Split(CastText(cfg, ws), '\n') == [HeaderText(Second(ws[0]))] + Entries(cfg, ws, Second(ws[0]))
  {
    HeaderRead(Second(ws[0]));
    SplitEntries(cfg, HeaderText(Second(ws[0])), ws, Second(ws[0]));
  }

  // ---------------------------------------------------------------- playing a recording back

  /** The moment of a write, in seconds. */
  function Moment(w: TtyWrite): real {
    w.timestamp as real / 1_000_000_000.0
  }

  /** An entry's time is counted from the second at which the recording starts. */
  lemma TimeFromStart(w: TtyWrite, second: nat)
    ensures EntryTime(w, second) + second as real == Moment(w)
  {
  }

  /** Two entries of a recording are as far apart as their writes were. */
  lemma TimesApart(v: TtyWrite, w: TtyWrite, second: nat)
    ensures EntryTime(w, second) - EntryTime(v, second) == (w.timestamp as real - v.timestamp as real) / 1_000_000_000.0
  {
  }

  /** A recording starts within its first second. */
  lemma FirstEntryTime(w: TtyWrite)
    ensures 0.0 <= EntryTime(w, Second(w)) < 1.0
  {
    var q, r := w.timestamp / NANOSECONDS, w.timestamp % NANOSECONDS;
    assert w.timestamp == NANOSECONDS * q + r;
    assert w.timestamp as real == 1000000000.0 * q as real + r as real;
  }

  /** The writes that leave an entry. */
  function Playable(ws: seq<TtyWrite>): seq<TtyWrite> {
    if ws == [] then []
    else (if ws[0].count > |ws[0].buffer| then [] else [ws[0]]) + Playable(ws[1..])
  }

  /** What a player finds in a line: an entry with the write's time since `start`, and its text. */
  ghost predicate Plays(cfg: Config, line: string, w: TtyWrite, start: nat) {
    w.count <= |w.buffer| &&
    ReadEntry(line) == Some((cfg.number(Moment(w) - start as real), Translated(w.buffer[..w.count])))
  }

  ghost predicate AllPlay(cfg: Config, lines: seq<string>, writes: seq<TtyWrite>, start: nat) {
    |lines| == |writes| && forall i {:trigger writes[i]} :: 0 <= i < |writes| ==> Plays(cfg, lines[i], writes[i], start)
  }

  lemma OneMorePlays(cfg: Config, line: string, lines: seq<string>, w: TtyWrite, writes: seq<TtyWrite>, start: nat)
    requires Plays(cfg, line, w, start) && AllPlay(cfg, lines, writes, start)
    ensures AllPlay(cfg, [line] + lines, [w] + writes, start)
  {
    forall i | 0 <= i < 1 + |writes|
      ensures Plays(cfg, ([line] + lines)[i], ([w] + writes)[i], start)
    {
      assert i > 0 ==> ([w] + writes)[i] == writes[i - 1];
    }
  }

  /** What a player finds in a file: the header of version 2, which says the second in which the first write came, and
      then one entry for each write. */
  ghost predicate PlaysBack(cfg: Config, content: string, ws: seq<TtyWrite>)
    requires ws != []
  {
    var (lines, writes) := (Split(content, '\n'), Playable(ws));
    && ReadHeader(lines[0]).Some?
    && var header := ReadHeader(lines[0]).value;
       && header == Header(2, 80, 32, header.timestamp)
       && header.timestamp as real <= Moment(ws[0]) < header.timestamp as real + 1.0
       && AllPlay(cfg, lines[1..], writes, header.timestamp)
  }

  lemma EntryPlays(cfg: Config, w: TtyWrite, second: nat)
    requires JsonNumbers(cfg) && w.count <= |w.buffer|
    ensures Plays(cfg, EntryText(cfg, w, second), w, second)
  {
    EntryRead(cfg, w, second);
    TimeFromStart(w, second);
  }

  lemma {:induction false} EntriesPlay(cfg: Config, ws: seq<TtyWrite>, second: nat)
    requires JsonNumbers(cfg)
    ensures AllPlay(cfg, Entries(cfg, ws, second), Playable(ws), second)
    decreases |ws|
  {
    if ws != [] {
      EntriesPlay(cfg, ws[1..], second);
      var (lines, writes) := (Entries(cfg, ws[1..], second), Playable(ws[1..]));
      if ws[0].count <= |ws[0].buffer| {
        EntryPlays(cfg, ws[0], second);
        OneMorePlays(cfg, EntryText(cfg, ws[0], second), lines, ws[0], writes, second);
      } else {
        assert [] + writes == writes;
      }
    }
  }

  /** The file that should be there plays back. */
  lemma CastPlaysBack(cfg: Config, ws: seq<TtyWrite>)
    requires JsonNumbers(cfg) && ws != []
    ensures PlaysBack(cfg, CastText(cfg, ws), ws)
  {
    var second := Second(ws[0]);
    CastLines(cfg, ws);
    HeaderRead(second);
    EntriesPlay(cfg, ws, second);
    FirstEntryTime(ws[0]);
    TimeFromStart(ws[0], second);
    assert ([HeaderText(second)] + Entries(cfg, ws, second))[1..] == Entries(cfg, ws, second);
  }

  /** After any run with at most one live writer per session, every session's file plays its writes back, in the order
      of their arrival and each at its own moment. */
  lemma OneWriterPlaysBack(cfg: Config, events: seq<Event>, h: Hash)
    requires JsonNumbers(cfg) && OneWriter(cfg, events) && Arrivals(cfg, events, h) != []
    ensures Run(cfg, START, events).Done? && CastName(h) in Run(cfg, START, events).value.disk
    ensures PlaysBack(cfg, Run(cfg, START, events).value.disk[CastName(h)], Arrivals(cfg, events, h))
  {
    OneWriterRecords(cfg, events);
    assert SessionOnDisk(cfg, Run(cfg, START, events).value.disk, h, Arrivals(cfg, events, h));
    CastPlaysBack(cfg, Arrivals(cfg, events, h));
  }

  // ---------------------------------------------------------------- which terminals are told apart

  /** Two writes are of one session, whatever the hash. */
  ghost predicate OneSession(v: TtyWrite, w: TtyWrite) {
    forall cfg: Config :: Session(cfg, v) == Session(cfg, w)
  }

  lemma OneName(v: TtyWrite, w: TtyWrite)
    ensures OneSession(v, w) <==> TerminalName(v) == TerminalName(w)
  {
    if OneSession(v, w) {
      var (name, hash) := (TerminalName(v), (s: string) => if s == TerminalName(v) then 0 else 1);
      var cfg := Config("", hash, x => "");
      assert Session(cfg, v) == Session(cfg, w);
    }
  }

  lemma SameEnds(a: string, b: string, c: string, b': string)
    ensures a + b + c == a + b' + c <==> b == b'
  {
    if a + b + c == a + b' + c {
      assert b == (a + b + c)[|a|..|a + b + c| - |c|];
      assert b' == (a + b' + c)[|a|..|a + b' + c| - |c|];
    }
  }

  /** On one host and in one mount namespace, terminals are told apart by their inodes. */
  lemma InodesTellApart(v: TtyWrite, w: TtyWrite)
    requires v.hostname == w.hostname && v.mountNamespaceInum == w.mountNamespaceInum
    ensures OneSession(v, w) <==> v.inode == w.inode
  {
    OneName(v, w);
    SameEnds(v.hostname, Decimal(v.inode), Decimal(v.mountNamespaceInum), Decimal(w.inode));
    if Decimal(v.inode) == Decimal(w.inode) {
      DecimalUnique(v.inode, w.inode);
    }
  }

  /** On one host and for one inode, they are told apart by their mount namespaces. */
  lemma MountsTellApart(v: TtyWrite, w: TtyWrite)
    requires v.hostname == w.hostname && v.inode == w.inode
    ensures OneSession(v, w) <==> v.mountNamespaceInum == w.mountNamespaceInum
  {
    OneName(v, w);
    SameEnds(v.hostname + Decimal(v.inode), Decimal(v.mountNamespaceInum), [], Decimal(w.mountNamespaceInum));
    assert TerminalName(v) == v.hostname + Decimal(v.inode) + Decimal(v.mountNamespaceInum) + [];
    assert TerminalName(w) == v.hostname + Decimal(v.inode) + Decimal(w.mountNamespaceInum) + [];
    if Decimal(v.mountNamespaceInum) == Decimal(w.mountNamespaceInum) {
      DecimalUnique(v.mountNamespaceInum, w.mountNamespaceInum);
    }
  }

  /** For one inode and one mount namespace, they are told apart by their hosts. */
  lemma HostsTellApart(v: TtyWrite, w: TtyWrite)
    requires v.inode == w.inode && v.mountNamespaceInum == w.mountNamespaceInum
    ensures OneSession(v, w) <==> v.hostname == w.hostname
  {
    OneName(v, w);
    var rest := Decimal(v.inode) + Decimal(v.mountNamespaceInum);
    SameEnds([], v.hostname, rest, w.hostname);
    assert TerminalName(v) == [] + v.hostname + rest && TerminalName(w) == [] + w.hostname + rest;
  }

  /** When it comes, what is written and from which pod makes no difference. */
  lemma OtherFieldsTellNothing(v: TtyWrite, w: TtyWrite)
    requires v.hostname == w.hostname && v.inode == w.inode && v.mountNamespaceInum == w.mountNamespaceInum
    ensures OneSession(v, w)
  {
    OneName(v, w);
  }

  /** On one host, two terminals are told apart exactly when their numbers are different once written one after the
      other. */
  lemma NumbersRunTogether(v: TtyWrite, w: TtyWrite)
    requires v.hostname == w.hostname
    ensures OneSession(v, w) <==>
            Decimal(v.inode) + Decimal(v.mountNamespaceInum) == Decimal(w.inode) + Decimal(w.mountNamespaceInum)
  {
    OneName(v, w);
    var (a, b) := (Decimal(v.inode) + Decimal(v.mountNamespaceInum), Decimal(w.inode) + Decimal(w.mountNamespaceInum));
    SameEnds(v.hostname, a, [], b);
    assert TerminalName(v) == v.hostname + a + [] && TerminalName(w) == v.hostname + b + [];
  }

  /** So inode 1 in namespace 23 and inode 12 in namespace 3 share one recording. */
  lemma TerminalsShareRecording(v: TtyWrite, w: TtyWrite)
    requires v.hostname == w.hostname
    requires v.inode == 1 && v.mountNamespaceInum == 23 && w.inode == 12 && w.mountNamespaceInum == 3
    ensures OneSession(v, w)
  {
    NumbersRunTogether(v, w);
    assert Decimal(1) == ['1'] && Decimal(3) == ['3'];
    assert Decimal(12) == Decimal(1) + ['2'] && Decimal(2) == ['2'] && Decimal(23) == Decimal(2) + ['3'];
  }

  // ---------------------------------------------------------------- texts in a recording

  /** Labels are sanitised character by character. */
  lemma {:induction false} SanitizedJoin(s: string, t: string)
    ensures Sanitized(s + t) == Sanitized(s) + Sanitized(t)
    decreases |s|
  {
    if s == [] {
      assert s + t == t;
    } else {
      assert (s + t)[1..] == s[1..] + t;
      SanitizedJoin(s[1..], t);
    }
  }

  lemma SanitizedOne(c: char)
    ensures Sanitized([c]) == if Plain(c) then [c] else []
  {
    assert [c][1..] == [];
  }

  /** A label that is plain already stays as it is. */
  lemma {:induction false} SanitizedPlain(s: string)
    requires forall c :: c in s ==> Plain(c)
    ensures Sanitized(s) == s
    decreases |s|
  {
    if s != [] {
      SanitizedPlain(s[1..]);
      assert [s[0]] + s[1..] == s;
    }
  }

  lemma {:induction false} ReplaceJoin(s: string, t: string, c: char, sub: string)
    ensures ReplaceChar(s + t, c, sub) == ReplaceChar(s, c, sub) + ReplaceChar(t, c, sub)
    decreases |s|
  {
    if s == [] {
      assert s + t == t;
    } else {
      assert (s + t)[1..] == s[1..] + t;
      ReplaceJoin(s[1..], t, c, sub);
    }
  }

  lemma ReplaceOne(x: char, c: char, sub: string)
    ensures ReplaceChar([x], c, sub) == if x == c then sub else [x]
  {
    assert [x][1..] == [];
  }

  /** The two replacements together go through the text once. */
  lemma TranslatedFront(x: char, s: string)
    ensures Translated([x] + s) == (if x == '\n' then "\r\n" else if x == '\U{000E}' then "\0" else [x]) + Translated(s)
  {
    ReplaceJoin([x], s, '\n', "\r\n");
    ReplaceOne(x, '\n', "\r\n");
    var first := if x == '\n' then "\r\n" else [x];
    ReplaceJoin(first, ReplaceChar(s, '\n', "\r\n"), '\U{000E}', "\0");
    if x == '\n' {
      assert first == ['\r'] + ['\n'];
      ReplaceJoin(['\r'], ['\n'], '\U{000E}', "\0");
      ReplaceOne('\r', '\U{000E}', "\0");
      ReplaceOne('\n', '\U{000E}', "\0");
    } else {
      ReplaceOne(x, '\U{000E}', "\0");
    }
  }

  /** In the translated text every newline follows a carriage return, and there are no shift-outs. */
  lemma {:induction false} NewlinesReturned(s: string)
    ensures forall i :: 0 <= i < |Translated(s)| && Translated(s)[i] == '\n' ==> i > 0 && Translated(s)[i - 1] == '\r'
    ensures '\U{000E}' !in Translated(s)
    decreases |s|
  {
    if s != [] {
      NewlinesReturned(s[1..]);
      TranslatedFront(s[0], s[1..]);
      assert [s[0]] + s[1..] == s;
    }
  }
}
