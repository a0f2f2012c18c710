/** The user interface's list of casts, taken from the server's message. */
module CastUi {
  import opened Basics
  import opened Text
  import opened Recording
  import opened Globbing
  import opened Listing

  // ---------------------------------------------------------------- operations

  /** What JavaScript's `trim` removes. */
  predicate IsSpace(c: char) {
    || '\t' <= c <= '\r' || c == ' ' || c == '\U{00A0}' || c == '\U{1680}' || '\U{2000}' <= c <= '\U{200A}'
    || c == '\U{2028}' || c == '\U{2029}' || c == '\U{202F}' || c == '\U{205F}' || c == '\U{3000}' || c == '\U{FEFF}'
  }

  function TrimLeft(s: string): string {
    if s != [] && IsSpace(s[0]) then TrimLeft(s[1..]) else s
  }

  function TrimRight(s: string): string {
    if s != [] && IsSpace(s[|s| - 1]) then TrimRight(s[..|s| - 1]) else s
  }

  function Trim(s: string): string {
    TrimLeft(TrimRight(s))
  }

  function EvenElementsFrom<A>(list: seq<A>, index: nat): seq<A> {
    if list == [] then []
    else if index % 2 == 0 then [list[0]] + EvenElementsFrom(list[1..], index + 1)
    else EvenElementsFrom(list[1..], index + 1)
  }

  function EvenElements<A>(list: seq<A>): seq<A> {
    EvenElementsFrom(list, 1)
  }

  function OddElementsFrom<A>(list: seq<A>, index: nat): seq<A> {
    if list == [] then []
    else if index % 2 == 0 then OddElementsFrom(list[1..], index + 1)
    else [list[0]] + OddElementsFrom(list[1..], index + 1)
  }

  function OddElements<A>(list: seq<A>): seq<A> {
    OddElementsFrom(list, 1)
  }

  /** What is shown, and the cast the player is told to show, if any. */
  datatype Model = Model(cast: string, casts: seq<string>, labels: seq<string>)

  function SetCastIfEmpty(current: string, casts: seq<string>): (string, Option<string>) {
    if current == "" then
      if casts != [] then (casts[0], Some(casts[0])) else ("", None)
    else (current, None)
  }

  /** `update` on a list message. */
  function ListCasts(model: Model, message: string): (Model, Option<string>) {
    var casts := OddElements(Split(Trim(message), '\n'));
    var labels := EvenElements(Split(Trim(message), '\n'));
    var (cast, command) := SetCastIfEmpty(model.cast, casts);
    (Model(cast, casts, labels), command)
  }

  // ---------------------------------------------------------------- trimming

  lemma {:induction false} TrimLeftHead(s: string)
    ensures TrimLeft(s) == [] || !IsSpace(TrimLeft(s)[0])
    decreases |s|
  {
    if s != [] && IsSpace(s[0]) {
      TrimLeftHead(s[1..]);
    }
  }

  predicate AllSpace(s: string) {
    forall i :: 0 <= i < |s| ==> IsSpace(s[i])
  }

  lemma {:induction false} TrimLeftExactly(s: string) returns (left: string)
    ensures AllSpace(left) && s == left + TrimLeft(s)
    decreases |s|
  {
    if s != [] && IsSpace(s[0]) {
      var rest := TrimLeftExactly(s[1..]);
      left := [s[0]] + rest;
      assert s == [s[0]] + (rest + TrimLeft(s));
    } else {
      left := [];
    }
  }

  lemma {:induction false} TrimRightExactly(s: string) returns (right: string)
    ensures AllSpace(right) && s == TrimRight(s) + right
    ensures TrimRight(s) == [] || !IsSpace(TrimRight(s)[|TrimRight(s)| - 1])
    decreases |s|
  {
    if s != [] && IsSpace(s[|s| - 1]) {
      var front := s[..|s| - 1];
      var rest := TrimRightExactly(front);
      right := rest + [s[|s| - 1]];
      assert s == front + [s[|s| - 1]];
    } else {
      right := [];
      assert s == s + [];
    }
  }

  /** Trimming takes away all spaces at both ends and nothing else. */
  lemma TrimExactly(s: string) returns (left: string, right: string)
    ensures AllSpace(left) && AllSpace(right) && s == left + Trim(s) + right
    ensures var t := Trim(s); t == [] || (!IsSpace(t[0]) && !IsSpace(t[|t| - 1]))
  {
    right := TrimRightExactly(s);
    left := TrimLeftExactly(TrimRight(s));
    TrimLeftHead(TrimRight(s));
    var (r, t) := (TrimRight(s), Trim(s));
    assert r == left + t;
    if t != [] {
      assert t[|t| - 1] == r[|r| - 1];
    }
  }

  /** A text with one newline after it loses just that. */
  lemma TrimNewline(s: string)
    requires s != [] && !IsSpace(s[0]) && !IsSpace(s[|s| - 1])
    ensures Trim(s + ['\n']) == s
  {
    var t := s + ['\n'];
    assert t[..|t| - 1] == s;
    assert TrimRight(s) == s;
    assert TrimRight(t) == TrimRight(s);
  }

  // ---------------------------------------------------------------- odd and even

  /** The two lists, one after the other by turns. */
  function Interleaved<A>(xs: seq<A>, ys: seq<A>): seq<A>
    requires |xs| == |ys|
  {
    if xs == [] then [] else [xs[0], ys[0]] + Interleaved(xs[1..], ys[1..])
  }

  lemma TwoMore<A>(x: A, y: A, rest: seq<A>, index: nat)
    requires index % 2 == 1
    ensures OddElementsFrom([x, y] + rest, index) == [x] + OddElementsFrom(rest, index + 2)
    ensures EvenElementsFrom([x, y] + rest, index) == [y] + EvenElementsFrom(rest, index + 2)
  {
    var list := [x, y] + rest;
    assert list[1..] == [y] + rest && ([y] + rest)[1..] == rest;
  }

  lemma Whole<A>(s: seq<A>)
    requires s != []
    ensures [s[0]] + s[1..] == s
  {
  }

  lemma {:induction false} OddAndEven<A>(xs: seq<A>, ys: seq<A>, index: nat)
    requires |xs| == |ys| && index % 2 == 1
    ensures OddElementsFrom(Interleaved(xs, ys), index) == xs
    ensures EvenElementsFrom(Interleaved(xs, ys), index) == ys
    decreases |xs|
  {
    if xs != [] {
      TwoMore(xs[0], ys[0], Interleaved(xs[1..], ys[1..]), index);
      OddAndEven(xs[1..], ys[1..], index + 2);
      Whole(xs);
      Whole(ys);
    }
  }

  lemma {:induction false} InterleavedGrows<A>(xs: seq<A>, ys: seq<A>, x: A, y: A)
    requires |xs| == |ys|
    ensures Interleaved(xs + [x], ys + [y]) == Interleaved(xs, ys) + [x, y]
    decreases |xs|
  {
    if xs == [] {
      assert (xs + [x])[1..] == [] && (ys + [y])[1..] == [];
    } else {
      assert (xs + [x])[1..] == xs[1..] + [x] && (ys + [y])[1..] == ys[1..] + [y];
      InterleavedGrows(xs[1..], ys[1..], x, y);
    }
  }

  // ---------------------------------------------------------------- the message and its parts

  /** The label strings of the message. */
  function LabelStrings(labels: seq<seq<string>>): seq<string> {
    seq(|labels|, i requires 0 <= i < |labels| => Terminated(labels[i], '.'))
  }

  lemma {:induction false} TerminatedJoin(xs: seq<string>, ys: seq<string>, end: char)
    ensures Terminated(xs + ys, end) == Terminated(xs, end) + Terminated(ys, end)
    decreases |xs|
  {
    if xs == [] {
      assert xs + ys == ys;
    } else {
      assert (xs + ys)[1..] == xs[1..] + ys;
      TerminatedJoin(xs[1..], ys, end);
    }
  }

  lemma ItemIsTwoLines(file: string, labels: seq<string>)
    ensures Item(file, labels) == Terminated([file, Terminated(labels, '.')], '\n')
  {
    var l := Terminated(labels, '.');
    assert [file, l][1..] == [l] && [l][1..] == [];
    assert Terminated([l], '\n') == l + ['\n'] + [];
  }

  lemma LinesGrow(dataPath: string, hs: seq<Hash>, labels: seq<seq<string>>)
    requires |labels| == |hs| > 0
    ensures var last := |hs| - 1;
            && Paths(dataPath, hs) == Paths(dataPath, hs[..last]) + [CastPath(dataPath, hs[last])]
            && LabelStrings(labels) == LabelStrings(labels[..last]) + [Terminated(labels[last], '.')]
  {
  }

  /** The message is the lines of paths and label strings by turns. */
  lemma {:induction false} MessageIsLines(dataPath: string, hs: seq<Hash>, labels: seq<seq<string>>)
    requires |labels| == |hs|
    ensures MessageOf(dataPath, hs, labels) == Terminated(Interleaved(Paths(dataPath, hs), LabelStrings(labels)), '\n')
    decreases |hs|
  {
    if hs != [] {
      var last := |hs| - 1;
      var (xs, ys) := (Paths(dataPath, hs[..last]), LabelStrings(labels[..last]));
      MessageIsLines(dataPath, hs[..last], labels[..last]);
      LinesGrow(dataPath, hs, labels);
      ItemAdded(xs, ys, CastPath(dataPath, hs[last]), labels[last]);
    }
  }

  lemma ItemAdded(xs: seq<string>, ys: seq<string>, file: string, labels: seq<string>)
    requires |xs| == |ys|
    ensures Terminated(Interleaved(xs + [file], ys + [Terminated(labels, '.')]), '\n')
         == Terminated(Interleaved(xs, ys), '\n') + Item(file, labels)
  {
    var text := Terminated(labels, '.');
    InterleavedGrows(xs, ys, file, text);
    TerminatedJoin(Interleaved(xs, ys), [file, text], '\n');
    ItemIsTwoLines(file, labels);
  }

  /** Without the last end, splitting gives the parts and nothing else. */
  lemma {:induction false} SplitJoined(parts: seq<string>, sep: char)
    requires parts != [] && Free(parts, sep)
    ensures var t := Terminated(parts, sep); t != [] && Split(t[..|t| - 1], sep) == parts
    decreases |parts|
  {
    var (first, rest) := (parts[0], Terminated(parts[1..], sep));
    var t := first + [sep] + rest;
    if |parts| == 1 {
      assert rest == [] && t[..|t| - 1] == first;
      SplitPart(first, sep);
    } else {
      assert forall i :: 0 <= i < |parts[1..]| ==> sep !in parts[1..][i];
      SplitJoined(parts[1..], sep);
      assert t[..|t| - 1] == first + [sep] + rest[..|rest| - 1];
      SplitFirst(first, rest[..|rest| - 1], sep);
    }
  }

  // ---------------------------------------------------------------- the round trip

  /** Labels as the recorder writes them: some, each with plain characters only. */
  predicate PlainLabels(labels: seq<string>) {
    labels != [] && forall i, j :: 0 <= i < |labels| && 0 <= j < |labels[i]| ==> Plain(labels[i][j])
  }

  /** Where the data may be for the message to be read back. */
  predicate Readable(dataPath: string) {
    var prefix := Prefix(dataPath);
    '\n' !in prefix && (prefix == "" || !IsSpace(prefix[0]))
  }

  lemma {:induction false} LabelStringShape(labels: seq<string>)
    requires PlainLabels(labels)
    ensures var t := Terminated(labels, '.'); t != [] && t[|t| - 1] == '.' && '\n' !in t
    decreases |labels|
  {
    if |labels| == 1 {
      assert labels[1..] == [];
    } else {
      assert forall i, j :: 0 <= i < |labels[1..]| && 0 <= j < |labels[1..][i]| ==> Plain(labels[1..][i][j]);
      LabelStringShape(labels[1..]);
    }
  }

  lemma PathShape(dataPath: string, h: Hash)
    ensures var (path, prefix) := (CastPath(dataPath, h), Prefix(dataPath));
            && path != [] && (IsSpace(path[0]) <==> prefix != "" && IsSpace(prefix[0]))
            && ('\n' in path <==> '\n' in prefix)
  {
    NameShape(h);
  }

  lemma {:induction false} InterleavedAt<A>(xs: seq<A>, ys: seq<A>)
    requires |xs| == |ys|
    ensures var zs := Interleaved(xs, ys);
            && |zs| == 2 * |xs|
            && forall i :: 0 <= i < |zs| ==> zs[i] == if i % 2 == 0 then xs[i / 2] else ys[i / 2]
    decreases |xs|
  {
    if xs != [] {
      InterleavedAt(xs[1..], ys[1..]);
      var (rest, zs) := (Interleaved(xs[1..], ys[1..]), Interleaved(xs, ys));
      forall i | 0 <= i < |zs|
        ensures zs[i] == if i % 2 == 0 then xs[i / 2] else ys[i / 2]
      {
        if i >= 2 {
          assert zs[i] == rest[i - 2] && (i - 2) / 2 == i / 2 - 1;
        }
      }
    }
  }

  lemma {:induction false} TerminatedEnds(parts: seq<string>, end: char)
    requires parts != [] && parts[0] != [] && parts[|parts| - 1] != []
    ensures var (t, last) := (Terminated(parts, end), parts[|parts| - 1]);
            && |t| >= 2 && t[0] == parts[0][0] && t[|t| - 1] == end && t[|t| - 2] == last[|last| - 1]
    decreases |parts|
  {
    if |parts| == 1 {
      assert parts[1..] == [];
    } else if parts[1] != [] {
      TerminatedEnds(parts[1..], end);
    } else {
      TerminatedTail(parts[1..], end);
    }
  }

  lemma {:induction false} TerminatedTail(parts: seq<string>, end: char)
    requires parts != [] && parts[|parts| - 1] != []
    ensures var (t, last) := (Terminated(parts, end), parts[|parts| - 1]);
            |t| >= 2 && t[|t| - 1] == end && t[|t| - 2] == last[|last| - 1]
    decreases |parts|
  {
    if |parts| == 1 {
      assert parts[1..] == [];
    } else {
      TerminatedTail(parts[1..], end);
    }
  }

  /** Lines that are written by turns, without newlines, the first not starting with a space and the last not
      ending with one, are read back. */
  lemma LinesReadBack(xs: seq<string>, ys: seq<string>)
    requires |xs| == |ys| > 0 && Free(xs, '\n') && Free(ys, '\n')
    requires xs[0] != [] && !IsSpace(xs[0][0])
    requires var y := ys[|ys| - 1]; y != [] && !IsSpace(y[|y| - 1])
    ensures Split(Trim(Terminated(Interleaved(xs, ys), '\n')), '\n') == Interleaved(xs, ys)
  {
    var parts := Interleaved(xs, ys);
    InterleavedAt(xs, ys);
    assert parts[0] == xs[0] && parts[|parts| - 1] == ys[|ys| - 1];
    TerminatedEnds(parts, '\n');
    var t := Terminated(parts, '\n');
    var s := t[..|t| - 1];
    assert t == s + ['\n'];
    TrimNewline(s);
    SplitJoined(parts, '\n');
  }

  ghost predicate AllPlain(labels: seq<seq<string>>) {
    forall i :: 0 <= i < |labels| ==> PlainLabels(labels[i])
  }

  lemma ReadBack(dataPath: string, hs: seq<Hash>, labels: seq<seq<string>>)
    requires |labels| == |hs| > 0 && AllPlain(labels) && Readable(dataPath)
    ensures Split(Trim(MessageOf(dataPath, hs, labels)), '\n') == Interleaved(Paths(dataPath, hs), LabelStrings(labels))
  {
    var (xs, ys) := (Paths(dataPath, hs), LabelStrings(labels));
    MessageIsLines(dataPath, hs, labels);
    forall i | 0 <= i < |hs|
      ensures xs[i] != [] && '\n' !in xs[i] && !IsSpace(xs[i][0])
    {
      PathShape(dataPath, hs[i]);
    }
    forall i | 0 <= i < |hs|
      ensures ys[i] != [] && '\n' !in ys[i] && ys[i][|ys[i]| - 1] == '.'
    {
      LabelStringShape(labels[i]);
    }
    LinesReadBack(xs, ys);
  }

  /** A path that is read back was readable. */
  lemma OnlyReadable(dataPath: string, h: Hash, message: string)
    requires Split(Trim(message), '\n')[0] == CastPath(dataPath, h)
    ensures Readable(dataPath)
  {
    SplitFree(Trim(message), '\n');
    SplitHead(Trim(message), '\n');
    TrimLeftHead(TrimRight(message));
    PathShape(dataPath, h);
  }

  lemma ShownFromLines(model: Model, message: string, xs: seq<string>, ys: seq<string>)
    requires |xs| == |ys| && Split(Trim(message), '\n') == Interleaved(xs, ys)
    ensures ListCasts(model, message).0.casts == xs && ListCasts(model, message).0.labels == ys
  {
    OddAndEven(xs, ys, 1);
  }

  lemma FirstShown(model: Model, message: string)
    ensures var casts := ListCasts(model, message).0.casts; casts != [] && casts[0] == Split(Trim(message), '\n')[0]
  {
  }

  /** For every listing that is not empty: what the interface shows is exactly the server's paths and label strings,
      paired in order, if and only if the cleaned data path has no newline in it and does not start with a space. */
  lemma ListingReadBackIff(dataPath: string, hs: seq<Hash>, labels: seq<seq<string>>, model: Model)
    requires |labels| == |hs| > 0 && AllPlain(labels)
    ensures var shown := ListCasts(model, MessageOf(dataPath, hs, labels)).0;
            && (shown.casts == Paths(dataPath, hs) && shown.labels == LabelStrings(labels) <==> Readable(dataPath))
            && (shown.casts == Paths(dataPath, hs) ==> Readable(dataPath))
  {
    var message := MessageOf(dataPath, hs, labels);
    if Readable(dataPath) {
      ReadBack(dataPath, hs, labels);
      ShownFromLines(model, message, Paths(dataPath, hs), LabelStrings(labels));
    } else if ListCasts(model, message).0.casts == Paths(dataPath, hs) {
      FirstShown(model, message);
      OnlyReadable(dataPath, hs[0], message);
    }
  }

  /** It is the cleaned path that counts: for a name that starts with a space, the space that cleaning uncovers in
      `./name` is lost, and the one that it takes away in `name/../other` does no harm. */
  lemma CleaningCounts(name: string, other: string)
    requires IsName(name) && IsSpace(name[0]) && IsName(other) && '\n' !in other && !IsSpace(other[0])
    ensures !Readable("." + ['/'] + name) && Readable(name + ['/'] + ".." + ['/'] + other)
  {
    PrefixOfDot(name, "." + ['/'] + name);
    PrefixOfUp(name, other, name + ['/'] + ".." + ['/'] + other);
    assert (name + "/")[0] == name[0] && (other + "/")[0] == other[0];
  }

  /** A label string split at the dots gives its labels back. */
  lemma LabelsReadBack(labels: seq<string>)
    requires PlainLabels(labels)
    ensures Split(Terminated(labels, '.'), '.') == labels + [""]
  {
    assert Free(labels, '.');
    SplitTerminated(labels, '.');
  }

  /** The empty listing is shown as one cast without a name. */
  lemma EmptyListing(model: Model)
    ensures ListCasts(model, "").0.casts == [""]
  {
    assert Split("", '\n') == [""];
    assert [""][1..] == [];
  }

  /** The interface after a run of list messages, and what it told the player to show. */
  function ListAll(model: Model, messages: seq<string>): (Model, seq<string>) {
    if messages == [] then (model, [])
    else
      var (before, told) := ListAll(model, messages[..|messages| - 1]);
      var (after, command) := ListCasts(before, messages[|messages| - 1]);
      (after, told + if command.Some? then [command.value] else [])
  }

  /** The first line of the first message that has a first line. */
  function FirstNamed(messages: seq<string>): string {
    if messages == [] then ""
    else
      var before := FirstNamed(messages[..|messages| - 1]);
      if before != "" then before else Split(Trim(messages[|messages| - 1]), '\n')[0]
  }

  /** However often the list changes, the player is told at most once to show a cast that has a name: the first cast of
      the first list that has one. That one stays chosen; whatever it was told before had no name. */
  lemma {:induction false} ChosenOnce(model: Model, messages: seq<string>) returns (unnamed: nat)
    requires model.cast == ""
    ensures var (after, told) := ListAll(model, messages);
            && after.cast == FirstNamed(messages)
            && told == seq(unnamed, _ => "") + if after.cast == "" then [] else [after.cast]
    decreases |messages|
  {
    if messages == [] {
      unnamed := 0;
    } else {
      unnamed := ChosenOnce(model, messages[..|messages| - 1]);
      var (before, told) := ListAll(model, messages[..|messages| - 1]);
      FirstShown(before, messages[|messages| - 1]);
      if before.cast == "" && ListCasts(before, messages[|messages| - 1]).0.cast == "" {
        assert seq(unnamed, _ => "") + [""] == seq(unnamed + 1, _ => "");
        unnamed := unnamed + 1;
      }
    }
  }

  /** What the interface should show for these sessions. */
  ghost predicate ShowsSessions(cfg: Config, events: seq<Event>, hs: seq<Hash>, shown: Model)
    requires forall i :: 0 <= i < |hs| ==> Arrivals(cfg, events, hs[i]) != []
  {
    && shown.casts == Paths(cfg.dataPath, hs)
    && |shown.labels| == |hs|
    && forall i {:trigger shown.labels[i]} :: 0 <= i < |hs| ==>
         NamesItsPod(Split(shown.labels[i], '.'), Arrivals(cfg, events, hs[i])[0])
  }

  /** The parts of a label string: namespace, pod, container and host, without their other characters, and an empty
      part. */
  predicate NamesItsPod(parts: seq<string>, w: TtyWrite) {
    && |parts| == 5 && parts[0] == Sanitized(w.podNamespace) && parts[1] == Sanitized(w.podName)
    && parts[2] == Sanitized(w.containerName) && parts[3] == Sanitized(w.hostname) && parts[4] == ""
  }

  lemma FirstLabelsPlain(cfg: Config, events: seq<Event>, hs: seq<Hash>)
    requires forall i :: 0 <= i < |hs| ==> Arrivals(cfg, events, hs[i]) != []
    ensures AllPlain(FirstLabels(cfg, events, hs))
  {
  }

  lemma FirstLabelsName(cfg: Config, events: seq<Event>, hs: seq<Hash>)
    requires forall i :: 0 <= i < |hs| ==> Arrivals(cfg, events, hs[i]) != []
    ensures forall i {:trigger FirstLabels(cfg, events, hs)[i]} :: 0 <= i < |hs| ==>
              NamesItsPod(FirstLabels(cfg, events, hs)[i] + [""], Arrivals(cfg, events, hs[i])[0])
  {
  }

  lemma LabelStringsReadBack(labels: seq<seq<string>>)
    requires AllPlain(labels)
    ensures forall i :: 0 <= i < |labels| ==> Split(LabelStrings(labels)[i], '.') == labels[i] + [""]
  {
    forall i | 0 <= i < |labels|
      ensures Split(LabelStrings(labels)[i], '.') == labels[i] + [""]
    {
      LabelsReadBack(labels[i]);
    }
  }

  /** What comes of a message about these sessions, which are those that were recorded: nothing but a cast without a
      name if there are none, and otherwise all of them exactly when the data path can be read back. */
  ghost predicate Listed(cfg: Config, events: seq<Event>, hs: seq<Hash>, message: string, model: Model)
    requires Sessions(cfg, events, hs)
  {
    var shown := ListCasts(model, message).0;
    if hs == [] then shown.casts == [""] else ShowsSessions(cfg, events, hs, shown) <==> Readable(cfg.dataPath)
  }

  lemma SessionsAreListed(cfg: Config, events: seq<Event>, hs: seq<Hash>, model: Model)
    requires Sessions(cfg, events, hs)
    ensures Listed(cfg, events, hs, MessageOf(cfg.dataPath, hs, FirstLabels(cfg, events, hs)), model)
  {
    if hs == [] {
      EmptyListing(model);
    } else {
      var labels := FirstLabels(cfg, events, hs);
      FirstLabelsPlain(cfg, events, hs);
      LabelStringsReadBack(labels);
      ListingReadBackIff(cfg.dataPath, hs, labels, model);
      FirstLabelsName(cfg, events, hs);
    }
  }

  /** What a list handler sends, and what it remembers after that, for these sessions. */
  ghost predicate ListsFound(
    cfg: Config, disk: Disk, events: seq<Event>, cache: Cache, names: seq<string>, hs: seq<Hash>, model: Model)
    requires Sessions(cfg, events, hs)
  {
    var told := Told(disk, cache, PathsOf(cfg.dataPath, names));
    told.Done? && CacheAgrees(disk, told.value.1) && Listed(cfg, events, hs, told.value.0, model)
  }

  lemma SessionsAreFound(
    cfg: Config, disk: Disk, events: seq<Event>, cache: Cache, names: seq<string>, hs: seq<Hash>, model: Model)
    requires Sessions(cfg, events, hs)
    requires Tells(disk, cache, PathsOf(cfg.dataPath, names), MessageOf(cfg.dataPath, hs, FirstLabels(cfg, events, hs)))
    ensures ListsFound(cfg, disk, events, cache, names, hs, model)
  {
    SessionsAreListed(cfg, events, hs, model);
  }

  lemma RecordIsListed(cfg: Config, disk: Disk, events: seq<Event>, cache: Cache, names: seq<string>, model: Model)
    returns (hs: seq<Hash>)
    requires Recorded(cfg, disk, events) && FilesOfSessions(cfg, disk, events)
    requires CacheAgrees(disk, cache) && Found(disk, names)
    ensures Sessions(cfg, events, hs) && ListsFound(cfg, disk, events, cache, names, hs, model)
  {
    hs := MessageOfRecord(cfg, disk, events, cache, names);
    SessionsAreFound(cfg, disk, events, cache, names, hs, model);
  }

  /** From the terminal to the screen: after any run of the recorder with one live writer per session, and whatever a
      list handler remembers, the message about the files found is sent, and is a listing of the sessions that writes
      have come for, each once, by its file and with the labels of its first write. */
  lemma RunIsListed(cfg: Config, events: seq<Event>, s: State, cache: Cache, names: seq<string>, model: Model)
    returns (hs: seq<Hash>)
    requires OneWriter(cfg, events) && (Run(cfg, START, events).Done? ==> s == Run(cfg, START, events).value)
    requires CacheAgrees(s.disk, cache) && PatternFree(cfg.dataPath) && Found(s.disk, names)
    ensures Run(cfg, START, events).Done? && Sessions(cfg, events, hs)
    ensures ListsFound(cfg, s.disk, events, cache, names, hs, model)
  {
    OneWriterRecords(cfg, events);
    FilesThereAre(cfg, events);
    hs := RecordIsListed(cfg, s.disk, events, cache, names, model);
  }
}
