/** The files the list handler finds: Go's `filepath.Glob` over the data directory, and the paths it gives them. */
module Globbing {
  import opened Text
  import opened Recording

  // ---------------------------------------------------------------- cleaned paths

  /** One more component of a path, after those that are left of the ones before it. */
  function Descend(rooted: bool, at: seq<string>, part: string): seq<string> {
    if part == "" || part == "." then at
    else if part != ".." then at + [part]
    else if at != [] && at[|at| - 1] != ".." then at[..|at| - 1]
    else if rooted then at
    else at + [".."]
  }

  predicate IsName(part: string) {
    part != "" && part != "." && part != ".." && '/' !in part
  }

  /** What is left of a path's components. */
  function Components(rooted: bool, parts: seq<string>): seq<string> {
    if parts == [] then []
    else Descend(rooted, Components(rooted, parts[..|parts| - 1]), parts[|parts| - 1])
  }

  predicate Rooted(path: string) {
    path != "" && path[0] == '/'
  }

  /** `filepath.Clean`. */
  function Clean(path: string): string {
    var components := Components(Rooted(path), Split(path, '/'));
    if Rooted(path) then "/" + Joined(components, '/')
    else if components == [] then "."
    else Joined(components, '/')
  }

  /** The directory in which `Glob` looks for a pattern below the data path. */
  function Directory(dataPath: string): (dir: string)
    ensures dir != ""
  {
    if dataPath == "" then "/" else dataPath
  }

  /** `filepath.Join` of that directory and a name in it. */
  function PathOf(dataPath: string, name: string): string {
    Clean(Directory(dataPath) + "/" + name)
  }

  /** What the paths of the files start with. */
  function Prefix(dataPath: string): string {
    var dir := Directory(dataPath);
    (if Rooted(dir) then "/" else "") + Terminated(Components(Rooted(dir), Split(dir, '/')), '/')
  }

  lemma {:induction false} JoinedLast(parts: seq<string>, last: string, sep: char)
    ensures Joined(parts + [last], sep) == Terminated(parts, sep) + last
    decreases |parts|
  {
    if parts == [] {
      assert parts + [last] == [last];
    } else {
      assert (parts + [last])[1..] == parts[1..] + [last];
      JoinedLast(parts[1..], last, sep);
    }
  }

  lemma {:induction false} SplitLast(a: string, b: string, sep: char)
    requires sep !in b
    ensures Split(a + [sep] + b, sep) == Split(a, sep) + [b]
    decreases |a|
  {
    var s := a + [sep] + b;
    if a == [] {
      SplitPart(b, sep);
      assert s[1..] == b;
    } else {
      assert s[1..] == a[1..] + [sep] + b;
      SplitLast(a[1..], b, sep);
    }
  }

  lemma LastComponent(rooted: bool, parts: seq<string>, name: string)
    requires IsName(name)
    ensures Components(rooted, parts + [name]) == Components(rooted, parts) + [name]
  {
    assert (parts + [name])[..|parts|] == parts;
  }

  /** The path of a file is its name behind a prefix that is the same for all files. */
  lemma PathBehindPrefix(dataPath: string, name: string)
    requires IsName(name)
    ensures PathOf(dataPath, name) == Prefix(dataPath) + name
  {
    var dir := Directory(dataPath);
    var path := dir + ['/'] + name;
    var components := Components(Rooted(dir), Split(dir, '/'));
    assert Rooted(path) == Rooted(dir) && path == dir + "/" + name;
    SplitLast(dir, name, '/');
    LastComponent(Rooted(dir), Split(dir, '/'), name);
    JoinedLast(components, name, '/');
  }

  /** The prefix is empty or ends in a slash. */
  lemma PrefixEnds(dataPath: string)
    ensures Prefix(dataPath) == "" || exists dir :: Prefix(dataPath) == dir + ['/']
  {
    var dir := Directory(dataPath);
    var components := Components(Rooted(dir), Split(dir, '/'));
    if components == [] {
      assert Rooted(dir) ==> Prefix(dataPath) == "" + ['/'];
    } else {
      var t := Terminated(components, '/');
      TerminatedEnd(components, '/');
      var p := Prefix(dataPath);
      assert p == p[..|p| - 1] + ['/'];
    }
  }

  lemma {:induction false} TerminatedEnd(parts: seq<string>, end: char)
    requires parts != []
    ensures var t := Terminated(parts, end); t != [] && t[|t| - 1] == end
    decreases |parts|
  {
    if |parts| > 1 {
      TerminatedEnd(parts[1..], end);
    }
  }

  /** What is left of a path: names, and in front of them, unless the path is rooted, steps up. */
  ghost predicate Canonical(rooted: bool, components: seq<string>) {
    forall i :: 0 <= i < |components| ==>
      components[i] != "" && components[i] != "." &&
      (components[i] == ".." ==> !rooted && forall j :: 0 <= j < i ==> components[j] == "..")
  }

  lemma {:induction false} ComponentsCanonical(rooted: bool, parts: seq<string>)
    ensures Canonical(rooted, Components(rooted, parts))
    decreases |parts|
  {
    if parts != [] {
      ComponentsCanonical(rooted, parts[..|parts| - 1]);
      DescendCanonical(rooted, Components(rooted, parts[..|parts| - 1]), parts[|parts| - 1]);
    }
  }

  lemma DescendCanonical(rooted: bool, at: seq<string>, part: string)
    requires Canonical(rooted, at)
    ensures Canonical(rooted, Descend(rooted, at, part))
  {
    if part == ".." && at != [] && at[|at| - 1] == ".." {
      assert forall j :: 0 <= j < |at| ==> at[j] == "..";
    }
  }

  lemma DotComponent(rooted: bool, parts: seq<string>)
    ensures Components(rooted, parts + ["."]) == Components(rooted, parts)
  {
    assert (parts + ["."])[..|parts|] == parts;
  }

  lemma UpComponent(rooted: bool, parts: seq<string>, name: string)
    requires IsName(name)
    ensures Components(rooted, parts + [name] + [".."]) == Components(rooted, parts)
  {
    LastComponent(rooted, parts, name);
    assert (parts + [name] + [".."])[..|parts| + 1] == parts + [name];
  }

  lemma OnePart(name: string)
    ensures Terminated([name], '/') == name + "/"
  {
    assert [name][1..] == [];
  }

  lemma PrefixOfParts(path: string, parts: seq<string>, name: string)
    requires path != "" && path[0] != '/' && IsName(name) && Split(path, '/') == parts + [name]
    requires Components(false, parts) == []
    ensures Prefix(path) == name + "/"
  {
    LastComponent(false, parts, name);
    assert [] + [name] == [name];
    OnePart(name);
  }

  /** A dot in front is taken away. */
  lemma PrefixOfDot(name: string, path: string)
    requires IsName(name) && path == "." + ['/'] + name
    ensures Prefix(path) == name + "/"
  {
    SplitLast(".", name, '/');
    SplitPart(".", '/');
    DotComponent(false, []);
    assert [] + ["."] == ["."];
    PrefixOfParts(path, ["."], name);
  }

  /** So is a name that two dots lead back from. */
  lemma PrefixOfUp(up: string, name: string, path: string)
    requires IsName(up) && IsName(name) && path == up + ['/'] + ".." + ['/'] + name
    ensures Prefix(path) == name + "/"
  {
    var front := up + ['/'] + "..";
    SplitLast(front, name, '/');
    SplitLast(up, "..", '/');
    SplitPart(up, '/');
    UpComponent(false, [], up);
    assert [] + [up] + [".."] == [up] + [".."];
    assert path[0] == up[0] && up[0] in up;
    PrefixOfParts(path, [up] + [".."], name);
  }

  // ---------------------------------------------------------------- sorted names

  /** Go's order of strings. */
  predicate Before(a: string, b: string) {
    if b == [] then false
    else if a == [] then true
    else a[0] < b[0] || (a[0] == b[0] && Before(a[1..], b[1..]))
  }

  lemma {:induction false} BeforeTransitive(a: string, b: string, c: string)
    requires Before(a, b) && Before(b, c)
    ensures Before(a, c)
    decreases |a|
  {
    if a != [] && a[0] == b[0] == c[0] {
      BeforeTransitive(a[1..], b[1..], c[1..]);
    }
  }

  lemma {:induction false} BeforeTotal(a: string, b: string)
    ensures Before(a, b) <==> !(Before(b, a) || a == b)
    decreases |a|
  {
    if a != [] && b != [] && a[0] == b[0] {
      BeforeTotal(a[1..], b[1..]);
      assert a == [a[0]] + a[1..] && b == [b[0]] + b[1..];
    }
  }

  /** Where two strings first differ, the smaller one has the smaller character or has ended. */
  lemma {:induction false} BeforeIff(a: string, b: string)
    ensures Before(a, b) <==>
            exists n: nat :: n <= |a| && n < |b| && a[..n] == b[..n] && (n == |a| || a[n] < b[n])
    decreases |a|
  {
    if a == [] {
      assert b != [] ==> a[..0] == b[..0];
    } else if b != [] {
      BeforeIff(a[1..], b[1..]);
      assert a == [a[0]] + a[1..] && b == [b[0]] + b[1..];
      if a[0] == b[0] && Before(a[1..], b[1..]) {
        var n: nat :| n <= |a[1..]| && n < |b[1..]| && a[1..][..n] == b[1..][..n] && (n == |a[1..]| || a[1..][n] < b[1..][n]);
        assert a[..n + 1] == [a[0]] + a[1..][..n] && b[..n + 1] == [b[0]] + b[1..][..n];
      } else if a[0] < b[0] {
        assert a[..0] == b[..0];
      }
      if n: nat :| n <= |a| && n < |b| && a[..n] == b[..n] && (n == |a| || a[n] < b[n]) {
        if n > 0 {
          assert a[..n][0] == b[..n][0];
          assert a[1..][..n - 1] == a[..n][1..] && b[1..][..n - 1] == b[..n][1..];
        }
      }
    }
  }

  predicate Ascending(names: seq<string>) {
    forall i, j {:trigger names[i], names[j]} :: 0 <= i < j < |names| ==> Before(names[i], names[j])
  }

  /** A name put in its place. */
  function Inserted(names: seq<string>, x: string): seq<string> {
    if names == [] then [x]
    else if Before(x, names[0]) then [x] + names
    else [names[0]] + Inserted(names[1..], x)
  }

  lemma AscendingFront(x: string, names: seq<string>)
    requires Ascending(names) && forall n :: n in names ==> Before(x, n)
    ensures Ascending([x] + names)
  {
    var all := [x] + names;
    forall i, j | 0 <= i < j < |all|
      ensures Before(all[i], all[j])
    {
      assert all[j] == names[j - 1];
      if i > 0 {
        assert all[i] == names[i - 1];
      }
    }
  }

  lemma {:induction false} InsertedAscends(names: seq<string>, x: string)
    requires Ascending(names) && x !in names
    ensures Ascending(Inserted(names, x))
    ensures forall n :: n in Inserted(names, x) <==> n in names || n == x
    decreases |names|
  {
    if names == [] {
      assert Inserted(names, x) == [x];
    } else {
      var (first, rest) := (names[0], names[1..]);
      assert names == [first] + rest;
      assert forall n :: n in rest ==> Before(first, n);
      if Before(x, first) {
        forall n | n in rest
          ensures Before(x, n)
        {
          BeforeTransitive(x, first, n);
        }
        AscendingFront(x, names);
      } else {
        BeforeTotal(x, first);
        InsertedAscends(rest, x);
        AscendingFront(first, Inserted(rest, x));
      }
    }
  }

  lemma SameHead(xs: seq<string>, ys: seq<string>)
    requires Ascending(xs) && Ascending(ys) && xs != [] && ys != []
    requires forall n :: n in xs <==> n in ys
    ensures xs[0] == ys[0]
  {
    BeforeTotal(xs[0], ys[0]);
    BeforeTotal(ys[0], xs[0]);
    assert xs[0] in ys && ys[0] in xs;
    var i :| 0 <= i < |xs| && xs[i] == ys[0];
    var j :| 0 <= j < |ys| && ys[j] == xs[0];
  }

  lemma HeadOnce(xs: seq<string>)
    requires Ascending(xs) && xs != []
    ensures Ascending(xs[1..]) && forall n :: n in xs[1..] <==> n in xs && n != xs[0]
  {
    BeforeTotal(xs[0], xs[0]);
    assert xs == [xs[0]] + xs[1..];
  }

  /** There is only one way to put names in order. */
  lemma {:induction false} AscendingUnique(xs: seq<string>, ys: seq<string>)
    requires Ascending(xs) && Ascending(ys) && forall n :: n in xs <==> n in ys
    ensures xs == ys
    decreases |xs|
  {
    assert (xs != [] ==> xs[0] in ys) && (ys != [] ==> ys[0] in xs);
    if xs != [] {
      SameHead(xs, ys);
      HeadOnce(xs);
      HeadOnce(ys);
      AscendingUnique(xs[1..], ys[1..]);
      assert xs == [xs[0]] + xs[1..] && ys == [ys[0]] + ys[1..];
    }
  }

  // ---------------------------------------------------------------- the files found

  /** `*.cast`. */
  predicate Matches(name: string) {
    |name| >= 5 && name[|name| - 5..] == ".cast" && '/' !in name
  }

  /** A data path that `Glob` takes as it is. */
  predicate PatternFree(dataPath: string) {
    '*' !in dataPath && '?' !in dataPath && '[' !in dataPath && '\\' !in dataPath
  }

  /** The names found: all that match, in order, each once. */
  ghost predicate Found(disk: Disk, names: seq<string>) {
    Ascending(names) && forall n :: n in names <==> n in disk && Matches(n)
  }

  /** What is found is determined by the files there are. */
  lemma FoundUnique(disk: Disk, names: seq<string>, names': seq<string>)
    requires Found(disk, names) && Found(disk, names')
    ensures names == names'
  {
    AscendingUnique(names, names');
  }

  function PathsOf(dataPath: string, names: seq<string>): seq<string> {
    seq(|names|, i requires 0 <= i < |names| => PathOf(dataPath, names[i]))
  }

  /** `Readdirnames` in whatever order, and `sort.Strings`. */
  method SortedNames(disk: Disk) returns (names: seq<string>)
    ensures Ascending(names) && forall n :: n in names <==> n in disk
  {
    names := [];
    var left := disk.Keys;
    while left != {}
      invariant left <= disk.Keys && Ascending(names)
      invariant forall n :: n in names <==> n in disk && n !in left
      decreases |left|
    {
      var n :| n in left;
      InsertedAscends(names, n);
      names := Inserted(names, n);
      left := left - {n};
    }
  }

  lemma AscendingLast(names: seq<string>, x: string)
    requires Ascending(names) && forall n :: n in names ==> Before(n, x)
    ensures Ascending(names + [x])
  {
    var all := names + [x];
    forall i, j | 0 <= i < j < |all|
      ensures Before(all[i], all[j])
    {
      assert all[i] == names[i];
      if j < |names| {
        assert all[j] == names[j];
      }
    }
  }

  /** `filepath.Glob` for the names that match in the data path. */
  method Glob(dataPath: string, disk: Disk) returns (files: seq<string>)
    requires PatternFree(dataPath)
    ensures exists names :: Found(disk, names) && files == PathsOf(dataPath, names)
  {
    var names := SortedNames(disk);
    ghost var found: seq<string> := [];
    files := [];
    for i := 0 to |names|
      invariant Ascending(found) && files == PathsOf(dataPath, found)
      invariant forall n :: n in found <==> n in names[..i] && Matches(n)
    {
      if Matches(names[i]) {
        assert forall n :: n in names[..i] ==> Before(n, names[i]);
        AscendingLast(found, names[i]);
        files, found := files + [PathOf(dataPath, names[i])], found + [names[i]];
      }
      assert names[..i + 1] == names[..i] + [names[i]];
    }
    assert names[..|names|] == names;
    assert Found(disk, found);
  }
}
