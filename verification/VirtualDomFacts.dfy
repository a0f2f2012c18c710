/** Attribute facts: how they are collected, compared and applied.

    The objects that hold them inherit from `Object.prototype`, and JavaScript's `in` sees inherited names. */
module VirtualDomFacts {
  import opened Basics

  /** The `ATTR` part of a node's facts: attribute names and values; absent when no attribute was given. */
  type Facts = Option<map<string, string>>

  function Attrs(f: Facts): map<string, string> {
    if f.Some? then f.value else map[]
  }

  /** The names `diffFacts` takes for categories of facts. */
  predicate Category(k: string) {
    k == "STYLE" || k == "EVENT" || k == "ATTR" || k == "ATTR_NS"
  }

  /** The names every object has from `Object.prototype`. */
  predicate Inherited(k: string) {
    || k == "constructor" || k == "hasOwnProperty" || k == "isPrototypeOf" || k == "propertyIsEnumerable"
    || k == "toLocaleString" || k == "toString" || k == "valueOf" || k == "__proto__"
    || k == "__defineGetter__" || k == "__defineSetter__" || k == "__lookupGetter__" || k == "__lookupSetter__"
  }

  /** `k in m`. */
  predicate In(k: string, m: map<string, string>) {
    k in m || Inherited(k)
  }

  /** What an attribute becomes when it is set to an inherited method, and when it is set to an object. */
  function InheritedText(k: string): string {
    if k == "__proto__" then OBJECT_TEXT
    else "function " + (if k == "constructor" then "Object" else k) + "() { [native code] }"
  }

  const OBJECT_TEXT := "[object Object]"

  // ---------------------------------------------------------------- collecting

  /** The attributes of a list, the last value of each name; a string cannot be set as `__proto__`. */
  function Collected(list: seq<(string, string)>): map<string, string> {
    if list == [] then map[]
    else
      var (before, (k, v)) := (Collected(list[..|list| - 1]), list[|list| - 1]);
      if k == "__proto__" then before else before[k := v]
  }

  /** `organizeFacts` on a list of attributes. */
  method OrganizeFacts(list: seq<(string, string)>) returns (facts: Facts)
    ensures facts == if list == [] then None else Some(Collected(list))
    ensures "__proto__" !in Attrs(facts)
    ensures forall k, v :: (k, v) in list && k != "__proto__" ==> k in Attrs(facts)
  {
    facts := None;
    for i := 0 to |list|
      invariant facts == if i == 0 then None else Some(Collected(list[..i]))
      invariant "__proto__" !in Attrs(facts)
      invariant forall k, v :: (k, v) in list[..i] && k != "__proto__" ==> k in Attrs(facts)
    {
      var subFacts := if facts.Some? then facts.value else map[];
      var (k, v) := list[i];
      assert list[..i + 1][..i] == list[..i];
      assert list[..i + 1] == list[..i] + [list[i]];
      if k != "__proto__" {
        subFacts := subFacts[k := v];
      }
      facts := Some(subFacts);
    }
    assert list[..|list|] == list;
  }

  /** The `i`-th entry is the last one for this name. */
  predicate LastFor(list: seq<(string, string)>, k: string, i: nat) {
    i < |list| && list[i].0 == k && forall j :: i < j < |list| ==> list[j].0 != k
  }

  /** Each name has the value it was given last. */
  lemma {:induction false} LastValueCounts(list: seq<(string, string)>, k: string)
    ensures k in Collected(list) <==> k != "__proto__" && exists i :: 0 <= i < |list| && list[i].0 == k
    ensures forall i: nat :: LastFor(list, k, i) && k in Collected(list) ==> Collected(list)[k] == list[i].1
    decreases |list|
  {
    if list != [] {
      var (front, last) := (list[..|list| - 1], list[|list| - 1]);
      LastValueCounts(front, k);
      assert list == front + [last];
      if last.0 != k {
        assert forall i :: 0 <= i < |front| ==> front[i] == list[i];
        assert forall i: nat :: LastFor(list, k, i) ==> LastFor(front, k, i);
      }
    }
  }

  // ---------------------------------------------------------------- comparing

  /** A change to an element's attributes: a new value, or `undefined` for a removal. */
  type AttrDiff = map<string, Option<string>>

  /** A category name in both objects is compared as if its two values were objects, which throws unless the new
      value is empty. */
  predicate AttrsThrow(a: map<string, string>, b: map<string, string>) {
    exists k :: k in a && Category(k) && k in b && b[k] != ""
  }

  /** What `diffFacts` enters for one name, if anything, when it does not throw. */
  function NameDiff(a: map<string, string>, b: map<string, string>, k: string): Option<Option<string>> {
    if k in a then
      if Category(k) then (if a[k] == "" then None else Some(Some(OBJECT_TEXT)))
      else if !In(k, b) then Some(None)
      else if k !in b then Some(Some(InheritedText(k)))
      else if a[k] == b[k] && k != "value" then None
      else Some(Some(b[k]))
    else if k in b && !In(k, a) then Some(Some(b[k]))
    else None
  }

  function NameDiffs(a: map<string, string>, b: map<string, string>): AttrDiff {
    map k | k in a.Keys + b.Keys && NameDiff(a, b, k).Some? :: NameDiff(a, b, k).value
  }

  /** `diffFacts` inside the `ATTR` category. */
  function DiffAttrs(a: map<string, string>, b: map<string, string>): Outcome<AttrDiff> {
    if AttrsThrow(a, b) then Crash else Done(NameDiffs(a, b))
  }

  /** `diffFacts` on whole facts: without an old attribute object the new one is taken as it is. */
  function DiffFacts(a: Facts, b: Facts): Outcome<Option<AttrDiff>> {
    if a.Some? then
      var sub :- DiffAttrs(a.value, Attrs(b));
      Done(if sub == map[] then None else Some(sub))
    else if b.Some? then Done(Some(map k | k in b.value :: Some(b.value[k])))
    else Done(None)
  }

  /** `applyAttrs`: set every attribute with a value, remove every one without. */
  function ApplyAttrs(attrs: map<string, string>, d: AttrDiff): map<string, string> {
    map k | k in attrs.Keys + d.Keys && (k in d ==> d[k].Some?) :: if k in d then d[k].value else attrs[k]
  }

  /** The attributes after the diff of two facts has been applied to those of the first. */
  function Patched(a: Facts, b: Facts): map<string, string> {
    match DiffFacts(a, b)
    case Done(Some(diff)) => ApplyAttrs(Attrs(a), diff)
    case _ => Attrs(a)
  }

  // ---------------------------------------------------------------- the loops

  /** `diffFacts` on two strings, where the second stands for an object if it is empty: whether there is a difference.
      A loop over a string goes through its positions, and `in` throws on a string. */
  method DiffStrings(a: string, b: string) returns (r: Outcome<bool>)
    ensures r == if b != "" then Crash else Done(a != "")
  {
    var differ := false;
    for i := 0 to |a|
      invariant differ <==> i > 0
      invariant i > 0 ==> b == ""
    {
      if b != "" {
        return Crash;
      }
      differ := true;
    }
    if b != "" {
      return Crash;
    }
    return Done(differ);
  }

  /** `diff` is what `goal` holds for the names in `names`. */
  ghost predicate DiffedFor(diff: AttrDiff, goal: AttrDiff, names: set<string>) {
    forall k :: (k in diff <==> k in goal && k in names) && (k in diff ==> diff[k] == goal[k])
  }

  lemma DiffedMore(diff: AttrDiff, goal: AttrDiff, names: set<string>, k: string)
    requires DiffedFor(diff, goal, names)
    ensures DiffedFor(if k in goal then diff[k := goal[k]] else diff, goal, names + {k})
  {
  }

  lemma DiffedAll(diff: AttrDiff, a: map<string, string>, b: map<string, string>)
    requires DiffedFor(diff, NameDiffs(a, b), a.Keys + b.Keys)
    ensures diff == NameDiffs(a, b)
  {
  }

  lemma OneMore<T>(keys: set<T>, todo: set<T>, k: T, others: set<T>)
    requires k in todo && k in keys
    ensures others + (keys - (todo - {k})) == others + (keys - todo) + {k}
  {
  }

  /** One turn of the first loop, for a name of the old object. */
  method DiffOldName(a: map<string, string>, b: map<string, string>, k: string, diff: AttrDiff)
    returns (r: Outcome<AttrDiff>)
    requires k in a
    ensures r.Crash? <==> Category(k) && k in b && b[k] != ""
    ensures r.Done? ==> r.value == match NameDiff(a, b, k) case None => diff case Some(c) => diff[k := c]
  {
    if Category(k) {
      var sub :- DiffStrings(a[k], if k in b then b[k] else "");
      return Done(if sub then diff[k := Some(OBJECT_TEXT)] else diff);
    }
    if !In(k, b) {
      return Done(diff[k := None]);
    }
    var bValue := if k in b then b[k] else InheritedText(k);
    if k in b && a[k] == bValue && k != "value" {
      return Done(diff);
    }
    return Done(diff[k := Some(bValue)]);
  }

  /** `diffFacts` within one category: a loop over the old names, then a loop over the new ones. */
  method DiffAttrsLoop(a: map<string, string>, b: map<string, string>) returns (r: Outcome<AttrDiff>)
    ensures r == DiffAttrs(a, b)
  {
    ghost var goal := NameDiffs(a, b);
    var diff: AttrDiff := map[];
    var todo := a.Keys;
    while todo != {}
      invariant todo <= a.Keys && DiffedFor(diff, goal, {} + (a.Keys - todo))
      invariant forall k :: k in a && k !in todo && Category(k) ==> k !in b || b[k] == ""
      decreases |todo|
    {
      var k :| k in todo;
      DiffedMore(diff, goal, {} + (a.Keys - todo), k);
      OneMore(a.Keys, todo, k, {});
      todo := todo - {k};
      diff :- DiffOldName(a, b, k, diff);
    }
    todo := b.Keys;
    while todo != {}
      invariant todo <= b.Keys && DiffedFor(diff, goal, a.Keys + (b.Keys - todo))
      decreases |todo|
    {
      var k :| k in todo;
      DiffedMore(diff, goal, a.Keys + (b.Keys - todo), k);
      OneMore(b.Keys, todo, k, a.Keys);
      todo := todo - {k};
      if !In(k, a) {
        diff := diff[k := Some(b[k])];
      }
    }
    DiffedAll(diff, a, b);
    return Done(diff);
  }

  /** `diffFacts` on whole facts. */
  method DiffFactsLoop(a: Facts, b: Facts) returns (r: Outcome<Option<AttrDiff>>)
    ensures r == DiffFacts(a, b)
  {
    if a.Some? {
      var sub :- DiffAttrsLoop(a.value, if b.Some? then b.value else map[]);
      return Done(if sub == map[] then None else Some(sub));
    }
    if b.Some? {
      return Done(Some(map k | k in b.value :: Some(b.value[k])));
    }
    return Done(None);
  }

  // ---------------------------------------------------------------- when the diff is right

  /** The new attributes can be reached from the old ones: there was no attribute object, or every inherited name is
      in both or in neither, and category names are empty in both. */
  predicate Reachable(a: Facts, b: Facts) {
    a.Some? ==> AttrsReachable(a.value, Attrs(b))
  }

  predicate AttrsReachable(a: map<string, string>, b: map<string, string>) {
    forall k :: k in a.Keys + b.Keys ==> NameReachable(a, b, k)
  }

  predicate NameReachable(a: map<string, string>, b: map<string, string>, k: string) {
    && (Inherited(k) ==> (k in a <==> k in b))
    && (Category(k) && k in a ==> a[k] == "" && k in b && b[k] == "")
  }

  lemma ApplyAttrsAt(attrs: map<string, string>, d: AttrDiff, k: string)
    ensures var r := ApplyAttrs(attrs, d);
            && (k in r <==> if k in d then d[k].Some? else k in attrs)
            && (k in r ==> r[k] == if k in d then d[k].value else attrs[k])
  {
  }

  /** What becomes of one name. */
  lemma NamePatched(a: map<string, string>, b: map<string, string>, k: string)
    requires !AttrsThrow(a, b)
    ensures var r := ApplyAttrs(a, DiffAttrs(a, b).value);
            ((k in r <==> k in b) && (k in r && k in b ==> r[k] == b[k])) <==>
            (k in a.Keys + b.Keys ==> NameReachable(a, b, k))
  {
    ApplyAttrsAt(a, DiffAttrs(a, b).value, k);
    NamesApart(k);
  }

  lemma NamesApart(k: string)
    ensures !(Inherited(k) && Category(k)) && !(Inherited(k) && k == "value") && !(Category(k) && k == "value")
  {
  }

  lemma AttrsPatchedIff(a: map<string, string>, b: map<string, string>)
    requires !AttrsThrow(a, b)
    ensures ApplyAttrs(a, DiffAttrs(a, b).value) == b <==> AttrsReachable(a, b)
  {
    var r := ApplyAttrs(a, DiffAttrs(a, b).value);
    forall k
      ensures ((k in r <==> k in b) && (k in r && k in b ==> r[k] == b[k])) <==>
              (k in a.Keys + b.Keys ==> NameReachable(a, b, k))
    {
      NamePatched(a, b, k);
    }
    if AttrsReachable(a, b) {
      forall k
        ensures k in r <==> k in b
        ensures k in r ==> r[k] == b[k]
      {
        NamePatched(a, b, k);
      }
    }
  }

  /** For all facts: the diff is made and brings the old attributes to the new ones, if and only if the new ones are
      reachable. */
  lemma DiffFactsAppliesIff(a: Facts, b: Facts)
    ensures DiffFacts(a, b).Done? && Patched(a, b) == Attrs(b) <==> Reachable(a, b)
  {
    if a.Some? {
      var (x, y) := (a.value, Attrs(b));
      if AttrsThrow(x, y) {
        var k :| k in x && Category(k) && k in y && y[k] != "";
        assert !NameReachable(x, y, k);
      } else {
        AttrsPatchedIff(x, y);
        if DiffAttrs(x, y).value == map[] {
          assert ApplyAttrs(x, map[]) == x;
        }
      }
    }
  }

  /** A name that means nothing else gets an entry exactly if it comes, goes or changes, or is `value`, which is set
      again each time. */
  lemma ChangesExactly(a: map<string, string>, b: map<string, string>, k: string)
    requires !AttrsThrow(a, b) && !Inherited(k) && !Category(k)
    ensures var d := DiffAttrs(a, b).value;
            && (k in d <==> (k in a && k in b && (a[k] != b[k] || k == "value")) || (k in a <==> k !in b))
            && (k in d ==> d[k] == if k in b then Some(b[k]) else None)
  {
    NamesApart(k);
  }

  /** An attribute named like a method of every object is not added. */
  lemma ConstructorIsLost(c: string, x: string)
    ensures var (a, b) := (map["class" := c], map["class" := c, "constructor" := x]);
            DiffFacts(Some(a), Some(b)) == Done(None) && Patched(Some(a), Some(b)) == a != b
  {
    var (a, b) := (map["class" := c], map["class" := c, "constructor" := x]);
    assert a.Keys + b.Keys == {"class", "constructor"};
    assert forall k :: k in {"class", "constructor"} ==> NameDiff(a, b, k).None?;
    assert !AttrsThrow(a, b);
    assert DiffAttrs(a, b).value == map[];
    assert "constructor" !in a && "constructor" in b;
  }

  /** Nor is it removed: it is overwritten with the text of the method. */
  lemma ConstructorStays(x: string)
    ensures Patched(Some(map["constructor" := x]), None) == map["constructor" := "function Object() { [native code] }"]
  {
    var (a, b) := (map["constructor" := x], map[]);
    assert NameDiff(a, b, "constructor") == Some(Some(InheritedText("constructor")));
    assert !AttrsThrow(a, b);
    assert "constructor" in DiffAttrs(a, b).value;
    assert "function " + "Object" + "() { [native code] }" == "function Object() { [native code] }";
  }

  /** An attribute named like a category cannot be kept: with any text in it the next diff throws. */
  lemma CategoryThrows(x: string)
    requires x != ""
    ensures var a := Some(map["STYLE" := x]); DiffFacts(a, a).Crash?
  {
    assert Category("STYLE") && "STYLE" in map["STYLE" := x];
  }
}
