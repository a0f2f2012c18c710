/** UTF-16: strings of code units, and the code points they stand for. */
module Utf16 {

  const REPLACEMENT := 65533

  /** What `Char.toCode` gives of a JavaScript character. */
  type CodeUnit = x: int | 0 <= x <= 65535

  predicate Leading(u: int) {
    55296 <= u <= 56319
  }

  predicate Trailing(u: int) {
    56320 <= u <= 57343
  }

  /** Unicode scalar values: code points that are not surrogates. */
  predicate Scalar(c: int) {
    0 <= c <= 55295 || 57344 <= c <= 1114111
  }

  predicate AllScalar(cs: seq<int>) {
    forall i :: 0 <= i < |cs| ==> Scalar(cs[i])
  }

  /** Surrogates come in pairs only. */
  predicate WellFormed(us: seq<CodeUnit>) {
    if us == [] then true
    else if Leading(us[0]) then |us| >= 2 && Trailing(us[1]) && WellFormed(us[2..])
    else !Trailing(us[0]) && WellFormed(us[1..])
  }

  // ---------------------------------------------------------------- specification

  function Combined(leading: int, trailing: int): int {
    65536 + (leading - 55296) * 1024 + (trailing - 56320)
  }

  function Decode(us: seq<CodeUnit>): seq<int> {
    if us == [] then []
    else if Leading(us[0]) && |us| >= 2 && Trailing(us[1]) then [Combined(us[0], us[1])] + Decode(us[2..])
    else [if Scalar(us[0]) then us[0] else REPLACEMENT] + Decode(us[1..])
  }

  function EncodeOne(c: int): seq<CodeUnit> {
    if 65536 <= c <= 1114111 then [(c - 65536) / 1024 + 55296, (c - 65536) % 1024 + 56320]
    else [if Scalar(c) then c else REPLACEMENT]
  }

  function Encode(cs: seq<int>): seq<CodeUnit> {
    if cs == [] then [] else EncodeOne(cs[0]) + Encode(cs[1..])
  }

  // ---------------------------------------------------------------- operations

  function Reversed<A>(s: seq<A>): seq<A> {
    seq(|s|, i requires 0 <= i < |s| => s[|s| - 1 - i])
  }

  /** An element that goes on top of a reversed list comes off the front of what is left. */
  lemma ReversedCons<A>(x: A, s: seq<A>, rest: seq<A>)
    ensures Reversed([x] + s) + rest == Reversed(s) + ([x] + rest)
  {
  }

  lemma ReversedTwo<A>(x: A, y: A, s: seq<A>, rest: seq<A>)
    ensures Reversed([y] + ([x] + s)) + rest == Reversed(s) + ([x, y] + rest)
  {
    ReversedCons(y, [x] + s, rest);
    ReversedCons(x, s, [y] + rest);
    assert [x] + ([y] + rest) == [x, y] + rest;
  }

  /** The loop `combineAndReverse`, and the reversal after it. */
  method ToCodePoints(all: seq<CodeUnit>) returns (codePoints: seq<int>)
    ensures codePoints == Decode(all)
  {
    var codeUnits, accumulated: seq<int> := all, [];
    while codeUnits != []
      invariant Reversed(accumulated) + Decode(codeUnits) == Decode(all)
      decreases |codeUnits|
    {
      var u: int, rest := codeUnits[0], codeUnits[1..];
      var c: int, after := REPLACEMENT, rest;
      if 0 <= u <= 55295 {
        c := u;
      } else if 55296 <= u <= 56319 {
        if rest != [] && 56320 <= rest[0] <= 57343 {
          var v: int := rest[0];
          c, after := 65536 + (u - 55296) * 1024 + (v - 56320), rest[1..];
          assert rest[1..] == codeUnits[2..];
        }
      } else if 57344 <= u <= 65535 {
        c := u;
      }
      ReversedCons(c, accumulated, Decode(after));
      codeUnits, accumulated := after, [c] + accumulated;
    }
    codePoints := Reversed(accumulated);
  }

  lemma PairPushed(cs: seq<int>, leading: CodeUnit, trailing: CodeUnit, s: seq<CodeUnit>)
    requires cs != [] && EncodeOne(cs[0]) == [leading, trailing]
    ensures Reversed([trailing] + ([leading] + s)) + Encode(cs[1..]) == Reversed(s) + Encode(cs)
  {
    ReversedTwo(leading, trailing, s, Encode(cs[1..]));
  }

  lemma UnitPushed(cs: seq<int>, u: CodeUnit, s: seq<CodeUnit>)
    requires cs != [] && EncodeOne(cs[0]) == [u]
    ensures Reversed([u] + s) + Encode(cs[1..]) == Reversed(s) + Encode(cs)
  {
    ReversedCons(u, s, Encode(cs[1..]));
  }

  /** The loop `splitAndReverse`, and the reversal after it. */
  method FromCodePoints(all: seq<int>) returns (codeUnits: seq<CodeUnit>)
    ensures codeUnits == Encode(all)
  {
    var codePoints, accumulated: seq<CodeUnit> := all, [];
    while codePoints != []
      invariant Reversed(accumulated) + Encode(codePoints) == Encode(all)
      decreases |codePoints|
    {
      var c := codePoints[0];
      if 65536 <= c <= 1114111 {
        var subtracted := c - 65536;
        var leading, trailing := subtracted / 1024 + 55296, subtracted % 1024 + 56320;
        PairPushed(codePoints, leading, trailing, accumulated);
        accumulated := [trailing] + ([leading] + accumulated);
      } else {
        var u: CodeUnit := if 0 <= c <= 55295 then c else if 57344 <= c <= 65535 then c else REPLACEMENT;
        UnitPushed(codePoints, u, accumulated);
        accumulated := [u] + accumulated;
      }
      codePoints := codePoints[1..];
    }
    codeUnits := Reversed(accumulated);
  }

  // ---------------------------------------------------------------- round trips

  /** A pair is taken apart into itself, and put together into the same code point. */
  lemma PairRoundTrip(c: int, leading: int, trailing: int)
    ensures 65536 <= c <= 1114111 ==>
              && Leading((c - 65536) / 1024 + 55296) && Trailing((c - 65536) % 1024 + 56320)
              && Combined((c - 65536) / 1024 + 55296, (c - 65536) % 1024 + 56320) == c
    ensures Leading(leading) && Trailing(trailing) ==>
              65536 <= Combined(leading, trailing) <= 1114111 && EncodeOne(Combined(leading, trailing)) == [leading, trailing]
  {
  }

  /** Whatever is decoded, the code points are scalar values. */
  lemma {:induction false} DecodeScalar(us: seq<CodeUnit>)
    ensures AllScalar(Decode(us))
    decreases |us|
  {
    if us != [] {
      if Leading(us[0]) && |us| >= 2 && Trailing(us[1]) {
        PairRoundTrip(0, us[0], us[1]);
        DecodeScalar(us[2..]);
      } else {
        DecodeScalar(us[1..]);
      }
    }
  }

  /** Whatever is encoded, surrogates come in pairs. */
  lemma {:induction false} EncodeWellFormed(cs: seq<int>)
    ensures WellFormed(Encode(cs))
    decreases |cs|
  {
    if cs != [] {
      EncodeWellFormed(cs[1..]);
      PairRoundTrip(cs[0], 0, 0);
      var (one, rest) := (EncodeOne(cs[0]), Encode(cs[1..]));
      assert (one + rest)[|one|..] == rest;
    }
  }

  lemma {:induction false} DecodeUndoesEncode(cs: seq<int>)
    requires AllScalar(cs)
    ensures Decode(Encode(cs)) == cs
    decreases |cs|
  {
    if cs != [] {
      var (one, rest) := (EncodeOne(cs[0]), Encode(cs[1..]));
      DecodeUndoesEncode(cs[1..]);
      PairRoundTrip(cs[0], 0, 0);
      assert (one + rest)[|one|..] == rest;
      assert [cs[0]] + cs[1..] == cs;
    }
  }

  lemma {:induction false} EncodeUndoesDecode(us: seq<CodeUnit>)
    requires WellFormed(us)
    ensures Encode(Decode(us)) == us
    decreases |us|
  {
    if us != [] {
      var n := if Leading(us[0]) then 2 else 1;
      var c := if n == 2 then Combined(us[0], us[1]) else us[0];
      EncodeUndoesDecode(us[n..]);
      if n == 2 {
        PairRoundTrip(0, us[0], us[1]);
      }
      assert ([c] + Decode(us[n..]))[1..] == Decode(us[n..]);
      assert us[..n] == EncodeOne(c);
      assert us[..n] + us[n..] == us;
    }
  }

  /** Code points survive the way through a string exactly when they are all scalar values. */
  lemma {:induction false} CodePointsSurviveIff(cs: seq<int>)
    ensures Decode(Encode(cs)) == cs <==> AllScalar(cs)
  {
    DecodeScalar(Encode(cs));
    if AllScalar(cs) {
      DecodeUndoesEncode(cs);
    }
  }

  /** A string survives the way through code points exactly when it is well formed. */
  lemma {:induction false} StringSurvivesIff(us: seq<CodeUnit>)
    ensures Encode(Decode(us)) == us <==> WellFormed(us)
  {
    EncodeWellFormed(Decode(us));
    if WellFormed(us) {
      EncodeUndoesDecode(us);
    }
  }

  /** Going through code points once repairs any string: going again changes nothing. */
  lemma {:induction false} RepairIdempotent(us: seq<CodeUnit>)
    ensures Encode(Decode(Encode(Decode(us)))) == Encode(Decode(us))
  {
    DecodeScalar(us);
    DecodeUndoesEncode(Decode(us));
  }

  /** Pairs stand for the code points from 65536 on, counted up by the trailing surrogate first. */
  lemma PairsCountUp(leading: int, trailing: int)
    ensures Combined(55296, 56320) == 65536
    ensures Combined(leading, trailing + 1) == Combined(leading, trailing) + 1
    ensures Combined(leading + 1, 56320) == Combined(leading, 57343) + 1
  {
  }

  /** A surrogate that is not next to the other half of a pair. */
  predicate Stray(us: seq<CodeUnit>, i: nat)
    requires i < |us|
  {
    || (Leading(us[i]) && !(i + 1 < |us| && Trailing(us[i + 1])))
    || (Trailing(us[i]) && !(i > 0 && Leading(us[i - 1])))
  }

  ghost predicate Repaired(us: seq<CodeUnit>, r: seq<CodeUnit>) {
    |r| == |us| && forall i :: 0 <= i < |us| ==> r[i] == if Stray(us, i) then REPLACEMENT else us[i]
  }

  /** The first `n` units stand on their own. */
  lemma RepairedFront(us: seq<CodeUnit>, n: nat, one: seq<CodeUnit>, rest: seq<CodeUnit>)
    requires 1 <= n <= |us| && |one| == n && Repaired(us[n..], rest)
    requires n < |us| && Trailing(us[n]) ==> !Leading(us[n - 1])
    requires forall i :: 0 <= i < n ==> one[i] == if Stray(us, i) then REPLACEMENT else us[i]
    ensures Repaired(us, one + rest)
  {
    forall i | n <= i < |us|
      ensures (one + rest)[i] == if Stray(us, i) then REPLACEMENT else us[i]
    {
      assert us[n..][i - n] == us[i];
      assert Stray(us, i) == Stray(us[n..], i - n);
    }
  }

  /** What going through code points changes: every stray surrogate becomes one replacement character, and nothing else
      does. */
  lemma {:induction false} RepairReplaces(us: seq<CodeUnit>)
    ensures Repaired(us, Encode(Decode(us)))
    decreases |us|
  {
    if us != [] {
      var n := if Leading(us[0]) && |us| >= 2 && Trailing(us[1]) then 2 else 1;
      var c := Decode(us)[0];
      RepairReplaces(us[n..]);
      assert Decode(us)[1..] == Decode(us[n..]);
      if n == 2 {
        PairRoundTrip(0, us[0], us[1]);
      }
      RepairedFront(us, n, EncodeOne(c), Encode(Decode(us[n..])));
    }
  }
}
