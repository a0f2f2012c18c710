/** Text as the recorder and its user interface read and write it: lines, decimal numbers, JSON strings. */
module Text {
  import opened Basics

  // ---------------------------------------------------------------- splitting

  /** `split` at one character; there is always at least one part. */
  function Split(s: string, sep: char): (parts: seq<string>)
    ensures |parts| >= 1
  {
    if s == [] then [[]]
    else
      var rest := Split(s[1..], sep);
      if s[0] == sep then [[]] + rest else [[s[0]] + rest[0]] + rest[1..]
  }

  /** Each of these strings, with an end after it. */
  function Terminated(parts: seq<string>, end: char): string {
    if parts == [] then [] else parts[0] + [end] + Terminated(parts[1..], end)
  }

  /** `strings.Join`. */
  function Joined(parts: seq<string>, sep: char): string {
    if parts == [] then ""
    else if |parts| == 1 then parts[0]
    else parts[0] + [sep] + Joined(parts[1..], sep)
  }

  predicate Free(parts: seq<string>, sep: char) {
    forall i :: 0 <= i < |parts| ==> sep !in parts[i]
  }

  lemma {:induction false} SplitPart(a: string, sep: char)
    requires sep !in a
    ensures Split(a, sep) == [a]
    decreases |a|
  {
    if a != [] {
      SplitPart(a[1..], sep);
      assert [a[0]] + a[1..] == a;
    }
  }

  lemma {:induction false} SplitFirst(a: string, b: string, sep: char)
    requires sep !in a
    ensures Split(a + [sep] + b, sep) == [a] + Split(b, sep)
    decreases |a|
  {
    var s := a + [sep] + b;
    if a == [] {
      assert s[1..] == b;
    } else {
      assert s[1..] == a[1..] + [sep] + b;
      SplitFirst(a[1..], b, sep);
      assert [a[0]] + a[1..] == a;
    }
  }

  /** Splitting what was put together gives the parts, and an empty one after the last end. */
  lemma {:induction false} SplitTerminated(parts: seq<string>, sep: char)
    requires Free(parts, sep)
    ensures Split(Terminated(parts, sep), sep) == parts + [[]]
    decreases |parts|
  {
    if parts != [] {
      assert forall i :: 0 <= i < |parts[1..]| ==> sep !in parts[1..][i];
      SplitFirst(parts[0], Terminated(parts[1..], sep), sep);
      SplitTerminated(parts[1..], sep);
      assert [parts[0]] + (parts[1..] + [[]]) == parts + [[]];
    }
  }

  /** Splitting what was joined gives the parts. */
  lemma {:induction false} SplitOfJoined(parts: seq<string>, sep: char)
    requires parts != [] && Free(parts, sep)
    ensures Split(Joined(parts, sep), sep) == parts
    decreases |parts|
  {
    if |parts| == 1 {
      SplitPart(parts[0], sep);
    } else {
      assert forall i :: 0 <= i < |parts[1..]| ==> sep !in parts[1..][i];
      SplitFirst(parts[0], Joined(parts[1..], sep), sep);
      SplitOfJoined(parts[1..], sep);
      assert [parts[0]] + parts[1..] == parts;
    }
  }

  /** No part has the separator in it. */
  lemma {:induction false} SplitFree(s: string, sep: char)
    ensures Free(Split(s, sep), sep)
    decreases |s|
  {
    if s != [] {
      SplitFree(s[1..], sep);
      var rest := Split(s[1..], sep);
      assert sep !in rest[0];
    }
  }

  /** The first part is where the string starts. */
  lemma SplitHead(s: string, sep: char)
    ensures Split(s, sep)[0] == [] || (s != [] && Split(s, sep)[0][0] == s[0])
  {
  }

  // ---------------------------------------------------------------- lines

  function DropReturn(line: string): string {
    if line != [] && line[|line| - 1] == '\r' then line[..|line| - 1] else line
  }

  /** The lines a `bufio.Scanner` gives: a last part without an end counts only if it is not empty. */
  function ScanLines(s: string): seq<string> {
    var parts := Split(s, '\n');
    var last := |parts| - 1;
    var lines := if parts[last] == [] then parts[..last] else parts;
    seq(|lines|, i requires 0 <= i < |lines| => DropReturn(lines[i]))
  }

  /** `scanner.Scan()` and `scanner.Text()` on a new scanner. */
  function FirstLine(s: string): string {
    var lines := ScanLines(s);
    if lines == [] then [] else lines[0]
  }

  lemma FirstLineOf(a: string, rest: string)
    requires a != [] && '\n' !in a && a[|a| - 1] != '\r'
    requires rest == [] || rest[0] == '\n'
    ensures FirstLine(a + rest) == a
  {
    if rest == [] {
      SplitPart(a, '\n');
      assert a + rest == a;
      assert ScanLines(a)[0] == DropReturn(a);
    } else {
      SplitFirst(a, rest[1..], '\n');
      assert a + ['\n'] + rest[1..] == a + rest;
      assert Split(a + rest, '\n')[0] == a && |Split(a + rest, '\n')| >= 2;
      assert ScanLines(a + rest)[0] == DropReturn(a);
    }
  }

  lemma ScanTerminated(parts: seq<string>)
    requires Free(parts, '\n') && Free(parts, '\r')
    ensures ScanLines(Terminated(parts, '\n')) == parts
  {
    SplitTerminated(parts, '\n');
    assert (parts + [[]])[..|parts|] == parts;
    assert forall i :: 0 <= i < |parts| ==> DropReturn(parts[i]) == parts[i];
  }

  /** A return before the end of a line is not part of the line. */
  lemma ScanReturns(parts: seq<string>)
    requires Free(parts, '\n')
    ensures ScanLines(Terminated(seq(|parts|, i requires 0 <= i < |parts| => parts[i] + ['\r']), '\n')) == parts
  {
    var ended := seq(|parts|, i requires 0 <= i < |parts| => parts[i] + ['\r']);
    SplitTerminated(ended, '\n');
    assert (ended + [[]])[..|ended|] == ended;
    forall i | 0 <= i < |parts|
      ensures DropReturn(ended[i]) == parts[i]
    {
      assert ended[i][..|ended[i]| - 1] == parts[i];
    }
  }

  /** A last line without an end counts. */
  lemma {:induction false} SplitUnended(parts: seq<string>, last: string, sep: char)
    requires Free(parts, sep) && sep !in last
    ensures Split(Terminated(parts, sep) + last, sep) == parts + [last]
    decreases |parts|
  {
    if parts == [] {
      assert [] + last == last;
      SplitPart(last, sep);
    } else {
      var rest := Terminated(parts[1..], sep);
      assert forall i :: 0 <= i < |parts[1..]| ==> sep !in parts[1..][i];
      assert parts[0] + [sep] + rest + last == parts[0] + [sep] + (rest + last);
      SplitFirst(parts[0], rest + last, sep);
      SplitUnended(parts[1..], last, sep);
      assert [parts[0]] + (parts[1..] + [last]) == parts + [last];
    }
  }

  lemma ScanUnended(parts: seq<string>, last: string)
    requires Free(parts + [last], '\n') && Free(parts + [last], '\r') && last != []
    ensures ScanLines(Terminated(parts, '\n') + last) == parts + [last]
  {
    assert forall i :: 0 <= i < |parts| ==> (parts + [last])[i] == parts[i];
    assert (parts + [last])[|parts|] == last;
    SplitUnended(parts, last, '\n');
    assert forall i :: 0 <= i <= |parts| ==> DropReturn((parts + [last])[i]) == (parts + [last])[i];
  }

  // ---------------------------------------------------------------- numbers

  const DIGITS := "0123456789abcdef"

  predicate Digits(s: string) {
    forall i :: 0 <= i < |s| ==> '0' <= s[i] <= '9'
  }

  /** `%d` of a number that is not negative. */
  function Decimal(n: nat): (s: string)
    ensures s != [] && Digits(s)
  {
    if n < 10 then [DIGITS[n]] else Decimal(n / 10) + [DIGITS[n % 10]]
  }

  function Value(s: string): nat
    requires Digits(s)
  {
    if s == [] then 0 else 10 * Value(s[..|s| - 1]) + (s[|s| - 1] as int - '0' as int)
  }

  function ParseDecimal(s: string): Option<nat> {
    if s != [] && Digits(s) then Some(Value(s)) else None
  }

  /** `strconv.ParseInt` in base 10 and 64 bits. */
  function ParseInt(s: string): Option<int> {
    var signed := s != [] && (s[0] == '-' || s[0] == '+');
    match ParseDecimal(if signed then s[1..] else s)
    case None => None
    case Some(n) =>
      var i: int := if signed && s[0] == '-' then -(n as int) else n as int;
      if -0x8000_0000_0000_0000 <= i < 0x8000_0000_0000_0000 then Some(i) else None
  }

  lemma ParseUnsigned(s: string, n: nat)
    requires ParseDecimal(s) == Some(n) && n < 0x8000_0000_0000_0000
    ensures ParseInt(s) == Some(n)
  {
    assert '0' <= s[0] <= '9';
  }

  lemma {:induction false} ValueOfDecimal(n: nat)
    ensures Value(Decimal(n)) == n
  {
    var s := Decimal(n);
    if n >= 10 {
      ValueOfDecimal(n / 10);
      assert s[..|s| - 1] == Decimal(n / 10);
    } else {
      assert s[..|s| - 1] == [];
    }
  }

  lemma ParsedDecimal(n: nat)
    ensures ParseDecimal(Decimal(n)) == Some(n)
  {
    ValueOfDecimal(n);
  }

  lemma DecimalUnique(m: nat, n: nat)
    requires Decimal(m) == Decimal(n)
    ensures m == n
  {
    ValueOfDecimal(m);
    ValueOfDecimal(n);
  }

  // ---------------------------------------------------------------- JSON strings

  /** How Go's encoder writes one character inside a JSON string. */
  function EscapeChar(c: char): string {
    if c == '\\' || c == '"' then ['\\', c]
    else if c == '\n' then "\\n"
    else if c == '\r' then "\\r"
    else if c == '\t' then "\\t"
    else if c < ' ' || c == '<' || c == '>' || c == '&' then HexEscape(c as int)
    else if c == '\U{2028}' || c == '\U{2029}' then HexEscape(c as int)
    else [c]
  }

  function HexEscape(n: nat): (s: string)
    requires n < 0x10000
    ensures |s| == 6
  {
    ['\\', 'u', DIGITS[n / 4096], DIGITS[n / 256 % 16], DIGITS[n / 16 % 16], DIGITS[n % 16]]
  }

  function Escape(s: string): string {
    if s == [] then [] else EscapeChar(s[0]) + Escape(s[1..])
  }

  function HexDigit(c: char): Option<nat> {
    if '0' <= c <= '9' then Some(c as int - '0' as int)
    else if 'a' <= c <= 'f' then Some(c as int - 'a' as int + 10)
    else None
  }

  /** The character written at the start of this string, and how long it is written; control characters may not stand
      for themselves (section 7 of RFC 8259). */
  function ReadChar(s: string): (r: Option<(char, nat)>)
    requires s != []
    ensures r.Some? ==> 0 < r.value.1 <= |s|
  {
    if s[0] < ' ' then None
    else if s[0] != '\\' then Some((s[0], 1))
    else if |s| < 2 then None
    else if s[1] == '\\' || s[1] == '"' then Some((s[1], 2))
    else if s[1] == 'n' then Some(('\n', 2))
    else if s[1] == 'r' then Some(('\r', 2))
    else if s[1] == 't' then Some(('\t', 2))
    else if s[1] == 'u' && |s| >= 6 then ReadHex(s)
    else None
  }

  function ReadHex(s: string): (r: Option<(char, nat)>)
    requires |s| >= 6
    ensures r.Some? ==> r.value.1 == 6
  {
    var (a, b, c, d) := (HexDigit(s[2]), HexDigit(s[3]), HexDigit(s[4]), HexDigit(s[5]));
    if a.None? || b.None? || c.None? || d.None? then None
    else
      var n := 4096 * a.value + 256 * b.value + 16 * c.value + d.value;
      if n < 0xD800 then Some((n as char, 6)) else None
  }

  /** The JSON string up to its closing quote, and what follows. */
  function ReadString(s: string): Option<(string, string)>
    decreases |s|
  {
    if s == [] then None
    else if s[0] == '"' then Some(([], s[1..]))
    else
      match ReadChar(s)
      case None => None
      case Some((c, n)) =>
        match ReadString(s[n..])
        case None => None
        case Some((text, rest)) => Some(([c] + text, rest))
  }

  lemma HexRead(n: nat, s: string)
    requires n < 0xD800
    ensures ReadHex(HexEscape(n) + s) == Some((n as char, 6))
  {
    HexSum(n);
    HexDigitsRead(n / 4096, n / 256 % 16, n / 16 % 16, n % 16, s);
  }

  lemma HexSum(n: nat)
    requires n < 0x10000
    ensures n / 4096 < 16 && 4096 * (n / 4096) + 256 * (n / 256 % 16) + 16 * (n / 16 % 16) + n % 16 == n
  {
    assert n / 256 == (n / 16) / 16 && n / 4096 == (n / 256) / 16;
  }

  lemma HexDigitsRead(a: nat, b: nat, c: nat, d: nat, s: string)
    requires a < 16 && b < 16 && c < 16 && d < 16 && 4096 * a + 256 * b + 16 * c + d < 0xD800
    ensures ReadHex(['\\', 'u', DIGITS[a], DIGITS[b], DIGITS[c], DIGITS[d]] + s)
         == Some(((4096 * a + 256 * b + 16 * c + d) as char, 6))
  {
    HexDigitOf(a);
    HexDigitOf(b);
    HexDigitOf(c);
    HexDigitOf(d);
  }

  lemma HexDigitOf(d: nat)
    requires d < 16
    ensures HexDigit(DIGITS[d]) == Some(d)
  {
  }

  /** Written characters are read back one by one. */
  ghost predicate ReadBack(c: char, written: string, s: string) {
    var t := written + s;
    written != [] && t[0] != '"' && ReadChar(t) == Some((c, |written|)) && t[|written|..] == s && '\n' !in written
  }

  lemma HexReadBack(c: char, s: string)
    requires c as int < 0xD800
    ensures ReadBack(c, HexEscape(c as int), s)
  {
    HexRead(c as int, s);
    var t := HexEscape(c as int) + s;
    assert t[0] == '\\' && t[1] == 'u';
    assert forall d :: 0 <= d < 16 ==> DIGITS[d] != '\n';
  }

  lemma ShortReadBack(c: char, d: char, s: string)
    requires d == '\\' || d == '"' || d == 'n' || d == 'r' || d == 't'
    requires c == if d == 'n' then '\n' else if d == 'r' then '\r' else if d == 't' then '\t' else d
    ensures ReadBack(c, ['\\', d], s)
  {
    var t := ['\\', d] + s;
    assert t[0] == '\\' && t[1] == d;
  }

  /** What Go's encoder keeps out of JSON strings besides: characters that mean something to HTML or end a JavaScript
      line. */
  predicate Unsafe(c: char) {
    c < ' ' || c == '<' || c == '>' || c == '&' || c == '\U{2028}' || c == '\U{2029}'
  }

  lemma HexIsSafe(n: nat)
    requires n < 0x10000
    ensures forall c :: c in HexEscape(n) ==> !Unsafe(c)
  {
    DigitIsSafe(n / 4096);
    DigitIsSafe(n / 256 % 16);
    DigitIsSafe(n / 16 % 16);
    DigitIsSafe(n % 16);
  }

  lemma DigitIsSafe(d: nat)
    requires d < 16
    ensures !Unsafe(DIGITS[d])
  {
  }

  /** No unsafe character is left in an escaped text. */
  lemma {:induction false} EscapedIsSafe(text: string)
    ensures forall c :: c in Escape(text) ==> !Unsafe(c)
    decreases |text|
  {
    if text != [] {
      EscapedIsSafe(text[1..]);
      if Unsafe(text[0]) {
        HexIsSafe(text[0] as int);
      }
    }
  }

  /** A text without unsafe characters, quotes and backslashes is written as it is. */
  lemma {:induction false} EscapePlain(text: string)
    requires forall c :: c in text ==> !Unsafe(c) && c != '"' && c != '\\'
    ensures Escape(text) == text
    decreases |text|
  {
    if text != [] {
      assert !Unsafe(text[0]);
      EscapePlain(text[1..]);
      assert EscapeChar(text[0]) == [text[0]];
      assert [text[0]] + text[1..] == text;
    }
  }

  lemma EscapedCharRead(c: char, s: string)
    ensures ReadBack(c, EscapeChar(c), s)
  {
    if EscapeChar(c) == [c] {
      assert ([c] + s)[1..] == s;
    } else if |EscapeChar(c)| == 2 {
      ShortReadBack(c, EscapeChar(c)[1], s);
    } else {
      HexReadBack(c, s);
    }
  }

  lemma ReadOneMore(c: char, written: string, s: string, text: string, rest: string)
    requires ReadBack(c, written, s) && ReadString(s) == Some((text, rest))
    ensures ReadString(written + s) == Some(([c] + text, rest))
  {
  }

  lemma Regrouped(a: string, b: string, c: string, d: string)
    ensures a + b + c + d == a + (b + c + d)
  {
  }

  /** Reading undoes writing, whatever the text; and no written text holds a newline. */
  lemma {:induction false} ReadEscaped(text: string, rest: string)
    ensures ReadString(Escape(text) + ['"'] + rest) == Some((text, rest))
    ensures '\n' !in Escape(text)
    decreases |text|
  {
    if text == [] {
      assert Escape(text) + ['"'] + rest == ['"'] + rest;
    } else {
      var s := Escape(text[1..]) + ['"'] + rest;
      ReadEscaped(text[1..], rest);
      EscapedCharRead(text[0], s);
      ReadOneMore(text[0], EscapeChar(text[0]), s, text[1..], rest);
      Regrouped(EscapeChar(text[0]), Escape(text[1..]), ['"'], rest);
      assert [text[0]] + text[1..] == text;
    }
  }
}
