/** JSON objects whose values are numbers, as Go writes and reads them. */
module Json {
  import opened Basics
  import opened Text

  type Field = (string, nat)

  /** `json.Marshal` of one field. */
  function FieldText(f: Field): string {
    ['"'] + f.0 + ['"'] + ([':'] + Decimal(f.1))
  }

  function FieldTexts(fields: seq<Field>): seq<string> {
    seq(|fields|, i requires 0 <= i < |fields| => FieldText(fields[i]))
  }

  /** `json.Marshal` of a struct of numbers. */
  function ObjectText(fields: seq<Field>): string {
    ['{'] + Joined(FieldTexts(fields), ',') + ['}']
  }

  function ReadField(s: string): Option<Field> {
    var parts := Split(s, '"');
    if |parts| != 3 || parts[0] != [] || parts[2] == [] || parts[2][0] != ':' then None
    else
      match ParseDecimal(parts[2][1..])
      case None => None
      case Some(n) => Some((parts[1], n))
  }

  function ReadFields(parts: seq<string>): Option<seq<Field>> {
    if parts == [] then Some([])
    else
      match (ReadField(parts[0]), ReadFields(parts[1..]))
      case (Some(f), Some(rest)) => Some([f] + rest)
      case _ => None
  }

  /** The fields of an object. */
  function ReadObject(line: string): Option<seq<Field>> {
    if |line| < 2 || line[0] != '{' || line[|line| - 1] != '}' then None
    else ReadFields(Split(line[1..|line| - 1], ','))
  }

  /** The value a field has last; Go leaves the fields at zero that are not there. */
  function Lookup(fields: seq<Field>, name: string): nat {
    if fields == [] then 0
    else if fields[|fields| - 1].0 == name then fields[|fields| - 1].1
    else Lookup(fields[..|fields| - 1], name)
  }

  /** Names that need no escapes. */
  predicate PlainName(name: string) {
    '"' !in name && ',' !in name && '\n' !in name
  }

  predicate PlainNames(fields: seq<Field>) {
    forall i :: 0 <= i < |fields| ==> PlainName(fields[i].0)
  }

  lemma DecimalIsPlain(n: nat)
    ensures PlainName(Decimal(n))
  {
    assert forall c :: c in Decimal(n) ==> '0' <= c <= '9';
  }

  lemma FieldRead(f: Field)
    requires PlainName(f.0)
    ensures ReadField(FieldText(f)) == Some(f) && ',' !in FieldText(f) && '\n' !in FieldText(f)
  {
    var value := [':'] + Decimal(f.1);
    DecimalIsPlain(f.1);
    ParsedDecimal(f.1);
    SplitPart(value, '"');
    SplitFirst(f.0, value, '"');
    var rest := f.0 + ['"'] + value;
    assert FieldText(f) == [] + ['"'] + rest;
    SplitFirst([], rest, '"');
    assert value[1..] == Decimal(f.1);
  }

  lemma {:induction false} FieldsRead(fields: seq<Field>)
    requires PlainNames(fields)
    ensures ReadFields(FieldTexts(fields)) == Some(fields)
    decreases |fields|
  {
    if fields != [] {
      FieldRead(fields[0]);
      assert FieldTexts(fields)[1..] == FieldTexts(fields[1..]);
      assert PlainNames(fields[1..]);
      FieldsRead(fields[1..]);
      assert [fields[0]] + fields[1..] == fields;
    }
  }

  lemma {:induction false} NotInJoined(parts: seq<string>, sep: char, c: char)
    requires Free(parts, c) && c != sep
    ensures c !in Joined(parts, sep)
    decreases |parts|
  {
    if |parts| > 1 {
      assert Free(parts[1..], c);
      NotInJoined(parts[1..], sep, c);
    }
  }

  /** An object that was written is read back, and is one line. */
  lemma ObjectRead(fields: seq<Field>)
    requires fields != [] && PlainNames(fields)
    ensures ReadObject(ObjectText(fields)) == Some(fields) && '\n' !in ObjectText(fields)
  {
    var texts := FieldTexts(fields);
    forall i | 0 <= i < |fields|
      ensures ',' !in texts[i] && '\n' !in texts[i]
    {
      FieldRead(fields[i]);
    }
    SplitOfJoined(texts, ',');
    NotInJoined(texts, ',', '\n');
    FieldsRead(fields);
    var line := ObjectText(fields);
    assert line[1..|line| - 1] == Joined(texts, ',');
  }
}
