/** SQL identifiers: how they are printed, read back, and split out of a configured table name. */
module SqlNames {
  import opened HelperPlan

  const QUOTE := '"'

  /** The characters that str::trim removes. */
  predicate IsSpace(c: char) {
    || 9 <= c as int <= 13 || c as int in {0x20, 0x85, 0xA0, 0x1680, 0x2028, 0x2029, 0x202F, 0x205F, 0x3000}
    || 0x2000 <= c as int <= 0x200A
  }

  function TrimStart(s: string): string {
    if s != [] && IsSpace(s[0]) then TrimStart(s[1..]) else s
  }

  function TrimEnd(s: string): string {
    if s != [] && IsSpace(s[|s| - 1]) then TrimEnd(s[..|s| - 1]) else s
  }

  function Trim(s: string): string {
    TrimEnd(TrimStart(s))
  }

  /** replace('"', "\\"\\"") */
  function Doubled(raw: string): string {
    if raw == [] then [] else (if raw[0] == QUOTE then [QUOTE, QUOTE] else [raw[0]]) + Doubled(raw[1..])
  }

  /** replace("\\"\\"", "\\""): pairs are found from left to right and do not overlap. */
  function Undoubled(s: string): string {
    if |s| >= 2 && s[0] == QUOTE && s[1] == QUOTE then [QUOTE] + Undoubled(s[2..])
    else if s == [] then []
    else [s[0]] + Undoubled(s[1..])
  }

  function Unquoted(value: string): string {
    if |value| >= 2 && value[0] == QUOTE && value[|value| - 1] == QUOTE then Undoubled(value[1..|value| - 1]) else value
  }

  /** SqlIdentifier::new, as the raw name it stores. */
  function Identifier(value: string): string {
    Unquoted(Trim(value))
  }

  /** Display of an identifier. */
  function Printed(raw: string): string {
    [QUOTE] + Doubled(raw) + [QUOTE]
  }

  lemma {:induction false} UndoubledDoubled(raw: string)
    ensures Undoubled(Doubled(raw)) == raw
  {
    if raw != [] {
      var rest := Doubled(raw[1..]);
      UndoubledDoubled(raw[1..]);
      if raw[0] == QUOTE {
        assert Doubled(raw) == [QUOTE, QUOTE] + rest && ([QUOTE, QUOTE] + rest)[2..] == rest;
      } else {
        assert Doubled(raw) == [raw[0]] + rest && ([raw[0]] + rest)[1..] == rest;
      }
    }
  }

  /** Whatever the name contains, reading the printed form gives it back. */
  lemma IdentifierRoundTrip(raw: string)
    ensures Identifier(Printed(raw)) == raw
  {
    var printed := Printed(raw);
    assert printed[0] == QUOTE && printed[|printed| - 1] == QUOTE && !IsSpace(QUOTE);
    assert Trim(printed) == printed;
    assert printed[1..|printed| - 1] == Doubled(raw);
    UndoubledDoubled(raw);
  }

  /** So no two names are printed alike. */
  lemma PrintedDiffer(a: string, b: string)
    requires Printed(a) == Printed(b)
    ensures a == b
  {
    IdentifierRoundTrip(a);
    IdentifierRoundTrip(b);
  }

  // ---- Qualified table names ----

  datatype Parsed = NoDot | Name(name: TableName)

  /** The position of the first dot, or the length. */
  function FirstDot(s: string): (i: nat)
    ensures i <= |s| && (i < |s| ==> s[i] == '.') && '.' !in s[..i]
  {
    if s == [] || s[0] == '.' then 0
    else
      var i := 1 + FirstDot(s[1..]);
      assert s[..i] == [s[0]] + s[1..][..i - 1];
      i
  }

  /** QualifiedTableName::from_config: without a dot it panics. */
  function FromConfig(value: string): Parsed {
    var i := FirstDot(value);
    if i == |value| then NoDot else Name(TableName(Identifier(value[..i]), Identifier(value[i + 1..])))
  }

  function PrintedName(t: TableName): string {
    Printed(t.schema) + "." + Printed(t.table)
  }

  function Label(t: TableName): string {
    t.schema + "." + t.table
  }

  lemma {:induction false} DoubledHas(raw: string, c: char)
    ensures c in Doubled(raw) <==> c in raw
  {
    if raw != [] {
      DoubledHas(raw[1..], c);
      assert raw == [raw[0]] + raw[1..];
    }
  }

  lemma {:induction false} UndoubledHas(s: string, c: char)
    ensures c in Undoubled(s) ==> c in s
  {
    if |s| >= 2 && s[0] == QUOTE && s[1] == QUOTE {
      UndoubledHas(s[2..], c);
      assert s == [s[0]] + [s[1]] + s[2..];
    } else if s != [] {
      UndoubledHas(s[1..], c);
      assert s == [s[0]] + s[1..];
    }
  }

  lemma {:induction false} TrimStartHas(s: string, c: char)
    ensures c in TrimStart(s) ==> c in s
  {
    if s != [] && IsSpace(s[0]) {
      TrimStartHas(s[1..], c);
    }
  }

  lemma {:induction false} TrimEndHas(s: string, c: char)
    ensures c in TrimEnd(s) ==> c in s
  {
    if s != [] && IsSpace(s[|s| - 1]) {
      TrimEndHas(s[..|s| - 1], c);
    }
  }

  /** Reading an identifier invents no characters. */
  lemma IdentifierHas(value: string, c: char)
    ensures c in Identifier(value) ==> c in value
  {
    var trimmed := Trim(value);
    TrimStartHas(value, c);
    TrimEndHas(TrimStart(value), c);
    if |trimmed| >= 2 && trimmed[0] == QUOTE && trimmed[|trimmed| - 1] == QUOTE {
      UndoubledHas(trimmed[1..|trimmed| - 1], c);
    }
  }

  /** The schema part of a configured name never contains a dot. */
  lemma ConfiguredSchema(value: string)
    requires FromConfig(value).Name?
    ensures '.' !in FromConfig(value).name.schema
  {
    IdentifierHas(value[..FirstDot(value)], '.');
  }

  lemma FirstDotAt(s: string, i: nat)
    requires i < |s| && s[i] == '.' && '.' !in s[..i]
    ensures FirstDot(s) == i
  {
    var f := FirstDot(s);
    assert forall j :: 0 <= j < i ==> s[..i][j] == s[j];
    assert forall j :: 0 <= j < f ==> s[..f][j] == s[j];
    assert forall j :: 0 <= j < i ==> s[j] != '.';
    assert forall j :: 0 <= j < f ==> s[j] != '.';
  }

  /** Reading a printed table name gives it back exactly if its schema has no dot. */
  lemma NameRoundTrip(t: TableName)
    ensures FromConfig(PrintedName(t)) == Name(t) <==> '.' !in t.schema
  {
    var text, n := PrintedName(t), |Printed(t.schema)|;
    DoubledHas(t.schema, '.');
    if '.' !in t.schema {
      assert text[..n] == Printed(t.schema) && text[n + 1..] == Printed(t.table) && text[n] == '.';
      FirstDotAt(text, n);
      IdentifierRoundTrip(t.schema);
      IdentifierRoundTrip(t.table);
    } else if FromConfig(text).Name? {
      ConfiguredSchema(text);
    }
  }

  /** Labels tell names apart as long as no schema has a dot, which holds for configured names .. */
  lemma LabelsDiffer(a: TableName, b: TableName)
    requires '.' !in a.schema && '.' !in b.schema && Label(a) == Label(b)
    ensures a == b
  {
    assert Label(a)[..|a.schema|] == a.schema && Label(b)[..|b.schema|] == b.schema;
    FirstDotAt(Label(a), |a.schema|);
    FirstDotAt(Label(b), |b.schema|);
    assert Label(a)[|a.schema| + 1..] == a.table && Label(b)[|b.schema| + 1..] == b.table;
  }

  /** .. and not otherwise. */
  lemma LabelsCollide()
    ensures var a, b := TableName("a.b", "c"), TableName("a", "b.c"); a != b && Label(a) == Label(b)
  {
    assert "a.b" + "." + "c" == "a" + "." + "b.c";
  }
}
