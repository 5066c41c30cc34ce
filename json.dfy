/**
 * JSON values as the schema builders produce them, and `JSON.stringify(v,
 * null, 2)`: two-space indentation, one member or element per line, `{}` and
 * `[]` for empty containers. A property whose value is `undefined` is simply
 * absent from the object's member list.
 */
module Json {
  import opened Wrappers
  import opened Strings

  datatype Json =
    | JNull
    | JBool(b: bool)
    | JNum(n: int)
    | JStr(s: string)
    | JArr(items: seq<Json>)
    | JObj(fields: seq<(string, Json)>)

  /** The value bound to `key`, the first binding when there are several. */
  function Lookup(fields: seq<(string, Json)>, key: string): Option<Json> {
    if fields == [] then None
    else if fields[0].0 == key then Some(fields[0].1)
    else Lookup(fields[1..], key)
  }

  /** A member is found exactly when one has that name, and what is found is the value of the first. */
  lemma {:induction false} LookupSpec(fields: seq<(string, Json)>, key: string)
    ensures Lookup(fields, key).Some? <==> exists i :: 0 <= i < |fields| && fields[i].0 == key
    ensures Lookup(fields, key).Some? ==>
      exists i :: 0 <= i < |fields| && fields[i] == (key, Lookup(fields, key).value) && forall j :: 0 <= j < i ==> fields[j].0 != key
  {
    if fields != [] && fields[0].0 != key {
      LookupSpec(fields[1..], key);
      if Lookup(fields, key).Some? {
        var i :| 0 <= i < |fields[1..]| && fields[1..][i] == (key, Lookup(fields, key).value) &&
          forall j :: 0 <= j < i ==> fields[1..][j].0 != key;
        assert fields[i + 1] == (key, Lookup(fields, key).value);
        forall j | 0 <= j < i + 1 ensures fields[j].0 != key {
          if j > 0 {
            assert fields[j] == fields[1..][j - 1];
          }
        }
      } else {
        forall i | 0 <= i < |fields| ensures fields[i].0 != key {
          if i > 0 {
            assert fields[i] == fields[1..][i - 1];
          }
        }
      }
    } else if fields != [] {
      assert fields[0] == (key, Lookup(fields, key).value);
    }
  }

  /** The binding at `i` is the one found when no earlier member has the same name. */
  lemma {:induction false} LookupFound(fields: seq<(string, Json)>, i: nat, key: string)
    requires i < |fields| && fields[i].0 == key
    requires forall j :: 0 <= j < i ==> fields[j].0 != key
    ensures Lookup(fields, key) == Some(fields[i].1)
  {
    if i > 0 {
      LookupFound(fields[1..], i - 1, key);
    }
  }

  /** Appending members never hides a binding that is already there. */
  lemma {:induction false} LookupAppend(a: seq<(string, Json)>, b: seq<(string, Json)>, key: string)
    ensures Lookup(a + b, key) == if Lookup(a, key).Some? then Lookup(a, key) else Lookup(b, key)
  {
    if a == [] {
      assert a + b == b;
    } else {
      assert (a + b)[0] == a[0];
      assert (a + b)[1..] == a[1..] + b;
      LookupAppend(a[1..], b, key);
    }
  }

  /** The member `key` of an object, `None` for anything else. */
  function Get(v: Json, key: string): (r: Option<Json>)
    ensures r.Some? ==> v.JObj?
  {
    if v.JObj? then Lookup(v.fields, key) else None
  }

  /** The `@type` of an object, `""` for anything else. */
  function TypeOf(v: Json): string {
    if v.JObj? then
      match Lookup(v.fields, "@type")
      case Some(JStr(t)) => t
      case _ => ""
    else ""
  }

  function TypesOf(vs: seq<Json>): (r: seq<string>)
    ensures |r| == |vs| && forall i :: 0 <= i < |vs| ==> r[i] == TypeOf(vs[i])
  {
    if vs == [] then [] else [TypeOf(vs[0])] + TypesOf(vs[1..])
  }

  lemma {:induction false} TypesOfAppend(a: seq<Json>, b: seq<Json>)
    ensures TypesOf(a + b) == TypesOf(a) + TypesOf(b)
  {
  }

  // ---------------------------------------------------------------------------
  // Serialisation

  function IntToString(n: int): (r: string)
    ensures |r| > 0
  {
    if n < 0 then "-" + NatToString(-n) else NatToString(n)
  }

  function HexDigit(d: nat): char
    requires d < 16
  {
    if d < 10 then DigitChar(d) else (('a' as int) + d - 10) as char
  }

  /** How one character appears inside a JSON string literal. */
  function EscapeChar(c: char): (r: string)
    ensures r != []
  {
    if c == '"' then "\\\""
    else if c == '\\' then "\\\\"
    else if c == '\U{0008}' then "\\b"
    else if c == '\U{000C}' then "\\f"
    else if c == '\n' then "\\n"
    else if c == '\r' then "\\r"
    else if c == '\t' then "\\t"
    else if (c as int) < 0x20 then "\\u00" + [HexDigit(c as int / 16), HexDigit(c as int % 16)]
    else [c]
  }

  function Escape(s: string): (r: string)
    ensures |r| >= |s|
  {
    if s == [] then [] else EscapeChar(s[0]) + Escape(s[1..])
  }

  function Quote(s: string): string {
    "\"" + Escape(s) + "\""
  }

  function Spaces(n: nat): (r: string)
    ensures |r| == n
  {
    if n == 0 then [] else " " + Spaces(n - 1)
  }

  function JoinWith(sep: string, parts: seq<string>): string {
    if parts == [] then []
    else if |parts| == 1 then parts[0]
    else parts[0] + sep + JoinWith(sep, parts[1..])
  }

  /** `JSON.stringify(v, null, 2)` for a value nested `depth` levels deep. */
  function Stringify(v: Json, depth: nat): (r: string)
    ensures r != []
    decreases v
  {
    match v
    case JNull => "null"
    case JBool(b) => if b then "true" else "false"
    case JNum(n) => IntToString(n)
    case JStr(s) => Quote(s)
    case JArr(items) =>
      if items == [] then "[]"
      else
        var inner := Spaces(2 * (depth + 1));
        var parts := seq(|items|, i requires 0 <= i < |items| => Stringify(items[i], depth + 1));
        "[\n" + inner + JoinWith(",\n" + inner, parts) + "\n" + Spaces(2 * depth) + "]"
    case JObj(fields) =>
      if fields == [] then "{}"
      else
        var inner := Spaces(2 * (depth + 1));
        var parts := seq(|fields|, i requires 0 <= i < |fields| =>
          Quote(fields[i].0) + ": " + Stringify(fields[i].1, depth + 1));
        "{\n" + inner + JoinWith(",\n" + inner, parts) + "\n" + Spaces(2 * depth) + "}"
  }
}
