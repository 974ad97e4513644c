/** Parsed JSON values as the exporter sees them after `json.load`: Python's
    `None`, `bool`, `int`, `str`, `list` and `dict`, with the dictionary
    operations, truthiness, `str()` and `json.dumps` the code applies to them. */
module JsonValue {
  import opened Text
  import opened Options

  /** A JSON value; an object keeps its keys in insertion order, as a Python dict does. */
  datatype Json =
    | Null
    | Bool(b: bool)
    | Num(n: int)
    | Str(s: string)
    | Arr(items: seq<Json>)
    | Obj(fields: seq<(string, Json)>)
  {
    /** `key in d` */
    predicate Has(key: string) {
      Obj? && exists i | 0 <= i < |fields| :: fields[i].0 == key
    }

    /** `d.get(key)`: the value of the first field named `key`. */
    function Get(key: string): (r: Option<Json>)
      ensures r.Some? <==> Has(key)
      ensures r.Some? ==> exists i | 0 <= i < |fields| :: fields[i] == (key, r.value)
    {
      if !Obj? then None else FieldValue(fields, key, 0)
    }

    /** `d.get(key, default)` */
    function GetOr(key: string, default: Json): Json {
      Get(key).GetOr(default)
    }

    /** `d.values()` of a dict. */
    function Values(): (r: seq<Json>)
      requires Obj?
      ensures |r| == |fields| && forall i :: 0 <= i < |r| ==> r[i] == fields[i].1
    {
      seq(|fields|, i requires 0 <= i < |fields| => fields[i].1)
    }

    /** `bool(v)` */
    predicate Truthy() {
      match this
      case Null => false
      case Bool(b) => b
      case Num(n) => n != 0
      case Str(s) => s != ""
      case Arr(a) => a != []
      case Obj(f) => f != []
    }

    predicate IsStr(text: string) { Str? && s == text }
  }

  /** The value of the first field named `key` at position `i` or later. */
  function FieldValue(fields: seq<(string, Json)>, key: string, i: nat): (r: Option<Json>)
    requires i <= |fields|
    decreases |fields| - i
    ensures r.Some? <==> exists k | i <= k < |fields| :: fields[k].0 == key
    ensures r.Some? ==> exists k | i <= k < |fields| :: fields[k] == (key, r.value)
  {
    if i == |fields| then None
    else if fields[i].0 == key then Some(fields[i].1)
    else FieldValue(fields, key, i + 1)
  }

  /** Python's `a or b` */
  function Or(a: Json, b: Json): Json {
    if a.Truthy() then a else b
  }

  /** A value of the dict type. */
  type Dict = j: Json | j.Obj? witness Obj([])

  /** A size measure: one per node plus the characters of every string and key.
      `json.loads(s)` never yields a value heavier than `|s|`. */
  function Weight(j: Json): nat {
    match j
    case Str(s) => 1 + |s|
    case Arr(items) => 1 + Sum(seq(|items|, i requires 0 <= i < |items| => Weight(items[i])))
    case Obj(fields) =>
      1 + Sum(seq(|fields|, i requires 0 <= i < |fields| => |fields[i].0| + Weight(fields[i].1)))
    case _ => 1
  }

  function Sum(s: seq<nat>): nat {
    if s == [] then 0 else Sum(s[..|s| - 1]) + s[|s| - 1]
  }

  lemma {:induction false} SumBound(s: seq<nat>, i: nat)
    requires i < |s|
    ensures s[i] <= Sum(s)
  {
    if i < |s| - 1 {
      SumBound(s[..|s| - 1], i);
    }
  }

  lemma ItemLighter(items: seq<Json>, i: nat)
    requires i < |items|
    ensures Weight(items[i]) < Weight(Arr(items))
  {
    SumBound(seq(|items|, k requires 0 <= k < |items| => Weight(items[k])), i);
  }

  lemma FieldLighter(fields: seq<(string, Json)>, i: nat)
    requires i < |fields|
    ensures Weight(fields[i].1) < Weight(Obj(fields))
  {
    SumBound(seq(|fields|, k requires 0 <= k < |fields| => |fields[k].0| + Weight(fields[k].1)), i);
  }

  lemma GetLighter(d: Json, key: string)
    requires d.Get(key).Some?
    ensures Weight(d.Get(key).value) < Weight(d)
  {
    var i :| 0 <= i < |d.fields| && d.fields[i] == (key, d.Get(key).value);
    FieldLighter(d.fields, i);
  }

  ghost predicate ParsesShorter(f: string -> Option<Json>) {
    forall s :: f(s).Some? ==> Weight(f(s).value) <= |s|
  }

  /** `json.loads` as an oracle: `None` where it raises. Its results are lighter
      than its input, as every JSON text is at least as long as the value it denotes. */
  type Parser = f: string -> Option<Json> | ParsesShorter(f) witness (s: string) => None

  /** A call of the parser, with the bound on what it returns. */
  function Parse(loads: Parser, s: string): (r: Option<Json>)
    ensures r == loads(s)
    ensures r.Some? ==> Weight(r.value) <= |s|
  {
    assert ParsesShorter(loads);
    loads(s)
  }

  /** `d[key]` of a dict whose value there is a list. */
  function ListField(d: Json, key: string): (items: seq<Json>)
    requires d.Get(key).Some? && d.Get(key).value.Arr?
    ensures forall k :: 0 <= k < |items| ==> Weight(items[k]) < Weight(d)
  {
    var items := d.Get(key).value.items;
    GetLighter(d, key);
    forall k | 0 <= k < |items| ensures Weight(items[k]) < Weight(d) {
      ItemLighter(items, k);
    }
    items
  }

  /** `d[key]` for a key the dict has. */
  function FieldOf(d: Json, key: string): (v: Json)
    requires d.Has(key)
    ensures d.Get(key) == Some(v)
    ensures Weight(v) < Weight(d)
  {
    GetLighter(d, key);
    d.Get(key).value
  }

  /** The items of a list, each lighter than the list. */
  function ItemsOf(j: Json): (items: seq<Json>)
    requires j.Arr?
    ensures items == j.items
    ensures forall k :: 0 <= k < |items| ==> Weight(items[k]) < Weight(j)
  {
    forall k | 0 <= k < |j.items| ensures Weight(j.items[k]) < Weight(j) {
      ItemLighter(j.items, k);
    }
    j.items
  }

  /** `d.values()`, each lighter than the dict. */
  function ValuesOf(j: Json): (vals: seq<Json>)
    requires j.Obj?
    ensures |vals| == |j.fields|
    ensures forall k :: 0 <= k < |vals| ==> vals[k] == j.fields[k].1 && Weight(vals[k]) < Weight(j)
  {
    forall k | 0 <= k < |j.fields| ensures Weight(j.fields[k].1) < Weight(j) {
      FieldLighter(j.fields, k);
    }
    j.Values()
  }

  /** `str(v)`; strings inside containers use `repr` quoting. */
  function PyStr(j: Json): string {
    match j
    case Str(s) => s
    case _ => Repr(j)
  }

  function Repr(j: Json): string {
    match j
    case Null => "None"
    case Bool(b) => if b then "True" else "False"
    case Num(n) => IntToString(n)
    case Str(s) => ReprString(s)
    case Arr(items) => "[" + Join(", ", seq(|items|, i requires 0 <= i < |items| => Repr(items[i]))) + "]"
    case Obj(fields) =>
      "{" + Join(", ", seq(|fields|, i requires 0 <= i < |fields| =>
                                ReprString(fields[i].0) + ": " + Repr(fields[i].1))) + "}"
  }

  /** `repr` of a string: single quotes unless the text holds a single quote and
      no double quote. */
  function ReprString(s: string): string {
    var q := if '\'' in s && '"' !in s then '"' else '\'';
    [q] + ReprEscape(s, q) + [q]
  }

  function ReprEscape(s: string, q: char): string {
    if s == [] then []
    else
      var c := s[0];
      (if c == '\\' then "\\\\" else if c == q then ['\\', q] else if c == '\n' then "\\n"
       else if c == '\r' then "\\r" else if c == '\t' then "\\t" else [c])
      + ReprEscape(s[1..], q)
  }

  function HexDigit(d: nat): char
    requires d < 16
  {
    if d < 10 then DigitChar(d) else ('a' as int + d - 10) as char
  }

  /** A string as `json.dumps(..., ensure_ascii=False)` writes it. */
  function Quote(s: string): (r: string)
    ensures |r| >= 2 && r[0] == '"'
  {
    "\"" + JsonEscape(s) + "\""
  }

  function JsonEscape(s: string): string {
    if s == [] then []
    else
      var c := s[0];
      (if c == '"' then "\\\"" else if c == '\\' then "\\\\" else if c == '\n' then "\\n"
       else if c == '\r' then "\\r" else if c == '\t' then "\\t" else if c == '\U{08}' then "\\b"
       else if c == '\U{0C}' then "\\f"
       else if (c as int) < 0x20 then "\\u00" + [HexDigit(c as int / 16), HexDigit(c as int % 16)]
       else [c])
      + JsonEscape(s[1..])
  }

  function Spaces(n: nat): string {
    seq(n, _ => ' ')
  }

  /** `json.dumps(v, ensure_ascii=False, indent=...)`: with no indent the items
      are separated by ", " on one line; with an indent each item sits on its own
      line and nested levels are indented by that many more spaces. */
  function Dumps(j: Json, indent: Option<nat>): (r: string)
    ensures j.Obj? ==> r != [] && r[0] == '{'
    ensures j.Arr? ==> r != [] && r[0] == '['
  {
    Encode(j, indent, 0)
  }

  function Encode(j: Json, indent: Option<nat>, level: nat): (r: string)
    ensures j.Obj? ==> r != [] && r[0] == '{'
    ensures j.Arr? ==> r != [] && r[0] == '['
  {
    match j
    case Null => "null"
    case Bool(b) => if b then "true" else "false"
    case Num(n) => IntToString(n)
    case Str(s) => Quote(s)
    case Arr(items) =>
      if items == [] then "[]"
      else
        var body := seq(|items|, i requires 0 <= i < |items| => Encode(items[i], indent, level + 1));
        "[" + Layout(body, indent, level) + "]"
    case Obj(fields) =>
      if fields == [] then "{}"
      else
        var body := seq(|fields|, i requires 0 <= i < |fields| =>
                          Quote(fields[i].0) + ": " + Encode(fields[i].1, indent, level + 1));
        "{" + Layout(body, indent, level) + "}"
  }

  /** The items of a non-empty container between its brackets. */
  function Layout(items: seq<string>, indent: Option<nat>, level: nat): string {
    match indent
    case None => Join(", ", items)
    case Some(w) =>
      var pad := Spaces(w * (level + 1));
      "\n" + Join(",\n", seq(|items|, i requires 0 <= i < |items| => pad + items[i]))
      + "\n" + Spaces(w * level)
  }

  /** What Python's `for x in v` visits: list items, the characters of a
      string, the keys of a dict. */
  function Iterate(j: Json): seq<Json>
    requires j.Arr? || j.Str? || j.Obj?
  {
    match j
    case Arr(items) => items
    case Str(s) => seq(|s|, i requires 0 <= i < |s| => Str([s[i]]))
    case Obj(fields) => seq(|fields|, i requires 0 <= i < |fields| => Str(fields[i].0))
  }
}
