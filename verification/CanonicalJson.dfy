/** `JSON.stringify` on the values an audit entry can hold, and why its output can be read back in one way:
    equal text means equal value, whatever follows. */
module CanonicalJson {
  import opened Text

  predicate IsNumberChar(c: char) { IsDigit(c) || c == '-' || c == '+' || c == '.' || c == 'e' }

  predicate IsNumberText(s: string) { s != "" && forall k :: 0 <= k < |s| ==> IsNumberChar(s[k]) }

  /** A finite number, known by the decimal text JavaScript prints for it. */
  type NumberText = s: string | IsNumberText(s) witness "0"

  datatype Json =
    | Null
    | Bool(b: bool)
    | Number(text: NumberText)
    | Text(s: string)
    | Array(items: Items)
    | Object(fields: Fields)

  datatype Items = NoItems | Item(head: Json, tail: Items)

  /** An object's own fields in insertion order. */
  datatype Fields = NoFields | Field(key: string, value: Json, rest: Fields)

  // ---------------------------------------------------------------- strings

  function HexDigit(d: nat): (c: char)
    requires d < 16
    ensures !IsSpace(c)
  {
    "0123456789abcdef"[d]
  }

  function EscapeChar(c: char): (r: string)
    ensures r != "" && r[0] != '"'
  {
    var n := c as int;
    if c == '"' then "\\\""
    else if c == '\\' then "\\\\"
    else if n == 8 then "\\b"
    else if n == 9 then "\\t"
    else if n == 10 then "\\n"
    else if n == 12 then "\\f"
    else if n == 13 then "\\r"
    else if n < 32 then "\\u00" + [HexDigit(n / 16), HexDigit(n % 16)]
    else [c]
  }

  function Escape(s: string): string {
    if s == "" then "" else EscapeChar(s[0]) + Escape(s[1..])
  }

  function Quote(s: string): (r: string)
    ensures r != "" && r[0] == '"'
  {
    "\"" + (Escape(s) + "\"")
  }

  lemma HexDigitInjective(a: nat, b: nat)
    requires a < 16 && b < 16 && HexDigit(a) == HexDigit(b)
    ensures a == b
  {
    var s := "0123456789abcdef";
    assert forall i, j :: 0 <= i < j < 16 ==> s[i] != s[j];
  }

  lemma EscapeCharPrefix(c: char, d: char, u: string, v: string)
    requires EscapeChar(c) + u == EscapeChar(d) + v
    ensures c == d && u == v
  {
    hide HexDigit, IsSpace;
    var x, y := EscapeChar(c), EscapeChar(d);
    assert (x + u)[0] == x[0] && (y + v)[0] == y[0];
    if x[0] == '\\' {
      assert (x + u)[1] == x[1] && (y + v)[1] == y[1];
      if x[1] == 'u' {
        assert |x| == 6 && |y| == 6;
        assert (x + u)[4] == x[4] && (y + v)[4] == y[4];
        assert (x + u)[5] == x[5] && (y + v)[5] == y[5];
        HexDigitInjective(c as int / 16, d as int / 16);
        HexDigitInjective(c as int % 16, d as int % 16);
      }
    }
    assert |x| == |y|;
    assert (x + u)[|x|..] == u && (y + v)[|y|..] == v;
  }

  lemma {:induction false} EscapeReadsBack(s: string, t: string, u: string, v: string)
    requires Escape(s) + "\"" + u == Escape(t) + "\"" + v
    ensures s == t && u == v
  {
    hide EscapeChar;
    var x, y := Escape(s) + "\"" + u, Escape(t) + "\"" + v;
    assert x[0] == if s == "" then '"' else EscapeChar(s[0])[0];
    assert y[0] == if t == "" then '"' else EscapeChar(t[0])[0];
    if s == "" && t == "" {
      assert x[1..] == u && y[1..] == v;
    } else if s != "" && t != "" {
      assert x == EscapeChar(s[0]) + (Escape(s[1..]) + "\"" + u);
      assert y == EscapeChar(t[0]) + (Escape(t[1..]) + "\"" + v);
      EscapeCharPrefix(s[0], t[0], Escape(s[1..]) + "\"" + u, Escape(t[1..]) + "\"" + v);
      EscapeReadsBack(s[1..], t[1..], u, v);
      assert s == [s[0]] + s[1..] && t == [t[0]] + t[1..];
    }
  }

  lemma QuoteTail(s: string, u: string)
    ensures (Quote(s) + u)[1..] == Escape(s) + "\"" + u
  {
    hide Escape;
  }

  lemma QuoteReadsBack(s: string, t: string, u: string, v: string)
    requires Quote(s) + u == Quote(t) + v
    ensures s == t && u == v
  {
    hide Escape;
    QuoteTail(s, u);
    QuoteTail(t, v);
    EscapeReadsBack(s, t, u, v);
  }

  // ---------------------------------------------------------------- values

  function Print(j: Json): (r: string)
    ensures r != "" && r[0] != ']' && r[0] != ',' && r[0] != '}'
    decreases j
  {
    match j
    case Null => "null"
    case Bool(b) => if b then "true" else "false"
    case Number(t) => t
    case Text(s) => Quote(s)
    case Array(items) => "[" + PrintItems(items)
    case Object(fields) => "{" + PrintFields(fields)
  }

  /** The items and the closing bracket. */
  function PrintItems(items: Items): (r: string)
    ensures r != "" && (r[0] == ']' <==> items.NoItems?)
    decreases items
  {
    match items
    case NoItems => "]"
    case Item(head, tail) => Print(head) + PrintMoreItems(tail)
  }

  function PrintMoreItems(items: Items): (r: string)
    ensures r != "" && r[0] == if items.NoItems? then ']' else ','
    decreases items
  {
    match items
    case NoItems => "]"
    case Item(head, tail) => "," + (Print(head) + PrintMoreItems(tail))
  }

  function PrintFields(fields: Fields): (r: string)
    ensures r != "" && (r[0] == '}' <==> fields.NoFields?)
    decreases fields
  {
    match fields
    case NoFields => "}"
    case Field(key, value, rest) => Quote(key) + (":" + (Print(value) + PrintMoreFields(rest)))
  }

  function PrintMoreFields(fields: Fields): (r: string)
    ensures r != "" && r[0] == if fields.NoFields? then '}' else ','
    decreases fields
  {
    match fields
    case NoFields => "}"
    case Field(key, value, rest) => "," + (Quote(key) + (":" + (Print(value) + PrintMoreFields(rest))))
  }

  /** What follows a value never continues a number. */
  predicate Ends(x: string) { x == "" || !IsNumberChar(x[0]) }

  lemma {:induction false} NumberReadsBack(s: string, t: string, u: string, v: string)
    requires (forall k :: 0 <= k < |s| ==> IsNumberChar(s[k])) && (forall k :: 0 <= k < |t| ==> IsNumberChar(t[k]))
    requires Ends(u) && Ends(v) && s + u == t + v
    ensures s == t && u == v
  {
    hide IsNumberChar;
    var x, y := s + u, t + v;
    assert forall k :: 0 <= k < |s| ==> IsNumberChar(x[k]);
    assert forall k :: 0 <= k < |t| ==> IsNumberChar(y[k]);
    assert |s| < |x| ==> !IsNumberChar(x[|s|]);
    assert |t| < |y| ==> !IsNumberChar(y[|t|]);
    assert |s| == |t|;
    assert x[..|s|] == s && y[..|t|] == t && x[|s|..] == u && y[|t|..] == v;
  }

  /** A one-letter class that the first character of a printed value tells. */
  function Class(j: Json): char {
    match j
    case Null => 'n'
    case Bool(b) => if b then 't' else 'f'
    case Number(_) => '0'
    case Text(_) => '"'
    case Array(_) => '['
    case Object(_) => '{'
  }

  lemma FirstCharTellsClass(j: Json)
    ensures var c := Print(j)[0]; if j.Number? then IsNumberChar(c) else c == Class(j) && !IsNumberChar(c)
  {}

  lemma PrintReadsBack(a: Json, b: Json, u: string, v: string)
    requires Print(a) + u == Print(b) + v && Ends(u) && Ends(v)
    ensures a == b && u == v
    decreases a
  {
    var x, y := Print(a) + u, Print(b) + v;
    hide Quote, PrintItems, PrintFields, IsNumberChar, Ends;
    FirstCharTellsClass(a);
    FirstCharTellsClass(b);
    assert x[0] == Print(a)[0] && y[0] == Print(b)[0];
    assert Class(a) == Class(b);
    match a
    case Null => assert x[4..] == u && y[4..] == v;
    case Bool(p) => assert x[|Print(a)|..] == u && y[|Print(b)|..] == v;
    case Number(s) => NumberReadsBack(s, b.text, u, v);
    case Text(s) => QuoteReadsBack(s, b.s, u, v);
    case Array(items) =>
      assert x[1..] == PrintItems(items) + u && y[1..] == PrintItems(b.items) + v;
      ItemsReadBack(items, b.items, u, v);
    case Object(fields) =>
      assert x[1..] == PrintFields(fields) + u && y[1..] == PrintFields(b.fields) + v;
      FieldsReadBack(fields, b.fields, u, v);
  }

  lemma ItemsReadBack(a: Items, b: Items, u: string, v: string)
    requires PrintItems(a) + u == PrintItems(b) + v
    ensures a == b && u == v
    decreases a
  {
    hide Print, PrintMoreItems;
    var x, y := PrintItems(a) + u, PrintItems(b) + v;
    assert x[0] == PrintItems(a)[0] && y[0] == PrintItems(b)[0];
    match (a, b)
    case (NoItems, NoItems) => assert x[1..] == u && y[1..] == v;
    case (Item(h, t), Item(h2, t2)) =>
      assert x == Print(h) + (PrintMoreItems(t) + u) && y == Print(h2) + (PrintMoreItems(t2) + v);
      PrintReadsBack(h, h2, PrintMoreItems(t) + u, PrintMoreItems(t2) + v);
      MoreItemsReadBack(t, t2, u, v);
    case (_, _) =>
  }

  lemma MoreItemsReadBack(a: Items, b: Items, u: string, v: string)
    requires PrintMoreItems(a) + u == PrintMoreItems(b) + v
    ensures a == b && u == v
    decreases a
  {
    hide Print;
    var x, y := PrintMoreItems(a) + u, PrintMoreItems(b) + v;
    assert x[0] == PrintMoreItems(a)[0] && y[0] == PrintMoreItems(b)[0];
    match (a, b)
    case (NoItems, NoItems) => assert x[1..] == u && y[1..] == v;
    case (Item(h, t), Item(h2, t2)) =>
      assert x[1..] == Print(h) + (PrintMoreItems(t) + u) && y[1..] == Print(h2) + (PrintMoreItems(t2) + v);
      PrintReadsBack(h, h2, PrintMoreItems(t) + u, PrintMoreItems(t2) + v);
      MoreItemsReadBack(t, t2, u, v);
    case (_, _) =>
  }

  lemma FieldReadsBack(a: Fields, b: Fields, u: string, v: string)
    requires a.Field? && b.Field? && PrintFields(a) + u == PrintFields(b) + v
    ensures a == b && u == v
    decreases a, 0
  {
    hide Print, PrintMoreFields, Quote;
    var x, y := PrintMoreFields(a.rest) + u, PrintMoreFields(b.rest) + v;
    assert PrintFields(a) + u == Quote(a.key) + (":" + (Print(a.value) + x));
    assert PrintFields(b) + v == Quote(b.key) + (":" + (Print(b.value) + y));
    QuoteReadsBack(a.key, b.key, ":" + (Print(a.value) + x), ":" + (Print(b.value) + y));
    assert (":" + (Print(a.value) + x))[1..] == Print(a.value) + x;
    assert (":" + (Print(b.value) + y))[1..] == Print(b.value) + y;
    PrintReadsBack(a.value, b.value, x, y);
    MoreFieldsReadBack(a.rest, b.rest, u, v);
  }

  lemma FieldsReadBack(a: Fields, b: Fields, u: string, v: string)
    requires PrintFields(a) + u == PrintFields(b) + v
    ensures a == b && u == v
    decreases a, 1
  {
    hide Print, PrintMoreFields;
    var x, y := PrintFields(a) + u, PrintFields(b) + v;
    assert x[0] == PrintFields(a)[0] && y[0] == PrintFields(b)[0];
    match (a, b)
    case (NoFields, NoFields) => assert x[1..] == u && y[1..] == v;
    case (Field(_, _, _), Field(_, _, _)) => FieldReadsBack(a, b, u, v);
    case (_, _) =>
  }

  lemma MoreFieldsReadBack(a: Fields, b: Fields, u: string, v: string)
    requires PrintMoreFields(a) + u == PrintMoreFields(b) + v
    ensures a == b && u == v
    decreases a, 1
  {
    hide Print, Quote;
    var x, y := PrintMoreFields(a) + u, PrintMoreFields(b) + v;
    assert x[0] == PrintMoreFields(a)[0] && y[0] == PrintMoreFields(b)[0];
    match (a, b)
    case (NoFields, NoFields) => assert x[1..] == u && y[1..] == v;
    case (Field(_, _, _), Field(_, _, _)) =>
      assert x[1..] == PrintFields(a) + u && y[1..] == PrintFields(b) + v;
      FieldReadsBack(a, b, u, v);
    case (_, _) =>
  }
}
