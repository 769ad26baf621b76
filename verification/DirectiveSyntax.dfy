/** Recognising one line of container-directive syntax: opening fences, closing fences, attributes. */
module DirectiveSyntax {
  import opened Text

  type Attrs = seq<(string, string)>

  /** What an opening fence says: `:::name [caption] {key=value}`. */
  datatype Opening = Opening(colons: nat, name: string, caption: Option<string>, attrs: Option<Attrs>)

  predicate IsBlank(c: char) { c == ' ' || c == '\t' }

  predicate IsColon(c: char) { c == ':' }

  /** A character allowed in an unquoted attribute value. */
  predicate IsBareValueChar(c: char) { !IsSpace(c) && c != '"' && c != '{' && c != '}' }

  /** A line of three or more colons and trailing blanks: the only form that can close a directive. */
  predicate IsBareColonLine(line: string) {
    Run(line, IsColon) >= 3 && DropStart(DropStart(line, IsColon), IsBlank) == ""
  }

  /** `isDirectiveClose`: a bare colon line at least as long as `minColons`. */
  predicate IsDirectiveClose(line: string, minColons: nat) {
    IsBareColonLine(line) && Run(line, IsColon) >= minColons
  }

  // ---------------------------------------------------------------- attributes

  datatype AttrMatch = AttrMatch(key: string, value: string, rest: string)

  /** One match of the attribute pattern at the start of `s`. */
  function MatchAttr(s: string): (m: Option<AttrMatch>)
    ensures m.Some? ==> |m.value.rest| < |s| && m.value.rest == s[|s| - |m.value.rest|..]
  {
    if s == "" || !(IsLetter(s[0]) || s[0] == '_') then None
    else
      var n := Run(s, IsWordDash);
      var after := s[n..];
      if after == "" || after[0] != '=' then None else MatchValue(s[..n], after[1..])
  }

  function MatchValue(key: string, s: string): (m: Option<AttrMatch>)
    ensures m.Some? ==> |m.value.rest| <= |s| && m.value.rest == s[|s| - |m.value.rest|..]
  {
    if s != "" && s[0] == '"' then
      var q := s[1..];
      var k := IndexOf(q, '"');
      if k == |q| then None else Some(AttrMatch(key, q[..k], q[k + 1..]))
    else
      var k := Run(s, IsBareValueChar);
      if k == 0 then None else Some(AttrMatch(key, s[..k], s[k..]))
  }

  /** The one name whose assignment on a plain object reaches the prototype's setter, which ignores a string. */
  const PROTO := "__proto__"

  /** Assigning a property of a JavaScript object: an existing key keeps its place. */
  function Put(attrs: Attrs, key: string, value: string): Attrs {
    if key == PROTO then attrs
    else if attrs == [] then [(key, value)]
    else if attrs[0].0 == key then [(key, value)] + attrs[1..]
    else [attrs[0]] + Put(attrs[1..], key, value)
  }

  /** The attributes matched in `s`, left to right, assigned in order onto `acc`. */
  function AttrsFrom(s: string, acc: Attrs): Attrs
    decreases |s|
  {
    if s == "" then acc
    else match MatchAttr(s)
      case None => AttrsFrom(s[1..], acc)
      case Some(m) => AttrsFrom(m.rest, Put(acc, m.key, m.value))
  }

  /** Something in `s` is an attribute, kept or not. */
  predicate AnyMatch(s: string)
    decreases |s|
  {
    s != "" && (MatchAttr(s).Some? || AnyMatch(s[1..]))
  }

  /** No match at all is reported as `None`. */
  function AttrsOf(inner: string): Option<Attrs> {
    if AnyMatch(inner) then Some(AttrsFrom(inner, [])) else None
  }

  /** `parseDirectiveAttrs`. */
  method ParseDirectiveAttrs(inner: string) returns (attrs: Option<Attrs>)
    ensures attrs == AttrsOf(inner)
  {
    var acc: Attrs, s, any := [], inner, false;
    while s != ""
      invariant AttrsFrom(s, acc) == AttrsFrom(inner, [])
      invariant any || AnyMatch(s) <==> AnyMatch(inner)
      decreases |s|
    {
      match MatchAttr(s) {
        case None => s := s[1..];
        case Some(m) => acc, s, any := Put(acc, m.key, m.value), m.rest, true;
      }
    }
    attrs := if any then Some(acc) else None;
  }

  predicate IsBareValue(v: string) { v != "" && forall k :: 0 <= k < |v| ==> IsBareValueChar(v[k]) }

  function WithoutQuotes(v: string): (r: string)
    ensures '"' !in r
  {
    if v == "" then "" else (if v[0] == '"' then "" else [v[0]]) + WithoutQuotes(v[1..])
  }

  function AttrText(key: string, value: string): string {
    if IsBareValue(value) then key + "=" + value else key + "=" + ("\"" + (WithoutQuotes(value) + "\""))
  }

  function AttrTexts(attrs: Attrs): (parts: seq<string>)
    ensures |parts| == |attrs|
  {
    if attrs == [] then [] else [AttrText(attrs[0].0, attrs[0].1)] + AttrTexts(attrs[1..])
  }

  /** What `serializeDirectiveAttrs` puts between the braces. */
  function AttrsInner(attrs: Attrs): string { Join(AttrTexts(attrs), ' ') }

  function SerializeDirectiveAttrs(attrs: Option<Attrs>): string {
    if attrs.None? || attrs.value == [] then "" else "{" + AttrsInner(attrs.value) + "}"
  }

  // ---------------------------------------------------------------- opening fences

  /** A bracketed group at the start of `s`: its content and what follows, or nothing and `s` itself. */
  function Bracketed(s: string, open: char, close: char): (Option<string>, string) {
    if s != "" && s[0] == open && IndexOf(s[1..], close) < |s| - 1 then
      var j := IndexOf(s[1..], close);
      (Some(s[1..][..j]), s[1..][j + 1..])
    else (None, s)
  }

  /** `parseDirectiveOpen`. */
  function ParseDirectiveOpen(line: string): Option<Opening> {
    var c := Run(line, IsColon);
    var named := DropStart(line[c..], IsBlank);
    if c < 3 || named == "" || !IsLetter(named[0]) then None
    else
      var n := Run(named, IsWordDash);
      Some(ParseTail(c, named[..n], DropStart(named[n..], IsBlank)))
  }

  /** The optional `[caption]` and `{attributes}` after the name. */
  function ParseTail(colons: nat, name: string, tail: string): Opening {
    var (rawCaption, rest) := Bracketed(tail, '[', ']');
    var (inner, _) := Bracketed(DropStart(rest, IsBlank), '{', '}');
    var caption := if rawCaption.Some? then Trim(rawCaption.value) else "";
    Opening(colons, name,
            if caption == "" then None else Some(caption),
            if inner.Some? then AttrsOf(inner.value) else None)
  }

  /** No line is both an opening fence and a closing one. */
  lemma OpenIsNeverBare(line: string)
    ensures ParseDirectiveOpen(line).Some? ==> !IsBareColonLine(line)
  {
  }

  /** With the least closing length the layout parser asks for, both parsers agree on what closes. */
  lemma CloseIsBare(line: string)
    ensures IsDirectiveClose(line, 3) <==> IsBareColonLine(line)
  {
  }
}
