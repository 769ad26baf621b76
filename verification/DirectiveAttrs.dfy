/** Directive attributes survive serialisation: exactly what is lost, and when. */
module DirectiveAttrs {
  import opened Text
  import opened DirectiveSyntax

  predicate IsKey(k: string) {
    k != "" && (IsLetter(k[0]) || k[0] == '_') && forall i :: 0 <= i < |k| ==> IsWordDash(k[i])
  }

  predicate HasKey(attrs: Attrs, key: string) { exists i :: 0 <= i < |attrs| && attrs[i].0 == key }

  /** An attribute record: well-formed, pairwise distinct keys. */
  predicate IsRecord(attrs: Attrs) {
    (forall i :: 0 <= i < |attrs| ==> IsKey(attrs[i].0))
    && forall i, j :: 0 <= i < j < |attrs| ==> attrs[i].0 != attrs[j].0
  }

  predicate Fresh(acc: Attrs, attrs: Attrs) {
    forall i, j :: 0 <= i < |acc| && 0 <= j < |attrs| ==> acc[i].0 != attrs[j].0
  }

  /** What a record comes back as: without the prototype's name, and without the quotes in its values. */
  function Kept(attrs: Attrs): Attrs {
    if attrs == [] then []
    else (if attrs[0].0 == PROTO then [] else [(attrs[0].0, WithoutQuotes(attrs[0].1))]) + Kept(attrs[1..])
  }

  lemma {:induction false} KeptIsSame(attrs: Attrs)
    ensures |Kept(attrs)| <= |attrs|
    ensures |Kept(attrs)| == |attrs| <==> !HasKey(attrs, PROTO)
    ensures Kept(attrs) == attrs <==> !HasKey(attrs, PROTO) && !Holds(attrs, '"')
  {
    if attrs != [] {
      var a, rest := attrs[0], attrs[1..];
      KeptIsSame(rest);
      WithoutQuotesKeeps(a.1);
      assert attrs == [a] + rest;
      assert HasKey(attrs, PROTO) <==> a.0 == PROTO || HasKey(rest, PROTO) by { TailHas(attrs, PROTO, '"'); }
      assert Holds(attrs, '"') <==> '"' in a.1 || Holds(rest, '"') by { TailHas(attrs, PROTO, '"'); }
      if a.0 != PROTO && !HasKey(rest, PROTO) {
        assert Kept(attrs)[0] == (a.0, WithoutQuotes(a.1)) && Kept(attrs)[1..] == Kept(rest);
      }
    }
  }

  lemma TailHas(attrs: Attrs, key: string, c: char)
    requires attrs != []
    ensures HasKey(attrs, key) <==> attrs[0].0 == key || HasKey(attrs[1..], key)
    ensures Holds(attrs, c) <==> c in attrs[0].1 || Holds(attrs[1..], c)
  {
    var rest := attrs[1..];
    if i :| 0 <= i < |attrs| && attrs[i].0 == key { assert i > 0 ==> rest[i - 1].0 == key; }
    if i :| 0 <= i < |rest| && rest[i].0 == key { assert attrs[i + 1].0 == key; }
    if i :| 0 <= i < |attrs| && c in attrs[i].1 { assert i > 0 ==> c in rest[i - 1].1; }
    if i :| 0 <= i < |rest| && c in rest[i].1 { assert c in attrs[i + 1].1; }
  }

  lemma {:induction false} WithoutQuotesKeeps(v: string)
    ensures WithoutQuotes(v) == v <==> '"' !in v
    ensures |WithoutQuotes(v)| <= |v|
    ensures forall c :: c in WithoutQuotes(v) ==> c in v
  {
    if v != "" {
      WithoutQuotesKeeps(v[1..]);
      assert v == [v[0]] + v[1..];
    }
  }

  lemma {:induction false} PutAppends(acc: Attrs, key: string, value: string)
    requires !HasKey(acc, key)
    ensures Put(acc, key, value) == acc + if key == PROTO then [] else [(key, value)]
  {
    if acc != [] && key != PROTO {
      assert acc[0].0 != key;
      forall i | 0 <= i < |acc[1..]| ensures acc[1..][i].0 != key { assert acc[i + 1].0 != key; }
      PutAppends(acc[1..], key, value);
    }
  }

  // ---------------------------------------------------------------- one attribute

  lemma MatchesKey(key: string, tail: string)
    requires IsKey(key)
    ensures MatchAttr(key + "=" + tail) == MatchValue(key, tail)
  {
    var s := key + "=" + tail;
    assert s == key + ("=" + tail);
    RunOver(key, "=" + tail, IsWordDash);
    assert s[0] == key[0];
    assert ("=" + tail)[1..] == tail;
    hide Run, MatchValue;
  }

  lemma MatchesBareValue(key: string, value: string, post: string)
    requires IsBareValue(value) && (post == "" || post[0] == ' ')
    ensures MatchValue(key, value + post) == Some(AttrMatch(key, value, post))
  {
    RunOver(value, post, IsBareValueChar);
    hide Run;
    assert (value + post)[0] == value[0];
  }

  lemma MatchesQuotedValue(key: string, v: string, post: string)
    requires '"' !in v
    ensures MatchValue(key, "\"" + (v + "\"" + post)) == Some(AttrMatch(key, v, post))
  {
    var q := v + ['"'] + post;
    IndexOver(v, '"', post);
    hide IndexOf, Run;
    assert ("\"" + q)[1..] == q;
  }

  /** One serialised attribute, followed by a blank or the end, is matched whole. */
  lemma MatchesOne(key: string, value: string, post: string)
    requires IsKey(key) && (post == "" || post[0] == ' ')
    ensures MatchAttr(AttrText(key, value) + post) == Some(AttrMatch(key, WithoutQuotes(value), post))
  {
    var v := WithoutQuotes(value);
    if IsBareValue(value) {
      WithoutQuotesKeeps(value);
      hide IsKey, WithoutQuotes, MatchAttr, MatchValue;
      MatchesBareValue(key, value, post);
      MatchesKey(key, value + post);
      Assoc(key + "=", value, post);
    } else {
      hide IsKey, WithoutQuotes, MatchAttr, MatchValue, IsBareValue;
      MatchesQuotedValue(key, v, post);
      MatchesKey(key, "\"" + (v + "\"" + post));
      Assoc(key + "=", "\"" + (v + "\""), post);
      Assoc("\"", v + "\"", post);
    }
  }

  // ---------------------------------------------------------------- a whole record

  lemma InnerSplits(attrs: Attrs)
    requires attrs != []
    ensures AttrsInner(attrs) ==
      AttrText(attrs[0].0, attrs[0].1) + if |attrs| == 1 then "" else " " + AttrsInner(attrs[1..])
  {
    hide AttrText;
    var texts := AttrTexts(attrs);
    assert texts[0] == AttrText(attrs[0].0, attrs[0].1) && texts[1..] == AttrTexts(attrs[1..]);
  }

  lemma RecordTail(attrs: Attrs, acc: Attrs, value: string)
    requires IsRecord(attrs) && Fresh(acc, attrs) && attrs != []
    ensures IsKey(attrs[0].0) && IsRecord(attrs[1..]) && !HasKey(acc, attrs[0].0)
    ensures Fresh(acc + [(attrs[0].0, value)], attrs[1..]) && Fresh(acc, attrs[1..])
  {
    hide IsKey;
    var rest, acc' := attrs[1..], acc + [(attrs[0].0, value)];
    assert forall i :: 0 <= i < |rest| ==> rest[i] == attrs[i + 1];
    forall i, j | 0 <= i < |acc'| && 0 <= j < |rest|
      ensures acc'[i].0 != rest[j].0
    {
      if i < |acc| { assert acc'[i] == acc[i]; }
    }
  }

  function OneKept(key: string, value: string): Attrs { if key == PROTO then [] else [(key, value)] }

  /** Scanning one serialised attribute and going on. */
  lemma ScanStep(key: string, value: string, post: string, acc: Attrs)
    requires IsKey(key) && (post == "" || post[0] == ' ') && !HasKey(acc, key)
    ensures AttrsFrom(AttrText(key, value) + post, acc) == AttrsFrom(post, acc + OneKept(key, WithoutQuotes(value)))
  {
    var s := AttrText(key, value) + post;
    MatchesOne(key, value, post);
    PutAppends(acc, key, WithoutQuotes(value));
    assert s != "";
    hide AttrText, WithoutQuotes, MatchAttr, IsKey, HasKey, Put;
  }

  lemma KeptFirst(attrs: Attrs, acc: Attrs)
    requires attrs != []
    ensures acc + Kept(attrs) == (acc + OneKept(attrs[0].0, WithoutQuotes(attrs[0].1))) + Kept(attrs[1..])
  {
    Assoc3(acc, OneKept(attrs[0].0, WithoutQuotes(attrs[0].1)), Kept(attrs[1..]));
  }

  lemma Assoc3(a: Attrs, b: Attrs, c: Attrs)
    ensures a + (b + c) == (a + b) + c
  {
  }

  lemma FreshTail(attrs: Attrs, acc: Attrs)
    requires IsRecord(attrs) && Fresh(acc, attrs) && attrs != []
    ensures Fresh(acc + OneKept(attrs[0].0, WithoutQuotes(attrs[0].1)), attrs[1..])
  {
    RecordTail(attrs, acc, WithoutQuotes(attrs[0].1));
    hide Fresh, WithoutQuotes, IsRecord;
    assert acc + [] == acc;
  }

  lemma {:induction false} ScansAll(attrs: Attrs, acc: Attrs)
    requires IsRecord(attrs) && Fresh(acc, attrs)
    ensures AttrsFrom(AttrsInner(attrs), acc) == acc + Kept(attrs)
  {
    if attrs != [] {
      hide AttrText, WithoutQuotes, AttrsInner, IsKey, Kept, IsRecord, Fresh, OneKept, AttrsFrom, HasKey;
      var a, rest := attrs[0], attrs[1..];
      var acc' := acc + OneKept(a.0, WithoutQuotes(a.1));
      var post := if rest == [] then "" else " " + AttrsInner(rest);
      RecordTail(attrs, acc, "");
      FreshTail(attrs, acc);
      InnerSplits(attrs);
      ScanStep(a.0, a.1, post, acc);
      KeptFirst(attrs, acc);
      ScansAll(rest, acc');
      if rest == [] { NothingScanned(acc'); } else { BlankIsSkipped(AttrsInner(rest), acc'); }
    } else {
      assert acc + [] == acc;
    }
  }

  lemma NothingScanned(acc: Attrs)
    ensures AttrsFrom("", acc) == acc && AttrsInner([]) == "" && AttrsFrom(AttrsInner([]), acc) == acc
  {
  }

  lemma InnerMatches(attrs: Attrs)
    requires IsRecord(attrs) && attrs != []
    ensures AnyMatch(AttrsInner(attrs))
  {
    var post := if |attrs| == 1 then "" else " " + AttrsInner(attrs[1..]);
    InnerSplits(attrs);
    MatchesOne(attrs[0].0, attrs[0].1, post);
    hide AttrText, WithoutQuotes, MatchAttr, AttrsInner;
  }

  lemma BlankIsSkipped(s: string, acc: Attrs)
    ensures AttrsFrom(" " + s, acc) == AttrsFrom(s, acc)
  {
    assert MatchAttr(" " + s) == None && (" " + s)[1..] == s;
  }

  /** Parsing what was serialised gives the record back with the quotes gone from its values and the
      prototype's name gone from its keys, so it gives back the record itself exactly when there are none. */
  lemma AttrsRoundTrip(attrs: Attrs)
    requires IsRecord(attrs) && attrs != []
    ensures AttrsOf(AttrsInner(attrs)) == Some(Kept(attrs))
    ensures AttrsOf(AttrsInner(attrs)) == Some(attrs) <==> !Holds(attrs, '"') && !HasKey(attrs, PROTO)
  {
    ScansAll(attrs, []);
    InnerMatches(attrs);
    hide AttrsFrom, AttrsInner, IsRecord, Kept, AnyMatch;
    assert [] + Kept(attrs) == Kept(attrs);
    KeptIsSame(attrs);
  }

  /** Records that do not come back: a quote, and the prototype's name. */
  lemma QuoteAndProtoAreLost()
    ensures AttrsOf(AttrsInner([("a", "x\"y")])) == Some([("a", "xy")])
    ensures AttrsOf(AttrsInner([("__proto__", "x")])) == Some([])
  {
    hide AttrsFrom, AttrsInner, AnyMatch, AttrsOf;
    QuoteFalls();
    ProtoFalls();
    assert IsKey("a") && IsKey("__proto__");
    AttrsRoundTrip([("a", "x\"y")]);
    AttrsRoundTrip([("__proto__", "x")]);
  }

  lemma QuoteFalls()
    ensures Kept([("a", "x\"y")]) == [("a", "xy")]
  {
    assert "x\"y"[1..] == "\"y" && "\"y"[1..] == "y" && "y"[1..] == "";
    assert WithoutQuotes("x\"y") == "xy";
    assert [("a", "x\"y")][1..] == [];
  }

  lemma ProtoFalls()
    ensures Kept([("__proto__", "x")]) == []
  {
    assert [("__proto__", "x")][1..] == [];
  }

  predicate Holds(attrs: Attrs, c: char) { exists i :: 0 <= i < |attrs| && c in attrs[i].1 }

  // ---------------------------------------------------------------- through an opening fence

  lemma {:induction false} PutKeepsChars(acc: Attrs, key: string, value: string, c: char)
    requires c !in value && !Holds(acc, c)
    ensures !Holds(Put(acc, key, value), c)
  {
    if acc != [] && key != PROTO && acc[0].0 != key {
      assert !Holds(acc[1..], c) by {
        forall i | 0 <= i < |acc[1..]| ensures c !in acc[1..][i].1 { assert c !in acc[i + 1].1; }
      }
      PutKeepsChars(acc[1..], key, value, c);
    }
  }

  /** Parsed values are cut out of the parsed text. */
  lemma {:induction false} ValuesComeFromText(s: string, acc: Attrs, c: char)
    requires c !in s && !Holds(acc, c)
    ensures !Holds(AttrsFrom(s, acc), c)
    decreases |s|
  {
    if s != "" {
      match MatchAttr(s) {
        case None => ValuesComeFromText(s[1..], acc, c);
        case Some(m) =>
          PutKeepsChars(acc, m.key, m.value, c);
          ValuesComeFromText(m.rest, Put(acc, m.key, m.value), c);
      }
    }
  }

  predicate IsFence(colons: string, name: string) {
    |colons| >= 3 && (forall i :: 0 <= i < |colons| ==> colons[i] == ':')
    && name != "" && IsLetter(name[0]) && forall i :: 0 <= i < |name| ==> IsWordDash(name[i])
  }

  lemma FenceAttrs(colons: string, name: string, inner: string)
    requires IsFence(colons, name)
    ensures var open := ParseDirectiveOpen(colons + name + ("{" + inner + "}"));
      open.Some? && open.value.colons == |colons| && open.value.name == name && open.value.caption == None
      && open.value.attrs == AttrsOf(inner[..IndexOf(inner, '}')])
  {
    hide Run, AttrsOf, IndexOf, DropStart, Bracketed, ParseTail, IsFence, IsWordDash, IsBlank;
    var body := "{" + inner + "}";
    Assoc(colons, name, body);
    ColonsOver(colons, name, body);
    NameAndBody(colons, name, body);
    TailOf(|colons|, name, inner);
  }

  lemma ColonsOver(colons: string, name: string, body: string)
    requires IsFence(colons, name)
    ensures Run(colons + (name + body), IsColon) == |colons| >= 3
    ensures (colons + (name + body))[|colons|..] == name + body
  {
    RunOver(colons, name + body, IsColon);
  }

  lemma NameAndBody(colons: string, name: string, body: string)
    requires IsFence(colons, name) && body != "" && body[0] == '{'
    ensures IsLetter(name[0])
    ensures DropStart(name + body, IsBlank) == name + body && (name + body)[0] == name[0]
    ensures Run(name + body, IsWordDash) == |name|
    ensures (name + body)[..|name|] == name && (name + body)[|name|..] == body
    ensures DropStart(body, IsBlank) == body
  {
    RunOver(name, body, IsWordDash);
    assert (name + body)[0] == name[0];
  }

  lemma TailOf(colons: nat, name: string, inner: string)
    ensures ParseTail(colons, name, "{" + inner + "}")
         == Opening(colons, name, None, AttrsOf(inner[..IndexOf(inner, '}')]))
  {
    BracedPiece(inner);
    var body := "{" + inner + "}";
    assert DropStart(body, IsBlank) == body;
    hide AttrsOf, IndexOf;
  }

  lemma BracketedOver(open: char, mid: string, close: char, post: string)
    requires close !in mid
    ensures Bracketed([open] + (mid + [close] + post), open, close) == (Some(mid), post)
  {
    IndexOver(mid, close, post);
    hide IndexOf;
    assert ([open] + (mid + [close] + post))[1..] == mid + [close] + post;
  }

  lemma BracedPiece(inner: string)
    ensures Bracketed("{" + inner + "}", '{', '}').0 == Some(inner[..IndexOf(inner, '}')])
  {
    hide IndexOf, Bracketed;
    var j := IndexOf(inner, '}');
    var post := (inner + "}")[j + 1..];
    BracketedOver('{', inner[..j], '}', post);
    assert "{" + inner + "}" == ['{'] + (inner[..j] + ['}'] + post);
  }

  /** Written into an opening fence and read back, a record survives exactly when no value holds a quote
      or a closing brace and no key is the prototype's name. */
  lemma FenceRoundTrip(colons: string, name: string, attrs: Attrs)
    requires IsFence(colons, name) && IsRecord(attrs) && attrs != []
    ensures var open := ParseDirectiveOpen(colons + name + SerializeDirectiveAttrs(Some(attrs)));
      open.Some? && open.value.name == name
      && (open.value.attrs == Some(attrs) <==> !Holds(attrs, '"') && !Holds(attrs, '}') && !HasKey(attrs, PROTO))
  {
    var inner := AttrsInner(attrs);
    FenceAttrs(colons, name, inner);
    AttrsRoundTrip(attrs);
    BraceEndsGroup(attrs);
    hide ParseDirectiveOpen, AttrsOf, AttrsInner, IsRecord, IsFence, IndexOf;
  }

  /** The part of the serialised record before its first closing brace gives the record back only when
      there is no such brace. */
  lemma BraceEndsGroup(attrs: Attrs)
    requires IsRecord(attrs) && attrs != []
    ensures var inner := AttrsInner(attrs);
      if Holds(attrs, '}') then AttrsOf(inner[..IndexOf(inner, '}')]) != Some(attrs)
      else inner[..IndexOf(inner, '}')] == inner
  {
    var inner := AttrsInner(attrs);
    if Holds(attrs, '}') {
      ValuesComeFromText(inner[..IndexOf(inner, '}')], [], '}');
    } else {
      InnerKeepsChars(attrs, '}');
    }
  }

  lemma {:induction false} InnerKeepsChars(attrs: Attrs, c: char)
    requires IsRecord(attrs) && !Holds(attrs, c) && c != '=' && c != '"' && c != ' ' && !IsWordDash(c)
    ensures c !in AttrsInner(attrs)
  {
    if attrs != [] {
      WithoutQuotesKeeps(attrs[0].1);
      InnerSplits(attrs);
      assert !Holds(attrs[1..], c) by {
        forall i | 0 <= i < |attrs[1..]| ensures c !in attrs[1..][i].1 { assert c !in attrs[i + 1].1; }
      }
      RecordTail(attrs, [], "");
      hide IsRecord, AttrsInner, WithoutQuotes, IsBareValue;
      InnerKeepsChars(attrs[1..], c);
      assert c !in AttrText(attrs[0].0, attrs[0].1);
    }
  }

  // ---------------------------------------------------------------- in a document

  lemma DropStartFrom(s: string, p: char -> bool, c: char)
    requires c !in s
    ensures c !in DropStart(s, p)
  {
  }

  lemma BracketedFrom(s: string, open: char, close: char, c: char)
    requires c !in s
    ensures var (inner, rest) := Bracketed(s, open, close); (inner.Some? ==> c !in inner.value) && c !in rest
  {
    hide IndexOf;
  }

  lemma TailFrom(colons: nat, name: string, tail: string, c: char)
    requires c !in tail
    ensures var o := ParseTail(colons, name, tail); o.attrs.Some? ==> !Holds(o.attrs.value, c)
  {
    var (rawCaption, rest) := Bracketed(tail, '[', ']');
    BracketedFrom(tail, '[', ']', c);
    DropStartFrom(rest, IsBlank, c);
    BracketedFrom(DropStart(rest, IsBlank), '{', '}', c);
    var (inner, after) := Bracketed(DropStart(rest, IsBlank), '{', '}');
    hide Bracketed, DropStart, AttrsFrom, AnyMatch, Trim;
    if inner.Some? { ValuesComeFromText(inner.value, [], c); }
  }

  /** Attributes read from a line hold only what is on the line. */
  lemma OpeningComesFromLine(line: string, c: char)
    requires c !in line
    ensures var open := ParseDirectiveOpen(line);
      open.Some? && open.value.attrs.Some? ==> !Holds(open.value.attrs.value, c)
  {
    hide Run, DropStart, ParseTail, IsWordDash, Holds;
    var n := Run(line, IsColon);
    DropStartFrom(line[n..], IsBlank, c);
    var named := DropStart(line[n..], IsBlank);
    var m := Run(named, IsWordDash);
    DropStartFrom(named[m..], IsBlank, c);
    TailFrom(n, named[..m], DropStart(named[m..], IsBlank), c);
  }

  lemma FenceIsOneLine(colons: string, name: string, attrs: Attrs)
    requires IsFence(colons, name) && IsRecord(attrs) && attrs != [] && !Holds(attrs, '\n')
    ensures '\n' !in colons + name + SerializeDirectiveAttrs(Some(attrs))
  {
    InnerKeepsChars(attrs, '\n');
    hide AttrsInner, IsRecord, Holds;
    assert '\n' !in colons && '\n' !in name;
  }

  /** Written as the first line of a document, whose lines are then parsed, the record survives under the same
      conditions and only when no value holds a line break, which would end the fence inside the braces. */
  lemma FenceInDocument(colons: string, name: string, attrs: Attrs, after: string)
    requires IsFence(colons, name) && IsRecord(attrs) && attrs != []
    ensures var fence := colons + name + SerializeDirectiveAttrs(Some(attrs));
      var open := ParseDirectiveOpen(Lines(fence + "\n" + after)[0]);
      (open.Some? && open.value.attrs == Some(attrs)) <==>
        !Holds(attrs, '"') && !Holds(attrs, '}') && !Holds(attrs, '\n') && !HasKey(attrs, PROTO)
  {
    var fence := colons + name + SerializeDirectiveAttrs(Some(attrs));
    if Holds(attrs, '\n') {
      var first := Lines(fence + "\n" + after)[0];
      OpeningComesFromLine(first, '\n');
    } else {
      FenceIsOneLine(colons, name, attrs);
      FenceRoundTrip(colons, name, attrs);
      hide ParseDirectiveOpen, IsRecord, IsFence, SerializeDirectiveAttrs, Split;
      assert fence + "\n" + after == fence + ['\n'] + after;
      SplitHead(fence, after, '\n');
    }
  }
}
