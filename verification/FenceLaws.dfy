/** Printing a fence descriptor and parsing it back. */
module FenceLaws {
  import opened Text
  import opened FenceInfo

  // ---------------------------------------------------------------- tokens that end themselves

  /** A word whose quotes are closed and that holds no blank outside them. */
  predicate ClosedWord(t: string)
    decreases |t|
  {
    if t == "" then true
    else if IsQuote(t[0]) then QuotedLen(t) <= |t| && IndexOf(t[1..], t[0]) < |t| - 1 && ClosedWord(t[QuotedLen(t)..])
    else !IsBlank(t[0]) && ClosedWord(t[1..])
  }

  /** A token the tokenizer reads whole and alone, wherever it stands in a blank-separated list. */
  predicate Closed(t: string) {
    t != "" && !IsBlank(t[0]) && if t[0] == '{' then IndexOf(t, '}') == |t| - 1 else ClosedWord(t)
  }

  predicate Separated(post: string) { post == "" || IsBlank(post[0]) }

  lemma {:induction false} WordOver(t: string, post: string)
    requires ClosedWord(t) && Separated(post)
    ensures WordLen(t + post) == |t|
    decreases |t|
  {
    if t == "" {
      assert t + post == post;
    } else if IsQuote(t[0]) {
      var n := QuotedLen(t);
      QuotedOver(t, post);
      WordOver(t[n..], post);
      assert (t + post)[n..] == t[n..] + post;
      WordStep(t + post);
    } else {
      WordOver(t[1..], post);
      assert (t + post)[1..] == t[1..] + post;
      WordStep(t + post);
    }
  }

  lemma QuotedOver(t: string, post: string)
    requires t != "" && IndexOf(t[1..], t[0]) < |t| - 1
    ensures QuotedLen(t + post) == QuotedLen(t)
  {
    hide IndexOf;
    var q := IndexOf(t[1..], t[0]);
    var mid, rest := t[1..][..q], t[1..][q + 1..] + post;
    assert t[1..] == mid + [t[0]] + t[1..][q + 1..];
    assert (t + post)[1..] == mid + [t[0]] + rest;
    IndexOver(mid, t[0], rest);
  }

  lemma TokenOver(t: string, post: string)
    requires Closed(t) && Separated(post)
    ensures t + post != "" && !IsBlank((t + post)[0]) && TokenLen(t + post) == |t|
  {
    assert (t + post)[0] == t[0];
    if t[0] == '{' {
      hide IndexOf, WordLen;
      var mid := t[..|t| - 1];
      assert t == mid + ['}'] && t + post == mid + ['}'] + post;
      assert '}' !in mid;
      IndexOver(mid, '}', post);
    } else {
      WordOver(t, post);
    }
  }

  lemma TokensOver(t: string, post: string)
    requires Closed(t) && Separated(post)
    ensures Tokens(t + post) == [t] + Tokens(post)
  {
    TokenOver(t, post);
    TokensAt(t + post);
    NoLeadingBlank(t + post);
    hide Tokens, TokenLen, Closed, DropStart;
    assert (t + post)[..|t|] == t && (t + post)[|t|..] == post;
  }

  lemma NoLeadingBlank(s: string)
    requires s != "" && !IsBlank(s[0])
    ensures DropStart(s, IsBlank) == s
  {
  }

  lemma BlankThen(s: string)
    ensures Tokens(" " + s) == Tokens(s)
  {
    TokensAt(" " + s);
    TokensAt(s);
    hide Tokens, TokenLen;
    assert (" " + s)[1..] == s;
    assert DropStart(" " + s, IsBlank) == DropStart(s, IsBlank);
  }

  /** Tokenizing inverts joining with blanks. */
  lemma {:induction false} TokenizeInvertsJoin(parts: seq<string>)
    requires forall k :: 0 <= k < |parts| ==> Closed(parts[k])
    ensures Tokens(Join(parts, ' ')) == parts
  {
    hide Tokens, Closed, Join, Separated;
    JoinStep(parts);
    SeparatedHere();
    if parts == [] {
      NothingLeft();
    } else {
      var t, rest := parts[0], parts[1..];
      assert forall k :: 0 <= k < |rest| ==> rest[k] == parts[k + 1];
      if rest == [] {
        TokensOver(t, "");
        NothingLeft();
        assert t + "" == t;
      } else {
        TokenizeInvertsJoin(rest);
        BlankSeparates(Join(rest, ' '));
        TokensOver(t, " " + Join(rest, ' '));
        BlankThen(Join(rest, ' '));
      }
      assert parts == [t] + rest;
    }
  }

  lemma SeparatedHere()
    ensures Separated("")
  {}

  lemma BlankSeparates(s: string)
    ensures Separated(" " + s)
  {}

  lemma JoinStep(parts: seq<string>)
    ensures Join(parts, ' ') ==
      if parts == [] then "" else if parts[1..] == [] then parts[0] else parts[0] + (" " + Join(parts[1..], ' '))
  {
    if |parts| > 1 { Assoc(parts[0], " ", Join(parts[1..], ' ')); }
  }

  // ---------------------------------------------------------------- ranges

  predicate Ordered(rs: Ranges) {
    forall k :: 0 <= k < |rs| ==> rs[k].0 <= rs[k].1 <= MAX_SAFE_INTEGER
  }

  lemma RangePartInverts(r: (nat, nat))
    requires r.0 <= r.1
    ensures RangePart(RangeText(r)) == Some(r)
  {
    hide Numeral, NumeralValue, Run;
    var a, b := Numeral(r.0), Numeral(r.1);
    NumeralRoundTrip(r.0);
    NumeralRoundTrip(r.1);
    if r.0 == r.1 {
      RunOver(a, "", IsDigit);
      assert a + "" == a && a[..|a|] == a;
    } else {
      RunOver(a, "-" + b, IsDigit);
      Assoc(a, "-", b);
      var s := RangeText(r);
      assert s[|a|] == '-' && s[|a| + 1..] == b;
    }
  }

  lemma RangeTextChars(r: (nat, nat))
    ensures Trim(RangeText(r)) == RangeText(r)
    ensures ',' !in RangeText(r) && '}' !in RangeText(r)
  {
    hide Numeral;
    var a, b, s := Numeral(r.0), Numeral(r.1), RangeText(r);
    if r.0 != r.1 { assert s[|s| - 1] == b[|b| - 1] && s[0] == a[0]; }
    DigitsNeedNoTrim(s);
  }

  lemma DigitsNeedNoTrim(s: string)
    requires s != "" && IsDigit(s[0]) && IsDigit(s[|s| - 1])
    ensures Trim(s) == s
  {
    TrimIsIdentity(s);
  }

  lemma {:induction false} RangesInInverts(rs: Ranges)
    requires Ordered(rs)
    ensures RangesIn(RangeTexts(rs)) == rs
  {
    if rs != [] {
      RangePartInverts(rs[0]);
      RangeTextChars(rs[0]);
      RangesInInverts(rs[1..]);
      hide RangePart, RangeText, Trim;
    }
  }

  lemma RangesInvert(rs: Ranges)
    requires Ordered(rs) && rs != []
    ensures RangesOf(RangesText(rs)) == Some(rs)
    ensures Printable(RangesText(rs)) && RangesText(rs)[0] == '{'
  {
    hide RangesIn, RangeTexts, Join, Split, RangeText, Closed;
    var parts := RangeTexts(rs);
    forall k | 0 <= k < |rs| ensures ',' !in parts[k] && '}' !in parts[k] { RangeTextChars(rs[k]); }
    SplitJoin(parts, ',');
    RangesInInverts(rs);
    JoinAvoids(parts, ',', '}');
    BracedIsClosed(Join(parts, ','));
  }

  lemma BracedIsClosed(inner: string)
    requires '}' !in inner
    ensures Strip("{" + inner + "}") == inner
    ensures Printable("{" + inner + "}") && ("{" + inner + "}")[0] == '{'
  {
    hide IndexOf, ClosedWord;
    var tok := "{" + inner + "}";
    assert tok[0] == '{' && tok[1..] == inner + "}" && (inner + "}")[..|inner|] == inner;
    IndexOver("{" + inner, '}', "");
    assert ("{" + inner) + ['}'] + "" == tok;
  }

  lemma {:induction false} JoinAvoids(parts: seq<string>, sep: char, c: char)
    requires c != sep && forall k :: 0 <= k < |parts| ==> c !in parts[k]
    ensures c !in Join(parts, sep)
  {
    if |parts| > 1 { JoinAvoids(parts[1..], sep, c); }
  }

  // ---------------------------------------------------------------- what is canonical

  /** A token the parser files under `extra`. */
  predicate Unknown(t: string) {
    t != "" &&
    if t[0] == '{' then RangesOf(t) == None
    else
      var eq := IndexOf(t, '=');
      if eq == |t| then t != SHOW
      else t[..eq] != "title" && !(t[..eq] == "align" && AlignOf(Unquote(t[eq + 1..])).Some?)
  }

  /** The conditions every parsed descriptor meets, so that no other one can survive a round trip. */
  predicate WellFormed(d: Info) {
    (d.lang == "" || !AttrShaped(d.lang))
    && (d.highlight.Some? ==> d.highlight.value != [] && OrderedPairs(d.highlight.value))
    && forall k :: 0 <= k < |d.extra| ==> Unknown(d.extra[k])
  }

  /** Trimming the whole info string leaves this token's ends alone. */
  predicate TrimSafe(t: string) { t != "" && !IsSpace(t[0]) && !IsSpace(t[|t| - 1]) }

  predicate Printable(t: string) { Closed(t) && TrimSafe(t) }

  predicate Canonical(d: Info) {
    WellFormed(d)
    && d.align != Some(Center)
    && (d.lang == "" || (Printable(d.lang)))
    && (d.title.Some? ==> Closed(TitleText(d.title.value)))
    && (d.highlight.Some? ==> Ordered(d.highlight.value))
    && (forall k :: 0 <= k < |d.extra| ==> Printable(d.extra[k]))
    && (d.lang == "" && AttrParts(d) != [] ==> AttrShaped(AttrParts(d)[0]))
  }

  // ---------------------------------------------------------------- every parse is well formed

  predicate OrderedPairs(rs: Ranges) { forall k :: 0 <= k < |rs| ==> rs[k].0 <= rs[k].1 }

  lemma ApplyEffect(d: Info, t: string)
    requires t != ""
    ensures var e := Apply(d, t);
      e.lang == d.lang
      && (e.extra == d.extra || (e.extra == d.extra + [t] && Unknown(t)))
      && (e.highlight == d.highlight || (e.highlight == RangesOf(t) && RangesOf(t).Some?))
  {
    hide IndexOf, Unquote, AlignOf, RangesOf;
  }

  lemma RangesAreOrdered(t: string)
    requires RangesOf(t).Some?
    ensures RangesOf(t).value != [] && OrderedPairs(RangesOf(t).value)
  {
    hide Split, Strip;
  }

  lemma ApplyKeepsWellFormed(d: Info, t: string)
    requires WellFormed(d) && t != ""
    ensures WellFormed(Apply(d, t))
  {
    hide Apply, Unknown, AttrShaped, RangesOf;
    ApplyEffect(d, t);
    if RangesOf(t).Some? { RangesAreOrdered(t); }
  }

  lemma {:induction false} ApplyAllKeepsWellFormed(d: Info, toks: seq<string>)
    requires WellFormed(d) && forall k :: 0 <= k < |toks| ==> toks[k] != ""
    ensures WellFormed(ApplyAll(d, toks))
    decreases |toks|
  {
    if toks != [] {
      ApplyKeepsWellFormed(d, toks[0]);
      hide WellFormed, Apply;
      ApplyAllKeepsWellFormed(Apply(d, toks[0]), toks[1..]);
    }
  }

  lemma {:induction false} TokensAreNonEmpty(s: string)
    ensures forall k :: 0 <= k < |Tokens(s)| ==> Tokens(s)[k] != ""
    decreases |s|
  {
    TokensAt(s);
    hide Tokens, WordLen, BraceLen;
    var t := DropStart(s, IsBlank);
    if t != "" { TokensAreNonEmpty(t[TokenLen(t)..]); }
  }

  /** Whatever the info string, the parsed descriptor is well formed. */
  lemma ParsedIsWellFormed(info: string)
    ensures WellFormed(Parse(info))
  {
    var toks := Tokens(Trim(info));
    TokensAreNonEmpty(Trim(info));
    hide Tokens, Trim, ApplyAll, AttrShaped;
    if toks != [] && !AttrShaped(toks[0]) {
      ApplyAllKeepsWellFormed(Bare(toks[0]), toks[1..]);
    } else {
      ApplyAllKeepsWellFormed(Bare(""), toks);
    }
  }

  // ---------------------------------------------------------------- the round trip

  lemma {:induction false} ApplyAllAppend(d: Info, a: seq<string>, b: seq<string>)
    ensures ApplyAll(d, a + b) == ApplyAll(ApplyAll(d, a), b)
    decreases |a|
  {
    hide Apply;
    if a == [] {
      assert a + b == b;
    } else {
      assert (a + b)[1..] == a[1..] + b;
      ApplyAllAppend(Apply(d, a[0]), a[1..], b);
    }
  }

  lemma {:induction false} ExtraIsKept(d: Info, extra: seq<string>)
    requires forall k :: 0 <= k < |extra| ==> Unknown(extra[k])
    ensures ApplyAll(d, extra) == d.(extra := d.extra + extra)
    decreases |extra|
  {
    if extra == [] {
      assert d.extra + [] == d.extra;
    } else {
      UnknownIsKept(d, extra[0]);
      hide Apply, Unknown;
      assert d.extra + extra == (d.extra + [extra[0]]) + extra[1..];
      ExtraIsKept(Apply(d, extra[0]), extra[1..]);
    }
  }

  lemma UnknownIsKept(d: Info, t: string)
    requires Unknown(t)
    ensures Apply(d, t) == d.(extra := d.extra + [t])
  {
    hide IndexOf, Unquote, AlignOf;
  }

  lemma TitleApplies(d: Info, title: string)
    ensures Apply(d, TitleText(title)) == d.(title := Some(title))
  {
    var t := TitleText(title);
    var raw := "\"" + title + "\"";
    assert t == "title" + ['='] + raw;
    IndexOver("title", '=', raw);
    hide IndexOf;
    assert raw[0] == '"' == raw[|raw| - 1] && raw[1..|raw| - 1] == title;
  }

  lemma ShowApplies(d: Info)
    ensures Apply(d, SHOW) == d.(showLineNumbers := true)
  {
    var eq := IndexOf(SHOW, '=');
    hide IndexOf;
    assert eq == |SHOW|;
  }

  lemma AlignApplies(d: Info, a: Align)
    ensures Apply(d, AlignText(a)) == d.(align := Some(a))
  {
    hide Apply, AlignOf;
    AlignWords();
    AlignPair(d, "left");
    AlignPair(d, "center");
    AlignPair(d, "right");
  }

  lemma AlignPair(d: Info, val: string)
    requires val != "" && val[0] != '"' && AlignOf(val).Some?
    ensures Apply(d, "align=" + val) == d.(align := AlignOf(val))
  {
    var t := "align=" + val;
    assert t == "align" + ['='] + val;
    IndexOver("align", '=', val);
    assert t[..5] == "align" && t[6..] == val;
    hide IndexOf, AlignOf;
  }

  lemma AlignWords()
    ensures AlignOf("left") == Some(Left) && AlignOf("center") == Some(Center) && AlignOf("right") == Some(Right)
    ensures forall a :: AlignText(a) == "align=" + (match a case Left => "left" case Center => "center" case Right => "right")
  {
  }

  lemma HighlightApplies(d: Info, rs: Ranges)
    requires Ordered(rs) && rs != []
    ensures Apply(d, RangesText(rs)) == d.(highlight := Some(rs))
  {
    RangesInvert(rs);
    hide RangesText, RangesOf, Ordered;
  }

  lemma ApplyOne(d: Info, t: string)
    ensures ApplyAll(d, [t]) == Apply(d, t) && ApplyAll(d, []) == d
  {
  }

  /** The printed attribute tokens rebuild the descriptor on top of its language. */
  lemma AttrPartsRebuild(d: Info)
    requires WellFormed(d) && d.align != Some(Center) && (d.highlight.Some? ==> Ordered(d.highlight.value))
    ensures ApplyAll(Bare(d.lang), AttrParts(d)) == d
  {
    hide Apply, ApplyAll, TitleText, RangesText, AlignText, Ordered;
    var d0 := Bare(d.lang);
    var p1 := if d.title.Some? then [TitleText(d.title.value)] else [];
    var p2 := if d.showLineNumbers then [SHOW] else [];
    var p3 := if d.highlight.Some? then [RangesText(d.highlight.value)] else [];
    var p4 := if d.align.Some? then [AlignText(d.align.value)] else [];
    assert AttrParts(d) == p1 + p2 + p3 + p4 + d.extra;
    ApplyAllAppend(d0, p1 + p2 + p3 + p4, d.extra);
    ApplyAllAppend(d0, p1 + p2 + p3, p4);
    ApplyAllAppend(d0, p1 + p2, p3);
    ApplyAllAppend(d0, p1, p2);
    var d1 := d0.(title := d.title);
    if d.title.Some? { TitleApplies(d0, d.title.value); ApplyOne(d0, p1[0]); } else { ApplyOne(d0, ""); }
    var d2 := d1.(showLineNumbers := d.showLineNumbers);
    if d.showLineNumbers { ShowApplies(d1); ApplyOne(d1, p2[0]); } else { ApplyOne(d1, ""); }
    var d3 := d2.(highlight := d.highlight);
    if d.highlight.Some? { HighlightApplies(d2, d.highlight.value); ApplyOne(d2, p3[0]); } else { ApplyOne(d2, ""); }
    var d4 := d3.(align := d.align);
    if d.align.Some? { AlignApplies(d3, d.align.value); ApplyOne(d3, p4[0]); } else { ApplyOne(d3, ""); }
    ExtraIsKept(d4, d.extra);
    assert [] + d.extra == d.extra;
  }

  // ---------------------------------------------------------------- the printed tokens

  lemma {:induction false} PlainWord(t: string)
    requires forall k :: 0 <= k < |t| ==> !IsQuote(t[k]) && !IsBlank(t[k])
    ensures ClosedWord(t)
  {
    if t != "" { PlainWord(t[1..]); }
  }

  /** A title without a double quote always prints as one closed token. */
  lemma PlainTitleIsClosed(title: string)
    requires '"' !in title
    ensures Closed(TitleText(title))
  {
    var t := TitleText(title);
    var quoted := ['"'] + (title + ['"'] + "");
    IndexOver(title, '"', "");
    assert quoted[1..] == title + ['"'] + "";
    assert QuotedLen(quoted) == |quoted| && quoted[|quoted|..] == "";
    assert ClosedWord(quoted);
    assert t == "title=" + quoted;
    PlainPrefix("title=", quoted);
    assert t[0] == 't';
  }

  lemma {:induction false} PlainPrefix(a: string, b: string)
    requires (forall k :: 0 <= k < |a| ==> !IsQuote(a[k]) && !IsBlank(a[k])) && ClosedWord(b)
    ensures ClosedWord(a + b)
  {
    if a == "" {
      assert a + b == b;
    } else {
      PlainPrefix(a[1..], b);
      assert (a + b)[1..] == a[1..] + b;
      assert (a + b)[0] == a[0];
    }
  }

  lemma PlainTokenPrints(t: string)
    requires t != "" && IsLetter(t[0]) && IsLetter(t[|t| - 1])
    requires forall k :: 0 <= k < |t| ==> IsLetter(t[k]) || t[k] == '='
    ensures Printable(t)
  {
    PlainWord(t);
    hide ClosedWord;
  }

  lemma FixedTokensPrint(a: Align)
    ensures Printable(SHOW) && Printable(AlignText(a))
  {
    hide Closed, Printable;
    PlainTokenPrints(SHOW);
    PlainTokenPrints(AlignText(a));
  }

  predicate AllPrintable(parts: seq<string>) { forall k :: 0 <= k < |parts| ==> Printable(parts[k]) }

  lemma PrintableAppend(a: seq<string>, b: seq<string>)
    requires AllPrintable(a) && AllPrintable(b)
    ensures AllPrintable(a + b)
  {
    hide Printable;
  }

  lemma OnePrintable(t: string)
    requires Printable(t)
    ensures AllPrintable([t]) && AllPrintable([])
  {
    hide Printable;
  }

  lemma TitlePrints(title: string)
    requires Closed(TitleText(title))
    ensures Printable(TitleText(title))
  {
    hide Closed;
    var t := TitleText(title);
    assert t[0] == 't' && t[|t| - 1] == '"';
  }

  lemma AttrPartsPrint(d: Info)
    requires Canonical(d)
    ensures forall k :: 0 <= k < |AttrParts(d)| ==> Printable(AttrParts(d)[k])
  {
    hide Closed, WellFormed, RangesText, AlignText, AttrShaped, TitleText, Printable, AllPrintable;
    FixedTokensPrint(Left);
    OnePrintable(SHOW);
    if d.title.Some? {
      TitlePrints(d.title.value);
      OnePrintable(TitleText(d.title.value));
    }
    if d.highlight.Some? && d.highlight.value != [] {
      RangesInvert(d.highlight.value);
      OnePrintable(RangesText(d.highlight.value));
    }
    if d.align.Some? {
      FixedTokensPrint(d.align.value);
      OnePrintable(AlignText(d.align.value));
    }
    var a := if d.title.Some? then [TitleText(d.title.value)] else [];
    var b := if d.showLineNumbers then [SHOW] else [];
    var c := if d.highlight.Some? && d.highlight.value != [] then [RangesText(d.highlight.value)] else [];
    var e := if d.align.Some? && d.align.value != Center then [AlignText(d.align.value)] else [];
    PrintableAppend(a, b);
    PrintableAppend(a + b, c);
    PrintableAppend(a + b + c, e);
    ExtraPrints(d);
    PrintableAppend(a + b + c + e, d.extra);
    PrintableEach(AttrParts(d));
  }

  lemma ExtraPrints(d: Info)
    requires Canonical(d)
    ensures AllPrintable(d.extra)
  {
    hide Printable, WellFormed, AttrParts;
  }

  lemma PrintableEach(parts: seq<string>)
    requires AllPrintable(parts)
    ensures forall k :: 0 <= k < |parts| ==> Printable(parts[k])
  {
    hide Printable;
  }

  lemma {:induction false} NonEmptyKeeps(parts: seq<string>)
    requires forall k :: 0 <= k < |parts| ==> parts[k] != ""
    ensures NonEmpty(parts) == parts && NonEmpty([""] + parts) == parts
  {
    assert ([""] + parts)[1..] == parts;
    if parts != [] { NonEmptyKeeps(parts[1..]); }
  }

  lemma {:induction false} JoinEnds(parts: seq<string>)
    requires parts != [] && forall k :: 0 <= k < |parts| ==> TrimSafe(parts[k])
    ensures TrimSafe(Join(parts, ' '))
  {
    if |parts| > 1 {
      var rest := Join(parts[1..], ' ');
      JoinEnds(parts[1..]);
      var s := parts[0] + [' '] + rest;
      assert s[0] == parts[0][0] && s[|s| - 1] == rest[|rest| - 1];
    }
  }

  /** A list of printable tokens is read back token for token. */
  lemma TokensOfPrinted(parts: seq<string>)
    requires forall k :: 0 <= k < |parts| ==> Printable(parts[k])
    ensures Tokens(Trim(Join(parts, ' '))) == parts
  {
    hide Closed, Tokens, Trim;
    TokenizeInvertsJoin(parts);
    if parts == [] {
      assert Join(parts, ' ') == "";
    } else {
      JoinEnds(parts);
    }
    TrimIsIdentity(Join(parts, ' '));
  }

  /** Parsing what was printed gives the descriptor back, for every canonical descriptor. */
  lemma RoundTrip(d: Info)
    requires Canonical(d)
    ensures Parse(Serialize(d)) == d
  {
    var attrs := AttrParts(d);
    AttrPartsPrint(d);
    AttrPartsRebuild(d);
    hide Closed, WellFormed, AttrParts, AttrShaped, Tokens, Trim, NonEmpty, ApplyAll;
    forall k | 0 <= k < |attrs| ensures attrs[k] != "" { assert Printable(attrs[k]); }
    var parts := if d.lang == "" then attrs else [d.lang] + attrs;
    NonEmptyKeeps(attrs);
    NonEmptyKeeps(parts);
    assert Serialize(d) == Join(parts, ' ');
    TokensOfPrinted(parts);
    if d.lang != "" { assert parts[1..] == attrs; }
  }

  /** `align=center` is the default and prints nothing, so an explicit one is lost. */
  lemma CenterIsDropped(d: Info)
    requires Canonical(d) && d.align == None
    ensures Serialize(d.(align := Some(Center))) == Serialize(d)
    ensures Parse(Serialize(d.(align := Some(Center)))) == d != d.(align := Some(Center))
  {
    hide Parse, Canonical;
    RoundTrip(d);
    assert AttrParts(d.(align := Some(Center))) == AttrParts(d);
  }
}
