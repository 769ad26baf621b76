/** Code-fence info strings: a quote- and brace-aware tokenizer, a parser and a printer. */
module FenceInfo {
  import opened Text

  datatype Align = Left | Center | Right

  type Ranges = seq<(nat, nat)>

  datatype Info = Info(
    lang: string, title: Option<string>, showLineNumbers: bool,
    highlight: Option<Ranges>, align: Option<Align>, extra: seq<string>)

  /** The largest integer JavaScript's numbers hold exactly together with all below it. */
  const MAX_SAFE_INTEGER: nat := 9007199254740991

  const SHOW: string := "showLineNumbers"

  predicate IsBlank(c: char) { c == ' ' || c == '\t' }

  predicate IsQuote(c: char) { c == '"' || c == '\'' }

  // ---------------------------------------------------------------- tokens

  /** Length of the quoted run at the start of `s`, with its quotes; an unclosed one runs to the end. */
  function QuotedLen(s: string): (n: nat)
    requires s != ""
    ensures 0 < n <= |s|
  {
    var q := IndexOf(s[1..], s[0]);
    if q == |s| - 1 then |s| else q + 2
  }

  /** Length of a word: up to the first blank outside quotes. */
  function WordLen(s: string): (n: nat)
    ensures n <= |s|
    decreases |s|
  {
    if s == "" || IsBlank(s[0]) then 0
    else if IsQuote(s[0]) then QuotedLen(s) + WordLen(s[QuotedLen(s)..])
    else 1 + WordLen(s[1..])
  }

  /** Length of a braced token: through the first closing brace, or to the end. */
  function BraceLen(s: string): (n: nat)
    ensures n <= |s|
  {
    var j := IndexOf(s, '}');
    if j < |s| then j + 1 else |s|
  }

  function TokenLen(s: string): (n: nat)
    requires s != "" && !IsBlank(s[0])
    ensures 0 < n <= |s|
  { if s[0] == '{' then BraceLen(s) else WordLen(s) }

  /** `tokenize`: blank-separated attributes, respecting quotes and braces. */
  function Tokens(s: string): (toks: seq<string>)
    decreases |s|
  {
    var t := DropStart(s, IsBlank);
    if t == "" then [] else [t[..TokenLen(t)]] + Tokens(t[TokenLen(t)..])
  }

  /** The source's character loops; the scanned part of the string is `s[..i]`. */
  method Tokenize(s: string) returns (out: seq<string>)
    ensures out == Tokens(s)
  {
    hide Tokens, WordLen, BraceLen, DropStart;
    out := [];
    var i := 0;
    assert s[0..] == s;
    while i < |s|
      invariant i <= |s|
      invariant out + Tokens(s[i..]) == Tokens(s)
      decreases |s| - i
    {
      var start := SkipBlanks(s, i);
      if start == |s| {
        TokensAt(s[i..]);
        assert s[start..] == "" && out + [] == out;
        return;
      }
      var end := start;
      if s[start] == '{' { end := ScanBraced(s, start); } else { end := ScanWord(s, start); }
      assert end - start == TokenLen(s[start..]);
      TokenTaken(s, i, start, end, out);
      out := out + [s[start..end]];
      i := end;
    }
    NothingLeft();
    assert s[i..] == "" && out + [] == out;
  }

  lemma TokenTaken(s: string, i: nat, start: nat, end: nat, out: seq<string>)
    requires i <= start < end <= |s| && s[start..] == DropStart(s[i..], IsBlank) && !IsBlank(s[start])
    requires end - start == TokenLen(s[start..])
    ensures out + Tokens(s[i..]) == (out + [s[start..end]]) + Tokens(s[end..])
  {
    hide Tokens, DropStart, TokenLen;
    TokensAt(s[i..]);
    assert s[start..][..end - start] == s[start..end];
    assert s[start..][end - start..] == s[end..];
  }

  lemma NothingLeft()
    ensures Tokens("") == [] && DropStart("", IsBlank) == ""
  {
  }

  lemma TokensAt(s: string)
    ensures var t := DropStart(s, IsBlank);
      Tokens(s) == if t == "" then [] else [t[..TokenLen(t)]] + Tokens(t[TokenLen(t)..])
  {
  }

  method SkipBlanks(s: string, from: nat) returns (i: nat)
    requires from <= |s|
    ensures from <= i <= |s| && s[i..] == DropStart(s[from..], IsBlank)
    ensures i < |s| ==> !IsBlank(s[i])
  {
    i := from;
    while i < |s| && IsBlank(s[i])
      invariant from <= i <= |s| && DropStart(s[i..], IsBlank) == DropStart(s[from..], IsBlank)
    {
      assert s[i..][1..] == s[i + 1..];
      i := i + 1;
    }
  }

  method ScanBraced(s: string, start: nat) returns (i: nat)
    requires start < |s| && s[start] == '{'
    ensures i == start + BraceLen(s[start..])
  {
    i := start;
    while i < |s| && s[i] != '}'
      invariant start <= i <= |s| && '}' !in s[start..i]
    {
      i := i + 1;
    }
    ghost var t := s[start..];
    assert forall k :: 0 <= k < i - start ==> t[k] == s[start..i][k];
    if i < |s| { i := i + 1; }
  }

  method ScanQuoted(s: string, start: nat) returns (i: nat)
    requires start < |s|
    ensures start < i <= |s| && i == start + QuotedLen(s[start..])
  {
    i := start + 1;
    while i < |s| && s[i] != s[start]
      invariant start < i <= |s| && s[start] !in s[start + 1..i]
    {
      i := i + 1;
    }
    ghost var t := s[start..][1..];
    assert forall k :: 0 <= k < i - start - 1 ==> t[k] == s[start + 1..i][k];
    assert i < |s| ==> t[i - start - 1] == s[i];
    if i < |s| { i := i + 1; }
  }

  method ScanWord(s: string, start: nat) returns (i: nat)
    requires start < |s|
    ensures start <= i <= |s| && i == start + WordLen(s[start..])
  {
    hide WordLen, QuotedLen;
    i := start;
    while i < |s| && !IsBlank(s[i])
      invariant start <= i <= |s|
      invariant WordLen(s[start..]) == i - start + WordLen(s[i..])
      decreases |s| - i
    {
      WordStep(s[i..]);
      if IsQuote(s[i]) {
        var j := ScanQuoted(s, i);
        assert s[i..][j - i..] == s[j..];
        i := j;
      } else {
        assert s[i..][1..] == s[i + 1..];
        i := i + 1;
      }
    }
    WordStep(s[i..]);
  }

  lemma WordStep(s: string)
    ensures WordLen(s) ==
      if s == "" || IsBlank(s[0]) then 0
      else if IsQuote(s[0]) then QuotedLen(s) + WordLen(s[QuotedLen(s)..])
      else 1 + WordLen(s[1..])
  {
  }

  // ---------------------------------------------------------------- ranges

  function Strip(tok: string): string {
    var a := if tok != "" && tok[0] == '{' then tok[1..] else tok;
    if a != "" && a[|a| - 1] == '}' then a[..|a| - 1] else a
  }

  predicate AllDigits(s: string) { forall k :: 0 <= k < |s| ==> IsDigit(s[k]) }

  /** `n` or `n-m`, smaller bound first; anything else is skipped. */
  function RangePart(p: string): (r: Option<(nat, nat)>)
    ensures r.Some? ==> r.value.0 <= r.value.1
  {
    var n := Run(p, IsDigit);
    if n == 0 then None
    else
      var a := NumeralValue(p[..n]);
      if n == |p| then Some((a, a))
      else if p[n] == '-' && n + 1 < |p| && AllDigits(p[n + 1..]) then
        var b := NumeralValue(p[n + 1..]);
        Some(if a <= b then (a, b) else (b, a))
      else None
  }

  function RangesIn(parts: seq<string>): (rs: Ranges)
    ensures forall k :: 0 <= k < |rs| ==> rs[k].0 <= rs[k].1
  {
    if parts == [] then []
    else
      var r := RangePart(Trim(parts[0]));
      (if r.Some? then [r.value] else []) + RangesIn(parts[1..])
  }

  /** `parseRanges`; nothing valid inside is reported as `None`. */
  function RangesOf(tok: string): Option<Ranges> {
    var rs := RangesIn(Split(Strip(tok), ','));
    if rs == [] then None else Some(rs)
  }

  method ParseRanges(tok: string) returns (ranges: Option<Ranges>)
    ensures ranges == RangesOf(tok)
  {
    hide Split, Strip, RangePart, Trim;
    var parts := Split(Strip(tok), ',');
    var rs: Ranges := [];
    assert parts[0..] == parts;
    for i := 0 to |parts|
      invariant rs + RangesIn(parts[i..]) == RangesIn(parts)
    {
      var r := RangePart(Trim(parts[i]));
      assert parts[i..][0] == parts[i] && parts[i..][1..] == parts[i + 1..];
      if r.Some? { rs := rs + [r.value]; }
    }
    assert parts[|parts|..] == [] && RangesIn([]) == [] && rs + [] == rs;
    ranges := if rs == [] then None else Some(rs);
  }

  // ---------------------------------------------------------------- parsing

  /** A token that can only be an attribute, never a language. */
  predicate AttrShaped(t: string) { (t != "" && t[0] == '{') || '=' in t || t == SHOW }

  function Unquote(raw: string): string {
    if |raw| >= 2 && IsQuote(raw[0]) && raw[|raw| - 1] == raw[0] then raw[1..|raw| - 1] else raw
  }

  function AlignOf(val: string): Option<Align> {
    if val == "left" then Some(Left) else if val == "center" then Some(Center)
    else if val == "right" then Some(Right) else None
  }

  /** What one attribute token does to the descriptor; an unknown one is kept verbatim. */
  function Apply(d: Info, t: string): Info {
    if t != "" && t[0] == '{' then
      var r := RangesOf(t);
      if r.Some? then d.(highlight := r) else d.(extra := d.extra + [t])
    else
      var eq := IndexOf(t, '=');
      if eq == |t| then if t == SHOW then d.(showLineNumbers := true) else d.(extra := d.extra + [t])
      else
        var key, val := t[..eq], Unquote(t[eq + 1..]);
        if key == "title" then d.(title := Some(val))
        else if key == "align" && AlignOf(val).Some? then d.(align := AlignOf(val))
        else d.(extra := d.extra + [t])
  }

  function ApplyAll(d: Info, toks: seq<string>): Info
    decreases |toks|
  {
    if toks == [] then d else ApplyAll(Apply(d, toks[0]), toks[1..])
  }

  function Bare(lang: string): Info { Info(lang, None, false, None, None, []) }

  function ParseTokens(toks: seq<string>): Info {
    if toks != [] && !AttrShaped(toks[0]) then ApplyAll(Bare(toks[0]), toks[1..]) else ApplyAll(Bare(""), toks)
  }

  function Parse(info: string): Info { ParseTokens(Tokens(Trim(info))) }

  method ParseFenceInfo(info: string) returns (d: Info)
    ensures d == Parse(info)
  {
    var toks := Tokenize(Trim(info));
    var hasLang := toks != [] && !AttrShaped(toks[0]);
    d := Bare(if hasLang then toks[0] else "");
    var k := if hasLang then 1 else 0;
    while k < |toks|
      invariant k <= |toks|
      invariant ApplyAll(d, toks[k..]) == Parse(info)
    {
      assert toks[k..][0] == toks[k] && toks[k..][1..] == toks[k + 1..];
      d := Apply(d, toks[k]);
      k := k + 1;
    }
  }

  // ---------------------------------------------------------------- printing

  function RangeText(r: (nat, nat)): string {
    if r.0 == r.1 then Numeral(r.0) else Numeral(r.0) + "-" + Numeral(r.1)
  }

  function RangeTexts(rs: Ranges): (parts: seq<string>)
    ensures |parts| == |rs|
    ensures forall k :: 0 <= k < |rs| ==> parts[k] == RangeText(rs[k])
  { if rs == [] then [] else [RangeText(rs[0])] + RangeTexts(rs[1..]) }

  function RangesText(rs: Ranges): string { "{" + Join(RangeTexts(rs), ',') + "}" }

  function TitleText(title: string): string { "title=\"" + title + "\"" }

  function AlignText(a: Align): string {
    match a case Left => "align=left" case Center => "align=center" case Right => "align=right"
  }

  /** The attribute tokens printed for a descriptor, after the language. */
  function AttrParts(d: Info): seq<string> {
    (if d.title.Some? then [TitleText(d.title.value)] else [])
    + (if d.showLineNumbers then [SHOW] else [])
    + (if d.highlight.Some? && d.highlight.value != [] then [RangesText(d.highlight.value)] else [])
    + (if d.align.Some? && d.align.value != Center then [AlignText(d.align.value)] else [])
    + d.extra
  }

  function NonEmpty(parts: seq<string>): seq<string> {
    if parts == [] then [] else (if parts[0] == "" then [] else [parts[0]]) + NonEmpty(parts[1..])
  }

  /** `serializeFenceInfo`. */
  function Serialize(d: Info): string { Join(NonEmpty([d.lang] + AttrParts(d)), ' ') }
}
