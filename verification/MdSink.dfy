/** The HTML sink: a stack of frames that opening, closing and emitting change in place. What it builds is
    stated against a nested rendering of the same content; the calls it receives are kept as a trace. */
module MdSink {
  import opened Text

  /** A container the visitor opens. `Tag` is one of the fixed tags. */
  datatype Role =
    | Tag(name: string)
    | Link(href: Option<string>)
    | AttachmentRef
    | FootnoteSection
    | FootnoteList
    | FootnoteItem(n: Option<nat>, unreferenced: bool)
    | DirectiveBox

  datatype Leaf =
    | Hr
    | Br
    | InlineCode(text: string)
    | LiteralBlock(text: string)
    | FootnoteRef(n: Option<nat>)
    | FootnoteBack(target: nat)
    | TaskMarker(checked: bool)
    | Math(tex: string, display: bool)

  /** What goes into the frame on top: text, a leaf, a gap between blocks, or a macro's finished output. */
  datatype Piece = Text(s: string) | Leaf(leaf: Leaf) | Gap | Raw(markup: string)

  /** The content as nested boxes. */
  datatype Elem = Box(role: Role, kids: seq<Elem>) | One(piece: Piece)

  /** The calls a sink receives. */
  datatype Event = Open(role: Role) | Close(name: string) | Put(piece: Piece)

  /** `renderMathHtml`. */
  type MathRender = (string, bool) -> Option<string>

  // ---------------------------------------------------------------- markup of one piece

  function EscapeHtml(s: string): string {
    if s == "" then ""
    else (match s[0]
          case '&' => "&amp;"
          case '<' => "&lt;"
          case '>' => "&gt;"
          case '"' => "&quot;"
          case '\'' => "&#39;"
          case c => [c]) + EscapeHtml(s[1..])
  }

  /** The markup characters that escaped text never contains. */
  predicate Inert(s: string) { '<' !in s && '>' !in s && '"' !in s && '\'' !in s }

  lemma {:induction false} EscapedIsInert(s: string)
    ensures Inert(EscapeHtml(s))
  {
    if s != "" { EscapedIsInert(s[1..]); }
  }

  function RoleName(r: Role): string {
    match r
    case Tag(name) => name
    case Link(_) => "link"
    case AttachmentRef => "attachmentRef"
    case FootnoteSection => "footnoteSection"
    case FootnoteList => "footnoteList"
    case FootnoteItem(_, _) => "footnoteItem"
    case DirectiveBox => "directive"
  }

  function Prefix(r: Role): string {
    match r
    case Tag(name) => "<" + name + ">"
    case Link(Some(href)) => "<a href=\"" + EscapeHtml(href) + "\" rel=\"noopener noreferrer nofollow\">"
    case Link(None) => "<span>"
    case AttachmentRef => "<span class=\"wks-attachment-ref\">"
    case FootnoteSection => "<section class=\"cm-lp-footnotes\" data-testid=\"footnotes\">"
    case FootnoteList => "<ol class=\"cm-lp-footnotes-list\">"
    case FootnoteItem(n, unref) =>
      var cls := if unref then "cm-lp-footnote-item cm-lp-footnote-unref" else "cm-lp-footnote-item";
      if n.Some? then "<li class=\"" + cls + "\" id=\"fn-" + Numeral(n.value) + "\">" else "<li class=\"" + cls + "\">"
    case DirectiveBox => "<div class=\"wks-directive\">"
  }

  function Suffix(r: Role): string {
    match r
    case Tag(name) => "</" + name + ">"
    case Link(Some(_)) => "</a>"
    case Link(None) => "</span>"
    case AttachmentRef => "</span>"
    case FootnoteSection => "</section>"
    case FootnoteList => "</ol>"
    case FootnoteItem(_, _) => "</li>"
    case DirectiveBox => "</div>"
  }

  /** The boxes whose block children are set apart by newlines. */
  predicate IsBlockContainer(r: Role) {
    r == Tag("blockquote") || r == Tag("ul") || r == Tag("ol") || r == Tag("li") || r == DirectiveBox
  }

  function LeafHtml(math: MathRender, l: Leaf): string {
    match l
    case Hr => "<hr>"
    case Br => "<br>"
    case InlineCode(t) => "<code>" + EscapeHtml(t) + "</code>"
    case LiteralBlock(t) => "<p>" + EscapeHtml(t) + "</p>"
    case FootnoteRef(Some(n)) =>
      "<sup class=\"cm-lp-footnote-ref\" id=\"fnref-" + Numeral(n) + "\"><a href=\"#fn-" + Numeral(n) + "\">" + Numeral(n) + "</a></sup>"
    case FootnoteRef(None) => "<sup class=\"cm-lp-footnote-ref cm-lp-footnote-undef\">?</sup>"
    case FootnoteBack(n) => "<a href=\"#fnref-" + Numeral(n) + "\" class=\"cm-lp-footnote-back\">↩</a>"
    case TaskMarker(checked) => "<input type=\"checkbox\" disabled" + (if checked then " checked" else "") + ">"
    case Math(tex, display) => (match math(tex, display) case Some(h) => h case None => EscapeHtml(tex))
  }

  function PieceHtml(math: MathRender, p: Piece, inBlocks: bool): string {
    match p
    case Text(s) => EscapeHtml(s)
    case Leaf(l) => LeafHtml(math, l)
    case Gap => if inBlocks then "\n" else ""
    case Raw(h) => h
  }

  // ---------------------------------------------------------------- nested rendering

  function ElemHtml(math: MathRender, e: Elem, inBlocks: bool): string
    decreases e, 0
  {
    match e
    case Box(r, kids) => Prefix(r) + Html(math, kids, IsBlockContainer(r)) + Suffix(r)
    case One(p) => PieceHtml(math, p, inBlocks)
  }

  /** The markup of a run of siblings. */
  function Html(math: MathRender, es: seq<Elem>, inBlocks: bool): string
    decreases es, 1
  {
    if es == [] then "" else ElemHtml(math, es[0], inBlocks) + Html(math, es[1..], inBlocks)
  }

  function ElemEvents(e: Elem): seq<Event>
    decreases e, 0
  {
    match e
    case Box(r, kids) => [Open(r)] + Events(kids) + [Close(RoleName(r))]
    case One(p) => [Put(p)]
  }

  function Events(es: seq<Elem>): seq<Event>
    decreases es, 1
  {
    if es == [] then [] else ElemEvents(es[0]) + Events(es[1..])
  }

  lemma {:induction false} HtmlAppend(math: MathRender, a: seq<Elem>, b: seq<Elem>, inBlocks: bool)
    ensures Html(math, a + b, inBlocks) == Html(math, a, inBlocks) + Html(math, b, inBlocks)
  {
    hide ElemHtml;
    if a == [] {
      assert a + b == b;
    } else {
      assert (a + b)[1..] == a[1..] + b;
      HtmlAppend(math, a[1..], b, inBlocks);
    }
  }

  lemma {:induction false} EventsAppend(a: seq<Elem>, b: seq<Elem>)
    ensures Events(a + b) == Events(a) + Events(b)
  {
    hide ElemEvents;
    if a == [] {
      assert a + b == b;
    } else {
      assert (a + b)[1..] == a[1..] + b;
      EventsAppend(a[1..], b);
    }
  }

  lemma OneElem(math: MathRender, e: Elem, inBlocks: bool)
    ensures Html(math, [e], inBlocks) == ElemHtml(math, e, inBlocks) && Events([e]) == ElemEvents(e)
  {
    hide ElemHtml, ElemEvents;
    assert [e][1..] == [];
  }

  // ---------------------------------------------------------------- bracketing

  /** Runs the opens and closes against a stack of names; nothing on a mismatch. */
  function Brackets(es: seq<Event>, open: seq<string>): Option<seq<string>>
    decreases |es|
  {
    if es == [] then Some(open)
    else match es[0]
      case Open(r) => Brackets(es[1..], open + [RoleName(r)])
      case Close(name) =>
        if open == [] || open[|open| - 1] != name then None else Brackets(es[1..], open[..|open| - 1])
      case Put(_) => Brackets(es[1..], open)
  }

  lemma {:induction false} BracketsAppend(a: seq<Event>, b: seq<Event>, open: seq<string>, mid: seq<string>)
    requires Brackets(a, open) == Some(mid)
    ensures Brackets(a + b, open) == Brackets(b, mid)
    decreases |a|
  {
    hide RoleName;
    if a == [] {
      assert a + b == b;
    } else {
      assert (a + b)[1..] == a[1..] + b;
      match a[0]
      case Open(r) => BracketsAppend(a[1..], b, open + [RoleName(r)], mid);
      case Close(name) => BracketsAppend(a[1..], b, open[..|open| - 1], mid);
      case Put(_) => BracketsAppend(a[1..], b, open, mid);
    }
  }

  /** Whatever is open around them, the calls for a run of siblings close exactly what they open. */
  lemma EventsAreBracketed(es: seq<Elem>, open: seq<string>)
    ensures Brackets(Events(es), open) == Some(open)
    decreases es, 1
  {
    hide Brackets, ElemEvents;
    if es == [] {
      NothingBrackets(open);
    } else {
      ElemIsBracketed(es[0], open);
      EventsAreBracketed(es[1..], open);
      BracketsAppend(ElemEvents(es[0]), Events(es[1..]), open, open);
    }
  }

  lemma ElemIsBracketed(e: Elem, open: seq<string>)
    ensures Brackets(ElemEvents(e), open) == Some(open)
    decreases e, 0
  {
    match e
    case Box(r, kids) =>
      hide Events;
      var inner := open + [RoleName(r)];
      EventsAreBracketed(kids, inner);
      BracketsAppend(Events(kids), [Close(RoleName(r))], inner, inner);
      assert inner[..|inner| - 1] == open;
      assert Brackets([Close(RoleName(r))], inner) == Some(open);
      assert ElemEvents(e) == [Open(r)] + (Events(kids) + [Close(RoleName(r))]);
      assert ([Open(r)] + (Events(kids) + [Close(RoleName(r))]))[1..] == Events(kids) + [Close(RoleName(r))];
    case One(p) => assert [Put(p)][1..] == [];
  }

  // ---------------------------------------------------------------- the sink

  /** `body` is what the parts collected so far join to. */
  datatype Frame = Frame(prefix: string, suffix: string, body: string, blockContainer: bool)

  function Added(stack: seq<Frame>, h: string): seq<Frame>
    requires stack != []
  {
    var top := stack[|stack| - 1];
    stack[..|stack| - 1] + [top.(body := top.body + h)]
  }

  lemma AddedNothing(stack: seq<Frame>)
    requires stack != []
    ensures Added(stack, "") == stack
  {
    var top := stack[|stack| - 1];
    assert top.(body := top.body + "") == top;
    assert stack == stack[..|stack| - 1] + [top];
  }

  class HtmlSink {
    const math: MathRender
    var stack: seq<Frame>
    ghost var trace: seq<Event>

    constructor (math: MathRender)
      ensures this.math == math && stack == [Frame("", "", "", true)] && trace == []
    {
      this.math := math;
      stack := [Frame("", "", "", true)];
      trace := [];
    }

    function Top(): Frame
      reads this
      requires stack != []
    { stack[|stack| - 1] }

    method Emit(h: string)
      requires stack != []
      modifies this`stack
      ensures stack == Added(old(stack), h)
    {
      stack := stack[|stack| - 1 := Top().(body := Top().body + h)];
    }

    method OpenRole(r: Role)
      modifies this
      ensures stack == old(stack) + [Frame(Prefix(r), Suffix(r), "", IsBlockContainer(r))]
      ensures trace == old(trace) + [Open(r)]
    {
      stack := stack + [Frame(Prefix(r), Suffix(r), "", IsBlockContainer(r))];
      trace := trace + [Open(r)];
    }

    method CloseRole(name: string)
      requires |stack| >= 2
      modifies this
      ensures var f := old(stack)[|old(stack)| - 1];
        stack == Added(old(stack)[..|old(stack)| - 1], f.prefix + f.body + f.suffix)
      ensures trace == old(trace) + [Close(name)]
    {
      var f := Top();
      stack := stack[..|stack| - 1];
      Emit(f.prefix + f.body + f.suffix);
      trace := trace + [Close(name)];
    }

    /** `text`, `leaf` and `blockGap`, and a macro's output. */
    method PutPiece(p: Piece)
      requires stack != []
      modifies this
      ensures stack == Added(old(stack), PieceHtml(math, p, old(Top()).blockContainer))
      ensures trace == old(trace) + [Put(p)]
    {
      AddedNothing(stack);
      if !(p.Gap? && !Top().blockContainer) { Emit(PieceHtml(math, p, Top().blockContainer)); }
      trace := trace + [Put(p)];
    }
  }

  /** From `s0` and `t0` the sink has taken in exactly these siblings: the top frame has gained their nested
      rendering, no other frame has moved, and the calls were theirs. */
  predicate Took(math: MathRender, s0: seq<Frame>, t0: seq<Event>, s1: seq<Frame>, t1: seq<Event>, es: seq<Elem>) {
    s0 != []
    && s1 == Added(s0, Html(math, es, s0[|s0| - 1].blockContainer))
    && t1 == t0 + Events(es)
  }

  lemma TookNothing(math: MathRender, s: seq<Frame>, t: seq<Event>)
    requires s != []
    ensures Took(math, s, t, s, t, [])
  {
    AddedNothing(s);
  }

  lemma TookOne(math: MathRender, s0: seq<Frame>, t0: seq<Event>, s1: seq<Frame>, t1: seq<Event>, p: Piece)
    requires s0 != [] && s1 == Added(s0, PieceHtml(math, p, s0[|s0| - 1].blockContainer)) && t1 == t0 + [Put(p)]
    ensures Took(math, s0, t0, s1, t1, [One(p)])
  {
    hide PieceHtml, Html, Events;
    OneElem(math, One(p), s0[|s0| - 1].blockContainer);
  }

  lemma TookAppend(math: MathRender, s0: seq<Frame>, t0: seq<Event>, s1: seq<Frame>, t1: seq<Event>,
                   s2: seq<Frame>, t2: seq<Event>, a: seq<Elem>, b: seq<Elem>)
    requires Took(math, s0, t0, s1, t1, a) && Took(math, s1, t1, s2, t2, b)
    ensures Took(math, s0, t0, s2, t2, a + b)
  {
    hide Html, Events;
    var top := s0[|s0| - 1];
    HtmlAppend(math, a, b, top.blockContainer);
    EventsAppend(a, b);
    var x, y := Html(math, a, top.blockContainer), Html(math, b, top.blockContainer);
    assert s1[..|s1| - 1] == s0[..|s0| - 1];
    assert (top.body + x) + y == top.body + (x + y);
  }

  /** Opening a role, taking in its kids, and closing it is taking in the box. */
  lemma TookBox(math: MathRender, s0: seq<Frame>, t0: seq<Event>, s2: seq<Frame>, t2: seq<Event>,
                s3: seq<Frame>, t3: seq<Event>, r: Role, kids: seq<Elem>)
    requires s0 != []
    requires Took(math, s0 + [Frame(Prefix(r), Suffix(r), "", IsBlockContainer(r))], t0 + [Open(r)], s2, t2, kids)
    requires |s2| >= 2 && var f := s2[|s2| - 1]; s3 == Added(s2[..|s2| - 1], f.prefix + f.body + f.suffix)
    requires t3 == t2 + [Close(RoleName(r))]
    ensures Took(math, s0, t0, s3, t3, [Box(r, kids)])
  {
    hide Html, Events, Prefix, Suffix, RoleName, IsBlockContainer;
    var top := s0[|s0| - 1];
    OneElem(math, Box(r, kids), top.blockContainer);
    var frame := Frame(Prefix(r), Suffix(r), "", IsBlockContainer(r));
    assert (s0 + [frame])[..|s0|] == s0;
    assert s2 == s0 + [frame.(body := "" + Html(math, kids, IsBlockContainer(r)))];
    assert s2[..|s2| - 1] == s0 && s2[|s2| - 1].body == Html(math, kids, IsBlockContainer(r));
    assert t3 == t0 + ([Open(r)] + Events(kids) + [Close(RoleName(r))]);
    assert ElemHtml(math, Box(r, kids), top.blockContainer)
           == Prefix(r) + Html(math, kids, IsBlockContainer(r)) + Suffix(r);
  }

  lemma NothingBrackets(open: seq<string>)
    ensures Brackets([], open) == Some(open)
  {}
}
