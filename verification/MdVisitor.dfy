/** The one walk over a Markdown parse: which boxes, text and leaves a tree becomes, for any sink. The tree is
    arbitrary, with Lezer's first-child and next-sibling links; macros, links and math are parameters. */
module MdVisitor {
  import opened Text
  import opened MdSink
  import DirectiveSyntax
  import DirectiveResolver
  import FenceInfo
  import MathSpans
  import MathSpanLaws

  datatype Tree = Nil | Node(name: string, from: nat, to: nat, child: Tree, next: Tree)

  /** The walk's surroundings: the source, the link judge, the macro registry (its answer when it has the
      macro and it does not throw), and the footnote numbers, absent inside a nested body. */
  datatype Env = Env(
    src: string,
    safeHref: string -> Option<string>,
    fenceMacro: (string, string) -> Option<string>,
    directiveMacro: (string, string, Option<string>) -> Option<string>,
    numbers: Option<map<string, nat>>)

  /** `slice`, which clamps. */
  function Slice(s: string, from: nat, to: nat): string {
    var end := if to < |s| then to else |s|;
    if from < end then s[from..end] else ""
  }

  function TextOf(src: string, n: Tree): string
    requires n.Node?
  { Slice(src, n.from, n.to) }

  /** `getChild`: the first among `n` and its later siblings with the name. */
  function FindChild(n: Tree, name: string): Tree {
    if n.Nil? || n.name == name then n else FindChild(n.next, name)
  }

  predicate IsMark(name: string) {
    name in {"EmphasisMark", "CodeMark", "LinkMark", "HeaderMark", "QuoteMark", "ListMark", "DirectiveMark", "URL",
             "CodeInfo", "LinkTitle", "StrikethroughMark", "HighlightMark", "FootnoteDefMark"}
  }

  function InlineWrap(name: string): Option<string> {
    if name == "Emphasis" then Some("em")
    else if name == "StrongEmphasis" then Some("strong")
    else if name == "Strikethrough" then Some("s")
    else if name == "Highlight" then Some("mark")
    else None
  }

  function HeadingTag(name: string): Option<string> {
    if name == "ATXHeading1" || name == "SetextHeading1" then Some("h1")
    else if name == "ATXHeading2" || name == "SetextHeading2" then Some("h2")
    else if name == "ATXHeading3" then Some("h3")
    else if name == "ATXHeading4" then Some("h4")
    else if name == "ATXHeading5" then Some("h5")
    else if name == "ATXHeading6" then Some("h6")
    else None
  }

  /** A box whose content is the node's children as blocks. */
  function BlockTag(name: string): Option<string> {
    if name == "Blockquote" then Some("blockquote")
    else if name == "BulletList" then Some("ul")
    else if name == "OrderedList" then Some("ol")
    else if name == "ListItem" then Some("li")
    else None
  }

  /** A box whose content is the node's children inline. */
  function InlineTag(name: string): Option<string> {
    if HeadingTag(name).Some? then HeadingTag(name) else if name == "Paragraph" then Some("p") else None
  }

  // ---------------------------------------------------------------- text runs

  predicate IsBlank(c: char) { c == ' ' || c == '\t' }

  /** Splitting at `\r?\n`. */
  function BreakLines(s: string): seq<string> { DropReturns(Split(s, '\n')) }

  function DropReturns(lines: seq<string>): (r: seq<string>)
    ensures |r| == |lines|
  {
    if |lines| <= 1 then lines
    else
      var l := lines[0];
      [if l != "" && l[|l| - 1] == '\r' then l[..|l| - 1] else l] + DropReturns(lines[1..])
  }

  function Breaks(pending: bool): seq<Elem> { if pending then [One(Leaf(Br))] else [] }

  /** Elements put out, and whether a line break is still pending. */
  type Pending = (seq<Elem>, bool)

  /** One line of a run; every line but the first comes after a break. */
  function LineOut(line: string, continued: bool, br: bool): Pending {
    var shown := if continued then DropStart(line, IsBlank) else line;
    if shown == "" then ([], br || continued) else (Breaks(br || continued) + [One(MdSink.Text(shown))], false)
  }

  /** The lines of a run from line `i` on. */
  function LinesOut(lines: seq<string>, i: nat, br: bool): Pending
    requires i <= |lines|
    decreases |lines| - i
  {
    if i == |lines| then ([], br)
    else
      var here := LineOut(lines[i], i > 0, br);
      var rest := LinesOut(lines, i + 1, here.1);
      (here.0 + rest.0, rest.1)
  }

  /** `emitTextLines`. */
  function TextLines(s: string, br: bool): Pending { LinesOut(BreakLines(s), 0, br) }

  function PieceOut(piece: MathSpanLaws.Piece, br: bool): Pending {
    match piece
    case Prose(t) => TextLines(t, br)
    case Math(_, tex, display) => ([One(Leaf(MdSink.Math(tex, display)))], br)
  }

  function ProseOut(pieces: seq<MathSpanLaws.Piece>, br: bool): Pending {
    if pieces == [] then ([], br)
    else
      var here := PieceOut(pieces[0], br);
      var rest := ProseOut(pieces[1..], here.1);
      (here.0 + rest.0, rest.1)
  }

  /** `emitProse`. */
  function ProseLines(s: string, br: bool): Pending {
    MathSpanLaws.SplitRebuildsText(s);
    ProseOut(MathSpanLaws.PiecesFrom(s, MathSpans.Spans(s), 0), br)
  }

  // ---------------------------------------------------------------- inline content

  /** Where an inline walk stands: the next position to emit from, whether leading blanks are still syntax,
      and whether a line break is pending. */
  datatype Cursor = Cursor(pos: nat, first: bool, br: bool)

  type Walked = (seq<Elem>, Cursor)

  /** A run that ends at a newline leaves the next run's leading blanks to be dropped. */
  predicate EndsAtNewline(s: string) {
    var t := DropEnd(s, IsBlank);
    t != "" && t[|t| - 1] == '\n'
  }

  function PushText(cur: Cursor, s: string): Walked {
    var v := if cur.first then DropStart(s, IsBlank) else s;
    if v == "" then ([], cur)
    else
      var out := TextLines(v, cur.br);
      (out.0, cur.(first := EndsAtNewline(s), br := out.1))
  }

  function Shifted(spans: seq<MathSpans.Span>, offset: nat): seq<MathSpans.Span> {
    if spans == [] then []
    else [spans[0].(from := spans[0].from + offset, to := spans[0].to + offset)] + Shifted(spans[1..], offset)
  }

  /** The formulas of a node's whole source, at their places in the document. */
  function SpansOf(src: string, n: Tree): seq<MathSpans.Span>
    requires n.Node?
  { Shifted(MathSpans.Spans(TextOf(src, n)), n.from) }

  function SpanAt(spans: seq<MathSpans.Span>, i: nat): (s: Option<MathSpans.Span>)
    ensures s.Some? ==> s.value.from <= i < s.value.to
  {
    if spans == [] then None
    else if spans[0].from <= i < spans[0].to then Some(spans[0])
    else SpanAt(spans[1..], i)
  }

  /** The first listed span that starts strictly between. */
  function NextSpan(spans: seq<MathSpans.Span>, pos: nat, end: nat): (s: Option<MathSpans.Span>)
    ensures s.Some? ==> pos < s.value.from < end
  {
    if spans == [] then None
    else if pos < spans[0].from < end then Some(spans[0])
    else NextSpan(spans[1..], pos, end)
  }

  /** Emits the source up to `end`, formulas apart. */
  function Flush(src: string, spans: seq<MathSpans.Span>, cur: Cursor, end: nat): Walked
    decreases end - cur.pos
  {
    if cur.pos >= end then ([], cur)
    else
      var step := FlushStep(src, spans, cur, end);
      var rest := Flush(src, spans, step.1, end);
      (step.0 + rest.0, rest.1)
  }

  function FlushStep(src: string, spans: seq<MathSpans.Span>, cur: Cursor, end: nat): (w: Walked)
    requires cur.pos < end
    ensures cur.pos < w.1.pos <= end
  {
    match SpanAt(spans, cur.pos)
    case Some(here) =>
      var starts := cur.pos == here.from;
      (if starts then [One(Leaf(MdSink.Math(here.tex, here.display)))] else [],
       cur.(pos := if here.to < end then here.to else end, first := cur.first && !starts))
    case None =>
      var next := NextSpan(spans, cur.pos, end);
      var stop := if next.Some? then next.value.from else end;
      var pushed := PushText(cur, Slice(src, cur.pos, stop));
      (pushed.0, pushed.1.(pos := stop))
  }

  /** `stripMarks`: the node's source without the children of that name. */
  function StripMarks(src: string, c: Tree, pos: nat, to: nat, mark: string): string {
    match c
    case Nil => Slice(src, pos, to)
    case Node(name, from, end, _, next) =>
      if name == mark then (if from > pos then Slice(src, pos, from) else "") + StripMarks(src, next, end, to, mark)
      else StripMarks(src, next, pos, to, mark)
  }

  function LowerAscii(c: char): char { if 'A' <= c <= 'Z' then (c as int + 32) as char else c }

  function LowerAsciiAll(s: string): string { if s == "" then "" else [LowerAscii(s[0])] + LowerAsciiAll(s[1..]) }

  predicate IsAttachment(href: string) { "wks-attachment:" <= LowerAsciiAll(TrimStart(href)) }

  /** The role a link opens. */
  function LinkRole(env: Env, n: Tree): Role
    requires n.Node?
  {
    var url := FindChild(n.child, "URL");
    var href := if url.Node? then TextOf(env.src, url) else "";
    if IsAttachment(href) then AttachmentRef else Link(env.safeHref(href))
  }

  const PAPERCLIP := "📎 "

  function RefLabel(src: string, n: Tree): string
    requires n.Node?
  { Slice(src, n.from + 2, if n.to == 0 then 0 else n.to - 1) }

  function RefNumber(env: Env, n: Tree): Option<nat>
    requires n.Node?
  {
    var l := RefLabel(env.src, n);
    if env.numbers.Some? && l in env.numbers.value then Some(env.numbers.value[l]) else None
  }

  /** `walkInlineNode`: a pending break comes out first. */
  function InlineNode(env: Env, n: Tree, br: bool): Pending
    requires n.Node?
    decreases n, 1
  {
    var inside := InlineNodeBody(env, n);
    (Breaks(br) + inside.0, inside.1)
  }

  function InlineNodeBody(env: Env, n: Tree): Pending
    requires n.Node?
    decreases n, 0
  {
    if InlineWrap(n.name).Some? then
      var kids := InlineChildren(env, n);
      ([Box(Tag(InlineWrap(n.name).value), kids.0)], kids.1)
    else if n.name == "FootnoteRef" then ([One(Leaf(FootnoteRef(RefNumber(env, n))))], false)
    else if n.name == "InlineCode" then
      ([One(Leaf(InlineCode(StripMarks(env.src, n.child, n.from, n.to, "CodeMark"))))], false)
    else if n.name == "Link" then
      var kids := InlineChildren(env, n);
      var role := LinkRole(env, n);
      ([Box(role, (if role.AttachmentRef? then [One(MdSink.Text(PAPERCLIP))] else []) + kids.0)], kids.1)
    else if n.name == "TaskMarker" then
      var t := TextOf(env.src, n);
      ([One(Leaf(TaskMarker('x' in t || 'X' in t)))], false)
    else if n.name == "HardBreak" then ([One(Leaf(Br))], false)
    else ProseLines(TextOf(env.src, n), false)
  }

  /** The siblings from `c` on, inside a node with those formulas. */
  function InlineFrom(env: Env, spans: seq<MathSpans.Span>, c: Tree, cur: Cursor): Walked
    decreases c, 3
  {
    if c.Nil? then ([], cur)
    else
      var step := InlineStep(env, spans, c, cur);
      var rest := InlineFrom(env, spans, c.next, step.1);
      (step.0 + rest.0, rest.1)
  }

  function InlineStep(env: Env, spans: seq<MathSpans.Span>, c: Tree, cur: Cursor): Walked
    requires c.Node?
    decreases c, 2
  {
    var before := if c.from > cur.pos then Flush(env.src, spans, cur, c.from) else ([], cur);
    if SpanAt(spans, c.from).Some? then
      (before.0, before.1.(pos := if c.to > before.1.pos then c.to else before.1.pos))
    else if IsMark(c.name) then (before.0, before.1.(pos := c.to))
    else
      var node := InlineNode(env, c, before.1.br);
      (before.0 + node.0, Cursor(c.to, false, node.1))
  }

  /** `walkInlineChildren`. */
  function InlineChildren(env: Env, n: Tree): Pending
    requires n.Node?
    decreases n.child, 4
  {
    var spans := SpansOf(env.src, n);
    var inside := InlineFrom(env, spans, n.child, Cursor(n.from, true, false));
    var last := if inside.1.pos < n.to then Flush(env.src, spans, inside.1, n.to) else ([], inside.1);
    (inside.0 + last.0, last.1.br)
  }

  // ---------------------------------------------------------------- tables

  /** The cells of a row, from `c` on. */
  function Cells(env: Env, c: Tree, tag: string): seq<Elem> {
    if c.Nil? then []
    else (if c.name == "TableCell" then [Box(Tag(tag), InlineChildren(env, c).0)] else []) + Cells(env, c.next, tag)
  }

  predicate IsHeader(row: Tree) { row.Node? && row.name == "TableHeader" }

  predicate IsBodyRow(row: Tree) { row.Node? && row.name == "TableRow" }

  function Row(env: Env, row: Tree, tag: string): Elem
    requires row.Node?
  { Box(Tag("tr"), Cells(env, row.child, tag)) }

  /** The body rows up to the next header. */
  function BodyRows(env: Env, row: Tree): seq<Elem> {
    if row.Nil? || IsHeader(row) then []
    else (if IsBodyRow(row) then [Row(env, row, "td")] else []) + BodyRows(env, row.next)
  }

  function Siblings(row: Tree): nat { if row.Nil? then 0 else 1 + Siblings(row.next) }

  /** The next header, or the end. */
  function AfterBody(row: Tree): (r: Tree)
    ensures Siblings(r) <= Siblings(row)
  {
    if row.Nil? || IsHeader(row) then row else AfterBody(row.next)
  }

  /** A table's sections: each header row in a head of its own, each run of body rows in one body. */
  function Sections(env: Env, row: Tree): seq<Elem>
    decreases Siblings(row)
  {
    if row.Nil? then []
    else if IsHeader(row) then [Box(Tag("thead"), [Row(env, row, "th")])] + Sections(env, row.next)
    else if IsBodyRow(row) then
      [Box(Tag("tbody"), [Row(env, row, "td")] + BodyRows(env, row.next))] + Sections(env, AfterBody(row.next))
    else Sections(env, row.next)
  }

  // ---------------------------------------------------------------- blocks

  function AlignClass(align: string): Option<string> {
    if align == "left" then Some("cm-lp-align-left")
    else if align == "right" then Some("cm-lp-align-right")
    else if align == "center" then Some("cm-lp-align-center")
    else None
  }

  function AlignWrap(markup: string, align: Option<string>): string {
    if align.Some? && AlignClass(align.value).Some?
    then "<div class=\"" + AlignClass(align.value).value + "\">" + markup + "</div>"
    else markup
  }

  function AlignName(a: Option<FenceInfo.Align>): Option<string> {
    match a
    case None => None
    case Some(Left) => Some("left")
    case Some(Center) => Some("center")
    case Some(Right) => Some("right")
  }

  /** The first word. */
  function FirstWord(s: string): string {
    var t := Trim(s);
    t[..Text.Run(t, (c: char) => !IsSpace(c))]
  }

  function FencePiece(env: Env, n: Tree): Piece
    requires n.Node?
  {
    var code := FindChild(n.child, "CodeText");
    var body := if code.Node? then TextOf(env.src, code) else "";
    var info := if n.name == "FencedCode" then FindChild(n.child, "CodeInfo") else Nil;
    var lang := if info.Node? then FirstWord(TextOf(env.src, info)) else "";
    var macro := if lang != "" then env.fenceMacro(lang, body) else None;
    if macro.Some? then Raw(AlignWrap(macro.value, AlignName(FenceInfo.Parse(TextOf(env.src, info)).align)))
    else Raw("<pre><code>" + EscapeHtml(body) + "</code></pre>")
  }

  function FindRange(rs: seq<DirectiveResolver.Resolved>, from: nat): Option<DirectiveResolver.Resolved> {
    if rs == [] then None else if rs[0].from == from then Some(rs[0]) else FindRange(rs[1..], from)
  }

  /** Where the resolver says the directive at this node ends; the parse's own end on a miss. */
  function DirectiveEnd(src: string, n: Tree): nat
    requires n.Node?
  {
    var rd := FindRange(DirectiveResolver.Ranges(src), n.from);
    if rd.Some? then rd.value.to else n.to
  }

  function DirectiveBody(full: string): string {
    var lines := Split(full, '\n')[1..];
    Join(if lines != [] && IsClosingLine(lines[|lines| - 1]) then lines[..|lines| - 1] else lines, '\n')
  }

  /** `/^\s*:::+\s*$/` */
  predicate IsClosingLine(line: string) {
    var t := TrimStart(line);
    Text.Run(t, DirectiveSyntax.IsColon) >= 3 && TrimStart(t[Text.Run(t, DirectiveSyntax.IsColon)..]) == ""
  }

  function AttrAlign(attrs: Option<DirectiveSyntax.Attrs>): Option<string> {
    if attrs.None? then None else AttrValue(attrs.value, "align")
  }

  function AttrValue(attrs: DirectiveSyntax.Attrs, key: string): Option<string> {
    if attrs == [] then None else if attrs[0].0 == key then Some(attrs[0].1) else AttrValue(attrs[1..], key)
  }

  /** A macro's output for the directive, when the registry has one. */
  function DirectiveMarkup(env: Env, n: Tree): Option<string>
    requires n.Node?
  {
    var full := Slice(env.src, n.from, DirectiveEnd(env.src, n));
    var open := DirectiveSyntax.ParseDirectiveOpen(full[..IndexOf(full, '\n')]);
    if open.None? then None
    else match env.directiveMacro(open.value.name, DirectiveBody(full), open.value.caption)
      case None => None
      case Some(m) => Some(AlignWrap(m, if open.value.name == "table" then AttrAlign(open.value.attrs) else None))
  }

  /** `walkBlock`: what a block becomes. */
  function Block(env: Env, n: Tree): seq<Elem>
    requires n.Node?
    decreases n, 0
  {
    if InlineTag(n.name).Some? then [Box(Tag(InlineTag(n.name).value), InlineChildren(env, n).0)]
    else if BlockTag(n.name).Some? then [Box(Tag(BlockTag(n.name).value), Blocks(env, n.child, 0, false))]
    else if n.name == "FootnoteDef" then
      if env.numbers.None? then [One(Leaf(LiteralBlock(TextOf(env.src, n))))] else []
    else if n.name == "Task" then InlineChildren(env, n).0
    else if n.name == "FencedCode" || n.name == "CodeBlock" then [One(FencePiece(env, n))]
    else if n.name == "HorizontalRule" then [One(Leaf(Hr))]
    else if n.name == "Table" then [Box(Tag("table"), Sections(env, n.child))]
    else if n.name == "Directive" then
      var markup := DirectiveMarkup(env, n);
      if markup.Some? then [One(Raw(markup.value))] else [Box(DirectiveBox, Blocks(env, n.child, 0, false))]
    else [One(Leaf(LiteralBlock(TextOf(env.src, n))))]
  }

  /** How far a block reaches beyond its own node. */
  function Consumed(env: Env, n: Tree, skipUntil: nat): nat
    requires n.Node?
  {
    if n.name == "Directive" && DirectiveEnd(env.src, n) > skipUntil then DirectiveEnd(env.src, n) else skipUntil
  }

  /** `walkBlockChildren` from `c` on: siblings inside a range already consumed are dropped. */
  function Blocks(env: Env, c: Tree, skipUntil: nat, emitted: bool): seq<Elem>
    decreases c, 1
  {
    if c.Nil? then []
    else if IsMark(c.name) || c.from < skipUntil then Blocks(env, c.next, skipUntil, emitted)
    else (if emitted then [One(Gap)] else []) + Block(env, c) + Blocks(env, c.next, Consumed(env, c, skipUntil), true)
  }
}
