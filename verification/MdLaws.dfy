/** What every document's content keeps, whatever its tree: tables nest as tables do, every footnote number
    shown has its note, and every definition is shown once. */
module MdLaws {
  import opened Text
  import opened MdSink
  import opened MdVisitor
  import opened MdWalker
  import opened MdFootnotes
  import DirectiveResolver
  import MathSpans
  import MathSpanLaws

  // ---------------------------------------------------------------- nesting and references

  /** The surroundings of a box's kids: its name, and for a row also what the row is in. */
  function Within(ctx: string, r: Role): string { if r == Tag("tr") then ctx + "/tr" else RoleName(r) }

  predicate Tabular(ctx: string) { ctx in {"table", "thead", "tbody", "thead/tr", "tbody/tr"} }

  /** Heads and bodies stand directly in a table and nothing else does, rows directly in those, header cells in
      a head's rows and data cells in a body's; notes stand in the list of notes. */
  predicate Allowed(ctx: string, r: Role) {
    (r == Tag("thead") || r == Tag("tbody") <==> ctx == "table")
    && (r == Tag("tr") <==> ctx == "thead" || ctx == "tbody")
    && (r == Tag("th") <==> ctx == "thead/tr")
    && (r == Tag("td") <==> ctx == "tbody/tr")
    && (r.FootnoteItem? <==> ctx == "footnoteList")
  }

  predicate GoodElem(e: Elem, ctx: string, k: nat)
    decreases e, 0
  {
    match e
    case Box(r, kids) => Allowed(ctx, r) && Good(kids, Within(ctx, r), k)
    case One(p) => !Tabular(ctx) && ctx != "footnoteList" && (p.Leaf? && p.leaf.FootnoteRef? && p.leaf.n.Some? ==> 1 <= p.leaf.n.value <= k)
  }

  /** Siblings that may stand in `ctx` and show no footnote number but 1 to `k`. */
  predicate Good(es: seq<Elem>, ctx: string, k: nat)
    decreases es, 1
  {
    es == [] || (GoodElem(es[0], ctx, k) && Good(es[1..], ctx, k))
  }

  lemma {:induction false} GoodAppend(a: seq<Elem>, b: seq<Elem>, ctx: string, k: nat)
    ensures Good(a + b, ctx, k) <==> Good(a, ctx, k) && Good(b, ctx, k)
  {
    hide GoodElem;
    if a == [] {
      assert a + b == b;
    } else {
      assert (a + b)[1..] == a[1..] + b;
      GoodAppend(a[1..], b, ctx, k);
    }
  }

  lemma GoodOne(e: Elem, ctx: string, k: nat)
    ensures Good([e], ctx, k) <==> GoodElem(e, ctx, k)
    ensures Good([], ctx, k)
  {
    hide GoodElem;
    assert [e][1..] == [];
  }

  /** Where prose may stand. */
  predicate Plain(ctx: string) { !Tabular(ctx) && ctx != "footnoteList" }

  predicate IsRef(p: Piece) { p.Leaf? && p.leaf.FootnoteRef? }

  lemma GoodPiece(p: Piece, ctx: string, k: nat)
    requires Plain(ctx) && !IsRef(p)
    ensures Good([One(p)], ctx, k)
  {
    GoodOne(One(p), ctx, k);
  }

  lemma GoodBreaks(br: bool, ctx: string, k: nat)
    requires Plain(ctx)
    ensures Good(Breaks(br), ctx, k)
  {
    hide Plain, Good;
    GoodPiece(Leaf(Br), ctx, k);
    GoodOne(One(Gap), ctx, k);
  }

  lemma {:induction false} GoodLines(lines: seq<string>, i: nat, br: bool, ctx: string, k: nat)
    requires i <= |lines| && Plain(ctx)
    ensures Good(LinesOut(lines, i, br).0, ctx, k)
    decreases |lines| - i
  {
    hide Plain, Good, DropStart;
    GoodOne(One(Gap), ctx, k);
    if i < |lines| {
      var here := LineOut(lines[i], i > 0, br);
      var shown := if i > 0 then DropStart(lines[i], IsBlank) else lines[i];
      GoodBreaks(br || i > 0, ctx, k);
      GoodPiece(MdSink.Text(shown), ctx, k);
      GoodAppend(Breaks(br || i > 0), [One(MdSink.Text(shown))], ctx, k);
      GoodLines(lines, i + 1, here.1, ctx, k);
      GoodAppend(here.0, LinesOut(lines, i + 1, here.1).0, ctx, k);
    }
  }

  lemma {:induction false} GoodProse(pieces: seq<MathSpanLaws.Piece>, br: bool, ctx: string, k: nat)
    requires Plain(ctx)
    ensures Good(ProseOut(pieces, br).0, ctx, k)
  {
    hide Plain, Good, LinesOut, BreakLines;
    GoodOne(One(Gap), ctx, k);
    if pieces != [] {
      var here := PieceOut(pieces[0], br);
      match pieces[0] {
        case Prose(t) => GoodLines(BreakLines(t), 0, br, ctx, k);
        case Math(_, tex, display) => GoodPiece(Leaf(MdSink.Math(tex, display)), ctx, k);
      }
      GoodProse(pieces[1..], here.1, ctx, k);
      GoodAppend(here.0, ProseOut(pieces[1..], here.1).0, ctx, k);
    }
  }

  lemma {:induction false} GoodFlush(src: string, spans: seq<MathSpans.Span>, cur: Cursor, end: nat, ctx: string, k: nat)
    requires Plain(ctx)
    ensures Good(Flush(src, spans, cur, end).0, ctx, k)
    decreases end - cur.pos
  {
    hide Plain, Good, FlushStep;
    GoodOne(One(Gap), ctx, k);
    if cur.pos < end {
      var step := FlushStep(src, spans, cur, end);
      GoodFlushStep(src, spans, cur, end, ctx, k);
      GoodFlush(src, spans, step.1, end, ctx, k);
      GoodAppend(step.0, Flush(src, spans, step.1, end).0, ctx, k);
    }
  }

  lemma GoodFlushStep(src: string, spans: seq<MathSpans.Span>, cur: Cursor, end: nat, ctx: string, k: nat)
    requires Plain(ctx) && cur.pos < end
    ensures Good(FlushStep(src, spans, cur, end).0, ctx, k)
  {
    hide Plain, Good, LinesOut, BreakLines, DropStart, SpanAt, NextSpan, Slice, EndsAtNewline;
    GoodOne(One(Gap), ctx, k);
    match SpanAt(spans, cur.pos)
    case Some(here) => GoodPiece(Leaf(MdSink.Math(here.tex, here.display)), ctx, k);
    case None =>
      var next := NextSpan(spans, cur.pos, end);
      var s := Slice(src, cur.pos, if next.Some? then next.value.from else end);
      GoodLines(BreakLines(if cur.first then DropStart(s, IsBlank) else s), 0, cur.br, ctx, k);
  }

  /** The numbers the walk may show are 1 to `k`. */
  predicate NumbersBelow(env: Env, k: nat) {
    env.numbers.Some? ==> forall l :: l in env.numbers.value ==> 1 <= env.numbers.value[l] <= k
  }

  lemma GoodInlineNode(env: Env, n: Tree, br: bool, ctx: string, k: nat)
    requires n.Node? && Plain(ctx) && NumbersBelow(env, k)
    ensures Good(InlineNode(env, n, br).0, ctx, k)
    decreases n, 1
  {
    hide Plain, Good, InlineNodeBody;
    GoodBreaks(br, ctx, k);
    GoodInlineNodeBody(env, n, ctx, k);
    GoodAppend(Breaks(br), InlineNodeBody(env, n).0, ctx, k);
  }

  lemma GoodInlineNodeBody(env: Env, n: Tree, ctx: string, k: nat)
    requires n.Node? && Plain(ctx) && NumbersBelow(env, k)
    ensures Good(InlineNodeBody(env, n).0, ctx, k)
    decreases n, 0
  {
    hide InlineChildren, ProseOut, LinkRole, StripMarks, TextOf, Good, Plain, RefLabel;
    if InlineWrap(n.name).Some? {
      GoodInlineBox(env, n, Tag(InlineWrap(n.name).value), [], ctx, k);
      assert [] + InlineChildren(env, n).0 == InlineChildren(env, n).0;
    } else if n.name == "FootnoteRef" {
      GoodOne(One(Leaf(FootnoteRef(RefNumber(env, n)))), ctx, k);
      GoodRef(env, n, ctx, k);
    } else if n.name == "InlineCode" {
      GoodPiece(Leaf(InlineCode(StripMarks(env.src, n.child, n.from, n.to, "CodeMark"))), ctx, k);
    } else if n.name == "Link" {
      var role := LinkRole(env, n);
      LinkRoles(env, n);
      GoodInlineBox(env, n, role, if role.AttachmentRef? then [One(MdSink.Text(PAPERCLIP))] else [], ctx, k);
    } else if n.name == "TaskMarker" {
      var t := TextOf(env.src, n);
      GoodPiece(Leaf(TaskMarker('x' in t || 'X' in t)), ctx, k);
    } else if n.name == "HardBreak" {
      GoodPiece(Leaf(Br), ctx, k);
    } else {
      var t := TextOf(env.src, n);
      MathSpanLaws.SplitRebuildsText(t);
      GoodProse(MathSpanLaws.PiecesFrom(t, MathSpans.Spans(t), 0), false, ctx, k);
    }
  }

  /** The boxes that hold inline content and may stand wherever prose may. */
  predicate InlineRole(r: Role) {
    r.Link? || r.AttachmentRef? || (r.Tag? && r.name in {"em", "strong", "s", "mark", "p", "h1", "h2", "h3", "h4", "h5", "h6"})
  }

  lemma GoodInlineBox(env: Env, n: Tree, role: Role, lead: seq<Elem>, ctx: string, k: nat)
    requires n.Node? && Plain(ctx) && NumbersBelow(env, k) && InlineRole(role)
    requires lead == [] || lead == [One(MdSink.Text(PAPERCLIP))]
    ensures Good([Box(role, lead + InlineChildren(env, n).0)], ctx, k)
    decreases n.child, 5
  {
    hide InlineChildren;
    var inside := Within(ctx, role);
    assert Plain(inside) && Allowed(ctx, role);
    hide Good, Plain;
    GoodPiece(MdSink.Text(PAPERCLIP), inside, k);
    GoodOne(One(Gap), inside, k);
    GoodInlineChildren(env, n, inside, k);
    GoodAppend(lead, InlineChildren(env, n).0, inside, k);
    GoodOne(Box(role, lead + InlineChildren(env, n).0), ctx, k);
  }

  lemma GoodInlineFrom(env: Env, spans: seq<MathSpans.Span>, c: Tree, cur: Cursor, ctx: string, k: nat)
    requires Plain(ctx) && NumbersBelow(env, k)
    ensures Good(InlineFrom(env, spans, c, cur).0, ctx, k)
    decreases c, 3
  {
    hide Plain, Good, InlineStep;
    GoodOne(One(Gap), ctx, k);
    if c.Node? {
      var step := InlineStep(env, spans, c, cur);
      GoodInlineStep(env, spans, c, cur, ctx, k);
      GoodInlineFrom(env, spans, c.next, step.1, ctx, k);
      GoodAppend(step.0, InlineFrom(env, spans, c.next, step.1).0, ctx, k);
    }
  }

  lemma GoodInlineStep(env: Env, spans: seq<MathSpans.Span>, c: Tree, cur: Cursor, ctx: string, k: nat)
    requires c.Node? && Plain(ctx) && NumbersBelow(env, k)
    ensures Good(InlineStep(env, spans, c, cur).0, ctx, k)
    decreases c, 2
  {
    hide Plain, Good, Flush, InlineNode, SpanAt, IsMark;
    GoodOne(One(Gap), ctx, k);
    var before := if c.from > cur.pos then Flush(env.src, spans, cur, c.from) else ([], cur);
    GoodFlush(env.src, spans, cur, c.from, ctx, k);
    GoodInlineNode(env, c, before.1.br, ctx, k);
    GoodAppend(before.0, InlineNode(env, c, before.1.br).0, ctx, k);
  }

  lemma GoodInlineChildren(env: Env, n: Tree, ctx: string, k: nat)
    requires n.Node? && Plain(ctx) && NumbersBelow(env, k)
    ensures Good(InlineChildren(env, n).0, ctx, k)
    decreases n.child, 4
  {
    hide Plain, Good, Flush, InlineFrom, SpansOf;
    GoodOne(One(Gap), ctx, k);
    var spans := SpansOf(env.src, n);
    var inside := InlineFrom(env, spans, n.child, Cursor(n.from, true, false));
    GoodInlineFrom(env, spans, n.child, Cursor(n.from, true, false), ctx, k);
    GoodFlush(env.src, spans, inside.1, n.to, ctx, k);
    GoodAppend(inside.0, Flush(env.src, spans, inside.1, n.to).0, ctx, k);
    assert inside.0 + [] == inside.0;
  }

  // ---------------------------------------------------------------- tables and blocks

  lemma {:induction false} GoodCells(env: Env, c: Tree, tag: string, ctx: string, k: nat)
    requires (tag == "th" && ctx == "thead/tr") || (tag == "td" && ctx == "tbody/tr")
    requires NumbersBelow(env, k)
    ensures Good(Cells(env, c, tag), ctx, k)
  {
    hide InlineChildren, Good;
    GoodOne(One(Gap), ctx, k);
    if c.Node? {
      GoodCells(env, c.next, tag, ctx, k);
      if c.name == "TableCell" {
        var cell := Box(Tag(tag), InlineChildren(env, c).0);
        assert Plain(tag);
        GoodInlineChildren(env, c, tag, k);
        GoodCell(tag, InlineChildren(env, c).0, ctx, k);
        GoodOne(cell, ctx, k);
        GoodAppend([cell], Cells(env, c.next, tag), ctx, k);
      } else {
        assert [] + Cells(env, c.next, tag) == Cells(env, c.next, tag);
      }
    }
  }

  lemma GoodRow(env: Env, row: Tree, tag: string, ctx: string, k: nat)
    requires row.Node? && NumbersBelow(env, k)
    requires (tag == "th" && ctx == "thead") || (tag == "td" && ctx == "tbody")
    ensures Good([Row(env, row, tag)], ctx, k)
  {
    hide Cells;
    assert "thead" + "/tr" == "thead/tr" && "tbody" + "/tr" == "tbody/tr";
    GoodCells(env, row.child, tag, ctx + "/tr", k);
    GoodOne(Row(env, row, tag), ctx, k);
  }

  lemma {:induction false} GoodBodyRows(env: Env, row: Tree, k: nat)
    requires NumbersBelow(env, k)
    ensures Good(BodyRows(env, row), "tbody", k)
  {
    hide Row, Good;
    GoodOne(One(Gap), "tbody", k);
    if row.Node? && !IsHeader(row) {
      GoodBodyRows(env, row.next, k);
      if IsBodyRow(row) {
        GoodRow(env, row, "td", "tbody", k);
        GoodAppend([Row(env, row, "td")], BodyRows(env, row.next), "tbody", k);
      } else {
        assert [] + BodyRows(env, row.next) == BodyRows(env, row.next);
      }
    }
  }

  lemma GoodSection(name: string, rows: seq<Elem>, k: nat)
    requires (name == "thead" || name == "tbody") && Good(rows, name, k)
    ensures Good([Box(Tag(name), rows)], "table", k)
  {
    GoodOne(Box(Tag(name), rows), "table", k);
  }

  lemma {:induction false} GoodSections(env: Env, row: Tree, k: nat)
    requires NumbersBelow(env, k)
    ensures Good(Sections(env, row), "table", k)
    decreases Siblings(row)
  {
    hide Row, Good, BodyRows, AfterBody;
    GoodOne(One(Gap), "table", k);
    if row.Node? {
      if IsHeader(row) {
        GoodRow(env, row, "th", "thead", k);
        GoodSection("thead", [Row(env, row, "th")], k);
        GoodSections(env, row.next, k);
        GoodAppend([Box(Tag("thead"), [Row(env, row, "th")])], Sections(env, row.next), "table", k);
      } else if IsBodyRow(row) {
        var rows := [Row(env, row, "td")] + BodyRows(env, row.next);
        GoodRow(env, row, "td", "tbody", k);
        GoodBodyRows(env, row.next, k);
        GoodAppend([Row(env, row, "td")], BodyRows(env, row.next), "tbody", k);
        GoodSection("tbody", rows, k);
        GoodSections(env, AfterBody(row.next), k);
        GoodAppend([Box(Tag("tbody"), rows)], Sections(env, AfterBody(row.next)), "table", k);
      } else {
        GoodSections(env, row.next, k);
      }
    }
  }

  /** The boxes that hold blocks and may stand wherever prose may. */
  predicate BlockRole(r: Role) { r.DirectiveBox? || (r.Tag? && r.name in {"blockquote", "ul", "ol", "li"}) }

  lemma GoodBlockBox(role: Role, kids: seq<Elem>, ctx: string, k: nat)
    requires Plain(ctx) && BlockRole(role) && Good(kids, RoleName(role), k)
    ensures Good([Box(role, kids)], ctx, k)
  {
    GoodOne(Box(role, kids), ctx, k);
  }

  lemma GoodBlock(env: Env, n: Tree, ctx: string, k: nat)
    requires n.Node? && Plain(ctx) && NumbersBelow(env, k)
    ensures Good(Block(env, n), ctx, k)
    decreases n, 0
  {
    hide InlineChildren, Blocks, Sections, DirectiveMarkup, FencePiece, TextOf, Good, Plain;
    GoodOne(One(Gap), ctx, k);
    if InlineTag(n.name).Some? {
      GoodInlineBox(env, n, Tag(InlineTag(n.name).value), [], ctx, k);
      assert [] + InlineChildren(env, n).0 == InlineChildren(env, n).0;
    } else if BlockTag(n.name).Some? {
      PlainContexts();
      GoodBlocks(env, n.child, 0, false, BlockTag(n.name).value, k);
      GoodBlockBox(Tag(BlockTag(n.name).value), Blocks(env, n.child, 0, false), ctx, k);
    } else if n.name == "FootnoteDef" {
      GoodPiece(Leaf(LiteralBlock(TextOf(env.src, n))), ctx, k);
    } else if n.name == "Task" {
      GoodInlineChildren(env, n, ctx, k);
    } else if n.name == "FencedCode" || n.name == "CodeBlock" {
      FenceIsRaw(env, n);
      GoodPiece(FencePiece(env, n), ctx, k);
    } else if n.name == "HorizontalRule" {
      GoodPiece(Leaf(Hr), ctx, k);
    } else if n.name == "Table" {
      GoodSections(env, n.child, k);
      GoodTable(Sections(env, n.child), ctx, k);
    } else if n.name == "Directive" {
      var markup := DirectiveMarkup(env, n);
      if markup.Some? { GoodPiece(Raw(markup.value), ctx, k); }
      PlainContexts();
      GoodBlocks(env, n.child, 0, false, "directive", k);
      GoodBlockBox(DirectiveBox, Blocks(env, n.child, 0, false), ctx, k);
    } else {
      GoodPiece(Leaf(LiteralBlock(TextOf(env.src, n))), ctx, k);
    }
  }

  lemma GoodTable(sections: seq<Elem>, ctx: string, k: nat)
    requires Plain(ctx) && Good(sections, "table", k)
    ensures Good([Box(Tag("table"), sections)], ctx, k)
  {
    GoodOne(Box(Tag("table"), sections), ctx, k);
  }

  lemma GoodBlocks(env: Env, c: Tree, skipUntil: nat, emitted: bool, ctx: string, k: nat)
    requires Plain(ctx) && NumbersBelow(env, k)
    ensures Good(Blocks(env, c, skipUntil, emitted), ctx, k)
    decreases c, 1
  {
    hide Plain, Good, Block, Consumed, IsMark;
    GoodOne(One(Gap), ctx, k);
    if c.Node? {
      if IsMark(c.name) || c.from < skipUntil {
        GoodBlocks(env, c.next, skipUntil, emitted, ctx, k);
      } else {
        var gap := if emitted then [One(Gap)] else [];
        var rest := Blocks(env, c.next, Consumed(env, c, skipUntil), true);
        GoodPiece(Gap, ctx, k);
        GoodBlock(env, c, ctx, k);
        GoodBlocks(env, c.next, Consumed(env, c, skipUntil), true, ctx, k);
        GoodAppend(gap, Block(env, c), ctx, k);
        GoodAppend(gap + Block(env, c), rest, ctx, k);
      }
    }
  }

  // ---------------------------------------------------------------- the notes

  lemma {:induction false} LookupFinds(defs: Defs, i: nat)
    requires i < |defs| && NoRepeats(LabelsOf(defs))
    ensures Lookup(defs, defs[i].0) == defs[i].1
  {
    if i > 0 {
      assert LabelsOf(defs)[0] != LabelsOf(defs)[i];
      assert LabelsOf(defs[1..]) == LabelsOf(defs)[1..];
      LookupFinds(defs[1..], i - 1);
    }
  }

  /** The notes under a list of labels, each of which has its definition. */
  lemma {:induction false} ItemsAre(env: Env, fn: Footnotes, ls: seq<string>, unreferenced: bool)
    requires forall l :: l in ls ==> Lookup(fn.defs, l).Node?
    ensures |Items(env, fn, ls, unreferenced)| == |ls|
    ensures forall i :: 0 <= i < |ls| ==>
              Items(env, fn, ls, unreferenced)[i]
              == Item(env, if !unreferenced && ls[i] in fn.numbers then Some(fn.numbers[ls[i]]) else None,
                      Lookup(fn.defs, ls[i]), unreferenced)
  {
    hide Item, Lookup;
    if ls != [] {
      assert ls[0] in ls;
      ItemsAre(env, fn, ls[1..], unreferenced);
    }
  }

  lemma CollectedNotesExist(src: string, dirs: seq<DirectiveResolver.Resolved>, nodes: seq<Tree>, fn: Footnotes, l: string)
    requires (forall n :: n in nodes ==> n.Node?) && DefsAre(src, dirs, nodes, fn.defs) && l in LabelsOf(fn.defs)
    ensures Lookup(fn.defs, l).Node? && Lookup(fn.defs, l) in nodes && DefOf(src, dirs, Lookup(fn.defs, l)) == Some(l)
    ensures FirstOf(src, dirs, nodes, Lookup(fn.defs, l))
  {
    CollectedOnce(src, dirs, nodes, fn.defs);
    hide DefOf, Lookup, IsFirstDef, Stands;
    var i :| 0 <= i < |fn.defs| && LabelsOf(fn.defs)[i] == l;
    LookupFinds(fn.defs, i);
    var at :| DefsAt(src, dirs, nodes, fn.defs, at);
    assert at[i] in at;
    StandingIsNode(src, dirs, nodes, fn.defs[i], at[i]);
  }

  lemma StandingIsNode(src: string, dirs: seq<DirectiveResolver.Resolved>, nodes: seq<Tree>, def: (string, Tree), k: nat)
    requires (forall n :: n in nodes ==> n.Node?) && Stands(src, dirs, nodes, def, k)
    ensures k < |nodes| && def.1 == nodes[k]
  {
  }

  /** It is the document's first definition of its label. */
  ghost predicate FirstOf(src: string, dirs: seq<DirectiveResolver.Resolved>, nodes: seq<Tree>, def: Tree)
    requires forall n :: n in nodes ==> n.Node?
  {
    exists k: nat :: IsFirstDef(src, dirs, nodes, k) && nodes[k] == def
  }

  /** The footnote section of a collected document: note 1, note 2 and so on for the labels in the order they
      are first referred to, each with its own definition, then the definitions nobody refers to; so every
      definition collected is shown exactly once. */
  lemma NotesAreExact(env: Env, src: string, dirs: seq<DirectiveResolver.Resolved>, nodes: seq<Tree>, fn: Footnotes)
    requires (forall n :: n in nodes ==> n.Node?)
    requires DefsAre(src, dirs, nodes, fn.defs) && Numbered(Refs(src, dirs, nodes), fn)
    ensures forall l :: l in LabelsOf(fn.defs) ==>
              Lookup(fn.defs, l).Node? && DefOf(src, dirs, Lookup(fn.defs, l)) == Some(l) && FirstOf(src, dirs, nodes, Lookup(fn.defs, l))
    ensures |Items(env, fn, fn.order, false)| == |fn.order|
            && forall i :: 0 <= i < |fn.order| ==>
                 fn.order[i] in LabelsOf(fn.defs)
                 && Items(env, fn, fn.order, false)[i] == Item(env, Some(i + 1), Lookup(fn.defs, fn.order[i]), false)
    ensures |Items(env, fn, fn.unreferenced, true)| == |fn.unreferenced|
            && forall i :: 0 <= i < |fn.unreferenced| ==>
                 fn.unreferenced[i] in LabelsOf(fn.defs)
                 && Items(env, fn, fn.unreferenced, true)[i] == Item(env, None, Lookup(fn.defs, fn.unreferenced[i]), true)
    ensures NoRepeats(fn.order + fn.unreferenced)
    ensures forall l :: l in fn.order + fn.unreferenced <==> l in LabelsOf(fn.defs)
  {
    hide Item, DefOf, Refs, InRefOrder, Items, Lookup, DefsAre, FirstOf;
    forall l | l in LabelsOf(fn.defs)
      ensures Lookup(fn.defs, l).Node? && DefOf(src, dirs, Lookup(fn.defs, l)) == Some(l) && FirstOf(src, dirs, nodes, Lookup(fn.defs, l))
    {
      CollectedNotesExist(src, dirs, nodes, fn, l);
    }
    ItemsAre(env, fn, fn.order, false);
    ItemsAre(env, fn, fn.unreferenced, true);
    forall i | 0 <= i < |fn.order| ensures fn.order[i] in fn.numbers && fn.numbers[fn.order[i]] == i + 1 {
      assert fn.order[i] in fn.order;
    }
    forall i | 0 <= i < |fn.unreferenced| ensures fn.unreferenced[i] in LabelsOf(fn.defs) {
      assert fn.unreferenced[i] in fn.unreferenced;
    }
    OrderAndRestApart(Refs(src, dirs, nodes), fn);
  }

  lemma OrderAndRestApart(refs: seq<string>, fn: Footnotes)
    requires Numbered(refs, fn)
    ensures NoRepeats(fn.order + fn.unreferenced)
    ensures forall l :: l in fn.order + fn.unreferenced <==> l in LabelsOf(fn.defs)
  {
    hide InRefOrder;
    var a, b := fn.order, fn.unreferenced;
    forall i, j | 0 <= i < |a| && 0 <= j < |b| ensures a[i] != b[j] { assert a[i] in a && b[j] in b; }
  }

  lemma GoodNote(env: Env, n: Option<nat>, def: Tree, unreferenced: bool, k: nat)
    requires def.Node? && NumbersBelow(env, k)
    ensures Good([Item(env, n, def, unreferenced)], "footnoteList", k)
  {
    hide InlineChildren;
    var r, text := FootnoteItem(n, unreferenced), InlineChildren(env, def).0;
    assert Plain("footnoteItem") && Within("footnoteList", r) == "footnoteItem" && Allowed("footnoteList", r);
    hide Good;
    GoodInlineChildren(env, def, "footnoteItem", k);
    GoodOne(One(Gap), "footnoteItem", k);
    var back := if n.Some? then [One(MdSink.Text(" ")), One(Leaf(FootnoteBack(n.value)))] else [];
    if n.Some? {
      GoodPiece(MdSink.Text(" "), "footnoteItem", k);
      GoodPiece(Leaf(FootnoteBack(n.value)), "footnoteItem", k);
      GoodAppend([One(MdSink.Text(" "))], [One(Leaf(FootnoteBack(n.value)))], "footnoteItem", k);
      assert back == [One(MdSink.Text(" "))] + [One(Leaf(FootnoteBack(n.value)))];
    }
    GoodAppend(text, back, "footnoteItem", k);
    GoodOne(Item(env, n, def, unreferenced), "footnoteList", k);
  }

  lemma {:induction false} GoodItems(env: Env, fn: Footnotes, ls: seq<string>, unreferenced: bool, k: nat)
    requires NumbersBelow(env, k)
    ensures Good(Items(env, fn, ls, unreferenced), "footnoteList", k)
  {
    hide Good, Item, Lookup;
    GoodOne(One(Gap), "footnoteList", k);
    if ls != [] {
      GoodItems(env, fn, ls[1..], unreferenced, k);
      var def := Lookup(fn.defs, ls[0]);
      var n := if !unreferenced && ls[0] in fn.numbers then Some(fn.numbers[ls[0]]) else None;
      if def.Node? {
        GoodNote(env, n, def, unreferenced, k);
        GoodAppend([Item(env, n, def, unreferenced)], Items(env, fn, ls[1..], unreferenced), "footnoteList", k);
      } else {
        assert [] + Items(env, fn, ls[1..], unreferenced) == Items(env, fn, ls[1..], unreferenced);
      }
    }
  }

  lemma GoodNotes(env: Env, fn: Footnotes, k: nat)
    requires NumbersBelow(env, k)
    ensures Good([Section(env, fn)], "", k)
  {
    hide Items, Good;
    var items := Items(env, fn, fn.order, false) + Items(env, fn, fn.unreferenced, true);
    GoodItems(env, fn, fn.order, false, k);
    GoodItems(env, fn, fn.unreferenced, true, k);
    GoodAppend(Items(env, fn, fn.order, false), Items(env, fn, fn.unreferenced, true), "footnoteList", k);
    GoodOne(Box(FootnoteList, items), "footnoteSection", k);
    GoodPiece(Leaf(Hr), "footnoteSection", k);
    GoodAppend([One(Leaf(Hr))], [Box(FootnoteList, items)], "footnoteSection", k);
    assert [One(Leaf(Hr))] + [Box(FootnoteList, items)] == [One(Leaf(Hr)), Box(FootnoteList, items)];
    GoodOne(Section(env, fn), "", k);
  }

  /** For every tree: the document's tables, rows, cells and notes stand only where they belong, and no
      footnote number is shown, in the text or in a note, that has no note of its own in the section. */
  lemma DocumentIsWellNested(env: Env, tree: Tree, fn: Footnotes, refs: seq<string>)
    requires tree.Node? && Numbered(refs, fn) && env.numbers == Some(fn.numbers)
    ensures Good(Document(env, tree, Some(fn)), "", |fn.order|)
  {
    hide Blocks, Section, Good, InRefOrder;
    var k := |fn.order|;
    assert NumbersBelow(env, k) by {
      forall l | l in fn.numbers ensures 1 <= fn.numbers[l] <= k {
        assert l in fn.order;
        var i :| 0 <= i < k && fn.order[i] == l;
      }
    }
    GoodBlocks(env, tree.child, 0, false, "", k);
    GoodNotes(env, fn, k);
    GoodPiece(Gap, "", k);
    GoodAppend([One(Gap)], [Section(env, fn)], "", k);
    assert [One(Gap)] + [Section(env, fn)] == [One(Gap), Section(env, fn)];
    var blocks := Blocks(env, tree.child, 0, false);
    GoodAppend(blocks, [One(Gap), Section(env, fn)], "", k);
    assert blocks + [] == blocks;
  }

  /** `renderMarkdownToHtml` on a parse of the source: the markup is the nested rendering of a document whose
      footnotes are collected, numbered and nested as stated above. */
  method RenderMarkdown(env: Env, math: MathRender, tree: Tree) returns (markup: string, fn: Footnotes)
    requires tree.Node?
    ensures DefsAre(env.src, DirectiveResolver.Ranges(env.src), Preorder(tree), fn.defs)
    ensures Numbered(Refs(env.src, DirectiveResolver.Ranges(env.src), Preorder(tree)), fn)
    ensures markup == Html(math, Document(env.(numbers := Some(fn.numbers)), tree, Some(fn)), true)
    ensures Good(Document(env.(numbers := Some(fn.numbers)), tree, Some(fn)), "", |fn.order|)
  {
    hide Good, Document, Html, Numbered, DefsAre, Refs;
    fn := CollectFootnotes(tree, env.src);
    var sink;
    markup, sink := RenderDocument(env.(numbers := Some(fn.numbers)), math, tree, Some(fn));
    DocumentIsWellNested(env.(numbers := Some(fn.numbers)), tree, fn,
                         Refs(env.src, DirectiveResolver.Ranges(env.src), Preorder(tree)));
  }

  /** That description leaves nothing open: two collections that meet it give one document. */
  lemma RenderingIsDetermined(env: Env, tree: Tree, a: Footnotes, b: Footnotes)
    requires tree.Node?
    requires DefsAre(env.src, DirectiveResolver.Ranges(env.src), Preorder(tree), a.defs)
    requires Numbered(Refs(env.src, DirectiveResolver.Ranges(env.src), Preorder(tree)), a)
    requires DefsAre(env.src, DirectiveResolver.Ranges(env.src), Preorder(tree), b.defs)
    requires Numbered(Refs(env.src, DirectiveResolver.Ranges(env.src), Preorder(tree)), b)
    ensures Document(env.(numbers := Some(a.numbers)), tree, Some(a)) == Document(env.(numbers := Some(b.numbers)), tree, Some(b))
  {
    hide Document, DefsAre, Numbered, Refs;
    FootnotesAreUnique(env.src, tree, a, b);
  }

  lemma GoodRef(env: Env, n: Tree, ctx: string, k: nat)
    requires n.Node? && Plain(ctx) && NumbersBelow(env, k)
    ensures GoodElem(One(Leaf(FootnoteRef(RefNumber(env, n)))), ctx, k)
  {
    hide RefLabel;
  }

  lemma LinkRoles(env: Env, n: Tree)
    requires n.Node?
    ensures LinkRole(env, n).AttachmentRef? || LinkRole(env, n).Link?
  {}

  lemma GoodCell(tag: string, kids: seq<Elem>, ctx: string, k: nat)
    requires (tag == "th" && ctx == "thead/tr") || (tag == "td" && ctx == "tbody/tr")
    requires Good(kids, tag, k)
    ensures GoodElem(Box(Tag(tag), kids), ctx, k)
  {}

  lemma PlainContexts()
    ensures forall s :: s in {"blockquote", "ul", "ol", "li", "directive"} ==> Plain(s)
  {}

  lemma FenceIsRaw(env: Env, n: Tree)
    requires n.Node?
    ensures FencePiece(env, n).Raw?
  {}
}
