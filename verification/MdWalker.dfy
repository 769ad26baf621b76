/** The visitor as it runs: loops over siblings that move a position, a pending break and an open table body
    along, and call the sink as they go. Each method is proved to feed the sink exactly the content the
    recursive description names. */
module MdWalker {
  import opened Text
  import opened MdSink
  import opened MdVisitor
  import MathSpans
  import MathSpanLaws

  lemma TookKeeps(math: MathRender, s0: seq<Frame>, t0: seq<Event>, s1: seq<Frame>, t1: seq<Event>, es: seq<Elem>)
    requires Took(math, s0, t0, s1, t1, es)
    ensures s1 != [] && |s1| == |s0|
  {
    hide Html, Events;
  }

  class MdWalker {
    const env: Env
    const sink: HtmlSink
    var pendingBr: bool

    constructor (env: Env, sink: HtmlSink)
      ensures this.env == env && this.sink == sink
    {
      this.env, this.sink, pendingBr := env, sink, false;
    }

    /** Since the given moment the sink has taken in exactly `es`. */
    ghost predicate Fed(s0: seq<Frame>, t0: seq<Event>, es: seq<Elem>)
      reads sink
    {
      sink.stack != [] && Took(sink.math, s0, t0, sink.stack, sink.trace, es)
    }

    method PutOne(p: Piece)
      requires sink.stack != []
      modifies sink
      ensures Fed(old(sink.stack), old(sink.trace), [One(p)])
    {
      hide Took, PieceHtml;
      ghost var s0, t0 := sink.stack, sink.trace;
      sink.PutPiece(p);
      TookOne(sink.math, s0, t0, sink.stack, sink.trace, p);
      TookKeeps(sink.math, s0, t0, sink.stack, sink.trace, [One(p)]);
    }

    method FlushBr()
      requires sink.stack != []
      modifies this`pendingBr, sink
      ensures Fed(old(sink.stack), old(sink.trace), Breaks(old(pendingBr))) && !pendingBr
    {
      hide Took;
      TookNothing(sink.math, sink.stack, sink.trace);
      if !pendingBr { return; }
      pendingBr := false;
      PutOne(Leaf(Br));
    }

    lemma FedAppend(s0: seq<Frame>, t0: seq<Event>, s1: seq<Frame>, t1: seq<Event>, a: seq<Elem>, b: seq<Elem>)
      requires Took(sink.math, s0, t0, s1, t1, a) && Fed(s1, t1, b)
      ensures Fed(s0, t0, a + b)
    {
      TookAppend(sink.math, s0, t0, s1, t1, sink.stack, sink.trace, a, b);
    }

    lemma FedNothing()
      requires sink.stack != []
      ensures Fed(sink.stack, sink.trace, [])
    {
      hide Took;
      TookNothing(sink.math, sink.stack, sink.trace);
    }

    lemma FedTook(s0: seq<Frame>, t0: seq<Event>, es: seq<Elem>)
      requires Fed(s0, t0, es)
      ensures Took(sink.math, s0, t0, sink.stack, sink.trace, es)
    {
      hide Took;
    }

    lemma FedStack(s0: seq<Frame>, t0: seq<Event>, es: seq<Elem>)
      requires Fed(s0, t0, es)
      ensures sink.stack != []
    {
      hide Took;
    }

    method EmitLine(line: string, continued: bool)
      requires sink.stack != []
      modifies this`pendingBr, sink
      ensures Fed(old(sink.stack), old(sink.trace), LineOut(line, continued, old(pendingBr)).0)
      ensures pendingBr == LineOut(line, continued, old(pendingBr)).1
    {
      hide Took, DropStart, IsBlank;
      TookNothing(sink.math, sink.stack, sink.trace);
      var shown := line;
      if continued {
        pendingBr := true;
        shown := DropStart(line, IsBlank);
      }
      if shown != "" {
        ghost var s0, t0, br := sink.stack, sink.trace, pendingBr;
        FlushBr();
        ghost var s1, t1 := sink.stack, sink.trace;
        PutOne(MdSink.Text(shown));
        FedAppend(s0, t0, s1, t1, Breaks(br), [One(MdSink.Text(shown))]);
      }
    }

    /** `emitTextLines`. */
    method EmitTextLines(s: string)
      requires sink.stack != []
      modifies this`pendingBr, sink
      ensures Fed(old(sink.stack), old(sink.trace), TextLines(s, old(pendingBr)).0)
      ensures pendingBr == TextLines(s, old(pendingBr)).1
    {
      hide Took, LineOut, BreakLines;
      var lines := BreakLines(s);
      ghost var s0, t0, whole := sink.stack, sink.trace, LinesOut(lines, 0, pendingBr);
      ghost var done: seq<Elem> := [];
      TookNothing(sink.math, s0, t0);
      assert done + whole.0 == whole.0;
      for i := 0 to |lines|
        invariant Fed(s0, t0, done)
        invariant whole.1 == LinesOut(lines, i, pendingBr).1
        invariant whole.0 == done + LinesOut(lines, i, pendingBr).0
      {
        ghost var s1, t1 := sink.stack, sink.trace;
        ghost var here := LineOut(lines[i], i > 0, pendingBr);
        EmitLine(lines[i], i > 0);
        FedAppend(s0, t0, s1, t1, done, here.0);
        assert done + (here.0 + LinesOut(lines, i + 1, here.1).0) == (done + here.0) + LinesOut(lines, i + 1, here.1).0;
        done := done + here.0;
      }
      assert done + [] == done;
    }

    method EmitPiece(piece: MathSpanLaws.Piece)
      requires sink.stack != []
      modifies this`pendingBr, sink
      ensures Fed(old(sink.stack), old(sink.trace), PieceOut(piece, old(pendingBr)).0)
      ensures pendingBr == PieceOut(piece, old(pendingBr)).1
    {
      hide Took, TextLines;
      match piece
      case Prose(t) => EmitTextLines(t);
      case Math(_, tex, display) => PutOne(Leaf(MdSink.Math(tex, display)));
    }

    /** `emitProse`. */
    method EmitProse(s: string)
      requires sink.stack != []
      modifies this`pendingBr, sink
      ensures Fed(old(sink.stack), old(sink.trace), ProseLines(s, old(pendingBr)).0)
      ensures pendingBr == ProseLines(s, old(pendingBr)).1
    {
      hide Took, ProseOut, PieceOut, MathSpanLaws.Fits, MathSpans.Spans, MathSpanLaws.PiecesFrom;
      var pieces := MathSpanLaws.EmitProse(s);
      ghost var s0, t0, whole := sink.stack, sink.trace, ProseOut(pieces, pendingBr);
      ghost var done: seq<Elem> := [];
      TookNothing(sink.math, s0, t0);
      assert pieces[0..] == pieces && done + whole.0 == whole.0;
      for i := 0 to |pieces|
        invariant Fed(s0, t0, done)
        invariant whole.1 == ProseOut(pieces[i..], pendingBr).1
        invariant whole.0 == done + ProseOut(pieces[i..], pendingBr).0
      {
        ghost var s1, t1 := sink.stack, sink.trace;
        ghost var here := PieceOut(pieces[i], pendingBr);
        ProseOutStep(pieces, i, pendingBr);
        EmitPiece(pieces[i]);
        FedAppend(s0, t0, s1, t1, done, here.0);
        assert done + (here.0 + ProseOut(pieces[i + 1..], here.1).0) == (done + here.0) + ProseOut(pieces[i + 1..], here.1).0;
        done := done + here.0;
      }
      ProseOutEnds(pieces, pendingBr);
      assert done + [] == done;
    }

    /** One run of text; says whether the next run's leading blanks are syntax. */
    method PushRun(s: string, first: bool, pos: nat) returns (nowFirst: bool)
      requires sink.stack != []
      modifies this`pendingBr, sink
      ensures var w := PushText(Cursor(pos, first, old(pendingBr)), s);
        Fed(old(sink.stack), old(sink.trace), w.0) && w.1 == Cursor(pos, nowFirst, pendingBr)
    {
      hide Took, TextLines, DropStart, EndsAtNewline;
      TookNothing(sink.math, sink.stack, sink.trace);
      var v := if first then DropStart(s, IsBlank) else s;
      if v == "" { return first; }
      EmitTextLines(v);
      nowFirst := EndsAtNewline(s);
    }

    /** Emits the source from `pos` up to `end`, formulas apart. */
    method FlushTo(spans: seq<MathSpans.Span>, from: nat, first: bool, end: nat) returns (pos: nat, nowFirst: bool)
      requires sink.stack != []
      modifies this`pendingBr, sink
      ensures var w := Flush(env.src, spans, Cursor(from, first, old(pendingBr)), end);
        Fed(old(sink.stack), old(sink.trace), w.0) && w.1 == Cursor(pos, nowFirst, pendingBr)
    {
      hide Took, Flush, FlushStep, PushText;
      pos, nowFirst := from, first;
      ghost var s0, t0, whole := sink.stack, sink.trace, Flush(env.src, spans, Cursor(from, first, pendingBr), end);
      ghost var done: seq<Elem> := [];
      TookNothing(sink.math, s0, t0);
      assert done + whole.0 == whole.0;
      while pos < end
        invariant Fed(s0, t0, done)
        invariant whole.1 == Flush(env.src, spans, Cursor(pos, nowFirst, pendingBr), end).1
        invariant whole.0 == done + Flush(env.src, spans, Cursor(pos, nowFirst, pendingBr), end).0
        decreases end - pos
      {
        ghost var s1, t1, cur := sink.stack, sink.trace, Cursor(pos, nowFirst, pendingBr);
        ghost var step := FlushStep(env.src, spans, cur, end);
        FlushUnfolds(env.src, spans, cur, end);
        pos, nowFirst := FlushOne(spans, pos, nowFirst, end);
        FedAppend(s0, t0, s1, t1, done, step.0);
        assert done + (step.0 + Flush(env.src, spans, step.1, end).0) == (done + step.0) + Flush(env.src, spans, step.1, end).0;
        done := done + step.0;
      }
      FlushEnds(env.src, spans, Cursor(pos, nowFirst, pendingBr), end);
      assert done + [] == done;
    }

    /** One round of the loop: the formula here, or the text up to the next one. */
    method FlushOne(spans: seq<MathSpans.Span>, from: nat, first: bool, end: nat) returns (pos: nat, nowFirst: bool)
      requires sink.stack != [] && from < end
      modifies this`pendingBr, sink
      ensures var w := FlushStep(env.src, spans, Cursor(from, first, old(pendingBr)), end);
        Fed(old(sink.stack), old(sink.trace), w.0) && w.1 == Cursor(pos, nowFirst, pendingBr)
    {
      hide Took, PushText, SpanAt, NextSpan, Slice;
      TookNothing(sink.math, sink.stack, sink.trace);
      match SpanAt(spans, from)
      case Some(here) =>
        nowFirst := first;
        if from == here.from {
          PutOne(Leaf(MdSink.Math(here.tex, here.display)));
          nowFirst := false;
        }
        pos := if here.to < end then here.to else end;
      case None =>
        var next := NextSpan(spans, from, end);
        pos := if next.Some? then next.value.from else end;
        PushKeepsPos(Cursor(from, first, pendingBr), Slice(env.src, from, pos));
        nowFirst := PushRun(Slice(env.src, from, pos), first, from);
    }

    /** `walkInlineChildren`. */
    method WalkInlineChildren(n: Tree)
      requires n.Node? && sink.stack != []
      modifies this`pendingBr, sink
      ensures Fed(old(sink.stack), old(sink.trace), InlineChildren(env, n).0)
      ensures pendingBr == InlineChildren(env, n).1
      decreases n.child, 4
    {
      hide Took, InlineFrom, InlineStep, Flush, SpansOf;
      pendingBr := false;
      var pos: nat, first := n.from, true;
      var spans := SpansOf(env.src, n);
      ghost var s0, t0, whole := sink.stack, sink.trace, InlineFrom(env, spans, n.child, Cursor(pos, true, false));
      ghost var done: seq<Elem> := [];
      TookNothing(sink.math, s0, t0);
      assert done + whole.0 == whole.0;
      var c := n.child;
      while c.Node?
        invariant Fed(s0, t0, done)
        invariant c == n.child || c < n.child
        invariant whole.1 == InlineFrom(env, spans, c, Cursor(pos, first, pendingBr)).1
        invariant whole.0 == done + InlineFrom(env, spans, c, Cursor(pos, first, pendingBr)).0
        decreases c
      {
        ghost var s1, t1, cur := sink.stack, sink.trace, Cursor(pos, first, pendingBr);
        ghost var step := InlineStep(env, spans, c, cur);
        InlineUnfolds(env, spans, c, cur);
        pos, first := WalkInlineStep(spans, c, pos, first);
        FedAppend(s0, t0, s1, t1, done, step.0);
        assert done + (step.0 + InlineFrom(env, spans, c.next, step.1).0) == (done + step.0) + InlineFrom(env, spans, c.next, step.1).0;
        done := done + step.0;
        c := c.next;
      }
      InlineEnds(env, spans, Cursor(pos, first, pendingBr));
      assert done + [] == done;
      ghost var s2, t2, cur := sink.stack, sink.trace, Cursor(pos, first, pendingBr);
      if pos < n.to {
        pos, first := FlushTo(spans, pos, first, n.to);
        FedAppend(s0, t0, s2, t2, done, Flush(env.src, spans, cur, n.to).0);
      }
    }

    /** One child of an inline walk. */
    method WalkInlineStep(spans: seq<MathSpans.Span>, c: Tree, from: nat, wasFirst: bool) returns (pos: nat, first: bool)
      requires c.Node? && sink.stack != []
      modifies this`pendingBr, sink
      ensures var w := InlineStep(env, spans, c, Cursor(from, wasFirst, old(pendingBr)));
        Fed(old(sink.stack), old(sink.trace), w.0) && w.1 == Cursor(pos, first, pendingBr)
      decreases c, 2
    {
      hide Took, Flush, SpanAt, InlineNode, IsMark;
      ghost var s0, t0, cur := sink.stack, sink.trace, Cursor(from, wasFirst, pendingBr);
      pos, first := from, wasFirst;
      ghost var before: seq<Elem> := [];
      TookNothing(sink.math, s0, t0);
      if c.from > pos {
        before := Flush(env.src, spans, cur, c.from).0;
        pos, first := FlushTo(spans, pos, first, c.from);
      }
      if SpanAt(spans, c.from).Some? {
        pos := if c.to > pos then c.to else pos;
        return;
      }
      if !IsMark(c.name) {
        ghost var s1, t1, br1 := sink.stack, sink.trace, pendingBr;
        WalkInlineNode(c);
        FedAppend(s0, t0, s1, t1, before, InlineNode(env, c, br1).0);
        first := false;
      }
      pos := c.to;
    }

    /** `walkInlineNode`. */
    method WalkInlineNode(n: Tree)
      requires n.Node? && sink.stack != []
      modifies this`pendingBr, sink
      ensures Fed(old(sink.stack), old(sink.trace), InlineNode(env, n, old(pendingBr)).0)
      ensures pendingBr == InlineNode(env, n, old(pendingBr)).1
      decreases n, 1
    {
      hide Took, InlineNodeBody;
      ghost var s0, t0, br0 := sink.stack, sink.trace, pendingBr;
      FlushBr();
      ghost var s1, t1 := sink.stack, sink.trace;
      WalkInlineNodeBody(n);
      FedAppend(s0, t0, s1, t1, Breaks(br0), InlineNodeBody(env, n).0);
    }

    method WalkInlineNodeBody(n: Tree)
      requires n.Node? && sink.stack != [] && !pendingBr
      modifies this`pendingBr, sink
      ensures Fed(old(sink.stack), old(sink.trace), InlineNodeBody(env, n).0)
      ensures pendingBr == InlineNodeBody(env, n).1
      decreases n, 0
    {
      hide Took, InlineChildren, ProseLines, LinkRole, StripMarks, RefNumber, TextOf, InlineWrap;
      if InlineWrap(n.name).Some? {
        WalkInlineBox(n, Tag(InlineWrap(n.name).value));
        assert [] + InlineChildren(env, n).0 == InlineChildren(env, n).0;
      } else if n.name == "FootnoteRef" {
        PutOne(Leaf(FootnoteRef(RefNumber(env, n))));
      } else if n.name == "InlineCode" {
        PutOne(Leaf(InlineCode(StripMarks(env.src, n.child, n.from, n.to, "CodeMark"))));
      } else if n.name == "Link" {
        WalkInlineBox(n, LinkRole(env, n));
      } else if n.name == "TaskMarker" {
        var t := TextOf(env.src, n);
        PutOne(Leaf(TaskMarker('x' in t || 'X' in t)));
      } else if n.name == "HardBreak" {
        PutOne(Leaf(Br));
      } else {
        EmitProse(TextOf(env.src, n));
      }
    }

    /** A box around the node's inline content; an attachment reference starts with its sign. */
    method WalkInlineBox(n: Tree, role: Role)
      requires n.Node? && sink.stack != []
      modifies this`pendingBr, sink
      ensures Fed(old(sink.stack), old(sink.trace),
                  [Box(role, (if role.AttachmentRef? then [One(MdSink.Text(PAPERCLIP))] else []) + InlineChildren(env, n).0)])
      ensures pendingBr == InlineChildren(env, n).1
      decreases n.child, 5
    {
      hide Took, InlineChildren, Prefix, Suffix, IsBlockContainer, RoleName;
      ghost var s0, t0 := sink.stack, sink.trace;
      sink.OpenRole(role);
      ghost var s1, t1, kids := sink.stack, sink.trace, [];
      TookNothing(sink.math, s1, t1);
      if role.AttachmentRef? {
        PutOne(MdSink.Text(PAPERCLIP));
        kids := [One(MdSink.Text(PAPERCLIP))];
      }
      ghost var s2, t2 := sink.stack, sink.trace;
      WalkInlineChildren(n);
      FedAppend(s1, t1, s2, t2, kids, InlineChildren(env, n).0);
      CloseBox(s0, t0, role, kids + InlineChildren(env, n).0);
    }

    // -------------------------------------------------------------- tables

    /** The cells of one row. */
    method WalkRow(row: Tree, tag: string)
      requires row.Node? && sink.stack != []
      modifies this`pendingBr, sink
      ensures Fed(old(sink.stack), old(sink.trace), [Row(env, row, tag)])
    {
      hide Took, InlineChildren, Cells, Prefix, Suffix, IsBlockContainer, RoleName;
      ghost var s0, t0, kids := sink.stack, sink.trace, Cells(env, row.child, tag);
      sink.OpenRole(Tag("tr"));
      ghost var s1, t1, done: seq<Elem> := sink.stack, sink.trace, [];
      TookNothing(sink.math, s1, t1);
      assert done + kids == kids;
      var cell := row.child;
      while cell.Node?
        invariant Fed(s1, t1, done) && kids == done + Cells(env, cell, tag)
        decreases cell
      {
        CellsUnfold(env, cell, tag);
        if cell.name == "TableCell" {
          ghost var s2, t2, box := sink.stack, sink.trace, Box(Tag(tag), InlineChildren(env, cell).0);
          sink.OpenRole(Tag(tag));
          WalkInlineChildren(cell);
          CloseBox(s2, t2, Tag(tag), InlineChildren(env, cell).0);
          FedAppend(s1, t1, s2, t2, done, [box]);
          assert done + ([box] + Cells(env, cell.next, tag)) == (done + [box]) + Cells(env, cell.next, tag);
          done := done + [box];
        } else {
          assert [] + Cells(env, cell.next, tag) == Cells(env, cell.next, tag);
        }
        cell := cell.next;
      }
      CellsEnd(env, tag);
      assert done + [] == done;
      CloseBox(s0, t0, Tag("tr"), kids);
    }

    /** A header row in a head of its own. */
    method WalkHeader(row: Tree)
      requires row.Node? && sink.stack != []
      modifies this`pendingBr, sink
      ensures Fed(old(sink.stack), old(sink.trace), [Box(Tag("thead"), [Row(env, row, "th")])])
    {
      hide Took, Row, Prefix, Suffix, IsBlockContainer, RoleName;
      ghost var s0, t0 := sink.stack, sink.trace;
      sink.OpenRole(Tag("thead"));
      WalkRow(row, "th");
      CloseBox(s0, t0, Tag("thead"), [Row(env, row, "th")]);
    }

    /** What the loop over a table's rows has made of it so far: the finished sections, and the rows of the body
        that is still open, on top of `sB`. */
    ghost predicate InTable(s1: seq<Frame>, t1: seq<Event>, outer: seq<Elem>, bodyOpen: bool,
                            sB: seq<Frame>, tB: seq<Event>, rows: seq<Elem>)
      reads sink
    {
      if bodyOpen
      then sB != [] && Took(sink.math, s1, t1, sB, tB, outer)
           && Fed(sB + [Frame(Prefix(Tag("tbody")), Suffix(Tag("tbody")), "", false)], tB + [Open(Tag("tbody"))], rows)
      else Fed(s1, t1, outer)
    }

    lemma InTableStart(s1: seq<Frame>, t1: seq<Event>, sB: seq<Frame>, tB: seq<Event>)
      requires sink.stack == s1 != [] && sink.trace == t1
      ensures InTable(s1, t1, [], false, sB, tB, [])
    {
      FedNothing();
    }

    lemma InTableClosed(s1: seq<Frame>, t1: seq<Event>, outer: seq<Elem>, sB: seq<Frame>, tB: seq<Event>)
      requires Fed(s1, t1, outer)
      ensures InTable(s1, t1, outer, false, sB, tB, [])
    {
      hide Fed;
    }

    method CloseBody(ghost s1: seq<Frame>, ghost t1: seq<Event>, ghost outer: seq<Elem>, bodyOpen: bool,
                     ghost sB: seq<Frame>, ghost tB: seq<Event>, ghost rows: seq<Elem>)
      requires InTable(s1, t1, outer, bodyOpen, sB, tB, rows)
      modifies sink
      ensures Fed(s1, t1, outer + OpenBody(bodyOpen, rows))
    {
      hide Took, Prefix, Suffix, RoleName;
      assert outer + [] == outer;
      if bodyOpen {
        CloseBox(sB, tB, Tag("tbody"), rows);
        FedAppend(s1, t1, sB, tB, outer, [Box(Tag("tbody"), rows)]);
      }
    }

    /** A body row, in the open body or in one it opens. */
    method WalkBodyRow(row: Tree, bodyOpen: bool, ghost s1: seq<Frame>, ghost t1: seq<Event>, ghost outer: seq<Elem>,
                       ghost sB: seq<Frame>, ghost tB: seq<Event>, ghost rows: seq<Elem>)
      returns (ghost nowB: seq<Frame>, ghost nowT: seq<Event>)
      requires row.Node? && InTable(s1, t1, outer, bodyOpen, sB, tB, rows) && (!bodyOpen ==> rows == [])
      modifies this`pendingBr, sink
      ensures InTable(s1, t1, outer, true, nowB, nowT, rows + [Row(env, row, "td")])
    {
      hide Took, Row, Prefix, Suffix, RoleName;
      nowB, nowT := sB, tB;
      if !bodyOpen {
        nowB, nowT := sink.stack, sink.trace;
        sink.OpenRole(Tag("tbody"));
        TookNothing(sink.math, sink.stack, sink.trace);
      }
      ghost var s2, t2 := sink.stack, sink.trace;
      ghost var base := nowB + [Frame(Prefix(Tag("tbody")), Suffix(Tag("tbody")), "", false)];
      WalkRow(row, "td");
      FedAppend(base, nowT + [Open(Tag("tbody"))], s2, t2, rows, [Row(env, row, "td")]);
    }

    /** A header row, after the body that was open. */
    method WalkHeaderRow(row: Tree, bodyOpen: bool, ghost s1: seq<Frame>, ghost t1: seq<Event>, ghost outer: seq<Elem>,
                         ghost sB: seq<Frame>, ghost tB: seq<Event>, ghost rows: seq<Elem>)
      requires row.Node? && InTable(s1, t1, outer, bodyOpen, sB, tB, rows)
      modifies this`pendingBr, sink
      ensures Fed(s1, t1, outer + (OpenBody(bodyOpen, rows) + [Box(Tag("thead"), [Row(env, row, "th")])]))
    {
      hide Took, Row, Prefix, Suffix, RoleName, InTable;
      CloseBody(s1, t1, outer, bodyOpen, sB, tB, rows);
      ghost var body, head := OpenBody(bodyOpen, rows), [Box(Tag("thead"), [Row(env, row, "th")])];
      ghost var s2, t2 := sink.stack, sink.trace;
      WalkHeader(row);
      FedAppend(s1, t1, s2, t2, outer + body, head);
      assert (outer + body) + head == outer + (body + head);
    }

    /** The loop over a table's children, with its head and body state. */
    method WalkTable(n: Tree)
      requires n.Node? && sink.stack != []
      modifies this`pendingBr, sink
      ensures Fed(old(sink.stack), old(sink.trace), [Box(Tag("table"), Sections(env, n.child))])
    {
      hide Took, Row, Sections, SectionsFrom, OpenBody, Prefix, Suffix, RoleName, InTable, Fed;
      ghost var s0, t0 := sink.stack, sink.trace;
      sink.OpenRole(Tag("table"));
      ghost var s1, t1 := sink.stack, sink.trace;
      ghost var outer: seq<Elem>, rows: seq<Elem>, sB, tB := [], [], s1, t1;
      var tbodyOpen := false;
      InTableStart(s1, t1, sB, tB);
      SectionsStart(env, n.child);
      var row := n.child;
      while row.Node?
        invariant InTable(s1, t1, outer, tbodyOpen, sB, tB, rows)
        invariant !tbodyOpen ==> rows == []
        invariant Sections(env, n.child) == outer + SectionsFrom(env, row, tbodyOpen, rows)
        decreases row
      {
        SectionsUnfold(env, row, tbodyOpen, rows);
        if IsHeader(row) {
          ghost var more := OpenBody(tbodyOpen, rows) + [Box(Tag("thead"), [Row(env, row, "th")])];
          WalkHeaderRow(row, tbodyOpen, s1, t1, outer, sB, tB, rows);
          assert outer + (more + SectionsFrom(env, row.next, false, [])) == (outer + more) + SectionsFrom(env, row.next, false, []);
          outer, rows, tbodyOpen := outer + more, [], false;
          InTableClosed(s1, t1, outer, sB, tB);
        } else if IsBodyRow(row) {
          sB, tB := WalkBodyRow(row, tbodyOpen, s1, t1, outer, sB, tB, rows);
          rows, tbodyOpen := rows + [Row(env, row, "td")], true;
        }
        row := row.next;
      }
      SectionsEnd(env, tbodyOpen, rows);
      CloseBody(s1, t1, outer, tbodyOpen, sB, tB, rows);
      CloseBox(s0, t0, Tag("table"), Sections(env, n.child));
    }

    // -------------------------------------------------------------- blocks

    /** A box around the node's children as blocks. */
    method WalkBlockBox(n: Tree, role: Role)
      requires n.Node? && sink.stack != []
      modifies this`pendingBr, sink
      ensures Fed(old(sink.stack), old(sink.trace), [Box(role, Blocks(env, n.child, 0, false))])
      decreases n.child, 5
    {
      hide Took, Blocks, Prefix, Suffix, IsBlockContainer, RoleName;
      ghost var s0, t0 := sink.stack, sink.trace;
      sink.OpenRole(role);
      WalkBlockChildren(n.child);
      CloseBox(s0, t0, role, Blocks(env, n.child, 0, false));
    }

    /** `walkBlock`; how far the siblings after it are consumed. */
    method WalkBlock(n: Tree, skipUntil: nat) returns (nowSkip: nat)
      requires n.Node? && sink.stack != []
      modifies this`pendingBr, sink
      ensures Fed(old(sink.stack), old(sink.trace), Block(env, n)) && nowSkip == Consumed(env, n, skipUntil)
      decreases n, 0
    {
      hide Took, Blocks, InlineChildren, Sections, DirectiveMarkup, DirectiveEnd, FencePiece, TextOf, InlineTag, BlockTag;
      TookNothing(sink.math, sink.stack, sink.trace);
      nowSkip := Consumed(env, n, skipUntil);
      if InlineTag(n.name).Some? {
        WalkInlineBox(n, Tag(InlineTag(n.name).value));
        assert [] + InlineChildren(env, n).0 == InlineChildren(env, n).0;
      } else if BlockTag(n.name).Some? {
        WalkBlockBox(n, Tag(BlockTag(n.name).value));
      } else if n.name == "FootnoteDef" {
        if env.numbers.None? { PutOne(Leaf(LiteralBlock(TextOf(env.src, n)))); }
      } else if n.name == "Task" {
        WalkInlineChildren(n);
      } else if n.name == "FencedCode" || n.name == "CodeBlock" {
        PutOne(FencePiece(env, n));
      } else if n.name == "HorizontalRule" {
        PutOne(Leaf(Hr));
      } else if n.name == "Table" {
        WalkTable(n);
      } else if n.name == "Directive" {
        var markup := DirectiveMarkup(env, n);
        if markup.Some? { PutOne(Raw(markup.value)); } else { WalkBlockBox(n, DirectiveBox); }
      } else {
        PutOne(Leaf(LiteralBlock(TextOf(env.src, n))));
      }
    }

    /** One sibling that is not dropped, set apart from the one before. */
    method WalkBlockStep(c: Tree, skipUntil: nat, emitted: bool) returns (nowSkip: nat)
      requires c.Node? && sink.stack != []
      modifies this`pendingBr, sink
      ensures Fed(old(sink.stack), old(sink.trace), (if emitted then [One(Gap)] else []) + Block(env, c))
      ensures nowSkip == Consumed(env, c, skipUntil)
      decreases c, 1
    {
      hide Took, Block, Consumed;
      ghost var s0, t0 := sink.stack, sink.trace;
      TookNothing(sink.math, s0, t0);
      if emitted { PutOne(Gap); }
      ghost var s1, t1 := sink.stack, sink.trace;
      nowSkip := WalkBlock(c, skipUntil);
      FedAppend(s0, t0, s1, t1, if emitted then [One(Gap)] else [], Block(env, c));
    }

    /** `walkBlockChildren`. */
    method WalkBlockChildren(first: Tree)
      requires sink.stack != []
      modifies this`pendingBr, sink
      ensures Fed(old(sink.stack), old(sink.trace), Blocks(env, first, 0, false))
      decreases first, 4
    {
      hide Took, Blocks, Block, Consumed, IsMark, Fed;
      ghost var s0, t0, whole := sink.stack, sink.trace, Blocks(env, first, 0, false);
      ghost var done: seq<Elem> := [];
      FedNothing();
      assert done + whole == whole;
      var skipUntil: nat, emitted := 0, false;
      var c := first;
      while c.Node?
        invariant sink.stack != [] && Fed(s0, t0, done) && (c == first || c < first)
        invariant whole == done + Blocks(env, c, skipUntil, emitted)
        decreases c
      {
        BlocksUnfold(env, c, skipUntil, emitted);
        if !IsMark(c.name) && c.from >= skipUntil {
          ghost var s1, t1, here := sink.stack, sink.trace, (if emitted then [One(Gap)] else []) + Block(env, c);
          ghost var rest := Blocks(env, c.next, Consumed(env, c, skipUntil), true);
          FedTook(s0, t0, done);
          skipUntil := WalkBlockStep(c, skipUntil, emitted);
          emitted := true;
          FedStack(s1, t1, here);
          FedAppend(s0, t0, s1, t1, done, here);
          assert done + (here + rest) == (done + here) + rest;
          done := done + here;
        }
        c := c.next;
      }
      NoBlocks(env, skipUntil, emitted);
      assert done + [] == done;
    }

    /** Closes the role opened on top of `s0`, whose kids have been taken in. */
    method CloseBox(ghost s0: seq<Frame>, ghost t0: seq<Event>, role: Role, ghost kids: seq<Elem>)
      requires s0 != []
      requires Fed(s0 + [Frame(Prefix(role), Suffix(role), "", IsBlockContainer(role))], t0 + [Open(role)], kids)
      modifies sink
      ensures Fed(s0, t0, [Box(role, kids)])
    {
      hide Took, Prefix, Suffix, IsBlockContainer, RoleName;
      ghost var s2, t2 := sink.stack, sink.trace;
      ghost var s1 := s0 + [Frame(Prefix(role), Suffix(role), "", IsBlockContainer(role))];
      TookKeeps(sink.math, s1, t0 + [Open(role)], s2, t2, kids);
      sink.CloseRole(RoleName(role));
      TookBox(sink.math, s0, t0, s2, t2, sink.stack, sink.trace, role, kids);
      TookKeeps(sink.math, s0, t0, sink.stack, sink.trace, [Box(role, kids)]);
    }
  }

  lemma ProseOutStep(pieces: seq<MathSpanLaws.Piece>, i: nat, br: bool)
    requires i < |pieces|
    ensures var here := PieceOut(pieces[i], br);
      ProseOut(pieces[i..], br) == (here.0 + ProseOut(pieces[i + 1..], here.1).0, ProseOut(pieces[i + 1..], here.1).1)
  {
    hide PieceOut;
    assert pieces[i..][0] == pieces[i] && pieces[i..][1..] == pieces[i + 1..];
  }

  lemma ProseOutEnds(pieces: seq<MathSpanLaws.Piece>, br: bool)
    ensures ProseOut(pieces[|pieces|..], br) == ([], br)
  {
    assert pieces[|pieces|..] == [];
  }

  lemma PushKeepsPos(cur: Cursor, s: string)
    ensures PushText(cur, s).1.pos == cur.pos
  {
    hide TextLines, EndsAtNewline, DropStart;
  }

  lemma FlushUnfolds(src: string, spans: seq<MathSpans.Span>, cur: Cursor, end: nat)
    requires cur.pos < end
    ensures var step := FlushStep(src, spans, cur, end);
      Flush(src, spans, cur, end) == (step.0 + Flush(src, spans, step.1, end).0, Flush(src, spans, step.1, end).1)
  {
    hide FlushStep;
  }

  lemma FlushEnds(src: string, spans: seq<MathSpans.Span>, cur: Cursor, end: nat)
    requires cur.pos >= end
    ensures Flush(src, spans, cur, end) == ([], cur)
  {}

  lemma InlineUnfolds(env: Env, spans: seq<MathSpans.Span>, c: Tree, cur: Cursor)
    requires c.Node?
    ensures var step := InlineStep(env, spans, c, cur);
      InlineFrom(env, spans, c, cur)
      == (step.0 + InlineFrom(env, spans, c.next, step.1).0, InlineFrom(env, spans, c.next, step.1).1)
  {
    hide InlineStep;
  }

  lemma InlineEnds(env: Env, spans: seq<MathSpans.Span>, cur: Cursor)
    ensures InlineFrom(env, spans, Nil, cur) == ([], cur)
  {}

  lemma CellsUnfold(env: Env, c: Tree, tag: string)
    requires c.Node?
    ensures Cells(env, c, tag) ==
            (if c.name == "TableCell" then [Box(Tag(tag), InlineChildren(env, c).0)] else []) + Cells(env, c.next, tag)
  {
    hide InlineChildren;
  }

  lemma CellsEnd(env: Env, tag: string)
    ensures Cells(env, Nil, tag) == []
  {}

  /** The body that is open with those rows, as a finished section. */
  function OpenBody(bodyOpen: bool, rows: seq<Elem>): seq<Elem> { if bodyOpen then [Box(Tag("tbody"), rows)] else [] }

  /** What is still to come of a table: the rest of the open body, if one is, and the sections after. */
  function SectionsFrom(env: Env, row: Tree, bodyOpen: bool, rows: seq<Elem>): seq<Elem> {
    if bodyOpen then [Box(Tag("tbody"), rows + BodyRows(env, row))] + Sections(env, AfterBody(row)) else Sections(env, row)
  }

  lemma SectionsUnfold(env: Env, row: Tree, bodyOpen: bool, rows: seq<Elem>)
    requires row.Node? && (!bodyOpen ==> rows == [])
    ensures SectionsFrom(env, row, bodyOpen, rows) ==
            if IsHeader(row) then
              OpenBody(bodyOpen, rows) + [Box(Tag("thead"), [Row(env, row, "th")])] + SectionsFrom(env, row.next, false, [])
            else if IsBodyRow(row) then SectionsFrom(env, row.next, true, rows + [Row(env, row, "td")])
            else SectionsFrom(env, row.next, bodyOpen, rows)
  {
    hide Row;
    if IsHeader(row) {
      var body, head, rest := [Box(Tag("tbody"), rows)], [Box(Tag("thead"), [Row(env, row, "th")])], Sections(env, row.next);
      assert rows + [] == rows;
      assert [] + head == head;
      assert body + (head + rest) == (body + head) + rest;
    } else if IsBodyRow(row) {
      var r := Row(env, row, "td");
      assert rows + ([r] + BodyRows(env, row.next)) == (rows + [r]) + BodyRows(env, row.next);
      assert [] + [r] == [r];
    } else {
      assert [] + BodyRows(env, row.next) == BodyRows(env, row.next);
    }
  }

  lemma SectionsEnd(env: Env, bodyOpen: bool, rows: seq<Elem>)
    ensures SectionsFrom(env, Nil, bodyOpen, rows) == OpenBody(bodyOpen, rows)
  {
    assert rows + [] == rows;
  }

  lemma BlocksUnfold(env: Env, c: Tree, skipUntil: nat, emitted: bool)
    requires c.Node?
    ensures Blocks(env, c, skipUntil, emitted) ==
            if IsMark(c.name) || c.from < skipUntil then Blocks(env, c.next, skipUntil, emitted)
            else ((if emitted then [One(Gap)] else []) + Block(env, c)) + Blocks(env, c.next, Consumed(env, c, skipUntil), true)
  {
    hide Block, Consumed, IsMark;
  }

  lemma SectionsStart(env: Env, row: Tree)
    ensures [] + SectionsFrom(env, row, false, []) == Sections(env, row)
  {
    hide Sections;
  }

  lemma NoBlocks(env: Env, skipUntil: nat, emitted: bool)
    ensures Blocks(env, Nil, skipUntil, emitted) == []
  {}
}
