/** The layout directives' own parser: the `:::name` items of a body, found by counting depth. */
module LayoutItems {
  import opened Text
  import opened DirectiveSyntax
  import opened DirectiveNesting
  import opened DirectiveResolver

  datatype Item = Item(caption: Option<string>, content: string, contentOffset: nat)

  /** An item while its lines are being collected. */
  datatype Draft = Draft(caption: Option<string>, lines: seq<string>, firstLineStart: nat)

  predicate IsNewline(c: char) { c == '\n' }

  function TrimNewlines(s: string): string { DropEnd(DropStart(s, IsNewline), IsNewline) }

  function Finish(x: Draft): Item {
    var joined := Join(x.lines, '\n');
    Item(x.caption, TrimNewlines(joined), x.firstLineStart + Run(joined, IsNewline))
  }

  function FinishAll(xs: seq<Draft>): (items: seq<Item>)
    ensures |items| == |xs|
    ensures forall m :: 0 <= m < |xs| ==> items[m] == Finish(xs[m])
  { if xs == [] then [] else [Finish(xs[0])] + FinishAll(xs[1..]) }

  // ---------------------------------------------------------------- the specification

  /** A top-level opening of an item: the depth rule with the name filter on. */
  predicate TopOpener(d: Doc, only: Option<string>, i: nat)
    requires d.Valid()
  { i < |d.marks| && OpensAt(d.marks, only, i) && Depth(d.marks, only, i) == 0 }

  /** The top-level openings before line `k`, in order. */
  function TopLines(d: Doc, only: Option<string>, k: nat): (top: seq<nat>)
    requires d.Valid() && k <= |d.lines|
    ensures forall m :: 0 <= m < |top| ==> top[m] < k && TopOpener(d, only, top[m])
    ensures forall i: nat :: i < k && TopOpener(d, only, i) ==> i in top
  {
    if k == 0 then []
    else TopLines(d, only, k - 1) + if TopOpener(d, only, k - 1) then [k - 1] else []
  }

  /** What has been collected by line `k` of the item opened at line `i`: the lines up to its close. */
  function DraftAt(d: Doc, name: string, i: nat, k: nat): Draft
    requires d.Valid() && i < k <= |d.lines| && TopOpener(d, Some(name), i)
  {
    var c := CloseLine(d.marks, Some(name), i);
    Draft(d.marks[i].open.caption, d.lines[i + 1..Min(c, k)], d.Start(i + 1))
  }

  ghost predicate Collected(d: Doc, name: string, k: nat, drafts: seq<Draft>)
    requires d.Valid() && k <= |d.lines|
  {
    var top := TopLines(d, Some(name), k);
    |drafts| == |top|
    && forall m :: 0 <= m < |top| ==> drafts[m] == DraftAt(d, name, top[m], k)
  }

  function ItemsFrom(d: Doc, name: string, top: seq<nat>): (items: seq<Item>)
    requires d.Valid() && forall m :: 0 <= m < |top| ==> top[m] < |d.lines| && TopOpener(d, Some(name), top[m])
    ensures |items| == |top|
    ensures forall m :: 0 <= m < |top| ==> items[m] == Finish(DraftAt(d, name, top[m], |d.lines|))
  {
    if top == [] then []
    else [Finish(DraftAt(d, name, top[0], |d.lines|))] + ItemsFrom(d, name, top[1..])
  }

  /** The items of a body: one for each top-level directive that carries `name`. */
  function Items(body: string, name: string): seq<Item> {
    var d := DocOf(body);
    ItemsFrom(d, name, TopLines(d, Some(name), |d.lines|))
  }

  /** Before any line, only the last top-level item can still be open, and it is when the depth is not 0. */
  lemma {:induction false} OnlyLastIsOpen(d: Doc, only: Option<string>, k: nat)
    requires d.Valid() && k <= |d.lines|
    ensures var top := TopLines(d, only, k);
      (Depth(d.marks, only, k) > 0 ==> top != [])
      && forall m :: 0 <= m < |top| ==>
           (CloseLine(d.marks, only, top[m]) >= k <==> m == |top| - 1 && Depth(d.marks, only, k) > 0)
  {
    hide CloseLine;
    if k > 0 {
      OnlyLastIsOpen(d, only, k - 1);
      DepthStep(d.marks, only, k - 1);
      hide Depth;
      var before, top := TopLines(d, only, k - 1), TopLines(d, only, k);
      forall m | 0 <= m < |top|
        ensures CloseLine(d.marks, only, top[m]) >= k <==> m == |top| - 1 && Depth(d.marks, only, k) > 0
      {
        if m < |before| {
          assert top[m] == before[m];
          StillOpenStep(d.marks, only, k - 1, top[m]);
        }
      }
    }
  }

  // ---------------------------------------------------------------- the parser

  function Extend(drafts: seq<Draft>, line: string): seq<Draft>
    requires drafts != []
  {
    var last := drafts[|drafts| - 1];
    drafts[..|drafts| - 1] + [last.(lines := last.lines + [line])]
  }

  method ParseLayoutItems(body: string, name: string) returns (items: seq<Item>)
    ensures items == Items(body, name)
  {
    var lines := Lines(body);
    ghost var d := DocOf(body);
    var drafts: seq<Draft> := [];
    var depth, pos := 0, 0;
    NoneCollected(d, name);
    hide Depth, CloseLine, LineStart, Collected, TopLines, ParseDirectiveOpen, IsDirectiveClose, IsBareColonLine, Classify, Split;
    for k := 0 to |lines|
      invariant pos == d.Start(k) && depth == Depth(d.marks, Some(name), k)
      invariant Collected(d, name, k, drafts)
    {
      Classified(lines[k]);
      CloseIsBare(lines[k]);
      NextLineStart(lines, k);
      pos := pos + |lines[k]| + 1;
      drafts, depth := ParseLine(d, name, k, lines[k], pos, ParseDirectiveOpen(lines[k]),
                                 IsDirectiveClose(lines[k], 3), drafts, depth);
    }
    items := FinishAll(drafts);
    AllCollected(d, name, drafts);
  }

  lemma NoneCollected(d: Doc, name: string)
    requires d.Valid()
    ensures Collected(d, name, 0, []) && d.Start(0) == 0 == Depth(d.marks, Some(name), 0)
  {
  }

  lemma AllCollected(d: Doc, name: string, drafts: seq<Draft>)
    requires d.Valid() && Collected(d, name, |d.lines|, drafts)
    ensures FinishAll(drafts) == ItemsFrom(d, name, TopLines(d, Some(name), |d.lines|))
  {
    hide TopLines, CloseLine, LineStart, Depth, Finish;
  }

  /** One turn of the parser's loop; `pos` is already the start of the next line. */
  method ParseLine(ghost d: Doc, name: string, ghost k: nat, line: string, pos: nat,
                   open: Option<Opening>, close: bool, drafts: seq<Draft>, depth: nat)
    returns (drafts': seq<Draft>, depth': nat)
    requires d.Valid() && k < |d.lines| && line == d.lines[k] && pos == d.Start(k + 1)
    requires d.marks[k] == if close then Close else if open.Some? then Open(open.value) else Content
    requires close ==> open.None?
    requires depth == Depth(d.marks, Some(name), k) && Collected(d, name, k, drafts)
    ensures depth' == Depth(d.marks, Some(name), k + 1) && Collected(d, name, k + 1, drafts')
  {
    hide Depth, CloseLine, Collected, LineStart;
    DepthStep(d.marks, Some(name), k);
    drafts', depth' := drafts, depth;
    if open.Some? {
      if depth == 0 {
        if open.value.name == name {
          drafts', depth' := drafts + [Draft(open.value.caption, [], pos)], 1;
          StartsItem(d, name, k, drafts);
        } else {
          StaysOutside(d, name, k, drafts);
        }
      } else {
        GrowsItem(d, name, k, drafts);
        drafts', depth' := Extend(drafts, line), depth + 1;
      }
    } else if close {
      if depth > 0 {
        depth' := depth - 1;
        if depth' == 0 {
          EndsItem(d, name, k, drafts);
        } else {
          GrowsItem(d, name, k, drafts);
          drafts' := Extend(drafts, line);
        }
      } else {
        StaysOutside(d, name, k, drafts);
      }
    } else if depth > 0 {
      GrowsItem(d, name, k, drafts);
      drafts' := Extend(drafts, line);
    } else {
      StaysOutside(d, name, k, drafts);
    }
  }

  lemma StartsItem(d: Doc, name: string, k: nat, drafts: seq<Draft>)
    requires d.Valid() && k < |d.lines| && Collected(d, name, k, drafts) && TopOpener(d, Some(name), k)
    ensures Collected(d, name, k + 1, drafts + [Draft(d.marks[k].open.caption, [], d.Start(k + 1))])
  {
    hide CloseLine, LineStart;
    OnlyLastIsOpen(d, Some(name), k);
    hide Depth;
    assert TopLines(d, Some(name), k + 1) == TopLines(d, Some(name), k) + [k];
    assert d.lines[k + 1..k + 1] == [];
  }

  lemma StaysOutside(d: Doc, name: string, k: nat, drafts: seq<Draft>)
    requires d.Valid() && k < |d.lines| && Collected(d, name, k, drafts)
    requires Depth(d.marks, Some(name), k) == 0 && !OpensAt(d.marks, Some(name), k)
    ensures Collected(d, name, k + 1, drafts)
  {
    hide CloseLine, LineStart;
    OnlyLastIsOpen(d, Some(name), k);
    hide Depth;
  }

  lemma EndsItem(d: Doc, name: string, k: nat, drafts: seq<Draft>)
    requires d.Valid() && k < |d.lines| && Collected(d, name, k, drafts)
    requires Depth(d.marks, Some(name), k) > 0 && Depth(d.marks, Some(name), k + 1) == 0
    ensures Collected(d, name, k + 1, drafts)
  {
    hide CloseLine, LineStart;
    OnlyLastIsOpen(d, Some(name), k);
    OnlyLastIsOpen(d, Some(name), k + 1);
    hide Depth;
    assert TopLines(d, Some(name), k + 1) == TopLines(d, Some(name), k);
  }

  lemma GrowsItem(d: Doc, name: string, k: nat, drafts: seq<Draft>)
    requires d.Valid() && k < |d.lines| && Collected(d, name, k, drafts)
    requires Depth(d.marks, Some(name), k) > 0 && Depth(d.marks, Some(name), k + 1) > 0
    ensures drafts != [] && Collected(d, name, k + 1, Extend(drafts, d.lines[k]))
  {
    hide CloseLine, LineStart;
    OnlyLastIsOpen(d, Some(name), k);
    OnlyLastIsOpen(d, Some(name), k + 1);
    hide Depth;
    var top := TopLines(d, Some(name), k);
    assert TopLines(d, Some(name), k + 1) == top;
    var i := top[|top| - 1];
    assert d.lines[i + 1..k + 1] == d.lines[i + 1..k] + [d.lines[k]];
  }
}
