/** Where math spans lie, what delimits them, and that none is missed. */
module MathSpanLaws {
  import opened Text
  import opened MathSpans

  // ---------------------------------------------------------------- one span

  /** A block span is cut out by an unescaped `$$` and the first unescaped `$$` after it. */
  predicate IsBlock(text: string, s: Span) {
    s.display && s.from + 4 <= s.to <= |text|
    && BlockMark(text, s.from) && BlockClose(text, s.from + 2) == s.to - 2
    && s.tex == Trim(text[s.from + 2..s.to - 2]) != ""
  }

  /** An inline span passes every delimiter guard and avoids the block spans. */
  predicate IsInline(text: string, blocks: seq<Span>, s: Span) {
    !s.display && s.from + 2 <= s.to <= |text|
    && InlineOpens(text, blocks, s.from) && InlineCloses(text, s.to - 1)
    && InlineStop(text, s.from + 1) == s.to - 1
    && !Overlaps(blocks, s.from, s.to)
    && s.tex == Trim(text[s.from + 1..s.to - 1]) != ""
  }

  predicate Ordered(spans: seq<Span>) {
    forall a, b :: 0 <= a < b < |spans| ==> spans[a].to <= spans[b].from
  }

  lemma OrderedCons(s: Span, rest: seq<Span>)
    requires Ordered(rest) && forall x :: x in rest ==> s.to <= x.from
    ensures Ordered([s] + rest)
    ensures forall x :: x in [s] + rest <==> x == s || x in rest
  {
  }

  lemma BlockSpanIsBlock(text: string, i: nat)
    requires BlockMark(text, i) && BlockClose(text, i + 2) < |text|
    ensures var s := BlockSpan(text, i, BlockClose(text, i + 2)); s.tex != "" ==> IsBlock(text, s)
  {
    hide Trim, BlockClose;
  }

  ghost predicate BlocksAfter(text: string, spans: seq<Span>, i: nat) {
    Ordered(spans) && forall s :: s in spans ==> i <= s.from && IsBlock(text, s)
  }

  lemma {:induction false} BlocksAreBlocks(text: string, i: nat)
    ensures BlocksAfter(text, BlocksFrom(text, i), i)
    decreases |text| - i
  {
    hide Trim, BlocksFrom, BlockClose, IsBlock;
    BlocksStep(text, i);
    if i + 1 < |text| {
      if BlockMark(text, i) && BlockClose(text, i + 2) < |text| {
        var s := BlockSpan(text, i, BlockClose(text, i + 2));
        BlocksAreBlocks(text, s.to);
        BlockSpanIsBlock(text, i);
        OrderedCons(s, BlocksFrom(text, s.to));
      } else {
        BlocksAreBlocks(text, i + 1);
      }
    }
  }

  lemma InlineSpanIsInline(text: string, blocks: seq<Span>, i: nat)
    requires InlineOpens(text, blocks, i) && InlineCloses(text, InlineStop(text, i + 1))
    ensures var s := InlineSpan(text, i, InlineStop(text, i + 1));
      s.tex != "" && !Overlaps(blocks, s.from, s.to) ==> IsInline(text, blocks, s)
  {
    var s := InlineSpan(text, i, InlineStop(text, i + 1));
    SingleNonSpace(text, s);
    hide Trim, InlineStop, Overlaps;
  }

  ghost predicate InlinesAfter(text: string, blocks: seq<Span>, spans: seq<Span>, i: nat) {
    Ordered(spans) && forall s :: s in spans ==> i <= s.from && IsInline(text, blocks, s)
  }

  lemma {:induction false} InlinesAreInlines(text: string, blocks: seq<Span>, i: nat)
    ensures InlinesAfter(text, blocks, InlinesFrom(text, blocks, i), i)
    decreases |text| - i
  {
    hide Trim, InlinesFrom, InlineStop, Overlaps, IsInline, InlineOpens;
    InlinesStep(text, blocks, i);
    if i < |text| {
      if InlineOpens(text, blocks, i) && InlineCloses(text, InlineStop(text, i + 1)) {
        var s := InlineSpan(text, i, InlineStop(text, i + 1));
        InlinesAreInlines(text, blocks, s.to);
        InlineSpanIsInline(text, blocks, i);
        OrderedCons(s, InlinesFrom(text, blocks, s.to));
      } else {
        InlinesAreInlines(text, blocks, i + 1);
      }
    }
  }

  lemma SingleNonSpace(text: string, s: Span)
    requires s.from + 1 <= s.to - 1 < |text| && s.tex == Trim(text[s.from + 1..s.to - 1])
    ensures s.tex != "" ==> s.from + 2 <= s.to
  {
  }

  // ---------------------------------------------------------------- all spans together

  lemma {:induction false} InsertKeeps(s: Span, sorted: seq<Span>)
    ensures |InsertSpan(s, sorted)| == |sorted| + 1
    ensures forall x :: x in InsertSpan(s, sorted) <==> x == s || x in sorted
  {
    if sorted != [] {
      assert sorted == [sorted[0]] + sorted[1..];
      InsertKeeps(s, sorted[1..]);
    }
  }

  predicate Apart(a: Span, b: Span) { a.to <= b.from || b.to <= a.from }

  predicate Proper(spans: seq<Span>) { forall s :: s in spans ==> s.from < s.to }

  lemma {:induction false} InsertKeepsOrder(s: Span, sorted: seq<Span>)
    requires Ordered(sorted) && Proper(sorted) && s.from < s.to && forall x :: x in sorted ==> Apart(s, x)
    ensures Ordered(InsertSpan(s, sorted)) && Proper(InsertSpan(s, sorted))
  {
    if sorted == [] {
    } else if s.from <= sorted[0].from {
      assert forall x :: x in sorted ==> s.to <= x.from;
      OrderedCons(s, sorted);
    } else {
      var first, rest := sorted[0], sorted[1..];
      assert sorted == [first] + rest && forall x :: x in rest ==> x in sorted && first.to <= x.from;
      assert Apart(s, first) && first.to <= s.from;
      InsertKeepsOrder(s, rest);
      InsertKeeps(s, rest);
      OrderedCons(first, InsertSpan(s, rest));
    }
  }

  predicate PairwiseApart(spans: seq<Span>) {
    forall a, b :: 0 <= a < b < |spans| ==> Apart(spans[a], spans[b])
  }

  lemma {:induction false} SortSorts(spans: seq<Span>)
    requires Proper(spans) && PairwiseApart(spans)
    ensures Ordered(SortSpans(spans)) && Proper(SortSpans(spans)) && |SortSpans(spans)| == |spans|
    ensures forall x :: x in SortSpans(spans) <==> x in spans
  {
    if spans != [] {
      assert spans == [spans[0]] + spans[1..];
      SortSorts(spans[1..]);
      InsertKeeps(spans[0], SortSpans(spans[1..]));
      InsertKeepsOrder(spans[0], SortSpans(spans[1..]));
    }
  }

  /** The spans of any text are in bounds, sorted and disjoint, and each is delimited as its kind asks. */
  lemma SpansAreWellPlaced(text: string)
    ensures Ordered(Spans(text))
    ensures forall s :: s in Spans(text) ==>
      s.from < s.to <= |text| && s.tex != ""
      && (if s.display then IsBlock(text, s) else IsInline(text, BlocksFrom(text, 0), s))
    ensures forall s :: s in Spans(text) <==>
      s in BlocksFrom(text, 0) || s in InlinesFrom(text, BlocksFrom(text, 0), 0)
  {
    hide BlocksFrom, InlinesFrom, Trim, BlockClose, InlineStop, SortSpans, IsBlock, IsInline;
    var blocks := BlocksFrom(text, 0);
    var inlines := InlinesFrom(text, blocks, 0);
    BlocksAreBlocks(text, 0);
    InlinesAreInlines(text, blocks, 0);
    forall s | s in blocks ensures s.from < s.to <= |text| && s.tex != "" && s.display { BlockIsProper(text, s); }
    forall s | s in inlines
      ensures s.from < s.to <= |text| && s.tex != "" && !s.display && !Overlaps(blocks, s.from, s.to)
    {
      InlineIsProper(text, blocks, s);
    }
    AllApart(blocks, inlines);
    SortSorts(blocks + inlines);
  }

  lemma BlockIsProper(text: string, s: Span)
    requires IsBlock(text, s)
    ensures s.from < s.to <= |text| && s.tex != "" && s.display
  {
    hide Trim;
  }

  lemma InlineIsProper(text: string, blocks: seq<Span>, s: Span)
    requires IsInline(text, blocks, s)
    ensures s.from < s.to <= |text| && s.tex != "" && !s.display && !Overlaps(blocks, s.from, s.to)
  {
    hide Trim, Overlaps;
  }

  lemma AllApart(blocks: seq<Span>, inlines: seq<Span>)
    requires Ordered(blocks) && Ordered(inlines)
    requires forall s :: s in inlines ==> !Overlaps(blocks, s.from, s.to)
    ensures PairwiseApart(blocks + inlines)
  {
    var all := blocks + inlines;
    forall a, b | 0 <= a < b < |all|
      ensures Apart(all[a], all[b])
    {
      if a < |blocks| <= b {
        assert all[b] in inlines && all[a] == blocks[a];
      } else if |blocks| <= a {
        assert all[a] == inlines[a - |blocks|] && all[b] == inlines[b - |blocks|];
      }
    }
  }

  // ---------------------------------------------------------------- nothing is missed

  /** Somewhere at or after `i` the block pass consumes the stretch `[from, to)` as one pair of marks. */
  predicate Consumes(text: string, i: nat, p: nat)
    decreases |text| - i
  {
    if i + 1 >= |text| then false
    else if BlockMark(text, i) && BlockClose(text, i + 2) < |text| then
      i <= p < BlockClose(text, i + 2) + 2 || Consumes(text, BlockClose(text, i + 2) + 2, p)
    else Consumes(text, i + 1, p)
  }

  /** Position `p` lies in a pair of block marks at `a` with only whitespace between them. */
  predicate InEmptyPair(text: string, a: nat, p: nat) {
    BlockMark(text, a)
    && var b := BlockClose(text, a + 2);
       b < |text| && a <= p < b + 2 && Trim(text[a + 2..b]) == ""
  }

  lemma {:induction false} ConsumedIsSpanOrEmpty(text: string, i: nat, p: nat)
    requires Consumes(text, i, p)
    ensures (exists s :: s in BlocksFrom(text, i) && s.from <= p < s.to) || exists a :: InEmptyPair(text, a, p)
    decreases |text| - i
  {
    hide Trim, BlockClose, BlocksFrom;
    BlocksStep(text, i);
    if BlockMark(text, i) && BlockClose(text, i + 2) < |text| {
      var j := BlockClose(text, i + 2);
      if i <= p < j + 2 {
        var s := BlockSpan(text, i, j);
        if s.tex != "" { assert s in BlocksFrom(text, i); } else { assert InEmptyPair(text, i, p); }
      } else {
        ConsumedIsSpanOrEmpty(text, j + 2, p);
      }
    } else {
      ConsumedIsSpanOrEmpty(text, i + 1, p);
    }
  }

  lemma {:induction false} PairIsConsumed(text: string, i: nat, p: nat, q: nat)
    requires i <= p && p + 2 <= q && BlockMark(text, p) && BlockMark(text, q)
    ensures Consumes(text, i, p)
    decreases |text| - i
  {
    hide Trim;
    if BlockMark(text, i) && BlockClose(text, i + 2) < |text| {
      if p >= BlockClose(text, i + 2) + 2 { PairIsConsumed(text, BlockClose(text, i + 2) + 2, p, q); }
    } else {
      assert i != p;
      PairIsConsumed(text, i + 1, p, q);
    }
  }

  /** Two unescaped block marks cannot both be left over: the first lies in a block span or in an empty
      pair of marks. */
  lemma NoBlockIsMissed(text: string, p: nat, q: nat)
    requires p + 2 <= q && BlockMark(text, p) && BlockMark(text, q)
    ensures (exists s :: s in Spans(text) && s.display && s.from <= p < s.to) || exists a :: InEmptyPair(text, a, p)
  {
    hide Trim, Spans, BlocksFrom;
    PairIsConsumed(text, 0, p, q);
    ConsumedIsSpanOrEmpty(text, 0, p);
    BlocksAreBlocks(text, 0);
    SpansAreWellPlaced(text);
  }

  /** A dollar that passes every inline guard, with a closing dollar that does too. */
  predicate InlineCandidate(text: string, blocks: seq<Span>, i: nat) {
    InlineOpens(text, blocks, i) && InlineCloses(text, InlineStop(text, i + 1))
    && InlineSpan(text, i, InlineStop(text, i + 1)).tex != ""
    && !Overlaps(blocks, i, InlineStop(text, i + 1) + 1)
  }

  /** Position `p` lies in the stretch that the inline pass consumes from an opening dollar at `a`. */
  predicate InEarlierFormula(text: string, blocks: seq<Span>, a: nat, p: nat) {
    a < p <= InlineStop(text, a + 1)
    && InlineOpens(text, blocks, a) && InlineCloses(text, InlineStop(text, a + 1))
  }

  lemma {:induction false} CandidateIsFound(text: string, blocks: seq<Span>, i: nat, p: nat)
    requires i <= p && InlineCandidate(text, blocks, p)
    ensures (exists s :: s in InlinesFrom(text, blocks, i) && s.from <= p < s.to)
         || exists a :: InEarlierFormula(text, blocks, a, p)
    decreases |text| - i
  {
    hide Trim, InlineStop, Overlaps;
    InlinesStep(text, blocks, i);
    if InlineOpens(text, blocks, i) && InlineCloses(text, InlineStop(text, i + 1)) {
      var s := InlineSpan(text, i, InlineStop(text, i + 1));
      if i == p {
        assert s in InlinesFrom(text, blocks, i);
      } else if s.to <= p {
        CandidateIsFound(text, blocks, s.to, p);
      } else {
        assert InEarlierFormula(text, blocks, i, p);
      }
    } else {
      CandidateIsFound(text, blocks, i + 1, p);
    }
  }

  /** A complete inline formula is a span, unless its opening dollar lies inside an earlier formula. */
  lemma NoInlineIsMissed(text: string, p: nat)
    requires InlineCandidate(text, BlocksFrom(text, 0), p)
    ensures (exists s :: s in Spans(text) && s.from <= p < s.to)
         || exists a :: InEarlierFormula(text, BlocksFrom(text, 0), a, p)
  {
    hide Trim, Spans, BlocksFrom, InlinesFrom, InlineCandidate, InlineStop;
    CandidateIsFound(text, BlocksFrom(text, 0), 0, p);
    SpansAreWellPlaced(text);
  }

  // ---------------------------------------------------------------- splitting prose

  /** What prose is split into: literal text and math, each math piece standing for its source. */
  datatype Piece = Prose(text: string) | Math(source: string, tex: string, display: bool)

  predicate Fits(text: string, spans: seq<Span>, at: nat) {
    at <= |text| && Ordered(spans) && forall s :: s in spans ==> at <= s.from < s.to <= |text|
  }

  lemma FitsTail(text: string, spans: seq<Span>, at: nat)
    requires Fits(text, spans, at) && spans != []
    ensures at <= spans[0].from < spans[0].to <= |text| && Fits(text, spans[1..], spans[0].to)
  {
    assert spans[0] in spans;
    forall x | x in spans[1..] ensures spans[0].to <= x.from < x.to <= |text| {
      var k :| 1 <= k < |spans| && x == spans[k];
    }
  }

  /** `emitProse`'s split, from position `at` on. */
  function PiecesFrom(text: string, spans: seq<Span>, at: nat): seq<Piece>
    requires Fits(text, spans, at)
    decreases |spans|
  {
    if spans == [] then if at < |text| then [Prose(text[at..])] else []
    else
      FitsTail(text, spans, at);
      var s := spans[0];
      (if s.from > at then [Prose(text[at..s.from])] else [])
      + [Math(text[s.from..s.to], s.tex, s.display)]
      + PiecesFrom(text, spans[1..], s.to)
  }

  function Source(pieces: seq<Piece>): string {
    if pieces == [] then ""
    else (match pieces[0] case Prose(t) => t case Math(src, _, _) => src) + Source(pieces[1..])
  }

  lemma {:induction false} SourceAppend(a: seq<Piece>, b: seq<Piece>)
    ensures Source(a + b) == Source(a) + Source(b)
  {
    if a == [] {
      assert a + b == b;
    } else {
      assert (a + b)[1..] == a[1..] + b;
      SourceAppend(a[1..], b);
    }
  }

  lemma SourceOfOne(p: Piece)
    ensures Source([p]) == match p case Prose(t) => t case Math(src, _, _) => src
    ensures Source([]) == ""
  {
  }

  lemma {:induction false} PiecesRebuild(text: string, spans: seq<Span>, at: nat)
    requires Fits(text, spans, at)
    ensures Source(PiecesFrom(text, spans, at)) == text[at..]
    decreases |spans|
  {
    hide Source, Fits;
    if spans == [] {
      assert at <= |text| by { FitsBound(text, spans, at); }
      SourceOfOne(Prose(text[at..]));
    } else {
      FitsTail(text, spans, at);
      var s := spans[0];
      PiecesRebuild(text, spans[1..], s.to);
      var head := if s.from > at then [Prose(text[at..s.from])] else [];
      var math := Math(text[s.from..s.to], s.tex, s.display);
      SourceAppend(head + [math], PiecesFrom(text, spans[1..], s.to));
      SourceAppend(head, [math]);
      SourceOfOne(math);
      SourceOfOne(Prose(text[at..s.from]));
      ThreeSlices(text, at, s.from, s.to);
    }
  }

  lemma FitsBound(text: string, spans: seq<Span>, at: nat)
    requires Fits(text, spans, at)
    ensures at <= |text|
  {
  }

  lemma ThreeSlices(text: string, a: nat, b: nat, c: nat)
    requires a <= b <= c <= |text|
    ensures text[a..b] + text[b..c] + text[c..] == text[a..] && (a == b ==> text[a..b] == "")
  {
  }

  /** The prose pieces and the formulas' sources, put back together, are the text. */
  lemma SplitRebuildsText(text: string)
    ensures Fits(text, Spans(text), 0)
    ensures Source(PiecesFrom(text, Spans(text), 0)) == text
  {
    hide Spans;
    SpansAreWellPlaced(text);
    PiecesRebuild(text, Spans(text), 0);
    assert text[0..] == text;
  }

  /** The prose before a formula, and the formula. */
  function Before(text: string, at: nat, s: Span): seq<Piece>
    requires at <= s.from <= s.to <= |text|
  {
    (if s.from > at then [Prose(text[at..s.from])] else []) + [Math(text[s.from..s.to], s.tex, s.display)]
  }

  lemma PiecesStep(text: string, spans: seq<Span>, at: nat)
    requires Fits(text, spans, at) && spans != []
    ensures at <= spans[0].from <= spans[0].to <= |text| && Fits(text, spans[1..], spans[0].to)
    ensures PiecesFrom(text, spans, at) == Before(text, at, spans[0]) + PiecesFrom(text, spans[1..], spans[0].to)
  {
    FitsTail(text, spans, at);
  }

  lemma PiecesEnd(text: string, at: nat)
    requires Fits(text, [], at)
    ensures PiecesFrom(text, [], at) == if at < |text| then [Prose(text[at..])] else []
  {
  }

  /** `emitProse`. */
  method EmitProse(text: string) returns (pieces: seq<Piece>)
    ensures Fits(text, Spans(text), 0)
    ensures pieces == PiecesFrom(text, Spans(text), 0)
  {
    hide Spans, Fits, PiecesFrom;
    var spans := FindMathSpans(text);
    SplitRebuildsText(text);
    pieces := [];
    var at: nat := 0;
    assert spans[0..] == spans;
    for k := 0 to |spans|
      invariant Fits(text, spans[k..], at)
      invariant pieces + PiecesFrom(text, spans[k..], at) == PiecesFrom(text, spans, 0)
    {
      var s := spans[k];
      assert spans[k..][0] == s && spans[k..][1..] == spans[k + 1..];
      FitsTail(text, spans[k..], at);
      PiecesStep(text, spans[k..], at);
      assert pieces + (Before(text, at, s) + PiecesFrom(text, spans[k + 1..], s.to))
             == (pieces + Before(text, at, s)) + PiecesFrom(text, spans[k + 1..], s.to);
      if s.from > at { pieces := pieces + [Prose(text[at..s.from])]; }
      pieces := pieces + [Math(text[s.from..s.to], s.tex, s.display)];
      at := s.to;
    }
    assert spans[|spans|..] == [];
    FitsBound(text, [], at);
    PiecesEnd(text, at);
    if at < |text| { pieces := pieces + [Prose(text[at..])]; }
  }
}
