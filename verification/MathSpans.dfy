/** Finding `$...$` and `$$...$$` in prose: a block pass first, then a guarded inline pass. */
module MathSpans {
  import opened Text

  datatype Span = Span(from: nat, to: nat, tex: string, display: bool)

  // ---------------------------------------------------------------- delimiters

  predicate Escaped(text: string, i: nat)
    requires i <= |text|
  { i > 0 && text[i - 1] == '\\' }

  /** An unescaped `$$` at `i`. */
  predicate BlockMark(text: string, i: nat) {
    i + 1 < |text| && text[i] == '$' && text[i + 1] == '$' && !Escaped(text, i)
  }

  /** The first unescaped `$$` at or after `j`, or the length of the text. */
  function BlockClose(text: string, j: nat): (k: nat)
    ensures j <= k || k == |text|
    ensures k <= |text| && (k < |text| ==> BlockMark(text, k))
    ensures forall m :: j <= m < k ==> !BlockMark(text, m)
    decreases |text| - j
  {
    if j + 1 >= |text| then |text| else if BlockMark(text, j) then j else BlockClose(text, j + 1)
  }

  predicate Overlaps(taken: seq<Span>, a: nat, b: nat) {
    exists k :: 0 <= k < |taken| && a < taken[k].to && b > taken[k].from
  }

  predicate NonSpaceAt(text: string, i: nat) { i < |text| && !IsSpace(text[i]) }

  predicate DigitAt(text: string, i: nat) { i < |text| && IsDigit(text[i]) }

  /** Where the inline scan from `j` stops: at a dollar, a newline or past the end; a backslash skips
      the character after it. */
  function InlineStop(text: string, j: nat): (k: nat)
    ensures j <= k
    decreases |text| - j
  {
    if j >= |text| || text[j] == '$' || text[j] == '\n' then j
    else if text[j] == '\\' then InlineStop(text, j + 2)
    else InlineStop(text, j + 1)
  }

  /** The guards an inline opening must pass. */
  predicate InlineOpens(text: string, blocks: seq<Span>, i: nat) {
    i < |text| && text[i] == '$' && !Escaped(text, i)
    && !(i + 1 < |text| && text[i + 1] == '$')
    && !Overlaps(blocks, i, i + 1) && NonSpaceAt(text, i + 1)
  }

  /** The guards its closing dollar must pass. */
  predicate InlineCloses(text: string, j: nat) {
    0 < j < |text| && text[j] == '$' && !Escaped(text, j) && !IsSpace(text[j - 1]) && !DigitAt(text, j + 1)
  }

  // ---------------------------------------------------------------- the two passes

  function BlockSpan(text: string, i: nat, j: nat): Span
    requires i + 2 <= j && j + 2 <= |text|
  { Span(i, j + 2, Trim(text[i + 2..j]), true) }

  /** The block spans found from `i` on; an empty `$$ $$` is consumed but gives none. */
  function BlocksFrom(text: string, i: nat): seq<Span>
    decreases |text| - i
  {
    if i + 1 >= |text| then []
    else if BlockMark(text, i) && BlockClose(text, i + 2) < |text| then
      var j := BlockClose(text, i + 2);
      (if BlockSpan(text, i, j).tex != "" then [BlockSpan(text, i, j)] else []) + BlocksFrom(text, j + 2)
    else BlocksFrom(text, i + 1)
  }

  function InlineSpan(text: string, i: nat, j: nat): Span
    requires i + 1 <= j < |text|
  { Span(i, j + 1, Trim(text[i + 1..j]), false) }

  /** The inline spans found from `i` on, given the block spans. */
  function InlinesFrom(text: string, blocks: seq<Span>, i: nat): seq<Span>
    decreases |text| - i
  {
    if i >= |text| then []
    else if InlineOpens(text, blocks, i) && InlineCloses(text, InlineStop(text, i + 1)) then
      var j := InlineStop(text, i + 1);
      var s := InlineSpan(text, i, j);
      (if s.tex != "" && !Overlaps(blocks, s.from, s.to) then [s] else []) + InlinesFrom(text, blocks, j + 1)
    else InlinesFrom(text, blocks, i + 1)
  }

  function InsertSpan(s: Span, sorted: seq<Span>): seq<Span> {
    if sorted == [] || s.from <= sorted[0].from then [s] + sorted
    else [sorted[0]] + InsertSpan(s, sorted[1..])
  }

  /** The final sort by start. */
  function SortSpans(spans: seq<Span>): seq<Span> {
    if spans == [] then [] else InsertSpan(spans[0], SortSpans(spans[1..]))
  }

  function Spans(text: string): seq<Span> {
    var blocks := BlocksFrom(text, 0);
    SortSpans(blocks + InlinesFrom(text, blocks, 0))
  }

  // ---------------------------------------------------------------- the scanner

  method FindMathSpans(text: string) returns (spans: seq<Span>)
    ensures spans == Spans(text)
  {
    var blocks := FindBlocks(text);
    var all := FindInlines(text, blocks);
    spans := SortSpans(all);
  }

  method FindBlocks(text: string) returns (out: seq<Span>)
    ensures out == BlocksFrom(text, 0)
  {
    hide Trim, BlocksFrom, BlockClose;
    out := [];
    var i := 0;
    while i + 1 < |text|
      invariant out + BlocksFrom(text, i) == BlocksFrom(text, 0)
      decreases |text| - i
    {
      BlocksStep(text, i);
      if text[i] == '$' && text[i + 1] == '$' && !Escaped(text, i) {
        var j := ScanBlockClose(text, i + 2);
        if j < |text| {
          var s := Span(i, j + 2, Trim(text[i + 2..j]), true);
          if s.tex != "" {
            AssocSpans(out, [s], BlocksFrom(text, j + 2));
            out := out + [s];
          }
          i := j + 2;
        } else {
          i := i + 1;
        }
      } else {
        i := i + 1;
      }
    }
    BlocksStep(text, i);
    assert out + [] == out;
  }

  lemma AssocSpans(a: seq<Span>, b: seq<Span>, c: seq<Span>)
    ensures a + (b + c) == a + b + c
  {
  }

  lemma BlocksStep(text: string, i: nat)
    ensures BlocksFrom(text, i) ==
      if i + 1 >= |text| then []
      else if BlockMark(text, i) && BlockClose(text, i + 2) < |text| then
        var s := BlockSpan(text, i, BlockClose(text, i + 2));
        if s.tex != "" then [s] + BlocksFrom(text, s.to) else BlocksFrom(text, s.to)
      else BlocksFrom(text, i + 1)
  {
    hide Trim;
  }

  method ScanBlockClose(text: string, from: nat) returns (k: nat)
    ensures k == BlockClose(text, from)
  {
    k := from;
    while k + 1 < |text| && !(text[k] == '$' && text[k + 1] == '$' && !Escaped(text, k))
      invariant BlockClose(text, k) == BlockClose(text, from)
      decreases |text| - k
    {
      k := k + 1;
    }
    if k + 1 >= |text| { k := |text|; }
  }

  /** Spans found so far end at or before the scan position, so only block spans can stand in the way. */
  method FindInlines(text: string, blocks: seq<Span>) returns (out: seq<Span>)
    ensures out == blocks + InlinesFrom(text, blocks, 0)
  {
    hide Trim, InlinesFrom, Overlaps, InlineStop;
    out := blocks;
    var i := 0;
    while i < |text|
      invariant |blocks| <= |out| && out[..|blocks|] == blocks
      invariant forall k :: |blocks| <= k < |out| ==> out[k].to <= i
      invariant out + InlinesFrom(text, blocks, i) == blocks + InlinesFrom(text, blocks, 0)
      decreases |text| - i
    {
      InlinesStep(text, blocks, i);
      OnlyBlocksOverlap(blocks, out, i, i, i + 1);
      if text[i] == '$' && !Escaped(text, i) && !(i + 1 < |text| && text[i + 1] == '$')
         && !Overlaps(out, i, i + 1) && NonSpaceAt(text, i + 1) {
        var j := ScanInline(text, i + 1);
        if InlineCloses(text, j) {
          var s := Span(i, j + 1, Trim(text[i + 1..j]), false);
          OnlyBlocksOverlap(blocks, out, i, s.from, s.to);
          if s.tex != "" && !Overlaps(out, s.from, s.to) {
            AssocSpans(out, [s], InlinesFrom(text, blocks, j + 1));
            out := out + [s];
          }
          i := j + 1;
        } else {
          i := i + 1;
        }
      } else {
        i := i + 1;
      }
    }
    InlinesStep(text, blocks, i);
    assert out + [] == out;
  }

  lemma InlinesStep(text: string, blocks: seq<Span>, i: nat)
    ensures InlinesFrom(text, blocks, i) ==
      if i >= |text| then []
      else if InlineOpens(text, blocks, i) && InlineCloses(text, InlineStop(text, i + 1)) then
        var s := InlineSpan(text, i, InlineStop(text, i + 1));
        if s.tex != "" && !Overlaps(blocks, s.from, s.to) then [s] + InlinesFrom(text, blocks, s.to)
        else InlinesFrom(text, blocks, s.to)
      else InlinesFrom(text, blocks, i + 1)
  {
    hide Trim, Overlaps, InlineStop;
  }

  method ScanInline(text: string, from: nat) returns (j: nat)
    ensures j == InlineStop(text, from)
  {
    j := from;
    while j < |text| && text[j] != '$' && text[j] != '\n'
      invariant InlineStop(text, j) == InlineStop(text, from)
      decreases |text| - j
    {
      if text[j] == '\\' { j := j + 1; }
      j := j + 1;
    }
  }

  lemma OnlyBlocksOverlap(blocks: seq<Span>, out: seq<Span>, i: nat, a: nat, b: nat)
    requires |blocks| <= |out| && out[..|blocks|] == blocks && i <= a
    requires forall k :: |blocks| <= k < |out| ==> out[k].to <= i
    ensures Overlaps(out, a, b) <==> Overlaps(blocks, a, b)
  {
    assert forall k :: 0 <= k < |blocks| ==> out[k] == blocks[k];
  }
}
