/** The one-pass, stack-based resolver of nested `:::` directives. */
module DirectiveResolver {
  import opened Text
  import opened DirectiveSyntax
  import opened DirectiveNesting

  datatype Resolved = Resolved(
    from: nat, to: nat, bodyFrom: nat, bodyTo: nat, open: Opening, depth: nat, closed: bool)

  // ---------------------------------------------------------------- the specification

  /** The lines of a text, each with its role. */
  datatype Doc = Doc(lines: seq<string>, marks: seq<Mark>) {
    predicate Valid() { |lines| == |marks| >= 1 }

    function Start(k: nat): nat
      requires k <= |lines|
    { LineStart(lines, k) }

    /** Length of the text. */
    function End(): nat
      requires Valid()
    {
      LineStartMonotone(lines, 1, |lines|);
      LineStart(lines, |lines|) - 1
    }
  }

  function DocOf(text: string): (d: Doc)
    ensures d.Valid()
  { Doc(Lines(text), MarksOf(Lines(text))) }

  predicate Opener(d: Doc, i: nat)
    requires d.Valid()
  { i < |d.marks| && OpensAt(d.marks, None, i) }

  /** The range of the directive opened at line `i`: from its fence to the first line after it that
      brings the nesting depth back. */
  function RangeOf(d: Doc, i: nat): Resolved
    requires d.Valid() && Opener(d, i)
  {
    var c := CloseLine(d.marks, None, i);
    var closed := c < |d.lines|;
    Resolved(
      d.Start(i),
      if closed then d.Start(c) + |d.lines[c]| else d.End(),
      Min(d.Start(i + 1), d.End()),
      if closed then d.Start(c) else d.End(),
      d.marks[i].open,
      Depth(d.marks, None, i),
      closed)
  }

  /** One range per opening line, in document order. */
  function RangesFrom(d: Doc, i: nat): seq<Resolved>
    requires d.Valid() && i <= |d.lines|
    decreases |d.lines| - i
  {
    if i == |d.lines| then []
    else (if Opener(d, i) then [RangeOf(d, i)] else []) + RangesFrom(d, i + 1)
  }

  function Ranges(text: string): seq<Resolved> { RangesFrom(DocOf(text), 0) }

  function Min(a: nat, b: nat): nat { if a <= b then a else b }

  // ---------------------------------------------------------------- order and uniqueness

  lemma StartStep(d: Doc, i: nat)
    requires d.Valid() && i < |d.lines|
    ensures d.Start(i + 1) == d.Start(i) + |d.lines[i]| + 1
  {
  }

  lemma StartsAreOrdered(d: Doc, i: nat, j: nat)
    requires i <= |d.lines| && j <= |d.lines|
    ensures d.Start(i) < d.Start(j) <==> i < j
    ensures d.Start(i) == d.Start(j) <==> i == j
  {
    if i < j { LineStartMonotone(d.lines, i, j); } else { LineStartMonotone(d.lines, j, i); }
  }

  predicate Ascending(rs: seq<Resolved>) {
    forall a, b :: 0 <= a < b < |rs| ==> rs[a].from < rs[b].from
  }

  predicate Distinct(rs: seq<Resolved>) {
    forall a, b :: 0 <= a < b < |rs| ==> rs[a].from != rs[b].from
  }

  ghost predicate IsRangeOf(d: Doc, r: Resolved, i: nat)
    requires d.Valid()
  { Opener(d, i) && r == RangeOf(d, i) }

  lemma {:induction false} RangesFromSpec(d: Doc, i: nat)
    requires d.Valid() && i <= |d.lines|
    ensures Ascending(RangesFrom(d, i))
    ensures forall r :: r in RangesFrom(d, i) <==> exists k :: i <= k && IsRangeOf(d, r, k)
    decreases |d.lines| - i
  {
    if i < |d.lines| {
      var rest := RangesFrom(d, i + 1);
      RangesFromSpec(d, i + 1);
      forall r | r in rest
        ensures d.Start(i) < r.from
      {
        var k :| i + 1 <= k && IsRangeOf(d, r, k);
        StartsAreOrdered(d, i, k);
      }
      forall r
        ensures r in RangesFrom(d, i) <==> exists k :: i <= k && IsRangeOf(d, r, k)
      {
        if r in RangesFrom(d, i) && r !in rest { assert IsRangeOf(d, r, i); }
        if k :| i <= k && IsRangeOf(d, r, k) { assert k > i ==> r in rest; }
      }
    }
  }

  /** Two ascending lists with the same members are the same list. */
  lemma {:induction false} AscendingUnique(a: seq<Resolved>, b: seq<Resolved>)
    requires Ascending(a) && Ascending(b)
    requires forall r :: r in a <==> r in b
    ensures a == b
  {
    if |b| > 0 { assert b[0] in b; }
    if |a| > 0 {
      assert a[0] in b && b[0] in a;
      assert a[0] == b[0];
      forall r ensures r in a[1..] <==> r in b[1..] {
        if r in a[1..] { assert r in a && r != a[0]; }
        if r in b[1..] { assert r in b && r != b[0]; }
      }
      AscendingUnique(a[1..], b[1..]);
    }
  }

  // ---------------------------------------------------------------- the final sort

  /** The source's comparison: by start, then the longer range first. */
  predicate Precedes(a: Resolved, b: Resolved) {
    a.from < b.from || (a.from == b.from && a.to >= b.to)
  }

  function InsertRange(r: Resolved, rs: seq<Resolved>): (out: seq<Resolved>)
    ensures |out| == |rs| + 1
    ensures forall x :: x in out <==> x == r || x in rs
  {
    if rs == [] then [r]
    else if Precedes(r, rs[0]) then [r] + rs
    else
      var out := [rs[0]] + InsertRange(r, rs[1..]);
      assert rs == [rs[0]] + rs[1..];
      out
  }

  function SortRanges(rs: seq<Resolved>): (out: seq<Resolved>)
    ensures |out| == |rs|
    ensures forall x :: x in out <==> x in rs
  {
    if rs == [] then []
    else
      assert rs == [rs[0]] + rs[1..];
      InsertRange(rs[0], SortRanges(rs[1..]))
  }

  lemma {:induction false} InsertKeepsAscending(r: Resolved, rs: seq<Resolved>)
    requires Ascending(rs) && forall x :: x in rs ==> x.from != r.from
    ensures Ascending(InsertRange(r, rs))
  {
    if rs != [] && !Precedes(r, rs[0]) {
      InsertKeepsAscending(r, rs[1..]);
      var tail := InsertRange(r, rs[1..]);
      assert forall x :: x in tail ==> rs[0].from < x.from;
    }
  }

  lemma {:induction false} SortAscends(rs: seq<Resolved>)
    requires Distinct(rs)
    ensures Ascending(SortRanges(rs))
  {
    if rs != [] {
      SortAscends(rs[1..]);
      InsertKeepsAscending(rs[0], SortRanges(rs[1..]));
    }
  }

  // ---------------------------------------------------------------- the resolver

  datatype Pending = Pending(from: nat, bodyFrom: nat, open: Opening, depth: nat)

  function PendingOf(d: Doc, i: nat): Pending
    requires d.Valid() && Opener(d, i)
  {
    Pending(d.Start(i), Min(d.Start(i + 1), d.End()), d.marks[i].open, Depth(d.marks, None, i))
  }

  /** The resolver's stack before line `k`. */
  ghost predicate StackIs(d: Doc, k: nat, stack: seq<Pending>)
    requires d.Valid() && k <= |d.lines|
  {
    |stack| == Depth(d.marks, None, k)
    && forall n :: 0 <= n < |stack| ==>
         Opener(d, OpenLines(d.marks, None, k)[n]) && stack[n] == PendingOf(d, OpenLines(d.marks, None, k)[n])
  }

  /** `out` holds exactly the ranges of the openings in `done`. */
  ghost predicate Emitted(d: Doc, done: set<nat>, out: seq<Resolved>)
    requires d.Valid()
  {
    (forall i :: i in done ==> Opener(d, i))
    && (forall r :: r in out <==> exists i :: i in done && IsRangeOf(d, r, i))
    && Distinct(out)
  }

  ghost function ClosedBefore(d: Doc, k: nat): set<nat>
    requires d.Valid() && k <= |d.lines|
  {
    set i: nat | i < k && Opener(d, i) && CloseLine(d.marks, None, i) < k
  }

  lemma Emit(d: Doc, done: set<nat>, out: seq<Resolved>, i: nat)
    requires d.Valid() && Emitted(d, done, out) && Opener(d, i) && i !in done
    ensures Emitted(d, done + {i}, out + [RangeOf(d, i)])
  {
    var r' := RangeOf(d, i);
    assert IsRangeOf(d, r', i);
    forall r | r in out
      ensures r.from != r'.from
    {
      var j :| j in done && IsRangeOf(d, r, j);
      StartsAreOrdered(d, i, j);
    }
  }

  lemma PopCloses(d: Doc, k: nat, i: nat)
    requires d.Valid() && k < |d.lines| && ClosesAt(d.marks, None, k)
    requires i == OpenLines(d.marks, None, k)[Depth(d.marks, None, k) - 1]
    ensures Opener(d, i) && CloseLine(d.marks, None, i) == k
    ensures ClosedBefore(d, k + 1) == ClosedBefore(d, k) + {i} && i !in ClosedBefore(d, k)
  {
    OpenLinesAreStillOpen(d.marks, None, k, Depth(d.marks, None, k) - 1);
    ClosesInnermost(d.marks, None, k, i);
    forall j: nat | j < k && Opener(d, j) && CloseLine(d.marks, None, j) == k
      ensures j == i
    {
      assert StillOpen(d.marks, None, k, j);
      ClosesInnermost(d.marks, None, k, j);
    }
  }

  lemma NothingCloses(d: Doc, k: nat)
    requires d.Valid() && k < |d.lines| && !ClosesAt(d.marks, None, k)
    ensures ClosedBefore(d, k + 1) == ClosedBefore(d, k)
  {
    forall j: nat | j < k && Opener(d, j)
      ensures CloseLine(d.marks, None, j) != k
    {
      CloseLineCloses(d.marks, None, j);
    }
  }

  method ResolveDirectiveRanges(text: string) returns (sorted: seq<Resolved>)
    ensures sorted == Ranges(text)
  {
    var lines := Lines(text);
    ghost var d := DocOf(text);
    var out: seq<Resolved> := [];
    var stack: seq<Pending> := [];
    var offset := 0;
    TextLength(text);
    for k := 0 to |lines|
      invariant offset == d.Start(k)
      invariant StackIs(d, k, stack)
      invariant Emitted(d, ClosedBefore(d, k), out)
    {
      var line := lines[k];
      Classified(line);
      out, stack := ResolveLine(d, k, IsBareColonLine(line), ParseDirectiveOpen(line),
                                offset, offset + |line|, |text|, out, stack);
      offset := offset + |line| + 1;
    }
    out := CloseAtEnd(d, |text|, stack, out);
    RangesFromSpec(d, 0);
    SortAscends(out);
    AscendingUnique(SortRanges(out), RangesFrom(d, 0));
    sorted := SortRanges(out);
  }

  /** One turn of the resolver's loop: close the innermost directive, open a new one, or skip. */
  method ResolveLine(ghost d: Doc, ghost k: nat, bare: bool, open: Option<Opening>,
                     lineStart: nat, lineEnd: nat, end: nat, out: seq<Resolved>, stack: seq<Pending>)
    returns (out': seq<Resolved>, stack': seq<Pending>)
    requires d.Valid() && k < |d.lines|
    requires d.marks[k] == if bare then Close else if open.Some? then Open(open.value) else Content
    requires bare ==> open.None?
    requires lineStart == d.Start(k) && lineEnd == lineStart + |d.lines[k]| && end == d.End()
    requires StackIs(d, k, stack) && Emitted(d, ClosedBefore(d, k), out)
    ensures StackIs(d, k + 1, stack') && Emitted(d, ClosedBefore(d, k + 1), out')
  {
    hide Depth, CloseLine, OpenLines, LineStart, Emitted, StackIs, ClosedBefore;
    StackSize(d, k, stack);
    StartStep(d, k);
    if bare && |stack| > 0 {
      ghost var i := OpenLines(d.marks, None, k)[|stack| - 1];
      PopCloses(d, k, i);
      Emit(d, ClosedBefore(d, k), out, i);
      StackTop(d, k, stack, |stack| - 1);
      StackPops(d, k, stack);
      var top := stack[|stack| - 1];
      stack' := stack[..|stack| - 1];
      out' := out + [Resolved(top.from, lineEnd, top.bodyFrom, lineStart, top.open, top.depth, true)];
    } else {
      NothingCloses(d, k);
      out', stack' := out, stack;
      match open {
        case Some(opening) =>
          StackPushes(d, k, stack);
          stack' := stack + [Pending(lineStart, Min(lineEnd + 1, end), opening, |stack|)];
        case None =>
          StackStays(d, k, stack);
      }
    }
  }

  lemma StackSize(d: Doc, k: nat, stack: seq<Pending>)
    requires d.Valid() && k <= |d.lines| && StackIs(d, k, stack)
    ensures |stack| == Depth(d.marks, None, k)
  {
  }

  lemma StackTop(d: Doc, k: nat, stack: seq<Pending>, m: nat)
    requires d.Valid() && k <= |d.lines| && StackIs(d, k, stack) && m < |stack|
    ensures var i := OpenLines(d.marks, None, k)[m];
      Opener(d, i) && stack[m] == PendingOf(d, i)
  {
  }

  lemma StackPops(d: Doc, k: nat, stack: seq<Pending>)
    requires d.Valid() && k < |d.lines| && StackIs(d, k, stack) && ClosesAt(d.marks, None, k)
    ensures StackIs(d, k + 1, stack[..|stack| - 1])
  {
    var open := OpenLines(d.marks, None, k);
    assert OpenLines(d.marks, None, k + 1) == open[..|open| - 1];
  }

  lemma StackPushes(d: Doc, k: nat, stack: seq<Pending>)
    requires d.Valid() && k < |d.lines| && StackIs(d, k, stack) && Opener(d, k)
    ensures StackIs(d, k + 1, stack + [PendingOf(d, k)])
  {
    assert OpenLines(d.marks, None, k + 1) == OpenLines(d.marks, None, k) + [k];
  }

  lemma StackStays(d: Doc, k: nat, stack: seq<Pending>)
    requires d.Valid() && k < |d.lines| && StackIs(d, k, stack)
    requires !Opener(d, k) && !ClosesAt(d.marks, None, k)
    ensures StackIs(d, k + 1, stack)
  {
    assert OpenLines(d.marks, None, k + 1) == OpenLines(d.marks, None, k);
  }

  /** Directives still open at the end of the text close there. */
  method CloseAtEnd(ghost d: Doc, end: nat, stack: seq<Pending>, done: seq<Resolved>) returns (out: seq<Resolved>)
    requires d.Valid() && end == d.End() && StackIs(d, |d.lines|, stack)
    requires Emitted(d, ClosedBefore(d, |d.lines|), done)
    ensures Distinct(out)
    ensures forall r :: r in out <==> exists i :: 0 <= i && IsRangeOf(d, r, i)
  {
    hide Depth, CloseLine, OpenLines, LineStart, Emitted, StackIs;
    ghost var n := |d.lines|;
    ghost var open := OpenLines(d.marks, None, n);
    ghost var emitted := ClosedBefore(d, n);
    out := done;
    var m := |stack|;
    StackSize(d, n, stack);
    while m > 0
      invariant 0 <= m <= |stack| == |open|
      invariant Emitted(d, emitted, out)
      invariant forall i :: i in emitted <==> i in ClosedBefore(d, n) || i in open[m..]
    {
      m := m - 1;
      StackTop(d, n, stack, m);
      OpenLinesDiffer(d, n, m);
      assert open[m..] == [open[m]] + open[m + 1..];
      Emit(d, emitted, out, open[m]);
      var top := stack[m];
      out := out + [Resolved(top.from, end, top.bodyFrom, end, top.open, top.depth, false)];
      emitted := emitted + {open[m]};
    }
    assert open[0..] == open;
    EveryOpenerEmitted(d, emitted, out);
  }

  lemma OpenLinesDiffer(d: Doc, n: nat, m: nat)
    requires d.Valid() && n <= |d.lines| && m < Depth(d.marks, None, n)
    ensures var open := OpenLines(d.marks, None, n);
      open[m] !in open[m + 1..] && Opener(d, open[m]) && n <= CloseLine(d.marks, None, open[m])
  {
    hide Depth, CloseLine, OpenLines;
    var open := OpenLines(d.marks, None, n);
    OpenLinesAreStillOpen(d.marks, None, n, m);
    if open[m] in open[m + 1..] {
      var x :| m < x < |open| && open[x] == open[m];
      OpenLinesAreStillOpen(d.marks, None, n, x);
    }
  }

  lemma EveryOpenerEmitted(d: Doc, emitted: set<nat>, out: seq<Resolved>)
    requires d.Valid() && Emitted(d, emitted, out)
    requires forall i: nat :: i in ClosedBefore(d, |d.lines|) || i in OpenLines(d.marks, None, |d.lines|) ==> i in emitted
    ensures Distinct(out)
    ensures forall r :: r in out <==> exists i :: 0 <= i && IsRangeOf(d, r, i)
  {
    hide Depth, CloseLine, OpenLines;
    forall i: nat | Opener(d, i)
      ensures i in emitted
    {
      if CloseLine(d.marks, None, i) >= |d.lines| {
        StillOpenIsOnStack(d.marks, None, |d.lines|, i);
      } else {
        assert i in ClosedBefore(d, |d.lines|);
      }
    }
  }
}
