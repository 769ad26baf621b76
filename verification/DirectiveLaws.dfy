/** What the resolver's ranges mean: they nest, they delimit text, and they are the ranges of the
    recursive grammar of container directives. */
module DirectiveLaws {
  import opened Text
  import opened DirectiveSyntax
  import opened DirectiveNesting
  import opened DirectiveResolver

  // ---------------------------------------------------------------- nesting

  predicate Encloses(a: Resolved, b: Resolved) {
    a.from < b.from && a.bodyFrom <= b.from && b.to <= a.bodyTo
  }

  predicate Disjoint(a: Resolved, b: Resolved) { a.to <= b.from || b.to <= a.from }

  lemma EndIsLast(d: Doc, k: nat)
    requires d.Valid() && k < |d.lines|
    ensures d.Start(k) + |d.lines[k]| <= d.End()
    ensures k + 1 < |d.lines| ==> d.Start(k + 1) <= d.End()
  {
    LineStartMonotone(d.lines, k + 1, |d.lines|);
  }

  /** Of two directives, the later one lies inside the body of the earlier exactly while that is open. */
  lemma LaterOpening(d: Doc, i: nat, j: nat)
    requires d.Valid() && i < j && Opener(d, i) && Opener(d, j)
    ensures if CloseLine(d.marks, None, i) >= j
            then Encloses(RangeOf(d, i), RangeOf(d, j)) && Depth(d.marks, None, i) < Depth(d.marks, None, j)
            else RangeOf(d, i).to < RangeOf(d, j).from
  {
    if CloseLine(d.marks, None, i) >= j { LaterInside(d, i, j); } else { LaterAfter(d, i, j); }
  }

  lemma LaterAfter(d: Doc, i: nat, j: nat)
    requires d.Valid() && i < j && Opener(d, i) && Opener(d, j) && CloseLine(d.marks, None, i) < j
    ensures RangeOf(d, i).to < RangeOf(d, j).from
  {
    hide OpensAt, Depth;
    LineStartMonotone(d.lines, CloseLine(d.marks, None, i) + 1, j);
  }

  lemma LaterInside(d: Doc, i: nat, j: nat)
    requires d.Valid() && i < j && Opener(d, i) && Opener(d, j) && CloseLine(d.marks, None, i) >= j
    ensures Encloses(RangeOf(d, i), RangeOf(d, j)) && Depth(d.marks, None, i) < Depth(d.marks, None, j)
  {
    hide OpensAt, Depth, LineStart;
    var c, e := CloseLine(d.marks, None, i), CloseLine(d.marks, None, j);
    StillOpenIsOnStack(d.marks, None, j, i);
    ClosesInside(d, i, j);
    StartsAreOrdered(d, i, j);
    EndIsLast(d, j);
    LineStartMonotone(d.lines, i + 1, j);
    if e < |d.lines| {
      EndIsLast(d, e);
      if c < |d.lines| { StartOfNext(d, e, c); }
    }
  }

  lemma StartOfNext(d: Doc, e: nat, c: nat)
    requires d.Valid() && e < c < |d.lines|
    ensures d.Start(e) + |d.lines[e]| < d.Start(c)
  {
    LineStartMonotone(d.lines, e + 1, c);
  }

  lemma ClosesInside(d: Doc, i: nat, j: nat)
    requires d.Valid() && i < j && Opener(d, i) && Opener(d, j)
    requires CloseLine(d.marks, None, i) >= j && Depth(d.marks, None, i) < Depth(d.marks, None, j)
    ensures var c, e := CloseLine(d.marks, None, i), CloseLine(d.marks, None, j);
      if c < |d.lines| then e < c else e <= c
  {
    CloseLineCloses(d.marks, None, i);
    CloseLineCloses(d.marks, None, j);
  }

  /** Any two ranges of a document are disjoint, or the later lies inside the earlier one's body. */
  lemma RangesAreLaminar(d: Doc, m: nat, n: nat)
    requires d.Valid() && m < n < |RangesFrom(d, 0)|
    ensures Disjoint(RangesFrom(d, 0)[m], RangesFrom(d, 0)[n]) || Encloses(RangesFrom(d, 0)[m], RangesFrom(d, 0)[n])
  {
    hide Depth, CloseLine, LineStart, OpensAt, RangesFrom;
    RangesFromSpec(d, 0);
    var a, b := RangesFrom(d, 0)[m], RangesFrom(d, 0)[n];
    assert a in RangesFrom(d, 0) && b in RangesFrom(d, 0);
    var i :| 0 <= i && IsRangeOf(d, a, i);
    var j :| 0 <= j && IsRangeOf(d, b, j);
    StartsAreOrdered(d, i, j);
    LaterOpening(d, i, j);
  }

  ghost function Enclosing(d: Doc, r: Resolved): set<Resolved>
    requires d.Valid()
  {
    set x | x in RangesFrom(d, 0) && Encloses(x, r)
  }

  /** The ranges open at line `j`, outermost first. */
  function EnclosingSeq(d: Doc, j: nat, n: nat): (s: seq<Resolved>)
    requires d.Valid() && j <= |d.lines| && n <= Depth(d.marks, None, j)
    ensures |s| == n
    ensures forall m :: 0 <= m < n ==>
      IsRangeOf(d, s[m], OpenLines(d.marks, None, j)[m]) && s[m].depth == m
  {
    if n == 0 then []
    else
      OpenLinesAreStillOpen(d.marks, None, j, n - 1);
      EnclosingSeq(d, j, n - 1) + [RangeOf(d, OpenLines(d.marks, None, j)[n - 1])]
  }

  /** A list whose entries carry their own position has no repetitions. */
  lemma {:induction false} IndexedSize(s: seq<Resolved>)
    requires forall m :: 0 <= m < |s| ==> s[m].depth == m
    ensures |set x | x in s| == |s|
  {
    if s != [] {
      var n := |s| - 1;
      IndexedSize(s[..n]);
      assert s == s[..n] + [s[n]];
      assert (set x | x in s) == (set x | x in s[..n]) + {s[n]};
    }
  }

  lemma EnclosingIsOpen(d: Doc, j: nat, x: Resolved)
    requires d.Valid() && Opener(d, j)
    ensures x in EnclosingSeq(d, j, Depth(d.marks, None, j)) <==>
      Encloses(x, RangeOf(d, j)) && exists i :: 0 <= i && IsRangeOf(d, x, i)
  {
    hide OpensAt, Depth, LineStart, EnclosingSeq, CloseLine, OpenLines;
    var s := EnclosingSeq(d, j, Depth(d.marks, None, j));
    if i :| 0 <= i && IsRangeOf(d, x, i) && Encloses(x, RangeOf(d, j)) {
      EncloserIsOpen(d, i, j);
      assert s[Depth(d.marks, None, i)] == x;
    }
    if x in s {
      var m :| 0 <= m < |s| && s[m] == x;
      OpenLinesAreStillOpen(d.marks, None, j, m);
      LaterOpening(d, OpenLines(d.marks, None, j)[m], j);
    }
  }

  lemma EncloserIsOpen(d: Doc, i: nat, j: nat)
    requires d.Valid() && Opener(d, i) && Opener(d, j) && Encloses(RangeOf(d, i), RangeOf(d, j))
    ensures Depth(d.marks, None, i) < Depth(d.marks, None, j)
    ensures OpenLines(d.marks, None, j)[Depth(d.marks, None, i)] == i
  {
    hide OpensAt, Depth, LineStart, CloseLine, OpenLines;
    StartsAreOrdered(d, i, j);
    LaterOpening(d, i, j);
    RangeGoesForward(d, j);
    StillOpenIsOnStack(d.marks, None, j, i);
  }

  lemma RangeGoesForward(d: Doc, i: nat)
    requires d.Valid() && Opener(d, i)
    ensures RangeOf(d, i).from <= RangeOf(d, i).to
  {
    var c := CloseLine(d.marks, None, i);
    if c < |d.lines| { LineStartMonotone(d.lines, i, c); } else { EndIsLast(d, i); }
  }

  /** `depth` is the number of ranges whose body contains this one. */
  lemma DepthCountsEnclosing(d: Doc, j: nat)
    requires d.Valid() && Opener(d, j)
    ensures |Enclosing(d, RangeOf(d, j))| == RangeOf(d, j).depth
  {
    var r := RangeOf(d, j);
    RangesFromSpec(d, 0);
    var s := EnclosingSeq(d, j, r.depth);
    IndexedSize(s);
    forall x ensures x in Enclosing(d, r) <==> x in s {
      EnclosingIsOpen(d, j, x);
    }
    assert Enclosing(d, r) == set x | x in s;
  }

  /** A range is marked unclosed exactly when its directive is still open at the end of the text. */
  lemma UnclosedIsOpenAtEnd(d: Doc, i: nat)
    requires d.Valid() && Opener(d, i)
    ensures !RangeOf(d, i).closed <==> i in OpenLines(d.marks, None, |d.marks|)
  {
    var open := OpenLines(d.marks, None, |d.marks|);
    if !RangeOf(d, i).closed { StillOpenIsOnStack(d.marks, None, |d.marks|, i); }
    if i in open {
      var m :| 0 <= m < |open| && open[m] == i;
      OpenLinesAreStillOpen(d.marks, None, |d.marks|, m);
    }
  }

  // ---------------------------------------------------------------- the text a range delimits

  /** The offsets of a range really delimit an opening fence, a body and a closing fence. */
  lemma RangeDelimits(text: string, d: Doc, i: nat)
    requires d.Valid() && d == DocOf(text) && Opener(d, i)
    ensures var r := RangeOf(d, i);
      r.from < r.bodyFrom <= r.bodyTo <= r.to <= |text|
      && (r.closed ==> IsBareColonLine(text[r.bodyTo..r.to]) && text[r.bodyTo - 1] == '\n')
      && (!r.closed ==> r.bodyTo == r.to == |text|)
      && exists e :: r.from <= e <= r.bodyFrom <= e + 1 && ParseDirectiveOpen(text[r.from..e]) == Some(r.open)
  {
    hide LineStart, Depth, OpensAt, CloseLine, Run, Split, ParseDirectiveOpen, IsBareColonLine, RangesFrom;
    var c := CloseLine(d.marks, None, i);
    OpensAreMarked(d, i);
    OpeningDelimits(text, i);
    StartStep(d, i);
    if c < |d.lines| {
      CloseLineCloses(d.marks, None, i);
      ClosesAreMarked(d, c);
      LineSlice(text, c);
      Classified(Lines(text)[c]);
      LineStartMonotone(Lines(text), 0, i + 1);
      LineStartMonotone(Lines(text), i + 1, c);
      NewlineBefore(text, c);
    }
  }

  lemma OpensAreMarked(d: Doc, i: nat)
    requires d.Valid() && Opener(d, i)
    ensures d.marks[i].Open?
  {
  }

  lemma ClosesAreMarked(d: Doc, c: nat)
    requires d.Valid() && c < |d.marks| && ClosesAt(d.marks, None, c)
    ensures d.marks[c] == Close
  {
  }

  lemma OpeningDelimits(text: string, i: nat)
    requires i < |Lines(text)| && Classify(Lines(text)[i]).Open?
    ensures LineStart(Lines(text), |Lines(text)|) == |text| + 1
    ensures var line, from := Lines(text)[i], LineStart(Lines(text), i);
      line != "" && from + |line| <= |text| && ParseDirectiveOpen(text[from..from + |line|]) == Some(Classify(line).open)
  {
    hide LineStart, Run, Split, Lines;
    TextLength(text);
    LineSlice(text, i);
    Classified(Lines(text)[i]);
  }

  // ---------------------------------------------------------------- the recursive grammar

  /** A document as nested blocks; lines are given by their numbers. */
  datatype Block = Line(line: nat) | Div(open: nat, body: seq<Block>, close: nat)

  /** Recursive descent: a directive's body runs to the next unmatched closing fence; outside every
      directive a bare colon line is plain content. A missing closing fence reads as the line count. */
  function ParseBlocks(marks: seq<Mark>, k: nat, inside: bool): (r: (seq<Block>, nat))
    requires k <= |marks|
    ensures k <= r.1 <= |marks|
    decreases |marks| - k
  {
    if k == |marks| then ([], k)
    else match marks[k]
      case Close =>
        if inside then ([], k)
        else
          var (rest, e) := ParseBlocks(marks, k + 1, inside);
          ([Line(k)] + rest, e)
      case Content =>
        var (rest, e) := ParseBlocks(marks, k + 1, inside);
        ([Line(k)] + rest, e)
      case Open(_) =>
        var (body, c) := ParseBlocks(marks, k + 1, true);
        var (rest, e) := ParseBlocks(marks, if c < |marks| then c + 1 else c, inside);
        ([Div(k, body, c)] + rest, e)
  }

  datatype Entry = Entry(open: nat, close: nat, depth: nat)

  /** The directives of a block list in document order, each before the ones inside it. */
  function Outline(blocks: seq<Block>, depth: nat): seq<Entry> {
    if blocks == [] then []
    else
      (match blocks[0]
       case Line(_) => []
       case Div(open, body, close) => [Entry(open, close, depth)] + Outline(body, depth + 1))
      + Outline(blocks[1..], depth)
  }

  function EntryAt(marks: seq<Mark>, i: nat): Entry
    requires i < |marks|
  { Entry(i, CloseLine(marks, None, i), Depth(marks, None, i)) }

  /** The same list read off the depth profile. */
  function Profile(marks: seq<Mark>, a: nat, b: nat): seq<Entry>
    requires a <= b <= |marks|
    decreases b - a
  {
    if a == b then []
    else (if OpensAt(marks, None, a) then [EntryAt(marks, a)] else []) + Profile(marks, a + 1, b)
  }

  lemma {:induction false} ProfileSplits(marks: seq<Mark>, a: nat, b: nat, c: nat)
    requires a <= b <= c <= |marks|
    ensures Profile(marks, a, c) == Profile(marks, a, b) + Profile(marks, b, c)
    decreases b - a
  {
    if a < b { ProfileSplits(marks, a + 1, b, c); }
  }

  lemma {:induction false} ReturnSkips(marks: seq<Mark>, d: nat, j: nat, m: nat)
    requires j <= m <= |marks|
    requires forall x :: j < x <= m ==> Depth(marks, None, x) > d
    ensures FirstReturn(marks, None, d, j) == FirstReturn(marks, None, d, m)
    decreases m - j
  {
    if j < m { ReturnSkips(marks, d, j + 1, m); }
  }

  /** Where the directive around line `k` ends; the line count outside every directive. */
  function StopOf(marks: seq<Mark>, k: nat): (e: nat)
    requires k <= |marks|
    ensures k <= e <= |marks|
  {
    if Depth(marks, None, k) > 0 then FirstReturn(marks, None, Depth(marks, None, k) - 1, k) else |marks|
  }

  /** From line `k` the grammar consumes exactly up to the end of the enclosing directive, and finds
      the directives of the profile. */
  ghost predicate Follows(marks: seq<Mark>, k: nat)
    requires k <= |marks|
  {
    var depth := Depth(marks, None, k);
    var (blocks, e) := ParseBlocks(marks, k, depth > 0);
    e == StopOf(marks, k) && Outline(blocks, depth) == Profile(marks, k, e)
  }

  lemma {:induction false} GrammarFollowsProfile(marks: seq<Mark>, k: nat)
    requires k <= |marks|
    ensures Follows(marks, k)
    decreases |marks| - k
  {
    if k == |marks| {
    } else if ClosesAt(marks, None, k) {
      DepthStep(marks, None, k);
    } else {
      GrammarFollowsProfile(marks, k + 1);
      if OpensAt(marks, None, k) {
        var c := CloseLine(marks, None, k);
        GrammarFollowsProfile(marks, if c < |marks| then c + 1 else c);
        DivFollowsProfile(marks, k);
      } else {
        PlainFollowsProfile(marks, k);
      }
    }
  }

  lemma PlainFollowsProfile(marks: seq<Mark>, k: nat)
    requires k < |marks| && !OpensAt(marks, None, k) && !ClosesAt(marks, None, k) && Follows(marks, k + 1)
    ensures Follows(marks, k)
  {
    var depth := Depth(marks, None, k);
    DepthStep(marks, None, k);
    hide Depth, CloseLine;
    if depth > 0 { ReturnSkips(marks, depth - 1, k, k + 1); }
    var rest := ParseBlocks(marks, k + 1, depth > 0).0;
    assert ([Line(k)] + rest)[1..] == rest;
  }

  lemma DivFollowsProfile(marks: seq<Mark>, k: nat)
    requires k < |marks| && OpensAt(marks, None, k)
    requires Follows(marks, k + 1)
    requires var c := CloseLine(marks, None, k); Follows(marks, if c < |marks| then c + 1 else c)
    ensures Follows(marks, k)
  {
    var depth, c := Depth(marks, None, k), CloseLine(marks, None, k);
    var next := if c < |marks| then c + 1 else c;
    DepthStep(marks, None, k);
    var body := ParseBlocks(marks, k + 1, true).0;
    assert StopOf(marks, k + 1) == c;
    var (rest, e) := ParseBlocks(marks, next, depth > 0);
    ParsesDiv(marks, k, depth > 0);
    NextStop(marks, k);
    hide Depth, CloseLine, FirstReturn, Outline, ParseBlocks, StopOf, Profile;
    ProfileOfDiv(marks, k, e);
    OutlineOfDiv(k, body, c, rest, depth);
  }

  lemma ParsesDiv(marks: seq<Mark>, k: nat, inside: bool)
    requires k < |marks| && marks[k].Open?
    ensures var (body, c) := ParseBlocks(marks, k + 1, true);
      var (rest, e) := ParseBlocks(marks, if c < |marks| then c + 1 else c, inside);
      ParseBlocks(marks, k, inside) == ([Div(k, body, c)] + rest, e)
  {
  }

  /** After a nested directive, parsing resumes at the depth it started from and stops at the same line. */
  lemma NextStop(marks: seq<Mark>, k: nat)
    requires k < |marks| && OpensAt(marks, None, k)
    ensures var c := CloseLine(marks, None, k);
      if c < |marks| then
        Depth(marks, None, c + 1) == Depth(marks, None, k) && StopOf(marks, k) == StopOf(marks, c + 1) > c
      else StopOf(marks, k) == |marks|
  {
    var depth, c := Depth(marks, None, k), CloseLine(marks, None, k);
    var next := if c < |marks| then c + 1 else c;
    BodyStaysDeep(marks, k);
    CloseLineCloses(marks, None, k);
    hide Depth, CloseLine;
    if depth > 0 { ReturnSkips(marks, depth - 1, k, next); }
  }

  lemma BodyStaysDeep(marks: seq<Mark>, k: nat)
    requires k < |marks| && OpensAt(marks, None, k)
    ensures var c := CloseLine(marks, None, k);
      forall x :: k < x <= (if c < |marks| then c + 1 else c) ==> Depth(marks, None, x) >= Depth(marks, None, k)
  {
    CloseLineCloses(marks, None, k);
    assert Depth(marks, None, k + 1) == Depth(marks, None, k) + 1;
  }

  lemma OutlineOfDiv(k: nat, body: seq<Block>, c: nat, rest: seq<Block>, depth: nat)
    ensures Outline([Div(k, body, c)] + rest, depth)
         == [Entry(k, c, depth)] + Outline(body, depth + 1) + Outline(rest, depth)
  {
    var blocks := [Div(k, body, c)] + rest;
    assert blocks[1..] == rest;
  }

  lemma ProfileOfDiv(marks: seq<Mark>, k: nat, e: nat)
    requires k < |marks| && OpensAt(marks, None, k)
    requires CloseLine(marks, None, k) <= e <= |marks|
    requires CloseLine(marks, None, k) < |marks| ==> CloseLine(marks, None, k) < e
    ensures var c := CloseLine(marks, None, k);
      Profile(marks, k, e) == [EntryAt(marks, k)] + Profile(marks, k + 1, c)
                              + Profile(marks, if c < |marks| then c + 1 else c, e)
  {
    hide Depth, FirstReturn, CloseLine;
    var c := CloseLine(marks, None, k);
    ProfileSplits(marks, k + 1, c, e);
    if c < |marks| {
      CloseLineCloses(marks, None, k);
      ProfileSplits(marks, c, c + 1, e);
    }
  }

  /** The range of one outline entry. */
  function RangeOfEntry(d: Doc, x: Entry): Resolved
    requires d.Valid() && x.open < |d.lines| && d.marks[x.open].Open? && x.close <= |d.lines|
  {
    var closed := x.close < |d.lines|;
    Resolved(d.Start(x.open),
             if closed then d.Start(x.close) + |d.lines[x.close]| else d.End(),
             Min(d.Start(x.open + 1), d.End()),
             if closed then d.Start(x.close) else d.End(),
             d.marks[x.open].open, x.depth, closed)
  }

  /** The entry at position `n` of an outline gives the range at position `n`. */
  predicate Matches(d: Doc, outline: seq<Entry>, ranges: seq<Resolved>)
    requires d.Valid()
  {
    |outline| == |ranges|
    && forall n :: 0 <= n < |outline| ==>
         var x := outline[n];
         x.open < |d.lines| && d.marks[x.open].Open? && x.close <= |d.lines|
         && ranges[n] == RangeOfEntry(d, x)
  }

  lemma {:induction false} ProfileMatches(d: Doc, i: nat)
    requires d.Valid() && i <= |d.lines|
    ensures Matches(d, Profile(d.marks, i, |d.marks|), RangesFrom(d, i))
    decreases |d.lines| - i
  {
    if i < |d.lines| { ProfileMatches(d, i + 1); }
  }

  /** For every text, the resolver's ranges are those of the recursively parsed document, in order. */
  lemma ResolverIsGrammar(text: string)
    ensures var d := DocOf(text);
      Matches(d, Outline(ParseBlocks(d.marks, 0, false).0, 0), Ranges(text))
  {
    var d := DocOf(text);
    GrammarFollowsProfile(d.marks, 0);
    ProfileMatches(d, 0);
  }
}
