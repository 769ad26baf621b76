/** How the layout parser's items relate to the body text and to the resolver's ranges. */
module LayoutLaws {
  import opened Text
  import opened DirectiveSyntax
  import opened DirectiveNesting
  import opened DirectiveResolver
  import opened LayoutItems

  // ---------------------------------------------------------------- the source anchor

  lemma TrimIsInfix(s: string)
    ensures Run(s, IsNewline) + |TrimNewlines(s)| <= |s|
    ensures TrimNewlines(s) == s[Run(s, IsNewline)..Run(s, IsNewline) + |TrimNewlines(s)|]
  {
    hide Run, DropEnd;
  }

  /** The non-empty content of an item is the slice of the body that starts at `contentOffset`. */
  lemma ContentIsSlice(body: string, name: string, m: nat)
    requires m < |Items(body, name)|
    ensures var x := Items(body, name)[m];
      x.content != "" ==>
        x.contentOffset + |x.content| <= |body|
        && body[x.contentOffset..x.contentOffset + |x.content|] == x.content
  {
    var d := DocOf(body);
    hide TopLines, Depth, Finish, DraftAt, OpensAt;
    DraftIsSlice(body, name, TopLines(d, Some(name), |d.lines|)[m]);
  }

  lemma DraftIsSlice(body: string, name: string, i: nat)
    requires var d := DocOf(body); i < |d.lines| && TopOpener(d, Some(name), i)
    ensures var d := DocOf(body);
      var x := Finish(DraftAt(d, name, i, |d.lines|));
      x.content != "" ==>
        x.contentOffset + |x.content| <= |body|
        && body[x.contentOffset..x.contentOffset + |x.content|] == x.content
  {
    hide CloseLine, LineStart, Join, Depth, TrimNewlines, Run, OpensAt, Lines, MarksOf, DocOf;
    var d := DocOf(body);
    DocLines(body);
    var c := CloseLine(d.marks, Some(name), i);
    var joined := Join(d.lines[i + 1..c], '\n');
    if i + 1 < c {
      JoinIsSlice(d.lines, i + 1, c);
      TrimOfSlice(body, LineStart(d.lines, i + 1), LineStart(d.lines, c) - 1);
    } else {
      EmptyJoin(d.lines[i + 1..c]);
    }
  }

  lemma TrimOfSlice(body: string, a: nat, b: nat)
    requires a <= b <= |body|
    ensures var from, content := a + Run(body[a..b], IsNewline), TrimNewlines(body[a..b]);
      from + |content| <= |body| && body[from..from + |content|] == content
  {
    hide Run, TrimNewlines;
    TrimIsInfix(body[a..b]);
    SliceOfSlice(body, a, b, Run(body[a..b], IsNewline), |TrimNewlines(body[a..b])|);
  }

  lemma SliceOfSlice(s: string, a: nat, b: nat, r: nat, l: nat)
    requires a <= b <= |s| && r + l <= b - a
    ensures s[a..b][r..r + l] == s[a + r..a + r + l]
  {
    var x, y := s[a..b][r..r + l], s[a + r..a + r + l];
    assert |x| == |y|;
    forall k | 0 <= k < l ensures x[k] == y[k] {
      assert x[k] == s[a..b][r + k] == s[a + (r + k)];
    }
  }

  lemma EmptyJoin(lines: seq<string>)
    requires lines == []
    ensures TrimNewlines(Join(lines, '\n')) == ""
  {
  }

  // ---------------------------------------------------------------- agreement with the resolver

  /** Every directive at the top level of the body carries `name`. */
  predicate AllNamed(d: Doc, name: string)
    requires d.Valid()
  { forall i :: 0 <= i < |d.marks| && TopOpener(d, None, i) ==> d.marks[i].open.name == name }

  lemma DepthsAgree(d: Doc, name: string, k: nat)
    requires d.Valid() && AllNamed(d, name) && k <= |d.marks|
    ensures Depth(d.marks, Some(name), k) == Depth(d.marks, None, k)
  {
    hide Depth;
    ProfilesAgree(d.marks, name, k);
  }

  lemma {:induction false} ReturnsAgree(d: Doc, name: string, depth: nat, j: nat)
    requires d.Valid() && AllNamed(d, name) && j <= |d.marks|
    ensures FirstReturn(d.marks, Some(name), depth, j) == FirstReturn(d.marks, None, depth, j)
    decreases |d.marks| - j
  {
    hide Depth;
    if j < |d.marks| {
      DepthsAgree(d, name, j + 1);
      ReturnsAgree(d, name, depth, j + 1);
    }
  }

  lemma {:induction false} TopLinesAgree(d: Doc, name: string, k: nat)
    requires d.Valid() && AllNamed(d, name) && k <= |d.marks|
    ensures TopLines(d, Some(name), k) == TopLines(d, None, k)
  {
    hide Depth;
    if k > 0 {
      DepthsAgree(d, name, k - 1);
      TopLinesAgree(d, name, k - 1);
      assert TopOpener(d, None, k - 1) ==> d.marks[k - 1].open.name == name;
    }
  }

  /** The two parsers pick the same top-level directives exactly when all of them carry the name. */
  lemma SameTopLevel(d: Doc, name: string)
    requires d.Valid()
    ensures TopLines(d, Some(name), |d.lines|) == TopLines(d, None, |d.lines|) <==> AllNamed(d, name)
  {
    if AllNamed(d, name) {
      TopLinesAgree(d, name, |d.lines|);
    } else {
      hide Depth;
      var i :| 0 <= i < |d.marks| && TopOpener(d, None, i) && d.marks[i].open.name != name;
      assert i in TopLines(d, None, |d.lines|) && !TopOpener(d, Some(name), i);
    }
  }

  /** A fence of another name around one of the wanted name: the inner one is nested for the resolver and, the
      outer one not being wanted, at the top level for the layout parser. */
  lemma NestedIsTopLevel(a: string, b: string, c: string, name: string)
    requires '\n' !in a && '\n' !in b && '\n' !in c
    requires Classify(a).Open? && Classify(a).open.name != name
    requires Classify(b).Open? && Classify(b).open.name == name && Classify(c).Close?
    ensures var d := DocOf(a + "\n" + b + "\n" + c + "\n" + c);
      |d.lines| == 4 && TopLines(d, None, 4) == [0] && TopLines(d, Some(name), 4) == [1]
  {
    hide Split, Classify, Join, TopLines;
    var lines := [a, b, c, c];
    JoinOfFour(a, b, c, c);
    SplitJoin(lines, '\n');
    var d := DocOf(a + "\n" + b + "\n" + c + "\n" + c);
    assert d.lines == lines;
    assert forall k :: 0 <= k < 4 ==> d.marks[k] == Classify(lines[k]);
    FourDepths(d, name);
  }

  /** A body on which the two parsers disagree, asked for its tabs. */
  lemma NestedTabIsTopLevel()
    ensures var d := DocOf(":::card" + "\n" + ":::tab" + "\n" + ":::" + "\n" + ":::");
      |d.lines| == 4 && TopLines(d, None, 4) == [0] && TopLines(d, Some("tab"), 4) == [1]
  {
    hide DocOf, TopLines, Classify;
    FenceOpens(":::card", "card");
    FenceOpens(":::tab", "tab");
    ThreeColonsClose();
    NestedIsTopLevel(":::card", ":::tab", ":::", "tab");
  }

  lemma JoinOfFour(a: string, b: string, c: string, e: string)
    ensures Join([a, b, c, e], '\n') == a + "\n" + b + "\n" + c + "\n" + e
  {
    assert [c, e][1..] == [e] && [b, c, e][1..] == [c, e] && [a, b, c, e][1..] == [b, c, e];
    assert Join([c, e], '\n') == c + "\n" + e;
    assert Join([b, c, e], '\n') == b + "\n" + (c + "\n" + e);
    assert Join([a, b, c, e], '\n') == a + "\n" + (b + "\n" + (c + "\n" + e));
  }

  lemma FenceOpens(line: string, name: string)
    requires line == ":::" + name && name != "" && IsLetter(name[0]) && forall i :: 0 <= i < |name| ==> IsWordDash(name[i])
    ensures Classify(line).Open? && Classify(line).open.name == name
  {
    RunOver(":::", name, IsColon);
    RunOver(name, "", IsWordDash);
    assert line[3..] == name && name + "" == name;
    RunOver("", name, IsBlank);
    assert "" + name == name;
    assert DropStart(name, IsBlank) == name;
    hide Run;
    assert name[..|name|] == name;
  }

  lemma ThreeColonsClose()
    ensures Classify(":::").Close?
  {
    RunOver(":::", "", IsColon);
    assert ":::" + "" == ":::";
  }

  lemma FourDepths(d: Doc, name: string)
    requires |d.lines| == |d.marks| == 4
    requires d.marks[0].Open? && d.marks[0].open.name != name && d.marks[1].Open? && d.marks[1].open.name == name
    requires d.marks[2].Close? && d.marks[3].Close?
    ensures TopLines(d, None, 4) == [0] && TopLines(d, Some(name), 4) == [1]
  {
    forall only | only == None || only == Some(name)
      ensures Depth(d.marks, only, 1) == (if only == None then 1 else 0)
      ensures Depth(d.marks, only, 2) == (if only == None then 2 else 1)
      ensures Depth(d.marks, only, 3) == (if only == None then 1 else 0)
    {
      DepthStep(d.marks, only, 0);
      DepthStep(d.marks, only, 1);
      DepthStep(d.marks, only, 2);
    }
    hide Depth;
    TopStep(d, None);
    TopStep(d, Some(name));
  }

  lemma TopStep(d: Doc, only: Option<string>)
    requires |d.lines| == |d.marks| == 4
    ensures TopLines(d, only, 4) == One(d, only, 0) + One(d, only, 1) + One(d, only, 2) + One(d, only, 3)
  {
    hide TopOpener;
    assert TopLines(d, only, 0) == [];
    assert TopLines(d, only, 1) == TopLines(d, only, 0) + One(d, only, 0);
    assert TopLines(d, only, 2) == TopLines(d, only, 1) + One(d, only, 1);
    assert TopLines(d, only, 3) == TopLines(d, only, 2) + One(d, only, 2);
  }

  function One(d: Doc, only: Option<string>, i: nat): seq<nat>
    requires d.Valid()
  { if TopOpener(d, only, i) then [i] else [] }

  /** An item carries a range's caption and, newline-trimmed, its body. */
  predicate ItemMatches(body: string, x: Item, r: Resolved) {
    r.bodyFrom <= r.bodyTo <= |body|
    && x.caption == r.open.caption
    && x.content == TrimNewlines(body[r.bodyFrom..r.bodyTo])
    && (x.content != "" ==> x.contentOffset == r.bodyFrom + Run(body[r.bodyFrom..r.bodyTo], IsNewline))
  }

  lemma TrailingNewline(s: string)
    ensures TrimNewlines(s + "\n") == TrimNewlines(s)
    ensures TrimNewlines(s) != "" ==> Run(s + "\n", IsNewline) == Run(s, IsNewline)
  {
    if Run(s, IsNewline) == |s| {
      hide Run, TrimNewlines;
      AllNewlines(s);
      AllNewlines(s + "\n");
    } else {
      LeadingRun(s);
      DropEndNewline(s[Run(s, IsNewline)..]);
    }
  }

  lemma LeadingRun(s: string)
    requires Run(s, IsNewline) < |s|
    ensures Run(s + "\n", IsNewline) == Run(s, IsNewline)
    ensures DropStart(s + "\n", IsNewline) == DropStart(s, IsNewline) + "\n"
  {
    hide Run, IsNewline;
    var r := Run(s, IsNewline);
    var head, tail := s[..r], s[r..];
    assert s == head + tail;
    assert forall k :: 0 <= k < r ==> head[k] == s[k];
    assert tail[0] == s[r] == (tail + "\n")[0];
    Assoc(head, tail, "\n");
    RunOver(head, tail + "\n", IsNewline);
  }

  lemma AllNewlines(s: string)
    requires forall k :: 0 <= k < |s| ==> IsNewline(s[k])
    ensures Run(s, IsNewline) == |s| && TrimNewlines(s) == ""
  {
    hide Run;
  }

  lemma DropEndNewline(t: string)
    ensures DropEnd(t + "\n", IsNewline) == DropEnd(t, IsNewline)
  {
    assert (t + "\n")[..|t|] == t;
  }

  /** The text of a directive's body, from the lines between its fences. */
  lemma BodyText(body: string, i: nat, c: nat)
    requires i < c <= |Lines(body)|
    ensures var lines := Lines(body);
      var from := Min(LineStart(lines, i + 1), |body|);
      var to := if c < |lines| then LineStart(lines, c) else |body|;
      from <= to <= |body|
      && (if i + 1 == c then body[from..to] == ""
          else from == LineStart(lines, i + 1)
               && body[from..to] == Join(lines[i + 1..c], '\n') + if c < |lines| then "\n" else "")
  {
    var lines := Lines(body);
    TextLength(body);
    hide LineStart, Split, Join, Lines;
    LineStartMonotone(lines, i + 1, c);
    LineStartMonotone(lines, c, |lines|);
    if c < |lines| { NewlineBefore(body, c); }
    if i + 1 < c {
      JoinIsSlice(lines, i + 1, c);
      LineStartMonotone(lines, i + 1, |lines|);
    } else if c < |lines| {
      LineStartMonotone(lines, c, |lines|);
    }
  }

  lemma ItemMatchesRange(body: string, name: string, i: nat)
    requires var d := DocOf(body);
      AllNamed(d, name) && i < |d.lines| && TopOpener(d, Some(name), i) && Opener(d, i)
    ensures var d := DocOf(body);
      ItemMatches(body, Finish(DraftAt(d, name, i, |d.lines|)), RangeOf(d, i))
  {
    hide CloseLine, LineStart, Join, Depth, Run, OpensAt, TrimNewlines, Lines, MarksOf, Classify, DocOf;
    var d := DocOf(body);
    DocLines(body);
    var c := CloseLine(d.marks, None, i);
    ClosersAgree(d, name, i);
    TextLength(body);
    BodyText(body, i, c);
    BodyTrims(d.lines[i + 1..c], c < |d.lines|);
    var r := RangeOf(d, i);
    assert body[r.bodyFrom..r.bodyTo] ==
      if d.lines[i + 1..c] == [] then "" else Join(d.lines[i + 1..c], '\n') + if c < |d.lines| then "\n" else "";
    var x := Finish(DraftAt(d, name, i, |d.lines|));
    assert x.caption == r.open.caption;
    assert x.content == TrimNewlines(body[r.bodyFrom..r.bodyTo]);
    if d.lines[i + 1..c] == [] { EmptyJoin([]); }
    assert x.content != "" ==> x.contentOffset == r.bodyFrom + Run(body[r.bodyFrom..r.bodyTo], IsNewline);
  }

  lemma DocLines(body: string)
    ensures DocOf(body).lines == Lines(body)
  {
  }

  lemma BodyTrims(lines: seq<string>, closed: bool)
    ensures var joined := Join(lines, '\n');
      var text := if lines == [] then "" else joined + if closed then "\n" else "";
      TrimNewlines(text) == TrimNewlines(joined)
      && (TrimNewlines(joined) != "" ==> Run(text, IsNewline) == Run(joined, IsNewline))
  {
    hide Run, TrimNewlines;
    TrailingNewline(Join(lines, '\n'));
    assert Join(lines, '\n') + "" == Join(lines, '\n');
  }

  lemma ClosersAgree(d: Doc, name: string, i: nat)
    requires d.Valid() && AllNamed(d, name) && i < |d.marks|
    ensures CloseLine(d.marks, Some(name), i) == CloseLine(d.marks, None, i)
  {
    hide Depth, FirstReturn;
    DepthsAgree(d, name, i);
    ReturnsAgree(d, name, Depth(d.marks, None, i), i + 1);
  }

  /** The resolver's depth-0 ranges, in order. */
  function TopRanges(rs: seq<Resolved>): seq<Resolved> {
    if rs == [] then []
    else (if rs[0].depth == 0 then [rs[0]] else []) + TopRanges(rs[1..])
  }

  lemma {:induction false} TopRangesAppend(a: seq<Resolved>, b: seq<Resolved>)
    ensures TopRanges(a + b) == TopRanges(a) + TopRanges(b)
  {
    if a == [] {
      assert a + b == b;
    } else {
      var one := if a[0].depth == 0 then [a[0]] else [];
      assert (a + b)[0] == a[0] && (a + b)[1..] == a[1..] + b;
      TopRangesAppend(a[1..], b);
      assert one + (TopRanges(a[1..]) + TopRanges(b)) == (one + TopRanges(a[1..])) + TopRanges(b);
    }
  }

  /** The resolver's ranges for the openings before line `k`. */
  function RangesTo(d: Doc, k: nat): seq<Resolved>
    requires d.Valid() && k <= |d.lines|
  {
    if k == 0 then [] else RangesTo(d, k - 1) + if Opener(d, k - 1) then [RangeOf(d, k - 1)] else []
  }

  lemma {:induction false} RangesToAll(d: Doc, k: nat)
    requires d.Valid() && k <= |d.lines|
    ensures RangesTo(d, k) + RangesFrom(d, k) == RangesFrom(d, 0)
  {
    hide Depth, CloseLine, LineStart;
    if k > 0 { RangesToAll(d, k - 1); }
  }

  lemma {:induction false} TopRangesAreTopLines(d: Doc, k: nat)
    requires d.Valid() && k <= |d.lines|
    ensures var top := TopLines(d, None, k);
      |TopRanges(RangesTo(d, k))| == |top|
      && forall m :: 0 <= m < |top| ==> Opener(d, top[m]) && TopRanges(RangesTo(d, k))[m] == RangeOf(d, top[m])
  {
    hide Depth, CloseLine, LineStart;
    if k > 0 {
      TopRangesAreTopLines(d, k - 1);
      var last := if Opener(d, k - 1) then [RangeOf(d, k - 1)] else [];
      TopRangesAppend(RangesTo(d, k - 1), last);
    }
  }

  /** When every top-level directive of a body carries the wanted name, the items are exactly the
      resolver's depth-0 ranges, newline-trimmed, in order. */
  lemma ItemsAreTopRanges(body: string, d: Doc, name: string)
    requires d.Valid() && d == DocOf(body) && AllNamed(d, name)
    ensures var items, top := Items(body, name), TopRanges(Ranges(body));
      |items| == |top| && forall m :: 0 <= m < |items| ==> ItemMatches(body, items[m], top[m])
  {
    var n := |d.lines|;
    hide Depth, CloseLine, LineStart, ItemMatches, OpensAt;
    RangesToAll(d, n);
    assert Ranges(body) == RangesTo(d, n);
    TopRangesAreTopLines(d, n);
    TopLinesAgree(d, name, n);
    var top := TopLines(d, None, n);
    forall m | 0 <= m < |top|
      ensures ItemMatches(body, Items(body, name)[m], TopRanges(Ranges(body))[m])
    {
      ItemMatchesRange(body, name, top[m]);
    }
  }
}
