/** What an edit does to the headings of a document. */
module BodyEditLaws {
  import opened Text
  import opened BodyEdit

  function Shift(hits: seq<Hit>, n: nat): (r: seq<Hit>)
    ensures |r| == |hits|
    ensures forall k :: 0 <= k < |r| ==> r[k] == hits[k].(index := hits[k].index + n)
  {
    if hits == [] then [] else [hits[0].(index := hits[0].index + n)] + Shift(hits[1..], n)
  }

  // ---------------------------------------------------------------- scanning is line-wise

  lemma ShiftAppend(a: seq<Hit>, b: seq<Hit>, n: nat)
    ensures Shift(a + b, n) == Shift(a, n) + Shift(b, n)
  {
    hide Shift;
  }

  lemma ShiftTwice(a: seq<Hit>, m: nat, n: nat)
    ensures Shift(Shift(a, m), n) == Shift(a, m + n)
  {
    hide Shift;
  }

  lemma {:induction false} ScanLinesShift(lines: seq<string>, off: nat, n: nat)
    ensures ScanLines(lines, off + n) == Shift(ScanLines(lines, off), n)
  {
    hide HeadingOf, Shift;
    if lines == [] {
      assert ScanLines(lines, off) == [] == ScanLines(lines, off + n);
    } else {
      var h := HeadingOf(lines[0]);
      var next := off + |lines[0]| + 1;
      var first := if h.Some? then [Hit(off, h.value.0, h.value.1)] else [];
      ScanLinesShift(lines[1..], next, n);
      ShiftAppend(first, ScanLines(lines[1..], next), n);
      assert Shift(first, n) == if h.Some? then [Hit(off + n, h.value.0, h.value.1)] else [];
      assert off + n + |lines[0]| + 1 == next + n;
    }
  }

  lemma {:induction false} ScanLinesAppend(a: seq<string>, b: seq<string>, off: nat)
    requires a != []
    ensures ScanLines(a + b, off) == ScanLines(a, off) + ScanLines(b, off + |Join(a, '\n')| + 1)
  {
    hide HeadingOf, Join;
    var rest, next := a[1..], off + |a[0]| + 1;
    assert (a + b)[0] == a[0] && (a + b)[1..] == rest + b;
    JoinLength(a);
    if rest == [] {
      assert rest + b == b && ScanLines(rest, next) == [];
    } else {
      ScanLinesAppend(rest, b, next);
    }
  }

  lemma JoinLength(a: seq<string>)
    requires a != []
    ensures |Join(a, '\n')| == |a[0]| + if a[1..] == [] then 0 else 1 + |Join(a[1..], '\n')|
  {
  }

  /** The headings of two texts joined by a newline. */
  lemma ScanConcat(a: string, b: string)
    ensures Scan(a + "\n" + b) == Scan(a) + Shift(Scan(b), |a| + 1)
  {
    hide ScanLines, Lines, Shift;
    LinesAppend(a, b);
    ScanBoth(Lines(a), Lines(b), |a|);
  }

  lemma ScanBoth(x: seq<string>, y: seq<string>, n: nat)
    requires x != [] && n == |Join(x, '\n')|
    ensures ScanLines(x + y, 0) == ScanLines(x, 0) + Shift(ScanLines(y, 0), n + 1)
  {
    hide ScanLines, Join, Shift;
    ScanLinesAppend(x, y, 0);
    ScanLinesShift(y, 0, n + 1);
  }

  lemma ScanEmpty()
    ensures Scan("") == []
  {
  }

  lemma {:induction false} HitStartsLine(text: string, k: nat)
    requires k < |Scan(text)|
    ensures var i := Scan(text)[k].index; i == 0 || (i <= |text| && text[i - 1] == '\n')
    decreases |text|
  {
    HitsInText(text);
    var n := IndexOf(text, '\n');
    if n == |text| {
      OneLine(text);
      hide Scan;
    } else {
      hide Scan, IndexOf;
      var a, b := text[..n], text[n + 1..];
      assert text == a + "\n" + b;
      ScanConcat(a, b);
      OneLine(a);
      if k >= |Scan(a)| {
        var j := k - |Scan(a)|;
        HitsInText(b);
        HitStartsLine(b, j);
        var i := Scan(b)[j].index;
        assert Scan(text)[k].index == i + n + 1;
        assert i > 0 ==> b[i - 1] == text[n + i];
      }
    }
  }

  lemma OneLine(text: string)
    requires '\n' !in text
    ensures forall k :: 0 <= k < |Scan(text)| ==> Scan(text)[k].index == 0
  {
    hide HeadingOf, Split;
    JoinOne(text, '\n');
    SplitJoin([text], '\n');
    var ls := [text];
    assert Lines(text) == ls && ls[0] == text && ls[1..] == [];
    assert ScanLines(ls[1..], |text| + 1) == [];
    assert |ScanLines(ls, 0)| <= 1;
  }

  /** At a heading the document falls into the headings before it and those of the text from there on. */
  lemma SplitThere(text: string, i: nat)
    requires i < |Scan(text)|
    ensures var p := Scan(text)[i].index;
      p <= |text| && Scan(text)[i..] == Shift(Scan(text[p..]), p)
      && if p == 0 then i == 0 else Scan(text)[..i] == Scan(text[..p - 1]) && text[p - 1] == '\n'
  {
    hide Scan, Shift;
    HitsInText(text);
    HitStartsLine(text, i);
    var p := Scan(text)[i].index;
    if p == 0 {
      assert Scan(text)[0].index >= 0;
      assert text[0..] == text && Scan(text)[0..] == Scan(text);
      assert Shift(Scan(text), 0) == Scan(text);
    } else {
      var a, b := text[..p - 1], text[p..];
      assert text == a + "\n" + b;
      ScanConcat(a, b);
      HitsInText(a);
      assert forall k :: 0 <= k < |Scan(a)| ==> Scan(text)[k] == Scan(a)[k];
      assert forall k :: |Scan(a)| <= k < |Scan(text)| ==> Scan(text)[k] == Shift(Scan(b), p)[k - |Scan(a)|];
      assert |Scan(a)| <= i;
      assert Scan(text)[|Scan(a)|].index >= p;
      assert |Scan(a)| == i;
      assert Scan(text)[..i] == Scan(a) && Scan(text)[i..] == Shift(Scan(b), p);
    }
  }

  lemma PrefixScan(text: string, i: nat, x: string)
    requires i < |Scan(text)| && Scan(text)[i].index <= |text|
    ensures var p := Scan(text)[i].index; Scan(text[..p] + x) == Scan(text)[..i] + Shift(Scan(x), p)
  {
    hide Scan, Shift;
    SplitThere(text, i);
    var p := Scan(text)[i].index;
    if p == 0 {
      assert text[..p] + x == x && Scan(text)[..i] == [];
    } else {
      assert text[..p] + x == text[..p - 1] + "\n" + x;
      ScanConcat(text[..p - 1], x);
    }
  }

  // ---------------------------------------------------------------- replacing a section

  /** Headings moved from a text starting at `a` to the same text starting at `b`. */
  function Move(hits: seq<Hit>, a: nat, b: nat): (r: seq<Hit>)
    requires forall k :: 0 <= k < |hits| ==> a <= hits[k].index
    ensures |r| == |hits|
    ensures forall k :: 0 <= k < |r| ==> r[k] == hits[k].(index := hits[k].index - a + b)
  {
    if hits == [] then [] else [hits[0].(index := hits[0].index - a + b)] + Move(hits[1..], a, b)
  }

  lemma MoveOfShift(hits: seq<Hit>, a: nat, b: nat)
    ensures Move(Shift(hits, a), a, b) == Shift(hits, b)
  {
  }

  /** The heading after which the section of heading `s` ends, or the number of headings. */
  function EndOf(text: string, s: nat): (e: nat)
    requires s < |Scan(text)|
    ensures s < e <= |Scan(text)|
  { SectionEnd(Scan(text), s + 1, Scan(text)[s].level) }

  lemma InsertScan(body: string, after: string)
    ensures Scan(body + "\n\n" + after) == Scan(body) + Shift(Scan(after), |body| + 2)
  {
    hide Scan, Shift;
    BlankLine(after);
    ScanConcat(body, "\n" + after);
    ShiftTwice(Scan(after), 1, |body| + 1);
    TwoNewlines(body, after);
  }

  lemma TwoNewlines(body: string, after: string)
    ensures body + "\n\n" + after == body + "\n" + ("\n" + after)
  {
  }

  lemma BlankLine(after: string)
    ensures Scan("\n" + after) == Shift(Scan(after), 1)
  {
    hide Scan, Shift;
    ScanConcat("", after);
    ScanEmpty();
    assert "" + "\n" + after == "\n" + after;
    assert [] + Shift(Scan(after), 1) == Shift(Scan(after), 1);
  }

  /** After a replacement the headings are those before the section, those of the inserted text, and
      those after the section, each at its new offset. */
  lemma ReplaceKeepsHeadings(text: string, s: nat, content: string)
    requires s < |Scan(text)|
    ensures var hits, e, p := Scan(text), EndOf(text, s), SectionPlan(text, s, content);
      var to := p.from + p.deleteCount;
      to <= |text| && (forall k :: e <= k < |hits| ==> to <= hits[k].index)
      && Scan(Edited(text, p))
         == hits[..s] + Shift(Scan(TrimEnd(content)), p.from) + Move(hits[e..], to, p.from + |p.insert|)
  {
    hide Scan, TrimEnd, Shift, Move, SectionEnd;
    HitsInText(text);
    if EndOf(text, s) < |Scan(text)| {
      ReplaceBeforeNext(text, s, content);
    } else {
      ReplaceAtEnd(text, s, content);
    }
  }

  lemma ReplaceAtEnd(text: string, s: nat, content: string)
    requires s < |Scan(text)| && EndOf(text, s) == |Scan(text)|
    ensures var hits, e, p := Scan(text), EndOf(text, s), SectionPlan(text, s, content);
      p.from + p.deleteCount == |text|
      && Scan(Edited(text, p))
         == hits[..s] + Shift(Scan(TrimEnd(content)), p.from) + Move(hits[e..], |text|, p.from + |p.insert|)
  {
    hide Scan, TrimEnd, Shift, SectionEnd;
    HitsInText(text);
    var hits, p, body := Scan(text), SectionPlan(text, s, content), TrimEnd(content);
    PrefixScan(text, s, body);
    assert p.insert == body && text[|text|..] == "" && hits[|hits|..] == [];
    assert Edited(text, p) == text[..p.from] + body;
    assert Move([], |text|, p.from + |p.insert|) == [];
  }

  lemma ReplaceBeforeNext(text: string, s: nat, content: string)
    requires s < |Scan(text)| && EndOf(text, s) < |Scan(text)|
    ensures var hits, e, p := Scan(text), EndOf(text, s), SectionPlan(text, s, content);
      var to := p.from + p.deleteCount;
      to == hits[e].index && to <= |text| && (forall k :: e <= k < |hits| ==> to <= hits[k].index)
      && Scan(Edited(text, p))
         == hits[..s] + Shift(Scan(TrimEnd(content)), p.from) + Move(hits[e..], to, p.from + |p.insert|)
  {
    hide Scan, TrimEnd, Shift, Move, SectionEnd;
    HitsInText(text);
    var hits, e, p, body := Scan(text), EndOf(text, s), SectionPlan(text, s, content), TrimEnd(content);
    var to := p.from + p.deleteCount;
    var after := text[to..];
    SplitThere(text, e);
    MoveOfShift(Scan(after), to, p.from + |p.insert|);
    var x := body + "\n\n" + after;
    EditedIs(text, p, body, after);
    PrefixScan(text, s, x);
    InsertScan(body, after);
    ShiftAppend(Scan(body), Shift(Scan(after), |body| + 2), p.from);
    ShiftTwice(Scan(after), |body| + 2, p.from);
    AssocHits(hits[..s], Shift(Scan(body), p.from), Shift(Scan(after), |body| + 2 + p.from));
  }

  lemma EditedIs(text: string, p: Plan, body: string, after: string)
    requires p.from + p.deleteCount <= |text| && p.insert == body + "\n\n" && after == text[p.from + p.deleteCount..]
    ensures Edited(text, p) == text[..p.from] + (body + "\n\n" + after)
  {
    Assoc(text[..p.from], body + "\n\n", after);
  }

  lemma AssocHits(a: seq<Hit>, b: seq<Hit>, c: seq<Hit>)
    ensures a + (b + c) == a + b + c
  {
  }

  /** Everything outside the section stays as it was, at both ends. */
  lemma ReplaceKeepsRest(text: string, s: nat, content: string)
    requires s < |Scan(text)|
    ensures var hits, e, p := Scan(text), EndOf(text, s), SectionPlan(text, s, content);
      var to := if e < |hits| then hits[e].index else |text|;
      p.from == hits[s].index && p.from + p.deleteCount == to <= |text|
      && var out := Edited(text, p);
      text[..p.from] <= out && |text| - to <= |out| && out[|out| - (|text| - to)..] == text[to..]
  {
    hide Scan;
    HitsInText(text);
  }

  // ---------------------------------------------------------------- applying an edit twice

  /** Content that starts with the section's own heading, at its level, and holds only deeper ones. */
  predicate KeepsItsHeading(content: string, level: nat, target: string, lower: string -> string) {
    var hits := Scan(TrimEnd(content));
    hits != [] && hits[0].index == 0 && hits[0].level == level && Norm(hits[0].text, lower) == target
    && forall k :: 0 < k < |hits| ==> hits[k].level > level
  }

  lemma FirstMatchIs(hits: seq<Hit>, target: string, lower: string -> string, i: nat)
    requires i < |hits| && Norm(hits[i].text, lower) == target
    requires forall k :: 0 <= k < i ==> Norm(hits[k].text, lower) != target
    ensures FirstMatch(hits, target, lower) == i
  {
    hide Norm, FirstMatch;
  }

  lemma SectionEndIs(hits: seq<Hit>, i: nat, level: nat, e: nat)
    requires i <= e <= |hits|
    requires forall k :: i <= k < e ==> hits[k].level > level
    requires e < |hits| ==> hits[e].level <= level
    ensures SectionEnd(hits, i, level) == e
  {
    hide SectionEnd;
  }

  /** Applying such a replacement to its own result changes nothing. */
  lemma ReplaceIsIdempotent(text: string, heading: string, content: string, lower: string -> string)
    requires PlanFor(text, ReplaceSection(heading, content), lower).Planned?
    requires KeepsItsHeading(content, Scan(text)[FirstMatch(Scan(text), Norm(heading, lower), lower)].level,
                             Norm(heading, lower), lower)
    ensures var op := ReplaceSection(heading, content);
      var p := PlanFor(text, op, lower).plan;
      p.from + p.deleteCount <= |text|
      && var once := Edited(text, p);
         var q := PlanFor(once, op, lower);
         q.Planned? && q.plan.from + q.plan.deleteCount <= |once| && Edited(once, q.plan) == once
  {
    hide Scan, TrimEnd, Norm, Split, FirstMatch;
    var target, hits := Norm(heading, lower), Scan(text);
    var s := FirstMatch(hits, target, lower);
    var p := SectionPlan(text, s, content);
    ReplaceKeepsHeadings(text, s, content);
    var once, e := Edited(text, p), EndOf(text, s);
    HitsInText(text);
    AgainFinds(text, s, content, target, lower);
    var again := Scan(once);
    var q := SectionPlan(once, s, content);
    assert q.from == p.from && q.insert == p.insert && q.deleteCount == |p.insert|;
    assert once[..p.from] == text[..p.from];
    assert once[p.from..p.from + |p.insert|] == p.insert;
    assert Edited(once, q) == once;
  }

  /** In the edited text the same heading is the first match, and its section is the inserted text. */
  lemma AgainFinds(text: string, s: nat, content: string, target: string, lower: string -> string)
    requires s < |Scan(text)| && s == FirstMatch(Scan(text), target, lower)
    requires KeepsItsHeading(content, Scan(text)[s].level, target, lower)
    ensures var p := SectionPlan(text, s, content);
      p.from + p.deleteCount <= |text|
      && var once := Edited(text, p);
      FirstMatch(Scan(once), target, lower) == s < |Scan(once)|
      && SectionPlan(once, s, content) == Plan(p.from, |p.insert|, p.insert)
  {
    hide Scan, TrimEnd, Norm, FirstMatch, SectionEnd;
    ReplaceKeepsHeadings(text, s, content);
    HitsInText(text);
    var hits, e, p := Scan(text), EndOf(text, s), SectionPlan(text, s, content);
    var body, once := Scan(TrimEnd(content)), Edited(text, p);
    var again := Scan(once);
    HitsInText(once);
    assert again[s] == body[0].(index := p.from);
    FirstMatchIs(again, target, lower, s);
    var e' := s + |body|;
    forall k | s + 1 <= k < e' ensures again[k].level > hits[s].level {
      assert again[k] == body[k - s].(index := body[k - s].index + p.from);
    }
    if e < |hits| { assert again[e'] == hits[e].(index := p.from + |p.insert|); }
    SectionEndIs(again, s + 1, hits[s].level, e');
  }
}
