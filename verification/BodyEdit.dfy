/** Body edits by heading: append a block, or replace one heading's section with new markdown. */
module BodyEdit {
  import opened Text

  datatype Hit = Hit(index: nat, level: nat, text: string)

  datatype EditOp = Append(content: string) | ReplaceSection(heading: string, content: string)

  datatype EditError = ContentEmpty | HeadingRequired | SectionNotFound

  /** One deletion and one insertion at the same place. */
  datatype Plan = Plan(from: nat, deleteCount: nat, insert: string)

  datatype Outcome = Planned(plan: Plan) | Failed(error: EditError)

  predicate IsHash(c: char) { c == '#' }

  // ---------------------------------------------------------------- headings

  /** A line of one to six `#`, whitespace, and text the regular-expression dot can span. */
  function HeadingOf(line: string): Option<(nat, string)> {
    var h := Run(line, IsHash);
    var rest := line[h..];
    var title := DropStart(rest, IsSpace);
    if 1 <= h <= 6 && |title| < |rest| && forall k :: 0 <= k < |title| ==> !IsLineTerminator(title[k])
    then Some((h, Trim(title)))
    else None
  }

  /** The headings of some lines, the first of which starts at offset `off`. */
  function ScanLines(lines: seq<string>, off: nat): (hits: seq<Hit>)
  {
    if lines == [] then []
    else
      var h := HeadingOf(lines[0]);
      (if h.Some? then [Hit(off, h.value.0, h.value.1)] else []) + ScanLines(lines[1..], off + |lines[0]| + 1)
  }

  function Scan(text: string): seq<Hit> { ScanLines(Lines(text), 0) }

  method ScanHeadings(text: string) returns (hits: seq<Hit>)
    ensures hits == Scan(text)
  {
    hide HeadingOf, Split;
    var lines := Lines(text);
    hits := [];
    var offset: nat := 0;
    assert lines[0..] == lines;
    for k := 0 to |lines|
      invariant hits + ScanLines(lines[k..], offset) == Scan(text)
    {
      assert lines[k..][0] == lines[k] && lines[k..][1..] == lines[k + 1..];
      var h := HeadingOf(lines[k]);
      if h.Some? { hits := hits + [Hit(offset, h.value.0, h.value.1)]; }
      offset := offset + |lines[k]| + 1;
    }
    assert lines[|lines|..] == [] && ScanLines([], offset) == [] && hits + [] == hits;
  }

  // ---------------------------------------------------------------- planning

  /** Runs of whitespace become one blank. */
  function Collapse(s: string): string
    decreases |s|
  {
    if s == "" then ""
    else if IsSpace(s[0]) then [' '] + Collapse(s[Run(s, IsSpace)..])
    else [s[0]] + Collapse(s[1..])
  }

  /** `normHeading`; `lower` stands for JavaScript's `toLowerCase`. */
  function Norm(s: string, lower: string -> string): string { lower(Collapse(Trim(s))) }

  /** Index of the first heading whose normalised text is `target`, or the number of headings. */
  function FirstMatch(hits: seq<Hit>, target: string, lower: string -> string): (i: nat)
    ensures i <= |hits|
    ensures forall k :: 0 <= k < i ==> Norm(hits[k].text, lower) != target
    ensures i < |hits| ==> Norm(hits[i].text, lower) == target
  {
    if hits == [] || Norm(hits[0].text, lower) == target then 0 else 1 + FirstMatch(hits[1..], target, lower)
  }

  /** Index of the first heading from `i` on at `level` or above it in rank, or the number of headings. */
  function SectionEnd(hits: seq<Hit>, i: nat, level: nat): (e: nat)
    requires i <= |hits|
    ensures i <= e <= |hits|
    ensures forall k :: i <= k < e ==> hits[k].level > level
    ensures e < |hits| ==> hits[e].level <= level
    decreases |hits| - i
  {
    if i == |hits| || hits[i].level <= level then i else SectionEnd(hits, i + 1, level)
  }

  method PlanBodyEdit(current: string, op: EditOp, lower: string -> string) returns (r: Outcome)
    ensures r == PlanFor(current, op, lower)
  {
    hide Norm, Scan, TrimEnd, Trim, FirstMatch;
    match op {
      case Append(content) =>
        if Trim(content) == "" { return Failed(ContentEmpty); }
        var kept := |TrimEnd(current)|;
        return Planned(Plan(kept, |current| - kept, if kept == 0 then content else "\n\n" + content));
      case ReplaceSection(heading, content) =>
        var target := Norm(heading, lower);
        if target == "" { return Failed(HeadingRequired); }
        if Trim(content) == "" { return Failed(ContentEmpty); }
        var hits := ScanHeadings(current);
        var s := FindHeading(hits, target, lower);
        if s == |hits| { return Failed(SectionNotFound); }
        var e := s + 1;
        while e < |hits| && hits[e].level > hits[s].level
          invariant s < e <= |hits|
          invariant SectionEnd(hits, e, hits[s].level) == SectionEnd(hits, s + 1, hits[s].level)
        {
          e := e + 1;
        }
        HitsInText(current);
        var from, to := hits[s].index, if e < |hits| then hits[e].index else |current|;
        var insert := TrimEnd(content) + if e < |hits| then "\n\n" else "";
        return Planned(Plan(from, to - from, insert));
    }
  }

  method FindHeading(hits: seq<Hit>, target: string, lower: string -> string) returns (i: nat)
    ensures i == FirstMatch(hits, target, lower)
  {
    i := 0;
    assert hits[0..] == hits;
    while i < |hits| && Norm(hits[i].text, lower) != target
      invariant i <= |hits|
      invariant i + FirstMatch(hits[i..], target, lower) == FirstMatch(hits, target, lower)
    {
      assert hits[i..][0] == hits[i] && hits[i..][1..] == hits[i + 1..];
      i := i + 1;
    }
    if i < |hits| { assert hits[i..][0] == hits[i]; }
  }

  function PlanFor(current: string, op: EditOp, lower: string -> string): Outcome {
    match op
    case Append(content) =>
      if Trim(content) == "" then Failed(ContentEmpty)
      else
        var kept := |TrimEnd(current)|;
        Planned(Plan(kept, |current| - kept, if kept == 0 then content else "\n\n" + content))
    case ReplaceSection(heading, content) =>
      var target := Norm(heading, lower);
      var hits := Scan(current);
      var s := FirstMatch(hits, target, lower);
      if target == "" then Failed(HeadingRequired)
      else if Trim(content) == "" then Failed(ContentEmpty)
      else if s == |hits| then Failed(SectionNotFound)
      else Planned(SectionPlan(current, s, content))
  }

  /** Replace the section of heading `s`: up to the next heading at its level or above. */
  function SectionPlan(current: string, s: nat, content: string): Plan
    requires s < |Scan(current)|
  {
    HitsInText(current);
    var hits := Scan(current);
    var e := SectionEnd(hits, s + 1, hits[s].level);
    var from, to := hits[s].index, if e < |hits| then hits[e].index else |current|;
    Plan(from, to - from, TrimEnd(content) + if e < |hits| then "\n\n" else "")
  }

  /** The text after an edit. */
  function Edited(text: string, p: Plan): string
    requires p.from + p.deleteCount <= |text|
  { text[..p.from] + p.insert + text[p.from + p.deleteCount..] }

  // ---------------------------------------------------------------- offsets of headings

  lemma {:induction false} ScanLinesBounds(lines: seq<string>, off: nat)
    requires lines != []
    ensures forall k :: 0 <= k < |ScanLines(lines, off)| ==>
      off <= ScanLines(lines, off)[k].index <= off + |Join(lines, '\n')|
    ensures forall j, k :: 0 <= j < k < |ScanLines(lines, off)| ==>
      ScanLines(lines, off)[j].index < ScanLines(lines, off)[k].index
  {
    hide HeadingOf;
    if |lines| > 1 { ScanLinesBounds(lines[1..], off + |lines[0]| + 1); }
  }

  /** Headings are found in order, at offsets inside the text. */
  lemma HitsInText(text: string)
    ensures forall k :: 0 <= k < |Scan(text)| ==> Scan(text)[k].index <= |text|
    ensures forall j, k :: 0 <= j < k < |Scan(text)| ==> Scan(text)[j].index < Scan(text)[k].index
  {
    ScanLinesBounds(Lines(text), 0);
  }
}
