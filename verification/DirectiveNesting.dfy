/** How `:::` fences nest. One profile, the open-directive count before each line, defines which closing
    line ends which directive; the stack resolver and the layout parser are both proved against it. */
module DirectiveNesting {
  import opened Text
  import opened DirectiveSyntax

  /** The role one line plays in nesting. */
  datatype Mark = Open(open: Opening) | Close | Content

  function Classify(line: string): Mark {
    if IsBareColonLine(line) then Close
    else match ParseDirectiveOpen(line)
      case Some(open) => Open(open)
      case None => Content
  }

  lemma Classified(line: string)
    ensures Classify(line) ==
      if IsBareColonLine(line) then Close
      else if ParseDirectiveOpen(line).Some? then Open(ParseDirectiveOpen(line).value)
      else Content
    ensures IsBareColonLine(line) ==> ParseDirectiveOpen(line).None?
  {
    OpenIsNeverBare(line);
  }

  function MarksOf(lines: seq<string>): (marks: seq<Mark>)
    ensures |marks| == |lines|
    ensures forall k :: 0 <= k < |lines| ==> marks[k] == Classify(lines[k])
  { seq(|lines|, k requires 0 <= k < |lines| => Classify(lines[k])) }

  // `only` is the name filter: with `Some(name)`, an opening fence at the top level counts only when
  // it carries that name (the layout parser's rule); with `None` every opening fence counts.

  predicate Opens(mark: Mark, only: Option<string>, depth: nat) {
    mark.Open? && (depth > 0 || only.None? || mark.open.name == only.value)
  }

  predicate Closes(mark: Mark, depth: nat) { mark.Close? && depth > 0 }

  function NextDepth(mark: Mark, only: Option<string>, depth: nat): nat {
    if Opens(mark, only, depth) then depth + 1
    else if Closes(mark, depth) then depth - 1
    else depth
  }

  /** Number of directives open just before line `k`. */
  function Depth(marks: seq<Mark>, only: Option<string>, k: nat): nat
    requires k <= |marks|
  {
    if k == 0 then 0 else NextDepth(marks[k - 1], only, Depth(marks, only, k - 1))
  }

  predicate OpensAt(marks: seq<Mark>, only: Option<string>, k: nat)
    requires k < |marks|
  { Opens(marks[k], only, Depth(marks, only, k)) }

  predicate ClosesAt(marks: seq<Mark>, only: Option<string>, k: nat)
    requires k < |marks|
  { Closes(marks[k], Depth(marks, only, k)) }

  lemma DepthStep(marks: seq<Mark>, only: Option<string>, k: nat)
    requires k < |marks|
    ensures Depth(marks, only, k + 1) == NextDepth(marks[k], only, Depth(marks, only, k))
  {
  }

  /** The first line at or after `j` that brings the depth back to `d`; the line count if none does. */
  function FirstReturn(marks: seq<Mark>, only: Option<string>, d: nat, j: nat): (r: nat)
    requires j <= |marks|
    ensures j <= r <= |marks|
    ensures forall m :: j < m <= r ==> Depth(marks, only, m) > d
    ensures r < |marks| ==> Depth(marks, only, r + 1) <= d
    decreases |marks| - j
  {
    if j == |marks| || Depth(marks, only, j + 1) <= d then j
    else FirstReturn(marks, only, d, j + 1)
  }

  /** The line closing the directive opened at line `i`, or the line count when it runs to the end. */
  function CloseLine(marks: seq<Mark>, only: Option<string>, i: nat): (r: nat)
    requires i < |marks|
    ensures i < r <= |marks|
  { FirstReturn(marks, only, Depth(marks, only, i), i + 1) }

  /** A directive opened at `i` is closed by a closing fence found exactly one level deeper. */
  lemma CloseLineCloses(marks: seq<Mark>, only: Option<string>, i: nat)
    requires i < |marks| && OpensAt(marks, only, i)
    ensures var c := CloseLine(marks, only, i);
      c < |marks| ==>
        ClosesAt(marks, only, c)
        && Depth(marks, only, c) == Depth(marks, only, i) + 1
        && Depth(marks, only, c + 1) == Depth(marks, only, i)
  {
    hide Depth, FirstReturn;
    DepthStep(marks, only, i);
    var c := CloseLine(marks, only, i);
    if c < |marks| {
      assert Depth(marks, only, c) > Depth(marks, only, i);
      DepthStep(marks, only, c);
    }
  }

  // ---------------------------------------------------------------- the directives open at a line

  /** Opening lines of the directives open before line `k`, outermost first. */
  function OpenLines(marks: seq<Mark>, only: Option<string>, k: nat): (s: seq<nat>)
    requires k <= |marks|
    ensures |s| == Depth(marks, only, k)
    ensures forall d :: 0 <= d < |s| ==> s[d] < k
  {
    if k == 0 then []
    else
      var s := OpenLines(marks, only, k - 1);
      if Opens(marks[k - 1], only, |s|) then s + [k - 1]
      else if Closes(marks[k - 1], |s|) then s[..|s| - 1]
      else s
  }

  predicate StillOpen(marks: seq<Mark>, only: Option<string>, k: nat, i: nat)
    requires k <= |marks|
  {
    i < k && OpensAt(marks, only, i) && CloseLine(marks, only, i) >= k
  }

  lemma StillOpenStep(marks: seq<Mark>, only: Option<string>, k: nat, i: nat)
    requires i < k < |marks|
    ensures StillOpen(marks, only, k + 1, i) <==>
      StillOpen(marks, only, k, i) && Depth(marks, only, k + 1) > Depth(marks, only, i)
  {
    hide Depth, FirstReturn;
  }

  /** The `d`-th entry of the stack is a directive of depth `d` whose closing line is still to come. */
  lemma {:induction false} OpenLinesAreStillOpen(marks: seq<Mark>, only: Option<string>, k: nat, d: nat)
    requires k <= |marks| && d < Depth(marks, only, k)
    ensures var i := OpenLines(marks, only, k)[d];
      StillOpen(marks, only, k, i) && Depth(marks, only, i) == d
  {
    hide FirstReturn;
    var i := OpenLines(marks, only, k)[d];
    if i < k - 1 {
      assert i == OpenLines(marks, only, k - 1)[d];
      OpenLinesAreStillOpen(marks, only, k - 1, d);
      StillOpenStep(marks, only, k - 1, i);
    }
  }

  /** Every directive whose closing line is still to come is on the stack, at its own depth. */
  lemma {:induction false} StillOpenIsOnStack(marks: seq<Mark>, only: Option<string>, k: nat, i: nat)
    requires k <= |marks| && StillOpen(marks, only, k, i)
    ensures Depth(marks, only, i) < Depth(marks, only, k)
    ensures OpenLines(marks, only, k)[Depth(marks, only, i)] == i
  {
    hide FirstReturn;
    if i < k - 1 {
      StillOpenStep(marks, only, k - 1, i);
      StillOpenIsOnStack(marks, only, k - 1, i);
    }
  }

  /** A closing fence closes the innermost open directive, and no other. */
  lemma ClosesInnermost(marks: seq<Mark>, only: Option<string>, k: nat, i: nat)
    requires k < |marks| && ClosesAt(marks, only, k) && StillOpen(marks, only, k, i)
    ensures CloseLine(marks, only, i) == k <==> i == OpenLines(marks, only, k)[Depth(marks, only, k) - 1]
  {
    hide Depth, FirstReturn, OpenLines;
    DepthStep(marks, only, k);
    OpenLinesAreStillOpen(marks, only, k, Depth(marks, only, k) - 1);
    StillOpenIsOnStack(marks, only, k, i);
    CloseIsNow(marks, only, k, i);
  }

  lemma CloseIsNow(marks: seq<Mark>, only: Option<string>, k: nat, i: nat)
    requires k < |marks| && StillOpen(marks, only, k, i)
    ensures CloseLine(marks, only, i) == k <==> Depth(marks, only, k + 1) <= Depth(marks, only, i)
  {
    hide Depth, FirstReturn;
  }

  // ---------------------------------------------------------------- agreement of the two profiles

  /** Every directive the resolver sees at the top level carries `name`. */
  predicate TopLevelNamed(marks: seq<Mark>, name: string, k: nat)
    requires k <= |marks|
  {
    forall i :: 0 <= i < k && OpensAt(marks, None, i) && Depth(marks, None, i) == 0 ==>
      marks[i].open.name == name
  }

  lemma {:induction false} ProfilesAgree(marks: seq<Mark>, name: string, k: nat)
    requires k <= |marks| && TopLevelNamed(marks, name, k)
    ensures Depth(marks, Some(name), k) == Depth(marks, None, k)
  {
    if k > 0 {
      ProfilesAgree(marks, name, k - 1);
      assert OpensAt(marks, None, k - 1) <==> OpensAt(marks, Some(name), k - 1);
    }
  }
}
