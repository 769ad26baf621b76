/** Heading anchors and sections: the slug allocator, the extraction of a document's headings from its parse,
    and slicing one section out by its slug. Letter and number classes and lower-casing are parameters. */
module Headings {
  import opened FiniteSets
  import opened Text

  /** `\p{L}` or `\p{N}`, and `toLowerCase`. */
  datatype Unicode = Unicode(isLetterOrNumber: char -> bool, lower: string -> string)

  // ---------------------------------------------------------------- the base of a slug

  function Kept(u: Unicode, s: string): string {
    if s == "" then ""
    else (if u.isLetterOrNumber(s[0]) || IsSpace(s[0]) || s[0] == '_' || s[0] == '-' then [s[0]] else "") + Kept(u, s[1..])
  }

  /** Each run of characters of `p` becomes one dash. */
  function Squeeze(s: string, p: char -> bool): string
    decreases |s|
  {
    if s == "" then ""
    else if p(s[0]) then "-" + Squeeze(s[Run(s, p)..], p)
    else [s[0]] + Squeeze(s[1..], p)
  }

  function DropEdgeDashes(s: string): string {
    var t := if s != "" && s[0] == '-' then s[1..] else s;
    if t != "" && t[|t| - 1] == '-' then t[..|t| - 1] else t
  }

  function Base(u: Unicode, text: string): (b: string)
    ensures b != ""
  {
    var b := DropEdgeDashes(Squeeze(Squeeze(Kept(u, u.lower(Trim(text))), IsSpace), (c: char) => c == '-'));
    if b == "" then "section" else b
  }

  predicate NoDoubleDash(s: string) { forall k :: 0 <= k < |s| - 1 ==> !(s[k] == '-' && s[k + 1] == '-') }

  lemma {:induction false} SqueezeDashes(s: string)
    ensures var r := Squeeze(s, (c: char) => c == '-');
      NoDoubleDash(r) && (r != "" && r[0] == '-' ==> s != "" && s[0] == '-')
    ensures forall c :: c in Squeeze(s, (c: char) => c == '-') ==> c in s
    decreases |s|
  {
    var p := (c: char) => c == '-';
    if s != "" {
      var n := if p(s[0]) then Run(s, p) else 1;
      SqueezeDashes(s[n..]);
      var rest := Squeeze(s[n..], p);
      assert n < |s| ==> s[n..][0] == s[n];
      forall c | c in Squeeze(s, p) ensures c in s {
        if c != s[0] { assert c in rest && c in s[n..]; }
      }
    }
  }

  lemma {:induction false} SqueezeSpaces(s: string)
    ensures forall c :: c in Squeeze(s, IsSpace) ==> !IsSpace(c)
    decreases |s|
  {
    if s != "" { SqueezeSpaces(s[if IsSpace(s[0]) then Run(s, IsSpace) else 1..]); }
  }

  /** A slug's base is never empty, has no whitespace, no dash at either end and no two dashes together. */
  lemma BaseIsClean(u: Unicode, text: string)
    ensures var b := Base(u, text);
      b != "" && b[0] != '-' && b[|b| - 1] != '-' && NoDoubleDash(b) && forall c :: c in b ==> !IsSpace(c)
  {
    hide Squeeze, Kept, Trim;
    var p := (c: char) => c == '-';
    var kept := Kept(u, u.lower(Trim(text)));
    SqueezeSpaces(kept);
    SqueezeDashes(Squeeze(kept, IsSpace));
    var r := Squeeze(Squeeze(kept, IsSpace), p);
    DropEdges(r);
    var d := DropEdgeDashes(r);
    assert forall c :: c in d ==> c in r;
  }

  lemma DropEdges(r: string)
    requires NoDoubleDash(r)
    ensures var d := DropEdgeDashes(r);
      NoDoubleDash(d) && (d != "" ==> d[0] != '-' && d[|d| - 1] != '-') && (forall c :: c in d ==> c in r)
  {
    var t := if r != "" && r[0] == '-' then r[1..] else r;
    assert NoDoubleDash(t);
    assert t != "" ==> t[0] != '-';
    assert |t| >= 2 && t[|t| - 1] == '-' ==> t[|t| - 2] != '-';
  }

  // ---------------------------------------------------------------- allocating a slug

  function Numbered(base: string, n: nat): string { base + "-" + Numeral(n) }

  lemma NumberedInjective(base: string, m: nat, n: nat)
    ensures Numbered(base, m) == Numbered(base, n) <==> m == n
    ensures Numbered(base, n) != base
  {
    hide Numeral;
    if Numbered(base, m) == Numbered(base, n) {
      assert Numbered(base, m)[|base| + 1..] == Numeral(m) && Numbered(base, n)[|base| + 1..] == Numeral(n);
      NumeralInjective(m, n);
    }
  }

  /** The base itself if it is free, else the base with the least number from 2 that is. */
  ghost predicate IsSlug(base: string, seen: set<string>, slug: string) {
    slug !in seen
    && (slug == base
        || (base in seen && exists n: nat :: n >= 2 && slug == Numbered(base, n)
                                             && forall k: nat :: 2 <= k < n ==> Numbered(base, k) in seen))
  }

  lemma SlugIsUnique(base: string, seen: set<string>, a: string, b: string)
    requires IsSlug(base, seen, a) && IsSlug(base, seen, b)
    ensures a == b
  {
    hide Numbered;
  }

  /** The slugs in the order they are tried: the base, then its numbers from 2. */
  function Candidate(base: string, i: nat): string { if i == 0 then base else Numbered(base, i + 1) }

  function Tried(base: string, i: nat): set<string> {
    if i == 0 then {} else Tried(base, i - 1) + {Candidate(base, i - 1)}
  }

  lemma {:induction false} TriedIs(base: string, i: nat, k: nat)
    requires k < i
    ensures Candidate(base, k) in Tried(base, i)
  {
    hide Candidate;
    if k < i - 1 { TriedIs(base, i - 1, k); }
  }

  lemma {:induction false} CandidateIsNew(base: string, i: nat, j: nat)
    requires i <= j
    ensures Candidate(base, j) !in Tried(base, i)
  {
    hide Numbered;
    if i > 0 {
      CandidateIsNew(base, i - 1, j);
      NumberedInjective(base, i, j + 1);
    }
  }

  lemma FirstFreeIsSlug(base: string, seen: set<string>, i: nat)
    requires Tried(base, i) <= seen && Candidate(base, i) !in seen
    ensures IsSlug(base, seen, Candidate(base, i))
  {
    hide Numbered, Tried;
    forall k: nat | k < i ensures Candidate(base, k) in seen { TriedIs(base, i, k); }
    assert forall k: nat :: 2 <= k < i + 1 ==> Numbered(base, k) == Candidate(base, k - 1);
    if i > 0 { assert Candidate(base, 0) in seen; }
  }

  lemma NothingTried(base: string)
    ensures Tried(base, 0) == {}
  {
  }

  /** A taken candidate leaves fewer taken slugs to try. */
  lemma NextTry(base: string, seen: set<string>, i: nat)
    requires Tried(base, i) <= seen && Candidate(base, i) in seen
    ensures Tried(base, i + 1) <= seen && |seen - Tried(base, i + 1)| < |seen - Tried(base, i)|
  {
    hide Candidate;
    CandidateIsNew(base, i, i);
    assert Tried(base, i + 1) == Tried(base, i) + {Candidate(base, i)};
    SmallerSet(seen - Tried(base, i + 1), seen - Tried(base, i));
  }

  /** `slugify`: among finitely many slugs taken one number is always free. */
  method Slugify(u: Unicode, text: string, seen: set<string>) returns (slug: string, nowSeen: set<string>)
    ensures IsSlug(Base(u, text), seen, slug)
    ensures nowSeen == seen + {slug}
  {
    hide Numbered, Base, IsSlug, Tried;
    var base := Base(u, text);
    NothingTried(base);
    slug := base;
    var n: nat := 2;
    while slug in seen
      invariant n >= 2 && slug == Candidate(base, n - 2) && Tried(base, n - 2) <= seen
      decreases |seen - Tried(base, n - 2)|
    {
      NextTry(base, seen, n - 2);
      slug := Numbered(base, n);
      n := n + 1;
    }
    FirstFreeIsSlug(base, seen, n - 2);
    nowSeen := seen + {slug};
  }

  // ---------------------------------------------------------------- heading text

  predicate IsHash(c: char) { c == '#' }

  /** Up to six leading hashes and the whitespace around them; nothing when there is no hash. */
  function StripMarker(raw: string): string {
    var s := TrimStart(raw);
    var n := Text.Run(s, IsHash);
    if n == 0 then raw else TrimStart(s[if n > 6 then 6 else n..])
  }

  /** Whitespace, then hashes, then whitespace, to the end. */
  predicate IsClosing(s: string) {
    s != "" && IsSpace(s[0]) && var t := TrimStart(s); TrimStart(t[Text.Run(t, IsHash)..]) == ""
  }

  function StripClosing(s: string): string {
    if s == "" || IsClosing(s) then "" else [s[0]] + StripClosing(s[1..])
  }

  /** `headingText`. */
  function HeadingText(raw: string): string { Trim(StripClosing(StripMarker(raw))) }

  // ---------------------------------------------------------------- extraction

  /** An `ATXHeading` node of the parse. */
  datatype Node = Node(level: nat, from: nat, to: nat)

  datatype Heading = Heading(level: nat, text: string, slug: string, from: nat, to: nat)

  /** The nodes the parse of `md` yields, in document order; a heading node does not start with a newline. */
  predicate InOrder(md: string, nodes: seq<Node>) {
    (forall i :: 0 <= i < |nodes| ==> nodes[i].from < nodes[i].to <= |md| && md[nodes[i].from] != '\n')
    && (forall i, j :: 0 <= i < j < |nodes| ==> nodes[i].to <= nodes[j].from)
  }

  /** One past the last newline of `s`. */
  function AfterLastNewline(s: string): (n: nat)
    ensures n <= |s|
    ensures n > 0 ==> s[n - 1] == '\n'
    ensures forall k :: n <= k < |s| ==> s[k] != '\n'
  {
    if s == "" then 0 else if s[|s| - 1] == '\n' then |s| else AfterLastNewline(s[..|s| - 1])
  }

  function TextOr(text: string, count: nat): string { if text != "" then text else "heading-" + Numeral(count + 1) }

  function Slugs(hs: seq<Heading>): set<string> { set i | 0 <= i < |hs| :: hs[i].slug }

  /** Heading `i` is what node `i` and the slugs before it make of it. */
  ghost predicate HeadingIs(u: Unicode, md: string, nodes: seq<Node>, hs: seq<Heading>, i: nat)
    requires i < |hs| <= |nodes| && InOrder(md, nodes)
  {
    var n, h := nodes[i], hs[i];
    h.level == n.level && h.to == n.to
    && h.text == HeadingText(md[n.from..n.to])
    && h.from == AfterLastNewline(md[..n.from])
    && IsSlug(Base(u, TextOr(h.text, i)), Slugs(hs[..i]), h.slug)
  }

  ghost predicate Extracted(u: Unicode, md: string, nodes: seq<Node>, hs: seq<Heading>)
    requires InOrder(md, nodes)
  {
    |hs| == |nodes| && forall i :: 0 <= i < |hs| ==> HeadingIs(u, md, nodes, hs, i)
  }

  /** `extractHeadingsFromMarkdown` over the nodes of the parse. */
  method ExtractHeadings(u: Unicode, md: string, nodes: seq<Node>) returns (out: seq<Heading>)
    requires InOrder(md, nodes)
    ensures Extracted(u, md, nodes, out)
  {
    hide Base, HeadingText, IsSlug, TextOr;
    out := [];
    var seen: set<string> := {};
    for i := 0 to |nodes|
      invariant |out| == i && seen == Slugs(out)
      invariant forall k :: 0 <= k < i ==> HeadingIs(u, md, nodes, out, k)
    {
      var n := nodes[i];
      var text := HeadingText(md[n.from..n.to]);
      var slug;
      slug, seen := Slugify(u, TextOr(text, i), seen);
      var h := Heading(n.level, text, slug, AfterLastNewline(md[..n.from]), n.to);
      SlugsSnoc(out, h);
      assert forall k :: 0 <= k <= i ==> (out + [h])[..k] == out[..k];
      forall k | 0 <= k < i ensures HeadingIs(u, md, nodes, out + [h], k) { assert HeadingIs(u, md, nodes, out, k); }
      assert out[..i] == out;
      out := out + [h];
    }
  }

  lemma SlugsSnoc(hs: seq<Heading>, h: Heading)
    ensures Slugs(hs + [h]) == Slugs(hs) + {h.slug}
  {
    var r := hs + [h];
    assert r[|hs|] == h;
    forall s ensures s in Slugs(r) <==> s in Slugs(hs) + {h.slug} {
      if s in Slugs(hs) {
        var i :| 0 <= i < |hs| && hs[i].slug == s;
        assert r[i].slug == s;
      }
    }
  }

  /** No two headings of a document have one slug. */
  lemma SlugsAreDistinct(u: Unicode, md: string, nodes: seq<Node>, hs: seq<Heading>, i: nat, j: nat)
    requires InOrder(md, nodes) && Extracted(u, md, nodes, hs) && i < |hs| && j < |hs|
    ensures hs[i].slug == hs[j].slug <==> i == j
  {
    hide Base, HeadingText, TextOr;
    var a, b := if i < j then i else j, if i < j then j else i;
    if a < b {
      assert HeadingIs(u, md, nodes, hs, b);
      assert hs[..b][a].slug in Slugs(hs[..b]);
    }
  }

  /** What is added to a document after its last heading, headings or not, changes no heading before. */
  lemma {:induction false} EarlierHeadingsAreStable(u: Unicode, md: string, more: string, nodes: seq<Node>, later: seq<Node>,
                                                    hs: seq<Heading>, all: seq<Heading>)
    requires InOrder(md, nodes) && InOrder(md + more, nodes + later)
    requires Extracted(u, md, nodes, hs) && Extracted(u, md + more, nodes + later, all)
    ensures all[..|hs|] == hs
  {
    hide Base, HeadingText, TextOr, IsSlug;
    HeadingsAgree(u, md, more, nodes, later, hs, all, |hs|);
    assert hs[..|hs|] == hs;
  }

  lemma {:induction false} HeadingsAgree(u: Unicode, md: string, more: string, nodes: seq<Node>, later: seq<Node>,
                                         hs: seq<Heading>, all: seq<Heading>, k: nat)
    requires InOrder(md, nodes) && InOrder(md + more, nodes + later)
    requires Extracted(u, md, nodes, hs) && Extracted(u, md + more, nodes + later, all) && k <= |hs|
    ensures all[..k] == hs[..k]
  {
    hide Base, HeadingText, TextOr, IsSlug;
    if k > 0 {
      HeadingsAgree(u, md, more, nodes, later, hs, all, k - 1);
      var n := nodes[k - 1];
      assert (nodes + later)[k - 1] == n;
      assert HeadingIs(u, md, nodes, hs, k - 1) && HeadingIs(u, md + more, nodes + later, all, k - 1);
      assert (md + more)[n.from..n.to] == md[n.from..n.to] && (md + more)[..n.from] == md[..n.from];
      SlugIsUnique(Base(u, TextOr(hs[k - 1].text, k - 1)), Slugs(hs[..k - 1]), hs[k - 1].slug, all[k - 1].slug);
      assert all[..k] == all[..k - 1] + [all[k - 1]] && hs[..k] == hs[..k - 1] + [hs[k - 1]];
    }
  }

  // ---------------------------------------------------------------- sections

  /** Where the section of heading `k` ends: at the next heading of its level or a higher one. */
  function SectionEnd(md: string, hs: seq<Heading>, k: nat): nat
    requires k < |hs|
  { EndFrom(md, hs, hs[k].level, k + 1) }

  function EndFrom(md: string, hs: seq<Heading>, level: nat, j: nat): nat
    requires j <= |hs|
    decreases |hs| - j
  {
    if j == |hs| then |md| else if hs[j].level <= level then hs[j].from else EndFrom(md, hs, level, j + 1)
  }

  lemma LineStartsInOrder(u: Unicode, md: string, nodes: seq<Node>, hs: seq<Heading>, i: nat, j: nat)
    requires InOrder(md, nodes) && Extracted(u, md, nodes, hs) && i <= j < |hs|
    ensures hs[i].from <= hs[j].from <= |md|
  {
    hide Base, HeadingText, TextOr, IsSlug;
    assert HeadingIs(u, md, nodes, hs, i) && HeadingIs(u, md, nodes, hs, j);
    LaterLineStart(md, nodes[i].from, nodes[j].from);
  }

  lemma LaterLineStart(md: string, a: nat, b: nat)
    requires a <= b <= |md|
    ensures AfterLastNewline(md[..a]) <= AfterLastNewline(md[..b])
  {
    hide AfterLastNewline;
    var x := AfterLastNewline(md[..a]);
    if x > 0 { assert md[..b][x - 1] == md[..a][x - 1]; }
  }

  lemma {:induction false} EndFromIs(md: string, hs: seq<Heading>, level: nat, j: nat)
    requires j <= |hs|
    ensures (EndFrom(md, hs, level, j) == |md| && forall m :: j <= m < |hs| ==> hs[m].level > level)
            || exists m :: j <= m < |hs| && hs[m].level <= level && EndFrom(md, hs, level, j) == hs[m].from
                           && forall i :: j <= i < m ==> hs[i].level > level
    decreases |hs| - j
  {
    if j < |hs| && hs[j].level > level { EndFromIs(md, hs, level, j + 1); }
  }

  /** Sections nest: a later heading's section lies wholly inside an earlier one's or wholly after it. */
  lemma SectionsNest(u: Unicode, md: string, nodes: seq<Node>, hs: seq<Heading>, i: nat, j: nat)
    requires InOrder(md, nodes) && Extracted(u, md, nodes, hs) && i < j < |hs|
    ensures SectionEnd(md, hs, i) <= hs[j].from || SectionEnd(md, hs, j) <= SectionEnd(md, hs, i)
  {
    hide Extracted, EndFrom, InOrder;
    EndFromIs(md, hs, hs[i].level, i + 1);
    EndFromIs(md, hs, hs[j].level, j + 1);
    forall a: nat, b: nat | a <= b < |hs| ensures hs[a].from <= hs[b].from <= |md| { LineStartsInOrder(u, md, nodes, hs, a, b); }
  }

  /** `sliceSectionBySlug`: none for an unknown slug; else the section of the one heading that has it. */
  method SliceSectionBySlug(u: Unicode, md: string, nodes: seq<Node>, slug: string) returns (section: Option<string>)
    requires InOrder(md, nodes)
    ensures forall hs: seq<Heading> :: Extracted(u, md, nodes, hs) ==>
              (section.None? <==> slug !in Slugs(hs))
              && forall k :: 0 <= k < |hs| && hs[k].slug == slug ==>
                   (SectionInText(u, md, nodes, hs, k);
                    section == Some(TrimEnd(md[hs[k].from..SectionEnd(md, hs, k)])))
  {
    hide Base, HeadingText, TextOr, IsSlug, TrimEnd, InOrder, Extracted, Slugs;
    var heads := ExtractHeadings(u, md, nodes);
    forall hs: seq<Heading> | Extracted(u, md, nodes, hs) ensures hs == heads { ExtractionIsUnique(u, md, nodes, hs, heads); }
    var idx := 0;
    while idx < |heads| && heads[idx].slug != slug
      invariant 0 <= idx <= |heads| && forall k :: 0 <= k < idx ==> heads[k].slug != slug
    {
      idx := idx + 1;
    }
    if idx == |heads| {
      InSlugs(heads, slug);
      return None;
    }
    InSlugs(heads, slug);
    forall k: nat | k < |heads| && heads[k].slug == slug ensures k == idx { SlugsAreDistinct(u, md, nodes, heads, k, idx); }
    var end := |md|;
    var j := idx + 1;
    while j < |heads|
      invariant idx < j <= |heads|
      invariant end == |md|
      invariant EndFrom(md, heads, heads[idx].level, idx + 1) == EndFrom(md, heads, heads[idx].level, j)
    {
      if heads[j].level <= heads[idx].level {
        end := heads[j].from;
        break;
      }
      j := j + 1;
    }
    assert end == SectionEnd(md, heads, idx);
    SectionInText(u, md, nodes, heads, idx);
    section := Some(TrimEnd(md[heads[idx].from..end]));
  }

  /** A section never ends before it starts, nor past the text. */
  lemma SectionInText(u: Unicode, md: string, nodes: seq<Node>, hs: seq<Heading>, k: nat)
    requires InOrder(md, nodes) && Extracted(u, md, nodes, hs) && k < |hs|
    ensures hs[k].from <= SectionEnd(md, hs, k) <= |md|
  {
    hide Extracted, EndFrom, InOrder;
    EndFromIs(md, hs, hs[k].level, k + 1);
    forall b: nat | k <= b < |hs| ensures hs[k].from <= hs[b].from <= |md| { LineStartsInOrder(u, md, nodes, hs, k, b); }
  }

  lemma ExtractionIsUnique(u: Unicode, md: string, nodes: seq<Node>, a: seq<Heading>, b: seq<Heading>)
    requires InOrder(md, nodes) && Extracted(u, md, nodes, a) && Extracted(u, md, nodes, b)
    ensures a == b
  {
    hide Base, HeadingText, TextOr, IsSlug;
    assert md + "" == md && nodes + [] == nodes;
    HeadingsAgree(u, md, "", nodes, [], a, b, |a|);
    assert a[..|a|] == a && b[..|b|] == b;
  }

  lemma InSlugs(hs: seq<Heading>, slug: string)
    ensures slug in Slugs(hs) <==> exists i :: 0 <= i < |hs| && hs[i].slug == slug
  {}
}
