/** Footnotes of a whole document: collecting and numbering them, the section at the end, and the document. */
module MdFootnotes {
  import opened Text
  import opened MdSink
  import opened MdVisitor
  import opened MdWalker
  import DirectiveResolver

  // ---------------------------------------------------------------- collecting

  /** The nodes in the order a cursor enters them. */
  function Preorder(t: Tree): (nodes: seq<Tree>)
    ensures forall n :: n in nodes ==> n.Node?
  {
    if t.Nil? then [] else [t] + Preorder(t.child) + Preorder(t.next)
  }

  predicate InsideMacro(dirs: seq<DirectiveResolver.Resolved>, pos: nat) {
    exists k :: 0 <= k < |dirs| && dirs[k].from < pos < dirs[k].to
  }

  /** The label of `[^label]:` at the start. */
  function DefLabel(s: string): Option<string> {
    if |s| < 2 || s[..2] != "[^" then None
    else
      var t := s[2..];
      var n := Text.Run(t, (c: char) => c != ']' && !IsSpace(c));
      if n > 0 && "]:" <= t[n..] then Some(t[..n]) else None
  }

  /** The label a reference node counts for, if it does. */
  function RefOf(src: string, dirs: seq<DirectiveResolver.Resolved>, n: Tree): Option<string>
    requires n.Node?
  {
    if n.name == "FootnoteRef" && !InsideMacro(dirs, n.from) && RefLabel(src, n) != "" then Some(RefLabel(src, n)) else None
  }

  function DefOf(src: string, dirs: seq<DirectiveResolver.Resolved>, n: Tree): Option<string>
    requires n.Node?
  {
    if n.name == "FootnoteDef" && !InsideMacro(dirs, n.from) then DefLabel(TextOf(src, n)) else None
  }

  /** Definitions by label, in the order found. */
  type Defs = seq<(string, Tree)>

  function LabelsOf(defs: Defs): (ls: seq<string>)
    ensures |ls| == |defs| && forall i :: 0 <= i < |defs| ==> ls[i] == defs[i].0
  {
    seq(|defs|, i requires 0 <= i < |defs| => defs[i].0)
  }

  function Lookup(defs: Defs, wanted: string): Tree {
    if defs == [] then Nil else if defs[0].0 == wanted then defs[0].1 else Lookup(defs[1..], wanted)
  }

  datatype Footnotes = Footnotes(numbers: map<string, nat>, defs: Defs, order: seq<string>, unreferenced: seq<string>)

  predicate NoRepeats(ls: seq<string>) { forall i, j :: 0 <= i < j < |ls| ==> ls[i] != ls[j] }

  /** `i` is where `l` first occurs. */
  predicate FirstAt(ls: seq<string>, l: string, i: nat) { i < |ls| && ls[i] == l && forall k :: 0 <= k < i ==> ls[k] != l }

  /** The labels are listed as they first come in `refs`. */
  ghost predicate InRefOrder(refs: seq<string>, order: seq<string>) {
    forall i, j, a, b :: 0 <= i < j < |order| && FirstAt(refs, order[i], a) && FirstAt(refs, order[j], b) ==> a < b
  }

  /** The references in document order. */
  function Refs(src: string, dirs: seq<DirectiveResolver.Resolved>, nodes: seq<Tree>): seq<string>
    requires forall n :: n in nodes ==> n.Node?
  {
    if nodes == [] then []
    else
      var n := nodes[|nodes| - 1];
      Refs(src, dirs, nodes[..|nodes| - 1]) + if RefOf(src, dirs, n).Some? then [RefOf(src, dirs, n).value] else []
  }

  /** The `k`-th node is a definition, and no earlier one has its label. */
  predicate IsFirstDef(src: string, dirs: seq<DirectiveResolver.Resolved>, nodes: seq<Tree>, k: nat)
    requires forall n :: n in nodes ==> n.Node?
  {
    k < |nodes| && DefOf(src, dirs, nodes[k]).Some? && forall m :: 0 <= m < k ==> DefOf(src, dirs, nodes[m]) != DefOf(src, dirs, nodes[k])
  }

  ghost predicate Ascending(at: seq<nat>) { forall i, j :: 0 <= i < j < |at| ==> at[i] < at[j] }

  /** `at` lists where the first definition of each label stands, and `defs` is what stands there. */
  ghost predicate DefsAt(src: string, dirs: seq<DirectiveResolver.Resolved>, nodes: seq<Tree>, defs: Defs, at: seq<nat>)
    requires forall n :: n in nodes ==> n.Node?
  {
    && |at| == |defs| && Ascending(at)
    && (forall k: nat :: k in at <==> IsFirstDef(src, dirs, nodes, k))
    && (forall i :: 0 <= i < |at| ==> Stands(src, dirs, nodes, defs[i], at[i]))
  }

  predicate Stands(src: string, dirs: seq<DirectiveResolver.Resolved>, nodes: seq<Tree>, def: (string, Tree), k: nat)
    requires forall n :: n in nodes ==> n.Node?
  {
    k < |nodes| && def.1 == nodes[k] && Some(def.0) == DefOf(src, dirs, nodes[k])
  }

  /** A definition node is collected under its label when no earlier one has it, in document order. */
  ghost predicate DefsAre(src: string, dirs: seq<DirectiveResolver.Resolved>, nodes: seq<Tree>, defs: Defs)
    requires forall n :: n in nodes ==> n.Node?
  {
    exists at :: DefsAt(src, dirs, nodes, defs, at)
  }

  /** What the collection promises: numbers 1, 2, 3 and so on in the order of first reference, for exactly the
      labels both referenced and defined; and the definitions nobody refers to, in their order. */
  ghost predicate Numbered(refs: seq<string>, fn: Footnotes) {
    && NoRepeats(fn.order)
    && (forall l :: l in fn.order <==> l in refs && l in LabelsOf(fn.defs))
    && InRefOrder(refs, fn.order)
    && fn.numbers.Keys == (set l | l in fn.order)
    && (forall i :: 0 <= i < |fn.order| ==> fn.numbers[fn.order[i]] == i + 1)
    && NoRepeats(fn.unreferenced)
    && (forall l :: l in fn.unreferenced <==> l in LabelsOf(fn.defs) && l !in refs)
    && InRefOrder(LabelsOf(fn.defs), fn.unreferenced)
  }

  /** `collectFootnotes`. */
  method CollectFootnotes(tree: Tree, src: string) returns (fn: Footnotes)
    ensures DefsAre(src, DirectiveResolver.Ranges(src), Preorder(tree), fn.defs)
    ensures Numbered(Refs(src, DirectiveResolver.Ranges(src), Preorder(tree)), fn)
  {
    hide DirectiveResolver.Ranges, RefOf, DefOf, Refs, InsideMacro, DefLabel, DefsAre, Numbered, LabelsOf;
    var dirs := DirectiveResolver.ResolveDirectiveRanges(src);
    var nodes := Preorder(tree);
    var refOrder: seq<string>, defs: Defs := [], [];
    assert nodes[..0] == [];
    NothingCollected(src, dirs);
    for i := 0 to |nodes|
      invariant refOrder == Refs(src, dirs, nodes[..i])
      invariant DefsAre(src, dirs, nodes[..i], defs)
    {
      var n := nodes[i];
      assert nodes[..i + 1][..i] == nodes[..i] && nodes[..i + 1][i] == n;
      RefsStep(src, dirs, nodes, i);
      var r, d := RefOf(src, dirs, n), DefOf(src, dirs, n);
      if r.Some? { refOrder := refOrder + [r.value]; }
      DefsStep(src, dirs, nodes, i, defs);
      if d.Some? && d.value !in LabelsOf(defs) { defs := defs + [(d.value, n)]; }
    }
    assert nodes[..|nodes|] == nodes;
    CollectedOnce(src, dirs, nodes, defs);
    fn := NumberFootnotes(refOrder, defs);
  }

  /** A label that some node defines is defined first by one of them. */
  lemma {:induction false} FirstDefExists(src: string, dirs: seq<DirectiveResolver.Resolved>, nodes: seq<Tree>, m: nat) returns (k: nat)
    requires (forall n :: n in nodes ==> n.Node?) && m < |nodes| && DefOf(src, dirs, nodes[m]).Some?
    ensures k <= m && IsFirstDef(src, dirs, nodes, k) && DefOf(src, dirs, nodes[k]) == DefOf(src, dirs, nodes[m])
    decreases m
  {
    hide DefOf;
    k := m;
    if !IsFirstDef(src, dirs, nodes, m) {
      var e: nat :| e < m && DefOf(src, dirs, nodes[e]) == DefOf(src, dirs, nodes[m]);
      k := FirstDefExists(src, dirs, nodes, e);
    }
  }

  /** What is collected: each label once, from a node of the document, and every label that is defined. */
  lemma CollectedOnce(src: string, dirs: seq<DirectiveResolver.Resolved>, nodes: seq<Tree>, defs: Defs)
    requires (forall n :: n in nodes ==> n.Node?) && DefsAre(src, dirs, nodes, defs)
    ensures NoRepeats(LabelsOf(defs))
    ensures forall i :: 0 <= i < |defs| ==> defs[i].1 in nodes && DefOf(src, dirs, defs[i].1) == Some(defs[i].0)
    ensures forall l :: l in LabelsOf(defs) <==> exists m :: 0 <= m < |nodes| && DefOf(src, dirs, nodes[m]) == Some(l)
  {
    hide DefOf;
    var at :| DefsAt(src, dirs, nodes, defs, at);
    forall i, j | 0 <= i < j < |defs| ensures defs[i].0 != defs[j].0 {
      assert at[j] in at && IsFirstDef(src, dirs, nodes, at[j]);
    }
    forall m: nat | m < |nodes| && DefOf(src, dirs, nodes[m]).Some? ensures DefOf(src, dirs, nodes[m]).value in LabelsOf(defs) {
      var k := FirstDefExists(src, dirs, nodes, m);
      assert k in at;
      var i :| 0 <= i < |at| && at[i] == k;
      assert LabelsOf(defs)[i] == defs[i].0;
    }
    forall l | l in LabelsOf(defs) ensures exists m :: 0 <= m < |nodes| && DefOf(src, dirs, nodes[m]) == Some(l) {
      var i :| 0 <= i < |defs| && LabelsOf(defs)[i] == l;
      assert DefOf(src, dirs, nodes[at[i]]) == Some(l);
    }
  }

  /** Reading one more node makes no other a first definition. */
  lemma FirstsGrow(src: string, dirs: seq<DirectiveResolver.Resolved>, nodes: seq<Tree>, i: nat)
    requires i < |nodes| && (forall n :: n in nodes ==> n.Node?)
    ensures forall k: nat :: IsFirstDef(src, dirs, nodes[..i + 1], k) <==>
              IsFirstDef(src, dirs, nodes[..i], k) || (k == i && IsFirstDef(src, dirs, nodes[..i + 1], i))
  {
    hide DefOf;
    assert forall m :: 0 <= m < i ==> nodes[..i + 1][m] == nodes[..i][m];
  }

  lemma NewDef(src: string, dirs: seq<DirectiveResolver.Resolved>, nodes: seq<Tree>, i: nat, defs: Defs)
    requires i < |nodes| && (forall n :: n in nodes ==> n.Node?) && DefsAre(src, dirs, nodes[..i], defs)
    requires IsFirstDef(src, dirs, nodes[..i + 1], i)
    ensures DefsAre(src, dirs, nodes[..i + 1], defs + [(DefOf(src, dirs, nodes[i]).value, nodes[i])])
  {
    FirstsGrow(src, dirs, nodes, i);
    var at :| DefsAt(src, dirs, nodes[..i], defs, at);
    var x, later := (DefOf(src, dirs, nodes[i]).value, nodes[i]), at + [i];
    forall k | k in at ensures k < i { assert IsFirstDef(src, dirs, nodes[..i], k); }
    hide DefOf, IsFirstDef, Ascending, Stands;
    AscendingAppend(at, i);
    forall j | 0 <= j < |later| ensures Stands(src, dirs, nodes[..i + 1], (defs + [x])[j], later[j]) {
      if j < |at| {
        assert Stands(src, dirs, nodes[..i], defs[j], at[j]);
        StillStands(src, dirs, nodes, i, defs[j], at[j]);
      } else {
        StandsLast(src, dirs, nodes, i);
      }
    }
    assert DefsAt(src, dirs, nodes[..i + 1], defs + [x], later);
  }

  lemma AscendingAppend(at: seq<nat>, i: nat)
    requires Ascending(at) && forall k :: k in at ==> k < i
    ensures Ascending(at + [i])
  {
    forall j | 0 <= j < |at| ensures at[j] < i { assert at[j] in at; }
  }

  lemma StillStands(src: string, dirs: seq<DirectiveResolver.Resolved>, nodes: seq<Tree>, i: nat, def: (string, Tree), k: nat)
    requires i < |nodes| && (forall n :: n in nodes ==> n.Node?) && Stands(src, dirs, nodes[..i], def, k)
    ensures Stands(src, dirs, nodes[..i + 1], def, k)
  {
    hide DefOf;
  }

  lemma StandsLast(src: string, dirs: seq<DirectiveResolver.Resolved>, nodes: seq<Tree>, i: nat)
    requires i < |nodes| && (forall n :: n in nodes ==> n.Node?) && IsFirstDef(src, dirs, nodes[..i + 1], i)
    ensures DefOf(src, dirs, nodes[i]).Some?
    ensures Stands(src, dirs, nodes[..i + 1], (DefOf(src, dirs, nodes[i]).value, nodes[i]), i)
  {
    hide DefOf;
  }

  lemma NoNewDef(src: string, dirs: seq<DirectiveResolver.Resolved>, nodes: seq<Tree>, i: nat, defs: Defs)
    requires i < |nodes| && (forall n :: n in nodes ==> n.Node?) && DefsAre(src, dirs, nodes[..i], defs)
    requires !IsFirstDef(src, dirs, nodes[..i + 1], i)
    ensures DefsAre(src, dirs, nodes[..i + 1], defs)
  {
    FirstsGrow(src, dirs, nodes, i);
    hide DefOf, IsFirstDef, Stands;
    var at :| DefsAt(src, dirs, nodes[..i], defs, at);
    forall j | 0 <= j < |at| ensures Stands(src, dirs, nodes[..i + 1], defs[j], at[j]) {
      StillStands(src, dirs, nodes, i, defs[j], at[j]);
    }
    assert DefsAt(src, dirs, nodes[..i + 1], defs, at);
  }

  lemma DefsStep(src: string, dirs: seq<DirectiveResolver.Resolved>, nodes: seq<Tree>, i: nat, defs: Defs)
    requires i < |nodes| && (forall n :: n in nodes ==> n.Node?) && DefsAre(src, dirs, nodes[..i], defs)
    ensures var d := DefOf(src, dirs, nodes[i]);
      DefsAre(src, dirs, nodes[..i + 1], if d.Some? && d.value !in LabelsOf(defs) then defs + [(d.value, nodes[i])] else defs)
  {
    CollectedOnce(src, dirs, nodes[..i], defs);
    hide DefOf, LabelsOf, DefsAre;
    var d := DefOf(src, dirs, nodes[i]);
    var early, late := nodes[..i], nodes[..i + 1];
    assert late[i] == nodes[i] && forall m :: 0 <= m < i ==> late[m] == early[m];
    if d.Some? && d.value !in LabelsOf(defs) {
      assert IsFirstDef(src, dirs, late, i);
      NewDef(src, dirs, nodes, i, defs);
    } else {
      if d.Some? {
        var m :| 0 <= m < i && DefOf(src, dirs, early[m]) == Some(d.value);
        assert DefOf(src, dirs, late[m]) == d;
      }
      NoNewDef(src, dirs, nodes, i, defs);
    }
  }

  /** `order` lists what the references up to `i` name, where it is defined. */
  ghost predicate OrderedUpTo(refs: seq<string>, ls: seq<string>, i: nat, order: seq<string>)
    requires i <= |refs|
  {
    NoRepeats(order) && (forall l :: l in order <==> l in refs[..i] && l in ls) && InRefOrder(refs, order)
  }

  lemma OrderStep(refs: seq<string>, ls: seq<string>, i: nat, order: seq<string>)
    requires i < |refs| && OrderedUpTo(refs, ls, i, order)
    ensures OrderedUpTo(refs, ls, i + 1, if refs[i] in ls && refs[i] !in order then order + [refs[i]] else order)
  {
    var l := refs[i];
    assert refs[..i + 1] == refs[..i] + [l];
    if l in ls && l !in order {
      assert FirstAt(refs, l, i);
      forall x, a, b | 0 <= x < |order| && FirstAt(refs, order[x], a) && FirstAt(refs, l, b) ensures a < b {
        assert order[x] in refs[..i];
        var k :| 0 <= k < i && refs[..i][k] == order[x];
        assert refs[k] == order[x];
      }
    }
  }

  method NumberRefs(refs: seq<string>, ls: seq<string>) returns (numbers: map<string, nat>, order: seq<string>)
    ensures OrderedUpTo(refs, ls, |refs|, order)
    ensures numbers.Keys == (set l | l in order) && forall i :: 0 <= i < |order| ==> numbers[order[i]] == i + 1
  {
    hide InRefOrder, FirstAt, NoRepeats, OrderedUpTo;
    numbers, order := map[], [];
    NothingOrdered(refs, ls);
    for i := 0 to |refs|
      invariant OrderedUpTo(refs, ls, i, order)
      invariant |numbers| == |order| && numbers.Keys == set l | l in order
      invariant forall k :: 0 <= k < |order| ==> numbers[order[k]] == k + 1
    {
      OrderStep(refs, ls, i, order);
      if refs[i] in ls && refs[i] !in numbers {
        numbers := numbers[refs[i] := |numbers| + 1];
        order := order + [refs[i]];
      }
    }
  }

  method LeftOver(ls: seq<string>, numbers: map<string, nat>) returns (unreferenced: seq<string>)
    requires NoRepeats(ls)
    ensures NoRepeats(unreferenced) && InRefOrder(ls, unreferenced)
    ensures forall l :: l in unreferenced <==> l in ls && l !in numbers
  {
    hide NoRepeats, InRefOrder;
    unreferenced := [];
    NothingLeftOver(ls);
    for i := 0 to |ls|
      invariant NoRepeats(unreferenced) && InRefOrder(ls, unreferenced)
      invariant forall l :: l in unreferenced <==> l in ls[..i] && l !in numbers
    {
      assert ls[..i + 1] == ls[..i] + [ls[i]];
      if ls[i] !in numbers {
        LeftOverStep(ls, i, unreferenced);
        unreferenced := unreferenced + [ls[i]];
      }
    }
    assert ls[..|ls|] == ls;
  }

  lemma NothingLeftOver(ls: seq<string>)
    ensures NoRepeats([]) && InRefOrder(ls, [])
  {
  }

  /** The next of distinct labels comes after all the earlier ones. */
  lemma LeftOverStep(ls: seq<string>, i: nat, some: seq<string>)
    requires i < |ls| && NoRepeats(ls) && NoRepeats(some) && InRefOrder(ls, some)
    requires forall l :: l in some ==> l in ls[..i]
    ensures NoRepeats(some + [ls[i]]) && InRefOrder(ls, some + [ls[i]])
  {
    forall l | l in ls[..i] ensures exists k :: 0 <= k < i && ls[k] == l {
      var k :| 0 <= k < i && ls[..i][k] == l;
      assert ls[k] == l;
    }
    forall x | 0 <= x < |some| ensures some[x] in ls[..i] {}
  }

  /** The last two passes: numbering in the order of first reference, and what is left over. */
  method NumberFootnotes(refs: seq<string>, defs: Defs) returns (fn: Footnotes)
    requires NoRepeats(LabelsOf(defs))
    ensures fn.defs == defs && Numbered(refs, fn)
  {
    hide InRefOrder, NoRepeats, LabelsOf;
    var numbers, order := NumberRefs(refs, LabelsOf(defs));
    var unreferenced := LeftOver(LabelsOf(defs), numbers);
    assert refs[..|refs|] == refs;
    fn := Footnotes(numbers, defs, order, unreferenced);
  }

  // ---------------------------------------------------------------- the collection is determined

  lemma {:induction false} AscendingIsUnique(a: seq<nat>, b: seq<nat>)
    requires Ascending(a) && Ascending(b) && forall k :: k in a <==> k in b
    ensures a == b
    decreases |a|
  {
    hide Ascending;
    if a != [] { assert a[|a| - 1] in b; }
    if b != [] { assert b[|b| - 1] in a; }
    if a != [] {
      var x, y := a[..|a| - 1], b[..|b| - 1];
      LastIsGreatest(a, b[|b| - 1]);
      LastIsGreatest(b, a[|a| - 1]);
      forall k ensures k in x <==> k in y {
        LastIsGreatest(a, k);
        LastIsGreatest(b, k);
      }
      AscendingIsUnique(x, y);
      assert a == x + [a[|a| - 1]] && b == y + [b[|b| - 1]];
    }
  }

  lemma LastIsGreatest(a: seq<nat>, k: nat)
    requires a != [] && Ascending(a)
    ensures k in a ==> k <= a[|a| - 1]
    ensures k in a[..|a| - 1] <==> k in a && k != a[|a| - 1]
    ensures Ascending(a[..|a| - 1])
  {
    assert a == a[..|a| - 1] + [a[|a| - 1]];
  }

  lemma DefsAreUnique(src: string, dirs: seq<DirectiveResolver.Resolved>, nodes: seq<Tree>, a: Defs, b: Defs)
    requires (forall n :: n in nodes ==> n.Node?) && DefsAre(src, dirs, nodes, a) && DefsAre(src, dirs, nodes, b)
    ensures a == b
  {
    hide IsFirstDef, DefOf;
    var x :| DefsAt(src, dirs, nodes, a, x);
    var y :| DefsAt(src, dirs, nodes, b, y);
    forall k ensures k in x <==> k in y {}
    AscendingIsUnique(x, y);
    forall i | 0 <= i < |a| ensures a[i] == b[i] { assert x[i] == y[i]; }
  }

  lemma {:induction false} FirstPlace(ls: seq<string>, l: string, n: nat) returns (k: nat)
    requires n < |ls| && ls[n] == l
    ensures FirstAt(ls, l, k)
    decreases n
  {
    k := n;
    if m :| 0 <= m < n && ls[m] == l { k := FirstPlace(ls, l, m); }
  }

  /** Where the listed labels first come, which ascends. */
  lemma {:induction false} Places(ls: seq<string>, some: seq<string>) returns (at: seq<nat>)
    requires (forall l :: l in some ==> l in ls) && InRefOrder(ls, some)
    ensures |at| == |some| && Ascending(at) && forall i :: 0 <= i < |some| ==> FirstAt(ls, some[i], at[i])
  {
    hide FirstAt;
    at := [];
    for i := 0 to |some|
      invariant |at| == i && forall j :: 0 <= j < i ==> FirstAt(ls, some[j], at[j])
    {
      assert some[i] in some;
      var n: nat :| n < |ls| && ls[n] == some[i];
      var k := FirstPlace(ls, some[i], n);
      at := at + [k];
    }
  }

  /** A list without other labels, in the order they first come, is one list. */
  lemma OrderIsUnique(ls: seq<string>, a: seq<string>, b: seq<string>)
    requires (forall l :: l in a <==> l in b) && (forall l :: l in a ==> l in ls)
    requires InRefOrder(ls, a) && InRefOrder(ls, b)
    ensures a == b
  {
    var x := Places(ls, a);
    var y := Places(ls, b);
    hide InRefOrder;
    forall k ensures k in x <==> k in y {
      if k in x { PlaceIsShared(ls, a, x, b, y, k); }
      if k in y { PlaceIsShared(ls, b, y, a, x, k); }
    }
    AscendingIsUnique(x, y);
    forall i | 0 <= i < |a| ensures a[i] == b[i] { assert FirstAt(ls, a[i], x[i]) && FirstAt(ls, b[i], y[i]); }
  }

  lemma PlaceIsShared(ls: seq<string>, a: seq<string>, x: seq<nat>, b: seq<string>, y: seq<nat>, k: nat)
    requires |x| == |a| && |y| == |b| && (forall l :: l in a ==> l in b) && k in x
    requires forall i :: 0 <= i < |a| ==> FirstAt(ls, a[i], x[i])
    requires forall i :: 0 <= i < |b| ==> FirstAt(ls, b[i], y[i])
    ensures k in y
  {
    var i :| 0 <= i < |x| && x[i] == k;
    assert a[i] in b;
    var j :| 0 <= j < |b| && b[j] == a[i];
    assert FirstAt(ls, a[i], x[i]) && FirstAt(ls, b[j], y[j]);
    assert y[j] == x[i];
  }

  lemma NumberedIsUnique(refs: seq<string>, a: Footnotes, b: Footnotes)
    requires Numbered(refs, a) && Numbered(refs, b) && a.defs == b.defs
    ensures a == b
  {
    hide InRefOrder, NoRepeats;
    OrderIsUnique(refs, a.order, b.order);
    OrderIsUnique(LabelsOf(a.defs), a.unreferenced, b.unreferenced);
    assert a.numbers.Keys == b.numbers.Keys;
    forall l | l in a.numbers ensures a.numbers[l] == b.numbers[l] {
      assert l in a.order;
      var i :| 0 <= i < |a.order| && a.order[i] == l;
    }
  }

  /** What is collected is determined by the tree and the source: one collection meets the description. */
  lemma FootnotesAreUnique(src: string, tree: Tree, a: Footnotes, b: Footnotes)
    requires DefsAre(src, DirectiveResolver.Ranges(src), Preorder(tree), a.defs)
    requires Numbered(Refs(src, DirectiveResolver.Ranges(src), Preorder(tree)), a)
    requires DefsAre(src, DirectiveResolver.Ranges(src), Preorder(tree), b.defs)
    requires Numbered(Refs(src, DirectiveResolver.Ranges(src), Preorder(tree)), b)
    ensures a == b
  {
    hide DirectiveResolver.Ranges, DefsAre, Numbered, Refs;
    DefsAreUnique(src, DirectiveResolver.Ranges(src), Preorder(tree), a.defs, b.defs);
    NumberedIsUnique(Refs(src, DirectiveResolver.Ranges(src), Preorder(tree)), a, b);
  }

  // ---------------------------------------------------------------- the section and the document

  function Item(env: Env, n: Option<nat>, def: Tree, unreferenced: bool): Elem
    requires def.Node?
  {
    Box(FootnoteItem(n, unreferenced),
        InlineChildren(env, def).0 + if n.Some? then [One(MdSink.Text(" ")), One(Leaf(FootnoteBack(n.value)))] else [])
  }

  /** One item for each label that has its definition. */
  function Items(env: Env, fn: Footnotes, ls: seq<string>, unreferenced: bool): seq<Elem> {
    if ls == [] then []
    else
      var def := Lookup(fn.defs, ls[0]);
      var n := if !unreferenced && ls[0] in fn.numbers then Some(fn.numbers[ls[0]]) else None;
      (if def.Node? then [Item(env, n, def, unreferenced)] else []) + Items(env, fn, ls[1..], unreferenced)
  }

  function Section(env: Env, fn: Footnotes): Elem {
    Box(FootnoteSection,
        [One(Leaf(Hr)), Box(FootnoteList, Items(env, fn, fn.order, false) + Items(env, fn, fn.unreferenced, true))])
  }

  /** A whole document: its blocks, and the footnote section when there is any footnote. */
  function Document(env: Env, tree: Tree, fn: Option<Footnotes>): seq<Elem>
    requires tree.Node?
  {
    Blocks(env, tree.child, 0, false)
    + if fn.Some? && (fn.value.order != [] || fn.value.unreferenced != []) then [One(Gap), Section(env, fn.value)] else []
  }

  lemma {:induction false} ItemsAppend(env: Env, fn: Footnotes, a: seq<string>, b: seq<string>, unreferenced: bool)
    ensures Items(env, fn, a + b, unreferenced) == Items(env, fn, a, unreferenced) + Items(env, fn, b, unreferenced)
  {
    hide Item;
    if a == [] {
      assert a + b == b;
    } else {
      assert (a + b)[1..] == a[1..] + b;
      ItemsAppend(env, fn, a[1..], b, unreferenced);
    }
  }

  lemma ItemsStep(env: Env, fn: Footnotes, ls: seq<string>, i: nat, unreferenced: bool)
    requires i < |ls|
    ensures var def := Lookup(fn.defs, ls[i]);
      var n := if !unreferenced && ls[i] in fn.numbers then Some(fn.numbers[ls[i]]) else None;
      Items(env, fn, ls[..i + 1], unreferenced)
      == Items(env, fn, ls[..i], unreferenced) + if def.Node? then [Item(env, n, def, unreferenced)] else []
  {
    hide Item;
    assert ls[..i + 1] == ls[..i] + [ls[i]];
    ItemsAppend(env, fn, ls[..i], [ls[i]], unreferenced);
    assert [ls[i]][1..] == [];
    var one := Items(env, fn, [ls[i]], unreferenced);
    assert one == one + [];
  }

  /** One note: its text, and the way back when it is numbered. */
  method EmitItem(w: MdWalker, n: Option<nat>, def: Tree, unreferenced: bool)
    requires def.Node? && w.sink.stack != []
    modifies w`pendingBr, w.sink
    ensures w.Fed(old(w.sink.stack), old(w.sink.trace), [Item(w.env, n, def, unreferenced)])
  {
    hide Took, InlineChildren, Prefix, Suffix, IsBlockContainer, RoleName;
    ghost var s0, t0 := w.sink.stack, w.sink.trace;
    var r := FootnoteItem(n, unreferenced);
    w.sink.OpenRole(r);
    ghost var s1, t1 := w.sink.stack, w.sink.trace;
    w.WalkInlineChildren(def);
    ghost var text, back: seq<Elem> := InlineChildren(w.env, def).0, [];
    ghost var s2, t2 := w.sink.stack, w.sink.trace;
    TookNothing(w.sink.math, s2, t2);
    if n.Some? {
      w.PutOne(MdSink.Text(" "));
      ghost var s3, t3 := w.sink.stack, w.sink.trace;
      w.PutOne(Leaf(FootnoteBack(n.value)));
      back := [One(MdSink.Text(" ")), One(Leaf(FootnoteBack(n.value)))];
      w.FedAppend(s2, t2, s3, t3, [One(MdSink.Text(" "))], [One(Leaf(FootnoteBack(n.value)))]);
      assert [One(MdSink.Text(" "))] + [One(Leaf(FootnoteBack(n.value)))] == back;
    }
    w.FedAppend(s1, t1, s2, t2, text, back);
    w.CloseBox(s0, t0, r, text + back);
  }

  /** The notes of one list of labels. */
  method EmitItems(w: MdWalker, fn: Footnotes, ls: seq<string>, unreferenced: bool)
    requires w.sink.stack != []
    modifies w`pendingBr, w.sink
    ensures w.Fed(old(w.sink.stack), old(w.sink.trace), Items(w.env, fn, ls, unreferenced))
  {
    hide Took, Item, Lookup;
    ghost var s0, t0 := w.sink.stack, w.sink.trace;
    TookNothing(w.sink.math, s0, t0);
    assert ls[..0] == [];
    for i := 0 to |ls|
      invariant w.Fed(s0, t0, Items(w.env, fn, ls[..i], unreferenced))
    {
      ItemsStep(w.env, fn, ls, i, unreferenced);
      ghost var s1, t1, done := w.sink.stack, w.sink.trace, Items(w.env, fn, ls[..i], unreferenced);
      var def := Lookup(fn.defs, ls[i]);
      var n := if !unreferenced && ls[i] in fn.numbers then Some(fn.numbers[ls[i]]) else None;
      if def.Node? {
        EmitItem(w, n, def, unreferenced);
        w.FedAppend(s0, t0, s1, t1, done, [Item(w.env, n, def, unreferenced)]);
      } else {
        assert done + [] == done;
      }
    }
    assert ls[..|ls|] == ls;
  }

  /** `emitFootnoteSection`. */
  method EmitFootnoteSection(w: MdWalker, fn: Footnotes)
    requires w.sink.stack != []
    modifies w`pendingBr, w.sink
    ensures w.Fed(old(w.sink.stack), old(w.sink.trace), [Section(w.env, fn)])
  {
    hide Took, Items, Prefix, Suffix, IsBlockContainer, RoleName;
    ghost var s0, t0 := w.sink.stack, w.sink.trace;
    ghost var a, b := Items(w.env, fn, fn.order, false), Items(w.env, fn, fn.unreferenced, true);
    w.sink.OpenRole(FootnoteSection);
    ghost var s1, t1 := w.sink.stack, w.sink.trace;
    w.PutOne(Leaf(Hr));
    ghost var s2, t2 := w.sink.stack, w.sink.trace;
    w.sink.OpenRole(FootnoteList);
    ghost var s3, t3 := w.sink.stack, w.sink.trace;
    EmitItems(w, fn, fn.order, false);
    ghost var s4, t4 := w.sink.stack, w.sink.trace;
    EmitItems(w, fn, fn.unreferenced, true);
    w.FedAppend(s3, t3, s4, t4, a, b);
    w.CloseBox(s2, t2, FootnoteList, a + b);
    w.FedAppend(s1, t1, s2, t2, [One(Leaf(Hr))], [Box(FootnoteList, a + b)]);
    assert [One(Leaf(Hr))] + [Box(FootnoteList, a + b)] == [One(Leaf(Hr)), Box(FootnoteList, a + b)];
    w.CloseBox(s0, t0, FootnoteSection, [One(Leaf(Hr)), Box(FootnoteList, a + b)]);
  }

  /** `walkMarkdown` into a fresh HTML sink, as the static export runs it: one frame is left, its content is the
      nested rendering of the document, and the calls it received bracket. */
  method RenderDocument(env: Env, math: MathRender, tree: Tree, fn: Option<Footnotes>) returns (markup: string, sink: HtmlSink)
    requires tree.Node?
    ensures fresh(sink)
    ensures |sink.stack| == 1 && markup == sink.stack[0].body == Html(math, Document(env, tree, fn), true)
    ensures sink.trace == Events(Document(env, tree, fn)) && Brackets(sink.trace, []) == Some([])
  {
    hide Took, Blocks, Section, Html, Events, Brackets;
    sink := new HtmlSink(math);
    var w := new MdWalker(env, sink);
    ghost var s0, t0 := sink.stack, sink.trace;
    w.WalkBlockChildren(tree.child);
    ghost var blocks := Blocks(env, tree.child, 0, false);
    if fn.Some? && (fn.value.order != [] || fn.value.unreferenced != []) {
      ghost var s1, t1 := sink.stack, sink.trace;
      w.PutOne(Gap);
      ghost var s2, t2 := sink.stack, sink.trace;
      EmitFootnoteSection(w, fn.value);
      w.FedAppend(s1, t1, s2, t2, [One(Gap)], [Section(env, fn.value)]);
      assert [One(Gap)] + [Section(env, fn.value)] == [One(Gap), Section(env, fn.value)];
      w.FedAppend(s0, t0, s1, t1, blocks, [One(Gap), Section(env, fn.value)]);
    } else {
      assert blocks + [] == blocks;
    }
    assert Took(math, s0, t0, sink.stack, sink.trace, Document(env, tree, fn));
    EventsAreBracketed(Document(env, tree, fn), []);
    TookFromStart(math, sink.stack, sink.trace, Document(env, tree, fn));
    markup := sink.stack[0].body;
  }

  lemma NothingCollected(src: string, dirs: seq<DirectiveResolver.Resolved>)
    ensures Refs(src, dirs, []) == [] && DefsAre(src, dirs, [], [])
  {
    assert DefsAt(src, dirs, [], [], []);
  }

  lemma RefsStep(src: string, dirs: seq<DirectiveResolver.Resolved>, nodes: seq<Tree>, i: nat)
    requires i < |nodes| && forall n :: n in nodes ==> n.Node?
    ensures Refs(src, dirs, nodes[..i + 1])
            == Refs(src, dirs, nodes[..i]) + if RefOf(src, dirs, nodes[i]).Some? then [RefOf(src, dirs, nodes[i]).value] else []
  {
    hide RefOf;
    assert nodes[..i + 1][..i] == nodes[..i] && nodes[..i + 1][i] == nodes[i];
  }

  lemma NothingOrdered(refs: seq<string>, ls: seq<string>)
    ensures OrderedUpTo(refs, ls, 0, [])
  {}

  /** What a fresh sink holds after taking in a document. */
  lemma TookFromStart(math: MathRender, s: seq<Frame>, t: seq<Event>, es: seq<Elem>)
    requires Took(math, [Frame("", "", "", true)], [], s, t, es)
    ensures s == [Frame("", "", Html(math, es, true), true)] && t == Events(es)
  {
    hide Html, Events;
    assert "" + Html(math, es, true) == Html(math, es, true);
  }
}
