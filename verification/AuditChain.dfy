/** The audit log's hash chain: the canonical text an entry is hashed by, linking, and verification. The
    digest is a parameter; `Ideal` says what is asked of it. */
module AuditChain {
  import opened Text
  import opened CanonicalJson

  /** One changed field; `None` is JavaScript's `undefined`. */
  datatype Change = Change(key: string, from: Option<Json>, to: Option<Json>)

  /** `changes` lists an object's fields in insertion order, so its keys are distinct. */
  datatype Core = Core(seqNo: nat, tenantId: string, actor: string, action: string, target: string, at: string,
                       changes: Option<seq<Change>>)

  datatype Entry = Entry(core: Core, prevHash: string, hash: string)

  const GENESIS_PREV := ""

  // ---------------------------------------------------------------- sorting by key

  predicate StringLe(a: string, b: string) {
    a == "" || (b != "" && (a[0] < b[0] || (a[0] == b[0] && StringLe(a[1..], b[1..]))))
  }

  lemma {:induction false} StringLeAntisymmetric(a: string, b: string)
    requires StringLe(a, b) && StringLe(b, a)
    ensures a == b
  {
    if a != "" && b != "" {
      StringLeAntisymmetric(a[1..], b[1..]);
      assert a == [a[0]] + a[1..] && b == [b[0]] + b[1..];
    }
  }

  lemma {:induction false} StringLeTotal(a: string, b: string)
    ensures StringLe(a, b) || StringLe(b, a)
  {
    if a != "" && b != "" { StringLeTotal(a[1..], b[1..]); }
  }

  lemma {:induction false} StringLeTransitive(a: string, b: string, c: string)
    requires StringLe(a, b) && StringLe(b, c)
    ensures StringLe(a, c)
  {
    if a != "" && a[0] == b[0] == c[0] { StringLeTransitive(a[1..], b[1..], c[1..]); }
  }

  /** A field as the canonical form sees it: `undefined` and `null` are one. */
  datatype Triple = Triple(key: string, from: Json, to: Json)

  function OrNull(v: Option<Json>): Json { if v.Some? then v.value else Null }

  function Triples(c: seq<Change>): (r: seq<Triple>)
    ensures |r| == |c|
    ensures forall i :: 0 <= i < |c| ==> r[i] == Triple(c[i].key, OrNull(c[i].from), OrNull(c[i].to))
  {
    if c == [] then [] else [Triple(c[0].key, OrNull(c[0].from), OrNull(c[0].to))] + Triples(c[1..])
  }

  function Insert(x: Triple, sorted: seq<Triple>): (r: seq<Triple>)
    ensures multiset(r) == multiset{x} + multiset(sorted)
  {
    if sorted == [] || StringLe(x.key, sorted[0].key) then [x] + sorted
    else
      assert sorted == [sorted[0]] + sorted[1..];
      [sorted[0]] + Insert(x, sorted[1..])
  }

  function SortByKey(c: seq<Triple>): (r: seq<Triple>)
    ensures multiset(r) == multiset(c)
  {
    if c == [] then []
    else
      assert c == [c[0]] + c[1..];
      Insert(c[0], SortByKey(c[1..]))
  }

  ghost predicate DistinctTripleKeys(c: seq<Triple>) {
    forall i, j :: 0 <= i < j < |c| ==> c[i].key != c[j].key
  }

  ghost predicate Sorted(c: seq<Triple>) { forall i, j :: 0 <= i < j < |c| ==> StringLe(c[i].key, c[j].key) }

  lemma {:induction false} InsertSorts(x: Triple, sorted: seq<Triple>)
    requires Sorted(sorted)
    ensures Sorted(Insert(x, sorted))
  {
    hide StringLe;
    var r := Insert(x, sorted);
    if sorted == [] {
    } else if StringLe(x.key, sorted[0].key) {
      forall i, j | 0 <= i < j < |r| ensures StringLe(r[i].key, r[j].key) {
        if i == 0 && j > 1 { StringLeTransitive(x.key, sorted[0].key, sorted[j - 1].key); }
      }
    } else {
      StringLeTotal(x.key, sorted[0].key);
      var rest := Insert(x, sorted[1..]);
      InsertSorts(x, sorted[1..]);
      forall j | 0 <= j < |rest| ensures StringLe(sorted[0].key, rest[j].key) {
        assert rest[j] in multiset(rest);
        if rest[j] != x {
          assert rest[j] in sorted[1..];
          var k :| 0 <= k < |sorted| - 1 && sorted[1..][k] == rest[j];
          assert sorted[k + 1] == rest[j];
        }
      }
    }
  }

  lemma {:induction false} SortSorts(c: seq<Triple>)
    ensures Sorted(SortByKey(c))
  {
    if c != [] {
      SortSorts(c[1..]);
      InsertSorts(c[0], SortByKey(c[1..]));
    }
  }

  lemma SortedHeadsAgree(a: seq<Triple>, b: seq<Triple>)
    requires Sorted(a) && Sorted(b) && multiset(a) == multiset(b) && a != [] && b != []
    requires DistinctTripleKeys(a)
    ensures a[0] == b[0]
  {
    hide StringLe;
    assert a[0] in multiset(b) && b[0] in multiset(a);
    var i :| 0 <= i < |b| && b[i] == a[0];
    var j :| 0 <= j < |a| && a[j] == b[0];
    if i != 0 && j != 0 { StringLeAntisymmetric(a[0].key, b[0].key); }
  }

  /** Two sorted lists of the same triples, no key twice, are the same list. */
  lemma {:induction false} SortedIsUnique(a: seq<Triple>, b: seq<Triple>)
    requires Sorted(a) && Sorted(b) && multiset(a) == multiset(b)
    requires DistinctTripleKeys(a)
    ensures a == b
  {
    hide StringLe;
    assert |a| == |multiset(a)| == |multiset(b)| == |b|;
    if a != [] {
      SortedHeadsAgree(a, b);
      assert a == [a[0]] + a[1..] && b == [b[0]] + b[1..];
      assert multiset(a[1..]) == multiset(a) - multiset{a[0]};
      assert multiset(b[1..]) == multiset(b) - multiset{b[0]};
      SortedIsUnique(a[1..], b[1..]);
    }
  }

  // ---------------------------------------------------------------- the canonical form

  function ChangesJson(c: seq<Triple>): Items {
    if c == [] then NoItems
    else Item(Array(Item(Json.Text(c[0].key), Item(c[0].from, Item(c[0].to, NoItems)))), ChangesJson(c[1..]))
  }

  function CoreJson(e: Core): Json {
    Array(Item(Number(NumeralText(e.seqNo)), Item(Json.Text(e.tenantId), Item(Json.Text(e.actor),
      Item(Json.Text(e.action), Item(Json.Text(e.target), Item(Json.Text(e.at),
        if e.changes.Some? then Item(Array(ChangesJson(SortByKey(Triples(e.changes.value)))), NoItems) else NoItems)))))))
  }

  function NumeralText(n: nat): (t: NumberText)
    ensures t == Numeral(n)
  {
    var t := Numeral(n);
    assert forall k :: 0 <= k < |t| ==> IsDigit(t[k]);
    t
  }

  /** `canonical`. */
  function Canonical(e: Core): string { Print(CoreJson(e)) }

  lemma {:induction false} ChangesJsonInjective(a: seq<Triple>, b: seq<Triple>)
    requires ChangesJson(a) == ChangesJson(b)
    ensures a == b
  {
    if a != [] && b != [] {
      ChangesJsonInjective(a[1..], b[1..]);
      assert a == [a[0]] + a[1..] && b == [b[0]] + b[1..];
    }
  }

  /** The same recorded change: the same fields, in any insertion order, `undefined` read as `null`. Absent
      is not the same as empty. */
  ghost predicate SameChanges(a: Option<seq<Change>>, b: Option<seq<Change>>) {
    match (a, b)
    case (None, None) => true
    case (Some(c), Some(d)) => multiset(Triples(c)) == multiset(Triples(d))
    case _ => false
  }

  ghost predicate SameCore(a: Core, b: Core) {
    a.(changes := None) == b.(changes := None) && SameChanges(a.changes, b.changes)
  }

  /** What JavaScript guarantees of an object: no key twice. */
  ghost predicate WellFormed(e: Core) { e.changes.Some? ==> DistinctTripleKeys(Triples(e.changes.value)) }

  /** Two entries have one canonical text exactly when they record the same thing. */
  lemma CanonicalIsExact(a: Core, b: Core)
    requires WellFormed(a) && WellFormed(b)
    ensures Canonical(a) == Canonical(b) <==> SameCore(a, b)
  {
    hide Print, Numeral, SortByKey, Triples, StringLe;
    if Canonical(a) == Canonical(b) {
      assert Print(CoreJson(a)) + "" == Print(CoreJson(b)) + "";
      PrintReadsBack(CoreJson(a), CoreJson(b), "", "");
      NumeralInjective(a.seqNo, b.seqNo);
      if a.changes.Some? {
        var c, d := Triples(a.changes.value), Triples(b.changes.value);
        ChangesJsonInjective(SortByKey(c), SortByKey(d));
        assert multiset(c) == multiset(SortByKey(c)) == multiset(SortByKey(d)) == multiset(d);
      }
    }
    if SameCore(a, b) {
      if a.changes.Some? { SortForgetsOrder(Triples(a.changes.value), Triples(b.changes.value)); }
    }
  }

  lemma SortForgetsOrder(c: seq<Triple>, d: seq<Triple>)
    requires multiset(c) == multiset(d) && DistinctTripleKeys(c)
    ensures SortByKey(c) == SortByKey(d)
  {
    hide StringLe;
    SortSorts(c);
    SortSorts(d);
    SortKeepsDistinct(c);
    SortedIsUnique(SortByKey(c), SortByKey(d));
  }

  lemma SortKeepsDistinct(c: seq<Triple>)
    requires DistinctTripleKeys(c)
    ensures DistinctTripleKeys(SortByKey(c))
  {
    PermutedKeysDistinct(c, SortByKey(c));
  }

  lemma {:induction false} PermutedKeysDistinct(c: seq<Triple>, d: seq<Triple>)
    requires multiset(c) == multiset(d) && DistinctTripleKeys(c)
    ensures DistinctTripleKeys(d)
  {
    forall i, j | 0 <= i < j < |d| ensures d[i].key != d[j].key {
      if d[i] == d[j] {
        TwiceCounts(d, i, j);
        OnceCounts(c, d[i]);
        assert false;
      }
      assert d[i] in multiset(d) && d[j] in multiset(d);
      assert d[i] in multiset(c) && d[j] in multiset(c);
      var k :| 0 <= k < |c| && c[k] == d[i];
      var m :| 0 <= m < |c| && c[m] == d[j];
    }
  }

  lemma TwiceCounts(d: seq<Triple>, i: nat, j: nat)
    requires i < j < |d| && d[i] == d[j]
    ensures multiset(d)[d[i]] >= 2
  {
    assert d == d[..i] + [d[i]] + d[i + 1..j] + [d[j]] + d[j + 1..];
  }

  lemma {:induction false} OnceCounts(c: seq<Triple>, x: Triple)
    requires DistinctTripleKeys(c)
    ensures multiset(c)[x] <= 1
  {
    if c != [] {
      assert c == [c[0]] + c[1..];
      OnceCounts(c[1..], x);
      if c[0] == x { assert x !in c[1..]; }
    }
  }

  // ---------------------------------------------------------------- linking and verifying

  type Digest = string -> string

  /** What the chain needs of SHA-256 in hexadecimal: no two texts share a digest, and a digest is neither
      empty nor spread over lines. */
  ghost predicate Ideal(h: Digest) {
    (forall x, y :: h(x) == h(y) ==> x == y) && (forall x :: h(x) != "" && '\n' !in h(x))
  }

  /** Such a digest exists: the text quoted as JSON, which can be read back and holds no line break. */
  lemma IdealExists()
    ensures Ideal(s => Quote(s))
  {
    hide Escape;
    forall x, y | Quote(x) == Quote(y) ensures x == y {
      assert Quote(x) + "" == Quote(y) + "";
      QuoteReadsBack(x, y, "", "");
    }
    forall x ensures '\n' !in Quote(x) { EscapedIsOneLine(x); }
  }

  lemma {:induction false} EscapedIsOneLine(s: string)
    ensures '\n' !in Escape(s)
  {
    if s != "" {
      HexIsOneLine(s[0]);
      EscapedIsOneLine(s[1..]);
    }
  }

  lemma HexIsOneLine(c: char)
    ensures '\n' !in EscapeChar(c)
  {
    assert '\n' as int == 10;
  }

  /** `computeEntryHash`. */
  function EntryHash(h: Digest, prevHash: string, core: Core): string { h(prevHash + "\n" + Canonical(core)) }

  /** `linkEntry`, by the hash of the entry before. */
  function Link(h: Digest, prevHash: string, core: Core): Entry { Entry(core, prevHash, EntryHash(h, prevHash, core)) }

  datatype Verdict = Valid | Broken(at: nat, why: Break)
  datatype Break = Discontinuity | Tampered

  /** The hash that entry `i` has to continue. */
  function Before(entries: seq<Entry>, i: nat): string
    requires i <= |entries|
  {
    if i == 0 then GENESIS_PREV else entries[i - 1].hash
  }

  predicate Sound(h: Digest, entries: seq<Entry>, i: nat)
    requires i < |entries|
  {
    entries[i].prevHash == Before(entries, i) && EntryHash(h, Before(entries, i), entries[i].core) == entries[i].hash
  }

  predicate IsChain(h: Digest, entries: seq<Entry>) { forall i :: 0 <= i < |entries| ==> Sound(h, entries, i) }

  /** Entry `i` is the first that is not sound. */
  predicate BrokenAt(h: Digest, entries: seq<Entry>, i: nat) {
    i < |entries| && !Sound(h, entries, i) && forall j :: 0 <= j < i ==> Sound(h, entries, j)
  }

  /** `verifyAuditChain`: valid exactly when every entry is sound, and otherwise the first that is not. */
  method VerifyAuditChain(h: Digest, entries: seq<Entry>) returns (verdict: Verdict)
    ensures verdict.Valid? <==> IsChain(h, entries)
    ensures verdict.Broken? ==> BrokenAt(h, entries, verdict.at)
    ensures verdict.Broken? ==>
              (verdict.why == Discontinuity <==> entries[verdict.at].prevHash != Before(entries, verdict.at))
  {
    hide EntryHash;
    var prevHash := GENESIS_PREV;
    for i := 0 to |entries|
      invariant prevHash == Before(entries, i)
      invariant forall j :: 0 <= j < i ==> Sound(h, entries, j)
    {
      var e := entries[i];
      assert Sound(h, entries, i) <==> e.prevHash == prevHash && EntryHash(h, prevHash, e.core) == e.hash;
      if e.prevHash != prevHash { return Broken(i, Discontinuity); }
      if EntryHash(h, prevHash, e.core) != e.hash { return Broken(i, Tampered); }
      prevHash := e.hash;
    }
    return Valid;
  }
}
