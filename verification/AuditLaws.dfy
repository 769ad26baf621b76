/** What the chain detects: with an ideal digest the tail hash determines the whole history, and an edit
    that forges no digest is reported at the first entry it changes. */
module AuditLaws {
  import opened Text
  import opened AuditChain

  /** The entries record the same things under the same hashes. */
  ghost predicate SameEntry(a: Entry, b: Entry) {
    SameCore(a.core, b.core) && a.prevHash == b.prevHash && a.hash == b.hash
  }

  ghost predicate WellFormedAll(entries: seq<Entry>) {
    forall i :: 0 <= i < |entries| ==> WellFormed(entries[i].core)
  }

  lemma {:induction false} HeadsAgree(a: string, b: string, u: string, v: string)
    requires '\n' !in a && '\n' !in b && a + "\n" + u == b + "\n" + v
    ensures a == b && u == v
  {
    var x, y := a + "\n" + u, b + "\n" + v;
    assert IndexOf(x, '\n') == |a| by { IndexOver(a, '\n', u); }
    assert IndexOf(y, '\n') == |b| by { IndexOver(b, '\n', v); }
    assert x[..|a|] == a && y[..|b|] == b && x[|a| + 1..] == u && y[|b| + 1..] == v;
  }

  /** Equal digests come from the same predecessor and the same record. */
  lemma EqualHashes(h: Digest, p: string, a: Core, q: string, b: Core)
    requires Ideal(h) && WellFormed(a) && WellFormed(b) && '\n' !in p && '\n' !in q
    requires EntryHash(h, p, a) == EntryHash(h, q, b)
    ensures p == q && SameCore(a, b)
  {
    hide Canonical, SameCore, WellFormed;
    assert p + "\n" + Canonical(a) == q + "\n" + Canonical(b);
    HeadsAgree(p, q, Canonical(a), Canonical(b));
    CanonicalIsExact(a, b);
  }

  /** The hash an entry continues is the genesis mark or a digest. */
  lemma BeforeIsOneLine(h: Digest, entries: seq<Entry>, i: nat)
    requires Ideal(h) && i <= |entries| && forall j :: 0 <= j < i ==> Sound(h, entries, j)
    ensures '\n' !in Before(entries, i)
    ensures i > 0 ==> Before(entries, i) != GENESIS_PREV
  {
    hide Canonical;
    if i > 0 { assert Sound(h, entries, i - 1); }
  }

  /** Two sound entries with one hash sit at one position, after the same history. */
  lemma {:induction false} EqualHashesEqualHistory(h: Digest, a: seq<Entry>, i: nat, b: seq<Entry>, j: nat)
    requires Ideal(h) && i < |a| && j < |b| && WellFormedAll(a) && WellFormedAll(b)
    requires forall k :: 0 <= k <= i ==> Sound(h, a, k)
    requires forall k :: 0 <= k <= j ==> Sound(h, b, k)
    requires a[i].hash == b[j].hash
    ensures i == j && forall k :: 0 <= k <= i ==> SameEntry(a[k], b[k])
    decreases i
  {
    hide EntryHash, SameCore, WellFormed;
    assert Sound(h, a, i) && Sound(h, b, j);
    BeforeIsOneLine(h, a, i);
    BeforeIsOneLine(h, b, j);
    EqualHashes(h, Before(a, i), a[i].core, Before(b, j), b[j].core);
    if i > 0 && j > 0 { EqualHashesEqualHistory(h, a, i - 1, b, j - 1); }
  }

  /** A trusted last hash fixes the whole log: two verifying chains that end in it are equal entry for entry. */
  lemma TailHashDeterminesChain(h: Digest, a: seq<Entry>, b: seq<Entry>)
    requires Ideal(h) && IsChain(h, a) && IsChain(h, b) && WellFormedAll(a) && WellFormedAll(b)
    requires a != [] && b != [] && a[|a| - 1].hash == b[|b| - 1].hash
    ensures |a| == |b| && forall k :: 0 <= k < |a| ==> SameEntry(a[k], b[k])
  {
    hide Sound, SameEntry, WellFormedAll;
    EqualHashesEqualHistory(h, a, |a| - 1, b, |b| - 1);
  }

  lemma HashesAreDistinct(h: Digest, a: seq<Entry>, i: nat, j: nat)
    requires Ideal(h) && IsChain(h, a) && WellFormedAll(a) && i < |a| && j < |a|
    ensures a[i].hash == a[j].hash <==> i == j
  {
    hide Sound, SameEntry, WellFormedAll;
    if a[i].hash == a[j].hash { EqualHashesEqualHistory(h, a, i, a, j); }
  }

  lemma SharedPrefixIsSound(h: Digest, a: seq<Entry>, b: seq<Entry>, i: nat)
    requires IsChain(h, a) && i <= |a| && i <= |b| && b[..i] == a[..i]
    ensures forall j :: 0 <= j < i ==> Sound(h, b, j)
    ensures Before(b, i) == Before(a, i)
  {
    hide EntryHash;
    assert forall j :: 0 <= j < i ==> b[j] == b[..i][j] && a[j] == a[..i][j];
    forall j | 0 <= j < i ensures Sound(h, b, j) { assert Sound(h, a, j); }
  }

  /** A sound row with a hash of the log's is the log's row at its own place. */
  lemma SoundRowIsTheOriginal(h: Digest, a: seq<Entry>, b: seq<Entry>, i: nat, k: nat)
    requires Ideal(h) && IsChain(h, a) && WellFormedAll(a)
    requires i < |b| && i <= |a| && Before(b, i) == Before(a, i) && WellFormed(b[i].core) && Sound(h, b, i)
    requires k < |a| && b[i].hash == a[k].hash
    ensures i == k && SameCore(b[i].core, a[i].core)
  {
    hide EntryHash, SameCore, WellFormed;
    assert Sound(h, a, k);
    BeforeIsOneLine(h, a, k);
    BeforeIsOneLine(h, a, i);
    EqualHashes(h, Before(b, i), b[i].core, Before(a, k), a[k].core);
    if i > 0 && k > 0 { HashesAreDistinct(h, a, i - 1, k - 1); }
  }

  /** The general law of detection. Take any rewriting of a verifying log that leaves the first `i` entries
      alone, and at `i` puts a row whose hash is one the log already had: whatever else was edited, dropped,
      repeated or moved, verification stops exactly at `i` unless that row is the original one. */
  lemma EditIsFoundWhereItStarts(h: Digest, a: seq<Entry>, b: seq<Entry>, i: nat, k: nat)
    requires Ideal(h) && IsChain(h, a) && WellFormedAll(a)
    requires i < |b| && i <= |a| && b[..i] == a[..i] && WellFormed(b[i].core)
    requires k < |a| && b[i].hash == a[k].hash
    ensures BrokenAt(h, b, i) <==> !(i < |a| && SameEntry(a[i], b[i]))
  {
    hide EntryHash, SameCore, WellFormed, Ideal;
    SharedPrefixIsSound(h, a, b, i);
    if Sound(h, b, i) {
      SoundRowIsTheOriginal(h, a, b, i, k);
      SameCoreSymmetric(b[i].core, a[i].core);
      assert Sound(h, a, i);
    }
    if i < |a| && SameEntry(a[i], b[i]) {
      assert Sound(h, a, i);
      SameCoreSameHash(h, Before(a, i), a[i].core, b[i].core);
    }
  }

  lemma SameCoreSymmetric(a: Core, b: Core)
    requires SameCore(a, b)
    ensures SameCore(b, a)
  {}

  lemma SameCoreSameHash(h: Digest, p: string, a: Core, b: Core)
    requires SameCore(a, b) && WellFormed(a) && WellFormed(b)
    ensures EntryHash(h, p, a) == EntryHash(h, p, b)
  {
    hide Canonical, SameCore, WellFormed;
    CanonicalIsExact(a, b);
  }

  function Deleted(a: seq<Entry>, i: nat): seq<Entry>
    requires i < |a|
  { a[..i] + a[i + 1..] }

  /** Deleting an entry is found where it was, exactly when something followed it. */
  lemma DeletionIsFound(h: Digest, a: seq<Entry>, i: nat)
    requires Ideal(h) && IsChain(h, a) && WellFormedAll(a) && i < |a|
    ensures i + 1 < |a| ==> BrokenAt(h, Deleted(a, i), i)
    ensures i + 1 == |a| ==> IsChain(h, Deleted(a, i))
  {
    hide EntryHash, SameCore, WellFormed;
    var b := Deleted(a, i);
    assert b[..i] == a[..i];
    if i + 1 < |a| {
      assert b[i] == a[i + 1];
      EditIsFoundWhereItStarts(h, a, b, i, i + 1);
      HashesAreDistinct(h, a, i, i + 1);
    } else {
      assert b == a[..i];
      forall j | 0 <= j < |b| ensures Sound(h, b, j) { assert Sound(h, a, j); }
    }
  }

  /** Swapping two entries is found at the earlier one. */
  lemma SwapIsFound(h: Digest, a: seq<Entry>, i: nat, j: nat)
    requires Ideal(h) && IsChain(h, a) && WellFormedAll(a) && i < j < |a|
    ensures BrokenAt(h, a[i := a[j]][j := a[i]], i)
  {
    hide EntryHash, SameCore, WellFormed, Sound;
    var b := a[i := a[j]][j := a[i]];
    assert b[..i] == a[..i] && b[i] == a[j];
    EditIsFoundWhereItStarts(h, a, b, i, j);
    HashesAreDistinct(h, a, i, j);
  }

  /** Altering what an entry records, under its stored hash, is found at that entry. */
  lemma AlterationIsFound(h: Digest, a: seq<Entry>, i: nat, core: Core)
    requires Ideal(h) && IsChain(h, a) && WellFormedAll(a) && i < |a| && WellFormed(core)
    ensures BrokenAt(h, a[i := a[i].(core := core)], i) <==> !SameCore(a[i].core, core)
  {
    hide EntryHash, SameCore, WellFormed, Sound;
    var b := a[i := a[i].(core := core)];
    assert b[..i] == a[..i];
    EditIsFoundWhereItStarts(h, a, b, i, i);
  }

  /** Re-linking an altered entry only moves the break to the next one; on the last entry it goes unseen. */
  lemma RelinkedAlterationIsFoundNext(h: Digest, a: seq<Entry>, i: nat, core: Core)
    requires Ideal(h) && IsChain(h, a) && WellFormedAll(a) && i < |a| && WellFormed(core)
    requires !SameCore(a[i].core, core)
    ensures var b := a[i := Link(h, Before(a, i), core)];
      if i + 1 < |a| then BrokenAt(h, b, i + 1) else IsChain(h, b)
  {
    hide SameCore, WellFormed, Canonical;
    var b := a[i := Link(h, Before(a, i), core)];
    assert Sound(h, a, i);
    forall j | 0 <= j < i ensures Sound(h, b, j) { assert Sound(h, a, j); }
    assert Sound(h, b, i);
    if i + 1 < |a| {
      assert Sound(h, a, i + 1);
      BeforeIsOneLine(h, a, i);
      if b[i].hash == a[i].hash { EqualHashes(h, Before(a, i), a[i].core, Before(a, i), core); }
    }
  }

  /** Linking onto the last hash is the one way to extend a chain. */
  lemma AppendIsLinking(h: Digest, a: seq<Entry>, e: Entry)
    requires IsChain(h, a)
    ensures IsChain(h, a + [e]) <==> e == Link(h, Before(a, |a|), e.core)
  {
    hide EntryHash;
    var b := a + [e];
    forall j | 0 <= j < |a| ensures Sound(h, b, j) { assert Sound(h, a, j); }
    assert Before(b, |a|) == Before(a, |a|);
    assert Sound(h, b, |a|) <==> e == Link(h, Before(a, |a|), e.core);
  }
}
