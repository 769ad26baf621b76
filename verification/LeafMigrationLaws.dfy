/** The migration under any schedule of crashes and re-runs: every batch is accepted, every grant stands at
    every moment in its old or its leaf form, and the same final store is reached. */
module LeafMigrationLaws {
  import opened Text
  import opened LeafMigration

  function Get(s: Store, q: Key): Option<Condition> { if q in s then Some(s[q]) else None }

  ghost predicate SpaceLinked(s: Store, obj: string) { exists k :: k in s && k.obj == obj && k.relation == "space" }

  /** The grant a leaf comes from. */
  function OldKey(q: Key): Option<Key> {
    var relation := if q.relation == "manage_direct" then Some("manage")
                else if q.relation == "edit_direct" then Some("edit")
                else if q.relation == "view_direct" then Some("view_base")
                else None;
    match relation
    case None => None
    case Some(r) => if Moves(q.(relation := r)) then Some(q.(relation := r)) else None
  }

  predicate IsMarker(q: Key) { q == Markers(q.obj)[0].key || q == Markers(q.obj)[1].key }

  /** What the migrated store says of `q`, read off the store before: old grants are gone, what else was
      there stays, a leaf that was missing has its grant's condition, and a page in a space is marked. */
  ghost function After(s: Store, q: Key): Option<Condition> {
    if Moves(q) then None
    else if q in s then Some(s[q])
    else if OldKey(q).Some? && OldKey(q).value in s then Some(s[OldKey(q).value])
    else if IsMarker(q) && SpaceLinked(s, q.obj) then Some(None)
    else None
  }

  /** `keys` lists the page's tuples, each once, in any order. */
  ghost predicate Lists(s: Store, obj: string, keys: seq<Tuple>) {
    && (forall i :: 0 <= i < |keys| ==> keys[i].key.obj == obj && Get(s, keys[i].key) == Some(keys[i].condition))
    && (forall k :: k in s && k.obj == obj ==> exists i :: 0 <= i < |keys| && keys[i].key == k)
    && (forall i, j :: 0 <= i < j < |keys| ==> keys[i].key != keys[j].key)
  }

  // ---------------------------------------------------------------- batches as sets of changes

  lemma {:induction false} WriteAllIs(s: Store, part: seq<Tuple>, q: Key)
    requires Distinct(KeysOf(part))
    ensures forall i :: 0 <= i < |part| && part[i].key == q ==> Get(WriteAll(s, part), q) == Some(part[i].condition)
    ensures q !in KeysOf(part) ==> Get(WriteAll(s, part), q) == Get(s, q)
    decreases |part|
  {
    if part != [] {
      var ks := KeysOf(part);
      assert KeysOf(part[1..]) == ks[1..];
      WriteAllIs(s[part[0].key := part[0].condition], part[1..], q);
      if part[0].key == q {
        assert forall i :: 1 <= i < |part| ==> ks[i] != ks[0];
        assert q !in KeysOf(part[1..]);
      } else {
        assert q in ks ==> q in ks[1..];
        assert forall i :: 0 < i < |part| ==> part[i] == part[1..][i - 1];
      }
    }
  }

  lemma {:induction false} DeleteAllIs(s: Store, part: seq<Key>, q: Key)
    ensures Get(DeleteAll(s, part), q) == if q in part then None else Get(s, q)
    decreases |part|
  {
    if part != [] {
      DeleteAllIs(s - {part[0]}, part[1..], q);
      assert q in part <==> q == part[0] || q in part[1..];
    }
  }

  // ---------------------------------------------------------------- what the plan holds

  lemma {:induction false} InLeafWrites(keys: seq<Tuple>, present: set<Key>, t: Tuple)
    ensures t in LeafWrites(keys, present) <==>
            exists i :: 0 <= i < |keys| && Moves(keys[i].key) && LeafKey(keys[i].key) !in present
                        && t == Tuple(LeafKey(keys[i].key), keys[i].condition)
  {
    hide Moves;
    if keys != [] {
      InLeafWrites(keys[1..], present, t);
      assert forall i :: 0 <= i < |keys[1..]| ==> keys[1..][i] == keys[i + 1];
      assert forall i :: 0 < i < |keys| ==> keys[i] == keys[1..][i - 1];
    }
  }

  lemma {:induction false} InStaleKeys(keys: seq<Tuple>, q: Key)
    ensures q in StaleKeys(keys) <==> Moves(q) && exists i :: 0 <= i < |keys| && keys[i].key == q
  {
    hide Moves;
    if keys != [] {
      InStaleKeys(keys[1..], q);
      assert forall i :: 0 <= i < |keys[1..]| ==> keys[1..][i] == keys[i + 1];
      assert forall i :: 0 < i < |keys| ==> keys[i] == keys[1..][i - 1];
    }
  }

  lemma LeafKeyInjective(a: Key, b: Key)
    requires Moves(a) && Moves(b)
    ensures LeafKey(a) == LeafKey(b) <==> a == b
    ensures OldKey(LeafKey(a)) == Some(a) && !Moves(LeafKey(a)) && LeafKey(a).obj == a.obj && !IsMarker(LeafKey(a))
  {}

  ghost predicate DistinctKeys(keys: seq<Tuple>) { forall i, j :: 0 <= i < j < |keys| ==> keys[i].key != keys[j].key }

  lemma ConsDistinct(k: Key, ks: seq<Key>)
    requires Distinct(ks) && forall i :: 0 <= i < |ks| ==> ks[i] != k
    ensures Distinct([k] + ks)
  {}

  lemma {:induction false} LeafWritesDistinct(keys: seq<Tuple>, present: set<Key>)
    requires DistinctKeys(keys)
    ensures Distinct(KeysOf(LeafWrites(keys, present)))
  {
    hide Moves, Leaf, LeafKey, KeysOf, LeafWrites, Distinct, DistinctKeys;
    if keys == [] {
      NothingPlanned(present);
    } else {
      DistinctTail(keys);
      LeafWritesDistinct(keys[1..], present);
      LeafWritesKeys(keys, present);
      if Moves(keys[0].key) && LeafKey(keys[0].key) !in present {
        LeafIsNew(keys, present);
        ConsDistinct(LeafKey(keys[0].key), KeysOf(LeafWrites(keys[1..], present)));
      }
    }
  }

  lemma LeafWritesKeys(keys: seq<Tuple>, present: set<Key>)
    requires keys != []
    ensures KeysOf(LeafWrites(keys, present)) ==
            if Moves(keys[0].key) && LeafKey(keys[0].key) !in present
            then [LeafKey(keys[0].key)] + KeysOf(LeafWrites(keys[1..], present))
            else KeysOf(LeafWrites(keys[1..], present))
  {
    hide Moves, Leaf, LeafKey;
    var rest := LeafWrites(keys[1..], present);
    if Moves(keys[0].key) && LeafKey(keys[0].key) !in present {
      var t := Tuple(LeafKey(keys[0].key), keys[0].condition);
      assert LeafWrites(keys, present) == [t] + rest;
      assert ([t] + rest)[1..] == rest;
    } else {
      assert LeafWrites(keys, present) == [] + rest == rest;
    }
  }

  lemma LeafIsNew(keys: seq<Tuple>, present: set<Key>)
    requires keys != [] && DistinctKeys(keys) && Moves(keys[0].key)
    ensures var ks := KeysOf(LeafWrites(keys[1..], present)); forall i :: 0 <= i < |ks| ==> ks[i] != LeafKey(keys[0].key)
  {
    hide Moves, Leaf, LeafKey, LeafWrites;
    var rest := LeafWrites(keys[1..], present);
    forall i | 0 <= i < |rest| ensures KeysOf(rest)[i] != LeafKey(keys[0].key) {
      InLeafWrites(keys[1..], present, rest[i]);
      var j :| 0 <= j < |keys[1..]| && Moves(keys[1..][j].key) && LeafKey(keys[1..][j].key) !in present
               && rest[i] == Tuple(LeafKey(keys[1..][j].key), keys[1..][j].condition);
      LeafKeyInjective(keys[0].key, keys[j + 1].key);
    }
  }

  lemma {:induction false} StaleKeysDistinct(keys: seq<Tuple>)
    requires DistinctKeys(keys)
    ensures Distinct(StaleKeys(keys))
  {
    hide Moves;
    if keys != [] {
      var rest := StaleKeys(keys[1..]);
      assert forall i :: 0 <= i < |keys[1..]| ==> keys[1..][i] == keys[i + 1];
      StaleKeysDistinct(keys[1..]);
      forall i | 0 <= i < |rest| ensures rest[i] != keys[0].key { InStaleKeys(keys[1..], rest[i]); }
    }
  }

  lemma {:induction false} KeysOfAppend(a: seq<Tuple>, b: seq<Tuple>)
    ensures KeysOf(a + b) == KeysOf(a) + KeysOf(b)
  {}

  lemma ListedIsPresent(s: Store, obj: string, keys: seq<Tuple>, q: Key)
    requires Lists(s, obj, keys)
    ensures q.obj == obj ==> (q in Present(keys) <==> q in s)
  {}

  lemma ListedSpace(s: Store, obj: string, keys: seq<Tuple>)
    requires Lists(s, obj, keys)
    ensures HasSpace(keys) <==> SpaceLinked(s, obj)
  {}

  /** The plan writes exactly what the migrated page has and the page has not, each key once. */
  lemma WritesAreExact(s: Store, obj: string, keys: seq<Tuple>, t: Tuple)
    requires Lists(s, obj, keys)
    ensures t in Writes(obj, keys) <==> t.key.obj == obj && t.key !in s && After(s, t.key) == Some(t.condition)
  {
    hide Moves, LeafWrites, HasSpace, Present, SpaceLinked, OldKey;
    InLeafWrites(keys, Present(keys), t);
    ListedSpace(s, obj, keys);
    ListedIsPresent(s, obj, keys, t.key);
    ListedIsPresent(s, obj, keys, Markers(obj)[0].key);
    ListedIsPresent(s, obj, keys, Markers(obj)[1].key);
    MarkersAreNoLeaves(obj);
    assert t in Writes(obj, keys) <==> t in LeafWrites(keys, Present(keys)) || t in MarkerWrites(obj, keys);
    if t in LeafWrites(keys, Present(keys)) {
      var i :| 0 <= i < |keys| && Moves(keys[i].key) && LeafKey(keys[i].key) !in Present(keys)
               && t == Tuple(LeafKey(keys[i].key), keys[i].condition);
      LeafKeyInjective(keys[i].key, keys[i].key);
    }
    if t.key.obj == obj && t.key !in s && After(s, t.key) == Some(t.condition)
       && OldKey(t.key).Some? && OldKey(t.key).value in s {
      var k := OldKey(t.key).value;
      OldKeyIs(t.key);
      var i :| 0 <= i < |keys| && keys[i].key == k;
      assert t == Tuple(LeafKey(keys[i].key), keys[i].condition);
    }
  }

  lemma OldKeyIs(q: Key)
    requires OldKey(q).Some?
    ensures Moves(OldKey(q).value) && LeafKey(OldKey(q).value) == q && OldKey(q).value.obj == q.obj
  {}

  lemma MarkersAreNoLeaves(obj: string)
    ensures forall j :: 0 <= j < 2 ==>
              OldKey(Markers(obj)[j].key) == None && !Moves(Markers(obj)[j].key) && IsMarker(Markers(obj)[j].key)
  {}

  lemma WritesDistinct(s: Store, obj: string, keys: seq<Tuple>)
    requires Lists(s, obj, keys)
    ensures Distinct(KeysOf(Writes(obj, keys)))
  {
    hide Moves, LeafWrites, HasSpace, Present, OldKey, After;
    var a, b := LeafWrites(keys, Present(keys)), MarkerWrites(obj, keys);
    LeafWritesDistinct(keys, Present(keys));
    KeysOfAppend(a, b);
    MarkersAreNoLeaves(obj);
    forall i, j | 0 <= i < |a| && 0 <= j < |b| ensures a[i].key != b[j].key {
      InLeafWrites(keys, Present(keys), a[i]);
      var k :| 0 <= k < |keys| && Moves(keys[k].key) && a[i].key == LeafKey(keys[k].key);
      LeafKeyInjective(keys[k].key, keys[k].key);
    }
  }

  // ---------------------------------------------------------------- a page, interrupted anywhere

  /** The store after the first `m` writes and the first `n` deletes of a page's plan. */
  function Partial(s: Store, obj: string, keys: seq<Tuple>, m: nat, n: nat): Store
    requires m <= |Writes(obj, keys)| && n <= |StaleKeys(keys)|
  {
    DeleteAll(WriteAll(s, Writes(obj, keys)[..m]), StaleKeys(keys)[..n])
  }

  lemma KeysOfSlice(part: seq<Tuple>, i: nat, j: nat)
    requires i <= j <= |part|
    ensures KeysOf(part[i..j]) == KeysOf(part)[i..j]
  {}

  /** Between an interrupted page and its start: nothing else moved, an old grant is untouched or its leaf is
      there, what stays stayed, and what is new is what the migrated page has. */
  ghost predicate Between(s0: Store, s: Store, obj: string) {
    && (forall q: Key :: q.obj != obj || (!Moves(q) && q in s0) ==> Get(s, q) == Get(s0, q))
    && (forall q: Key :: q.obj == obj && Moves(q) && q in s ==> Get(s, q) == Get(s0, q))
    && (forall q: Key :: q.obj == obj && Moves(q) && q in s0 && q !in s ==> LeafKey(q) in s)
    && (forall q: Key :: q.obj == obj && !Moves(q) && q in s && q !in s0 ==> Get(s, q) == After(s0, q))
  }

  /** The page has been migrated: it reads as the store before promised. */
  ghost predicate Migrated(s0: Store, s: Store, obj: string) {
    forall q: Key :: q.obj == obj ==> Get(s, q) == After(s0, q)
  }

  lemma PartialIs(s: Store, obj: string, keys: seq<Tuple>, m: nat, n: nat, q: Key)
    requires Lists(s, obj, keys) && m <= |Writes(obj, keys)| && n <= |StaleKeys(keys)|
    ensures var t := Partial(s, obj, keys, m, n);
      if q in StaleKeys(keys)[..n] then q !in t
      else if q in KeysOf(Writes(obj, keys)[..m]) then Get(t, q) == After(s, q) && q !in s && q.obj == obj && q in t
      else Get(t, q) == Get(s, q)
  {
    hide Writes, StaleKeys, After, Lists;
    var w := Writes(obj, keys)[..m];
    WritesDistinct(s, obj, keys);
    KeysOfSlice(Writes(obj, keys), 0, m);
    assert Writes(obj, keys)[0..m] == w;
    DeleteAllIs(WriteAll(s, w), StaleKeys(keys)[..n], q);
    WriteAllIs(s, w, q);
    if q in KeysOf(w) {
      var i :| 0 <= i < |w| && w[i].key == q;
      assert w[i] in Writes(obj, keys);
      WritesAreExact(s, obj, keys, w[i]);
    }
  }

  /** Deletes start only after the last write, so an interrupted page is always between. */
  lemma PartialIsBetween(s: Store, obj: string, keys: seq<Tuple>, m: nat, n: nat)
    requires Lists(s, obj, keys) && m <= |Writes(obj, keys)| && n <= |StaleKeys(keys)|
    requires n > 0 ==> m == |Writes(obj, keys)|
    ensures Between(s, Partial(s, obj, keys, m, n), obj)
  {
    hide Writes, StaleKeys, Moves, Partial, After, OldKey;
    var t := Partial(s, obj, keys, m, n);
    forall q: Key ensures q.obj != obj || (!Moves(q) && q in s) ==> Get(t, q) == Get(s, q) {
      PartialIs(s, obj, keys, m, n, q);
      InStaleKeys(keys, q);
    }
    forall q: Key ensures q.obj == obj && !Moves(q) && q in t && q !in s ==> Get(t, q) == After(s, q) {
      PartialIs(s, obj, keys, m, n, q);
    }
    forall q: Key | q.obj == obj && Moves(q) ensures q in t ==> Get(t, q) == Get(s, q) {
      PartialIs(s, obj, keys, m, n, q);
      MovedIsGone(s, q);
    }
    forall q: Key | q.obj == obj && Moves(q) && q in s && q !in t ensures LeafKey(q) in t {
      PartialIs(s, obj, keys, m, n, q);
      assert n > 0;
      LeafIsWritten(s, obj, keys, q);
      PartialIs(s, obj, keys, m, n, LeafKey(q));
      InStaleKeys(keys, LeafKey(q));
      LeafKeyInjective(q, q);
      assert Writes(obj, keys)[..m] == Writes(obj, keys);
    }
  }

  lemma LeafIsWritten(s: Store, obj: string, keys: seq<Tuple>, q: Key)
    requires Lists(s, obj, keys) && q.obj == obj && Moves(q) && q in s
    ensures LeafKey(q) in s || LeafKey(q) in KeysOf(Writes(obj, keys))
  {
    hide Moves, Writes, OldKey, SpaceLinked;
    LeafKeyInjective(q, q);
    if LeafKey(q) !in s {
      var t := Tuple(LeafKey(q), s[q]);
      WritesAreExact(s, obj, keys, t);
      var i :| 0 <= i < |Writes(obj, keys)| && Writes(obj, keys)[i] == t;
      assert KeysOf(Writes(obj, keys))[i] == LeafKey(q);
    }
  }

  lemma CompletedIsMigrated(s: Store, obj: string, keys: seq<Tuple>)
    requires Lists(s, obj, keys)
    ensures Migrated(s, Partial(s, obj, keys, |Writes(obj, keys)|, |StaleKeys(keys)|), obj)
  {
    hide Writes, StaleKeys, Moves, Partial, OldKey, SpaceLinked;
    var w, d := Writes(obj, keys), StaleKeys(keys);
    var t := Partial(s, obj, keys, |w|, |d|);
    assert w[..|w|] == w && d[..|d|] == d;
    forall q: Key | q.obj == obj ensures Get(t, q) == After(s, q) {
      PartialIs(s, obj, keys, |w|, |d|, q);
      InStaleKeys(keys, q);
      if !Moves(q) && q !in s && After(s, q).Some? {
        var x := Tuple(q, After(s, q).value);
        WritesAreExact(s, obj, keys, x);
        var i :| 0 <= i < |w| && w[i] == x;
        assert KeysOf(w)[i] == q;
      }
    }
  }

  lemma DistinctSlice(ks: seq<Key>, i: nat, j: nat)
    requires Distinct(ks) && i <= j <= |ks|
    ensures Distinct(ks[i..j])
    ensures forall k :: i <= k < j ==> ks[k] !in ks[..i]
  {}

  lemma WriteBatchIsAccepted(s: Store, obj: string, keys: seq<Tuple>, i: nat, j: nat)
    requires Lists(s, obj, keys) && i <= j <= i + CHUNK && j <= |Writes(obj, keys)|
    ensures WriteAccepted(Partial(s, obj, keys, i, 0), Writes(obj, keys)[i..j])
  {
    hide Writes, StaleKeys, Partial, After, Moves, Distinct, Lists;
    var w := Writes(obj, keys);
    var t := Partial(s, obj, keys, i, 0);
    WritesDistinct(s, obj, keys);
    KeysOfSlice(w, i, j);
    KeysOfSlice(w, 0, i);
    DistinctSlice(KeysOf(w), i, j);
    assert w[0..i] == w[..i] && KeysOf(w)[0..i] == KeysOf(w)[..i];
    forall k | 0 <= k < j - i ensures w[i..j][k].key !in t {
      var x := w[i + k];
      PartialIs(s, obj, keys, i, 0, x.key);
      assert x in w;
      WritesAreExact(s, obj, keys, x);
      assert KeysOf(w)[i + k] !in KeysOf(w)[..i];
      assert StaleKeys(keys)[..0] == [];
    }
  }

  lemma DeleteBatchIsAccepted(s: Store, obj: string, keys: seq<Tuple>, i: nat, j: nat)
    requires Lists(s, obj, keys) && i <= j <= i + CHUNK && j <= |StaleKeys(keys)|
    ensures DeleteAccepted(Partial(s, obj, keys, |Writes(obj, keys)|, i), StaleKeys(keys)[i..j])
  {
    hide Writes, StaleKeys, Partial, After, Moves, Distinct;
    var d := StaleKeys(keys);
    StaleKeysDistinct(keys);
    DistinctSlice(d, i, j);
    forall k | 0 <= k < j - i ensures d[i..j][k] in Partial(s, obj, keys, |Writes(obj, keys)|, i) {
      var x := d[i + k];
      PartialIs(s, obj, keys, |Writes(obj, keys)|, i, x);
      assert x in d;
      InStaleKeys(keys, x);
    }
  }

  /** Every batch of at most a hundred that the script sends is taken: no write is a duplicate or already
      stored, every delete is stored. */
  lemma BatchesAreAccepted(s: Store, obj: string, keys: seq<Tuple>, i: nat, j: nat)
    requires Lists(s, obj, keys) && i <= j <= i + CHUNK
    ensures j <= |Writes(obj, keys)| ==> WriteAccepted(Partial(s, obj, keys, i, 0), Writes(obj, keys)[i..j])
    ensures j <= |StaleKeys(keys)| ==>
              DeleteAccepted(Partial(s, obj, keys, |Writes(obj, keys)|, i), StaleKeys(keys)[i..j])
  {
    hide *;
    if j <= |Writes(obj, keys)| { WriteBatchIsAccepted(s, obj, keys, i, j); }
    if j <= |StaleKeys(keys)| { DeleteBatchIsAccepted(s, obj, keys, i, j); }
  }

  lemma {:induction false} WriteAllAppend(s: Store, a: seq<Tuple>, b: seq<Tuple>)
    ensures WriteAll(s, a + b) == WriteAll(WriteAll(s, a), b)
    decreases |a|
  {
    if a == [] {
      assert a + b == b;
    } else {
      assert (a + b)[1..] == a[1..] + b;
      WriteAllAppend(s[a[0].key := a[0].condition], a[1..], b);
    }
  }

  lemma {:induction false} DeleteAllAppend(s: Store, a: seq<Key>, b: seq<Key>)
    ensures DeleteAll(s, a + b) == DeleteAll(DeleteAll(s, a), b)
    decreases |a|
  {
    if a == [] {
      assert a + b == b;
    } else {
      assert (a + b)[1..] == a[1..] + b;
      DeleteAllAppend(s - {a[0]}, a[1..], b);
    }
  }

  /** One page of the script: it never fails, and the store is exactly the migrated one. */
  method MigratePage(fga: FgaStore, obj: string, keys: seq<Tuple>) returns (ok: bool)
    requires Lists(fga.tuples, obj, keys) && OfPage(obj, keys)
    modifies fga
    ensures ok
    ensures Migrated(old(fga.tuples), fga.tuples, obj)
    ensures forall q: Key :: q.obj != obj ==> Get(fga.tuples, q) == Get(old(fga.tuples), q)
  {
    hide Lists, OfPage, Writes, StaleKeys, After, WriteAll, DeleteAll, WriteAccepted, DeleteAccepted;
    ghost var before := fga.tuples;
    var writes, deletes := PlanPage(obj, keys);
    var i := 0;
    assert writes[..0] == [] && deletes[..0] == [];
    NothingSent(before);
    NothingDeleted(WriteAll(before, writes));
    assert writes[..|writes|] == writes;
    while i < |writes|
      invariant i <= |writes|
      invariant fga.tuples == Partial(before, obj, keys, i, 0)
    {
      var j := if i + CHUNK < |writes| then i + CHUNK else |writes|;
      BatchesAreAccepted(before, obj, keys, i, j);
      assert writes[..j] == writes[..i] + writes[i..j];
      WriteAllAppend(before, writes[..i], writes[i..j]);
      NothingDeleted(WriteAll(before, writes[..i]));
      NothingDeleted(WriteAll(before, writes[..j]));
      ok := fga.Write(writes[i..j]);
      i := j;
    }
    i := 0;
    while i < |deletes|
      invariant i <= |deletes|
      invariant fga.tuples == Partial(before, obj, keys, |writes|, i)
    {
      var j := if i + CHUNK < |deletes| then i + CHUNK else |deletes|;
      BatchesAreAccepted(before, obj, keys, i, j);
      assert deletes[..j] == deletes[..i] + deletes[i..j];
      DeleteAllAppend(WriteAll(before, writes[..|writes|]), deletes[..i], deletes[i..j]);
      ok := fga.Delete(deletes[i..j]);
      i := j;
    }
    CompletedIsMigrated(before, obj, keys);
    PartialIsBetween(before, obj, keys, |writes|, |deletes|);
    ok := true;
  }

  lemma DistinctTail(keys: seq<Tuple>)
    requires keys != [] && DistinctKeys(keys)
    ensures DistinctKeys(keys[1..])
  {}

  /** A grant that moves is not in the migrated store. */
  lemma MovedIsGone(s: Store, q: Key)
    ensures Moves(q) ==> After(s, q) == None
  {}

  lemma NothingSent(s: Store)
    ensures WriteAll(s, []) == s && DeleteAll(s, []) == s
  {}

  lemma NothingDeleted(s: Store)
    ensures DeleteAll(s, []) == s
  {}
}
