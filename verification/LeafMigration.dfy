/** The one-shot move of direct page grants to their `*_direct` leaves: planning one page from its tuples,
    and applying the plan in all-or-nothing batches. */
module LeafMigration {
  import opened Text

  datatype Key = Key(user: string, relation: string, obj: string)

  /** The text of a condition and its context; `None` for an unconditional grant. */
  type Condition = Option<string>

  datatype Tuple = Tuple(key: Key, condition: Condition)

  /** The tuple store: one tuple for each key, whatever its condition. */
  type Store = map<Key, Condition>

  const CHUNK := 100

  // ---------------------------------------------------------------- the store's batches

  function KeysOf(part: seq<Tuple>): (ks: seq<Key>)
    ensures |ks| == |part| && forall i :: 0 <= i < |part| ==> ks[i] == part[i].key
  {
    if part == [] then [] else [part[0].key] + KeysOf(part[1..])
  }

  predicate Distinct(ks: seq<Key>) { forall i, j :: 0 <= i < j < |ks| ==> ks[i] != ks[j] }

  predicate WriteAccepted(s: Store, part: seq<Tuple>) {
    |part| <= CHUNK && Distinct(KeysOf(part)) && forall i :: 0 <= i < |part| ==> part[i].key !in s
  }

  predicate DeleteAccepted(s: Store, part: seq<Key>) {
    |part| <= CHUNK && Distinct(part) && forall i :: 0 <= i < |part| ==> part[i] in s
  }

  function WriteAll(s: Store, part: seq<Tuple>): Store
    decreases |part|
  {
    if part == [] then s else WriteAll(s[part[0].key := part[0].condition], part[1..])
  }

  function DeleteAll(s: Store, part: seq<Key>): Store
    decreases |part|
  {
    if part == [] then s else DeleteAll(s - {part[0]}, part[1..])
  }

  /** The authorization store as the script sees it: a batch is taken whole or refused whole. */
  class FgaStore {
    var tuples: Store

    constructor (tuples: Store)
      ensures this.tuples == tuples
    {
      this.tuples := tuples;
    }

    method Write(part: seq<Tuple>) returns (ok: bool)
      modifies this
      ensures ok == WriteAccepted(old(tuples), part)
      ensures tuples == if ok then WriteAll(old(tuples), part) else old(tuples)
    {
      ok := WriteAccepted(tuples, part);
      if ok { tuples := WriteAll(tuples, part); }
    }

    method Delete(part: seq<Key>) returns (ok: bool)
      modifies this
      ensures ok == DeleteAccepted(old(tuples), part)
      ensures tuples == if ok then DeleteAll(old(tuples), part) else old(tuples)
    {
      ok := DeleteAccepted(tuples, part);
      if ok { tuples := DeleteAll(tuples, part); }
    }
  }

  // ---------------------------------------------------------------- planning a page

  function Leaf(relation: string): Option<string> {
    if relation == "manage" then Some("manage_direct")
    else if relation == "edit" then Some("edit_direct")
    else if relation == "view_base" then Some("view_direct")
    else None
  }

  /** An old grant that has to move: the public grant stays where it is. */
  predicate Moves(k: Key) { Leaf(k.relation).Some? && !(k.relation == "view_base" && k.user == "user:*") }

  function LeafKey(k: Key): Key
    requires Moves(k)
  { k.(relation := Leaf(k.relation).value) }

  function Markers(obj: string): seq<Tuple> {
    [Tuple(Key("user:*", "published", obj), None), Tuple(Key("share_link:*", "published", obj), None)]
  }

  /** The text the script indexes a tuple by. */
  function IndexText(k: Key): string { k.user + "|" + k.relation + "|" + k.obj }

  function LeafWrites(keys: seq<Tuple>, present: set<Key>): seq<Tuple> {
    if keys == [] then []
    else (if Moves(keys[0].key) && LeafKey(keys[0].key) !in present
          then [Tuple(LeafKey(keys[0].key), keys[0].condition)] else []) + LeafWrites(keys[1..], present)
  }

  function StaleKeys(keys: seq<Tuple>): seq<Key> {
    if keys == [] then [] else (if Moves(keys[0].key) then [keys[0].key] else []) + StaleKeys(keys[1..])
  }

  function Present(keys: seq<Tuple>): set<Key> { set i | 0 <= i < |keys| :: keys[i].key }

  predicate HasSpace(keys: seq<Tuple>) { exists i :: 0 <= i < |keys| && keys[i].key.relation == "space" }

  function MarkerWrites(obj: string, keys: seq<Tuple>): seq<Tuple> {
    var m := Markers(obj);
    if !HasSpace(keys) then []
    else (if m[0].key !in Present(keys) then [m[0]] else []) + (if m[1].key !in Present(keys) then [m[1]] else [])
  }

  function Writes(obj: string, keys: seq<Tuple>): seq<Tuple> {
    LeafWrites(keys, Present(keys)) + MarkerWrites(obj, keys)
  }

  /** What the tuples of one page look like: one object, relation names without the separator. */
  predicate OfPage(obj: string, keys: seq<Tuple>) {
    forall i :: 0 <= i < |keys| ==> keys[i].key.obj == obj && '|' !in keys[i].key.relation
  }

  /** On one page the index text tells tuples apart, though user ids may hold the separator. */
  lemma IndexTextIsExact(a: Key, b: Key)
    requires a.obj == b.obj && '|' !in a.relation && '|' !in b.relation
    ensures IndexText(a) == IndexText(b) <==> a == b
  {
    if IndexText(a) == IndexText(b) {
      var x, y := a.user + "|" + a.relation, b.user + "|" + b.relation;
      assert IndexText(a) == x + ("|" + a.obj) && IndexText(b) == y + ("|" + b.obj);
      assert |x| == |y|;
      assert x == IndexText(a)[..|x|] && y == IndexText(b)[..|y|];
      LastSeparator(a.user, a.relation, b.user, b.relation);
    }
  }

  lemma LastSeparator(u: string, r: string, v: string, q: string)
    requires '|' !in r && '|' !in q && u + "|" + r == v + "|" + q
    ensures u == v && r == q
  {
    var x, y := u + "|" + r, v + "|" + q;
    assert x[|u|] == '|' && y[|v|] == '|';
    assert forall k :: |u| < k < |x| ==> x[k] == r[k - |u| - 1];
    assert forall k :: |v| < k < |y| ==> y[k] == q[k - |v| - 1];
    assert |u| == |v|;
    assert x[..|u|] == u && y[..|v|] == v && x[|u| + 1..] == r && y[|v| + 1..] == q;
  }

  lemma IndexedIsPresent(obj: string, keys: seq<Tuple>, k: Key)
    requires OfPage(obj, keys) && k.obj == obj && '|' !in k.relation
    ensures IndexText(k) in (set i | 0 <= i < |keys| :: IndexText(keys[i].key)) <==> k in Present(keys)
  {
    hide IndexText;
    forall i | 0 <= i < |keys| ensures IndexText(k) == IndexText(keys[i].key) <==> k == keys[i].key {
      IndexTextIsExact(k, keys[i].key);
    }
  }

  lemma {:induction false} LeafWritesSnoc(keys: seq<Tuple>, x: Tuple, present: set<Key>)
    ensures LeafWrites(keys + [x], present) == LeafWrites(keys, present) + LeafWrites([x], present)
    ensures StaleKeys(keys + [x]) == StaleKeys(keys) + StaleKeys([x])
  {
    if keys == [] {
      assert keys + [x] == [x];
    } else {
      assert (keys + [x])[1..] == keys[1..] + [x];
      LeafWritesSnoc(keys[1..], x, present);
    }
  }

  /** The script's two passes over a page's tuples. */
  method PlanPage(obj: string, keys: seq<Tuple>) returns (writes: seq<Tuple>, deletes: seq<Key>)
    requires OfPage(obj, keys)
    ensures writes == Writes(obj, keys) && deletes == StaleKeys(keys)
  {
    hide IndexText, Moves, LeafWrites, StaleKeys;
    var existing := set i | 0 <= i < |keys| :: IndexText(keys[i].key);
    var hasSpace := exists i :: 0 <= i < |keys| && keys[i].key.relation == "space";
    writes, deletes := [], [];
    assert keys[..0] == [];
    NothingPlanned(Present(keys));
    for n := 0 to |keys|
      invariant writes == LeafWrites(keys[..n], Present(keys)) && deletes == StaleKeys(keys[..n])
    {
      var k := keys[n];
      assert keys[..n + 1] == keys[..n] + [k];
      LeafWritesSnoc(keys[..n], k, Present(keys));
      OneKey(obj, keys, k);
      if Moves(k.key) {
        if IndexText(LeafKey(k.key)) !in existing {
          writes := writes + [Tuple(LeafKey(k.key), k.condition)];
        }
        deletes := deletes + [k.key];
      }
    }
    assert keys[..|keys|] == keys;
    var m := Markers(obj);
    MarkersIndexed(obj, keys);
    if hasSpace && IndexText(m[0].key) !in existing { writes := writes + [m[0]]; }
    if hasSpace && IndexText(m[1].key) !in existing { writes := writes + [m[1]]; }
  }

  lemma OneKey(obj: string, keys: seq<Tuple>, k: Tuple)
    requires OfPage(obj, keys) && k in keys
    ensures LeafWrites([k], Present(keys)) ==
            if Moves(k.key) && LeafKey(k.key) !in Present(keys) then [Tuple(LeafKey(k.key), k.condition)] else []
    ensures StaleKeys([k]) == if Moves(k.key) then [k.key] else []
    ensures Moves(k.key) ==>
              (IndexText(LeafKey(k.key)) in (set i | 0 <= i < |keys| :: IndexText(keys[i].key)) <==> LeafKey(k.key) in Present(keys))
  {
    hide IndexText, Present;
    if Moves(k.key) { IndexedIsPresent(obj, keys, LeafKey(k.key)); }
  }

  lemma MarkersIndexed(obj: string, keys: seq<Tuple>)
    requires OfPage(obj, keys)
    ensures forall j :: 0 <= j < 2 ==>
              (IndexText(Markers(obj)[j].key) in (set i | 0 <= i < |keys| :: IndexText(keys[i].key))
               <==> Markers(obj)[j].key in Present(keys))
  {
    hide IndexText, Present;
    IndexedIsPresent(obj, keys, Markers(obj)[0].key);
    IndexedIsPresent(obj, keys, Markers(obj)[1].key);
  }

  lemma NothingPlanned(present: set<Key>)
    ensures LeafWrites([], present) == [] && StaleKeys([]) == [] && KeysOf([]) == [] && Distinct([])
  {}
}
