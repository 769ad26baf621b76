/** An insertion-ordered, bounded map with expiry: what a JavaScript `Map` of `{ value, expires }` entries
    is to the two per-viewer caches. Setting a key that is present keeps its place. */
module OrderedCache {
  import opened Text

  const TTL_MS := 5000
  const MAX_ENTRIES := 500

  datatype Entry<V> = Entry(value: V, expires: int)

  type Ordered<V> = seq<(string, Entry<V>)>

  function Lookup<V(!new)>(c: Ordered<V>, key: string): Option<Entry<V>> {
    if c == [] then None else if c[0].0 == key then Some(c[0].1) else Lookup(c[1..], key)
  }

  function Remove<V(!new)>(c: Ordered<V>, key: string): Ordered<V> {
    if c == [] then []
    else if c[0].0 == key then Remove(c[1..], key)
    else [c[0]] + Remove(c[1..], key)
  }

  function Put<V(!new)>(c: Ordered<V>, key: string, e: Entry<V>): Ordered<V> {
    if c == [] then [(key, e)]
    else if c[0].0 == key then [(key, e)] + c[1..]
    else [c[0]] + Put(c[1..], key, e)
  }

  function DropPrefix<V(!new)>(c: Ordered<V>, prefix: string): Ordered<V> {
    if c == [] then []
    else if prefix <= c[0].0 then DropPrefix(c[1..], prefix)
    else [c[0]] + DropPrefix(c[1..], prefix)
  }

  /** The oldest entry makes room, whether or not the coming key is already present. */
  function MakeRoom<V(!new)>(c: Ordered<V>): Ordered<V> { if |c| >= MAX_ENTRIES then c[1..] else c }

  function Store<V(!new)>(c: Ordered<V>, key: string, value: V, now: int): Ordered<V> {
    Put(MakeRoom(c), key, Entry(value, now + TTL_MS))
  }

  /** What `get` leaves behind: an entry found expired is dropped. */
  function AfterGet<V(!new)>(c: Ordered<V>, key: string, now: int): Ordered<V> {
    match Lookup(c, key)
    case None => c
    case Some(e) => if e.expires <= now then Remove(c, key) else c
  }

  function Hit<V(!new)>(c: Ordered<V>, key: string, now: int): Option<V> {
    match Lookup(c, key)
    case None => None
    case Some(e) => if e.expires <= now then None else Some(e.value)
  }

  ghost predicate DistinctKeys<V(!new)>(c: Ordered<V>) { forall j, k :: 0 <= j < k < |c| ==> c[j].0 != c[k].0 }

  ghost predicate Bounded<V(!new)>(c: Ordered<V>) { DistinctKeys(c) && |c| <= MAX_ENTRIES }

  // ---------------------------------------------------------------- membership

  lemma {:induction false} InRemove<V(!new)>(c: Ordered<V>, key: string, x: (string, Entry<V>))
    ensures x in Remove(c, key) <==> x in c && x.0 != key
  {
    if c != [] { InRemove(c[1..], key, x); }
  }

  lemma {:induction false} InDropPrefix<V(!new)>(c: Ordered<V>, prefix: string, x: (string, Entry<V>))
    ensures x in DropPrefix(c, prefix) <==> x in c && !(prefix <= x.0)
  {
    if c != [] { InDropPrefix(c[1..], prefix, x); }
  }

  lemma {:induction false} InPut<V(!new)>(c: Ordered<V>, key: string, e: Entry<V>, x: (string, Entry<V>))
    requires DistinctKeys(c)
    ensures x in Put(c, key, e) <==> x == (key, e) || (x in c && x.0 != key)
  {
    if c != [] && c[0].0 != key {
      assert DistinctKeys(c[1..]);
      InPut(c[1..], key, e, x);
    } else if c != [] {
      assert forall j :: 0 <= j < |c[1..]| ==> c[1..][j] == c[j + 1];
    }
  }

  lemma {:induction false} LookupIs<V(!new)>(c: Ordered<V>, key: string, e: Entry<V>)
    requires DistinctKeys(c)
    ensures Lookup(c, key) == Some(e) <==> (key, e) in c
  {
    if c != [] {
      assert DistinctKeys(c[1..]);
      LookupIs(c[1..], key, e);
      if c[0].0 == key { assert forall j :: 0 <= j < |c[1..]| ==> c[1..][j] == c[j + 1]; }
    }
  }

  // ---------------------------------------------------------------- distinct keys and size

  lemma {:induction false} ConsDistinct<V(!new)>(x: (string, Entry<V>), c: Ordered<V>)
    requires DistinctKeys(c) && forall y :: y in c ==> y.0 != x.0
    ensures DistinctKeys([x] + c)
  {}

  lemma {:induction false} RemoveKeeps<V(!new)>(c: Ordered<V>, key: string)
    requires DistinctKeys(c)
    ensures DistinctKeys(Remove(c, key)) && |Remove(c, key)| <= |c|
  {
    if c != [] {
      assert DistinctKeys(c[1..]);
      RemoveKeeps(c[1..], key);
      if c[0].0 != key {
        forall y | y in Remove(c[1..], key) ensures y.0 != c[0].0 { InRemove(c[1..], key, y); }
        ConsDistinct(c[0], Remove(c[1..], key));
      }
    }
  }

  lemma {:induction false} DropPrefixKeeps<V(!new)>(c: Ordered<V>, prefix: string)
    requires DistinctKeys(c)
    ensures DistinctKeys(DropPrefix(c, prefix)) && |DropPrefix(c, prefix)| <= |c|
  {
    if c != [] {
      assert DistinctKeys(c[1..]);
      DropPrefixKeeps(c[1..], prefix);
      if !(prefix <= c[0].0) {
        forall y | y in DropPrefix(c[1..], prefix) ensures y.0 != c[0].0 { InDropPrefix(c[1..], prefix, y); }
        ConsDistinct(c[0], DropPrefix(c[1..], prefix));
      }
    }
  }

  lemma {:induction false} PutKeeps<V(!new)>(c: Ordered<V>, key: string, e: Entry<V>)
    requires DistinctKeys(c)
    ensures DistinctKeys(Put(c, key, e)) && |Put(c, key, e)| <= |c| + 1
  {
    if c != [] {
      assert DistinctKeys(c[1..]);
      PutKeeps(c[1..], key, e);
      if c[0].0 != key {
        forall y | y in Put(c[1..], key, e) ensures y.0 != c[0].0 { InPut(c[1..], key, e, y); }
        ConsDistinct(c[0], Put(c[1..], key, e));
      } else {
        ConsDistinct((key, e), c[1..]);
      }
    }
  }

  /** A store puts its own entry in, evicts at most the oldest one, and touches nothing else. */
  lemma StoreIs<V(!new)>(c: Ordered<V>, key: string, value: V, now: int)
    requires Bounded(c)
    ensures Bounded(Store(c, key, value, now))
    ensures forall x :: x in Store(c, key, value, now) <==>
              x == (key, Entry(value, now + TTL_MS))
              || (x.0 != key && x in c && !(|c| == MAX_ENTRIES && x == c[0]))
  {
    var m := MakeRoom(c);
    assert DistinctKeys(m);
    PutKeeps(m, key, Entry(value, now + TTL_MS));
    forall x ensures x in Store(c, key, value, now) <==>
                       x == (key, Entry(value, now + TTL_MS))
                       || (x.0 != key && x in c && !(|c| == MAX_ENTRIES && x == c[0]))
    {
      InPut(m, key, Entry(value, now + TTL_MS), x);
      assert |c| == MAX_ENTRIES ==> (x in c <==> x == c[0] || x in c[1..]);
    }
  }

  lemma DropPrefixIs<V(!new)>(c: Ordered<V>, prefix: string)
    requires Bounded(c)
    ensures Bounded(DropPrefix(c, prefix))
    ensures forall x :: x in DropPrefix(c, prefix) <==> x in c && !(prefix <= x.0)
  {
    DropPrefixKeeps(c, prefix);
    forall x ensures x in DropPrefix(c, prefix) <==> x in c && !(prefix <= x.0) { InDropPrefix(c, prefix, x); }
  }

  /** A get answers with a live entry of exactly that key, and drops at most that one entry, expired. */
  lemma GetIs<V(!new)>(c: Ordered<V>, key: string, now: int)
    requires Bounded(c)
    ensures Bounded(AfterGet(c, key, now))
    ensures forall v: V :: Hit(c, key, now) == Some(v) <==> exists t: int :: t > now && (key, Entry(v, t)) in c
    ensures forall x :: x in AfterGet(c, key, now) <==> x in c && !(x.0 == key && x.1.expires <= now)
  {
    RemoveKeeps(c, key);
    forall v: V ensures Hit(c, key, now) == Some(v) <==> exists t: int :: t > now && (key, Entry(v, t)) in c {
      if t: int :| t > now && (key, Entry(v, t)) in c { LookupIs(c, key, Entry(v, t)); }
      if Hit(c, key, now) == Some(v) {
        var e := Lookup(c, key).value;
        LookupIs(c, key, e);
        assert (key, Entry(v, e.expires)) in c;
      }
    }
    forall x ensures x in AfterGet(c, key, now) <==> x in c && !(x.0 == key && x.1.expires <= now) {
      InRemove(c, key, x);
      LookupIs(c, x.0, x.1);
    }
  }

  // ---------------------------------------------------------------- dropping while walking

  lemma {:induction false} DropPrefixAppend<V(!new)>(a: Ordered<V>, b: Ordered<V>, prefix: string)
    ensures DropPrefix(a + b, prefix) == DropPrefix(a, prefix) + DropPrefix(b, prefix)
  {
    if a == [] {
      assert a + b == b;
    } else {
      assert (a + b)[1..] == a[1..] + b;
      DropPrefixAppend(a[1..], b, prefix);
    }
  }

  function Keys<V(!new)>(c: Ordered<V>): (keys: seq<string>)
    ensures |keys| == |c| && forall j :: 0 <= j < |c| ==> keys[j] == c[j].0
  {
    seq(|c|, j requires 0 <= j < |c| => c[j].0)
  }

  lemma {:induction false} RemoveAt<V(!new)>(a: Ordered<V>, x: (string, Entry<V>), b: Ordered<V>)
    requires DistinctKeys(a + [x] + b)
    ensures Remove(a + [x] + b, x.0) == a + b
  {
    if a == [] {
      assert a + [x] + b == [x] + b && ([x] + b)[1..] == b && a + b == b;
      assert forall j :: 0 <= j < |b| ==> b[j] == ([x] + b)[j + 1];
      RemoveAbsent(b, x.0);
    } else {
      var all := a + [x] + b;
      assert all[1..] == a[1..] + [x] + b && all[0] == a[0];
      assert all[|a|] == x;
      assert DistinctKeys(all[1..]);
      RemoveAt(a[1..], x, b);
      assert a + b == [a[0]] + (a[1..] + b);
    }
  }

  lemma {:induction false} RemoveAbsent<V(!new)>(c: Ordered<V>, key: string)
    requires forall j :: 0 <= j < |c| ==> c[j].0 != key
    ensures Remove(c, key) == c
  {
    if c != [] {
      RemoveAbsent(c[1..], key);
      assert c == [c[0]] + c[1..];
    }
  }
}
