/** The per-viewer title-dictionary cache and the page-tree confirm cache that borrows its generation
    counter, as the objects the server mutates in place. */
module ViewerCaches {
  import opened Text
  import opened OrderedCache

  function DictKey(tenant: string, subject: string): string { tenant + "\0" + subject }

  function TreeKey(tenant: string, subject: string, space: string): string { tenant + " " + subject + " " + space }

  function GenerationOf(generation: map<string, nat>, tenant: string): nat {
    if tenant in generation then generation[tenant] else 0
  }

  class TitleDictCache<V(!new)> {
    var cache: Ordered<V>
    var generation: map<string, nat>
    var inflight: set<string>

    ghost predicate Valid() reads this { Bounded(cache) }

    constructor ()
      ensures Valid() && cache == [] && generation == map[] && inflight == {}
    {
      cache, generation, inflight := [], map[], {};
    }

    method Get(tenant: string, subject: string, now: int) returns (hit: Option<V>)
      requires Valid()
      modifies this`cache
      ensures Valid()
      ensures hit == Hit(old(cache), DictKey(tenant, subject), now)
      ensures cache == AfterGet(old(cache), DictKey(tenant, subject), now)
    {
      var key := DictKey(tenant, subject);
      GetIs(cache, key, now);
      match Lookup(cache, key)
      case None =>
        hit := None;
      case Some(e) =>
        if e.expires <= now {
          cache := Remove(cache, key);
          hit := None;
        } else {
          hit := Some(e.value);
        }
    }

    method Set(tenant: string, subject: string, value: V, now: int, seen: Option<nat>)
      requires Valid()
      modifies this`cache
      ensures Valid()
      ensures cache ==
              if seen.Some? && seen.value != GenerationOf(generation, tenant) then old(cache)
              else Store(old(cache), DictKey(tenant, subject), value, now)
    {
      if seen.Some? && seen.value != GenerationOf(generation, tenant) { return; }
      StoreIs(cache, DictKey(tenant, subject), value, now);
      if |cache| >= MAX_ENTRIES {
        cache := cache[1..];
      }
      cache := Put(cache, DictKey(tenant, subject), Entry(value, now + TTL_MS));
    }

    /** Deletes by a snapshot of the keys. */
    method Invalidate(tenant: string)
      requires Valid()
      modifies this`cache, this`generation
      ensures Valid()
      ensures generation == old(generation)[tenant := GenerationOf(old(generation), tenant) + 1]
      ensures cache == DropPrefix(old(cache), DictKey(tenant, ""))
    {
      hide DropPrefix, Remove, Keys;
      generation := generation[tenant := GenerationOf(generation, tenant) + 1];
      var prefix := DictKey(tenant, "");
      ghost var before := cache;
      DropPrefixIs(before, prefix);
      var keys := Keys(cache);
      var i := 0;
      assert before[0..] == before && before[..0] == [];
      NothingDropped<V>(prefix);
      while i < |keys|
        invariant 0 <= i <= |keys|
        invariant generation == old(generation)[tenant := GenerationOf(old(generation), tenant) + 1]
        invariant cache == DropPrefix(before[..i], prefix) + before[i..]
      {
        SnapshotStep(before, prefix, i);
        if prefix <= keys[i] {
          cache := Remove(cache, keys[i]);
        }
        i := i + 1;
      }
      assert before[..|keys|] == before && before[|keys|..] == [];
      assert DropPrefix(before, prefix) + [] == DropPrefix(before, prefix);
    }

    method BeginFill(tenant: string, subject: string) returns (first: bool)
      modifies this`inflight
      ensures first <==> DictKey(tenant, subject) !in old(inflight)
      ensures inflight == old(inflight) + {DictKey(tenant, subject)}
    {
      var key := DictKey(tenant, subject);
      if key in inflight { return false; }
      inflight := inflight + {key};
      return true;
    }

    method EndFill(tenant: string, subject: string)
      modifies this`inflight
      ensures inflight == old(inflight) - {DictKey(tenant, subject)}
    {
      inflight := inflight - {DictKey(tenant, subject)};
    }
  }

  class TreeConfirmCache<V(!new), D(!new)> {
    const dict: TitleDictCache<D>
    var cache: Ordered<V>

    ghost predicate Valid() reads this { Bounded(cache) }

    constructor (dict: TitleDictCache<D>)
      ensures Valid() && cache == [] && this.dict == dict
    {
      this.dict := dict;
      cache := [];
    }

    method Get(tenant: string, subject: string, space: string, now: int) returns (hit: Option<V>)
      requires Valid()
      modifies this`cache
      ensures Valid()
      ensures hit == Hit(old(cache), TreeKey(tenant, subject, space), now)
      ensures cache == AfterGet(old(cache), TreeKey(tenant, subject, space), now)
    {
      var key := TreeKey(tenant, subject, space);
      GetIs(cache, key, now);
      match Lookup(cache, key)
      case None =>
        hit := None;
      case Some(e) =>
        if e.expires <= now {
          cache := Remove(cache, key);
          hit := None;
        } else {
          hit := Some(e.value);
        }
    }

    method Set(tenant: string, subject: string, space: string, value: V, now: int, seen: Option<nat>)
      requires Valid()
      modifies this`cache
      ensures Valid()
      ensures cache ==
              if seen.Some? && seen.value != GenerationOf(dict.generation, tenant) then old(cache)
              else Store(old(cache), TreeKey(tenant, subject, space), value, now)
    {
      if seen.Some? && seen.value != GenerationOf(dict.generation, tenant) { return; }
      StoreIs(cache, TreeKey(tenant, subject, space), value, now);
      if |cache| >= MAX_ENTRIES {
        cache := cache[1..];
      }
      cache := Put(cache, TreeKey(tenant, subject, space), Entry(value, now + TTL_MS));
    }

    /** Deletes while it walks the live map. */
    method Invalidate(tenant: string)
      requires Valid()
      modifies this`cache
      ensures Valid()
      ensures cache == DropPrefix(old(cache), tenant + " ")
    {
      hide DropPrefix;
      var prefix := tenant + " ";
      ghost var before := cache;
      DropPrefixIs(before, prefix);
      ghost var seen := 0;
      var i := 0;
      assert before[0..] == before && before[..0] == [];
      NothingDropped<V>(prefix);
      while i < |cache|
        invariant 0 <= seen <= |before| && 0 <= i
        invariant i == |DropPrefix(before[..seen], prefix)|
        invariant cache == DropPrefix(before[..seen], prefix) + before[seen..]
        decreases |cache| - i
      {
        WalkStep(before, prefix, seen);
        if prefix <= cache[i].0 {
          cache := cache[..i] + cache[i + 1..];
        } else {
          i := i + 1;
        }
        seen := seen + 1;
      }
      assert before[..seen] == before && before[seen..] == [];
      assert DropPrefix(before, prefix) + [] == DropPrefix(before, prefix);
    }
  }

  /** What the application wires to one invalidation signal: both caches forget in one synchronous step. */
  method InvalidateBoth<D(!new), V(!new)>(dict: TitleDictCache<D>, tree: TreeConfirmCache<V, D>, tenant: string)
    requires dict.Valid() && tree.Valid() && tree.dict == dict
    modifies dict`cache, dict`generation, tree`cache
    ensures dict.Valid() && tree.Valid()
    ensures dict.generation == old(dict.generation)[tenant := GenerationOf(old(dict.generation), tenant) + 1]
    ensures dict.cache == DropPrefix(old(dict.cache), DictKey(tenant, ""))
    ensures tree.cache == DropPrefix(old(tree.cache), tenant + " ")
  {
    dict.Invalidate(tenant);
    tree.Invalidate(tenant);
  }

  // ---------------------------------------------------------------- walking steps

  lemma SplitDrop<V(!new)>(c: Ordered<V>, prefix: string, i: nat)
    requires i < |c|
    ensures c[i..] == [c[i]] + c[i + 1..]
    ensures DropPrefix(c[..i + 1], prefix)
            == DropPrefix(c[..i], prefix) + if prefix <= c[i].0 then [] else [c[i]]
  {
    assert c[..i + 1] == c[..i] + [c[i]];
    DropPrefixAppend(c[..i], [c[i]], prefix);
  }

  /** One step of the walk over the live map, at the place the kept entries end. */
  lemma WalkStep<V(!new)>(c: Ordered<V>, prefix: string, seen: nat)
    requires seen < |c|
    ensures var now := DropPrefix(c[..seen], prefix) + c[seen..];
      var next := DropPrefix(c[..seen + 1], prefix) + c[seen + 1..];
      var i := |DropPrefix(c[..seen], prefix)|;
      i < |now| && now[i] == c[seen]
      && if prefix <= c[seen].0 then next == now[..i] + now[i + 1..] && |DropPrefix(c[..seen + 1], prefix)| == i
         else next == now && |DropPrefix(c[..seen + 1], prefix)| == i + 1
  {
    hide DropPrefix;
    SplitDrop(c, prefix, seen);
    var kept, rest := DropPrefix(c[..seen], prefix), c[seen + 1..];
    var now := kept + c[seen..];
    assert now == kept + ([c[seen]] + rest) == (kept + [c[seen]]) + rest;
    assert now[..|kept|] == kept && now[|kept| + 1..] == rest;
  }

  /** One step of the walk over a snapshot of the keys. */
  lemma SnapshotStep<V(!new)>(c: Ordered<V>, prefix: string, i: nat)
    requires DistinctKeys(c) && i < |c|
    ensures var now := DropPrefix(c[..i], prefix) + c[i..];
      var next := DropPrefix(c[..i + 1], prefix) + c[i + 1..];
      next == if prefix <= c[i].0 then Remove(now, c[i].0) else now
  {
    hide DropPrefix, Remove;
    WalkStep(c, prefix, i);
    WalkDistinct(c, prefix, i);
    var kept, rest := DropPrefix(c[..i], prefix), c[i + 1..];
    RemoveAt(kept, c[i], rest);
    assert kept + c[i..] == kept + [c[i]] + rest;
    assert (kept + [c[i]] + rest)[..|kept|] == kept && (kept + [c[i]] + rest)[|kept| + 1..] == rest;
  }

  lemma WalkDistinct<V(!new)>(c: Ordered<V>, prefix: string, i: nat)
    requires DistinctKeys(c) && i < |c|
    ensures DistinctKeys(DropPrefix(c[..i], prefix) + [c[i]] + c[i + 1..])
  {
    var a, b := DropPrefix(c[..i], prefix), [c[i]] + c[i + 1..];
    assert DistinctKeys(c[..i]);
    DropPrefixKeeps(c[..i], prefix);
    assert b == c[i..];
    forall x | x in a ensures exists k :: 0 <= k < i && c[k] == x { InDropPrefix(c[..i], prefix, x); }
    assert a + [c[i]] + c[i + 1..] == a + b;
    forall j, k | 0 <= j < k < |a + b| ensures (a + b)[j].0 != (a + b)[k].0 {
      if j < |a| <= k {
        assert a[j] in a;
        var m :| 0 <= m < i && c[m] == a[j];
        assert b[k - |a|] == c[i + k - |a|];
      } else if j >= |a| {
        assert b[j - |a|] == c[i + j - |a|] && b[k - |a|] == c[i + k - |a|];
      }
    }
  }

  lemma NothingDropped<V(!new)>(prefix: string)
    ensures DropPrefix<V>([], prefix) == []
  {}
}
