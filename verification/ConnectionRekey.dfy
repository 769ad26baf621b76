/** Re-keying: declaring that a new sign-in connection supersedes an old one links every member the old one
    minted to the new one, all or nothing. */
module ConnectionRekey {
  import opened Text

  datatype Connection = Connection(issuer: string, clientId: string, prefix: Option<string>)

  /** A link's place: the connection and the subject it knows the member by. */
  datatype Slot = Slot(connection: string, external: string)

  type Links = map<Slot, string>

  datatype Refusal = NotFound | NoSubjectPrefix | IssuerMismatch | ClientIdMismatch

  datatype Collision = Collision(oldSub: string, otherSub: string)

  datatype Outcome = Refused(why: Refusal) | Collided(collisions: seq<Collision>) | Applied(linksWritten: nat)

  /** `supersessionMismatch` and the checks around it. */
  function Declarable(newConn: Option<Connection>, oldConn: Option<Connection>): Option<Refusal> {
    if newConn.None? || oldConn.None? then Some(NotFound)
    else if oldConn.value.prefix.None? || newConn.value.prefix.None? then Some(NoSubjectPrefix)
    else if newConn.value.issuer != oldConn.value.issuer then Some(IssuerMismatch)
    else if newConn.value.clientId != oldConn.value.clientId then Some(ClientIdMismatch)
    else None
  }

  /** SQL's `LIKE prefix%` for a prefix in which only the underscore is special: it stands for any character. */
  predicate Like(prefix: string, sub: string) {
    |prefix| <= |sub| && forall i :: 0 <= i < |prefix| ==> prefix[i] == '_' || prefix[i] == sub[i]
  }

  function Rest(prefix: string, sub: string): string { if |prefix| <= |sub| then sub[|prefix|..] else "" }

  /** Members whose subject the old connection minted, as the query finds them. */
  function Carriers(members: set<string>, prefix: string): set<string> { set s | s in members && Like(prefix, s) }

  /** The other member that already holds the place `sub` would take on the new connection. */
  function Clash(members: set<string>, links: Links, newId: string, newPrefix: string, sub: string, x: string): Option<string> {
    var slot := Slot(newId, x);
    if slot in links && links[slot] != sub then Some(links[slot])
    else if newPrefix + x in members && newPrefix + x != sub then Some(newPrefix + x)
    else None
  }

  /** The carrier `c.oldSub` cannot take its place because of `c.otherSub`. */
  predicate Collides(members: set<string>, links: Links, newId: string, newPrefix: string, oldPrefix: string, c: Collision) {
    Clash(members, links, newId, newPrefix, c.oldSub, Rest(oldPrefix, c.oldSub)) == Some(c.otherSub)
  }

  /** No two carriers are known to the identity provider by one subject. */
  ghost predicate DistinctRests(members: set<string>, prefix: string) {
    forall a, b :: a in Carriers(members, prefix) && b in Carriers(members, prefix) && Rest(prefix, a) == Rest(prefix, b) ==> a == b
  }

  /** When every carrier has the prefix to the letter, as minted subjects do, the rests are distinct. */
  lemma LiteralPrefixIsDistinct(members: set<string>, prefix: string)
    requires forall s :: s in Carriers(members, prefix) ==> prefix <= s
    ensures DistinctRests(members, prefix)
  {
    forall a, b | a in Carriers(members, prefix) && b in Carriers(members, prefix) && Rest(prefix, a) == Rest(prefix, b)
      ensures a == b
    {
      assert a == prefix + Rest(prefix, a) && b == prefix + Rest(prefix, b);
    }
  }

  /** Every carrier signs in through the new connection as the member it always was, and nobody among `seated`
      sits at its place. */
  ghost predicate AllCarriedOver(members: set<string>, seated: set<string>, links: Links, newId: string, newPrefix: string, oldPrefix: string) {
    forall s :: s in Carriers(members, oldPrefix) ==>
      var slot := Slot(newId, Rest(oldPrefix, s));
      slot in links && links[slot] == s && (newPrefix + Rest(oldPrefix, s) in seated ==> newPrefix + Rest(oldPrefix, s) == s)
  }

  /** What sign-ins through the new connection commit between the check and the writes: links of their own, where
      there were none, and the members they let in. */
  datatype Arrivals = Arrivals(links: Links, members: set<string>)

  function WithArrivals(links: Links, others: Links): Links {
    map k | k in links.Keys + others.Keys :: if k in links then links[k] else others[k]
  }

  /** Somebody else has taken the place of a carrier in between. */
  ghost predicate Overtaken(members: set<string>, links: Links, between: Arrivals, newId: string, newPrefix: string, oldPrefix: string) {
    exists s :: s in Carriers(members, oldPrefix)
      && Clash(between.members, WithArrivals(links, between.links), newId, newPrefix, s, Rest(oldPrefix, s)).Some?
  }

  class Tenant {
    var connections: map<string, Connection>
    var members: set<string>
    var links: Links

    constructor (connections: map<string, Connection>, members: set<string>, links: Links)
      ensures this.connections == connections && this.members == members && this.links == links
    {
      this.connections, this.members, this.links := connections, members, links;
    }

    function Find(id: string): Option<Connection>
      reads this`connections
    { if id in connections then Some(connections[id]) else None }

    /** The rows of a query, in some order. */
    method Listed(s: set<string>) returns (list: seq<string>)
      ensures forall x :: x in list <==> x in s
      ensures forall i, j :: 0 <= i < j < |list| ==> list[i] != list[j]
    {
      list := [];
      var rest := s;
      while rest != {}
        invariant forall x :: x in s <==> x in list || x in rest
        invariant forall x :: x in list ==> x !in rest
        invariant forall i, j :: 0 <= i < j < |list| ==> list[i] != list[j]
        decreases |rest|
      {
        var x :| x in rest;
        list, rest := list + [x], rest - {x};
      }
    }

    /** `applyConnectionSupersession`. A collision, or a pair that may not be declared, writes nothing. The check
        and the writes are one transaction but see what others commit; `between` is what they commit after the
        check. */
    method ApplySupersession(newId: string, oldId: string, between: Arrivals) returns (r: Outcome)
      modifies this`links, this`members
      ensures r.Refused? <==> Declarable(Find(newId), Find(oldId)).Some?
      ensures r.Refused? ==> Declarable(Find(newId), Find(oldId)) == Some(r.why)
      ensures !r.Applied? ==> links == old(links) && members == old(members)
      ensures !r.Refused? ==> Find(oldId).Some? && Find(newId).Some? && Find(oldId).value.prefix.Some? && Find(newId).value.prefix.Some?
      ensures r.Collided? ==> r.collisions != []
      ensures r.Collided? ==>
                var oldPrefix, newPrefix := Find(oldId).value.prefix.value, Find(newId).value.prefix.value;
                (forall c :: c in r.collisions ==> c.oldSub in Carriers(members, oldPrefix))
                && (forall c: Collision :: c.oldSub in Carriers(members, oldPrefix) ==>
                      (c in r.collisions <==> Collides(members, links, newId, newPrefix, oldPrefix, c)))
      ensures r.Applied? ==>
                var oldPrefix, newPrefix := Find(oldId).value.prefix.value, Find(newId).value.prefix.value;
                var met := WithArrivals(old(links), between.links);
                (forall c: Collision :: c.oldSub in Carriers(old(members), oldPrefix) ==>
                   !Collides(old(members), old(links), newId, newPrefix, oldPrefix, c))
                && r.linksWritten == |links| - |met| && members == old(members) + between.members
                && Grown(old(members), met, links, newId, oldPrefix)
                && (AllCarriedOver(old(members), members, links, newId, newPrefix, oldPrefix)
                    <==> DistinctRests(old(members), oldPrefix)
                         && !Overtaken(old(members), old(links), between, newId, newPrefix, oldPrefix))
    {
      var refusal := Declarable(Find(newId), Find(oldId));
      if refusal.Some? { return Refused(refusal.value); }
      var oldPrefix, newPrefix := Find(oldId).value.prefix.value, Find(newId).value.prefix.value;
      var carriers := Listed(Carriers(members, oldPrefix));
      var collisions := FindCollisions(carriers, newId, newPrefix, oldPrefix);
      if collisions != [] {
        assert collisions[0] in collisions;
        return Collided(collisions);
      }
      assert forall c :: c !in collisions;
      forall s | s in Carriers(members, oldPrefix)
        ensures Clash(members, links, newId, newPrefix, s, Rest(oldPrefix, s)).None?
      {
        var c := Clash(members, links, newId, newPrefix, s, Rest(oldPrefix, s));
        assert c.Some? ==> Collides(members, links, newId, newPrefix, oldPrefix, Collision(s, c.value));
      }
      ghost var checked, before := members, links;
      links, members := WithArrivals(links, between.links), members + between.members;
      var written := WriteLinks(carriers, checked, newId, oldPrefix);
      GrownCarriesOver(checked, before, between, links, newId, newPrefix, oldPrefix);
      r := Applied(written);
    }

    /** The first pass: every collision, over the whole set, before anything is written. */
    method FindCollisions(carriers: seq<string>, newId: string, newPrefix: string, oldPrefix: string)
      returns (collisions: seq<Collision>)
      ensures forall c :: c in collisions <==> (c.oldSub in carriers && Collides(members, links, newId, newPrefix, oldPrefix, c))
    {
      collisions := [];
      for i := 0 to |carriers|
        invariant forall c :: c in collisions <==>
                    (c.oldSub in carriers[..i] && Collides(members, links, newId, newPrefix, oldPrefix, c))
      {
        var sub, x := carriers[i], Rest(oldPrefix, carriers[i]);
        assert carriers[..i + 1] == carriers[..i] + [sub];
        var slot := Slot(newId, x);
        if slot in links && links[slot] != sub {
          collisions := collisions + [Collision(sub, links[slot])];
        } else if newPrefix + x in members && newPrefix + x != sub {
          collisions := collisions + [Collision(sub, newPrefix + x)];
        }
      }
      assert carriers[..|carriers|] == carriers;
    }

    /** The second pass: one link for each carrier, an existing one left as it is. */
    method WriteLinks(carriers: seq<string>, ghost checked: set<string>, newId: string, oldPrefix: string) returns (written: nat)
      requires forall s :: s in carriers <==> s in Carriers(checked, oldPrefix)
      modifies this`links
      ensures written == |links| - |old(links)| && Grown(checked, old(links), links, newId, oldPrefix)
    {
      ghost var before := links;
      written := 0;
      for i := 0 to |carriers|
        invariant written == |links| - |before|
        invariant forall k :: k in before ==> k in links && links[k] == before[k]
        invariant forall k :: k in links && k !in before ==>
                    exists s :: s in carriers[..i] && k == Slot(newId, Rest(oldPrefix, s)) && links[k] == s
        invariant forall s :: s in carriers[..i] ==> Slot(newId, Rest(oldPrefix, s)) in links
      {
        var sub := carriers[i];
        var slot := Slot(newId, Rest(oldPrefix, sub));
        assert carriers[..i + 1] == carriers[..i] + [sub];
        if slot !in links {
          links := links[slot := sub];
          written := written + 1;
        }
      }
      assert carriers[..|carriers|] == carriers;
    }
  }

  /** What a re-key writes: a place for each carrier, no existing link changed, and every new link a
      carrier's own. */
  ghost predicate Grown(members: set<string>, before: Links, after: Links, newId: string, oldPrefix: string) {
    && (forall k :: k in before ==> k in after && after[k] == before[k])
    && (forall k :: k in after && k !in before ==>
          exists s :: s in Carriers(members, oldPrefix) && k == Slot(newId, Rest(oldPrefix, s)) && after[k] == s)
    && (forall s :: s in Carriers(members, oldPrefix) ==> Slot(newId, Rest(oldPrefix, s)) in after)
  }

  /** With no collision found the re-key carries everyone over exactly when no two carriers share a subject and
      nobody has taken a carrier's place since the check. */
  lemma GrownCarriesOver(members: set<string>, before: Links, between: Arrivals, after: Links,
                         newId: string, newPrefix: string, oldPrefix: string)
    requires Grown(members, WithArrivals(before, between.links), after, newId, oldPrefix)
    requires forall s :: s in Carriers(members, oldPrefix) ==> Clash(members, before, newId, newPrefix, s, Rest(oldPrefix, s)).None?
    ensures AllCarriedOver(members, members + between.members, after, newId, newPrefix, oldPrefix)
            <==> DistinctRests(members, oldPrefix) && !Overtaken(members, before, between, newId, newPrefix, oldPrefix)
  {
    hide Like, Rest;
    var met := WithArrivals(before, between.links);
    if DistinctRests(members, oldPrefix) && !Overtaken(members, before, between, newId, newPrefix, oldPrefix) {
      forall s | s in Carriers(members, oldPrefix) ensures after[Slot(newId, Rest(oldPrefix, s))] == s {
        assert Clash(between.members, met, newId, newPrefix, s, Rest(oldPrefix, s)).None?;
      }
      forall s | s in Carriers(members, oldPrefix) && newPrefix + Rest(oldPrefix, s) in members + between.members
        ensures newPrefix + Rest(oldPrefix, s) == s
      {
        assert Clash(members, before, newId, newPrefix, s, Rest(oldPrefix, s)).None?;
        assert Clash(between.members, met, newId, newPrefix, s, Rest(oldPrefix, s)).None?;
      }
    }
    if AllCarriedOver(members, members + between.members, after, newId, newPrefix, oldPrefix) {
      forall a, b | a in Carriers(members, oldPrefix) && b in Carriers(members, oldPrefix) && Rest(oldPrefix, a) == Rest(oldPrefix, b)
        ensures a == b
      {
        assert after[Slot(newId, Rest(oldPrefix, a))] == a && after[Slot(newId, Rest(oldPrefix, b))] == b;
      }
      forall s | s in Carriers(members, oldPrefix)
        ensures Clash(between.members, met, newId, newPrefix, s, Rest(oldPrefix, s)).None?
      {
        var slot := Slot(newId, Rest(oldPrefix, s));
        assert after[slot] == s && (slot in met ==> after[slot] == met[slot]);
      }
    }
  }

  /** Run again, a re-key that carried everyone over finds no collision and has nothing to write. */
  lemma SecondRunWritesNothing(members: set<string>, links: Links, again: Links, newId: string, newPrefix: string, oldPrefix: string)
    requires AllCarriedOver(members, members, links, newId, newPrefix, oldPrefix)
    requires Grown(members, links, again, newId, oldPrefix)
    ensures again == links
    ensures forall s :: s in Carriers(members, oldPrefix) ==> Clash(members, links, newId, newPrefix, s, Rest(oldPrefix, s)).None?
  {
    hide Like, Rest;
    forall k | k in again ensures k in links {
      assert k in links || exists s :: s in Carriers(members, oldPrefix) && k == Slot(newId, Rest(oldPrefix, s));
    }
    assert again.Keys == links.Keys;
  }

  /** The underscore that ends a minted prefix matches any character, so a member of another connection can
      be taken for a carrier and share a carrier's subject. */
  lemma UnderscoreMatchesAnything()
    ensures var members := {"wc1_x", "wc1-x"};
      Carriers(members, "wc1_") == members && !DistinctRests(members, "wc1_")
  {
    var members := {"wc1_x", "wc1-x"};
    assert Rest("wc1_", "wc1_x") == "x" == Rest("wc1_", "wc1-x");
    assert "wc1_x"[3] != "wc1-x"[3];
    assert "wc1_x" in Carriers(members, "wc1_") && "wc1-x" in Carriers(members, "wc1_");
  }
}
