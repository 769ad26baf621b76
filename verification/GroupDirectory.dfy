/** Group claims by connection: each connection keeps its own slice, a member's groups are the union of the
    slices, and the authorization store is their image. */
module GroupDirectory {
  import opened Text
  import opened GroupSync

  // ---------------------------------------------------------------- retrying a sync

  /** Attempts of one diff that each failed part way, from `states[0]` on. */
  ghost predicate Attempts(gid: GroupId, sub: string, prev: seq<string>, next: seq<string>, states: seq<set<Membership>>) {
    forall i :: 0 < i < |states| ==> PartWay(gid, sub, prev, next, states[i - 1], states[i])
  }

  /** However many attempts failed part way, the one that returns leaves what the first would have left. */
  lemma {:induction false} RetriesConverge(gid: GroupId, sub: string, prev: seq<string>, next: seq<string>,
                                           states: seq<set<Membership>>, t: Membership)
    requires states != [] && Attempts(gid, sub, prev, next, states)
    ensures Wanted(gid, sub, prev, next, t in states[|states| - 1], t)
            == Wanted(gid, sub, prev, next, t in states[0], t)
    decreases |states|
  {
    if |states| > 1 {
      var n := |states| - 1;
      assert PartWay(gid, sub, prev, next, states[n - 1], states[n]);
      RetriesConverge(gid, sub, prev, next, states[..n], t);
    }
  }

  // ---------------------------------------------------------------- slices and their union

  type Slices = map<(string, string), seq<string>>

  function Union(slices: Slices, sub: string): set<string> {
    set k, g | k in slices && k.1 == sub && g in slices[k] :: g
  }

  function Image(gid: GroupId, members: map<string, set<string>>): set<Membership> {
    set sub, g | sub in members && g in members[sub] :: Membership(sub, gid(g))
  }

  /** An array of the set's elements, in some order. */
  method Listed(s: set<string>) returns (list: seq<string>)
    ensures forall g :: g in list <==> g in s
  {
    list := [];
    var rest := s;
    while rest != {}
      invariant forall g :: g in s <==> g in list || g in rest
      decreases |rest|
    {
      var g :| g in rest;
      list, rest := list + [g], rest - {g};
    }
  }

  /** Syncing one member from what the members table said to what it will say keeps the store its image. */
  lemma SyncKeepsImage(gid: GroupId, members: map<string, set<string>>, sub: string, prev: seq<string>, next: seq<string>,
                       before: set<Membership>, after: set<Membership>)
    requires Injective(gid) && before == Image(gid, members)
    requires forall g :: g in prev <==> sub in members && g in members[sub]
    requires forall t :: t in after <==> Wanted(gid, sub, prev, next, t in before, t)
    ensures after == Image(gid, members[sub := set g | g in next])
  {
    var target := members[sub := set g | g in next];
    forall t ensures t in after <==> t in Image(gid, target) {
      if g :| t == Membership(sub, gid(g)) && (g in prev || g in next) {
        InImage(gid, members, sub, g);
        InImage(gid, target, sub, g);
        assert Differs(prev, next, g) <==> ((g in prev) != (g in next));
      } else {
        if t in Image(gid, members) {
          var s, g :| s in members && g in members[s] && t == Membership(s, gid(g));
          InImage(gid, target, s, g);
        }
        if t in Image(gid, target) {
          var s, g :| s in target && g in target[s] && t == Membership(s, gid(g));
          InImage(gid, members, s, g);
        }
      }
    }
  }

  lemma InImage(gid: GroupId, members: map<string, set<string>>, sub: string, g: string)
    requires Injective(gid)
    ensures Membership(sub, gid(g)) in Image(gid, members) <==> sub in members && g in members[sub]
  {}

  /** The slices that are not the connection's. */
  function Without(slices: Slices, conn: string): Slices { map k | k in slices && k.0 != conn :: slices[k] }

  /** The members that hold a slice of the connection. */
  function Carriers(slices: Slices, conn: string): set<string> { set k | k in slices && k.0 == conn :: k.1 }

  lemma RevokedIs(slices: Slices, conn: string)
    ensures forall sub :: sub !in Carriers(slices, conn) ==> Union(Without(slices, conn), sub) == Union(slices, sub)
    ensures forall sub :: sub in Carriers(slices, conn) ==> (conn, sub) in slices
    ensures forall k :: k in Without(slices, conn) ==> k in slices
  {
    OtherUnions(slices, Without(slices, conn), conn, Carriers(slices, conn));
  }

  class Directory {
    const gid: GroupId
    const fga: FgaGroups
    var slices: Slices
    var members: map<string, set<string>>

    /** Every member's groups are the union of its slices, no slice names nobody, and the store is the image. */
    ghost predicate Valid()
      reads this, fga
    {
      && Injective(gid)
      && (forall sub :: sub in members ==> members[sub] == Union(slices, sub))
      && (forall k :: k in slices ==> k.1 in members)
      && fga.tuples == Image(gid, members)
    }

    constructor (gid: GroupId, fga: FgaGroups)
      requires Injective(gid) && fga.tuples == {}
      ensures Valid() && this.fga == fga && slices == map[] && members == map[]
    {
      this.gid, this.fga := gid, fga;
      slices, members := map[], map[];
    }

    /** One member's row is set to `groups` and the store brought along. */
    method SyncRow(rows: map<string, set<string>>, sub: string, groups: set<string>) returns (ok: bool)
      requires Injective(gid) && fga.tuples == Image(gid, rows)
      modifies fga
      ensures ok ==> fga.tuples == Image(gid, rows[sub := groups])
    {
      hide Image, Wanted, PartWay, Injective;
      var prev := Listed(if sub in rows then rows[sub] else {});
      var next := Listed(groups);
      ghost var before := fga.tuples;
      ok := SyncMemberGroups(fga, gid, sub, prev, next);
      if ok {
        SyncKeepsImage(gid, rows, sub, prev, next, before, fga.tuples);
        assert (set g | g in next) == groups;
      }
    }

    /** A login through a connection, in one transaction: a failed sync rolls the rows back. */
    method Login(conn: string, sub: string, groups: seq<string>) returns (ok: bool)
      requires Valid()
      modifies this`slices, this`members, fga
      ensures ok ==> Valid() && slices == old(slices)[(conn, sub) := groups]
                     && members == old(members)[sub := Union(old(slices)[(conn, sub) := groups], sub)]
      ensures !ok ==> slices == old(slices) && members == old(members)
    {
      hide Image, Union, Injective;
      var newSlices := slices[(conn, sub) := groups];
      ok := SyncRow(members, sub, Union(newSlices, sub));
      if ok {
        OtherUnions(slices, newSlices, conn, {sub});
        slices, members := newSlices, members[sub := Union(newSlices, sub)];
      }
    }

    /** The connection is no longer trusted: every slice of it goes, member by member, in one transaction. */
    method RevokeConnection(conn: string) returns (ok: bool)
      requires Valid()
      modifies this`slices, this`members, fga
      ensures ok ==> Valid() && slices == Without(old(slices), conn)
      ensures ok ==> members.Keys == old(members).Keys
      ensures !ok ==> slices == old(slices) && members == old(members)
    {
      hide Image, Union, Injective, Without, Carriers;
      RevokedIs(slices, conn);
      var remaining := Without(slices, conn);
      var affected := Listed(Carriers(slices, conn));
      var rows := members;
      for i := 0 to |affected|
        invariant slices == old(slices) && members == old(members)
        invariant rows.Keys == members.Keys && fga.tuples == Image(gid, rows)
        invariant forall sub :: sub in rows ==>
                    rows[sub] == if sub in affected[..i] then Union(remaining, sub) else Union(slices, sub)
      {
        var sub := affected[i];
        assert sub in affected && (conn, sub) in slices;
        var ok1 := SyncRow(rows, sub, Union(remaining, sub));
        if !ok1 { return false; }
        rows := rows[sub := Union(remaining, sub)];
        assert affected[..i + 1] == affected[..i] + [sub];
      }
      assert affected[..|affected|] == affected;
      slices, members := remaining, rows;
      return true;
    }

    /** One member's link to the connection goes; nobody else's slice does. */
    method RevokeSlice(conn: string, sub: string) returns (ok: bool)
      requires Valid()
      modifies this`slices, this`members, fga
      ensures ok ==> Valid() && slices == old(slices) - {(conn, sub)}
                     && members == if (conn, sub) in old(slices)
                                   then old(members)[sub := Union(old(slices) - {(conn, sub)}, sub)] else old(members)
      ensures !ok ==> slices == old(slices) && members == old(members)
    {
      hide Image, Union, Injective;
      if (conn, sub) !in slices {
        assert slices - {(conn, sub)} == slices;
        return true;
      }
      var newSlices := slices - {(conn, sub)};
      ok := SyncRow(members, sub, Union(newSlices, sub));
      if ok {
        OtherUnions(slices, newSlices, conn, {sub});
        slices, members := newSlices, members[sub := Union(newSlices, sub)];
      }
    }
  }

  /** A change confined to one connection's slices of some members leaves the others' unions alone. */
  lemma OtherUnions(a: Slices, b: Slices, conn: string, subs: set<string>)
    requires forall k: (string, string) :: k.0 != conn || k.1 !in subs ==> (k in a <==> k in b)
    requires forall k: (string, string) :: k in a && k in b && (k.0 != conn || k.1 !in subs) ==> a[k] == b[k]
    ensures forall sub :: sub !in subs ==> Union(a, sub) == Union(b, sub)
  {
    forall sub | sub !in subs ensures Union(a, sub) == Union(b, sub) {
      assert forall g :: g in Union(a, sub) <==> g in Union(b, sub);
    }
  }

  /** No connection's claim is lost to another's: a member's groups hold every slice it has. */
  lemma UnionHoldsEverySlice(slices: Slices, conn: string, sub: string)
    requires (conn, sub) in slices
    ensures forall g :: g in Union(slices, sub) <==>
              g in slices[(conn, sub)] || g in Union(slices - {(conn, sub)}, sub)
  {
    var rest := slices - {(conn, sub)};
    forall g ensures g in Union(slices, sub) <==> g in slices[(conn, sub)] || g in Union(rest, sub) {
      if k :| k in slices && k.1 == sub && g in slices[k] {
        if k != (conn, sub) { assert k in rest && rest[k] == slices[k]; }
      }
      if k :| k in rest && k.1 == sub && g in rest[k] { assert k in slices && slices[k] == rest[k]; }
    }
  }
}
