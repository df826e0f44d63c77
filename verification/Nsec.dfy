/** The chain of NSEC records a server builds (nsec_zone, server/src/authority/authority.rs) and
    the denial check a client runs over some of them (verify_nsec,
    client/src/client/secure_client_handle.rs). */
module Nsec {
  import opened Basics
  import opened Names
  import opened Records

  /** The types keyed at one name. */
  datatype Group = Group(owner: Name, types: seq<RecordType>)

  /** A run of keys, cut where the name changes. */
  function Groups(ks: seq<RrKey>): seq<Group> {
    if ks == [] then [] else Merge(Group(ks[0].name, [ks[0].rtype]), Groups(ks[1..]))
  }

  function Merge(g: Group, gs: seq<Group>): seq<Group> {
    if gs != [] && gs[0].owner == g.owner then [Group(g.owner, g.types + gs[0].types)] + gs[1..] else [g] + gs
  }

  /** A record that carries NSEC data. */
  type NsecRr = r: Record | r.rdata.Nsec? witness Record([], NSEC, IN, 0, RData.Nsec([], []))

  function MakeNsec(owner: Name, next: Name, types: seq<RecordType>, ttl: U32): NsecRr {
    Record(owner, NSEC, IN, ttl, RData.Nsec(next, types))
  }

  /** One NSEC record a group, each naming the next group's owner and the last the origin. */
  function Chain(gs: seq<Group>, origin: Name, ttl: U32): (rs: seq<NsecRr>)
    ensures |rs| == |gs|
  {
    if gs == [] then []
    else [MakeNsec(gs[0].owner, NextOwner(gs, 0, origin), gs[0].types, ttl)] + Chain(gs[1..], origin, ttl)
  }

  function NextOwner(gs: seq<Group>, i: nat, origin: Name): Name {
    if i + 1 < |gs| then gs[i + 1].owner else origin
  }

  lemma {:induction false} ChainAt(gs: seq<Group>, origin: Name, ttl: U32, i: nat)
    requires i < |gs|
    ensures Chain(gs, origin, ttl)[i] == MakeNsec(gs[i].owner, NextOwner(gs, i, origin), gs[i].types, ttl)
  {
    if i > 0 {
      ChainAt(gs[1..], origin, ttl, i - 1);
    }
  }

  lemma {:induction false} MergeIntoNext(g: Group, t: RecordType, gs: seq<Group>)
    ensures Merge(Group(g.owner, g.types + [t]), gs) == Merge(g, Merge(Group(g.owner, [t]), gs))
  {
    if gs != [] && gs[0].owner == g.owner {
      assert (g.types + [t]) + gs[0].types == g.types + ([t] + gs[0].types);
    }
  }

  lemma {:induction false} GroupsHead(ks: seq<RrKey>)
    requires ks != []
    ensures Groups(ks) != [] && Groups(ks)[0].owner == ks[0].name
  {
  }

  /** The chain still to come, with a group pending before the keys from an index on. */
  function ChainFrom(pending: Group, ks: seq<RrKey>, i: nat, origin: Name, ttl: U32): seq<NsecRr>
    requires i <= |ks|
  {
    Chain(Merge(pending, Groups(ks[i..])), origin, ttl)
  }

  /** One key further: either the pending group takes its type, or its record is done and names
      the key; at the end its record names the origin. */
  lemma ChainStep(pending: Group, ks: seq<RrKey>, i: nat, origin: Name, ttl: U32)
    requires i <= |ks|
    ensures i < |ks| && pending.owner == ks[i].name ==>
              ChainFrom(pending, ks, i, origin, ttl) ==
              ChainFrom(Group(pending.owner, pending.types + [ks[i].rtype]), ks, i + 1, origin, ttl)
    ensures i < |ks| && pending.owner != ks[i].name ==>
              ChainFrom(pending, ks, i, origin, ttl) ==
              [MakeNsec(pending.owner, ks[i].name, pending.types, ttl)] +
              ChainFrom(Group(ks[i].name, [ks[i].rtype]), ks, i + 1, origin, ttl)
    ensures i == |ks| ==>
              ChainFrom(pending, ks, i, origin, ttl) == [MakeNsec(pending.owner, origin, pending.types, ttl)]
  {
    if i < |ks| {
      assert ks[i..][0] == ks[i] && ks[i..][1..] == ks[i + 1..];
      GroupsHead(ks[i..]);
      if pending.owner == ks[i].name {
        MergeIntoNext(pending, ks[i].rtype, Groups(ks[i + 1..]));
      } else {
        assert ([pending] + Groups(ks[i..]))[1..] == Groups(ks[i..]);
      }
    } else {
      assert ks[i..] == [] && Groups(ks[i..]) == [];
    }
  }

  /** The loop of nsec_zone over the keys in order: extend the pending group while the name stays,
      emit its record when the name changes, close the last one at the origin. */
  method BuildChain(ks: seq<RrKey>, origin: Name, ttl: U32) returns (rs: seq<NsecRr>)
    ensures rs == Chain(Groups(ks), origin, ttl)
  {
    rs := [];
    if ks == [] {
      return;
    }
    var pending := Group(ks[0].name, [ks[0].rtype]);
    var i := 1;
    while i < |ks|
      invariant 1 <= i <= |ks|
      invariant Chain(Groups(ks), origin, ttl) == rs + ChainFrom(pending, ks, i, origin, ttl)
    {
      ChainStep(pending, ks, i, origin, ttl);
      if pending.owner == ks[i].name {
        pending := Group(pending.owner, pending.types + [ks[i].rtype]);
      } else {
        rs := rs + [MakeNsec(pending.owner, ks[i].name, pending.types, ttl)];
        pending := Group(ks[i].name, [ks[i].rtype]);
      }
      i := i + 1;
    }
    ChainStep(pending, ks, i, origin, ttl);
    rs := rs + [MakeNsec(pending.owner, origin, pending.types, ttl)];
  }

  // ----- What the chain holds -----

  ghost predicate OwnersAscend(gs: seq<Group>) {
    forall i, j :: 0 <= i < j < |gs| ==> NameLt(gs[i].owner, gs[j].owner)
  }

  ghost predicate TypesAscend(ts: seq<RecordType>) {
    forall i, j :: 0 <= i < j < |ts| ==> Code(ts[i]) < Code(ts[j])
  }

  lemma AscendingTail(ks: seq<RrKey>)
    requires ks != [] && Ascending(ks)
    ensures Ascending(ks[1..])
    ensures forall k :: k in ks[1..] ==> KeyLt(ks[0], k)
  {
    var t := ks[1..];
    forall i, j | 0 <= i < j < |t| ensures KeyLt(t[i], t[j]) {
      assert t[i] == ks[i + 1] && t[j] == ks[j + 1];
    }
    forall k | k in t ensures KeyLt(ks[0], k) {
      var i :| 0 <= i < |t| && t[i] == k;
      assert ks[i + 1] == k;
    }
  }

  /** The keys that a list of groups stands for. */
  ghost predicate Lists(gs: seq<Group>, k: RrKey) {
    exists i :: 0 <= i < |gs| && gs[i].owner == k.name && k.rtype in gs[i].types
  }

  ghost predicate SameKeys(gs: seq<Group>, ks: seq<RrKey>) {
    forall k: RrKey :: Lists(gs, k) <==> k in ks
  }

  ghost predicate GoodGroups(gs: seq<Group>) {
    && OwnersAscend(gs)
    && forall i :: 0 <= i < |gs| ==> gs[i].types != [] && TypesAscend(gs[i].types)
  }

  lemma MergeGood(g: Group, gs: seq<Group>)
    requires GoodGroups(gs) && g.types != [] && TypesAscend(g.types)
    requires forall i :: 0 <= i < |gs| ==> NameLt(g.owner, gs[i].owner) || (i == 0 && gs[0].owner == g.owner)
    requires gs != [] && gs[0].owner == g.owner ==>
               forall t, u :: t in g.types && u in gs[0].types ==> Code(t) < Code(u)
    ensures GoodGroups(Merge(g, gs))
  {
    if gs != [] && gs[0].owner == g.owner {
      var ts := g.types + gs[0].types;
      forall i, j | 0 <= i < j < |ts| ensures Code(ts[i]) < Code(ts[j]) {
        if i < |g.types| <= j {
          assert ts[i] in g.types && ts[j] in gs[0].types;
        }
      }
    }
  }

  lemma MergeLists(g: Group, gs: seq<Group>, k: RrKey)
    ensures Lists(Merge(g, gs), k) <==> (g.owner == k.name && k.rtype in g.types) || Lists(gs, k)
  {
    var m := Merge(g, gs);
    if gs != [] && gs[0].owner == g.owner {
      assert m[0].types == g.types + gs[0].types;
      if Lists(gs, k) {
        var i :| 0 <= i < |gs| && gs[i].owner == k.name && k.rtype in gs[i].types;
        assert m[i].owner == k.name && k.rtype in m[i].types;
      }
      if Lists(m, k) {
        var i :| 0 <= i < |m| && m[i].owner == k.name && k.rtype in m[i].types;
        assert i > 0 ==> gs[i] == m[i];
      }
      if g.owner == k.name && k.rtype in g.types {
        assert k.rtype in m[0].types;
      }
    } else {
      if Lists(gs, k) {
        var i :| 0 <= i < |gs| && gs[i].owner == k.name && k.rtype in gs[i].types;
        assert m[i + 1] == gs[i];
      }
      if Lists(m, k) {
        var i :| 0 <= i < |m| && m[i].owner == k.name && k.rtype in m[i].types;
        assert i > 0 ==> gs[i - 1] == m[i];
      }
      if g.owner == k.name && k.rtype in g.types {
        assert m[0] == g;
      }
    }
  }

  /** From keys in order: owners in strict canonical order, each with its types in strict order of
      their codes, and together exactly the keys. */
  lemma {:induction false} GroupsOfAscending(ks: seq<RrKey>)
    requires Ascending(ks)
    ensures GoodGroups(Groups(ks)) && SameKeys(Groups(ks), ks)
  {
    if ks != [] {
      AscendingTail(ks);
      GroupsOfAscending(ks[1..]);
      var gs := Groups(ks[1..]);
      var g := Group(ks[0].name, [ks[0].rtype]);
      forall i | 0 <= i < |gs| ensures NameLt(g.owner, gs[i].owner) || (i == 0 && gs[0].owner == g.owner) {
        var k := RrKey(gs[i].owner, gs[i].types[0]);
        assert Lists(gs, k);
        KeyOrder(ks[0], k, k);
        if i > 0 && gs[i].owner == g.owner {
          var k0 := RrKey(gs[0].owner, gs[0].types[0]);
          assert Lists(gs, k0);
          KeyOrder(ks[0], k0, k0);
          NameOrder(gs[0].owner, gs[i].owner, gs[0].owner);
        }
      }
      if gs != [] && gs[0].owner == g.owner {
        forall t, u | t in g.types && u in gs[0].types ensures Code(t) < Code(u) {
          assert Lists(gs, RrKey(gs[0].owner, u));
          KeyOrder(ks[0], RrKey(gs[0].owner, u), ks[0]);
          NameOrder(g.owner, g.owner, g.owner);
        }
      }
      MergeGood(g, gs);
      forall k: RrKey ensures Lists(Groups(ks), k) <==> k in ks {
        MergeLists(g, gs, k);
        assert ks == [ks[0]] + ks[1..];
      }
    }
  }

  // ----- The client's check -----

  /** What one NSEC record proves absent: a type it does not list at its own name, or a name
      strictly between its own and the next. */
  predicate Proves(qname: Name, qtype: RecordType, r: NsecRr) {
    if NameEq(qname, r.name) then qtype !in r.rdata.types
    else NameLt(Lower(r.name), Lower(qname)) && NameLt(Lower(qname), Lower(r.rdata.next))
  }

  /** verify_nsec: any record with the name asked for proves the type absent, or any other record
      covers the name. */
  predicate VerifyNsec(qname: Name, qtype: RecordType, nsecs: seq<NsecRr>) {
    || (exists r :: r in nsecs && NameEq(qname, r.name) && Proves(qname, qtype, r))
    || (exists r :: r in nsecs && !NameEq(qname, r.name) && Proves(qname, qtype, r))
  }

  /** The keys of a zone that the chain is about: all but those of NSEC sets, held lowered. */
  ghost predicate ZoneKeys(ks: seq<RrKey>, origin: Name) {
    && Ascending(ks)
    && forall k :: k in ks ==> Lower(k.name) == k.name && IsSuffix(Lower(origin), k.name)
  }

  lemma OwnersLowered(ks: seq<RrKey>, origin: Name, i: nat)
    requires ZoneKeys(ks, origin) && i < |Groups(ks)|
    ensures Lower(Groups(ks)[i].owner) == Groups(ks)[i].owner
    ensures NameLeq(Lower(origin), Groups(ks)[i].owner)
  {
    GroupsOfAscending(ks);
    var gs := Groups(ks);
    var k := RrKey(gs[i].owner, gs[i].types[0]);
    assert Lists(gs, k);
    ZoneLeqMembers(Lower(origin), k.name);
  }

  /** Owners are distinct, so the group at a name is all that is keyed there. */
  lemma OwnerListsAll(gs: seq<Group>, i: nat, k: RrKey)
    requires GoodGroups(gs) && i < |gs| && gs[i].owner == k.name
    ensures Lists(gs, k) <==> k.rtype in gs[i].types
  {
    if Lists(gs, k) {
      var j :| 0 <= j < |gs| && gs[j].owner == k.name && k.rtype in gs[j].types;
      NameOrder(k.name, k.name, k.name);
      assert i == j;
    }
  }

  /** Nothing is keyed strictly between two neighbours of the chain, nor after its last owner. */
  lemma GapIsEmpty(gs: seq<Group>, i: nat, k: RrKey)
    requires GoodGroups(gs) && i < |gs| && NameLt(gs[i].owner, k.name)
    requires i + 1 < |gs| ==> NameLt(k.name, gs[i + 1].owner)
    ensures !Lists(gs, k)
  {
    forall j | 0 <= j < |gs| ensures gs[j].owner != k.name {
      NameOrder(gs[i].owner, k.name, gs[j].owner);
      NameOrder(gs[j].owner, gs[i].owner, k.name);
      if i + 1 < |gs| {
        NameOrder(k.name, gs[i + 1].owner, gs[j].owner);
      }
    }
  }

  lemma LinkSound(ks: seq<RrKey>, origin: Name, ttl: U32, qname: Name, qtype: RecordType, i: nat)
    requires ZoneKeys(ks, origin) && i < |Groups(ks)|
    requires Proves(qname, qtype, Chain(Groups(ks), origin, ttl)[i])
    ensures KeyOf(qname, qtype) !in ks
  {
    GroupsOfAscending(ks);
    var gs := Groups(ks);
    var k := KeyOf(qname, qtype);
    ChainAt(gs, origin, ttl, i);
    OwnersLowered(ks, origin, i);
    if NameEq(qname, gs[i].owner) {
      OwnerListsAll(gs, i, k);
    } else if i + 1 < |gs| {
      OwnersLowered(ks, origin, i + 1);
      GapIsEmpty(gs, i, k);
    } else {
      GapIsEmpty(gs, i, k);
    }
  }

  /** Soundness: whatever part of the chain a response carries, a denial it proves is true. */
  lemma DenialSound(ks: seq<RrKey>, origin: Name, ttl: U32, qname: Name, qtype: RecordType, nsecs: seq<NsecRr>)
    requires ZoneKeys(ks, origin)
    requires forall r :: r in nsecs ==> r in Chain(Groups(ks), origin, ttl)
    requires VerifyNsec(qname, qtype, nsecs)
    ensures KeyOf(qname, qtype) !in ks
  {
    var chain := Chain(Groups(ks), origin, ttl);
    var r :| r in nsecs && Proves(qname, qtype, r);
    var i :| 0 <= i < |chain| && chain[i] == r;
    LinkSound(ks, origin, ttl, qname, qtype, i);
  }

  /** The last owner at or before a name that is at or after the first. */
  lemma {:induction false} LastAtOrBefore(gs: seq<Group>, n: Name, upTo: nat) returns (i: nat)
    requires GoodGroups(gs) && 0 < upTo <= |gs| && NameLeq(gs[0].owner, n)
    ensures i < upTo && NameLeq(gs[i].owner, n)
    ensures i + 1 < upTo ==> NameLt(n, gs[i + 1].owner)
  {
    NameOrder(gs[upTo - 1].owner, n, n);
    NameOrder(n, gs[upTo - 1].owner, n);
    if upTo == 1 || NameLeq(gs[upTo - 1].owner, n) {
      i := upTo - 1;
    } else {
      i := LastAtOrBefore(gs, n, upTo - 1);
    }
  }

  /** Completeness: the whole chain of a zone with a set at its origin proves a pair absent exactly
      when nothing is keyed there and the name lies from the origin up to the greatest owner. */
  lemma DenialComplete(ks: seq<RrKey>, origin: Name, ttl: U32, qname: Name, qtype: RecordType)
    requires ZoneKeys(ks, origin) && (exists k :: k in ks && k.name == Lower(origin))
    ensures Groups(ks) != []
    ensures VerifyNsec(qname, qtype, Chain(Groups(ks), origin, ttl)) <==>
            KeyOf(qname, qtype) !in ks && NameLeq(Lower(origin), Lower(qname))
            && NameLeq(Lower(qname), Last(Groups(ks)).owner)
  {
    FirstIsOrigin(ks, origin);
    var gs := Groups(ks);
    var chain := Chain(gs, origin, ttl);
    if VerifyNsec(qname, qtype, chain) {
      DenialSound(ks, origin, ttl, qname, qtype, chain);
      var r :| r in chain && Proves(qname, qtype, r);
      var i :| 0 <= i < |chain| && chain[i] == r;
      LinkBounds(ks, origin, ttl, qname, qtype, i);
    }
    if KeyOf(qname, qtype) !in ks && NameLeq(Lower(origin), Lower(qname)) && NameLeq(Lower(qname), Last(gs).owner) {
      GroupsOfAscending(ks);
      var i := LastAtOrBefore(gs, Lower(qname), |gs|);
      LinkProves(ks, origin, ttl, qname, qtype, i);
      assert chain[i] in chain;
    }
  }

  lemma FirstIsOrigin(ks: seq<RrKey>, origin: Name)
    requires ZoneKeys(ks, origin) && (exists k :: k in ks && k.name == Lower(origin))
    ensures Groups(ks) != [] && Groups(ks)[0].owner == Lower(origin)
  {
    GroupsOfAscending(ks);
    var gs := Groups(ks);
    var k0 :| k0 in ks && k0.name == Lower(origin);
    assert Lists(gs, k0);
    var j :| 0 <= j < |gs| && gs[j].owner == Lower(origin);
    OwnersLowered(ks, origin, 0);
    NameOrder(Lower(origin), gs[0].owner, Lower(origin));
    NameOrder(gs[0].owner, Lower(origin), gs[0].owner);
  }

  /** What one link proves lies within the chain. */
  lemma LinkBounds(ks: seq<RrKey>, origin: Name, ttl: U32, qname: Name, qtype: RecordType, i: nat)
    requires ZoneKeys(ks, origin) && i < |Groups(ks)|
    requires Proves(qname, qtype, Chain(Groups(ks), origin, ttl)[i])
    ensures NameLeq(Lower(origin), Lower(qname)) && NameLeq(Lower(qname), Last(Groups(ks)).owner)
  {
    GroupsOfAscending(ks);
    var gs := Groups(ks);
    var q := Lower(qname);
    var last := Last(gs).owner;
    ChainAt(gs, origin, ttl, i);
    var owner, apex := gs[i].owner, Lower(origin);
    OwnersLowered(ks, origin, i);
    OwnerUpToLast(gs, i);
    NameTrans(apex, owner, q);
    NameOrder(q, q, q);
    if q == owner {
    } else if i + 1 < |gs| {
      OwnersLowered(ks, origin, i + 1);
      OwnerUpToLast(gs, i + 1);
      NameTrans(owner, q, q);
      NameTrans(q, gs[i + 1].owner, last);
      NameTrans(q, last, last);
    } else {
      NameTrans(q, apex, q);
      NameTrans(owner, q, apex);
      NameTrans(owner, apex, q);
    }
  }

  lemma OwnerUpToLast(gs: seq<Group>, i: nat)
    requires GoodGroups(gs) && i < |gs|
    ensures NameLeq(gs[i].owner, Last(gs).owner)
  {
    NameOrder(gs[i].owner, Last(gs).owner, gs[i].owner);
  }

  lemma LinkProves(ks: seq<RrKey>, origin: Name, ttl: U32, qname: Name, qtype: RecordType, i: nat)
    requires ZoneKeys(ks, origin) && i < |Groups(ks)|
    requires KeyOf(qname, qtype) !in ks
    requires NameLeq(Groups(ks)[i].owner, Lower(qname)) && NameLeq(Lower(qname), Last(Groups(ks)).owner)
    requires i + 1 < |Groups(ks)| ==> NameLt(Lower(qname), Groups(ks)[i + 1].owner)
    ensures Proves(qname, qtype, Chain(Groups(ks), origin, ttl)[i])
  {
    GroupsOfAscending(ks);
    var gs := Groups(ks);
    ChainAt(gs, origin, ttl, i);
    OwnersLowered(ks, origin, i);
    NameOrder(gs[i].owner, Lower(qname), gs[i].owner);
    if Lower(qname) == gs[i].owner {
      OwnerListsAll(gs, i, KeyOf(qname, qtype));
    } else if i + 1 < |gs| {
      OwnersLowered(ks, origin, i + 1);
    } else {
      NameOrder(Lower(qname), gs[i].owner, gs[i].owner);
    }
  }
}
