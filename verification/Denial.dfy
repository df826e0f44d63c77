/** Which NSEC record a server answers with (get_nsec_records of
    server/src/authority/authority.rs), and when a client takes it as a denial. */
module Denial {
  import opened Basics
  import opened Names
  import opened Records
  import opened RrSets
  import opened Zones
  import opened Nsec
  import opened Signing
  import opened Freshness

  /** Among the NSEC sets in order, skip those the name comes before and take the next one. */
  function FirstNotAfter(z: Zone, ks: seq<RrKey>, name: Name): Option<RrKey>
    requires forall k :: k in ks ==> k in z
  {
    if ks == [] then None
    else if z[ks[0]].rtype == NSEC && !NameLt(Lower(name), Lower(z[ks[0]].name)) then Some(ks[0])
    else FirstNotAfter(z, ks[1..], name)
  }

  function GetNsecRecords(z: Zone, name: Name): seq<Record> {
    match FirstNotAfter(z, InOrder(z.Keys), name)
    case None => []
    case Some(k) => Recs(z, k)
  }

  /** An NSEC set whose owner is at or before a name. */
  predicate NotAfter(z: Zone, k: RrKey, name: Name)
    requires k in z
  {
    z[k].rtype == NSEC && NameLeq(Lower(z[k].name), Lower(name))
  }

  /** The search takes the first such set in the order of the keys, and none exactly when there is
      none. */
  lemma {:induction false} SearchExactly(z: Zone, ks: seq<RrKey>, name: Name)
    requires forall k :: k in ks ==> k in z
    ensures match FirstNotAfter(z, ks, name)
            case None => forall i :: 0 <= i < |ks| ==> !NotAfter(z, ks[i], name)
            case Some(k) => exists i :: FirstAt(z, ks, name, i) && ks[i] == k
    decreases |ks|
  {
    if ks != [] {
      assert ks[0] in ks;
      CmpNamesFlip(Lower(name), Lower(z[ks[0]].name));
      if NotAfter(z, ks[0], name) {
        assert FirstAt(z, ks, name, 0);
      } else {
        SearchExactly(z, ks[1..], name);
        if i :| FirstAt(z, ks[1..], name, i) && Some(ks[1..][i]) == FirstNotAfter(z, ks, name) {
          assert FirstAt(z, ks, name, i + 1);
        }
      }
    }
  }

  ghost predicate FirstAt(z: Zone, ks: seq<RrKey>, name: Name, i: int)
    requires forall k :: k in ks ==> k in z
  {
    0 <= i < |ks| && NotAfter(z, ks[i], name) && forall j :: 0 <= j < i ==> !NotAfter(z, ks[j], name)
  }

  /** The least NSEC owner at or before the name is what the search stops at. */
  lemma {:induction false} StopsAtLeast(z: Zone, ks: seq<RrKey>, name: Name, k: RrKey)
    requires WellFormed(z) && (forall x :: x in ks ==> x in z) && Ascending(ks)
    requires k in ks && k.rtype == NSEC && NameLeq(k.name, Lower(name))
    requires forall x :: x in ks && x.rtype == NSEC ==> NameLeq(k.name, x.name)
    ensures FirstNotAfter(z, ks, name) == Some(k)
    decreases |ks|
  {
    var h := ks[0];
    assert h in ks && SetAt(h, z[h]);
    NameOrder(Lower(name), k.name, k.name);
    CmpNamesFlip(k.name, Lower(name));
    if h == k {
    } else {
      AscendingTail(ks);
      assert ks == [h] + ks[1..];
      KeyOrder(h, k, h);
      NameOrder(k.name, h.name, k.name);
      NameTrans(h.name, k.name, h.name);
      StopsAtLeast(z, ks[1..], name, k);
    }
  }

  /** A chained zone with a set at its origin. */
  ghost predicate ChainedWithOrigin(z: Zone, origin: Name) {
    && WellFormed(z) && Inside(z, origin) && ChainCurrent(z, origin)
    && exists k :: k in DataKeys(z) && k.name == Lower(origin)
  }

  lemma LeastNsecIsOrigin(z: Zone, origin: Name)
    requires ChainedWithOrigin(z, origin)
    ensures var gs := Groups(InOrder(DataKeys(z)));
            && gs != [] && gs[0].owner == Lower(origin)
            && RrKey(Lower(origin), NSEC) in z && ChainedAt(z, gs, origin, 0)
  {
    var ks := InOrder(DataKeys(z));
    var gs := Groups(ks);
    ZoneNamesLowered(z);
    assert ZoneKeys(ks, origin);
    FirstIsOrigin(ks, origin);
    assert ChainedAt(z, gs, origin, 0);
  }

  /** Whatever name at or after the origin is asked for, the server answers with the origin's own
      NSEC record. */
  lemma AlwaysTheFirst(z: Zone, origin: Name, name: Name)
    requires ChainedWithOrigin(z, origin)
    requires NameLeq(Lower(origin), Lower(name))
    ensures GetNsecRecords(z, name) == Recs(z, RrKey(Lower(origin), NSEC))
  {
    LeastNsecIsOrigin(z, origin);
    OriginIsLeast(z, origin);
    FindsLeast(z, name, RrKey(Lower(origin), NSEC));
  }

  lemma FindsLeast(z: Zone, name: Name, k: RrKey)
    requires WellFormed(z) && k in z && k.rtype == NSEC && NameLeq(k.name, Lower(name))
    requires forall x :: x in z ==> NameLeq(k.name, x.name)
    ensures GetNsecRecords(z, name) == Recs(z, k)
  {
    StopsAtLeast(z, InOrder(z.Keys), name, k);
  }

  lemma OriginIsLeast(z: Zone, origin: Name)
    requires Inside(z, origin)
    ensures forall x :: x in z ==> NameLeq(Lower(origin), x.name)
  {
    forall x | x in z ensures NameLeq(Lower(origin), x.name) {
      ZoneLeqMembers(Lower(origin), x.name);
    }
  }

  lemma OriginLinkProves(z: Zone, gs: seq<Group>, origin: Name, r: NsecRr, qname: Name, qtype: RecordType)
    requires gs != [] && GoodGroups(gs) && gs[0].owner == Lower(origin)
    requires |gs| > 1 ==> Lower(gs[1].owner) == gs[1].owner
    requires r.rdata == Chain(gs, origin, 0)[0].rdata && Lower(r.name) == Lower(origin)
    requires NameLeq(Lower(origin), Lower(qname)) && !Lists(gs, KeyOf(qname, qtype))
    ensures Proves(qname, qtype, r) <==> NameEq(qname, origin) || (|gs| > 1 && NameLt(Lower(qname), gs[1].owner))
  {
    ChainAt(gs, origin, 0, 0);
    if NameEq(qname, origin) {
      OwnerListsAll(gs, 0, KeyOf(qname, qtype));
    } else {
      NameOrder(Lower(origin), Lower(qname), Lower(origin));
      NameTrans(Lower(origin), Lower(qname), Lower(origin));
    }
  }

  lemma Singleton(qname: Name, qtype: RecordType, nsecs: seq<NsecRr>)
    requires |nsecs| == 1
    ensures VerifyNsec(qname, qtype, nsecs) == Proves(qname, qtype, nsecs[0])
  {
    assert nsecs[0] in nsecs;
  }

  /** Of the absent pairs at or after the origin, the server's own denial convinces the client
      exactly for the origin's types and for names before the second owner of the zone; it does not
      pick the record that covers the name. */
  lemma ServerDenialExactly(z: Zone, origin: Name, qname: Name, qtype: RecordType, nsecs: seq<NsecRr>)
    requires ChainedWithOrigin(z, origin)
    requires NameLeq(Lower(origin), Lower(qname)) && KeyOf(qname, qtype) !in DataKeys(z)
    requires nsecs == GetNsecRecords(z, qname)
    ensures var gs := Groups(InOrder(DataKeys(z)));
            VerifyNsec(qname, qtype, nsecs) <==>
              NameEq(qname, origin) || (|gs| > 1 && NameLt(Lower(qname), gs[1].owner))
  {
    var ks := InOrder(DataKeys(z));
    var gs := Groups(ks);
    AlwaysTheFirst(z, origin, qname);
    LeastNsecIsOrigin(z, origin);
    GroupsOfAscending(ks);
    Singleton(qname, qtype, nsecs);
    if |gs| > 1 { OwnerLowered(z, 1); }
    OriginLinkProves(z, gs, origin, nsecs[0], qname, qtype);
  }

  /** So it fails for every absent pair at or after some owner past the origin, though the chain has a
      record that proves the pair absent up to its greatest owner. */
  lemma DenialFails(z: Zone, origin: Name, k: RrKey, qname: Name, qtype: RecordType, nsecs: seq<NsecRr>)
    requires ChainedWithOrigin(z, origin)
    requires k in DataKeys(z) && k.name != Lower(origin) && NameLeq(k.name, Lower(qname))
    requires KeyOf(qname, qtype) !in DataKeys(z) && nsecs == GetNsecRecords(z, qname)
    ensures !VerifyNsec(qname, qtype, nsecs)
  {
    var gs := Groups(InOrder(DataKeys(z)));
    ZoneLeqMembers(Lower(origin), k.name);
    NameTrans(Lower(origin), k.name, Lower(qname));
    ServerDenialExactly(z, origin, qname, qtype, nsecs);
    LeastNsecIsOrigin(z, origin);
    SecondOwner(InOrder(DataKeys(z)), k);
    NameOrder(k.name, Lower(origin), k.name);
    NameOrder(Lower(origin), k.name, k.name);
    NameTrans(gs[1].owner, k.name, Lower(qname));
    NameOrder(gs[1].owner, Lower(qname), gs[1].owner);
  }

  lemma SecondOwner(ks: seq<RrKey>, k: RrKey)
    requires Ascending(ks) && k in ks && Groups(ks) != [] && Groups(ks)[0].owner != k.name
    ensures |Groups(ks)| > 1 && NameLeq(Groups(ks)[1].owner, k.name)
  {
    var gs := Groups(ks);
    GroupsOfAscending(ks);
    assert Lists(gs, k);
    var j :| 0 <= j < |gs| && gs[j].owner == k.name && k.rtype in gs[j].types;
    NameOrder(gs[1].owner, gs[j].owner, gs[1].owner);
  }

  /** What the server answers are NSEC records. */
  lemma ServedAsNsec(z: Zone, origin: Name, name: Name) returns (nsecs: seq<NsecRr>)
    requires ChainedWithOrigin(z, origin)
    requires NameLeq(Lower(origin), Lower(name))
    ensures nsecs == GetNsecRecords(z, name)
  {
    AlwaysTheFirst(z, origin, name);
    LeastNsecIsOrigin(z, origin);
    nsecs := OnlyNsec(Recs(z, RrKey(Lower(origin), NSEC)), Groups(InOrder(DataKeys(z))), origin);
  }

  lemma OnlyNsec(rs: seq<Record>, gs: seq<Group>, origin: Name) returns (nsecs: seq<NsecRr>)
    requires gs != [] && |rs| == 1 && rs[0].rdata == Chain(gs, origin, 0)[0].rdata
    ensures nsecs == rs
  {
    ChainAt(gs, origin, 0, 0);
    nsecs := [rs[0]];
  }

  lemma SameDataKeys(z: Zone, z': Zone)
    requires SameData(z, z')
    ensures DataKeys(z') == DataKeys(z)
  {
  }

  lemma ChainedByNsecZone(z0: Zone, origin: Name, signers: seq<Signer>)
    requires WellFormed(z0) && Inside(z0, origin) && signers != []
    requires exists x :: x in DataKeys(z0) && x.name == Lower(origin)
    ensures ChainedWithOrigin(NsecZone(z0, origin, signers), origin)
    ensures DataKeys(NsecZone(z0, origin, signers)) == DataKeys(z0)
  {
    NsecZoneChains(z0, origin, signers);
    SameDataKeys(z0, NsecZone(z0, origin, signers));
    InsideByChain(z0, NsecZone(z0, origin, signers), origin);
  }

  lemma InsideByChain(z0: Zone, z: Zone, origin: Name)
    requires Inside(z0, origin) && DataKeys(z) == DataKeys(z0) && ChainCurrent(z, origin)
    ensures Inside(z, origin)
  {
    forall k: RrKey | k in z && k.rtype != NSEC ensures IsSuffix(Lower(origin), k.name) {
      assert k in DataKeys(z);
    }
    ChainInside(z, origin);
  }

  /** A chained zone asked for a name between two of its owners: the pair is absent and the whole chain
      proves it, but the record the server picks does not. */
  lemma DenialFailsBetween(z: Zone, origin: Name, first: RrKey, last: RrKey, asked: Name, t: RecordType)
    returns (nsecs: seq<NsecRr>)
    requires ChainedWithOrigin(z, origin)
    requires first in DataKeys(z) && last in DataKeys(z) && KeyOf(asked, t) !in DataKeys(z)
    requires first.name != Lower(origin) && NameLeq(first.name, Lower(asked)) && NameLeq(Lower(asked), last.name)
    ensures nsecs == GetNsecRecords(z, asked) && !VerifyNsec(asked, t, nsecs)
    ensures VerifyNsec(asked, t, ChainFor(z, origin, 0))
  {
    ZoneLeqMembers(Lower(origin), first.name);
    NameTrans(Lower(origin), first.name, Lower(asked));
    nsecs := ServedAsNsec(z, origin, asked);
    DenialFails(z, origin, first, asked, t, nsecs);
    ChainProves(z, origin, last, asked, t);
  }

  lemma ChainProves(z: Zone, origin: Name, last: RrKey, asked: Name, t: RecordType)
    requires ChainedWithOrigin(z, origin)
    requires last in DataKeys(z) && KeyOf(asked, t) !in DataKeys(z)
    requires NameLeq(Lower(origin), Lower(asked)) && NameLeq(Lower(asked), last.name)
    ensures VerifyNsec(asked, t, ChainFor(z, origin, 0))
  {
    var ks := InOrder(DataKeys(z));
    ZoneNamesLowered(z);
    assert ZoneKeys(ks, origin);
    DenialComplete(ks, origin, 0, asked, t);
    GroupsOfAscending(ks);
    var gs := Groups(ks);
    assert Lists(gs, last);
    var j :| 0 <= j < |gs| && gs[j].owner == last.name;
    OwnerUpToLast(gs, j);
    NameTrans(Lower(asked), last.name, Last(gs).owner);
  }

  // ----- A zone where it fails -----

  function SetOf(name: Name, t: RecordType, d: RData): RrSet {
    RrSet(name, t, IN, 0, [Record(name, t, IN, 0, d)], [], 0)
  }

  /** An SOA at the origin and an address at each of two names under it. */
  function SmallZone(origin: Name, first: Name, last: Name): Zone {
    map[KeyOf(origin, SOA) := SetOf(origin, SOA, Soa(SoaData([], [], 1, [], 0))),
        KeyOf(first, A) := SetOf(first, A, Opaque(A, [1])),
        KeyOf(last, A) := SetOf(last, A, Opaque(A, [2]))]
  }

  lemma SmallZoneWellFormed(origin: Name, first: Name, last: Name)
    requires ZoneOf(origin, first) && ZoneOf(origin, last) && !NameEq(first, last)
    ensures WellFormed(SmallZone(origin, first, last)) && Inside(SmallZone(origin, first, last), origin)
  {
    assert SetAt(KeyOf(origin, SOA), SetOf(origin, SOA, Soa(SoaData([], [], 1, [], 0))));
    assert SetAt(KeyOf(first, A), SetOf(first, A, Opaque(A, [1])));
    assert SetAt(KeyOf(last, A), SetOf(last, A, Opaque(A, [2])));
    assert IsSuffix(Lower(origin), Lower(origin));
  }

  lemma SmallZoneKeys(origin: Name, first: Name, last: Name)
    ensures DataKeys(SmallZone(origin, first, last)) == {KeyOf(origin, SOA), KeyOf(first, A), KeyOf(last, A)}
  {
  }

  /** The names z, a.z, b.z and c.z, in this order. */
  lemma SmallNames(origin: Name, first: Name, asked: Name, last: Name)
    requires origin == [[122]] && first == [[97], [122]] && asked == [[98], [122]] && last == [[99], [122]]
    ensures ZoneOf(origin, first) && ZoneOf(origin, asked) && ZoneOf(origin, last)
    ensures !NameEq(first, origin) && !NameEq(first, asked) && !NameEq(last, asked) && !NameEq(first, last)
    ensures NameLeq(Lower(first), Lower(asked)) && NameLeq(Lower(asked), Lower(last))
  {
    assert LowerLabel([97]) == [97] && LowerLabel([98]) == [98]
           && LowerLabel([99]) == [99] && LowerLabel([122]) == [122];
    assert Lower(origin) == origin && Lower(first) == first && Lower(asked) == asked && Lower(last) == last;
    assert Init(first) == [[97]] && Init(asked) == [[98]] && Init(last) == [[99]];
    CmpBytesEqual([122], [122]);
  }

  /** In the zone z with addresses at a.z and c.z, chained by nsec_zone and asked for the address of
      b.z. */
  lemma DenialFailsHere(origin: Name, first: Name, asked: Name, last: Name, signers: seq<Signer>, z: Zone)
    returns (nsecs: seq<NsecRr>)
    requires origin == [[122]] && first == [[97], [122]] && asked == [[98], [122]] && last == [[99], [122]]
    requires signers != [] && z == NsecZone(SmallZone(origin, first, last), origin, signers)
    ensures ChainedWithOrigin(z, origin) && KeyOf(asked, A) !in z
    ensures nsecs == GetNsecRecords(z, asked) && !VerifyNsec(asked, A, nsecs)
    ensures VerifyNsec(asked, A, ChainFor(z, origin, 0))
  {
    SmallNames(origin, first, asked, last);
    SmallZoneChained(origin, first, last, signers, z);
    nsecs := DenialFailsWith(z, origin, first, asked, last);
  }

  lemma DenialFailsWith(z: Zone, origin: Name, first: Name, asked: Name, last: Name) returns (nsecs: seq<NsecRr>)
    requires ChainedWithOrigin(z, origin)
    requires DataKeys(z) == {KeyOf(origin, SOA), KeyOf(first, A), KeyOf(last, A)}
    requires !NameEq(first, origin) && !NameEq(first, asked) && !NameEq(last, asked)
    requires NameLeq(Lower(first), Lower(asked)) && NameLeq(Lower(asked), Lower(last))
    ensures KeyOf(asked, A) !in z && nsecs == GetNsecRecords(z, asked) && !VerifyNsec(asked, A, nsecs)
    ensures VerifyNsec(asked, A, ChainFor(z, origin, 0))
  {
    ThreeKeys(z, origin, first, asked, last);
    nsecs := DenialFailsBetween(z, origin, KeyOf(first, A), KeyOf(last, A), asked, A);
  }

  lemma ThreeKeys(z: Zone, origin: Name, first: Name, asked: Name, last: Name)
    requires DataKeys(z) == {KeyOf(origin, SOA), KeyOf(first, A), KeyOf(last, A)}
    requires !NameEq(first, asked) && !NameEq(last, asked)
    ensures KeyOf(first, A) in DataKeys(z) && KeyOf(last, A) in DataKeys(z)
    ensures KeyOf(asked, A) !in DataKeys(z) && KeyOf(asked, A) !in z
  {
    assert KeyOf(asked, A) in z ==> KeyOf(asked, A) in DataKeys(z);
  }

  lemma SmallZoneChained(origin: Name, first: Name, last: Name, signers: seq<Signer>, z: Zone)
    requires ZoneOf(origin, first) && ZoneOf(origin, last) && !NameEq(first, last)
    requires signers != [] && z == NsecZone(SmallZone(origin, first, last), origin, signers)
    ensures ChainedWithOrigin(z, origin)
    ensures DataKeys(z) == {KeyOf(origin, SOA), KeyOf(first, A), KeyOf(last, A)}
  {
    SmallZoneWellFormed(origin, first, last);
    SmallZoneKeys(origin, first, last);
    assert KeyOf(origin, SOA) in DataKeys(SmallZone(origin, first, last));
    ChainedByNsecZone(SmallZone(origin, first, last), origin, signers);
  }
}
