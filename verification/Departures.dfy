/** Where update handling (verify_prerequisites and update_records of server/src/authority/authority.rs,
    insert of client/src/rr/rr_set.rs) departs from RFC 2136 and RFC 1982, and exactly when the two
    agree. */
module Departures {
  import opened Basics
  import opened Names
  import opened Records
  import opened RrSets
  import opened Zones
  import opened PerKey
  import opened Builders

  // ----- Prerequisites that name values (section 3.2.3 of RFC 2136) -----

  /** The records of one key. */
  function At(rs: seq<Record>, k: RrKey): seq<Record> {
    if rs == [] then []
    else (if RecordKey(rs[0]) == k then [rs[0]] else []) + At(rs[1..], k)
  }

  lemma {:induction false} AtMembers(rs: seq<Record>, k: RrKey)
    ensures forall r :: r in At(rs, k) <==> r in rs && RecordKey(r) == k
  {
    if rs != [] {
      AtMembers(rs[1..], k);
      assert rs == [rs[0]] + rs[1..];
    }
  }

  /** A prerequisite of the zone's class that is a record of some set. */
  predicate Value(origin: Name, r: Record) {
    && ZoneOf(origin, r.name) && r.class_ == IN && r.ttl == 0 && !MetaType(r.rtype)
    && (r.rtype == SOA ==> NameEq(r.name, origin))
  }

  ghost predicate AllValues(origin: Name, pre: seq<Record>) {
    forall i :: 0 <= i < |pre| ==> Value(origin, pre[i])
  }

  /** The RFC: each set named is the set of the zone, no more and no less. */
  ghost predicate SetsEqual(z: Zone, pre: seq<Record>) {
    forall i :: 0 <= i < |pre| ==>
                  DataSet(At(pre, RecordKey(pre[i]))) == DataSet(Recs(z, RecordKey(pre[i])))
  }

  /** A record named that the zone does not hold. */
  ghost predicate Missing(z: Zone, r: Record) {
    !HasData(Recs(z, RecordKey(r)), r.rdata)
  }

  /** A key of which only some of the zone's records are named. */
  ghost predicate Short(z: Zone, pre: seq<Record>, k: RrKey) {
    DataSet(At(pre, k)) < DataSet(Recs(z, k))
  }

  /** The code: each record named is in the zone. */
  lemma PassesWhenHeld(z: Zone, origin: Name, pre: seq<Record>)
    requires WellFormed(z) && AllValues(origin, pre)
    ensures VerifyPrerequisites(z, origin, pre) == Pass <==> forall i :: 0 <= i < |pre| ==> !Missing(z, pre[i])
  {
    VerifyMeans(z, origin, pre);
    forall i | 0 <= i < |pre| ensures CheckPrerequisite(z, origin, pre[i]) == Pass <==> !Missing(z, pre[i]) {
      RequiredHolds(z, origin, RecordKey(pre[i]), pre[i]);
    }
  }

  lemma NamedData(pre: seq<Record>, i: nat)
    requires i < |pre|
    ensures FoldData(pre[i].rdata) in DataSet(At(pre, RecordKey(pre[i])))
  {
    AtMembers(pre, RecordKey(pre[i]));
    var at := At(pre, RecordKey(pre[i]));
    assert pre[i] in at;
    var j :| 0 <= j < |at| && at[j] == pre[i];
  }

  lemma HeldData(z: Zone, pre: seq<Record>, k: RrKey)
    requires forall i :: 0 <= i < |pre| ==> !Missing(z, pre[i])
    ensures DataSet(At(pre, k)) <= DataSet(Recs(z, k))
  {
    AtMembers(pre, k);
    var at := At(pre, k);
    forall d | d in DataSet(at) ensures d in DataSet(Recs(z, k)) {
      var j :| 0 <= j < |at| && FoldData(at[j].rdata) == d;
      assert at[j] in pre;
      DataSetMember(Recs(z, k), at[j].rdata);
    }
  }

  lemma EqualMeansHeld(z: Zone, pre: seq<Record>)
    ensures SetsEqual(z, pre) <==>
            forall i :: 0 <= i < |pre| ==> !Missing(z, pre[i]) && !Short(z, pre, RecordKey(pre[i]))
  {
    if SetsEqual(z, pre) {
      forall i | 0 <= i < |pre| ensures !Missing(z, pre[i]) {
        NamedData(pre, i);
        DataSetMember(Recs(z, RecordKey(pre[i])), pre[i].rdata);
      }
    }
    if forall i :: 0 <= i < |pre| ==> !Missing(z, pre[i]) && !Short(z, pre, RecordKey(pre[i])) {
      forall i | 0 <= i < |pre|
        ensures DataSet(At(pre, RecordKey(pre[i]))) == DataSet(Recs(z, RecordKey(pre[i])))
      {
        HeldData(z, pre, RecordKey(pre[i]));
        assert !Short(z, pre, RecordKey(pre[i]));
      }
    }
  }

  /** The code tests membership and the RFC equality: they agree on a section exactly when some record
      named is not held, or no set is named only in part. */
  lemma ValuePrerequisitesExactly(z: Zone, origin: Name, pre: seq<Record>)
    requires WellFormed(z) && AllValues(origin, pre)
    ensures (VerifyPrerequisites(z, origin, pre) == Pass <==> SetsEqual(z, pre)) <==>
            || (exists i :: 0 <= i < |pre| && Missing(z, pre[i]))
            || (forall i :: 0 <= i < |pre| ==> !Short(z, pre, RecordKey(pre[i])))
  {
    PassesWhenHeld(z, origin, pre);
    EqualMeansHeld(z, pre);
  }

  /** For a section of one key: exactly when what is named is not a proper part of what is held. */
  lemma OneKeyExactly(z: Zone, origin: Name, k: RrKey, pre: seq<Record>)
    requires WellFormed(z) && PlainType(k.rtype)
    requires forall i :: 0 <= i < |pre| ==> RecordKey(pre[i]) == k && Value(origin, pre[i])
    ensures (VerifyPrerequisites(z, origin, pre) == Pass <==> DataSet(pre) == DataSet(Recs(z, k))) <==>
            !(DataSet(pre) < DataSet(Recs(z, k)))
  {
    RequiredAll(z, origin, k, pre);
  }

  // ----- Additions (section 3.4.2.2 of RFC 2136) -----

  lemma AddedRecords(z: Zone, r: Record, serial: U32, k: RrKey)
    requires WellFormed(z) && r.class_ == IN && Insertable(r)
    ensures Recs(Upsert(z, r, serial).zone, k) ==
            if k == RecordKey(r) then AddTo(k.rtype, Recs(z, k), r) else Recs(z, k)
  {
    ApplyEffect(z, r.name, r, serial, k);
  }

  /** The RFC ignores a CNAME at a name with other data, and other data at a name with a CNAME. */
  ghost predicate CnameConflict(z: Zone, r: Record) {
    exists k: RrKey :: k.name == Lower(r.name) && Recs(z, k) != [] && (k.rtype == CNAME) != (r.rtype == CNAME)
  }

  /** An addition that finds its record there, or an SOA that is not newer. */
  ghost predicate AddsNothing(rs: seq<Record>, r: Record) {
    if r.rtype == SOA then rs != [] && rs[0].rdata.Soa? && r.rdata.Soa? && r.rdata.soa.serial <= rs[0].rdata.soa.serial
    else if r.rtype == CNAME then rs == [r]
    else HasData(rs, r.rdata)
  }

  lemma AddsNothingExactly(z: Zone, r: Record)
    requires WellFormed(z) && r.class_ == IN && Insertable(r)
    ensures var rs := Recs(z, RecordKey(r)); AddTo(r.rtype, rs, r) == rs <==> AddsNothing(rs, r)
  {
    var k := RecordKey(r);
    if k in z { assert SetAt(k, z[k]); }
    assert Recs(z, k) + [r] != Recs(z, k);
  }

  /** The code adds a CNAME beside other data and other data beside a CNAME: it leaves the records that
      the RFC does exactly when there is no such conflict or nothing to add. */
  lemma CnameExactly(z: Zone, r: Record, serial: U32)
    requires WellFormed(z) && r.class_ == IN && Insertable(r)
    ensures var rfc := if CnameConflict(z, r) then z else Upsert(z, r, serial).zone;
            (forall k :: Recs(Upsert(z, r, serial).zone, k) == Recs(rfc, k)) <==>
            !CnameConflict(z, r) || AddsNothing(Recs(z, RecordKey(r)), r)
  {
    forall k ensures Recs(Upsert(z, r, serial).zone, k) ==
                     if k == RecordKey(r) then AddTo(k.rtype, Recs(z, k), r) else Recs(z, k) {
      AddedRecords(z, r, serial, k);
    }
    AddsNothingExactly(z, r);
  }

  /** The RFC puts the record itself, with its TTL, into the set in place of one of equal data.  The code
      holds it afterwards exactly when it held it before, when no record of equal data was there, when
      it is a CNAME, or when it is the first SOA or a newer one: a new TTL alone is not taken. */
  lemma TtlTakenExactly(z: Zone, r: Record, serial: U32)
    requires WellFormed(z) && r.class_ == IN && Insertable(r)
    ensures var rs := Recs(z, RecordKey(r));
            r in Recs(Upsert(z, r, serial).zone, RecordKey(r)) <==>
            || r in rs || r.rtype == CNAME
            || (if r.rtype == SOA then rs == [] || r.rdata.soa.serial > SerialOf(rs) else !HasData(rs, r.rdata))
  {
    var k := RecordKey(r);
    AddedRecords(z, r, serial, k);
    if k in z { assert SetAt(k, z[k]); }
    assert r in Recs(z, k) + [r];
  }

  // ----- Serials (section 3.2 of RFC 1982) -----

  /** Serial number arithmetic on 32 bits: a later serial is ahead by less than half the circle. */
  predicate Later(a: U32, b: U32) {
    (a > b && a - b < 0x8000_0000) || (a < b && b - a > 0x8000_0000)
  }

  /** The code compares serials as plain numbers: of an SOA offered to a set that holds one, it decides
      as RFC 1982 does exactly when the plain difference is within half the circle. */
  lemma SerialOrderExactly(z: Zone, r: Record, serial: U32)
    requires WellFormed(z) && r.class_ == IN && Insertable(r) && r.rtype == SOA && Recs(z, RecordKey(r)) != []
    ensures var rs := Recs(z, RecordKey(r));
            (Recs(Upsert(z, r, serial).zone, RecordKey(r)) != rs <==> Later(r.rdata.soa.serial, SerialOf(rs))) <==>
            -0x8000_0000 <= r.rdata.soa.serial - SerialOf(rs) < 0x8000_0000
  {
    var k := RecordKey(r);
    AddedRecords(z, r, serial, k);
    assert SetAt(k, z[k]);
  }

  // ----- Where they part -----

  /** A zone of one set. */
  function OneSet(n: Name, t: RecordType, data: seq<RData>): Zone {
    map[KeyOf(n, t) := RrSet(n, t, IN, 0,
                             seq(|data|, i requires 0 <= i < |data| => Record(n, t, IN, 0, data[i])), [], 0)]
  }

  /** Two addresses at a name: a prerequisite that names one passes, though the set is not that one. */
  lemma PartPasses(n: Name, data: seq<RData>, pre: seq<Record>, z: Zone)
    requires |data| == 2 && !DataEq(data[0], data[1]) && z == OneSet(n, A, data)
    requires |pre| == 1 && pre[0] == Record(n, A, IN, 0, data[0])
    ensures WellFormed(z) && VerifyPrerequisites(z, n, pre) == Pass && !SetsEqual(z, pre)
  {
    TwoHeld(n, data, z);
    DataSetMember(Recs(z, KeyOf(n, A)), data[0]);
    PassesWhenHeld(z, n, pre);
    NotNamed(pre, KeyOf(n, A), data[1]);
  }

  lemma TwoHeld(n: Name, data: seq<RData>, z: Zone)
    requires |data| == 2 && !DataEq(data[0], data[1]) && z == OneSet(n, A, data)
    ensures WellFormed(z) && ZoneOf(n, n)
    ensures FoldData(data[0]) in DataSet(Recs(z, KeyOf(n, A))) && FoldData(data[1]) in DataSet(Recs(z, KeyOf(n, A)))
  {
    var k := KeyOf(n, A);
    assert SetAt(k, z[k]);
    assert Recs(z, k)[0].rdata == data[0] && Recs(z, k)[1].rdata == data[1];
  }

  lemma NotNamed(pre: seq<Record>, k: RrKey, d: RData)
    requires |pre| == 1 && RecordKey(pre[0]) == k && !DataEq(pre[0].rdata, d)
    ensures FoldData(d) !in DataSet(At(pre, k))
  {
    AtMembers(pre, k);
    forall i | 0 <= i < |At(pre, k)| ensures At(pre, k)[i] == pre[0] {
      assert At(pre, k)[i] in pre;
    }
  }

  /** A CNAME is added beside an address, and a new TTL is not taken. */
  lemma AdditionsDepart(n: Name, a: RData, alias: Record, lasting: Record, serial: U32)
    requires a == Opaque(A, [1])
    requires alias.name == n && alias.rtype == CNAME && alias.class_ == IN
    requires lasting == Record(n, A, IN, 1, a)
    ensures var z := OneSet(n, A, [a]);
            && WellFormed(z) && CnameConflict(z, alias)
            && Recs(Upsert(z, alias, serial).zone, KeyOf(n, CNAME)) == [alias]
            && Recs(Upsert(z, alias, serial).zone, KeyOf(n, A)) != []
            && lasting !in Recs(Upsert(z, lasting, serial).zone, KeyOf(n, A))
  {
    var z := OneSet(n, A, [a]);
    assert SetAt(KeyOf(n, A), z[KeyOf(n, A)]);
    AddedRecords(z, alias, serial, KeyOf(n, CNAME));
    AddedRecords(z, alias, serial, KeyOf(n, A));
    assert Recs(z, KeyOf(n, A))[0] == Record(n, A, IN, 0, a);
    TtlTakenExactly(z, lasting, serial);
  }

  /** The serial after the greatest one is refused. */
  lemma WrappedSerialRefused(n: Name, last: RData, r: Record, serial: U32)
    requires last.Soa? && last.soa.serial == 0xFFFF_FFFF
    requires r.name == n && r.rtype == SOA && r.class_ == IN && r.rdata.Soa? && r.rdata.soa.serial == 0
    ensures var z := OneSet(n, SOA, [last]);
            && WellFormed(z) && Later(0, Serial(z, n))
            && Recs(Upsert(z, r, serial).zone, SoaKey(n)) == Recs(z, SoaKey(n))
  {
    var z := OneSet(n, SOA, [last]);
    assert SetAt(SoaKey(n), z[SoaKey(n)]);
    AddedRecords(z, r, serial, SoaKey(n));
  }
}
