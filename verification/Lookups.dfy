/** Answering from the zone map (lookup and search, server/src/authority/authority.rs) against a
    scan of every record the zone holds; signatures are not asked for. */
module Lookups {
  import opened Names
  import opened Records
  import opened RrSets
  import opened Zones
  import opened Nsec

  datatype ZoneType = Master | Slave | Hint | Forward

  /** search: a transfer is for masters and slaves, and the SOA stands at both its ends. */
  function Search(z: Zone, origin: Name, kind: ZoneType, name: Name, rtype: RecordType): seq<Record> {
    var found := Lookup(z, origin, name, rtype);
    if rtype == AXFR then Transfer(kind, Lookup(z, origin, origin, SOA), found) else found
  }

  function Transfer(kind: ZoneType, soa: seq<Record>, found: seq<Record>): seq<Record> {
    if kind == Hint || kind == Forward || soa == [] then [] else [soa[0]] + found + [soa[0]]
  }

  // ----- The scan -----

  /** Every record of the zone, set after set. */
  function AllRecords(z: Zone): seq<Record> {
    RecordsAt(z, InOrder(z.Keys))
  }

  /** What a question asks of a record. */
  predicate Wanted(r: Record, name: Name, rtype: RecordType) {
    match rtype
    case ANY => NameEq(r.name, name)
    case AXFR => r.rtype != SOA
    case _ => NameEq(r.name, name) && r.rtype == rtype
  }

  function Filter(rs: seq<Record>, name: Name, rtype: RecordType): seq<Record> {
    if rs == [] then []
    else (if Wanted(rs[0], name, rtype) then [rs[0]] else []) + Filter(rs[1..], name, rtype)
  }

  lemma {:induction false} FilterJoin(a: seq<Record>, b: seq<Record>, name: Name, rtype: RecordType)
    ensures Filter(a + b, name, rtype) == Filter(a, name, rtype) + Filter(b, name, rtype)
    decreases |a|
  {
    if a == [] {
      assert a + b == b;
    } else {
      assert (a + b)[0] == a[0] && (a + b)[1..] == a[1..] + b;
      FilterJoin(a[1..], b, name, rtype);
    }
  }

  lemma {:induction false} FilterUniform(rs: seq<Record>, name: Name, rtype: RecordType, all: bool)
    requires forall i :: 0 <= i < |rs| ==> Wanted(rs[i], name, rtype) == all
    ensures Filter(rs, name, rtype) == if all then rs else []
    decreases |rs|
  {
    if rs != [] {
      FilterUniform(rs[1..], name, rtype, all);
    }
  }

  lemma {:induction false} GatherIsFilter(z: Zone, ks: seq<RrKey>, name: Name, rtype: RecordType)
    requires WellFormed(z) && (forall k :: k in ks ==> k in z) && (rtype == ANY || rtype == AXFR)
    ensures Gather(z, ks, name, rtype) == Filter(RecordsAt(z, ks), name, rtype)
    decreases |ks|
  {
    if ks != [] {
      var s := z[ks[0]];
      assert ks[0] in ks && SetAt(ks[0], s);
      FilterJoin(s.records, RecordsAt(z, ks[1..]), name, rtype);
      FilterUniform(s.records, name, rtype, Chosen(s, name, rtype));
      GatherIsFilter(z, ks[1..], name, rtype);
    }
  }

  /** Of keys that are all different, only one set holds the records of a name and type. */
  lemma {:induction false} KeyIsFilter(z: Zone, ks: seq<RrKey>, name: Name, rtype: RecordType)
    requires WellFormed(z) && (forall k :: k in ks ==> k in z) && Ascending(ks) && rtype != ANY && rtype != AXFR
    ensures Filter(RecordsAt(z, ks), name, rtype) ==
            if KeyOf(name, rtype) in ks then Recs(z, KeyOf(name, rtype)) else []
    decreases |ks|
  {
    if ks != [] {
      var k := KeyOf(name, rtype);
      var s := z[ks[0]];
      assert ks[0] in ks && SetAt(ks[0], s);
      FilterJoin(s.records, RecordsAt(z, ks[1..]), name, rtype);
      FilterUniform(s.records, name, rtype, ks[0] == k);
      TailApart(ks);
      KeyIsFilter(z, ks[1..], name, rtype);
      assert k in ks <==> k == ks[0] || k in ks[1..];
    }
  }

  lemma TailApart(ks: seq<RrKey>)
    requires ks != [] && Ascending(ks)
    ensures Ascending(ks[1..]) && ks[0] !in ks[1..]
  {
    KeyOrder(ks[0], ks[0], ks[0]);
    AscendingTail(ks);
  }

  /** The index agrees with the scan: for every name and type a lookup is the filtered scan, records
      in the same order; only an SOA is looked up at the origin whatever the name. */
  lemma LookupIsFilter(z: Zone, origin: Name, name: Name, rtype: RecordType)
    requires WellFormed(z)
    ensures Lookup(z, origin, name, rtype) == Filter(AllRecords(z), if rtype == SOA then origin else name, rtype)
  {
    var ks := InOrder(z.Keys);
    var at := if rtype == SOA then origin else name;
    if rtype == ANY || rtype == AXFR {
      GatherIsFilter(z, ks, at, rtype);
    } else {
      KeyIsFilter(z, ks, at, rtype);
    }
  }

  // ----- Prerequisites, against the scan -----

  lemma {:induction false} FilterHas(rs: seq<Record>, name: Name, rtype: RecordType, r: Record)
    ensures r in Filter(rs, name, rtype) <==> r in rs && Wanted(r, name, rtype)
    decreases |rs|
  {
    if rs != [] {
      FilterHas(rs[1..], name, rtype, r);
      assert rs == [rs[0]] + rs[1..];
    }
  }

  /** Some record of the zone answers a question. */
  ghost predicate InUse(z: Zone, name: Name, rtype: RecordType) {
    exists x :: x in AllRecords(z) && Wanted(x, name, rtype)
  }

  /** A prerequisite passes exactly when it has one of the forms of section 2.4 of RFC 2136, lies in
      the zone, and what it says holds of the zone's records; a value is looked for as one member of
      the set, and an SOA at the origin whatever the name. */
  lemma PrerequisiteMeans(z: Zone, origin: Name, r: Record)
    requires WellFormed(z)
    ensures var at := if r.rtype == SOA then origin else r.name;
            CheckPrerequisite(z, origin, r) == Pass <==>
            && r.ttl == 0 && ZoneOf(origin, r.name)
            && match r.class_
               case ANYCLASS => r.rdata.NullData? && InUse(z, at, r.rtype)
               case NONE => r.rdata.NullData? && !InUse(z, at, r.rtype)
               case IN => exists x :: x in AllRecords(z) && Wanted(x, at, r.rtype) && RecordEq(x, r)
               case _ => false
  {
    var at := if r.rtype == SOA then origin else r.name;
    var found := Lookup(z, origin, r.name, r.rtype);
    LookupIsFilter(z, origin, r.name, r.rtype);
    forall x ensures x in found <==> x in AllRecords(z) && Wanted(x, at, r.rtype) {
      FilterHas(AllRecords(z), at, r.rtype, x);
    }
    FoundSome(found);
    assert Contains(found, r) <==> exists x :: x in found && RecordEq(x, r);
  }

  /** A prerequisite of a proper form in the zone: no TTL, and no data where only presence counts. */
  predicate ProperForm(origin: Name, r: Record) {
    r.ttl == 0 && ZoneOf(origin, r.name) && (r.class_ == ANYCLASS || r.class_ == NONE ==> r.rdata.NullData?)
  }

  predicate ProperClass(c: DnsClass) {
    c == IN || c == ANYCLASS || c == NONE
  }

  /** And the code of one that does not pass is the one section 3.2.5 of RFC 2136 gives. */
  lemma PrerequisiteCodes(z: Zone, origin: Name, r: Record)
    requires WellFormed(z)
    ensures var c, at := CheckPrerequisite(z, origin, r), if r.rtype == SOA then origin else r.name;
            && (c == Fail(NotZone) <==> r.ttl == 0 && !ZoneOf(origin, r.name))
            && (c == Fail(NXDomain) <==>
                  ProperForm(origin, r) && r.class_ == ANYCLASS && r.rtype == ANY && !InUse(z, at, ANY))
            && (c == Fail(YXDomain) <==>
                  ProperForm(origin, r) && r.class_ == NONE && r.rtype == ANY && InUse(z, at, ANY))
            && (c == Fail(YXRRSet) <==>
                  ProperForm(origin, r) && r.class_ == NONE && r.rtype != ANY && InUse(z, at, r.rtype))
            && (c == Fail(NXRRSet) <==>
                  && ProperForm(origin, r)
                  && match r.class_
                     case ANYCLASS => r.rtype != ANY && !InUse(z, at, r.rtype)
                     case IN => !exists x :: x in AllRecords(z) && Wanted(x, at, r.rtype) && RecordEq(x, r)
                     case _ => false)
            && (c == Fail(FormErr) <==>
                  r.ttl != 0 || (ZoneOf(origin, r.name) && (!ProperForm(origin, r) || !ProperClass(r.class_))))
  {
    PrerequisiteMeans(z, origin, r);
  }

  lemma FoundSome(rs: seq<Record>)
    ensures rs != [] <==> exists x :: x in rs
  {
    HasMember(rs);
  }

  // ----- Transfers -----

  ghost predicate AllDistinct(rs: seq<Record>) {
    forall i, j :: 0 <= i < j < |rs| ==> !RecordEq(rs[i], rs[j])
  }

  lemma {:induction false} ScanHas(z: Zone, ks: seq<RrKey>, r: Record)
    requires WellFormed(z) && (forall k :: k in ks ==> k in z)
    ensures r in RecordsAt(z, ks) <==> RecordKey(r) in ks && r in z[RecordKey(r)].records
    decreases |ks|
  {
    if ks != [] {
      var s := z[ks[0]];
      assert ks[0] in ks && SetAt(ks[0], s);
      ScanHas(z, ks[1..], r);
      if r in s.records {
        var i :| 0 <= i < |s.records| && s.records[i] == r;
        assert RecordKey(r) == ks[0];
      }
      assert ks == [ks[0]] + ks[1..];
    }
  }

  lemma {:induction false} ScanDistinct(z: Zone, ks: seq<RrKey>)
    requires WellFormed(z) && (forall k :: k in ks ==> k in z) && Ascending(ks)
    ensures AllDistinct(RecordsAt(z, ks))
    decreases |ks|
  {
    if ks != [] {
      var s := z[ks[0]];
      var rest := RecordsAt(z, ks[1..]);
      assert ks[0] in ks && SetAt(ks[0], s);
      TailApart(ks);
      ScanDistinct(z, ks[1..]);
      forall i, j | 0 <= i < |s.records| && 0 <= j < |rest| ensures !RecordEq(s.records[i], rest[j]) {
        assert RecordKey(s.records[i]) == ks[0];
        ScanHas(z, ks[1..], rest[j]);
      }
      JoinDistinct(s.records, rest);
    }
  }

  lemma JoinDistinct(a: seq<Record>, b: seq<Record>)
    requires DistinctData(a) && AllDistinct(b)
    requires forall i, j :: 0 <= i < |a| && 0 <= j < |b| ==> !RecordEq(a[i], b[j])
    ensures AllDistinct(a + b)
  {
  }

  /** The scan holds each record of each set, and no record twice. */
  lemma ScanExactly(z: Zone)
    requires WellFormed(z)
    ensures AllDistinct(AllRecords(z))
    ensures forall r :: r in AllRecords(z) <==> RecordKey(r) in z && r in z[RecordKey(r)].records
  {
    var ks := InOrder(z.Keys);
    ScanDistinct(z, ks);
    forall r ensures r in AllRecords(z) <==> RecordKey(r) in z && r in z[RecordKey(r)].records {
      ScanHas(z, ks, r);
    }
  }

  /** A transfer of a master or slave zone with an SOA is that one SOA, every record of another type
      in the order of the scan, and the SOA again; any other transfer is empty. */
  lemma TransferExactly(z: Zone, origin: Name, kind: ZoneType, name: Name)
    requires WellFormed(z)
    ensures |Filter(AllRecords(z), origin, SOA)| <= 1
    ensures var soa := Filter(AllRecords(z), origin, SOA);
            Search(z, origin, kind, name, AXFR) ==
            if (kind == Master || kind == Slave) && soa != []
            then soa + Filter(AllRecords(z), name, AXFR) + soa else []
  {
    LookupIsFilter(z, origin, origin, SOA);
    LookupIsFilter(z, origin, name, AXFR);
    OneSoa(z, origin);
    TransferFramed(kind, Lookup(z, origin, origin, SOA), Lookup(z, origin, name, AXFR));
  }

  lemma TransferFramed(kind: ZoneType, soa: seq<Record>, found: seq<Record>)
    requires |soa| <= 1
    ensures Transfer(kind, soa, found) ==
            if (kind == Master || kind == Slave) && soa != [] then soa + found + soa else []
  {
    assert soa == [] || soa == [soa[0]];
  }

  lemma OneSoa(z: Zone, origin: Name)
    requires WellFormed(z)
    ensures |Lookup(z, origin, origin, SOA)| <= 1
  {
    if SoaKey(origin) in z {
      assert SetAt(SoaKey(origin), z[SoaKey(origin)]);
    }
  }
}
