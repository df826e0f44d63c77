/** The zone as a value and the RFC 2136 update steps on it
    (server/src/authority/authority.rs): what the methods of Authority compute. */
module Zones {
  import opened Basics
  import opened Names
  import opened Records
  import opened RrSets

  type Zone = map<RrKey, RrSet>

  datatype Rcode = FormErr | NotZone | NXDomain | NXRRSet | YXDomain | YXRRSet | Refused | ServFail

  datatype Check = Pass | Fail(code: Rcode)

  /** The records under a key; a missing set counts as an empty one. */
  function Recs(z: Zone, k: RrKey): seq<Record> {
    if k in z then z[k].records else []
  }

  predicate MetaType(t: RecordType) {
    t == ANY || t == AXFR || t == IXFR
  }

  ghost predicate SetAt(k: RrKey, s: RrSet) {
    && k == KeyOf(s.name, s.rtype)
    && Coherent(s)
    && !MetaType(s.rtype)
    && forall i :: 0 <= i < |s.records| ==> s.records[i].class_ == IN
  }

  /** Every set stands under its own name and type, is coherent, and holds records of the zone's
      class; no set is keyed by a query-only type. */
  ghost predicate WellFormed(z: Zone) {
    forall k :: k in z ==> SetAt(k, z[k])
  }

  /** The records under some keys, set after set. */
  function RecordsAt(z: Zone, ks: seq<RrKey>): seq<Record>
    requires forall k :: k in ks ==> k in z
  {
    if ks == [] then [] else z[ks[0]].records + RecordsAt(z, ks[1..])
  }

  // ----- lookup, without signatures -----

  /** The sets that ANY and AXFR ask for: all at a name, or all but the SOA. */
  predicate Chosen(s: RrSet, name: Name, rtype: RecordType) {
    (rtype == ANY || s.rtype != SOA) && (rtype == AXFR || NameEq(s.name, name))
  }

  /** The records of the chosen sets, in the order of the keys. */
  function Gather(z: Zone, ks: seq<RrKey>, name: Name, rtype: RecordType): seq<Record>
    requires forall k :: k in ks ==> k in z
  {
    if ks == [] then []
    else (if Chosen(z[ks[0]], name, rtype) then z[ks[0]].records else []) + Gather(z, ks[1..], name, rtype)
  }

  function Lookup(z: Zone, origin: Name, name: Name, rtype: RecordType): seq<Record> {
    var at := if rtype == SOA then origin else name;
    if rtype == ANY || rtype == AXFR then Gather(z, InOrder(z.Keys), at, rtype) else Recs(z, KeyOf(at, rtype))
  }

  // ----- The serial -----

  function SoaKey(origin: Name): RrKey {
    KeyOf(origin, SOA)
  }

  function SerialOf(rs: seq<Record>): U32 {
    if rs != [] && rs[0].rdata.Soa? then rs[0].rdata.soa.serial else 0
  }

  /** The serial of the apex SOA, 0 when there is none. */
  function Serial(z: Zone, origin: Name): U32 {
    SerialOf(Recs(z, SoaKey(origin)))
  }

  function MinimumTtl(z: Zone, origin: Name): U32 {
    var rs := Recs(z, SoaKey(origin));
    if rs != [] && rs[0].rdata.Soa? then rs[0].rdata.soa.minimum else 0
  }

  /** The 32-bit successor, wrapping at the top. */
  function NextSerial(s: U32): U32 {
    (s + 1) % 0x1_0000_0000
  }

  function BumpedSoa(r: Record): Record
    requires r.rdata.Soa?
  {
    r.(rdata := Soa(r.rdata.soa.(serial := NextSerial(r.rdata.soa.serial))))
  }

  /** increment_soa_serial: upsert the SOA with the next serial; nothing without an SOA. */
  function IncrementSoa(z: Zone, origin: Name): Zone {
    var rs := Recs(z, SoaKey(origin));
    if rs != [] && rs[0].rdata.Soa? then
      var soa := BumpedSoa(rs[0]);
      Upsert(z, soa, soa.rdata.soa.serial).zone
    else z
  }

  // ----- The update section -----

  /** After some update records: the zone as it then is, and whether anything was reported
      changed, or the error that stopped there. */
  datatype Step = Done(zone: Zone, updated: bool) | Fault(zone: Zone, code: Rcode)

  function SetOrEmpty(z: Zone, r: Record, serial: U32): RrSet {
    if RecordKey(r) in z then z[RecordKey(r)] else EmptySet(r.name, r.rtype, serial)
  }

  function Upsert(z: Zone, r: Record, serial: U32): (s: Step)
    ensures s.Done?
  {
    var c := InsertInto(SetOrEmpty(z, r, serial), r, serial);
    Done(z[RecordKey(r) := c.set_], c.reported)
  }

  /** The keys a class-ANY, type-ANY record deletes: every set of the name, save SOA and NS sets
      of a name that is not the origin. */
  predicate DeletedByName(k: RrKey, origin: Name, name: Name) {
    !((k.rtype == SOA || k.rtype == NS) && k.name != Lower(origin)) && k.name == Lower(name)
  }

  function DeleteName(z: Zone, origin: Name, name: Name): Zone {
    map k | k in z && !DeletedByName(k, origin, name) :: z[k]
  }

  function ApplyRecord(z: Zone, origin: Name, r: Record, serial: U32): Step {
    match r.class_
    case IN => Upsert(z, r, serial)
    case ANYCLASS =>
      if (r.rtype == SOA || r.rtype == NS) && NameEq(r.name, origin) then Done(z, false)
      else if r.rtype == ANY then
        var z' := DeleteName(z, origin, r.name);
        Done(z', z'.Keys != z.Keys)
      else if r.rdata.NullData? then Done(z - {RecordKey(r)}, RecordKey(r) in z)
      else Fault(z, FormErr)
    case NONE =>
      if RecordKey(r) in z then
        var c := RemoveFrom(z[RecordKey(r)], r, serial);
        Done(z[RecordKey(r) := c.set_], c.reported)
      else Done(z, false)
    case _ => Fault(z, FormErr)
  }

  function ApplyAll(z: Zone, origin: Name, rs: seq<Record>, serial: U32): Step
    decreases |rs|
  {
    if rs == [] then Done(z, false)
    else
      var first := ApplyRecord(z, origin, rs[0], serial);
      if first.Fault? then first
      else
        var rest := ApplyAll(first.zone, origin, rs[1..], serial);
        if rest.Fault? then rest else Done(rest.zone, first.updated || rest.updated)
  }

  // ----- Prescan (section 3.4.1 of RFC 2136) -----

  function ScanRecord(origin: Name, r: Record): Check {
    if !ZoneOf(origin, r.name) then Fail(NotZone)
    else match r.class_
      case IN => if MetaType(r.rtype) then Fail(FormErr) else Pass
      case ANYCLASS =>
        if r.ttl != 0 then Fail(FormErr)
        else if !r.rdata.NullData? then Fail(FormErr)
        else if r.rtype == AXFR || r.rtype == IXFR then Fail(FormErr)
        else Pass
      case NONE =>
        if r.ttl != 0 then Fail(FormErr)
        else if MetaType(r.rtype) then Fail(FormErr)
        else Pass
      case _ => Fail(FormErr)
  }

  function PreScan(origin: Name, rs: seq<Record>): Check {
    if rs == [] then Pass
    else
      var c := ScanRecord(origin, rs[0]);
      if c.Fail? then c else PreScan(origin, rs[1..])
  }

  /** What a scanned update record is: in the zone, and of one of the four forms of section
      3.4.2.6 of RFC 2136. */
  predicate Admissible(origin: Name, r: Record) {
    && ZoneOf(origin, r.name)
    && r.rtype != AXFR && r.rtype != IXFR
    && match r.class_
       case IN => r.rtype != ANY
       case ANYCLASS => r.ttl == 0 && r.rdata.NullData?
       case NONE => r.ttl == 0 && r.rtype != ANY
       case _ => false
  }

  lemma {:induction false} PreScanMeans(origin: Name, rs: seq<Record>)
    ensures PreScan(origin, rs) == Pass <==> forall i :: 0 <= i < |rs| ==> Admissible(origin, rs[i])
    ensures PreScan(origin, rs) == Pass || PreScan(origin, rs) == Fail(NotZone) || PreScan(origin, rs) == Fail(FormErr)
  {
    if rs != [] {
      PreScanMeans(origin, rs[1..]);
      assert Admissible(origin, rs[0]) <==> ScanRecord(origin, rs[0]) == Pass;
      assert rs == [rs[0]] + rs[1..];
    }
  }

  /** What stops a prescan is its first inadmissible record: NotZone when that lies outside the zone,
      FormErr otherwise. */
  lemma {:induction false} PreScanFirst(origin: Name, rs: seq<Record>, i: nat)
    requires i < |rs| && !Admissible(origin, rs[i]) && forall j :: 0 <= j < i ==> Admissible(origin, rs[j])
    ensures PreScan(origin, rs) == Fail(if ZoneOf(origin, rs[i].name) then FormErr else NotZone)
    decreases |rs|
  {
    if i > 0 {
      assert Admissible(origin, rs[0]);
      assert forall j :: 0 <= j < i - 1 ==> rs[1..][j] == rs[j + 1];
      PreScanFirst(origin, rs[1..], i - 1);
    }
  }

  // ----- Prerequisites (section 3.2 of RFC 2136) -----

  predicate Contains(rs: seq<Record>, r: Record) {
    exists i :: 0 <= i < |rs| && RecordEq(rs[i], r)
  }

  function CheckPrerequisite(z: Zone, origin: Name, r: Record): Check {
    if r.ttl != 0 then Fail(FormErr)
    else if !ZoneOf(origin, r.name) then Fail(NotZone)
    else match r.class_
      case ANYCLASS =>
        if !r.rdata.NullData? then Fail(FormErr)
        else if Lookup(z, origin, r.name, r.rtype) != [] then Pass
        else Fail(if r.rtype == ANY then NXDomain else NXRRSet)
      case NONE =>
        if !r.rdata.NullData? then Fail(FormErr)
        else if Lookup(z, origin, r.name, r.rtype) == [] then Pass
        else Fail(if r.rtype == ANY then YXDomain else YXRRSet)
      case IN =>
        if Contains(Lookup(z, origin, r.name, r.rtype), r) then Pass else Fail(NXRRSet)
      case _ => Fail(FormErr)
  }

  function VerifyPrerequisites(z: Zone, origin: Name, pre: seq<Record>): Check {
    if pre == [] then Pass
    else
      var c := CheckPrerequisite(z, origin, pre[0]);
      if c.Fail? then c else VerifyPrerequisites(z, origin, pre[1..])
  }

  lemma {:induction false} VerifyMeans(z: Zone, origin: Name, pre: seq<Record>)
    ensures VerifyPrerequisites(z, origin, pre) == Pass <==>
            forall i :: 0 <= i < |pre| ==> CheckPrerequisite(z, origin, pre[i]) == Pass
  {
    if pre != [] {
      VerifyMeans(z, origin, pre[1..]);
      assert pre == [pre[0]] + pre[1..];
    }
  }

  /** What fails a prerequisite section is its first record that does not pass. */
  lemma {:induction false} VerifyFirst(z: Zone, origin: Name, pre: seq<Record>, i: nat)
    requires i < |pre| && CheckPrerequisite(z, origin, pre[i]).Fail?
    requires forall j :: 0 <= j < i ==> CheckPrerequisite(z, origin, pre[j]) == Pass
    ensures VerifyPrerequisites(z, origin, pre) == CheckPrerequisite(z, origin, pre[i])
    decreases i
  {
    if i > 0 {
      assert forall j :: 0 <= j < i - 1 ==> pre[1..][j] == pre[j + 1];
      VerifyFirst(z, origin, pre[1..], i - 1);
    }
  }

  // ----- What one update record keeps -----

  lemma EmptySetAt(r: Record, serial: U32)
    requires !MetaType(r.rtype)
    ensures SetAt(RecordKey(r), EmptySet(r.name, r.rtype, serial))
  {
  }

  lemma InsertKeepsSetAt(k: RrKey, s: RrSet, r: Record, serial: U32)
    requires SetAt(k, s) && RecordKey(r) == k && r.class_ == IN && WellTyped(r)
    ensures SetAt(k, InsertInto(s, r, serial).set_)
    ensures !InsertInto(s, r, serial).reported ==> InsertInto(s, r, serial).set_ == s
    ensures InsertInto(s, r, serial).set_.records != []
    ensures s.records == [] ==> InsertInto(s, r, serial).reported
  {
    InsertKeepsCoherent(s, r, serial);
    InsertCases(s, r, serial);
  }

  lemma RemoveKeepsSetAt(k: RrKey, s: RrSet, r: Record, serial: U32)
    requires SetAt(k, s)
    ensures SetAt(k, RemoveFrom(s, r, serial).set_)
    ensures !RemoveFrom(s, r, serial).reported ==> RemoveFrom(s, r, serial).set_ == s
  {
    RemoveKeepsCoherent(s, r, serial);
    WithoutMembers(s.records, r.rdata);
    var s' := RemoveFrom(s, r, serial).set_;
    forall i | 0 <= i < |s'.records| ensures s'.records[i].class_ == IN {
      assert s'.records[i] in s'.records;
    }
  }

  lemma UpsertKeeps(z: Zone, r: Record, serial: U32)
    requires WellFormed(z) && r.class_ == IN && !MetaType(r.rtype) && WellTyped(r)
    ensures WellFormed(Upsert(z, r, serial).zone)
    ensures !Upsert(z, r, serial).updated ==> Upsert(z, r, serial).zone == z
    ensures Upsert(z, r, serial).zone.Keys == z.Keys + {RecordKey(r)}
    ensures forall k :: k in z && k != RecordKey(r) ==> Upsert(z, r, serial).zone[k] == z[k]
    ensures Recs(Upsert(z, r, serial).zone, RecordKey(r)) != []
  {
    EmptySetAt(r, serial);
    var s := SetOrEmpty(z, r, serial);
    InsertKeepsSetAt(RecordKey(r), s, r, serial);
    var c := InsertInto(s, r, serial);
    WithSetKeeps(z, RecordKey(r), c.set_);
    assert Upsert(z, r, serial) == Done(z[RecordKey(r) := c.set_], c.reported);
  }

  /** Under a new key an insertion makes a set of the one record, of its name, type and TTL. */
  lemma UpsertFresh(z: Zone, r: Record, serial: U32)
    requires RecordKey(r) !in z
    ensures Upsert(z, r, serial) ==
            Done(z[KeyOf(r.name, r.rtype) := RrSet(r.name, r.rtype, IN, r.ttl, [r], [], serial)], true)
  {
    InsertCases(EmptySet(r.name, r.rtype, serial), r, serial);
    assert EmptySet(r.name, r.rtype, serial).records + [r] == [r];
  }

  lemma WithSetKeeps(z: Zone, k: RrKey, s: RrSet)
    requires WellFormed(z) && SetAt(k, s)
    ensures WellFormed(z[k := s]) && z[k := s].Keys == z.Keys + {k} && Recs(z[k := s], k) == s.records
    ensures k in z && z[k] == s ==> z[k := s] == z
  {
  }

  /** An addition whose data can be inserted at all: no query-only type, SOA data in an SOA. */
  predicate Insertable(r: Record) {
    r.class_ == IN ==> WellTyped(r) && !MetaType(r.rtype)
  }

  /** An admissible record is always applied; every record keeps the zone well formed, and a step
      that reports nothing changed nothing. */
  lemma ApplyKeeps(z: Zone, origin: Name, r: Record, serial: U32)
    requires WellFormed(z) && Insertable(r)
    ensures Admissible(origin, r) ==> ApplyRecord(z, origin, r, serial).Done?
    ensures WellFormed(ApplyRecord(z, origin, r, serial).zone)
    ensures ApplyRecord(z, origin, r, serial).Fault? || !ApplyRecord(z, origin, r, serial).updated ==>
              ApplyRecord(z, origin, r, serial).zone == z
  {
    match r.class_
    case IN => UpsertKeeps(z, r, serial);
    case NONE => RemovalKeeps(z, origin, r, serial);
    case ANYCLASS => DeletionKeeps(z, origin, r, serial);
    case _ =>
  }

  /** What a step keeps: the zone well formed, and untouched when nothing is reported. */
  ghost predicate StepKeeps(z: Zone, s: Step) {
    WellFormed(s.zone) && (s.Fault? || !s.updated ==> s.zone == z)
  }

  lemma RemovalKeeps(z: Zone, origin: Name, r: Record, serial: U32)
    requires WellFormed(z) && r.class_ == NONE
    ensures ApplyRecord(z, origin, r, serial).Done? && StepKeeps(z, ApplyRecord(z, origin, r, serial))
  {
    var k := RecordKey(r);
    if k in z {
      RemoveKeepsSetAt(k, z[k], r, serial);
      WithSetKeeps(z, k, RemoveFrom(z[k], r, serial).set_);
    }
  }

  lemma DeletionKeeps(z: Zone, origin: Name, r: Record, serial: U32)
    requires WellFormed(z) && r.class_ == ANYCLASS
    ensures Admissible(origin, r) ==> ApplyRecord(z, origin, r, serial).Done?
    ensures StepKeeps(z, ApplyRecord(z, origin, r, serial))
  {
    DeleteKeeps(z, origin, r);
  }

  /** Deleting sets leaves the others as they were, and nothing changes when no key goes. */
  lemma DeleteKeeps(z: Zone, origin: Name, r: Record)
    requires WellFormed(z)
    ensures var z' := DeleteName(z, origin, r.name); WellFormed(z') && (z'.Keys == z.Keys ==> z' == z)
    ensures var z' := z - {RecordKey(r)}; WellFormed(z') && (RecordKey(r) !in z ==> z' == z)
  {
    assert DeleteName(z, origin, r.name).Keys <= z.Keys;
  }

  ghost predicate AllAdmissible(origin: Name, rs: seq<Record>) {
    forall i :: 0 <= i < |rs| ==> Admissible(origin, rs[i]) && (rs[i].class_ == IN ==> WellTyped(rs[i]))
  }

  lemma AllAdmissibleTail(origin: Name, us: seq<Record>)
    requires us != [] && AllAdmissible(origin, us)
    ensures AllAdmissible(origin, us[1..])
  {
    assert forall i :: 0 <= i < |us[1..]| ==> us[1..][i] == us[i + 1];
  }

  /** A scanned update section is applied to its end, whatever the zone; see ApplyKeeps. */
  lemma {:induction false} ApplyAllKeeps(z: Zone, origin: Name, rs: seq<Record>, serial: U32)
    requires WellFormed(z) && AllAdmissible(origin, rs)
    ensures ApplyAll(z, origin, rs, serial).Done?
    ensures WellFormed(ApplyAll(z, origin, rs, serial).zone)
    ensures !ApplyAll(z, origin, rs, serial).updated ==> ApplyAll(z, origin, rs, serial).zone == z
    decreases |rs|
  {
    if rs != [] {
      ApplyKeeps(z, origin, rs[0], serial);
      AllAdmissibleTail(origin, rs);
      ApplyAllKeeps(ApplyRecord(z, origin, rs[0], serial).zone, origin, rs[1..], serial);
    }
  }

  /** Applying two sections one after the other is applying their concatenation. */
  lemma {:induction false} ApplyAllSplit(z: Zone, origin: Name, a: seq<Record>, b: seq<Record>, serial: U32)
    requires ApplyAll(z, origin, a, serial).Done?
    ensures var mid := ApplyAll(z, origin, a, serial);
            var out := ApplyAll(mid.zone, origin, b, serial);
            ApplyAll(z, origin, a + b, serial) ==
              if out.Fault? then out else Done(out.zone, mid.updated || out.updated)
    decreases |a|
  {
    if a == [] {
      assert a + b == b;
    } else {
      assert (a + b)[0] == a[0] && (a + b)[1..] == a[1..] + b;
      ApplyAllSplit(ApplyRecord(z, origin, a[0], serial).zone, origin, a[1..], b, serial);
    }
  }

  /** An SOA record without its serial. */
  function SansSerial(r: Record): Record
    requires r.rdata.Soa?
  {
    r.(rdata := Soa(r.rdata.soa.(serial := 0)))
  }

  /** The same SOA records, TTLs and all data included, but for their serials. */
  ghost predicate SameButSerial(a: seq<Record>, b: seq<Record>) {
    && |a| == |b|
    && forall i :: 0 <= i < |a| ==> a[i].rdata.Soa? && b[i].rdata.Soa? && SansSerial(a[i]) == SansSerial(b[i])
  }

  /** The SOA after a bump: in place of the old one, with the next serial unless that wrapped, and
      otherwise as it was. */
  lemma IncrementKeeps(z: Zone, origin: Name)
    requires WellFormed(z)
    ensures WellFormed(IncrementSoa(z, origin))
    ensures IncrementSoa(z, origin).Keys == z.Keys
    ensures forall k :: k in z && k != SoaKey(origin) ==> IncrementSoa(z, origin)[k] == z[k]
    ensures Serial(IncrementSoa(z, origin), origin) ==
            if Recs(z, SoaKey(origin)) == [] then 0
            else if Serial(z, origin) == 0xFFFF_FFFF then Serial(z, origin) else Serial(z, origin) + 1
    ensures SameButSerial(Recs(z, SoaKey(origin)), Recs(IncrementSoa(z, origin), SoaKey(origin)))
  {
    var k := SoaKey(origin);
    if k in z && z[k].records != [] {
      BumpOfSoa(z, k);
      var soa := BumpedSoa(z[k].records[0]);
      UpsertKeeps(z, soa, soa.rdata.soa.serial);
      BumpedRecords(z, origin);
    }
  }

  /** The records under the SOA's key after a bump. */
  lemma BumpedRecords(z: Zone, origin: Name)
    requires WellFormed(z) && SoaKey(origin) in z && z[SoaKey(origin)].records != []
    ensures var rs, rs' := z[SoaKey(origin)].records, Recs(IncrementSoa(z, origin), SoaKey(origin));
            && SameButSerial(rs, rs') && |rs'| == 1
            && SerialOf(rs') == if SerialOf(rs) == 0xFFFF_FFFF then 0xFFFF_FFFF else SerialOf(rs) + 1
  {
    var k := SoaKey(origin);
    BumpOfSoa(z, k);
    var soa := BumpedSoa(z[k].records[0]);
    BumpInserts(z[k], soa);
    assert IncrementSoa(z, origin) == z[k := InsertInto(z[k], soa, soa.rdata.soa.serial).set_];
  }

  lemma BumpInserts(s: RrSet, soa: Record)
    requires s.rtype == SOA && |s.records| == 1 && s.records[0].rdata.Soa? && soa == BumpedSoa(s.records[0])
    requires Coherent(s) && Fits(s, soa)
    ensures var rs := InsertInto(s, soa, soa.rdata.soa.serial).set_.records;
            |rs| == 1 && SameButSerial(s.records, rs) &&
            rs[0].rdata.soa.serial == if s.records[0].rdata.soa.serial == 0xFFFF_FFFF then 0xFFFF_FFFF
                                      else s.records[0].rdata.soa.serial + 1
  {
    InsertCases(s, soa, soa.rdata.soa.serial);
  }

  lemma BumpOfSoa(z: Zone, k: RrKey)
    requires WellFormed(z) && k in z && k.rtype == SOA && z[k].records != []
    ensures z[k].rtype == SOA && z[k].records[0].rdata.Soa? && |z[k].records| == 1
    ensures var soa := BumpedSoa(z[k].records[0]);
            RecordKey(soa) == k && soa.class_ == IN && WellTyped(soa) && Fits(z[k], soa)
  {
    assert SetAt(k, z[k]);
    var r := z[k].records[0];
    assert WellTyped(r) && NameEq(r.name, z[k].name);
  }
}
