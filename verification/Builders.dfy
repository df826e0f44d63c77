/** The update messages a client builds (create and compare_and_swap of
    client/src/client/client_future.rs), against what the server does with them. */
module Builders {
  import opened Basics
  import opened Names
  import opened Records
  import opened RrSets
  import opened Zones
  import opened PerKey
  import opened Signing
  import opened Authority
  import opened Freshness
  import opened Nsec

  // ----- The builders -----

  function WithClassAll(rs: seq<Record>, c: DnsClass): (out: seq<Record>)
    ensures |out| == |rs| && forall i :: 0 <= i < |rs| ==> out[i] == rs[i].(class_ := c)
  {
    seq(|rs|, i requires 0 <= i < |rs| => rs[i].(class_ := c))
  }

  /** A set sent as a section: its records, then its signatures. */
  function Section(s: RrSet): seq<Record> {
    s.records + s.rrsigs
  }

  /** create: require that no such set exists, and add the records. */
  function Create(rrset: RrSet, origin: Name): UpdateMessage
    requires ZoneOf(origin, rrset.name)
  {
    UpdateMessage([Record(rrset.name, rrset.rtype, NONE, 0, NullData([]))], Section(rrset), true)
  }

  /** compare_and_swap: require the current records with TTL 0, delete them, add the new ones. */
  function CompareAndSwap(current: RrSet, new_: RrSet, origin: Name): UpdateMessage
    requires ZoneOf(origin, current.name) && ZoneOf(origin, new_.name)
  {
    var required := current.(records := WithTtlAll(current.records, 0));
    var delete := current.(records := WithTtlAll(WithClassAll(current.records, NONE), 0));
    UpdateMessage(Section(required), Section(delete) + Section(new_), true)
  }

  // ----- The server's side -----

  predicate PlainType(t: RecordType) {
    !SingleRecordType(t) && t != NS && !MetaType(t)
  }

  /** A type whose sets the server makes anew itself: NSEC, in a zone that it signs. */
  predicate Rebuilt(cfg: Config, t: RecordType) {
    t == NSEC && cfg.dnssec && cfg.signers != []
  }

  /** A set as a client holds it: coherent, of the zone's class, and without signatures. */
  ghost predicate ClientSet(s: RrSet, k: RrKey) {
    SetAt(k, s) && s.rrsigs == [] && PlainType(s.rtype)
  }

  lemma UpdateProceeds(cfg: Config, st: State, e: Event, k: RrKey)
    requires WellFormed(st.zone) && WellTypedMessage(e.message)
    requires cfg.allowUpdate && e.message.authorized && e.accepted >= |e.message.updates|
    requires VerifyPrerequisites(st.zone, cfg.origin, e.message.prerequisites) == Pass
    requires PreScan(cfg.origin, e.message.updates) == Pass
    requires k != SoaKey(cfg.origin) && !Rebuilt(cfg, k.rtype)
    ensures Handle(cfg, st, e).result.Ok? || (cfg.dnssec && Handle(cfg, st, e).result == Err(ServFail))
    ensures Recs(Handle(cfg, st, e).state.zone, k) == Effects(cfg.origin, e.message.updates, k, Recs(st.zone, k))
  {
    var us := e.message.updates;
    PreScanMeans(cfg.origin, us);
    var serial := Serial(st.zone, cfg.origin);
    ApplyAllKeeps(st.zone, cfg.origin, us, serial);
    ApplyAllEffects(st.zone, cfg.origin, us, serial, k);
    var z := Applied(cfg, st.zone, us).zone;
    IncrementKeeps(z, cfg.origin);
    if cfg.dnssec && cfg.signers == [] {
      SignZoneKeeps(cfg.crypto, IncrementSoa(z, cfg.origin), cfg.origin, [], e.inception);
    } else if cfg.dnssec {
      SecureZoneRecords(cfg.crypto, z, cfg.origin, cfg.signers, e.inception, k);
    }
  }

  lemma Refused(cfg: Config, st: State, e: Event, code: Rcode)
    requires cfg.allowUpdate && e.message.authorized
    requires VerifyPrerequisites(st.zone, cfg.origin, e.message.prerequisites) == Fail(code)
    ensures Handle(cfg, st, e) == Reply(st, Err(code))
  {
  }

  lemma ScanAll(origin: Name, us: seq<Record>)
    requires forall i :: 0 <= i < |us| ==> Admissible(origin, us[i])
    ensures PreScan(origin, us) == Pass
  {
    PreScanMeans(origin, us);
  }

  lemma ClientRecords(origin: Name, s: RrSet, k: RrKey)
    requires ClientSet(s, k) && ZoneOf(origin, s.name)
    ensures forall i :: 0 <= i < |s.records| ==>
              s.records[i].class_ == IN && RecordKey(s.records[i]) == k
              && Admissible(origin, s.records[i]) && WellTyped(s.records[i])
  {
  }

  /** create: with no records under the key the request is carried out and leaves exactly the given
      records there, in order; otherwise it answers YXRRSet and changes nothing. */
  lemma CreateAgainstServer(cfg: Config, st: State, rrset: RrSet, accepted: nat, inception: U32)
    requires WellFormed(st.zone) && cfg.allowUpdate && ZoneOf(cfg.origin, rrset.name)
    requires ClientSet(rrset, KeyOf(rrset.name, rrset.rtype)) && !Rebuilt(cfg, rrset.rtype)
    requires accepted >= |rrset.records|
    ensures var reply := Handle(cfg, st, Event(Create(rrset, cfg.origin), accepted, inception));
            var k := KeyOf(rrset.name, rrset.rtype);
            if Recs(st.zone, k) == []
            then (reply.result.Ok? || (cfg.dnssec && reply.result == Err(ServFail)))
                 && Recs(reply.state.zone, k) == rrset.records
            else reply == Reply(st, Err(YXRRSet))
  {
    var k := KeyOf(rrset.name, rrset.rtype);
    var e := Event(Create(rrset, cfg.origin), accepted, inception);
    var pre := e.message.prerequisites;
    assert e.message.updates == rrset.records;
    assert pre[1..] == [];
    ClientRecords(cfg.origin, rrset, k);
    if Recs(st.zone, k) == [] {
      ScanAll(cfg.origin, rrset.records);
      UpdateProceeds(cfg, st, e, k);
      assert [] + rrset.records == rrset.records;
      EffectsAppend(cfg.origin, rrset.records, k, []);
    } else {
      Refused(cfg, st, e, YXRRSet);
    }
  }

  // ----- Sets of data -----

  ghost function DataSet(rs: seq<Record>): set<RData> {
    set i | 0 <= i < |rs| :: FoldData(rs[i].rdata)
  }

  lemma DataSetMember(rs: seq<Record>, d: RData)
    ensures FoldData(d) in DataSet(rs) <==> HasData(rs, d)
  {
    if FoldData(d) in DataSet(rs) {
      var i :| 0 <= i < |rs| && FoldData(rs[i].rdata) == FoldData(d);
      assert DataEq(rs[i].rdata, d);
    }
  }

  lemma DataSetAdd(rs: seq<Record>, r: Record, t: RecordType)
    requires PlainType(t)
    ensures DataSet(AddTo(t, rs, r)) == DataSet(rs) + {FoldData(r.rdata)}
  {
    DataSetMember(rs, r.rdata);
    if !HasData(rs, r.rdata) {
      var out := rs + [r];
      assert out[|rs|] == r && forall i :: 0 <= i < |rs| ==> out[i] == rs[i];
      forall d | d in DataSet(rs) ensures d in DataSet(out) {
        var i :| 0 <= i < |rs| && FoldData(rs[i].rdata) == d;
        assert FoldData(out[i].rdata) == d;
      }
    }
  }

  lemma DataSetWithout(rs: seq<Record>, d: RData)
    ensures DataSet(Without(rs, d)) == DataSet(rs) - {FoldData(d)}
  {
    WithoutMembers(rs, d);
    var out := Without(rs, d);
    forall x | x in DataSet(out) ensures x in DataSet(rs) - {FoldData(d)} {
      var i :| 0 <= i < |out| && FoldData(out[i].rdata) == x;
      assert out[i] in out;
      var j :| 0 <= j < |rs| && rs[j] == out[i];
    }
    forall x | x in DataSet(rs) - {FoldData(d)} ensures x in DataSet(out) {
      var j :| 0 <= j < |rs| && FoldData(rs[j].rdata) == x;
      assert rs[j] in out;
      var i :| 0 <= i < |out| && out[i] == rs[j];
    }
  }

  /** Deleting, by data, a list of records. */
  lemma {:induction false} EffectsDelete(origin: Name, us: seq<Record>, k: RrKey, rs: seq<Record>)
    requires PlainType(k.rtype)
    requires forall i :: 0 <= i < |us| ==> us[i].class_ == NONE && RecordKey(us[i]) == k
    ensures DataSet(Effects(origin, us, k, rs)) == DataSet(rs) - DataSet(us)
    decreases |us|
  {
    if us != [] {
      DataSetWithout(rs, us[0].rdata);
      EffectsDelete(origin, us[1..], k, Without(rs, us[0].rdata));
      DataSetCons(us);
    }
  }

  lemma {:induction false} EffectsAdd(origin: Name, us: seq<Record>, k: RrKey, rs: seq<Record>)
    requires PlainType(k.rtype)
    requires forall i :: 0 <= i < |us| ==> us[i].class_ == IN && RecordKey(us[i]) == k
    ensures DataSet(Effects(origin, us, k, rs)) == DataSet(rs) + DataSet(us)
    decreases |us|
  {
    if us != [] {
      DataSetAdd(rs, us[0], k.rtype);
      EffectsAdd(origin, us[1..], k, AddTo(k.rtype, rs, us[0]));
      DataSetCons(us);
    }
  }

  lemma DataSetCons(us: seq<Record>)
    requires us != []
    ensures DataSet(us) == {FoldData(us[0].rdata)} + DataSet(us[1..])
  {
    var t := us[1..];
    assert forall i :: 0 <= i < |t| ==> t[i] == us[i + 1];
    forall d | d in DataSet(us) ensures d in {FoldData(us[0].rdata)} + DataSet(t) {
      var i :| 0 <= i < |us| && FoldData(us[i].rdata) == d;
      assert i > 0 ==> t[i - 1] == us[i];
    }
    forall d | d in DataSet(t) ensures d in DataSet(us) {
      var i :| 0 <= i < |t| && FoldData(t[i].rdata) == d;
      assert us[i + 1] == t[i];
    }
  }

  lemma DataSetSame(a: seq<Record>, b: seq<Record>)
    requires |a| == |b| && forall i :: 0 <= i < |a| ==> a[i].rdata == b[i].rdata
    ensures DataSet(a) == DataSet(b)
  {
  }

  // ----- compare_and_swap -----

  /** A required record passes exactly when the zone holds one of equal data. */
  lemma RequiredHolds(z: Zone, origin: Name, k: RrKey, r: Record)
    requires WellFormed(z) && RecordKey(r) == k && !MetaType(k.rtype) && ZoneOf(origin, r.name)
    requires r.class_ == IN && r.ttl == 0 && (r.rtype == SOA ==> NameEq(r.name, origin))
    ensures CheckPrerequisite(z, origin, r) == if HasData(Recs(z, k), r.rdata) then Pass else Fail(NXRRSet)
  {
    assert Lookup(z, origin, r.name, r.rtype) == Recs(z, k);
    if k in z {
      assert SetAt(k, z[k]);
      forall i | 0 <= i < |z[k].records|
        ensures RecordEq(z[k].records[i], r) <==> DataEq(z[k].records[i].rdata, r.rdata) {
      }
    }
  }

  lemma {:induction false} RequiredAll(z: Zone, origin: Name, k: RrKey, pre: seq<Record>)
    requires WellFormed(z) && PlainType(k.rtype)
    requires forall i :: 0 <= i < |pre| ==>
               RecordKey(pre[i]) == k && ZoneOf(origin, pre[i].name) && pre[i].class_ == IN && pre[i].ttl == 0
    ensures VerifyPrerequisites(z, origin, pre) == if DataSet(pre) <= DataSet(Recs(z, k)) then Pass else Fail(NXRRSet)
  {
    if pre != [] {
      RequiredHolds(z, origin, k, pre[0]);
      RequiredAll(z, origin, k, pre[1..]);
      DataSetCons(pre);
      DataSetMember(Recs(z, k), pre[0].rdata);
    }
  }

  /** The deletions of compare_and_swap. */
  function Deletions(current: RrSet): seq<Record> {
    WithTtlAll(WithClassAll(current.records, NONE), 0)
  }

  lemma SwapShape(origin: Name, current: RrSet, new_: RrSet)
    requires ZoneOf(origin, current.name) && ZoneOf(origin, new_.name) && current.rrsigs == [] && new_.rrsigs == []
    ensures CompareAndSwap(current, new_, origin).prerequisites == WithTtlAll(current.records, 0)
    ensures CompareAndSwap(current, new_, origin).updates == Deletions(current) + new_.records
  {
  }

  lemma SwapSections(origin: Name, current: RrSet, new_: RrSet, k: RrKey)
    requires ClientSet(current, k) && ClientSet(new_, k) && ZoneOf(origin, current.name) && ZoneOf(origin, new_.name)
    ensures var m, deletes := CompareAndSwap(current, new_, origin), Deletions(current);
            && m.prerequisites == WithTtlAll(current.records, 0)
            && m.updates == deletes + new_.records
            && (forall i :: 0 <= i < |deletes| ==> deletes[i].class_ == NONE && RecordKey(deletes[i]) == k)
            && AllAdmissible(origin, m.updates)
  {
    SwapShape(origin, current, new_);
    DeletionsAdmissible(origin, current, k);
    ClientRecords(origin, new_, k);
    AdmissibleJoin(origin, Deletions(current), new_.records);
  }

  lemma DeletionsAdmissible(origin: Name, current: RrSet, k: RrKey)
    requires ClientSet(current, k) && ZoneOf(origin, current.name)
    ensures forall i :: 0 <= i < |Deletions(current)| ==>
              Deletions(current)[i].class_ == NONE && RecordKey(Deletions(current)[i]) == k
    ensures AllAdmissible(origin, Deletions(current))
  {
    ClientRecords(origin, current, k);
  }

  lemma AdmissibleJoin(origin: Name, a: seq<Record>, b: seq<Record>)
    requires AllAdmissible(origin, a) && AllAdmissible(origin, b)
    ensures AllAdmissible(origin, a + b)
  {
  }

  /** compare_and_swap: when the zone holds all of the current records, by their data, the request
      is carried out and leaves the old data less the current plus the new; otherwise it answers
      NXRRSet and changes nothing. */
  lemma SwapAgainstServer(cfg: Config, st: State, current: RrSet, new_: RrSet, accepted: nat, inception: U32)
    requires WellFormed(st.zone) && cfg.allowUpdate
    requires ZoneOf(cfg.origin, current.name) && ZoneOf(cfg.origin, new_.name)
    requires ClientSet(current, KeyOf(new_.name, new_.rtype)) && ClientSet(new_, KeyOf(new_.name, new_.rtype))
    requires !Rebuilt(cfg, new_.rtype)
    requires accepted >= |current.records| + |new_.records|
    ensures var reply := Handle(cfg, st, Event(CompareAndSwap(current, new_, cfg.origin), accepted, inception));
            var k := KeyOf(new_.name, new_.rtype);
            if DataSet(current.records) <= DataSet(Recs(st.zone, k))
            then (reply.result.Ok? || (cfg.dnssec && reply.result == Err(ServFail)))
                 && DataSet(Recs(reply.state.zone, k)) ==
                    (DataSet(Recs(st.zone, k)) - DataSet(current.records)) + DataSet(new_.records)
            else reply == Reply(st, Err(NXRRSet))
  {
    var k := KeyOf(new_.name, new_.rtype);
    var e := Event(CompareAndSwap(current, new_, cfg.origin), accepted, inception);
    SwapSections(cfg.origin, current, new_, k);
    var pre := WithTtlAll(current.records, 0);
    ClientRecords(cfg.origin, current, k);
    RequiredAll(st.zone, cfg.origin, k, pre);
    DataSetSame(pre, current.records);
    if DataSet(current.records) <= DataSet(Recs(st.zone, k)) {
      SwapEffects(cfg.origin, current, new_, k, Recs(st.zone, k));
      PreScanMeans(cfg.origin, e.message.updates);
      UpdateProceeds(cfg, st, e, k);
    } else {
      Refused(cfg, st, e, NXRRSet);
    }
  }

  lemma SwapEffects(origin: Name, current: RrSet, new_: RrSet, k: RrKey, rs: seq<Record>)
    requires ClientSet(current, k) && ClientSet(new_, k) && ZoneOf(origin, current.name) && ZoneOf(origin, new_.name)
    ensures DataSet(Effects(origin, CompareAndSwap(current, new_, origin).updates, k, rs)) ==
            (DataSet(rs) - DataSet(current.records)) + DataSet(new_.records)
  {
    SwapSections(origin, current, new_, k);
    var deletes := Deletions(current);
    DataSetSame(deletes, current.records);
    ClientRecords(origin, new_, k);
    EffectsSplit(origin, deletes, new_.records, k, rs);
    EffectsDelete(origin, deletes, k, rs);
    EffectsAdd(origin, new_.records, k, Effects(origin, deletes, k, rs));
  }

  // ----- NSEC sets in a signed zone -----

  /** The keys a section of NSEC records touches are all NSEC keys. */
  lemma {:induction false} NsecSectionKeys(z: Zone, origin: Name, us: seq<Record>, serial: U32)
    requires forall i :: 0 <= i < |us| ==> us[i].rtype == NSEC
    ensures DataKeys(ApplyAll(z, origin, us, serial).zone) == DataKeys(z)
    decreases |us|
  {
    if us != [] {
      var first := ApplyRecord(z, origin, us[0], serial);
      assert DataKeys(first.zone) == DataKeys(z);
      if first.Done? {
        NsecSectionKeys(first.zone, origin, us[1..], serial);
      }
    }
  }

  lemma SecuredDataKeys(cfg: Config, z: Zone, inception: U32)
    requires WellFormed(z) && cfg.signers != []
    ensures DataKeys(SecureZone(cfg.crypto, z, cfg.origin, cfg.signers, inception).zone) == DataKeys(z)
  {
    StagedKeeps(z, cfg.origin, cfg.signers);
    IncrementKeeps(z, cfg.origin);
    SignZoneKeeps(cfg.crypto, Staged(z, cfg.origin, cfg.signers), cfg.origin, cfg.signers, inception);
  }

  /** The data of the chain's links at a name. */
  ghost function LinkData(gs: seq<Group>, origin: Name, name: Name): set<RData> {
    set i | 0 <= i < |gs| && gs[i].owner == name :: FoldData(Chain(gs, origin, 0)[i].rdata)
  }

  /** The data of an NSEC set of a chained zone is settled by the zone's other keys. */
  lemma ChainSettlesData(z: Zone, gs: seq<Group>, origin: Name, k: RrKey)
    requires ChainCurrent(z, origin) && gs == Groups(InOrder(DataKeys(z))) && k.rtype == NSEC
    ensures DataSet(Recs(z, k)) == LinkData(gs, origin, k.name)
  {
    if i :| 0 <= i < |gs| && gs[i].owner == k.name {
      assert ChainedAt(z, gs, origin, i);
      OneData(Recs(z, k), FoldData(Chain(gs, origin, 0)[i].rdata));
      forall j | 0 <= j < |gs| && gs[j].owner == k.name
        ensures Chain(gs, origin, 0)[j].rdata == Chain(gs, origin, 0)[i].rdata
      {
        assert ChainedAt(z, gs, origin, j);
      }
    } else {
      assert k !in z;
    }
  }

  lemma OneData(rs: seq<Record>, d: RData)
    requires |rs| == 1 && FoldData(rs[0].rdata) == d
    ensures DataSet(rs) == {d}
  {
  }

  /** In a chained zone that the server signs, a request that adds and deletes nothing but NSEC records
      leaves the data of every NSEC set as it was. */
  lemma NsecSetsRestored(cfg: Config, st: State, e: Event, k: RrKey)
    requires cfg.dnssec && cfg.signers != [] && Chained(cfg, st.zone) && WellTypedMessage(e.message)
    requires (forall i :: 0 <= i < |e.message.updates| ==> e.message.updates[i].rtype == NSEC) && k.rtype == NSEC
    ensures DataSet(Recs(Handle(cfg, st, e).state.zone, k)) == DataSet(Recs(st.zone, k))
  {
    var us := e.message.updates;
    UpdateKeepsChained(cfg, st, e);
    UpdateOutcome(cfg, st, e);
    if Handle(cfg, st, e).state.zone != st.zone {
      var z := Applied(cfg, st.zone, us).zone;
      ApplyAllKeeps(st.zone, cfg.origin, us, Serial(st.zone, cfg.origin));
      NsecSectionKeys(st.zone, cfg.origin, us, Serial(st.zone, cfg.origin));
      SecuredDataKeys(cfg, z, e.inception);
    }
    var gs := Groups(InOrder(DataKeys(st.zone)));
    ChainSettlesData(st.zone, gs, cfg.origin, k);
    ChainSettlesData(Handle(cfg, st, e).state.zone, gs, cfg.origin, k);
  }

  /** So there create leaves the given data exactly when it is given none. */
  lemma CreateNsecExactly(cfg: Config, st: State, rrset: RrSet, accepted: nat, inception: U32)
    requires Rebuilt(cfg, rrset.rtype) && Chained(cfg, st.zone) && ZoneOf(cfg.origin, rrset.name)
    requires ClientSet(rrset, KeyOf(rrset.name, NSEC)) && Recs(st.zone, KeyOf(rrset.name, NSEC)) == []
    ensures var reply := Handle(cfg, st, Event(Create(rrset, cfg.origin), accepted, inception));
            DataSet(Recs(reply.state.zone, KeyOf(rrset.name, NSEC))) == DataSet(rrset.records) <==> rrset.records == []
  {
    var e := Event(Create(rrset, cfg.origin), accepted, inception);
    assert e.message.updates == rrset.records;
    ClientRecords(cfg.origin, rrset, KeyOf(rrset.name, NSEC));
    NsecSetsRestored(cfg, st, e, KeyOf(rrset.name, NSEC));
    if rrset.records != [] {
      assert FoldData(rrset.records[0].rdata) in DataSet(rrset.records);
    }
  }

  /** And compare_and_swap leaves what it asks for exactly when that is what was there. */
  lemma SwapNsecExactly(cfg: Config, st: State, current: RrSet, new_: RrSet, accepted: nat, inception: U32)
    requires Rebuilt(cfg, new_.rtype) && Chained(cfg, st.zone)
    requires ZoneOf(cfg.origin, current.name) && ZoneOf(cfg.origin, new_.name)
    requires ClientSet(current, KeyOf(new_.name, NSEC)) && ClientSet(new_, KeyOf(new_.name, NSEC))
    ensures var reply := Handle(cfg, st, Event(CompareAndSwap(current, new_, cfg.origin), accepted, inception));
            var k := KeyOf(new_.name, NSEC);
            var asked := (DataSet(Recs(st.zone, k)) - DataSet(current.records)) + DataSet(new_.records);
            DataSet(Recs(reply.state.zone, k)) == asked <==> DataSet(Recs(st.zone, k)) == asked
  {
    var e := Event(CompareAndSwap(current, new_, cfg.origin), accepted, inception);
    var k := KeyOf(new_.name, NSEC);
    SwapSections(cfg.origin, current, new_, k);
    ClientRecords(cfg.origin, new_, k);
    NsecSetsRestored(cfg, st, e, k);
  }
}
