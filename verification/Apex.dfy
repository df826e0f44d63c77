/** What update processing keeps at the zone apex: the SOA, its serial and the NS set
    (server/src/authority/authority.rs, section 3.4.2 of RFC 2136). */
module Apex {
  import opened Basics
  import opened Names
  import opened Records
  import opened RrSets
  import opened Zones
  import opened PerKey
  import opened Signing
  import opened Authority

  predicate DeletesApex(origin: Name, r: Record) {
    r.class_ == ANYCLASS && r.rtype == ANY && NameEq(r.name, origin)
  }

  predicate AddsSoa(origin: Name, r: Record) {
    r.class_ == IN && r.rtype == SOA && NameEq(r.name, origin)
  }

  /** No record from an index on deletes the apex. */
  ghost predicate Spares(origin: Name, us: seq<Record>, from: nat) {
    forall i :: from <= i < |us| ==> !DeletesApex(origin, us[i])
  }

  ghost predicate AddsAt(origin: Name, us: seq<Record>, j: nat) {
    j < |us| && AddsSoa(origin, us[j]) && Spares(origin, us, j + 1)
  }

  /** Whether an SOA stands at the apex after some update records: it was there and no record deletes
      it, or one adds it and no later one deletes it. */
  ghost predicate SoaAfter(origin: Name, us: seq<Record>, had: bool) {
    (had && Spares(origin, us, 0)) || exists j: nat :: AddsAt(origin, us, j)
  }

  lemma SparesTail(origin: Name, us: seq<Record>, from: nat)
    requires us != []
    ensures Spares(origin, us[1..], from) <==> Spares(origin, us, from + 1)
    ensures Spares(origin, us, 0) <==> !DeletesApex(origin, us[0]) && Spares(origin, us, 1)
  {
    var t := us[1..];
    if Spares(origin, t, from) {
      forall i | from + 1 <= i < |us| ensures !DeletesApex(origin, us[i]) {
        assert us[i] == t[i - 1];
      }
    }
  }

  lemma AddsAtTail(origin: Name, us: seq<Record>, j: nat)
    requires us != []
    ensures AddsAt(origin, us[1..], j) <==> AddsAt(origin, us, j + 1)
  {
    SparesTail(origin, us, j + 1);
  }

  lemma SoaAfterNext(origin: Name, us: seq<Record>, had: bool)
    requires us != []
    ensures SoaAfter(origin, us, had) <==>
            SoaAfter(origin, us[1..], AddsSoa(origin, us[0]) || (had && !DeletesApex(origin, us[0])))
  {
    SparesTail(origin, us, 0);
    if j: nat :| AddsAt(origin, us, j) {
      if j > 0 {
        AddsAtTail(origin, us, j - 1);
      }
    }
    if j: nat :| AddsAt(origin, us[1..], j) {
      AddsAtTail(origin, us, j);
    }
    if AddsSoa(origin, us[0]) && Spares(origin, us, 1) {
      assert AddsAt(origin, us, 0);
    }
  }

  /** Exactly when an update section leaves an SOA at the apex: no class-ANY, type-ANY record at the
      origin removes it, or an SOA is added after the last one that does. */
  lemma {:induction false} SoaSurvives(origin: Name, us: seq<Record>, rs: seq<Record>)
    requires forall i :: 0 <= i < |us| ==> Insertable(us[i])
    requires |rs| <= 1 && (rs != [] ==> rs[0].rdata.Soa?)
    ensures Effects(origin, us, SoaKey(origin), rs) != [] <==> SoaAfter(origin, us, rs != [])
    ensures |Effects(origin, us, SoaKey(origin), rs)| <= 1
    decreases |us|
  {
    if us != [] {
      var rs' := Effect(origin, us[0], SoaKey(origin), rs);
      assert rs' != [] <==> AddsSoa(origin, us[0]) || (rs != [] && !DeletesApex(origin, us[0]));
      SoaAfterNext(origin, us, rs != []);
      SoaSurvives(origin, us[1..], rs');
    }
  }

  /** Without such a deletion an update section never lowers the serial. */
  lemma {:induction false} SerialRises(origin: Name, us: seq<Record>, rs: seq<Record>)
    requires forall i :: 0 <= i < |us| ==> Insertable(us[i]) && !DeletesApex(origin, us[i])
    requires |rs| == 1 && rs[0].rdata.Soa?
    ensures var rs' := Effects(origin, us, SoaKey(origin), rs);
            |rs'| == 1 && rs'[0].rdata.Soa? && SerialOf(rs') >= SerialOf(rs)
    decreases |us|
  {
    if us != [] {
      SerialRises(origin, us[1..], Effect(origin, us[0], SoaKey(origin), rs));
    }
  }

  /** Nor does it take the last NS record of the apex. */
  lemma {:induction false} NsSurvives(origin: Name, us: seq<Record>, rs: seq<Record>)
    requires forall i :: 0 <= i < |us| ==> !DeletesApex(origin, us[i])
    requires rs != [] && DistinctData(rs)
    ensures Effects(origin, us, KeyOf(origin, NS), rs) != []
    decreases |us|
  {
    if us != [] {
      NsStep(origin, us[0], rs);
      NsSurvives(origin, us[1..], Effect(origin, us[0], KeyOf(origin, NS), rs));
    }
  }

  lemma NsStep(origin: Name, r: Record, rs: seq<Record>)
    requires !DeletesApex(origin, r) && rs != [] && DistinctData(rs)
    ensures var rs' := Effect(origin, r, KeyOf(origin, NS), rs); rs' != [] && DistinctData(rs')
  {
    var k := KeyOf(origin, NS);
    if r.class_ == NONE && k == RecordKey(r) && |rs| > 1 {
      if HasData(rs, r.rdata) {
        var j :| 0 <= j < |rs| && DataEq(rs[j].rdata, r.rdata);
        WithoutOne(rs, r.rdata, j);
        CutKeepsDistinct(rs, j);
      } else {
        WithoutNothing(rs, r.rdata);
      }
    } else if r.class_ == ANYCLASS && r.rtype == ANY {
      assert !DeletedByName(k, origin, r.name);
    }
  }

  // ----- Over whole updates and runs of them -----

  ghost predicate KeepsApex(origin: Name, m: UpdateMessage) {
    forall i :: 0 <= i < |m.updates| ==> !DeletesApex(origin, m.updates[i])
  }

  /** A well-formed zone with exactly one SOA at its apex. */
  ghost predicate HasApex(z: Zone, origin: Name) {
    WellFormed(z) && |Recs(z, SoaKey(origin))| == 1
  }

  lemma ApexList(z: Zone, origin: Name)
    requires HasApex(z, origin)
    ensures var rs := Recs(z, SoaKey(origin)); rs[0].rdata.Soa? && SerialOf(rs) == Serial(z, origin)
  {
    assert SetAt(SoaKey(origin), z[SoaKey(origin)]);
  }

  lemma SectionKeepsApex(z: Zone, origin: Name, us: seq<Record>)
    requires HasApex(z, origin) && AllAdmissible(origin, us)
    requires forall i :: 0 <= i < |us| ==> !DeletesApex(origin, us[i])
    ensures var s := ApplyAll(z, origin, us, Serial(z, origin));
            && s.Done? && HasApex(s.zone, origin)
            && Serial(s.zone, origin) >= Serial(z, origin)
            && (Recs(z, KeyOf(origin, NS)) != [] ==> Recs(s.zone, KeyOf(origin, NS)) != [])
  {
    var serial := Serial(z, origin);
    ApexList(z, origin);
    ApplyAllKeeps(z, origin, us, serial);
    ApplyAllEffects(z, origin, us, serial, SoaKey(origin));
    SerialRises(origin, us, Recs(z, SoaKey(origin)));
    ApexList(ApplyAll(z, origin, us, serial).zone, origin);
    var ns := KeyOf(origin, NS);
    if Recs(z, ns) != [] {
      assert SetAt(ns, z[ns]);
      ApplyAllEffects(z, origin, us, serial, ns);
      NsSurvives(origin, us, Recs(z, ns));
    }
  }

  /** Finishing an update touches the records of no set but the SOA's and the NSEC ones. */
  lemma FinishRecords(cfg: Config, z: Zone, inception: U32, k: RrKey)
    requires WellFormed(z) && k.rtype != NSEC
    ensures WellFormed(Finish(cfg, z, inception).zone)
    ensures Recs(Finish(cfg, z, inception).zone, k) == Recs(IncrementSoa(z, cfg.origin), k)
  {
    IncrementKeeps(z, cfg.origin);
    if cfg.dnssec {
      SecureZoneWellFormed(cfg.crypto, z, cfg.origin, cfg.signers, inception);
      SecureZoneRecords(cfg.crypto, z, cfg.origin, cfg.signers, inception, k);
    }
  }

  /** Raising the serial, signed or not, keeps the apex; the new serial is the next one, or the same
      one at the top of its range. */
  lemma FinishKeepsApex(cfg: Config, z: Zone, inception: U32)
    requires HasApex(z, cfg.origin)
    ensures var z' := Finish(cfg, z, inception).zone;
            && HasApex(z', cfg.origin)
            && Serial(z', cfg.origin) ==
                 (if Serial(z, cfg.origin) == 0xFFFF_FFFF then 0xFFFF_FFFF else Serial(z, cfg.origin) + 1)
            && Recs(z', KeyOf(cfg.origin, NS)) == Recs(z, KeyOf(cfg.origin, NS))
  {
    FinishRecords(cfg, z, inception, SoaKey(cfg.origin));
    FinishRecords(cfg, z, inception, KeyOf(cfg.origin, NS));
    BumpedApex(z, cfg.origin);
  }

  lemma BumpedApex(z: Zone, origin: Name)
    requires HasApex(z, origin)
    ensures var z' := IncrementSoa(z, origin);
            && HasApex(z', origin)
            && Serial(z', origin) == (if Serial(z, origin) == 0xFFFF_FFFF then 0xFFFF_FFFF else Serial(z, origin) + 1)
            && Recs(z', KeyOf(origin, NS)) == Recs(z, KeyOf(origin, NS))
  {
    IncrementKeeps(z, origin);
  }

  /** One update without a class-ANY, type-ANY record at the origin, whatever its result: the apex
      keeps its one SOA and its NS set, the serial does not fall, and when a change is reported it
      rises exactly if it was not at the top of its range. */
  lemma UpdateKeepsApex(cfg: Config, st: State, e: Event)
    requires HasApex(st.zone, cfg.origin) && WellTypedMessage(e.message) && KeepsApex(cfg.origin, e.message)
    ensures var reply := Handle(cfg, st, e);
            var z := reply.state.zone;
            && HasApex(z, cfg.origin)
            && Serial(z, cfg.origin) >= Serial(st.zone, cfg.origin)
            && (Recs(st.zone, KeyOf(cfg.origin, NS)) != [] ==> Recs(z, KeyOf(cfg.origin, NS)) != [])
            && (reply.result == Ok(true) ==>
                  (Serial(z, cfg.origin) > Serial(st.zone, cfg.origin) <==> Serial(st.zone, cfg.origin) < 0xFFFF_FFFF))
  {
    var us := e.message.updates;
    UpdateOutcome(cfg, st, e);
    if Handle(cfg, st, e).state.zone != st.zone || Handle(cfg, st, e).result == Ok(true) {
      SectionKeepsApex(st.zone, cfg.origin, us);
      FinishKeepsApex(cfg, Applied(cfg, st.zone, us).zone, e.inception);
    }
  }

  /** The same over every run. */
  lemma {:induction false} RunKeepsApex(cfg: Config, st: State, es: seq<Event>)
    requires HasApex(st.zone, cfg.origin)
    requires forall i :: 0 <= i < |es| ==> WellTypedMessage(es[i].message) && KeepsApex(cfg.origin, es[i].message)
    ensures var z := RunUpdates(cfg, st, es).zone;
            && HasApex(z, cfg.origin)
            && Serial(z, cfg.origin) >= Serial(st.zone, cfg.origin)
            && (Recs(st.zone, KeyOf(cfg.origin, NS)) != [] ==> Recs(z, KeyOf(cfg.origin, NS)) != [])
    decreases |es|
  {
    if es != [] {
      UpdateKeepsApex(cfg, st, es[0]);
      RunKeepsApex(cfg, Handle(cfg, st, es[0]).state, es[1..]);
    }
  }

  // ----- Which SOA stands at the apex -----

  /** The SOA records that a section adds at the origin, in order. */
  function AddedSoas(origin: Name, us: seq<Record>): seq<Record> {
    if us == [] then [] else (if AddsSoa(origin, us[0]) then [us[0]] else []) + AddedSoas(origin, us[1..])
  }

  ghost predicate AllSoas(rs: seq<Record>) {
    forall i :: 0 <= i < |rs| ==> rs[i].rdata.Soa?
  }

  /** The first of the records with the greatest serial stands at an index. */
  ghost predicate NewestAt(rs: seq<Record>, i: int)
    requires AllSoas(rs)
  {
    && 0 <= i < |rs|
    && (forall j :: 0 <= j < |rs| ==> rs[j].rdata.soa.serial <= rs[i].rdata.soa.serial)
    && (forall j :: 0 <= j < i ==> rs[j].rdata.soa.serial < rs[i].rdata.soa.serial)
  }

  ghost predicate IsNewest(rs: seq<Record>, r: Record)
    requires AllSoas(rs)
  {
    exists i :: NewestAt(rs, i) && rs[i] == r
  }

  lemma NewestUnique(rs: seq<Record>, a: Record, b: Record)
    requires AllSoas(rs) && IsNewest(rs, a) && IsNewest(rs, b)
    ensures a == b
  {
    var i :| NewestAt(rs, i) && rs[i] == a;
    var j :| NewestAt(rs, j) && rs[j] == b;
    assert i == j;
  }

  lemma NewestCons(first: Record, rest: seq<Record>, i: int)
    requires first.rdata.Soa? && AllSoas(rest) && NewestAt(rest, i)
    ensures AllSoas([first] + rest)
    ensures NewestAt([first] + rest, if rest[i].rdata.soa.serial > first.rdata.soa.serial then i + 1 else 0)
  {
    var all := [first] + rest;
    forall j | 0 < j < |all| ensures all[j] == rest[j - 1] && all[j].rdata.Soa? {
    }
  }

  /** Of a record and the newest of the rest, the newest of all. */
  lemma NewestOf(first: Record, rest: seq<Record>, r: Record)
    requires first.rdata.Soa? && AllSoas(rest) && IsNewest(rest, r)
    ensures AllSoas([first] + rest)
    ensures IsNewest([first] + rest, if r.rdata.soa.serial > first.rdata.soa.serial then r else first)
  {
    var i :| NewestAt(rest, i) && rest[i] == r;
    NewestCons(first, rest, i);
    assert ([first] + rest)[i + 1] == r;
  }

  lemma {:induction false} SomeNewestAt(rs: seq<Record>) returns (i: int)
    requires AllSoas(rs) && rs != []
    ensures NewestAt(rs, i)
    decreases |rs|
  {
    i := 0;
    if |rs| > 1 {
      var n := SomeNewestAt(rs[1..]);
      NewestCons(rs[0], rs[1..], n);
      assert [rs[0]] + rs[1..] == rs;
      i := if rs[1..][n].rdata.soa.serial > rs[0].rdata.soa.serial then n + 1 else 0;
    }
  }

  lemma SomeNewest(rs: seq<Record>) returns (r: Record)
    requires AllSoas(rs) && rs != []
    ensures IsNewest(rs, r)
  {
    var i := SomeNewestAt(rs);
    r := rs[i];
  }

  lemma {:induction false} AddedAreSoas(origin: Name, us: seq<Record>)
    requires forall i :: 0 <= i < |us| ==> Insertable(us[i])
    ensures AllSoas(AddedSoas(origin, us))
  {
    if us != [] {
      AddedAreSoas(origin, us[1..]);
    }
  }

  /** The newer of two records, the first when neither is. */
  function Newer(a: Record, b: Record): Record
    requires a.rdata.Soa? && b.rdata.Soa?
  {
    if b.rdata.soa.serial > a.rdata.soa.serial then b else a
  }

  lemma NewestOfNewer(a: Record, b: Record, rest: seq<Record>)
    requires a.rdata.Soa? && b.rdata.Soa? && AllSoas(rest)
    ensures forall r :: IsNewest([Newer(a, b)] + rest, r) ==> IsNewest([a] + ([b] + rest), r)
  {
    if rest == [] {
      NewestOfTwo(a, b);
      assert [b] + rest == [b] && [Newer(a, b)] + rest == [Newer(a, b)] && [a] + [b] == [a, b];
      forall r | IsNewest([Newer(a, b)], r) ensures r == Newer(a, b) {
        var i :| NewestAt([Newer(a, b)], i) && [Newer(a, b)][i] == r;
      }
    } else {
      var n := SomeNewest(rest);
      NewestOf(b, rest, n);
      NewestOf(a, [b] + rest, Newer(b, n));
      NewestOf(Newer(a, b), rest, n);
      forall r | IsNewest([Newer(a, b)] + rest, r) ensures r == Newer(a, Newer(b, n)) {
        NewestUnique([Newer(a, b)] + rest, r, Newer(Newer(a, b), n));
      }
    }
  }

  lemma NewestOfTwo(a: Record, b: Record)
    requires a.rdata.Soa? && b.rdata.Soa?
    ensures IsNewest([a, b], Newer(a, b))
  {
    assert NewestAt([a, b], if b.rdata.soa.serial > a.rdata.soa.serial then 1 else 0);
  }

  /** A section that does not delete the apex leaves there the newest of the SOA it found and those it
      adds, the earliest of equals, exactly as it was found or sent. */
  lemma {:induction false} NewestStands(origin: Name, us: seq<Record>, soa: Record)
    requires forall i :: 0 <= i < |us| ==> Insertable(us[i]) && !DeletesApex(origin, us[i])
    requires soa.rdata.Soa?
    ensures AllSoas([soa] + AddedSoas(origin, us))
    ensures var rs := Effects(origin, us, SoaKey(origin), [soa]);
            |rs| == 1 && IsNewest([soa] + AddedSoas(origin, us), rs[0])
    decreases |us|
  {
    AddedAreSoas(origin, us);
    if us == [] {
      assert [soa] + [] == [soa] && NewestAt([soa], 0);
    } else {
      var next := if AddsSoa(origin, us[0]) then Newer(soa, us[0]) else soa;
      assert Effect(origin, us[0], SoaKey(origin), [soa]) == [next];
      AddedAreSoas(origin, us[1..]);
      NewestStands(origin, us[1..], next);
      if AddsSoa(origin, us[0]) {
        NewestOfNewer(soa, us[0], AddedSoas(origin, us[1..]));
      } else {
        assert [] + AddedSoas(origin, us[1..]) == AddedSoas(origin, us[1..]);
      }
    }
  }

  /** An update that neither adds an SOA at the origin nor deletes the apex. */
  ghost predicate LeavesSoa(origin: Name, m: UpdateMessage) {
    forall i :: 0 <= i < |m.updates| ==> !DeletesApex(origin, m.updates[i]) && !AddsSoa(origin, m.updates[i])
  }

  lemma {:induction false} SectionLeavesSoa(origin: Name, us: seq<Record>, rs: seq<Record>)
    requires forall i :: 0 <= i < |us| ==> !DeletesApex(origin, us[i]) && !AddsSoa(origin, us[i])
    ensures Effects(origin, us, SoaKey(origin), rs) == rs
    decreases |us|
  {
    if us != [] {
      SectionLeavesSoa(origin, us[1..], rs);
    }
  }

  /** Such an update leaves an SOA that differs from the one before in its serial alone. */
  lemma UpdateLeavesSoa(cfg: Config, st: State, e: Event)
    requires HasApex(st.zone, cfg.origin) && WellTypedMessage(e.message) && LeavesSoa(cfg.origin, e.message)
    ensures SameButSerial(Recs(st.zone, SoaKey(cfg.origin)), Recs(Handle(cfg, st, e).state.zone, SoaKey(cfg.origin)))
  {
    var us, k := e.message.updates, SoaKey(cfg.origin);
    UpdateOutcome(cfg, st, e);
    ApexList(st.zone, cfg.origin);
    if Handle(cfg, st, e).state.zone != st.zone {
      var z := Applied(cfg, st.zone, us).zone;
      SectionKeepsApex(st.zone, cfg.origin, us);
      ApplyAllEffects(st.zone, cfg.origin, us, Serial(st.zone, cfg.origin), k);
      SectionLeavesSoa(cfg.origin, us, Recs(st.zone, k));
      FinishRecords(cfg, z, e.inception, k);
      IncrementKeeps(z, cfg.origin);
    }
  }

  /** And so does every run of them. */
  lemma {:induction false} RunLeavesSoa(cfg: Config, st: State, es: seq<Event>)
    requires HasApex(st.zone, cfg.origin)
    requires forall i :: 0 <= i < |es| ==> WellTypedMessage(es[i].message) && LeavesSoa(cfg.origin, es[i].message)
    ensures SameButSerial(Recs(st.zone, SoaKey(cfg.origin)), Recs(RunUpdates(cfg, st, es).zone, SoaKey(cfg.origin)))
    decreases |es|
  {
    ApexList(st.zone, cfg.origin);
    if es != [] {
      UpdateLeavesSoa(cfg, st, es[0]);
      UpdateKeepsApex(cfg, st, es[0]);
      RunLeavesSoa(cfg, Handle(cfg, st, es[0]).state, es[1..]);
    }
  }

  // ----- Where delete-all departs from RFC 2136 -----

  /** Section 3.4.2.3 of RFC 2136: delete every set of a name, save SOA and NS at the apex. */
  function RfcDeleteName(z: Zone, origin: Name, name: Name): Zone {
    map k | k in z && !(k.name == Lower(name)
                        && !((k.rtype == SOA || k.rtype == NS) && k.name == Lower(origin))) :: z[k]
  }

  /** The code does what the RFC says for a name exactly when the name has no SOA and no NS set: at
      the origin it deletes those the RFC keeps, elsewhere it keeps those the RFC deletes. */
  lemma DeleteNameFollowsRfc(z: Zone, origin: Name, name: Name)
    ensures DeleteName(z, origin, name) == RfcDeleteName(z, origin, name) <==>
            KeyOf(name, SOA) !in z && KeyOf(name, NS) !in z
  {
    var code, rfc := DeleteName(z, origin, name), RfcDeleteName(z, origin, name);
    if code == rfc {
      assert KeyOf(name, SOA) in code <==> KeyOf(name, SOA) in rfc;
      assert KeyOf(name, NS) in code <==> KeyOf(name, NS) in rfc;
    }
    if KeyOf(name, SOA) !in z && KeyOf(name, NS) !in z {
      assert forall k :: k in z && k.name == Lower(name) ==> k == KeyOf(name, k.rtype);
      assert code == rfc;
    }
  }

  /** A concrete loss: one scanned record deletes the SOA and the NS set of the apex. */
  lemma ApexCanBeDeleted(z: Zone, origin: Name, serial: U32)
    requires WellFormed(z)
    ensures var r := Record(origin, ANY, ANYCLASS, 0, NullData([]));
            && PreScan(origin, [r]) == Pass
            && var z' := ApplyAll(z, origin, [r], serial).zone;
               Recs(z', SoaKey(origin)) == [] && Recs(z', KeyOf(origin, NS)) == []
  {
    var r := Record(origin, ANY, ANYCLASS, 0, NullData([]));
    assert [r][1..] == [];
    ApplyOne(z, origin, r, serial);
  }
}
