/** The authority of one zone: its record sets, its write-ahead journal and its keys, updated in
    place (server/src/authority/authority.rs).  Every method is proved against the value it
    computes in Zones, Nsec and Signing. */
module Authority {
  import opened Basics
  import opened Names
  import opened Records
  import opened RrSets
  import opened Zones
  import opened Nsec
  import opened Signing

  datatype UpdateResult = Ok(updated: bool) | Err(code: Rcode)

  /** An update message, as far as the server reads it; `authorized` stands for the verification
      of its SIG(0) records against the zone's KEY records. */
  datatype UpdateMessage = UpdateMessage(prerequisites: seq<Record>, updates: seq<Record>, authorized: bool)

  /** What the zone is configured with. */
  datatype Config = Config(origin: Name, allowUpdate: bool, dnssec: bool, signers: seq<Signer>, crypto: Crypto)

  datatype State = State(zone: Zone, journal: Option<seq<Record>>)

  datatype Reply = Reply(state: State, result: UpdateResult)

  // ----- What update_records computes -----

  /** After the records are applied: raise the serial, in a signed zone by securing it anew. */
  function Finish(cfg: Config, z: Zone, inception: U32): SignedZone {
    if cfg.dnssec then SecureZone(cfg.crypto, z, cfg.origin, cfg.signers, inception)
    else SignedZone(IncrementSoa(z, cfg.origin), true)
  }

  function Settle(cfg: Config, step: Step, auto: bool, journal: Option<seq<Record>>, inception: U32): Reply {
    match step
    case Fault(z, code) => Reply(State(z, journal), Err(code))
    case Done(z, updated) =>
      if updated && auto then
        var out := Finish(cfg, z, inception);
        Reply(State(out.zone, journal), if out.ok then Ok(true) else Err(ServFail))
      else Reply(State(z, journal), Ok(updated))
  }

  /** Append to the journal first, then apply, then finish.  `accepted` is how many of the records
      the journal takes before it fails; an append that fails leaves the zone alone. */
  function UpdateRecordsSpec(cfg: Config, st: State, rs: seq<Record>, auto: bool,
                             accepted: nat, inception: U32): Reply {
    if st.journal.Some? && accepted < |rs| then
      Reply(st.(journal := Some(st.journal.value + rs[..accepted])), Err(ServFail))
    else
      var journal := if st.journal.Some? then Some(st.journal.value + rs) else None;
      Settle(cfg, ApplyAll(st.zone, cfg.origin, rs, Serial(st.zone, cfg.origin)), auto, journal, inception)
  }

  /** authorize, verify_prerequisites, pre_scan, and only then update_records. */
  function UpdateSpec(cfg: Config, st: State, m: UpdateMessage, accepted: nat, inception: U32): Reply {
    if !(cfg.allowUpdate && m.authorized) then Reply(st, Err(Refused))
    else
      var pre := VerifyPrerequisites(st.zone, cfg.origin, m.prerequisites);
      if pre.Fail? then Reply(st, Err(pre.code))
      else
        var scan := PreScan(cfg.origin, m.updates);
        if scan.Fail? then Reply(st, Err(scan.code))
        else UpdateRecordsSpec(cfg, st, m.updates, true, accepted, inception)
  }

  /** A step with what was reported before it. */
  function Carry(updated: bool, s: Step): Step {
    if s.Fault? then s else Done(s.zone, updated || s.updated)
  }

  lemma ApplyAllNext(z: Zone, origin: Name, rs: seq<Record>, i: nat, serial: U32, updated: bool)
    requires i < |rs|
    ensures var s := ApplyRecord(z, origin, rs[i], serial);
            Carry(updated, ApplyAll(z, origin, rs[i..], serial)) ==
            if s.Fault? then s else Carry(updated || s.updated, ApplyAll(s.zone, origin, rs[i + 1..], serial))
  {
    assert rs[i..][0] == rs[i] && rs[i..][1..] == rs[i + 1..];
  }

  class Authority {
    const cfg: Config
    var records: Zone
    var journal: Option<seq<Record>>

    constructor (cfg: Config, records: Zone)
      ensures this.cfg == cfg && this.records == records && journal == None
    {
      this.cfg := cfg;
      this.records := records;
      this.journal := None;
    }

    ghost function Now(): State
      reads this
    {
      State(records, journal)
    }

    method Upsert(record: Record, serial: U32) returns (updated: bool)
      requires WellFormed(records) && record.class_ == IN && Insertable(record)
      modifies this`records
      ensures Done(records, updated) == Zones.Upsert(old(records), record, serial)
      ensures WellFormed(records)
    {
      UpsertKeeps(records, record, serial);
      EmptySetAt(record, serial);
      var rrKey := KeyOf(record.name, record.rtype);
      var rrset := new RecordSet(if rrKey in records then records[rrKey]
                                 else EmptySet(record.name, record.rtype, serial));
      updated := rrset.Insert(record, serial);
      records := records[rrKey := rrset.View()];
    }

    method IncrementSoaSerial() returns (serial: U32)
      requires WellFormed(records)
      modifies this`records
      ensures records == IncrementSoa(old(records), cfg.origin)
      ensures serial == if Recs(old(records), SoaKey(cfg.origin)) == []
                        then 0 else NextSerial(Serial(old(records), cfg.origin))
      ensures WellFormed(records)
    {
      IncrementKeeps(records, cfg.origin);
      var soa := Lookup(records, cfg.origin, cfg.origin, SOA);
      if soa == [] {
        return 0;
      }
      SoaIsSoa(records, cfg.origin);
      var bumped := BumpedSoa(soa[0]);
      serial := bumped.rdata.soa.serial;
      var _ := Upsert(bumped, serial);
    }

    /** Remove the sets of some keys one by one; whether there were any. */
    method RemoveKeys(ks: seq<RrKey>) returns (deleted: bool)
      modifies this`records
      ensures records == old(records) - Members(ks)
      ensures deleted == (ks != [])
    {
      ghost var before := records;
      deleted := false;
      for i := 0 to |ks|
        invariant records == before - Members(ks[..i])
        invariant deleted == (i > 0)
      {
        MembersNext(ks, i);
        records := records - {ks[i]};
        deleted := true;
      }
      assert ks[..|ks|] == ks;
    }

    /** Delete the sets of one name: collect the keys, then remove them. */
    method DeleteAtName(name: Name) returns (deleted: bool)
      modifies this`records
      ensures records == DeleteName(old(records), cfg.origin, name)
      ensures deleted == (records.Keys != old(records).Keys)
    {
      var toDelete := KeysToDelete(name);
      DeletedReports(records, cfg.origin, name, toDelete);
      deleted := RemoveKeys(toDelete);
    }

    method KeysToDelete(name: Name) returns (ks: seq<RrKey>)
      ensures Members(ks) == set k | k in records && DeletedByName(k, cfg.origin, name)
    {
      var keys := InOrder(records.Keys);
      ks := [];
      for i := 0 to |keys|
        invariant forall k :: k in ks <==> k in keys[..i] && DeletedByName(k, cfg.origin, name)
      {
        assert keys[..i + 1] == keys[..i] + [keys[i]];
        if DeletedByName(keys[i], cfg.origin, name) {
          ks := ks + [keys[i]];
        }
      }
      assert keys[..|keys|] == keys;
    }

    /** One update record. */
    method Apply(r: Record, serial: U32) returns (updated: bool, code: Option<Rcode>)
      requires WellFormed(records) && Insertable(r)
      modifies this`records
      ensures var s := ApplyRecord(old(records), cfg.origin, r, serial);
              records == s.zone && (code.Some? <==> s.Fault?)
              && (s.Fault? ==> code.value == s.code) && (s.Done? ==> updated == s.updated)
      ensures WellFormed(records)
    {
      ApplyKeeps(records, cfg.origin, r, serial);
      var rrKey := KeyOf(r.name, r.rtype);
      updated, code := false, None;
      match r.class_ {
        case IN =>
          updated := Upsert(r, serial);
        case ANYCLASS =>
          if (r.rtype == SOA || r.rtype == NS) && NameEq(r.name, cfg.origin) {
            return;
          } else if r.rtype == ANY {
            updated := DeleteAtName(r.name);
          } else if r.rdata.NullData? {
            updated := rrKey in records;
            records := records - {rrKey};
          } else {
            code := Some(FormErr);
          }
        case NONE =>
          if rrKey in records {
            var rrset := new RecordSet(records[rrKey]);
            updated := rrset.Remove(r, serial);
            records := records[rrKey := rrset.View()];
          }
        case _ =>
          code := Some(FormErr);
      }
    }

    method NsecKeys() returns (ks: seq<RrKey>)
      ensures Members(ks) == set k | k in records && k.rtype == NSEC
    {
      ks := OnlyNsec(InOrder(records.Keys));
    }

    static method OnlyNsec(keys: seq<RrKey>) returns (ks: seq<RrKey>)
      ensures forall k :: k in ks <==> k in keys && k.rtype == NSEC
    {
      ks := [];
      for i := 0 to |keys|
        invariant forall k :: k in ks <==> k in keys[..i] && k.rtype == NSEC
      {
        assert keys[..i + 1] == keys[..i] + [keys[i]];
        if keys[i].rtype == NSEC {
          ks := ks + [keys[i]];
        }
      }
      assert keys[..|keys|] == keys;
    }

    /** nsec_zone: remove the NSEC sets, build the chain over the keys that are left, insert it. */
    method NsecZone()
      requires WellFormed(records)
      modifies this`records
      ensures records == Signing.NsecZone(old(records), cfg.origin, cfg.signers)
      ensures WellFormed(records)
    {
      if cfg.signers == [] {
        return;
      }
      ghost var start := records;
      var nsecKeys := NsecKeys();
      BareZone(records, nsecKeys);
      var _ := RemoveKeys(nsecKeys);
      var ttl := MinimumTtl(records, cfg.origin);
      var serial := Serial(records, cfg.origin);
      var chain := BuildChain(InOrder(records.Keys), cfg.origin, ttl);
      assert chain == ChainFor(start, cfg.origin, ttl);
      ChainInsertable(start, chain, cfg.origin, ttl);
      UpsertEach(chain, serial);
    }

    method UpsertEach(rs: seq<Record>, serial: U32)
      requires WellFormed(records)
      requires forall i :: 0 <= i < |rs| ==> rs[i].class_ == IN && Insertable(rs[i])
      modifies this`records
      ensures records == UpsertAll(old(records), rs, serial)
      ensures WellFormed(records)
    {
      var i := 0;
      assert rs[0..] == rs;
      while i < |rs|
        invariant i <= |rs| && WellFormed(records)
        invariant UpsertAll(old(records), rs, serial) == UpsertAll(records, rs[i..], serial)
      {
        assert rs[i..][0] == rs[i] && rs[i..][1..] == rs[i + 1..];
        var _ := Upsert(rs[i], serial);
        i := i + 1;
      }
    }

    /** sign_zone: every set but the DNSKEY ones, in the order of the keys. */
    method SignZone(inception: U32) returns (ok: bool)
      requires WellFormed(records)
      modifies this`records
      ensures SignedZone(records, ok) == Signing.SignZone(cfg.crypto, old(records), cfg.origin, cfg.signers, inception)
      ensures WellFormed(records)
    {
      SignZoneKeeps(cfg.crypto, records, cfg.origin, cfg.signers, inception);
      ok := SignEach(InOrder(records.Keys), inception, MinimumTtl(records, cfg.origin));
    }

    method SignEach(keys: seq<RrKey>, inception: U32, zoneTtl: U32) returns (ok: bool)
      requires forall k :: k in keys ==> k in records
      modifies this`records
      ensures SignedZone(records, ok) == SignSets(cfg.crypto, old(records), keys, cfg.signers, inception, zoneTtl)
    {
      var i := 0;
      assert keys[0..] == keys;
      while i < |keys|
        invariant i <= |keys| && records.Keys == old(records).Keys
        invariant SignSets(cfg.crypto, old(records), keys, cfg.signers, inception, zoneTtl) ==
                  SignSets(cfg.crypto, records, keys[i..], cfg.signers, inception, zoneTtl)
      {
        var k := keys[i];
        SignSetsNext(cfg.crypto, records, keys, i, cfg.signers, inception, zoneTtl);
        if records[k].rtype != DNSKEY {
          var done := SignRrset(records[k], inception, zoneTtl);
          records := records[k := done.set_];
          if !done.ok {
            return false;
          }
        }
        i := i + 1;
      }
      ok := true;
    }

    /** The loop over the keys for one set. */
    method SignRrset(s: RrSet, inception: U32, zoneTtl: U32) returns (out: SignedSet)
      ensures out == SignBy(cfg.crypto, s.(rrsigs := []), cfg.signers, inception, zoneTtl)
    {
      var set_ := s.(rrsigs := []);
      var signers := cfg.signers;
      var i := 0;
      assert signers[0..] == signers;
      while i < |signers|
        invariant i <= |signers|
        invariant SignBy(cfg.crypto, s.(rrsigs := []), signers, inception, zoneTtl) ==
                  SignBy(cfg.crypto, set_, signers[i..], inception, zoneTtl)
      {
        assert signers[i..][0] == signers[i] && signers[i..][1..] == signers[i + 1..];
        if signers[i].keyTag.None? {
          return SignedSet(set_, false);
        }
        var rrsig := MakeRrsig(cfg.crypto, set_, signers[i], signers[i].keyTag.value, inception, zoneTtl);
        if rrsig.Some? {
          set_ := set_.(rrsigs := set_.rrsigs + [rrsig.value]);
        }
        i := i + 1;
      }
      out := SignedSet(set_, true);
    }

    method SecureZone(inception: U32) returns (ok: bool)
      requires WellFormed(records)
      modifies this`records
      ensures SignedZone(records, ok) ==
              Signing.SecureZone(cfg.crypto, old(records), cfg.origin, cfg.signers, inception)
      ensures WellFormed(records)
    {
      NsecZone();
      var _ := IncrementSoaSerial();
      ok := SignZone(inception);
    }

    method UpdateRecords(rs: seq<Record>, auto: bool, accepted: nat, inception: U32) returns (result: UpdateResult)
      requires WellFormed(records)
      requires forall i :: 0 <= i < |rs| ==> Insertable(rs[i])
      modifies this
      ensures Reply(Now(), result) == UpdateRecordsSpec(cfg, old(Now()), rs, auto, accepted, inception)
      ensures WellFormed(records)
    {
      var serial := Serial(records, cfg.origin);
      if journal.Some? {
        if accepted < |rs| {
          journal := Some(journal.value + rs[..accepted]);
          return Err(ServFail);
        }
        journal := Some(journal.value + rs);
      }
      var applied, code := ApplyEach(rs, serial);
      if code.Some? {
        return Err(code.value);
      }
      if applied && auto {
        if cfg.dnssec {
          var ok := SecureZone(inception);
          if !ok {
            return Err(ServFail);
          }
        } else {
          var _ := IncrementSoaSerial();
        }
      }
      result := Ok(applied);
    }

    /** The loop over the update section. */
    method ApplyEach(rs: seq<Record>, serial: U32) returns (updated: bool, code: Option<Rcode>)
      requires WellFormed(records)
      requires forall i :: 0 <= i < |rs| ==> Insertable(rs[i])
      modifies this`records
      ensures var s := ApplyAll(old(records), cfg.origin, rs, serial);
              records == s.zone && (code.Some? <==> s.Fault?)
              && (s.Fault? ==> code.value == s.code) && (s.Done? ==> updated == s.updated)
      ensures WellFormed(records)
    {
      ghost var start := records;
      updated, code := false, None;
      var i := 0;
      assert rs[0..] == rs;
      while i < |rs|
        invariant i <= |rs| && WellFormed(records)
        invariant ApplyAll(start, cfg.origin, rs, serial) ==
                  Carry(updated, ApplyAll(records, cfg.origin, rs[i..], serial))
      {
        ApplyAllNext(records, cfg.origin, rs, i, serial, updated);
        var one, fault := Apply(rs[i], serial);
        if fault.Some? {
          code := fault;
          return;
        }
        updated := one || updated;
        i := i + 1;
      }
    }

    method Update(m: UpdateMessage, accepted: nat, inception: U32) returns (result: UpdateResult)
      requires WellFormed(records) && WellTypedMessage(m)
      modifies this
      ensures Reply(Now(), result) == UpdateSpec(cfg, old(Now()), m, accepted, inception)
      ensures WellFormed(records)
    {
      if !(cfg.allowUpdate && m.authorized) {
        return Err(Refused);
      }
      var pre := VerifyPrerequisites(records, cfg.origin, m.prerequisites);
      if pre.Fail? {
        return Err(pre.code);
      }
      var scan := PreScan(cfg.origin, m.updates);
      if scan.Fail? {
        return Err(scan.code);
      }
      PreScanMeans(cfg.origin, m.updates);
      result := UpdateRecords(m.updates, true, accepted, inception);
    }

    /** persist_to_journal: the mark of a full dump, then every record of every set. */
    method PersistToJournal()
      modifies this`journal
      ensures journal == if old(journal).Some? then Some(old(journal).value + Dump(records)) else None
    {
      if journal.Some? {
        var log := DumpEach(InOrder(records.Keys), journal.value + [DUMP_MARK]);
        assert log == journal.value + Dump(records);
        journal := Some(log);
      }
    }

    method DumpEach(keys: seq<RrKey>, start: seq<Record>) returns (log: seq<Record>)
      requires forall k :: k in keys ==> k in records
      ensures log == start + RecordsAt(records, keys)
    {
      log := start;
      var i := 0;
      assert keys[0..] == keys;
      while i < |keys|
        invariant i <= |keys|
        invariant start + RecordsAt(records, keys) == log + RecordsAt(records, keys[i..])
      {
        assert keys[i] in keys && keys[i..][0] == keys[i] && keys[i..][1..] == keys[i + 1..];
        log := log + records[keys[i]].records;
        i := i + 1;
      }
      assert log + [] == log;
    }

    /** recover_with_journal: replay every record into the empty zone, clearing it at the mark of a
        full dump; then sign it if it is to be signed. */
    method RecoverWithJournal(log: seq<Record>, inception: U32) returns (ok: bool)
      requires records == map[] && journal == None
      requires forall i :: 0 <= i < |log| ==> log[i].rtype != AXFR ==> Insertable(log[i])
      modifies this
      ensures SignedZone(records, ok) == Recover(cfg, log, inception)
      ensures WellFormed(records)
    {
      var i := 0;
      assert log[0..] == log;
      while i < |log|
        invariant i <= |log| && WellFormed(records) && journal == None
        invariant Replay(map[], cfg.origin, log) == Replay(records, cfg.origin, log[i..])
      {
        assert log[i..][0] == log[i] && log[i..][1..] == log[i + 1..];
        if log[i].rtype == AXFR {
          records := map[];
        } else {
          ApplyOne(records, cfg.origin, log[i], Serial(records, cfg.origin));
          var result := UpdateRecords([log[i]], false, 1, inception);
          if result.Err? {
            return false;
          }
        }
        i := i + 1;
      }
      if cfg.dnssec {
        ok := SignZone(inception);
      } else {
        ok := true;
      }
    }
  }

  /** What marks the dump of a full zone in the journal. */
  const DUMP_MARK: Record := Record([], AXFR, IN, 0, NullData([]))

  function Dump(z: Zone): seq<Record> {
    [DUMP_MARK] + RecordsAt(z, InOrder(z.Keys))
  }

  /** The zone after replaying a journal: each record applied by itself, with the serial as it then
      is; nothing is signed and the serial is not raised. */
  function Replay(z: Zone, origin: Name, log: seq<Record>): Step
    decreases |log|
  {
    if log == [] then Done(z, false)
    else if log[0].rtype == AXFR then Replay(map[], origin, log[1..])
    else
      var s := ApplyRecord(z, origin, log[0], Serial(z, origin));
      if s.Fault? then s else Replay(s.zone, origin, log[1..])
  }

  /** The zone recovered from a journal: replayed, and signed if it is to be; the NSEC chain is not
      built again. */
  function Recover(cfg: Config, log: seq<Record>, inception: U32): SignedZone {
    var s := Replay(map[], cfg.origin, log);
    if s.Fault? || !cfg.dnssec then SignedZone(s.zone, s.Done?)
    else SignZone(cfg.crypto, s.zone, cfg.origin, cfg.signers, inception)
  }

  lemma ApplyOne(z: Zone, origin: Name, r: Record, serial: U32)
    ensures ApplyAll(z, origin, [r], serial) == ApplyRecord(z, origin, r, serial)
  {
    var s := ApplyRecord(z, origin, r, serial);
    assert [r][1..] == [];
  }

  lemma SoaIsSoa(z: Zone, origin: Name)
    requires WellFormed(z) && Recs(z, SoaKey(origin)) != []
    ensures var r := Recs(z, SoaKey(origin))[0]; r.rdata.Soa? && r.rtype == SOA && r.class_ == IN
  {
    assert SetAt(SoaKey(origin), z[SoaKey(origin)]);
  }

  ghost function Members<T>(s: seq<T>): set<T> {
    set x | x in s
  }

  lemma MembersNext<T>(s: seq<T>, i: nat)
    requires i < |s|
    ensures Members(s[..i + 1]) == Members(s[..i]) + {s[i]}
  {
    assert s[..i + 1] == s[..i] + [s[i]];
  }

  lemma DeletedReports(z: Zone, origin: Name, name: Name, ks: seq<RrKey>)
    requires Members(ks) == set k | k in z && DeletedByName(k, origin, name)
    ensures DeleteName(z, origin, name) == z - Members(ks)
    ensures (DeleteName(z, origin, name).Keys != z.Keys) == (ks != [])
  {
    if ks != [] {
      assert ks[0] in Members(ks);
      assert ks[0] in z.Keys && ks[0] !in DeleteName(z, origin, name).Keys;
    } else {
      assert forall k :: k in z && DeletedByName(k, origin, name) ==> k in Members(ks);
      assert DeleteName(z, origin, name).Keys == z.Keys;
    }
  }

  lemma BareZone(z: Zone, nsecKeys: seq<RrKey>)
    requires WellFormed(z) && Members(nsecKeys) == set k | k in z && k.rtype == NSEC
    ensures z - Members(nsecKeys) == WithoutNsec(z) && WellFormed(WithoutNsec(z))
  {
  }

  lemma ChainInsertable(z: Zone, chain: seq<Record>, origin: Name, ttl: U32)
    requires WellFormed(z) && chain == ChainFor(z, origin, ttl)
    ensures forall i :: 0 <= i < |chain| ==> chain[i].class_ == IN && Insertable(chain[i])
  {
    forall i | 0 <= i < |chain| ensures chain[i].class_ == IN && Insertable(chain[i]) {
      ChainAt(Groups(InOrder(DataKeys(z))), origin, ttl, i);
    }
  }

  lemma SignSetsNext(c: Crypto, z: Zone, ks: seq<RrKey>, i: nat, signers: seq<Signer>, inception: U32, zoneTtl: U32)
    requires i < |ks| && forall k :: k in ks ==> k in z
    ensures var out := SignBy(c, z[ks[i]].(rrsigs := []), signers, inception, zoneTtl);
            var z' := z[ks[i] := out.set_];
            SignSets(c, z, ks[i..], signers, inception, zoneTtl) ==
              if z[ks[i]].rtype == DNSKEY then SignSets(c, z, ks[i + 1..], signers, inception, zoneTtl)
              else if !out.ok then SignedZone(z', false)
              else SignSets(c, z', ks[i + 1..], signers, inception, zoneTtl)
  {
    assert ks[i..][0] == ks[i] && ks[i..][1..] == ks[i + 1..];
  }

  /** One update request: the message, how many records the journal takes, and the time. */
  datatype Event = Event(message: UpdateMessage, accepted: nat, inception: U32)

  function Handle(cfg: Config, st: State, e: Event): Reply {
    UpdateSpec(cfg, st, e.message, e.accepted, e.inception)
  }

  /** A run of update requests, one after the other. */
  function RunUpdates(cfg: Config, st: State, es: seq<Event>): State
    decreases |es|
  {
    if es == [] then st else RunUpdates(cfg, Handle(cfg, st, es[0]).state, es[1..])
  }

  ghost predicate WellTypedMessage(m: UpdateMessage) {
    forall i :: 0 <= i < |m.updates| ==> m.updates[i].class_ == IN ==> WellTyped(m.updates[i])
  }

  /** The zone after its update section is applied, before the serial is raised. */
  function Applied(cfg: Config, z: Zone, us: seq<Record>): Step {
    ApplyAll(z, cfg.origin, us, Serial(z, cfg.origin))
  }

  /** An update that gets as far as applying its section. */
  ghost predicate Reaches(cfg: Config, st: State, e: Event) {
    && cfg.allowUpdate && e.message.authorized
    && VerifyPrerequisites(st.zone, cfg.origin, e.message.prerequisites) == Pass
    && PreScan(cfg.origin, e.message.updates) == Pass
    && (st.journal.Some? ==> e.accepted >= |e.message.updates|)
  }

  lemma ReachedIsSettled(cfg: Config, st: State, e: Event)
    ensures Reaches(cfg, st, e) ==>
              var journal := if st.journal.Some? then Some(st.journal.value + e.message.updates) else None;
              Handle(cfg, st, e) == Settle(cfg, Applied(cfg, st.zone, e.message.updates), true, journal, e.inception)
    ensures !Reaches(cfg, st, e) ==> Handle(cfg, st, e).state.zone == st.zone && Handle(cfg, st, e).result.Err?
  {
  }

  lemma SectionApplies(cfg: Config, z: Zone, us: seq<Record>)
    requires WellFormed(z) && PreScan(cfg.origin, us) == Pass
    requires forall i :: 0 <= i < |us| ==> us[i].class_ == IN ==> WellTyped(us[i])
    ensures AllAdmissible(cfg.origin, us) && Applied(cfg, z, us).Done?
    ensures !Applied(cfg, z, us).updated ==> Applied(cfg, z, us).zone == z
  {
    PreScanMeans(cfg.origin, us);
    ApplyAllKeeps(z, cfg.origin, us, Serial(z, cfg.origin));
  }

  /** An update either leaves the zone as it was and reports no change, or, its section scanned and
      applied to the end, finishes the zone and reports one. */
  lemma UpdateOutcome(cfg: Config, st: State, e: Event)
    requires WellFormed(st.zone) && WellTypedMessage(e.message)
    ensures var reply := Handle(cfg, st, e);
            var us := e.message.updates;
            || (reply.state.zone == st.zone && reply.result != Ok(true))
            || (&& AllAdmissible(cfg.origin, us) && Applied(cfg, st.zone, us).Done? && Applied(cfg, st.zone, us).updated
                && reply.state.zone == Finish(cfg, Applied(cfg, st.zone, us).zone, e.inception).zone
                && reply.result == if Finish(cfg, Applied(cfg, st.zone, us).zone, e.inception).ok
                                   then Ok(true) else Err(ServFail))
  {
    ReachedIsSettled(cfg, st, e);
    if Reaches(cfg, st, e) {
      SectionApplies(cfg, st.zone, e.message.updates);
    }
  }

  /** Update is all or nothing: any error but ServFail leaves the zone and the journal exactly as
      they were, and a scanned message never stops part way with a format error. */
  lemma UpdateAllOrNothing(cfg: Config, st: State, m: UpdateMessage, accepted: nat, inception: U32)
    requires WellFormed(st.zone) && WellTypedMessage(m)
    ensures var reply := UpdateSpec(cfg, st, m, accepted, inception);
            && (reply.result.Err? && reply.result.code != ServFail ==> reply.state == st)
            && (reply.result == Ok(false) ==> reply.state.zone == st.zone)
            && (st.journal == None && !cfg.dnssec ==> reply.result != Err(ServFail))
  {
    PreScanMeans(cfg.origin, m.updates);
    if PreScan(cfg.origin, m.updates) == Pass {
      ApplyAllKeeps(st.zone, cfg.origin, m.updates, Serial(st.zone, cfg.origin));
    }
    NeverServFail(st.zone, cfg.origin, m.prerequisites);
  }

  /** The code of an update that does not get through: Refused when it is not allowed, else the code of
      its prerequisites, else that of its prescan; and then nothing changes. */
  lemma UpdateCodes(cfg: Config, st: State, e: Event)
    ensures !(cfg.allowUpdate && e.message.authorized) ==> Handle(cfg, st, e) == Reply(st, Err(Refused))
    ensures cfg.allowUpdate && e.message.authorized ==>
              match VerifyPrerequisites(st.zone, cfg.origin, e.message.prerequisites)
              case Fail(c) => Handle(cfg, st, e) == Reply(st, Err(c))
              case Pass =>
                PreScan(cfg.origin, e.message.updates).Fail? ==>
                  Handle(cfg, st, e) == Reply(st, Err(PreScan(cfg.origin, e.message.updates).code))
  {
  }

  /** An append that fails: the records before the failure are in the journal, the zone is as it was, and
      the answer is ServFail. */
  lemma FailedAppend(cfg: Config, st: State, e: Event)
    requires st.journal.Some? && e.accepted < |e.message.updates| && cfg.allowUpdate && e.message.authorized
    requires VerifyPrerequisites(st.zone, cfg.origin, e.message.prerequisites) == Pass
    requires PreScan(cfg.origin, e.message.updates) == Pass
    ensures Handle(cfg, st, e).result == Err(ServFail) && Handle(cfg, st, e).state.zone == st.zone
    ensures exists rest :: Handle(cfg, st, e).state.journal.Some? && |rest| == |e.message.updates| - e.accepted
              && Handle(cfg, st, e).state.journal.value + rest == st.journal.value + e.message.updates
  {
    var us := e.message.updates;
    assert st.journal.value + us[..e.accepted] + us[e.accepted..] == st.journal.value + us;
  }

  /** Replaying one record is update_records of that record without a journal and without raising the
      serial, as recovery calls it. */
  lemma ReplayIsQuiet(cfg: Config, z: Zone, r: Record, accepted: nat, inception: U32)
    requires r.rtype != AXFR
    ensures var reply := UpdateRecordsSpec(cfg, State(z, None), [r], false, accepted, inception);
            && reply.state == State(Replay(z, cfg.origin, [r]).zone, None)
            && (reply.result.Ok? <==> Replay(z, cfg.origin, [r]).Done?)
  {
    ApplyOne(z, cfg.origin, r, Serial(z, cfg.origin));
    assert [r][1..] == [];
  }

  lemma {:induction false} NeverServFail(z: Zone, origin: Name, pre: seq<Record>)
    ensures VerifyPrerequisites(z, origin, pre) != Fail(ServFail)
  {
    if pre != [] { NeverServFail(z, origin, pre[1..]); }
  }
}
