/** The journal rebuilds the zone (persist_to_journal, update_records and recover_with_journal of
    server/src/authority/authority.rs). */
module Journal {
  import opened Basics
  import opened Names
  import opened Records
  import opened RrSets
  import opened Zones
  import opened PerKey
  import opened Authority
  import opened Signing
  import opened Nsec

  lemma {:induction false} ReplaySplit(z: Zone, origin: Name, a: seq<Record>, b: seq<Record>)
    requires Replay(z, origin, a).Done?
    ensures Replay(z, origin, a + b) == Replay(Replay(z, origin, a).zone, origin, b)
    decreases |a|
  {
    if a == [] {
      assert a + b == b;
    } else {
      assert (a + b)[0] == a[0] && (a + b)[1..] == a[1..] + b;
      if a[0].rtype == AXFR {
        ReplaySplit(map[], origin, a[1..], b);
      } else {
        ReplaySplit(ApplyRecord(z, origin, a[0], Serial(z, origin)).zone, origin, a[1..], b);
      }
    }
  }

  /** Replaying update records changes the records under each key by their effects there, as
      applying them to the live zone did. */
  lemma {:induction false} ReplayEffects(z: Zone, origin: Name, us: seq<Record>)
    requires WellFormed(z)
    requires forall i :: 0 <= i < |us| ==> us[i].rtype != AXFR && Insertable(us[i])
                                           && (us[i].class_ == IN || Admissible(origin, us[i]))
    ensures Replay(z, origin, us).Done? && WellFormed(Replay(z, origin, us).zone)
    ensures forall k :: Recs(Replay(z, origin, us).zone, k) == Effects(origin, us, k, Recs(z, k))
    decreases |us|
  {
    if us != [] {
      var serial := Serial(z, origin);
      ApplyKeeps(z, origin, us[0], serial);
      var z' := ApplyRecord(z, origin, us[0], serial).zone;
      assert forall i :: 0 <= i < |us[1..]| ==> us[1..][i] == us[i + 1];
      ReplayEffects(z', origin, us[1..]);
      forall k ensures Recs(Replay(z, origin, us).zone, k) == Effects(origin, us, k, Recs(z, k)) {
        ApplyEffect(z, origin, us[0], serial, k);
      }
    }
  }

  // ----- A dump, replayed -----

  lemma SetEffects(s: RrSet, origin: Name, k0: RrKey, k: RrKey, rs: seq<Record>)
    requires SetAt(k0, s) && (k == k0 ==> rs == [])
    ensures Effects(origin, s.records, k, rs) == if k == k0 then s.records else rs
  {
    assert forall i :: 0 <= i < |s.records| ==> RecordKey(s.records[i]) == k0;
    if k == k0 {
      assert [] + s.records == s.records;
      EffectsAppend(origin, s.records, k, []);
    } else {
      EffectsElsewhere(origin, s.records, k, rs);
    }
  }

  lemma {:induction false} DumpEffects(z: Zone, origin: Name, ks: seq<RrKey>, k: RrKey, rs: seq<Record>)
    requires WellFormed(z) && (forall x :: x in ks ==> x in z) && Ascending(ks)
    requires k in ks ==> rs == []
    ensures Effects(origin, RecordsAt(z, ks), k, rs) == if k in ks then Recs(z, k) else rs
    decreases |ks|
  {
    if ks != [] {
      var k0 := ks[0];
      assert k0 in ks;
      AscendingTail(ks);
      KeyOrder(k0, k0, k0);
      EffectsSplit(origin, z[k0].records, RecordsAt(z, ks[1..]), k, rs);
      SetEffects(z[k0], origin, k0, k, rs);
      assert k in ks <==> k == k0 || k in ks[1..];
      DumpEffects(z, origin, ks[1..], k, if k == k0 then z[k0].records else rs);
    }
  }

  lemma {:induction false} DumpRecords(z: Zone, ks: seq<RrKey>)
    requires WellFormed(z) && forall x :: x in ks ==> x in z
    ensures forall i :: 0 <= i < |RecordsAt(z, ks)| ==>
              var r := RecordsAt(z, ks)[i]; r.rtype != AXFR && r.class_ == IN && Insertable(r)
  {
    if ks != [] {
      assert ks[0] in ks && SetAt(ks[0], z[ks[0]]);
      DumpRecords(z, ks[1..]);
    }
  }

  /** Persisting a zone and recovering it at once gives back the same records under every key,
      whatever the journal held before. */
  lemma PersistThenRecover(z: Zone, origin: Name, before: seq<Record>)
    requires WellFormed(z) && Replay(map[], origin, before).Done?
    ensures Replay(map[], origin, before + Dump(z)).Done?
    ensures WellFormed(Replay(map[], origin, before + Dump(z)).zone)
    ensures forall k :: Recs(Replay(map[], origin, before + Dump(z)).zone, k) == Recs(z, k)
  {
    var ks := InOrder(z.Keys);
    var flat := RecordsAt(z, ks);
    ReplaySplit(map[], origin, before, Dump(z));
    assert Dump(z)[1..] == flat;
    DumpRecords(z, ks);
    ReplayEffects(map[], origin, flat);
    forall k ensures Recs(Replay(map[], origin, flat).zone, k) == Recs(z, k) {
      DumpEffects(z, origin, ks, k, []);
    }
  }

  // ----- The live zone and its journal over a run of updates -----

  /** The keys whose records the server makes itself: the apex SOA's, and in a signed zone the NSEC
      ones. */
  predicate OwnKey(k: RrKey, origin: Name, signed: bool) {
    k == SoaKey(origin) || (signed && k.rtype == NSEC)
  }

  /** The recovered zone against the live one: the same records under every key but the server's own;
      an SOA in both or in neither; and a serial that is not ahead. */
  ghost predicate Follows(recovered: Zone, live: Zone, origin: Name, signed: bool) {
    && WellFormed(recovered) && WellFormed(live)
    && (forall k :: !OwnKey(k, origin, signed) ==> Recs(recovered, k) == Recs(live, k))
    && (Recs(recovered, SoaKey(origin)) == [] <==> Recs(live, SoaKey(origin)) == [])
    && Serial(recovered, origin) <= Serial(live, origin)
  }

  /** On the SOA's own key an update record keeps two lists in step: both empty or neither, and the
      first serial not ahead of the second. */
  lemma SoaEffect(origin: Name, r: Record, rec: seq<Record>, live: seq<Record>)
    requires Insertable(r)
    requires (rec == [] <==> live == []) && SerialOf(rec) <= SerialOf(live)
    requires (rec != [] ==> rec[0].rdata.Soa?) && (live != [] ==> live[0].rdata.Soa?)
    ensures var k := SoaKey(origin);
            var rec', live' := Effect(origin, r, k, rec), Effect(origin, r, k, live);
            && (rec' == [] <==> live' == []) && SerialOf(rec') <= SerialOf(live')
            && (rec' != [] ==> rec'[0].rdata.Soa?) && (live' != [] ==> live'[0].rdata.Soa?)
  {
  }

  lemma {:induction false} SoaEffects(origin: Name, us: seq<Record>, rec: seq<Record>, live: seq<Record>)
    requires forall i :: 0 <= i < |us| ==> Insertable(us[i])
    requires (rec == [] <==> live == []) && SerialOf(rec) <= SerialOf(live)
    requires (rec != [] ==> rec[0].rdata.Soa?) && (live != [] ==> live[0].rdata.Soa?)
    ensures var k := SoaKey(origin);
            var rec', live' := Effects(origin, us, k, rec), Effects(origin, us, k, live);
            (rec' == [] <==> live' == []) && SerialOf(rec') <= SerialOf(live')
    decreases |us|
  {
    if us != [] {
      SoaEffect(origin, us[0], rec, live);
      var k := SoaKey(origin);
      SoaEffects(origin, us[1..], Effect(origin, us[0], k, rec), Effect(origin, us[0], k, live));
    }
  }

  lemma SoaHead(z: Zone, origin: Name)
    requires WellFormed(z)
    ensures Serial(z, origin) == SerialOf(Recs(z, SoaKey(origin)))
    ensures Recs(z, SoaKey(origin)) != [] ==> Recs(z, SoaKey(origin))[0].rdata.Soa?
  {
    if SoaKey(origin) in z { assert SetAt(SoaKey(origin), z[SoaKey(origin)]); }
  }

  /** Applying an update section to the live zone and replaying it on the recovered one keeps the
      recovered zone in step. */
  lemma SectionFollows(recovered: Zone, live: Zone, origin: Name, signed: bool, us: seq<Record>)
    requires Follows(recovered, live, origin, signed) && AllAdmissible(origin, us)
    ensures Replay(recovered, origin, us).Done?
    ensures Follows(Replay(recovered, origin, us).zone,
                    ApplyAll(live, origin, us, Serial(live, origin)).zone, origin, signed)
  {
    ReplayEffects(recovered, origin, us);
    var serial := Serial(live, origin);
    ApplyAllKeeps(live, origin, us, serial);
    var r', l' := Replay(recovered, origin, us).zone, ApplyAll(live, origin, us, serial).zone;
    forall k ensures Recs(l', k) == Effects(origin, us, k, Recs(live, k)) {
      ApplyAllEffects(live, origin, us, serial, k);
    }
    var soa := SoaKey(origin);
    SoaHead(recovered, origin);
    SoaHead(live, origin);
    SoaEffects(origin, us, Recs(recovered, soa), Recs(live, soa));
    SoaHead(r', origin);
    SoaHead(l', origin);
  }

  lemma IncrementFollows(recovered: Zone, live: Zone, origin: Name, signed: bool)
    requires Follows(recovered, live, origin, signed)
    ensures Follows(recovered, IncrementSoa(live, origin), origin, signed)
  {
    IncrementKeeps(live, origin);
    SoaHead(recovered, origin);
  }

  /** Finishing an update, signed or not and whether or not signing succeeds, keeps the recovered zone
      in step. */
  lemma FinishFollows(cfg: Config, recovered: Zone, live: Zone, inception: U32)
    requires Follows(recovered, live, cfg.origin, cfg.dnssec)
    ensures Follows(recovered, Finish(cfg, live, inception).zone, cfg.origin, cfg.dnssec)
  {
    var bumped, out := IncrementSoa(live, cfg.origin), Finish(cfg, live, inception).zone;
    IncrementFollows(recovered, live, cfg.origin, cfg.dnssec);
    if cfg.dnssec {
      SecureZoneWellFormed(cfg.crypto, live, cfg.origin, cfg.signers, inception);
      forall k: RrKey | k.rtype != NSEC ensures Recs(out, k) == Recs(bumped, k) {
        SecureZoneRecords(cfg.crypto, live, cfg.origin, cfg.signers, inception, k);
      }
    }
  }

  ghost predicate InStep(cfg: Config, st: State) {
    && st.journal.Some?
    && Replay(map[], cfg.origin, st.journal.value).Done?
    && Follows(Replay(map[], cfg.origin, st.journal.value).zone, st.zone, cfg.origin, cfg.dnssec)
  }

  /** An update request whose append to the journal succeeds. */
  ghost predicate Logged(e: Event) {
    e.accepted >= |e.message.updates| && WellTypedMessage(e.message)
  }

  lemma UpdateInStep(cfg: Config, st: State, e: Event)
    requires InStep(cfg, st) && Logged(e)
    ensures InStep(cfg, Handle(cfg, st, e).state)
  {
    var origin, m := cfg.origin, e.message;
    PreScanMeans(origin, m.updates);
    if cfg.allowUpdate && m.authorized && VerifyPrerequisites(st.zone, origin, m.prerequisites) == Pass
       && PreScan(origin, m.updates) == Pass {
      var rec := Replay(map[], origin, st.journal.value).zone;
      ReplaySplit(map[], origin, st.journal.value, m.updates);
      SectionFollows(rec, st.zone, origin, cfg.dnssec, m.updates);
      var serial := Serial(st.zone, origin);
      ApplyAllKeeps(st.zone, origin, m.updates, serial);
      var live := ApplyAll(st.zone, origin, m.updates, serial).zone;
      FinishFollows(cfg, Replay(rec, origin, m.updates).zone, live, e.inception);
    }
  }

  lemma {:induction false} RunInStep(cfg: Config, st: State, es: seq<Event>)
    requires InStep(cfg, st) && forall i :: 0 <= i < |es| ==> Logged(es[i])
    ensures InStep(cfg, RunUpdates(cfg, st, es))
    decreases |es|
  {
    if es != [] {
      UpdateInStep(cfg, st, es[0]);
      RunInStep(cfg, Handle(cfg, st, es[0]).state, es[1..]);
    }
  }

  /** Replay refines the live zone: persist a zone to any journal that replays, run any updates, and
      replaying succeeds with the live records under every key but the server's own (the SOA's, and
      the NSEC ones of a signed zone), with an SOA exactly when the live zone has one, and with a
      serial not ahead of the live one. */
  lemma ReplayRefinesLive(cfg: Config, z: Zone, before: seq<Record>, es: seq<Event>)
    requires WellFormed(z) && Replay(map[], cfg.origin, before).Done?
    requires forall i :: 0 <= i < |es| ==> Logged(es[i])
    ensures var live := RunUpdates(cfg, State(z, Some(before + Dump(z))), es);
            && live.journal.Some?
            && var recovered := Replay(map[], cfg.origin, live.journal.value);
               recovered.Done? && Follows(recovered.zone, live.zone, cfg.origin, cfg.dnssec)
  {
    PersistThenRecover(z, cfg.origin, before);
    SoaHead(z, cfg.origin);
    SoaHead(Replay(map[], cfg.origin, before + Dump(z)).zone, cfg.origin);
    RunInStep(cfg, State(z, Some(before + Dump(z))), es);
  }

  /** Signing a recovered zone, as recovery of a signed zone ends, changes no record. */
  lemma SigningKeepsStep(cfg: Config, recovered: Zone, live: Zone, inception: U32)
    requires Follows(recovered, live, cfg.origin, cfg.dnssec)
    ensures Follows(SignZone(cfg.crypto, recovered, cfg.origin, cfg.signers, inception).zone,
                    live, cfg.origin, cfg.dnssec)
  {
    SignZoneKeeps(cfg.crypto, recovered, cfg.origin, cfg.signers, inception);
  }
}
