/** The SOA of a recovered zone (recover_with_journal, server/src/authority/authority.rs) against that of
    the live one, whose serial the server raises by itself. */
module SoaRecovery {
  import opened Basics
  import opened Names
  import opened Records
  import opened RrSets
  import opened Zones
  import opened PerKey
  import opened Signing
  import opened Authority
  import opened Apex
  import opened Journal
  import opened Recovery

  /** A section that adds no SOA at the origin changes two SOA lists alike. */
  lemma {:induction false} SectionSoaAlike(origin: Name, us: seq<Record>, rec: seq<Record>, live: seq<Record>)
    requires SameButSerial(rec, live) && forall i :: 0 <= i < |us| ==> !AddsSoa(origin, us[i])
    ensures SameButSerial(Effects(origin, us, SoaKey(origin), rec), Effects(origin, us, SoaKey(origin), live))
    decreases |us|
  {
    if us != [] {
      var k := SoaKey(origin);
      SectionSoaAlike(origin, us[1..], Effect(origin, us[0], k, rec), Effect(origin, us[0], k, live));
    }
  }

  /** What a section leaves of an SOA, when the newest that it adds is known. */
  lemma SectionNewest(origin: Name, us: seq<Record>, soa: Record, newest: Record)
    requires forall i :: 0 <= i < |us| ==> Insertable(us[i]) && !DeletesApex(origin, us[i])
    requires soa.rdata.Soa? && AllSoas(AddedSoas(origin, us)) && IsNewest(AddedSoas(origin, us), newest)
    ensures Effects(origin, us, SoaKey(origin), [soa]) == [Newer(soa, newest)]
  {
    NewestStands(origin, us, soa);
    NewestOf(soa, AddedSoas(origin, us), newest);
    NewestUnique([soa] + AddedSoas(origin, us), Effects(origin, us, SoaKey(origin), [soa])[0], Newer(soa, newest));
  }

  lemma {:induction false} NoneAdded(origin: Name, us: seq<Record>)
    requires AddedSoas(origin, us) == []
    ensures forall i :: 0 <= i < |us| ==> !AddsSoa(origin, us[i])
  {
    if us != [] {
      NoneAdded(origin, us[1..]);
      assert us == [us[0]] + us[1..];
    }
  }

  /** The newest SOA that a section adds is not newer than one serial but newer than another, lower
      one, with other data than a given SOA. */
  ghost predicate Parts(origin: Name, us: seq<Record>, lower: U32, upper: U32, soa: Record)
    requires soa.rdata.Soa? && AllSoas(AddedSoas(origin, us))
  {
    exists r :: IsNewest(AddedSoas(origin, us), r) && lower < r.rdata.soa.serial <= upper
                && SansSerial(r) != SansSerial(soa)
  }

  /** A section that does not delete the apex: two SOAs that differ in their serials alone still do
      afterwards exactly when the newest SOA added does not fall between those serials with other
      data. */
  lemma SectionSoaExactly(origin: Name, us: seq<Record>, rec: Record, live: Record)
    requires forall i :: 0 <= i < |us| ==> Insertable(us[i]) && !DeletesApex(origin, us[i])
    requires SameButSerial([rec], [live]) && SerialOf([rec]) <= SerialOf([live])
    ensures AllSoas(AddedSoas(origin, us))
    ensures SameButSerial(Effects(origin, us, SoaKey(origin), [rec]), Effects(origin, us, SoaKey(origin), [live])) <==>
            !Parts(origin, us, SerialOf([rec]), SerialOf([live]), live)
  {
    AddedAreSoas(origin, us);
    assert [rec][0].rdata.Soa? && [live][0].rdata.Soa?;
    if AddedSoas(origin, us) == [] {
      NoneAdded(origin, us);
      SectionSoaAlike(origin, us, [rec], [live]);
    } else {
      var newest := SomeNewest(AddedSoas(origin, us));
      SectionNewest(origin, us, rec, newest);
      SectionNewest(origin, us, live, newest);
      forall r | IsNewest(AddedSoas(origin, us), r) ensures r == newest {
        NewestUnique(AddedSoas(origin, us), r, newest);
      }
      assert SameButSerial([Newer(rec, newest)], [Newer(live, newest)]) <==>
             SansSerial(Newer(rec, newest)) == SansSerial(Newer(live, newest));
    }
  }

  /** The zone that the journal holds. */
  ghost function Replayed(cfg: Config, st: State): Zone
    requires st.journal.Some?
  {
    Replay(map[], cfg.origin, st.journal.value).zone
  }

  /** In step, and with the same SOA but for its serial. */
  ghost predicate SoaInStep(cfg: Config, st: State) {
    && InStep(cfg, st)
    && SameButSerial(Recs(Replayed(cfg, st), SoaKey(cfg.origin)), Recs(st.zone, SoaKey(cfg.origin)))
  }

  /** The SOAs on both sides of an update that goes through: in the journal the section's effects, in
      the live zone the same but for the serial. */
  lemma UpdateSoas(cfg: Config, st: State, e: Event)
    requires InStep(cfg, st) && Logged(e) && Applies(cfg, st, e.message)
    ensures var us, k, st' := e.message.updates, SoaKey(cfg.origin), Handle(cfg, st, e).state;
            && st'.journal.Some?
            && Recs(Replayed(cfg, st'), k) == Effects(cfg.origin, us, k, Recs(Replayed(cfg, st), k))
            && SameButSerial(Effects(cfg.origin, us, k, Recs(st.zone, k)), Recs(st'.zone, k))
  {
    var us, k := e.message.updates, SoaKey(cfg.origin);
    PreScanMeans(cfg.origin, us);
    HandleLogs(cfg, st, e);
    ReplaySplit(map[], cfg.origin, st.journal.value, us);
    ReplayEffects(Replayed(cfg, st), cfg.origin, us);
    LiveSoa(cfg, st, e);
  }

  lemma LiveSoa(cfg: Config, st: State, e: Event)
    requires InStep(cfg, st) && Logged(e) && Applies(cfg, st, e.message)
    ensures var us, k := e.message.updates, SoaKey(cfg.origin);
            SameButSerial(Effects(cfg.origin, us, k, Recs(st.zone, k)), Recs(Handle(cfg, st, e).state.zone, k))
  {
    var us, k, serial := e.message.updates, SoaKey(cfg.origin), Serial(st.zone, cfg.origin);
    PreScanMeans(cfg.origin, us);
    ApplyAllKeeps(st.zone, cfg.origin, us, serial);
    ApplyAllEffects(st.zone, cfg.origin, us, serial, k);
    var z := ApplyAll(st.zone, cfg.origin, us, serial).zone;
    SoaItself(z, cfg.origin);
    FinishRecords(cfg, z, e.inception, k);
    IncrementKeeps(z, cfg.origin);
  }

  lemma SoaItself(z: Zone, origin: Name)
    requires WellFormed(z)
    ensures SameButSerial(Recs(z, SoaKey(origin)), Recs(z, SoaKey(origin)))
  {
    if SoaKey(origin) in z { assert SetAt(SoaKey(origin), z[SoaKey(origin)]); }
  }

  /** An update that goes through and does not delete the apex keeps the SOA of the journal like the
      live one exactly when it does not part them. */
  lemma UpdateSoaExactly(cfg: Config, st: State, e: Event, rec: Record, live: Record)
    requires SoaInStep(cfg, st) && Logged(e) && Applies(cfg, st, e.message)
    requires Recs(Replayed(cfg, st), SoaKey(cfg.origin)) == [rec] && Recs(st.zone, SoaKey(cfg.origin)) == [live]
    requires forall i :: 0 <= i < |e.message.updates| ==> !DeletesApex(cfg.origin, e.message.updates[i])
    ensures [live][0].rdata.Soa? && AllSoas(AddedSoas(cfg.origin, e.message.updates))
    ensures SoaInStep(cfg, Handle(cfg, st, e).state) <==>
            !Parts(cfg.origin, e.message.updates, SerialOf([rec]), SerialOf([live]), live)
  {
    var us, k, st' := e.message.updates, SoaKey(cfg.origin), Handle(cfg, st, e).state;
    UpdateInStep(cfg, st, e);
    UpdateSoas(cfg, st, e);
    PreScanMeans(cfg.origin, us);
    SectionSoaExactly(cfg.origin, us, rec, live);
    var r', l' := Effects(cfg.origin, us, k, [rec]), Effects(cfg.origin, us, k, [live]);
    SameButSerialEither(r', l', Recs(st'.zone, k));
  }

  lemma SameButSerialEither(a: seq<Record>, b: seq<Record>, c: seq<Record>)
    requires SameButSerial(b, c)
    ensures SameButSerial(a, b) <==> SameButSerial(a, c)
  {
  }

  lemma UpdateSoaAlike(cfg: Config, st: State, e: Event)
    requires SoaInStep(cfg, st) && Logged(e)
    requires forall i :: 0 <= i < |e.message.updates| ==> !AddsSoa(cfg.origin, e.message.updates[i])
    ensures SoaInStep(cfg, Handle(cfg, st, e).state)
  {
    var us, k, st' := e.message.updates, SoaKey(cfg.origin), Handle(cfg, st, e).state;
    UpdateInStep(cfg, st, e);
    if Applies(cfg, st, e.message) {
      UpdateSoas(cfg, st, e);
      SectionSoaAlike(cfg.origin, us, Recs(Replayed(cfg, st), k), Recs(st.zone, k));
      var r' := Effects(cfg.origin, us, k, Recs(Replayed(cfg, st), k));
      var l' := Effects(cfg.origin, us, k, Recs(st.zone, k));
      SameButSerialEither(r', l', Recs(st'.zone, k));
    }
  }

  lemma {:induction false} RunSoaAlike(cfg: Config, st: State, es: seq<Event>)
    requires SoaInStep(cfg, st)
    requires forall i :: 0 <= i < |es| ==> Logged(es[i]) && AddsNoSoa(cfg.origin, es[i].message)
    ensures SoaInStep(cfg, RunUpdates(cfg, st, es))
    decreases |es|
  {
    if es != [] {
      UpdateSoaAlike(cfg, st, es[0]);
      RunSoaAlike(cfg, Handle(cfg, st, es[0]).state, es[1..]);
    }
  }

  ghost predicate AddsNoSoa(origin: Name, m: UpdateMessage) {
    forall i :: 0 <= i < |m.updates| ==> !AddsSoa(origin, m.updates[i])
  }

  lemma PersistedSoa(cfg: Config, z: Zone, before: seq<Record>)
    requires WellFormed(z) && Replay(map[], cfg.origin, before).Done?
    ensures SoaInStep(cfg, State(z, Some(before + Dump(z))))
  {
    PersistThenRecover(z, cfg.origin, before);
    SoaHead(z, cfg.origin);
    SoaHead(Replay(map[], cfg.origin, before + Dump(z)).zone, cfg.origin);
    SoaItself(z, cfg.origin);
  }

  /** Persist, run any updates that add no SOA at the origin, recover: the recovered SOA differs from
      the live one in its serial alone. */
  lemma RecoveredSoa(cfg: Config, z: Zone, before: seq<Record>, es: seq<Event>, inception: U32)
    requires WellFormed(z) && Replay(map[], cfg.origin, before).Done?
    requires forall i :: 0 <= i < |es| ==> Logged(es[i]) && AddsNoSoa(cfg.origin, es[i].message)
    ensures var live := RunUpdates(cfg, State(z, Some(before + Dump(z))), es);
            && live.journal.Some?
            && SameButSerial(Recs(Recover(cfg, live.journal.value, inception).zone, SoaKey(cfg.origin)),
                             Recs(live.zone, SoaKey(cfg.origin)))
  {
    PersistedSoa(cfg, z, before);
    RunSoaAlike(cfg, State(z, Some(before + Dump(z))), es);
    var live := RunUpdates(cfg, State(z, Some(before + Dump(z))), es);
    if cfg.dnssec {
      SignZoneKeeps(cfg.crypto, Replayed(cfg, live), cfg.origin, cfg.signers, inception);
    }
  }

  // ----- Where they part -----

  lemma OnlyAdded(origin: Name, r: Record, us: seq<Record>)
    requires us == [r] && AddsSoa(origin, r) && r.rdata.Soa?
    ensures AddedSoas(origin, us) == [r] && AllSoas([r]) && IsNewest([r], r)
  {
    assert us[1..] == [];
    assert NewestAt([r], 0);
  }

  /** While the live serial is ahead, an SOA sent with that serial and other data is taken by the journal
      and refused by the live zone. */
  lemma SoaParts(cfg: Config, st: State, e: Event, r: Record, rec: Record, live: Record)
    requires SoaInStep(cfg, st) && Logged(e) && Adds(e, r) && cfg.allowUpdate
    requires Admissible(cfg.origin, r) && AddsSoa(cfg.origin, r)
    requires Recs(Replayed(cfg, st), SoaKey(cfg.origin)) == [rec] && Recs(st.zone, SoaKey(cfg.origin)) == [live]
    requires live.rdata.Soa? && SerialOf([rec]) < SerialOf([live]) == r.rdata.soa.serial
    requires SansSerial(r) != SansSerial(live)
    ensures !SoaInStep(cfg, Handle(cfg, st, e).state)
  {
    var us := e.message.updates;
    PreScanMeans(cfg.origin, us);
    OnlyAdded(cfg.origin, r, us);
    UpdateSoaExactly(cfg, st, e, rec, live);
    assert IsNewest(AddedSoas(cfg.origin, us), r);
  }

  /** It is ahead after any update that reports a change and leaves the SOA alone. */
  lemma LiveSerialAhead(cfg: Config, z: Zone, e: Event)
    requires HasApex(z, cfg.origin) && Serial(z, cfg.origin) < 0xFFFF_FFFF
    requires Logged(e) && LeavesSoa(cfg.origin, e.message)
    requires Handle(cfg, State(z, Some([] + Dump(z))), e).result == Ok(true)
    ensures var st := Handle(cfg, State(z, Some([] + Dump(z))), e).state;
            && SoaInStep(cfg, st) && HasApex(st.zone, cfg.origin)
            && Recs(Replayed(cfg, st), SoaKey(cfg.origin)) == Recs(z, SoaKey(cfg.origin))
            && Serial(st.zone, cfg.origin) > Serial(z, cfg.origin)
  {
    var st0 := State(z, Some([] + Dump(z)));
    PersistedSoa(cfg, z, []);
    PersistThenRecover(z, cfg.origin, []);
    UpdateSoaAlike(cfg, st0, e);
    UpdateKeepsApex(cfg, st0, e);
    UpdateSoas(cfg, st0, e);
    SectionLeavesSoa(cfg.origin, e.message.updates, Recs(z, SoaKey(cfg.origin)));
  }
}
