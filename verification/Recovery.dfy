/** Recovery of a zone from its journal (recover_with_journal, server/src/authority/authority.rs): what
    of the live zone it gives back, and what becomes of the NSEC chain, which it does not rebuild. */
module Recovery {
  import opened Basics
  import opened Names
  import opened Records
  import opened RrSets
  import opened Zones
  import opened PerKey
  import opened Nsec
  import opened Signing
  import opened Signatures
  import opened Authority
  import opened Freshness
  import opened Journal
  import opened Denial

  // ----- Recovery against the live zone -----

  /** Recovery succeeds exactly when the journal replays and, in a signed zone, every key has a tag or
      there is nothing but DNSKEY sets. */
  lemma RecoversExactly(cfg: Config, log: seq<Record>, inception: U32)
    ensures var s := Replay(map[], cfg.origin, log);
            Recover(cfg, log, inception).ok <==>
            s.Done? && (cfg.dnssec ==> Tagged(cfg.signers) || forall k :: k in s.zone ==> s.zone[k].rtype == DNSKEY)
  {
    var s := Replay(map[], cfg.origin, log);
    SignsExactly(cfg.crypto, s.zone, cfg.origin, cfg.signers, inception);
  }

  /** Persist a zone to any journal that replays, run any updates, and recover: the zone is in step with
      the live one, whether or not its signing succeeds; and in an unsigned zone, or with tags on all
      keys, recovery succeeds. */
  lemma RecoveryRefinesLive(cfg: Config, z: Zone, before: seq<Record>, es: seq<Event>, inception: U32)
    requires WellFormed(z) && Replay(map[], cfg.origin, before).Done?
    requires forall i :: 0 <= i < |es| ==> Logged(es[i])
    ensures var live := RunUpdates(cfg, State(z, Some(before + Dump(z))), es);
            && live.journal.Some?
            && Follows(Recover(cfg, live.journal.value, inception).zone, live.zone, cfg.origin, cfg.dnssec)
            && (!cfg.dnssec || Tagged(cfg.signers) ==> Recover(cfg, live.journal.value, inception).ok)
  {
    ReplayRefinesLive(cfg, z, before, es);
    var live := RunUpdates(cfg, State(z, Some(before + Dump(z))), es);
    RecoversExactly(cfg, live.journal.value, inception);
    if cfg.dnssec {
      SigningKeepsStep(cfg, Replay(map[], cfg.origin, live.journal.value).zone, live.zone, inception);
    }
  }

  // ----- A chain that is not rebuilt -----

  predicate ListedIn(rs: seq<Record>, t: RecordType) {
    rs != [] && rs[0].rdata.Nsec? && t in rs[0].rdata.types
  }

  /** The keys of a chained zone can be read off its NSEC records. */
  lemma KeysFromChain(z: Zone, origin: Name, k: RrKey)
    requires ChainCurrent(z, origin) && k.rtype != NSEC
    ensures k in z <==> ListedIn(Recs(z, RrKey(k.name, NSEC)), k.rtype)
  {
    var ks := InOrder(DataKeys(z));
    var gs := Groups(ks);
    GroupsOfAscending(ks);
    assert k in z <==> k in DataKeys(z);
    assert Lists(gs, k) <==> k in ks;
    if i :| 0 <= i < |gs| && gs[i].owner == k.name {
      assert ChainedAt(z, gs, origin, i);
      ChainAt(gs, origin, 0, i);
      OwnerListsAll(gs, i, k);
    } else {
      assert RrKey(k.name, NSEC) !in z;
    }
  }

  /** The same NSEC records in two zones, and no NSEC set in the second that is not in the first. */
  ghost predicate SameNsecs(z: Zone, z': Zone) {
    forall k: RrKey :: k.rtype == NSEC ==> Recs(z', k) == Recs(z, k) && (k in z' ==> k in z)
  }

  /** A chain left as it was is current exactly when the zone's other keys are what they were. */
  lemma ChainSurvivesExactly(z: Zone, z': Zone, origin: Name)
    requires ChainCurrent(z, origin) && SameNsecs(z, z')
    ensures ChainCurrent(z', origin) <==> DataKeys(z') == DataKeys(z)
  {
    if ChainCurrent(z', origin) {
      forall k: RrKey | k.rtype != NSEC ensures k in z' <==> k in z {
        KeysFromChain(z, origin, k);
        KeysFromChain(z', origin, k);
        assert Recs(z', RrKey(k.name, NSEC)) == Recs(z, RrKey(k.name, NSEC));
      }
    }
    if DataKeys(z') == DataKeys(z) {
      ChainKept(z, z', Groups(InOrder(DataKeys(z))), origin);
    }
  }

  lemma ChainKept(z: Zone, z': Zone, gs: seq<Group>, origin: Name)
    requires ChainCurrent(z, origin) && SameNsecs(z, z') && DataKeys(z') == DataKeys(z)
    requires gs == Groups(InOrder(DataKeys(z)))
    ensures ChainCurrent(z', origin)
  {
    forall i | 0 <= i < |gs| ensures ChainedAt(z', gs, origin, i) {
      assert ChainedAt(z, gs, origin, i);
    }
  }

  // ----- What a journal does to the NSEC sets -----

  /** A record that touches no NSEC set. */
  predicate SparesNsec(r: Record) {
    r.rtype != NSEC && r.rtype != AXFR && !(r.class_ == ANYCLASS && r.rtype == ANY)
  }

  ghost predicate AllSpareNsec(us: seq<Record>) {
    forall i :: 0 <= i < |us| ==> SparesNsec(us[i])
  }

  lemma ApplySparesNsec(z: Zone, origin: Name, r: Record, serial: U32)
    requires SparesNsec(r)
    ensures SameNsecs(z, ApplyRecord(z, origin, r, serial).zone)
  {
  }

  lemma {:induction false} ReplaySparesNsec(z: Zone, origin: Name, us: seq<Record>)
    requires AllSpareNsec(us)
    ensures SameNsecs(z, Replay(z, origin, us).zone)
    decreases |us|
  {
    if us != [] {
      var s := ApplyRecord(z, origin, us[0], Serial(z, origin));
      ApplySparesNsec(z, origin, us[0], Serial(z, origin));
      if s.Done? {
        ReplaySparesNsec(s.zone, origin, us[1..]);
      }
    }
  }

  ghost predicate NoEmptySets(z: Zone) {
    forall k :: k in z ==> Recs(z, k) != []
  }

  lemma {:induction false} AddedSetsHold(z: Zone, origin: Name, us: seq<Record>)
    requires WellFormed(z) && NoEmptySets(z)
    requires forall i :: 0 <= i < |us| ==> us[i].rtype != AXFR && us[i].class_ == IN && Insertable(us[i])
    ensures NoEmptySets(Replay(z, origin, us).zone)
    decreases |us|
  {
    if us != [] {
      UpsertKeeps(z, us[0], Serial(z, origin));
      AddedSetsHold(Upsert(z, us[0], Serial(z, origin)).zone, origin, us[1..]);
    }
  }

  /** A dump gives back the NSEC sets. */
  lemma DumpSameNsecs(z: Zone, origin: Name, before: seq<Record>)
    requires WellFormed(z) && Replay(map[], origin, before).Done?
    ensures SameNsecs(z, Replay(map[], origin, before + Dump(z)).zone)
  {
    var flat := RecordsAt(z, InOrder(z.Keys));
    PersistThenRecover(z, origin, before);
    ReplaySplit(map[], origin, before, Dump(z));
    assert Dump(z)[1..] == flat;
    DumpRecords(z, InOrder(z.Keys));
    AddedSetsHold(map[], origin, flat);
  }

  lemma ReplaySameNsecs(z: Zone, origin: Name, before: seq<Record>, rs: seq<Record>)
    requires WellFormed(z) && Replay(map[], origin, before).Done? && AllSpareNsec(rs)
    ensures SameNsecs(z, Replay(map[], origin, before + Dump(z) + rs).zone)
  {
    PersistThenRecover(z, origin, before);
    DumpSameNsecs(z, origin, before);
    ReplaySplit(map[], origin, before + Dump(z), rs);
    ReplaySparesNsec(Replay(map[], origin, before + Dump(z)).zone, origin, rs);
  }

  // ----- What a run of updates logs -----

  predicate Applies(cfg: Config, st: State, m: UpdateMessage) {
    && cfg.allowUpdate && m.authorized
    && VerifyPrerequisites(st.zone, cfg.origin, m.prerequisites) == Pass
    && PreScan(cfg.origin, m.updates) == Pass
  }

  /** What one update request appends to the journal. */
  function Section(cfg: Config, st: State, m: UpdateMessage): seq<Record> {
    if Applies(cfg, st, m) then m.updates else []
  }

  /** What a run of updates appends. */
  function Logs(cfg: Config, st: State, es: seq<Event>): seq<Record>
    decreases |es|
  {
    if es == [] then []
    else Section(cfg, st, es[0].message) + Logs(cfg, Handle(cfg, st, es[0]).state, es[1..])
  }

  lemma HandleLogs(cfg: Config, st: State, e: Event)
    requires st.journal.Some? && Logged(e)
    ensures Handle(cfg, st, e).state.journal == Some(st.journal.value + Section(cfg, st, e.message))
  {
    assert st.journal.value + [] == st.journal.value;
  }

  lemma Regroup<T>(a: seq<T>, b: seq<T>, c: seq<T>)
    ensures a + b + c == a + (b + c)
  {
  }

  lemma {:induction false} RunLogs(cfg: Config, st: State, es: seq<Event>, journal: seq<Record>)
    requires st.journal == Some(journal) && forall i :: 0 <= i < |es| ==> Logged(es[i])
    ensures RunUpdates(cfg, st, es).journal == Some(journal + Logs(cfg, st, es))
    decreases |es|
  {
    if es == [] {
      assert journal + [] == journal;
    } else {
      var section, next := Section(cfg, st, es[0].message), Handle(cfg, st, es[0]).state;
      HandleLogs(cfg, st, es[0]);
      RunLogs(cfg, next, es[1..], journal + section);
      Regroup(journal, section, Logs(cfg, next, es[1..]));
    }
  }

  lemma {:induction false} LogsSpareNsec(cfg: Config, st: State, es: seq<Event>)
    requires forall i :: 0 <= i < |es| ==> AllSpareNsec(es[i].message.updates)
    ensures AllSpareNsec(Logs(cfg, st, es))
    decreases |es|
  {
    if es != [] {
      LogsSpareNsec(cfg, Handle(cfg, st, es[0]).state, es[1..]);
    }
  }

  lemma RunSameNsecs(cfg: Config, z: Zone, before: seq<Record>, es: seq<Event>)
    requires WellFormed(z) && Replay(map[], cfg.origin, before).Done?
    requires forall i :: 0 <= i < |es| ==> Logged(es[i]) && AllSpareNsec(es[i].message.updates)
    ensures var live := RunUpdates(cfg, State(z, Some(before + Dump(z))), es);
            live.journal.Some? && SameNsecs(z, Replay(map[], cfg.origin, live.journal.value).zone)
  {
    var st := State(z, Some(before + Dump(z)));
    var logs := Logs(cfg, st, es);
    RunLogs(cfg, st, es, before + Dump(z));
    LogsSpareNsec(cfg, st, es);
    ReplaySameNsecs(z, cfg.origin, before, logs);
  }

  lemma RecoveredChain(cfg: Config, z: Zone, journal: seq<Record>, inception: U32)
    requires cfg.dnssec && ChainCurrent(z, cfg.origin)
    requires var s := Replay(map[], cfg.origin, journal); s.Done? && WellFormed(s.zone) && SameNsecs(z, s.zone)
    ensures var rec := Recover(cfg, journal, inception).zone;
            WellFormed(rec) && (ChainCurrent(rec, cfg.origin) <==> DataKeys(rec) == DataKeys(z))
  {
    var s := Replay(map[], cfg.origin, journal);
    SignZoneKeeps(cfg.crypto, s.zone, cfg.origin, cfg.signers, inception);
    ChainSurvivesExactly(z, Recover(cfg, journal, inception).zone, cfg.origin);
  }

  /** The NSEC chain after recovery: a signed zone that was chained when it was persisted, updated by
      any run that adds and deletes no NSEC sets itself, is chained again after recovery exactly when
      the recovered zone has the keys that were persisted, no more and no fewer. */
  lemma RecoveredChainExactly(cfg: Config, z: Zone, before: seq<Record>, es: seq<Event>, inception: U32)
    requires cfg.dnssec && Chained(cfg, z) && Replay(map[], cfg.origin, before).Done?
    requires forall i :: 0 <= i < |es| ==> Logged(es[i]) && AllSpareNsec(es[i].message.updates)
    ensures var live := RunUpdates(cfg, State(z, Some(before + Dump(z))), es);
            && live.journal.Some?
            && var rec := Recover(cfg, live.journal.value, inception).zone;
               WellFormed(rec) && (ChainCurrent(rec, cfg.origin) <==> DataKeys(rec) == DataKeys(z))
  {
    RunSameNsecs(cfg, z, before, es);
    ReplayRefinesLive(cfg, z, before, es);
    var live := RunUpdates(cfg, State(z, Some(before + Dump(z))), es);
    RecoveredChain(cfg, z, live.journal.value, inception);
  }

  // ----- A denial of what is there -----

  /** A request that adds one record, with no prerequisites, and whose append to the journal succeeds. */
  predicate Adds(e: Event, r: Record) {
    && e.message.prerequisites == [] && e.message.updates == [r] && e.message.authorized && e.accepted >= 1
    && r.class_ == IN && WellTyped(r)
  }

  /** Of a chained zone, some NSEC record proves an absent pair absent, from the origin up to any
      owner. */
  lemma SomeServedProof(z: Zone, origin: Name, last: RrKey, qname: Name, qtype: RecordType)
    returns (k: RrKey, nsec: NsecRr)
    requires ChainedWithOrigin(z, origin) && last in DataKeys(z) && KeyOf(qname, qtype) !in DataKeys(z)
    requires NameLeq(Lower(origin), Lower(qname)) && NameLeq(Lower(qname), last.name)
    ensures k.rtype == NSEC && Recs(z, k) == [nsec] && VerifyNsec(qname, qtype, [nsec])
  {
    var gs := Groups(InOrder(DataKeys(z)));
    var chain := Chain(gs, origin, 0);
    ChainProves(z, origin, last, qname, qtype);
    assert ChainFor(z, origin, 0) == chain;
    var i :| 0 <= i < |chain| && Proves(qname, qtype, chain[i]);
    k, nsec := LinkServed(z, gs, origin, i);
    SameProof(qname, qtype, nsec, chain[i]);
    Singleton(qname, qtype, [nsec]);
  }

  lemma LinkServed(z: Zone, gs: seq<Group>, origin: Name, i: nat) returns (k: RrKey, nsec: NsecRr)
    requires WellFormed(z) && ChainCurrent(z, origin) && gs == Groups(InOrder(DataKeys(z))) && i < |gs|
    ensures k.rtype == NSEC && Recs(z, k) == [nsec]
    ensures nsec.rdata == Chain(gs, origin, 0)[i].rdata && NameEq(nsec.name, Chain(gs, origin, 0)[i].name)
  {
    k := RrKey(gs[i].owner, NSEC);
    assert ChainedAt(z, gs, origin, i);
    ChainAt(gs, origin, 0, i);
    OwnerLowered(z, i);
    nsec := Recs(z, k)[0];
  }

  /** The journal after a zone was persisted and one record added. */
  lemma AddIsLogged(cfg: Config, st: State, e: Event, r: Record)
    requires cfg.allowUpdate && Admissible(cfg.origin, r) && Adds(e, r) && st.journal.Some?
    ensures Handle(cfg, st, e).state.journal == Some(st.journal.value + e.message.updates)
  {
    PreScanMeans(cfg.origin, e.message.updates);
    HandleLogs(cfg, st, e);
  }

  /** Replayed, the journal gives back the old NSEC records beside the new record. */
  lemma AddReplays(z: Zone, origin: Name, r: Record)
    requires WellFormed(z) && Insertable(r) && r.class_ == IN && r.rtype != AXFR && RecordKey(r) !in z
    ensures var s := Replay(map[], origin, Dump(z) + [r]);
            && s.Done? && WellFormed(s.zone) && Recs(s.zone, RecordKey(r)) == [r]
            && forall k :: k != RecordKey(r) ==> Recs(s.zone, k) == Recs(z, k)
  {
    var d := Replay(map[], origin, [] + Dump(z)).zone;
    PersistThenRecover(z, origin, []);
    assert [] + Dump(z) == Dump(z);
    ReplaySplit(map[], origin, Dump(z), [r]);
    ReplayEffects(d, origin, [r]);
    forall k ensures Effects(origin, [r], k, Recs(d, k)) == if k == RecordKey(r) then [r] else Recs(z, k) {
      OneEffect(origin, r, k, Recs(d, k));
    }
  }

  lemma OneEffect(origin: Name, r: Record, k: RrKey, rs: seq<Record>)
    requires r.class_ == IN && (k == RecordKey(r) ==> rs == [])
    ensures Effects(origin, [r], k, rs) == if k == RecordKey(r) then [r] else rs
  {
    assert [r][1..] == [];
  }

  /** A zone to which a record can be added, between its origin and some other owner. */
  ghost predicate CanAdd(cfg: Config, z: Zone, r: Record, last: RrKey) {
    && cfg.dnssec && cfg.allowUpdate && cfg.signers != [] && Tagged(cfg.signers)
    && ChainedWithOrigin(z, cfg.origin) && last in DataKeys(z)
    && Admissible(cfg.origin, r) && WellTyped(r) && r.class_ == IN && r.rtype != NSEC
    && RecordKey(r) !in z && NameLeq(Lower(r.name), last.name)
  }

  lemma LiveStaysChained(cfg: Config, st: State, e: Event, r: Record, last: RrKey)
    requires CanAdd(cfg, st.zone, r, last) && Adds(e, r) && st.journal.Some?
    ensures var live := Handle(cfg, st, e).state;
            Chained(cfg, live.zone) && live.journal == Some(st.journal.value + e.message.updates)
  {
    AddIsLogged(cfg, st, e, r);
    UpdateKeepsChained(cfg, st, e);
  }

  lemma AddSameNsecs(z: Zone, origin: Name, r: Record, before: seq<Record>, rs: seq<Record>)
    requires WellFormed(z) && SparesNsec(r) && before == [] && rs == [r]
    ensures SameNsecs(z, Replay(map[], origin, Dump(z) + rs).zone)
  {
    assert before + Dump(z) == Dump(z);
    ReplaySameNsecs(z, origin, before, rs);
  }

  /** A key that was not there when the zone was persisted leaves the chain behind. */
  lemma NewKeyNotListed(cfg: Config, z: Zone, journal: seq<Record>, k: RrKey, inception: U32)
    requires cfg.dnssec && ChainCurrent(z, cfg.origin)
    requires var s := Replay(map[], cfg.origin, journal); s.Done? && WellFormed(s.zone) && SameNsecs(z, s.zone)
    requires k.rtype != NSEC && k !in z && k in Replay(map[], cfg.origin, journal).zone
    ensures !ChainCurrent(Recover(cfg, journal, inception).zone, cfg.origin)
  {
    RecoveredChain(cfg, z, journal, inception);
    SignZoneKeeps(cfg.crypto, Replay(map[], cfg.origin, journal).zone, cfg.origin, cfg.signers, inception);
    assert k in DataKeys(Recover(cfg, journal, inception).zone);
  }

  lemma NoLongerCurrent(cfg: Config, z: Zone, r: Record, last: RrKey, inception: U32)
    requires CanAdd(cfg, z, r, last)
    ensures !ChainCurrent(Recover(cfg, Dump(z) + [r], inception).zone, cfg.origin)
  {
    AddReplays(z, cfg.origin, r);
    AddSameNsecs(z, cfg.origin, r, [], [r]);
    NewKeyNotListed(cfg, z, Dump(z) + [r], RecordKey(r), inception);
  }

  /** A signed zone is persisted, a record is added at a name that had none of its type, and the zone
      is recovered: the live zone is chained, but the recovered one holds the record and serves,
      signed by every key that can sign it, an NSEC record that proves it absent. */
  lemma DeniesWhatIsThere(cfg: Config, z: Zone, e: Event, r: Record, last: RrKey, inception: U32)
    returns (k: RrKey, nsec: NsecRr)
    requires CanAdd(cfg, z, r, last) && Adds(e, r)
    ensures var live := Handle(cfg, State(z, Some(Dump(z))), e).state;
            Chained(cfg, live.zone) && live.journal == Some(Dump(z) + [r])
    ensures var rec := Recover(cfg, Dump(z) + [r], inception);
            && rec.ok && Recs(rec.zone, RecordKey(r)) == [r]
            && k in rec.zone && Recs(rec.zone, k) == [nsec] && VerifyNsec(r.name, r.rtype, [nsec])
            && FullySigned(cfg.crypto, rec.zone[k], cfg.signers, inception, MinimumTtl(rec.zone, cfg.origin),
                           rec.zone[k].rrsigs)
            && !ChainCurrent(rec.zone, cfg.origin)
  {
    LiveStaysChained(cfg, State(z, Some(Dump(z))), e, r, last);
    k, nsec := RecoveredDenies(cfg, z, r, last, inception);
  }

  lemma RecoveredDenies(cfg: Config, z: Zone, r: Record, last: RrKey, inception: U32)
    returns (k: RrKey, nsec: NsecRr)
    requires CanAdd(cfg, z, r, last)
    ensures var rec := Recover(cfg, Dump(z) + [r], inception);
            && rec.ok && Recs(rec.zone, RecordKey(r)) == [r]
            && k in rec.zone && Recs(rec.zone, k) == [nsec] && VerifyNsec(r.name, r.rtype, [nsec])
            && FullySigned(cfg.crypto, rec.zone[k], cfg.signers, inception, MinimumTtl(rec.zone, cfg.origin),
                           rec.zone[k].rrsigs)
            && !ChainCurrent(rec.zone, cfg.origin)
  {
    NoLongerCurrent(cfg, z, r, last, inception);
    k, nsec := StaleProof(cfg, z, r, last);
    SignedRecovery(cfg, Replay(map[], cfg.origin, Dump(z) + [r]).zone, k, inception);
  }

  lemma StaleProof(cfg: Config, z: Zone, r: Record, last: RrKey) returns (k: RrKey, nsec: NsecRr)
    requires CanAdd(cfg, z, r, last)
    ensures var s := Replay(map[], cfg.origin, Dump(z) + [r]);
            && s.Done? && WellFormed(s.zone) && Recs(s.zone, RecordKey(r)) == [r]
            && k.rtype == NSEC && Recs(s.zone, k) == [nsec] && VerifyNsec(r.name, r.rtype, [nsec])
  {
    ZoneLeqMembers(Lower(cfg.origin), Lower(r.name));
    assert KeyOf(r.name, r.rtype) !in DataKeys(z);
    k, nsec := SomeServedProof(z, cfg.origin, last, r.name, r.rtype);
    AddReplays(z, cfg.origin, r);
  }

  lemma SignedRecovery(cfg: Config, s: Zone, k: RrKey, inception: U32)
    requires WellFormed(s) && Tagged(cfg.signers) && k.rtype == NSEC && Recs(s, k) != []
    ensures var out := SignZone(cfg.crypto, s, cfg.origin, cfg.signers, inception);
            && out.ok && (forall x :: Recs(out.zone, x) == Recs(s, x)) && k in out.zone
            && FullySigned(cfg.crypto, out.zone[k], cfg.signers, inception, MinimumTtl(out.zone, cfg.origin),
                           out.zone[k].rrsigs)
  {
    SignsExactly(cfg.crypto, s, cfg.origin, cfg.signers, inception);
    SignZoneKeeps(cfg.crypto, s, cfg.origin, cfg.signers, inception);
    assert SetAt(k, s[k]);
    ZoneFullySigned(cfg.crypto, s, cfg.origin, cfg.signers, inception, k);
  }

  lemma BetweenCanAdd(cfg: Config, first: Name, added: Name, last: Name, z: Zone, r: Record)
    requires cfg.dnssec && cfg.allowUpdate && cfg.signers != [] && Tagged(cfg.signers)
    requires ChainedWithOrigin(z, cfg.origin)
    requires DataKeys(z) == {KeyOf(cfg.origin, SOA), KeyOf(first, A), KeyOf(last, A)}
    requires ZoneOf(cfg.origin, added) && !NameEq(first, added) && !NameEq(last, added)
    requires NameLeq(Lower(added), Lower(last))
    requires r.name == added && r.rtype == A && r.class_ == IN && WellTyped(r)
    ensures CanAdd(cfg, z, r, KeyOf(last, A))
  {
    ThreeKeys(z, cfg.origin, first, added, last);
  }

  /** In the zone z with addresses at a.z and c.z, chained, persisted, given an address at b.z and
      recovered. */
  lemma DeniesHere(cfg: Config, first: Name, added: Name, last: Name, z: Zone, e: Event, r: Record, inception: U32)
    returns (k: RrKey, nsec: NsecRr)
    requires cfg.origin == [[122]] && first == [[97], [122]] && added == [[98], [122]] && last == [[99], [122]]
    requires cfg.dnssec && cfg.allowUpdate && cfg.signers != [] && Tagged(cfg.signers)
    requires z == NsecZone(SmallZone(cfg.origin, first, last), cfg.origin, cfg.signers)
    requires r == Record(added, A, IN, 0, Opaque(A, [3])) && Adds(e, r)
    ensures Chained(cfg, z) && Chained(cfg, Handle(cfg, State(z, Some(Dump(z))), e).state.zone)
    ensures Handle(cfg, State(z, Some(Dump(z))), e).state.journal == Some(Dump(z) + [r])
    ensures var rec := Recover(cfg, Dump(z) + [r], inception);
            && rec.ok && Recs(rec.zone, RecordKey(r)) == [r]
            && Recs(rec.zone, k) == [nsec] && VerifyNsec(r.name, r.rtype, [nsec])
            && !ChainCurrent(rec.zone, cfg.origin)
  {
    SmallNames(cfg.origin, first, added, last);
    SmallZoneChained(cfg.origin, first, last, cfg.signers, z);
    BetweenCanAdd(cfg, first, added, last, z, r);
    k, nsec := DeniesWhatIsThere(cfg, z, e, r, KeyOf(last, A), inception);
  }
}
