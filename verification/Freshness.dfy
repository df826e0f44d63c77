/** A signed zone over its updates: no signature and no NSEC record outlives what it was made for
    (updated of client/src/rr/rr_set.rs; update_records, secure_zone and sign_zone of
    server/src/authority/authority.rs). */
module Freshness {
  import opened Basics
  import opened Names
  import opened Records
  import opened RrSets
  import opened Zones
  import opened Nsec
  import opened Signing
  import opened Authority
  import opened Signatures

  /** A change of a set drops its signatures; without one they stay with the same records. */
  lemma InsertDropsSignatures(k: RrKey, s: RrSet, r: Record, serial: U32)
    requires SetAt(k, s) && RecordKey(r) == k
    ensures var s' := InsertInto(s, r, serial).set_; s' == s || s'.rrsigs == []
  {
    InsertCases(s, r, serial);
  }

  lemma ApplyKeepsFresh(c: Crypto, signers: seq<Signer>, z: Zone, origin: Name, r: Record, serial: U32)
    requires WellFormed(z) && Insertable(r) && FreshZone(c, signers, z)
    ensures FreshZone(c, signers, ApplyRecord(z, origin, r, serial).zone)
  {
    var z' := ApplyRecord(z, origin, r, serial).zone;
    forall k | k in z' ensures FreshSet(c, signers, z'[k]) {
      if r.class_ == IN && k == RecordKey(r) {
        EmptySetAt(r, serial);
        InsertDropsSignatures(k, SetOrEmpty(z, r, serial), r, serial);
      }
    }
  }

  lemma {:induction false} ApplyAllKeepsFresh(c: Crypto, signers: seq<Signer>, z: Zone, origin: Name,
                                              us: seq<Record>, serial: U32)
    requires WellFormed(z) && FreshZone(c, signers, z) && AllAdmissible(origin, us)
    ensures FreshZone(c, signers, ApplyAll(z, origin, us, serial).zone)
    decreases |us|
  {
    if us != [] {
      ApplyKeeps(z, origin, us[0], serial);
      ApplyKeepsFresh(c, signers, z, origin, us[0], serial);
      AllAdmissibleTail(origin, us);
      ApplyAllKeepsFresh(c, signers, ApplyRecord(z, origin, us[0], serial).zone, origin, us[1..], serial);
    }
  }

  lemma UpsertKeepsFresh(c: Crypto, signers: seq<Signer>, z: Zone, r: Record, serial: U32)
    requires WellFormed(z) && r.class_ == IN && Insertable(r) && FreshZone(c, signers, z)
    ensures FreshZone(c, signers, Upsert(z, r, serial).zone)
  {
    ApplyKeepsFresh(c, signers, z, [], r, serial);
  }

  lemma {:induction false} UpsertAllKeepsFresh(c: Crypto, signers: seq<Signer>, z: Zone, rs: seq<Record>, serial: U32)
    requires WellFormed(z) && FreshZone(c, signers, z)
    requires forall i :: 0 <= i < |rs| ==> rs[i].class_ == IN && Insertable(rs[i])
    ensures FreshZone(c, signers, UpsertAll(z, rs, serial))
    decreases |rs|
  {
    if rs != [] {
      UpsertKeeps(z, rs[0], serial);
      UpsertKeepsFresh(c, signers, z, rs[0], serial);
      UpsertAllKeepsFresh(c, signers, Upsert(z, rs[0], serial).zone, rs[1..], serial);
    }
  }

  lemma RechainKeepsFresh(c: Crypto, z: Zone, origin: Name, signers: seq<Signer>)
    requires WellFormed(z) && FreshZone(c, signers, z) && signers != []
    ensures FreshZone(c, signers, NsecZone(z, origin, signers))
  {
    var bare := WithoutNsec(z);
    var chain := ChainFor(z, origin, MinimumTtl(bare, origin));
    ChainInsertable(z, chain, origin, MinimumTtl(bare, origin));
    UpsertAllKeepsFresh(c, signers, bare, chain, Serial(bare, origin));
  }

  lemma BumpKeepsFresh(c: Crypto, z: Zone, origin: Name, signers: seq<Signer>)
    requires WellFormed(z) && FreshZone(c, signers, z)
    ensures FreshZone(c, signers, IncrementSoa(z, origin))
  {
    var k := SoaKey(origin);
    if k in z && z[k].records != [] {
      BumpOfSoa(z, k);
      UpsertKeepsFresh(c, signers, z, BumpedSoa(z[k].records[0]), BumpedSoa(z[k].records[0]).rdata.soa.serial);
    }
  }

  /** Rebuilding the chain and raising the serial leave no signature on what they change. */
  lemma StagedKeepsFresh(c: Crypto, z: Zone, origin: Name, signers: seq<Signer>)
    requires WellFormed(z) && FreshZone(c, signers, z) && signers != []
    ensures FreshZone(c, signers, Staged(z, origin, signers))
  {
    RechainKeepsFresh(c, z, origin, signers);
    NsecZoneChains(z, origin, signers);
    BumpKeepsFresh(c, NsecZone(z, origin, signers), origin, signers);
  }

  /** So secure_zone keeps a fresh zone fresh, even where signing stops part way: the sets it does not
      reach keep signatures over records that did not change. */
  lemma SecureZoneKeepsFresh(c: Crypto, z: Zone, origin: Name, signers: seq<Signer>, inception: U32)
    requires WellFormed(z) && FreshZone(c, signers, z) && signers != []
    ensures FreshZone(c, signers, SecureZone(c, z, origin, signers, inception).zone)
  {
    var staged := Staged(z, origin, signers);
    StagedKeepsFresh(c, z, origin, signers);
    SignSetsFresh(c, staged, InOrder(staged.Keys), signers, inception, MinimumTtl(staged, origin));
  }

  /** Every name keyed in the zone is at or under its origin. */
  ghost predicate Inside(z: Zone, origin: Name) {
    forall k :: k in z ==> IsSuffix(Lower(origin), k.name)
  }

  lemma ApplyKeepsInside(z: Zone, origin: Name, r: Record, serial: U32)
    requires Inside(z, origin) && Admissible(origin, r)
    ensures Inside(ApplyRecord(z, origin, r, serial).zone, origin)
  {
  }

  lemma {:induction false} ApplyAllKeepsInside(z: Zone, origin: Name, us: seq<Record>, serial: U32)
    requires Inside(z, origin) && AllAdmissible(origin, us)
    ensures Inside(ApplyAll(z, origin, us, serial).zone, origin)
    decreases |us|
  {
    if us != [] {
      ApplyKeepsInside(z, origin, us[0], serial);
      AllAdmissibleTail(origin, us);
      ApplyAllKeepsInside(ApplyRecord(z, origin, us[0], serial).zone, origin, us[1..], serial);
    }
  }

  /** A zone whose NSEC records are the chain for its other keys. */
  ghost predicate Chained(cfg: Config, z: Zone) {
    WellFormed(z) && Inside(z, cfg.origin) && ChainCurrent(z, cfg.origin)
  }

  /** A zone as secure_zone leaves it. */
  ghost predicate Secured(cfg: Config, z: Zone) {
    Chained(cfg, z) && FreshZone(cfg.crypto, cfg.signers, z)
  }

  lemma ChainInside(z: Zone, origin: Name)
    requires ChainCurrent(z, origin) && forall k: RrKey :: k in z && k.rtype != NSEC ==> IsSuffix(Lower(origin), k.name)
    ensures Inside(z, origin)
  {
    var ks := InOrder(DataKeys(z));
    var gs := Groups(ks);
    GroupsOfAscending(ks);
    forall k | k in z && k.rtype == NSEC ensures IsSuffix(Lower(origin), k.name) {
      var i :| 0 <= i < |gs| && gs[i].owner == k.name;
      assert Lists(gs, RrKey(gs[i].owner, gs[i].types[0]));
    }
  }

  /** secure_zone chains any well-formed zone inside its origin, and secures it when signing succeeds
      and its DNSKEY sets are unsigned or freshly signed. */
  lemma SecureZoneSecures(cfg: Config, z: Zone, inception: U32)
    requires WellFormed(z) && Inside(z, cfg.origin) && cfg.signers != []
    ensures var out := SecureZone(cfg.crypto, z, cfg.origin, cfg.signers, inception);
            Chained(cfg, out.zone) && (out.ok && DnskeysFresh(cfg.crypto, cfg.signers, z) ==> Secured(cfg, out.zone))
  {
    var out := SecureZone(cfg.crypto, z, cfg.origin, cfg.signers, inception).zone;
    SecureZoneFresh(cfg.crypto, z, cfg.origin, cfg.signers, inception);
    SecureZoneKeys(cfg.crypto, z, cfg.origin, cfg.signers, inception);
    ChainInside(out, cfg.origin);
  }

  lemma SecureZoneKeys(c: Crypto, z: Zone, origin: Name, signers: seq<Signer>, inception: U32)
    requires WellFormed(z) && signers != []
    ensures forall k: RrKey :: k in SecureZone(c, z, origin, signers, inception).zone && k.rtype != NSEC ==> k in z
  {
    StagedKeeps(z, origin, signers);
    IncrementKeeps(z, origin);
    SignZoneKeeps(c, Staged(z, origin, signers), origin, signers, inception);
  }

  /** Every update, whatever it answers, keeps the chain current. */
  lemma UpdateKeepsChained(cfg: Config, st: State, e: Event)
    requires cfg.dnssec && cfg.signers != [] && Chained(cfg, st.zone) && WellTypedMessage(e.message)
    ensures Chained(cfg, Handle(cfg, st, e).state.zone)
  {
    var us := e.message.updates;
    UpdateOutcome(cfg, st, e);
    if Handle(cfg, st, e).state.zone != st.zone {
      var serial := Serial(st.zone, cfg.origin);
      ApplyAllKeeps(st.zone, cfg.origin, us, serial);
      ApplyAllKeepsInside(st.zone, cfg.origin, us, serial);
      SecureZoneSecures(cfg, Applied(cfg, st.zone, us).zone, e.inception);
    }
  }

  /** No stale signatures or NSECs: every update, whatever it answers, keeps a secured zone secured. */
  lemma UpdateKeepsSecured(cfg: Config, st: State, e: Event)
    requires cfg.dnssec && cfg.signers != [] && Secured(cfg, st.zone) && WellTypedMessage(e.message)
    ensures Secured(cfg, Handle(cfg, st, e).state.zone)
  {
    var us := e.message.updates;
    UpdateKeepsChained(cfg, st, e);
    UpdateOutcome(cfg, st, e);
    if Handle(cfg, st, e).state.zone != st.zone {
      var serial := Serial(st.zone, cfg.origin);
      ApplyAllKeeps(st.zone, cfg.origin, us, serial);
      ApplyAllKeepsFresh(cfg.crypto, cfg.signers, st.zone, cfg.origin, us, serial);
      SecureZoneKeepsFresh(cfg.crypto, Applied(cfg, st.zone, us).zone, cfg.origin, cfg.signers, e.inception);
    }
  }

  /** And one that reports a change leaves every set but the DNSKEY ones with the signature of every
      key that can sign it, over the records it then holds, and with no other. */
  lemma UpdateSignsFully(cfg: Config, st: State, e: Event, k: RrKey)
    requires cfg.dnssec && cfg.signers != [] && WellFormed(st.zone) && WellTypedMessage(e.message)
    requires Handle(cfg, st, e).result == Ok(true)
    requires k in Handle(cfg, st, e).state.zone && Handle(cfg, st, e).state.zone[k].rtype != DNSKEY
    ensures var z := Handle(cfg, st, e).state.zone;
            FullySigned(cfg.crypto, z[k], cfg.signers, e.inception, MinimumTtl(z, cfg.origin), z[k].rrsigs)
  {
    UpdateOutcome(cfg, st, e);
    var us := e.message.updates;
    ApplyAllKeeps(st.zone, cfg.origin, us, Serial(st.zone, cfg.origin));
    var staged := Staged(Applied(cfg, st.zone, us).zone, cfg.origin, cfg.signers);
    StagedKeeps(Applied(cfg, st.zone, us).zone, cfg.origin, cfg.signers);
    SignZoneKeeps(cfg.crypto, staged, cfg.origin, cfg.signers, e.inception);
    ZoneFullySigned(cfg.crypto, staged, cfg.origin, cfg.signers, e.inception, k);
  }

  // ----- When an update of a signed zone fails -----

  predicate Tagged(signers: seq<Signer>) {
    forall g :: g in signers ==> g.keyTag.Some?
  }

  lemma {:induction false} SignByOk(c: Crypto, s: RrSet, signers: seq<Signer>, inception: U32, ttl: U32)
    ensures SignBy(c, s, signers, inception, ttl).ok <==> Tagged(signers)
    decreases |signers|
  {
    if signers != [] {
      var g := signers[0];
      assert Tagged(signers) <==> g.keyTag.Some? && Tagged(signers[1..]) by {
        assert signers == [g] + signers[1..];
      }
      if g.keyTag.Some? {
        var sig := MakeRrsig(c, s, g, g.keyTag.value, inception, ttl);
        SignByOk(c, if sig.Some? then s.(rrsigs := s.rrsigs + [sig.value]) else s, signers[1..], inception, ttl);
      }
    }
  }

  ghost predicate OnlyDnskeys(z: Zone, ks: seq<RrKey>)
    requires forall k :: k in ks ==> k in z
  {
    forall k :: k in ks ==> z[k].rtype == DNSKEY
  }

  lemma {:induction false} SignSetsOk(c: Crypto, z: Zone, ks: seq<RrKey>, signers: seq<Signer>,
                                      inception: U32, ttl: U32)
    requires forall k :: k in ks ==> k in z
    ensures SignSets(c, z, ks, signers, inception, ttl).ok <==> Tagged(signers) || OnlyDnskeys(z, ks)
    decreases |ks|
  {
    if ks != [] {
      assert ks == [ks[0]] + ks[1..];
      if z[ks[0]].rtype == DNSKEY {
        SignSetsOk(c, z, ks[1..], signers, inception, ttl);
      } else {
        var s := z[ks[0]].(rrsigs := []);
        var out := SignBy(c, s, signers, inception, ttl);
        SignByOk(c, s, signers, inception, ttl);
        if out.ok {
          SignSetsOk(c, z[ks[0] := out.set_], ks[1..], signers, inception, ttl);
        } else {
          assert ks[0] in ks;
        }
      }
    }
  }

  /** sign_zone succeeds exactly when every key has a tag or there is nothing but DNSKEY sets to pass
      over. */
  lemma SignsExactly(c: Crypto, z: Zone, origin: Name, signers: seq<Signer>, inception: U32)
    ensures SignZone(c, z, origin, signers, inception).ok <==>
            Tagged(signers) || forall k :: k in z ==> z[k].rtype == DNSKEY
  {
    SignSetsOk(c, z, InOrder(z.Keys), signers, inception, MinimumTtl(z, origin));
  }

  /** An update answers ServFail exactly when it gets past authorization, prerequisites and prescan,
      and either the journal does not take its records, or it changes a signed zone that a key
      without a tag cannot sign again. */
  lemma ServFailExactly(cfg: Config, st: State, e: Event)
    requires WellFormed(st.zone) && WellTypedMessage(e.message)
    ensures var us := e.message.updates;
            Handle(cfg, st, e).result == Err(ServFail) <==>
            && cfg.allowUpdate && e.message.authorized
            && VerifyPrerequisites(st.zone, cfg.origin, e.message.prerequisites) == Pass
            && PreScan(cfg.origin, us) == Pass
            && (|| (st.journal.Some? && e.accepted < |us|)
                || (&& cfg.dnssec && Applied(cfg, st.zone, us).Done? && Applied(cfg, st.zone, us).updated
                    && !Tagged(cfg.signers)
                    && var staged := Staged(Applied(cfg, st.zone, us).zone, cfg.origin, cfg.signers);
                       exists k :: k in staged && staged[k].rtype != DNSKEY))
  {
    var us := e.message.updates;
    NeverServFail(st.zone, cfg.origin, e.message.prerequisites);
    PreScanMeans(cfg.origin, us);
    if PreScan(cfg.origin, us) == Pass {
      ApplyAllKeeps(st.zone, cfg.origin, us, Serial(st.zone, cfg.origin));
      SignsExactly(cfg.crypto, Staged(Applied(cfg, st.zone, us).zone, cfg.origin, cfg.signers), cfg.origin, cfg.signers,
                   e.inception);
    }
  }

  // ----- Over whole runs -----

  lemma {:induction false} RunKeepsSecured(cfg: Config, st: State, es: seq<Event>)
    requires cfg.dnssec && cfg.signers != [] && Secured(cfg, st.zone)
    requires forall i :: 0 <= i < |es| ==> WellTypedMessage(es[i].message)
    ensures Secured(cfg, RunUpdates(cfg, st, es).zone)
    decreases |es|
  {
    if es != [] {
      UpdateKeepsSecured(cfg, st, es[0]);
      RunKeepsSecured(cfg, Handle(cfg, st, es[0]).state, es[1..]);
    }
  }

  lemma {:induction false} RunKeepsChained(cfg: Config, st: State, es: seq<Event>)
    requires cfg.dnssec && cfg.signers != [] && Chained(cfg, st.zone)
    requires forall i :: 0 <= i < |es| ==> WellTypedMessage(es[i].message)
    ensures Chained(cfg, RunUpdates(cfg, st, es).zone)
    decreases |es|
  {
    if es != [] {
      UpdateKeepsChained(cfg, st, es[0]);
      RunKeepsChained(cfg, Handle(cfg, st, es[0]).state, es[1..]);
    }
  }

  // ----- Denials served from a chained zone -----

  ghost predicate ServedFrom(z: Zone, r: Record) {
    exists k :: k in z && k.rtype == NSEC && r in Recs(z, k)
  }

  lemma OnlyMember<T>(s: seq<T>, x: T)
    requires x in s && |s| == 1
    ensures x == s[0]
  {
  }

  lemma ServedIsLinked(z: Zone, gs: seq<Group>, origin: Name, r: Record) returns (i: nat)
    requires gs == Groups(InOrder(DataKeys(z)))
    requires ChainCurrent(z, origin) && ServedFrom(z, r)
    ensures i < |gs| && r.rdata == Chain(gs, origin, 0)[i].rdata && Lower(r.name) == gs[i].owner
  {
    var k :| k in z && k.rtype == NSEC && r in Recs(z, k);
    i :| 0 <= i < |gs| && gs[i].owner == k.name;
    assert ChainedAt(z, gs, origin, i);
    OnlyMember(Recs(z, RrKey(gs[i].owner, NSEC)), r);
  }

  lemma SameProof(qname: Name, qtype: RecordType, a: NsecRr, b: NsecRr)
    requires a.rdata == b.rdata && NameEq(a.name, b.name)
    ensures Proves(qname, qtype, a) == Proves(qname, qtype, b)
  {
  }

  /** What one NSEC record of a chained zone proves absent is not keyed. */
  lemma ServedProof(z: Zone, origin: Name, r: NsecRr, qname: Name, qtype: RecordType)
    requires WellFormed(z) && Inside(z, origin) && ChainCurrent(z, origin) && ServedFrom(z, r)
    requires Proves(qname, qtype, r)
    ensures KeyOf(qname, qtype) !in DataKeys(z)
  {
    var ks := InOrder(DataKeys(z));
    var i := ServedIsLinked(z, Groups(ks), origin, r);
    ZoneNamesLowered(z);
    assert ZoneKeys(ks, origin);
    ChainAt(Groups(ks), origin, 0, i);
    OwnersLowered(ks, origin, i);
    SameProof(qname, qtype, r, Chain(Groups(ks), origin, 0)[i]);
    LinkSound(ks, origin, 0, qname, qtype, i);
  }

  /** After every run of updates, a client that checks any NSEC records the zone then serves is only
      told the truth: what it takes as absent is not keyed, save that NSEC sets themselves are never
      listed. */
  lemma ServedDenialSound(cfg: Config, st: State, es: seq<Event>, qname: Name, qtype: RecordType, nsecs: seq<NsecRr>)
    requires cfg.dnssec && cfg.signers != [] && Chained(cfg, st.zone)
    requires forall i :: 0 <= i < |es| ==> WellTypedMessage(es[i].message)
    requires forall r :: r in nsecs ==> ServedFrom(RunUpdates(cfg, st, es).zone, r)
    requires VerifyNsec(qname, qtype, nsecs) && qtype != NSEC
    ensures KeyOf(qname, qtype) !in RunUpdates(cfg, st, es).zone
  {
    RunKeepsChained(cfg, st, es);
    var r :| r in nsecs && Proves(qname, qtype, r);
    ServedProof(RunUpdates(cfg, st, es).zone, cfg.origin, r, qname, qtype);
  }
}
