/** Securing a zone: the NSEC chain, the serial and the signatures (nsec_zone, secure_zone and
    sign_zone of server/src/authority/authority.rs). */
module Signing {
  import opened Basics
  import opened Names
  import opened Records
  import opened RrSets
  import opened Zones
  import opened Nsec
  import opened SignedData

  /** A zone key: what its records and signatures show of it. */
  datatype Signer = Signer(id: Bytes, algorithm: Byte, signerName: Name, keyTag: Option<U16>, duration: nat)

  /** The cryptography, which may be anything: how data is written, and a signature of some
      octets, which may fail. */
  datatype Crypto = Crypto(format: Format, sign: (Signer, Bytes) -> Option<Bytes>)

  // ----- nsec_zone -----

  function WithoutNsec(z: Zone): Zone {
    map k | k in z && k.rtype != NSEC :: z[k]
  }

  function DataKeys(z: Zone): set<RrKey> {
    WithoutNsec(z).Keys
  }

  function UpsertAll(z: Zone, rs: seq<Record>, serial: U32): Zone
    decreases |rs|
  {
    if rs == [] then z else UpsertAll(Upsert(z, rs[0], serial).zone, rs[1..], serial)
  }

  /** The NSEC records for what the zone now holds. */
  function ChainFor(z: Zone, origin: Name, ttl: U32): seq<NsecRr> {
    Chain(Groups(InOrder(DataKeys(z))), origin, ttl)
  }

  /** Drop every NSEC set and put the chain for the other keys in; nothing without keys. */
  function NsecZone(z: Zone, origin: Name, signers: seq<Signer>): Zone {
    if signers == [] then z else
      var bare := WithoutNsec(z);
      UpsertAll(bare, ChainFor(z, origin, MinimumTtl(bare, origin)), Serial(bare, origin))
  }

  // ----- sign_zone -----

  function FieldsFor(s: RrSet, g: Signer, tag: U16, inception: U32): SigFields {
    SigFields(s.rtype, g.algorithm, NumLabels(s.name), s.ttl, (inception + g.duration) % 0x1_0000_0000,
              inception, tag, g.signerName)
  }

  function MakeSig(f: SigFields, signature: Bytes): SigData {
    SigData(f.typeCovered, f.algorithm, f.numLabels, f.originalTtl, f.expiration, f.inception,
            f.keyTag, f.signerName, signature)
  }

  /** The RRSIG of a set by one key, when its octets can be built and signed. */
  function MakeRrsig(c: Crypto, s: RrSet, g: Signer, tag: U16, inception: U32, zoneTtl: U32): Option<Record> {
    var f := FieldsFor(s, g, tag, inception);
    match HashRrset(c.format, s.name, IN, f, s.records)
    case Hashed(data) =>
      (match c.sign(g, data)
       case Some(signature) => Some(Record(s.name, RRSIG, IN, zoneTtl, Sig(MakeSig(f, signature))))
       case None => None)
    case _ => None
  }

  /** The set with its signatures made anew; `ok` is false from the first key without a tag. */
  datatype SignedSet = SignedSet(set_: RrSet, ok: bool)

  function SignBy(c: Crypto, s: RrSet, signers: seq<Signer>, inception: U32, zoneTtl: U32): SignedSet
    decreases |signers|
  {
    if signers == [] then SignedSet(s, true)
    else match signers[0].keyTag
      case None => SignedSet(s, false)
      case Some(tag) =>
        var sig := MakeRrsig(c, s, signers[0], tag, inception, zoneTtl);
        var s' := if sig.Some? then s.(rrsigs := s.rrsigs + [sig.value]) else s;
        SignBy(c, s', signers[1..], inception, zoneTtl)
  }

  datatype SignedZone = SignedZone(zone: Zone, ok: bool)

  /** Every set but the DNSKEY ones, in the order of their keys. */
  function SignSets(c: Crypto, z: Zone, ks: seq<RrKey>, signers: seq<Signer>, inception: U32, zoneTtl: U32): SignedZone
    requires forall k :: k in ks ==> k in z
    decreases |ks|
  {
    if ks == [] then SignedZone(z, true)
    else if z[ks[0]].rtype == DNSKEY then SignSets(c, z, ks[1..], signers, inception, zoneTtl)
    else
      var out := SignBy(c, z[ks[0]].(rrsigs := []), signers, inception, zoneTtl);
      var z' := z[ks[0] := out.set_];
      if !out.ok then SignedZone(z', false) else SignSets(c, z', ks[1..], signers, inception, zoneTtl)
  }

  function SignZone(c: Crypto, z: Zone, origin: Name, signers: seq<Signer>, inception: U32): SignedZone {
    SignSets(c, z, InOrder(z.Keys), signers, inception, MinimumTtl(z, origin))
  }

  function SecureZone(c: Crypto, z: Zone, origin: Name, signers: seq<Signer>, inception: U32): SignedZone {
    SignZone(c, IncrementSoa(NsecZone(z, origin, signers), origin), origin, signers, inception)
  }

  // ----- What nsec_zone leaves -----

  /** Two zones with the same sets under every key but the NSEC ones. */
  ghost predicate SameData(z: Zone, z': Zone) {
    forall k: RrKey :: k.rtype != NSEC ==> (k in z <==> k in z') && (k in z ==> z'[k] == z[k])
  }

  lemma {:induction false} UpsertAllOther(z: Zone, rs: seq<Record>, serial: U32)
    requires WellFormed(z)
    requires forall i :: 0 <= i < |rs| ==> rs[i].class_ == IN && rs[i].rtype == NSEC
    ensures WellFormed(UpsertAll(z, rs, serial)) && SameData(z, UpsertAll(z, rs, serial))
    decreases |rs|
  {
    if rs != [] {
      UpsertKeeps(z, rs[0], serial);
      var z' := Upsert(z, rs[0], serial).zone;
      assert SameData(z, z');
      UpsertAllOther(z', rs[1..], serial);
    }
  }

  ghost predicate NewKeys(rs: seq<Record>, z: Zone) {
    && (forall i :: 0 <= i < |rs| ==> rs[i].class_ == IN && rs[i].rtype == NSEC && RecordKey(rs[i]) !in z)
    && (forall i, j :: 0 <= i < j < |rs| ==> RecordKey(rs[i]) != RecordKey(rs[j]))
  }

  ghost function KeysOf(rs: seq<Record>): set<RrKey> {
    set i | 0 <= i < |rs| :: RecordKey(rs[i])
  }

  lemma UpsertNew(z: Zone, r: Record, serial: U32)
    requires WellFormed(z) && r.class_ == IN && r.rtype == NSEC && RecordKey(r) !in z
    ensures var z' := Upsert(z, r, serial).zone;
            WellFormed(z') && z'.Keys == z.Keys + {RecordKey(r)} && Recs(z', RecordKey(r)) == [r]
            && forall k :: k in z ==> Recs(z', k) == Recs(z, k)
  {
    UpsertKeeps(z, r, serial);
    InsertCases(EmptySet(r.name, NSEC, serial), r, serial);
  }

  lemma NewKeysTail(rs: seq<Record>, z: Zone, z': Zone)
    requires rs != [] && NewKeys(rs, z) && z'.Keys == z.Keys + {RecordKey(rs[0])}
    ensures NewKeys(rs[1..], z')
    ensures KeysOf(rs) == {RecordKey(rs[0])} + KeysOf(rs[1..])
  {
    var t := rs[1..];
    assert forall i :: 0 <= i < |t| ==> t[i] == rs[i + 1];
    forall k | k in KeysOf(rs) ensures k in {RecordKey(rs[0])} + KeysOf(t) {
      var i :| 0 <= i < |rs| && RecordKey(rs[i]) == k;
      assert i > 0 ==> t[i - 1] == rs[i];
    }
  }

  ghost predicate Extends(z: Zone, z': Zone) {
    forall k :: k in z ==> k in z' && Recs(z', k) == Recs(z, k)
  }

  ghost predicate HoldsEach(z: Zone, rs: seq<Record>) {
    forall i :: 0 <= i < |rs| ==> Recs(z, RecordKey(rs[i])) == [rs[i]]
  }

  lemma HoldsHead(z: Zone, out: Zone, rs: seq<Record>)
    requires rs != [] && Extends(z, out) && RecordKey(rs[0]) in z && Recs(z, RecordKey(rs[0])) == [rs[0]]
    requires HoldsEach(out, rs[1..])
    ensures HoldsEach(out, rs)
  {
    forall i | 0 <= i < |rs| ensures Recs(out, RecordKey(rs[i])) == [rs[i]] {
      if i > 0 { assert rs[i] == rs[1..][i - 1]; }
    }
  }

  /** Records of distinct new keys each become the one record of a new set. */
  lemma {:induction false} UpsertAllNew(z: Zone, rs: seq<Record>, serial: U32)
    requires WellFormed(z) && NewKeys(rs, z)
    ensures UpsertAll(z, rs, serial).Keys == z.Keys + KeysOf(rs)
    ensures Extends(z, UpsertAll(z, rs, serial)) && HoldsEach(UpsertAll(z, rs, serial), rs)
    decreases |rs|
  {
    if rs != [] {
      var z' := Upsert(z, rs[0], serial).zone;
      UpsertNew(z, rs[0], serial);
      NewKeysTail(rs, z, z');
      UpsertAllNew(z', rs[1..], serial);
      HoldsHead(z', UpsertAll(z', rs[1..], serial), rs);
    }
  }

  /** The NSEC sets of a zone are the chain for its other keys: one set for every owner and no
      other, each with the one record that names the next owner and lists the types keyed there. */
  ghost predicate ChainCurrent(z: Zone, origin: Name) {
    var gs := Groups(InOrder(DataKeys(z)));
    && (forall k :: k in z && k.rtype == NSEC ==> exists i :: 0 <= i < |gs| && gs[i].owner == k.name)
    && (forall i :: 0 <= i < |gs| ==> ChainedAt(z, gs, origin, i))
  }

  ghost predicate ChainedAt(z: Zone, gs: seq<Group>, origin: Name, i: nat)
    requires i < |gs|
  {
    var rs := Recs(z, RrKey(gs[i].owner, NSEC));
    |rs| == 1 && rs[0].rdata == Chain(gs, origin, 0)[i].rdata && Lower(rs[0].name) == gs[i].owner
  }

  lemma ZoneNamesLowered(z: Zone)
    requires WellFormed(z)
    ensures forall k :: k in z ==> Lower(k.name) == k.name
  {
    forall k | k in z ensures Lower(k.name) == k.name {
      LowerIdempotent(z[k].name);
    }
  }

  lemma OwnerLowered(z: Zone, i: nat)
    requires WellFormed(z) && i < |Groups(InOrder(DataKeys(z)))|
    ensures Lower(Groups(InOrder(DataKeys(z)))[i].owner) == Groups(InOrder(DataKeys(z)))[i].owner
  {
    var ks := InOrder(DataKeys(z));
    var gs := Groups(ks);
    GroupsOfAscending(ks);
    ZoneNamesLowered(z);
    assert Lists(gs, RrKey(gs[i].owner, gs[i].types[0]));
  }

  /** The chain's records: all NSEC records, under distinct keys that the bare zone does not have. */
  lemma ChainRecords(z: Zone, gs: seq<Group>, origin: Name, ttl: U32)
    requires WellFormed(z) && gs == Groups(InOrder(DataKeys(z)))
    ensures NewKeys(Chain(gs, origin, ttl), WithoutNsec(z))
    ensures forall i :: 0 <= i < |gs| ==> RecordKey(Chain(gs, origin, ttl)[i]) == RrKey(gs[i].owner, NSEC)
  {
    var rs := Chain(gs, origin, ttl);
    forall i | 0 <= i < |gs| ensures rs[i].class_ == IN && RecordKey(rs[i]) == RrKey(gs[i].owner, NSEC) {
      ChainAt(gs, origin, ttl, i);
      OwnerLowered(z, i);
    }
    forall i, j | 0 <= i < j < |gs| ensures RrKey(gs[i].owner, NSEC) != RrKey(gs[j].owner, NSEC) {
      GroupsOfAscending(InOrder(DataKeys(z)));
      NameOrder(gs[i].owner, gs[j].owner, gs[i].owner);
    }
  }

  lemma ChainFromParts(z: Zone, out: Zone, gs: seq<Group>, rs: seq<NsecRr>, origin: Name, ttl: U32)
    requires gs == Groups(InOrder(DataKeys(out))) && rs == Chain(gs, origin, ttl)
    requires forall i :: 0 <= i < |gs| ==>
               RecordKey(rs[i]) == RrKey(gs[i].owner, NSEC) && Recs(out, RecordKey(rs[i])) == [rs[i]]
    requires forall k :: k in out && k.rtype == NSEC ==> exists i :: 0 <= i < |rs| && RecordKey(rs[i]) == k
    ensures ChainCurrent(out, origin)
  {
    forall i | 0 <= i < |gs| ensures ChainedAt(out, gs, origin, i) {
      assert Recs(out, RecordKey(rs[i])) == [rs[i]];
      ChainAt(gs, origin, ttl, i);
      ChainAt(gs, origin, 0, i);
    }
    forall k | k in out && k.rtype == NSEC ensures exists i :: 0 <= i < |gs| && gs[i].owner == k.name {
      var i :| 0 <= i < |rs| && RecordKey(rs[i]) == k;
      assert gs[i].owner == k.name;
    }
  }

  /** nsec_zone rebuilds the chain for the keys the zone holds and leaves every other set alone. */
  lemma NsecZoneChains(z: Zone, origin: Name, signers: seq<Signer>)
    requires WellFormed(z) && signers != []
    ensures WellFormed(NsecZone(z, origin, signers))
    ensures SameData(z, NsecZone(z, origin, signers))
    ensures ChainCurrent(NsecZone(z, origin, signers), origin)
  {
    var bare := WithoutNsec(z);
    RechainedZone(z, bare, origin, MinimumTtl(bare, origin), Serial(bare, origin));
  }

  lemma RechainedZone(z: Zone, bare: Zone, origin: Name, ttl: U32, serial: U32)
    requires WellFormed(z) && bare == WithoutNsec(z)
    ensures WellFormed(UpsertAll(bare, ChainFor(z, origin, ttl), serial))
    ensures SameData(z, UpsertAll(bare, ChainFor(z, origin, ttl), serial))
    ensures ChainCurrent(UpsertAll(bare, ChainFor(z, origin, ttl), serial), origin)
  {
    var gs := Groups(InOrder(DataKeys(z)));
    var rs := ChainFor(z, origin, ttl);
    var out := UpsertAll(bare, rs, serial);
    ChainRecords(z, gs, origin, ttl);
    RechainedData(z, bare, rs, serial, out);
    ChainFromParts(z, out, gs, rs, origin, ttl);
  }

  lemma RechainedData(z: Zone, bare: Zone, rs: seq<Record>, serial: U32, out: Zone)
    requires WellFormed(z) && bare == WithoutNsec(z) && NewKeys(rs, bare) && out == UpsertAll(bare, rs, serial)
    ensures WellFormed(out) && SameData(z, out) && DataKeys(out) == DataKeys(z) && HoldsEach(out, rs)
    ensures forall k :: k in out && k.rtype == NSEC ==> exists i :: 0 <= i < |rs| && RecordKey(rs[i]) == k
  {
    UpsertAllOther(bare, rs, serial);
    UpsertAllNew(bare, rs, serial);
  }

  /** The minimum of the apex SOA, 0 when there is none. */
  ghost predicate IsMinimum(z: Zone, origin: Name, ttl: U32) {
    var rs := Recs(z, SoaKey(origin));
    if rs == [] then ttl == 0 else rs[0].rdata.Soa? && ttl == rs[0].rdata.soa.minimum
  }

  lemma MinimumOfApex(z: Zone, origin: Name)
    requires WellFormed(z)
    ensures IsMinimum(z, origin, MinimumTtl(z, origin))
  {
    if SoaKey(origin) in z { assert SetAt(SoaKey(origin), z[SoaKey(origin)]); }
  }

  /** The NSEC records that nsec_zone makes carry the minimum of the apex SOA as their TTL. */
  lemma NsecTtl(z: Zone, origin: Name, signers: seq<Signer>, k: RrKey)
    requires WellFormed(z) && signers != [] && k in NsecZone(z, origin, signers) && k.rtype == NSEC
    ensures var rs := Recs(NsecZone(z, origin, signers), k);
            |rs| == 1 && IsMinimum(z, origin, rs[0].ttl) && rs[0].class_ == IN
  {
    var bare := WithoutNsec(z);
    RechainedTtl(z, bare, origin, MinimumTtl(bare, origin), Serial(bare, origin), k);
    MinimumOfApex(z, origin);
    assert MinimumTtl(bare, origin) == MinimumTtl(z, origin);
  }

  lemma RechainedTtl(z: Zone, bare: Zone, origin: Name, ttl: U32, serial: U32, k: RrKey)
    requires WellFormed(z) && bare == WithoutNsec(z) && k.rtype == NSEC
    requires k in UpsertAll(bare, ChainFor(z, origin, ttl), serial)
    ensures var rs := Recs(UpsertAll(bare, ChainFor(z, origin, ttl), serial), k);
            |rs| == 1 && rs[0].ttl == ttl && rs[0].class_ == IN
  {
    var gs := Groups(InOrder(DataKeys(z)));
    var rs := Chain(gs, origin, ttl);
    var out := UpsertAll(bare, rs, serial);
    ChainRecords(z, gs, origin, ttl);
    RechainedData(z, bare, rs, serial, out);
    var i :| 0 <= i < |rs| && RecordKey(rs[i]) == k;
    assert Recs(out, RecordKey(rs[i])) == [rs[i]];
    ChainAt(gs, origin, ttl, i);
  }

  // ----- What sign_zone leaves -----

  /** An RRSIG over exactly these records: the octets a validator builds from it and from the
      records are octets that one of the zone's keys signed. */
  ghost predicate SignatureOver(c: Crypto, signers: seq<Signer>, s: RrSet, r: Record) {
    && r.rdata.Sig?
    && var h := HashRrsetWithSig(c.format, s.name, IN, r.rdata.sig, s.records);
       h.Hashed? && exists g :: g in signers && c.sign(g, h.data) == Some(r.rdata.sig.signature)
  }

  ghost predicate FreshSet(c: Crypto, signers: seq<Signer>, s: RrSet) {
    forall r :: r in s.rrsigs ==> SignatureOver(c, signers, s, r)
  }

  ghost predicate FreshZone(c: Crypto, signers: seq<Signer>, z: Zone) {
    forall k :: k in z ==> FreshSet(c, signers, z[k])
  }

  lemma {:induction false} SignByFresh(c: Crypto, s: RrSet, signers: seq<Signer>, all: seq<Signer>,
                                       inception: U32, zoneTtl: U32)
    requires FreshSet(c, all, s) && forall g :: g in signers ==> g in all
    ensures FreshSet(c, all, SignBy(c, s, signers, inception, zoneTtl).set_)
    ensures SignBy(c, s, signers, inception, zoneTtl).set_ ==
            s.(rrsigs := SignBy(c, s, signers, inception, zoneTtl).set_.rrsigs)
    decreases |signers|
  {
    if signers != [] && signers[0].keyTag.Some? {
      var g := signers[0];
      assert g in signers;
      var sig := MakeRrsig(c, s, g, g.keyTag.value, inception, zoneTtl);
      var s' := if sig.Some? then s.(rrsigs := s.rrsigs + [sig.value]) else s;
      if sig.Some? {
        assert FieldsOf(sig.value.rdata.sig) == FieldsFor(s, g, g.keyTag.value, inception);
        assert SignatureOver(c, all, s, sig.value);
        forall r | r in s'.rrsigs ensures SignatureOver(c, all, s', r) {
          assert r in s.rrsigs || r == sig.value;
          assert SignatureOver(c, all, s, r);
        }
      }
      SignByFresh(c, s', signers[1..], all, inception, zoneTtl);
    }
  }

  /** Signing touches nothing but signatures, and what it reaches is fresh. */
  lemma {:induction false} SignSetsFresh(c: Crypto, z: Zone, ks: seq<RrKey>, signers: seq<Signer>,
                                         inception: U32, zoneTtl: U32)
    requires forall k :: k in ks ==> k in z
    ensures var out := SignSets(c, z, ks, signers, inception, zoneTtl);
            && out.zone.Keys == z.Keys
            && (forall k :: k in z ==> out.zone[k] == z[k].(rrsigs := out.zone[k].rrsigs))
            && (forall k :: k in z && FreshSet(c, signers, z[k]) ==> FreshSet(c, signers, out.zone[k]))
            && (out.ok ==> forall k :: k in ks && z[k].rtype != DNSKEY ==> FreshSet(c, signers, out.zone[k]))
    decreases |ks|
  {
    if ks != [] {
      assert ks == [ks[0]] + ks[1..];
      if z[ks[0]].rtype == DNSKEY {
        SignSetsFresh(c, z, ks[1..], signers, inception, zoneTtl);
      } else {
        var s := z[ks[0]].(rrsigs := []);
        SignByFresh(c, s, signers, signers, inception, zoneTtl);
        var out := SignBy(c, s, signers, inception, zoneTtl);
        if out.ok {
          SignSetsFresh(c, z[ks[0] := out.set_], ks[1..], signers, inception, zoneTtl);
        }
      }
    }
  }

  lemma SetAtIgnoresSignatures(k: RrKey, s: RrSet, sigs: seq<Record>)
    requires SetAt(k, s)
    ensures SetAt(k, s.(rrsigs := sigs))
  {
  }

  lemma SignZoneKeeps(c: Crypto, z: Zone, origin: Name, signers: seq<Signer>, inception: U32)
    requires WellFormed(z)
    ensures var out := SignZone(c, z, origin, signers, inception);
            && WellFormed(out.zone) && out.zone.Keys == z.Keys
            && (forall k :: Recs(out.zone, k) == Recs(z, k))
            && (out.ok && DnskeysFresh(c, signers, z) ==> FreshZone(c, signers, out.zone))
  {
    var ks := InOrder(z.Keys);
    SignSetsFresh(c, z, ks, signers, inception, MinimumTtl(z, origin));
    var out := SignZone(c, z, origin, signers, inception);
    forall k | k in z ensures SetAt(k, out.zone[k]) {
      SetAtIgnoresSignatures(k, z[k], out.zone[k].rrsigs);
    }
  }

  lemma SameChain(z: Zone, z': Zone, origin: Name)
    requires ChainCurrent(z, origin) && z'.Keys == z.Keys
    requires forall k: RrKey :: k.rtype == NSEC ==> Recs(z', k) == Recs(z, k)
    ensures ChainCurrent(z', origin)
  {
    assert DataKeys(z') == DataKeys(z);
    var gs := Groups(InOrder(DataKeys(z)));
    forall i | 0 <= i < |gs| ensures ChainedAt(z', gs, origin, i) {
      assert ChainedAt(z, gs, origin, i);
    }
  }

  /** The zone as it is signed: its chain rebuilt and its serial raised. */
  function Staged(z: Zone, origin: Name, signers: seq<Signer>): Zone {
    IncrementSoa(NsecZone(z, origin, signers), origin)
  }

  lemma StagedKeeps(z: Zone, origin: Name, signers: seq<Signer>)
    requires WellFormed(z) && signers != []
    ensures WellFormed(Staged(z, origin, signers)) && ChainCurrent(Staged(z, origin, signers), origin)
    ensures SameData(IncrementSoa(z, origin), Staged(z, origin, signers))
  {
    var z1 := NsecZone(z, origin, signers);
    NsecZoneChains(z, origin, signers);
    BumpKeepsChain(z1, origin);
    IncrementAgrees(z, z1, origin);
  }

  lemma StagedDnskeys(c: Crypto, z: Zone, z': Zone, origin: Name, signers: seq<Signer>)
    requires WellFormed(z) && DnskeysFresh(c, signers, z) && SameData(IncrementSoa(z, origin), z')
    ensures DnskeysFresh(c, signers, z')
  {
    IncrementKeeps(z, origin);
  }

  lemma SameDataRecs(z: Zone, z': Zone, k: RrKey)
    requires SameData(z, z') && k.rtype != NSEC
    ensures Recs(z', k) == Recs(z, k)
  {
  }

  /** secure_zone: afterwards every signature is over the set's records as they stand, and the chain
      is for the keys as they stand. */
  lemma SecureZoneFresh(c: Crypto, z: Zone, origin: Name, signers: seq<Signer>, inception: U32)
    requires WellFormed(z) && signers != []
    ensures WellFormed(SecureZone(c, z, origin, signers, inception).zone)
    ensures ChainCurrent(SecureZone(c, z, origin, signers, inception).zone, origin)
    ensures SecureZone(c, z, origin, signers, inception).ok && DnskeysFresh(c, signers, z) ==>
              FreshZone(c, signers, SecureZone(c, z, origin, signers, inception).zone)
  {
    StagedKeeps(z, origin, signers);
    var z2 := Staged(z, origin, signers);
    if DnskeysFresh(c, signers, z) {
      StagedDnskeys(c, z, z2, origin, signers);
    }
    SignZoneKeeps(c, z2, origin, signers, inception);
    SameChain(z2, SignZone(c, z2, origin, signers, inception).zone, origin);
  }

  lemma SecureZoneWellFormed(c: Crypto, z: Zone, origin: Name, signers: seq<Signer>, inception: U32)
    requires WellFormed(z)
    ensures WellFormed(SecureZone(c, z, origin, signers, inception).zone)
  {
    if signers == [] {
      IncrementKeeps(z, origin);
    } else {
      StagedKeeps(z, origin, signers);
    }
    SignZoneKeeps(c, Staged(z, origin, signers), origin, signers, inception);
  }

  /** secure_zone changes the records of no set but the NSEC ones and the SOA. */
  lemma SecureZoneRecords(c: Crypto, z: Zone, origin: Name, signers: seq<Signer>, inception: U32, k: RrKey)
    requires WellFormed(z) && k.rtype != NSEC
    ensures Recs(SecureZone(c, z, origin, signers, inception).zone, k) == Recs(IncrementSoa(z, origin), k)
  {
    var z2 := Staged(z, origin, signers);
    if signers == [] {
      IncrementKeeps(z, origin);
    } else {
      StagedKeeps(z, origin, signers);
      SameDataRecs(IncrementSoa(z, origin), z2, k);
    }
    SignZoneKeeps(c, z2, origin, signers, inception);
  }

  lemma BumpKeepsChain(z: Zone, origin: Name)
    requires WellFormed(z) && ChainCurrent(z, origin)
    ensures var z' := IncrementSoa(z, origin); WellFormed(z') && z'.Keys == z.Keys && ChainCurrent(z', origin)
  {
    IncrementKeeps(z, origin);
    SameChain(z, IncrementSoa(z, origin), origin);
  }

  ghost predicate DnskeysFresh(c: Crypto, signers: seq<Signer>, z: Zone) {
    forall k :: k in z && k.rtype == DNSKEY ==> FreshSet(c, signers, z[k])
  }

  lemma IncrementAgrees(z: Zone, z1: Zone, origin: Name)
    requires SameData(z, z1)
    ensures SameData(IncrementSoa(z, origin), IncrementSoa(z1, origin))
  {
  }
}
