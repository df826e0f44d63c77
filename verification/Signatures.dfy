/** Which signatures sign_zone of server/src/authority/authority.rs leaves on a set: one for every
    key that can sign it, with the fields that belong to the set and the key, and no other. */
module Signatures {
  import opened Basics
  import opened Names
  import opened Records
  import opened RrSets
  import opened Zones
  import opened Nsec
  import opened SignedData
  import opened Signing

  /** An RRSIG of a set by one key: its fields are those of the set, the key and the time, and its
      signature is the key's over the octets a validator builds from it. */
  ghost predicate SignedWith(c: Crypto, s: RrSet, g: Signer, inception: U32, ttl: U32, r: Record) {
    && g.keyTag.Some? && r.rdata.Sig? && r.rtype == RRSIG && r.name == s.name && r.ttl == ttl
    && var sig := r.rdata.sig;
       && sig.typeCovered == s.rtype && sig.originalTtl == s.ttl && sig.numLabels == NumLabels(s.name)
       && sig.algorithm == g.algorithm && sig.keyTag == g.keyTag.value && sig.signerName == g.signerName
       && sig.inception == inception && sig.expiration == (inception + g.duration) % 0x1_0000_0000
       && var h := HashRrsetWithSig(c.format, s.name, IN, sig, s.records);
          h.Hashed? && c.sign(g, h.data) == Some(sig.signature)
  }

  /** A key that cannot sign a set: the octets cannot be built, or signing them fails. */
  predicate CannotSign(c: Crypto, s: RrSet, g: Signer, inception: U32) {
    g.keyTag.Some? &&
    match HashRrset(c.format, s.name, IN, FieldsFor(s, g, g.keyTag.value, inception), s.records)
    case Hashed(data) => c.sign(g, data).None?
    case _ => true
  }

  ghost predicate HasSignature(c: Crypto, s: RrSet, g: Signer, inception: U32, ttl: U32, sigs: seq<Record>) {
    exists r :: r in sigs && SignedWith(c, s, g, inception, ttl, r)
  }

  ghost predicate MadeBySome(c: Crypto, s: RrSet, signers: seq<Signer>, inception: U32, ttl: U32, r: Record) {
    exists g :: g in signers && SignedWith(c, s, g, inception, ttl, r)
  }

  /** Every key that can sign the set has, and nothing else is there. */
  ghost predicate FullySigned(c: Crypto, s: RrSet, signers: seq<Signer>, inception: U32, ttl: U32, sigs: seq<Record>) {
    && (forall g :: g in signers ==> CannotSign(c, s, g, inception) || HasSignature(c, s, g, inception, ttl, sigs))
    && (forall r :: r in sigs ==> MadeBySome(c, s, signers, inception, ttl, r))
  }

  lemma RrsigOf(c: Crypto, s: RrSet, g: Signer, inception: U32, ttl: U32)
    requires g.keyTag.Some?
    ensures var r := MakeRrsig(c, s, g, g.keyTag.value, inception, ttl);
            if r.Some? then SignedWith(c, s, g, inception, ttl, r.value) else CannotSign(c, s, g, inception)
  {
    var r := MakeRrsig(c, s, g, g.keyTag.value, inception, ttl);
    if r.Some? {
      assert FieldsOf(r.value.rdata.sig) == FieldsFor(s, g, g.keyTag.value, inception);
    }
  }

  /** Signatures do not change what a set signs. */
  lemma OtherSignatures(c: Crypto, s: RrSet, sigs: seq<Record>, g: Signer, inception: U32, ttl: U32, r: Record)
    ensures SignedWith(c, s.(rrsigs := sigs), g, inception, ttl, r) == SignedWith(c, s, g, inception, ttl, r)
    ensures CannotSign(c, s.(rrsigs := sigs), g, inception) == CannotSign(c, s, g, inception)
  {
  }

  ghost function Signed(c: Crypto, s: RrSet, signers: seq<Signer>, inception: U32, ttl: U32): seq<Record> {
    SignBy(c, s, signers, inception, ttl).set_.rrsigs
  }

  lemma {:induction false} SignByCovers(c: Crypto, s: RrSet, signers: seq<Signer>, inception: U32, ttl: U32, g: Signer)
    requires SignBy(c, s, signers, inception, ttl).ok
    ensures s.rrsigs <= Signed(c, s, signers, inception, ttl)
    ensures g in signers ==>
              CannotSign(c, s, g, inception) ||
              HasSignature(c, s, g, inception, ttl, Signed(c, s, signers, inception, ttl))
    decreases |signers|
  {
    if signers != [] {
      var g0 := signers[0];
      var sig := MakeRrsig(c, s, g0, g0.keyTag.value, inception, ttl);
      var sigs := if sig.Some? then s.rrsigs + [sig.value] else s.rrsigs;
      var s' := s.(rrsigs := sigs);
      var all := Signed(c, s', signers[1..], inception, ttl);
      SignByCovers(c, s', signers[1..], inception, ttl, g);
      assert g in signers <==> g == g0 || g in signers[1..];
      if g == g0 {
        RrsigOf(c, s, g, inception, ttl);
        if sig.Some? {
          assert sigs[|s.rrsigs|] == sig.value && all[|s.rrsigs|] == sig.value;
        }
      } else if HasSignature(c, s', g, inception, ttl, all) {
        var r :| r in all && SignedWith(c, s', g, inception, ttl, r);
        OtherSignatures(c, s, sigs, g, inception, ttl, r);
      }
    }
  }

  lemma {:induction false} SignByAddsOnly(c: Crypto, s: RrSet, signers: seq<Signer>, inception: U32,
                                          ttl: U32, r: Record)
    requires r in Signed(c, s, signers, inception, ttl)
    ensures r in s.rrsigs || MadeBySome(c, s, signers, inception, ttl, r)
    decreases |signers|
  {
    if signers != [] && signers[0].keyTag.Some? {
      var g0 := signers[0];
      var sig := MakeRrsig(c, s, g0, g0.keyTag.value, inception, ttl);
      var sigs := if sig.Some? then s.rrsigs + [sig.value] else s.rrsigs;
      SignByAddsOnly(c, s.(rrsigs := sigs), signers[1..], inception, ttl, r);
      RrsigOf(c, s, g0, inception, ttl);
      assert g0 in signers;
      if MadeBySome(c, s.(rrsigs := sigs), signers[1..], inception, ttl, r) {
        var g :| g in signers[1..] && SignedWith(c, s.(rrsigs := sigs), g, inception, ttl, r);
        OtherSignatures(c, s, sigs, g, inception, ttl, r);
        assert g in signers;
      }
    }
  }

  lemma SignByFully(c: Crypto, s: RrSet, signers: seq<Signer>, inception: U32, ttl: U32)
    requires s.rrsigs == [] && SignBy(c, s, signers, inception, ttl).ok
    ensures FullySigned(c, s, signers, inception, ttl, Signed(c, s, signers, inception, ttl))
  {
    var sigs := Signed(c, s, signers, inception, ttl);
    forall g | g in signers ensures CannotSign(c, s, g, inception) || HasSignature(c, s, g, inception, ttl, sigs) {
      SignByCovers(c, s, signers, inception, ttl, g);
    }
    forall r | r in sigs ensures MadeBySome(c, s, signers, inception, ttl, r) {
      SignByAddsOnly(c, s, signers, inception, ttl, r);
    }
  }

  lemma {:induction false} SignSetsElsewhere(c: Crypto, z: Zone, ks: seq<RrKey>, signers: seq<Signer>, inception: U32,
                                             ttl: U32, k: RrKey)
    requires (forall x :: x in ks ==> x in z) && k in z && k !in ks
    ensures k in SignSets(c, z, ks, signers, inception, ttl).zone
    ensures SignSets(c, z, ks, signers, inception, ttl).zone[k] == z[k]
    decreases |ks|
  {
    if ks != [] {
      assert ks == [ks[0]] + ks[1..];
      if z[ks[0]].rtype == DNSKEY {
        SignSetsElsewhere(c, z, ks[1..], signers, inception, ttl, k);
      } else {
        var out := SignBy(c, z[ks[0]].(rrsigs := []), signers, inception, ttl);
        if out.ok {
          SignSetsElsewhere(c, z[ks[0] := out.set_], ks[1..], signers, inception, ttl, k);
        }
      }
    }
  }

  lemma {:induction false} SignSetsFully(c: Crypto, z: Zone, ks: seq<RrKey>, signers: seq<Signer>, inception: U32,
                                         ttl: U32, k: RrKey)
    requires (forall x :: x in ks ==> x in z) && Ascending(ks) && k in ks && z[k].rtype != DNSKEY
    requires SignSets(c, z, ks, signers, inception, ttl).ok
    ensures k in SignSets(c, z, ks, signers, inception, ttl).zone
    ensures FullySigned(c, z[k], signers, inception, ttl, SignSets(c, z, ks, signers, inception, ttl).zone[k].rrsigs)
    decreases |ks|
  {
    var k0 := ks[0];
    assert k0 in ks;
    AscendingTail(ks);
    KeyOrder(k0, k0, k0);
    assert k in ks <==> k == k0 || k in ks[1..];
    if z[k0].rtype == DNSKEY {
      SignSetsFully(c, z, ks[1..], signers, inception, ttl, k);
    } else {
      var bare := z[k0].(rrsigs := []);
      var out := SignBy(c, bare, signers, inception, ttl);
      var z' := z[k0 := out.set_];
      if k == k0 {
        SignByFully(c, bare, signers, inception, ttl);
        SameButSignatures(c, bare, z[k0], signers, inception, ttl, out.set_.rrsigs);
        SignSetsElsewhere(c, z', ks[1..], signers, inception, ttl, k);
      } else {
        SignSetsFully(c, z', ks[1..], signers, inception, ttl, k);
      }
    }
  }

  lemma SameButSignatures(c: Crypto, s: RrSet, s': RrSet, signers: seq<Signer>, inception: U32,
                          ttl: U32, sigs: seq<Record>)
    requires FullySigned(c, s, signers, inception, ttl, sigs) && s' == s.(rrsigs := s'.rrsigs)
    ensures FullySigned(c, s', signers, inception, ttl, sigs)
  {
    forall g | g in signers ensures CannotSign(c, s', g, inception) || HasSignature(c, s', g, inception, ttl, sigs) {
      if !CannotSign(c, s, g, inception) {
        var r :| r in sigs && SignedWith(c, s, g, inception, ttl, r);
        OtherSignatures(c, s, s'.rrsigs, g, inception, ttl, r);
      }
    }
    forall r | r in sigs ensures MadeBySome(c, s', signers, inception, ttl, r) {
      assert MadeBySome(c, s, signers, inception, ttl, r);
      var g :| g in signers && SignedWith(c, s, g, inception, ttl, r);
      OtherSignatures(c, s, s'.rrsigs, g, inception, ttl, r);
    }
  }

  /** After sign_zone succeeds every set but the DNSKEY ones carries, over its current records, the
      signature of every key that can sign it, and no other signature. */
  lemma ZoneFullySigned(c: Crypto, z: Zone, origin: Name, signers: seq<Signer>, inception: U32, k: RrKey)
    requires SignZone(c, z, origin, signers, inception).ok && k in z && z[k].rtype != DNSKEY
    ensures var out := SignZone(c, z, origin, signers, inception).zone;
            && k in out && out[k] == z[k].(rrsigs := out[k].rrsigs)
            && FullySigned(c, out[k], signers, inception, MinimumTtl(out, origin), out[k].rrsigs)
            && (WellFormed(z) ==> forall r :: r in out[k].rrsigs ==> IsMinimum(z, origin, r.ttl))
  {
    var ks, ttl := InOrder(z.Keys), MinimumTtl(z, origin);
    var out := SignZone(c, z, origin, signers, inception).zone;
    SignSetsFully(c, z, ks, signers, inception, ttl, k);
    SignSetsFresh(c, z, ks, signers, inception, ttl);
    SameButSignatures(c, z[k], out[k], signers, inception, ttl, out[k].rrsigs);
    assert MinimumTtl(out, origin) == ttl;
    if WellFormed(z) {
      MinimumOfApex(z, origin);
    }
  }
}
