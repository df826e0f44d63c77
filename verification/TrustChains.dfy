/** What a validated answer rests on (client/src/client/secure_client_handle.rs): a chain of verified
    signatures and covered delegations that ends at an anchored key. */
module TrustChains {
  import opened Basics
  import opened Names
  import opened Records
  import opened Validator

  /** The set of one key in an answer: each of its records as often as it is there, and no other. */
  ghost predicate IsSetOf(m: Message, k: RrKey, c: DnsClass, s: Rrset) {
    && s.rtype == k.rtype && s.class_ == c && Lower(s.name) == k.name
    && forall r :: multiset(s.records)[r] == if RecordKey(r) == k then multiset(AllRecords(m))[r] else 0
  }

  /** A signature in an answer, whatever its section and owner, that covers a type. */
  ghost predicate SignatureIn(m: Message, t: RecordType, x: Record) {
    && (x in m.answers || x in m.nameServers || x in m.additionals)
    && x.rtype == RRSIG && x.rdata.Sig? && x.rdata.sig.typeCovered == t
  }

  /** A key whose signature over a set verifies. */
  ghost predicate Signs(w: World, key: Record, x: Record, s: Rrset) {
    key.rtype == DNSKEY && key.rdata.DnsKey? && x.rdata.Sig? && w.verifies(key.rdata.publicKey, x.rdata.sig, s)
  }

  lemma {:induction false} OfKeyCounts(rs: seq<Record>, k: RrKey, r: Record)
    ensures multiset(OfKey(rs, k))[r] == if RecordKey(r) == k then multiset(rs)[r] else 0
    decreases |rs|
  {
    if rs != [] {
      OfKeyCounts(rs[1..], k, r);
      assert rs == [rs[0]] + rs[1..];
    }
  }

  /** The set that is checked is the set of its key. */
  lemma ChecksTheSet(m: Message, k: RrKey, c: DnsClass, r: Record)
    requires r in AllRecords(m) && RecordKey(r) == k
    ensures IsSetOf(m, k, c, RrsetOf(m, k, c))
  {
    var rs := OfKey(AllRecords(m), k);
    forall x ensures multiset(rs)[x] == if RecordKey(x) == k then multiset(AllRecords(m))[x] else 0 {
      OfKeyCounts(AllRecords(m), k, x);
    }
    assert r in multiset(AllRecords(m)) && r in multiset(rs);
    assert rs[0] in multiset(rs);
  }

  lemma {:induction false} CoveringHas(rs: seq<Record>, t: RecordType, g: SigData)
    ensures g in Covering(rs, t) <==>
            exists x :: x in rs && x.rtype == RRSIG && x.rdata.Sig? && x.rdata.sig == g && g.typeCovered == t
    decreases |rs|
  {
    if rs != [] {
      CoveringHas(rs[1..], t, g);
      assert rs == [rs[0]] + rs[1..];
    }
  }

  lemma SignatureFor(m: Message, t: RecordType, i: nat) returns (x: Record)
    requires i < |Covering(AllRecords(m), t)|
    ensures SignatureIn(m, t, x) && x.rdata.sig == Covering(AllRecords(m), t)[i]
  {
    var g := Covering(AllRecords(m), t)[i];
    CoveringHas(AllRecords(m), t, g);
    x :| x in AllRecords(m) && x.rtype == RRSIG && x.rdata.Sig? && x.rdata.sig == g && g.typeCovered == t;
  }

  /** The NSEC records that a denial is checked with. */
  lemma {:induction false} NsecsHas(rs: seq<Record>, r: Record)
    requires r.rdata.Nsec?
    ensures r in NsecsOf(rs) <==> r in rs && r.rtype == NSEC
    decreases |rs|
  {
    if rs != [] {
      NsecsHas(rs[1..], r);
      assert rs == [rs[0]] + rs[1..];
    }
  }

  // ----- One level, exactly -----

  /** A signature of an answer is verified by a key of the validated answer for its signer's keys. */
  ghost predicate KeyVerifies(w: World, path: Path, depth: nat, m: Message, c: DnsClass, k: RrKey, i: nat, x: Record,
                              key: Record) {
    && SignatureIn(m, k.rtype, x) && i < |Covering(AllRecords(m), k.rtype)|
    && Covering(AllRecords(m), k.rtype)[i] == x.rdata.sig
    && var keys := Send(w, path + [Hop(k, Some(i))], depth + 4, Query(x.rdata.sig.signerName, c, DNSKEY));
       keys.Ok? && key in keys.value.answers && Signs(w, key, x, RrsetOf(m, k, c))
  }

  lemma SignatureExactly(w: World, path: Path, depth: nat, m: Message, c: DnsClass, k: RrKey)
    ensures SomeSignature(w, path, depth, k, RrsetOf(m, k, c), Covering(AllRecords(m), k.rtype)) <==>
            exists i: nat, x, key :: KeyVerifies(w, path, depth, m, c, k, i, x, key)
  {
    var s, sigs := RrsetOf(m, k, c), Covering(AllRecords(m), k.rtype);
    if i :| 0 <= i < |sigs| && SignatureChecks(w, path, depth, k, s, sigs, i) {
      var keys := Send(w, path + [Hop(k, Some(i))], depth + 4, Query(sigs[i].signerName, c, DNSKEY)).value.answers;
      var key :| key in keys && key.rtype == DNSKEY && key.rdata.DnsKey? && w.verifies(key.rdata.publicKey, sigs[i], s);
      var x := SignatureFor(m, k.rtype, i);
      assert KeyVerifies(w, path, depth, m, c, k, i, x, key);
    }
    if i: nat, x, key :| KeyVerifies(w, path, depth, m, c, k, i, x, key) {
      assert SignatureChecks(w, path, depth, k, s, sigs, i);
    }
  }

  /** Whether a record is to be checked: its set has a record in the first two sections that is no
      signature, and in the answer to a nested query it is a key or a delegation. */
  lemma ToBeChecked(m: Message, depth: nat, r: Record)
    requires r in AllRecords(m)
    ensures RecordKey(r) in KeysToCheck(m, depth + 1) <==>
            && r.rtype != RRSIG && (depth == 0 || r.rtype == DNSKEY || r.rtype == DS)
            && exists x :: (x in m.answers || x in m.nameServers) && RecordKey(x) == RecordKey(r)
  {
    if x :| (x in m.answers || x in m.nameServers) && RecordKey(x) == RecordKey(r) {
      assert x in m.answers + m.nameServers && x.rtype == r.rtype;
    }
  }

  /** Which records of an answer that are no keys are returned: exactly those to be checked of whose set
      some signature in the answer is verified, over exactly the records of that set, by a key of the
      validated answer for the signer's keys. */
  lemma ReturnedExactly(w: World, path: Path, depth: nat, q: Query, m: Message, r: Record)
    requires FinishesAll(w) && w.serve(path, q) == Some(m) && Send(w, path, depth, q).Ok? && r in AllRecords(m)
    requires r.rtype != DNSKEY
    ensures IsSetOf(m, RecordKey(r), q.qclass, RrsetOf(m, RecordKey(r), q.qclass))
    ensures r in AllRecords(Send(w, path, depth, q).value) <==>
            && r.rtype != RRSIG && (depth == 0 || r.rtype == DS)
            && (exists x :: (x in m.answers || x in m.nameServers) && RecordKey(x) == RecordKey(r))
            && exists i: nat, x, key :: KeyVerifies(w, path, depth, m, q.qclass, RecordKey(r), i, x, key)
  {
    ChecksTheSet(m, RecordKey(r), q.qclass, r);
    ValidatedExactly(w, path, depth, q, m, r);
    ToBeChecked(m, depth, r);
    SignatureExactly(w, path, depth, m, q.qclass, RecordKey(r));
  }

  /** The signatures of a key set that names itself as a signer are verified with its own keys. */
  ghost predicate NamesItself(m: Message, k: RrKey) {
    exists x :: SignatureIn(m, DNSKEY, x) && Lower(x.rdata.sig.signerName) == k.name
  }

  ghost predicate OwnKeyVerifies(w: World, m: Message, s: Rrset) {
    exists x, key :: SignatureIn(m, DNSKEY, x) && key in s.records && Signs(w, key, x, s)
  }

  /** A key of a set is held by a trust anchor, or covered by a delegation in the validated answer for
      the set's name. */
  ghost predicate KeyHolds(w: World, path: Path, asked: nat, k: RrKey, s: Rrset) {
    exists key :: key in s.records && key.rtype == DNSKEY && key.rdata.DnsKey? &&
      (|| w.anchored(key.rdata.publicKey)
       || (var d := Send(w, path + [Hop(k, None)], asked, Query(s.name, s.class_, DS));
           d.Ok? && exists x :: x in d.value.answers && x.rtype == DS && x.rdata.Opaque? && x.rdata.variant == DS
                                && w.covers(x, s.name, key.rdata.publicKey)))
  }

  lemma KeyHoldsExactly(w: World, path: Path, asked: nat, k: RrKey, s: Rrset)
    ensures KeyHolds(w, path, asked, k, s) <==>
            (exists r :: r in s.records && IsAnchored(w, r)) || DelegationChecks(w, path, asked, k, s)
  {
    var d := Send(w, path + [Hop(k, None)], asked, Query(s.name, s.class_, DS));
    if key :| key in s.records && IsAnchored(w, key) {
      assert KeyHolds(w, path, asked, k, s);
    }
    if DelegationChecks(w, path, asked, k, s) {
      var key :| key in s.records && IsDelegated(w, s.name, key, d.value.answers);
      assert KeyHolds(w, path, asked, k, s);
    }
    if KeyHolds(w, path, asked, k, s) && !DelegationChecks(w, path, asked, k, s) {
      var key :| && key in s.records && key.rtype == DNSKEY && key.rdata.DnsKey?
                 && (|| w.anchored(key.rdata.publicKey)
                     || (d.Ok? && IsDelegated(w, s.name, key, d.value.answers)));
      assert IsAnchored(w, key);
    }
  }

  lemma CoveringExactly(m: Message, t: RecordType)
    ensures forall g :: g in Covering(AllRecords(m), t) <==> exists x :: SignatureIn(m, t, x) && x.rdata.sig == g
  {
    forall g ensures g in Covering(AllRecords(m), t) <==> exists x :: SignatureIn(m, t, x) && x.rdata.sig == g {
      CoveringHas(AllRecords(m), t, g);
      if x :| SignatureIn(m, t, x) && x.rdata.sig == g {
        assert x in AllRecords(m);
      }
      if x :| x in AllRecords(m) && x.rtype == RRSIG && x.rdata.Sig? && x.rdata.sig == g && g.typeCovered == t {
        assert SignatureIn(m, t, x);
      }
    }
  }

  lemma OwnExactly(w: World, m: Message, s: Rrset)
    ensures OwnKeyVerifies(w, m, s) <==>
            exists g :: g in Covering(AllRecords(m), DNSKEY) && SignedBy(w, s.records, g, s)
  {
    CoveringExactly(m, DNSKEY);
    if x, key :| SignatureIn(m, DNSKEY, x) && key in s.records && Signs(w, key, x, s) {
      assert SignedBy(w, s.records, x.rdata.sig, s);
    }
    if g :| g in Covering(AllRecords(m), DNSKEY) && SignedBy(w, s.records, g, s) {
      var x :| SignatureIn(m, DNSKEY, x) && x.rdata.sig == g;
      var key :| key in s.records && key.rtype == DNSKEY && key.rdata.DnsKey? && w.verifies(key.rdata.publicKey, g, s);
      assert Signs(w, key, x, s);
    }
  }

  ghost predicate KeysSigned(w: World, path: Path, depth: nat, m: Message, c: DnsClass, k: RrKey, s: Rrset) {
    if NamesItself(m, k) then OwnKeyVerifies(w, m, s)
    else exists i: nat, x, key :: KeyVerifies(w, path, depth, m, c, k, i, x, key)
  }

  lemma KeysSignedExactly(w: World, path: Path, depth: nat, m: Message, c: DnsClass, k: RrKey, s: Rrset)
    requires k.rtype == DNSKEY && s == RrsetOf(m, k, c) && IsSetOf(m, k, c, s)
    ensures KeysSigned(w, path, depth, m, c, k, s) <==>
            SignaturesCheck(w, path, depth, k, s, Covering(AllRecords(m), DNSKEY))
  {
    SignedItself(m, k, c, s);
    OwnExactly(w, m, s);
    SignatureExactly(w, path, depth, m, c, k);
  }

  ghost predicate KeySetHolds(w: World, path: Path, depth: nat, m: Message, c: DnsClass, k: RrKey, s: Rrset) {
    if forall x :: !SignatureIn(m, DNSKEY, x) then KeyHolds(w, path, depth + 3, k, s)
    else KeyHolds(w, path, depth + 2, k, s) && KeysSigned(w, path, depth, m, c, k, s)
  }

  lemma KeySetExactly(w: World, path: Path, depth: nat, m: Message, c: DnsClass, k: RrKey, s: Rrset)
    requires k.rtype == DNSKEY && s == RrsetOf(m, k, c) && IsSetOf(m, k, c, s)
    ensures KeySetHolds(w, path, depth, m, c, k, s) <==> SetChecks(w, path, depth, m, c, k)
  {
    KeyHoldsExactly(w, path, depth + 3, k, s);
    KeyHoldsExactly(w, path, depth + 2, k, s);
    SignedItself(m, k, c, s);
    KeysSignedExactly(w, path, depth, m, c, k, s);
  }

  /** Which keys of an answer are returned: exactly those to be checked of whose set some key is anchored
      or delegated to, and, when the answer has signatures over keys, one of these is verified, by the
      set's own keys when it names itself as a signer and as for any other set when not. */
  lemma KeysReturnedExactly(w: World, path: Path, depth: nat, q: Query, m: Message, r: Record, k: RrKey, s: Rrset)
    requires FinishesAll(w) && w.serve(path, q) == Some(m) && Send(w, path, depth, q).Ok? && r in AllRecords(m)
    requires r.rtype == DNSKEY && k == RecordKey(r) && s == RrsetOf(m, k, q.qclass)
    ensures IsSetOf(m, k, q.qclass, s)
    ensures r in AllRecords(Send(w, path, depth, q).value) <==>
            && (exists x :: (x in m.answers || x in m.nameServers) && RecordKey(x) == k)
            && KeySetHolds(w, path, depth, m, q.qclass, k, s)
  {
    ChecksTheSet(m, k, q.qclass, r);
    ValidatedExactly(w, path, depth, q, m, r);
    ToBeChecked(m, depth, r);
    KeySetExactly(w, path, depth, m, q.qclass, k, s);
  }

  lemma SignedItself(m: Message, k: RrKey, c: DnsClass, s: Rrset)
    requires k.rtype == DNSKEY && IsSetOf(m, k, c, s)
    ensures Covering(AllRecords(m), DNSKEY) == [] <==> forall x :: !SignatureIn(m, DNSKEY, x)
    ensures NamesItself(m, k) <==> exists g :: g in Covering(AllRecords(m), DNSKEY) && NameEq(g.signerName, s.name)
  {
    var sigs := Covering(AllRecords(m), DNSKEY);
    CoveringExactly(m, DNSKEY);
    if x :| SignatureIn(m, DNSKEY, x) {
      assert x.rdata.sig in sigs;
    }
    if sigs != [] {
      assert sigs[0] in sigs;
    }
    if x :| SignatureIn(m, DNSKEY, x) && Lower(x.rdata.sig.signerName) == k.name {
      assert x.rdata.sig in sigs && NameEq(x.rdata.sig.signerName, s.name);
    }
  }

  // ----- All levels -----

  /** A record in an answer with a chain of trust: some signature over its set is verified by a key with
      a chain of its own; or, for a key, its set holds an anchored key or one that a delegation with a
      chain of its own covers. */
  ghost predicate Chain(w: World, path: Path, depth: nat, q: Query, r: Record)
    decreases Fuel(depth), 1
  {
    depth <= MAX_DEPTH && w.serve(path, q).Some? &&
    var m := w.serve(path, q).value;
    && (r in m.answers || r in m.nameServers || r in m.additionals)
    && r.rtype != RRSIG
    && exists s :: IsSetOf(m, RecordKey(r), q.qclass, s) &&
                   if r.rtype == DNSKEY then KeyChain(w, path, depth, RecordKey(r), s)
                   else SignedChain(w, path, depth, m, RecordKey(r), s)
  }

  ghost predicate SignedChain(w: World, path: Path, depth: nat, m: Message, k: RrKey, s: Rrset)
    requires depth <= MAX_DEPTH
    decreases Fuel(depth), 0
  {
    exists i: nat, x: Record, key: Record ::
      && SignatureIn(m, k.rtype, x) && Signs(w, key, x, s)
      && Chain(w, path + [Hop(k, Some(i))], depth + 4, Query(x.rdata.sig.signerName, s.class_, DNSKEY), key)
  }

  ghost predicate KeyChain(w: World, path: Path, depth: nat, k: RrKey, s: Rrset)
    requires depth <= MAX_DEPTH
    decreases Fuel(depth), 0
  {
    exists key: Record :: key in s.records && key.rtype == DNSKEY && key.rdata.DnsKey? &&
      (|| w.anchored(key.rdata.publicKey)
       || exists asked: nat, ds: Record ::
            && (asked == depth + 2 || asked == depth + 3)
            && Chain(w, path + [Hop(k, None)], asked, Query(s.name, s.class_, DS), ds)
            && ds.rtype == DS && w.covers(ds, s.name, key.rdata.publicKey))
  }

  /** Every record that a validation returns has a chain of trust, for every server, order of completion,
      signature scheme, path, depth and query. */
  lemma {:induction false} Trustworthy(w: World, path: Path, depth: nat, q: Query, r: Record)
    requires FinishesAll(w) && Send(w, path, depth, q).Ok? && r in AllRecords(Send(w, path, depth, q).value)
    ensures Chain(w, path, depth, q, r)
    decreases Fuel(depth), 2
  {
    var m := w.serve(path, q).value;
    var k, s := RecordKey(r), RrsetOf(m, RecordKey(r), q.qclass);
    ValidatedHolds(w, path, depth, q, r);
    ValidatedExactly(w, path, depth, q, m, r);
    ChecksTheSet(m, k, q.qclass, r);
    if r.rtype == DNSKEY {
      KeysTrusted(w, path, depth, m, q.qclass, k);
    } else {
      SignatureExactly(w, path, depth, m, q.qclass, k);
      var i: nat, x, key :| KeyVerifies(w, path, depth, m, q.qclass, k, i, x, key);
      SignerTrusted(w, path, depth, m, q.qclass, k, i, x, key);
    }
  }

  lemma {:induction false} SignerTrusted(w: World, path: Path, depth: nat, m: Message, c: DnsClass, k: RrKey, i: nat,
                                         x: Record, key: Record)
    requires FinishesAll(w) && depth <= MAX_DEPTH && KeyVerifies(w, path, depth, m, c, k, i, x, key)
    ensures SignedChain(w, path, depth, m, k, RrsetOf(m, k, c))
    decreases Fuel(depth), 0
  {
    Trustworthy(w, path + [Hop(k, Some(i))], depth + 4, Query(x.rdata.sig.signerName, c, DNSKEY), key);
  }

  lemma {:induction false} KeysTrusted(w: World, path: Path, depth: nat, m: Message, c: DnsClass, k: RrKey)
    requires FinishesAll(w) && depth <= MAX_DEPTH && k.rtype == DNSKEY && SetChecks(w, path, depth, m, c, k)
    ensures KeyChain(w, path, depth, k, RrsetOf(m, k, c))
    decreases Fuel(depth), 1
  {
    var s, sigs := RrsetOf(m, k, c), Covering(AllRecords(m), k.rtype);
    if key :| key in s.records && IsAnchored(w, key) {
    } else {
      DelegationTrusted(w, path, depth, if sigs == [] then depth + 3 else depth + 2, k, s);
    }
  }

  lemma {:induction false} DelegationTrusted(w: World, path: Path, depth: nat, asked: nat, k: RrKey, s: Rrset)
    requires FinishesAll(w) && depth <= MAX_DEPTH && DelegationChecks(w, path, asked, k, s)
    requires asked == depth + 2 || asked == depth + 3
    ensures KeyChain(w, path, depth, k, s)
    decreases Fuel(depth), 0
  {
    var q := Query(s.name, s.class_, DS);
    var d := Send(w, path + [Hop(k, None)], asked, q).value;
    var key :| key in s.records && IsDelegated(w, s.name, key, d.answers);
    var ds :| ds in d.answers && ds.rtype == DS && ds.rdata.Opaque? && ds.rdata.variant == DS
              && w.covers(ds, s.name, key.rdata.publicKey);
    Trustworthy(w, path + [Hop(k, None)], asked, q, ds);
  }

  /** Where no signature verifies, nothing but keys is ever returned. */
  lemma NothingVerifies(w: World, path: Path, depth: nat, q: Query, r: Record)
    requires FinishesAll(w) && forall key: Bytes, g: SigData, s: Rrset :: !w.verifies(key, g, s)
    requires Send(w, path, depth, q).Ok? && r in AllRecords(Send(w, path, depth, q).value)
    ensures r.rtype == DNSKEY
  {
    Trustworthy(w, path, depth, q, r);
  }
}
