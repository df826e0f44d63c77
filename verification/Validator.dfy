/** The validating client (client/src/client/secure_client_handle.rs): every answer's record sets
    are checked, which asks for keys and delegations, whose answers are checked in turn.  The
    server, the order in which checks finish, and the cryptography are parameters. */
module Validator {
  import opened Basics
  import opened Names
  import opened Records
  import opened Nsec

  datatype Result<T> = Ok(value: T) | Err

  datatype Query = Query(name: Name, qclass: DnsClass, qtype: RecordType)

  datatype Message = Message(answers: seq<Record>, nameServers: seq<Record>, additionals: seq<Record>)

  datatype Rrset = Rrset(name: Name, rtype: RecordType, class_: DnsClass, records: seq<Record>)

  /** A query made while checking one: for the delegation of a key set, or for the key of one of a
      set's signatures. */
  datatype Hop = Hop(key: RrKey, signature: Option<nat>)

  /** The queries open when one is made, outermost first. */
  type Path = seq<Hop>

  datatype World = World(
    serve: (Path, Query) -> Option<Message>,
    order: (Path, set<RrKey>) -> seq<RrKey>,
    verifies: (Bytes, SigData, Rrset) -> bool,
    covers: (Record, Name, Bytes) -> bool,
    anchored: Bytes -> bool)

  const MAX_DEPTH: nat := 20

  // ----- Parts of a message -----

  /** The data of a type: everything but signatures, and below the first level only what proves a
      chain. */
  predicate Checkable(r: Record, depth: nat) {
    r.rtype != RRSIG && (depth <= 1 || r.rtype == DNSKEY || r.rtype == DS)
  }

  function KeysToCheck(m: Message, depth: nat): set<RrKey> {
    set r | r in m.answers + m.nameServers && Checkable(r, depth) :: RecordKey(r)
  }

  function AllRecords(m: Message): seq<Record> {
    m.answers + m.nameServers + m.additionals
  }

  function OfKey(rs: seq<Record>, k: RrKey): seq<Record> {
    if rs == [] then [] else (if RecordKey(rs[0]) == k then [rs[0]] else []) + OfKey(rs[1..], k)
  }

  /** The signatures that cover a type, whatever their owner. */
  function Covering(rs: seq<Record>, t: RecordType): seq<SigData> {
    if rs == [] then []
    else (if rs[0].rtype == RRSIG && rs[0].rdata.Sig? && rs[0].rdata.sig.typeCovered == t
          then [rs[0].rdata.sig] else []) +
         Covering(rs[1..], t)
  }

  function RrsetOf(m: Message, k: RrKey, c: DnsClass): Rrset {
    var rs := OfKey(AllRecords(m), k);
    Rrset(if rs == [] then k.name else rs[0].name, k.rtype, c, rs)
  }

  function NsecsOf(rs: seq<Record>): seq<NsecRr> {
    if rs == [] then []
    else (if rs[0].rtype == NSEC && rs[0].rdata.Nsec? then [rs[0]] else []) + NsecsOf(rs[1..])
  }

  // ----- Checks that finish -----

  datatype Completion = Completion(key: RrKey, ok: bool)

  function Verified(done: seq<Completion>): set<RrKey> {
    set c | c in done && c.ok :: c.key
  }

  function Kept(rs: seq<Record>, keys: set<RrKey>): seq<Record> {
    if rs == [] then [] else (if RecordKey(rs[0]) in keys then [rs[0]] else []) + Kept(rs[1..], keys)
  }

  function Filtered(m: Message, keys: set<RrKey>): Message {
    Message(Kept(m.answers, keys), Kept(m.nameServers, keys), Kept(m.additionals, keys))
  }

  /** The message left once every check has finished, in the order they did. */
  function Settle(done: seq<Completion>, m: Message): Result<Message> {
    if done == [] || !done[|done| - 1].ok then Err else Ok(Filtered(m, Verified(done)))
  }

  // ----- The recursive validation -----

  function Fuel(depth: nat): nat {
    if depth <= MAX_DEPTH + 4 then MAX_DEPTH + 5 - depth else 0
  }

  function Send(w: World, path: Path, depth: nat, q: Query): Result<Message>
    decreases Fuel(depth), 0
  {
    if depth > MAX_DEPTH then Err
    else match w.serve(path, q)
      case None => Err
      case Some(m) =>
        match VerifyRrsets(w, path, depth + 1, m, q.qclass)
        case Err => Err
        case Ok(v) =>
          if v.answers == [] && !VerifyNsec(q.name, q.qtype, NsecsOf(v.nameServers)) then Err else Ok(v)
  }

  function VerifyRrsets(w: World, path: Path, depth: nat, m: Message, c: DnsClass): Result<Message>
    decreases Fuel(depth), 5
  {
    var keys := KeysToCheck(m, depth);
    if keys == {} then Err else Settle(CheckAll(w, path, depth, m, c, w.order(path, keys)), m)
  }

  /** The check of every key, in the order they finish. */
  function CheckAll(w: World, path: Path, depth: nat, m: Message, c: DnsClass, order: seq<RrKey>): seq<Completion>
    decreases Fuel(depth), 4, |order|
  {
    if order == [] then []
    else
      var k := order[0];
      [Completion(k, VerifyRrset(w, path, depth + 1, k, RrsetOf(m, k, c), Covering(AllRecords(m), k.rtype)).Ok?)] +
      CheckAll(w, path, depth, m, c, order[1..])
  }

  function VerifyRrset(w: World, path: Path, depth: nat, k: RrKey, s: Rrset, sigs: seq<SigData>): Result<Rrset>
    decreases Fuel(depth), 3
  {
    if s.rtype == DNSKEY && sigs == [] then VerifyDnskeyRrset(w, path, depth + 1, k, s)
    else if !VerifyDefaultRrset(w, path, depth + 1, k, s, sigs) then Err
    else if s.rtype == DNSKEY then VerifyDnskeyRrset(w, path, depth, k, s)
    else Ok(s)
  }

  /** The keys among some records that a trust anchor holds. */
  function Anchored(w: World, rs: seq<Record>): seq<Record> {
    if rs == [] then []
    else (if IsAnchored(w, rs[0]) then [rs[0]] else []) + Anchored(w, rs[1..])
  }

  predicate IsAnchored(w: World, r: Record) {
    r.rtype == DNSKEY && r.rdata.DnsKey? && w.anchored(r.rdata.publicKey)
  }

  /** The keys among some records that a delegation covers. */
  function Delegated(w: World, name: Name, rs: seq<Record>, ds: seq<Record>): seq<Record> {
    if rs == [] then []
    else (if IsDelegated(w, name, rs[0], ds) then [rs[0]] else []) + Delegated(w, name, rs[1..], ds)
  }

  predicate IsDelegated(w: World, name: Name, r: Record, ds: seq<Record>) {
    r.rtype == DNSKEY && r.rdata.DnsKey? &&
    exists d :: d in ds && d.rtype == DS && d.rdata.Opaque? && d.rdata.variant == DS
                && w.covers(d, name, r.rdata.publicKey)
  }

  function VerifyDnskeyRrset(w: World, path: Path, depth: nat, k: RrKey, s: Rrset): Result<Rrset>
    decreases Fuel(depth), 1
  {
    if Anchored(w, s.records) != [] then Ok(s.(records := Anchored(w, s.records)))
    else match Send(w, path + [Hop(k, None)], depth, Query(s.name, s.class_, DS))
      case Err => Err
      case Ok(m) =>
        var valid := Delegated(w, s.name, s.records, m.answers);
        if valid != [] then Ok(s.(records := valid)) else Err
  }

  predicate SignedBy(w: World, keys: seq<Record>, sig: SigData, s: Rrset) {
    exists r :: r in keys && r.rtype == DNSKEY && r.rdata.DnsKey? && w.verifies(r.rdata.publicKey, sig, s)
  }

  /** One signature that checks out is enough; a key set that names itself as signer is checked
      with its own keys. */
  predicate VerifyDefaultRrset(w: World, path: Path, depth: nat, k: RrKey, s: Rrset, sigs: seq<SigData>)
    decreases Fuel(depth), 2
  {
    if s.rtype == DNSKEY && exists g :: g in sigs && NameEq(g.signerName, s.name) then
      exists g :: g in sigs && SignedBy(w, s.records, g, s)
    else AnySignature(w, path, depth, k, s, sigs, 0)
  }

  predicate AnySignature(w: World, path: Path, depth: nat, k: RrKey, s: Rrset, sigs: seq<SigData>, i: nat)
    requires i <= |sigs|
    decreases Fuel(depth), 1, |sigs| - i
  {
    i < |sigs| &&
    (|| (match Send(w, path + [Hop(k, Some(i))], depth + 1, Query(sigs[i].signerName, s.class_, DNSKEY))
         case Err => false
         case Ok(m) => SignedBy(w, m.answers, sigs[i], s))
     || AnySignature(w, path, depth, k, s, sigs, i + 1))
  }

  // ----- Worlds that agree on some levels of nesting -----

  /** The same cryptography, and the same answers and orders at the levels from lo (not counted) to
      hi. */
  ghost predicate Agree(w: World, v: World, lo: int, hi: int) {
    && v.verifies == w.verifies && v.covers == w.covers && v.anchored == w.anchored
    && (forall p: Path, q: Query :: lo < |p| <= hi ==> v.serve(p, q) == w.serve(p, q))
    && (forall p: Path, ks: set<RrKey> :: lo < |p| <= hi ==> v.order(p, ks) == w.order(p, ks))
  }

  /** So deep that no query can be made below level hi: each nested query is at least two deeper than
      the one it is made for. */
  ghost predicate Deep(path: Path, depth: nat, hi: int, more: nat) {
    depth + 2 * hi >= 2 * |path| + MAX_DEPTH + more
  }

  lemma {:induction false} SendAgrees(w: World, v: World, lo: int, hi: int, path: Path, depth: nat, q: Query)
    requires Agree(w, v, lo, hi) && lo < |path| && Deep(path, depth, hi, 0)
    ensures Send(v, path, depth, q) == Send(w, path, depth, q)
    decreases Fuel(depth), 0
  {
    if depth <= MAX_DEPTH {
      assert v.serve(path, q) == w.serve(path, q);
      if w.serve(path, q).Some? {
        var m := w.serve(path, q).value;
        var keys := KeysToCheck(m, depth + 1);
        assert v.order(path, keys) == w.order(path, keys);
        CheckAllAgrees(w, v, lo, hi, path, depth + 1, m, q.qclass, w.order(path, keys));
      }
    }
  }

  lemma {:induction false} CheckAllAgrees(w: World, v: World, lo: int, hi: int, path: Path, depth: nat, m: Message,
                                          c: DnsClass, order: seq<RrKey>)
    requires Agree(w, v, lo, hi) && lo <= |path| && Deep(path, depth, hi, 1)
    ensures CheckAll(v, path, depth, m, c, order) == CheckAll(w, path, depth, m, c, order)
    decreases Fuel(depth), 4, |order|
  {
    if order != [] {
      var k := order[0];
      RrsetAgrees(w, v, lo, hi, path, depth + 1, k, RrsetOf(m, k, c), Covering(AllRecords(m), k.rtype));
      CheckAllAgrees(w, v, lo, hi, path, depth, m, c, order[1..]);
    }
  }

  lemma {:induction false} RrsetAgrees(w: World, v: World, lo: int, hi: int, path: Path, depth: nat, k: RrKey, s: Rrset,
                                       sigs: seq<SigData>)
    requires Agree(w, v, lo, hi) && lo <= |path| && Deep(path, depth, hi, 2)
    ensures VerifyRrset(v, path, depth, k, s, sigs) == VerifyRrset(w, path, depth, k, s, sigs)
    decreases Fuel(depth), 3
  {
    if s.rtype == DNSKEY {
      DnskeyAgrees(w, v, lo, hi, path, depth + 1, k, s);
      DnskeyAgrees(w, v, lo, hi, path, depth, k, s);
    }
    DefaultAgrees(w, v, lo, hi, path, depth + 1, k, s, sigs);
  }

  lemma {:induction false} DefaultAgrees(w: World, v: World, lo: int, hi: int, path: Path, depth: nat, k: RrKey,
                                         s: Rrset, sigs: seq<SigData>)
    requires Agree(w, v, lo, hi) && lo <= |path| && Deep(path, depth, hi, 2)
    ensures VerifyDefaultRrset(v, path, depth, k, s, sigs) == VerifyDefaultRrset(w, path, depth, k, s, sigs)
    decreases Fuel(depth), 2
  {
    AnySignatureAgrees(w, v, lo, hi, path, depth, k, s, sigs, 0);
    forall g ensures SignedBy(v, s.records, g, s) == SignedBy(w, s.records, g, s) {
      SameSigner(w, v, s.records, g, s);
    }
  }

  lemma SameSigner(w: World, v: World, keys: seq<Record>, g: SigData, s: Rrset)
    requires v.verifies == w.verifies
    ensures SignedBy(v, keys, g, s) == SignedBy(w, keys, g, s)
  {
  }

  lemma {:induction false} SameKeysPass(w: World, v: World, name: Name, rs: seq<Record>, ds: seq<Record>)
    requires v.anchored == w.anchored && v.covers == w.covers
    ensures Anchored(v, rs) == Anchored(w, rs) && Delegated(v, name, rs, ds) == Delegated(w, name, rs, ds)
    decreases |rs|
  {
    if rs != [] {
      SameKeysPass(w, v, name, rs[1..], ds);
    }
  }

  lemma {:induction false} DnskeyAgrees(w: World, v: World, lo: int, hi: int, path: Path, depth: nat,
                                        k: RrKey, s: Rrset)
    requires Agree(w, v, lo, hi) && lo <= |path| && Deep(path, depth, hi, 2)
    ensures VerifyDnskeyRrset(v, path, depth, k, s) == VerifyDnskeyRrset(w, path, depth, k, s)
    decreases Fuel(depth), 1
  {
    var q := Query(s.name, s.class_, DS);
    var inner := path + [Hop(k, None)];
    SendAgrees(w, v, lo, hi, inner, depth, q);
    var r := Send(w, inner, depth, q);
    SameKeysPass(w, v, s.name, s.records, if r.Ok? then r.value.answers else []);
  }

  lemma {:induction false} AnySignatureAgrees(w: World, v: World, lo: int, hi: int, path: Path, depth: nat, k: RrKey,
                                              s: Rrset, sigs: seq<SigData>, i: nat)
    requires Agree(w, v, lo, hi) && lo <= |path| && Deep(path, depth, hi, 2) && i <= |sigs|
    ensures AnySignature(v, path, depth, k, s, sigs, i) == AnySignature(w, path, depth, k, s, sigs, i)
    decreases Fuel(depth), 1, |sigs| - i
  {
    if i < |sigs| {
      var q := Query(sigs[i].signerName, s.class_, DNSKEY);
      var inner := path + [Hop(k, Some(i))];
      SendAgrees(w, v, lo, hi, inner, depth + 1, q);
      var r := Send(w, inner, depth + 1, q);
      SameSigner(w, v, if r.Ok? then r.value.answers else [], sigs[i], s);
      AnySignatureAgrees(w, v, lo, hi, path, depth, k, s, sigs, i + 1);
    }
  }

  /** Each nested query is at least two deeper than the one it is made for, so none is made below the
      tenth level: nothing that two worlds do differently there can change a validation. */
  lemma BoundedNesting(w: World, v: World, path: Path, depth: nat, q: Query)
    requires Agree(w, v, -1, 10) && depth >= 2 * |path|
    ensures Send(v, path, depth, q) == Send(w, path, depth, q)
  {
    SendAgrees(w, v, -1, 10, path, depth, q);
  }

  // ----- Without an anchored key nothing validates -----

  /** No answer of the server holds a key that a trust anchor holds. */
  ghost predicate NeverAnchored(w: World) {
    forall p: Path, q: Query :: w.serve(p, q).Some? ==> NoneAnchored(w, AllRecords(w.serve(p, q).value))
  }

  ghost predicate NoneAnchored(w: World, rs: seq<Record>) {
    forall r :: r in rs ==> !IsAnchored(w, r)
  }

  lemma {:induction false} NoneAnchoredFilter(w: World, rs: seq<Record>, k: RrKey)
    requires NoneAnchored(w, rs)
    ensures Anchored(w, OfKey(rs, k)) == []
    decreases |rs|
  {
    if rs != [] {
      assert rs[0] in rs;
      NoneAnchoredFilter(w, rs[1..], k);
      if RecordKey(rs[0]) == k {
        assert OfKey(rs, k)[1..] == OfKey(rs[1..], k);
      } else {
        assert OfKey(rs, k) == OfKey(rs[1..], k);
      }
    }
  }

  /** For every server, every order in which checks finish and every signature scheme: unless some
      answer holds an anchored key, validation fails at every depth. */
  lemma {:induction false} NothingValidates(w: World, path: Path, depth: nat, q: Query)
    requires NeverAnchored(w)
    ensures Send(w, path, depth, q).Err?
    decreases Fuel(depth), 0
  {
    if depth <= MAX_DEPTH && w.serve(path, q).Some? {
      var m := w.serve(path, q).value;
      AllChecksFail(w, path, depth + 1, m, q.qclass, w.order(path, KeysToCheck(m, depth + 1)));
    }
  }

  lemma {:induction false} AllChecksFail(w: World, path: Path, depth: nat, m: Message, c: DnsClass, order: seq<RrKey>)
    requires NeverAnchored(w) && NoneAnchored(w, AllRecords(m))
    ensures |CheckAll(w, path, depth, m, c, order)| == |order|
    ensures forall i :: 0 <= i < |order| ==> !CheckAll(w, path, depth, m, c, order)[i].ok
    decreases Fuel(depth), 4, |order|
  {
    if order != [] {
      var k := order[0];
      NoneAnchoredFilter(w, AllRecords(m), k);
      RrsetFails(w, path, depth + 1, k, RrsetOf(m, k, c), Covering(AllRecords(m), k.rtype));
      AllChecksFail(w, path, depth, m, c, order[1..]);
    }
  }

  lemma {:induction false} RrsetFails(w: World, path: Path, depth: nat, k: RrKey, s: Rrset, sigs: seq<SigData>)
    requires NeverAnchored(w) && Anchored(w, s.records) == []
    ensures VerifyRrset(w, path, depth, k, s, sigs).Err?
    decreases Fuel(depth), 3
  {
    if s.rtype == DNSKEY {
      DnskeyFails(w, path, depth + 1, k, s);
      DnskeyFails(w, path, depth, k, s);
    } else {
      NoSignatureChecks(w, path, depth + 1, k, s, sigs, 0);
    }
  }

  lemma {:induction false} DnskeyFails(w: World, path: Path, depth: nat, k: RrKey, s: Rrset)
    requires NeverAnchored(w) && Anchored(w, s.records) == []
    ensures VerifyDnskeyRrset(w, path, depth, k, s).Err?
    decreases Fuel(depth), 1
  {
    NothingValidates(w, path + [Hop(k, None)], depth, Query(s.name, s.class_, DS));
  }

  lemma {:induction false} NoSignatureChecks(w: World, path: Path, depth: nat, k: RrKey, s: Rrset,
                                             sigs: seq<SigData>, i: nat)
    requires NeverAnchored(w) && i <= |sigs|
    ensures !AnySignature(w, path, depth, k, s, sigs, i)
    decreases Fuel(depth), 1, |sigs| - i
  {
    if i < |sigs| {
      NothingValidates(w, path + [Hop(k, Some(i))], depth + 1, Query(sigs[i].signerName, s.class_, DNSKEY));
      NoSignatureChecks(w, path, depth, k, s, sigs, i + 1);
    }
  }

  // ----- What a validated message holds -----

  ghost predicate Increasing(indexes: seq<nat>, bound: nat) {
    && (forall i :: 0 <= i < |indexes| ==> indexes[i] < bound)
    && forall i, j :: 0 <= i < j < |indexes| ==> indexes[i] < indexes[j]
  }

  /** The elements at some indexes. */
  function Pick<T>(from: seq<T>, indexes: seq<nat>): (out: seq<T>)
    requires forall i :: 0 <= i < |indexes| ==> indexes[i] < |from|
    ensures |out| == |indexes| && forall i :: 0 <= i < |indexes| ==> out[i] == from[indexes[i]]
  {
    seq(|indexes|, i requires 0 <= i < |indexes| => from[indexes[i]])
  }

  /** The marked indexes from one on, in order. */
  function Where(marks: seq<bool>, i: nat): (indexes: seq<nat>)
    requires i <= |marks|
    ensures forall j :: 0 <= j < |indexes| ==> i <= indexes[j] < |marks|
    decreases |marks| - i
  {
    if i == |marks| then [] else (if marks[i] then [i] else []) + Where(marks, i + 1)
  }

  lemma {:induction false} WhereIncreases(marks: seq<bool>, i: nat)
    requires i <= |marks|
    ensures Increasing(Where(marks, i), |marks|)
    ensures forall j :: j in Where(marks, i) <==> i <= j < |marks| && marks[j]
    decreases |marks| - i
  {
    if i < |marks| {
      WhereIncreases(marks, i + 1);
    }
  }

  function KeyMarks(rs: seq<Record>, keys: set<RrKey>): seq<bool> {
    seq(|rs|, i requires 0 <= i < |rs| => RecordKey(rs[i]) in keys)
  }

  lemma PickStep<T>(from: seq<T>, marks: seq<bool>, i: nat)
    requires i < |marks| == |from|
    ensures Pick(from, Where(marks, i)) == (if marks[i] then [from[i]] else []) + Pick(from, Where(marks, i + 1))
  {
  }

  /** Filtering keeps, in their order, exactly the records of the given keys. */
  lemma {:induction false} KeptInOrder(rs: seq<Record>, keys: set<RrKey>, i: nat)
    requires i <= |rs|
    ensures Kept(rs[i..], keys) == Pick(rs, Where(KeyMarks(rs, keys), i))
    decreases |rs| - i
  {
    if i < |rs| {
      PickStep(rs, KeyMarks(rs, keys), i);
      KeptInOrder(rs, keys, i + 1);
      assert rs[i..][0] == rs[i] && rs[i..][1..] == rs[i + 1..];
    }
  }

  function AnchorMarks(w: World, rs: seq<Record>): seq<bool> {
    seq(|rs|, i requires 0 <= i < |rs| => IsAnchored(w, rs[i]))
  }

  /** The anchored keys are what stays when only their indexes are preserved. */
  lemma {:induction false} AnchoredArePreserved(w: World, rs: seq<Record>, i: nat)
    requires i <= |rs|
    ensures Anchored(w, rs[i..]) == Pick(rs, Where(AnchorMarks(w, rs), i))
    decreases |rs| - i
  {
    if i < |rs| {
      PickStep(rs, AnchorMarks(w, rs), i);
      AnchoredArePreserved(w, rs, i + 1);
      assert rs[i..][0] == rs[i] && rs[i..][1..] == rs[i + 1..];
    }
  }

  /** The elements at the indexes from one on. */
  ghost function PickFrom<T>(from: seq<T>, indexes: seq<nat>, q: nat): seq<T>
    requires q <= |indexes| && Increasing(indexes, |from|)
    decreases |indexes| - q
  {
    if q == |indexes| then [] else [from[indexes[q]]] + PickFrom(from, indexes, q + 1)
  }

  lemma {:induction false} PickFromStart<T>(from: seq<T>, indexes: seq<nat>, q: nat)
    requires q <= |indexes| && Increasing(indexes, |from|)
    ensures PickFrom(from, indexes, q) == Pick(from, indexes)[q..]
    decreases |indexes| - q
  {
    if q < |indexes| {
      PickFromStart(from, indexes, q + 1);
    }
  }

  /** The first j elements as they were, and then a tail. */
  ghost predicate Joined<T(!new)>(out: seq<T>, from: seq<T>, j: nat, tail: seq<T>) {
    j <= |from| && out == from[..j] + tail
  }

  lemma JoinedStep<T(!new)>(out: seq<T>, from: seq<T>, j: nat, tail: seq<T>)
    requires Joined(out, from, j + 1, tail)
    ensures Joined(out, from, j, [from[j]] + tail) && Joined(out[..j] + out[j + 1..], from, j, tail)
  {
  }

  /** preserve: walk both lists from their ends and remove what is not listed. */
  method Preserve<T(!new)>(from: seq<T>, indexes: seq<nat>) returns (out: seq<T>)
    requires Increasing(indexes, |from|)
    ensures out == Pick(from, indexes)
  {
    out := from;
    var p := |indexes|;
    ghost var q := |indexes|;
    var j := |from|;
    while j > 0
      invariant 0 <= q <= p <= |indexes| && 0 <= j <= |from|
      invariant p == q || (p == q + 1 && indexes[q] == j)
      invariant q > 0 ==> indexes[q - 1] < j
      invariant Joined(out, from, j, PickFrom(from, indexes, q))
    {
      j := j - 1;
      JoinedStep(out, from, j, PickFrom(from, indexes, q));
      if p > 0 && indexes[p - 1] > j {
        p := p - 1;
      }
      if p == 0 || indexes[p - 1] != j {
        out := out[..j] + out[j + 1..];
      } else {
        q := q - 1;
      }
    }
    PickFromStart(from, indexes, 0);
  }

  // ----- The order in which checks finish -----

  /** The checks that are under way finish, each once, in some order. */
  ghost predicate FinishesAll(w: World) {
    forall p: Path, ks: set<RrKey> :: multiset(w.order(p, ks)) == multiset(ks)
  }

  /** The check of one key of a message. */
  ghost predicate Passes(w: World, path: Path, depth: nat, m: Message, c: DnsClass, k: RrKey) {
    VerifyRrset(w, path, depth + 1, k, RrsetOf(m, k, c), Covering(AllRecords(m), k.rtype)).Ok?
  }

  lemma {:induction false} CheckedKeys(w: World, path: Path, depth: nat, m: Message, c: DnsClass, order: seq<RrKey>)
    ensures |CheckAll(w, path, depth, m, c, order)| == |order|
    ensures forall i :: 0 <= i < |order| ==>
              CheckAll(w, path, depth, m, c, order)[i] == Completion(order[i], Passes(w, path, depth, m, c, order[i]))
    decreases |order|
  {
    if order != [] {
      CheckedKeys(w, path, depth, m, c, order[1..]);
    }
  }

  lemma VerifiedExactly(w: World, path: Path, depth: nat, m: Message, c: DnsClass, order: seq<RrKey>, k: RrKey)
    ensures k in Verified(CheckAll(w, path, depth, m, c, order)) <==> k in order && Passes(w, path, depth, m, c, k)
  {
    var done := CheckAll(w, path, depth, m, c, order);
    CheckedKeys(w, path, depth, m, c, order);
    if k in Verified(done) {
      var x :| x in done && x.ok && x.key == k;
      var i :| 0 <= i < |done| && done[i] == x;
      assert order[i] == k;
    }
    if k in order && Passes(w, path, depth, m, c, k) {
      var i :| 0 <= i < |order| && order[i] == k;
      assert done[i] in done;
    }
  }

  ghost function PassingKeys(w: World, path: Path, depth: nat, m: Message, c: DnsClass): set<RrKey> {
    set k | k in KeysToCheck(m, depth) && Passes(w, path, depth, m, c, k)
  }

  lemma OrderCovers(w: World, path: Path, keys: set<RrKey>)
    requires FinishesAll(w)
    ensures forall k :: k in w.order(path, keys) <==> k in keys
    ensures keys != {} ==> w.order(path, keys) != []
  {
    var order := w.order(path, keys);
    assert multiset(order) == multiset(keys);
    forall k ensures k in order <==> k in keys {
      assert k in order <==> k in multiset(order);
    }
    if keys != {} {
      var k :| k in keys;
      assert k in order;
    }
  }

  lemma VerifiedArePassing(w: World, path: Path, depth: nat, m: Message, c: DnsClass, order: seq<RrKey>)
    requires forall k :: k in order <==> k in KeysToCheck(m, depth)
    ensures Verified(CheckAll(w, path, depth, m, c, order)) == PassingKeys(w, path, depth, m, c)
  {
    forall k ensures k in Verified(CheckAll(w, path, depth, m, c, order)) <==> k in PassingKeys(w, path, depth, m, c) {
      VerifiedExactly(w, path, depth, m, c, order, k);
    }
  }

  /** The check that is the last to finish. */
  ghost function LastChecked(w: World, path: Path, keys: set<RrKey>): RrKey
    requires FinishesAll(w) && keys != {}
  {
    OrderCovers(w, path, keys);
    Last(w.order(path, keys))
  }

  /** verify_rrsets whatever the order: an error exactly when there is nothing to check or the last
      check to finish fails, and otherwise the message cut down to the keys that pass. */
  lemma VerifyRrsetsExactly(w: World, path: Path, depth: nat, m: Message, c: DnsClass)
    requires FinishesAll(w)
    ensures KeysToCheck(m, depth) == {} ==> VerifyRrsets(w, path, depth, m, c).Err?
    ensures KeysToCheck(m, depth) != {} ==>
              VerifyRrsets(w, path, depth, m, c) ==
              (if Passes(w, path, depth, m, c, LastChecked(w, path, KeysToCheck(m, depth)))
               then Ok(Filtered(m, PassingKeys(w, path, depth, m, c))) else Err)
  {
    var keys := KeysToCheck(m, depth);
    if keys != {} {
      OrderCovers(w, path, keys);
      SettledExactly(w, path, depth, m, c, w.order(path, keys));
    }
  }

  lemma SettledExactly(w: World, path: Path, depth: nat, m: Message, c: DnsClass, order: seq<RrKey>)
    requires order != [] && forall k :: k in order <==> k in KeysToCheck(m, depth)
    ensures Settle(CheckAll(w, path, depth, m, c, order), m) ==
            (if Passes(w, path, depth, m, c, Last(order)) then Ok(Filtered(m, PassingKeys(w, path, depth, m, c)))
             else Err)
  {
    CheckedKeys(w, path, depth, m, c, order);
    VerifiedArePassing(w, path, depth, m, c, order);
  }

  /** Two worlds that differ only in the order in which the checks of one message finish. */
  ghost predicate ReorderedAt(w: World, v: World, path: Path) {
    && v == w.(order := v.order)
    && forall p: Path, ks: set<RrKey> :: |p| > |path| ==> v.order(p, ks) == w.order(p, ks)
  }

  /** For every order in which the checks of a message finish: the same keys pass, so wherever the
      result is not an error it is the same message. */
  lemma OrderDoesNotMatter(w: World, v: World, path: Path, depth: nat, m: Message, c: DnsClass)
    requires FinishesAll(w) && FinishesAll(v) && ReorderedAt(w, v, path)
    ensures PassingKeys(v, path, depth, m, c) == PassingKeys(w, path, depth, m, c)
    ensures VerifyRrsets(w, path, depth, m, c).Ok? && VerifyRrsets(v, path, depth, m, c).Ok? ==>
              VerifyRrsets(v, path, depth, m, c) == VerifyRrsets(w, path, depth, m, c)
  {
    SamePassing(w, v, path, depth, m, c);
    VerifyRrsetsExactly(w, path, depth, m, c);
    VerifyRrsetsExactly(v, path, depth, m, c);
  }

  lemma SamePassing(w: World, v: World, path: Path, depth: nat, m: Message, c: DnsClass)
    requires ReorderedAt(w, v, path)
    ensures PassingKeys(v, path, depth, m, c) == PassingKeys(w, path, depth, m, c)
  {
    var hi := |path| + MAX_DEPTH;
    assert Agree(w, v, |path|, hi);
    forall k ensures Passes(v, path, depth, m, c, k) == Passes(w, path, depth, m, c, k) {
      RrsetAgrees(w, v, |path|, hi, path, depth + 1, k, RrsetOf(m, k, c), Covering(AllRecords(m), k.rtype));
    }
  }

  lemma {:induction false} KeptHas(rs: seq<Record>, keys: set<RrKey>, r: Record)
    ensures r in Kept(rs, keys) <==> r in rs && RecordKey(r) in keys
    decreases |rs|
  {
    if rs != [] {
      KeptHas(rs[1..], keys, r);
      assert rs == [rs[0]] + rs[1..];
    }
  }

  /** Whatever a validation returns comes from the server's answer and was checked: no signature
      records, and for a nested query keys and delegations only. */
  lemma ValidatedHolds(w: World, path: Path, depth: nat, q: Query, r: Record)
    requires FinishesAll(w) && Send(w, path, depth, q).Ok? && r in AllRecords(Send(w, path, depth, q).value)
    ensures w.serve(path, q).Some? && r in AllRecords(w.serve(path, q).value)
    ensures r.rtype != RRSIG && (depth > 0 ==> r.rtype == DNSKEY || r.rtype == DS)
  {
    var m := w.serve(path, q).value;
    var keys := KeysToCheck(m, depth + 1);
    VerifyRrsetsExactly(w, path, depth + 1, m, q.qclass);
    FilteredHas(m, PassingKeys(w, path, depth + 1, m, q.qclass), r);
  }

  lemma FilteredHas(m: Message, keys: set<RrKey>, r: Record)
    ensures r in AllRecords(Filtered(m, keys)) <==> r in AllRecords(m) && RecordKey(r) in keys
  {
    KeptHas(m.answers, keys, r);
    KeptHas(m.nameServers, keys, r);
    KeptHas(m.additionals, keys, r);
  }

  // ----- What does validate -----

  /** A signature checks out: the answer for its signer's keys, four levels down, is validated and
      one of its keys verifies the signature over the set. */
  ghost predicate SignatureChecks(w: World, path: Path, depth: nat, k: RrKey, s: Rrset, sigs: seq<SigData>, i: nat)
    requires i < |sigs|
  {
    var r := Send(w, path + [Hop(k, Some(i))], depth + 4, Query(sigs[i].signerName, s.class_, DNSKEY));
    r.Ok? && SignedBy(w, r.value.answers, sigs[i], s)
  }

  lemma {:induction false} AnyMeansSome(w: World, path: Path, depth: nat, k: RrKey, s: Rrset,
                                        sigs: seq<SigData>, from: nat)
    requires from <= |sigs|
    ensures AnySignature(w, path, depth + 3, k, s, sigs, from) <==>
            exists i :: from <= i < |sigs| && SignatureChecks(w, path, depth, k, s, sigs, i)
    decreases |sigs| - from
  {
    if from < |sigs| {
      AnyMeansSome(w, path, depth, k, s, sigs, from + 1);
      assert AnySignature(w, path, depth + 3, k, s, sigs, from) <==>
             SignatureChecks(w, path, depth, k, s, sigs, from)
             || AnySignature(w, path, depth + 3, k, s, sigs, from + 1);
    }
  }

  ghost predicate SomeSignature(w: World, path: Path, depth: nat, k: RrKey, s: Rrset, sigs: seq<SigData>) {
    exists i :: 0 <= i < |sigs| && SignatureChecks(w, path, depth, k, s, sigs, i)
  }

  /** Some key of the set is covered by the validated delegation asked for at a depth. */
  ghost predicate DelegationChecks(w: World, path: Path, asked: nat, k: RrKey, s: Rrset) {
    var d := Send(w, path + [Hop(k, None)], asked, Query(s.name, s.class_, DS));
    d.Ok? && exists r :: r in s.records && IsDelegated(w, s.name, r, d.value.answers)
  }

  /** The signatures of a set: one checks out, by the set's own keys when it is a key set that names
      itself as signer. */
  ghost predicate SignaturesCheck(w: World, path: Path, depth: nat, k: RrKey, s: Rrset, sigs: seq<SigData>) {
    if s.rtype == DNSKEY && exists g :: g in sigs && NameEq(g.signerName, s.name)
    then exists g :: g in sigs && SignedBy(w, s.records, g, s)
    else SomeSignature(w, path, depth, k, s, sigs)
  }

  /** A key set: its signatures, if it has any, check out, and one of its keys is anchored or
      delegated to. */
  ghost predicate KeySetChecks(w: World, path: Path, depth: nat, k: RrKey, s: Rrset, sigs: seq<SigData>) {
    && (sigs == [] || SignaturesCheck(w, path, depth, k, s, sigs))
    && (|| (exists r :: r in s.records && IsAnchored(w, r))
        || DelegationChecks(w, path, if sigs == [] then depth + 3 else depth + 2, k, s))
  }

  /** What it takes for a set of an answer to be valid. */
  ghost predicate SetChecks(w: World, path: Path, depth: nat, m: Message, c: DnsClass, k: RrKey) {
    var s, sigs := RrsetOf(m, k, c), Covering(AllRecords(m), k.rtype);
    if k.rtype == DNSKEY then KeySetChecks(w, path, depth, k, s, sigs)
    else SignaturesCheck(w, path, depth, k, s, sigs)
  }

  lemma {:induction false} AnchoredSome(w: World, rs: seq<Record>)
    ensures Anchored(w, rs) != [] <==> exists r :: r in rs && IsAnchored(w, r)
    decreases |rs|
  {
    if rs != [] {
      AnchoredSome(w, rs[1..]);
      assert rs == [rs[0]] + rs[1..];
    }
  }

  lemma {:induction false} DelegatedSome(w: World, name: Name, rs: seq<Record>, ds: seq<Record>)
    ensures Delegated(w, name, rs, ds) != [] <==> exists r :: r in rs && IsDelegated(w, name, r, ds)
    decreases |rs|
  {
    if rs != [] {
      DelegatedSome(w, name, rs[1..], ds);
      assert rs == [rs[0]] + rs[1..];
    }
  }

  lemma DnskeyExactly(w: World, path: Path, asked: nat, k: RrKey, s: Rrset)
    ensures VerifyDnskeyRrset(w, path, asked, k, s).Ok? <==>
            (exists r :: r in s.records && IsAnchored(w, r)) || DelegationChecks(w, path, asked, k, s)
  {
    AnchoredSome(w, s.records);
    var d := Send(w, path + [Hop(k, None)], asked, Query(s.name, s.class_, DS));
    if d.Ok? {
      DelegatedSome(w, s.name, s.records, d.value.answers);
    }
  }

  lemma DefaultExactly(w: World, path: Path, depth: nat, k: RrKey, s: Rrset, sigs: seq<SigData>)
    ensures VerifyDefaultRrset(w, path, depth + 3, k, s, sigs) <==> SignaturesCheck(w, path, depth, k, s, sigs)
  {
    AnyMeansSome(w, path, depth, k, s, sigs, 0);
  }

  lemma RrsetExactly(w: World, path: Path, depth: nat, k: RrKey, s: Rrset, sigs: seq<SigData>)
    ensures VerifyRrset(w, path, depth + 2, k, s, sigs).Ok? <==>
            if s.rtype == DNSKEY then KeySetChecks(w, path, depth, k, s, sigs)
            else SignaturesCheck(w, path, depth, k, s, sigs)
  {
    DefaultExactly(w, path, depth, k, s, sigs);
    DnskeyExactly(w, path, depth + 3, k, s);
    DnskeyExactly(w, path, depth + 2, k, s);
  }

  /** A check passes exactly when its set checks out. */
  lemma PassesExactly(w: World, path: Path, depth: nat, m: Message, c: DnsClass, k: RrKey)
    ensures Passes(w, path, depth + 1, m, c, k) <==> SetChecks(w, path, depth, m, c, k)
  {
    RrsetExactly(w, path, depth, k, RrsetOf(m, k, c), Covering(AllRecords(m), k.rtype));
  }

  ghost function ValidKeys(w: World, path: Path, depth: nat, m: Message, c: DnsClass): set<RrKey> {
    set k | k in KeysToCheck(m, depth + 1) && SetChecks(w, path, depth, m, c, k)
  }

  /** What a validated query returns, for every answer: its sections cut down to the sets that check
      out.  It fails exactly when nothing is to be checked, the set whose check finishes last does
      not check out, or no answer is left and the NSEC records that are do not deny the question. */
  lemma SendExactly(w: World, path: Path, depth: nat, q: Query, m: Message)
    requires FinishesAll(w) && depth <= MAX_DEPTH && w.serve(path, q) == Some(m)
    ensures var keys, v := KeysToCheck(m, depth + 1), Filtered(m, ValidKeys(w, path, depth, m, q.qclass));
            Send(w, path, depth, q) ==
            (if && keys != {} && SetChecks(w, path, depth, m, q.qclass, LastChecked(w, path, keys))
                && (v.answers != [] || VerifyNsec(q.name, q.qtype, NsecsOf(v.nameServers)))
             then Ok(v) else Err)
  {
    VerifyRrsetsExactly(w, path, depth + 1, m, q.qclass);
    PassingAreValid(w, path, depth, m, q.qclass);
    if KeysToCheck(m, depth + 1) != {} {
      PassesExactly(w, path, depth, m, q.qclass, LastChecked(w, path, KeysToCheck(m, depth + 1)));
    }
  }

  lemma PassingAreValid(w: World, path: Path, depth: nat, m: Message, c: DnsClass)
    ensures PassingKeys(w, path, depth + 1, m, c) == ValidKeys(w, path, depth, m, c)
  {
    forall k ensures Passes(w, path, depth + 1, m, c, k) == SetChecks(w, path, depth, m, c, k) {
      PassesExactly(w, path, depth, m, c, k);
    }
  }

  /** So a record of the answer is in a validated result exactly when it was to be checked and its set
      checks out. */
  lemma ValidatedExactly(w: World, path: Path, depth: nat, q: Query, m: Message, r: Record)
    requires FinishesAll(w) && w.serve(path, q) == Some(m) && Send(w, path, depth, q).Ok? && r in AllRecords(m)
    ensures r in AllRecords(Send(w, path, depth, q).value) <==>
            RecordKey(r) in KeysToCheck(m, depth + 1) && SetChecks(w, path, depth, m, q.qclass, RecordKey(r))
  {
    SendExactly(w, path, depth, q, m);
    FilteredHas(m, ValidKeys(w, path, depth, m, q.qclass), r);
  }

  // ----- Which keys of a set are valid, and which are returned -----

  /** The records that the check of a key set leaves in it. */
  ghost function KeptKeys(w: World, path: Path, depth: nat, m: Message, c: DnsClass, k: RrKey): seq<Record>
    requires Passes(w, path, depth + 1, m, c, k)
  {
    VerifyRrset(w, path, depth + 2, k, RrsetOf(m, k, c), Covering(AllRecords(m), k.rtype)).value.records
  }

  /** A key that its set is valid for: anchored, when some key of the set is, and delegated to by the
      validated DS answer otherwise. */
  ghost predicate Trusted(w: World, path: Path, depth: nat, m: Message, c: DnsClass, k: RrKey, r: Record) {
    var s, sigs := RrsetOf(m, k, c), Covering(AllRecords(m), k.rtype);
    if exists x :: x in s.records && IsAnchored(w, x) then IsAnchored(w, r)
    else
      var asked := if sigs == [] then depth + 3 else depth + 2;
      var d := Send(w, path + [Hop(k, None)], asked, Query(s.name, s.class_, DS));
      d.Ok? && IsDelegated(w, s.name, r, d.value.answers)
  }

  lemma {:induction false} OfKeyHas(rs: seq<Record>, k: RrKey, r: Record)
    ensures r in OfKey(rs, k) <==> r in rs && RecordKey(r) == k
    decreases |rs|
  {
    if rs != [] {
      OfKeyHas(rs[1..], k, r);
      assert rs == [rs[0]] + rs[1..];
    }
  }

  lemma {:induction false} AnchoredHas(w: World, rs: seq<Record>, r: Record)
    ensures r in Anchored(w, rs) <==> r in rs && IsAnchored(w, r)
    decreases |rs|
  {
    if rs != [] {
      AnchoredHas(w, rs[1..], r);
      assert rs == [rs[0]] + rs[1..];
    }
  }

  lemma {:induction false} DelegatedHas(w: World, name: Name, rs: seq<Record>, ds: seq<Record>, r: Record)
    ensures r in Delegated(w, name, rs, ds) <==> r in rs && IsDelegated(w, name, r, ds)
    decreases |rs|
  {
    if rs != [] {
      DelegatedHas(w, name, rs[1..], ds, r);
      assert rs == [rs[0]] + rs[1..];
    }
  }

  lemma DnskeyKeeps(w: World, path: Path, asked: nat, k: RrKey, s: Rrset, r: Record)
    requires VerifyDnskeyRrset(w, path, asked, k, s).Ok?
    ensures r in VerifyDnskeyRrset(w, path, asked, k, s).value.records <==>
            r in s.records &&
            if exists x :: x in s.records && IsAnchored(w, x) then IsAnchored(w, r)
            else
              var d := Send(w, path + [Hop(k, None)], asked, Query(s.name, s.class_, DS));
              d.Ok? && IsDelegated(w, s.name, r, d.value.answers)
  {
    AnchoredSome(w, s.records);
    AnchoredHas(w, s.records, r);
    var d := Send(w, path + [Hop(k, None)], asked, Query(s.name, s.class_, DS));
    if d.Ok? {
      DelegatedHas(w, s.name, s.records, d.value.answers, r);
    }
  }

  /** preserve leaves exactly the trusted keys of a valid set in it. */
  lemma KeptExactly(w: World, path: Path, depth: nat, m: Message, c: DnsClass, k: RrKey, r: Record)
    requires k.rtype == DNSKEY && Passes(w, path, depth + 1, m, c, k)
    ensures r in KeptKeys(w, path, depth, m, c, k) <==>
            r in AllRecords(m) && RecordKey(r) == k && Trusted(w, path, depth, m, c, k, r)
  {
    var s, sigs := RrsetOf(m, k, c), Covering(AllRecords(m), k.rtype);
    OfKeyHas(AllRecords(m), k, r);
    DnskeyKeeps(w, path, if sigs == [] then depth + 3 else depth + 2, k, s, r);
  }

  /** Every key that a validated answer returns of a set is one that preserve left in it. */
  ghost predicate ReturnsKept(w: World, path: Path, depth: nat, q: Query, m: Message, k: RrKey)
    requires Passes(w, path, depth + 1, m, q.qclass, k) && Send(w, path, depth, q).Ok?
  {
    forall r :: r in AllRecords(Send(w, path, depth, q).value) && RecordKey(r) == k ==>
      r in KeptKeys(w, path, depth, m, q.qclass, k)
  }

  /** Every key of a set in the answer is trusted. */
  ghost predicate AllTrusted(w: World, path: Path, depth: nat, m: Message, c: DnsClass, k: RrKey) {
    forall r :: r in AllRecords(m) && RecordKey(r) == k ==> Trusted(w, path, depth, m, c, k, r)
  }

  /** A valid key set is returned as it was answered, so what is returned of it are the keys that
      preserve left in it exactly when every key of the set in the answer is trusted. */
  lemma ReturnsKeptExactly(w: World, path: Path, depth: nat, q: Query, m: Message, k: RrKey)
    requires FinishesAll(w) && w.serve(path, q) == Some(m) && Send(w, path, depth, q).Ok?
    requires k.rtype == DNSKEY && k in KeysToCheck(m, depth + 1) && Passes(w, path, depth + 1, m, q.qclass, k)
    ensures ReturnsKept(w, path, depth, q, m, k) <==> AllTrusted(w, path, depth, m, q.qclass, k)
  {
    PassesExactly(w, path, depth, m, q.qclass, k);
    forall r | RecordKey(r) == k
      ensures r in AllRecords(Send(w, path, depth, q).value) <==> r in AllRecords(m)
      ensures r in KeptKeys(w, path, depth, m, q.qclass, k) <==>
              r in AllRecords(m) && Trusted(w, path, depth, m, q.qclass, k, r)
    {
      SendReturns(w, path, depth, q, m, r);
      KeptExactly(w, path, depth, m, q.qclass, k, r);
    }
  }

  lemma SendReturns(w: World, path: Path, depth: nat, q: Query, m: Message, r: Record)
    requires FinishesAll(w) && w.serve(path, q) == Some(m) && Send(w, path, depth, q).Ok?
    requires RecordKey(r) in KeysToCheck(m, depth + 1) && SetChecks(w, path, depth, m, q.qclass, RecordKey(r))
    ensures r in AllRecords(Send(w, path, depth, q).value) <==> r in AllRecords(m)
  {
    SendExactly(w, path, depth, q, m);
    FilteredHas(m, ValidKeys(w, path, depth, m, q.qclass), r);
  }

  /** The records of one key are returned together or not at all. */
  lemma KeysReturnedWhole(w: World, path: Path, depth: nat, q: Query, m: Message, a: Record, b: Record)
    requires FinishesAll(w) && w.serve(path, q) == Some(m) && Send(w, path, depth, q).Ok?
    requires a in AllRecords(m) && b in AllRecords(m) && RecordKey(a) == RecordKey(b)
    ensures a in AllRecords(Send(w, path, depth, q).value) <==> b in AllRecords(Send(w, path, depth, q).value)
  {
    ValidatedExactly(w, path, depth, q, m, a);
    ValidatedExactly(w, path, depth, q, m, b);
  }

  ghost predicate AllOfKey(rs: seq<Record>, k: RrKey) {
    forall r :: r in rs ==> RecordKey(r) == k
  }

  lemma {:induction false} WholeSet(rs: seq<Record>, k: RrKey)
    requires AllOfKey(rs, k) && k.rtype != RRSIG
    ensures OfKey(rs, k) == rs && Kept(rs, {k}) == rs && Covering(rs, k.rtype) == []
    decreases |rs|
  {
    if rs != [] {
      assert rs[0] in rs;
      WholeSet(rs[1..], k);
    }
  }

  lemma OnlyOne(order: seq<RrKey>, k: RrKey)
    requires multiset(order) == multiset({k})
    ensures order == [k]
  {
    assert |multiset(order)| == |order| == 1;
    assert order[0] in multiset(order);
  }

  /** Where trust begins: an unsigned answer of one key set that holds an anchored key validates as
      it is, without a further query, any other keys of the set included. */
  lemma AnchoredKeysValidate(w: World, path: Path, depth: nat, q: Query, m: Message, k: RrKey, r: Record)
    requires FinishesAll(w) && depth <= MAX_DEPTH && w.serve(path, q) == Some(m)
    requires k.rtype == DNSKEY && AllOfKey(AllRecords(m), k) && r in m.answers && IsAnchored(w, r)
    ensures Send(w, path, depth, q) == Ok(m)
  {
    OnlyKey(m, depth + 1, k, r);
    assert multiset(w.order(path, {k})) == multiset({k});
    OnlyOne(w.order(path, {k}), k);
    AnchoredSetChecks(w, path, depth, m, q.qclass, k, r);
    assert ValidKeys(w, path, depth, m, q.qclass) == {k};
    SendExactly(w, path, depth, q, m);
    WholeSet(m.answers, k);
    WholeSet(m.nameServers, k);
    WholeSet(m.additionals, k);
  }

  lemma OnlyKey(m: Message, depth: nat, k: RrKey, r: Record)
    requires k.rtype == DNSKEY && AllOfKey(AllRecords(m), k) && r in m.answers
    ensures KeysToCheck(m, depth) == {k}
    ensures AllOfKey(m.answers, k) && AllOfKey(m.nameServers, k) && AllOfKey(m.additionals, k)
  {
    assert forall x :: x in m.answers || x in m.nameServers || x in m.additionals <==> x in AllRecords(m);
    assert r in m.answers + m.nameServers;
  }

  lemma AnchoredSetChecks(w: World, path: Path, depth: nat, m: Message, c: DnsClass, k: RrKey, r: Record)
    requires k.rtype == DNSKEY && AllOfKey(AllRecords(m), k) && r in m.answers && IsAnchored(w, r)
    ensures SetChecks(w, path, depth, m, c, k)
  {
    WholeSet(AllRecords(m), k);
    assert r in AllRecords(m);
    assert r in RrsetOf(m, k, c).records;
  }

  // ----- A key that is returned though it was not kept -----

  lemma {:induction false} AscendingIsSet(ks: seq<RrKey>)
    requires Ascending(ks)
    ensures multiset(ks) == multiset(set k | k in ks)
    decreases |ks|
  {
    if ks != [] {
      AscendingTail(ks);
      KeyOrder(ks[0], ks[0], ks[0]);
      AscendingIsSet(ks[1..]);
      assert ks == [ks[0]] + ks[1..];
      assert (set k | k in ks) == {ks[0]} + set k | k in ks[1..];
    }
  }

  lemma InOrderIsSet(ks: set<RrKey>)
    ensures multiset(InOrder(ks)) == multiset(ks)
  {
    AscendingIsSet(InOrder(ks));
    assert (set k | k in InOrder(ks)) == ks;
  }

  const ANCHOR: Bytes := [1]
  const FOREIGN: Bytes := [2]

  function KeyRecord(key: Bytes): Record {
    Record([], DNSKEY, IN, 0, DnsKey(key))
  }

  /** The root's key set of two keys, not signed. */
  function TwoKeys(): Message {
    Message([KeyRecord(ANCHOR), KeyRecord(FOREIGN)], [], [])
  }

  /** A server that always answers with the two keys, and a trust anchor that holds the first. */
  function TwoKeyWorld(): World {
    World((p: Path, q: Query) => Some(TwoKeys()), (p: Path, ks: set<RrKey>) => InOrder(ks),
          (key: Bytes, g: SigData, s: Rrset) => false, (d: Record, n: Name, key: Bytes) => false,
          (key: Bytes) => key == ANCHOR)
  }

  /** The foreign key is in the validated answer, and not among the keys left in its set. */
  lemma ForeignKeyReturned(path: Path, depth: nat, q: Query, w: World)
    requires w == TwoKeyWorld() && depth <= MAX_DEPTH
    ensures FinishesAll(w) && Send(w, path, depth, q) == Ok(TwoKeys())
    ensures KeyRecord(FOREIGN) in Send(w, path, depth, q).value.answers
    ensures Passes(w, path, depth + 1, TwoKeys(), q.qclass, RrKey([], DNSKEY))
    ensures KeyRecord(FOREIGN) !in KeptKeys(w, path, depth, TwoKeys(), q.qclass, RrKey([], DNSKEY))
  {
    var m, k, a := TwoKeys(), RrKey([], DNSKEY), KeyRecord(ANCHOR);
    forall p: Path, ks: set<RrKey> ensures multiset(w.order(p, ks)) == multiset(ks) {
      InOrderIsSet(ks);
    }
    TwoKeysOfRoot(m, k);
    AnchoredKeysValidate(w, path, depth, q, m, k, a);
    AnchoredSetChecks(w, path, depth, m, q.qclass, k, a);
    PassesExactly(w, path, depth, m, q.qclass, k);
    KeptExactly(w, path, depth, m, q.qclass, k, KeyRecord(FOREIGN));
    WholeSet(AllRecords(m), k);
  }

  lemma TwoKeysOfRoot(m: Message, k: RrKey)
    requires m == TwoKeys() && k == RrKey([], DNSKEY)
    ensures AllOfKey(AllRecords(m), k) && KeyRecord(ANCHOR) in m.answers && KeyRecord(FOREIGN) in m.answers
  {
    assert Lower([]) == [];
  }

  // ----- The checks of one message, polled in place -----

  datatype Progress = Ready(message: Message) | Failure | NotReady

  class VerifyRrsetsFuture {
    var message: Option<Message>
    var rrsets: set<RrKey>
    var verified: set<RrKey>
    ghost var original: Message
    ghost var done: seq<Completion>

    constructor (m: Message, keys: set<RrKey>)
      requires keys != {}
      ensures Valid() && original == m && rrsets == keys && done == []
    {
      message, rrsets, verified := Some(m), keys, {};
      original, done := m, [];
    }

    /** While checks are under way the message is kept, and the keys verified are those of the
        checks that finished well. */
    ghost predicate Valid()
      reads this
    {
      message == Some(original) && rrsets != {} && verified == Verified(done)
    }

    /** Take the checks that have finished, one by one, until none is left or none is ready. */
    method Poll(finished: seq<Completion>) returns (r: Progress, ghost used: nat)
      requires Valid()
      requires forall i :: 0 <= i < |finished| ==> finished[i].key in rrsets
      requires forall i, j :: 0 <= i < j < |finished| ==> finished[i].key != finished[j].key
      modifies this`message, this`rrsets, this`verified, this`done
      ensures used <= |finished| && done == old(done) + finished[..used]
      ensures r.NotReady? ==> Valid() && used == |finished|
      ensures !r.NotReady? ==> rrsets == {}
      ensures match Settle(done, original) case Err => !r.Ready? case Ok(m) => r == Ready(m) || r.NotReady?
    {
      used := 0;
      for i := 0 to |finished|
        invariant Valid() && used == i && done == old(done) + finished[..i]
        invariant forall j :: i <= j < |finished| ==> finished[j].key in rrsets
      {
        var c := finished[i];
        assert finished[..i + 1] == finished[..i] + [c];
        VerifiedSnoc(done, c);
        rrsets := rrsets - {c.key};
        used, done := i + 1, done + [c];
        if c.ok {
          verified := verified + {c.key};
        } else if rrsets == {} {
          return Failure, used;
        }
        if rrsets == {} {
          var m := message.value;
          message := None;
          return Ready(Filtered(m, verified)), used;
        }
      }
      assert finished[..|finished|] == finished;
      return NotReady, used;
    }
  }

  lemma VerifiedSnoc(done: seq<Completion>, c: Completion)
    ensures Verified(done + [c]) == Verified(done) + if c.ok then {c.key} else {}
  {
    var more := done + [c];
    forall k ensures k in Verified(more) <==> k in Verified(done) || (c.ok && k == c.key) {
      if k in Verified(more) {
        var d :| d in more && d.ok && d.key == k;
        assert d in done || d == c;
      }
      if k in Verified(done) {
        var d :| d in done && d.ok && d.key == k;
        assert d in more;
      }
      if c.ok && k == c.key {
        assert c in more;
      }
    }
  }
}
