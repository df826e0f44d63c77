/** The octets that an RRSIG signs (client/src/rr/dnssec/signer.rs, section 5.3.2 of RFC 4035):
    the signer builds them from the zone, the validator builds them again from a response. */
module SignedData {
  import opened Basics
  import opened Names
  import opened Records

  /** How record data is written: `wire` as it is sorted by, what could be written of the plain form,
      and `canon` the canonical form. */
  datatype Format = Format(wire: RData -> Bytes, canon: RData -> Bytes)

  function U16Octets(x: int): Bytes {
    [x / 0x100 % 0x100, x % 0x100]
  }

  function U32Octets(x: U32): Bytes {
    [x / 0x100_0000, x / 0x1_0000 % 0x100, x / 0x100 % 0x100, x % 0x100]
  }

  function NameOctets(n: Name): Bytes {
    if n == [] then [0] else [|n[0]| % 0x100] + n[0] + NameOctets(n[1..])
  }

  /** A name that the encoder accepts: labels up to 255 octets, 255 octets in all. */
  predicate Emittable(n: Name) {
    (forall i :: 0 <= i < |n| ==> |n[i]| <= 255) && |NameOctets(n)| <= 255
  }

  // ----- determine_name -----

  /** The owner name to sign under, from the RRSIG's label count. */
  function DetermineName(name: Name, numLabels: Byte): Option<Name> {
    if NumLabels(name) == numLabels then Some(name)
    else if numLabels < NumLabels(name) then
      var rightmost := TrimTo(name, numLabels);
      Some([STAR] + rightmost)
    else None
  }

  // ----- Sorting the records -----

  predicate Selected(r: Record, name: Name, class_: DnsClass, t: RecordType) {
    class_ == r.class_ && t == r.rtype && NameEq(name, r.name)
  }

  function Select(rs: seq<Record>, name: Name, class_: DnsClass, t: RecordType): seq<Record> {
    if rs == [] then []
    else if Selected(rs[0], name, class_, t) then [rs[0]] + Select(rs[1..], name, class_, t)
    else Select(rs[1..], name, class_, t)
  }

  function CmpInt(a: int, b: int): Ordering {
    if a < b then Less else if a == b then Equal else Greater
  }

  function Then(a: Ordering, b: Ordering): Ordering {
    if a == Equal then b else a
  }

  /** The derived order of records: name, type, class, TTL, and the octets of the data. */
  function CmpRecords(f: Format, a: Record, b: Record): Ordering {
    Then(CmpNames(Lower(a.name), Lower(b.name)),
    Then(CmpInt(Code(a.rtype), Code(b.rtype)),
    Then(CmpInt(ClassCode(a.class_), ClassCode(b.class_)),
    Then(CmpInt(a.ttl, b.ttl),
         CmpBytes(f.wire(a.rdata), f.wire(b.rdata))))))
  }

  function InsertSorted(f: Format, r: Record, rs: seq<Record>): seq<Record> {
    if rs == [] then [r]
    else if CmpRecords(f, r, rs[0]) != Greater then [r] + rs
    else [rs[0]] + InsertSorted(f, r, rs[1..])
  }

  /** A stable sort. */
  function Sort(f: Format, rs: seq<Record>): seq<Record> {
    if rs == [] then [] else InsertSorted(f, rs[0], Sort(f, rs[1..]))
  }

  // ----- hash_rrset -----

  datatype SigFields = SigFields(typeCovered: RecordType, algorithm: Byte, numLabels: Byte,
                                 originalTtl: U32, expiration: U32, inception: U32,
                                 keyTag: U16, signerName: Name)

  datatype HashResult = Hashed(data: Bytes) | NoName | EmitFailed

  function PreSig(s: SigFields): Bytes {
    U16Octets(Code(s.typeCovered)) + [s.algorithm] + [s.numLabels] + U32Octets(s.originalTtl) +
    U32Octets(s.expiration) + U32Octets(s.inception) + U16Octets(s.keyTag) + NameOctets(s.signerName)
  }

  function RecordOctets(owner: Name, class_: DnsClass, s: SigFields, data: Bytes): Bytes {
    NameOctets(owner) + U16Octets(Code(s.typeCovered)) + U16Octets(ClassCode(class_)) +
    U32Octets(s.originalTtl) + U16Octets(|data|) + data
  }

  function RecordsOctets(f: Format, owner: Name, class_: DnsClass, s: SigFields, rs: seq<Record>): Bytes {
    if rs == [] then []
    else RecordOctets(owner, class_, s, f.canon(rs[0].rdata)) + RecordsOctets(f, owner, class_, s, rs[1..])
  }

  function HashRrset(f: Format, name: Name, class_: DnsClass, s: SigFields, records: seq<Record>): HashResult {
    var rrset := Sort(f, Select(records, name, class_, s.typeCovered));
    match DetermineName(name, s.numLabels)
    case None => NoName
    case Some(owner) =>
      if !Emittable(s.signerName) || (rrset != [] && !Emittable(Lower(owner))) then EmitFailed
      else Hashed(PreSig(s.(numLabels := NumLabels(owner))) +
                  RecordsOctets(f, Lower(owner), class_, s, rrset))
  }

  method CollectRrset(name: Name, class_: DnsClass, t: RecordType, records: seq<Record>) returns (rrset: seq<Record>)
    ensures rrset == Select(records, name, class_, t)
  {
    rrset := [];
    var i := 0;
    assert records[0..] == records;
    while i < |records|
      invariant i <= |records|
      invariant Select(records, name, class_, t) == rrset + Select(records[i..], name, class_, t)
    {
      assert records[i..][1..] == records[i + 1..];
      if class_ == records[i].class_ && t == records[i].rtype && NameEq(name, records[i].name) {
        rrset := rrset + [records[i]];
      }
      i := i + 1;
    }
  }

  method WriteRecords(f: Format, owner: Name, class_: DnsClass, s: SigFields, rrset: seq<Record>, head: Bytes)
    returns (buf: Bytes)
    ensures buf == head + RecordsOctets(f, owner, class_, s, rrset)
  {
    buf := head;
    var i := 0;
    assert rrset[0..] == rrset;
    while i < |rrset|
      invariant i <= |rrset|
      invariant head + RecordsOctets(f, owner, class_, s, rrset) == buf + RecordsOctets(f, owner, class_, s, rrset[i..])
    {
      assert rrset[i..][1..] == rrset[i + 1..];
      buf := buf + RecordOctets(owner, class_, s, f.canon(rrset[i].rdata));
      i := i + 1;
    }
    assert buf + [] == buf;
  }

  /** hash_rrset as written: collect the records of the set, sort them, and write the buffer
      record by record. */
  method BuildHash(f: Format, name: Name, class_: DnsClass, s: SigFields, records: seq<Record>) returns (r: HashResult)
    ensures r == HashRrset(f, name, class_, s, records)
  {
    var rrset := CollectRrset(name, class_, s.typeCovered, records);
    rrset := Sort(f, rrset);
    var determined := DetermineName(name, s.numLabels);
    if determined.None? {
      return NoName;
    }
    var owner := determined.value;
    if !Emittable(s.signerName) || (rrset != [] && !Emittable(Lower(owner))) {
      return EmitFailed;
    }
    var buf := PreSig(s.(numLabels := NumLabels(owner)));
    buf := WriteRecords(f, Lower(owner), class_, s, rrset, buf);
    r := Hashed(buf);
  }

  function FieldsOf(s: SigData): SigFields {
    SigFields(s.typeCovered, s.algorithm, s.numLabels, s.originalTtl, s.expiration, s.inception,
              s.keyTag, s.signerName)
  }

  /** What the validator computes from a received RRSIG. */
  function HashRrsetWithSig(f: Format, name: Name, class_: DnsClass, s: SigData, records: seq<Record>): HashResult {
    HashRrset(f, name, class_, FieldsOf(s), records)
  }

  // ----- The sorted records, reduced to what their order and their octets depend on -----

  datatype Pair = Pair(ttl: U32, wire: Bytes)

  function PairOf(f: Format, r: Record): Pair {
    Pair(r.ttl, f.wire(r.rdata))
  }

  /** The pairs of some records, without their order. */
  ghost function Bag(f: Format, rs: seq<Record>): multiset<Pair> {
    if rs == [] then multiset{} else multiset{PairOf(f, rs[0])} + Bag(f, rs[1..])
  }

  function CmpPairs(a: Pair, b: Pair): Ordering {
    Then(CmpInt(a.ttl, b.ttl), CmpBytes(a.wire, b.wire))
  }

  lemma PairOrder(a: Pair, b: Pair, c: Pair)
    ensures CmpPairs(a, b) == Equal <==> a == b
    ensures CmpPairs(b, a) == Flip(CmpPairs(a, b))
    ensures CmpPairs(a, b) != Greater && CmpPairs(b, c) != Greater ==> CmpPairs(a, c) != Greater
  {
    CmpBytesEqual(a.wire, b.wire);
    CmpBytesFlip(a.wire, b.wire);
    if CmpBytes(a.wire, b.wire) != Greater && CmpBytes(b.wire, c.wire) != Greater {
      CmpBytesTrans(a.wire, b.wire, c.wire);
    }
  }

  /** Ascending pairs: each is at or before everything in the rest. */
  ghost predicate SortedRecords(f: Format, rs: seq<Record>) {
    rs != [] ==> Below(PairOf(f, rs[0]), Bag(f, rs[1..])) && SortedRecords(f, rs[1..])
  }

  ghost predicate Below(p: Pair, bag: multiset<Pair>) {
    forall q :: q in bag ==> CmpPairs(p, q) != Greater
  }

  ghost predicate AllSelected(rs: seq<Record>, name: Name, class_: DnsClass, t: RecordType) {
    forall r :: r in rs ==> Selected(r, name, class_, t)
  }

  lemma CmpSelected(f: Format, a: Record, b: Record, name: Name, class_: DnsClass, t: RecordType)
    requires Selected(a, name, class_, t) && Selected(b, name, class_, t)
    ensures CmpRecords(f, a, b) == CmpPairs(PairOf(f, a), PairOf(f, b))
  {
    CmpNamesEqual(Lower(a.name), Lower(b.name));
  }

  lemma BelowTrans(p: Pair, q: Pair, bag: multiset<Pair>)
    requires CmpPairs(p, q) != Greater && Below(q, bag)
    ensures Below(p, multiset{q} + bag)
  {
    forall x | x in multiset{q} + bag ensures CmpPairs(p, x) != Greater {
      PairOrder(p, q, x);
    }
  }

  lemma {:induction false} InsertSortedRecords(f: Format, r: Record, rs: seq<Record>, name: Name,
                                               class_: DnsClass, t: RecordType)
    requires AllSelected(rs, name, class_, t) && Selected(r, name, class_, t)
    requires SortedRecords(f, rs)
    ensures AllSelected(InsertSorted(f, r, rs), name, class_, t)
    ensures SortedRecords(f, InsertSorted(f, r, rs))
    ensures Bag(f, InsertSorted(f, r, rs)) == multiset{PairOf(f, r)} + Bag(f, rs)
  {
    if rs != [] {
      assert rs[0] in rs;
      CmpSelected(f, r, rs[0], name, class_, t);
      if CmpRecords(f, r, rs[0]) != Greater {
        BelowTrans(PairOf(f, r), PairOf(f, rs[0]), Bag(f, rs[1..]));
        assert ([r] + rs)[1..] == rs;
      } else {
        var rest := InsertSorted(f, r, rs[1..]);
        InsertSortedRecords(f, r, rs[1..], name, class_, t);
        PairOrder(PairOf(f, r), PairOf(f, rs[0]), PairOf(f, r));
        assert ([rs[0]] + rest)[1..] == rest;
      }
    }
  }

  lemma {:induction false} SortedBySort(f: Format, rs: seq<Record>, name: Name, class_: DnsClass, t: RecordType)
    requires AllSelected(rs, name, class_, t)
    ensures AllSelected(Sort(f, rs), name, class_, t)
    ensures SortedRecords(f, Sort(f, rs))
    ensures Bag(f, Sort(f, rs)) == Bag(f, rs)
  {
    if rs != [] {
      assert rs[0] in rs;
      SortedBySort(f, rs[1..], name, class_, t);
      InsertSortedRecords(f, rs[0], Sort(f, rs[1..]), name, class_, t);
    }
  }

  lemma Cancel<T>(x: T, a: multiset<T>, b: multiset<T>)
    requires multiset{x} + a == multiset{x} + b
    ensures a == b
  {
    assert a == (multiset{x} + a) - multiset{x} && b == (multiset{x} + b) - multiset{x};
  }

  predicate SamePairs(f: Format, a: seq<Record>, b: seq<Record>) {
    |a| == |b| && forall i :: 0 <= i < |a| ==> PairOf(f, a[i]) == PairOf(f, b[i])
  }

  predicate SameCanon(f: Format, a: seq<Record>, b: seq<Record>) {
    |a| == |b| && forall i :: 0 <= i < |a| ==> f.canon(a[i].rdata) == f.canon(b[i].rdata)
  }

  lemma LeastAgree(p: Pair, x: multiset<Pair>, q: Pair, y: multiset<Pair>)
    requires Below(p, x) && Below(q, y) && multiset{p} + x == multiset{q} + y
    ensures p == q && x == y
  {
    assert q in multiset{p} + x && p in multiset{q} + y;
    PairOrder(p, q, p);
    Cancel(p, x, y);
  }

  /** Two sorted sequences with the same pairs have the same pairs in the same places. */
  lemma {:induction false} SortedUnique(f: Format, a: seq<Record>, b: seq<Record>)
    requires SortedRecords(f, a) && SortedRecords(f, b) && Bag(f, a) == Bag(f, b)
    ensures SamePairs(f, a, b)
  {
    if a == [] || b == [] {
      BagEmpty(f, a);
      BagEmpty(f, b);
    } else {
      LeastAgree(PairOf(f, a[0]), Bag(f, a[1..]), PairOf(f, b[0]), Bag(f, b[1..]));
      SortedUnique(f, a[1..], b[1..]);
      forall i | 0 <= i < |a| ensures PairOf(f, a[i]) == PairOf(f, b[i]) {
        if i > 0 { assert a[i] == a[1..][i - 1] && b[i] == b[1..][i - 1]; }
      }
    }
  }

  lemma BagEmpty(f: Format, a: seq<Record>)
    ensures Bag(f, a) == multiset{} <==> a == []
  {
    if a != [] { assert PairOf(f, a[0]) in Bag(f, a); }
  }

  /** The record octets depend only on the canonical forms, in order. */
  lemma {:induction false} OctetsOfCanon(f: Format, owner: Name, class_: DnsClass, s: SigFields, a: seq<Record>,
                                         b: seq<Record>)
    requires SameCanon(f, a, b)
    ensures RecordsOctets(f, owner, class_, s, a) == RecordsOctets(f, owner, class_, s, b)
  {
    if a != [] {
      assert forall i :: 0 <= i < |a[1..]| ==> a[1..][i] == a[i + 1] && b[1..][i] == b[i + 1];
      OctetsOfCanon(f, owner, class_, s, a[1..], b[1..]);
    }
  }

  // ----- Owner names -----

  lemma LowerStar(l: Label)
    ensures LowerLabel(l) == STAR <==> l == STAR
  {
    if LowerLabel(l) == STAR {
      assert LowerByte(l[0]) == LowerLabel(l)[0] == 42;
    }
  }

  lemma NumLabelsLower(a: Name, b: Name)
    requires NameEq(a, b)
    ensures NumLabels(a) == NumLabels(b)
  {
    assert |a| == |Lower(a)| == |Lower(b)| == |b|;
    if a != [] {
      assert Lower(a)[0] == LowerLabel(a[0]) && Lower(b)[0] == LowerLabel(b[0]);
      LowerStar(a[0]);
      LowerStar(b[0]);
    }
  }

  /** determine_name follows the case of its name and of nothing else, and its answer always has
      the label count asked for. */
  lemma DetermineNameUpToCase(a: Name, b: Name, k: Byte)
    requires NameEq(a, b) && |a| < 256
    ensures DetermineName(a, k).Some? == DetermineName(b, k).Some?
    ensures DetermineName(a, k).Some? <==> k <= NumLabels(a)
    ensures DetermineName(a, k).Some? ==> NameEq(DetermineName(a, k).value, DetermineName(b, k).value)
                                          && NumLabels(DetermineName(a, k).value) == k
                                          && NumLabels(DetermineName(b, k).value) == k
  {
    NumLabelsLower(a, b);
    assert |a| == |Lower(a)| == |Lower(b)| == |b|;
    if k < NumLabels(a) {
      StarredUpToCase(a, b, k);
      StarredLabels(TrimTo(a, k), k);
      StarredLabels(TrimTo(b, k), k);
    }
  }

  lemma StarredUpToCase(a: Name, b: Name, k: Byte)
    requires NameEq(a, b) && |a| == |b| && k <= |a|
    ensures NameEq([STAR] + TrimTo(a, k), [STAR] + TrimTo(b, k))
  {
    LowerSuffix(a, |a| - k);
    LowerSuffix(b, |b| - k);
    LowerConcat([STAR], TrimTo(a, k));
    LowerConcat([STAR], TrimTo(b, k));
  }

  lemma StarredLabels(rightmost: Name, k: Byte)
    requires |rightmost| == k && k < 255
    ensures NumLabels([STAR] + rightmost) == k
  {
  }

  /** A wildcard name and each of its expansions give the same owner name for the wildcard's
      own label count. */
  lemma DetermineNameExpansion(base: Name, prefix: Name)
    requires 1 <= |prefix| && |prefix| + |base| < 256
    ensures DetermineName([STAR] + base, |base|) == Some([STAR] + base)
    ensures DetermineName(prefix + base, |base|) == Some([STAR] + base)
  {
    assert NumLabels([STAR] + base) == |base|;
    assert (prefix + base)[|prefix + base| - |base|..] == base;
    assert (prefix + base)[0] == prefix[0];
    if NumLabels(prefix + base) == |base| {
      assert prefix == [STAR];
    }
  }

  // ----- What the signed octets do not depend on -----

  lemma {:induction false} SelectAllSelected(rs: seq<Record>, n: Name, class_: DnsClass, t: RecordType)
    ensures AllSelected(Select(rs, n, class_, t), n, class_, t)
  {
    if rs != [] { SelectAllSelected(rs[1..], n, class_, t); }
  }

  /** The signed octets from their parts: owner names equal up to case, and the same canonical forms in
      the same order once sorted, sign the same octets. */
  lemma HashFromSorted(f: Format, n: Name, m: Name, class_: DnsClass, s: SigFields, a: seq<Record>, b: seq<Record>)
    requires DetermineName(n, s.numLabels).Some? && DetermineName(m, s.numLabels).Some?
    requires NameEq(DetermineName(n, s.numLabels).value, DetermineName(m, s.numLabels).value)
    requires SameCanon(f, Sort(f, Select(a, n, class_, s.typeCovered)), Sort(f, Select(b, m, class_, s.typeCovered)))
    ensures HashRrset(f, n, class_, s, a) == HashRrset(f, m, class_, s, b)
  {
    var owner := DetermineName(n, s.numLabels).value;
    NumLabelsLower(owner, DetermineName(m, s.numLabels).value);
    OctetsOfCanon(f, Lower(owner), class_, s, Sort(f, Select(a, n, class_, s.typeCovered)),
                  Sort(f, Select(b, m, class_, s.typeCovered)));
  }

  /** Records that sort alike are written alike. */
  ghost predicate Determined(f: Format, rs: seq<Record>) {
    forall x, y :: x in rs && y in rs && PairOf(f, x) == PairOf(f, y) ==> f.canon(x.rdata) == f.canon(y.rdata)
  }

  lemma {:induction false} SortMembers(f: Format, rs: seq<Record>)
    ensures forall x :: x in Sort(f, rs) ==> x in rs
  {
    if rs != [] {
      SortMembers(f, rs[1..]);
      InsertMembers(f, rs[0], Sort(f, rs[1..]));
    }
  }

  lemma {:induction false} InsertMembers(f: Format, r: Record, rs: seq<Record>)
    ensures forall x :: x in InsertSorted(f, r, rs) ==> x == r || x in rs
  {
    if rs != [] && CmpRecords(f, r, rs[0]) == Greater {
      InsertMembers(f, r, rs[1..]);
    }
  }

  /** The same pairs, in whatever order, of records that are determined by them. */
  lemma SortedCanon(f: Format, a: seq<Record>, b: seq<Record>, n: Name, class_: DnsClass, t: RecordType)
    requires AllSelected(a, n, class_, t) && AllSelected(b, n, class_, t) && Bag(f, a) == Bag(f, b)
    requires Determined(f, a) && forall x :: x in b ==> x in a
    ensures SameCanon(f, Sort(f, a), Sort(f, b))
  {
    SortedBySort(f, a, n, class_, t);
    SortedBySort(f, b, n, class_, t);
    SortedUnique(f, Sort(f, a), Sort(f, b));
    SortMembers(f, a);
    SortMembers(f, b);
    forall i | 0 <= i < |Sort(f, a)| ensures f.canon(Sort(f, a)[i].rdata) == f.canon(Sort(f, b)[i].rdata) {
      assert Sort(f, a)[i] in Sort(f, a) && Sort(f, b)[i] in Sort(f, b);
    }
  }

  lemma {:induction false} SelectHas(rs: seq<Record>, n: Name, class_: DnsClass, t: RecordType, r: Record)
    ensures r in Select(rs, n, class_, t) <==> r in rs && Selected(r, n, class_, t)
  {
    if rs != [] {
      SelectHas(rs[1..], n, class_, t, r);
      assert rs == [rs[0]] + rs[1..];
    }
  }

  lemma {:induction false} SelectSplit(a: seq<Record>, b: seq<Record>, n: Name, class_: DnsClass, t: RecordType)
    ensures Select(a + b, n, class_, t) == Select(a, n, class_, t) + Select(b, n, class_, t)
  {
    if a == [] {
      assert a + b == b;
    } else {
      assert (a + b)[1..] == a[1..] + b;
      SelectSplit(a[1..], b, n, class_, t);
    }
  }

  lemma {:induction false} BagSplit(f: Format, a: seq<Record>, b: seq<Record>)
    ensures Bag(f, a + b) == Bag(f, a) + Bag(f, b)
  {
    if a == [] {
      assert a + b == b;
    } else {
      assert (a + b)[1..] == a[1..] + b;
      BagSplit(f, a[1..], b);
    }
  }

  /** The pairs of the selected records. */
  ghost function SelBag(f: Format, rs: seq<Record>, n: Name, class_: DnsClass, t: RecordType): multiset<Pair> {
    Bag(f, Select(rs, n, class_, t))
  }

  lemma SelBagTakeOut(f: Format, b: seq<Record>, j: nat, n: Name, class_: DnsClass, t: RecordType)
    requires j < |b|
    ensures SelBag(f, b, n, class_, t) == SelBag(f, [b[j]], n, class_, t) + SelBag(f, b[..j] + b[j + 1..], n, class_, t)
  {
    var p, q := b[..j], b[j + 1..];
    assert b == p + ([b[j]] + q);
    SelectSplit(p, [b[j]] + q, n, class_, t);
    SelectSplit([b[j]], q, n, class_, t);
    SelectSplit(p, q, n, class_, t);
    BagSplit(f, Select(p, n, class_, t), Select([b[j]] + q, n, class_, t));
    BagSplit(f, Select([b[j]], n, class_, t), Select(q, n, class_, t));
    BagSplit(f, Select(p, n, class_, t), Select(q, n, class_, t));
  }

  /** Where the first element of one sequence stands in a permutation of it. */
  lemma TakeSame<T>(a: seq<T>, b: seq<T>) returns (j: nat)
    requires a != [] && multiset(a) == multiset(b)
    ensures j < |b| && b[j] == a[0] && multiset(a[1..]) == multiset(b[..j] + b[j + 1..])
  {
    assert a[0] in multiset(b);
    j :| 0 <= j < |b| && b[j] == a[0];
    assert a == [a[0]] + a[1..];
    assert b == b[..j] + [b[j]] + b[j + 1..];
    Cancel(a[0], multiset(a[1..]), multiset(b[..j] + b[j + 1..]));
  }

  lemma {:induction false} SelBagPermutation(f: Format, a: seq<Record>, b: seq<Record>, n: Name,
                                             class_: DnsClass, t: RecordType)
    requires multiset(a) == multiset(b)
    ensures SelBag(f, a, n, class_, t) == SelBag(f, b, n, class_, t)
    decreases |a|
  {
    if a == [] {
      EmptyMultiset(b);
    } else {
      var j := TakeSame(a, b);
      SelBagPermutation(f, a[1..], b[..j] + b[j + 1..], n, class_, t);
      SelBagTakeOut(f, b, j, n, class_, t);
      SelBagFirst(f, a, n, class_, t);
    }
  }

  lemma SelBagFirst(f: Format, a: seq<Record>, n: Name, class_: DnsClass, t: RecordType)
    requires a != []
    ensures SelBag(f, a, n, class_, t) == SelBag(f, [a[0]], n, class_, t) + SelBag(f, a[1..], n, class_, t)
  {
    SelBagTakeOut(f, a, 0, n, class_, t);
    assert a[..0] + a[1..] == a[1..];
  }

  lemma EmptyMultiset<T>(s: seq<T>)
    ensures multiset(s) == multiset{} ==> s == []
  {
    if s != [] { assert s[0] in multiset(s); }
  }

  lemma SelectPermuted(a: seq<Record>, b: seq<Record>, n: Name, class_: DnsClass, t: RecordType)
    requires multiset(a) == multiset(b)
    ensures forall x :: x in Select(b, n, class_, t) <==> x in Select(a, n, class_, t)
  {
    forall x ensures x in Select(b, n, class_, t) <==> x in Select(a, n, class_, t) {
      SelectHas(a, n, class_, t, x);
      SelectHas(b, n, class_, t, x);
      assert x in a <==> x in multiset(a);
      assert x in b <==> x in multiset(b);
    }
  }

  /** Any order of records that are determined by what they sort by signs the same octets. */
  lemma PermutationInvariant(f: Format, n: Name, class_: DnsClass, s: SigFields, a: seq<Record>, b: seq<Record>)
    requires multiset(a) == multiset(b) && Determined(f, Select(a, n, class_, s.typeCovered))
    ensures HashRrset(f, n, class_, s, a) == HashRrset(f, n, class_, s, b)
  {
    if DetermineName(n, s.numLabels).Some? {
      var t := s.typeCovered;
      SelBagPermutation(f, a, b, n, class_, t);
      SelectPermuted(a, b, n, class_, t);
      SelectAllSelected(a, n, class_, t);
      SelectAllSelected(b, n, class_, t);
      SortedCanon(f, Select(a, n, class_, t), Select(b, n, class_, t), n, class_, t);
      HashFromSorted(f, n, n, class_, s, a, b);
    }
  }

  /** Records of another name, type or class, put in anywhere, do not change the octets. */
  lemma UnrelatedIgnored(f: Format, n: Name, class_: DnsClass, s: SigFields, before: seq<Record>, other: seq<Record>,
                         after: seq<Record>)
    requires forall r :: r in other ==> !Selected(r, n, class_, s.typeCovered)
    ensures HashRrset(f, n, class_, s, before + other + after) == HashRrset(f, n, class_, s, before + after)
  {
    var t := s.typeCovered;
    SelectSplit(before + other, after, n, class_, t);
    SelectSplit(before, other, n, class_, t);
    SelectSplit(before, after, n, class_, t);
    SelectNone(other, n, class_, t);
    assert Select(before, n, class_, t) + [] == Select(before, n, class_, t);
  }

  /** And in any order, where the order of the set's own records does not show. */
  lemma UnrelatedInAnyOrder(f: Format, n: Name, class_: DnsClass, s: SigFields, a: seq<Record>, other: seq<Record>,
                            b: seq<Record>)
    requires multiset(b) == multiset(a) + multiset(other) && Determined(f, Select(a, n, class_, s.typeCovered))
    requires forall r :: r in other ==> !Selected(r, n, class_, s.typeCovered)
    ensures HashRrset(f, n, class_, s, b) == HashRrset(f, n, class_, s, a)
  {
    var t := s.typeCovered;
    SelectSplit(a, other, n, class_, t);
    SelectNone(other, n, class_, t);
    assert Select(a, n, class_, t) + [] == Select(a, n, class_, t);
    assert multiset(a + other) == multiset(b);
    PermutationInvariant(f, n, class_, s, a + other, b);
    UnrelatedIgnored(f, n, class_, s, a, other, []);
    assert a + other + [] == a + other && a + [] == a;
  }

  lemma {:induction false} SelectNone(rs: seq<Record>, n: Name, class_: DnsClass, t: RecordType)
    requires forall r :: r in rs ==> !Selected(r, n, class_, t)
    ensures Select(rs, n, class_, t) == []
  {
    if rs != [] {
      assert rs[0] in rs;
      SelectNone(rs[1..], n, class_, t);
    }
  }

  // ----- Changes that keep the order -----

  /** The records under another name or with another TTL, where one is given. */
  function Recast(r: Record, name: Option<Name>, ttl: Option<U32>): Record {
    r.(name := if name.Some? then name.value else r.name, ttl := if ttl.Some? then ttl.value else r.ttl)
  }

  function RecastAll(rs: seq<Record>, name: Option<Name>, ttl: Option<U32>): seq<Record> {
    seq(|rs|, i requires 0 <= i < |rs| => Recast(rs[i], name, ttl))
  }

  function Renamed(rs: seq<Record>, n: Name): seq<Record> {
    RecastAll(rs, Some(n), None)
  }

  /** Where every record gets a TTL, they had one in common. */
  ghost predicate CommonTtl(rs: seq<Record>, ttl: Option<U32>) {
    ttl.Some? ==> forall x, y :: x in rs && y in rs ==> x.ttl == y.ttl
  }

  lemma RecastCompares(f: Format, x: Record, y: Record, name: Option<Name>, ttl: Option<U32>, n: Name,
                       class_: DnsClass, t: RecordType)
    requires Selected(x, n, class_, t) && Selected(y, n, class_, t) && (ttl.Some? ==> x.ttl == y.ttl)
    ensures CmpRecords(f, Recast(x, name, ttl), Recast(y, name, ttl)) == CmpRecords(f, x, y)
  {
    var m := if name.Some? then name.value else n;
    CmpSelected(f, x, y, n, class_, t);
    CmpSelected(f, Recast(x, name, ttl), Recast(y, name, ttl), m, class_, t);
  }

  lemma {:induction false} InsertRecast(f: Format, r: Record, rs: seq<Record>, name: Option<Name>, ttl: Option<U32>,
                                        n: Name, class_: DnsClass, t: RecordType)
    requires AllSelected(rs, n, class_, t) && Selected(r, n, class_, t) && CommonTtl([r] + rs, ttl)
    ensures InsertSorted(f, Recast(r, name, ttl), RecastAll(rs, name, ttl)) ==
            RecastAll(InsertSorted(f, r, rs), name, ttl)
  {
    if rs == [] {
      RecastCons(r, [], name, ttl);
    } else {
      var head, tail := rs[0], rs[1..];
      assert rs == [head] + tail;
      RecastCompares(f, r, head, name, ttl, n, class_, t);
      RecastCons(head, tail, name, ttl);
      if CmpRecords(f, r, head) != Greater {
        RecastCons(r, rs, name, ttl);
      } else {
        InsertRecast(f, r, tail, name, ttl, n, class_, t);
        RecastCons(head, InsertSorted(f, r, tail), name, ttl);
        InsertPast(f, Recast(r, name, ttl), Recast(head, name, ttl), RecastAll(tail, name, ttl));
      }
    }
  }

  lemma RecastCons(r: Record, rs: seq<Record>, name: Option<Name>, ttl: Option<U32>)
    ensures RecastAll([r] + rs, name, ttl) == [Recast(r, name, ttl)] + RecastAll(rs, name, ttl)
  {
  }

  lemma InsertPast(f: Format, r: Record, head: Record, tail: seq<Record>)
    ensures InsertSorted(f, r, [head] + tail) ==
            if CmpRecords(f, r, head) != Greater then [r, head] + tail else [head] + InsertSorted(f, r, tail)
  {
    assert ([head] + tail)[1..] == tail && [r] + ([head] + tail) == [r, head] + tail;
  }

  lemma WithinSorted(f: Format, rs: seq<Record>, ttl: Option<U32>, n: Name, class_: DnsClass, t: RecordType)
    requires rs != [] && AllSelected(rs, n, class_, t) && CommonTtl(rs, ttl)
    ensures AllSelected(rs[1..], n, class_, t) && CommonTtl(rs[1..], ttl)
    ensures AllSelected([rs[0]] + Sort(f, rs[1..]), n, class_, t) && CommonTtl([rs[0]] + Sort(f, rs[1..]), ttl)
  {
    SortMembers(f, rs[1..]);
    assert forall x :: x in rs[1..] ==> x in rs;
    assert forall x :: x in [rs[0]] + Sort(f, rs[1..]) ==> x in rs;
  }

  lemma {:induction false} SortRecast(f: Format, rs: seq<Record>, name: Option<Name>, ttl: Option<U32>, n: Name,
                                      class_: DnsClass, t: RecordType)
    requires AllSelected(rs, n, class_, t) && CommonTtl(rs, ttl)
    ensures Sort(f, RecastAll(rs, name, ttl)) == RecastAll(Sort(f, rs), name, ttl)
  {
    if rs != [] {
      var tail := rs[1..];
      WithinSorted(f, rs, ttl, n, class_, t);
      SortRecast(f, tail, name, ttl, n, class_, t);
      assert RecastAll(rs, name, ttl)[1..] == RecastAll(tail, name, ttl);
      InsertRecast(f, rs[0], Sort(f, tail), name, ttl, n, class_, t);
    }
  }

  lemma {:induction false} SelectAll(rs: seq<Record>, n: Name, class_: DnsClass, t: RecordType)
    requires AllSelected(rs, n, class_, t)
    ensures Select(rs, n, class_, t) == rs
  {
    if rs != [] {
      assert rs[0] in rs;
      assert forall x :: x in rs[1..] ==> x in rs;
      SelectAll(rs[1..], n, class_, t);
    }
  }

  /** Recasting a whole set recasts its sorted records, and leaves their data as it is. */
  lemma RecastSet(f: Format, rs: seq<Record>, name: Option<Name>, ttl: Option<U32>, n: Name, m: Name,
                  class_: DnsClass, t: RecordType)
    requires AllSelected(rs, n, class_, t) && CommonTtl(rs, ttl) && m == if name.Some? then name.value else n
    ensures SameCanon(f, Sort(f, Select(RecastAll(rs, name, ttl), m, class_, t)), Sort(f, Select(rs, n, class_, t)))
  {
    SelectAll(rs, n, class_, t);
    forall r | r in RecastAll(rs, name, ttl) ensures Selected(r, m, class_, t) {
      var i :| 0 <= i < |rs| && r == Recast(rs[i], name, ttl);
      assert rs[i] in rs;
    }
    SelectAll(RecastAll(rs, name, ttl), m, class_, t);
    SortRecast(f, rs, name, ttl, n, class_, t);
  }

  /** The case of the owner name, in the question and in every record, does not change the octets. */
  lemma OwnerCaseIgnored(f: Format, n: Name, m: Name, class_: DnsClass, s: SigFields, rs: seq<Record>)
    requires NameEq(n, m) && |n| < 256
    requires AllSelected(rs, n, class_, s.typeCovered)
    ensures HashRrset(f, m, class_, s, Renamed(rs, m)) == HashRrset(f, n, class_, s, rs)
  {
    DetermineNameUpToCase(n, m, s.numLabels);
    if DetermineName(n, s.numLabels).Some? {
      RecastSet(f, rs, Some(m), None, n, m, class_, s.typeCovered);
      HashFromSorted(f, m, n, class_, s, Renamed(rs, m), rs);
    }
  }

  /** A wildcard's records, sent under any expansion of it with the RRSIG's label count kept, sign
      the same octets as the wildcard did in the zone. */
  lemma WildcardExpansion(f: Format, base: Name, prefix: Name, class_: DnsClass, s: SigFields, rs: seq<Record>)
    requires 1 <= |prefix| && |prefix| + |base| < 256
    requires s.numLabels == |base|
    requires AllSelected(rs, [STAR] + base, class_, s.typeCovered)
    ensures HashRrset(f, prefix + base, class_, s, Renamed(rs, prefix + base)) ==
            HashRrset(f, [STAR] + base, class_, s, rs)
  {
    DetermineNameExpansion(base, prefix);
    RecastSet(f, rs, Some(prefix + base), None, [STAR] + base, prefix + base, class_, s.typeCovered);
    HashFromSorted(f, prefix + base, [STAR] + base, class_, s, Renamed(rs, prefix + base), rs);
  }

  /** When all the records share a TTL, a cache that counts it down does not change the octets. */
  lemma CommonTtlIgnored(f: Format, n: Name, class_: DnsClass, s: SigFields, rs: seq<Record>, ttl: U32, ttl': U32)
    requires AllSelected(rs, n, class_, s.typeCovered)
    requires forall r :: r in rs ==> r.ttl == ttl
    ensures HashRrset(f, n, class_, s, WithTtlAll(rs, ttl')) == HashRrset(f, n, class_, s, rs)
  {
    assert WithTtlAll(rs, ttl') == RecastAll(rs, None, Some(ttl'));
    RecastSet(f, rs, None, Some(ttl'), n, n, class_, s.typeCovered);
    if DetermineName(n, s.numLabels).Some? {
      HashFromSorted(f, n, n, class_, s, WithTtlAll(rs, ttl'), rs);
    }
  }
}
