/** What the octets that an RRSIG signs are (section 5.3.2 of RFC 4035, hash_rrset_with_sig of
    client/src/rr/dnssec/signer.rs), said by reading them. */
module SignedOctets {
  import opened Basics
  import opened Names
  import opened Records
  import opened SignedData
  import opened NameCodec

  // ----- A reader -----

  datatype SignedRecord = SignedRecord(owner: Name, rtype: nat, class_: nat, ttl: nat, data: Bytes)

  datatype OneRead = OneRead(record: SignedRecord, next: nat) | Unreadable

  /** One record: an uncompressed owner, type, class, TTL, and the data behind its length. */
  function ReadRecord(d: Bytes, at: nat): OneRead {
    match ReadName(d, at, 0)
    case Read(owner, i) =>
      if i + 10 > |d| then Unreadable
      else
        var end := i + 10 + WordAt(d, i + 8);
        if end > |d| then Unreadable
        else OneRead(SignedRecord(owner, WordAt(d, i), WordAt(d, i + 2), LongAt(d, i + 4), d[i + 10..end]), end)
    case _ => Unreadable
  }

  /** One record after the other up to the end. */
  function ReadRecords(d: Bytes, at: nat): Option<seq<SignedRecord>>
    decreases |d| - at
  {
    if at == |d| then Some([])
    else match ReadRecord(d, at)
      case Unreadable => None
      case OneRead(r, next) =>
        if next <= at || at > |d| then None
        else match ReadRecords(d, next) case None => None case Some(rest) => Some([r] + rest)
  }

  // ----- What is there to be read -----

  lemma SlicedAt(a: Bytes, b: Bytes, c: Bytes)
    ensures (a + b + c)[|a|..|a| + |b|] == b
  {
  }

  lemma WordReads(a: Bytes, x: U16, c: Bytes)
    ensures var d := a + U16Octets(x) + c; WordAt(d, |a|) == x
  {
    SlicedAt(a, U16Octets(x), c);
    var d := a + U16Octets(x) + c;
    assert d[|a|] == x / 0x100 && d[|a| + 1] == x % 0x100;
  }

  lemma LongReads(a: Bytes, x: U32, c: Bytes)
    ensures var d := a + U32Octets(x) + c; LongAt(d, |a|) == x
  {
    var d := a + U32Octets(x) + c;
    assert d[|a|] == x / 0x100_0000 && d[|a| + 1] == x / 0x1_0000 % 0x100;
    assert d[|a| + 2] == x / 0x100 % 0x100 && d[|a| + 3] == x % 0x100;
    LongParts(x);
  }

  lemma LongParts(x: U32)
    ensures ((x / 0x100_0000) * 0x100 + x / 0x1_0000 % 0x100) * 0x1_0000 + (x / 0x100 % 0x100 * 0x100 + x % 0x100) == x
  {
  }

  lemma Rejoin(a: Bytes, b: Bytes, c: Bytes)
    ensures a + b + c == a + (b + c)
  {
  }

  lemma FirstLabel(n: Name)
    requires n != [] && |n[0]| <= 255
    ensures NameOctets(n) == LabelOctets(n[0]) + NameOctets(n[1..])
  {
    assert |n[0]| % 0x100 == |n[0]|;
  }

  /** An uncompressed name reads back. */
  lemma {:induction false} NameReads(a: Bytes, n: Name, c: Bytes)
    requires GoodName(n)
    ensures ReadName(a + NameOctets(n) + c, |a|, 0) == Read(n, |a| + |NameOctets(n)|)
    decreases |n|
  {
    var d := a + NameOctets(n) + c;
    if n == [] {
      assert d[|a|] == 0;
    } else {
      var l, rest := n[0], NameOctets(n[1..]);
      assert GoodLabel(l) && GoodName(n[1..]);
      var a' := a + LabelOctets(l);
      FirstLabel(n);
      Rejoin(a, LabelOctets(l), rest);
      NameReads(a', n[1..], c);
      Rejoin(a', rest, c);
      assert a' <= d;
      LabelThenRest(a, n, d, 0, |a| + |NameOctets(n)|);
    }
  }

  // ----- The fields of the RRSIG -----

  /** The fields read from the front, big-endian. */
  ghost predicate ReadsNumbers(d: Bytes, s: SigFields, labels: Byte) {
    && |d| >= 18
    && WordAt(d, 0) == Code(s.typeCovered) && d[2] == s.algorithm && d[3] == labels
    && LongAt(d, 4) == s.originalTtl && LongAt(d, 8) == s.expiration && LongAt(d, 12) == s.inception
    && WordAt(d, 16) == s.keyTag
  }

  /** And the name of the signer after them. */
  ghost predicate ReadsFields(d: Bytes, s: SigFields, labels: Byte, end: nat) {
    ReadsNumbers(d, s, labels) && ReadName(d, 18, 0) == Read(s.signerName, end)
  }

  /** The octets up to the signer's name, in three parts. */
  lemma FieldsInParts(s: SigFields, rest: Bytes)
    ensures var head := U16Octets(Code(s.typeCovered)) + [s.algorithm] + [s.numLabels];
            var times := U32Octets(s.originalTtl) + U32Octets(s.expiration) + U32Octets(s.inception);
            PreSig(s) + rest == head + times + U16Octets(s.keyTag) + NameOctets(s.signerName) + rest
  {
  }

  lemma HeadReads(t: U16, algorithm: Byte, labels: Byte, rest: Bytes)
    ensures var d := U16Octets(t) + [algorithm] + [labels] + rest;
            WordAt(d, 0) == t && d[2] == algorithm && d[3] == labels
  {
    var d := U16Octets(t) + [algorithm] + [labels] + rest;
    assert d[0] == t / 0x100 && d[1] == t % 0x100;
  }

  lemma TimesRead(a: Bytes, x: U32, y: U32, z: U32, rest: Bytes)
    ensures var d := a + (U32Octets(x) + U32Octets(y) + U32Octets(z)) + rest;
            LongAt(d, |a|) == x && LongAt(d, |a| + 4) == y && LongAt(d, |a| + 8) == z
  {
    var d := a + (U32Octets(x) + U32Octets(y) + U32Octets(z)) + rest;
    assert d == a + U32Octets(x) + (U32Octets(y) + U32Octets(z) + rest);
    assert d == (a + U32Octets(x)) + U32Octets(y) + (U32Octets(z) + rest);
    assert d == (a + U32Octets(x) + U32Octets(y)) + U32Octets(z) + rest;
    LongReads(a, x, U32Octets(y) + U32Octets(z) + rest);
    LongReads(a + U32Octets(x), y, U32Octets(z) + rest);
    LongReads(a + U32Octets(x) + U32Octets(y), z, rest);
  }

  lemma FieldsRead(s: SigFields, rest: Bytes)
    ensures ReadsNumbers(PreSig(s) + rest, s, s.numLabels)
    ensures GoodName(s.signerName) ==> ReadsFields(PreSig(s) + rest, s, s.numLabels, |PreSig(s)|)
  {
    var head := U16Octets(Code(s.typeCovered)) + [s.algorithm] + [s.numLabels];
    var times := U32Octets(s.originalTtl) + U32Octets(s.expiration) + U32Octets(s.inception);
    var tag, signer := U16Octets(s.keyTag), NameOctets(s.signerName);
    var d := PreSig(s) + rest;
    FieldsInParts(s, rest);
    assert d == head + (times + tag + signer + rest);
    HeadReads(Code(s.typeCovered), s.algorithm, s.numLabels, times + tag + signer + rest);
    assert d == head + times + (tag + signer + rest);
    TimesRead(head, s.originalTtl, s.expiration, s.inception, tag + signer + rest);
    assert d == (head + times) + tag + (signer + rest);
    WordReads(head + times, s.keyTag, signer + rest);
    if GoodName(s.signerName) {
      NameReads(head + times + tag, s.signerName, rest);
    }
  }

  // ----- The records -----

  /** A record as it is signed. */
  function AsSigned(f: Format, owner: Name, class_: DnsClass, s: SigFields, r: Record): SignedRecord {
    SignedRecord(owner, Code(s.typeCovered), ClassCode(class_), s.originalTtl, f.canon(r.rdata))
  }

  /** Type, class, TTL and length after each other. */
  lemma FixedReads(a: Bytes, t: U16, k: U16, ttl: U32, len: U16, c: Bytes)
    ensures var d := a + (U16Octets(t) + U16Octets(k) + U32Octets(ttl) + U16Octets(len)) + c;
            && WordAt(d, |a|) == t && WordAt(d, |a| + 2) == k && LongAt(d, |a| + 4) == ttl && WordAt(d, |a| + 8) == len
  {
    var d := a + (U16Octets(t) + U16Octets(k) + U32Octets(ttl) + U16Octets(len)) + c;
    assert d == a + U16Octets(t) + (U16Octets(k) + U32Octets(ttl) + U16Octets(len) + c);
    WordReads(a, t, U16Octets(k) + U32Octets(ttl) + U16Octets(len) + c);
    assert d == (a + U16Octets(t)) + U16Octets(k) + (U32Octets(ttl) + U16Octets(len) + c);
    WordReads(a + U16Octets(t), k, U32Octets(ttl) + U16Octets(len) + c);
    assert d == (a + U16Octets(t) + U16Octets(k)) + U32Octets(ttl) + (U16Octets(len) + c);
    LongReads(a + U16Octets(t) + U16Octets(k), ttl, U16Octets(len) + c);
    assert d == (a + U16Octets(t) + U16Octets(k) + U32Octets(ttl)) + U16Octets(len) + c;
    WordReads(a + U16Octets(t) + U16Octets(k) + U32Octets(ttl), len, c);
  }

  lemma RecordInParts(a: Bytes, owner: Name, class_: DnsClass, s: SigFields, data: Bytes, c: Bytes)
    ensures var fixed := U16Octets(Code(s.typeCovered)) + U16Octets(ClassCode(class_)) + U32Octets(s.originalTtl) +
                         U16Octets(|data|);
            && a + RecordOctets(owner, class_, s, data) + c == a + NameOctets(owner) + (fixed + data + c)
            && a + RecordOctets(owner, class_, s, data) + c == (a + NameOctets(owner)) + fixed + (data + c)
            && a + RecordOctets(owner, class_, s, data) + c == (a + NameOctets(owner) + fixed) + data + c
            && |RecordOctets(owner, class_, s, data)| == |NameOctets(owner)| + 10 + |data|
  {
  }

  lemma RecordReads(a: Bytes, owner: Name, class_: DnsClass, s: SigFields, data: Bytes, c: Bytes)
    requires GoodName(owner) && |data| <= 0xFFFF
    ensures var d := a + RecordOctets(owner, class_, s, data) + c;
            ReadRecord(d, |a|) ==
            OneRead(SignedRecord(owner, Code(s.typeCovered), ClassCode(class_), s.originalTtl, data),
                    |a| + |RecordOctets(owner, class_, s, data)|)
  {
    var fixed := U16Octets(Code(s.typeCovered)) + U16Octets(ClassCode(class_)) + U32Octets(s.originalTtl) +
                 U16Octets(|data|);
    RecordInParts(a, owner, class_, s, data, c);
    NameReads(a, owner, fixed + data + c);
    FixedReads(a + NameOctets(owner), Code(s.typeCovered), ClassCode(class_), s.originalTtl, |data|, data + c);
    SlicedAt(a + NameOctets(owner) + fixed, data, c);
  }

  function AllAsSigned(f: Format, owner: Name, class_: DnsClass, s: SigFields, rs: seq<Record>)
    : (out: seq<SignedRecord>)
    ensures |out| == |rs| && forall i :: 0 <= i < |rs| ==> out[i] == AsSigned(f, owner, class_, s, rs[i])
  {
    if rs == [] then [] else [AsSigned(f, owner, class_, s, rs[0])] + AllAsSigned(f, owner, class_, s, rs[1..])
  }

  lemma ReadNext(d: Bytes, at: nat, r: SignedRecord, next: nat, rest: seq<SignedRecord>)
    requires ReadRecord(d, at) == OneRead(r, next) && at < next <= |d| && ReadRecords(d, next) == Some(rest)
    ensures ReadRecords(d, at) == Some([r] + rest)
  {
  }

  lemma {:induction false} RecordsRead(a: Bytes, f: Format, owner: Name, class_: DnsClass, s: SigFields,
                                       rs: seq<Record>)
    requires GoodName(owner) && forall i :: 0 <= i < |rs| ==> |f.canon(rs[i].rdata)| <= 0xFFFF
    ensures ReadRecords(a + RecordsOctets(f, owner, class_, s, rs), |a|) == Some(AllAsSigned(f, owner, class_, s, rs))
    decreases |rs|
  {
    if rs == [] {
      assert a + [] == a;
    } else {
      var data := f.canon(rs[0].rdata);
      var one, rest := RecordOctets(owner, class_, s, data), RecordsOctets(f, owner, class_, s, rs[1..]);
      var d := a + one + rest;
      assert a + (one + rest) == d && |a + one| == |a| + |one| <= |d|;
      RecordReads(a, owner, class_, s, data, rest);
      RecordInParts(a, owner, class_, s, data, rest);
      RecordsRead(a + one, f, owner, class_, s, rs[1..]);
      ReadNext(d, |a|, AsSigned(f, owner, class_, s, rs[0]), |a + one|, AllAsSigned(f, owner, class_, s, rs[1..]));
    }
  }

  // ----- Their order -----

  /** The order of two records of a set: by TTL, then by the octets of the plain form. */
  ghost predicate InSortOrder(f: Format, a: Record, b: Record) {
    a.ttl < b.ttl || (a.ttl == b.ttl && !OctetsBefore(f.wire(b.rdata), f.wire(a.rdata)))
  }

  ghost predicate Ascending(f: Format, rs: seq<Record>) {
    forall i, j :: 0 <= i < j < |rs| ==> InSortOrder(f, rs[i], rs[j])
  }

  lemma PairsInOrder(f: Format, a: Record, b: Record)
    ensures CmpPairs(PairOf(f, a), PairOf(f, b)) != Greater <==> InSortOrder(f, a, b)
  {
    BytesExactly(f.wire(b.rdata), f.wire(a.rdata));
    CmpBytesFlip(f.wire(a.rdata), f.wire(b.rdata));
  }

  lemma {:induction false} InBag(f: Format, rs: seq<Record>, i: nat)
    requires i < |rs|
    ensures PairOf(f, rs[i]) in Bag(f, rs)
    decreases |rs|
  {
    if i > 0 {
      InBag(f, rs[1..], i - 1);
    }
  }

  lemma {:induction false} SortedAscends(f: Format, rs: seq<Record>)
    requires SortedRecords(f, rs)
    ensures Ascending(f, rs)
    decreases |rs|
  {
    if rs != [] {
      var rest := rs[1..];
      SortedAscends(f, rest);
      forall i, j | 0 <= i < j < |rs| ensures InSortOrder(f, rs[i], rs[j]) {
        if i == 0 {
          InBag(f, rest, j - 1);
          PairsInOrder(f, rs[0], rs[j]);
        } else {
          assert rs[i] == rest[i - 1] && rs[j] == rest[j - 1];
        }
      }
    }
  }

  lemma {:induction false} InsertPermutes(f: Format, r: Record, rs: seq<Record>)
    ensures multiset(InsertSorted(f, r, rs)) == multiset([r] + rs)
  {
    if rs != [] && CmpRecords(f, r, rs[0]) == Greater {
      InsertPermutes(f, r, rs[1..]);
      assert rs == [rs[0]] + rs[1..];
    }
  }

  lemma {:induction false} SortPermutes(f: Format, rs: seq<Record>)
    ensures multiset(Sort(f, rs)) == multiset(rs)
  {
    if rs != [] {
      SortPermutes(f, rs[1..]);
      InsertPermutes(f, rs[0], Sort(f, rs[1..]));
      assert rs == [rs[0]] + rs[1..];
    }
  }

  /** The records of a list that sort alike. */
  function Alike(f: Format, rs: seq<Record>, p: Pair): seq<Record> {
    if rs == [] then [] else (if PairOf(f, rs[0]) == p then [rs[0]] else []) + Alike(f, rs[1..], p)
  }

  lemma {:induction false} InsertStable(f: Format, r: Record, rs: seq<Record>, n: Name, class_: DnsClass,
                                        t: RecordType, p: Pair)
    requires AllSelected([r] + rs, n, class_, t)
    ensures Alike(f, InsertSorted(f, r, rs), p) == Alike(f, [r] + rs, p)
    decreases |rs|
  {
    assert ([r] + rs)[1..] == rs && r in [r] + rs;
    if rs != [] && CmpRecords(f, r, rs[0]) == Greater {
      assert rs[0] in [r] + rs && forall x :: x in [r] + rs[1..] ==> x in [r] + rs;
      InsertStable(f, r, rs[1..], n, class_, t, p);
      CmpSelected(f, r, rs[0], n, class_, t);
      PairOrder(PairOf(f, r), PairOf(f, rs[0]), p);
      StableStep(f, r, rs, p);
    }
  }

  lemma StableStep(f: Format, r: Record, rs: seq<Record>, p: Pair)
    requires rs != [] && PairOf(f, r) != PairOf(f, rs[0])
    requires Alike(f, InsertSorted(f, r, rs[1..]), p) == Alike(f, [r] + rs[1..], p)
    ensures Alike(f, [rs[0]] + InsertSorted(f, r, rs[1..]), p) == Alike(f, [r] + rs, p)
  {
    var rest := InsertSorted(f, r, rs[1..]);
    assert ([rs[0]] + rest)[1..] == rest && ([r] + rs)[1..] == rs && ([r] + rs[1..])[1..] == rs[1..];
  }

  /** Records that sort alike keep the order they came in. */
  lemma {:induction false} SortStable(f: Format, rs: seq<Record>, n: Name, class_: DnsClass, t: RecordType, p: Pair)
    requires AllSelected(rs, n, class_, t)
    ensures Alike(f, Sort(f, rs), p) == Alike(f, rs, p)
    decreases |rs|
  {
    if rs != [] {
      var tail := rs[1..];
      assert forall x :: x in tail ==> x in rs;
      SortStable(f, tail, n, class_, t, p);
      SortMembers(f, tail);
      assert forall x :: x in [rs[0]] + Sort(f, tail) ==> x in rs;
      InsertStable(f, rs[0], Sort(f, tail), n, class_, t, p);
      assert ([rs[0]] + Sort(f, tail))[1..] == Sort(f, tail);
    }
  }

  /** The records of the set in a list: the class and the type asked for, and the name up to case. */
  predicate InSet(r: Record, name: Name, class_: DnsClass, t: RecordType) {
    r.class_ == class_ && r.rtype == t && Lower(r.name) == Lower(name)
  }

  /** A list that is the set's records in a list of records, each as often, in ascending order. */
  ghost predicate SetInOrder(f: Format, records: seq<Record>, name: Name, class_: DnsClass, t: RecordType,
                             sorted: seq<Record>) {
    && Ascending(f, sorted)
    && forall r :: multiset(sorted)[r] == if InSet(r, name, class_, t) then multiset(records)[r] else 0
  }

  lemma {:induction false} SelectCounts(records: seq<Record>, name: Name, class_: DnsClass, t: RecordType, r: Record)
    ensures multiset(Select(records, name, class_, t))[r] ==
            if InSet(r, name, class_, t) then multiset(records)[r] else 0
  {
    if records != [] {
      SelectCounts(records[1..], name, class_, t, r);
      assert records == [records[0]] + records[1..];
    }
  }

  lemma SelectedAll(records: seq<Record>, name: Name, class_: DnsClass, t: RecordType)
    ensures AllSelected(Select(records, name, class_, t), name, class_, t)
  {
    forall r | r in Select(records, name, class_, t) ensures Selected(r, name, class_, t) {
      SelectCounts(records, name, class_, t, r);
      assert multiset(Select(records, name, class_, t))[r] > 0;
    }
  }

  lemma SortsTheSet(f: Format, records: seq<Record>, name: Name, class_: DnsClass, t: RecordType)
    ensures SetInOrder(f, records, name, class_, t, Sort(f, Select(records, name, class_, t)))
  {
    var chosen := Select(records, name, class_, t);
    SelectedAll(records, name, class_, t);
    SortedBySort(f, chosen, name, class_, t);
    SortedAscends(f, Sort(f, chosen));
    SortPermutes(f, chosen);
    forall r ensures multiset(chosen)[r] == if InSet(r, name, class_, t) then multiset(records)[r] else 0 {
      SelectCounts(records, name, class_, t, r);
    }
  }

  // ----- The whole -----

  /** The number of labels, a leading asterisk not counted. */
  function LabelCount(n: Name): nat {
    if n != [] && n[0] == [42] then |n| - 1 else |n|
  }

  /** The owner to sign under: the name, or the wildcard of as many labels as the RRSIG counts. */
  ghost predicate SignsUnder(name: Name, numLabels: nat, owner: Name) {
    if numLabels == LabelCount(name) then owner == name
    else numLabels < LabelCount(name) && owner == [[42]] + name[|name| - numLabels..]
  }

  lemma OwnerIs(name: Name, numLabels: Byte)
    requires |name| < 256
    ensures DetermineName(name, numLabels).None? <==> numLabels > LabelCount(name)
    ensures DetermineName(name, numLabels).Some? ==> SignsUnder(name, numLabels, DetermineName(name, numLabels).value)
  {
  }

  /** What is signed, for every set whose names can be read and whose data fits its length: the fields of
      the RRSIG with the label count of the owner, the signer's name, and then one record after the
      other to the end, each under the lowered owner with the original TTL, with the canonical data of
      the set's records, each as often as it is there, in ascending order. */
  ghost predicate ReadsAsSigned(f: Format, name: Name, class_: DnsClass, s: SigFields, records: seq<Record>,
                                d: Bytes) {
    exists owner: Name, at: nat, sorted: seq<Record> ::
      && SignsUnder(name, s.numLabels, owner)
      && ReadsFields(d, s, LabelCount(owner) % 0x100, at)
      && SetInOrder(f, records, name, class_, s.typeCovered, sorted)
      && ReadRecords(d, at) == Some(AllAsSigned(f, Lower(owner), class_, s, sorted))
  }

  /** The fields alone, whenever there are octets to sign: whatever the records, the owner or the signer. */
  lemma HashFields(f: Format, name: Name, class_: DnsClass, s: SigFields, records: seq<Record>) returns (owner: Name)
    requires |name| < 255 && HashRrset(f, name, class_, s, records).Hashed?
    ensures SignsUnder(name, s.numLabels, owner)
    ensures var d := HashRrset(f, name, class_, s, records).data;
            && ReadsNumbers(d, s, LabelCount(owner) % 0x100)
            && (GoodName(s.signerName) ==> ReadName(d, 18, 0).Read? && ReadName(d, 18, 0).name == s.signerName)
  {
    owner := DetermineName(name, s.numLabels).value;
    var fields := s.(numLabels := NumLabels(owner));
    var rest := RecordsOctets(f, Lower(owner), class_, s, Sort(f, Select(records, name, class_, s.typeCovered)));
    OwnerIs(name, s.numLabels);
    OwnerLabels(name, s.numLabels, owner);
    FieldsRead(fields, rest);
  }

  lemma OwnerLabels(name: Name, numLabels: Byte, owner: Name)
    requires SignsUnder(name, numLabels, owner) && |name| < 255
    ensures |owner| < 256 && NumLabels(owner) == LabelCount(owner) % 0x100
  {
  }

  lemma HashReads(f: Format, name: Name, class_: DnsClass, s: SigFields, records: seq<Record>)
    requires |name| < 255 && HashRrset(f, name, class_, s, records).Hashed?
    requires GoodName(name) && GoodName(s.signerName)
    requires forall r :: r in records && InSet(r, name, class_, s.typeCovered) ==> |f.canon(r.rdata)| <= 0xFFFF
    ensures ReadsAsSigned(f, name, class_, s, records, HashRrset(f, name, class_, s, records).data)
  {
    var owner := DetermineName(name, s.numLabels).value;
    var sorted := Sort(f, Select(records, name, class_, s.typeCovered));
    var fields := s.(numLabels := NumLabels(owner));
    var rest := RecordsOctets(f, Lower(owner), class_, s, sorted);
    OwnerIs(name, s.numLabels);
    GoodOwner(name, s.numLabels, owner);
    FieldsRead(fields, rest);
    SortsTheSet(f, records, name, class_, s.typeCovered);
    SortedDataFits(f, records, name, class_, s.typeCovered, sorted);
    RecordsRead(PreSig(fields), f, Lower(owner), class_, s, sorted);
    assert ReadsFields(PreSig(fields) + rest, s, NumLabels(owner), |PreSig(fields)|);
  }

  lemma GoodOwner(name: Name, numLabels: Byte, owner: Name)
    requires GoodName(name) && SignsUnder(name, numLabels, owner) && |name| < 255
    ensures GoodName(Lower(owner)) && |owner| < 256 && NumLabels(owner) == LabelCount(owner) % 0x100
  {
  }

  lemma SortedDataFits(f: Format, records: seq<Record>, name: Name, class_: DnsClass, t: RecordType,
                       sorted: seq<Record>)
    requires SetInOrder(f, records, name, class_, t, sorted)
    requires forall r :: r in records && InSet(r, name, class_, t) ==> |f.canon(r.rdata)| <= 0xFFFF
    ensures forall i :: 0 <= i < |sorted| ==> |f.canon(sorted[i].rdata)| <= 0xFFFF
  {
    forall i | 0 <= i < |sorted| ensures |f.canon(sorted[i].rdata)| <= 0xFFFF {
      assert sorted[i] in multiset(sorted);
      assert sorted[i] in multiset(records);
    }
  }

  // ----- When nothing is signed -----

  /** Labels whose length fits an octet. */
  predicate ShortLabels(n: Name) {
    forall i :: 0 <= i < |n| ==> |n[i]| <= 255
  }

  lemma ShortLabelsNext(n: Name)
    requires n != []
    ensures ShortLabels(n) <==> |n[0]| <= 255 && ShortLabels(n[1..])
  {
    if |n[0]| <= 255 && ShortLabels(n[1..]) {
      forall i | 0 <= i < |n| ensures |n[i]| <= 255 {
        assert i > 0 ==> n[i] == n[1..][i - 1];
      }
    }
  }

  lemma LabelWritten(before: Bytes, n: Name)
    requires n != [] && |n[0]| <= 255
    ensures before + LabelOctets(n[0]) + NameOctets(n[1..]) == before + NameOctets(n)
    ensures |NameOctets(n)| == |LabelOctets(n[0])| + |NameOctets(n[1..])|
  {
    FirstLabel(n);
    Rejoin(before, LabelOctets(n[0]), NameOctets(n[1..]));
  }

  /** The plain writing of a name is the encoder's canonical one, with its errors. */
  lemma {:induction false} CanonicalWrites(e: Enc, n: Name, start: nat)
    requires start <= Offset(e)
    ensures Canonical(e, n, start) ==
            if ShortLabels(n) && Offset(e) + |NameOctets(n)| <= start + 255
            then Emitted(Put(e, NameOctets(n))) else EmitResult.EmitFailed
    decreases |n|
  {
    if n != [] {
      ShortLabelsNext(n);
      if |n[0]| <= 255 {
        CanonicalWrites(Put(e, LabelOctets(n[0])), n[1..], start);
        LabelWritten(e.buffer, n);
      }
    }
  }

  lemma EmittableExactly(e: Enc, n: Name)
    ensures EmitName(e, n, true) == if Emittable(n) then Emitted(Put(e, NameOctets(n))) else EmitResult.EmitFailed
  {
    CanonicalWrites(e, n, Offset(e));
  }

  /** A name that a message asks to be canonical is written out, whatever the encoder remembers. */
  lemma CanonicalAtom(e: Enc, n: Name)
    ensures WriteAtom(e, NameAtom(n, true)) ==
            if Emittable(n) then Ran(Put(e, NameOctets(n)), [Placed(Offset(e), n, Offset(e) + |NameOctets(n)|)])
            else Broke
  {
    EmittableExactly(e, n);
  }

  /** Each outcome in its case: no owner exactly when the RRSIG counts more labels than the name has, and
      otherwise an encoding error exactly when the encoder cannot write the signer's name, or the
      owner's when there are records to write. */
  lemma HashOutcome(f: Format, name: Name, class_: DnsClass, s: SigFields, records: seq<Record>, e: Enc)
    requires |name| < 256
    ensures HashRrset(f, name, class_, s, records).NoName? <==> s.numLabels > LabelCount(name)
    ensures HashRrset(f, name, class_, s, records) == HashResult.EmitFailed <==>
            exists owner :: SignsUnder(name, s.numLabels, owner)
              && (|| EmitName(e, s.signerName, true).EmitFailed?
                  || ((exists r :: r in records && InSet(r, name, class_, s.typeCovered))
                      && EmitName(e, Lower(owner), true).EmitFailed?))
  {
    OwnerIs(name, s.numLabels);
    EmittableExactly(e, s.signerName);
    SomeSelected(f, records, name, class_, s.typeCovered);
    if DetermineName(name, s.numLabels).Some? {
      EmittableExactly(e, Lower(DetermineName(name, s.numLabels).value));
    }
  }

  lemma SomeSelected(f: Format, records: seq<Record>, name: Name, class_: DnsClass, t: RecordType)
    ensures Sort(f, Select(records, name, class_, t)) != [] <==> exists r :: r in records && InSet(r, name, class_, t)
  {
    var chosen := Select(records, name, class_, t);
    SortPermutes(f, chosen);
    assert |multiset(Sort(f, chosen))| == |Sort(f, chosen)| && |multiset(chosen)| == |chosen|;
    if chosen != [] {
      SelectCounts(records, name, class_, t, chosen[0]);
      assert chosen[0] in multiset(chosen);
    }
    if r :| r in records && InSet(r, name, class_, t) {
      SelectCounts(records, name, class_, t, r);
      assert r in multiset(chosen);
    }
  }
}
