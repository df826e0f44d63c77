/** One set of records under a name and type, updated in place (client/src/rr/rr_set.rs). */
module RrSets {
  import opened Basics
  import opened Names
  import opened Records

  /** The value of a record set. */
  datatype RrSet = RrSet(name: Name, rtype: RecordType, class_: DnsClass, ttl: U32,
                         records: seq<Record>, rrsigs: seq<Record>, serial: U32)

  function EmptySet(name: Name, rtype: RecordType, serial: U32): RrSet {
    RrSet(name, rtype, IN, 0, [], [], serial)
  }

  predicate SingleRecordType(t: RecordType) {
    t == SOA || t == CNAME
  }

  ghost predicate HasData(rs: seq<Record>, d: RData) {
    exists i :: 0 <= i < |rs| && DataEq(rs[i].rdata, d)
  }

  ghost predicate DistinctData(rs: seq<Record>) {
    forall i, j :: 0 <= i < j < |rs| ==> !DataEq(rs[i].rdata, rs[j].rdata)
  }

  /** A record of type SOA carries SOA data. */
  predicate WellTyped(r: Record) {
    r.rtype == SOA ==> r.rdata.Soa?
  }

  /** What every record set keeps: its records carry its name and type, no two share their data,
      and an SOA or CNAME set holds at most one. */
  ghost predicate Coherent(s: RrSet) {
    && (forall i :: 0 <= i < |s.records| ==>
          NameEq(s.records[i].name, s.name) && s.records[i].rtype == s.rtype && WellTyped(s.records[i]))
    && DistinctData(s.records)
    && (SingleRecordType(s.rtype) ==> |s.records| <= 1)
  }

  predicate Fits(s: RrSet, r: Record) {
    NameEq(r.name, s.name) && r.rtype == s.rtype
  }

  // ----- insert -----

  datatype Change = Change(set_: RrSet, reported: bool)

  datatype Replacement = Replacement(records: seq<Record>, replaced: bool, identical: bool)

  /** Replace, from an index on, every record that shares the new data, up to the first record
      equal to the new one. */
  function Replace(rs: seq<Record>, r: Record, from: nat, replaced: bool): Replacement
    requires from <= |rs|
    decreases |rs| - from
  {
    if from == |rs| then Replacement(rs, replaced, false)
    else if !DataEq(rs[from].rdata, r.rdata) then Replace(rs, r, from + 1, replaced)
    else if RecordEq(rs[from], r) then Replacement(rs, replaced, true)
    else Replace(rs[from := r], r, from + 1, true)
  }

  /** A new SOA only takes the place of one with a lower serial. */
  predicate SoaRejected(s: RrSet, r: Record) {
    s.rtype == SOA && s.records != [] && s.records[0].rdata.Soa? &&
    (r.rdata.Soa? ==> r.rdata.soa.serial <= s.records[0].rdata.soa.serial)
  }

  function Touched(s: RrSet, rs: seq<Record>, ttl: U32, serial: U32): RrSet {
    s.(records := rs, ttl := ttl, rrsigs := [], serial := serial)
  }

  function InsertInto(s: RrSet, r: Record, serial: U32): Change {
    if SoaRejected(s, r) then Change(s, false) else
      var base := if SingleRecordType(r.rtype) then [] else s.records;
      var out := Replace(base, r, 0, false);
      if out.replaced then Change(Touched(s, out.records, r.ttl, serial), !out.identical)
      else if out.identical then Change(s.(records := base), false)
      else Change(Touched(s, base + [r], r.ttl, serial), true)
  }

  // ----- remove -----

  function Without(rs: seq<Record>, d: RData): seq<Record> {
    if rs == [] then []
    else if DataEq(rs[0].rdata, d) then Without(rs[1..], d)
    else [rs[0]] + Without(rs[1..], d)
  }

  predicate RemoveRefused(s: RrSet, r: Record) {
    (r.rtype == NS && |s.records| <= 1) || r.rtype == SOA
  }

  function RemoveFrom(s: RrSet, r: Record, serial: U32): Change {
    if RemoveRefused(s, r) then Change(s, false) else
      var rs := Without(s.records, r.rdata);
      if |rs| == |s.records| then Change(s, false)
      else Change(s.(records := rs, rrsigs := [], serial := serial), true)
  }

  lemma {:induction false} WithoutNothing(rs: seq<Record>, d: RData)
    requires !HasData(rs, d)
    ensures Without(rs, d) == rs
  {
    if rs != [] {
      assert forall i :: 0 <= i < |rs[1..]| ==> rs[1..][i] == rs[i + 1];
      WithoutNothing(rs[1..], d);
    }
  }

  /** With distinct data, taking the matching record out by its index takes out exactly the
      records that match. */
  lemma {:induction false} WithoutOne(rs: seq<Record>, d: RData, k: nat)
    requires DistinctData(rs) && k < |rs| && DataEq(rs[k].rdata, d)
    ensures Without(rs, d) == rs[..k] + rs[k + 1..]
  {
    if k == 0 {
      forall i | 0 <= i < |rs[1..]| ensures !DataEq(rs[1..][i].rdata, d) {
        assert !DataEq(rs[0].rdata, rs[i + 1].rdata);
      }
      WithoutNothing(rs[1..], d);
    } else {
      assert !DataEq(rs[0].rdata, rs[k].rdata);
      assert DistinctData(rs[1..]) by {
        assert forall i, j :: 0 <= i < j < |rs[1..]| ==> rs[1..][i] == rs[i + 1] && rs[1..][j] == rs[j + 1];
      }
      WithoutOne(rs[1..], d, k - 1);
      assert rs[..k] + rs[k + 1..] == [rs[0]] + (rs[1..][..k - 1] + rs[1..][k..]);
    }
  }

  // ----- The set updated in place -----

  /** Vec::swap_remove: the last element takes the place of the removed one. */
  function SwapRemove<T>(v: seq<T>, i: nat): seq<T>
    requires i < |v|
  {
    v[i := v[|v| - 1]][..|v| - 1]
  }

  lemma PushThenSwap<T>(v: seq<T>, x: T, i: nat)
    requires i < |v|
    ensures SwapRemove(v + [x], i) == v[i := x]
  {
  }

  /** The ascending indexes of the records that share some data. */
  ghost predicate IsMatching(idx: seq<nat>, rs: seq<Record>, d: RData) {
    && (forall k :: k in idx <==> 0 <= k < |rs| && DataEq(rs[k].rdata, d))
    && (forall i, j :: 0 <= i < j < |idx| ==> idx[i] < idx[j])
  }

  lemma {:induction false} SkipTo(rs: seq<Record>, r: Record, from: nat, to: nat, replaced: bool)
    requires from <= to <= |rs|
    requires forall k :: from <= k < to ==> !DataEq(rs[k].rdata, r.rdata)
    ensures Replace(rs, r, from, replaced) == Replace(rs, r, to, replaced)
    decreases |rs| - from
  {
    if from < to {
      SkipTo(rs, r, from + 1, to, replaced);
    }
  }

  /** Between one matching index and the next, replacing does nothing. */
  lemma SkipToNext(idx: seq<nat>, n: nat, base: seq<Record>, rs: seq<Record>, r: Record, replaced: bool)
    requires IsMatching(idx, base, r.rdata) && n <= |idx| && |rs| == |base|
    requires n > 0 ==> idx[n - 1] < |rs|
    requires rs[After(idx, n)..] == base[After(idx, n)..]
    ensures n == |idx| ==> Replace(rs, r, After(idx, n), replaced) == Replacement(rs, replaced, false)
    ensures n < |idx| ==> After(idx, n) <= idx[n] < |rs| && rs[idx[n]] == base[idx[n]]
                          && DataEq(rs[idx[n]].rdata, r.rdata)
                          && Replace(rs, r, After(idx, n), replaced) == Replace(rs, r, idx[n], replaced)
  {
    var at := After(idx, n);
    var upTo := if n < |idx| then idx[n] else |rs|;
    if n < |idx| {
      assert idx[n] in idx;
      assert rs[idx[n]] == rs[at..][idx[n] - at] && base[idx[n]] == base[at..][idx[n] - at];
    }
    forall k | at <= k < upTo ensures !DataEq(rs[k].rdata, r.rdata) {
      assert rs[k] == rs[at..][k - at] && base[k] == base[at..][k - at];
      assert k !in idx;
    }
    SkipTo(rs, r, at, upTo, replaced);
  }

  lemma PastReplaced(base: seq<Record>, rs: seq<Record>, r: Record, at: nat, i: nat)
    requires |rs| == |base| && at <= i < |rs| && rs[at..] == base[at..]
    ensures rs[i := r][i + 1..] == base[i + 1..]
  {
    assert rs[i + 1..] == rs[at..][i + 1 - at..] && base[i + 1..] == base[at..][i + 1 - at..];
  }

  ghost function After(idx: seq<nat>, n: nat): nat
    requires n <= |idx|
  {
    if n == 0 then 0 else idx[n - 1] + 1
  }

  class RecordSet {
    const name: Name
    const rtype: RecordType
    var class_: DnsClass
    var ttl: U32
    var records: seq<Record>
    var rrsigs: seq<Record>
    var serial: U32

    constructor (s: RrSet)
      ensures View() == s
    {
      name, rtype, class_, ttl := s.name, s.rtype, s.class_, s.ttl;
      records, rrsigs, serial := s.records, s.rrsigs, s.serial;
    }

    function View(): RrSet
      reads this
    {
      RrSet(name, rtype, class_, ttl, records, rrsigs, serial)
    }

    method Updated(serial: U32)
      modifies this`serial, this`rrsigs
      ensures View() == old(View()).(serial := serial, rrsigs := [])
    {
      this.serial := serial;
      rrsigs := [];
    }

    /** Indexes of the records that share the given data. */
    method Matching(d: RData) returns (idx: seq<nat>)
      ensures IsMatching(idx, records, d)
    {
      idx := [];
      for i := 0 to |records|
        invariant forall k :: k in idx <==> 0 <= k < i && DataEq(records[k].rdata, d)
        invariant forall j :: 0 <= j < |idx| ==> idx[j] < i
        invariant forall i, j :: 0 <= i < j < |idx| ==> idx[i] < idx[j]
      {
        if DataEq(records[i].rdata, d) {
          idx := idx + [i];
        }
      }
    }

    /** The loop over the records that share the new record's data. */
    method ReplaceMatching(record: Record, serial: U32) returns (replaced: bool, identical: bool)
      modifies this`records, this`ttl, this`serial, this`rrsigs
      ensures Replacement(records, replaced, identical) == Replace(old(records), record, 0, false)
      ensures if replaced
              then ttl == record.ttl && this.serial == serial && rrsigs == []
              else ttl == old(ttl) && this.serial == old(this.serial)
                   && rrsigs == old(rrsigs) && records == old(records)
    {
      ghost var base := records;
      var toReplace := Matching(record.rdata);
      replaced, identical := false, false;
      for n := 0 to |toReplace|
        invariant |records| == |base|
        invariant n > 0 ==> toReplace[n - 1] < |base|
        invariant records[After(toReplace, n)..] == base[After(toReplace, n)..]
        invariant Replace(base, record, 0, false) == Replace(records, record, After(toReplace, n), replaced)
        invariant if replaced
                  then ttl == record.ttl && this.serial == serial && rrsigs == []
                  else ttl == old(ttl) && this.serial == old(this.serial) && rrsigs == old(rrsigs) && records == base
      {
        SkipToNext(toReplace, n, base, records, record, replaced);
        var i := toReplace[n];
        if RecordEq(records[i], record) {
          identical := true;
          return;
        }
        PushThenSwap(records, record, i);
        PastReplaced(base, records, record, After(toReplace, n), i);
        records := records + [record];
        records := SwapRemove(records, i);
        ttl := record.ttl;
        Updated(serial);
        replaced := true;
      }
      SkipToNext(toReplace, |toReplace|, base, records, record, replaced);
    }

    method Insert(record: Record, serial: U32) returns (updated: bool)
      requires Fits(View(), record)
      requires SingleRecordType(rtype) ==> |records| <= 1
      requires rtype == SOA && records != [] ==> records[0].rdata.Soa?
      modifies this
      ensures Change(View(), updated) == InsertInto(old(View()), record, serial)
    {
      if record.rtype == SOA {
        if records != [] {
          if record.rdata.Soa? {
            if record.rdata.soa.serial <= records[0].rdata.soa.serial {
              return false;
            }
          } else {
            return false;
          }
        }
        records := [];
      } else if record.rtype == CNAME {
        records := [];
      }
      var replaced, identical := ReplaceMatching(record, serial);
      if identical {
        return false;
      }
      if !replaced {
        ttl := record.ttl;
        Updated(serial);
        records := records + [record];
      }
      updated := true;
    }

    method Remove(record: Record, serial: U32) returns (removed: bool)
      requires NameEq(record.name, name) && (record.rtype == rtype || record.rtype == ANY)
      requires Coherent(View())
      modifies this
      ensures Change(View(), removed) == RemoveFrom(old(View()), record, serial)
    {
      if record.rtype == NS {
        if |records| <= 1 {
          return false;
        }
      } else if record.rtype == SOA {
        return false;
      }
      var toRemove := Matching(record.rdata);
      OneMatch(records, record.rdata, toRemove);
      ghost var start := View();
      removed := false;
      for n := 0 to |toRemove|
        invariant n == 0 ==> View() == start
        invariant removed == (n > 0)
        invariant n > 0 ==> View() == start.(records := start.records[..toRemove[0]] + start.records[toRemove[0] + 1..],
                                             rrsigs := [], serial := serial)
      {
        var i := toRemove[n];
        assert i in toRemove;
        records := records[..i] + records[i + 1..];
        removed := true;
        Updated(serial);
      }
    }
  }

  lemma FirstTwo<T>(s: seq<T>)
    ensures |s| > 0 ==> s[0] in s
    ensures |s| > 1 ==> s[1] in s
  {
  }

  /** With distinct data at most one index matches. */
  lemma OneMatch(rs: seq<Record>, d: RData, idx: seq<nat>)
    requires DistinctData(rs)
    requires IsMatching(idx, rs, d)
    ensures |idx| <= 1
    ensures idx == [] ==> Without(rs, d) == rs
    ensures |idx| == 1 ==> idx[0] < |rs| && Without(rs, d) == rs[..idx[0]] + rs[idx[0] + 1..]
  {
    if |idx| == 0 {
      assert forall k :: 0 <= k < |rs| ==> k !in idx;
      WithoutNothing(rs, d);
    } else {
      FirstTwo(idx);
      WithoutOne(rs, d, idx[0]);
    }
  }

  // ----- What a record set keeps over every run of inserts and removes -----

  lemma {:induction false} ReplaceAbsent(rs: seq<Record>, r: Record, from: nat, replaced: bool)
    requires from <= |rs|
    requires !HasData(rs, r.rdata)
    ensures Replace(rs, r, from, replaced) == Replacement(rs, replaced, false)
    decreases |rs| - from
  {
    if from < |rs| {
      ReplaceAbsent(rs, r, from + 1, replaced);
    }
  }

  /** Among records of distinct data, only the one that shares the new data is looked at. */
  lemma {:induction false} ReplacePresent(rs: seq<Record>, r: Record, from: nat, k: nat)
    requires from <= k < |rs| && DistinctData(rs) && DataEq(rs[k].rdata, r.rdata)
    ensures Replace(rs, r, from, false) ==
            if RecordEq(rs[k], r) then Replacement(rs, false, true) else Replacement(rs[k := r], true, false)
    decreases k - from
  {
    if from < k {
      assert !DataEq(rs[from].rdata, rs[k].rdata);
      ReplacePresent(rs, r, from + 1, k);
    } else if !RecordEq(rs[k], r) {
      var rs' := rs[k := r];
      forall i | k < i < |rs'| ensures !DataEq(rs'[i].rdata, r.rdata) {
        assert !DataEq(rs[k].rdata, rs[i].rdata);
      }
      SkipTo(rs', r, k + 1, |rs'|, true);
    }
  }

  /** What insert does to a coherent set, by cases on its records: refuse an SOA that is not
      newer, put a single-record type's record in place of the old one, leave the set alone when
      it already holds an equal record, replace the one record of equal data that differs
      otherwise, or append. */
  lemma InsertCases(s: RrSet, r: Record, serial: U32)
    requires Coherent(s) && Fits(s, r)
    ensures var c := InsertInto(s, r, serial);
            if SoaRejected(s, r) then c == Change(s, false)
            else if SingleRecordType(s.rtype) then c == Change(Touched(s, [r], r.ttl, serial), true)
            else if !HasData(s.records, r.rdata) then c == Change(Touched(s, s.records + [r], r.ttl, serial), true)
            else exists k :: 0 <= k < |s.records| && DataEq(s.records[k].rdata, r.rdata) &&
                   c == if RecordEq(s.records[k], r) then Change(s, false)
                        else Change(Touched(s, s.records[k := r], r.ttl, serial), true)
  {
    if SoaRejected(s, r) || SingleRecordType(s.rtype) {
    } else if !HasData(s.records, r.rdata) {
      ReplaceAbsent(s.records, r, 0, false);
    } else {
      var k :| 0 <= k < |s.records| && DataEq(s.records[k].rdata, r.rdata);
      ReplacePresent(s.records, r, 0, k);
    }
  }

  /** An insert that is reported leaves the record in the set, gives the set its TTL and the serial, and
      drops the signatures; one that is not changes nothing. */
  lemma InsertReports(s: RrSet, r: Record, serial: U32)
    requires Coherent(s) && Fits(s, r)
    ensures var c := InsertInto(s, r, serial);
            if c.reported
            then && c.set_.ttl == r.ttl && c.set_.serial == serial && c.set_.rrsigs == [] && r in c.set_.records
                 && c.set_.name == s.name && c.set_.rtype == s.rtype && c.set_.class_ == s.class_
            else c.set_ == s
  {
    InsertCases(s, r, serial);
    if !SoaRejected(s, r) && !SingleRecordType(s.rtype) {
      if HasData(s.records, r.rdata) {
        var k :| 0 <= k < |s.records| && DataEq(s.records[k].rdata, r.rdata) &&
                 InsertInto(s, r, serial) == if RecordEq(s.records[k], r) then Change(s, false)
                                             else Change(Touched(s, s.records[k := r], r.ttl, serial), true);
        assert s.records[k := r][k] == r;
      } else {
        assert (s.records + [r])[|s.records|] == r;
      }
    }
  }

  /** A removal that is reported leaves no record of equal data, sets the serial and drops the signatures;
      one that is not changes nothing. */
  lemma RemoveReports(s: RrSet, r: Record, serial: U32)
    ensures var c := RemoveFrom(s, r, serial);
            if c.reported
            then && c.set_ == s.(records := c.set_.records, rrsigs := [], serial := serial)
                 && forall x :: x in c.set_.records <==> x in s.records && !DataEq(x.rdata, r.rdata)
            else c.set_ == s
    ensures RemoveFrom(s, r, serial).reported <==>
            && r.rtype != SOA && !(r.rtype == NS && |s.records| <= 1)
            && exists x :: x in s.records && DataEq(x.rdata, r.rdata)
  {
    WithoutMembers(s.records, r.rdata);
    if !HasData(s.records, r.rdata) {
      WithoutNothing(s.records, r.rdata);
    } else {
      var i :| 0 <= i < |s.records| && DataEq(s.records[i].rdata, r.rdata);
      assert s.records[i] in s.records;
    }
  }

  lemma InsertKeepsCoherent(s: RrSet, r: Record, serial: U32)
    requires Coherent(s) && Fits(s, r) && WellTyped(r)
    ensures Coherent(InsertInto(s, r, serial).set_)
    ensures !InsertInto(s, r, serial).reported ==> InsertInto(s, r, serial).set_ == s
    ensures InsertInto(s, r, serial).set_.records != []
  {
    InsertCases(s, r, serial);
    if !SoaRejected(s, r) && !SingleRecordType(s.rtype) && HasData(s.records, r.rdata) {
      var k :| 0 <= k < |s.records| && DataEq(s.records[k].rdata, r.rdata) &&
               InsertInto(s, r, serial) == if RecordEq(s.records[k], r) then Change(s, false)
                                           else Change(Touched(s, s.records[k := r], r.ttl, serial), true);
      PutKeepsDistinct(s.records, k, r);
    }
  }

  lemma {:induction false} WithoutMembers(rs: seq<Record>, d: RData)
    ensures forall r :: r in Without(rs, d) <==> r in rs && !DataEq(r.rdata, d)
    ensures |Without(rs, d)| <= |rs|
    ensures |Without(rs, d)| == |rs| ==> Without(rs, d) == rs
  {
    if rs != [] {
      WithoutMembers(rs[1..], d);
      assert rs == [rs[0]] + rs[1..];
    }
  }

  /** Removing takes out exactly the record of equal data, reports exactly whether it did, and
      refuses to take the last NS record or an SOA. */
  lemma RemoveKeepsCoherent(s: RrSet, r: Record, serial: U32)
    requires Coherent(s)
    ensures Coherent(RemoveFrom(s, r, serial).set_)
    ensures !RemoveFrom(s, r, serial).reported ==> RemoveFrom(s, r, serial).set_ == s
    ensures RemoveFrom(s, r, serial).reported <==> !RemoveRefused(s, r) && HasData(s.records, r.rdata)
    ensures r.rtype == NS && s.records != [] ==> RemoveFrom(s, r, serial).set_.records != []
  {
    if !RemoveRefused(s, r) {
      if HasData(s.records, r.rdata) {
        var k :| 0 <= k < |s.records| && DataEq(s.records[k].rdata, r.rdata);
        WithoutOne(s.records, r.rdata, k);
        CutKeepsDistinct(s.records, k);
      } else {
        WithoutNothing(s.records, r.rdata);
      }
    }
  }

  lemma CutKeepsDistinct(rs: seq<Record>, k: nat)
    requires DistinctData(rs) && k < |rs|
    ensures DistinctData(rs[..k] + rs[k + 1..])
  {
    var cut := rs[..k] + rs[k + 1..];
    forall i, j | 0 <= i < j < |cut| ensures !DataEq(cut[i].rdata, cut[j].rdata) {
      assert cut[i] == rs[if i < k then i else i + 1] && cut[j] == rs[if j < k then j else j + 1];
    }
  }

  lemma PutKeepsDistinct(rs: seq<Record>, k: nat, r: Record)
    requires DistinctData(rs) && k < |rs| && DataEq(rs[k].rdata, r.rdata)
    ensures DistinctData(rs[k := r])
  {
    var put := rs[k := r];
    forall i, j | 0 <= i < j < |put| ensures !DataEq(put[i].rdata, put[j].rdata) {
      assert !DataEq(rs[i].rdata, rs[j].rdata);
    }
  }

  datatype SetOp = InsertOp(record: Record, serial: U32) | RemoveOp(record: Record, serial: U32)

  function ApplyOp(s: RrSet, op: SetOp): Change {
    match op
    case InsertOp(r, n) => InsertInto(s, r, n)
    case RemoveOp(r, n) => RemoveFrom(s, r, n)
  }

  function RunOps(s: RrSet, ops: seq<SetOp>): RrSet
    decreases |ops|
  {
    if ops == [] then s else RunOps(ApplyOp(s, ops[0]).set_, ops[1..])
  }

  /** Over every run, from an empty set on: distinct data, one SOA or CNAME, every record under
      the set's name and type; and a set of NS records that ever held one never loses its last. */
  lemma {:induction false} RunKeepsCoherent(s: RrSet, ops: seq<SetOp>)
    requires Coherent(s)
    requires forall i :: 0 <= i < |ops| ==> Fits(s, ops[i].record)
    requires forall i :: 0 <= i < |ops| ==> ops[i].InsertOp? ==> WellTyped(ops[i].record)
    ensures Coherent(RunOps(s, ops))
    ensures s.rtype == NS && s.records != [] ==> RunOps(s, ops).records != []
    decreases |ops|
  {
    if ops != [] {
      var op := ops[0];
      match op {
        case InsertOp(r, n) => InsertKeepsCoherent(s, r, n);
        case RemoveOp(r, n) => RemoveKeepsCoherent(s, r, n);
      }
      RunKeepsCoherent(ApplyOp(s, op).set_, ops[1..]);
    }
  }
}
