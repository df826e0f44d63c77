/** When the octets an RRSIG signs depend on the order of the records: the records are sorted by what
    could be written of their plain form (to_bytes of client/src/rr/record_data.rs leaves off at an
    error), and written in canonical form. */
module SignedOrder {
  import opened Basics
  import opened Names
  import opened Records
  import opened SignedData
  import opened NameCodec

  // ----- Records that sort alike but are written differently -----

  /** x is put in front of y and what follows it. */
  lemma FrontInsert(f: Format, x: Record, y: Record, rs: seq<Record>)
    requires CmpRecords(f, x, y) == Equal && (rs == [] || CmpRecords(f, y, rs[0]) != Greater)
    ensures InsertSorted(f, x, InsertSorted(f, y, rs)) == [] + [x, y] + rs
  {
    assert InsertSorted(f, y, rs) == [y] + rs;
    InsertPast(f, x, y, rs);
  }

  lemma PastInsert(f: Format, x: Record, y: Record, head: Record, tail: seq<Record>, l: seq<Record>, r: seq<Record>)
    requires CmpRecords(f, x, head) == Greater && CmpRecords(f, y, head) == Greater
    requires InsertSorted(f, x, InsertSorted(f, y, tail)) == l + [x, y] + r
    ensures InsertSorted(f, x, InsertSorted(f, y, [head] + tail)) == ([head] + l) + [x, y] + r
  {
    InsertBehind(f, y, head, tail);
    InsertBehind(f, x, head, InsertSorted(f, y, tail));
    Prepend(head, l, x, y, r);
  }

  lemma InsertBehind(f: Format, r: Record, head: Record, tail: seq<Record>)
    requires CmpRecords(f, r, head) == Greater
    ensures InsertSorted(f, r, [head] + tail) == [head] + InsertSorted(f, r, tail)
  {
    InsertPast(f, r, head, tail);
  }

  lemma Prepend<T>(head: T, l: seq<T>, x: T, y: T, r: seq<T>)
    ensures [head] + (l + [x, y] + r) == ([head] + l) + [x, y] + r
  {
  }

  lemma {:induction false} InsertBoth(f: Format, x: Record, y: Record, rs: seq<Record>)
    returns (l: seq<Record>, r: seq<Record>)
    requires CmpRecords(f, x, y) == Equal == CmpRecords(f, y, x)
    requires forall z :: z in rs ==> CmpRecords(f, x, z) == CmpRecords(f, y, z)
    ensures InsertSorted(f, x, InsertSorted(f, y, rs)) == l + [x, y] + r
    ensures InsertSorted(f, y, InsertSorted(f, x, rs)) == l + [y, x] + r
  {
    assert rs != [] ==> rs[0] in rs;
    if rs == [] || CmpRecords(f, x, rs[0]) != Greater {
      l, r := [], rs;
      FrontInsert(f, x, y, rs);
      FrontInsert(f, y, x, rs);
    } else {
      var head, tail := rs[0], rs[1..];
      assert rs == [head] + tail;
      var l', r' := InsertBoth(f, x, y, tail);
      l, r := [head] + l', r';
      PastInsert(f, x, y, head, tail, l', r');
      PastInsert(f, y, x, head, tail, l', r');
    }
  }

  lemma {:induction false} OctetsJoin(f: Format, owner: Name, class_: DnsClass, s: SigFields,
                                      a: seq<Record>, b: seq<Record>)
    ensures RecordsOctets(f, owner, class_, s, a + b) ==
            RecordsOctets(f, owner, class_, s, a) + RecordsOctets(f, owner, class_, s, b)
  {
    if a == [] {
      assert a + b == b;
    } else {
      assert (a + b)[0] == a[0] && (a + b)[1..] == a[1..] + b;
      OctetsJoin(f, owner, class_, s, a[1..], b);
    }
  }

  lemma OctetsOfTwo(f: Format, owner: Name, class_: DnsClass, s: SigFields, l: seq<Record>,
                    x: Record, y: Record, r: seq<Record>)
    ensures RecordsOctets(f, owner, class_, s, l + [x, y] + r) ==
            RecordsOctets(f, owner, class_, s, l)
            + (RecordOctets(owner, class_, s, f.canon(x.rdata)) + RecordOctets(owner, class_, s, f.canon(y.rdata)))
            + RecordsOctets(f, owner, class_, s, r)
  {
    OctetsJoin(f, owner, class_, s, l + [x, y], r);
    OctetsJoin(f, owner, class_, s, l, [x, y]);
    OctetsOfOne(f, owner, class_, s, x);
    OctetsOfOne(f, owner, class_, s, y);
    OctetsJoin(f, owner, class_, s, [x], [y]);
    assert [x] + [y] == [x, y];
  }

  lemma OctetsOfOne(f: Format, owner: Name, class_: DnsClass, s: SigFields, x: Record)
    ensures RecordsOctets(f, owner, class_, s, [x]) == RecordOctets(owner, class_, s, f.canon(x.rdata))
  {
    var o := RecordOctets(owner, class_, s, f.canon(x.rdata));
    assert [x][1..] == [] && o + [] == o;
  }

  /** Data behind their lengths commute only if they are equal: where they begin their lengths show,
      and then the octets themselves. */
  lemma CommuteMeansEqual(p: Bytes, x: Bytes, y: Bytes, a: Bytes, b: Bytes)
    requires |x| <= 0xFFFF && |y| <= 0xFFFF && a == p + U16Octets(|x|) + x && b == p + U16Octets(|y|) + y
    requires a + b == b + a
    ensures x == y
  {
    LengthShows(p, x, y, a, b);
    assert (a + b)[..|a|] == a && (b + a)[..|b|] == b;
    assert a[|p| + 2..] == x && b[|p| + 2..] == y;
  }

  lemma LengthShows(p: Bytes, x: Bytes, y: Bytes, a: Bytes, b: Bytes)
    requires |x| <= 0xFFFF && |y| <= 0xFFFF && a == p + U16Octets(|x|) + x && b == p + U16Octets(|y|) + y
    requires a + b == b + a
    ensures |x| == |y|
  {
    assert (a + b)[|p|] == |x| / 256 % 256 && (b + a)[|p|] == |y| / 256 % 256;
    assert (a + b)[|p| + 1] == |x| % 256 && (b + a)[|p| + 1] == |y| % 256;
  }

  lemma Sandwich(l: Bytes, a: Bytes, b: Bytes, r: Bytes)
    requires |a| == |b| && l + a + r == l + b + r
    ensures a == b
  {
    assert (l + a + r)[|l|..|l| + |a|] == a && (l + b + r)[|l|..|l| + |b|] == b;
  }

  /** Two records of a set that sort alike and are written differently: which comes first in the
      input shows in the octets. */
  lemma OrderShows(f: Format, n: Name, class_: DnsClass, s: SigFields, x: Record, y: Record, rest: seq<Record>)
    requires Selected(x, n, class_, s.typeCovered) && Selected(y, n, class_, s.typeCovered)
    requires PairOf(f, x) == PairOf(f, y) && f.canon(x.rdata) != f.canon(y.rdata)
    requires |f.canon(x.rdata)| <= 0xFFFF && |f.canon(y.rdata)| <= 0xFFFF
    requires HashRrset(f, n, class_, s, [x, y] + rest).Hashed? && HashRrset(f, n, class_, s, [y, x] + rest).Hashed?
    ensures HashRrset(f, n, class_, s, [x, y] + rest) != HashRrset(f, n, class_, s, [y, x] + rest)
  {
    var t := s.typeCovered;
    var chosen := Select(rest, n, class_, t);
    SelectTwo(x, y, rest, n, class_, t);
    SelectTwo(y, x, rest, n, class_, t);
    var l, r := SortsBoth(f, x, y, chosen, rest, n, class_, t);
    var owner := Lower(DetermineName(n, s.numLabels).value);
    OctetsShow(f, owner, class_, s, l, x, y, r);
    var head := PreSig(s.(numLabels := NumLabels(DetermineName(n, s.numLabels).value)));
    var a, b := RecordsOctets(f, owner, class_, s, l + [x, y] + r), RecordsOctets(f, owner, class_, s, l + [y, x] + r);
    assert head + a != head + b by {
      assert (head + a)[|head|..] == a && (head + b)[|head|..] == b;
    }
  }

  lemma SelectTwo(x: Record, y: Record, rest: seq<Record>, n: Name, class_: DnsClass, t: RecordType)
    requires Selected(x, n, class_, t) && Selected(y, n, class_, t)
    ensures Select([x, y] + rest, n, class_, t) == [x, y] + Select(rest, n, class_, t)
  {
    SelectSplit([x, y], rest, n, class_, t);
    assert [x, y][1..] == [y] && [y][1..] == [];
  }

  lemma SortsBoth(f: Format, x: Record, y: Record, chosen: seq<Record>, rest: seq<Record>, n: Name, class_: DnsClass,
                  t: RecordType) returns (l: seq<Record>, r: seq<Record>)
    requires Selected(x, n, class_, t) && Selected(y, n, class_, t) && PairOf(f, x) == PairOf(f, y)
    requires chosen == Select(rest, n, class_, t)
    ensures Sort(f, [x, y] + chosen) == l + [x, y] + r && Sort(f, [y, x] + chosen) == l + [y, x] + r
  {
    var sorted := Sort(f, chosen);
    SelectAllSelected(rest, n, class_, t);
    SortMembers(f, chosen);
    AlikeCompare(f, x, y, y, n, class_, t);
    forall z | z in sorted ensures CmpRecords(f, x, z) == CmpRecords(f, y, z) {
      AlikeCompare(f, x, y, z, n, class_, t);
    }
    l, r := InsertBoth(f, x, y, sorted);
    SortTwo(f, x, y, chosen);
    SortTwo(f, y, x, chosen);
  }

  lemma AlikeCompare(f: Format, x: Record, y: Record, z: Record, n: Name, class_: DnsClass, t: RecordType)
    requires Selected(x, n, class_, t) && Selected(y, n, class_, t) && Selected(z, n, class_, t)
    requires PairOf(f, x) == PairOf(f, y)
    ensures CmpRecords(f, x, z) == CmpRecords(f, y, z)
    ensures CmpRecords(f, x, y) == Equal == CmpRecords(f, y, x)
  {
    CmpSelected(f, x, z, n, class_, t);
    CmpSelected(f, y, z, n, class_, t);
    CmpSelected(f, x, y, n, class_, t);
    CmpSelected(f, y, x, n, class_, t);
    PairOrder(PairOf(f, x), PairOf(f, y), PairOf(f, x));
  }

  lemma SortTwo(f: Format, x: Record, y: Record, rs: seq<Record>)
    ensures Sort(f, [x, y] + rs) == InsertSorted(f, x, InsertSorted(f, y, Sort(f, rs)))
  {
    assert ([x, y] + rs)[1..] == [y] + rs && ([y] + rs)[1..] == rs;
  }

  lemma OctetsShow(f: Format, owner: Name, class_: DnsClass, s: SigFields, l: seq<Record>,
                   x: Record, y: Record, r: seq<Record>)
    requires f.canon(x.rdata) != f.canon(y.rdata) && |f.canon(x.rdata)| <= 0xFFFF && |f.canon(y.rdata)| <= 0xFFFF
    ensures RecordsOctets(f, owner, class_, s, l + [x, y] + r) != RecordsOctets(f, owner, class_, s, l + [y, x] + r)
  {
    OctetsOfTwo(f, owner, class_, s, l, x, y, r);
    OctetsOfTwo(f, owner, class_, s, l, y, x, r);
    var p := NameOctets(owner) + U16Octets(Code(s.typeCovered)) + U16Octets(ClassCode(class_))
             + U32Octets(s.originalTtl);
    var ox, oy := RecordOctets(owner, class_, s, f.canon(x.rdata)), RecordOctets(owner, class_, s, f.canon(y.rdata));
    var before, after := RecordsOctets(f, owner, class_, s, l), RecordsOctets(f, owner, class_, s, r);
    if before + (ox + oy) + after == before + (oy + ox) + after {
      Sandwich(before, ox + oy, oy + ox, after);
      CommuteMeansEqual(p, f.canon(x.rdata), f.canon(y.rdata), ox, oy);
    }
  }

  /** Two elements of a sequence brought to its front. */
  lemma FrontTwo<T>(a: seq<T>, x: T, y: T) returns (rest: seq<T>)
    requires x in a && y in a && x != y
    ensures multiset([x, y] + rest) == multiset(a) && multiset([y, x] + rest) == multiset(a)
  {
    var b := FrontOne(a, x);
    assert y in b by {
      assert y in multiset(a) && y in multiset{x} + multiset(b);
    }
    rest := FrontOne(b, y);
    assert [x, y] + rest == [x] + ([y] + rest) && [y, x] + rest == [y] + ([x] + rest);
  }

  lemma FrontOne<T>(a: seq<T>, x: T) returns (rest: seq<T>)
    requires x in a
    ensures multiset(a) == multiset{x} + multiset(rest)
  {
    var i :| 0 <= i < |a| && a[i] == x;
    rest := a[..i] + a[i + 1..];
    assert a == a[..i] + [x] + a[i + 1..];
  }

  ghost predicate AnyOrderSigns(f: Format, n: Name, class_: DnsClass, s: SigFields, a: seq<Record>) {
    forall b :: multiset(b) == multiset(a) ==> HashRrset(f, n, class_, s, b) == HashRrset(f, n, class_, s, a)
  }

  /** Where the octets can be built, they are the same for every order of the records exactly when the
      records of the set are determined by what they sort by. */
  lemma PermutationExactly(f: Format, n: Name, class_: DnsClass, s: SigFields, a: seq<Record>)
    requires HashRrset(f, n, class_, s, a).Hashed? && forall r :: r in a ==> |f.canon(r.rdata)| <= 0xFFFF
    ensures AnyOrderSigns(f, n, class_, s, a) <==> Determined(f, Select(a, n, class_, s.typeCovered))
  {
    var chosen := Select(a, n, class_, s.typeCovered);
    if Determined(f, chosen) {
      forall b | multiset(b) == multiset(a) ensures HashRrset(f, n, class_, s, b) == HashRrset(f, n, class_, s, a) {
        PermutationInvariant(f, n, class_, s, a, b);
      }
    } else {
      var x, y :| x in chosen && y in chosen && PairOf(f, x) == PairOf(f, y) && f.canon(x.rdata) != f.canon(y.rdata);
      SelectHas(a, n, class_, s.typeCovered, x);
      SelectHas(a, n, class_, s.typeCovered, y);
      SomeOrderShows(f, n, class_, s, a, x, y);
    }
  }

  lemma SomeOrderShows(f: Format, n: Name, class_: DnsClass, s: SigFields, a: seq<Record>, x: Record, y: Record)
    requires HashRrset(f, n, class_, s, a).Hashed? && x in a && y in a
    requires Selected(x, n, class_, s.typeCovered) && Selected(y, n, class_, s.typeCovered)
    requires PairOf(f, x) == PairOf(f, y) && f.canon(x.rdata) != f.canon(y.rdata)
    requires |f.canon(x.rdata)| <= 0xFFFF && |f.canon(y.rdata)| <= 0xFFFF
    ensures !AnyOrderSigns(f, n, class_, s, a)
  {
    var rest := FrontTwo(a, x, y);
    if HashRrset(f, n, class_, s, [x, y] + rest).Hashed? && HashRrset(f, n, class_, s, [y, x] + rest).Hashed? {
      OrderShows(f, n, class_, s, x, y, rest);
    }
  }

  /** Such data exist: a label of more than 63 octets is not written in plain form at all, and in
      canonical form it is written out. */
  lemma LongLabelsSortAlike(l: Label, e: Enc)
    requires 63 < |l| <= 253 && Empty(e)
    ensures EmitName(e, [l], false).EmitFailed?
    ensures EmitName(e, [l], true) == Emitted(Put(e, [|l|] + l + [0]))
  {
    var e1 := Put(e, LabelOctets(l));
    assert [l][1..] == [];
    assert Canonical(e1, [], Offset(e)) == Emitted(Put(e1, [0]));
    assert Canonical(e, [l], Offset(e)) == Canonical(e1, [], Offset(e));
    assert e.buffer + LabelOctets(l) + [0] == e.buffer + ([|l|] + l + [0]);
  }
}
