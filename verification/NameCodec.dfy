/** Names on the wire with compression pointers (section 4.1.4 of RFC 1035): Name::read and
    emit_as_canonical of client/src/rr/domain.rs over client/src/serialize/binary, and the record
    data that Record::emit of client/src/rr/resource.rs encodes at a shifted offset. */
module NameCodec {
  import opened Basics
  import opened Names

  // ----- Reading -----

  /** A name with the index after it, an error, or no answer within the pointers allowed. */
  datatype ReadResult = Read(name: Name, next: nat) | Malformed | Endless

  function PointerAt(buf: Bytes, at: nat): nat
    requires at + 1 < |buf|
  {
    (buf[at] as int % 64) * 256 + buf[at + 1] as int
  }

  function After(labels: Name, r: ReadResult): ReadResult {
    if r.Read? then Read(labels + r.name, r.next) else r
  }

  /** Name::read at an index, following at most so many pointers one inside the other. */
  function ReadName(buf: Bytes, at: nat, hops: nat): ReadResult
    decreases hops, |buf| - at
  {
    if at >= |buf| then Malformed
    else if buf[at] == 0 then Read([], at + 1)
    else if buf[at] >= 192 then
      if at + 1 >= |buf| then Malformed
      else if hops == 0 then Endless
      else
        var pointed := ReadName(buf, PointerAt(buf, at), hops - 1);
        if pointed.Read? then Read(pointed.name, at + 2) else pointed
    else if buf[at] >= 64 then Malformed
    else if at + 1 + buf[at] > |buf| then Malformed
    else After([buf[at + 1..at + 1 + buf[at]]], ReadName(buf, at + 1 + buf[at], hops))
  }

  /** A pointer is two octets that read, high octet first, as 0xC000 and its target; the name goes on
      there. */
  lemma FollowsPointer(buf: Bytes, at: nat, hops: nat)
    requires at + 2 <= |buf| && WordAt(buf, at) >= 0xC000 && hops > 0
    ensures ReadName(buf, at, hops) ==
            match ReadName(buf, WordAt(buf, at) - 0xC000, hops - 1)
            case Read(n, _) => Read(n, at + 2)
            case error => error
  {
  }

  /** And so it is written. */
  lemma PointerWritten(loc: nat)
    requires loc < 0x4000
    ensures |PointerOctets(loc)| == 2 && WordAt(PointerOctets(loc), 0) == 0xC000 + loc
  {
  }

  /** One label further, or the end of the labels. */
  lemma ReadStep(buf: Bytes, at: nat, hops: nat, labels: Name)
    ensures at < |buf| && 0 < buf[at] < 64 && at + 1 + buf[at] <= |buf| ==>
              After(labels, ReadName(buf, at, hops)) ==
              After(labels + [buf[at + 1..at + 1 + buf[at]]], ReadName(buf, at + 1 + buf[at], hops))
    ensures at < |buf| && 0 < buf[at] < 64 && at + 1 + buf[at] > |buf| ==> ReadName(buf, at, hops) == Malformed
  {
    if at < |buf| && 0 < buf[at] < 64 && at + 1 + buf[at] <= |buf| {
      var text, r := buf[at + 1..at + 1 + buf[at]], ReadName(buf, at + 1 + buf[at], hops);
      if r.Read? { assert labels + ([text] + r.name) == (labels + [text]) + r.name; }
    }
  }

  /** The loop of Name::read: collect labels until the root or a pointer, which ends the name. */
  method ReadLoop(buf: Bytes, start: nat, hops: nat) returns (r: ReadResult)
    ensures r == ReadName(buf, start, hops)
    decreases hops
  {
    var at, labels, closed := ReadLabels(buf, start, hops);
    if !closed || at >= |buf| {
      return Malformed;
    } else if buf[at] == 0 {
      assert labels + [] == labels;
      return Read(labels, at + 1);
    } else if buf[at] < 192 || at + 1 >= |buf| {
      return Malformed;
    } else if hops == 0 {
      return Endless;
    }
    var pointed := ReadLoop(buf, PointerAt(buf, at), hops - 1);
    if pointed.Read? {
      r := Read(labels + pointed.name, at + 2);
    } else {
      r := pointed;
    }
  }

  method ReadLabels(buf: Bytes, start: nat, hops: nat) returns (at: nat, labels: Name, closed: bool)
    ensures !closed ==> ReadName(buf, start, hops) == Malformed
    ensures closed ==> ReadName(buf, start, hops) == After(labels, ReadName(buf, at, hops))
    ensures closed && at < |buf| ==> buf[at] == 0 || buf[at] >= 64
  {
    at, labels := start, [];
    while at < |buf| && 0 < buf[at] < 64
      invariant ReadName(buf, start, hops) == After(labels, ReadName(buf, at, hops))
      decreases |buf| - at
    {
      ReadStep(buf, at, hops, labels);
      var len := buf[at];
      if at + 1 + len > |buf| {
        return at, labels, false;
      }
      labels := labels + [buf[at + 1..at + 1 + len]];
      at := at + 1 + len;
    }
    closed := true;
  }

  predicate GoodLabel(l: Label) {
    1 <= |l| <= 63
  }

  /** Labels of 1 to 63 octets. */
  predicate GoodName(n: Name) {
    forall i :: 0 <= i < |n| ==> GoodLabel(n[i])
  }

  /** Whatever the buffer, a name that is read has only such labels. */
  lemma {:induction false} ReadsOnlyGood(buf: Bytes, at: nat, hops: nat)
    ensures ReadName(buf, at, hops).Read? ==> GoodName(ReadName(buf, at, hops).name)
    decreases hops, |buf| - at
  {
    if at < |buf| && buf[at] != 0 {
      if buf[at] >= 192 {
        if at + 1 < |buf| && hops > 0 { ReadsOnlyGood(buf, PointerAt(buf, at), hops - 1); }
      } else if buf[at] < 64 && at + 1 + buf[at] <= |buf| {
        ReadsOnlyGood(buf, at + 1 + buf[at], hops);
      }
    }
  }

  /** A name already read is read the same with more pointers allowed and from a longer buffer. */
  lemma {:induction false} ReadStable(buf: Bytes, more: Bytes, at: nat, hops: nat, hops': nat)
    requires ReadName(buf, at, hops).Read? && hops <= hops'
    ensures ReadName(buf + more, at, hops') == ReadName(buf, at, hops)
    decreases hops, |buf| - at
  {
    var full := buf + more;
    assert full[at] == buf[at];
    if buf[at] >= 192 {
      assert full[at + 1] == buf[at + 1];
      ReadStable(buf, more, PointerAt(buf, at), hops - 1, hops' - 1);
    } else if buf[at] != 0 {
      var len := buf[at];
      assert full[at + 1..at + 1 + len] == buf[at + 1..at + 1 + len];
      ReadStable(buf, more, at + 1 + len, hops, hops');
    }
  }

  // ----- Writing -----

  /** An encoder: what it has written, where its first octet will stand, and where in that count
      each list of labels it wrote begins. */
  datatype Enc = Enc(base: nat, buffer: Bytes, pointers: map<Name, nat>)

  function Offset(e: Enc): nat {
    e.base + |e.buffer|
  }

  function Put(e: Enc, bs: Bytes): Enc {
    e.(buffer := e.buffer + bs)
  }

  const POINTER_LIMIT: nat := 0x3FFF

  /** store_label_pointer: remember where a list of labels begins, while a pointer can reach it. */
  function Store(e: Enc, labels: Name): Enc {
    if Offset(e) < POINTER_LIMIT then e.(pointers := e.pointers[labels := Offset(e)]) else e
  }

  function PointerOctets(loc: nat): Bytes {
    [192 + loc % 0x4000 / 256, loc % 256]
  }

  function LabelOctets(l: Label): Bytes
    requires |l| <= 255
  {
    [|l|] + l
  }

  datatype EmitResult = Emitted(enc: Enc) | EmitFailed

  /** The compressing branch: a pointer as soon as the labels that are left are known, and the
      labels up to it otherwise; `start` is where the name began, for the check of its length. */
  function Compress(e: Enc, labels: Name, start: nat): EmitResult
    decreases |labels|
  {
    if labels == [] then
      var e' := Put(e, [0]);
      if Offset(e') > start + 255 then EmitFailed else Emitted(e')
    else if labels in e.pointers then Emitted(Put(e, PointerOctets(e.pointers[labels])))
    else if |labels[0]| > 63 then EmitFailed
    else Compress(Put(Store(e, labels), LabelOctets(labels[0])), labels[1..], start)
  }

  /** The canonical branch: the labels and nothing else. */
  function Canonical(e: Enc, labels: Name, start: nat): EmitResult
    decreases |labels|
  {
    if labels == [] then
      var e' := Put(e, [0]);
      if Offset(e') > start + 255 then EmitFailed else Emitted(e')
    else if |labels[0]| > 255 then EmitFailed
    else Canonical(Put(e, LabelOctets(labels[0])), labels[1..], start)
  }

  function EmitName(e: Enc, n: Name, canonical: bool): EmitResult {
    if canonical then Canonical(e, n, Offset(e)) else Compress(e, n, Offset(e))
  }

  class BinEncoder {
    var offset: nat
    var buffer: Bytes
    var namePointers: map<Name, nat>
    const base: nat

    constructor (base: nat)
      ensures Valid() && View() == Enc(base, [], map[])
    {
      this.base := base;
      offset, buffer, namePointers := base, [], map[];
    }

    ghost predicate Valid()
      reads this
    {
      offset == base + |buffer|
    }

    function View(): Enc
      reads this
    {
      Enc(base, buffer, namePointers)
    }

    method Emit(b: Byte)
      requires Valid()
      modifies this`offset, this`buffer
      ensures Valid() && View() == Put(old(View()), [b])
    {
      offset := offset + 1;
      buffer := buffer + [b];
    }

    method EmitVec(bs: Bytes)
      requires Valid()
      modifies this`offset, this`buffer
      ensures Valid() && View() == Put(old(View()), bs)
    {
      for i := 0 to |bs|
        invariant Valid() && View() == Put(old(View()), bs[..i])
      {
        assert old(buffer) + bs[..i] + [bs[i]] == old(buffer) + bs[..i + 1];
        Emit(bs[i]);
      }
      assert bs[..|bs|] == bs;
    }

    /** emit_character_data: the length octet and the octets, or an error above 255. */
    method EmitCharacterData(l: Label) returns (ok: bool)
      requires Valid()
      modifies this`offset, this`buffer
      ensures Valid() && ok == (|l| <= 255)
      ensures View() == if ok then Put(old(View()), LabelOctets(l)) else old(View())
    {
      if |l| > 255 {
        return false;
      }
      Emit(|l|);
      assert old(buffer) + [|l|] + l == old(buffer) + ([|l|] + l);
      EmitVec(l);
      ok := true;
    }

    method StoreLabelPointer(labels: Name)
      requires Valid()
      modifies this`namePointers
      ensures View() == Store(old(View()), labels)
    {
      if offset < POINTER_LIMIT {
        namePointers := namePointers[labels := offset];
      }
    }

    method EmitAsCanonical(name: Name, canonical: bool) returns (ok: bool)
      requires Valid()
      modifies this
      ensures Valid()
      ensures (if ok then Emitted(View()) else EmitFailed) == EmitName(old(View()), name, canonical)
    {
      var start := offset;
      var labels := name;
      while labels != []
        invariant Valid()
        invariant (if canonical then Canonical(View(), labels, start) else Compress(View(), labels, start))
                  == EmitName(old(View()), name, canonical)
        decreases |labels|
      {
        var text := labels[0];
        if !canonical {
          if labels in namePointers {
            EmitVec(PointerOctets(namePointers[labels]));
            return true;
          }
          if |text| > 63 {
            return false;
          }
          StoreLabelPointer(labels);
        }
        ok := EmitCharacterData(text);
        if !ok {
          return;
        }
        labels := labels[1..];
      }
      Emit(0);
      ok := offset - start <= 255;
    }

    /** Some octets and names in turn. */
    method EmitAtoms(atoms: seq<Atom>) returns (ok: bool)
      requires Valid()
      modifies this
      ensures Valid()
      ensures ok <==> WriteAtoms(old(View()), atoms).Ran?
      ensures ok ==> View() == WriteAtoms(old(View()), atoms).enc
    {
      ghost var start := View();
      var i := 0;
      assert atoms[0..] == atoms;
      while i < |atoms|
        invariant i <= |atoms| && Valid()
        invariant WriteAtoms(start, atoms).Ran? <==> WriteAtoms(View(), atoms[i..]).Ran?
        invariant WriteAtoms(start, atoms).Ran? ==> WriteAtoms(start, atoms).enc == WriteAtoms(View(), atoms[i..]).enc
      {
        assert atoms[i..][0] == atoms[i] && atoms[i..][1..] == atoms[i + 1..];
        match atoms[i] {
          case Octets(bs) => EmitVec(bs);
          case NameAtom(n, canonical) =>
            var done := EmitAsCanonical(n, canonical);
            if !done {
              return false;
            }
        }
        i := i + 1;
      }
      ok := true;
    }

    /** Record data: encoded apart, from where it will stand, then spliced in after its length. */
    method EmitRdata(atoms: seq<Atom>) returns (ok: bool)
      requires Valid()
      modifies this
      ensures Valid()
      ensures ok <==> WriteItem(old(View()), Rdata(atoms)).Ran?
      ensures ok ==> View() == WriteItem(old(View()), Rdata(atoms)).enc
    {
      var tmp := new BinEncoder(offset + 2);
      ok := tmp.EmitAtoms(atoms);
      if ok {
        var data := tmp.buffer;
        ok := |data| <= 0xFFFF;
        if ok {
          assert old(buffer) + ([|data| / 256, |data| % 256] + data) ==
                 old(buffer) + [|data| / 256, |data| % 256] + data;
          EmitVec([|data| / 256, |data| % 256]);
          EmitVec(data);
        }
      }
    }
  }

  // ----- What is written reads back -----

  ghost predicate ReadsAs(buf: Bytes, at: nat, hops: nat, n: Name) {
    ReadName(buf, at, hops).Read? && ReadName(buf, at, hops).name == n
  }

  /** A place to point to: before `before`, within reach of a pointer, and read back as the labels
      through no more pointers than there are octets before it. */
  ghost predicate Good(full: Bytes, loc: nat, before: nat, labels: Name) {
    loc < before && loc < POINTER_LIMIT && ReadsAs(full, loc, loc, labels)
  }

  /** Every remembered list of labels up to a length has such a place. */
  ghost predicate Known(full: Bytes, pointers: map<Name, nat>, upTo: nat, before: nat) {
    forall labels :: labels in pointers && |labels| <= upTo ==> Good(full, pointers[labels], before, labels)
  }

  lemma GoodLonger(full: Bytes, more: Bytes, loc: nat, before: nat, after: nat, labels: Name)
    requires Good(full, loc, before, labels) && before <= after
    ensures Good(full + more, loc, after, labels)
  {
    ReadStable(full, more, loc, loc, loc);
  }

  lemma KnownLonger(full: Bytes, more: Bytes, pointers: map<Name, nat>, upTo: nat, before: nat, after: nat)
    requires Known(full, pointers, upTo, before) && before <= after
    ensures Known(full + more, pointers, upTo, after)
  {
    forall labels | labels in pointers && |labels| <= upTo ensures Good(full + more, pointers[labels], after, labels) {
      GoodLonger(full, more, pointers[labels], before, after, labels);
    }
  }

  lemma PointerIsTarget(full: Bytes, loc: nat)
    requires loc < 0x4000
    ensures var buf := full + PointerOctets(loc);
            |buf| == |full| + 2 && buf[|full|] >= 192 && PointerAt(buf, |full|) == loc
  {
    var buf := full + PointerOctets(loc);
    assert buf[|full|] == 192 + loc / 256 && buf[|full| + 1] == loc % 256;
  }

  lemma PointerReads(full: Bytes, loc: nat, hops: nat, n: Name)
    requires loc < 0x4000 && loc < hops && ReadsAs(full, loc, loc, n)
    ensures ReadName(full + PointerOctets(loc), |full|, hops) == Read(n, |full| + 2)
  {
    PointerIsTarget(full, loc);
    ReadStable(full, PointerOctets(loc), loc, loc, hops - 1);
  }

  lemma EndReads(full: Bytes, hops: nat)
    ensures ReadName(full + [0], |full|, hops) == Read([], |full| + 1)
  {
  }

  lemma LabelReads(full: Bytes, l: Label, rest: Bytes, hops: nat)
    requires GoodLabel(l)
    ensures ReadName(full + LabelOctets(l) + rest, |full|, hops) ==
            After([l], ReadName(full + LabelOctets(l) + rest, |full| + 1 + |l|, hops))
  {
    var buf := full + LabelOctets(l) + rest;
    assert buf[|full|] == |l|;
    assert buf[|full| + 1..|full| + 1 + |l|] == l;
  }

  /** What one emitted name adds: it reads back from where it was written, its suffixes are
      remembered, and longer lists of labels are remembered as before. */
  ghost predicate Written(P: Bytes, e: Enc, labels: Name, start: nat, e': Enc)
    requires start <= Offset(e)
  {
    && e'.base == e.base && e.buffer <= e'.buffer
    && ReadName(P + e'.buffer, Offset(e), start) == Read(labels, Offset(e'))
    && Known(P + e'.buffer, e'.pointers, |labels|, Offset(e'))
    && KeepsLonger(e, labels, e')
  }

  /** Lists longer than one are remembered as before. */
  ghost predicate KeepsLonger(e: Enc, labels: Name, e': Enc) {
    forall k :: |k| > |labels| ==>
      (k in e'.pointers <==> k in e.pointers) && (k in e.pointers ==> e'.pointers[k] == e.pointers[k])
  }

  lemma WrittenEnd(P: Bytes, e: Enc, start: nat)
    requires |P| == e.base && start <= Offset(e) && Known(P + e.buffer, e.pointers, 0, start)
    ensures Written(P, e, [], start, Put(e, [0]))
  {
    var e' := Put(e, [0]);
    assert P + e'.buffer == (P + e.buffer) + [0];
    KnownLonger(P + e.buffer, [0], e.pointers, 0, start, Offset(e'));
  }

  lemma WrittenPointer(P: Bytes, e: Enc, labels: Name, start: nat)
    requires |P| == e.base && start <= Offset(e) && labels in e.pointers
    requires Known(P + e.buffer, e.pointers, |labels|, start)
    ensures Written(P, e, labels, start, Put(e, PointerOctets(e.pointers[labels])))
  {
    var loc := e.pointers[labels];
    var e' := Put(e, PointerOctets(loc));
    assert P + e'.buffer == (P + e.buffer) + PointerOctets(loc);
    PointerReads(P + e.buffer, loc, start, labels);
    KnownLonger(P + e.buffer, PointerOctets(loc), e.pointers, |labels|, start, Offset(e'));
  }

  /** A label and what is read after it. */
  lemma LabelThenRest(full: Bytes, labels: Name, buf: Bytes, hops: nat, next: nat)
    requires labels != [] && GoodLabel(labels[0]) && full + LabelOctets(labels[0]) <= buf
    requires ReadName(buf, |full| + 1 + |labels[0]|, hops) == Read(labels[1..], next)
    ensures ReadName(buf, |full|, hops) == Read(labels, next)
  {
    var rest := buf[|full + LabelOctets(labels[0])|..];
    assert buf == full + LabelOctets(labels[0]) + rest;
    LabelReads(full, labels[0], rest, hops);
    AfterFirst(labels, next);
  }

  lemma AfterFirst(labels: Name, next: nat)
    requires labels != []
    ensures After([labels[0]], Read(labels[1..], next)) == Read(labels, next)
  {
    assert labels == [labels[0]] + labels[1..];
  }

  /** What was written before a label stands before it. */
  lemma LabelStands(P: Bytes, before: Bytes, l: Bytes, after: Bytes)
    requires before + l <= after
    ensures (P + before) + l <= P + after && before <= after && |P + before| == |P| + |before|
  {
    assert (P + before) + l == P + (before + l);
  }

  lemma WrittenLabel(P: Bytes, e: Enc, labels: Name, start: nat, e': Enc)
    requires |P| == e.base && start <= Offset(e) && labels != [] && GoodLabel(labels[0])
    requires Known(P + e.buffer, e.pointers, |labels|, start)
    requires Written(P, Put(Store(e, labels), LabelOctets(labels[0])), labels[1..], start, e')
    ensures Written(P, e, labels, start, e')
  {
    var e1 := Put(Store(e, labels), LabelOctets(labels[0]));
    LabelReadsOn(P, e, labels, start, e1, e');
    StoreKeepsLonger(e, labels, e1, e');
    KnownLabel(P, e, labels, start, e');
  }

  lemma LabelReadsOn(P: Bytes, e: Enc, labels: Name, start: nat, e1: Enc, e': Enc)
    requires |P| == e.base == e1.base && labels != [] && GoodLabel(labels[0])
    requires e1.buffer == e.buffer + LabelOctets(labels[0]) && e1.buffer <= e'.buffer
    requires ReadName(P + e'.buffer, Offset(e1), start) == Read(labels[1..], Offset(e'))
    ensures e.buffer <= e'.buffer && ReadName(P + e'.buffer, Offset(e), start) == Read(labels, Offset(e'))
  {
    LabelStands(P, e.buffer, LabelOctets(labels[0]), e'.buffer);
    LabelThenRest(P + e.buffer, labels, P + e'.buffer, start, Offset(e'));
  }

  lemma StoreKeepsLonger(e: Enc, labels: Name, e1: Enc, e': Enc)
    requires labels != [] && e1.pointers == Store(e, labels).pointers && KeepsLonger(e1, labels[1..], e')
    ensures KeepsLonger(e, labels, e') && KeepsLonger(Store(e, labels), labels[1..], e')
  {
  }

  lemma KnownLabel(P: Bytes, e: Enc, labels: Name, start: nat, e': Enc)
    requires |P| == e.base == e'.base && start <= Offset(e) < Offset(e') && labels != [] && e.buffer <= e'.buffer
    requires Known(P + e.buffer, e.pointers, |labels|, start)
    requires Known(P + e'.buffer, e'.pointers, |labels[1..]|, Offset(e'))
    requires KeepsLonger(Store(e, labels), labels[1..], e')
    requires ReadName(P + e'.buffer, Offset(e), start) == Read(labels, Offset(e'))
    ensures Known(P + e'.buffer, e'.pointers, |labels|, Offset(e'))
  {
    var full, full' := P + e.buffer, P + e'.buffer;
    var more := full'[|full|..];
    assert full' == full + more;
    KnownLonger(full, more, e.pointers, |labels|, start, Offset(e'));
    GoodHere(full', Offset(e), start, Offset(e'), labels);
    forall k | k in e'.pointers && |k| <= |labels| ensures Good(full', e'.pointers[k], Offset(e'), k) {
      KnownLabelAt(full', e, labels, e', k);
    }
  }

  /** What reads back through few pointers reads back through as many as there are octets before. */
  lemma GoodHere(full: Bytes, at: nat, start: nat, after: nat, labels: Name)
    requires start <= at < after && ReadName(full, at, start) == Read(labels, after)
    ensures at < POINTER_LIMIT ==> Good(full, at, after, labels)
  {
    ReadStable(full, [], at, start, at);
    assert full + [] == full;
  }

  lemma KnownLabelAt(full: Bytes, e: Enc, labels: Name, e': Enc, k: Name)
    requires labels != [] && k in e'.pointers && |k| <= |labels| && KeepsLonger(Store(e, labels), labels[1..], e')
    requires Offset(e) < POINTER_LIMIT ==> Good(full, Offset(e), Offset(e'), labels)
    requires Known(full, e.pointers, |labels|, Offset(e')) && Known(full, e'.pointers, |labels[1..]|, Offset(e'))
    ensures Good(full, e'.pointers[k], Offset(e'), k)
  {
    if |k| == |labels| {
      StoredBefore(e, labels, k);
    }
  }

  lemma StoredBefore(e: Enc, labels: Name, k: Name)
    requires k in Store(e, labels).pointers
    ensures (k == labels && Offset(e) < POINTER_LIMIT && Store(e, labels).pointers[k] == Offset(e))
            || (k in e.pointers && Store(e, labels).pointers[k] == e.pointers[k])
  {
  }

  /** The compressing branch, from any encoder whose remembered labels read back. */
  lemma {:induction false} CompressReads(P: Bytes, e: Enc, labels: Name, start: nat)
    requires |P| == e.base && start <= Offset(e) && GoodName(labels)
    requires Known(P + e.buffer, e.pointers, |labels|, start)
    requires Compress(e, labels, start).Emitted?
    ensures Written(P, e, labels, start, Compress(e, labels, start).enc)
    decreases |labels|
  {
    if labels == [] {
      WrittenEnd(P, e, start);
    } else if labels in e.pointers {
      WrittenPointer(P, e, labels, start);
    } else {
      var l := labels[0];
      var e1 := Put(Store(e, labels), LabelOctets(l));
      assert P + e1.buffer == (P + e.buffer) + LabelOctets(l);
      KnownLonger(P + e.buffer, LabelOctets(l), e.pointers, |labels|, start, start);
      assert Known(P + e1.buffer, e1.pointers, |labels[1..]|, start);
      CompressReads(P, e1, labels[1..], start);
      WrittenLabel(P, e, labels, start, Compress(e, labels, start).enc);
    }
  }

  /** The canonical branch writes no pointer and remembers nothing. */
  ghost predicate WrittenOut(P: Bytes, e: Enc, labels: Name, e': Enc) {
    && e'.base == e.base && e.buffer <= e'.buffer && e'.pointers == e.pointers
    && ReadName(P + e'.buffer, Offset(e), 0) == Read(labels, Offset(e'))
  }

  lemma CanonicalLabel(P: Bytes, e: Enc, labels: Name, e': Enc)
    requires |P| == e.base && labels != [] && GoodLabel(labels[0])
    requires WrittenOut(P, Put(e, LabelOctets(labels[0])), labels[1..], e')
    ensures WrittenOut(P, e, labels, e')
  {
    LabelStands(P, e.buffer, LabelOctets(labels[0]), e'.buffer);
    LabelThenRest(P + e.buffer, labels, P + e'.buffer, 0, Offset(e'));
  }

  lemma {:induction false} CanonicalReads(P: Bytes, e: Enc, labels: Name, start: nat)
    requires |P| == e.base && GoodName(labels) && Canonical(e, labels, start).Emitted?
    ensures WrittenOut(P, e, labels, Canonical(e, labels, start).enc)
    decreases |labels|
  {
    if labels == [] {
      assert P + (e.buffer + [0]) == (P + e.buffer) + [0];
      EndReads(P + e.buffer, 0);
    } else {
      CanonicalReads(P, Put(e, LabelOctets(labels[0])), labels[1..], start);
      CanonicalLabel(P, e, labels, Canonical(e, labels, start).enc);
    }
  }

  // ----- Whole messages -----

  /** Everything an encoder remembers reads back in what it wrote after some prefix. */
  ghost predicate Sound(P: Bytes, e: Enc) {
    |P| == e.base && forall k :: k in e.pointers ==> Good(P + e.buffer, e.pointers[k], Offset(e), k)
  }

  ghost predicate Grows(e: Enc, e': Enc) {
    e'.base == e.base && e.buffer <= e'.buffer
  }

  lemma SoundGrows(P: Bytes, e: Enc, e': Enc)
    requires Sound(P, e) && Grows(e, e')
    requires forall k :: k in e'.pointers ==>
               (k in e.pointers && e'.pointers[k] == e.pointers[k])
               || Good(P + e'.buffer, e'.pointers[k], Offset(e'), k)
    ensures Sound(P, e')
  {
    var more := e'.buffer[|e.buffer|..];
    assert P + e'.buffer == (P + e.buffer) + more;
    forall k | k in e'.pointers ensures Good(P + e'.buffer, e'.pointers[k], Offset(e'), k) {
      if k in e.pointers && e'.pointers[k] == e.pointers[k] {
        GoodLonger(P + e.buffer, more, e.pointers[k], Offset(e), Offset(e'), k);
      }
    }
  }

  /** A name of good labels, written canonical or compressed, is read back from where it was
      written, and the encoder stays sound. */
  lemma EmitReads(P: Bytes, e: Enc, n: Name, canonical: bool)
    requires Sound(P, e) && GoodName(n) && EmitName(e, n, canonical).Emitted?
    ensures var e' := EmitName(e, n, canonical).enc;
            && Sound(P, e') && Grows(e, e')
            && ReadName(P + e'.buffer, Offset(e), Offset(e)) == Read(n, Offset(e'))
  {
    var e' := EmitName(e, n, canonical).enc;
    if canonical {
      CanonicalReads(P, e, n, Offset(e));
      ReadStable(P + e'.buffer, [], Offset(e), 0, Offset(e));
      assert P + e'.buffer + [] == P + e'.buffer;
    } else {
      CompressReads(P, e, n, Offset(e));
    }
    SoundGrows(P, e, e');
  }

  lemma PutSound(P: Bytes, e: Enc, bs: Bytes)
    requires Sound(P, e)
    ensures Sound(P, Put(e, bs)) && Grows(e, Put(e, bs))
  {
    SoundGrows(P, e, Put(e, bs));
  }

  /** What one encoder writes in turn: plain octets, or a name. */
  datatype Atom = Octets(bytes: Bytes) | NameAtom(name: Name, canonical: bool)

  /** What a message is made of: atoms, and record data encoded by itself at a shifted offset and
      spliced in after its two-octet length. */
  datatype Item = Plain(atom: Atom) | Rdata(atoms: seq<Atom>)

  /** A name, where it begins, and where it ends. */
  datatype Placed = Placed(at: nat, name: Name, end: nat)

  datatype Run = Ran(enc: Enc, placed: seq<Placed>) | Broke

  function WriteAtom(e: Enc, a: Atom): Run {
    match a
    case Octets(bs) => Ran(Put(e, bs), [])
    case NameAtom(n, canonical) =>
      (match EmitName(e, n, canonical)
       case Emitted(e') => Ran(e', [Placed(Offset(e), n, Offset(e'))])
       case EmitFailed => Broke)
  }

  function WriteAtoms(e: Enc, atoms: seq<Atom>): Run
    decreases |atoms|
  {
    if atoms == [] then Ran(e, [])
    else match WriteAtom(e, atoms[0])
      case Broke => Broke
      case Ran(e1, p1) =>
        (match WriteAtoms(e1, atoms[1..])
         case Broke => Broke
         case Ran(e2, p2) => Ran(e2, p1 + p2))
  }

  /** Record::emit: the data goes to an encoder of its own that begins two octets further on, then
      its length and its octets are written. */
  function WriteItem(e: Enc, item: Item): Run {
    match item
    case Plain(a) => WriteAtom(e, a)
    case Rdata(atoms) =>
      (match WriteAtoms(Enc(Offset(e) + 2, [], map[]), atoms)
       case Broke => Broke
       case Ran(sub, placed) =>
         if |sub.buffer| > 0xFFFF then Broke
         else Ran(Put(e, [|sub.buffer| / 256, |sub.buffer| % 256] + sub.buffer), placed))
  }

  function WriteItems(e: Enc, items: seq<Item>): Run
    decreases |items|
  {
    if items == [] then Ran(e, [])
    else match WriteItem(e, items[0])
      case Broke => Broke
      case Ran(e1, p1) =>
        (match WriteItems(e1, items[1..])
         case Broke => Broke
         case Ran(e2, p2) => Ran(e2, p1 + p2))
  }

  ghost predicate GoodAtom(a: Atom) {
    a.NameAtom? ==> GoodName(a.name)
  }

  ghost predicate GoodItem(item: Item) {
    match item
    case Plain(a) => GoodAtom(a)
    case Rdata(atoms) => forall i :: 0 <= i < |atoms| ==> GoodAtom(atoms[i])
  }

  /** Every placed name is read back, through no more pointers than octets before it. */
  ghost predicate AllRead(full: Bytes, placed: seq<Placed>) {
    forall i :: 0 <= i < |placed| ==> ReadName(full, placed[i].at, placed[i].at) == Read(placed[i].name, placed[i].end)
  }

  lemma AllReadLonger(full: Bytes, full': Bytes, placed: seq<Placed>)
    requires AllRead(full, placed) && full <= full'
    ensures AllRead(full', placed)
  {
    var more := full'[|full|..];
    assert full' == full + more;
    forall i | 0 <= i < |placed|
      ensures ReadName(full', placed[i].at, placed[i].at) == Read(placed[i].name, placed[i].end) {
      ReadStable(full, more, placed[i].at, placed[i].at, placed[i].at);
    }
  }

  lemma AtomReads(P: Bytes, e: Enc, a: Atom)
    requires Sound(P, e) && GoodAtom(a) && WriteAtom(e, a).Ran?
    ensures var r := WriteAtom(e, a); Sound(P, r.enc) && Grows(e, r.enc) && AllRead(P + r.enc.buffer, r.placed)
  {
    match a
    case Octets(bs) => PutSound(P, e, bs);
    case NameAtom(n, canonical) => EmitReads(P, e, n, canonical);
  }

  lemma {:induction false} AtomsRead(P: Bytes, e: Enc, atoms: seq<Atom>)
    requires Sound(P, e) && (forall i :: 0 <= i < |atoms| ==> GoodAtom(atoms[i])) && WriteAtoms(e, atoms).Ran?
    ensures var r := WriteAtoms(e, atoms); Sound(P, r.enc) && Grows(e, r.enc) && AllRead(P + r.enc.buffer, r.placed)
    decreases |atoms|
  {
    if atoms != [] {
      var r1 := WriteAtom(e, atoms[0]);
      AtomReads(P, e, atoms[0]);
      AtomsRead(P, r1.enc, atoms[1..]);
      AllReadLonger(P + r1.enc.buffer, P + WriteAtoms(e, atoms).enc.buffer, r1.placed);
    }
  }

  lemma ItemReads(P: Bytes, e: Enc, item: Item)
    requires Sound(P, e) && GoodItem(item) && WriteItem(e, item).Ran?
    ensures var r := WriteItem(e, item); Sound(P, r.enc) && Grows(e, r.enc) && AllRead(P + r.enc.buffer, r.placed)
  {
    match item
    case Plain(a) => AtomReads(P, e, a);
    case Rdata(atoms) =>
      var sub := WriteAtoms(Enc(Offset(e) + 2, [], map[]), atoms).enc;
      var len := [|sub.buffer| / 256, |sub.buffer| % 256];
      AtomsRead(P + e.buffer + len, Enc(Offset(e) + 2, [], map[]), atoms);
      PutSound(P, e, len + sub.buffer);
      assert P + (e.buffer + (len + sub.buffer)) == (P + e.buffer + len) + sub.buffer;
  }

  /** Compression round trip: however names, plain octets and spliced record data follow each other,
      every name of the message is read back from where it was written, ends where it was ended, and
      is read through no more pointers than octets before it, so that reading it terminates. */
  lemma {:induction false} MessageReads(P: Bytes, e: Enc, items: seq<Item>)
    requires Sound(P, e) && (forall i :: 0 <= i < |items| ==> GoodItem(items[i])) && WriteItems(e, items).Ran?
    ensures var r := WriteItems(e, items); Sound(P, r.enc) && Grows(e, r.enc) && AllRead(P + r.enc.buffer, r.placed)
    decreases |items|
  {
    if items != [] {
      var r1 := WriteItem(e, items[0]);
      ItemReads(P, e, items[0]);
      MessageReads(P, r1.enc, items[1..]);
      AllReadLonger(P + r1.enc.buffer, P + WriteItems(e, items).enc.buffer, r1.placed);
    }
  }

  // ----- Nothing is left out, and good names are always written -----

  function NamesIn(atoms: seq<Atom>): seq<Name> {
    if atoms == [] then []
    else (if atoms[0].NameAtom? then [atoms[0].name] else []) + NamesIn(atoms[1..])
  }

  function NamesOfItems(items: seq<Item>): seq<Name> {
    if items == [] then []
    else (match items[0] case Plain(a) => NamesIn([a]) case Rdata(atoms) => NamesIn(atoms)) + NamesOfItems(items[1..])
  }

  function PlacedNames(ps: seq<Placed>): seq<Name> {
    if ps == [] then [] else [ps[0].name] + PlacedNames(ps[1..])
  }

  lemma {:induction false} PlacedSplit(a: seq<Placed>, b: seq<Placed>)
    ensures PlacedNames(a + b) == PlacedNames(a) + PlacedNames(b)
  {
    if a == [] {
      assert a + b == b;
    } else {
      assert (a + b)[1..] == a[1..] + b;
      PlacedSplit(a[1..], b);
    }
  }

  lemma {:induction false} AtomsPlaced(e: Enc, atoms: seq<Atom>)
    requires WriteAtoms(e, atoms).Ran?
    ensures PlacedNames(WriteAtoms(e, atoms).placed) == NamesIn(atoms)
    decreases |atoms|
  {
    if atoms != [] {
      var r1 := WriteAtom(e, atoms[0]);
      AtomsPlaced(r1.enc, atoms[1..]);
      PlacedSplit(r1.placed, WriteAtoms(r1.enc, atoms[1..]).placed);
    }
  }

  /** The placed names are all the names of the message, in order. */
  lemma {:induction false} ItemsPlaced(e: Enc, items: seq<Item>)
    requires WriteItems(e, items).Ran?
    ensures PlacedNames(WriteItems(e, items).placed) == NamesOfItems(items)
    decreases |items|
  {
    if items != [] {
      var r1 := WriteItem(e, items[0]);
      match items[0] {
        case Plain(a) => assert [a][1..] == []; AtomsPlaced(e, [a]); assert WriteAtoms(e, [a]).placed == r1.placed + [];
        case Rdata(atoms) => AtomsPlaced(Enc(Offset(e) + 2, [], map[]), atoms);
      }
      ItemsPlaced(r1.enc, items[1..]);
      PlacedSplit(r1.placed, WriteItems(r1.enc, items[1..]).placed);
    }
  }

  /** Octets of a name without compression. */
  function WireLength(n: Name): nat {
    if n == [] then 1 else 1 + |n[0]| + WireLength(n[1..])
  }

  lemma {:induction false} GoodNamesAreWritten(e: Enc, n: Name, start: nat)
    requires GoodName(n) && start <= Offset(e) && Offset(e) + WireLength(n) <= start + 255
    ensures Compress(e, n, start).Emitted? && Canonical(e, n, start).Emitted?
    ensures Offset(Compress(e, n, start).enc) <= Offset(e) + WireLength(n) + 1
    ensures Offset(Canonical(e, n, start).enc) == Offset(e) + WireLength(n)
    decreases |n|
  {
    if n != [] {
      GoodNamesAreWritten(Put(Store(e, n), LabelOctets(n[0])), n[1..], start);
      GoodNamesAreWritten(Put(e, LabelOctets(n[0])), n[1..], start);
    }
  }

  /** The same for a whole message from an empty buffer. */
  lemma CompressionRoundTrip(e: Enc, items: seq<Item>)
    requires Empty(e) && (forall i :: 0 <= i < |items| ==> GoodItem(items[i])) && WriteItems(e, items).Ran?
    ensures AllRead(WriteItems(e, items).enc.buffer, WriteItems(e, items).placed)
    ensures PlacedNames(WriteItems(e, items).placed) == NamesOfItems(items)
  {
    assert Sound([], e);
    MessageReads([], e, items);
    ItemsPlaced(e, items);
    AllReadLonger([] + WriteItems(e, items).enc.buffer, WriteItems(e, items).enc.buffer, WriteItems(e, items).placed);
  }

  predicate Empty(e: Enc) {
    e.base == 0 && e.buffer == [] && e.pointers == map[]
  }

  /** A name written by itself, canonical or not, reads back exactly when every label has 1 to 63
      octets, given that writing it succeeded. */
  lemma RoundTripExactly(e: Enc, n: Name, canonical: bool)
    requires Empty(e) && EmitName(e, n, canonical).Emitted?
    ensures ReadsAs(EmitName(e, n, canonical).enc.buffer, 0, 0, n) <==> GoodName(n)
  {
    var buf := EmitName(e, n, canonical).enc.buffer;
    if GoodName(n) {
      EmitReads([], e, n, canonical);
      assert [] + buf == buf;
    }
    ReadsOnlyGood(buf, 0, 0);
  }
}
