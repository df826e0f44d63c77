/** The update section seen from one key: each record maps the list of records under that key to a
    new list, whatever sets and serials the zone keeps (sections 1.1.5 and 3.4.2 of RFC 2136, as
    server/src/authority/authority.rs and client/src/rr/rr_set.rs carry them out). */
module PerKey {
  import opened Basics
  import opened Names
  import opened Records
  import opened RrSets
  import opened Zones

  /** Adding: an SOA replaces an older one, a CNAME any; another record is added unless its data is
      there already. */
  ghost function AddTo(t: RecordType, rs: seq<Record>, r: Record): seq<Record> {
    if t == SOA && rs != [] && rs[0].rdata.Soa? && (r.rdata.Soa? ==> r.rdata.soa.serial <= rs[0].rdata.soa.serial)
    then rs
    else if SingleRecordType(t) then [r]
    else if HasData(rs, r.rdata) then rs
    else rs + [r]
  }

  /** Taking out: the record of equal data, but never an SOA and never the last NS record. */
  function TakeFrom(t: RecordType, rs: seq<Record>, d: RData): seq<Record> {
    if t == SOA || (t == NS && |rs| <= 1) then rs else Without(rs, d)
  }

  ghost function Effect(origin: Name, r: Record, k: RrKey, rs: seq<Record>): seq<Record> {
    match r.class_
    case IN => if k == RecordKey(r) then AddTo(k.rtype, rs, r) else rs
    case ANYCLASS =>
      if (r.rtype == SOA || r.rtype == NS) && NameEq(r.name, origin) then rs
      else if r.rtype == ANY then (if DeletedByName(k, origin, r.name) then [] else rs)
      else if r.rdata.NullData? && k == RecordKey(r) then []
      else rs
    case NONE => if k == RecordKey(r) then TakeFrom(k.rtype, rs, r.rdata) else rs
    case _ => rs
  }

  ghost function Effects(origin: Name, us: seq<Record>, k: RrKey, rs: seq<Record>): seq<Record>
    decreases |us|
  {
    if us == [] then rs else Effects(origin, us[1..], k, Effect(origin, us[0], k, rs))
  }

  lemma InsertAdds(k: RrKey, s: RrSet, r: Record, serial: U32)
    requires SetAt(k, s) && RecordKey(r) == k && r.class_ == IN
    ensures InsertInto(s, r, serial).set_.records == AddTo(k.rtype, s.records, r)
  {
    InsertCases(s, r, serial);
  }

  lemma RemoveTakes(k: RrKey, s: RrSet, r: Record, serial: U32)
    requires SetAt(k, s) && RecordKey(r) == k
    ensures RemoveFrom(s, r, serial).set_.records == TakeFrom(k.rtype, s.records, r.rdata)
  {
    WithoutMembers(s.records, r.rdata);
  }

  /** One update record changes the records under each key by its effect there. */
  lemma ApplyEffect(z: Zone, origin: Name, r: Record, serial: U32, k: RrKey)
    requires WellFormed(z) && Insertable(r)
    ensures Recs(ApplyRecord(z, origin, r, serial).zone, k) == Effect(origin, r, k, Recs(z, k))
  {
    if r.class_ == IN && k == RecordKey(r) {
      EmptySetAt(r, serial);
      InsertAdds(k, SetOrEmpty(z, r, serial), r, serial);
    } else if r.class_ == NONE && k == RecordKey(r) && k in z {
      RemoveTakes(k, z[k], r, serial);
    }
  }

  lemma {:induction false} ApplyAllEffects(z: Zone, origin: Name, us: seq<Record>, serial: U32, k: RrKey)
    requires WellFormed(z) && AllAdmissible(origin, us)
    ensures Recs(ApplyAll(z, origin, us, serial).zone, k) == Effects(origin, us, k, Recs(z, k))
    decreases |us|
  {
    if us != [] {
      ApplyKeeps(z, origin, us[0], serial);
      ApplyEffect(z, origin, us[0], serial, k);
      AllAdmissibleTail(origin, us);
      ApplyAllEffects(ApplyRecord(z, origin, us[0], serial).zone, origin, us[1..], serial, k);
    }
  }

  lemma {:induction false} EffectsSplit(origin: Name, a: seq<Record>, b: seq<Record>, k: RrKey, rs: seq<Record>)
    ensures Effects(origin, a + b, k, rs) == Effects(origin, b, k, Effects(origin, a, k, rs))
    decreases |a|
  {
    if a == [] {
      assert a + b == b;
    } else {
      assert (a + b)[0] == a[0] && (a + b)[1..] == a[1..] + b;
      EffectsSplit(origin, a[1..], b, k, Effect(origin, a[0], k, rs));
    }
  }

  /** Records of other keys, all additions or single deletions, leave a key alone. */
  lemma {:induction false} EffectsElsewhere(origin: Name, us: seq<Record>, k: RrKey, rs: seq<Record>)
    requires forall i :: 0 <= i < |us| ==> (us[i].class_ == IN || us[i].class_ == NONE) && RecordKey(us[i]) != k
    ensures Effects(origin, us, k, rs) == rs
    decreases |us|
  {
    if us != [] {
      EffectsElsewhere(origin, us[1..], k, rs);
    }
  }

  /** Adding records of distinct data one after the other, none of it there yet, appends them. */
  lemma {:induction false} EffectsAppend(origin: Name, us: seq<Record>, k: RrKey, rs: seq<Record>)
    requires forall i :: 0 <= i < |us| ==> us[i].class_ == IN && RecordKey(us[i]) == k
    requires DistinctData(rs + us) && (SingleRecordType(k.rtype) ==> |rs + us| <= 1)
    ensures Effects(origin, us, k, rs) == rs + us
    decreases |us|
  {
    if us == [] {
      assert rs + us == rs;
    } else {
      assert rs + us == (rs + [us[0]]) + us[1..];
      assert (rs + us)[|rs|] == us[0];
      forall i | 0 <= i < |rs| ensures !DataEq(rs[i].rdata, us[0].rdata) {
        assert (rs + us)[i] == rs[i];
      }
      assert !HasData(rs, us[0].rdata);
      assert AddTo(k.rtype, rs, us[0]) == rs + [us[0]];
      EffectsAppend(origin, us[1..], k, rs + [us[0]]);
    }
  }
}
