/** Resource records, their equality, and the keys of the zone map
    (client/src/rr/resource.rs, record_type.rs, dns_class.rs, rr_key.rs). */
module Records {
  import opened Basics
  import opened Names

  datatype RecordType =
    | A | AAAA | ANY | AXFR | CNAME | DNSKEY | DS | IXFR | KEY | MX | NS | NULL
    | NSEC | NSEC3 | NSEC3PARAM | OPT | PTR | RRSIG | SIG | SOA | SRV | TXT

  /** The two-octet code of a type; every code in use fits one octet. */
  function Code(t: RecordType): Byte {
    match t
    case A => 1 case AAAA => 28 case ANY => 255 case AXFR => 252 case CNAME => 5
    case DNSKEY => 48 case DS => 43 case IXFR => 251 case KEY => 25 case MX => 15
    case NS => 2 case NULL => 0 case NSEC => 47 case NSEC3 => 50 case NSEC3PARAM => 51
    case OPT => 41 case PTR => 12 case RRSIG => 46 case SIG => 24 case SOA => 6
    case SRV => 33 case TXT => 16
  }

  datatype DnsClass = IN | CH | HS | NONE | ANYCLASS | OPTCLASS(version: U16)

  function ClassCode(c: DnsClass): U16 {
    match c
    case IN => 1 case CH => 3 case HS => 4 case NONE => 254 case ANYCLASS => 255
    case OPTCLASS(v) => v
  }

  datatype SoaData = SoaData(mname: Name, rname: Name, serial: U32, timers: Bytes, minimum: U32)

  datatype SigData = SigData(typeCovered: RecordType, algorithm: Byte, numLabels: Byte,
                             originalTtl: U32, expiration: U32, inception: U32,
                             keyTag: U16, signerName: Name, signature: Bytes)

  /** Record data.  `Target` stands for the variants that hold fixed octets and one domain name
      (NS, CNAME, PTR, MX, SRV), `Opaque` for those that hold no name (A, AAAA, TXT, DS, KEY, ...);
      `variant` is the variant's own type. */
  datatype RData =
    | NullData(data: Bytes)
    | Soa(soa: SoaData)
    | Nsec(next: Name, types: seq<RecordType>)
    | Sig(sig: SigData)
    | DnsKey(publicKey: Bytes)
    | Target(variant: RecordType, fixed: Bytes, target: Name)
    | Opaque(variant: RecordType, data: Bytes)

  /** Record data with every name in it lowered: what equality of record data compares. */
  function FoldData(d: RData): RData {
    match d
    case NullData(_) => d
    case Soa(s) => Soa(s.(mname := Lower(s.mname), rname := Lower(s.rname)))
    case Nsec(n, ts) => Nsec(Lower(n), ts)
    case Sig(s) => Sig(s.(signerName := Lower(s.signerName)))
    case DnsKey(_) => d
    case Target(v, f, n) => Target(v, f, Lower(n))
    case Opaque(_, _) => d
  }

  predicate DataEq(a: RData, b: RData) {
    FoldData(a) == FoldData(b)
  }

  /** Record data is equal when it is of one variant and agrees in every field, its names up to case. */
  lemma DataEqExactly(a: RData, b: RData)
    ensures DataEq(a, b) <==>
            match a
            case NullData(d) => b == NullData(d)
            case Soa(s) =>
              && b.Soa? && NameEq(b.soa.mname, s.mname) && NameEq(b.soa.rname, s.rname)
              && b.soa.serial == s.serial && b.soa.timers == s.timers && b.soa.minimum == s.minimum
            case Nsec(n, ts) => b.Nsec? && NameEq(b.next, n) && b.types == ts
            case Sig(s) => b.Sig? && NameEq(b.sig.signerName, s.signerName) && b.sig.(signerName := s.signerName) == s
            case DnsKey(key) => b == DnsKey(key)
            case Target(v, fixed, n) => b.Target? && b.variant == v && b.fixed == fixed && NameEq(b.target, n)
            case Opaque(v, d) => b == Opaque(v, d)
  {
  }

  datatype Record = Record(name: Name, rtype: RecordType, class_: DnsClass, ttl: U32, rdata: RData)

  /** Equality of records leaves the TTL out (section 1.1.1 of RFC 2136). */
  predicate RecordEq(a: Record, b: Record) {
    NameEq(a.name, b.name) && a.rtype == b.rtype && a.class_ == b.class_ && DataEq(a.rdata, b.rdata)
  }

  function WithTtlAll(rs: seq<Record>, ttl: U32): (out: seq<Record>)
    ensures |out| == |rs| && forall i :: 0 <= i < |rs| ==> out[i] == rs[i].(ttl := ttl)
  {
    seq(|rs|, i requires 0 <= i < |rs| => rs[i].(ttl := ttl))
  }

  /** Key of the zone map.  The map orders keys without case, so a key is kept lowered. */
  datatype RrKey = RrKey(name: Name, rtype: RecordType)

  function KeyOf(name: Name, rtype: RecordType): RrKey {
    RrKey(Lower(name), rtype)
  }

  function RecordKey(r: Record): RrKey {
    KeyOf(r.name, r.rtype)
  }

  // ----- The order of keys -----

  function CmpKeys(a: RrKey, b: RrKey): Ordering {
    var o := CmpNames(a.name, b.name);
    if o == Equal then
      if Code(a.rtype) < Code(b.rtype) then Less
      else if Code(a.rtype) == Code(b.rtype) then Equal else Greater
    else o
  }

  predicate KeyLt(a: RrKey, b: RrKey) {
    CmpKeys(a, b) == Less
  }

  /** Keys are totally ordered, and the keys of one name stand together. */
  lemma KeyOrder(a: RrKey, b: RrKey, c: RrKey)
    ensures !KeyLt(a, a)
    ensures KeyLt(a, b) || a == b || KeyLt(b, a)
    ensures KeyLt(a, b) ==> !KeyLt(b, a) && a != b
    ensures KeyLt(a, b) && KeyLt(b, c) ==> KeyLt(a, c)
    ensures KeyLt(a, b) && KeyLt(b, c) && a.name == c.name ==> b.name == a.name
    ensures KeyLt(a, b) <==> NameLt(a.name, b.name) || (a.name == b.name && Code(a.rtype) < Code(b.rtype))
  {
    NameOrder(a.name, b.name, c.name);
    NameOrder(b.name, c.name, a.name);
    CmpNamesEqual(a.name, b.name);
    CmpNamesEqual(b.name, c.name);
    CmpNamesEqual(a.name, c.name);
    CmpNamesEqual(b.name, a.name);
  }

  ghost predicate Ascending(ks: seq<RrKey>) {
    forall i, j :: 0 <= i < j < |ks| ==> KeyLt(ks[i], ks[j])
  }

  predicate IsMin(k: RrKey, s: set<RrKey>) {
    k in s && forall x :: x in s ==> x == k || KeyLt(k, x)
  }

  lemma MinExists(s: set<RrKey>)
    requires s != {}
    ensures exists k :: IsMin(k, s)
    ensures forall a, b :: IsMin(a, s) && IsMin(b, s) ==> a == b
  {
    forall a, b | IsMin(a, s) && IsMin(b, s) ensures a == b {
      KeyOrder(a, b, a);
    }
    var x :| x in s;
    if s == {x} {
      assert IsMin(x, s);
    } else {
      var t := s - {x};
      assert s == {x} + t;
      MinExists(t);
      var m :| IsMin(m, t);
      KeyOrder(x, m, x);
      if KeyLt(x, m) {
        forall y | y in s ensures y == x || KeyLt(x, y) {
          if y in t { KeyOrder(x, m, y); }
        }
        assert IsMin(x, s);
      } else {
        assert IsMin(m, s);
      }
    }
  }

  lemma MinFirst(k: RrKey, s: set<RrKey>, rest: seq<RrKey>)
    requires IsMin(k, s) && Ascending(rest) && forall x :: x in rest <==> x in s - {k}
    ensures Ascending([k] + rest)
  {
    var all := [k] + rest;
    forall i, j | 0 <= i < j < |all| ensures KeyLt(all[i], all[j]) {
      assert all[j] == rest[j - 1] && rest[j - 1] in rest;
    }
  }

  /** The keys of a map in the order it iterates over them. */
  function InOrder(s: set<RrKey>): (r: seq<RrKey>)
    ensures Ascending(r)
    ensures forall k :: k in r <==> k in s
    decreases |s|
  {
    if s == {} then [] else
      MinExists(s);
      var k :| IsMin(k, s);
      var rest := InOrder(s - {k});
      MinFirst(k, s, rest);
      [k] + rest
  }

  lemma HasMember<T>(s: seq<T>)
    ensures s == [] || exists x :: x in s
  {
    if s != [] { assert s[0] in s; }
  }

  /** There is only one ascending sequence of a set of keys. */
  lemma {:induction false} AscendingUnique(a: seq<RrKey>, b: seq<RrKey>)
    requires Ascending(a) && Ascending(b)
    requires forall k :: k in a <==> k in b
    ensures a == b
  {
    if a == [] {
      HasMember(b);
    } else {
      assert a[0] in b;
      assert b[0] in a;
      var i :| 0 <= i < |a| && a[i] == b[0];
      var j :| 0 <= j < |b| && b[j] == a[0];
      KeyOrder(a[0], b[0], a[0]);
      assert a[0] == b[0];
      forall k ensures k in a[1..] <==> k in b[1..] {
        KeyOrder(a[0], a[0], a[0]);
        if k in a[1..] { assert k in b; assert k != b[0]; }
        if k in b[1..] { assert k in a; assert k != a[0]; }
      }
      AscendingUnique(a[1..], b[1..]);
      assert a == [a[0]] + a[1..] && b == [b[0]] + b[1..];
    }
  }
}
