/** The type bit maps of NSEC and NSEC3 records (client/src/rr/rdata/nsec3.rs), section 4.1.2 of
    RFC 4034: a window number, a bitmap length and the bitmap, most significant bit first. */
module TypeBitmaps {
  import opened Basics
  import opened Names
  import opened Records
  import opened Zones
  import opened Nsec
  import opened Signing

  // ----- Bits of an octet -----

  function Shl(b: Byte): Byte {
    b * 2 % 256
  }

  /** Bit 0 is the most significant one. */
  predicate HasBit(b: Byte, k: nat)
    decreases k
  {
    if k == 0 then b >= 128 else HasBit(Shl(b), k - 1)
  }

  /** 0b1000_0000 >> k */
  function Mask(k: nat): (m: nat)
    requires k < 8
    ensures 0 < m <= 128 && (k < 7 ==> m % 2 == 0)
  {
    [128, 64, 32, 16, 8, 4, 2, 1][k]
  }

  /** b | Mask(k) */
  function SetBit(b: Byte, k: nat): Byte
    requires k < 8
  {
    if HasBit(b, k) then b else RoomForBit(b, k); b + Mask(k)
  }

  lemma {:induction false} RoomForBit(b: Byte, k: nat)
    requires k < 8 && !HasBit(b, k)
    ensures b + Mask(k) < 256
    decreases k
  {
    if k > 0 {
      RoomForBit(Shl(b), k - 1);
      assert Mask(k - 1) == 2 * Mask(k);
    }
  }

  lemma ShlSetBit(b: Byte, k: nat)
    requires 0 < k < 8
    ensures Shl(SetBit(b, k)) == SetBit(Shl(b), k - 1)
  {
    var m := Mask(k);
    assert Mask(k - 1) == 2 * m;
    if !HasBit(b, k) {
      RoomForBit(Shl(b), k - 1);
      ShlSum(b, m);
    }
  }

  lemma ShlSum(b: Byte, m: nat)
    requires Shl(b) + 2 * m < 256 && b + m < 256
    ensures Shl(b + m) == Shl(b) + 2 * m
  {
  }

  lemma {:induction false} SetBitSets(b: Byte, k: nat, j: nat)
    requires k < 8
    ensures HasBit(SetBit(b, k), j) <==> j == k || HasBit(b, j)
    decreases j
  {
    if j > 0 && k > 0 {
      ShlSetBit(b, k);
      SetBitSets(Shl(b), k - 1, j - 1);
    } else if j > 0 {
      SetTopBit(b);
    } else if k > 0 && !HasBit(b, k) {
      SetLowerBit(b, k);
    }
  }

  /** The top bit is shifted out. */
  lemma SetTopBit(b: Byte)
    ensures Shl(SetBit(b, 0)) == Shl(b)
  {
  }

  /** A lower bit leaves the top bit as it is. */
  lemma SetLowerBit(b: Byte, k: nat)
    requires 0 < k < 8 && !HasBit(b, k)
    ensures b + Mask(k) >= 128 <==> b >= 128
  {
    RoomForBit(Shl(b), k - 1);
    assert Mask(k - 1) == 2 * Mask(k);
  }

  lemma {:induction false} NoBits(k: nat)
    ensures !HasBit(0, k)
  {
    if k > 0 {
      NoBits(k - 1);
    }
  }

  // ----- Encoding -----

  /** Set one code's bit in a bitmap that grows to hold it.  None is the subtraction that goes
      below zero, for a code whose octet lies before the bitmap's last. */
  function Put(bitmap: Bytes, code: Byte): Option<Bytes> {
    if code / 8 + 1 < |bitmap| then None
    else
      var grown := bitmap + Zeros(code / 8 + 1 - |bitmap|);
      Some(grown[code / 8 := SetBit(grown[code / 8], code % 8)])
  }

  function Collect(ts: seq<RecordType>, bitmap: Bytes): Option<Bytes> {
    if ts == [] then Some(bitmap)
    else match Put(bitmap, Code(ts[0]))
      case None => None
      case Some(b) => Collect(ts[1..], b)
  }

  /** The octets of a list of types: every code lies in window 0. */
  function Encode(ts: seq<RecordType>): Option<Bytes> {
    match Collect(ts, [])
    case None => None
    case Some(bitmap) => Some(if bitmap == [] then [] else [0, |bitmap| % 256] + bitmap)
  }

  lemma {:induction false} CollectSnoc(ts: seq<RecordType>, t: RecordType, bitmap: Bytes)
    ensures Collect(ts + [t], bitmap) ==
            match Collect(ts, bitmap) case None => None case Some(b) => Put(b, Code(t))
    decreases |ts|
  {
    if ts == [] {
      assert ts + [t] == [t] && [t][1..] == [];
    } else {
      assert (ts + [t])[0] == ts[0] && (ts + [t])[1..] == ts[1..] + [t];
      if Put(bitmap, Code(ts[0])).Some? {
        CollectSnoc(ts[1..], t, Put(bitmap, Code(ts[0])).value);
      }
    }
  }

  lemma {:induction false} CollectPrefix(ts: seq<RecordType>, i: nat)
    requires i <= |ts| && Collect(ts[..i], []).None?
    ensures Collect(ts, []).None?
    decreases |ts| - i
  {
    if i == |ts| {
      assert ts[..i] == ts;
    } else {
      assert ts[..i + 1] == ts[..i] + [ts[i]];
      CollectSnoc(ts[..i], ts[i], []);
      CollectPrefix(ts, i + 1);
    }
  }

  /** A map of windows that holds at most window 0. */
  ghost predicate Holds(windows: map<Byte, Bytes>, bitmap: Bytes) {
    windows == if bitmap == [] then map[] else map[0 := bitmap]
  }

  /** encode_bit_maps, over a map of windows; None where the growth loop's count underflows. */
  method EncodeBitMaps(ts: seq<RecordType>) returns (out: Option<Bytes>)
    ensures out == Encode(ts)
  {
    var windows: map<Byte, Bytes> := map[];
    ghost var bitmap: Bytes := [];
    assert ts[..0] == [];
    for n := 0 to |ts|
      invariant Holds(windows, bitmap) && Collect(ts[..n], []) == Some(bitmap)
    {
      assert ts[..n + 1] == ts[..n] + [ts[n]];
      CollectSnoc(ts[..n], ts[n], []);
      var added := AddCode(windows, Code(ts[n]), bitmap);
      if added.None? {
        CollectPrefix(ts, n + 1);
        return None;
      }
      windows := added.value;
      bitmap := Put(bitmap, Code(ts[n])).value;
    }
    assert ts[..|ts|] == ts;
    var octets := EmitWindows(windows, bitmap);
    return Some(octets);
  }

  method AddCode(windows: map<Byte, Bytes>, code: U16, ghost all: Bytes) returns (added: Option<map<Byte, Bytes>>)
    requires Holds(windows, all) && code < 256
    ensures added.None? <==> Put(all, code).None?
    ensures added.Some? ==> Holds(added.value, Put(all, code).value)
  {
    var window: Byte, low: Byte := code / 256, code % 256;
    var bitmap: Bytes := if window in windows then windows[window] else [];
    if low / 8 + 1 < |bitmap| {
      return None;
    }
    var grown := Grow(bitmap, low / 8 + 1 - |bitmap|);
    var marked: Bytes := grown[low / 8 := SetBit(grown[low / 8], low % 8)];
    assert |marked| > 0;
    return Some(windows[window := marked]);
  }

  method EmitWindows(windows: map<Byte, Bytes>, ghost all: Bytes) returns (octets: Bytes)
    requires Holds(windows, all)
    ensures octets == if all == [] then [] else [0, |all| % 256] + all
  {
    octets := [];
    var left := windows.Keys;
    while left != {}
      invariant left <= windows.Keys
      invariant octets == if all == [] || 0 in left then [] else [0, |all| % 256] + all
      decreases |left|
    {
      var window: Byte :| window in left;
      octets := octets + [window, |windows[window]| % 256] + windows[window];
      left := left - {window};
    }
  }

  method Grow(bitmap: Bytes, count: nat) returns (grown: Bytes)
    ensures grown == bitmap + Zeros(count)
  {
    grown := bitmap;
    for i := 0 to count
      invariant grown == bitmap + Zeros(i)
    {
      grown := grown + [0];
    }
  }

  // ----- Decoding -----

  /** The type of a code, where there is one; IXFR has a code but is not looked up. */
  function FromCode(code: int): Option<RecordType> {
    match code
    case 1 => Some(A) case 28 => Some(AAAA) case 255 => Some(ANY) case 252 => Some(AXFR)
    case 5 => Some(CNAME) case 48 => Some(DNSKEY) case 43 => Some(DS) case 25 => Some(KEY)
    case 15 => Some(MX) case 2 => Some(NS) case 47 => Some(NSEC) case 50 => Some(NSEC3)
    case 51 => Some(NSEC3PARAM) case 0 => Some(NULL) case 41 => Some(OPT) case 12 => Some(PTR)
    case 46 => Some(RRSIG) case 24 => Some(SIG) case 6 => Some(SOA) case 33 => Some(SRV)
    case 16 => Some(TXT)
    case _ => None
  }

  lemma FromCodeInverts(t: RecordType, code: int)
    ensures FromCode(Code(t)) == if t == IXFR then None else Some(t)
    ensures FromCode(code) == Some(t) ==> Code(t) == code
  {
  }

  datatype BitMapState =
    | ReadWindow
    | ReadLen(window: Byte)
    | ReadType(window: Byte, len: Byte, left: Byte)

  /** What decoding comes to; `wrapped` tells that an octet's arithmetic went past its range. */
  datatype Decoded =
    | Types(types: seq<RecordType>, wrapped: bool)
    | UnknownType(code: int)
    | ShortInput

  function Wrap(x: int): Byte {
    x % 256
  }

  /** The code of bit i of the octet under the cursor, computed in octets. */
  function CodeAt(s: BitMapState, i: nat): int
    requires s.ReadType?
  {
    s.window * 256 + Wrap(Wrap(s.len - s.left) * 8 + i)
  }

  predicate Wraps(s: BitMapState, i: nat)
    requires s.ReadType?
  {
    s.len < s.left || (s.len - s.left) * 8 + i > 255
  }

  /** The bits of one octet from bit i on, the octet shifted so that bit i is on top. */
  function ReadBits(s: BitMapState, bits: Byte, i: nat, acc: seq<RecordType>, wrapped: bool): Decoded
    requires s.ReadType? && i <= 8
    decreases 8 - i, bits
  {
    if i == 8 then Types(acc, wrapped)
    else if bits < 128 then ReadBits(s, Shl(bits), i + 1, acc, wrapped)
    else match FromCode(CodeAt(s, i))
      case None => UnknownType(CodeAt(s, i))
      case Some(t) => ReadBits(s, Shl(bits), i + 1, acc + [t], wrapped || Wraps(s, i))
  }

  function NextState(s: BitMapState, b: Byte): BitMapState {
    match s
    case ReadWindow => ReadLen(b)
    case ReadLen(w) => ReadType(w, b, b)
    case ReadType(w, len, left) => if left == 1 then ReadWindow else ReadType(w, len, Wrap(left - 1))
  }

  /** decode_type_bit_maps from a state: n octets of the input are still to be read. */
  function DecodeFrom(s: BitMapState, input: Bytes, n: nat, acc: seq<RecordType>, wrapped: bool): Decoded
    decreases n
  {
    if n == 0 then Types(acc, wrapped)
    else if input == [] then ShortInput
    else if s.ReadType? then
      match ReadBits(s, input[0], 0, acc, wrapped)
      case Types(ts, w) => DecodeFrom(NextState(s, input[0]), input[1..], n - 1, ts, w || s.left == 0)
      case error => error
    else DecodeFrom(NextState(s, input[0]), input[1..], n - 1, acc, wrapped)
  }

  function Decode(input: Bytes, n: nat): Decoded {
    DecodeFrom(ReadWindow, input, n, [], false)
  }

  lemma {:induction false} DecodeStep(s: BitMapState, input: Bytes, n: nat, acc: seq<RecordType>, wrapped: bool, i: nat)
    requires i < n && i < |input|
    ensures DecodeFrom(s, input[i..], n - i, acc, wrapped) ==
            if s.ReadType? then
              match ReadBits(s, input[i], 0, acc, wrapped)
              case Types(ts, w) => DecodeFrom(NextState(s, input[i]), input[i + 1..], n - i - 1, ts, w || s.left == 0)
              case error => error
            else DecodeFrom(NextState(s, input[i]), input[i + 1..], n - i - 1, acc, wrapped)
  {
    assert input[i..][0] == input[i] && input[i..][1..] == input[i + 1..];
  }

  /** decode_type_bit_maps: one octet a turn, and one bit a turn inside a bitmap. */
  method DecodeTypeBitMaps(input: Bytes, n: nat) returns (r: Decoded)
    ensures r == Decode(input, n)
  {
    var types: seq<RecordType>, wrapped := [], false;
    var state := ReadWindow;
    assert input[0..] == input;
    for i := 0 to n
      invariant i <= |input|
      invariant DecodeFrom(state, input[i..], n - i, types, wrapped) == Decode(input, n)
    {
      if i == |input| {
        return ShortInput;
      }
      DecodeStep(state, input, n, types, wrapped, i);
      if state.ReadType? {
        var bits := DecodeOctet(state, input[i], types, wrapped);
        if !bits.Types? {
          return bits;
        }
        types, wrapped := bits.types, bits.wrapped || state.left == 0;
      }
      state := NextState(state, input[i]);
    }
    return Types(types, wrapped);
  }

  method DecodeOctet(s: BitMapState, octet: Byte, before: seq<RecordType>, over: bool) returns (r: Decoded)
    requires s.ReadType?
    ensures r == ReadBits(s, octet, 0, before, over)
  {
    var bits, types, wrapped := octet, before, over;
    for i := 0 to 8
      invariant ReadBits(s, bits, i, types, wrapped) == ReadBits(s, octet, 0, before, over)
    {
      if bits >= 128 {
        var code := CodeAt(s, i);
        var t := FromCode(code);
        if t.None? {
          return UnknownType(code);
        }
        types, wrapped := types + [t.value], wrapped || Wraps(s, i);
      }
      bits := Shl(bits);
    }
    return Types(types, wrapped);
  }

  // ----- The codes a bitmap stands for -----

  ghost predicate Marked(bitmap: Bytes, code: int) {
    0 <= code && code / 8 < |bitmap| && HasBit(bitmap[code / 8], code % 8)
  }

  ghost predicate CodesAscend(cs: seq<int>) {
    forall i, j :: 0 <= i < j < |cs| ==> cs[i] < cs[j]
  }

  /** The codes of an octet's bits from bit k on, the octet shifted so that bit k is on top. */
  function CodesOf(bits: Byte, base: int, k: nat): seq<int>
    requires k <= 8
    decreases 8 - k, bits
  {
    if k == 8 then []
    else (if bits >= 128 then [base + k] else []) + CodesOf(Shl(bits), base, k + 1)
  }

  function Codes(bitmap: Bytes, i: nat): seq<int>
    requires i <= |bitmap|
    decreases |bitmap| - i
  {
    if i == |bitmap| then [] else CodesOf(bitmap[i], 8 * i, 0) + Codes(bitmap, i + 1)
  }

  lemma {:induction false} CodesOfBits(bits: Byte, base: int, k: nat, c: int)
    requires k <= 8
    ensures c in CodesOf(bits, base, k) <==> base + k <= c < base + 8 && HasBit(bits, c - base - k)
    decreases 8 - k
  {
    if k < 8 {
      CodesOfBits(Shl(bits), base, k + 1, c);
      if c > base + k {
        assert HasBit(bits, c - base - k) == HasBit(Shl(bits), c - base - k - 1);
      }
    }
  }

  lemma {:induction false} CodesOfAscend(bits: Byte, base: int, k: nat)
    requires k <= 8
    ensures CodesAscend(CodesOf(bits, base, k))
    decreases 8 - k
  {
    if k < 8 {
      var rest := CodesOf(Shl(bits), base, k + 1);
      CodesOfAscend(Shl(bits), base, k + 1);
      forall c | c in rest ensures base + k + 1 <= c {
        CodesOfBits(Shl(bits), base, k + 1, c);
      }
      AscendJoin(if bits >= 128 then [base + k] else [], rest, base + k + 1);
    }
  }

  lemma {:induction false} CodesOfBitmap(bitmap: Bytes, i: nat, c: int)
    requires i <= |bitmap|
    ensures c in Codes(bitmap, i) <==> 8 * i <= c && Marked(bitmap, c)
    decreases |bitmap| - i
  {
    if i < |bitmap| {
      var here, rest := CodesOf(bitmap[i], 8 * i, 0), Codes(bitmap, i + 1);
      assert c in Codes(bitmap, i) <==> c in here || c in rest;
      CodesOfBitmap(bitmap, i + 1, c);
      CodesHere(bitmap, i, c);
    } else if 8 * i <= c {
      BeyondEnd(bitmap, c);
    }
  }

  lemma BeyondEnd(bitmap: Bytes, c: int)
    requires 8 * |bitmap| <= c
    ensures !Marked(bitmap, c)
  {
  }

  lemma CodesHere(bitmap: Bytes, i: nat, c: int)
    requires i < |bitmap|
    ensures c in CodesOf(bitmap[i], 8 * i, 0) <==> 8 * i <= c < 8 * i + 8 && Marked(bitmap, c)
  {
    CodesOfBits(bitmap[i], 8 * i, 0, c);
    if 8 * i <= c < 8 * i + 8 {
      MarkedAt(bitmap, i, c);
    }
  }

  lemma MarkedAt(bitmap: Bytes, i: nat, c: int)
    requires i < |bitmap| && 8 * i <= c < 8 * i + 8
    ensures Marked(bitmap, c) <==> HasBit(bitmap[i], c - 8 * i)
  {
    OctetOf(c, i);
  }

  lemma OctetOf(c: int, i: nat)
    requires 8 * i <= c < 8 * i + 8
    ensures c / 8 == i && c % 8 == c - 8 * i
  {
  }

  lemma {:induction false} BitmapAscends(bitmap: Bytes, i: nat)
    requires i <= |bitmap|
    ensures CodesAscend(Codes(bitmap, i))
    decreases |bitmap| - i
  {
    if i < |bitmap| {
      var here, rest := CodesOf(bitmap[i], 8 * i, 0), Codes(bitmap, i + 1);
      CodesOfAscend(bitmap[i], 8 * i, 0);
      BitmapAscends(bitmap, i + 1);
      forall c | c in here ensures c < 8 * i + 8 {
        CodesOfBits(bitmap[i], 8 * i, 0, c);
      }
      forall c | c in rest ensures 8 * i + 8 <= c {
        CodesOfBitmap(bitmap, i + 1, c);
      }
      AscendJoin(here, rest, 8 * i + 8);
    }
  }

  lemma AscendJoin(a: seq<int>, b: seq<int>, between: int)
    requires CodesAscend(a) && CodesAscend(b)
    requires (forall c :: c in a ==> c < between) && (forall c :: c in b ==> between <= c)
    ensures CodesAscend(a + b)
  {
    forall i, j | 0 <= i < j < |a + b| ensures (a + b)[i] < (a + b)[j] {
      if i < |a| { assert a[i] in a; }
      if j >= |a| { assert b[j - |a|] in b; }
    }
  }

  // ----- What encoding marks -----

  ghost predicate HasCode(ts: seq<RecordType>, code: int) {
    exists t :: t in ts && Code(t) == code
  }

  /** The octet of each type's bit is no earlier than that of the type before. */
  predicate OctetsAscend(ts: seq<RecordType>) {
    forall i :: 0 < i < |ts| ==> Code(ts[i - 1]) / 8 <= Code(ts[i]) / 8
  }

  lemma PutMarks(bitmap: Bytes, code: Byte, c: int)
    requires Put(bitmap, code).Some?
    ensures var b := Put(bitmap, code).value;
            |b| == code / 8 + 1 && b[|b| - 1] != 0 && (Marked(b, c) <==> c == code || Marked(bitmap, c))
  {
    var grown := bitmap + Zeros(code / 8 + 1 - |bitmap|);
    NoBits(c % 8);
    NoBits(code % 8);
    SetBitSets(grown[code / 8], code % 8, code % 8);
    if 0 <= c && c / 8 == code / 8 {
      SetBitSets(grown[code / 8], code % 8, c % 8);
    }
  }

  lemma {:induction false} CollectMarks(ts: seq<RecordType>, bitmap: Bytes, c: int)
    requires Collect(ts, bitmap).Some?
    ensures Marked(Collect(ts, bitmap).value, c) <==> HasCode(ts, c) || Marked(bitmap, c)
    ensures ts != [] ==>
              var b := Collect(ts, bitmap).value;
              0 < |b| <= 32 && b[|b| - 1] != 0
    decreases |ts|
  {
    if ts != [] {
      PutMarks(bitmap, Code(ts[0]), c);
      CollectMarks(ts[1..], Put(bitmap, Code(ts[0])).value, c);
      assert HasCode(ts, c) <==> Code(ts[0]) == c || HasCode(ts[1..], c) by {
        assert ts == [ts[0]] + ts[1..];
      }
    }
  }

  lemma {:induction false} CollectExactly(ts: seq<RecordType>, bitmap: Bytes)
    ensures Collect(ts, bitmap).Some? <==> OctetsAscend(ts) && (ts != [] ==> |bitmap| <= Code(ts[0]) / 8 + 1)
    decreases |ts|
  {
    if ts != [] && Put(bitmap, Code(ts[0])).Some? {
      var b := Put(bitmap, Code(ts[0])).value;
      CollectExactly(ts[1..], b);
      if OctetsAscend(ts) {
        assert OctetsAscend(ts[1..]);
      }
      if OctetsAscend(ts[1..]) && (|ts| > 1 ==> |b| <= Code(ts[1]) / 8 + 1) {
        forall i | 0 < i < |ts| ensures Code(ts[i - 1]) / 8 <= Code(ts[i]) / 8 {
          if i > 1 {
            assert ts[1..][i - 2] == ts[i - 1] && ts[1..][i - 1] == ts[i];
          }
        }
      }
    }
  }

  /** Encoding meets no index underflow exactly when no type's bit lies in an earlier octet than
      that of the type before it; the bitmap then has 1 to 32 octets and does not end in zero. */
  lemma EncodesExactly(ts: seq<RecordType>)
    ensures Encode(ts).Some? <==> OctetsAscend(ts)
    ensures Encode(ts).Some? && ts != [] ==>
              var o := Encode(ts).value;
              3 <= |o| <= 34 && o[0] == 0 && o[1] == |o| - 2 && o[|o| - 1] != 0
  {
    CollectExactly(ts, []);
    if OctetsAscend(ts) && ts != [] {
      CollectMarks(ts, [], 0);
      EncodeShape(Collect(ts, []).value, Encode(ts).value);
    }
  }

  lemma EncodeShape(bitmap: Bytes, o: Bytes)
    requires 0 < |bitmap| <= 32 && bitmap[|bitmap| - 1] != 0 && o == [0, |bitmap| % 256] + bitmap
    ensures 3 <= |o| <= 34 && o[0] == 0 && o[1] == |o| - 2 && o[|o| - 1] != 0
  {
  }

  function BitOf(b: Byte, k: nat): nat {
    if HasBit(b, k) then 1 else 0
  }

  lemma Shifted(b: Byte, k: nat)
    ensures 2 * b == 256 * BitOf(b, 0) + Shl(b) && BitOf(b, k + 1) == BitOf(Shl(b), k)
  {
  }

  lemma FourBits(b: Byte)
    ensures 16 * b == 2048 * BitOf(b, 0) + 1024 * BitOf(b, 1) + 512 * BitOf(b, 2) + 256 * BitOf(b, 3) +
                      Shl(Shl(Shl(Shl(b))))
  {
    var b1 := Shl(b);
    var b2 := Shl(b1);
    var b3 := Shl(b2);
    Shifted(b, 0);
    Shifted(b, 1);
    Shifted(b, 2);
    Shifted(b1, 0);
    Shifted(b1, 1);
    Shifted(b2, 0);
    Shifted(b3, 0);
  }

  lemma FourShifted(b: Byte, k: nat)
    ensures BitOf(b, k + 4) == BitOf(Shl(Shl(Shl(Shl(b)))), k)
  {
    Shifted(b, k + 3);
    Shifted(Shl(b), k + 2);
    Shifted(Shl(Shl(b)), k + 1);
    Shifted(Shl(Shl(Shl(b))), k);
  }

  /** An octet is the sum of the weights of its bits, the first one the most significant. */
  lemma OctetIs(b: Byte)
    ensures b == 128 * BitOf(b, 0) + 64 * BitOf(b, 1) + 32 * BitOf(b, 2) + 16 * BitOf(b, 3) +
                 8 * BitOf(b, 4) + 4 * BitOf(b, 5) + 2 * BitOf(b, 6) + BitOf(b, 7)
  {
    var b1 := Shl(b);
    var b2 := Shl(b1);
    var b3 := Shl(b2);
    var b4 := Shl(b3);
    FourBits(b);
    FourBits(b4);
    FourShifted(b, 0);
    FourShifted(b, 1);
    FourShifted(b, 2);
    FourShifted(b, 3);
  }

  /** Section 4.1.2 of RFC 4034: behind the window number and the length, the bit of a type is bit
      code % 8, counted from the most significant, of octet code / 8, and is set exactly for the types
      listed. */
  lemma EncodedBits(ts: seq<RecordType>, code: nat)
    requires Encode(ts).Some?
    ensures var o := Encode(ts).value;
            HasCode(ts, code) <==> 2 + code / 8 < |o| && HasBit(o[2 + code / 8], code % 8)
  {
    var bitmap := Collect(ts, []).value;
    CollectMarks(ts, [], code);
  }

  // ----- What decoding lists -----

  function Decodes(cs: seq<int>, acc: seq<RecordType>): Decoded
    decreases |cs|
  {
    if cs == [] then Types(acc, false)
    else match FromCode(cs[0])
      case None => UnknownType(cs[0])
      case Some(t) => Decodes(cs[1..], acc + [t])
  }

  lemma {:induction false} DecodesJoin(a: seq<int>, b: seq<int>, acc: seq<RecordType>)
    ensures Decodes(a + b, acc) ==
            match Decodes(a, acc) case Types(ts, _) => Decodes(b, ts) case error => error
    decreases |a|
  {
    if a == [] {
      assert a + b == b;
    } else {
      assert (a + b)[0] == a[0] && (a + b)[1..] == a[1..] + b;
      if FromCode(a[0]).Some? {
        DecodesJoin(a[1..], b, acc + [FromCode(a[0]).value]);
      }
    }
  }

  /** Inside a bitmap of at most 32 octets in window 0 nothing wraps. */
  lemma CodeAtPlain(s: BitMapState, i: nat)
    requires s.ReadType? && s.window == 0 && i < 8 && 0 <= s.len - s.left < 32
    ensures CodeAt(s, i) == 8 * (s.len - s.left) + i && !Wraps(s, i)
  {
  }

  lemma DecodesCons(c: int, rest: seq<int>, acc: seq<RecordType>)
    ensures Decodes([c] + rest, acc) ==
            match FromCode(c) case None => UnknownType(c) case Some(t) => Decodes(rest, acc + [t])
  {
    assert ([c] + rest)[1..] == rest;
  }

  lemma {:induction false} ReadBitsLists(s: BitMapState, bits: Byte, k: nat, acc: seq<RecordType>, base: int)
    requires s.ReadType? && s.window == 0 && k <= 8 && 0 <= s.len - s.left < 32 && base == 8 * (s.len - s.left)
    ensures ReadBits(s, bits, k, acc, false) == Decodes(CodesOf(bits, base, k), acc)
    decreases 8 - k
  {
    if k < 8 {
      var rest := CodesOf(Shl(bits), base, k + 1);
      if bits >= 128 {
        CodeAtPlain(s, k);
        var t := FromCode(base + k);
        assert CodesOf(bits, base, k) == [base + k] + rest;
        DecodesCons(base + k, rest, acc);
        if t.Some? {
          ReadBitsLists(s, Shl(bits), k + 1, acc + [t.value], base);
        }
      } else {
        ReadBitsLists(s, Shl(bits), k + 1, acc, base);
        assert CodesOf(bits, base, k) == rest;
      }
    }
  }

  function StateAt(len: Byte, i: nat): BitMapState
    requires i <= len
  {
    if i == len then ReadWindow else ReadType(0, len, len - i)
  }

  /** One octet of the bitmap. */
  lemma OctetLists(bitmap: Bytes, i: nat, acc: seq<RecordType>)
    requires i < |bitmap| <= 32
    ensures DecodeFrom(StateAt(|bitmap|, i), bitmap[i..], |bitmap| - i, acc, false) ==
            match Decodes(CodesOf(bitmap[i], 8 * i, 0), acc)
            case Types(ts, _) => DecodeFrom(StateAt(|bitmap|, i + 1), bitmap[i + 1..], |bitmap| - i - 1, ts, false)
            case error => error
  {
    var s := StateAt(|bitmap|, i);
    DecodeStep(s, bitmap, |bitmap|, acc, false, i);
    ReadBitsLists(s, bitmap[i], 0, acc, 8 * i);
    DecodesFlag(CodesOf(bitmap[i], 8 * i, 0), acc);
    NextStateAt(|bitmap|, i, bitmap[i]);
  }

  lemma NextStateAt(len: Byte, i: nat, b: Byte)
    requires i < len
    ensures StateAt(len, i) == ReadType(0, len, len - i) && NextState(StateAt(len, i), b) == StateAt(len, i + 1)
  {
  }

  lemma {:induction false} DecodeLists(bitmap: Bytes, i: nat, acc: seq<RecordType>)
    requires i <= |bitmap| <= 32
    ensures DecodeFrom(StateAt(|bitmap|, i), bitmap[i..], |bitmap| - i, acc, false) == Decodes(Codes(bitmap, i), acc)
    decreases |bitmap| - i
  {
    if i < |bitmap| {
      var here := CodesOf(bitmap[i], 8 * i, 0);
      OctetLists(bitmap, i, acc);
      DecodesJoin(here, Codes(bitmap, i + 1), acc);
      if Decodes(here, acc).Types? {
        DecodeLists(bitmap, i + 1, Decodes(here, acc).types);
      }
    }
  }

  lemma {:induction false} DecodesFlag(cs: seq<int>, acc: seq<RecordType>)
    ensures Decodes(cs, acc).Types? ==> !Decodes(cs, acc).wrapped
    decreases |cs|
  {
    if cs != [] && FromCode(cs[0]).Some? {
      DecodesFlag(cs[1..], acc + [FromCode(cs[0]).value]);
    }
  }

  /** Codes that all have types decode to those types, one for one. */
  lemma {:induction false} DecodesAll(cs: seq<int>, acc: seq<RecordType>)
    requires forall c :: c in cs ==> FromCode(c).Some?
    ensures Decodes(cs, acc).Types? && |Decodes(cs, acc).types| == |acc| + |cs|
    ensures acc <= Decodes(cs, acc).types
    ensures forall i :: 0 <= i < |cs| ==> Some(Decodes(cs, acc).types[|acc| + i]) == FromCode(cs[i])
    decreases |cs|
  {
    if cs != [] {
      assert cs[0] in cs;
      DecodesAll(cs[1..], acc + [FromCode(cs[0]).value]);
    }
  }

  /** A single unknown code is where decoding stops. */
  lemma {:induction false} DecodesStops(cs: seq<int>, acc: seq<RecordType>, unknown: int)
    requires unknown in cs && FromCode(unknown).None?
    requires forall c :: c in cs && c != unknown ==> FromCode(c).Some?
    ensures Decodes(cs, acc) == UnknownType(unknown)
    decreases |cs|
  {
    assert cs[0] in cs;
    if cs[0] != unknown {
      DecodesStops(cs[1..], acc + [FromCode(cs[0]).value], unknown);
    }
  }

  lemma HeaderRead(bitmap: Bytes, o: Bytes)
    requires 0 < |bitmap| <= 32 && o == [0, |bitmap|] + bitmap
    ensures Decode(o, |o|) == DecodeFrom(StateAt(|bitmap|, 0), bitmap, |bitmap|, [], false)
  {
    assert o[0..] == o && o[2..] == bitmap;
    DecodeStep(ReadWindow, o, |o|, [], false, 0);
    DecodeStep(ReadLen(0), o, |o|, [], false, 1);
  }

  lemma DecodeOfEncode(ts: seq<RecordType>, bitmap: Bytes, o: Bytes)
    requires Collect(ts, []) == Some(bitmap) && Encode(ts) == Some(o)
    ensures Decode(o, |o|) == Decodes(Codes(bitmap, 0), [])
  {
    CollectLength(ts, bitmap);
    if bitmap != [] {
      HeaderRead(bitmap, o);
      assert bitmap[0..] == bitmap;
      DecodeLists(bitmap, 0, []);
    }
  }

  lemma CollectLength(ts: seq<RecordType>, bitmap: Bytes)
    requires Collect(ts, []) == Some(bitmap)
    ensures |bitmap| <= 32 && (bitmap == [] <==> ts == [])
  {
    CollectMarks(ts, [], 0);
  }

  /** The bitmap of a list marks the list's codes and no others. */
  lemma CodesOfEncode(ts: seq<RecordType>, c: int)
    requires Collect(ts, []).Some?
    ensures c in Codes(Collect(ts, []).value, 0) <==> HasCode(ts, c)
  {
    CollectMarks(ts, [], c);
    CodesOfBitmap(Collect(ts, []).value, 0, c);
  }

  lemma {:induction false} AscendingTypesUnique(a: seq<RecordType>, b: seq<RecordType>)
    requires TypesAscend(a) && TypesAscend(b) && forall t :: t in a <==> t in b
    ensures a == b
    decreases |a|
  {
    HasMember(a);
    HasMember(b);
    if a != [] && b != [] {
      FirstIsLeast(a, b[0]);
      FirstIsLeast(b, a[0]);
      FromCodeInverts(a[0], 0);
      FromCodeInverts(b[0], 0);
      SameCode(a[0], b[0]);
      forall t ensures t in a[1..] <==> t in b[1..] {
        TailMembers(a, t);
        TailMembers(b, t);
      }
      AscendingTypesUnique(a[1..], b[1..]);
      assert a == [a[0]] + a[1..] && b == [b[0]] + b[1..];
    }
  }

  lemma SameCode(a: RecordType, b: RecordType)
    requires Code(a) == Code(b)
    ensures a == b
  {
    FromCodeInverts(a, 0);
    FromCodeInverts(b, 0);
  }

  lemma FirstIsLeast(ts: seq<RecordType>, t: RecordType)
    requires TypesAscend(ts) && t in ts
    ensures Code(ts[0]) <= Code(t)
  {
    var i :| 0 <= i < |ts| && ts[i] == t;
  }

  lemma TailMembers(ts: seq<RecordType>, t: RecordType)
    requires TypesAscend(ts) && ts != []
    ensures t in ts[1..] <==> t in ts && t != ts[0]
  {
    assert ts == [ts[0]] + ts[1..];
  }

  /** decode(encode(ts)), for every list that encodes: with IXFR among the types decoding fails on
      its code; otherwise it returns the list's types, each once and in order of their codes, and
      no octet wrapped. */
  lemma ReadBack(ts: seq<RecordType>, o: Bytes)
    requires Encode(ts) == Some(o)
    ensures IXFR in ts ==> Decode(o, |o|) == UnknownType(Code(IXFR))
    ensures IXFR !in ts ==>
              && Decode(o, |o|).Types? && !Decode(o, |o|).wrapped
              && TypesAscend(Decode(o, |o|).types)
              && forall t :: t in Decode(o, |o|).types <==> t in ts
  {
    var bitmap := Collect(ts, []).value;
    var cs := Codes(bitmap, 0);
    DecodeOfEncode(ts, bitmap, o);
    forall c ensures c in cs <==> HasCode(ts, c) {
      CodesOfEncode(ts, c);
    }
    BitmapAscends(bitmap, 0);
    ListedTypes(ts, cs);
  }

  lemma ListedTypes(ts: seq<RecordType>, cs: seq<int>)
    requires CodesAscend(cs) && forall c :: c in cs <==> HasCode(ts, c)
    ensures IXFR in ts ==> Decodes(cs, []) == UnknownType(Code(IXFR))
    ensures IXFR !in ts ==>
              && Decodes(cs, []).Types? && !Decodes(cs, []).wrapped
              && TypesAscend(Decodes(cs, []).types)
              && forall t :: t in Decodes(cs, []).types <==> t in ts
  {
    KnownCodes(ts, cs);
    if IXFR in ts {
      DecodesStops(cs, [], Code(IXFR));
    } else {
      DecodesAll(cs, []);
      DecodesFlag(cs, []);
      SameTypes(ts, cs, Decodes(cs, []).types);
    }
  }

  lemma KnownCodes(ts: seq<RecordType>, cs: seq<int>)
    requires forall c :: c in cs <==> HasCode(ts, c)
    ensures forall c :: c in cs && c != Code(IXFR) ==> FromCode(c).Some?
    ensures Code(IXFR) in cs <==> IXFR in ts
  {
    forall c | c in cs && c != Code(IXFR) ensures FromCode(c).Some? {
      var t :| t in ts && Code(t) == c;
      FromCodeInverts(t, c);
    }
    if HasCode(ts, Code(IXFR)) {
      var t :| t in ts && Code(t) == Code(IXFR);
      SameCode(t, IXFR);
    }
  }

  lemma SameTypes(ts: seq<RecordType>, cs: seq<int>, out: seq<RecordType>)
    requires forall c :: c in cs <==> HasCode(ts, c)
    requires CodesAscend(cs) && |out| == |cs| && forall i :: 0 <= i < |cs| ==> Some(out[i]) == FromCode(cs[i])
    ensures TypesAscend(out) && forall t :: t in out <==> t in ts
  {
    forall i | 0 <= i < |cs| ensures Code(out[i]) == cs[i] && out[i] in ts {
      FromCodeInverts(out[i], cs[i]);
      assert cs[i] in cs;
      var t :| t in ts && Code(t) == cs[i];
      SameCode(t, out[i]);
    }
    forall t | t in ts ensures t in out {
      assert HasCode(ts, Code(t));
      var i :| 0 <= i < |cs| && cs[i] == Code(t);
      SameCode(t, out[i]);
    }
  }

  /** The round trip gives the list back exactly when the list is in strict order of its codes and
      has no IXFR; such a list always encodes. */
  lemma RoundTripExactly(ts: seq<RecordType>)
    ensures TypesAscend(ts) ==> Encode(ts).Some?
    ensures Encode(ts).Some? ==>
              var o := Encode(ts).value;
              Decode(o, |o|) == Types(ts, false) <==> TypesAscend(ts) && IXFR !in ts
  {
    EncodesExactly(ts);
    if Encode(ts).Some? {
      var o := Encode(ts).value;
      ReadBack(ts, o);
      if TypesAscend(ts) && IXFR !in ts {
        AscendingTypesUnique(ts, Decode(o, |o|).types);
      }
    }
  }

  /** Every NSEC record of the chain built for a zone has types that encode and read back. */
  lemma ChainReadsBack(z: Zone, origin: Name, ttl: U32, i: nat)
    requires WellFormed(z) && i < |ChainFor(z, origin, ttl)|
    ensures var ts := ChainFor(z, origin, ttl)[i].rdata.types;
            ts != [] && Encode(ts).Some? && Decode(Encode(ts).value, |Encode(ts).value|) == Types(ts, false)
  {
    var ks := InOrder(DataKeys(z));
    var gs := Groups(ks);
    GroupsOfAscending(ks);
    ChainAt(gs, origin, ttl, i);
    var ts := gs[i].types;
    RoundTripExactly(ts);
    forall t | t in ts ensures t != IXFR {
      assert Lists(gs, RrKey(gs[i].owner, t));
      KeyedTypes(z, RrKey(gs[i].owner, t));
    }
  }

  lemma KeyedTypes(z: Zone, k: RrKey)
    requires WellFormed(z) && k in DataKeys(z)
    ensures !MetaType(k.rtype)
  {
    assert SetAt(k, z[k]);
  }
}
