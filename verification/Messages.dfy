/** Whole messages read back: what an encoder wrote (client/src/serialize/binary, emit of
    client/src/rr/resource.rs) is recovered item by item by a reader that knows only its shape. */
module Messages {
  import opened Basics
  import opened Names
  import opened NameCodec

  // ----- A reader -----

  /** What a reader expects next: so many octets, or a name. */
  datatype AtomShape = OctetsHere(count: nat) | NameHere

  /** Or record data, behind its length in octets. */
  datatype ItemShape = PlainShape(shape: AtomShape) | DataShape(shapes: seq<AtomShape>)

  datatype Got<T> = Got(value: T, next: nat) | Nothing

  function ReadAtom(buf: Bytes, at: nat, shape: AtomShape): Got<Atom> {
    match shape
    case OctetsHere(n) => if at + n <= |buf| then Got(Octets(buf[at..at + n]), at + n) else Nothing
    case NameHere =>
      (match ReadName(buf, at, at)
       case Read(n, next) => Got(NameAtom(n, false), next)
       case _ => Nothing)
  }

  function ReadAtoms(buf: Bytes, at: nat, shapes: seq<AtomShape>): Got<seq<Atom>>
    decreases |shapes|
  {
    if shapes == [] then Got([], at)
    else match ReadAtom(buf, at, shapes[0])
      case Nothing => Nothing
      case Got(a, next) =>
        (match ReadAtoms(buf, next, shapes[1..])
         case Nothing => Nothing
         case Got(rest, end) => Got([a] + rest, end))
  }

  /** Record data must fill its length, and the next item begins where that length says. */
  function ReadItem(buf: Bytes, at: nat, shape: ItemShape): Got<Item> {
    match shape
    case PlainShape(s) =>
      (match ReadAtom(buf, at, s) case Nothing => Nothing case Got(a, next) => Got(Plain(a), next))
    case DataShape(ss) =>
      if at + 2 > |buf| then Nothing
      else
        var end := at + 2 + WordAt(buf, at);
        match ReadAtoms(buf, at + 2, ss)
        case Nothing => Nothing
        case Got(atoms, next) => if next == end then Got(Rdata(atoms), end) else Nothing
  }

  function ReadItems(buf: Bytes, at: nat, shapes: seq<ItemShape>): Got<seq<Item>>
    decreases |shapes|
  {
    if shapes == [] then Got([], at)
    else match ReadItem(buf, at, shapes[0])
      case Nothing => Nothing
      case Got(x, next) =>
        (match ReadItems(buf, next, shapes[1..])
         case Nothing => Nothing
         case Got(rest, end) => Got([x] + rest, end))
  }

  // ----- Shapes of what is written -----

  function ShapeOf(a: Atom): AtomShape {
    match a case Octets(bs) => OctetsHere(|bs|) case NameAtom(_, _) => NameHere
  }

  function ShapesOf(atoms: seq<Atom>): seq<AtomShape> {
    if atoms == [] then [] else [ShapeOf(atoms[0])] + ShapesOf(atoms[1..])
  }

  function ItemShapes(items: seq<Item>): seq<ItemShape> {
    if items == [] then [] else [ItemShapeOf(items[0])] + ItemShapes(items[1..])
  }

  function ItemShapeOf(item: Item): ItemShape {
    match item case Plain(a) => PlainShape(ShapeOf(a)) case Rdata(atoms) => DataShape(ShapesOf(atoms))
  }

  /** An atom without the choice of how its name was written, which does not show. */
  function Plainly(a: Atom): Atom {
    match a case Octets(_) => a case NameAtom(n, _) => NameAtom(n, false)
  }

  function PlainlyAll(atoms: seq<Atom>): seq<Atom> {
    if atoms == [] then [] else [Plainly(atoms[0])] + PlainlyAll(atoms[1..])
  }

  function PlainItems(items: seq<Item>): seq<Item> {
    if items == [] then [] else [PlainItem(items[0])] + PlainItems(items[1..])
  }

  function PlainItem(item: Item): Item {
    match item case Plain(a) => Plain(Plainly(a)) case Rdata(atoms) => Rdata(PlainlyAll(atoms))
  }

  // ----- Compression -----

  /** Writing a list of labels within reach of a pointer remembers where it stands. */
  lemma {:induction false} Remembers(e: Enc, labels: Name, start: nat)
    requires labels != [] && Compress(e, labels, start).Emitted? && (labels in e.pointers || Offset(e) < POINTER_LIMIT)
    ensures labels in Compress(e, labels, start).enc.pointers
  {
    if labels !in e.pointers {
      KeepsRemembering(Put(Store(e, labels), LabelOctets(labels[0])), labels[1..], start, labels);
    }
  }

  lemma {:induction false} KeepsRemembering(e: Enc, labels: Name, start: nat, k: Name)
    requires k in e.pointers && Compress(e, labels, start).Emitted?
    ensures k in Compress(e, labels, start).enc.pointers
    decreases |labels|
  {
    if labels != [] && labels !in e.pointers {
      KeepsRemembering(Put(Store(e, labels), LabelOctets(labels[0])), labels[1..], start, k);
    }
  }

  /** So a name written once within reach of a pointer takes two octets each time it is written again,
      whatever came in between. */
  lemma TwiceIsShort(e: Enc, n: Name, later: Enc)
    requires n != [] && EmitName(e, n, false).Emitted? && Offset(e) < POINTER_LIMIT
    requires forall k :: k in EmitName(e, n, false).enc.pointers ==> k in later.pointers
    ensures EmitName(later, n, false).Emitted? && |EmitName(later, n, false).enc.buffer| == |later.buffer| + 2
  {
    Remembers(e, n, Offset(e));
  }

  // ----- Everything is recovered -----

  lemma NameRecovered(full: Bytes, buf: Bytes, at: nat, n: Name, end: nat)
    requires full <= buf && ReadName(full, at, at) == Read(n, end)
    ensures ReadName(buf, at, at) == Read(n, end)
  {
    assert buf == full + buf[|full|..];
    ReadStable(full, buf[|full|..], at, at, at);
  }

  lemma OctetsStand(P: Bytes, before: Bytes, bs: Bytes, buf: Bytes)
    requires P + (before + bs) <= buf
    ensures var at := |P| + |before|; at + |bs| <= |buf| && buf[at..at + |bs|] == bs
  {
    var at := |P| + |before|;
    var whole := P + (before + bs);
    assert whole[at..at + |bs|] == bs;
    assert buf[..|whole|] == whole;
    assert buf[at..at + |bs|] == buf[..|whole|][at..at + |bs|];
  }

  lemma AtomRecovered(P: Bytes, e: Enc, a: Atom, buf: Bytes)
    requires Sound(P, e) && GoodAtom(a) && WriteAtom(e, a).Ran? && P + WriteAtom(e, a).enc.buffer <= buf
    ensures ReadAtom(buf, Offset(e), ShapeOf(a)) == Got(Plainly(a), Offset(WriteAtom(e, a).enc))
  {
    match a
    case Octets(bs) => OctetsStand(P, e.buffer, bs, buf);
    case NameAtom(n, canonical) =>
      EmitReads(P, e, n, canonical);
      var e' := EmitName(e, n, canonical).enc;
      NameRecovered(P + e'.buffer, buf, Offset(e), n, Offset(e'));
  }

  lemma StillPrefix(P: Bytes, a: Bytes, b: Bytes, buf: Bytes)
    requires a <= b && P + b <= buf
    ensures P + a <= buf
  {
    assert P + a <= P + b;
  }

  lemma {:induction false} AtomsRecovered(P: Bytes, e: Enc, atoms: seq<Atom>, buf: Bytes)
    requires Sound(P, e) && (forall i :: 0 <= i < |atoms| ==> GoodAtom(atoms[i])) && WriteAtoms(e, atoms).Ran?
    requires P + WriteAtoms(e, atoms).enc.buffer <= buf
    ensures ReadAtoms(buf, Offset(e), ShapesOf(atoms)) == Got(PlainlyAll(atoms), Offset(WriteAtoms(e, atoms).enc))
    decreases |atoms|
  {
    if atoms != [] {
      var e1 := WriteAtom(e, atoms[0]).enc;
      AtomReads(P, e, atoms[0]);
      AtomsRead(P, e1, atoms[1..]);
      StillPrefix(P, e1.buffer, WriteAtoms(e, atoms).enc.buffer, buf);
      AtomRecovered(P, e, atoms[0], buf);
      AtomsRecovered(P, e1, atoms[1..], buf);
    }
  }

  /** Record data stands behind its length: the first two octets, read high octet first, count the
      octets from there to where the item ends. */
  lemma DataLength(P: Bytes, e: Enc, atoms: seq<Atom>, buf: Bytes)
    requires |P| == e.base && WriteItem(e, Rdata(atoms)).Ran? && P + WriteItem(e, Rdata(atoms)).enc.buffer <= buf
    ensures Offset(e) + 2 <= |buf|
    ensures Offset(e) + 2 + WordAt(buf, Offset(e)) == Offset(WriteItem(e, Rdata(atoms)).enc)
  {
    var sub := WriteAtoms(Enc(Offset(e) + 2, [], map[]), atoms).enc;
    var len := [|sub.buffer| / 256, |sub.buffer| % 256];
    assert P + (e.buffer + (len + sub.buffer)) == P + (e.buffer + len) + sub.buffer;
    OctetsStand(P, e.buffer, len, buf);
    assert buf[Offset(e)] == len[0] && buf[Offset(e) + 1] == len[1] by {
      assert buf[Offset(e)..Offset(e) + 2] == len;
    }
  }

  lemma DataRecovered(P: Bytes, e: Enc, atoms: seq<Atom>, buf: Bytes)
    requires Sound(P, e) && GoodItem(Rdata(atoms)) && WriteItem(e, Rdata(atoms)).Ran?
    requires P + WriteItem(e, Rdata(atoms)).enc.buffer <= buf
    ensures ReadAtoms(buf, Offset(e) + 2, ShapesOf(atoms)) ==
            Got(PlainlyAll(atoms), Offset(WriteItem(e, Rdata(atoms)).enc))
  {
    var start := Enc(Offset(e) + 2, [], map[]);
    var sub := WriteAtoms(start, atoms).enc;
    var len := [|sub.buffer| / 256, |sub.buffer| % 256];
    Spliced(P, e.buffer, len, sub.buffer);
    AtomsRead(P + e.buffer + len, start, atoms);
    AtomsRecovered(P + e.buffer + len, start, atoms, buf);
  }

  lemma Spliced(a: Bytes, b: Bytes, c: Bytes, d: Bytes)
    ensures a + (b + (c + d)) == (a + b + c) + d
  {
  }

  lemma ItemRecovered(P: Bytes, e: Enc, item: Item, buf: Bytes)
    requires Sound(P, e) && GoodItem(item) && WriteItem(e, item).Ran? && P + WriteItem(e, item).enc.buffer <= buf
    ensures ReadItem(buf, Offset(e), ItemShapeOf(item)) == Got(PlainItem(item), Offset(WriteItem(e, item).enc))
  {
    match item
    case Plain(a) => AtomRecovered(P, e, a, buf);
    case Rdata(atoms) =>
      DataLength(P, e, atoms, buf);
      DataRecovered(P, e, atoms, buf);
  }

  lemma {:induction false} ItemsRecovered(P: Bytes, e: Enc, items: seq<Item>, buf: Bytes)
    requires Sound(P, e) && (forall i :: 0 <= i < |items| ==> GoodItem(items[i])) && WriteItems(e, items).Ran?
    requires P + WriteItems(e, items).enc.buffer <= buf
    ensures ReadItems(buf, Offset(e), ItemShapes(items)) == Got(PlainItems(items), Offset(WriteItems(e, items).enc))
    decreases |items|
  {
    if items != [] {
      var e1 := WriteItem(e, items[0]).enc;
      ItemReads(P, e, items[0]);
      MessageReads(P, e1, items[1..]);
      StillPrefix(P, e1.buffer, WriteItems(e, items).enc.buffer, buf);
      ItemRecovered(P, e, items[0], buf);
      ItemsRecovered(P, e1, items[1..], buf);
    }
  }

  /** Message round trip: from an empty buffer, however names, plain octets and record data follow each
      other, a reader that knows the shape of the message gets every item back, and its end. */
  lemma MessageRoundTrip(e: Enc, items: seq<Item>)
    requires Empty(e) && (forall i :: 0 <= i < |items| ==> GoodItem(items[i])) && WriteItems(e, items).Ran?
    ensures var buf := WriteItems(e, items).enc.buffer;
            ReadItems(buf, 0, ItemShapes(items)) == Got(PlainItems(items), |buf|)
  {
    var e' := WriteItems(e, items).enc;
    assert Sound([], e);
    MessageReads([], e, items);
    assert [] + e'.buffer == e'.buffer;
    ItemsRecovered([], e, items, e'.buffer);
  }
}
