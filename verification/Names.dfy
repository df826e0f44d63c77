/** Domain names, their case-insensitive equality and the canonical order of section 6.1 of RFC 4034
    (client/src/rr/domain.rs).  A label is a byte string; lowering is the ASCII one. */
module Names {
  import opened Basics

  type Label = seq<Byte>
  /** Labels from the least significant to the most significant: www, example, com. */
  type Name = seq<Label>

  datatype Ordering = Less | Equal | Greater

  function Flip(o: Ordering): Ordering {
    match o case Less => Greater case Equal => Equal case Greater => Less
  }

  function LowerByte(b: Byte): Byte {
    if 65 <= b <= 90 then b + 32 else b
  }

  function LowerLabel(l: Label): Label {
    seq(|l|, i requires 0 <= i < |l| => LowerByte(l[i]))
  }

  function Lower(n: Name): Name {
    seq(|n|, i requires 0 <= i < |n| => LowerLabel(n[i]))
  }

  /** Name equality ignores case. */
  predicate NameEq(a: Name, b: Name) {
    Lower(a) == Lower(b)
  }

  /** Lowering takes each capital letter to its small one and changes nothing else anywhere. */
  lemma LowersLetters(n: Name, i: nat, j: nat)
    requires i < |n| && j < |n[i]|
    ensures |Lower(n)| == |n| && |Lower(n)[i]| == |n[i]|
    ensures Lower(n)[i][j] == if 'A' as int <= n[i][j] <= 'Z' as int then n[i][j] - 'A' as int + 'a' as int else n[i][j]
  {
    assert Lower(n)[i] == LowerLabel(n[i]);
  }

  lemma LowerIdempotent(n: Name)
    ensures Lower(Lower(n)) == Lower(n)
  {
    forall i | 0 <= i < |n| ensures LowerLabel(LowerLabel(n[i])) == LowerLabel(n[i]) {
      assert forall j :: 0 <= j < |n[i]| ==> LowerByte(LowerByte(n[i][j])) == LowerByte(n[i][j]);
    }
  }

  lemma LowerSuffix(n: Name, k: nat)
    requires k <= |n|
    ensures Lower(n[k..]) == Lower(n)[k..]
  {
  }

  lemma LowerConcat(a: Name, b: Name)
    ensures Lower(a + b) == Lower(a) + Lower(b)
  {
  }

  // ----- The order on byte strings and on names -----

  /** Left-justified unsigned octet order; the absence of an octet sorts first. */
  function CmpBytes(a: seq<Byte>, b: seq<Byte>): Ordering {
    if a == [] then (if b == [] then Equal else Less)
    else if b == [] then Greater
    else if a[0] < b[0] then Less
    else if a[0] > b[0] then Greater
    else CmpBytes(a[1..], b[1..])
  }

  lemma {:induction false} CmpBytesEqual(a: seq<Byte>, b: seq<Byte>)
    ensures CmpBytes(a, b) == Equal <==> a == b
  {
    if a != [] && b != [] {
      CmpBytesEqual(a[1..], b[1..]);
      assert a == [a[0]] + a[1..] && b == [b[0]] + b[1..];
    }
  }

  lemma {:induction false} CmpBytesFlip(a: seq<Byte>, b: seq<Byte>)
    ensures CmpBytes(b, a) == Flip(CmpBytes(a, b))
  {
    if a != [] && b != [] {
      CmpBytesFlip(a[1..], b[1..]);
    }
  }

  lemma {:induction false} CmpBytesTrans(a: seq<Byte>, b: seq<Byte>, c: seq<Byte>)
    requires CmpBytes(a, b) != Greater && CmpBytes(b, c) != Greater
    ensures CmpBytes(a, c) != Greater
    ensures CmpBytes(a, c) == Equal ==> CmpBytes(a, b) == Equal
  {
    if a != [] && b != [] && c != [] {
      if a[0] == b[0] == c[0] {
        CmpBytesTrans(a[1..], b[1..], c[1..]);
      }
    }
  }

  function Last<T>(s: seq<T>): T
    requires s != []
  {
    s[|s| - 1]
  }

  function Init<T>(s: seq<T>): seq<T>
    requires s != []
  {
    s[..|s| - 1]
  }

  /** Canonical order, stated by recursion from the most significant label: a name sorts
      before every name it is a proper suffix of. */
  function CmpNames(a: Name, b: Name): Ordering {
    if a == [] then (if b == [] then Equal else Less)
    else if b == [] then Greater
    else
      var c := CmpBytes(Last(a), Last(b));
      if c != Equal then c else CmpNames(Init(a), Init(b))
  }

  predicate NameLt(a: Name, b: Name) {
    CmpNames(a, b) == Less
  }

  predicate NameLeq(a: Name, b: Name) {
    CmpNames(a, b) != Greater
  }

  lemma {:induction false} CmpNamesEqual(a: Name, b: Name)
    ensures CmpNames(a, b) == Equal <==> a == b
  {
    if a != [] && b != [] {
      CmpBytesEqual(Last(a), Last(b));
      CmpNamesEqual(Init(a), Init(b));
      assert a == Init(a) + [Last(a)] && b == Init(b) + [Last(b)];
    }
  }

  lemma {:induction false} CmpNamesFlip(a: Name, b: Name)
    ensures CmpNames(b, a) == Flip(CmpNames(a, b))
  {
    if a != [] && b != [] {
      CmpBytesFlip(Last(a), Last(b));
      CmpNamesFlip(Init(a), Init(b));
    }
  }

  lemma {:induction false} CmpNamesTrans(a: Name, b: Name, c: Name)
    requires NameLeq(a, b) && NameLeq(b, c)
    ensures NameLeq(a, c)
    ensures CmpNames(a, c) == Equal ==> CmpNames(a, b) == Equal
  {
    if a != [] && b != [] && c != [] {
      CmpBytesTrans(Last(a), Last(b), Last(c));
      CmpBytesEqual(Last(a), Last(b));
      CmpBytesEqual(Last(b), Last(c));
      CmpBytesEqual(Last(a), Last(c));
      if Last(a) == Last(b) == Last(c) {
        CmpNamesTrans(Init(a), Init(b), Init(c));
      }
    }
  }

  /** The canonical order is a total order, in the form later proofs use it. */
  lemma NameOrder(a: Name, b: Name, c: Name)
    ensures !NameLt(a, a)
    ensures NameLt(a, b) || a == b || NameLt(b, a)
    ensures NameLt(a, b) ==> !NameLt(b, a) && a != b
    ensures NameLeq(a, b) <==> NameLt(a, b) || a == b
    ensures NameLt(a, b) && NameLt(b, c) ==> NameLt(a, c)
  {
    CmpNamesEqual(a, a);
    CmpNamesEqual(a, b);
    CmpNamesFlip(a, b);
    if NameLt(a, b) && NameLt(b, c) {
      CmpNamesTrans(a, b, c);
    }
  }

  lemma NameTrans(a: Name, b: Name, c: Name)
    ensures NameLeq(a, b) && NameLeq(b, c) ==> NameLeq(a, c)
    ensures NameLt(a, b) && NameLeq(b, c) ==> NameLt(a, c)
    ensures NameLeq(a, b) && NameLt(b, c) ==> NameLt(a, c)
    ensures NameLt(a, b) ==> NameLeq(a, b) && !NameLeq(b, a)
  {
    NameOrder(a, b, c);
    NameOrder(b, a, c);
    NameOrder(b, c, a);
    NameOrder(a, c, b);
  }

  // ----- The order of section 6.1 of RFC 4034, said without recursion -----

  /** Octet strings that agree up to a place where the first ends or has the lesser octet. */
  ghost predicate OctetsBefore(l: seq<Byte>, m: seq<Byte>) {
    exists j :: 0 <= j <= |l| && j < |m| && l[..j] == m[..j] && (j == |l| || l[j] < m[j])
  }

  /** Names whose last labels agree up to a place where the first ends or has the lesser label. */
  ghost predicate NameBefore(a: Name, b: Name) {
    || (|a| < |b| && b[|b| - |a|..] == a)
    || exists i :: LabelBefore(a, b, i)
  }

  ghost predicate LabelBefore(a: Name, b: Name, i: int) {
    && 0 <= i < |a| && i < |b| && a[|a| - i..] == b[|b| - i..]
    && OctetsBefore(a[|a| - 1 - i], b[|b| - 1 - i])
  }

  lemma OctetsBeforeNext(l: seq<Byte>, m: seq<Byte>)
    requires l != [] && m != [] && l[0] == m[0]
    ensures OctetsBefore(l, m) <==> OctetsBefore(l[1..], m[1..])
  {
    if j :| 0 <= j <= |l| && j < |m| && l[..j] == m[..j] && (j == |l| || l[j] < m[j]) {
      assert l[1..][..j - 1] == l[..j][1..] && m[1..][..j - 1] == m[..j][1..];
    }
    var l', m' := l[1..], m[1..];
    if j :| 0 <= j <= |l'| && j < |m'| && l'[..j] == m'[..j] && (j == |l'| || l'[j] < m'[j]) {
      assert l[..j + 1] == [l[0]] + l'[..j] && m[..j + 1] == [m[0]] + m'[..j];
    }
  }

  lemma {:induction false} BytesExactly(l: seq<Byte>, m: seq<Byte>)
    ensures CmpBytes(l, m) == Less <==> OctetsBefore(l, m)
  {
    if l != [] && m != [] && l[0] == m[0] {
      OctetsBeforeNext(l, m);
      BytesExactly(l[1..], m[1..]);
    } else if m != [] && (l == [] || l[0] < m[0]) {
      assert l[..0] == m[..0];
    } else if l != [] && m != [] {
      forall j | 0 < j <= |l| && j < |m| ensures l[..j] != m[..j] {
        assert l[..j][0] != m[..j][0];
      }
    }
  }

  lemma LabelBeforeNext(a: Name, b: Name, i: int)
    requires a != [] && b != [] && Last(a) == Last(b) && i >= 0
    ensures LabelBefore(a, b, i + 1) <==> LabelBefore(Init(a), Init(b), i)
  {
    if i < |Init(a)| && i < |Init(b)| {
      assert a[|a| - (i + 1)..] == Init(a)[|Init(a)| - i..] + [Last(a)];
      assert b[|b| - (i + 1)..] == Init(b)[|Init(b)| - i..] + [Last(b)];
      assert Init(a[|a| - (i + 1)..]) == Init(a)[|Init(a)| - i..];
      assert Init(b[|b| - (i + 1)..]) == Init(b)[|Init(b)| - i..];
    }
  }

  lemma NameBeforeNext(a: Name, b: Name)
    requires a != [] && b != [] && Last(a) == Last(b)
    ensures NameBefore(a, b) <==> NameBefore(Init(a), Init(b))
  {
    SuffixByLast(a, b);
    OctetsNotBeforeThemselves(Last(a));
    forall i | i >= 0 ensures LabelBefore(a, b, i + 1) <==> LabelBefore(Init(a), Init(b), i) {
      LabelBeforeNext(a, b, i);
    }
    if i :| LabelBefore(a, b, i) {
      assert i != 0;
      assert LabelBefore(Init(a), Init(b), i - 1);
    }
    if i :| LabelBefore(Init(a), Init(b), i) {
      assert LabelBefore(a, b, i + 1);
    }
  }

  lemma OctetsNotBeforeThemselves(l: seq<Byte>)
    ensures !OctetsBefore(l, l)
  {
  }

  lemma NameBeforeByLast(a: Name, b: Name)
    requires a != [] && b != [] && Last(a) != Last(b)
    ensures NameBefore(a, b) <==> OctetsBefore(Last(a), Last(b))
  {
    SuffixByLast(a, b);
    assert LabelBefore(a, b, 0) <==> OctetsBefore(Last(a), Last(b)) by {
      assert a[|a|..] == b[|b|..] == [];
    }
    forall i | 0 < i < |a| && i < |b| ensures !LabelBefore(a, b, i) {
      assert Last(a[|a| - i..]) == Last(a) && Last(b[|b| - i..]) == Last(b);
    }
  }

  /** The comparison by recursion is that order. */
  lemma {:induction false} CanonicalExactly(a: Name, b: Name)
    ensures NameLt(a, b) <==> NameBefore(a, b)
    decreases |a|
  {
    if a == [] {
      assert b != [] ==> b[|b|..] == [];
    } else if b != [] {
      BytesExactly(Last(a), Last(b));
      CmpBytesEqual(Last(a), Last(b));
      if Last(a) == Last(b) {
        NameBeforeNext(a, b);
        CanonicalExactly(Init(a), Init(b));
      } else {
        NameBeforeByLast(a, b);
      }
    }
  }

  function FoldLabel(l: Label, ignoreCase: bool): Label {
    if ignoreCase then LowerLabel(l) else l
  }

  lemma CmpMeans(a: Name, b: Name)
    ensures CmpNames(a, b) == Less <==> NameBefore(a, b)
    ensures CmpNames(a, b) == Equal <==> a == b
    ensures CmpNames(a, b) == Greater <==> NameBefore(b, a)
  {
    CanonicalExactly(a, b);
    CanonicalExactly(b, a);
    CmpNamesEqual(a, b);
    CmpNamesFlip(a, b);
  }

  function FoldName(n: Name, ignoreCase: bool): Name {
    if ignoreCase then Lower(n) else n
  }

  /** Comparing two names with the last labels left off, as many of each. */
  function CmpInner(a: Name, b: Name, i: nat): Ordering
    requires i <= |a| && i <= |b|
  {
    CmpNames(a[..|a| - i], b[..|b| - i])
  }

  /** Nothing left off yet. */
  lemma CmpWhole(a: Name, b: Name)
    ensures CmpInner(a, b, 0) == CmpNames(a, b)
  {
    assert a[..|a|] == a && b[..|b|] == b;
  }

  /** One label of each further. */
  lemma CmpPeel(a: Name, b: Name, i: nat)
    requires i < |a| && i < |b|
    ensures CmpInner(a, b, i) == var c := CmpBytes(a[|a| - 1 - i], b[|b| - 1 - i]);
                                 if c != Equal then c else CmpInner(a, b, i + 1)
  {
    var x, y := a[..|a| - i], b[..|b| - i];
    assert Last(x) == a[|a| - 1 - i] && Last(y) == b[|b| - 1 - i];
    assert Init(x) == a[..|a| - 1 - i] && Init(y) == b[..|b| - 1 - i];
  }

  /** One of the names used up: the shorter one comes first. */
  lemma CmpUsedUp(a: Name, b: Name, i: nat)
    requires i <= |a| && i <= |b| && (i == |a| || i == |b|)
    ensures CmpInner(a, b, i) == if |a| < |b| then Less else if |a| == |b| then Equal else Greater
  {
    assert a[..|a| - i] == [] <==> |a| == i;
    assert b[..|b| - i] == [] <==> |b| == i;
  }

  lemma FoldedAt(n: Name, ignoreCase: bool, i: nat)
    requires i < |n|
    ensures |FoldName(n, ignoreCase)| == |n| && FoldName(n, ignoreCase)[i] == FoldLabel(n[i], ignoreCase)
  {
  }

  /** Comparing the folded names with the last labels left off. */
  ghost function CmpRest(a: Name, b: Name, ignoreCase: bool, i: nat): Ordering
    requires i <= |a| && i <= |b|
  {
    CmpInner(FoldName(a, ignoreCase), FoldName(b, ignoreCase), i)
  }

  lemma CmpStep(a: Name, b: Name, ignoreCase: bool, i: nat)
    requires i < |a| && i < |b|
    ensures CmpRest(a, b, ignoreCase, i) ==
            var c := CmpBytes(FoldLabel(a[|a| - 1 - i], ignoreCase), FoldLabel(b[|b| - 1 - i], ignoreCase));
            if c != Equal then c else CmpRest(a, b, ignoreCase, i + 1)
  {
    FoldedAt(a, ignoreCase, |a| - 1 - i);
    FoldedAt(b, ignoreCase, |b| - 1 - i);
    CmpPeel(FoldName(a, ignoreCase), FoldName(b, ignoreCase), i);
  }

  lemma CmpEnds(a: Name, b: Name, ignoreCase: bool, i: nat)
    requires i <= |a| && i <= |b|
    ensures CmpRest(a, b, ignoreCase, 0) == CmpNames(FoldName(a, ignoreCase), FoldName(b, ignoreCase))
    ensures i == |a| || i == |b| ==>
              CmpRest(a, b, ignoreCase, i) == if |a| < |b| then Less else if |a| == |b| then Equal else Greater
  {
    var x, y := FoldName(a, ignoreCase), FoldName(b, ignoreCase);
    CmpWhole(x, y);
    if i == |a| || i == |b| {
      CmpUsedUp(x, y, i);
    }
  }

  /** cmp_with_case as written: reverse both label lists, compare label by label, then by length. */
  method CmpWithCase(self: Name, other: Name, ignoreCase: bool) returns (o: Ordering)
    ensures o == CmpNames(FoldName(self, ignoreCase), FoldName(other, ignoreCase))
    ensures var a, b := FoldName(self, ignoreCase), FoldName(other, ignoreCase);
            (o == Less <==> NameBefore(a, b)) && (o == Equal <==> a == b) && (o == Greater <==> NameBefore(b, a))
  {
    CmpMeans(FoldName(self, ignoreCase), FoldName(other, ignoreCase));
    CmpEnds(self, other, ignoreCase, 0);
    if self == [] && other == [] {
      return Equal;
    }
    var i := 0;
    while i < |self| && i < |other|
      invariant i <= |self| && i <= |other|
      invariant CmpRest(self, other, ignoreCase, i) == CmpRest(self, other, ignoreCase, 0)
    {
      var c := CmpBytes(FoldLabel(self[|self| - 1 - i], ignoreCase), FoldLabel(other[|other| - 1 - i], ignoreCase));
      CmpStep(self, other, ignoreCase, i);
      if c != Equal {
        return c;
      }
      i := i + 1;
    }
    CmpEnds(self, other, ignoreCase, i);
    o := if |self| < |other| then Less else if |self| == |other| then Equal else Greater;
  }

  /** cmp_with_case ignoring case answers Equal exactly on label-wise lowercase equality, and is
      antisymmetric and transitive: a total order on names up to case. */
  lemma CaseInsensitiveTotalOrder(a: Name, b: Name, c: Name)
    ensures CmpNames(Lower(a), Lower(b)) == Equal <==> NameEq(a, b)
    ensures CmpNames(Lower(b), Lower(a)) == Flip(CmpNames(Lower(a), Lower(b)))
    ensures NameLeq(Lower(a), Lower(b)) && NameLeq(Lower(b), Lower(c)) ==> NameLeq(Lower(a), Lower(c))
  {
    CmpNamesEqual(Lower(a), Lower(b));
    CmpNamesFlip(Lower(a), Lower(b));
    if NameLeq(Lower(a), Lower(b)) && NameLeq(Lower(b), Lower(c)) {
      CmpNamesTrans(Lower(a), Lower(b), Lower(c));
    }
  }

  // ----- Zones as suffixes -----

  predicate IsSuffix(z: Name, n: Name) {
    |z| <= |n| && n[|n| - |z|..] == z
  }

  /** Whether every label of the zone is, up to case, at the end of the name. */
  predicate ZoneOf(zone: Name, name: Name) {
    IsSuffix(Lower(zone), Lower(name))
  }

  lemma SuffixByLast(z: Name, n: Name)
    requires z != [] && n != []
    ensures IsSuffix(z, n) <==> Last(z) == Last(n) && IsSuffix(Init(z), Init(n))
  {
    assert z == Init(z) + [Last(z)] && n == Init(n) + [Last(n)];
    if |z| <= |n| {
      var tail := n[|n| - |z|..];
      assert tail == Init(n)[|n| - |z|..] + [Last(n)];
      assert Init(tail) == Init(n)[|n| - |z|..] && Last(tail) == Last(n);
    }
  }

  /** The suffix test with the last labels left off, as many of each. */
  predicate SuffixInner(z: Name, n: Name, i: nat)
    requires i <= |z| && i <= |n|
  {
    IsSuffix(z[..|z| - i], n[..|n| - i])
  }

  lemma SuffixPeel(z: Name, n: Name, i: nat)
    requires i < |z| && i < |n|
    ensures SuffixInner(z, n, i) <==> z[|z| - 1 - i] == n[|n| - 1 - i] && SuffixInner(z, n, i + 1)
  {
    var x, y := z[..|z| - i], n[..|n| - i];
    SuffixByLast(x, y);
    assert Init(x) == z[..|z| - 1 - i] && Init(y) == n[..|n| - 1 - i];
  }

  lemma SuffixWhole(z: Name, n: Name)
    ensures SuffixInner(z, n, 0) == IsSuffix(z, n)
  {
    assert z[..|z|] == z && n[..|n|] == n;
  }

  lemma SuffixUsedUp(z: Name, n: Name, i: nat)
    requires i <= |z| && i <= |n| && (i == |z| || i == |n|)
    ensures SuffixInner(z, n, i) <==> i == |z|
  {
    var x, y := z[..|z| - i], n[..|n| - i];
    if i == |z| {
      assert x == [] && y[|y|..] == [];
    }
  }

  /** zone_of as written, with release-mode index arithmetic: an index below zero wraps to one
      past every label, and the lookup there finds nothing. */
  method ZoneOfLoop(zone: Name, name: Name) returns (r: bool)
    ensures r == ZoneOf(zone, name)
  {
    r := EndsWith(Lower(zone), Lower(name));
  }

  method EndsWith(z: Name, n: Name) returns (r: bool)
    ensures r == IsSuffix(z, n)
  {
    SuffixWhole(z, n);
    var i := 1;
    while i < |z| + 1
      invariant 1 <= i <= |z| + 1 && i - 1 <= |n|
      invariant SuffixInner(z, n, i - 1) == IsSuffix(z, n)
    {
      if i > |n| {
        SuffixUsedUp(z, n, i - 1);
        return false;
      }
      SuffixPeel(z, n, i - 1);
      if z[|z| - i] != n[|n| - i] {
        return false;
      }
      i := i + 1;
    }
    SuffixUsedUp(z, n, i - 1);
    return true;
  }

  /** Comparing with a name is, past a shared suffix, comparing what stands before it. */
  lemma {:induction false} CmpAfterSuffix(a: Name, b: Name, z: Name)
    ensures CmpNames(a + z, b + z) == CmpNames(a, b)
  {
    if z == [] {
      assert a + z == a && b + z == b;
    } else {
      CmpBytesEqual(Last(z), Last(z));
      assert Init(a + z) == a + Init(z) && Init(b + z) == b + Init(z);
      assert Last(a + z) == Last(z) && Last(b + z) == Last(z);
      CmpAfterSuffix(a, b, Init(z));
    }
  }

  /** A zone comes at or before every name in it. */
  lemma ZoneLeqMembers(z: Name, n: Name)
    requires IsSuffix(z, n)
    ensures NameLeq(z, n)
  {
    var p := n[..|n| - |z|];
    assert n == p + z && z == [] + z;
    CmpAfterSuffix([], p, z);
  }

  /** A name strictly between two members of a zone is a member of it. */
  lemma {:induction false} ZoneContiguous(z: Name, a: Name, b: Name, c: Name)
    requires IsSuffix(z, a) && IsSuffix(z, c)
    requires NameLeq(a, b) && NameLeq(b, c)
    ensures IsSuffix(z, b)
  {
    if z != [] {
      assert Last(a) == a[|a| - |z|..][|z| - 1] == Last(z);
      assert Last(c) == c[|c| - |z|..][|z| - 1] == Last(z);
      CmpBytesEqual(Last(a), Last(b));
      CmpBytesEqual(Last(b), Last(c));
      CmpBytesFlip(Last(a), Last(b));
      assert Last(b) == Last(z);
      assert Init(a)[|Init(a)| - |Init(z)|..] == Init(z) by {
        assert Init(a)[|Init(a)| - |Init(z)|..] == Init(a[|a| - |z|..]);
      }
      assert Init(c)[|Init(c)| - |Init(z)|..] == Init(z) by {
        assert Init(c)[|Init(c)| - |Init(z)|..] == Init(c[|c| - |z|..]);
      }
      ZoneContiguous(Init(z), Init(a), Init(b), Init(c));
      assert b[|b| - |z|..] == Init(b)[|Init(b)| - |Init(z)|..] + [Last(b)];
      assert z == Init(z) + [Last(z)];
    }
  }

  // ----- Trimming and counting labels -----

  /** The rightmost labels of a name, or the root when it has fewer. */
  function TrimTo(n: Name, numLabels: nat): (r: Name)
    ensures numLabels <= |n| ==> IsSuffix(r, n) && |r| == numLabels
    ensures numLabels > |n| ==> r == []
  {
    if |n| >= numLabels then n[|n| - numLabels..] else []
  }

  function BaseName(n: Name): (r: Name)
    ensures n != [] ==> r == n[1..]
    ensures n == [] ==> r == []
  {
    if |n| > 0 then TrimTo(n, |n| - 1) else []
  }

  const STAR: Label := [42]

  /** Number of labels, a leading asterisk not counted; the source keeps it in an unsigned byte. */
  function NumLabels(n: Name): (r: Byte)
    ensures |n| < 256 ==> r == if n != [] && n[0] == STAR then |n| - 1 else |n|
  {
    var num := |n| % 256;
    if num > 0 && n[0] == STAR then num - 1 else num
  }
}
