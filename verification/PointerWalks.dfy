/** When Name::read of client/src/rr/domain.rs answers at all: it follows compression pointers one
    inside the other with no bound of its own. */
module PointerWalks {
  import opened Basics
  import opened NameCodec

  const TARGETS: nat := 0x4000

  /** Where the run of labels at an index ends: at the root, a pointer, or what cannot be read. */
  function Stop(buf: Bytes, at: nat): nat
    decreases |buf| - at
  {
    if at < |buf| && 0 < buf[at] < 64 && at + 1 + buf[at] <= |buf| then Stop(buf, at + 1 + buf[at]) else at
  }

  /** The target of the pointer that ends the run of labels at an index, if one does. */
  function Next(buf: Bytes, at: nat): Option<nat> {
    var stop := Stop(buf, at);
    if stop + 1 < |buf| && buf[stop] >= 192 then Some(PointerAt(buf, stop)) else None
  }

  /** The targets of the pointers met one after the other. */
  ghost predicate IsWalk(buf: Bytes, at: nat, walk: seq<nat>)
    decreases |walk|
  {
    walk != [] ==> Next(buf, at) == Some(walk[0]) && IsWalk(buf, walk[0], walk[1..])
  }

  ghost predicate Revisits(walk: seq<nat>) {
    exists i, j :: 0 <= i < j < |walk| && walk[i] == walk[j]
  }

  /** The walk of a given length, as far as it goes. */
  ghost function Walk(buf: Bytes, at: nat, n: nat): seq<nat>
    decreases n
  {
    if n == 0 || Next(buf, at).None? then [] else [Next(buf, at).value] + Walk(buf, Next(buf, at).value, n - 1)
  }

  lemma NextInRange(buf: Bytes, at: nat)
    ensures Next(buf, at).Some? ==> Next(buf, at).value < TARGETS
  {
  }

  lemma {:induction false} WalkIsWalk(buf: Bytes, at: nat, n: nat)
    ensures IsWalk(buf, at, Walk(buf, at, n)) && |Walk(buf, at, n)| <= n
    ensures forall i :: 0 <= i < |Walk(buf, at, n)| ==> Walk(buf, at, n)[i] < TARGETS
    decreases n
  {
    if n > 0 && Next(buf, at).Some? {
      var t := Next(buf, at).value;
      NextInRange(buf, at);
      WalkIsWalk(buf, t, n - 1);
      assert Walk(buf, at, n)[1..] == Walk(buf, t, n - 1);
    }
  }

  /** There is one walk of each length, at most. */
  lemma {:induction false} WalkUnique(buf: Bytes, at: nat, w: seq<nat>, n: nat)
    requires IsWalk(buf, at, w) && |w| <= n
    ensures w <= Walk(buf, at, n)
    decreases n
  {
    if w != [] {
      WalkUnique(buf, w[0], w[1..], n - 1);
      assert w == [w[0]] + w[1..];
    }
  }

  /** Reading with so many pointers allowed gives no answer exactly when one more than that follow. */
  lemma {:induction false} EndlessWithin(buf: Bytes, at: nat, hops: nat)
    ensures ReadName(buf, at, hops).Endless? <==> |Walk(buf, at, hops + 1)| == hops + 1
    decreases hops, |buf| - at
  {
    if at < |buf| && 0 < buf[at] < 64 && at + 1 + buf[at] <= |buf| {
      var next := at + 1 + buf[at];
      EndlessWithin(buf, next, hops);
      assert Next(buf, at) == Next(buf, next);
      assert Walk(buf, at, hops + 1) == Walk(buf, next, hops + 1);
    } else if at + 1 < |buf| && buf[at] >= 192 {
      var t := PointerAt(buf, at);
      assert Next(buf, at) == Some(t);
      if hops > 0 {
        EndlessWithin(buf, t, hops - 1);
      }
    }
  }

  // ----- A walk that revisits a place goes on for ever -----

  lemma {:induction false} WalkFrom(buf: Bytes, at: nat, n: nat, i: nat)
    requires i < |Walk(buf, at, n)| && i < n
    ensures Walk(buf, at, n)[i + 1..] == Walk(buf, Walk(buf, at, n)[i], n - i - 1)
    decreases i
  {
    var t := Next(buf, at).value;
    assert Walk(buf, at, n)[1..] == Walk(buf, t, n - 1);
    if i > 0 {
      WalkFrom(buf, t, n - 1, i - 1);
    }
  }

  /** Where the walk stands after so many pointers. */
  ghost predicate Reaches(buf: Bytes, at: nat, n: nat) {
    |Walk(buf, at, n)| == n
  }

  lemma {:induction false} WalkShorter(buf: Bytes, at: nat, n: nat, m: nat)
    requires m <= n
    ensures Walk(buf, at, m) <= Walk(buf, at, n) && (Reaches(buf, at, n) ==> Reaches(buf, at, m))
    decreases m
  {
    if m > 0 && Next(buf, at).Some? {
      WalkShorter(buf, Next(buf, at).value, n - 1, m - 1);
    }
  }

  /** The walk reaches n pointers exactly when what is left after the first i does. */
  lemma ReachesFrom(buf: Bytes, at: nat, i: nat, n: nat)
    requires i < n && Reaches(buf, at, i + 1)
    ensures Reaches(buf, at, n) <==> Reaches(buf, Walk(buf, at, i + 1)[i], n - i - 1)
  {
    WalkShorter(buf, at, n, i + 1);
    WalkFrom(buf, at, n, i);
  }

  lemma {:induction false} CycleGoesOn(buf: Bytes, at: nat, i: nat, j: nat, n: nat)
    requires i < j && Reaches(buf, at, j + 1) && Walk(buf, at, j + 1)[i] == Walk(buf, at, j + 1)[j]
    ensures Reaches(buf, at, n)
    decreases n
  {
    if n <= j + 1 {
      WalkShorter(buf, at, j + 1, n);
    } else {
      WalkShorter(buf, at, j + 1, i + 1);
      CycleGoesOn(buf, at, i, j, n - (j - i));
      ReachesFrom(buf, at, j, n);
      ReachesFrom(buf, at, i, n - (j - i));
    }
  }

  // ----- A walk longer than there are targets revisits one -----

  lemma {:induction false} Pigeonhole(w: seq<nat>, bound: nat)
    requires |w| > bound && forall i :: 0 <= i < |w| ==> w[i] < bound
    ensures Revisits(w)
    decreases bound, 1
  {
    var first := w[0];
    if bound == 0 {
    } else if exists i :: 0 <= i < |w| && w[i] == bound - 1 {
      var i :| 0 <= i < |w| && w[i] == bound - 1;
      if exists j :: i < j < |w| && w[j] == bound - 1 {
        var j :| i < j < |w| && w[j] == bound - 1;
      } else if exists j :: 0 <= j < i && w[j] == bound - 1 {
        var j :| 0 <= j < i && w[j] == bound - 1;
      } else {
        WithoutOne(w, bound, i);
      }
    } else {
      Pigeonhole(w, bound - 1);
    }
  }

  lemma {:induction false} WithoutOne(w: seq<nat>, bound: nat, i: nat)
    requires 0 < bound < |w| && i < |w|
    requires forall j :: 0 <= j < |w| && j != i ==> w[j] < bound - 1
    ensures Revisits(w)
    decreases bound, 0
  {
    var cut := w[..i] + w[i + 1..];
    Pigeonhole(cut, bound - 1);
    var a, b :| 0 <= a < b < |cut| && cut[a] == cut[b];
    var a', b' := if a < i then a else a + 1, if b < i then b else b + 1;
    assert w[a'] == w[b'];
  }

  ghost predicate NeverAnswers(buf: Bytes, at: nat) {
    forall hops: nat :: ReadName(buf, at, hops).Endless?
  }

  /** Reading a name never answers, however many pointers it may follow, exactly when the walk of its
      pointers revisits a place. */
  lemma EndlessExactly(buf: Bytes, at: nat)
    ensures NeverAnswers(buf, at) <==> exists w: seq<nat> :: IsWalk(buf, at, w) && Revisits(w)
  {
    var n := TARGETS;
    if NeverAnswers(buf, at) {
      assert ReadName(buf, at, n).Endless?;
      LongWalkRevisits(buf, at, n);
    }
    if w: seq<nat> :| IsWalk(buf, at, w) && Revisits(w) {
      forall hops: nat ensures ReadName(buf, at, hops).Endless? {
        RevisitIsEndless(buf, at, w, hops);
      }
    }
  }

  /** So 0x4000 pointers are enough: what they do not answer, no number of pointers does. */
  lemma EnoughPointers(buf: Bytes, at: nat, enough: nat, hops: nat)
    requires enough >= TARGETS && ReadName(buf, at, enough).Endless?
    ensures ReadName(buf, at, hops).Endless?
  {
    LongWalkRevisits(buf, at, enough);
    var w: seq<nat> :| IsWalk(buf, at, w) && Revisits(w);
    RevisitIsEndless(buf, at, w, hops);
  }

  lemma LongWalkRevisits(buf: Bytes, at: nat, hops: nat)
    requires hops >= TARGETS && ReadName(buf, at, hops).Endless?
    ensures exists w: seq<nat> :: IsWalk(buf, at, w) && Revisits(w)
  {
    var w := Walk(buf, at, hops + 1);
    EndlessWithin(buf, at, hops);
    WalkIsWalk(buf, at, hops + 1);
    Pigeonhole(w, TARGETS);
  }

  lemma RevisitIsEndless(buf: Bytes, at: nat, w: seq<nat>, hops: nat)
    requires IsWalk(buf, at, w) && Revisits(w)
    ensures ReadName(buf, at, hops).Endless?
  {
    var i, j :| 0 <= i < j < |w| && w[i] == w[j];
    WalkUnique(buf, at, w, |w|);
    WalkIsWalk(buf, at, |w|);
    WalkShorter(buf, at, |w|, j + 1);
    CycleGoesOn(buf, at, i, j, hops + 1);
    EndlessWithin(buf, at, hops);
  }

  /** A pointer to itself, wherever it stands and whatever labels come before it. */
  lemma SelfPointerIsEndless(buf: Bytes, at: nat, hops: nat)
    requires Next(buf, at) == Some(at)
    ensures ReadName(buf, at, hops).Endless?
  {
    var w := [at, at];
    assert w[1..] == [at] && w[1..][1..] == [];
    assert IsWalk(buf, at, w[1..]);
    assert w[0] == w[1];
    RevisitIsEndless(buf, at, w, hops);
  }
}
