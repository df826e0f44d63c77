/** The client's request multiplexer (ClientFuture, client/src/client/client_future.rs): requests
    wait in a channel, are sent under a random id that no request in flight has, and are resolved
    by a reply with that id, by an error or by a timeout.  Requests are numbered as submitted. */
module Multiplexer {
  import opened Basics

  datatype Reply = Reply(id: U16, body: Bytes)

  datatype Outcome =
    | Answer(reply: Reply)
    | Timeout
    | Refused     // could not be signed, timed or encoded
    | Canceled    // its completer was dropped by a failed send

  /** What happens to a request once it has an id. */
  datatype Fate = SignError | TimerError | EncodeError | SendError | Sent

  datatype Inbound = Undecodable | Decoded(reply: Reply)

  datatype StreamEnd = Blocked | Exhausted | IoError

  /** What one poll meets: the requests in flight that were cancelled or ran out of time, the random
      draws for and the fate of each request, and what the stream has to offer before it ends. */
  datatype Env = Env(cancelled: set<U16>, timedOut: set<U16>, draws: nat -> seq<U16>, fate: nat -> Fate,
                     inbound: seq<Inbound>, end: StreamEnd)

  datatype Status = Running | Finished | Failed

  const MAX_DRAWS: nat := 100
  const MAX_RECEIVE: nat := 100

  datatype Mux = Mux(submitted: nat, queue: seq<nat>, closed: bool, active: map<U16, nat>,
                     resolved: map<nat, Outcome>, ids: map<nat, U16>)

  const FRESH := Mux(0, [], false, map[], map[], map[])

  // ----- The steps of a poll -----

  /** The requests in flight under some ids. */
  function Holders(m: Mux, ids: set<U16>): set<nat> {
    set id | id in m.active && id in ids :: m.active[id]
  }

  function WithTimeouts(resolved: map<nat, Outcome>, rs: set<nat>): map<nat, Outcome> {
    resolved + map r | r in rs :: Timeout
  }

  /** Requests in flight whose id is gone fail with a timeout. */
  function Dropped(m: Mux, gone: set<U16>): Mux {
    m.(active := m.active - gone, resolved := WithTimeouts(m.resolved, Holders(m, gone)))
  }

  /** The first draw that no request in flight has, among the first `tries`. */
  function PickId(active: map<U16, nat>, draws: seq<U16>, tries: nat): Option<U16>
    decreases tries, |draws|
  {
    if tries == 0 || draws == [] then None
    else if draws[0] !in active then Some(draws[0])
    else PickId(active, draws[1..], tries - 1)
  }

  /** The oldest waiting request meets its fate under an id. */
  function Launch(m: Mux, id: U16, fate: Fate): Mux
    requires m.queue != []
  {
    var r := m.queue[0];
    var rest := m.(queue := m.queue[1..]);
    match fate
    case Sent => rest.(active := m.active[id := r], ids := m.ids[r := id])
    case SendError => rest.(resolved := m.resolved[r := Canceled])
    case _ => rest.(resolved := m.resolved[r := Refused])
  }

  datatype Drained = Drained(mux: Mux, status: DrainStatus)
  datatype DrainStatus = Emptied | Delayed | SendFailed

  /** Send what waits, until the channel is empty, no id can be found or a send fails. */
  function Drain(m: Mux, env: Env): Drained
    decreases |m.queue|
  {
    if m.queue == [] then Drained(m, Emptied)
    else match PickId(m.active, env.draws(m.queue[0]), MAX_DRAWS)
      case None => Drained(m, Delayed)
      case Some(id) =>
        var next := Launch(m, id, env.fate(m.queue[0]));
        if env.fate(m.queue[0]) == SendError then Drained(next, SendFailed) else Drain(next, env)
  }

  /** A reply resolves the request in flight under its id, if there is one. */
  function Accept(m: Mux, i: Inbound): Mux {
    if i.Undecodable? || i.reply.id !in m.active then m
    else m.(active := m.active - {i.reply.id},
            resolved := m.resolved[m.active[i.reply.id] := Answer(i.reply)])
  }

  function AcceptAll(m: Mux, inbound: seq<Inbound>): Mux
    decreases |inbound|
  {
    if inbound == [] then m else AcceptAll(Accept(m, inbound[0]), inbound[1..])
  }

  function Capped(inbound: seq<Inbound>): seq<Inbound> {
    if |inbound| <= MAX_RECEIVE then inbound else inbound[..MAX_RECEIVE]
  }

  datatype Polled = Polled(mux: Mux, status: Status)

  function PollSpec(m: Mux, env: Env): Polled {
    var d := Drain(Dropped(m, env.cancelled + env.timedOut), env);
    if d.status == SendFailed then Polled(d.mux, Failed)
    else
      var m' := AcceptAll(d.mux, Capped(env.inbound));
      Polled(m',
             if |env.inbound| < MAX_RECEIVE && env.end == IoError then Failed
             else if m'.active == map[] && m'.closed && m'.queue == [] then Finished
             else Running)
  }

  // ----- Conservation -----

  /** A request in flight: it was given an id and holds it. */
  ghost predicate InFlight(m: Mux, r: nat) {
    r in m.ids && m.ids[r] in m.active && m.active[m.ids[r]] == r
  }

  ghost function Taken(m: Mux): int {
    m.submitted - |m.queue|
  }

  /** The channel holds the latest requests in order; every earlier one is in flight under its own
      id or resolved, and not both; a reply that resolved one carries its id. */
  ghost predicate Conserved(m: Mux) {
    && 0 <= Taken(m)
    && (forall i :: 0 <= i < |m.queue| ==> m.queue[i] == Taken(m) + i)
    && (forall id :: id in m.active ==> id < 0xFFFF && m.active[id] in m.ids && m.ids[m.active[id]] == id)
    && (forall r :: r in m.ids ==> r < Taken(m))
    && (forall r :: r in m.resolved ==> r < Taken(m) && !InFlight(m, r) && Matches(m, r, m.resolved[r]))
    && (forall r: nat :: r < Taken(m) ==> r in m.resolved || InFlight(m, r))
  }

  ghost predicate Matches(m: Mux, r: nat, o: Outcome) {
    o.Answer? ==> r in m.ids && m.ids[r] == o.reply.id
  }

  /** Draws come from 0 to 65534. */
  ghost predicate FairDraws(env: Env) {
    forall r, i :: 0 <= i < |env.draws(r)| ==> env.draws(r)[i] < 0xFFFF
  }

  /** What was resolved stays so. */
  ghost predicate Extends(m: Mux, m': Mux) {
    && (forall r :: r in m.resolved ==> r in m'.resolved && m'.resolved[r] == m.resolved[r])
    && m'.submitted == m.submitted && m'.closed == m.closed
  }

  lemma DropConserves(m: Mux, gone: set<U16>)
    requires Conserved(m)
    ensures Conserved(Dropped(m, gone)) && Extends(m, Dropped(m, gone))
  {
    var m' := Dropped(m, gone);
    forall r: nat | r < Taken(m') ensures r in m'.resolved || InFlight(m', r) {
      if InFlight(m, r) && m.ids[r] in gone {
        assert r in Holders(m, gone);
      }
    }
    forall r | r in m'.resolved
      ensures r < Taken(m') && !InFlight(m', r) && Matches(m', r, m'.resolved[r])
    {
      if r in Holders(m, gone) {
        var id :| id in m.active && id in gone && m.active[id] == r;
      }
    }
  }

  lemma {:induction false} PickFree(active: map<U16, nat>, draws: seq<U16>, tries: nat)
    ensures PickId(active, draws, tries).Some? ==>
              exists i :: FirstFree(active, draws, tries, i) && PickId(active, draws, tries).value == draws[i]
    ensures PickId(active, draws, tries).None? <==>
              forall i :: 0 <= i < |draws| && i < tries ==> draws[i] in active
    decreases |draws|
  {
    if tries > 0 && draws != [] {
      if draws[0] in active {
        PickFree(active, draws[1..], tries - 1);
        assert draws == [draws[0]] + draws[1..];
        if i :| FirstFree(active, draws[1..], tries - 1, i) && PickId(active, draws, tries) == Some(draws[1..][i]) {
          assert FirstFree(active, draws, tries, i + 1);
        }
      } else {
        assert FirstFree(active, draws, tries, 0);
      }
    }
  }

  /** The first of so many draws that no request in flight has. */
  ghost predicate FirstFree(active: map<U16, nat>, draws: seq<U16>, tries: nat, i: int) {
    0 <= i < |draws| && i < tries && draws[i] !in active && forall j :: 0 <= j < i ==> draws[j] in active
  }

  lemma LaunchConserves(m: Mux, id: U16, fate: Fate)
    requires Conserved(m) && m.queue != [] && id !in m.active && id < 0xFFFF
    ensures Conserved(Launch(m, id, fate)) && Extends(m, Launch(m, id, fate))
  {
    var m' := Launch(m, id, fate);
    var r0 := m.queue[0];
    assert r0 == Taken(m) && Taken(m') == Taken(m) + 1;
    forall r: nat | r < Taken(m') ensures r in m'.resolved || InFlight(m', r) {
      if r != r0 && InFlight(m, r) {
        assert m'.ids[r] == m.ids[r];
      }
    }
  }

  lemma AcceptConserves(m: Mux, i: Inbound)
    requires Conserved(m)
    ensures Conserved(Accept(m, i)) && Extends(m, Accept(m, i))
  {
    var m' := Accept(m, i);
    if i.Decoded? && i.reply.id in m.active {
      var r0 := m.active[i.reply.id];
      assert InFlight(m, r0);
      forall r: nat | r < Taken(m') ensures r in m'.resolved || InFlight(m', r) {
        assert r in m.resolved || InFlight(m, r);
      }
    }
  }

  lemma {:induction false} AcceptAllConserves(m: Mux, inbound: seq<Inbound>)
    requires Conserved(m)
    ensures Conserved(AcceptAll(m, inbound)) && Extends(m, AcceptAll(m, inbound))
    ensures AcceptAll(m, inbound).queue == m.queue
    decreases |inbound|
  {
    if inbound != [] {
      AcceptConserves(m, inbound[0]);
      AcceptAllConserves(Accept(m, inbound[0]), inbound[1..]);
    }
  }

  lemma {:induction false} DrainConserves(m: Mux, env: Env)
    requires Conserved(m) && FairDraws(env)
    ensures Conserved(Drain(m, env).mux) && Extends(m, Drain(m, env).mux)
    ensures Drain(m, env).status == Emptied ==> Drain(m, env).mux.queue == []
    decreases |m.queue|
  {
    if m.queue != [] {
      var r := m.queue[0];
      var pick := PickId(m.active, env.draws(r), MAX_DRAWS);
      PickFree(m.active, env.draws(r), MAX_DRAWS);
      if pick.Some? {
        LaunchConserves(m, pick.value, env.fate(r));
        if env.fate(r) != SendError {
          DrainConserves(Launch(m, pick.value, env.fate(r)), env);
        }
      }
    }
  }

  /** One poll: no request is lost or doubled, none is resolved again, and the future finishes
      exactly when the channel is closed and empty and nothing is in flight. */
  lemma PollConserves(m: Mux, env: Env)
    requires Conserved(m) && FairDraws(env)
    ensures var p := PollSpec(m, env);
            && Conserved(p.mux) && Extends(m, p.mux)
            && (p.status == Finished ==> p.mux.closed && p.mux.queue == [] && p.mux.active == map[])
            && (p.status == Running ==> !(p.mux.closed && p.mux.queue == [] && p.mux.active == map[]))
  {
    var m1 := Dropped(m, env.cancelled + env.timedOut);
    DropConserves(m, env.cancelled + env.timedOut);
    DrainConserves(m1, env);
    AcceptAllConserves(Drain(m1, env).mux, Capped(env.inbound));
  }

  // ----- Whole runs -----

  datatype Event = Submit | Close | Poll(env: Env)

  /** A request joins the channel unless it is closed; a future that has ended is polled no more. */
  function Step(p: Polled, e: Event): Polled {
    match e
    case Submit =>
      if p.mux.closed then p
      else p.(mux := p.mux.(submitted := p.mux.submitted + 1, queue := p.mux.queue + [p.mux.submitted]))
    case Close => p.(mux := p.mux.(closed := true))
    case Poll(env) => if p.status == Running then PollSpec(p.mux, env) else p
  }

  function Run(p: Polled, es: seq<Event>): Polled
    decreases |es|
  {
    if es == [] then p else Run(Step(p, es[0]), es[1..])
  }

  ghost predicate FairRun(es: seq<Event>) {
    forall i :: 0 <= i < |es| ==> es[i].Poll? ==> FairDraws(es[i].env)
  }

  ghost predicate Settled(p: Polled) {
    p.status == Finished ==> p.mux.closed && p.mux.queue == [] && p.mux.active == map[]
  }

  ghost predicate Resolutions(m: Mux, m': Mux) {
    forall r :: r in m.resolved ==> r in m'.resolved && m'.resolved[r] == m.resolved[r]
  }

  lemma StepConserves(p: Polled, e: Event)
    requires Conserved(p.mux) && Settled(p) && (e.Poll? ==> FairDraws(e.env))
    ensures Conserved(Step(p, e).mux) && Settled(Step(p, e)) && Resolutions(p.mux, Step(p, e).mux)
  {
    match e
    case Poll(env) => PollConserves(p.mux, env);
    case Close => assert Conserved(p.mux.(closed := true));
    case Submit =>
      if !p.mux.closed {
        SubmitConserves(p.mux, Step(p, e).mux);
      }
  }

  lemma SubmitConserves(m: Mux, m': Mux)
    requires Conserved(m) && m' == m.(submitted := m.submitted + 1, queue := m.queue + [m.submitted])
    ensures Conserved(m')
  {
    assert Taken(m') == Taken(m);
    forall r: nat | r < Taken(m') ensures r in m'.resolved || InFlight(m', r) {
      assert r in m.resolved || InFlight(m, r);
    }
  }

  /** Over every run of submissions, polls and a close: requests are conserved, what is resolved
      stays resolved as it was, and once the future has finished every request is resolved. */
  lemma {:induction false} RunConserves(p: Polled, es: seq<Event>)
    requires Conserved(p.mux) && Settled(p) && FairRun(es)
    ensures Conserved(Run(p, es).mux) && Settled(Run(p, es)) && Resolutions(p.mux, Run(p, es).mux)
    ensures Run(p, es).status == Finished ==>
              forall r: nat :: r < Run(p, es).mux.submitted ==> r in Run(p, es).mux.resolved
    decreases |es|
  {
    if es != [] {
      assert es[0].Poll? ==> FairDraws(es[0].env);
      StepConserves(p, es[0]);
      assert FairRun(es[1..]) by {
        forall i | 0 <= i < |es[1..]| ensures es[1..][i].Poll? ==> FairDraws(es[1..][i].env) {
          assert es[1..][i] == es[i + 1];
        }
      }
      RunConserves(Step(p, es[0]), es[1..]);
    }
  }

  /** A new client meets the conditions, so in every state of every run each submitted request is
      in exactly one place: waiting, in flight under one id, or resolved. */
  lemma ExactlyOnePlace(es: seq<Event>, r: nat)
    requires FairRun(es) && r < Run(Polled(FRESH, Running), es).mux.submitted
    ensures var m := Run(Polled(FRESH, Running), es).mux;
            var waits, flies, over := r in m.queue, (exists id :: id in m.active && m.active[id] == r), r in m.resolved;
            && (waits || flies || over) && !(waits && flies) && !(waits && over) && !(flies && over)
    ensures var m := Run(Polled(FRESH, Running), es).mux;
            forall i, j :: 0 <= i < j < |m.queue| ==> m.queue[i] != m.queue[j]
    ensures var m := Run(Polled(FRESH, Running), es).mux;
            forall i, j :: i in m.active && j in m.active && m.active[i] == m.active[j] ==> i == j
  {
    RunConserves(Polled(FRESH, Running), es);
    OnePlace(Run(Polled(FRESH, Running), es).mux, r);
  }

  lemma OnePlace(m: Mux, r: nat)
    requires Conserved(m) && r < m.submitted
    ensures r in m.queue <==> r >= Taken(m)
    ensures (exists id :: id in m.active && m.active[id] == r) <==> InFlight(m, r)
    ensures r in m.queue || InFlight(m, r) || r in m.resolved
    ensures !(r in m.queue && InFlight(m, r)) && !(r in m.queue && r in m.resolved)
            && !(InFlight(m, r) && r in m.resolved)
  {
    if r >= Taken(m) {
      assert m.queue[r - Taken(m)] == r;
    }
  }

  // ----- Which reply answers a request -----

  /** The first reply with an id. */
  function FirstReply(inbound: seq<Inbound>, id: U16): Option<Reply>
    decreases |inbound|
  {
    if inbound == [] then None
    else if inbound[0].Decoded? && inbound[0].reply.id == id then Some(inbound[0].reply)
    else FirstReply(inbound[1..], id)
  }

  /** Of the replies received, the first with a request's id answers it; later ones with that id,
      and replies with other ids, do not touch it. */
  lemma {:induction false} FirstReplyAnswers(m: Mux, inbound: seq<Inbound>, r: nat)
    requires Conserved(m) && InFlight(m, r)
    ensures match FirstReply(inbound, m.ids[r])
            case None => InFlight(AcceptAll(m, inbound), r)
            case Some(reply) =>
              r in AcceptAll(m, inbound).resolved && AcceptAll(m, inbound).resolved[r] == Answer(reply)
    decreases |inbound|
  {
    if inbound != [] {
      AcceptConserves(m, inbound[0]);
      var m' := Accept(m, inbound[0]);
      if inbound[0].Decoded? && inbound[0].reply.id == m.ids[r] {
        AcceptAllConserves(m', inbound[1..]);
      } else {
        FirstReplyAnswers(m', inbound[1..], r);
      }
    }
  }

  // ----- What one poll does to each request -----

  lemma DropDecides(m: Mux, gone: set<U16>, r: nat)
    requires Conserved(m) && InFlight(m, r)
    ensures if m.ids[r] in gone then r in Dropped(m, gone).resolved && Dropped(m, gone).resolved[r] == Timeout
            else InFlight(Dropped(m, gone), r)
    ensures Dropped(m, gone).ids == m.ids
  {
    if m.ids[r] in gone {
      assert r in Holders(m, gone);
    }
  }

  lemma {:induction false} DrainKeepsFlight(m: Mux, env: Env, r: nat)
    requires Conserved(m) && FairDraws(env) && InFlight(m, r)
    ensures InFlight(Drain(m, env).mux, r) && Drain(m, env).mux.ids[r] == m.ids[r]
    decreases |m.queue|
  {
    if m.queue != [] {
      var r0 := m.queue[0];
      var pick := PickId(m.active, env.draws(r0), MAX_DRAWS);
      PickFree(m.active, env.draws(r0), MAX_DRAWS);
      if pick.Some? {
        LaunchConserves(m, pick.value, env.fate(r0));
        assert r != r0;
        if env.fate(r0) != SendError {
          DrainKeepsFlight(Launch(m, pick.value, env.fate(r0)), env, r);
        }
      }
    }
  }

  /** What a request that was taken from the channel has come to. */
  ghost predicate Decided(m: Mux, env: Env, r: nat) {
    match env.fate(r)
    case Sent => InFlight(m, r) && m.ids[r] in env.draws(r)
    case SendError => r in m.resolved && m.resolved[r] == Canceled
    case _ => r in m.resolved && m.resolved[r] == Refused
  }

  lemma LaunchDecides(m: Mux, env: Env, id: U16)
    requires Conserved(m) && m.queue != [] && id !in m.active && id < 0xFFFF && id in env.draws(m.queue[0])
    ensures Decided(Launch(m, id, env.fate(m.queue[0])), env, m.queue[0])
  {
  }

  lemma {:induction false} DrainKeepsDecided(m: Mux, env: Env, r: nat)
    requires Conserved(m) && FairDraws(env) && Decided(m, env, r)
    ensures Decided(Drain(m, env).mux, env, r)
  {
    if env.fate(r) == Sent {
      DrainKeepsFlight(m, env, r);
    } else {
      DrainConserves(m, env);
    }
  }

  /** How many requests a drain takes from the channel, and why it stops there. */
  ghost predicate StopsAfter(queue: seq<nat>, d: Drained, env: Env, n: nat) {
    && n <= |queue| && d.mux.queue == queue[n..]
    && (forall i :: 0 <= i < n ==> Decided(d.mux, env, queue[i]))
    && (forall i :: 0 <= i < n && (i < n - 1 || d.status != SendFailed) ==> env.fate(queue[i]) != SendError)
    && match d.status
       case Emptied => n == |queue|
       case SendFailed => n > 0 && env.fate(queue[n - 1]) == SendError
       case Delayed => n < |queue| && PickId(d.mux.active, env.draws(queue[n]), MAX_DRAWS).None?
  }

  lemma StopsOneLater(queue: seq<nat>, d: Drained, env: Env, n: nat)
    requires queue != [] && StopsAfter(queue[1..], d, env, n) && Decided(d.mux, env, queue[0])
    requires env.fate(queue[0]) != SendError
    ensures StopsAfter(queue, d, env, n + 1)
  {
    assert queue[1..][n..] == queue[n + 1..];
    forall i | 0 < i < |queue| ensures queue[i] == queue[1..][i - 1] {
    }
  }

  /** Requests are taken from the channel in order until it is empty, one finds none of its first hundred
      draws free, or a send fails; each one taken is in flight under one of its draws, refused, or
      cancelled by the failed send. */
  lemma {:induction false} DrainStops(m: Mux, env: Env) returns (n: nat)
    requires Conserved(m) && FairDraws(env)
    ensures StopsAfter(m.queue, Drain(m, env), env, n)
    decreases |m.queue|
  {
    n := 0;
    if m.queue != [] {
      var r := m.queue[0];
      var pick := PickId(m.active, env.draws(r), MAX_DRAWS);
      PickFree(m.active, env.draws(r), MAX_DRAWS);
      if pick.Some? {
        var next := Launch(m, pick.value, env.fate(r));
        LaunchConserves(m, pick.value, env.fate(r));
        LaunchDecides(m, env, pick.value);
        if env.fate(r) == SendError {
          n := 1;
        } else {
          var n' := DrainStops(next, env);
          DrainKeepsDecided(next, env, r);
          assert Drain(m, env) == Drain(next, env);
          StopsOneLater(m.queue, Drain(next, env), env, n');
          n := n' + 1;
        }
      }
    }
  }

  /** A poll fails exactly when a send failed, and then receives nothing, or when the stream fails before
      a hundred messages were received. */
  lemma PollFails(m: Mux, env: Env)
    ensures var d := Drain(Dropped(m, env.cancelled + env.timedOut), env);
            && (PollSpec(m, env).status == Failed <==>
                  d.status == SendFailed || (|env.inbound| < 100 && env.end == IoError))
            && (d.status == SendFailed ==> PollSpec(m, env).mux == d.mux)
            && (d.status != SendFailed && |env.inbound| <= 100 ==>
                  PollSpec(m, env).mux == AcceptAll(d.mux, env.inbound))
  {
  }

  /** When the channel is emptied, a request that could be sent is in flight and any other refused. */
  lemma {:induction false} DrainDecides(m: Mux, env: Env, r: nat)
    requires Conserved(m) && FairDraws(env) && r in m.queue && Drain(m, env).status == Emptied
    ensures var m' := Drain(m, env).mux;
            if env.fate(r) == Sent then InFlight(m', r) else r in m'.resolved && m'.resolved[r] == Refused
    decreases |m.queue|
  {
    var r0 := m.queue[0];
    var id := PickId(m.active, env.draws(r0), MAX_DRAWS).value;
    var next := Launch(m, id, env.fate(r0));
    PickFree(m.active, env.draws(r0), MAX_DRAWS);
    LaunchConserves(m, id, env.fate(r0));
    if r != r0 {
      assert m.queue == [r0] + m.queue[1..];
      DrainDecides(next, env, r);
    } else if env.fate(r) == Sent {
      DrainKeepsFlight(next, env, r);
    } else {
      DrainConserves(next, env);
    }
  }

  /** A request in flight: its id expired and it times out; or the first message received with its
      id answers it; or it stays in flight. */
  lemma PollDecides(m: Mux, env: Env, r: nat)
    requires Conserved(m) && FairDraws(env) && InFlight(m, r)
    requires Drain(Dropped(m, env.cancelled + env.timedOut), env).status != SendFailed
    ensures var m' := PollSpec(m, env).mux;
            if m.ids[r] in env.cancelled + env.timedOut then r in m'.resolved && m'.resolved[r] == Timeout
            else match FirstReply(Capped(env.inbound), m.ids[r])
              case Some(reply) => r in m'.resolved && m'.resolved[r] == Answer(reply)
              case None => InFlight(m', r)
  {
    var gone := env.cancelled + env.timedOut;
    var m1 := Dropped(m, gone);
    DropConserves(m, gone);
    DropDecides(m, gone, r);
    DrainConserves(m1, env);
    var m2 := Drain(m1, env).mux;
    if m.ids[r] in gone {
      AcceptAllConserves(m2, Capped(env.inbound));
    } else {
      DrainKeepsFlight(m1, env, r);
      FirstReplyAnswers(m2, Capped(env.inbound), r);
    }
  }

  // ----- The future in place -----

  lemma OneMoreTimeout(resolved: map<nat, Outcome>, rs: set<nat>, r: nat)
    ensures WithTimeouts(resolved, rs + {r}) == WithTimeouts(resolved, rs)[r := Timeout]
  {
  }

  lemma DropOneMore(m: Mux, done: set<U16>, id: U16)
    requires id in m.active && id !in done
    ensures id in Dropped(m, done).active && Dropped(m, done).active[id] == m.active[id]
    ensures Dropped(m, done + {id}) ==
            var m' := Dropped(m, done);
            m'.(active := m'.active - {id}, resolved := m'.resolved[m.active[id] := Timeout])
  {
    assert Holders(m, done + {id}) == Holders(m, done) + {m.active[id]};
    OneMoreTimeout(m.resolved, Holders(m, done), m.active[id]);
    assert m.active - (done + {id}) == m.active - done - {id};
  }

  lemma DropNone(m: Mux)
    ensures Dropped(m, {}) == m
  {
    assert Holders(m, {}) == {};
    assert m.active - {} == m.active;
    assert WithTimeouts(m.resolved, {}) == m.resolved;
  }

  lemma DropOnlyActive(m: Mux, gone: set<U16>)
    ensures Dropped(m, m.active.Keys * gone) == Dropped(m, gone)
  {
    assert Holders(m, m.active.Keys * gone) == Holders(m, gone);
    assert m.active - m.active.Keys * gone == m.active - gone;
  }

  class ClientFuture {
    var submitted: nat
    var queue: seq<nat>
    var closed: bool
    var active: map<U16, nat>
    var resolved: map<nat, Outcome>
    ghost var ids: map<nat, U16>

    constructor ()
      ensures View() == FRESH
    {
      submitted, queue, closed, active, resolved, ids := 0, [], false, map[], map[], map[];
    }

    ghost function View(): Mux
      reads this
    {
      Mux(submitted, queue, closed, active, resolved, ids)
    }

    /** Drop the requests in flight that are cancelled or out of time. */
    method DropCancelled(cancelled: set<U16>, timedOut: set<U16>)
      modifies this`active, this`resolved
      ensures View() == Dropped(old(View()), cancelled + timedOut)
    {
      DropOnlyActive(View(), cancelled + timedOut);
      var gone := CollectCancelled(cancelled, timedOut);
      CompleteEach(gone);
    }

    method CollectCancelled(cancelled: set<U16>, timedOut: set<U16>) returns (gone: set<U16>)
      ensures gone == active.Keys * (cancelled + timedOut)
    {
      gone := {};
      var rest := active.Keys;
      while rest != {}
        invariant rest <= active.Keys
        invariant gone == (active.Keys - rest) * (cancelled + timedOut)
        decreases |rest|
      {
        var id: U16 :| id in rest;
        if id in cancelled || id in timedOut {
          gone := gone + {id};
        }
        rest := rest - {id};
      }
    }

    method CompleteEach(gone: set<U16>)
      requires gone <= active.Keys
      modifies this`active, this`resolved
      ensures View() == Dropped(old(View()), gone)
    {
      var rest := gone;
      ghost var was, done: set<U16> := View(), {};
      DropNone(was);
      while rest != {}
        invariant rest !! done && rest + done == gone
        invariant View() == Dropped(was, done)
        decreases |rest|
      {
        var id: U16 :| id in rest;
        DropOneMore(was, done, id);
        TimeOut(id);
        rest := rest - {id};
        done := done + {id};
      }
      assert done == gone;
    }

    method TimeOut(id: U16)
      requires id in active
      modifies this`active, this`resolved
      ensures View() == old(View()).(active := old(active) - {id},
                                      resolved := old(resolved)[old(active)[id] := Timeout])
    {
      var r := active[id];
      active := active - {id};
      resolved := resolved[r := Timeout];
    }

    /** Draw ids, at most a hundred times, until one is free. */
    method NextRandomQueryId(draws: seq<U16>) returns (id: Option<U16>)
      ensures id == PickId(active, draws, MAX_DRAWS)
      ensures id.Some? ==> id.value !in active
    {
      for i := 0 to MAX_DRAWS
        invariant i <= |draws|
        invariant PickId(active, draws[i..], MAX_DRAWS - i) == PickId(active, draws, MAX_DRAWS)
      {
        if i == |draws| {
          return None;
        }
        if draws[i] !in active {
          return Some(draws[i]);
        }
        assert draws[i..][1..] == draws[i + 1..];
      }
      return None;
    }

    /** Send the waiting requests. */
    method SendWaiting(env: Env) returns (status: DrainStatus)
      modifies this`queue, this`active, this`resolved, this`ids
      ensures Drained(View(), status) == Drain(old(View()), env)
    {
      while queue != []
        invariant Drain(View(), env) == Drain(old(View()), env)
        decreases |queue|
      {
        var r := queue[0];
        var id := NextRandomQueryId(env.draws(r));
        if id.None? {
          return Delayed;
        }
        queue := queue[1..];
        match env.fate(r) {
          case SendError =>
            resolved := resolved[r := Canceled];
            return SendFailed;
          case Sent =>
            active := active[id.value := r];
            ids := ids[r := id.value];
          case _ =>
            resolved := resolved[r := Refused];
        }
      }
      return Emptied;
    }

    /** Receive at most a hundred messages.  The count of them is the last turn's index, so it never
        reaches the hundred at which the future would ask to be polled again. */
    method Receive(inbound: seq<Inbound>, end: StreamEnd) returns (failed: bool, received: nat)
      modifies this`active, this`resolved
      ensures View() == AcceptAll(old(View()), Capped(inbound))
      ensures failed <==> |inbound| < MAX_RECEIVE && end == IoError
      ensures received == if inbound == [] then 0 else |Capped(inbound)| - 1
      ensures received != MAX_RECEIVE
    {
      received := 0;
      ghost var all := Capped(inbound);
      for i := 0 to MAX_RECEIVE
        invariant i <= |all|
        invariant AcceptAll(View(), all[i..]) == AcceptAll(old(View()), all)
        invariant received == if i == 0 then 0 else i - 1
      {
        if i == |inbound| {
          return end == IoError, received;
        }
        received := i;
        assert all[i..][0] == inbound[i] && all[i..][1..] == all[i + 1..];
        match inbound[i] {
          case Undecodable =>
          case Decoded(reply) =>
            if reply.id in active {
              var r := active[reply.id];
              active := active - {reply.id};
              resolved := resolved[r := Answer(reply)];
            }
        }
      }
      return false, received;
    }

    method Poll(env: Env) returns (status: Status, yielded: bool)
      requires Conserved(View()) && FairDraws(env)
      modifies this`queue, this`active, this`resolved, this`ids
      ensures Polled(View(), status) == PollSpec(old(View()), env)
      ensures Conserved(View()) && Extends(old(View()), View())
      ensures !yielded
    {
      PollConserves(View(), env);
      DropCancelled(env.cancelled, env.timedOut);
      var sent := SendWaiting(env);
      if sent == SendFailed {
        return Failed, false;
      }
      var failed, received := Receive(env.inbound, env.end);
      if failed {
        return Failed, false;
      }
      if active == map[] && closed && queue == [] {
        return Finished, false;
      }
      return Running, received == MAX_RECEIVE;
    }
  }
}
