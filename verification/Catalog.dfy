/** The catalog of zones (server/src/authority/catalog.rs): the authority for a name is that of its
    longest suffix in the catalog, and an update message goes to one authority. */
module Catalog {
  import opened Basics
  import opened Names
  import opened Records
  import opened Zones
  import opened Lookups
  import opened Authority

  /** find_auth_recurse, over a map whose keys are compared without case. */
  function FindAuth<T>(authorities: map<Name, T>, name: Name): Option<Name>
    decreases |name|
  {
    if Lower(name) in authorities then Some(Lower(name))
    else if BaseName(name) != [] then FindAuth(authorities, BaseName(name))
    else None
  }

  /** The longest suffix of a name, at a given number of labels dropped. */
  ghost predicate LongestAt<T>(authorities: map<Name, T>, name: Name, i: nat) {
    && i < |name|
    && Lower(name[i..]) in authorities
    && forall j :: 0 <= j < i ==> Lower(name[j..]) !in authorities
  }

  /** For a name that is not the root, the authority found is the one for its longest suffix, and
      none is found exactly when no suffix but the root is in the catalog. */
  lemma {:induction false} FindsLongest<T>(authorities: map<Name, T>, name: Name)
    requires name != []
    ensures match FindAuth(authorities, name)
            case Some(zone) => exists i: nat :: LongestAt(authorities, name, i) && zone == Lower(name[i..])
            case None => forall i :: 0 <= i < |name| ==> Lower(name[i..]) !in authorities
    decreases |name|
  {
    assert name[0..] == name;
    if Lower(name) in authorities {
      assert LongestAt(authorities, name, 0);
    } else if |name| > 1 {
      var base := name[1..];
      FindsLongest(authorities, base);
      assert forall i :: 0 < i < |name| ==> name[i..] == base[i - 1..];
      if FindAuth(authorities, base).Some? {
        var i: nat :| LongestAt(authorities, base, i) && FindAuth(authorities, base).value == Lower(base[i..]);
        assert LongestAt(authorities, name, i + 1);
      }
    }
  }

  /** So a zone at the root answers for the root alone. */
  lemma RootZoneIsNotFound<T>(authorities: map<Name, T>, name: Name)
    requires authorities.Keys == {[]}
    ensures FindAuth(authorities, name).Some? <==> name == []
  {
    if name == [] {
      assert Lower(name) == [];
    } else {
      FindsLongest(authorities, name);
      assert forall i :: 0 <= i < |name| ==> |Lower(name[i..])| > 0;
    }
  }

  // ----- Updates -----

  datatype Hosted = Hosted(kind: ZoneType, cfg: Config, state: State)

  datatype Code = NoError | NotImp | NotAuth | Failed(code: Rcode)

  datatype ZoneEntry = ZoneEntry(name: Name, rtype: RecordType)

  datatype Dispatched = Dispatched(catalog: map<Name, Hosted>, code: Code)

  /** update: the zone section names one zone by its SOA, and a master that hosts it applies the
      message. */
  function Dispatch(catalog: map<Name, Hosted>, zones: seq<ZoneEntry>, m: UpdateMessage, accepted: nat,
                    inception: U32): Dispatched
  {
    if |zones| != 1 || zones[0].rtype != SOA then Dispatched(catalog, Failed(FormErr))
    else match FindAuth(catalog, zones[0].name)
      case None => Dispatched(catalog, Failed(NXDomain))
      case Some(n) =>
        FindIsHosted(catalog, zones[0].name);
        var host := catalog[n];
        match host.kind
        case Slave => Dispatched(catalog, NotImp)
        case Master =>
          var reply := UpdateSpec(host.cfg, host.state, m, accepted, inception);
          Dispatched(catalog[n := host.(state := reply.state)],
                     if reply.result.Ok? then NoError else Failed(reply.result.code))
        case _ => Dispatched(catalog, NotAuth)
  }

  lemma {:induction false} FindIsHosted<T>(authorities: map<Name, T>, name: Name)
    ensures FindAuth(authorities, name).Some? ==> FindAuth(authorities, name).value in authorities
    decreases |name|
  {
    if Lower(name) !in authorities && BaseName(name) != [] {
      FindIsHosted(authorities, BaseName(name));
    }
  }

  /** The whole outcome of an update.  The zone section must name one SOA; the host is that of the longest
      suffix of its name; a master applies the message, its new state is what that leaves and its code
      what that answers, and no other host changes; every other case changes nothing. */
  lemma UpdateOutcomes(catalog: map<Name, Hosted>, zones: seq<ZoneEntry>, m: UpdateMessage,
                       accepted: nat, inception: U32, i: nat)
    ensures var d := Dispatch(catalog, zones, m, accepted, inception);
            if |zones| != 1 || zones[0].rtype != SOA then d == Dispatched(catalog, Failed(FormErr))
            else
              var name := zones[0].name;
              && ((forall j :: 0 <= j < |name| ==> Lower(name[j..]) !in catalog) && (name == [] ==> [] !in catalog) ==>
                    d == Dispatched(catalog, Failed(NXDomain)))
              && (name == [] && [] in catalog ==> HostReplies(catalog, [], m, accepted, inception, d))
              && (LongestAt(catalog, name, i) ==> HostReplies(catalog, Lower(name[i..]), m, accepted, inception, d))
  {
    if |zones| == 1 && zones[0].rtype == SOA {
      var name := zones[0].name;
      if name != [] {
        FindsLongest(catalog, name);
        if LongestAt(catalog, name, i) {
          var j: nat :| LongestAt(catalog, name, j) && FindAuth(catalog, name) == Some(Lower(name[j..]));
          assert i == j;
        }
      } else {
        assert Lower(name) == [];
      }
    }
  }

  ghost predicate HostReplies(catalog: map<Name, Hosted>, n: Name, m: UpdateMessage, accepted: nat, inception: U32,
                              d: Dispatched)
    requires n in catalog
  {
    match catalog[n].kind
    case Slave => d == Dispatched(catalog, NotImp)
    case Master => MasterReplies(catalog, n, m, accepted, inception, d)
    case _ => d == Dispatched(catalog, NotAuth)
  }

  /** A master after a message: the state is the reply's, the configuration stays, and so do the others. */
  ghost predicate MasterReplies(catalog: map<Name, Hosted>, n: Name, m: UpdateMessage, accepted: nat, inception: U32,
                                d: Dispatched)
    requires n in catalog
  {
    var reply := Handle(catalog[n].cfg, catalog[n].state, Event(m, accepted, inception));
    && d.catalog.Keys == catalog.Keys
    && (forall x :: x in catalog && x != n ==> d.catalog[x] == catalog[x])
    && d.catalog[n] == Hosted(Master, catalog[n].cfg, reply.state)
    && match reply.result case Ok(_) => d.code == NoError case Err(c) => d.code == Failed(c)
  }

  /** An update changes at most the state of the one master whose zone is the longest suffix of the
      zone named; whatever code but NoError and ServFail is returned, nothing changed at all. */
  lemma UpdateTouchesOne(catalog: map<Name, Hosted>, zones: seq<ZoneEntry>, m: UpdateMessage, accepted: nat,
                         inception: U32, n: Name)
    requires n in catalog && WellTypedMessage(m) && forall h :: h in catalog ==> WellFormed(catalog[h].state.zone)
    ensures var d := Dispatch(catalog, zones, m, accepted, inception);
            && d.catalog.Keys == catalog.Keys
            && d.catalog[n].kind == catalog[n].kind && d.catalog[n].cfg == catalog[n].cfg
            && (d.catalog[n] != catalog[n] ==>
                  && |zones| == 1 && FindAuth(catalog, zones[0].name) == Some(n) && catalog[n].kind == Master
                  && (d.code == NoError || d.code == Failed(ServFail)))
  {
    if |zones| == 1 && zones[0].rtype == SOA && FindAuth(catalog, zones[0].name).Some? {
      FindIsHosted(catalog, zones[0].name);
      var host := catalog[FindAuth(catalog, zones[0].name).value];
      UpdateAllOrNothing(host.cfg, host.state, m, accepted, inception);
    }
  }
}
