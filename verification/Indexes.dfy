/** The lookup tables derived from the configuration: instances by (node, name)
    and routes by service. */
module Indexes {
  import opened Common
  import opened Configs

  // Service index

  type InstanceKey = (NodeId, string)

  function ServiceIndex(ss: seq<Service>): map<InstanceKey, Service>
  {
    if ss == [] then map[]
    else
      var s := ss[|ss|-1];
      ServiceIndex(ss[..|ss|-1])[(s.nodeId, s.name) := s]
  }

  function BuildServices(dc: DynamicConfig): map<InstanceKey, Service>
  {
    ServiceIndex(AllServices(dc.groups))
  }

  /** The index holds exactly the listed instances; if two groups list the same
      (node, name), the later one is found. */
  lemma {:induction false} ServiceIndexHoldsLast(ss: seq<Service>, i: nat)
    requires i < |ss| && forall j :: i < j < |ss| ==> !Is(ss[j], ss[i].nodeId, ss[i].name)
    ensures var k := (ss[i].nodeId, ss[i].name);
      k in ServiceIndex(ss) && ServiceIndex(ss)[k] == ss[i]
  {
    if i < |ss| - 1 {
      assert !Is(ss[|ss|-1], ss[i].nodeId, ss[i].name);
      ServiceIndexHoldsLast(ss[..|ss|-1], i);
    }
  }

  lemma {:induction false} ServiceIndexHoldsOnly(ss: seq<Service>, k: InstanceKey)
    requires k in ServiceIndex(ss)
    ensures exists i :: 0 <= i < |ss| && Is(ss[i], k.0, k.1) && ServiceIndex(ss)[k] == ss[i]
  {
    var n := |ss| - 1;
    if !Is(ss[n], k.0, k.1) {
      ServiceIndexHoldsOnly(ss[..n], k);
      var i :| 0 <= i < n && Is(ss[..n][i], k.0, k.1) && ServiceIndex(ss[..n])[k] == ss[..n][i];
      assert ss[i] == ss[..n][i];
    }
  }

  lemma {:induction false} ServiceIndexConcat(ss: seq<Service>, s: Service)
    ensures ServiceIndex(ss + [s]) == ServiceIndex(ss)[(s.nodeId, s.name) := s]
  {
    assert (ss + [s])[..|ss|] == ss;
  }

  lemma {:induction false} NextGroup(gs: seq<Group>, g: nat)
    requires g < |gs|
    ensures AllServices(gs[..g+1]) == AllServices(gs[..g]) + gs[g].services
  {
    assert gs[..g+1][..g] == gs[..g];
  }

  method BuildServiceIndex(dc: DynamicConfig) returns (idx: map<InstanceKey, Service>)
    ensures idx == BuildServices(dc)
  {
    hide ServiceIndex, AllServices;
    EmptyServiceIndex();
    idx := map[];
    for g := 0 to |dc.groups|
      invariant idx == ServiceIndex(AllServices(dc.groups[..g]))
    {
      NextGroup(dc.groups, g);
      idx := AddGroup(idx, AllServices(dc.groups[..g]), dc.groups[g].services);
    }
    assert dc.groups[..|dc.groups|] == dc.groups;
  }

  lemma {:induction false} EmptyServiceIndex()
    ensures ServiceIndex(AllServices([])) == map[]
  {
  }

  /** The inner loop: the services of one group, after those of the earlier
      groups. */
  method AddGroup(before: map<InstanceKey, Service>, ghost earlier: seq<Service>, ss: seq<Service>)
    returns (idx: map<InstanceKey, Service>)
    requires before == ServiceIndex(earlier)
    ensures idx == ServiceIndex(earlier + ss)
  {
    hide ServiceIndex;
    idx := before;
    assert earlier + ss[..0] == earlier;
    for k := 0 to |ss|
      invariant idx == ServiceIndex(earlier + ss[..k])
    {
      assert earlier + ss[..k+1] == (earlier + ss[..k]) + [ss[k]];
      ServiceIndexConcat(earlier + ss[..k], ss[k]);
      idx := idx[(ss[k].nodeId, ss[k].name) := ss[k]];
    }
    assert ss[..|ss|] == ss;
  }

  // Route index

  function RouteIndex(rs: seq<Route>): map<string, seq<Route>>
  {
    if rs == [] then map[]
    else
      var idx, r := RouteIndex(rs[..|rs|-1]), rs[|rs|-1];
      idx[r.service := Get(idx, r.service, []) + [r]]
  }

  function BuildRoutes(dc: DynamicConfig): map<string, seq<Route>>
  {
    RouteIndex(dc.routes)
  }

  function RoutesOf(rs: seq<Route>, service: string): seq<Route>
  {
    Filter(rs, (r: Route) => r.service == service)
  }

  /** A service's entry is its routes in their configured order; services
      without routes have no entry. */
  lemma {:induction false} RouteIndexAt(rs: seq<Route>, service: string)
    ensures service in RouteIndex(rs) <==> RoutesOf(rs, service) != []
    ensures service in RouteIndex(rs) ==> RouteIndex(rs)[service] == RoutesOf(rs, service)
  {
    if rs != [] {
      RouteIndexAt(rs[..|rs|-1], service);
    }
  }

  method BuildRouteIndex(dc: DynamicConfig) returns (idx: map<string, seq<Route>>)
    ensures idx == BuildRoutes(dc)
  {
    idx := map[];
    for k := 0 to |dc.routes|
      invariant idx == RouteIndex(dc.routes[..k])
    {
      assert dc.routes[..k+1][..k] == dc.routes[..k];
      var r := dc.routes[k];
      idx := idx[r.service := Get(idx, r.service, []) + [r]];
    }
    assert dc.routes[..|dc.routes|] == dc.routes;
  }

  // What replacing a service's routes does to the index

  /** The insertion point never lies beyond the routes that are kept: the
      routes before the first one of `service` all stay. */
  lemma {:induction false} ClampNeverNeeded(rs: seq<Route>, service: string)
    ensures var at := FirstRouteOf(rs, service);
      at.Some? ==> at.value <= |Others(rs, service)| && Others(rs, service)[..at.value] == rs[..at.value]
  {
    var other := (r: Route) => r.service != service;
    var at := FirstRouteOf(rs, service);
    if at.Some? {
      var i := at.value;
      assert rs == rs[..i] + rs[i..];
      FilterConcat(rs[..i], rs[i..], other);
      forall r | r in rs[..i]
        ensures other(r)
      {
        var j :| 0 <= j < i && rs[..i][j] == r;
      }
      FilterAll(rs[..i], other);
    }
  }

  lemma {:induction false} OthersOf(rs: seq<Route>, service: string, s: string)
    ensures RoutesOf(Others(rs, service), s) == if s == service then [] else RoutesOf(rs, s)
    ensures Others(Others(rs, service), service) == Others(rs, service)
  {
    var other, mine := (r: Route) => r.service != service, (r: Route) => r.service == s;
    if s == service {
      FilterNone(Others(rs, service), mine);
    } else {
      FilterTwice(rs, other, mine);
    }
    FilterAll(Others(rs, service), other);
  }

  lemma {:induction false} OwnRoutes(rs: seq<Route>, service: string, s: string)
    requires forall i :: 0 <= i < |rs| ==> rs[i].service == service
    ensures RoutesOf(rs, s) == if s == service then rs else []
    ensures Others(rs, service) == []
  {
    var other, mine := (r: Route) => r.service != service, (r: Route) => r.service == s;
    FilterNone(rs, other);
    if s == service {
      FilterAll(rs, mine);
    } else {
      FilterNone(rs, mine);
    }
  }

  lemma {:induction false} Spliced(a: seq<Route>, rs: seq<Route>, b: seq<Route>, s: string)
    ensures RoutesOf(a + rs + b, s) == RoutesOf(a, s) + RoutesOf(rs, s) + RoutesOf(b, s)
    ensures RoutesOf(a + b, s) == RoutesOf(a, s) + RoutesOf(b, s)
    ensures Others(a + rs + b, s) == Others(a, s) + Others(rs, s) + Others(b, s)
    ensures Others(a + b, s) == Others(a, s) + Others(b, s)
  {
    var mine, other := (r: Route) => r.service == s, (r: Route) => r.service != s;
    FilterConcat(a + rs, b, mine);
    FilterConcat(a, rs, mine);
    FilterConcat(a, b, mine);
    FilterConcat(a + rs, b, other);
    FilterConcat(a, rs, other);
    FilterConcat(a, b, other);
  }

  lemma {:induction false} OnlyMiddle(x: seq<Route>, rs: seq<Route>, y: seq<Route>)
    requires x + y == []
    ensures x + rs + y == rs
  {
    assert |x + y| == |x| + |y|;
  }

  lemma {:induction false} NoMiddle(x: seq<Route>, y: seq<Route>)
    ensures x + [] + y == x + y
  {
  }

  lemma {:induction false} InsertedRoutes(a: seq<Route>, rs: seq<Route>, b: seq<Route>, service: string, s: string)
    requires RoutesOf(a + b, service) == [] && forall i :: 0 <= i < |rs| ==> rs[i].service == service
    ensures RoutesOf(a + rs + b, s) == if s == service then rs else RoutesOf(a + b, s)
  {
    hide RoutesOf, Others;
    OwnRoutes(rs, service, s);
    Spliced(a, rs, b, s);
    if s == service {
      OnlyMiddle(RoutesOf(a, s), rs, RoutesOf(b, s));
    } else {
      NoMiddle(RoutesOf(a, s), RoutesOf(b, s));
    }
  }

  lemma {:induction false} InsertedOthers(a: seq<Route>, rs: seq<Route>, b: seq<Route>, service: string)
    requires forall i :: 0 <= i < |rs| ==> rs[i].service == service
    ensures Others(a + rs + b, service) == Others(a + b, service)
  {
    hide RoutesOf, Others;
    OwnRoutes(rs, service, service);
    Spliced(a, rs, b, service);
    NoMiddle(Others(a, service), Others(b, service));
  }

  /** Wherever the new routes go among those of the other services. */
  lemma {:induction false} InsertedAt(routes: seq<Route>, service: string, rs: seq<Route>, at: nat, s: string)
    requires at <= |Others(routes, service)| && forall i :: 0 <= i < |rs| ==> rs[i].service == service
    ensures var kept := Others(routes, service);
      var all := kept[..at] + rs + kept[at..];
      && RoutesOf(all, s) == (if s == service then rs else RoutesOf(routes, s))
      && Others(all, service) == kept
  {
    hide RoutesOf, Others;
    var kept := Others(routes, service);
    var a, b := kept[..at], kept[at..];
    assert a + b == kept;
    OthersOf(routes, service, s);
    OthersOf(routes, service, service);
    InsertedRoutes(a, rs, b, service, s);
    InsertedOthers(a, rs, b, service);
  }

  /** After a successful replacement, `service` has exactly the new routes and
      every other service its old ones, in the old order. */
  lemma {:induction false} SetRoutesAt(dc: DynamicConfig, service: string, rs: seq<Route>, s: string)
    requires SetRoutes(dc, service, rs).Ok?
    ensures RoutesOf(SetRoutes(dc, service, rs).config.routes, s) ==
      if s == service then rs else RoutesOf(dc.routes, s)
    ensures Others(SetRoutes(dc, service, rs).config.routes, service) == Others(dc.routes, service)
  {
    hide RoutesOf, Others, RouteTargetOk, FirstRouteOf;
    var kept := Others(dc.routes, service);
    var at := match FirstRouteOf(dc.routes, service)
      case None => |kept|
      case Some(i) => Min(i, |kept|);
    assert forall i :: 0 <= i < |rs| ==> RouteOk(service, rs[i]);
    InsertedAt(dc.routes, service, rs, at, s);
  }

  /** The new routes stand where the first old one stood, or at the end if there
      was none. */
  lemma {:induction false} SetRoutesInPlace(dc: DynamicConfig, service: string, rs: seq<Route>, i: nat)
    requires SetRoutes(dc, service, rs).Ok? && i <= |dc.routes|
    requires forall k :: 0 <= k < i ==> dc.routes[k].service != service
    requires i < |dc.routes| ==> dc.routes[i].service == service
    ensures dc.routes[..i] + rs <= SetRoutes(dc, service, rs).config.routes
    ensures i == |dc.routes| ==> SetRoutes(dc, service, rs).config.routes == dc.routes + rs
  {
    hide RouteTargetOk, RoutesOk;
    var kept := Others(dc.routes, service);
    ClampNeverNeeded(dc.routes, service);
    if i == |dc.routes| {
      assert FirstRouteOf(dc.routes, service).None?;
      FilterAll(dc.routes, (r: Route) => r.service != service);
      assert kept[..|kept|] + rs + kept[|kept|..] == dc.routes + rs;
      assert dc.routes[..i] == dc.routes;
    } else {
      assert FirstRouteOf(dc.routes, service) == Some(i);
    }
  }

  /** Replacing routes changes one entry of the route index and nothing of the
      service index. */
  lemma {:induction false} SetRoutesChangesOneEntry(dc: DynamicConfig, service: string, rs: seq<Route>)
    requires SetRoutes(dc, service, rs).Ok?
    ensures var dc' := SetRoutes(dc, service, rs).config;
      && BuildRoutes(dc') == (if rs == [] then BuildRoutes(dc) - {service} else BuildRoutes(dc)[service := rs])
      && BuildServices(dc') == BuildServices(dc)
      && dc'.version == dc.version + 1
  {
    var dc' := SetRoutes(dc, service, rs).config;
    var idx := if rs == [] then BuildRoutes(dc) - {service} else BuildRoutes(dc)[service := rs];
    forall s
      ensures s in BuildRoutes(dc') <==> s in idx
      ensures s in idx ==> BuildRoutes(dc')[s] == idx[s]
    {
      RouteIndexAt(dc.routes, s);
      RouteIndexAt(dc'.routes, s);
      SetRoutesAt(dc, service, rs, s);
    }
  }
}
