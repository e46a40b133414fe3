/** The versioned cluster configuration and the mutations that edit it. */
module Configs {
  import opened Common

  datatype Protocol = Tcp | Http

  datatype Service = Service(
    name: string,
    nodeId: NodeId,
    nodePort: nat,
    domains: seq<string>,
    weight: nat,
    maxConnections: Option<nat>,
    protocol: Protocol,
    requestTimeoutMs: Option<nat>,
    healthPath: Option<string>,
    labels: map<string, string>,
    meta: map<string, string>,
    localPort: Option<nat>)

  datatype Group = Group(name: string, services: seq<Service>)

  datatype RouteMatch = RouteMatch(
    pathPrefix: Option<string>,
    verb: Option<string>,
    headers: map<string, string>)

  datatype RouteBackend = RouteBackend(labels: map<string, string>, weight: nat)

  datatype Route = Route(
    name: Option<string>,
    service: string,
    matches: RouteMatch,
    backends: seq<RouteBackend>)

  datatype DynamicConfig = DynamicConfig(version: nat, groups: seq<Group>, routes: seq<Route>)

  const EMPTY: DynamicConfig := DynamicConfig(0, [], [])

  datatype MutateErr =
    | GroupNotFound(group: string)
    | ServiceNotFound(group: string, node: NodeId, name: string)
    | DuplicateService(group: string, node: NodeId, name: string)
    | Invalid

  datatype Result = Ok(config: DynamicConfig) | Err(error: MutateErr)

  // Looking things up

  function GroupAt(gs: seq<Group>, name: string): (r: Option<nat>)
    ensures r.Some? ==> r.value < |gs| && gs[r.value].name == name
    ensures r.Some? ==> forall j :: 0 <= j < r.value ==> gs[j].name != name
    ensures r.None? ==> forall j :: 0 <= j < |gs| ==> gs[j].name != name
  {
    Find(gs, (g: Group) => g.name == name)
  }

  predicate Is(s: Service, node: NodeId, name: string)
  {
    s.name == name && s.nodeId == node
  }

  function ServiceAt(ss: seq<Service>, node: NodeId, name: string): (r: Option<nat>)
    ensures r.Some? ==> r.value < |ss| && Is(ss[r.value], node, name)
    ensures r.Some? ==> forall j :: 0 <= j < r.value ==> !Is(ss[j], node, name)
    ensures r.None? ==> forall j :: 0 <= j < |ss| ==> !Is(ss[j], node, name)
  {
    Find(ss, (s: Service) => Is(s, node, name))
  }

  /** The services left when every copy of (node, name) is dropped. */
  function Without(ss: seq<Service>, node: NodeId, name: string): seq<Service>
  {
    Filter(ss, (s: Service) => !Is(s, node, name))
  }

  /** The routes of all services but `service`. */
  function Others(rs: seq<Route>, service: string): seq<Route>
  {
    Filter(rs, (r: Route) => r.service != service)
  }

  function FirstRouteOf(rs: seq<Route>, service: string): Option<nat>
  {
    Find(rs, (r: Route) => r.service == service)
  }

  // Route validation

  predicate TokenChar(c: char)
  {
    'a' <= c <= 'z' || 'A' <= c <= 'Z' || '0' <= c <= '9' || c in "!#$%&'*+-.^_`|~"
  }

  /** A field name is a token (section 5.6.2 of RFC 9110). */
  predicate HeaderNameOk(name: string)
  {
    name != "" && forall c :: c in name ==> TokenChar(c)
  }

  predicate RouteOk(service: string, r: Route)
  {
    && r.service == service
    && r.backends != []
    && (exists i :: 0 <= i < |r.backends| && r.backends[i].weight != 0)
    && (r.matches.pathPrefix.Some? ==> r.matches.pathPrefix.value != "" && r.matches.pathPrefix.value[0] == '/')
    && (r.matches.verb.Some? ==> r.matches.verb.value != "" && forall c :: c in r.matches.verb.value ==> 'A' <= c <= 'Z')
    && (forall name :: name in r.matches.headers ==> HeaderNameOk(name))
  }

  predicate RoutesOk(service: string, routes: seq<Route>)
  {
    forall i :: 0 <= i < |routes| ==> RouteOk(service, routes[i])
  }

  function AllServices(gs: seq<Group>): seq<Service>
  {
    if gs == [] then [] else AllServices(gs[..|gs|-1]) + gs[|gs|-1].services
  }

  /** Routes may target a service that exists and is HTTP on every instance. */
  predicate RouteTargetOk(dc: DynamicConfig, service: string)
  {
    var instances := Filter(AllServices(dc.groups), (s: Service) => s.name == service);
    instances != [] && forall i :: 0 <= i < |instances| ==> instances[i].protocol == Http
  }

  /** A history whose versions strictly rise. */
  ghost predicate Rising(cs: seq<DynamicConfig>)
  {
    forall i, j :: 0 <= i < j < |cs| ==> cs[i].version < cs[j].version
  }

  // The mutations, on configuration values

  function Upsert(dc: DynamicConfig, group: string, svc: Service): DynamicConfig
  {
    var gs := dc.groups;
    var gs' := match GroupAt(gs, group)
      case None => gs + [Group(group, [svc])]
      case Some(i) =>
        var ss := gs[i].services;
        match ServiceAt(ss, svc.nodeId, svc.name)
        case None => gs[i := gs[i].(services := ss + [svc])]
        case Some(j) => gs[i := gs[i].(services := ss[j := svc])];
    dc.(version := dc.version + 1, groups := gs')
  }

  function Remove(dc: DynamicConfig, group: string, node: NodeId, name: string): Result
  {
    var gs := dc.groups;
    match GroupAt(gs, group)
    case None => Err(GroupNotFound(group))
    case Some(i) =>
      var kept := Without(gs[i].services, node, name);
      if |kept| == |gs[i].services| then Err(ServiceNotFound(group, node, name))
      else Ok(dc.(version := dc.version + 1, groups := gs[i := gs[i].(services := kept)]))
  }

  function Rename(dc: DynamicConfig, group: string, node: NodeId, from: string, to: string): Result
  {
    var gs := dc.groups;
    match GroupAt(gs, group)
    case None => Err(GroupNotFound(group))
    case Some(i) =>
      var ss := gs[i].services;
      if ServiceAt(ss, node, to).Some? then Err(DuplicateService(group, node, to))
      else
        match ServiceAt(ss, node, from)
        case None => Err(ServiceNotFound(group, node, from))
        case Some(j) =>
          Ok(dc.(version := dc.version + 1,
                 groups := gs[i := gs[i].(services := ss[j := ss[j].(name := to)])]))
  }

  function SetRoutes(dc: DynamicConfig, service: string, routes: seq<Route>): Result
  {
    if routes != [] && !RouteTargetOk(dc, service) then Err(Invalid)
    else if !RoutesOk(service, routes) then Err(Invalid)
    else
      var kept := Others(dc.routes, service);
      var at := match FirstRouteOf(dc.routes, service)
        case None => |kept|
        case Some(i) => Min(i, |kept|);
      Ok(dc.(version := dc.version + 1, routes := kept[..at] + routes + kept[at..]))
  }

  // The same configuration as a map

  datatype Key = Key(group: string, node: NodeId, name: string)

  function Lookup(dc: DynamicConfig, k: Key): Option<Service>
  {
    match GroupAt(dc.groups, k.group)
    case None => None
    case Some(i) =>
      match ServiceAt(dc.groups[i].services, k.node, k.name)
      case None => None
      case Some(j) => Some(dc.groups[i].services[j])
  }

  ghost function Keys(dc: DynamicConfig): set<Key>
  {
    set i, j | 0 <= i < |dc.groups| && 0 <= j < |dc.groups[i].services| ::
      Key(dc.groups[i].name, dc.groups[i].services[j].nodeId, dc.groups[i].services[j].name)
  }

  /** What the configuration says, forgetting list order. */
  ghost function AsMap(dc: DynamicConfig): map<Key, Service>
  {
    map k | k in Keys(dc) && Lookup(dc, k).Some? :: Lookup(dc, k).value
  }

  ghost predicate UniqueServices(ss: seq<Service>)
  {
    forall i, j :: 0 <= i < j < |ss| ==> !Is(ss[j], ss[i].nodeId, ss[i].name)
  }

  /** Group names are unique, and (node, name) is unique within a group. */
  ghost predicate Unique(dc: DynamicConfig)
  {
    && (forall i, j :: 0 <= i < j < |dc.groups| ==> dc.groups[i].name != dc.groups[j].name)
    && (forall i :: 0 <= i < |dc.groups| ==> UniqueServices(dc.groups[i].services))
  }

  /** Nothing is lost in the map: every listed service is found under its key. */
  lemma {:induction false} AsMapIsComplete(dc: DynamicConfig, i: nat, j: nat)
    requires Unique(dc) && i < |dc.groups| && j < |dc.groups[i].services|
    ensures var s := dc.groups[i].services[j];
      Key(dc.groups[i].name, s.nodeId, s.name) in AsMap(dc) &&
      AsMap(dc)[Key(dc.groups[i].name, s.nodeId, s.name)] == s
  {
    var s := dc.groups[i].services[j];
    assert UniqueServices(dc.groups[i].services);
    assert GroupAt(dc.groups, dc.groups[i].name) == Some(i);
    assert ServiceAt(dc.groups[i].services, s.nodeId, s.name) == Some(j);
    assert Key(dc.groups[i].name, s.nodeId, s.name) in Keys(dc);
  }

  lemma {:induction false} LookupIsMember(dc: DynamicConfig, k: Key)
    ensures k in AsMap(dc) <==> Lookup(dc, k).Some?
    ensures k in AsMap(dc) ==> AsMap(dc)[k] == Lookup(dc, k).value
  {
    if Lookup(dc, k).Some? {
      var i := GroupAt(dc.groups, k.group).value;
      var j := ServiceAt(dc.groups[i].services, k.node, k.name).value;
      assert k == Key(dc.groups[i].name, dc.groups[i].services[j].nodeId, dc.groups[i].services[j].name);
    }
  }

  /** Two configurations with the same answers are the same map. */
  lemma {:induction false} SameAnswers(dc: DynamicConfig, m: map<Key, Service>)
    requires forall k :: Lookup(dc, k) == if k in m then Some(m[k]) else None
    ensures AsMap(dc) == m
  {
    forall k: Key
      ensures k in AsMap(dc) <==> k in m
      ensures k in m ==> AsMap(dc)[k] == m[k]
    {
      LookupIsMember(dc, k);
    }
  }

  /** Replacing the services of group `i` changes answers for that group only. */
  lemma {:induction false} LookupAfterEdit(dc: DynamicConfig, i: nat, ss: seq<Service>, v: nat, k: Key)
    requires i < |dc.groups| && GroupAt(dc.groups, dc.groups[i].name) == Some(i)
    ensures var dc' := dc.(version := v, groups := dc.groups[i := dc.groups[i].(services := ss)]);
      Lookup(dc', k) ==
        if k.group != dc.groups[i].name then Lookup(dc, k)
        else match ServiceAt(ss, k.node, k.name) case None => None case Some(j) => Some(ss[j])
  {
    var gs, gs' := dc.groups, dc.groups[i := dc.groups[i].(services := ss)];
    assert forall j :: 0 <= j < |gs| ==> gs'[j].name == gs[j].name;
    assert GroupAt(gs', k.group) == GroupAt(gs, k.group);
  }

  lemma {:induction false} UniqueAfterEdit(dc: DynamicConfig, i: nat, ss: seq<Service>, v: nat)
    requires Unique(dc) && i < |dc.groups| && UniqueServices(ss)
    ensures Unique(dc.(version := v, groups := dc.groups[i := dc.groups[i].(services := ss)]))
  {
  }

  /** Upsert is a map update. */
  lemma {:induction false} UpsertRefines(dc: DynamicConfig, group: string, svc: Service)
    requires Unique(dc)
    ensures Unique(Upsert(dc, group, svc))
    ensures AsMap(Upsert(dc, group, svc)) == AsMap(dc)[Key(group, svc.nodeId, svc.name) := svc]
    ensures Upsert(dc, group, svc).version == dc.version + 1
    ensures Upsert(dc, group, svc).routes == dc.routes
  {
    var dc', key := Upsert(dc, group, svc), Key(group, svc.nodeId, svc.name);
    forall k
      ensures Lookup(dc', k) == if k == key then Some(svc) else Lookup(dc, k)
    {
      UpsertLookup(dc, group, svc, k);
    }
    forall k
      ensures Lookup(dc', k) == if k in AsMap(dc)[key := svc] then Some(AsMap(dc)[key := svc][k]) else None
    {
      LookupIsMember(dc, k);
    }
    SameAnswers(dc', AsMap(dc)[key := svc]);
    UpsertUnique(dc, group, svc);
  }

  lemma {:induction false} UpsertLookup(dc: DynamicConfig, group: string, svc: Service, k: Key)
    ensures Lookup(Upsert(dc, group, svc), k) ==
      if k == Key(group, svc.nodeId, svc.name) then Some(svc) else Lookup(dc, k)
  {
    var gs := dc.groups;
    match GroupAt(gs, group)
    case None =>
      var gs' := gs + [Group(group, [svc])];
      if k.group == group {
        assert GroupAt(gs', group) == Some(|gs|);
        assert gs'[|gs|].services == [svc];
      } else {
        assert forall j :: 0 <= j < |gs| ==> gs'[j] == gs[j];
        assert GroupAt(gs', k.group) == GroupAt(gs, k.group);
      }
    case Some(i) =>
      var ss := gs[i].services;
      var ss' := match ServiceAt(ss, svc.nodeId, svc.name) case None => ss + [svc] case Some(j) => ss[j := svc];
      LookupAfterEdit(dc, i, ss', dc.version + 1, k);
      PutAnswers(ss, svc, k.node, k.name);
  }

  function Answer(ss: seq<Service>, node: NodeId, name: string): Option<Service>
  {
    match ServiceAt(ss, node, name) case None => None case Some(j) => Some(ss[j])
  }

  lemma {:induction false} PutAnswers(ss: seq<Service>, svc: Service, node: NodeId, name: string)
    ensures var ss' := match ServiceAt(ss, svc.nodeId, svc.name) case None => ss + [svc] case Some(j) => ss[j := svc];
      Answer(ss', node, name) == if Is(svc, node, name) then Some(svc) else Answer(ss, node, name)
  {
    match ServiceAt(ss, svc.nodeId, svc.name)
    case None =>
      var ss' := ss + [svc];
      assert forall j :: 0 <= j < |ss| ==> ss'[j] == ss[j];
      assert ss'[|ss|] == svc;
      if !Is(svc, node, name) {
        assert ServiceAt(ss', node, name) == ServiceAt(ss, node, name);
      }
    case Some(j) =>
      var ss' := ss[j := svc];
      assert forall l :: 0 <= l < |ss| ==> Is(ss'[l], node, name) == Is(ss[l], node, name);
      assert ServiceAt(ss', node, name) == ServiceAt(ss, node, name);
  }

  lemma {:induction false} UpsertUnique(dc: DynamicConfig, group: string, svc: Service)
    requires Unique(dc)
    ensures Unique(Upsert(dc, group, svc))
  {
    match GroupAt(dc.groups, group)
    case None =>
    case Some(i) =>
      var ss := dc.groups[i].services;
      match ServiceAt(ss, svc.nodeId, svc.name)
      case None => UniqueAfterEdit(dc, i, ss + [svc], dc.version + 1);
      case Some(j) => UniqueAfterEdit(dc, i, ss[j := svc], dc.version + 1);
  }

  lemma {:induction false} RemoveEdits(dc: DynamicConfig, group: string, node: NodeId, name: string)
    ensures var r := Remove(dc, group, node, name);
      r.Ok? <==> Lookup(dc, Key(group, node, name)).Some?
  {
    match GroupAt(dc.groups, group)
    case None =>
    case Some(i) =>
      var ss := dc.groups[i].services;
      WithoutLength(ss, node, name);
      if ServiceAt(ss, node, name).Some? {
        assert Is(ss[ServiceAt(ss, node, name).value], node, name);
      }
  }

  lemma {:induction false} RemoveLookup(dc: DynamicConfig, group: string, node: NodeId, name: string, k: Key)
    requires Remove(dc, group, node, name).Ok?
    ensures Lookup(Remove(dc, group, node, name).config, k) ==
      if k == Key(group, node, name) then None else Lookup(dc, k)
  {
    var i := GroupAt(dc.groups, group).value;
    var ss := dc.groups[i].services;
    LookupAfterEdit(dc, i, Without(ss, node, name), dc.version + 1, k);
    DropAnswers(ss, node, name, k.node, k.name);
  }

  lemma {:induction false} RemoveUnique(dc: DynamicConfig, group: string, node: NodeId, name: string)
    requires Unique(dc) && Remove(dc, group, node, name).Ok?
    ensures Unique(Remove(dc, group, node, name).config)
  {
    var i := GroupAt(dc.groups, group).value;
    var ss := dc.groups[i].services;
    WithoutUnique(ss, node, name);
    UniqueAfterEdit(dc, i, Without(ss, node, name), dc.version + 1);
  }

  /** Upsert leaves every group and service where it was: it replaces the service
      in its place, or adds it, and its group, at the end. */
  lemma {:induction false} UpsertInPlace(dc: DynamicConfig, group: string, svc: Service, i: nat)
    requires Unique(dc) && i < |dc.groups|
    ensures var gs, gs' := dc.groups, Upsert(dc, group, svc).groups;
      && |gs| <= |gs'| <= |gs| + 1 && gs'[i].name == gs[i].name
      && (gs[i].name != group ==> gs'[i] == gs[i])
      && (gs[i].name == group ==>
            && |gs'| == |gs| && |gs[i].services| <= |gs'[i].services| <= |gs[i].services| + 1
            && forall j :: 0 <= j < |gs[i].services| ==>
                 gs'[i].services[j] == if Is(gs[i].services[j], svc.nodeId, svc.name) then svc else gs[i].services[j])
  {
    if gs :| GroupAt(dc.groups, group) == Some(gs) {
      assert UniqueServices(dc.groups[gs].services);
    }
  }

  /** Remove is a map removal; it fails exactly when the key is absent, and a
      missing group is told apart from a missing service. */
  lemma {:induction false} RemoveRefines(dc: DynamicConfig, group: string, node: NodeId, name: string)
    requires Unique(dc)
    ensures var r, key := Remove(dc, group, node, name), Key(group, node, name);
      && (r.Ok? <==> key in AsMap(dc))
      && (r.Ok? ==>
            && Unique(r.config) && AsMap(r.config) == AsMap(dc) - {key}
            && r.config.version == dc.version + 1 && r.config.routes == dc.routes)
      && (r.Err? ==>
            r.error == if GroupAt(dc.groups, group).None? then GroupNotFound(group)
                       else ServiceNotFound(group, node, name))
  {
    var key, r := Key(group, node, name), Remove(dc, group, node, name);
    LookupIsMember(dc, key);
    RemoveEdits(dc, group, node, name);
    if r.Ok? {
      RemoveUnique(dc, group, node, name);
      var m := AsMap(dc) - {key};
      forall k
        ensures Lookup(r.config, k) == if k in m then Some(m[k]) else None
      {
        RemoveLookup(dc, group, node, name, k);
        LookupIsMember(dc, k);
      }
      SameAnswers(r.config, m);
    }
  }

  lemma {:induction false} WithoutSnoc(ss: seq<Service>, node: NodeId, name: string)
    requires ss != []
    ensures var n := |ss| - 1;
      Without(ss, node, name) == Without(ss[..n], node, name) + (if Is(ss[n], node, name) then [] else [ss[n]])
  {
  }

  lemma {:induction false} WithoutLength(ss: seq<Service>, node: NodeId, name: string)
    ensures |Without(ss, node, name)| == |ss| <==> forall i :: 0 <= i < |ss| ==> !Is(ss[i], node, name)
  {
    if ss != [] {
      var n := |ss| - 1;
      WithoutLength(ss[..n], node, name);
      assert forall i :: 0 <= i < n ==> ss[..n][i] == ss[i];
    }
  }

  lemma {:induction false} WithoutUnique(ss: seq<Service>, node: NodeId, name: string)
    requires UniqueServices(ss)
    ensures UniqueServices(Without(ss, node, name))
  {
    if ss != [] {
      var n := |ss| - 1;
      WithoutUnique(ss[..n], node, name);
      var f := Without(ss[..n], node, name);
      assert forall i :: 0 <= i < |f| ==> f[i] in f;
    }
  }

  lemma {:induction false} DropAnswers(ss: seq<Service>, node: NodeId, name: string, node': NodeId, name': string)
    ensures Answer(Without(ss, node, name), node', name') ==
      if node' == node && name' == name then None else Answer(ss, node', name')
  {
    hide Answer, ServiceAt, Without;
    if ss == [] {
      AnswerOfNone(node', name');
      WithoutOfNone(node, name);
    } else {
      var n := |ss| - 1;
      DropAnswers(ss[..n], node, name, node', name');
      WithoutSnoc(ss, node, name);
      AnswerSnoc(ss[..n], ss[n], node', name');
      assert ss == ss[..n] + [ss[n]];
      AnswerSnoc(Without(ss[..n], node, name), ss[n], node', name');
      if Is(ss[n], node, name) {
        assert Without(ss, node, name) == Without(ss[..n], node, name);
      }
    }
  }

  lemma {:induction false} WithoutOfNone(node: NodeId, name: string)
    ensures Without([], node, name) == []
  {
  }

  lemma {:induction false} AnswerOfNone(node: NodeId, name: string)
    ensures Answer([], node, name) == None
  {
  }

  lemma {:induction false} AnswerSnoc(ss: seq<Service>, s: Service, node: NodeId, name: string)
    ensures Answer(ss + [s], node, name) ==
      if Answer(ss, node, name).Some? then Answer(ss, node, name)
      else if Is(s, node, name) then Some(s) else None
  {
    var t := ss + [s];
    assert t[..|ss|] == ss;
  }

  lemma {:induction false} RenameLookup(dc: DynamicConfig, group: string, node: NodeId, from: string, to: string, k: Key)
    requires Unique(dc) && Rename(dc, group, node, from, to).Ok?
    ensures Lookup(dc, Key(group, node, from)).Some?
    ensures Lookup(Rename(dc, group, node, from, to).config, k) ==
      if k == Key(group, node, to) then Some(Lookup(dc, Key(group, node, from)).value.(name := to))
      else if k == Key(group, node, from) then None
      else Lookup(dc, k)
  {
    var i := GroupAt(dc.groups, group).value;
    var ss := dc.groups[i].services;
    var j := ServiceAt(ss, node, from).value;
    assert UniqueServices(ss);
    LookupAfterEdit(dc, i, ss[j := ss[j].(name := to)], dc.version + 1, k);
    MoveAnswers(ss, j, node, from, to, k.node, k.name);
  }

  lemma {:induction false} RenameUnique(dc: DynamicConfig, group: string, node: NodeId, from: string, to: string)
    requires Unique(dc) && Rename(dc, group, node, from, to).Ok?
    ensures Unique(Rename(dc, group, node, from, to).config)
  {
    var i := GroupAt(dc.groups, group).value;
    var ss := dc.groups[i].services;
    var j := ServiceAt(ss, node, from).value;
    var ss' := ss[j := ss[j].(name := to)];
    assert UniqueServices(ss);
    forall p, q | 0 <= p < q < |ss'|
      ensures !Is(ss'[q], ss'[p].nodeId, ss'[p].name)
    {
      assert !Is(ss[q], ss[p].nodeId, ss[p].name);
      assert !Is(ss[q], node, to) && !Is(ss[p], node, to);
    }
    UniqueAfterEdit(dc, i, ss', dc.version + 1);
  }

  /** Rename moves one entry of the map to its new key, keeping the rest of the
      service; it fails, in this order of precedence, when the group is missing,
      the new key is taken, or the old key is absent. */
  lemma {:induction false} RenameRefines(dc: DynamicConfig, group: string, node: NodeId, from: string, to: string)
    requires Unique(dc)
    ensures var r, a, b, m := Rename(dc, group, node, from, to), Key(group, node, from), Key(group, node, to), AsMap(dc);
      && (r.Ok? <==> a in m && b !in m)
      && (r.Ok? ==>
            && Unique(r.config) && AsMap(r.config) == (m - {a})[b := m[a].(name := to)]
            && r.config.version == dc.version + 1 && r.config.routes == dc.routes)
      && (r.Err? ==>
            r.error == if GroupAt(dc.groups, group).None? then GroupNotFound(group)
                       else if b in m then DuplicateService(group, node, to)
                       else ServiceNotFound(group, node, from))
  {
    var r, a, b, m := Rename(dc, group, node, from, to), Key(group, node, from), Key(group, node, to), AsMap(dc);
    LookupIsMember(dc, a);
    LookupIsMember(dc, b);
    if r.Ok? {
      RenameUnique(dc, group, node, from, to);
      RenameLookup(dc, group, node, from, to, a);
      var m' := (m - {a})[b := m[a].(name := to)];
      forall k
        ensures Lookup(r.config, k) == if k in m' then Some(m'[k]) else None
      {
        RenameLookup(dc, group, node, from, to, k);
        LookupIsMember(dc, k);
      }
      SameAnswers(r.config, m');
    }
  }

  lemma {:induction false} MoveAnswers(ss: seq<Service>, j: nat, node: NodeId, from: string, to: string, node': NodeId, name': string)
    requires UniqueServices(ss) && ServiceAt(ss, node, from) == Some(j) && ServiceAt(ss, node, to).None?
    ensures Answer(ss[j := ss[j].(name := to)], node', name') ==
      if node' == node && name' == to then Some(ss[j].(name := to))
      else if node' == node && name' == from then None
      else Answer(ss, node', name')
  {
    hide ServiceAt;
    var svc := ss[j].(name := to);
    var ss' := ss[j := svc];
    assert forall l :: 0 <= l < |ss| && l != j ==> ss'[l] == ss[l];
    if node' == node && name' == to {
      assert Is(ss'[j], node, to);
      assert forall l :: 0 <= l < j ==> !Is(ss[l], node, to);
    } else if node' == node && name' == from {
      assert to != from;
      forall l | 0 <= l < |ss|
        ensures !Is(ss'[l], node, from)
      {
        if l < j {
          assert !Is(ss[j], ss[l].nodeId, ss[l].name);
        } else if j < l {
          assert !Is(ss[l], ss[j].nodeId, ss[j].name);
        }
      }
    } else {
      assert forall l :: 0 <= l < |ss| ==> Is(ss'[l], node', name') == Is(ss[l], node', name');
    }
  }

  /** Answer of a mutation: the new version, or why nothing changed. */
  datatype Outcome = Done(version: nat) | Refused(error: MutateErr)

  ghost function Expected(before: DynamicConfig, r: Result): (DynamicConfig, Outcome)
  {
    match r
    case Ok(dc) => (dc, Done(dc.version))
    case Err(e) => (before, Refused(e))
  }

  /** The configuration a daemon edits in place. */
  class LiveConfig {
    var version: nat
    var groups: seq<Group>
    var routes: seq<Route>

    function Value(): DynamicConfig
      reads this
    {
      DynamicConfig(version, groups, routes)
    }

    constructor (dc: DynamicConfig)
      ensures Value() == dc
    {
      version, groups, routes := dc.version, dc.groups, dc.routes;
    }

    method UpsertService(group: string, svc: Service) returns (v: nat)
      modifies this
      ensures Value() == Upsert(old(Value()), group, svc)
      ensures v == version
    {
      match GroupAt(groups, group) {
        case None =>
          groups := groups + [Group(group, [svc])];
        case Some(i) =>
          var ss := groups[i].services;
          match ServiceAt(ss, svc.nodeId, svc.name) {
            case None => ss := ss + [svc];
            case Some(j) => ss := ss[j := svc];
          }
          groups := groups[i := groups[i].(services := ss)];
      }
      version := version + 1;
      v := version;
    }

    method RemoveService(group: string, node: NodeId, name: string) returns (out: Outcome)
      modifies this
      ensures (Value(), out) == Expected(old(Value()), Remove(old(Value()), group, node, name))
    {
      var at := GroupAt(groups, group);
      if at.None? {
        return Refused(GroupNotFound(group));
      }
      var ss := groups[at.value].services;
      var kept: seq<Service> := [];
      for k := 0 to |ss|
        invariant kept == Without(ss[..k], node, name)
      {
        assert ss[..k+1][..k] == ss[..k];
        if !Is(ss[k], node, name) {
          kept := kept + [ss[k]];
        }
      }
      assert ss[..|ss|] == ss;
      if |kept| == |ss| {
        return Refused(ServiceNotFound(group, node, name));
      }
      groups := groups[at.value := groups[at.value].(services := kept)];
      version := version + 1;
      out := Done(version);
    }

    method RenameService(group: string, node: NodeId, from: string, to: string) returns (out: Outcome)
      modifies this
      ensures (Value(), out) == Expected(old(Value()), Rename(old(Value()), group, node, from, to))
    {
      var at := GroupAt(groups, group);
      if at.None? {
        return Refused(GroupNotFound(group));
      }
      var ss := groups[at.value].services;
      if ServiceAt(ss, node, to).Some? {
        return Refused(DuplicateService(group, node, to));
      }
      var j := ServiceAt(ss, node, from);
      if j.None? {
        return Refused(ServiceNotFound(group, node, from));
      }
      ss := ss[j.value := ss[j.value].(name := to)];
      groups := groups[at.value := groups[at.value].(services := ss)];
      version := version + 1;
      out := Done(version);
    }

    method ReplaceRoutes(service: string, rs: seq<Route>) returns (out: Outcome)
      modifies this
      ensures (Value(), out) == Expected(old(Value()), SetRoutes(old(Value()), service, rs))
    {
      hide RouteTargetOk, RoutesOk, Others, FirstRouteOf;
      if rs != [] && !RouteTargetOk(Value(), service) {
        return Refused(Invalid);
      }
      if !RoutesOk(service, rs) {
        return Refused(Invalid);
      }
      var insertAt, kept := SeparateRoutes(routes, service);
      var at := if insertAt.None? then |kept| else Min(insertAt.value, |kept|);
      routes := kept[..at] + rs + kept[at..];
      version := version + 1;
      out := Done(version);
    }
  }

  lemma {:induction false} NextRoute(rs: seq<Route>, k: nat, service: string)
    requires k < |rs|
    ensures Others(rs[..k+1], service) ==
      Others(rs[..k], service) + (if rs[k].service == service then [] else [rs[k]])
    ensures FirstRouteOf(rs[..k+1], service) ==
      if FirstRouteOf(rs[..k], service).None? && rs[k].service == service then Some(k) else FirstRouteOf(rs[..k], service)
  {
    assert rs[..k+1][..k] == rs[..k];
  }

  /** The routes of other services, and where the first one of `service` was. */
  method SeparateRoutes(routes: seq<Route>, service: string) returns (insertAt: Option<nat>, kept: seq<Route>)
    ensures kept == Others(routes, service)
    ensures insertAt == FirstRouteOf(routes, service)
  {
    insertAt, kept := None, [];
    for k := 0 to |routes|
      invariant kept == Others(routes[..k], service)
      invariant insertAt == FirstRouteOf(routes[..k], service)
    {
      NextRoute(routes, k, service);
      if routes[k].service == service {
        if insertAt.None? {
          insertAt := Some(k);
        }
      } else {
        kept := kept + [routes[k]];
      }
    }
    assert routes[..|routes|] == routes;
  }
}
