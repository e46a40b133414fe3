/** What an administrator's request does to the configuration, said of the map
    of services and of the route index, and exactly when it is refused. */
module AdminEffects {
  import opened Common
  import opened Configs
  import opened Indexes
  import opened Replication

  /** A health path that can be sent as it is: it starts with a slash and has no
      white space, control or non-ASCII character. */
  ghost predicate Sendable(path: string)
  {
    && path != "" && path[0] == '/'
    && forall i :: 0 <= i < |path| ==> 32 < path[i] as int < 127
  }

  /** A character of a field name: visible, and no delimiter (section 5.6.2 of
      RFC 9110). */
  ghost predicate InToken(c: char)
  {
    && 32 < c as int < 127
    && c != '"' && c != '(' && c != ')' && c != ',' && c != '/' && c != ':' && c != ';' && c != '<' && c != '='
    && c != '>' && c != '?' && c != '@' && c != '[' && c != '\\' && c != ']' && c != '{' && c != '}'
  }

  ghost predicate IsToken(s: string)
  {
    s != "" && forall i :: 0 <= i < |s| ==> InToken(s[i])
  }

  ghost predicate IsCapitals(s: string)
  {
    s != "" && forall i :: 0 <= i < |s| ==> 'A' <= s[i] <= 'Z'
  }

  /** A route that can be installed for `service`. */
  ghost predicate Installable(service: string, r: Route)
  {
    && r.service == service
    && (exists i :: 0 <= i < |r.backends| && r.backends[i].weight > 0)
    && (r.matches.pathPrefix.Some? ==> "/" <= r.matches.pathPrefix.value)
    && (r.matches.verb.Some? ==> IsCapitals(r.matches.verb.value))
    && (forall name :: name in r.matches.headers ==> IsToken(name))
  }

  /** Some group lists an instance of the service. */
  ghost predicate Configured(dc: DynamicConfig, service: string)
  {
    exists i, j :: 0 <= i < |dc.groups| && 0 <= j < |dc.groups[i].services| && dc.groups[i].services[j].name == service
  }

  ghost predicate AllHttp(dc: DynamicConfig, service: string)
  {
    forall i, j :: 0 <= i < |dc.groups| && 0 <= j < |dc.groups[i].services| && dc.groups[i].services[j].name == service ==>
      dc.groups[i].services[j].protocol == Http
  }

  /** Routes are accepted for a configured service that is HTTP everywhere, and
      their removal always. */
  ghost predicate Acceptable(dc: DynamicConfig, service: string, rs: seq<Route>)
  {
    && (rs != [] ==> Configured(dc, service) && AllHttp(dc, service))
    && forall i :: 0 <= i < |rs| ==> Installable(service, rs[i])
  }

  ghost predicate GroupExists(dc: DynamicConfig, group: string)
  {
    exists i :: 0 <= i < |dc.groups| && dc.groups[i].name == group
  }

  /** The effect of `op` on `dc`, with outcome `r`. */
  ghost predicate Effect(dc: DynamicConfig, op: AdminOp, r: Result)
  {
    && (r.Ok? ==> Unique(r.config) && r.config.version == dc.version + 1)
    && match op
       case ServiceAdd(group, svc) =>
         && (r.Err? <==> svc.healthPath.Some? && !Sendable(svc.healthPath.value))
         && (r.Err? ==> r.error == Invalid)
         && (r.Ok? ==> r.config.routes == dc.routes
                       && AsMap(r.config) == AsMap(dc)[Key(group, svc.nodeId, svc.name) := svc])
       case ServiceRename(group, owner, from, to) =>
         var a, b := Key(group, owner, from), Key(group, owner, to);
         && (r.Ok? <==> a in AsMap(dc) && b !in AsMap(dc))
         && (r.Err? ==> r.error == if !GroupExists(dc, group) then GroupNotFound(group)
                                   else if b in AsMap(dc) then DuplicateService(group, owner, to)
                                   else ServiceNotFound(group, owner, from))
         && (r.Ok? ==> r.config.routes == dc.routes
                       && AsMap(r.config) == (AsMap(dc) - {a})[b := AsMap(dc)[a].(name := to)])
       case ServiceRemove(group, owner, name) =>
         var a := Key(group, owner, name);
         && (r.Ok? <==> a in AsMap(dc))
         && (r.Err? ==> r.error == if !GroupExists(dc, group) then GroupNotFound(group)
                                   else ServiceNotFound(group, owner, name))
         && (r.Ok? ==> r.config.routes == dc.routes && AsMap(r.config) == AsMap(dc) - {a})
       case RoutesSet(service, rs) =>
         && (r.Ok? <==> Acceptable(dc, service, rs))
         && (r.Err? ==> r.error == Invalid)
         && (r.Ok? ==> r.config.groups == dc.groups
                       && BuildRoutes(r.config) ==
                            if rs == [] then BuildRoutes(dc) - {service} else BuildRoutes(dc)[service := rs])
  }

  // Acceptance

  lemma {:induction false} SendableExactlyWhen(path: string)
    ensures HealthPathOk(path) <==> Sendable(path)
  {
    assert forall i :: 0 <= i < |path| ==> path[i] in path;
  }

  lemma {:induction false} TokenCharExactlyWhen(c: char)
    ensures TokenChar(c) <==> InToken(c)
  {
  }

  lemma {:induction false} TokenExactlyWhen(name: string)
    ensures HeaderNameOk(name) <==> IsToken(name)
  {
    hide TokenChar, InToken;
    forall i | 0 <= i < |name|
      ensures TokenChar(name[i]) <==> InToken(name[i])
    {
      TokenCharExactlyWhen(name[i]);
    }
    assert forall i :: 0 <= i < |name| ==> name[i] in name;
  }

  lemma {:induction false} CapitalsExactlyWhen(s: string)
    ensures (s != "" && forall c :: c in s ==> 'A' <= c <= 'Z') <==> IsCapitals(s)
  {
    assert forall i :: 0 <= i < |s| ==> s[i] in s;
  }

  lemma {:induction false} SlashFirst(p: string)
    ensures "/" <= p <==> p != "" && p[0] == '/'
  {
  }

  lemma {:induction false} InstallableExactlyWhen(service: string, r: Route)
    ensures RouteOk(service, r) <==> Installable(service, r)
  {
    hide HeaderNameOk, IsToken, IsCapitals;
    forall name | name in r.matches.headers
      ensures HeaderNameOk(name) <==> IsToken(name)
    {
      TokenExactlyWhen(name);
    }
    if r.matches.verb.Some? {
      CapitalsExactlyWhen(r.matches.verb.value);
    }
    if r.matches.pathPrefix.Some? {
      SlashFirst(r.matches.pathPrefix.value);
    }
  }

  lemma {:induction false} ListedServices(gs: seq<Group>, s: Service)
    ensures s in AllServices(gs) <==> exists i, j :: 0 <= i < |gs| && 0 <= j < |gs[i].services| && gs[i].services[j] == s
  {
    if gs != [] {
      var n := |gs| - 1;
      ListedServices(gs[..n], s);
      assert forall i :: 0 <= i < n ==> gs[..n][i] == gs[i];
      if s in gs[n].services {
        var j :| 0 <= j < |gs[n].services| && gs[n].services[j] == s;
      }
    }
  }

  lemma {:induction false} TargetExactlyWhen(dc: DynamicConfig, service: string)
    ensures RouteTargetOk(dc, service) <==> Configured(dc, service) && AllHttp(dc, service)
  {
    hide AllServices;
    var all := AllServices(dc.groups);
    var instances := Filter(all, (s: Service) => s.name == service);
    assert forall i :: 0 <= i < |instances| ==> instances[i] in instances;
    if Configured(dc, service) {
      var i, j :| 0 <= i < |dc.groups| && 0 <= j < |dc.groups[i].services| && dc.groups[i].services[j].name == service;
      ListedServices(dc.groups, dc.groups[i].services[j]);
      assert dc.groups[i].services[j] in instances;
    }
    if instances != [] {
      assert instances[0] in all;
      ListedServices(dc.groups, instances[0]);
    }
    if RouteTargetOk(dc, service) {
      forall i, j | 0 <= i < |dc.groups| && 0 <= j < |dc.groups[i].services| && dc.groups[i].services[j].name == service
        ensures dc.groups[i].services[j].protocol == Http
      {
        ListedServices(dc.groups, dc.groups[i].services[j]);
        assert dc.groups[i].services[j] in instances;
      }
    }
    if AllHttp(dc, service) {
      forall k | 0 <= k < |instances|
        ensures instances[k].protocol == Http
      {
        assert instances[k] in all;
        ListedServices(dc.groups, instances[k]);
      }
    }
  }

  /** Routes are accepted exactly when they are acceptable. */
  lemma {:induction false} RoutesAcceptedExactlyWhen(dc: DynamicConfig, service: string, rs: seq<Route>)
    ensures SetRoutes(dc, service, rs).Ok? <==> Acceptable(dc, service, rs)
  {
    hide RouteTargetOk, Configured, AllHttp, RouteOk, Installable, Others, FirstRouteOf;
    TargetExactlyWhen(dc, service);
    forall i | 0 <= i < |rs|
      ensures RouteOk(service, rs[i]) <==> Installable(service, rs[i])
    {
      InstallableExactlyWhen(service, rs[i]);
    }
  }

  // Effects

  lemma {:induction false} GroupFound(dc: DynamicConfig, group: string)
    ensures GroupAt(dc.groups, group).None? <==> !GroupExists(dc, group)
  {
  }

  lemma {:induction false} RoutesSetDoes(dc: DynamicConfig, service: string, rs: seq<Route>)
    requires Unique(dc)
    ensures Effect(dc, RoutesSet(service, rs), SetRoutes(dc, service, rs))
  {
    hide Acceptable, BuildRoutes, RouteTargetOk, RoutesOk, Others, FirstRouteOf, AsMap;
    RoutesAcceptedExactlyWhen(dc, service, rs);
    if SetRoutes(dc, service, rs).Ok? {
      SetRoutesChangesOneEntry(dc, service, rs);
    }
  }

  lemma {:induction false} ServiceAddDoes(dc: DynamicConfig, group: string, svc: Service)
    requires Unique(dc)
    ensures Effect(dc, ServiceAdd(group, svc), Mutate(dc, ServiceAdd(group, svc)))
  {
    hide AsMap, Unique, Upsert, Sendable, HealthPathOk;
    if svc.healthPath.Some? {
      SendableExactlyWhen(svc.healthPath.value);
    }
    UpsertRefines(dc, group, svc);
  }

  lemma {:induction false} ServiceRenameDoes(dc: DynamicConfig, group: string, owner: NodeId, from: string, to: string)
    requires Unique(dc)
    ensures Effect(dc, ServiceRename(group, owner, from, to), Mutate(dc, ServiceRename(group, owner, from, to)))
  {
    hide AsMap, Unique, Rename, GroupExists;
    GroupFound(dc, group);
    RenameRefines(dc, group, owner, from, to);
  }

  lemma {:induction false} ServiceRemoveDoes(dc: DynamicConfig, group: string, owner: NodeId, name: string)
    requires Unique(dc)
    ensures Effect(dc, ServiceRemove(group, owner, name), Mutate(dc, ServiceRemove(group, owner, name)))
  {
    hide AsMap, Unique, Remove, GroupExists;
    GroupFound(dc, group);
    RemoveRefines(dc, group, owner, name);
  }

  /** Every admin operation has exactly its effect on the map of services and the
      route index, or is refused for exactly its reasons. */
  lemma {:induction false} MutateDoes(dc: DynamicConfig, op: AdminOp)
    requires Unique(dc)
    ensures Effect(dc, op, Mutate(dc, op))
  {
    hide Effect, Unique;
    match op
    case ServiceAdd(group, svc) => ServiceAddDoes(dc, group, svc);
    case ServiceRename(group, owner, from, to) => ServiceRenameDoes(dc, group, owner, from, to);
    case ServiceRemove(group, owner, name) => ServiceRemoveDoes(dc, group, owner, name);
    case RoutesSet(service, rs) => RoutesSetDoes(dc, service, rs);
  }
}
