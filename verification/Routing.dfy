/** L7 route selection: the first matching route, and one of its weighted
    instance subsets chosen by a random ticket. */
module Routing {
  import opened Common
  import opened Configs
  import opened Text

  // Matching a request

  datatype Request = Request(verb: string, path: string, headers: map<string, string>)

  function Lower(c: char): char
  {
    if 'A' <= c <= 'Z' then (c as int + 32) as char else c
  }

  function LowerCase(s: string): string
  {
    seq(|s|, i requires 0 <= i < |s| => Lower(s[i]))
  }

  predicate PathHasPrefix(path: string, prefix: string)
  {
    && prefix <= path
    && (|path| == |prefix|
        || (prefix != "" && prefix[|prefix|-1] == '/')
        || path[|prefix|] == '/')
  }

  /** `req.headers` maps lower-case names to readable values. */
  predicate Matches(m: RouteMatch, req: Request)
  {
    && (m.pathPrefix.Some? ==> PathHasPrefix(req.path, m.pathPrefix.value))
    && (m.verb.Some? ==> m.verb.value == req.verb)
    && (forall name :: name in m.headers ==>
          LowerCase(name) in req.headers && req.headers[LowerCase(name)] == m.headers[name])
  }

  /** Prefixes match on whole segments: a prefix without a final slash matches
      exactly the paths that begin with its segments... */
  lemma {:induction false} PrefixIsSegments(path: string, prefix: string)
    requires prefix == "" || prefix[|prefix|-1] != '/'
    ensures PathHasPrefix(path, prefix) <==> Split(prefix, '/') <= Split(path, '/')
  {
    PartsPrefix(prefix, path, '/');
  }

  /** ... and one with a final slash those that also go deeper. */
  lemma {:induction false} SlashPrefixIsDeeper(path: string, stem: string)
    ensures PathHasPrefix(path, stem + "/") <==> Split(stem, '/') < Split(path, '/')
  {
    PartsPrefix(stem, path, '/');
    var deeper := stem <= path && |path| > |stem| && path[|stem|] == '/';
    assert stem + "/" <= path <==> deeper;
    assert (stem + "/")[|stem|] == '/';
    if deeper {
      var rest := path[|stem|+1..];
      assert path == stem + "/" + rest;
      CountConcat(stem + "/", rest, '/');
      CountConcat(stem, "/", '/');
      assert Count("/", '/') == 1;
      SplitLength(stem, '/');
      SplitLength(path, '/');
    } else if Split(stem, '/') <= Split(path, '/') {
      assert path == stem;
    }
  }

  // When a request matches, in terms of its segments and header fields

  /** The path begins with the segments of the prefix and, if the prefix ends
      with a slash, goes deeper. */
  ghost predicate UnderPrefix(path: string, prefix: string)
  {
    if prefix != "" && prefix[|prefix|-1] == '/'
    then Split(prefix[..|prefix|-1], '/') < Split(path, '/')
    else Split(prefix, '/') <= Split(path, '/')
  }

  /** The same name, whatever the case of its letters. */
  ghost predicate SameName(a: string, b: string)
  {
    && |a| == |b|
    && forall i :: 0 <= i < |a| ==>
         || a[i] == b[i]
         || ('A' <= a[i] <= 'Z' && b[i] as int == a[i] as int + 32)
         || ('A' <= b[i] <= 'Z' && a[i] as int == b[i] as int + 32)
  }

  ghost predicate NoCapitals(s: string)
  {
    forall i :: 0 <= i < |s| ==> !('A' <= s[i] <= 'Z')
  }

  /** The names of a request's header fields are stored without capitals. */
  ghost predicate Normal(req: Request)
  {
    forall h :: h in req.headers ==> NoCapitals(h)
  }

  /** Some field of the request has this name, in any case, and this value. */
  ghost predicate Carries(req: Request, name: string, value: string)
  {
    exists h :: h in req.headers && SameName(name, h) && req.headers[h] == value
  }

  /** What a route asks of a request: all its conditions. */
  ghost predicate Fits(m: RouteMatch, req: Request)
  {
    && (m.pathPrefix.Some? ==> UnderPrefix(req.path, m.pathPrefix.value))
    && (m.verb.Some? ==> req.verb == m.verb.value)
    && (forall name :: name in m.headers ==> Carries(req, name, m.headers[name]))
  }

  lemma {:induction false} LowerIsSame(name: string)
    ensures SameName(name, LowerCase(name)) && NoCapitals(LowerCase(name))
  {
  }

  /** Only one name without capitals is the same as a given one. */
  lemma {:induction false} LowerIsOnly(name: string, h: string)
    requires SameName(name, h) && NoCapitals(h)
    ensures h == LowerCase(name)
  {
    forall i | 0 <= i < |h|
      ensures h[i] == LowerCase(name)[i]
    {
      assert !('A' <= h[i] <= 'Z');
    }
  }

  lemma {:induction false} CarriesExactlyWhen(req: Request, name: string, value: string)
    requires Normal(req)
    ensures Carries(req, name, value) <==> LowerCase(name) in req.headers && req.headers[LowerCase(name)] == value
  {
    hide LowerCase, SameName, NoCapitals;
    LowerIsSame(name);
    if h :| h in req.headers && SameName(name, h) && req.headers[h] == value {
      LowerIsOnly(name, h);
    }
  }

  lemma {:induction false} UnderPrefixExactlyWhen(path: string, prefix: string)
    ensures PathHasPrefix(path, prefix) <==> UnderPrefix(path, prefix)
  {
    if prefix != "" && prefix[|prefix|-1] == '/' {
      assert prefix == prefix[..|prefix|-1] + "/";
      SlashPrefixIsDeeper(path, prefix[..|prefix|-1]);
    } else {
      PrefixIsSegments(path, prefix);
    }
  }

  /** A request matches exactly when its path lies under the prefix by whole
      segments, its method is the one asked for, and each listed header is there
      with exactly its value, whatever the case of the listed name. */
  lemma {:induction false} MatchesExactlyWhen(m: RouteMatch, req: Request)
    requires Normal(req)
    ensures Matches(m, req) <==> Fits(m, req)
  {
    hide PathHasPrefix, UnderPrefix, Carries, LowerCase, Normal;
    if m.pathPrefix.Some? {
      UnderPrefixExactlyWhen(req.path, m.pathPrefix.value);
    }
    forall name | name in m.headers
      ensures Carries(req, name, m.headers[name]) <==>
        LowerCase(name) in req.headers && req.headers[LowerCase(name)] == m.headers[name]
    {
      CarriesExactlyWhen(req, name, m.headers[name]);
    }
  }

  function FirstMatch(routes: seq<Route>, req: Request): (r: Option<nat>)
    ensures r.Some? ==> r.value < |routes| && Matches(routes[r.value].matches, req)
    ensures r.Some? ==> forall j :: 0 <= j < r.value ==> !Matches(routes[j].matches, req)
    ensures r.None? ==> forall j :: 0 <= j < |routes| ==> !Matches(routes[j].matches, req)
  {
    Find(routes, (r: Route) => Matches(r.matches, req))
  }

  // Choosing a subset

  function TotalWeight(bs: seq<RouteBackend>): nat
  {
    if bs == [] then 0 else bs[0].weight + TotalWeight(bs[1..])
  }

  /** Scan with a running ticket; `None` when the ticket outruns the weights. */
  function SubsetFor(bs: seq<RouteBackend>, ticket: nat): (r: Option<nat>)
    ensures r.Some? ==> r.value < |bs|
  {
    if bs == [] then None
    else if ticket < bs[0].weight then Some(0)
    else
      match SubsetFor(bs[1..], ticket - bs[0].weight)
      case None => None
      case Some(i) => Some(i + 1)
  }

  datatype RoutedTo = RoutedTo(route: nat, subset: nat, labels: map<string, string>)

  /** The subset a request goes to, `ticket` being the random draw. */
  function SelectRoute(routes: seq<Route>, req: Request, ticket: nat): Option<RoutedTo>
    requires forall i :: 0 <= i < |routes| ==> routes[i].backends != []
  {
    match FirstMatch(routes, req)
    case None => None
    case Some(i) =>
      var bs := routes[i].backends;
      var b := match SubsetFor(bs, ticket) case Some(b) => b case None => 0;
      Some(RoutedTo(i, b, bs[b].labels))
  }

  /** The selected route fits the request and no earlier one does; none is
      selected exactly when none fits. */
  lemma {:induction false} SelectedExactlyWhen(routes: seq<Route>, req: Request, ticket: nat)
    requires Normal(req) && forall i :: 0 <= i < |routes| ==> routes[i].backends != []
    ensures match SelectRoute(routes, req, ticket)
      case None => forall j :: 0 <= j < |routes| ==> !Fits(routes[j].matches, req)
      case Some(r) =>
        && r.route < |routes| && Fits(routes[r.route].matches, req)
        && (forall j :: 0 <= j < r.route ==> !Fits(routes[j].matches, req))
        && r.subset < |routes[r.route].backends| && r.labels == routes[r.route].backends[r.subset].labels
  {
    hide Matches, Fits, SubsetFor, Normal;
    forall j | 0 <= j < |routes|
      ensures Matches(routes[j].matches, req) <==> Fits(routes[j].matches, req)
    {
      MatchesExactlyWhen(routes[j].matches, req);
    }
  }

  /** Total weight of the first `i` subsets. */
  function Before(bs: seq<RouteBackend>, i: nat): nat
    requires i <= |bs|
  {
    if i == 0 then 0 else bs[0].weight + Before(bs[1..], i - 1)
  }

  lemma {:induction false} BeforeAll(bs: seq<RouteBackend>, i: nat)
    requires i <= |bs|
    ensures Before(bs, |bs|) == TotalWeight(bs)
    ensures Before(bs, i) <= TotalWeight(bs)
    ensures i < |bs| ==> Before(bs, i + 1) == Before(bs, i) + bs[i].weight <= TotalWeight(bs)
  {
    if bs != [] {
      BeforeAll(bs[1..], if i == 0 then 0 else i - 1);
    }
  }

  /** A subset is chosen by exactly the tickets in its own interval. */
  lemma {:induction false} SubsetInterval(bs: seq<RouteBackend>, ticket: nat, i: nat)
    requires i < |bs|
    ensures SubsetFor(bs, ticket) == Some(i) <==> Before(bs, i) <= ticket < Before(bs, i) + bs[i].weight
  {
    if i > 0 {
      if ticket >= bs[0].weight {
        SubsetInterval(bs[1..], ticket - bs[0].weight, i - 1);
      }
    }
  }

  lemma {:induction false} SubsetMissing(bs: seq<RouteBackend>, ticket: nat)
    ensures SubsetFor(bs, ticket).None? <==> ticket >= TotalWeight(bs)
  {
    if bs != [] {
      if ticket >= bs[0].weight {
        SubsetMissing(bs[1..], ticket - bs[0].weight);
      }
    }
  }

  function Interval(a: nat, n: nat): (r: set<nat>)
    ensures |r| == n
    ensures forall t: nat :: t in r <==> a <= t < a + n
  {
    if n == 0 then {} else Interval(a, n - 1) + {a + n - 1}
  }

  /** The tickets of a draw that select subset `i`. */
  function Tickets(bs: seq<RouteBackend>, i: nat): set<nat>
  {
    set t: nat | t < TotalWeight(bs) && SubsetFor(bs, t) == Some(i)
  }

  /** Weighted choice: each subset is chosen by exactly `weight` of the tickets
      `0..total`, so a subset of weight 0 never is. */
  lemma {:induction false} SubsetShare(bs: seq<RouteBackend>, i: nat)
    requires i < |bs|
    ensures |Tickets(bs, i)| == bs[i].weight
  {
    hide SubsetFor, TotalWeight, Before;
    BeforeAll(bs, i);
    var a := Before(bs, i);
    forall t: nat
      ensures t in Tickets(bs, i) <==> t in Interval(a, bs[i].weight)
    {
      SubsetInterval(bs, t, i);
    }
    assert Tickets(bs, i) == Interval(a, bs[i].weight);
  }

  lemma {:induction false} SomeWeight(bs: seq<RouteBackend>, i: nat)
    requires i < |bs|
    ensures TotalWeight(bs) >= bs[i].weight
  {
    if i > 0 {
      SomeWeight(bs[1..], i - 1);
    }
  }

  /** For validated routes there is a ticket to draw, the first match decides,
      and the fallback to the first subset is never what a ticket selects. */
  lemma {:induction false} ValidatedChoice(service: string, routes: seq<Route>, req: Request, ticket: nat)
    requires RoutesOk(service, routes) && FirstMatch(routes, req).Some?
    requires ticket < TotalWeight(routes[FirstMatch(routes, req).value].backends)
    ensures var i := FirstMatch(routes, req).value;
      var bs := routes[i].backends;
      && SubsetFor(bs, ticket).Some?
      && bs[SubsetFor(bs, ticket).value].weight > 0
      && (forall k :: 0 <= k < |routes| ==> RouteOk(service, routes[k]))
      && SelectRoute(routes, req, ticket) ==
         Some(RoutedTo(i, SubsetFor(bs, ticket).value, bs[SubsetFor(bs, ticket).value].labels))
  {
    var bs := routes[FirstMatch(routes, req).value].backends;
    SubsetMissing(bs, ticket);
    SubsetInterval(bs, ticket, SubsetFor(bs, ticket).value);
  }

  /** Validation guarantees a draw: the total weight is positive. */
  lemma {:induction false} ValidatedTotal(service: string, r: Route)
    requires RouteOk(service, r)
    ensures TotalWeight(r.backends) > 0
  {
    var i :| 0 <= i < |r.backends| && r.backends[i].weight != 0;
    SomeWeight(r.backends, i);
  }
}
