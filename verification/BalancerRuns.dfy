/** Whole runs of a balancer: any interleaving of picks, dropped slots, tunnel
    results and membership changes, starting from a fresh balancer. */
module BalancerRuns {
  import opened Common
  import opened Ejection
  import opened Balancing
  import RR = RoundRobin

  datatype Event =
    | Picked(cs: seq<Backend>, tried: seq<NodeId>, now: Instant)
    | Released(id: NodeId)
    | Succeeded(id: NodeId)
    | Failed(id: NodeId, now: Instant)
    | Retained(all: seq<Backend>)

  /** The balancer together with the slots that are really held. */
  datatype World = World(st: State, live: multiset<NodeId>)

  const START: World := World(FRESH, multiset{})

  /** The node taken by this event: none or one. */
  function Takes(st: State, e: Event): seq<NodeId>
  {
    match e
    case Picked(cs, tried, now) =>
      var p := PickStep(st, cs, tried, now).0;
      if p.Chosen? then [cs[p.index].id] else []
    case _ => []
  }

  function Step(w: World, e: Event): World
  {
    match e
    case Picked(cs, tried, now) =>
      World(PickStep(w.st, cs, tried, now).1, w.live + multiset(Takes(w.st, e)))
    case Released(id) => World(ReleaseStep(w.st, id), w.live - multiset{id})
    case Succeeded(id) => w.(st := SuccessStep(w.st, id))
    case Failed(id, now) => w.(st := FailureStep(w.st, id, now))
    case Retained(all) => w.(st := RetainStep(w.st, all))
  }

  function Run(es: seq<Event>): World
  {
    if es == [] then START else Step(Run(es[..|es|-1]), es[|es|-1])
  }

  /** The nodes taken during a run, in order. */
  function Picks(es: seq<Event>): seq<NodeId>
  {
    if es == [] then []
    else Picks(es[..|es|-1]) + Takes(Run(es[..|es|-1]).st, es[|es|-1])
  }

  /** Every event of the run satisfies `p` in the state it happens in. */
  ghost predicate Always(es: seq<Event>, p: (World, Event) -> bool)
  {
    es == [] || (Always(es[..|es|-1], p) && p(Run(es[..|es|-1]), es[|es|-1]))
  }

  // Slots

  /** Slots are values with one owner: only a held slot can be dropped. */
  predicate DropsHeld(w: World, e: Event)
  {
    e.Released? ==> e.id in w.live
  }

  lemma {:induction false} SlotStep(w: World, e: Event)
    requires Matches(w.st.active, w.live) && DropsHeld(w, e)
    ensures Matches(Step(w, e).st.active, Step(w, e).live)
  {
    hide Eligible, Open, Untried, Turn, Lead, Shares, HasRoom, Matches;
    match e
    case Picked(cs, tried, now) =>
      var r := PickStep(w.st, cs, tried, now);
      if r.0.Chosen? {
        var id := cs[r.0.index].id;
        MatchesAdd(w.st.active, w.live, id);
        assert multiset([id]) == multiset{id};
      } else {
        assert w.live + multiset(Takes(w.st, e)) == w.live;
      }
    case Released(id) => MatchesRemove(w.st, w.live, id);
    case _ =>
  }

  /** Slot conservation: in every run each count is exactly the number of
      slots held, so a drop always finds a positive count to decrement. */
  lemma {:induction false} SlotsConserved(es: seq<Event>)
    requires Always(es, DropsHeld)
    ensures Matches(Run(es).st.active, Run(es).live)
    ensures es != [] && es[|es|-1].Released? ==>
      var before, id := Run(es[..|es|-1]).st.active, es[|es|-1].id;
      && id in before && before[id] >= 1
      && Get(Run(es).st.active, id, 0) == before[id] - 1
  {
    if es != [] {
      SlotsConserved(es[..|es|-1]);
      SlotStep(Run(es[..|es|-1]), es[|es|-1]);
    }
  }

  /** Every offer of node `id` carries the limit `limit`. */
  predicate OffersAtMost(e: Event, id: NodeId, limit: nat)
  {
    e.Picked? ==> forall i :: 0 <= i < |e.cs| && e.cs[i].id == id ==> e.cs[i].maxConnections == Some(limit)
  }

  lemma {:induction false} CapStep(w: World, e: Event, id: NodeId, limit: nat)
    requires Matches(w.st.active, w.live)
    requires OffersAtMost(e, id, limit) && w.live[id] <= limit
    ensures Step(w, e).live[id] <= limit
  {
    hide Eligible, Open, Untried, Turn, Lead, Shares, Taken;
    match e
    case Picked(cs, tried, now) =>
      var r := PickStep(w.st, cs, tried, now);
      if r.0.Chosen? {
        PickedCanTake(w.st, cs, tried, now);
        assert multiset([cs[r.0.index].id])[id] == if cs[r.0.index].id == id then 1 else 0;
      }
    case _ =>
  }

  /** Hard cap: while a node is offered with one unchanging limit, the slots
      held on it never pass that limit, whatever else happens. */
  lemma {:induction false} HardCap(es: seq<Event>, id: NodeId, limit: nat)
    requires Always(es, DropsHeld)
    requires forall k :: 0 <= k < |es| ==> OffersAtMost(es[k], id, limit)
    ensures Run(es).live[id] <= limit
  {
    if es != [] {
      var rest := es[..|es|-1];
      HardCap(rest, id, limit);
      SlotsConserved(rest);
      CapStep(Run(rest), es[|es|-1], id, limit);
    }
  }

  /** ... and nobody is refused below it: in every run a pick is refused for
      capacity exactly when each untried candidate, and there is one, has a limit
      that the slots held on it have reached. */
  lemma {:induction false} RefusedExactlyWhenFull(es: seq<Event>, cs: seq<Backend>, tried: seq<NodeId>, now: Instant)
    requires Always(es, DropsHeld)
    ensures PickStep(Run(es).st, cs, tried, now).0.AtCapacity? <==>
      && (exists i :: 0 <= i < |cs| && cs[i].id !in tried)
      && (forall i :: 0 <= i < |cs| && cs[i].id !in tried ==>
            cs[i].maxConnections.Some? && Run(es).live[cs[i].id] >= cs[i].maxConnections.value)
  {
    hide PickStep, Matches, Run;
    SlotsConserved(es);
    FullExactlyWhen(Run(es).st, Run(es).live, cs, tried, now);
  }

  // Running weights

  /** A node that leaves is forgotten: if it returns it starts from 0, and those
      that stay keep their running weight. */
  lemma {:induction false} DepartedStartsOver(w: World, all: seq<Backend>, id: NodeId)
    ensures Get(Step(w, Retained(all)).st.current, id, 0) ==
      if exists i :: 0 <= i < |all| && all[i].id == id then Get(w.st.current, id, 0) else 0
    ensures Step(w, Retained(all)).st.active == w.st.active && Step(w, Retained(all)).live == w.live
  {
  }

  lemma {:induction false} GainSum(cur: map<NodeId, int>, es: seq<Share>)
    ensures MapSum(Gain(cur, es)) == MapSum(cur) + RR.Sum(WeightsOf(es))
  {
    if es != [] {
      var n := |es| - 1;
      GainSum(cur, es[..n]);
      assert WeightsOf(es)[..n] == WeightsOf(es[..n]);
      MapSumAdd(Gain(cur, es[..n]), es[n].id, es[n].weight);
    }
  }

  lemma {:induction false} TurnSum(cur: map<NodeId, int>, es: seq<Share>)
    requires es != []
    ensures MapSum(Turn(cur, es)) == MapSum(cur)
  {
    GainSum(cur, es);
    var g := Gain(cur, es);
    var id := es[Lead(cur, es).at].id;
    MapSumAdd(g, id, -RR.Sum(WeightsOf(es)));
  }

  /** The event forgets no running weight. */
  predicate ForgetsNothing(w: World, e: Event)
  {
    e.Retained? ==> forall id :: id in w.st.current ==> Hosts(e.all, id)
  }

  lemma {:induction false} SumStep(w: World, e: Event)
    requires ForgetsNothing(w, e)
    ensures MapSum(Step(w, e).st.current) == MapSum(w.st.current)
  {
    hide Eligible, Open, Untried, Turn, Lead, MapSum;
    match e
    case Picked(cs, tried, now) =>
      if PickStep(w.st, cs, tried, now).0.Chosen? {
        TurnSum(w.st.current, EligibleShares(w.st, cs, tried, now));
      }
    case Retained(all) =>
      assert Step(w, e).st.current == w.st.current;
    case _ =>
  }

  /** Over arbitrary candidate, tried and ejected sets the running weights sum
      to zero, as long as no entry is forgotten. */
  lemma {:induction false} WeightsSumToZero(es: seq<Event>)
    requires Always(es, ForgetsNothing)
    ensures MapSum(Run(es).st.current) == 0
  {
    hide Step, ForgetsNothing;
    if es != [] {
      var w, e := Run(es[..|es|-1]), es[|es|-1];
      WeightsSumToZero(es[..|es|-1]);
      SumStep(w, e);
    }
  }

  // Exact shares

  /** The running weights of `es`, as a vector. */
  function Vector(cur: map<NodeId, int>, es: seq<Share>): seq<int>
  {
    seq(|es|, k requires 0 <= k < |es| => Get(cur, es[k].id, 0))
  }

  ghost predicate Proper(es: seq<Share>)
  {
    && es != []
    && (forall k :: 0 <= k < |es| ==> es[k].weight >= 1)
    && (forall i, j :: 0 <= i < j < |es| ==> es[i].id != es[j].id)
  }

  lemma {:induction false} GainAt(cur: map<NodeId, int>, es: seq<Share>, id: NodeId)
    requires forall i, j :: 0 <= i < j < |es| ==> es[i].id != es[j].id
    ensures forall k :: 0 <= k < |es| && es[k].id == id ==> Get(Gain(cur, es), id, 0) == Get(cur, id, 0) + es[k].weight
    ensures (forall k :: 0 <= k < |es| ==> es[k].id != id) ==> Get(Gain(cur, es), id, 0) == Get(cur, id, 0)
  {
    if es != [] {
      GainAt(cur, es[..|es|-1], id);
    }
  }

  lemma {:induction false} LeadIsArgMax(cur: map<NodeId, int>, es: seq<Share>, g: seq<int>)
    requires es != [] && |g| == |es|
    requires forall i, j :: 0 <= i < j < |es| ==> es[i].id != es[j].id
    requires forall k :: 0 <= k < |es| ==> g[k] == Get(cur, es[k].id, 0) + es[k].weight
    ensures Lead(cur, es).at == RR.ArgMax(g)
    ensures Lead(cur, es).value == g[RR.ArgMax(g)]
  {
    hide Gain;
    var n := |es| - 1;
    assert Gain(cur, es)[es[n].id] == g[n] by {
      GainAt(cur, es, es[n].id);
    }
    if n > 0 {
      var best, j := Lead(cur, es[..n]), RR.ArgMax(g[..n]);
      assert best.at == j && best.value == g[j] by {
        LeadIsArgMax(cur, es[..n], g[..n]);
      }
      assert Lead(cur, es) == if g[n] > best.value then Leader(n, g[n]) else best;
      assert RR.ArgMax(g) == if g[n] > g[j] then n else j;
    }
  }

  lemma {:induction false} TurnAt(cur: map<NodeId, int>, es: seq<Share>, k: nat)
    requires Proper(es) && k < |es|
    ensures Get(Turn(cur, es), es[k].id, 0) ==
      Get(cur, es[k].id, 0) + es[k].weight - (if k == Lead(cur, es).at then RR.Sum(WeightsOf(es)) else 0)
  {
    hide Gain, Lead;
    GainAt(cur, es, es[k].id);
  }

  lemma {:induction false} LeadIsChoice(cur: map<NodeId, int>, es: seq<Share>)
    requires Proper(es)
    ensures Lead(cur, es).at == RR.Choice(Vector(cur, es), WeightsOf(es))
  {
    hide Lead, RR.ArgMax;
    LeadIsArgMax(cur, es, RR.Gained(Vector(cur, es), WeightsOf(es)));
  }

  /** One turn on the balancer's map is one spin of the weight vector. */
  lemma {:induction false} TurnIsSpin(cur: map<NodeId, int>, es: seq<Share>)
    requires Proper(es)
    ensures Lead(cur, es).at == RR.Choice(Vector(cur, es), WeightsOf(es))
    ensures Vector(Turn(cur, es), es) == RR.Spin(Vector(cur, es), WeightsOf(es))
  {
    var v, w := Vector(cur, es), WeightsOf(es);
    hide Lead, Turn, RR.Spin, RR.Choice;
    LeadIsChoice(cur, es);
    forall k | 0 <= k < |es|
      ensures Vector(Turn(cur, es), es)[k] == RR.Spin(v, w)[k]
    {
      TurnAt(cur, es, k);
      RR.SpinAt(v, w, k);
    }
  }

  /** The event keeps to a fixed eligible list: every pick that takes a node
      takes it from `es`, and no node of `es` is forgotten. */
  predicate KeepsTo(es: seq<Share>, w: World, e: Event)
  {
    match e
    case Picked(cs, tried, now) =>
      PickStep(w.st, cs, tried, now).0.Chosen? ==> EligibleShares(w.st, cs, tried, now) == es
    case Retained(all) => forall k :: 0 <= k < |es| ==> Hosts(all, es[k].id)
    case _ => true
  }

  /** Every event of the run keeps to `es`. */
  ghost predicate Steady(es: seq<Share>, evs: seq<Event>)
  {
    Always(evs, (w, e) => KeepsTo(es, w, e))
  }

  /** The reference round-robin moves from `cur` to `cur'` while `taken` goes
      out: nothing happens, or one spin. */
  ghost predicate Follows(es: seq<Share>, cur: map<NodeId, int>, taken: seq<NodeId>, cur': map<NodeId, int>)
  {
    var v, w := Vector(cur, es), WeightsOf(es);
    if taken == [] then Vector(cur', es) == v
    else Proper(es) && taken == [es[RR.Choice(v, w)].id] && Vector(cur', es) == RR.Spin(v, w)
  }

  /** The balancer stands where the reference round-robin stands after
      `picks`. */
  ghost predicate InStep(es: seq<Share>, picks: seq<NodeId>, cur: map<NodeId, int>)
  {
    && Proper(es)
    && Vector(cur, es) == RR.Running(WeightsOf(es), |picks|)
    && forall k :: 0 <= k < |picks| ==> picks[k] == es[RR.PickAt(WeightsOf(es), k)].id
  }

  lemma {:induction false} SteadyPick(st: State, cs: seq<Backend>, tried: seq<NodeId>, now: Instant, es: seq<Share>)
    requires Proper(es) && EligibleShares(st, cs, tried, now) == es
    requires PickStep(st, cs, tried, now).0.Chosen?
    ensures Follows(es, st.current, Takes(st, Picked(cs, tried, now)), PickStep(st, cs, tried, now).1.current)
  {
    hide Eligible, Open, Untried, Turn, Lead, RR.Spin, RR.Choice;
    TurnIsSpin(st.current, es);
  }

  lemma {:induction false} SteadyStep(w: World, e: Event, es: seq<Share>)
    requires Proper(es) && KeepsTo(es, w, e)
    ensures Follows(es, w.st.current, Takes(w.st, e), Step(w, e).st.current)
  {
    hide PickStep, EligibleShares, Follows, Proper;
    match e
    case Picked(cs, tried, now) =>
      if PickStep(w.st, cs, tried, now).0.Chosen? {
        SteadyPick(w.st, cs, tried, now, es);
      } else {
        PickExactlyWhen(w.st, cs, tried, now);
        Unmoved(es, w.st.current, Step(w, e).st.current);
      }
    case _ => Unmoved(es, w.st.current, Step(w, e).st.current);
  }

  lemma {:induction false} Unmoved(es: seq<Share>, cur: map<NodeId, int>, cur': map<NodeId, int>)
    requires forall k :: 0 <= k < |es| ==> Get(cur', es[k].id, 0) == Get(cur, es[k].id, 0)
    ensures Follows(es, cur, [], cur')
  {
  }

  lemma {:induction false} InStepGrows(es: seq<Share>, picks: seq<NodeId>, cur: map<NodeId, int>, taken: seq<NodeId>, cur': map<NodeId, int>)
    requires InStep(es, picks, cur) && Follows(es, cur, taken, cur')
    ensures InStep(es, picks + taken, cur')
  {
    hide RR.Spin, RR.Choice;
    if taken == [] {
      assert picks + taken == picks;
    }
  }

  lemma {:induction false} InStepAtFirst(es: seq<Share>)
    requires Proper(es)
    ensures InStep(es, [], map[])
  {
  }

  /** While the eligible list stays `es`, the balancer follows the reference
      round-robin pick by pick, whatever happens in between. */
  lemma {:induction false} SteadyRun(es: seq<Share>, evs: seq<Event>)
    requires Proper(es) && Steady(es, evs)
    ensures InStep(es, Picks(evs), Run(evs).st.current)
  {
    hide Step, Takes, KeepsTo, InStep, Follows, Proper;
    if evs == [] {
      InStepAtFirst(es);
    } else {
      var rest, e := evs[..|evs|-1], evs[|evs|-1];
      SteadyRun(es, rest);
      SteadyStep(Run(rest), e, es);
      InStepGrows(es, Picks(rest), Run(rest).st.current, Takes(Run(rest).st, e), Run(evs).st.current);
    }
  }

  lemma {:induction false} TakenIsCount(es: seq<Share>, picks: seq<NodeId>, i: nat, a: nat, b: nat)
    requires Proper(es) && i < |es| && a <= b <= |picks|
    requires forall k :: 0 <= k < |picks| ==> picks[k] == es[RR.PickAt(WeightsOf(es), k)].id
    ensures multiset(picks[a..b])[es[i].id] == RR.Taken(WeightsOf(es), i, a, b)
  {
    hide RR.PickAt;
    if a < b {
      TakenIsCount(es, picks, i, a, b - 1);
      assert picks[a..b] == picks[a..b-1] + [picks[b-1]];
      var j := RR.PickAt(WeightsOf(es), b - 1);
      assert es[j].id == es[i].id <==> i == j;
    }
  }

  lemma {:induction false} WindowOfPicks(es: seq<Share>, picks: seq<NodeId>, cur: map<NodeId, int>, a: nat, i: nat)
    requires InStep(es, picks, cur) && i < |es|
    requires a + RR.Total(WeightsOf(es)) <= |picks|
    ensures multiset(picks[a .. a + RR.Total(WeightsOf(es))])[es[i].id] == es[i].weight
  {
    hide RR.Taken, RR.PickAt, RR.Total, RR.Running, Vector;
    TakenIsCount(es, picks, i, a, a + RR.Total(WeightsOf(es)));
    RR.ExactWindow(WeightsOf(es), a, i);
  }

  /** Exact weighted share: while the eligible list stays `es`, any stretch of
      as many picks as the total weight takes each node exactly its weight. */
  lemma {:induction false} ExactShare(es: seq<Share>, evs: seq<Event>, a: nat, i: nat)
    requires Proper(es) && i < |es|
    requires Steady(es, evs)
    requires a + RR.Total(WeightsOf(es)) <= |Picks(evs)|
    ensures multiset(Picks(evs)[a .. a + RR.Total(WeightsOf(es))])[es[i].id] == es[i].weight
  {
    hide Picks, Run, Steady, InStep, Proper, RR.Total, WeightsOf;
    SteadyRun(es, evs);
    WindowOfPicks(es, Picks(evs), Run(evs).st.current, a, i);
  }

  /** ... and every whole cycle ends with all running weights back at zero. */
  lemma {:induction false} CyclesReturnToZero(es: seq<Share>, evs: seq<Event>, m: nat)
    requires Proper(es) && Steady(es, evs)
    requires |Picks(evs)| == m * RR.Total(WeightsOf(es))
    ensures forall k :: 0 <= k < |es| ==> Get(Run(evs).st.current, es[k].id, 0) == 0
  {
    hide Picks, Steady, Run, RR.Total;
    var w := WeightsOf(es);
    SteadyRun(es, evs);
    RR.CyclesEnd(w, m);
    var v := Vector(Run(evs).st.current, es);
    assert forall k :: 0 <= k < |es| ==> v[k] == Get(Run(evs).st.current, es[k].id, 0);
  }

  /** Bounded drift: a node's running weight is its unserved share of the `n`
      picks so far, and it never gets a full pick ahead. */
  lemma {:induction false} DriftOfRun(es: seq<Share>, evs: seq<Event>, i: nat)
    requires Proper(es) && i < |es|
    requires Steady(es, evs)
    ensures var t, n, k := RR.Total(WeightsOf(es)), |Picks(evs)|, multiset(Picks(evs))[es[i].id];
      && Get(Run(evs).st.current, es[i].id, 0) == n * es[i].weight - t * k
      && t * k < n * es[i].weight + t
  {
    hide Picks, Steady, Run, RR.Taken, RR.PickAt, RR.Total, RR.Running;
    var w, n := WeightsOf(es), |Picks(evs)|;
    SteadyRun(es, evs);
    TakenIsCount(es, Picks(evs), i, 0, n);
    assert Picks(evs)[0..n] == Picks(evs);
    RR.RunningIsDrift(w, n, i);
    RR.BoundedDrift(w, n, i);
    assert Vector(Run(evs).st.current, es)[i] == Get(Run(evs).st.current, es[i].id, 0);
  }

  // Ejection

  /** The event wipes the outlier state of `id`: a success, or a membership
      change that drops the node. */
  predicate Wipes(e: Event, id: NodeId)
  {
    e == Succeeded(id) || (e.Retained? && !Hosts(e.all, id))
  }

  /** Times of the failures of `id` since its last success or departure. */
  function FailuresOf(es: seq<Event>, id: NodeId): seq<Instant>
  {
    if es == [] then []
    else
      var rest, e := FailuresOf(es[..|es|-1], id), es[|es|-1];
      if Wipes(e, id) then []
      else if e.Failed? && e.id == id then rest + [e.now]
      else rest
  }

  lemma {:induction false} PickLeavesOutliers(st: State, cs: seq<Backend>, tried: seq<NodeId>, now: Instant)
    ensures PickStep(st, cs, tried, now).1.outliers == st.outliers
  {
    hide Eligible, Open, Untried, Turn, Lead, Shares;
  }

  lemma {:induction false} OutliersStep(w: World, e: Event, id: NodeId)
    ensures Get(Step(w, e).st.outliers, id, CLEAN) ==
      if Wipes(e, id) then CLEAN
      else if e.Failed? && e.id == id then Fail(Get(w.st.outliers, id, CLEAN), e.now).0
      else Get(w.st.outliers, id, CLEAN)
  {
    hide Eligible, Open, Untried, Turn, Lead, Shares, Fail, Hosts, Takes, PickStep;
    if e.Picked? {
      PickLeavesOutliers(w.st, e.cs, e.tried, e.now);
    }
  }

  /** In any run, the outlier state of `id` is that of its failures since it was
      last wiped: a success or a departure restarts the backoff, and nothing
      else does. */
  lemma {:induction false} OutlierFollowsFailures(es: seq<Event>, id: NodeId)
    ensures Get(Run(es).st.outliers, id, CLEAN) == After(FailuresOf(es, id))
  {
    hide Step, Fail, Wipes;
    if es != [] {
      var rest, e := es[..|es|-1], es[|es|-1];
      OutlierFollowsFailures(rest, id);
      OutliersStep(Run(rest), e, id);
      var ts := FailuresOf(rest, id);
      if e.Failed? && e.id == id {
        assert (ts + [e.now])[..|ts|] == ts;
      }
    }
  }

  /** In any run, a node is skipped as ejected exactly while the clock is inside
      one of the promised windows of its failures since it was last wiped. */
  lemma {:induction false} EjectedExactlyWhile(es: seq<Event>, id: NodeId, now: Instant)
    requires NonDecreasing(FailuresOf(es, id) + [now])
    ensures Ejected(Run(es).st.outliers, id, now) <==> Inside(Windows(FailuresOf(es, id)), now)
    ensures Lengths(Windows(FailuresOf(es, id))) && Disjoint(Windows(FailuresOf(es, id)))
  {
    hide Run, FailuresOf, After, Windows, Counted, Lengths, Disjoint, Inside;
    OutlierFollowsFailures(es, id);
    var ts := FailuresOf(es, id);
    var all := ts + [now];
    assert forall i, j :: 0 <= i < j < |ts| ==> ts[i] == all[i] <= all[j] == ts[j];
    assert ts != [] ==> ts[|ts|-1] == all[|ts|-1] <= all[|ts|];
    History(ts);
    assert StartedBy(Windows(ts), now);
    EjectedIsInside(After(ts), Windows(ts), Counted(ts), now);
  }
}
