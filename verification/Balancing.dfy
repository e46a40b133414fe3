/** The per-service load balancer: which backend a pick takes, and what the
    balancer remembers between picks. */
module Balancing {
  import opened Common
  import opened Ejection
  import RR = RoundRobin

  datatype Backend = Backend(
    id: NodeId,
    weight: nat,
    maxConnections: Option<nat>,
    requestTimeout: Option<nat>,
    labels: map<string, string>)

  datatype Pick = Chosen(index: nat) | AllTried | AtCapacity

  /** The three maps behind the balancer's lock. */
  datatype State = State(
    current: map<NodeId, int>,
    outliers: map<NodeId, Outlier>,
    active: map<NodeId, nat>)

  const FRESH: State := State(map[], map[], map[])

  // The filters

  predicate HasRoom(active: map<NodeId, nat>, b: Backend)
  {
    b.maxConnections.None? || Get(active, b.id, 0) < b.maxConnections.value
  }

  predicate Ejected(outliers: map<NodeId, Outlier>, id: NodeId, now: Instant)
  {
    id in outliers && outliers[id].IsEjected(now)
  }

  function Indices(n: nat): (r: seq<nat>)
    ensures forall i: nat :: i in r <==> i < n
    ensures Distinct(r)
  {
    if n == 0 then []
    else
      var r := Indices(n - 1);
      assert forall i :: 0 <= i < |r| ==> r[i] in r;
      r + [n - 1]
  }

  function Untried(cs: seq<Backend>, tried: seq<NodeId>): (r: seq<nat>)
    ensures forall i: nat :: i in r <==> i < |cs| && cs[i].id !in tried
  {
    Filter(Indices(|cs|), (i: nat) => i < |cs| && cs[i].id !in tried)
  }

  predicate CanTake(active: map<NodeId, nat>, cs: seq<Backend>, tried: seq<NodeId>, i: nat)
  {
    && i < |cs| && cs[i].id !in tried
    && (cs[i].maxConnections.Some? ==> Get(active, cs[i].id, 0) < cs[i].maxConnections.value)
  }

  function Open(active: map<NodeId, nat>, cs: seq<Backend>, tried: seq<NodeId>): (r: seq<nat>)
    ensures forall i: nat :: i in r <==> CanTake(active, cs, tried, i)
  {
    Filter(Untried(cs, tried), (i: nat) => i < |cs| && HasRoom(active, cs[i]))
  }

  /** The elements of `s` satisfying `keep`, or all of `s` if none do. */
  function FailOpen(s: seq<nat>, keep: nat -> bool): (r: seq<nat>)
    ensures r == [] <==> s == []
    ensures forall i: nat :: i in r <==> i in s && (keep(i) || forall j: nat :: j in s ==> !keep(j))
  {
    var kept := Filter(s, keep);
    assert kept != [] ==> kept[0] in kept;
    assert kept == [] ==> forall j: nat :: j in s ==> !keep(j);
    if kept == [] then s else kept
  }

  function Undrained(active: map<NodeId, nat>, cs: seq<Backend>, tried: seq<NodeId>): seq<nat>
  {
    FailOpen(Open(active, cs, tried), (i: nat) => i < |cs| && cs[i].weight > 0)
  }

  function Eligible(st: State, cs: seq<Backend>, tried: seq<NodeId>, now: Instant): (r: seq<nat>)
    ensures forall k :: 0 <= k < |r| ==> CanTake(st.active, cs, tried, r[k])
    ensures r == [] <==> Open(st.active, cs, tried) == []
  {
    var r := FailOpen(Undrained(st.active, cs, tried),
                      (i: nat) => i < |cs| && !Ejected(st.outliers, cs[i].id, now));
    assert forall k :: 0 <= k < |r| ==> r[k] in r;
    r
  }

  ghost predicate AllDrained(active: map<NodeId, nat>, cs: seq<Backend>, tried: seq<NodeId>)
  {
    forall j: nat :: CanTake(active, cs, tried, j) ==> cs[j].weight == 0
  }

  lemma {:induction false} UndrainedExactlyWhen(active: map<NodeId, nat>, cs: seq<Backend>, tried: seq<NodeId>, i: nat)
    ensures i in Undrained(active, cs, tried) <==>
      CanTake(active, cs, tried, i) && (cs[i].weight > 0 || AllDrained(active, cs, tried))
  {
  }

  /** Filter contract: a candidate is eligible exactly when it is untried and
      below its limit, undrained unless all such candidates are drained, and
      not ejected unless all that remain are. */
  lemma {:induction false} EligibleExactlyWhen(st: State, cs: seq<Backend>, tried: seq<NodeId>, now: Instant, i: nat)
    ensures i in Eligible(st, cs, tried, now) <==>
      && CanTake(st.active, cs, tried, i)
      && (cs[i].weight > 0 || AllDrained(st.active, cs, tried))
      && (!Ejected(st.outliers, cs[i].id, now) ||
          forall j: nat :: CanTake(st.active, cs, tried, j) && (cs[j].weight > 0 || AllDrained(st.active, cs, tried))
             ==> Ejected(st.outliers, cs[j].id, now))
  {
    forall j: nat
      ensures j in Undrained(st.active, cs, tried) <==>
        CanTake(st.active, cs, tried, j) && (cs[j].weight > 0 || AllDrained(st.active, cs, tried))
    {
      UndrainedExactlyWhen(st.active, cs, tried, j);
    }
    hide Undrained, CanTake, AllDrained, Ejected;
  }

  // Smooth weighted round-robin over the eligible candidates

  datatype Share = Share(id: NodeId, weight: nat)

  /** Eligible candidates with their effective weights: a drained node only
      gets here when all are drained, and then counts as 1. */
  function Shares(cs: seq<Backend>, at: seq<nat>): (es: seq<Share>)
    requires forall k :: 0 <= k < |at| ==> at[k] < |cs|
    ensures |es| == |at|
    ensures forall k :: 0 <= k < |es| ==> es[k].weight >= 1 && es[k].id == cs[at[k]].id
  {
    seq(|at|, k requires 0 <= k < |at| =>
      var b := cs[at[k]]; Share(b.id, if b.weight >= 1 then b.weight else 1))
  }

  function EligibleShares(st: State, cs: seq<Backend>, tried: seq<NodeId>, now: Instant): seq<Share>
  {
    Shares(cs, Eligible(st, cs, tried, now))
  }

  function WeightsOf(es: seq<Share>): seq<nat>
  {
    seq(|es|, k requires 0 <= k < |es| => es[k].weight)
  }

  /** Running weights after every share gained its weight. */
  function Gain(cur: map<NodeId, int>, es: seq<Share>): (c: map<NodeId, int>)
    ensures forall k :: 0 <= k < |es| ==> es[k].id in c
  {
    if es == [] then cur
    else
      var e := es[|es|-1];
      var c := Gain(cur, es[..|es|-1]);
      c[e.id := Get(c, e.id, 0) + e.weight]
  }

  datatype Leader = Leader(at: nat, value: int)

  /** The first share to reach the highest running weight. */
  function Lead(cur: map<NodeId, int>, es: seq<Share>): (l: Leader)
    requires es != []
    ensures l.at < |es|
  {
    var n := |es| - 1;
    var v := Gain(cur, es)[es[n].id];
    if n == 0 then Leader(0, v)
    else
      var best := Lead(cur, es[..n]);
      if v > best.value then Leader(n, v) else best
  }

  /** Running weights after one turn: the leader pays the total back. */
  function Turn(cur: map<NodeId, int>, es: seq<Share>): map<NodeId, int>
    requires es != []
  {
    var g := Gain(cur, es);
    var id := es[Lead(cur, es).at].id;
    g[id := g[id] - RR.Sum(WeightsOf(es))]
  }

  // The operations

  function Taken(st: State, cs: seq<Backend>, tried: seq<NodeId>, now: Instant): (r: (nat, State))
    requires Eligible(st, cs, tried, now) != []
    ensures CanTake(st.active, cs, tried, r.0) && r.0 in Eligible(st, cs, tried, now)
  {
    var at := Eligible(st, cs, tried, now);
    var es := Shares(cs, at);
    var i := at[Lead(st.current, es).at];
    (i, st.(current := Turn(st.current, es),
            active := st.active[cs[i].id := Get(st.active, cs[i].id, 0) + 1]))
  }

  function PickStep(st: State, cs: seq<Backend>, tried: seq<NodeId>, now: Instant): (r: (Pick, State))
    ensures r.0.Chosen? ==> r.0.index < |cs|
  {
    if Untried(cs, tried) == [] then (AllTried, st)
    else if Open(st.active, cs, tried) == [] then (AtCapacity, st)
    else
      var (i, st') := Taken(st, cs, tried, now);
      (Chosen(i), st')
  }

  /** A pick is refused exactly when all candidates are tried or every untried
      one is at its limit; otherwise it takes an eligible one. */
  lemma {:induction false} PickExactlyWhen(st: State, cs: seq<Backend>, tried: seq<NodeId>, now: Instant)
    ensures var (p, st') := PickStep(st, cs, tried, now);
      && (p.AllTried? <==> forall i :: 0 <= i < |cs| ==> cs[i].id in tried)
      && (p.AtCapacity? <==>
            && (exists i :: 0 <= i < |cs| && cs[i].id !in tried)
            && (forall i :: 0 <= i < |cs| && cs[i].id !in tried ==>
                  cs[i].maxConnections.Some? && Get(st.active, cs[i].id, 0) >= cs[i].maxConnections.value))
      && (p.Chosen? ==> p.index in Eligible(st, cs, tried, now))
      && (!p.Chosen? ==> st' == st)
  {
    hide Eligible;
    assert Untried(cs, tried) != [] ==> Untried(cs, tried)[0] in Untried(cs, tried);
    assert Open(st.active, cs, tried) != [] ==> Open(st.active, cs, tried)[0] in Open(st.active, cs, tried);
  }

  /** A picked candidate was untried and had room. */
  lemma {:induction false} PickedCanTake(st: State, cs: seq<Backend>, tried: seq<NodeId>, now: Instant)
    requires PickStep(st, cs, tried, now).0.Chosen?
    ensures CanTake(st.active, cs, tried, PickStep(st, cs, tried, now).0.index)
  {
    hide Eligible;
  }

  function ReleaseStep(st: State, id: NodeId): State
  {
    if id !in st.active then st
    else if st.active[id] <= 1 then st.(active := st.active - {id})
    else st.(active := st.active[id := st.active[id] - 1])
  }

  predicate Hosts(all: seq<Backend>, id: NodeId)
  {
    exists i :: 0 <= i < |all| && all[i].id == id
  }

  function RetainStep(st: State, all: seq<Backend>): State
  {
    st.(current := map id | id in st.current && Hosts(all, id) :: st.current[id],
        outliers := map id | id in st.outliers && Hosts(all, id) :: st.outliers[id])
  }

  function SuccessStep(st: State, id: NodeId): State
  {
    if id in st.outliers then st.(outliers := st.outliers[id := CLEAN]) else st
  }

  function FailureStep(st: State, id: NodeId, now: Instant): State
  {
    st.(outliers := st.outliers[id := Fail(Get(st.outliers, id, CLEAN), now).0])
  }

  /** A slot count agrees with the slots that are really held. */
  ghost predicate Matches(active: map<NodeId, nat>, live: multiset<NodeId>)
  {
    && (forall id :: Get(active, id, 0) == live[id])
    && (forall id :: id in active ==> active[id] > 0)
  }

  lemma {:induction false} MatchesAdd(active: map<NodeId, nat>, live: multiset<NodeId>, id: NodeId)
    requires Matches(active, live)
    ensures Matches(active[id := Get(active, id, 0) + 1], live + multiset{id})
  {
  }

  lemma {:induction false} MatchesRemove(st: State, live: multiset<NodeId>, id: NodeId)
    requires Matches(st.active, live) && id in live
    ensures Matches(ReleaseStep(st, id).active, live - multiset{id})
  {
  }

  lemma {:induction false} ReleaseCounts(st: State, live: multiset<NodeId>, id: NodeId)
    requires Matches(st.active, live) && id in live
    ensures Get(ReleaseStep(st, id).active, id, 0) == Get(st.active, id, 0) - 1
  {
  }

  lemma {:induction false} MatchesAt(active: map<NodeId, nat>, live: multiset<NodeId>, id: NodeId)
    requires Matches(active, live)
    ensures Get(active, id, 0) == live[id]
    ensures id in active <==> id in live
  {
  }

  /** Counted in slots that are really held: a pick refuses for capacity exactly
      when some candidate is untried and each untried one has a limit that its
      held slots have reached. */
  lemma {:induction false} FullExactlyWhen(st: State, live: multiset<NodeId>, cs: seq<Backend>, tried: seq<NodeId>, now: Instant)
    requires Matches(st.active, live)
    ensures PickStep(st, cs, tried, now).0.AtCapacity? <==>
      && (exists i :: 0 <= i < |cs| && cs[i].id !in tried)
      && (forall i :: 0 <= i < |cs| && cs[i].id !in tried ==>
            cs[i].maxConnections.Some? && live[cs[i].id] >= cs[i].maxConnections.value)
    ensures PickStep(st, cs, tried, now).0.AllTried? <==> forall i :: 0 <= i < |cs| ==> cs[i].id in tried
  {
    hide PickStep;
    PickExactlyWhen(st, cs, tried, now);
  }

  lemma {:induction false} TakeFrom(a: multiset<NodeId>, b: multiset<NodeId>, id: NodeId)
    requires id in a
    ensures a - multiset{id} + b == a + b - multiset{id} == b + (a - multiset{id}) == b + a - multiset{id}
  {
  }

  lemma {:induction false} AddTo(a: multiset<NodeId>, b: multiset<NodeId>, id: NodeId)
    ensures a + multiset{id} + b == a + b + multiset{id} == a + (b + multiset{id})
    ensures (a + multiset{id})[id] == a[id] + 1
    ensures a + multiset{id} - multiset{id} == a
    ensures (a + b + multiset{id})[id] == (a + b)[id] + 1
  {
  }

  /** What a task does, learns or reports at the balancer's lock: the nodes it
      says host the service, the node a pick took, a refused pick with the slot
      counts it met, a tunnel that worked, or one that broke. */
  datatype Entry =
    | Kept(all: seq<Backend>)
    | Took(cs: seq<Backend>, tried: seq<NodeId>, now: Instant, id: NodeId)
    | TurnedAway(cs: seq<Backend>, tried: seq<NodeId>, now: Instant, active: map<NodeId, nat>)
    | Worked(id: NodeId)
    | Broke(id: NodeId, now: Instant)

  class Balancer {
    var current: map<NodeId, int>
    var outliers: map<NodeId, Outlier>
    var active: map<NodeId, nat>
    /** The connection slots handed out and not yet dropped: those held by one
        task under observation, and those of all other tasks. */
    ghost var mine: multiset<NodeId>
    ghost var rest: multiset<NodeId>
    /** The observed task's entries, in order. */
    ghost var diary: seq<Entry>

    ghost function St(): State
      reads this
    {
      State(current, outliers, active)
    }

    ghost predicate Valid()
      reads this`active, this`mine, this`rest
    {
      Matches(active, Live())
    }

    ghost function Live(): multiset<NodeId>
      reads this`mine, this`rest
    {
      mine + rest
    }

    constructor ()
      ensures Valid() && St() == FRESH && mine == rest == multiset{} && diary == []
    {
      current, outliers, active := map[], map[], map[];
      mine, rest, diary := multiset{}, multiset{}, [];
    }

    /** One turn of smooth weighted round-robin over `es`. */
    method TakeTurn(es: seq<Share>) returns (at: nat)
      requires es != []
      modifies this`current
      ensures at == Lead(old(current), es).at
      ensures current == Turn(old(current), es)
    {
      var total := 0;
      var best := Leader(0, 0);
      ghost var ws := WeightsOf(es);
      for k := 0 to |es|
        invariant total == RR.Sum(ws[..k])
        invariant current == Gain(old(current), es[..k])
        invariant k > 0 ==> best == Lead(old(current), es[..k])
      {
        assert es[..k+1][..k] == es[..k] && ws[..k+1][..k] == ws[..k];
        var cur := Get(current, es[k].id, 0) + es[k].weight;
        current := current[es[k].id := cur];
        total := total + es[k].weight;
        if k == 0 || cur > best.value {
          best := Leader(k, cur);
        }
      }
      assert es[..|es|] == es && ws[..|es|] == ws;
      at := best.at;
      var id := es[at].id;
      current := current[id := current[id] - total];
    }

    /** Pick a backend not in `tried` and reserve a slot on it, for the observed
        task (`own`) or for another one. */
    method PickBackend(cs: seq<Backend>, tried: seq<NodeId>, now: Instant, ghost own: bool) returns (p: Pick)
      requires Valid()
      modifies this`current, this`active, this`mine, this`rest, this`diary
      ensures Valid()
      ensures p.Chosen? ==> p.index < |cs|
      ensures diary == old(diary) +
        if !own then []
        else if p.Chosen? then [Took(cs, tried, now, cs[p.index].id)]
        else [TurnedAway(cs, tried, now, old(active))]
      ensures (p, St()) == PickStep(old(St()), cs, tried, now)
      ensures p.AllTried? <==> forall i :: 0 <= i < |cs| ==> cs[i].id in tried
      ensures p.AtCapacity? <==>
        && (exists i :: 0 <= i < |cs| && cs[i].id !in tried)
        && (forall i :: 0 <= i < |cs| && cs[i].id !in tried ==>
              cs[i].maxConnections.Some? && old(Live())[cs[i].id] >= cs[i].maxConnections.value)
      ensures p.Chosen? ==> p.index < |cs| && cs[p.index].id !in tried
      ensures p.Chosen? ==>
        if own then mine == old(mine) + multiset{cs[p.index].id} && rest == old(rest)
        else rest == old(rest) + multiset{cs[p.index].id} && mine == old(mine)
      ensures p.Chosen? && cs[p.index].maxConnections.Some? ==>
        Live()[cs[p.index].id] <= cs[p.index].maxConnections.value
      ensures !p.Chosen? ==> mine == old(mine) && rest == old(rest)
    {
      hide Eligible, Untried, Open, Turn, Lead, Shares, Gain, Valid, Live;
      CapacityHere(cs, tried, now);
      if Untried(cs, tried) == [] {
        diary := diary + if own then [TurnedAway(cs, tried, now, active)] else [];
        return AllTried;
      }
      if Open(active, cs, tried) == [] {
        diary := diary + if own then [TurnedAway(cs, tried, now, active)] else [];
        return AtCapacity;
      }
      var eligible := Eligible(State(current, outliers, active), cs, tried, now);
      var es := Shares(cs, eligible);
      var at := TakeTurn(es);
      var chosen := eligible[at];
      Reserve(cs[chosen].id, own);
      diary := diary + if own then [Took(cs, tried, now, cs[chosen].id)] else [];
      return Chosen(chosen);
    }

    lemma {:induction false} CapacityHere(cs: seq<Backend>, tried: seq<NodeId>, now: Instant)
      requires Valid()
      ensures PickStep(St(), cs, tried, now).0.AtCapacity? <==>
        && (exists i :: 0 <= i < |cs| && cs[i].id !in tried)
        && (forall i :: 0 <= i < |cs| && cs[i].id !in tried ==>
              cs[i].maxConnections.Some? && Live()[cs[i].id] >= cs[i].maxConnections.value)
      ensures PickStep(St(), cs, tried, now).0.AllTried? <==> forall i :: 0 <= i < |cs| ==> cs[i].id in tried
    {
      FullExactlyWhen(St(), Live(), cs, tried, now);
    }

    /** Count one more slot on `id` and hand it out. */
    method Reserve(id: NodeId, ghost own: bool)
      requires Valid()
      modifies this`active, this`mine, this`rest
      ensures Valid()
      ensures active == old(active)[id := Get(old(active), id, 0) + 1]
      ensures if own then mine == old(mine) + multiset{id} && rest == old(rest)
              else rest == old(rest) + multiset{id} && mine == old(mine)
      ensures Live()[id] == Get(old(active), id, 0) + 1
    {
      hide Matches;
      MatchesAt(active, Live(), id);
      MatchesAdd(active, Live(), id);
      AddTo(mine, rest, id);
      active := active[id := Get(active, id, 0) + 1];
      if own {
        mine := mine + multiset{id};
      } else {
        rest := rest + multiset{id};
      }
    }

    /** Drop of a slot held on `id`. */
    method Release(id: NodeId, ghost own: bool)
      requires Valid() && (if own then id in mine else id in rest)
      modifies this`active, this`mine, this`rest
      ensures Valid()
      ensures if own then mine == old(mine) - multiset{id} && rest == old(rest)
              else rest == old(rest) - multiset{id} && mine == old(mine)
      ensures St() == ReleaseStep(old(St()), id)
      ensures Get(active, id, 0) == old(Get(active, id, 0)) - 1
    {
      hide Matches, ReleaseStep;
      ReleaseCounts(St(), Live(), id);
      MatchesRemove(St(), Live(), id);
      DropCount(id);
      if own {
        TakeFrom(mine, rest, id);
        mine := mine - multiset{id};
      } else {
        TakeFrom(rest, mine, id);
        rest := rest - multiset{id};
      }
    }

    /** The saturating decrement of a slot's count. */
    method DropCount(id: NodeId)
      modifies this`active
      ensures St() == ReleaseStep(old(St()), id)
    {
      if id in active {
        var count := if active[id] == 0 then 0 else active[id] - 1;
        active := if count == 0 then active - {id} else active[id := count];
      }
    }

    /** Forget nodes that no longer host the service; slots are not touched. */
    method RetainNodes(all: seq<Backend>, ghost own: bool)
      requires Valid()
      modifies this`current, this`outliers, this`diary
      ensures Valid() && St() == RetainStep(old(St()), all)
      ensures diary == old(diary) + if own then [Kept(all)] else []
    {
      diary := diary + if own then [Kept(all)] else [];
      current := map id | id in current && Hosts(all, id) :: current[id];
      outliers := map id | id in outliers && Hosts(all, id) :: outliers[id];
    }

    method RecordSuccess(id: NodeId, ghost own: bool)
      requires Valid()
      modifies this`outliers, this`diary
      ensures Valid() && St() == SuccessStep(old(St()), id)
      ensures diary == old(diary) + if own then [Worked(id)] else []
    {
      diary := diary + if own then [Worked(id)] else [];
      if id in outliers {
        outliers := outliers[id := CLEAN];
      }
    }

    method RecordFailure(id: NodeId, now: Instant, ghost own: bool) returns (ejectedFor: Option<nat>)
      requires Valid()
      modifies this`outliers, this`diary
      ensures Valid() && St() == FailureStep(old(St()), id, now)
      ensures ejectedFor == Fail(Get(old(outliers), id, CLEAN), now).1
      ensures diary == old(diary) + if own then [Broke(id, now)] else []
    {
      hide Matches, Backoff;
      diary := diary + if own then [Broke(id, now)] else [];
      var o := Get(outliers, id, CLEAN);
      outliers := outliers[id := o];
      if o.IsEjected(now) {
        return None;
      }
      o := o.(failures := o.failures + 1);
      outliers := outliers[id := o];
      if o.failures < EJECT_AFTER_FAILURES {
        return None;
      }
      var ejections := o.ejections + 1;
      var duration := Backoff(ejections);
      outliers := outliers[id := Outlier(0, ejections, Some(now + duration))];
      return Some(duration);
    }
  }
}
