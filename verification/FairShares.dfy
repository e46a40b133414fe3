/** Weighted fairness in the plain case, with nothing left to assume about the
    balancer's state: one list of distinct candidates without connection limits
    and no failures. */
module FairShares {
  import opened Common
  import opened Ejection
  import opened Balancing
  import opened BalancerRuns
  import RR = RoundRobin

  ghost predicate DistinctIds(cs: seq<Backend>)
  {
    forall i, j :: 0 <= i < j < |cs| ==> cs[i].id != cs[j].id
  }

  predicate Unlimited(cs: seq<Backend>)
  {
    forall i :: 0 <= i < |cs| ==> cs[i].maxConnections.None?
  }

  lemma {:induction false} SharesAreProper(cs: seq<Backend>, at: seq<nat>)
    requires DistinctIds(cs) && Distinct(at) && at != []
    requires forall k :: 0 <= k < |at| ==> at[k] < |cs|
    ensures Proper(Shares(cs, at))
  {
    forall i, j | 0 <= i < j < |at|
      ensures cs[at[i]].id != cs[at[j]].id
    {
      assert at[i] != at[j];
      assert at[i] < at[j] || at[j] < at[i];
    }
  }

  /** Distinct candidates stay distinct through every filter, so the shares the
      round-robin turns over are proper ones. */
  lemma {:induction false} EligibleIsProper(st: State, cs: seq<Backend>, tried: seq<NodeId>, now: Instant)
    requires DistinctIds(cs) && PickStep(st, cs, tried, now).0.Chosen?
    ensures Proper(EligibleShares(st, cs, tried, now))
  {
    hide Eligible, PickStep, HasRoom, Untried, Open, Distinct, Proper;
    EligibleDistinct(st, cs, tried, now);
    PickExactlyWhen(st, cs, tried, now);
    SharesAreProper(cs, Eligible(st, cs, tried, now));
  }

  lemma {:induction false} EligibleDistinct(st: State, cs: seq<Backend>, tried: seq<NodeId>, now: Instant)
    ensures Distinct(Eligible(st, cs, tried, now))
  {
    hide Distinct;
    var untried := (i: nat) => i < |cs| && cs[i].id !in tried;
    FilterDistinct(Indices(|cs|), untried);
    FilterDistinct(Untried(cs, tried), (i: nat) => i < |cs| && HasRoom(st.active, cs[i]));
    FilterDistinct(Open(st.active, cs, tried), (i: nat) => i < |cs| && cs[i].weight > 0);
    FilterDistinct(Undrained(st.active, cs, tried), (i: nat) => i < |cs| && !Ejected(st.outliers, cs[i].id, now));
  }

  // The fair list

  predicate HasWeight(cs: seq<Backend>, i: nat)
  {
    i < |cs| && cs[i].weight > 0
  }

  /** The candidates that take part: those with a weight, or all if none has. */
  function FairList(cs: seq<Backend>): (r: seq<nat>)
    ensures forall k :: 0 <= k < |r| ==> r[k] < |cs|
    ensures r == [] <==> cs == []
  {
    var r := FailOpen(Indices(|cs|), (i: nat) => i < |cs| && cs[i].weight > 0);
    assert forall k :: 0 <= k < |r| ==> r[k] in r;
    assert cs != [] ==> 0 in Indices(|cs|);
    r
  }

  function FairEntries(cs: seq<Backend>): seq<Share>
  {
    Shares(cs, FairList(cs))
  }

  /** The promised share of candidate `i`: its weight, or 1 if all are drained. */
  ghost function FairWeight(cs: seq<Backend>, i: nat): nat
    requires i < |cs|
  {
    if exists j: nat :: HasWeight(cs, j) then cs[i].weight else 1
  }

  /** Without limits and outliers the filters always leave the fair list. */
  lemma {:induction false} PlainEligible(st: State, cs: seq<Backend>, now: Instant)
    requires Unlimited(cs) && st.outliers == map[]
    ensures Eligible(st, cs, [], now) == FairList(cs)
  {
    FilterAll(Indices(|cs|), (i: nat) => i < |cs| && cs[i].id !in []);
    FilterAll(Untried(cs, []), (i: nat) => i < |cs| && HasRoom(st.active, cs[i]));
    assert Open(st.active, cs, []) == Indices(|cs|);
    var at := Undrained(st.active, cs, []);
    assert forall i: nat :: i in at ==> i < |cs|;
    FilterAll(at, (i: nat) => i < |cs| && !Ejected(st.outliers, cs[i].id, now));
  }

  // Plain runs

  /** Every pick offers `cs` with nothing tried yet, and no tunnel fails. */
  predicate Plain(cs: seq<Backend>, e: Event)
  {
    match e
    case Picked(offered, tried, _) => offered == cs && tried == []
    case Failed(_, _) => false
    case Retained(all) => all == cs
    case _ => true
  }

  ghost predicate PlainRun(cs: seq<Backend>, evs: seq<Event>)
  {
    forall k :: 0 <= k < |evs| ==> Plain(cs, evs[k])
  }

  lemma {:induction false} NoOutliers(cs: seq<Backend>, evs: seq<Event>)
    requires PlainRun(cs, evs)
    ensures Run(evs).st.outliers == map[]
  {
    hide PickStep;
    if evs != [] {
      var rest, e := evs[..|evs|-1], evs[|evs|-1];
      NoOutliers(cs, rest);
      assert Plain(cs, e);
      if e.Picked? {
        PickLeavesOutliers(Run(rest).st, e.cs, e.tried, e.now);
      }
    }
  }

  lemma {:induction false} FairHosts(cs: seq<Backend>, k: nat)
    requires k < |FairEntries(cs)|
    ensures Hosts(cs, FairEntries(cs)[k].id)
  {
    assert cs[FairList(cs)[k]].id == FairEntries(cs)[k].id;
  }

  lemma {:induction false} PlainKeepsTo(cs: seq<Backend>, w: World, e: Event)
    requires Unlimited(cs) && Plain(cs, e) && w.st.outliers == map[]
    ensures KeepsTo(FairEntries(cs), w, e)
  {
    hide FairEntries, Eligible, PickStep, Hosts;
    match e
    case Picked(_, _, now) =>
      PlainShares(w.st, cs, now);
    case Retained(_) =>
      forall k | 0 <= k < |FairEntries(cs)|
        ensures Hosts(cs, FairEntries(cs)[k].id)
      {
        FairHosts(cs, k);
      }
    case _ =>
  }

  lemma {:induction false} PlainShares(st: State, cs: seq<Backend>, now: Instant)
    requires Unlimited(cs) && st.outliers == map[]
    ensures EligibleShares(st, cs, [], now) == FairEntries(cs)
  {
    hide Eligible, FairList;
    PlainEligible(st, cs, now);
  }

  lemma {:induction false} PlainIsSteady(cs: seq<Backend>, evs: seq<Event>)
    requires Unlimited(cs) && PlainRun(cs, evs)
    ensures Steady(FairEntries(cs), evs)
  {
    hide Step, KeepsTo, FairEntries;
    if evs != [] {
      var rest, e := evs[..|evs|-1], evs[|evs|-1];
      PlainIsSteady(cs, rest);
      NoOutliers(cs, rest);
      assert Plain(cs, e);
      PlainKeepsTo(cs, Run(rest), e);
    }
  }

  lemma {:induction false} FairIsProper(cs: seq<Backend>)
    requires DistinctIds(cs) && cs != []
    ensures Proper(FairEntries(cs))
  {
    hide Distinct, Proper;
    FilterDistinct(Indices(|cs|), (i: nat) => i < |cs| && cs[i].weight > 0);
    SharesAreProper(cs, FairList(cs));
  }

  /** Candidate `i` is on the fair list exactly when its share is positive, and
      there with that weight. */
  lemma {:induction false} FairListed(cs: seq<Backend>, i: nat)
    requires i < |cs|
    ensures i in FairList(cs) <==> FairWeight(cs, i) > 0
    ensures i in FairList(cs) ==> (if cs[i].weight >= 1 then cs[i].weight else 1) == FairWeight(cs, i)
  {
    var keep := (j: nat) => j < |cs| && cs[j].weight > 0;
    assert i in Indices(|cs|);
    if j: nat :| HasWeight(cs, j) {
      assert j in Indices(|cs|) && keep(j);
    } else {
      forall j: nat | j in Indices(|cs|)
        ensures !keep(j)
      {
        assert !HasWeight(cs, j);
      }
    }
  }

  lemma {:induction false} NeverPicked(cs: seq<Backend>, picks: seq<NodeId>, cur: map<NodeId, int>, i: nat)
    requires DistinctIds(cs) && i < |cs| && i !in FairList(cs)
    requires InStep(FairEntries(cs), picks, cur)
    ensures cs[i].id !in picks
  {
    hide FairList, RR.PickAt, RR.Running, Vector;
    var es, at := FairEntries(cs), FairList(cs);
    forall k | 0 <= k < |picks|
      ensures picks[k] != cs[i].id
    {
      var j := RR.PickAt(WeightsOf(es), k);
      assert at[j] in at;
      assert es[j].id == cs[at[j]].id;
      assert at[j] < i || i < at[j];
    }
  }

  /** Exact weighted share from a fresh balancer: over one list of distinct
      candidates, whatever slots are dropped and successes recorded in between,
      every full cycle of consecutive picks takes each candidate exactly as
      often as its weight says, drained ones never unless all are. */
  lemma {:induction false} FairShare(cs: seq<Backend>, evs: seq<Event>, a: nat, i: nat)
    requires DistinctIds(cs) && Unlimited(cs) && PlainRun(cs, evs) && i < |cs|
    requires a + RR.Total(WeightsOf(FairEntries(cs))) <= |Picks(evs)|
    ensures multiset(Picks(evs)[a .. a + RR.Total(WeightsOf(FairEntries(cs)))])[cs[i].id] == FairWeight(cs, i)
  {
    hide Picks, Run, Steady, InStep, Proper, RR.Total, FairWeight, FairList;
    var es, at := FairEntries(cs), FairList(cs);
    FairIsProper(cs);
    PlainIsSteady(cs, evs);
    FairListed(cs, i);
    if i in at {
      var k :| 0 <= k < |at| && at[k] == i;
      assert es[k] == Share(cs[i].id, FairWeight(cs, i));
      ExactShare(es, evs, a, k);
    } else {
      SteadyRun(es, evs);
      NeverPicked(cs, Picks(evs), Run(evs).st.current, i);
    }
  }
}
