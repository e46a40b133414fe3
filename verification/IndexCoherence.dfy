/** The published indexes under concurrency: tasks that write the configuration
    under the write lock and then rebuild the indexes under the read lock. */
module IndexCoherence {
  import opened Common
  import opened Configs
  import opened Indexes

  type TaskId = nat

  /** Where a task is: nothing to do, wrote and waits for the read lock, holds
      it with the configuration it sees, or has stored the service index. */
  datatype Task = Idle | Waiting | Reading(seen: DynamicConfig) | Stored(seen: DynamicConfig)

  /** `history` ends with the current configuration. `servicesAt` and `routesAt`
      say which configuration each index was built from, and `picked` whether a
      rebuild has taken the lock since the last write. */
  datatype State = State(
    history: seq<DynamicConfig>,
    tasks: map<TaskId, Task>,
    services: map<InstanceKey, Service>,
    routes: map<string, seq<Route>>,
    servicesAt: nat,
    routesAt: nat,
    picked: bool)

  datatype Step =
    | Write(t: TaskId, config: DynamicConfig)
    | Lock(t: TaskId)
    | StoreServices(t: TaskId)
    | StoreRoutes(t: TaskId)
    | Cancel(t: TaskId)

  predicate HoldsReadLock(k: Task)
  {
    k.Reading? || k.Stored?
  }

  /** A write needs every reader gone and strictly raises the version; only a
      task still waiting for the lock can be cancelled. */
  ghost predicate Enabled(s: State, e: Step)
  {
    && s.history != []
    && e.t in s.tasks
    && match e
       case Write(t, c) =>
         && s.tasks[t].Idle?
         && (forall u :: u in s.tasks ==> !HoldsReadLock(s.tasks[u]))
         && c.version > s.history[|s.history|-1].version
       case Lock(t) => s.tasks[t].Waiting?
       case StoreServices(t) => s.tasks[t].Reading?
       case StoreRoutes(t) => s.tasks[t].Stored?
       case Cancel(t) => s.tasks[t].Waiting?
  }

  function Next(s: State, e: Step): State
    requires Enabled(s, e)
  {
    match e
    case Write(t, c) => s.(history := s.history + [c], tasks := s.tasks[t := Waiting], picked := false)
    case Lock(t) => s.(tasks := s.tasks[t := Reading(s.history[|s.history|-1])], picked := true)
    case StoreServices(t) =>
      var c := s.tasks[t].seen;
      s.(tasks := s.tasks[t := Stored(c)], services := BuildServices(c), servicesAt := PositionOf(s.history, c))
    case StoreRoutes(t) =>
      var c := s.tasks[t].seen;
      s.(tasks := s.tasks[t := Idle], routes := BuildRoutes(c), routesAt := PositionOf(s.history, c))
    case Cancel(t) => s.(tasks := s.tasks[t := Idle])
  }

  /** Where `c` stands in the history. */
  function PositionOf(history: seq<DynamicConfig>, c: DynamicConfig): nat
  {
    match Find(history, (d: DynamicConfig) => d == c) case Some(i) => i case None => 0
  }

  ghost predicate Init(s: State)
  {
    && |s.history| == 1
    && (forall t :: t in s.tasks ==> s.tasks[t].Idle?)
    && s.services == BuildServices(s.history[0]) && s.routes == BuildRoutes(s.history[0])
    && s.servicesAt == s.routesAt == 0 && s.picked
  }

  ghost predicate IsRun(ss: seq<State>, es: seq<Step>)
  {
    && |ss| == |es| + 1
    && Init(ss[0])
    && forall i :: 0 <= i < |es| ==> Enabled(ss[i], es[i]) && ss[i+1] == Next(ss[i], es[i])
  }

  /** Each index is the build of a past configuration. */
  ghost predicate BuiltFromPast(s: State)
  {
    && s.servicesAt < |s.history| && s.services == BuildServices(s.history[s.servicesAt])
    && s.routesAt < |s.history| && s.routes == BuildRoutes(s.history[s.routesAt])
  }

  /** Whoever holds the read lock sees the current configuration. */
  ghost predicate ReadersCurrent(s: State)
  {
    s.history != [] && forall t :: t in s.tasks && HoldsReadLock(s.tasks[t]) ==>
      s.picked && s.tasks[t].seen == s.history[|s.history|-1]
  }

  /** Once picked up, an index that is behind has a task about to store it;
      before that, both are behind. */
  ghost predicate Chased(s: State)
  {
    var last := |s.history| - 1;
    && (s.picked && s.servicesAt < last ==> exists t :: t in s.tasks && s.tasks[t].Reading?)
    && (s.picked && s.routesAt < last ==> exists t :: t in s.tasks && HoldsReadLock(s.tasks[t]))
    && (!s.picked ==> s.servicesAt < last && s.routesAt < last)
  }

  ghost predicate Inv(s: State)
  {
    && s.history != [] && Rising(s.history)
    && BuiltFromPast(s) && ReadersCurrent(s) && Chased(s)
  }

  lemma {:induction false} LastPosition(history: seq<DynamicConfig>)
    requires history != [] && Rising(history)
    ensures PositionOf(history, history[|history|-1]) == |history| - 1
  {
    var n := |history| - 1;
    assert forall j :: 0 <= j < n ==> history[j].version < history[n].version;
    assert history[n] == history[n];
  }

  lemma {:induction false} WriteKeeps(s: State, t: TaskId, c: DynamicConfig)
    requires Inv(s) && Enabled(s, Write(t, c))
    ensures Inv(Next(s, Write(t, c)))
  {
    hide BuildServices, BuildRoutes;
    var s' := Next(s, Write(t, c));
    forall i, j | 0 <= i < j < |s'.history|
      ensures s'.history[i].version < s'.history[j].version
    {
      if j == |s.history| && i < |s.history| - 1 {
        assert s.history[i].version < s.history[|s.history|-1].version;
      }
    }
  }

  lemma {:induction false} RebuildKeeps(s: State, e: Step)
    requires Inv(s) && Enabled(s, e) && !e.Write?
    ensures Inv(Next(s, e))
    ensures Next(s, e).servicesAt >= s.servicesAt && Next(s, e).routesAt >= s.routesAt
  {
    hide BuildServices, BuildRoutes, PositionOf, Rising;
    LastPosition(s.history);
    var s' := Next(s, e);
    assert forall u :: u in s'.tasks && u != e.t ==> s'.tasks[u] == s.tasks[u];
    if e.Cancel? {
      assert forall u :: u in s.tasks && HoldsReadLock(s.tasks[u]) ==> s'.tasks[u] == s.tasks[u];
    }
    assert s'.tasks[e.t] == s'.tasks[e.t];
  }

  lemma {:induction false} StepKeeps(s: State, e: Step)
    requires Inv(s) && Enabled(s, e)
    ensures Inv(Next(s, e))
    ensures Next(s, e).servicesAt >= s.servicesAt && Next(s, e).routesAt >= s.routesAt
    ensures s.history <= Next(s, e).history
  {
    hide Inv;
    match e {
      case Write(t, c) => WriteKeeps(s, t, c);
      case _ => RebuildKeeps(s, e);
    }
  }

  lemma {:induction false} AlwaysInv(ss: seq<State>, es: seq<Step>, i: nat)
    requires IsRun(ss, es) && i < |ss|
    ensures Inv(ss[i])
  {
    hide Next, Enabled;
    if i > 0 {
      AlwaysInv(ss, es, i - 1);
      assert ss[i-1+1] == Next(ss[i-1], es[i-1]);
      StepKeeps(ss[i-1], es[i-1]);
    }
  }

  /** Index coherence, in every interleaving and even with cancelled tasks:
      each published index is the build of a configuration that was current at
      some time... */
  lemma {:induction false} IndexesAreBuilds(ss: seq<State>, es: seq<Step>, i: nat)
    requires IsRun(ss, es) && i < |ss|
    ensures BuiltFromPast(ss[i])
  {
    AlwaysInv(ss, es, i);
  }

  /** ... and never moves to an older version. */
  lemma {:induction false} IndexesNeverGoBack(ss: seq<State>, es: seq<Step>, i: nat, j: nat)
    requires IsRun(ss, es) && i <= j < |ss|
    ensures ss[i].history <= ss[j].history && BuiltFromPast(ss[i]) && BuiltFromPast(ss[j])
    ensures ss[i].servicesAt <= ss[j].servicesAt && ss[i].routesAt <= ss[j].routesAt
    ensures ss[j].history[ss[i].servicesAt].version <= ss[j].history[ss[j].servicesAt].version
    ensures ss[j].history[ss[i].routesAt].version <= ss[j].history[ss[j].routesAt].version
    decreases j
  {
    hide Next, Enabled;
    AlwaysInv(ss, es, i);
    AlwaysInv(ss, es, j);
    if i < j {
      IndexesNeverGoBack(ss, es, i, j - 1);
      AlwaysInv(ss, es, j - 1);
      assert ss[j-1+1] == Next(ss[j-1], es[j-1]);
      StepKeeps(ss[j-1], es[j-1]);
    }
    RisingAt(ss[j].history, ss[i].servicesAt, ss[j].servicesAt);
    RisingAt(ss[j].history, ss[i].routesAt, ss[j].routesAt);
  }

  lemma {:induction false} RisingAt(cs: seq<DynamicConfig>, i: nat, j: nat)
    requires Rising(cs) && i <= j < |cs|
    ensures cs[i].version <= cs[j].version
  {
    assert i < j ==> cs[i].version < cs[j].version;
  }

  ghost predicate Quiet(s: State)
  {
    forall t :: t in s.tasks ==> s.tasks[t].Idle?
  }

  ghost predicate Current(s: State)
  {
    s.history != [] &&
    s.services == BuildServices(s.history[|s.history|-1]) && s.routes == BuildRoutes(s.history[|s.history|-1])
  }

  /** Nothing was written up to step `i`, or some task took the read lock for
      its rebuild after the last write. */
  ghost predicate TakenUp(es: seq<Step>, i: nat)
    requires i <= |es|
  {
    || (forall k :: 0 <= k < i ==> !es[k].Write?)
    || (exists k :: 0 <= k < i && es[k].Lock? && forall m :: k < m < i ==> !es[m].Write?)
  }

  lemma {:induction false} TakenUpStep(es: seq<Step>, i: nat)
    requires 0 < i <= |es|
    ensures TakenUp(es, i) <==> es[i-1].Lock? || (!es[i-1].Write? && TakenUp(es, i - 1))
  {
    if !es[i-1].Lock? && TakenUp(es, i) && exists k :: 0 <= k < i && es[k].Lock? && forall m :: k < m < i ==> !es[m].Write? {
      var k :| 0 <= k < i && es[k].Lock? && forall m :: k < m < i ==> !es[m].Write?;
      assert k < i - 1;
    }
    if !es[i-1].Write? && TakenUp(es, i - 1) && exists k :: 0 <= k < i - 1 && es[k].Lock? && forall m :: k < m < i - 1 ==> !es[m].Write? {
      var k :| 0 <= k < i - 1 && es[k].Lock? && forall m :: k < m < i - 1 ==> !es[m].Write?;
      assert forall m :: k < m < i ==> !es[m].Write?;
    }
  }

  lemma {:induction false} PickedIsTakenUp(ss: seq<State>, es: seq<Step>, i: nat)
    requires IsRun(ss, es) && i < |ss|
    ensures ss[i].picked <==> TakenUp(es, i)
  {
    hide TakenUp, BuildServices, BuildRoutes;
    if i == 0 {
      NothingYet(es);
    } else {
      PickedIsTakenUp(ss, es, i - 1);
      assert Enabled(ss[i-1], es[i-1]) && ss[i-1+1] == Next(ss[i-1], es[i-1]);
      TakenUpStep(es, i);
    }
  }

  lemma {:induction false} NothingYet(es: seq<Step>)
    ensures TakenUp(es, 0)
  {
  }

  /** With nothing pending, both indexes are builds of the current configuration
      exactly when, in the run so far, nothing was written or some task took up
      its rebuild after the last write. */
  lemma {:induction false} BuiltFromCurrentExactlyWhen(ss: seq<State>, es: seq<Step>, i: nat)
    requires IsRun(ss, es) && i < |ss| && Quiet(ss[i])
    ensures var last := |ss[i].history| - 1;
      ss[i].servicesAt == last && ss[i].routesAt == last <==> TakenUp(es, i)
    ensures if TakenUp(es, i) then Current(ss[i])
            else ss[i].servicesAt < |ss[i].history| - 1 && ss[i].routesAt < |ss[i].history| - 1
  {
    hide IsRun, TakenUp;
    AlwaysInv(ss, es, i);
    PickedIsTakenUp(ss, es, i);
  }

  ghost predicate NothingCancelled(es: seq<Step>)
  {
    forall i :: 0 <= i < |es| ==> !es[i].Cancel?
  }

  lemma {:induction false} WriterStillWaits(ss: seq<State>, es: seq<Step>, i: nat)
    requires IsRun(ss, es) && NothingCancelled(es) && i < |ss|
    ensures !ss[i].picked ==> exists t :: t in ss[i].tasks && ss[i].tasks[t].Waiting?
  {
    if i > 0 {
      WriterStillWaits(ss, es, i - 1);
      var e := es[i-1];
      assert Enabled(ss[i-1], e) && ss[i-1+1] == Next(ss[i-1], e);
      if e.Write? {
        assert ss[i].tasks[e.t].Waiting?;
      } else if !ss[i].picked {
        var t :| t in ss[i-1].tasks && ss[i-1].tasks[t].Waiting?;
        assert ss[i].tasks[t].Waiting?;
      }
    }
  }

  /** If no task is cancelled between its write and its rebuild, both indexes
      are those of the current configuration whenever no rebuild is pending. */
  lemma {:induction false} CurrentWhenQuiet(ss: seq<State>, es: seq<Step>, i: nat)
    requires IsRun(ss, es) && NothingCancelled(es) && i < |ss| && Quiet(ss[i])
    ensures Current(ss[i])
  {
    hide IsRun, Current, TakenUp;
    WriterStillWaits(ss, es, i);
    PickedIsTakenUp(ss, es, i);
    BuiltFromCurrentExactlyWhen(ss, es, i);
  }

  /** The assumption is needed: a sync that times out after its write leaves
      the indexes behind with nobody to rebuild them. */
  lemma {:induction false} CancelledRebuildGoesStale(svc: Service) returns (ss: seq<State>, es: seq<Step>)
    ensures IsRun(ss, es) && Quiet(ss[|ss|-1]) && !Current(ss[|ss|-1])
  {
    var c := DynamicConfig(1, [Group("g", [svc])], []);
    var s0 := State([EMPTY], map[0 := Idle], BuildServices(EMPTY), BuildRoutes(EMPTY), 0, 0, true);
    var e0, e1 := Write(0, c), Cancel(0);
    var s1 := Next(s0, e0);
    var s2 := Next(s1, e1);
    ss, es := [s0, s1, s2], [e0, e1];
    assert AllServices(EMPTY.groups) == [];
    assert AllServices(c.groups) == [svc] by {
      assert c.groups[..0] == [];
    }
    assert [svc][..0] == [];
    assert (svc.nodeId, svc.name) in BuildServices(c);
    assert (svc.nodeId, svc.name) !in s2.services;
  }
}
