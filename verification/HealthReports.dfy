/** Health end to end: every node's checker runs its probe rounds, publishes
    what it finds, and the cluster gossips it. */
module HealthReports {
  import opened Common
  import opened Replication
  import opened HealthGossip
  import C = Clusters
  import HC = HealthChecks

  /** One round of a node's checker: the probe results and the clock. */
  datatype Round = Round(probes: map<string, bool>, now: nat)

  /** A cluster, and for each node the rounds its checker ran since the node
      started. */
  datatype World = World(cluster: C.Cluster, rounds: map<NodeId, seq<Round>>)

  datatype Act = Gossip(step: C.Step) | Probe(at: NodeId, round: Round)

  function Probes(rs: seq<Round>): seq<map<string, bool>>
  {
    seq(|rs|, i requires 0 <= i < |rs| => rs[i].probes)
  }

  function Clock(rs: seq<Round>): seq<nat>
  {
    seq(|rs|, i requires 0 <= i < |rs| => rs[i].now)
  }

  /** The checker after these rounds. */
  function Checked(rs: seq<Round>): HC.Checker
  {
    HC.After(Probes(rs), Clock(rs))
  }

  /** The rounds `rs`, extended by `r`, publish a new report. */
  predicate Publishes(rs: seq<Round>, r: Round)
  {
    Checked(rs + [r]).report != Checked(rs).report
  }

  function PublishStep(at: NodeId, rs: seq<Round>, r: Round): C.Step
  {
    C.Publish(at, Checked(rs + [r]).report.unhealthy, r.now)
  }

  /** Reports come from rounds only. */
  ghost predicate Enabled(w: World, a: Act, writers: set<NodeId>)
  {
    match a
    case Gossip(e) => !e.Publish? && C.Enabled(w.cluster, e, writers)
    case Probe(at, r) =>
      && at in w.cluster.nodes && at in w.rounds
      && (Publishes(w.rounds[at], r) ==> C.Enabled(w.cluster, PublishStep(at, w.rounds[at], r), writers))
  }

  ghost function Next(w: World, a: Act, writers: set<NodeId>): World
    requires Enabled(w, a, writers)
  {
    match a
    case Gossip(e) =>
      World(C.Next(w.cluster, e, writers), if e.Restart? then w.rounds[e.at := []] else w.rounds)
    case Probe(at, r) =>
      var rs := w.rounds[at];
      World(if Publishes(rs, r) then C.Next(w.cluster, PublishStep(at, rs, r), writers) else w.cluster,
            w.rounds[at := rs + [r]])
  }

  ghost predicate Init(w: World)
  {
    C.Init(w.cluster) && w.rounds.Keys == w.cluster.nodes.Keys && forall id :: id in w.rounds ==> w.rounds[id] == []
  }

  ghost predicate IsRun(ws: seq<World>, acts: seq<Act>, writers: set<NodeId>)
  {
    && |ws| == |acts| + 1
    && Init(ws[0])
    && forall i :: 0 <= i < |acts| ==> Enabled(ws[i], acts[i], writers) && ws[i+1] == Next(ws[i], acts[i], writers)
  }

  /** What a node says of itself is what its checker found. */
  ghost predicate SaysWhatItFound(w: World)
  {
    && w.rounds.Keys == w.cluster.nodes.Keys
    && forall id :: id in w.rounds ==> w.cluster.nodes[id].local == Checked(w.rounds[id]).report
  }

  lemma {:induction false} CheckedGrows(rs: seq<Round>, r: Round)
    ensures Checked([]) == HC.NEW
    ensures Checked(rs + [r]) == HC.Round(Checked(rs), r.probes, r.now)
  {
    var n := |rs|;
    assert Probes(rs + [r])[..n] == Probes(rs) && Clock(rs + [r])[..n] == Clock(rs);
  }

  /** A published report is the next version of the last one. */
  lemma {:induction false} NextReport(rs: seq<Round>, r: Round)
    requires Publishes(rs, r)
    ensures var after := Checked(rs + [r]).report;
      after == Health(NextVersion(Checked(rs).report.version, r.now), after.unhealthy)
  {
    hide HC.After, HC.Counts, HC.Bad;
    CheckedGrows(rs, r);
  }

  /** A round adds its report to what was published, or nothing. */
  lemma {:induction false} ProbeStep(w: World, at: NodeId, r: Round, writers: set<NodeId>)
    requires SaysWhatItFound(w) && HealthInv(w.cluster) && Enabled(w, Probe(at, r), writers)
    ensures var w' := Next(w, Probe(at, r), writers);
      && SaysWhatItFound(w') && HealthInv(w'.cluster)
      && at in w.cluster.published
      && w'.cluster.published == w.cluster.published[at := w.cluster.published[at] +
           if Publishes(w.rounds[at], r) then [Checked(w'.rounds[at]).report] else []]
  {
    hide HealthInv, Checked;
    PublishedKeys(w.cluster, at);
    var rs := w.rounds[at];
    if Publishes(rs, r) {
      NextReport(rs, r);
      HealthStep(w.cluster, PublishStep(at, rs, r), writers);
    } else {
      assert w.cluster.published[at] + [] == w.cluster.published[at];
    }
  }

  lemma {:induction false} PublishedKeys(s: C.Cluster, at: NodeId)
    requires HealthInv(s) && at in s.nodes
    ensures at in s.published
  {
  }

  /** Any other step leaves published reports alone, and a node's own report
      unless it restarts. */
  lemma {:induction false} QuietStep(s: C.Cluster, e: C.Step, writers: set<NodeId>, id: NodeId)
    requires C.Enabled(s, e, writers) && !e.Publish?
    ensures var s' := C.Next(s, e, writers);
      && s'.published == s.published && s'.nodes.Keys == s.nodes.Keys
      && (e.Restart? ==> e.at in s.nodes)
      && (id in s.nodes ==> s'.nodes[id].local == if e == C.Restart(id) then UNSET else s.nodes[id].local)
  {
    hide Receive, AdminStep, PollStep, IsSnapshot, C.Changed;
    match e {
      case Deliver(m, at, ok, okToo) => ReceiveKeepsLocal(s.nodes[at], m, ok, okToo);
      case Admin(at, op, ok) =>
        AdminKeeps(s.nodes[at], op, ok);
        C.ChangedKeeps(s, at, AdminStep(s.nodes[at], op, ok));
      case Poll(at, readable, ok) =>
        PollKeeps(s.nodes[at], readable, ok);
        C.ChangedKeeps(s, at, PollStep(s.nodes[at], readable, ok));
      case _ =>
    }
  }

  lemma {:induction false} ReceiveKeepsLocal(n: Node, m: Message, ok: bool, okToo: bool)
    ensures Receive(n, m, ok, okToo).local == n.local
  {
    hide MergeNodes, NodesChanged, Join;
  }

  lemma {:induction false} GossipStep(w: World, e: C.Step, writers: set<NodeId>)
    requires SaysWhatItFound(w) && HealthInv(w.cluster) && Enabled(w, Gossip(e), writers)
    ensures var w' := Next(w, Gossip(e), writers);
      SaysWhatItFound(w') && HealthInv(w'.cluster) && w'.cluster.published == w.cluster.published
  {
    hide HealthInv, C.Next, C.Enabled, Checked;
    var w' := Next(w, Gossip(e), writers);
    HealthStep(w.cluster, e, writers);
    CheckedGrows([], Round(map[], 0));
    QuietStep(w.cluster, e, writers, "");
    forall id | id in w'.rounds
      ensures w'.cluster.nodes[id].local == Checked(w'.rounds[id]).report
    {
      QuietStep(w.cluster, e, writers, id);
    }
  }

  /** `h` is what node `id` found at some moment of the run up to `i`. */
  ghost predicate Found(ws: seq<World>, i: nat, id: NodeId, h: Health)
    requires i < |ws|
  {
    exists k :: 0 <= k <= i && id in ws[k].rounds && ws[k].rounds[id] != [] && h == Checked(ws[k].rounds[id]).report
  }

  /** Everything published so far was found. */
  ghost predicate AllFound(ws: seq<World>, i: nat)
    requires i < |ws|
  {
    forall id, h :: id in ws[i].cluster.published && h in ws[i].cluster.published[id] ==> Found(ws, i, id, h)
  }

  lemma {:induction false} StillFound(ws: seq<World>, i: nat, id: NodeId, h: Health)
    requires i + 1 < |ws| && Found(ws, i, id, h)
    ensures Found(ws, i + 1, id, h)
  {
  }

  lemma {:induction false} AlwaysFound(ws: seq<World>, acts: seq<Act>, writers: set<NodeId>, i: nat)
    requires IsRun(ws, acts, writers) && i < |ws|
    ensures SaysWhatItFound(ws[i]) && HealthInv(ws[i].cluster) && AllFound(ws, i)
  {
    hide Next, Enabled, SaysWhatItFound, HealthInv, Checked, Found, Publishes;
    if i == 0 {
      FirstWorld(ws[0]);
    } else {
      AlwaysFound(ws, acts, writers, i - 1);
      var w, a := ws[i-1], acts[i-1];
      assert Enabled(w, a, writers) && ws[i-1+1] == Next(w, a, writers);
      match a {
        case Gossip(e) => GossipStep(w, e, writers);
        case Probe(at, r) => ProbeStep(w, at, r, writers);
      }
      forall id, h | id in ws[i].cluster.published && h in ws[i].cluster.published[id]
        ensures Found(ws, i, id, h)
      {
        if id in w.cluster.published && h in w.cluster.published[id] {
          StillFound(ws, i - 1, id, h);
        } else {
          JustFound(ws, acts, writers, i, id, h);
        }
      }
    }
  }

  lemma {:induction false} JustFound(ws: seq<World>, acts: seq<Act>, writers: set<NodeId>, i: nat, id: NodeId, h: Health)
    requires 0 < i < |ws| == |acts| + 1 && acts[i-1].Probe?
    requires Enabled(ws[i-1], acts[i-1], writers) && ws[i] == Next(ws[i-1], acts[i-1], writers)
    requires id == acts[i-1].at && h == Checked(ws[i].rounds[id]).report
    ensures Found(ws, i, id, h)
  {
    hide Checked, Publishes;
    assert ws[i].rounds[id] == ws[i-1].rounds[id] + [acts[i-1].round];
  }

  lemma {:induction false} FirstWorld(w: World)
    requires Init(w)
    ensures SaysWhatItFound(w) && HealthInv(w.cluster)
    ensures forall id :: id in w.cluster.published ==> w.cluster.published[id] == []
  {
    CheckedGrows([], Round(map[], 0));
  }

  /** End to end: in every reachable state, whatever is held or in flight about a
      node is unset, or names exactly the services whose last two probes had
      failed at some moment of that node's own rounds. */
  lemma {:induction false} ReportsComeFromProbes(ws: seq<World>, acts: seq<Act>, writers: set<NodeId>, i: nat, id: NodeId, h: Health)
    requires IsRun(ws, acts, writers) && i < |ws| && Told(ws[i].cluster, id, h)
    ensures h == UNSET || exists k ::
      && 0 <= k <= i && id in ws[k].rounds && ws[k].rounds[id] != []
      && h == Checked(ws[k].rounds[id]).report
      && h.unhealthy == HC.FailedTwice(Probes(ws[k].rounds[id]))
  {
    hide IsRun, Told, HealthInv, Checked;
    AlwaysFound(ws, acts, writers, i);
    ToldIsGenuine(ws[i].cluster, id, h);
    if h != UNSET {
      assert Found(ws, i, id, h);
      var k :| 0 <= k <= i && id in ws[k].rounds && ws[k].rounds[id] != [] && h == Checked(ws[k].rounds[id]).report;
      ExactlyFailing(ws[k].rounds[id]);
    }
  }

  lemma {:induction false} ExactlyFailing(rs: seq<Round>)
    ensures Checked(rs).report.unhealthy == HC.FailedTwice(Probes(rs))
  {
    HC.ReportIsExact(Probes(rs), Clock(rs));
  }
}
