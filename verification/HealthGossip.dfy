/** Health reports across the cluster: who may say what about whom. */
module HealthGossip {
  import opened Common
  import opened Configs
  import opened Replication
  import opened Clusters

  type Published = map<NodeId, seq<Health>>

  /** `h` is no report, or one that node `id` published. */
  ghost predicate Genuine(p: Published, id: NodeId, h: Health)
  {
    h == UNSET || (id in p && h in p[id])
  }

  ghost predicate RisingReports(hs: seq<Health>)
  {
    && (forall i :: 0 <= i < |hs| ==> hs[i].version >= 1)
    && (forall i, j :: 0 <= i < j < |hs| ==> hs[i].version < hs[j].version)
  }

  /** What a node holds about others is genuine, and about itself nothing. */
  ghost predicate HoldsGenuine(own: NodeId, known: map<NodeId, NodeInfo>, p: Published)
  {
    forall k :: k in known ==>
      known[k].id == k && Genuine(p, k, known[k].health) && (k == own ==> known[k].health == UNSET)
  }

  ghost predicate SaysGenuine(m: Message, p: Published)
  {
    m.Sync? ==> forall i :: 0 <= i < |m.nodes| ==> Genuine(p, m.nodes[i].id, m.nodes[i].health)
  }

  /** A node's own report is the last one it published, or unset when it has
      not published since it started. */
  ghost predicate OwnReport(n: Node, p: Published)
  {
    && n.id in p
    && (n.local == UNSET || (p[n.id] != [] && n.local == p[n.id][|p[n.id]|-1]))
  }

  ghost predicate HealthInv(s: Cluster)
  {
    && s.published.Keys == s.nodes.Keys
    && (forall id :: id in s.published ==> RisingReports(s.published[id]))
    && (forall id :: id in s.nodes ==>
          s.nodes[id].id == id && OwnReport(s.nodes[id], s.published) && HoldsGenuine(id, s.nodes[id].known, s.published))
    && (forall m :: m in s.net ==> SaysGenuine(m, s.published))
  }

  lemma {:induction false} MergeNodeGenuine(own: NodeId, known: map<NodeId, NodeInfo>, node: NodeInfo, p: Published)
    requires HoldsGenuine(own, known, p) && Genuine(p, node.id, node.health)
    ensures HoldsGenuine(own, MergeNode(own, known, node), p)
  {
    hide Genuine, ValidNodeId;
    UnsetIsGenuine(p, node.id);
  }

  lemma {:induction false} UnsetIsGenuine(p: Published, id: NodeId)
    ensures Genuine(p, id, UNSET)
  {
  }

  lemma {:induction false} MergeNodesGenuine(own: NodeId, known: map<NodeId, NodeInfo>, nodes: seq<NodeInfo>, p: Published)
    requires HoldsGenuine(own, known, p)
    requires forall i :: 0 <= i < |nodes| ==> Genuine(p, nodes[i].id, nodes[i].health)
    ensures HoldsGenuine(own, MergeNodes(own, known, nodes), p)
  {
    hide HoldsGenuine, Genuine, MergeNode;
    if nodes != [] {
      var n := |nodes| - 1;
      MergeNodesGenuine(own, known, nodes[..n], p);
      MergeNodeGenuine(own, MergeNodes(own, known, nodes[..n]), nodes[n], p);
    }
  }

  lemma {:induction false} ReceiveGenuine(n: Node, m: Message, ok: bool, okToo: bool, p: Published)
    requires HoldsGenuine(n.id, n.known, p) && SaysGenuine(m, p)
    ensures var n' := Receive(n, m, ok, okToo);
      n'.id == n.id && n'.local == n.local && HoldsGenuine(n.id, n'.known, p)
  {
    hide MergeNodes, NodesChanged, Genuine, ValidNodeId;
    match m
    case Sync(c, nodes) => MergeNodesGenuine(n.id, n.known, nodes, p);
    case NodeJoin(id, addr) => UnsetIsGenuine(p, id);
    case _ =>
  }

  /** One node changes, keeping its id and report; messages only come from
      what was there or is genuine. */
  lemma {:induction false} ReplaceHolder(s: Cluster, s': Cluster, at: NodeId)
    requires HealthInv(s) && at in s.nodes && s'.nodes.Keys == s.nodes.Keys && s'.published == s.published
    requires forall id :: id in s.nodes && id != at ==> s'.nodes[id] == s.nodes[id]
    requires s'.nodes[at].id == at && OwnReport(s'.nodes[at], s.published)
    requires HoldsGenuine(at, s'.nodes[at].known, s.published)
    requires forall m :: m in s'.net ==> m in s.net || SaysGenuine(m, s.published)
    ensures HealthInv(s')
  {
    hide OwnReport, HoldsGenuine, SaysGenuine, RisingReports;
  }

  lemma {:induction false} NetHealthStep(s: Cluster, s': Cluster)
    requires HealthInv(s) && s'.nodes == s.nodes && s'.published == s.published
    requires forall m :: m in s'.net ==> m in s.net || SaysGenuine(m, s.published)
    ensures HealthInv(s')
  {
    hide OwnReport, HoldsGenuine, SaysGenuine, RisingReports;
  }

  lemma {:induction false} SnapshotGenuine(n: Node, list: seq<NodeInfo>, c: DynamicConfig, p: Published)
    requires OwnReport(n, p) && HoldsGenuine(n.id, n.known, p) && IsSnapshot(n, list)
    ensures SaysGenuine(Sync(c, list), p)
  {
    forall i | 0 <= i < |list|
      ensures Genuine(p, list[i].id, list[i].health)
    {
      assert Reports(n, list[i]);
    }
  }

  /** What was genuine stays so when a node's history grows. */
  lemma {:induction false} GenuineStays(p: Published, at: NodeId, report: Health, id: NodeId, h: Health)
    requires at in p && Genuine(p, id, h)
    ensures Genuine(p[at := p[at] + [report]], id, h)
  {
  }

  lemma {:induction false} HoldsStay(own: NodeId, known: map<NodeId, NodeInfo>, p: Published, at: NodeId, report: Health)
    requires at in p && HoldsGenuine(own, known, p)
    ensures HoldsGenuine(own, known, p[at := p[at] + [report]])
  {
    hide Genuine;
    forall k | k in known
      ensures Genuine(p[at := p[at] + [report]], k, known[k].health)
    {
      GenuineStays(p, at, report, k, known[k].health);
    }
  }

  lemma {:induction false} SaysStay(m: Message, p: Published, at: NodeId, report: Health)
    requires at in p && SaysGenuine(m, p)
    ensures SaysGenuine(m, p[at := p[at] + [report]])
  {
    hide Genuine;
    if m.Sync? {
      forall i | 0 <= i < |m.nodes|
        ensures Genuine(p[at := p[at] + [report]], m.nodes[i].id, m.nodes[i].health)
      {
        GenuineStays(p, at, report, m.nodes[i].id, m.nodes[i].health);
      }
    }
  }

  lemma {:induction false} OwnStays(n: Node, p: Published, at: NodeId, report: Health)
    requires at in p && n.id in p && (if n.id == at then n.local == report else OwnReport(n, p))
    ensures OwnReport(n, p[at := p[at] + [report]])
  {
  }

  /** A new report extends the node's history and stays genuine everywhere. */
  lemma {:induction false} PublishGenuine(s: Cluster, at: NodeId, unhealthy: set<string>, now: nat)
    requires HealthInv(s) && Enabled(s, Publish(at, unhealthy, now), {})
    ensures HealthInv(Next(s, Publish(at, unhealthy, now), {}))
  {
    var s' := Next(s, Publish(at, unhealthy, now), {});
    var p := s.published;
    var report := s'.nodes[at].local;
    assert s'.published == p[at := p[at] + [report]];
    PublishRises(p[at], s.nodes[at].local, report, now);
    hide RisingReports, OwnReport, HoldsGenuine, SaysGenuine;
    forall id | id in s'.nodes
      ensures s'.nodes[id].id == id && OwnReport(s'.nodes[id], s'.published)
      ensures HoldsGenuine(id, s'.nodes[id].known, s'.published)
    {
      OwnStays(s'.nodes[id], p, at, report);
      HoldsStay(id, s.nodes[id].known, p, at, report);
    }
    forall m | m in s'.net
      ensures SaysGenuine(m, s'.published)
    {
      SaysStay(m, p, at, report);
    }
  }

  lemma {:induction false} PublishRises(hs: seq<Health>, local: Health, report: Health, now: nat)
    requires RisingReports(hs)
    requires local == UNSET || (hs != [] && local == hs[|hs|-1])
    requires local == UNSET && hs != [] ==> now > hs[|hs|-1].version
    requires report.version == NextVersion(local.version, now)
    ensures RisingReports(hs + [report])
  {
    var all := hs + [report];
    forall i | 0 <= i < |hs|
      ensures all[i].version < report.version
    {
      assert i < |hs| - 1 ==> hs[i].version < hs[|hs|-1].version;
    }
  }

  // The first report after a restart

  /** The exact condition on the clock: the first report of a restarted node
      keeps the cluster's reports in order if and only if its clock has passed
      the version of the last report the node published. */
  lemma {:induction false} FirstReportExactlyWhen(s: Cluster, at: NodeId, unhealthy: set<string>, now: nat)
    requires HealthInv(s) && at in s.nodes && at in s.published
    requires s.nodes[at].local == UNSET && s.published[at] != []
    ensures HealthInv(Reported(s, at, unhealthy, now)) <==> now > s.published[at][|s.published[at]|-1].version
  {
    var hs := s.published[at];
    var last := hs[|hs|-1];
    assert RisingReports(hs);
    assert last.version >= 1;
    if now > last.version {
      assert Enabled(s, Publish(at, unhealthy, now), {});
      PublishGenuine(s, at, unhealthy, now);
    } else {
      TooOld(s, at, unhealthy, now);
    }
  }

  lemma {:induction false} TooOld(s: Cluster, at: NodeId, unhealthy: set<string>, now: nat)
    requires at in s.nodes && at in s.published && s.nodes[at].local == UNSET && s.published[at] != []
    requires 1 <= s.published[at][|s.published[at]|-1].version && now <= s.published[at][|s.published[at]|-1].version
    ensures !HealthInv(Reported(s, at, unhealthy, now))
  {
    hide OwnReport, HoldsGenuine, SaysGenuine;
    var hs := s.published[at];
    var hs' := Reported(s, at, unhealthy, now).published[at];
    assert hs'[|hs|-1] == hs[|hs|-1] && hs'[|hs|].version <= hs[|hs|-1].version;
    assert !RisingReports(hs');
  }

  /** What peers do with it: a peer that holds the node's last report from before
      takes the first new one if and only if the clock has passed it; then it
      takes it over anything older as well. */
  lemma {:induction false} FirstReportReplaces(own: NodeId, known: map<NodeId, NodeInfo>, node: NodeInfo, now: nat)
    requires node.id in known && node.id != own && ValidNodeId(node.id)
    requires node.health.version == NextVersion(UNSET.version, now) && known[node.id].health.version >= 1
    ensures MergeNode(own, known, node)[node.id].health ==
      if now > known[node.id].health.version then node.health else known[node.id].health
  {
  }

  /** With a clock that has not passed it, a version comes back with other
      contents: a node that publishes, restarts and publishes again while its
      clock shows the same time. */
  lemma {:induction false} OldClockRepeats(s0: Cluster, at: NodeId, first: set<string>, second: set<string>, now: nat)
    requires Init(s0) && at in s0.nodes && first != second
    ensures Enabled(s0, Publish(at, first, now), {})
    ensures var s1 := Next(s0, Publish(at, first, now), {});
      && Enabled(s1, Restart(at), {})
      && var s2 := Next(s1, Restart(at), {});
      && at in s2.nodes && at in s2.published
      && var hs := Reported(s2, at, second, now).published[at];
      |hs| == 2 && hs[0].version == hs[1].version && hs[0] != hs[1]
  {
  }

  lemma {:induction false} NetStepHealth(s: Cluster, e: Step, writers: set<NodeId>)
    requires HealthInv(s) && Enabled(s, e, writers)
    requires e.SendSync? || e.Announce? || e.Lose? || e.Duplicate?
    ensures HealthInv(Next(s, e, writers))
  {
    hide HealthInv, OwnReport, HoldsGenuine, IsSnapshot;
    var s' := Next(s, e, writers);
    if e.SendSync? {
      HolderAt(s, e.at);
      SnapshotGenuine(s.nodes[e.at], e.list, s.nodes[e.at].mem, s.published);
    }
    NetHealthStep(s, s');
  }

  lemma {:induction false} DeliverHealth(s: Cluster, m: Message, at: NodeId, ok: bool, okToo: bool, writers: set<NodeId>)
    requires HealthInv(s) && Enabled(s, Deliver(m, at, ok, okToo), writers)
    ensures HealthInv(Next(s, Deliver(m, at, ok, okToo), writers))
  {
    hide HealthInv, OwnReport, HoldsGenuine, SaysGenuine, Receive;
    var s' := Next(s, Deliver(m, at, ok, okToo), writers);
    HolderAt(s, at);
    NetAt(s, m);
    ReceiveGenuine(s.nodes[at], m, ok, okToo, s.published);
    SameOwner(s.nodes[at], s'.nodes[at], s.published);
    ReplaceHolder(s, s', at);
  }

  lemma {:induction false} OwnStepHealth(s: Cluster, e: Step, writers: set<NodeId>)
    requires HealthInv(s) && Enabled(s, e, writers) && (e.Restart? || e.Registered? || e.Rewrite?)
    ensures HealthInv(Next(s, e, writers))
  {
    hide HealthInv, OwnReport, HoldsGenuine, SaysGenuine;
    var s' := Next(s, e, writers);
    HolderAt(s, e.at);
    if e.Restart? {
      Forgets(s.nodes[e.at], s'.nodes[e.at], s.published);
    } else if e.Rewrite? {
      SameOwner(s.nodes[e.at], s'.nodes[e.at], s.published);
    } else {
      RegisterGenuine(s.nodes[e.at], e.id, s.published);
      SameOwner(s.nodes[e.at], s'.nodes[e.at], s.published);
    }
    ReplaceHolder(s, s', e.at);
  }

  lemma {:induction false} HealthStep(s: Cluster, e: Step, writers: set<NodeId>)
    requires HealthInv(s) && Enabled(s, e, writers)
    ensures HealthInv(Next(s, e, writers))
  {
    hide HealthInv;
    match e {
      case Publish(at, unhealthy, now) => PublishGenuine(s, at, unhealthy, now);
      case Deliver(m, at, ok, okToo) => DeliverHealth(s, m, at, ok, okToo, writers);
      case Restart(_) => OwnStepHealth(s, e, writers);
      case Registered(_, _) => OwnStepHealth(s, e, writers);
      case Rewrite(_, _) => OwnStepHealth(s, e, writers);
      case Admin(_, _, _) => ConfigOnly(s, e, writers);
      case Poll(_, _, _) => ConfigOnly(s, e, writers);
      case Edit(_, _) => ConfigOnly(s, e, writers);
      case _ => NetStepHealth(s, e, writers);
    }
  }

  lemma {:induction false} HolderAt(s: Cluster, at: NodeId)
    requires HealthInv(s) && at in s.nodes
    ensures s.nodes[at].id == at && OwnReport(s.nodes[at], s.published)
    ensures HoldsGenuine(at, s.nodes[at].known, s.published)
  {
  }

  lemma {:induction false} NetAt(s: Cluster, m: Message)
    requires HealthInv(s) && m in s.net
    ensures SaysGenuine(m, s.published)
  {
  }

  lemma {:induction false} SameOwner(n: Node, n': Node, p: Published)
    requires OwnReport(n, p) && n'.id == n.id && n'.local == n.local
    ensures OwnReport(n', p)
  {
  }

  lemma {:induction false} Forgets(n: Node, n': Node, p: Published)
    requires OwnReport(n, p) && n'.id == n.id && n'.local == UNSET && n'.known == map[]
    ensures OwnReport(n', p) && HoldsGenuine(n'.id, n'.known, p)
  {
  }

  lemma {:induction false} RegisterGenuine(n: Node, id: NodeId, p: Published)
    requires HoldsGenuine(n.id, n.known, p)
    ensures HoldsGenuine(n.id, Register(n, id).known, p)
  {
    hide Genuine;
    UnsetIsGenuine(p, id);
  }

  lemma {:induction false} AdminKeeps(n: Node, op: AdminOp, ok: bool)
    ensures var n' := AdminStep(n, op, ok); n'.id == n.id && n'.local == n.local && n'.known == n.known
  {
    hide Mutate;
  }

  lemma {:induction false} PollKeeps(n: Node, readable: bool, ok: bool)
    ensures var n' := PollStep(n, readable, ok); n'.id == n.id && n'.local == n.local && n'.known == n.known
  {
  }

  /** Admin mutations, polls and edits leave health alone. */
  lemma {:induction false} ConfigOnly(s: Cluster, e: Step, writers: set<NodeId>)
    requires HealthInv(s) && Enabled(s, e, writers) && (e.Admin? || e.Poll? || e.Edit?)
    ensures HealthInv(Next(s, e, writers))
  {
    hide HealthInv, AdminStep, PollStep, OwnReport, HoldsGenuine, SaysGenuine, Receive, IsSnapshot, NextVersion, Register;
    var s' := Next(s, e, writers);
    HolderAt(s, e.at);
    var n, n' := s.nodes[e.at], s'.nodes[e.at];
    match e {
      case Admin(at, op, ok) => AdminKeeps(n, op, ok);
      case Poll(at, readable, ok) => PollKeeps(n, readable, ok);
      case Edit(at, file) => assert n' == n.(file := file);
    }
    SameOwner(n, n', s.published);
    SameNet(s, s');
    ReplaceHolder(s, s', e.at);
  }

  /** Of the messages such a step adds none carries health. */
  lemma {:induction false} SameNet(s: Cluster, s': Cluster)
    requires forall m :: m in s'.net ==> m in s.net || m.ConfigUpdate?
    ensures forall m :: m in s'.net ==> m in s.net || SaysGenuine(m, s.published)
  {
  }

  lemma {:induction false} HealthAlways(ss: seq<Cluster>, es: seq<Step>, writers: set<NodeId>, i: nat)
    requires IsRun(ss, es, writers) && i < |ss|
    ensures HealthInv(ss[i])
  {
    hide Next, Enabled;
    if i > 0 {
      HealthAlways(ss, es, writers, i - 1);
      assert ss[i-1+1] == Next(ss[i-1], es[i-1], writers);
      HealthStep(ss[i-1], es[i-1], writers);
    }
  }

  /** `h` is held or in flight as a report of node `id`. */
  ghost predicate Told(s: Cluster, id: NodeId, h: Health)
  {
    || (exists at :: at in s.nodes && id in s.nodes[at].known && s.nodes[at].known[id].health == h)
    || (exists m, i :: m in s.net && m.Sync? && 0 <= i < |m.nodes| && m.nodes[i].id == id && m.nodes[i].health == h)
  }

  /** In every reachable state, any number of writers: each report told about a
      node is unset or one that node published; two told reports of one version
      are the same; and no node stores a report about itself. */
  lemma {:induction false} ReportsAreGenuine(ss: seq<Cluster>, es: seq<Step>, writers: set<NodeId>, i: nat)
    requires IsRun(ss, es, writers) && i < |ss|
    ensures forall id, h :: Told(ss[i], id, h) ==> Genuine(ss[i].published, id, h)
    ensures forall id, a, b :: Told(ss[i], id, a) && Told(ss[i], id, b) && a.version == b.version ==> a == b
    ensures forall id :: id in ss[i].nodes && id in ss[i].nodes[id].known ==> ss[i].nodes[id].known[id].health == UNSET
  {
    hide IsRun;
    HealthAlways(ss, es, writers, i);
    var s := ss[i];
    forall id, h | Told(s, id, h)
      ensures Genuine(s.published, id, h)
    {
      ToldIsGenuine(s, id, h);
    }
    forall id, a, b | Told(s, id, a) && Told(s, id, b) && a.version == b.version
      ensures a == b
    {
      ToldIsGenuine(s, id, a);
      ToldIsGenuine(s, id, b);
      GenuineByVersion(s.published, id, a, b);
    }
  }

  lemma {:induction false} ToldIsGenuine(s: Cluster, id: NodeId, h: Health)
    requires HealthInv(s) && Told(s, id, h)
    ensures Genuine(s.published, id, h) && (id in s.published ==> RisingReports(s.published[id]))
  {
    if at :| at in s.nodes && id in s.nodes[at].known && s.nodes[at].known[id].health == h {
      HolderAt(s, at);
    } else {
      var m, i :| m in s.net && m.Sync? && 0 <= i < |m.nodes| && m.nodes[i].id == id && m.nodes[i].health == h;
      NetAt(s, m);
    }
  }

  lemma {:induction false} GenuineByVersion(p: Published, id: NodeId, a: Health, b: Health)
    requires Genuine(p, id, a) && Genuine(p, id, b) && a.version == b.version
    requires id in p ==> RisingReports(p[id])
    ensures a == b
  {
    if a != UNSET && b != UNSET {
      var i :| 0 <= i < |p[id]| && p[id][i] == a;
      var j :| 0 <= j < |p[id]| && p[id][j] == b;
      assert p[id][i].version == p[id][j].version;
    }
  }

  // Held versions only rise

  ghost predicate NoOlder(a: Health, b: Health)
  {
    b.version >= a.version && (b.version == a.version ==> b == a)
  }

  lemma {:induction false} MergeNodesRises(own: NodeId, known: map<NodeId, NodeInfo>, nodes: seq<NodeInfo>, k: NodeId)
    requires k in known
    ensures k in MergeNodes(own, known, nodes) && NoOlder(known[k].health, MergeNodes(own, known, nodes)[k].health)
  {
    hide ValidNodeId;
    if nodes != [] {
      MergeNodesRises(own, known, nodes[..|nodes|-1], k);
    }
  }

  /** What one delivery does to a held entry. */
  lemma {:induction false} ReceiveRises(n: Node, m: Message, ok: bool, okToo: bool, k: NodeId)
    requires k in n.known
    ensures var known' := Receive(n, m, ok, okToo).known;
      if k in known' then NoOlder(n.known[k].health, known'[k].health) else m == NodeLeave(k)
  {
    hide MergeNodes, NodesChanged, ValidNodeId;
    if m.Sync? {
      MergeNodesRises(n.id, n.known, m.nodes, k);
    }
  }

  /** Whatever happens to a running node, a report it holds is only ever
      replaced by a newer one, until the entry is removed. */
  lemma {:induction false} HeldOnlyRises(s: Cluster, e: Step, writers: set<NodeId>, at: NodeId, k: NodeId)
    requires Enabled(s, e, writers) && e != Restart(at)
    requires at in s.nodes && k in s.nodes[at].known
    ensures at in Next(s, e, writers).nodes
    ensures k in Next(s, e, writers).nodes[at].known ==>
      NoOlder(s.nodes[at].known[k].health, Next(s, e, writers).nodes[at].known[k].health)
    ensures k !in Next(s, e, writers).nodes[at].known ==> e.Deliver? && e.at == at && e.msg == NodeLeave(k)
  {
    hide Receive, AdminStep, PollStep, IsSnapshot;
    var n := s.nodes[at];
    match e {
      case Deliver(m, to, ok, okToo) => ReceiveRises(n, m, ok, okToo, k);
      case Admin(_, op, ok) => AdminKeeps(n, op, ok);
      case Poll(_, readable, ok) => PollKeeps(n, readable, ok);
      case _ =>
    }
  }

  /** ... so over any stretch of a run in which `at` does not restart and keeps
      its entry for `k`, the report held at the end is no older than the one at
      the start, and the same if it has the same version. */
  lemma {:induction false} HeldRisesOverRuns(
    ss: seq<Cluster>, es: seq<Step>, writers: set<NodeId>, i: nat, j: nat, at: NodeId, k: NodeId)
    requires IsRun(ss, es, writers) && i <= j < |ss|
    requires forall n :: i <= n < j ==> es[n] != Restart(at)
    requires forall n :: i <= n <= j ==> at in ss[n].nodes && k in ss[n].nodes[at].known
    ensures NoOlder(ss[i].nodes[at].known[k].health, ss[j].nodes[at].known[k].health)
    decreases j
  {
    hide Next, Enabled;
    if i < j {
      HeldRisesOverRuns(ss, es, writers, i, j - 1, at, k);
      assert ss[j-1+1] == Next(ss[j-1], es[j-1], writers);
      HeldOnlyRises(ss[j-1], es[j-1], writers, at, k);
    }
  }
}
