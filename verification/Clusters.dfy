/** A cluster of daemons gossiping over a network that may lose, duplicate and
    reorder messages, as a step relation. */
module Clusters {
  import opened Common
  import opened Configs
  import opened Replication

  /** The daemons, the messages in flight, and two histories kept for the
      proofs: the configurations written, and each node's health reports. */
  datatype Cluster = Cluster(
    nodes: map<NodeId, Node>,
    net: multiset<Message>,
    written: seq<DynamicConfig>,
    published: map<NodeId, seq<Health>>)

  datatype Step =
    | SendSync(at: NodeId, list: seq<NodeInfo>)
    | Announce(msg: Message)
    | Deliver(msg: Message, at: NodeId, ok: bool, okToo: bool)
    | Lose(msg: Message)
    | Duplicate(msg: Message)
    | Admin(at: NodeId, op: AdminOp, ok: bool)
    | Poll(at: NodeId, readable: bool, ok: bool)
    | Edit(at: NodeId, file: DynamicConfig)
    | Rewrite(at: NodeId, ok: bool)
    | Publish(at: NodeId, unhealthy: set<string>, now: nat)
    | Registered(at: NodeId, id: NodeId)
    | Restart(at: NodeId)

  /** The step can happen. Only `writers` change the configuration: by admin
      mutation or by an outside edit of their file. A writer restarts only when
      that is safe, and the first health report after a restart is made when the
      clock has passed the node's last one. */
  ghost predicate Enabled(s: Cluster, e: Step, writers: set<NodeId>)
  {
    match e
    case SendSync(at, list) => at in s.nodes && IsSnapshot(s.nodes[at], list)
    case Announce(m) => m.NodeJoin? || m.NodeLeave?
    case Deliver(m, at, _, _) => m in s.net && at in s.nodes
    case Lose(m) => m in s.net
    case Duplicate(m) => m in s.net
    case Admin(at, _, _) => at in s.nodes && at in writers
    case Poll(at, _, _) => at in s.nodes
    case Edit(at, _) => at in s.nodes && at in writers
    case Rewrite(at, _) => at in s.nodes
    case Publish(at, _, now) =>
      && at in s.nodes && at in s.published
      && (s.nodes[at].local == UNSET && s.published[at] != [] ==>
            now > s.published[at][|s.published[at]|-1].version)
    case Registered(at, id) => at in s.nodes
    case Restart(at) =>
      && at in s.nodes
      && (at in writers ==> SafeToRestart(s.nodes[at]))
  }

  /** The file holds what is running, or something newer. */
  predicate SafeToRestart(n: Node)
  {
    n.file == n.mem || n.file.version > n.mem.version
  }

  /** `at` now is `n`; a changed configuration is announced and, if `at` wrote
      it, recorded. */
  function Changed(s: Cluster, at: NodeId, n: Node): Cluster
    requires at in s.nodes
  {
    var s' := s.(nodes := s.nodes[at := n]);
    if n.mem == s.nodes[at].mem then s'
    else s'.(net := s.net + multiset{ConfigUpdate(n.mem)}, written := s.written + [n.mem])
  }

  lemma {:induction false} ChangedKeeps(s: Cluster, at: NodeId, n: Node)
    requires at in s.nodes
    ensures Changed(s, at, n).nodes == s.nodes[at := n] && Changed(s, at, n).published == s.published
  {
  }

  function Next(s: Cluster, e: Step, writers: set<NodeId>): Cluster
    requires Enabled(s, e, writers)
  {
    match e
    case SendSync(at, list) => s.(net := s.net + multiset{Sync(s.nodes[at].mem, list)})
    case Announce(m) => s.(net := s.net + multiset{m})
    case Deliver(m, at, ok, okToo) =>
      s.(nodes := s.nodes[at := Receive(s.nodes[at], m, ok, okToo)], net := s.net - multiset{m})
    case Lose(m) => s.(net := s.net - multiset{m})
    case Duplicate(m) => s.(net := s.net + multiset{m})
    case Admin(at, op, ok) => Changed(s, at, AdminStep(s.nodes[at], op, ok))
    case Poll(at, readable, ok) => Changed(s, at, PollStep(s.nodes[at], readable, ok))
    case Edit(at, file) => s.(nodes := s.nodes[at := s.nodes[at].(file := file)])
    case Rewrite(at, ok) => s.(nodes := s.nodes[at := Persist(s.nodes[at], ok)])
    case Publish(at, unhealthy, now) => Reported(s, at, unhealthy, now)
    case Registered(at, id) => s.(nodes := s.nodes[at := Register(s.nodes[at], id)])
    case Restart(at) =>
      var n := s.nodes[at];
      s.(nodes := s.nodes[at := Restarted(n)],
         written := if n.file.version > n.mem.version then s.written + [n.file] else s.written)
  }

  /** `at` publishes a new health report. */
  function Reported(s: Cluster, at: NodeId, unhealthy: set<string>, now: nat): Cluster
    requires at in s.nodes && at in s.published
  {
    var report := Health(NextVersion(s.nodes[at].local.version, now), unhealthy);
    s.(nodes := s.nodes[at := s.nodes[at].(local := report)],
       published := s.published[at := s.published[at] + [report]])
  }

  /** A daemon that starts again knows what its file says. */
  function Restarted(n: Node): Node
  {
    n.(mem := n.file, known := map[], local := UNSET)
  }

  /** A cluster just started: every file holds the same configuration. */
  ghost predicate Init(s: Cluster)
  {
    && (exists c :: s.written == [c])
    && s.net == multiset{}
    && s.published.Keys == s.nodes.Keys
    && (forall id :: id in s.published ==> s.published[id] == [])
    && (forall id :: id in s.nodes ==>
          var n := s.nodes[id];
          n.id == id && n.mem == n.file == s.written[0] && n.known == map[] && n.local == UNSET)
  }

  /** A run: states linked by enabled steps. */
  ghost predicate IsRun(ss: seq<Cluster>, es: seq<Step>, writers: set<NodeId>)
  {
    && |ss| == |es| + 1
    && Init(ss[0])
    && forall i :: 0 <= i < |es| ==> Enabled(ss[i], es[i], writers) && ss[i+1] == Next(ss[i], es[i], writers)
  }

  // Agreement on the configuration

  /** Everything in memory, on disk and in flight was written by `w`; `w`
      itself runs the last thing it wrote. */
  ghost predicate ConfigInv(s: Cluster, w: NodeId)
  {
    && s.written != [] && Rising(s.written)
    && (w in s.nodes ==> s.nodes[w].mem == s.written[|s.written|-1])
    && (forall id :: id in s.nodes ==> s.nodes[id].mem in s.written)
    && (forall id :: id in s.nodes && id != w ==> FileBehind(s.nodes[id], s.written))
    && (forall m :: m in s.net ==> Carries(m, s.written))
  }

  ghost predicate FileBehind(n: Node, written: seq<DynamicConfig>)
  {
    n.file in written && n.file.version <= n.mem.version
  }

  ghost predicate Carries(m: Message, written: seq<DynamicConfig>)
  {
    (m.Sync? || m.ConfigUpdate?) ==> m.config in written
  }

  lemma {:induction false} SameVersionSame(cs: seq<DynamicConfig>, a: DynamicConfig, b: DynamicConfig)
    requires Rising(cs) && a in cs && b in cs && a.version == b.version
    ensures a == b
  {
    var i :| 0 <= i < |cs| && cs[i] == a;
    var j :| 0 <= j < |cs| && cs[j] == b;
    assert cs[i].version == cs[j].version;
  }

  lemma {:induction false} LastIsNewest(cs: seq<DynamicConfig>, a: DynamicConfig)
    requires Rising(cs) && a in cs
    ensures a.version <= cs[|cs|-1].version
  {
    var i :| 0 <= i < |cs| && cs[i] == a;
    assert i < |cs| - 1 ==> cs[i].version < cs[|cs|-1].version;
  }

  /** A node whose file is a past configuration finds nothing to poll. */
  lemma {:induction false} PollFindsNothing(n: Node, written: seq<DynamicConfig>, readable: bool, ok: bool)
    requires Rising(written) && n.mem in written && FileBehind(n, written)
    ensures PollStep(n, readable, ok) == n
  {
    if n.file.version == n.mem.version {
      SameVersionSame(written, n.file, n.mem);
    }
  }

  lemma {:induction false} ReceiveConfig(n: Node, m: Message, ok: bool, okToo: bool, written: seq<DynamicConfig>)
    requires Rising(written) && n.mem in written && Carries(m, written)
    ensures var n' := Receive(n, m, ok, okToo);
      && n'.id == n.id && n'.local == n.local
      && n'.mem in written && n'.mem.version >= n.mem.version
      && (FileBehind(n, written) ==> FileBehind(n', written))
      && (n.mem == written[|written|-1] ==> n'.mem == n.mem)
  {
    hide MergeNodes, NodesChanged, Join, Rising;
    if m.Sync? || m.ConfigUpdate? {
      LastIsNewest(written, m.config);
    }
  }

  /** Replacing one node by one that still satisfies its part keeps the rest. */
  lemma {:induction false} ReplaceNode(s: Cluster, w: NodeId, at: NodeId, n: Node, net: multiset<Message>, published: map<NodeId, seq<Health>>)
    requires ConfigInv(s, w) && at in s.nodes
    requires n.mem in s.written && (at == w ==> n.mem == s.written[|s.written|-1])
    requires at != w ==> FileBehind(n, s.written)
    requires forall m :: m in net ==> m in s.net || Carries(m, s.written)
    ensures ConfigInv(Cluster(s.nodes[at := n], net, s.written, published), w)
  {
    hide Rising, FileBehind, Carries;
  }

  /** Appending a strictly newer configuration written by `w`. */
  lemma {:induction false} WriterWrites(s: Cluster, w: NodeId, n: Node)
    requires ConfigInv(s, w) && w in s.nodes
    requires n.mem.version > s.nodes[w].mem.version
    ensures ConfigInv(Changed(s, w, n), w)
  {
    var s' := Changed(s, w, n);
    assert forall c :: c in s.written ==> c in s'.written;
    assert s'.written[|s.written|] == n.mem;
    forall i, j | 0 <= i < j < |s'.written|
      ensures s'.written[i].version < s'.written[j].version
    {
      if j == |s.written| {
        assert s.written[i] in s.written;
        LastIsNewest(s.written, s.written[i]);
      }
    }
  }

  lemma {:induction false} NetStep(s: Cluster, e: Step, w: NodeId)
    requires ConfigInv(s, w) && Enabled(s, e, {w})
    requires e.SendSync? || e.Announce? || e.Lose? || e.Duplicate?
    ensures ConfigInv(Next(s, e, {w}), w)
  {
    hide Rising, FileBehind, IsSnapshot;
    var s' := Next(s, e, {w});
    forall m | m in s'.net
      ensures Carries(m, s.written)
    {
      if m !in s.net && e.SendSync? {
        assert m == Sync(s.nodes[e.at].mem, e.list);
      }
    }
  }

  lemma {:induction false} WriteStep(s: Cluster, w: NodeId, n: Node)
    requires ConfigInv(s, w) && w in s.nodes
    requires n.mem == s.nodes[w].mem || n.mem.version > s.nodes[w].mem.version
    ensures ConfigInv(Changed(s, w, n), w)
  {
    hide Rising, FileBehind;
    if n.mem != s.nodes[w].mem {
      WriterWrites(s, w, n);
    } else {
      ReplaceNode(s, w, w, n, s.net, s.published);
    }
  }

  lemma {:induction false} LocalStep(s: Cluster, e: Step, w: NodeId)
    requires ConfigInv(s, w) && Enabled(s, e, {w})
    requires e.Deliver? || e.Edit? || e.Rewrite? || e.Publish? || e.Registered? || e.Restart?
    requires e == Restart(w) ==> s.nodes[w].file == s.nodes[w].mem
    ensures ConfigInv(Next(s, e, {w}), w)
  {
    hide Rising, FileBehind, Receive, IsSnapshot, ConfigInv;
    var n, n', net := s.nodes[e.at], Next(s, e, {w}).nodes[e.at], Next(s, e, {w}).net;
    InvAt(s, w, e.at);
    match e {
      case Deliver(m, at, ok, okToo) => ReceiveConfig(n, m, ok, okToo, s.written);
      case Restart(at) =>
        if at != w {
          StartsBehind(n, s.written);
        }
      case Rewrite(_, ok) => PersistKeepsBehind(n, ok, s.written);
      case _ =>
        if !e.Edit? {
          KeepsConfig(n, n', s.written);
        }
    }
    ReplaceNode(s, w, e.at, n', net, Next(s, e, {w}).published);
  }

  lemma {:induction false} InvAt(s: Cluster, w: NodeId, at: NodeId)
    requires ConfigInv(s, w) && at in s.nodes
    ensures s.written != [] && Rising(s.written) && s.nodes[at].mem in s.written
    ensures at == w ==> s.nodes[w].mem == s.written[|s.written|-1]
    ensures at != w ==> FileBehind(s.nodes[at], s.written)
    ensures forall m :: m in s.net ==> Carries(m, s.written)
  {
  }

  lemma {:induction false} ConfigStep(s: Cluster, e: Step, w: NodeId)
    requires ConfigInv(s, w) && Enabled(s, e, {w})
    ensures ConfigInv(Next(s, e, {w}), w)
  {
    hide Rising, FileBehind, MergeNodes, Mutate, IsSnapshot, ConfigInv, Receive;
    match e {
      case Admin(at, op, ok) => WriteStep(s, w, AdminStep(s.nodes[w], op, ok));
      case Poll(at, readable, ok) =>
        if at == w {
          WriteStep(s, w, PollStep(s.nodes[w], readable, ok));
        } else {
          InvAt(s, w, at);
          PollFindsNothing(s.nodes[at], s.written, readable, ok);
          ReplaceNode(s, w, at, s.nodes[at], s.net, s.published);
        }
      case _ =>
        if e.SendSync? || e.Announce? || e.Lose? || e.Duplicate? {
          NetStep(s, e, w);
        } else if e == Restart(w) {
          RestartStep(s, w);
        } else {
          LocalStep(s, e, w);
        }
    }
  }

  lemma {:induction false} PersistKeepsBehind(n: Node, ok: bool, written: seq<DynamicConfig>)
    requires n.mem in written
    ensures Persist(n, ok).mem == n.mem
    ensures FileBehind(n, written) ==> FileBehind(Persist(n, ok), written)
  {
  }

  lemma {:induction false} FewerMessages(s: Cluster, w: NodeId, net: multiset<Message>)
    requires ConfigInv(s, w) && forall m :: m in net ==> m in s.net
    ensures ConfigInv(s.(net := net), w)
  {
    hide Rising, FileBehind, Carries;
  }

  /** A writer that restarts with a newer file has written it. */
  lemma {:induction false} RestartStep(s: Cluster, w: NodeId)
    requires ConfigInv(s, w) && Enabled(s, Restart(w), {w})
    ensures ConfigInv(Next(s, Restart(w), {w}), w)
  {
    var n := s.nodes[w];
    if n.file == n.mem {
      LocalStep(s, Restart(w), w);
    } else {
      WriterWrites(s, w, Restarted(n));
      FewerMessages(Changed(s, w, Restarted(n)), w, s.net);
      hide ConfigInv;
      assert Next(s, Restart(w), {w}) == Changed(s, w, Restarted(n)).(net := s.net);
    }
  }

  lemma {:induction false} KeepsConfig(n: Node, n': Node, written: seq<DynamicConfig>)
    requires n'.mem == n.mem && n'.file == n.file
    ensures FileBehind(n, written) ==> FileBehind(n', written)
  {
  }

  lemma {:induction false} StartsBehind(n: Node, written: seq<DynamicConfig>)
    requires FileBehind(n, written)
    ensures n.file in written && FileBehind(Restarted(n), written) && n.file.version <= n.mem.version
  {
  }

  lemma {:induction false} ConfigAlways(ss: seq<Cluster>, es: seq<Step>, w: NodeId, i: nat)
    requires IsRun(ss, es, {w}) && i < |ss|
    ensures ConfigInv(ss[i], w)
  {
    if i > 0 {
      ConfigAlways(ss, es, w, i - 1);
      assert Enabled(ss[i-1], es[i-1], {w}) && ss[i-1+1] == Next(ss[i-1], es[i-1], {w});
      ConfigStep(ss[i-1], es[i-1], w);
    }
  }

  /** `c` is running somewhere or in flight. */
  ghost predicate Around(s: Cluster, c: DynamicConfig)
  {
    || (exists id :: id in s.nodes && s.nodes[id].mem == c)
    || (exists m :: m in s.net && (m.Sync? || m.ConfigUpdate?) && m.config == c)
  }

  /** Equal versions mean equal contents. */
  ghost predicate Agreed(s: Cluster)
  {
    forall a, b :: Around(s, a) && Around(s, b) && a.version == b.version ==> a == b
  }

  /** Config agreement: with a single writer, in every reachable state each
      configuration around was written by it, none is newer than what it runs,
      and equal versions mean equal contents. */
  lemma {:induction false} Agreement(ss: seq<Cluster>, es: seq<Step>, w: NodeId, i: nat)
    requires IsRun(ss, es, {w}) && i < |ss| && w in ss[i].nodes
    ensures forall c :: Around(ss[i], c) ==> c in ss[i].written && c.version <= ss[i].nodes[w].mem.version
    ensures Agreed(ss[i])
  {
    hide IsRun, Rising, Around;
    ConfigAlways(ss, es, w, i);
    AgreedAlways(ss, es, w, i);
    var s := ss[i];
    forall c | Around(s, c)
      ensures c in s.written && c.version <= s.nodes[w].mem.version
    {
      AroundIsWritten(s, w, c);
      LastIsNewest(s.written, c);
    }
  }

  lemma {:induction false} AgreedAlways(ss: seq<Cluster>, es: seq<Step>, w: NodeId, i: nat)
    requires IsRun(ss, es, {w}) && i < |ss|
    ensures Agreed(ss[i])
  {
    hide IsRun, Rising, Around;
    ConfigAlways(ss, es, w, i);
    var s := ss[i];
    forall a, b | Around(s, a) && Around(s, b) && a.version == b.version
      ensures a == b
    {
      AroundIsWritten(s, w, a);
      AroundIsWritten(s, w, b);
      SameVersionSame(s.written, a, b);
    }
  }

  lemma {:induction false} AroundIsWritten(s: Cluster, w: NodeId, c: DynamicConfig)
    requires ConfigInv(s, w) && Around(s, c)
    ensures c in s.written
  {
    if m :| m in s.net && (m.Sync? || m.ConfigUpdate?) && m.config == c {
      assert Carries(m, s.written);
    }
  }

  /** Delivering a configuration, alone or in a Sync, adopts it if newer. */
  lemma {:induction false} DeliveryAdopts(n: Node, m: Message, ok: bool, okToo: bool)
    requires m.Sync? || m.ConfigUpdate?
    ensures Receive(n, m, ok, okToo).mem == Adopt(n.mem, m.config)
  {
    hide MergeNodes, NodesChanged;
  }

  // What a node saves

  /** The step's first persist at `at`, if it makes one, succeeds; it is no edit
      of the file. */
  predicate Saves(e: Step, at: NodeId)
  {
    match e
    case Deliver(_, to, ok, _) => to == at ==> ok
    case Admin(to, _, ok) => to == at ==> ok
    case Poll(to, _, ok) => to == at ==> ok
    case Edit(to, _) => to != at
    case _ => true
  }

  lemma {:induction false} ReceiveSaves(n: Node, m: Message, okToo: bool)
    requires n.file == n.mem
    ensures Receive(n, m, true, okToo).file == Receive(n, m, true, okToo).mem
  {
    hide MergeNodes, NodesChanged, Join;
  }

  lemma {:induction false} StepSaves(s: Cluster, e: Step, writers: set<NodeId>, at: NodeId)
    requires Enabled(s, e, writers) && at in s.nodes && s.nodes[at].file == s.nodes[at].mem && Saves(e, at)
    ensures at in Next(s, e, writers).nodes && Next(s, e, writers).nodes[at].file == Next(s, e, writers).nodes[at].mem
  {
    hide Receive, IsSnapshot, Mutate;
    if e.Deliver? && e.at == at {
      ReceiveSaves(s.nodes[at], e.msg, e.okToo);
    }
  }

  /** In any run, while a node's persists succeed and nobody edits its file, the
      file holds what the node runs, so a restart brings back exactly that. */
  lemma {:induction false} SavedInRuns(ss: seq<Cluster>, es: seq<Step>, writers: set<NodeId>, i: nat, at: NodeId)
    requires IsRun(ss, es, writers) && i < |ss| && at in ss[0].nodes
    requires forall k :: 0 <= k < i ==> Saves(es[k], at)
    ensures at in ss[i].nodes && ss[i].nodes[at].file == ss[i].nodes[at].mem
    ensures Restarted(ss[i].nodes[at]).mem == ss[i].nodes[at].mem
  {
    hide Next, Enabled, Saves;
    if i > 0 {
      SavedInRuns(ss, es, writers, i - 1, at);
      assert Enabled(ss[i-1], es[i-1], writers) && ss[i-1+1] == Next(ss[i-1], es[i-1], writers);
      StepSaves(ss[i-1], es[i-1], writers, at);
    }
  }

  // Convergence, whatever else happens in between

  /** The step takes a configuration from `at`: a restart behind a persist that
      failed. */
  ghost predicate Loses(s: Cluster, e: Step, at: NodeId)
  {
    e == Restart(at) && at in s.nodes && s.nodes[at].file.version < s.nodes[at].mem.version
  }

  ghost predicate NothingLost(ss: seq<Cluster>, es: seq<Step>, at: NodeId, i: nat, j: nat)
    requires |ss| == |es| + 1 && j < |ss|
  {
    forall k :: i <= k < j ==> !Loses(ss[k], es[k], at)
  }

  lemma {:induction false} ReceiveRaises(n: Node, m: Message, ok: bool, okToo: bool)
    ensures Receive(n, m, ok, okToo).mem.version >= n.mem.version
  {
    hide MergeNodes, NodesChanged, Join;
  }

  /** Any writers: apart from such a loss no step lowers a node's version, and
      the record of what was written only grows. */
  lemma {:induction false} StepRaises(s: Cluster, e: Step, writers: set<NodeId>, at: NodeId)
    requires Enabled(s, e, writers)
    ensures Next(s, e, writers).nodes.Keys == s.nodes.Keys && s.written <= Next(s, e, writers).written
    ensures at in s.nodes && !Loses(s, e, at) ==>
      Next(s, e, writers).nodes[at].mem.version >= s.nodes[at].mem.version
  {
    hide Receive, IsSnapshot, Mutate;
    if e.Deliver? {
      ReceiveRaises(s.nodes[e.at], e.msg, e.ok, e.okToo);
    }
  }

  lemma {:induction false} VersionsRise(ss: seq<Cluster>, es: seq<Step>, writers: set<NodeId>, i: nat, j: nat, at: NodeId)
    requires IsRun(ss, es, writers) && i <= j < |ss|
    ensures ss[j].nodes.Keys == ss[i].nodes.Keys && ss[i].written <= ss[j].written
    ensures at in ss[i].nodes && NothingLost(ss, es, at, i, j) ==>
      ss[j].nodes[at].mem.version >= ss[i].nodes[at].mem.version
    decreases j
  {
    hide Next, Enabled, Loses;
    if i < j {
      VersionsRise(ss, es, writers, i, j - 1, at);
      assert ss[j-1+1] == Next(ss[j-1], es[j-1], writers);
      StepRaises(ss[j-1], es[j-1], writers, at);
    }
  }

  /** Whatever a node ran at `k` was written, and is no newer than what the
      writer runs at `j`; at the same version it is the same. */
  lemma {:induction false} RunsWritten(ss: seq<Cluster>, es: seq<Step>, w: NodeId, k: nat, j: nat, at: NodeId)
    requires IsRun(ss, es, {w}) && k <= j < |ss| && at in ss[k].nodes
    ensures at in ss[j].nodes && Rising(ss[j].written) && ss[k].nodes[at].mem in ss[j].written
    ensures w in ss[j].nodes ==>
      var c := ss[j].nodes[w].mem;
      && c in ss[j].written
      && ss[k].nodes[at].mem.version <= c.version
      && (ss[k].nodes[at].mem.version == c.version ==> ss[k].nodes[at].mem == c)
  {
    hide IsRun, Rising, FileBehind, Carries;
    ConfigAlways(ss, es, w, k);
    ConfigAlways(ss, es, w, j);
    VersionsRise(ss, es, {w}, k, j, at);
    var c := ss[k].nodes[at].mem;
    assert c in ss[j].written;
    LastIsNewest(ss[j].written, c);
    if c.version == ss[j].written[|ss[j].written|-1].version {
      SameVersionSame(ss[j].written, c, ss[j].written[|ss[j].written|-1]);
    }
  }

  /** A node that has what the writer runs at `j` keeps it until then. */
  lemma {:induction false} HolderKeeps(ss: seq<Cluster>, es: seq<Step>, w: NodeId, i: nat, k: nat, j: nat, at: NodeId)
    requires IsRun(ss, es, {w}) && i <= k <= j < |ss| && at in ss[i].nodes && w in ss[j].nodes
    requires ss[i].nodes[at].mem == ss[j].nodes[w].mem && NothingLost(ss, es, at, i, k)
    ensures at in ss[k].nodes && ss[k].nodes[at].mem == ss[j].nodes[w].mem
  {
    hide IsRun, NothingLost, Rising;
    VersionsRise(ss, es, {w}, i, k, at);
    RunsWritten(ss, es, w, k, j, at);
  }

  /** Step `k` delivers configuration `c` to `b`. */
  ghost predicate Delivers(e: Step, b: NodeId, c: DynamicConfig)
  {
    e.Deliver? && e.at == b && (e.msg.Sync? || e.msg.ConfigUpdate?) && e.msg.config == c
  }

  lemma {:induction false} DeliveryStep(s: Cluster, e: Step, writers: set<NodeId>, b: NodeId, c: DynamicConfig)
    requires Enabled(s, e, writers) && Delivers(e, b, c)
    ensures b in s.nodes && b in Next(s, e, writers).nodes
    ensures Next(s, e, writers).nodes[b].mem == Adopt(s.nodes[b].mem, c)
  {
    hide Receive;
    DeliveryAdopts(s.nodes[b], e.msg, e.ok, e.okToo);
  }

  /** A delivery of what the writer runs at `j` is enough: from then until `j`
      the receiver runs it too, whatever is interleaved. */
  lemma {:induction false} DeliveryInforms(ss: seq<Cluster>, es: seq<Step>, w: NodeId, d: nat, k: nat, j: nat, b: NodeId)
    requires IsRun(ss, es, {w}) && d < k <= j < |ss| && w in ss[j].nodes
    requires Delivers(es[d], b, ss[j].nodes[w].mem) && NothingLost(ss, es, b, d + 1, k)
    ensures b in ss[k].nodes && ss[k].nodes[b].mem == ss[j].nodes[w].mem
  {
    hide NothingLost, Next, Enabled, Delivers, Rising;
    assert Enabled(ss[d], es[d], {w}) && ss[d+1] == Next(ss[d], es[d], {w});
    DeliveryStep(ss[d], es[d], {w}, b, ss[j].nodes[w].mem);
    RunsWritten(ss, es, w, d, j, b);
    HolderKeeps(ss, es, w, d + 1, k, j, b);
  }

  /** A relayed message: sent at step `sent`, taken by `to` at `delivered`. */
  datatype Hop = Hop(sent: nat, delivered: nat, to: NodeId)

  /** The hops chain outward from `from`, which is heard from step `since` on:
      each sender sends after it was told and has lost nothing meanwhile. */
  ghost predicate Relayed(ss: seq<Cluster>, es: seq<Step>, from: NodeId, since: nat, path: seq<Hop>, until: nat)
    requires |ss| == |es| + 1 && until < |ss|
    decreases |path|
  {
    path == [] ||
    var h := path[0];
    && since <= h.sent < h.delivered < until
    && es[h.sent].SendSync? && es[h.sent].at == from && from in ss[h.sent].nodes
    && es[h.delivered].Deliver? && es[h.delivered].at == h.to
    && es[h.delivered].msg == Sync(ss[h.sent].nodes[from].mem, es[h.sent].list)
    && NothingLost(ss, es, from, since, h.sent)
    && Relayed(ss, es, h.to, h.delivered + 1, path[1..], until)
  }

  /** Spreading: if `from` has at `i` what the writer runs at `j`, then along
      every chain of syncs in between, with any other steps, losses, repetitions
      and reorderings around them, each node reached runs that configuration
      from its delivery on, until `j`, unless it restarts behind its file. */
  lemma {:induction false} ReachableSpread(ss: seq<Cluster>, es: seq<Step>, w: NodeId, from: NodeId, i: nat, path: seq<Hop>, j: nat, n: nat, k: nat)
    requires IsRun(ss, es, {w}) && i <= j < |ss| && from in ss[i].nodes && w in ss[j].nodes
    requires ss[i].nodes[from].mem == ss[j].nodes[w].mem
    requires Relayed(ss, es, from, i, path, j)
    requires n < |path| && path[n].delivered < k <= j
    requires NothingLost(ss, es, path[n].to, path[n].delivered + 1, k)
    ensures path[n].to in ss[k].nodes && ss[k].nodes[path[n].to].mem == ss[j].nodes[w].mem
    decreases |path|
  {
    hide NothingLost, Rising, Init, Next, Enabled;
    var h := path[0];
    HolderKeeps(ss, es, w, i, h.sent, j, from);
    assert Delivers(es[h.delivered], h.to, ss[j].nodes[w].mem);
    if n == 0 {
      DeliveryInforms(ss, es, w, h.delivered, k, j, h.to);
    } else {
      NothingToLose(ss, es, h.to, h.delivered + 1);
      DeliveryInforms(ss, es, w, h.delivered, h.delivered + 1, j, h.to);
      ReachableSpread(ss, es, w, h.to, h.delivered + 1, path[1..], j, n - 1, k);
    }
  }

  lemma {:induction false} NothingToLose(ss: seq<Cluster>, es: seq<Step>, at: NodeId, i: nat)
    requires |ss| == |es| + 1 && i < |ss|
    ensures NothingLost(ss, es, at, i, i)
  {
  }

  /** The four events of a sync between `a` and `b`, at steps of the run. */
  datatype Sync4 = Sync4(sent: nat, merged: nat, replied: nat, done: nat)

  ghost predicate Synced(ss: seq<Cluster>, es: seq<Step>, a: NodeId, b: NodeId, x: Sync4)
    requires |ss| == |es| + 1
  {
    && x.sent < x.merged < x.replied < x.done < |es|
    && a in ss[x.sent].nodes && b in ss[x.replied].nodes
    && es[x.sent].SendSync? && es[x.sent].at == a
    && es[x.merged].Deliver? && es[x.merged].at == b
    && es[x.merged].msg == Sync(ss[x.sent].nodes[a].mem, es[x.sent].list)
    && es[x.replied].SendSync? && es[x.replied].at == b
    && es[x.done].Deliver? && es[x.done].at == a
    && es[x.done].msg == Sync(ss[x.replied].nodes[b].mem, es[x.replied].list)
  }

  /** `c` is at least as new as `top`, and `top` itself at the same version. */
  ghost predicate NoOlderThan(top: DynamicConfig, c: DynamicConfig)
  {
    c.version >= top.version && (c.version == top.version ==> c == top)
  }

  lemma {:induction false} NoOlderIn(written: seq<DynamicConfig>, top: DynamicConfig, c: DynamicConfig)
    requires Rising(written) && top in written && c in written && c.version >= top.version
    ensures NoOlderThan(top, c)
  {
    if c.version == top.version {
      SameVersionSame(written, c, top);
    }
  }

  /** A sync exchange with anything interleaved between its four events: with
      `top` the newer of what the two ends had, both ends finish at `top` or at
      something newer that reached them meanwhile, and at equal versions they are
      equal. */
  lemma {:induction false} ExchangeByMessages(ss: seq<Cluster>, es: seq<Step>, w: NodeId, a: NodeId, b: NodeId, x: Sync4)
    requires IsRun(ss, es, {w}) && Synced(ss, es, a, b, x)
    requires NothingLost(ss, es, b, x.merged + 1, x.done + 1)
    ensures b in ss[x.merged].nodes && a in ss[x.done+1].nodes && b in ss[x.done+1].nodes
    ensures var top := Adopt(ss[x.merged].nodes[b].mem, ss[x.sent].nodes[a].mem);
      var a', b' := ss[x.done+1].nodes[a].mem, ss[x.done+1].nodes[b].mem;
      && NoOlderThan(ss[x.sent].nodes[a].mem, top) && NoOlderThan(ss[x.merged].nodes[b].mem, top)
      && NoOlderThan(top, a') && NoOlderThan(top, b')
      && (a'.version == b'.version ==> a' == b')
      && ((a' == top && b' == top) || a'.version > top.version || b'.version > top.version)
  {
    hide Next, Enabled, NothingLost, Rising, NoOlderThan;
    var end := x.done + 1;
    var sent, back := ss[x.sent].nodes[a].mem, ss[x.replied].nodes[b].mem;
    assert Enabled(ss[x.merged], es[x.merged], {w}) && ss[x.merged+1] == Next(ss[x.merged], es[x.merged], {w});
    assert Enabled(ss[x.done], es[x.done], {w}) && ss[x.done+1] == Next(ss[x.done], es[x.done], {w});
    DeliveryStep(ss[x.merged], es[x.merged], {w}, b, sent);
    DeliveryStep(ss[x.done], es[x.done], {w}, a, back);
    var had := ss[x.merged].nodes[b].mem;
    var top := Adopt(had, sent);
    NothingLostWithin(ss, es, b, x.merged + 1, x.replied, end);
    VersionsRise(ss, es, {w}, x.merged + 1, x.replied, b);
    VersionsRise(ss, es, {w}, x.merged + 1, end, b);
    RunsWritten(ss, es, w, x.merged, end, b);
    RunsWritten(ss, es, w, x.sent, end, a);
    RunsWritten(ss, es, w, end, end, a);
    RunsWritten(ss, es, w, end, end, b);
    var a', b' := ss[end].nodes[a].mem, ss[end].nodes[b].mem;
    NoOlderIn(ss[end].written, sent, top);
    NoOlderIn(ss[end].written, had, top);
    NoOlderIn(ss[end].written, top, a');
    NoOlderIn(ss[end].written, top, b');
    EndsMeet(ss[end].written, top, a', b');
  }

  lemma {:induction false} EndsMeet(written: seq<DynamicConfig>, top: DynamicConfig, a: DynamicConfig, b: DynamicConfig)
    requires Rising(written) && a in written && b in written && NoOlderThan(top, a) && NoOlderThan(top, b)
    ensures a.version == b.version ==> a == b
    ensures (a == top && b == top) || a.version > top.version || b.version > top.version
  {
    if a.version == b.version {
      SameVersionSame(written, a, b);
    }
  }

  lemma {:induction false} NothingLostWithin(ss: seq<Cluster>, es: seq<Step>, at: NodeId, i: nat, k: nat, j: nat)
    requires |ss| == |es| + 1 && k <= j < |ss| && NothingLost(ss, es, at, i, j)
    ensures NothingLost(ss, es, at, i, k)
  {
  }

  /** In particular, if either end started with what the writer runs when the
      sync is done, both ends run it then. */
  lemma {:induction false} ReachableExchange(ss: seq<Cluster>, es: seq<Step>, w: NodeId, a: NodeId, b: NodeId, x: Sync4)
    requires IsRun(ss, es, {w}) && Synced(ss, es, a, b, x) && w in ss[x.done+1].nodes
    requires NothingLost(ss, es, b, x.merged + 1, x.done + 1)
    requires b in ss[x.merged].nodes && ss[x.done+1].nodes[w].mem in {ss[x.sent].nodes[a].mem, ss[x.merged].nodes[b].mem}
    ensures a in ss[x.done+1].nodes && ss[x.done+1].nodes[a].mem == ss[x.done+1].nodes[w].mem
    ensures b in ss[x.done+1].nodes && ss[x.done+1].nodes[b].mem == ss[x.done+1].nodes[w].mem
  {
    hide NothingLost, Rising, Init, Next, Enabled;
    ExchangeByMessages(ss, es, w, a, b, x);
    RunsWritten(ss, es, w, x.done + 1, x.done + 1, a);
    RunsWritten(ss, es, w, x.done + 1, x.done + 1, b);
  }
}
