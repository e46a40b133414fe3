/** Why the agreement theorem asks for a single writer: merges compare with a
    strict `>`, so two writers can settle on different configurations of the
    same version for ever. */
module Divergence {
  import opened Common
  import opened Configs
  import opened Replication
  import opened Clusters

  /** One service on two different ports: adding it one way or the other gives
      different configurations. */
  function Sample(port: nat): Service
  {
    Service("api", "a", port, [], 1, None, Tcp, None, None, map[], map[], None)
  }

  function Add(port: nat): AdminOp
  {
    ServiceAdd("g", Sample(port))
  }

  lemma {:induction false} AddSucceeds(c: DynamicConfig, port: nat)
    ensures Mutate(c, Add(port)).Ok? && Mutate(c, Add(port)).config == Upsert(c, "g", Sample(port))
    ensures Mutate(c, Add(port)).config.version == c.version + 1
    ensures Lookup(Mutate(c, Add(port)).config, Key("g", "a", "api")) == Some(Sample(port))
  {
    UpsertLookup(c, "g", Sample(port), Key("g", "a", "api"));
  }

  lemma {:induction false} AddsDiffer(c: DynamicConfig, d: DynamicConfig, p: nat, q: nat)
    requires p != q
    ensures Mutate(c, Add(p)).Ok? && Mutate(d, Add(q)).Ok? && Mutate(c, Add(p)).config != Mutate(d, Add(q)).config
  {
    hide Mutate, Lookup;
    AddSucceeds(c, p);
    AddSucceeds(d, q);
    assert Sample(p).nodePort != Sample(q).nodePort;
  }

  /** Two configurations of one version survive any exchange unchanged. */
  lemma {:induction false} EqualVersionsNeverMeet(a: DynamicConfig, b: DynamicConfig)
    requires a.version == b.version
    ensures Exchange(a, b) == (a, b)
  {
  }

  /** Exchanges never move a node off the highest version around, so nodes that
      differ there differ for ever, whatever the others hold. */
  lemma {:induction false} StuckForEver(held: map<NodeId, DynamicConfig>, links: seq<Link>, v: nat, at: NodeId)
    requires LinksWithin(links, held.Keys)
    requires forall id :: id in held ==> held[id].version <= v
    requires at in held && held[at].version == v
    ensures Exchanges(held, links)[at] == held[at]
    ensures forall id :: id in held ==> Exchanges(held, links)[id].version <= v
  {
    if links != [] {
      StuckForEver(held, links[..|links|-1], v, at);
      var l, m := links[|links|-1], Exchanges(held, links[..|links|-1]);
      ExchangeMeets(m[l.from], m[l.to]);
    }
  }

  // Two writers

  lemma {:induction false} AddStep(n: Node, port: nat, ok: bool)
    ensures Mutate(n.mem, Add(port)).Ok?
    ensures var n' := AdminStep(n, Add(port), ok);
      && n'.mem == Mutate(n.mem, Add(port)).config && n'.mem.version == n.mem.version + 1
      && n'.file == if ok then n'.mem else n.file
  {
    hide Mutate;
    AddSucceeds(n.mem, port);
  }

  lemma {:induction false} AddAround(s: Cluster, at: NodeId, port: nat, ok: bool, writers: set<NodeId>)
    requires at in s.nodes && at in writers
    ensures Enabled(s, Admin(at, Add(port), ok), writers)
    ensures var s', n' := Next(s, Admin(at, Add(port), ok), writers), AdminStep(s.nodes[at], Add(port), ok);
      s'.nodes == s.nodes[at := n'] && s'.net == s.net + multiset{ConfigUpdate(n'.mem)}
  {
    hide Mutate, AdminStep;
    AddStep(s.nodes[at], port, ok);
  }

  /** The same start and the same number of mutations, but not the same. */
  lemma {:induction false} AddsPart(n: Node, m: Node, ok: bool, ok': bool)
    requires n.mem == m.mem
    ensures var n', m' := AdminStep(n, Add(1), ok), AdminStep(m, Add(2), ok');
      n'.mem.version == m'.mem.version && n'.mem != m'.mem
  {
    hide Mutate, AdminStep;
    AddStep(n, 1, ok);
    AddStep(m, 2, ok');
    AddsDiffer(n.mem, m.mem, 1, 2);
  }

  lemma {:induction false} TwoSteps(s0: Cluster, e0: Step, e1: Step, writers: set<NodeId>)
    requires Init(s0) && Enabled(s0, e0, writers) && Enabled(Next(s0, e0, writers), e1, writers)
    ensures IsRun([s0, Next(s0, e0, writers), Next(Next(s0, e0, writers), e1, writers)], [e0, e1], writers)
  {
    hide Init, Enabled, Next;
    var s1 := Next(s0, e0, writers);
    var ss, es := [s0, s1, Next(s1, e1, writers)], [e0, e1];
    assert ss[0] == s0 && ss[1] == s1 && es[0] == e0 && es[1] == e1;
    forall i | 0 <= i < |es|
      ensures Enabled(ss[i], es[i], writers) && ss[i+1] == Next(ss[i], es[i], writers)
    {
      assert i == 0 || i == 1;
    }
  }

  lemma {:induction false} Disagree(s: Cluster, c: DynamicConfig, d: DynamicConfig)
    requires Around(s, c) && Around(s, d) && c.version == d.version && c != d
    ensures !Agreed(s)
  {
  }

  /** From every initial cluster, two writers can part ways in two steps. */
  lemma {:induction false} TwoWritersDiverge(s0: Cluster, writers: set<NodeId>, a: NodeId, b: NodeId)
    returns (ss: seq<Cluster>, es: seq<Step>)
    requires Init(s0) && a != b && {a, b} <= writers && a in s0.nodes && b in s0.nodes
    ensures IsRun(ss, es, writers) && ss[0] == s0 && !Agreed(ss[|ss|-1])
    ensures var s := ss[|ss|-1];
      && a in s.nodes && b in s.nodes
      && s.nodes[a].mem.version == s.nodes[b].mem.version && s.nodes[a].mem != s.nodes[b].mem
      && s.nodes[a].file == s.nodes[a].mem && s.nodes[b].file == s.nodes[b].mem
      && Capped(s, s.nodes[a].mem.version)
  {
    hide Mutate, AdminStep, Next, Enabled, Agreed, IsRun;
    var e0, e1 := Admin(a, Add(1), true), Admin(b, Add(2), true);
    AddAround(s0, a, 1, true, writers);
    var s1 := Next(s0, e0, writers);
    AddAround(s1, b, 2, true, writers);
    var s2 := Next(s1, e1, writers);
    AddsPart(s0.nodes[a], s0.nodes[b], true, true);
    TwoSteps(s0, e0, e1, writers);
    AddStep(s0.nodes[a], 1, true);
    AddStep(s1.nodes[b], 2, true);
    assert s2.nodes[a] == s1.nodes[a] && s1.nodes[b] == s0.nodes[b];
    assert Around(s2, s2.nodes[a].mem) && Around(s2, s2.nodes[b].mem);
    Disagree(s2, s2.nodes[a].mem, s2.nodes[b].mem);
    ss, es := [s0, s1, s2], [e0, e1];
  }

  // Nothing repairs it

  /** Up to version `v`, and the file holds what is running or something older. */
  predicate Calm(n: Node, v: nat)
  {
    n.mem.version <= v && (n.file == n.mem || n.file.version < n.mem.version)
  }

  predicate Small(m: Message, v: nat)
  {
    m.Sync? || m.ConfigUpdate? ==> m.config.version <= v
  }

  /** Nothing in memory, on disk or in flight is above `v`. */
  ghost predicate Capped(s: Cluster, v: nat)
  {
    (forall id :: id in s.nodes ==> Calm(s.nodes[id], v)) && (forall m :: m in s.net ==> Small(m, v))
  }

  predicate Writes(e: Step)
  {
    e.Admin? || e.Edit?
  }

  /** A node at `v` keeps its configuration, and its file if that holds it. */
  predicate Unmoved(n: Node, n': Node, v: nat)
  {
    n.mem.version == v ==> n'.mem == n.mem && (n.file == n.mem ==> n'.file == n'.mem)
  }

  lemma {:induction false} ReceiveCalm(n: Node, m: Message, ok: bool, okToo: bool, v: nat)
    requires Calm(n, v) && Small(m, v)
    ensures Calm(Receive(n, m, ok, okToo), v) && Unmoved(n, Receive(n, m, ok, okToo), v)
  {
    hide MergeNodes, NodesChanged, Join;
  }

  lemma {:induction false} PollCalm(n: Node, readable: bool, ok: bool, v: nat)
    requires Calm(n, v)
    ensures PollStep(n, readable, ok) == n
  {
  }

  /** What a step that writes nothing does to a node. */
  lemma {:induction false} CalmStep(s: Cluster, e: Step, writers: set<NodeId>, v: nat, id: NodeId)
    requires Capped(s, v) && Enabled(s, e, writers) && !Writes(e) && id in s.nodes
    ensures id in Next(s, e, writers).nodes && Calm(Next(s, e, writers).nodes[id], v)
    ensures !Loses(s, e, id) ==> Unmoved(s.nodes[id], Next(s, e, writers).nodes[id], v)
  {
    hide Receive, PollStep, IsSnapshot;
    var n := s.nodes[id];
    assert Calm(n, v);
    match e {
      case Deliver(m, at, ok, okToo) =>
        assert Small(m, v);
        if at == id {
          ReceiveCalm(n, m, ok, okToo, v);
        }
      case Poll(at, readable, ok) => PollCalm(s.nodes[at], readable, ok, v);
      case _ =>
    }
  }

  lemma {:induction false} SmallStep(s: Cluster, e: Step, writers: set<NodeId>, v: nat, m: Message)
    requires Capped(s, v) && Enabled(s, e, writers) && !Writes(e) && m in Next(s, e, writers).net
    ensures Small(m, v)
  {
    hide Receive, PollStep, IsSnapshot;
    if e.SendSync? && m !in s.net {
      assert m == Sync(s.nodes[e.at].mem, e.list);
      assert Calm(s.nodes[e.at], v);
    } else if e.Poll? {
      PollCalm(s.nodes[e.at], e.readable, e.ok, v);
    }
  }

  lemma {:induction false} CappedStep(s: Cluster, e: Step, writers: set<NodeId>, v: nat)
    requires Capped(s, v) && Enabled(s, e, writers) && !Writes(e)
    ensures Capped(Next(s, e, writers), v)
  {
    hide Next, Enabled, Calm, Small;
    var s' := Next(s, e, writers);
    StepRaises(s, e, writers, "");
    forall id | id in s'.nodes
      ensures Calm(s'.nodes[id], v)
    {
      CalmStep(s, e, writers, v, id);
    }
    forall m | m in s'.net
      ensures Small(m, v)
    {
      SmallStep(s, e, writers, v, m);
    }
  }

  ghost predicate NothingWritten(es: seq<Step>, i: nat, j: nat)
    requires j <= |es|
  {
    forall k :: i <= k < j ==> !Writes(es[k])
  }

  /** Over any stretch of a run in which nobody writes, with any syncs, losses,
      repetitions, polls and restarts: nothing rises above `v`, and a node at `v`
      keeps its configuration unless it restarts behind its file. */
  lemma {:induction false} StuckInRuns(ss: seq<Cluster>, es: seq<Step>, writers: set<NodeId>, i: nat, j: nat, v: nat, at: NodeId)
    requires IsRun(ss, es, writers) && i <= j < |ss| && Capped(ss[i], v) && at in ss[i].nodes
    requires NothingWritten(es, i, j)
    ensures Capped(ss[j], v) && at in ss[j].nodes
    ensures ss[i].nodes[at].mem.version == v && NothingLost(ss, es, at, i, j) ==> ss[j].nodes[at].mem == ss[i].nodes[at].mem
    ensures ss[i].nodes[at].mem.version == v && ss[i].nodes[at].file == ss[i].nodes[at].mem ==>
      ss[j].nodes[at].mem == ss[i].nodes[at].mem == ss[j].nodes[at].file
    decreases j
  {
    hide Next, Enabled, Capped, Writes, Init;
    if i < j {
      StuckInRuns(ss, es, writers, i, j - 1, v, at);
      assert Enabled(ss[j-1], es[j-1], writers) && ss[j-1+1] == Next(ss[j-1], es[j-1], writers);
      CappedStep(ss[j-1], es[j-1], writers, v);
      CalmStep(ss[j-1], es[j-1], writers, v, at);
    }
  }

  /** The run continues `first` up to its state `j` without a write. */
  ghost predicate GoesOn(first: seq<Cluster>, steps: seq<Step>, ss: seq<Cluster>, es: seq<Step>, writers: set<NodeId>, j: nat)
  {
    && IsRun(ss, es, writers) && first <= ss && steps <= es
    && |steps| <= j < |ss| && NothingWritten(es, |steps|, j)
  }

  /** No run that goes on from the parting of two writers repairs it, however
      many other nodes there are, as long as nobody writes again. */
  lemma {:induction false} NothingRepairs(s0: Cluster, writers: set<NodeId>, a: NodeId, b: NodeId)
    returns (first: seq<Cluster>, steps: seq<Step>)
    requires Init(s0) && a != b && {a, b} <= writers && a in s0.nodes && b in s0.nodes
    ensures IsRun(first, steps, writers) && first[0] == s0
    ensures forall ss: seq<Cluster>, es: seq<Step>, j: nat :: GoesOn(first, steps, ss, es, writers, j) ==> !Agreed(ss[j])
  {
    first, steps := TwoWritersDiverge(s0, writers, a, b);
    forall ss: seq<Cluster>, es: seq<Step>, j: nat | GoesOn(first, steps, ss, es, writers, j)
      ensures !Agreed(ss[j])
    {
      StayApart(ss, es, writers, |steps|, j, a, b);
    }
  }

  lemma {:induction false} StayApart(ss: seq<Cluster>, es: seq<Step>, writers: set<NodeId>, i: nat, j: nat, a: NodeId, b: NodeId)
    requires IsRun(ss, es, writers) && i <= j < |ss| && a in ss[i].nodes && b in ss[i].nodes && NothingWritten(es, i, j)
    requires ss[i].nodes[a].mem.version == ss[i].nodes[b].mem.version && ss[i].nodes[a].mem != ss[i].nodes[b].mem
    requires ss[i].nodes[a].file == ss[i].nodes[a].mem && ss[i].nodes[b].file == ss[i].nodes[b].mem
    requires Capped(ss[i], ss[i].nodes[a].mem.version)
    ensures !Agreed(ss[j])
  {
    hide Next, Enabled, Capped, Writes, Init, Agreed, NothingWritten;
    var v := ss[i].nodes[a].mem.version;
    StuckInRuns(ss, es, writers, i, j, v, a);
    StuckInRuns(ss, es, writers, i, j, v, b);
    assert Around(ss[j], ss[j].nodes[a].mem) && Around(ss[j], ss[j].nodes[b].mem);
    Disagree(ss[j], ss[j].nodes[a].mem, ss[j].nodes[b].mem);
  }

  /** At most one of the writers is a node of the cluster. */
  ghost predicate OneWriter(s: Cluster, writers: set<NodeId>)
  {
    forall a, b :: a in writers && b in writers && a in s.nodes && b in s.nodes ==> a == b
  }

  ghost predicate AlwaysAgrees(s0: Cluster, writers: set<NodeId>)
  {
    forall ss: seq<Cluster>, es: seq<Step>, i: nat :: IsRun(ss, es, writers) && ss[0] == s0 && i < |ss| ==> Agreed(ss[i])
  }

  lemma {:induction false} UnusedName(s: set<NodeId>, n: nat) returns (w: NodeId)
    ensures w !in s && |w| >= n
    decreases |s|
  {
    w := seq(n, i => 'x');
    if w in s {
      var longer := UnusedName(s - {w}, n + 1);
      w := longer;
    }
  }

  /** Writers outside the cluster make no difference. */
  lemma {:induction false} SameStep(s: Cluster, e: Step, writers: set<NodeId>, w: NodeId)
    requires Enabled(s, e, writers)
    requires forall id :: id in s.nodes ==> (id in writers <==> id == w)
    ensures Enabled(s, e, {w}) && Next(s, e, {w}) == Next(s, e, writers)
  {
    hide IsSnapshot, Receive, Mutate;
  }

  lemma {:induction false} SameRun(ss: seq<Cluster>, es: seq<Step>, writers: set<NodeId>, w: NodeId)
    requires IsRun(ss, es, writers)
    requires forall id :: id in ss[0].nodes ==> (id in writers <==> id == w)
    ensures IsRun(ss, es, {w})
  {
    hide Enabled, Next, Init;
    forall i | 0 <= i < |es|
      ensures Enabled(ss[i], es[i], {w}) && ss[i+1] == Next(ss[i], es[i], {w})
    {
      VersionsRise(ss, es, writers, 0, i, w);
      SameStep(ss[i], es[i], writers, w);
    }
  }

  /** The exact condition for agreement: from a given start, all runs agree in
      all their states if and only if at most one writer is in the cluster. */
  lemma {:induction false} AgreementExactlyWhen(s0: Cluster, writers: set<NodeId>)
    requires Init(s0)
    ensures AlwaysAgrees(s0, writers) <==> OneWriter(s0, writers)
  {
    hide Enabled, Next, Agreed, Init;
    if OneWriter(s0, writers) {
      var w;
      if v :| v in writers && v in s0.nodes {
        w := v;
      } else {
        w := UnusedName(s0.nodes.Keys, 0);
      }
      forall ss: seq<Cluster>, es: seq<Step>, i: nat | IsRun(ss, es, writers) && ss[0] == s0 && i < |ss|
        ensures Agreed(ss[i])
      {
        SameRun(ss, es, writers, w);
        AgreedAlways(ss, es, w, i);
      }
    } else {
      var a, b :| a in writers && b in writers && a in s0.nodes && b in s0.nodes && a != b;
      var ss, es := TwoWritersDiverge(s0, writers, a, b);
      assert !Agreed(ss[|ss|-1]);
    }
  }

  // A writer that restarts with another file than it runs

  /** From every initial cluster: a writer whose persist failed, restarted and
      asked again, contradicts the update it has in flight. */
  lemma {:induction false} LostPersistDiverges(s0: Cluster, w: NodeId)
    requires Init(s0) && w in s0.nodes
    ensures Enabled(s0, Admin(w, Add(1), false), {w})
    ensures var s1 := Next(s0, Admin(w, Add(1), false), {w});
      && w in s1.nodes
      && var s2 := s1.(nodes := s1.nodes[w := Restarted(s1.nodes[w])]);
      && Enabled(s2, Admin(w, Add(2), true), {w})
      && !Agreed(Next(s2, Admin(w, Add(2), true), {w}))
  {
    hide Mutate, AdminStep, Next, Enabled, Agreed;
    AddAround(s0, w, 1, false, {w});
    AddStep(s0.nodes[w], 1, false);
    var s1 := Next(s0, Admin(w, Add(1), false), {w});
    var s2 := s1.(nodes := s1.nodes[w := Restarted(s1.nodes[w])]);
    AddAround(s2, w, 2, true, {w});
    var s3 := Next(s2, Admin(w, Add(2), true), {w});
    AddsPart(s0.nodes[w], s2.nodes[w], false, true);
    var lost := ConfigUpdate(s1.nodes[w].mem);
    assert lost in s3.net && lost.config == s1.nodes[w].mem;
    assert Around(s3, s1.nodes[w].mem) && Around(s3, s3.nodes[w].mem);
    Disagree(s3, s1.nodes[w].mem, s3.nodes[w].mem);
  }

  /** From every initial cluster with a second node: a writer whose file is
      edited at the running version and that restarts before it polls runs other
      contents than everybody else at that version. */
  lemma {:induction false} EditThenRestartDiverges(s0: Cluster, w: NodeId, other: NodeId, file: DynamicConfig)
    requires Init(s0) && w in s0.nodes && other in s0.nodes && w != other
    requires file.version == s0.nodes[w].mem.version && file != s0.nodes[w].mem
    ensures Enabled(s0, Edit(w, file), {w})
    ensures var s1 := Next(s0, Edit(w, file), {w});
      && w in s1.nodes
      && !Agreed(s1.(nodes := s1.nodes[w := Restarted(s1.nodes[w])]))
  {
    hide Agreed;
    var s1 := Next(s0, Edit(w, file), {w});
    var s2 := s1.(nodes := s1.nodes[w := Restarted(s1.nodes[w])]);
    assert s2.nodes[w].mem == file && s2.nodes[other].mem == s0.nodes[w].mem;
    assert Around(s2, s2.nodes[w].mem) && Around(s2, s2.nodes[other].mem);
    Disagree(s2, s2.nodes[w].mem, s2.nodes[other].mem);
  }

  /** After a restart the next successful mutation issues a version that was
      already running exactly when the file was behind. */
  lemma {:induction false} ReissuesExactlyWhen(n: Node, op: AdminOp, ok: bool)
    requires Mutate(n.file, op).Ok?
    ensures AdminStep(Restarted(n), op, ok).mem.version <= n.mem.version <==> n.file.version < n.mem.version
  {
    hide Mutate;
  }

  /** The configuration after a series of mutations. */
  function Mutations(c: DynamicConfig, ops: seq<AdminOp>): Result
  {
    if ops == [] then Ok(c)
    else
      match Mutations(c, ops[..|ops|-1])
      case Ok(d) => Mutate(d, ops[|ops|-1])
      case Err(e) => Err(e)
  }

  /** After a restart, and the mutations `ops` if any, the version that was
      running is back with other contents. */
  ghost predicate Rewrites(n: Node, ops: seq<AdminOp>)
  {
    var r := Mutations(Restarted(n).mem, ops);
    r.Ok? && r.config.version == n.mem.version && r.config != n.mem
  }

  lemma {:induction false} MutationsRaise(c: DynamicConfig, ops: seq<AdminOp>)
    ensures Mutations(c, ops).Ok? ==> Mutations(c, ops).config.version == c.version + |ops|
  {
    hide Mutate;
    if ops != [] {
      MutationsRaise(c, ops[..|ops|-1]);
    }
  }

  lemma {:induction false} AddsSucceed(c: DynamicConfig, k: nat)
    ensures Mutations(c, seq(k, _ => Add(1))).Ok?
  {
    hide Mutate;
    if k > 0 {
      AddsSucceed(c, k - 1);
      var ops := seq(k - 1, _ => Add(1));
      assert seq(k, _ => Add(1)) == ops + [Add(1)];
      OneMore(c, ops, Add(1));
      AddSucceeds(Mutations(c, ops).config, 1);
    }
  }

  /** The exact condition on a restart: a version that was already running can
      come back with other contents if and only if the file is another
      configuration and not a newer one. */
  lemma {:induction false} RestartRewrites(n: Node)
    ensures (exists ops :: Rewrites(n, ops)) <==> !SafeToRestart(n)
    ensures !SafeToRestart(n) <==> n.file.version <= n.mem.version && n.file != n.mem
  {
    hide Mutate;
    if ops :| Rewrites(n, ops) {
      MutationsRaise(n.file, ops);
    }
    if n.file.version == n.mem.version && n.file != n.mem {
      assert Rewrites(n, []);
    }
    if n.file.version < n.mem.version {
      BehindRewrites(n);
    }
  }

  /** In particular after a persist that failed. */
  lemma {:induction false} BehindRewrites(n: Node)
    requires n.file.version < n.mem.version
    ensures exists ops :: Rewrites(n, ops)
  {
    hide Mutate, Mutations;
    var k := n.mem.version - n.file.version - 1;
    var first := seq(k, _ => Add(1));
    assert |first| == k;
    AddsSucceed(n.file, k);
    MutationsRaise(n.file, first);
    var d := Mutations(n.file, first).config;
    AddsDiffer(d, d, 1, 2);
    var p := if Mutate(d, Add(1)).config != n.mem then 1 else 2;
    OneMore(n.file, first, Add(p));
    MutationsRaise(n.file, first + [Add(p)]);
    assert Rewrites(n, first + [Add(p)]);
  }

  lemma {:induction false} OneMore(c: DynamicConfig, ops: seq<AdminOp>, op: AdminOp)
    requires Mutations(c, ops).Ok?
    ensures Mutations(c, ops + [op]) == Mutate(Mutations(c, ops).config, op)
  {
    hide Mutate;
    assert (ops + [op])[..|ops|] == ops;
  }
}
