/** What one daemon does with its configuration, its config file and its view
    of the other nodes: merging gossip, admin mutations and the file poll. */
module Replication {
  import opened Common
  import opened Configs

  /** A node's report of the hosted services that fail their health check. */
  datatype Health = Health(version: nat, unhealthy: set<string>)

  const UNSET: Health := Health(0, {})

  datatype NodeInfo = NodeInfo(id: NodeId, addr: string, relay: Option<string>, health: Health)

  datatype Message =
    | Sync(config: DynamicConfig, nodes: seq<NodeInfo>)
    | ConfigUpdate(config: DynamicConfig)
    | NodeJoin(id: NodeId, addr: string)
    | NodeLeave(id: NodeId)

  datatype AdminOp =
    | ServiceAdd(group: string, svc: Service)
    | RoutesSet(service: string, routes: seq<Route>)
    | ServiceRename(group: string, owner: NodeId, from: string, to: string)
    | ServiceRemove(group: string, owner: NodeId, name: string)

  /** A daemon: its running configuration, the one in its file, the nodes it
      knows, and its own health report. */
  datatype Node = Node(
    id: NodeId,
    addr: string,
    mem: DynamicConfig,
    file: DynamicConfig,
    known: map<NodeId, NodeInfo>,
    local: Health)

  /** Version of the next health report: the clock in milliseconds, forced above
      the previous version. */
  function NextVersion(prev: nat, now: nat): nat
  {
    if now > prev + 1 then now else prev + 1
  }

  // Configuration

  predicate HealthPathOk(path: string)
  {
    path != "" && path[0] == '/' && forall c :: c in path ==> '!' <= c <= '~'
  }

  function Mutate(dc: DynamicConfig, op: AdminOp): (r: Result)
    ensures r.Ok? ==> r.config.version == dc.version + 1
  {
    match op
    case ServiceAdd(group, svc) =>
      if svc.healthPath.Some? && !HealthPathOk(svc.healthPath.value) then Err(Invalid)
      else Ok(Upsert(dc, group, svc))
    case RoutesSet(service, routes) => SetRoutes(dc, service, routes)
    case ServiceRename(group, owner, from, to) => Rename(dc, group, owner, from, to)
    case ServiceRemove(group, owner, name) => Remove(dc, group, owner, name)
  }

  /** Merging keeps the strictly newer configuration. */
  function Adopt(mem: DynamicConfig, c: DynamicConfig): DynamicConfig
  {
    if c.version > mem.version then c else mem
  }

  /** Persisting writes the running configuration, or fails as a whole. */
  function Persist(n: Node, ok: bool): Node
  {
    if ok then n.(file := n.mem) else n
  }

  function MergeConfig(n: Node, c: DynamicConfig, ok: bool): Node
  {
    if c.version > n.mem.version then Persist(n.(mem := c), ok) else n
  }

  function AdminStep(n: Node, op: AdminOp, ok: bool): Node
  {
    match Mutate(n.mem, op)
    case Ok(c) => Persist(n.(mem := c), ok)
    case Err(_) => n
  }

  /** What the poll adopts from the file, if anything. */
  function PollAdopts(mem: DynamicConfig, file: DynamicConfig): Option<DynamicConfig>
  {
    if file.version > mem.version then Some(file)
    else if file.version == mem.version && file.groups != mem.groups then Some(file.(version := mem.version + 1))
    else None
  }

  function PollStep(n: Node, readable: bool, ok: bool): Node
  {
    if !readable then n
    else
      match PollAdopts(n.mem, n.file)
      case None => n
      case Some(c) => Persist(n.(mem := c), ok)
  }

  // Known nodes

  predicate ValidNodeId(id: NodeId)
  {
    id != "" && ':' !in id
  }

  function Newer(held: Health, incoming: Health): Health
  {
    if incoming.version > held.version then incoming else held
  }

  /** The update of one entry; `own` is the receiver's id, whose health only
      the receiver itself may report. */
  function MergeNode(own: NodeId, known: map<NodeId, NodeInfo>, node: NodeInfo): map<NodeId, NodeInfo>
  {
    if !ValidNodeId(node.id) then known
    else
      var inc := if node.id == own then node.(health := UNSET) else node;
      if inc.id in known then
        var held := known[inc.id];
        var relay := if inc.relay.Some? || inc.addr != "" then inc.relay else held.relay;
        known[inc.id := NodeInfo(held.id, inc.addr, relay, Newer(held.health, inc.health))]
      else known[inc.id := inc]
  }

  function MergeNodes(own: NodeId, known: map<NodeId, NodeInfo>, nodes: seq<NodeInfo>): map<NodeId, NodeInfo>
  {
    if nodes == [] then known
    else MergeNode(own, MergeNodes(own, known, nodes[..|nodes|-1]), nodes[|nodes|-1])
  }

  /** Whether merging `node` changes an address, a relay or the membership;
      health changes do not count. */
  predicate Changes(known: map<NodeId, NodeInfo>, node: NodeInfo)
  {
    && ValidNodeId(node.id)
    && (node.id in known ==>
          known[node.id].addr != node.addr ||
          (known[node.id].relay != node.relay && (node.relay.Some? || node.addr != "")))
  }

  predicate NodesChanged(own: NodeId, known: map<NodeId, NodeInfo>, nodes: seq<NodeInfo>)
  {
    nodes != [] &&
      (NodesChanged(own, known, nodes[..|nodes|-1]) ||
       Changes(MergeNodes(own, known, nodes[..|nodes|-1]), nodes[|nodes|-1]))
  }

  /** Merging a Sync: the configuration, then the nodes, then a second persist
      when a node changed. */
  function MergeSync(n: Node, c: DynamicConfig, nodes: seq<NodeInfo>, ok: bool, okToo: bool): Node
  {
    var n1 := MergeConfig(n, c, ok);
    Persist(n1.(known := MergeNodes(n.id, n.known, nodes)), okToo && NodesChanged(n.id, n.known, nodes))
  }

  function Join(known: map<NodeId, NodeInfo>, id: NodeId, addr: string): map<NodeId, NodeInfo>
  {
    if !ValidNodeId(id) then known
    else if id in known then known[id := known[id].(addr := addr)]
    else known[id := NodeInfo(id, addr, None, UNSET)]
  }

  function Receive(n: Node, m: Message, ok: bool, okToo: bool): Node
  {
    match m
    case Sync(c, nodes) => MergeSync(n, c, nodes, ok, okToo)
    case ConfigUpdate(c) => MergeConfig(n, c, ok)
    case NodeJoin(id, addr) =>
      var known := Join(n.known, id, addr);
      Persist(n.(known := known), okToo && known != n.known)
    case NodeLeave(id) => n.(known := n.known - {id})
  }

  /** A reverse registration of a NAT'd node through this relay. */
  function Register(n: Node, id: NodeId): Node
  {
    n.(known := n.known[id :=
      if id in n.known then n.known[id].(relay := Some(n.addr)) else NodeInfo(id, "", Some(n.addr), UNSET)])
  }

  /** An entry of the node list this daemon sends: its own, with its current
      health, or one it knows. */
  ghost predicate Reports(n: Node, e: NodeInfo)
  {
    if e.id == n.id && n.id != "" then
      e.addr == n.addr && e.health == n.local && e.relay == if e.id in n.known then n.known[e.id].relay else None
    else e.id in n.known && e == n.known[e.id]
  }

  ghost predicate IsSnapshot(n: Node, nodes: seq<NodeInfo>)
  {
    && (forall i :: 0 <= i < |nodes| ==> Reports(n, nodes[i]))
    && (forall id :: id in n.known ==> exists i :: 0 <= i < |nodes| && nodes[i].id == id)
    && (n.id != "" ==> exists i :: 0 <= i < |nodes| && nodes[i].id == n.id)
  }

  // What messages do to the known nodes

  /** A node that left is unknown; nothing else changes. */
  lemma {:induction false} LeaveForgets(n: Node, id: NodeId, ok: bool, okToo: bool)
    ensures var n' := Receive(n, NodeLeave(id), ok, okToo);
      && id !in n'.known && n'.mem == n.mem && n'.file == n.file && n'.local == n.local
      && forall k :: k != id ==> (k in n'.known <==> k in n.known) && (k in n.known ==> n'.known[k] == n.known[k])
  {
  }

  /** A node that joined is known under its new address, with the relay and the
      health it had; an id that is empty or looks like an address is ignored. */
  lemma {:induction false} JoinSets(n: Node, id: NodeId, addr: string, ok: bool, okToo: bool)
    ensures var n' := Receive(n, NodeJoin(id, addr), ok, okToo);
      if id == "" || ':' in id then n' == n
      else
        && id in n'.known && n'.mem == n.mem && n'.local == n.local
        && n'.known[id] == (if id in n.known then NodeInfo(n.known[id].id, addr, n.known[id].relay, n.known[id].health)
                            else NodeInfo(id, addr, None, UNSET))
        && n'.file == (if okToo && (id !in n.known || n.known[id].addr != addr) then n.mem else n.file)
        && forall k :: k != id ==> (k in n'.known <==> k in n.known) && (k in n.known ==> n'.known[k] == n.known[k])
  {
  }

  /** A registered node is reached through this relay. */
  lemma {:induction false} RegisterSets(n: Node, id: NodeId)
    ensures var n' := Register(n, id);
      && id in n'.known && n'.known[id].relay == Some(n.addr)
      && (id in n.known ==> n'.known[id].addr == n.known[id].addr && n'.known[id].health == n.known[id].health)
      && (id !in n.known ==> n'.known[id].addr == "" && n'.known[id].health == UNSET)
      && forall k :: k != id ==> (k in n'.known <==> k in n.known) && (k in n.known ==> n'.known[k] == n.known[k])
  {
  }

  /** An entry after merging `node`: the listed address; the listed relay, unless
      the list has neither relay nor address; the newer health, but none about
      the receiver itself. */
  ghost predicate TakenOver(own: NodeId, known: map<NodeId, NodeInfo>, node: NodeInfo, e: NodeInfo)
  {
    && e.addr == node.addr
    && (node.relay.Some? || node.addr != "" || node.id !in known ==> e.relay == node.relay)
    && (node.relay.None? && node.addr == "" && node.id in known ==> e.relay == known[node.id].relay)
    && (node.id == own && node.id in known ==> e.health == known[node.id].health)
    && (node.id == own && node.id !in known ==> e.health == UNSET)
    && (node.id != own ==>
          e.health == if node.id in known && known[node.id].health.version >= node.health.version
                      then known[node.id].health else node.health)
  }

  lemma {:induction false} MergeNodeSets(own: NodeId, known: map<NodeId, NodeInfo>, node: NodeInfo)
    ensures node.id == "" || ':' in node.id ==> MergeNode(own, known, node) == known
    ensures node.id != "" && ':' !in node.id ==>
      node.id in MergeNode(own, known, node) && TakenOver(own, known, node, MergeNode(own, known, node)[node.id])
    ensures forall k :: k != node.id ==>
      (k in MergeNode(own, known, node) <==> k in known) && (k in known ==> MergeNode(own, known, node)[k] == known[k])
  {
  }

  /** What a merged list leaves alone. */
  lemma {:induction false} UnlistedStay(own: NodeId, known: map<NodeId, NodeInfo>, nodes: seq<NodeInfo>, k: NodeId)
    requires forall i :: 0 <= i < |nodes| ==> nodes[i].id != k
    ensures k in MergeNodes(own, known, nodes) <==> k in known
    ensures k in known ==> MergeNodes(own, known, nodes)[k] == known[k]
  {
    hide MergeNode;
    if nodes != [] {
      UnlistedStay(own, known, nodes[..|nodes|-1], k);
      MergeNodeSets(own, MergeNodes(own, known, nodes[..|nodes|-1]), nodes[|nodes|-1]);
    }
  }

  /** After merging a list of distinct nodes, each listed node with a proper id is
      known as listed. */
  lemma {:induction false} ListedAreTakenOver(own: NodeId, known: map<NodeId, NodeInfo>, nodes: seq<NodeInfo>, i: nat)
    requires DistinctNodes(nodes) && i < |nodes| && nodes[i].id != "" && ':' !in nodes[i].id
    ensures nodes[i].id in MergeNodes(own, known, nodes)
    ensures TakenOver(own, known, nodes[i], MergeNodes(own, known, nodes)[nodes[i].id])
  {
    hide MergeNode, TakenOver;
    var n := |nodes| - 1;
    var before := MergeNodes(own, known, nodes[..n]);
    MergeNodeSets(own, before, nodes[n]);
    if i < n {
      ListedAreTakenOver(own, known, nodes[..n], i);
    } else {
      UnlistedStay(own, known, nodes[..n], nodes[n].id);
      SameEntry(own, before, known, nodes[n], MergeNode(own, before, nodes[n])[nodes[n].id]);
    }
  }

  lemma {:induction false} SameEntry(own: NodeId, a: map<NodeId, NodeInfo>, b: map<NodeId, NodeInfo>, node: NodeInfo, e: NodeInfo)
    requires (node.id in a <==> node.id in b) && (node.id in a ==> a[node.id] == b[node.id])
    requires TakenOver(own, a, node, e)
    ensures TakenOver(own, b, node, e)
  {
  }

  // What a merge changes, and that a repeated one changes nothing

  /** Same members with the same addresses and relays. */
  ghost predicate SameContacts(a: map<NodeId, NodeInfo>, b: map<NodeId, NodeInfo>)
  {
    a.Keys == b.Keys && forall k :: k in a ==> a[k].addr == b[k].addr && a[k].relay == b[k].relay
  }

  /** The change flag is exact: it is raised iff merging the entry alters the
      membership, an address or a relay. */
  lemma {:induction false} ChangesExactlyWhen(own: NodeId, known: map<NodeId, NodeInfo>, node: NodeInfo)
    ensures Changes(known, node) <==> !SameContacts(known, MergeNode(own, known, node))
  {
    hide ValidNodeId;
    var known' := MergeNode(own, known, node);
    if ValidNodeId(node.id) {
      assert node.id in known';
      assert known.Keys == known'.Keys <==> node.id in known;
    }
  }

  /** Nothing is left to take from `node`. */
  ghost predicate Absorbed(own: NodeId, known: map<NodeId, NodeInfo>, node: NodeInfo)
  {
    MergeNode(own, known, node) == known && !Changes(known, node)
  }

  lemma {:induction false} MergeAbsorbs(own: NodeId, known: map<NodeId, NodeInfo>, node: NodeInfo)
    ensures Absorbed(own, MergeNode(own, known, node), node)
  {
    hide ValidNodeId;
    var m := MergeNode(own, known, node);
    var m' := MergeNode(own, m, node);
    if ValidNodeId(node.id) {
      assert m'[node.id] == m[node.id];
    }
  }

  lemma {:induction false} AbsorbedStays(own: NodeId, known: map<NodeId, NodeInfo>, node: NodeInfo, other: NodeInfo)
    requires Absorbed(own, known, node) && other.id != node.id
    ensures Absorbed(own, MergeNode(own, known, other), node)
  {
    hide ValidNodeId;
    var m := MergeNode(own, known, other);
    if ValidNodeId(node.id) {
      assert MergeNode(own, known, node)[node.id] == known[node.id];
      assert m[node.id] == known[node.id];
      assert MergeNode(own, m, node)[node.id] == m[node.id];
    }
  }

  ghost predicate DistinctNodes(nodes: seq<NodeInfo>)
  {
    forall i, j :: 0 <= i < j < |nodes| ==> nodes[i].id != nodes[j].id
  }

  lemma {:induction false} AllAbsorbed(own: NodeId, known: map<NodeId, NodeInfo>, nodes: seq<NodeInfo>, i: nat)
    requires DistinctNodes(nodes) && i < |nodes|
    ensures Absorbed(own, MergeNodes(own, known, nodes), nodes[i])
  {
    hide Absorbed, MergeNode;
    var n := |nodes| - 1;
    var before := MergeNodes(own, known, nodes[..n]);
    if i == n {
      MergeAbsorbs(own, before, nodes[n]);
    } else {
      AllAbsorbed(own, known, nodes[..n], i);
      AbsorbedStays(own, before, nodes[i], nodes[n]);
    }
  }

  lemma {:induction false} AbsorbedIsIdle(own: NodeId, known: map<NodeId, NodeInfo>, nodes: seq<NodeInfo>)
    requires forall i :: 0 <= i < |nodes| ==> Absorbed(own, known, nodes[i])
    ensures MergeNodes(own, known, nodes) == known && !NodesChanged(own, known, nodes)
  {
    hide MergeNode, Changes;
    if nodes != [] {
      AbsorbedIsIdle(own, known, nodes[..|nodes|-1]);
      assert Absorbed(own, known, nodes[|nodes|-1]);
    }
  }

  /** After a Sync the file holds what is running if a persist that was due
      succeeded, and is untouched otherwise. */
  lemma {:induction false} SyncSaves(n: Node, c: DynamicConfig, nodes: seq<NodeInfo>, ok: bool, okToo: bool)
    ensures var n' := MergeSync(n, c, nodes, ok, okToo);
      && n'.mem == (if c.version > n.mem.version then c else n.mem)
      && n'.file == if (c.version > n.mem.version && ok) || (NodesChanged(n.id, n.known, nodes) && okToo) then n'.mem else n.file
  {
    hide MergeNodes, NodesChanged;
  }

  /** A duplicate is harmless: receiving the same Sync again right after it
      leaves the whole daemon as it was, whatever its first persists did. */
  lemma {:induction false} RepeatedSyncIsIdle(n: Node, c: DynamicConfig, nodes: seq<NodeInfo>, oks: (bool, bool), oks': (bool, bool))
    requires DistinctNodes(nodes)
    ensures var n' := MergeSync(n, c, nodes, oks.0, oks.1);
      MergeSync(n', c, nodes, oks'.0, oks'.1) == n'
  {
    hide MergeNodes, NodesChanged, Absorbed;
    var known := MergeNodes(n.id, n.known, nodes);
    forall i | 0 <= i < |nodes|
      ensures Absorbed(n.id, known, nodes[i])
    {
      AllAbsorbed(n.id, n.known, nodes, i);
    }
    AbsorbedIsIdle(n.id, known, nodes);
  }

  // Convergence of merges

  ghost predicate Agree(s: set<DynamicConfig>)
  {
    forall a, b :: a in s && b in s && a.version == b.version ==> a == b
  }

  function MergeAll(mem: DynamicConfig, cs: seq<DynamicConfig>): DynamicConfig
  {
    if cs == [] then mem else Adopt(MergeAll(mem, cs[..|cs|-1]), cs[|cs|-1])
  }

  ghost function Pool(mem: DynamicConfig, cs: seq<DynamicConfig>): set<DynamicConfig>
  {
    {mem} + set c | c in cs
  }

  lemma {:induction false} MergeAllIsNewest(mem: DynamicConfig, cs: seq<DynamicConfig>)
    ensures MergeAll(mem, cs) in Pool(mem, cs)
    ensures forall c :: c in Pool(mem, cs) ==> c.version <= MergeAll(mem, cs).version
  {
    if cs != [] {
      MergeAllIsNewest(mem, cs[..|cs|-1]);
      var rest := Pool(mem, cs[..|cs|-1]);
      forall c | c in Pool(mem, cs)
        ensures c in rest || c == cs[|cs|-1]
      {
        if c in cs && c != cs[|cs|-1] {
          assert c in cs[..|cs|-1];
        }
      }
      assert rest <= Pool(mem, cs);
    }
  }

  /** Convergence: among configurations that agree, merging the same messages
      in any order and with any repetition ends at the same, newest one. */
  lemma {:induction false} MergeOrderIrrelevant(a: DynamicConfig, cs: seq<DynamicConfig>, b: DynamicConfig, ds: seq<DynamicConfig>)
    requires Agree(Pool(a, cs)) && Pool(a, cs) == Pool(b, ds)
    ensures MergeAll(a, cs) == MergeAll(b, ds)
  {
    MergeAllIsNewest(a, cs);
    MergeAllIsNewest(b, ds);
  }

  /** A sync exchange: `a` sends, `b` merges and replies, `a` merges. */
  function Exchange(a: DynamicConfig, b: DynamicConfig): (DynamicConfig, DynamicConfig)
  {
    var b' := Adopt(b, a);
    (Adopt(a, b'), b')
  }

  /** One exchange leaves both ends equal exactly when equal versions meant equal
      contents; they then have the newer configuration. */
  lemma {:induction false} ExchangeMeets(a: DynamicConfig, b: DynamicConfig)
    ensures var (a', b') := Exchange(a, b);
      && (a' == b' <==> (a.version == b.version ==> a == b))
      && a' in {a, b} && b' in {a, b}
      && a.version <= a'.version == b'.version && b.version <= a'.version
  {
  }

  datatype Link = Link(from: NodeId, to: NodeId)

  predicate LinksWithin(links: seq<Link>, ids: set<NodeId>)
  {
    forall i :: 0 <= i < |links| ==> links[i].from in ids && links[i].to in ids
  }

  function Exchanges(held: map<NodeId, DynamicConfig>, links: seq<Link>): (r: map<NodeId, DynamicConfig>)
    requires LinksWithin(links, held.Keys)
    ensures r.Keys == held.Keys
  {
    if links == [] then held
    else
      var l, m := links[|links|-1], Exchanges(held, links[..|links|-1]);
      var (a, b) := Exchange(m[l.from], m[l.to]);
      m[l.from := a][l.to := b]
  }

  /** The nodes a change can have reached from `source` along the links. */
  function Reach(source: NodeId, links: seq<Link>): set<NodeId>
  {
    if links == [] then {source}
    else
      var l, r := links[|links|-1], Reach(source, links[..|links|-1]);
      if l.from in r || l.to in r then r + {l.from, l.to} else r
  }

  /** `held` are configurations of the agreeing pool `s`, and every node of
      `reached` holds its newest one, `top`. */
  ghost predicate Spread(held: map<NodeId, DynamicConfig>, s: set<DynamicConfig>, top: DynamicConfig, reached: set<NodeId>)
  {
    && (forall id :: id in held ==> held[id] in s)
    && (forall id :: id in reached ==> id in held && held[id] == top)
  }

  ghost predicate Newest(s: set<DynamicConfig>, top: DynamicConfig)
  {
    top in s && forall c :: c in s ==> c.version <= top.version
  }

  /** Exchanges that chain outward from a holder of the newest configuration
      bring every node they reach to exactly that configuration. */
  lemma {:induction false} ExchangesSpread(
    held: map<NodeId, DynamicConfig>, s: set<DynamicConfig>, source: NodeId, links: seq<Link>)
    requires source in held && LinksWithin(links, held.Keys)
    requires Agree(s) && Newest(s, held[source])
    requires forall id :: id in held ==> held[id] in s
    ensures Spread(Exchanges(held, links), s, held[source], Reach(source, links))
  {
    if links != [] {
      var l, rest := links[|links|-1], links[..|links|-1];
      ExchangesSpread(held, s, source, rest);
      SpreadStep(Exchanges(held, rest), s, held[source], Reach(source, rest), l);
    }
  }

  lemma {:induction false} SpreadStep(m: map<NodeId, DynamicConfig>, s: set<DynamicConfig>, top: DynamicConfig, reached: set<NodeId>, l: Link)
    requires Spread(m, s, top, reached) && Agree(s) && Newest(s, top)
    requires l.from in m && l.to in m
    ensures var (a, b) := Exchange(m[l.from], m[l.to]);
      Spread(m[l.from := a][l.to := b], s, top,
             if l.from in reached || l.to in reached then reached + {l.from, l.to} else reached)
  {
    var x, y := m[l.from], m[l.to];
    assert x in s && y in s;
    ExchangeMeets(x, y);
  }
}
