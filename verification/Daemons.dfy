/** The daemon as it updates its state in place. Every method is proved against
    the value-level step it performs (module Replication) and leaves the derived
    indexes rebuilt. */
module Daemons {
  import opened Common
  import opened Configs
  import opened Indexes
  import opened Replication
  import opened AdminEffects

  /** Entries of the known nodes carry the id they are stored under. */
  ghost predicate KeyedById(known: map<NodeId, NodeInfo>)
  {
    forall k :: k in known ==> known[k].id == k
  }

  lemma {:induction false} MergeKeepsKeys(own: NodeId, known: map<NodeId, NodeInfo>, nodes: seq<NodeInfo>)
    requires KeyedById(known)
    ensures KeyedById(MergeNodes(own, known, nodes))
  {
    if nodes != [] {
      MergeKeepsKeys(own, known, nodes[..|nodes|-1]);
    }
  }

  class Daemon {
    const id: NodeId
    const addr: string
    const config: LiveConfig
    var file: DynamicConfig
    var known: map<NodeId, NodeInfo>
    var local: Health
    var services: map<InstanceKey, Service>
    var routes: map<string, seq<Route>>

    ghost function Value(): Node
      reads this, config
    {
      Node(id, addr, config.Value(), file, known, local)
    }

    /** The published indexes are those of the running configuration. */
    ghost predicate Indexed()
      reads this, config
    {
      services == BuildServices(config.Value()) && routes == BuildRoutes(config.Value())
    }

    ghost predicate Valid()
      reads this, config
    {
      Indexed() && KeyedById(known)
    }

    constructor (id: NodeId, addr: string, file: DynamicConfig)
      ensures Valid() && Value() == Node(id, addr, file, file, map[], UNSET)
      ensures fresh(config)
    {
      this.id, this.addr, this.file, known, local := id, addr, file, map[], UNSET;
      config := new LiveConfig(file);
      services, routes := map[], map[];
      new;
      Rebuild();
    }

    method Rebuild()
      modifies this`services, this`routes
      ensures Indexed()
    {
      services := BuildServiceIndex(config.Value());
      routes := BuildRouteIndex(config.Value());
    }

    method SetConfig(c: DynamicConfig)
      modifies config
      ensures config.Value() == c
    {
      config.version, config.groups, config.routes := c.version, c.groups, c.routes;
    }

    /** Adopt a strictly newer configuration and persist it. */
    method Merge(c: DynamicConfig, ok: bool)
      requires Valid()
      modifies this, config
      ensures Valid() && Value() == MergeConfig(old(Value()), c, ok)
      ensures if c.version > old(config.version) then config.Value() == c && file == (if ok then c else old(file))
              else config.Value() == old(config.Value()) && file == old(file)
    {
      if c.version > config.version {
        SetConfig(c);
        if ok {
          file := c;
        }
        Rebuild();
      }
    }

    /** Merge the node list of a Sync; says whether anything but health changed. */
    method MergeNodeList(nodes: seq<NodeInfo>) returns (changed: bool)
      modifies this`known
      ensures known == MergeNodes(id, old(known), nodes)
      ensures changed == NodesChanged(id, old(known), nodes)
    {
      changed := false;
      for k := 0 to |nodes|
        invariant known == MergeNodes(id, old(known), nodes[..k])
        invariant changed == NodesChanged(id, old(known), nodes[..k])
      {
        assert nodes[..k+1][..k] == nodes[..k];
        ghost var before := known;
        var node := nodes[k];
        if ValidNodeId(node.id) {
          if node.id == id {
            node := node.(health := UNSET);
          }
          if node.id in known {
            var e := known[node.id];
            if node.health.version > e.health.version {
              e := e.(health := node.health);
            }
            if e.addr != node.addr {
              e := e.(addr := node.addr);
              changed := true;
            }
            if e.relay != node.relay && (node.relay.Some? || node.addr != "") {
              e := e.(relay := node.relay);
              changed := true;
            }
            known := known[node.id := e];
          } else {
            known := known[node.id := node];
            changed := true;
          }
        }
        assert known == MergeNode(id, before, nodes[k]);
      }
      assert nodes[..|nodes|] == nodes;
    }

    method MergeSyncMessage(c: DynamicConfig, nodes: seq<NodeInfo>, ok: bool, okToo: bool)
      requires Valid()
      modifies this, config
      ensures Valid() && Value() == MergeSync(old(Value()), c, nodes, ok, okToo)
    {
      Merge(c, ok);
      MergeKeepsKeys(id, known, nodes);
      var changed := MergeNodeList(nodes);
      if changed && okToo {
        file := config.Value();
      }
    }

    method Apply(m: Message, ok: bool, okToo: bool)
      requires Valid()
      modifies this, config
      ensures Valid() && Value() == Receive(old(Value()), m, ok, okToo)
    {
      match m {
        case Sync(c, nodes) => MergeSyncMessage(c, nodes, ok, okToo);
        case ConfigUpdate(c) => Merge(c, ok);
        case NodeLeave(who) => known := known - {who};
        case NodeJoin(who, at) =>
          if ValidNodeId(who) {
            var changed := who !in known || known[who].addr != at;
            known := known[who := if who in known then known[who].(addr := at) else NodeInfo(who, at, None, UNSET)];
            if changed && okToo {
              file := config.Value();
            }
          }
      }
    }

    /** An admin mutation; on success the new configuration is announced. */
    method HandleAdmin(op: AdminOp, ok: bool) returns (out: Outcome, announce: Option<Message>)
      requires Valid()
      modifies this, config
      ensures Valid() && Value() == AdminStep(old(Value()), op, ok)
      ensures match Mutate(old(config.Value()), op)
              case Ok(c) => out == Done(c.version) && announce == Some(ConfigUpdate(c))
              case Err(e) => out == Refused(e) && announce == None && config.Value() == old(config.Value())
      ensures file == if out.Done? && ok then config.Value() else old(file)
      ensures Unique(old(config.Value())) ==>
        Effect(old(config.Value()), op, if out.Done? then Ok(config.Value()) else Err(out.error))
    {
      hide Effect, Unique, Mutate, BuildServices, BuildRoutes;
      if Unique(config.Value()) {
        MutateDoes(config.Value(), op);
      }
      out := Perform(op);
      announce := None;
      if out.Done? {
        announce := Some(ConfigUpdate(config.Value()));
        if ok {
          file := config.Value();
        }
        Rebuild();
      }
    }

    /** Dispatch the operation to the configuration. */
    method Perform(op: AdminOp) returns (out: Outcome)
      modifies config
      ensures (config.Value(), out) == Expected(old(config.Value()), Mutate(old(config.Value()), op))
    {
      hide Upsert, Rename, Remove, SetRoutes, HealthPathOk;
      match op {
        case ServiceAdd(group, svc) =>
          if svc.healthPath.Some? && !HealthPathOk(svc.healthPath.value) {
            out := Refused(Invalid);
          } else {
            var v := config.UpsertService(group, svc);
            out := Done(v);
          }
        case RoutesSet(service, rs) => out := config.ReplaceRoutes(service, rs);
        case ServiceRename(group, owner, from, to) => out := config.RenameService(group, owner, from, to);
        case ServiceRemove(group, owner, name) => out := config.RemoveService(group, owner, name);
      }
    }

    /** One pass of the config poll. */
    method PollOnce(readable: bool, ok: bool) returns (announce: Option<Message>)
      requires Valid()
      modifies this, config
      ensures Valid() && Value() == PollStep(old(Value()), readable, ok)
      ensures announce == if config.Value() == old(config.Value()) then None else Some(ConfigUpdate(config.Value()))
      ensures file == if config.Value() != old(config.Value()) && ok then config.Value() else old(file)
    {
      announce := None;
      if !readable {
        return;
      }
      var current := config.version;
      var newDc := file;
      if file.version < current || (file.version == current && file.groups == config.groups) {
        return;
      }
      if newDc.version <= current {
        newDc := newDc.(version := current + 1);
      }
      SetConfig(newDc);
      if ok {
        file := newDc;
      }
      Rebuild();
      announce := Some(ConfigUpdate(newDc));
    }

    /** The node list to send: each known node, and this one as it is now. */
    method SnapshotNodes() returns (nodes: seq<NodeInfo>)
      requires Valid()
      ensures IsSnapshot(Value(), nodes) && DistinctNodes(nodes)
    {
      hide IsSnapshot, DistinctNodes, Indexed;
      var others := OtherNodes();
      var own: Option<NodeInfo> := None;
      if id != "" {
        own := Some(NodeInfo(id, addr, if id in known then known[id].relay else None, local));
      } else if id in known {
        own := Some(known[id]);
      }
      nodes := others + if own.Some? then [own.value] else [];
      SnapshotOf(Value(), others, own);
    }

    /** All known nodes but this one. */
    method OtherNodes() returns (nodes: seq<NodeInfo>)
      requires Valid()
      ensures AreOthers(Value(), nodes)
    {
      hide Indexed;
      nodes := [];
      var left := known.Keys - {id};
      while left != {}
        invariant left <= known.Keys && id !in left
        invariant forall i :: 0 <= i < |nodes| ==> nodes[i].id != id && nodes[i].id in known && nodes[i] == known[nodes[i].id]
        invariant forall i :: 0 <= i < |nodes| ==> nodes[i].id !in left
        invariant forall k :: k in known && k != id && k !in left ==> exists i :: 0 <= i < |nodes| && nodes[i].id == k
        invariant DistinctNodes(nodes)
        decreases left
      {
        var k :| k in left;
        ghost var before := nodes;
        nodes := nodes + [known[k]];
        assert nodes[|before|].id == k;
        assert forall i :: 0 <= i < |before| ==> nodes[i] == before[i];
        left := left - {k};
      }
    }
  }

  /** Every known node but `n` itself, once. */
  ghost predicate AreOthers(n: Node, nodes: seq<NodeInfo>)
  {
    && (forall i :: 0 <= i < |nodes| ==> nodes[i].id != n.id && nodes[i].id in n.known && nodes[i] == n.known[nodes[i].id])
    && (forall k :: k in n.known && k != n.id ==> exists i :: 0 <= i < |nodes| && nodes[i].id == k)
    && DistinctNodes(nodes)
  }

  lemma {:induction false} SnapshotOf(n: Node, others: seq<NodeInfo>, own: Option<NodeInfo>)
    requires AreOthers(n, others) && KeyedById(n.known)
    requires own.Some? ==> own.value.id == n.id && Reports(n, own.value)
    requires own.None? ==> n.id == "" && n.id !in n.known
    ensures var nodes := others + if own.Some? then [own.value] else [];
      IsSnapshot(n, nodes) && DistinctNodes(nodes)
  {
    var nodes := others + if own.Some? then [own.value] else [];
    assert forall i :: 0 <= i < |others| ==> nodes[i] == others[i];
    if own.Some? {
      assert nodes[|others|] == own.value;
    }
    forall k | k in n.known
      ensures exists i :: 0 <= i < |nodes| && nodes[i].id == k
    {
      if k != n.id {
        var i :| 0 <= i < |others| && others[i].id == k;
        assert nodes[i].id == k;
      }
    }
  }
}
