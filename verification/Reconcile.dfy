/** The reconcile loop of the subscriber: one proxy per desired service, and a
    table of local ports per bare service name that must stay in step with the
    proxies that run. */
module Reconcile {
  import opened Common

  type Key = string
  type TaskId = nat

  datatype Desired = Desired(name: string, domains: seq<string>, meta: map<string, string>, localPort: Option<nat>)
  datatype Handle = Handle(name: string, requested: Option<nat>, task: TaskId)
  datatype Info = Info(port: nat, domains: seq<string>, meta: map<string, string>)

  /** What `run_proxy` reports for a key: the port it listens on, or a failure. */
  type Starts = Key -> Option<nat>

  /** A proxy that is still desired on the port it asked for. */
  predicate Unchanged(k: Key, h: Handle, desired: map<Key, Desired>)
  {
    k in desired && desired[k].localPort == h.requested
  }

  /** `owner` reads the table backwards: the key of the proxy behind each name. */
  ghost predicate InStep(proxies: map<Key, Handle>, ports: map<string, Info>, owner: map<string, Key>)
  {
    && ports.Keys == owner.Keys
    && (forall n :: n in owner ==> owner[n] in proxies && proxies[owner[n]].name == n)
    && (forall k :: k in proxies ==> proxies[k].name in owner && owner[proxies[k].name] == k)
  }

  /** Every task ever spawned either was aborted or belongs to one running proxy. */
  ghost predicate NoOrphans(proxies: map<Key, Handle>, aborted: set<TaskId>, next: TaskId)
  {
    && (forall k :: k in proxies ==> proxies[k].task < next && proxies[k].task !in aborted)
    && (forall j, k :: j in proxies && k in proxies && j != k ==> proxies[j].task != proxies[k].task)
    && (forall t :: 0 <= t < next && t !in aborted ==> exists k :: k in proxies && proxies[k].task == t)
    && (forall t :: t in aborted ==> t < next)
  }

  /** Being in step means: the table lists exactly the running proxies' names,
      and no two proxies share one. */
  lemma {:induction false} NamesMatchExactly(proxies: map<Key, Handle>, ports: map<string, Info>, owner: map<string, Key>)
    requires InStep(proxies, ports, owner)
    ensures forall n :: n in ports <==> exists k :: k in proxies && proxies[k].name == n
    ensures forall j, k :: j in proxies && k in proxies && j != k ==> proxies[j].name != proxies[k].name
    ensures |ports| == |proxies|
  {
    assert forall n :: n in ports ==> owner[n] in proxies && proxies[owner[n]].name == n;
    OneNameEach(proxies, ports, owner);
  }

  lemma {:induction false} OneNameEach(proxies: map<Key, Handle>, ports: map<string, Info>, owner: map<string, Key>)
    requires InStep(proxies, ports, owner)
    ensures |ports| == |proxies|
    decreases |proxies|
  {
    if proxies == map[] {
      assert ports.Keys == {};
    } else {
      var k :| k in proxies;
      var n := proxies[k].name;
      RemoveShrinks(proxies, k);
      RemoveShrinks(ports, n);
      OneNameEach(proxies - {k}, ports - {n}, owner - {n});
    }
  }

  /** Every running proxy is desired on the port it asked for. */
  ghost predicate AllDesired(proxies: map<Key, Handle>, desired: map<Key, Desired>)
  {
    forall k :: k in proxies ==> k in desired && desired[k].localPort == proxies[k].requested
  }

  /** Proxies of `p0` that need no change keep their handle, task included. */
  ghost predicate Kept(p0: map<Key, Handle>, proxies: map<Key, Handle>, desired: map<Key, Desired>)
  {
    forall k :: k in p0 && k in desired && desired[k].localPort == p0[k].requested ==> k in proxies && proxies[k] == p0[k]
  }

  /** The table shows the desired domains and labels of key `k`, on the port it
      had if the proxy was kept and on the port just bound if it is new. */
  ghost predicate Shown(k: Key, p0: map<Key, Handle>, q0: map<string, Info>, t0: TaskId,
                        proxies: map<Key, Handle>, ports: map<string, Info>,
                        desired: map<Key, Desired>, starts: Starts)
  {
    && k in proxies && k in desired && proxies[k].name in ports
    && var i := ports[proxies[k].name];
    && i.domains == desired[k].domains && i.meta == desired[k].meta
    && if k in p0 && Unchanged(k, p0[k], desired)
       then proxies[k] == p0[k] && p0[k].name in q0 && i.port == q0[p0[k].name].port
       else starts(k) == Some(i.port) && proxies[k].name == desired[k].name && proxies[k].task >= t0
  }

  ghost predicate AlwaysUnchanged(k: Key, h: Handle, rounds: seq<(map<Key, Desired>, Starts)>)
  {
    forall i :: 0 <= i < |rounds| ==> Unchanged(k, h, rounds[i].0)
  }

  /** Halfway through the second half: `left` has yet to be visited. */
  ghost predicate Visited(left: set<Key>, p0: map<Key, Handle>, q0: map<string, Info>, t0: TaskId,
                          proxies: map<Key, Handle>, ports: map<string, Info>,
                          desired: map<Key, Desired>, starts: Starts)
  {
    && (forall k :: k in p0 ==> k in proxies && proxies[k] == p0[k])
    && (forall k :: k in proxies && k in left ==>
          k in p0 && p0[k].name in q0 && p0[k].name in ports && ports[p0[k].name] == q0[p0[k].name])
    && (forall k :: k in proxies && k !in left ==> Shown(k, p0, q0, t0, proxies, ports, desired, starts))
    && (forall k :: k in desired && k !in left && k !in proxies ==> starts(k).None? || desired[k].name in ports)
  }

  lemma {:induction false} ShownStays(k: Key, p0: map<Key, Handle>, q0: map<string, Info>, t0: TaskId,
                   proxies: map<Key, Handle>, ports: map<string, Info>,
                   proxies': map<Key, Handle>, ports': map<string, Info>,
                   desired: map<Key, Desired>, starts: Starts)
    requires Shown(k, p0, q0, t0, proxies, ports, desired, starts)
    requires k in proxies' && proxies'[k] == proxies[k]
    requires proxies[k].name in ports' && ports'[proxies[k].name] == ports[proxies[k].name]
    ensures Shown(k, p0, q0, t0, proxies', ports', desired, starts)
  {
  }

  lemma {:induction false} RefreshVisits(left: set<Key>, k: Key, p0: map<Key, Handle>, q0: map<string, Info>, t0: TaskId,
                      proxies: map<Key, Handle>, ports: map<string, Info>, owner: map<string, Key>,
                      desired: map<Key, Desired>, starts: Starts)
    requires Visited(left, p0, q0, t0, proxies, ports, desired, starts) && InStep(proxies, ports, owner)
    requires AllDesired(proxies, desired) && k in left && k in proxies && k in desired
    ensures proxies[k].name in ports
    ensures var n := proxies[k].name;
      Visited(left - {k}, p0, q0, t0, proxies, ports[n := Info(ports[n].port, desired[k].domains, desired[k].meta)], desired, starts)
  {
    var n := proxies[k].name;
    var ports' := ports[n := Info(ports[n].port, desired[k].domains, desired[k].meta)];
    forall j | j in proxies && j !in left - {k}
      ensures Shown(j, p0, q0, t0, proxies, ports', desired, starts)
    {
      if j != k {
        assert proxies[j].name != n;
        ShownStays(j, p0, q0, t0, proxies, ports, proxies, ports', desired, starts);
      }
    }
    assert forall j :: j in proxies && j in left - {k} ==> proxies[j].name != n;
  }

  lemma {:induction false} StartVisits(left: set<Key>, k: Key, task: TaskId, p0: map<Key, Handle>, q0: map<string, Info>, t0: TaskId,
                    proxies: map<Key, Handle>, ports: map<string, Info>,
                    desired: map<Key, Desired>, starts: Starts)
    requires Visited(left, p0, q0, t0, proxies, ports, desired, starts)
    requires k in left && k !in proxies && k in desired && task >= t0
    requires starts(k).Some? && desired[k].name !in ports
    ensures var d := desired[k];
      Visited(left - {k}, p0, q0, t0, proxies[k := Handle(d.name, d.localPort, task)],
              ports[d.name := Info(starts(k).value, d.domains, d.meta)], desired, starts)
  {
    var d := desired[k];
    var proxies' := proxies[k := Handle(d.name, d.localPort, task)];
    var ports' := ports[d.name := Info(starts(k).value, d.domains, d.meta)];
    forall j | j in proxies' && j !in left - {k}
      ensures Shown(j, p0, q0, t0, proxies', ports', desired, starts)
    {
      if j != k {
        assert Shown(j, p0, q0, t0, proxies, ports, desired, starts);
        ShownStays(j, p0, q0, t0, proxies, ports, proxies', ports', desired, starts);
      }
    }
  }

  lemma {:induction false} FirstVisit(p0: map<Key, Handle>, q0: map<string, Info>, t0: TaskId, owner: map<string, Key>,
                   desired: map<Key, Desired>, starts: Starts)
    requires InStep(p0, q0, owner) && AllDesired(p0, desired)
    ensures Visited(desired.Keys, p0, q0, t0, p0, q0, desired, starts)
  {
  }

  lemma {:induction false} LastVisit(p0: map<Key, Handle>, q0: map<string, Info>, t0: TaskId,
                  proxies: map<Key, Handle>, ports: map<string, Info>,
                  desired: map<Key, Desired>, starts: Starts)
    requires Visited({}, p0, q0, t0, proxies, ports, desired, starts)
    ensures forall k :: k in p0 ==> k in proxies && proxies[k] == p0[k]
    ensures forall k :: k in proxies ==> Shown(k, p0, q0, t0, proxies, ports, desired, starts)
    ensures forall k :: k in desired && k !in proxies ==> starts(k).None? || desired[k].name in ports
  {
  }

  lemma {:induction false} SkipVisits(left: set<Key>, k: Key, p0: map<Key, Handle>, q0: map<string, Info>, t0: TaskId,
                   proxies: map<Key, Handle>, ports: map<string, Info>,
                   desired: map<Key, Desired>, starts: Starts)
    requires Visited(left, p0, q0, t0, proxies, ports, desired, starts)
    requires k in left && k !in proxies && k in desired && (starts(k).None? || desired[k].name in ports)
    ensures Visited(left - {k}, p0, q0, t0, proxies, ports, desired, starts)
  {
  }

  /** The group and name of a service as one key. */
  function KeyOf(group: string, name: string): Key
  {
    group + "/" + name
  }

  /** One group is another's name up to a slash. */
  predicate Nested(g: string, g': string)
  {
    g + "/" <= g'
  }

  /** Two services share a key exactly when they are the same, or one's group is
      nested in the other's and its name starts with the rest of that group. */
  lemma {:induction false} KeysEqualExactlyWhen(g: string, n: string, g': string, n': string)
    ensures KeyOf(g, n) == KeyOf(g', n') <==>
      || (g == g' && n == n')
      || (Nested(g, g') && n == g'[|g|+1..] + "/" + n')
      || (Nested(g', g) && n' == g[|g'|+1..] + "/" + n)
  {
    if |g| < |g'| {
      LongerGroup(g, n, g', n');
    } else if |g'| < |g| {
      LongerGroup(g', n', g, n);
    } else {
      var k, k' := KeyOf(g, n), KeyOf(g', n');
      assert k[..|g|] == g && k'[..|g|] == g' && k[|g|+1..] == n && k'[|g|+1..] == n';
    }
  }

  lemma {:induction false} LongerGroup(g: string, n: string, g': string, n': string)
    requires |g| < |g'|
    ensures KeyOf(g, n) == KeyOf(g', n') <==> Nested(g, g') && n == g'[|g|+1..] + "/" + n'
  {
    var k, k' := KeyOf(g, n), KeyOf(g', n');
    assert k[..|g|+1] == g + "/" && k[|g|+1..] == n;
    assert k'[..|g|+1] == g'[..|g|+1] && k'[|g|+1..] == g'[|g|+1..] + "/" + n';
    assert k == k[..|g|+1] + k[|g|+1..] && k' == k'[..|g|+1] + k'[|g|+1..];
    assert Nested(g, g') <==> g'[..|g|+1] == g + "/";
  }

  lemma {:induction false} NestedHasSlash(g: string, g': string)
    ensures Nested(g, g') ==> '/' in g'
  {
    if Nested(g, g') {
      assert (g + "/")[|g|] == g'[|g|];
    }
  }

  /** Without slashes in the groups, only a service itself has its key. */
  lemma {:induction false} KeysDistinct(g: string, n: string, g': string, n': string)
    requires '/' !in g && '/' !in g'
    ensures KeyOf(g, n) == KeyOf(g', n') <==> g == g' && n == n'
  {
    KeysEqualExactlyWhen(g, n, g', n');
    NestedHasSlash(g, g');
    NestedHasSlash(g', g);
  }

  /** So two different groups can have services with the same key exactly when
      one is nested in the other... */
  lemma {:induction false} GroupsCollideExactlyWhen(g: string, g': string)
    requires g != g'
    ensures (exists n, n' :: KeyOf(g, n) == KeyOf(g', n')) <==> Nested(g, g') || Nested(g', g)
  {
    if n, n' :| KeyOf(g, n) == KeyOf(g', n') {
      KeysEqualExactlyWhen(g, n, g', n');
    }
    if Nested(g, g') {
      KeysEqualExactlyWhen(g, g'[|g|+1..] + "/", g', "");
      assert KeyOf(g, g'[|g|+1..] + "/") == KeyOf(g', "");
    }
    if Nested(g', g) {
      KeysEqualExactlyWhen(g, "", g', g[|g'|+1..] + "/");
      assert KeyOf(g, "") == KeyOf(g', g[|g'|+1..] + "/");
    }
  }

  ghost predicate Collide(g: string, g': string)
  {
    exists n, n' :: KeyOf(g, n) == KeyOf(g', n') && (g != g' || n != n')
  }

  /** ... and keys identify every service of a set of groups, whatever its name,
      exactly when no group of the set is nested in another. Slash-free groups
      never are. */
  lemma {:induction false} KeysIdentifyExactlyWhen(groups: set<string>)
    ensures (forall g, g' :: g in groups && g' in groups ==> !Collide(g, g')) <==>
      (forall g, g' :: g in groups && g' in groups ==> !Nested(g, g'))
    ensures (forall g :: g in groups ==> '/' !in g) ==> forall g, g' :: g in groups && g' in groups ==> !Nested(g, g')
  {
    forall g, g' | g in groups && g' in groups
      ensures Collide(g, g') <==> Nested(g, g') || Nested(g', g)
      ensures '/' !in g' ==> !Nested(g, g')
    {
      CollideIsNested(g, g');
      NestedHasSlash(g, g');
    }
  }

  lemma {:induction false} CollideIsNested(g: string, g': string)
    ensures Collide(g, g') <==> Nested(g, g') || Nested(g', g)
  {
    if g == g' {
      forall n, n' | KeyOf(g, n) == KeyOf(g', n')
        ensures n == n'
      {
        KeysEqualExactlyWhen(g, n, g', n');
      }
    } else {
      GroupsCollideExactlyWhen(g, g');
      if n, n' :| KeyOf(g, n) == KeyOf(g', n') {
        assert Collide(g, g');
      }
    }
  }

  class ProxyManager {
    var proxies: map<Key, Handle>
    var ports: map<string, Info>
    var aborted: set<TaskId>
    var next: TaskId
    ghost var owner: map<string, Key>

    ghost predicate Valid()
      reads this
    {
      InStep(proxies, ports, owner) && NoOrphans(proxies, aborted, next)
    }

    constructor ()
      ensures Valid() && proxies == map[] && ports == map[]
    {
      proxies, ports, aborted, next, owner := map[], map[], {}, 0, map[];
    }

    /** Abort one proxy and free its name. */
    method Stop(k: Key)
      requires Valid() && k in proxies
      modifies this
      ensures Valid()
      ensures proxies == old(proxies) - {k} && ports == old(ports) - {old(proxies)[k].name}
      ensures aborted == old(aborted) + {old(proxies)[k].task} && next == old(next)
    {
      hide NoOrphans;
      ghost var p0, a0 := proxies, aborted;
      var h := proxies[k];
      proxies := proxies - {k};
      aborted := aborted + {h.task};
      ports := ports - {h.name};
      owner := owner - {h.name};
      StopKeepsTasks(p0, a0, next, k);
    }

    /** Start one proxy whose name is free; a failed start leaves no trace but
        its aborted task. */
    method Start(k: Key, d: Desired, r: Option<nat>)
      requires Valid() && k !in proxies && d.name !in ports
      modifies this
      ensures Valid() && next == old(next) + 1
      ensures r.None? ==> proxies == old(proxies) && ports == old(ports) && aborted == old(aborted) + {old(next)}
      ensures r.Some? ==>
        && proxies == old(proxies)[k := Handle(d.name, d.localPort, old(next))]
        && ports == old(ports)[d.name := Info(r.value, d.domains, d.meta)]
        && aborted == old(aborted)
    {
      hide NoOrphans;
      ghost var p0, a0, t0 := proxies, aborted, next;
      var task := next;
      next := next + 1;
      match r {
        case Some(port) =>
          ports := ports[d.name := Info(port, d.domains, d.meta)];
          proxies := proxies[k := Handle(d.name, d.localPort, task)];
          owner := owner[d.name := k];
          StartKeepsTasks(p0, a0, t0, k, proxies[k]);
        case None =>
          aborted := aborted + {task};
          FailedStartKeepsTasks(p0, a0, t0);
      }
    }

    /** Keep the table current for a running proxy. */
    method Refresh(k: Key, d: Desired)
      requires Valid() && k in proxies
      modifies this`ports
      ensures Valid() && proxies[k].name in old(ports)
      ensures ports == old(ports)[proxies[k].name :=
        Info(old(ports)[proxies[k].name].port, d.domains, d.meta)]
    {
      var n := proxies[k].name;
      if n in ports {
        ports := ports[n := ports[n].(domains := d.domains, meta := d.meta)];
      }
    }

    /** First half of a pass: stop what is not desired any more or must move to
        another port, and nothing else. */
    method Prune(desired: map<Key, Desired>)
      requires Valid()
      modifies this
      ensures Valid() && next == old(next)
      ensures proxies == map k | k in old(proxies) && Unchanged(k, old(proxies)[k], desired) :: old(proxies)[k]
      ensures forall k :: k in proxies ==>
        proxies[k].name in ports && proxies[k].name in old(ports) && ports[proxies[k].name] == old(ports)[proxies[k].name]
    {
      hide NoOrphans;
      var removed := set k | k in proxies && !Unchanged(k, proxies[k], desired);
      while removed != {}
        invariant Valid() && next == old(next)
        invariant forall k :: k in removed ==> k in proxies
        invariant forall k :: k in proxies ==> k in old(proxies) && proxies[k] == old(proxies)[k]
        invariant forall k :: k in old(proxies) ==>
          (k in proxies <==> k in removed || Unchanged(k, old(proxies)[k], desired))
        invariant forall k :: k in removed ==> !Unchanged(k, old(proxies)[k], desired)
        invariant forall n :: n in ports ==> n in old(ports) && ports[n] == old(ports)[n]
        decreases |removed|
      {
        var k :| k in removed;
        Stop(k);
        removed := removed - {k};
      }
    }

    /** Second half: refresh what runs, start what does not, in any order. */
    method StartMissing(desired: map<Key, Desired>, starts: Starts)
      requires Valid() && AllDesired(proxies, desired)
      modifies this
      ensures Valid() && AllDesired(proxies, desired) && next >= old(next)
      ensures forall k :: k in old(proxies) ==> k in proxies && proxies[k] == old(proxies)[k]
      ensures forall k :: k in proxies ==>
        Shown(k, old(proxies), old(ports), old(next), proxies, ports, desired, starts)
      ensures forall k :: k in desired && k !in proxies ==> starts(k).None? || desired[k].name in ports
    {
      hide NoOrphans, Shown, Visited;
      ghost var p0, q0, t0 := proxies, ports, next;
      var left := desired.Keys;
      FirstVisit(p0, q0, t0, owner, desired, starts);
      while left != {}
        invariant Valid() && AllDesired(proxies, desired) && next >= t0
        invariant left <= desired.Keys
        invariant Visited(left, p0, q0, t0, proxies, ports, desired, starts)
        decreases |left|
      {
        ghost var p, q := proxies, ports;
        var k :| k in left;
        if k in proxies {
          RefreshVisits(left, k, p0, q0, t0, p, q, owner, desired, starts);
          Refresh(k, desired[k]);
        } else {
          if desired[k].name !in ports {
            if starts(k).Some? {
              StartVisits(left, k, next, p0, q0, t0, p, q, desired, starts);
            }
            Start(k, desired[k], starts(k));
          }
          if k !in proxies {
            SkipVisits(left, k, p0, q0, t0, p, q, desired, starts);
          }
        }
        left := left - {k};
      }
      LastVisit(p0, q0, t0, proxies, ports, desired, starts);
    }

    /** One pass. Afterwards every running proxy is desired on the port it asked
        for and shown with its current domains and labels; what was desired
        already is the same task as before and was not aborted, everything else
        was; and a desired service without a proxy failed to start or lost its
        name to another one that runs. */
    method Pass(desired: map<Key, Desired>, starts: Starts)
      requires Valid()
      modifies this
      ensures Valid() && next >= old(next)
      ensures AllDesired(proxies, desired)
      ensures Kept(old(proxies), proxies, desired)
      ensures forall k :: k in old(proxies) ==>
        (old(proxies)[k].task in aborted <==> k !in desired || desired[k].localPort != old(proxies)[k].requested)
      ensures forall k :: k in proxies ==>
        Shown(k, old(proxies), old(ports), old(next), proxies, ports, desired, starts)
      ensures forall k :: k in desired && k !in proxies ==>
        || starts(k).None?
        || exists j :: j in proxies && j != k && proxies[j].name == desired[k].name
    {
      Prune(desired);
      StartMissing(desired, starts);
    }

    /** Any number of passes: the invariant holds throughout, and a proxy that
        every pass wants unchanged is never restarted. */
    method Run(rounds: seq<(map<Key, Desired>, Starts)>)
      requires Valid()
      modifies this
      ensures Valid()
      ensures forall k :: k in old(proxies) && AlwaysUnchanged(k, old(proxies)[k], rounds) ==>
        k in proxies && proxies[k] == old(proxies)[k] && old(proxies)[k].task !in aborted
      ensures rounds != [] ==> AllDesired(proxies, rounds[|rounds|-1].0)
    {
      for n := 0 to |rounds|
        invariant Valid()
        invariant forall k :: k in old(proxies) && AlwaysUnchanged(k, old(proxies)[k], rounds) ==>
          k in proxies && proxies[k] == old(proxies)[k]
        invariant n > 0 ==> AllDesired(proxies, rounds[n-1].0)
      {
        Pass(rounds[n].0, rounds[n].1);
      }
    }
  }

  lemma {:induction false} StopKeepsTasks(proxies: map<Key, Handle>, aborted: set<TaskId>, next: TaskId, k: Key)
    requires NoOrphans(proxies, aborted, next) && k in proxies
    ensures NoOrphans(proxies - {k}, aborted + {proxies[k].task}, next)
  {
    var p' := proxies - {k};
    forall t | 0 <= t < next && t !in aborted + {proxies[k].task}
      ensures exists j :: j in p' && p'[j].task == t
    {
      var j :| j in proxies && proxies[j].task == t;
      assert j in p';
    }
  }

  lemma {:induction false} StartKeepsTasks(proxies: map<Key, Handle>, aborted: set<TaskId>, next: TaskId, k: Key, h: Handle)
    requires NoOrphans(proxies, aborted, next) && k !in proxies && h.task == next
    ensures NoOrphans(proxies[k := h], aborted, next + 1)
  {
    var p' := proxies[k := h];
    forall t | 0 <= t < next + 1 && t !in aborted
      ensures exists j :: j in p' && p'[j].task == t
    {
      if t == next {
        assert p'[k].task == t;
      } else {
        var j :| j in proxies && proxies[j].task == t;
        assert j in p';
      }
    }
  }

  lemma {:induction false} FailedStartKeepsTasks(proxies: map<Key, Handle>, aborted: set<TaskId>, next: TaskId)
    requires NoOrphans(proxies, aborted, next)
    ensures NoOrphans(proxies, aborted + {next}, next + 1)
  {
  }
}
