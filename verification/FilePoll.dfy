/** One daemon's running configuration against its config file, over whole
    runs with persists that may fail and edits from outside. */
module FilePoll {
  import opened Configs
  import opened Replication

  datatype Act =
    | Merge(config: DynamicConfig, ok: bool)
    | Admin(op: AdminOp, ok: bool)
    | Poll(readable: bool, ok: bool)
    | Rewrite(ok: bool)
    | Edit(file: DynamicConfig)

  function Step(n: Node, a: Act): Node
  {
    match a
    case Merge(c, ok) => MergeConfig(n, c, ok)
    case Admin(op, ok) => AdminStep(n, op, ok)
    case Poll(readable, ok) => PollStep(n, readable, ok)
    case Rewrite(ok) => Persist(n, ok)
    case Edit(file) => n.(file := file)
  }

  function Run(n: Node, acts: seq<Act>): Node
  {
    if acts == [] then n else Step(Run(n, acts[..|acts|-1]), acts[|acts|-1])
  }

  /** Every configuration the daemon has been running, oldest first. */
  function Memories(n: Node, acts: seq<Act>): seq<DynamicConfig>
  {
    if acts == [] then [n.mem]
    else Memories(n, acts[..|acts|-1]) + [Run(n, acts).mem]
  }

  /** With any outside edits whatsoever, the version never falls and every
      change of content strictly raises it. */
  lemma {:induction false} VersionOnlyRises(n: Node, a: Act)
    ensures Step(n, a).mem.version >= n.mem.version
    ensures Step(n, a).mem != n.mem ==> Step(n, a).mem.version > n.mem.version
  {
    hide Mutate;
  }

  lemma {:induction false} MemoriesEnd(n: Node, acts: seq<Act>)
    ensures Run(n, acts).mem in Memories(n, acts)
    ensures forall c :: c in Memories(n, acts) ==> c.version <= Run(n, acts).mem.version
    ensures forall c :: c in Memories(n, acts) && c.version == Run(n, acts).mem.version ==> c == Run(n, acts).mem
  {
    if acts != [] {
      var rest := acts[..|acts|-1];
      MemoriesEnd(n, rest);
      VersionOnlyRises(Run(n, rest), acts[|acts|-1]);
    }
  }

  /** One version, one content: over any run, with any outside edits, two
      configurations the daemon ran at the same version are the same. */
  lemma {:induction false} OneContentPerVersion(n: Node, acts: seq<Act>, a: DynamicConfig, b: DynamicConfig)
    requires a in Memories(n, acts) && b in Memories(n, acts) && a.version == b.version
    ensures a == b
  {
    MemoriesEnd(n, acts);
    if acts != [] {
      var rest := acts[..|acts|-1];
      if a in Memories(n, rest) && b in Memories(n, rest) {
        OneContentPerVersion(n, rest, a, b);
      }
    }
  }

  ghost predicate Undisturbed(acts: seq<Act>)
  {
    forall i :: 0 <= i < |acts| ==> !acts[i].Edit?
  }

  /** Without outside edits the file always holds a configuration the daemon
      has been running, however many persists failed. */
  lemma {:induction false} FileIsAMemory(n: Node, acts: seq<Act>)
    requires n.file == n.mem && Undisturbed(acts)
    ensures Run(n, acts).file in Memories(n, acts)
  {
    hide Mutate;
    if acts != [] {
      var rest := acts[..|acts|-1];
      FileIsAMemory(n, rest);
      MemoriesEnd(n, acts);
    }
  }

  /** ... so the poll loop never adopts or bumps anything. */
  lemma {:induction false} PollIsIdle(n: Node, acts: seq<Act>, readable: bool, ok: bool)
    requires n.file == n.mem && Undisturbed(acts)
    ensures var s := Run(n, acts);
      && s.file.version <= s.mem.version
      && (s.file.version == s.mem.version ==> s.file == s.mem)
      && PollStep(s, readable, ok) == s
  {
    FileIsAMemory(n, acts);
    MemoriesEnd(n, acts);
  }

  ghost predicate AllSaved(acts: seq<Act>)
  {
    forall i :: 0 <= i < |acts| ==> !acts[i].Edit? && acts[i].ok
  }

  /** While no persist fails and nobody edits the file, it always holds what is
      running, so a restart restores exactly that. */
  lemma {:induction false} FileIsCurrent(n: Node, acts: seq<Act>)
    requires n.file == n.mem && AllSaved(acts)
    ensures Run(n, acts).file == Run(n, acts).mem
  {
    hide Step;
    if acts != [] {
      FileIsCurrent(n, acts[..|acts|-1]);
      StepSaves(Run(n, acts[..|acts|-1]), acts[|acts|-1]);
    }
  }

  /** A step that changes what is running saves it if its persist succeeds and
      leaves the file alone if it fails; a merge, mutation or poll that changes
      nothing leaves the file alone. */
  lemma {:induction false} StepSaves(n: Node, a: Act)
    requires !a.Edit?
    ensures var n' := Step(n, a);
      && n'.file == (if a.ok && (n'.mem != n.mem || a.Rewrite?) then n'.mem else n.file)
  {
    hide Mutate;
  }

  /** What a poll makes of an arbitrary file: an edit is taken up exactly when
      it raises the version or changes the services at the same version. An
      edit of the routes alone, or one below the running version, is not. */
  lemma {:induction false} EditTakenExactlyWhen(n: Node, file: DynamicConfig, ok: bool)
    ensures var after := PollStep(n.(file := file), true, ok);
      && (after.mem != n.mem <==>
            file.version > n.mem.version || (file.version == n.mem.version && file.groups != n.mem.groups))
      && (after.mem != n.mem ==>
            && after.mem.groups == file.groups && after.mem.routes == file.routes
            && after.mem.version == (if file.version > n.mem.version then file.version else n.mem.version + 1)
            && after.file == if ok then after.mem else file)
      && (after.mem == n.mem ==> after.file == file)
  {
  }

  /** A hand edit that changes only the routes and keeps the version is
      ignored. */
  lemma {:induction false} RouteEditIgnored(n: Node, routes: seq<Route>, readable: bool, ok: bool)
    ensures PollStep(n.(file := n.mem.(routes := routes)), readable, ok).mem == n.mem
  {
  }
}
