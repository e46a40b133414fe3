/** Proxying one HTTP request: up to three distinct nodes, retries only where
    they are safe, and never more than one slot left behind. */
module Attempts {
  import opened Common
  import opened Ejection
  import opened Balancing
  import opened RetryBudgets

  const MAX_TUNNEL_ATTEMPTS: nat := 3

  /** What came back from one upstream call. */
  datatype Upstream =
    | Response(status: nat)
    | ConnectError      // the request never left
    | OtherError        // the request may have reached the backend
    | Timeout           // likewise

  /** One try: the node, and what came back if the request was sent. */
  datatype Try = Try(node: NodeId, sent: Option<Upstream>)

  /** Why the proxy itself answered. */
  datatype Reason = NoRouteBackend | CircuitOpen | NoBackendReachable | TimedOut | UpstreamError | BadRequestBody

  datatype Outcome =
    | Answer(node: NodeId, status: nat)
    | Error(code: nat, reason: Reason)

  /** A request body: buffered, or a client stream that can be taken once. */
  datatype Body = Replayable | Stream(available: bool)

  datatype Verb = GET | HEAD | OPTIONS | PUT | DELETE | TRACE | POST | PATCH | CONNECT | Extension(name: string)

  /** The idempotent methods of section 9.2.2 of RFC 9110. */
  predicate Idempotent(verb: Verb)
  {
    verb.GET? || verb.HEAD? || verb.OPTIONS? || verb.PUT? || verb.DELETE? || verb.TRACE?
  }

  predicate RetryableStatus(status: nat)
  {
    status == 502 || status == 503 || status == 504
  }

  // Narrowing the candidates

  predicate LabelsMatch(labels: map<string, string>, selector: map<string, string>)
  {
    forall k :: k in selector ==> k in labels && labels[k] == selector[k]
  }

  predicate InSubset(b: Backend, subset: Option<map<string, string>>)
  {
    subset.Some? ==> LabelsMatch(b.labels, subset.value)
  }

  function Candidates(all: seq<Backend>, subset: Option<map<string, string>>): seq<Backend>
  {
    Filter(all, (b: Backend) => InSubset(b, subset))
  }

  /** Narrowing by a preference that is dropped when nobody meets it. */
  function Prefer(items: seq<Backend>, keep: Backend -> bool): (r: seq<Backend>)
    ensures r == [] <==> items == []
    ensures forall b :: b in r <==> b in items && (keep(b) || forall c :: c in items ==> !keep(c))
  {
    var kept := Filter(items, keep);
    assert kept != [] ==> kept[0] in kept;
    assert kept == [] ==> forall c :: c in items ==> !keep(c);
    if kept == [] then items else kept
  }

  function PreferHealthy(items: seq<Backend>, seen: NodeId -> bool, healthy: NodeId -> bool): (r: seq<Backend>)
    ensures r == [] <==> items == []
    ensures forall b :: b in r <==>
      && b in items
      && (seen(b.id) || forall c :: c in items ==> !seen(c.id))
      && (healthy(b.id) ||
          forall c :: c in items && (seen(c.id) || forall d :: d in items ==> !seen(d.id)) ==> !healthy(c.id))
  {
    Prefer(Prefer(items, (b: Backend) => seen(b.id)), (b: Backend) => healthy(b.id))
  }

  lemma {:induction false} PreferInOrder(items: seq<Backend>, keep: Backend -> bool)
    ensures Prefer(items, keep) == Filter(items, (b: Backend) => b in Prefer(items, keep))
  {
    var r := Prefer(items, keep);
    if Filter(items, keep) == [] {
      FilterAll(items, (b: Backend) => b in r);
    } else {
      FilterSame(items, keep, (b: Backend) => b in r);
    }
  }

  /** What is preferred stays in the order it had. */
  lemma {:induction false} PreferHealthyInOrder(items: seq<Backend>, seen: NodeId -> bool, healthy: NodeId -> bool)
    ensures PreferHealthy(items, seen, healthy) == Filter(items, (b: Backend) => b in PreferHealthy(items, seen, healthy))
  {
    var live, ok := (b: Backend) => seen(b.id), (b: Backend) => healthy(b.id);
    var kept := Prefer(items, live);
    var r := PreferHealthy(items, seen, healthy);
    PreferInOrder(items, live);
    PreferInOrder(kept, ok);
    assert r == Prefer(kept, ok);
    FilterSame(kept, (b: Backend) => b in Prefer(kept, ok), (b: Backend) => b in r);
    FilterTwice(items, (b: Backend) => b in kept, (b: Backend) => b in r);
  }

  /** In a label subset are exactly the backends that carry every one of its
      label pairs. */
  lemma {:induction false} SubsetExactlyWhen(all: seq<Backend>, labels: map<string, string>, b: Backend)
    ensures b in Candidates(all, Some(labels)) <==> b in all && labels.Items <= b.labels.Items
    ensures b in Candidates(all, None) <==> b in all
  {
    if LabelsMatch(b.labels, labels) {
      forall kv | kv in labels.Items
        ensures kv in b.labels.Items
      {
        assert kv.0 in labels && labels[kv.0] == kv.1;
      }
    }
    if labels.Items <= b.labels.Items {
      forall k | k in labels
        ensures k in b.labels && b.labels[k] == labels[k]
      {
        assert (k, labels[k]) in labels.Items;
      }
    }
  }

  // Reading a log of tries

  predicate Answered(t: Try)
  {
    t.sent.Some? && t.sent.value.Response?
  }

  predicate MayHaveReached(t: Try)
  {
    t.sent.Some? && !t.sent.value.ConnectError?
  }

  function LastAnswer(log: seq<Try>): Option<Outcome>
  {
    if log == [] then None
    else
      var t := log[|log|-1];
      if Answered(t) then Some(Answer(t.node, t.sent.value.status)) else LastAnswer(log[..|log|-1])
  }

  function Reached(log: seq<Try>): nat
  {
    if log == [] then 0 else Reached(log[..|log|-1]) + (if MayHaveReached(log[|log|-1]) then 1 else 0)
  }

  function Sends(log: seq<Try>): nat
  {
    if log == [] then 0 else Sends(log[..|log|-1]) + (if log[|log|-1].sent.Some? then 1 else 0)
  }

  function Nodes(log: seq<Try>): seq<NodeId>
  {
    seq(|log|, i requires 0 <= i < |log| => log[i].node)
  }

  /** What a try tells the balancer: any answer clears the node, a failed
      connect counts against it, and nothing else is reported. */
  function NoteOf(t: Try, later: Instant): seq<Entry>
  {
    match t.sent
    case Some(Response(_)) => [Worked(t.node)]
    case Some(ConnectError) => [Broke(t.node, later)]
    case _ => []
  }

  /** What a loop works with: the backends it offers and the times of its picks
      and of their results. */
  datatype Frame = Frame(backends: seq<Backend>, clock: seq<Instant>, later: seq<Instant>)

  function At(times: seq<Instant>, k: nat): Instant
  {
    if k < |times| then times[k] else 0
  }

  /** What the balancer gets to see of a log: for each try the pick that led to
      it, offering all backends but those tried before, and its result. */
  function StoryOf(log: seq<Try>, f: Frame): seq<Entry>
  {
    if log == [] then []
    else
      var n := |log| - 1;
      StoryOf(log[..n], f) + [Took(f.backends, Nodes(log[..n]), At(f.clock, n), log[n].node)] + NoteOf(log[n], At(f.later, n))
  }

  /** Moving on after `t` is safe: the request never left, or a node refused an
      idempotent request; and the body can be sent again. */
  predicate SafeToRetry(t: Try, verb: Verb, replayable: bool)
  {
    && replayable && t.sent.Some?
    && match t.sent.value
       case ConnectError => true
       case Response(status) => RetryableStatus(status) && Idempotent(verb)
       case _ => false
  }

  /** The slot a result keeps: the one on the node that answered. */
  ghost function SlotOf(o: Outcome): multiset<NodeId>
  {
    match o
    case Answer(node, _) => multiset{node}
    case Error(_, _) => multiset{}
  }

  ghost function SlotOfOption(o: Option<Outcome>): multiset<NodeId>
  {
    match o
    case None => multiset{}
    case Some(a) => SlotOf(a)
  }

  lemma {:induction false} LogGrows(log: seq<Try>, t: Try)
    ensures LastAnswer(log + [t]) == if Answered(t) then Some(Answer(t.node, t.sent.value.status)) else LastAnswer(log)
    ensures Reached(log + [t]) == Reached(log) + if MayHaveReached(t) then 1 else 0
    ensures Sends(log + [t]) == Sends(log) + if t.sent.Some? then 1 else 0
    ensures Nodes(log + [t]) == Nodes(log) + [t.node]
  {
    assert (log + [t])[..|log|] == log;
  }

  ghost function SentAt(log: seq<Try>): set<int>
  {
    set i | 0 <= i < |log| && log[i].sent.Some? && log[i].sent != Some(ConnectError)
  }

  /** Counted are exactly the tries that were sent and did not fail to connect:
      answers, other errors and timeouts. */
  lemma {:induction false} ReachedIsCount(log: seq<Try>)
    ensures Reached(log) == |SentAt(log)|
  {
    hide SentAt;
    if log != [] {
      ReachedIsCount(log[..|log|-1]);
      SentGrows(log);
    } else {
      NothingSent();
    }
  }

  lemma {:induction false} NothingSent()
    ensures SentAt([]) == {}
  {
  }

  lemma {:induction false} SentGrows(log: seq<Try>)
    requires log != []
    ensures var n := |log| - 1;
      |SentAt(log)| == |SentAt(log[..n])| + if log[n].sent.Some? && log[n].sent != Some(ConnectError) then 1 else 0
  {
    var n := |log| - 1;
    var before := SentAt(log[..n]);
    assert n !in before;
    if log[n].sent.Some? && log[n].sent != Some(ConnectError) {
      assert SentAt(log) == before + {n};
    } else {
      assert SentAt(log) == before;
    }
  }

  lemma {:induction false} EmptyStory(f: Frame)
    ensures StoryOf([], f) == []
  {
  }

  lemma {:induction false} StoryGrows(log: seq<Try>, t: Try, f: Frame)
    ensures StoryOf(log + [t], f) ==
      StoryOf(log, f) + [Took(f.backends, Nodes(log), At(f.clock, |log|), t.node)] + NoteOf(t, At(f.later, |log|))
  {
    assert (log + [t])[..|log|] == log;
  }

  /** A node is reported as working exactly when it answered a try, and as broken
      at some time exactly when a try failed to connect to it then. */
  lemma {:induction false} NotesExactlyWhen(log: seq<Try>, f: Frame, id: NodeId, when: Instant)
    ensures Worked(id) in StoryOf(log, f) <==> exists i :: 0 <= i < |log| && log[i].node == id && Answered(log[i])
    ensures Broke(id, when) in StoryOf(log, f) <==>
      exists i :: 0 <= i < |log| && log[i] == Try(id, Some(ConnectError)) && At(f.later, i) == when
  {
    hide Nodes, At;
    if log != [] {
      var n := |log| - 1;
      NotesExactlyWhen(log[..n], f, id, when);
      assert forall i :: 0 <= i < n ==> log[..n][i] == log[i];
      NoteExactlyWhen(log[n], At(f.later, n), id, when);
      assert log[n] == log[n];
    }
  }

  lemma {:induction false} NoteExactlyWhen(t: Try, later: Instant, id: NodeId, when: Instant)
    ensures Worked(id) in NoteOf(t, later) <==> t.node == id && Answered(t)
    ensures Broke(id, when) in NoteOf(t, later) <==> t == Try(id, Some(ConnectError)) && later == when
  {
  }

  /** The answer kept is that of the last try that was answered. */
  lemma {:induction false} LastAnswerIsNewest(log: seq<Try>, i: nat)
    requires i < |log| && Answered(log[i]) && forall j :: i < j < |log| ==> !Answered(log[j])
    ensures LastAnswer(log) == Some(Answer(log[i].node, log[i].sent.value.status))
  {
    if i < |log| - 1 {
      LastAnswerIsNewest(log[..|log|-1], i);
    }
  }

  lemma {:induction false} AnyAnswerIsKept(log: seq<Try>, i: nat)
    requires i < |log| && Answered(log[i])
    ensures LastAnswer(log).Some?
  {
    if i < |log| - 1 {
      AnyAnswerIsKept(log[..|log|-1], i);
    }
  }

  /** Without retry tokens spent, at most the last try reached a backend. */
  ghost predicate Accounted(log: seq<Try>, verb: Verb, replayable: bool, spent: nat)
  {
    && spent <= 2
    && Reached(log) <= 1 + spent
    && (Reached(log) > 1 ==> Idempotent(verb) && replayable)
    && (!replayable ==> Sends(log) <= 1)
    && (forall i :: 0 <= i < |log| - 1 ==> SafeToRetry(log[i], verb, replayable))
  }

  ghost predicate Within(log: seq<Try>, all: seq<Backend>, subset: Option<map<string, string>>)
  {
    && |log| <= MAX_TUNNEL_ATTEMPTS
    && Distinct(Nodes(log))
    && forall i :: 0 <= i < |log| ==> Hosts(Candidates(all, subset), log[i].node)
  }

  /** The error the client sees when no backend answered. */
  ghost predicate ErrorExplained(o: Outcome, log: seq<Try>)
  {
    o.Error? && log != [] ==>
      match log[|log|-1].sent
      case Some(Timeout) => o == Error(504, TimedOut)
      case Some(OtherError) => o == Error(502, UpstreamError)
      case _ => o == Error(502, NoBackendReachable)
  }

  /** A round that ends the loop: its error explains the last try, and an
      answer is the newest one in the log. */
  ghost predicate Ended(log: seq<Try>, o: Outcome, fallback: Option<Outcome>)
  {
    && ErrorExplained(o, log)
    && o != Error(503, NoRouteBackend)
    && LastAnswer(log) == if o.Answer? then Some(o) else fallback
  }

  /** What the client gets: the newest backend answer if there was any, and
      otherwise an error that explains the last try. */
  ghost predicate Settled(log: seq<Try>, o: Outcome)
  {
    && (LastAnswer(log).Some? ==> o == LastAnswer(log).value)
    && (o.Answer? ==> LastAnswer(log) == Some(o))
    && ErrorExplained(o, log)
    && (o == Error(503, NoRouteBackend) ==> log == [])
  }

  /** How many nodes may be tried. */
  function MaxTries(backends: seq<Backend>): nat
  {
    if |backends| <= MAX_TUNNEL_ATTEMPTS then |backends| else MAX_TUNNEL_ATTEMPTS
  }

  /** Stopping after `log` was not premature: another try would not have been
      safe, no try was left, or the budget denied the retry of an answer. */
  ghost predicate Excused(log: seq<Try>, verb: Verb, replayable: bool, backends: seq<Backend>, denied: bool)
  {
    log == [] || SafeToRetry(log[|log|-1], verb, replayable) ==>
      || |log| >= 3 || |log| >= |backends|
      || (log != [] && Answered(log[|log|-1]) && denied)
  }

  /** Every backend was tried or is at its connection limit. */
  ghost predicate Refused(log: seq<Try>, backends: seq<Backend>, active: map<NodeId, nat>)
  {
    forall i :: 0 <= i < |backends| ==> 
      || backends[i].id in Nodes(log)
      || (backends[i].maxConnections.Some? && Get(active, backends[i].id, 0) >= backends[i].maxConnections.value)
  }

  /** The loop ended for a good reason: it was excused, or its last pick was
      refused, and `tail` records the slot counts that pick met: every backend
      was tried or full at that moment. */
  ghost predicate Justified(log: seq<Try>, verb: Verb, replayable: bool, backends: seq<Backend>, tail: seq<Entry>, denied: bool)
  {
    || (tail == [] && Excused(log, verb, replayable, backends, denied))
    || (|tail| == 1 && tail[0].TurnedAway? && tail[0].cs == backends && tail[0].tried == Nodes(log)
        && Refused(log, backends, tail[0].active))
  }

  lemma {:induction false} PickRefuses(st: State, backends: seq<Backend>, log: seq<Try>, now: Instant)
    requires !PickStep(st, backends, Nodes(log), now).0.Chosen?
    ensures Refused(log, backends, st.active)
  {
    hide PickStep, Nodes;
    PickExactlyWhen(st, backends, Nodes(log), now);
  }

  lemma {:induction false} StopExcused(log: seq<Try>, t: Try, verb: Verb, replayable: bool, backends: seq<Backend>, denied: bool)
    requires SafeToRetry(t, verb, replayable) ==> Answered(t) && (|log| + 1 >= MaxTries(backends) || denied)
    ensures Excused(log + [t], verb, replayable, backends, denied)
  {
  }

  /** Only a node that no longer reports, or reports the service down, is tried
      when every candidate does. */
  ghost predicate Favoured(log: seq<Try>, candidates: seq<Backend>, seen: NodeId -> bool, healthy: NodeId -> bool)
  {
    forall i :: 0 <= i < |log| ==>
      && (seen(log[i].node) || forall c :: c in candidates ==> !seen(c.id))
      && (healthy(log[i].node) ||
          forall c :: c in candidates && (seen(c.id) || forall d :: d in candidates ==> !seen(d.id)) ==> !healthy(c.id))
  }

  lemma {:induction false} NobodyTried(candidates: seq<Backend>, seen: NodeId -> bool, healthy: NodeId -> bool)
    ensures Favoured([], candidates, seen, healthy)
  {
  }

  lemma {:induction false} FromFavoured(log: seq<Try>, candidates: seq<Backend>, seen: NodeId -> bool, healthy: NodeId -> bool)
    requires From(log, PreferHealthy(candidates, seen, healthy))
    ensures Favoured(log, candidates, seen, healthy)
  {
    hide PreferHealthy;
    var backends := PreferHealthy(candidates, seen, healthy);
    forall i | 0 <= i < |log|
      ensures exists b :: b in backends && b.id == log[i].node
    {
      assert Hosts(backends, log[i].node);
      var j :| 0 <= j < |backends| && backends[j].id == log[i].node;
      assert backends[j] in backends;
    }
  }

  /** The answer when no node could be tried at all. */
  function NothingTo(backends: seq<Backend>): Outcome
  {
    if backends == [] then Error(502, NoBackendReachable) else Error(503, CircuitOpen)
  }

  datatype Verdict = Again | Stop(outcome: Outcome)

  /** The outcome of a try that is not followed by another. */
  function Verbatim(node: NodeId, result: Upstream): Outcome
  {
    match result
    case Response(status) => Answer(node, status)
    case Timeout => Error(504, TimedOut)
    case OtherError => Error(502, UpstreamError)
    case ConnectError => Error(502, NoBackendReachable)
  }

  /** The outcome of a loop that ends with try `t`. */
  function Conclusion(t: Try): Outcome
  {
    match t.sent
    case None => Error(502, NoBackendReachable)
    case Some(result) => Verbatim(t.node, result)
  }

  ghost predicate From(log: seq<Try>, backends: seq<Backend>)
  {
    && Distinct(Nodes(log))
    && forall i :: 0 <= i < |log| ==> Hosts(backends, log[i].node)
  }

  /** What holds while the loop may still try another node. */
  ghost predicate Going(log: seq<Try>, fallback: Option<Outcome>, verb: Verb, replayable: bool, backends: seq<Backend>)
  {
    && fallback == LastAnswer(log)
    && (fallback.Some? ==> fallback.value.Answer?)
    && (forall i :: 0 <= i < |log| ==> SafeToRetry(log[i], verb, replayable))
    && From(log, backends)
  }

  lemma {:induction false} LogFrom(log: seq<Try>, backends: seq<Backend>, at: nat, sent: Option<Upstream>)
    requires From(log, backends) && at < |backends| && backends[at].id !in Nodes(log)
    ensures From(log + [Try(backends[at].id, sent)], backends)
  {
    var log' := log + [Try(backends[at].id, sent)];
    assert Nodes(log') == Nodes(log) + [backends[at].id];
    assert Hosts(backends, backends[at].id);
    assert forall i :: 0 <= i < |log| ==> log'[i] == log[i];
    var ns := Nodes(log);
    assert forall i :: 0 <= i < |ns| ==> ns[i] in ns;
  }

  lemma {:induction false} EmptyLog(backends: seq<Backend>)
    ensures LastAnswer([]) == None && Reached([]) == 0 && From([], backends)
    ensures forall verb, replayable :: Accounted([], verb, replayable, 0)
    ensures forall o :: ErrorExplained(o, [])
    ensures forall verb, replayable :: Going([], None, verb, replayable, backends)
    ensures SlotOfOption(None) == multiset{}
  {
  }

  /** If a safe-to-retry try reached a backend, the method was idempotent. */
  lemma {:induction false} ReachedSafely(log: seq<Try>, verb: Verb, replayable: bool)
    requires forall i :: 0 <= i < |log| ==> SafeToRetry(log[i], verb, replayable)
    ensures Reached(log) > 0 ==> Idempotent(verb) && replayable
  {
    if log != [] {
      ReachedSafely(log[..|log|-1], verb, replayable);
      assert SafeToRetry(log[|log|-1], verb, replayable);
    }
  }

  /** Closing the books: all tries but the last were safe to retry, and each of
      those that reached a backend was paid for. */
  lemma {:induction false} CloseBooks(log: seq<Try>, t: Try, verb: Verb, replayable: bool)
    requires forall i :: 0 <= i < |log| ==> SafeToRetry(log[i], verb, replayable)
    requires Reached(log) <= 2
    ensures Accounted(log + [t], verb, replayable, Reached(log))
    ensures Accounted(log, verb, replayable, Reached(log))
  {
    LogGrows(log, t);
    ReachedSafely(log, verb, replayable);
    if log != [] {
      assert SafeToRetry(log[0], verb, replayable);
    } else {
      assert Sends(log) == 0;
    }
    assert forall i :: 0 <= i < |log| ==> (log + [t])[i] == log[i];
  }

  lemma {:induction false} GoesOn(log: seq<Try>, t: Try, fallback: Option<Outcome>, verb: Verb, replayable: bool, backends: seq<Backend>)
    requires Going(log, fallback, verb, replayable, backends) && From(log + [t], backends)
    requires SafeToRetry(t, verb, replayable)
    ensures Going(log + [t], if Answered(t) then Some(Answer(t.node, t.sent.value.status)) else fallback,
                  verb, replayable, backends)
    ensures MayHaveReached(t) ==> Answered(t)
  {
    hide From;
    LogGrows(log, t);
    assert forall i :: 0 <= i < |log| ==> (log + [t])[i] == log[i];
  }

  /** Ending without a further try: the last one was a safe one. */
  lemma {:induction false} NothingTried(log: seq<Try>, o: Outcome, verb: Verb, replayable: bool)
    requires forall i :: 0 <= i < |log| ==> SafeToRetry(log[i], verb, replayable)
    requires o == Error(502, NoBackendReachable) || (log == [] && o == Error(503, CircuitOpen))
    ensures Ended(log, o, LastAnswer(log))
  {
    if log != [] {
      assert SafeToRetry(log[|log|-1], verb, replayable);
    }
  }

  lemma {:induction false} EndsWith(log: seq<Try>, t: Try)
    ensures Ended(log + [t], Conclusion(t), LastAnswer(log))
  {
    LogGrows(log, t);
  }

  /** Every backend of the log comes from the offered ones. */
  lemma {:induction false} FromWithin(log: seq<Try>, backends: seq<Backend>, all: seq<Backend>, subset: Option<map<string, string>>)
    requires From(log, backends) && |log| <= MAX_TUNNEL_ATTEMPTS
    requires forall b :: b in backends ==> b in Candidates(all, subset)
    ensures Within(log, all, subset)
  {
    forall i | 0 <= i < |log|
      ensures Hosts(Candidates(all, subset), log[i].node)
    {
      assert Hosts(backends, log[i].node);
      var j :| 0 <= j < |backends| && backends[j].id == log[i].node;
      assert backends[j] in Candidates(all, subset);
    }
  }

  lemma {:induction false} GoingReplays(log: seq<Try>, fallback: Option<Outcome>, verb: Verb, replayable: bool, backends: seq<Backend>)
    requires Going(log, fallback, verb, replayable, backends) && log != []
    ensures replayable && From(log, backends) && (fallback.Some? ==> fallback.value.Answer?)
  {
    assert SafeToRetry(log[0], verb, replayable);
  }

  /** After a round that ends in another try: `spent` tokens paid for it. */
  ghost predicate GoneOn(log: seq<Try>, log': seq<Try>, kept: Option<Outcome>, verb: Verb, replayable: bool,
                         backends: seq<Backend>, spent: int)
  {
    && Going(log', kept, verb, replayable, backends)
    && |log'| == |log| + 1
    && 0 <= spent == Reached(log') - Reached(log) <= 1
    && (spent > 0 ==> |log'| < MaxTries(backends))
  }

  /** After a round that ends the loop with `o`. */
  ghost predicate Stopped(log: seq<Try>, log': seq<Try>, o: Outcome, fallback: Option<Outcome>, verb: Verb, replayable: bool,
                          backends: seq<Backend>, tail: seq<Entry>, denied: bool)
  {
    && From(log', backends) && |log'| <= |log| + 1
    && (log' == [] ==> o == Error(503, CircuitOpen))
    && Ended(log', o, fallback)
    && Accounted(log', verb, replayable, Reached(log))
    && Justified(log', verb, replayable, backends, tail, denied)
  }

  lemma {:induction false} GoingParts(log: seq<Try>, fallback: Option<Outcome>, verb: Verb, replayable: bool, backends: seq<Backend>)
    requires Going(log, fallback, verb, replayable, backends)
    ensures fallback == LastAnswer(log) && (fallback.Some? ==> fallback.value.Answer?) && From(log, backends)
  {
  }

  /** Before a round: `spent` tokens so far, and a streamed body not yet used. */
  ghost predicate Looping(log: seq<Try>, fallback: Option<Outcome>, verb: Verb, body: Body, left: Body,
                          backends: seq<Backend>, spent: int)
  {
    && Going(log, fallback, verb, body.Replayable?, backends)
    && |log| <= MaxTries(backends)
    && spent == Reached(log) <= |log|
    && (spent > 0 ==> spent < MaxTries(backends))
    && (if log == [] then left == body else left.Replayable? && body.Replayable?)
  }

  /** After the last round. */
  ghost predicate Finished(log: seq<Try>, o: Outcome, fallback: Option<Outcome>, verb: Verb, replayable: bool,
                           backends: seq<Backend>, tail: seq<Entry>, denied: bool, spent: int)
  {
    && From(log, backends) && |log| <= MAX_TUNNEL_ATTEMPTS
    && Ended(log, o, fallback)
    && (fallback.Some? ==> fallback.value.Answer?)
    && spent >= 0 && Accounted(log, verb, replayable, spent)
    && (log == [] ==> o == NothingTo(backends))
    && Justified(log, verb, replayable, backends, tail, denied)
  }

  lemma {:induction false} FirstRound(verb: Verb, body: Body, backends: seq<Backend>)
    ensures Looping([], None, verb, body, body, backends, 0) && forall f :: StoryOf([], f) == []
    ensures SlotOfOption(None) == multiset{}
  {
    EmptyLog(backends);
  }

  lemma {:induction false} NextRound(log: seq<Try>, log': seq<Try>, fallback: Option<Outcome>, kept: Option<Outcome>, verb: Verb,
                  body: Body, left: Body, backends: seq<Backend>, before: int, spent: int)
    requires Looping(log, fallback, verb, body, left, backends, before) && |log| < MaxTries(backends)
    requires GoneOn(log, log', kept, verb, body.Replayable?, backends, spent)
    ensures |log'| == |log| + 1
    ensures Looping(log', kept, verb, body, if left.Stream? then Stream(false) else left, backends, before + spent)
  {
    hide Reached, From, SafeToRetry, LastAnswer, Going;
    GoingReplays(log', kept, verb, body.Replayable?, backends);
  }

  lemma {:induction false} RoundFinishes(log: seq<Try>, log': seq<Try>, o: Outcome, fallback: Option<Outcome>, verb: Verb, body: Body, left: Body,
                      backends: seq<Backend>, tail: seq<Entry>, denied: bool, spent: int)
    requires Looping(log, fallback, verb, body, left, backends, spent) && |log| < MaxTries(backends)
    requires Stopped(log, log', o, fallback, verb, body.Replayable?, backends, tail, denied)
    ensures Finished(log', o, fallback, verb, body.Replayable?, backends, tail, denied, spent)
  {
    hide Reached, From, LastAnswer, Going, Ended, Accounted, Justified;
    GoingParts(log, fallback, verb, body.Replayable?, backends);
  }

  lemma {:induction false} TriesRunOut(log: seq<Try>, fallback: Option<Outcome>, verb: Verb, body: Body, left: Body,
                    backends: seq<Backend>, denied: bool, spent: int)
    requires Looping(log, fallback, verb, body, left, backends, spent) && |log| >= MaxTries(backends)
    ensures Finished(log, Error(502, NoBackendReachable), fallback, verb, body.Replayable?, backends, [], denied, spent)
    ensures SlotOfOption(fallback) + SlotOf(Error(502, NoBackendReachable)) == SlotOfOption(fallback)
  {
    hide Ended, Accounted, Reached, LastAnswer, SafeToRetry, Refused, From;
    NothingTried(log, Error(502, NoBackendReachable), verb, body.Replayable?);
    CloseBooks(log, Try("", None), verb, body.Replayable?);
  }

  lemma {:induction false} LoopingParts(log: seq<Try>, fallback: Option<Outcome>, verb: Verb, body: Body, left: Body,
                     backends: seq<Backend>, spent: int)
    requires Looping(log, fallback, verb, body, left, backends, spent) && body != Stream(false)
    ensures Going(log, fallback, verb, left.Replayable?, backends) && left.Replayable? == body.Replayable?
    ensures left != Stream(false) && Reached(log) <= |log| <= MaxTries(backends) <= MAX_TUNNEL_ATTEMPTS
  {
  }

  lemma {:induction false} NothingToNote(t: Try)
    requires t.sent.None?
    ensures forall later :: NoteOf(t, later) == []
  {
  }

  lemma {:induction false} UnsentNotSafe(t: Try, verb: Verb, replayable: bool)
    requires t.sent.None?
    ensures !SafeToRetry(t, verb, replayable)
  {
  }

  lemma {:induction false} RefusedStops(st: State, log: seq<Try>, o: Outcome, fallback: Option<Outcome>, verb: Verb, replayable: bool,
                     backends: seq<Backend>, denied: bool, now: Instant)
    requires Going(log, fallback, verb, replayable, backends) && Reached(log) <= |log| < MaxTries(backends)
    requires !PickStep(st, backends, Nodes(log), now).0.Chosen?
    requires o == if PickStep(st, backends, Nodes(log), now).0.AtCapacity? && log == []
                  then Error(503, CircuitOpen) else Error(502, NoBackendReachable)
    ensures Stopped(log, log, o, fallback, verb, replayable, backends,
                    [TurnedAway(backends, Nodes(log), now, st.active)], denied)
    ensures SlotOfOption(fallback) + SlotOf(o) == SlotOfOption(fallback)
  {
    hide PickStep, Excused, Refused, Accounted, Ended, From, SafeToRetry;
    PickRefuses(st, backends, log, now);
    PickExactlyWhen(st, backends, Nodes(log), now);
    assert log == [] ==> backends[0].id !in Nodes(log);
    CloseBooks(log, Try("", None), verb, replayable);
    NothingTried(log, o, verb, replayable);
  }

  lemma {:induction false} TryStops(log: seq<Try>, t: Try, fallback: Option<Outcome>, verb: Verb, replayable: bool,
                 backends: seq<Backend>, at: nat, denied: bool)
    requires Going(log, fallback, verb, replayable, backends) && Reached(log) <= |log| < MaxTries(backends)
    requires at < |backends| && t.node == backends[at].id && t.node !in Nodes(log)
    requires SafeToRetry(t, verb, replayable) ==> Answered(t) && (|log| + 1 >= MaxTries(backends) || denied)
    ensures Stopped(log, log + [t], Conclusion(t), fallback, verb, replayable, backends, [], denied)
  {
    hide Excused, Refused, Accounted, Ended, From, SafeToRetry, Nodes;
    LogFrom(log, backends, at, t.sent);
    assert t == Try(backends[at].id, t.sent);
    CloseBooks(log, t, verb, replayable);
    EndsWith(log, t);
    StopExcused(log, t, verb, replayable, backends, denied);
  }

  lemma {:induction false} TryGoesOn(log: seq<Try>, t: Try, fallback: Option<Outcome>, verb: Verb, replayable: bool,
                  backends: seq<Backend>, at: nat)
    requires Going(log, fallback, verb, replayable, backends) && |log| < MaxTries(backends)
    requires at < |backends| && t.node == backends[at].id && t.node !in Nodes(log)
    requires SafeToRetry(t, verb, replayable)
    requires Answered(t) ==> |log| + 1 < MaxTries(backends)
    ensures GoneOn(log, log + [t], if Answered(t) then Some(Answer(t.node, t.sent.value.status)) else fallback,
                   verb, replayable, backends, if Answered(t) then 1 else 0)
  {
    hide Going, From, Nodes, SafeToRetry, LastAnswer;
    GoingParts(log, fallback, verb, replayable, backends);
    LogFrom(log, backends, at, t.sent);
    assert t == Try(backends[at].id, t.sent);
    GoesOn(log, t, fallback, verb, replayable, backends);
    LogGrows(log, t);
  }

  lemma {:induction false} SettledBy(log: seq<Try>, o: Outcome, fallback: Option<Outcome>, verb: Verb, replayable: bool,
                  backends: seq<Backend>, tail: seq<Entry>, denied: bool, spent: int)
    requires Finished(log, o, fallback, verb, replayable, backends, tail, denied, spent)
    ensures fallback.Some? ==> fallback.value.Answer?
    ensures From(log, backends) && |log| <= MAX_TUNNEL_ATTEMPTS
    ensures spent >= 0 && Accounted(log, verb, replayable, spent)
    ensures var outcome := if o.Error? && fallback.Some? then fallback.value else o;
      && Settled(log, outcome) && outcome != Error(503, NoRouteBackend)
      && (log == [] ==> outcome == NothingTo(backends))
    ensures Justified(log, verb, replayable, backends, tail, denied)
  {
    hide From, Accounted, Justified;
  }

  lemma {:induction false} NoSlotForErrors(code: nat, reason: Reason)
    ensures SlotOf(Error(code, reason)) == multiset{}
  {
  }

  lemma {:induction false} NoSlot(o: Outcome)
    ensures SlotOfOption(None) + SlotOf(o) == SlotOf(o)
    ensures o.Error? ==> forall f: Outcome :: SlotOfOption(Some(f)) + SlotOf(o) == SlotOf(f)
  {
  }

  lemma {:induction false} FallbackSlot(f: Outcome, o: Outcome)
    requires f.Answer?
    ensures f.node in SlotOfOption(Some(f)) + SlotOf(o)
    ensures SlotOfOption(Some(f)) + SlotOf(o) - multiset{f.node} == SlotOf(o)
  {
  }

  /** The slot of the kept answer can be given up for that of the new one. */
  lemma {:induction false} AnswerSlot(fallback: Option<Outcome>, node: NodeId)
    requires fallback.Some? ==> fallback.value.Answer?
    ensures fallback.None? ==> SlotOfOption(fallback) + multiset{node} == multiset{node}
    ensures fallback.Some? ==>
      && fallback.value.node in SlotOfOption(fallback) + multiset{node}
      && SlotOfOption(fallback) + multiset{node} - multiset{fallback.value.node} == multiset{node}
  {
  }

  lemma {:induction false} SlotsOfSend(node: NodeId, result: Upstream, fallback: Option<Outcome>)
    ensures result.Response? ==>
      && SlotOf(Verbatim(node, result)) == multiset{node} == SlotOfOption(Some(Answer(node, result.status)))
      && forall now :: NoteOf(Try(node, Some(result)), now) == [Worked(node)]
    ensures !result.Response? ==> SlotOfOption(fallback) + SlotOf(Verbatim(node, result)) == SlotOfOption(fallback)
  {
  }

  lemma {:induction false} UnsentSlot(fallback: Option<Outcome>, node: NodeId)
    ensures SlotOfOption(fallback) + multiset{node} - multiset{node} ==
      SlotOfOption(fallback) + SlotOf(Error(502, NoBackendReachable))
  {
    AddTo(SlotOfOption(fallback), multiset{}, node);
  }

  /** An incoming body: known to be at most `upper` bytes (0 when there is
      none), or of unknown length. */
  datatype Incoming = Bounded(upper: nat) | Unbounded

  const MAX_BUFFERED_BODY: nat := 64 * 1024

  /** The body to send, or nothing when buffering it fails. */
  function Prepare(incoming: Incoming, readable: bool): Option<Body>
  {
    match incoming
    case Bounded(upper) =>
      if upper == 0 then Some(Replayable)
      else if upper <= MAX_BUFFERED_BODY then (if readable then Some(Replayable) else None)
      else Some(Stream(true))
    case Unbounded => Some(Stream(true))
  }

  lemma {:induction false} AccountedMeans(log: seq<Try>, verb: Verb, replayable: bool, spent: nat)
    requires Accounted(log, verb, replayable, spent)
    ensures spent <= 2 && Reached(log) <= 1 + spent
    ensures verb.POST? || verb.PATCH? || verb.CONNECT? || verb.Extension? || !replayable ==> Reached(log) <= 1
  {
    hide Reached, SafeToRetry;
  }

  lemma {:induction false} NothingMeans(all: seq<Backend>, subset: Option<map<string, string>>)
    ensures Reached([]) == 0 && Within([], all, subset)
  {
    hide Candidates;
    assert Nodes([]) == [];
  }

  lemma {:induction false} NeverBadBody(log: seq<Try>, o: Outcome)
    requires Settled(log, o) && (log == [] ==> o.Error? && o.reason != BadRequestBody)
    ensures o != Error(400, BadRequestBody)
  {
  }

  class HttpProxy {
    const balancer: Balancer
    const budget: RetryBudget

    ghost predicate Valid()
      reads balancer, budget
    {
      balancer.Valid() && budget.Valid()
    }

    constructor (balancer: Balancer, budget: RetryBudget)
      ensures this.balancer == balancer && this.budget == budget
    {
      this.balancer, this.budget := balancer, budget;
    }

    /** Everything other tasks may do between two steps of this one: while it
        waits, and, since workers run in parallel, wherever it does not hold a
        lock. Callers know only this contract: any valid state in which our slots
        are still held and our own history is ours alone. */
    method OtherTasks()
      requires Valid()
      modifies balancer, budget
      ensures Valid() && balancer.mine == old(balancer.mine) && balancer.diary == old(balancer.diary)
      ensures budget.mine == old(budget.mine) && budget.denied == old(budget.denied) && budget.asked == old(budget.asked)
    {
    }

    /** React to a failed send on `node`, on which we hold a slot. Only a failed
        connect counts against the node. */
    method OnFailure(replayable: bool, node: NodeId, result: Upstream, ghost fallback: Option<Outcome>, now: Instant)
      returns (v: Verdict)
      requires Valid() && balancer.mine == SlotOfOption(fallback) + multiset{node} && !result.Response?
      modifies balancer, budget
      ensures Valid() && budget.asked == old(budget.asked)
      ensures balancer.mine == SlotOfOption(fallback)
      ensures balancer.diary == old(balancer.diary) + NoteOf(Try(node, Some(result)), now)
      ensures budget.mine == old(budget.mine) && budget.denied == old(budget.denied)
      ensures v == if result.ConnectError? && replayable then Again else Stop(Verbatim(node, result))
    {
      hide ReleaseStep, FailureStep, Fail, Balancer.Valid, RetryBudget.Valid, SlotOfOption, Balancer.St, Balancer.Live;
      AddTo(SlotOfOption(fallback), multiset{}, node);
      if result.ConnectError? {
        var _ := balancer.RecordFailure(node, now, true);
        OtherTasks();
      }
      balancer.Release(node, true);
      OtherTasks();
      v := if result.ConnectError? && replayable then Again else Stop(Verbatim(node, result));
    }

    /** React to an answer from `node`, on which we hold a slot: any answer
        clears the node's failures. `last` says that no further node may be
        tried. */
    method OnAnswer(verb: Verb, replayable: bool, node: NodeId, status: nat, last: bool, fallback: Option<Outcome>)
      returns (v: Verdict)
      requires Valid() && balancer.mine == SlotOfOption(fallback) + multiset{node}
      requires fallback.Some? ==> fallback.value.Answer?
      modifies balancer, budget
      ensures Valid() && budget.asked == old(budget.asked)
      ensures balancer.diary == old(balancer.diary) + [Worked(node)]
      ensures v == Again || v == Stop(Answer(node, status))
      ensures var worth :=
          && (status == 502 || status == 503 || status == 504)
          && (verb.GET? || verb.HEAD? || verb.OPTIONS? || verb.PUT? || verb.DELETE? || verb.TRACE?)
          && replayable && !last;
        && (v == Again <==> worth && budget.denied == old(budget.denied))
        && budget.denied == old(budget.denied) + (if worth && v != Again then 1 else 0)
      ensures if v == Again then balancer.mine == multiset{node} && budget.mine == old(budget.mine) + 1
              else balancer.mine == old(balancer.mine) && budget.mine == old(budget.mine)
    {
      hide ReleaseStep, SuccessStep, Balancer.Valid, RetryBudget.Valid, Balancer.St, Balancer.Live, SlotOfOption;
      AnswerSlot(fallback, node);
      balancer.RecordSuccess(node, true);
      OtherTasks();
      if !RetryableStatus(status) || !Idempotent(verb) || !replayable || last {
        return Stop(Answer(node, status));
      }
      var granted := budget.TryWithdraw();
      OtherTasks();
      if !granted {
        return Stop(Answer(node, status));
      }
      // The older answer gives way, and its slot is dropped.
      if fallback.Some? {
        balancer.Release(fallback.value.node, true);
        OtherTasks();
      }
      v := Again;
    }

    /** One request: it earns its share of the retry budget, then a body that
        cannot be read is refused before any node is tried. */
    method Handle(verb: Verb, incoming: Incoming, readable: bool, subset: Option<map<string, string>>, all: seq<Backend>,
                  seen: NodeId -> bool, healthy: NodeId -> bool, uriOk: NodeId -> bool,
                  results: seq<Upstream>, clock: seq<Instant>, later: seq<Instant>)
      returns (outcome: Outcome, log: seq<Try>)
      requires Valid() && balancer.mine == multiset{}
      requires |results| == |clock| == |later| == MAX_TUNNEL_ATTEMPTS
      modifies balancer, budget
      ensures Valid() && balancer.mine == SlotOf(outcome)
      ensures budget.asked == old(budget.asked) + 1
      ensures old(budget.mine) <= budget.mine <= old(budget.mine) + 2
      ensures Reached(log) <= 1 + budget.mine - old(budget.mine)
      ensures verb.POST? || verb.PATCH? || verb.CONNECT? || verb.Extension? ==> Reached(log) <= 1
      ensures incoming.Unbounded? || incoming.upper > 65536 ==> Reached(log) <= 1
      ensures outcome == Error(400, BadRequestBody) <==> incoming.Bounded? && 0 < incoming.upper <= 65536 && !readable
      ensures Prepare(incoming, readable).None? ==> log == []
      ensures Within(log, all, subset)
      ensures Prepare(incoming, readable).Some? ==> Settled(log, outcome)
    {
      hide Reached, Accounted, Within, Settled, Favoured, Justified, StoryOf, PreferHealthy, Candidates, SlotOf, NothingTo,
        Balancer.Valid, RetryBudget.Valid, Balancer.St, Balancer.Live;
      budget.Credit();
      OtherTasks();
      NothingMeans(all, subset);
      NoSlotForErrors(400, BadRequestBody);
      match Prepare(incoming, readable) {
        case None =>
          outcome, log := Error(400, BadRequestBody), [];
        case Some(body) =>
          ghost var tail;
          ghost var paid: int := budget.mine;
          outcome, log, tail := Attempt(verb, body, subset, all, seen, healthy, uriOk, results, clock, later);
          AccountedMeans(log, verb, body.Replayable?, budget.mine - paid);
          NeverBadBody(log, outcome);
      }
    }

    /** Send the request to up to three distinct nodes. `results` are the
        upstream results of the first, second and third send, `clock` the times
        of the picks and `later` those of the results. */
    method Attempt(verb: Verb, body: Body, subset: Option<map<string, string>>, all: seq<Backend>,
                   seen: NodeId -> bool, healthy: NodeId -> bool, uriOk: NodeId -> bool,
                   results: seq<Upstream>, clock: seq<Instant>, later: seq<Instant>)
      returns (outcome: Outcome, log: seq<Try>, ghost tail: seq<Entry>)
      requires Valid() && balancer.mine == multiset{}
      requires body != Stream(false)
      requires |results| == |clock| == |later| == MAX_TUNNEL_ATTEMPTS
      modifies balancer, budget
      ensures Valid() && budget.asked == old(budget.asked)
      ensures balancer.mine == SlotOf(outcome)
      ensures budget.mine >= old(budget.mine)
      ensures Accounted(log, verb, body.Replayable?, budget.mine - old(budget.mine))
      ensures Within(log, all, subset)
      ensures Settled(log, outcome)
      ensures outcome == Error(503, NoRouteBackend) <==> subset.Some? && Candidates(all, subset) == []
      ensures log == [] && outcome != Error(503, NoRouteBackend) ==>
        outcome == if Candidates(all, subset) == [] then Error(502, NoBackendReachable) else Error(503, CircuitOpen)
      ensures Favoured(log, Candidates(all, subset), seen, healthy)
      ensures outcome != Error(503, NoRouteBackend) ==>
        Justified(log, verb, body.Replayable?, PreferHealthy(Candidates(all, subset), seen, healthy), tail,
                  budget.denied > old(budget.denied))
      ensures balancer.diary == old(balancer.diary) + [Kept(all)] +
        StoryOf(log, Frame(PreferHealthy(Candidates(all, subset), seen, healthy), clock, later)) + tail
    {
      hide Justified, StoryOf, RetainStep, Balancer.Valid, RetryBudget.Valid, Balancer.St, Balancer.Live, Reached, LastAnswer, Accounted,
        ErrorExplained, PreferHealthy, Candidates, Favoured, From, Within, SlotOf;
      EmptyLog(all);
      log, tail := [], [];
      balancer.RetainNodes(all, true);
      OtherTasks();
      var candidates := Candidates(all, subset);
      if candidates == [] && subset.Some? {
        EmptyStory(Frame(PreferHealthy(candidates, seen, healthy), clock, later));
        NothingMeans(all, subset);
        NobodyTried(candidates, seen, healthy);
        NoSlotForErrors(503, NoRouteBackend);
        return Error(503, NoRouteBackend), log, tail;
      }
      var backends := PreferHealthy(candidates, seen, healthy);
      assert forall b :: b in backends ==> b in Candidates(all, subset);
      outcome, log, tail := TryBackends(verb, body, backends, uriOk, results, clock, later);
      FromWithin(log, backends, all, subset);
      FromFavoured(log, candidates, seen, healthy);
    }

    /** One round of the loop: pick a node not tried yet and send to it.
        Returns the outcome if the loop ends here. */
    method TryOne(verb: Verb, left: Body, backends: seq<Backend>, uriOk: NodeId -> bool, result: Upstream,
                  now: Instant, later: Instant, log: seq<Try>, fallback: Option<Outcome>, maxAttempts: nat,
                  ghost base: seq<Entry>, ghost f: Frame)
      returns (stop: Option<Outcome>, log': seq<Try>, kept: Option<Outcome>, ghost tail: seq<Entry>)
      requires Valid() && balancer.mine == SlotOfOption(fallback) && balancer.diary == base + StoryOf(log, f)
      requires f.backends == backends && now == At(f.clock, |log|) && later == At(f.later, |log|)
      requires Going(log, fallback, verb, left.Replayable?, backends)
      requires |log| < maxAttempts == MaxTries(backends) && Reached(log) <= |log|
      requires left != Stream(false)
      modifies balancer, budget
      ensures Valid() && budget.asked == old(budget.asked)
      ensures stop.None? ==>
        && balancer.mine == SlotOfOption(kept) && tail == [] && budget.denied == old(budget.denied)
        && GoneOn(log, log', kept, verb, left.Replayable?, backends, budget.mine - old(budget.mine))
      ensures stop.Some? ==>
        && kept == fallback
        && balancer.mine == SlotOfOption(fallback) + SlotOf(stop.value)
        && budget.mine == old(budget.mine)
        && Stopped(log, log', stop.value, fallback, verb, left.Replayable?, backends, tail,
                   budget.denied > old(budget.denied))
      ensures balancer.diary == base + StoryOf(log', f) + tail
    {
      hide StoryOf, At, ReleaseStep, PickStep, Matches, Reached, LastAnswer, Sends, From, Nodes, Accounted, SlotOfOption, SlotOf, Going,
        GoneOn, SafeToRetry, ErrorExplained, Ended, Stopped, Balancer.Valid, RetryBudget.Valid, MaxTries;
      log', kept, stop, tail := log, fallback, None, [];
      var pick := balancer.PickBackend(backends, Nodes(log), now, true);
      OtherTasks();
      if !pick.Chosen? {
        tail := [TurnedAway(backends, Nodes(log), now, old(balancer.active))];
        stop := Some(if pick.AtCapacity? && log == [] then Error(503, CircuitOpen) else Error(502, NoBackendReachable));
        RefusedStops(old(balancer.St()), log, stop.value, fallback, verb, left.Replayable?, backends, false, now);
        return;
      }
      stop, log', kept, tail := TryNode(verb, left.Replayable?, backends, pick.index, uriOk(backends[pick.index].id),
                                  result, later, log, fallback, maxAttempts, base, f);
    }

    /** Send to the picked node, unless its name makes no URI. */
    method TryNode(verb: Verb, replayable: bool, backends: seq<Backend>, at: nat, uriOk: bool, result: Upstream,
                   later: Instant, log: seq<Try>, fallback: Option<Outcome>, maxAttempts: nat,
                  ghost base: seq<Entry>, ghost f: Frame)
      returns (stop: Option<Outcome>, log': seq<Try>, kept: Option<Outcome>, ghost tail: seq<Entry>)
      requires at < |backends| && backends[at].id !in Nodes(log)
      requires Valid() && balancer.mine == SlotOfOption(fallback) + multiset{backends[at].id}
      requires f.backends == backends && later == At(f.later, |log|)
      requires balancer.diary == base + StoryOf(log, f) + [Took(backends, Nodes(log), At(f.clock, |log|), backends[at].id)]
      requires Going(log, fallback, verb, replayable, backends)
      requires |log| < maxAttempts == MaxTries(backends) && Reached(log) <= |log|
      modifies balancer, budget
      ensures Valid() && budget.asked == old(budget.asked)
      ensures stop.None? ==>
        && balancer.mine == SlotOfOption(kept) && tail == [] && budget.denied == old(budget.denied)
        && GoneOn(log, log', kept, verb, replayable, backends, budget.mine - old(budget.mine))
      ensures stop.Some? ==>
        && kept == fallback
        && balancer.mine == SlotOfOption(fallback) + SlotOf(stop.value)
        && budget.mine == old(budget.mine)
        && Stopped(log, log', stop.value, fallback, verb, replayable, backends, tail,
                   budget.denied > old(budget.denied))
      ensures balancer.diary == base + StoryOf(log', f) + tail
    {
      hide StoryOf, At, ReleaseStep, Matches, Reached, LastAnswer, Sends, From, Nodes, Accounted, SlotOfOption, Going, GoneOn,
        SafeToRetry, ErrorExplained, Ended, Stopped, Excused, Balancer.Valid, RetryBudget.Valid, Balancer.St, Balancer.Live,
        SlotOf, NoteOf, MaxTries;
      var node := backends[at].id;
      var t := Try(node, if uriOk then Some(result) else None);
      kept, stop, log', tail := fallback, None, log + [t], [];
      LogGrows(log, t);
      StoryGrows(log, t, f);
      GoingParts(log, fallback, verb, replayable, backends);
      if !uriOk {
        UnsentSlot(fallback, node);
        NothingToNote(t);
        balancer.Release(node, true);
        OtherTasks();
        stop := Some(Error(502, NoBackendReachable));
        UnsentNotSafe(t, verb, replayable);
        TryStops(log, t, fallback, verb, replayable, backends, at, budget.denied > old(budget.denied));
        return;
      }
      var v;
      v, kept := SendTo(verb, replayable, node, result, |log'| >= maxAttempts, fallback, later);
      if v.Stop? {
        stop := Some(v.outcome);
        TryStops(log, t, fallback, verb, replayable, backends, at, budget.denied > old(budget.denied));
      } else {
        TryGoesOn(log, t, fallback, verb, replayable, backends, at);
      }
    }

    /** Wait for the upstream result and react to it. */
    method SendTo(verb: Verb, replayable: bool, node: NodeId, result: Upstream, last: bool,
                  fallback: Option<Outcome>, now: Instant)
      returns (v: Verdict, kept: Option<Outcome>)
      requires Valid() && balancer.mine == SlotOfOption(fallback) + multiset{node}
      requires fallback.Some? ==> fallback.value.Answer?
      modifies balancer, budget
      ensures Valid() && budget.asked == old(budget.asked)
      ensures balancer.diary == old(balancer.diary) + NoteOf(Try(node, Some(result)), now)
      ensures v == Again ==>
        && budget.denied == old(budget.denied)
        && SafeToRetry(Try(node, Some(result)), verb, replayable)
        && kept == (if result.Response? then Some(Answer(node, result.status)) else fallback)
        && balancer.mine == SlotOfOption(kept)
        && budget.mine == old(budget.mine) + (if result.Response? then 1 else 0)
        && (result.Response? ==> !last)
      ensures v.Stop? ==>
        && v.outcome == Verbatim(node, result)
        && kept == fallback
        && balancer.mine == SlotOfOption(fallback) + SlotOf(v.outcome)
        && budget.mine == old(budget.mine)
        && (SafeToRetry(Try(node, Some(result)), verb, replayable) ==> result.Response? && (last || budget.denied > old(budget.denied)))
    {
      hide Balancer.Valid, RetryBudget.Valid, Balancer.St, Balancer.Live, SlotOf, SlotOfOption, NoteOf;
      SlotsOfSend(node, result, fallback);
      OtherTasks();
      kept := fallback;
      if result.Response? {
        v := OnAnswer(verb, replayable, node, result.status, last, fallback);
        if v == Again {
          kept := Some(Answer(node, result.status));
        }
      } else {
        v := OnFailure(replayable, node, result, fallback, now);
      }
    }

    /** The loop over the preferred backends. */
    method TryBackends(verb: Verb, body: Body, backends: seq<Backend>, uriOk: NodeId -> bool,
                       results: seq<Upstream>, clock: seq<Instant>, later: seq<Instant>)
      returns (outcome: Outcome, log: seq<Try>, ghost tail: seq<Entry>)
      requires Valid() && balancer.mine == multiset{}
      requires body != Stream(false)
      requires |results| == |clock| == |later| == MAX_TUNNEL_ATTEMPTS
      modifies balancer, budget
      ensures Valid() && budget.asked == old(budget.asked)
      ensures balancer.mine == SlotOf(outcome)
      ensures budget.mine >= old(budget.mine)
      ensures Accounted(log, verb, body.Replayable?, budget.mine - old(budget.mine))
      ensures From(log, backends) && |log| <= MAX_TUNNEL_ATTEMPTS
      ensures Settled(log, outcome) && outcome != Error(503, NoRouteBackend)
      ensures log == [] ==> outcome == NothingTo(backends)
      ensures Justified(log, verb, body.Replayable?, backends, tail, budget.denied > old(budget.denied))
      ensures balancer.diary == old(balancer.diary) + StoryOf(log, Frame(backends, clock, later)) + tail
    {
      hide GoneOn, Stopped, Looping, Finished, Going, Justified, StoryOf, Accounted, From, Settled, NothingTo, MaxTries,
        SlotOf, SlotOfOption, Reached, Balancer.Valid, RetryBudget.Valid;
      log, tail := [], [];
      FirstRound(verb, body, backends);
      var maxAttempts := MaxTries(backends);
      var fallback: Option<Outcome> := None;
      var left := body;
      var stop: Option<Outcome> := None;
      ghost var paid: int := budget.mine;
      ghost var base, denied := balancer.diary, budget.denied;
      ghost var f := Frame(backends, clock, later);

      while stop.None?
        invariant Valid() && budget.asked == old(budget.asked)
        invariant balancer.diary == base + StoryOf(log, f) + tail
        invariant stop.None? ==>
          && balancer.mine == SlotOfOption(fallback) && tail == [] && budget.denied == denied
          && Looping(log, fallback, verb, body, left, backends, budget.mine - paid)
        invariant stop.Some? ==>
          && balancer.mine == SlotOfOption(fallback) + SlotOf(stop.value)
          && Finished(log, stop.value, fallback, verb, body.Replayable?, backends, tail, budget.denied > denied,
                      budget.mine - paid)
        decreases stop.None?, maxAttempts - |log|
      {
        ghost var log0, fallback0, left0 := log, fallback, left;
        ghost var paid0: int := budget.mine;
        LoopingParts(log, fallback, verb, body, left, backends, budget.mine - paid);
        if |log| >= maxAttempts {
          stop := Some(Error(502, NoBackendReachable));
          TriesRunOut(log, fallback, verb, body, left, backends, budget.denied > denied, budget.mine - paid);
        } else {
          stop, log, fallback, tail :=
            TryOne(verb, left, backends, uriOk, results[|log|], clock[|log|], later[|log|], log, fallback, maxAttempts,
                   base, f);
          left := if left.Stream? then Stream(false) else left;
          if stop.None? {
            NextRound(log0, log, fallback0, fallback, verb, body, left0, backends, paid0 - paid, budget.mine - paid0);
          } else {
            RoundFinishes(log0, log, stop.value, fallback0, verb, body, left0, backends,
                          tail, budget.denied > denied, paid0 - paid);
          }
        }
      }

      SettledBy(log, stop.value, fallback, verb, body.Replayable?, backends, tail, budget.denied > denied,
                budget.mine - paid);
      outcome := Settle(stop.value, fallback);
    }

    /** Choose what the client gets: an error of the proxy's own gives way to an
        answer kept from an earlier node, and an answer that is not used drops
        its slot. */
    method Settle(o: Outcome, fallback: Option<Outcome>) returns (outcome: Outcome)
      requires Valid() && balancer.mine == SlotOfOption(fallback) + SlotOf(o)
      requires fallback.Some? ==> fallback.value.Answer?
      modifies balancer, budget
      ensures Valid() && balancer.mine == SlotOf(outcome) && balancer.diary == old(balancer.diary)
      ensures budget.mine == old(budget.mine) && budget.denied == old(budget.denied) && budget.asked == old(budget.asked)
      ensures outcome == if o.Error? && fallback.Some? then fallback.value else o
    {
      hide ReleaseStep, Balancer.Valid, RetryBudget.Valid, Balancer.St, Balancer.Live, SlotOf, SlotOfOption;
      NoSlot(o);
      outcome := o;
      if o.Error? && fallback.Some? {
        outcome := fallback.value;
      } else if fallback.Some? {
        FallbackSlot(fallback.value, o);
        balancer.Release(fallback.value.node, true);
        OtherTasks();
      }
    }
  }
}
