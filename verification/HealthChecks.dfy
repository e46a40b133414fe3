/** Local health checking: consecutive probe failures per hosted service, and
    the decision when to publish a new report. */
module HealthChecks {
  import opened Common
  import opened Replication

  const UNHEALTHY_AFTER: nat := 2

  function Bad(failures: map<string, nat>): set<string>
  {
    set s | s in failures && failures[s] >= UNHEALTHY_AFTER
  }

  /** Failure counts after a round that probed exactly the hosted services. */
  function Counts(failures: map<string, nat>, probes: map<string, bool>): map<string, nat>
  {
    map s | s in probes :: if probes[s] then 0 else Get(failures, s, 0) + 1
  }

  datatype Checker = Checker(failures: map<string, nat>, first: bool, report: Health)

  const NEW: Checker := Checker(map[], true, UNSET)

  function Round(c: Checker, probes: map<string, bool>, now: nat): Checker
  {
    var f := Counts(c.failures, probes);
    Checker(f, false,
      if c.first || Bad(f) != Bad(c.failures) then Health(NextVersion(c.report.version, now), Bad(f)) else c.report)
  }

  function After(rounds: seq<map<string, bool>>, clock: seq<nat>): Checker
    requires |clock| == |rounds|
  {
    if rounds == [] then NEW
    else
      var n := |rounds| - 1;
      Round(After(rounds[..n], clock[..n]), rounds[n], clock[n])
  }

  /** Services whose last two probes both failed, in rounds that both hosted
      them. */
  ghost function FailedTwice(rounds: seq<map<string, bool>>): set<string>
  {
    if |rounds| < 2 then {}
    else
      var a, b := rounds[|rounds|-2], rounds[|rounds|-1];
      set s | s in b && s in a && !b[s] && !a[s]
  }

  lemma {:induction false} LastProbe(rounds: seq<map<string, bool>>, clock: seq<nat>)
    requires |clock| == |rounds| > 0
    ensures var f := After(rounds, clock).failures;
      f.Keys == rounds[|rounds|-1].Keys && forall s :: s in f ==> (f[s] >= 1 <==> !rounds[|rounds|-1][s])
  {
  }

  /** After every round the report names exactly the hosted services whose last
      two probes failed. */
  lemma {:induction false} ReportIsExact(rounds: seq<map<string, bool>>, clock: seq<nat>)
    requires |clock| == |rounds|
    ensures Bad(After(rounds, clock).failures) == FailedTwice(rounds)
    ensures After(rounds, clock).report.unhealthy == FailedTwice(rounds)
    ensures After(rounds, clock).first <==> rounds == []
  {
    if rounds != [] {
      var n := |rounds| - 1;
      ReportIsExact(rounds[..n], clock[..n]);
      var c := After(rounds[..n], clock[..n]);
      if n > 0 {
        LastProbe(rounds[..n], clock[..n]);
      }
      assert Bad(Counts(c.failures, rounds[n])) == FailedTwice(rounds);
    }
  }

  /** A report is published after the first round and when the set changes, and
      then with a strictly higher version; otherwise it is left alone. */
  lemma {:induction false} PublishedExactlyWhen(rounds: seq<map<string, bool>>, clock: seq<nat>)
    requires |clock| == |rounds| > 0
    ensures var n := |rounds| - 1;
      var before, after := After(rounds[..n], clock[..n]).report, After(rounds, clock).report;
      if n == 0 || FailedTwice(rounds) != FailedTwice(rounds[..n])
      then
        && after.version > before.version && after.version >= clock[n] && after.unhealthy == FailedTwice(rounds)
        && (after.version == clock[n] || after.version == before.version + 1)
      else after == before
  {
    var n := |rounds| - 1;
    ReportIsExact(rounds, clock);
    ReportIsExact(rounds[..n], clock[..n]);
  }

  // The tracker, updated in place

  datatype Probe = Probe(service: string, ok: bool)

  ghost predicate Once(ps: seq<Probe>)
  {
    forall i, j :: 0 <= i < j < |ps| ==> ps[i].service != ps[j].service
  }

  function Results(ps: seq<Probe>): map<string, bool>
  {
    if ps == [] then map[] else Results(ps[..|ps|-1])[ps[|ps|-1].service := ps[|ps|-1].ok]
  }

  lemma {:induction false} ResultsAt(ps: seq<Probe>, s: string)
    requires Once(ps)
    ensures s in Results(ps) <==> exists i :: 0 <= i < |ps| && ps[i].service == s
    ensures forall i :: 0 <= i < |ps| && ps[i].service == s ==> Results(ps)[s] == ps[i].ok
  {
    if ps != [] {
      ResultsAt(ps[..|ps|-1], s);
    }
  }

  class HealthTracker {
    var failures: map<string, nat>
    var first: bool
    var report: Health

    ghost function Value(): Checker
      reads this
    {
      Checker(failures, first, report)
    }

    constructor ()
      ensures Value() == NEW
    {
      failures, first, report := map[], true, UNSET;
    }

    /** Count one probe result; true if it moved the service into or out of the
        unhealthy set. */
    method Record(service: string, ok: bool) returns (flipped: bool)
      modifies this`failures
      ensures failures == old(failures)[service := if ok then 0 else Get(old(failures), service, 0) + 1]
      ensures flipped <==> (service in Bad(failures)) != (service in Bad(old(failures)))
    {
      var count := Get(failures, service, 0);
      var was := count >= UNHEALTHY_AFTER;
      count := if ok then 0 else count + 1;
      failures := failures[service := count];
      flipped := was != (count >= UNHEALTHY_AFTER);
    }

    /** Forget services no longer hosted; true if that changed the report. */
    method Retain(hosted: set<string>) returns (changed: bool)
      modifies this`failures
      ensures failures == map s | s in old(failures) && s in hosted :: old(failures)[s]
      ensures changed <==> Bad(failures) != Bad(old(failures))
    {
      var before := Bad(failures);
      failures := map s | s in failures && s in hosted :: failures[s];
      changed := before != Bad(failures);
    }

    /** Record the probes as they complete; true if any service flipped. */
    method RecordAll(probes: seq<Probe>) returns (flips: bool)
      requires Once(probes)
      modifies this`failures
      ensures failures == Partial(old(failures), probes)
      ensures flips <==> exists i :: 0 <= i < |probes| && Flips(old(failures), probes[i])
    {
      flips := false;
      for k := 0 to |probes|
        invariant failures == Partial(old(failures), probes[..k])
        invariant flips <==> exists i :: 0 <= i < k && Flips(old(failures), probes[i])
      {
        assert probes[..k+1][..k] == probes[..k];
        PartialAt(old(failures), probes, k);
        var flipped := Record(probes[k].service, probes[k].ok);
        flips := flips || flipped;
      }
      assert probes[..|probes|] == probes;
    }

    /** One round: `probes` are the results of all hosted services in the order
        they completed. True if a new report was stored. */
    method RunRound(probes: seq<Probe>, now: nat) returns (publish: bool)
      requires Once(probes)
      modifies this
      ensures Value() == Round(old(Value()), Results(probes), now)
      ensures publish <==> report != old(report)
    {
      hide Bad, Partial, Results, Counts, Flips;
      var hosted := set p | p in probes :: p.service;
      HostedAreProbed(probes, hosted);
      var dropped := Retain(hosted);
      ghost var f1 := failures;
      publish := dropped || first;
      first := false;
      var flips := RecordAll(probes);
      publish := publish || flips;
      RoundCounts(old(failures), f1, probes);
      FlipsMeanChange(old(failures), f1, probes, dropped);
      if publish {
        report := Health(NextVersion(report.version, now), Bad(failures));
      }
    }
  }

  /** Counts after the probes `ps` were recorded on top of `f`. */
  ghost function Partial(f: map<string, nat>, ps: seq<Probe>): map<string, nat>
  {
    if ps == [] then f
    else
      var p := ps[|ps|-1];
      var rest := Partial(f, ps[..|ps|-1]);
      rest[p.service := if p.ok then 0 else Get(rest, p.service, 0) + 1]
  }

  ghost predicate Flips(f: map<string, nat>, p: Probe)
  {
    var count := Get(f, p.service, 0);
    (count >= UNHEALTHY_AFTER) != (!p.ok && count + 1 >= UNHEALTHY_AFTER)
  }

  lemma {:induction false} HostedAreProbed(ps: seq<Probe>, hosted: set<string>)
    requires Once(ps) && hosted == set p | p in ps :: p.service
    ensures forall s :: s in hosted <==> s in Results(ps)
  {
    forall s
      ensures s in hosted <==> s in Results(ps)
    {
      ResultsAt(ps, s);
      if i :| 0 <= i < |ps| && ps[i].service == s {
        assert ps[i] in ps;
      }
    }
  }

  lemma {:induction false} PartialOf(f: map<string, nat>, ps: seq<Probe>, s: string)
    requires Once(ps)
    ensures (forall i :: 0 <= i < |ps| ==> ps[i].service != s) ==>
      (s in Partial(f, ps) <==> s in f) && Get(Partial(f, ps), s, 0) == Get(f, s, 0)
    ensures forall i :: 0 <= i < |ps| && ps[i].service == s ==>
      s in Partial(f, ps) && Partial(f, ps)[s] == if ps[i].ok then 0 else Get(f, s, 0) + 1
  {
    if ps != [] {
      PartialOf(f, ps[..|ps|-1], s);
    }
  }

  lemma {:induction false} PartialAt(f: map<string, nat>, ps: seq<Probe>, k: nat)
    requires Once(ps) && k < |ps|
    ensures Get(Partial(f, ps[..k]), ps[k].service, 0) == Get(f, ps[k].service, 0)
  {
    PartialOf(f, ps[..k], ps[k].service);
  }

  lemma {:induction false} RoundCounts(f0: map<string, nat>, f1: map<string, nat>, ps: seq<Probe>)
    requires Once(ps) && f1 == map s | s in f0 && s in Results(ps) :: f0[s]
    ensures Partial(f1, ps) == Counts(f0, Results(ps))
  {
    var a, b := Partial(f1, ps), Counts(f0, Results(ps));
    forall s
      ensures s in a <==> s in b
      ensures s in a && s in b ==> a[s] == b[s]
    {
      ResultsAt(ps, s);
      PartialOf(f1, ps, s);
    }
  }

  /** Something flipped or an unhealthy service was dropped exactly when the
      unhealthy set changed over the round. */
  lemma {:induction false} FlipsMeanChange(f0: map<string, nat>, f1: map<string, nat>, ps: seq<Probe>, dropped: bool)
    requires Once(ps) && f1 == map s | s in f0 && s in Results(ps) :: f0[s]
    requires dropped <==> Bad(f1) != Bad(f0)
    ensures (dropped || exists i :: 0 <= i < |ps| && Flips(f1, ps[i])) <==> Bad(Partial(f1, ps)) != Bad(f0)
  {
    var f2 := Partial(f1, ps);
    if dropped {
      var s :| s in Bad(f0) && s !in Bad(f1);
      ResultsAt(ps, s);
      PartialOf(f1, ps, s);
      assert s !in f2;
    }
    if i :| 0 <= i < |ps| && Flips(f1, ps[i]) {
      PartialOf(f1, ps, ps[i].service);
      ResultsAt(ps, ps[i].service);
      assert (ps[i].service in Bad(f2)) != (ps[i].service in Bad(f1));
      assert (ps[i].service in Bad(f1)) == (ps[i].service in Bad(f0));
    }
    if !dropped && !exists i :: 0 <= i < |ps| && Flips(f1, ps[i]) {
      forall s
        ensures s in Bad(f2) <==> s in Bad(f1)
      {
        PartialOf(f1, ps, s);
        if i :| 0 <= i < |ps| && ps[i].service == s {
          assert !Flips(f1, ps[i]);
        }
      }
      assert Bad(f2) == Bad(f0);
    }
  }
}
