/** Passive outlier ejection of one node: three counted failures eject it, for
    a time that doubles from 10 s up to a cap of 120 s until a success. */
module Ejection {
  import opened Common

  /** A point in time, in nanoseconds. */
  type Instant = nat

  const SECOND: nat := 1_000_000_000
  const EJECT_AFTER_FAILURES: nat := 3
  const BASE_EJECTION: nat := 10 * SECOND
  const MAX_EJECTION: nat := 120 * SECOND

  datatype Outlier = Outlier(failures: nat, ejections: nat, until: Option<Instant>)
  {
    predicate IsEjected(now: Instant)
    {
      until.Some? && now < until.value
    }
  }

  const CLEAN: Outlier := Outlier(0, 0, None)

  function Pow2(n: nat): nat
  {
    if n == 0 then 1 else 2 * Pow2(n - 1)
  }

  /** Length of the `n`-th ejection (from 1) since the last success. */
  function Backoff(n: nat): nat
    requires n >= 1
  {
    Min(BASE_EJECTION * Pow2(Min(n - 1, 16)), MAX_EJECTION)
  }

  /** The node's next state, and the ejection this failure caused, if any. */
  function Fail(o: Outlier, now: Instant): (Outlier, Option<nat>)
  {
    if o.IsEjected(now) then (o, None)
    else if o.failures + 1 < EJECT_AFTER_FAILURES then
      (o.(failures := o.failures + 1), None)
    else
      var n := o.ejections + 1;
      (Outlier(0, n, Some(now + Backoff(n))), Some(Backoff(n)))
  }

  // Histories of failures since the last success

  /** The node's state after failures at `ts`. */
  function After(ts: seq<Instant>): Outlier
  {
    if ts == [] then CLEAN else Fail(After(ts[..|ts|-1]), ts[|ts|-1]).0
  }

  datatype Window = Window(start: Instant, end: Instant)

  /** The ejections reported while failing at `ts`, oldest first. */
  function Windows(ts: seq<Instant>): seq<Window>
  {
    if ts == [] then []
    else
      var rest, now := ts[..|ts|-1], ts[|ts|-1];
      match Fail(After(rest), now).1
      case None => Windows(rest)
      case Some(d) => Windows(rest) + [Window(now, now + d)]
  }

  ghost predicate NonDecreasing(ts: seq<Instant>)
  {
    forall i, j :: 0 <= i < j < |ts| ==> ts[i] <= ts[j]
  }

  /** Whether `now` lies inside one of the windows. */
  ghost predicate Inside(ws: seq<Window>, now: Instant)
  {
    exists i :: 0 <= i < |ws| && ws[i].start <= now < ws[i].end
  }

  /** Failures that happened outside every ejection reported before them. */
  ghost function Counted(ts: seq<Instant>): nat
  {
    if ts == [] then 0
    else
      var rest, now := ts[..|ts|-1], ts[|ts|-1];
      Counted(rest) + (if Inside(Windows(rest), now) then 0 else 1)
  }

  /** The promised sequence of ejection lengths. */
  function PromisedLength(i: nat): nat
  {
    if i == 0 then 10 * SECOND
    else if i == 1 then 20 * SECOND
    else if i == 2 then 40 * SECOND
    else if i == 3 then 80 * SECOND
    else 120 * SECOND
  }

  lemma {:induction false} Pow2Grows(n: nat)
    requires n >= 4
    ensures Pow2(n) >= 16
  {
    if n > 4 {
      Pow2Grows(n - 1);
    } else {
      assert Pow2(4) == 2 * Pow2(3) == 4 * Pow2(2) == 8 * Pow2(1);
    }
  }

  lemma {:induction false} BackoffAsPromised(i: nat)
    ensures Backoff(i + 1) == PromisedLength(i)
  {
    if i >= 4 {
      Pow2Grows(Min(i, 16));
    } else {
      assert Pow2(0) == 1 && Pow2(1) == 2 && Pow2(2) == 4 && Pow2(3) == 2 * Pow2(2);
    }
  }

  /** Ejections have the promised lengths... */
  ghost predicate Lengths(ws: seq<Window>)
  {
    forall i :: 0 <= i < |ws| ==> ws[i].end == ws[i].start + PromisedLength(i)
  }

  /** ... and each starts after the previous one has ended. */
  ghost predicate Disjoint(ws: seq<Window>)
  {
    forall i, j :: 0 <= i < j < |ws| ==> ws[i].end <= ws[j].start
  }

  ghost predicate StartedBy(ws: seq<Window>, now: Instant)
  {
    forall i :: 0 <= i < |ws| ==> ws[i].start <= now
  }

  /** The stored state is a summary of the reported ejections. */
  ghost predicate Summary(o: Outlier, ws: seq<Window>, counted: nat)
  {
    && o.ejections == |ws|
    && o.until == (if ws == [] then None else Some(ws[|ws|-1].end))
    && o.failures < 3
    && counted == 3 * |ws| + o.failures
  }

  /** The state's verdict is exactly membership in a reported window. */
  lemma {:induction false} EjectedIsInside(o: Outlier, ws: seq<Window>, counted: nat, now: Instant)
    requires Disjoint(ws) && Lengths(ws) && Summary(o, ws, counted) && StartedBy(ws, now)
    ensures o.IsEjected(now) <==> Inside(ws, now)
  {
    if ws != [] {
      var n := |ws| - 1;
      assert forall i :: 0 <= i < n ==> ws[i].end <= ws[n].start;
      assert ws[n].start <= now < ws[n].end ==> Inside(ws, now);
    }
  }

  lemma {:induction false} AppendWindow(ws: seq<Window>, now: Instant, d: nat)
    requires Disjoint(ws) && Lengths(ws) && d == PromisedLength(|ws|)
    requires ws == [] || ws[|ws|-1].end <= now
    ensures Disjoint(ws + [Window(now, now + d)]) && Lengths(ws + [Window(now, now + d)])
  {
    var n := |ws|;
    forall i | 0 <= i < n
      ensures ws[i].end <= now
    {
      assert i < n - 1 ==> ws[i].end <= ws[n-1].start <= ws[n-1].end;
    }
  }

  function Report(ws: seq<Window>, now: Instant, d: Option<nat>): seq<Window>
  {
    if d.None? then ws else ws + [Window(now, now + d.value)]
  }

  lemma {:induction false} HistoryStep(o: Outlier, ws: seq<Window>, counted: nat, now: Instant)
    requires Lengths(ws) && Disjoint(ws) && Summary(o, ws, counted) && StartedBy(ws, now)
    ensures var (o', d) := Fail(o, now);
            var ws' := Report(ws, now, d);
            && Lengths(ws') && Disjoint(ws') && StartedBy(ws', now)
            && Summary(o', ws', counted + if Inside(ws, now) then 0 else 1)
  {
    EjectedIsInside(o, ws, counted, now);
    if Fail(o, now).1.Some? {
      BackoffAsPromised(|ws|);
      AppendWindow(ws, now, PromisedLength(|ws|));
    }
  }

  /** Ejection history: for non-decreasing times and no success in between,
      ejections last 10, 20, 40, 80, 120, 120, ... seconds, never overlap, and
      every third failure outside them starts the next one. */
  lemma {:induction false} History(ts: seq<Instant>)
    requires NonDecreasing(ts)
    ensures Lengths(Windows(ts)) && Disjoint(Windows(ts))
    ensures Summary(After(ts), Windows(ts), Counted(ts))
    ensures if ts == [] then Windows(ts) == [] else StartedBy(Windows(ts), ts[|ts|-1])
  {
    hide Fail, Lengths, Disjoint, Inside;
    if ts != [] {
      var rest, now := ts[..|ts|-1], ts[|ts|-1];
      History(rest);
      assert StartedBy(Windows(rest), now);
      HistoryStep(After(rest), Windows(rest), Counted(rest), now);
      assert Windows(ts) == Report(Windows(rest), now, Fail(After(rest), now).1);
    } else {
      EmptyHistory();
    }
  }

  lemma {:induction false} EmptyHistory()
    ensures Lengths([]) && Disjoint([])
  {
  }

  lemma {:induction false} CountedStep(ts: seq<Instant>, k: nat)
    requires k < |ts|
    ensures Counted(ts[..k+1]) == Counted(ts[..k]) + (if Inside(Windows(ts[..k]), ts[k]) then 0 else 1)
  {
    assert ts[..k+1][..k] == ts[..k];
  }

  lemma {:induction false} EjectsOnThird(o: Outlier, ws: seq<Window>, counted: nat, now: Instant)
    requires Lengths(ws) && Disjoint(ws) && Summary(o, ws, counted) && StartedBy(ws, now)
    ensures Fail(o, now).1.Some? <==>
            !Inside(ws, now) && (counted + 1) % 3 == 0
  {
    EjectedIsInside(o, ws, counted, now);
    hide Lengths, Disjoint, Inside, Backoff;
    assert counted + 1 == 3 * |ws| + (o.failures + 1);
  }

  /** The failure at position `k` ejects the node exactly when it falls
      outside every earlier ejection and is the third such failure since. */
  lemma {:induction false} EjectsExactlyWhen(ts: seq<Instant>, k: nat)
    requires NonDecreasing(ts) && k < |ts|
    ensures Fail(After(ts[..k]), ts[k]).1.Some? <==>
            !Inside(Windows(ts[..k]), ts[k]) && Counted(ts[..k+1]) % 3 == 0
  {
    hide After, Windows, Counted, Fail, Lengths, Disjoint, Inside;
    var rest := ts[..k];
    History(rest);
    CountedStep(ts, k);
    assert StartedBy(Windows(rest), ts[k]);
    EjectsOnThird(After(rest), Windows(rest), Counted(rest), ts[k]);
  }

  /** While a node is ejected nothing that fails can move the end of the
      ejection. */
  lemma {:induction false} NeverExtended(ts: seq<Instant>, now: Instant)
    requires NonDecreasing(ts + [now]) && Inside(Windows(ts), now)
    ensures After(ts + [now]) == After(ts) && Windows(ts + [now]) == Windows(ts)
  {
    var all := ts + [now];
    assert all[..|ts|] == ts;
    assert forall i, j :: 0 <= i < j < |ts| ==> all[i] <= all[j];
    assert forall k :: 0 <= k < |ts| ==> ts[k] == all[k] <= all[|ts|];
    History(ts);
    EjectedIsInside(After(ts), Windows(ts), Counted(ts), now);
  }
}
