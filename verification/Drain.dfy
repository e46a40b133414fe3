/** Graceful drain: an atomic counter of work in progress, guards that lower it
    when dropped, and waiters that sleep until it reaches zero. Each atomic
    operation is one step, so a run is any interleaving of any number of guards
    and waiters. */
module Drain {

  type GuardId = nat
  type WaiterId = nat

  /** Where a waiter stands in its loop. `notified` is the flag of its entry in
      the notifier's list. `Checked` occurs only in the variant that checks the
      count before it registers. */
  datatype Phase =
    | Start
    | Checked
    | Registered(notified: bool)
    | Blocked(notified: bool)
    | Done(zero: bool)

  /** `owing` holds the dropped guards that took the count to zero and have yet
      to notify. */
  datatype State = State(count: int, guards: set<GuardId>, owing: set<GuardId>, waiters: map<WaiterId, Phase>)

  datatype Step =
    | Track(g: GuardId)
    | Decrement(g: GuardId)
    | Notify(g: GuardId)
    | Register(w: WaiterId)
    | Check(w: WaiterId)
    | Wake(w: WaiterId)
    | Expire(w: WaiterId)

  /** The two orders of a waiter's loop; the program uses the first. */
  datatype Order = RegisterThenCheck | CheckThenRegister

  predicate OwnStep(e: Step, w: WaiterId)
  {
    (e.Register? || e.Check? || e.Wake? || e.Expire?) && e.w == w
  }

  predicate Ready(o: Order, p: Phase, e: Step)
  {
    match e
    case Register(_) => if o.RegisterThenCheck? then p.Start? else p.Checked?
    case Check(_) => if o.RegisterThenCheck? then p.Registered? else p.Start?
    case Wake(_) => p == Blocked(true)
    case Expire(_) => p.Blocked?
    case _ => false
  }

  predicate Enabled(o: Order, s: State, e: Step)
  {
    match e
    case Track(g) => g !in s.guards && g !in s.owing
    case Decrement(g) => g in s.guards
    case Notify(g) => g in s.owing
    case _ => e.w in s.waiters && Ready(o, s.waiters[e.w], e)
  }

  /** `notify_waiters` flags exactly the entries that exist at that moment. */
  function Flagged(p: Phase): Phase
  {
    match p
    case Registered(_) => Registered(true)
    case Blocked(_) => Blocked(true)
    case _ => p
  }

  function Moved(o: Order, p: Phase, e: Step, count: int): Phase
    requires Ready(o, p, e)
  {
    match e
    case Register(_) => if o.RegisterThenCheck? then Registered(false) else Blocked(false)
    case Check(_) =>
      if count == 0 then Done(true)
      else if o.RegisterThenCheck? then Blocked(p.notified)
      else Checked
    case Wake(_) => Start
    case Expire(_) => Done(false)
  }

  function Next(o: Order, s: State, e: Step): State
    requires Enabled(o, s, e)
  {
    match e
    case Track(g) => s.(count := s.count + 1, guards := s.guards + {g})
    case Decrement(g) =>
      s.(count := s.count - 1, guards := s.guards - {g}, owing := if s.count == 1 then s.owing + {g} else s.owing)
    case Notify(g) =>
      s.(owing := s.owing - {g}, waiters := map w | w in s.waiters :: Flagged(s.waiters[w]))
    case _ => s.(waiters := s.waiters[e.w := Moved(o, s.waiters[e.w], e, s.count)])
  }

  ghost predicate Init(s: State)
  {
    s.count == 0 && s.guards == {} && s.owing == {} && forall w :: w in s.waiters ==> s.waiters[w].Start?
  }

  ghost predicate IsRun(o: Order, ss: seq<State>, es: seq<Step>)
  {
    && |ss| == |es| + 1
    && Init(ss[0])
    && forall i :: 0 <= i < |es| ==> Enabled(o, ss[i], es[i]) && ss[i+1] == Next(o, ss[i], es[i])
  }

  /** Nobody sleeps without a wake-up to come. */
  ghost predicate NobodyForgotten(s: State)
  {
    forall w :: w in s.waiters && s.waiters[w] == Blocked(false) ==> s.count > 0 || s.owing != {}
  }

  ghost predicate Inv(s: State)
  {
    s.count == |s.guards| && NobodyForgotten(s)
  }

  lemma {:induction false} StepKeeps(s: State, e: Step)
    requires Inv(s) && Enabled(RegisterThenCheck, s, e)
    ensures Inv(Next(RegisterThenCheck, s, e))
  {
    var s' := Next(RegisterThenCheck, s, e);
    if e.Decrement? && s.count == 1 {
      assert e.g in s'.owing;
    }
    forall w | w in s'.waiters && s'.waiters[w] == Blocked(false)
      ensures s'.count > 0 || s'.owing != {}
    {
      if s.waiters[w] == Blocked(false) && e.Decrement? {
        assert e.g in s.guards;
      }
    }
  }

  /** In every interleaving the counter is the number of live guards, so its
      decrement never wraps, and a waiter that is registered and still blocked
      means the count is positive or a drop that reached zero has yet to
      notify: no wake-up is lost. */
  lemma {:induction false} NoLostWakeup(ss: seq<State>, es: seq<Step>, i: nat)
    requires IsRun(RegisterThenCheck, ss, es) && i < |ss|
    ensures ss[i].count == |ss[i].guards|
    ensures NobodyForgotten(ss[i])
  {
    hide Next, Enabled, NobodyForgotten;
    if i == 0 {
      NobodyAsleepAtFirst(ss[0]);
    } else {
      NoLostWakeup(ss, es, i - 1);
      assert ss[i-1+1] == Next(RegisterThenCheck, ss[i-1], es[i-1]);
      StepKeeps(ss[i-1], es[i-1]);
    }
  }

  lemma {:induction false} NobodyAsleepAtFirst(s: State)
    requires Init(s)
    ensures NobodyForgotten(s)
  {
  }

  /** A waiter that returned true looked at the counter when it was zero, with
      no guard alive. */
  lemma {:induction false} TrueMeansZero(ss: seq<State>, es: seq<Step>, i: nat, w: WaiterId) returns (j: nat)
    requires IsRun(RegisterThenCheck, ss, es) && i < |ss|
    requires w in ss[i].waiters && ss[i].waiters[w] == Done(true)
    ensures j < i && es[j] == Check(w) && ss[j].count == 0 && ss[j].guards == {}
  {
    assert Enabled(RegisterThenCheck, ss[i-1], es[i-1]) && ss[i-1+1] == Next(RegisterThenCheck, ss[i-1], es[i-1]);
    if ss[i-1].waiters[w] == Done(true) {
      j := TrueMeansZero(ss, es, i - 1, w);
    } else {
      j := i - 1;
      NoLostWakeup(ss, es, j);
    }
  }

  /** Own steps a waiter still needs once all work is done. */
  function Rank(p: Phase): nat
  {
    match p
    case Done(_) => 0
    case Registered(_) => 1
    case Start => 2
    case Blocked(_) => 3
    case Checked => 0
  }

  /** Nothing in flight and every due notification delivered. */
  ghost predicate Drained(s: State)
  {
    s.count == 0 && s.owing == {}
  }

  function OwnSteps(es: seq<Step>, w: WaiterId): nat
  {
    if es == [] then 0 else OwnSteps(es[..|es|-1], w) + (if OwnStep(es[|es|-1], w) then 1 else 0)
  }

  ghost predicate Undisturbed(es: seq<Step>, w: WaiterId)
  {
    forall e :: e in es ==> !e.Track? && e != Expire(w)
  }

  lemma {:induction false} DrainedStep(s: State, e: Step, w: WaiterId)
    requires Inv(s) && Drained(s) && w in s.waiters && !s.waiters[w].Checked? && s.waiters[w] != Done(false)
    requires Enabled(RegisterThenCheck, s, e) && !e.Track? && e != Expire(w)
    ensures var s' := Next(RegisterThenCheck, s, e);
      && Drained(s') && w in s'.waiters && !s'.waiters[w].Checked? && s'.waiters[w] != Done(false)
      && Rank(s'.waiters[w]) + (if OwnStep(e, w) then 1 else 0) == Rank(s.waiters[w])
  {
  }

  /** A drain that has happened is noticed: from a drained state on, with no new
      work and no timeout of `w`, every own step of `w` brings it one closer to
      returning true, whatever else runs in between, and at most three are
      needed. */
  lemma {:induction false} DrainIsNoticed(ss: seq<State>, es: seq<Step>, i: nat, j: nat, w: WaiterId)
    requires IsRun(RegisterThenCheck, ss, es) && i <= j < |ss|
    requires Drained(ss[i]) && w in ss[i].waiters && ss[i].waiters[w] != Done(false)
    requires Undisturbed(es[i..j], w)
    ensures Drained(ss[j]) && w in ss[j].waiters && ss[j].waiters[w] != Done(false)
    ensures OwnSteps(es[i..j], w) + Rank(ss[j].waiters[w]) == Rank(ss[i].waiters[w]) <= 3
    ensures Rank(ss[j].waiters[w]) == 0 <==> ss[j].waiters[w] == Done(true)
    decreases j
  {
    hide Next, Enabled, NobodyForgotten;
    NeverChecked(ss, es, i, w);
    if i < j {
      assert es[i..j] == es[i..j-1] + [es[j-1]];
      assert es[j-1] in es[i..j];
      DrainIsNoticed(ss, es, i, j - 1, w);
      NoLostWakeup(ss, es, j - 1);
      NeverChecked(ss, es, j - 1, w);
      assert ss[j-1+1] == Next(RegisterThenCheck, ss[j-1], es[j-1]);
      DrainedStep(ss[j-1], es[j-1], w);
    }
    NeverChecked(ss, es, j, w);
  }

  lemma {:induction false} NeverChecked(ss: seq<State>, es: seq<Step>, i: nat, w: WaiterId)
    requires IsRun(RegisterThenCheck, ss, es) && i < |ss| && w in ss[i].waiters
    ensures !ss[i].waiters[w].Checked?
  {
    if i > 0 {
      assert Enabled(RegisterThenCheck, ss[i-1], es[i-1]) && ss[i-1+1] == Next(RegisterThenCheck, ss[i-1], es[i-1]);
      NeverChecked(ss, es, i - 1, w);
    }
  }

  /** And such a step is always on offer: in a drained state no waiter is stuck. */
  lemma {:induction false} NobodyStuck(ss: seq<State>, es: seq<Step>, i: nat, w: WaiterId) returns (e: Step)
    requires IsRun(RegisterThenCheck, ss, es) && i < |ss| && Drained(ss[i])
    requires w in ss[i].waiters && !ss[i].waiters[w].Done?
    ensures OwnStep(e, w) && e != Expire(w) && Enabled(RegisterThenCheck, ss[i], e)
  {
    NoLostWakeup(ss, es, i);
    NeverChecked(ss, es, i, w);
    match ss[i].waiters[w] {
      case Start => e := Register(w);
      case Registered(_) => e := Check(w);
      case Blocked(_) => e := Wake(w);
    }
  }

  /** The order matters: a loop that checks before it registers can miss the
      drop in between and then only the timeout frees it. */
  lemma {:induction false} CheckFirstLosesWakeup() returns (ss: seq<State>, es: seq<Step>)
    ensures IsRun(CheckThenRegister, ss, es)
    ensures Drained(ss[|ss|-1]) && ss[|ss|-1].waiters == map[0 := Blocked(false)]
    ensures forall e :: OwnStep(e, 0) && Enabled(CheckThenRegister, ss[|ss|-1], e) ==> e == Expire(0)
  {
    es := [Track(0), Check(0), Decrement(0), Notify(0), Register(0)];
    var o := CheckThenRegister;
    var s0 := State(0, {}, {}, map[0 := Start]);
    var s1 := Next(o, s0, es[0]);
    var s2 := Next(o, s1, es[1]);
    var s3 := Next(o, s2, es[2]);
    var s4 := Next(o, s3, es[3]);
    var s5 := Next(o, s4, es[4]);
    ss := [s0, s1, s2, s3, s4, s5];
    assert s5.waiters == map[0 := Blocked(false)];
  }
}
