/** Smooth weighted round-robin over a fixed list of weights, in its simplest
    form: a vector of running weights. Every entry gains its weight, the first
    largest entry is picked and pays back the total. The balancer's map-based
    picks are proved to follow this vector (module BalancerRuns). */
module RoundRobin {

  type Weights = w: seq<nat> | |w| > 0 && forall i :: 0 <= i < |w| ==> w[i] >= 1
    witness [1]

  function Sum(v: seq<int>): int
  {
    if v == [] then 0 else Sum(v[..|v|-1]) + v[|v|-1]
  }

  function Total(w: Weights): (t: int)
    ensures t >= 1
  {
    SumPositive(w, |w|);
    assert w[..|w|] == w;
    Sum(w)
  }

  lemma {:induction false} SumPositive(w: Weights, n: nat)
    requires n <= |w|
    ensures Sum(w[..n]) >= n
  {
    if n > 0 {
      SumPositive(w, n - 1);
      assert w[..n][..n-1] == w[..n-1];
    }
  }

  function Gained(v: seq<int>, w: Weights): (g: seq<int>)
    requires |v| == |w|
    ensures |g| == |w|
  {
    seq(|w|, i requires 0 <= i < |w| => v[i] + w[i])
  }

  /** Index of the first largest entry. */
  function ArgMax(v: seq<int>): (j: nat)
    requires |v| > 0
    ensures j < |v|
    ensures forall i :: 0 <= i < |v| ==> v[i] <= v[j]
    ensures forall i :: 0 <= i < j ==> v[i] < v[j]
  {
    if |v| == 1 then 0
    else
      var k := ArgMax(v[..|v|-1]);
      if v[|v|-1] > v[k] then |v|-1 else k
  }

  function Choice(v: seq<int>, w: Weights): (j: nat)
    requires |v| == |w|
    ensures j < |w|
  {
    ArgMax(Gained(v, w))
  }

  function Spin(v: seq<int>, w: Weights): (v': seq<int>)
    requires |v| == |w|
    ensures |v'| == |w|
  {
    var g := Gained(v, w);
    var j := Choice(v, w);
    g[j := g[j] - Total(w)]
  }

  /** Running weights after `n` picks from a fresh start. */
  function Running(w: Weights, n: nat): (v: seq<int>)
    ensures |v| == |w|
  {
    if n == 0 then seq(|w|, i => 0) else Spin(Running(w, n - 1), w)
  }

  /** The entry taken by pick number `n` (counting from 0). */
  function PickAt(w: Weights, n: nat): (j: nat)
    ensures j < |w|
  {
    Choice(Running(w, n), w)
  }

  /** How often entry `i` is taken by picks `a..b`. */
  function Taken(w: Weights, i: nat, a: nat, b: nat): nat
    requires a <= b
    decreases b
  {
    if a == b then 0
    else Taken(w, i, a, b - 1) + (if PickAt(w, b - 1) == i then 1 else 0)
  }

  // Sums

  lemma {:induction false} SumUpdate(v: seq<int>, j: nat, x: int)
    requires j < |v|
    ensures Sum(v[j := x]) == Sum(v) - v[j] + x
  {
    var n := |v| - 1;
    if j == n {
      assert v[j := x][..n] == v[..n];
    } else {
      assert v[j := x][..n] == v[..n][j := x];
      SumUpdate(v[..n], j, x);
    }
  }

  lemma {:induction false} SumAdd(u: seq<int>, v: seq<int>, s: seq<int>)
    requires |u| == |v| == |s|
    requires forall i :: 0 <= i < |u| ==> s[i] == u[i] + v[i]
    ensures Sum(s) == Sum(u) + Sum(v)
  {
    if u != [] {
      var n := |u| - 1;
      SumAdd(u[..n], v[..n], s[..n]);
    }
  }

  lemma {:induction false} SumOfZeros(n: nat)
    ensures Sum(seq(n, i => 0)) == 0
  {
    if n > 0 {
      assert seq(n, i => 0)[..n-1] == seq(n - 1, i => 0);
      SumOfZeros(n - 1);
    }
  }

  lemma {:induction false} SumNotPositive(v: seq<int>)
    requires forall i :: 0 <= i < |v| ==> v[i] <= 0
    ensures Sum(v) <= 0
  {
    if v != [] {
      SumNotPositive(v[..|v|-1]);
    }
  }

  /** Non-negative entries that sum to zero are all zero. */
  lemma {:induction false} ZeroSumOfNonNegatives(v: seq<int>)
    requires forall i :: 0 <= i < |v| ==> v[i] >= 0
    ensures Sum(v) >= 0
    ensures Sum(v) == 0 ==> forall i :: 0 <= i < |v| ==> v[i] == 0
  {
    if v != [] {
      ZeroSumOfNonNegatives(v[..|v|-1]);
      assert forall i :: 0 <= i < |v| - 1 ==> v[..|v|-1][i] == v[i];
    }
  }

  // One pick

  lemma {:induction false} SpinAt(v: seq<int>, w: Weights, i: nat)
    requires |v| == |w| && i < |w|
    ensures Spin(v, w)[i] == v[i] + w[i] - (if i == Choice(v, w) then Total(w) else 0)
  {
  }

  /** The winner alone pays, after everybody gained. */
  lemma {:induction false} SpinPays(v: seq<int>, w: Weights)
    requires |v| == |w|
    ensures var g, j := Gained(v, w), Choice(v, w);
      j < |g| && Spin(v, w) == g[j := g[j] - Total(w)]
  {
    hide Total, ArgMax;
  }

  /** The winner has a positive running weight: they sum to the total. */
  lemma {:induction false} WinnerIsPositive(v: seq<int>, w: Weights)
    requires |v| == |w| && Sum(v) == 0
    ensures Sum(Gained(v, w)) == Total(w)
    ensures Gained(v, w)[Choice(v, w)] > 0
  {
    var g := Gained(v, w);
    SumAdd(v, w, g);
    if g[Choice(v, w)] <= 0 {
      SumNotPositive(g);
    }
  }

  /** A pick neither creates nor destroys running weight. */
  lemma {:induction false} SpinKeepsSum(v: seq<int>, w: Weights)
    requires |v| == |w| && Sum(v) == 0
    ensures Sum(Spin(v, w)) == 0
  {
    hide *;
    var g, j := Gained(v, w), Choice(v, w);
    SpinPays(v, w);
    WinnerIsPositive(v, w);
    SumUpdate(g, j, g[j] - Total(w));
  }

  /** Only the winner pays, and from a positive weight: nobody falls to minus
      the total. */
  lemma {:induction false} SpinKeepsFloor(v: seq<int>, w: Weights, i: nat)
    requires |v| == |w| && Sum(v) == 0 && i < |w|
    requires v[i] > -Total(w)
    ensures Spin(v, w)[i] > -Total(w)
  {
    WinnerIsPositive(v, w);
    SpinAt(v, w, i);
  }

  lemma {:induction false} RunningSum(w: Weights, n: nat)
    ensures Sum(Running(w, n)) == 0
  {
    if n == 0 {
      SumOfZeros(|w|);
    } else {
      RunningSum(w, n - 1);
      SpinKeepsSum(Running(w, n - 1), w);
    }
  }

  lemma {:induction false} RunningFloor(w: Weights, n: nat, i: nat)
    requires i < |w|
    ensures Running(w, n)[i] > -Total(w)
  {
    hide Spin;
    if n > 0 {
      RunningSum(w, n - 1);
      RunningFloor(w, n - 1, i);
      SpinKeepsFloor(Running(w, n - 1), w, i);
    }
  }

  lemma {:induction false} DriftStep(n: int, x: int, t: int, k: int)
    ensures n * x - t * k + x == (n + 1) * x - t * k
    ensures n * x - t * k + x - t == (n + 1) * x - t * (k + 1)
  {
  }

  /** The running weight is exactly the entry's unserved share. */
  lemma {:induction false} RunningIsDrift(w: Weights, n: nat, i: nat)
    requires i < |w|
    ensures Running(w, n)[i] == n * w[i] - Total(w) * Taken(w, i, 0, n)
  {
    hide Spin, Total;
    if n > 0 {
      RunningIsDrift(w, n - 1, i);
      SpinAt(Running(w, n - 1), w, i);
      DriftStep(n - 1, w[i], Total(w), Taken(w, i, 0, n - 1));
    }
  }

  /** Bounded drift: after any number of picks no entry is a full pick ahead
      of its share. */
  lemma {:induction false} BoundedDrift(w: Weights, n: nat, i: nat)
    requires i < |w|
    ensures Total(w) * Taken(w, i, 0, n) < n * w[i] + Total(w)
  {
    RunningIsDrift(w, n, i);
    RunningFloor(w, n, i);
  }

  // Whole cycles

  lemma {:induction false} ScaleUp(t: int, a: int, b: int)
    requires t >= 0 && a <= b
    ensures t * a <= t * b
  {
  }

  /** A multiple of `t` above `-t` is not negative. */
  lemma {:induction false} MultipleAboveMinusOne(t: int, x: int, k: int, v: int)
    requires t >= 1 && v == t * x - t * k && v > -t
    ensures k <= x && v >= 0
    ensures v == 0 ==> k == x
  {
    assert v == t * (x - k);
    if k > x {
      ScaleUp(t, x - k, -1);
    } else {
      ScaleUp(t, 0, x - k);
      if k < x {
        ScaleUp(t, 1, x - k);
      }
    }
  }

  lemma {:induction false} CycleEntry(w: Weights, i: nat)
    requires i < |w|
    ensures Running(w, Total(w))[i] >= 0
    ensures Running(w, Total(w))[i] == 0 ==> Taken(w, i, 0, Total(w)) == w[i]
  {
    var t := Total(w);
    RunningFloor(w, t, i);
    RunningIsDrift(w, t, i);
    MultipleAboveMinusOne(t, w[i], Taken(w, i, 0, t), Running(w, t)[i]);
  }

  /** After one full cycle every entry was taken exactly its weight and all
      running weights are back at zero. */
  lemma {:induction false} FullCycle(w: Weights)
    ensures Running(w, Total(w)) == Running(w, 0)
    ensures forall i :: 0 <= i < |w| ==> Taken(w, i, 0, Total(w)) == w[i]
  {
    var v := Running(w, Total(w));
    forall i | 0 <= i < |w|
      ensures v[i] >= 0 && (v[i] == 0 ==> Taken(w, i, 0, Total(w)) == w[i])
    {
      CycleEntry(w, i);
    }
    RunningSum(w, Total(w));
    ZeroSumOfNonNegatives(v);
  }

  /** The running weights have period `Total(w)`... */
  lemma {:induction false} Periodic(w: Weights, n: nat)
    ensures Running(w, n + Total(w)) == Running(w, n)
  {
    hide Spin, Total;
    if n == 0 {
      FullCycle(w);
    } else {
      Periodic(w, n - 1);
      assert n + Total(w) - 1 == n - 1 + Total(w);
    }
  }

  /** ... and so has the pick sequence. */
  lemma {:induction false} PicksPeriodic(w: Weights, n: nat)
    ensures PickAt(w, n + Total(w)) == PickAt(w, n)
  {
    Periodic(w, n);
  }

  /** Every whole number of cycles ends with all running weights at zero. */
  lemma {:induction false} CyclesEnd(w: Weights, m: nat)
    ensures m * Total(w) >= 0
    ensures Running(w, m * Total(w)) == Running(w, 0)
  {
    hide *;
    if m > 0 {
      CyclesEnd(w, m - 1);
      Periodic(w, (m - 1) * Total(w));
      assert m * Total(w) == (m - 1) * Total(w) + Total(w);
    } else {
      assert m * Total(w) == 0;
    }
  }

  lemma {:induction false} TakenSplits(w: Weights, i: nat, a: nat, b: nat)
    requires a <= b
    ensures Taken(w, i, 0, b) == Taken(w, i, 0, a) + Taken(w, i, a, b)
  {
    if a < b {
      TakenSplits(w, i, a, b - 1);
    }
  }

  /** Equal drift at both ends of a window of length `t` means the window
      holds exactly `x` picks. */
  lemma {:induction false} WindowShare(a: int, t: int, x: int, k: int, d: int)
    requires t >= 1
    requires a * x - t * k == (a + t) * x - t * (k + d)
    ensures d == x
  {
    assert t * x - t * d == 0;
    MultipleAboveMinusOne(t, x, d, 0);
  }

  /** Exact share: any `Total(w)` consecutive picks, starting anywhere, take
      every entry exactly its weight. */
  lemma {:induction false} ExactWindow(w: Weights, a: nat, i: nat)
    requires i < |w|
    ensures Taken(w, i, a, a + Total(w)) == w[i]
  {
    hide Running, Taken, Total;
    var t := Total(w);
    Periodic(w, a);
    RunningIsDrift(w, a, i);
    RunningIsDrift(w, a + t, i);
    TakenSplits(w, i, a, a + t);
    WindowShare(a, t, w[i], Taken(w, i, 0, a), Taken(w, i, a, a + t));
  }

  lemma {:induction false} TakenMeansPicked(w: Weights, i: nat, a: nat, b: nat)
    requires a <= b && Taken(w, i, a, b) >= 1
    ensures exists n :: a <= n < b && PickAt(w, n) == i
  {
    if PickAt(w, b - 1) != i {
      TakenMeansPicked(w, i, a, b - 1);
    }
  }

  /** Nobody waits more than one cycle. */
  lemma {:induction false} NobodyWaits(w: Weights, a: nat, i: nat)
    requires i < |w|
    ensures exists n :: a <= n < a + Total(w) && PickAt(w, n) == i
  {
    hide *;
    ExactWindow(w, a, i);
    TakenMeansPicked(w, i, a, a + Total(w));
  }
}
