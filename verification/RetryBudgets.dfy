/** The budget that caps status-driven retries. Tokens are counted exactly, in
    fifths: a request earns one, a retry costs five, at most 100 are banked. */
module RetryBudgets {

  const DEPOSIT: nat := 1
  const RETRY: nat := 5
  const FULL: nat := 100

  datatype Op = Deposit | Withdraw

  function Apply(tokens: nat, op: Op): nat
  {
    match op
    case Deposit => if tokens + DEPOSIT <= FULL then tokens + DEPOSIT else FULL
    case Withdraw => if tokens >= RETRY then tokens - RETRY else tokens
  }

  predicate Granted(tokens: nat, op: Op)
  {
    op.Withdraw? && tokens >= RETRY
  }

  function After(tokens: nat, ops: seq<Op>): nat
  {
    if ops == [] then tokens else Apply(After(tokens, ops[..|ops|-1]), ops[|ops|-1])
  }

  function Requests(ops: seq<Op>): nat
  {
    if ops == [] then 0 else Requests(ops[..|ops|-1]) + (if ops[|ops|-1].Deposit? then 1 else 0)
  }

  /** Retries granted while running `ops` from `tokens`. */
  function Retries(tokens: nat, ops: seq<Op>): nat
  {
    if ops == [] then 0
    else
      var rest := ops[..|ops|-1];
      Retries(tokens, rest) + (if Granted(After(tokens, rest), ops[|ops|-1]) then 1 else 0)
  }

  lemma {:induction false} Ledger(tokens: nat, ops: seq<Op>)
    requires tokens <= FULL
    ensures After(tokens, ops) <= FULL
    ensures After(tokens, ops) + RETRY * Retries(tokens, ops) <= tokens + Requests(ops)
  {
    if ops != [] {
      Ledger(tokens, ops[..|ops|-1]);
    }
  }

  lemma {:induction false} AfterConcat(tokens: nat, a: seq<Op>, b: seq<Op>)
    ensures After(tokens, a + b) == After(After(tokens, a), b)
  {
    if b == [] {
      assert a + b == a;
    } else {
      assert (a + b)[..|a + b|-1] == a + b[..|b|-1];
      AfterConcat(tokens, a, b[..|b|-1]);
    }
  }

  /** In any contiguous stretch `b` of any run `a + b` of a service that
      started with a full budget: with N requests and R granted retries,
      5 R <= 100 + N. */
  lemma {:induction false} WindowBound(a: seq<Op>, b: seq<Op>)
    ensures var start := After(FULL, a);
      && start <= FULL
      && After(FULL, a + b) == After(start, b) <= FULL
      && RETRY * Retries(start, b) <= FULL + Requests(b)
  {
    Ledger(FULL, a);
    AfterConcat(FULL, a, b);
    Ledger(After(FULL, a), b);
  }

  /** Requests without retries in between bank a fifth of a retry each, up to
      twenty retries: from any budget a retry is granted exactly when five fifths
      came together, so five requests are always enough. */
  lemma {:induction false} RequestsEarnRetries(tokens: nat, n: nat)
    requires tokens <= 100
    ensures After(tokens, seq(n, _ => Deposit)) == if tokens + n <= 100 then tokens + n else 100
    ensures Granted(After(tokens, seq(n, _ => Deposit)), Withdraw) <==> tokens + n >= 5
    ensures tokens >= 5 ==> Apply(tokens, Withdraw) == tokens - 5
  {
    if n > 0 {
      RequestsEarnRetries(tokens, n - 1);
      assert seq(n, _ => Deposit)[..n-1] == seq(n - 1, _ => Deposit);
    }
  }

  class RetryBudget {
    var tokens: nat
    /** Of one task under observation: retries granted and denied, and requests
        credited. */
    ghost var mine: nat
    ghost var denied: nat
    ghost var asked: nat

    ghost predicate Valid()
      reads this
    {
      tokens <= FULL
    }

    constructor ()
      ensures Valid() && tokens == FULL && mine == denied == asked == 0
    {
      tokens, mine, denied, asked := FULL, 0, 0, 0;
    }

    method Credit()
      requires Valid()
      modifies this`tokens, this`asked
      ensures Valid() && tokens == Apply(old(tokens), Deposit) && asked == old(asked) + 1
    {
      asked := asked + 1;
      tokens := if tokens + DEPOSIT < FULL then tokens + DEPOSIT else FULL;
    }

    method TryWithdraw() returns (granted: bool)
      requires Valid()
      modifies this`tokens, this`mine, this`denied
      ensures Valid() && tokens == Apply(old(tokens), Withdraw)
      ensures granted == Granted(old(tokens), Withdraw)
      ensures mine == old(mine) + (if granted then 1 else 0)
      ensures denied == old(denied) + (if granted then 0 else 1)
    {
      granted := tokens >= RETRY;
      if granted {
        tokens := tokens - RETRY;
        mine := mine + 1;
      } else {
        denied := denied + 1;
      }
    }
  }
}
