/** Horizon failover: a prioritised list of endpoints, a counter of consecutive errors each, one active. */
module Failover {
  import opened Options

  /** Endpoints are numbered by their place in the configured list. */
  datatype Counters = Counters(active: nat, errors: seq<nat>)

  predicate Valid(s: Counters) { s.active < |s.errors| }

  function Next(i: nat, n: nat): (r: nat)
    requires i < n
    ensures r == if i + 1 == n then 0 else i + 1
  {
    (i + 1) % n
  }

  /** One HTTP attempt on the active endpoint, answered or not. */
  function Attempt(s: Counters, ok: bool, threshold: int): (r: Counters)
    requires Valid(s)
    ensures Valid(r) && |r.errors| == |s.errors|
  {
    var n := |s.errors|;
    if ok then s.(errors := s.errors[s.active := 0])
    else
      var errors := s.errors[s.active := s.errors[s.active] + 1];
      if n > 1 && errors[s.active] >= threshold then Counters(Next(s.active, n), errors)
      else Counters(s.active, errors)
  }

  datatype Fetched = Fetched(counters: Counters, answeredBy: Option<nat>, failures: nat)

  /** At most `budget` attempts; up(k, i) is whether endpoint i answers when k attempts are left. */
  function Fetch(s: Counters, up: (nat, nat) -> bool, threshold: int, budget: nat): (r: Fetched)
    requires Valid(s)
    ensures Valid(r.counters) && |r.counters.errors| == |s.errors|
    decreases budget
  {
    if budget == 0 then Fetched(s, None, 0)
    else
      var ok := up(budget, s.active);
      var s' := Attempt(s, ok, threshold);
      if ok then Fetched(s', Some(s.active), 0)
      else var r := Fetch(s', up, threshold, budget - 1); r.(failures := r.failures + 1)
  }

  class HorizonFailover {
    var activeIndex: nat
    const consecutiveErrors: array<nat>
    const threshold: int

    ghost predicate Inv()
      reads this
    {
      activeIndex < consecutiveErrors.Length
    }

    ghost function State(): Counters
      reads this, consecutiveErrors
    {
      Counters(activeIndex, consecutiveErrors[..])
    }

    constructor (urls: nat, threshold: int)
      requires urls > 0
      ensures Inv() && fresh(consecutiveErrors) && this.threshold == threshold
      ensures State() == Counters(0, seq(urls, _ => 0))
    {
      activeIndex := 0;
      consecutiveErrors := new nat[urls](_ => 0);
      this.threshold := threshold;
    }

    method RecordSuccess()
      requires Inv()
      modifies consecutiveErrors
      ensures Inv() && State() == Attempt(old(State()), true, threshold)
      ensures consecutiveErrors[..] == old(consecutiveErrors[..])[activeIndex := 0]
    {
      consecutiveErrors[activeIndex] := 0;
    }

    method RecordError()
      requires Inv()
      modifies this`activeIndex, consecutiveErrors
      ensures Inv() && State() == Attempt(old(State()), false, threshold)
      ensures var i, n, count := old(activeIndex), consecutiveErrors.Length, old(consecutiveErrors[activeIndex]) + 1;
        && consecutiveErrors[..] == old(consecutiveErrors[..])[i := count]
        && activeIndex == if count < threshold then i else if i + 1 < n then i + 1 else 0
    {
      consecutiveErrors[activeIndex] := consecutiveErrors[activeIndex] + 1;
      if consecutiveErrors.Length > 1 && consecutiveErrors[activeIndex] >= threshold {
        FailOver();
      }
    }

    /** With a single endpoint there is no other to turn to. */
    method FailOver()
      requires Inv()
      modifies this`activeIndex
      ensures Inv() && activeIndex == Next(old(activeIndex), consecutiveErrors.Length)
    {
      var next := Next(activeIndex, consecutiveErrors.Length);
      if next == activeIndex {
        return;
      }
      activeIndex := next;
    }

    /** None is the error "all endpoints failed". */
    method FetchOnce(up: (nat, nat) -> bool) returns (answeredBy: Option<nat>)
      requires Inv()
      modifies this`activeIndex, consecutiveErrors
      ensures Inv()
      ensures var r := Fetch(old(State()), up, threshold, consecutiveErrors.Length);
        State() == r.counters && answeredBy == r.answeredBy
    {
      var n := consecutiveErrors.Length;
      var attempt := 0;
      ghost var start := State();
      while attempt < n
        invariant 0 <= attempt <= n && Inv() && n == consecutiveErrors.Length
        invariant var r := Fetch(start, up, threshold, n); var rest := Fetch(State(), up, threshold, n - attempt);
          r.counters == rest.counters && r.answeredBy == rest.answeredBy
      {
        if up(n - attempt, activeIndex) {
          answeredBy := Some(activeIndex);
          RecordSuccess();
          return;
        }
        RecordError();
        attempt := attempt + 1;
      }
      answeredBy := None;
    }
  }

  // ------------------------------------------------- endpoints that stay up or stay down

  /** Failures endpoint i still absorbs before it is abandoned. */
  function Patience(errors: nat, threshold: int): (r: nat)
    ensures r >= 1
  {
    if threshold - errors > 1 then threshold - errors else 1
  }

  /** Patience of the endpoints met walking from i, up to `k` of them, before one that is up. */
  function Ahead(errors: seq<nat>, up: seq<bool>, threshold: int, i: nat, k: nat): nat
    requires |errors| == |up| && i < |up|
    decreases k
  {
    if k == 0 || up[i] then 0
    else Patience(errors[i], threshold) + Ahead(errors, up, threshold, Next(i, |up|), k - 1)
  }

  /** Failures left before an endpoint that is up becomes active. */
  function Debt(s: Counters, up: seq<bool>, threshold: int): nat
    requires Valid(s) && |up| == |s.errors|
  {
    Ahead(s.errors, up, threshold, s.active, |up|)
  }

  /** Steps from i forward to j around the list. */
  function Steps(i: nat, j: nat, n: nat): nat
    requires i < n && j < n
  {
    if j >= i then j - i else j + n - i
  }

  lemma StepsNext(i: nat, j: nat, n: nat)
    requires i < n && j < n
    ensures i != j ==> Steps(Next(i, n), j, n) == Steps(i, j, n) - 1
    ensures Steps(Next(i, n), i, n) == n - 1
  {
  }

  /** Looking further than the first endpoint that is up changes nothing. */
  lemma {:induction false} AheadFound(errors: seq<nat>, up: seq<bool>, t: int, i: nat, k: nat, h: nat)
    requires |errors| == |up| && i < |up| && h < |up| && up[h] && Steps(i, h, |up|) <= k
    ensures Ahead(errors, up, t, i, k) == Ahead(errors, up, t, i, k + 1)
    decreases k
  {
    if !up[i] && k > 0 {
      StepsNext(i, h, |up|);
      AheadFound(errors, up, t, Next(i, |up|), k - 1, h);
    }
  }

  /** A walk that does not get as far as endpoint j does not see its counter. */
  lemma {:induction false} AheadUnseen(errors: seq<nat>, up: seq<bool>, t: int, i: nat, k: nat, j: nat, x: nat)
    requires |errors| == |up| && i < |up| && j < |up| && k <= Steps(i, j, |up|)
    ensures Ahead(errors[j := x], up, t, i, k) == Ahead(errors, up, t, i, k)
    decreases k
  {
    if !up[i] && k > 0 {
      StepsNext(i, j, |up|);
      AheadUnseen(errors, up, t, Next(i, |up|), k - 1, j, x);
    }
  }

  ghost predicate SomeUp(up: seq<bool>) { exists h | 0 <= h < |up| :: up[h] }

  /** Each failed attempt pays exactly one unit of the debt. */
  lemma FailurePaysOne(s: Counters, up: seq<bool>, t: int)
    requires Valid(s) && |up| == |s.errors| && SomeUp(up) && !up[s.active]
    ensures Debt(s, up, t) >= 1
    ensures Debt(Attempt(s, false, t), up, t) == Debt(s, up, t) - 1
  {
    var n, i := |up|, s.active;
    var h :| 0 <= h < n && up[h];
    var j := Next(i, n);
    var errors := s.errors[i := s.errors[i] + 1];
    StepsNext(i, h, n);
    StepsNext(i, i, n);
    AheadUnseen(s.errors, up, t, j, n - 1, i, errors[i]);
    AheadFound(errors, up, t, j, n - 1, h);
  }

  lemma OneMore(k: nat, p: nat)
    requires k > 0
    ensures (k - 1) * p + p == k * p
  {
  }

  lemma {:induction false} AheadBound(errors: seq<nat>, up: seq<bool>, t: int, i: nat, k: nat)
    requires |errors| == |up| && i < |up|
    ensures Ahead(errors, up, t, i, k) <= k * Patience(0, t)
    decreases k
  {
    if k > 0 && !up[i] {
      AheadBound(errors, up, t, Next(i, |up|), k - 1);
      OneMore(k, Patience(0, t));
    }
  }

  /** From any counters, at most (n - 1) * max(1, threshold) attempts fail. */
  lemma DebtBound(s: Counters, up: seq<bool>, t: int)
    requires Valid(s) && |up| == |s.errors| && SomeUp(up)
    ensures Debt(s, up, t) <= (|up| - 1) * (if t > 1 then t else 1)
  {
    var h :| 0 <= h < |up| && up[h];
    AheadFound(s.errors, up, t, s.active, |up| - 1, h);
    AheadBound(s.errors, up, t, s.active, |up| - 1);
  }

  // ------------------------------------------------- some endpoint answers, the others as they please

  /** What a success on the active endpoint restores to the debt: its own patience, unless it is one of `up`. */
  function Refund(s: Counters, up: seq<bool>, t: int): (r: nat)
    requires Valid(s) && |up| == |s.errors|
  {
    if up[s.active] then 0 else Patience(0, t) - Patience(s.errors[s.active], t)
  }

  /** A success outside `up` restores exactly that. */
  lemma SuccessRefunds(s: Counters, up: seq<bool>, t: int)
    requires Valid(s) && |up| == |s.errors|
    ensures Debt(Attempt(s, true, t), up, t) == Debt(s, up, t) + Refund(s, up, t)
  {
    var n, i := |up|, s.active;
    if !up[i] {
      var j := Next(i, n);
      StepsNext(i, i, n);
      AheadUnseen(s.errors, up, t, j, n - 1, i, 0);
    }
  }

  /** One attempt after another, each on the endpoint then active. */
  function Run(s: Counters, outcomes: seq<bool>, t: int): (r: Counters)
    requires Valid(s)
    ensures Valid(r) && |r.errors| == |s.errors|
  {
    if outcomes == [] then s
    else var n := |outcomes| - 1; Attempt(Run(s, outcomes[..n], t), outcomes[n], t)
  }

  /** The endpoints in `up` answer whenever they are tried. */
  predicate Answering(s: Counters, outcomes: seq<bool>, up: seq<bool>, t: int)
    requires Valid(s) && |up| == |s.errors|
  {
    outcomes == [] ||
      var n := |outcomes| - 1;
      Answering(s, outcomes[..n], up, t) && (up[Run(s, outcomes[..n], t).active] ==> outcomes[n])
  }

  function Fails(outcomes: seq<bool>): nat {
    if outcomes == [] then 0
    else var n := |outcomes| - 1; Fails(outcomes[..n]) + if outcomes[n] then 0 else 1
  }

  function Refunds(s: Counters, outcomes: seq<bool>, up: seq<bool>, t: int): nat
    requires Valid(s) && |up| == |s.errors|
  {
    if outcomes == [] then 0
    else
      var n := |outcomes| - 1;
      Refunds(s, outcomes[..n], up, t) + if outcomes[n] then Refund(Run(s, outcomes[..n], t), up, t) else 0
  }

  /** Failures pay the debt, successes elsewhere restore it, and nothing else moves it. */
  lemma {:induction false} Accounting(s: Counters, outcomes: seq<bool>, up: seq<bool>, t: int)
    requires Valid(s) && |up| == |s.errors| && SomeUp(up) && Answering(s, outcomes, up, t)
    ensures Fails(outcomes) + Debt(Run(s, outcomes, t), up, t) == Debt(s, up, t) + Refunds(s, outcomes, up, t)
    decreases |outcomes|
  {
    if outcomes != [] {
      var n := |outcomes| - 1;
      Accounting(s, outcomes[..n], up, t);
      var m := Run(s, outcomes[..n], t);
      if outcomes[n] { SuccessRefunds(m, up, t); } else { FailurePaysOne(m, up, t); }
    }
  }

  lemma NoDebtIff(s: Counters, up: seq<bool>, t: int)
    requires Valid(s) && |up| == |s.errors|
    ensures Debt(s, up, t) == 0 <==> up[s.active]
  {
  }

  /** Exactly when an endpoint that answers has become active: the failures have paid the debt and all refunds. */
  lemma ReachedIff(s: Counters, outcomes: seq<bool>, up: seq<bool>, t: int)
    requires Valid(s) && |up| == |s.errors| && SomeUp(up) && Answering(s, outcomes, up, t)
    ensures up[Run(s, outcomes, t).active] <==> Fails(outcomes) == Debt(s, up, t) + Refunds(s, outcomes, up, t)
    ensures Fails(outcomes) <= (|up| - 1) * (if t > 1 then t else 1) + Refunds(s, outcomes, up, t)
  {
    Accounting(s, outcomes, up, t);
    NoDebtIff(Run(s, outcomes, t), up, t);
    DebtBound(s, up, t);
  }

  // ------------------------------------------------------------- one call

  /** The endpoints in `up` answer; what the others do may depend on the attempt. */
  ghost predicate Dependable(ans: (nat, nat) -> bool, up: seq<bool>) {
    forall k: nat, i: nat | i < |up| && up[i] :: ans(k, i)
  }

  /** What the call's answer restores. */
  function CallRefund(s: Counters, ans: (nat, nat) -> bool, up: seq<bool>, t: int, budget: nat): nat
    requires Valid(s) && |up| == |s.errors|
    decreases budget
  {
    if budget == 0 then 0
    else if ans(budget, s.active) then Refund(s, up, t)
    else CallRefund(Attempt(s, false, t), ans, up, t, budget - 1)
  }

  lemma {:induction false} FetchAccounting(s: Counters, ans: (nat, nat) -> bool, up: seq<bool>, t: int, budget: nat)
    requires Valid(s) && |up| == |s.errors| && SomeUp(up) && Dependable(ans, up)
    ensures var r := Fetch(s, ans, t, budget);
      && r.failures + Debt(r.counters, up, t) == Debt(s, up, t) + CallRefund(s, ans, up, t, budget)
      && (r.answeredBy.None? ==> r.failures == budget <= Debt(s, up, t) && CallRefund(s, ans, up, t, budget) == 0)
      && (r.answeredBy.Some? ==> r.failures < budget && r.answeredBy.value == r.counters.active
                                 && (up[r.counters.active] <==> r.failures == Debt(s, up, t)))
    decreases budget
  {
    if budget > 0 {
      if ans(budget, s.active) {
        SuccessRefunds(s, up, t);
        NoDebtIff(s, up, t);
      } else {
        FailurePaysOne(s, up, t);
        FetchAccounting(Attempt(s, false, t), ans, up, t, budget - 1);
      }
    }
  }

  /** Some attempt of the call is answered by an endpoint outside `up`. */
  predicate Rescued(s: Counters, ans: (nat, nat) -> bool, up: seq<bool>, t: int, budget: nat)
    requires Valid(s) && |up| == |s.errors|
    decreases budget
  {
    budget > 0 &&
      if ans(budget, s.active) then !up[s.active] else Rescued(Attempt(s, false, t), ans, up, t, budget - 1)
  }

  lemma {:induction false} RescuedBy(s: Counters, ans: (nat, nat) -> bool, up: seq<bool>, t: int, budget: nat)
    requires Valid(s) && |up| == |s.errors|
    ensures var r := Fetch(s, ans, t, budget);
      Rescued(s, ans, up, t, budget) <==> r.answeredBy.Some? && !up[r.counters.active]
    decreases budget
  {
    if budget > 0 && !ans(budget, s.active) {
      RescuedBy(Attempt(s, false, t), ans, up, t, budget - 1);
    }
  }

  /**
   A call throws although some endpoint answers exactly when the debt covers all its attempts and nobody
   else answers one: the source's "retrying on the next endpoint" tries the same endpoint again until its
   patience ends.
   */
  lemma FetchThrowsIff(s: Counters, ans: (nat, nat) -> bool, up: seq<bool>, t: int)
    requires Valid(s) && |up| == |s.errors| && SomeUp(up) && Dependable(ans, up)
    ensures Fetch(s, ans, t, |up|).answeredBy == None
            <==> Debt(s, up, t) >= |up| && !Rescued(s, ans, up, t, |up|)
  {
    FetchAccounting(s, ans, up, t, |up|);
    RescuedBy(s, ans, up, t, |up|);
  }

  // ------------------------------------------------------------- any number of calls

  /** How many calls threw, how many attempts failed, how much was refunded. */
  datatype Tally = Tally(counters: Counters, thrown: nat, failures: nat, refunded: nat)

  /** The first m calls, answers(c) being the answers during call c. */
  function Calls(s: Counters, answers: nat -> ((nat, nat) -> bool), up: seq<bool>, t: int, m: nat): (r: Tally)
    requires Valid(s) && |up| == |s.errors|
    ensures Valid(r.counters) && |r.counters.errors| == |up|
  {
    if m == 0 then Tally(s, 0, 0, 0)
    else
      var before := Calls(s, answers, up, t, m - 1);
      var r := Fetch(before.counters, answers(m - 1), t, |up|);
      Tally(r.counters, before.thrown + (if r.answeredBy.None? then 1 else 0), before.failures + r.failures,
            before.refunded + CallRefund(before.counters, answers(m - 1), up, t, |up|))
  }

  ghost predicate AllDependable(answers: nat -> ((nat, nat) -> bool), up: seq<bool>) {
    forall c: nat :: Dependable(answers(c), up)
  }

  lemma {:induction false} CallsAccounting(s: Counters, answers: nat -> ((nat, nat) -> bool), up: seq<bool>, t: int,
                                           m: nat)
    requires Valid(s) && |up| == |s.errors| && SomeUp(up) && AllDependable(answers, up)
    ensures var r := Calls(s, answers, up, t, m);
      && r.failures + Debt(r.counters, up, t) == Debt(s, up, t) + r.refunded
      && r.thrown * |up| <= r.failures
    decreases m
  {
    if m > 0 {
      CallsAccounting(s, answers, up, t, m - 1);
      var before := Calls(s, answers, up, t, m - 1);
      assert Dependable(answers(m - 1), up);
      FetchAccounting(before.counters, answers(m - 1), up, t, |up|);
      Times(before.thrown, |up|);
    }
  }

  lemma Times(thrown: nat, n: nat)
    ensures (thrown + 1) * n == thrown * n + n
  {
  }

  /**
   Over any calls, with some endpoint always answering: the failures differ from what successes elsewhere
   refunded by at most (n - 1) * max(1, threshold), so they are bounded exactly if the refunds are.
   */
  lemma FailuresTrackRefunds(s: Counters, answers: nat -> ((nat, nat) -> bool), up: seq<bool>, t: int, m: nat)
    requires Valid(s) && |up| == |s.errors| && SomeUp(up) && AllDependable(answers, up)
    ensures var r, bound := Calls(s, answers, up, t, m), (|up| - 1) * (if t > 1 then t else 1);
      && r.failures <= r.refunded + bound && r.refunded <= r.failures + bound
      && r.thrown * |up| <= r.refunded + bound
      && (up[r.counters.active] <==> r.failures == Debt(s, up, t) + r.refunded)
  {
    CallsAccounting(s, answers, up, t, m);
    var r := Calls(s, answers, up, t, m);
    DebtBound(s, up, t);
    DebtBound(r.counters, up, t);
    NoDebtIff(r.counters, up, t);
  }

  /** While nothing is refunded, fewer than max(1, threshold) calls throw, however many are made. */
  lemma FewCallsThrow(s: Counters, answers: nat -> ((nat, nat) -> bool), up: seq<bool>, t: int, m: nat)
    requires Valid(s) && |up| == |s.errors| && SomeUp(up) && AllDependable(answers, up)
    requires Calls(s, answers, up, t, m).refunded == 0
    ensures Calls(s, answers, up, t, m).thrown < if t > 1 then t else 1
    ensures Calls(s, answers, up, t, m).failures <= (|up| - 1) * (if t > 1 then t else 1)
  {
    FailuresTrackRefunds(s, answers, up, t, m);
    FewerThan(Calls(s, answers, up, t, m).thrown, |up|, Patience(0, t));
  }

  lemma FewerThan(thrown: nat, n: nat, p: nat)
    requires n > 0 && p > 0 && thrown * n <= (n - 1) * p
    ensures thrown < p
  {
    if thrown >= p {
      TimesMonotone(p, thrown, n);
      OneMore(n, p);
    }
  }

  lemma TimesMonotone(a: nat, b: nat, n: nat)
    requires a <= b
    ensures a * n <= b * n
  {
  }

  /** Once an endpoint that answers is active, it stays active and every call succeeds on it. */
  lemma {:induction false} SettledForGood(s: Counters, answers: nat -> ((nat, nat) -> bool), up: seq<bool>, t: int,
                                          m: nat)
    requires Valid(s) && |up| == |s.errors| && up[s.active] && AllDependable(answers, up)
    ensures var r := Calls(s, answers, up, t, m);
      r.counters.active == s.active && r.thrown == 0 && r.failures == 0
    decreases m
  {
    if m > 0 {
      SettledForGood(s, answers, up, t, m - 1);
      assert Dependable(answers(m - 1), up);
    }
  }

  // ------------------------------------------------- endpoints that stay up or stay down

  function Steady(up: seq<bool>): (nat, nat) -> bool {
    (_: nat, i: nat) => i < |up| && up[i]
  }

  function AlwaysSteady(up: seq<bool>): nat -> ((nat, nat) -> bool) {
    (_: nat) => Steady(up)
  }

  lemma SteadyIsDependable(up: seq<bool>)
    ensures Dependable(Steady(up), up) && AllDependable(AlwaysSteady(up), up)
  {
  }

  lemma {:induction false} SteadyRefundsNothing(s: Counters, up: seq<bool>, t: int, budget: nat)
    requires Valid(s) && |up| == |s.errors|
    ensures CallRefund(s, Steady(up), up, t, budget) == 0 && !Rescued(s, Steady(up), up, t, budget)
    decreases budget
  {
    if budget > 0 && !up[s.active] {
      SteadyRefundsNothing(Attempt(s, false, t), up, t, budget - 1);
    }
  }

  /** One call throws exactly when the debt covers all its attempts; otherwise it pays the debt off. */
  lemma FetchPays(s: Counters, up: seq<bool>, t: int, budget: nat)
    requires Valid(s) && |up| == |s.errors| && SomeUp(up)
    ensures var r := Fetch(s, Steady(up), t, budget);
      if Debt(s, up, t) >= budget
      then r.answeredBy == None && r.failures == budget && Debt(r.counters, up, t) == Debt(s, up, t) - budget
      else r.failures == Debt(s, up, t) && up[r.counters.active] && r.answeredBy == Some(r.counters.active)
  {
    SteadyIsDependable(up);
    FetchAccounting(s, Steady(up), up, t, budget);
    SteadyRefundsNothing(s, up, t, budget);
    RescuedBy(s, Steady(up), up, t, budget);
  }

  /** While calls throw, each spends n of the debt; the first that does not ends the failures for good. */
  lemma {:induction false} CallsPay(s: Counters, up: seq<bool>, t: int, m: nat)
    requires Valid(s) && |up| == |s.errors| && SomeUp(up)
    ensures var r := Calls(s, AlwaysSteady(up), up, t, m); var d := Debt(s, up, t);
      && r.refunded == 0
      && if d >= m * |up|
         then r.thrown == m && r.failures == m * |up| && Debt(r.counters, up, t) == d - m * |up|
         else r.thrown * |up| <= d < (r.thrown + 1) * |up| && r.failures == d && up[r.counters.active]
    decreases m
  {
    if m > 0 {
      CallsPay(s, up, t, m - 1);
      var before := Calls(s, AlwaysSteady(up), up, t, m - 1);
      FetchPays(before.counters, up, t, |up|);
      SteadyRefundsNothing(before.counters, up, t, |up|);
      NoDebtIff(before.counters, up, t);
      OneMore(m, |up|);
    }
  }

  /** So with such endpoints fewer than max(1, threshold) calls ever throw. */
  lemma FewSteadyCallsThrow(s: Counters, up: seq<bool>, t: int, m: nat)
    requires Valid(s) && |up| == |s.errors| && SomeUp(up)
    ensures Calls(s, AlwaysSteady(up), up, t, m).thrown < if t > 1 then t else 1
    ensures Calls(s, AlwaysSteady(up), up, t, m).failures <= (|up| - 1) * (if t > 1 then t else 1)
  {
    SteadyIsDependable(up);
    CallsPay(s, up, t, m);
    FewCallsThrow(s, AlwaysSteady(up), up, t, m);
  }

  /** With the default threshold and two endpoints, the first call fails while the second endpoint is up. */
  lemma FirstCallThrows()
    ensures Fetch(Counters(0, [0, 0]), Steady([false, true]), 3, 2).answeredBy == None
  {
    var s, up := Counters(0, [0, 0]), [false, true];
    assert up[1];
    assert Next(0, 2) == 1;
    assert Ahead(s.errors, up, 3, 1, 1) == 0;
    assert Debt(s, up, 3) == 3;
    FetchPays(s, up, 3, 2);
  }

  // ------------------------------------------------------------- an endpoint that comes and goes

  /** Of two endpoints the second always answers, the first in every other call. */
  function Alternating(): nat -> ((nat, nat) -> bool) {
    (c: nat) => if c % 2 == 0 then Steady([false, true]) else Steady([true, true])
  }

  lemma AlternatingAt(k: nat)
    ensures Alternating()(2 * k) == Steady([false, true]) && Alternating()(2 * k + 1) == Steady([true, true])
  {
  }

  lemma AlternatingIsDependable()
    ensures AllDependable(Alternating(), [false, true])
  {
  }

  /** One call throws, the next restores what it spent. */
  lemma TwoMoreCalls(s: Counters, answers: nat -> ((nat, nat) -> bool), up: seq<bool>, c: nat)
    requires s == Counters(0, [0, 0]) && up == [false, true]
    requires answers(c) == Steady([false, true]) && answers(c + 1) == Steady([true, true])
    requires Calls(s, answers, up, 3, c).counters == s
    ensures var before := Calls(s, answers, up, 3, c);
      Calls(s, answers, up, 3, c + 2) == Tally(s, before.thrown + 1, before.failures + 2, before.refunded + 2)
  {
    CallDown();
    CallUp();
    var before, between := Calls(s, answers, up, 3, c), Calls(s, answers, up, 3, c + 1);
    assert between == Tally(Counters(0, [2, 0]), before.thrown + 1, before.failures + 2, before.refunded);
  }

  /** From these counters two more calls bring them back, one throw and two failures later. */
  ghost predicate ComesBack(s: Counters, answers: nat -> ((nat, nat) -> bool), up: seq<bool>, k: nat)
    requires Valid(s) && |up| == |s.errors|
  {
    var before := Calls(s, answers, up, 3, 2 * k);
    before.counters == s ==>
      Calls(s, answers, up, 3, 2 * k + 2) == Tally(s, before.thrown + 1, before.failures + 2, before.refunded + 2)
  }

  lemma {:induction false} KeepsComingBack(s: Counters, answers: nat -> ((nat, nat) -> bool), up: seq<bool>, m: nat)
    requires Valid(s) && |up| == |s.errors| && forall k: nat :: ComesBack(s, answers, up, k)
    ensures Calls(s, answers, up, 3, 2 * m) == Tally(s, m, 2 * m, 2 * m)
    decreases m
  {
    if m > 0 {
      KeepsComingBack(s, answers, up, m - 1);
      assert ComesBack(s, answers, up, m - 1);
    }
  }

  /** No bound holds then: each call answered by the first endpoint restores its patience, and every other
      call throws for ever, with an endpoint that always answers at hand. */
  lemma EveryOtherCallThrows(m: nat)
    ensures AllDependable(Alternating(), [false, true])
    ensures Calls(Counters(0, [0, 0]), Alternating(), [false, true], 3, 2 * m)
            == Tally(Counters(0, [0, 0]), m, 2 * m, 2 * m)
  {
    AlternatingIsDependable();
    var s, up := Counters(0, [0, 0]), [false, true];
    forall k: nat ensures ComesBack(s, Alternating(), up, k) {
      AlternatingComesBack(s, up, k);
    }
    KeepsComingBack(s, Alternating(), up, m);
  }

  lemma AlternatingComesBack(s: Counters, up: seq<bool>, k: nat)
    requires s == Counters(0, [0, 0]) && up == [false, true]
    ensures ComesBack(s, Alternating(), up, k)
  {
    if Calls(s, Alternating(), up, 3, 2 * k).counters == s {
      AlternatingAt(k);
      TwoMoreCalls(s, Alternating(), up, 2 * k);
    }
  }

  lemma CallDown()
    ensures Fetch(Counters(0, [0, 0]), Steady([false, true]), 3, 2) == Fetched(Counters(0, [2, 0]), None, 2)
    ensures CallRefund(Counters(0, [0, 0]), Steady([false, true]), [false, true], 3, 2) == 0
  {
    var a, b := Counters(0, [0, 0]), Counters(0, [1, 0]);
    assert Attempt(a, false, 3) == b && Attempt(b, false, 3) == Counters(0, [2, 0]);
    assert Fetch(b, Steady([false, true]), 3, 1) == Fetched(Counters(0, [2, 0]), None, 1);
    SteadyRefundsNothing(a, [false, true], 3, 2);
  }

  lemma CallUp()
    ensures Fetch(Counters(0, [2, 0]), Steady([true, true]), 3, 2) == Fetched(Counters(0, [0, 0]), Some(0), 0)
    ensures CallRefund(Counters(0, [2, 0]), Steady([true, true]), [false, true], 3, 2) == 2
  {
    assert Attempt(Counters(0, [2, 0]), true, 3) == Counters(0, [0, 0]);
  }

  /** The call keeps to the endpoint it starts on. */
  predicate Stays(s: Counters, ans: (nat, nat) -> bool, t: int, budget: nat)
    requires Valid(s)
    decreases budget
  {
    budget == 0 || ans(budget, s.active) ||
      (Attempt(s, false, t).active == s.active && Stays(Attempt(s, false, t), ans, t, budget - 1))
  }

  /** Exactly when a call leaves it, whatever the answers: its patience fits the attempts left, and they fail. */
  lemma {:induction false} LeavesIff(s: Counters, ans: (nat, nat) -> bool, t: int, budget: nat)
    requires Valid(s) && |s.errors| >= 2
    ensures var left := t - s.errors[s.active]; var p := if left > 1 then left else 1;
      !Stays(s, ans, t, budget) <==> p <= budget && forall k: nat | budget - p < k <= budget :: !ans(k, s.active)
    decreases budget
  {
    var p := Patience(s.errors[s.active], t);
    if budget > 0 && !ans(budget, s.active) && p > 1 {
      LeavesIff(Attempt(s, false, t), ans, t, budget - 1);
    }
  }

  /** The first attempt of a call fails, any other is answered. */
  function Flaky(n: nat): (nat, nat) -> bool {
    (left: nat, _: nat) => left != n
  }

  /** Where every endpoint fails the first attempt of a call, the active one is never left with a threshold of
      at least 2: no endpoint always answers, and failures grow with the calls. */
  lemma {:induction false} FlakyIsNeverLeft(s: Counters, up: seq<bool>, t: int, m: nat)
    requires Valid(s) && |s.errors| == |up| >= 2 && t >= 2 && s.errors[s.active] == 0
    ensures var r := Calls(s, _ => Flaky(|up|), up, t, m); r.counters == s && r.failures == m && r.thrown == 0
    decreases m
  {
    if m > 0 {
      FlakyIsNeverLeft(s, up, t, m - 1);
      var n := |up|;
      var s1 := Attempt(s, false, t);
      assert Attempt(s1, true, t).errors == s.errors;
      assert Fetch(s1, Flaky(n), t, n - 1) == Fetched(s, Some(s.active), 0);
      assert Fetch(s, Flaky(n), t, n) == Fetched(s, Some(s.active), 1);
    }
  }

  /** One such call leaves the endpoint exactly when its failure is the one that reaches the threshold. */
  lemma FlakyLeavesIff(s: Counters, t: int)
    requires Valid(s) && |s.errors| >= 2
    ensures !Stays(s, Flaky(|s.errors|), t, |s.errors|) <==> s.errors[s.active] + 1 >= t
  {
    LeavesIff(s, Flaky(|s.errors|), t, |s.errors|);
  }

  /** A lone endpoint is never left. */
  lemma {:induction false} LoneEndpointStays(s: Counters, up: (nat, nat) -> bool, t: int, budget: nat)
    requires Valid(s) && |s.errors| == 1
    ensures Fetch(s, up, t, budget).counters.active == s.active
    decreases budget
  {
    if budget > 0 && !up(budget, s.active) {
      LoneEndpointStays(Attempt(s, false, t), up, t, budget - 1);
    }
  }
}
