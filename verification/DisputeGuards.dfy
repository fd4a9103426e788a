/**
 Which guards are missing: the timely writes are exactly the ones after which every timely
 continuation keeps what is promised, and the runs that break a promise for each of the others.
 */
module DisputeGuards {
  import opened Options
  import opened Disputes
  import opened DisputeRuns

  // ------------------------------------------------------------- the promises

  /** At most one chain resolution, on a sound decision that stands. */
  ghost predicate Escrow(t: State) {
    && |t.chain| <= 1
    && (forall k | 0 <= k < |t.chain| :: Sound(t.chain[k]) && t.d.outcome == t.chain[k].row.outcome)
  }

  ghost predicate Independent(d: Dispute) {
    d.appeal.Some? && d.appeal.value.originalArbiter.Some? ==>
      d.arbiter != d.appeal.value.originalArbiter && d.appeal.value.arbiter != d.appeal.value.originalArbiter
  }

  /** What is promised of a state t that follows s: the theorems of DisputeSafety, together. */
  ghost predicate Kept(s: State, t: State) {
    && Escrow(t) && Independent(t.d)
    && Rank(s.d.stage) <= Rank(t.d.stage)
    && (s.d.outcome.Some? && s.d.stage != AppealReview ==> t.d.stage == AppealReview || t.d.outcome == s.d.outcome)
    && (s.d.isFinal ==> t.d.isFinal && !Active(t.d))
  }

  /** Some timely continuation breaks a promise. */
  ghost predicate Breaks(s: State, from: State) {
    exists t :: Onward(from, t) && !Kept(s, t)
  }

  lemma TimelyIsKept(s: State, a: Action, run: seq<Action>)
    requires Inv(s) && Enabled(s, a) && Timely(s, a) && Legal(Apply(s, a), run) && TimelyRun(Apply(s, a), run)
    ensures Kept(s, Exec(Apply(s, a), run))
  {
    assert ([a] + run)[1..] == run;
    RunKeepsInv(s, [a] + run);
    var t := Exec(s, [a] + run);
    assert RowInv(t.d, t.clock) && ChainInv(t.d, t.chain);
  }

  // ------------------------------------------------------------- an unsafe write breaks one

  function Other(outcome: Option<Direction>): Direction {
    if outcome == Some(Release) then Refund else Release
  }

  /** An active first-tier dispute whose recorded outcome was not appealed can be decided the other way. */
  lemma DecidedAgain(s: State, from: State)
    requires Active(from.d) && from.d.stage != AppealReview
    requires s.d.outcome.Some? && s.d.stage != AppealReview
    ensures Breaks(s, from)
  {
    StartOnward(from);
    var n := |from.calls|;
    var t := Go(from, from, Begin(Deciding(from.d, Other(s.d.outcome), from.clock)));
    t := Go(from, t, Fire(n, 0, true, from.clock));
    assert !Kept(s, t);
  }

  lemma BrokenNow(s: State, from: State)
    requires !Kept(s, from)
    ensures Breaks(s, from)
  {
    StartOnward(from);
  }

  /** From a claimable row a settlement claims, reads and resolves on chain. */
  lemma SettleInTime(from: State, t: State) returns (u: State)
    requires Onward(from, t) && Claimable(t.d)
    ensures Onward(from, u) && u.d == t.d.(status := Closed)
    ensures u.chain == t.chain + [Resolution(t.d.outcome == Some(Release), t.clock, u.d)]
  {
    var i := |t.calls|;
    u := Go(from, t, Begin(ToClaim));
    u := Go(from, u, Fire(i, 0, true, 0));
    u := Go(from, u, Fire(i, 0, true, 0));
    u := Go(from, u, Fire(i, 0, true, 0));
  }

  /** The window passes and the job makes the decision final. */
  lemma FinalizeInTime(from: State, t: State) returns (u: State)
    requires Onward(from, t) && t.d.status == Resolved && t.d.appealDeadline.Some?
    ensures Onward(from, u) && u.d == t.d.(isFinal := true) && u.chain == t.chain
  {
    var i, wait := |t.calls|, if t.d.appealDeadline.value < t.clock then 0 else t.d.appealDeadline.value - t.clock + 1;
    u := Go(from, t, Tick(wait));
    u := Go(from, u, Begin(Finalizing(u.clock)));
    u := Go(from, u, Fire(i, 0, true, 0));
  }

  /** A decision that lands during an appeal is finalized and paid with the appeal open. */
  lemma UnsafeDecision(s: State, i: nat, deadline: int, ok: bool, now: int)
    requires Inv(s) && Enabled(s, Fire(i, deadline, ok, now)) && s.calls[i].Deciding?
    requires Active(s.d) && s.d.stage == AppealReview
    ensures Breaks(s, Apply(s, Fire(i, deadline, ok, now)))
  {
    var from := Apply(s, Fire(i, deadline, ok, now));
    StartOnward(from);
    assert AppealOpen(from.d) && from.d.releasedAt.None?;
    var t := FinalizeInTime(from, from);
    t := SettleInTime(from, t);
    assert AppealOpen(t.chain[|t.chain| - 1].row);
    assert !Escrow(t);
  }

  lemma UnsafeAssignment(s: State, i: nat, deadline: int, ok: bool, now: int)
    requires Inv(s) && Enabled(s, Fire(i, deadline, ok, now)) && s.calls[i].Assigning?
    requires s.d.arbiter.None? && !s.d.manual && !(Active(s.d) && s.d.stage == Assignment)
    ensures Breaks(s, Apply(s, Fire(i, deadline, ok, now)))
  {
    var from := Apply(s, Fire(i, deadline, ok, now));
    if !Active(s.d) && !s.d.isFinal {
      DecidedAgain(s, from);
    } else {
      BrokenNow(s, from);
    }
  }

  lemma UnsafeOverride(s: State, i: nat, deadline: int, ok: bool, now: int)
    requires Inv(s) && Enabled(s, Fire(i, deadline, ok, now)) && s.calls[i].Overriding?
    requires !Fits(s.d, s.calls[i])
    ensures Breaks(s, Apply(s, Fire(i, deadline, ok, now)))
  {
    assert CallInv(s.d, s.clock, s.chain, s.calls[i]);
    var from := Apply(s, Fire(i, deadline, ok, now));
    if !Active(s.d) && !s.d.isFinal {
      DecidedAgain(s, from);
    } else {
      BrokenNow(s, from);
    }
  }

  /** A claimed settlement whose chain call is still to come resolves as well. */
  lemma ResolvesToo(from: State, j: nat) returns (u: State)
    requires j < |from.calls| && Unresolved(from.calls[j])
    ensures Onward(from, u) && |u.chain| == |from.chain| + 1
  {
    StartOnward(from);
    u := from;
    if from.calls[j].ToRead? {
      u := Go(from, u, Fire(j, 0, true, 0));
    }
    u := Go(from, u, Fire(j, 0, true, 0));
  }

  lemma UnsafeDirect(s: State, i: nat, deadline: int, now: int)
    requires Inv(s) && Enabled(s, Fire(i, deadline, true, now)) && s.calls[i].DirectResolve?
    requires !DirectFits(s, s.calls[i].approved)
    ensures Breaks(s, Apply(s, Fire(i, deadline, true, now)))
  {
    var from := Apply(s, Fire(i, deadline, true, now));
    if s.chain != [] {
      assert !Escrow(from);
      BrokenNow(s, from);
    } else if !Sound(Resolution(s.calls[i].approved, s.clock, s.d)) {
      assert from.chain[0] == Resolution(s.calls[i].approved, s.clock, s.d);
      assert !Escrow(from);
      BrokenNow(s, from);
    } else if exists j :: 0 <= j < |s.calls| && Unresolved(s.calls[j]) {
      var j :| 0 <= j < |s.calls| && Unresolved(s.calls[j]);
      assert from.calls[j] == s.calls[j];
      var u := ResolvesToo(from, j);
      assert !Escrow(u);
    } else {
      DirectBeforeSettlement(s, i, deadline, now);
    }
  }

  /** A closed, unreleased row whose settlement is past its chain call has been resolved. */
  lemma ClosedIsResolved(s: State)
    requires Inv(s) && s.d.status == Closed && s.d.releasedAt.None?
    requires forall j | 0 <= j < |s.calls| :: !Unresolved(s.calls[j])
    ensures s.chain != []
  {
    var j :| 0 <= j < |s.calls| && InFlight(s.calls[j]);
    assert CallInv(s.d, s.clock, s.chain, s.calls[j]);
  }

  /** Nobody has claimed the unreleased row, so it can be settled a second time. */
  lemma DirectBeforeSettlement(s: State, i: nat, deadline: int, now: int)
    requires Inv(s) && Enabled(s, Fire(i, deadline, true, now)) && s.calls[i].DirectResolve? && s.chain == []
    requires Sound(Resolution(s.calls[i].approved, s.clock, s.d)) && s.d.releasedAt.None?
    requires forall j | 0 <= j < |s.calls| :: !Unresolved(s.calls[j])
    ensures Breaks(s, Apply(s, Fire(i, deadline, true, now)))
  {
    var from := Apply(s, Fire(i, deadline, true, now));
    if s.d.status == Closed { ClosedIsResolved(s); }
    StartOnward(from);
    var u := SettleInTime(from, from);
    assert !Escrow(u);
  }

  /**
   The missing guards, exactly: a step is timely if and only if every timely continuation keeps every
   promise. For each of the four writes the condition is one on the row the write finds.
   */
  lemma TimelyIff(s: State, a: Action)
    requires Inv(s) && Enabled(s, a)
    ensures Timely(s, a) <==> forall t | Onward(Apply(s, a), t) :: Kept(s, t)
  {
    if Timely(s, a) {
      forall t | Onward(Apply(s, a), t) ensures Kept(s, t) {
        var run :| LeadsInTime(Apply(s, a), run, t);
        TimelyIsKept(s, a, run);
      }
    } else {
      UntimelyBreaks(s, a);
    }
  }

  lemma UntimelyBreaks(s: State, a: Action)
    requires Inv(s) && Enabled(s, a) && !Timely(s, a)
    ensures Breaks(s, Apply(s, a))
  {
    match s.calls[a.i] {
      case Deciding(_, _, _) => UnsafeDecision(s, a.i, a.deadline, a.ok, a.now);
      case Assigning(_, _) => UnsafeAssignment(s, a.i, a.deadline, a.ok, a.now);
      case Overriding(_, _) => UnsafeOverride(s, a.i, a.deadline, a.ok, a.now);
      case DirectResolve(_) => UnsafeDirect(s, a.i, a.deadline, a.now);
    }
  }

  // ------------------------------------------------------------- the row alone

  /** A decision that takes effect is safe exactly when no appeal review has begun. */
  lemma DecideIsSafeIff(d: Dispute, clock: int, snap: Dispute, outcome: Direction, now: int, window: int)
    requires RowInv(d, clock) && Active(d) && now <= clock
    ensures RowInv(DecideWrite(d, snap, outcome, now, window), clock) <==> d.stage != AppealReview
  {
  }

  /** An auto-assignment that takes effect is safe exactly on an active, still unassigned dispute. */
  lemma AssignIsSafeIff(d: Dispute, clock: int, pick: Id, deadline: int)
    requires RowInv(d, clock) && d.arbiter.None? && !d.manual
    ensures RowInv(AssignWrite(d, pick, deadline), clock) <==> Active(d) && d.stage == Assignment
  {
  }

  /** An override that takes effect is safe exactly on an active dispute that, if under appeal, it read
      past its first stage and does not give to the arbiter appealed against. */
  lemma OverrideIsSafeIff(d: Dispute, clock: int, snap: Dispute, arbiter: Id, deadline: int)
    requires RowInv(d, clock) && RowInv(snap, clock) && CallInv(d, clock, [], Overriding(snap, arbiter))
    requires !OverrideSkips(snap, arbiter)
    ensures RowInv(OverrideWrite(d, snap, arbiter, deadline), clock) <==> OverrideFits(d, snap, arbiter)
  {
  }

  /** Two decisions are read; one lands and is appealed while the other still waits to be written. */
  lemma AppealedWithDecisionPending() returns (s0: State, s: State)
    ensures s0 == Initial(10, 0, 5) && Leads(s0, s)
    ensures s.d.status == UnderReview && s.d.stage == AppealReview && AppealOpen(s.d) && s.d.releasedAt.None?
    ensures |s.calls| == 3 && s.calls[1] == Deciding(s0.d, Refund, 0)
    ensures s.clock == 0 && s.window == 5 && s.chain == []
  {
    s0, s := DecidedWithDecisionPending();
    s := Continue(s0, s, Begin(Appealing(s.d, Some(8), 0)));
    s := Continue(s0, s, Fire(2, 30, true, s.clock));
  }

  lemma DecidedWithDecisionPending() returns (s0: State, s: State)
    ensures s0 == Initial(10, 0, 5) && Leads(s0, s)
    ensures MayAppeal(s.d, 0) && s.d.arbiter == None && s.d.releasedAt.None?
    ensures |s.calls| == 2 && s.calls[1] == Deciding(s0.d, Refund, 0)
    ensures s.clock == 0 && s.window == 5 && s.chain == []
  {
    s0 := Initial(10, 0, 5);
    assert Legal(s0, []) && Exec(s0, []) == s0;
    s := Continue(s0, s0, Begin(Deciding(s0.d, Release, 0)));
    s := Continue(s0, s, Begin(Deciding(s0.d, Refund, 0)));
    s := Continue(s0, s, Fire(0, 0, true, s.clock));
  }

  /** decide guards the status only: a stale decision overrides an open appeal and is paid out. */
  lemma StaleDecisionIsPaidDuringAppeal() returns (s0: State, s: State)
    ensures s0 == Initial(10, 0, 5) && Leads(s0, s)
    ensures |s.chain| == 1 && AppealOpen(s.chain[0].row)
  {
    s0, s := AppealedWithDecisionPending();
    s := Continue(s0, s, Fire(1, 0, true, s.clock));
    s := Continue(s0, s, Tick(6));
    s := Continue(s0, s, Begin(Finalizing(6)));
    s := Continue(s0, s, Fire(3, 0, true, s.clock));
    s := SettleNow(s0, s);
  }

  /** From a claimable state a lone settlement claims, reads and resolves on chain. */
  lemma SettleNow(s0: State, t: State) returns (s: State)
    requires Leads(s0, t) && Claimable(t.d)
    ensures Leads(s0, s) && s.d == t.d.(status := Closed) && s.clock == t.clock && s.window == t.window
    ensures s.calls == t.calls + [ToMark] && s.disputed == t.disputed
    ensures s.chain == t.chain + [Resolution(t.d.outcome == Some(Release), t.clock, s.d)]
  {
    var i := |t.calls|;
    s := Continue(s0, t, Begin(ToClaim));
    s := Continue(s0, s, Fire(i, 0, true, s.clock));
    s := Continue(s0, s, Fire(i, 0, true, s.clock));
    s := Continue(s0, s, Fire(i, 0, true, s.clock));
  }

  /** A decision is resolved on chain, and not yet marked released, while an assignment is pending. */
  lemma PaidWithAssignmentPending() returns (s0: State, s: State)
    ensures s0 == Initial(10, 0, 0) && Leads(s0, s)
    ensures s.d.status == Closed && s.d.releasedAt.None? && s.d.arbiter.None? && !s.d.manual
    ensures |s.calls| == 3 && s.calls[0] == Assigning(s0.d, 7)
    ensures |s.chain| == 1 && s.chain[0].approved && s.window == 0
  {
    s0 := Initial(10, 0, 0);
    assert Legal(s0, []) && Exec(s0, []) == s0;
    s := Continue(s0, s0, Begin(Assigning(s0.d, 7)));
    s := Continue(s0, s, Begin(Deciding(s0.d, Release, 0)));
    s := Continue(s0, s, Fire(1, 0, true, s.clock));
    s := SettleNow(s0, s);
  }

  /** autoAssign does not guard the status: it reopens a dispute in mid-settlement, which is then paid twice. */
  lemma StaleAssignmentPaysTwice() returns (s0: State, s: State)
    ensures s0 == Initial(10, 0, 0) && Leads(s0, s)
    ensures |s.chain| == 2 && s.chain[0].approved && !s.chain[1].approved
  {
    s0, s := PaidWithAssignmentPending();
    s := Continue(s0, s, Fire(0, 20, true, s.clock));
    s := Continue(s0, s, Begin(Deciding(s.d, Refund, s.clock)));
    s := Continue(s0, s, Fire(3, 0, true, s.clock));
    s := SettleNow(s0, s);
  }

  /** The arbiter's decision is recorded while an override read before it waits to be written. */
  lemma DecidedWithOverridePending() returns (s0: State, s: State)
    ensures s0 == Initial(10, 0, 5) && Leads(s0, s)
    ensures MayAppeal(s.d, 0) && s.d.arbiter == Some(7) && s.clock == 0
    ensures |s.calls| == 3 && s.calls[1].Overriding? && s.calls[1].arbiter == 7
    ensures s.calls[1].snap.stage == ArbiterReview
  {
    s0 := Initial(10, 0, 5);
    assert Legal(s0, []) && Exec(s0, []) == s0;
    s := Continue(s0, s0, Begin(Assigning(s0.d, 7)));
    s := Continue(s0, s, Fire(0, 20, true, s.clock));
    var d1 := s.d;
    s := Continue(s0, s, Begin(Overriding(d1, 7)));
    s := Continue(s0, s, Begin(Deciding(d1, Release, 0)));
    s := Continue(s0, s, Fire(2, 0, true, s.clock));
  }

  /** Read before the first decision and written after its appeal, it puts the stage back with the appeal open. */
  lemma StaleOverrideUndoesTheStage() returns (s0: State, s: State)
    ensures s0 == Initial(10, 0, 5) && Leads(s0, s)
    ensures AppealOpen(s.d) && s.d.stage == ArbiterReview
  {
    s0, s := FirstTierWithOverridePending();
    s := Continue(s0, s, Begin(Appealing(s.d, Some(8), 0)));
    s := Continue(s0, s, Fire(2, 30, true, 0));
    s := Continue(s0, s, Fire(0, 20, true, 0));
  }

  /** A decision before any assignment is recorded while an override read before it waits to be written. */
  lemma FirstTierWithOverridePending() returns (s0: State, s: State)
    ensures s0 == Initial(10, 0, 5) && Leads(s0, s)
    ensures MayAppeal(s.d, 0) && s.d.arbiter == None && s.clock == 0
    ensures |s.calls| == 2 && s.calls[0] == Overriding(s0.d, 7)
  {
    s0 := Initial(10, 0, 5);
    assert Legal(s0, []) && Exec(s0, []) == s0;
    s := Continue(s0, s0, Begin(Overriding(s0.d, 7)));
    s := Continue(s0, s, Begin(Deciding(s0.d, Release, 0)));
    s := Continue(s0, s, Fire(1, 0, true, 0));
  }

  /** The override writes what it decided on a stale row: an appeal goes back to its first arbiter. */
  lemma StaleOverrideBreaksIndependence() returns (s0: State, s: State)
    ensures s0 == Initial(10, 0, 5) && Leads(s0, s)
    ensures AppealOpen(s.d) && s.d.arbiter == Some(7) == s.d.appeal.value.originalArbiter
  {
    s0, s := DecidedWithOverridePending();
    s := Continue(s0, s, Begin(Appealing(s.d, Some(8), 0)));
    s := Continue(s0, s, Fire(3, 30, true, s.clock));
    s := Continue(s0, s, Fire(1, 0, true, s.clock));
  }

  // ------------------------------------------------------------- a request on a closed dispute

  /** A resolve request that finds no open dispute goes straight to the chain, in the direction it asks for. */
  lemma DirectNow(s0: State, t: State, outcome: Direction) returns (s: State)
    requires Leads(s0, t) && t.d.status == Closed && t.disputed
    ensures Leads(s0, s) && s.d == t.d && s.clock == t.clock && s.calls == t.calls + [Marking]
    ensures s.chain == t.chain + [Resolution(outcome == Release, t.clock, t.d)]
  {
    var i := |t.calls|;
    s := Continue(s0, t, Begin(Asking(outcome)));
    s := Continue(s0, s, Fire(i, 0, true, 0));
    s := Continue(s0, s, Fire(i, 0, true, 0));
  }

  /** A claimed release, its chain call on the way: the request resolves a refund first, then both are paid. */
  lemma DirectDuringSettlement() returns (s0: State, s: State)
    ensures s0 == Initial(10, 0, 0) && Leads(s0, s)
    ensures |s.chain| == 2 && !s.chain[0].approved && s.chain[1].approved
    ensures s.chain[0].row.outcome == Some(Release)
  {
    s0, s := ClaimedForRelease();
    s := DirectNow(s0, s, Refund);
    s := Continue(s0, s, Fire(1, 0, true, 0));
  }

  lemma ClaimedForRelease() returns (s0: State, s: State)
    ensures s0 == Initial(10, 0, 0) && Leads(s0, s)
    ensures s.d.status == Closed && s.d.outcome == Some(Release) && s.disputed && s.chain == []
    ensures |s.calls| == 2 && s.calls[1] == ToResolve(true)
  {
    s0 := Initial(10, 0, 0);
    assert Legal(s0, []) && Exec(s0, []) == s0;
    s := Continue(s0, s0, Begin(Deciding(s0.d, Release, 0)));
    s := Continue(s0, s, Fire(0, 0, true, 0));
    s := ClaimNow(s0, s);
  }

  lemma ClaimNow(s0: State, t: State) returns (s: State)
    requires Leads(s0, t) && Claimable(t.d)
    ensures Leads(s0, s) && s.d == t.d.(status := Closed) && s.disputed == t.disputed && s.chain == t.chain
    ensures s.calls == t.calls + [ToResolve(t.d.outcome == Some(Release))]
  {
    var i := |t.calls|;
    s := Continue(s0, t, Begin(ToClaim));
    s := Continue(s0, s, Fire(i, 0, true, 0));
    s := Continue(s0, s, Fire(i, 0, true, 0));
  }

  /** A settlement stops after paying: the request resolves a second time, the other way, and closes the row. */
  lemma DirectAfterPayment() returns (s0: State, s: State)
    ensures s0 == Initial(10, 0, 0) && Leads(s0, s)
    ensures |s.chain| == 2 && s.chain[0].approved && !s.chain[1].approved
    ensures s.d.releasedAt.Some? && |s.calls| == 3 && s.calls[1] == ToMark
  {
    s0, s := ClaimedForRelease();
    s := Continue(s0, s, Fire(1, 0, true, 0));
    s := DirectNow(s0, s, Refund);
    s := CloseNow(s0, s, 2);
  }

  lemma CloseNow(s0: State, t: State, i: nat) returns (s: State)
    requires Leads(s0, t) && i < |t.calls| && t.calls[i] == Marking
    ensures Leads(s0, s) && s.d == MarkSettled(t.d, t.clock) && s.chain == t.chain && s.calls == t.calls[i := Over]
  {
    s := Continue(s0, t, Fire(i, 0, true, 0));
    s := Continue(s0, s, Fire(i, 0, true, 0));
  }
}
