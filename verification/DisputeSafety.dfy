/** What every timely run of a dispute guarantees, and what becomes of a settlement that stops. */
module DisputeSafety {
  import opened Options
  import opened Disputes
  import opened DisputeRuns

  /**
   Escrow moves at most once, only on a final decision, in its direction, with no
   appeal open and not before the appeal deadline; and the outcome then stands.
   */
  lemma EscrowMovesOnce(s: State)
    requires Reachable(s)
    ensures |s.chain| <= 1
    ensures forall r | r in s.chain ::
      && r.row.isFinal && !AppealOpen(r.row)
      && r.row.appealDeadline.Some? && r.row.appealDeadline.value <= r.at
      && r.row.outcome == Some(if r.approved then Release else Refund)
      && s.d.outcome == r.row.outcome
    ensures s.d.fundsLocked <==> s.d.releasedAt.None?
  {
    ReachableInv(s);
    forall r | r in s.chain ensures r == s.chain[0] {
    }
  }

  /** The job that retries settlements can always find what it must retry. */
  lemma UnreleasedDecisionHasDeadline(s: State)
    requires Reachable(s) && s.d.releasedAt.None?
    ensures s.d.status == Resolved ==> s.d.appealDeadline.Some? && s.d.outcome.Some?
    ensures s.d.isFinal ==> s.d.appealDeadline.Some? && s.d.appealDeadline.value <= s.clock
    ensures s.d.status == Closed ==> s.d.isFinal
  {
    ReachableInv(s);
  }

  /** Over any later part of a run: stages only advance, and the one appeal is never replaced. */
  lemma StagesOnlyAdvance(s: State, run: seq<Action>)
    requires Reachable(s) && Legal(s, run) && TimelyRun(s, run)
    ensures var t := Exec(s, run);
      && Rank(s.d.stage) <= Rank(t.d.stage)
      && (s.d.appeal.Some? ==>
            && t.d.appeal.Some?
            && t.d.appeal.value.originalArbiter == s.d.appeal.value.originalArbiter
            && t.d.appeal.value.originalOutcome == s.d.appeal.value.originalOutcome)
      && (s.d.isFinal ==> t.d.isFinal)
  {
    ReachableInv(s);
    RunKeepsInv(s, run);
  }

  /** A recorded outcome stands unless it is appealed, and a final dispute is never reopened. */
  lemma DecisionsStand(s: State, run: seq<Action>)
    requires Reachable(s) && Legal(s, run) && TimelyRun(s, run)
    ensures var t := Exec(s, run);
      && (s.d.outcome.Some? && s.d.stage != AppealReview ==> t.d.stage == AppealReview || t.d.outcome == s.d.outcome)
      && (s.d.isFinal ==> t.d.isFinal && !Active(t.d))
  {
    ReachableInv(s);
    RunKeepsInv(s, run);
  }

  /** An appeal is heard by somebody new. */
  lemma AppealsAreIndependent(s: State)
    requires Reachable(s) && s.d.appeal.Some? && s.d.appeal.value.originalArbiter.Some?
    ensures s.d.arbiter != s.d.appeal.value.originalArbiter
    ensures s.d.appeal.value.arbiter != s.d.appeal.value.originalArbiter
  {
    ReachableInv(s);
  }

  /**
   Whatever lands between the appeal-window job's read and its update: after the update the
   dispute it found past deadline is final, or an appeal got in first; a final one stays final.
   */
  lemma FinalizedOrAppealed(s: State, i: nat, now: int, run: seq<Action>)
    requires Reachable(s) && i < |s.calls| && s.calls[i].Finalizing?
    requires Legal(Apply(s, Fire(i, 0, true, now)), run) && TimelyRun(Apply(s, Fire(i, 0, true, now)), run)
    ensures var s' := Apply(s, Fire(i, 0, true, now)); var t := Exec(s', run);
      && (s'.d.isFinal || s'.d.stage == AppealReview)
      && (s'.d.isFinal ==> t.d.isFinal && t.d.status != Open && t.d.status != UnderReview)
      && (t.d.isFinal || t.d.stage == AppealReview)
  {
    ReachableInv(s);
    var s' := Apply(s, Fire(i, 0, true, now));
    assert CallInv(s.d, s.clock, s.chain, s.calls[i]);
    StepKeepsInv(s, Fire(i, 0, true, now));
    RunKeepsInv(s', run);
    assert RowInv(Exec(s', run).d, Exec(s', run).clock);
  }

  // --------------------------------------------------- a settlement that never ends

  /** The settlement's own next step rolls its claim back or marks the funds released. */
  predicate EndsClaim(c: Call, ok: bool) { (c.ToResolve? && !ok) || c.ToRelease? }

  /**
   A claimed, unreleased row changes in a step if and only if the step is the claiming settlement's own
   failed resolve or its release, or closes every unsettled dispute of the milestone: after a chain event
   or after a direct resolution.
   */
  lemma ClaimMovesIff(s: State, a: Action, i: nat)
    requires Inv(s) && Enabled(s, a) && Timely(s, a)
    requires i < |s.calls| && InFlight(s.calls[i]) && s.d.releasedAt.None?
    ensures Apply(s, a).d != s.d <==>
      a.Fire? && ((a.i == i && EndsClaim(s.calls[i], a.ok)) || s.calls[a.i].Closing?)
    ensures (a.Fire? ==> a.i != i) ==> i < |Apply(s, a).calls| && Apply(s, a).calls[i] == s.calls[i]
  {
    assert CallInv(s.d, s.clock, s.chain, s.calls[i]);
    if a.Fire? {
      assert CallInv(s.d, s.clock, s.chain, s.calls[a.i]);
    }
  }

  /** Some step of the run closes the disputes of the milestone. */
  predicate Closes(s: State, run: seq<Action>)
    requires Legal(s, run)
    decreases |run|
  {
    run != [] && ((run[0].Fire? && s.calls[run[0].i].Closing?) || Closes(Apply(s, run[0]), run[1..]))
  }

  /**
   A settlement that dies after its claim, before or after the chain call, leaves the dispute closed and
   unreleased: over any timely run in which it does not move, the funds are released exactly if something
   else resolved the milestone and closed its disputes; no appeal, decision or job touches the row.
   */
  lemma {:induction false} AbandonedClaimIff(s: State, run: seq<Action>, i: nat)
    requires Inv(s) && Legal(s, run) && TimelyRun(s, run)
    requires i < |s.calls| && InFlight(s.calls[i]) && s.d.releasedAt.None?
    requires forall a | a in run :: a.Fire? ==> a.i != i
    ensures var t := Exec(s, run);
      && (t.d.releasedAt.Some? <==> Closes(s, run))
      && (!Closes(s, run) ==> t.d == s.d && t.d.status == Closed && t.d.fundsLocked)
    decreases |run|
  {
    assert CallInv(s.d, s.clock, s.chain, s.calls[i]);
    if run != [] {
      assert run[0] in run;
      ClaimMovesIff(s, run[0], i);
      StepKeepsInv(s, run[0]);
      if run[0].Fire? && s.calls[run[0].i].Closing? {
        RunKeepsInv(Apply(s, run[0]), run[1..]);
      } else {
        AbandonedClaimIff(Apply(s, run[0]), run[1..], i);
      }
    }
  }

  /** It happens, funds already moved on chain: the process may stop right there. */
  lemma PaidButNotReleased() returns (s: State)
    ensures Reachable(s) && |s.calls| == 2 && s.calls[1] == ToMark && s.disputed
    ensures |s.chain| == 1 && s.chain[0].approved && s.d.releasedAt.None? && s.d.status == Closed
  {
    s := DecidedAtOnce();
    s := ClaimedAndAsked(s);
    s := ContinueInTime(s, Fire(1, 0, true, 0));
  }

  /** Without an appeal window a decision is final at once. */
  lemma DecidedAtOnce() returns (s: State)
    ensures Reachable(s) && Claimable(s.d) && s.d.outcome == Some(Release) && s.d.arbiter.None? && !s.d.manual
    ensures s.calls == [Over] && s.chain == [] && s.disputed && s.clock == 0 && s.window == 0
  {
    InitialIsReachable(10, 0, 0);
    s := Initial(10, 0, 0);
    s := ContinueInTime(s, Begin(Deciding(s.d, Release, 0)));
    s := ContinueInTime(s, Fire(0, 0, true, 0));
  }

  // --------------------------------------------------- after the milestone was settled elsewhere

  /** A call that may still reach the chain. */
  predicate UnderWay(c: Call) { Unresolved(c) || c.DirectResolve? || c.Asking? }

  /**
   A resolution made outside this backend is known by its event only. Once the event has settled the
   milestone and the row, nothing here resolves again but what was under way.
   */
  lemma {:induction false} SettledResolvesNoMore(s: State, run: seq<Action>)
    requires Inv(s) && Legal(s, run) && TimelyRun(s, run) && s.d.releasedAt.Some? && !s.disputed
    requires forall i | 0 <= i < |s.calls| :: !UnderWay(s.calls[i])
    ensures Exec(s, run).chain == s.chain
    decreases |run|
  {
    if run != [] {
      var s' := Apply(s, run[0]);
      StepKeepsInv(s, run[0]);
      forall i | 0 <= i < |s'.calls| ensures !UnderWay(s'.calls[i]) {
        if i < |s.calls| { assert !UnderWay(s.calls[i]); }
      }
      SettledResolvesNoMore(s', run[1..]);
    }
  }

  // --------------------------------------------------- released, yet resolved

  /** Released and RESOLVED: the job finds the row on every run and a new dispute cannot be opened. */
  predicate Lingers(d: Dispute) { d.releasedAt.Some? && d.status == Resolved }

  /**
   A row comes to linger exactly when a settlement's failed resolve, or the decision of an open appeal,
   lands after the milestone was settled elsewhere: neither looks at the release.
   */
  lemma LingersIff(s: State, a: Action)
    requires Inv(s) && Enabled(s, a) && Timely(s, a) && !Lingers(s.d)
    ensures Lingers(Apply(s, a).d) <==>
      && a.Fire? && s.d.releasedAt.Some?
      && ((s.calls[a.i].ToResolve? && !a.ok) || (s.calls[a.i].Judging? && AppealOpen(s.d)))
  {
    if a.Fire? {
      assert CallInv(s.d, s.clock, s.chain, s.calls[a.i]);
    }
  }

  /** And then for good. */
  lemma {:induction false} LingersOn(s: State, run: seq<Action>)
    requires Inv(s) && Lingers(s.d) && Legal(s, run) && TimelyRun(s, run)
    requires forall i | 0 <= i < |s.calls| :: !InFlight(s.calls[i])
    ensures Lingers(Exec(s, run).d)
    decreases |run|
  {
    if run != [] {
      var s' := Apply(s, run[0]);
      if run[0].Fire? {
        assert CallInv(s.d, s.clock, s.chain, s.calls[run[0].i]);
      }
      StepKeepsInv(s, run[0]);
      forall i | 0 <= i < |s'.calls| ensures !InFlight(s'.calls[i]) {
        if i < |s.calls| { assert !InFlight(s.calls[i]); }
      }
      LingersOn(s', run[1..]);
    }
  }

  /** It happens: the chain event arrives while the settlement waits for an answer that is an error. */
  lemma FailedAfterTheEvent() returns (s: State)
    ensures Reachable(s) && Lingers(s.d) && forall i | 0 <= i < |s.calls| :: !InFlight(s.calls[i])
  {
    s := DecidedAtOnce();
    s := ClaimedAndAsked(s);
    s := EventCloses(s);
    s := ContinueInTime(s, Fire(1, 0, false, 0));
  }

  lemma EventCloses(t: State) returns (s: State)
    requires Reachable(t) && |t.calls| == 2 && t.d.releasedAt.None?
    ensures Reachable(s) && s.d == MarkSettled(t.d, t.clock) && s.chain == t.chain && s.clock == t.clock
    ensures s.calls == t.calls + [Over]
  {
    s := ContinueInTime(t, Begin(Marking));
    s := ContinueInTime(s, Fire(2, 0, true, 0));
    s := ContinueInTime(s, Fire(2, 0, true, 0));
  }

  lemma ClaimedAndAsked(t: State) returns (s: State)
    requires Reachable(t) && Claimable(t.d) && |t.calls| == 1
    ensures Reachable(s) && s.d == t.d.(status := Closed) && s.chain == t.chain && s.clock == t.clock
    ensures s.calls == t.calls + [ToResolve(t.d.outcome == Some(Release))]
    ensures s.disputed == t.disputed && s.window == t.window
  {
    s := ContinueInTime(t, Begin(ToClaim));
    s := ContinueInTime(s, Fire(1, 0, true, 0));
    s := ContinueInTime(s, Fire(1, 0, true, 0));
  }
}
