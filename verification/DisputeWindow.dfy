/** What each call makes of the row in a timely run, and the window in which a decision can be appealed. */
module DisputeWindow {
  import opened Options
  import opened Disputes
  import opened DisputeRuns

  /** A first-tier decision can be appealed for a whole window after it; an appeal decision closes its own. */
  ghost predicate HasWindow(d: Dispute, clock: int, window: int) {
    && (d.outcome.Some? ==> d.resolvedAt.Some? && d.resolvedAt.value <= clock)
    && (d.outcome.Some? && d.stage != AppealReview ==>
          d.appealDeadline == Some(d.resolvedAt.value + if window > 0 then window else 0))
    && (d.appeal.Some? && !d.appeal.value.open ==>
          d.outcome.Some? && d.appeal.value.outcome == d.outcome && d.appealDeadline == d.resolvedAt)
  }

  ghost predicate WindowsKept(s: State) {
    && HasWindow(s.d, s.clock, s.window)
    && (forall k | 0 <= k < |s.chain| :: HasWindow(s.chain[k].row, s.chain[k].at, s.window))
  }

  lemma WriteKeepsWindow(s: State, i: nat, deadline: int, ok: bool, now: int)
    requires i < |s.calls| && RowInv(s.d, s.clock) && HasWindow(s.d, s.clock, s.window)
    requires Enabled(s, Fire(i, deadline, ok, now)) && Fits(s.d, s.calls[i])
    requires CallInv(s.d, s.clock, s.chain, s.calls[i])
    ensures HasWindow(Written(s, s.calls[i], deadline, ok, now), s.clock, s.window)
  {
  }

  lemma StepKeepsWindows(s: State, a: Action)
    requires Inv(s) && WindowsKept(s) && Enabled(s, a) && Timely(s, a)
    ensures WindowsKept(Apply(s, a)) && Apply(s, a).window == s.window
  {
    if a.Fire? {
      assert CallInv(s.d, s.clock, s.chain, s.calls[a.i]);
      WriteKeepsWindow(s, a.i, a.deadline, a.ok, a.now);
    }
  }

  lemma {:induction false} RunKeepsWindows(s: State, run: seq<Action>)
    requires Inv(s) && WindowsKept(s) && Legal(s, run) && TimelyRun(s, run)
    ensures WindowsKept(Exec(s, run)) && Exec(s, run).window == s.window
    decreases |run|
  {
    if run != [] {
      StepKeepsInv(s, run[0]);
      StepKeepsWindows(s, run[0]);
      RunKeepsWindows(Apply(s, run[0]), run[1..]);
    }
  }

  lemma ReachableWindows(s: State)
    requires Reachable(s)
    ensures Inv(s) && WindowsKept(s)
  {
    ReachableInv(s);
    var deadline, clock, window, run :| LeadsInTime(Initial(deadline, clock, window), run, s);
    RunKeepsWindows(Initial(deadline, clock, window), run);
  }

  /** In every timely run a first-tier decision carries the end of its window, an appeal decision no window. */
  lemma DeadlineEndsTheWindow(s: State)
    requires Reachable(s) && s.d.outcome.Some?
    ensures s.d.resolvedAt.Some? && s.d.resolvedAt.value <= s.clock
    ensures s.d.stage != AppealReview ==>
      s.d.appealDeadline == Some(s.d.resolvedAt.value + if s.window > 0 then s.window else 0)
    ensures s.d.appeal.Some? && !s.d.appeal.value.open ==> s.d.appealDeadline == s.d.resolvedAt
  {
    ReachableWindows(s);
  }

  /** Nothing is paid before the window of the decision it is paid on has passed. */
  lemma NothingIsPaidInTheWindow(s: State, k: nat)
    requires Reachable(s) && k < |s.chain| && s.chain[k].row.stage != AppealReview
    ensures var r := s.chain[k];
      r.row.resolvedAt.Some? && r.row.resolvedAt.value + (if s.window > 0 then s.window else 0) <= r.at
  {
    ReachableWindows(s);
    assert HasWindow(s.chain[k].row, s.chain[k].at, s.window);
  }

  /** An appeal can be opened if and only if a decision, not yet final, is inside its window. */
  lemma AppealableIff(s: State, now: int)
    requires Reachable(s)
    ensures MayAppeal(s.d, now) <==>
      && s.d.status == Resolved && !s.d.isFinal && s.d.resolvedAt.Some?
      && now <= s.d.resolvedAt.value + if s.window > 0 then s.window else 0
  {
    ReachableWindows(s);
  }

  // --------------------------------------------------------------- decisions

  /**
   A decision is recorded if and only if the dispute is still active: with its outcome and time, the window
   counted from there, and final at once exactly when there is no window. Otherwise the row stays as it is.
   */
  lemma DecisionIsRecorded(s: State, a: Action)
    requires Inv(s) && Enabled(s, a) && Timely(s, a) && a.Fire? && s.calls[a.i].Deciding?
    ensures var c, d, d' := s.calls[a.i], s.d, Apply(s, a).d;
      if d.status == Open || d.status == UnderReview then
        && d'.status == Resolved && d'.outcome == Some(c.outcome) && d'.resolvedAt == Some(a.now)
        && d'.appealDeadline == Some(a.now + if s.window > 0 then s.window else 0)
        && (d'.isFinal <==> s.window <= 0) && d'.fundsLocked && d'.releasedAt.None?
        && d'.sla == (if c.snap.sla == Overdue || c.snap.deadline < a.now then Overdue else Met)
        && d'.stage == d.stage != AppealReview && d'.arbiter == d.arbiter && d'.manual == d.manual
        && d'.deadline == d.deadline && d'.escalatedAt == d.escalatedAt && d'.appeal.None?
      else d' == d
  {
    assert CallInv(s.d, s.clock, s.chain, s.calls[a.i]);
  }

  /** An appeal decision is recorded if and only if the appeal is open; it is final and closes the window. */
  lemma JudgmentIsRecorded(s: State, a: Action)
    requires Inv(s) && Enabled(s, a) && Timely(s, a) && a.Fire? && s.calls[a.i].Judging?
    ensures var c, d, d' := s.calls[a.i], s.d, Apply(s, a).d;
      && d.stage == AppealReview && d.appeal.Some?
      && if d.appeal.value.open then
           && d'.status == Resolved && d'.outcome == Some(c.outcome) && d'.isFinal
           && d'.resolvedAt == Some(a.now) && d'.appealDeadline == Some(a.now)
           && d'.sla == (if c.snap.sla == Overdue || d.deadline < a.now then Overdue else Met)
           && d'.appeal == Some(Appeal(d.appeal.value.originalArbiter, d.appeal.value.arbiter,
                                       d.appeal.value.originalOutcome, false, Some(c.outcome)))
           && d'.stage == AppealReview && d'.arbiter == d.arbiter && d'.manual == d.manual
           && d'.deadline == d.deadline && d'.escalatedAt == d.escalatedAt
           && d'.fundsLocked == d.fundsLocked && d'.releasedAt == d.releasedAt
         else d' == d
  {
    assert CallInv(s.d, s.clock, s.chain, s.calls[a.i]);
  }

  /**
   An appeal takes effect if and only if the decision is not yet final and, when the appeal was made, inside
   its window. It names the arbiter and the outcome it is against, whatever row was read, and goes to review.
   */
  lemma AppealTakesEffect(s: State, a: Action)
    requires Reachable(s) && Enabled(s, a) && a.Fire? && s.calls[a.i].Appealing?
    ensures var c, d, d' := s.calls[a.i], s.d, Apply(s, a).d;
      if d.status == Resolved && !d.isFinal && d.resolvedAt.Some?
         && c.now <= d.resolvedAt.value + if s.window > 0 then s.window else 0
      then
        && d.outcome.Some?
        && d'.appeal == Some(Appeal(d.arbiter, c.replacement, d.outcome.value, true, None))
        && d'.arbiter == c.replacement && !d'.manual
        && d'.status == (if c.replacement.Some? then UnderReview else Open)
        && d'.stage == AppealReview && d'.deadline == a.deadline && d'.sla == OnTrack && d'.escalatedAt.None?
        && d'.outcome == d.outcome && d'.resolvedAt == d.resolvedAt && d'.appealDeadline == d.appealDeadline
        && d'.fundsLocked && d'.releasedAt.None? && !d'.isFinal
      else d' == d
  {
    ReachableWindows(s);
    assert CallInv(s.d, s.clock, s.chain, s.calls[a.i]);
  }

  /** The job makes a decision final if and only if it is not yet so and its window had passed; no other field. */
  lemma FinalizedIff(s: State, a: Action)
    requires Reachable(s) && Enabled(s, a) && a.Fire? && s.calls[a.i].Finalizing?
    ensures var d := s.d;
      Apply(s, a).d ==
        if d.status == Resolved && !d.isFinal && d.resolvedAt.Some?
           && d.resolvedAt.value + (if s.window > 0 then s.window else 0) < s.calls[a.i].now
        then d.(isFinal := true) else d
  {
    ReachableWindows(s);
  }

  // --------------------------------------------------------------- arbiters

  /** Whatever else changed, an assignment gives the first arbiter of a dispute, and the review starts its clock. */
  lemma AssignmentTakesEffect(s: State, a: Action)
    requires Inv(s) && Enabled(s, a) && Timely(s, a) && a.Fire? && s.calls[a.i].Assigning?
    ensures var c, d, d' := s.calls[a.i], s.d, Apply(s, a).d;
      if d.arbiter.None? && !d.manual then
        && d.stage == Assignment && d.outcome.None? && d.appeal.None? && !d.isFinal
        && d'.arbiter == Some(c.pick) && d'.status == UnderReview && d'.stage == ArbiterReview
        && d'.deadline == a.deadline && d'.sla == OnTrack && d'.escalatedAt.None? && !d'.manual
        && d'.outcome.None? && d'.resolvedAt == d.resolvedAt && d'.appealDeadline == d.appealDeadline
        && d'.appeal.None? && d'.fundsLocked && d'.releasedAt.None? && !d'.isFinal
      else d' == d
  {
    assert CallInv(s.d, s.clock, s.chain, s.calls[a.i]);
  }

  /**
   A manual override pins its arbiter on the dispute, and on the appeal it read, unless that arbiter made the
   decision under appeal; it starts the clock of the review if and only if it read the dispute unassigned.
   */
  lemma OverrideTakesEffect(s: State, a: Action)
    requires Inv(s) && Enabled(s, a) && Timely(s, a) && a.Fire? && s.calls[a.i].Overriding?
    ensures var c, d, d' := s.calls[a.i], s.d, Apply(s, a).d;
      var appealed := c.snap.stage == AppealReview;
      if appealed && d.appeal.Some? && d.appeal.value.originalArbiter == Some(c.arbiter) then d' == d
      else
        && d'.arbiter == Some(c.arbiter) && d'.manual && d'.status == UnderReview
        && (if c.snap.stage == Assignment
            then d'.stage == ArbiterReview && d'.deadline == a.deadline && d'.sla == OnTrack && d'.escalatedAt.None?
            else d'.stage == d.stage && d'.deadline == d.deadline && d'.sla == d.sla && d'.escalatedAt == d.escalatedAt)
        && d'.appeal == (if appealed && d.appeal.Some? then
                           Some(Appeal(d.appeal.value.originalArbiter, Some(c.arbiter),
                                       d.appeal.value.originalOutcome, d.appeal.value.open, d.appeal.value.outcome))
                         else d.appeal)
        && d'.outcome == d.outcome && d'.resolvedAt == d.resolvedAt && d'.appealDeadline == d.appealDeadline
        && d'.fundsLocked == d.fundsLocked && d'.releasedAt == d.releasedAt && d'.isFinal == d.isFinal
  {
    assert CallInv(s.d, s.clock, s.chain, s.calls[a.i]);
  }

  // --------------------------------------------------------------- clock and money

  /** An escalation marks an active dispute on track as overdue, once; nothing else changes. */
  lemma EscalationTakesEffect(s: State, a: Action)
    requires Enabled(s, a) && a.Fire? && s.calls[a.i].Flagging?
    ensures var d := s.d;
      var on := d.sla == OnTrack && (d.status == Open || d.status == UnderReview);
      && Apply(s, a).d == (if on then d.(sla := Overdue, escalatedAt := Some(s.calls[a.i].now)) else d)
      && Apply(s, a).escalations == s.escalations + if on then 1 else 0
  {
  }

  /**
   Money moves are marked by a release and by the closing after an event, on an unreleased row; a claim and
   its roll-back move the status between RESOLVED and CLOSED; every other call leaves the three fields alone.
   */
  lemma FundsAreReleasedIff(s: State, a: Action)
    requires Inv(s) && Enabled(s, a) && Timely(s, a)
    ensures var d, d' := s.d, Apply(s, a).d;
      && (d.releasedAt.None? ==>
            if a.Fire? && (s.calls[a.i].ToRelease? || s.calls[a.i].Closing?)
            then d' == d.(status := Closed, isFinal := true, fundsLocked := false, releasedAt := Some(s.clock))
            else d'.releasedAt.None?)
      && (d.releasedAt.Some? ==> d'.releasedAt.Some? && !d'.fundsLocked)
      && (d.status != Closed && d'.status == Closed ==>
            a.Fire? && (s.calls[a.i].ToClaim? || s.calls[a.i].Closing?))
      && (d.status == Closed && d'.status != Closed ==>
            || (a.Fire? && s.calls[a.i].ToResolve? && !a.ok && d' == d.(status := Resolved))
            || (a.Fire? && s.calls[a.i].Judging? && d.appeal.Some? && d.appeal.value.open))
  {
    if a.Fire? {
      assert CallInv(s.d, s.clock, s.chain, s.calls[a.i]);
    }
  }

  predicate Marks(c: Call) { c.ToMark? || c.Marking? }

  /** A milestone resolved on chain by this backend no longer stands as disputed, or a call is about to say so. */
  ghost predicate MarkedOrMarking(s: State) {
    s.chain != [] && s.disputed ==> exists i :: 0 <= i < |s.calls| && Marks(s.calls[i])
  }

  lemma StepKeepsMarked(s: State, a: Action)
    requires MarkedOrMarking(s) && Enabled(s, a)
    ensures MarkedOrMarking(Apply(s, a))
  {
    var s' := Apply(s, a);
    if s'.chain != [] && s'.disputed {
      if s'.chain != s.chain {
        assert Marks(s'.calls[a.i]);
      } else {
        var i :| 0 <= i < |s.calls| && Marks(s.calls[i]);
        assert Marks(s'.calls[i]);
      }
    }
  }

  /** Whatever runs, timely or not, on any number of calls. */
  lemma {:induction false} PaidIsMarked(s: State, run: seq<Action>)
    requires MarkedOrMarking(s) && Legal(s, run)
    ensures var t := Exec(s, run);
      t.chain != [] && t.disputed ==> exists i :: 0 <= i < |t.calls| && (t.calls[i].ToMark? || t.calls[i].Marking?)
    ensures MarkedOrMarking(Exec(s, run))
    decreases |run|
  {
    if run != [] {
      StepKeepsMarked(s, run[0]);
      PaidIsMarked(Apply(s, run[0]), run[1..]);
    } else if s.chain != [] && s.disputed {
      var i :| 0 <= i < |s.calls| && Marks(s.calls[i]);
      assert s.calls[i].ToMark? || s.calls[i].Marking?;
    }
  }

  /** A settlement claims if and only if the decision is final, recorded and unpaid, and closes the row at once. */
  lemma ClaimTakesEffect(s: State, a: Action)
    requires Enabled(s, a) && a.Fire? && s.calls[a.i].ToClaim?
    ensures var d, s' := s.d, Apply(s, a);
      if d.status == Resolved && d.isFinal && d.releasedAt.None?
      then s'.d == d.(status := Closed) && s'.calls[a.i] == ToRead
      else s'.d == d && s'.calls[a.i] == Over
  {
  }

  /**
   The resolve request leaves the row alone: on an active dispute of the first tier it goes on to decide as
   asked, on a closed one straight to the chain as asked; otherwise it ends.
   */
  lemma RequestGoesOn(s: State, a: Action)
    requires Enabled(s, a) && a.Fire? && s.calls[a.i].Asking?
    ensures var d, s', outcome := s.d, Apply(s, a), s.calls[a.i].outcome;
      && s'.d == d && s'.chain == s.chain
      && s'.calls[a.i] ==
         if d.status == Closed then DirectResolve(outcome == Release)
         else if d.status == Resolved || d.stage == AppealReview then Over
         else Deciding(d, outcome, s.clock)
  {
  }

  /** Which calls a reachable row lets begin: by its status, and by its appeal and its window. */
  lemma CallsBeginIff(s: State, id: Id, outcome: Direction, now: int)
    requires Reachable(s)
    ensures MayBegin(s, Assigning(s.d, id)) <==> s.d.status == Open && s.d.arbiter.None? && !s.d.manual
    ensures MayBegin(s, Overriding(s.d, id)) <==> s.d.status == Open || s.d.status == UnderReview
    ensures MayBegin(s, Deciding(s.d, outcome, s.clock)) <==>
      s.d.appeal.None? && (s.d.status == Open || s.d.status == UnderReview || s.d.status == Closed)
    ensures MayBegin(s, Judging(s.d, outcome, s.clock)) <==> s.d.appeal.Some? && s.d.appeal.value.open
    ensures MayBegin(s, Flagging(now)) <==>
      s.d.deadline <= now <= s.clock && s.d.sla == OnTrack && (s.d.status == Open || s.d.status == UnderReview)
    ensures s.d.appeal.None? ==> (MayBegin(s, Finalizing(now)) <==>
      && s.d.status == Resolved && s.d.resolvedAt.Some?
      && s.d.resolvedAt.value + (if s.window > 0 then s.window else 0) < now <= s.clock)
  {
    ReachableWindows(s);
  }
}
