/** Response deadlines: how often a dispute escalates, and when MET is the truth. */
module DisputeSla {
  import opened Options
  import opened Disputes
  import opened DisputeRuns

  // ------------------------------------------------------------- escalations

  /** One escalation at most per stage. */
  ghost predicate SlaInv(s: State) {
    s.escalations <= Rank(s.d.stage) + if s.d.sla == OnTrack then 0 else 1
  }

  /** An override read before the first assignment enters the review stage a second time. */
  predicate Reenters(d: Dispute, snap: Dispute, arbiter: Id) {
    !OverrideSkips(snap, arbiter) && snap.stage == Assignment && d.stage == ArbiterReview
  }

  /** Entering the review stage again keeps the bound exactly when it has not escalated in it yet. */
  lemma OverrideKeepsBoundIff(s: State, snap: Dispute, arbiter: Id, deadline: int)
    requires SlaInv(s) && OverrideFits(s.d, snap, arbiter) && Rank(snap.stage) <= Rank(s.d.stage)
    ensures SlaInv(s.(d := OverrideWrite(s.d, snap, arbiter, deadline)))
            <==> (Reenters(s.d, snap, arbiter) ==> s.escalations <= Rank(s.d.stage))
  {
  }

  /** Timely, and no stage already escalated is entered again. */
  predicate Paced(s: State, a: Action) {
    && Timely(s, a)
    && ((a.Fire? && a.i < |s.calls| && s.calls[a.i].Overriding?) ==>
          (Reenters(s.d, s.calls[a.i].snap, s.calls[a.i].arbiter) ==> s.escalations <= Rank(s.d.stage)))
  }

  predicate PacedRun(s: State, run: seq<Action>)
    requires Legal(s, run)
    decreases |run|
  {
    run == [] || (Paced(s, run[0]) && PacedRun(Apply(s, run[0]), run[1..]))
  }

  lemma StepKeepsSla(s: State, a: Action)
    requires Inv(s) && SlaInv(s) && Enabled(s, a) && Paced(s, a)
    ensures SlaInv(Apply(s, a))
  {
    if a.Fire? {
      assert CallInv(s.d, s.clock, s.chain, s.calls[a.i]);
    }
  }

  lemma {:induction false} RunKeepsSla(s: State, run: seq<Action>)
    requires Inv(s) && SlaInv(s) && Legal(s, run) && PacedRun(s, run)
    ensures SlaInv(Exec(s, run))
    decreases |run|
  {
    if run != [] {
      StepKeepsInv(s, run[0]);
      StepKeepsSla(s, run[0]);
      RunKeepsSla(Apply(s, run[0]), run[1..]);
    }
  }

  /** At most one escalation per stage, so three in a life. */
  lemma EscalationsAreBounded(deadline: int, clock: int, window: int, run: seq<Action>)
    requires Legal(Initial(deadline, clock, window), run) && PacedRun(Initial(deadline, clock, window), run)
    ensures var s := Exec(Initial(deadline, clock, window), run); s.escalations <= Rank(s.d.stage) + 1 <= 3
  {
    RunKeepsSla(Initial(deadline, clock, window), run);
  }

  ghost predicate PacedOnward(from: State, t: State) {
    exists run :: PacedLeads(from, run, t)
  }

  ghost predicate PacedLeads(from: State, run: seq<Action>, t: State) {
    Legal(from, run) && PacedRun(from, run) && Exec(from, run) == t
  }

  /** A stage whose clock runs escalates once its deadline has passed. */
  lemma EscalatesInTime(from: State) returns (t: State)
    requires Flaggable(from.d)
    ensures PacedOnward(from, t) && t.d.stage == from.d.stage && t.escalations == from.escalations + 1
  {
    var n, wait := |from.calls|, if from.d.deadline <= from.clock then 0 else from.d.deadline - from.clock;
    var ticked := Apply(from, Tick(wait));
    var begin, fire := Begin(Flagging(ticked.clock)), Fire(n, 0, true, ticked.clock);
    var begun := Apply(ticked, begin);
    t := Apply(begun, fire);
    assert PacedLeads(t, [], t);
    assert [fire][1..] == [] && PacedLeads(begun, [fire], t);
    assert [begin, fire][1..] == [fire] && PacedLeads(ticked, [begin, fire], t);
    assert [Tick(wait), begin, fire][1..] == [begin, fire] && PacedLeads(from, [Tick(wait), begin, fire], t);
  }

  /** Exactly: a timely step is paced if and only if no paced continuation exceeds one escalation per stage. */
  lemma PacedIff(s: State, a: Action)
    requires Inv(s) && SlaInv(s) && Enabled(s, a) && Timely(s, a)
    ensures Paced(s, a) <==> forall t | PacedOnward(Apply(s, a), t) :: t.escalations <= Rank(t.d.stage) + 1
  {
    var from := Apply(s, a);
    if Paced(s, a) {
      StepKeepsInv(s, a);
      StepKeepsSla(s, a);
      forall t | PacedOnward(from, t) ensures t.escalations <= Rank(t.d.stage) + 1 {
        var run :| PacedLeads(from, run, t);
        RunKeepsSla(from, run);
      }
    } else {
      assert CallInv(s.d, s.clock, s.chain, s.calls[a.i]);
      var t := EscalatesInTime(from);
      assert t.escalations > Rank(t.d.stage) + 1;
    }
  }

  /** Two overrides read together: the second restarts the clock of a stage that has escalated. */
  lemma ThreeEscalationsBeforeAnyAppeal() returns (s: State)
    ensures Reachable(s) && s.escalations == 3 && s.d.stage == ArbiterReview
  {
    s := FirstFlag();
    s := SecondFlag(s);
    s := ContinueInTime(s, Fire(2, 10, true, 10));
    s := ContinueInTime(s, Begin(Flagging(10)));
    s := ContinueInTime(s, Fire(4, 0, true, 10));
  }

  /** The first stage escalates, and two overrides read the row. */
  lemma FirstFlag() returns (s: State)
    ensures Reachable(s) && s.escalations == 1 && s.clock == 10 && |s.calls| == 3
    ensures s.calls[1] == Overriding(s.d, 7) && s.calls[2] == Overriding(s.d, 8)
    ensures Active(s.d) && s.d.stage == Assignment && s.d.appeal.None?
  {
    InitialIsReachable(10, 10, 5);
    s := Initial(10, 10, 5);
    s := ContinueInTime(s, Begin(Flagging(10)));
    s := ContinueInTime(s, Fire(0, 0, true, 10));
    s := ContinueInTime(s, Begin(Overriding(s.d, 7)));
    s := ContinueInTime(s, Begin(Overriding(s.d, 8)));
  }

  /** The first override lands and the new stage escalates as well. */
  lemma SecondFlag(t: State) returns (s: State)
    requires Reachable(t) && t.escalations == 1 && t.clock == 10 && |t.calls| == 3
    requires t.calls[1] == Overriding(t.d, 7) && t.calls[2] == Overriding(t.d, 8)
    requires Active(t.d) && t.d.stage == Assignment && t.d.appeal.None?
    ensures Reachable(s) && s.escalations == 2 && s.clock == 10 && |s.calls| == 4
    ensures s.calls[2] == Overriding(t.d, 8) && Active(s.d) && s.d.stage == ArbiterReview && s.d.appeal.None?
  {
    s := ContinueInTime(t, Fire(1, 10, true, 10));
    s := ContinueInTime(s, Begin(Flagging(10)));
    s := ContinueInTime(s, Fire(3, 0, true, 10));
  }

  // ------------------------------------------------------------- MET

  ghost predicate MetIsRight(d: Dispute) {
    d.sla == Met ==> d.resolvedAt.Some? && d.resolvedAt.value <= d.deadline
  }

  /** The row a decision read at `readAt` is overdue already, or its deadline is no later than the row's now. */
  predicate MetFits(d: Dispute, snap: Dispute, readAt: int) {
    snap.sla == Overdue || snap.deadline < readAt || snap.deadline <= d.deadline
  }

  /** Whenever it takes its time, the status a first-tier decision records is right exactly then. */
  lemma MetIsRightIff(d: Dispute, snap: Dispute, outcome: Direction, readAt: int, window: int)
    requires Active(d)
    ensures (forall now | readAt <= now :: MetIsRight(DecideWrite(d, snap, outcome, now, window)))
            <==> MetFits(d, snap, readAt)
  {
    if !MetFits(d, snap, readAt) {
      assert !MetIsRight(DecideWrite(d, snap, outcome, snap.deadline, window)) || snap.deadline <= d.deadline;
    }
  }

  predicate Punctual(s: State, a: Action) {
    && Timely(s, a)
    && ((a.Fire? && a.i < |s.calls| && s.calls[a.i].Deciding? && Active(s.d)) ==>
          MetFits(s.d, s.calls[a.i].snap, s.calls[a.i].readAt))
  }

  predicate PunctualRun(s: State, run: seq<Action>)
    requires Legal(s, run)
    decreases |run|
  {
    run == [] || (Punctual(s, run[0]) && PunctualRun(Apply(s, run[0]), run[1..]))
  }

  lemma StepKeepsMet(s: State, a: Action)
    requires Inv(s) && MetIsRight(s.d) && Enabled(s, a) && Punctual(s, a)
    ensures MetIsRight(Apply(s, a).d)
  {
    if a.Fire? {
      assert CallInv(s.d, s.clock, s.chain, s.calls[a.i]);
    }
  }

  lemma {:induction false} RunKeepsMet(s: State, run: seq<Action>)
    requires Inv(s) && MetIsRight(s.d) && Legal(s, run) && PunctualRun(s, run)
    ensures MetIsRight(Exec(s, run).d)
    decreases |run|
  {
    if run != [] {
      StepKeepsInv(s, run[0]);
      StepKeepsMet(s, run[0]);
      RunKeepsMet(Apply(s, run[0]), run[1..]);
    }
  }

  /** MET is recorded only for a decision no later than the response deadline of its stage. */
  lemma MetMeansOnTime(deadline: int, clock: int, window: int, run: seq<Action>)
    requires Legal(Initial(deadline, clock, window), run) && PunctualRun(Initial(deadline, clock, window), run)
    ensures var d := Exec(Initial(deadline, clock, window), run).d;
      d.sla == Met ==> d.resolvedAt.Some? && d.resolvedAt.value <= d.deadline
  {
    RunKeepsMet(Initial(deadline, clock, window), run);
  }

  /** Otherwise the status is wrong: the row read had the deadline of a stage that is over. */
  lemma LateDecisionRecordsMet() returns (s: State)
    ensures Reachable(s) && s.d.sla == Met && s.d.resolvedAt == Some(5) && s.d.deadline == 3
  {
    s := AssignedWithDecisionPending();
    s := ContinueInTime(s, Tick(5));
    s := ContinueInTime(s, Fire(1, 0, true, 5));
  }

  lemma AssignedWithDecisionPending() returns (s: State)
    ensures Reachable(s) && s.clock == 0 && s.window == 5 && |s.calls| == 2
    ensures s.calls[1] == Deciding(Opened(10), Release, 0)
    ensures Active(s.d) && s.d.stage == ArbiterReview && s.d.deadline == 3
  {
    InitialIsReachable(10, 0, 5);
    s := Initial(10, 0, 5);
    var d := s.d;
    s := ContinueInTime(s, Begin(Assigning(d, 7)));
    s := ContinueInTime(s, Begin(Deciding(d, Release, 0)));
    s := ContinueInTime(s, Fire(0, 3, true, 0));
  }

  // ------------------------------------------------------------- OVERDUE

  /** It was flagged no earlier than the deadline of its stage, or decided after it. */
  ghost predicate OverdueIsRight(d: Dispute) {
    d.sla == Overdue ==>
      || (d.escalatedAt.Some? && d.deadline <= d.escalatedAt.value)
      || (!Active(d) && !AppealOpen(d) && d.resolvedAt.Some? && d.deadline < d.resolvedAt.value)
  }

  /** The escalation job's update looks at the status only: it is right exactly when the deadline it finds is past. */
  lemma FlagIsRightIff(d: Dispute, now: int)
    requires Flaggable(d)
    ensures OverdueIsRight(Flag(d, now)) <==> d.deadline <= now
  {
  }

  /** The decision calls nothing overdue by the row it read that is not so by the row it finds. */
  predicate OverdueFits(d: Dispute, snap: Dispute, readAt: int) {
    || (d.escalatedAt.Some? && d.deadline <= d.escalatedAt.value)
    || d.deadline < readAt
    || (snap.sla != Overdue && d.deadline <= snap.deadline)
  }

  lemma OverdueIsRightIff(d: Dispute, snap: Dispute, outcome: Direction, readAt: int, window: int)
    requires Active(d) && !AppealOpen(d)
    ensures (forall now | readAt <= now :: OverdueIsRight(DecideWrite(d, snap, outcome, now, window)))
            <==> OverdueFits(d, snap, readAt)
  {
    if !OverdueFits(d, snap, readAt) {
      var now := if snap.sla == Overdue || readAt > snap.deadline then readAt else snap.deadline + 1;
      assert !OverdueIsRight(DecideWrite(d, snap, outcome, now, window));
    }
  }

  /** It happens: a flag meant for one stage lands on the next, and a decision in time is recorded OVERDUE. */
  lemma StaleFlagMarksTheNextStage() returns (s: State)
    ensures Reachable(s) && s.d.sla == Overdue && s.d.deadline == 50 && s.d.resolvedAt == Some(10)
    ensures !OverdueIsRight(s.d)
  {
    s := FlaggedWhileAssigned();
    var n := |s.calls|;
    s := ContinueInTime(s, Begin(Deciding(s.d, Release, 10)));
    s := ContinueInTime(s, Fire(n, 0, true, 10));
  }

  lemma FlaggedWhileAssigned() returns (s: State)
    ensures Reachable(s) && s.clock == 10 && s.window == 5 && MayDecide(s.d) && Active(s.d)
    ensures s.d.sla == Overdue && s.d.deadline == 50 && s.d.escalatedAt == Some(10) && s.d.stage == ArbiterReview
  {
    InitialIsReachable(10, 10, 5);
    s := Initial(10, 10, 5);
    s := ContinueInTime(s, Begin(Assigning(s.d, 7)));
    s := ContinueInTime(s, Begin(Flagging(10)));
    s := ContinueInTime(s, Fire(0, 50, true, 10));
    s := ContinueInTime(s, Fire(1, 0, true, 10));
  }

  /** Flags land past the deadline they find, and decisions fit. */
  predicate Prompt(s: State, a: Action) {
    && Timely(s, a)
    && ((a.Fire? && a.i < |s.calls| && s.calls[a.i].Flagging? && Flaggable(s.d)) ==> s.d.deadline <= s.calls[a.i].now)
    && ((a.Fire? && a.i < |s.calls| && s.calls[a.i].Deciding? && Active(s.d)) ==>
          OverdueFits(s.d, s.calls[a.i].snap, s.calls[a.i].readAt))
  }

  predicate PromptRun(s: State, run: seq<Action>)
    requires Legal(s, run)
    decreases |run|
  {
    run == [] || (Prompt(s, run[0]) && PromptRun(Apply(s, run[0]), run[1..]))
  }

  /** What a judge read of an appeal under way, that the row still says. */
  ghost predicate JudgesSee(s: State) {
    forall i | 0 <= i < |s.calls| && s.calls[i].Judging? && s.calls[i].snap.sla == Overdue && AppealOpen(s.d) ::
      s.d.sla == Overdue
  }

  lemma StepKeepsOverdue(s: State, a: Action)
    requires Inv(s) && OverdueIsRight(s.d) && JudgesSee(s) && Enabled(s, a) && Prompt(s, a)
    ensures OverdueIsRight(Apply(s, a).d)
  {
    if a.Fire? {
      assert CallInv(s.d, s.clock, s.chain, s.calls[a.i]);
    }
  }

  lemma StepKeepsJudges(s: State, a: Action)
    requires Inv(s) && JudgesSee(s) && Enabled(s, a) && Timely(s, a)
    ensures JudgesSee(Apply(s, a))
  {
    var s' := Apply(s, a);
    if a.Fire? {
      assert CallInv(s.d, s.clock, s.chain, s.calls[a.i]);
    }
    forall i | 0 <= i < |s'.calls| && s'.calls[i].Judging? && s'.calls[i].snap.sla == Overdue && AppealOpen(s'.d)
      ensures s'.d.sla == Overdue
    {
      if i < |s.calls| {
        assert s'.calls[i] == s.calls[i];
        assert CallInv(s.d, s.clock, s.chain, s.calls[i]);
      }
    }
  }

  lemma {:induction false} RunKeepsOverdue(s: State, run: seq<Action>)
    requires Inv(s) && OverdueIsRight(s.d) && JudgesSee(s) && Legal(s, run) && PromptRun(s, run)
    ensures OverdueIsRight(Exec(s, run).d)
    decreases |run|
  {
    if run != [] {
      StepKeepsInv(s, run[0]);
      StepKeepsOverdue(s, run[0]);
      StepKeepsJudges(s, run[0]);
      RunKeepsOverdue(Apply(s, run[0]), run[1..]);
    }
  }

  /** OVERDUE is recorded only past the response deadline of the stage. */
  lemma OverdueMeansLate(deadline: int, clock: int, window: int, run: seq<Action>)
    requires Legal(Initial(deadline, clock, window), run) && PromptRun(Initial(deadline, clock, window), run)
    ensures OverdueIsRight(Exec(Initial(deadline, clock, window), run).d)
  {
    RunKeepsOverdue(Initial(deadline, clock, window), run);
  }
}
