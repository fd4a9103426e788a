/**
 Every run of one dispute: calls read the row, then write it in a later step, while
 the clock, other calls and overlapping settlements move. A chain call that errors
 has no on-chain effect; one that succeeds is logged in `chain`.
 */
module DisputeRuns {
  import opened Options
  import opened Disputes

  datatype Call =
    | Assigning(snap: Dispute, pick: Id)
    | Overriding(snap: Dispute, arbiter: Id)
    | Deciding(snap: Dispute, outcome: Direction, readAt: int)
    | Appealing(snap: Dispute, replacement: Option<Id>, now: int)
    | Judging(snap: Dispute, outcome: Direction, readAt: int)
    | Flagging(now: int)
    | Finalizing(now: int)
    | ToClaim
    | ToRead
    | ToResolve(approved: bool)
    | ToMark
    | ToRelease
    | Asking(outcome: Direction)
    | DirectResolve(approved: bool)
    | Marking
    | Closing
    | Over

  /** A successful on-chain resolution, with the row as it stood at that moment. */
  datatype Resolution = Resolution(approved: bool, at: int, row: Dispute)

  /** `disputed`: the milestone still stands as disputed. */
  datatype State = State(d: Dispute, disputed: bool, clock: int, window: int, calls: seq<Call>,
                         chain: seq<Resolution>, escalations: nat)

  /**
   A write: `deadline` is whatever the SLA settings give for a stage entered now, `ok` the
   chain's answer, and `now` the time the call took between its read and its write.
   */
  datatype Action =
    | Begin(call: Call)
    | Fire(i: nat, deadline: int, ok: bool, now: int)
    | Tick(dt: nat)

  /** The checks a call makes on the row it reads. */
  predicate MayBegin(s: State, c: Call) {
    match c
    case Assigning(snap, _) => snap == s.d && snap.status == Open && snap.arbiter.None? && !snap.manual
    case Overriding(snap, _) => snap == s.d && Active(snap)
    case Deciding(snap, _, readAt) => snap == s.d && readAt == s.clock && MayDecide(snap)
    case Appealing(snap, pick, now) =>
      && snap == s.d && now <= s.clock && MayAppeal(snap, now)
      && (pick.Some? ==> snap.arbiter != pick)
    case Judging(snap, _, readAt) => snap == s.d && readAt == s.clock && MayJudge(snap)
    case Flagging(now) => now <= s.clock && Flaggable(s.d) && s.d.deadline <= now
    case Finalizing(now) => now <= s.clock && Expired(s.d, now)
    case ToClaim => true
    case Asking(_) => s.disputed
    // A dispute_resolved event arrives from the chain.
    case Marking => true
    case _ => false
  }

  predicate Enabled(s: State, a: Action) {
    match a
    case Begin(c) => MayBegin(s, c)
    case Fire(i, _, _, now) =>
      && i < |s.calls| && s.calls[i] != Over
      && (s.calls[i].Appealing? ==> s.calls[i].snap.outcome.Some?)
      && (s.calls[i].Deciding? || s.calls[i].Judging? ==> s.calls[i].readAt <= now <= s.clock)
    case _ => true
  }

  /** What firing a call makes of the row. */
  function Written(s: State, c: Call, deadline: int, ok: bool, now: int): Dispute
    requires c.Appealing? ==> c.snap.outcome.Some?
  {
    match c
    case Assigning(_, pick) => AssignWrite(s.d, pick, deadline)
    case Overriding(snap, arbiter) => OverrideWrite(s.d, snap, arbiter, deadline)
    case Deciding(snap, outcome, _) => DecideWrite(s.d, snap, outcome, now, s.window)
    case Appealing(snap, pick, at) => AppealWrite(s.d, snap, pick, at, deadline)
    case Judging(snap, outcome, _) => JudgeWrite(s.d, snap, outcome, now)
    case Flagging(at) => Flag(s.d, at)
    case Finalizing(at) => FinalizeWrite(s.d, at)
    case ToClaim => Claim(s.d)
    case ToRead => s.d
    case ToResolve(_) => if ok then s.d else Unclaim(s.d)
    case ToRelease => MarkReleased(s.d, s.clock)
    case Closing => MarkSettled(s.d, s.clock)
    case _ => s.d
  }

  /** Where a call stands after it fired. */
  function Next(s: State, c: Call, ok: bool): Call {
    match c
    case ToClaim => if Claimable(s.d) then ToRead else Over
    case ToRead => ToResolve(s.d.outcome == Some(Release))
    case ToResolve(_) => if ok then ToMark else Over
    case ToMark => ToRelease
    // The resolve request: a decision on the open dispute or, finding none open, the chain at once.
    case Asking(outcome) =>
      if s.d.status == Closed then DirectResolve(outcome == Release)
      else if MayDecide(s.d) then Deciding(s.d, outcome, s.clock) else Over
    case DirectResolve(_) => if ok then Marking else Over
    case Marking => Closing
    case _ => Over
  }

  predicate Resolves(c: Call) { c.ToResolve? || c.DirectResolve? }

  function Apply(s: State, a: Action): State
    requires Enabled(s, a)
  {
    match a
    case Begin(c) => s.(calls := s.calls + [c])
    case Fire(i, deadline, ok, now) =>
      var c := s.calls[i];
      s.(d := Written(s, c, deadline, ok, now),
         disputed := s.disputed && !c.ToMark? && !c.Marking?,
         calls := s.calls[i := Next(s, c, ok)],
         chain := if Resolves(c) && ok then s.chain + [Resolution(c.approved, s.clock, s.d)] else s.chain,
         escalations := s.escalations + if c.Flagging? && Flaggable(s.d) then 1 else 0)
    case Tick(dt) => s.(clock := s.clock + dt)
  }

  function Initial(deadline: int, clock: int, window: int): State {
    State(Opened(deadline), true, clock, window, [], [], 0)
  }

  /**
   The four writes whose own guard is weaker than the check on the row they read land
   in time: a decision before an appeal was opened, an assignment on a dispute still
   waiting for its first arbiter, an override on a dispute still active and, once under
   appeal, neither putting it back a stage nor handing it to the arbiter appealed against.
   A direct resolution succeeds only when it is the first, on a settled row, as that was decided.
   */
  predicate Timely(s: State, a: Action) {
    (a.Fire? && a.i < |s.calls|) ==>
      Fits(s.d, s.calls[a.i]) && (s.calls[a.i].DirectResolve? && a.ok ==> DirectFits(s, s.calls[a.i].approved))
  }

  /** The row the write of this call finds is one it is safe on. */
  predicate Fits(d: Dispute, c: Call) {
    match c
    case Deciding(_, _, _) => Active(d) ==> d.stage != AppealReview
    case Assigning(_, _) => (d.arbiter.None? && !d.manual) ==> Active(d) && d.stage == Assignment
    case Overriding(snap, arbiter) => OverrideSkips(snap, arbiter) || OverrideFits(d, snap, arbiter)
    case _ => true
  }

  predicate OverrideFits(d: Dispute, snap: Dispute, arbiter: Id) {
    && Active(d)
    && (d.stage == AppealReview ==> snap.stage != Assignment && OriginalArbiter(d) != Some(arbiter))
  }

  /** Claimed, its chain call still to come. */
  predicate Unresolved(c: Call) { c.ToRead? || c.ToResolve? }

  predicate DirectFits(s: State, approved: bool) {
    && s.chain == [] && s.d.releasedAt.Some?
    && Sound(Resolution(approved, s.clock, s.d))
    && (forall i | 0 <= i < |s.calls| :: !Unresolved(s.calls[i]))
  }

  function OriginalArbiter(d: Dispute): Option<Id> {
    if d.appeal.Some? then d.appeal.value.originalArbiter else None
  }

  predicate Legal(s: State, run: seq<Action>)
    decreases |run|
  {
    run == [] || (Enabled(s, run[0]) && Legal(Apply(s, run[0]), run[1..]))
  }

  predicate TimelyRun(s: State, run: seq<Action>)
    requires Legal(s, run)
    decreases |run|
  {
    run == [] || (Timely(s, run[0]) && TimelyRun(Apply(s, run[0]), run[1..]))
  }

  function Exec(s: State, run: seq<Action>): State
    requires Legal(s, run)
    decreases |run|
  {
    if run == [] then s else Exec(Apply(s, run[0]), run[1..])
  }

  // ------------------------------------------------------------- the invariant

  predicate FinalAndDue(d: Dispute, clock: int) {
    && d.isFinal && !AppealOpen(d) && d.outcome.Some?
    && d.appealDeadline.Some? && d.appealDeadline.value <= clock
  }

  predicate Sound(r: Resolution) {
    FinalAndDue(r.row, r.at) && r.row.outcome == Some(if r.approved then Release else Refund)
  }

  /** What holds of the row by itself. */
  ghost predicate RowInv(d: Dispute, clock: int) {
    && d.fundsLocked == d.releasedAt.None?
    && (!d.isFinal ==> d.releasedAt.None? && d.status != Closed)
    && (Active(d) ==> !d.isFinal)
    && (d.status == Resolved ==> d.outcome.Some? && d.appealDeadline.Some?)
    && (d.isFinal && d.releasedAt.None? ==> FinalAndDue(d, clock))
    && (AppealOpen(d) && d.releasedAt.None? ==> Active(d))
    && (d.appeal.Some? <==> d.stage == AppealReview)
    && (d.stage == AppealReview && (d.status == Resolved || !AppealOpen(d)) ==> d.isFinal)
    && (Active(d) && d.stage != AppealReview ==> d.outcome.None?)
    && (d.stage == ArbiterReview ==> d.arbiter.Some?)
    && (d.stage == AppealReview && d.appeal.value.originalArbiter.Some? ==>
          d.arbiter != d.appeal.value.originalArbiter && d.appeal.value.arbiter != d.appeal.value.originalArbiter)
  }

  /** What holds between the row and the log of on-chain resolutions. */
  ghost predicate ChainInv(d: Dispute, chain: seq<Resolution>) {
    && |chain| <= 1
    && (chain != [] ==>
          && Sound(chain[0])
          && d.outcome == Some(if chain[0].approved then Release else Refund)
          && !AppealOpen(d) && d.isFinal
          && (d.releasedAt.None? ==> d.status == Closed))
  }

  predicate InFlight(c: Call) { Unresolved(c) || c.ToMark? || c.ToRelease? }

  /** The row as a settlement in progress left it. */
  ghost predicate Claimed(d: Dispute, clock: int) {
    FinalAndDue(d, clock) && (d.releasedAt.None? ==> d.status == Closed) && !Active(d)
  }

  ghost predicate CallInv(d: Dispute, clock: int, chain: seq<Resolution>, c: Call) {
    match c
    case Assigning(_, _) => true
    case Overriding(snap, arbiter) =>
      && Active(snap) && Rank(snap.stage) <= Rank(d.stage)
      && (snap.stage == AppealReview ==>
            (snap.appeal.Some? && d.appeal.Some? &&
             snap.appeal.value.originalArbiter == d.appeal.value.originalArbiter))
    case Deciding(_, _, _) => true
    case Appealing(snap, pick, _) =>
      && snap.outcome.Some?
      && (pick.Some? ==> snap.arbiter != pick)
      && (d.isFinal || d.stage == AppealReview ||
          (d.status == Resolved && d.arbiter == snap.arbiter && d.outcome == snap.outcome))
    case Judging(snap, _, _) => d.stage == AppealReview == snap.stage && d.deadline == snap.deadline
    case Finalizing(now) => now <= clock && (d.isFinal || d.stage == AppealReview || Expired(d, now))
    case ToRead => Claimed(d, clock) && chain == []
    case ToResolve(approved) =>
      Claimed(d, clock) && chain == [] && d.outcome == Some(if approved then Release else Refund)
    case ToMark => Claimed(d, clock) && chain != []
    case ToRelease => Claimed(d, clock) && chain != []
    case _ => true
  }

  ghost predicate OneSettler(calls: seq<Call>) {
    forall i, j | 0 <= i < j < |calls| :: !(InFlight(calls[i]) && InFlight(calls[j]))
  }

  /** A closed, unreleased row has its settlement. */
  ghost predicate ClaimHeld(s: State) {
    s.d.status == Closed && s.d.releasedAt.None? ==> exists i :: 0 <= i < |s.calls| && InFlight(s.calls[i])
  }

  ghost predicate Inv(s: State) {
    && RowInv(s.d, s.clock)
    && ChainInv(s.d, s.chain)
    && (forall i | 0 <= i < |s.calls| :: CallInv(s.d, s.clock, s.chain, s.calls[i]))
    && OneSettler(s.calls) && ClaimHeld(s)
  }

  // ------------------------------------------- how a timely step moves the row

  /** What no step undoes. */
  ghost predicate Evolves(d: Dispute, d': Dispute) {
    && Rank(d.stage) <= Rank(d'.stage)
    && (d.stage == AppealReview ==> d'.deadline == d.deadline)
    && (d.appeal.Some? ==> d'.appeal.Some? && d'.appeal.value.originalArbiter == d.appeal.value.originalArbiter
                           && d'.appeal.value.originalOutcome == d.appeal.value.originalOutcome)
    && (d.isFinal ==> d'.isFinal)
    && (d.releasedAt.Some? ==> d'.releasedAt.Some?)
    && (d.outcome.Some? && d.stage != AppealReview ==> d'.stage == AppealReview || d'.outcome == d.outcome)
    && (d.status == Resolved && !d.isFinal && d.stage != AppealReview ==>
          d'.isFinal || d'.stage == AppealReview ||
          (d'.status == Resolved && d'.arbiter == d.arbiter && d'.outcome == d.outcome
           && d'.appealDeadline == d.appealDeadline))
  }

  /** The row seen by calls other than the mover, when the mover is not a settlement in progress. */
  ghost predicate LeavesClaims(d: Dispute, d': Dispute, clock: int) {
    Claimed(d, clock) ==> d' == d || d' == MarkSettled(d, clock)
  }

  lemma AssignKeepsRow(d: Dispute, clock: int, pick: Id, deadline: int)
    requires RowInv(d, clock) && (d.arbiter.None? && !d.manual ==> Active(d) && d.stage == Assignment)
    ensures var d' := AssignWrite(d, pick, deadline); RowInv(d', clock) && Evolves(d, d') && LeavesClaims(d, d', clock)
  {
  }

  lemma OverrideKeepsRow(d: Dispute, clock: int, snap: Dispute, arbiter: Id, deadline: int)
    requires RowInv(d, clock) && CallInv(d, clock, [], Overriding(snap, arbiter))
    requires OverrideSkips(snap, arbiter) || OverrideFits(d, snap, arbiter)
    ensures var d' := OverrideWrite(d, snap, arbiter, deadline);
      RowInv(d', clock) && Evolves(d, d') && LeavesClaims(d, d', clock)
  {
  }

  lemma DecideKeepsRow(d: Dispute, clock: int, snap: Dispute, outcome: Direction, now: int, window: int)
    requires RowInv(d, clock) && now <= clock && (Active(d) ==> d.stage != AppealReview)
    ensures var d' := DecideWrite(d, snap, outcome, now, window);
      RowInv(d', clock) && Evolves(d, d') && LeavesClaims(d, d', clock)
  {
  }

  lemma AppealKeepsRow(d: Dispute, clock: int, snap: Dispute, pick: Option<Id>, now: int, deadline: int)
    requires RowInv(d, clock) && CallInv(d, clock, [], Appealing(snap, pick, now))
    ensures var d' := AppealWrite(d, snap, pick, now, deadline);
      RowInv(d', clock) && Evolves(d, d') && LeavesClaims(d, d', clock)
  {
  }

  lemma JudgeKeepsRow(d: Dispute, clock: int, snap: Dispute, outcome: Direction, now: int)
    requires RowInv(d, clock) && now <= clock
    ensures var d' := JudgeWrite(d, snap, outcome, now);
      RowInv(d', clock) && Evolves(d, d') && LeavesClaims(d, d', clock)
  {
  }

  lemma FinalizeKeepsRow(d: Dispute, clock: int, now: int)
    requires RowInv(d, clock) && now <= clock
    ensures var d' := FinalizeWrite(d, now); RowInv(d', clock) && Evolves(d, d') && LeavesClaims(d, d', clock)
  {
  }

  /** Claim, roll back and release, as far as the row alone is concerned. */
  lemma SettleKeepsRow(d: Dispute, clock: int)
    requires RowInv(d, clock)
    ensures RowInv(Claim(d), clock) && Evolves(d, Claim(d)) && LeavesClaims(d, Claim(d), clock)
    ensures Claimable(d) ==> Claimed(Claim(d), clock)
    ensures Claimed(d, clock) ==> RowInv(Unclaim(d), clock) && Evolves(d, Unclaim(d))
    ensures Claimed(d, clock) ==> RowInv(MarkReleased(d, clock), clock) && Evolves(d, MarkReleased(d, clock))
    ensures RowInv(MarkSettled(d, clock), clock) && Evolves(d, MarkSettled(d, clock))
  {
  }

  predicate Judges(c: Call) { c.Deciding? || c.Appealing? || c.Judging? }

  lemma JudgmentKeepsRow(s: State, i: nat, deadline: int, ok: bool, now: int)
    requires i < |s.calls| && RowInv(s.d, s.clock) && CallInv(s.d, s.clock, s.chain, s.calls[i])
    requires Enabled(s, Fire(i, deadline, ok, now)) && Fits(s.d, s.calls[i])
    requires Judges(s.calls[i])
    ensures var d' := Written(s, s.calls[i], deadline, ok, now);
      RowInv(d', s.clock) && Evolves(s.d, d') && LeavesClaims(s.d, d', s.clock)
  {
    match s.calls[i] {
      case Deciding(snap, outcome, _) => DecideKeepsRow(s.d, s.clock, snap, outcome, now, s.window);
      case Appealing(snap, pick, at) => AppealKeepsRow(s.d, s.clock, snap, pick, at, deadline);
      case Judging(snap, outcome, _) => JudgeKeepsRow(s.d, s.clock, snap, outcome, now);
    }
  }

  lemma ServiceWriteKeepsRow(s: State, i: nat, deadline: int, ok: bool, now: int)
    requires i < |s.calls| && RowInv(s.d, s.clock) && CallInv(s.d, s.clock, s.chain, s.calls[i])
    requires Enabled(s, Fire(i, deadline, ok, now)) && Fits(s.d, s.calls[i])
    requires !InFlight(s.calls[i]) && !s.calls[i].ToClaim? && !Judges(s.calls[i])
    ensures var d' := Written(s, s.calls[i], deadline, ok, now);
      RowInv(d', s.clock) && Evolves(s.d, d') && LeavesClaims(s.d, d', s.clock)
  {
    match s.calls[i] {
      case Assigning(_, pick) => AssignKeepsRow(s.d, s.clock, pick, deadline);
      case Overriding(snap, arbiter) => OverrideKeepsRow(s.d, s.clock, snap, arbiter, deadline);
      case Finalizing(at) => FinalizeKeepsRow(s.d, s.clock, at);
      case Closing => SettleKeepsRow(s.d, s.clock);
      case _ =>
    }
  }

  lemma WriteKeepsRow(s: State, i: nat, deadline: int, ok: bool, now: int)
    requires i < |s.calls| && RowInv(s.d, s.clock) && CallInv(s.d, s.clock, s.chain, s.calls[i])
    requires Enabled(s, Fire(i, deadline, ok, now)) && Fits(s.d, s.calls[i])
    ensures var d' := Written(s, s.calls[i], deadline, ok, now);
      && RowInv(d', s.clock) && Evolves(s.d, d')
      && (!InFlight(s.calls[i]) ==> LeavesClaims(s.d, d', s.clock))
  {
    if InFlight(s.calls[i]) || s.calls[i].ToClaim? {
      SettleKeepsRow(s.d, s.clock);
    } else if Judges(s.calls[i]) {
      JudgmentKeepsRow(s, i, deadline, ok, now);
    } else {
      ServiceWriteKeepsRow(s, i, deadline, ok, now);
    }
  }

  /** A call keeps its footing while others move, as long as at most one of them is settling. */
  lemma CallFrame(d: Dispute, d': Dispute, clock: int, clock': int, chain: seq<Resolution>, c: Call)
    requires CallInv(d, clock, chain, c) && RowInv(d, clock) && RowInv(d', clock')
    requires Evolves(d, d') && clock <= clock'
    requires InFlight(c) ==> d' == d || d' == MarkSettled(d, clock)
    ensures CallInv(d', clock', chain, c)
  {
  }

  /** Other calls, when the mover logs a resolution. */
  lemma CallFrameChain(d: Dispute, clock: int, chain: seq<Resolution>, chain': seq<Resolution>, c: Call)
    requires CallInv(d, clock, chain, c) && !InFlight(c)
    ensures CallInv(d, clock, chain', c)
  {
  }

  /** A call that resolves on chain logs its resolution and leaves the row. */
  lemma ResolutionKept(s: State, i: nat, deadline: int, now: int)
    requires Inv(s) && Enabled(s, Fire(i, deadline, true, now)) && Timely(s, Fire(i, deadline, true, now))
    requires Resolves(s.calls[i])
    ensures var s' := Apply(s, Fire(i, deadline, true, now)); ChainInv(s'.d, s'.chain)
  {
    assert CallInv(s.d, s.clock, s.chain, s.calls[i]);
  }

  lemma ChainKept(s: State, i: nat, deadline: int, ok: bool, now: int)
    requires Inv(s) && Enabled(s, Fire(i, deadline, ok, now)) && Timely(s, Fire(i, deadline, ok, now))
    ensures var s' := Apply(s, Fire(i, deadline, ok, now)); ChainInv(s'.d, s'.chain)
  {
    var c := s.calls[i];
    assert CallInv(s.d, s.clock, s.chain, c);
    if Resolves(c) && ok {
      ResolutionKept(s, i, deadline, now);
    } else {
      WriteKeepsRow(s, i, deadline, ok, now);
      if s.chain != [] && !InFlight(c) {
        assert s.d.releasedAt.None? ==> Claimed(s.d, s.clock);
      }
    }
  }

  lemma FireKeepsInv(s: State, i: nat, deadline: int, ok: bool, now: int)
    requires Inv(s) && Enabled(s, Fire(i, deadline, ok, now)) && Timely(s, Fire(i, deadline, ok, now))
    ensures Inv(Apply(s, Fire(i, deadline, ok, now)))
  {
    var s' := Apply(s, Fire(i, deadline, ok, now));
    var c := s.calls[i];
    assert CallInv(s.d, s.clock, s.chain, c);
    WriteKeepsRow(s, i, deadline, ok, now);
    ChainKept(s, i, deadline, ok, now);
    MoverCallKept(s, i, deadline, ok, now);
    OneSettlerKept(s, i, deadline, ok, now);
    ClaimHeldKept(s, i, deadline, ok, now);
    forall j | 0 <= j < |s'.calls| ensures CallInv(s'.d, s'.clock, s'.chain, s'.calls[j]) {
      if j != i {
        assert CallInv(s.d, s.clock, s.chain, s.calls[j]);
        assert !(InFlight(s.calls[i]) && InFlight(s.calls[j]));
        CallFrame(s.d, s'.d, s.clock, s'.clock, s.chain, s.calls[j]);
        if s'.chain != s.chain { CallFrameChain(s'.d, s'.clock, s.chain, s'.chain, s.calls[j]); }
      }
    }
  }

  lemma TwoDirections(outcome: Option<Direction>)
    requires outcome.Some?
    ensures outcome == Some(Release) || outcome == Some(Refund)
  {
    match outcome.value { case Release => case Refund => }
  }

  lemma SettlerCallKept(s: State, i: nat, deadline: int, ok: bool, now: int)
    requires Inv(s) && Enabled(s, Fire(i, deadline, ok, now)) && (InFlight(s.calls[i]) || s.calls[i].ToClaim?)
    ensures var s' := Apply(s, Fire(i, deadline, ok, now)); CallInv(s'.d, s'.clock, s'.chain, s'.calls[i])
  {
    assert CallInv(s.d, s.clock, s.chain, s.calls[i]);
    match s.calls[i] {
      case ToClaim => SettleKeepsRow(s.d, s.clock); ClaimKeepsChain(s);
      case ToRead => TwoDirections(s.d.outcome);
      case _ =>
    }
  }

  lemma MoverCallKept(s: State, i: nat, deadline: int, ok: bool, now: int)
    requires Inv(s) && Enabled(s, Fire(i, deadline, ok, now))
    ensures var s' := Apply(s, Fire(i, deadline, ok, now)); CallInv(s'.d, s'.clock, s'.chain, s'.calls[i])
  {
    if InFlight(s.calls[i]) || s.calls[i].ToClaim? {
      SettlerCallKept(s, i, deadline, ok, now);
    }
  }

  /** What can be claimed has not been resolved. */
  lemma ClaimKeepsChain(s: State)
    requires Inv(s)
    ensures Claimable(s.d) ==> s.chain == []
  {
  }

  /** A claim succeeds only while no settlement is in progress. */
  lemma OneSettlerKept(s: State, i: nat, deadline: int, ok: bool, now: int)
    requires Inv(s) && Enabled(s, Fire(i, deadline, ok, now))
    ensures OneSettler(Apply(s, Fire(i, deadline, ok, now)).calls)
  {
    if s.calls[i].ToClaim? && Claimable(s.d) {
      forall j | 0 <= j < |s.calls| ensures !InFlight(s.calls[j]) {
        assert CallInv(s.d, s.clock, s.chain, s.calls[j]);
      }
    }
  }

  /** A settlement gives its claim up by rolling it back or by releasing; a claim begins one. */
  lemma ClaimHeldKept(s: State, i: nat, deadline: int, ok: bool, now: int)
    requires Inv(s) && Enabled(s, Fire(i, deadline, ok, now)) && Fits(s.d, s.calls[i])
    ensures ClaimHeld(Apply(s, Fire(i, deadline, ok, now)))
  {
    var s' := Apply(s, Fire(i, deadline, ok, now));
    assert CallInv(s.d, s.clock, s.chain, s.calls[i]);
    if s'.d.status == Closed && s'.d.releasedAt.None? {
      if InFlight(s.calls[i]) || s.calls[i].ToClaim? {
        if s.d.status == Closed && !InFlight(s.calls[i]) {
          var j :| 0 <= j < |s.calls| && InFlight(s.calls[j]);
          assert InFlight(s'.calls[j]);
        } else {
          assert InFlight(s'.calls[i]);
        }
      } else {
        var j :| 0 <= j < |s.calls| && InFlight(s.calls[j]);
        assert InFlight(s'.calls[j]);
      }
    }
  }

  lemma OtherKeepsInv(s: State, a: Action)
    requires Inv(s) && Enabled(s, a) && !a.Fire?
    ensures Inv(Apply(s, a))
  {
    var s' := Apply(s, a);
    SettleKeepsRow(s.d, s.clock);
    forall j | 0 <= j < |s.calls| ensures CallInv(s'.d, s'.clock, s'.chain, s.calls[j]) {
      assert CallInv(s.d, s.clock, s.chain, s.calls[j]);
      CallFrame(s.d, s'.d, s.clock, s'.clock, s.chain, s.calls[j]);
    }
    if s.d.status == Closed && s.d.releasedAt.None? {
      var j :| 0 <= j < |s.calls| && InFlight(s.calls[j]);
      assert s'.calls[j] == s.calls[j];
    }
  }

  lemma StepKeepsInv(s: State, a: Action)
    requires Inv(s) && Enabled(s, a) && Timely(s, a)
    ensures Inv(Apply(s, a)) && Evolves(s.d, Apply(s, a).d)
  {
    if a.Fire? {
      FireKeepsInv(s, a.i, a.deadline, a.ok, a.now);
      WriteKeepsRow(s, a.i, a.deadline, a.ok, a.now);
    } else {
      OtherKeepsInv(s, a);
    }
  }

  lemma {:induction false} RunKeepsInv(s: State, run: seq<Action>)
    requires Inv(s) && Legal(s, run) && TimelyRun(s, run)
    ensures Inv(Exec(s, run)) && Evolves(s.d, Exec(s, run).d)
    decreases |run|
  {
    if run != [] {
      StepKeepsInv(s, run[0]);
      RunKeepsInv(Apply(s, run[0]), run[1..]);
    }
  }

  // ---------------------------------------------------------- reachable states

  /** Some run leads from s to t. */
  ghost predicate Leads(s: State, t: State) {
    exists run :: Legal(s, run) && Exec(s, run) == t
  }

  /** Some run whose stale writes all land in time leads from a fresh dispute to t. */
  ghost predicate Reachable(t: State) {
    exists deadline, clock, window, run :: LeadsInTime(Initial(deadline, clock, window), run, t)
  }

  ghost predicate LeadsInTime(s: State, run: seq<Action>, t: State) {
    Legal(s, run) && TimelyRun(s, run) && Exec(s, run) == t
  }

  lemma ReachableInv(t: State)
    requires Reachable(t)
    ensures Inv(t)
  {
    var deadline, clock, window, run :| LeadsInTime(Initial(deadline, clock, window), run, t);
    RunKeepsInv(Initial(deadline, clock, window), run);
  }

  /** Some timely run leads from s to t. */
  ghost predicate Onward(s: State, t: State) {
    exists run :: LeadsInTime(s, run, t)
  }

  lemma StartOnward(s: State)
    ensures Onward(s, s)
  {
    assert LeadsInTime(s, [], s);
  }

  /** One more timely step. */
  lemma Go(s: State, t: State, a: Action) returns (u: State)
    requires Onward(s, t) && Enabled(t, a) && Timely(t, a)
    ensures u == Apply(t, a) && Onward(s, u)
  {
    var run :| LeadsInTime(s, run, t);
    ExtendInTime(s, run, a);
    u := Apply(t, a);
    assert LeadsInTime(s, run + [a], u);
  }

  lemma ContinueInTime(t: State, a: Action) returns (u: State)
    requires Reachable(t) && Enabled(t, a) && Timely(t, a)
    ensures u == Apply(t, a) && Reachable(u)
  {
    var deadline, clock, window, run :| LeadsInTime(Initial(deadline, clock, window), run, t);
    ExtendInTime(Initial(deadline, clock, window), run, a);
    u := Apply(t, a);
    assert LeadsInTime(Initial(deadline, clock, window), run + [a], u);
  }

  lemma {:induction false} ExtendInTime(s: State, run: seq<Action>, a: Action)
    requires Legal(s, run) && TimelyRun(s, run) && Enabled(Exec(s, run), a) && Timely(Exec(s, run), a)
    ensures LeadsInTime(s, run + [a], Apply(Exec(s, run), a))
    decreases |run|
  {
    if run == [] {
      assert run + [a] == [a] && [a][1..] == [];
    } else {
      assert (run + [a])[1..] == run[1..] + [a];
      ExtendInTime(Apply(s, run[0]), run[1..], a);
    }
  }

  lemma InitialIsReachable(deadline: int, clock: int, window: int)
    ensures Reachable(Initial(deadline, clock, window))
  {
    assert LeadsInTime(Initial(deadline, clock, window), [], Initial(deadline, clock, window));
  }

  lemma Continue(s: State, t: State, a: Action) returns (u: State)
    requires Leads(s, t) && Enabled(t, a)
    ensures u == Apply(t, a) && Leads(s, u)
  {
    var run :| Legal(s, run) && Exec(s, run) == t;
    Extend(s, run, a);
    u := Apply(t, a);
  }

  lemma {:induction false} Extend(s: State, run: seq<Action>, a: Action)
    requires Legal(s, run) && Enabled(Exec(s, run), a)
    ensures Legal(s, run + [a]) && Exec(s, run + [a]) == Apply(Exec(s, run), a)
    decreases |run|
  {
    if run == [] {
      assert run + [a] == [a] && [a][1..] == [];
    } else {
      assert (run + [a])[1..] == run[1..] + [a];
      Extend(Apply(s, run[0]), run[1..], a);
    }
  }
}
