/**
 The dispute row, its appeal, and every write the dispute services make to them.
 Times are integers; `deadline` is the SLA response deadline of the current stage.
 */
module Disputes {
  import opened Options

  type Id = nat

  datatype Status = Open | UnderReview | Resolved | Closed
  datatype Stage = Assignment | ArbiterReview | AppealReview
  datatype Sla = OnTrack | Overdue | Met
  datatype Direction = Release | Refund

  datatype Appeal = Appeal(originalArbiter: Option<Id>, arbiter: Option<Id>, originalOutcome: Direction,
                           open: bool, outcome: Option<Direction>)

  datatype Dispute = Dispute(status: Status, stage: Stage, arbiter: Option<Id>, manual: bool,
                             deadline: int, sla: Sla, escalatedAt: Option<int>,
                             outcome: Option<Direction>, resolvedAt: Option<int>, appealDeadline: Option<int>,
                             fundsLocked: bool, releasedAt: Option<int>, isFinal: bool, appeal: Option<Appeal>)

  predicate Active(d: Dispute) { d.status == Open || d.status == UnderReview }

  predicate AppealOpen(d: Dispute) { d.appeal.Some? && d.appeal.value.open }

  function Rank(stage: Stage): nat {
    match stage case Assignment => 0 case ArbiterReview => 1 case AppealReview => 2
  }

  /** A dispute as openForMilestone creates it. */
  function Opened(deadline: int): Dispute {
    Dispute(Open, Assignment, None, false, deadline, OnTrack, None, None, None, None, true, None, false, None)
  }

  // ------------------------------------------------------------------ SLA fields

  function EnterStage(d: Dispute, stage: Stage, deadline: int): Dispute {
    d.(stage := stage, deadline := deadline, sla := OnTrack, escalatedAt := None)
  }

  function CompletionStatus(d: Dispute, at: int): Sla {
    if d.sla == Overdue || at > d.deadline then Overdue else Met
  }

  predicate Flaggable(d: Dispute) { d.sla == OnTrack && Active(d) }

  /** The escalation job's conditional update. */
  function Flag(d: Dispute, now: int): Dispute {
    if Flaggable(d) then d.(sla := Overdue, escalatedAt := Some(now)) else d
  }

  // ------------------------------------------------- writes; `snap` is the row read

  /** autoAssign: guarded on the arbiter, not on the status. */
  function AssignWrite(d: Dispute, pick: Id, deadline: int): Dispute {
    if d.arbiter.None? && !d.manual then
      EnterStage(d.(arbiter := Some(pick), status := UnderReview), ArbiterReview, deadline)
    else d
  }

  /** applyManualOverride leaves an appeal alone when the new arbiter made the original decision. */
  predicate OverrideSkips(snap: Dispute, arbiter: Id) {
    snap.stage == AppealReview && snap.appeal.Some? && snap.appeal.value.originalArbiter == Some(arbiter)
  }

  /** applyManualOverride: an unguarded update of the dispute and, for an appeal, of the appeal. */
  function OverrideWrite(d: Dispute, snap: Dispute, arbiter: Id, deadline: int): Dispute {
    if OverrideSkips(snap, arbiter) then d
    else
      var pinned := d.(arbiter := Some(arbiter), manual := true, status := UnderReview);
      var staged := if snap.stage == Assignment then EnterStage(pinned, ArbiterReview, deadline) else pinned;
      if snap.stage == AppealReview && snap.appeal.Some? && d.appeal.Some?
      then staged.(appeal := Some(d.appeal.value.(arbiter := Some(arbiter)))) else staged
  }

  predicate MayDecide(snap: Dispute) { snap.status != Resolved && snap.stage != AppealReview }

  /** decide: guarded on the status, not on the stage. */
  function DecideWrite(d: Dispute, snap: Dispute, outcome: Direction, now: int, window: int): Dispute {
    if Active(d) then
      d.(status := Resolved, outcome := Some(outcome), resolvedAt := Some(now),
         appealDeadline := Some(now + if window > 0 then window else 0),
         sla := CompletionStatus(snap, now), fundsLocked := true, isFinal := window <= 0)
    else d
  }

  predicate MayAppeal(snap: Dispute, now: int) {
    && snap.appeal.None? && !snap.isFinal && snap.status == Resolved && snap.outcome.Some?
    && snap.appealDeadline.Some? && now <= snap.appealDeadline.value
  }

  /** openAppeal's transaction; an existing appeal row makes its insert fail and rolls it back. */
  function AppealWrite(d: Dispute, snap: Dispute, pick: Option<Id>, now: int, deadline: int): Dispute
    requires snap.outcome.Some?
  {
    if d.status == Resolved && !d.isFinal && d.appealDeadline.Some? && d.appealDeadline.value >= now && d.appeal.None?
    then
      EnterStage(d.(status := if pick.Some? then UnderReview else Open, arbiter := pick, manual := false,
                    fundsLocked := true,
                    appeal := Some(Appeal(snap.arbiter, pick, snap.outcome.value, true, None))),
                 AppealReview, deadline)
    else d
  }

  predicate MayJudge(snap: Dispute) { snap.stage == AppealReview && AppealOpen(snap) }

  /** decideAppeal's transaction: guarded on the appeal, not on the dispute. */
  function JudgeWrite(d: Dispute, snap: Dispute, outcome: Direction, now: int): Dispute {
    if AppealOpen(d) then
      d.(appeal := Some(d.appeal.value.(open := false, outcome := Some(outcome))),
         status := Resolved, outcome := Some(outcome), resolvedAt := Some(now), appealDeadline := Some(now),
         isFinal := true, sla := CompletionStatus(snap, now))
    else d
  }

  predicate Expired(d: Dispute, now: int) {
    d.status == Resolved && d.appealDeadline.Some? && d.appealDeadline.value < now
  }

  /** The appeal-window job's guarded update. */
  function FinalizeWrite(d: Dispute, now: int): Dispute {
    if Expired(d, now) && !d.isFinal then d.(isFinal := true) else d
  }

  predicate Claimable(d: Dispute) { d.status == Resolved && d.isFinal && d.releasedAt.None? }

  /** settle, step by step: claim, then roll the claim back or mark the funds released. */
  function Claim(d: Dispute): Dispute { if Claimable(d) then d.(status := Closed) else d }

  function Unclaim(d: Dispute): Dispute { d.(status := Resolved) }

  function MarkReleased(d: Dispute, now: int): Dispute { d.(fundsLocked := false, releasedAt := Some(now)) }

  /** markSettledOnChain: the milestone was resolved outside this workflow. */
  function MarkSettled(d: Dispute, now: int): Dispute {
    if d.releasedAt.Some? then d
    else d.(status := Closed, isFinal := true, fundsLocked := false, releasedAt := Some(now))
  }
}
