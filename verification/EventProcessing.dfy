/**
 Which events can still be processed, and whose handler can run again: the transaction hash is
 checked in one step, the row found in another and the mark committed in a third, and nothing is
 checked again.
 */
module EventProcessing {
  import opened Options
  import opened Powers
  import opened DeadLetter

  /** In either table, and not processed. */
  ghost predicate Unprocessed(t: Tables, id: string) {
    id in Ids(t) && (id in t.live ==> !t.live[id].processed)
  }

  ghost predicate Processed(t: Tables, id: string) { id in t.live && t.live[id].processed }

  /** One more failure of this candidate dead-letters the event. */
  predicate LastChance(c: Candidate, id: string) { c.id == id && c.event.retryCount + 1 >= MAX_RETRIES }

  /** The job can still move the row to the dead-letter table, processed or not. */
  ghost predicate Departs(s: State, id: string) {
    || (s.moving.Some? && s.moving.value.id == id)
    || (s.held.Some? && LastChance(s.held.value.candidate, id))
    || (exists k :: 0 <= k < |s.pending| && LastChance(s.pending[k], id))
  }

  /** Processed to stay. */
  ghost predicate Keeps(s: State, done: string) { Processed(s.tables, done) && !Departs(s, done) }

  ghost predicate HashStays(s: State, txHash: string) {
    exists i :: Keeps(s, i) && s.tables.live[i].core.txHash == txHash
  }

  /** Some processor has this row before it and only the commit to do. */
  ghost predicate WorkedOn(s: State, id: string) {
    || (exists i :: 0 <= i < |s.others| && s.others[i] == Found(id))
    || (s.held.Some? && s.held.value.phase == At(id))
  }

  /** Some processor beside the job has passed the check for an event like this and has yet to look. */
  ghost predicate SoughtByOthers(s: State, core: Core) {
    exists i :: 0 <= i < |s.others| && s.others[i].Checked? && SameEvent(s.others[i].core, core)
  }

  ghost predicate SoughtByJob(s: State, core: Core) {
    s.held.Some? && s.held.value.phase.PastCheck? && SameEvent(s.held.value.candidate.event.core, core)
  }

  ghost predicate Reached(s: State, id: string)
    requires id in Ids(s.tables)
  {
    WorkedOn(s, id) || SoughtByOthers(s, CoreOf(s.tables, id)) || SoughtByJob(s, CoreOf(s.tables, id))
  }

  lemma StepKeepsKeeper(s: State, a: Action, done: string)
    requires Inv(s) && Enabled(s, a) && Keeps(s, done)
    ensures Keeps(Apply(s, a), done)
    ensures Apply(s, a).tables.live[done].core == s.tables.live[done].core
  {
    var s' := Apply(s, a);
    forall k | 0 <= k < |s'.pending| ensures !LastChance(s'.pending[k], done) {
      if a.TooEarly? || a.Take? {
        assert s'.pending[k] == s.pending[k + 1];
      } else if !a.Start? {
        assert s'.pending[k] == s.pending[k];
      }
    }
    if a.Take? { assert !LastChance(s.pending[0], done); }
  }

  /** Nobody who might process `left` gets past the check while `done` stays. */
  ghost predicate Shut(s: State, done: string, left: string) {
    && Keeps(s, done) && Unprocessed(s.tables, left) && !Reached(s, left)
    && CoreOf(s.tables, left).txHash == s.tables.live[done].core.txHash
  }

  lemma StepKeepsUnreached(s: State, a: Action, done: string, left: string)
    requires Inv(s) && Enabled(s, a) && Shut(s, done, left)
    ensures Unprocessed(Apply(s, a).tables, left) && !WorkedOn(Apply(s, a), left)
  {
    var s' := Apply(s, a);
    if a.Find? { assert s.others[a.i].Checked?; }
    if a.Commit? { assert s.others[a.i] != Found(left); }
    forall i | 0 <= i < |s'.others| ensures s'.others[i] != Found(left) {
      if i < |s.others| { assert s.others[i] != Found(left); }
    }
  }

  lemma StepKeepsUnsought(s: State, a: Action, done: string, left: string)
    requires Inv(s) && Enabled(s, a) && Shut(s, done, left)
    ensures !SoughtByOthers(Apply(s, a), CoreOf(s.tables, left)) && !SoughtByJob(Apply(s, a), CoreOf(s.tables, left))
  {
    var s', core := Apply(s, a), CoreOf(s.tables, left);
    assert HashDone(s.tables.live, core.txHash);
    forall i | 0 <= i < |s'.others| && s'.others[i].Checked? ensures !SameEvent(s'.others[i].core, core) {
      if i < |s.others| { assert s'.others[i] == s.others[i]; }
    }
  }

  lemma StepKeepsShut(s: State, a: Action, done: string, left: string)
    requires Inv(s) && Enabled(s, a) && Shut(s, done, left)
    ensures Shut(Apply(s, a), done, left)
  {
    StepKeepsKeeper(s, a, done);
    StepKeepsCore(s, a, left);
    StepKeepsUnreached(s, a, done, left);
    StepKeepsUnsought(s, a, done, left);
  }

  /** Then no continuation processes it. */
  lemma {:induction false} SiblingIsNeverProcessed(s: State, run: seq<Action>, done: string, left: string)
    requires Inv(s) && Legal(s, run) && Shut(s, done, left)
    ensures Inv(Exec(s, run)) && Shut(Exec(s, run), done, left)
    decreases |run|
  {
    if run != [] {
      var before, a := run[..|run| - 1], run[|run| - 1];
      SiblingIsNeverProcessed(s, before, done, left);
      var m := Exec(s, before);
      StepKeepsCounts(m, a);
      StepKeepsPending(m, a);
      StepKeepsShut(m, a, done, left);
    }
  }

  // ------------------------------------------------------------- letting the job finish

  predicate Idle(s: State) { s.pending == [] && s.held.None? && s.moving.None? }

  function Work(s: State): nat {
    3 * |s.pending| + (if s.held.Some? then 2 else 0) + (if s.moving.Some? then 1 else 0)
  }

  /** A time at which the row may be tried again. */
  function Later(e: Event): (now: int)
    ensures IsEligible(e, now)
  {
    if e.lastErrorAt.None? then 0 else e.lastErrorAt.value + BackoffMs(e.retryCount)
  }

  /** The job's next step, failing whatever it has in hand. */
  function Next(s: State): Action
    requires !Idle(s)
  {
    if s.moving.Some? then Move
    else if s.held.Some? then JobFail(s.held.value.candidate.id, 0, None)
    else Take(Later(s.pending[0].event))
  }

  /** What such a step does: departing rows depart, and nothing is processed. */
  ghost predicate Drained(s: State, t: State) {
    && t.others == s.others
    && (forall i | Departs(s, i) || i in s.tables.dead :: Departs(t, i) || i in t.tables.dead)
    && (forall i | Processed(t.tables, i) :: Processed(s.tables, i))
  }

  lemma NextDrains(s: State)
    requires Inv(s) && !Idle(s)
    ensures Enabled(s, Next(s)) && Drained(s, Apply(s, Next(s))) && Work(Apply(s, Next(s))) < Work(s)
  {
    var t := Apply(s, Next(s));
    forall i | Departs(s, i) ensures Departs(t, i) || i in t.tables.dead {
      if exists k :: 0 <= k < |s.pending| && LastChance(s.pending[k], i) {
        var k :| 0 <= k < |s.pending| && LastChance(s.pending[k], i);
        if Next(s).Take? {
          if k > 0 { assert t.pending[k - 1] == s.pending[k]; }
        } else {
          assert t.pending[k] == s.pending[k];
        }
      }
    }
  }

  lemma {:induction false} Drain(s: State, run: seq<Action>) returns (more: seq<Action>)
    requires Inv(s) && Legal(s, run) && Inv(Exec(s, run)) && Drained(s, Exec(s, run))
    ensures Legal(s, more) && Inv(Exec(s, more)) && Drained(s, Exec(s, more)) && Idle(Exec(s, more))
    decreases Work(Exec(s, run))
  {
    var m := Exec(s, run);
    if Idle(m) {
      more := run;
    } else {
      NextDrains(m);
      StepKeepsCounts(m, Next(m));
      StepKeepsPending(m, Next(m));
      Step(s, run, Next(m));
      more := Drain(s, run + [Next(m)]);
    }
  }

  /** The job finishes and the event is brought back if it was dead-lettered. */
  lemma Prepare(s: State, id: string) returns (run: seq<Action>)
    requires Inv(s) && id in Ids(s.tables)
    ensures Legal(s, run)
    ensures var t := Exec(s, run);
      && t.others == s.others && id in t.tables.live && t.tables.live[id].core == CoreOf(s.tables, id)
      && (Departs(s, id) ==> !t.tables.live[id].processed)
      && (forall i | Processed(t.tables, i) :: Processed(s.tables, i) && !Departs(s, i))
  {
    run := Drain(s, []);
    CoreSurvives(s, run, id);
    var m := Exec(s, run);
    if id in m.tables.dead {
      Step(s, run, Requeue(id));
      run := run + [Requeue(id)];
    }
  }

  lemma NothingStays(s: State, run: seq<Action>, txHash: string)
    requires Inv(s) && Legal(s, run) && !HashStays(s, txHash)
    requires forall i | Processed(Exec(s, run).tables, i) :: Processed(s.tables, i) && !Departs(s, i)
    ensures !HashDone(Exec(s, run).tables.live, txHash)
  {
    var t := Exec(s, run);
    forall i | i in t.tables.live && t.tables.live[i].processed ensures t.tables.live[i].core.txHash != txHash {
      assert Processed(t.tables, i) && Keeps(s, i);
      CoreSurvives(s, run, i);
    }
  }

  // ------------------------------------------------------------- handlers

  /** The step commits the handler's run on this event. */
  predicate RunsHandler(s: State, a: Action, id: string)
    requires Enabled(s, a)
  {
    || (a.Commit? && a.ok && s.others[a.i] == Found(id) && id in s.tables.live)
    || (a.JobCommit? && s.held.value.phase == At(id))
  }

  ghost predicate ProcessedBy(s: State, run: seq<Action>, id: string) {
    Legal(s, run) && Processed(Exec(s, run).tables, id)
  }

  /** Some continuation processes the event. */
  ghost predicate CanProcess(s: State, id: string) { exists run :: ProcessedBy(s, run, id) }

  /** Some continuation runs the handler on this event. */
  ghost predicate CanRun(s: State, id: string) {
    exists run, a :: Legal(s, run) && Enabled(Exec(s, run), a) && RunsHandler(Exec(s, run), a, id)
  }

  lemma Runs(s: State, run: seq<Action>, a: Action, id: string)
    requires Legal(s, run) && Enabled(Exec(s, run), a) && RunsHandler(Exec(s, run), a, id)
    ensures CanRun(s, id)
    ensures ProcessedBy(s, run + [a], id) && CanProcess(s, id)
  {
    Step(s, run, a);
    assert ProcessedBy(s, run + [a], id);
  }

  /** A processor that has yet to look finds the unprocessed row and commits. */
  lemma LookAndCommit(s: State, run: seq<Action>, i: nat, id: string)
    requires Legal(s, run) && i < |Exec(s, run).others| && Exec(s, run).others[i].Checked?
    requires Matches(Exec(s, run).tables.live, Exec(s, run).others[i].core, id)
    requires !Exec(s, run).tables.live[id].processed
    ensures CanRun(s, id) && CanProcess(s, id)
  {
    Step(s, run, Find(i, id));
    Runs(s, run + [Find(i, id)], Commit(i, true), id);
  }

  /** A fresh processor passes the check, looks and commits. */
  lemma CheckAndCommit(s: State, run: seq<Action>, id: string)
    requires Legal(s, run) && id in Exec(s, run).tables.live
    requires !HashDone(Exec(s, run).tables.live, Exec(s, run).tables.live[id].core.txHash)
    ensures CanRun(s, id) && CanProcess(s, id)
  {
    var t := Exec(s, run);
    var core := t.tables.live[id].core;
    Step(s, run, Check(core));
    LookAndCommit(s, run + [Check(core)], |t.others|, id);
  }

  /** A dead-lettered event is brought back; nothing else changes. */
  lemma Bring(s: State, id: string) returns (run: seq<Action>)
    requires Inv(s) && Unprocessed(s.tables, id)
    ensures Legal(s, run)
    ensures var t := Exec(s, run);
      && t.others == s.others && t.held == s.held
      && id in t.tables.live && !t.tables.live[id].processed && t.tables.live[id].core == CoreOf(s.tables, id)
  {
    run := [];
    if id in s.tables.dead {
      Step(s, run, Requeue(id));
      run := run + [Requeue(id)];
    }
  }

  lemma ReachedIsProcessed(s: State, left: string)
    requires Inv(s) && Unprocessed(s.tables, left) && Reached(s, left)
    ensures CanProcess(s, left)
  {
    var run := Bring(s, left);
    var core := CoreOf(s.tables, left);
    if exists i :: 0 <= i < |s.others| && s.others[i] == Found(left) {
      var i :| 0 <= i < |s.others| && s.others[i] == Found(left);
      Runs(s, run, Commit(i, true), left);
    } else if SoughtByOthers(s, core) {
      var i :| 0 <= i < |s.others| && s.others[i].Checked? && SameEvent(s.others[i].core, core);
      LookAndCommit(s, run, i, left);
    } else {
      JobReaches(s, run, left);
    }
  }

  lemma JobReaches(s: State, run: seq<Action>, left: string)
    requires Legal(s, run) && left in Exec(s, run).tables.live && !Exec(s, run).tables.live[left].processed
    requires var t := Exec(s, run);
      t.held.Some? && (t.held.value.phase == At(left) || SoughtByJob(t, t.tables.live[left].core))
    ensures CanProcess(s, left)
  {
    if Exec(s, run).held.value.phase == At(left) {
      Runs(s, run, JobCommit, left);
    } else {
      Step(s, run, JobFind(left));
      Runs(s, run + [JobFind(left)], JobCommit, left);
    }
  }

  /**
   An event can still be processed exactly when no event of its transaction is processed to stay, or
   some processor has passed the check of the hash before that and has this event within reach.
   */
  lemma CanBeProcessedIff(s: State, left: string)
    requires Inv(s) && Unprocessed(s.tables, left)
    ensures CanProcess(s, left) <==> !HashStays(s, CoreOf(s.tables, left).txHash) || Reached(s, left)
  {
    var hash := CoreOf(s.tables, left).txHash;
    if Reached(s, left) {
      ReachedIsProcessed(s, left);
    } else if HashStays(s, hash) {
      var done :| Keeps(s, done) && s.tables.live[done].core.txHash == hash;
      forall run | Legal(s, run) ensures !ProcessedBy(s, run, left) {
        SiblingIsNeverProcessed(s, run, done, left);
      }
    } else {
      var run := Prepare(s, left);
      NothingStays(s, run, hash);
      CheckAndCommit(s, run, left);
    }
  }

  /** A stranded event is out of the job's reach, but processed all the same under just that condition. */
  lemma StrandedIsProcessedIff(s: State, id: string)
    requires Inv(s) && Stranded(s, id) && !s.tables.live[id].processed
    ensures (exists run :: ProcessedBy(s, run, id) && Stranded(Exec(s, run), id))
            <==> !HashStays(s, s.tables.live[id].core.txHash) || Reached(s, id)
  {
    CanBeProcessedIff(s, id);
    forall run | ProcessedBy(s, run, id) ensures Stranded(Exec(s, run), id) {
      StrandedForGood(s, run, id);
    }
  }

  // ------------------------------------------------------------- running twice

  /** Processed to stay, and nobody has it before them. */
  ghost predicate DoneOnce(s: State, id: string) { Keeps(s, id) && !WorkedOn(s, id) }

  lemma StepKeepsDoneOnce(s: State, a: Action, id: string)
    requires Inv(s) && Enabled(s, a) && DoneOnce(s, id)
    ensures DoneOnce(Apply(s, a), id) && !RunsHandler(s, a, id)
  {
    StepKeepsKeeper(s, a, id);
    var s' := Apply(s, a);
    forall i | 0 <= i < |s'.others| ensures s'.others[i] != Found(id) {
      if i < |s.others| { assert s.others[i] != Found(id); }
    }
  }

  /** On its way out or back, with another event of its transaction processed to stay and nobody looking. */
  ghost predicate ShutOut(s: State, done: string, id: string) {
    && Keeps(s, done) && id in Ids(s.tables) && !WorkedOn(s, id)
    && CoreOf(s.tables, id).txHash == s.tables.live[done].core.txHash
    && !SoughtByOthers(s, CoreOf(s.tables, id))
    && (SoughtByJob(s, CoreOf(s.tables, id)) ==> Processed(s.tables, id))
  }

  lemma StepKeepsShutOut(s: State, a: Action, done: string, id: string)
    requires Inv(s) && Enabled(s, a) && ShutOut(s, done, id)
    ensures ShutOut(Apply(s, a), done, id) && !RunsHandler(s, a, id)
  {
    var s', core := Apply(s, a), CoreOf(s.tables, id);
    assert HashDone(s.tables.live, core.txHash);
    StepKeepsKeeper(s, a, done);
    StepKeepsCore(s, a, id);
    forall i | 0 <= i < |s'.others|
      ensures s'.others[i] != Found(id) && (s'.others[i].Checked? ==> !SameEvent(s'.others[i].core, core))
    {
      if i < |s.others| { assert s.others[i] != Found(id); }
    }
  }

  lemma {:induction false} NeverAgain(s: State, run: seq<Action>, id: string)
    requires Inv(s) && Legal(s, run) && DoneOnce(s, id)
    ensures Inv(Exec(s, run)) && DoneOnce(Exec(s, run), id)
    decreases |run|
  {
    if run != [] {
      var before, a := run[..|run| - 1], run[|run| - 1];
      NeverAgain(s, before, id);
      StepKeepsCounts(Exec(s, before), a);
      StepKeepsPending(Exec(s, before), a);
      StepKeepsDoneOnce(Exec(s, before), a, id);
    }
  }

  lemma {:induction false} NeverWhileShutOut(s: State, run: seq<Action>, done: string, id: string)
    requires Inv(s) && Legal(s, run) && ShutOut(s, done, id)
    ensures Inv(Exec(s, run)) && ShutOut(Exec(s, run), done, id)
    decreases |run|
  {
    if run != [] {
      var before, a := run[..|run| - 1], run[|run| - 1];
      NeverWhileShutOut(s, before, done, id);
      StepKeepsCounts(Exec(s, before), a);
      StepKeepsPending(Exec(s, before), a);
      StepKeepsShutOut(Exec(s, before), a, done, id);
    }
  }

  /** The condition for a second run, once an event is processed. */
  ghost predicate Again(s: State, id: string)
    requires Processed(s.tables, id)
  {
    var core := s.tables.live[id].core;
    WorkedOn(s, id) || (Departs(s, id) && (!HashStays(s, core.txHash) || SoughtByOthers(s, core)))
  }

  lemma AgainRuns(s: State, id: string)
    requires Inv(s) && Processed(s.tables, id) && Again(s, id)
    ensures CanRun(s, id)
  {
    var core := s.tables.live[id].core;
    if WorkedOn(s, id) {
      if exists i :: 0 <= i < |s.others| && s.others[i] == Found(id) {
        var i :| 0 <= i < |s.others| && s.others[i] == Found(id);
        Runs(s, [], Commit(i, true), id);
      } else {
        Runs(s, [], JobCommit, id);
      }
    } else {
      var run := Prepare(s, id);
      if SoughtByOthers(s, core) {
        var i :| 0 <= i < |s.others| && s.others[i].Checked? && SameEvent(s.others[i].core, core);
        LookAndCommit(s, run, i, id);
      } else {
        NothingStays(s, run, core.txHash);
        CheckAndCommit(s, run, id);
      }
    }
  }

  /**
   A handler that has run on an event can run on it again exactly when some processor has it before it
   already, or the job can still dead-letter it, so that a requeue brings it back unprocessed, and either
   nothing of its transaction is processed to stay or some processor is past the check for it.
   */
  lemma RunsTwiceIff(s: State, id: string)
    requires Inv(s) && Processed(s.tables, id)
    ensures CanRun(s, id) <==> Again(s, id)
  {
    var hash := s.tables.live[id].core.txHash;
    if Again(s, id) {
      AgainRuns(s, id);
    } else if !Departs(s, id) {
      forall run, a | Legal(s, run) && Enabled(Exec(s, run), a) ensures !RunsHandler(Exec(s, run), a, id) {
        NeverAgain(s, run, id);
        StepKeepsDoneOnce(Exec(s, run), a, id);
      }
    } else {
      var done :| Keeps(s, done) && s.tables.live[done].core.txHash == hash;
      forall run, a | Legal(s, run) && Enabled(Exec(s, run), a) ensures !RunsHandler(Exec(s, run), a, id) {
        NeverWhileShutOut(s, run, done, id);
        StepKeepsShutOut(Exec(s, run), a, done, id);
      }
    }
  }

  // ------------------------------------------------------------- attempts

  /** An event becomes processed by a run of its handler and in no other way. */
  lemma {:induction false} ProcessedByHandler(s: State, run: seq<Action>, id: string)
    requires Inv(s) && Legal(s, run) && Unprocessed(s.tables, id) && Processed(Exec(s, run).tables, id)
    ensures CanRun(s, id)
    decreases |run|
  {
    var before, a := run[..|run| - 1], run[|run| - 1];
    if Processed(Exec(s, before).tables, id) {
      ProcessedByHandler(s, before, id);
    } else {
      CoreSurvives(s, before, id);
      assert RunsHandler(Exec(s, before), a, id);
    }
  }

  /** Some continuation has a processor begin the handler on this event, whatever comes of it. */
  ghost predicate CanBegin(s: State, id: string) {
    exists run :: Legal(s, run) && WorkedOn(Exec(s, run), id)
  }

  lemma RequeueKeepsWork(m: State, id: string)
    requires Inv(m) && id in m.tables.dead && WorkedOn(m, id)
    ensures WorkedOn(Apply(m, Requeue(id)), id) && id in Apply(m, Requeue(id)).tables.live
  {
  }

  lemma WorkedOnRuns(s: State, run: seq<Action>, id: string)
    requires Legal(s, run) && Inv(Exec(s, run)) && id in Ids(Exec(s, run).tables) && WorkedOn(Exec(s, run), id)
    ensures CanRun(s, id)
  {
    var m := Exec(s, run);
    if id in m.tables.live {
      CommitNow(s, run, id);
    } else {
      RequeueKeepsWork(m, id);
      var more := run + [Requeue(id)];
      Step(s, run, Requeue(id));
      CommitNow(s, more, id);
    }
  }

  lemma BeginsIfRuns(s: State, id: string)
    requires Inv(s) && id in Ids(s.tables)
    ensures CanBegin(s, id) <==> CanRun(s, id)
  {
    forall run | Legal(s, run) && WorkedOn(Exec(s, run), id) ensures CanRun(s, id) {
      CoreSurvives(s, run, id);
      WorkedOnRuns(s, run, id);
    }
    forall run, a | Legal(s, run) && Enabled(Exec(s, run), a) && RunsHandler(Exec(s, run), a, id)
      ensures CanBegin(s, id)
    {
      assert WorkedOn(Exec(s, run), id);
    }
  }

  lemma CommitNow(s: State, run: seq<Action>, id: string)
    requires Legal(s, run) && WorkedOn(Exec(s, run), id) && id in Exec(s, run).tables.live
    ensures CanRun(s, id)
  {
    var t := Exec(s, run);
    if exists i :: 0 <= i < |t.others| && t.others[i] == Found(id) {
      var i :| 0 <= i < |t.others| && t.others[i] == Found(id);
      Runs(s, run, Commit(i, true), id);
    } else {
      Runs(s, run, JobCommit, id);
    }
  }

  /**
   A handler can begin on an event, and repeat the writes that an attempt leaves behind even when it fails,
   exactly when it can still run to its end on it: an unprocessed event until its transaction is processed
   to stay and nobody has it within reach, a processed one under the condition for running twice.
   */
  lemma BeginsIff(s: State, id: string)
    requires Inv(s) && id in Ids(s.tables)
    ensures Unprocessed(s.tables, id) ==>
      (CanBegin(s, id) <==> !HashStays(s, CoreOf(s.tables, id).txHash) || Reached(s, id))
    ensures Processed(s.tables, id) ==> (CanBegin(s, id) <==> Again(s, id))
  {
    BeginsIfRuns(s, id);
    if Processed(s.tables, id) {
      RunsTwiceIff(s, id);
    } else {
      UnprocessedBeginsIff(s, id);
    }
  }

  lemma UnprocessedBeginsIff(s: State, id: string)
    requires Inv(s) && Unprocessed(s.tables, id)
    ensures CanRun(s, id) <==> !HashStays(s, CoreOf(s.tables, id).txHash) || Reached(s, id)
  {
    CanBeProcessedIff(s, id);
    if CanRun(s, id) {
      var run, a :| Legal(s, run) && Enabled(Exec(s, run), a) && RunsHandler(Exec(s, run), a, id);
      Runs(s, run, a, id);
    } else if CanProcess(s, id) {
      var run :| ProcessedBy(s, run, id);
      ProcessedByHandler(s, run, id);
    }
  }

  // ------------------------------------------------------------- runs that get there

  /** Two processors check before either commits: the handler runs twice with nothing ever moved. */
  lemma OverlapRunsTwice(core: Core, id: string) returns (run: seq<Action>)
    ensures Reachable(run) && Uncrashed(run) && Keeps(Exec(EMPTY, run), id)
    ensures RunsHandler(Exec(EMPTY, run[..|run| - 1]), run[|run| - 1], id) && CanRun(Exec(EMPTY, run), id)
  {
    run := BothChecked(id, core, core);
    run := One(EMPTY, run, Find(0, id));
    run := One(EMPTY, run, Find(1, id));
    var before := run;
    run := One(EMPTY, run, Commit(0, true));
    assert run == before + [Commit(0, true)] && run[..|run| - 1] == before;
    assert Exec(EMPTY, run).others[1] == Found(id);
    Runs(Exec(EMPTY, run), [], Commit(1, true), id);
  }

  /** One event has arrived and two processors are past the check of its transaction. */
  lemma BothChecked(id: string, first: Core, second: Core) returns (run: seq<Action>)
    ensures Reachable(run) && Uncrashed(run)
    ensures Exec(EMPTY, run) ==
      State(Tables(map[id := Event(first, false, 0, None)], map[]), [], None, None, [Checked(first), Checked(second)])
  {
    run := One(EMPTY, [], Arrive(id, first));
    run := One(EMPTY, run, Check(first));
    run := One(EMPTY, run, Check(second));
  }

  /** Two events of one transaction: with the first processed to stay, the second is processed as well. */
  lemma OverlapProcessesBoth(done: string, left: string, core: Core, name: string) returns (run: seq<Action>)
    requires done != left && core.eventName != name
    ensures Reachable(run) && Uncrashed(run)
    ensures var s := Exec(EMPTY, run);
      && Keeps(s, done) && Unprocessed(s.tables, left) && CanRun(s, left)
      && CoreOf(s.tables, left).txHash == s.tables.live[done].core.txHash
  {
    var other := core.(eventName := name);
    run := BothChecked(done, core, other);
    run := One(EMPTY, run, Arrive(left, other));
    run := One(EMPTY, run, Find(0, done));
    run := One(EMPTY, run, Find(1, left));
    run := One(EMPTY, run, Commit(0, true));
    assert Exec(EMPTY, run).others[1] == Found(left);
    Runs(Exec(EMPTY, run), [], Commit(1, true), left);
  }

  /** Without overlap the second event is out of reach once the first is processed. */
  lemma SiblingsHappen(done: string, left: string, core: Core, name: string) returns (run: seq<Action>)
    requires done != left && core.eventName != name
    ensures Reachable(run) && Uncrashed(run) && Shut(Exec(EMPTY, run), done, left)
  {
    run := TwoArrive(done, left, core, name);
    run := One(EMPTY, run, Check(core));
    run := One(EMPTY, run, Find(0, done));
    run := One(EMPTY, run, Commit(0, true));
    assert Exec(EMPTY, run).others == [Over];
  }

  /** Processed between the last failure's update and the move, an event comes back and its handler runs again. */
  lemma RequeueRunsTwice(core: Core, id: string) returns (run: seq<Action>)
    ensures Reachable(run) && Uncrashed(run)
    ensures var s := Exec(EMPTY, run); Processed(s.tables, id) && !WorkedOn(s, id) && CanRun(s, id)
  {
    run := FailingRounds(core, id, MAX_RETRIES);
    run := One(EMPTY, run, Check(core));
    run := One(EMPTY, run, Find(0, id));
    run := One(EMPTY, run, Commit(0, true));
    RunKeepsInv(run);
    var s := Exec(EMPTY, run);
    assert s.others == [Over] && s.moving == Some(Moving(id, None)) && s.tables.live.Keys == {id};
    AgainRuns(s, id);
  }
}
