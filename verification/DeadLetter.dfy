/**
 Processing chain events, retrying those that failed, and the dead-letter queue. Ids, names and
 messages are opaque strings; a dead-letter row is keyed by the id of the event it came from
 (originalId is unique). The retry job holds a lock, so there is one; any number of other
 processors (the poller, the manual trigger) overlap with it and with each other, each checking
 the transaction hash, finding its row and committing in separate steps. The admin who requeues
 and a crash of the job come between their steps.
 */
module DeadLetter {
  import opened Options
  import opened Powers

  const MAX_RETRIES: nat := 5

  datatype Core = Core(engagementId: Option<string>, eventName: string, ledger: int, txHash: string, payload: string)

  datatype Event = Event(core: Core, processed: bool, retryCount: nat, lastErrorAt: Option<int>)

  datatype Dead = Dead(core: Core, retryCount: nat, lastErrorAt: Option<int>, errorMessage: Option<string>)

  /** The two tables. */
  datatype Tables = Tables(live: map<string, Event>, dead: map<string, Dead>)

  /** A row as the runner read it when the job started. */
  datatype Candidate = Candidate(id: string, event: Event)

  datatype Moving = Moving(id: string, message: Option<string>)

  /** A processor past its check of the transaction hash, then past looking for the row to work on. */
  datatype Processor = Checked(core: Core) | Missing(core: Core) | Found(target: string) | Over

  /** How far the job is with the candidate in its hands. */
  datatype Phase = Fresh | PastCheck | At(target: string)

  datatype Held = Held(candidate: Candidate, phase: Phase)

  /**
   `pending`: candidates the job still has to handle; `held`: the one it is handling; `moving`: a
   failure recorded, its move still to come; `others`: the processors beside the job.
   */
  datatype State = State(tables: Tables, pending: seq<Candidate>, held: Option<Held>, moving: Option<Moving>,
                         others: seq<Processor>)

  datatype Action =
    | Arrive(id: string, core: Core)
    | Check(core: Core)
    | Find(i: nat, target: string)
    | Miss(i: nat)
    | Create(i: nat, id: string)
    | Commit(i: nat, ok: bool)
    | Start(order: seq<string>)
    | TooEarly(now: int)
    | Take(now: int)
    | JobCheck
    | JobFind(target: string)
    | JobCommit
    | JobFail(id: string, now: int, message: Option<string>)
    | Move
    | Crash
    | Requeue(id: string)

  function BackoffMs(retryCount: nat): nat { Pow2(retryCount) * 1000 }

  predicate IsEligible(e: Event, now: int) {
    e.lastErrorAt.None? || now - e.lastErrorAt.value >= BackoffMs(e.retryCount)
  }

  /** The waits are one, two, four, eight and sixteen seconds after the last failure; a fresh event does not wait. */
  lemma EligibleIff(e: Event, now: int)
    requires e.retryCount < 5
    ensures IsEligible(e, now) <==>
      || e.lastErrorAt.None?
      || now >= e.lastErrorAt.value +
           (if e.retryCount == 0 then 1000
            else if e.retryCount == 1 then 2000
            else if e.retryCount == 2 then 4000
            else if e.retryCount == 3 then 8000
            else 16000)
  {
    assert Pow2(0) == 1 && Pow2(1) == 2 && Pow2(2) == 4 && Pow2(3) == 8 && Pow2(4) == 16;
  }

  predicate IsCandidate(e: Event) { !e.processed && e.retryCount < MAX_RETRIES }

  /** Some row of the same transaction is already processed: the event is skipped. */
  predicate HashDone(live: map<string, Event>, txHash: string) {
    exists i | i in live :: live[i].processed && live[i].core.txHash == txHash
  }

  predicate SameEvent(a: Core, b: Core) { a.txHash == b.txHash && a.eventName == b.eventName }

  /** A row of the event's transaction and name: any such row may be the first found. */
  predicate Matches(live: map<string, Event>, core: Core, target: string) {
    target in live && SameEvent(live[target].core, core)
  }

  predicate Snapshot(live: map<string, Event>, order: seq<string>) {
    && (forall k | 0 <= k < |order| :: order[k] in live && IsCandidate(live[order[k]]))
    && (forall j, k | 0 <= j < k < |order| :: order[j] != order[k])
    && (forall j, k | 0 <= j < k < |order| && order[j] in live && order[k] in live ::
          live[order[j]].core.ledger <= live[order[k]].core.ledger)
    && (forall i | i in live && IsCandidate(live[i]) :: i in order)
  }

  function Read(live: map<string, Event>, order: seq<string>): seq<Candidate>
    requires forall k | 0 <= k < |order| :: order[k] in live
  {
    seq(|order|, k requires 0 <= k < |order| => Candidate(order[k], live[order[k]]))
  }

  predicate Enabled(s: State, a: Action) {
    var live := s.tables.live;
    match a
    case Arrive(id, _) => id !in live && id !in s.tables.dead
    case Check(core) => !HashDone(live, core.txHash)
    case Find(i, target) => i < |s.others| && s.others[i].Checked? && Matches(live, s.others[i].core, target)
    case Miss(i) =>
      && i < |s.others| && s.others[i].Checked?
      && (forall t | t in live :: !SameEvent(live[t].core, s.others[i].core))
    case Create(i, id) => i < |s.others| && s.others[i].Missing? && id !in live && id !in s.tables.dead
    case Commit(i, _) => i < |s.others| && s.others[i].Found?
    case Start(order) => s.pending == [] && s.held == None && s.moving == None && Snapshot(live, order)
    case TooEarly(now) =>
      s.held == None && s.moving == None && s.pending != [] && !IsEligible(s.pending[0].event, now)
    case Take(now) => s.held == None && s.moving == None && s.pending != [] && IsEligible(s.pending[0].event, now)
    case JobCheck => s.held.Some? && s.held.value.phase.Fresh?
    case JobFind(target) =>
      s.held.Some? && s.held.value.phase.PastCheck? && Matches(live, s.held.value.candidate.event.core, target)
    case JobCommit => s.held.Some? && s.held.value.phase.At? && s.held.value.phase.target in live
    case JobFail(id, _, _) => s.held.Some? && s.held.value.candidate.id == id
    case Move => s.moving.Some?
    case Crash => true
    case Requeue(id) => id in s.tables.dead
  }

  function MarkProcessed(t: Tables, target: string): Tables {
    if target in t.live then t.(live := t.live[target := t.live[target].(processed := true)]) else t
  }

  /** The update of a failed attempt: the count read at the start of the job, plus one. */
  function RecordFailure(t: Tables, id: string, currentRetryCount: nat, now: int): Tables {
    if id in t.live
    then t.(live := t.live[id := t.live[id].(retryCount := currentRetryCount + 1, lastErrorAt := Some(now))])
    else t
  }

  /** The upsert keeps the event fields of an existing dead-letter row, and its message if there is no new one. */
  function MoveToDeadLetter(t: Tables, id: string, message: Option<string>): Tables {
    if id !in t.live then t
    else
      var e := t.live[id];
      var core := if id in t.dead then t.dead[id].core else e.core;
      var kept := if id in t.dead && message.None? then t.dead[id].errorMessage else message;
      Tables(t.live - {id}, t.dead[id := Dead(core, e.retryCount, e.lastErrorAt, kept)])
  }

  /** Unknown ids answer "not found"; an id already live fails on the primary key and rolls back. */
  function RequeueRow(t: Tables, id: string): Tables {
    if id !in t.dead || id in t.live then t
    else Tables(t.live[id := Event(t.dead[id].core, false, 0, None)], t.dead - {id})
  }

  function Apply(s: State, a: Action): State
    requires Enabled(s, a)
  {
    var t := s.tables;
    match a
    case Arrive(id, core) => s.(tables := t.(live := t.live[id := Event(core, false, 0, None)]))
    case Check(core) => s.(others := s.others + [Checked(core)])
    case Find(i, target) => s.(others := s.others[i := if t.live[target].processed then Over else Found(target)])
    case Miss(i) => s.(others := s.others[i := Missing(s.others[i].core)])
    case Create(i, id) =>
      s.(tables := t.(live := t.live[id := Event(s.others[i].core, false, 0, None)]),
         others := s.others[i := Found(id)])
    // The handler and the mark commit together or not at all; marking a row that is gone fails.
    case Commit(i, ok) =>
      s.(tables := if ok then MarkProcessed(t, s.others[i].target) else t, others := s.others[i := Over])
    case Start(order) => s.(pending := Read(t.live, order))
    case TooEarly(_) => s.(pending := s.pending[1..])
    case Take(_) => s.(pending := s.pending[1..], held := Some(Held(s.pending[0], Fresh)))
    case JobCheck =>
      if HashDone(t.live, s.held.value.candidate.event.core.txHash) then s.(held := None)
      else s.(held := Some(s.held.value.(phase := PastCheck)))
    case JobFind(target) =>
      s.(held := if t.live[target].processed then None else Some(s.held.value.(phase := At(target))))
    case JobCommit => s.(tables := MarkProcessed(t, s.held.value.phase.target), held := None)
    case JobFail(id, now, message) =>
      var count := s.held.value.candidate.event.retryCount;
      s.(tables := RecordFailure(t, id, count, now), held := None,
         moving := if count + 1 >= MAX_RETRIES then Some(Moving(id, message)) else None)
    case Move => s.(tables := MoveToDeadLetter(t, s.moving.value.id, s.moving.value.message), moving := None)
    case Crash => s.(pending := [], held := None, moving := None)
    case Requeue(id) => s.(tables := RequeueRow(t, id))
  }

  predicate Legal(s: State, run: seq<Action>)
    decreases |run|, 0
  {
    run == [] || (Legal(s, run[..|run| - 1]) && Enabled(Exec(s, run[..|run| - 1]), run[|run| - 1]))
  }

  function Exec(s: State, run: seq<Action>): State
    requires Legal(s, run)
    decreases |run|, 1
  {
    if run == [] then s else Apply(Exec(s, run[..|run| - 1]), run[|run| - 1])
  }

  const EMPTY := State(Tables(map[], map[]), [], None, None, [])

  /** The tables with nobody at work but the job, which has these candidates left. */
  function Alone(t: Tables, pending: seq<Candidate>): State { State(t, pending, None, None, []) }

  ghost predicate Reachable(run: seq<Action>) { Legal(EMPTY, run) }

  lemma Step(s: State, run: seq<Action>, a: Action)
    requires Legal(s, run) && Enabled(Exec(s, run), a)
    ensures Legal(s, run + [a]) && Exec(s, run + [a]) == Apply(Exec(s, run), a)
  {
    assert (run + [a])[..|run|] == run;
  }

  /** What a dead-letter row says went wrong: a failure without a message keeps the one there. */
  function Message(dead: map<string, Dead>, id: string, message: Option<string>): (m: Option<string>)
    ensures message.Some? ==> m == message
    ensures message.None? ==> m == if id in dead then dead[id].errorMessage else None
  {
    if id in dead && message.None? then dead[id].errorMessage else message
  }

  /**
   What becomes of a candidate: before its backoff is over, or with its transaction done, nothing; otherwise
   some row of its transaction and name is processed, or its own failure is recorded and, the fifth time, moved.
   */
  ghost predicate Handled(t: Tables, t': Tables, c: Candidate, now: int, handlers: string -> Option<string>) {
    if !IsEligible(c.event, now) || HashDone(t.live, c.event.core.txHash) then t' == t
    else exists target :: Matches(t.live, c.event.core, target) && Attempted(t, t', c, now, target, handlers(target))
  }

  ghost predicate Attempted(t: Tables, t': Tables, c: Candidate, now: int, target: string, error: Option<string>)
    requires target in t.live
  {
    if error.None? then
      t' == Tables(t.live[target := Event(t.live[target].core, true, t.live[target].retryCount,
                                          t.live[target].lastErrorAt)], t.dead)
    else
      && c.id in t.live
      && var e := Event(t.live[c.id].core, t.live[c.id].processed, c.event.retryCount + 1, Some(now));
         if c.event.retryCount < 4 then t' == Tables(t.live[c.id := e], t.dead)
         else
           && t'.live == t.live - {c.id}
           && t'.dead == t.dead[c.id := Dead(if c.id in t.dead then t.dead[c.id].core else e.core,
                                             e.retryCount, Some(now), error)]
  }

  ghost predicate HandledAt(states: seq<Tables>, candidates: seq<Candidate>, i: nat, now: int,
                            handlers: string -> Option<string>) {
    i < |candidates| && i + 1 < |states| && Handled(states[i], states[i + 1], candidates[i], now, handlers)
  }

  ghost predicate Between(t: Tables, states: seq<Tables>, t': Tables, candidates: seq<Candidate>, now: int,
                          handlers: string -> Option<string>) {
    && |states| == |candidates| + 1 && states[0] == t && states[|candidates|] == t'
    && (forall i | 0 <= i < |candidates| :: HandledAt(states, candidates, i, now, handlers))
  }

  /** The candidates are handled one after the other. */
  ghost predicate HandledInTurn(t: Tables, t': Tables, candidates: seq<Candidate>, now: int,
                                handlers: string -> Option<string>) {
    exists states :: Between(t, states, t', candidates, now, handlers)
  }

  lemma NoneHandled(t: Tables, candidates: seq<Candidate>, now: int, handlers: string -> Option<string>)
    ensures HandledInTurn(t, t, candidates[..0], now, handlers)
  {
    assert Between(t, [t], t, candidates[..0], now, handlers);
  }

  lemma HandledNext(t: Tables, mid: Tables, t': Tables, candidates: seq<Candidate>, i: nat, now: int,
                    handlers: string -> Option<string>)
    requires i < |candidates| && HandledInTurn(t, mid, candidates[..i], now, handlers)
    requires Handled(mid, t', candidates[i], now, handlers)
    ensures HandledInTurn(t, t', candidates[..i + 1], now, handlers)
  {
    var states :| Between(t, states, mid, candidates[..i], now, handlers);
    var longer, more := states + [t'], candidates[..i + 1];
    forall k | 0 <= k < |more| ensures HandledAt(longer, more, k, now, handlers) {
      if k < i { assert HandledAt(states, candidates[..i], k, now, handlers); }
    }
    assert Between(t, longer, t', more, now, handlers);
  }

  // ------------------------------------------------------------- the tables, updated in place

  class EventStore {
    var live: map<string, Event>
    var dead: map<string, Dead>

    ghost function Contents(): Tables
      reads this
    {
      Tables(live, dead)
    }

    /** Updating a row that is gone is an error. */
    method RecordFailureAt(id: string, currentRetryCount: nat, now: int, message: Option<string>) returns (found: bool)
      modifies this
      ensures found == (id in old(live))
      ensures currentRetryCount < 4 ==> dead == old(dead)
      ensures currentRetryCount < 4 ==>
        live == if id !in old(live) then old(live)
                else old(live)[id := Event(old(live)[id].core, old(live)[id].processed,
                                           currentRetryCount + 1, Some(now))]
      ensures currentRetryCount >= 4 ==> live == old(live) - {id}
      ensures currentRetryCount >= 4 ==>
        dead == if id !in old(live) then old(dead)
                else old(dead)[id := Dead(if id in old(dead) then old(dead)[id].core else old(live)[id].core,
                                          currentRetryCount + 1, Some(now), Message(old(dead), id, message))]
      ensures var failed := RecordFailure(old(Contents()), id, currentRetryCount, now);
        Contents() == if id in old(live) && currentRetryCount + 1 >= MAX_RETRIES
                      then MoveToDeadLetter(failed, id, message) else failed
    {
      var newCount := currentRetryCount + 1;
      found := id in live;
      if !found { return; }
      live := live[id := live[id].(retryCount := newCount, lastErrorAt := Some(now))];
      if newCount >= MAX_RETRIES {
        MoveRow(id, message);
      }
    }

    method MoveRow(id: string, message: Option<string>)
      modifies this
      ensures Contents() == MoveToDeadLetter(old(Contents()), id, message)
      ensures live == old(live) - {id}
      ensures dead == if id !in old(live) then old(dead)
                      else old(dead)[id := Dead(if id in old(dead) then old(dead)[id].core else old(live)[id].core,
                                                old(live)[id].retryCount, old(live)[id].lastErrorAt,
                                                Message(old(dead), id, message))]
    {
      if id !in live { return; }
      var event := live[id];
      if id in dead {
        var kept := if message.None? then dead[id].errorMessage else message;
        dead := dead[id := Dead(dead[id].core, event.retryCount, event.lastErrorAt, kept)];
      } else {
        dead := dead[id := Dead(event.core, event.retryCount, event.lastErrorAt, message)];
      }
      live := live - {id};
    }

    method RequeueById(id: string) returns (found: bool)
      modifies this
      ensures found == (id in old(dead)) && Contents() == RequeueRow(old(Contents()), id)
      ensures if id in old(dead) && id !in old(live)
              then live == old(live)[id := Event(old(dead)[id].core, false, 0, None)] && dead == old(dead) - {id}
              else live == old(live) && dead == old(dead)
    {
      found := id in dead;
      if found && id !in live {
        live := live[id := Event(dead[id].core, false, 0, None)];
        dead := dead - {id};
      }
    }

    /** `handlers` gives the error the handler of a row ends in, if any. */
    method HandleCandidate(c: Candidate, now: int, handlers: string -> Option<string>, ghost rest: seq<Candidate>)
      returns (ghost steps: seq<Action>)
      requires Awaits(live, c)
      modifies this
      ensures Ran(Alone(old(Contents()), [c] + rest), steps, Alone(Contents(), rest))
      ensures Handled(old(Contents()), Contents(), c, now, handlers)
      ensures forall i | i in old(live) && i != c.id :: i in live && live[i].core == old(live)[i].core
    {
      if !IsEligible(c.event, now) {
        steps := EarlySteps(Contents(), c, rest, now);
        return;
      }
      if HashDone(live, c.event.core.txHash) {
        steps := SkipSteps(Contents(), c, rest, now);
        return;
      }
      assert Matches(live, c.event.core, c.id);
      var target :| target in live && Matches(live, c.event.core, target);
      var error := handlers(target);
      if error == None {
        steps := CommitSteps(Contents(), c, rest, now, target);
        live := live[target := live[target].(processed := true)];
      } else {
        steps := FailSteps(Contents(), c, rest, now, target, error);
        var found := RecordFailureAt(c.id, c.event.retryCount, now, error);
      }
    }

    /** One run of the job, undisturbed: what it does is one of the runs of the state machine. */
    method RetryUnprocessed(order: seq<string>, now: int, handlers: string -> Option<string>)
      returns (ghost run: seq<Action>)
      requires Snapshot(live, order)
      modifies this
      ensures Ran(Alone(old(Contents()), []), run, Alone(Contents(), []))
      ensures HandledInTurn(old(Contents()), Contents(), Read(old(live), order), now, handlers)
    {
      var candidates := Read(live, order);
      ghost var start := Alone(Contents(), []);
      run := One(start, [], Start(order));
      SnapshotAwaits(live, order);
      assert candidates[0..] == candidates;
      NoneHandled(Contents(), candidates, now, handlers);
      var i := 0;
      while i < |candidates|
        invariant 0 <= i <= |candidates| == |order|
        invariant AllAwait(live, candidates[i..])
        invariant Ran(start, run, Alone(Contents(), candidates[i..]))
        invariant HandledInTurn(old(Contents()), Contents(), candidates[..i], now, handlers)
      {
        var c := candidates[i];
        ghost var before, mid, rest := live, Contents(), candidates[i + 1..];
        ghost var s := Alone(mid, candidates[i..]);
        HeadOf(candidates, i);
        AwaitHead(live, c, rest);
        ghost var steps := HandleCandidate(c, now, handlers, rest);
        RanAfter(start, run, s, steps, Alone(Contents(), rest));
        run := run + steps;
        AwaitNext(before, live, c, rest);
        HandledNext(old(Contents()), mid, Contents(), candidates, i, now, handlers);
        i := i + 1;
      }
      assert candidates[..i] == candidates;
    }
  }

  /** An uncrashed run leads from s to t. */
  ghost predicate Ran(s: State, run: seq<Action>, t: State) {
    Legal(s, run) && Uncrashed(run) && Exec(s, run) == t
  }

  ghost function One(s: State, run: seq<Action>, a: Action): (r: seq<Action>)
    requires Legal(s, run) && Enabled(Exec(s, run), a) && a != Crash
    ensures Legal(s, r) && Exec(s, r) == Apply(Exec(s, run), a)
    ensures Uncrashed(run) ==> Uncrashed(r)
  {
    Step(s, run, a);
    run + [a]
  }

  lemma EarlySteps(t: Tables, c: Candidate, rest: seq<Candidate>, now: int) returns (steps: seq<Action>)
    requires !IsEligible(c.event, now)
    ensures Ran(Alone(t, [c] + rest), steps, Alone(t, rest))
  {
    assert ([c] + rest)[1..] == rest;
    steps := One(Alone(t, [c] + rest), [], TooEarly(now));
  }

  /** The candidate is in hand and past the check of its transaction. */
  lemma TakeSteps(t: Tables, c: Candidate, rest: seq<Candidate>, now: int) returns (steps: seq<Action>)
    requires IsEligible(c.event, now) && !HashDone(t.live, c.event.core.txHash)
    ensures Ran(Alone(t, [c] + rest), steps, State(t, rest, Some(Held(c, PastCheck)), None, []))
  {
    assert ([c] + rest)[1..] == rest;
    steps := One(Alone(t, [c] + rest), [], Take(now));
    steps := One(Alone(t, [c] + rest), steps, JobCheck);
  }

  lemma SkipSteps(t: Tables, c: Candidate, rest: seq<Candidate>, now: int) returns (steps: seq<Action>)
    requires IsEligible(c.event, now) && HashDone(t.live, c.event.core.txHash)
    ensures Ran(Alone(t, [c] + rest), steps, Alone(t, rest))
  {
    assert ([c] + rest)[1..] == rest;
    steps := One(Alone(t, [c] + rest), [], Take(now));
    steps := One(Alone(t, [c] + rest), steps, JobCheck);
  }

  lemma CommitSteps(t: Tables, c: Candidate, rest: seq<Candidate>, now: int, target: string)
    returns (steps: seq<Action>)
    requires IsEligible(c.event, now) && !HashDone(t.live, c.event.core.txHash) && Matches(t.live, c.event.core, target)
    ensures Ran(Alone(t, [c] + rest), steps, Alone(MarkProcessed(t, target), rest))
  {
    steps := TakeSteps(t, c, rest, now);
    steps := One(Alone(t, [c] + rest), steps, JobFind(target));
    steps := One(Alone(t, [c] + rest), steps, JobCommit);
  }

  lemma FailSteps(t: Tables, c: Candidate, rest: seq<Candidate>, now: int, target: string, error: Option<string>)
    returns (steps: seq<Action>)
    requires IsEligible(c.event, now) && !HashDone(t.live, c.event.core.txHash) && Matches(t.live, c.event.core, target)
    requires c.id in t.live
    ensures var failed := RecordFailure(t, c.id, c.event.retryCount, now);
      Ran(Alone(t, [c] + rest), steps,
          Alone(if c.event.retryCount + 1 >= MAX_RETRIES then MoveToDeadLetter(failed, c.id, error) else failed, rest))
  {
    steps := TakeSteps(t, c, rest, now);
    steps := One(Alone(t, [c] + rest), steps, JobFind(target));
    steps := One(Alone(t, [c] + rest), steps, JobFail(c.id, now, error));
    if c.event.retryCount + 1 >= MAX_RETRIES { steps := One(Alone(t, [c] + rest), steps, Move); }
  }

  lemma {:induction false} RanAfter(s: State, run: seq<Action>, t: State, more: seq<Action>, u: State)
    requires Ran(s, run, t) && Ran(t, more, u)
    ensures Ran(s, run + more, u)
    decreases |more|
  {
    if more == [] {
      assert run + more == run;
    } else {
      var n := |more| - 1;
      RanAfter(s, run, t, more[..n], Exec(t, more[..n]));
      assert run + more == run + more[..n] + [more[n]];
      Step(s, run + more[..n], more[n]);
    }
  }

  ghost predicate AllAwait(live: map<string, Event>, candidates: seq<Candidate>) {
    && (forall k | 0 <= k < |candidates| :: Awaits(live, candidates[k]))
    && (forall j, k | 0 <= j < k < |candidates| :: candidates[j].id != candidates[k].id)
  }

  lemma HeadOf<T>(s: seq<T>, i: nat)
    requires i < |s|
    ensures s[i..] == [s[i]] + s[i + 1..]
  {
  }

  lemma AwaitHead(live: map<string, Event>, c: Candidate, rest: seq<Candidate>)
    requires AllAwait(live, [c] + rest)
    ensures Awaits(live, c)
  {
    assert ([c] + rest)[0] == c;
  }

  /** What the job reads is there for it. */
  lemma SnapshotAwaits(live: map<string, Event>, order: seq<string>)
    requires Snapshot(live, order)
    ensures AllAwait(live, Read(live, order))
  {
  }

  /** Handling one candidate leaves the rows of the others in place. */
  lemma AwaitNext(before: map<string, Event>, after: map<string, Event>, c: Candidate, rest: seq<Candidate>)
    requires AllAwait(before, [c] + rest)
    requires forall i | i in before && i != c.id :: i in after && after[i].core == before[i].core
    ensures AllAwait(after, rest)
  {
    var all := [c] + rest;
    forall k | 0 <= k < |rest| ensures Awaits(after, rest[k]) {
      assert all[k + 1] == rest[k] && Awaits(before, all[k + 1]) && all[0].id != all[k + 1].id;
    }
    forall j, k | 0 <= j < k < |rest| ensures rest[j].id != rest[k].id {
      assert all[j + 1].id != all[k + 1].id;
    }
  }

  /** The row of a candidate is still in the table, processed meanwhile or not. */
  predicate Awaits(live: map<string, Event>, c: Candidate) {
    c.id in live && live[c.id].core == c.event.core && IsCandidate(c.event)
  }

  ghost predicate Uncrashed(run: seq<Action>) { Crash !in run }

  // ------------------------------------------------------------- every run

  ghost predicate PendingInv(s: State) {
    && (forall k | 0 <= k < |s.pending| :: CandidateAt(s, s.pending[k]))
    && (forall j, k | 0 <= j < k < |s.pending| :: s.pending[j].id != s.pending[k].id)
    && (s.held.Some? ==> CandidateAt(s, s.held.value.candidate) && NotPending(s, s.held.value.candidate.id))
    && (s.moving.Some? ==> s.held.None? && MovingAt(s, s.moving.value.id))
  }

  ghost predicate NotPending(s: State, id: string) { forall k | 0 <= k < |s.pending| :: s.pending[k].id != id }

  /** Only the job changes the counters of a candidate, and nobody else removes it. */
  ghost predicate CandidateAt(s: State, c: Candidate) {
    && c.id in s.tables.live && IsCandidate(c.event)
    && s.tables.live[c.id].core == c.event.core && s.tables.live[c.id].retryCount == c.event.retryCount
  }

  ghost predicate MovingAt(s: State, id: string) {
    id in s.tables.live && s.tables.live[id].retryCount == MAX_RETRIES && NotPending(s, id)
  }

  ghost predicate CountsInv(t: Tables) {
    && t.live.Keys !! t.dead.Keys
    && (forall i | i in t.live :: t.live[i].retryCount <= MAX_RETRIES)
    && (forall i | i in t.dead :: t.dead[i].retryCount == MAX_RETRIES)
  }

  ghost predicate Inv(s: State) { PendingInv(s) && CountsInv(s.tables) }

  lemma StepKeepsCounts(s: State, a: Action)
    requires Inv(s) && Enabled(s, a)
    ensures CountsInv(Apply(s, a).tables)
  {
  }

  lemma PopKeepsPending(s: State, a: Action)
    requires Inv(s) && Enabled(s, a) && (a.TooEarly? || a.Take?)
    ensures PendingInv(Apply(s, a))
  {
    var s' := Apply(s, a);
    assert forall k | 0 <= k < |s'.pending| :: s'.pending[k] == s.pending[k + 1];
    assert CandidateAt(s, s.pending[0]);
    forall k | 0 <= k < |s'.pending| ensures CandidateAt(s', s'.pending[k]) {
      assert CandidateAt(s, s.pending[k + 1]);
    }
  }

  lemma StepKeepsPending(s: State, a: Action)
    requires Inv(s) && Enabled(s, a)
    ensures PendingInv(Apply(s, a))
  {
    var s' := Apply(s, a);
    if a.TooEarly? || a.Take? {
      PopKeepsPending(s, a);
    } else {
      forall k | 0 <= k < |s'.pending| ensures CandidateAt(s', s'.pending[k]) {
        if !a.Start? { assert CandidateAt(s, s.pending[k]); }
      }
    }
  }

  lemma {:induction false} RunKeepsInv(run: seq<Action>)
    requires Reachable(run)
    ensures Inv(Exec(EMPTY, run))
    decreases |run|
  {
    if run != [] {
      var before := run[..|run| - 1];
      RunKeepsInv(before);
      StepKeepsCounts(Exec(EMPTY, before), run[|run| - 1]);
      StepKeepsPending(Exec(EMPTY, before), run[|run| - 1]);
    }
  }

  function Ids(t: Tables): set<string> { t.live.Keys + t.dead.Keys }

  function CoreOf(t: Tables, id: string): Core
    requires id in Ids(t)
  {
    if id in t.live then t.live[id].core else t.dead[id].core
  }

  function Arrived(run: seq<Action>): set<string>
    decreases |run|
  {
    if run == [] then {} else Arrived(run[..|run| - 1]) + New(run[|run| - 1])
  }

  /** The row a step adds: by the indexer, or by a processor that finds none. */
  function New(a: Action): set<string> { if a.Arrive? || a.Create? then {a.id} else {} }

  /** In every run, crashes included: the ids in the tables are those that arrived, and each is in one table. */
  lemma {:induction false} IdsAreConserved(run: seq<Action>)
    requires Reachable(run)
    ensures var t := Exec(EMPTY, run).tables; Ids(t) == Arrived(run) && t.live.Keys !! t.dead.Keys
    decreases |run|
  {
    RunKeepsInv(run);
    if run != [] {
      var before, a := run[..|run| - 1], run[|run| - 1];
      IdsAreConserved(before);
      RunKeepsInv(before);
      var s := Exec(EMPTY, before);
      assert Ids(Apply(s, a).tables) == Ids(s.tables) + New(a);
    }
  }

  lemma StepKeepsCore(s: State, a: Action, id: string)
    requires Inv(s) && Enabled(s, a) && id in Ids(s.tables)
    ensures id in Ids(Apply(s, a).tables) && CoreOf(Apply(s, a).tables, id) == CoreOf(s.tables, id)
  {
  }

  /** Name, ledger, transaction, payload and engagement survive any number of round trips. */
  lemma {:induction false} CoreSurvives(s: State, run: seq<Action>, id: string)
    requires Inv(s) && Legal(s, run) && id in Ids(s.tables)
    ensures Inv(Exec(s, run))
    ensures id in Ids(Exec(s, run).tables) && CoreOf(Exec(s, run).tables, id) == CoreOf(s.tables, id)
    decreases |run|
  {
    if run != [] {
      var before, a := run[..|run| - 1], run[|run| - 1];
      CoreSurvives(s, before, id);
      var m := Exec(s, before);
      StepKeepsCounts(m, a);
      StepKeepsPending(m, a);
      StepKeepsCore(m, a, id);
    }
  }

  // ------------------------------------------------------------- counting attempts

  function CountAfter(before: nat, a: Action, id: string): nat {
    if (a.Arrive? || a.Create? || a.Requeue?) && a.id == id then 0
    else if a.JobFail? && a.id == id then before + 1
    else before
  }

  /** Failed attempts on `id` since it last entered the live table. */
  function Failures(run: seq<Action>, id: string): nat
    decreases |run|
  {
    if run == [] then 0 else CountAfter(Failures(run[..|run| - 1], id), run[|run| - 1], id)
  }

  ghost predicate Counted(t: Tables, id: string, failures: nat) {
    && (id in t.live ==> t.live[id].retryCount == failures <= MAX_RETRIES)
    && (id in t.dead ==> t.dead[id].retryCount == failures == MAX_RETRIES)
  }

  lemma StepCounts(s: State, a: Action, id: string, failures: nat)
    requires Inv(s) && Enabled(s, a) && Counted(s.tables, id, failures)
    ensures Counted(Apply(s, a).tables, id, CountAfter(failures, a, id))
  {
  }

  /** The retry count is the number of failed attempts since entry; an event is dead-lettered after exactly five. */
  lemma {:induction false} CountIsFailures(run: seq<Action>, id: string)
    requires Reachable(run)
    ensures Counted(Exec(EMPTY, run).tables, id, Failures(run, id))
    ensures var t, n := Exec(EMPTY, run).tables, Failures(run, id);
      && (id in t.live ==> t.live[id].retryCount == n <= 5)
      && (id in t.dead ==> t.dead[id].retryCount == n == 5)
    decreases |run|
  {
    if run != [] {
      var before := run[..|run| - 1];
      CountIsFailures(before, id);
      RunKeepsInv(before);
      StepCounts(Exec(EMPTY, before), run[|run| - 1], id, Failures(before, id));
    }
  }

  /** The job reads the unprocessed rows with fewer than five failures, each once, by ledger. */
  lemma JobReads(s: State, order: seq<string>)
    requires Enabled(s, Start(order))
    ensures var live, read := s.tables.live, Apply(s, Start(order)).pending;
      && (forall k | 0 <= k < |read| :: read[k].id in live && read[k].event == live[read[k].id])
      && (forall id :: id in live && !live[id].processed && live[id].retryCount < 5 <==>
            exists k :: 0 <= k < |read| && read[k].id == id)
      && (forall j, k | 0 <= j < k < |read| ::
            read[j].id != read[k].id && read[j].event.core.ledger <= read[k].event.core.ledger)
  {
    var live, read := s.tables.live, Apply(s, Start(order)).pending;
    forall id | id in live && IsCandidate(live[id]) ensures exists k :: 0 <= k < |read| && read[k].id == id {
      var k :| 0 <= k < |order| && order[k] == id;
      assert read[k].id == id;
    }
  }

  /**
   A processor goes on past its check only while no row of the transaction is processed; what it works on then
   is a row of the event's own transaction and name, and it adds one exactly when there is none.
   */
  lemma WorksOnItsOwn(s: State, i: nat, core: Core, target: string)
    ensures var live := s.tables.live;
      && (Enabled(s, Check(core)) <==> forall t | t in live && live[t].core.txHash == core.txHash :: !live[t].processed)
      && (i < |s.others| && s.others[i] == Checked(core) ==>
            && (Enabled(s, Find(i, target)) <==>
                  target in live && live[target].core.txHash == core.txHash
                  && live[target].core.eventName == core.eventName)
            && (Enabled(s, Miss(i)) <==>
                  forall t | t in live && live[t].core.txHash == core.txHash ::
                    live[t].core.eventName != core.eventName))
      && (i < |s.others| && s.others[i] == Missing(core) && Enabled(s, Create(i, target)) ==>
            Apply(s, Create(i, target)).tables ==
              Tables(live[target := Event(core, false, 0, None)], s.tables.dead))
      && (s.held.Some? && s.held.value.candidate.event.core == core && Enabled(s, JobFind(target)) ==>
            live[target].core.txHash == core.txHash && live[target].core.eventName == core.eventName)
  {
  }

  /** A failure adds one to the count and is dated; the fifth, and only it, is followed by the move. */
  lemma FailureIsRecorded(s: State, id: string, now: int, message: Option<string>)
    requires Inv(s) && Enabled(s, JobFail(id, now, message))
    ensures id in s.tables.live
    ensures var e, t, s' := s.tables.live[id], s.tables, Apply(s, JobFail(id, now, message));
      && s'.tables == Tables(t.live[id := Event(e.core, e.processed, e.retryCount + 1, Some(now))], t.dead)
      && s'.moving == (if e.retryCount == 4 then Some(Moving(id, message)) else None) && s'.held.None?
  {
  }

  /** The move takes the row out of the one table and puts all it says, and the message, into the other. */
  lemma MoveIsComplete(s: State)
    requires Inv(s) && Enabled(s, Move)
    ensures s.moving.value.id in s.tables.live
    ensures var id, t := s.moving.value.id, s.tables;
      Apply(s, Move).tables ==
        Tables(t.live - {id},
               t.dead[id := Dead(t.live[id].core, 5, t.live[id].lastErrorAt, s.moving.value.message)])
  {
  }

  /** A requeued event is back as it first came. */
  lemma RequeueStartsOver(s: State, id: string)
    requires Inv(s) && Enabled(s, Requeue(id))
    ensures Apply(s, Requeue(id)).tables ==
      Tables(s.tables.live[id := Event(s.tables.dead[id].core, false, 0, None)], s.tables.dead - {id})
  {
  }

  /** Nothing rests at the limit: a row there is on its way out. */
  ghost predicate Tidy(s: State) {
    forall i | i in s.tables.live && s.tables.live[i].retryCount >= MAX_RETRIES ::
      s.moving.Some? && s.moving.value.id == i
  }

  lemma StepKeepsTidy(s: State, a: Action)
    requires Inv(s) && Tidy(s) && Enabled(s, a) && a != Crash
    ensures Tidy(Apply(s, a))
  {
  }

  lemma {:induction false} UncrashedIsTidy(run: seq<Action>)
    requires Reachable(run) && Uncrashed(run)
    ensures Tidy(Exec(EMPTY, run))
    ensures var s := Exec(EMPTY, run);
      forall i | i in s.tables.live && s.moving.None? :: s.tables.live[i].retryCount < 5
    decreases |run|
  {
    if run != [] {
      var before, a := run[..|run| - 1], run[|run| - 1];
      assert a in run;
      UncrashedIsTidy(before);
      RunKeepsInv(before);
      StepKeepsTidy(Exec(EMPTY, before), a);
    }
  }

  /** A crash strands a row exactly when it falls between the count update and the move. */
  lemma CrashStrandsIff(run: seq<Action>)
    requires Reachable(run) && Uncrashed(run)
    ensures Tidy(Apply(Exec(EMPTY, run), Crash)) <==> Exec(EMPTY, run).moving == None
  {
    UncrashedIsTidy(run);
    RunKeepsInv(run);
  }

  /** Left behind at the limit, in nobody's hands. */
  ghost predicate Stranded(s: State, id: string) {
    && id in s.tables.live && s.tables.live[id].retryCount == MAX_RETRIES
    && NotPending(s, id) && (s.held.Some? ==> s.held.value.candidate.id != id)
    && (s.moving.Some? ==> s.moving.value.id != id)
  }

  /** The job never selects a stranded row again and nobody can requeue it: later jobs read counts below five
      only, and it is not in the dead-letter table. Other processors may still process it. */
  lemma {:induction false} StrandedForGood(s: State, run: seq<Action>, id: string)
    requires Inv(s) && Stranded(s, id) && Legal(s, run)
    ensures Inv(Exec(s, run)) && Stranded(Exec(s, run), id)
    decreases |run|
  {
    if run != [] {
      var before, a := run[..|run| - 1], run[|run| - 1];
      StrandedForGood(s, before, id);
      var m := Exec(s, before);
      StepKeepsCounts(m, a);
      StepKeepsPending(m, a);
      StepKeepsStranded(m, a, id);
    }
  }

  lemma StepKeepsStranded(s: State, a: Action, id: string)
    requires Inv(s) && Stranded(s, id) && Enabled(s, a)
    ensures Stranded(Apply(s, a), id)
  {
  }

  // ------------------------------------------------------------- runs that get there

  lemma TwoArrive(done: string, left: string, core: Core, name: string) returns (run: seq<Action>)
    requires done != left
    ensures Reachable(run) && Uncrashed(run)
    ensures var first, second := Event(core, false, 0, None), Event(core.(eventName := name), false, 0, None);
      Exec(EMPTY, run) == Alone(Tables(map[done := first][left := second], map[]), [])
  {
    Step(EMPTY, [], Arrive(done, core));
    run := [] + [Arrive(done, core)];
    Step(EMPTY, run, Arrive(left, core.(eventName := name)));
    run := run + [Arrive(left, core.(eventName := name))];
  }

  function Waiting(core: Core, id: string, k: nat): State {
    var e := Event(core, false, k, if k == 0 then None else Some(k * 100000));
    State(Tables(map[id := e], map[]), [], None, if k >= MAX_RETRIES then Some(Moving(id, None)) else None, [])
  }

  lemma BackoffOver(e: Event, k: nat)
    requires e.retryCount == k < MAX_RETRIES && (e.lastErrorAt == None || e.lastErrorAt == Some(k * 100000))
    ensures IsEligible(e, (k + 1) * 100000)
  {
    assert Pow2(0) == 1 && Pow2(1) == 2 && Pow2(2) == 4 && Pow2(3) == 8 && Pow2(4) == 16;
  }

  /** One job in which the only event fails. */
  lemma FailingRound(core: Core, id: string, k: nat, run: seq<Action>) returns (more: seq<Action>)
    requires k < MAX_RETRIES && Reachable(run) && Exec(EMPTY, run) == Waiting(core, id, k)
    ensures Reachable(more) && Exec(EMPTY, more) == Waiting(core, id, k + 1)
    ensures Uncrashed(run) ==> Uncrashed(more)
  {
    var s := Exec(EMPTY, run);
    var e := s.tables.live[id];
    assert Snapshot(s.tables.live, [id]);
    more := One(EMPTY, run, Start([id]));
    BackoffOver(e, k);
    assert Exec(EMPTY, more).pending == [Candidate(id, e)];
    more := One(EMPTY, more, Take((k + 1) * 100000));
    more := One(EMPTY, more, JobFail(id, (k + 1) * 100000, None));
    assert Exec(EMPTY, more).tables.live == Waiting(core, id, k + 1).tables.live;
  }

  lemma {:induction false} FailingRounds(core: Core, id: string, k: nat) returns (run: seq<Action>)
    requires k <= MAX_RETRIES
    ensures Reachable(run) && Exec(EMPTY, run) == Waiting(core, id, k) && Uncrashed(run)
    decreases k
  {
    if k == 0 {
      Step(EMPTY, [], Arrive(id, core));
      run := [] + [Arrive(id, core)];
    } else {
      var before := FailingRounds(core, id, k - 1);
      run := FailingRound(core, id, k - 1, before);
    }
  }

  /** And a crash after the fifth failure does strand a row, for good. */
  lemma CrashStrands(core: Core, id: string, later: seq<Action>) returns (run: seq<Action>)
    ensures Reachable(run) && Stranded(Exec(EMPTY, run), id) && Exec(EMPTY, run).tables.live[id].retryCount == 5
    ensures Legal(Exec(EMPTY, run), later) ==> Stranded(Exec(Exec(EMPTY, run), later), id)
  {
    var before := FailingRounds(core, id, MAX_RETRIES);
    Step(EMPTY, before, Crash);
    run := before + [Crash];
    RunKeepsInv(run);
    if Legal(Exec(EMPTY, run), later) {
      StrandedForGood(Exec(EMPTY, run), later, id);
    }
  }
}
