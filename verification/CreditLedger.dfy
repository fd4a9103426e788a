/**
 The prepaid credit ledger: the table, one call's program counter, and the
 append loop that drives it. Rows are kept in commit order.
 */
module CreditLedger {
  import opened Options

  const MAX_APPEND_ATTEMPTS: nat := 5

  datatype EntryType = Purchase | Grant | FeeDeduction | Reversal | Adjustment

  /** A row of credit_ledger; `writer` is a history column naming the call that inserted it. */
  datatype Row = Row(company: string, sequence: int, kind: EntryType, amount: int, balanceAfter: int,
                     reference: Option<string>, key: Option<string>, writer: nat)

  datatype Request =
    | Append(kind: EntryType, amount: int, reference: Option<string>, key: Option<string>)
    | ApplyToFee(fee: int, feeReference: string)

  function KeyOf(q: Request): Option<string> {
    match q
    case Append(_, _, _, key) => key
    case ApplyToFee(_, ref) => Some("fee:" + ref)
  }

  /** Requests refused before the append loop is entered. */
  predicate Malformed(q: Request) {
    match q
    case Append(_, amount, _, _) => amount == 0
    case ApplyToFee(fee, _) => fee <= 0
  }

  datatype Decision = Write(kind: EntryType, amount: int, reference: Option<string>) | Skip | Refuse

  /** The `compute` closures of append and applyToFee. */
  function Compute(q: Request, balance: int): Decision {
    match q
    case Append(kind, amount, ref, _) =>
      if balance + amount < 0 then Refuse else Write(kind, amount, ref)
    case ApplyToFee(fee, ref) =>
      var applied := if balance < fee then balance else fee;
      if applied <= 0 then Skip else Write(FeeDeduction, -applied, Some(ref))
  }

  // ---------------------------------------------------------------- the table

  /** A company's rows, in commit order. */
  function Of(rows: seq<Row>, company: string): seq<Row> {
    if rows == [] then []
    else
      var n := |rows| - 1;
      Of(rows[..n], company) + (if rows[n].company == company then [rows[n]] else [])
  }

  /** findFirst ordered by sequence descending. */
  function Latest(rows: seq<Row>, company: string): Option<Row> {
    if rows == [] then None
    else
      var n := |rows| - 1;
      var before := Latest(rows[..n], company);
      if rows[n].company == company && (before.None? || before.value.sequence < rows[n].sequence)
      then Some(rows[n]) else before
  }

  function LatestSequence(rows: seq<Row>, company: string): int {
    match Latest(rows, company) case None => 0 case Some(r) => r.sequence
  }

  function Balance(rows: seq<Row>, company: string): int {
    match Latest(rows, company) case None => 0 case Some(r) => r.balanceAfter
  }

  /** findUnique on (companyId, idempotencyKey). */
  function FindKey(rows: seq<Row>, company: string, key: string): Option<Row> {
    if rows == [] then None
    else if rows[0].company == company && rows[0].key == Some(key) then Some(rows[0])
    else FindKey(rows[1..], company, key)
  }

  /** `if (idempotencyKey)`: the empty string is skipped, though it is stored. */
  function Lookup(rows: seq<Row>, company: string, key: Option<string>): Option<Row> {
    if key.Some? && key.value != "" then FindKey(rows, company, key.value) else None
  }

  /** One of the two unique indexes rejects the row. */
  predicate Conflicts(rows: seq<Row>, row: Row) {
    exists i :: 0 <= i < |rows| && rows[i].company == row.company &&
      (rows[i].sequence == row.sequence || (row.key.Some? && rows[i].key == row.key))
  }

  /** The CHECK constraints of the table. */
  predicate ChecksHold(row: Row) {
    row.amount != 0 && row.balanceAfter >= 0 && row.sequence > 0
  }

  // ------------------------------------------------------ one call of the loop

  datatype Outcome = Returned(row: Row) | Nothing | Refused | CheckFailed | Busy

  datatype Pc = CheckKey | ReadLatest | Insert(row: Row) | Done(outcome: Outcome)

  /**
   A call in progress. `started`, `marked`, `read` and `ended` are history: the
   length of the table when the call began, when the current attempt looked its
   key up, when it read the latest row, and when the call ended.
   */
  datatype Writer = Writer(id: nat, company: string, request: Request, attempt: nat, pc: Pc,
                           started: nat, marked: nat, read: nat, ended: nat)

  datatype Local = Local(rows: seq<Row>, writer: Writer)

  function Start(id: nat, company: string, q: Request, now: nat): Writer {
    Writer(id, company, q, 1, if Malformed(q) then Done(Refused) else CheckKey, now, now, now, now)
  }

  /** The row a call writes after reading the table `rows`. */
  function NewRow(w: Writer, rows: seq<Row>, d: Decision): Row
    requires d.Write?
  {
    Row(w.company, LatestSequence(rows, w.company) + 1, d.kind, d.amount,
        Balance(rows, w.company) + d.amount, d.reference, KeyOf(w.request), w.id)
  }

  function Finish(rows: seq<Row>, w: Writer, o: Outcome): Writer {
    w.(pc := Done(o), ended := |rows|)
  }

  /** One database access of a call, with the local work that follows it. */
  function Advance(rows: seq<Row>, w: Writer): (l: Local)
    requires !w.pc.Done?
    ensures Remaining(l.writer) < Remaining(w)
  {
    match w.pc
    case CheckKey =>
      var w' := w.(marked := |rows|);
      (match Lookup(rows, w.company, KeyOf(w.request))
       case Some(existing) => Local(rows, Finish(rows, w', Returned(existing)))
       case None => Local(rows, w'.(pc := ReadLatest)))
    case ReadLatest =>
      var w' := w.(read := |rows|);
      var d := Compute(w.request, Balance(rows, w.company));
      (match d
       case Skip => Local(rows, Finish(rows, w', Nothing))
       case Refuse => Local(rows, Finish(rows, w', Refused))
       case Write(_, _, _) => Local(rows, w'.(pc := Insert(NewRow(w, rows, d)))))
    case Insert(row) =>
      if !ChecksHold(row) then Local(rows, Finish(rows, w, CheckFailed))
      else if !Conflicts(rows, row) then Local(rows + [row], Finish(rows + [row], w, Returned(row)))
      else if w.attempt < MAX_APPEND_ATTEMPTS then Local(rows, w.(attempt := w.attempt + 1, pc := CheckKey))
      else Local(rows, Finish(rows, w, Busy))
  }

  /** Database accesses the call can still make. */
  function Remaining(w: Writer): nat {
    (if w.attempt < MAX_APPEND_ATTEMPTS then (MAX_APPEND_ATTEMPTS - w.attempt) * 3 else 0) +
    match w.pc case CheckKey => 3 case ReadLatest => 2 case Insert(_) => 1 case Done(_) => 0
  }

  /** The whole call, when `env(k)` is what other calls commit just before its k-th access. */
  function Drive(rows: seq<Row>, w: Writer, env: nat -> seq<Row>, k: nat): Local
    decreases Remaining(w)
  {
    if w.pc.Done? then Local(rows, w)
    else
      var l := Advance(rows + env(k), w);
      Drive(l.rows, l.writer, env, k + 1)
  }

  /** Drive, unfolded once. */
  lemma DriveStep(rows: seq<Row>, w: Writer, env: nat -> seq<Row>, k: nat)
    requires !w.pc.Done?
    ensures
      var l := Advance(rows + env(k), w);
      Drive(rows, w, env, k) == Drive(l.rows, l.writer, env, k + 1)
  {
  }

  function Quiet(k: nat): seq<Row> { [] }

  /** The credit_ledger table as the service sees it: only ever appended to. */
  class LedgerTable {
    var rows: seq<Row>

    /**
     The reads of one transaction: the row to insert, or the result when there is
     nothing to insert. `w` follows the call's program counter.
     */
    method ReadPhase(id: nat, company: string, q: Request, env: nat -> seq<Row>, k: nat, ghost w: Writer)
      returns (outcome: Option<Outcome>, row: Option<Row>, ghost w': Writer)
      requires w.id == id && w.company == company && w.request == q && w.pc == CheckKey
      modifies this
      ensures outcome.Some? ==> Drive(old(rows), w, env, k) == Local(rows, w') && w'.pc == Done(outcome.value)
      ensures outcome.None? ==>
        && row.Some? && Drive(old(rows), w, env, k) == Drive(rows, w', env, k + 2)
        && w'.pc == Insert(row.value)
        && w'.id == id && w'.company == company && w'.request == q && w'.attempt == w.attempt
    {
      DriveStep(rows, w, env, k);
      rows := rows + env(k);
      w' := Advance(rows, w).writer;
      var existing := Lookup(rows, company, KeyOf(q));
      if existing.Some? {
        return Some(Returned(existing.value)), None, w';
      }

      DriveStep(rows, w', env, k + 1);
      rows := rows + env(k + 1);
      w' := Advance(rows, w').writer;
      var latest := Latest(rows, company);
      var balance := if latest.Some? then latest.value.balanceAfter else 0;
      var input := Compute(q, balance);
      if input.Skip? {
        return Some(Nothing), None, w';
      }
      if input.Refuse? {
        return Some(Refused), None, w';
      }
      row := Some(Row(company, (if latest.Some? then latest.value.sequence else 0) + 1, input.kind, input.amount,
                      balance + input.amount, input.reference, KeyOf(q), id));
      return None, row, w';
    }

    /** One transaction of the loop: its result, or None when a unique index made it fail. */
    method Attempt(id: nat, company: string, q: Request, env: nat -> seq<Row>, k: nat, ghost w: Writer)
      returns (outcome: Option<Outcome>, ghost w': Writer)
      requires w.id == id && w.company == company && w.request == q && w.pc == CheckKey
      requires w.attempt <= MAX_APPEND_ATTEMPTS
      modifies this
      ensures outcome.Some? ==> Drive(old(rows), w, env, k) == Local(rows, w') && w'.pc == Done(outcome.value)
      ensures outcome.None? ==>
        && Drive(old(rows), w, env, k) == Drive(rows, w', env, k + 3)
        && w'.id == id && w'.company == company && w'.request == q
        && if w.attempt < MAX_APPEND_ATTEMPTS then w'.pc == CheckKey && w'.attempt == w.attempt + 1
           else w'.pc == Done(Busy)
    {
      var row;
      outcome, row, w' := ReadPhase(id, company, q, env, k, w);
      if outcome.Some? {
        return;
      }
      DriveStep(rows, w', env, k + 2);
      rows := rows + env(k + 2);
      w' := Advance(rows, w').writer;
      if !ChecksHold(row.value) {
        return Some(CheckFailed), w';
      }
      if Conflicts(rows, row.value) {
        return None, w';
      }
      rows := rows + [row.value];
      return Some(Returned(row.value)), w';
    }

    /** The retry loop of appendComputed, entered with a well-formed request. */
    method AppendComputed(id: nat, company: string, q: Request, env: nat -> seq<Row>)
      returns (outcome: Outcome)
      requires !Malformed(q)
      modifies this
      ensures
        var l := Drive(old(rows), Start(id, company, q, |old(rows)|), env, 0);
        l.writer.pc == Done(outcome) && rows == l.rows
    {
      ghost var w := Start(id, company, q, |rows|);
      for attempt := 1 to MAX_APPEND_ATTEMPTS + 1
        invariant w.id == id && w.company == company && w.request == q
        invariant w.pc == if attempt <= MAX_APPEND_ATTEMPTS then CheckKey else Done(Busy)
        invariant attempt <= MAX_APPEND_ATTEMPTS ==> w.attempt == attempt
        invariant Drive(rows, w, env, 3 * (attempt - 1)) == Drive(old(rows), Start(id, company, q, |old(rows)|), env, 0)
      {
        var result;
        result, w := Attempt(id, company, q, env, 3 * (attempt - 1), w);
        if result.Some? {
          return result.value;
        }
      }
      return Busy;
    }

    /**
     What applyToFee reports: the credit applied, the amount still due and the balance. When nothing was
     applied the balance is read once more, `later` being what others commit before that.
     */
    method ApplyToFee(id: nat, company: string, fee: int, reference: string, env: nat -> seq<Row>, later: seq<Row>)
      returns (outcome: Outcome, creditApplied: int, amountDue: int, balanceAfter: int)
      modifies this
      ensures fee <= 0 ==> outcome == Refused && rows == old(rows)
      ensures fee > 0 ==>
        var l := Drive(old(rows), Start(id, company, Request.ApplyToFee(fee, reference), |old(rows)|), env, 0);
        && l.writer.pc == Done(outcome) && (creditApplied, amountDue) == FeeAnswer(fee, outcome)
        && rows == (if outcome.Nothing? then l.rows + later else l.rows)
        && (outcome.Returned? ==> balanceAfter == outcome.row.balanceAfter)
        && (outcome.Nothing? ==> balanceAfter == Balance(rows, company))
    {
      if fee <= 0 {
        return Refused, 0, 0, 0;
      }
      outcome := AppendComputed(id, company, Request.ApplyToFee(fee, reference), env);
      creditApplied := if outcome.Returned? then -outcome.row.amount else 0;
      amountDue := fee - creditApplied;
      balanceAfter := if outcome.Returned? then outcome.row.balanceAfter else 0;
      if outcome.Nothing? {
        rows := rows + later;
        var latest := Latest(rows, company);
        balanceAfter := if latest.Some? then latest.value.balanceAfter else 0;
      }
    }
  }

  /** creditApplied and amountDue of a fee call that ended with `o`. */
  function FeeAnswer(fee: int, o: Outcome): (int, int) {
    var applied := if o.Returned? then -o.row.amount else 0;
    (applied, fee - applied)
  }
}
