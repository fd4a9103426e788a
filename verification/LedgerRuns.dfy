/**
 Every run of the ledger: any number of calls, for any companies, taking turns at
 their database accesses. Only an insert, with its unique checks, is atomic.
 */
module LedgerRuns {
  import opened Options
  import opened CreditLedger

  datatype State = State(rows: seq<Row>, writers: seq<Writer>)

  datatype Action = Call(company: string, request: Request) | Turn(i: nat)

  predicate Enabled(s: State, a: Action) {
    a.Turn? ==> a.i < |s.writers| && !s.writers[a.i].pc.Done?
  }

  function Apply(s: State, a: Action): State
    requires Enabled(s, a)
  {
    match a
    case Call(company, q) =>
      s.(writers := s.writers + [Start(|s.writers|, company, q, |s.rows|)])
    case Turn(i) =>
      var l := Advance(s.rows, s.writers[i]);
      State(l.rows, s.writers[i := l.writer])
  }

  predicate Legal(s: State, run: seq<Action>)
    decreases |run|
  {
    run == [] || (Enabled(s, run[0]) && Legal(Apply(s, run[0]), run[1..]))
  }

  function Exec(s: State, run: seq<Action>): State
    requires Legal(s, run)
    decreases |run|
  {
    if run == [] then s else Exec(Apply(s, run[0]), run[1..])
  }

  const EMPTY := State([], [])

  // ------------------------------------------------------------ the invariant

  /** The balance before the i-th entry of a company's own rows. */
  function Before(s: seq<Row>, i: nat): int
    requires i <= |s|
  {
    if i == 0 then 0 else s[i - 1].balanceAfter
  }

  /** The i-th row of a company is a serial append after the i-1 rows before it. */
  ghost predicate SerialAt(s: seq<Row>, i: nat)
    requires i < |s|
  {
    && s[i].sequence == i + 1
    && s[i].balanceAfter == Before(s, i) + s[i].amount
    && s[i].balanceAfter >= 0
    && s[i].amount != 0
    && (forall j | 0 <= j < i :: s[i].key.Some? ==> s[j].key != s[i].key)
  }

  ghost predicate Serial(rows: seq<Row>, company: string) {
    var s := Of(rows, company);
    forall i | 0 <= i < |s| :: SerialAt(s, i)
  }

  /** The i-th row of a company is what its call's compute function gives on the balance before it. */
  ghost predicate ExplainedAt(s: seq<Row>, i: nat, writers: seq<Writer>, company: string)
    requires i < |s|
  {
    && s[i].writer < |writers|
    && writers[s[i].writer].company == company
    && writers[s[i].writer].pc == Done(Returned(s[i]))
    && s[i].key == KeyOf(writers[s[i].writer].request)
    && Compute(writers[s[i].writer].request, Before(s, i)) == Write(s[i].kind, s[i].amount, s[i].reference)
  }

  ghost predicate Explained(rows: seq<Row>, writers: seq<Writer>, company: string) {
    var s := Of(rows, company);
    forall i | 0 <= i < |s| :: ExplainedAt(s, i, writers, company)
  }

  /** Number of a company's rows among the first k of the table. */
  function Count(rows: seq<Row>, k: nat, company: string): nat
    requires k <= |rows|
  {
    |Of(rows[..k], company)|
  }

  predicate Keyed(w: Writer) {
    KeyOf(w.request).Some? && KeyOf(w.request).value != ""
  }

  /** The one key the lookup ignores while the unique index enforces it. */
  predicate EmptyKey(w: Writer) {
    KeyOf(w.request) == Some("")
  }

  /** No row of the company holds the call's key among the first k rows. */
  ghost predicate KeyAbsent(rows: seq<Row>, k: nat, w: Writer)
    requires k <= |rows|
  {
    Keyed(w) ==> forall i | 0 <= i < k :: rows[i].company == w.company ==> rows[i].key != KeyOf(w.request)
  }

  /** The key is the empty one, and some row of the company holds it. */
  ghost predicate EmptyTaken(rows: seq<Row>, w: Writer) {
    EmptyKey(w) && exists i :: 0 <= i < |rows| && rows[i].company == w.company && rows[i].key == Some("")
  }

  /** Every failed attempt was paid for by a commit of another call, unless a taken empty key fails them all. */
  ghost predicate Contended(rows: seq<Row>, w: Writer, upTo: nat, failures: int)
    requires w.started <= upTo <= |rows|
  {
    EmptyTaken(rows, w) || Count(rows, upTo, w.company) - Count(rows, w.started, w.company) >= failures
  }

  ghost predicate WriterInv(rows: seq<Row>, w: Writer) {
    && w.started <= |rows| && w.marked <= |rows| && w.read <= |rows|
    && 1 <= w.attempt <= MAX_APPEND_ATTEMPTS
    && (w.pc != Done(Refused) ==> !Malformed(w.request))
    && match w.pc
       case CheckKey => Contended(rows, w, |rows|, w.attempt - 1)
       case ReadLatest =>
         && w.started <= w.marked <= |rows|
         && Contended(rows, w, w.marked, w.attempt - 1)
         && KeyAbsent(rows, w.marked, w)
       case Insert(row) =>
         && w.started <= w.marked <= w.read <= |rows|
         && Contended(rows, w, w.marked, w.attempt - 1)
         && KeyAbsent(rows, w.marked, w)
         && var d := Compute(w.request, Balance(rows[..w.read], w.company));
            d.Write? && row == NewRow(w, rows[..w.read], d)
       case Done(o) =>
         && w.started <= w.ended <= |rows|
         && (match o
             case Returned(row) =>
               && row in rows[..w.ended]
               && row.company == w.company
               && row.key == KeyOf(w.request)
               && (row.writer != w.id ==> Keyed(w))
               && (row in rows[..w.marked] || Compute(w.request, Balance(rows[..w.read], w.company)).Write?)
             case Nothing =>
               && w.started <= w.marked <= w.read <= w.ended
               && Compute(w.request, Balance(rows[..w.read], w.company)) == Skip
               && KeyAbsent(rows, w.marked, w)
             case Refused =>
               Malformed(w.request) || Compute(w.request, Balance(rows[..w.read], w.company)) == Refuse
             case CheckFailed => false
             case Busy =>
               && Contended(rows, w, w.ended, MAX_APPEND_ATTEMPTS)
               && KeyAbsent(rows, w.started, w))
  }

  ghost predicate Inv(s: State) {
    && (forall c: string :: Serial(s.rows, c) && Explained(s.rows, s.writers, c))
    && (forall i | 0 <= i < |s.writers| :: s.writers[i].id == i && WriterInv(s.rows, s.writers[i]))
  }

  // ------------------------------------------------------- facts about tables

  lemma OfAppend(rows: seq<Row>, r: Row, c: string)
    ensures Of(rows + [r], c) == if r.company == c then Of(rows, c) + [r] else Of(rows, c)
    ensures forall k | 0 <= k <= |rows| :: (rows + [r])[..k] == rows[..k]
  {
    assert (rows + [r])[..|rows|] == rows;
  }

  lemma {:induction false} OfMembers(rows: seq<Row>, c: string)
    ensures forall r :: r in Of(rows, c) <==> r in rows && r.company == c
  {
    if rows != [] {
      var n := |rows| - 1;
      OfMembers(rows[..n], c);
      assert rows == rows[..n] + [rows[n]];
    }
  }

  lemma {:induction false} CountMonotone(rows: seq<Row>, j: nat, k: nat, c: string)
    requires j <= k <= |rows|
    ensures Count(rows, j, c) <= Count(rows, k, c)
    ensures (exists i :: j <= i < k && rows[i].company == c) ==> Count(rows, j, c) < Count(rows, k, c)
    decreases k
  {
    if j < k {
      CountMonotone(rows, j, k - 1, c);
      assert rows[..k][..k - 1] == rows[..k - 1];
      assert rows[..k] == rows[..k - 1] + [rows[k - 1]];
      OfAppend(rows[..k - 1], rows[k - 1], c);
    }
  }

  /** Under serial sequences the row with the highest sequence is the last one. */
  lemma {:induction false} LatestIsLast(rows: seq<Row>, c: string)
    requires Serial(rows, c)
    ensures var s := Of(rows, c);
      LatestSequence(rows, c) == |s| && Balance(rows, c) == Before(s, |s|) && Balance(rows, c) >= 0
  {
    if rows != [] {
      var n := |rows| - 1;
      OfAppend(rows[..n], rows[n], c);
      assert rows == rows[..n] + [rows[n]];
      SerialPrefix(rows, n, c);
      LatestIsLast(rows[..n], c);
      var s := Of(rows, c);
      if rows[n].company == c {
        assert SerialAt(s, |s| - 1);
      }
    }
  }

  lemma {:induction false} SerialPrefix(rows: seq<Row>, k: nat, c: string)
    requires k <= |rows| && Serial(rows, c)
    ensures Serial(rows[..k], c)
    ensures Of(rows[..k], c) <= Of(rows, c)
    decreases |rows| - k
  {
    if k < |rows| {
      SerialPrefix(rows, k + 1, c);
      var t := rows[..k + 1];
      assert t == rows[..k] + [rows[k]];
      OfAppend(rows[..k], rows[k], c);
      var s, u := Of(rows[..k], c), Of(t, c);
      assert s <= u;
      forall i | 0 <= i < |s| ensures SerialAt(s, i) {
        assert SerialAt(u, i);
      }
    } else {
      assert rows[..k] == rows;
    }
  }

  lemma {:induction false} FindKeyMeaning(rows: seq<Row>, c: string, key: string)
    ensures var hit := FindKey(rows, c, key);
      && (hit.Some? ==> hit.value in rows && hit.value.company == c && hit.value.key == Some(key))
      && (hit.None? ==> forall i | 0 <= i < |rows| :: rows[i].company == c ==> rows[i].key != Some(key))
  {
    if rows != [] && !(rows[0].company == c && rows[0].key == Some(key)) {
      FindKeyMeaning(rows[1..], c, key);
      assert forall i | 0 < i < |rows| :: rows[i] == rows[1..][i - 1];
    }
  }

  /** A row that holds sequence q of a company is its q-th row. */
  lemma SequenceIsPosition(rows: seq<Row>, c: string, i: nat)
    requires Serial(rows, c) && i < |rows| && rows[i].company == c
    ensures rows[i].sequence == Count(rows, i, c) + 1
  {
    var t := rows[..i + 1];
    assert t == rows[..i] + [rows[i]];
    OfAppend(rows[..i], rows[i], c);
    SerialPrefix(rows, i + 1, c);
    assert SerialAt(Of(t, c), Count(rows, i, c));
  }

  // ------------------------------------------------- one step keeps everything

  /** Appending a row leaves what is known of any other call as it was. */
  lemma WriterFrame(rows: seq<Row>, r: Row, w: Writer)
    requires WriterInv(rows, w)
    ensures WriterInv(rows + [r], w)
  {
    OfAppend(rows, r, w.company);
    var rows' := rows + [r];
    assert rows'[..|rows|] == rows == rows[..|rows|];
    if w.pc.CheckKey? {
      CountMonotone(rows', |rows|, |rows'|, w.company);
      assert rows'[..|rows'|] == rows';
    }
  }

  /**
   The heart of the protocol: a row computed from a stale read passes the unique
   checks only if no row of the company was committed since that read.
   */
  lemma FreshOrConflict(rows: seq<Row>, w: Writer)
    requires Serial(rows, w.company) && WriterInv(rows, w) && w.pc.Insert?
    ensures !Conflicts(rows, w.pc.row) ==>
      var s := Of(rows, w.company);
      && Count(rows, w.read, w.company) == |s|
      && w.pc.row.sequence == |s| + 1
      && Balance(rows[..w.read], w.company) == Before(s, |s|)
    ensures ChecksHold(w.pc.row)
  {
    var c, row := w.company, w.pc.row;
    SerialPrefix(rows, w.read, c);
    LatestIsLast(rows[..w.read], c);
    CountMonotone(rows, w.read, |rows|, c);
    assert rows[..|rows|] == rows;
    if Count(rows, w.read, c) < |Of(rows, c)| {
      var i := NthRow(rows, c, Count(rows, w.read, c));
      SequenceIsPosition(rows, c, i);
      assert rows[i].company == row.company && rows[i].sequence == row.sequence;
    }
  }

  /** Position in the table of a company's n-th row. */
  lemma {:induction false} NthRow(rows: seq<Row>, c: string, n: nat) returns (i: nat)
    requires n < |Of(rows, c)|
    ensures i < |rows| && rows[i].company == c && Count(rows, i, c) == n
  {
    var m := |rows| - 1;
    assert rows == rows[..m] + [rows[m]];
    OfAppend(rows[..m], rows[m], c);
    if n < |Of(rows[..m], c)| {
      i := NthRow(rows[..m], c, n);
      assert rows[..m][..i] == rows[..i];
    } else {
      i := m;
    }
  }

  /** A conflicting insert names a row committed during this very attempt, or one holding its empty key. */
  lemma ConflictIsNew(rows: seq<Row>, w: Writer) returns (j: nat)
    requires Serial(rows, w.company) && WriterInv(rows, w) && w.pc.Insert? && Conflicts(rows, w.pc.row)
    ensures j < |rows| && rows[j].company == w.company
    ensures j >= w.marked || (EmptyKey(w) && rows[j].key == Some(""))
  {
    var c, row := w.company, w.pc.row;
    j :| 0 <= j < |rows| && rows[j].company == row.company &&
      (rows[j].sequence == row.sequence || (row.key.Some? && rows[j].key == row.key));
    if rows[j].sequence == row.sequence {
      SerialPrefix(rows, w.read, c);
      LatestIsLast(rows[..w.read], c);
      SequenceIsPosition(rows, c, j);
      if j < w.read {
        CountMonotone(rows, j, w.read, c);
        assert false;
      }
    }
  }

  lemma InsertKeepsSerial(rows: seq<Row>, w: Writer, c: string)
    requires WriterInv(rows, w) && w.pc.Insert?
    requires Serial(rows, w.company) && Serial(rows, c)
    requires !Conflicts(rows, w.pc.row)
    ensures Serial(rows + [w.pc.row], c)
  {
    OfAppend(rows, w.pc.row, c);
    if w.company == c {
      FreshOrConflict(rows, w);
      SerialPrefix(rows, w.read, c);
      LatestIsLast(rows[..w.read], c);
      AppendKeepsSerial(rows, w.pc.row);
    }
  }

  lemma AppendKeepsSerial(rows: seq<Row>, row: Row)
    requires Serial(rows, row.company) && !Conflicts(rows, row) && ChecksHold(row)
    requires var s := Of(rows, row.company);
      row.sequence == |s| + 1 && row.balanceAfter == Before(s, |s|) + row.amount
    ensures Serial(rows + [row], row.company)
  {
    var s, s' := Of(rows, row.company), Of(rows + [row], row.company);
    OfAppend(rows, row, row.company);
    forall n | 0 <= n < |s| ensures SerialAt(s', n) {
      assert SerialAt(s, n);
    }
    forall j | 0 <= j < |s| && s'[j].key.Some? ensures s'[j].key != row.key {
      OfMembers(rows, row.company);
      assert s[j] in rows;
    }
    assert SerialAt(s', |s|);
  }

  lemma InsertKeepsExplained(rows: seq<Row>, writers: seq<Writer>, i: nat, c: string)
    requires i < |writers| && writers[i].id == i
    requires WriterInv(rows, writers[i]) && writers[i].pc.Insert?
    requires Serial(rows, writers[i].company) && Explained(rows, writers, c)
    requires !Conflicts(rows, writers[i].pc.row)
    ensures
      var l := Advance(rows, writers[i]);
      Explained(l.rows, writers[i := l.writer], c)
  {
    var w := writers[i];
    InsertAdvances(rows, w);
    var l := Advance(rows, w);
    OfAppend(rows, w.pc.row, c);
    var s, s' := Of(rows, c), Of(l.rows, c);
    var writers' := writers[i := l.writer];
    forall n | 0 <= n < |s| ensures ExplainedAt(s', n, writers', c) {
      assert ExplainedAt(s, n, writers, c);
      StillExplained(s, s', n, writers, i, l.writer, c);
    }
    if w.company == c {
      RowIsExplained(rows, w, s, s', writers');
    }
  }

  lemma InsertAdvances(rows: seq<Row>, w: Writer)
    requires WriterInv(rows, w) && w.pc.Insert? && Serial(rows, w.company) && !Conflicts(rows, w.pc.row)
    ensures var l := Advance(rows, w);
      l.rows == rows + [w.pc.row] && l.writer.pc == Done(Returned(w.pc.row)) && w.pc.row.company == w.company
  {
    FreshOrConflict(rows, w);
  }

  /** An explained row stays explained when a call that had not ended moves on. */
  lemma StillExplained(s: seq<Row>, s': seq<Row>, n: nat, writers: seq<Writer>, i: nat, w: Writer, c: string)
    requires n < |s| && s <= s' && ExplainedAt(s, n, writers, c)
    requires i < |writers| && !writers[i].pc.Done?
    ensures ExplainedAt(s', n, writers[i := w], c)
  {
    assert Before(s', n) == Before(s, n);
  }

  /** The row just inserted is what its call computes on the balance before it. */
  lemma RowIsExplained(rows: seq<Row>, w: Writer, s: seq<Row>, s': seq<Row>, writers: seq<Writer>)
    requires WriterInv(rows, w) && w.pc.Insert? && Serial(rows, w.company) && !Conflicts(rows, w.pc.row)
    requires s == Of(rows, w.company) && s' == s + [w.pc.row]
    requires w.id < |writers| && writers[w.id] == Advance(rows, w).writer
    ensures ExplainedAt(s', |s|, writers, w.company)
  {
    FreshOrConflict(rows, w);
    assert Before(s', |s|) == Before(s, |s|);
  }

  /** A step that writes no row leaves the explanations alone. */
  lemma IdleKeepsExplained(rows: seq<Row>, writers: seq<Writer>, i: nat, w: Writer, c: string)
    requires i < |writers| && !writers[i].pc.Done? && Explained(rows, writers, c)
    ensures Explained(rows, writers[i := w], c)
  {
    var s, writers' := Of(rows, c), writers[i := w];
    forall n | 0 <= n < |s| ensures ExplainedAt(s, n, writers', c) {
      assert ExplainedAt(s, n, writers, c);
    }
  }

  lemma LookupKeepsWriter(rows: seq<Row>, w: Writer)
    requires WriterInv(rows, w) && w.pc.CheckKey?
    ensures WriterInv(rows, Advance(rows, w).writer)
  {
    if Keyed(w) {
      FindKeyMeaning(rows, w.company, KeyOf(w.request).value);
    }
    assert rows[..|rows|] == rows;
  }

  lemma ReadKeepsWriter(rows: seq<Row>, w: Writer)
    requires WriterInv(rows, w) && w.pc.ReadLatest?
    ensures WriterInv(rows, Advance(rows, w).writer)
  {
    assert rows[..|rows|] == rows;
  }

  lemma InsertKeepsWriter(rows: seq<Row>, w: Writer)
    requires Serial(rows, w.company) && WriterInv(rows, w) && w.pc.Insert?
    ensures var l := Advance(rows, w); WriterInv(l.rows, l.writer)
  {
    FreshOrConflict(rows, w);
    assert rows[..|rows|] == rows;
    if Conflicts(rows, w.pc.row) {
      var j := ConflictIsNew(rows, w);
      CountMonotone(rows, w.marked, |rows|, w.company);
    } else {
      WinnerKeepsWriter(rows, w);
    }
  }

  lemma WinnerKeepsWriter(rows: seq<Row>, w: Writer)
    requires WriterInv(rows, w) && w.pc.Insert? && ChecksHold(w.pc.row) && !Conflicts(rows, w.pc.row)
    ensures var l := Advance(rows, w); WriterInv(l.rows, l.writer)
  {
    var rows' := rows + [w.pc.row];
    assert rows'[..|rows'|] == rows' && rows'[|rows|] == w.pc.row;
    assert rows'[..w.read] == rows[..w.read];
  }

  lemma AdvanceKeepsWriter(rows: seq<Row>, w: Writer)
    requires Serial(rows, w.company) && WriterInv(rows, w) && !w.pc.Done?
    ensures var l := Advance(rows, w);
      WriterInv(l.rows, l.writer) && l.writer.id == w.id
    ensures Inserts(rows, w) ==> Advance(rows, w).rows == rows + [w.pc.row]
    ensures !Inserts(rows, w) ==> Advance(rows, w).rows == rows
  {
    match w.pc {
      case CheckKey => LookupKeepsWriter(rows, w);
      case ReadLatest => ReadKeepsWriter(rows, w);
      case Insert(_) => InsertKeepsWriter(rows, w); FreshOrConflict(rows, w);
    }
  }

  predicate Inserts(rows: seq<Row>, w: Writer) {
    w.pc.Insert? && !Conflicts(rows, w.pc.row)
  }

  lemma TurnKeepsInv(s: State, i: nat)
    requires Inv(s) && Enabled(s, Turn(i))
    ensures Inv(Apply(s, Turn(i)))
  {
    var w := s.writers[i];
    var s' := Apply(s, Turn(i));
    assert Serial(s.rows, w.company);
    AdvanceKeepsWriter(s.rows, w);
    forall c: string ensures Serial(s'.rows, c) && Explained(s'.rows, s'.writers, c) {
      assert Serial(s.rows, c) && Explained(s.rows, s.writers, c);
      if Inserts(s.rows, w) {
        InsertKeepsSerial(s.rows, w, c);
        InsertKeepsExplained(s.rows, s.writers, i, c);
      } else {
        IdleKeepsExplained(s.rows, s.writers, i, s'.writers[i], c);
      }
    }
    forall j | 0 <= j < |s.writers| ensures WriterInv(s'.rows, s'.writers[j]) && s'.writers[j].id == j {
      if j != i && Inserts(s.rows, w) { WriterFrame(s.rows, w.pc.row, s.writers[j]); }
    }
  }

  lemma CallKeepsInv(s: State, company: string, q: Request)
    requires Inv(s)
    ensures Inv(Apply(s, Call(company, q)))
  {
    var s' := Apply(s, Call(company, q));
    assert s.rows[..|s.rows|] == s.rows;
    forall c: string ensures Serial(s'.rows, c) && Explained(s'.rows, s'.writers, c) {
      assert Serial(s.rows, c) && Explained(s.rows, s.writers, c);
      var own := Of(s.rows, c);
      forall n | 0 <= n < |own| ensures ExplainedAt(own, n, s'.writers, c) {
        assert ExplainedAt(own, n, s.writers, c);
      }
    }
  }

  lemma {:induction false} RunKeepsInv(s: State, run: seq<Action>)
    requires Inv(s) && Legal(s, run)
    ensures Inv(Exec(s, run))
    decreases |run|
  {
    if run != [] {
      match run[0] {
        case Call(c, q) => CallKeepsInv(s, c, q);
        case Turn(i) => TurnKeepsInv(s, i);
      }
      RunKeepsInv(Apply(s, run[0]), run[1..]);
    }
  }

  // --------------------------------------------------------------- main results

  /** A reachable state: what some run makes of the empty ledger. */
  ghost predicate Reachable(s: State) {
    exists run :: Legal(EMPTY, run) && Exec(EMPTY, run) == s
  }

  /** One more step from a reachable state. */
  lemma Continue(s: State, t: State, a: Action)
    requires Reachable(s) && Enabled(s, a) && t == Apply(s, a)
    ensures Reachable(t)
  {
    var run :| Legal(EMPTY, run) && Exec(EMPTY, run) == s;
    Extend(EMPTY, run, a);
  }

  lemma {:induction false} Extend(s: State, run: seq<Action>, a: Action)
    requires Legal(s, run) && Enabled(Exec(s, run), a)
    ensures Legal(s, run + [a]) && Exec(s, run + [a]) == Apply(Exec(s, run), a)
    decreases |run|
  {
    if run == [] {
      assert run + [a] == [a] && [a][1..] == [];
    } else {
      assert (run + [a])[1..] == run[1..] + [a];
      Extend(Apply(s, run[0]), run[1..], a);
    }
  }

  /** The call that wrote a row has ended with it. */
  lemma AuthorReturned(s: State, r: Row)
    requires Inv(s) && r in s.rows
    ensures r.writer < |s.writers| && s.writers[r.writer].pc == Done(Returned(r))
    ensures s.writers[r.writer].company == r.company
  {
    OfMembers(s.rows, r.company);
    assert Explained(s.rows, s.writers, r.company);
    var own := Of(s.rows, r.company);
    var n :| 0 <= n < |own| && own[n] == r;
    assert ExplainedAt(own, n, s.writers, r.company);
  }

  lemma ReachableInv(s: State)
    requires Reachable(s)
    ensures Inv(s)
  {
    var run :| Legal(EMPTY, run) && Exec(EMPTY, run) == s;
    RunKeepsInv(EMPTY, run);
  }

  /**
   Every run keeps the ledger serial: sequences are 1..n in commit order, each balance is
   the one before it plus the amount and never negative, no key repeats, and each row is
   what its call's compute function gives on the balance immediately before it.
   */
  lemma LedgerIsSerial(s: State, c: string)
    requires Reachable(s)
    ensures Serial(s.rows, c) && Explained(s.rows, s.writers, c)
    ensures Balance(s.rows, c) >= 0
  {
    ReachableInv(s);
    assert Serial(s.rows, c) && Explained(s.rows, s.writers, c);
    LatestIsLast(s.rows, c);
  }

  /** The table after the call of `w` has run on `rows` with nobody else. */
  function Alone(rows: seq<Row>, w: Writer): seq<Row> {
    Drive(rows, Start(w.id, w.company, w.request, |rows|), Quiet, 0).rows
  }

  /** The calls that wrote `order`, run one after the other on an empty table. */
  function Replay(order: seq<Row>, writers: seq<Writer>): seq<Row>
    requires forall r | r in order :: r.writer < |writers|
  {
    if order == [] then []
    else
      var n := |order| - 1;
      Alone(Replay(order[..n], writers), writers[order[n].writer])
  }

  /** What becomes of the call of `w` run on `rows` with nobody else. */
  function AloneCall(rows: seq<Row>, w: Writer): Local {
    Drive(rows, Start(w.id, w.company, w.request, |rows|), Quiet, 0)
  }

  /** A lone call whose key is free writes the row its compute function asks for. */
  lemma LoneWrite(rows: seq<Row>, w: Writer, row: Row)
    requires !Malformed(w.request) && KeyAbsent(rows, |rows|, w)
    requires var d := Compute(w.request, Balance(rows, w.company)); d.Write? && row == NewRow(w, rows, d)
    requires ChecksHold(row) && !Conflicts(rows, row)
    ensures Alone(rows, w) == rows + [row]
    ensures AloneCall(rows, w).rows == rows + [row] && AloneCall(rows, w).writer.pc == Done(Returned(row))
  {
    assert rows + [] == rows;
    if Keyed(w) {
      FindKeyMeaning(rows, w.company, KeyOf(w.request).value);
    }
    var w0 := Start(w.id, w.company, w.request, |rows|);
    DriveStep(rows, w0, Quiet, 0);
    var w1 := w0.(marked := |rows|, pc := ReadLatest);
    assert Advance(rows, w0) == Local(rows, w1);
    DriveStep(rows, w1, Quiet, 1);
    var w2 := w1.(read := |rows|, pc := Insert(row));
    assert Advance(rows, w1) == Local(rows, w2);
    DriveStep(rows, w2, Quiet, 2);
  }

  /** A lone call with nothing to write leaves the table alone. */
  lemma LoneSkip(rows: seq<Row>, w: Writer)
    requires !Malformed(w.request) && KeyAbsent(rows, |rows|, w)
    requires Compute(w.request, Balance(rows, w.company)) == Skip
    ensures AloneCall(rows, w).rows == rows && AloneCall(rows, w).writer.pc == Done(Nothing)
  {
    assert rows + [] == rows;
    if Keyed(w) {
      FindKeyMeaning(rows, w.company, KeyOf(w.request).value);
    }
    var w0 := Start(w.id, w.company, w.request, |rows|);
    DriveStep(rows, w0, Quiet, 0);
    var w1 := w0.(marked := |rows|, pc := ReadLatest);
    assert Advance(rows, w0) == Local(rows, w1);
    DriveStep(rows, w1, Quiet, 1);
  }

  /** The k-th row repeats neither the sequence nor the key of its company's earlier rows. */
  lemma RowIsFreshAt(rows: seq<Row>, k: nat)
    requires k < |rows| && Serial(rows, rows[k].company)
    ensures !Conflicts(rows[..k], rows[k])
  {
    var c, row, before := rows[k].company, rows[k], rows[..k];
    SequenceIsPosition(rows, c, k);
    KthOwnRow(rows, k);
    OfMembers(before, c);
    var own, n := Of(rows, c), Count(rows, k, c);
    assert SerialAt(own, n);
    forall i | 0 <= i < k && before[i].company == c
      ensures before[i].sequence != row.sequence && (row.key.Some? ==> before[i].key != row.key)
    {
      SequenceIsPosition(rows, c, i);
      CountMonotone(rows, i, k, c);
      assert before[i] in own[..n];
    }
  }

  lemma KthOwnRow(rows: seq<Row>, k: nat)
    requires k < |rows| && Serial(rows, rows[k].company)
    ensures
      var own, n := Of(rows, rows[k].company), Count(rows, k, rows[k].company);
      n < |own| && own[n] == rows[k] && own[..n] == Of(rows[..k], rows[k].company)
  {
    var c := rows[k].company;
    assert rows[..k + 1] == rows[..k] + [rows[k]];
    OfAppend(rows[..k], rows[k], c);
    SerialPrefix(rows, k + 1, c);
    SerialPrefix(rows, k, c);
  }

  lemma ReplayStep(s: State, k: nat)
    requires Inv(s) && k < |s.rows| && s.rows[k].writer < |s.writers|
    ensures Alone(s.rows[..k], s.writers[s.rows[k].writer]) == s.rows[..k + 1]
  {
    var row, before := s.rows[k], s.rows[..k];
    var c := row.company;
    assert s.rows[..k + 1] == before + [row];
    assert Serial(s.rows, c) && Explained(s.rows, s.writers, c);
    RowIsFreshAt(s.rows, k);
    KthOwnRow(s.rows, k);
    SerialPrefix(s.rows, k, c);
    LatestIsLast(before, c);
    var own, n := Of(s.rows, c), Count(s.rows, k, c);
    assert SerialAt(own, n) && ExplainedAt(own, n, s.writers, c);
    assert s.writers[row.writer].id == row.writer && WriterInv(s.rows, s.writers[row.writer]);
    LoneWrite(before, s.writers[row.writer], row);
  }

  /** Whatever the interleaving, the table is that of a serial execution in commit order. */
  lemma Serialisable(s: State)
    requires Reachable(s)
    ensures forall r | r in s.rows :: r.writer < |s.writers|
    ensures Replay(s.rows, s.writers) == s.rows
  {
    ReachableInv(s);
    forall r | r in s.rows ensures r.writer < |s.writers| {
      AuthorReturned(s, r);
    }
    ReplayPrefix(s, |s.rows|);
    assert s.rows[..|s.rows|] == s.rows;
  }

  lemma {:induction false} ReplayPrefix(s: State, k: nat)
    requires Inv(s) && k <= |s.rows| && forall r | r in s.rows :: r.writer < |s.writers|
    ensures Replay(s.rows[..k], s.writers) == s.rows[..k]
    decreases k
  {
    if k > 0 {
      ReplayPrefix(s, k - 1);
      assert s.rows[..k][..k - 1] == s.rows[..k - 1];
      ReplayStep(s, k - 1);
    }
  }

  /** Giving up costs at least five commits by other calls while the call was running, or a taken empty key. */
  lemma BusyMeansContention(s: State, i: nat)
    requires Reachable(s) && i < |s.writers| && s.writers[i].pc == Done(Busy)
    ensures
      var w := s.writers[i];
      && w.started <= w.ended <= |s.rows|
      && (EmptyTaken(s.rows, w)
          || Count(s.rows, w.ended, w.company) - Count(s.rows, w.started, w.company) >= 5)
    ensures forall r | r in s.rows :: r.writer != i
  {
    ReachableInv(s);
    forall r | r in s.rows ensures r.writer != i {
      AuthorReturned(s, r);
    }
  }

  /** The CHECK constraints never reject a row: no call of any run ends that way. */
  lemma ChecksNeverFail(s: State, i: nat)
    requires Reachable(s) && i < |s.writers|
    ensures s.writers[i].pc != Done(CheckFailed)
    ensures s.writers[i].pc.Insert? ==> ChecksHold(s.writers[i].pc.row)
  {
    ReachableInv(s);
    var w := s.writers[i];
    assert WriterInv(s.rows, w);
    if w.pc.Insert? {
      SerialPrefix(s.rows, w.read, w.company);
      LatestIsLast(s.rows[..w.read], w.company);
    }
  }

  /** Every single failure is matched by another call's row: committed during that attempt, or holding the empty key. */
  lemma FailedAttemptHasWinner(s: State, i: nat) returns (j: nat)
    requires Reachable(s) && i < |s.writers| && s.writers[i].pc.Insert?
    requires Conflicts(s.rows, s.writers[i].pc.row)
    ensures
      var w := s.writers[i];
      && j < |s.rows| && s.rows[j].company == w.company && s.rows[j].writer != i
      && (j >= w.marked || (KeyOf(w.request) == Some("") && s.rows[j].key == Some("")))
  {
    ReachableInv(s);
    assert Serial(s.rows, s.writers[i].company);
    j := ConflictIsNew(s.rows, s.writers[i]);
    AuthorReturned(s, s.rows[j]);
  }

  /** The key of call i is in the table, and the call is about to look it up or has returned it. */
  ghost predicate KeyWillBeFound(s: State, i: nat) {
    && i < |s.writers|
    && var w := s.writers[i];
    && Keyed(w)
    && (exists r :: r in s.rows && r.company == w.company && r.key == KeyOf(w.request))
    && (w.pc.CheckKey? || (w.pc.Done? && w.pc.outcome.Returned? && w.pc.outcome.row.key == KeyOf(w.request)))
  }

  /** A conflict on the key itself is the last one: every later turn of the call returns the row. */
  lemma {:induction false} KeyConflictIsLast(s: State, i: nat, run: seq<Action>)
    requires KeyWillBeFound(s, i) && Legal(s, run)
    ensures KeyWillBeFound(Exec(s, run), i)
    decreases |run|
  {
    if run != [] {
      var w := s.writers[i];
      FindKeyMeaning(s.rows, w.company, KeyOf(w.request).value);
      var s1 := Apply(s, run[0]);
      assert forall r | r in s.rows :: r in s1.rows;
      KeyConflictIsLast(s1, i, run[1..]);
    }
  }

  /**
   "The retry returns it" holds exactly when there is a retry: a conflict on the key sends the call to
   a lookup that will find it, but on the fifth attempt it answers busy although the row exists.
   */
  lemma KeyConflictReturnsIff(s: State, i: nat)
    requires Reachable(s) && i < |s.writers| && s.writers[i].pc.Insert? && Keyed(s.writers[i])
    requires exists r :: r in s.rows && r.company == s.writers[i].company && r.key == KeyOf(s.writers[i].request)
    ensures KeyWillBeFound(Apply(s, Turn(i)), i) <==> s.writers[i].attempt < 5
    ensures s.writers[i].attempt >= 5 ==> Apply(s, Turn(i)).writers[i].pc == Done(Busy)
    ensures Apply(s, Turn(i)).rows == s.rows
  {
    ReachableInv(s);
    var w := s.writers[i];
    assert WriterInv(s.rows, w);
    assert Serial(s.rows, w.company);
    FreshOrConflict(s.rows, w);
    var r :| r in s.rows && r.company == w.company && r.key == KeyOf(w.request);
    var j :| 0 <= j < |s.rows| && s.rows[j] == r;
    assert Conflicts(s.rows, w.pc.row);
  }

  // ------------------------------------------------------- calls left to themselves

  /** The empty key is stored and unique, yet never looked up. */
  ghost predicate EmptyKeyTaken(rows: seq<Row>, c: string, q: Request) {
    && KeyOf(q) == Some("")
    && Compute(q, Balance(rows, c)).Write?
    && exists i :: 0 <= i < |rows| && rows[i].company == c && rows[i].key == Some("")
  }

  /** A call nobody competes with is told "busy" exactly when its key is a taken empty string. */
  lemma LoneCallIsBusyIff(rows: seq<Row>, id: nat, c: string, q: Request)
    requires Serial(rows, c) && !Malformed(q)
    ensures var l := Drive(rows, Start(id, c, q, |rows|), Quiet, 0);
      l.writer.pc == Done(Busy) <==> EmptyKeyTaken(rows, c, q)
  {
    LoneAttempts(rows, Start(id, c, q, |rows|), 0);
  }

  lemma {:induction false} LoneAttempts(rows: seq<Row>, w: Writer, k: nat)
    requires Serial(rows, w.company) && w.pc.CheckKey? && 1 <= w.attempt <= MAX_APPEND_ATTEMPTS
    requires !Malformed(w.request)
    ensures Drive(rows, w, Quiet, k).writer.pc == Done(Busy) <==> EmptyKeyTaken(rows, w.company, w.request)
    decreases MAX_APPEND_ATTEMPTS - w.attempt
  {
    assert rows + [] == rows;
    LatestIsLast(rows, w.company);
    DriveStep(rows, w, Quiet, k);
    var w1 := Advance(rows, w).writer;
    if !w1.pc.Done? {
      if Keyed(w) {
        FindKeyMeaning(rows, w.company, KeyOf(w.request).value);
      }
      DriveStep(rows, w1, Quiet, k + 1);
      var w2 := Advance(rows, w1).writer;
      if !w2.pc.Done? {
        LoneInsert(rows, w, w2.pc.row);
        DriveStep(rows, w2, Quiet, k + 2);
        var w3 := Advance(rows, w2).writer;
        if !w3.pc.Done? {
          LoneAttempts(rows, w3, k + 3);
        }
      }
    }
  }

  lemma LoneInsert(rows: seq<Row>, w: Writer, row: Row)
    requires Serial(rows, w.company) && !Malformed(w.request) && KeyAbsent(rows, |rows|, w)
    requires var d := Compute(w.request, Balance(rows, w.company)); d.Write? && row == NewRow(w, rows, d)
    ensures ChecksHold(row)
    ensures Conflicts(rows, row) <==> EmptyKeyTaken(rows, w.company, w.request)
  {
    var c := w.company;
    LatestIsLast(rows, c);
    forall i | 0 <= i < |rows| && rows[i].company == c ensures rows[i].sequence != row.sequence {
      SequenceIsPosition(rows, c, i);
      CountMonotone(rows, i, |rows|, c);
      assert rows[..|rows|] == rows;
    }
  }
}
