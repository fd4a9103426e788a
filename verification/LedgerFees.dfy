/** What applyToFee promises over runs of the ledger, and where concurrency takes it back. */
module LedgerFees {
  import opened Options
  import opened CreditLedger
  import opened LedgerRuns

  predicate IsFeeKey(key: Option<string>) {
    key.Some? && |key.value| >= 4 && key.value[..4] == "fee:"
  }

  /** Only applyToFee uses `fee:` keys, and a company's fee reference always comes with one fee. */
  ghost predicate Disciplined(s: State) {
    && (forall i | 0 <= i < |s.writers| && s.writers[i].request.Append? :: !IsFeeKey(s.writers[i].request.key))
    && (forall i, j | 0 <= i < |s.writers| && 0 <= j < |s.writers| ::
          var a, b := s.writers[i], s.writers[j];
          (a.request.ApplyToFee? && b.request.ApplyToFee? && a.company == b.company &&
           a.request.feeReference == b.request.feeReference) ==> a.request.fee == b.request.fee)
  }

  function FeeKey(reference: string): Option<string> { Some("fee:" + reference) }

  lemma FeeKeyIsInjective(a: string, b: string)
    ensures FeeKey(a) == FeeKey(b) ==> a == b
    ensures IsFeeKey(FeeKey(a))
  {
    assert ("fee:" + a)[4..] == a && ("fee:" + b)[4..] == b;
  }

  /** Two rows of a company with the same key are the same row. */
  lemma KeyNamesOneRow(s: State, p: Row, q: Row)
    requires Reachable(s) && p in s.rows && q in s.rows
    requires p.company == q.company && p.key.Some? && p.key == q.key
    ensures p == q
  {
    LedgerIsSerial(s, p.company);
    OfMembers(s.rows, p.company);
    var own := Of(s.rows, p.company);
    var i :| 0 <= i < |own| && own[i] == p;
    var j :| 0 <= j < |own| && own[j] == q;
    assert SerialAt(own, i) && SerialAt(own, j);
  }

  /** The row of a fee reference is one deduction, of more than nothing and at most the fee. */
  lemma FeeRowIsADeduction(s: State, r: Row, i: nat)
    requires Reachable(s) && Disciplined(s) && r in s.rows && i < |s.writers|
    requires s.writers[i].request.ApplyToFee? && r.company == s.writers[i].company
    requires r.key == KeyOf(s.writers[i].request)
    ensures r.kind == FeeDeduction && 0 < -r.amount <= s.writers[i].request.fee
    ensures r.reference == Some(s.writers[i].request.feeReference)
  {
    LedgerIsSerial(s, r.company);
    OfMembers(s.rows, r.company);
    var own := Of(s.rows, r.company);
    var n :| 0 <= n < |own| && own[n] == r;
    assert SerialAt(own, n) && ExplainedAt(own, n, s.writers, r.company);
    var author := s.writers[r.writer];
    FeeKeyIsInjective(s.writers[i].request.feeReference, s.writers[i].request.feeReference);
    assert author.request.ApplyToFee?;
    FeeKeyIsInjective(author.request.feeReference, s.writers[i].request.feeReference);
  }

  /** A fee call takes all it can: the whole fee, or everything the company has. */
  lemma FeeTakesAllItCan(s: State, r: Row, fee: int, reference: string)
    requires Reachable(s) && r in s.rows
    requires r.writer < |s.writers| && s.writers[r.writer].request == ApplyToFee(fee, reference)
    ensures 0 < -r.amount <= fee && (-r.amount == fee || r.balanceAfter == 0)
    ensures r.kind == FeeDeduction && r.reference == Some(reference) && r.key == Some("fee:" + reference)
  {
    LedgerIsSerial(s, r.company);
    OfMembers(s.rows, r.company);
    var own := Of(s.rows, r.company);
    var n :| 0 <= n < |own| && own[n] == r;
    assert SerialAt(own, n) && ExplainedAt(own, n, s.writers, r.company);
  }

  /** An appended row is the one asked for. */
  lemma AppendWritesWhatWasAsked(s: State, r: Row, kind: EntryType, amount: int, reference: Option<string>,
                                 key: Option<string>)
    requires Reachable(s) && r in s.rows
    requires r.writer < |s.writers| && s.writers[r.writer].request == Append(kind, amount, reference, key)
    ensures r.kind == kind && r.amount == amount != 0 && r.reference == reference && r.key == key
    ensures r.balanceAfter - amount >= 0 && r.balanceAfter >= 0
  {
    LedgerIsSerial(s, r.company);
    OfMembers(s.rows, r.company);
    var own := Of(s.rows, r.company);
    var n :| 0 <= n < |own| && own[n] == r;
    assert SerialAt(own, n) && ExplainedAt(own, n, s.writers, r.company);
    if n > 0 { assert SerialAt(own, n - 1); }
  }

  /** An append that ends by itself, neither busy nor answered from its key, is refused exactly when the balance
      it read cannot absorb it. */
  lemma AppendRefusedIff(s: State, i: nat)
    requires Reachable(s) && i < |s.writers| && s.writers[i].request.Append? && s.writers[i].request.amount != 0
    requires s.writers[i].pc.Done? && s.writers[i].pc.outcome != Busy
    requires s.writers[i].pc.outcome.Returned? && s.writers[i].marked <= |s.rows| ==>
      s.writers[i].pc.outcome.row !in s.rows[..s.writers[i].marked]
    ensures
      var w := s.writers[i];
      && w.marked <= |s.rows| && w.read <= |s.rows|
      && (w.pc.outcome == Refused <==> Balance(s.rows[..w.read], w.company) + w.request.amount < 0)
      && (w.pc.outcome != Refused ==> w.pc.outcome.Returned?)
  {
    ReachableInv(s);
    assert WriterInv(s.rows, s.writers[i]);
  }

  function Smaller(a: int, b: int): int { if a < b then a else b }

  predicate NewReference(rows: seq<Row>, c: string, reference: string) {
    forall k | 0 <= k < |rows| && rows[k].company == c :: rows[k].key != Some("fee:" + reference)
  }

  lemma NewReferenceIsAbsent(rows: seq<Row>, w: Writer, fee: int, reference: string)
    requires fee > 0 && w.request == Request.ApplyToFee(fee, reference) && NewReference(rows, w.company, reference)
    ensures !Malformed(w.request) && KeyAbsent(rows, |rows|, w)
  {
  }

  /** A fee call left alone, its reference new: what it takes, what stays due and what is left, in numbers. */
  lemma LoneFee(rows: seq<Row>, w: Writer, fee: int, reference: string)
    requires fee > 0 && w.request == Request.ApplyToFee(fee, reference)
    requires Serial(rows, w.company) && NewReference(rows, w.company, reference)
    ensures
      var l, balance := AloneCall(rows, w), Balance(rows, w.company);
      && l.writer.pc.Done?
      && if balance > 0 then
           var taken := Smaller(balance, fee);
           && l.writer.pc.outcome.Returned? && l.rows == rows + [l.writer.pc.outcome.row]
           && FeeAnswer(fee, l.writer.pc.outcome) == (taken, fee - taken)
           && l.writer.pc.outcome.row.balanceAfter == balance - taken
         else l.rows == rows && l.writer.pc.outcome == Nothing && FeeAnswer(fee, Nothing) == (0, fee)
  {
    var balance := Balance(rows, w.company);
    NewReferenceIsAbsent(rows, w, fee, reference);
    if balance > 0 {
      var d := Write(FeeDeduction, -Smaller(balance, fee), Some(reference));
      var row := NewRow(w, rows, d);
      LoneInsert(rows, w, row);
      LoneWrite(rows, w, row);
    } else {
      LoneSkip(rows, w);
    }
  }

  /** applyToFee with nobody else about. */
  method ApplyToFeeAlone(table: LedgerTable, id: nat, company: string, fee: int, reference: string)
    returns (creditApplied: int, amountDue: int, balanceAfter: int)
    requires fee > 0 && Serial(table.rows, company) && NewReference(table.rows, company, reference)
    modifies table
    ensures
      var balance := old(Balance(table.rows, company));
      && creditApplied == (if balance <= 0 then 0 else Smaller(balance, fee))
      && amountDue == fee - creditApplied && balanceAfter == balance - creditApplied
      && |table.rows| == |old(table.rows)| + (if balance > 0 then 1 else 0) && old(table.rows) <= table.rows
  {
    LoneFee(table.rows, Start(id, company, Request.ApplyToFee(fee, reference), 0), fee, reference);
    LatestIsLast(table.rows, company);
    assert table.rows + [] == table.rows;
    var outcome;
    outcome, creditApplied, amountDue, balanceAfter := table.ApplyToFee(id, company, fee, reference, Quiet, []);
  }

  /** A fee call begun after the reference's row was committed can only answer with that row. */
  lemma LaterFeeCallRepeatsTheAnswer(s: State, r: Row, i: nat)
    requires Reachable(s) && i < |s.writers| && s.writers[i].request.ApplyToFee?
    requires !Malformed(s.writers[i].request) && s.writers[i].pc.Done?
    requires r.company == s.writers[i].company && r.key == KeyOf(s.writers[i].request)
    requires s.writers[i].started <= |s.rows| && r in s.rows[..s.writers[i].started]
    ensures s.writers[i].pc.outcome == Returned(r)
    ensures FeeAnswer(s.writers[i].request.fee, s.writers[i].pc.outcome)
            == (-r.amount, s.writers[i].request.fee + r.amount)
  {
    ReachableInv(s);
    var w := s.writers[i];
    assert WriterInv(s.rows, w) && Keyed(w);
    var j :| 0 <= j < |s.rows[..w.started]| && s.rows[..w.started][j] == r;
    assert s.rows[j] == r;
    RefusedOnlyWhenMalformed(s, i);
    match w.pc.outcome {
      case Returned(row) =>
        assert row in s.rows;
        KeyNamesOneRow(s, r, row);
      case _ =>
    }
  }

  /**
   Exactly when a finished fee call answers with the reference's row: it looked its key up after the row
   was committed, or it read a positive balance. A call that read a zero balance has told its caller
   that the whole fee is due, and a top-up makes the next call tell another story.
   */
  lemma AnswersWithTheRowIff(s: State, r: Row, i: nat)
    requires Reachable(s) && i < |s.writers| && s.writers[i].request.ApplyToFee?
    requires !Malformed(s.writers[i].request) && s.writers[i].pc.Done? && s.writers[i].pc.outcome != Busy
    requires r in s.rows && r.company == s.writers[i].company && r.key == KeyOf(s.writers[i].request)
    ensures
      var w := s.writers[i];
      && w.marked <= |s.rows| && w.read <= |s.rows|
      && (w.pc.outcome == Returned(r) <==> r in s.rows[..w.marked] || Balance(s.rows[..w.read], w.company) > 0)
  {
    ReachableInv(s);
    var w := s.writers[i];
    assert WriterInv(s.rows, w) && Keyed(w);
    RefusedOnlyWhenMalformed(s, i);
    match w.pc.outcome {
      case Returned(row) =>
        assert row in s.rows;
        KeyNamesOneRow(s, r, row);
      case _ =>
    }
  }

  /** A fee call is refused before the loop or not at all. */
  lemma RefusedOnlyWhenMalformed(s: State, i: nat)
    requires Reachable(s) && i < |s.writers| && s.writers[i].request.ApplyToFee?
    requires !Malformed(s.writers[i].request)
    ensures s.writers[i].pc != Done(Refused)
  {
    var run :| Legal(EMPTY, run) && Exec(EMPTY, run) == s;
    NeverRefused(EMPTY, run);
  }

  ghost predicate NoFeeRefused(s: State) {
    forall i | 0 <= i < |s.writers| && s.writers[i].request.ApplyToFee? && !Malformed(s.writers[i].request) ::
      s.writers[i].pc != Done(Refused)
  }

  lemma {:induction false} NeverRefused(s: State, run: seq<Action>)
    requires NoFeeRefused(s) && Legal(s, run)
    ensures NoFeeRefused(Exec(s, run))
    decreases |run|
  {
    if run != [] {
      NeverRefused(Apply(s, run[0]), run[1..]);
    }
  }

  lemma SkippedOnZero(rows: seq<Row>, w: Writer)
    requires Serial(rows, w.company) && WriterInv(rows, w) && w.pc == Done(Nothing)
    ensures w.request.ApplyToFee? && w.started <= w.read <= w.ended <= |rows|
    ensures Balance(rows[..w.read], w.company) == 0
  {
    SerialPrefix(rows, w.read, w.company);
    LatestIsLast(rows[..w.read], w.company);
  }

  /** Finding no credit writes nothing and fixes no answer: the balance was zero when it was read. */
  lemma NothingMeansNoCredit(s: State, i: nat)
    requires Reachable(s) && i < |s.writers| && s.writers[i].pc == Done(Nothing)
    ensures
      var w := s.writers[i];
      && w.request.ApplyToFee?
      && w.started <= w.read <= w.ended <= |s.rows|
      && Balance(s.rows[..w.read], w.company) == 0
      && FeeAnswer(w.request.fee, w.pc.outcome) == (0, w.request.fee)
    ensures forall r | r in s.rows :: r.writer != i
  {
    ReachableInv(s);
    LedgerIsSerial(s, s.writers[i].company);
    SkippedOnZero(s.rows, s.writers[i]);
    forall r | r in s.rows ensures r.writer != i {
      AuthorReturned(s, r);
    }
  }

  /** Sum of the amounts of one sign. */
  function Total(own: seq<Row>, positive: bool): nat {
    if own == [] then 0
    else
      var n := |own| - 1;
      Total(own[..n], positive) +
      (if positive && own[n].amount > 0 then own[n].amount
       else if !positive && own[n].amount < 0 then -own[n].amount else 0)
  }

  lemma {:induction false} BalanceIsAddedMinusSpent(own: seq<Row>)
    requires forall i | 0 <= i < |own| :: SerialAt(own, i)
    ensures Before(own, |own|) == Total(own, true) - Total(own, false)
  {
    if own != [] {
      var n := |own| - 1;
      forall i | 0 <= i < n ensures SerialAt(own[..n], i) {
        assert SerialAt(own, i);
      }
      BalanceIsAddedMinusSpent(own[..n]);
      assert SerialAt(own, n);
    }
  }

  /** Credit is never double-spent: what was deducted never exceeds what was added. */
  lemma SpendingIsCovered(s: State, c: string)
    requires Reachable(s)
    ensures Total(Of(s.rows, c), false) <= Total(Of(s.rows, c), true)
    ensures Balance(s.rows, c) == Total(Of(s.rows, c), true) - Total(Of(s.rows, c), false)
  {
    LedgerIsSerial(s, c);
    LatestIsLast(s.rows, c);
    BalanceIsAddedMinusSpent(Of(s.rows, c));
  }

  /**
   "Idempotent per fee reference" does not cover calls that overlap: the second call
   looks its key up before the first commits and reads the balance after, so one
   reports the fee fully covered and the other fully due.
   */
  lemma OverlappingFeeCallsDisagree() returns (s: State)
    ensures Reachable(s) && Disciplined(s) && |s.writers| == 3
    ensures forall i | i == 1 || i == 2 ::
      s.writers[i].company == "c" && s.writers[i].request == ApplyToFee(100, "x") && s.writers[i].pc.Done?
    ensures FeeAnswer(100, s.writers[1].pc.outcome) == (100, 0)
    ensures FeeAnswer(100, s.writers[2].pc.outcome) == (0, 100)
  {
    var spent := Row("c", 2, FeeDeduction, -100, 0, Some("x"), FeeKey("x"), 1);
    var s2 := BothLookedUp();
    var bought := s2.rows[0];
    assert Latest([bought], "c") == Some(bought);
    var s3 := Apply(s2, Turn(1));
    assert s3.writers[1].pc == Insert(spent);
    Continue(s2, s3, Turn(1));
    var s4 := Apply(s3, Turn(1));
    assert s4.rows == [bought, spent];
    Continue(s3, s4, Turn(1));
    assert [bought, spent][..1] == [bought];
    assert Latest([bought, spent], "c") == Some(spent);
    s := Apply(s4, Turn(2));
    Continue(s4, s, Turn(2));
  }

  /** Both fee calls have looked their key up and found nothing. */
  lemma BothLookedUp() returns (s: State)
    ensures Reachable(s) && |s.writers| == 3
    ensures s.rows == [Row("c", 1, Purchase, 100, 100, None, None, 0)]
    ensures s.writers[0].request.Append? && s.writers[0].request.key == None
    ensures forall i | 1 <= i <= 2 ::
      s.writers[i] == Start(i, "c", ApplyToFee(100, "x"), 1).(pc := ReadLatest)
  {
    var s0 := PurchaseRun();
    assert "fee:" + "x" == "fee:x" && FindKey(s0.rows, "c", "fee:x") == None;
    var s1 := Apply(s0, Turn(1));
    Continue(s0, s1, Turn(1));
    s := Apply(s1, Turn(2));
    Continue(s1, s, Turn(2));
  }

  /** A purchase of 100, then two fee calls for the same reference, not yet begun. */
  lemma PurchaseRun() returns (s: State)
    ensures Reachable(s) && |s.writers| == 3
    ensures s.rows == [Row("c", 1, Purchase, 100, 100, None, None, 0)]
    ensures s.writers[0].request.Append? && s.writers[0].request.key == None
    ensures s.writers[1] == Start(1, "c", ApplyToFee(100, "x"), 1)
    ensures s.writers[2] == Start(2, "c", ApplyToFee(100, "x"), 1)
  {
    var buy, fee := Call("c", Append(Purchase, 100, None, None)), Call("c", ApplyToFee(100, "x"));
    assert Legal(EMPTY, []) && Exec(EMPTY, []) == EMPTY;
    var s1 := Apply(EMPTY, buy);
    Continue(EMPTY, s1, buy);
    var s2 := Apply(s1, Turn(0));
    Continue(s1, s2, Turn(0));
    var s3 := Apply(s2, Turn(0));
    Continue(s2, s3, Turn(0));
    var s4 := Apply(s3, Turn(0));
    Continue(s3, s4, Turn(0));
    var s5 := Apply(s4, fee);
    Continue(s4, s5, fee);
    s := Apply(s5, fee);
    Continue(s5, s, fee);
  }

  /**
   Nor does it cover calls one after the other: a call that found no credit is told the whole fee is
   due, and after a top-up the same reference is fully covered.
   */
  lemma TopUpChangesTheAnswer() returns (s: State)
    ensures Reachable(s) && Disciplined(s) && |s.writers| == 3
    ensures s.writers[0].company == s.writers[2].company == "c"
    ensures s.writers[0].request == s.writers[2].request == ApplyToFee(100, "x")
    ensures s.writers[0].pc == Done(Nothing) && s.writers[2].pc.Done?
    ensures s.writers[0].ended <= s.writers[2].started
    ensures FeeAnswer(100, s.writers[0].pc.outcome) == (0, 100)
    ensures FeeAnswer(100, s.writers[2].pc.outcome) == (100, 0)
  {
    var fee := Call("c", ApplyToFee(100, "x"));
    s := ToppedUp();
    var bought := s.rows[0];
    assert Latest([bought], "c") == Some(bought);
    assert "fee:" + "x" == "fee:x" && FindKey(s.rows, "c", "fee:x") == None;
    s := Take(s, fee);
    s := Take(s, Turn(2));
    s := Take(s, Turn(2));
    assert s.writers[2].pc == Insert(Row("c", 2, FeeDeduction, -100, 0, Some("x"), FeeKey("x"), 2));
    s := Take(s, Turn(2));
  }

  /** A fee call finds nothing, then a purchase of 100 is recorded. */
  lemma ToppedUp() returns (s: State)
    ensures Reachable(s) && |s.writers| == 2
    ensures s.rows == [Row("c", 1, Purchase, 100, 100, None, None, 1)]
    ensures s.writers[0].company == "c" && s.writers[0].request == ApplyToFee(100, "x")
    ensures s.writers[0].pc == Done(Nothing) && s.writers[0].ended == 0
    ensures s.writers[1].request.Append? && s.writers[1].request.key == None
  {
    var fee, buy := Call("c", ApplyToFee(100, "x")), Call("c", Append(Purchase, 100, None, None));
    assert Legal(EMPTY, []) && Exec(EMPTY, []) == EMPTY;
    s := Take(EMPTY, fee);
    s := Take(s, Turn(0));
    s := Take(s, Turn(0));
    s := Take(s, buy);
    s := Take(s, Turn(1));
    s := Take(s, Turn(1));
    s := Take(s, Turn(1));
  }

  lemma Take(s: State, a: Action) returns (t: State)
    requires Reachable(s) && Enabled(s, a)
    ensures t == Apply(s, a) && Reachable(t)
  {
    t := Apply(s, a);
    Continue(s, t, a);
  }
}
