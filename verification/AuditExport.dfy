/** The streaming audit export: a batched merge of sorted tables, refilled by cursor. */
module AuditExport {
  import opened Options
  import opened Ordering
  import opened Sequences

  /** A log row; `kind` is the position of its table among the export's sources. */
  datatype Row = Row(stamp: Stamp, kind: nat, fields: string)

  /** By time, then id, then the position of the source: rows of different tables may share time and id. */
  predicate Precedes(a: Row, b: Row) {
    Earlier(a.stamp, b.stamp) || (a.stamp == b.stamp && a.kind < b.kind)
  }

  ghost predicate Sorted(s: seq<Row>) {
    forall i, j | 0 <= i < j < |s| :: Precedes(s[i], s[j])
  }

  lemma PrecedesIsTotal(a: Row, b: Row)
    ensures Precedes(a, b) || Precedes(b, a) || (a.stamp == b.stamp && a.kind == b.kind)
    ensures !(Precedes(a, b) && Precedes(b, a))
  {
    EarlierIsTotal(a.stamp, b.stamp);
  }

  lemma PrecedesIsTransitive(a: Row, b: Row, c: Row)
    requires Precedes(a, b) && Precedes(b, c)
    ensures Precedes(a, c)
  {
    if Earlier(a.stamp, b.stamp) && Earlier(b.stamp, c.stamp) {
      EarlierIsTransitive(a.stamp, b.stamp, c.stamp);
    }
  }

  /** What the database promises of a table: its order, and ids that are unique and not empty. */
  ghost predicate WellFormed(table: seq<Row>, kind: nat) {
    && (forall i, j | 0 <= i < j < |table| :: !Earlier(table[j].stamp, table[i].stamp))
    && (forall i | 0 <= i < |table| :: table[i].kind == kind && table[i].stamp.id != "")
    && (forall i, j | 0 <= i < j < |table| :: table[i].stamp.id != table[j].stamp.id)
  }

  /** The rows from the one with this id on. */
  function From(table: seq<Row>, id: string): seq<Row> {
    if table == [] || table[0].stamp.id == id then table else From(table[1..], id)
  }

  /** findMany with take, and with cursor and skip 1 when a (non-empty) cursor is given. */
  function Fetch(table: seq<Row>, cursor: Option<string>, batch: nat): seq<Row> {
    if cursor.None? || cursor.value == "" then Upto(table, batch)
    else
      var rest := From(table, cursor.value);
      if rest == [] then [] else Upto(rest[1..], batch)
  }

  lemma {:induction false} FromFindsRow(table: seq<Row>, kind: nat, i: nat)
    requires WellFormed(table, kind) && i < |table|
    ensures From(table, table[i].stamp.id) == table[i..]
  {
    if i > 0 {
      FromFindsRow(table[1..], kind, i - 1);
    }
  }

  lemma FetchAfter(table: seq<Row>, kind: nat, i: nat, batch: nat)
    requires WellFormed(table, kind) && i < |table|
    ensures Fetch(table, Some(table[i].stamp.id), batch) == Upto(table[i + 1..], batch)
    ensures Fetch(table, None, batch) == Upto(table, batch)
  {
    FromFindsRow(table, kind, i);
  }

  class Source {
    const table: seq<Row>
    var rows: seq<Row>
    var index: nat
    var cursor: Option<string>
    var done: bool

    constructor (table: seq<Row>)
      ensures this.table == table && rows == [] && index == 0 && cursor.None? && !done
    {
      this.table := table;
      rows, index, cursor, done := [], 0, None, false;
    }

    /** The source has handed out the first n rows of its table. */
    ghost predicate At(n: nat)
      reads this
    {
      && index <= n <= |table|
      && index <= |rows| <= |table| - (n - index)
      && (forall m | 0 <= m < |rows| :: rows[m] == table[n - index + m])
      && (done <==> n == |table|)
      && (!done ==> index < |rows|)
    }

    /** The first fetch. */
    method Start(batch: nat)
      requires batch >= 1 && rows == [] && index == 0 && !done
      modifies this
      ensures At(0)
    {
      rows := Fetch(table, None, batch);
      if |rows| == 0 {
        done := true;
      }
    }

    /** The batch is used up: fetch the next one after the row just handed out. */
    method Refill(batch: nat, row: Row, ghost kind: nat, ghost n: nat)
      requires batch >= 1 && WellFormed(table, kind) && n < |table| && row == table[n] && !done
      modifies this
      ensures At(n + 1)
    {
      FetchAfter(table, kind, n, batch);
      cursor := Some(row.stamp.id);
      rows := Fetch(table, cursor, batch);
      index := 0;
      if |rows| == 0 {
        done := true;
      }
    }

    /** Take the current row, refilling when the batch is used up. */
    method Advance(batch: nat, ghost kind: nat, ghost n: nat) returns (row: Row)
      requires batch >= 1 && WellFormed(table, kind) && At(n) && !done
      modifies this
      ensures row == old(rows[index]) == table[n]
      ensures At(n + 1)
    {
      row := rows[index];
      assert row == table[n];
      index := index + 1;
      if index == |rows| {
        Refill(batch, row, kind, n);
      }
    }
  }

  /** The rows of one table, in output order. */
  function OfKind(out: seq<Row>, kind: nat): seq<Row> {
    if out == [] then []
    else
      var n := |out| - 1;
      OfKind(out[..n], kind) + if out[n].kind == kind then [out[n]] else []
  }

  lemma OfKindAppend(out: seq<Row>, row: Row, kind: nat)
    ensures OfKind(out + [row], kind) == if row.kind == kind then OfKind(out, kind) + [row] else OfKind(out, kind)
  {
    assert (out + [row])[..|out|] == out;
  }

  /** Where every source stands. */
  ghost predicate AllAt(sources: seq<Source>, taken: seq<nat>)
    reads sources
  {
    && |taken| == |sources|
    && (forall k | 0 <= k < |sources| :: sources[k].At(taken[k]))
  }

  ghost predicate Setup(sources: seq<Source>)
  {
    && (forall j, k | 0 <= j < |sources| && 0 <= k < |sources| && j != k :: sources[j] != sources[k])
    && (forall k | 0 <= k < |sources| :: WellFormed(sources[k].table, k))
  }

  // ------------------------------------------------------- the output so far

  /** Every source's rows appear so far in their own order, and nothing to come sorts before them. */
  ghost predicate Merging(tables: seq<seq<Row>>, taken: seq<nat>, out: seq<Row>) {
    && |taken| == |tables|
    && Sorted(out) && InOrder(tables, taken, out)
    && (out != [] ==> Ahead(tables, taken, out[|out| - 1]))
  }

  ghost predicate InOrder(tables: seq<seq<Row>>, taken: seq<nat>, out: seq<Row>)
    requires |taken| == |tables|
  {
    && (forall i | 0 <= i < |out| :: out[i].kind < |tables|)
    && (forall k | 0 <= k < |tables| :: taken[k] <= |tables[k]| && OfKind(out, k) == tables[k][..taken[k]])
  }

  ghost predicate Ahead(tables: seq<seq<Row>>, taken: seq<nat>, last: Row)
    requires |taken| == |tables|
  {
    forall k | 0 <= k < |tables| && taken[k] < |tables[k]| :: Precedes(last, tables[k][taken[k]])
  }

  /** The current row of source `sel` comes before the current row of any other. */
  ghost predicate Least(tables: seq<seq<Row>>, taken: seq<nat>, sel: nat)
    requires |taken| == |tables| && sel < |tables| && taken[sel] < |tables[sel]|
  {
    forall k | 0 <= k < |tables| && k != sel && taken[k] < |tables[k]| ::
      Precedes(tables[sel][taken[sel]], tables[k][taken[k]])
  }

  lemma SortedAppend(out: seq<Row>, row: Row)
    requires Sorted(out) && (out != [] ==> Precedes(out[|out| - 1], row))
    ensures Sorted(out + [row])
  {
    forall i | 0 <= i < |out| ensures Precedes(out[i], row) {
      if i < |out| - 1 { PrecedesIsTransitive(out[i], out[|out| - 1], row); }
    }
  }

  lemma WriteKeepsKinds(tables: seq<seq<Row>>, taken: seq<nat>, out: seq<Row>, sel: nat, k: nat)
    requires |taken| == |tables| && sel < |tables| && k < |tables| && taken[sel] < |tables[sel]|
    requires tables[sel][taken[sel]].kind == sel
    requires taken[k] <= |tables[k]| && OfKind(out, k) == tables[k][..taken[k]]
    ensures var taken' := taken[sel := taken[sel] + 1];
      taken'[k] <= |tables[k]| && OfKind(out + [tables[sel][taken[sel]]], k) == tables[k][..taken'[k]]
  {
    OfKindAppend(out, tables[sel][taken[sel]], k);
    if k == sel {
      assert tables[k][..taken[k] + 1] == tables[k][..taken[k]] + [tables[k][taken[k]]];
    }
  }

  lemma WriteKeepsOrder(tables: seq<seq<Row>>, taken: seq<nat>, out: seq<Row>, sel: nat)
    requires |taken| == |tables| && InOrder(tables, taken, out) && sel < |tables| && taken[sel] < |tables[sel]|
    requires tables[sel][taken[sel]].kind == sel
    ensures InOrder(tables, taken[sel := taken[sel] + 1], out + [tables[sel][taken[sel]]])
  {
    var out', taken' := out + [tables[sel][taken[sel]]], taken[sel := taken[sel] + 1];
    forall k | 0 <= k < |tables| ensures taken'[k] <= |tables[k]| && OfKind(out', k) == tables[k][..taken'[k]] {
      WriteKeepsKinds(tables, taken, out, sel, k);
    }
  }

  lemma WriteKeepsAhead(tables: seq<seq<Row>>, taken: seq<nat>, sel: nat)
    requires |taken| == |tables| && sel < |tables| && taken[sel] < |tables[sel]|
    requires Least(tables, taken, sel) && WellFormed(tables[sel], sel)
    ensures Ahead(tables, taken[sel := taken[sel] + 1], tables[sel][taken[sel]])
  {
    var n := taken[sel];
    if n + 1 < |tables[sel]| {
      EarlierIsTotal(tables[sel][n].stamp, tables[sel][n + 1].stamp);
    }
  }

  lemma WriteKeepsMerging(tables: seq<seq<Row>>, taken: seq<nat>, out: seq<Row>, sel: nat)
    requires Merging(tables, taken, out) && sel < |tables| && taken[sel] < |tables[sel]|
    requires Least(tables, taken, sel) && WellFormed(tables[sel], sel)
    ensures Merging(tables, taken[sel := taken[sel] + 1], out + [tables[sel][taken[sel]]])
  {
    var row := tables[sel][taken[sel]];
    SortedAppend(out, row);
    WriteKeepsOrder(tables, taken, out, sel);
    WriteKeepsAhead(tables, taken, sel);
  }

  /** Rows still to be written. */
  function Remaining(tables: seq<seq<Row>>, taken: seq<nat>): nat
    requires |taken| == |tables| && forall k | 0 <= k < |tables| :: taken[k] <= |tables[k]|
  {
    if tables == [] then 0
    else |tables[0]| - taken[0] + Remaining(tables[1..], taken[1..])
  }

  lemma {:induction false} RemainingDrops(tables: seq<seq<Row>>, taken: seq<nat>, sel: nat)
    requires |taken| == |tables| && forall k | 0 <= k < |tables| :: taken[k] <= |tables[k]|
    requires sel < |tables| && taken[sel] < |tables[sel]|
    ensures Remaining(tables, taken[sel := taken[sel] + 1]) == Remaining(tables, taken) - 1
  {
    if sel > 0 {
      assert taken[sel := taken[sel] + 1][1..] == taken[1..][sel - 1 := taken[sel] + 1];
      RemainingDrops(tables[1..], taken[1..], sel - 1);
    } else {
      assert taken[sel := taken[sel] + 1][1..] == taken[1..];
    }
  }

  ghost function Tables(sources: seq<Source>): (t: seq<seq<Row>>)
    ensures |t| == |sources| && forall k | 0 <= k < |sources| :: t[k] == sources[k].table
  {
    seq(|sources|, k requires 0 <= k < |sources| => sources[k].table)
  }

  // ------------------------------------------------------------ the merge loop

  /** The selection loop: the source whose current row sorts first, earlier sources winning ties. */
  method SelectSource(sources: seq<Source>, ghost tables: seq<seq<Row>>, ghost taken: seq<nat>)
    returns (selected: Option<nat>)
    requires AllAt(sources, taken) && tables == Tables(sources) && Setup(sources)
    ensures selected.None? <==> forall k | 0 <= k < |sources| :: sources[k].done
    ensures selected.Some? ==>
      && selected.value < |sources| && !sources[selected.value].done
      && taken[selected.value] < |tables[selected.value]| && Least(tables, taken, selected.value)
  {
    selected := None;
    for i := 0 to |sources|
      invariant selected.None? ==> forall k | 0 <= k < i :: sources[k].done
      invariant selected.Some? ==>
        && selected.value < i && !sources[selected.value].done
        && taken[selected.value] < |tables[selected.value]|
        && (forall k | 0 <= k < i && k != selected.value && taken[k] < |tables[k]| ::
              Precedes(tables[selected.value][taken[selected.value]], tables[k][taken[k]]))
    {
      var source := sources[i];
      assert source.At(taken[i]);
      if source.index < |source.rows| {
        var row := source.rows[source.index];
        assert row == tables[i][taken[i]];
        if selected.None? {
          selected := Some(i);
        } else {
          assert sources[selected.value].At(taken[selected.value]);
          var best := sources[selected.value].rows[sources[selected.value].index];
          assert best == tables[selected.value][taken[selected.value]];
          PrecedesIsTotal(best, row);
          if row.stamp.at < best.stamp.at || (row.stamp.at == best.stamp.at && Less(row.stamp.id, best.stamp.id)) {
            forall k | 0 <= k < i && taken[k] < |tables[k]| ensures Precedes(row, tables[k][taken[k]]) {
              if k != selected.value { PrecedesIsTransitive(row, best, tables[k][taken[k]]); }
            }
            selected := Some(i);
          }
        }
      }
    }
  }

  method StartAll(sources: seq<Source>, batch: nat)
    requires batch >= 1 && Setup(sources)
    requires forall k | 0 <= k < |sources| :: sources[k].rows == [] && sources[k].index == 0 && !sources[k].done
    modifies sources
    ensures forall k | 0 <= k < |sources| :: sources[k].At(0)
  {
    for i := 0 to |sources|
      invariant forall k | 0 <= k < i :: sources[k].At(0)
      invariant forall k | i <= k < |sources| :: sources[k].rows == [] && sources[k].index == 0 && !sources[k].done
    {
      sources[i].Start(batch);
    }
  }

  /** Write the current row of one source and refill it; no other source moves. */
  method WriteFrom(sources: seq<Source>, batch: nat, sel: nat, ghost taken: seq<nat>) returns (row: Row)
    requires batch >= 1 && Setup(sources) && AllAt(sources, taken)
    requires sel < |sources| && !sources[sel].done
    modifies sources[sel]
    ensures taken[sel] < |sources[sel].table| && row == sources[sel].table[taken[sel]]
    ensures AllAt(sources, taken[sel := taken[sel] + 1])
  {
    assert sources[sel].At(taken[sel]);
    row := sources[sel].Advance(batch, sel, taken[sel]);
    ghost var taken' := taken[sel := taken[sel] + 1];
    forall k | 0 <= k < |sources| ensures sources[k].At(taken'[k]) {
      if k != sel { assert old(sources[k].At(taken[k])); }
    }
  }

  /** One round of the loop; the early break is never taken while a source is left. */
  method WriteNext(sources: seq<Source>, batch: nat, out: seq<Row>, ghost tables: seq<seq<Row>>, ghost taken: seq<nat>)
    returns (out': seq<Row>, ghost taken': seq<nat>)
    requires batch >= 1 && Setup(sources) && tables == Tables(sources)
    requires AllAt(sources, taken) && Merging(tables, taken, out)
    requires exists k :: 0 <= k < |sources| && !sources[k].done
    modifies sources
    ensures AllAt(sources, taken') && Merging(tables, taken', out')
    ensures Remaining(tables, taken') == Remaining(tables, taken) - 1
  {
    var selected := SelectSource(sources, tables, taken);
    if selected.None? {
      assert false;
      return;
    }
    assert WellFormed(sources[selected.value].table, selected.value);
    WriteKeepsMerging(tables, taken, out, selected.value);
    RemainingDrops(tables, taken, selected.value);
    var row := WriteFrom(sources, batch, selected.value, taken);
    out', taken' := out + [row], taken[selected.value := taken[selected.value] + 1];
  }

  /**
   The export terminates for every batch size of at least one; what it writes is sorted
   and holds the rows of each table, all of them, once and in the table's own order.
   */
  method StreamAuditLog(sources: seq<Source>, batch: nat) returns (out: seq<Row>)
    requires batch >= 1 && Setup(sources)
    requires forall k | 0 <= k < |sources| :: sources[k].rows == [] && sources[k].index == 0 && !sources[k].done
    modifies sources
    ensures forall i, j | 0 <= i < j < |out| :: var a, b := out[i], out[j];
      || a.stamp.at < b.stamp.at
      || (a.stamp.at == b.stamp.at && Less(a.stamp.id, b.stamp.id))
      || (a.stamp == b.stamp && a.kind < b.kind)
    ensures forall k | 0 <= k < |sources| :: OfKind(out, k) == sources[k].table
    ensures forall i | 0 <= i < |out| :: out[i].kind < |sources|
  {
    ghost var tables := Tables(sources);
    ghost var taken := seq(|sources|, k => 0);
    StartAll(sources, batch);
    out := [];
    while exists k :: 0 <= k < |sources| && !sources[k].done
      invariant AllAt(sources, taken)
      invariant Merging(tables, taken, out)
      decreases Remaining(tables, taken)
    {
      out, taken := WriteNext(sources, batch, out, tables, taken);
    }
    AllWritten(sources, tables, taken, out);
  }

  lemma AllWritten(sources: seq<Source>, tables: seq<seq<Row>>, taken: seq<nat>, out: seq<Row>)
    requires AllAt(sources, taken) && tables == Tables(sources) && Merging(tables, taken, out)
    requires forall k | 0 <= k < |sources| :: sources[k].done
    ensures forall k | 0 <= k < |sources| :: OfKind(out, k) == sources[k].table
  {
    forall k | 0 <= k < |sources| ensures OfKind(out, k) == sources[k].table {
      assert sources[k].At(taken[k]);
      assert tables[k][..|tables[k]|] == tables[k];
    }
  }
}
