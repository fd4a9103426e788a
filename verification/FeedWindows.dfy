/** Which sources the windows of the timeline serve well, and exactly when a null cursor misleads. */
module FeedWindows {
  import opened Options
  import opened Ordering
  import opened Sequences
  import opened ActivityFeed

  /** No two rows with the same timestamp, newest first. */
  ghost predicate Strict(source: seq<Item>) {
    forall i, j | 0 <= i < j < |source| :: source[i].stamp.at > source[j].stamp.at
  }

  /** In the feed's own order, with at most one row at the cursor's time that is not after the cursor:
      rows sharing any other timestamp do no harm. */
  ghost predicate Tidy(source: seq<Item>, after: Option<Stamp>) {
    && Sorted(source)
    && (after.Some? ==> forall i, j | 0 <= i < j < |source| && source[i].stamp.at <= after.value.at ::
          Follows(after, source[j]))
  }

  lemma TidyFollows(source: seq<Item>, after: Option<Stamp>, i: nat, j: nat)
    requires Tidy(source, after) && i < j < |source| && (after.Some? ==> source[i].stamp.at <= after.value.at)
    ensures Follows(after, source[j])
  {
  }

  ghost predicate WellFormed(sources: seq<seq<Item>>, after: Option<Stamp>) {
    Identified(sources) && forall k | 0 <= k < |sources| :: Tidy(sources[k], after)
  }

  /** In an ordered source the rows at or before a time are a suffix. */
  lemma {:induction false} AtOrBeforeIsSuffix(source: seq<Item>, after: Option<Stamp>) returns (k: nat)
    requires Sorted(source)
    ensures k <= |source| && AtOrBefore(source, after) == source[k..]
    ensures after.None? ==> k == 0
    ensures forall i | 0 <= i < k :: after.Some? && source[i].stamp.at > after.value.at
    ensures forall i | k <= i < |source| :: after.None? || source[i].stamp.at <= after.value.at
  {
    if after.None? || source == [] {
      k := 0;
    } else if source[0].stamp.at <= after.value.at {
      AllAtOrBefore(source, after);
      k := 0;
    } else {
      var k' := AtOrBeforeIsSuffix(source[1..], after);
      k := k' + 1;
      assert forall i | 0 < i < |source| :: source[i] == source[1..][i - 1];
    }
  }

  lemma {:induction false} AllAtOrBefore(source: seq<Item>, after: Option<Stamp>)
    requires after.Some? && forall j | 0 <= j < |source| :: source[j].stamp.at <= after.value.at
    ensures AtOrBefore(source, after) == source
  {
    if source != [] { AllAtOrBefore(source[1..], after); }
  }

  /** Rows a window may spend on the cursor's own timestamp. */
  function Waste(after: Option<Stamp>): nat { if after.Some? then 1 else 0 }

  /** A row the window loses is behind at least n - Waste rows of its own source. */
  lemma RowsAhead(source: seq<Item>, after: Option<Stamp>, n: nat, x: Item) returns (from: nat, m: nat)
    requires Tidy(source, after) && n >= 1 && x in source && Follows(after, x)
    requires x !in Window(source, after, n)
    ensures from + n - Waste(after) <= m < |source| && source[m] == x
    ensures forall j | from <= j < m :: Follows(after, source[j]) && Before(source[j].stamp, x.stamp)
  {
    var k := AtOrBeforeIsSuffix(source, after);
    m := IndexOf(x, source);
    assert k <= m;
    assert forall j | k <= j < k + n && j < |source| :: source[j] == Window(source, after, n)[j - k];
    from := k + Waste(after);
    forall j | from <= j < m ensures Follows(after, source[j]) && Before(source[j].stamp, x.stamp) {
      assert Before(source[j].stamp, source[m].stamp);
      if k < j { TidyFollows(source, after, k, j); }
    }
  }

  lemma AheadInSorted(a: seq<Item>, i: nat, y: Item)
    requires Sorted(a) && i < |a| && y in a && Before(y.stamp, a[i].stamp)
    ensures y in a[..i]
  {
    var j := IndexOf(y, a);
    EarlierIsTotal(y.stamp, a[i].stamp);
    assert j < i;
    assert a[..i][j] == y;
  }

  /** A row that comes i-th has at most i rows of its source ahead of it. */
  lemma AheadFits(sources: seq<seq<Item>>, after: Option<Stamp>, s: nat, from: nat, m: nat, i: nat)
    requires WellFormed(sources, after) && s < |sources| && from <= m < |sources[s]|
    requires i < |Timeline(sources, after)| && Timeline(sources, after)[i] == sources[s][m]
    requires forall j | from <= j < m ::
      Follows(after, sources[s][j]) && Before(sources[s][j].stamp, sources[s][m].stamp)
    ensures m - from <= i
  {
    var a, ahead := Timeline(sources, after), sources[s][from..m];
    TimelineMembers(sources, after);
    forall j | 0 <= j < |ahead| ensures ahead[j] in a[..i] {
      assert ahead[j] == sources[s][from + j];
      SourceInConcat(sources, s, ahead[j]);
      AheadInSorted(a, i, ahead[j]);
    }
    SliceDistinct(sources[s], from, m);
    Pigeonhole(ahead, a[..i]);
  }

  lemma SliceDistinct(source: seq<Item>, lo: nat, hi: nat)
    requires Sorted(source) && lo <= hi <= |source|
    ensures Distinct(source[lo..hi])
  {
    var rows := source[lo..hi];
    forall i, j | 0 <= i < j < |rows| ensures rows[i].stamp != rows[j].stamp {
      assert Before(source[lo + i].stamp, source[lo + j].stamp);
      EarlierIsTotal(rows[i].stamp, rows[j].stamp);
    }
  }

  /** The first n - Waste items of the timeline survive the windows. */
  lemma WindowsCover(sources: seq<seq<Item>>, after: Option<Stamp>, n: nat, i: nat)
    requires WellFormed(sources, after) && n >= 1
    requires i < n - Waste(after) && i < |Timeline(sources, after)|
    ensures Timeline(sources, after)[i] in Merged(sources, after, n)
  {
    var a := Timeline(sources, after);
    var x := a[i];
    assert x in a;
    TimelineMembers(sources, after);
    var s := ConcatSource(sources, x);
    if x in Window(sources[s], after, n) {
      WindowInGather(sources, after, n, s, x);
    } else {
      var from, m := RowsAhead(sources[s], after, n, x);
      AheadFits(sources, after, s, from, m, i);
    }
    MergedMembers(sources, after, n);
  }

  /** How far windows of n rows reproduce the timeline. */
  lemma MergedPrefix(sources: seq<seq<Item>>, after: Option<Stamp>, n: nat) returns (k: nat)
    requires WellFormed(sources, after) && n >= 2
    ensures
      var a, s := Timeline(sources, after), Merged(sources, after, n);
      && k == (if n - Waste(after) <= |a| then n - Waste(after) else |a|)
      && k <= |s| <= |a| && s[..k] == a[..k]
  {
    var a, s := Timeline(sources, after), Merged(sources, after, n);
    k := if n - Waste(after) <= |a| then n - Waste(after) else |a|;
    MergedIsPart(sources, after, n);
    forall i | 0 <= i < |a[..k]| ensures a[..k][i] in s {
      WindowsCover(sources, after, n, i);
    }
    SamePrefix(a, s, k);
  }

  /** With at most one row of a source at the cursor's time but not after it, every page is exact. */
  lemma PageIsExact(sources: seq<seq<Item>>, after: Option<Stamp>, limit: int)
    requires WellFormed(sources, after)
    ensures Covered(sources, after, Take(limit))
    ensures 1 <= limit <= 100 ==> GetActivity(sources, after, limit).items == Upto(Timeline(sources, after), limit)
    ensures limit < 1 ==> GetActivity(sources, after, limit).items == Upto(Timeline(sources, after), 1)
    ensures limit > 100 ==> GetActivity(sources, after, limit).items == Upto(Timeline(sources, after), 100)
  {
    var a, take := Timeline(sources, after), Take(limit);
    var k := MergedPrefix(sources, after, take + 1);
    SamePage(a, Merged(sources, after, take + 1), k, take);
    PageIsExactIff(sources, after, limit);
  }

  lemma StrictIsTidy(source: seq<Item>, after: Option<Stamp>)
    requires Strict(source)
    ensures Tidy(source, after)
  {
  }

  lemma {:induction false} StrictWalk(sources: seq<seq<Item>>, after: Option<Stamp>, limit: int, n: nat)
    requires Identified(sources) && forall k | 0 <= k < |sources| :: Strict(sources[k])
    ensures WalkCovered(sources, after, limit, n)
    decreases n
  {
    if n > 0 {
      forall k | 0 <= k < |sources| ensures Tidy(sources[k], after) {
        StrictIsTidy(sources[k], after);
      }
      PageIsExact(sources, after, limit);
      var next := GetActivity(sources, after, limit).nextCursor;
      if next.Some? { StrictWalk(sources, next, limit, n - 1); }
    }
  }

  /** Without ties in any source, following the cursors never loses or repeats a row. */
  lemma PagesWithoutTies(sources: seq<seq<Item>>, after: Option<Stamp>, limit: int, n: nat)
    requires Identified(sources) && forall k | 0 <= k < |sources| :: Strict(sources[k])
    ensures Walk(sources, after, limit, n) <= Timeline(sources, after)
    ensures Distinct(Walk(sources, after, limit, n))
  {
    StrictWalk(sources, after, limit, n);
    PagesConcatenate(sources, after, limit, n);
  }

  // ------------------------------------------------- where the feed falls short

  /** Every source other than `s` is empty. */
  ghost predicate OnlySource(sources: seq<seq<Item>>, s: nat) {
    s < |sources| && forall k | 0 <= k < |sources| && k != s :: sources[k] == []
  }

  lemma {:induction false} GatherOnly(sources: seq<seq<Item>>, s: nat, after: Option<Stamp>, n: nat)
    requires OnlySource(sources, s)
    ensures Gather(sources, after, n) == Window(sources[s], after, n)
    ensures Concat(sources) == sources[s]
  {
    if s > 0 {
      GatherOnly(sources[1..], s - 1, after, n);
    } else {
      GatherNothing(sources[1..], after, n);
    }
  }

  lemma {:induction false} GatherNothing(sources: seq<seq<Item>>, after: Option<Stamp>, n: nat)
    requires forall k | 0 <= k < |sources| :: sources[k] == []
    ensures Gather(sources, after, n) == [] && Concat(sources) == []
  {
    if sources != [] { GatherNothing(sources[1..], after, n); }
  }

  lemma {:induction false} CutKeepsOlder(items: seq<Item>, after: Option<Stamp>)
    requires after.Some? && forall j | 0 <= j < |items| :: items[j].stamp.at < after.value.at
    ensures CutAfter(items, after) == items
  {
    if items != [] { CutKeepsOlder(items[1..], after); }
  }

  /** The source has a row at the cursor's time that is not after the cursor: the cursor's own, say. */
  ghost predicate HoldsCursor(source: seq<Item>, after: Stamp) {
    exists i :: 0 <= i < |source| && source[i].stamp.at == after.at && !Before(after, source[i].stamp)
  }

  ghost predicate NothingAfter(source: seq<Item>, after: Stamp) {
    forall i | 0 <= i < |source| :: !Before(after, source[i].stamp)
  }

  /** Whatever follows the cursor is in source `s`, which holds the cursor row too. */
  ghost predicate OneSourceLeft(sources: seq<seq<Item>>, after: Stamp, s: nat) {
    && s < |sources| && HoldsCursor(sources[s], after)
    && (forall k | 0 <= k < |sources| && k != s :: NothingAfter(sources[k], after))
  }

  /** A row of a source's window that follows the cursor is merged. */
  lemma RowIsMerged(sources: seq<seq<Item>>, after: Stamp, n: nat, s: nat, from: nat, j: nat)
    requires Identified(sources) && s < |sources| && from <= j < from + n && j < |sources[s]|
    requires AtOrBefore(sources[s], Some(after)) == sources[s][from..] && Before(after, sources[s][j].stamp)
    ensures sources[s][j] in Merged(sources, Some(after), n)
  {
    assert Window(sources[s], Some(after), n)[j - from] == sources[s][j];
    WindowInGather(sources, Some(after), n, s, sources[s][j]);
    MergedMembers(sources, Some(after), n);
  }

  lemma RowsAreMerged(sources: seq<seq<Item>>, after: Stamp, n: nat, s: nat, from: nat, lo: nat, hi: nat)
    requires Identified(sources) && s < |sources| && Sorted(sources[s])
    requires from <= lo <= hi <= from + n && hi <= |sources[s]|
    requires AtOrBefore(sources[s], Some(after)) == sources[s][from..]
    requires forall j | lo <= j < hi :: Before(after, sources[s][j].stamp)
    ensures Part(sources[s][lo..hi], Merged(sources, Some(after), n)) && Distinct(sources[s][lo..hi])
    ensures hi - lo <= |Merged(sources, Some(after), n)|
  {
    SliceDistinct(sources[s], lo, hi);
    var rows := sources[s][lo..hi];
    forall j | 0 <= j < |rows| ensures rows[j] in Merged(sources, Some(after), n) {
      RowIsMerged(sources, after, n, s, from, lo + j);
    }
    Pigeonhole(rows, Merged(sources, Some(after), n));
  }

  /** When fewer than n rows are merged of a longer timeline, some source lost a row of its own. */
  lemma LosingSource(sources: seq<seq<Item>>, after: Stamp, n: nat) returns (s: nat, m: nat)
    requires WellFormed(sources, Some(after)) && n >= 2
    requires |Merged(sources, Some(after), n)| < n <= |Timeline(sources, Some(after))|
    ensures s < |sources| && m < |sources[s]| && Before(after, sources[s][m].stamp)
    ensures sources[s][m] !in Window(sources[s], Some(after), n)
  {
    var a, merged := Timeline(sources, Some(after)), Merged(sources, Some(after), n);
    var k := MergedPrefix(sources, Some(after), n);
    assert merged[..n - 1] == merged && merged == a[..n - 1];
    var x := a[n - 1];
    TimelineMembers(sources, Some(after));
    SortedDistinct(a);
    assert x in a && x !in merged;
    s := ConcatSource(sources, x);
    m := IndexOf(x, sources[s]);
    if x in Window(sources[s], Some(after), n) {
      WindowInGather(sources, Some(after), n, s, x);
      MergedMembers(sources, Some(after), n);
      assert false;
    }
  }

  /** Of a source with rows after the cursor, one is in its window. */
  lemma Survivor(source: seq<Item>, after: Stamp, n: nat) returns (at: nat, j: nat)
    requires Tidy(source, Some(after)) && n >= 2 && !NothingAfter(source, after)
    ensures at <= j < at + n && j < |source| && Before(after, source[j].stamp)
    ensures AtOrBefore(source, Some(after)) == source[at..]
  {
    var i :| 0 <= i < |source| && Before(after, source[i].stamp);
    at := AtOrBeforeIsSuffix(source, Some(after));
    j := if i < at + n then i else at + 1;
    if j != i { TidyFollows(source, Some(after), at, j); }
  }

  lemma ContributesOne(sources: seq<seq<Item>>, after: Stamp, n: nat, k: nat) returns (y: Item)
    requires WellFormed(sources, Some(after)) && n >= 2 && k < |sources| && !NothingAfter(sources[k], after)
    ensures y in sources[k] && y in Merged(sources, Some(after), n)
  {
    var at, j := Survivor(sources[k], after, n);
    RowIsMerged(sources, after, n, k, at, j);
    y := sources[k][j];
  }

  /** A row the window loses is at least n rows into the rows at or before the cursor time. */
  lemma LostIsDeep(source: seq<Item>, after: Stamp, n: nat, at: nat, m: nat)
    requires at <= m < |source| && AtOrBefore(source, Some(after)) == source[at..]
    requires source[m] !in Window(source, Some(after), n)
    ensures at + n <= m
  {
    var w := Window(source, Some(after), n);
    forall j | at <= j < at + n && j < |source| ensures source[j] in w {
      assert w[j - at] == source[j];
    }
  }

  lemma OlderFollow(source: seq<Item>, after: Stamp, at: nat, n: nat)
    requires Tidy(source, Some(after)) && at + n <= |source| && n >= 1 && source[at].stamp.at <= after.at
    ensures forall j | at < j < at + n :: Before(after, source[j].stamp)
  {
    forall j | at < j < at + n ensures Before(after, source[j].stamp) {
      TidyFollows(source, Some(after), at, j);
    }
  }

  /** A losing source has a full window, headed by the cursor's row. */
  lemma LoserHead(sources: seq<seq<Item>>, after: Stamp, n: nat, s: nat, m: nat) returns (at: nat)
    requires Identified(sources) && n >= 2 && |Merged(sources, Some(after), n)| < n
    requires s < |sources| && Tidy(sources[s], Some(after))
    requires m < |sources[s]| && Before(after, sources[s][m].stamp)
    requires sources[s][m] !in Window(sources[s], Some(after), n)
    ensures at + n <= |sources[s]| && AtOrBefore(sources[s], Some(after)) == sources[s][at..]
    ensures HoldsCursor(sources[s], after)
    ensures forall j | at < j < at + n :: Before(after, sources[s][j].stamp)
  {
    at := AtOrBeforeIsSuffix(sources[s], Some(after));
    LostIsDeep(sources[s], after, n, at, m);
    OlderFollow(sources[s], after, at, n);
    if Before(after, sources[s][at].stamp) {
      RowsAreMerged(sources, after, n, s, at, at, at + n);
    }
    HeadIsCursor(sources[s], after, at, n);
  }

  /** So it fills the page by itself: n - 1 of its rows are merged. */
  lemma LoserFills(sources: seq<seq<Item>>, after: Stamp, n: nat, s: nat, m: nat) returns (rows: seq<Item>)
    requires Identified(sources) && n >= 2 && |Merged(sources, Some(after), n)| < n
    requires s < |sources| && Tidy(sources[s], Some(after))
    requires m < |sources[s]| && Before(after, sources[s][m].stamp)
    requires sources[s][m] !in Window(sources[s], Some(after), n)
    ensures HoldsCursor(sources[s], after)
    ensures |rows| == n - 1 && Distinct(rows) && Part(rows, Merged(sources, Some(after), n)) && Part(rows, sources[s])
  {
    var at := LoserHead(sources, after, n, s, m);
    RowsAreMerged(sources, after, n, s, at, at + 1, at + n);
    rows := sources[s][at + 1..at + n];
    SlicePart(sources[s], at + 1, at + n);
  }

  lemma HeadIsCursor(source: seq<Item>, after: Stamp, at: nat, n: nat)
    requires at + n <= |source| && n >= 1 && source[at].stamp.at <= after.at && !Before(after, source[at].stamp)
    ensures HoldsCursor(source, after)
  {
  }

  lemma SlicePart(source: seq<Item>, lo: nat, hi: nat)
    requires lo <= hi <= |source|
    ensures Part(source[lo..hi], source)
  {
  }

  lemma FalseEndNeedsOneSource(sources: seq<seq<Item>>, after: Stamp, n: nat) returns (s: nat)
    requires WellFormed(sources, Some(after)) && n >= 2
    requires |Merged(sources, Some(after), n)| < n <= |Timeline(sources, Some(after))|
    ensures OneSourceLeft(sources, after, s)
  {
    var m;
    s, m := LosingSource(sources, after, n);
    var rows := LoserFills(sources, after, n, s, m);
    forall k | 0 <= k < |sources| && k != s ensures NothingAfter(sources[k], after) {
      if !NothingAfter(sources[k], after) {
        var y := ContributesOne(sources, after, n, k);
        forall j | 0 <= j < |rows| ensures rows[j].stamp != y.stamp {
          SourcesDiffer(sources, s, k, rows[j], y);
        }
        DistinctAppend(rows, [y]);
        Pigeonhole(rows + [y], Merged(sources, Some(after), n));
        assert false;
      }
    }
  }

  lemma CursorIsFirst(source: seq<Item>, after: Stamp) returns (at: nat)
    requires Tidy(source, Some(after)) && HoldsCursor(source, after)
    ensures at < |source| && AtOrBefore(source, Some(after)) == source[at..] && !Before(after, source[at].stamp)
  {
    at := AtOrBeforeIsSuffix(source, Some(after));
    var i :| 0 <= i < |source| && source[i].stamp.at == after.at && !Before(after, source[i].stamp);
    assert at <= i;
    if at < i {
      TidyFollows(source, Some(after), at, i);
    }
  }

  lemma MergedRow(sources: seq<seq<Item>>, after: Stamp, n: nat, s: nat, y: Item)
    requires WellFormed(sources, Some(after)) && OneSourceLeft(sources, after, s)
    requires y in Merged(sources, Some(after), n)
    ensures y in Window(sources[s], Some(after), n) && Before(after, y.stamp)
  {
    MergedMembers(sources, Some(after), n);
    var k := GatherSource(sources, Some(after), n, y);
    if k != s {
      WindowMeaning(sources[k], Some(after), n);
      var i := IndexOf(y, sources[k]);
    }
  }

  lemma BehindHead(w: seq<Item>, after: Stamp, y: Item)
    requires w != [] && !Before(after, w[0].stamp) && y in w && Before(after, y.stamp)
    ensures y in w[1..]
  {
    var x := IndexOf(y, w);
    assert w[1..][x - 1] == y;
  }

  lemma OneSourceMeansFalseEnd(sources: seq<seq<Item>>, after: Stamp, n: nat, s: nat)
    requires WellFormed(sources, Some(after)) && n >= 1 && OneSourceLeft(sources, after, s)
    ensures |Merged(sources, Some(after), n)| < n
  {
    var merged, w := Merged(sources, Some(after), n), Window(sources[s], Some(after), n);
    var at := CursorIsFirst(sources[s], after);
    assert w != [] && w[0] == sources[s][at];
    forall j | 0 <= j < |merged| ensures merged[j] in w[1..] {
      assert merged[j] in merged;
      MergedRow(sources, after, n, s, merged[j]);
      BehindHead(w, after, merged[j]);
    }
    MergedMembers(sources, Some(after), n);
    SortedDistinct(merged);
    Pigeonhole(merged, w[1..]);
  }

  /**
   Exactly when a null cursor does not mean the end: more than a page is left, yet all of
   it in the one source that also holds the cursor's row, which costs that source's window
   the row that would have shown there is more.
   */
  lemma FalseEndIff(sources: seq<seq<Item>>, after: Stamp, limit: int)
    requires WellFormed(sources, Some(after))
    requires |Timeline(sources, Some(after))| > if limit < 1 then 1 else if limit <= 100 then limit else 100
    ensures GetActivity(sources, Some(after), limit).nextCursor.None? <==> exists s :: OneSourceLeft(sources, after, s)
  {
    var n := Take(limit) + 1;
    if |Merged(sources, Some(after), n)| < n {
      var s := FalseEndNeedsOneSource(sources, after, n);
    } else {
      forall s | OneSourceLeft(sources, after, s) ensures false {
        OneSourceMeansFalseEnd(sources, after, n, s);
      }
    }
  }

  /** So with a single source the second page is always presented as the last, however many rows remain. */
  lemma LoneSourceStopsAtSecondPage(sources: seq<seq<Item>>, s: nat, i: nat, limit: int)
    requires OnlySource(sources, s) && i < |sources[s]| && WellFormed(sources, Some(sources[s][i].stamp))
    ensures GetActivity(sources, Some(sources[s][i].stamp), limit).nextCursor.None?
    ensures |Timeline(sources, Some(sources[s][i].stamp))| >= |sources[s]| - i - 1
  {
    var after := sources[s][i].stamp;
    EarlierIsTotal(after, after);
    OneSourceMeansFalseEnd(sources, after, Take(limit) + 1, s);
    RestRemains(sources, s, i);
  }

  lemma RestRemains(sources: seq<seq<Item>>, s: nat, i: nat)
    requires Identified(sources) && s < |sources| && i < |sources[s]| && Sorted(sources[s])
    ensures |Timeline(sources, Some(sources[s][i].stamp))| >= |sources[s]| - i - 1
  {
    var after, n := Some(sources[s][i].stamp), |sources[s]|;
    var rest := sources[s][i + 1..n];
    TimelineMembers(sources, after);
    forall j | 0 <= j < |rest| ensures rest[j] in Timeline(sources, after) {
      assert rest[j] == sources[s][i + 1 + j] && Before(sources[s][i].stamp, sources[s][i + 1 + j].stamp);
      SourceInConcat(sources, s, rest[j]);
    }
    SliceDistinct(sources[s], i + 1, n);
    Pigeonhole(rest, Timeline(sources, after));
  }

  /** Two rows with one timestamp can hide everything older: the page comes back empty. */
  lemma TiedRowsHideTheRest(a: Item, b: Item, older: seq<Item>)
    requires a.stamp.at == b.stamp.at && Before(a.stamp, b.stamp) && older != []
    requires Strict([b] + older)
    ensures GetActivity([[a, b] + older], Some(b.stamp), 1) == Page([], None)
    ensures Timeline([[a, b] + older], Some(b.stamp)) == Sort(older) && Sort(older) != []
  {
    var source, after := [a, b] + older, Some(b.stamp);
    EarlierIsTotal(a.stamp, b.stamp);
    EarlierIsTotal(b.stamp, b.stamp);
    forall j | 0 <= j < |older| ensures older[j].stamp.at < b.stamp.at {
      assert ([b] + older)[0].stamp.at > ([b] + older)[j + 1].stamp.at;
    }
    AllAtOrBefore(source, after);
    GatherOnly([source], 0, after, 2);
    assert Window(source, after, 2) == [a] + ([b] + []);
    CutSkips(a, [b] + [], after);
    CutSkips(b, [], after);
    assert source == [a] + ([b] + older);
    CutSkips(a, [b] + older, after);
    CutSkips(b, older, after);
    CutKeepsOlder(older, after);
    SortLength(older);
  }

  lemma CutSkips(x: Item, rest: seq<Item>, after: Option<Stamp>)
    requires !Follows(after, x)
    ensures CutAfter([x] + rest, after) == CutAfter(rest, after)
  {
    assert ([x] + rest)[1..] == rest;
  }
}
