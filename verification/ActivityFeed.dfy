/** The engagement timeline: six sources merged newest first, paged by cursor. */
module ActivityFeed {
  import opened Options
  import opened Ordering
  import opened Sequences

  datatype Item = Item(stamp: Stamp, data: string)

  datatype Page = Page(items: seq<Item>, nextCursor: Option<Stamp>)

  /** compare(a, b) < 0: newer first, ties by id descending. */
  predicate Before(a: Stamp, b: Stamp) { Earlier(b, a) }

  /** A source's rows at or before the cursor time: the `lte` filter. */
  function AtOrBefore(source: seq<Item>, after: Option<Stamp>): seq<Item> {
    if after.None? || source == [] then source
    else (if source[0].stamp.at <= after.value.at then [source[0]] else []) + AtOrBefore(source[1..], after)
  }

  /** What one source returns: its newest `n` rows at or before the cursor time. */
  function Window(source: seq<Item>, after: Option<Stamp>, n: nat): seq<Item> {
    Upto(AtOrBefore(source, after), n)
  }

  function Gather(sources: seq<seq<Item>>, after: Option<Stamp>, n: nat): seq<Item> {
    if sources == [] then [] else Window(sources[0], after, n) + Gather(sources[1..], after, n)
  }

  function Concat(sources: seq<seq<Item>>): seq<Item> {
    if sources == [] then [] else sources[0] + Concat(sources[1..])
  }

  /** The filter that cuts precisely after the cursor item. */
  function CutAfter(items: seq<Item>, after: Option<Stamp>): seq<Item> {
    if items == [] then []
    else (if after.None? || Before(after.value, items[0].stamp) then [items[0]] else []) + CutAfter(items[1..], after)
  }

  /** Array.sort with the feed's comparator. */
  function Sort(items: seq<Item>): seq<Item> {
    if items == [] then [] else Insert(items[0], Sort(items[1..]))
  }

  function Insert(x: Item, s: seq<Item>): seq<Item> {
    if s == [] || !Before(s[0].stamp, x.stamp) then [x] + s else [s[0]] + Insert(x, s[1..])
  }

  function Take(limit: int): (n: nat)
    ensures 1 <= n <= 100 && (1 <= limit <= 100 ==> n == limit)
    ensures (limit < 1 ==> n == 1) && (limit > 100 ==> n == 100)
  {
    if limit < 1 then 1 else if limit > 100 then 100 else limit
  }

  function Merged(sources: seq<seq<Item>>, after: Option<Stamp>, n: nat): seq<Item> {
    Sort(CutAfter(Gather(sources, after, n), after))
  }

  function GetActivity(sources: seq<seq<Item>>, after: Option<Stamp>, limit: int): Page {
    var take := Take(limit);
    var sorted := Merged(sources, after, take + 1);
    var page := Upto(sorted, take);
    Page(page, if |sorted| > take then Some(page[|page| - 1].stamp) else None)
  }

  /** The reference: everything after the cursor in the global order. */
  function Timeline(sources: seq<seq<Item>>, after: Option<Stamp>): seq<Item> {
    Sort(CutAfter(Concat(sources), after))
  }

  ghost predicate Distinct(items: seq<Item>) {
    forall i, j | 0 <= i < j < |items| :: items[i].stamp != items[j].stamp
  }

  /** Ids are unique in their table and carry its name as a prefix, so no two rows share a stamp. */
  ghost predicate Identified(sources: seq<seq<Item>>) { Distinct(Concat(sources)) }

  // ------------------------------------------------------------ sorting, once

  ghost predicate Sorted(s: seq<Item>) {
    forall i, j | 0 <= i < j < |s| :: Before(s[i].stamp, s[j].stamp)
  }

  lemma {:induction false} InsertSorted(x: Item, s: seq<Item>)
    requires Sorted(s) && forall y | y in s :: y.stamp != x.stamp
    ensures var r := Insert(x, s);
      Sorted(r) && |r| == |s| + 1 && forall y :: y in r <==> y == x || y in s
  {
    if s != [] {
      EarlierIsTotal(s[0].stamp, x.stamp);
      if Before(s[0].stamp, x.stamp) {
        InsertSorted(x, s[1..]);
        var r := Insert(x, s[1..]);
        forall j | 0 <= j < |r| ensures Before(s[0].stamp, r[j].stamp) {
          assert r[j] in r;
        }
        assert s == [s[0]] + s[1..];
      } else {
        forall j | 0 <= j < |s| ensures Before(x.stamp, s[j].stamp) {
          if j > 0 { EarlierIsTransitive(s[j].stamp, s[0].stamp, x.stamp); }
        }
      }
    }
  }

  lemma {:induction false} SortIsSorted(items: seq<Item>)
    requires Distinct(items)
    ensures var r := Sort(items);
      Sorted(r) && |r| == |items| && forall y :: y in r <==> y in items
  {
    if items != [] {
      assert items == [items[0]] + items[1..];
      SortIsSorted(items[1..]);
      forall y | y in Sort(items[1..]) ensures y.stamp != items[0].stamp {
        var j :| 0 <= j < |items[1..]| && items[1..][j] == y;
        assert items[j + 1] == y;
      }
      InsertSorted(items[0], Sort(items[1..]));
    }
  }

  predicate Follows(after: Option<Stamp>, x: Item) { after.None? || Before(after.value, x.stamp) }

  lemma {:induction false} CutAfterMeaning(items: seq<Item>, after: Option<Stamp>)
    ensures forall y :: y in CutAfter(items, after) <==> y in items && Follows(after, y)
    ensures |CutAfter(items, after)| <= |items|
  {
    if items != [] {
      CutAfterMeaning(items[1..], after);
      assert items == [items[0]] + items[1..];
    }
  }

  lemma {:induction false} CutAfterDistinct(items: seq<Item>, after: Option<Stamp>)
    requires Distinct(items)
    ensures Distinct(CutAfter(items, after))
  {
    if items != [] {
      CutAfterDistinct(items[1..], after);
      CutAfterMeaning(items[1..], after);
      forall y | y in CutAfter(items[1..], after) ensures y.stamp != items[0].stamp {
        var j := IndexOf(y, items[1..]);
        assert items[j + 1] == y;
      }
    }
  }

  lemma IndexOf<T>(x: T, s: seq<T>) returns (i: nat)
    requires x in s
    ensures i < |s| && s[i] == x
  {
    i :| 0 <= i < |s| && s[i] == x;
  }

  // --------------------------------------------------------------- the windows

  lemma {:induction false} GatherSource(sources: seq<seq<Item>>, after: Option<Stamp>, n: nat, y: Item) returns (k: nat)
    requires y in Gather(sources, after, n)
    ensures k < |sources| && y in Window(sources[k], after, n)
  {
    if y in Window(sources[0], after, n) {
      k := 0;
    } else {
      k := GatherSource(sources[1..], after, n, y);
      k := k + 1;
    }
  }

  lemma {:induction false} WindowInGather(sources: seq<seq<Item>>, after: Option<Stamp>, n: nat, k: nat, y: Item)
    requires k < |sources| && y in Window(sources[k], after, n)
    ensures y in Gather(sources, after, n)
  {
    if k > 0 {
      WindowInGather(sources[1..], after, n, k - 1, y);
    }
  }

  lemma {:induction false} ConcatSource(sources: seq<seq<Item>>, y: Item) returns (k: nat)
    requires y in Concat(sources)
    ensures k < |sources| && y in sources[k]
  {
    if y in sources[0] {
      k := 0;
    } else {
      k := ConcatSource(sources[1..], y);
      k := k + 1;
    }
  }

  lemma {:induction false} SourceInConcat(sources: seq<seq<Item>>, k: nat, y: Item)
    requires k < |sources| && y in sources[k]
    ensures y in Concat(sources)
  {
    if k > 0 {
      SourceInConcat(sources[1..], k - 1, y);
    }
  }

  lemma {:induction false} AtOrBeforeMeaning(source: seq<Item>, after: Option<Stamp>)
    ensures forall y | y in AtOrBefore(source, after) :: y in source
    ensures Distinct(source) ==> Distinct(AtOrBefore(source, after))
  {
    if after.Some? && source != [] {
      AtOrBeforeMeaning(source[1..], after);
      var rest := AtOrBefore(source[1..], after);
      forall j | 0 <= j < |rest| && Distinct(source) ensures rest[j].stamp != source[0].stamp {
        var i := IndexOf(rest[j], source[1..]);
        assert source[i + 1] == rest[j];
      }
    }
  }

  lemma WindowMeaning(source: seq<Item>, after: Option<Stamp>, n: nat)
    ensures forall y | y in Window(source, after, n) :: y in source
    ensures Distinct(source) ==> Distinct(Window(source, after, n))
  {
    AtOrBeforeMeaning(source, after);
  }

  lemma GatheredIsConcatenated(sources: seq<seq<Item>>, after: Option<Stamp>, n: nat, y: Item)
    requires y in Gather(sources, after, n)
    ensures y in Concat(sources)
  {
    var k := GatherSource(sources, after, n, y);
    WindowMeaning(sources[k], after, n);
    SourceInConcat(sources, k, y);
  }

  lemma {:induction false} GatherDistinct(sources: seq<seq<Item>>, after: Option<Stamp>, n: nat)
    requires Identified(sources)
    ensures Distinct(Gather(sources, after, n))
  {
    if sources != [] {
      HeadAndTail(sources);
      GatherDistinct(sources[1..], after, n);
      WindowMeaning(sources[0], after, n);
      var w, g := Window(sources[0], after, n), Gather(sources[1..], after, n);
      forall i, j | 0 <= i < |w| && 0 <= j < |g| ensures w[i].stamp != g[j].stamp {
        GatheredIsConcatenated(sources[1..], after, n, g[j]);
        HeadAndTailDiffer(sources, w[i], g[j]);
      }
      DistinctAppend(w, g);
    }
  }

  lemma DistinctAppend(w: seq<Item>, g: seq<Item>)
    requires Distinct(w) && Distinct(g)
    requires forall i, j | 0 <= i < |w| && 0 <= j < |g| :: w[i].stamp != g[j].stamp
    ensures Distinct(w + g)
  {
  }

  lemma HeadAndTail(sources: seq<seq<Item>>)
    requires sources != [] && Identified(sources)
    ensures Distinct(sources[0]) && Identified(sources[1..])
  {
    var all, tail, n := Concat(sources), Concat(sources[1..]), |sources[0]|;
    forall i, j | 0 <= i < j < |tail| ensures tail[i].stamp != tail[j].stamp {
      assert all[n + i] == tail[i] && all[n + j] == tail[j];
    }
    forall i, j | 0 <= i < j < n ensures sources[0][i].stamp != sources[0][j].stamp {
      assert all[i] == sources[0][i] && all[j] == sources[0][j];
    }
  }

  lemma HeadAndTailDiffer(sources: seq<seq<Item>>, x: Item, y: Item)
    requires sources != [] && Identified(sources) && x in sources[0] && y in Concat(sources[1..])
    ensures x.stamp != y.stamp
  {
    var i := IndexOf(x, sources[0]);
    var j := IndexOf(y, Concat(sources[1..]));
    assert Concat(sources)[i] == x && Concat(sources)[|sources[0]| + j] == y;
  }

  lemma {:induction false} SourcesDiffer(sources: seq<seq<Item>>, s: nat, k: nat, x: Item, y: Item)
    requires Identified(sources) && s < |sources| && k < |sources| && s != k && x in sources[s] && y in sources[k]
    ensures x.stamp != y.stamp
    decreases |sources|
  {
    if s == 0 {
      SourceInConcat(sources[1..], k - 1, y);
      HeadAndTailDiffer(sources, x, y);
    } else if k == 0 {
      SourceInConcat(sources[1..], s - 1, x);
      HeadAndTailDiffer(sources, y, x);
    } else {
      HeadAndTail(sources);
      SourcesDiffer(sources[1..], s - 1, k - 1, x, y);
    }
  }

  /** Every item of s is an item of a. */
  ghost predicate Part(s: seq<Item>, a: seq<Item>) {
    forall i | 0 <= i < |s| :: s[i] in a
  }

  lemma TimelineMembers(sources: seq<seq<Item>>, after: Option<Stamp>)
    requires Identified(sources)
    ensures Sorted(Timeline(sources, after))
    ensures forall y :: y in Timeline(sources, after) <==> y in Concat(sources) && Follows(after, y)
  {
    CutAfterMeaning(Concat(sources), after);
    CutAfterDistinct(Concat(sources), after);
    SortIsSorted(CutAfter(Concat(sources), after));
  }

  lemma MergedMembers(sources: seq<seq<Item>>, after: Option<Stamp>, n: nat)
    requires Identified(sources)
    ensures Sorted(Merged(sources, after, n))
    ensures forall y :: y in Merged(sources, after, n) <==> y in Gather(sources, after, n) && Follows(after, y)
  {
    GatherDistinct(sources, after, n);
    CutAfterMeaning(Gather(sources, after, n), after);
    CutAfterDistinct(Gather(sources, after, n), after);
    SortIsSorted(CutAfter(Gather(sources, after, n), after));
  }

  /** The timeline holds exactly the rows of the sources that follow the cursor, newest first, then by id. */
  lemma TimelineIsNewestFirst(sources: seq<seq<Item>>, after: Option<Stamp>)
    requires Identified(sources)
    ensures var a := Timeline(sources, after);
      && (forall i, j | 0 <= i < j < |a| ::
            a[j].stamp.at < a[i].stamp.at || (a[j].stamp.at == a[i].stamp.at && Less(a[j].stamp.id, a[i].stamp.id)))
      && (forall y :: y in a <==>
            && (exists k :: 0 <= k < |sources| && y in sources[k])
            && (after.Some? ==> y.stamp.at < after.value.at
                                || (y.stamp.at == after.value.at && Less(y.stamp.id, after.value.id))))
  {
    var a := Timeline(sources, after);
    TimelineMembers(sources, after);
    forall i, j | 0 <= i < j < |a|
      ensures a[j].stamp.at < a[i].stamp.at || (a[j].stamp.at == a[i].stamp.at && Less(a[j].stamp.id, a[i].stamp.id))
    {
      assert Before(a[i].stamp, a[j].stamp);
    }
    forall y ensures y in Concat(sources) <==> exists k :: 0 <= k < |sources| && y in sources[k] {
      if y in Concat(sources) { var k := ConcatSource(sources, y); }
      forall k | 0 <= k < |sources| && y in sources[k] ensures y in Concat(sources) { SourceInConcat(sources, k, y); }
    }
  }

  /** The full timeline and the merged windows are sorted, and the second is part of the first. */
  lemma MergedIsPart(sources: seq<seq<Item>>, after: Option<Stamp>, n: nat)
    requires Identified(sources)
    ensures Sorted(Timeline(sources, after)) && Sorted(Merged(sources, after, n))
    ensures Part(Merged(sources, after, n), Timeline(sources, after))
  {
    TimelineMembers(sources, after);
    MergedMembers(sources, after, n);
    var m := Merged(sources, after, n);
    forall i | 0 <= i < |m| ensures m[i] in Timeline(sources, after) {
      assert m[i] in m;
      GatheredIsConcatenated(sources, after, n, m[i]);
    }
  }

  // ----------------------------------------------- counting what a window loses

  lemma {:induction false} Pigeonhole(p: seq<Item>, q: seq<Item>)
    requires Distinct(p) && Part(p, q)
    ensures |p| <= |q|
  {
    if p != [] {
      var x, rest := p[|p| - 1], p[..|p| - 1];
      var i := IndexOf(x, q);
      var q' := q[..i] + q[i + 1..];
      forall k | 0 <= k < |rest| ensures rest[k] in q' {
        assert p[k].stamp != x.stamp;
        var j := IndexOf(p[k], q);
        assert if j < i then q'[j] == p[k] else q'[j - 1] == p[k];
      }
      Pigeonhole(rest, q');
    }
  }

  /** Two sorted lists, one part of the other and holding its first item, start with the same item. */
  lemma HeadsAgree(a: seq<Item>, s: seq<Item>)
    requires Sorted(a) && Sorted(s) && a != [] && a[0] in s && Part(s, a)
    ensures s[0] == a[0]
  {
    var m := IndexOf(a[0], s);
    var l := IndexOf(s[0], a);
    EarlierIsTotal(s[0].stamp, a[0].stamp);
  }

  lemma TailsArePart(a: seq<Item>, s: seq<Item>)
    requires Sorted(a) && Sorted(s) && a != [] && s != [] && s[0] == a[0] && Part(s, a)
    ensures Part(s[1..], a[1..])
  {
    forall i | 0 <= i < |s[1..]| ensures s[1..][i] in a[1..] {
      assert Before(s[0].stamp, s[i + 1].stamp);
      EarlierIsTotal(s[0].stamp, s[i + 1].stamp);
      var j := IndexOf(s[i + 1], a);
      assert a[1..][j - 1] == s[i + 1];
    }
  }

  /** Of two sorted lists, one part of the other and holding its first k items, the first k agree. */
  lemma {:induction false} SamePrefix(a: seq<Item>, s: seq<Item>, k: nat)
    requires Sorted(a) && Sorted(s) && k <= |a|
    requires Part(s, a) && Part(a[..k], s)
    ensures k <= |s| <= |a| && s[..k] == a[..k]
    decreases k
  {
    if k == 0 {
      SortedDistinct(s);
      Pigeonhole(s, a);
    } else {
      assert a[..k][0] == a[0];
      HeadsAgree(a, s);
      TailsArePart(a, s);
      assert Sorted(a[..k]);
      TailsArePart(s, a[..k]);
      assert a[..k][1..] == a[1..][..k - 1];
      SamePrefix(a[1..], s[1..], k - 1);
      assert s[..k] == [s[0]] + s[1..][..k - 1] && a[..k] == [a[0]] + a[1..][..k - 1];
    }
  }

  lemma SortedDistinct(s: seq<Item>)
    requires Sorted(s)
    ensures Distinct(s)
  {
    forall i, j | 0 <= i < j < |s| ensures s[i].stamp != s[j].stamp {
      EarlierIsTotal(s[i].stamp, s[j].stamp);
    }
  }

  // --------------------------------------------------------------- main results

  /** The windows hold the first `take` items of the timeline, each in its own source's window. */
  ghost predicate Covered(sources: seq<seq<Item>>, after: Option<Stamp>, take: nat) {
    forall k, x | 0 <= k < |sources| && x in sources[k] && x in Upto(Timeline(sources, after), take) ::
      x in Window(sources[k], after, take + 1)
  }

  lemma CoveredIsMerged(sources: seq<seq<Item>>, after: Option<Stamp>, take: nat, x: Item)
    requires Identified(sources) && Covered(sources, after, take) && x in Upto(Timeline(sources, after), take)
    ensures x in Merged(sources, after, take + 1)
  {
    var a := Timeline(sources, after);
    assert x in a by { UptoPart(a, take, x); }
    TimelineMembers(sources, after);
    MergedMembers(sources, after, take + 1);
    var k := ConcatSource(sources, x);
    WindowInGather(sources, after, take + 1, k, x);
  }

  lemma UptoPart<T>(s: seq<T>, n: nat, x: T)
    requires x in Upto(s, n)
    ensures x in s
  {
  }

  /** A merged item of source k is in the window of source k: no other source has it. */
  lemma MergedFrom(sources: seq<seq<Item>>, after: Option<Stamp>, n: nat, k: nat, x: Item)
    requires Identified(sources) && k < |sources| && x in sources[k] && x in Merged(sources, after, n)
    ensures x in Window(sources[k], after, n)
  {
    MergedMembers(sources, after, n);
    var j := GatherSource(sources, after, n, x);
    WindowMeaning(sources[j], after, n);
    if j != k {
      SourcesDiffer(sources, j, k, x, x);
    }
  }

  /**
   Exactly when a page is the first `take` items after its cursor in the global order, ties or
   no ties: no item of that page is crowded out of its source's window of take + 1 rows.
   */
  lemma PageIsExactIff(sources: seq<seq<Item>>, after: Option<Stamp>, limit: int)
    requires Identified(sources)
    ensures var n := if limit < 1 then 1 else if limit <= 100 then limit else 100;
      GetActivity(sources, after, limit).items == Upto(Timeline(sources, after), n) <==> Covered(sources, after, n)
  {
    if Covered(sources, after, Take(limit)) {
      CoveredPage(sources, after, Take(limit));
    } else if GetActivity(sources, after, limit).items == Upto(Timeline(sources, after), Take(limit)) {
      ExactPageIsCovered(sources, after, Take(limit));
    }
  }

  lemma ExactPageIsCovered(sources: seq<seq<Item>>, after: Option<Stamp>, take: nat)
    requires Identified(sources)
    requires Upto(Merged(sources, after, take + 1), take) == Upto(Timeline(sources, after), take)
    ensures Covered(sources, after, take)
  {
    forall k, x | 0 <= k < |sources| && x in sources[k] && x in Upto(Timeline(sources, after), take)
      ensures x in Window(sources[k], after, take + 1)
    {
      UptoPart(Merged(sources, after, take + 1), take, x);
      MergedFrom(sources, after, take + 1, k, x);
    }
  }

  lemma CoveredPage(sources: seq<seq<Item>>, after: Option<Stamp>, take: nat)
    requires Identified(sources) && Covered(sources, after, take)
    ensures Upto(Merged(sources, after, take + 1), take) == Upto(Timeline(sources, after), take)
  {
    var a, s := Timeline(sources, after), Merged(sources, after, take + 1);
    MergedIsPart(sources, after, take + 1);
    CoveredPart(sources, after, take);
    var k := if take <= |a| then take else |a|;
    SamePrefix(a, s, k);
    SamePage(a, s, k, take);
  }

  lemma CoveredPart(sources: seq<seq<Item>>, after: Option<Stamp>, take: nat)
    requires Identified(sources) && Covered(sources, after, take)
    ensures var a := Timeline(sources, after);
      Part(a[..if take <= |a| then take else |a|], Merged(sources, after, take + 1))
  {
    var page := Upto(Timeline(sources, after), take);
    forall i | 0 <= i < |page| ensures page[i] in Merged(sources, after, take + 1) {
      CoveredIsMerged(sources, after, take, page[i]);
    }
  }

  /** A next cursor is never offered for nothing. */
  lemma NextCursorMeansMore(sources: seq<seq<Item>>, after: Option<Stamp>, limit: int)
    requires Identified(sources) && GetActivity(sources, after, limit).nextCursor.Some?
    ensures |Timeline(sources, after)| > if limit < 1 then 1 else if limit <= 100 then limit else 100
  {
    var s := Merged(sources, after, Take(limit) + 1);
    MergedIsPart(sources, after, Take(limit) + 1);
    SortedDistinct(s);
    Pigeonhole(s, Timeline(sources, after));
  }

  // ------------------------------------------------------------ counting, without any hypothesis

  /** Rows after the cursor that a source's window holds. */
  function Kept(source: seq<Item>, after: Option<Stamp>, n: nat): nat { |CutAfter(Window(source, after, n), after)| }

  function KeptInAll(sources: seq<seq<Item>>, after: Option<Stamp>, n: nat): nat {
    if sources == [] then 0 else Kept(sources[0], after, n) + KeptInAll(sources[1..], after, n)
  }

  lemma {:induction false} InsertLength(x: Item, s: seq<Item>)
    ensures |Insert(x, s)| == |s| + 1
  {
    if s != [] && Before(s[0].stamp, x.stamp) { InsertLength(x, s[1..]); }
  }

  lemma {:induction false} SortLength(items: seq<Item>)
    ensures |Sort(items)| == |items|
  {
    if items != [] {
      SortLength(items[1..]);
      InsertLength(items[0], Sort(items[1..]));
    }
  }

  lemma {:induction false} CutAfterConcat(a: seq<Item>, b: seq<Item>, after: Option<Stamp>)
    ensures CutAfter(a + b, after) == CutAfter(a, after) + CutAfter(b, after)
  {
    if a == [] {
      assert a + b == b;
    } else {
      var head := if Follows(after, a[0]) then [a[0]] else [];
      assert (a + b)[1..] == a[1..] + b;
      CutAfterConcat(a[1..], b, after);
      Assoc(head, CutAfter(a[1..], after), CutAfter(b, after));
    }
  }

  lemma {:induction false} CutAfterGather(sources: seq<seq<Item>>, after: Option<Stamp>, n: nat)
    ensures |CutAfter(Gather(sources, after, n), after)| == KeptInAll(sources, after, n)
  {
    if sources != [] {
      CutAfterGather(sources[1..], after, n);
      CutAfterConcat(Window(sources[0], after, n), Gather(sources[1..], after, n), after);
    }
  }

  /** Exactly when a next cursor is offered: the windows together hold more than a page after the cursor. */
  lemma NextCursorIff(sources: seq<seq<Item>>, after: Option<Stamp>, limit: int)
    ensures var n := if limit < 1 then 1 else if limit <= 100 then limit else 100;
      GetActivity(sources, after, limit).nextCursor.Some? <==> KeptInAll(sources, after, n + 1) > n
  {
    CutAfterGather(sources, after, Take(limit) + 1);
    SortLength(CutAfter(Gather(sources, after, Take(limit) + 1), after));
  }

  lemma {:induction false} CutAfterNone(items: seq<Item>)
    ensures CutAfter(items, None) == items
  {
    if items != [] { CutAfterNone(items[1..]); }
  }

  lemma {:induction false} KeptFromStart(sources: seq<seq<Item>>, n: nat)
    ensures KeptInAll(sources, None, n) <= |Concat(sources)|
    ensures KeptInAll(sources, None, n) >= n || KeptInAll(sources, None, n) == |Concat(sources)|
  {
    if sources != [] {
      CutAfterNone(Window(sources[0], None, n));
      KeptFromStart(sources[1..], n);
    }
  }

  /** On the first page, whatever the ties, null means that nothing is left. */
  lemma FirstPageEndIff(sources: seq<seq<Item>>, limit: int)
    ensures GetActivity(sources, None, limit).nextCursor.None? <==>
      |Concat(sources)| <= if limit < 1 then 1 else if limit <= 100 then limit else 100
  {
    NextCursorIff(sources, None, limit);
    KeptFromStart(sources, Take(limit) + 1);
    CutAfterNone(Concat(sources));
    SortLength(Concat(sources));
  }

  // ------------------------------------------------------------ following the cursors

  lemma SamePage<T>(a: seq<T>, s: seq<T>, k: nat, take: nat)
    requires k <= |s| <= |a| && s[..k] == a[..k] && (take <= k || k == |a|)
    ensures Upto(s, take) == Upto(a, take)
  {
    if take <= k {
      assert s[..take] == s[..k][..take] && a[..take] == a[..k][..take];
    } else {
      assert s[..k] == s && a[..k] == a;
    }
  }

  /** What is left after the last item of a page is what follows it in the timeline. */
  lemma RestAfter(sources: seq<seq<Item>>, after: Option<Stamp>, n: nat)
    requires Identified(sources) && 0 < n <= |Timeline(sources, after)|
    ensures Timeline(sources, Some(Timeline(sources, after)[n - 1].stamp)) == Timeline(sources, after)[n..]
  {
    var a := Timeline(sources, after);
    var c := a[n - 1].stamp;
    var b := Timeline(sources, Some(c));
    assert a[n - 1] in a;
    TimelineMembers(sources, after);
    TimelineMembers(sources, Some(c));
    forall i | 0 <= i < |b| ensures b[i] in a[n..] {
      assert b[i] in b;
      if after.Some? { EarlierIsTransitive(b[i].stamp, c, after.value); }
      BehindInSorted(a, n, b[i]);
    }
    forall i | 0 <= i < |a[n..]| ensures a[n..][i] in b {
      assert a[n + i] in a && Before(a[n - 1].stamp, a[n + i].stamp);
    }
    assert a[n..][..|a[n..]|] == a[n..];
    SamePrefix(a[n..], b, |a[n..]|);
  }

  lemma BehindInSorted(a: seq<Item>, n: nat, y: Item)
    requires Sorted(a) && 0 < n <= |a| && y in a && Before(a[n - 1].stamp, y.stamp)
    ensures y in a[n..]
  {
    var j := IndexOf(y, a);
    EarlierIsTotal(a[n - 1].stamp, y.stamp);
    assert j >= n;
    assert a[n..][j - n] == y;
  }

  /** The items of up to n pages reached by following nextCursor. */
  function Walk(sources: seq<seq<Item>>, after: Option<Stamp>, limit: int, n: nat): seq<Item>
    decreases n
  {
    if n == 0 then []
    else
      var page := GetActivity(sources, after, limit);
      page.items + if page.nextCursor.Some? then Walk(sources, page.nextCursor, limit, n - 1) else []
  }

  /** Every page of the walk is exact. */
  ghost predicate WalkCovered(sources: seq<seq<Item>>, after: Option<Stamp>, limit: int, n: nat)
    decreases n
  {
    n > 0 ==>
      var next := GetActivity(sources, after, limit).nextCursor;
      Covered(sources, after, Take(limit)) && (next.Some? ==> WalkCovered(sources, next, limit, n - 1))
  }

  /** A page with a next cursor splits the timeline into itself and what that cursor leads to. */
  lemma PageThenRest(sources: seq<seq<Item>>, after: Option<Stamp>, limit: int)
    requires Identified(sources) && Covered(sources, after, Take(limit))
    requires GetActivity(sources, after, limit).nextCursor.Some?
    ensures
      var a, page := Timeline(sources, after), GetActivity(sources, after, limit);
      Take(limit) <= |a| && page.items == a[..Take(limit)]
      && Timeline(sources, page.nextCursor) == a[Take(limit)..]
  {
    var a, take := Timeline(sources, after), Take(limit);
    CoveredPage(sources, after, take);
    NextCursorMeansMore(sources, after, limit);
    assert Upto(a, take) == a[..take];
    RestAfter(sources, after, take);
  }

  lemma {:induction false} WalkIsPrefix(sources: seq<seq<Item>>, after: Option<Stamp>, limit: int, n: nat)
    requires Identified(sources) && WalkCovered(sources, after, limit, n)
    ensures Walk(sources, after, limit, n) <= Timeline(sources, after)
    decreases n
  {
    if n > 0 {
      var page := GetActivity(sources, after, limit);
      PageIsExactIff(sources, after, limit);
      if page.nextCursor.None? {
        assert Walk(sources, after, limit, n) == page.items;
      } else {
        var rest := Walk(sources, page.nextCursor, limit, n - 1);
        PageThenRest(sources, after, limit);
        WalkIsPrefix(sources, page.nextCursor, limit, n - 1);
        PrefixAfter(Timeline(sources, after), Take(limit), rest);
        assert Walk(sources, after, limit, n) == page.items + rest;
      }
    }
  }

  lemma PrefixAfter(a: seq<Item>, t: nat, w: seq<Item>)
    requires t <= |a| && w <= a[t..]
    ensures a[..t] + w <= a
  {
  }

  /** Pages reached by following cursors concatenate to a duplicate-free prefix of the timeline. */
  lemma PagesConcatenate(sources: seq<seq<Item>>, after: Option<Stamp>, limit: int, n: nat)
    requires Identified(sources) && WalkCovered(sources, after, limit, n)
    ensures Walk(sources, after, limit, n) <= Timeline(sources, after)
    ensures Distinct(Walk(sources, after, limit, n))
  {
    WalkIsPrefix(sources, after, limit, n);
    TimelineMembers(sources, after);
    SortedDistinct(Timeline(sources, after));
  }

  // ------------------------------------------------------------ the cursor string

  function Split(s: string): seq<string> {
    if s == "" then [""]
    else if s[0] == '|' then [""] + Split(s[1..])
    else
      var rest := Split(s[1..]);
      if rest == [] then [s] else [[s[0]] + rest[0]] + rest[1..]
  }

  function Join(parts: seq<string>): string {
    if parts == [] then "" else if |parts| == 1 then parts[0] else parts[0] + "|" + Join(parts[1..])
  }

  /** The text under the base64url layer: time and id around the first bar. */
  function EncodeCursor(iso: string, id: string): string { iso + "|" + id }

  function DecodeCursor(s: string): Option<(string, string)> {
    var parts := Split(s);
    if |parts| < 2 then None else Some((parts[0], Join(parts[1..])))
  }

  lemma {:induction false} JoinSplit(s: string)
    ensures |Split(s)| >= 1 && Join(Split(s)) == s
  {
    if s != "" {
      JoinSplit(s[1..]);
    }
  }

  /** A cursor is refused if and only if it has no bar. */
  lemma {:induction false} CursorNeedsBar(s: string)
    ensures DecodeCursor(s).Some? <==> '|' in s
  {
    if s != "" {
      JoinSplit(s[1..]);
      CursorNeedsBar(s[1..]);
      assert s == [s[0]] + s[1..];
    }
  }

  /** Ids keep their own bars: the text up to the first bar is the time, the rest is the id. */
  lemma {:induction false} CursorRoundTrip(iso: string, id: string)
    requires '|' !in iso
    ensures DecodeCursor(EncodeCursor(iso, id)) == Some((iso, id))
  {
    var s := EncodeCursor(iso, id);
    if iso == "" {
      assert s[1..] == id;
      JoinSplit(id);
    } else {
      assert s[1..] == EncodeCursor(iso[1..], id);
      JoinSplit(s[1..]);
      CursorRoundTrip(iso[1..], id);
      assert Split(s)[1..] == Split(s[1..])[1..];
      assert iso == [iso[0]] + iso[1..];
    }
  }
}
