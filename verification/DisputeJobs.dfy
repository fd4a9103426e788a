/** The dispute table and the jobs that walk it one row at a time. */
module DisputeJobs {
  import opened Options
  import opened Disputes

  /** A whole settle call on a row nobody else touches. */
  function SettledRow(d: Dispute, chainOk: bool, now: int): Dispute {
    if !Claimable(d) then d
    else if chainOk then MarkReleased(Claim(d), now)
    else Unclaim(Claim(d))
  }

  /** One row after the appeal-window job started at `now` settled it at `at`. */
  function FinalizedRow(d: Dispute, now: int, chainOk: bool, at: int): Dispute {
    if Expired(d, now) then SettledRow(FinalizeWrite(d, now), chainOk, at) else d
  }

  predicate Due(d: Dispute, now: int) { Flaggable(d) && d.deadline <= now }

  /** The job loses no decision: what it found is released, or final and found again after a chain error. */
  lemma FinalizeReleasesOrRetries(d: Dispute, now: int, chainOk: bool, at: int)
    requires Expired(d, now) && d.releasedAt.None?
    ensures var d' := FinalizedRow(d, now, chainOk, at);
      && (d'.releasedAt == Some(at) && !d'.fundsLocked && d'.status == Closed && d'.isFinal <==> chainOk)
      && (d'.status == Resolved && d'.isFinal && d'.releasedAt.None? && Expired(d', now) <==> !chainOk)
      && d'.outcome == d.outcome
    ensures chainOk ==> FinalizedRow(FinalizedRow(d, now, false, at), now, true, at) == FinalizedRow(d, now, true, at)
  {
  }

  /** The row the appeal-window job leaves: only a decision past its deadline changes, and it keeps its outcome. */
  lemma FinalizedRowIs(d: Dispute, now: int, chainOk: bool, at: int)
    ensures var expired := d.status == Resolved && d.appealDeadline.Some? && d.appealDeadline.value < now;
      && (Expired(d, now) <==> expired)
      && FinalizedRow(d, now, chainOk, at) ==
           if expired && d.releasedAt.None? && chainOk then
             d.(isFinal := true, status := Closed, fundsLocked := false, releasedAt := Some(at))
           else if expired then d.(isFinal := true)
           else d
  {
  }

  predicate NoRepeats(ids: seq<Id>) { forall i, j | 0 <= i < j < |ids| :: ids[i] != ids[j] }

  class DisputeTable {
    var rows: map<Id, Dispute>

    /** The ids a query selects, in whatever order the database gives them. */
    method Select(p: Dispute -> bool) returns (found: seq<Id>)
      ensures forall id :: id in found <==> id in rows && p(rows[id])
      ensures NoRepeats(found)
    {
      found := [];
      var left := rows.Keys;
      while left != {}
        invariant left <= rows.Keys
        invariant forall id :: id in found <==> id in rows.Keys - left && p(rows[id])
        invariant NoRepeats(found)
        decreases left
      {
        var id :| id in left;
        left := left - {id};
        if p(rows[id]) {
          found := found + [id];
        }
      }
    }

    /** settle: claim, resolve on chain, then mark released or roll the claim back. */
    method Settle(id: Id, chainOk: bool, now: int) returns (failed: bool)
      requires id in rows
      modifies this
      ensures rows == old(rows)[id := SettledRow(old(rows[id]), chainOk, now)]
      ensures var d := old(rows[id]); var claimed := d.status == Resolved && d.isFinal && d.releasedAt.None?;
        && rows[id] == (if claimed && chainOk
                        then d.(status := Closed, fundsLocked := false, releasedAt := Some(now)) else d)
        && (failed <==> claimed && !chainOk)
    {
      var claimed := Claimable(rows[id]);
      rows := rows[id := Claim(rows[id])];
      if !claimed {
        return false;
      }
      if !chainOk {
        rows := rows[id := Unclaim(rows[id])];
        return true;
      }
      rows := rows[id := MarkReleased(rows[id], now)];
      return false;
    }

    /** The body of the appeal-window loop for one row it found. */
    method FinalizeOne(id: Id, now: int, chainOk: bool, at: int) returns (failed: bool)
      requires id in rows && Expired(rows[id], now)
      modifies this
      ensures rows == old(rows)[id := FinalizedRow(old(rows[id]), now, chainOk, at)]
      ensures failed <==> old(rows[id]).releasedAt.None? && !chainOk
    {
      if !rows[id].isFinal {
        rows := rows[id := FinalizeWrite(rows[id], now)];
      }
      failed := Settle(id, chainOk, at);
    }

    /** finalizeExpiredAppealWindows, holding the job's lock; `chainOk` says which chain calls succeed. */
    method FinalizeExpired(now: int, chainOk: Id -> bool, at: int) returns (settled: nat, found: seq<Id>)
      modifies this
      ensures forall id :: id in found <==>
        id in old(rows) && Expired(old(rows)[id], now)
      ensures NoRepeats(found)
      ensures rows.Keys == old(rows).Keys
      ensures forall id | id in rows :: rows[id] == FinalizedRow(old(rows)[id], now, chainOk(id), at)
      ensures settled == |Filter(found, id => id in old(rows) && (old(rows)[id].releasedAt.Some? || chainOk(id)))|
    {
      var before := rows;
      var succeeds := id => id in before && (before[id].releasedAt.Some? || chainOk(id));
      found := Select(d => Expired(d, now));
      settled := 0;
      for i := 0 to |found|
        invariant rows.Keys == before.Keys
        invariant forall id | id in before ::
          rows[id] == if id in found[..i] then FinalizedRow(before[id], now, chainOk(id), at) else before[id]
        invariant settled == |Filter(found[..i], succeeds)|
      {
        var id := found[i];
        assert found[..i + 1] == found[..i] + [id] && id !in found[..i];
        var failed := FinalizeOne(id, now, chainOk(id), at);
        if !failed {
          settled := settled + 1;
        }
      }
      assert found[..|found|] == found;
    }

    /** flagOverdueDisputes, holding the job's lock. */
    method FlagOverdue(now: int) returns (flagged: nat, found: seq<Id>)
      modifies this
      ensures forall id :: id in found <==>
        && id in old(rows) && old(rows)[id].sla == OnTrack && old(rows)[id].deadline <= now
        && (old(rows)[id].status == Open || old(rows)[id].status == UnderReview)
      ensures NoRepeats(found)
      ensures flagged == |found|
      ensures rows.Keys == old(rows).Keys
      ensures forall id | id in rows :: var d := old(rows)[id];
        rows[id] == if id in found then d.(sla := Overdue, escalatedAt := Some(now)) else d
    {
      var before := rows;
      found := Select(d => Due(d, now));
      flagged := 0;
      for i := 0 to |found|
        invariant rows.Keys == before.Keys && flagged == i
        invariant forall id | id in before ::
          rows[id] == if id in found[..i] then before[id].(sla := Overdue, escalatedAt := Some(now)) else before[id]
      {
        var id := found[i];
        assert found[..i + 1] == found[..i] + [id] && id !in found[..i];
        if Flaggable(rows[id]) {
          rows := rows[id := Flag(rows[id], now)];
          flagged := flagged + 1;
        }
      }
      assert found[..|found|] == found;
    }
  }

  function Filter(ids: seq<Id>, p: Id -> bool): seq<Id> {
    if ids == [] then []
    else
      var n := |ids| - 1;
      Filter(ids[..n], p) + (if p(ids[n]) then [ids[n]] else [])
  }

  ghost function Passing(ids: seq<Id>, p: Id -> bool): set<Id> { set id | id in ids && p(id) }

  lemma {:induction false} FilterCounts(ids: seq<Id>, p: Id -> bool)
    requires NoRepeats(ids)
    ensures |Filter(ids, p)| == |Passing(ids, p)|
  {
    if ids != [] {
      var n := |ids| - 1;
      var rest, last := ids[..n], ids[n];
      FilterCounts(rest, p);
      assert ids == rest + [last] && last !in rest;
      assert Passing(ids, p) == Passing(rest, p) + if p(last) then {last} else {};
    }
  }

  // ------------------------------------------------------------ arbiter selection

  datatype Arbiter = Arbiter(id: Id, address: Option<string>)

  datatype Parties = Parties(company: Option<Id>, recruiter: Option<Id>, companyAddress: string,
                             recruiterAddress: string)

  predicate Eligible(a: Arbiter, p: Parties, recused: set<Id>, exclude: set<Id>) {
    && a.id !in recused && a.id !in exclude
    && p.company != Some(a.id) && p.recruiter != Some(a.id)
    && (HasAddress(a) ==> a.address.value != p.companyAddress && a.address.value != p.recruiterAddress)
  }

  predicate HasAddress(a: Arbiter) { a.address.Some? && a.address.value != "" }

  /**
   selectArbiter: `arbiters` are the active arbiters, longest-standing first; `load`
   counts each one's active disputes.
   */
  method SelectArbiter(arbiters: seq<Arbiter>, load: Id -> nat, p: Parties, recused: set<Id>, exclude: set<Id>)
    returns (best: Option<Arbiter>)
    ensures best.None? <==> forall a | a in arbiters ::
      || a.id in recused || a.id in exclude || p.company == Some(a.id) || p.recruiter == Some(a.id)
      || (a.address.Some? && a.address.value != ""
          && (a.address.value == p.companyAddress || a.address.value == p.recruiterAddress))
    ensures best.Some? ==>
      && best.value.id !in recused && best.value.id !in exclude
      && p.company != Some(best.value.id) && p.recruiter != Some(best.value.id)
      && (best.value.address.Some? && best.value.address.value != "" ==>
            best.value.address.value != p.companyAddress && best.value.address.value != p.recruiterAddress)
    ensures best.Some? ==> exists k ::
      && 0 <= k < |arbiters| && arbiters[k] == best.value && Eligible(arbiters[k], p, recused, exclude)
      && (forall j | 0 <= j < |arbiters| && Eligible(arbiters[j], p, recused, exclude) ::
            load(arbiters[k].id) < load(arbiters[j].id) || (load(arbiters[k].id) == load(arbiters[j].id) && k <= j))
  {
    best := None;
    ghost var at := 0;
    for i := 0 to |arbiters|
      invariant best.None? ==> forall j | 0 <= j < i :: !Eligible(arbiters[j], p, recused, exclude)
      invariant best.Some? ==>
        && 0 <= at < i && arbiters[at] == best.value && Eligible(arbiters[at], p, recused, exclude)
        && (forall j | 0 <= j < i && Eligible(arbiters[j], p, recused, exclude) ::
              load(arbiters[at].id) < load(arbiters[j].id)
              || (load(arbiters[at].id) == load(arbiters[j].id) && at <= j))
    {
      if Eligible(arbiters[i], p, recused, exclude) {
        if best.None? || load(arbiters[i].id) < load(best.value.id) {
          best := Some(arbiters[i]);
          at := i;
        }
      }
    }
  }
}
