/**
 Refresh-token families: rotation, reuse detection and revocation, with every read
 possibly stale by the time its write lands. A rotation takes effect when its transaction
 commits; the update of a whole family starts, seeing the rows committed so far, and takes
 effect later. Tokens are fresh and never guessed, so a token is its row: rows are numbered
 in order of creation.
 */
module RefreshTokens {
  import opened Options

  datatype Token = Token(user: nat, family: nat, expiresAt: int, lastUsedAt: int, consumed: bool, revoked: bool)

  /** Calls between their read of the presented token and their write. */
  datatype Call =
    | Rotating(id: nat, snap: Token, now: int, expiresAt: int, idle: int)
    | RevokingFamily(family: nat)
    | RevokingRows(family: nat, visible: nat)
    | RevokingOne(id: nat)
    | Over

  /** `rotated` logs which token each successful refresh consumed; families are numbered as issued. */
  datatype State = State(tokens: seq<Token>, families: nat, calls: seq<Call>, rotated: seq<nat>)

  /** `idle` is the idle window; an id beyond the table is an unknown token. */
  datatype Action =
    | Issue(user: nat, now: int, expiresAt: int)
    | PresentToRefresh(id: nat, now: int, expiresAt: int, idle: int)
    | PresentToRevoke(id: nat)
    | Fire(i: nat)

  datatype Verdict = Unknown | Reused | Stale | Accepted

  /** The checks refresh makes on the row it read. */
  function Check(tokens: seq<Token>, id: nat, now: int, idle: int): Verdict {
    if id >= |tokens| then Unknown
    else if tokens[id].consumed then Reused
    else if tokens[id].revoked || tokens[id].expiresAt <= now then Stale
    else if tokens[id].lastUsedAt < now - idle then Stale
    else Accepted
  }

  predicate Usable(t: Token) { !t.consumed && !t.revoked }

  predicate Enabled(s: State, a: Action) {
    a.Fire? ==> a.i < |s.calls| && s.calls[a.i] != Over
  }

  /** The first `visible` rows of the family are revoked. */
  function RevokeFamily(tokens: seq<Token>, family: nat, visible: nat): (r: seq<Token>)
    ensures |r| == |tokens|
    ensures forall k | 0 <= k < |r| ::
      r[k] == if k < visible && tokens[k].family == family then tokens[k].(revoked := true) else tokens[k]
  {
    seq(|tokens|, k requires 0 <= k < |tokens| =>
      if k < visible && tokens[k].family == family then tokens[k].(revoked := true) else tokens[k])
  }

  /** The rotation transaction found its token still unconsumed and unrevoked. */
  predicate Wins(s: State, c: Call) {
    c.Rotating? && c.id < |s.tokens| && Usable(s.tokens[c.id])
  }

  function FireCall(s: State, i: nat): State
    requires i < |s.calls|
  {
    var done := s.(calls := s.calls[i := Over]);
    match s.calls[i]
    case Rotating(id, snap, now, expiresAt, _) =>
      if Wins(s, s.calls[i]) then
        done.(tokens := s.tokens[id := s.tokens[id].(consumed := true, lastUsedAt := now)]
                        + [Token(snap.user, snap.family, expiresAt, now, false, false)],
              rotated := s.rotated + [id])
      // The losing branch revokes the family and then throws, which rolls the revocation back.
      else done
    case RevokingFamily(family) => s.(calls := s.calls[i := RevokingRows(family, |s.tokens|)])
    case RevokingRows(family, visible) => done.(tokens := RevokeFamily(s.tokens, family, visible))
    case RevokingOne(id) =>
      if id < |s.tokens| then done.(tokens := s.tokens[id := s.tokens[id].(revoked := true)]) else done
    case Over => s
  }

  function Apply(s: State, a: Action): State
    requires Enabled(s, a)
  {
    match a
    case Issue(user, now, expiresAt) =>
      s.(tokens := s.tokens + [Token(user, s.families, expiresAt, now, false, false)], families := s.families + 1)
    case PresentToRefresh(id, now, expiresAt, idle) =>
      (match Check(s.tokens, id, now, idle)
       case Accepted => s.(calls := s.calls + [Rotating(id, s.tokens[id], now, expiresAt, idle)])
       case Reused => s.(calls := s.calls + [RevokingFamily(s.tokens[id].family)])
       case _ => s)
    case PresentToRevoke(id) =>
      if id < |s.tokens| && !s.tokens[id].revoked then s.(calls := s.calls + [RevokingOne(id)]) else s
    case Fire(i) => FireCall(s, i)
  }

  predicate Legal(s: State, run: seq<Action>)
    decreases |run|
  {
    run == [] || (Enabled(s, run[0]) && Legal(Apply(s, run[0]), run[1..]))
  }

  function Exec(s: State, run: seq<Action>): State
    requires Legal(s, run)
    decreases |run|
  {
    if run == [] then s else Exec(Apply(s, run[0]), run[1..])
  }

  const EMPTY := State([], 0, [], [])

  /** The table with no calls in flight, and one presentation handled with nothing in between. */
  function Quiet(tokens: seq<Token>, families: nat): State { State(tokens, families, [], []) }

  function Undisturbed(s: State, a: Action): State
    requires Enabled(s, a)
  {
    var s1 := Apply(s, a);
    if |s1.calls| > |s.calls| then FireCall(FireCall(s1, |s.calls|), |s.calls|) else s1
  }

  // ------------------------------------------------------------- the table, updated in place

  /** The rows after a token is exchanged for a new one of its owner and family. */
  ghost function Rotated(tokens: seq<Token>, id: nat, snap: Token, now: int, expiresAt: int): (r: seq<Token>)
    requires id < |tokens|
    ensures |r| == |tokens| + 1
    ensures forall k | 0 <= k < |tokens| && k != id :: r[k] == tokens[k]
    ensures var t := tokens[id];
      && r[id] == Token(t.user, t.family, t.expiresAt, now, true, t.revoked)
      && r[|tokens|] == Token(snap.user, snap.family, expiresAt, now, false, false)
  {
    tokens[id := tokens[id].(consumed := true, lastUsedAt := now)]
      + [Token(snap.user, snap.family, expiresAt, now, false, false)]
  }

  class TokenTable {
    var tokens: seq<Token>
    var families: nat

    constructor ()
      ensures tokens == [] && families == 0
    {
      tokens, families := [], 0;
    }

    method IssueToken(user: nat, now: int, expiresAt: int) returns (id: nat)
      modifies this
      ensures id == |old(tokens)| && families == old(families) + 1
      ensures tokens == old(tokens) + [Token(user, old(families), expiresAt, now, false, false)]
      ensures Quiet(tokens, families) == Apply(Quiet(old(tokens), old(families)), Issue(user, now, expiresAt))
    {
      id := |tokens|;
      tokens := tokens + [Token(user, families, expiresAt, now, false, false)];
      families := families + 1;
    }

    /** The rotation transaction, from the row read before it began. */
    method Rotate(id: nat, snap: Token, now: int, expiresAt: int) returns (won: bool)
      modifies this`tokens
      ensures forall idle ::
        var s := Quiet(old(tokens), families).(calls := [Rotating(id, snap, now, expiresAt, idle)]);
        won == Wins(s, s.calls[0]) && tokens == FireCall(s, 0).tokens
      ensures won <==> id < |old(tokens)| && !old(tokens)[id].consumed && !old(tokens)[id].revoked
      ensures tokens == if won then Rotated(old(tokens), id, snap, now, expiresAt) else old(tokens)
    {
      var begin := tokens;
      won := id < |tokens| && !tokens[id].consumed && !tokens[id].revoked;
      if !won {
        RevokeRows(snap.family);
        tokens := begin; // the exception rolls the transaction back
        return;
      }
      tokens := tokens[id := tokens[id].(consumed := true, lastUsedAt := now)];
      tokens := tokens + [Token(snap.user, snap.family, expiresAt, now, false, false)];
    }

    method RevokeRows(family: nat)
      modifies this`tokens
      ensures tokens == RevokeFamily(old(tokens), family, |old(tokens)|)
    {
      var i := 0;
      while i < |tokens|
        invariant 0 <= i <= |tokens| == |old(tokens)|
        invariant forall k | 0 <= k < |tokens| ::
          tokens[k] == var t := old(tokens)[k]; if k < i && t.family == family then t.(revoked := true) else t
      {
        if tokens[i].family == family && !tokens[i].revoked {
          tokens := tokens[i := tokens[i].(revoked := true)];
        }
        i := i + 1;
      }
    }

    method RevokeOne(id: nat)
      modifies this`tokens
      ensures tokens == Undisturbed(Quiet(old(tokens), families), PresentToRevoke(id)).tokens
      ensures |tokens| == |old(tokens)|
      ensures forall k | 0 <= k < |tokens| ::
        tokens[k] == if k == id then old(tokens)[k].(revoked := true) else old(tokens)[k]
    {
      if id < |tokens| && !tokens[id].revoked {
        tokens := tokens[id := tokens[id].(revoked := true)];
      }
    }

    /**
     A refresh nobody disturbs succeeds exactly when its token is known, unconsumed, unrevoked, unexpired and
     not idle; it then consumes the token and creates one row. A consumed token costs its family, and
     anything else changes nothing.
     */
    method Refresh(id: nat, now: int, expiresAt: int, idle: int) returns (ok: bool)
      modifies this`tokens
      ensures tokens == Undisturbed(Quiet(old(tokens), families), PresentToRefresh(id, now, expiresAt, idle)).tokens
      ensures ok <==>
        && id < |old(tokens)| && !old(tokens)[id].consumed && !old(tokens)[id].revoked
        && now < old(tokens)[id].expiresAt && now - idle <= old(tokens)[id].lastUsedAt
      ensures ok ==> tokens == Rotated(old(tokens), id, old(tokens)[id], now, expiresAt)
      ensures !ok && id < |old(tokens)| && old(tokens)[id].consumed ==>
        |tokens| == |old(tokens)| && forall k | 0 <= k < |tokens| ::
          tokens[k] == if old(tokens)[k].family == old(tokens)[id].family
                       then old(tokens)[k].(revoked := true) else old(tokens)[k]
      ensures !ok && (id < |old(tokens)| ==> !old(tokens)[id].consumed) ==> tokens == old(tokens)
    {
      ok := false;
      if id >= |tokens| { return; }
      var stored := tokens[id];
      if stored.consumed {
        RevokeRows(stored.family);
        return;
      }
      if stored.revoked || stored.expiresAt <= now || stored.lastUsedAt < now - idle { return; }
      ok := Rotate(id, stored, now, expiresAt);
    }
  }

  // ------------------------------------------------------------- the invariant

  function Size(tokens: seq<Token>, family: nat): nat {
    if tokens == [] then 0
    else Size(tokens[..|tokens| - 1], family) + if tokens[|tokens| - 1].family == family then 1 else 0
  }

  function Consumed(tokens: seq<Token>, family: nat): nat {
    if tokens == [] then 0
    else
      var t := tokens[|tokens| - 1];
      Consumed(tokens[..|tokens| - 1], family) + if t.family == family && t.consumed then 1 else 0
  }

  /** A token a refresh may go on with at `now`. */
  predicate Presentable(t: Token, now: int, idle: int) {
    !t.consumed && !t.revoked && now < t.expiresAt && now - idle <= t.lastUsedAt
  }

  ghost predicate CallInv(s: State, c: Call) {
    match c
    case Rotating(id, snap, now, _, idle) =>
      && id < |s.tokens| && snap.family == s.tokens[id].family && snap.user == s.tokens[id].user
      && Presentable(snap, now, idle) && snap.expiresAt == s.tokens[id].expiresAt
      && (!s.tokens[id].consumed ==> s.tokens[id].lastUsedAt == snap.lastUsedAt)
    case RevokingFamily(family) => family < s.families
    case RevokingRows(family, visible) => family < s.families && visible <= |s.tokens|
    case _ => true
  }

  /** The log names exactly the consumed tokens, each once. */
  ghost predicate LogInv(s: State) {
    && (forall k | 0 <= k < |s.rotated| :: s.rotated[k] < |s.tokens| && s.tokens[s.rotated[k]].consumed)
    && (forall j, k | 0 <= j < k < |s.rotated| :: s.rotated[j] != s.rotated[k])
    && (forall k | 0 <= k < |s.tokens| && s.tokens[k].consumed :: k in s.rotated)
  }

  ghost predicate CountInv(s: State) {
    && (forall k | 0 <= k < |s.tokens| :: s.tokens[k].family < s.families)
    && (forall f | 0 <= f < s.families :: Size(s.tokens, f) == Consumed(s.tokens, f) + 1)
  }

  ghost predicate Inv(s: State) {
    && CountInv(s)
    && LogInv(s)
    && (forall i | 0 <= i < |s.calls| :: CallInv(s, s.calls[i]))
  }

  lemma CountAppend(tokens: seq<Token>, t: Token, f: nat)
    ensures Size(tokens + [t], f) == Size(tokens, f) + if t.family == f then 1 else 0
    ensures Consumed(tokens + [t], f) == Consumed(tokens, f) + if t.family == f && t.consumed then 1 else 0
  {
    assert (tokens + [t])[..|tokens|] == tokens;
  }

  /** Sizes and consumptions see families and consumed flags only. */
  lemma {:induction false} CountSame(a: seq<Token>, b: seq<Token>, f: nat)
    requires |a| == |b| && forall k | 0 <= k < |a| :: a[k].family == b[k].family && a[k].consumed == b[k].consumed
    ensures Size(a, f) == Size(b, f) && Consumed(a, f) == Consumed(b, f)
    decreases |a|
  {
    if a != [] {
      CountSame(a[..|a| - 1], b[..|b| - 1], f);
    }
  }

  lemma {:induction false} CountConsume(tokens: seq<Token>, id: nat, t: Token, f: nat)
    requires id < |tokens| && !tokens[id].consumed && t.consumed && t.family == tokens[id].family
    ensures Size(tokens[id := t], f) == Size(tokens, f)
    ensures Consumed(tokens[id := t], f) == Consumed(tokens, f) + if t.family == f then 1 else 0
    decreases |tokens|
  {
    var n := |tokens| - 1;
    if id < n {
      CountConsume(tokens[..n], id, t, f);
      assert tokens[id := t][..n] == tokens[..n][id := t];
    } else {
      assert tokens[id := t][..n] == tokens[..n];
    }
  }

  lemma {:induction false} NoneOfNewFamily(tokens: seq<Token>, f: nat)
    requires forall k | 0 <= k < |tokens| :: tokens[k].family != f
    ensures Size(tokens, f) == 0 && Consumed(tokens, f) == 0
    decreases |tokens|
  {
    if tokens != [] {
      NoneOfNewFamily(tokens[..|tokens| - 1], f);
    }
  }

  lemma StepKeepsCounts(s: State, a: Action, f: nat)
    requires CountInv(s) && Enabled(s, a) && f < Apply(s, a).families
    requires a.Fire? ==> CallInv(s, s.calls[a.i])
    ensures var t := Apply(s, a).tokens; Size(t, f) == Consumed(t, f) + 1
  {
    var s' := Apply(s, a);
    if f < s.families {
      assert Size(s.tokens, f) == Consumed(s.tokens, f) + 1;
    }
    if a.Issue? {
      NoneOfNewFamily(s.tokens, s.families);
      CountAppend(s.tokens, s'.tokens[|s.tokens|], f);
    } else if a.Fire? && Wins(s, s.calls[a.i]) {
      var c := s.calls[a.i];
      var spent := s.tokens[c.id].(consumed := true, lastUsedAt := c.now);
      CountConsume(s.tokens, c.id, spent, f);
      CountAppend(s.tokens[c.id := spent], s'.tokens[|s.tokens|], f);
    } else {
      CountSame(s.tokens, s'.tokens, f);
    }
  }

  /** Rows are never removed and keep their owner; a new row belongs to an issued family. */
  lemma StepGrows(s: State, a: Action)
    requires Enabled(s, a) && (a.Fire? ==> CallInv(s, s.calls[a.i]))
    requires forall k | 0 <= k < |s.tokens| :: s.tokens[k].family < s.families
    ensures var s' := Apply(s, a);
      && |s.tokens| <= |s'.tokens| && s.families <= s'.families
      && (forall k | 0 <= k < |s.tokens| ::
            s'.tokens[k].family == s.tokens[k].family && s'.tokens[k].user == s.tokens[k].user)
      && (forall k | 0 <= k < |s'.tokens| :: s'.tokens[k].family < s'.families)
  {
  }

  lemma RotationKeepsLog(s: State, i: nat)
    requires LogInv(s) && i < |s.calls| && Wins(s, s.calls[i])
    ensures LogInv(Apply(s, Fire(i)))
  {
    var s', id := Apply(s, Fire(i)), s.calls[i].id;
    assert s'.rotated == s.rotated + [id];
    forall k | 0 <= k < |s'.tokens| && s'.tokens[k].consumed ensures k in s'.rotated {
      assert k == id || k in s.rotated;
    }
  }

  lemma StepKeepsLog(s: State, a: Action)
    requires LogInv(s) && Enabled(s, a)
    ensures LogInv(Apply(s, a))
  {
    var s' := Apply(s, a);
    if a.Fire? && Wins(s, s.calls[a.i]) {
      RotationKeepsLog(s, a.i);
    } else {
      assert s'.rotated == s.rotated;
      assert forall k | 0 <= k < |s.tokens| :: s'.tokens[k].consumed == s.tokens[k].consumed;
    }
  }

  lemma StepKeepsCall(s: State, a: Action, i: nat)
    requires Enabled(s, a) && i < |Apply(s, a).calls| && (a.Fire? ==> CallInv(s, s.calls[a.i]))
    requires forall k | 0 <= k < |s.tokens| :: s.tokens[k].family < s.families
    requires i < |s.calls| ==> CallInv(s, s.calls[i])
    ensures CallInv(Apply(s, a), Apply(s, a).calls[i])
  {
  }

  lemma StepKeepsInv(s: State, a: Action)
    requires Inv(s) && Enabled(s, a)
    ensures Inv(Apply(s, a))
  {
    var s' := Apply(s, a);
    if a.Fire? {
      assert CallInv(s, s.calls[a.i]);
    }
    StepGrows(s, a);
    StepKeepsLog(s, a);
    forall f | 0 <= f < s'.families ensures Size(s'.tokens, f) == Consumed(s'.tokens, f) + 1 {
      StepKeepsCounts(s, a, f);
    }
    forall i | 0 <= i < |s'.calls| ensures CallInv(s', s'.calls[i]) {
      if i < |s.calls| { assert CallInv(s, s.calls[i]); }
      StepKeepsCall(s, a, i);
    }
  }

  lemma {:induction false} RunKeepsInv(s: State, run: seq<Action>)
    requires Inv(s) && Legal(s, run)
    ensures Inv(Exec(s, run))
    decreases |run|
  {
    if run != [] {
      StepKeepsInv(s, run[0]);
      RunKeepsInv(Apply(s, run[0]), run[1..]);
    }
  }

  ghost predicate Reachable(s: State) {
    exists run :: Legal(EMPTY, run) && Exec(EMPTY, run) == s
  }

  lemma ReachableInv(s: State)
    requires Reachable(s)
    ensures Inv(s)
  {
    var run :| Legal(EMPTY, run) && Exec(EMPTY, run) == s;
    RunKeepsInv(EMPTY, run);
  }

  // -------------------------------------------------------------- main results

  /** What a presentation starts, by the row it reads. */
  lemma PresentationIsAcceptedIff(s: State, id: nat, now: int, expiresAt: int, idle: int)
    ensures Apply(s, PresentToRefresh(id, now, expiresAt, idle)) ==
      if id < |s.tokens| && s.tokens[id].consumed then
        s.(calls := s.calls + [RevokingFamily(s.tokens[id].family)])
      else if id < |s.tokens| && !s.tokens[id].revoked && now < s.tokens[id].expiresAt
              && now - idle <= s.tokens[id].lastUsedAt then
        s.(calls := s.calls + [Rotating(id, s.tokens[id], now, expiresAt, idle)])
      else s
  {
  }

  /** The step exchanges token `id`, which it presented unexpired and not idle, for a new one of its family. */
  ghost predicate Exchanges(s: State, a: Action, id: nat)
    requires Enabled(s, a)
  {
    && a.Fire? && s.calls[a.i].Rotating? && s.calls[a.i].id == id < |s.tokens|
    && var c, t := s.calls[a.i], s.tokens[id];
       && !t.consumed && !t.revoked && c.now < t.expiresAt && c.now - c.idle <= t.lastUsedAt
       && Apply(s, a).tokens == Rotated(s.tokens, id, t, c.now, c.expiresAt)
  }

  ghost predicate ExchangedIn(s: State, run: seq<Action>, id: nat)
    requires Legal(s, run)
    decreases |run|
  {
    run != [] && (Exchanges(s, run[0], id) || ExchangedIn(Apply(s, run[0]), run[1..], id))
  }

  lemma StepConsumesIff(s: State, a: Action, id: nat)
    requires Inv(s) && Enabled(s, a) && id < |s.tokens| && !s.tokens[id].consumed
    ensures id < |Apply(s, a).tokens| && (Apply(s, a).tokens[id].consumed <==> Exchanges(s, a, id))
  {
    if a.Fire? {
      assert CallInv(s, s.calls[a.i]);
    }
  }

  lemma {:induction false} ConsumedForGood(s: State, run: seq<Action>, id: nat)
    requires Legal(s, run) && id < |s.tokens| && s.tokens[id].consumed
    ensures id < |Exec(s, run).tokens| && Exec(s, run).tokens[id].consumed
    decreases |run|
  {
    if run != [] {
      ConsumedForGood(Apply(s, run[0]), run[1..], id);
    }
  }

  /**
   Whatever the calls in flight, a token is consumed if and only if some step of the run exchanges it: it was
   presented before it expired and inside its idle window, and is neither consumed nor revoked when the step lands.
   */
  lemma {:induction false} ConsumedIffExchanged(s: State, run: seq<Action>, id: nat)
    requires Inv(s) && Legal(s, run) && id < |s.tokens| && !s.tokens[id].consumed
    ensures id < |Exec(s, run).tokens| && (Exec(s, run).tokens[id].consumed <==> ExchangedIn(s, run, id))
    decreases |run|
  {
    if run != [] {
      StepConsumesIff(s, run[0], id);
      if Exchanges(s, run[0], id) {
        ConsumedForGood(Apply(s, run[0]), run[1..], id);
      } else {
        StepKeepsInv(s, run[0]);
        ConsumedIffExchanged(Apply(s, run[0]), run[1..], id);
      }
    }
  }

  /** A revoked token stays so, and is never exchanged after. */
  lemma {:induction false} RevokedIsNeverExchanged(s: State, run: seq<Action>, id: nat)
    requires Legal(s, run) && id < |s.tokens| && s.tokens[id].revoked
    ensures id < |Exec(s, run).tokens| && Exec(s, run).tokens[id].revoked
    ensures Exec(s, run).tokens[id].consumed == s.tokens[id].consumed && !ExchangedIn(s, run, id)
    decreases |run|
  {
    if run != [] {
      RevokedIsNeverExchanged(Apply(s, run[0]), run[1..], id);
    }
  }

  /**
   Logging out: whatever runs between its read and its update, afterwards the token is revoked, as no other
   row is by it, and no continuation exchanges it.
   */
  lemma LogoutIsFinal(s: State, id: nat, between: seq<Action>, after: seq<Action>)
    requires id < |s.tokens| && !s.tokens[id].revoked
    requires Legal(Apply(s, PresentToRevoke(id)), between) && Fire(|s.calls|) !in between
    requires var t := Exec(Apply(s, PresentToRevoke(id)), between);
      Enabled(t, Fire(|s.calls|)) && Legal(Apply(t, Fire(|s.calls|)), after)
    ensures
      var t := Exec(Apply(s, PresentToRevoke(id)), between); var u := Apply(t, Fire(|s.calls|));
      && id < |t.tokens| && u.tokens == t.tokens[id := t.tokens[id].(revoked := true)]
      && id < |Exec(u, after).tokens| && Exec(u, after).tokens[id].revoked && !ExchangedIn(u, after, id)
  {
    var s1 := Apply(s, PresentToRevoke(id));
    CallWaits(s1, |s.calls|, between);
    RowsStay(s1, between);
    RevokedIsNeverExchanged(Apply(Exec(s1, between), Fire(|s.calls|)), after, id);
  }

  lemma {:induction false} RowsStay(s: State, run: seq<Action>)
    requires Legal(s, run)
    ensures |s.tokens| <= |Exec(s, run).tokens|
    decreases |run|
  {
    if run != [] {
      RowsStay(Apply(s, run[0]), run[1..]);
    }
  }

  /** Two tokens of a family that are both unconsumed would make two more than were consumed. */
  lemma {:induction false} UnconsumedCount(tokens: seq<Token>, f: nat, a: nat, b: nat)
    requires a < b < |tokens| && tokens[a].family == f == tokens[b].family
    requires !tokens[a].consumed && !tokens[b].consumed
    ensures Size(tokens, f) >= Consumed(tokens, f) + 2
    decreases |tokens|
  {
    var n := |tokens| - 1;
    if b < n {
      UnconsumedCount(tokens[..n], f, a, b);
    } else {
      UnconsumedOne(tokens[..n], f, a);
    }
  }

  lemma {:induction false} UnconsumedOne(tokens: seq<Token>, f: nat, a: nat)
    requires a < |tokens| && tokens[a].family == f && !tokens[a].consumed
    ensures Size(tokens, f) >= Consumed(tokens, f) + 1
    decreases |tokens|
  {
    var n := |tokens| - 1;
    ConsumedAtMostSize(tokens[..n], f);
    if a < n {
      UnconsumedOne(tokens[..n], f, a);
    }
  }

  lemma {:induction false} ConsumedAtMostSize(tokens: seq<Token>, f: nat)
    ensures Consumed(tokens, f) <= Size(tokens, f)
    ensures Consumed(tokens, f) < Size(tokens, f) ==>
      exists k :: 0 <= k < |tokens| && tokens[k].family == f && !tokens[k].consumed
    decreases |tokens|
  {
    if tokens != [] {
      var n := |tokens| - 1;
      ConsumedAtMostSize(tokens[..n], f);
      if Consumed(tokens[..n], f) < Size(tokens[..n], f) {
        var k :| 0 <= k < n && tokens[..n][k].family == f && !tokens[..n][k].consumed;
        assert tokens[k].family == f && !tokens[k].consumed;
      }
    }
  }

  /** Every issued family has exactly one unconsumed token: size is consumed plus one. */
  lemma OneLiveTokenPerFamily(s: State, f: nat)
    requires Reachable(s) && f < s.families
    ensures Size(s.tokens, f) == Consumed(s.tokens, f) + 1
    ensures exists k ::
      && 0 <= k < |s.tokens| && s.tokens[k].family == f && !s.tokens[k].consumed
      && (forall j | 0 <= j < |s.tokens| && s.tokens[j].family == f && !s.tokens[j].consumed :: j == k)
  {
    ReachableInv(s);
    ConsumedAtMostSize(s.tokens, f);
    var k :| 0 <= k < |s.tokens| && s.tokens[k].family == f && !s.tokens[k].consumed;
    forall j | 0 <= j < |s.tokens| && s.tokens[j].family == f && !s.tokens[j].consumed ensures j == k {
      if j < k { UnconsumedCount(s.tokens, f, j, k); }
      if k < j { UnconsumedCount(s.tokens, f, k, j); }
    }
  }

  /** Of any number of refreshes of one token at most one succeeds, and the consumed ones are those that did. */
  lemma RefreshSucceedsOncePerToken(s: State)
    requires Reachable(s)
    ensures forall j, k | 0 <= j < k < |s.rotated| :: s.rotated[j] != s.rotated[k]
    ensures forall k | 0 <= k < |s.tokens| :: s.tokens[k].consumed <==> k in s.rotated
  {
    ReachableInv(s);
  }

  ghost predicate FamilyDead(s: State, f: nat) {
    f < s.families && forall k | 0 <= k < |s.tokens| && s.tokens[k].family == f :: s.tokens[k].revoked
  }

  /** Once a family is revoked no step of any run makes a usable token in it again. */
  lemma {:induction false} RevokedFamilyStaysDead(s: State, f: nat, run: seq<Action>)
    requires Inv(s) && FamilyDead(s, f) && Legal(s, run)
    ensures FamilyDead(Exec(s, run), f)
    decreases |run|
  {
    if run != [] {
      StepKeepsInv(s, run[0]);
      if run[0].Fire? {
        assert CallInv(s, s.calls[run[0].i]);
      }
      RevokedFamilyStaysDead(Apply(s, run[0]), f, run[1..]);
    }
  }

  /** Presenting a token whose row is read as consumed starts the update of its whole family. */
  lemma ReuseStartsRevocation(s: State, id: nat, now: int, expiresAt: int, idle: int)
    requires id < |s.tokens| && s.tokens[id].consumed
    ensures Apply(s, PresentToRefresh(id, now, expiresAt, idle)).calls
            == s.calls + [RevokingFamily(s.tokens[id].family)]
  {
  }

  /**
   The update kills the family exactly when no rotation of it has committed a live token since the
   update started; and then for good, whatever runs afterwards.
   */
  lemma ReuseKillsIff(s: State, i: nat, after: seq<Action>)
    requires Reachable(s) && i < |s.calls| && s.calls[i].RevokingRows?
    requires Legal(Apply(s, Fire(i)), after)
    ensures
      var f, visible, s' := s.calls[i].family, s.calls[i].visible, Apply(s, Fire(i));
      && (FamilyDead(s', f) <==>
            forall k | visible <= k < |s.tokens| && s.tokens[k].family == f :: s.tokens[k].revoked)
      && (FamilyDead(s', f) ==> FamilyDead(Exec(s', after), f))
  {
    ReachableInv(s);
    var f, visible, s' := s.calls[i].family, s.calls[i].visible, Apply(s, Fire(i));
    assert CallInv(s, s.calls[i]);
    StepKeepsInv(s, Fire(i));
    forall k | visible <= k < |s.tokens| && s.tokens[k].family == f && FamilyDead(s', f) ensures s.tokens[k].revoked {
      assert s'.tokens[k] == s.tokens[k];
    }
    if FamilyDead(s', f) {
      RevokedFamilyStaysDead(s', f, after);
    }
  }

  /** A call nobody lets move waits as it is; rows and families are never withdrawn. */
  lemma {:induction false} CallWaits(s: State, i: nat, run: seq<Action>)
    requires i < |s.calls| && Legal(s, run) && Fire(i) !in run
    ensures i < |Exec(s, run).calls| && Exec(s, run).calls[i] == s.calls[i]
    decreases |run|
  {
    if run != [] {
      assert run[0] in run;
      CallWaits(Apply(s, run[0]), i, run[1..]);
    }
  }

  lemma {:induction false} ReachOn(s: State, run: seq<Action>)
    requires Reachable(s) && Legal(s, run)
    ensures Reachable(Exec(s, run))
    decreases |run|
  {
    if run != [] {
      var t := Take(s, run[0]);
      ReachOn(t, run[1..]);
    }
  }

  /**
   Reuse, from the presentation to its end: `between` runs before the family update starts, `during`
   before it takes effect. The family is dead exactly when no live token of it was committed during.
   */
  lemma ReuseKillsTheFamilyIff(s: State, id: nat, now: int, expiresAt: int, idle: int,
                               between: seq<Action>, during: seq<Action>)
    requires Reachable(s) && id < |s.tokens| && s.tokens[id].consumed
    requires Fire(|s.calls|) !in between && Fire(|s.calls|) !in during
    requires Legal(Apply(s, PresentToRefresh(id, now, expiresAt, idle)), between)
    requires var t := Exec(Apply(s, PresentToRefresh(id, now, expiresAt, idle)), between);
      Enabled(t, Fire(|s.calls|)) && Legal(Apply(t, Fire(|s.calls|)), during)
    ensures
      var i, f := |s.calls|, s.tokens[id].family;
      var t := Exec(Apply(s, PresentToRefresh(id, now, expiresAt, idle)), between);
      var u := Exec(Apply(t, Fire(i)), during);
      && Enabled(u, Fire(i))
      && (FamilyDead(Apply(u, Fire(i)), f) <==>
            forall k | |t.tokens| <= k < |u.tokens| && u.tokens[k].family == f :: u.tokens[k].revoked)
  {
    var i, present := |s.calls|, PresentToRefresh(id, now, expiresAt, idle);
    ReuseStartsRevocation(s, id, now, expiresAt, idle);
    var s1 := Take(s, present);
    CallWaits(s1, i, between);
    ReachOn(s1, between);
    var t := Take(Exec(s1, between), Fire(i));
    CallWaits(t, i, during);
    ReachOn(t, during);
    var u := Exec(t, during);
    assert Legal(Apply(u, Fire(i)), []);
    ReuseKillsIff(u, i, []);
  }

  /** A presentation nobody disturbs leaves the family dead exactly when it was, or its read saw the token consumed. */
  lemma PresentationKillsIff(s: State, id: nat, now: int, expiresAt: int, idle: int)
    requires Reachable(s) && id < |s.tokens|
    ensures FamilyDead(Undisturbed(s, PresentToRefresh(id, now, expiresAt, idle)), s.tokens[id].family)
            <==> FamilyDead(s, s.tokens[id].family) || s.tokens[id].consumed
  {
    ReachableInv(s);
    var f, present := s.tokens[id].family, PresentToRefresh(id, now, expiresAt, idle);
    var s', n := Undisturbed(s, present), |s.tokens|;
    if Check(s.tokens, id, now, idle) == Accepted {
      assert s'.tokens[n].family == f && !s'.tokens[n].revoked;
    }
  }

  /** A rotation that commits between the start of the update and its end leaves its new token usable. */
  lemma RotationOutrunsRevocation() returns (s: State)
    ensures Reachable(s) && s.calls == [Over, Over, Over]
    ensures !FamilyDead(s, 0) && |s.tokens| == 3 && Usable(s.tokens[2]) && s.tokens[2].family == 0
    ensures s.tokens[0].revoked && s.tokens[1].revoked
  {
    s := RotatedOnce();
    s := Take(s, PresentToRefresh(0, 2, 102, 50));
    s := Take(s, PresentToRefresh(1, 2, 102, 50));
    s := Take(s, Fire(1));
    s := Take(s, Fire(2));
    s := Take(s, Fire(1));
    assert s.tokens[2].family == 0 && !s.tokens[2].revoked;
  }

  lemma RotatedOnce() returns (s: State)
    ensures Reachable(s) && s.calls == [Over] && s.families == 1
    ensures s.tokens == [Token(9, 0, 100, 1, true, false), Token(9, 0, 101, 1, false, false)]
  {
    assert Legal(EMPTY, []) && Exec(EMPTY, []) == EMPTY;
    s := Take(EMPTY, Issue(9, 0, 100));
    s := Take(s, PresentToRefresh(0, 1, 101, 50));
    s := Take(s, Fire(0));
  }

  /** One more step from a reachable state. */
  lemma Take(s: State, a: Action) returns (t: State)
    requires Reachable(s) && Enabled(s, a)
    ensures t == Apply(s, a) && Reachable(t)
  {
    var run :| Legal(EMPTY, run) && Exec(EMPTY, run) == s;
    Extend(EMPTY, run, a);
    t := Apply(s, a);
  }

  lemma {:induction false} Extend(s: State, run: seq<Action>, a: Action)
    requires Legal(s, run) && Enabled(Exec(s, run), a)
    ensures Legal(s, run + [a]) && Exec(s, run + [a]) == Apply(Exec(s, run), a)
    decreases |run|
  {
    if run == [] {
      assert run + [a] == [a] && [a][1..] == [];
    } else {
      assert (run + [a])[1..] == run[1..] + [a];
      Extend(Apply(s, run[0]), run[1..], a);
    }
  }

  /**
   The race does not revoke: a rotation that read its token before another consumed it
   detects the reuse, but its revocation is rolled back with the exception it throws.
   A losing rotation changes no token at all.
   */
  lemma LostRaceRevokesNothing(s: State, i: nat)
    requires i < |s.calls| && s.calls[i].Rotating? && !Wins(s, s.calls[i])
    ensures Apply(s, Fire(i)).tokens == s.tokens && Apply(s, Fire(i)).rotated == s.rotated
  {
  }

  /** So two overlapping presentations of one token leave its family alive with a usable token. */
  lemma OverlappingReuseKeepsFamilyAlive() returns (s: State)
    ensures Reachable(s) && s.rotated == [0] && s.calls == [Over, Over]
    ensures !FamilyDead(s, 0) && |s.tokens| == 2 && Usable(s.tokens[1]) && s.tokens[1].family == 0
  {
    assert Legal(EMPTY, []) && Exec(EMPTY, []) == EMPTY;
    s := Take(EMPTY, Issue(9, 0, 100));
    s := Take(s, PresentToRefresh(0, 1, 101, 50));
    s := Take(s, PresentToRefresh(0, 1, 101, 50));
    s := Take(s, Fire(0));
    LostRaceRevokesNothing(s, 1);
    s := Take(s, Fire(1));
  }
}
