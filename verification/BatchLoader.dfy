/** The coalescing, memoising loader and the two helpers that line its rows up with its keys. */
module BatchLoader {
  import opened Options
  import opened Sequences

  datatype Promise<V> = Pending | Resolved(value: V) | Rejected

  /** One position of a batch function's answer. */
  datatype Slot<V> = Value(value: V) | Error

  /** The batch function throws, or resolves to a list that may have the wrong length. */
  datatype Answer<V> = Threw | Values(slots: seq<Slot<V>>)

  function Concat<T>(batches: seq<seq<T>>): seq<T> {
    if batches == [] then [] else Concat(batches[..|batches| - 1]) + batches[|batches| - 1]
  }

  ghost predicate NoDuplicates<T>(s: seq<T>) {
    forall i, j | 0 <= i < j < |s| :: s[i] != s[j]
  }

  /** Every chunk but the last is full, and none is empty or too large. */
  ghost predicate Chunked<T>(chunks: seq<seq<T>>, size: nat) {
    forall i | 0 <= i < |chunks| ::
      1 <= |chunks[i]| <= size && (i < |chunks| - 1 ==> |chunks[i]| == size)
  }

  lemma {:induction false} ConcatAppend<T>(a: seq<seq<T>>, b: seq<seq<T>>)
    ensures Concat(a + b) == Concat(a) + Concat(b)
    decreases |b|
  {
    if b == [] {
      assert a + b == a;
    } else {
      var n := |b| - 1;
      ConcatAppend(a, b[..n]);
      assert (a + b)[..|a + b| - 1] == a + b[..n];
    }
  }

  /** A batch is a stretch of the concatenation. */
  lemma ConcatSplit<T>(batches: seq<seq<T>>, b: nat)
    requires b < |batches|
    ensures Concat(batches) == Concat(batches[..b]) + batches[b] + Concat(batches[b + 1..])
  {
    SplitAt(batches, b);
    ConcatAround(batches, batches[..b], batches[b], batches[b + 1..]);
  }

  lemma SplitAt<T>(s: seq<T>, b: nat)
    requires b < |s|
    ensures s == s[..b] + [s[b]] + s[b + 1..]
  {
  }

  lemma ConcatAround<T>(batches: seq<seq<T>>, front: seq<seq<T>>, batch: seq<T>, back: seq<seq<T>>)
    requires batches == front + [batch] + back
    ensures Concat(batches) == Concat(front) + batch + Concat(back)
  {
    ConcatOne(front, batch);
    ConcatAppend(front + [batch], back);
  }

  lemma ConcatOne<T>(front: seq<seq<T>>, last: seq<T>)
    ensures Concat(front + [last]) == Concat(front) + last
  {
    assert (front + [last])[..|front|] == front;
  }

  /** The chunks so far are full ones and cover the first i elements. */
  ghost predicate Cut<T>(pending: seq<T>, size: nat, i: nat, chunks: seq<seq<T>>) {
    && Concat(chunks) == Upto(pending, i) && Chunked(chunks, size)
    && (i < |pending| ==> forall c | 0 <= c < |chunks| :: |chunks[c]| == size)
  }

  lemma CutNext<T>(pending: seq<T>, size: nat, i: nat, chunks: seq<seq<T>>)
    requires i < |pending| && size > 0 && Cut(pending, size, i, chunks)
    ensures Cut(pending, size, i + size, chunks + [Upto(pending[i..], size)])
  {
    var chunk := Upto(pending[i..], size);
    ConcatOne(chunks, chunk);
    assert Upto(pending, i + size) == pending[..i] + chunk;
  }

  // ------------------------------------------- the invariant, on plain values

  /** The pending promises are exactly the outstanding ones, each outstanding once. */
  ghost predicate OwedOnce<V>(out: seq<nat>, promises: seq<Promise<V>>) {
    && NoDuplicates(out)
    && (forall i | 0 <= i < |out| :: out[i] < |promises| && promises[out[i]].Pending?)
    && (forall p | 0 <= p < |promises| && promises[p].Pending? :: p in out)
  }

  /** Promises that were primed carry their seed; every other resolved one carries what loading directly gives. */
  ghost predicate Agrees<K, V>(keys: seq<K>, promises: seq<Promise<V>>, direct: K -> V, seeds: map<nat, V>) {
    && |keys| == |promises|
    && (forall p | p in seeds :: p < |promises| && promises[p] == Resolved(seeds[p]))
    && (forall p | 0 <= p < |promises| && promises[p].Resolved? && p !in seeds :: promises[p].value == direct(keys[p]))
  }

  /** So the loader agrees with direct loading exactly when what it was primed with does. */
  lemma AgreesWithDirectIff<K, V>(keys: seq<K>, promises: seq<Promise<V>>, direct: K -> V, seeds: map<nat, V>)
    requires Agrees(keys, promises, direct, seeds)
    ensures (forall p | 0 <= p < |promises| && promises[p].Resolved? :: promises[p].value == direct(keys[p]))
            <==> (forall p | p in seeds :: seeds[p] == direct(keys[p]))
  {
    assert forall p | p in seeds :: promises[p] == Resolved(seeds[p]);
  }

  /** A cached promise is for its key and has not failed. */
  ghost predicate CacheOk<K, V>(cache: map<K, nat>, keys: seq<K>, promises: seq<Promise<V>>) {
    && |keys| == |promises|
    && (forall k | k in cache :: cache[k] < |promises| && keys[cache[k]] == k && !promises[cache[k]].Rejected?)
  }

  lemma OwedLoad<V>(out: seq<nat>, promises: seq<Promise<V>>)
    requires OwedOnce(out, promises)
    ensures OwedOnce(out + [|promises|], promises + [Pending])
  {
    var out', promises' := out + [|promises|], promises + [Pending];
    forall p | 0 <= p < |promises'| && promises'[p].Pending? ensures p in out' {
      if p < |promises| { assert p in out; } else { assert out'[|out|] == p; }
    }
  }

  lemma OwedQueued<V>(batched: seq<nat>, queue: seq<nat>, promises: seq<Promise<V>>)
    requires OwedOnce(batched + queue, promises)
    ensures OwedOnce(batched + (queue + [|promises|]), promises + [Pending])
  {
    OwedLoad(batched + queue, promises);
    Assoc(batched, queue, [|promises|]);
  }

  /** A new promise for an uncached key takes its place in the cache. */
  lemma CacheGrows<K, V>(cache: map<K, nat>, keys: seq<K>, promises: seq<Promise<V>>, key: K, made: Promise<V>)
    requires CacheOk(cache, keys, promises) && !made.Rejected?
    ensures CacheOk(cache[key := |promises|], keys + [key], promises + [made])
  {
  }

  lemma AgreesLoad<K, V>(keys: seq<K>, promises: seq<Promise<V>>, direct: K -> V, seeds: map<nat, V>, key: K)
    requires Agrees(keys, promises, direct, seeds)
    ensures Agrees(keys + [key], promises + [Pending], direct, seeds)
  {
  }

  lemma AgreesPrime<K, V>(keys: seq<K>, promises: seq<Promise<V>>, direct: K -> V, seeds: map<nat, V>, key: K, value: V)
    requires Agrees(keys, promises, direct, seeds)
    ensures Agrees(keys + [key], promises + [Resolved(value)], direct, seeds[|promises| := value])
  {
  }

  lemma OwedPrime<V>(out: seq<nat>, promises: seq<Promise<V>>, value: V)
    requires OwedOnce(out, promises)
    ensures OwedOnce(out, promises + [Resolved(value)])
  {
  }

  lemma BatchIsOwed<V>(a: seq<nat>, batch: seq<nat>, c: seq<nat>, promises: seq<Promise<V>>)
    requires OwedOnce(a + batch + c, promises)
    ensures NoDuplicates(batch)
    ensures forall i | 0 <= i < |batch| :: batch[i] < |promises| && promises[batch[i]].Pending?
  {
    var out := a + batch + c;
    assert forall m | 0 <= m < |batch| :: batch[m] == out[|a| + m];
  }

  /** Settling one batch removes exactly its loads from what is owed. */
  lemma OwedSettle<V>(a: seq<nat>, batch: seq<nat>, c: seq<nat>, before: seq<Promise<V>>, after: seq<Promise<V>>)
    requires OwedOnce(a + batch + c, before) && |after| == |before|
    requires forall i | 0 <= i < |batch| :: batch[i] < |after| && !after[batch[i]].Pending?
    requires forall p | 0 <= p < |before| && p !in batch :: after[p] == before[p]
    ensures OwedOnce(a + c, after)
  {
    var out, out' := a + batch + c, a + c;
    assert forall m | 0 <= m < |batch| :: batch[m] == out[|a| + m];
    forall i, j | 0 <= i < j < |out'| ensures out'[i] != out'[j] {
      var i' := if i < |a| then i else i + |batch|;
      var j' := if j < |a| then j else j + |batch|;
      assert out'[i] == out[i'] && out'[j] == out[j'];
    }
    forall i | 0 <= i < |out'| ensures out'[i] < |after| && after[out'[i]].Pending? {
      var i' := if i < |a| then i else i + |batch|;
      assert out'[i] == out[i'] && out[i'] !in batch;
    }
    forall p | 0 <= p < |after| && after[p].Pending? ensures p in out' {
      assert p !in batch && p in out;
    }
  }

  /** What the answer makes of the i-th load of its batch. */
  function Verdict<V>(answer: Answer<V>, size: nat, i: nat): (r: Promise<V>)
    requires i < size
    ensures !r.Pending?
  {
    if answer.Threw? || |answer.slots| != size || answer.slots[i].Error? then Rejected
    else Resolved(answer.slots[i].value)
  }

  /** The keys of a batch whose loads have failed. */
  ghost function FailedKeys<K, V>(keys: seq<K>, promises: seq<Promise<V>>, batch: seq<nat>): set<K> {
    set i | 0 <= i < |batch| && batch[i] < |promises| && batch[i] < |keys| && promises[batch[i]].Rejected? ::
      keys[batch[i]]
  }

  lemma FailedNext<K, V>(keys: seq<K>, promises: seq<Promise<V>>, batch: seq<nat>, i: nat, verdict: Promise<V>)
    requires NoDuplicates(batch) && i < |batch| && |keys| == |promises|
    requires forall j | 0 <= j < |batch| :: batch[j] < |promises|
    ensures FailedKeys(keys, promises[batch[i] := verdict], batch[..i + 1])
            == FailedKeys(keys, promises, batch[..i]) + if verdict.Rejected? then {keys[batch[i]]} else {}
  {
    var after := promises[batch[i] := verdict];
    assert batch[..i + 1] == batch[..i] + [batch[i]];
    forall j | 0 <= j < i ensures after[batch[j]] == promises[batch[j]] {
      assert batch[j] != batch[i];
    }
    forall k | k in FailedKeys(keys, promises, batch[..i]) ensures k in FailedKeys(keys, after, batch[..i + 1]) {
      var j :| 0 <= j < i && promises[batch[j]].Rejected? && keys[batch[j]] == k;
      assert batch[..i + 1][j] == batch[j];
    }
    if verdict.Rejected? {
      assert batch[..i + 1][i] == batch[i];
    }
  }

  /** The first i loads of the batch are settled by their own slots, and no other promise has changed. */
  ghost predicate SettledUpTo<V>(before: seq<Promise<V>>, after: seq<Promise<V>>, batch: seq<nat>, answer: Answer<V>,
                                 i: nat)
  {
    && i <= |batch| && |after| == |before| && (forall j | 0 <= j < |batch| :: batch[j] < |before|)
    && (forall j | 0 <= j < i :: after[batch[j]] == Verdict(answer, |batch|, j))
    && (forall p | 0 <= p < |before| && p !in batch[..i] :: after[p] == before[p])
  }

  lemma SettledNext<V>(before: seq<Promise<V>>, after: seq<Promise<V>>, batch: seq<nat>, answer: Answer<V>, i: nat)
    requires NoDuplicates(batch) && i < |batch| && SettledUpTo(before, after, batch, answer, i)
    ensures SettledUpTo(before, after[batch[i] := Verdict(answer, |batch|, i)], batch, answer, i + 1)
  {
    assert batch[..i + 1] == batch[..i] + [batch[i]];
  }

  /** One load's verdict: a failed key leaves the cache. */
  lemma SettleOne<K, V>(cache: map<K, nat>, keys: seq<K>, promises: seq<Promise<V>>, direct: K -> V,
                        seeds: map<nat, V>, p: nat, verdict: Promise<V>)
    requires CacheOk(cache, keys, promises) && Agrees(keys, promises, direct, seeds)
    requires p < |promises| && p !in seeds
    requires verdict.Resolved? ==> verdict.value == direct(keys[p])
    ensures CacheOk(if verdict.Rejected? then cache - {keys[p]} else cache, keys, promises[p := verdict])
    ensures Agrees(keys, promises[p := verdict], direct, seeds)
  {
  }

  class BatchLoader<K(==), V> {
    const maxBatchSize: int
    /** What loading a key directly would give. */
    ghost const direct: K -> V
    /** The promises made by priming, and their values. */
    ghost var seeds: map<nat, V>

    var cache: map<K, nat>
    var queue: seq<nat>
    /** Promises are numbered as created: their keys and their states. */
    var keys: seq<K>
    var promises: seq<Promise<V>>
    /** Batches given to the batch function and not answered yet. */
    var inFlight: seq<seq<nat>>
    var scheduled: nat

    /** The loads that are still owed an answer, batched ones first. */
    ghost function Outstanding(): seq<nat>
      reads this
    {
      Concat(inFlight) + queue
    }

    ghost predicate Valid()
      reads this
    {
      && OwedOnce(Outstanding(), promises)
      && Agrees(keys, promises, direct, seeds)
      && CacheOk(cache, keys, promises)
      && scheduled == (if queue == [] then 0 else 1)
    }

    /** No settled promise changes, and no promise changes its key. */
    twostate predicate SettledStay()
      reads this
    {
      && |old(promises)| <= |promises| && old(keys) <= keys
      && (forall p | 0 <= p < |old(promises)| && !old(promises[p]).Pending? :: promises[p] == old(promises[p]))
    }

    constructor (maxBatchSize: int, ghost direct: K -> V)
      ensures Valid() && this.maxBatchSize == maxBatchSize && this.direct == direct
      ensures cache == map[] && promises == [] && seeds == map[]
    {
      this.maxBatchSize := maxBatchSize;
      this.direct := direct;
      seeds := map[];
      cache, queue, keys, promises, inFlight, scheduled := map[], [], [], [], [], 0;
    }

    /** The first queued load of a tick schedules the dispatch; a cached key makes no new load. */
    method Load(key: K) returns (p: nat)
      requires Valid()
      modifies this
      ensures Valid() && SettledStay() && inFlight == old(inFlight)
      ensures p < |promises| && keys[p] == key && key in cache && cache[key] == p
      ensures !promises[p].Rejected? && seeds == old(seeds)
      ensures promises[p].Resolved? ==> promises[p].value == if p in seeds then seeds[p] else direct(key)
      ensures key in old(cache) ==>
        p == old(cache)[key] && promises == old(promises) && queue == old(queue) && cache == old(cache)
      ensures key !in old(cache) ==>
        && p == |old(promises)| && promises == old(promises) + [Pending]
        && queue == old(queue) + [p] && cache == old(cache)[key := p]
    {
      if key in cache {
        return cache[key];
      }
      p := Enqueue(key);
    }

    method Enqueue(key: K) returns (p: nat)
      requires Valid() && key !in cache
      modifies this`cache, this`queue, this`keys, this`promises, this`scheduled
      ensures Valid()
      ensures p == |old(promises)| && promises == old(promises) + [Pending] && keys == old(keys) + [key]
      ensures queue == old(queue) + [p] && cache == old(cache)[key := p]
    {
      p := |promises|;
      OwedQueued(Concat(inFlight), queue, promises);
      CacheGrows(cache, keys, promises, key, Promise<V>.Pending);
      AgreesLoad(keys, promises, direct, seeds, key);
      if |queue| == 0 {
        scheduled := scheduled + 1;
      }
      promises, keys, queue, cache := promises + [Pending], keys + [key], queue + [p], cache[key := p];
    }

    /** Seed the cache, whatever the value; a cached key keeps its promise. */
    method Prime(key: K, value: V)
      requires Valid()
      modifies this
      ensures Valid() && SettledStay() && queue == old(queue) && inFlight == old(inFlight)
      ensures key in old(cache) ==> cache == old(cache) && promises == old(promises) && seeds == old(seeds)
      ensures key !in old(cache) ==>
        && promises == old(promises) + [Resolved(value)] && keys == old(keys) + [key]
        && cache == old(cache)[key := |old(promises)|] && seeds == old(seeds)[|old(promises)| := value]
    {
      if key !in cache {
        OwedPrime(Outstanding(), promises, value);
        CacheGrows(cache, keys, promises, key, Resolved(value));
        AgreesPrime(keys, promises, direct, seeds, key, value);
        seeds := seeds[|promises| := value];
        cache := cache[key := |promises|];
        promises := promises + [Resolved(value)];
        keys := keys + [key];
      }
    }

    method Clear(key: K)
      requires Valid()
      modifies this`cache
      ensures Valid() && cache == old(cache) - {key}
    {
      cache := cache - {key};
    }

    method ClearAll()
      requires Valid()
      modifies this`cache
      ensures Valid() && cache == map[]
    {
      cache := map[];
    }

    /** The scheduled dispatch: the whole queue goes out, in order, in chunks. */
    method Dispatch() returns (ghost chunks: seq<seq<nat>>)
      requires Valid()
      requires scheduled == 1
      modifies this`queue, this`inFlight, this`scheduled
      ensures Valid() && queue == [] && inFlight == old(inFlight) + chunks
      ensures Concat(chunks) == old(queue)
      ensures Chunked(chunks, if maxBatchSize > 0 then maxBatchSize else |old(queue)|)
      ensures Outstanding() == old(Outstanding())
    {
      var pending := queue;
      queue := [];
      scheduled := scheduled - 1;
      chunks := SendChunks(pending, if maxBatchSize > 0 then maxBatchSize else |pending|);
      ConcatAppend(old(inFlight), chunks);
      assert Concat(inFlight) + [] == Concat(inFlight);
    }

    /** The loop over the chunks. */
    method SendChunks(pending: seq<nat>, size: nat) returns (ghost chunks: seq<seq<nat>>)
      requires pending != [] ==> size > 0
      modifies this`inFlight
      ensures inFlight == old(inFlight) + chunks && Concat(chunks) == pending && Chunked(chunks, size)
    {
      var i := 0;
      chunks := [];
      while i < |pending|
        invariant Cut(pending, size, i, chunks) && inFlight == old(inFlight) + chunks
        decreases |pending| - i
      {
        var chunk := Upto(pending[i..], size);
        CutNext(pending, size, i, chunks);
        Assoc(old(inFlight), chunks, [chunk]);
        inFlight := inFlight + [chunk];
        chunks := chunks + [chunk];
        i := i + size;
      }
    }

    /** The forEach over a batch: settle its loads one by one, dropping failed keys from the cache. */
    method SettleAll(batch: seq<nat>, answer: Answer<V>)
      requires CacheOk(cache, keys, promises) && Agrees(keys, promises, direct, seeds)
      requires NoDuplicates(batch) && forall j | 0 <= j < |batch| :: batch[j] < |promises| && batch[j] !in seeds
      requires answer.Values? && |answer.slots| == |batch| ==> forall i | 0 <= i < |batch| ::
        answer.slots[i].Value? ==> answer.slots[i].value == direct(keys[batch[i]])
      modifies this`cache, this`promises
      ensures CacheOk(cache, keys, promises) && Agrees(keys, promises, direct, seeds)
      ensures |promises| == |old(promises)|
      ensures forall i | 0 <= i < |batch| ::
        promises[batch[i]] == if answer.Values? && |answer.slots| == |batch| && answer.slots[i].Value?
                              then Resolved(answer.slots[i].value) else Rejected
      ensures cache == old(cache) - FailedKeys(keys, promises, batch)
      ensures forall p | 0 <= p < |promises| && p !in batch :: promises[p] == old(promises[p])
    {
      for i := 0 to |batch|
        invariant SettledUpTo(old(promises), promises, batch, answer, i)
        invariant cache == old(cache) - FailedKeys(keys, promises, batch[..i])
        invariant CacheOk(cache, keys, promises) && Agrees(keys, promises, direct, seeds)
      {
        var p := batch[i];
        var verdict := Verdict(answer, |batch|, i);
        SettleOne(cache, keys, promises, direct, seeds, p, verdict);
        SettledNext(old(promises), promises, batch, answer, i);
        FailedNext(keys, promises, batch, i, verdict);
        cache, promises := if verdict.Rejected? then cache - {keys[p]} else cache, promises[p := verdict];
      }
      assert batch[..|batch|] == batch;
    }

    /**
     runBatch, once the batch function has answered batch b. Values it gives are the
     direct ones; it may fail single keys, throw, or return the wrong number of values.
     */
    method RunBatch(b: nat, answer: Answer<V>)
      requires Valid() && b < |inFlight|
      requires answer.Values? && |answer.slots| == |inFlight[b]| ==>
        forall i | 0 <= i < |inFlight[b]| && inFlight[b][i] < |keys| ::
          answer.slots[i].Value? ==> answer.slots[i].value == direct(keys[inFlight[b][i]])
      modifies this`cache, this`promises, this`inFlight
      ensures Valid() && SettledStay()
      ensures inFlight == old(inFlight[..b] + inFlight[b + 1..]) && |promises| == |old(promises)|
      ensures forall i | 0 <= i < |old(inFlight[b])| ::
        old(inFlight[b])[i] < |promises| && promises[old(inFlight[b])[i]] ==
          if answer.Values? && |answer.slots| == |old(inFlight[b])| && answer.slots[i].Value?
          then Resolved(answer.slots[i].value) else Rejected
      ensures cache == old(cache) - FailedKeys(keys, promises, old(inFlight[b]))
      ensures forall p | 0 <= p < |promises| && p !in old(inFlight[b]) :: promises[p] == old(promises[p])
    {
      var batch := inFlight[b];
      ghost var before, a, c := promises, Concat(inFlight[..b]), Concat(inFlight[b + 1..]) + queue;
      ConcatSplit(inFlight, b);
      assert Outstanding() == a + batch + c;
      BatchIsOwed(a, batch, c, promises);
      ConcatAppend(inFlight[..b], inFlight[b + 1..]);
      inFlight := inFlight[..b] + inFlight[b + 1..];
      SettleAll(batch, answer);
      OwedSettle(a, batch, c, before, promises);
      assert Outstanding() == a + c;
    }
  }

  /** alignByKey: the last row with each key, or None for a key without rows. */
  method AlignByKey<K(==), R>(keys: seq<K>, rows: seq<R>, keyOf: R -> K) returns (aligned: seq<Option<R>>)
    ensures |aligned| == |keys|
    ensures forall i | 0 <= i < |keys| && aligned[i].None? :: forall j | 0 <= j < |rows| :: keyOf(rows[j]) != keys[i]
    ensures forall i | 0 <= i < |keys| && aligned[i].Some? ::
      exists j :: 0 <= j < |rows| && aligned[i] == Some(rows[j]) && keyOf(rows[j]) == keys[i] &&
        forall l | j < l < |rows| :: keyOf(rows[l]) != keys[i]
  {
    var byKey: map<K, R> := map[];
    ghost var at: map<K, nat> := map[];
    for n := 0 to |rows|
      invariant at.Keys == byKey.Keys
      invariant forall k | k in byKey :: at[k] < n && byKey[k] == rows[at[k]] && keyOf(rows[at[k]]) == k
      invariant forall k, l | k in byKey && at[k] < l < n :: keyOf(rows[l]) != k
      invariant forall j | 0 <= j < n :: keyOf(rows[j]) in byKey
    {
      byKey, at := byKey[keyOf(rows[n]) := rows[n]], at[keyOf(rows[n]) := n];
    }
    aligned := seq(|keys|, i requires 0 <= i < |keys| => if keys[i] in byKey then Some(byKey[keys[i]]) else None);
  }

  /** The rows with a key, in row order. */
  function WithKey<K(==), R>(rows: seq<R>, keyOf: R -> K, key: K): seq<R> {
    if rows == [] then []
    else
      var n := |rows| - 1;
      WithKey(rows[..n], keyOf, key) + if keyOf(rows[n]) == key then [rows[n]] else []
  }

  /** What fixes a group: no row gives none, a row is kept for its own key alone, and order is kept. */
  lemma {:induction false} WithKeyOfParts<K, R>(a: seq<R>, b: seq<R>, keyOf: R -> K, key: K)
    ensures WithKey(a + b, keyOf, key) == WithKey(a, keyOf, key) + WithKey(b, keyOf, key)
    ensures |b| == 1 ==> WithKey(b, keyOf, key) == if keyOf(b[0]) == key then b else []
    ensures b == [] ==> WithKey(b, keyOf, key) == []
    decreases |b|
  {
    if b == [] {
      assert a + b == a;
    } else {
      var n := |b| - 1;
      assert (a + b)[..|a| + n] == a + b[..n];
      WithKeyOfParts(a, b[..n], keyOf, key);
    }
  }

  lemma WithKeyNext<K, R>(rows: seq<R>, n: nat, keyOf: R -> K, key: K)
    requires n < |rows|
    ensures WithKey(rows[..n + 1], keyOf, key)
            == WithKey(rows[..n], keyOf, key) + if keyOf(rows[n]) == key then [rows[n]] else []
  {
    assert rows[..n + 1][..n] == rows[..n];
  }

  /** The groups are those of the rows, and a key without a group has no row. */
  ghost predicate Grouped<K(!new), R>(groups: map<K, seq<R>>, rows: seq<R>, keyOf: R -> K) {
    forall k :: WithKey(rows, keyOf, k) == if k in groups then groups[k] else []
  }

  lemma GroupedNext<K(!new), R>(groups: map<K, seq<R>>, rows: seq<R>, n: nat, keyOf: R -> K)
    requires n < |rows| && Grouped(groups, rows[..n], keyOf)
    ensures var key := keyOf(rows[n]);
      Grouped(groups[key := (if key in groups then groups[key] else []) + [rows[n]]], rows[..n + 1], keyOf)
  {
    var key := keyOf(rows[n]);
    var groups' := groups[key := (if key in groups then groups[key] else []) + [rows[n]]];
    forall k ensures WithKey(rows[..n + 1], keyOf, k) == if k in groups' then groups'[k] else [] {
      WithKeyNext(rows, n, keyOf, k);
    }
  }

  /** groupByKey: one group per requested key, empty for a key without rows. */
  method GroupByKey<K(==,!new), R>(keys: seq<K>, rows: seq<R>, keyOf: R -> K) returns (grouped: seq<seq<R>>)
    ensures |grouped| == |keys|
    ensures forall i | 0 <= i < |keys| :: grouped[i] == WithKey(rows, keyOf, keys[i])
  {
    var groups: map<K, seq<R>> := map[];
    for n := 0 to |rows|
      invariant Grouped(groups, rows[..n], keyOf)
    {
      var key := keyOf(rows[n]);
      GroupedNext(groups, rows, n, keyOf);
      var group := if key in groups then groups[key] else [];
      groups := groups[key := group + [rows[n]]];
    }
    assert rows[..|rows|] == rows;
    assert Grouped(groups, rows, keyOf);
    grouped := seq(|keys|, i requires 0 <= i < |keys| => if keys[i] in groups then groups[keys[i]] else []);
  }
}
