/** `MeteringCache` and `ZVMMonitor._get_inspect_data`, called by any number of threads. Clock readings, power
    states and backend replies are inputs; `V` is whatever the backend reports about a guest. */
module Metering {
  import opened Lists

  type CType = string
  type UserId = string

  datatype Entry<V> = Entry(expiration: int, data: map<UserId, V>)

  type Contents<V> = map<CType, Entry<V>>

  function Empty<V>(types: set<CType>, now: int): Contents<V> {
    map c | c in types :: Entry(now, map[])
  }

  /** `MeteringCache.get`: nothing after the expiration. */
  function Lookup<V>(c: Contents<V>, ctype: CType, key: UserId, now: int): Option<V>
    requires ctype in c
  {
    if now > c[ctype].expiration || key !in c[ctype].data then None else Some(c[ctype].data[key])
  }

  class MeteringCache<V> {
    var cache: Contents<V>

    constructor (types: set<CType>, now: int)
      ensures cache == Empty(types, now)
    {
      cache := Empty(types, now);
    }

    method Set(ctype: CType, key: UserId, value: V)
      requires ctype in cache
      modifies this
      ensures cache == old(cache)[ctype := old(cache[ctype]).(data := old(cache[ctype].data)[key := value])]
    {
      var target := cache[ctype];
      cache := cache[ctype := target.(data := target.data[key := value])];
    }

    method Get(ctype: CType, key: UserId, now: int) returns (value: Option<V>)
      requires ctype in cache
      ensures value == Lookup(cache, ctype, key, now)
      ensures value.Some? <==> now <= cache[ctype].expiration && key in cache[ctype].data
      ensures value.Some? ==> value.value == cache[ctype].data[key]
    {
      var target := cache[ctype];
      if now > target.expiration {
        return None;
      }
      value := if key in target.data then Some(target.data[key]) else None;
    }

    method Delete(ctype: CType, key: UserId)
      requires ctype in cache
      modifies this
      ensures cache == old(cache)[ctype := old(cache[ctype]).(data := old(cache[ctype].data) - {key})]
    {
      var target := cache[ctype];
      if key in target.data {
        cache := cache[ctype := target.(data := target.data - {key})];
      } else {
        assert target.data - {key} == target.data;
        assert cache[ctype := target] == cache;
      }
    }

    method Clear(ctype: CType)
      requires ctype in cache
      modifies this
      ensures cache == old(cache)[ctype := Entry(old(cache[ctype].expiration), map[])]
    {
      cache := cache[ctype := cache[ctype].(data := map[])];
    }

    /** Afterwards the type holds exactly the new data, until `interval` from now. */
    method Refresh(ctype: CType, data: map<UserId, V>, now: int, interval: int)
      requires ctype in cache
      modifies this
      ensures cache == old(cache)[ctype := Entry(now + interval, data)]
    {
      ghost var before := cache;
      Clear(ctype);
      Reput(before, ctype, cache[ctype], Entry(now + interval, map[]));
      cache := cache[ctype := cache[ctype].(expiration := now + interval)];
      var keys := ListOf(data.Keys);
      for i := 0 to |keys|
        invariant cache == before[ctype := Entry(now + interval, Filled(data, keys[..i]))]
      {
        assert keys[i] in keys;
        ghost var was := cache[ctype];
        Set(ctype, keys[i], data[keys[i]]);
        assert keys[..i + 1][..i] == keys[..i];
        Reput(before, ctype, was, cache[ctype]);
      }
      assert keys[..|keys|] == keys;
      FilledAll(data, keys);
    }
  }

  /** The entries of `keys` copied one after another. */
  function Filled<V>(data: map<UserId, V>, keys: seq<UserId>): map<UserId, V> {
    if keys == [] then map[]
    else
      var key := keys[|keys| - 1];
      var init := Filled(data, keys[..|keys| - 1]);
      if key in data then init[key := data[key]] else init
  }

  lemma {:induction false} FilledAt<V>(data: map<UserId, V>, keys: seq<UserId>, k: UserId)
    ensures k in Filled(data, keys) <==> k in keys && k in data
    ensures k in Filled(data, keys) ==> Filled(data, keys)[k] == data[k]
  {
    if keys != [] {
      FilledAt(data, keys[..|keys| - 1], k);
      assert keys == keys[..|keys| - 1] + [keys[|keys| - 1]];
    }
  }

  lemma FilledAll<V>(data: map<UserId, V>, keys: seq<UserId>)
    requires forall k :: k in keys <==> k in data
    ensures Filled(data, keys) == data
  {
    forall k ensures (k in Filled(data, keys) <==> k in data) && (k in data ==> Filled(data, keys)[k] == data[k]) {
      FilledAt(data, keys, k);
    }
  }

  lemma Reput<K, W>(m: map<K, W>, k: K, u: W, w: W)
    ensures m[k := u][k := w] == m[k := w]
  {
  }

  // ---------- _get_inspect_data ----------

  /** One call of the monitor, with what the environment answers to it. `results` below are the answers of
      the cache to its lookups, by position. */
  datatype Call<V> = Call(ctype: CType, uids: seq<UserId>, valid: set<UserId>, on: set<UserId>,
                          reply: map<UserId, V>) {
    /** The guest at position `i` is looked up, missed and powered on. */
    predicate Misses(results: seq<Option<V>>, i: nat)
      requires i < |results| <= |uids|
    {
      uids[i] in valid && results[i].None? && uids[i] in on
    }

    ghost predicate Queries(results: seq<Option<V>>)
      requires |results| <= |uids|
    {
      exists i: nat :: i < |results| && Misses(results, i)
    }

    /** The guest at position `i` is answered from the cache. */
    predicate Hits(results: seq<Option<V>>, i: nat)
      requires i < |results| <= |uids|
    {
      uids[i] in valid && results[i].Some?
    }

    /** `data` is made of the cache hits among the first `n` lookups only, and of all of them. */
    ghost predicate FromCache(results: seq<Option<V>>, data: map<UserId, V>, n: nat)
      requires n <= |results| <= |uids|
    {
      && (forall i: nat :: i < n && Hits(results, i) ==> uids[i] in data)
      && (forall u :: u in data ==> exists i: nat :: i < n && ServedBy(results, data, u, i))
    }

    ghost predicate ServedBy(results: seq<Option<V>>, data: map<UserId, V>, u: UserId, i: nat)
      requires i < |results| <= |uids| && u in data
    {
      uids[i] == u && Hits(results, i) && results[i] == Some(data[u])
    }

    /** The lookups end at the first that makes the call query, otherwise they cover the whole list. */
    ghost predicate Ends(results: seq<Option<V>>)
      requires |results| <= |uids|
    {
      if Queries(results) then
        Misses(results, |results| - 1) && forall i: nat :: i < |results| - 1 ==> !Misses(results, i)
      else |results| == |uids|
    }

    /** The answer owed for these lookups. */
    ghost predicate Answers(results: seq<Option<V>>, data: map<UserId, V>)
      requires |results| <= |uids|
    {
      if Queries(results) then data == reply else FromCache(results, data, |results|)
    }
  }

  /** What the cache answers when nobody changes it meanwhile. */
  ghost function Looked<V>(c: Contents<V>, call: Call<V>, times: seq<int>): (r: seq<Option<V>>)
    requires call.ctype in c && |times| == |call.uids|
    ensures |r| == |call.uids|
  {
    seq(|times|, i requires 0 <= i < |times| => Lookup(c, call.ctype, call.uids[i], times[i]))
  }

  lemma HitAdded<V>(call: Call<V>, results: seq<Option<V>>, data: map<UserId, V>, n: nat)
    requires n < |results| <= |call.uids| && call.FromCache(results, data, n)
    ensures call.Hits(results, n) ==> call.FromCache(results, data[call.uids[n] := results[n].value], n + 1)
    ensures !call.Hits(results, n) ==> call.FromCache(results, data, n + 1)
  {
    if call.Hits(results, n) {
      var more := data[call.uids[n] := results[n].value];
      forall u | u in more ensures exists i: nat :: i < n + 1 && call.ServedBy(results, more, u, i) {
        if u == call.uids[n] {
          assert call.ServedBy(results, more, u, n);
        } else {
          var i: nat :| i < n && call.ServedBy(results, data, u, i);
          assert call.ServedBy(results, more, u, i);
        }
      }
    } else {
      forall u | u in data ensures exists i: nat :: i < n + 1 && call.ServedBy(results, data, u, i) {
        var i: nat :| i < n && call.ServedBy(results, data, u, i);
      }
    }
  }

  /** The loop over the guests, whatever the cache answers to each lookup at its time; `n` lookups are made. */
  method Inspect<V>(call: Call<V>, answers: seq<Option<V>>) returns (data: map<UserId, V>, n: nat)
    requires |answers| == |call.uids|
    ensures n <= |answers| && call.Ends(answers[..n]) && call.Answers(answers[..n], data)
  {
    data := map[];
    for i := 0 to |call.uids|
      invariant forall j: nat :: j < i ==> !call.Misses(answers, j)
      invariant call.FromCache(answers, data, i)
    {
      HitAdded(call, answers, data, i);
      var uid := call.uids[i];
      if uid !in call.valid {
        continue;
      }
      if answers[i].Some? {
        data := data[uid := answers[i].value];
      } else if uid in call.on {
        var made := answers[..i + 1];
        assert call.Misses(made, i) && forall j: nat :: j < i ==> !call.Misses(answers, j) && made[j] == answers[j];
        return call.reply, i + 1;
      }
    }
    assert answers[..|answers|] == answers;
    n := |answers|;
  }

  method GetInspectData<V>(cache: MeteringCache<V>, call: Call<V>, times: seq<int>, refreshedAt: int, interval: int)
    returns (data: map<UserId, V>)
    requires call.ctype in cache.cache && |times| == |call.uids|
    modifies cache
    ensures call.Answers(Looked(old(cache.cache), call, times), data)
    ensures cache.cache == if call.Queries(Looked(old(cache.cache), call, times)) && interval > 0
                           then old(cache.cache)[call.ctype := Entry(refreshedAt + interval, call.reply)]
                           else old(cache.cache)
  {
    ghost var c, results := cache.cache, Looked(cache.cache, call, times);
    data := map[];
    var updateNeeded := false;
    for i := 0 to |call.uids|
      invariant !updateNeeded && cache.cache == c
      invariant forall j: nat :: j < i ==> !call.Misses(results, j)
      invariant call.FromCache(results, data, i)
    {
      HitAdded(call, results, data, i);
      var uid := call.uids[i];
      if uid !in call.valid {
        continue;
      }
      var cached := cache.Get(call.ctype, uid, times[i]);
      if cached.Some? {
        data := data[uid := cached.value];
      } else if uid in call.on {
        assert call.Misses(results, i);
        updateNeeded := true;
        data := map[];
        break;
      }
    }
    if updateNeeded {
      data := call.reply;
      if interval > 0 {
        cache.Refresh(call.ctype, call.reply, refreshedAt, interval);
      }
    }
  }

  // ---------- runs ----------

  /** A call on the cache by some thread, made atomic by its lock. The clock is read under the lock. */
  datatype Event<V> =
    | Got(ctype: CType, now: int, key: UserId, value: Option<V>)
    | Refreshed(ctype: CType, now: int, data: map<UserId, V>)

  ghost predicate EventAt<V>(interval: int, states: seq<Contents<V>>, events: seq<Event<V>>, i: nat)
    requires i < |events| < |states|
  {
    && events[i].ctype in states[i]
    && match events[i]
       case Got(ctype, now, key, value) => value == Lookup(states[i], ctype, key, now) && states[i + 1] == states[i]
       case Refreshed(ctype, now, data) =>
         interval > 0 && states[i + 1] == states[i][ctype := Entry(now + interval, data)]
  }

  /** Any interleaving of the cache calls of any number of threads; the clock does not run backwards. */
  ghost predicate Run<V>(types: set<CType>, start: int, interval: int, states: seq<Contents<V>>,
                         events: seq<Event<V>>) {
    && |states| == |events| + 1 && states[0] == Empty(types, start)
    && (forall i :: 0 <= i < |events| ==> EventAt(interval, states, events, i))
    && (forall i, j :: 0 <= i < j < |events| ==> start <= events[i].now <= events[j].now)
  }

  /** Event `i` was the latest refresh of the type before `n`. */
  ghost predicate Latest<V>(events: seq<Event<V>>, ctype: CType, n: nat, i: nat)
    requires n <= |events|
  {
    && i < n && IsRefresh(events[i], ctype)
    && forall j :: i < j < n ==> !IsRefresh(events[j], ctype)
  }

  predicate IsRefresh<V>(e: Event<V>, ctype: CType) {
    e.Refreshed? && e.ctype == ctype
  }

  /** The entry of a type is what its latest refresh stored, or empty if there was none. */
  ghost predicate Explained<V>(start: int, interval: int, entry: Entry<V>, events: seq<Event<V>>, ctype: CType, n: nat)
    requires n <= |events|
  {
    || (entry == Entry(start, map[]) && forall j :: 0 <= j < n ==> !IsRefresh(events[j], ctype))
    || (exists i: nat :: Latest(events, ctype, n, i) && entry == Entry(events[i].now + interval, events[i].data))
  }

  lemma {:induction false} EntryHistory<V>(types: set<CType>, start: int, interval: int, states: seq<Contents<V>>,
                                           events: seq<Event<V>>, ctype: CType, n: nat)
    requires Run(types, start, interval, states, events) && n <= |events|
    ensures ctype in states[n] <==> ctype in types
    ensures ctype in types ==> Explained(start, interval, states[n][ctype], events, ctype, n)
  {
    if n > 0 {
      var p := n - 1;
      EntryHistory(types, start, interval, states, events, ctype, p);
      assert EventAt(interval, states, events, p);
      if ctype in types {
        if IsRefresh(events[p], ctype) {
          assert Latest(events, ctype, n, p);
        } else if i: nat :| Latest(events, ctype, p, i)
                            && states[p][ctype] == Entry(events[i].now + interval, events[i].data) {
          assert Latest(events, ctype, n, i);
        }
      }
    }
  }

  /** A value got from the cache is what the latest refresh of its type stored, at most `interval` ago. */
  lemma BoundedStaleness<V>(types: set<CType>, start: int, interval: int, states: seq<Contents<V>>,
                            events: seq<Event<V>>, n: nat) returns (i: nat)
    requires Run(types, start, interval, states, events) && n < |events| && events[n].Got? && events[n].value.Some?
    ensures Latest(events, events[n].ctype, n, i)
    ensures events[n].key in events[i].data && events[n].value == Some(events[i].data[events[n].key])
    ensures 0 <= events[n].now - events[i].now <= interval
  {
    EntryHistory(types, start, interval, states, events, events[n].ctype, n);
    assert EventAt(interval, states, events, n);
    i :| Latest(events, events[n].ctype, n, i)
         && states[n][events[n].ctype] == Entry(events[i].now + interval, events[i].data);
  }

  /** The lookups of a call are events of the run, in order, up to the first that makes it query. Events of
      other threads may lie between them; an invalid id is not looked up, so its position names no event. */
  ghost predicate CallIn<V>(events: seq<Event<V>>, call: Call<V>, at: seq<nat>, results: seq<Option<V>>) {
    && |results| == |at| <= |call.uids|
    && (forall i, j :: 0 <= i < j < |at| && call.uids[i] in call.valid && call.uids[j] in call.valid ==> at[i] < at[j])
    && (forall i :: 0 <= i < |at| && call.uids[i] in call.valid ==>
          && at[i] < |events| && events[at[i]].Got? && events[at[i]].ctype == call.ctype
          && events[at[i]].key == call.uids[i] && events[at[i]].value == results[i])
    && call.Ends(results)
  }

  /** However threads interleave, every value of a call that did not query is one that some latest refresh of
      its type stored, at most `interval` before that value was looked up. */
  lemma CallStaleness<V>(types: set<CType>, start: int, interval: int, states: seq<Contents<V>>, events: seq<Event<V>>,
                         call: Call<V>, at: seq<nat>, results: seq<Option<V>>, data: map<UserId, V>, u: UserId)
    returns (k: nat, i: nat)
    requires Run(types, start, interval, states, events) && CallIn(events, call, at, results)
    requires call.Answers(results, data) && !call.Queries(results) && u in data
    ensures k < |at| && at[k] < |events| && call.uids[k] == u && Latest(events, call.ctype, at[k], i)
    ensures u in events[i].data && data[u] == events[i].data[u]
    ensures 0 <= events[at[k]].now - events[i].now <= interval
  {
    k :| k < |results| && call.ServedBy(results, data, u, k);
    i := BoundedStaleness(types, start, interval, states, events, at[k]);
  }

  /** With caching off the cache stays empty, and a call about a powered-on guest queries by itself. */
  lemma CachingOff<V>(types: set<CType>, start: int, interval: int, states: seq<Contents<V>>, events: seq<Event<V>>,
                      call: Call<V>, at: seq<nat>, results: seq<Option<V>>, data: map<UserId, V>)
    requires Run(types, start, interval, states, events) && interval <= 0
    requires CallIn(events, call, at, results) && call.Answers(results, data)
    ensures forall n, ctype :: 0 <= n < |states| && ctype in types ==>
      ctype in states[n] && states[n][ctype].data == map[]
    ensures (exists u :: u in call.uids && u in call.valid && u in call.on) ==> data == call.reply
  {
    forall n, ctype | 0 <= n < |states| && ctype in types
      ensures ctype in states[n] && states[n][ctype].data == map[]
    {
      NeverRefreshed(types, start, interval, states, events, ctype, n);
    }
    if u :| u in call.uids && u in call.valid && u in call.on && !call.Queries(results) {
      var k :| 0 <= k < |call.uids| && call.uids[k] == u;
      OffMisses(types, start, interval, states, events, call, at, results, k);
    }
  }

  lemma OffMisses<V>(types: set<CType>, start: int, interval: int, states: seq<Contents<V>>, events: seq<Event<V>>,
                     call: Call<V>, at: seq<nat>, results: seq<Option<V>>, k: nat)
    requires Run(types, start, interval, states, events) && interval <= 0 && CallIn(events, call, at, results)
    requires k < |at| && call.uids[k] in call.valid && call.uids[k] in call.on
    ensures call.Misses(results, k)
  {
    assert EventAt(interval, states, events, at[k]);
    NeverRefreshed(types, start, interval, states, events, call.ctype, at[k]);
  }

  lemma NeverRefreshed<V>(types: set<CType>, start: int, interval: int, states: seq<Contents<V>>,
                          events: seq<Event<V>>, ctype: CType, n: nat)
    requires Run(types, start, interval, states, events) && interval <= 0 && n <= |events|
    ensures ctype in states[n] <==> ctype in types
    ensures ctype in types ==> states[n][ctype].data == map[]
  {
    EntryHistory(types, start, interval, states, events, ctype, n);
    forall i | 0 <= i < |events| ensures !events[i].Refreshed? { assert EventAt(interval, states, events, i); }
  }

  /** A call that lists an invalid id before a valid one: its one lookup is the one event. */
  lemma InvalidSkipped<V>(ctype: CType, now: int, value: V, reply: map<UserId, V>)
    ensures CallIn([Got(ctype, now, "good", Some(value))],
                   Call(ctype, ["bad", "good"], {"good"}, {"good"}, reply), [0, 0], [None, Some(value)])
  {
    var call := Call(ctype, ["bad", "good"], {"good"}, {"good"}, reply);
    assert !call.Misses([None, Some(value)], 0) && !call.Misses([None, Some(value)], 1);
  }
}
