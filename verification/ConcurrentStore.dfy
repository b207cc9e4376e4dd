/** The store under the transaction protocol: what holds for any number of threads. */
module ConcurrentStore {
  import opened FcpTables
  import opened StoreSpec
  import opened FcpTransactions
  import StoreRuns

  // ---------- blocks as chains of operations ----------

  /** `dbs` leads from `db` to `next` by the given operations, one after another. */
  ghost predicate Chain(db: Tables, dbs: seq<Tables>, ops: seq<StoreRuns.Op>, next: Tables) {
    && |dbs| == |ops| + 1 && dbs[0] == db && dbs[|ops|] == next
    && forall i :: 0 <= i < |ops| ==> StoreRuns.StepAt(dbs, ops, i)
  }

  ghost predicate ActsAs(db: Tables, b: seq<Action<Tables>>, ops: seq<StoreRuns.Op>) {
    exists dbs :: Chain(db, dbs, ops, Writes(db, b))
  }

  /** Run alone on any sound tables it could have seen, the block does what these operations do in order. */
  ghost predicate StoreBlock(b: seq<Action<Tables>>, ops: seq<StoreRuns.Op>) {
    forall db :: StoreRuns.Inv(db) && Isolated(db, b) ==> ActsAs(db, b, ops)
  }

  lemma ChainJoin(db: Tables, a: seq<Tables>, ops: seq<StoreRuns.Op>, mid: Tables, b: seq<Tables>,
                  more: seq<StoreRuns.Op>, next: Tables) returns (dbs: seq<Tables>)
    requires Chain(db, a, ops, mid) && Chain(mid, b, more, next)
    ensures Chain(db, dbs, ops + more, next)
  {
    dbs := a[..|ops|] + b;
    var all := ops + more;
    forall i | 0 <= i < |all| ensures StoreRuns.StepAt(dbs, all, i) {
      if i < |ops| {
        assert StoreRuns.StepAt(a, ops, i);
      } else {
        assert StoreRuns.StepAt(b, more, i - |ops|);
      }
    }
  }

  lemma {:induction false} ChainKeeps(db: Tables, dbs: seq<Tables>, ops: seq<StoreRuns.Op>, next: Tables, n: nat)
    requires StoreRuns.Inv(db) && Chain(db, dbs, ops, next) && n <= |ops|
    ensures StoreRuns.Inv(dbs[n])
  {
    if n > 0 {
      ChainKeeps(db, dbs, ops, next, n - 1);
      StoreRuns.StepAtKeeps(dbs, ops, n - 1);
    }
  }

  /** The operations of the committed blocks, in the order of the blocks. */
  ghost function Called(bs: seq<seq<Action<Tables>>>, calls: seq<seq<StoreRuns.Op>>): seq<StoreRuns.Op>
    requires |calls| == |bs|
  {
    if bs == [] then []
    else
      var n := |bs| - 1;
      Called(bs[..n], calls[..n]) + if Committed(bs[n]) then calls[n] else []
  }

  /** Block number `i` ran in isolation and, if committed, does what its operations do. */
  ghost predicate StoreBlockAt(db: Tables, bs: seq<seq<Action<Tables>>>, calls: seq<seq<StoreRuns.Op>>, i: nat)
    requires i < |bs| == |calls|
  {
    Isolated(Serial(db, bs[..i]), bs[i]) && (Committed(bs[i]) ==> StoreBlock(bs[i], calls[i]))
  }

  lemma BlockChain(db: Tables, b: seq<Action<Tables>>, ops: seq<StoreRuns.Op>) returns (dbs: seq<Tables>)
    requires StoreRuns.Inv(db) && Isolated(db, b) && (Committed(b) ==> StoreBlock(b, ops))
    ensures Chain(db, dbs, if Committed(b) then ops else [], Effect(db, b))
  {
    if Committed(b) {
      assert ActsAs(db, b, ops);
      dbs :| Chain(db, dbs, ops, Writes(db, b));
    } else {
      dbs := [db];
    }
  }

  lemma {:induction false} SeriesChain(db: Tables, bs: seq<seq<Action<Tables>>>, calls: seq<seq<StoreRuns.Op>>, n: nat)
    returns (dbs: seq<Tables>)
    requires StoreRuns.Inv(db) && n <= |bs| == |calls|
    requires forall i :: 0 <= i < |bs| ==> StoreBlockAt(db, bs, calls, i)
    ensures Chain(db, dbs, Called(bs[..n], calls[..n]), Serial(db, bs[..n]))
  {
    if n == 0 {
      dbs := [db];
    } else {
      var init, ops := bs[..n - 1], Called(bs[..n - 1], calls[..n - 1]);
      assert bs[..n][..n - 1] == init && calls[..n][..n - 1] == calls[..n - 1];
      assert StoreBlockAt(db, bs, calls, n - 1);
      var mid := Serial(db, init);
      var a := SeriesChain(db, bs, calls, n - 1);
      ChainKeeps(db, a, ops, mid, |ops|);
      var b := BlockChain(mid, bs[n - 1], calls[n - 1]);
      dbs := ChainJoin(db, a, ops, mid, b, if Committed(bs[n - 1]) then calls[n - 1] else [], Effect(mid, bs[n - 1]));
    }
  }

  // ---------- what holds for any number of threads ----------

  /** A run of any number of threads up to a moment when the lock is free; each committed outermost block
      makes the store calls listed for it, and is only known to do so when run alone. */
  ghost predicate StoreRun(states: seq<State<Tables>>, trace: seq<Action<Tables>>, n: nat,
                           calls: seq<seq<StoreRuns.Op>>) {
    && Run(EMPTY, states, trace) && n <= |trace| && states[n].owner.None? && Healthy(trace[..n])
    && var done := Split(trace[..n]).0;
       |calls| == |done| && forall i :: 0 <= i < |done| && Committed(done[i]) ==> StoreBlock(done[i], calls[i])
  }

  /** The store calls of the committed blocks, in commit order. */
  ghost function Calls(trace: seq<Action<Tables>>, n: nat, calls: seq<seq<StoreRuns.Op>>): seq<StoreRuns.Op>
    requires n <= |trace| && |calls| == |Split(trace[..n]).0|
  {
    Called(Split(trace[..n]).0, calls)
  }

  /** Every concurrent run leaves the tables that a sequential run of the committed blocks' calls leaves. */
  lemma ConcurrentRefines(states: seq<State<Tables>>, trace: seq<Action<Tables>>, n: nat,
                          calls: seq<seq<StoreRuns.Op>>) returns (dbs: seq<Tables>)
    requires StoreRun(states, trace, n, calls)
    ensures StoreRuns.Run(dbs, Calls(trace, n, calls)) && dbs[|Calls(trace, n, calls)|] == states[n].tables
  {
    Serialisable(EMPTY, states, trace, n);
    var done := Split(trace[..n]).0;
    forall i | 0 <= i < |done| ensures StoreBlockAt(EMPTY, done, calls, i) {}
    dbs := SeriesChain(EMPTY, done, calls, |done|);
    assert done[..|done|] == done && calls[..|done|] == calls;
  }

  /** The store invariant holds whenever the lock is free. */
  lemma EveryConcurrentRun(states: seq<State<Tables>>, trace: seq<Action<Tables>>, n: nat,
                           calls: seq<seq<StoreRuns.Op>>)
    requires StoreRun(states, trace, n, calls)
    ensures StoreRuns.Inv(states[n].tables)
  {
    var dbs := ConcurrentRefines(states, trace, n, calls);
    StoreRuns.EveryRun(dbs, Calls(trace, n, calls), |Calls(trace, n, calls)|);
  }

  /** The connections of a device are the connects minus the disconnects that committed blocks of all threads
      made since it was last cleared. */
  lemma ConcurrentLedger(states: seq<State<Tables>>, trace: seq<Action<Tables>>, n: nat,
                         calls: seq<seq<StoreRuns.Op>>, d: FcpId) returns (dbs: seq<Tables>, c: nat)
    requires StoreRun(states, trace, n, calls) && d in states[n].tables.fcp
    ensures var ops := Calls(trace, n, calls);
      && StoreRuns.Run(dbs, ops) && dbs[|ops|] == states[n].tables
      && c <= |ops| && (c == 0 || StoreRuns.Clears(dbs, ops, d, c - 1))
      && (forall i :: c <= i < |ops| ==> !StoreRuns.Clears(dbs, ops, d, i))
      && states[n].tables.fcp[d].connections
         == |StoreRuns.Connects(dbs, ops, d, c, |ops|)| - |StoreRuns.Disconnects(dbs, ops, d, c, |ops|)| >= 0
  {
    var ops := Calls(trace, n, calls);
    dbs := ConcurrentRefines(states, trace, n, calls);
    c := StoreRuns.LastClear(dbs, ops, d, |ops|);
    StoreRuns.Ledger(dbs, ops, d, c, |ops|);
  }

  /** Between two hand-outs of a device, by whichever threads, it was given back. */
  lemma ConcurrentOwnership(states: seq<State<Tables>>, trace: seq<Action<Tables>>, n: nat,
                            calls: seq<seq<StoreRuns.Op>>) returns (dbs: seq<Tables>)
    requires StoreRun(states, trace, n, calls)
    ensures var ops := Calls(trace, n, calls);
      && StoreRuns.Run(dbs, ops) && dbs[|ops|] == states[n].tables
      && forall d, u, v, i: nat, j: nat ::
           i < j < |ops| && StoreRuns.Hands(dbs, ops, d, u, i) && StoreRuns.Hands(dbs, ops, d, v, j) ==>
             && (exists k :: i < k < j && StoreRuns.Releases(dbs, ops, d, k))
             && (d in dbs[j].fcp ==> dbs[j].fcp[d].connections == 0 && dbs[j].fcp[d].reserved == 0)
  {
    var ops := Calls(trace, n, calls);
    dbs := ConcurrentRefines(states, trace, n, calls);
    forall d, u, v, i: nat, j: nat
      | i < j < |ops| && StoreRuns.Hands(dbs, ops, d, u, i) && StoreRuns.Hands(dbs, ops, d, v, j)
      ensures exists k :: i < k < j && StoreRuns.Releases(dbs, ops, d, k)
      ensures d in dbs[j].fcp ==> dbs[j].fcp[d].connections == 0 && dbs[j].fcp[d].reserved == 0
    {
      StoreRuns.ExclusiveOwnership(dbs, ops, d, u, v, i, j);
    }
  }
}
