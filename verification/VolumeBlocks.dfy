/** The outermost blocks of `volumeop` that make several store calls, as traces of the transaction protocol: a
    thread can run each of them, and each does what a chain of store operations does. */
module VolumeBlocks {
  import opened Lists
  import opened FcpTables
  import opened StoreSpec
  import opened FcpTransactions
  import opened Blocks
  import opened ConcurrentStore
  import FcpStore
  import StoreRuns

  /** A committed block that thread `t` can run whenever the lock is free, and that turns `db` into `next`. */
  ghost predicate Runnable(t: Thread, db: Tables, b: seq<Action<Tables>>, next: Tables) {
    && Complete(b) && Committed(b) && Isolated(db, b) && Writes(db, b) == next
    && forall s :: LockFree(s, t) && s.tables == db ==> Leads(s, b, Inside(s.stacks, t, next, db, false, []))
  }

  lemma PiecesRun(t: Thread, db: Tables, body: seq<Action<Tables>>, next: Tables)
    requires Piece(t, db, body, next)
    ensures Runnable(t, db, Nested(t, body, false), next)
  {
    BlockShape(t, db, body, next);
    forall s | LockFree(s, t) && s.tables == db
      ensures Leads(s, Nested(t, body, false), Inside(s.stacks, t, next, db, false, []))
    {
      BlockRuns(t, db, body, next, s);
    }
  }

  /** A block whose pieces make store steps does what these steps do in order. */
  lemma BlockIsChain(t: Thread, db: Tables, body: seq<Action<Tables>>, next: Tables, dbs: seq<Tables>,
                     ops: seq<StoreRuns.Op>)
    requires Piece(t, db, body, next) && Chain(db, dbs, ops, next) && (HasStatement(body) || ops == [])
    ensures StoreBlock(Nested(t, body, false), ops)
  {
    var b := Nested(t, body, false);
    BlockShape(t, db, body, next);
    forall x | StoreRuns.Inv(x) && Isolated(x, b) ensures ActsAs(x, b, ops) {
      if HasStatement(body) {
        StatementInside(t, body);
        OneBase(b, db, x);
        assert Chain(x, dbs, ops, Writes(x, b));
      } else {
        WritesNothing(x, b);
        assert Chain(x, [x], ops, Writes(x, b));
      }
    }
  }

  lemma StatementInside(t: Thread, body: seq<Action<Tables>>)
    requires HasStatement(body)
    ensures HasStatement(Nested(t, body, false)) && HasStatement(Nested(t, body, true))
  {
    var i :| 0 <= i < |body| && body[i].Exec?;
    assert Nested(t, body, false)[2 + i] == body[i] && Nested(t, body, true)[2 + i] == body[i];
  }

  lemma StatementKept(a: seq<Action<Tables>>, b: seq<Action<Tables>>)
    requires HasStatement(a) || HasStatement(b)
    ensures HasStatement(a + b)
  {
    if i :| 0 <= i < |a| && a[i].Exec? {
      assert (a + b)[i].Exec?;
    } else {
      var i :| 0 <= i < |b| && b[i].Exec?;
      assert (a + b)[|a| + i].Exec?;
    }
  }

  lemma CleanBenign(c: seq<Action<Tables>>)
    requires !HasFailure(c) || OnlyReads(c)
    ensures Benign(c)
  {
  }

  // ---------- single store calls ----------

  /** A nested block of one statement. */
  ghost function Call(t: Thread, db: Tables, w: Tables -> Tables): seq<Action<Tables>> {
    Nested(t, [Exec(t, db, w)], false)
  }

  lemma CallPiece(t: Thread, db: Tables, w: Tables -> Tables)
    ensures Piece(t, db, Call(t, db, w), w(db)) && HasStatement(Call(t, db, w)) && !HasFailure(Call(t, db, w))
  {
    StatementPiece(t, db, w);
    NestedPiece(t, db, [Exec(t, db, w)], w(db), false);
    assert Call(t, db, w)[2].Exec?;
  }

  /** A query that changes nothing. */
  ghost function Query(t: Thread, db: Tables): seq<Action<Tables>> {
    Call(t, db, x => x)
  }

  lemma QueryPiece(t: Thread, db: Tables)
    ensures Piece(t, db, Query(t, db), db) && HasStatement(Query(t, db))
  {
    CallPiece(t, db, x => x);
  }

  function SetCount(x: Tables, d: FcpId, n: int): Tables {
    if d in x.fcp then x.(fcp := x.fcp[d := x.fcp[d].(connections := n)]) else x
  }

  /** SELECT, UPDATE, SELECT in a nested block. */
  ghost function UpdateCall(t: Thread, db: Tables, d: FcpId, n: int): seq<Action<Tables>> {
    var select, update := [Exec(t, db, x => x)], [Exec(t, db, x => SetCount(x, d, n))];
    Nested(t, select + update + [Exec(t, SetCount(db, d, n), x => x)], false)
  }

  lemma UpdatePiece(t: Thread, db: Tables, d: FcpId, n: int)
    ensures Piece(t, db, UpdateCall(t, db, d, n), SetCount(db, d, n))
    ensures HasStatement(UpdateCall(t, db, d, n)) && !HasFailure(UpdateCall(t, db, d, n))
  {
    var next, same, w := SetCount(db, d, n), (x: Tables) => x, (x: Tables) => SetCount(x, d, n);
    var first, second, third := [Exec(t, db, same)], [Exec(t, db, w)], [Exec(t, next, same)];
    StatementPiece(t, db, same);
    StatementPiece(t, db, w);
    StatementPiece(t, next, same);
    PieceAppend(t, db, first, db, second, next);
    PieceAppend(t, db, first + second, next, third, next);
    NestedPiece(t, db, first + second + third, next, false);
    assert UpdateCall(t, db, d, n)[2].Exec?;
  }

  /** SELECT and an exception. */
  ghost function FailingCall(t: Thread, db: Tables): seq<Action<Tables>> {
    Nested(t, [Exec(t, db, x => x)], true)
  }

  lemma FailingPiece(t: Thread, db: Tables)
    ensures Piece(t, db, FailingCall(t, db), db) && HasStatement(FailingCall(t, db)) && OnlyReads(FailingCall(t, db))
  {
    StatementPiece(t, db, (x: Tables) => x);
    NestedPiece(t, db, [Exec(t, db, (x: Tables) => x)], db, true);
    assert FailingCall(t, db)[2].Exec?;
  }

  // ---------- increase_fcp_connections and decrease_fcp_connections ----------

  ghost function ConnectOps(ids: seq<FcpId>, user: UserId): seq<StoreRuns.Op> {
    seq(|ids|, i requires 0 <= i < |ids| => StoreRuns.OpConnect(ids[i], user))
  }

  ghost function DisconnectOps(ids: seq<FcpId>): seq<StoreRuns.Op> {
    seq(|ids|, i requires 0 <= i < |ids| => StoreRuns.OpDisconnect(ids[i]))
  }

  /** The tables between the calls. */
  ghost function ConnectStages(db: Tables, ids: seq<FcpId>): seq<Tables> {
    seq(|ids| + 1, i requires 0 <= i <= |ids| => ConnectedAll(db, ids[..i]))
  }

  ghost function DisconnectStages(db: Tables, ids: seq<FcpId>): seq<Tables> {
    seq(|ids| + 1, i requires 0 <= i <= |ids| => DisconnectedAll(db, ids[..i]))
  }

  lemma NothingListed(db: Tables)
    ensures ConnectedAll(db, []) == db && DisconnectedAll(db, []) == db
  {
    assert ConnectedAll(db, []).fcp == db.fcp && DisconnectedAll(db, []).fcp == db.fcp;
  }

  lemma ConnectStep(db: Tables, ids: seq<FcpId>, user: UserId, i: nat)
    requires Connectable(db, ids, user) && i < |ids|
    ensures StoreRuns.Step(ConnectedAll(db, ids[..i]), StoreRuns.OpConnect(ids[i], user),
                           ConnectedAll(db, ids[..i + 1]))
  {
    FcpStore.ConnectNext(db, ids, i, user);
  }

  lemma ConnectChain(db: Tables, ids: seq<FcpId>, user: UserId)
    requires Connectable(db, ids, user)
    ensures Chain(db, ConnectStages(db, ids), ConnectOps(ids, user), ConnectedAll(db, ids))
  {
    assert ids[..0] == [] && ids[..|ids|] == ids;
    NothingListed(db);
    forall i | 0 <= i < |ids| ensures StoreRuns.StepAt(ConnectStages(db, ids), ConnectOps(ids, user), i) {
      ConnectStep(db, ids, user, i);
    }
  }

  lemma ConnectCall(t: Thread, db: Tables, ids: seq<FcpId>, user: UserId, i: nat) returns (c: seq<Action<Tables>>)
    requires Connectable(db, ids, user) && i < |ids|
    ensures Piece(t, ConnectedAll(db, ids[..i]), c, ConnectedAll(db, ids[..i + 1])) && HasStatement(c)
  {
    var now, d := ConnectedAll(db, ids[..i]), ids[i];
    assert now.fcp.Keys == db.fcp.Keys;
    var n := now.fcp[d].connections + 1;
    FcpStore.ConnectNext(db, ids, i, user);
    assert Connect(now, d, user) == (Some(n), SetCount(now, d, n));
    c := UpdateCall(t, now, d, n);
    UpdatePiece(t, now, d, n);
  }

  lemma {:induction false} ConnectBody(t: Thread, db: Tables, ids: seq<FcpId>, user: UserId, n: nat)
    returns (body: seq<Action<Tables>>)
    requires Connectable(db, ids, user) && n <= |ids|
    ensures Piece(t, db, body, ConnectedAll(db, ids[..n])) && (n > 0 ==> HasStatement(body))
  {
    if n == 0 {
      body := [];
      assert ids[..0] == [];
      NothingListed(db);
      NoPiece(t, db);
    } else {
      var init := ConnectBody(t, db, ids, user, n - 1);
      var c := ConnectCall(t, db, ids, user, n - 1);
      body := init + c;
      PieceAppend(t, db, init, ConnectedAll(db, ids[..n - 1]), c, ConnectedAll(db, ids[..n]));
      StatementKept(init, c);
    }
  }

  /** `increase_fcp_connections` on the user's devices is one block that connects them one after another. */
  lemma ConnectBlock(t: Thread, db: Tables, ids: seq<FcpId>, user: UserId) returns (b: seq<Action<Tables>>)
    requires Connectable(db, ids, user)
    ensures Runnable(t, db, b, ConnectedAll(db, ids)) && StoreBlock(b, ConnectOps(ids, user))
  {
    var body := ConnectBody(t, db, ids, user, |ids|);
    b := Nested(t, body, false);
    assert ids[..|ids|] == ids;
    PiecesRun(t, db, body, ConnectedAll(db, ids));
    ConnectChain(db, ids, user);
    BlockIsChain(t, db, body, ConnectedAll(db, ids), ConnectStages(db, ids), ConnectOps(ids, user));
  }

  lemma DisconnectStep(db: Tables, ids: seq<FcpId>, i: nat)
    requires i < |ids|
    ensures StoreRuns.Step(DisconnectedAll(db, ids[..i]), StoreRuns.OpDisconnect(ids[i]),
                           DisconnectedAll(db, ids[..i + 1]))
  {
    FcpStore.DisconnectNext(db, ids, i);
  }

  lemma DisconnectChain(db: Tables, ids: seq<FcpId>)
    ensures Chain(db, DisconnectStages(db, ids), DisconnectOps(ids), DisconnectedAll(db, ids))
  {
    assert ids[..0] == [] && ids[..|ids|] == ids;
    NothingListed(db);
    forall i | 0 <= i < |ids| ensures StoreRuns.StepAt(DisconnectStages(db, ids), DisconnectOps(ids), i) {
      DisconnectStep(db, ids, i);
    }
  }

  lemma DisconnectCall(t: Thread, db: Tables, ids: seq<FcpId>, i: nat) returns (c: seq<Action<Tables>>)
    requires i < |ids|
    ensures Piece(t, DisconnectedAll(db, ids[..i]), c, DisconnectedAll(db, ids[..i + 1])) && HasStatement(c)
    ensures HasFailure(c) <==> Disconnect(DisconnectedAll(db, ids[..i]), ids[i]).0.None?
    ensures Benign(c)
  {
    var now := DisconnectedAll(db, ids[..i]);
    FcpStore.DisconnectNext(db, ids, i);
    var (n, next) := Disconnect(now, ids[i]);
    if n.Some? {
      c := UpdateCall(t, now, ids[i], n.value);
      UpdatePiece(t, now, ids[i], n.value);
    } else {
      c := FailingCall(t, now);
      FailingPiece(t, now);
      assert c[3].Fail?;
    }
    CleanBenign(c);
  }

  lemma {:induction false} DisconnectBody(t: Thread, db: Tables, ids: seq<FcpId>, n: nat)
    returns (body: seq<Action<Tables>>)
    requires n <= |ids|
    ensures Piece(t, db, body, DisconnectedAll(db, ids[..n])) && Benign(body) && (n > 0 ==> HasStatement(body))
  {
    if n == 0 {
      body := [];
      assert ids[..0] == [];
      NothingListed(db);
      NoPiece(t, db);
    } else {
      var init := DisconnectBody(t, db, ids, n - 1);
      var c := DisconnectCall(t, db, ids, n - 1);
      body := init + c;
      PieceAppend(t, db, init, DisconnectedAll(db, ids[..n - 1]), c, DisconnectedAll(db, ids[..n]));
      BenignAppend(init, c);
      StatementKept(init, c);
    }
  }

  /** `decrease_fcp_connections` is one block that disconnects its devices one after another. The calls that
      fail are swallowed; they only read, so their exceptions are harmless. */
  lemma DisconnectBlock(t: Thread, db: Tables, ids: seq<FcpId>) returns (b: seq<Action<Tables>>)
    ensures Runnable(t, db, b, DisconnectedAll(db, ids)) && StoreBlock(b, DisconnectOps(ids))
    ensures FailedOnlyRead(b) && Effect(db, b) == Surviving(db, b, |b|)
  {
    var body := DisconnectBody(t, db, ids, |ids|);
    b := Nested(t, body, false);
    assert ids[..|ids|] == ids;
    PiecesRun(t, db, body, DisconnectedAll(db, ids));
    DisconnectChain(db, ids);
    BlockIsChain(t, db, body, DisconnectedAll(db, ids), DisconnectStages(db, ids), DisconnectOps(ids));
    BlockBenign(t, body);
    SwallowingHarmless(db, b);
  }

  // ---------- the synchronisation, whole or broken off ----------

  ghost function SyncOps(p: FcpStore.SyncPlan): seq<StoreRuns.Op> {
    [StoreRuns.OpInsert(p.added), StoreRuns.OpDelete(p.unused), StoreRuns.OpMark(p.lost, "notfound"),
     StoreRuns.OpUpdate(p.changed)]
  }

  /** The four batches as writes. */
  ghost function SyncWrite(p: FcpStore.SyncPlan, j: nat): Tables -> Tables {
    if j == 0 then x => Insert(x, p.added).1
    else if j == 1 then x => Delete(x, p.unused)
    else if j == 2 then x => SetState(x, p.lost, "notfound")
    else x => Update(x, p.changed)
  }

  ghost function SyncStages(db: Tables, p: FcpStore.SyncPlan): seq<Tables> {
    var inserted := Insert(db, p.added).1;
    var kept := Delete(inserted, p.unused);
    var marked := SetState(kept, p.lost, "notfound");
    [db, inserted, kept, marked, Update(marked, p.changed)]
  }

  lemma SyncSteps(db: Tables, p: FcpStore.SyncPlan)
    requires CanInsert(db, p.added)
    ensures Chain(db, SyncStages(db, p), SyncOps(p), SyncStages(db, p)[4])
  {
    var dbs, ops := SyncStages(db, p), SyncOps(p);
    assert StoreRuns.StepAt(dbs, ops, 0);
    assert StoreRuns.StepAt(dbs, ops, 1);
    assert StoreRuns.StepAt(dbs, ops, 2);
    assert StoreRuns.StepAt(dbs, ops, 3);
  }

  lemma ChainPrefix(db: Tables, dbs: seq<Tables>, ops: seq<StoreRuns.Op>, next: Tables, k: nat)
    requires Chain(db, dbs, ops, next) && k <= |ops|
    ensures Chain(db, dbs[..k + 1], ops[..k], dbs[k])
  {
    var front, first := dbs[..k + 1], ops[..k];
    forall i | 0 <= i < k ensures StoreRuns.StepAt(front, first, i) {
      assert StoreRuns.StepAt(dbs, ops, i);
    }
  }

  /** Broken off after any of its batches, with the exception ignored as on release, a synchronisation has still
      made store steps only; carried through, it is the synchronisation. */
  lemma SyncPrefixes(db: Tables, zvm: map<FcpId, ZvmInfo>, p: FcpStore.SyncPlan, k: nat)
    requires p.Plans(db, zvm) && CanInsert(db, p.added) && k <= 4
    ensures Chain(db, SyncStages(db, p)[..k + 1], SyncOps(p)[..k], SyncStages(db, p)[k])
    ensures SyncStages(db, p)[4] == Sync(db, zvm)
  {
    FcpStore.SyncedByDifference(db, zvm, p);
    SyncSteps(db, p);
    ChainPrefix(db, SyncStages(db, p), SyncOps(p), SyncStages(db, p)[4], k);
  }

  lemma {:induction false} SyncBody(t: Thread, db: Tables, p: FcpStore.SyncPlan, k: nat)
    returns (body: seq<Action<Tables>>)
    requires k <= 4
    ensures Piece(t, db, body, SyncStages(db, p)[k]) && HasStatement(body)
  {
    if k == 0 {
      body := Query(t, db);
      QueryPiece(t, db);
    } else {
      var init := SyncBody(t, db, p, k - 1);
      var now, next := SyncStages(db, p)[k - 1], SyncStages(db, p)[k];
      var c := Call(t, now, SyncWrite(p, k - 1));
      CallPiece(t, now, SyncWrite(p, k - 1));
      assert SyncWrite(p, k - 1)(now) == next;
      body := init + c;
      PieceAppend(t, db, init, now, c, next);
      StatementKept(init, c);
    }
  }

  // ---------- get_volume_connector ----------

  /** Two pieces, one of them a nested block around `inner`. */
  lemma ThenNested(t: Thread, db: Tables, a: seq<Action<Tables>>, mid: Tables, inner: seq<Action<Tables>>, next: Tables,
                   failed: bool)
    requires Piece(t, db, a, mid) && Piece(t, mid, inner, next) && HasStatement(a)
    ensures Piece(t, db, a + Nested(t, inner, failed), next) && HasStatement(a + Nested(t, inner, failed))
  {
    NestedPiece(t, mid, inner, next, failed);
    PieceAppend(t, db, a, mid, Nested(t, inner, failed), next);
    StatementKept(a, Nested(t, inner, failed));
  }

  /** Releasing devices: a block that unreserves them and then synchronises. If the synchronisation breaks off
      after `k` batches its exception is ignored, and the block commits what was done up to there. */
  lemma ReleaseBlock(t: Thread, db: Tables, ids: seq<FcpId>, zvm: map<FcpId, ZvmInfo>, p: FcpStore.SyncPlan, k: nat,
                     failed: bool) returns (b: seq<Action<Tables>>)
    requires p.Plans(Unreserve(db, ids), zvm) && CanInsert(Unreserve(db, ids), p.added) && k <= 4
    ensures Runnable(t, db, b, SyncStages(Unreserve(db, ids), p)[k])
    ensures StoreBlock(b, [StoreRuns.OpUnreserve(ids)] + SyncOps(p)[..k])
  {
    var mid, final := Unreserve(db, ids), SyncStages(Unreserve(db, ids), p)[k];
    var body := ReleaseBody(t, db, ids, p, k, failed);
    b := Nested(t, body, false);
    PiecesRun(t, db, body, final);
    SyncPrefixes(mid, zvm, p, k);
    var op := StoreRuns.OpUnreserve(ids);
    assert StoreRuns.StepAt([db, mid], [op], 0);
    var dbs := ChainJoin(db, [db, mid], [op], mid, SyncStages(mid, p)[..k + 1], SyncOps(p)[..k], final);
    BlockIsChain(t, db, body, final, dbs, [op] + SyncOps(p)[..k]);
  }

  lemma ReleaseBody(t: Thread, db: Tables, ids: seq<FcpId>, p: FcpStore.SyncPlan, k: nat, failed: bool)
    returns (body: seq<Action<Tables>>)
    requires k <= 4
    ensures Piece(t, db, body, SyncStages(Unreserve(db, ids), p)[k]) && HasStatement(body)
  {
    var mid := Unreserve(db, ids);
    var check, write := Query(t, db), Call(t, db, x => Unreserve(x, ids));
    QueryPiece(t, db);
    CallPiece(t, db, x => Unreserve(x, ids));
    PieceAppend(t, db, check, db, write, mid);
    ThenNested(t, db, check, db, check + write, mid, false);
    var released := check + Nested(t, check + write, false);
    var sync := SyncBody(t, mid, p, k);
    ThenNested(t, db, released, mid, sync, SyncStages(mid, p)[k], failed);
    body := released + Nested(t, sync, failed);
  }

  /** Allocating devices: a block that synchronises, chooses and reserves does what one allocation does. */
  lemma AllocateBlock(t: Thread, db: Tables, q: FcpStore.Request, list: seq<Device>, next: Tables, p: FcpStore.SyncPlan)
    returns (b: seq<Action<Tables>>)
    requires q.t != "" && FcpStore.Grants(db, q, FcpStore.Granted(list), next)
    requires p.Plans(db, q.zvm) && CanInsert(db, p.added)
    ensures Runnable(t, db, b, next) && StoreBlock(b, [StoreRuns.OpAllocate(q, FcpStore.Granted(list))])
  {
    var body := AllocateBody(t, db, q, list, p);
    b := Nested(t, body, false);
    SyncPrefixes(db, q.zvm, p, 4);
    PiecesRun(t, db, body, next);
    AllocateChain(db, q, FcpStore.Granted(list), next);
    BlockIsChain(t, db, body, next, [db, next], [StoreRuns.OpAllocate(q, FcpStore.Granted(list))]);
  }

  lemma AllocateChain(db: Tables, q: FcpStore.Request, r: FcpStore.Grant, next: Tables)
    requires q.t != "" && FcpStore.Grants(db, q, r, next)
    ensures Chain(db, [db, next], [StoreRuns.OpAllocate(q, r)], next)
  {
    assert StoreRuns.StepAt([db, next], [StoreRuns.OpAllocate(q, r)], 0);
  }

  lemma AllocateBody(t: Thread, db: Tables, q: FcpStore.Request, list: seq<Device>, p: FcpStore.SyncPlan)
    returns (body: seq<Action<Tables>>)
    ensures Piece(t, db, body, Reserve(SyncStages(db, p)[4], DeviceIds(list), q.user, q.t)) && HasStatement(body)
  {
    var synced := SyncStages(db, p)[4];
    var next := Reserve(synced, DeviceIds(list), q.user, q.t);
    QueryPiece(t, db);
    var sync := SyncBody(t, db, p, 4);
    ThenNested(t, db, Query(t, db), db, sync, synced, false);
    var inner := ReserveTail(t, db, Query(t, db) + Nested(t, sync, false), synced, DeviceIds(list), q);
    ThenNested(t, db, Query(t, db), db, inner, next, false);
    body := Query(t, db) + Nested(t, inner, false);
  }

  /** The choice, and the reservation unless nothing was chosen. */
  lemma ReserveTail(t: Thread, db: Tables, a: seq<Action<Tables>>, synced: Tables, ids: seq<FcpId>, q: FcpStore.Request)
    returns (inner: seq<Action<Tables>>)
    requires Piece(t, db, a, synced)
    ensures Piece(t, db, inner, Reserve(synced, ids, q.user, q.t))
  {
    QueryPiece(t, synced);
    PieceAppend(t, db, a, synced, Query(t, synced), synced);
    inner := a + Query(t, synced);
    if ids == [] {
      FcpStore.ReserveNone(synced, q.user, q.t);
    } else {
      var c := Call(t, synced, x => Reserve(x, ids, q.user, q.t));
      CallPiece(t, synced, x => Reserve(x, ids, q.user, q.t));
      PieceAppend(t, db, inner, synced, c, Reserve(synced, ids, q.user, q.t));
      inner := inner + c;
    }
  }
}
