/** Blocks of `get_fcp_conn` put together from statements and nested blocks: what such a block does, and that
    the protocol lets a thread run it whenever the lock is free. */
module Blocks {
  import opened Lists
  import opened FcpTransactions

  // ---------- paths of the protocol ----------

  ghost predicate Path<D>(s: State<D>, states: seq<State<D>>, trace: seq<Action<D>>, n: State<D>) {
    && |states| == |trace| + 1 && states[0] == s && states[|trace|] == n
    && forall i :: 0 <= i < |trace| ==> StepAt(states, trace, i)
  }

  /** The protocol can take `s` to `n` by the given actions. */
  ghost predicate Leads<D(!new)>(s: State<D>, trace: seq<Action<D>>, n: State<D>) {
    exists states :: Path(s, states, trace, n)
  }

  lemma LeadsNowhere<D(!new)>(s: State<D>)
    ensures Leads(s, [], s)
  {
    assert Path(s, [s], [], s);
  }

  lemma LeadsOne<D(!new)>(s: State<D>, a: Action<D>, n: State<D>)
    requires Step(s, a, n)
    ensures Leads(s, [a], n)
  {
    assert StepAt([s, n], [a], 0);
    assert Path(s, [s, n], [a], n);
  }

  lemma LeadsOn<D(!new)>(s: State<D>, a: seq<Action<D>>, m: State<D>, b: seq<Action<D>>, n: State<D>)
    requires Leads(s, a, m) && Leads(m, b, n)
    ensures Leads(s, a + b, n)
  {
    var first :| Path(s, first, a, m);
    var second :| Path(m, second, b, n);
    var states, all := first[..|a|] + second, a + b;
    forall i | 0 <= i < |all| ensures StepAt(states, all, i) {
      if i < |a| { assert StepAt(first, a, i); } else { assert StepAt(second, b, i - |a|); }
    }
    assert Path(s, states, all, n);
  }

  lemma LeadsStep<D(!new)>(s: State<D>, trace: seq<Action<D>>, m: State<D>, a: Action<D>, n: State<D>)
    requires Leads(s, trace, m) && Step(m, a, n)
    ensures Leads(s, trace + [a], n)
  {
    LeadsOne(m, a, n);
    LeadsOn(s, trace, m, [a], n);
  }

  // ---------- what may stand in a block ----------

  /** Inside any open block of thread `t`, the actions can be taken and turn `db` into `next`. */
  ghost predicate Runs<D(!new)>(t: Thread, db: D, c: seq<Action<D>>, next: D) {
    forall rest, saved, pre :: InsideOpen(pre) ==>
      Leads(Inside(rest, t, db, saved, true, pre), c, Inside(rest, t, next, saved, true, pre))
  }

  predicate InsideOpen(pre: seq<Frame>) {
    pre != [] && pre[|pre| - 1].Open?
  }

  /** Exceptions are raised in nested blocks only. */
  ghost predicate FailsDeep<D>(c: seq<Action<D>>) {
    forall e :: 0 <= e < |c| && c[e].Fail? ==> Nesting(c[..e]) >= 1
  }

  /** A piece of a block's body: statements and complete nested blocks. */
  ghost predicate Piece<D(!new)>(t: Thread, db: D, c: seq<Action<D>>, next: D) {
    && ByThread(c, t) && ExitsRelease(c) && (c != [] ==> !IsExit(c[|c| - 1])) && Nesting(c) == 0 && FailsDeep(c)
    && Isolated(db, c) && Writes(db, c) == next && Runs(t, db, c, next)
  }

  /** A nested block, left normally or by an exception. */
  ghost function Nested<D>(t: Thread, body: seq<Action<D>>, failed: bool): seq<Action<D>> {
    [Acquire(t), Begin(t)] + body + [if failed then Fail(t) else Succeed(t), Release(t)]
  }

  lemma {:induction false} NestingAppend<D>(a: seq<Action<D>>, b: seq<Action<D>>)
    ensures Nesting(a + b) == Nesting(a) + Nesting(b)
    decreases |b|
  {
    if b == [] {
      assert a + b == a;
    } else {
      var init := b[..|b| - 1];
      assert (a + b)[..|a + b| - 1] == a + init;
      NestingAppend(a, init);
    }
  }

  lemma IsolatedAppend<D>(db: D, a: seq<Action<D>>, b: seq<Action<D>>)
    requires Isolated(db, a) && Isolated(Writes(db, a), b)
    ensures Isolated(db, a + b) && Writes(db, a + b) == Writes(Writes(db, a), b)
  {
    WritesAppend(db, a, b);
    var all := a + b;
    forall i | 0 <= i < |all| && all[i].Exec? ensures all[i].seen == Writes(db, all[..i]) {
      if i < |a| {
        assert all[..i] == a[..i];
      } else {
        assert all[..i] == a + b[..i - |a|];
        WritesAppend(db, a, b[..i - |a|]);
      }
    }
  }

  lemma NoPiece<D(!new)>(t: Thread, db: D)
    ensures Piece(t, db, [], db)
  {
    forall rest, saved, pre | InsideOpen(pre)
      ensures Leads(Inside(rest, t, db, saved, true, pre), [], Inside(rest, t, db, saved, true, pre))
    {
      LeadsNowhere(Inside(rest, t, db, saved, true, pre));
    }
  }

  /** A statement is a piece. */
  lemma StatementPiece<D(!new)>(t: Thread, db: D, w: D -> D)
    ensures Piece(t, db, [Exec(t, db, w)], w(db))
  {
    var one := [Exec(t, db, w)];
    assert one[..0] == [];
    forall rest, saved, pre | InsideOpen(pre)
      ensures Leads(Inside(rest, t, db, saved, true, pre), one, Inside(rest, t, w(db), saved, true, pre))
    {
      LeadsOne(Inside(rest, t, db, saved, true, pre), one[0], Inside(rest, t, w(db), saved, true, pre));
    }
  }

  lemma RunsAppend<D(!new)>(t: Thread, db: D, a: seq<Action<D>>, mid: D, b: seq<Action<D>>, next: D)
    requires Runs(t, db, a, mid) && Runs(t, mid, b, next)
    ensures Runs(t, db, a + b, next)
  {
    forall rest, saved, pre | InsideOpen(pre)
      ensures Leads(Inside(rest, t, db, saved, true, pre), a + b, Inside(rest, t, next, saved, true, pre))
    {
      LeadsOn(Inside(rest, t, db, saved, true, pre), a, Inside(rest, t, mid, saved, true, pre), b,
              Inside(rest, t, next, saved, true, pre));
    }
  }

  lemma DeepAppend<D>(a: seq<Action<D>>, b: seq<Action<D>>)
    requires FailsDeep(a) && FailsDeep(b) && Nesting(a) == 0
    ensures FailsDeep(a + b)
  {
    var all := a + b;
    forall e | 0 <= e < |all| && all[e].Fail? ensures Nesting(all[..e]) >= 1 {
      NestingBefore(a, b, e);
      if e >= |a| { assert all[e] == b[e - |a|]; }
    }
  }

  lemma NestingBefore<D>(a: seq<Action<D>>, b: seq<Action<D>>, e: nat)
    requires e <= |a| + |b|
    ensures Nesting((a + b)[..e]) == if e < |a| then Nesting(a[..e]) else Nesting(a) + Nesting(b[..e - |a|])
  {
    if e < |a| {
      assert (a + b)[..e] == a[..e];
    } else {
      assert (a + b)[..e] == a + b[..e - |a|];
      NestingAppend(a, b[..e - |a|]);
    }
  }

  /** Pieces follow one another. */
  lemma PieceAppend<D(!new)>(t: Thread, db: D, a: seq<Action<D>>, mid: D, b: seq<Action<D>>, next: D)
    requires Piece(t, db, a, mid) && Piece(t, mid, b, next)
    ensures Piece(t, db, a + b, next)
  {
    IsolatedAppend(db, a, b);
    NestingAppend(a, b);
    DeepAppend(a, b);
    RunsAppend(t, db, a, mid, b, next);
    ExitsAppend(a, b);
  }

  lemma ExitsAppend<D>(a: seq<Action<D>>, b: seq<Action<D>>)
    requires ExitsRelease(a) && ExitsRelease(b) && (a != [] ==> !IsExit(a[|a| - 1]))
    ensures ExitsRelease(a + b)
  {
    var all := a + b;
    forall i | 0 <= i < |all| - 1 && IsExit(all[i]) ensures all[i + 1].Release? {
      if i >= |a| { assert all[i] == b[i - |a|] && all[i + 1] == b[i + 1 - |a|]; }
    }
  }

  lemma NestedRuns<D(!new)>(t: Thread, db: D, body: seq<Action<D>>, next: D, failed: bool)
    requires Runs(t, db, body, next)
    ensures Runs(t, db, Nested(t, body, failed), next)
  {
    forall rest, saved, pre | InsideOpen(pre)
      ensures Leads(Inside(rest, t, db, saved, true, pre), Nested(t, body, failed),
                    Inside(rest, t, next, saved, true, pre))
    {
      NestedLeads(rest, saved, pre, t, db, body, next, failed);
    }
  }

  lemma NestedLeads<D(!new)>(rest: map<Thread, seq<Frame>>, saved: D, pre: seq<Frame>, t: Thread, db: D,
                             body: seq<Action<D>>, next: D, failed: bool)
    requires Runs(t, db, body, next) && InsideOpen(pre)
    ensures Leads(Inside(rest, t, db, saved, true, pre), Nested(t, body, failed),
                  Inside(rest, t, next, saved, true, pre))
  {
    var s0, s2 := Inside(rest, t, db, saved, true, pre), Inside(rest, t, db, saved, true, pre + [Open(true)]);
    var s3, s5 := Inside(rest, t, next, saved, true, pre + [Open(true)]), Inside(rest, t, next, saved, true, pre);
    var exit := if failed then Fail(t) else Succeed(t);
    EnterInner(rest, saved, pre, t, db);
    LeadsOn(s0, [Acquire(t), Begin(t)], s2, body, s3);
    LeaveInner(rest, saved, pre, t, next, failed);
    LeadsOn(s0, [Acquire(t), Begin(t)] + body, s3, [exit, Release(t)], s5);
  }

  lemma TwoActions<D>(a: Action<D>, b: Action<D>)
    ensures [a] + [b] == [a, b]
  {
  }

  lemma EnterInner<D(!new)>(rest: map<Thread, seq<Frame>>, saved: D, pre: seq<Frame>, t: Thread, db: D)
    requires InsideOpen(pre)
    ensures Leads(Inside(rest, t, db, saved, true, pre), [Acquire(t), Begin(t)],
                  Inside(rest, t, db, saved, true, pre + [Open(true)]))
  {
    var s0, s1 := Inside(rest, t, db, saved, true, pre), Inside(rest, t, db, saved, true, pre + [Entering]);
    InsideAcquire(rest, t, db, saved, true, pre);
    LeadsOne(s0, Acquire(t), s1);
    InsideBegin(rest, t, db, saved, true, pre);
    LeadsStep(s0, [Acquire(t)], s1, Begin(t), Inside(rest, t, db, saved, true, pre + [Open(true)]));
    TwoActions<D>(Acquire(t), Begin(t));
  }

  lemma LeaveInner<D(!new)>(rest: map<Thread, seq<Frame>>, saved: D, pre: seq<Frame>, t: Thread, db: D, failed: bool)
    ensures Leads(Inside(rest, t, db, saved, true, pre + [Open(true)]),
                  [if failed then Fail(t) else Succeed(t), Release(t)], Inside(rest, t, db, saved, true, pre))
  {
    var s3 := Inside(rest, t, db, saved, true, pre + [Open(true)]);
    var s4 := Inside(rest, t, db, saved, true, pre + [Leaving]);
    var exit := if failed then Fail(t) else Succeed(t);
    InsideTop(rest, t, db, saved, true, pre, Open(true), Leaving);
    LeadsOne(s3, exit, s4);
    InsideRelease(rest, t, db, saved, true, pre);
    LeadsStep(s3, [exit], s4, Release(t), Inside(rest, t, db, saved, true, pre));
    TwoActions<D>(exit, Release(t));
  }

  lemma NestedNesting<D>(t: Thread, body: seq<Action<D>>, failed: bool, e: nat)
    requires Nesting(body) == 0 && e <= |body|
    ensures Nesting(Nested(t, body, failed)[..2 + e]) == 1 + Nesting(body[..e])
    ensures Nesting(Nested(t, body, failed)) == 0
  {
    var enter: seq<Action<D>>, leave := [Acquire(t), Begin(t)], [if failed then Fail(t) else Succeed(t), Release(t)];
    EnterNesting<D>(t);
    NestingAppend(enter, body[..e]);
    assert Nested(t, body, failed)[..2 + e] == enter + body[..e];
    NestingAppend(enter, body);
    NestingAppend(enter + body, leave);
    NestingAppend(leave[..1], leave[1..]);
    assert leave == leave[..1] + leave[1..] && leave[..1][..0] == [] && leave[1..][..0] == [];
  }

  lemma EnterNesting<D>(t: Thread)
    ensures Nesting<D>([Acquire(t), Begin(t)]) == 1
  {
    var a: seq<Action<D>>, b: seq<Action<D>> := [Acquire(t)], [Begin(t)];
    NestingAppend(a, b);
    assert [Acquire(t), Begin(t)] == a + b && a[..0] == [] && b[..0] == [];
  }

  lemma NestedDeep<D>(t: Thread, body: seq<Action<D>>, failed: bool)
    requires FailsDeep(body) && Nesting(body) == 0
    ensures FailsDeep(Nested(t, body, failed))
  {
    forall e | 0 <= e < |Nested(t, body, failed)| && Nested(t, body, failed)[e].Fail?
      ensures Nesting(Nested(t, body, failed)[..e]) >= 1
    {
      NestedFailAt(t, body, failed, e);
      NestedNesting(t, body, failed, e - 2);
    }
  }

  lemma NestedFailAt<D>(t: Thread, body: seq<Action<D>>, failed: bool, e: nat)
    requires FailsDeep(body) && Nesting(body) == 0
    requires e < |Nested(t, body, failed)| && Nested(t, body, failed)[e].Fail?
    ensures 2 <= e <= 2 + |body| && Nesting(body[..e - 2]) >= 0
  {
    if e == 2 + |body| {
      assert body[..|body|] == body;
    } else {
      assert Nested(t, body, failed)[e] == body[e - 2];
    }
  }

  lemma NestedIsolated<D>(t: Thread, db: D, body: seq<Action<D>>, failed: bool)
    requires Isolated(db, body)
    ensures Isolated(db, Nested(t, body, failed)) && Writes(db, Nested(t, body, failed)) == Writes(db, body)
  {
    var enter: seq<Action<D>>, leave := [Acquire(t), Begin(t)], [if failed then Fail(t) else Succeed(t), Release(t)];
    WritesNothing(db, enter);
    WritesNothing(Writes(db, body), leave);
    IsolatedAppend(db, enter, body);
    IsolatedAppend(db, enter + body, leave);
  }

  /** A nested block around a piece is a piece, with the same effect however it ends. */
  lemma NestedPiece<D(!new)>(t: Thread, db: D, body: seq<Action<D>>, next: D, failed: bool)
    requires Piece(t, db, body, next)
    ensures Piece(t, db, Nested(t, body, failed), next)
  {
    NestedNesting(t, body, failed, 0);
    NestedDeep(t, body, failed);
    NestedIsolated(t, db, body, failed);
    NestedRuns(t, db, body, next, failed);
    NestedExits(t, body, failed);
  }

  lemma NestedExits<D>(t: Thread, body: seq<Action<D>>, failed: bool)
    requires ExitsRelease(body) && (body != [] ==> !IsExit(body[|body| - 1])) && ByThread(body, t)
    ensures ExitsRelease(Nested(t, body, failed)) && ByThread(Nested(t, body, failed), t)
  {
    var enter: seq<Action<D>>, leave := [Acquire(t), Begin(t)], [if failed then Fail(t) else Succeed(t), Release(t)];
    ExitsAppend(enter, body);
    ExitsAppend(enter + body, leave);
  }

  // ---------- outermost blocks ----------

  /** Nobody is in a block, and no transaction is open. */
  ghost predicate LockFree<D>(s: State<D>, t: Thread) {
    s.owner == None && s.depth == 0 && !s.inTx && s.Stack(t) == []
  }

  /** From every state with a free lock, the protocol can take a thread through a block made of pieces; the
      lock is then free again and the tables are what the pieces make. */
  lemma BlockRuns<D(!new)>(t: Thread, db: D, body: seq<Action<D>>, next: D, s: State<D>)
    requires Runs(t, db, body, next) && LockFree(s, t) && s.tables == db
    ensures Leads(s, Nested(t, body, false), Inside(s.stacks, t, next, db, false, []))
  {
    var s2, s3 := Inside(s.stacks, t, db, db, true, [Open(false)]), Inside(s.stacks, t, next, db, true, [Open(false)]);
    var s5 := Inside(s.stacks, t, next, db, false, []);
    EnterOutermost(s, t);
    assert InsideOpen([Open(false)]);
    LeadsOn(s, [Acquire(t), Begin(t)], s2, body, s3);
    LeaveOutermost(s.stacks, t, next, db);
    LeadsOn(s, [Acquire(t), Begin(t)] + body, s3, [Succeed(t), Release(t)], s5);
  }

  lemma EnterOutermost<D(!new)>(s: State<D>, t: Thread)
    requires LockFree(s, t)
    ensures Leads(s, [Acquire(t), Begin(t)], Inside(s.stacks, t, s.tables, s.tables, true, [Open(false)]))
  {
    var pre: seq<Frame> := [];
    var s1 := Inside(s.stacks, t, s.tables, s.saved, false, pre + [Entering]);
    assert s.Stack(t) + [Entering] == pre + [Entering];
    LeadsOne(s, Acquire(t), s1);
    InsideBegin(s.stacks, t, s.tables, s.saved, false, pre);
    LeadsStep(s, [Acquire(t)], s1, Begin(t), Inside(s.stacks, t, s.tables, s.tables, true, pre + [Open(false)]));
    TwoActions<D>(Acquire(t), Begin(t));
    assert pre + [Open(false)] == [Open(false)];
  }

  lemma LeaveOutermost<D(!new)>(rest: map<Thread, seq<Frame>>, t: Thread, tables: D, saved: D)
    ensures Leads(Inside(rest, t, tables, saved, true, [Open(false)]), [Succeed(t), Release(t)],
                  Inside(rest, t, tables, saved, false, []))
  {
    var pre: seq<Frame> := [];
    var s3 := Inside(rest, t, tables, saved, true, pre + [Open(false)]);
    var s4 := Inside(rest, t, tables, saved, false, pre + [Leaving]);
    InsideTop(rest, t, tables, saved, true, pre, Open(false), Leaving);
    LeadsOne(s3, Succeed(t), s4);
    InsideRelease(rest, t, tables, saved, false, pre);
    LeadsStep(s3, [Succeed(t)], s4, Release(t), Inside(rest, t, tables, saved, false, pre));
    TwoActions<D>(Succeed(t), Release(t));
    assert pre + [Open(false)] == [Open(false)];
  }

  /** The block is complete and committed, and leaves what its pieces leave. */
  lemma BlockShape<D(!new)>(t: Thread, db: D, body: seq<Action<D>>, next: D)
    requires Piece(t, db, body, next)
    ensures Complete(Nested(t, body, false)) && Committed(Nested(t, body, false))
    ensures Isolated(db, Nested(t, body, false)) && Writes(db, Nested(t, body, false)) == next
  {
    NestedExits(t, body, false);
    NestedIsolated(t, db, body, false);
  }

  ghost predicate HasStatement<D>(b: seq<Action<D>>) {
    exists i :: 0 <= i < |b| && b[i].Exec?
  }

  lemma {:induction false} FirstStatement<D>(b: seq<Action<D>>, n: nat) returns (i: nat)
    requires n < |b| && b[n].Exec?
    ensures i < |b| && b[i].Exec? && forall j :: 0 <= j < i ==> !b[j].Exec?
    decreases n
  {
    i := n;
    if j :| 0 <= j < n && b[j].Exec? { i := FirstStatement(b, j); }
  }

  /** A block with a statement can have run on one state of the tables only. */
  lemma OneBase<D>(b: seq<Action<D>>, d: D, e: D)
    requires HasStatement(b) && Isolated(d, b) && Isolated(e, b)
    ensures d == e
  {
    var n :| 0 <= n < |b| && b[n].Exec?;
    var i := FirstStatement(b, n);
    WritesNothing(d, b[..i]);
    WritesNothing(e, b[..i]);
  }

  // ---------- swallowed exceptions ----------

  ghost predicate OnlyReads<D>(c: seq<Action<D>>) {
    forall i :: 0 <= i < |c| && c[i].Exec? ==> c[i].write(c[i].seen) == c[i].seen
  }

  /** As `FailsAround`, for a piece: one level of nesting is outside it. */
  ghost predicate FailsWithin<D>(c: seq<Action<D>>, i: nat, e: nat) {
    && i < e < |c| && c[e].Fail? && Nesting(c[..e]) >= 1
    && forall k :: i <= k <= e ==> Nesting(c[..k]) >= Nesting(c[..e])
  }

  /** No statement in a failed nested block of the piece changes what it saw. */
  ghost predicate Benign<D>(c: seq<Action<D>>) {
    forall i: nat, e: nat :: FailsWithin(c, i, e) && c[i].Exec? ==> c[i].write(c[i].seen) == c[i].seen
  }

  lemma BenignAppend<D>(a: seq<Action<D>>, b: seq<Action<D>>)
    requires Benign(a) && Benign(b) && Nesting(a) == 0
    ensures Benign(a + b)
  {
    var all := a + b;
    forall i: nat, e: nat | FailsWithin(all, i, e) && all[i].Exec? ensures all[i].write(all[i].seen) == all[i].seen {
      if i < |a| {
        assert all[..|a|] == a;
        assert e < |a|;
        forall k | 0 <= k <= e ensures all[..k] == a[..k] {}
        assert FailsWithin(a, i, e);
      } else {
        forall k | |a| <= k <= e ensures Nesting(all[..k]) == Nesting(b[..k - |a|]) {
          assert all[..k] == a + b[..k - |a|];
          NestingAppend(a, b[..k - |a|]);
        }
        WithinSecond(a, b, i, e);
      }
    }
  }

  lemma WithinSecond<D>(a: seq<Action<D>>, b: seq<Action<D>>, i: nat, e: nat)
    requires |a| <= i && FailsWithin(a + b, i, e)
    requires forall k :: |a| <= k <= e ==> Nesting((a + b)[..k]) == Nesting(b[..k - |a|])
    ensures FailsWithin(b, i - |a|, e - |a|)
  {
    forall k | i - |a| <= k <= e - |a| ensures Nesting(b[..k]) >= Nesting(b[..e - |a|]) {
      assert Nesting((a + b)[..k + |a|]) >= Nesting((a + b)[..e]);
    }
  }

  lemma NestedPositions<D>(t: Thread, body: seq<Action<D>>, i: nat, e: nat)
    requires i < e < |Nested(t, body, false)|
    requires Nested(t, body, false)[i].Exec? && Nested(t, body, false)[e].Fail?
    ensures 2 <= i && e < 2 + |body| && Nested(t, body, false)[i] == body[i - 2]
    ensures Nested(t, body, false)[e] == body[e - 2]
  {
  }

  lemma NestedWithin<D>(t: Thread, body: seq<Action<D>>, i: nat, e: nat)
    requires FailsDeep(body) && Nesting(body) == 0
    requires FailsWithin(Nested(t, body, false), i, e) && Nested(t, body, false)[i].Exec?
    ensures 2 <= i && FailsWithin(body, i - 2, e - 2) && Nested(t, body, false)[i] == body[i - 2]
  {
    NestedPositions(t, body, i, e);
    forall k | 0 <= k <= e - 2 ensures Nesting(Nested(t, body, false)[..2 + k]) == 1 + Nesting(body[..k]) {
      NestedNesting(t, body, false, k);
    }
    WithinBody(Nested(t, body, false), body, i, e);
  }

  lemma BenignNested<D>(t: Thread, body: seq<Action<D>>)
    requires Benign(body) && FailsDeep(body) && Nesting(body) == 0
    ensures Benign(Nested(t, body, false))
  {
    var c := Nested(t, body, false);
    forall i: nat, e: nat | FailsWithin(c, i, e) && c[i].Exec? ensures c[i].write(c[i].seen) == c[i].seen {
      NestedWithin(t, body, i, e);
    }
  }

  lemma WithinBody<D>(c: seq<Action<D>>, body: seq<Action<D>>, i: nat, e: nat)
    requires FailsWithin(c, i, e) && 2 <= i && e < 2 + |body| <= |c| && c[e] == body[e - 2] && FailsDeep(body)
    requires forall k :: 0 <= k <= e - 2 ==> Nesting(c[..2 + k]) == 1 + Nesting(body[..k])
    ensures FailsWithin(body, i - 2, e - 2)
  {
    forall k | i - 2 <= k <= e - 2 ensures Nesting(body[..k]) >= Nesting(body[..e - 2]) {
      assert Nesting(c[..2 + k]) >= Nesting(c[..e]);
    }
  }

  /** An outermost block of benign pieces keeps no write of a failed nested block. */
  lemma BlockBenign<D>(t: Thread, body: seq<Action<D>>)
    requires Benign(body) && FailsDeep(body) && Nesting(body) == 0
    ensures FailedOnlyRead(Nested(t, body, false))
  {
    var b := Nested(t, body, false);
    BenignNested(t, body);
    forall i | 0 <= i < |b| && b[i].Exec? && InFailed(b, i) ensures b[i].write(b[i].seen) == b[i].seen {
      var e: nat :| FailsAround(b, i, e);
      assert FailsWithin(b, i, e);
    }
  }
}
