/** `get_fcp_conn`: a re-entrant lock around one shared connection, with a transaction
    that only the outermost block begins and ends. Any number of threads, any nesting. */
module FcpTransactions {
  import opened Lists

  type Thread = nat

  /** How far a `with get_fcp_conn()` block has come: lock taken, body running, transaction dealt with. */
  datatype Frame = Entering | Open(skipCommit: bool) | Leaving

  /** One atomic step of a thread. `Exec` is a statement of the body: what it saw and how it changed it.
      `Stick` is an outermost exit whose COMMIT or ROLLBACK raises and leaves the transaction open. */
  datatype Action<!D> =
    | Acquire(t: Thread)
    | Begin(t: Thread)
    | Exec(t: Thread, seen: D, write: D -> D)
    | Succeed(t: Thread)
    | Fail(t: Thread)
    | Stick(t: Thread)
    | Release(t: Thread)

  /** The shared connection and lock, and each thread's stack of blocks. */
  datatype State<D> = State(tables: D, saved: D, inTx: bool, owner: Option<Thread>, depth: nat,
                            stacks: map<Thread, seq<Frame>>) {
    function Stack(t: Thread): seq<Frame> {
      if t in stacks then stacks[t] else []
    }

    predicate Top(t: Thread, f: Frame) {
      Stack(t) != [] && Stack(t)[|Stack(t)| - 1] == f
    }

    predicate Running(t: Thread) {
      Stack(t) != [] && Stack(t)[|Stack(t)| - 1].Open?
    }

    function SetTop(t: Thread, f: Frame): State<D>
      requires Stack(t) != []
    {
      this.(stacks := stacks[t := Stack(t)[..|Stack(t)| - 1] + [f]])
    }
  }

  ghost function Initial<D>(d: D): State<D> {
    State(d, d, false, None, 0, map[])
  }

  ghost predicate Step<D>(s: State<D>, a: Action<D>, n: State<D>) {
    match a
    case Acquire(t) =>
      && (s.Stack(t) == [] || s.Running(t)) && (s.owner == None || s.owner == Some(t))
      && n == s.(owner := Some(t), depth := s.depth + 1, stacks := s.stacks[t := s.Stack(t) + [Entering]])
    case Begin(t) =>
      && s.Top(t, Entering)
      && n == if s.inTx then s.SetTop(t, Open(true))
              else s.SetTop(t, Open(false)).(inTx := true, saved := s.tables)
    case Exec(t, seen, write) =>
      s.Running(t) && seen == s.tables && n == s.(tables := write(s.tables))
    case Succeed(t) =>
      && s.Running(t)
      && n == if s.Top(t, Open(true)) then s.SetTop(t, Leaving) else s.SetTop(t, Leaving).(inTx := false)
    case Fail(t) =>
      && s.Running(t)
      && n == if s.Top(t, Open(true)) then s.SetTop(t, Leaving)
              else s.SetTop(t, Leaving).(inTx := false, tables := s.saved)
    case Stick(t) =>
      s.Top(t, Open(false)) && n == s.SetTop(t, Leaving)
    case Release(t) =>
      && s.Top(t, Leaving) && s.depth > 0
      && n == s.(depth := s.depth - 1, owner := if s.depth == 1 then None else s.owner,
                 stacks := s.stacks[t := s.Stack(t)[..|s.Stack(t)| - 1]])
  }

  ghost predicate Run<D>(d: D, states: seq<State<D>>, trace: seq<Action<D>>) {
    && |states| == |trace| + 1 && states[0] == Initial(d)
    && forall i :: 0 <= i < |trace| ==> StepAt(states, trace, i)
  }

  ghost predicate StepAt<D>(states: seq<State<D>>, trace: seq<Action<D>>, i: nat)
    requires i < |trace| < |states|
  {
    Step(states[i], trace[i], states[i + 1])
  }

  /** No COMMIT or ROLLBACK has raised. */
  ghost predicate Healthy<D>(trace: seq<Action<D>>) {
    forall i :: 0 <= i < |trace| ==> !trace[i].Stick?
  }

  // ---------- reading a trace as a series of outermost blocks ----------

  ghost function Nesting<D>(b: seq<Action<D>>): int {
    if b == [] then 0
    else
      var a := b[|b| - 1];
      Nesting(b[..|b| - 1]) + if a.Acquire? then 1 else if a.Release? then -1 else 0
  }

  /** The completed outermost blocks of a trace, and the one still open. */
  ghost function Split<D>(trace: seq<Action<D>>): (seq<seq<Action<D>>>, seq<Action<D>>) {
    if trace == [] then ([], [])
    else
      var (done, open) := Split(trace[..|trace| - 1]);
      var more := open + [trace[|trace| - 1]];
      if Nesting(more) == 0 then (done + [more], []) else (done, more)
  }

  ghost function Flatten<D>(bs: seq<seq<Action<D>>>): seq<Action<D>> {
    if bs == [] then [] else Flatten(bs[..|bs| - 1]) + bs[|bs| - 1]
  }

  lemma FlattenSnoc<D>(bs: seq<seq<Action<D>>>, b: seq<Action<D>>)
    ensures Flatten(bs + [b]) == Flatten(bs) + b
  {
    assert (bs + [b])[..|bs|] == bs;
  }

  /** Splitting loses and reorders nothing. */
  lemma {:induction false} SplitFlattens<D>(trace: seq<Action<D>>)
    ensures Flatten(Split(trace).0) + Split(trace).1 == trace
  {
    if trace != [] {
      var init, a := trace[..|trace| - 1], trace[|trace| - 1];
      SplitFlattens(init);
      var (done, open) := Split(init);
      FlattenSnoc(done, open + [a]);
      assert Flatten(done) + (open + [a]) == (Flatten(done) + open) + [a] == trace;
      assert Flatten(done + [open + [a]]) + [] == Flatten(done + [open + [a]]);
    }
  }

  /** The statements of a block applied in order. */
  ghost function Writes<D>(d: D, b: seq<Action<D>>): D {
    if b == [] then d
    else
      var a := b[|b| - 1];
      var before := Writes(d, b[..|b| - 1]);
      if a.Exec? then a.write(before) else before
  }

  predicate Committed<D>(b: seq<Action<D>>) {
    |b| >= 2 && b[|b| - 2].Succeed?
  }

  /** A block run on its own: all of its statements, or none if it ended by an exception. */
  ghost function Effect<D>(d: D, b: seq<Action<D>>): D {
    if Committed(b) then Writes(d, b) else d
  }

  ghost function Serial<D>(d: D, bs: seq<seq<Action<D>>>): D {
    if bs == [] then d else Effect(Serial(d, bs[..|bs| - 1]), bs[|bs| - 1])
  }

  /** Every statement saw the block's own earlier writes on top of `d`, and nothing else. */
  ghost predicate Isolated<D>(d: D, b: seq<Action<D>>) {
    forall i :: 0 <= i < |b| && b[i].Exec? ==> b[i].seen == Writes(d, b[..i])
  }

  ghost predicate ByThread<D>(b: seq<Action<D>>, t: Thread) {
    forall i :: 0 <= i < |b| ==> b[i].t == t
  }

  predicate IsExit<D>(a: Action<D>) {
    a.Succeed? || a.Fail?
  }

  /** Leaving a block releases the lock at once. */
  ghost predicate ExitsRelease<D>(b: seq<Action<D>>) {
    forall i :: 0 <= i < |b| - 1 && IsExit(b[i]) ==> b[i + 1].Release?
  }

  ghost predicate Complete<D>(b: seq<Action<D>>) {
    && (exists t :: ByThread(b, t))
    && |b| >= 2 && b[|b| - 1].Release? && IsExit(b[|b| - 2])
    && ExitsRelease(b)
  }

  // ---------- the lock and the stacks ----------

  /** Only the outermost block has begun the transaction; the blocks above it skip the commit. */
  ghost predicate Shaped(st: seq<Frame>, inTx: bool) {
    && st != [] && st[0] != Open(true) && (inTx <==> st[0] == Open(false))
    && (forall i :: 0 < i < |st| ==> st[i] != Open(false))
    && (forall i :: 0 <= i < |st| - 1 ==> st[i].Open?)
  }

  ghost predicate LockInv<D>(s: State<D>) {
    && (s.owner.None? ==> s.depth == 0 && !s.inTx)
    && (forall t: Thread :: s.Stack(t) != [] ==> s.owner == Some(t))
    && (s.owner.Some? ==> |s.Stack(s.owner.value)| == s.depth && Shaped(s.Stack(s.owner.value), s.inTx))
  }

  lemma LockStep<D>(s: State<D>, a: Action<D>, n: State<D>)
    requires LockInv(s) && Step(s, a, n) && !a.Stick?
    ensures LockInv(n)
  {
    var t := a.t;
    var st, next := s.Stack(t), n.Stack(t);
    assert forall u: Thread :: u != t ==> n.Stack(u) == s.Stack(u);
    if a.Release? && s.depth > 1 {
      assert next[|next| - 1] == st[|next| - 1];
    }
  }

  /** The thread that acts holds the lock afterwards, unless it has just left its outermost block. */
  lemma ActorOwns<D>(s: State<D>, a: Action<D>, n: State<D>)
    requires LockInv(s) && Step(s, a, n) && !a.Stick?
    ensures s.owner == None ==> a.Acquire?
    ensures s.owner.Some? ==> s.owner == Some(a.t)
    ensures n.owner == if a.Release? && s.depth == 1 then None else Some(a.t)
    ensures n.depth == s.depth + if a.Acquire? then 1 else if a.Release? then -1 else 0
  {
  }

  // ---------- the tables ----------

  ghost predicate BlockInv<D>(base: D, s: State<D>, open: seq<Action<D>>) {
    && Nesting(open) == s.depth
    && (s.owner.None? ==> open == [] && s.tables == base)
    && (s.owner.Some? ==>
          var t := s.owner.value;
          && open != [] && ByThread(open, t) && Isolated(base, open) && ExitsRelease(open)
          && (s.Top(t, Leaving) <==> IsExit(open[|open| - 1]))
          && TablesInv(base, s, open))
  }

  /** What the tables hold, by the state of the outermost block. */
  ghost predicate TablesInv<D>(base: D, s: State<D>, open: seq<Action<D>>)
    requires s.owner.Some? && open != []
  {
    var st := s.Stack(s.owner.value);
    && (st != [] && st[0].Entering? ==> s.tables == base == Writes(base, open))
    && (s.inTx ==> s.saved == base && s.tables == Writes(base, open))
    && (st != [] && st[0].Leaving? ==> s.tables == if open[|open| - 1].Succeed? then Writes(base, open) else base)
  }

  lemma Snoc<D>(d: D, b: seq<Action<D>>, a: Action<D>)
    ensures Nesting(b + [a]) == Nesting(b) + if a.Acquire? then 1 else if a.Release? then -1 else 0
    ensures Writes(d, b + [a]) == if a.Exec? then a.write(Writes(d, b)) else Writes(d, b)
  {
    assert (b + [a])[..|b|] == b;
  }

  lemma IsolatedSnoc<D>(d: D, b: seq<Action<D>>, a: Action<D>)
    requires Isolated(d, b) && (a.Exec? ==> a.seen == Writes(d, b))
    ensures Isolated(d, b + [a])
  {
    var more := b + [a];
    forall i | 0 <= i < |more| && more[i].Exec? ensures more[i].seen == Writes(d, more[..i]) {
      if i < |b| { assert more[..i] == b[..i]; } else { assert more[..i] == b; }
    }
  }

  /** The tables follow the outermost block through a step that stays in it. */
  lemma TablesStep<D>(base: D, s: State<D>, a: Action<D>, n: State<D>, open: seq<Action<D>>)
    requires LockInv(s) && Step(s, a, n) && !a.Stick? && n.owner.Some?
    requires s.owner.None? ==> open == [] && s.tables == base
    requires s.owner.Some? ==> open != [] && TablesInv(base, s, open)
    ensures TablesInv(base, n, open + [a])
  {
    ActorOwns(s, a, n);
    Snoc(base, open, a);
    var st, next := s.Stack(a.t), n.Stack(a.t);
    match a
    case Acquire(_) =>
      if s.owner.None? { assert next == [Entering]; } else { assert next[0] == st[0]; }
    case Begin(_) =>
      if |st| > 1 { assert next[0] == st[0]; }
    case Exec(_, _, _) =>
    case Succeed(_) =>
      if |st| > 1 { assert next[0] == st[0] && st[|st| - 1] == Open(true); }
    case Fail(_) =>
      if |st| > 1 { assert next[0] == st[0] && st[|st| - 1] == Open(true); }
    case Release(_) =>
      assert |st| > 1 && next[0] == st[0];
  }

  lemma TopStep<D>(s: State<D>, a: Action<D>, n: State<D>)
    requires LockInv(s) && Step(s, a, n) && !a.Stick? && n.owner.Some?
    ensures n.Top(a.t, Leaving) <==> IsExit(a)
  {
    ActorOwns(s, a, n);
    var st, next := s.Stack(a.t), n.Stack(a.t);
    if a.Release? { assert next[|next| - 1] == st[|next| - 1]; }
  }

  /** A step inside or into a block. */
  lemma InnerStep<D>(base: D, s: State<D>, a: Action<D>, n: State<D>, open: seq<Action<D>>)
    requires LockInv(s) && BlockInv(base, s, open) && Step(s, a, n) && !a.Stick? && n.owner.Some?
    ensures BlockInv(base, n, open + [a])
  {
    ActorOwns(s, a, n);
    TopStep(s, a, n);
    TablesStep(base, s, a, n, open);
    Snoc(base, open, a);
    SeenIsOwn(base, s, a, n, open);
    IsolatedSnoc(base, open, a);
    ShapeSnoc(s, a, n, open);
  }

  /** What a statement sees is the block's own writes on top of the base. */
  lemma SeenIsOwn<D>(base: D, s: State<D>, a: Action<D>, n: State<D>, open: seq<Action<D>>)
    requires LockInv(s) && BlockInv(base, s, open) && Step(s, a, n) && !a.Stick?
    ensures Isolated(base, open) && (a.Exec? ==> a.seen == Writes(base, open))
  {
    ActorOwns(s, a, n);
    if a.Exec? {
      var st := s.Stack(a.t);
      if |st| > 1 { assert st[0].Open?; }
      assert s.inTx;
    }
  }

  lemma ShapeSnoc<D>(s: State<D>, a: Action<D>, n: State<D>, open: seq<Action<D>>)
    requires LockInv(s) && Step(s, a, n) && !a.Stick?
    requires s.owner.None? ==> open == []
    requires s.owner.Some? ==>
      && open != [] && ByThread(open, s.owner.value) && ExitsRelease(open)
      && (s.Top(s.owner.value, Leaving) <==> IsExit(open[|open| - 1]))
    ensures ByThread(open + [a], a.t) && ExitsRelease(open + [a])
  {
    ActorOwns(s, a, n);
  }

  /** The step that leaves an outermost block. */
  lemma OuterExit<D>(base: D, s: State<D>, a: Action<D>, n: State<D>, open: seq<Action<D>>)
    requires LockInv(s) && BlockInv(base, s, open) && Step(s, a, n) && !a.Stick? && n.owner.None?
    ensures Nesting(open + [a]) == 0 && Complete(open + [a]) && Isolated(base, open + [a])
    ensures n.tables == Effect(base, open + [a])
    ensures BlockInv(n.tables, n, [])
  {
    ActorOwns(s, a, n);
    Snoc(base, open, a);
    IsolatedSnoc(base, open, a);
    assert |s.Stack(a.t)| == 1;
    assert ByThread(open + [a], a.t);
  }

  // ---------- serialisability ----------

  ghost predicate History<D>(d: D, s: State<D>, trace: seq<Action<D>>) {
    var (done, open) := Split(trace);
    && LockInv(s) && BlockInv(Serial(d, done), s, open)
    && forall i :: 0 <= i < |done| ==> Complete(done[i]) && Isolated(Serial(d, done[..i]), done[i])
  }

  /** A step that stays in or enters a block. */
  lemma InnerHistory<D>(d: D, s: State<D>, a: Action<D>, n: State<D>, trace: seq<Action<D>>)
    requires History(d, s, trace) && Step(s, a, n) && !a.Stick? && n.owner.Some?
    ensures History(d, n, trace + [a])
  {
    var (done, open) := Split(trace);
    assert (trace + [a])[..|trace|] == trace;
    LockStep(s, a, n);
    InnerStep(Serial(d, done), s, a, n, open);
    ActorOwns(s, a, n);
    assert Nesting(open + [a]) == n.depth > 0;
    assert Split(trace + [a]) == (done, open + [a]);
  }

  lemma DoneBlocks<D>(d: D, done: seq<seq<Action<D>>>, b: seq<Action<D>>)
    requires forall i :: 0 <= i < |done| ==> Complete(done[i]) && Isolated(Serial(d, done[..i]), done[i])
    requires Complete(b) && Isolated(Serial(d, done), b)
    ensures Serial(d, done + [b]) == Effect(Serial(d, done), b)
    ensures var more := done + [b];
            forall i :: 0 <= i < |more| ==> Complete(more[i]) && Isolated(Serial(d, more[..i]), more[i])
  {
    var more := done + [b];
    assert more[..|done|] == done;
    forall i | 0 <= i < |more| ensures Complete(more[i]) && Isolated(Serial(d, more[..i]), more[i]) {
      if i < |done| { assert more[..i] == done[..i]; }
    }
  }

  /** The step that leaves an outermost block. */
  lemma OuterHistory<D>(d: D, s: State<D>, a: Action<D>, n: State<D>, trace: seq<Action<D>>)
    requires History(d, s, trace) && Step(s, a, n) && !a.Stick? && n.owner.None?
    ensures History(d, n, trace + [a])
  {
    var (done, open) := Split(trace);
    assert (trace + [a])[..|trace|] == trace;
    LockStep(s, a, n);
    OuterExit(Serial(d, done), s, a, n, open);
    DoneBlocks(d, done, open + [a]);
    assert Split(trace + [a]) == (done + [open + [a]], []);
  }

  lemma HistoryStep<D>(d: D, s: State<D>, a: Action<D>, n: State<D>, trace: seq<Action<D>>)
    requires History(d, s, trace) && Step(s, a, n) && !a.Stick?
    ensures History(d, n, trace + [a])
  {
    if n.owner.Some? { InnerHistory(d, s, a, n, trace); } else { OuterHistory(d, s, a, n, trace); }
  }

  lemma InitialHistory<D>(d: D)
    ensures History(d, Initial(d), [])
  {
  }

  lemma HealthyPrefix<D>(trace: seq<Action<D>>, n: nat)
    requires 0 < n <= |trace| && Healthy(trace[..n])
    ensures Healthy(trace[..n - 1]) && !trace[n - 1].Stick?
  {
    assert trace[..n][n - 1] == trace[n - 1];
    forall i | 0 <= i < n - 1 ensures !trace[i].Stick? { assert trace[..n][i] == trace[i]; }
  }

  lemma {:induction false} EveryHistory<D>(d: D, states: seq<State<D>>, trace: seq<Action<D>>, n: nat)
    requires Run(d, states, trace) && n <= |trace| && Healthy(trace[..n])
    ensures History(d, states[n], trace[..n])
  {
    if n == 0 {
      InitialHistory(d);
      assert trace[..0] == [];
    } else {
      var prefix := trace[..n - 1];
      HealthyPrefix(trace, n);
      EveryHistory(d, states, trace, n - 1);
      assert StepAt(states, trace, n - 1);
      HistoryStep(d, states[n - 1], trace[n - 1], states[n], prefix);
      assert trace[..n] == prefix + [trace[n - 1]];
    }
  }

  /** Whenever the lock is free, the run so far is a series of complete blocks of single threads, each of
      which saw only its own writes on the state left by the blocks before it, and the tables are what
      running those blocks one after another gives. */
  lemma Serialisable<D>(d: D, states: seq<State<D>>, trace: seq<Action<D>>, n: nat)
    requires Run(d, states, trace) && n <= |trace| && states[n].owner.None? && Healthy(trace[..n])
    ensures
      var done := Split(trace[..n]).0;
      && Flatten(done) == trace[..n] && states[n].tables == Serial(d, done)
      && forall i :: 0 <= i < |done| ==> Complete(done[i]) && Isolated(Serial(d, done[..i]), done[i])
  {
    EveryHistory(d, states, trace, n);
    SplitFlattens(trace[..n]);
  }

  /** `skip_commit` is true only inside the same thread's open transaction, false only outermost. */
  lemma SkipsOnlyNested<D>(d: D, states: seq<State<D>>, trace: seq<Action<D>>, n: nat, t: Thread, i: nat)
    requires Run(d, states, trace) && n <= |trace| && Healthy(trace[..n])
    requires i < |states[n].Stack(t)| && states[n].Stack(t)[i].Open?
    ensures states[n].owner == Some(t) && states[n].inTx && states[n].Stack(t)[0] == Open(false)
    ensures states[n].Stack(t)[i].skipCommit <==> i > 0
  {
    EveryHistory(d, states, trace, n);
    var st := states[n].Stack(t);
    if i > 0 { assert st[0].Open?; }
  }

  // ---------- a COMMIT or ROLLBACK that raises ----------

  /** The transaction is open and no block will end it. */
  ghost predicate Stuck<D>(s: State<D>) {
    s.inTx && forall t: Thread, i: nat :: i < |s.Stack(t)| ==> s.Stack(t)[i] != Open(false)
  }

  /** No block body is running. */
  ghost predicate Quiet<D>(s: State<D>) {
    forall t: Thread :: |s.Stack(t)| <= 1 && (s.Stack(t) != [] ==> !s.Stack(t)[0].Open?)
  }

  lemma StickStep<D>(s: State<D>, a: Action<D>, n: State<D>)
    requires LockInv(s) && Step(s, a, n) && a.Stick?
    ensures Stuck(n) && Quiet(n) && n.saved == s.saved
  {
    assert |s.Stack(a.t)| == 1;
    assert forall u: Thread :: u != a.t ==> n.Stack(u) == s.Stack(u) == [];
  }

  lemma StuckStep<D>(s: State<D>, a: Action<D>, n: State<D>)
    requires Stuck(s) && Step(s, a, n)
    ensures Stuck(n) && n.saved == s.saved && !a.Stick?
    ensures Quiet(s) && !a.Begin? ==> Quiet(n)
    ensures Quiet(s) && a.Begin? ==> n.Stack(a.t) == [Open(true)]
  {
    assert forall u: Thread :: u != a.t ==> n.Stack(u) == s.Stack(u);
    var st := s.Stack(a.t);
    if st != [] { assert st[|st| - 1] != Open(false); }
  }

  /** After such an exit the transaction stays open for good: no later block of any thread commits or rolls
      back, whatever it does, and what a rollback would restore never changes. */
  lemma {:induction false} StuckForever<D>(d: D, states: seq<State<D>>, trace: seq<Action<D>>, k: nat, n: nat)
    requires Run(d, states, trace) && k < n <= |trace| && Healthy(trace[..k]) && trace[k].Stick?
    ensures Stuck(states[n]) && states[n].saved == states[k].saved
    ensures forall i :: k < i < n ==> !trace[i].Stick?
    ensures (forall i :: k < i < n ==> !trace[i].Begin?) ==> Quiet(states[n])
  {
    if n == k + 1 {
      EveryHistory(d, states, trace, k);
      assert StepAt(states, trace, k);
      StickStep(states[k], trace[k], states[n]);
    } else {
      StuckForever(d, states, trace, k, n - 1);
      assert StepAt(states, trace, n - 1);
      StuckStep(states[n - 1], trace[n - 1], states[n]);
    }
  }

  /** Every open block skips the commit exactly when it is nested. */
  ghost predicate SkipsRight<D>(s: State<D>) {
    forall t: Thread, i: nat :: i < |s.Stack(t)| && s.Stack(t)[i].Open? ==> (s.Stack(t)[i].skipCommit <==> i > 0)
  }

  ghost predicate BeginsAfterStick<D>(trace: seq<Action<D>>, k: int, m: int) {
    0 <= k < m < |trace| && trace[k].Stick? && trace[m].Begin?
  }

  lemma {:induction false} FirstStick<D>(trace: seq<Action<D>>, n: nat) returns (k: nat)
    requires n <= |trace| && !Healthy(trace[..n])
    ensures k < n && trace[k].Stick? && Healthy(trace[..k])
    decreases n
  {
    if Healthy(trace[..n - 1]) {
      k := n - 1;
    } else {
      k := FirstStick(trace, n - 1);
    }
  }

  lemma {:induction false} FirstBegin<D>(trace: seq<Action<D>>, k: nat, n: nat) returns (m: nat)
    requires k < n < |trace| && trace[n].Begin?
    ensures k < m <= n && trace[m].Begin? && forall i :: k < i < m ==> !trace[i].Begin?
    decreases n
  {
    m := n;
    if i :| k < i < n && trace[i].Begin? { m := FirstBegin(trace, k, i); }
  }

  /** A block begun after a stuck exit skips the commit although it is outermost. */
  lemma StuckSkipsWrongly<D>(d: D, states: seq<State<D>>, trace: seq<Action<D>>, k: nat, n: nat) returns (m: nat)
    requires Run(d, states, trace) && k < n < |trace| && Healthy(trace[..k]) && trace[k].Stick? && trace[n].Begin?
    ensures k < m < |trace| && !SkipsRight(states[m + 1])
  {
    m := FirstBegin(trace, k, n);
    StuckForever(d, states, trace, k, m);
    assert StepAt(states, trace, m);
    StuckStep(states[m], trace[m], states[m + 1]);
    assert states[m + 1].Stack(trace[m].t)[0] == Open(true);
  }

  lemma SkipsRightAt<D>(d: D, states: seq<State<D>>, trace: seq<Action<D>>, n: nat)
    requires Run(d, states, trace) && n <= |trace| && forall k, m :: !BeginsAfterStick(trace, k, m)
    ensures SkipsRight(states[n])
  {
    if Healthy(trace[..n]) {
      forall t: Thread, i: nat | i < |states[n].Stack(t)| && states[n].Stack(t)[i].Open?
        ensures states[n].Stack(t)[i].skipCommit <==> i > 0
      {
        SkipsOnlyNested(d, states, trace, n, t, i);
      }
    } else {
      var k := FirstStick(trace, n);
      forall i | k < i < n ensures !trace[i].Begin? { assert !BeginsAfterStick(trace, k, i); }
      StuckForever(d, states, trace, k, n);
    }
  }

  /** Throughout a run the commit is skipped by exactly the nested blocks, if and only if no block begins
      after an exit whose COMMIT or ROLLBACK raised. */
  lemma SkipsExactly<D>(d: D, states: seq<State<D>>, trace: seq<Action<D>>)
    requires Run(d, states, trace)
    ensures (forall n :: 0 <= n <= |trace| ==> SkipsRight(states[n])) <==> forall k, m :: !BeginsAfterStick(trace, k, m)
  {
    if forall k, m :: !BeginsAfterStick(trace, k, m) {
      forall n | 0 <= n <= |trace| ensures SkipsRight(states[n]) { SkipsRightAt(d, states, trace, n); }
    }
    if k, m :| BeginsAfterStick(trace, k, m) {
      assert trace[..m][k] == trace[k];
      var first := FirstStick(trace, m);
      var n := StuckSkipsWrongly(d, states, trace, first, m);
    }
  }

  // ---------- exceptions ----------

  /** An exception that leaves a nested block also leaves the block around it. */
  ghost predicate NoSwallow<D>(b: seq<Action<D>>) {
    forall i :: 0 <= i && i + 2 < |b| && b[i].Fail? && b[i + 1].Release? ==> b[i + 2].Fail?
  }

  lemma {:induction false} FailureSpreads<D>(b: seq<Action<D>>, i: nat)
    requires ExitsRelease(b) && NoSwallow(b) && |b| >= 2 && IsExit(b[|b| - 2]) && i < |b| - 1 && b[i].Fail?
    requires b[|b| - 1].Release?
    ensures b[|b| - 2].Fail?
    decreases |b| - i
  {
    assert b[i + 1].Release?;
    if i + 2 < |b| {
      assert b[i + 2].Fail?;
      FailureSpreads(b, i + 2);
    }
  }

  ghost predicate HasFailure<D>(b: seq<Action<D>>) {
    exists i :: 0 <= i < |b| && b[i].Fail?
  }

  /** A committed block met no exception exactly when it swallowed none. */
  lemma CommittedClean<D>(b: seq<Action<D>>)
    requires Complete(b) && Committed(b)
    ensures NoSwallow(b) <==> !HasFailure(b)
  {
    if i :| 0 <= i < |b| && b[i].Fail? && NoSwallow(b) {
      FailureSpreads(b, i);
    }
  }

  /** An exception anywhere in an outermost block keeps all of its writes out of the tables, if and only if
      the block does not both swallow an exception and commit. */
  lemma AllOrNothing<D>(d: D, b: seq<Action<D>>)
    requires Complete(b)
    ensures (HasFailure(b) ==> !Committed(b)) <==> (Committed(b) ==> NoSwallow(b))
    ensures Effect(d, b) == (if HasFailure(b) then d else Writes(d, b)) <==>
            (Committed(b) ==> NoSwallow(b)) || Writes(d, b) == d
  {
    if Committed(b) {
      CommittedClean(b);
    } else {
      assert b[|b| - 2].Fail?;
    }
  }

  /** Statement `i` lies in a nested block that ends by an exception, directly or in a block within it: until
      that end the nesting does not fall below the level of the failing block. */
  ghost predicate InFailed<D>(b: seq<Action<D>>, i: nat) {
    exists e :: FailsAround(b, i, e)
  }

  ghost predicate FailsAround<D>(b: seq<Action<D>>, i: nat, e: nat) {
    && i < e < |b| && b[e].Fail? && Nesting(b[..e]) >= 2
    && forall k :: i <= k <= e ==> Nesting(b[..k]) >= Nesting(b[..e])
  }

  /** The statements among the first `n` actions that lie in no failed nested block, applied in order. */
  ghost function Surviving<D>(d: D, b: seq<Action<D>>, n: nat): D
    requires n <= |b|
  {
    if n == 0 then d
    else
      var before := Surviving(d, b, n - 1);
      if b[n - 1].Exec? && !InFailed(b, n - 1) then b[n - 1].write(before) else before
  }

  /** No statement of a failed nested block changes what it saw. */
  ghost predicate FailedOnlyRead<D>(b: seq<Action<D>>) {
    forall i :: 0 <= i < |b| && b[i].Exec? && InFailed(b, i) ==> b[i].write(b[i].seen) == b[i].seen
  }

  lemma WritesNext<D>(d: D, b: seq<Action<D>>, i: nat)
    requires i < |b|
    ensures Writes(d, b[..i + 1]) == if b[i].Exec? then b[i].write(Writes(d, b[..i])) else Writes(d, b[..i])
  {
    assert b[..i + 1][..i] == b[..i];
  }

  lemma {:induction false} ReadersSurvive<D>(d: D, b: seq<Action<D>>, n: nat)
    requires Isolated(d, b) && FailedOnlyRead(b) && n <= |b|
    ensures Writes(d, b[..n]) == Surviving(d, b, n)
  {
    if n > 0 {
      ReadersSurvive(d, b, n - 1);
      WritesNext(d, b, n - 1);
    }
  }

  /** The writes of failed nested blocks stay out of the tables at every point of a block, if and only if the
      failed nested blocks wrote nothing. */
  lemma FailedWritesStayOut<D>(d: D, b: seq<Action<D>>)
    requires Isolated(d, b)
    ensures (forall n :: 0 <= n <= |b| ==> Writes(d, b[..n]) == Surviving(d, b, n)) <==> FailedOnlyRead(b)
  {
    if FailedOnlyRead(b) {
      forall n | 0 <= n <= |b| ensures Writes(d, b[..n]) == Surviving(d, b, n) { ReadersSurvive(d, b, n); }
    }
    if forall n :: 0 <= n <= |b| ==> Writes(d, b[..n]) == Surviving(d, b, n) {
      forall i | 0 <= i < |b| && b[i].Exec? && InFailed(b, i) ensures b[i].write(b[i].seen) == b[i].seen {
        WritesNext(d, b, i);
        assert Writes(d, b[..i + 1]) == Surviving(d, b, i + 1);
        assert Writes(d, b[..i]) == Surviving(d, b, i);
      }
    }
  }

  /** Where the failed nested blocks wrote nothing, swallowing their exceptions is harmless. */
  lemma SwallowingHarmless<D>(d: D, b: seq<Action<D>>)
    requires Isolated(d, b) && FailedOnlyRead(b) && Committed(b)
    ensures Effect(d, b) == Surviving(d, b, |b|)
  {
    FailedWritesStayOut(d, b);
    assert b[..|b|] == b;
  }

  lemma {:induction false} WritesAppend<D>(d: D, a: seq<Action<D>>, b: seq<Action<D>>)
    ensures Writes(d, a + b) == Writes(Writes(d, a), b)
    decreases |b|
  {
    if b == [] {
      assert a + b == a;
    } else {
      var init := b[..|b| - 1];
      assert (a + b)[..|a + b| - 1] == a + init;
      WritesAppend(d, a, init);
    }
  }

  lemma {:induction false} WritesNothing<D>(d: D, b: seq<Action<D>>)
    requires forall i :: 0 <= i < |b| ==> !b[i].Exec?
    ensures Writes(d, b) == d
  {
    if b != [] { WritesNothing(d, b[..|b| - 1]); }
  }

  /** A block whose nested block fails and whose own code carries on. */
  ghost function Swallowing<D>(d: D, w: D -> D): seq<Action<D>> {
    [Acquire(0), Begin(0), Acquire(0), Begin(0)] + [Exec(0, d, w)] + [Fail(0), Release(0), Succeed(0), Release(0)]
  }

  /** Thread `t` inside the given blocks, on top of the other stacks. */
  ghost function Inside<D>(rest: map<Thread, seq<Frame>>, t: Thread, tables: D, saved: D, inTx: bool,
                           st: seq<Frame>): State<D> {
    State(tables, saved, inTx, if st == [] then None else Some(t), |st|, rest[t := st])
  }

  lemma InsideTop<D>(rest: map<Thread, seq<Frame>>, t: Thread, tables: D, saved: D, inTx: bool, pre: seq<Frame>,
                   f: Frame, g: Frame)
    ensures Inside(rest, t, tables, saved, inTx, pre + [f]).SetTop(t, g)
            == Inside(rest, t, tables, saved, inTx, pre + [g])
  {
    assert (pre + [f])[..|pre|] == pre;
    assert rest[t := pre + [f]][t := pre + [g]] == rest[t := pre + [g]];
  }

  lemma InsideAcquire<D>(rest: map<Thread, seq<Frame>>, t: Thread, tables: D, saved: D, inTx: bool, pre: seq<Frame>)
    requires pre == [] || pre[|pre| - 1].Open?
    ensures Step(Inside(rest, t, tables, saved, inTx, pre), Acquire(t),
                 Inside(rest, t, tables, saved, inTx, pre + [Entering]))
  {
    assert rest[t := pre][t := pre + [Entering]] == rest[t := pre + [Entering]];
  }

  lemma InsideBegin<D>(rest: map<Thread, seq<Frame>>, t: Thread, tables: D, saved: D, inTx: bool, pre: seq<Frame>)
    ensures Step(Inside(rest, t, tables, saved, inTx, pre + [Entering]), Begin(t),
                 if inTx then Inside(rest, t, tables, saved, true, pre + [Open(true)])
                 else Inside(rest, t, tables, tables, true, pre + [Open(false)]))
  {
    InsideTop(rest, t, tables, saved, inTx, pre, Entering, Open(true));
    InsideTop(rest, t, tables, saved, inTx, pre, Entering, Open(false));
  }

  lemma InsideRelease<D>(rest: map<Thread, seq<Frame>>, t: Thread, tables: D, saved: D, inTx: bool, pre: seq<Frame>)
    ensures Step(Inside(rest, t, tables, saved, inTx, pre + [Leaving]), Release(t),
                 Inside(rest, t, tables, saved, inTx, pre))
  {
    assert (pre + [Leaving])[..|pre|] == pre;
    assert rest[t := pre + [Leaving]][t := pre] == rest[t := pre];
  }

  /** Thread 0 alone, inside the given blocks. */
  ghost function Alone<D>(tables: D, saved: D, inTx: bool, st: seq<Frame>): State<D> {
    Inside(map[], 0, tables, saved, inTx, st)
  }

  lemma AloneTop<D>(s: State<D>, pre: seq<Frame>, f: Frame, g: Frame)
    requires s == Alone(s.tables, s.saved, s.inTx, pre + [f])
    ensures s.SetTop(0, g) == Alone(s.tables, s.saved, s.inTx, pre + [g])
  {
    InsideTop(map[], 0, s.tables, s.saved, s.inTx, pre, f, g);
  }

  lemma AloneBegin<D>(s: State<D>, pre: seq<Frame>)
    requires s == Alone(s.tables, s.saved, s.inTx, pre + [Entering])
    ensures Step(s, Begin(0), if s.inTx then Alone(s.tables, s.saved, true, pre + [Open(true)])
                              else Alone(s.tables, s.tables, true, pre + [Open(false)]))
  {
    InsideBegin(map[], 0, s.tables, s.saved, s.inTx, pre);
  }

  lemma AloneRelease<D>(s: State<D>, pre: seq<Frame>)
    requires s == Alone(s.tables, s.saved, s.inTx, pre + [Leaving])
    ensures Step(s, Release(0), Alone(s.tables, s.saved, s.inTx, pre))
  {
    InsideRelease(map[], 0, s.tables, s.saved, s.inTx, pre);
  }

  lemma Extend<D>(d: D, states: seq<State<D>>, trace: seq<Action<D>>, a: Action<D>, n: State<D>)
    returns (more: seq<State<D>>, longer: seq<Action<D>>)
    requires Run(d, states, trace) && Step(states[|trace|], a, n)
    ensures more == states + [n] && longer == trace + [a] && Run(d, more, longer) && more[|longer|] == n
  {
    more, longer := states + [n], trace + [a];
    forall i | 0 <= i < |longer| ensures StepAt(more, longer, i) {
      if i < |trace| { assert StepAt(states, trace, i); }
    }
  }

  lemma EnterNested<D>(d: D) returns (states: seq<State<D>>, trace: seq<Action<D>>)
    ensures trace == [Acquire(0), Begin(0), Acquire(0), Begin(0)]
    ensures Run(d, states, trace) && states[4] == Alone(d, d, true, [Open(false)] + [Open(true)])
  {
    states, trace := [Initial(d)], [];
    var s1 := Alone(d, d, false, [] + [Entering]);
    states, trace := Extend(d, states, trace, Acquire(0), s1);
    AloneBegin(s1, []);
    states, trace := Extend(d, states, trace, Begin(0), Alone(d, d, true, [] + [Open(false)]));
    var s3 := Alone(d, d, true, [Open(false)] + [Entering]);
    assert [] + [Open(false)] == [Open(false)];
    states, trace := Extend(d, states, trace, Acquire(0), s3);
    AloneBegin(s3, [Open(false)]);
    states, trace := Extend(d, states, trace, Begin(0), Alone(d, d, true, [Open(false)] + [Open(true)]));
  }

  lemma FailNested<D>(d: D, w: D -> D) returns (states: seq<State<D>>, trace: seq<Action<D>>)
    ensures trace == [Acquire(0), Begin(0), Acquire(0), Begin(0), Exec(0, d, w), Fail(0), Release(0)]
    ensures Run(d, states, trace) && states[7] == Alone(w(d), d, true, [Open(false)])
  {
    var bottom := [Open(false)];
    states, trace := EnterNested(d);
    var s5 := Alone(w(d), d, true, bottom + [Open(true)]);
    states, trace := Extend(d, states, trace, Exec(0, d, w), s5);
    AloneTop(s5, bottom, Open(true), Leaving);
    var s6 := Alone(w(d), d, true, bottom + [Leaving]);
    states, trace := Extend(d, states, trace, Fail(0), s6);
    AloneRelease(s6, bottom);
    states, trace := Extend(d, states, trace, Release(0), Alone(w(d), d, true, bottom));
  }

  lemma SwallowingRuns<D>(d: D, w: D -> D)
    ensures exists states :: Run(d, states, Swallowing(d, w))
  {
    var states, trace := FailNested(d, w);
    var s7 := Alone(w(d), d, true, [] + [Open(false)]);
    assert [] + [Open(false)] == [Open(false)];
    AloneTop(s7, [], Open(false), Leaving);
    var s8 := Alone(w(d), d, false, [] + [Leaving]);
    states, trace := Extend(d, states, trace, Succeed(0), s8);
    AloneRelease(s8, []);
    states, trace := Extend(d, states, trace, Release(0), Alone(w(d), d, false, []));
    assert trace == Swallowing(d, w);
  }

  /** Swallowing breaks this for the inner block: its writes are committed although it failed. */
  lemma SwallowedFailureCommits<D>(d: D, w: D -> D)
    ensures exists states :: Run(d, states, Swallowing(d, w))
    ensures Complete(Swallowing(d, w)) && !NoSwallow(Swallowing(d, w))
    ensures Effect(d, Swallowing(d, w)) == w(d)
  {
    SwallowingRuns(d, w);
    var b := Swallowing(d, w);
    assert ByThread(b, 0);
    assert b[5].Fail? && b[5 + 1].Release? && !b[5 + 2].Fail?;
    var enter: seq<Action<D>> := [Acquire(0), Begin(0), Acquire(0), Begin(0)];
    var leave: seq<Action<D>> := [Fail(0), Release(0), Succeed(0), Release(0)];
    WritesAppend(d, enter + [Exec(0, d, w)], leave);
    Snoc(d, enter, Exec(0, d, w));
    WritesNothing(d, enter);
    WritesNothing(w(d), leave);
  }

  lemma StuckExit<D>(d: D) returns (states: seq<State<D>>, trace: seq<Action<D>>)
    ensures trace == [Acquire(0), Begin(0), Stick(0), Release(0)]
    ensures Run(d, states, trace) && states[4] == Alone(d, d, true, [])
  {
    states, trace := [Initial(d)], [];
    var s1 := Alone(d, d, false, [] + [Entering]);
    states, trace := Extend(d, states, trace, Acquire(0), s1);
    AloneBegin(s1, []);
    var s2 := Alone(d, d, true, [] + [Open(false)]);
    states, trace := Extend(d, states, trace, Begin(0), s2);
    AloneTop(s2, [], Open(false), Leaving);
    var s3 := Alone(d, d, true, [] + [Leaving]);
    states, trace := Extend(d, states, trace, Stick(0), s3);
    AloneRelease(s3, []);
    states, trace := Extend(d, states, trace, Release(0), Alone(d, d, true, []));
  }

  /** A run in which a COMMIT raises and the next outermost block skips its own. */
  lemma StuckRun<D>(d: D) returns (states: seq<State<D>>, trace: seq<Action<D>>)
    ensures trace == [Acquire(0), Begin(0), Stick(0), Release(0), Acquire(0), Begin(0)] && Run(d, states, trace)
    ensures states[6].Stack(0) == [Open(true)] && !SkipsRight(states[6])
  {
    states, trace := StuckExit(d);
    var s5 := Alone(d, d, true, [] + [Entering]);
    states, trace := Extend(d, states, trace, Acquire(0), s5);
    AloneBegin(s5, []);
    var s6 := Alone(d, d, true, [] + [Open(true)]);
    states, trace := Extend(d, states, trace, Begin(0), s6);
    assert s6.Stack(0)[0] == Open(true);
  }
}
