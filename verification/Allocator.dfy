/** `get_fcp_devices`: search over path subsets and PCHID products. */
module Allocator {
  import opened Lists
  import opened Combinatorics
  import opened FcpTables
  import opened AllocationSpec
  import Columns

  /** A candidate dict together with the value stored under its `'weight'` key. */
  datatype Weighed = Weighed(assign: Assignment, weight: real)

  datatype Weighing =
    | Weights(list: seq<Weighed>)
    | NoStatistics      // KeyError: a PCHID is absent from pchid_info
    | EmptyCandidate    // ValueError: min() over no channels

  datatype Outcome =
    | Devices(list: seq<Device>)
    | NoSuchTemplate
    | UnknownPchid
    | NothingToWeigh

  // ---------- get_free_pchids_by_fcp_template ----------

  /** The distinct `(path, pchid)` rows of the free-device query. */
  function FreeRows(db: Tables, t: TmplId): (rows: set<(Path, Pchid)>)
    ensures forall r :: r in rows <==> Offers(db, t, r.0, r.1)
  {
    var rows := set d | d in FreeDevices(db, t) :: (db.fcpMapping[(d, t)], db.fcp[d].pchid);
    assert forall r :: r in rows <==> Offers(db, t, r.0, r.1) by {
      forall r ensures r in rows <==> Offers(db, t, r.0, r.1) {
        if Offers(db, t, r.0, r.1) {
          var d :| FreeOn(db, t, r.0, r.1, d);
          assert d in FreeDevices(db, t);
        }
        if r in rows {
          var d :| d in FreeDevices(db, t) && r == (db.fcpMapping[(d, t)], db.fcp[d].pchid);
          assert FreeOn(db, t, r.0, r.1, d);
        }
      }
    }
    rows
  }

  method FreePchidsByPath(db: Tables, t: TmplId) returns (free: map<Path, seq<Pchid>>)
    ensures forall p, q :: (p in free && q in free[p]) <==> Offers(db, t, p, q)
    ensures forall p :: p in free ==> free[p] != []
    ensures free.Keys == FreePaths(db, t) && |free| == |FreePaths(db, t)|
  {
    RowLeqOrder();
    var rows := SortSet(FreeRows(db, t), RowLeq);
    free := map[];
    for i := 0 to |rows|
      invariant forall p, q :: (p in free && q in free[p]) <==> (p, q) in rows[..i]
      invariant forall p :: p in free ==> free[p] != []
    {
      var (p, q) := rows[i];
      assert rows[..i + 1] == rows[..i] + [(p, q)];
      if p !in free {
        free := free[p := []];
      }
      free := free[p := free[p] + [q]];
    }
    assert rows[..|rows|] == rows;
    forall p, q ensures (p in free && q in free[p]) <==> Offers(db, t, p, q) {
      assert (p, q) in rows <==> (p, q) in FreeRows(db, t);
    }
    forall p ensures p in free <==> p in FreePaths(db, t) {
      if p in free {
        var q := free[p][0];
        assert Offers(db, t, p, q);
        var d :| FreeOn(db, t, p, q, d);
        assert d in FreeDevices(db, t);
      }
      if p in FreePaths(db, t) {
        var d :| d in FreeDevices(db, t) && db.fcpMapping[(d, t)] == p;
        assert FreeOn(db, t, p, db.fcp[d].pchid, d);
      }
    }
  }

  // ---------- enumeration ----------

  /** `m` assigns to each of `k` paths one of the channels listed for it. */
  predicate Candidate(free: map<Path, seq<Pchid>>, k: nat, m: Assignment) {
    |m| == k && forall p :: p in m ==> p in free && m[p] in free[p]
  }

  /** The lists of channels of the given paths, in path order. */
  function Lookup<V>(free: map<Path, V>, paths: seq<Path>): (r: seq<V>)
    requires forall i :: 0 <= i < |paths| ==> paths[i] in free
    ensures |r| == |paths| && forall i :: 0 <= i < |paths| ==> r[i] == free[paths[i]]
  {
    seq(|paths|, i requires 0 <= i < |paths| => free[paths[i]])
  }

  method ZipAll(paths: seq<Path>, values: seq<seq<Pchid>>) returns (r: seq<Assignment>)
    requires StrictlyIncreasing(paths) && forall v :: v in values ==> |v| == |paths|
    ensures forall m :: m in r <==> exists v :: v in values && Zip(paths, v) == m
  {
    r := [];
    for i := 0 to |values|
      invariant forall m :: m in r <==> exists v :: v in values[..i] && Zip(paths, v) == m
    {
      assert values[..i + 1] == values[..i] + [values[i]];
      r := r + [Zip(paths, values[i])];
    }
    assert values[..|values|] == values;
  }

  /** `m` chooses its paths as `c` and its channels from the product over `c`. */
  ghost predicate Chosen(free: map<Path, seq<Pchid>>, c: seq<Path>, m: Assignment) {
    m.Keys == Elements(c) && forall p :: p in m ==> p in free && m[p] in free[p]
  }

  method AssignmentsOver(free: map<Path, seq<Pchid>>, c: seq<Path>) returns (r: seq<Assignment>)
    requires StrictlyIncreasing(c) && forall i :: 0 <= i < |c| ==> c[i] in free
    ensures forall m :: m in r <==> Chosen(free, c, m)
  {
    var lists := Lookup(free, c);
    var product := Product(lists);
    forall v ensures v in product <==> |v| == |c| && forall i :: 0 <= i < |c| ==> v[i] in lists[i] {
      ProductExact(lists, v);
    }
    r := ZipAll(c, product);
    forall m ensures m in r <==> Chosen(free, c, m) {
      if m in r {
        var v :| v in product && Zip(c, v) == m;
        forall p | p in m ensures p in free && m[p] in free[p] {
          var i :| 0 <= i < |c| && c[i] == p;
          assert v[i] in lists[i];
        }
      }
      if Chosen(free, c, m) {
        var v := Lookup(m, c);
        ZipOnto(c, v, m);
        assert v in product;
      }
    }
  }

  /** Every candidate of size `k` is enumerated, and nothing else. */
  method Enumerate(free: map<Path, seq<Pchid>>, order: seq<Path>, k: nat) returns (r: seq<Assignment>)
    requires StrictlyIncreasing(order) && Elements(order) == free.Keys
    ensures forall m :: m in r <==> Candidate(free, k, m)
  {
    var choices := Combinations(order, k);
    forall c ensures c in choices <==> Picks(order, k, c) { CombinationsExact(order, k, c); }
    r := [];
    for i := 0 to |choices|
      invariant forall m :: m in r <==> exists c :: c in choices[..i] && Chosen(free, c, m)
    {
      assert choices[..i + 1] == choices[..i] + [choices[i]];
      assert choices[i] in choices;
      forall j | 0 <= j < |choices[i]| ensures choices[i][j] in free {
        assert choices[i][j] in choices[i];
        assert choices[i][j] in Elements(order);
      }
      var more := AssignmentsOver(free, choices[i]);
      r := r + more;
    }
    assert choices[..|choices|] == choices;
    forall m ensures m in r <==> Candidate(free, k, m) {
      if m in r {
        var c :| c in choices && Chosen(free, c, m);
        DistinctSize(c);
      }
      if Candidate(free, k, m) {
        forall p | p in m.Keys ensures p in free.Keys { assert p in m; }
        var c := AscendingKeys(order, m);
        assert c in choices && Chosen(free, c, m);
      }
    }
  }

  lemma AscendingKeys(order: seq<Path>, m: Assignment) returns (c: seq<Path>)
    requires StrictlyIncreasing(order) && m.Keys <= Elements(order)
    ensures Picks(order, |m|, c) && Elements(c) == m.Keys
  {
    c := Filter(order, p => p in m);
    FilterIncreasing(order, p => p in m);
    forall p | p in m ensures p in c { assert p in Elements(order); }
    DistinctSize(c);
    assert Elements(c) == m.Keys;
  }

  lemma {:induction false} FilterIncreasing(s: seq<int>, keep: int -> bool)
    requires StrictlyIncreasing(s)
    ensures StrictlyIncreasing(Filter(s, keep))
  {
    if s != [] {
      var rest := Filter(s[1..], keep);
      FilterIncreasing(s[1..], keep);
      forall i | 0 <= i < |rest| ensures s[0] < rest[i] { assert rest[i] in s[1..]; }
    }
  }

  // ---------- weights ----------

  /** The weight of one candidate: the least of its channels' ratios. */
  method WeighOne(m: Assignment, room: map<Pchid, int>) returns (r: Option<real>)
    requires m != map[]
    ensures r.Some? <==> forall p :: p in m ==> m[p] in room
    ensures r.Some? ==> IsWeight(m, room, r.value)
  {
    r := None;
    var todo := m.Keys;
    while todo != {}
      invariant todo <= m.Keys
      invariant forall p :: p in m && p !in todo ==> m[p] in room
      invariant r.None? <==> todo == m.Keys
      invariant r.Some? ==> exists p :: p in m && p !in todo && Ratio(m, room, p) == r.value
      invariant r.Some? ==> forall p :: p in m && p !in todo ==> r.value <= Ratio(m, room, p)
      decreases |todo|
    {
      var p := Pick(todo);
      if m[p] !in room {
        return None;
      }
      var ratio := Ratio(m, room, p);
      if r.None? || ratio < r.value {
        r := Some(ratio);
      }
      todo := todo - {p};
    }
  }

  ghost predicate Weighs(combs: seq<Assignment>, room: map<Pchid, int>, list: seq<Weighed>) {
    && |list| == |combs|
    && forall i :: 0 <= i < |combs| ==> list[i].assign == combs[i] && IsWeight(combs[i], room, list[i].weight)
  }

  /** `_calculate_weight` */
  method WeighAll(combs: seq<Assignment>, room: map<Pchid, int>) returns (r: Weighing)
    ensures r.Weights? ==> Weighs(combs, room, r.list)
    ensures r.NoStatistics? ==> exists m :: m in combs && exists p :: p in m && m[p] !in room
    ensures r.EmptyCandidate? ==> map[] in combs
  {
    var list: seq<Weighed> := [];
    for i := 0 to |combs|
      invariant Weighs(combs[..i], room, list)
    {
      if combs[i] == map[] {
        return EmptyCandidate;
      }
      var w := WeighOne(combs[i], room);
      if w.None? {
        assert combs[i] in combs;
        return NoStatistics;
      }
      list := list + [Weighed(combs[i], w.value)];
    }
    assert combs[..|combs|] == combs;
    r := Weights(list);
  }

  // ---------- selection ----------

  method MaxWeight(list: seq<Weighed>) returns (best: real)
    requires list != []
    ensures exists c :: c in list && c.weight == best
    ensures forall c :: c in list ==> c.weight <= best
  {
    best := list[0].weight;
    for i := 1 to |list|
      invariant exists c :: c in list && c.weight == best
      invariant forall j :: 0 <= j < i ==> list[j].weight <= best
    {
      if list[i].weight > best { best := list[i].weight; }
    }
  }

  /** Keeps exactly the candidates of greatest weight. */
  method SelectMaxWeight(list: seq<Weighed>) returns (r: seq<Weighed>)
    requires list != []
    ensures r != []
    ensures forall c :: c in r <==> c in list && forall o :: o in list ==> o.weight <= c.weight
  {
    var best := MaxWeight(list);
    r := KeepOnly(list, (c: Weighed) => c.weight == best);
    assert exists c :: c in r;
  }

  method MaxChannels(list: seq<Weighed>) returns (best: nat)
    requires list != []
    ensures exists c :: c in list && |c.assign.Values| == best
    ensures forall c :: c in list ==> |c.assign.Values| <= best
  {
    best := |list[0].assign.Values|;
    for i := 1 to |list|
      invariant exists c :: c in list && |c.assign.Values| == best
      invariant forall j :: 0 <= j < i ==> |list[j].assign.Values| <= best
    {
      if |list[i].assign.Values| > best { best := |list[i].assign.Values|; }
    }
  }

  /** Keeps exactly the candidates with the most distinct channels. */
  method SelectMostDistributed(list: seq<Weighed>) returns (r: seq<Weighed>)
    requires list != []
    ensures r != []
    ensures forall c :: c in r <==> c in list && forall o :: o in list ==> |o.assign.Values| <= |c.assign.Values|
  {
    var best := MaxChannels(list);
    r := KeepOnly(list, (c: Weighed) => |c.assign.Values| == best);
    assert exists c :: c in r;
  }

  ghost predicate NotBetter(o: Weighed, c: Weighed) {
    o.weight <= c.weight && (o.weight == c.weight ==> |o.assign.Values| <= |c.assign.Values|)
  }

  /** `c` survives all three filters. */
  ghost predicate Best(list: seq<Weighed>, c: Weighed) {
    c in list && c.weight >= 1.0 && forall o :: o in list && o.weight >= 1.0 ==> NotBetter(o, c)
  }

  /** The three filters in sequence leave exactly the lexicographically best valid candidates. */
  method SelectBest(list: seq<Weighed>) returns (r: seq<Weighed>)
    ensures forall c :: c in r <==> Best(list, c)
    ensures r == [] <==> forall c :: c in list ==> c.weight < 1.0
  {
    var valid := KeepOnly(list, (c: Weighed) => c.weight >= 1.0);
    if valid == [] {
      assert forall c :: c in list && c.weight >= 1.0 ==> c in valid;
      return [];
    }
    assert valid[0] in valid;
    var heavy := SelectMaxWeight(valid);
    assert heavy[0] in heavy;
    r := SelectMostDistributed(heavy);
    forall c ensures c in r <==> Best(list, c) {
      if c in r {
        forall o | o in list && o.weight >= 1.0 ensures NotBetter(o, c) {
          assert o in valid;
        }
      }
      if Best(list, c) {
        assert c in valid;
        assert c in heavy;
        forall o | o in heavy ensures |o.assign.Values| <= |c.assign.Values| {
          assert NotBetter(o, c) && c.weight <= o.weight;
        }
      }
    }
  }

  // ---------- _get_one_random_fcp_combinations ----------

  /** `random.choice` over the free devices of one path and channel. */
  method PickDevice(db: Tables, t: TmplId, p: Path, q: Pchid) returns (e: Device)
    requires Offers(db, t, p, q)
    ensures e.path == p && e.pchid == q && FreeOn(db, t, p, q, e.id)
    ensures e.wwpnNpiv == db.fcp[e.id].wwpnNpiv && e.wwpnPhy == db.fcp[e.id].wwpnPhy
  {
    assert exists d :: d in db.fcp && FreeOn(db, t, p, q, d);
    var d :| d in db.fcp && FreeOn(db, t, p, q, d);
    e := Device(d, db.fcp[d].wwpnNpiv, db.fcp[d].wwpnPhy, p, q);
  }

  /** Any free device may be chosen on each path; there always is one. */
  method PickDevices(db: Tables, t: TmplId, m: Assignment) returns (l: seq<Device>)
    requires Selectable(db, t, m)
    ensures Realises(db, t, m, l)
  {
    IntOrder();
    var paths := SortSet(m.Keys, IntLeq);
    l := [];
    for i := 0 to |paths|
      invariant |l| == i
      invariant forall j :: 0 <= j < i ==> l[j].path == paths[j]
      invariant forall j :: 0 <= j < i ==> DeviceFor(db, t, m, l[j])
    {
      assert paths[i] in m;
      var e := PickDevice(db, t, paths[i], m[paths[i]]);
      l := l + [e];
    }
  }

  predicate IntLeq(a: int, b: int) { a <= b }

  lemma IntOrder()
    ensures TotalOrder(IntLeq)
  {
  }

  // ---------- get_fcp_devices ----------

  /** Every channel with a free device of the template appears in the capacity statistics. */
  ghost predicate Known(db: Tables, t: TmplId, room: map<Pchid, int>) {
    forall p, q :: Offers(db, t, p, q) ==> q in room
  }

  /** The answer the search owes for the given tables, whichever random picks it makes. */
  ghost predicate Answers(db: Tables, t: TmplId, room: map<Pchid, int>, r: Outcome) {
    var free := FreePaths(db, t);
    var min := MinPaths(db, t);
    if free == {} then r == Devices([])
    else if min.None? then r == NoSuchTemplate
    else if |free| < min.value then r == Devices([])
    else if !Known(db, t, room) then r == UnknownPchid
    else if exists m :: Feasible(db, t, room, m) && |m| >= 1 && |m| >= min.value then
      r.Devices? && |r.list| >= 1 && |r.list| >= min.value &&
      exists m :: Optimal(db, t, room, m) && Realises(db, t, m, r.list)
    else if min.value >= 1 then r == Devices([])
    else r == NothingToWeigh
  }

  lemma CandidateSelectable(db: Tables, t: TmplId, free: map<Path, seq<Pchid>>, k: nat, m: Assignment)
    requires forall p, q :: (p in free && q in free[p]) <==> Offers(db, t, p, q)
    ensures Candidate(free, k, m) <==> Selectable(db, t, m) && |m| == k
  {
  }

  /** `combs` lists the selectable assignments of `k` paths. */
  ghost predicate Exhaustive(db: Tables, t: TmplId, k: nat, combs: seq<Assignment>) {
    forall m :: m in combs <==> Selectable(db, t, m) && |m| == k
  }

  /** `c` is a feasible assignment of `k` paths that none other of that size beats. */
  ghost predicate Top(db: Tables, t: TmplId, room: map<Pchid, int>, k: nat, c: Weighed) {
    && Feasible(db, t, room, c.assign) && |c.assign| == k && IsWeight(c.assign, room, c.weight)
    && forall o, v :: Feasible(db, t, room, o) && |o| == k && IsWeight(o, room, v) ==> NotBetter(Weighed(o, v), c)
  }

  lemma WeighedEntry(combs: seq<Assignment>, room: map<Pchid, int>, list: seq<Weighed>, m: Assignment)
    returns (c: Weighed)
    requires Weighs(combs, room, list) && m in combs
    ensures c in list && c.assign == m && IsWeight(m, room, c.weight) && (c.weight >= 1.0 <==> Fits(m, room))
  {
    var i :| 0 <= i < |combs| && combs[i] == m;
    c := list[i];
    WeightFits(m, room, c.weight);
  }

  lemma EntryWeighed(combs: seq<Assignment>, room: map<Pchid, int>, list: seq<Weighed>, c: Weighed)
    requires Weighs(combs, room, list) && c in list
    ensures c.assign in combs && IsWeight(c.assign, room, c.weight) && (c.weight >= 1.0 <==> Fits(c.assign, room))
  {
    var i :| 0 <= i < |list| && list[i] == c;
    assert combs[i] in combs;
    WeightFits(c.assign, room, c.weight);
  }

  lemma BestIsTop(db: Tables, t: TmplId, room: map<Pchid, int>, k: nat,
                  combs: seq<Assignment>, list: seq<Weighed>, c: Weighed)
    requires Exhaustive(db, t, k, combs) && Weighs(combs, room, list) && Best(list, c)
    ensures Top(db, t, room, k, c)
  {
    EntryWeighed(combs, room, list, c);
    forall o, v | Feasible(db, t, room, o) && |o| == k && IsWeight(o, room, v)
      ensures NotBetter(Weighed(o, v), c)
    {
      var e := WeighedEntry(combs, room, list, o);
      assert e == Weighed(o, v);
    }
  }

  lemma NoneValid(db: Tables, t: TmplId, room: map<Pchid, int>, k: nat,
                  combs: seq<Assignment>, list: seq<Weighed>, m: Assignment)
    requires Exhaustive(db, t, k, combs) && Weighs(combs, room, list)
    requires forall c :: c in list ==> c.weight < 1.0
    ensures Feasible(db, t, room, m) ==> |m| != k
  {
    if Feasible(db, t, room, m) && |m| == k {
      var c := WeighedEntry(combs, room, list, m);
    }
  }

  /** One round of the path-count loop. */
  method TryPathCount(db: Tables, t: TmplId, room: map<Pchid, int>, free: map<Path, seq<Pchid>>,
                      order: seq<Path>, k: nat) returns (r: Weighing, best: seq<Weighed>)
    requires StrictlyIncreasing(order) && Elements(order) == free.Keys
    requires forall p, q :: (p in free && q in free[p]) <==> Offers(db, t, p, q)
    ensures r.NoStatistics? ==> !Known(db, t, room)
    ensures r.EmptyCandidate? ==> k == 0
    ensures r.Weights? ==> forall m :: Selectable(db, t, m) && |m| == k ==> exists w :: IsWeight(m, room, w)
    ensures r.Weights? && best == [] ==> forall m :: Feasible(db, t, room, m) ==> |m| != k
    ensures r.Weights? ==> forall c :: c in best ==> Top(db, t, room, k, c)
  {
    var combs := Enumerate(free, order, k);
    forall m ensures m in combs <==> Selectable(db, t, m) && |m| == k {
      CandidateSelectable(db, t, free, k, m);
    }
    best := [];
    r := WeighAll(combs, room);
    if r.Weights? {
      best := SelectBest(r.list);
      forall m | Selectable(db, t, m) && |m| == k ensures exists w :: IsWeight(m, room, w) {
        var c := WeighedEntry(combs, room, r.list, m);
      }
      if best == [] {
        forall m | Feasible(db, t, room, m) ensures |m| != k { NoneValid(db, t, room, k, combs, r.list, m); }
      }
      forall c | c in best ensures Top(db, t, room, k, c) { BestIsTop(db, t, room, k, combs, r.list, c); }
    }
  }

  /** With every free path in play, each free channel occurs in some candidate. */
  lemma KnownAtFull(db: Tables, t: TmplId, room: map<Pchid, int>, free: map<Path, seq<Pchid>>)
    requires forall p, q :: (p in free && q in free[p]) <==> Offers(db, t, p, q)
    requires forall p :: p in free ==> free[p] != []
    requires forall m :: Selectable(db, t, m) && |m| == |free| ==> exists w :: IsWeight(m, room, w)
    ensures Known(db, t, room)
  {
    forall p, q | Offers(db, t, p, q) ensures q in room {
      var m: Assignment := map x | x in free :: if x == p then q else free[x][0];
      assert m.Keys == free.Keys;
      forall x | x in m ensures Offers(db, t, x, m[x]) { assert m[x] in free[x]; }
      assert |m| == |m.Keys| == |free.Keys| == |free|;
      assert p in m;
      var w :| IsWeight(m, room, w);
    }
  }

  lemma TopIsOptimal(db: Tables, t: TmplId, room: map<Pchid, int>, k: nat, c: Weighed)
    requires Top(db, t, room, k, c)
    requires AtMost(db, t, room, k)
    ensures Optimal(db, t, room, c.assign)
  {
    forall o, w, v | Feasible(db, t, room, o) && |o| == |c.assign|
                     && IsWeight(c.assign, room, w) && IsWeight(o, room, v)
      ensures v <= w && (v == w ==> |o.Values| <= |c.assign.Values|)
    {
      assert w == c.weight;
      assert NotBetter(Weighed(o, v), c);
    }
  }

  /** No feasible assignment uses more than `k` paths. */
  ghost predicate AtMost(db: Tables, t: TmplId, room: map<Pchid, int>, k: int) {
    forall m :: Feasible(db, t, room, m) ==> |m| <= k
  }

  /** One round of the search: an answer, or the proof that `k` paths are too many. */
  method Round(db: Tables, t: TmplId, room: map<Pchid, int>, free: map<Path, seq<Pchid>>, order: seq<Path>, k: nat)
    returns (r: Option<Outcome>)
    requires StrictlyIncreasing(order) && Elements(order) == free.Keys
    requires forall p, q :: (p in free && q in free[p]) <==> Offers(db, t, p, q)
    requires forall p :: p in free ==> free[p] != []
    requires AtMost(db, t, room, k)
    ensures r.None? ==> k >= 1 && AtMost(db, t, room, k - 1)
    ensures r.Some? && r.value.Devices? ==> k >= 1 && |r.value.list| == k
    ensures r.Some? && r.value.Devices? ==> exists m :: Optimal(db, t, room, m) && Realises(db, t, m, r.value.list)
    ensures r == Some(NothingToWeigh) ==> k == 0
    ensures r == Some(UnknownPchid) ==> !Known(db, t, room)
    ensures r != Some(UnknownPchid) && k == |free| && k >= 1 ==> Known(db, t, room)
    ensures r != Some(NoSuchTemplate)
  {
    var outcome, best := TryPathCount(db, t, room, free, order, k);
    if outcome.NoStatistics? {
      return Some(UnknownPchid);
    }
    if outcome.EmptyCandidate? {
      return Some(NothingToWeigh);
    }
    if k == |free| {
      KnownAtFull(db, t, room, free);
    }
    if best == [] {
      EmptyIsFeasible(db, t, room);
      return None;
    }
    assert best[0] in best;
    var c :| c in best;
    assert Top(db, t, room, k, c);
    TopIsOptimal(db, t, room, k, c);
    var l := PickDevices(db, t, c.assign);
    r := Some(Devices(l));
  }

  /** The search itself: from every free path down to the template's minimum. */
  method Search(db: Tables, t: TmplId, room: map<Pchid, int>, free: map<Path, seq<Pchid>>, min: int)
    returns (r: Outcome)
    requires forall p, q :: (p in free && q in free[p]) <==> Offers(db, t, p, q)
    requires forall p :: p in free ==> free[p] != []
    requires free != map[] && min <= |free|
    requires AtMost(db, t, room, |free|)
    ensures !Known(db, t, room) <==> r == UnknownPchid
    ensures r.Devices? && r.list != [] ==>
      |r.list| >= min && exists m :: Optimal(db, t, room, m) && Realises(db, t, m, r.list)
    ensures r == Devices([]) ==> min >= 1 && AtMost(db, t, room, min - 1)
    ensures r == NothingToWeigh ==> min <= 0 && AtMost(db, t, room, 0)
    ensures r != NoSuchTemplate
  {
    IntOrder();
    var order := SortSet(free.Keys, IntLeq);
    assert Elements(order) == free.Keys;
    var k: int := |free|;
    assert k >= 1;
    while k >= min
      invariant 0 <= k <= |free| && k >= min - 1
      invariant k < |free| ==> Known(db, t, room)
      invariant AtMost(db, t, room, k)
      decreases k - min
    {
      var done := Round(db, t, room, free, order, k);
      if done.Some? {
        return done.value;
      }
      k := k - 1;
    }
    r := Devices([]);
  }

  lemma EmptyIsFeasible(db: Tables, t: TmplId, room: map<Pchid, int>)
    ensures Feasible(db, t, room, map[])
  {
  }

  /** The returned group is optimal, and the answer is empty only when nothing is feasible. */
  method GetFcpDevices(db: Tables, t: TmplId, info: map<Pchid, ChannelInfo>) returns (r: Outcome)
    ensures Answers(db, t, Room(info), r)
    ensures r.Devices? ==> Columns.WithinMax(info, r.list) && forall e :: e in r.list ==> Columns.FreeEntry(db, t, e)
    ensures r.Devices? && r.list != [] ==> Columns.EnoughPaths(db, t, |r.list|)
    ensures forall m :: Fulfils(db, t, info, m) ==> r.Devices? && |r.list| >= |m|
  {
    r := SearchDevices(db, t, info);
    if r.Devices? { AnswerWithinMax(db, t, info, r); }
    forall m | Fulfils(db, t, info, m) ensures r.Devices? && |r.list| >= |m| { ChoiceAnswered(db, t, info, r, m); }
  }

  method SearchDevices(db: Tables, t: TmplId, info: map<Pchid, ChannelInfo>) returns (r: Outcome)
    ensures Answers(db, t, Room(info), r)
  {
    var room := Room(info);
    var free := FreePchidsByPath(db, t);
    if free == map[] {
      return Devices([]);
    }
    var min := MinPaths(db, t);
    if min.None? {
      return NoSuchTemplate;
    }
    if |free| < min.value {
      return Devices([]);
    }
    forall m | Feasible(db, t, room, m) ensures |m| <= |free| { SelectableSize(db, t, m); }
    r := Search(db, t, room, free, min.value);
  }

  // ---------- what every answer guarantees ----------

  /** The ids of the handed-out devices that sit on channel `q`. */
  function OnChannel(l: seq<Device>, q: Pchid): set<FcpId> {
    set i | 0 <= i < |l| && l[i].pchid == q :: l[i].id
  }

  lemma ChannelUse(db: Tables, t: TmplId, m: Assignment, l: seq<Device>, q: Pchid)
    requires Realises(db, t, m, l)
    ensures |OnChannel(l, q)| <= Count(m, q)
  {
    var ids := OnChannel(l, q);
    forall d | d in ids ensures (d, t) in db.fcpMapping && db.fcpMapping[(d, t)] in Users(m, q) {
      var i :| 0 <= i < |l| && l[i].pchid == q && l[i].id == d;
      assert DeviceFor(db, t, m, l[i]);
    }
    var where := map d | d in ids :: db.fcpMapping[(d, t)];
    forall d, e | d in ids && e in ids && where[d] == where[e] ensures d == e {
      var i :| 0 <= i < |l| && l[i].pchid == q && l[i].id == d;
      var j :| 0 <= j < |l| && l[j].pchid == q && l[j].id == e;
      assert DeviceFor(db, t, m, l[i]) && DeviceFor(db, t, m, l[j]);
      assert l[i].path == l[j].path;
    }
    InjectiveSize(where, ids, Users(m, q));
  }

  /** Soundness: distinct devices on distinct paths, free members of the template, within capacity. */
  lemma Soundness(db: Tables, t: TmplId, room: map<Pchid, int>, r: Outcome)
    requires Answers(db, t, room, r) && r.Devices?
    ensures forall i, j :: 0 <= i < j < |r.list| ==> r.list[i].id != r.list[j].id && r.list[i].path < r.list[j].path
    ensures forall i :: 0 <= i < |r.list| ==> FreeOn(db, t, r.list[i].path, r.list[i].pchid, r.list[i].id)
    ensures forall i :: 0 <= i < |r.list| ==>
              r.list[i].pchid in room && |OnChannel(r.list, r.list[i].pchid)| <= room[r.list[i].pchid]
  {
    if r.list != [] {
      var m :| Optimal(db, t, room, m) && Realises(db, t, m, r.list);
      RealisedDistinct(db, t, m, r.list);
      forall i | 0 <= i < |r.list|
        ensures FreeOn(db, t, r.list[i].path, r.list[i].pchid, r.list[i].id)
        ensures r.list[i].pchid in room && |OnChannel(r.list, r.list[i].pchid)| <= room[r.list[i].pchid]
      {
        assert DeviceFor(db, t, m, r.list[i]);
        ChannelUse(db, t, m, r.list, r.list[i].pchid);
      }
    }
  }

  /** A choice of free devices on enough paths, for which every channel has the capacity. */
  ghost predicate Fulfils(db: Tables, t: TmplId, info: map<Pchid, ChannelInfo>, m: map<Path, FcpId>) {
    && Columns.FreeChoice(db, t, m) && Columns.ChoiceWithinMax(db, info, m) && |m| >= 1
    && Columns.EnoughPaths(db, t, |m|) && Columns.StatisticsComplete(db, t, info)
  }

  lemma UsingCount(db: Tables, t: TmplId, m: Assignment, l: seq<Device>, q: Pchid)
    requires Realises(db, t, m, l)
    ensures |Columns.Using(l, q)| <= Count(m, q)
  {
    var at := Columns.Using(l, q);
    var where := map i | i in at :: l[i].path;
    forall i | i in at ensures where[i] in Users(m, q) { assert DeviceFor(db, t, m, l[i]); }
    InjectiveSize(where, at, Users(m, q));
  }

  /** With the devices in use already, the answer stays within every channel's maximum. */
  lemma AnswerWithinMax(db: Tables, t: TmplId, info: map<Pchid, ChannelInfo>, r: Outcome)
    requires Answers(db, t, Room(info), r) && r.Devices?
    ensures Columns.WithinMax(info, r.list) && forall e :: e in r.list ==> Columns.FreeEntry(db, t, e)
    ensures r.list != [] ==> Columns.EnoughPaths(db, t, |r.list|)
  {
    if r.list != [] {
      assert Columns.PathsOf(db, t) == TemplatePaths(db, t);
      var m :| Optimal(db, t, Room(info), m) && Realises(db, t, m, r.list);
      forall i | 0 <= i < |r.list|
        ensures Columns.FreeEntry(db, t, r.list[i]) && r.list[i].pchid in info
        ensures info[r.list[i].pchid].inUse + |Columns.Using(r.list, r.list[i].pchid)| <= info[r.list[i].pchid].max
      {
        assert DeviceFor(db, t, m, r.list[i]);
        UsingCount(db, t, m, r.list, r.list[i].pchid);
      }
    }
  }

  /** A choice within the maxima forces an answer of at least as many paths. */
  lemma ChoiceAnswered(db: Tables, t: TmplId, info: map<Pchid, ChannelInfo>, r: Outcome, m: map<Path, FcpId>)
    requires Answers(db, t, Room(info), r) && Fulfils(db, t, info, m)
    ensures r.Devices? && |r.list| >= |m|
  {
    var o := ChoiceFeasible(db, t, info, m);
    forall p, q | Offers(db, t, p, q) ensures q in Room(info) { var d :| FreeOn(db, t, p, q, d); }
    assert Columns.PathsOf(db, t) == TemplatePaths(db, t);
    var best := FeasibleAnswered(db, t, Room(info), r, o);
  }

  lemma ChoiceFeasible(db: Tables, t: TmplId, info: map<Pchid, ChannelInfo>, m: map<Path, FcpId>)
    returns (o: Assignment)
    requires Columns.FreeChoice(db, t, m) && Columns.ChoiceWithinMax(db, info, m)
    ensures Feasible(db, t, Room(info), o) && |o| == |m|
  {
    o := map p | p in m :: db.fcp[m[p]].pchid;
    assert o.Keys == m.Keys;
    forall p | p in o ensures Offers(db, t, p, o[p]) && o[p] in Room(info) && Count(o, o[p]) <= Room(info)[o[p]] {
      assert FreeOn(db, t, p, o[p], m[p]);
      forall x ensures x in Users(o, o[p]) <==> x in Columns.PathsOn(db, m, o[p]) {}
      assert Users(o, o[p]) == Columns.PathsOn(db, m, o[p]);
    }
  }

  /** Completeness: the answer is empty exactly when no minimal choice of paths is feasible. */
  lemma Completeness(db: Tables, t: TmplId, room: map<Pchid, int>, r: Outcome)
    requires Answers(db, t, room, r) && Known(db, t, room)
    requires MinPaths(db, t).Some? && MinPaths(db, t).value >= 1
    ensures r.Devices?
    ensures r.list == [] <==> !exists m :: Feasible(db, t, room, m) && |m| == MinPaths(db, t).value
  {
    var min := MinPaths(db, t).value;
    forall m | Feasible(db, t, room, m) ensures |m| <= |FreePaths(db, t)| { SelectableSize(db, t, m); }
    if m :| Feasible(db, t, room, m) && |m| >= min {
      var less := DropTo(db, t, room, m, min);
    }
  }

  /** The returned devices determine the assignment they realise. */
  lemma RealisedAssignment(db: Tables, t: TmplId, l: seq<Device>, o: Assignment, m: Assignment)
    requires Realises(db, t, o, l) && m.Keys == Elements(PathList(l))
    requires forall i :: 0 <= i < |l| && l[i].path in m ==> m[l[i].path] == l[i].pchid
    ensures m == o
  {
    RealisedCovers(db, t, o, l);
    forall p | p in o ensures m[p] == o[p] {
      assert p in Elements(PathList(l));
      var i :| 0 <= i < |l| && PathList(l)[i] == p;
      assert DeviceFor(db, t, o, l[i]);
    }
  }

  /** Optimality, read off the returned devices: no feasible assignment beats the channels they use. */
  lemma Optimality(db: Tables, t: TmplId, room: map<Pchid, int>, r: Outcome, m: Assignment)
    requires Answers(db, t, room, r) && r.Devices? && r.list != []
    requires m.Keys == Elements(PathList(r.list))
    requires forall i :: 0 <= i < |r.list| && r.list[i].path in m ==> m[r.list[i].path] == r.list[i].pchid
    ensures Optimal(db, t, room, m)
    ensures Feasible(db, t, room, m) && forall o :: Feasible(db, t, room, o) ==> |o| <= |m|
    ensures forall o, w, v :: Feasible(db, t, room, o) && |o| == |m| && IsWeight(m, room, w) && IsWeight(o, room, v) ==>
      v <= w && (v == w ==> |o.Values| <= |m.Values|)
  {
    var o :| Optimal(db, t, room, o) && Realises(db, t, o, r.list);
    RealisedAssignment(db, t, r.list, o, m);
  }

  /** When something feasible reaches the minimum, the answer uses at least as many paths. */
  lemma FeasibleAnswered(db: Tables, t: TmplId, room: map<Pchid, int>, r: Outcome, m: Assignment)
    returns (o: Assignment)
    requires Answers(db, t, room, r) && Known(db, t, room)
    requires MinPaths(db, t).Some? && Feasible(db, t, room, m) && |m| >= 1 && |m| >= MinPaths(db, t).value
    ensures r.Devices? && Feasible(db, t, room, o) && |o| >= |m| && Realises(db, t, o, r.list)
  {
    SelectableSize(db, t, m);
    o :| Optimal(db, t, room, o) && Realises(db, t, o, r.list);
  }
}
