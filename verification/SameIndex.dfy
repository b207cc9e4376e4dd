/** `get_fcp_devices_with_same_index`: one device per path, all of the same rank,
    found by prefix-sum indexing into one flat list. */
module SameIndex {
  import opened Lists
  import opened FcpTables
  import opened AllocationSpec
  import Allocator
  import Columns
  import opened Combinatorics

  type Row = (Path, FcpId)

  datatype Outcome =
    | Group(list: seq<Device>)
    | UnknownPchid
    | OutOfRange      // IndexError: only when mapped devices have no row in table fcp

  // ---------- what is looked for ----------

  /** The devices template `t` maps to path `p`. */
  function On(db: Tables, t: TmplId, p: Path): set<FcpId> {
    set k | k in db.fcpMapping && k.1 == t && db.fcpMapping[k] == p :: k.0
  }

  function Smaller(db: Tables, t: TmplId, p: Path, d: FcpId): set<FcpId> {
    set e | e in On(db, t, p) && e != d && StringLeq(e, d)
  }

  /** `d` is on path `p` and exactly `i` devices of that path precede it. */
  ghost predicate AtRank(db: Tables, t: TmplId, p: Path, i: nat, d: FcpId) {
    d in On(db, t, p) && |Smaller(db, t, p, d)| == i
  }

  /** Every path of the template has a device of rank `i`. */
  ghost predicate OnAllPaths(db: Tables, t: TmplId, i: nat) {
    forall p :: p in TemplatePaths(db, t) ==> i < |On(db, t, p)|
  }

  /** `d` sits on the last path, at a rank that some path does not have. */
  ghost predicate OutOfTheWay(db: Tables, t: TmplId, p: Path, d: FcpId) {
    (forall q :: q in TemplatePaths(db, t) ==> q <= p) && !OnAllPaths(db, t, |Smaller(db, t, p, d)|)
  }

  /** No mapped device without a row in table `fcp` shifts the rows that are looked up. */
  ghost predicate Harmless(db: Tables, t: TmplId) {
    forall d :: (d, t) in db.fcpMapping && d !in db.fcp ==> OutOfTheWay(db, t, db.fcpMapping[(d, t)], d)
  }

  /** `m` picks on every path of the template the device of rank `i`, and all are unused. */
  ghost predicate RankGroup(db: Tables, t: TmplId, i: nat, m: map<Path, FcpId>) {
    && m.Keys == TemplatePaths(db, t)
    && forall p :: p in m ==> AtRank(db, t, p, i, m[p]) && m[p] in db.fcp && Unused(db.fcp[m[p]])
  }

  ghost function ChannelsOf(db: Tables, m: map<Path, FcpId>): Assignment
    requires forall p :: p in m ==> m[p] in db.fcp
  {
    map p | p in m :: db.fcp[m[p]].pchid
  }

  /** The devices of `m`, in path order. */
  ghost predicate InPathOrder(db: Tables, m: map<Path, FcpId>, l: seq<Device>) {
    && |l| == |m|
    && (forall i, j :: 0 <= i < j < |l| ==> l[i].path < l[j].path)
    && forall i :: 0 <= i < |l| ==>
         l[i].path in m && m[l[i].path] == l[i].id && l[i].id in db.fcp && Describes(db, l[i])
  }

  predicate Describes(db: Tables, e: Device)
    requires e.id in db.fcp
  {
    e.pchid == db.fcp[e.id].pchid && e.wwpnNpiv == db.fcp[e.id].wwpnNpiv && e.wwpnPhy == db.fcp[e.id].wwpnPhy
  }

  /** A group of one rank within every channel's capacity. */
  ghost predicate Fitting(db: Tables, t: TmplId, room: map<Pchid, int>, i: nat, m: map<Path, FcpId>) {
    RankGroup(db, t, i, m) && Fits(ChannelsOf(db, m), room)
  }

  /** Some group of one rank has a channel without statistics. */
  ghost predicate SomeUnlisted(db: Tables, t: TmplId, room: map<Pchid, int>) {
    exists i, m :: RankGroup(db, t, i, m) && exists p :: p in m && ChannelsOf(db, m)[p] !in room
  }

  /** Every path has a device that passes the full free filter. */
  ghost predicate AllPathsFree(db: Tables, t: TmplId) {
    TemplatePaths(db, t) != {} && FreePaths(db, t) == TemplatePaths(db, t)
  }

  /** The answer owed to the caller. */
  ghost predicate Answers(db: Tables, t: TmplId, room: map<Pchid, int>, r: Outcome) {
    if !AllPathsFree(db, t) then r == Group([])
    else if SomeUnlisted(db, t, room) then r == UnknownPchid
    else if exists i, m :: Fitting(db, t, room, i, m) then
      r.Group? && r.list != [] && exists i, m :: Fitting(db, t, room, i, m) && InPathOrder(db, m, r.list)
    else r == Group([])
  }

  // ---------- the search, on the two query results ----------

  /** The prefix sum `s` reached before path number `j`. */
  function Offset(counts: seq<nat>, j: nat): nat
    requires j <= |counts|
  {
    if j == 0 then 0 else Offset(counts, j - 1) + counts[j - 1]
  }

  /** Every path has more than `i` devices. */
  ghost predicate Common(counts: seq<nat>, i: nat) {
    forall j :: 0 <= j < |counts| ==> i < counts[j]
  }

  /** Rank `i` addresses existing rows on all paths below `n`, and their devices are unused. */
  ghost predicate Good(db: Tables, rows: seq<Row>, counts: seq<nat>, i: nat, n: nat)
    requires n <= |counts|
  {
    && Common(counts, i)
    && forall j :: 0 <= j < n ==> Offset(counts, j) + i < |rows| && Idle(db, rows[Offset(counts, j) + i])
  }

  predicate Idle(db: Tables, row: Row) {
    row.1 in db.fcp && Unused(db.fcp[row.1])
  }

  /** `g` holds the first `n` rows addressed by rank `i`. */
  ghost predicate Column(rows: seq<Row>, counts: seq<nat>, i: nat, n: nat, g: seq<Row>)
    requires n <= |counts|
  {
    |g| == n && forall j :: 0 <= j < n ==> Offset(counts, j) + i < |rows| && g[j] == rows[Offset(counts, j) + i]
  }

  /** The lookup of some rank reaches an index beyond the list. */
  ghost predicate Derails(db: Tables, rows: seq<Row>, counts: seq<nat>) {
    exists i, j :: DerailsAt(db, rows, counts, i, j)
  }

  ghost predicate DerailsAt(db: Tables, rows: seq<Row>, counts: seq<nat>, i: nat, j: nat) {
    j < |counts| && Good(db, rows, counts, i, j) && Offset(counts, j) + i >= |rows|
  }

  method MinOf(counts: seq<nat>) returns (least: nat)
    requires counts != []
    ensures forall j :: 0 <= j < |counts| ==> least <= counts[j]
    ensures exists j :: 0 <= j < |counts| && counts[j] == least
  {
    least := counts[0];
    for i := 1 to |counts|
      invariant forall j :: 0 <= j < i ==> least <= counts[j]
      invariant exists j :: 0 <= j < |counts| && counts[j] == least
    {
      if counts[i] < least { least := counts[i]; }
    }
  }

  datatype Walk = Complete(rows: seq<Row>) | Dropped | Beyond

  /** Follow rank `i` from the first path through the others. */
  method Follow(db: Tables, rows: seq<Row>, counts: seq<nat>, i: nat) returns (r: Walk)
    requires counts != [] && Good(db, rows, counts, i, 1)
    ensures r.Complete? ==> Good(db, rows, counts, i, |counts|) && Column(rows, counts, i, |counts|, r.rows)
    ensures r.Dropped? ==> !Good(db, rows, counts, i, |counts|)
    ensures r.Beyond? <==> exists j :: DerailsAt(db, rows, counts, i, j)
  {
    assert Offset(counts, 0) == 0;
    var g := [rows[i]];
    var s := 0;
    for j := 0 to |counts| - 1
      invariant s == Offset(counts, j)
      invariant Good(db, rows, counts, i, j + 1)
      invariant Column(rows, counts, i, j + 1, g)
    {
      s := s + counts[j];
      assert s == Offset(counts, j + 1);
      if s + i >= |rows| {
        assert DerailsAt(db, rows, counts, i, j + 1);
        return Beyond;
      }
      if i < counts[j + 1] && Idle(db, rows[s + i]) {
        g := g + [rows[s + i]];
      } else {
        assert forall k: nat :: k <= j + 1 ==> Offset(counts, k) + i < |rows|;
        assert forall k: nat :: j + 1 < k <= |counts| ==> !Good(db, rows, counts, i, k);
        return Dropped;
      }
    }
    r := Complete(g);
  }

  /** `fcp_pair_map`: the complete groups, by rank; not ok when a lookup goes beyond the list. */
  method CollectGroups(db: Tables, rows: seq<Row>, counts: seq<nat>) returns (ok: bool, groups: map<nat, seq<Row>>)
    requires counts != []
    ensures ok <==> !Derails(db, rows, counts)
    ensures ok ==> Collected(db, rows, counts, groups)
  {
    var found, starts := FirstPath(db, rows, counts);
    if !found {
      return false, map[];
    }
    groups := map[];
    var todo := starts;
    while todo != {}
      invariant todo <= starts
      invariant forall i: nat :: i in groups <==> i in starts && i !in todo && Good(db, rows, counts, i, |counts|)
      invariant forall i: nat :: i in groups ==> Column(rows, counts, i, |counts|, groups[i])
      invariant forall i: nat, j :: i in starts && i !in todo ==> !DerailsAt(db, rows, counts, i, j)
      decreases |todo|
    {
      var i := Pick(todo);
      var walk := Follow(db, rows, counts, i);
      match walk {
        case Beyond => return false, map[];
        case Complete(g) => groups := groups[i := g];
        case Dropped =>
      }
      todo := todo - {i};
    }
    ok := true;
    StartsSuffice(db, rows, counts, starts);
  }

  /** The unused devices among the first rows, by rank. */
  method FirstPath(db: Tables, rows: seq<Row>, counts: seq<nat>) returns (ok: bool, starts: set<nat>)
    requires counts != []
    ensures !ok ==> Derails(db, rows, counts)
    ensures ok ==> (forall i: nat :: Common(counts, i) ==> i < |rows|)
    ensures ok ==> (forall i: nat :: i in starts <==> Good(db, rows, counts, i, 1))
  {
    var least := MinOf(counts);
    assert forall i: nat :: Common(counts, i) <==> i < least;
    assert Offset(counts, 0) == 0;
    starts := {};
    for i := 0 to least
      invariant i <= |rows|
      invariant forall x: nat :: x in starts <==> x < i && Idle(db, rows[x])
    {
      if i >= |rows| {
        assert DerailsAt(db, rows, counts, i, 0);
        return false, {};
      }
      if Idle(db, rows[i]) {
        starts := starts + {i};
      }
    }
    ok := true;
  }

  /** Only ranks that start on an unused device can lead beyond the list or to a complete column. */
  lemma StartsSuffice(db: Tables, rows: seq<Row>, counts: seq<nat>, starts: set<nat>)
    requires counts != [] && forall i: nat :: Common(counts, i) ==> i < |rows|
    requires forall i: nat :: i in starts <==> Good(db, rows, counts, i, 1)
    requires forall i: nat, j :: i in starts ==> !DerailsAt(db, rows, counts, i, j)
    ensures !Derails(db, rows, counts)
    ensures forall i: nat :: Good(db, rows, counts, i, |counts|) ==> i in starts
  {
    assert Offset(counts, 0) == 0;
    forall i: nat, j: nat ensures !DerailsAt(db, rows, counts, i, j) {
      if 0 < j <= |counts| && Good(db, rows, counts, i, j) { assert Good(db, rows, counts, i, 1); }
    }
  }

  /** `groups` holds the complete columns. */
  ghost predicate Collected(db: Tables, rows: seq<Row>, counts: seq<nat>, groups: map<nat, seq<Row>>) {
    && (forall i: nat :: i in groups <==> Good(db, rows, counts, i, |counts|))
    && forall i: nat :: i in groups ==> Column(rows, counts, i, |counts|, groups[i])
  }

  // ---------- capacity of a group ----------

  function Pchids(db: Tables, g: seq<Row>): (r: seq<Pchid>)
    requires forall j :: 0 <= j < |g| ==> g[j].1 in db.fcp
    ensures |r| == |g| && forall j :: 0 <= j < |g| ==> r[j] == db.fcp[g[j].1].pchid
  {
    seq(|g|, j requires 0 <= j < |g| => db.fcp[g[j].1].pchid)
  }

  function Positions(pchids: seq<Pchid>, q: Pchid): set<int> {
    set j | 0 <= j < |pchids| && pchids[j] == q
  }

  /** `pchids.count(q)` */
  function Occurrences(pchids: seq<Pchid>, q: Pchid): nat {
    |Positions(pchids, q)|
  }

  lemma OccursPositive(pchids: seq<Pchid>, j: nat)
    requires j < |pchids|
    ensures Occurrences(pchids, pchids[j]) > 0
  {
    assert j in Positions(pchids, pchids[j]);
  }

  /** How often the capacity of the channel at position `j` allows this group. */
  function Share(pchids: seq<Pchid>, room: map<Pchid, int>, j: nat): real
    requires j < |pchids| && pchids[j] in room
  {
    OccursPositive(pchids, j);
    room[pchids[j]] as real / Occurrences(pchids, pchids[j]) as real
  }

  /** No channel of the group has weight below one. */
  predicate WeightOk(pchids: seq<Pchid>, room: map<Pchid, int>) {
    forall j :: 0 <= j < |pchids| ==> pchids[j] in room && Share(pchids, room, j) >= 1.0
  }

  lemma ShareFits(pchids: seq<Pchid>, room: map<Pchid, int>, j: nat)
    requires j < |pchids| && pchids[j] in room
    ensures Share(pchids, room, j) >= 1.0 <==> Occurrences(pchids, pchids[j]) <= room[pchids[j]]
  {
    OccursPositive(pchids, j);
    RatioAtLeastOne(room[pchids[j]], Occurrences(pchids, pchids[j]));
  }

  // ---------- the flat list lands on the right rank ----------

  /** All rows of the template, and those whose device has a row in table `fcp`. */
  function MappedRows(db: Tables, t: TmplId): set<Row> {
    set k | k in db.fcpMapping && k.1 == t :: (db.fcpMapping[k], k.0)
  }

  function Joined(db: Tables, t: TmplId): set<Row> {
    set r | r in MappedRows(db, t) && r.1 in db.fcp
  }

  lemma MappedRow(db: Tables, t: TmplId, r: Row)
    ensures r in MappedRows(db, t) <==> r.1 in On(db, t, r.0)
    ensures r in MappedRows(db, t) <==> (r.1, t) in db.fcpMapping && db.fcpMapping[(r.1, t)] == r.0
    ensures r in MappedRows(db, t) ==> r.0 in TemplatePaths(db, t)
  {
    if r in MappedRows(db, t) { assert (r.1, t) in db.fcpMapping; }
    if r.1 in On(db, t, r.0) { assert (r.1, t) in db.fcpMapping; }
    if (r.1, t) in db.fcpMapping && db.fcpMapping[(r.1, t)] == r.0 { assert r == (db.fcpMapping[(r.1, t)], r.1); }
  }

  lemma PairSize(p: Path, ids: set<FcpId>, pairs: set<Row>)
    requires pairs == set d | d in ids :: (p, d)
    ensures |pairs| == |ids|
  {
    var into := map d | d in ids :: (p, d);
    var back := map r: Row | r in pairs :: r.1;
    InjectiveSize(into, ids, pairs);
    InjectiveSize(back, pairs, ids);
  }

  /** The two query results. */
  ghost predicate Aligned(db: Tables, t: TmplId, paths: seq<Path>, counts: seq<nat>, rows: seq<Row>) {
    && StrictlyIncreasing(paths) && Elements(paths) == TemplatePaths(db, t)
    && |counts| == |paths| && (forall j :: 0 <= j < |paths| ==> counts[j] == |On(db, t, paths[j])|)
    && SortedBy(rows, RowLeq) && (forall r :: r in rows <==> r in Joined(db, t))
  }

  /** The query results are determined by the tables. */
  lemma AlignedUnique(db: Tables, t: TmplId, paths: seq<Path>, counts: seq<nat>, rows: seq<Row>,
                      paths': seq<Path>, counts': seq<nat>, rows': seq<Row>)
    requires Aligned(db, t, paths, counts, rows) && Aligned(db, t, paths', counts', rows')
    ensures paths == paths' && counts == counts' && rows == rows'
  {
    Allocator.IntOrder();
    RowLeqOrder();
    forall p ensures p in paths <==> p in paths' {
      assert p in paths <==> p in Elements(paths);
      assert p in paths' <==> p in Elements(paths');
    }
    SortedUnique(paths, paths', Allocator.IntLeq);
    SortedUnique(rows, rows', RowLeq);
  }

  lemma AlignedExists(db: Tables, t: TmplId) returns (paths: seq<Path>, counts: seq<nat>, rows: seq<Row>)
    ensures Aligned(db, t, paths, counts, rows)
  {
    Allocator.IntOrder();
    RowLeqOrder();
    paths := SortedExists(TemplatePaths(db, t), Allocator.IntLeq);
    counts := seq(|paths|, j requires 0 <= j < |paths| => |On(db, t, paths[j])|);
    rows := SortedExists(Joined(db, t), RowLeq);
    assert Elements(paths) == TemplatePaths(db, t);
  }

  ghost function Index(paths: seq<Path>, p: Path): (j: int)
    requires p in Elements(paths)
    ensures 0 <= j < |paths| && paths[j] == p
  {
    var j :| 0 <= j < |paths| && paths[j] == p;
    j
  }

  lemma CommonRank(db: Tables, t: TmplId, paths: seq<Path>, counts: seq<nat>, rows: seq<Row>, i: nat)
    requires Aligned(db, t, paths, counts, rows)
    ensures Common(counts, i) <==> OnAllPaths(db, t, i)
  {
    if Common(counts, i) {
      forall p | p in TemplatePaths(db, t) ensures i < |On(db, t, p)| { assert counts[Index(paths, p)] > i; }
    }
    if OnAllPaths(db, t, i) {
      forall j | 0 <= j < |counts| ensures i < counts[j] { assert paths[j] in Elements(paths); }
    }
  }

  /** All mapped rows on paths below `bound`. */
  function Earlier(db: Tables, t: TmplId, bound: Path): set<Row> {
    set r | r in MappedRows(db, t) && r.0 < bound
  }

  /** Those of them that the joined list holds. */
  function Before(db: Tables, t: TmplId, bound: Path): set<Row> {
    set r | r in Joined(db, t) && r.0 < bound
  }

  /** Going past path number `i` adds exactly its rows. */
  lemma EarlierStep(db: Tables, t: TmplId, paths: seq<Path>, i: nat)
    requires StrictlyIncreasing(paths) && Elements(paths) == TemplatePaths(db, t) && i + 1 < |paths|
    ensures |Earlier(db, t, paths[i + 1])| == |Earlier(db, t, paths[i])| + |On(db, t, paths[i])|
  {
    var p := paths[i];
    var here := set d | d in On(db, t, p) :: (p, d);
    PairSize(p, On(db, t, p), here);
    forall r ensures r in Earlier(db, t, paths[i + 1]) <==> r in Earlier(db, t, p) + here {
      MappedRow(db, t, r);
      if r in MappedRows(db, t) {
        var k := Index(paths, r.0);
        assert r == (r.0, r.1);
        assert k < i ==> paths[k] < p;
        assert k > i ==> paths[k] >= paths[i + 1];
      }
    }
    assert Earlier(db, t, paths[i + 1]) == Earlier(db, t, p) + here;
  }

  /** The prefix sum of a path is the number of rows mapped to earlier paths. */
  lemma {:induction false} EarlierSize(db: Tables, t: TmplId, paths: seq<Path>, counts: seq<nat>, rows: seq<Row>,
                                       i: nat)
    requires Aligned(db, t, paths, counts, rows) && i < |paths|
    ensures |Earlier(db, t, paths[i])| == Offset(counts, i)
  {
    if i == 0 {
      forall r | r in MappedRows(db, t) ensures r.0 >= paths[0] {
        MappedRow(db, t, r);
        var k := Index(paths, r.0);
      }
      assert Earlier(db, t, paths[0]) == {};
    } else {
      EarlierSize(db, t, paths, counts, rows, i - 1);
      EarlierStep(db, t, paths, i - 1);
    }
  }

  /** The rows listed before `(p, d)`: those of earlier paths and the smaller devices of its own. */
  lemma BelowSplit(db: Tables, t: TmplId, rows: seq<Row>, p: Path, d: FcpId)
    requires forall r :: r in rows <==> r in Joined(db, t)
    ensures |Below(rows, RowLeq, (p, d))| == |Before(db, t, p)| + |Smaller(db, t, p, d) * db.fcp.Keys|
  {
    var below := Below(rows, RowLeq, (p, d));
    var smaller := Smaller(db, t, p, d) * db.fcp.Keys;
    var same := set e | e in smaller :: (p, e);
    PairSize(p, smaller, same);
    forall r ensures r in below <==> r in Before(db, t, p) + same {
      assert r in same <==> r.0 == p && r.1 in smaller by { assert r == (r.0, r.1); }
      BelowAt(db, t, rows, p, d, r);
    }
    assert below == Before(db, t, p) + same;
  }

  lemma BelowAt(db: Tables, t: TmplId, rows: seq<Row>, p: Path, d: FcpId, r: Row)
    requires forall x :: x in rows <==> x in Joined(db, t)
    ensures r in Below(rows, RowLeq, (p, d)) <==>
            r in Before(db, t, p) || (r.0 == p && r.1 in Smaller(db, t, p, d) * db.fcp.Keys)
  {
    MappedRow(db, t, r);
    assert r == (r.0, r.1);
  }

  /** A listed row stands behind the rows of earlier paths and the smaller ones of its own. */
  lemma RowPosition(db: Tables, t: TmplId, rows: seq<Row>, p: Path, d: FcpId) returns (n: nat)
    requires SortedBy(rows, RowLeq) && (forall r :: r in rows <==> r in Joined(db, t)) && (p, d) in rows
    ensures n < |rows| && rows[n] == (p, d)
    ensures n == |Before(db, t, p)| + |Smaller(db, t, p, d) * db.fcp.Keys|
  {
    RowLeqOrder();
    n :| 0 <= n < |rows| && rows[n] == (p, d);
    PositionIsRank(rows, RowLeq, n);
    BelowSplit(db, t, rows, p, d);
  }

  lemma DeviceOfRank(db: Tables, t: TmplId, p: Path, i: nat) returns (d: FcpId)
    requires i < |On(db, t, p)|
    ensures AtRank(db, t, p, i, d)
  {
    StringLeqOrder();
    var ids := SortedExists(On(db, t, p), StringLeq);
    DistinctSize(ids);
    assert Elements(ids) == On(db, t, p);
    d := ids[i];
    PositionIsRank(ids, StringLeq, i);
    assert Below(ids, StringLeq, d) == Smaller(db, t, p, d);
  }

  lemma RankOfSmaller(db: Tables, t: TmplId, p: Path, d: FcpId, e: FcpId)
    requires e in Smaller(db, t, p, d)
    ensures |Smaller(db, t, p, e)| < |Smaller(db, t, p, d)|
  {
    StringLeqOrder();
    SubsetSize(Smaller(db, t, p, e), Smaller(db, t, p, d) - {e});
  }

  /** Index `Offset(j) + i` is in range and addresses the device of rank `i` on path number `j`. */
  ghost predicate Lands(db: Tables, t: TmplId, paths: seq<Path>, counts: seq<nat>, rows: seq<Row>, j: nat, i: nat)
    requires j < |paths| == |counts|
  {
    var n := Offset(counts, j) + i;
    n < |rows| && rows[n].0 == paths[j] && AtRank(db, t, paths[j], i, rows[n].1)
  }

  /** Where missing rows are harmless, devices of a common rank are listed. */
  lemma RankListed(db: Tables, t: TmplId, p: Path, d: FcpId, i: nat)
    requires Harmless(db, t) && d in On(db, t, p) && |Smaller(db, t, p, d)| <= i && OnAllPaths(db, t, i)
    ensures (d, t) in db.fcpMapping && d in db.fcp
  {
    MappedRow(db, t, (p, d));
  }

  lemma IndexLands(db: Tables, t: TmplId, paths: seq<Path>, counts: seq<nat>, rows: seq<Row>, j: nat, i: nat)
    requires Aligned(db, t, paths, counts, rows) && Harmless(db, t) && j < |paths| && Common(counts, i)
    ensures Lands(db, t, paths, counts, rows, j, i)
  {
    var p := paths[j];
    CommonRank(db, t, paths, counts, rows, i);
    var d := DeviceOfRank(db, t, p, i);
    RankListed(db, t, p, d, i);
    forall e | e in Smaller(db, t, p, d) ensures e in db.fcp {
      RankOfSmaller(db, t, p, d, e);
      RankListed(db, t, p, e, i);
    }
    assert Smaller(db, t, p, d) * db.fcp.Keys == Smaller(db, t, p, d);
    EarlierListed(db, t, p);
    EarlierSize(db, t, paths, counts, rows, j);
    MappedRow(db, t, (p, d));
    var n := RowPosition(db, t, rows, p, d);
  }

  lemma EarlierListed(db: Tables, t: TmplId, p: Path)
    requires Harmless(db, t) && p in TemplatePaths(db, t)
    ensures Before(db, t, p) == Earlier(db, t, p)
  {
    forall r | r in Earlier(db, t, p) ensures r.1 in db.fcp { MappedRow(db, t, r); }
  }

  ghost predicate AllLand(db: Tables, t: TmplId, paths: seq<Path>, counts: seq<nat>, rows: seq<Row>)
    requires |paths| == |counts|
  {
    forall j: nat, i: nat :: j < |paths| && Common(counts, i) ==> Lands(db, t, paths, counts, rows, j, i)
  }

  /** If the lookups land, the earlier paths have all their rows. */
  lemma EarlierComplete(db: Tables, t: TmplId, paths: seq<Path>, counts: seq<nat>, rows: seq<Row>)
    requires Aligned(db, t, paths, counts, rows) && paths != [] && AllLand(db, t, paths, counts, rows)
    ensures Before(db, t, paths[|paths| - 1]) == Earlier(db, t, paths[|paths| - 1])
  {
    var j := |paths| - 1;
    forall k | 0 <= k < |paths| ensures counts[k] > 0 {
      assert paths[k] in Elements(paths);
      var key :| key in db.fcpMapping && key.1 == t && db.fcpMapping[key] == paths[k];
      assert key.0 in On(db, t, paths[k]);
    }
    assert Common(counts, 0);
    assert Lands(db, t, paths, counts, rows, j, 0);
    var n := Offset(counts, j);
    var k := RowPosition(db, t, rows, paths[j], rows[n].1);
    RowLeqOrder();
    assert k == n;
    EarlierSize(db, t, paths, counts, rows, j);
    SubsetFull(Before(db, t, paths[j]), Earlier(db, t, paths[j]));
  }

  lemma LandedRank(db: Tables, t: TmplId, paths: seq<Path>, counts: seq<nat>, rows: seq<Row>, j: nat, d: FcpId)
    requires Aligned(db, t, paths, counts, rows) && j < |paths| && d in On(db, t, paths[j])
    requires Lands(db, t, paths, counts, rows, j, |Smaller(db, t, paths[j], d)|)
    ensures d in db.fcp
  {
    var i := |Smaller(db, t, paths[j], d)|;
    var row := rows[Offset(counts, j) + i];
    SameRank(db, t, paths[j], i, d, row.1);
    assert row in rows;
  }

  /** Every prefix-sum index is in range and lands on its rank of its own path, if and only if the
      devices without a row are all on the last path, at ranks that not all paths have. */
  lemma LandsExactly(db: Tables, t: TmplId, paths: seq<Path>, counts: seq<nat>, rows: seq<Row>)
    requires Aligned(db, t, paths, counts, rows)
    ensures AllLand(db, t, paths, counts, rows) <==> Harmless(db, t)
  {
    if Harmless(db, t) {
      forall j: nat, i: nat | j < |paths| && Common(counts, i) ensures Lands(db, t, paths, counts, rows, j, i) {
        IndexLands(db, t, paths, counts, rows, j, i);
      }
    }
    if AllLand(db, t, paths, counts, rows) {
      forall d | (d, t) in db.fcpMapping && d !in db.fcp ensures OutOfTheWay(db, t, db.fcpMapping[(d, t)], d) {
        MissingOutOfTheWay(db, t, paths, counts, rows, d);
      }
    }
  }

  lemma MissingOutOfTheWay(db: Tables, t: TmplId, paths: seq<Path>, counts: seq<nat>, rows: seq<Row>, d: FcpId)
    requires Aligned(db, t, paths, counts, rows) && AllLand(db, t, paths, counts, rows)
    requires (d, t) in db.fcpMapping && d !in db.fcp
    ensures OutOfTheWay(db, t, db.fcpMapping[(d, t)], d)
  {
    var p := db.fcpMapping[(d, t)];
    MappedRow(db, t, (p, d));
    var k, j := Index(paths, p), |paths| - 1;
    EarlierComplete(db, t, paths, counts, rows);
    assert (p, d) !in Before(db, t, paths[j]);
    assert k == j;
    forall q | q in TemplatePaths(db, t) ensures q <= p { var h := Index(paths, q); }
    if OnAllPaths(db, t, |Smaller(db, t, p, d)|) {
      CommonRank(db, t, paths, counts, rows, |Smaller(db, t, p, d)|);
      LandedRank(db, t, paths, counts, rows, j, d);
    }
  }

  // ---------- from list positions to ranks ----------

  lemma RankUnique(db: Tables, t: TmplId, p: Path, i: nat, d: FcpId, e: FcpId)
    requires AtRank(db, t, p, i, d) && AtRank(db, t, p, i, e) && StringLeq(d, e)
    ensures d == e
  {
    if d != e {
      StringLeqOrder();
      assert d in Smaller(db, t, p, e);
      SubsetSize(Smaller(db, t, p, d), Smaller(db, t, p, e) - {d});
    }
  }

  lemma SameRank(db: Tables, t: TmplId, p: Path, i: nat, d: FcpId, e: FcpId)
    requires AtRank(db, t, p, i, d) && AtRank(db, t, p, i, e)
    ensures d == e
  {
    StringLeqTotal(d, e);
    if StringLeq(d, e) { RankUnique(db, t, p, i, d, e); } else { RankUnique(db, t, p, i, e, d); }
  }

  function Ids(g: seq<Row>): (r: seq<FcpId>)
    ensures |r| == |g| && forall j :: 0 <= j < |g| ==> r[j] == g[j].1
  {
    seq(|g|, j requires 0 <= j < |g| => g[j].1)
  }

  lemma ColumnRow(db: Tables, t: TmplId, paths: seq<Path>, counts: seq<nat>, rows: seq<Row>, i: nat, g: seq<Row>,
                  j: nat)
    requires Aligned(db, t, paths, counts, rows) && Harmless(db, t)
    requires Good(db, rows, counts, i, |counts|) && Column(rows, counts, i, |counts|, g) && j < |paths|
    ensures g[j].0 == paths[j] && AtRank(db, t, paths[j], i, g[j].1) && Idle(db, g[j])
  {
    IndexLands(db, t, paths, counts, rows, j, i);
  }

  /** A complete column is the group of its rank. */
  lemma ColumnIsGroup(db: Tables, t: TmplId, paths: seq<Path>, counts: seq<nat>, rows: seq<Row>, i: nat, g: seq<Row>)
    requires Aligned(db, t, paths, counts, rows) && Harmless(db, t)
    requires Good(db, rows, counts, i, |counts|) && Column(rows, counts, i, |counts|, g)
    ensures RankGroup(db, t, i, Zip(paths, Ids(g)))
    ensures forall j :: 0 <= j < |g| ==> g[j].0 == paths[j] && g[j].1 in db.fcp
  {
    var m := Zip(paths, Ids(g));
    forall p | p in m ensures AtRank(db, t, p, i, m[p]) && m[p] in db.fcp && Unused(db.fcp[m[p]]) {
      var j := Index(paths, p);
      assert m[paths[j]] == Ids(g)[j];
      ColumnRow(db, t, paths, counts, rows, i, g, j);
    }
    forall j | 0 <= j < |g| ensures g[j].0 == paths[j] && g[j].1 in db.fcp {
      ColumnRow(db, t, paths, counts, rows, i, g, j);
    }
  }

  lemma GroupCommon(db: Tables, t: TmplId, paths: seq<Path>, counts: seq<nat>, rows: seq<Row>, i: nat,
                    m: map<Path, FcpId>)
    requires Aligned(db, t, paths, counts, rows) && RankGroup(db, t, i, m)
    ensures Common(counts, i)
  {
    forall p | p in TemplatePaths(db, t) ensures i < |On(db, t, p)| {
      SubsetSize(Smaller(db, t, p, m[p]), On(db, t, p) - {m[p]});
    }
    CommonRank(db, t, paths, counts, rows, i);
  }

  lemma GroupRow(db: Tables, t: TmplId, paths: seq<Path>, counts: seq<nat>, rows: seq<Row>, i: nat,
                 m: map<Path, FcpId>, j: nat)
    requires Aligned(db, t, paths, counts, rows) && Harmless(db, t) && RankGroup(db, t, i, m) && j < |paths|
    ensures Common(counts, i) && Offset(counts, j) + i < |rows|
    ensures paths[j] in m && rows[Offset(counts, j) + i].1 == m[paths[j]]
  {
    GroupCommon(db, t, paths, counts, rows, i, m);
    IndexLands(db, t, paths, counts, rows, j, i);
    var p, d := paths[j], rows[Offset(counts, j) + i].1;
    assert p in Elements(paths);
    SameRank(db, t, p, i, d, m[p]);
  }

  /** A group of some rank is found as a complete column. */
  lemma GroupIsGood(db: Tables, t: TmplId, paths: seq<Path>, counts: seq<nat>, rows: seq<Row>, i: nat,
                    m: map<Path, FcpId>)
    requires Aligned(db, t, paths, counts, rows) && Harmless(db, t) && RankGroup(db, t, i, m)
    ensures Good(db, rows, counts, i, |counts|)
  {
    forall j | 0 <= j < |paths|
      ensures i < counts[j] && Offset(counts, j) + i < |rows| && Idle(db, rows[Offset(counts, j) + i])
    {
      GroupRow(db, t, paths, counts, rows, i, m, j);
    }
  }

  lemma GroupIsColumn(db: Tables, t: TmplId, paths: seq<Path>, counts: seq<nat>, rows: seq<Row>, i: nat,
                      m: map<Path, FcpId>, g: seq<Row>)
    requires Aligned(db, t, paths, counts, rows) && Harmless(db, t) && RankGroup(db, t, i, m)
    requires Column(rows, counts, i, |counts|, g)
    ensures Zip(paths, Ids(g)) == m
  {
    forall j | 0 <= j < |paths| ensures paths[j] in m && Ids(g)[j] == m[paths[j]] {
      GroupRow(db, t, paths, counts, rows, i, m, j);
    }
    ZipOnto(paths, Ids(g), m);
  }

  /** `channels` pairs each path with the channel at the same position. */
  ghost predicate Pairs(paths: seq<Path>, pchids: seq<Pchid>, channels: Assignment) {
    && (forall i, j :: 0 <= i < j < |paths| ==> paths[i] != paths[j])
    && |pchids| == |paths| && channels.Keys == Elements(paths)
    && forall j :: 0 <= j < |paths| ==> paths[j] in channels && channels[paths[j]] == pchids[j]
  }

  /** Counting channels along the list equals counting the paths that use them. */
  lemma OccurrencesCount(paths: seq<Path>, pchids: seq<Pchid>, channels: Assignment, q: Pchid)
    requires Pairs(paths, pchids, channels)
    ensures Occurrences(pchids, q) == Count(channels, q)
  {
    var at, users := Positions(pchids, q), Users(channels, q);
    var into := map j | j in at :: paths[j];
    forall j | j in at ensures into[j] in users { assert paths[j] in channels; }
    InjectiveSize(into, at, users);
    var back := map p | p in users :: Index(paths, p);
    forall p | p in users ensures back[p] in at { assert paths[back[p]] in channels; }
    InjectiveSize(back, users, at);
  }

  lemma WeightOkFits(paths: seq<Path>, pchids: seq<Pchid>, channels: Assignment, room: map<Pchid, int>)
    requires Pairs(paths, pchids, channels)
    ensures WeightOk(pchids, room) <==> Fits(channels, room)
  {
    forall j | 0 <= j < |pchids| && pchids[j] in room
      ensures Share(pchids, room, j) >= 1.0 <==> Count(channels, pchids[j]) <= room[pchids[j]]
    {
      OccurrencesCount(paths, pchids, channels, pchids[j]);
      ShareFits(pchids, room, j);
    }
    if WeightOk(pchids, room) {
      forall p | p in channels ensures channels[p] in room && Count(channels, channels[p]) <= room[channels[p]] {
        var j := Index(paths, p);
        assert Share(pchids, room, j) >= 1.0;
      }
    }
    if Fits(channels, room) {
      forall j | 0 <= j < |pchids| ensures pchids[j] in room && Share(pchids, room, j) >= 1.0 {
        assert paths[j] in channels;
      }
    }
  }

  lemma GroupPairs(db: Tables, paths: seq<Path>, g: seq<Row>, m: map<Path, FcpId>)
    requires StrictlyIncreasing(paths) && |g| == |paths| && (forall j :: 0 <= j < |g| ==> g[j].1 in db.fcp)
    requires m == Zip(paths, Ids(g)) && forall p :: p in m ==> m[p] in db.fcp
    ensures Pairs(paths, Pchids(db, g), ChannelsOf(db, m))
  {
    forall j | 0 <= j < |paths| ensures paths[j] in m && m[paths[j]] == g[j].1 {
      assert m[paths[j]] == Ids(g)[j];
      assert paths[j] in Elements(paths);
    }
  }

  // ---------- the whole operation ----------

  predicate Listed(db: Tables, room: map<Pchid, int>, g: seq<Row>) {
    forall j :: 0 <= j < |g| ==> g[j].1 in db.fcp && db.fcp[g[j].1].pchid in room
  }

  predicate GroupOk(db: Tables, room: map<Pchid, int>, g: seq<Row>) {
    Listed(db, room, g) && WeightOk(Pchids(db, g), room)
  }

  lemma ListedPairs(db: Tables, paths: seq<Path>, g: seq<Row>, channels: Assignment, room: map<Pchid, int>)
    requires (forall j :: 0 <= j < |g| ==> g[j].1 in db.fcp) && Pairs(paths, Pchids(db, g), channels)
    ensures Listed(db, room, g) <==> forall p :: p in channels ==> channels[p] in room
  {
    var pchids := Pchids(db, g);
    forall p | p in channels && Listed(db, room, g) ensures channels[p] in room {
      assert channels[p] == pchids[Index(paths, p)];
    }
    if forall p :: p in channels ==> channels[p] in room {
      forall j | 0 <= j < |g| ensures db.fcp[g[j].1].pchid in room { assert channels[paths[j]] == pchids[j]; }
    }
  }

  /** A column is listed, respectively within capacity, exactly when its rank group is. */
  lemma ColumnVerdict(db: Tables, t: TmplId, paths: seq<Path>, counts: seq<nat>, rows: seq<Row>,
                      i: nat, g: seq<Row>, room: map<Pchid, int>) returns (m: map<Path, FcpId>)
    requires Aligned(db, t, paths, counts, rows) && Harmless(db, t)
    requires Good(db, rows, counts, i, |counts|) && Column(rows, counts, i, |counts|, g)
    ensures m == Zip(paths, Ids(g)) && RankGroup(db, t, i, m)
    ensures Listed(db, room, g) <==> forall p :: p in m ==> ChannelsOf(db, m)[p] in room
    ensures GroupOk(db, room, g) <==> Fits(ChannelsOf(db, m), room)
  {
    m := Zip(paths, Ids(g));
    ColumnIsGroup(db, t, paths, counts, rows, i, g);
    GroupVerdict(db, paths, g, m, room);
  }

  lemma GroupVerdict(db: Tables, paths: seq<Path>, g: seq<Row>, m: map<Path, FcpId>, room: map<Pchid, int>)
    requires StrictlyIncreasing(paths) && |g| == |paths| && (forall j :: 0 <= j < |g| ==> g[j].1 in db.fcp)
    requires m == Zip(paths, Ids(g)) && forall p :: p in m ==> m[p] in db.fcp
    ensures Listed(db, room, g) <==> forall p :: p in m ==> ChannelsOf(db, m)[p] in room
    ensures GroupOk(db, room, g) <==> Fits(ChannelsOf(db, m), room)
  {
    var channels := ChannelsOf(db, m);
    GroupPairs(db, paths, g, m);
    ListedPairs(db, paths, g, channels, room);
    WeightOkFits(paths, Pchids(db, g), channels, room);
  }

  /** `list(fcp_pair_map.values())` */
  method ValuesOf(groups: map<nat, seq<Row>>) returns (r: seq<seq<Row>>)
    ensures forall g :: g in r <==> g in groups.Values
  {
    r := [];
    var todo := groups.Keys;
    while todo != {}
      invariant todo <= groups.Keys
      invariant forall g :: g in r <==> exists i :: i in groups && i !in todo && groups[i] == g
      decreases |todo|
    {
      var i := Pick(todo);
      r := r + [groups[i]];
      todo := todo - {i};
    }
  }

  method ToDevices(db: Tables, g: seq<Row>) returns (l: seq<Device>)
    requires forall j :: 0 <= j < |g| ==> g[j].1 in db.fcp
    ensures |l| == |g|
    ensures forall j :: 0 <= j < |g| ==> l[j].path == g[j].0 && l[j].id == g[j].1 && Describes(db, l[j])
  {
    l := [];
    for j := 0 to |g|
      invariant |l| == j
      invariant forall k :: 0 <= k < j ==> l[k].path == g[k].0 && l[k].id == g[k].1 && Describes(db, l[k])
    {
      var row := db.fcp[g[j].1];
      l := l + [Device(g[j].1, row.wwpnNpiv, row.wwpnPhy, g[j].0, row.pchid)];
    }
  }

  ghost predicate DevicesOf(db: Tables, g: seq<Row>, l: seq<Device>) {
    |l| == |g| && forall j :: 0 <= j < |g| ==>
      l[j].path == g[j].0 && l[j].id == g[j].1 && l[j].id in db.fcp && Describes(db, l[j])
  }

  /** The verdict in terms of the collected columns. */
  ghost predicate Decided(db: Tables, room: map<Pchid, int>, groups: map<nat, seq<Row>>, r: Outcome) {
    if exists i :: i in groups && !Listed(db, room, groups[i]) then r == UnknownPchid
    else if exists i :: i in groups && GroupOk(db, room, groups[i]) then
      r.Group? && exists i :: i in groups && GroupOk(db, room, groups[i]) && DevicesOf(db, groups[i], r.list)
    else r == Group([])
  }

  lemma GroupFound(db: Tables, t: TmplId, paths: seq<Path>, counts: seq<nat>, rows: seq<Row>, room: map<Pchid, int>,
                   groups: map<nat, seq<Row>>, i: nat, m: map<Path, FcpId>)
    requires Aligned(db, t, paths, counts, rows) && Harmless(db, t) && Collected(db, rows, counts, groups)
    requires RankGroup(db, t, i, m)
    ensures i in groups
    ensures Listed(db, room, groups[i]) <==> forall p :: p in m ==> ChannelsOf(db, m)[p] in room
    ensures GroupOk(db, room, groups[i]) <==> Fits(ChannelsOf(db, m), room)
  {
    GroupIsGood(db, t, paths, counts, rows, i, m);
    GroupIsColumn(db, t, paths, counts, rows, i, m, groups[i]);
    var o := ColumnVerdict(db, t, paths, counts, rows, i, groups[i], room);
  }

  lemma ZipSize<V>(paths: seq<Path>, values: seq<V>)
    requires StrictlyIncreasing(paths) && |values| == |paths|
    ensures |Zip(paths, values)| == |paths|
  {
    DistinctSize(paths);
    assert |Zip(paths, values)| == |Zip(paths, values).Keys|;
  }

  lemma OrderedDevices(db: Tables, t: TmplId, paths: seq<Path>, counts: seq<nat>, rows: seq<Row>, i: nat, g: seq<Row>,
                       l: seq<Device>)
    requires Aligned(db, t, paths, counts, rows) && Harmless(db, t)
    requires Good(db, rows, counts, i, |counts|) && Column(rows, counts, i, |counts|, g) && DevicesOf(db, g, l)
    ensures InPathOrder(db, Zip(paths, Ids(g)), l)
  {
    ZipSize(paths, Ids(g));
    var m := Zip(paths, Ids(g));
    forall j | 0 <= j < |l| ensures l[j].path == paths[j] && l[j].path in m && m[l[j].path] == l[j].id {
      ColumnRow(db, t, paths, counts, rows, i, g, j);
      assert m[paths[j]] == Ids(g)[j];
      assert paths[j] in Elements(paths);
    }
  }

  /** Deciding on columns answers the question about ranks. */
  lemma DecidedAnswers(db: Tables, t: TmplId, paths: seq<Path>, counts: seq<nat>, rows: seq<Row>, room: map<Pchid, int>,
                       groups: map<nat, seq<Row>>, r: Outcome)
    requires Aligned(db, t, paths, counts, rows) && Harmless(db, t) && Collected(db, rows, counts, groups)
    requires AllPathsFree(db, t) && Decided(db, room, groups, r)
    ensures Answers(db, t, room, r)
  {
    assert paths != [] by { assert Elements(paths) != {}; }
    if i :| i in groups && !Listed(db, room, groups[i]) {
      var m := ColumnVerdict(db, t, paths, counts, rows, i, groups[i], room);
    } else {
      forall i, m | RankGroup(db, t, i, m)
        ensures i in groups && forall p :: p in m ==> ChannelsOf(db, m)[p] in room
        ensures GroupOk(db, room, groups[i]) <==> Fits(ChannelsOf(db, m), room)
      {
        GroupFound(db, t, paths, counts, rows, room, groups, i, m);
      }
      if i :| i in groups && GroupOk(db, room, groups[i]) {
        var k :| k in groups && GroupOk(db, room, groups[k]) && DevicesOf(db, groups[k], r.list);
        var m := ColumnVerdict(db, t, paths, counts, rows, k, groups[k], room);
        OrderedDevices(db, t, paths, counts, rows, k, groups[k], r.list);
        assert Fitting(db, t, room, k, m) && InPathOrder(db, m, r.list);
      }
    }
  }

  lemma NoOverrun(db: Tables, t: TmplId, paths: seq<Path>, counts: seq<nat>, rows: seq<Row>)
    requires Aligned(db, t, paths, counts, rows) && Harmless(db, t)
    ensures !Derails(db, rows, counts)
  {
    forall i, j | DerailsAt(db, rows, counts, i, j) ensures false {
      IndexLands(db, t, paths, counts, rows, j, i);
    }
  }

  /** Removal of the groups that exceed a channel's capacity, then a random pick. */
  method Choose(db: Tables, room: map<Pchid, int>, groups: map<nat, seq<Row>>) returns (r: Outcome)
    requires forall i, j :: i in groups && 0 <= j < |groups[i]| ==> groups[i][j].1 in db.fcp
    ensures Decided(db, room, groups, r)
  {
    var combos := ValuesOf(groups);
    for k := 0 to |combos|
      invariant forall n :: 0 <= n < k ==> Listed(db, room, combos[n])
    {
      if !Listed(db, room, combos[k]) {
        assert combos[k] in combos;
        return UnknownPchid;
      }
    }
    forall i | i in groups ensures Listed(db, room, groups[i]) && groups[i] in combos {
      assert groups[i] in groups.Values;
    }
    var valid := KeepOnly(combos, (g: seq<Row>) => GroupOk(db, room, g));
    if valid == [] {
      forall i | i in groups ensures !GroupOk(db, room, groups[i]) {
        assert groups[i] in combos && groups[i] !in valid;
      }
      return Group([]);
    }
    assert valid[0] in valid;
    var g :| g in valid;
    assert g in groups.Values;
    var l := ToDevices(db, g);
    r := Group(l);
    ghost var i :| i in groups && groups[i] == g;
    assert GroupOk(db, room, groups[i]) && DevicesOf(db, groups[i], l);
  }

  /** What the search makes of the query results. */
  ghost predicate Searches(db: Tables, room: map<Pchid, int>, counts: seq<nat>, rows: seq<Row>, r: Outcome) {
    if Derails(db, rows, counts) then r == OutOfRange
    else exists groups :: Collected(db, rows, counts, groups) && Decided(db, room, groups, r)
  }

  /** `r` is a possible result, whatever rows are missing. */
  ghost predicate Computes(db: Tables, t: TmplId, room: map<Pchid, int>, r: Outcome) {
    if !AllPathsFree(db, t) then r == Group([])
    else exists paths, counts, rows :: Aligned(db, t, paths, counts, rows) && Searches(db, room, counts, rows, r)
  }

  /** The search runs on the one pair of query results there is. */
  lemma SearchedOn(db: Tables, t: TmplId, room: map<Pchid, int>, paths: seq<Path>, counts: seq<nat>, rows: seq<Row>,
                   r: Outcome)
    requires Aligned(db, t, paths, counts, rows) && AllPathsFree(db, t)
    ensures Computes(db, t, room, r) <==> Searches(db, room, counts, rows, r)
  {
    if Computes(db, t, room, r) {
      var paths', counts', rows' :| Aligned(db, t, paths', counts', rows') && Searches(db, room, counts', rows', r);
      AlignedUnique(db, t, paths, counts, rows, paths', counts', rows');
    }
  }

  lemma CollectedUnique(db: Tables, rows: seq<Row>, counts: seq<nat>, groups: map<nat, seq<Row>>,
                        groups': map<nat, seq<Row>>)
    requires Collected(db, rows, counts, groups) && Collected(db, rows, counts, groups')
    ensures groups == groups'
  {
    forall i | i in groups ensures i in groups' && groups'[i] == groups[i] {
      assert Good(db, rows, counts, i, |counts|);
      assert Column(rows, counts, i, |counts|, groups[i]) && Column(rows, counts, i, |counts|, groups'[i]);
    }
    forall i | i in groups' ensures i in groups { assert Good(db, rows, counts, i, |counts|); }
  }

  /** Whether the search raises does not depend on the random choice. */
  lemma SearchRaises(db: Tables, room: map<Pchid, int>, counts: seq<nat>, rows: seq<Row>, list: seq<Device>)
    requires Searches(db, room, counts, rows, Group(list))
    ensures !Searches(db, room, counts, rows, UnknownPchid) && !Searches(db, room, counts, rows, OutOfRange)
  {
    var groups :| Collected(db, rows, counts, groups) && Decided(db, room, groups, Group(list));
    forall groups', r | Collected(db, rows, counts, groups') && Decided(db, room, groups', r) ensures r.Group? {
      CollectedUnique(db, rows, counts, groups, groups');
    }
  }

  /** Every non-empty result lists a column within capacity, of unused devices on the paths they are mapped to. */
  lemma ChosenColumn(db: Tables, t: TmplId, room: map<Pchid, int>, l: seq<Device>) returns (g: seq<Row>)
    requires Computes(db, t, room, Group(l)) && l != []
    ensures |g| == |TemplatePaths(db, t)| && GroupOk(db, room, g) && DevicesOf(db, g, l)
    ensures forall j :: 0 <= j < |g| ==> g[j] in MappedRows(db, t) && Idle(db, g[j])
  {
    var paths, counts, rows :| Aligned(db, t, paths, counts, rows) && Searches(db, room, counts, rows, Group(l));
    var groups :| Collected(db, rows, counts, groups) && Decided(db, room, groups, Group(l));
    var i :| i in groups && GroupOk(db, room, groups[i]) && DevicesOf(db, groups[i], l);
    g := groups[i];
    DistinctSize(paths);
    ColumnMapped(db, t, rows, counts, i, g);
  }

  lemma ColumnMapped(db: Tables, t: TmplId, rows: seq<Row>, counts: seq<nat>, i: nat, g: seq<Row>)
    requires Good(db, rows, counts, i, |counts|) && Column(rows, counts, i, |counts|, g)
    requires forall x :: x in rows <==> x in Joined(db, t)
    ensures forall j :: 0 <= j < |g| ==> g[j] in MappedRows(db, t) && Idle(db, g[j])
  {
    forall j | 0 <= j < |g| ensures g[j] in MappedRows(db, t) && Idle(db, g[j]) {
      assert rows[Offset(counts, j) + i] in rows;
    }
  }

  /** Where missing rows are harmless, the possible results are exactly the answers owed. */
  lemma ComputesAnswers(db: Tables, t: TmplId, room: map<Pchid, int>, r: Outcome)
    requires Harmless(db, t)
    ensures Computes(db, t, room, r) <==> Answers(db, t, room, r)
  {
    if AllPathsFree(db, t) {
      var paths, counts, rows := AlignedExists(db, t);
      assert paths != [] by { assert Elements(paths) != {}; }
      NoOverrun(db, t, paths, counts, rows);
      SearchedOn(db, t, room, paths, counts, rows, r);
      if Computes(db, t, room, r) {
        var groups :| Collected(db, rows, counts, groups) && Decided(db, room, groups, r);
        DecidedAnswers(db, t, paths, counts, rows, room, groups, r);
      }
      if Answers(db, t, room, r) {
        var groups := CollectedExists(db, rows, counts);
        AnswersDecided(db, t, paths, counts, rows, room, groups, r);
      }
    }
  }

  ghost function ColumnAt(rows: seq<Row>, counts: seq<nat>, i: nat): (g: seq<Row>)
    requires forall j :: 0 <= j < |counts| ==> Offset(counts, j) + i < |rows|
    ensures Column(rows, counts, i, |counts|, g)
  {
    seq(|counts|, j requires 0 <= j < |counts| => rows[Offset(counts, j) + i])
  }

  lemma CollectedExists(db: Tables, rows: seq<Row>, counts: seq<nat>) returns (groups: map<nat, seq<Row>>)
    requires counts != []
    ensures Collected(db, rows, counts, groups)
  {
    assert forall i: nat :: Good(db, rows, counts, i, |counts|) ==> i < counts[0];
    groups := map i: nat | i < counts[0] && Good(db, rows, counts, i, |counts|) :: ColumnAt(rows, counts, i);
  }

  /** Every answer owed is a verdict on the collected columns. */
  lemma AnswersDecided(db: Tables, t: TmplId, paths: seq<Path>, counts: seq<nat>, rows: seq<Row>,
                       room: map<Pchid, int>, groups: map<nat, seq<Row>>, r: Outcome)
    requires Aligned(db, t, paths, counts, rows) && Harmless(db, t) && Collected(db, rows, counts, groups)
    requires AllPathsFree(db, t) && Answers(db, t, room, r)
    ensures Decided(db, room, groups, r)
  {
    if SomeUnlisted(db, t, room) {
      var i, m :| RankGroup(db, t, i, m) && exists p :: p in m && ChannelsOf(db, m)[p] !in room;
      GroupFound(db, t, paths, counts, rows, room, groups, i, m);
    } else {
      forall i | i in groups ensures Listed(db, room, groups[i]) {
        var m := ColumnVerdict(db, t, paths, counts, rows, i, groups[i], room);
      }
      FittingDecided(db, t, paths, counts, rows, room, groups, r);
    }
  }

  lemma FittingDecided(db: Tables, t: TmplId, paths: seq<Path>, counts: seq<nat>, rows: seq<Row>,
                       room: map<Pchid, int>, groups: map<nat, seq<Row>>, r: Outcome)
    requires Aligned(db, t, paths, counts, rows) && Harmless(db, t) && Collected(db, rows, counts, groups)
    requires AllPathsFree(db, t) && !SomeUnlisted(db, t, room) && Answers(db, t, room, r)
    ensures if exists i :: i in groups && GroupOk(db, room, groups[i])
            then r.Group? && exists i :: i in groups && GroupOk(db, room, groups[i]) && DevicesOf(db, groups[i], r.list)
            else r == Group([])
  {
    if exists i, m :: Fitting(db, t, room, i, m) {
      var i, m :| Fitting(db, t, room, i, m) && InPathOrder(db, m, r.list);
      FittingListed(db, t, paths, counts, rows, room, groups, i, m, r.list);
    } else {
      NoneFits(db, t, paths, counts, rows, room, groups);
    }
  }

  lemma FittingListed(db: Tables, t: TmplId, paths: seq<Path>, counts: seq<nat>, rows: seq<Row>, room: map<Pchid, int>,
                      groups: map<nat, seq<Row>>, i: nat, m: map<Path, FcpId>, l: seq<Device>)
    requires Aligned(db, t, paths, counts, rows) && Harmless(db, t) && Collected(db, rows, counts, groups)
    requires Fitting(db, t, room, i, m) && InPathOrder(db, m, l)
    ensures i in groups && GroupOk(db, room, groups[i]) && DevicesOf(db, groups[i], l)
  {
    GroupFound(db, t, paths, counts, rows, room, groups, i, m);
    OrderedIsColumn(db, t, paths, counts, rows, i, m, groups[i], l);
  }

  lemma NoneFits(db: Tables, t: TmplId, paths: seq<Path>, counts: seq<nat>, rows: seq<Row>, room: map<Pchid, int>,
                 groups: map<nat, seq<Row>>)
    requires Aligned(db, t, paths, counts, rows) && Harmless(db, t) && Collected(db, rows, counts, groups)
    requires forall i, m :: !Fitting(db, t, room, i, m)
    ensures forall i :: i in groups ==> !GroupOk(db, room, groups[i])
  {
    forall i | i in groups ensures !GroupOk(db, room, groups[i]) {
      var m := ColumnVerdict(db, t, paths, counts, rows, i, groups[i], room);
      assert !Fitting(db, t, room, i, m);
    }
  }

  /** A group listed in path order is the column of its rank. */
  lemma OrderedIsColumn(db: Tables, t: TmplId, paths: seq<Path>, counts: seq<nat>, rows: seq<Row>, i: nat,
                        m: map<Path, FcpId>, g: seq<Row>, l: seq<Device>)
    requires Aligned(db, t, paths, counts, rows) && Harmless(db, t) && RankGroup(db, t, i, m)
    requires Good(db, rows, counts, i, |counts|) && Column(rows, counts, i, |counts|, g) && InPathOrder(db, m, l)
    ensures DevicesOf(db, g, l)
  {
    OrderIsPaths(db, paths, m, l);
    forall j | 0 <= j < |paths| ensures l[j].path == g[j].0 && l[j].id == g[j].1 {
      assert PathList(l)[j] == paths[j];
      ColumnMember(db, t, paths, counts, rows, i, m, g, j);
    }
  }

  lemma ColumnMember(db: Tables, t: TmplId, paths: seq<Path>, counts: seq<nat>, rows: seq<Row>, i: nat,
                     m: map<Path, FcpId>, g: seq<Row>, j: nat)
    requires Aligned(db, t, paths, counts, rows) && Harmless(db, t) && RankGroup(db, t, i, m) && j < |paths|
    requires Good(db, rows, counts, i, |counts|) && Column(rows, counts, i, |counts|, g)
    ensures paths[j] in m && g[j] == (paths[j], m[paths[j]])
  {
    ColumnRow(db, t, paths, counts, rows, i, g, j);
    GroupRow(db, t, paths, counts, rows, i, m, j);
  }

  lemma OrderIsPaths(db: Tables, paths: seq<Path>, m: map<Path, FcpId>, l: seq<Device>)
    requires StrictlyIncreasing(paths) && Elements(paths) == m.Keys && InPathOrder(db, m, l)
    ensures PathList(l) == paths
  {
    var order := PathList(l);
    DistinctSize(order);
    SubsetFull(Elements(order), m.Keys);
    Allocator.IntOrder();
    forall p ensures p in order <==> p in paths {
      assert p in order <==> p in Elements(order);
      assert p in paths <==> p in Elements(paths);
    }
    SortedUnique(order, paths, Allocator.IntLeq);
  }

  /** The group returned is unused and of one rank, and none is returned only when there is none. */
  method GetSameIndex(db: Tables, t: TmplId, info: map<Pchid, ChannelInfo>) returns (r: Outcome)
    ensures Computes(db, t, Room(info), r)
    ensures Harmless(db, t) ==> Answers(db, t, Room(info), r) && !r.OutOfRange?
    ensures r.Group? ==> forall e :: e in r.list ==> Grantable(db, t, e.id)
    ensures r.Group? ==> Columns.WithinMax(info, r.list) && forall e :: e in r.list ==> Columns.IdleEntry(db, t, e)
    ensures forall i, m :: FulfilsRank(db, t, info, i, m) ==> r.Group? && r.list != []
  {
    r := SearchRanks(db, t, info);
    if r.Group? && r.list != [] { ResultWithinMax(db, t, info, r.list); }
    forall i, m | FulfilsRank(db, t, info, i, m) ensures r.Group? && r.list != [] {
      RankAnswered(db, t, info, i, m, r);
    }
  }

  /** A group of one rank within every channel's maximum, where the other outcomes are excluded. */
  ghost predicate FulfilsRank(db: Tables, t: TmplId, info: map<Pchid, ChannelInfo>, i: nat, m: map<Path, FcpId>) {
    && Columns.IdleRank(db, t, i, m) && Columns.ChoiceWithinMax(db, info, m) && Columns.StatisticsComplete(db, t, info)
    && Columns.EveryPathFree(db, t) && Harmless(db, t)
  }

  /** With the devices in use already, the result stays within every channel's maximum. */
  lemma ResultWithinMax(db: Tables, t: TmplId, info: map<Pchid, ChannelInfo>, l: seq<Device>)
    requires Computes(db, t, Room(info), Group(l)) && l != []
    ensures Columns.WithinMax(info, l) && forall e :: e in l ==> Columns.IdleEntry(db, t, e)
  {
    var g := ChosenColumn(db, t, Room(info), l);
    forall i | 0 <= i < |l|
      ensures Columns.IdleEntry(db, t, l[i]) && l[i].pchid in info
      ensures info[l[i].pchid].inUse + |Columns.Using(l, l[i].pchid)| <= info[l[i].pchid].max
    {
      MappedRow(db, t, g[i]);
      ChannelWithinMax(db, info, g, l, i);
    }
  }

  lemma ChannelWithinMax(db: Tables, info: map<Pchid, ChannelInfo>, g: seq<Row>, l: seq<Device>, i: nat)
    requires GroupOk(db, Room(info), g) && DevicesOf(db, g, l) && i < |l|
    ensures l[i].pchid in info
    ensures info[l[i].pchid].inUse + |Columns.Using(l, l[i].pchid)| <= info[l[i].pchid].max
  {
    var pchids := Pchids(db, g);
    assert Share(pchids, Room(info), i) >= 1.0;
    ShareFits(pchids, Room(info), i);
    assert Positions(pchids, l[i].pchid) == Columns.Using(l, l[i].pchid);
  }

  /** Such a group forces a result. */
  lemma RankAnswered(db: Tables, t: TmplId, info: map<Pchid, ChannelInfo>, i: nat, m: map<Path, FcpId>, r: Outcome)
    requires Computes(db, t, Room(info), r) && FulfilsRank(db, t, info, i, m)
    ensures r.Group? && r.list != []
  {
    ComputesAnswers(db, t, Room(info), r);
    FreeEverywhere(db, t);
    RankFits(db, t, info, i, m);
    forall k, o | RankGroup(db, t, k, o) ensures forall p :: p in o ==> ChannelsOf(db, o)[p] in Room(info) {
      forall p | p in o ensures ChannelsOf(db, o)[p] in Room(info) {
        assert AtRank(db, t, p, k, o[p]);
        MappedRow(db, t, (p, o[p]));
      }
    }
    assert Fitting(db, t, Room(info), i, m);
  }

  lemma FreeEverywhere(db: Tables, t: TmplId)
    requires Columns.EveryPathFree(db, t)
    ensures AllPathsFree(db, t)
  {
    assert Columns.PathsOf(db, t) == TemplatePaths(db, t);
    FreeWithin(db, t);
    forall p | p in TemplatePaths(db, t) ensures p in FreePaths(db, t) {
      var d :| Columns.FreeChoice(db, t, map[p := d]);
      assert p in map[p := d];
      assert d in FreeDevices(db, t);
    }
  }

  lemma RankFits(db: Tables, t: TmplId, info: map<Pchid, ChannelInfo>, i: nat, m: map<Path, FcpId>)
    requires Columns.IdleRank(db, t, i, m) && Columns.ChoiceWithinMax(db, info, m)
    ensures RankGroup(db, t, i, m) && Fits(ChannelsOf(db, m), Room(info))
  {
    assert Columns.PathsOf(db, t) == TemplatePaths(db, t);
    forall p | p in m ensures AtRank(db, t, p, i, m[p]) {
      MappedRow(db, t, (p, m[p]));
      assert Columns.Preceding(db, t, p, m[p]) == Smaller(db, t, p, m[p]);
    }
    var channels := ChannelsOf(db, m);
    forall p | p in channels
      ensures channels[p] in Room(info) && Count(channels, channels[p]) <= Room(info)[channels[p]]
    {
      assert Users(channels, channels[p]) == Columns.PathsOn(db, m, channels[p]);
    }
  }

  method SearchRanks(db: Tables, t: TmplId, info: map<Pchid, ChannelInfo>) returns (r: Outcome)
    ensures Computes(db, t, Room(info), r)
    ensures Harmless(db, t) ==> Answers(db, t, Room(info), r) && !r.OutOfRange?
    ensures r.Group? ==> forall e :: e in r.list ==> Grantable(db, t, e.id)
  {
    var room := Room(info);
    Allocator.IntOrder();
    var paths := SortSet(TemplatePaths(db, t), Allocator.IntLeq);
    assert Elements(paths) == TemplatePaths(db, t);
    var counts := seq(|paths|, j requires 0 <= j < |paths| => |On(db, t, paths[j])|);
    if counts == [] {
      return Group([]);
    }
    FreeWithin(db, t);
    if |FreePaths(db, t)| < |counts| {
      return Group([]);
    }
    SubsetFull(FreePaths(db, t), TemplatePaths(db, t));
    assert paths[0] in Elements(paths);
    RowLeqOrder();
    var rows := SortSet(Joined(db, t), RowLeq);
    assert Aligned(db, t, paths, counts, rows);
    var ok, groups := CollectGroups(db, rows, counts);
    if !ok {
      r := OutOfRange;
    } else {
      r := Choose(db, room, groups);
      if r.Group? { ChosenIdle(db, t, room, rows, counts, groups, r); }
    }
    assert Searches(db, room, counts, rows, r);
    if Harmless(db, t) { ComputesAnswers(db, t, room, r); }
  }

  /** Whatever the alignment, only unused devices of the template are chosen. */
  lemma ChosenIdle(db: Tables, t: TmplId, room: map<Pchid, int>, rows: seq<Row>, counts: seq<nat>,
                   groups: map<nat, seq<Row>>, r: Outcome)
    requires Collected(db, rows, counts, groups) && Decided(db, room, groups, r) && r.Group?
    requires forall x :: x in rows <==> x in Joined(db, t)
    ensures forall e :: e in r.list ==> Grantable(db, t, e.id)
  {
    if r.list != [] {
      var i :| i in groups && GroupOk(db, room, groups[i]) && DevicesOf(db, groups[i], r.list);
      ColumnIdle(db, t, rows, counts, i, groups[i], r.list);
    }
  }

  lemma ColumnIdle(db: Tables, t: TmplId, rows: seq<Row>, counts: seq<nat>, i: nat, g: seq<Row>, l: seq<Device>)
    requires Good(db, rows, counts, i, |counts|) && Column(rows, counts, i, |counts|, g) && DevicesOf(db, g, l)
    requires forall x :: x in rows <==> x in Joined(db, t)
    ensures forall e :: e in l ==> Grantable(db, t, e.id)
  {
    forall e | e in l ensures Grantable(db, t, e.id) {
      var j :| 0 <= j < |l| && l[j] == e;
      GroupIdle(db, t, rows, counts, i, g, j);
    }
  }

  lemma GroupIdle(db: Tables, t: TmplId, rows: seq<Row>, counts: seq<nat>, i: nat, g: seq<Row>, j: nat)
    requires Good(db, rows, counts, i, |counts|) && Column(rows, counts, i, |counts|, g) && j < |g|
    requires forall x :: x in rows <==> x in Joined(db, t)
    ensures Grantable(db, t, g[j].1)
  {
    assert rows[Offset(counts, j) + i] in rows;
    MappedRow(db, t, g[j]);
  }

  lemma FreeWithin(db: Tables, t: TmplId)
    ensures FreePaths(db, t) <= TemplatePaths(db, t)
    ensures |FreePaths(db, t)| <= |TemplatePaths(db, t)|
  {
    forall p | p in FreePaths(db, t) ensures p in TemplatePaths(db, t) {
      var d :| d in FreeDevices(db, t) && db.fcpMapping[(d, t)] == p;
      assert (d, t) in db.fcpMapping;
    }
    SubsetSize(FreePaths(db, t), TemplatePaths(db, t));
  }
}
