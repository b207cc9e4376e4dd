/** Where the same-index allocator falls short of its description: exactly when a returned device may have
    no WWPN, exactly when a group may be of different ranks, and tables on which it goes astray. */
module SameIndexLimits {
  import opened Lists
  import opened FcpTables
  import opened AllocationSpec
  import opened SameIndex
  import Allocator

  // ---------- the promise of known WWPNs ----------

  ghost predicate KnownDevices(r: Outcome) {
    r.Group? ==> forall e :: e in r.list ==> e.wwpnNpiv != "" && e.wwpnPhy != ""
  }

  ghost predicate KnownGroup(db: Tables, m: map<Path, FcpId>) {
    forall p :: p in m ==> m[p] in db.fcp && db.fcp[m[p]].wwpnNpiv != "" && db.fcp[m[p]].wwpnPhy != ""
  }

  lemma ListInPathOrder(db: Tables, m: map<Path, FcpId>) returns (l: seq<Device>)
    requires forall p :: p in m ==> m[p] in db.fcp
    ensures InPathOrder(db, m, l)
  {
    Allocator.IntOrder();
    var order := SortedExists(m.Keys, Allocator.IntLeq);
    DistinctSize(order);
    assert Elements(order) == m.Keys;
    forall i | 0 <= i < |order| ensures order[i] in m { assert order[i] in order; }
    l := seq(|order|, i requires 0 <= i < |order| =>
      var row := db.fcp[m[order[i]]]; Device(m[order[i]], row.wwpnNpiv, row.wwpnPhy, order[i], row.pchid));
  }

  lemma KnownTogether(db: Tables, m: map<Path, FcpId>, l: seq<Device>)
    requires (forall p :: p in m ==> m[p] in db.fcp) && InPathOrder(db, m, l)
    ensures KnownDevices(Group(l)) <==> KnownGroup(db, m)
  {
    if KnownDevices(Group(l)) {
      var paths := PathList(l);
      DistinctSize(paths);
      SubsetFull(Elements(paths), m.Keys);
      forall p | p in m ensures db.fcp[m[p]].wwpnNpiv != "" && db.fcp[m[p]].wwpnPhy != "" {
        assert p in Elements(paths);
        var i :| 0 <= i < |l| && paths[i] == p;
        assert l[i] in l;
      }
    }
  }

  /** Every fitting group is an answer. */
  lemma FittingAnswers(db: Tables, t: TmplId, room: map<Pchid, int>, i: nat, m: map<Path, FcpId>)
    returns (r: Outcome)
    requires AllPathsFree(db, t) && !SomeUnlisted(db, t, room) && Fitting(db, t, room, i, m)
    ensures Answers(db, t, room, r) && r.Group? && InPathOrder(db, m, r.list)
  {
    var l := ListInPathOrder(db, m);
    assert m.Keys != {};
    r := Group(l);
  }

  /** The only groups the allocator can choose from have known WWPNs. */
  ghost predicate FittingKnown(db: Tables, t: TmplId, room: map<Pchid, int>) {
    AllPathsFree(db, t) && !SomeUnlisted(db, t, room) ==>
      forall i, m :: Fitting(db, t, room, i, m) ==> KnownGroup(db, m)
  }

  lemma AnswersKnown(db: Tables, t: TmplId, room: map<Pchid, int>, r: Outcome)
    requires FittingKnown(db, t, room) && Answers(db, t, room, r)
    ensures KnownDevices(r)
  {
    if r.Group? && r.list != [] {
      var i, m :| Fitting(db, t, room, i, m) && InPathOrder(db, m, r.list);
      KnownTogether(db, m, r.list);
    }
  }

  /** In terms of ranks: the answers owed have the documented WWPNs for every random choice, if and only if
      every group of unused devices of one rank within capacity has them; where missing rows are harmless,
      the same holds of the results. */
  lemma RankPromise(db: Tables, t: TmplId, room: map<Pchid, int>)
    ensures (forall r :: Answers(db, t, room, r) ==> KnownDevices(r)) <==> FittingKnown(db, t, room)
    ensures Harmless(db, t) ==>
              ((forall r :: Computes(db, t, room, r) ==> KnownDevices(r)) <==> FittingKnown(db, t, room))
  {
    if FittingKnown(db, t, room) {
      forall r | Answers(db, t, room, r) ensures KnownDevices(r) { AnswersKnown(db, t, room, r); }
    }
    if AllPathsFree(db, t) && !SomeUnlisted(db, t, room) && forall r :: Answers(db, t, room, r) ==> KnownDevices(r) {
      forall i, m | Fitting(db, t, room, i, m) ensures KnownGroup(db, m) {
        var r := FittingAnswers(db, t, room, i, m);
        KnownTogether(db, m, r.list);
      }
    }
    if Harmless(db, t) {
      forall r ensures Computes(db, t, room, r) <==> Answers(db, t, room, r) { ComputesAnswers(db, t, room, r); }
    }
  }

  // ---------- what can be returned, whatever rows are missing ----------

  /** `groups` holds the complete columns of the query results, if the template has any path. */
  ghost predicate Queried(db: Tables, t: TmplId, paths: seq<Path>, counts: seq<nat>, rows: seq<Row>,
                          groups: map<nat, seq<Row>>) {
    Aligned(db, t, paths, counts, rows) && (paths != [] ==> Collected(db, rows, counts, groups))
  }

  /** Column number `i` is one the allocator can choose. */
  ghost predicate Choosable(db: Tables, t: TmplId, room: map<Pchid, int>, counts: seq<nat>, rows: seq<Row>,
                            groups: map<nat, seq<Row>>, i: nat) {
    && AllPathsFree(db, t) && !Derails(db, rows, counts) && (forall k :: k in groups ==> Listed(db, room, groups[k]))
    && i in groups && GroupOk(db, room, groups[i])
  }

  lemma PathsQueried(db: Tables, t: TmplId, paths: seq<Path>, counts: seq<nat>, rows: seq<Row>)
    requires Aligned(db, t, paths, counts, rows) && AllPathsFree(db, t)
    ensures paths != []
  {
    assert Elements(paths) != {};
  }

  lemma PossibleIsChoosable(db: Tables, t: TmplId, room: map<Pchid, int>, counts: seq<nat>, rows: seq<Row>,
                            groups: map<nat, seq<Row>>, l: seq<Device>) returns (i: nat)
    requires AllPathsFree(db, t) && Collected(db, rows, counts, groups) && l != []
    requires Searches(db, room, counts, rows, Group(l))
    ensures Choosable(db, t, room, counts, rows, groups, i) && DevicesOf(db, groups[i], l)
  {
    var groups' :| Collected(db, rows, counts, groups') && Decided(db, room, groups', Group(l));
    CollectedUnique(db, rows, counts, groups, groups');
    i :| i in groups && GroupOk(db, room, groups[i]) && DevicesOf(db, groups[i], l);
  }

  lemma ChoosableIsPossible(db: Tables, t: TmplId, room: map<Pchid, int>, counts: seq<nat>, rows: seq<Row>,
                            groups: map<nat, seq<Row>>, l: seq<Device>, i: nat)
    requires Collected(db, rows, counts, groups)
    requires Choosable(db, t, room, counts, rows, groups, i) && DevicesOf(db, groups[i], l)
    ensures Searches(db, room, counts, rows, Group(l))
  {
    assert Decided(db, room, groups, Group(l));
  }

  /** A non-empty group is a possible result if and only if it lists a column that can be chosen. */
  lemma PossibleGroups(db: Tables, t: TmplId, room: map<Pchid, int>, paths: seq<Path>, counts: seq<nat>,
                       rows: seq<Row>, groups: map<nat, seq<Row>>, l: seq<Device>)
    requires Queried(db, t, paths, counts, rows, groups) && l != []
    ensures Computes(db, t, room, Group(l)) <==>
            exists i :: Choosable(db, t, room, counts, rows, groups, i) && DevicesOf(db, groups[i], l)
  {
    if AllPathsFree(db, t) {
      PathsQueried(db, t, paths, counts, rows);
      SearchedOn(db, t, room, paths, counts, rows, Group(l));
      if Searches(db, room, counts, rows, Group(l)) {
        var i := PossibleIsChoosable(db, t, room, counts, rows, groups, l);
      }
      if i :| Choosable(db, t, room, counts, rows, groups, i) && DevicesOf(db, groups[i], l) {
        ChoosableIsPossible(db, t, room, counts, rows, groups, l, i);
      }
    }
  }

  /** The list returned for a column. */
  ghost function Listing(db: Tables, g: seq<Row>): (l: seq<Device>)
    requires forall j :: 0 <= j < |g| ==> g[j].1 in db.fcp
    ensures DevicesOf(db, g, l)
  {
    seq(|g|, j requires 0 <= j < |g| =>
      var row := db.fcp[g[j].1]; Device(g[j].1, row.wwpnNpiv, row.wwpnPhy, g[j].0, row.pchid))
  }

  lemma ChoosableListed(db: Tables, t: TmplId, room: map<Pchid, int>, paths: seq<Path>, counts: seq<nat>,
                        rows: seq<Row>, groups: map<nat, seq<Row>>, i: nat)
    requires Queried(db, t, paths, counts, rows, groups) && Choosable(db, t, room, counts, rows, groups, i)
    ensures |groups[i]| == |paths| > 0 && forall j :: 0 <= j < |groups[i]| ==> groups[i][j].1 in db.fcp
    ensures Computes(db, t, room, Group(Listing(db, groups[i])))
  {
    PathsQueried(db, t, paths, counts, rows);
    assert Column(rows, counts, i, |counts|, groups[i]);
    PossibleGroups(db, t, room, paths, counts, rows, groups, Listing(db, groups[i]));
  }

  ghost predicate KnownColumn(db: Tables, g: seq<Row>) {
    forall j :: 0 <= j < |g| ==> g[j].1 in db.fcp && db.fcp[g[j].1].wwpnNpiv != "" && db.fcp[g[j].1].wwpnPhy != ""
  }

  lemma KnownListing(db: Tables, g: seq<Row>, l: seq<Device>)
    requires DevicesOf(db, g, l)
    ensures KnownDevices(Group(l)) <==> KnownColumn(db, g)
  {
    if KnownDevices(Group(l)) {
      forall j | 0 <= j < |g| ensures l[j].wwpnNpiv != "" && l[j].wwpnPhy != "" { assert l[j] in l; }
    }
  }

  /** The documented WWPNs are there for every random choice, if and only if every column that can be chosen
      has them. This holds for all tables. */
  lemma WwpnPromise(db: Tables, t: TmplId, room: map<Pchid, int>, paths: seq<Path>, counts: seq<nat>,
                    rows: seq<Row>, groups: map<nat, seq<Row>>)
    requires Queried(db, t, paths, counts, rows, groups)
    ensures (forall r :: Computes(db, t, room, r) ==> KnownDevices(r)) <==>
            forall i :: Choosable(db, t, room, counts, rows, groups, i) ==> KnownColumn(db, groups[i])
  {
    if forall r :: Computes(db, t, room, r) ==> KnownDevices(r) {
      forall i | Choosable(db, t, room, counts, rows, groups, i) ensures KnownColumn(db, groups[i]) {
        ChoosableListed(db, t, room, paths, counts, rows, groups, i);
        KnownListing(db, groups[i], Listing(db, groups[i]));
      }
    }
    if forall i :: Choosable(db, t, room, counts, rows, groups, i) ==> KnownColumn(db, groups[i]) {
      forall r | Computes(db, t, room, r) && r.Group? && r.list != [] ensures KnownDevices(r) {
        PossibleGroups(db, t, room, paths, counts, rows, groups, r.list);
        var i :| Choosable(db, t, room, counts, rows, groups, i) && DevicesOf(db, groups[i], r.list);
        KnownListing(db, groups[i], r.list);
      }
    }
  }

  /** One device of rank `k` on every path, in path order. */
  ghost predicate DevicesOfRank(db: Tables, t: TmplId, paths: seq<Path>, l: seq<Device>, k: nat) {
    |l| == |paths| && forall j :: 0 <= j < |l| ==> l[j].path == paths[j] && AtRank(db, t, paths[j], k, l[j].id)
  }

  ghost predicate RowsOfRank(db: Tables, t: TmplId, paths: seq<Path>, g: seq<Row>, k: nat) {
    |g| == |paths| && forall j :: 0 <= j < |g| ==> g[j].0 == paths[j] && AtRank(db, t, paths[j], k, g[j].1)
  }

  ghost predicate OfOneRank(db: Tables, t: TmplId, paths: seq<Path>, l: seq<Device>) {
    exists k :: DevicesOfRank(db, t, paths, l, k)
  }

  ghost predicate ColumnOfOneRank(db: Tables, t: TmplId, paths: seq<Path>, g: seq<Row>) {
    exists k :: RowsOfRank(db, t, paths, g, k)
  }

  lemma RankedListing(db: Tables, t: TmplId, paths: seq<Path>, g: seq<Row>, l: seq<Device>)
    requires DevicesOf(db, g, l)
    ensures OfOneRank(db, t, paths, l) <==> ColumnOfOneRank(db, t, paths, g)
  {
    forall k ensures DevicesOfRank(db, t, paths, l, k) <==> RowsOfRank(db, t, paths, g, k) {}
  }

  /** Every group returned has one device of the same rank on each path, if and only if every column that can
      be chosen does. This holds for all tables. */
  lemma OneRankPromise(db: Tables, t: TmplId, room: map<Pchid, int>, paths: seq<Path>, counts: seq<nat>,
                       rows: seq<Row>, groups: map<nat, seq<Row>>)
    requires Queried(db, t, paths, counts, rows, groups)
    ensures (forall l :: l != [] && Computes(db, t, room, Group(l)) ==> OfOneRank(db, t, paths, l)) <==>
            forall i :: Choosable(db, t, room, counts, rows, groups, i) ==> ColumnOfOneRank(db, t, paths, groups[i])
  {
    if forall l :: l != [] && Computes(db, t, room, Group(l)) ==> OfOneRank(db, t, paths, l) {
      forall i | Choosable(db, t, room, counts, rows, groups, i) ensures ColumnOfOneRank(db, t, paths, groups[i]) {
        ChoosableListed(db, t, room, paths, counts, rows, groups, i);
        RankedListing(db, t, paths, groups[i], Listing(db, groups[i]));
      }
    }
    if forall i :: Choosable(db, t, room, counts, rows, groups, i) ==> ColumnOfOneRank(db, t, paths, groups[i]) {
      forall l | l != [] && Computes(db, t, room, Group(l)) ensures OfOneRank(db, t, paths, l) {
        PossibleGroups(db, t, room, paths, counts, rows, groups, l);
        var i :| Choosable(db, t, room, counts, rows, groups, i) && DevicesOf(db, groups[i], l);
        RankedListing(db, t, paths, groups[i], l);
      }
    }
  }

  // ---------- examples ----------

  const T: TmplId := "t"

  /** A free device on channel `q` with the given WWPN. */
  function FreeRow(wwpn: string): FcpRow {
    FcpRow("", 0, 0, wwpn, wwpn, "c", "q", "free", "NONE", "")
  }

  function WithDevices(fcp: map<FcpId, FcpRow>, mapping: map<(FcpId, TmplId), Path>): Tables {
    Tables(fcp, map[T := TemplateRow("n", "", 0, -1)], map[], mapping)
  }

  /** With one complete column within capacity, that column is the only possible result. */
  lemma OnlyColumn(db: Tables, room: map<Pchid, int>, counts: seq<nat>, rows: seq<Row>, i: nat, g: seq<Row>, r: Outcome)
    requires OneColumn(db, counts, rows, i, g) && HasRoom(room, |g|) && Searches(db, room, counts, rows, r)
    ensures r.Group? && DevicesOf(db, g, r.list)
  {
    var groups :| Collected(db, rows, counts, groups) && Decided(db, room, groups, r);
    assert i in groups && Column(rows, counts, i, |counts|, groups[i]);
    assert groups[i] == g;
    RoomForAll(db, g, room);
  }

  /** Channel `q` has room for `n` devices. */
  predicate HasRoom(room: map<Pchid, int>, n: int) {
    "q" in room && n <= room["q"]
  }

  /** `g` is the only complete column, on channel `q` throughout. */
  ghost predicate OneColumn(db: Tables, counts: seq<nat>, rows: seq<Row>, i: nat, g: seq<Row>) {
    && !Derails(db, rows, counts) && Column(rows, counts, i, |counts|, g)
    && (forall k: nat :: Good(db, rows, counts, k, |counts|) <==> k == i)
    && forall j :: 0 <= j < |g| ==> g[j].1 in db.fcp && db.fcp[g[j].1].pchid == "q"
  }

  lemma {:induction false} AtMostLength(pchids: seq<Pchid>, q: Pchid)
    ensures Occurrences(pchids, q) <= |pchids|
  {
    if pchids != [] {
      var n := |pchids| - 1;
      AtMostLength(pchids[..n], q);
      assert Positions(pchids, q) <= Positions(pchids[..n], q) + {n};
      SubsetSize(Positions(pchids, q), Positions(pchids[..n], q) + {n});
    }
  }

  /** A group of devices on channel `q` fits when there is room for as many. */
  lemma RoomForAll(db: Tables, g: seq<Row>, room: map<Pchid, int>)
    requires forall j :: 0 <= j < |g| ==> g[j].1 in db.fcp && db.fcp[g[j].1].pchid == "q"
    requires HasRoom(room, |g|)
    ensures GroupOk(db, room, g)
  {
    var pchids := Pchids(db, g);
    forall j | 0 <= j < |pchids| ensures Share(pchids, room, j) >= 1.0 {
      AtMostLength(pchids, "q");
      ShareFits(pchids, room, j);
    }
  }

  /** The query results of a template with paths 0 and 1. */
  lemma TwoPaths(db: Tables, room: map<Pchid, int>, first: nat, second: nat, rows: seq<Row>, r: Outcome)
    requires TemplatePaths(db, T) == {0, 1} && AllPathsFree(db, T)
    requires first == |On(db, T, 0)| && second == |On(db, T, 1)|
    requires SortedBy(rows, RowLeq) && forall x :: x in rows <==> x in Joined(db, T)
    ensures Computes(db, T, room, r) <==> Searches(db, room, [first, second], rows, r)
  {
    assert Elements([0, 1]) == {0, 1};
    SearchedOn(db, T, room, [0, 1], [first, second], rows, r);
  }

  lemma Offsets(counts: seq<nat>)
    ensures Offset(counts, 0) == 0
    ensures |counts| >= 1 ==> Offset(counts, 1) == counts[0]
  {
  }

  /** Rank 0 of the first path has no WWPN, but its path has a device that passes the free filter. */
  const NO_WWPN: Tables := WithDevices(
    map["a" := FreeRow(""), "b" := FreeRow("w"), "c" := FreeRow("w")],
    map[("a", T) := 0, ("b", T) := 0, ("c", T) := 1])

  const NO_WWPN_ROWS: seq<Row> := [(0, "a"), (0, "b"), (1, "c")]

  lemma NoWwpnTables()
    ensures On(NO_WWPN, T, 0) == {"a", "b"} && On(NO_WWPN, T, 1) == {"c"}
    ensures TemplatePaths(NO_WWPN, T) == {0, 1} && AllPathsFree(NO_WWPN, T)
  {
    var db := NO_WWPN;
    assert ("a", T) in db.fcpMapping && ("b", T) in db.fcpMapping && ("c", T) in db.fcpMapping;
    assert FreeDevices(db, T) == {"b", "c"};
    assert FreePaths(db, T) == {0, 1};
  }

  lemma NoWwpnSorted()
    ensures SortedBy(NO_WWPN_ROWS, RowLeq)
  {
    assert StringLeq("a", "b");
  }

  lemma NoWwpnJoined()
    ensures forall r :: r in NO_WWPN_ROWS <==> r in Joined(NO_WWPN, T)
  {
    forall r ensures r in NO_WWPN_ROWS <==> r in Joined(NO_WWPN, T) { MappedRow(NO_WWPN, T, r); }
  }

  lemma NoWwpnSearched(room: map<Pchid, int>, r: Outcome)
    ensures Computes(NO_WWPN, T, room, r) <==> Searches(NO_WWPN, room, [2, 1], NO_WWPN_ROWS, r)
  {
    NoWwpnTables();
    NoWwpnJoined();
    NoWwpnSorted();
    TwoPaths(NO_WWPN, room, 2, 1, NO_WWPN_ROWS, r);
  }

  /** The promise fails: every result hands out device `a`, whose WWPNs are empty. */
  lemma WwpnMissing(r: Outcome)
    ensures Computes(NO_WWPN, T, map["q" := 2], r) ==>
      r.Group? && |r.list| == 2 && r.list[0].id == "a" && r.list[0].wwpnNpiv == "" && r.list[1].id == "c"
  {
    NoWwpnSearched(map["q" := 2], r);
    NoWwpnColumn();
    if Searches(NO_WWPN, map["q" := 2], [2, 1], NO_WWPN_ROWS, r) {
      OnlyColumn(NO_WWPN, map["q" := 2], [2, 1], NO_WWPN_ROWS, 0, [(0, "a"), (1, "c")], r);
    }
  }

  lemma NoWwpnColumn()
    ensures OneColumn(NO_WWPN, [2, 1], NO_WWPN_ROWS, 0, [(0, "a"), (1, "c")])
  {
    var counts: seq<nat> := [2, 1];
    Offsets(counts);
    assert forall k: nat :: Common(counts, k) ==> k < counts[1];
    assert Good(NO_WWPN, NO_WWPN_ROWS, counts, 0, 2);
  }

  /** Device `a` has no row, so later indices are off by one; `c` has the given WWPN and `b` the
      given channel. */
  function Shifted(wwpn: string, pchid: Pchid): Tables {
    WithDevices(
      map["b" := FreeRow("w").(pchid := pchid), "c" := FreeRow(wwpn), "d" := FreeRow("w").(reserved := 1),
          "e" := FreeRow("w")],
      map[("a", T) := 0, ("b", T) := 0, ("c", T) := 1, ("d", T) := 1, ("e", T) := 1])
  }

  const SHIFTED_ROWS: seq<Row> := [(0, "b"), (1, "c"), (1, "d"), (1, "e")]

  lemma ShiftedTables(wwpn: string, pchid: Pchid)
    ensures On(Shifted(wwpn, pchid), T, 0) == {"a", "b"} && On(Shifted(wwpn, pchid), T, 1) == {"c", "d", "e"}
    ensures TemplatePaths(Shifted(wwpn, pchid), T) == {0, 1} && AllPathsFree(Shifted(wwpn, pchid), T)
  {
    var db := Shifted(wwpn, pchid);
    assert ("a", T) in db.fcpMapping && ("b", T) in db.fcpMapping && ("c", T) in db.fcpMapping;
    assert ("d", T) in db.fcpMapping && ("e", T) in db.fcpMapping;
    assert FreeDevices(db, T) == if wwpn == "" then {"b", "e"} else {"b", "c", "e"};
    assert FreePaths(db, T) == {0, 1};
  }

  lemma ShiftedSorted()
    ensures SortedBy(SHIFTED_ROWS, RowLeq)
  {
    assert StringLeq("c", "d") && StringLeq("d", "e") && StringLeq("c", "e");
  }

  lemma ShiftedJoined(wwpn: string, pchid: Pchid)
    ensures forall r :: r in SHIFTED_ROWS <==> r in Joined(Shifted(wwpn, pchid), T)
  {
    forall r ensures r in SHIFTED_ROWS <==> r in Joined(Shifted(wwpn, pchid), T) {
      MappedRow(Shifted(wwpn, pchid), T, r);
    }
  }

  lemma ShiftedSearched(wwpn: string, pchid: Pchid, room: map<Pchid, int>, r: Outcome)
    ensures Computes(Shifted(wwpn, pchid), T, room, r) <==>
            Searches(Shifted(wwpn, pchid), room, [2, 3], SHIFTED_ROWS, r)
  {
    ShiftedTables(wwpn, pchid);
    ShiftedJoined(wwpn, pchid);
    ShiftedSorted();
    TwoPaths(Shifted(wwpn, pchid), room, 2, 3, SHIFTED_ROWS, r);
  }

  lemma ShiftedColumn(wwpn: string, pchid: Pchid)
    ensures OneColumn(Shifted(wwpn, pchid), [2, 3], SHIFTED_ROWS, 1, [(1, "c"), (1, "e")])
  {
    var counts: seq<nat> := [2, 3];
    Offsets(counts);
    assert forall k: nat :: Common(counts, k) ==> k < counts[0];
    assert Good(Shifted(wwpn, pchid), SHIFTED_ROWS, counts, 1, 2);
  }

  /** One device per path fails: every result has both devices on path 1 and none on path 0. */
  lemma TwoOnOnePath(wwpn: string, pchid: Pchid, room: map<Pchid, int>, r: Outcome)
    requires HasRoom(room, 2)
    ensures !Harmless(Shifted(wwpn, pchid), T)
    ensures Computes(Shifted(wwpn, pchid), T, room, r) ==>
      && r.Group? && |r.list| == 2 && r.list[0].path == 1 && r.list[1].path == 1
      && r.list[0].id == "c" && r.list[0].wwpnNpiv == wwpn && r.list[1].id == "e"
  {
    ShiftedMissing(wwpn, pchid);
    ShiftedSearched(wwpn, pchid, room, r);
    ShiftedColumn(wwpn, pchid);
    if Searches(Shifted(wwpn, pchid), room, [2, 3], SHIFTED_ROWS, r) {
      OnlyColumn(Shifted(wwpn, pchid), room, [2, 3], SHIFTED_ROWS, 1, [(1, "c"), (1, "e")], r);
    }
  }

  lemma ShiftedMissing(wwpn: string, pchid: Pchid)
    ensures !Harmless(Shifted(wwpn, pchid), T)
  {
    ShiftedTables(wwpn, pchid);
    assert ("a", T) in Shifted(wwpn, pchid).fcpMapping && "a" !in Shifted(wwpn, pchid).fcp;
  }

  lemma ShiftedRanks(wwpn: string, pchid: Pchid)
    ensures AtRank(Shifted(wwpn, pchid), T, 0, 1, "b") && AtRank(Shifted(wwpn, pchid), T, 1, 1, "d")
  {
    ShiftedTables(wwpn, pchid);
    assert StringLeq("a", "b") && !StringLeq("d", "c") && StringLeq("c", "d") && !StringLeq("e", "d");
    assert Smaller(Shifted(wwpn, pchid), T, 0, "b") == {"a"};
    assert Smaller(Shifted(wwpn, pchid), T, 1, "d") == {"c"};
  }

  lemma ShiftedNoGroup(wwpn: string, pchid: Pchid, i: nat, m: map<Path, FcpId>)
    ensures !RankGroup(Shifted(wwpn, pchid), T, i, m)
  {
    if RankGroup(Shifted(wwpn, pchid), T, i, m) {
      ShiftedTables(wwpn, pchid);
      ShiftedRanks(wwpn, pchid);
      assert 0 in m && 1 in m;
      assert m[0] == "b" && i == 1;
      SameRank(Shifted(wwpn, pchid), T, 1, 1, m[1], "d");
    }
  }

  /** Outside the condition on missing rows, looking at ranks is not enough: no group of one rank exists on
      these tables, yet every result hands out device `c` without WWPN. */
  lemma RanksDoNotTell(room: map<Pchid, int>, r: Outcome)
    ensures FittingKnown(Shifted("", "q"), T, room)
    ensures Computes(Shifted("", "q"), T, map["q" := 2], r) ==> !KnownDevices(r)
  {
    forall i, m ensures !Fitting(Shifted("", "q"), T, room, i, m) { ShiftedNoGroup("", "q", i, m); }
    TwoOnOnePath("", "q", map["q" := 2], r);
    assert r.Group? && |r.list| == 2 ==> r.list[0] in r.list;
  }

  /** Device `a` has no row, so the last index is past the list. */
  const SHORT: Tables := WithDevices(
    map["b" := FreeRow("w"), "c" := FreeRow("w"), "d" := FreeRow("w")],
    map[("a", T) := 0, ("b", T) := 0, ("c", T) := 1, ("d", T) := 1])

  const SHORT_ROWS: seq<Row> := [(0, "b"), (1, "c"), (1, "d")]

  lemma ShortTables()
    ensures On(SHORT, T, 0) == {"a", "b"} && On(SHORT, T, 1) == {"c", "d"}
    ensures TemplatePaths(SHORT, T) == {0, 1} && AllPathsFree(SHORT, T)
  {
    var db := SHORT;
    assert ("a", T) in db.fcpMapping && ("b", T) in db.fcpMapping;
    assert ("c", T) in db.fcpMapping && ("d", T) in db.fcpMapping;
    assert FreeDevices(db, T) == {"b", "c", "d"};
    assert FreePaths(db, T) == {0, 1};
  }

  lemma ShortSorted()
    ensures SortedBy(SHORT_ROWS, RowLeq)
  {
    assert StringLeq("c", "d");
  }

  lemma ShortJoined()
    ensures forall r :: r in SHORT_ROWS <==> r in Joined(SHORT, T)
  {
    forall r ensures r in SHORT_ROWS <==> r in Joined(SHORT, T) { MappedRow(SHORT, T, r); }
  }

  /** The lookup itself fails on these tables. */
  lemma IndexErrorRaised(room: map<Pchid, int>, r: Outcome)
    ensures !Harmless(SHORT, T)
    ensures Computes(SHORT, T, room, r) <==> r == OutOfRange
  {
    ShortTables();
    ShortJoined();
    ShortSorted();
    TwoPaths(SHORT, room, 2, 2, SHORT_ROWS, r);
    ShortDerails();
    ShortMissing();
  }

  lemma ShortMissing()
    ensures !Harmless(SHORT, T)
  {
    ShortTables();
    assert ("a", T) in SHORT.fcpMapping && "a" !in SHORT.fcp;
  }

  lemma ShortDerails()
    ensures Derails(SHORT, SHORT_ROWS, [2, 2])
  {
    Offsets([2, 2]);
    assert DerailsAt(SHORT, SHORT_ROWS, [2, 2], 1, 1);
  }
}
