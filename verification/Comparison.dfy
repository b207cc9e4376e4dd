/** How the two allocators relate on the same tables. */
module Comparison {
  import opened Lists
  import opened FcpTables
  import opened AllocationSpec
  import Allocator
  import SameIndex
  import SameIndexLimits

  /** The PCHID of the device on each path of the list. */
  ghost function ChannelMap(l: seq<Device>): Assignment {
    map p | p in Elements(PathList(l)) :: l[SameIndex.Index(PathList(l), p)].pchid
  }

  lemma ListPairs(db: Tables, g: seq<SameIndex.Row>, l: seq<Device>)
    requires SameIndex.DevicesOf(db, g, l) && forall i, j :: 0 <= i < j < |l| ==> l[i].path != l[j].path
    ensures SameIndex.Pairs(PathList(l), SameIndex.Pchids(db, g), ChannelMap(l))
  {
    var paths := PathList(l);
    forall j | 0 <= j < |paths| ensures paths[j] in ChannelMap(l) && ChannelMap(l)[paths[j]] == l[j].pchid {
      assert paths[j] in Elements(paths);
      assert SameIndex.Index(paths, paths[j]) == j;
    }
  }

  /** A same-index result on distinct paths whose WWPNs are known is a feasible assignment. */
  lemma ListIsFeasible(db: Tables, t: TmplId, room: map<Pchid, int>, l: seq<Device>)
    requires SameIndex.Computes(db, t, room, SameIndex.Group(l)) && KnownSuccess(SameIndex.Group(l))
    requires forall i, j :: 0 <= i < j < |l| ==> l[i].path != l[j].path
    ensures Feasible(db, t, room, ChannelMap(l))
  {
    var g := SameIndex.ChosenColumn(db, t, room, l);
    ListPairs(db, g, l);
    SameIndex.WeightOkFits(PathList(l), SameIndex.Pchids(db, g), ChannelMap(l), room);
    forall p | p in ChannelMap(l) ensures Offers(db, t, p, ChannelMap(l)[p]) {
      var j := SameIndex.Index(PathList(l), p);
      SameIndex.MappedRow(db, t, g[j]);
      assert FreeOn(db, t, p, ChannelMap(l)[p], l[j].id);
    }
  }

  /** A non-empty group whose WWPNs are all known. */
  predicate KnownSuccess(s: SameIndex.Outcome) {
    s.Group? && s.list != [] && forall k :: 0 <= k < |s.list| ==> s.list[k].wwpnNpiv != "" && s.list[k].wwpnPhy != ""
  }

  /** The group has a device on every path of the template. */
  ghost predicate Covers(db: Tables, t: TmplId, s: SameIndex.Outcome) {
    s.Group? && Elements(PathList(s.list)) == TemplatePaths(db, t)
  }

  lemma ChosenGroup(db: Tables, t: TmplId, room: map<Pchid, int>, s: SameIndex.Outcome)
    returns (i: nat, m: map<Path, FcpId>)
    requires SameIndex.Harmless(db, t) && SameIndex.Computes(db, t, room, s) && s.Group? && s.list != []
    ensures SameIndex.Fitting(db, t, room, i, m) && SameIndex.InPathOrder(db, m, s.list)
  {
    SameIndex.ComputesAnswers(db, t, room, s);
    i, m :| SameIndex.Fitting(db, t, room, i, m) && SameIndex.InPathOrder(db, m, s.list);
  }

  lemma OrderCovers(db: Tables, m: map<Path, FcpId>, l: seq<Device>)
    requires SameIndex.InPathOrder(db, m, l)
    ensures Elements(PathList(l)) == m.Keys
  {
    DistinctSize(PathList(l));
    SubsetFull(Elements(PathList(l)), m.Keys);
  }

  /** Where missing rows are harmless, every group returned covers the paths. */
  lemma HarmlessCovers(db: Tables, t: TmplId, room: map<Pchid, int>, s: SameIndex.Outcome)
    requires SameIndex.Harmless(db, t) && SameIndex.Computes(db, t, room, s) && s.Group? && s.list != []
    ensures Covers(db, t, s)
  {
    var i, m := ChosenGroup(db, t, room, s);
    OrderCovers(db, m, s.list);
  }

  /** On all tables: if the same-index allocator returns a group that covers the paths, with known WWPNs, the
      general one covers every path. Where missing rows are harmless, every group covers them. */
  lemma SameIndexImpliesEveryPath(db: Tables, t: TmplId, room: map<Pchid, int>, s: SameIndex.Outcome,
                                  r: Allocator.Outcome)
    requires Allocator.Known(db, t, room)
    requires MinPaths(db, t).Some? && MinPaths(db, t).value <= |TemplatePaths(db, t)|
    ensures SameIndex.Computes(db, t, room, s) && KnownSuccess(s) && Allocator.Answers(db, t, room, r)
            && (Covers(db, t, s) || SameIndex.Harmless(db, t)) ==>
      r.Devices? && Elements(PathList(r.list)) == TemplatePaths(db, t)
  {
    if SameIndex.Computes(db, t, room, s) && KnownSuccess(s) && Allocator.Answers(db, t, room, r)
       && (Covers(db, t, s) || SameIndex.Harmless(db, t)) {
      if SameIndex.Harmless(db, t) { HarmlessCovers(db, t, room, s); }
      CoveringSize(db, t, room, s.list);
      ListIsFeasible(db, t, room, s.list);
      EveryPath(db, t, room, r, ChannelMap(s.list));
    }
  }

  lemma CoveringSize(db: Tables, t: TmplId, room: map<Pchid, int>, l: seq<Device>)
    requires SameIndex.Computes(db, t, room, SameIndex.Group(l)) && l != [] && Covers(db, t, SameIndex.Group(l))
    ensures forall i, j :: 0 <= i < j < |l| ==> l[i].path != l[j].path
    ensures |ChannelMap(l)| == |TemplatePaths(db, t)| >= 1
  {
    var g := SameIndex.ChosenColumn(db, t, room, l);
    var paths := PathList(l);
    FullSizeDistinct(paths);
    forall i, j | 0 <= i < j < |l| ensures l[i].path != l[j].path { assert paths[i] != paths[j]; }
    assert ChannelMap(l).Keys == Elements(paths);
  }

  lemma EveryPath(db: Tables, t: TmplId, room: map<Pchid, int>, r: Allocator.Outcome, all: Assignment)
    requires Allocator.Answers(db, t, room, r) && Allocator.Known(db, t, room)
    requires MinPaths(db, t).Some? && MinPaths(db, t).value <= |TemplatePaths(db, t)|
    requires Feasible(db, t, room, all) && |all| == |TemplatePaths(db, t)| >= 1
    ensures r.Devices? && Elements(PathList(r.list)) == TemplatePaths(db, t)
  {
    var o := Allocator.FeasibleAnswered(db, t, room, r, all);
    SelectableSize(db, t, o);
    SameIndex.FreeWithin(db, t);
    RealisedCovers(db, t, o, r.list);
    SubsetSize(o.Keys, TemplatePaths(db, t));
    SubsetFull(o.Keys, TemplatePaths(db, t));
  }

  /** Covering the paths is needed: on these tables every same-index result is a group of known WWPNs on one
      path, and the general allocator returns nothing. */
  lemma UncoveredFails(s: SameIndex.Outcome, r: Allocator.Outcome)
    ensures var db, t, room := SameIndexLimits.Shifted("w", "p"), SameIndexLimits.T, map["q" := 2, "p" := 0];
      && Allocator.Known(db, t, room) && MinPaths(db, t) == Some(|TemplatePaths(db, t)|)
      && (SameIndex.Computes(db, t, room, s) ==> KnownSuccess(s) && !Covers(db, t, s))
      && (Allocator.Answers(db, t, room, r) ==> r == Allocator.Devices([]))
  {
    UncoveredTables();
    UncoveredGroup(s);
    UncoveredEmpty(r);
  }

  lemma UncoveredTables()
    ensures var db, t, room := SameIndexLimits.Shifted("w", "p"), SameIndexLimits.T, map["q" := 2, "p" := 0];
      && Allocator.Known(db, t, room) && FreePaths(db, t) == TemplatePaths(db, t) && |TemplatePaths(db, t)| == 2
      && MinPaths(db, t) == Some(2)
  {
    SameIndexLimits.ShiftedTables("w", "p");
  }

  lemma UncoveredGroup(s: SameIndex.Outcome)
    ensures var db, t, room := SameIndexLimits.Shifted("w", "p"), SameIndexLimits.T, map["q" := 2, "p" := 0];
            SameIndex.Computes(db, t, room, s) ==> KnownSuccess(s) && !Covers(db, t, s)
  {
    var db, t, room := SameIndexLimits.Shifted("w", "p"), SameIndexLimits.T, map["q" := 2, "p" := 0];
    SameIndexLimits.TwoOnOnePath("w", "p", room, s);
    if SameIndex.Computes(db, t, room, s) {
      var g := SameIndex.ChosenColumn(db, t, room, s.list);
      UncoveredList(g, s.list);
    }
  }

  lemma UncoveredList(g: seq<SameIndex.Row>, l: seq<Device>)
    requires SameIndex.DevicesOf(SameIndexLimits.Shifted("w", "p"), g, l)
    requires |l| == 2 && l[0].id == "c" && l[1].id == "e" && l[0].path == 1 && l[1].path == 1
    ensures KnownSuccess(SameIndex.Group(l))
    ensures !Covers(SameIndexLimits.Shifted("w", "p"), SameIndexLimits.T, SameIndex.Group(l))
  {
    SameIndexLimits.ShiftedTables("w", "p");
    assert 0 !in Elements(PathList(l));
  }

  lemma UncoveredEmpty(r: Allocator.Outcome)
    ensures var db, t, room := SameIndexLimits.Shifted("w", "p"), SameIndexLimits.T, map["q" := 2, "p" := 0];
            Allocator.Answers(db, t, room, r) ==> r == Allocator.Devices([])
  {
    var db, t, room := SameIndexLimits.Shifted("w", "p"), SameIndexLimits.T, map["q" := 2, "p" := 0];
    UncoveredTables();
    forall m | Feasible(db, t, room, m) ensures |m| < 2 { UncoveredInfeasible(m); }
  }

  lemma UncoveredInfeasible(m: Assignment)
    requires Feasible(SameIndexLimits.Shifted("w", "p"), SameIndexLimits.T, map["q" := 2, "p" := 0], m)
    ensures |m| < 2
  {
    var db, t, room := SameIndexLimits.Shifted("w", "p"), SameIndexLimits.T, map["q" := 2, "p" := 0];
    SameIndexLimits.ShiftedTables("w", "p");
    SelectableSize(db, t, m);
    if 0 in m {
      OfferedFirst(m[0]);
      CountPositive(m, 0);
    } else {
      SubsetSize(m.Keys, {1});
    }
  }

  lemma OfferedFirst(q: Pchid)
    ensures Offers(SameIndexLimits.Shifted("w", "p"), SameIndexLimits.T, 0, q) <==> q == "p"
  {
    var db, t := SameIndexLimits.Shifted("w", "p"), SameIndexLimits.T;
    SameIndexLimits.ShiftedTables("w", "p");
    assert ("b", t) in db.fcpMapping && FreeOn(db, t, 0, "p", "b");
    if d :| FreeOn(db, t, 0, q, d) {
      assert d in SameIndex.On(db, t, 0);
    }
  }
}
