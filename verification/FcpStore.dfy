/** `FCPDbOperator`: the tables changed in place, statement by statement, with rollback
    when a call raises. Each method is proved against the table functions of `StoreSpec`. */
module FcpStore {
  import opened Lists
  import opened FcpTables
  import opened StoreSpec
  import Columns
  import Allocator
  import SameIndex

  /** The Python value bound to the `is_default` column: a bool argument, or the stored integer. */
  datatype Flag = PyBool(b: bool) | PyInt(n: int) {
    function Stored(): int {
      match this
      case PyBool(b) => if b then 1 else 0
      case PyInt(n) => n
    }
  }

  /** The outcome of an allocation request. */
  datatype Grant = Reused | Failed | Granted(list: seq<Device>)

  /** An allocation request: who asks, what is known about the channels, what z/VM reports, which allocator. */
  datatype Request = Request(user: UserId, t: TmplId, room: map<Pchid, int>, zvm: map<FcpId, ZvmInfo>, sameIndex: bool)

  /** The allocator may choose `list` from the synchronised tables. */
  ghost predicate Chooses(db: Tables, q: Request, list: seq<Device>) {
    if q.sameIndex then SameIndex.Computes(db, q.t, q.room, SameIndex.Group(list))
    else Allocator.Answers(db, q.t, q.room, Allocator.Devices(list))
  }

  /** The allocator raises an error on the synchronised tables. */
  ghost predicate Raises(db: Tables, q: Request) {
    if q.sameIndex then
      || SameIndex.Computes(db, q.t, q.room, SameIndex.UnknownPchid)
      || SameIndex.Computes(db, q.t, q.room, SameIndex.OutOfRange)
    else
      || Allocator.Answers(db, q.t, q.room, Allocator.UnknownPchid)
      || Allocator.Answers(db, q.t, q.room, Allocator.NoSuchTemplate)
      || Allocator.Answers(db, q.t, q.room, Allocator.NothingToWeigh)
  }

  /** The conditions under which a request must fail. */
  ghost predicate MustFail(db: Tables, q: Request) {
    var held := Held(db, q.user, q.t);
    if held != {} then !WwpnsKnown(db, held)
    else !(TemplatePchids(db, q.t) <= q.room.Keys) || Raises(Sync(db, q.zvm), q)
  }

  /** What a request may do to the tables, and when. */
  ghost predicate Grants(db: Tables, q: Request, r: Grant, next: Tables) {
    var held, synced := Held(db, q.user, q.t), Sync(db, q.zvm);
    match r
    case Reused => held != {} && WwpnsKnown(db, held) && next == db
    case Failed => MustFail(db, q) && next == db
    case Granted(list) =>
      && held == {} && TemplatePchids(db, q.t) <= q.room.Keys && Chooses(synced, q, list)
      && (forall e :: e in list ==> Grantable(synced, q.t, e.id))
      && next == Reserve(synced, DeviceIds(list), q.user, q.t)
  }

  /** What a choice from the synchronised tables is, in columns: devices of the template that are free, within
      every channel's maximum, and as many as some choice of free devices would give. */
  ghost predicate ChoiceColumns(db: Tables, t: TmplId, info: map<Pchid, ChannelInfo>, sameIndex: bool,
                                list: seq<Device>) {
    && Columns.WithinMax(info, list) && (forall e :: e in list ==> Columns.IdleEntry(db, t, e))
    && (sameIndex ==> forall i, m :: SameIndex.FulfilsRank(db, t, info, i, m) ==> list != [])
    && (!sameIndex ==> forall e :: e in list ==> Columns.FreeEntry(db, t, e))
    && (!sameIndex ==> forall m :: Allocator.Fulfils(db, t, info, m) ==> |list| >= |m|)
  }

  /** The tables after a request, in columns: held devices are reused if their WWPNs are known; otherwise the
      device table is synchronised and the chosen devices are reserved for the user. */
  ghost predicate GrantColumns(before: Tables, user: UserId, t: TmplId, info: map<Pchid, ChannelInfo>,
                               zvm: map<FcpId, ZvmInfo>, sameIndex: bool, r: Grant, after: Tables) {
    var holds := exists d :: Columns.HeldBy(before, user, t, d);
    match r
    case Reused => after == before && holds && HoldsKnown(before, user, t)
    case Failed => after == before && (holds ==> !HoldsKnown(before, user, t))
    case Granted(list) =>
      && !holds && Columns.StatisticsComplete(before, t, info)
      && exists mid :: Columns.Synchronised(before, mid, zvm) && ChoiceColumns(mid, t, info, sameIndex, list)
                       && Columns.Taken(mid, after, DeviceIds(list), user, t)
  }

  ghost predicate HoldsKnown(db: Tables, user: UserId, t: TmplId) {
    forall d :: Columns.HeldBy(db, user, t, d) ==> db.fcp[d].wwpnNpiv != "" && db.fcp[d].wwpnPhy != ""
  }

  class FcpDbOperator {
    var fcp: map<FcpId, FcpRow>
    var template: map<TmplId, TemplateRow>
    var spMapping: map<string, TmplId>
    var fcpMapping: map<(FcpId, TmplId), Path>

    function View(): Tables
      reads this
    {
      Tables(fcp, template, spMapping, fcpMapping)
    }

    constructor ()
      ensures View() == EMPTY
    {
      fcp, template, spMapping, fcpMapping := map[], map[], map[], map[];
    }

    /** ROLLBACK */
    method Restore(saved: Tables)
      modifies this
      ensures View() == saved
    {
      fcp, template, spMapping, fcpMapping := saved.fcp, saved.template, saved.spMapping, saved.fcpMapping;
    }

    // ---------- table fcp ----------

    method UnreserveFcps(ids: seq<FcpId>)
      modifies this`fcp
      ensures View() == Unreserve(old(View()), ids)
      ensures Columns.Released(old(View()), View(), ids)
    {
      for i := 0 to |ids|
        invariant View() == Unreserve(old(View()), ids[..i])
      {
        if ids[i] in fcp {
          fcp := fcp[ids[i] := UnreserveRow(fcp[ids[i]])];
        }
        assert ids[..i + 1] == ids[..i] + [ids[i]];
      }
      assert ids[..|ids|] == ids;
      Columns.ReleasedColumns(old(View()), ids);
    }

    method ReserveFcps(ids: seq<FcpId>, user: UserId, t: TmplId)
      modifies this`fcp
      ensures View() == Reserve(old(View()), ids, user, t)
      ensures Columns.Taken(old(View()), View(), ids, user, t)
    {
      for i := 0 to |ids|
        invariant View() == Reserve(old(View()), ids[..i], user, t)
      {
        if ids[i] in fcp {
          fcp := fcp[ids[i] := ReserveRow(fcp[ids[i]], user, t)];
        }
        assert ids[..i + 1] == ids[..i] + [ids[i]];
      }
      assert ids[..|ids|] == ids;
      Columns.TakenColumns(old(View()), ids, user, t);
    }

    /** The INSERT batch; false when a primary key is taken. */
    method InsertRows(infos: seq<(FcpId, ZvmInfo)>) returns (ok: bool)
      modifies this`fcp
      ensures ok <==> CanInsert(old(View()), infos)
      ensures ok ==> fcp == old(fcp) + Inserted(infos)
    {
      ghost var db := View();
      for i := 0 to |infos|
        invariant CanInsert(db, infos[..i])
        invariant fcp == db.fcp + Inserted(infos[..i])
      {
        if infos[i].0 in fcp {
          InsertCollides(db, infos, i);
          return false;
        }
        InsertStep(db, infos, i);
        fcp := fcp[infos[i].0 := NewRow(infos[i].1)];
      }
      assert infos[..|infos|] == infos;
      ok := true;
    }

    method InsertDevices(infos: seq<(FcpId, ZvmInfo)>) returns (status: Status)
      modifies this
      ensures (status, View()) == Insert(old(View()), infos)
      ensures status == if Columns.NewIds(old(View()), infos) then Ok else SqlError
      ensures if status.Ok? then Columns.Added(old(View()), View(), infos) else View() == old(View())
    {
      Columns.AddedColumns(View(), infos);
      var saved := View();
      var ok := InsertRows(infos);
      if !ok {
        Restore(saved);
        return SqlError;
      }
      status := Ok;
    }

    method DeleteDevices(ids: seq<FcpId>)
      modifies this`fcp
      ensures View() == Delete(old(View()), ids)
      ensures Columns.Removed(old(View()), View(), ids)
    {
      for i := 0 to |ids|
        invariant View() == Delete(old(View()), ids[..i])
      {
        fcp := fcp - {ids[i]};
        assert ids[..i + 1] == ids[..i] + [ids[i]];
      }
      assert ids[..|ids|] == ids;
      Columns.RemovedColumns(old(View()), ids);
    }

    /** One UPDATE per record, in order. */
    method UpdateDevices(infos: seq<(FcpId, ZvmInfo)>)
      modifies this`fcp
      ensures View() == Update(old(View()), infos)
      ensures Columns.Refreshed(old(View()), View(), infos)
    {
      for i := 0 to |infos|
        invariant View() == Update(old(View()), infos[..i])
      {
        var (d, z) := infos[i];
        UpdateStep(old(View()), infos, i);
        if d in fcp {
          fcp := fcp[d := UpdateRow(fcp[d], z)];
        }
      }
      assert infos[..|infos|] == infos;
      Columns.RefreshedColumns(old(View()), infos);
    }

    /** `bulk_update_state_in_fcp_table` */
    method UpdateStates(ids: seq<FcpId>, state: string)
      modifies this`fcp
      ensures View() == SetState(old(View()), ids, state)
      ensures Columns.Marked(old(View()), View(), ids, state)
    {
      for i := 0 to |ids|
        invariant View() == SetState(old(View()), ids[..i], state)
      {
        if ids[i] in fcp {
          fcp := fcp[ids[i] := fcp[ids[i]].(state := state)];
        }
        assert ids[..i + 1] == ids[..i] + [ids[i]];
      }
      assert ids[..|ids|] == ids;
      Columns.MarkedColumns(old(View()), ids, state);
    }

    /** The four statement batches of a synchronisation. */
    method ApplySync(p: SyncPlan)
      requires CanInsert(View(), p.added)
      modifies this`fcp
      ensures View() == p.Applied(old(View()))
    {
      var inserted := InsertRows(p.added);
      assert inserted;
      DeleteDevices(p.unused);
      UpdateStates(p.lost, "notfound");
      UpdateDevices(p.changed);
    }

    /** `sync_fcp_table_with_zvm`: inserting, deleting, marking and updating by difference. */
    method SyncWithZvm(zvm: map<FcpId, ZvmInfo>)
      modifies this`fcp
      ensures View() == Sync(old(View()), zvm)
      ensures Columns.Synchronised(old(View()), View(), zvm)
    {
      var db := View();
      Columns.SynchronisedColumns(db, zvm);
      var plan := PlanSync(db, zvm);
      ApplySync(plan);
      SyncedByDifference(db, zvm, plan);
    }

    /** One UPDATE over all rows of the assigner. */
    method ResetFcpsOfAssigner(user: UserId)
      modifies this`fcp
      ensures View() == Reset(old(View()), user)
      ensures Columns.Cleared(old(View()), View(), user)
    {
      var todo := fcp.Keys;
      while todo != {}
        invariant fcp.Keys == old(fcp).Keys && todo <= fcp.Keys
        invariant forall d :: d in fcp && (d in todo || old(fcp)[d].assigner != user) ==> fcp[d] == old(fcp)[d]
        invariant forall d :: d in fcp && d !in todo && old(fcp)[d].assigner == user ==> fcp[d] == ResetRow(old(fcp)[d])
        decreases |todo|
      {
        var d := Pick(todo);
        if fcp[d].assigner == user {
          fcp := fcp[d := ResetRow(fcp[d])];
        }
        todo := todo - {d};
      }
      Columns.ClearedColumns(old(View()), user);
    }

    method IncreaseConnections(d: FcpId, user: UserId) returns (n: Option<int>)
      modifies this`fcp
      ensures (n, View()) == Connect(old(View()), d, user)
      ensures n.Some? <==> d in old(fcp) && old(fcp)[d].assigner == user
      ensures if n.Some? then Columns.Counted(old(View()), View(), d, old(fcp)[d].connections + 1)
              else View() == old(View())
    {
      if d !in fcp || fcp[d].assigner != user {
        return None;
      }
      var connections := fcp[d].connections + 1;
      fcp := fcp[d := fcp[d].(connections := connections)];
      n := Some(fcp[d].connections);
    }

    method DecreaseConnections(d: FcpId) returns (n: Option<int>)
      modifies this`fcp
      ensures (n, View()) == Disconnect(old(View()), d)
      ensures n.Some? <==> d in old(fcp) && old(fcp)[d].connections != 0
      ensures n.Some? && old(fcp)[d].connections > 0 ==>
        Columns.Counted(old(View()), View(), d, old(fcp)[d].connections - 1)
      ensures n.Some? && old(fcp)[d].connections < 0 ==> Columns.Counted(old(View()), View(), d, 0)
      ensures n.None? ==> View() == old(View())
    {
      if d !in fcp {
        return None;
      }
      var connections := fcp[d].connections;
      if connections == 0 {
        return None;
      }
      connections := connections - 1;
      if connections < 0 {
        connections := 0;
      }
      fcp := fcp[d := fcp[d].(connections := connections)];
      n := Some(fcp[d].connections);
    }

    /** `increase_fcp_connections`: one block over a list of devices, rolled back at the first that fails. */
    method IncreaseFcpConnections(ids: seq<FcpId>, user: UserId) returns (counts: Option<map<FcpId, int>>)
      modifies this
      ensures counts.Some? <==> Connectable(old(View()), ids, user)
      ensures View() == if counts.Some? then ConnectedAll(old(View()), ids) else old(View())
      ensures counts.Some? ==> counts.value == CountsOf(View(), ids)
    {
      var saved, result := View(), map[];
      assert ids[..0] == [];
      for i := 0 to |ids|
        invariant View() == ConnectedAll(saved, ids[..i]) && result == CountsOf(View(), ids[..i])
        invariant Connectable(saved, ids[..i], user)
      {
        ghost var now := View();
        ConnectNext(saved, ids, i, user);
        ConnectableNext(saved, ids, i, user);
        var n := IncreaseConnections(ids[i], user);
        if n.None? {
          Restore(saved);
          return None;
        }
        CountsNext(now, View(), ids, i);
        result := result[ids[i] := n.value];
      }
      assert ids[..|ids|] == ids;
      counts := Some(result);
    }

    /** `decrease_fcp_connections`: devices that fail are skipped and reported as zero. */
    method DecreaseFcpConnections(ids: seq<FcpId>) returns (counts: map<FcpId, int>)
      modifies this`fcp
      ensures View() == DisconnectedAll(old(View()), ids) && counts == CountsOf(View(), ids)
    {
      counts := map[];
      assert ids[..0] == [];
      for i := 0 to |ids|
        invariant View() == DisconnectedAll(old(View()), ids[..i]) && counts == CountsOf(View(), ids[..i])
      {
        ghost var now := View();
        DisconnectNext(old(View()), ids, i);
        var n := DecreaseConnections(ids[i]);
        CountsNext(now, View(), ids, i);
        counts := counts[ids[i] := if n.Some? then n.value else 0];
      }
      assert ids[..|ids|] == ids;
    }

    // ---------- templates ----------

    /** `bulk_delete_fcp_from_template` */
    method BulkDeleteFromTemplate(ids: seq<FcpId>, t: TmplId)
      modifies this`fcpMapping
      ensures View() == BulkDelete(old(View()), ids, t)
      ensures Columns.Unmapped(old(View()), View(), ids, t)
    {
      for i := 0 to |ids|
        invariant View() == BulkDelete(old(View()), ids[..i], t)
      {
        if !Busy(View(), ids[i]) {
          fcpMapping := fcpMapping - {(ids[i], t)};
        }
        assert ids[..i + 1] == ids[..i] + [ids[i]];
      }
      assert ids[..|ids|] == ids;
      Columns.UnmappedColumns(old(View()), ids, t);
    }

    /** INSERT of one mapping row; false when the primary key is taken. */
    method InsertMapping(d: FcpId, t: TmplId, p: Path) returns (ok: bool)
      modifies this`fcpMapping
      ensures ok <==> (d, t) !in old(fcpMapping)
      ensures fcpMapping == if ok then old(fcpMapping)[(d, t) := p] else old(fcpMapping)
    {
      ok := (d, t) !in fcpMapping;
      if ok { fcpMapping := fcpMapping[(d, t) := p]; }
    }

    /** INSERT of one provider row; false when the provider already has one. */
    method InsertProvider(s: string, t: TmplId) returns (ok: bool)
      modifies this`spMapping
      ensures ok <==> s !in old(spMapping)
      ensures spMapping == if ok then old(spMapping)[s := t] else old(spMapping)
    {
      ok := s !in spMapping;
      if ok { spMapping := spMapping[s := t]; }
    }

    method DeleteFcpTemplate(t: TmplId) returns (status: Status)
      modifies this
      ensures (status, View()) == DeleteTemplate(old(View()), t)
      ensures Columns.DeleteStatus(old(View()), t, status)
      ensures if status.Ok? then Columns.Deleted(old(View()), View(), t) else View() == old(View())
    {
      Columns.DeletedColumns(View(), t);
      if t !in template {
        return NotExist;
      }
      if InUse(View(), t) != {} {
        return Conflict;
      }
      template := map x | x in template && x != t :: template[x];
      spMapping := map s | s in spMapping && spMapping[s] != t :: spMapping[s];
      fcpMapping := map k | k in fcpMapping && k.1 != t :: fcpMapping[k];
      status := Ok;
    }

    /** A batch of mapping INSERTs for distinct devices; false when a primary key is taken. */
    method InsertMappings(t: TmplId, ids: seq<FcpId>, input: map<FcpId, Path>) returns (ok: bool)
      requires Distinct(ids) && forall i :: 0 <= i < |ids| ==> ids[i] in input
      modifies this`fcpMapping
      ensures ok <==> forall i :: 0 <= i < |ids| ==> (ids[i], t) !in old(fcpMapping)
      ensures ok ==> fcpMapping == Puts(old(fcpMapping), t, ids, input)
    {
      ghost var before := fcpMapping;
      for i := 0 to |ids|
        invariant forall j :: 0 <= j < i ==> (ids[j], t) !in before
        invariant fcpMapping == Puts(before, t, ids[..i], input)
      {
        PutsAt(before, t, ids[..i], input, (ids[i], t));
        var inserted := InsertMapping(ids[i], t, input[ids[i]]);
        if !inserted {
          return false;
        }
        assert ids[..i + 1][..i] == ids[..i];
      }
      assert ids[..|ids|] == ids;
      ok := true;
    }

    /** The mapping rows of one path of a new template. */
    method InsertPath(t: TmplId, p: Path, ids: set<FcpId>) returns (ok: bool)
      modifies this`fcpMapping
      ensures ok <==> forall d :: d in ids ==> (d, t) !in old(fcpMapping)
      ensures ok ==> fcpMapping == old(fcpMapping) + RowsFor(t, OnPath(ids, p))
    {
      ghost var before := fcpMapping;
      var list := ListOf(ids);
      ok := InsertMappings(t, list, OnPath(ids, p));
      PutsAll(before, t, list, OnPath(ids, p));
    }

    method InsertPaths(t: TmplId, byPath: ByPath) returns (ok: bool)
      modifies this`fcpMapping
      ensures ok <==> Disjoint(byPath) && Fresh(old(fcpMapping), t, byPath)
      ensures ok ==> fcpMapping == old(fcpMapping) + RowsFor(t, Assigned(byPath))
    {
      ghost var before := fcpMapping;
      for i := 0 to |byPath|
        invariant Disjoint(byPath[..i]) && Fresh(before, t, byPath[..i])
        invariant fcpMapping == before + RowsFor(t, Assigned(byPath[..i]))
      {
        var inserted := InsertPath(t, byPath[i].0, byPath[i].1);
        if !inserted {
          PathCollides(before, t, byPath, i);
          return false;
        }
        PathFits(before, t, byPath, i);
      }
      assert byPath[..|byPath|] == byPath;
      ok := true;
    }

    method InsertProviders(sps: seq<string>, t: TmplId) returns (ok: bool)
      modifies this`spMapping
      ensures ok <==> Distinct(sps) && forall s :: s in sps ==> s !in old(spMapping)
      ensures ok ==> spMapping == old(spMapping) + Bound(sps, t)
    {
      ghost var before := spMapping;
      for i := 0 to |sps|
        invariant Distinct(sps[..i]) && forall s :: s in sps[..i] ==> s !in before
        invariant spMapping == before + Bound(sps[..i], t)
      {
        var inserted := InsertProvider(sps[i], t);
        ProviderStep(before, sps, t, i);
        if !inserted {
          return false;
        }
      }
      assert sps[..|sps|] == sps;
      ok := true;
    }

    method UpdateProviders(sps: seq<string>, t: TmplId)
      modifies this`spMapping
      ensures spMapping == old(spMapping) + (map s | s in sps && s in old(spMapping) :: t)
    {
      for i := 0 to |sps|
        invariant spMapping == old(spMapping) + (map s | s in sps[..i] && s in old(spMapping) :: t)
      {
        if sps[i] in spMapping {
          spMapping := spMapping[sps[i] := t];
        }
        assert sps[..i + 1] == sps[..i] + [sps[i]];
      }
      assert sps[..|sps|] == sps;
    }

    /** Providers with a default are moved to template `t`, the others get a row. */
    method SetProviders(sps: seq<string>, t: TmplId) returns (ok: bool)
      modifies this`spMapping
      ensures ok <==> Distinct(NewProviders(old(spMapping), sps))
      ensures ok ==> spMapping == old(spMapping) + Bound(sps, t)
    {
      var before := spMapping;
      var toAdd := NewProviders(before, sps);
      var toUpdate := Filter(sps, s => s in before);
      ok := InsertProviders(toAdd, t);
      if ok {
        UpdateProviders(toUpdate, t);
        ProvidersOverridden(before, sps, toAdd, toUpdate, t);
      }
    }

    method InsertTemplate(a: CreateArgs)
      modifies this`template
      ensures template == CreateTemplate(old(template), a)
    {
      var flag := PyBool(a.hostDefault);
      if flag == PyBool(true) {
        template := ClearDefaults(template);
      }
      var min := if a.min.None? || a.min.value == 0 then -1 else a.min.value;
      template := template[a.t := TemplateRow(a.name, a.description, flag.Stored(), min)];
    }

    /** The statements of a creation; false when a primary key is taken. */
    method CreateRows(a: CreateArgs) returns (ok: bool)
      requires a.t !in template
      modifies this
      ensures ok <==> CanCreate(old(View()), a)
      ensures ok ==> View() == Create(old(View()), a).1
    {
      InsertTemplate(a);
      ok := InsertPaths(a.t, a.byPath);
      if ok {
        ok := SetProviders(a.sps, a.t);
      }
    }

    method CreateFcpTemplate(a: CreateArgs) returns (status: Status)
      modifies this
      ensures (status, View()) == Create(old(View()), a)
      ensures Columns.CreateStatus(old(View()), a, status)
      ensures if status.Ok? then Columns.Created(old(View()), View(), a) else View() == old(View())
    {
      var saved := View();
      Columns.CreateStatusColumns(saved, a);
      if Create(saved, a).0.Ok? { Columns.CreatedColumns(saved, a); }
      if a.t in template {
        return AlreadyExists;
      }
      var ok := CreateRows(a);
      if !ok {
        Restore(saved);
        return SqlError;
      }
      status := Ok;
    }

    // ---------- edit_fcp_template ----------

    method DeleteMappings(t: TmplId, ids: seq<FcpId>)
      modifies this`fcpMapping
      ensures fcpMapping == Drops(old(fcpMapping), t, ids)
    {
      ghost var before := fcpMapping;
      for i := 0 to |ids|
        invariant fcpMapping == Drops(before, t, ids[..i])
      {
        fcpMapping := fcpMapping - {(ids[i], t)};
        assert ids[..i + 1][..i] == ids[..i];
      }
      assert ids[..|ids|] == ids;
    }

    /** `update_path_of_fcp_device` for each kept device whose path changed. */
    method MovePaths(t: TmplId, ids: seq<FcpId>, input: map<FcpId, Path>)
      requires forall i :: 0 <= i < |ids| ==> ids[i] in input && (ids[i], t) in fcpMapping
      modifies this`fcpMapping
      ensures fcpMapping == Puts(old(fcpMapping), t, ids, input)
    {
      ghost var before := fcpMapping;
      for i := 0 to |ids|
        invariant fcpMapping == Puts(before, t, ids[..i], input)
      {
        var key := (ids[i], t);
        PutsAt(before, t, ids[..i], input, key);
        if fcpMapping[key] != input[ids[i]] {
          fcpMapping := fcpMapping[key := input[ids[i]]];
        } else {
          UpdateSame(fcpMapping, key);
        }
        assert ids[..i + 1][..i] == ids[..i];
      }
      assert ids[..|ids|] == ids;
    }

    /** Deleting, inserting and moving by difference amounts to replacing the rows; no insert collides. */
    method EditMapping(t: TmplId, input: map<FcpId, Path>)
      modifies this`fcpMapping
      ensures fcpMapping == ReplaceMapping(old(fcpMapping), t, input)
    {
      ghost var before := fcpMapping;
      var inDb := Mapped(View(), t);
      var adds := ListOf(input.Keys - inDb);
      var keeps := ListOf(input.Keys * inDb);
      var dels := ListOf(inDb - input.Keys);
      DeleteMappings(t, dels);
      forall i | 0 <= i < |adds| ensures adds[i] in input && (adds[i], t) !in fcpMapping {
        assert adds[i] in adds;
        DropsAt(before, t, dels, (adds[i], t));
      }
      var inserted := InsertMappings(t, adds, input);
      assert inserted;
      ghost var dropped := Drops(before, t, dels);
      forall i | 0 <= i < |keeps| ensures keeps[i] in input && (keeps[i], t) in fcpMapping {
        assert keeps[i] in keeps;
        DropsAt(before, t, dels, (keeps[i], t));
        PutsAt(dropped, t, adds, input, (keeps[i], t));
      }
      MovePaths(t, keeps, input);
      DifferenceIsReplacement(before, t, input, adds, keeps, dels);
    }

    method UpdateBasicInfo(a: EditArgs)
      requires a.t in template
      modifies this`template
      ensures template == EditTemplate(old(View()), a)
    {
      if a.name.None? && a.description.None? && a.hostDefault.None? && a.min.None? {
        return;
      }
      var was := template[a.t];
      var flag := if a.hostDefault.Some? then PyBool(a.hostDefault.value) else PyInt(was.isDefault);
      if flag == PyBool(true) {
        template := ClearDefaults(template);
      }
      template := template[a.t := TemplateRow(Or(a.name, was.name), Or(a.description, was.description),
                                              flag.Stored(), Or(a.min, was.minPaths))];
    }

    /** `bulk_set_sp_default_by_fcp_template`; false when a provider is listed twice. */
    method SetSpDefaults(t: TmplId, sps: seq<string>) returns (ok: bool)
      modifies this`spMapping
      ensures ok <==> Distinct(sps)
      ensures ok ==> spMapping == Rebound(old(spMapping), t, sps)
    {
      spMapping := map s | s in spMapping && spMapping[s] != t :: spMapping[s];
      ghost var kept := spMapping;
      for i := 0 to |sps|
        invariant spMapping == map s | s in kept && s !in sps[..i] :: kept[s]
      {
        spMapping := spMapping - {sps[i]};
        assert sps[..i + 1] == sps[..i] + [sps[i]];
      }
      assert sps[..|sps|] == sps;
      ok := InsertProviders(sps, t);
    }

    /** The statements of an edit that passed validation; false when it has to be undone. */
    method EditRows(a: EditArgs) returns (ok: bool)
      requires a.t in template
      modifies this
      ensures ok <==> a.sps.Some? ==> Distinct(a.sps.value)
      ensures ok ==> fcp == old(fcp) && template == EditTemplate(old(View()), a)
      ensures ok ==> spMapping == EditProviders(old(View()), a) && fcpMapping == EditDevices(old(View()), a)
    {
      EditDeviceRows(a);
      UpdateBasicInfo(a);
      ok := EditProviderRows(a);
    }

    method EditDeviceRows(a: EditArgs)
      modifies this`fcpMapping
      ensures fcpMapping == EditDevices(old(View()), a)
    {
      if a.devices.Some? {
        var input := FromInput(a.devices.value);
        EditMapping(a.t, input);
      }
    }

    method EditProviderRows(a: EditArgs) returns (ok: bool)
      modifies this`spMapping
      ensures ok <==> a.sps.Some? ==> Distinct(a.sps.value)
      ensures ok ==> spMapping == EditProviders(old(View()), a)
    {
      ok := true;
      if a.sps.Some? {
        ok := SetSpDefaults(a.t, a.sps.value);
      }
    }

    method EditFcpTemplate(a: EditArgs) returns (status: Status)
      modifies this
      ensures (status, View()) == Edit(old(View()), a)
      ensures Columns.EditStatus(old(View()), a, status)
      ensures if status.Ok? then Columns.Edited(old(View()), View(), a) else View() == old(View())
    {
      var saved := View();
      Columns.EditStatusColumns(saved, a);
      if Edit(saved, a).0.Ok? { Columns.EditedColumns(saved, a); }
      if a.t !in template {
        return NotExist;
      }
      if a.devices.Some? && |a.devices.value| != |TemplatePaths(saved, a.t)| && InUse(saved, a.t) != {} {
        return Conflict;
      }
      if !MinOk(saved, a) {
        return Conflict;
      }
      if Lost(saved, a) != {} {
        return Conflict;
      }
      var ok := EditRows(a);
      if !ok {
        Restore(saved);
        return SqlError;
      }
      if a.t == "" {
        // building the reply asks for the minimum path count, which rejects an empty id
        Restore(saved);
        return NotExist;
      }
      status := Ok;
    }

    // ---------- allocate_fcp_devices ----------

    /** Devices a VM holds are reused; otherwise a new group is allocated from the synchronised tables
        and reserved, in one transaction. */
    method AllocateFcpDevices(user: UserId, t: TmplId, info: map<Pchid, ChannelInfo>, zvm: map<FcpId, ZvmInfo>,
                              sameIndex: bool) returns (r: Grant)
      modifies this
      ensures Grants(old(View()), Request(user, t, Room(info), zvm, sameIndex), r, View())
      ensures GrantColumns(old(View()), user, t, info, zvm, sameIndex, r, View())
    {
      var saved := View();
      var held := Held(saved, user, t);
      HeldIs(saved, user, t);
      if held != {} {
        return if WwpnsKnown(saved, held) then Reused else Failed;
      }
      if !(TemplatePchids(saved, t) <= info.Keys) {
        return Failed;
      }
      StatisticsIs(saved, t, info);
      SyncWithZvm(zvm);
      ghost var mid := View();
      var list := ChooseDevices(Request(user, t, Room(info), zvm, sameIndex), info);
      if list.None? {
        Restore(saved);
        return Failed;
      }
      if list.value == [] {
        ReserveNone(View(), user, t);
        Columns.TakenColumns(View(), DeviceIds([]), user, t);
      } else {
        ReserveFcps(DeviceIds(list.value), user, t);
      }
      r := Granted(list.value);
      assert Columns.Synchronised(saved, mid, zvm) && ChoiceColumns(mid, t, info, sameIndex, list.value)
        && Columns.Taken(mid, View(), DeviceIds(list.value), user, t);
    }

    method ChooseDevices(q: Request, info: map<Pchid, ChannelInfo>) returns (list: Option<seq<Device>>)
      requires q.room == Room(info)
      ensures if list.Some? then Chooses(View(), q, list.value) else Raises(View(), q)
      ensures list.Some? ==> forall e :: e in list.value ==> Grantable(View(), q.t, e.id)
      ensures list.Some? ==> ChoiceColumns(View(), q.t, info, q.sameIndex, list.value)
    {
      if q.sameIndex {
        var outcome := SameIndex.GetSameIndex(View(), q.t, info);
        return if outcome.Group? then Some(outcome.list) else None;
      }
      var outcome := Allocator.GetFcpDevices(View(), q.t, info);
      if outcome.Devices? { Allocator.Soundness(View(), q.t, q.room, outcome); }
      return if outcome.Devices? then Some(outcome.list) else None;
    }
  }

  lemma HeldIs(db: Tables, user: UserId, t: TmplId)
    ensures Held(db, user, t) != {} <==> exists d :: Columns.HeldBy(db, user, t, d)
    ensures WwpnsKnown(db, Held(db, user, t)) <==> HoldsKnown(db, user, t)
  {
    forall d ensures d in Held(db, user, t) <==> Columns.HeldBy(db, user, t, d) {
      if Columns.HeldBy(db, user, t, d) { assert d in Mapped(db, t); }
    }
    if d :| Columns.HeldBy(db, user, t, d) { assert d in Held(db, user, t); }
  }

  lemma StatisticsIs(db: Tables, t: TmplId, info: map<Pchid, ChannelInfo>)
    ensures TemplatePchids(db, t) <= info.Keys <==> Columns.StatisticsComplete(db, t, info)
  {
    if TemplatePchids(db, t) <= info.Keys {
      forall d | (d, t) in db.fcpMapping && d in db.fcp ensures db.fcp[d].pchid in info {
        assert d in Mapped(db, t);
        assert db.fcp[d].pchid in TemplatePchids(db, t);
      }
    }
  }

  /** On given tables the same-index allocator either always or never raises. */
  lemma SameIndexRaises(db: Tables, t: TmplId, room: map<Pchid, int>, list: seq<Device>)
    requires SameIndex.Computes(db, t, room, SameIndex.Group(list))
    ensures !SameIndex.Computes(db, t, room, SameIndex.UnknownPchid)
    ensures !SameIndex.Computes(db, t, room, SameIndex.OutOfRange)
  {
    if SameIndex.AllPathsFree(db, t) {
      var paths, counts, rows := SameIndex.AlignedExists(db, t);
      SameIndex.SearchedOn(db, t, room, paths, counts, rows, SameIndex.Group(list));
      SameIndex.SearchedOn(db, t, room, paths, counts, rows, SameIndex.UnknownPchid);
      SameIndex.SearchedOn(db, t, room, paths, counts, rows, SameIndex.OutOfRange);
      SameIndex.SearchRaises(db, room, counts, rows, list);
    }
  }

  lemma ChoosesOrRaises(db: Tables, q: Request, list: seq<Device>)
    requires Chooses(db, q, list)
    ensures !Raises(db, q)
  {
    if q.sameIndex { SameIndexRaises(db, q.t, q.room, list); }
  }

  /** A request fails exactly under these conditions, whatever is chosen otherwise. */
  lemma FailsExactly(db: Tables, q: Request, r: Grant, next: Tables)
    requires Grants(db, q, r, next)
    ensures r.Failed? <==> MustFail(db, q)
  {
    if r.Granted? { ChoosesOrRaises(Sync(db, q.zvm), q, r.list); }
  }

  lemma ReserveNone(db: Tables, user: UserId, t: TmplId)
    ensures Reserve(db, DeviceIds([]), user, t) == db
  {
  }

  // ---------- connecting and disconnecting lists ----------

  lemma ListedOnceMore(ids: seq<FcpId>, i: nat, d: FcpId)
    requires i < |ids|
    ensures Times(ids[..i + 1], d) == Times(ids[..i], d) + if d == ids[i] then 1 else 0
    ensures d in ids[..i + 1] <==> d in ids[..i] || d == ids[i]
  {
    assert ids[..i + 1][..i] == ids[..i];
    assert ids[..i + 1] == ids[..i] + [ids[i]];
  }

  /** One more connect: it fails exactly when the device is not the user's. */
  lemma ConnectNext(db: Tables, ids: seq<FcpId>, i: nat, user: UserId)
    requires i < |ids|
    ensures var now, d := ConnectedAll(db, ids[..i]), ids[i];
      && (Connect(now, d, user).0.Some? <==> d in db.fcp && db.fcp[d].assigner == user)
      && (Connect(now, d, user).0.Some? ==> Connect(now, d, user).1 == ConnectedAll(db, ids[..i + 1]))
  {
    var now, d := ConnectedAll(db, ids[..i]), ids[i];
    var goal := ConnectedAll(db, ids[..i + 1]);
    if d in db.fcp && db.fcp[d].assigner == user {
      var next := Connect(now, d, user).1;
      forall e | e in db.fcp ensures next.fcp[e] == goal.fcp[e] {
        ListedOnceMore(ids, i, e);
        assert next.fcp[e] == if e == d then now.fcp[e].(connections := now.fcp[e].connections + 1) else now.fcp[e];
      }
      assert next.fcp == goal.fcp;
    }
  }

  /** One more disconnect, skipped when it fails. */
  lemma DisconnectNext(db: Tables, ids: seq<FcpId>, i: nat)
    requires i < |ids|
    ensures Disconnect(DisconnectedAll(db, ids[..i]), ids[i]).1 == DisconnectedAll(db, ids[..i + 1])
  {
    var next := Disconnect(DisconnectedAll(db, ids[..i]), ids[i]).1;
    var goal := DisconnectedAll(db, ids[..i + 1]);
    forall e | e in db.fcp ensures next.fcp[e] == goal.fcp[e] { ListedOnceMore(ids, i, e); }
    assert next.fcp == goal.fcp;
  }

  /** The reported counts after one more call that changes one device at most. */
  lemma CountsNext(now: Tables, next: Tables, ids: seq<FcpId>, i: nat)
    requires i < |ids| && next.fcp.Keys == now.fcp.Keys
    requires forall d :: d in now.fcp && d != ids[i] ==> next.fcp[d] == now.fcp[d]
    ensures var n := if ids[i] in next.fcp then next.fcp[ids[i]].connections else 0;
            CountsOf(next, ids[..i + 1]) == CountsOf(now, ids[..i])[ids[i] := n]
  {
    var n := if ids[i] in next.fcp then next.fcp[ids[i]].connections else 0;
    var a, b := CountsOf(next, ids[..i + 1]), CountsOf(now, ids[..i])[ids[i] := n];
    forall d ensures (d in a <==> d in b) && (d in a ==> a[d] == b[d]) { ListedOnceMore(ids, i, d); }
    assert a == b;
  }

  lemma ConnectableNext(db: Tables, ids: seq<FcpId>, i: nat, user: UserId)
    requires i < |ids| && Connectable(db, ids[..i], user)
    ensures Connectable(db, ids[..i + 1], user) <==> ids[i] in db.fcp && db.fcp[ids[i]].assigner == user
    ensures Connectable(db, ids, user) ==> Connectable(db, ids[..i + 1], user)
  {
    assert ids[..i + 1] == ids[..i] + [ids[i]];
  }

  // ---------- synchronisation by difference ----------

  /** The records to insert, the rows to delete, those to mark as not found, and the records to update. */
  datatype SyncPlan = SyncPlan(added: seq<(FcpId, ZvmInfo)>, unused: seq<FcpId>, lost: seq<FcpId>,
                               changed: seq<(FcpId, ZvmInfo)>) {
    ghost function Applied(db: Tables): Tables {
      Update(SetState(Delete(db.(fcp := db.fcp + Inserted(added)), unused), lost, "notfound"), changed)
    }

    /** The plan covers the differences between the table and what z/VM reports. */
    ghost predicate Plans(db: Tables, zvm: map<FcpId, ZvmInfo>) {
      && RecordsOf(zvm, zvm.Keys - db.fcp.Keys, added)
      && (forall d :: d in unused <==> d in db.fcp && d !in zvm && !Busy(db, d))
      && (forall d :: d in lost <==> d in db.fcp && d !in zvm && Busy(db, d))
      && RecordsOf(AcceptedAll(db, zvm), Outdated(db, zvm), changed)
    }
  }

  method PlanSync(db: Tables, zvm: map<FcpId, ZvmInfo>) returns (p: SyncPlan)
    ensures p.Plans(db, zvm) && CanInsert(db, p.added)
  {
    var added := Records(zvm, zvm.Keys - db.fcp.Keys);
    var unused := ListOf(set d | d in db.fcp && d !in zvm && !Busy(db, d));
    var lost := ListOf(set d | d in db.fcp && d !in zvm && Busy(db, d));
    var changed := ChangedRecords(db, zvm);
    p := SyncPlan(added, unused, lost, changed);
  }

  /** `infos` holds exactly the records of `ids`, once each. */
  ghost predicate RecordsOf(zvm: map<FcpId, ZvmInfo>, ids: set<FcpId>, infos: seq<(FcpId, ZvmInfo)>) {
    && (forall i, j :: 0 <= i < j < |infos| ==> infos[i].0 != infos[j].0)
    && (forall i :: 0 <= i < |infos| ==> infos[i].0 in ids && infos[i].0 in zvm && infos[i].1 == zvm[infos[i].0])
    && (forall d :: d in ids ==> exists i :: 0 <= i < |infos| && infos[i].0 == d)
  }

  method Records(zvm: map<FcpId, ZvmInfo>, ids: set<FcpId>) returns (infos: seq<(FcpId, ZvmInfo)>)
    requires ids <= zvm.Keys
    ensures RecordsOf(zvm, ids, infos)
  {
    infos := [];
    var todo := ids;
    while todo != {}
      invariant todo <= ids && RecordsOf(zvm, ids - todo, infos)
      decreases |todo|
    {
      var d := Pick(todo);
      ghost var was, done := infos, ids - todo;
      infos := infos + [(d, zvm[d])];
      todo := todo - {d};
      forall e | e in ids - todo ensures exists i :: 0 <= i < |infos| && infos[i].0 == e {
        if e == d {
          assert infos[|was|].0 == e;
        } else {
          assert e in done;
          var i :| 0 <= i < |was| && was[i].0 == e;
          assert infos[i].0 == e;
        }
      }
    }
    assert ids - todo == ids;
  }

  /** The records as they may be stored, for the devices on both sides. */
  function AcceptedAll(db: Tables, zvm: map<FcpId, ZvmInfo>): map<FcpId, ZvmInfo> {
    map d | d in zvm && d in db.fcp :: Accepted(db.fcp[d], zvm[d])
  }

  /** Some z/VM column of the row is out of date. */
  predicate Differs(row: FcpRow, z: ZvmInfo) {
    || row.wwpnNpiv != z.wwpnNpiv || row.wwpnPhy != z.wwpnPhy || row.chpid != z.chpid
    || row.pchid != z.pchid || row.state != z.state || row.owner != z.owner
  }

  /** The rows to be updated. */
  function Outdated(db: Tables, zvm: map<FcpId, ZvmInfo>): set<FcpId> {
    set d | d in zvm && d in db.fcp && Differs(db.fcp[d], Accepted(db.fcp[d], zvm[d]))
  }

  method ChangedRecords(db: Tables, zvm: map<FcpId, ZvmInfo>) returns (infos: seq<(FcpId, ZvmInfo)>)
    ensures RecordsOf(AcceptedAll(db, zvm), Outdated(db, zvm), infos)
  {
    var reported := AcceptRecords(db, zvm);
    infos := Records(reported, Outdated(db, zvm));
  }

  method AcceptRecords(db: Tables, zvm: map<FcpId, ZvmInfo>) returns (reported: map<FcpId, ZvmInfo>)
    ensures reported == AcceptedAll(db, zvm)
  {
    var both := zvm.Keys * db.fcp.Keys;
    reported := map[];
    var todo := both;
    while todo != {}
      invariant todo <= both && reported.Keys == both - todo
      invariant forall d :: d in reported ==> reported[d] == Accepted(db.fcp[d], zvm[d])
      decreases |todo|
    {
      var d := Pick(todo);
      var z := KeepWwpns(db.fcp[d], zvm[d]);
      reported, todo := reported[d := z], todo - {d};
    }
  }

  /** The WWPNs of a device in use stay as they are. */
  method KeepWwpns(row: FcpRow, reported: ZvmInfo) returns (z: ZvmInfo)
    ensures z == Accepted(row, reported)
  {
    z := reported;
    if row.wwpnNpiv != "" && (row.connections != 0 || row.reserved != 0) {
      z := z.(wwpnNpiv := row.wwpnNpiv, wwpnPhy := row.wwpnPhy);
    }
  }

  /** One more record overwrites what earlier records of its device set. */
  lemma UpdateStep(db: Tables, infos: seq<(FcpId, ZvmInfo)>, i: nat)
    requires i < |infos|
    ensures
      var now, (d, z) := Update(db, infos[..i]).fcp, infos[i];
      Update(db, infos[..i + 1]).fcp == if d in now then now[d := UpdateRow(now[d], z)] else now
  {
    assert infos[..i + 1][..i] == infos[..i];
  }

  lemma {:induction false} LastRecordAt(zvm: map<FcpId, ZvmInfo>, ids: set<FcpId>, infos: seq<(FcpId, ZvmInfo)>,
                                        d: FcpId)
    requires RecordsOf(zvm, ids, infos)
    ensures LastRecord(infos, d) == if d in ids then Some(zvm[d]) else None
    decreases |infos|
  {
    if infos != [] {
      var init, last := infos[..|infos| - 1], infos[|infos| - 1].0;
      forall e | e in ids - {last} ensures exists i :: 0 <= i < |init| && init[i].0 == e {
        var i :| 0 <= i < |infos| && infos[i].0 == e;
        assert init[i].0 == e;
      }
      LastRecordAt(zvm, ids - {last}, init, d);
    }
  }

  /** With distinct ids, the inserted rows are those of the last records. */
  lemma {:induction false} InsertedAt(infos: seq<(FcpId, ZvmInfo)>, d: FcpId)
    ensures d in Inserted(infos) <==> LastRecord(infos, d).Some?
    ensures d in Inserted(infos) ==> Inserted(infos)[d] == NewRow(LastRecord(infos, d).value)
  {
    if infos != [] { InsertedAt(infos[..|infos| - 1], d); }
  }

  /** The four steps on one device. */
  lemma SyncedAt(db: Tables, zvm: map<FcpId, ZvmInfo>, p: SyncPlan, d: FcpId)
    requires p.Plans(db, zvm)
    ensures var final, goal := p.Applied(db), Sync(db, zvm);
      (d in final.fcp <==> d in goal.fcp) && (d in goal.fcp ==> final.fcp[d] == goal.fcp[d])
  {
    LastRecordAt(zvm, zvm.Keys - db.fcp.Keys, p.added, d);
    InsertedAt(p.added, d);
    LastRecordAt(AcceptedAll(db, zvm), Outdated(db, zvm), p.changed, d);
  }

  /** Inserting, deleting, marking and updating by difference amounts to replacing the table. */
  lemma SyncedByDifference(db: Tables, zvm: map<FcpId, ZvmInfo>, p: SyncPlan)
    requires p.Plans(db, zvm)
    ensures p.Applied(db) == Sync(db, zvm)
  {
    var final, goal := p.Applied(db), Sync(db, zvm);
    forall d ensures (d in final.fcp <==> d in goal.fcp) && (d in goal.fcp ==> final.fcp[d] == goal.fcp[d]) {
      SyncedAt(db, zvm, p, d);
    }
    assert final.fcp == goal.fcp;
  }

  method AddPath(input: map<FcpId, Path>, ids: set<FcpId>, p: Path) returns (r: map<FcpId, Path>)
    ensures r == input + OnPath(ids, p)
  {
    r := input;
    var todo, done := ids, {};
    while todo != {}
      invariant todo + done == ids
      invariant r == input + OnPath(done, p)
      decreases |todo|
    {
      var d := Pick(todo);
      r := r[d := p];
      todo, done := todo - {d}, done + {d};
    }
    assert done == ids;
  }

  /** `fcp_from_input` */
  method FromInput(byPath: ByPath) returns (input: map<FcpId, Path>)
    ensures input == Assigned(byPath)
  {
    input := map[];
    for i := 0 to |byPath|
      invariant input == Assigned(byPath[..i])
    {
      input := AddPath(input, byPath[i].1, byPath[i].0);
      PathStep(byPath, i);
    }
    assert byPath[..|byPath|] == byPath;
  }

  // ---------- facts about the table functions ----------

  lemma {:induction false} InsertedKeys(infos: seq<(FcpId, ZvmInfo)>, d: FcpId)
    ensures d in Inserted(infos) <==> exists i :: 0 <= i < |infos| && infos[i].0 == d
  {
    if infos != [] {
      var init := infos[..|infos| - 1];
      InsertedKeys(init, d);
      if i :| 0 <= i < |infos| && infos[i].0 == d && i < |init| { assert init[i].0 == d; }
    }
  }

  lemma InsertCollides(db: Tables, infos: seq<(FcpId, ZvmInfo)>, i: nat)
    requires i < |infos| && infos[i].0 in db.fcp + Inserted(infos[..i])
    ensures !CanInsert(db, infos)
  {
    if infos[i].0 !in db.fcp {
      InsertedKeys(infos[..i], infos[i].0);
      var j :| 0 <= j < i && infos[..i][j].0 == infos[i].0;
      assert infos[j].0 == infos[i].0;
    }
  }

  lemma InsertStep(db: Tables, infos: seq<(FcpId, ZvmInfo)>, i: nat)
    requires i < |infos| && CanInsert(db, infos[..i]) && infos[i].0 !in db.fcp + Inserted(infos[..i])
    ensures CanInsert(db, infos[..i + 1])
    ensures db.fcp + Inserted(infos[..i + 1]) == (db.fcp + Inserted(infos[..i]))[infos[i].0 := NewRow(infos[i].1)]
  {
    assert infos[..i + 1][..i] == infos[..i];
    InsertedKeys(infos[..i], infos[i].0);
    forall j | 0 <= j < i ensures infos[j].0 != infos[i].0 && infos[j].0 !in db.fcp {
      assert infos[..i][j].0 == infos[j].0;
    }
    var next := infos[..i + 1];
    forall j, k | 0 <= j < k < |next| ensures next[j].0 != next[k].0 {
      if k < i { assert infos[..i][j].0 != infos[..i][k].0; }
    }
  }

  lemma {:induction false} AssignedKeys(byPath: ByPath, d: FcpId)
    ensures d in Assigned(byPath) <==> exists i :: 0 <= i < |byPath| && d in byPath[i].1
  {
    if byPath != [] {
      var init := byPath[..|byPath| - 1];
      AssignedKeys(init, d);
      if i :| 0 <= i < |byPath| && d in byPath[i].1 && i < |init| { assert d in init[i].1; }
    }
  }

  lemma PathStep(byPath: ByPath, i: nat)
    requires i < |byPath|
    ensures Assigned(byPath[..i + 1]) == Assigned(byPath[..i]) + OnPath(byPath[i].1, byPath[i].0)
  {
    assert byPath[..i + 1][..i] == byPath[..i];
  }

  lemma RowsForSum(m: map<(FcpId, TmplId), Path>, t: TmplId, a: map<FcpId, Path>, b: map<FcpId, Path>)
    ensures m + RowsFor(t, a + b) == m + RowsFor(t, a) + RowsFor(t, b)
  {
  }

  /** One more path goes in when none of its devices was there or inserted before. */
  lemma PathFits(before: map<(FcpId, TmplId), Path>, t: TmplId, byPath: ByPath, i: nat)
    requires i < |byPath| && Disjoint(byPath[..i]) && Fresh(before, t, byPath[..i])
    requires forall d :: d in byPath[i].1 ==> (d, t) !in before + RowsFor(t, Assigned(byPath[..i]))
    ensures Disjoint(byPath[..i + 1]) && Fresh(before, t, byPath[..i + 1])
    ensures before + RowsFor(t, Assigned(byPath[..i + 1])) ==
            before + RowsFor(t, Assigned(byPath[..i])) + RowsFor(t, OnPath(byPath[i].1, byPath[i].0))
  {
    PathStep(byPath, i);
    RowsForSum(before, t, Assigned(byPath[..i]), OnPath(byPath[i].1, byPath[i].0));
    forall j | 0 <= j < i ensures byPath[j].1 !! byPath[i].1 {
      forall d | d in byPath[j].1 ensures d !in byPath[i].1 {
        assert d in byPath[..i][j].1;
        AssignedKeys(byPath[..i], d);
        assert (d, t) in RowsFor(t, Assigned(byPath[..i]));
      }
    }
    var next := byPath[..i + 1];
    forall j, k | 0 <= j < k < |next| ensures next[j].1 !! next[k].1 {
      if k < i { assert byPath[..i][j].1 !! byPath[..i][k].1; }
    }
  }

  /** A device met again means that two paths share it or the template had it. */
  lemma PathCollides(before: map<(FcpId, TmplId), Path>, t: TmplId, byPath: ByPath, i: nat)
    requires i < |byPath|
    requires exists d :: d in byPath[i].1 && (d, t) in before + RowsFor(t, Assigned(byPath[..i]))
    ensures !(Disjoint(byPath) && Fresh(before, t, byPath))
  {
    var d :| d in byPath[i].1 && (d, t) in before + RowsFor(t, Assigned(byPath[..i]));
    AssignedKeys(byPath, d);
    if (d, t) !in before {
      AssignedKeys(byPath[..i], d);
      var j :| 0 <= j < i && d in byPath[..i][j].1;
      assert d in byPath[j].1;
    }
  }

  lemma ProviderStep(before: map<string, TmplId>, sps: seq<string>, t: TmplId, i: nat)
    requires i < |sps| && Distinct(sps[..i]) && forall s :: s in sps[..i] ==> s !in before
    ensures
      var now := before + Bound(sps[..i], t);
      && (sps[i] !in now ==> Distinct(sps[..i + 1]) && (forall s :: s in sps[..i + 1] ==> s !in before)
                             && before + Bound(sps[..i + 1], t) == now[sps[i] := t])
      && (sps[i] in now ==> !(Distinct(sps) && forall s :: s in sps ==> s !in before))
  {
    assert sps[..i + 1] == sps[..i] + [sps[i]];
    assert sps[i] in sps;
    if sps[i] in sps[..i] {
      var j :| 0 <= j < i && sps[..i][j] == sps[i];
      assert sps[j] == sps[i];
    }
  }

  /** Adding the new providers and updating the old ones overrides exactly the listed ones. */
  lemma ProvidersOverridden(m: map<string, TmplId>, sps: seq<string>, toAdd: seq<string>, toUpdate: seq<string>,
                            t: TmplId)
    requires forall s :: s in toAdd <==> s in sps && s !in m
    requires forall s :: s in toUpdate <==> s in sps && s in m
    ensures var added := m + Bound(toAdd, t);
            added + (map s | s in toUpdate && s in added :: t) == m + Bound(sps, t)
  {
  }

  // ---------- edit by difference ----------

  /** The rows of `ids` in template `t` removed one after another. */
  function Drops(m: map<(FcpId, TmplId), Path>, t: TmplId, ids: seq<FcpId>): map<(FcpId, TmplId), Path> {
    if ids == [] then m else Drops(m, t, ids[..|ids| - 1]) - {(ids[|ids| - 1], t)}
  }

  lemma {:induction false} DropsAt(m: map<(FcpId, TmplId), Path>, t: TmplId, ids: seq<FcpId>, k: (FcpId, TmplId))
    ensures k in Drops(m, t, ids) <==> k in m && !(k.1 == t && k.0 in ids)
    ensures k in Drops(m, t, ids) ==> Drops(m, t, ids)[k] == m[k]
  {
    if ids != [] {
      var init, last := ids[..|ids| - 1], ids[|ids| - 1];
      DropsAt(m, t, init, k);
      assert ids == init + [last];
      assert k == (k.0, k.1);
    }
  }

  /** The rows of `ids` in template `t` set to their input path, one after another. */
  function Puts(m: map<(FcpId, TmplId), Path>, t: TmplId, ids: seq<FcpId>,
                input: map<FcpId, Path>): map<(FcpId, TmplId), Path>
    requires forall i :: 0 <= i < |ids| ==> ids[i] in input
  {
    if ids == [] then m
    else Puts(m, t, ids[..|ids| - 1], input)[(ids[|ids| - 1], t) := input[ids[|ids| - 1]]]
  }

  lemma {:induction false} PutsAt(m: map<(FcpId, TmplId), Path>, t: TmplId, ids: seq<FcpId>, input: map<FcpId, Path>,
                                  k: (FcpId, TmplId))
    requires forall i :: 0 <= i < |ids| ==> ids[i] in input
    ensures k in Puts(m, t, ids, input) <==> k in m || (k.1 == t && k.0 in ids)
    ensures k.1 == t && k.0 in ids ==> k.0 in input && Puts(m, t, ids, input)[k] == input[k.0]
    ensures k in m && !(k.1 == t && k.0 in ids) ==> Puts(m, t, ids, input)[k] == m[k]
  {
    if ids != [] {
      var init, last := ids[..|ids| - 1], ids[|ids| - 1];
      PutsAt(m, t, init, input, k);
      assert ids == init + [last];
      assert k == (k.0, k.1);
    }
  }

  lemma PutsAll(m: map<(FcpId, TmplId), Path>, t: TmplId, ids: seq<FcpId>, input: map<FcpId, Path>)
    requires forall d :: d in ids <==> d in input
    ensures Puts(m, t, ids, input) == m + RowsFor(t, input)
  {
    var puts, sum := Puts(m, t, ids, input), m + RowsFor(t, input);
    forall k ensures (k in puts <==> k in sum) && (k in sum ==> puts[k] == sum[k]) {
      PutsAt(m, t, ids, input, k);
      RowsForAt(t, input, k);
    }
    assert puts == sum;
  }

  /** Row by row, the difference steps give the replaced rows. */
  lemma DifferenceAt(m: map<(FcpId, TmplId), Path>, t: TmplId, input: map<FcpId, Path>,
                     adds: seq<FcpId>, keeps: seq<FcpId>, dels: seq<FcpId>, k: (FcpId, TmplId))
    requires forall d :: d in adds <==> d in input && (d, t) !in m
    requires forall d :: d in keeps <==> d in input && (d, t) in m
    requires forall d :: d in dels <==> d !in input && (d, t) in m
    ensures
      var final := Puts(Puts(Drops(m, t, dels), t, adds, input), t, keeps, input);
      var goal := ReplaceMapping(m, t, input);
      (k in final <==> k in goal) && (k in goal ==> final[k] == goal[k])
  {
    var dropped := Drops(m, t, dels);
    var added := Puts(dropped, t, adds, input);
    DropsAt(m, t, dels, k);
    PutsAt(dropped, t, adds, input, k);
    PutsAt(added, t, keeps, input, k);
    RowsForAt(t, input, k);
    assert k == (k.0, k.1);
  }

  lemma DifferenceIsReplacement(m: map<(FcpId, TmplId), Path>, t: TmplId, input: map<FcpId, Path>,
                                adds: seq<FcpId>, keeps: seq<FcpId>, dels: seq<FcpId>)
    requires forall d :: d in adds <==> d in input && (d, t) !in m
    requires forall d :: d in keeps <==> d in input && (d, t) in m
    requires forall d :: d in dels <==> d !in input && (d, t) in m
    ensures Puts(Puts(Drops(m, t, dels), t, adds, input), t, keeps, input) == ReplaceMapping(m, t, input)
  {
    var final := Puts(Puts(Drops(m, t, dels), t, adds, input), t, keeps, input);
    var goal := ReplaceMapping(m, t, input);
    forall k ensures (k in final <==> k in goal) && (k in goal ==> final[k] == goal[k]) {
      DifferenceAt(m, t, input, adds, keeps, dels, k);
    }
    assert final == goal;
  }

  lemma UpdateSame<K, V>(m: map<K, V>, k: K)
    requires k in m
    ensures m[k := m[k]] == m
  {
  }
}
