/** What every run of the store keeps: reservations point at existing templates that map the
    device, defaults stay unique and existing, and the connection counters balance. */
module StoreRuns {
  import opened Lists
  import opened FcpTables
  import opened StoreSpec
  import FcpStore
  import AllocationSpec
  import Allocator

  // ---------- the invariant ----------

  /** Reserved exactly when allocated from a template, which exists and still maps the device. */
  ghost predicate Reservations(db: Tables) {
    forall d :: d in db.fcp ==>
      && (db.fcp[d].reserved != 0 <==> db.fcp[d].tmplId != "")
      && (db.fcp[d].tmplId != "" ==> db.fcp[d].tmplId in db.template && (d, db.fcp[d].tmplId) in db.fcpMapping)
  }

  /** Mappings and provider defaults name existing templates. */
  ghost predicate References(db: Tables) {
    && (forall k :: k in db.fcpMapping ==> k.1 in db.template)
    && (forall s :: s in db.spMapping ==> db.spMapping[s] in db.template)
  }

  /** At most one template is the host default. */
  ghost predicate SingleDefault(templates: map<TmplId, TemplateRow>) {
    forall a, b :: a in templates && b in templates && templates[a].isDefault != 0 && templates[b].isDefault != 0
                   ==> a == b
  }

  ghost predicate Counted(fcp: map<FcpId, FcpRow>) {
    forall d :: d in fcp ==> fcp[d].connections >= 0
  }

  ghost predicate Inv(db: Tables) {
    Reservations(db) && References(db) && SingleDefault(db.template) && Counted(db.fcp)
  }

  // ---------- the steps ----------

  datatype Op =
    | OpReserve(ids: seq<FcpId>, user: UserId, t: TmplId)
    | OpUnreserve(ids: seq<FcpId>)
    | OpReset(user: UserId)
    | OpInsert(infos: seq<(FcpId, ZvmInfo)>)
    | OpDelete(ids: seq<FcpId>)
    | OpUpdate(infos: seq<(FcpId, ZvmInfo)>)
    | OpMark(ids: seq<FcpId>, state: string)
    | OpSync(zvm: map<FcpId, ZvmInfo>)
    | OpConnect(d: FcpId, user: UserId)
    | OpDisconnect(d: FcpId)
    | OpCreate(create: CreateArgs)
    | OpEdit(edit: EditArgs)
    | OpBulkDelete(ids: seq<FcpId>, t: TmplId)
    | OpDeleteTemplate(t: TmplId)
    | OpAllocate(request: FcpStore.Request, grant: FcpStore.Grant)

  /** A direct reservation names an existing template that maps the devices it finds. */
  predicate ReserveAllowed(db: Tables, ids: seq<FcpId>, t: TmplId) {
    forall d :: d in ids && d in db.fcp ==> t != "" && t in db.template && (d, t) in db.fcpMapping
  }

  /** One operation, committed or rolled back. Allocation is any answer its method may give. */
  ghost predicate Step(db: Tables, op: Op, next: Tables) {
    match op
    case OpReserve(ids, user, t) => ReserveAllowed(db, ids, t) && next == Reserve(db, ids, user, t)
    case OpUnreserve(ids) => next == Unreserve(db, ids)
    case OpReset(user) => next == Reset(db, user)
    case OpInsert(infos) => next == Insert(db, infos).1
    case OpDelete(ids) => next == Delete(db, ids)
    case OpUpdate(infos) => next == Update(db, infos)
    case OpMark(ids, state) => next == SetState(db, ids, state)
    case OpSync(zvm) => next == Sync(db, zvm)
    case OpConnect(d, user) => next == Connect(db, d, user).1
    case OpDisconnect(d) => next == Disconnect(db, d).1
    case OpCreate(a) => next == Create(db, a).1
    case OpEdit(a) => next == Edit(db, a).1
    case OpBulkDelete(ids, t) => next == BulkDelete(db, ids, t)
    case OpDeleteTemplate(t) => next == DeleteTemplate(db, t).1
    case OpAllocate(q, r) => q.t != "" && FcpStore.Grants(db, q, r, next)
  }

  ghost predicate Run(dbs: seq<Tables>, ops: seq<Op>) {
    && |dbs| == |ops| + 1 && dbs[0] == EMPTY
    && forall i :: 0 <= i < |ops| ==> StepAt(dbs, ops, i)
  }

  ghost predicate StepAt(dbs: seq<Tables>, ops: seq<Op>, i: nat)
    requires i < |ops| < |dbs|
  {
    Step(dbs[i], ops[i], dbs[i + 1])
  }

  // ---------- each step keeps the invariant ----------

  /** A reservation keeps the invariant exactly when it is allowed. */
  lemma ReserveKeeps(db: Tables, ids: seq<FcpId>, user: UserId, t: TmplId)
    requires Inv(db)
    ensures Inv(Reserve(db, ids, user, t)) <==> ReserveAllowed(db, ids, t)
  {
    var next := Reserve(db, ids, user, t);
    if Inv(next) {
      forall d | d in ids && d in db.fcp ensures t != "" && t in db.template && (d, t) in db.fcpMapping {
        assert d in next.fcp && next.fcp[d] == ReserveRow(db.fcp[d], user, t);
      }
    }
  }

  lemma {:induction false} InsertedRow(infos: seq<(FcpId, ZvmInfo)>, d: FcpId)
    requires d in Inserted(infos)
    ensures exists z :: Inserted(infos)[d] == NewRow(z)
  {
    var last := infos[|infos| - 1];
    if d != last.0 { InsertedRow(infos[..|infos| - 1], d); }
  }

  lemma InsertKeeps(db: Tables, infos: seq<(FcpId, ZvmInfo)>)
    requires Inv(db)
    ensures Inv(Insert(db, infos).1)
  {
    var next := Insert(db, infos).1;
    forall d | d in next.fcp
      ensures (d in db.fcp && next.fcp[d] == db.fcp[d]) || exists z :: next.fcp[d] == NewRow(z)
    {
      if d in Inserted(infos) { InsertedRow(infos, d); }
    }
  }

  lemma CreateDefault(db: Tables, a: CreateArgs)
    requires SingleDefault(db.template) && a.t !in db.template
    ensures SingleDefault(CreateTemplate(db.template, a))
    ensures CreateTemplate(db.template, a).Keys == db.template.Keys + {a.t}
  {
  }

  lemma CreateKeeps(db: Tables, a: CreateArgs)
    requires Inv(db)
    ensures Inv(Create(db, a).1)
  {
    var next := Create(db, a).1;
    if Create(db, a).0.Ok? {
      CreateDefault(db, a);
      forall k | k in next.fcpMapping ensures k.1 in next.template { RowsForAt(a.t, Assigned(a.byPath), k); }
      assert References(next);
    }
  }

  /** The flag of another template changes only when this one becomes the default, other columns of other
      templates never do, and the default stays unique. */
  lemma EditTemplateKeeps(db: Tables, a: EditArgs)
    requires SingleDefault(db.template) && a.t in db.template
    ensures EditTemplate(db, a).Keys == db.template.Keys
    ensures SingleDefault(EditTemplate(db, a))
    ensures forall x :: x in db.template && x != a.t ==>
      EditTemplate(db, a)[x] == db.template[x].(isDefault := if a.hostDefault == Some(true) then 0
                                                             else db.template[x].isDefault)
  {
  }

  /** No device in use from the edited template loses its mapping row. */
  lemma EditDevicesKeeps(db: Tables, a: EditArgs, d: FcpId)
    requires Inv(db) && Lost(db, a) == {} && d in db.fcp && db.fcp[d].tmplId != ""
    ensures (d, db.fcp[d].tmplId) in EditDevices(db, a)
  {
    var t := db.fcp[d].tmplId;
    if a.devices.Some? {
      RowsForAt(a.t, Assigned(a.devices.value), (d, t));
      assert (d, t) in db.fcpMapping;
      assert t == a.t ==> d in Mapped(db, a.t);
      assert t == a.t && d !in Assigned(a.devices.value) ==> d in Lost(db, a);
    }
  }

  lemma EditReferencesKeeps(db: Tables, a: EditArgs)
    requires References(db) && a.t in db.template && EditTemplate(db, a).Keys == db.template.Keys
    ensures forall k :: k in EditDevices(db, a) ==> k.1 in EditTemplate(db, a)
    ensures forall s :: s in EditProviders(db, a) ==> EditProviders(db, a)[s] in EditTemplate(db, a)
  {
    forall k | k in EditDevices(db, a) ensures k.1 in db.template {
      if a.devices.Some? { RowsForAt(a.t, Assigned(a.devices.value), k); }
    }
  }

  lemma EditKeeps(db: Tables, a: EditArgs)
    requires Inv(db)
    ensures Inv(Edit(db, a).1)
  {
    if Edit(db, a).0.Ok? {
      EditTemplateKeeps(db, a);
      EditReferencesKeeps(db, a);
      forall d | d in db.fcp && db.fcp[d].tmplId != "" ensures (d, db.fcp[d].tmplId) in EditDevices(db, a) {
        EditDevicesKeeps(db, a, d);
      }
    }
  }

  lemma DeleteTemplateKeeps(db: Tables, t: TmplId)
    requires Inv(db)
    ensures Inv(DeleteTemplate(db, t).1)
  {
    if DeleteTemplate(db, t).0.Ok? {
      forall d | d in db.fcp ensures db.fcp[d].tmplId != t {
        assert d !in InUse(db, t);
      }
    }
  }

  /** A synchronisation drops no device in use. */
  lemma SyncKeeps(db: Tables, zvm: map<FcpId, ZvmInfo>)
    requires Inv(db)
    ensures Inv(Sync(db, zvm))
  {
  }

  lemma AllocateKeeps(db: Tables, q: FcpStore.Request, r: FcpStore.Grant, next: Tables)
    requires Inv(db) && q.t != "" && FcpStore.Grants(db, q, r, next)
    ensures Inv(next)
  {
    if r.Granted? {
      var synced := Sync(db, q.zvm);
      SyncKeeps(db, q.zvm);
      forall d | d in DeviceIds(r.list) ensures Grantable(synced, q.t, d) { GrantedDevice(synced, q.t, r.list, d); }
      ReserveKeeps(synced, DeviceIds(r.list), q.user, q.t);
    }
  }

  lemma GrantedDevice(db: Tables, t: TmplId, list: seq<Device>, d: FcpId)
    requires (forall e :: e in list ==> Grantable(db, t, e.id)) && d in DeviceIds(list)
    ensures Grantable(db, t, d)
  {
    var i :| 0 <= i < |list| && list[i].id == d;
    assert list[i] in list;
  }

  lemma UnreserveKeeps(db: Tables, ids: seq<FcpId>)
    requires Inv(db)
    ensures Inv(Unreserve(db, ids))
  {
  }

  lemma ResetKeeps(db: Tables, user: UserId)
    requires Inv(db)
    ensures Inv(Reset(db, user))
  {
  }

  lemma DeleteKeeps(db: Tables, ids: seq<FcpId>)
    requires Inv(db)
    ensures Inv(Delete(db, ids))
  {
  }

  lemma ConnectKeeps(db: Tables, d: FcpId, user: UserId)
    requires Inv(db)
    ensures Inv(Connect(db, d, user).1) && Inv(Disconnect(db, d).1)
  {
  }

  lemma UpdateKeeps(db: Tables, infos: seq<(FcpId, ZvmInfo)>)
    requires Inv(db)
    ensures Inv(Update(db, infos))
  {
  }

  lemma MarkKeeps(db: Tables, ids: seq<FcpId>, state: string)
    requires Inv(db)
    ensures Inv(SetState(db, ids, state))
  {
  }

  lemma BulkDeleteKeeps(db: Tables, ids: seq<FcpId>, t: TmplId)
    requires Inv(db)
    ensures Inv(BulkDelete(db, ids, t))
  {
  }

  lemma StepKeeps(db: Tables, op: Op, next: Tables)
    requires Inv(db) && Step(db, op, next)
    ensures Inv(next)
  {
    match op
    case OpReserve(ids, user, t) => ReserveKeeps(db, ids, user, t);
    case OpInsert(infos) => InsertKeeps(db, infos);
    case OpCreate(a) => CreateKeeps(db, a);
    case OpEdit(a) => EditKeeps(db, a);
    case OpBulkDelete(ids, t) => BulkDeleteKeeps(db, ids, t);
    case OpDeleteTemplate(t) => DeleteTemplateKeeps(db, t);
    case OpUpdate(infos) => UpdateKeeps(db, infos);
    case OpMark(ids, state) => MarkKeeps(db, ids, state);
    case OpSync(zvm) => SyncKeeps(db, zvm);
    case OpAllocate(q, r) => AllocateKeeps(db, q, r, next);
    case OpUnreserve(ids) => UnreserveKeeps(db, ids);
    case OpReset(user) => ResetKeeps(db, user);
    case OpDelete(ids) => DeleteKeeps(db, ids);
    case OpConnect(d, user) => ConnectKeeps(db, d, user);
    case OpDisconnect(d) => ConnectKeeps(db, d, "");
  }

  lemma StepAtKeeps(dbs: seq<Tables>, ops: seq<Op>, i: nat)
    requires i < |ops| < |dbs| && Inv(dbs[i]) && StepAt(dbs, ops, i)
    ensures Inv(dbs[i + 1])
  {
    StepKeeps(dbs[i], ops[i], dbs[i + 1]);
  }

  /** The invariant holds in every state of every run. */
  lemma {:induction false} EveryRun(dbs: seq<Tables>, ops: seq<Op>, n: nat)
    requires Run(dbs, ops) && n < |dbs|
    ensures Inv(dbs[n])
  {
    if n > 0 {
      EveryRun(dbs, ops, n - 1);
      StepAtKeeps(dbs, ops, n - 1);
    }
  }

  // ---------- what edit and create change ----------

  /** After an edit the template maps exactly the given devices, the other templates are untouched,
      and no device in use from the template is lost. */
  lemma EditReplaces(db: Tables, a: EditArgs, k: (FcpId, TmplId))
    requires Edit(db, a).0.Ok? && a.devices.Some?
    ensures var next, input := Edit(db, a).1, Assigned(a.devices.value);
      && (k.1 == a.t ==>
            && (k in next.fcpMapping <==> k.0 in input)
            && (k.0 in input ==> next.fcpMapping[k] == input[k.0]))
      && (k.1 != a.t ==>
            && (k in next.fcpMapping <==> k in db.fcpMapping)
            && (k in db.fcpMapping ==> next.fcpMapping[k] == db.fcpMapping[k]))
      && (Inv(db) && k.0 in InUse(db, a.t) ==> k.0 in input)
  {
    RowsForAt(a.t, Assigned(a.devices.value), k);
    if Inv(db) && k.0 in InUse(db, a.t) {
      RowsForAt(a.t, Assigned(a.devices.value), (k.0, a.t));
      EditDevicesKeeps(db, a, k.0);
    }
  }

  /** After an edit with a provider list, exactly the listed providers default to the template, and
      unlisted providers of other templates keep theirs. */
  lemma EditSetsProviders(db: Tables, a: EditArgs, s: string)
    requires Edit(db, a).0.Ok? && a.sps.Some?
    ensures var next := Edit(db, a).1;
      && (s in next.spMapping && next.spMapping[s] == a.t <==> s in a.sps.value)
      && (s !in a.sps.value && s in db.spMapping && db.spMapping[s] != a.t ==>
            s in next.spMapping && next.spMapping[s] == db.spMapping[s])
      && (s in next.spMapping ==> s in db.spMapping || s in a.sps.value)
  {
  }

  /** Creating a template overrides exactly the listed providers. */
  lemma CreateSetsProviders(db: Tables, a: CreateArgs, s: string)
    requires Create(db, a).0.Ok? && Inv(db)
    ensures var next := Create(db, a).1;
      && (s in next.spMapping && next.spMapping[s] == a.t <==> s in a.sps)
      && (s !in a.sps ==>
            && (s in next.spMapping <==> s in db.spMapping)
            && (s in db.spMapping ==> next.spMapping[s] == db.spMapping[s]))
  {
  }

  /** A device listed on several paths is put on the last of them. */
  lemma {:induction false} LastPathWins(byPath: ByPath, d: FcpId) returns (i: nat)
    requires d in Assigned(byPath)
    ensures i < |byPath| && d in byPath[i].1 && Assigned(byPath)[d] == byPath[i].0
    ensures forall j :: i < j < |byPath| ==> d !in byPath[j].1
  {
    var last := |byPath| - 1;
    if d in byPath[last].1 {
      i := last;
    } else {
      var init := byPath[..last];
      i := LastPathWins(init, d);
      forall j | i < j < |byPath| ensures d !in byPath[j].1 { if j < last { assert init[j] == byPath[j]; } }
    }
  }

  // ---------- what one call undoes ----------

  /** Connecting and then disconnecting a volume restores the tables and the count, and so does the reverse. */
  lemma ConnectTrip(db: Tables, d: FcpId, user: UserId)
    requires Counted(db.fcp)
    ensures Connect(db, d, user).0.Some? ==>
              && Disconnect(Connect(db, d, user).1, d) == (Some(db.fcp[d].connections), db)
              && Connect(db, d, user).0.value == db.fcp[d].connections + 1
    ensures Disconnect(db, d).0.Some? ==>
              && Connect(Disconnect(db, d).1, d, db.fcp[d].assigner) == (Some(db.fcp[d].connections), db)
              && Disconnect(db, d).0.value == db.fcp[d].connections - 1
    ensures Connect(db, d, user).0.None? <==> d !in db.fcp || db.fcp[d].assigner != user
    ensures Disconnect(db, d).0.None? <==> d !in db.fcp || db.fcp[d].connections == 0
  {
    if Connect(db, d, user).0.Some? {
      assert Disconnect(Connect(db, d, user).1, d).1.fcp == db.fcp;
    }
    if Disconnect(db, d).0.Some? {
      assert Connect(Disconnect(db, d).1, d, db.fcp[d].assigner).1.fcp == db.fcp;
    }
  }

  /** Deleting a template again undoes its creation exactly when the creation overrode no default. */
  lemma CreateThenDelete(db: Tables, a: CreateArgs)
    requires Inv(db) && Create(db, a).0.Ok? && a.t != ""
    ensures DeleteTemplate(Create(db, a).1, a.t).0 == Ok
    ensures DeleteTemplate(Create(db, a).1, a.t).1 == db <==>
            && (forall s :: s in a.sps ==> s !in db.spMapping)
            && (a.hostDefault ==> forall x :: x in db.template ==> db.template[x].isDefault == 0)
  {
    var next := Create(db, a).1;
    var back := DeleteTemplate(next, a.t).1;
    forall d ensures d !in InUse(next, a.t) {}
    CreatedMapping(db, a);
    CreatedProviders(db, a);
    CreatedTemplates(db, a);
  }

  lemma CreatedMapping(db: Tables, a: CreateArgs)
    requires Inv(db) && a.t !in db.template
    ensures OtherRows(db.fcpMapping + RowsFor(a.t, Assigned(a.byPath)), a.t) == db.fcpMapping
  {
    var back := OtherRows(db.fcpMapping + RowsFor(a.t, Assigned(a.byPath)), a.t);
    forall k ensures (k in back <==> k in db.fcpMapping) && (k in db.fcpMapping ==> back[k] == db.fcpMapping[k]) {
      RowsForAt(a.t, Assigned(a.byPath), k);
    }
    assert back == db.fcpMapping;
  }

  lemma CreatedProviders(db: Tables, a: CreateArgs)
    requires Inv(db) && a.t !in db.template
    ensures var m := db.spMapping + Bound(a.sps, a.t);
            (map s | s in m && m[s] != a.t :: m[s]) == db.spMapping <==> forall s :: s in a.sps ==> s !in db.spMapping
  {
    var m := db.spMapping + Bound(a.sps, a.t);
    var back := map s | s in m && m[s] != a.t :: m[s];
    assert forall s :: s in back <==> s in db.spMapping && s !in a.sps;
    if forall s :: s in a.sps ==> s !in db.spMapping { assert back == db.spMapping; }
  }

  lemma CreatedTemplates(db: Tables, a: CreateArgs)
    requires a.t !in db.template
    ensures var m := CreateTemplate(db.template, a);
            (map x | x in m && x != a.t :: m[x]) == db.template <==>
            (a.hostDefault ==> forall x :: x in db.template ==> db.template[x].isDefault == 0)
  {
    var m := CreateTemplate(db.template, a);
    var back := map x | x in m && x != a.t :: m[x];
    assert back == if a.hostDefault then ClearDefaults(db.template) else db.template;
    if a.hostDefault && forall x :: x in db.template ==> db.template[x].isDefault == 0 {
      assert back == db.template;
    }
  }

  /** A deleted template leaves no trace, nothing else changes, and a template in use is never deleted. */
  lemma DeletedTemplate(db: Tables, t: TmplId, k: (FcpId, TmplId), s: string)
    ensures var (status, next) := DeleteTemplate(db, t);
      && next.fcp == db.fcp && (status.Ok? <==> t in db.template && forall d :: d in db.fcp ==> db.fcp[d].tmplId != t)
      && (!status.Ok? ==> next == db)
      && (status.Ok? ==>
            && next.template == db.template - {t}
            && (k in next.fcpMapping <==> k in db.fcpMapping && k.1 != t)
            && (k in next.fcpMapping ==> next.fcpMapping[k] == db.fcpMapping[k])
            && (s in next.spMapping <==> s in db.spMapping && db.spMapping[s] != t)
            && (s in next.spMapping ==> next.spMapping[s] == db.spMapping[s]))
  {
    assert InUse(db, t) == {} <==> forall d :: d in db.fcp ==> db.fcp[d].tmplId != t by {
      if forall d :: d in db.fcp ==> db.fcp[d].tmplId != t { assert InUse(db, t) == {}; }
      forall d | d in db.fcp && db.fcp[d].tmplId == t ensures d in InUse(db, t) {}
    }
  }

  /** Synchronising twice is synchronising once. */
  lemma SyncIdempotent(db: Tables, zvm: map<FcpId, ZvmInfo>)
    ensures Sync(Sync(db, zvm), zvm) == Sync(db, zvm)
  {
    var once := Sync(db, zvm);
    assert Sync(once, zvm).fcp == once.fcp;
  }

  /** A device in use survives a synchronisation, with its usage columns and the WWPNs it is known under. */
  lemma SyncKeepsInUse(db: Tables, zvm: map<FcpId, ZvmInfo>, d: FcpId)
    requires Busy(db, d)
    ensures d in Sync(db, zvm).fcp
    ensures var was, now := db.fcp[d], Sync(db, zvm).fcp[d];
      && now.assigner == was.assigner && now.connections == was.connections && now.reserved == was.reserved
      && now.tmplId == was.tmplId
      && (was.wwpnNpiv != "" ==> now.wwpnNpiv == was.wwpnNpiv && now.wwpnPhy == was.wwpnPhy)
  {
  }

  /** The record that counts is the last one about a device. */
  lemma {:induction false} LastRecordWins(infos: seq<(FcpId, ZvmInfo)>, d: FcpId, i: nat)
    requires i < |infos| && infos[i].0 == d && forall j :: i < j < |infos| ==> infos[j].0 != d
    ensures LastRecord(infos, d) == Some(infos[i].1)
  {
    var last := |infos| - 1;
    if i < last {
      assert infos[last].0 != d;
      LastRecordWins(infos[..last], d, i);
    }
  }

  /** All channels have statistics, and nothing fits into them. */
  ghost predicate NothingFits(db: Tables, t: TmplId, room: map<Pchid, int>) {
    Allocator.Known(db, t, room) && forall m :: AllocationSpec.Feasible(db, t, room, m) ==> |m| == 0
  }

  lemma NoRoomNothingFits(db: Tables, t: TmplId, room: map<Pchid, int>)
    requires Allocator.Known(db, t, room) && forall q :: q in room ==> room[q] < 1
    ensures NothingFits(db, t, room)
  {
    forall m | AllocationSpec.Feasible(db, t, room, m) ensures |m| == 0 {
      if |m| > 0 {
        var p := AllocationSpec.SomeElement(m.Keys);
        AllocationSpec.CountPositive(m, p);
      }
    }
  }

  /** The allocator fails on the empty candidate exactly when there are free paths, the stored minimum is at or
      below zero, and nothing fits. */
  lemma NothingToWeighExactly(db: Tables, t: TmplId, room: map<Pchid, int>)
    ensures Allocator.Answers(db, t, room, Allocator.NothingToWeigh) <==>
            && AllocationSpec.FreePaths(db, t) != {} && MinPaths(db, t).Some? && MinPaths(db, t).value <= 0
            && NothingFits(db, t, room)
  {
  }

  /** An edit can store a minimum of zero; the allocator then fails on the empty candidate exactly when there
      are free paths and nothing fits. */
  lemma ZeroMinimum(db: Tables, t: TmplId, room: map<Pchid, int>, r: Allocator.Outcome)
    requires t in db.template && t != ""
    ensures var a := EditArgs(t, None, None, None, None, None, Some(0));
      var (status, next) := Edit(db, a);
      && status == Ok && MinPaths(next, t) == Some(0)
      && (Allocator.Answers(next, t, room, Allocator.NothingToWeigh) <==>
            AllocationSpec.FreePaths(next, t) != {} && NothingFits(next, t, room))
      && (AllocationSpec.FreePaths(next, t) != {} && NothingFits(next, t, room) ==>
            (Allocator.Answers(next, t, room, r) <==> r == Allocator.NothingToWeigh))
  {
    var next := Edit(db, EditArgs(t, None, None, None, None, None, Some(0))).1;
    NothingToWeighExactly(next, t, room);
  }

  // ---------- the connection ledger ----------

  /** Step `i` leaves device `d` with a fresh account: its assigner is reset, or its row is gone. */
  ghost predicate Clears(dbs: seq<Tables>, ops: seq<Op>, d: FcpId, i: nat)
    requires |dbs| == |ops| + 1 && i < |ops|
  {
    || (ops[i].OpReset? && d in dbs[i].fcp && dbs[i].fcp[d].assigner == ops[i].user)
    || d !in dbs[i + 1].fcp
  }

  /** Step `i` connects, respectively disconnects, a volume through `d`. */
  ghost predicate Connected(db: Tables, op: Op, d: FcpId) {
    op.OpConnect? && op.d == d && Connect(db, d, op.user).0.Some?
  }

  ghost predicate Disconnected(db: Tables, op: Op, d: FcpId) {
    op == OpDisconnect(d) && Disconnect(db, d).0.Some?
  }

  /** The successful connects of `d` among the steps from `a` up to `b`. */
  ghost function Connects(dbs: seq<Tables>, ops: seq<Op>, d: FcpId, a: nat, b: nat): set<nat>
    requires |dbs| == |ops| + 1 && a <= b <= |ops|
  {
    set i: nat | a <= i < b && Connected(dbs[i], ops[i], d)
  }

  ghost function Disconnects(dbs: seq<Tables>, ops: seq<Op>, d: FcpId, a: nat, b: nat): set<nat>
    requires |dbs| == |ops| + 1 && a <= b <= |ops|
  {
    set i: nat | a <= i < b && Disconnected(dbs[i], ops[i], d)
  }

  /** The balance of `d` moves with its connects and disconnects; an absent row counts as zero. */
  ghost predicate Moves(db: Tables, op: Op, next: Tables, d: FcpId) {
    var was := if d in db.fcp then db.fcp[d].connections else 0;
    var change := (if Connected(db, op, d) then 1 else 0) - (if Disconnected(db, op, d) then 1 else 0);
    d in next.fcp ==> next.fcp[d].connections == was + change
  }

  lemma ConnectsStep(dbs: seq<Tables>, ops: seq<Op>, d: FcpId, c: nat, i: nat)
    requires |dbs| == |ops| + 1 && c <= i < |ops|
    ensures |Connects(dbs, ops, d, c, i + 1)|
            == |Connects(dbs, ops, d, c, i)| + if Connected(dbs[i], ops[i], d) then 1 else 0
  {
    var now := Connects(dbs, ops, d, c, i);
    assert Connects(dbs, ops, d, c, i + 1) == now + if Connected(dbs[i], ops[i], d) then {i} else {};
  }

  lemma DisconnectsStep(dbs: seq<Tables>, ops: seq<Op>, d: FcpId, c: nat, i: nat)
    requires |dbs| == |ops| + 1 && c <= i < |ops|
    ensures |Disconnects(dbs, ops, d, c, i + 1)|
            == |Disconnects(dbs, ops, d, c, i)| + if Disconnected(dbs[i], ops[i], d) then 1 else 0
  {
    var now := Disconnects(dbs, ops, d, c, i);
    assert Disconnects(dbs, ops, d, c, i + 1) == now + if Disconnected(dbs[i], ops[i], d) then {i} else {};
  }

  lemma NotReinserted(db: Tables, infos: seq<(FcpId, ZvmInfo)>, d: FcpId)
    requires d in db.fcp
    ensures Insert(db, infos).1.fcp[d] == db.fcp[d]
  {
    if CanInsert(db, infos) && d in Inserted(infos) { FcpStore.InsertedKeys(infos, d); }
  }

  /** The row of `d`, if it is there before and after, keeps its counter; a new row starts at zero. */
  ghost predicate SameCounter(db: Tables, next: Tables, d: FcpId) {
    d in next.fcp ==> next.fcp[d].connections == if d in db.fcp then db.fcp[d].connections else 0
  }

  lemma InsertCounter(db: Tables, infos: seq<(FcpId, ZvmInfo)>, d: FcpId)
    ensures SameCounter(db, Insert(db, infos).1, d)
  {
    if d in db.fcp {
      NotReinserted(db, infos, d);
    } else if d in Inserted(infos) {
      InsertedRow(infos, d);
    }
  }

  lemma AllocateCounter(db: Tables, q: FcpStore.Request, r: FcpStore.Grant, next: Tables, d: FcpId)
    requires FcpStore.Grants(db, q, r, next)
    ensures SameCounter(db, next, d)
  {
    assert SameCounter(db, Sync(db, q.zvm), d);
  }

  lemma ConnectCounter(db: Tables, op: Op, next: Tables, d: FcpId)
    requires Counted(db.fcp) && Step(db, op, next) && (op.OpConnect? || op.OpDisconnect?)
    ensures Moves(db, op, next, d)
  {
  }

  /** Only connect and disconnect move the counter of a row that is not cleared. */
  lemma CounterStep(db: Tables, op: Op, next: Tables, d: FcpId)
    requires Inv(db) && Step(db, op, next)
    requires !(op.OpReset? && d in db.fcp && db.fcp[d].assigner == op.user)
    ensures Moves(db, op, next, d)
  {
    if op.OpConnect? || op.OpDisconnect? {
      ConnectCounter(db, op, next, d);
    } else {
      OtherCounter(db, op, next, d);
    }
  }

  lemma OtherCounter(db: Tables, op: Op, next: Tables, d: FcpId)
    requires Step(db, op, next) && !op.OpConnect? && !op.OpDisconnect?
    requires !(op.OpReset? && d in db.fcp && db.fcp[d].assigner == op.user)
    ensures SameCounter(db, next, d)
  {
    match op
    case OpInsert(infos) => InsertCounter(db, infos, d);
    case OpAllocate(q, r) => AllocateCounter(db, q, r, next, d);
    case _ =>
  }

  lemma ClearedAccount(dbs: seq<Tables>, ops: seq<Op>, d: FcpId, c: nat)
    requires Run(dbs, ops) && c <= |ops| && (c == 0 || Clears(dbs, ops, d, c - 1))
    ensures d in dbs[c].fcp ==> dbs[c].fcp[d].connections == 0
  {
    if c > 0 { assert StepAt(dbs, ops, c - 1); }
  }

  lemma {:induction false} Balance(dbs: seq<Tables>, ops: seq<Op>, d: FcpId, c: nat, n: nat)
    requires |dbs| == |ops| + 1 && c <= n <= |ops| && d in dbs[n].fcp
    requires d in dbs[c].fcp ==> dbs[c].fcp[d].connections == 0
    requires forall i :: c <= i < n ==> Moves(dbs[i], ops[i], dbs[i + 1], d)
    requires forall i :: c < i < n ==> d in dbs[i].fcp
    ensures dbs[n].fcp[d].connections == |Connects(dbs, ops, d, c, n)| - |Disconnects(dbs, ops, d, c, n)|
  {
    assert Connects(dbs, ops, d, c, c) == {} && Disconnects(dbs, ops, d, c, c) == {};
    if n > c {
      var i := n - 1;
      assert Moves(dbs[i], ops[i], dbs[i + 1], d);
      ConnectsStep(dbs, ops, d, c, i);
      DisconnectsStep(dbs, ops, d, c, i);
      if i > c { Balance(dbs, ops, d, c, i); }
    }
  }

  /** The last clearing before step `n`. */
  lemma {:induction false} LastClear(dbs: seq<Tables>, ops: seq<Op>, d: FcpId, n: nat) returns (c: nat)
    requires |dbs| == |ops| + 1 && n <= |ops|
    ensures c <= n && (c == 0 || Clears(dbs, ops, d, c - 1)) && forall i :: c <= i < n ==> !Clears(dbs, ops, d, i)
  {
    c := n;
    if n > 0 && !Clears(dbs, ops, d, n - 1) {
      c := LastClear(dbs, ops, d, n - 1);
    }
  }

  /** Since its last reset, a device has as many connections as connects minus disconnects. */
  lemma Ledger(dbs: seq<Tables>, ops: seq<Op>, d: FcpId, c: nat, n: nat)
    requires Run(dbs, ops) && c <= n <= |ops| && d in dbs[n].fcp
    requires c == 0 || Clears(dbs, ops, d, c - 1)
    requires forall i :: c <= i < n ==> !Clears(dbs, ops, d, i)
    ensures dbs[n].fcp[d].connections == |Connects(dbs, ops, d, c, n)| - |Disconnects(dbs, ops, d, c, n)| >= 0
  {
    EveryRun(dbs, ops, n);
    ClearedAccount(dbs, ops, d, c);
    forall i | c <= i < n ensures Moves(dbs[i], ops[i], dbs[i + 1], d) {
      EveryRun(dbs, ops, i);
      assert StepAt(dbs, ops, i) && !Clears(dbs, ops, d, i);
      CounterStep(dbs[i], ops[i], dbs[i + 1], d);
    }
    forall i | c < i < n ensures d in dbs[i].fcp { assert !Clears(dbs, ops, d, i - 1); }
    Balance(dbs, ops, d, c, n);
  }

  // ---------- exclusive ownership ----------

  /** Step `i` hands device `d` out to `user` by allocation. */
  ghost predicate Hands(dbs: seq<Tables>, ops: seq<Op>, d: FcpId, user: UserId, i: nat)
    requires i < |ops|
  {
    && ops[i].OpAllocate? && ops[i].request.user == user
    && ops[i].grant.Granted? && d in DeviceIds(ops[i].grant.list)
  }

  /** Step `i` gives device `d` back. */
  ghost predicate Releases(dbs: seq<Tables>, ops: seq<Op>, d: FcpId, i: nat)
    requires |dbs| == |ops| + 1 && i < |ops|
  {
    (ops[i].OpUnreserve? && d in ops[i].ids) || Clears(dbs, ops, d, i)
  }

  lemma HandedUnused(db: Tables, q: FcpStore.Request, r: FcpStore.Grant, next: Tables, d: FcpId)
    requires FcpStore.Grants(db, q, r, next)
    ensures r.Granted? && d in DeviceIds(r.list) ==>
      && (d in db.fcp ==> db.fcp[d].reserved == 0 && db.fcp[d].connections == 0)
      && d in next.fcp && next.fcp[d].reserved != 0 && next.fcp[d].assigner == q.user && next.fcp[d].tmplId == q.t
  {
    if r.Granted? && d in DeviceIds(r.list) { GrantedDevice(Sync(db, q.zvm), q.t, r.list, d); }
  }

  lemma HandedAt(dbs: seq<Tables>, ops: seq<Op>, d: FcpId, user: UserId, i: nat)
    requires i < |ops| < |dbs| && StepAt(dbs, ops, i) && Hands(dbs, ops, d, user, i)
    ensures d in dbs[i].fcp ==> dbs[i].fcp[d].reserved == 0 && dbs[i].fcp[d].connections == 0
    ensures IsReserved(dbs[i + 1], d)
  {
    HandedUnused(dbs[i], ops[i].request, ops[i].grant, dbs[i + 1], d);
  }

  lemma AllocateReserved(db: Tables, q: FcpStore.Request, r: FcpStore.Grant, next: Tables, d: FcpId)
    requires FcpStore.Grants(db, q, r, next) && IsReserved(db, d)
    ensures IsReserved(next, d)
  {
    assert IsReserved(Sync(db, q.zvm), d);
  }

  lemma StaysReserved(db: Tables, op: Op, next: Tables, d: FcpId)
    requires Step(db, op, next) && IsReserved(db, d) && d in next.fcp
    requires !(op.OpUnreserve? && d in op.ids) && !(op.OpReset? && db.fcp[d].assigner == op.user)
    ensures IsReserved(next, d)
  {
    match op
    case OpInsert(infos) => NotReinserted(db, infos, d);
    case OpAllocate(q, r) => AllocateReserved(db, q, r, next, d);
    case _ =>
  }

  ghost predicate IsReserved(db: Tables, d: FcpId) {
    d in db.fcp && db.fcp[d].reserved != 0
  }

  lemma {:induction false} ReservedUntil(dbs: seq<Tables>, d: FcpId, i: nat, j: nat)
    requires i <= j < |dbs| && IsReserved(dbs[i], d)
    requires forall k :: i <= k < j && IsReserved(dbs[k], d) ==> IsReserved(dbs[k + 1], d)
    ensures IsReserved(dbs[j], d)
  {
    if i < j { ReservedUntil(dbs, d, i, j - 1); }
  }

  /** A handed-out device is not handed out again before it is given back, and then it has no connections. */
  lemma ExclusiveOwnership(dbs: seq<Tables>, ops: seq<Op>, d: FcpId, u: UserId, v: UserId, i: nat, j: nat)
    requires Run(dbs, ops) && i < j < |ops|
    requires Hands(dbs, ops, d, u, i) && Hands(dbs, ops, d, v, j)
    ensures exists k :: i < k < j && Releases(dbs, ops, d, k)
    ensures d in dbs[j].fcp ==> dbs[j].fcp[d].connections == 0 && dbs[j].fcp[d].reserved == 0
  {
    HandedAt(dbs, ops, d, u, i);
    HandedAt(dbs, ops, d, v, j);
    if forall k :: i < k < j ==> !Releases(dbs, ops, d, k) {
      forall k | i + 1 <= k < j && IsReserved(dbs[k], d) ensures IsReserved(dbs[k + 1], d) {
        assert StepAt(dbs, ops, k) && !Releases(dbs, ops, d, k);
        StaysReserved(dbs[k], ops[k], dbs[k + 1], d);
      }
      ReservedUntil(dbs, d, i + 1, j);
    }
  }
}
