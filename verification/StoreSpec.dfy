/** What each operation of `FCPDbOperator` makes of the tables, as functions on table values.
    A call that raises leaves the tables as they were, because its transaction is rolled back. */
module StoreSpec {
  import opened Lists
  import opened FcpTables

  datatype Status = Ok | AlreadyExists | NotExist | Conflict | SqlError

  /** What z/VM reports about a device. */
  datatype ZvmInfo = ZvmInfo(wwpnNpiv: string, wwpnPhy: string, chpid: string, pchid: Pchid, state: string,
                             owner: UserId)

  /** `expand_fcp_list`: the devices of each path, in path order. */
  type ByPath = seq<(Path, set<FcpId>)>

  const EMPTY := Tables(map[], map[], map[], map[])

  // ---------- table fcp ----------

  function NewRow(z: ZvmInfo): FcpRow {
    FcpRow("", 0, 0, z.wwpnNpiv, z.wwpnPhy, z.chpid, z.pchid, z.state, z.owner, "")
  }

  function ReserveRow(row: FcpRow, user: UserId, t: TmplId): FcpRow {
    row.(reserved := 1, assigner := user, tmplId := t)
  }

  function UnreserveRow(row: FcpRow): FcpRow {
    row.(reserved := 0, tmplId := "")
  }

  function ResetRow(row: FcpRow): FcpRow {
    row.(assigner := "", reserved := 0, connections := 0, tmplId := "")
  }

  function UpdateRow(row: FcpRow, z: ZvmInfo): FcpRow {
    row.(wwpnNpiv := z.wwpnNpiv, wwpnPhy := z.wwpnPhy, chpid := z.chpid, pchid := z.pchid,
         state := z.state, owner := z.owner)
  }

  function Reserve(db: Tables, ids: seq<FcpId>, user: UserId, t: TmplId): Tables {
    db.(fcp := map d | d in db.fcp :: if d in ids then ReserveRow(db.fcp[d], user, t) else db.fcp[d])
  }

  function Unreserve(db: Tables, ids: seq<FcpId>): Tables {
    db.(fcp := map d | d in db.fcp :: if d in ids then UnreserveRow(db.fcp[d]) else db.fcp[d])
  }

  function Reset(db: Tables, user: UserId): Tables {
    db.(fcp := map d | d in db.fcp :: if db.fcp[d].assigner == user then ResetRow(db.fcp[d]) else db.fcp[d])
  }

  /** All ids must be new and distinct, otherwise the primary key rejects the batch. */
  predicate CanInsert(db: Tables, infos: seq<(FcpId, ZvmInfo)>) {
    && (forall i :: 0 <= i < |infos| ==> infos[i].0 !in db.fcp)
    && forall i, j :: 0 <= i < j < |infos| ==> infos[i].0 != infos[j].0
  }

  function Inserted(infos: seq<(FcpId, ZvmInfo)>): map<FcpId, FcpRow> {
    if infos == [] then map[]
    else
      var last := infos[|infos| - 1];
      Inserted(infos[..|infos| - 1])[last.0 := NewRow(last.1)]
  }

  function Insert(db: Tables, infos: seq<(FcpId, ZvmInfo)>): (Status, Tables) {
    if CanInsert(db, infos) then (Ok, db.(fcp := db.fcp + Inserted(infos))) else (SqlError, db)
  }

  function Delete(db: Tables, ids: seq<FcpId>): Tables {
    db.(fcp := map d | d in db.fcp && d !in ids :: db.fcp[d])
  }

  /** The last record of a batch about device `d`. */
  function LastRecord(infos: seq<(FcpId, ZvmInfo)>, d: FcpId): Option<ZvmInfo> {
    if infos == [] then None
    else if infos[|infos| - 1].0 == d then Some(infos[|infos| - 1].1)
    else LastRecord(infos[..|infos| - 1], d)
  }

  /** Existing rows take the z/VM columns of their last record and keep their usage columns. */
  function Update(db: Tables, infos: seq<(FcpId, ZvmInfo)>): Tables {
    db.(fcp := map d | d in db.fcp ::
      match LastRecord(infos, d) case Some(z) => UpdateRow(db.fcp[d], z) case None => db.fcp[d])
  }

  function SetState(db: Tables, ids: seq<FcpId>, state: string): Tables {
    db.(fcp := map d | d in db.fcp :: if d in ids then db.fcp[d].(state := state) else db.fcp[d])
  }

  /** What z/VM reports, except that a device in use keeps the WWPNs it is known under. */
  function Accepted(row: FcpRow, z: ZvmInfo): ZvmInfo {
    if row.wwpnNpiv == "" || (row.connections == 0 && row.reserved == 0) then z
    else z.(wwpnNpiv := row.wwpnNpiv, wwpnPhy := row.wwpnPhy)
  }

  /** `sync_fcp_table_with_zvm` as one replacement: the table holds what z/VM reports, and the devices
      in use that z/VM no longer knows, marked as such. */
  function Sync(db: Tables, zvm: map<FcpId, ZvmInfo>): Tables {
    db.(fcp := map d | d in db.fcp.Keys + zvm.Keys && (d in zvm || Busy(db, d)) ::
      if d !in db.fcp then NewRow(zvm[d])
      else if d in zvm then UpdateRow(db.fcp[d], Accepted(db.fcp[d], zvm[d]))
      else db.fcp[d].(state := "notfound"))
  }

  function Connect(db: Tables, d: FcpId, user: UserId): (Option<int>, Tables) {
    if d in db.fcp && db.fcp[d].assigner == user then
      var n := db.fcp[d].connections + 1;
      (Some(n), db.(fcp := db.fcp[d := db.fcp[d].(connections := n)]))
    else (None, db)
  }

  function Disconnect(db: Tables, d: FcpId): (Option<int>, Tables) {
    if d in db.fcp && db.fcp[d].connections != 0 then
      var n := if db.fcp[d].connections - 1 < 0 then 0 else db.fcp[d].connections - 1;
      (Some(n), db.(fcp := db.fcp[d := db.fcp[d].(connections := n)]))
    else (None, db)
  }

  /** Every device is assigned to the user, as each connect demands. */
  predicate Connectable(db: Tables, ids: seq<FcpId>, user: UserId) {
    forall i :: 0 <= i < |ids| ==> ids[i] in db.fcp && db.fcp[ids[i]].assigner == user
  }

  /** How often a device is listed. */
  function Times(ids: seq<FcpId>, d: FcpId): nat {
    if ids == [] then 0 else Times(ids[..|ids| - 1], d) + if ids[|ids| - 1] == d then 1 else 0
  }

  /** One connection more for every time a device is listed. */
  function ConnectedAll(db: Tables, ids: seq<FcpId>): Tables {
    db.(fcp := map d | d in db.fcp :: db.fcp[d].(connections := db.fcp[d].connections + Times(ids, d)))
  }

  /** A counter after `k` disconnects, of which those at zero fail. */
  function Lowered(connections: int, k: nat): int {
    if k == 0 then connections else if connections - k < 0 then 0 else connections - k
  }

  /** One connection less for every time a device is listed, down to zero. */
  function DisconnectedAll(db: Tables, ids: seq<FcpId>): Tables {
    db.(fcp := map d | d in db.fcp :: db.fcp[d].(connections := Lowered(db.fcp[d].connections, Times(ids, d))))
  }

  /** The connections of the listed devices, an absent one counting as zero. */
  function CountsOf(db: Tables, ids: seq<FcpId>): map<FcpId, int> {
    map d | d in ids :: if d in db.fcp then db.fcp[d].connections else 0
  }

  /** The devices allocated from a template (`get_inuse_fcp_device_by_fcp_template`). */
  function InUse(db: Tables, t: TmplId): set<FcpId> {
    set d | d in db.fcp && db.fcp[d].tmplId == t
  }

  predicate Busy(db: Tables, d: FcpId) {
    d in db.fcp && (db.fcp[d].connections != 0 || db.fcp[d].reserved != 0)
  }

  // ---------- template_fcp_mapping ----------

  /** All of `ids` on path `p`. */
  function OnPath(ids: set<FcpId>, p: Path): map<FcpId, Path> {
    map d | d in ids :: p
  }

  /** The last path listed for a device wins. */
  function Assigned(byPath: ByPath): map<FcpId, Path> {
    if byPath == [] then map[]
    else
      var last := byPath[|byPath| - 1];
      Assigned(byPath[..|byPath| - 1]) + OnPath(last.1, last.0)
  }

  /** No device is listed on two paths. */
  predicate Disjoint(byPath: ByPath) {
    forall i, j :: 0 <= i < j < |byPath| ==> byPath[i].1 !! byPath[j].1
  }

  /** None of the devices has a row for template `t` yet. */
  predicate Fresh(m: map<(FcpId, TmplId), Path>, t: TmplId, byPath: ByPath) {
    forall d :: d in Assigned(byPath) ==> (d, t) !in m
  }

  function Mapped(db: Tables, t: TmplId): set<FcpId> {
    set k | k in db.fcpMapping && k.1 == t :: k.0
  }

  function OtherRows(m: map<(FcpId, TmplId), Path>, t: TmplId): map<(FcpId, TmplId), Path> {
    map k | k in m && k.1 != t :: m[k]
  }

  function RowsFor(t: TmplId, devices: map<FcpId, Path>): map<(FcpId, TmplId), Path> {
    map d | d in devices :: (d, t) := devices[d]
  }

  lemma RowsForAt(t: TmplId, devices: map<FcpId, Path>, k: (FcpId, TmplId))
    ensures k in RowsFor(t, devices) <==> k.1 == t && k.0 in devices
    ensures k in RowsFor(t, devices) ==> RowsFor(t, devices)[k] == devices[k.0]
  {
    assert k == (k.0, k.1);
  }

  /** Replace all rows of template `t`. */
  function ReplaceMapping(m: map<(FcpId, TmplId), Path>, t: TmplId,
                          devices: map<FcpId, Path>): map<(FcpId, TmplId), Path> {
    OtherRows(m, t) + RowsFor(t, devices)
  }

  function BulkDelete(db: Tables, ids: seq<FcpId>, t: TmplId): Tables {
    db.(fcpMapping := map k | k in db.fcpMapping && !(k.1 == t && k.0 in ids && !Busy(db, k.0)) :: db.fcpMapping[k])
  }

  // ---------- template and template_sp_mapping ----------

  function ClearDefaults(m: map<TmplId, TemplateRow>): map<TmplId, TemplateRow> {
    map t | t in m :: m[t].(isDefault := 0)
  }

  predicate Distinct(s: seq<string>) {
    forall i, j :: 0 <= i < j < |s| ==> s[i] != s[j]
  }

  function Bound(sps: seq<string>, t: TmplId): map<string, TmplId> {
    map s | s in sps :: t
  }

  datatype CreateArgs = CreateArgs(t: TmplId, name: string, description: string, byPath: ByPath,
                                   hostDefault: bool, sps: seq<string>, min: Option<int>)

  function NewProviders(m: map<string, TmplId>, sps: seq<string>): (r: seq<string>)
    ensures forall s :: s in r <==> s in sps && s !in m
  {
    Filter(sps, s => s !in m)
  }

  predicate CanCreate(db: Tables, a: CreateArgs) {
    && Disjoint(a.byPath) && Fresh(db.fcpMapping, a.t, a.byPath)
    && Distinct(NewProviders(db.spMapping, a.sps))
  }

  function CreateTemplate(m: map<TmplId, TemplateRow>, a: CreateArgs): map<TmplId, TemplateRow> {
    var others := if a.hostDefault then ClearDefaults(m) else m;
    others[a.t := TemplateRow(a.name, a.description, if a.hostDefault then 1 else 0,
                              if a.min.None? || a.min.value == 0 then -1 else a.min.value)]
  }

  function Create(db: Tables, a: CreateArgs): (Status, Tables) {
    if a.t in db.template then (AlreadyExists, db)
    else if !CanCreate(db, a) then (SqlError, db)
    else (Ok, Tables(db.fcp, CreateTemplate(db.template, a), db.spMapping + Bound(a.sps, a.t),
                     db.fcpMapping + RowsFor(a.t, Assigned(a.byPath))))
  }

  datatype EditArgs = EditArgs(t: TmplId, name: Option<string>, description: Option<string>, devices: Option<ByPath>,
                               hostDefault: Option<bool>, sps: Option<seq<string>>, min: Option<int>)

  function Or<T>(o: Option<T>, other: T): T {
    if o.Some? then o.value else other
  }

  /** A path may be added or dropped only while nothing is allocated from the template. */
  predicate PathCountOk(db: Tables, a: EditArgs) {
    a.devices.Some? && |a.devices.value| != |TemplatePaths(db, a.t)| ==> InUse(db, a.t) == {}
  }

  /** `_validate_min_fcp_paths_count`, with Python's truth of `0`, `''` and `None`. */
  predicate MinOk(db: Tables, a: EditArgs)
    requires a.t in db.template
  {
    var hasMin := a.min.Some? && a.min.value != 0;
    var hasDevices := a.devices.Some? && a.devices.value != [];
    hasMin || hasDevices ==>
      var paths := if hasDevices then |a.devices.value| else |TemplatePaths(db, a.t)|;
      var min := if hasMin then a.min.value else db.template[a.t].minPaths;
      min <= paths
  }

  /** The devices in use from the template that the new device list would lose. */
  function Lost(db: Tables, a: EditArgs): set<FcpId> {
    if a.devices.None? then {}
    else set d | d in Mapped(db, a.t) && d !in Assigned(a.devices.value) && Busy(db, d) && d in InUse(db, a.t)
  }

  function EditTemplate(db: Tables, a: EditArgs): map<TmplId, TemplateRow>
    requires a.t in db.template
  {
    if a.name.None? && a.description.None? && a.hostDefault.None? && a.min.None? then db.template
    else
      var was := db.template[a.t];
      var flag := if a.hostDefault.Some? then (if a.hostDefault.value then 1 else 0) else was.isDefault;
      var others := if a.hostDefault == Some(true) then ClearDefaults(db.template) else db.template;
      others[a.t := TemplateRow(Or(a.name, was.name), Or(a.description, was.description), flag,
                                Or(a.min, was.minPaths))]
  }

  /** Exactly the listed providers default to `t`; others keep a default other than `t`. */
  function Rebound(m: map<string, TmplId>, t: TmplId, sps: seq<string>): map<string, TmplId> {
    (map s | s in m && m[s] != t && s !in sps :: m[s]) + Bound(sps, t)
  }

  function EditProviders(db: Tables, a: EditArgs): map<string, TmplId> {
    if a.sps.Some? then Rebound(db.spMapping, a.t, a.sps.value) else db.spMapping
  }

  function EditDevices(db: Tables, a: EditArgs): map<(FcpId, TmplId), Path> {
    if a.devices.Some? then ReplaceMapping(db.fcpMapping, a.t, Assigned(a.devices.value)) else db.fcpMapping
  }

  /** Editing as replacement of what was given. */
  function Edit(db: Tables, a: EditArgs): (Status, Tables) {
    if a.t !in db.template then (NotExist, db)
    else if !PathCountOk(db, a) then (Conflict, db)
    else if !MinOk(db, a) then (Conflict, db)
    else if Lost(db, a) != {} then (Conflict, db)
    else if a.sps.Some? && !Distinct(a.sps.value) then (SqlError, db)
    else if a.t == "" then (NotExist, db)
    else (Ok, Tables(db.fcp, EditTemplate(db, a), EditProviders(db, a), EditDevices(db, a)))
  }

  function DeleteTemplate(db: Tables, t: TmplId): (Status, Tables) {
    if t !in db.template then (NotExist, db)
    else if InUse(db, t) != {} then (Conflict, db)
    else (Ok, Tables(db.fcp, map x | x in db.template && x != t :: db.template[x],
                     map s | s in db.spMapping && db.spMapping[s] != t :: db.spMapping[s],
                     OtherRows(db.fcpMapping, t)))
  }

  /** The devices a VM already holds from a template (`get_allocated_fcps_from_assigner`). */
  function Held(db: Tables, user: UserId, t: TmplId): set<FcpId> {
    set d | d in Mapped(db, t) && Busy(db, d) && db.fcp[d].assigner == user && db.fcp[d].tmplId == t
  }

  /** The PCHIDs of a template's devices (`get_pchids_by_fcp_template`). */
  function TemplatePchids(db: Tables, t: TmplId): set<Pchid> {
    set d | d in Mapped(db, t) && d in db.fcp :: db.fcp[d].pchid
  }

  predicate WwpnsKnown(db: Tables, ids: set<FcpId>) {
    forall d :: d in ids && d in db.fcp ==> db.fcp[d].wwpnNpiv != "" && db.fcp[d].wwpnPhy != ""
  }

  function DeviceIds(l: seq<Device>): (r: seq<FcpId>)
    ensures |r| == |l| && forall i :: 0 <= i < |l| ==> r[i] == l[i].id
  {
    seq(|l|, i requires 0 <= i < |l| => l[i].id)
  }
}
