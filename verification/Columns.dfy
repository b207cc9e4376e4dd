/** What the SQL statements of the store leave in each column: relations between the tables before and after a
    call, written in the columns themselves and the call's arguments. The store's methods promise them beside
    their table functions. */
module Columns {
  import opened Lists
  import opened FcpTables
  import opened StoreSpec

  // ---------- rows ----------

  /** The columns that z/VM reports. */
  predicate SameZvm(a: FcpRow, b: FcpRow) {
    && a.wwpnNpiv == b.wwpnNpiv && a.wwpnPhy == b.wwpnPhy && a.chpid == b.chpid
    && a.pchid == b.pchid && a.state == b.state && a.owner == b.owner
  }

  /** The columns the store keeps itself. */
  predicate SameUsage(a: FcpRow, b: FcpRow) {
    a.assigner == b.assigner && a.connections == b.connections && a.reserved == b.reserved && a.tmplId == b.tmplId
  }

  predicate UnusedUsage(a: FcpRow) {
    a.assigner == "" && a.connections == 0 && a.reserved == 0 && a.tmplId == ""
  }

  predicate Reports(a: FcpRow, z: ZvmInfo) {
    && a.wwpnNpiv == z.wwpnNpiv && a.wwpnPhy == z.wwpnPhy && a.chpid == z.chpid
    && a.pchid == z.pchid && a.state == z.state && a.owner == z.owner
  }

  predicate InUseRow(a: FcpRow) {
    a.connections != 0 || a.reserved != 0
  }

  /** Only table `fcp` may differ. */
  predicate OnlyDevices(before: Tables, after: Tables) {
    after.template == before.template && after.spMapping == before.spMapping && after.fcpMapping == before.fcpMapping
  }

  // ---------- table fcp ----------

  /** `UPDATE fcp SET reserved=0, tmpl_id=''` for the listed devices. */
  ghost predicate Released(before: Tables, after: Tables, ids: seq<FcpId>) {
    && OnlyDevices(before, after) && after.fcp.Keys == before.fcp.Keys
    && forall d :: d in before.fcp ==>
         if d in ids then
           && after.fcp[d].reserved == 0 && after.fcp[d].tmplId == ""
           && after.fcp[d].assigner == before.fcp[d].assigner && after.fcp[d].connections == before.fcp[d].connections
           && SameZvm(after.fcp[d], before.fcp[d])
         else after.fcp[d] == before.fcp[d]
  }

  /** `UPDATE fcp SET reserved=1, assigner_id=?, tmpl_id=?` for the listed devices. */
  ghost predicate Taken(before: Tables, after: Tables, ids: seq<FcpId>, user: UserId, t: TmplId) {
    && OnlyDevices(before, after) && after.fcp.Keys == before.fcp.Keys
    && forall d :: d in before.fcp ==>
         if d in ids then
           && after.fcp[d].reserved == 1 && after.fcp[d].assigner == user && after.fcp[d].tmplId == t
           && after.fcp[d].connections == before.fcp[d].connections && SameZvm(after.fcp[d], before.fcp[d])
         else after.fcp[d] == before.fcp[d]
  }

  /** `UPDATE fcp SET assigner_id='', reserved=0, connections=0, tmpl_id=''` for the devices of a user. */
  ghost predicate Cleared(before: Tables, after: Tables, user: UserId) {
    && OnlyDevices(before, after) && after.fcp.Keys == before.fcp.Keys
    && forall d :: d in before.fcp ==>
         if before.fcp[d].assigner == user then UnusedUsage(after.fcp[d]) && SameZvm(after.fcp[d], before.fcp[d])
         else after.fcp[d] == before.fcp[d]
  }

  /** New rows with the reported columns and no use yet, beside the old ones. */
  ghost predicate Added(before: Tables, after: Tables, infos: seq<(FcpId, ZvmInfo)>) {
    && OnlyDevices(before, after)
    && (forall d :: d in before.fcp ==> d in after.fcp && after.fcp[d] == before.fcp[d])
    && (forall d :: d in after.fcp ==> d in before.fcp || exists i :: 0 <= i < |infos| && infos[i].0 == d)
    && forall i :: 0 <= i < |infos| ==>
         infos[i].0 in after.fcp && Reports(after.fcp[infos[i].0], infos[i].1) && UnusedUsage(after.fcp[infos[i].0])
  }

  /** No id is there already or listed twice. */
  ghost predicate NewIds(before: Tables, infos: seq<(FcpId, ZvmInfo)>) {
    && (forall i :: 0 <= i < |infos| ==> infos[i].0 !in before.fcp)
    && forall i, j :: 0 <= i < j < |infos| ==> infos[i].0 != infos[j].0
  }

  ghost predicate Removed(before: Tables, after: Tables, ids: seq<FcpId>) {
    && OnlyDevices(before, after)
    && (forall d :: d in after.fcp <==> d in before.fcp && d !in ids)
    && forall d :: d in after.fcp ==> after.fcp[d] == before.fcp[d]
  }

  /** Record `i` is the last one about its device. */
  ghost predicate LastAbout(infos: seq<(FcpId, ZvmInfo)>, i: nat) {
    i < |infos| && forall j :: i < j < |infos| ==> infos[j].0 != infos[i].0
  }

  ghost predicate Listed(infos: seq<(FcpId, ZvmInfo)>, d: FcpId) {
    exists i :: 0 <= i < |infos| && infos[i].0 == d
  }

  /** Each row takes the six z/VM columns of the last record about it, and keeps its usage columns. */
  ghost predicate Refreshed(before: Tables, after: Tables, infos: seq<(FcpId, ZvmInfo)>) {
    && OnlyDevices(before, after) && after.fcp.Keys == before.fcp.Keys
    && (forall d :: d in before.fcp ==> SameUsage(after.fcp[d], before.fcp[d]))
    && (forall d :: d in before.fcp && !Listed(infos, d) ==> after.fcp[d] == before.fcp[d])
    && forall i: nat :: LastAbout(infos, i) && infos[i].0 in before.fcp ==>
         Reports(after.fcp[infos[i].0], infos[i].1)
  }

  ghost predicate Marked(before: Tables, after: Tables, ids: seq<FcpId>, state: string) {
    && OnlyDevices(before, after) && after.fcp.Keys == before.fcp.Keys
    && forall d :: d in before.fcp ==>
         if d in ids then after.fcp[d].state == state && OtherThanState(after.fcp[d], before.fcp[d])
         else after.fcp[d] == before.fcp[d]
  }

  predicate OtherThanState(a: FcpRow, b: FcpRow) {
    && SameUsage(a, b) && a.wwpnNpiv == b.wwpnNpiv && a.wwpnPhy == b.wwpnPhy && a.chpid == b.chpid
    && a.pchid == b.pchid && a.owner == b.owner
  }

  /** A row that was there and is reported: usage kept, z/VM columns taken over, except that a device in use
      keeps the WWPNs it is known under. */
  predicate SyncedRow(was: FcpRow, now: FcpRow, z: ZvmInfo) {
    && SameUsage(now, was)
    && now.chpid == z.chpid && now.pchid == z.pchid && now.state == z.state && now.owner == z.owner
    && if was.wwpnNpiv == "" || !InUseRow(was) then now.wwpnNpiv == z.wwpnNpiv && now.wwpnPhy == z.wwpnPhy
       else now.wwpnNpiv == was.wwpnNpiv && now.wwpnPhy == was.wwpnPhy
  }

  /** What becomes of device `d`: it stays if it is reported or in use; a new row is unused, and an unreported
      one is only marked. */
  ghost predicate SynchronisedAt(before: Tables, after: Tables, zvm: map<FcpId, ZvmInfo>, d: FcpId) {
    && (d in after.fcp <==> d in zvm || (d in before.fcp && InUseRow(before.fcp[d])))
    && (d in after.fcp ==>
          if d !in before.fcp then d in zvm && Reports(after.fcp[d], zvm[d]) && UnusedUsage(after.fcp[d])
          else if d in zvm then SyncedRow(before.fcp[d], after.fcp[d], zvm[d])
          else after.fcp[d].state == "notfound" && OtherThanState(after.fcp[d], before.fcp[d]))
  }

  /** The device table after a synchronisation. */
  ghost predicate Synchronised(before: Tables, after: Tables, zvm: map<FcpId, ZvmInfo>) {
    OnlyDevices(before, after) && forall d :: SynchronisedAt(before, after, zvm, d)
  }

  /** One counter set, everything else as before. */
  ghost predicate Counted(before: Tables, after: Tables, d: FcpId, n: int) {
    && OnlyDevices(before, after) && after.fcp.Keys == before.fcp.Keys
    && d in after.fcp && after.fcp[d].connections == n && SameZvm(after.fcp[d], before.fcp[d])
    && after.fcp[d].assigner == before.fcp[d].assigner && after.fcp[d].reserved == before.fcp[d].reserved
    && after.fcp[d].tmplId == before.fcp[d].tmplId
    && forall e :: e in before.fcp && e != d ==> after.fcp[e] == before.fcp[e]
  }

  // ---------- templates ----------

  /** The distinct paths a template maps devices to. */
  function PathsOf(db: Tables, t: TmplId): set<Path> {
    set k | k in db.fcpMapping && k.1 == t :: db.fcpMapping[k]
  }

  /** Some device is allocated from the template. */
  ghost predicate Allocated(db: Tables, t: TmplId) {
    exists d :: d in db.fcp && db.fcp[d].tmplId == t
  }

  ghost predicate DeviceListed(byPath: ByPath, d: FcpId) {
    exists i :: 0 <= i < |byPath| && d in byPath[i].1
  }

  /** `i` is the last path that lists the device. */
  ghost predicate LastPath(byPath: ByPath, d: FcpId, i: nat) {
    i < |byPath| && d in byPath[i].1 && forall j :: i < j < |byPath| ==> d !in byPath[j].1
  }

  /** Template `t` maps exactly the listed devices, each to the last path that lists it. */
  ghost predicate Maps(db: Tables, t: TmplId, byPath: ByPath) {
    && (forall d :: (d, t) in db.fcpMapping <==> DeviceListed(byPath, d))
    && forall d, i: nat :: LastPath(byPath, d, i) ==> (d, t) in db.fcpMapping && db.fcpMapping[(d, t)] == byPath[i].0
  }

  /** The mapping rows of the other templates are as before. */
  ghost predicate OtherMappings(before: Tables, after: Tables, t: TmplId) {
    forall k: (FcpId, TmplId) :: k.1 != t ==>
      (k in after.fcpMapping <==> k in before.fcpMapping)
      && (k in after.fcpMapping && k in before.fcpMapping ==> after.fcpMapping[k] == before.fcpMapping[k])
  }

  /** The other templates are as before, except for a cleared default flag. */
  ghost predicate OtherTemplates(before: Tables, after: Tables, t: TmplId, cleared: bool) {
    && (forall x :: x != t ==> (x in after.template <==> x in before.template))
    && forall x :: x in before.template && x in after.template && x != t ==>
         && after.template[x].name == before.template[x].name
         && after.template[x].description == before.template[x].description
         && after.template[x].minPaths == before.template[x].minPaths
         && after.template[x].isDefault == if cleared then 0 else before.template[x].isDefault
  }

  predicate Repeats(s: seq<string>) {
    exists i, j :: 0 <= i < j < |s| && s[i] == s[j]
  }

  /** What keeps a creation from being committed: a device on two paths or mapped already, or a provider
      without a default that is listed twice. */
  ghost predicate CreateCollides(db: Tables, a: CreateArgs) {
    || (exists i, j, d :: 0 <= i < j < |a.byPath| && d in a.byPath[i].1 && d in a.byPath[j].1)
    || (exists d :: DeviceListed(a.byPath, d) && (d, a.t) in db.fcpMapping)
    || (exists i, j :: 0 <= i < j < |a.sps| && a.sps[i] == a.sps[j] && a.sps[i] !in db.spMapping)
  }

  ghost predicate CreateStatus(db: Tables, a: CreateArgs, status: Status) {
    if a.t in db.template then status == AlreadyExists
    else if CreateCollides(db, a) then status == SqlError
    else status == Ok
  }

  /** The new template row, its mapping rows and its providers; nothing else. */
  ghost predicate Created(before: Tables, after: Tables, a: CreateArgs) {
    && after.fcp == before.fcp && AddsTemplate(before, after, a) && AddsMappings(before, after, a)
    && AddsProviders(before, after, a)
  }

  ghost predicate AddsTemplate(before: Tables, after: Tables, a: CreateArgs) {
    && OtherTemplates(before, after, a.t, a.hostDefault) && a.t in after.template
    && after.template[a.t].name == a.name && after.template[a.t].description == a.description
    && after.template[a.t].isDefault == (if a.hostDefault then 1 else 0)
    && after.template[a.t].minPaths == (if a.min == None || a.min == Some(0) then -1 else a.min.value)
  }

  /** The mapping rows of a new template. */
  ghost predicate AddsMappings(before: Tables, after: Tables, a: CreateArgs) {
    && OtherMappings(before, after, a.t)
    && (forall d :: DeviceListed(a.byPath, d) ==> (d, a.t) in after.fcpMapping)
    && (forall d, i: nat :: LastPath(a.byPath, d, i) ==>
          (d, a.t) in after.fcpMapping && after.fcpMapping[(d, a.t)] == a.byPath[i].0)
    && forall d :: (d, a.t) in after.fcpMapping ==> (d, a.t) in before.fcpMapping || DeviceListed(a.byPath, d)
  }

  ghost predicate AddsProviders(before: Tables, after: Tables, a: CreateArgs) {
    && (forall s :: s in a.sps ==> s in after.spMapping && after.spMapping[s] == a.t)
    && (forall s :: s !in a.sps ==> (s in after.spMapping <==> s in before.spMapping))
    && forall s :: s !in a.sps && s in before.spMapping ==> after.spMapping[s] == before.spMapping[s]
  }

  /** The number of paths after the edit, and the minimum after it, both with `0`, `''` and `None` as not given. */
  ghost function PathsAfter(db: Tables, a: EditArgs): int {
    if a.devices.Some? && |a.devices.value| > 0 then |a.devices.value| else |PathsOf(db, a.t)|
  }

  ghost function MinAfter(db: Tables, a: EditArgs): int
    requires a.t in db.template
  {
    match a.min case Some(n) => if n != 0 then n else db.template[a.t].minPaths case None => db.template[a.t].minPaths
  }

  /** The minimum is looked at only when a minimum or a device list is given. */
  ghost predicate MinExceeds(db: Tables, a: EditArgs)
    requires a.t in db.template
  {
    && ((a.min.Some? && a.min.value != 0) || (a.devices.Some? && |a.devices.value| > 0))
    && MinAfter(db, a) > PathsAfter(db, a)
  }

  ghost predicate PathsChangeInUse(db: Tables, a: EditArgs) {
    a.devices.Some? && |a.devices.value| != |PathsOf(db, a.t)| && Allocated(db, a.t)
  }

  /** A device allocated from the template and in use is not in the new list. */
  ghost predicate LosesInUse(db: Tables, a: EditArgs) {
    a.devices.Some? && exists d ::
      && d in db.fcp && db.fcp[d].tmplId == a.t && InUseRow(db.fcp[d])
      && (d, a.t) in db.fcpMapping && !DeviceListed(a.devices.value, d)
  }

  /** When an edit is refused, and how. */
  ghost predicate EditStatus(db: Tables, a: EditArgs, status: Status) {
    if a.t !in db.template then status == NotExist
    else if PathsChangeInUse(db, a) || MinExceeds(db, a) || LosesInUse(db, a) then status == Conflict
    else if a.sps.Some? && Repeats(a.sps.value) then status == SqlError
    else if a.t == "" then status == NotExist
    else status == Ok
  }

  /** The row of the edited template: what was given, else as before. */
  ghost predicate EditedRow(was: TemplateRow, now: TemplateRow, a: EditArgs) {
    && (match a.name case Some(x) => now.name == x case None => now.name == was.name)
    && (match a.description case Some(x) => now.description == x case None => now.description == was.description)
    && (match a.hostDefault
        case Some(x) => now.isDefault == (if x then 1 else 0)
        case None => now.isDefault == was.isDefault)
    && (match a.min case Some(x) => now.minPaths == x case None => now.minPaths == was.minPaths)
  }

  ghost predicate Edited(before: Tables, after: Tables, a: EditArgs) {
    && after.fcp == before.fcp && a.t in before.template && a.t in after.template
    && EditedRow(before.template[a.t], after.template[a.t], a)
    && OtherTemplates(before, after, a.t, a.hostDefault == Some(true))
    && (if a.devices.Some? then Maps(after, a.t, a.devices.value) && OtherMappings(before, after, a.t)
        else after.fcpMapping == before.fcpMapping)
    && (if a.sps.Some? then EditedProviders(before, after, a.t, a.sps.value) else after.spMapping == before.spMapping)
  }

  /** Exactly the listed providers default to the template; the others keep a default that is another one. */
  ghost predicate EditedProviders(before: Tables, after: Tables, t: TmplId, sps: seq<string>) {
    && (forall s :: s in after.spMapping && after.spMapping[s] == t <==> s in sps)
    && forall s :: s !in sps ==>
         (s in after.spMapping <==> s in before.spMapping && before.spMapping[s] != t)
         && (s in after.spMapping && s in before.spMapping ==> after.spMapping[s] == before.spMapping[s])
  }

  /** The listed mapping rows of the template are gone, except those of devices in use. */
  ghost predicate Unmapped(before: Tables, after: Tables, ids: seq<FcpId>, t: TmplId) {
    && after.fcp == before.fcp && after.template == before.template && after.spMapping == before.spMapping
    && (forall k :: k in after.fcpMapping <==>
          k in before.fcpMapping && !(k.1 == t && k.0 in ids && !(k.0 in before.fcp && InUseRow(before.fcp[k.0]))))
    && forall k :: k in after.fcpMapping ==> after.fcpMapping[k] == before.fcpMapping[k]
  }

  /** No table mentions the template, and every other row is as before. */
  ghost predicate Deleted(before: Tables, after: Tables, t: TmplId) {
    && after.fcp == before.fcp && t !in after.template
    && (forall x :: x != t ==> (x in after.template <==> x in before.template))
    && (forall x :: x in after.template && x in before.template ==> after.template[x] == before.template[x])
    && OtherMappings(before, after, t) && (forall k :: k in after.fcpMapping ==> k.1 != t)
    && (forall s :: s in after.spMapping <==> s in before.spMapping && before.spMapping[s] != t)
    && forall s :: s in after.spMapping ==> after.spMapping[s] == before.spMapping[s]
  }

  ghost predicate DeleteStatus(db: Tables, t: TmplId, status: Status) {
    if t !in db.template then status == NotExist
    else if Allocated(db, t) then status == Conflict
    else status == Ok
  }

  // ---------- allocation ----------

  /** The device holds for the user from the template: mapped, in use, and assigned by it. */
  ghost predicate HeldBy(db: Tables, user: UserId, t: TmplId, d: FcpId) {
    && d in db.fcp && (d, t) in db.fcpMapping && InUseRow(db.fcp[d])
    && db.fcp[d].assigner == user && db.fcp[d].tmplId == t
  }

  /** A returned entry describes a free device of the template, with both WWPNs. */
  ghost predicate FreeEntry(db: Tables, t: TmplId, e: Device) {
    && e.id in db.fcp && (e.id, t) in db.fcpMapping && db.fcpMapping[(e.id, t)] == e.path
    && db.fcp[e.id].connections == 0 && db.fcp[e.id].reserved == 0 && db.fcp[e.id].state == "free"
    && db.fcp[e.id].wwpnNpiv == e.wwpnNpiv != "" && db.fcp[e.id].wwpnPhy == e.wwpnPhy != ""
    && db.fcp[e.id].pchid == e.pchid
  }

  /** The same, for the allocator that does not look at the WWPNs of what it returns. */
  ghost predicate IdleEntry(db: Tables, t: TmplId, e: Device) {
    && e.id in db.fcp && (e.id, t) in db.fcpMapping && db.fcpMapping[(e.id, t)] == e.path
    && db.fcp[e.id].connections == 0 && db.fcp[e.id].reserved == 0 && db.fcp[e.id].state == "free"
    && db.fcp[e.id].wwpnNpiv == e.wwpnNpiv && db.fcp[e.id].wwpnPhy == e.wwpnPhy && db.fcp[e.id].pchid == e.pchid
  }

  /** The positions of the list that use channel `q`. */
  function Using(l: seq<Device>, q: Pchid): set<int> {
    set i | 0 <= i < |l| && l[i].pchid == q
  }

  /** With the devices in use already, no channel gets more devices than its maximum. */
  ghost predicate WithinMax(info: map<Pchid, ChannelInfo>, l: seq<Device>) {
    forall i :: 0 <= i < |l| ==>
      && l[i].pchid in info
      && info[l[i].pchid].inUse + |Using(l, l[i].pchid)| <= info[l[i].pchid].max
  }

  /** A device for each of some paths, all free with both WWPNs. */
  ghost predicate FreeChoice(db: Tables, t: TmplId, m: map<Path, FcpId>) {
    forall p :: p in m ==>
      && m[p] in db.fcp && (m[p], t) in db.fcpMapping && db.fcpMapping[(m[p], t)] == p
      && db.fcp[m[p]].connections == 0 && db.fcp[m[p]].reserved == 0 && db.fcp[m[p]].state == "free"
      && db.fcp[m[p]].wwpnNpiv != "" && db.fcp[m[p]].wwpnPhy != ""
  }

  /** The paths of the choice whose device is on channel `q`. */
  ghost function PathsOn(db: Tables, m: map<Path, FcpId>, q: Pchid): set<Path> {
    set p | p in m && m[p] in db.fcp && db.fcp[m[p]].pchid == q
  }

  ghost predicate ChoiceWithinMax(db: Tables, info: map<Pchid, ChannelInfo>, m: map<Path, FcpId>) {
    forall p :: p in m && m[p] in db.fcp ==>
      var q := db.fcp[m[p]].pchid;
      q in info && info[q].inUse + |PathsOn(db, m, q)| <= info[q].max
  }

  /** As many paths as the template asks for; -1 asks for all of them. */
  ghost predicate EnoughPaths(db: Tables, t: TmplId, n: int) {
    && t in db.template && t != ""
    && n >= if db.template[t].minPaths == -1 then |PathsOf(db, t)| else db.template[t].minPaths
  }

  /** Every device row of the template has channel statistics. */
  ghost predicate StatisticsComplete(db: Tables, t: TmplId, info: map<Pchid, ChannelInfo>) {
    forall d :: (d, t) in db.fcpMapping && d in db.fcp ==> db.fcp[d].pchid in info
  }

  /** Every path of the template has a free device with both WWPNs. */
  ghost predicate EveryPathFree(db: Tables, t: TmplId) {
    PathsOf(db, t) != {} && forall p :: p in PathsOf(db, t) ==> exists d :: FreeChoice(db, t, map[p := d])
  }

  /** The devices of the template on the path of `d` that come before it. */
  function Preceding(db: Tables, t: TmplId, p: Path, d: FcpId): set<FcpId> {
    set k | k in db.fcpMapping && k.1 == t && db.fcpMapping[k] == p && k.0 != d && StringLeq(k.0, d) :: k.0
  }

  /** An idle device on every path of the template, each with `i` devices before it. */
  ghost predicate IdleRank(db: Tables, t: TmplId, i: nat, m: map<Path, FcpId>) {
    && m.Keys == PathsOf(db, t)
    && forall p :: p in m ==>
         && m[p] in db.fcp && (m[p], t) in db.fcpMapping && db.fcpMapping[(m[p], t)] == p
         && db.fcp[m[p]].connections == 0 && db.fcp[m[p]].reserved == 0 && db.fcp[m[p]].state == "free"
         && |Preceding(db, t, p, m[p])| == i
  }

  // ---------- the table functions meet them ----------

  lemma ReleasedColumns(db: Tables, ids: seq<FcpId>)
    ensures Released(db, Unreserve(db, ids), ids)
  {
  }

  lemma TakenColumns(db: Tables, ids: seq<FcpId>, user: UserId, t: TmplId)
    ensures Taken(db, Reserve(db, ids, user, t), ids, user, t)
  {
  }

  lemma ClearedColumns(db: Tables, user: UserId)
    ensures Cleared(db, Reset(db, user), user)
  {
  }

  lemma {:induction false} InsertedRows(infos: seq<(FcpId, ZvmInfo)>)
    requires forall i, j :: 0 <= i < j < |infos| ==> infos[i].0 != infos[j].0
    ensures forall d :: d in Inserted(infos) ==> Listed(infos, d)
    ensures forall i :: 0 <= i < |infos| ==>
      infos[i].0 in Inserted(infos) && Inserted(infos)[infos[i].0] == NewRow(infos[i].1)
  {
    if infos != [] {
      var init := infos[..|infos| - 1];
      InsertedRows(init);
      forall d | d in Inserted(infos) ensures Listed(infos, d) {
        if d != infos[|infos| - 1].0 {
          assert d in Inserted(init) && Listed(init, d);
          var i :| 0 <= i < |init| && init[i].0 == d;
          assert infos[i].0 == d;
        }
      }
      forall i | 0 <= i < |infos|
        ensures infos[i].0 in Inserted(infos) && Inserted(infos)[infos[i].0] == NewRow(infos[i].1)
      {
        if i < |init| { assert init[i] == infos[i]; }
      }
    }
  }

  lemma AddedColumns(db: Tables, infos: seq<(FcpId, ZvmInfo)>)
    ensures Insert(db, infos).0 == if NewIds(db, infos) then Ok else SqlError
    ensures if NewIds(db, infos) then Added(db, Insert(db, infos).1, infos) else Insert(db, infos).1 == db
  {
    if NewIds(db, infos) {
      InsertedRows(infos);
      AddedRows(db, infos, Inserted(infos));
    }
  }

  lemma AddedRows(db: Tables, infos: seq<(FcpId, ZvmInfo)>, rows: map<FcpId, FcpRow>)
    requires NewIds(db, infos) && forall d :: d in rows ==> Listed(infos, d)
    requires forall i :: 0 <= i < |infos| ==> infos[i].0 in rows && rows[infos[i].0] == NewRow(infos[i].1)
    ensures Added(db, db.(fcp := db.fcp + rows), infos)
  {
    forall d | d in db.fcp ensures !Listed(infos, d) {}
  }

  lemma RemovedColumns(db: Tables, ids: seq<FcpId>)
    ensures Removed(db, Delete(db, ids), ids)
  {
  }

  lemma {:induction false} LastRecordIs(infos: seq<(FcpId, ZvmInfo)>, i: nat)
    requires LastAbout(infos, i)
    ensures LastRecord(infos, infos[i].0) == Some(infos[i].1)
  {
    var n := |infos| - 1;
    if i < n {
      assert infos[n].0 != infos[i].0;
      assert infos[..n][i] == infos[i];
      LastRecordIs(infos[..n], i);
    }
  }

  lemma {:induction false} NoRecord(infos: seq<(FcpId, ZvmInfo)>, d: FcpId)
    requires !Listed(infos, d)
    ensures LastRecord(infos, d) == None
  {
    if infos != [] {
      var init := infos[..|infos| - 1];
      forall i | 0 <= i < |init| ensures init[i].0 != d { assert init[i] == infos[i]; }
      assert infos[|infos| - 1].0 != d;
      NoRecord(init, d);
    }
  }

  lemma RefreshedColumns(db: Tables, infos: seq<(FcpId, ZvmInfo)>)
    ensures Refreshed(db, Update(db, infos), infos)
  {
    forall d | !Listed(infos, d) ensures LastRecord(infos, d) == None { NoRecord(infos, d); }
    forall i: nat | LastAbout(infos, i) && infos[i].0 in db.fcp
      ensures Reports(Update(db, infos).fcp[infos[i].0], infos[i].1)
    {
      LastRecordIs(infos, i);
    }
  }

  lemma MarkedColumns(db: Tables, ids: seq<FcpId>, state: string)
    ensures Marked(db, SetState(db, ids, state), ids, state)
  {
  }

  lemma SynchronisedColumns(db: Tables, zvm: map<FcpId, ZvmInfo>)
    ensures Synchronised(db, Sync(db, zvm), zvm)
  {
    forall d ensures SynchronisedAt(db, Sync(db, zvm), zvm, d) { SyncAt(db, zvm, d); }
  }

  lemma SyncAt(db: Tables, zvm: map<FcpId, ZvmInfo>, d: FcpId)
    ensures SynchronisedAt(db, Sync(db, zvm), zvm, d)
  {
  }

  /** A released device that is idle and free can be handed out again. */
  lemma ReleasedGrantable(before: Tables, after: Tables, ids: seq<FcpId>, t: TmplId, d: FcpId)
    requires Released(before, after, ids) && d in ids && d in before.fcp && (d, t) in before.fcpMapping
    requires before.fcp[d].connections == 0 && before.fcp[d].state == "free"
    ensures Grantable(after, t, d)
  {
  }

  lemma {:induction false} AssignedIs(byPath: ByPath, d: FcpId)
    ensures d in Assigned(byPath) <==> DeviceListed(byPath, d)
    ensures forall i: nat :: LastPath(byPath, d, i) ==> d in Assigned(byPath) && Assigned(byPath)[d] == byPath[i].0
  {
    if byPath != [] {
      var n := |byPath| - 1;
      var init := byPath[..n];
      AssignedIs(init, d);
      if d !in byPath[n].1 {
        assert DeviceListed(byPath, d) <==> DeviceListed(init, d) by {
          if i :| 0 <= i < |init| && d in init[i].1 { assert d in byPath[i].1; }
          if i :| 0 <= i < |byPath| && d in byPath[i].1 { assert d in init[i].1; }
        }
        forall i: nat | LastPath(byPath, d, i) ensures d in Assigned(byPath) && Assigned(byPath)[d] == byPath[i].0 {
          assert LastPath(init, d, i);
        }
      }
    }
  }

  lemma ReplacedMaps(db: Tables, t: TmplId, byPath: ByPath)
    ensures var after := db.(fcpMapping := ReplaceMapping(db.fcpMapping, t, Assigned(byPath)));
            Maps(after, t, byPath) && OtherMappings(db, after, t)
  {
    forall k ensures k in RowsFor(t, Assigned(byPath)) <==> k.1 == t && k.0 in Assigned(byPath) {
      RowsForAt(t, Assigned(byPath), k);
    }
    forall d ensures d in Assigned(byPath) <==> DeviceListed(byPath, d) { AssignedIs(byPath, d); }
    forall d, i: nat | LastPath(byPath, d, i) ensures d in Assigned(byPath) && Assigned(byPath)[d] == byPath[i].0 {
      AssignedIs(byPath, d);
    }
  }

  lemma UnmappedColumns(db: Tables, ids: seq<FcpId>, t: TmplId)
    ensures Unmapped(db, BulkDelete(db, ids, t), ids, t)
  {
  }

  lemma DeletedColumns(db: Tables, t: TmplId)
    ensures DeleteStatus(db, t, DeleteTemplate(db, t).0)
    ensures if DeleteTemplate(db, t).0.Ok? then Deleted(db, DeleteTemplate(db, t).1, t)
            else DeleteTemplate(db, t).1 == db
  {
    AllocatedIs(db, t);
  }

  lemma AllocatedIs(db: Tables, t: TmplId)
    ensures Allocated(db, t) <==> InUse(db, t) != {}
  {
    if d :| d in db.fcp && db.fcp[d].tmplId == t { assert d in InUse(db, t); }
  }

  lemma DistinctIs(s: seq<string>)
    ensures Distinct(s) <==> !Repeats(s)
  {
  }

  lemma EditStatusColumns(db: Tables, a: EditArgs)
    ensures EditStatus(db, a, Edit(db, a).0)
    ensures !Edit(db, a).0.Ok? ==> Edit(db, a).1 == db
  {
    AllocatedIs(db, a.t);
    LostIs(db, a);
    if a.sps.Some? { DistinctIs(a.sps.value); }
    assert PathsOf(db, a.t) == TemplatePaths(db, a.t);
  }

  lemma LostIs(db: Tables, a: EditArgs)
    ensures LosesInUse(db, a) <==> Lost(db, a) != {}
  {
    if a.devices.Some? {
      forall d ensures d in Assigned(a.devices.value) <==> DeviceListed(a.devices.value, d) {
        AssignedIs(a.devices.value, d);
      }
      if d :| d in Lost(db, a) {
        assert d in Mapped(db, a.t);
      }
      if d :| d in db.fcp && db.fcp[d].tmplId == a.t && InUseRow(db.fcp[d])
              && (d, a.t) in db.fcpMapping && !DeviceListed(a.devices.value, d) {
        assert d in Mapped(db, a.t) && d in Lost(db, a);
      }
    }
  }

  lemma EditedColumns(db: Tables, a: EditArgs)
    requires Edit(db, a).0.Ok?
    ensures Edited(db, Edit(db, a).1, a)
  {
    if a.devices.Some? { ReplacedMaps(db, a.t, a.devices.value); }
  }

  lemma CreateStatusColumns(db: Tables, a: CreateArgs)
    ensures CreateStatus(db, a, Create(db, a).0)
    ensures !Create(db, a).0.Ok? ==> Create(db, a).1 == db
  {
    CollidesIs(db, a);
  }

  lemma CollidesIs(db: Tables, a: CreateArgs)
    ensures CreateCollides(db, a) <==> !CanCreate(db, a)
  {
    forall d ensures d in Assigned(a.byPath) <==> DeviceListed(a.byPath, d) { AssignedIs(a.byPath, d); }
    assert Disjoint(a.byPath) <==>
           !exists i, j, d :: 0 <= i < j < |a.byPath| && d in a.byPath[i].1 && d in a.byPath[j].1;
    NewProvidersRepeat(db.spMapping, a.sps);
  }

  lemma {:induction false} NewProvidersRepeat(m: map<string, TmplId>, sps: seq<string>)
    ensures Distinct(NewProviders(m, sps)) <==> !exists i, j :: 0 <= i < j < |sps| && sps[i] == sps[j] && sps[i] !in m
  {
    if sps != [] {
      var rest := sps[1..];
      NewProvidersRepeat(m, rest);
      ProvidersHead(m, sps);
      if sps[0] !in m {
        assert NewProviders(m, sps) == [sps[0]] + NewProviders(m, rest);
        DistinctCons(sps[0], NewProviders(m, rest));
      }
    }
  }

  lemma DistinctCons(x: string, s: seq<string>)
    ensures Distinct([x] + s) <==> x !in s && Distinct(s)
  {
    var all := [x] + s;
    if Distinct(all) {
      forall i | 0 <= i < |s| ensures s[i] != x { assert all[0] != all[i + 1]; }
      forall i, j | 0 <= i < j < |s| ensures s[i] != s[j] { assert all[i + 1] != all[j + 1]; }
    }
  }

  lemma ProvidersHead(m: map<string, TmplId>, sps: seq<string>)
    requires sps != []
    ensures var rest := sps[1..];
      (exists i, j :: 0 <= i < j < |sps| && sps[i] == sps[j] && sps[i] !in m) <==>
      (exists i, j :: 0 <= i < j < |rest| && rest[i] == rest[j] && rest[i] !in m) || (sps[0] in rest && sps[0] !in m)
  {
    var rest := sps[1..];
    if i, j :| 0 <= i < j < |sps| && sps[i] == sps[j] && sps[i] !in m {
      if i > 0 { assert rest[i - 1] == rest[j - 1]; } else { assert rest[j - 1] == sps[0]; }
    }
    if i, j :| 0 <= i < j < |rest| && rest[i] == rest[j] && rest[i] !in m {
      assert sps[i + 1] == sps[j + 1];
    }
    if sps[0] in rest && sps[0] !in m {
      var j :| 0 <= j < |rest| && rest[j] == sps[0];
      assert sps[j + 1] == sps[0];
    }
  }

  lemma CreatedMappings(db: Tables, a: CreateArgs)
    requires Create(db, a).0.Ok?
    ensures AddsMappings(db, Create(db, a).1, a)
  {
    assert Create(db, a).1.fcpMapping == db.fcpMapping + RowsFor(a.t, Assigned(a.byPath));
    forall k ensures k in RowsFor(a.t, Assigned(a.byPath)) <==> k.1 == a.t && k.0 in Assigned(a.byPath) {
      RowsForAt(a.t, Assigned(a.byPath), k);
    }
    forall d ensures d in Assigned(a.byPath) <==> DeviceListed(a.byPath, d) { AssignedIs(a.byPath, d); }
    forall d, i: nat | LastPath(a.byPath, d, i)
      ensures d in Assigned(a.byPath) && Assigned(a.byPath)[d] == a.byPath[i].0
    {
      AssignedIs(a.byPath, d);
    }
  }

  lemma CreatedTemplate(db: Tables, a: CreateArgs)
    requires Create(db, a).0.Ok?
    ensures AddsTemplate(db, Create(db, a).1, a)
  {
    var now := CreateTemplate(db.template, a);
    assert Create(db, a).1.template == now;
  }

  lemma CreatedProviders(db: Tables, a: CreateArgs)
    requires Create(db, a).0.Ok?
    ensures AddsProviders(db, Create(db, a).1, a)
  {
    assert Create(db, a).1.spMapping == db.spMapping + Bound(a.sps, a.t);
  }

  lemma CreatedColumns(db: Tables, a: CreateArgs)
    requires Create(db, a).0.Ok?
    ensures Created(db, Create(db, a).1, a)
  {
    CreatedMappings(db, a);
    CreatedTemplate(db, a);
    CreatedProviders(db, a);
  }
}
