/** The four tables of the FCP database. Ids, PCHIDs and states are taken as already
    case-normalised, because the columns are declared NOCASE. */
module FcpTables {
  import opened Lists

  type FcpId = string
  type TmplId = string
  type Pchid = string
  type UserId = string
  type Path = int

  datatype FcpRow = FcpRow(
    assigner: UserId, connections: int, reserved: int,
    wwpnNpiv: string, wwpnPhy: string, chpid: string, pchid: Pchid,
    state: string, owner: UserId, tmplId: TmplId)

  datatype TemplateRow = TemplateRow(name: string, description: string, isDefault: int, minPaths: int)

  /** Primary keys become map keys: `fcp_id`, `id`, `sp_name` and `(fcp_id, tmpl_id)`. */
  datatype Tables = Tables(
    fcp: map<FcpId, FcpRow>,
    template: map<TmplId, TemplateRow>,
    spMapping: map<string, TmplId>,
    fcpMapping: map<(FcpId, TmplId), Path>)

  /** Neither connected nor reserved, and in state `free`. */
  predicate Unused(row: FcpRow) {
    row.connections == 0 && row.reserved == 0 && row.state == "free"
  }

  /** The full filter of the free-device queries: unused, with both WWPNs known. */
  predicate Usable(row: FcpRow) {
    Unused(row) && row.wwpnNpiv != "" && row.wwpnPhy != ""
  }

  /** A device that may be handed out from template `t`: its own, and not in use. */
  predicate Grantable(db: Tables, t: TmplId, d: FcpId) {
    d in db.fcp && (d, t) in db.fcpMapping && Unused(db.fcp[d])
  }

  /** `get_path_count`: the distinct paths of a template, device rows present or not. */
  function TemplatePaths(db: Tables, t: TmplId): set<Path> {
    set k | k in db.fcpMapping && k.1 == t :: db.fcpMapping[k]
  }

  /** `get_min_fcp_paths_count`; `None` stands for the not-exist error it raises. */
  function MinPaths(db: Tables, t: TmplId): Option<int> {
    if t == "" || t !in db.template then None
    else if db.template[t].minPaths == -1 then Some(|TemplatePaths(db, t)|)
    else Some(db.template[t].minPaths)
  }

  /** `ORDER BY path, <text column>`. */
  predicate RowLeq(a: (Path, string), b: (Path, string)) {
    a.0 < b.0 || (a.0 == b.0 && StringLeq(a.1, b.1))
  }

  lemma RowLeqOrder()
    ensures TotalOrder(RowLeq)
  {
    StringLeqOrder();
  }

  /** What the caller reports about a channel: FCP devices in use and the ceiling. */
  datatype ChannelInfo = ChannelInfo(inUse: int, max: int)

  /** Free capacity per PCHID, which may be negative. */
  function Room(info: map<Pchid, ChannelInfo>): map<Pchid, int> {
    map q | q in info :: info[q].max - info[q].inUse
  }

  /** One entry of the list the allocators return. */
  datatype Device = Device(id: FcpId, wwpnNpiv: string, wwpnPhy: string, path: Path, pchid: Pchid)
}
