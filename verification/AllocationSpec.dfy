/** What an FCP device allocation should be, independently of how it is searched for. */
module AllocationSpec {
  import opened Lists
  import opened FcpTables

  /** One PCHID per chosen path. */
  type Assignment = map<Path, Pchid>

  /** `d` belongs to template `t` and passes the full free filter. */
  predicate Free(db: Tables, t: TmplId, d: FcpId) {
    d in db.fcp && (d, t) in db.fcpMapping && Usable(db.fcp[d])
  }

  function FreeDevices(db: Tables, t: TmplId): set<FcpId> {
    set d | d in db.fcp && Free(db, t, d)
  }

  function FreePaths(db: Tables, t: TmplId): set<Path> {
    set d | d in FreeDevices(db, t) :: db.fcpMapping[(d, t)]
  }

  /** Device `d` is free on path `p` through channel `q`. */
  predicate FreeOn(db: Tables, t: TmplId, p: Path, q: Pchid, d: FcpId) {
    Free(db, t, d) && db.fcpMapping[(d, t)] == p && db.fcp[d].pchid == q
  }

  ghost predicate Offers(db: Tables, t: TmplId, p: Path, q: Pchid) {
    exists d :: FreeOn(db, t, p, q, d)
  }

  /** The paths of the assignment that use channel `q`. */
  function Users(m: Assignment, q: Pchid): set<Path> {
    set p | p in m && m[p] == q
  }

  function Count(m: Assignment, q: Pchid): nat {
    |Users(m, q)|
  }

  ghost predicate Selectable(db: Tables, t: TmplId, m: Assignment) {
    forall p :: p in m ==> Offers(db, t, p, m[p])
  }

  ghost predicate Fits(m: Assignment, room: map<Pchid, int>) {
    forall p :: p in m ==> m[p] in room && Count(m, m[p]) <= room[m[p]]
  }

  /** A free PCHID on each chosen path, within every channel's capacity. */
  ghost predicate Feasible(db: Tables, t: TmplId, room: map<Pchid, int>, m: Assignment) {
    Selectable(db, t, m) && Fits(m, room)
  }

  lemma CountPositive(m: Assignment, p: Path)
    requires p in m
    ensures Count(m, m[p]) > 0
  {
    assert p in Users(m, m[p]);
  }

  /** How many allocations of this shape channel `q` still allows. */
  function Ratio(m: Assignment, room: map<Pchid, int>, p: Path): real
    requires p in m && m[p] in room
  {
    CountPositive(m, p);
    room[m[p]] as real / Count(m, m[p]) as real
  }

  /** The ratio times the number of users is the capacity. */
  lemma RatioExact(m: Assignment, room: map<Pchid, int>, p: Path)
    requires p in m && m[p] in room
    ensures Ratio(m, room, p) * |set x | x in m && m[x] == m[p]| as real == room[m[p]] as real
  {
    CountPositive(m, p);
    assert Users(m, m[p]) == set x | x in m && m[x] == m[p];
  }

  /** `w` is the least ratio over the channels of `m`. */
  ghost predicate IsWeight(m: Assignment, room: map<Pchid, int>, w: real) {
    && (forall p :: p in m ==> m[p] in room)
    && (exists p :: p in m && Ratio(m, room, p) == w)
    && (forall p :: p in m ==> w <= Ratio(m, room, p))
  }

  lemma RatioAtLeastOne(room: int, count: int)
    requires count > 0
    ensures room as real / count as real >= 1.0 <==> count <= room
  {
    var r := room as real / count as real;
    assert r * count as real == room as real;
    if r >= 1.0 { assert (r - 1.0) * count as real >= 0.0; }
    if r < 1.0 { assert (1.0 - r) * count as real > 0.0; }
  }

  /** Weight at least one means exactly that every channel has the capacity. */
  lemma WeightFits(m: Assignment, room: map<Pchid, int>, w: real)
    requires IsWeight(m, room, w)
    ensures w >= 1.0 <==> Fits(m, room)
  {
    forall p | p in m ensures Ratio(m, room, p) >= 1.0 <==> Count(m, m[p]) <= room[m[p]] {
      CountPositive(m, p);
      RatioAtLeastOne(room[m[p]], Count(m, m[p]));
    }
  }

  lemma SubsetSize<T>(a: set<T>, b: set<T>)
    requires a <= b
    ensures |a| <= |b|
  {
    assert b == a + (b - a);
  }

  /** Dropping a path keeps an assignment feasible. */
  lemma DropOne(db: Tables, t: TmplId, room: map<Pchid, int>, m: Assignment, gone: Path)
    requires Feasible(db, t, room, m) && gone in m
    ensures Feasible(db, t, room, m - {gone}) && |m - {gone}| == |m| - 1
  {
    var less := m - {gone};
    assert less.Keys == m.Keys - {gone};
    forall p | p in less ensures Count(less, less[p]) <= Count(m, m[p]) {
      SubsetSize(Users(less, less[p]), Users(m, m[p]));
    }
  }

  lemma SomeElement<T>(s: set<T>) returns (x: T)
    requires |s| > 0
    ensures x in s
  {
    x :| x in s;
  }

  /** Feasibility of a size carries over to every smaller size. */
  lemma {:induction false} DropTo(db: Tables, t: TmplId, room: map<Pchid, int>, m: Assignment, k: nat)
    returns (less: Assignment)
    requires Feasible(db, t, room, m) && k <= |m|
    ensures Feasible(db, t, room, less) && |less| == k
    decreases |m|
  {
    if k == |m| {
      less := m;
    } else {
      var p := SomeElement(m.Keys);
      DropOne(db, t, room, m, p);
      less := DropTo(db, t, room, m - {p}, k);
    }
  }

  lemma SelectableSize(db: Tables, t: TmplId, m: Assignment)
    requires Selectable(db, t, m)
    ensures m.Keys <= FreePaths(db, t) && |m| <= |FreePaths(db, t)|
  {
    forall p | p in m ensures p in FreePaths(db, t) {
      var d :| FreeOn(db, t, p, m[p], d);
      assert d in FreeDevices(db, t);
    }
    SubsetSize(m.Keys, FreePaths(db, t));
  }

  /** The lexicographic objective: most paths, then greatest weight, then most channels. */
  ghost predicate Optimal(db: Tables, t: TmplId, room: map<Pchid, int>, m: Assignment) {
    && Feasible(db, t, room, m)
    && (forall o :: Feasible(db, t, room, o) ==> |o| <= |m|)
    && (forall o, w, v :: Feasible(db, t, room, o) && |o| == |m| && IsWeight(m, room, w) && IsWeight(o, room, v)
          ==> v <= w && (v == w ==> |o.Values| <= |m.Values|))
  }

  /** `l` takes one free device of template `t` for each path of `m`, in path order. */
  ghost predicate Realises(db: Tables, t: TmplId, m: Assignment, l: seq<Device>) {
    && |l| == |m|
    && (forall i, j :: 0 <= i < j < |l| ==> l[i].path < l[j].path)
    && (forall i :: 0 <= i < |l| ==> DeviceFor(db, t, m, l[i]))
  }

  predicate DeviceFor(db: Tables, t: TmplId, m: Assignment, e: Device) {
    && e.path in m && e.pchid == m[e.path] && FreeOn(db, t, e.path, e.pchid, e.id)
    && e.wwpnNpiv == db.fcp[e.id].wwpnNpiv && e.wwpnPhy == db.fcp[e.id].wwpnPhy
  }

  /** No device is handed out twice: within a template a device sits on one path. */
  lemma RealisedDistinct(db: Tables, t: TmplId, m: Assignment, l: seq<Device>)
    requires Realises(db, t, m, l)
    ensures forall i, j :: 0 <= i < j < |l| ==> l[i].id != l[j].id
  {
    forall i, j | 0 <= i < j < |l| ensures l[i].id != l[j].id {
      assert DeviceFor(db, t, m, l[i]) && DeviceFor(db, t, m, l[j]);
    }
  }

  function PathList(l: seq<Device>): (r: seq<Path>)
    ensures |r| == |l| && forall i :: 0 <= i < |l| ==> r[i] == l[i].path
  {
    seq(|l|, i requires 0 <= i < |l| => l[i].path)
  }

  /** Every path of the assignment gets a device. */
  lemma RealisedCovers(db: Tables, t: TmplId, m: Assignment, l: seq<Device>)
    requires Realises(db, t, m, l)
    ensures Elements(PathList(l)) == m.Keys
  {
    var paths := PathList(l);
    DistinctSize(paths);
    forall p | p in Elements(paths) ensures p in m.Keys {
      var i :| 0 <= i < |paths| && paths[i] == p;
      assert DeviceFor(db, t, m, l[i]);
    }
    SubsetFull(Elements(paths), m.Keys);
  }

  lemma {:induction false} InjectiveSize<A, B>(f: map<A, B>, a: set<A>, b: set<B>)
    requires a <= f.Keys && forall x :: x in a ==> f[x] in b
    requires forall x, y :: x in a && y in a && f[x] == f[y] ==> x == y
    ensures |a| <= |b|
    decreases |a|
  {
    if a != {} {
      var x :| x in a;
      InjectiveSize(f, a - {x}, b - {f[x]});
    }
  }

  lemma SubsetFull<T>(a: set<T>, b: set<T>)
    requires a <= b && |a| == |b|
    ensures a == b
  {
    assert b == a + (b - a);
  }
}
