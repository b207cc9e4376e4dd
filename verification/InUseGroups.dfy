/** `get_pchids_of_all_inuse_fcp_devices`: grouping by slices of a list sorted by PCHID. */
module InUseGroups {
  import opened Lists
  import opened FcpTables

  type Entry = (Pchid, FcpId)

  /** The devices allocated from some template, with their channel. */
  function InUseEntries(db: Tables): set<Entry> {
    set d | d in db.fcp && db.fcp[d].tmplId != "" :: (db.fcp[d].pchid, d)
  }

  predicate EntryLeq(a: Entry, b: Entry) {
    if a.0 == b.0 then StringLeq(a.1, b.1) else StringLeq(a.0, b.0)
  }

  lemma EntryOrder()
    ensures TotalOrder(EntryLeq)
  {
    StringLeqOrder();
  }

  /** Sorted by channel; entries of one channel in any order. */
  ghost predicate ByChannel(rows: seq<Entry>) {
    forall i, j :: 0 <= i < j < |rows| ==> StringLeq(rows[i].0, rows[j].0)
  }

  ghost predicate NoRepeats<T>(s: seq<T>) {
    forall i, j :: 0 <= i < j < |s| ==> s[i] != s[j]
  }

  /** `... WHERE tmpl_id != '' ORDER BY pchid` */
  method SelectInUse(db: Tables) returns (rows: seq<Entry>)
    ensures ByChannel(rows) && NoRepeats(rows)
    ensures forall e :: e in rows <==> e in InUseEntries(db)
  {
    EntryOrder();
    rows := SortSet(InUseEntries(db), EntryLeq);
    forall i, j | 0 <= i < j < |rows| ensures StringLeq(rows[i].0, rows[j].0) {
      assert EntryLeq(rows[i], rows[j]);
      if rows[i].0 == rows[j].0 { StringLeqTotal(rows[i].0, rows[j].0); }
    }
  }

  function At(rows: seq<Entry>, q: Pchid): set<nat> {
    set i: nat | i < |rows| && rows[i].0 == q
  }

  /** `tmp_pchids.index(q)` */
  method IndexOf(rows: seq<Entry>, q: Pchid) returns (first: nat)
    requires exists i :: 0 <= i < |rows| && rows[i].0 == q
    ensures first < |rows| && rows[first].0 == q
    ensures forall i :: 0 <= i < first ==> rows[i].0 != q
  {
    first := 0;
    while rows[first].0 != q
      invariant first < |rows|
      invariant forall i :: 0 <= i < first ==> rows[i].0 != q
      decreases |rows| - first
    {
      first := first + 1;
    }
  }

  /** `tmp_pchids.count(q)` */
  method CountOf(rows: seq<Entry>, q: Pchid) returns (n: nat)
    ensures n == |At(rows, q)|
  {
    n := 0;
    for i := 0 to |rows|
      invariant n == |At(rows[..i], q)|
    {
      ghost var before := At(rows[..i], q);
      assert At(rows[..i + 1], q) == before + if rows[i].0 == q then {i} else {};
      if rows[i].0 == q { n := n + 1; }
    }
    assert rows[..|rows|] == rows;
  }

  lemma {:induction false} IntervalSize(a: nat, b: nat, s: set<nat>)
    requires a <= b && forall i: nat :: i in s <==> a <= i < b
    ensures |s| == b - a
    decreases b
  {
    if a == b {
      assert s == {};
    } else {
      IntervalSize(a, b - 1, s - {b - 1});
    }
  }

  /** In a list sorted by channel the entries of one channel are the slice from its first index. */
  lemma SliceIsGroup(rows: seq<Entry>, q: Pchid, first: nat, n: nat)
    requires ByChannel(rows) && first < |rows| && rows[first].0 == q
    requires forall i :: 0 <= i < first ==> rows[i].0 != q
    requires n == |At(rows, q)|
    ensures first + n <= |rows|
    ensures forall i :: 0 <= i < |rows| ==> (rows[i].0 == q <==> first <= i < first + n)
  {
    var last := first + 1;
    while last < |rows| && rows[last].0 == q
      invariant first < last <= |rows|
      invariant forall i :: first <= i < last ==> rows[i].0 == q
    {
      last := last + 1;
    }
    forall i | last <= i < |rows| ensures rows[i].0 != q {
      assert StringLeq(rows[first].0, rows[last].0);
      if rows[i].0 == q {
        assert i > last && StringLeq(rows[last].0, rows[i].0);
        StringLeqAntisymmetric(rows[last].0, q);
      }
    }
    IntervalSize(first, last, At(rows, q));
  }

  function Ids(rows: seq<Entry>): (r: seq<FcpId>)
    ensures |r| == |rows| && forall i :: 0 <= i < |rows| ==> r[i] == rows[i].1
  {
    seq(|rows|, i requires 0 <= i < |rows| => rows[i].1)
  }

  /** `g` lists exactly the devices in use on channel `q`, each once. */
  ghost predicate GroupOf(db: Tables, q: Pchid, g: seq<FcpId>) {
    NoRepeats(g) && forall d :: d in g <==> d in db.fcp && db.fcp[d].tmplId != "" && db.fcp[d].pchid == q
  }

  lemma SliceGroupOf(db: Tables, rows: seq<Entry>, q: Pchid, first: nat, n: nat)
    requires NoRepeats(rows) && (forall e :: e in rows <==> e in InUseEntries(db)) && first + n <= |rows|
    requires forall i :: 0 <= i < |rows| ==> (rows[i].0 == q <==> first <= i < first + n)
    ensures GroupOf(db, q, Ids(rows)[first..first + n])
  {
    var g := Ids(rows)[first..first + n];
    forall i, j | 0 <= i < j < |g| ensures g[i] != g[j] {
      assert rows[first + i] != rows[first + j];
    }
    forall d ensures d in g <==> d in db.fcp && db.fcp[d].tmplId != "" && db.fcp[d].pchid == q {
      if d in g {
        var i :| 0 <= i < n && g[i] == d;
        assert rows[first + i] in rows;
      }
      if d in db.fcp && db.fcp[d].tmplId != "" && db.fcp[d].pchid == q {
        assert (q, d) in rows;
        var i :| 0 <= i < |rows| && rows[i] == (q, d);
        assert g[i - first] == d;
      }
    }
  }

  /** Every device in use is in exactly one group, that of its own channel. */
  method InUseByPchid(db: Tables) returns (groups: map<Pchid, seq<FcpId>>)
    ensures groups.Keys == set d | d in db.fcp && db.fcp[d].tmplId != "" :: db.fcp[d].pchid
    ensures forall q :: q in groups ==> GroupOf(db, q, groups[q])
  {
    var rows := SelectInUse(db);
    var fcps := Ids(rows);
    groups := map[];
    var channels := set i | 0 <= i < |rows| :: rows[i].0;
    var todo := channels;
    while todo != {}
      invariant todo <= channels
      invariant groups.Keys == channels - todo
      invariant forall q :: q in groups ==> GroupOf(db, q, groups[q])
      decreases |todo|
    {
      var q := Pick(todo);
      var first := IndexOf(rows, q);
      var n := CountOf(rows, q);
      SliceIsGroup(rows, q, first, n);
      SliceGroupOf(db, rows, q, first, n);
      groups := groups[q := fcps[first..first + n]];
      todo := todo - {q};
    }
    forall q ensures q in channels <==> q in (set d | d in db.fcp && db.fcp[d].tmplId != "" :: db.fcp[d].pchid) {
      if q in channels {
        var i :| 0 <= i < |rows| && rows[i].0 == q;
        assert rows[i] in rows;
      }
      if d :| d in db.fcp && db.fcp[d].tmplId != "" && db.fcp[d].pchid == q {
        assert (q, d) in InUseEntries(db);
        assert (q, d) in rows;
      }
    }
  }
}
