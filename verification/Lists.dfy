/** List idioms of the Python code that several modules rely on: filtering a list
    by removing elements while iterating over a copy, sorting a set, and the string
    collation SQLite uses for ids (case-normalised, so plain lexicographic order). */
module Lists {

  datatype Option<+T> = None | Some(value: T)

  // ---------- filtering ----------

  function Filter<T(!new)>(s: seq<T>, keep: T -> bool): (r: seq<T>)
    ensures forall x :: x in r <==> x in s && keep(x)
  {
    if s == [] then []
    else if keep(s[0]) then [s[0]] + Filter(s[1..], keep)
    else Filter(s[1..], keep)
  }

  lemma {:induction false} FilterSnoc<T(!new)>(s: seq<T>, x: T, keep: T -> bool)
    ensures Filter(s + [x], keep) == Filter(s, keep) + if keep(x) then [x] else []
  {
    if s == [] {
      assert s + [x] == [x];
    } else {
      assert (s + [x])[1..] == s[1..] + [x];
      FilterSnoc(s[1..], x, keep);
    }
  }

  /** `list.remove(x)`: drop the first element equal to `x`. */
  function RemoveFirst<T(==)>(s: seq<T>, x: T): (r: seq<T>)
    requires x in s
    ensures |r| == |s| - 1
  {
    if s[0] == x then s[1..] else [s[0]] + RemoveFirst(s[1..], x)
  }

  lemma {:induction false} RemoveFirstAfter<T>(pre: seq<T>, x: T, post: seq<T>)
    requires x !in pre
    ensures RemoveFirst(pre + [x] + post, x) == pre + post
  {
    if pre == [] {
      assert pre + [x] + post == [x] + post;
    } else {
      assert (pre + [x] + post)[1..] == pre[1..] + [x] + post;
      RemoveFirstAfter(pre[1..], x, post);
    }
  }

  lemma KeepStep<T(!new)>(list: seq<T>, i: nat, keep: T -> bool)
    requires i < |list|
    ensures var now := Filter(list[..i], keep) + list[i..];
            var next := Filter(list[..i + 1], keep) + list[i + 1..];
            if keep(list[i]) then next == now else list[i] in now && next == RemoveFirst(now, list[i])
  {
    var x, kept, rest := list[i], Filter(list[..i], keep), list[i + 1..];
    assert list[..i + 1] == list[..i] + [x];
    FilterSnoc(list[..i], x, keep);
    assert kept + list[i..] == kept + [x] + rest;
    if !keep(x) { RemoveFirstAfter(kept, x, rest); }
  }

  /** The `for c in l.copy(): if bad(c): l.remove(c)` loop is a filter, even when
      the list holds equal elements (`remove` then deletes an earlier equal one). */
  method KeepOnly<T(==,!new)>(list: seq<T>, keep: T -> bool) returns (r: seq<T>)
    ensures r == Filter(list, keep)
  {
    r := list;
    for i := 0 to |list|
      invariant r == Filter(list[..i], keep) + list[i..]
    {
      KeepStep(list, i, keep);
      if !keep(list[i]) {
        r := RemoveFirst(r, list[i]);
      }
    }
    assert list[..|list|] == list;
  }

  // ---------- sorted lists of integers ----------

  ghost predicate StrictlyIncreasing(s: seq<int>) {
    forall i, j :: 0 <= i < j < |s| ==> s[i] < s[j]
  }

  function Elements<T>(s: seq<T>): set<T> {
    set x | x in s
  }

  lemma {:induction false} DistinctSize<T>(s: seq<T>)
    requires forall i, j :: 0 <= i < j < |s| ==> s[i] != s[j]
    ensures |Elements(s)| == |s|
  {
    if s != [] {
      DistinctSize(s[1..]);
      assert Elements(s) == {s[0]} + Elements(s[1..]);
    }
  }

  /** As many distinct elements as positions means that no element occurs twice. */
  lemma {:induction false} FullSizeDistinct<T>(s: seq<T>)
    requires |Elements(s)| == |s|
    ensures forall i, j :: 0 <= i < j < |s| ==> s[i] != s[j]
  {
    if s != [] {
      var rest := s[1..];
      assert Elements(s) == {s[0]} + Elements(rest);
      SizeAtMost(rest);
      assert s[0] !in Elements(rest);
      FullSizeDistinct(rest);
      forall i, j | 0 <= i < j < |s| ensures s[i] != s[j] {
        assert s[j] == rest[j - 1];
        if i > 0 { assert s[i] == rest[i - 1]; } else { assert rest[j - 1] in Elements(rest); }
      }
    }
  }

  lemma {:induction false} SizeAtMost<T>(s: seq<T>)
    ensures |Elements(s)| <= |s|
  {
    if s != [] {
      SizeAtMost(s[1..]);
      assert Elements(s) == {s[0]} + Elements(s[1..]);
    }
  }

  method Pick<T>(s: set<T>) returns (x: T)
    requires s != {}
    ensures x in s
  {
    x :| x in s;
  }

  /** `list(s)`: the elements of a set in some order. */
  method ListOf<T(==)>(s: set<T>) returns (r: seq<T>)
    ensures forall x :: x in r <==> x in s
    ensures forall i, j :: 0 <= i < j < |r| ==> r[i] != r[j]
  {
    r := [];
    var todo := s;
    while todo != {}
      invariant todo <= s
      invariant forall x :: x in r <==> x in s && x !in todo
      invariant forall i, j :: 0 <= i < j < |r| ==> r[i] != r[j]
      decreases |todo|
    {
      var x := Pick(todo);
      r := r + [x];
      todo := todo - {x};
    }
  }

  // ---------- sorting by a total order ----------

  ghost predicate TotalOrder<T(!new)>(leq: (T, T) -> bool) {
    && (forall a, b :: leq(a, b) || leq(b, a))
    && (forall a, b :: leq(a, b) && leq(b, a) ==> a == b)
    && (forall a, b, c :: leq(a, b) && leq(b, c) ==> leq(a, c))
  }

  ghost predicate SortedBy<T(!new)>(s: seq<T>, leq: (T, T) -> bool) {
    forall i, j :: 0 <= i < j < |s| ==> leq(s[i], s[j]) && s[i] != s[j]
  }

  /** `sorted(...)` and `ORDER BY`: the elements of a set in strictly ascending order. */
  method SortSet<T(==,!new)>(s: set<T>, leq: (T, T) -> bool) returns (r: seq<T>)
    requires TotalOrder(leq)
    ensures SortedBy(r, leq)
    ensures forall x :: x in r <==> x in s
    ensures |r| == |s|
  {
    r := [];
    var rest := s;
    while rest != {}
      invariant SortedBy(r, leq)
      invariant rest <= s
      invariant forall x :: x in r <==> x in s && x !in rest
      decreases |rest|
    {
      var x :| x in rest;
      var k := 0;
      while k < |r| && leq(r[k], x)
        invariant 0 <= k <= |r|
        invariant forall i :: 0 <= i < k ==> leq(r[i], x)
      {
        k := k + 1;
      }
      assert forall i :: k <= i < |r| ==> leq(x, r[i]);
      r := r[..k] + [x] + r[k..];
      rest := rest - {x};
    }
    DistinctSize(r);
    assert Elements(r) == s;
  }

  /** The elements of `s` that come before `x`. */
  function Below<T>(s: seq<T>, leq: (T, T) -> bool, x: T): set<T> {
    set y | y in s && y != x && leq(y, x)
  }

  /** In a strictly sorted list an element's position is the number of smaller elements. */
  lemma PositionIsRank<T(!new)>(s: seq<T>, leq: (T, T) -> bool, n: nat)
    requires TotalOrder(leq) && SortedBy(s, leq) && n < |s|
    ensures n == |Below(s, leq, s[n])|
  {
    DistinctSize(s[..n]);
    forall y ensures y in Elements(s[..n]) <==> y in Below(s, leq, s[n]) {
      if y in Below(s, leq, s[n]) {
        var i :| 0 <= i < |s| && s[i] == y;
        assert i < n;
        assert s[..n][i] == y;
      }
    }
    assert Elements(s[..n]) == Below(s, leq, s[n]);
  }

  /** Sorting has one result. */
  lemma {:induction false} SortedUnique<T(!new)>(a: seq<T>, b: seq<T>, leq: (T, T) -> bool)
    requires TotalOrder(leq) && SortedBy(a, leq) && SortedBy(b, leq) && forall x :: x in a <==> x in b
    ensures a == b
  {
    assert b == [] || b[0] in b;
    if a != [] {
      assert a[0] in b && b[0] in a;
      forall x ensures x in a[1..] <==> x in b[1..] {
        assert x in a <==> x == a[0] || x in a[1..];
        assert x in b <==> x == b[0] || x in b[1..];
      }
      SortedUnique(a[1..], b[1..], leq);
    }
  }

  lemma {:induction false} Least<T(!new)>(s: set<T>, leq: (T, T) -> bool) returns (x: T)
    requires TotalOrder(leq) && s != {}
    ensures x in s && forall y :: y in s ==> leq(x, y)
    decreases |s|
  {
    x :| x in s;
    if s != {x} {
      var y := Least(s - {x}, leq);
      if leq(y, x) { x := y; }
    }
  }

  /** Sorting has a result. */
  lemma {:induction false} SortedExists<T(!new)>(s: set<T>, leq: (T, T) -> bool) returns (r: seq<T>)
    requires TotalOrder(leq)
    ensures SortedBy(r, leq) && forall x :: x in r <==> x in s
    decreases |s|
  {
    r := [];
    if s != {} {
      var x := Least(s, leq);
      var rest := SortedExists(s - {x}, leq);
      r := [x] + rest;
      forall i, j | 0 <= i < j < |r| ensures leq(r[i], r[j]) && r[i] != r[j] { assert r[j] in rest; }
    }
  }

  // ---------- string collation ----------

  predicate StringLeq(a: string, b: string) {
    if a == [] then true
    else if b == [] then false
    else if a[0] == b[0] then StringLeq(a[1..], b[1..])
    else a[0] < b[0]
  }

  lemma {:induction false} StringLeqTotal(a: string, b: string)
    ensures StringLeq(a, b) || StringLeq(b, a)
  {
    if a != [] && b != [] { StringLeqTotal(a[1..], b[1..]); }
  }

  lemma {:induction false} StringLeqAntisymmetric(a: string, b: string)
    requires StringLeq(a, b) && StringLeq(b, a)
    ensures a == b
  {
    if a != [] && b != [] {
      StringLeqAntisymmetric(a[1..], b[1..]);
      assert a == [a[0]] + a[1..] && b == [b[0]] + b[1..];
    }
  }

  lemma {:induction false} StringLeqTransitive(a: string, b: string, c: string)
    requires StringLeq(a, b) && StringLeq(b, c)
    ensures StringLeq(a, c)
  {
    if a != [] && b != [] && c != [] && a[0] == b[0] == c[0] {
      StringLeqTransitive(a[1..], b[1..], c[1..]);
    }
  }

  /** `a` and `b` agree up to position `i`, where `a` has the smaller character. */
  ghost predicate SmallerAt(a: string, b: string, i: nat) {
    i < |a| && i < |b| && a[..i] == b[..i] && a[i] < b[i]
  }

  /** Lexicographic order: a prefix comes first, otherwise the first difference decides. */
  lemma {:induction false} StringLeqExact(a: string, b: string)
    ensures StringLeq(a, b) <==> a <= b || exists i :: SmallerAt(a, b, i)
  {
    if a != [] && b != [] {
      StringLeqExact(a[1..], b[1..]);
      if a[0] == b[0] {
        assert a <= b <==> a[1..] <= b[1..] by {
          assert a == [a[0]] + a[1..] && b == [b[0]] + b[1..];
        }
        if i: nat :| SmallerAt(a, b, i) {
          assert a[1..][..i - 1] == a[..i][1..] && b[1..][..i - 1] == b[..i][1..];
          assert SmallerAt(a[1..], b[1..], i - 1);
        }
        if i: nat :| SmallerAt(a[1..], b[1..], i) {
          assert a[..i + 1] == [a[0]] + a[1..][..i] && b[..i + 1] == [b[0]] + b[1..][..i];
          assert SmallerAt(a, b, i + 1);
        }
      } else {
        if a[0] < b[0] { assert SmallerAt(a, b, 0); }
        assert forall i: nat :: 0 < i <= |a| && i <= |b| && a[..i] == b[..i] ==> a[..i][0] == b[..i][0];
      }
    }
  }

  lemma StringLeqOrder()
    ensures TotalOrder(StringLeq)
  {
    forall a, b ensures StringLeq(a, b) || StringLeq(b, a) { StringLeqTotal(a, b); }
    forall a, b | StringLeq(a, b) && StringLeq(b, a) ensures a == b { StringLeqAntisymmetric(a, b); }
    forall a, b, c | StringLeq(a, b) && StringLeq(b, c) ensures StringLeq(a, c) {
      StringLeqTransitive(a, b, c);
    }
  }
}
