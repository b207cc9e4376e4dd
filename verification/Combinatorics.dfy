/** `itertools.combinations`, `itertools.product` and `dict(zip(..))` as the allocator
    uses them, with exact descriptions of what they enumerate. */
module Combinatorics {
  import opened Lists

  function Prefixed<T>(x: T, cs: seq<seq<T>>): (r: seq<seq<T>>)
    ensures |r| == |cs|
    ensures forall i :: 0 <= i < |cs| ==> r[i] == [x] + cs[i]
  {
    seq(|cs|, i requires 0 <= i < |cs| => [x] + cs[i])
  }

  lemma PrefixedMember<T>(x: T, cs: seq<seq<T>>, c: seq<T>)
    ensures c in Prefixed(x, cs) <==> c != [] && c[0] == x && c[1..] in cs
  {
    if c in Prefixed(x, cs) {
      var i :| 0 <= i < |cs| && Prefixed(x, cs)[i] == c;
      assert c[1..] == cs[i];
    }
    if c != [] && c[0] == x && c[1..] in cs {
      var i :| 0 <= i < |cs| && cs[i] == c[1..];
      assert Prefixed(x, cs)[i] == c;
    }
  }

  function Combinations<T>(s: seq<T>, k: nat): seq<seq<T>>
  {
    if k == 0 then [[]]
    else if s == [] then []
    else Prefixed(s[0], Combinations(s[1..], k - 1)) + Combinations(s[1..], k)
  }

  /** `c` is an ascending list of `k` elements of `s`. */
  ghost predicate Picks(s: seq<int>, k: int, c: seq<int>) {
    |c| == k && StrictlyIncreasing(c) && forall x :: x in c ==> x in s
  }

  lemma CombinationsStep(s: seq<int>, k: nat, c: seq<int>)
    requires s != [] && k > 0
    ensures c in Combinations(s, k) <==>
            (c != [] && c[0] == s[0] && c[1..] in Combinations(s[1..], k - 1)) || c in Combinations(s[1..], k)
  {
    PrefixedMember(s[0], Combinations(s[1..], k - 1), c);
  }

  /** Over an ascending list, the k-combinations are exactly the ascending k-lists of its elements. */
  lemma {:induction false} CombinationsExact(s: seq<int>, k: nat, c: seq<int>)
    requires StrictlyIncreasing(s)
    ensures c in Combinations(s, k) <==> Picks(s, k, c)
    decreases |s|
  {
    if k == 0 {
    } else if s == [] {
      if c != [] { assert c[0] in c; }
    } else if c == [] {
      CombinationsStep(s, k, c);
      CombinationsExact(s[1..], k, c);
    } else {
      var tail := s[1..];
      assert StrictlyIncreasing(tail);
      calc {
        c in Combinations(s, k);
      <==> { CombinationsStep(s, k, c); }
        (c[0] == s[0] && c[1..] in Combinations(tail, k - 1)) || c in Combinations(tail, k);
      <==> { CombinationsExact(tail, k - 1, c[1..]); }
        (c[0] == s[0] && Picks(tail, k - 1, c[1..])) || c in Combinations(tail, k);
      <==> { CombinationsExact(tail, k, c); }
        (c[0] == s[0] && Picks(tail, k - 1, c[1..])) || Picks(tail, k, c);
      <==> { PicksStep(s, k, c); }
        Picks(s, k, c);
      }
    }
  }

  /** An ascending list over `s` either starts with `s[0]` or avoids it. */
  lemma PicksStep(s: seq<int>, k: nat, c: seq<int>)
    requires StrictlyIncreasing(s) && s != [] && k > 0 && c != []
    ensures Picks(s, k, c) <==> (c[0] == s[0] && Picks(s[1..], k - 1, c[1..])) || Picks(s[1..], k, c)
  {
    assert forall x :: x in s <==> x == s[0] || x in s[1..];
    assert forall x :: x in c <==> x == c[0] || x in c[1..];
    if Picks(s, k, c) {
      assert c[0] in c;
      if c[0] == s[0] {
        forall x | x in c[1..] ensures x in s[1..] { assert x > c[0]; }
      } else {
        forall x | x in c ensures x in s[1..] { assert x >= c[0] > s[0]; }
      }
    }
    if c[0] == s[0] && Picks(s[1..], k - 1, c[1..]) {
      forall i, j | 0 <= i < j < |c| ensures c[i] < c[j] {
        assert c[j] == c[1..][j - 1] && c[j] in c[1..];
        if i > 0 { assert c[i] == c[1..][i - 1]; }
      }
    }
  }

  /** All lists that prepend an element of `xs` to a list of `tails`, in `product` order. */
  function Crossed<T>(xs: seq<T>, tails: seq<seq<T>>): seq<seq<T>>
  {
    if xs == [] then [] else Prefixed(xs[0], tails) + Crossed(xs[1..], tails)
  }

  lemma {:induction false} CrossedMember<T>(xs: seq<T>, tails: seq<seq<T>>, v: seq<T>)
    ensures v in Crossed(xs, tails) <==> v != [] && v[0] in xs && v[1..] in tails
  {
    if xs != [] {
      PrefixedMember(xs[0], tails, v);
      CrossedMember(xs[1..], tails, v);
    }
  }

  function Product<T>(ls: seq<seq<T>>): seq<seq<T>>
  {
    if ls == [] then [[]] else Crossed(ls[0], Product(ls[1..]))
  }

  /** The product holds exactly the lists that pick one element from each factor. */
  lemma {:induction false} ProductExact<T>(ls: seq<seq<T>>, v: seq<T>)
    ensures v in Product(ls) <==> |v| == |ls| && forall i :: 0 <= i < |ls| ==> v[i] in ls[i]
  {
    if ls != [] {
      CrossedMember(ls[0], Product(ls[1..]), v);
      if v != [] {
        ProductExact(ls[1..], v[1..]);
        var rest, vs := ls[1..], v[1..];
        if |vs| == |rest| && forall i :: 0 <= i < |rest| ==> vs[i] in rest[i] {
          if v[0] in ls[0] {
            forall i | 0 <= i < |ls| ensures v[i] in ls[i] {
              if i > 0 { assert vs[i - 1] in rest[i - 1]; }
            }
          }
        }
        if |v| == |ls| && forall i :: 0 <= i < |ls| ==> v[i] in ls[i] {
          forall i | 0 <= i < |rest| ensures vs[i] in rest[i] {
            assert v[i + 1] in ls[i + 1];
          }
        }
      }
    }
  }

  /** `dict(zip(keys, values))` for distinct keys. */
  function Zip<V>(keys: seq<int>, values: seq<V>): (m: map<int, V>)
    requires |keys| == |values| && StrictlyIncreasing(keys)
    ensures m.Keys == Elements(keys)
    ensures forall i :: 0 <= i < |keys| ==> m[keys[i]] == values[i]
  {
    map i | 0 <= i < |keys| :: keys[i] := values[i]
  }

  /** Every map is the zip of its ascending key list with the matching values. */
  lemma ZipOnto<V>(keys: seq<int>, values: seq<V>, m: map<int, V>)
    requires |keys| == |values| && StrictlyIncreasing(keys) && Elements(keys) == m.Keys
    requires forall i :: 0 <= i < |keys| ==> keys[i] in m && values[i] == m[keys[i]]
    ensures Zip(keys, values) == m
  {
    forall k | k in m ensures Zip(keys, values)[k] == m[k] {
      assert k in Elements(keys);
      var i :| 0 <= i < |keys| && keys[i] == k;
    }
  }
}
