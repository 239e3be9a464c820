/** The painter's order of `draw`: `sorted(strip, key=lambda t: -t.center.z)`.
    Python's `sorted` is a stable ascending sort; here it is an insertion
    sort, and `StableSortUnique` shows that any stable sort by the same key
    gives the same list. */
module DepthSort {
  import opened Geometry

  /** The sort key: the negated model-space depth of the centre. */
  function Key(t: Triangle): real {
    -t.Center().z
  }

  predicate SortedByKey(s: seq<Triangle>) {
    forall a, b :: 0 <= a < b < |s| ==> Key(s[a]) <= Key(s[b])
  }

  /** The triangles of `s` whose key is `k`, in their order in `s`. */
  function WithKey(s: seq<Triangle>, k: real): seq<Triangle> {
    if s == [] then []
    else (if Key(s[0]) == k then [s[0]] else []) + WithKey(s[1..], k)
  }

  lemma {:induction false} WithKeyMember(s: seq<Triangle>, k: real, t: Triangle)
    requires t in WithKey(s, k)
    ensures t in s && Key(t) == k
  {
    if s != [] {
      if t != s[0] || Key(s[0]) != k {
        assert t in WithKey(s[1..], k);
        WithKeyMember(s[1..], k, t);
      }
    }
  }

  /** The first element of a list is in the part with its own key. */
  lemma WithKeyHead(s: seq<Triangle>)
    requires s != []
    ensures WithKey(s, Key(s[0])) != []
  {
  }

  /** Places `t` before the first element whose key is not smaller. */
  function Insert(t: Triangle, s: seq<Triangle>): (r: seq<Triangle>)
    ensures multiset(r) == multiset(s) + multiset{t}
  {
    if s == [] || Key(t) <= Key(s[0]) then [t] + s
    else
      assert s == [s[0]] + s[1..];
      [s[0]] + Insert(t, s[1..])
  }

  /** A sorted list stays sorted with an element in front that is at most
      each of its elements. */
  lemma ConsSorted(x: Triangle, s: seq<Triangle>)
    requires SortedByKey(s)
    requires forall y :: y in s ==> Key(x) <= Key(y)
    ensures SortedByKey([x] + s)
  {
    var r := [x] + s;
    forall a, b | 0 <= a < b < |r|
      ensures Key(r[a]) <= Key(r[b])
    {
      if a == 0 {
        assert r[b] == s[b - 1];
      } else {
        assert r[a] == s[a - 1] && r[b] == s[b - 1];
      }
    }
  }

  lemma {:induction false} InsertSorted(t: Triangle, s: seq<Triangle>)
    requires SortedByKey(s)
    ensures SortedByKey(Insert(t, s))
  {
    if s == [] || Key(t) <= Key(s[0]) {
      forall y | y in s
        ensures Key(t) <= Key(y)
      {
        var i :| 0 <= i < |s| && s[i] == y;
        if i > 0 {
          assert Key(s[0]) <= Key(s[i]);
        }
      }
      ConsSorted(t, s);
    } else {
      var rest := Insert(t, s[1..]);
      TailSorted(s);
      InsertSorted(t, s[1..]);
      forall y | y in rest
        ensures Key(s[0]) <= Key(y)
      {
        assert y in multiset(rest);
        if y != t {
          assert y in multiset(s[1..]);
          var i :| 0 <= i < |s[1..]| && s[1..][i] == y;
          assert Key(s[0]) <= Key(s[i + 1]);
        }
      }
      ConsSorted(s[0], rest);
    }
  }

  /** The stable sort by `Key`. */
  function SortByKey(s: seq<Triangle>): (r: seq<Triangle>)
    ensures multiset(r) == multiset(s)
    ensures SortedByKey(r)
  {
    if s == [] then []
    else
      assert s == [s[0]] + s[1..];
      InsertSorted(s[0], SortByKey(s[1..]));
      Insert(s[0], SortByKey(s[1..]))
  }

  /** Inserting `t` in front of the elements with its key keeps it ahead of them. */
  lemma {:induction false} InsertStable(t: Triangle, s: seq<Triangle>, k: real)
    ensures WithKey(Insert(t, s), k) == WithKey([t] + s, k)
  {
    if s == [] || Key(t) <= Key(s[0]) {
    } else {
      InsertStable(t, s[1..], k);
      var rest := Insert(t, s[1..]);
      assert ([s[0]] + rest)[1..] == rest;
      assert ([t] + s)[1..] == s;
      assert ([t] + s[1..])[1..] == s[1..];
      if Key(s[0]) == k {
        assert Key(t) != k;
      }
    }
  }

  /** Stability: among triangles with equal keys the sort keeps the input order. */
  lemma {:induction false} SortStable(s: seq<Triangle>, k: real)
    ensures WithKey(SortByKey(s), k) == WithKey(s, k)
  {
    if s != [] {
      SortStable(s[1..], k);
      InsertStable(s[0], SortByKey(s[1..]), k);
      assert ([s[0]] + SortByKey(s[1..]))[1..] == SortByKey(s[1..]);
    }
  }

  /** Draw order: the result is non-increasing in the centre's depth, is a
      permutation of the mesh, and keeps mesh order among equal depths. */
  lemma DrawOrder(s: seq<Triangle>)
    ensures multiset(SortByKey(s)) == multiset(s)
    ensures forall a, b :: 0 <= a < b < |SortByKey(s)| ==>
              SortByKey(s)[a].Center().z >= SortByKey(s)[b].Center().z
    ensures forall k :: WithKey(SortByKey(s), k) == WithKey(s, k)
  {
    var r := SortByKey(s);
    forall a, b | 0 <= a < b < |r|
      ensures r[a].Center().z >= r[b].Center().z
    {
      assert Key(r[a]) <= Key(r[b]);
    }
    forall k
      ensures WithKey(r, k) == WithKey(s, k)
    {
      SortStable(s, k);
    }
  }

  /** Two non-empty key-sorted lists that agree on the subsequence of every
      key start with the same element. */
  lemma SameHead(a: seq<Triangle>, b: seq<Triangle>)
    requires a != [] && b != []
    requires SortedByKey(a) && SortedByKey(b)
    requires forall k :: WithKey(a, k) == WithKey(b, k)
    ensures a[0] == b[0]
  {
    var ka, kb := Key(a[0]), Key(b[0]);
    assert WithKey(a, ka)[0] == a[0];
    assert a[0] in WithKey(b, ka);
    WithKeyMember(b, ka, a[0]);
    assert b[0] in WithKey(a, kb);
    WithKeyMember(a, kb, b[0]);
    assert ka == kb by {
      var i :| 0 <= i < |b| && b[i] == a[0];
      var j :| 0 <= j < |a| && a[j] == b[0];
      assert kb <= ka;
      assert ka <= kb;
    }
    assert WithKey(b, ka)[0] == b[0];
  }

  /** Lists with the same head that agree on every key's subsequence still
      agree once the head is dropped. */
  lemma WithKeyTail(a: seq<Triangle>, b: seq<Triangle>)
    requires a != [] && b != [] && a[0] == b[0]
    requires forall k :: WithKey(a, k) == WithKey(b, k)
    ensures forall k :: WithKey(a[1..], k) == WithKey(b[1..], k)
  {
    forall k
      ensures WithKey(a[1..], k) == WithKey(b[1..], k)
    {
      var pre := if Key(a[0]) == k then [a[0]] else [];
      assert WithKey(a, k) == pre + WithKey(a[1..], k);
      assert WithKey(b, k) == pre + WithKey(b[1..], k);
      assert WithKey(a[1..], k) == WithKey(a, k)[|pre|..];
      assert WithKey(b[1..], k) == WithKey(b, k)[|pre|..];
    }
  }

  /** Sortedness and per-key order determine the list: two key-sorted lists
      that agree on the subsequence of every key are equal. */
  lemma {:induction false} StableSortUnique(a: seq<Triangle>, b: seq<Triangle>)
    requires SortedByKey(a) && SortedByKey(b)
    requires forall k :: WithKey(a, k) == WithKey(b, k)
    ensures a == b
  {
    if a == [] && b == [] {
    } else if a == [] {
      WithKeyHead(b);
      assert false;
    } else if b == [] {
      WithKeyHead(a);
      assert false;
    } else {
      SameHead(a, b);
      WithKeyTail(a, b);
      assert SortedByKey(a[1..]) && SortedByKey(b[1..]) by {
        TailSorted(a);
        TailSorted(b);
      }
      StableSortUnique(a[1..], b[1..]);
      assert a == [a[0]] + a[1..];
      assert b == [b[0]] + b[1..];
    }
  }

  lemma TailSorted(s: seq<Triangle>)
    requires s != [] && SortedByKey(s)
    ensures SortedByKey(s[1..])
  {
    forall a, b | 0 <= a < b < |s[1..]|
      ensures Key(s[1..][a]) <= Key(s[1..][b])
    {
      assert s[1..][a] == s[a + 1] && s[1..][b] == s[b + 1];
    }
  }

  /** Any stable sort of the mesh by the same key draws in this order. */
  lemma SortByKeyIsTheStableSort(s: seq<Triangle>, r: seq<Triangle>)
    requires SortedByKey(r)
    requires forall k :: WithKey(r, k) == WithKey(s, k)
    ensures r == SortByKey(s)
  {
    forall k
      ensures WithKey(r, k) == WithKey(SortByKey(s), k)
    {
      SortStable(s, k);
    }
    StableSortUnique(r, SortByKey(s));
  }
}
