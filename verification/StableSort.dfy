/** Python's `sorted`: a stable sort by an integer key, and its three defining properties. */
module StableSort {
  import opened Collections

  function Filter<T>(xs: seq<T>, p: T -> bool): seq<T> {
    if xs == [] then []
    else if p(xs[|xs| - 1]) then Filter(xs[..|xs| - 1], p) + [xs[|xs| - 1]]
    else Filter(xs[..|xs| - 1], p)
  }

  type Key = (int, int)

  predicate KeyLess(a: Key, b: Key) { a.0 < b.0 || (a.0 == b.0 && a.1 < b.1) }

  /** Put `x` after every element whose key is not greater. */
  function Insert<T>(s: seq<T>, x: T, key: T -> Key): seq<T> {
    if s == [] || !KeyLess(key(x), key(s[|s| - 1])) then s + [x]
    else Insert(s[..|s| - 1], x, key) + [s[|s| - 1]]
  }

  function Sort<T>(xs: seq<T>, key: T -> Key): seq<T> {
    if xs == [] then [] else Insert(Sort(xs[..|xs| - 1], key), xs[|xs| - 1], key)
  }

  ghost predicate Sorted<T>(s: seq<T>, key: T -> Key) {
    forall i, j | 0 <= i < j < |s| :: !KeyLess(key(s[j]), key(s[i]))
  }

  lemma {:induction false} InsertPermutes<T>(s: seq<T>, x: T, key: T -> Key)
    ensures multiset(Insert(s, x, key)) == multiset(s) + multiset{x}
  {
    if !(s == [] || !KeyLess(key(x), key(s[|s| - 1]))) {
      InsertPermutes(s[..|s| - 1], x, key);
      assert s == s[..|s| - 1] + [s[|s| - 1]];
    }
  }

  lemma {:induction false} SortPermutes<T>(xs: seq<T>, key: T -> Key)
    ensures multiset(Sort(xs, key)) == multiset(xs)
  {
    if xs != [] {
      SortPermutes(xs[..|xs| - 1], key);
      InsertPermutes(Sort(xs[..|xs| - 1], key), xs[|xs| - 1], key);
      assert xs == xs[..|xs| - 1] + [xs[|xs| - 1]];
    }
  }

  lemma SortSameMembers<T>(xs: seq<T>, key: T -> Key)
    ensures |Sort(xs, key)| == |xs|
    ensures forall x :: x in Sort(xs, key) <==> x in xs
  {
    SortPermutes(xs, key);
    assert |multiset(Sort(xs, key))| == |multiset(xs)|;
    assert forall x :: x in Sort(xs, key) <==> x in multiset(Sort(xs, key));
    assert forall x :: x in xs <==> x in multiset(xs);
  }

  lemma {:induction false} InsertSorted<T>(s: seq<T>, x: T, key: T -> Key)
    requires Sorted(s, key)
    ensures Sorted(Insert(s, x, key), key)
  {
    if !(s == [] || !KeyLess(key(x), key(s[|s| - 1]))) {
      var (init, last) := (s[..|s| - 1], s[|s| - 1]);
      InsertSorted(init, x, key);
      InsertPermutes(init, x, key);
      var r := Insert(init, x, key);
      forall i | 0 <= i < |r| ensures !KeyLess(key(last), key(r[i])) {
        assert r[i] in multiset(r);
        assert r[i] == x || r[i] in init;
        if r[i] in init { var k :| 0 <= k < |init| && init[k] == r[i]; assert s[k] == r[i]; }
      }
    }
  }

  lemma {:induction false} SortSorted<T>(xs: seq<T>, key: T -> Key)
    ensures Sorted(Sort(xs, key), key)
  {
    if xs != [] {
      SortSorted(xs[..|xs| - 1], key);
      InsertSorted(Sort(xs[..|xs| - 1], key), xs[|xs| - 1], key);
    }
  }

  lemma FilterSnoc<T>(s: seq<T>, x: T, p: T -> bool)
    ensures Filter(s + [x], p) == if p(x) then Filter(s, p) + [x] else Filter(s, p)
  {
  }

  /** Elements that share a key keep their order; a class of keys is given by any property of the key. */
  lemma {:induction false} InsertStable<T>(s: seq<T>, x: T, key: T -> Key, k: Key, p: T -> bool)
    requires Sorted(s, key) && forall y | p(y) :: key(y) == k
    ensures Filter(Insert(s, x, key), p) == Filter(s + [x], p)
  {
    FilterSnoc(s, x, p);
    if !(s == [] || !KeyLess(key(x), key(s[|s| - 1]))) {
      var (init, last) := (s[..|s| - 1], s[|s| - 1]);
      InsertStable(init, x, key, k, p);
      FilterSnoc(init, x, p);
      FilterSnoc(Insert(init, x, key), last, p);
    }
  }

  lemma {:induction false} SortStable<T>(xs: seq<T>, key: T -> Key, k: Key, p: T -> bool)
    requires forall y | p(y) :: key(y) == k
    ensures Filter(Sort(xs, key), p) == Filter(xs, p)
  {
    if xs != [] {
      var (init, last) := (xs[..|xs| - 1], xs[|xs| - 1]);
      SortStable(init, key, k, p);
      SortSorted(init, key);
      InsertStable(Sort(init, key), last, key, k, p);
      FilterSnoc(Sort(init, key), last, p);
    }
  }

  lemma {:induction false} FilterMembers<T>(xs: seq<T>, p: T -> bool)
    ensures forall x | x in Filter(xs, p) :: x in xs && p(x)
    ensures forall x | x in xs && p(x) :: x in Filter(xs, p)
    ensures |Filter(xs, p)| <= |xs|
  {
    if xs != [] {
      FilterMembers(xs[..|xs| - 1], p);
      assert xs == xs[..|xs| - 1] + [xs[|xs| - 1]];
    }
  }

  lemma {:induction false} FilterConcat<T>(a: seq<T>, b: seq<T>, p: T -> bool)
    ensures Filter(a + b, p) == Filter(a, p) + Filter(b, p)
  {
    if b == [] {
      assert a + b == a;
    } else {
      assert (a + b)[..|a + b| - 1] == a + b[..|b| - 1];
      FilterConcat(a, b[..|b| - 1], p);
    }
  }

  lemma FilterPrefix<T>(a: seq<T>, b: seq<T>, p: T -> bool)
    requires a <= b
    ensures Filter(a, p) <= Filter(b, p)
  {
    assert b == a + b[|a|..];
    FilterConcat(a, b[|a|..], p);
  }

  lemma {:induction false} FilterAll<T>(xs: seq<T>, p: T -> bool)
    requires forall x | x in xs :: p(x)
    ensures Filter(xs, p) == xs
  {
    if xs != [] { FilterAll(xs[..|xs| - 1], p); }
  }

  lemma {:induction false} FilterNone<T>(xs: seq<T>, p: T -> bool)
    requires forall x | x in xs :: !p(x)
    ensures Filter(xs, p) == []
  {
    if xs != [] { FilterNone(xs[..|xs| - 1], p); }
  }

  /** Filtering keeps relative order, so it keeps sortedness. */
  lemma {:induction false} FilterSorted<T>(xs: seq<T>, p: T -> bool, key: T -> Key)
    requires Sorted(xs, key)
    ensures Sorted(Filter(xs, p), key)
  {
    if xs != [] {
      var (init, last) := (xs[..|xs| - 1], xs[|xs| - 1]);
      FilterSorted(init, p, key);
      FilterMembers(init, p);
      var kept := Filter(init, p);
      forall i | 0 <= i < |kept| ensures !KeyLess(key(last), key(kept[i])) {
        var y := kept[i];
        assert y in kept;
        assert y in init;
        var k :| 0 <= k < |init| && init[k] == y;
        assert xs[k] == y;
      }
    }
  }

  /** Order among the kept elements is order among the originals. */
  lemma {:induction false} FilterSortedBack<T>(xs: seq<T>, p: T -> bool, key: T -> Key)
    requires Sorted(Filter(xs, p), key)
    ensures forall i, j | 0 <= i < j < |xs| && p(xs[i]) && p(xs[j]) :: !KeyLess(key(xs[j]), key(xs[i]))
  {
    if xs != [] {
      var (init, last) := (xs[..|xs| - 1], xs[|xs| - 1]);
      var (kept, all) := (Filter(init, p), Filter(xs, p));
      assert forall i | 0 <= i < |kept| :: kept[i] == all[i];
      FilterSortedBack(init, p, key);
      FilterMembers(init, p);
      forall i | 0 <= i < |init| && p(xs[i]) && p(last) ensures !KeyLess(key(last), key(xs[i])) {
        assert init[i] in kept;
        var k :| 0 <= k < |kept| && kept[k] == init[i];
        assert all[k] == init[i] && all[|kept|] == last;
      }
    }
  }

  lemma {:induction false} FilterNoDup<T>(xs: seq<T>, p: T -> bool)
    requires NoDup(xs)
    ensures NoDup(Filter(xs, p))
  {
    if xs != [] {
      var init := xs[..|xs| - 1];
      FilterNoDup(init, p);
      FilterMembers(init, p);
      assert xs[|xs| - 1] !in init;
    }
  }

  /** Filtering out some members of a repetition-free list leaves the difference in size. */
  lemma FilterOutSize<T>(xs: seq<T>, out: seq<T>, p: T -> bool)
    requires NoDup(xs) && NoDup(out) && (forall x | x in out :: x in xs) && (forall x :: p(x) <==> x !in out)
    ensures |Filter(xs, p)| == |xs| - |out|
  {
    var kept := Filter(xs, p);
    FilterMembers(xs, p);
    FilterNoDup(xs, p);
    NoDupSize(xs);
    NoDupSize(kept);
    NoDupSize(out);
    var (a, k, v) := (set t | t in xs, set t | t in kept, set t | t in out);
    assert a == k + v && k !! v;
  }

  lemma {:induction false} OnceInMultiset<T>(s: seq<T>, t: T)
    requires NoDup(s)
    ensures multiset(s)[t] <= 1
  {
    if s != [] {
      assert s == s[..|s| - 1] + [s[|s| - 1]];
      OnceInMultiset(s[..|s| - 1], t);
    }
  }

  lemma TwiceInMultiset<T>(s: seq<T>, i: nat, j: nat)
    requires i < j < |s| && s[i] == s[j]
    ensures multiset(s)[s[i]] >= 2
  {
    assert s == s[..j] + [s[j]] + s[j + 1..];
    assert s[..j][i] == s[i];
  }

  lemma SortNoDup<T>(xs: seq<T>, key: T -> Key)
    requires NoDup(xs)
    ensures NoDup(Sort(xs, key))
  {
    var s := Sort(xs, key);
    SortPermutes(xs, key);
    forall i, j | 0 <= i < j < |s| ensures s[i] != s[j] {
      OnceInMultiset(xs, s[i]);
      if s[i] == s[j] { TwiceInMultiset(s, i, j); }
    }
  }
}
