/**
  Shared vocabulary for the portal model: optional values, Python slicing,
  queryset-style filtering and ordering, listing the rows of a table in
  primary-key order, and Django's page selection.
*/
module Support {

  datatype Option<T> = None | Some(value: T)

  /** Python's `s[:n]` for a non-negative `n`: the first `n` elements, or all of them. */
  function Take<T>(s: seq<T>, n: nat): (r: seq<T>)
    ensures |r| == if |s| < n then |s| else n
    ensures r == s[..|r|]
  {
    if |s| <= n then s else s[..n]
  }

  /** The elements of `s` that satisfy `p`, in their original order. */
  function Filter<T(!new)>(s: seq<T>, p: T -> bool): (r: seq<T>)
    ensures |r| <= |s|
    ensures forall x :: x in r <==> x in s && p(x)
    decreases |s|
  {
    if s == [] then []
    else
      var init := s[..|s| - 1];
      assert s == init + [s[|s| - 1]];
      if p(s[|s| - 1]) then Filter(init, p) + [s[|s| - 1]] else Filter(init, p)
  }

  /** `Filter` distributes over concatenation. */
  lemma {:induction false} FilterAppend<T(!new)>(a: seq<T>, b: seq<T>, p: T -> bool)
    ensures Filter(a + b, p) == Filter(a, p) + Filter(b, p)
    decreases |b|
  {
    if b == [] {
      assert a + b == a;
    } else {
      var b' := b[..|b| - 1];
      assert (a + b)[..|a + b| - 1] == a + b';
      FilterAppend(a, b', p);
    }
  }

  /** A single element is kept exactly when it passes. */
  lemma FilterSingleton<T(!new)>(x: T, p: T -> bool)
    ensures Filter([x], p) == if p(x) then [x] else []
  {
    assert [x][..0] == [];
  }

  /** A filter every element passes keeps the sequence as it is. */
  lemma {:induction false} FilterAll<T(!new)>(s: seq<T>, p: T -> bool)
    requires forall i :: 0 <= i < |s| ==> p(s[i])
    ensures Filter(s, p) == s
    decreases |s|
  {
    if s != [] {
      FilterAll(s[..|s| - 1], p);
    }
  }

  /** A filter no element passes leaves nothing. */
  lemma {:induction false} FilterNone<T(!new)>(s: seq<T>, p: T -> bool)
    requires forall i :: 0 <= i < |s| ==> !p(s[i])
    ensures Filter(s, p) == []
    decreases |s|
  {
    if s != [] {
      FilterNone(s[..|s| - 1], p);
    }
  }

  /** The position of the first element satisfying `p` (`.filter(...).first()` on an ordered queryset). */
  function FirstWhere<T>(s: seq<T>, p: T -> bool): (r: Option<nat>)
    ensures r.None? <==> forall i :: 0 <= i < |s| ==> !p(s[i])
    ensures r.Some? ==> r.value < |s| && p(s[r.value]) && forall i :: 0 <= i < r.value ==> !p(s[i])
  {
    if s == [] then None
    else if p(s[0]) then Some(0)
    else match FirstWhere(s[1..], p)
      case None => None
      case Some(k) => Some(k + 1)
  }

  // ---------------------------------------------------------------------------
  // Orderings
  // ---------------------------------------------------------------------------

  /** `le` is total and transitive: what an ORDER BY comparison has to be. */
  ghost predicate TotalPreorder<T(!new)>(le: (T, T) -> bool)
  {
    && (forall a, b :: le(a, b) || le(b, a))
    && (forall a, b, c :: le(a, b) && le(b, c) ==> le(a, c))
  }

  ghost predicate Sorted<T>(s: seq<T>, le: (T, T) -> bool)
  {
    forall i, j :: 0 <= i < j < |s| ==> le(s[i], s[j])
  }

  /** Ascending order of an integer key (descending orders use a negated key). */
  function ByKey<T(!new)>(key: T -> int): (le: (T, T) -> bool)
    ensures forall a, b :: le(a, b) <==> key(a) <= key(b)
  {
    (a: T, b: T) => key(a) <= key(b)
  }

  lemma ByKeyIsTotalPreorder<T(!new)>(key: T -> int)
    ensures TotalPreorder(ByKey(key))
  {
  }

  /**
    Ordering by `first`, and by `second` among elements `first` ranks equal:
    `ORDER BY a, b`.
  */
  function ThenBy<T(!new)>(first: (T, T) -> bool, second: (T, T) -> bool): (le: (T, T) -> bool)
    ensures forall a, b :: le(a, b) <==>
      (first(a, b) && !first(b, a)) || (first(a, b) && first(b, a) && second(a, b))
  {
    (a: T, b: T) => (first(a, b) && !first(b, a)) || (first(a, b) && first(b, a) && second(a, b))
  }

  lemma ThenByIsTotalPreorder<T(!new)>(first: (T, T) -> bool, second: (T, T) -> bool)
    requires TotalPreorder(first) && TotalPreorder(second)
    ensures TotalPreorder(ThenBy(first, second))
  {
    var le := ThenBy(first, second);
    forall a, b, c | le(a, b) && le(b, c) ensures le(a, c) {
      assert first(a, c);
    }
  }

  /** Inserts `x` in front of the first element it does not have to follow. */
  function Insert<T>(x: T, s: seq<T>, le: (T, T) -> bool): (r: seq<T>)
    ensures |r| == |s| + 1
    ensures multiset(r) == multiset(s) + multiset{x}
  {
    if s == [] then [x]
    else if le(x, s[0]) then [x] + s
    else
      assert s == [s[0]] + s[1..];
      [s[0]] + Insert(x, s[1..], le)
  }

  /**
    Stable insertion sort: one order a database may return for `ORDER BY le`.
    Elements `le` ranks equal keep their input order, which SQL itself leaves open.
  */
  function SortBy<T>(s: seq<T>, le: (T, T) -> bool): (r: seq<T>)
    ensures |r| == |s|
    ensures multiset(r) == multiset(s)
  {
    if s == [] then []
    else
      assert s == [s[0]] + s[1..];
      Insert(s[0], SortBy(s[1..], le), le)
  }

  lemma {:induction false} InsertSorted<T(!new)>(x: T, s: seq<T>, le: (T, T) -> bool)
    requires TotalPreorder(le) && Sorted(s, le)
    ensures Sorted(Insert(x, s, le), le)
  {
    if s == [] {
    } else if le(x, s[0]) {
      forall i | 0 <= i < |s| ensures le(x, s[i]) {
        if i > 0 {
          assert le(s[0], s[i]);
        }
      }
      ConsSorted(x, s, le);
    } else {
      var tail := Insert(x, s[1..], le);
      InsertSorted(x, s[1..], le);
      assert le(s[0], x);
      forall i | 0 <= i < |tail| ensures le(s[0], tail[i]) {
        var y := tail[i];
        assert y in multiset(tail);
        assert y in multiset(s[1..]) || y == x;
        if y != x {
          var k :| 0 <= k < |s[1..]| && s[1..][k] == y;
          assert s[k + 1] == y;
        }
      }
      ConsSorted(s[0], tail, le);
    }
  }

  /** An element no greater than any of a sorted sequence can go in front of it. */
  lemma ConsSorted<T>(a: T, t: seq<T>, le: (T, T) -> bool)
    requires Sorted(t, le) && forall i :: 0 <= i < |t| ==> le(a, t[i])
    ensures Sorted([a] + t, le)
  {
    var r := [a] + t;
    forall i, j | 0 <= i < j < |r| ensures le(r[i], r[j]) {
      assert r[j] == t[j - 1];
      if i > 0 {
        assert r[i] == t[i - 1];
      }
    }
  }

  lemma {:induction false} SortBySorted<T(!new)>(s: seq<T>, le: (T, T) -> bool)
    requires TotalPreorder(le)
    ensures Sorted(SortBy(s, le), le)
  {
    if s != [] {
      SortBySorted(s[1..], le);
      InsertSorted(s[0], SortBy(s[1..], le), le);
    }
  }

  /** A filter of an ordered sequence is still ordered. */
  lemma {:induction false} FilterSorted<T(!new)>(s: seq<T>, p: T -> bool, le: (T, T) -> bool)
    requires Sorted(s, le)
    ensures Sorted(Filter(s, p), le)
    decreases |s|
  {
    if s != [] {
      var init := s[..|s| - 1];
      assert Sorted(init, le);
      FilterSorted(init, p, le);
      var f := Filter(init, p);
      if p(s[|s| - 1]) {
        var r := f + [s[|s| - 1]];
        forall i, j | 0 <= i < j < |r| ensures le(r[i], r[j]) {
          if j == |r| - 1 {
            assert r[i] in init;
            var k :| 0 <= k < |init| && init[k] == r[i];
            assert le(s[k], s[|s| - 1]);
          } else {
            assert r[i] == f[i] && r[j] == f[j];
          }
        }
      }
    }
  }

  /** Code-point lexicographic order on strings: `ORDER BY` a text column under a binary collation. */
  predicate LexLe(a: string, b: string)
    decreases |a|
  {
    a == [] || (b != [] && (a[0] < b[0] || (a[0] == b[0] && LexLe(a[1..], b[1..]))))
  }

  lemma {:induction false} LexLeTotal(a: string, b: string)
    ensures LexLe(a, b) || LexLe(b, a)
    decreases |a|
  {
    if a != [] && b != [] && a[0] == b[0] {
      LexLeTotal(a[1..], b[1..]);
    }
  }

  lemma {:induction false} LexLeTransitive(a: string, b: string, c: string)
    requires LexLe(a, b) && LexLe(b, c)
    ensures LexLe(a, c)
    decreases |a|
  {
    if a != [] && a[0] == b[0] && b[0] == c[0] {
      LexLeTransitive(a[1..], b[1..], c[1..]);
    }
  }

  /** Ascending order of a text key. */
  function ByText<T(!new)>(key: T -> string): (le: (T, T) -> bool)
    ensures forall a, b :: le(a, b) <==> LexLe(key(a), key(b))
  {
    (a: T, b: T) => LexLe(key(a), key(b))
  }

  lemma ByTextIsTotalPreorder<T(!new)>(key: T -> string)
    ensures TotalPreorder(ByText(key))
  {
    forall a: T, b: T ensures LexLe(key(a), key(b)) || LexLe(key(b), key(a)) {
      LexLeTotal(key(a), key(b));
    }
    forall a: T, b: T, c: T | LexLe(key(a), key(b)) && LexLe(key(b), key(c))
      ensures LexLe(key(a), key(c))
    {
      LexLeTransitive(key(a), key(b), key(c));
    }
  }

  // ---------------------------------------------------------------------------
  // Listing the rows of a table
  // ---------------------------------------------------------------------------

  /** A set with no members is empty (set extensionality, spelled out). */
  lemma NoMemberEmpty(ks: set<int>)
    requires forall j :: j !in ks
    ensures ks == {}
  {
    assert forall j :: j in ks <==> j in {};
  }

  lemma Pick(ks: set<int>) returns (k: int)
    requires ks != {}
    ensures k in ks
  {
    if forall j :: j !in ks {
      NoMemberEmpty(ks);
      assert false;
    }
    k :| k in ks;
  }

  predicate IsLeast(m: int, ks: set<int>)
  {
    m in ks && forall j :: j in ks ==> m <= j
  }

  lemma {:induction false} LeastExists(ks: set<int>)
    requires ks != {}
    ensures exists m :: IsLeast(m, ks)
    decreases |ks|
  {
    var k := Pick(ks);
    var rest := ks - {k};
    if rest == {} {
      forall j | j in ks ensures k <= j {
        assert j !in rest;
      }
      assert IsLeast(k, ks);
    } else {
      LeastExists(rest);
      var m :| IsLeast(m, rest);
      var low := if k < m then k else m;
      forall j | j in ks ensures low <= j {
        if j != k { assert j in rest; }
      }
      assert IsLeast(low, ks);
    }
  }

  function AscendingKeys(ks: set<int>): (r: seq<int>)
    ensures |r| == |ks|
    ensures forall k :: k in r <==> k in ks
    ensures forall i, j :: 0 <= i < j < |r| ==> r[i] < r[j]
    decreases |ks|
  {
    if ks == {} then []
    else
      LeastExists(ks);
      var m :| IsLeast(m, ks);
      var rest := AscendingKeys(ks - {m});
      AscendingCons(m, ks, rest);
      [m] + rest
  }

  /** The least key in front of the others in ascending order lists them all in ascending order. */
  lemma AscendingCons(m: int, ks: set<int>, rest: seq<int>)
    requires IsLeast(m, ks)
    requires |rest| == |ks - {m}| && forall k :: k in rest <==> k in ks - {m}
    requires forall i, j :: 0 <= i < j < |rest| ==> rest[i] < rest[j]
    ensures |[m] + rest| == |ks|
    ensures forall k :: k in [m] + rest <==> k in ks
    ensures forall i, j :: 0 <= i < j < |[m] + rest| ==> ([m] + rest)[i] < ([m] + rest)[j]
  {
    var r := [m] + rest;
    forall i, j | 0 <= i < j < |r| ensures r[i] < r[j] {
      assert r[j] == rest[j - 1] && r[j] in rest;
      if i > 0 {
        assert r[i] == rest[i - 1];
      }
    }
  }

  function Pairs<T>(keys: seq<int>, m: map<int, T>): (r: seq<(int, T)>)
    requires forall i :: 0 <= i < |keys| ==> keys[i] in m
    ensures |r| == |keys|
    ensures forall i :: 0 <= i < |r| ==> r[i] == (keys[i], m[keys[i]])
  {
    if keys == [] then [] else [(keys[0], m[keys[0]])] + Pairs(keys[1..], m)
  }

  lemma KeysInMap<T>(m: map<int, T>)
    ensures forall i :: 0 <= i < |AscendingKeys(m.Keys)| ==> AscendingKeys(m.Keys)[i] in m
  {
    var keys := AscendingKeys(m.Keys);
    forall i | 0 <= i < |keys| ensures keys[i] in m {
      assert keys[i] in keys;
    }
  }

  lemma PairsComplete<T>(m: map<int, T>, k: int)
    requires k in m
    ensures forall i :: 0 <= i < |AscendingKeys(m.Keys)| ==> AscendingKeys(m.Keys)[i] in m
    ensures (k, m[k]) in Pairs(AscendingKeys(m.Keys), m)
  {
    KeysInMap(m);
    var keys := AscendingKeys(m.Keys);
    assert k in keys;
    var i :| 0 <= i < |keys| && keys[i] == k;
    assert Pairs(keys, m)[i] == (k, m[k]);
  }

  function Entries<T>(m: map<int, T>): (r: seq<(int, T)>)
    ensures |r| == |m|
    ensures forall i :: 0 <= i < |r| ==> r[i].0 in m && m[r[i].0] == r[i].1
    ensures forall i, j :: 0 <= i < j < |r| ==> r[i].0 < r[j].0
    ensures forall k :: k in m ==> (k, m[k]) in r
  {
    KeysInMap(m);
    assert forall k :: k in m ==> (k, m[k]) in Pairs(AscendingKeys(m.Keys), m) by {
      forall k | k in m ensures (k, m[k]) in Pairs(AscendingKeys(m.Keys), m) {
        PairsComplete(m, k);
      }
    }
    Pairs(AscendingKeys(m.Keys), m)
  }

  /** In a sequence without repeats, an element occurs exactly once. */
  lemma {:induction false} OccursOnce<T>(s: seq<T>, x: T)
    requires forall i, j :: 0 <= i < j < |s| ==> s[i] != s[j]
    requires x in s
    ensures multiset(s)[x] == 1
  {
    assert s == [s[0]] + s[1..];
    if s[0] == x {
      assert x !in s[1..] by {
        forall j | 0 <= j < |s[1..]| ensures s[1..][j] != x {
          assert s[1..][j] == s[j + 1];
        }
      }
    } else {
      OccursOnce(s[1..], x);
    }
  }

  lemma EntriesCountOnce<T>(m: map<int, T>, k: int)
    requires k in m
    ensures multiset(Entries(m))[(k, m[k])] == 1
  {
    OccursOnce(Entries(m), (k, m[k]));
  }

  /** A table listing: every row once, in the order `le` asks for. */
  function Listing<T(!new)>(m: map<int, T>, le: ((int, T), (int, T)) -> bool): (r: seq<(int, T)>)
    ensures |r| == |m|
    ensures multiset(r) == multiset(Entries(m))
    ensures forall x :: x in r <==> x.0 in m && m[x.0] == x.1
  {
    var r := SortBy(Entries(m), le);
    assert forall x :: x in r <==> x in multiset(Entries(m));
    r
  }

  lemma ListingSorted<T(!new)>(m: map<int, T>, le: ((int, T), (int, T)) -> bool)
    requires TotalPreorder(le)
    ensures Sorted(Listing(m, le), le)
  {
    SortBySorted(Entries(m), le);
  }

  /** Two equal elements at two positions occur at least twice. */
  lemma CountTwo<T>(s: seq<T>, i: int, j: int)
    requires 0 <= i < j < |s|
    ensures s[i] == s[j] ==> multiset(s)[s[i]] >= 2
  {
    assert s == s[..j] + s[j..];
    assert s[i] == s[..j][i];
    assert s[j] == s[j..][0];
  }

  /** A listing holds each key at one position only. */
  lemma ListingKeysDistinct<T(!new)>(m: map<int, T>, le: ((int, T), (int, T)) -> bool, i: int, j: int)
    requires 0 <= i < j < |Listing(m, le)|
    ensures Listing(m, le)[i].0 != Listing(m, le)[j].0
  {
    var r := Listing(m, le);
    CountTwo(r, i, j);
    assert r[i] in r && r[j] in r;
    EntriesCountOnce(m, r[i].0);
  }

  // ---------------------------------------------------------------------------
  // django.core.paginator.Paginator(items, per_page).get_page(number)
  // ---------------------------------------------------------------------------

  datatype Page<T> = Page(number: nat, items: seq<T>)

  /** With `allow_empty_first_page` and no orphans there is always at least one page. */
  function NumPages(count: nat, perPage: nat): (n: nat)
    requires perPage > 0
    ensures n >= 1
    ensures (n - 1) * perPage <= count
    ensures count <= n * perPage
  {
    if count == 0 then 1 else (count + perPage - 1) / perPage
  }

  function PageNumber(count: nat, perPage: nat, requested: Option<int>): (n: nat)
    requires perPage > 0
    ensures 1 <= n <= NumPages(count, perPage)
    ensures requested.Some? && 1 <= requested.value <= NumPages(count, perPage) ==> n == requested.value
    ensures requested.None? ==> n == 1
    ensures requested.Some? && !(1 <= requested.value <= NumPages(count, perPage)) ==> n == NumPages(count, perPage)
  {
    match requested
    case None => 1
    case Some(k) => if k < 1 || k > NumPages(count, perPage) then NumPages(count, perPage) else k
  }

  lemma MulMonotone(a: nat, b: nat, c: nat)
    requires a <= b
    ensures a * c <= b * c
  {
  }

  /** Index of the first item on page `n`. */
  function PageStart(n: nat, perPage: nat): nat
    requires n >= 1
  {
    (n - 1) * perPage
  }

  /** Page `n` starts inside the items, and every page before the last is full. */
  lemma PageBounds(count: nat, perPage: nat, n: nat)
    requires perPage > 0 && 1 <= n <= NumPages(count, perPage)
    ensures PageStart(n, perPage) <= count
    ensures n < NumPages(count, perPage) ==> PageStart(n, perPage) + perPage <= count
  {
    var last := NumPages(count, perPage);
    MulMonotone(n - 1, last - 1, perPage);
    if n < last {
      MulMonotone(n, last - 1, perPage);
      assert (n - 1) * perPage + perPage == n * perPage;
    }
  }

  function GetPage<T>(s: seq<T>, perPage: nat, requested: Option<int>): (p: Page<T>)
    requires perPage > 0
    ensures p.number == PageNumber(|s|, perPage, requested)
    ensures |p.items| <= perPage
    ensures PageStart(p.number, perPage) + |p.items| <= |s|
    ensures p.items == s[PageStart(p.number, perPage) .. PageStart(p.number, perPage) + |p.items|]
    ensures p.number < NumPages(|s|, perPage) ==> |p.items| == perPage
    ensures p.number == NumPages(|s|, perPage) ==> PageStart(p.number, perPage) + |p.items| == |s|
  {
    var n := PageNumber(|s|, perPage, requested);
    PageBounds(|s|, perPage, n);
    var bottom := PageStart(n, perPage);
    var top := if bottom + perPage >= |s| then |s| else bottom + perPage;
    Page(n, s[bottom..top])
  }

  /** A page of an ordered sequence is ordered. */
  lemma PageSorted<T>(s: seq<T>, perPage: nat, requested: Option<int>, le: (T, T) -> bool)
    requires perPage > 0 && Sorted(s, le)
    ensures Sorted(GetPage(s, perPage, requested).items, le)
  {
    var p := GetPage(s, perPage, requested);
    var start := PageStart(p.number, perPage);
    assert forall i :: 0 <= i < |p.items| ==> p.items[i] == s[start + i];
  }

  lemma PageHolds<T>(s: seq<T>, perPage: nat, i: nat)
    requires perPage > 0 && i < |s|
    ensures i / perPage + 1 <= NumPages(|s|, perPage)
    ensures var p := GetPage(s, perPage, Some(i / perPage + 1));
      i % perPage < |p.items| && p.items[i % perPage] == s[i]
  {
    var q := i / perPage;
    var r := i % perPage;
    var n := NumPages(|s|, perPage);
    assert i == q * perPage + r;
    if q + 1 > n {
      MulMonotone(n, q, perPage);
    }
    assert PageStart(q + 1, perPage) == q * perPage;
  }
}
