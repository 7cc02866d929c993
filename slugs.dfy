/**
  The slug search shared by `News.save` and the slug back-fill migration:
  starting from a base slug, try `base`, `base-1`, `base-2`, ... and keep
  the first candidate that no row in the way already holds.
*/
module Slugs {

  /** The decimal digit for `d`. */
  function Digit(d: nat): (c: char)
    requires d < 10
    ensures '0' <= c <= '9'
    ensures c as int - '0' as int == d
  {
    ('0' as int + d) as char
  }

  /** Python's `str(n)` for a natural number: decimal, no leading zeros. */
  function NatToString(n: nat): (s: string)
    ensures |s| >= 1
    ensures forall i :: 0 <= i < |s| ==> '0' <= s[i] <= '9'
    ensures n < 10 <==> |s| == 1
    decreases n
  {
    if n < 10 then [Digit(n)] else NatToString(n / 10) + [Digit(n % 10)]
  }

  /** Different numbers print differently, so `base-j` and `base-k` never collide. */
  lemma {:induction false} NatToStringInjective(a: nat, b: nat)
    requires NatToString(a) == NatToString(b)
    ensures a == b
    decreases a
  {
    var s := NatToString(a);
    if a < 10 || b < 10 {
      assert |s| == 1;
      assert a < 10 && b < 10;
      assert s[0] == Digit(a) && s[0] == Digit(b);
    } else {
      var sa, sb := NatToString(a / 10), NatToString(b / 10);
      assert s == sa + [Digit(a % 10)];
      assert s == sb + [Digit(b % 10)];
      assert |sa| == |sb|;
      assert sa == s[..|s| - 1] == sb;
      assert Digit(a % 10) == s[|s| - 1] == Digit(b % 10);
      NatToStringInjective(a / 10, b / 10);
    }
  }

  /** The `k`-th slug tried: `base` itself, then `base-1`, `base-2`, ... */
  function Candidate(base: string, k: nat): (s: string)
    ensures k == 0 ==> s == base
    ensures k > 0 ==> |s| > |base| && s[..|base|] == base && s[|base|] == '-'
  {
    if k == 0 then base else base + "-" + NatToString(k)
  }

  lemma CandidateInjective(base: string, j: nat, k: nat)
    requires Candidate(base, j) == Candidate(base, k)
    ensures j == k
  {
    if j > 0 && k > 0 {
      var cj, ck := Candidate(base, j), Candidate(base, k);
      assert cj[|base| + 1..] == NatToString(j);
      assert ck[|base| + 1..] == NatToString(k);
      NatToStringInjective(j, k);
    }
  }

  /** The candidates tried before the `k`-th. */
  ghost function Tried(base: string, k: nat): set<string>
  {
    set j: nat | j < k :: Candidate(base, j)
  }

  lemma {:induction false} TriedSize(base: string, k: nat)
    ensures |Tried(base, k)| == k
  {
    if k > 0 {
      TriedSize(base, k - 1);
      var c := Candidate(base, k - 1);
      assert Tried(base, k) == Tried(base, k - 1) + {c} by {
        forall s ensures s in Tried(base, k) <==> s in Tried(base, k - 1) + {c} {
          if s in Tried(base, k) {
            var j: nat :| j < k && Candidate(base, j) == s;
          }
        }
      }
      assert c !in Tried(base, k - 1) by {
        if c in Tried(base, k - 1) {
          var j: nat :| j < k - 1 && Candidate(base, j) == c;
          CandidateInjective(base, j, k - 1);
        }
      }
    }
  }

  lemma {:induction false} SubsetSize<T>(a: set<T>, b: set<T>)
    requires a <= b
    ensures |a| <= |b|
  {
    assert b == a + (b - a);
  }

  /**
    Pigeonhole: if the first `k` candidates are all taken, there are at
    least `k` taken slugs. This is why the search stops.
  */
  lemma Pigeonhole(base: string, taken: set<string>, k: nat)
    requires forall j: nat :: j < k ==> Candidate(base, j) in taken
    ensures k <= |taken|
  {
    TriedSize(base, k);
    SubsetSize(Tried(base, k), taken);
  }

  /** The index of the first free candidate at or after `k`. */
  function FirstFreeFrom(base: string, taken: set<string>, k: nat): (r: nat)
    requires forall j: nat :: j < k ==> Candidate(base, j) in taken
    ensures k <= r <= |taken|
    ensures Candidate(base, r) !in taken
    ensures forall j: nat :: j < r ==> Candidate(base, j) in taken
    decreases |taken| - k
  {
    Pigeonhole(base, taken, k);
    if Candidate(base, k) !in taken then k
    else
      Pigeonhole(base, taken, k + 1);
      FirstFreeFrom(base, taken, k + 1)
  }

  /** The index of the first free candidate; at most the number of taken slugs. */
  function FirstFreeIndex(base: string, taken: set<string>): (r: nat)
    ensures r <= |taken|
    ensures Candidate(base, r) !in taken
    ensures forall j: nat :: j < r ==> Candidate(base, j) in taken
  {
    FirstFreeFrom(base, taken, 0)
  }

  /** The slug the search settles on. */
  function FirstFree(base: string, taken: set<string>): (s: string)
    ensures s !in taken
    ensures base !in taken ==> s == base
  {
    Candidate(base, FirstFreeIndex(base, taken))
  }

  /** Only one index is free with every earlier candidate taken. */
  lemma FirstFreeUnique(base: string, taken: set<string>, r: nat)
    requires Candidate(base, r) !in taken
    requires forall j: nat :: j < r ==> Candidate(base, j) in taken
    ensures r == FirstFreeIndex(base, taken)
  {
    var f := FirstFreeIndex(base, taken);
    assert Candidate(base, f) !in taken;
  }

  /**
    The while loop of the slug search: `counter` starts at 1 and rises by
    one per pass while the current slug is taken.
  */
  method FindFreeSlug(base: string, taken: set<string>) returns (slug: string)
    ensures slug == FirstFree(base, taken)
  {
    slug := base;
    var counter := 1;
    while slug in taken
      invariant 1 <= counter <= |taken| + 1
      invariant slug == Candidate(base, counter - 1)
      invariant forall j: nat :: j < counter - 1 ==> Candidate(base, j) in taken
      decreases |taken| + 1 - counter
    {
      Pigeonhole(base, taken, counter);
      slug := base + "-" + NatToString(counter);
      counter := counter + 1;
    }
    FirstFreeUnique(base, taken, counter - 1);
  }
}
