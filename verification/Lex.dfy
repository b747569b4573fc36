/** The order of `std::string`, and sorting by it. */
module Lex {

  predicate Less(a: string, b: string) {
    b != [] && (a == [] || a[0] < b[0] || (a[0] == b[0] && Less(a[1..], b[1..])))
  }

  lemma {:induction false} Total(a: string, b: string)
    ensures !(Less(a, b) && Less(b, a))
    ensures !Less(a, b) && !Less(b, a) ==> a == b
    ensures !Less(a, a)
  {
    if a != [] {
      Total(a[1..], a[1..]);
      if b != [] {
        Total(a[1..], b[1..]);
        if a[0] == b[0] && a[1..] == b[1..] {
          assert a == [a[0]] + a[1..] && b == [b[0]] + b[1..];
        }
      }
    }
  }

  /** `a` ends, or has the smaller character, where the two first differ. */
  ghost predicate SmallerAt(a: string, b: string, k: nat) {
    k <= |a| && k < |b| && a[..k] == b[..k] && (k == |a| || a[k] < b[k])
  }

  /** The order of strings is that of their first difference. */
  lemma {:induction false} LessExactly(a: string, b: string)
    ensures Less(a, b) <==> exists k: nat :: SmallerAt(a, b, k)
  {
    if a == [] || b == [] || a[0] != b[0] {
      assert b != [] && (a == [] || a[0] < b[0]) ==> SmallerAt(a, b, 0);
    } else {
      LessExactly(a[1..], b[1..]);
      assert !SmallerAt(a, b, 0);
      if k: nat :| SmallerAt(a, b, k) {
        SmallerLater(a, b, k - 1);
      }
      if k: nat :| SmallerAt(a[1..], b[1..], k) {
        SmallerLater(a, b, k);
      }
    }
  }

  lemma SmallerLater(a: string, b: string, k: nat)
    requires a != [] && b != [] && a[0] == b[0]
    ensures SmallerAt(a, b, k + 1) <==> SmallerAt(a[1..], b[1..], k)
  {
    if k + 1 <= |a| && k + 1 < |b| {
      assert a[..k + 1] == [a[0]] + a[1..][..k] && b[..k + 1] == [b[0]] + b[1..][..k];
      if a[..k + 1] == b[..k + 1] {
        assert a[1..][..k] == a[..k + 1][1..] && b[1..][..k] == b[..k + 1][1..];
      }
    }
  }

  lemma {:induction false} Transitive(a: string, b: string, c: string)
    requires Less(a, b)
    ensures Less(b, c) ==> Less(a, c)
    ensures !Less(c, b) ==> Less(a, c)
  {
    if a != [] && c != [] && b != [] && a[0] == b[0] {
      Transitive(a[1..], b[1..], c[1..]);
    }
    Total(b, c);
  }

  /** No element is less than an earlier one. */
  predicate Sorted(xs: seq<string>) {
    forall i, j | 0 <= i < j < |xs| :: !Less(xs[j], xs[i])
  }

  predicate Ascending(xs: seq<string>) {
    forall i, j | 0 <= i < j < |xs| :: Less(xs[i], xs[j])
  }

  predicate Single(xs: seq<string>) {
    forall x <- xs :: multiset(xs)[x] == 1
  }

  lemma TwiceCounts(xs: seq<string>, i: nat, j: nat)
    requires i < j < |xs| && xs[i] == xs[j]
    ensures multiset(xs)[xs[i]] >= 2
  {
    assert xs == xs[..j] + [xs[j]] + xs[j + 1..];
    assert xs[..j][i] == xs[i] && xs[i] in multiset(xs[..j]);
  }

  lemma CountsTwice(xs: seq<string>, x: string)
    requires multiset(xs)[x] >= 2
    ensures exists i, j :: 0 <= i < j < |xs| && xs[i] == x && xs[j] == x
  {
    assert x in multiset(xs) && x in xs;
    var i :| 0 <= i < |xs| && xs[i] == x;
    assert xs == xs[..i] + [x] + xs[i + 1..];
    if x in multiset(xs[..i]) {
      var j :| 0 <= j < i && xs[..i][j] == x;
      assert xs[j] == x;
    } else {
      assert x in multiset(xs[i + 1..]) && x in xs[i + 1..];
      var j :| 0 <= j < |xs| - i - 1 && xs[i + 1..][j] == x;
      assert xs[i + 1 + j] == x;
    }
  }

  /** Strictly ascending is sorted, with no element twice. */
  lemma AscendingExactly(xs: seq<string>)
    ensures Ascending(xs) <==> Sorted(xs) && Single(xs)
  {
    hide Less;
    if Ascending(xs) {
      forall i, j | 0 <= i < j < |xs|
        ensures !Less(xs[j], xs[i])
      {
        Total(xs[i], xs[j]);
      }
      forall x <- xs
        ensures multiset(xs)[x] == 1
      {
        assert x in multiset(xs);
        if multiset(xs)[x] >= 2 {
          CountsTwice(xs, x);
          Total(x, x);
        }
      }
    }
    if Sorted(xs) && Single(xs) {
      forall i, j | 0 <= i < j < |xs|
        ensures Less(xs[i], xs[j])
      {
        Total(xs[i], xs[j]);
        if xs[i] == xs[j] {
          TwiceCounts(xs, i, j);
        }
      }
    }
  }

  /** `std::lower_bound` on `xs[lo..hi]`, by bisection. */
  function LowerBound(xs: seq<string>, x: string, lo: nat, hi: nat): (k: nat)
    requires lo <= hi <= |xs|
    ensures lo <= k <= hi
    ensures Sorted(xs) ==> forall i | lo <= i < k :: Less(xs[i], x)
    ensures Sorted(xs) ==> forall i | k <= i < hi :: !Less(xs[i], x)
    decreases hi - lo
  {
    if lo == hi then lo else
      var mid := (lo + hi) / 2;
      if Less(xs[mid], x) then
        assert Sorted(xs) ==> forall i | lo <= i <= mid :: Less(xs[i], x) by {
          forall i | lo <= i < mid && !Less(xs[mid], xs[i])
            ensures Less(xs[i], x)
          {
            LessThrough(xs[i], xs[mid], x);
          }
        }
        LowerBound(xs, x, mid + 1, hi)
      else
        assert Sorted(xs) ==> forall i | mid <= i < hi :: !Less(xs[i], x) by {
          forall i | mid < i < hi && !Less(xs[i], xs[mid])
            ensures !Less(xs[i], x)
          {
            NotLessThrough(xs[mid], xs[i], x);
          }
        }
        LowerBound(xs, x, lo, mid)
  }

  lemma LessThrough(a: string, b: string, c: string)
    requires !Less(b, a) && Less(b, c)
    ensures Less(a, c)
  {
    Total(a, b);
    if a != b {
      Transitive(a, b, c);
    }
  }

  lemma NotLessThrough(a: string, b: string, c: string)
    requires !Less(b, a) && !Less(a, c)
    ensures !Less(b, c)
  {
    if Less(b, c) {
      LessThrough(a, b, c);
    }
  }

  /** Where `x` goes in a sorted sequence: before the first element not less. */
  function Insert(xs: seq<string>, x: string): (r: seq<string>)
    ensures multiset(r) == multiset(xs) + multiset{x}
    ensures Sorted(xs) ==> Sorted(r)
  {
    var k := LowerBound(xs, x, 0, |xs|);
    assert xs == xs[..k] + xs[k..];
    assert Sorted(xs) ==> Sorted(xs[..k] + [x] + xs[k..]) by {
      if Sorted(xs) {
        InsertIsSorted(xs, x, k);
      }
    }
    xs[..k] + [x] + xs[k..]
  }

  lemma InsertIsSorted(xs: seq<string>, x: string, k: nat)
    requires k <= |xs| && Sorted(xs)
    requires forall i | 0 <= i < k :: Less(xs[i], x)
    requires forall i | k <= i < |xs| :: !Less(xs[i], x)
    ensures Sorted(xs[..k] + [x] + xs[k..])
  {
    var r := xs[..k] + [x] + xs[k..];
    forall i, j | 0 <= i < j < |r|
      ensures !Less(r[j], r[i])
    {
      assert i < k ==> r[i] == xs[i];
      assert j > k ==> r[j] == xs[j - 1];
      if j == k {
        Total(xs[i], x);
      }
    }
  }

  /** `std::sort`. Any sorting gives this result: see `SortedIsUnique`. */
  function Sort(xs: seq<string>): (r: seq<string>)
    ensures multiset(r) == multiset(xs) && Sorted(r)
  {
    if xs == [] then [] else
      assert xs == [xs[0]] + xs[1..];
      Insert(Sort(xs[1..]), xs[0])
  }

  lemma {:induction false} SortedIsUnique(xs: seq<string>, ys: seq<string>)
    requires Sorted(xs) && Sorted(ys) && multiset(xs) == multiset(ys)
    ensures xs == ys
    decreases |xs|
  {
    assert |xs| == |multiset(xs)| == |multiset(ys)| == |ys|;
    if xs != [] {
      FirstIsLeast(xs, ys);
      FirstIsLeast(ys, xs);
      Total(xs[0], ys[0]);
      assert xs == [xs[0]] + xs[1..] && ys == [ys[0]] + ys[1..];
      assert multiset(xs[1..]) == multiset(xs) - multiset{xs[0]};
      assert multiset(ys[1..]) == multiset(ys) - multiset{ys[0]};
      SortedIsUnique(xs[1..], ys[1..]);
    }
  }

  lemma FirstIsLeast(xs: seq<string>, ys: seq<string>)
    requires xs != [] && ys != [] && Sorted(xs) && multiset(xs) == multiset(ys)
    ensures !Less(ys[0], xs[0])
  {
    assert ys[0] in multiset(xs);
    var i :| 0 <= i < |xs| && xs[i] == ys[0];
    Total(xs[0], xs[0]);
  }

  lemma SortOfSorted(xs: seq<string>)
    requires Sorted(xs)
    ensures Sort(xs) == xs
  {
    SortedIsUnique(Sort(xs), xs);
  }

  /** Taking elements out of a sorted sequence leaves it sorted. */
  lemma SortedWithout(xs: seq<string>, i: nat)
    requires i < |xs| && Sorted(xs)
    ensures Sorted(xs[..i] + xs[i + 1..])
  {
    var r := xs[..i] + xs[i + 1..];
    assert forall k | 0 <= k < |r| :: r[k] == xs[if k < i then k else k + 1];
  }

  lemma SortMembers(xs: seq<string>)
    ensures forall l :: l in Sort(xs) <==> l in xs
  {
    assert forall l :: l in xs <==> l in multiset(xs);
    assert forall l :: l in Sort(xs) <==> l in multiset(Sort(xs));
  }

  lemma SortedCons(h: string, t: seq<string>)
    ensures Sorted([h] + t) <==> Sorted(t) && forall l <- t :: !Less(l, h)
  {
    hide Less;
    var xs := [h] + t;
    assert forall i | 0 <= i < |t| :: xs[i + 1] == t[i];
    if Sorted(xs) {
      forall l <- t
        ensures !Less(l, h)
      {
        var j :| 0 <= j < |t| && t[j] == l;
        assert xs[j + 1] == l && xs[0] == h;
      }
      forall i, j | 0 <= i < j < |t|
        ensures !Less(t[j], t[i])
      {
        assert xs[i + 1] == t[i] && xs[j + 1] == t[j];
      }
    }
    if Sorted(t) && forall l <- t :: !Less(l, h) {
      forall i, j | 0 <= i < j < |xs|
        ensures !Less(xs[j], xs[i])
      {
        assert xs[j] == t[j - 1] && (i > 0 ==> xs[i] == t[i - 1]);
      }
    }
  }
}
