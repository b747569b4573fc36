/** `Utils::split`, and joining as its inverse. */
module Split {
  import opened Text

  /** The pieces of `s` from `from` on: cut at the leftmost delimiter, go on
      after it. */
  function SplitFrom(s: string, d: string, from: nat): (r: seq<string>)
    requires d != [] && from <= |s|
    ensures r != []
    decreases |s| - from
  {
    match FindFrom(s, d, from)
    case None => [s[from..]]
    case Some(k) => [s[from..k]] + SplitFrom(s, d, k + |d|)
  }

  method Split(s: string, delimiter: string) returns (res: seq<string>)
    requires delimiter != []
    ensures res == SplitFrom(s, delimiter, 0)
  {
    var posStart := 0;
    res := [];
    var posEnd := FindFrom(s, delimiter, posStart);
    while posEnd.Some?
      invariant 0 <= posStart <= |s| && posEnd == FindFrom(s, delimiter, posStart)
      invariant SplitFrom(s, delimiter, 0) == res + SplitFrom(s, delimiter, posStart)
      decreases |s| - posStart
    {
      var token := s[posStart..posEnd.value];
      posStart := posEnd.value + |delimiter|;
      Assoc(res, [token], SplitFrom(s, delimiter, posStart));
      res := res + [token];
      posEnd := FindFrom(s, delimiter, posStart);
    }
    res := res + [s[posStart..]];
  }

  function Join(xs: seq<string>, d: string): string
    requires xs != []
  {
    if |xs| == 1 then xs[0] else xs[0] + d + Join(xs[1..], d)
  }

  /** Joining the pieces gives the text back. */
  lemma {:induction false} JoinOfSplit(s: string, d: string, from: nat)
    requires d != [] && from <= |s|
    ensures Join(SplitFrom(s, d, from), d) == s[from..]
    decreases |s| - from
  {
    hide OccursAt, FindFrom;
    FoundInside(s, d, from);
    match FindFrom(s, d, from)
    case None =>
    case Some(k) =>
      JoinOfSplit(s, d, k + |d|);
      Cons(s[from..k], SplitFrom(s, d, k + |d|));
      ThreeSlices(s, from, k, k + |d|);
  }

  lemma ThreeSlices(s: string, i: nat, j: nat, k: nat)
    requires i <= j <= k <= |s|
    ensures s[i..j] + s[j..k] + s[k..] == s[i..]
  {
  }

  /** No piece contains the delimiter. */
  lemma {:induction false} PiecesAreClean(s: string, d: string, from: nat)
    requires d != [] && from <= |s|
    ensures forall p <- SplitFrom(s, d, from), j: nat :: !OccursAt(p, d, j)
    decreases |s| - from
  {
    match FindFrom(s, d, from)
    case None =>
      SliceIsClean(s, d, from, |s|);
      assert s[from..|s|] == s[from..];
    case Some(k) =>
      SliceIsClean(s, d, from, k);
      PiecesAreClean(s, d, k + |d|);
  }

  lemma SliceIsClean(s: string, d: string, from: nat, to: nat)
    requires d != [] && from <= to <= |s|
    requires forall j: nat | from <= j < to :: !OccursAt(s, d, j)
    ensures forall j: nat :: !OccursAt(s[from..to], d, j)
  {
    assert s == s[..from] + (s[from..to] + s[to..]);
    forall j: nat | j + |d| <= to - from
      ensures !OccursAt(s[from..to], d, j)
    {
      OccursInPrefix(s[from..to], s[to..], d, j);
      OccursInSuffix(s[..from], s[from..to] + s[to..], d, j);
    }
  }

  /** In `x + d` the delimiter is found first where it was put, and the last
      piece does not contain it. For a delimiter that overlaps itself this says
      more than that no piece contains it. */
  predicate Separable(xs: seq<string>, d: string)
    requires xs != []
  {
    if |xs| == 1 then FindFrom(xs[0], d, 0) == None
    else FindFrom(xs[0] + d, d, 0) == Some(|xs[0]|) && Separable(xs[1..], d)
  }

  lemma FirstIsSettledEarly(x: string, d: string, rest: string)
    requires d != []
    ensures FindFrom(x + d, d, 0).Some? && FindFrom(x + d, d, 0).value <= |x|
    ensures FindFrom(x + d + rest, d, 0) == FindFrom(x + d, d, 0)
  {
    assert OccursAt(x + d, d, |x|);
    var k := FindFrom(x + d, d, 0).value;
    forall j: nat | j <= k
      ensures OccursAt(x + d + rest, d, j) <==> OccursAt(x + d, d, j)
    {
      OccursInPrefix(x + d, rest, d, j);
    }
    FindIs(x + d + rest, d, 0, k);
  }

  lemma {:induction false} SplitInSuffix(p: string, s: string, d: string, i: nat)
    requires d != [] && i <= |s|
    ensures SplitFrom(p + s, d, |p| + i) == SplitFrom(s, d, i)
    decreases |s| - i
  {
    FindInSuffix(p, s, d, i);
    hide OccursAt, FindFrom;
    match FindFrom(s, d, i)
    case None =>
      assert (p + s)[|p| + i..] == s[i..];
    case Some(k) =>
      assert k + |d| <= |s| by {
        FoundInside(s, d, i);
      }
      SplitInSuffix(p, s, d, k + |d|);
      assert (p + s)[|p| + i..|p| + k] == s[i..k];
  }

  lemma FoundInside(s: string, d: string, i: nat)
    ensures var r := FindFrom(s, d, i);
            r.Some? ==> i <= r.value && r.value + |d| <= |s| && s[r.value..r.value + |d|] == d
  {
  }

  lemma ConsIs<T>(h: T, t: seq<T>, xs: seq<T>)
    requires xs != []
    ensures [h] + t == xs <==> h == xs[0] && t == xs[1..]
  {
    Cons(h, t);
    assert xs == [xs[0]] + xs[1..];
  }

  /** Splitting undoes joining exactly when the pieces are separable. */
  lemma {:induction false} SplitOfJoin(xs: seq<string>, d: string)
    requires xs != [] && d != []
    ensures SplitFrom(Join(xs, d), d, 0) == xs <==> Separable(xs, d)
  {
    hide OccursAt, FindFrom, SplitFrom;
    if |xs| == 1 {
      SplitOfOne(xs[0], d);
      assert xs == [xs[0]];
    } else {
      var x, rest := xs[0], Join(xs[1..], d);
      SplitOfJoin(xs[1..], d);
      FirstIsSettledEarly(x, d, rest);
      SplitAtFirst(x + d + rest, d);
      var k := FindFrom(x + d, d, 0).value;
      if k == |x| {
        SplitAfter(x, d, rest);
        ConsIs(x, SplitFrom(rest, d, 0), xs);
      } else {
        assert |(x + d + rest)[..k]| == k;
      }
    }
  }

  lemma SplitOfOne(x: string, d: string)
    requires d != []
    ensures SplitFrom(x, d, 0) == [x] <==> FindFrom(x, d, 0) == None
  {
    assert x[0..] == x;
  }

  lemma SplitAtFirst(s: string, d: string)
    requires d != [] && FindFrom(s, d, 0).Some?
    ensures var k := FindFrom(s, d, 0).value;
            k + |d| <= |s| && SplitFrom(s, d, 0) == [s[..k]] + SplitFrom(s, d, k + |d|)
  {
  }

  lemma SplitAfter(x: string, d: string, rest: string)
    requires d != []
    ensures (x + d + rest)[..|x|] == x
    ensures SplitFrom(x + d + rest, d, |x| + |d|) == SplitFrom(rest, d, 0)
  {
    hide SplitFrom;
    SplitInSuffix(x + d, rest, d, 0);
  }
}
