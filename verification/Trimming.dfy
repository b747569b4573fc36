/** `trim` of `http_message.cpp`: six erasures, one after the other. */
module Trimming {
  import opened Text

  /** `s.erase(s.find_last_not_of(c) + 1)`. */
  function StripRight(s: string, c: char): (r: string)
    ensures |r| <= |s| && r == s[..|r|]
    ensures r != [] ==> r[|r| - 1] != c
    ensures r == s <==> (s != [] ==> s[|s| - 1] != c)
    ensures s != [] && s[0] != c ==> r != []
  {
    if s != [] && s[|s| - 1] == c then StripRight(s[..|s| - 1], c) else s
  }

  /** `s.erase(0, s.find_first_not_of(c))`. */
  function StripLeft(s: string, c: char): (r: string)
    ensures |r| <= |s| && r == s[|s| - |r|..]
    ensures r != [] ==> r[0] != c
    ensures r == s <==> (s != [] ==> s[0] != c)
  {
    if s != [] && s[0] == c then StripLeft(s[1..], c) else s
  }

  function TrimRight(s: string): string {
    StripRight(StripRight(StripRight(s, ' '), '\n'), '\r')
  }

  /** The third erasure names '\n' where its comment says carriage return. */
  function TrimLeft(s: string): string {
    StripLeft(StripLeft(StripLeft(s, ' '), '\n'), '\n')
  }

  function Trim(s: string): string {
    TrimLeft(TrimRight(s))
  }

  lemma StripMembers(s: string, c: char)
    ensures forall x <- StripRight(s, c) :: x in s
    ensures forall x <- StripLeft(s, c) :: x in s
  {
    hide StripRight, StripLeft;
  }

  lemma TrimRightIs(s: string)
    ensures |TrimRight(s)| <= |s| && TrimRight(s) == s[..|TrimRight(s)|]
    ensures TrimRight(s) == s <==> (s != [] ==> s[|s| - 1] !in {' ', '\n', '\r'})
    ensures forall x <- TrimRight(s) :: x in s
  {
    hide StripRight;
    var a := StripRight(s, ' ');
    var b := StripRight(a, '\n');
    var c := StripRight(b, '\r');
    assert a[..|b|] == s[..|b|] && b[..|c|] == s[..|c|];
    if c == s {
      assert a == s && b == s;
    }
  }

  lemma TrimLeftIs(s: string)
    ensures |TrimLeft(s)| <= |s|
    ensures TrimLeft(s) == s <==> (s != [] ==> s[0] !in {' ', '\n'})
    ensures forall x <- TrimLeft(s) :: x in s
  {
    hide StripLeft;
    var a := StripLeft(s, ' ');
    var b := StripLeft(a, '\n');
    StripMembers(s, ' ');
    StripMembers(a, '\n');
    StripMembers(b, '\n');
    if TrimLeft(s) == s {
      assert |a| == |s| && |b| == |s|;
      assert a == s && b == s;
    }
  }

  lemma TrimShrinks(s: string)
    ensures |Trim(s)| <= |s| && (|Trim(s)| == |s| ==> Trim(s) == s)
    ensures forall x <- Trim(s) :: x in s
    ensures Trim(s) == s <==> TrimRight(s) == s && TrimLeft(s) == s
  {
    TrimRightIs(s);
    TrimLeftIs(TrimRight(s));
    TrimLeftSameLength(TrimRight(s));
    hide TrimRight, TrimLeft;
    var r := TrimRight(s);
    if |Trim(s)| == |s| {
      assert r == s;
    }
  }

  lemma TrimLeftSameLength(s: string)
    ensures |TrimLeft(s)| == |s| ==> TrimLeft(s) == s
  {
    hide StripLeft;
    var a := StripLeft(s, ' ');
    var b := StripLeft(a, '\n');
    if |TrimLeft(s)| == |s| {
      assert a == s && b == s;
    }
  }

  /** What a header name must look like to come through unchanged. */
  predicate NameFits(k: string) {
    k != [] ==> k[0] != ' ' && k[|k| - 1] != ' ' && k[|k| - 1] != '\r'
  }

  lemma TrimOfName(k: string)
    requires '\n' !in k
    ensures Trim(k) == k <==> NameFits(k)
  {
    TrimShrinks(k);
    TrimRightIs(k);
    TrimLeftIs(k);
    hide TrimRight, TrimLeft, Trim;
    if k != [] {
      assert k[0] in k && k[|k| - 1] in k;
    }
  }

  /** What a value must look like: a value that is not on the last header line
      keeps its trailing blanks, since a carriage return stands behind them. */
  predicate ValueFits(v: string, last: bool) {
    v != [] ==> v[0] != ' ' && v[|v| - 1] != '\r' && (last ==> v[|v| - 1] != ' ')
  }

  /** The left half of `trim`, behind one blank. */
  lemma TrimLeftOfBlank(w: string)
    requires '\n' !in w
    ensures TrimLeft([' '] + w) == StripLeft(w, ' ')
  {
    StripLeftStep(w);
    hide StripLeft;
    var d := StripLeft(w, ' ');
    StripMembers(w, ' ');
    assert d != [] ==> d[0] in d;
    assert StripLeft(d, '\n') == d;
  }

  lemma StripLeftStep(w: string)
    ensures StripLeft([' '] + w, ' ') == StripLeft(w, ' ')
  {
    Cons(' ', w);
  }

  /** The right half of `trim` never removes the blank in front of a value. */
  lemma {:induction false} StripRightBehindBlank(v: string, c: char)
    requires c != ' '
    ensures StripRight([' '] + v, c) == [' '] + StripRight(v, c)
  {
    if v != [] && v[|v| - 1] == c {
      var s := [' '] + v;
      assert s[..|s| - 1] == [' '] + v[..|v| - 1];
      StripRightBehindBlank(v[..|v| - 1], c);
    }
  }

  lemma TrimOfInnerValue(v: string)
    requires '\n' !in v
    ensures Trim([' '] + v + ['\r']) == v <==> ValueFits(v, false)
  {
    StripRightOfLast([' '] + v, '\r');
    StripRightBehindBlank(v, '\r');
    StripMembers(v, '\r');
    hide StripRight, StripLeft;
    var s, w := [' '] + v + ['\r'], StripRight(v, '\r');
    assert StripRight(StripRight(s, ' '), '\n') == s;
    TrimLeftOfBlank(w);
    StripBoth(v, w);
  }

  lemma StripRightOfLast(s: string, c: char)
    ensures StripRight(s + [c], c) == StripRight(s, c)
  {
    assert (s + [c])[..|s|] == s;
  }

  /** Stripping on both sides changes nothing exactly when neither side does. */
  lemma StripBoth(v: string, w: string)
    requires |w| <= |v| && w == v[..|w|]
    ensures StripLeft(w, ' ') == v <==> w == v && (v != [] ==> v[0] != ' ')
  {
    hide StripLeft;
  }

  lemma TrimOfLastValue(v: string)
    requires '\n' !in v
    ensures Trim([' '] + v) == v <==> ValueFits(v, true)
  {
    var s := [' '] + v;
    if v == [] || v[|v| - 1] == ' ' {
      LastBlanks(v);
    } else {
      StripRightBehindBlank(v, '\r');
      StripMembers(v, '\r');
      hide StripRight, StripLeft;
      assert v[|v| - 1] in v && s[|s| - 1] == v[|v| - 1];
      assert StripRight(StripRight(s, ' '), '\n') == s;
      TrimLeftOfBlank(StripRight(v, '\r'));
      StripBoth(v, StripRight(v, '\r'));
    }
  }

  /** On the last line trailing blanks go, and with them the fixed point. */
  lemma LastBlanks(v: string)
    requires v == [] || v[|v| - 1] == ' '
    ensures Trim([' '] + v) == v <==> v == []
  {
    hide StripRight, StripLeft;
    var s := [' '] + v;
    var a := StripRight(s, ' ');
    assert |a| < |s| by {
      assert s[|s| - 1] == ' ';
    }
    TrimRightIs(a);
    assert |TrimRight(s)| <= |a| by {
      TrimRightAfter(s);
    }
    if TrimRight(s) == [] {
      TrimLeftIs([]);
    } else {
      TrimRightIs(s);
      TrimLeftOfFirstBlank(TrimRight(s));
    }
  }

  lemma TrimRightAfter(s: string)
    ensures |TrimRight(s)| <= |StripRight(s, ' ')|
  {
    hide StripRight;
  }

  lemma TrimLeftOfFirstBlank(s: string)
    requires s != [] && s[0] == ' '
    ensures |TrimLeft(s)| < |s|
  {
    hide StripLeft;
  }

  /** A set of names that trimming maps onto itself is left alone by it. */
  lemma TrimOnto(names: set<string>)
    requires forall n <- names :: exists k :: k in names && Trim(k) == n
    ensures forall n <- names :: Trim(n) == n
  {
    hide Trim;
    var bad := set n | n in names && Trim(n) != n;
    if bad != {} {
      var n := Longest(bad);
      var k :| k in names && Trim(k) == n;
      TrimShrinks(k);
      assert false;
    }
    assert forall n <- names :: n !in bad;
  }

  lemma {:induction false} Longest(names: set<string>) returns (n: string)
    requires names != {}
    ensures n in names && forall m <- names :: |m| <= |n|
    decreases |names|
  {
    n :| n in names;
    if names != {n} {
      var m := Longest(names - {n});
      if |m| > |n| {
        n := m;
      }
    }
  }
}
