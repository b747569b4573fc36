/** The file behind the revocation list, as bytes. An entry is a line; an entry
    whose first byte is a vertical tab is a tombstone. These functions say what
    each operation of `CachedFileList` does to the bytes, and the lemmas say
    what that means for the entries a fresh load would read. */
module RevocationFile {
  import opened Text

  predicate IsTombstone(line: string) {
    line != [] && line[0] == VT
  }

  predicate IsLive(line: string) {
    line != [] && line[0] != VT
  }

  /** An entry that a load can give back. */
  predicate Legal(s: string) {
    IsLive(s) && '\n' !in s
  }

  /** What a fresh load puts in the cache. */
  function LiveSet(f: string): set<string> {
    LiveIn(Lines(f))
  }

  function LiveIn(ls: seq<string>): set<string> {
    set l | l in ls && IsLive(l)
  }

  lemma LiveInAppend(ls: seq<string>, l: string)
    ensures LiveIn(ls + [l]) == LiveIn(ls) + (if IsLive(l) then {l} else {})
  {
  }

  predicate SingleLive(f: string) {
    forall l <- Lines(f) :: IsLive(l) ==> multiset(Lines(f))[l] == 1
  }

  function Live(ls: seq<string>): seq<string> {
    if ls == [] then []
    else if IsLive(ls[0]) then [ls[0]] + Live(ls[1..])
    else Live(ls[1..])
  }

  lemma LiveMembers(f: string)
    ensures forall l <- LiveSet(f) :: Legal(l)
    ensures forall l :: Legal(l) ==> (l in LiveSet(f) <==> l in Lines(f))
  {
    LinesHoldNoNewline(f);
  }

  // ------------------------------------------------------------------- add

  function Added(f: string, s: string): string {
    f + s + ['\n']
  }

  lemma AddedLines(f: string, s: string)
    requires Terminated(f)
    ensures Terminated(Added(f, s))
    ensures Lines(Added(f, s)) == Lines(f) + Lines(s + ['\n'])
    ensures '\n' !in s ==> Lines(Added(f, s)) == Lines(f) + [s]
  {
    Assoc(f, s, ['\n']);
    LinesAppend(f, s + ['\n']);
    if '\n' !in s {
      LinesCons(s, []);
      assert s + ['\n'] + [] == s + ['\n'];
      assert Lines([]) == [];
    }
  }

  /** An append to a file whose last line is unfinished extends that line. */
  lemma {:induction false} AddedToUnfinished(f: string, s: string)
    requires !Terminated(f) && '\n' !in s
    ensures var ls := Lines(f); var n := |ls| - 1;
            n >= 0 && ls[n] != [] && Lines(Added(f, s)) == ls[..n] + [ls[n] + s]
    decreases |f|
  {
    assert f != [];
    hide *;
    var l, rest := FirstLine(f);
    if '\n' in f {
      AddedToUnfinished(rest, s);
      AddedToUnfinishedStep(l, rest, s);
    } else {
      AddedToOnly(f, s);
    }
  }

  lemma AddedToOnly(f: string, s: string)
    requires '\n' !in f && '\n' !in s
    ensures Lines(Added(f, s)) == [] + [f + s]
  {
    LinesCons(f + s, []);
    assert f + s + ['\n'] + [] == Added(f, s);
    assert Lines([]) == [];
  }

  lemma AddedToUnfinishedStep(l: string, rest: string, s: string)
    requires '\n' !in l && Lines(rest) != []
    requires var ls := Lines(rest); var n := |ls| - 1; Lines(Added(rest, s)) == ls[..n] + [ls[n] + s]
    ensures var ls := Lines(l + ['\n'] + rest); var n := |ls| - 1;
            && |ls| == |Lines(rest)| + 1 && ls[n] == Lines(rest)[n - 1]
            && Lines(Added(l + ['\n'] + rest, s)) == ls[..n] + [ls[n] + s]
  {
    hide Lines;
    var ls := Lines(rest);
    var n := |ls| - 1;
    LinesCons(l, rest);
    LinesCons(l, Added(rest, s));
    Assoc(l + ['\n'], rest, s);
    Assoc(l + ['\n'], rest + s, ['\n']);
    Assoc([l], ls[..n], [ls[n] + s]);
    assert ([l] + ls)[..n + 1] == [l] + ls[..n];
  }

  /** Appending a new entry keeps cache and file in agreement exactly when the
      entry can be one, not empty, without newlines and with no vertical tab in
      front, and the file is empty or ends with a newline. */
  lemma AddAgreesExactly(f: string, s: string)
    requires s !in LiveSet(f)
    ensures LiveSet(Added(f, s)) == LiveSet(f) + {s}
       <==> (s != [] && s[0] != '\U{000b}' && '\n' !in s) && (f == [] || f[|f| - 1] == '\n')
  {
    LiveMembers(Added(f, s));
    LiveMembers(f);
    if Legal(s) {
      if Terminated(f) {
        AddedLines(f, s);
      } else {
        AddedToUnfinished(f, s);
        var ls := Lines(f);
        assert forall l <- ls[..|ls| - 1] :: l in ls;
        assert s !in Lines(Added(f, s));
      }
    } else {
      assert s !in LiveSet(Added(f, s)) && s in LiveSet(f) + {s};
    }
  }

  // ---------------------------------------------------------------- remove

  /** The byte offset of line `i`. */
  function Offset(ls: seq<string>, i: nat): nat
    requires i <= |ls|
  {
    if i == 0 then 0 else |ls[0]| + 1 + Offset(ls[1..], i - 1)
  }

  /** Whether `remove` writes: there is a matching line, and it is finished. On
      an unfinished last line the stream has met the end of the file, and a
      stream in that state writes nothing. */
  predicate Strikes(f: string, s: string) {
    var i := FirstAt(Lines(f), s);
    i < |Lines(f)| && (Terminated(f) || i < |Lines(f)| - 1)
  }

  lemma {:induction false} OffsetRoom(ls: seq<string>, i: nat)
    requires i <= |ls|
    ensures Offset(ls, i) + |ls| - i <= |Unlines(ls)|
  {
    if i > 0 {
      OffsetRoom(ls[1..], i - 1);
    } else if ls != [] {
      OffsetRoom(ls[1..], 0);
    }
  }

  lemma OffsetInside(f: string, i: nat)
    requires i < |Lines(f)| && (Terminated(f) || i < |Lines(f)| - 1)
    ensures Offset(Lines(f), i) < |f|
  {
    OffsetRoom(Lines(f), i);
    UnlinesOfLines(f);
  }

  /** The first byte of the first matching line is overwritten. */
  function Removed(f: string, s: string): (r: string)
    ensures |r| == |f|
  {
    var i := FirstAt(Lines(f), s);
    if Strikes(f, s) then
      OffsetInside(f, i);
      f[Offset(Lines(f), i) := VT]
    else f
  }

  function Tombstone(s: string): (t: string)
    requires s != []
    ensures IsTombstone(t) && |t| == |s|
    ensures '\n' !in s ==> '\n' !in t
  {
    [VT] + s[1..]
  }

  /** What the lines are after `remove`. */
  function RemovedFrom(f: string, s: string): seq<string>
    requires s != []
  {
    if Strikes(f, s) then Lines(f)[FirstAt(Lines(f), s) := Tombstone(s)] else Lines(f)
  }

  lemma {:induction false} OverwriteInUnlines(ls: seq<string>, i: nat)
    requires i < |ls| && ls[i] != []
    ensures Offset(ls, i) < |Unlines(ls)|
    ensures Unlines(ls)[Offset(ls, i) := VT] == Unlines(ls[i := Tombstone(ls[i])])
  {
    var l, rest := ls[0], ls[1..];
    if i == 0 {
      OverwriteHead(l, Unlines(rest));
      assert ls[0 := Tombstone(l)][1..] == rest;
    } else {
      OverwriteInUnlines(rest, i - 1);
      UpdateLater(l + ['\n'], Unlines(rest), Offset(rest, i - 1), VT);
      assert ls[i := Tombstone(ls[i])][1..] == rest[i - 1 := Tombstone(ls[i])];
    }
  }

  lemma OverwriteHead(l: string, rest: string)
    requires l != []
    ensures (l + ['\n'] + rest)[0 := VT] == Tombstone(l) + ['\n'] + rest
  {
  }

  lemma UpdateLater<T>(h: seq<T>, t: seq<T>, i: nat, x: T)
    requires i < |t|
    ensures (h + t)[|h| + i := x] == h + t[i := x]
  {
  }

  /** Overwriting the first byte of a finished line replaces that line only. */
  lemma OverwriteLine(f: string, i: nat)
    requires i < |Lines(f)| && (Terminated(f) || i < |Lines(f)| - 1) && Lines(f)[i] != []
    ensures var o := Offset(Lines(f), i);
            && o < |f|
            && Lines(f[o := VT]) == Lines(f)[i := Tombstone(Lines(f)[i])]
            && (Terminated(f[o := VT]) <==> Terminated(f))
  {
    hide Lines, Unlines, Offset;
    OffsetInside(f, i);
    var ls, o := Lines(f), Offset(Lines(f), i);
    var ls', f' := ls[i := Tombstone(ls[i])], f[o := VT];
    LinesHoldNoNewline(f);
    OverwriteInUnlines(ls, i);
    UnlinesOfLines(f);
    assert ls[i] in ls && forall l <- ls' :: l in ls || l == Tombstone(ls[i]);
    LinesOfUnlines(ls');
    if Terminated(f) {
      assert Terminated(Unlines(ls'));
    } else {
      assert (f + ['\n'])[o := VT] == f' + ['\n'];
      UnfinishedIsFinished(f', ls');
    }
  }

  /** A missing last newline does not change what the lines are. */
  lemma UnfinishedIsFinished(f: string, ls: seq<string>)
    requires !Terminated(f) && Lines(f + ['\n']) == ls
    ensures Lines(f) == ls
  {
    hide Lines, Terminated;
    AddedToUnfinished(f, []);
    var now := Lines(f);
    var n := |now| - 1;
    assert f + [] == f && now[n] + [] == now[n];
    assert now[..n] + [now[n]] == now;
  }

  /** `remove` replaces the first matching line by its tombstone, in place. */
  lemma RemovedLines(f: string, s: string)
    requires s != []
    ensures Terminated(Removed(f, s)) <==> Terminated(f)
    ensures Lines(Removed(f, s)) == RemovedFrom(f, s)
  {
    if Strikes(f, s) {
      OverwriteLine(f, FirstAt(Lines(f), s));
    }
  }

  /** Which live entries are left when one line is struck out. */
  lemma StruckMembers(ls: seq<string>, i: nat, t: string, l: string)
    requires i < |ls| && IsTombstone(t) && IsLive(l)
    ensures l in ls[i := t] <==> if l == ls[i] then multiset(ls)[l] >= 2 else l in ls
  {
    var ls' := ls[i := t];
    assert multiset(ls') == multiset(ls) - multiset{ls[i]} + multiset{t};
    assert l in ls' <==> l in multiset(ls');
    assert l in ls <==> l in multiset(ls);
  }

  /** Which entries a load finds after `remove(s)`: other entries never notice,
      and `s` itself goes unless it stands on a second line, or unfinished. */
  lemma LiveAfterRemove(f: string, s: string, l: string)
    requires s != [] && IsLive(l)
    ensures l in LiveSet(Removed(f, s))
       <==> l in LiveSet(f) && (l == s && Strikes(f, s) ==> multiset(Lines(f))[s] >= 2)
  {
    RemovedLines(f, s);
    if Strikes(f, s) {
      var ls, i := Lines(f), FirstAt(Lines(f), s);
      StruckMembers(ls, i, Tombstone(s), l);
      assert s in ls;
    }
  }

  /** Removing an entry keeps cache and file in agreement exactly when the entry
      stands on one line only and that line is finished. */
  lemma RemoveAgreesExactly(f: string, s: string)
    requires s in LiveSet(f)
    ensures LiveSet(Removed(f, s)) == LiveSet(f) - {s}
       <==> multiset(Lines(f))[s] == 1 && (Terminated(f) || Lines(f)[|Lines(f)| - 1] != s)
  {
    hide Lines, Removed, FirstAt;
    var after := LiveSet(Removed(f, s));
    LiveAfterRemove(f, s, s);
    StrikesSingle(Lines(f), s);
    if s !in after {
      forall l
        ensures l in after <==> l in LiveSet(f) - {s}
      {
        if IsLive(l) {
          LiveAfterRemove(f, s, l);
        }
      }
    }
  }

  /** An entry that stands once stands last exactly when it is found last. */
  lemma StrikesSingle(ls: seq<string>, s: string)
    requires s in ls
    ensures multiset(ls)[s] >= 1
    ensures multiset(ls)[s] == 1 ==> (FirstAt(ls, s) == |ls| - 1 <==> ls[|ls| - 1] == s)
    ensures FirstAt(ls, s) == |ls| - 1 ==> ls[|ls| - 1] == s
  {
    var i, n := FirstAt(ls, s), |ls| - 1;
    assert s in multiset(ls);
    if i < n && ls[n] == s {
      assert ls == ls[..n] + [s];
      assert ls[..n][i] == s;
      assert s in multiset(ls[..n]);
    }
  }

  /** The empty string is the one entry whose removal is not confined to its own
      line: the byte overwritten is the newline, and the next line is joined. */
  lemma RemovingEmptyJoinsLines(t: string)
    requires Legal(t)
    ensures var f := ['\n'] + t + ['\n'];
            && Lines(f) == [[], t] && LiveSet(f) == {t}
            && LiveSet(Removed(f, [])) == {}
  {
    hide Lines;
    var f, g := ['\n'] + t + ['\n'], [VT] + t + ['\n'];
    assert f == [] + ['\n'] + (t + ['\n']) && t + ['\n'] == t + ['\n'] + [] && g == g + [];
    LinesCons([], t + ['\n']);
    LinesCons(t, []);
    LinesCons([VT] + t, []);
    NoLines();
    assert Lines(f) == [[], t] && FirstAt(Lines(f), []) == 0;
    assert Removed(f, []) == f[0 := VT] == g;
    assert Lines(g) == [[VT] + t];
  }

  lemma NoLines()
    ensures Lines([]) == []
  {
  }

  // --------------------------------------------------------------- compact

  /** The lines `compactFile` copies: every line that is not a tombstone. */
  function Kept(ls: seq<string>): (r: seq<string>)
    ensures forall l :: l in r <==> l in ls && !IsTombstone(l)
  {
    if ls == [] then []
    else if IsTombstone(ls[0]) then Kept(ls[1..])
    else [ls[0]] + Kept(ls[1..])
  }

  lemma {:induction false} KeptAppend(a: seq<string>, b: seq<string>)
    ensures Kept(a + b) == Kept(a) + Kept(b)
  {
    if a == [] {
      assert a + b == b;
    } else {
      KeptAppend(a[1..], b);
      assert (a + b)[1..] == a[1..] + b;
      Assoc([a[0]], Kept(a[1..]), Kept(b));
    }
  }

  function Compacted(f: string): string {
    Unlines(Kept(Lines(f)))
  }

  /** The bytes tombstones take, newline included. */
  function TombstoneBytes(ls: seq<string>): nat {
    if ls == [] then 0 else (if IsTombstone(ls[0]) then |ls[0]| + 1 else 0) + TombstoneBytes(ls[1..])
  }

  lemma {:induction false} LiveOfKept(ls: seq<string>)
    ensures Live(Kept(ls)) == Live(ls)
  {
    if ls != [] {
      LiveOfKept(ls[1..]);
      Cons(ls[0], Kept(ls[1..]));
    }
  }

  lemma {:induction false} KeptOfKept(ls: seq<string>)
    ensures Kept(Kept(ls)) == Kept(ls)
  {
    if ls != [] {
      KeptOfKept(ls[1..]);
      Cons(ls[0], Kept(ls[1..]));
    }
  }

  lemma {:induction false} KeptBytes(ls: seq<string>)
    ensures |Unlines(Kept(ls))| + TombstoneBytes(ls) == |Unlines(ls)|
  {
    if ls != [] {
      KeptBytes(ls[1..]);
      Cons(ls[0], Kept(ls[1..]));
    }
  }

  lemma {:induction false} KeptCounts(ls: seq<string>, l: string)
    requires IsLive(l)
    ensures multiset(Kept(ls))[l] == multiset(ls)[l]
  {
    if ls != [] {
      KeptCounts(ls[1..], l);
      assert ls == [ls[0]] + ls[1..];
    }
  }

  /** Compaction keeps the live entries in order, drops exactly the tombstones,
      finishes the last line, frees exactly their bytes, and is idempotent. */
  lemma CompactionMeaning(f: string)
    ensures Lines(Compacted(f)) == Kept(Lines(f))
    ensures Live(Lines(Compacted(f))) == Live(Lines(f)) && LiveSet(Compacted(f)) == LiveSet(f)
    ensures Terminated(Compacted(f)) && Compacted(Compacted(f)) == Compacted(f)
    ensures |Compacted(f)| + TombstoneBytes(Lines(f)) == |f| + (if Terminated(f) then 0 else 1)
    ensures SingleLive(f) ==> SingleLive(Compacted(f))
  {
    LinesHoldNoNewline(f);
    LinesOfUnlines(Kept(Lines(f)));
    LiveOfKept(Lines(f));
    KeptOfKept(Lines(f));
    KeptBytes(Lines(f));
    UnlinesOfLines(f);
    forall l | IsLive(l) {
      KeptCounts(Lines(f), l);
    }
  }

  // ------------------------------------------- an entry behind a finished front

  /** Finished lines with `t` among them, and no empty one unless `blanks`. */
  predicate Front(p: string, t: string, blanks: bool) {
    Terminated(p) && t in Lines(p) && (!blanks ==> [] !in Lines(p))
  }

  /** `t` stands in the file, on a finished line. */
  ghost predicate Guarded(f: string, t: string, blanks: bool) {
    exists k: nat :: k <= |f| && Front(f[..k], t, blanks)
  }

  lemma GuardedBy(p: string, q: string, t: string, blanks: bool)
    requires Front(p, t, blanks)
    ensures Guarded(p + q, t, blanks)
  {
    hide Front;
    assert (p + q)[..|p|] == p;
  }

  lemma FrontOf(f: string, t: string, blanks: bool) returns (p: string, q: string)
    requires Guarded(f, t, blanks)
    ensures f == p + q && Front(p, t, blanks)
  {
    hide Front;
    var k: nat :| k <= |f| && Front(f[..k], t, blanks);
    p, q := f[..k], f[k..];
  }

  lemma GuardedIsLive(f: string, t: string, blanks: bool)
    requires Guarded(f, t, blanks) && IsLive(t)
    ensures t in LiveSet(f)
  {
    hide Lines, Terminated;
    var p, q := FrontOf(f, t, blanks);
    LinesAppend(p, q);
  }

  lemma AppendGuards(f: string, t: string)
    requires Terminated(f) && Legal(t)
    ensures Guarded(Added(f, t), t, [] in Lines(f))
  {
    AddedLines(f, t);
    hide Lines, Terminated, Added;
    GuardedBy(Added(f, t), [], t, [] in Lines(f));
    assert Added(f, t) + [] == Added(f, t);
  }

  lemma AddedKeepsGuard(f: string, s: string, t: string, blanks: bool)
    requires Guarded(f, t, blanks)
    ensures Guarded(Added(f, s), t, blanks)
  {
    hide Front;
    var p, q := FrontOf(f, t, blanks);
    Assoc(p, q, s);
    Assoc(p, q + s, ['\n']);
    GuardedBy(p, q + s + ['\n'], t, blanks);
  }

  lemma {:induction false} OffsetAppend(a: seq<string>, b: seq<string>, i: nat)
    requires i <= |a|
    ensures Offset(a + b, i) == Offset(a, i)
  {
    if i > 0 {
      assert (a + b)[1..] == a[1..] + b;
      OffsetAppend(a[1..], b, i - 1);
    }
  }

  lemma {:induction false} OffsetBehind(a: seq<string>, b: seq<string>, i: nat)
    requires |a| <= i <= |a| + |b|
    ensures Offset(a + b, i) >= |Unlines(a)|
  {
    if a != [] {
      assert (a + b)[1..] == a[1..] + b;
      OffsetBehind(a[1..], b, i - 1);
    }
  }

  lemma {:induction false} FirstAtAppend(a: seq<string>, b: seq<string>, s: string)
    requires s in a
    ensures FirstAt(a + b, s) == FirstAt(a, s)
  {
    if a[0] != s {
      assert (a + b)[1..] == a[1..] + b;
      FirstAtAppend(a[1..], b, s);
    }
  }

  lemma FirstAtBehind(a: seq<string>, b: seq<string>, s: string)
    requires s !in a
    ensures FirstAt(a + b, s) >= |a|
  {
    assert forall j | 0 <= j < |a| :: (a + b)[j] == a[j] && a[j] in a;
  }

  lemma UpdateEarlier<T>(h: seq<T>, t: seq<T>, i: nat, x: T)
    requires i < |h|
    ensures (h + t)[i := x] == h[i := x] + t
  {
  }

  lemma UpdateBehind<T>(h: seq<T>, t: seq<T>, i: nat, x: T)
    requires |h| <= i < |h| + |t|
    ensures (h + t)[i := x] == h + t[i - |h| := x]
  {
  }

  lemma StrikesInFront(p: string, q: string, s: string)
    requires Terminated(p) && s in Lines(p)
    ensures Strikes(p, s) && Strikes(p + q, s)
    ensures FirstAt(Lines(p + q), s) == FirstAt(Lines(p), s)
    ensures Offset(Lines(p + q), FirstAt(Lines(p), s)) == Offset(Lines(p), FirstAt(Lines(p), s))
  {
    LinesAppend(p, q);
    SomeLines(q);
    hide Lines, Offset, FirstAt, Terminated;
    FirstAtAppend(Lines(p), Lines(q), s);
    OffsetAppend(Lines(p), Lines(q), FirstAt(Lines(p), s));
    assert q == [] ==> p + q == p;
  }

  lemma SomeLines(f: string)
    ensures f != [] ==> Lines(f) != []
  {
  }

  /** A removal that finds its line in front leaves the bytes behind alone, ... */
  lemma RemovedInFront(p: string, q: string, s: string)
    requires Terminated(p) && s in Lines(p)
    ensures Removed(p + q, s) == Removed(p, s) + q
  {
    hide Lines, Offset, FirstAt, Terminated, Strikes;
    StrikesInFront(p, q, s);
    var i := FirstAt(Lines(p), s);
    StrikesInside(p, s);
    UpdateEarlier(p, q, Offset(Lines(p), i), VT);
  }

  lemma StrikesInside(f: string, s: string)
    requires Strikes(f, s)
    ensures Offset(Lines(f), FirstAt(Lines(f), s)) < |f|
  {
    OffsetInside(f, FirstAt(Lines(f), s));
  }

  /** ... and one that does not leaves the bytes in front alone. */
  lemma RemovedBehind(p: string, q: string, s: string) returns (q': string)
    requires Terminated(p) && s !in Lines(p)
    ensures Removed(p + q, s) == p + q'
  {
    LinesAppend(p, q);
    FirstAtBehind(Lines(p), Lines(q), s);
    UnlinesOfLines(p);
    hide Lines, Offset, FirstAt, Terminated, Strikes, Unlines;
    q' := q;
    var i := FirstAt(Lines(p + q), s);
    if Strikes(p + q, s) {
      OffsetBehind(Lines(p), Lines(q), i);
      StrikesInside(p + q, s);
      UpdateBehind(p, q, Offset(Lines(p + q), i), VT);
      q' := q[Offset(Lines(p + q), i) - |p| := VT];
    }
  }

  lemma FrontAfterRemove(p: string, s: string, t: string, blanks: bool)
    requires Front(p, t, blanks) && IsLive(t) && s != t && s != []
    ensures Front(Removed(p, s), t, blanks)
  {
    RemovedLines(p, s);
    LiveAfterRemove(p, s, t);
    hide Lines, Removed, Strikes;
  }

  /** No removal of another string takes `t` with it, if the string is not empty
      or no empty line stands in front. */
  lemma RemovedKeepsGuard(f: string, s: string, t: string, blanks: bool)
    requires Guarded(f, t, blanks) && IsLive(t) && s != t && (blanks ==> s != [])
    ensures Guarded(Removed(f, s), t, blanks)
  {
    var p, q := FrontOf(f, t, blanks);
    hide Lines, Terminated, Removed, Guarded;
    if s in Lines(p) {
      RemovedInFront(p, q, s);
      FrontAfterRemove(p, s, t, blanks);
      GuardedBy(Removed(p, s), q, t, blanks);
    } else {
      var q' := RemovedBehind(p, q, s);
      GuardedBy(p, q', t, blanks);
    }
  }

  lemma CompactedKeepsGuard(f: string, t: string, blanks: bool)
    requires Guarded(f, t, blanks) && IsLive(t)
    ensures Guarded(Compacted(f), t, blanks)
  {
    var p, q := FrontOf(f, t, blanks);
    hide Lines, Terminated, Guarded;
    LinesAppend(p, q);
    KeptAppend(Lines(p), Lines(q));
    UnlinesAppend(Kept(Lines(p)), Kept(Lines(q)));
    CompactionMeaning(p);
    GuardedBy(Compacted(p), Compacted(q), t, blanks);
  }
}
