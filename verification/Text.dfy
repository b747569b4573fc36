/** Strings, substring search and input streams, as the C++ standard library
    defines them for the functions the repository calls. */
module Text {

  datatype Option<+T> = None | Some(value: T)

  datatype Result<+T, +E> = Success(value: T) | Failure(error: E)

  const VT: char := '\U{000b}'
  const FF: char := '\U{000c}'

  // ------------------------------------------------- sequences, by equation

  lemma Assoc<T>(a: seq<T>, b: seq<T>, c: seq<T>)
    ensures a + b + c == a + (b + c)
  {
  }

  lemma Cons<T>(h: T, t: seq<T>)
    ensures ([h] + t)[0] == h && ([h] + t)[1..] == t
  {
  }

  predicate Distinct<T(==)>(s: seq<T>) {
    forall i, j | 0 <= i < j < |s| :: s[i] != s[j]
  }

  /** `std::find` on a vector: the index of the first match, or the length. */
  function FirstAt(ls: seq<string>, s: string): (i: nat)
    ensures i <= |ls| && s !in ls[..i]
    ensures i < |ls| ==> ls[i] == s
    ensures s in ls ==> i < |ls|
  {
    if ls == [] || ls[0] == s then 0 else 1 + FirstAt(ls[1..], s)
  }

  // ---------------------------------------------------------------- search

  predicate OccursAt(s: string, d: string, i: nat) {
    i + |d| <= |s| && s[i..i + |d|] == d
  }

  /** `s.find(d, from)`: the leftmost occurrence at or after `from`. */
  function FindFrom(s: string, d: string, from: nat): (r: Option<nat>)
    ensures r.Some? ==> from <= r.value && OccursAt(s, d, r.value)
    ensures forall j: nat :: from <= j && (r.Some? ==> j < r.value) ==> !OccursAt(s, d, j)
    decreases |s| - from
  {
    if from + |d| > |s| then None
    else if OccursAt(s, d, from) then Some(from)
    else FindFrom(s, d, from + 1)
  }

  /** What `FindFrom` promises determines it. */
  lemma FindIs(s: string, d: string, from: nat, k: nat)
    requires from <= k && OccursAt(s, d, k)
    requires forall j: nat :: from <= j < k ==> !OccursAt(s, d, j)
    ensures FindFrom(s, d, from) == Some(k)
  {
    var r := FindFrom(s, d, from);
    assert r.Some?;
    if r.value < k { assert false; }
  }

  /** An occurrence in the second half of a concatenation, by its offset there. */
  lemma OccursInSuffix(p: string, s: string, d: string, i: nat)
    ensures OccursAt(p + s, d, |p| + i) <==> OccursAt(s, d, i)
  {
    if i + |d| <= |s| {
      assert (p + s)[|p| + i..|p| + i + |d|] == s[i..i + |d|];
    }
  }

  /** An occurrence that ends inside the first half of a concatenation. */
  lemma OccursInPrefix(p: string, s: string, d: string, i: nat)
    requires i + |d| <= |p|
    ensures OccursAt(p + s, d, i) <==> OccursAt(p, d, i)
  {
    assert (p + s)[i..i + |d|] == p[i..i + |d|];
  }

  /** Searching past a prefix is searching the rest. */
  lemma FindInSuffix(p: string, s: string, d: string, i: nat)
    ensures FindFrom(p + s, d, |p| + i)
         == (match FindFrom(s, d, i) case None => None case Some(k) => Some(|p| + k))
  {
    hide OccursAt, FindFrom;
    var all, n := p + s, |p|;
    forall j: nat
      ensures OccursAt(all, d, n + j) <==> OccursAt(s, d, j)
    {
      OccursInSuffix(p, s, d, j);
    }
    var r, q := FindFrom(s, d, i), FindFrom(all, d, n + i);
    if r.Some? {
      assert OccursAt(all, d, n + r.value);
    }
    if q.Some? {
      assert OccursAt(s, d, q.value - n);
      assert OccursAt(all, d, n + (q.value - n));
    }
    if r.Some? && q.Some? {
      assert r.value <= q.value - n <= r.value;
    }
  }

  /** The offset of the first `c`, or the length when there is none. */
  function IndexOf(s: string, c: char): (k: nat)
    ensures k <= |s| && c !in s[..k]
    ensures k < |s| ==> s[k] == c
  {
    if s == [] || s[0] == c then 0 else 1 + IndexOf(s[1..], c)
  }

  lemma IndexOfIs(l: string, c: char, rest: string)
    requires c !in l
    ensures IndexOf(l + [c] + rest, c) == |l|
    ensures IndexOf(l, c) == |l|
  {
    var s := l + [c] + rest;
    assert s[|l|] == c && s[..|l|] == l;
    assert forall i | 0 <= i < |l| :: s[i] == l[i];
  }

  // --------------------------------------------------------------- streams

  /** An input stream: the characters not yet read, and the two state bits. */
  datatype Stream = Stream(rest: string, eof: bool, fail: bool) {
    predicate Good() {
      !eof && !fail
    }
  }

  function Open(s: string): Stream {
    Stream(s, false, false)
  }

  datatype Read = Read(text: string, from: Stream)

  /** `std::getline(stream, line, delim)`. A stream that is not good leaves the
      line as it was; an exhausted one empties it; both set the fail bit. */
  function GetLine(st: Stream, delim: char, line: string): (r: Read)
    ensures |r.from.rest| <= |st.rest|
    ensures st.Good() && st.rest != [] ==> |r.from.rest| < |st.rest|
    ensures r.from.fail <==> !(st.Good() && st.rest != [])
    ensures !r.from.fail && r.from.eof ==> r.from.rest == []
  {
    if !st.Good() then Read(line, st.(fail := true))
    else if st.rest == [] then Read("", Stream([], true, true))
    else
      var k := IndexOf(st.rest, delim);
      if k == |st.rest| then Read(st.rest, Stream([], true, false))
      else Read(st.rest[..k], Stream(st.rest[k + 1..], false, false))
  }

  predicate IsSpace(c: char) {
    c in {' ', '\t', '\n', VT, FF, '\r'}
  }

  /** The number of leading characters that are, or are not, white space. */
  function SpanSpace(s: string, space: bool): (k: nat)
    ensures k <= |s| && (forall i :: 0 <= i < k ==> IsSpace(s[i]) == space)
    ensures k < |s| ==> IsSpace(s[k]) != space
  {
    if s == [] || IsSpace(s[0]) != space then 0 else 1 + SpanSpace(s[1..], space)
  }

  lemma SpanSpaceIs(s: string, space: bool, k: nat)
    requires k <= |s| && (forall i :: 0 <= i < k ==> IsSpace(s[i]) == space)
    requires k < |s| ==> IsSpace(s[k]) != space
    ensures SpanSpace(s, space) == k
  {
  }

  /** Blanks, and the control characters from tab to carriage return. */
  predicate AllSpace(gap: string) {
    forall c <- gap :: c == ' ' || '\t' <= c <= '\r'
  }

  lemma SpacesAre(gap: string)
    ensures AllSpace(gap) <==> forall c <- gap :: IsSpace(c)
  {
    forall c: char
      ensures IsSpace(c) <==> c == ' ' || '\t' <= c <= '\r'
    {
      assert '\t' as int == 9 && VT as int == 11 && FF as int == 12 && '\r' as int == 13 && '\n' as int == 10;
      assert c as int == 9 ==> c == '\t';
      assert c as int == 10 ==> c == '\n';
      assert c as int == 11 ==> c == VT;
      assert c as int == 12 ==> c == FF;
      assert c as int == 13 ==> c == '\r';
    }
  }

  /** The white space in front of a word is what there is to skip. */
  lemma SpanGap(gap: string, s: string)
    requires AllSpace(gap) && s != [] && !IsSpace(s[0])
    ensures SpanSpace(gap + s, true) == |gap| && (gap + s)[|gap|..] == s
  {
    SpacesAre(gap);
    assert forall i | 0 <= i < |gap| :: (gap + s)[i] == gap[i] && gap[i] in gap;
    hide IsSpace, AllSpace;
    SpanSpaceIs(gap + s, true, |gap|);
  }

  /** One blank, or none. */
  lemma BlankIsSpace()
    ensures AllSpace([]) && AllSpace([' '])
  {
  }

  /** `stream >> word` for a string: skip white space, take up to the next. */
  function GetWord(st: Stream, word: string): (r: Read)
    ensures |r.from.rest| <= |st.rest|
    ensures !r.from.fail ==> r.text != [] && forall c <- r.text :: !IsSpace(c)
    ensures r.from.fail ==> r.text == word && !r.from.Good()
    ensures !st.Good() ==> r.from.fail
  {
    if !st.Good() then Read(word, st.(fail := true))
    else
      var s := st.rest[SpanSpace(st.rest, true)..];
      if s == [] then Read(word, Stream([], true, true))
      else
        var k := SpanSpace(s, false);
        Read(s[..k], Stream(s[k..], k == |s|, false))
  }

  /** The words of a text: its longest runs of characters that are not white
      space. */
  function Words(s: string): (ws: seq<string>)
    decreases |s|
  {
    if s == [] then []
    else if IsSpace(s[0]) then Words(s[1..])
    else
      var k := SpanSpace(s, false);
      [s[..k]] + Words(s[k..])
  }

  predicate IsWord(w: string) {
    w != [] && forall c <- w :: !IsSpace(c)
  }

  lemma {:induction false} WordsSkip(gap: string, s: string)
    requires AllSpace(gap)
    ensures Words(gap + s) == Words(s)
  {
    SpacesAre(gap);
    hide IsSpace;
    if gap == [] {
      assert gap + s == s;
    } else {
      assert gap[0] in gap && forall c <- gap[1..] :: c in gap;
      assert (gap + s)[1..] == gap[1..] + s;
      WordsSkip(gap[1..], s);
    }
  }

  lemma WordsTake(w: string, rest: string)
    requires IsWord(w) && (rest != [] ==> IsSpace(rest[0]))
    ensures Words(w + rest) == [w] + Words(rest)
  {
    assert forall i | 0 <= i < |w| :: (w + rest)[i] == w[i] && w[i] in w;
    SpanSpaceIs(w + rest, false, |w|);
    assert (w + rest)[..|w|] == w && (w + rest)[|w|..] == rest;
    hide IsSpace;
  }

  /** White space, one character of it at least. */
  predicate Separates(gap: string) {
    gap != [] && AllSpace(gap)
  }

  lemma WordsOfThree(g: string, a: string, g': string, b: string, g'': string, c: string, rest: string)
    requires AllSpace(g) && Separates(g') && Separates(g'') && IsWord(a) && IsWord(b) && IsWord(c)
    requires rest != [] ==> IsSpace(rest[0])
    ensures Words(g + (a + (g' + (b + (g'' + (c + rest)))))) == [a] + ([b] + ([c] + Words(rest)))
  {
    SpacesAre(g');
    SpacesAre(g'');
    assert g'[0] in g' && g''[0] in g'';
    hide Words, IsSpace, AllSpace;
    WordsTake(c, rest);
    WordsSkip(g'', c + rest);
    WordsTake(b, g'' + (c + rest));
    WordsSkip(g', b + (g'' + (c + rest)));
    WordsTake(a, g' + (b + (g'' + (c + rest))));
    WordsSkip(g, a + (g' + (b + (g'' + (c + rest)))));
  }

  /** A stream only fails at its end, and has nothing left there. */
  predicate Sane(st: Stream) {
    (st.fail ==> st.eof) && (st.eof ==> st.rest == [])
  }

  /** One `>>` takes exactly the first word, if there is one. */
  lemma GetWordTakesOne(st: Stream, word: string)
    requires Sane(st)
    ensures var r := GetWord(st, word);
            && Sane(r.from)
            && if Words(st.rest) == [] then r.text == word && r.from.fail && Words(r.from.rest) == []
               else r.text == Words(st.rest)[0] && !r.from.fail && Words(r.from.rest) == Words(st.rest)[1..]
  {
    assert Words([]) == [];
    if st.Good() {
      var n := SpanSpace(st.rest, true);
      var gap, s := st.rest[..n], st.rest[n..];
      assert st.rest == gap + s;
      WordsSkip(gap, s);
      if s != [] {
        var k := SpanSpace(s, false);
        assert s == s[..k] + s[k..];
        WordsTake(s[..k], s[k..]);
      }
    }
  }

  // ----------------------------------------------------------------- lines

  /** The lines `while (getline(stream, line))` goes through. */
  function Lines(s: string): (ls: seq<string>)
    decreases |s|
  {
    if s == [] then []
    else
      var k := IndexOf(s, '\n');
      if k == |s| then [s] else [s[..k]] + Lines(s[k + 1..])
  }

  lemma {:induction false} LinesHoldNoNewline(s: string)
    ensures forall l <- Lines(s) :: '\n' !in l
    decreases |s|
  {
    if s != [] {
      var k := IndexOf(s, '\n');
      if k < |s| {
        LinesHoldNoNewline(s[k + 1..]);
      }
    }
  }

  predicate Terminated(s: string) {
    s != [] ==> s[|s| - 1] == '\n'
  }

  /** Each line followed by a newline, as `out << line << std::endl` writes them. */
  function Unlines(ls: seq<string>): (s: string)
    ensures Terminated(s)
  {
    if ls == [] then [] else ls[0] + ['\n'] + Unlines(ls[1..])
  }

  lemma LinesCons(l: string, rest: string)
    requires '\n' !in l
    ensures Lines(l + ['\n'] + rest) == [l] + Lines(rest)
  {
    IndexOfIs(l, '\n', rest);
    var s := l + ['\n'] + rest;
    assert s[..|l|] == l && s[|l| + 1..] == rest;
  }

  lemma LinesLast(l: string)
    requires '\n' !in l && l != []
    ensures Lines(l) == [l]
  {
    IndexOfIs(l, '\n', []);
  }

  /** One `getline` takes one line off `Lines`. */
  lemma GetLineTakesOne(st: Stream, line: string)
    requires st.Good() && st.rest != []
    ensures var r := GetLine(st, '\n', line);
            && Lines(st.rest) == [r.text] + Lines(r.from.rest)
            && (r.from.eof ==> st.rest == r.text && !Terminated(st.rest))
            && (!r.from.eof ==> st.rest == r.text + ['\n'] + r.from.rest)
            && '\n' !in r.text
  {
    var k := IndexOf(st.rest, '\n');
    if k < |st.rest| {
      assert st.rest == st.rest[..k] + ['\n'] + st.rest[k + 1..];
    } else {
      assert st.rest[..k] == st.rest;
      assert Lines([]) == [];
    }
  }

  lemma GetLineIs(l: string, delim: char, rest: string, line: string)
    requires delim !in l
    ensures GetLine(Open(l + [delim] + rest), delim, line) == Read(l, Stream(rest, false, false))
    ensures l != [] ==> GetLine(Open(l), delim, line) == Read(l, Stream([], true, false))
  {
    IndexOfIs(l, delim, rest);
    var s := l + [delim] + rest;
    assert s[..|l|] == l && s[|l| + 1..] == rest;
  }

  lemma GetLineMembers(st: Stream, delim: char, line: string)
    ensures var r := GetLine(st, delim, line);
            && (st.Good() ==> delim !in r.text && forall c <- r.text :: c in st.rest)
            && (!st.Good() ==> r.text == line)
            && (forall c <- r.from.rest :: c in st.rest)
  {
    if st.Good() && st.rest != [] {
      var k := IndexOf(st.rest, delim);
      if k == |st.rest| {
        assert st.rest[..k] == st.rest;
      }
    }
  }

  /** The lines a loop over `getline` has still to see, the current one first. */
  function Pending(got: Read): seq<string> {
    if got.from.fail then [] else [got.text] + Lines(got.from.rest)
  }

  lemma PendingAtOpen(s: string, line: string)
    ensures Pending(GetLine(Open(s), '\n', line)) == Lines(s)
  {
    if s != [] {
      GetLineTakesOne(Open(s), line);
    }
  }

  lemma PendingStep(got: Read)
    requires !got.from.fail && (got.from.eof ==> got.from.rest == [])
    ensures Pending(got) == [got.text] + Pending(GetLine(got.from, '\n', got.text))
  {
    if got.from.rest != [] {
      GetLineTakesOne(got.from, got.text);
    }
  }

  /** Where a loop over the lines of `s` stands, with `done` behind it. */
  ghost predicate Reading(s: string, done: seq<string>, got: Read) {
    && Lines(s) == done + Pending(got)
    && (!got.from.fail && got.from.eof ==> got.from.rest == [] && !Terminated(s))
    && (!got.from.fail && !got.from.eof ==> (Terminated(s) <==> Terminated(got.from.rest)))
  }

  lemma ReadingStarts(s: string)
    ensures Reading(s, [], GetLine(Open(s), '\n', ""))
  {
    PendingAtOpen(s, "");
    if s != [] {
      GetLineTakesOne(Open(s), "");
    }
  }

  lemma ReadingGoesOn(s: string, done: seq<string>, got: Read)
    requires Reading(s, done, got) && !got.from.fail
    ensures Reading(s, done + [got.text], GetLine(got.from, '\n', got.text))
  {
    PendingStep(got);
    var next := GetLine(got.from, '\n', got.text);
    Assoc(done, [got.text], Pending(next));
    if got.from.rest != [] {
      GetLineTakesOne(got.from, got.text);
    }
  }

  lemma ReadingEnds(s: string, done: seq<string>, got: Read)
    requires Reading(s, done, got) && got.from.fail
    ensures done == Lines(s)
  {
  }

  /** How a text splits at its first newline. */
  lemma FirstLine(s: string) returns (l: string, rest: string)
    requires s != []
    ensures '\n' !in l && |rest| < |s|
    ensures '\n' in s ==>
              && s == l + ['\n'] + rest && Lines(s) == [l] + Lines(rest)
              && (Terminated(s) <==> Terminated(rest))
    ensures '\n' !in s ==> l == s && rest == [] && Lines(s) == [l] && !Terminated(s)
  {
    hide Lines;
    var k := IndexOf(s, '\n');
    l, rest := s[..k], if k < |s| then s[k + 1..] else [];
    if k < |s| {
      assert s == l + ['\n'] + rest;
      LinesCons(l, rest);
    } else {
      assert l == s;
      LinesLast(s);
    }
  }

  lemma {:induction false} LinesOfUnlines(ls: seq<string>)
    requires forall l <- ls :: '\n' !in l
    ensures Lines(Unlines(ls)) == ls
  {
    if ls != [] {
      LinesOfUnlines(ls[1..]);
      LinesCons(ls[0], Unlines(ls[1..]));
    }
  }

  lemma {:induction false} UnlinesOfLines(s: string)
    ensures Unlines(Lines(s)) == if Terminated(s) then s else s + ['\n']
    decreases |s|, 1
  {
    if s != [] {
      UnlinesOfLinesStep(s);
    } else {
      assert Lines([]) == [];
    }
  }

  lemma {:induction false} UnlinesOfLinesStep(s: string)
    requires s != []
    ensures Unlines(Lines(s)) == if Terminated(s) then s else s + ['\n']
    decreases |s|, 0
  {
    hide Lines;
    var l, rest := FirstLine(s);
    UnlinesOfLines(rest);
    if '\n' in s {
      Cons(l, Lines(rest));
      Assoc(l + ['\n'], rest, ['\n']);
    } else {
      assert [l][1..] == [] && Unlines([]) == [];
      assert l + ['\n'] + [] == l + ['\n'];
    }
  }

  lemma {:induction false} UnlinesAppend(a: seq<string>, b: seq<string>)
    ensures Unlines(a + b) == Unlines(a) + Unlines(b)
  {
    if a == [] {
      assert a + b == b;
    } else {
      UnlinesAppend(a[1..], b);
      assert (a + b)[1..] == a[1..] + b;
      Assoc(a[0] + ['\n'], Unlines(a[1..]), Unlines(b));
    }
  }

  /** Appending after a terminated text adds lines and changes none. */
  lemma {:induction false} LinesAppend(s: string, t: string)
    requires Terminated(s)
    ensures Lines(s + t) == Lines(s) + Lines(t)
    decreases |s|
  {
    if s == [] {
      assert s + t == t;
    } else {
      assert '\n' in s by {
        assert s[|s| - 1] in s;
      }
      var l, rest := FirstLine(s);
      LinesAppend(rest, t);
      LinesAppendStep(l, rest, t);
    }
  }

  lemma LinesAppendStep(l: string, rest: string, t: string)
    requires '\n' !in l
    requires Lines(rest + t) == Lines(rest) + Lines(t)
    ensures Lines(l + ['\n'] + rest + t) == Lines(l + ['\n'] + rest) + Lines(t)
  {
    LinesCons(l, rest);
    LinesCons(l, rest + t);
    Assoc(l + ['\n'], rest, t);
    Assoc([l], Lines(rest), Lines(t));
  }
}
