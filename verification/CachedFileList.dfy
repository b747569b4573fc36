/** The revocation list: a set of entries in memory over a file of lines. */
module CachedFileList {
  import opened Files
  import opened Text
  import opened RevocationFile

  /** The list as a value: what is on disk and what is in memory. */
  datatype ListState = ListState(present: bool, bytes: string, keys: set<string>) {

    function Add(s: string, opens: bool): ListState {
      if s in keys || !opens then this else ListState(true, Added(bytes, s), keys + {s})
    }

    function Remove(s: string, opens: bool): ListState {
      if s !in keys || !opens || !present then this
      else this.(bytes := Removed(bytes, s), keys := keys - {s})
    }

    function Compact(opens: bool): ListState {
      if !opens || !present then this else this.(bytes := Compacted(bytes))
    }

    function Reload(): ListState {
      this.(keys := LiveSet(bytes))
    }

    /** The memory holds what a fresh load of the file would. */
    predicate Agrees() {
      keys == LiveSet(bytes)
    }

    predicate Sound() {
      && (present || bytes == [])
      && Terminated(bytes)
      && SingleLive(bytes)
      && Agrees()
    }
  }

  /** One operation. */
  datatype Op =
    | Add(s: string, opens: bool)
    | Remove(s: string, opens: bool)
    | Compact(opens: bool)
    | Reload

  function Apply(st: ListState, op: Op): ListState {
    match op
    case Add(s, opens) => st.Add(s, opens)
    case Remove(s, opens) => st.Remove(s, opens)
    case Compact(opens) => st.Compact(opens)
    case Reload => st.Reload()
  }

  function Run(st: ListState, ops: seq<Op>): ListState
    decreases |ops|
  {
    if ops == [] then st else Run(Apply(st, ops[0]), ops[1..])
  }

  lemma AddIsSound(st: ListState, s: string, opens: bool)
    requires st.Sound() && Legal(s)
    ensures st.Add(s, opens).Sound()
  {
    var st' := st.Add(s, opens);
    if st' != st {
      AddAgreesExactly(st.bytes, s);
      AddedLines(st.bytes, s);
      LiveMembers(st.bytes);
      var ls, ls' := Lines(st.bytes), Lines(st'.bytes);
      assert multiset(ls') == multiset(ls) + multiset{s};
      forall l | l in ls' && IsLive(l)
        ensures multiset(ls')[l] == 1
      {
        assert l in multiset(ls');
        assert l in ls <==> l in multiset(ls);
      }
    }
  }

  lemma RemoveIsSound(st: ListState, s: string, opens: bool)
    requires st.Sound()
    ensures st.Remove(s, opens).Sound()
  {
    var st' := st.Remove(s, opens);
    if st' != st {
      RemoveAgreesExactly(st.bytes, s);
      RemovedLines(st.bytes, s);
      var ls, ls', i := Lines(st.bytes), Lines(st'.bytes), FirstAt(Lines(st.bytes), s);
      assert multiset(ls') == multiset(ls) - multiset{s} + multiset{Tombstone(s)};
      forall l | l in ls' && IsLive(l)
        ensures multiset(ls')[l] == 1
      {
        assert l in multiset(ls');
        assert l in ls <==> l in multiset(ls);
      }
    }
  }

  lemma NoFileNoKeys(st: ListState)
    requires st.Sound()
    ensures st.present || st.keys == {}
  {
    assert Lines([]) == [];
  }

  lemma CompactIsSound(st: ListState, opens: bool)
    requires st.Sound()
    ensures st.Compact(opens).Sound() && st.keys == LiveSet(st.Compact(opens).bytes)
    ensures opens ==> forall l <- Lines(st.Compact(opens).bytes) :: !IsTombstone(l)
  {
    CompactionMeaning(st.bytes);
    if !st.present {
      assert Lines([]) == [];
    }
  }

  /** Cache and disk agree after every operation of every run that adds only
      legal entries, whichever opens fail. */
  lemma {:induction false} RunIsSound(st: ListState, ops: seq<Op>)
    requires st.Sound()
    requires forall op <- ops :: op.Add? ==> Legal(op.s)
    ensures Run(st, ops).Sound()
    ensures Run(st, ops).Reload() == Run(st, ops)
    decreases |ops|
  {
    if ops != [] {
      match ops[0] {
        case Add(s, opens) => AddIsSound(st, s, opens);
        case Remove(s, opens) => RemoveIsSound(st, s, opens);
        case Compact(opens) => CompactIsSound(st, opens);
        case Reload =>
      }
      RunIsSound(Apply(st, ops[0]), ops[1..]);
    }
  }

  /** The scan of `remove`: no line so far has matched, and `pos` is the byte
      offset of the line just read. */
  ghost predicate Scanning(was: string, str: string, done: seq<string>, pos: int, got: Read) {
    && Reading(was, done, got) && str !in done && pos == Offset(done, |done|)
    && (got.from.fail ==> Removed(was, str) == was)
  }

  lemma ScanStarts(was: string, str: string)
    ensures Scanning(was, str, [], 0, GetLine(Open(was), '\n', ""))
  {
    ReadingStarts(was);
  }

  lemma ScanHit(was: string, str: string, done: seq<string>, pos: int, got: Read)
    requires Scanning(was, str, done, pos, got) && !got.from.fail && got.text == str
    ensures if got.from.eof then Removed(was, str) == was
            else 0 <= pos < |was| && Removed(was, str) == was[pos := VT]
  {
    FirstAtAppend(done, str, Lines(got.from.rest));
    OffsetAppend(done, Pending(got));
    assert Lines(was) == done + ([str] + Lines(got.from.rest));
    if !got.from.eof && got.from.rest == [] {
      assert Terminated(was);
    }
    if !got.from.eof {
      OffsetInside(was, |done|);
    }
  }

  lemma ScanGoesOn(was: string, str: string, done: seq<string>, pos: int, got: Read)
    requires Scanning(was, str, done, pos, got) && !got.from.fail && got.text != str
    ensures Scanning(was, str, done + [got.text], pos + |got.text| + 1, GetLine(got.from, '\n', got.text))
  {
    hide Offset, GetLine, FirstAt;
    ReadingGoesOn(was, done, got);
    OffsetStep(done, got.text);
    assert str !in done + [got.text];
    if GetLine(got.from, '\n', got.text).from.fail {
      ReadingEnds(was, done + [got.text], GetLine(got.from, '\n', got.text));
    }
  }

  /** When the scan ends without a match, there is nothing to strike out. */
  lemma ScanMiss(was: string, str: string, done: seq<string>, pos: int, got: Read)
    requires Scanning(was, str, done, pos, got)
    ensures got.from.fail ==> Removed(was, str) == was
  {
  }

  lemma FirstAtAppend(done: seq<string>, s: string, more: seq<string>)
    requires s !in done
    ensures FirstAt(done + ([s] + more), s) == |done|
  {
    var all := done + ([s] + more);
    assert all[|done|] == s && all[..|done|] == done;
    assert forall j | 0 <= j < |done| :: all[j] == done[j] && done[j] in done;
  }

  lemma {:induction false} OffsetAppend(a: seq<string>, b: seq<string>)
    ensures Offset(a + b, |a|) == Offset(a, |a|)
  {
    if a != [] {
      OffsetAppend(a[1..], b);
      assert (a + b)[1..] == a[1..] + b;
    }
  }

  lemma {:induction false} OffsetStep(a: seq<string>, l: string)
    ensures Offset(a + [l], |a| + 1) == Offset(a, |a|) + |l| + 1
  {
    if a != [] {
      OffsetStep(a[1..], l);
      assert (a + [l])[1..] == a[1..] + [l];
    }
  }

  lemma KeysWithout(m: map<string, bool>, k: string)
    ensures (m - {k}).Keys == m.Keys - {k}
  {
  }

  class CachedFileList {
    var cache: map<string, bool>
    const file: File

    function State(): ListState
      reads this, file
    {
      ListState(file.present, file.bytes, cache.Keys)
    }

    constructor (file: File)
      requires file.present || file.bytes == []
      ensures this.file == file
      ensures State() == ListState(file.present, file.bytes, {}).Reload()
    {
      this.file := file;
      cache := map[];
      new;
      PopulateCacheFromFile();
    }

    method PopulateCacheFromFile()
      requires file.present || file.bytes == []
      modifies this`cache
      ensures cache.Keys == old(cache.Keys) + LiveSet(file.bytes)
    {
      if !file.present {
        return;
      }
      var got := GetLine(Open(file.bytes), '\n', "");
      ghost var done: seq<string> := [];
      ReadingStarts(file.bytes);
      while !got.from.fail
        invariant Reading(file.bytes, done, got)
        invariant cache.Keys == old(cache.Keys) + LiveIn(done)
        decreases if got.from.fail then 0 else 1 + |got.from.rest|
      {
        var line := got.text;
        if line != [] && line[0] != VT {
          cache := cache[line := true];
        }
        ReadingGoesOn(file.bytes, done, got);
        LiveInAppend(done, line);
        got := GetLine(got.from, '\n', line);
        done := done + [line];
      }
      ReadingEnds(file.bytes, done, got);
    }

    method Add(str: string, opens: bool)
      modifies this`cache, file
      ensures State() == old(State()).Add(str, opens)
    {
      if str in cache {
        return;
      }
      if opens {
        file.present, file.bytes := true, file.bytes + str + ['\n'];
        cache := cache[str := true];
      }
    }

    method Remove(str: string, opens: bool)
      modifies this`cache, file`bytes
      ensures State() == old(State()).Remove(str, opens)
    {
      if str !in cache || !file.present || !opens {
        return;
      }
      StrikeOut(str);
      KeysWithout(cache, str);
      cache := cache - {str};
    }

    /** The scan of `remove`, and its one-byte write. */
    method StrikeOut(str: string)
      modifies file`bytes
      ensures file.bytes == Removed(old(file.bytes), str)
    {
      ghost var was := file.bytes;
      ghost var done: seq<string> := [];
      var got := GetLine(Open(file.bytes), '\n', "");
      var pos := 0;
      ScanStarts(was, str);
      ScanMiss(was, str, done, pos, got);
      hide *;
      while !got.from.fail
        invariant file.bytes == was && Scanning(was, str, done, pos, got)
        decreases if got.from.fail then 0 else 1 + |got.from.rest|
      {
        if got.text == str {
          ScanHit(was, str, done, pos, got);
          if !got.from.eof {  // a stream that has met the end of the file does not write
            file.bytes := file.bytes[pos := VT];
          }
          break;
        }
        ScanGoesOn(was, str, done, pos, got);
        done := done + [got.text];
        pos := pos + |got.text| + 1;
        got := GetLine(got.from, '\n', got.text);
        ScanMiss(was, str, done, pos, got);
      }
    }

    method Find(str: string) returns (found: bool)
      ensures found <==> str in State().keys
    {
      found := str in cache;
    }

    /** Every key once, in the order of the hash map, which is not specified. */
    method GetAll() returns (result: seq<string>)
      ensures multiset(result) == multiset(State().keys)
    {
      result := [];
      var left := cache.Keys;
      while left != {}
        invariant left <= cache.Keys
        invariant multiset(result) + multiset(left) == multiset(cache.Keys)
        decreases left
      {
        var key :| key in left;
        result := result + [key];
        left := left - {key};
      }
    }

    method CompactFile(opens: bool, tempOpens: bool)
      modifies file`bytes
      ensures State() == old(State()).Compact(opens && tempOpens)
    {
      if !opens || !file.present || !tempOpens {
        return;
      }
      var temp := "";
      var got := GetLine(Open(file.bytes), '\n', "");
      ghost var done: seq<string> := [];
      ReadingStarts(file.bytes);
      while !got.from.fail
        invariant file.bytes == old(file.bytes)
        invariant Reading(file.bytes, done, got)
        invariant temp == Unlines(Kept(done))
        decreases if got.from.fail then 0 else 1 + |got.from.rest|
      {
        var line := got.text;
        if line == [] || line[0] != VT {
          temp := temp + line + ['\n'];
        }
        CopyLine(done, line);
        ReadingGoesOn(file.bytes, done, got);
        got := GetLine(got.from, '\n', line);
        done := done + [line];
      }
      ReadingEnds(file.bytes, done, got);
      file.bytes := temp;
    }

    lemma CopyLine(done: seq<string>, line: string)
      ensures var before := Unlines(Kept(done));
              Unlines(Kept(done + [line])) == if IsTombstone(line) then before else before + line + ['\n']
    {
      KeptAppend(done, [line]);
      UnlinesAppend(Kept(done), Kept([line]));
      assert Kept([]) == [] && Unlines([]) == [];
      Assoc(Unlines(Kept(done)), line, ['\n']);
      assert line + ['\n'] + [] == line + ['\n'];
    }
  }
}
