/** The second token list: a sorted vector, written out and read back on every
    change. */
module MappedListFile {
  import opened Files
  import opened Lex
  import opened Text

  // ------------------------------------------------------- the list, by value

  function NonEmpty(ls: seq<string>): (r: seq<string>)
    ensures forall l :: l in r <==> l in ls && l != []
  {
    if ls == [] then []
    else if ls[0] == [] then NonEmpty(ls[1..])
    else [ls[0]] + NonEmpty(ls[1..])
  }

  /** What a load makes of a file. */
  function Loaded(bytes: string): seq<string> {
    Sort(NonEmpty(Lines(bytes)))
  }

  datatype MappedState = MappedState(bytes: string, list: seq<string>) {

    /** Load the file again. An empty file is not mapped, and the vector is left
        as it is. */
    function Reloaded(): MappedState {
      if bytes == [] then this else this.(list := Loaded(bytes))
    }

    function WriteBack(newList: seq<string>): MappedState {
      MappedState(Unlines(newList), newList).Reloaded()
    }

    function Add(v: string): MappedState {
      WriteBack(With(list, v))
    }

    function Remove(v: string): MappedState {
      WriteBack(Without(list, v))
    }

    function RemoveList(vs: seq<string>): MappedState {
      WriteBack(WithoutAll(list, vs))
    }
  }

  /** Insert at the lower bound, unless that is the value already. */
  function With(list: seq<string>, v: string): seq<string> {
    var k := LowerBound(list, v, 0, |list|);
    if k == |list| || list[k] != v then list[..k] + [v] + list[k..] else list
  }

  /** Erase the first match. */
  function Without(list: seq<string>, v: string): seq<string> {
    var i := FirstAt(list, v);
    if i < |list| then list[..i] + list[i + 1..] else list
  }

  function WithoutAll(list: seq<string>, vs: seq<string>): (r: seq<string>)
    ensures forall l :: l in r <==> l in list && l !in vs
  {
    if list == [] then []
    else if list[0] in vs then WithoutAll(list[1..], vs)
    else [list[0]] + WithoutAll(list[1..], vs)
  }

  // ------------------------------------------------------------- invariants

  predicate IsEntry(l: string) {
    l != [] && '\n' !in l
  }

  predicate AllEntries(list: seq<string>) {
    forall l <- list :: IsEntry(l)
  }

  lemma {:induction false} NonEmptyOfEntries(ls: seq<string>)
    requires [] !in ls
    ensures NonEmpty(ls) == ls
  {
    if ls != [] {
      assert ls[0] in ls;
      assert forall l <- ls[1..] :: l in ls;
      NonEmptyOfEntries(ls[1..]);
      assert ls == [ls[0]] + ls[1..];
    }
  }

  lemma LoadedIsSorted(bytes: string)
    ensures Sorted(Loaded(bytes)) && AllEntries(Loaded(bytes))
  {
    LinesHoldNoNewline(bytes);
    SortMembers(NonEmpty(Lines(bytes)));
    hide Lines, NonEmpty, Sort, Sorted;
  }

  /** Writing a sorted list of entries, loading it and sorting is the identity,
      on the empty list too, where the load returns early. */
  lemma WriteBackIsIdentity(list: seq<string>)
    requires Sorted(list) && AllEntries(list)
    ensures Loaded(Unlines(list)) == list
    ensures forall st: MappedState :: st.WriteBack(list) == MappedState(Unlines(list), list)
  {
    LinesOfUnlines(list);
    NonEmptyOfEntries(list);
    SortOfSorted(list);
  }

  /** The lower bound of a value that is there stands on that value. */
  lemma BoundOfPresent(list: seq<string>, v: string)
    requires Sorted(list) && v in list
    ensures var k := LowerBound(list, v, 0, |list|); k < |list| && list[k] == v
  {
    var j :| 0 <= j < |list| && list[j] == v;
    hide Sorted, Less;
    assert !Less(v, v) by {
      Total(v, v);
    }
    var k := LowerBound(list, v, 0, |list|);
    assert k <= j;
    SortedAt(list, k, j);
    Total(list[k], v);
  }

  lemma SortedAt(list: seq<string>, k: nat, j: nat)
    requires Sorted(list) && k <= j < |list|
    ensures !Less(list[j], list[k])
  {
    Total(list[j], list[k]);
  }

  /** An empty file is not mapped: loading it again leaves the list as it was. So
      a reload gives what is in the file exactly when the file is not empty, or
      the list was; behind a write the file is never empty but for an empty list. */
  lemma ReloadExactly(st: MappedState, list: seq<string>)
    ensures st.Reloaded().list == Loaded(st.bytes) <==> st.bytes != [] || st.list == []
    ensures st.WriteBack(list).list == Loaded(Unlines(list))
  {
    assert Lines([]) == [] && NonEmpty([]) == [] && Sort([]) == [];
    if list != [] {
      assert Unlines(list) != [];
    }
  }

  lemma WithMeaning(list: seq<string>, v: string)
    requires Sorted(list)
    ensures Sorted(With(list, v))
    ensures multiset(With(list, v)) == if v in list then multiset(list) else multiset(list) + multiset{v}
  {
    hide Sorted, Less;
    var k := LowerBound(list, v, 0, |list|);
    if v in list {
      BoundOfPresent(list, v);
    } else {
      InsertIsSorted(list, v, k);
      assert list == list[..k] + list[k..];
    }
  }

  lemma WithoutMeaning(list: seq<string>, v: string)
    requires Sorted(list)
    ensures Sorted(Without(list, v))
    ensures multiset(Without(list, v)) == multiset(list) - multiset{v}
  {
    hide Sorted, FirstAt;
    var i := FirstAt(list, v);
    if i < |list| {
      SortedWithout(list, i);
      CountsWithout(list, i);
    } else {
      assert v !in multiset(list);
    }
  }

  lemma CountsWithout(list: seq<string>, i: nat)
    requires i < |list|
    ensures multiset(list[..i] + list[i + 1..]) == multiset(list) - multiset{list[i]}
  {
    assert list == list[..i] + [list[i]] + list[i + 1..];
  }

  lemma {:induction false} WithoutAllMeaning(list: seq<string>, vs: seq<string>)
    requires Sorted(list)
    ensures Sorted(WithoutAll(list, vs))
    ensures multiset(WithoutAll(list, vs)) <= multiset(list)
  {
    if list != [] {
      var h, t := list[0], list[1..];
      assert list == [h] + t;
      SortedCons(h, t);
      hide Sorted, Less;
      WithoutAllMeaning(t, vs);
      SortedCons(h, WithoutAll(t, vs));
    }
  }

  /** The state between operations, from a file without duplicate lines. */
  predicate Settled(st: MappedState) {
    Ascending(st.list) && AllEntries(st.list) && st.bytes == Unlines(st.list)
  }

  /** Adding keeps the list strictly ascending, the file its newline-terminated
      serialisation and the reload an identity exactly when the value can stand
      on a line. */
  lemma AddSettlesExactly(st: MappedState, v: string)
    requires Ascending(st.list) && AllEntries(st.list)
    ensures Settled(st.Add(v)) && st.Add(v).list == With(st.list, v) <==> IsEntry(v)
  {
    AscendingExactly(st.list);
    WithMeaning(st.list, v);
    hide Sorted, Ascending, With;
    var list := With(st.list, v);
    Members(list);
    Members(st.list);
    if IsEntry(v) {
      AscendingExactly(list);
      WriteBackIsIdentity(list);
    }
  }

  /** Removing, one or many, settles whatever the values are. */
  lemma RemoveSettles(st: MappedState, v: string, vs: seq<string>)
    requires Ascending(st.list) && AllEntries(st.list)
    ensures Settled(st.Remove(v)) && st.Remove(v).list == Without(st.list, v)
    ensures forall l :: l in st.Remove(v).list <==> l in st.list && l != v
    ensures Settled(st.RemoveList(vs)) && st.RemoveList(vs).list == WithoutAll(st.list, vs)
  {
    AscendingExactly(st.list);
    WithoutMeaning(st.list, v);
    WithoutAllMeaning(st.list, vs);
    hide Sorted, Ascending, Without, WithoutAll;
    var one, all := Without(st.list, v), WithoutAll(st.list, vs);
    Members(one);
    Members(all);
    Members(st.list);
    AscendingExactly(one);
    AscendingExactly(all);
    WriteBackIsIdentity(one);
    WriteBackIsIdentity(all);
  }

  // -------------------------------------------------------------------- runs

  datatype Change = Add(v: string) | Remove(v: string) | RemoveList(vs: seq<string>)

  function Apply(st: MappedState, c: Change): MappedState {
    match c
    case Add(v) => st.Add(v)
    case Remove(v) => st.Remove(v)
    case RemoveList(vs) => st.RemoveList(vs)
  }

  function After(st: MappedState, changes: seq<Change>): MappedState
    decreases |changes|
  {
    if changes == [] then st else After(Apply(st, changes[0]), changes[1..])
  }

  /** A list loaded from a file without duplicate lines is strictly ascending. */
  lemma OpenedIsAscending(f: string)
    requires Single(NonEmpty(Lines(f)))
    ensures var st := MappedState(f, []).Reloaded();
            st.list == Loaded(f) && Ascending(st.list) && AllEntries(st.list)
  {
    LoadedIsSorted(f);
    SortMembers(NonEmpty(Lines(f)));
    AscendingExactly(Loaded(f));
    if f == [] {
      assert Lines(f) == [];
    }
  }

  lemma {:induction false} ChangesSettle(st: MappedState, changes: seq<Change>)
    requires Ascending(st.list) && AllEntries(st.list)
    requires forall c <- changes :: c.Add? ==> IsEntry(c.v)
    ensures var st' := After(st, changes);
            Ascending(st'.list) && AllEntries(st'.list) && (changes != [] ==> Settled(st'))
    decreases |changes|
  {
    if changes != [] {
      match changes[0] {
        case Add(v) => AddSettlesExactly(st, v);
        case Remove(v) => RemoveSettles(st, v, []);
        case RemoveList(vs) => RemoveSettles(st, [], vs);
      }
      hide Settled;
      assert Settled(Apply(st, changes[0]));
      SettledIs(Apply(st, changes[0]));
      ChangesSettle(Apply(st, changes[0]), changes[1..]);
    }
  }

  lemma SettledIs(st: MappedState)
    requires Settled(st)
    ensures Ascending(st.list) && AllEntries(st.list)
  {
  }

  /** From a file without duplicate lines, every sequence of changes that adds
      only entries leaves the list strictly ascending; after the first change the
      file is its serialisation, and loading it again changes nothing. */
  lemma RunSettles(f: string, changes: seq<Change>)
    requires Single(NonEmpty(Lines(f)))
    requires forall c <- changes :: c.Add? ==> IsEntry(c.v)
    ensures var st := After(MappedState(f, []).Reloaded(), changes);
            && Ascending(st.list)
            && (changes != [] ==> st.bytes == Unlines(st.list) && Loaded(st.bytes) == st.list && st.Reloaded() == st)
  {
    OpenedIsAscending(f);
    ChangesSettle(MappedState(f, []).Reloaded(), changes);
    var st := After(MappedState(f, []).Reloaded(), changes);
    AscendingExactly(st.list);
    hide Ascending, Sorted, After;
    if changes != [] {
      WriteBackIsIdentity(st.list);
    }
  }

  lemma Members(xs: seq<string>)
    ensures forall l :: l in xs <==> multiset(xs)[l] > 0
  {
    assert forall l :: l in xs <==> l in multiset(xs);
  }

  // ------------------------------------------------------------------- class

  class MappedListFile {
    var list: seq<string>
    const file: File

    function State(): MappedState
      reads this, file
    {
      MappedState(file.bytes, list)
    }

    constructor (file: File)
      requires file.present || file.bytes == []
      modifies file`present
      ensures this.file == file && file.present
      ensures State() == MappedState(file.bytes, []).Reloaded()
    {
      this.file := file;
      list := [];
      new;
      LoadFromFile();
    }

    method LoadFromFile()
      requires file.present || file.bytes == []
      modifies this`list, file`present
      ensures file.present
      ensures State() == old(State()).Reloaded()
    {
      file.present := true;
      if file.bytes == [] {
        return;
      }
      var content := file.bytes;
      var read := [];
      ghost var done: seq<string> := [];
      var got := GetLine(Open(content), '\n', "");
      ReadingStarts(content);
      while !got.from.fail
        invariant file.bytes == content && file.present
        invariant Reading(content, done, got)
        invariant read == NonEmpty(done)
        decreases if got.from.fail then 0 else 1 + |got.from.rest|
      {
        var line := got.text;
        NonEmptyAppend(done, line);
        ReadingGoesOn(content, done, got);
        if line != [] {
          read := read + [line];
        }
        done := done + [line];
        got := GetLine(got.from, '\n', line);
      }
      ReadingEnds(content, done, got);
      list := Sort(read);
    }

    method WriteToFile()
      modifies file
      ensures file.present && file.bytes == Unlines(list)
    {
      file.present, file.bytes := true, "";
      var i := 0;
      while i < |list|
        invariant 0 <= i <= |list|
        invariant file.present && file.bytes == Unlines(list[..i])
      {
        WriteLine(list, i);
        file.bytes := file.bytes + list[i] + ['\n'];
        i := i + 1;
      }
      assert list[..i] == list;
    }

    method Add(value: string)
      modifies this`list, file
      ensures State() == old(State()).Add(value)
    {
      var it := LowerBound(list, value, 0, |list|);
      if it == |list| || list[it] != value {
        list := list[..it] + [value] + list[it..];
      }
      WriteToFile();
      LoadFromFile();
    }

    method Remove(value: string)
      modifies this`list, file
      ensures State() == old(State()).Remove(value)
    {
      var it := FirstAt(list, value);
      if it < |list| {
        list := list[..it] + list[it + 1..];
      }
      WriteToFile();
      LoadFromFile();
    }

    method RemoveList(valuesToRemove: seq<string>)
      modifies this`list, file
      ensures State() == old(State()).RemoveList(valuesToRemove)
    {
      list := WithoutAll(list, valuesToRemove);
      WriteToFile();
      LoadFromFile();
    }

    method IsPresent(token: string) returns (found: bool)
      ensures found <==> token in State().list
    {
      found := FirstAt(list, token) < |list|;
    }
  }

  lemma {:induction false} NonEmptyAppend(ls: seq<string>, l: string)
    ensures NonEmpty(ls + [l]) == NonEmpty(ls) + (if l == [] then [] else [l])
  {
    if ls == [] {
      assert ls + [l] == [l];
    } else {
      NonEmptyAppend(ls[1..], l);
      assert (ls + [l])[1..] == ls[1..] + [l];
      Assoc([ls[0]], NonEmpty(ls[1..]), if l == [] then [] else [l]);
    }
  }

  lemma WriteLine(list: seq<string>, i: nat)
    requires i < |list|
    ensures Unlines(list[..i + 1]) == Unlines(list[..i]) + list[i] + ['\n']
  {
    assert list[..i + 1] == list[..i] + [list[i]];
    UnlinesAppend(list[..i], [list[i]]);
    assert Unlines([list[i]]) == list[i] + ['\n'] + Unlines([]);
    assert list[i] + ['\n'] + [] == list[i] + ['\n'];
    Assoc(Unlines(list[..i]), list[i], ['\n']);
  }
}
