/** `CachedFileList` and `MappedListFile`, started from the same file contents
    and given the same calls, answer every query alike. */
module TwoStores {
  import opened CachedFileList
  import opened Lex
  import opened MappedListFile
  import opened RevocationFile
  import opened Text

  datatype Call = Add(s: string) | Remove(s: string) | RestartCached | RestartMapped

  datatype Stores = Stores(cached: ListState, mapped: MappedState)

  function Step(st: Stores, call: Call): Stores {
    match call
    case Add(s) => Stores(st.cached.Add(s, true), st.mapped.Add(s))
    case Remove(s) => Stores(st.cached.Remove(s, true), st.mapped.Remove(s))
    case RestartCached => st.(cached := st.cached.Reload())
    case RestartMapped => st.(mapped := MappedState(st.mapped.bytes, []).Reloaded())
  }

  function After(st: Stores, calls: seq<Call>): Stores
    decreases |calls|
  {
    if calls == [] then st else After(Step(st, calls[0]), calls[1..])
  }

  /** Both opened on a file with the contents `f`, one file each. */
  function Opened(f: string): Stores {
    Stores(ListState(true, f, {}).Reload(), MappedState(f, []).Reloaded())
  }

  /** One set, for strings that can be entries: listed once by one store if
      listed by the other. */
  ghost predicate Alike(st: Stores) {
    && st.cached.Sound()
    && Sorted(st.mapped.list) && AllEntries(st.mapped.list)
    && st.mapped.list == Loaded(st.mapped.bytes)
    && SameSet(st.cached.keys, st.mapped.list)
  }

  ghost predicate SameSet(keys: set<string>, list: seq<string>) {
    forall q :: Legal(q) ==> multiset(list)[q] == if q in keys then 1 else 0
  }

  lemma {:induction false} NonEmptyCounts(ls: seq<string>, l: string)
    requires l != []
    ensures multiset(NonEmpty(ls))[l] == multiset(ls)[l]
  {
    if ls != [] {
      NonEmptyCounts(ls[1..], l);
      assert ls == [ls[0]] + ls[1..];
    }
  }

  lemma EmptyLoads()
    ensures Loaded([]) == []
  {
    assert Lines([]) == [];
    assert NonEmpty([]) == [] && Sort([]) == [];
  }

  lemma OpenedAlike(f: string)
    requires Terminated(f) && SingleLive(f)
    ensures Alike(Opened(f))
  {
    EmptyLoads();
    LoadedIsSorted(f);
    LiveMembers(f);
    forall q | Legal(q)
      ensures multiset(Loaded(f))[q] == if q in LiveSet(f) then 1 else 0
    {
      NonEmptyCounts(Lines(f), q);
      Members(Lines(f));
    }
  }

  lemma WithAlike(keys: set<string>, list: seq<string>, s: string)
    requires Sorted(list) && AllEntries(list) && SameSet(keys, list) && Legal(s)
    ensures var list' := With(list, s);
            Sorted(list') && AllEntries(list') && SameSet(keys + {s}, list')
  {
    WithMeaning(list, s);
    Members(list);
    hide Sorted, With;
    Members(With(list, s));
  }

  lemma WithoutAlike(keys: set<string>, list: seq<string>, s: string)
    requires Sorted(list) && AllEntries(list) && SameSet(keys, list)
    ensures var list' := Without(list, s);
            Sorted(list') && AllEntries(list') && SameSet(keys - {s}, list')
  {
    WithoutMeaning(list, s);
    Members(list);
    hide Sorted, Without;
    Members(Without(list, s));
  }

  lemma AddAlike(st: Stores, s: string)
    requires Alike(st) && Legal(s)
    ensures Alike(Step(st, Call.Add(s)))
  {
    hide Sorted, AllEntries, With, Loaded, Unlines, Legal, SameSet, Added, ListState.Add, ListState.Sound;
    AddIsSound(st.cached, s, true);
    WithAlike(st.cached.keys, st.mapped.list, s);
    AddedKeys(st.cached, s);
    WriteBackIsIdentity(With(st.mapped.list, s));
  }

  lemma AddedKeys(st: ListState, s: string)
    ensures st.Add(s, true).keys == st.keys + {s}
  {
  }

  lemma RemoveAlike(st: Stores, s: string)
    requires Alike(st)
    ensures Alike(Step(st, Call.Remove(s)))
  {
    RemoveIsSound(st.cached, s, true);
    NoFileNoKeys(st.cached);
    WithoutAlike(st.cached.keys, st.mapped.list, s);
    hide Sorted, AllEntries, Without, Loaded, SameSet, Removed, ListState.Sound;
    assert s !in st.cached.keys ==> st.cached.keys - {s} == st.cached.keys;
    WriteBackIsIdentity(Without(st.mapped.list, s));
  }

  lemma {:induction false} AfterAlike(st: Stores, calls: seq<Call>)
    requires Alike(st)
    requires forall c <- calls :: c.Add? ==> Legal(c.s)
    ensures Alike(After(st, calls))
    decreases |calls|
  {
    if calls != [] {
      match calls[0] {
        case Add(s) => AddAlike(st, s);
        case Remove(s) => RemoveAlike(st, s);
        case RestartCached =>
        case RestartMapped => EmptyLoads();
      }
      AfterAlike(Step(st, calls[0]), calls[1..]);
    }
  }

  /** Two stores, one set: after any calls, with restarts of either store
      anywhere among them, a legal string is in one exactly when it is in the
      other. */
  lemma SameAnswers(f: string, calls: seq<Call>, q: string)
    requires Terminated(f) && SingleLive(f)
    requires forall c <- calls :: c.Add? ==> Legal(c.s)
    requires Legal(q)
    ensures var st := After(Opened(f), calls);
            q in st.cached.keys <==> q in st.mapped.list
  {
    OpenedAlike(f);
    AfterAlike(Opened(f), calls);
    Members(After(Opened(f), calls).mapped.list);
  }
}
