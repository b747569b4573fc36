/** What the compaction thread does in a run: undisturbed, it does what a whole
    round does, and in every interleaving it removes the tokens that are past
    their time. Checks in a run: each one is answered, and answered right. */
module CompactionPass {
  import opened Text
  import opened RevocationFile
  import opened CachedFileList
  import opened AuthenticationRuns
  import opened BasicAuthentication

  // ----------------------------------------------------- an undisturbed pass

  /** One token after the other: a decision, and the removal it may call for. */
  function Decisions(order: seq<string>, opens: string -> bool): seq<Step> {
    if order == [] then [] else [Decide] + ([Drop(opens(order[0]))] + Decisions(order[1..], opens))
  }

  function WholePass(order: seq<string>, opens: string -> bool, rewrites: bool): seq<Step> {
    [Snapshot(order)] + (Decisions(order, opens) + [Rewrite(rewrites)])
  }

  lemma OneDecision(jwt: Decoder, s: State, t: string, todo: seq<string>, opens: bool)
    requires s.pass == Deciding([t] + todo)
    ensures AuthenticationRuns.Apply(jwt, AuthenticationRuns.Apply(jwt, s, Decide), Drop(opens))
         == s.(list := if Verifies(jwt, t, s.now) then s.list else s.list.Remove(t, opens), pass := Deciding(todo))
  {
    Cons(t, todo);
    hide Verifies, Removed, ListState.Remove;
  }

  lemma DropAllCons(jwt: Decoder, st: ListState, t: string, todo: seq<string>, now: int, opens: string -> bool)
    ensures var st' := if Verifies(jwt, t, now) then st else st.Remove(t, opens(t));
            DropAll(jwt, st, [t] + todo, now, opens) == DropAll(jwt, st', todo, now, opens)
  {
    Cons(t, todo);
    hide Verifies, ListState.Remove;
  }

  lemma {:induction false} DecisionsDropAll(jwt: Decoder, s: State, order: seq<string>, opens: string -> bool)
    requires s.pass == Deciding(order)
    ensures AuthenticationRuns.After(jwt, s, Decisions(order, opens))
         == s.(list := DropAll(jwt, s.list, order, s.now, opens), pass := Deciding([]))
    decreases |order|
  {
    hide AuthenticationRuns.Apply, AuthenticationRuns.After, Verifies, ListState.Remove;
    if order == [] {
      AfterNone(jwt, s);
    } else {
      var t, todo := order[0], order[1..];
      assert order == [t] + todo;
      OneDecision(jwt, s, t, todo, opens(t));
      DropAllCons(jwt, s.list, t, todo, s.now, opens);
      hide DropAll;
      var s1 := AuthenticationRuns.Apply(jwt, s, Decide);
      var s2 := AuthenticationRuns.Apply(jwt, s1, Drop(opens(t)));
      DecisionsDropAll(jwt, s2, todo, opens);
      AfterCons(jwt, s, Decide, [Drop(opens(t))] + Decisions(todo, opens));
      AfterCons(jwt, s1, Drop(opens(t)), Decisions(todo, opens));
    }
  }

  /** A pass of the thread that nothing comes between, at one time, does to the
      list what `CompactRound` does, and nothing else: it leaves exactly the
      tokens that verify and those for whose removal the file did not open, in
      memory and on disk, and a rewritten file holds no tombstone. */
  lemma PassIsRound(jwt: Decoder, s: State, order: seq<string>, opens: string -> bool, rewrites: bool)
    requires s.list.Sound() && s.pass == Idle && multiset(order) == multiset(s.list.keys)
    ensures var s' := AuthenticationRuns.After(jwt, s, WholePass(order, opens, rewrites));
            && s' == s.(list := s'.list)
            && s'.list == DropAll(jwt, s.list, order, s.now, opens).Compact(rewrites)
            && s'.list.Sound()
            && s'.list.keys == Surviving(jwt, s.list.keys, s.now, opens) == LiveSet(s'.list.bytes)
            && (rewrites ==> forall l <- Lines(s'.list.bytes) :: !IsTombstone(l))
  {
    var decisions := Decisions(order, opens);
    var s1 := AuthenticationRuns.Apply(jwt, s, Snapshot(order));
    assert s1 == s.(pass := Deciding(order));
    var s2 := AuthenticationRuns.After(jwt, s1, decisions);
    DecisionsDropAll(jwt, s1, order, opens);
    var s3 := AuthenticationRuns.Apply(jwt, s2, Rewrite(rewrites));
    assert s3 == s.(list := s2.list.Compact(rewrites));
    hide AuthenticationRuns.Apply, AuthenticationRuns.After, DropAll;
    hide ListState.Sound, LiveSet, Lines, ListState.Compact;
    AfterCons(jwt, s, Snapshot(order), decisions + [Rewrite(rewrites)]);
    AfterAppend(jwt, s1, decisions, [Rewrite(rewrites)] + []);
    assert [Rewrite(rewrites)] + [] == [Rewrite(rewrites)];
    AfterCons(jwt, s2, Rewrite(rewrites), []);
    AfterNone(jwt, s3);
    DropAllMeaning(jwt, s.list, order, s.now, opens);
    SameMembers(jwt, order, s.list.keys, s.now, opens);
    CompactIsSound(s2.list, rewrites);
  }

  // -------------------------------------------------------- any interleaving

  /** Past its time: will not verify again. */
  predicate Spent(jwt: Decoder, t: string, now: int) {
    !jwt(t).signed || jwt(t).exp <= now || jwt(t).exp <= jwt(t).nbf
  }

  lemma SpentExactly(jwt: Decoder, t: string, now: int)
    ensures Spent(jwt, t, now) <==> forall later | later >= now :: !Verifies(jwt, t, later)
  {
    var first := if now < jwt(t).nbf then jwt(t).nbf else now;
    assert Verifies(jwt, t, first) <==> !Spent(jwt, t, now);
  }

  /** A step that leaves the collection of `t` alone: not a restart, not another
      logout of `t`, and no removal that fails to open the file. */
  predicate LetsCollect(step: Step, t: string) {
    !step.Restart? && (step.Logout? ==> step.token != t) && (step.Drop? ==> step.opens)
  }

  /** `t` is still to be decided, or gone. */
  predicate Collecting(jwt: Decoder, s: State, t: string) {
    && Spent(jwt, t, s.now) && s.list.present
    && (t in s.list.keys ==> t in Waiting(s.pass))
  }

  lemma CollectingStep(jwt: Decoder, s: State, step: Step, t: string)
    requires Collecting(jwt, s, t) && LetsCollect(step, t)
    ensures Collecting(jwt, AuthenticationRuns.Apply(jwt, s, step), t)
  {
    hide Removed, Compacted, Added;
    if step.Decide? && s.pass.Deciding? && s.pass.todo != [] {
      var todo := s.pass.todo;
      assert todo == [todo[0]] + todo[1..];
    }
  }

  /** Whatever happens in between, a pass that began with the token listed and
      past its time has taken it off the list when it ends. */
  lemma {:induction false} EveryPassCollects(jwt: Decoder, s: State, t: string, steps: seq<Step>)
    requires Collecting(jwt, s, t) && forall st <- steps :: LetsCollect(st, t)
    ensures var s' := AuthenticationRuns.After(jwt, s, steps);
            Collecting(jwt, s', t) && (s'.pass.Idle? ==> t !in s'.list.keys)
    decreases |steps|
  {
    if steps != [] {
      assert steps[0] in steps;
      CollectingStep(jwt, s, steps[0], t);
      hide Collecting, LetsCollect, AuthenticationRuns.Apply;
      EveryPassCollects(jwt, AuthenticationRuns.Apply(jwt, s, steps[0]), t, steps[1..]);
    }
  }

  /** Every snapshot begins such a pass. */
  lemma SnapshotCollects(jwt: Decoder, s: State, t: string, order: seq<string>)
    requires s.pass == Idle && s.list.present && Spent(jwt, t, s.now) && multiset(order) == multiset(s.list.keys)
    ensures Collecting(jwt, AuthenticationRuns.Apply(jwt, s, Snapshot(order)), t)
  {
    assert t in order <==> t in multiset(order);
  }

  // ------------------------------------------------------------------ logins

  lemma {:induction false} AfterLast(jwt: Decoder, s: State, steps: seq<Step>)
    requires steps != []
    ensures AuthenticationRuns.After(jwt, s, steps)
         == AuthenticationRuns.Apply(jwt, AuthenticationRuns.After(jwt, s, steps[..|steps| - 1]), steps[|steps| - 1])
    decreases |steps|
  {
    var n := |steps| - 1;
    assert steps == steps[..n] + ([steps[n]] + []);
    AfterAppend(jwt, s, steps[..n], [steps[n]] + []);
    var s1 := AuthenticationRuns.After(jwt, s, steps[..n]);
    AfterCons(jwt, s1, steps[n], []);
    AfterNone(jwt, AuthenticationRuns.Apply(jwt, s1, steps[n]));
  }

  /** Step `i` hands out `t`: it is a login, and the token is signed and valid. */
  ghost predicate IssuedAt(jwt: Decoder, s: State, steps: seq<Step>, t: string, i: nat) {
    && i < |steps| && steps[i] == Login(t)
    && Legal(t) && jwt(t).signed && jwt(t).nbf <= AuthenticationRuns.After(jwt, s, steps[..i]).now
  }

  /** A token stays issued for good, and is so exactly if some login issued it. */
  lemma {:induction false} IssuedExactly(jwt: Decoder, s: State, steps: seq<Step>, t: string)
    ensures t in AuthenticationRuns.After(jwt, s, steps).issued
       <==> t in s.issued || exists i: nat :: IssuedAt(jwt, s, steps, t, i)
    decreases |steps|
  {
    if steps != [] {
      var n := |steps| - 1;
      var front := steps[..n];
      AfterLast(jwt, s, steps);
      IssuedExactly(jwt, s, front, t);
      IssuedStep(jwt, AuthenticationRuns.After(jwt, s, front), steps[n], t);
      hide AuthenticationRuns.After, AuthenticationRuns.Apply, Legal;
      forall i: nat | i < n
        ensures IssuedAt(jwt, s, steps, t, i) <==> IssuedAt(jwt, s, front, t, i)
      {
        assert front[..i] == steps[..i];
      }
      if i: nat :| IssuedAt(jwt, s, front, t, i) {
        assert IssuedAt(jwt, s, steps, t, i);
      }
      assert IssuedAt(jwt, s, steps, t, n) <==> Issues(jwt, AuthenticationRuns.After(jwt, s, front), steps[n], t);
    }
  }

  predicate Issues(jwt: Decoder, s: State, step: Step, t: string) {
    step == Login(t) && Legal(t) && jwt(t).signed && jwt(t).nbf <= s.now
  }

  lemma IssuedStep(jwt: Decoder, s: State, step: Step, t: string)
    ensures t in AuthenticationRuns.Apply(jwt, s, step).issued <==> t in s.issued || Issues(jwt, s, step, t)
  {
    hide Removed, Compacted, Added, Legal;
  }

  // ------------------------------------------------------------------ checks

  /** A check that nothing comes between answers what `IsAuthenticated` answers,
      and changes nothing else. */
  lemma WholeCheck(jwt: Decoder, s: State, t: string)
    ensures AuthenticationRuns.After(jwt, s, [Begin(t), Finish(|s.checks|)])
         == s.(outcomes := s.outcomes + [Outcome(t, t !in s.list.keys && Accepts(jwt, t, s.now))])
  {
    var s1 := AuthenticationRuns.Apply(jwt, s, Begin(t));
    var s2 := AuthenticationRuns.Apply(jwt, s1, Finish(|s.checks|));
    assert t !in s.list.keys ==> s1.checks[..|s.checks|] + s1.checks[|s.checks| + 1..] == s.checks;
    assert [Begin(t), Finish(|s.checks|)] == [Begin(t)] + ([Finish(|s.checks|)] + []);
    AfterCons(jwt, s, Begin(t), [Finish(|s.checks|)] + []);
    AfterCons(jwt, s1, Finish(|s.checks|), []);
    AfterNone(jwt, s2);
  }

  function Answered(outcomes: seq<Outcome>): seq<string> {
    seq(|outcomes|, i requires 0 <= i < |outcomes| => outcomes[i].token)
  }

  function Begun(steps: seq<Step>): seq<string> {
    if steps == [] then []
    else (if steps[0].Begin? then [steps[0].token] else []) + Begun(steps[1..])
  }

  lemma AnsweredAppend(outcomes: seq<Outcome>, o: Outcome)
    ensures Answered(outcomes + [o]) == Answered(outcomes) + [o.token]
  {
  }

  lemma BeginAdds(jwt: Decoder, s: State, t: string)
    ensures var s' := AuthenticationRuns.Apply(jwt, s, Begin(t));
            multiset(Answered(s'.outcomes)) + multiset(s'.checks)
            == multiset(Answered(s.outcomes)) + multiset(s.checks) + multiset{t}
  {
    AnsweredAppend(s.outcomes, Outcome(t, false));
    hide Answered;
  }

  lemma FinishMoves(jwt: Decoder, s: State, i: nat)
    ensures var s' := AuthenticationRuns.Apply(jwt, s, Finish(i));
            multiset(Answered(s'.outcomes)) + multiset(s'.checks)
            == multiset(Answered(s.outcomes)) + multiset(s.checks)
  {
    if i < |s.checks| {
      var t := s.checks[i];
      AnsweredAppend(s.outcomes, Outcome(t, Accepts(jwt, t, s.now)));
      assert s.checks == s.checks[..i] + [t] + s.checks[i + 1..];
      hide Answered, Accepts;
    }
  }

  lemma OthersLeave(jwt: Decoder, s: State, step: Step)
    requires !step.Restart? && !step.Begin? && !step.Finish?
    ensures var s' := AuthenticationRuns.Apply(jwt, s, step); s'.outcomes == s.outcomes && s'.checks == s.checks
  {
    hide Removed, Compacted, Added;
  }

  lemma CheckStep(jwt: Decoder, s: State, step: Step)
    requires !step.Restart?
    ensures var s' := AuthenticationRuns.Apply(jwt, s, step);
            multiset(Answered(s'.outcomes)) + multiset(s'.checks)
            == multiset(Answered(s.outcomes)) + multiset(s.checks) + multiset(if step.Begin? then [step.token] else [])
  {
    hide AuthenticationRuns.Apply, Answered;
    match step
    case Begin(t) => BeginAdds(jwt, s, t);
    case Finish(i) => FinishMoves(jwt, s, i);
    case _ => OthersLeave(jwt, s, step);
  }

  lemma BegunCounts(steps: seq<Step>)
    requires steps != []
    ensures multiset(Begun(steps))
         == multiset(if steps[0].Begin? then [steps[0].token] else []) + multiset(Begun(steps[1..]))
  {
  }

  /** No check is lost and none is answered twice: in every run without restarts,
      the checks answered and those under way are those begun, each once. */
  lemma {:induction false} ChecksAreConserved(jwt: Decoder, s: State, steps: seq<Step>)
    requires forall st <- steps :: !st.Restart?
    ensures var s' := AuthenticationRuns.After(jwt, s, steps);
            multiset(Answered(s'.outcomes)) + multiset(s'.checks)
            == multiset(Answered(s.outcomes)) + multiset(s.checks) + multiset(Begun(steps))
    decreases |steps|
  {
    if steps != [] {
      BegunCounts(steps);
      hide AuthenticationRuns.Apply, Answered, Begun;
      CheckStep(jwt, s, steps[0]);
      ChecksAreConserved(jwt, AuthenticationRuns.Apply(jwt, s, steps[0]), steps[1..]);
    }
  }

  /** Whatever is authenticated could be used, and its time had come. */
  predicate AnsweredRight(jwt: Decoder, s: State) {
    forall o <- s.outcomes :: o.authenticated ==> Usable(jwt, o.token) && jwt(o.token).nbf <= s.now
  }

  lemma {:induction false} AnswersAreRight(jwt: Decoder, s: State, steps: seq<Step>)
    requires AnsweredRight(jwt, s)
    ensures AnsweredRight(jwt, AuthenticationRuns.After(jwt, s, steps))
    decreases |steps|
  {
    if steps != [] {
      RightStep(jwt, s, steps[0]);
      hide AuthenticationRuns.Apply, AnsweredRight;
      AnswersAreRight(jwt, AuthenticationRuns.Apply(jwt, s, steps[0]), steps[1..]);
    }
  }

  lemma RightStep(jwt: Decoder, s: State, step: Step)
    requires AnsweredRight(jwt, s)
    ensures AnsweredRight(jwt, AuthenticationRuns.Apply(jwt, s, step))
  {
    hide Removed, Compacted, Added;
  }
}
