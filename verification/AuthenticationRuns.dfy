/** Logins, logouts, checks, restarts and the hourly compaction thread, as
    interleaved steps over the revocation list. */
module AuthenticationRuns {
  import opened Text
  import opened RevocationFile
  import opened CachedFileList

  // ---------------------------------------------------------------- tokens

  /** What the token library finds in a string: whether this server signed it,
      the claims of RFC 7519, sections 4.1.4 to 4.1.6, and the user name, which
      is read after verification and may be missing or no string. */
  datatype Claims = Claims(signed: bool, iat: int, nbf: int, exp: int, username: Option<string>)

  type Decoder = string -> Claims

  predicate Verifies(jwt: Decoder, t: string, now: int) {
    jwt(t).signed && jwt(t).nbf <= now < jwt(t).exp
  }

  /** What `isAuthenticated` takes: a token that verifies and names a user. */
  predicate Accepts(jwt: Decoder, t: string, now: int) {
    Verifies(jwt, t, now) && jwt(t).username.Some?
  }

  predicate Usable(jwt: Decoder, t: string) {
    jwt(t).signed && jwt(t).username.Some? && jwt(t).nbf < jwt(t).exp
  }

  /** Is not accepted yet, but will be. */
  predicate Early(jwt: Decoder, t: string, now: int) {
    Usable(jwt, t) && now < jwt(t).nbf
  }

  /** Is not accepted now, nor at any later time. */
  predicate Dead(jwt: Decoder, t: string, now: int) {
    !Accepts(jwt, t, now) && !Early(jwt, t, now)
  }

  // ----------------------------------------------------------------- steps

  /** The compaction thread between two waits: the snapshot still to decide, and
      the token that has failed verification but is not yet removed. */
  datatype Pass = Idle | Deciding(todo: seq<string>) | Removing(token: string, todo: seq<string>)

  datatype Outcome = Outcome(token: string, authenticated: bool)

  datatype State = State(
    list: ListState,
    now: int,
    issued: set<string>,       // tokens `authenticate` has handed out
    pass: Pass,
    checks: seq<string>,       // checks past the list, not yet past the verifier
    outcomes: seq<Outcome>)

  datatype Step =
    | Login(token: string)
    | Logout(token: string, opens: bool)
    | Begin(token: string)              // isAuthenticated consults the list
    | Finish(i: nat)                    // and, if not found there, verifies
    | Tick(elapsed: nat)
    | Restart
    | Snapshot(order: seq<string>)
    | Decide
    | Drop(opens: bool)
    | Rewrite(opens: bool)

  /** A step that is not possible leaves the state as it is. */
  function Apply(jwt: Decoder, s: State, step: Step): State {
    match step
    case Login(t) =>
      if Legal(t) && jwt(t).signed && jwt(t).nbf <= s.now then s.(issued := s.issued + {t}) else s
    case Logout(t, opens) => s.(list := s.list.Add(t, opens))
    case Begin(t) =>
      if t in s.list.keys then s.(outcomes := s.outcomes + [Outcome(t, false)])
      else s.(checks := s.checks + [t])
    case Finish(i) =>
      if i >= |s.checks| then s
      else s.(checks := s.checks[..i] + s.checks[i + 1..],
              outcomes := s.outcomes + [Outcome(s.checks[i], Accepts(jwt, s.checks[i], s.now))])
    case Tick(elapsed) => s.(now := s.now + elapsed)
    case Restart => s.(list := s.list.Reload(), pass := Idle, checks := [])
    case Snapshot(order) =>
      if s.pass.Idle? && multiset(order) == multiset(s.list.keys) then s.(pass := Deciding(order)) else s
    case Decide =>
      if !s.pass.Deciding? || s.pass.todo == [] then s
      else if Verifies(jwt, s.pass.todo[0], s.now) then s.(pass := Deciding(s.pass.todo[1..]))
      else s.(pass := Removing(s.pass.todo[0], s.pass.todo[1..]))
    case Drop(opens) =>
      if !s.pass.Removing? then s
      else s.(list := s.list.Remove(s.pass.token, opens), pass := Deciding(s.pass.todo))
    case Rewrite(opens) =>
      if s.pass != Deciding([]) then s else s.(list := s.list.Compact(opens), pass := Idle)
  }

  function After(jwt: Decoder, s: State, steps: seq<Step>): State
    decreases |steps|
  {
    if steps == [] then s else After(jwt, Apply(jwt, s, steps[0]), steps[1..])
  }

  lemma {:induction false} AfterAppend(jwt: Decoder, s: State, a: seq<Step>, b: seq<Step>)
    ensures After(jwt, s, a + b) == After(jwt, After(jwt, s, a), b)
    decreases |a|
  {
    if a == [] {
      assert a + b == b;
    } else {
      assert (a + b)[1..] == a[1..] + b;
      AfterAppend(jwt, Apply(jwt, s, a[0]), a[1..], b);
    }
  }

  // ------------------------------------------------------------ invariants

  function Waiting(pass: Pass): seq<string> {
    match pass
    case Idle => []
    case Deciding(todo) => todo
    case Removing(t, todo) => [t] + todo
  }

  /** What every step keeps, whatever strings are logged out. */
  ghost predicate Core(jwt: Decoder, s: State) {
    && (s.list.present || s.list.bytes == [])
    && Distinct(Waiting(s.pass))
    && (forall t <- Waiting(s.pass) :: t in s.list.keys)
    && (forall t <- s.issued :: Legal(t) && jwt(t).signed && jwt(t).nbf <= s.now)
  }

  /** What every step keeps besides, if the empty string is never logged out. */
  ghost predicate Clean(s: State) {
    && Terminated(s.list.bytes)
    && [] !in s.list.keys
    && (forall t <- s.list.keys :: Legal(t) ==> t in LiveSet(s.list.bytes))
  }

  /** `t` stays listed, in memory and in the file, for as long as it could be
      accepted. If an empty line may stand in front of it, the empty string is
      not listed. */
  ghost predicate Held(jwt: Decoder, s: State, t: string, blanks: bool) {
    && Legal(t)
    && !Early(jwt, t, s.now)
    && (Dead(jwt, t, s.now) || (t in s.list.keys && Guarded(s.list.bytes, t, blanks)))
    && (s.pass.Removing? && s.pass.token == t ==> Dead(jwt, t, s.now))
    && (blanks ==> [] !in s.list.keys)
  }

  /** And no check on it can succeed, nor has succeeded. */
  ghost predicate Barred(jwt: Decoder, s: State, t: string, blanks: bool) {
    && Held(jwt, s, t, blanks)
    && (t in s.checks ==> Dead(jwt, t, s.now))
    && (forall o <- s.outcomes :: o.token == t ==> !o.authenticated)
  }

  predicate LogsOutEmpty(step: Step) {
    step.Logout? && step.token == []
  }

  predicate NoEmptyLogout(steps: seq<Step>) {
    forall st <- steps :: !LogsOutEmpty(st)
  }

  lemma AddIsSafe(list: ListState, t: string, opens: bool)
    requires Terminated(list.bytes) && (forall k <- list.keys :: Legal(k) ==> k in LiveSet(list.bytes))
    ensures var list' := list.Add(t, opens);
            && Terminated(list'.bytes)
            && (forall k <- list'.keys :: Legal(k) ==> k in LiveSet(list'.bytes))
  {
    hide Lines;
    AddedLines(list.bytes, t);
  }

  lemma RemoveIsSafe(list: ListState, t: string, opens: bool)
    requires Terminated(list.bytes) && t != []
    requires forall k <- list.keys :: Legal(k) ==> k in LiveSet(list.bytes)
    ensures var list' := list.Remove(t, opens);
            && Terminated(list'.bytes)
            && (forall k <- list'.keys :: Legal(k) ==> k in LiveSet(list'.bytes))
  {
    RemovedLines(list.bytes, t);
    hide Lines, Removed, LiveIn;
    forall k <- list.Remove(t, opens).keys | Legal(k)
      ensures k in LiveSet(list.Remove(t, opens).bytes)
    {
      LiveAfterRemove(list.bytes, t, k);
    }
  }

  lemma SnapshotIsDistinct(order: seq<string>, keys: set<string>)
    requires multiset(order) == multiset(keys)
    ensures Distinct(order) && forall t <- order :: t in keys
  {
    forall t <- order
      ensures t in keys
    {
      assert t in multiset(order);
    }
    forall i, j | 0 <= i < j < |order|
      ensures order[i] != order[j]
    {
      var x := order[j];
      assert order == order[..j] + [x] + order[j + 1..];
      assert multiset(order) == multiset(order[..j]) + multiset{x} + multiset(order[j + 1..]);
      assert multiset(order)[x] <= 1;
      assert order[..j][i] == order[i] && order[i] in multiset(order[..j]);
    }
  }

  lemma DropKeepsCore(jwt: Decoder, s: State, opens: bool)
    requires Core(jwt, s)
    ensures Core(jwt, Apply(jwt, s, Drop(opens)))
  {
    hide Legal, Removed;
    if s.pass.Removing? {
      var waiting := Waiting(s.pass);
      assert waiting[0] == s.pass.token && waiting[1..] == s.pass.todo;
      assert forall i | 0 <= i < |s.pass.todo| :: waiting[i + 1] == s.pass.todo[i];
      assert !s.list.present ==> Removed(s.list.bytes, s.pass.token) == s.list.bytes;
    }
  }

  lemma DecideKeepsCore(jwt: Decoder, s: State)
    requires Core(jwt, s)
    ensures Core(jwt, Apply(jwt, s, Decide))
  {
    hide Legal, Verifies;
    if s.pass.Deciding? && s.pass.todo != [] {
      var waiting := Waiting(s.pass);
      assert [waiting[0]] + waiting[1..] == waiting;
    }
  }

  lemma CoreStep(jwt: Decoder, s: State, step: Step)
    requires Core(jwt, s)
    ensures Core(jwt, Apply(jwt, s, step))
  {
    hide Lines, LiveSet, Removed, Compacted, Added;
    if step.Decide? {
      DecideKeepsCore(jwt, s);
    } else if step.Drop? {
      DropKeepsCore(jwt, s, step.opens);
    } else if step.Snapshot? {
      if Apply(jwt, s, step) != s {
        SnapshotIsDistinct(step.order, s.list.keys);
      }
    }
  }

  lemma CleanStep(jwt: Decoder, s: State, step: Step)
    requires Core(jwt, s) && Clean(s) && !LogsOutEmpty(step)
    ensures Clean(Apply(jwt, s, step))
  {
    hide Legal, Terminated, Removed, Compacted, Added, LiveSet, Verifies;
    match step
    case Logout(t, opens) => AddIsSafe(s.list, t, opens);
    case Restart => LiveMembers(s.list.bytes); EmptyIsNotLive(s.list.bytes);
    case Rewrite(opens) => CompactionMeaning(s.list.bytes);
    case Drop(opens) =>
      if s.pass.Removing? {
        assert Waiting(s.pass)[0] == s.pass.token;
        RemoveIsSafe(s.list, s.pass.token, opens);
      }
    case _ =>
  }

  lemma EmptyIsNotLive(f: string)
    ensures [] !in LiveSet(f)
  {
  }

  /** Every step, of every kind and with whatever string, keeps what compaction
      relies on; and one that does not log out the empty string keeps the file
      in step with the list. */
  lemma StepIsSound(jwt: Decoder, s: State, step: Step)
    requires Core(jwt, s)
    ensures Core(jwt, Apply(jwt, s, step))
    ensures Clean(s) && !LogsOutEmpty(step) ==> Clean(Apply(jwt, s, step))
  {
    hide Core, Clean, Apply;
    CoreStep(jwt, s, step);
    if Clean(s) && !LogsOutEmpty(step) {
      CleanStep(jwt, s, step);
    }
  }

  lemma {:induction false} RunIsSound(jwt: Decoder, s: State, steps: seq<Step>)
    requires Core(jwt, s)
    ensures Core(jwt, After(jwt, s, steps))
    ensures Clean(s) && NoEmptyLogout(steps) ==> Clean(After(jwt, s, steps))
    decreases |steps|
  {
    hide Core, Clean, Apply, LogsOutEmpty;
    if steps != [] {
      StepIsSound(jwt, s, steps[0]);
      RunIsSound(jwt, Apply(jwt, s, steps[0]), steps[1..]);
    }
  }

  lemma StepKeepsHeld(jwt: Decoder, s: State, step: Step, t: string, blanks: bool)
    requires Core(jwt, s) && Held(jwt, s, t, blanks) && (blanks ==> !LogsOutEmpty(step))
    ensures Held(jwt, Apply(jwt, s, step), t, blanks)
  {
    hide Lines, Removed, LiveSet, Added, Compacted, Guarded;
    match step
    case Logout(u, opens) =>
      if Guarded(s.list.bytes, t, blanks) {
        AddedKeepsGuard(s.list.bytes, u, t, blanks);
      }
    case Restart =>
      EmptyIsNotLive(s.list.bytes);
      if Guarded(s.list.bytes, t, blanks) {
        GuardedIsLive(s.list.bytes, t, blanks);
      }
    case Rewrite(opens) =>
      if Guarded(s.list.bytes, t, blanks) {
        CompactedKeepsGuard(s.list.bytes, t, blanks);
      }
    case Drop(opens) =>
      if s.pass.Removing? {
        assert Waiting(s.pass)[0] == s.pass.token;
        if Guarded(s.list.bytes, t, blanks) && s.pass.token != t {
          RemovedKeepsGuard(s.list.bytes, s.pass.token, t, blanks);
        }
      }
    case _ =>
  }

  lemma {:induction false} RunKeepsHeld(jwt: Decoder, s: State, steps: seq<Step>, t: string, blanks: bool)
    requires Core(jwt, s) && Held(jwt, s, t, blanks) && (blanks ==> NoEmptyLogout(steps))
    ensures Core(jwt, After(jwt, s, steps)) && Held(jwt, After(jwt, s, steps), t, blanks)
    decreases |steps|
  {
    hide Core, Held, Apply, LogsOutEmpty;
    if steps != [] {
      CoreStep(jwt, s, steps[0]);
      StepKeepsHeld(jwt, s, steps[0], t, blanks);
      RunKeepsHeld(jwt, Apply(jwt, s, steps[0]), steps[1..], t, blanks);
    }
  }

  lemma StepKeepsBarred(jwt: Decoder, s: State, step: Step, t: string, blanks: bool)
    requires Core(jwt, s) && Barred(jwt, s, t, blanks) && (blanks ==> !LogsOutEmpty(step))
    ensures Barred(jwt, Apply(jwt, s, step), t, blanks)
  {
    StepKeepsHeld(jwt, s, step, t, blanks);
    assert t in s.list.keys || Dead(jwt, t, s.now);
    hide Held, Legal, Core, Lines, Removed, LiveSet, Added, Compacted;
    if !step.Begin? && !step.Finish? && !step.Tick? {
      hide Dead;
      LeavesOutcomes(jwt, s, step);
    }
  }

  lemma LeavesOutcomes(jwt: Decoder, s: State, step: Step)
    requires !step.Begin? && !step.Finish? && !step.Tick?
    ensures var s' := Apply(jwt, s, step);
            s'.outcomes == s.outcomes && s'.now == s.now && (s'.checks == s.checks || s'.checks == [])
  {
    hide Removed, LiveSet, Added, Compacted;
  }

  /** Once barred, barred for good, in every interleaving. */
  lemma {:induction false} RunKeepsBarred(jwt: Decoder, s: State, steps: seq<Step>, t: string, blanks: bool)
    requires Core(jwt, s) && Barred(jwt, s, t, blanks) && (blanks ==> NoEmptyLogout(steps))
    ensures Barred(jwt, After(jwt, s, steps), t, blanks)
    decreases |steps|
  {
    hide Core, Barred, Apply, LogsOutEmpty;
    if steps != [] {
      CoreStep(jwt, s, steps[0]);
      StepKeepsBarred(jwt, s, steps[0], t, blanks);
      RunKeepsBarred(jwt, Apply(jwt, s, steps[0]), steps[1..], t, blanks);
    }
  }

  // ---------------------------------------------------- revocation, for good

  /** A freshly started server over a list file, with no check under way. */
  ghost predicate Booted(s: State) {
    && (s.list.present || s.list.bytes == []) && Terminated(s.list.bytes)
    && s.list == s.list.Reload()
    && s.issued == {} && s.pass == Idle && s.checks == [] && s.outcomes == []
  }

  lemma BootIsSound(jwt: Decoder, s: State)
    requires Booted(s)
    ensures Core(jwt, s) && Clean(s)
  {
    LiveMembers(s.list.bytes);
  }

  /** The state, as seen by checks that start from here on. */
  function FromHere(s: State): State {
    s.(checks := [], outcomes := [])
  }

  ghost predicate NeverAuthenticates(jwt: Decoder, s: State, steps: seq<Step>, t: string) {
    forall o <- After(jwt, FromHere(s), steps).outcomes :: o.token == t ==> !o.authenticated
  }

  /** A logout that appends the token to a finished file holds it, unless the
      token is still waiting for its `nbf`. */
  lemma LogoutHolds(jwt: Decoder, s: State, t: string)
    requires Core(jwt, s) && Legal(t) && t !in s.list.keys && !Early(jwt, t, s.now)
    requires Terminated(s.list.bytes) || Dead(jwt, t, s.now)
    requires [] in Lines(s.list.bytes) ==> [] !in s.list.keys
    ensures Held(jwt, Apply(jwt, s, Logout(t, true)), t, [] in Lines(s.list.bytes))
  {
    assert Waiting(s.pass) != [] ==> Waiting(s.pass)[0] in s.list.keys;
    hide Lines, Added, Guarded;
    if Terminated(s.list.bytes) {
      AppendGuards(s.list.bytes, t);
    }
  }

  /** Revocation is permanent: in every interleaving, once the logout of an
      issued token has appended it to the list, no check that starts later
      authenticates it, if no run logs out the empty string, or else if the file
      was finished and had no empty line when the token was appended. */
  lemma RevocationIsPermanent(jwt: Decoder, boot: State, before: seq<Step>, t: string,
                              between: seq<Step>, later: seq<Step>)
    requires Booted(boot)
    requires var s := After(jwt, boot, before);
             && t in s.issued && t !in s.list.keys
             && (|| (NoEmptyLogout(before) && NoEmptyLogout(between) && NoEmptyLogout(later))
                 || (Terminated(s.list.bytes) && [] !in Lines(s.list.bytes)))
    ensures var s := Apply(jwt, After(jwt, boot, before), Logout(t, true));
            NeverAuthenticates(jwt, After(jwt, s, between), later, t)
  {
    BootIsSound(jwt, boot);
    RunIsSound(jwt, boot, before);
    var s := After(jwt, boot, before);
    LogoutHolds(jwt, s, t);
    hide After, Lines, Legal, Early;
    var s1, blanks := Apply(jwt, s, Logout(t, true)), [] in Lines(s.list.bytes);
    CoreStep(jwt, s, Logout(t, true));
    RunKeepsHeld(jwt, s1, between, t, blanks);
    RunKeepsBarred(jwt, FromHere(After(jwt, s1, between)), later, t, blanks);
  }

  /** Some order of a finite set. */
  ghost function InSomeOrder(s: set<string>): (r: seq<string>)
    ensures multiset(r) == multiset(s)
  {
    if s == {} then [] else
      var x :| x in s;
      [x] + InSomeOrder(s - {x})
  }

  lemma AfterCons(jwt: Decoder, s: State, step: Step, steps: seq<Step>)
    ensures After(jwt, s, [step] + steps) == After(jwt, Apply(jwt, s, step), steps)
  {
    Cons(step, steps);
  }

  predicate NoLogout(steps: seq<Step>) {
    forall st <- steps :: !st.Logout?
  }

  lemma StartingWith(keys: set<string>, t: string) returns (order: seq<string>)
    requires t in keys
    ensures order != [] && order[0] == t && multiset(order) == multiset(keys)
  {
    var others := InSomeOrder(keys - {t});
    assert multiset{t} + multiset(keys - {t}) == multiset(keys);
    order := [t] + others;
  }

  /** A compaction takes a token off the list that does not verify yet. */
  lemma DropsEarly(jwt: Decoder, s: State, t: string) returns (steps: seq<Step>)
    requires s.pass == Idle && t in s.list.keys && s.list.present && Early(jwt, t, s.now)
    ensures NoLogout(steps)
    ensures var s' := After(jwt, s, steps); t !in s'.list.keys && s'.now == s.now && s'.checks == s.checks
  {
    hide After, Removed;
    var order := StartingWith(s.list.keys, t);
    var s1 := Apply(jwt, s, Snapshot(order));
    var s2 := Apply(jwt, s1, Decide);
    var s3 := Apply(jwt, s2, Drop(true));
    steps := [Snapshot(order)] + ([Decide] + ([Drop(true)] + []));
    AfterCons(jwt, s, Snapshot(order), [Decide] + ([Drop(true)] + []));
    AfterCons(jwt, s1, Decide, [Drop(true)] + []);
    AfterCons(jwt, s2, Drop(true), []);
    AfterNone(jwt, s3);
  }

  /** A token is off the list after a restart if the file does not have it; and
      if the file has it, but the token does not verify yet, then after a
      restart and a compaction. */
  lemma ForgetsToken(jwt: Decoder, s: State, t: string) returns (steps: seq<Step>)
    requires t in LiveSet(s.list.bytes) ==> Early(jwt, t, s.now) && s.list.present
    ensures NoLogout(steps)
    ensures var s' := After(jwt, s, steps); t !in s'.list.keys && s'.now == s.now && s'.checks == []
  {
    hide After, LiveSet, Early;
    var s1 := Apply(jwt, s, Restart);
    if t in LiveSet(s.list.bytes) {
      steps := DropsEarly(jwt, s1, t);
    } else {
      steps := [];
      AfterNone(jwt, s1);
    }
    AfterCons(jwt, s, Restart, steps);
    steps := [Restart] + steps;
  }

  lemma AfterNone(jwt: Decoder, s: State)
    ensures After(jwt, s, []) == s
  {
  }

  /** Off the list, a token is accepted now or once its `nbf` has come. */
  lemma AcceptsForgotten(jwt: Decoder, s: State, t: string) returns (steps: seq<Step>)
    requires t !in s.list.keys && s.checks == [] && !Dead(jwt, t, s.now)
    ensures NoLogout(steps)
    ensures Outcome(t, true) in After(jwt, s, steps).outcomes
  {
    hide After;
    var wait := Tick(if s.now < jwt(t).nbf then jwt(t).nbf - s.now else 0);
    var s1 := Apply(jwt, s, wait);
    var s2 := Apply(jwt, s1, Begin(t));
    var s3 := Apply(jwt, s2, Finish(0));
    assert s3.outcomes[|s3.outcomes| - 1] == Outcome(t, true);
    steps := [wait] + ([Begin(t)] + ([Finish(0)] + []));
    AfterCons(jwt, s, wait, [Begin(t)] + ([Finish(0)] + []));
    AfterCons(jwt, s1, Begin(t), [Finish(0)] + []);
    AfterCons(jwt, s2, Finish(0), []);
    AfterNone(jwt, s3);
  }

  lemma ComesBack(jwt: Decoder, s: State, t: string) returns (steps: seq<Step>)
    requires !Dead(jwt, t, s.now)
    requires t in LiveSet(s.list.bytes) ==> Early(jwt, t, s.now) && s.list.present
    ensures NoLogout(steps) && !NeverAuthenticates(jwt, s, steps, t)
  {
    hide After, LiveSet, Dead, Early, Apply;
    var first := ForgetsToken(jwt, FromHere(s), t);
    var second := AcceptsForgotten(jwt, After(jwt, FromHere(s), first), t);
    AfterAppend(jwt, FromHere(s), first, second);
    steps := first + second;
  }

  /** A token logged out before its `nbf` is taken off the list again by a
      compaction that finds it not verifying, and accepted once `nbf` has come. */
  lemma EarlyTokenComesBack(jwt: Decoder, s: State, t: string) returns (steps: seq<Step>)
    requires Early(jwt, t, s.now) && s.list.present
    ensures NoLogout(steps) && !NeverAuthenticates(jwt, s, steps, t)
  {
    steps := ComesBack(jwt, s, t);
  }

  lemma LostOnUnfinished(f: string, t: string)
    requires !Terminated(f) && Legal(t) && t !in LiveSet(f)
    ensures t !in LiveSet(Added(f, t))
  {
    AddedToUnfinished(f, t);
    var ls := Lines(f);
    hide Lines, Added;
    assert forall l <- ls[..|ls| - 1] :: l in ls;
  }

  /** Exactly when the logout of a token lasts in every continuation: if and only
      if the token was not still waiting for its `nbf` and the file it went to
      was finished (or the token can never be accepted anyhow). The continuations
      are all there are if the file has no empty line; if it has one, those that
      do not log out the empty string. */
  lemma RevocationLastsExactly(jwt: Decoder, s: State, t: string)
    requires Core(jwt, s) && Legal(t) && t !in s.list.keys && t !in LiveSet(s.list.bytes)
    requires [] in Lines(s.list.bytes) ==> [] !in s.list.keys
    ensures var s1 := Apply(jwt, s, Logout(t, true));
            (forall later | [] in Lines(s.list.bytes) ==> NoEmptyLogout(later) :: NeverAuthenticates(jwt, s1, later, t))
            <==> !Early(jwt, t, s.now) && (Terminated(s.list.bytes) || !Accepts(jwt, t, s.now))
  {
    hide After, Lines, LiveSet, Guarded, Added, NeverAuthenticates;
    var s1, blanks := Apply(jwt, s, Logout(t, true)), [] in Lines(s.list.bytes);
    if Early(jwt, t, s.now) {
      var steps := EarlyTokenComesBack(jwt, s1, t);
    } else if !Terminated(s.list.bytes) && Accepts(jwt, t, s.now) {
      LostOnUnfinished(s.list.bytes, t);
      var steps := ComesBack(jwt, s1, t);
    } else {
      LogoutHolds(jwt, s, t);
      CoreStep(jwt, s, Logout(t, true));
      forall later | blanks ==> NoEmptyLogout(later)
        ensures NeverAuthenticates(jwt, s1, later, t)
      {
        NeverFrom(jwt, s1, later, t, blanks);
      }
    }
  }

  lemma NeverFrom(jwt: Decoder, s: State, later: seq<Step>, t: string, blanks: bool)
    requires Core(jwt, s) && Held(jwt, s, t, blanks) && (blanks ==> NoEmptyLogout(later))
    ensures NeverAuthenticates(jwt, s, later, t)
  {
    RunKeepsBarred(jwt, FromHere(s), later, t, blanks);
  }

  // ------------------------------------------------------- the empty logout

  /** A server started over an empty file. */
  function Fresh(now: int): State {
    State(ListState(true, [], {}), now, {}, Idle, [], [])
  }

  /** Logging out the empty string puts an empty line in the file. Compaction
      removes the empty string by joining that line with the next one, which here
      is a token logged out since; after a restart the token is accepted. */
  lemma EmptyLogoutUndoesRevocation(jwt: Decoder, t: string)
      returns (before: seq<Step>, later: seq<Step>)
    requires Legal(t) && Usable(jwt, t) && !jwt([]).signed
    ensures before == [Login(t), Logout([], true)] && (forall st <- later :: !st.Logout?)
    ensures var s := After(jwt, Fresh(jwt(t).nbf), before);
            && t in s.issued && t !in s.list.keys
            && !NeverAuthenticates(jwt, Apply(jwt, s, Logout(t, true)), later, t)
  {
    hide Lines, Removed, LiveSet, After;
    var s0 := Fresh(jwt(t).nbf);
    var s1 := Apply(jwt, s0, Login(t));
    var s2 := Apply(jwt, s1, Logout([], true));
    before := [Login(t)] + ([Logout([], true)] + []);
    AfterCons(jwt, s0, Login(t), [Logout([], true)] + []);
    AfterCons(jwt, s1, Logout([], true), []);
    AfterNone(jwt, s2);
    var s3 := Apply(jwt, s2, Logout(t, true));
    assert s3.list.bytes == ['\n'] + t + ['\n'] && s3.list.keys == {[], t};
    later := JoinedTokenComesBack(jwt, FromHere(s3), t);
  }

  lemma JoinedTokenComesBack(jwt: Decoder, s: State, t: string) returns (steps: seq<Step>)
    requires Legal(t) && Usable(jwt, t) && !jwt([]).signed && s.now == jwt(t).nbf
    requires s.list == ListState(true, ['\n'] + t + ['\n'], {[], t}) && s.pass == Idle
    ensures NoLogout(steps) && Outcome(t, true) in After(jwt, s, steps).outcomes
  {
    hide Lines, Removed, LiveSet, After;
    RemovingEmptyJoinsLines(t);
    var order: seq<string> := [[], t];
    assert multiset(order) == multiset(s.list.keys);
    var s1 := Apply(jwt, s, Snapshot(order));
    var s2 := Apply(jwt, s1, Decide);
    var s3 := Apply(jwt, s2, Drop(true));
    var s4 := Apply(jwt, s3, Restart);
    var rest := AcceptsForgotten(jwt, s4, t);
    steps := [Snapshot(order)] + ([Decide] + ([Drop(true)] + ([Restart] + rest)));
    AfterCons(jwt, s, Snapshot(order), [Decide] + ([Drop(true)] + ([Restart] + rest)));
    AfterCons(jwt, s1, Decide, [Drop(true)] + ([Restart] + rest));
    AfterCons(jwt, s2, Drop(true), [Restart] + rest);
    AfterCons(jwt, s3, Restart, rest);
  }

  /** Every logout in the run is of one of these strings. */
  ghost predicate LogsOut(steps: seq<Step>, allowed: iset<string>) {
    forall st <- steps :: st.Logout? ==> st.token in allowed
  }

  ghost predicate Lasts(jwt: Decoder, boot: State, before: seq<Step>, t: string,
                        between: seq<Step>, later: seq<Step>) {
    var s := After(jwt, boot, before);
    t in s.issued && t !in s.list.keys ==>
      NeverAuthenticates(jwt, After(jwt, Apply(jwt, s, Logout(t, true)), between), later, t)
  }

  /** No run that logs out only these strings undoes the logout of an issued one. */
  ghost predicate PermanentUnder(jwt: Decoder, allowed: iset<string>) {
    forall boot, before, t, between, later
      | Booted(boot) && t in allowed
        && LogsOut(before, allowed) && LogsOut(between, allowed) && LogsOut(later, allowed)
      :: Lasts(jwt, boot, before, t, between, later)
  }

  lemma NoneEmpty(steps: seq<Step>, allowed: iset<string>)
    requires LogsOut(steps, allowed) && [] !in allowed
    ensures NoEmptyLogout(steps)
  {
  }

  /** Over the strings that may be logged out: revocation is permanent in every
      run if and only if the empty string is not among them. */
  lemma PermanentExactly(jwt: Decoder, allowed: iset<string>, t: string)
    requires t in allowed && Legal(t) && Usable(jwt, t) && !jwt([]).signed
    ensures PermanentUnder(jwt, allowed) <==> [] !in allowed
  {
    hide After, NeverAuthenticates, Booted, Apply, Legal, Usable;
    if [] in allowed {
      var before, later := EmptyLogoutUndoesRevocation(jwt, t);
      FreshIsBooted(jwt(t).nbf);
      var s := Apply(jwt, After(jwt, Fresh(jwt(t).nbf), before), Logout(t, true));
      AfterNone(jwt, s);
      assert !Lasts(jwt, Fresh(jwt(t).nbf), before, t, [], later);
    } else {
      forall boot, before, u, between, later
        | Booted(boot) && u in allowed
          && LogsOut(before, allowed) && LogsOut(between, allowed) && LogsOut(later, allowed)
        ensures Lasts(jwt, boot, before, u, between, later)
      {
        NoneEmpty(before, allowed);
        NoneEmpty(between, allowed);
        NoneEmpty(later, allowed);
        var s := After(jwt, boot, before);
        if u in s.issued && u !in s.list.keys {
          RevocationIsPermanent(jwt, boot, before, u, between, later);
        }
      }
    }
  }

  lemma FreshIsBooted(now: int)
    ensures Booted(Fresh(now))
  {
    NoLines();
  }
}
