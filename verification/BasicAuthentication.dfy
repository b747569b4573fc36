/** The authentication strategy: token login, the check against list and
    verifier, logout, and one round of the compaction thread. */
module BasicAuthentication {
  import opened Files
  import opened Text
  import opened RevocationFile
  import opened CachedFileList
  import opened AuthenticationRuns

  /** The entries of the request context that the strategy reads and writes. */
  class ComputationContext {
    var username: string
    var password: string
    var token: string
    var authenticated: Option<bool>
    var info: string
  }

  class BasicAuthenticationStrategy {
    const username: string
    const password: string
    const expiration: int
    const blacklistedTokens: CachedFileList

    // The token library: signing with this server's secret, and decoding.
    const sign: (string, int, int, int) -> string  // user, issued at, expires, not before
    const jwt: Decoder

    /** Decoding gives back what was signed, in a token fit for a line of a file. */
    ghost predicate LibraryAgrees() {
      forall user, iat, exp, nbf ::
        var t := sign(user, iat, exp, nbf);
        Legal(t) && jwt(t) == Claims(true, iat, nbf, exp, Some(user))
    }

    constructor (username: string, password: string, expiration: int, file: File,
                 sign: (string, int, int, int) -> string, jwt: Decoder)
      requires file.present || file.bytes == []
      ensures this.username == username && this.password == password && this.expiration == expiration
      ensures this.sign == sign && this.jwt == jwt
      ensures fresh(blacklistedTokens) && blacklistedTokens.file == file
      ensures blacklistedTokens.State() == ListState(file.present, file.bytes, {}).Reload()
    {
      this.username, this.password, this.expiration := username, password, expiration;
      this.sign, this.jwt := sign, jwt;
      blacklistedTokens := new CachedFileList(file);
    }

    /** A login with the right credentials gives a token that names the user who
        logged in, that the `Login` step of a run hands out, and that is accepted
        until it expires; any other login gives none. The clock is read three
        times, for `iat`, `exp` and `nbf`. */
    method Authenticate(context: ComputationContext, now: int, soon: int, later: int)
      requires now <= soon <= later
      modifies context
      ensures context.authenticated == Some(context.username == username && context.password == password)
      ensures context.username == old(context.username) && context.password == old(context.password)
      ensures context.info == old(context.info)
      ensures context.authenticated == Some(false) ==> context.token == old(context.token)
      ensures context.authenticated == Some(true) && LibraryAgrees() ==>
                && jwt(context.token).username == Some(old(context.username))
                && jwt(context.token).iat == now
                && (forall s: State ::
                      s.now >= later ==> context.token in AuthenticationRuns.Apply(jwt, s, Login(context.token)).issued)
                && (forall t :: Accepts(jwt, context.token, t) <==> later <= t < soon + expiration)
    {
      if context.username == username && context.password == password {
        context.token := sign(context.username, now, soon + expiration, later);
        context.authenticated := Some(true);
      } else {
        context.authenticated := Some(false);
      }
    }

    /** A listed token is refused unread. Any other must verify and have a user
        name that is a string; the lookup of the name throws otherwise, and what
        is thrown is answered like a failed verification. */
    method IsAuthenticated(context: ComputationContext, now: int)
      requires context as object != blacklistedTokens && context as object != blacklistedTokens.file
      modifies context
      ensures context.token == old(context.token)
      ensures context.authenticated
           == Some(context.token !in blacklistedTokens.State().keys && Accepts(jwt, context.token, now))
      ensures context.info
           == if context.authenticated == Some(true) then jwt(context.token).username.value else old(context.info)
    {
      var found := blacklistedTokens.Find(context.token);
      if found {
        context.authenticated := Some(false);
        return;
      }
      if !Verifies(jwt, context.token, now) {
        context.authenticated := Some(false);
        return;
      }
      match jwt(context.token).username
      case Some(user) =>
        context.authenticated := Some(true);
        context.info := user;
      case None =>
        context.authenticated := Some(false);
    }

    method RemoveAuthentication(context: ComputationContext, opens: bool)
      modifies blacklistedTokens`cache, blacklistedTokens.file
      ensures blacklistedTokens.State() == old(blacklistedTokens.State()).Add(old(context.token), opens)
    {
      var token := context.token;
      blacklistedTokens.Add(token, opens);
    }

    /** One round of the compaction thread at a fixed time, with nothing else
        running: exactly the tokens that still verify are left, in memory and on
        disk, and a rewritten file holds no tombstone. A token for which the file
        did not open is left for the next round. */
    method CompactRound(now: int, opens: string -> bool, rewrites: bool)
      requires blacklistedTokens.State().Sound()
      modifies blacklistedTokens`cache, blacklistedTokens.file
      ensures var st := blacklistedTokens.State();
              && st.Sound()
              && st.keys == Surviving(jwt, old(blacklistedTokens.State()).keys, now, opens)
              && st.keys == LiveSet(st.bytes)
              && (rewrites && st.present ==> forall l <- Lines(st.bytes) :: !IsTombstone(l))
    {
      var allTokens := blacklistedTokens.GetAll();
      ghost var st := blacklistedTokens.State();
      DropAllMeaning(jwt, st, allTokens, now, opens);
      CompactIsSound(DropAll(jwt, st, allTokens, now, opens), rewrites);
      SameMembers(jwt, allTokens, st.keys, now, opens);
      hide *;
      var i := 0;
      DropAllStarts(jwt, st, allTokens, now, opens);
      while i < |allTokens|
        invariant 0 <= i <= |allTokens|
        invariant DropAll(jwt, blacklistedTokens.State(), allTokens[i..], now, opens)
               == DropAll(jwt, st, allTokens, now, opens)
      {
        var token := allTokens[i];
        DropAllStep(jwt, blacklistedTokens.State(), allTokens, i, now, opens);
        if !Verifies(jwt, token, now) {
          blacklistedTokens.Remove(token, opens(token));
        }
        i := i + 1;
      }
      DropAllEnds(jwt, blacklistedTokens.State(), allTokens, now, opens);
      blacklistedTokens.CompactFile(rewrites, rewrites);
    }
  }

  /** A whole session: a login, a check, a logout and another check. With the
      right credentials and a token not listed before, the first check succeeds
      exactly while the token is valid and then reports the user who logged in;
      the second one only if, besides, the file did not open at the logout. */
  method Session(strategy: BasicAuthenticationStrategy, context: ComputationContext,
                 now: int, soon: int, later: int, at: int, opens: bool, again: int)
      returns (entered: bool, stayed: bool, who: string)
    requires now <= soon <= later
    requires context as object != strategy.blacklistedTokens && context as object != strategy.blacklistedTokens.file
    requires strategy.LibraryAgrees()
    modifies context, strategy.blacklistedTokens`cache, strategy.blacklistedTokens.file
    ensures var st, token := old(strategy.blacklistedTokens.State()), context.token;
            var right := old(context.username) == strategy.username && old(context.password) == strategy.password;
            && (right ==> strategy.jwt(token).username == Some(old(context.username)))
            && (entered <==> right && token !in st.keys && later <= at < soon + strategy.expiration)
            && (entered ==> who == old(context.username))
            && (stayed <==> right && token !in st.keys && !opens && later <= again < soon + strategy.expiration)
            && strategy.blacklistedTokens.State() == if right then st.Add(token, opens) else st
  {
    entered, stayed, who := false, false, [];
    strategy.Authenticate(context, now, soon, later);
    if context.authenticated == Some(true) {
      strategy.IsAuthenticated(context, at);
      entered, who := context.authenticated == Some(true), context.info;
      strategy.RemoveAuthentication(context, opens);
      strategy.IsAuthenticated(context, again);
      stayed := context.authenticated == Some(true);
    }
  }

  ghost function Surviving(jwt: Decoder, keys: set<string>, now: int, opens: string -> bool): set<string> {
    set t | t in keys && (Verifies(jwt, t, now) || !opens(t))
  }

  /** What the round does to the list, token by token. */
  function DropAll(jwt: Decoder, st: ListState, tokens: seq<string>, now: int, opens: string -> bool): ListState
    decreases |tokens|
  {
    if tokens == [] then st else DropAll(jwt, DropOne(jwt, st, tokens[0], now, opens), tokens[1..], now, opens)
  }

  function DropOne(jwt: Decoder, st: ListState, t: string, now: int, opens: string -> bool): ListState {
    if Verifies(jwt, t, now) then st else st.Remove(t, opens(t))
  }

  lemma {:induction false} DropAllMeaning(jwt: Decoder, st: ListState, tokens: seq<string>, now: int,
                                          opens: string -> bool)
    requires st.Sound()
    ensures var st' := DropAll(jwt, st, tokens, now, opens);
            && st'.Sound()
            && st'.keys == st.keys - (set t | t in tokens && !Verifies(jwt, t, now) && opens(t))
    decreases |tokens|
  {
    hide ListState.Sound, Verifies, Removed;
    if tokens != [] {
      RemoveIsSound(st, tokens[0], opens(tokens[0]));
      NoFileNoKeys(st);
      DropAllMeaning(jwt, DropOne(jwt, st, tokens[0], now, opens), tokens[1..], now, opens);
      assert forall t :: t in tokens <==> t == tokens[0] || t in tokens[1..];
    }
  }

  lemma SameMembers(jwt: Decoder, tokens: seq<string>, keys: set<string>, now: int, opens: string -> bool)
    requires multiset(tokens) == multiset(keys)
    ensures keys - (set t | t in tokens && !Verifies(jwt, t, now) && opens(t)) == Surviving(jwt, keys, now, opens)
  {
    assert forall t :: t in tokens <==> t in multiset(tokens);
  }

  lemma DropAllStarts(jwt: Decoder, st: ListState, tokens: seq<string>, now: int, opens: string -> bool)
    ensures DropAll(jwt, st, tokens[0..], now, opens) == DropAll(jwt, st, tokens, now, opens)
  {
    assert tokens[0..] == tokens;
  }

  lemma DropAllStep(jwt: Decoder, st: ListState, tokens: seq<string>, i: nat, now: int, opens: string -> bool)
    requires i < |tokens|
    ensures var st' := if Verifies(jwt, tokens[i], now) then st else st.Remove(tokens[i], opens(tokens[i]));
            DropAll(jwt, st, tokens[i..], now, opens) == DropAll(jwt, st', tokens[i + 1..], now, opens)
  {
    assert tokens[i..][1..] == tokens[i + 1..];
  }

  lemma DropAllEnds(jwt: Decoder, st: ListState, tokens: seq<string>, now: int, opens: string -> bool)
    ensures DropAll(jwt, st, tokens[|tokens|..], now, opens) == st
  {
  }
}
