/** What every account call answers, what it changes and what it leaves alone, and which calls a
    token can come from. Conditions are stated on the stored fields. */
module AccountCalls {
  import opened Wrappers
  import opened Accounts

  /** Every token the user owned is blacklisted, and no other token changed. */
  ghost predicate SessionsEnded(s: State, s': State, user: int) {
    && s'.tokens.Keys == s.tokens.Keys
    && forall t :: t in s.tokens ==>
         s'.tokens[t] == if s.tokens[t].owner == Some(user) then s.tokens[t].(blacklisted := true) else s.tokens[t]
  }

  /** The accounts of all other users are as before. */
  ghost predicate OthersKept(s: State, s': State, user: int) {
    && s'.users.Keys == s.users.Keys && s'.nextUser == s.nextUser
    && forall u :: u in s.users && u != user ==> s'.users[u] == s.users[u]
  }

  ghost predicate IsFreshToken(cfg: Settings, s: State, s': State, t: nat, user: int, now: int) {
    && t !in s.tokens && t in s'.tokens
    && s'.tokens[t].claim == user && s'.tokens[t].owner == Some(user)
    && !s'.tokens[t].blacklisted && s'.tokens[t].expiresAt == now + cfg.lifetime
  }

  /** Tokens other than these two are as before. */
  ghost predicate OtherTokensKept(s: State, s': State, t: nat, u: nat) {
    forall k :: k != t && k != u ==>
      (k in s'.tokens <==> k in s.tokens) && (k in s.tokens ==> s'.tokens[k] == s.tokens[k])
  }

  lemma NewIds(s: State)
    requires Safe(s)
    ensures s.nextUser !in s.users && s.nextToken !in s.tokens
  {
    assert forall u :: u in s.users ==> AccountOk(s, u);
    assert forall t :: t in s.tokens ==> TokenSafe(s, t);
  }

  // ----- sign-up and login -----

  lemma SignUpCall(cfg: Settings, s: State)
    requires Safe(s)
    ensures var (s', r) := Apply(cfg, s, SignUp);
            && r == Done && s.nextUser !in s.users && s.nextUser in s'.users
            && s'.users[s.nextUser].isActive && s'.users[s.nextUser].deletedAt.None?
            && s'.tokens == s.tokens && s'.nextUser == s.nextUser + 1
            && forall u :: u in s.users ==> u in s'.users && s'.users[u] == s.users[u]
  {
    NewIds(s);
  }

  /** A login issues a token exactly to an existing, active account with the right password. */
  lemma LoginCall(cfg: Settings, s: State, user: int, passwordOk: bool, now: int)
    requires Safe(s)
    ensures var (s', r) := Apply(cfg, s, Login(user, passwordOk, now));
            && (r.Issued? <==>
                 user in s.users && s.users[user].deletedAt.None? && s.users[user].isActive && passwordOk)
            && (r.Raised? ==> s' == s)
            && (r == Raised(AccountDeactivated) <==>
                 user in s.users && (s.users[user].deletedAt.Some? || !s.users[user].isActive))
            && (r == Raised(InvalidCredentials) <==>
                 user !in s.users || (s.users[user].deletedAt.None? && s.users[user].isActive && !passwordOk))
            && (r.Issued? ==>
                 s'.users == s.users && IsFreshToken(cfg, s, s', r.token, user, now)
                 && OtherTokensKept(s, s', r.token, r.token))
  {
    NewIds(s);
  }

  // ----- presenting a token -----

  /** A refresh is accepted exactly for a known, unexpired token that is not blacklisted and whose
      account exists and is active; a refused one changes nothing. */
  lemma RefreshCall(cfg: Settings, s: State, token: Option<nat>, now: int)
    requires Safe(s)
    ensures var (s', r) := Apply(cfg, s, Refresh(token, now));
            var known := token.Some? && token.value in s.tokens;
            var expired := known && s.tokens[token.value].expiresAt <= now;
            var live := known && !expired && !s.tokens[token.value].blacklisted;
            var found := live && s.tokens[token.value].claim in s.users;
            var usable := found && s.users[s.tokens[token.value].claim].deletedAt.None?
                          && s.users[s.tokens[token.value].claim].isActive;
            && (r.Raised? <==> !usable) && (r.Raised? ==> s' == s)
            && (r == Raised(RefreshTokenMissing) <==> token.None?)
            && (r == Raised(RefreshTokenExpired) <==> expired)
            && (r == Raised(AccountDeactivated) <==> found && !usable)
            && (r == Raised(InvalidRefreshToken) <==> token.Some? && !expired && !found)
            && (usable ==> s'.users == s.users)
  {}

  /** What an accepted refresh does to the tokens, per policy. */
  lemma RefreshEffect(cfg: Settings, s: State, token: Option<nat>, now: int)
    requires Safe(s) && !Apply(cfg, s, Refresh(token, now)).1.Raised?
    ensures token.Some? && token.value in s.tokens
    ensures var (s', r) := Apply(cfg, s, Refresh(token, now));
            var t := token.value;
            && (cfg.rotate <==> r.Issued?)
            && (!cfg.rotate ==> r == Done && s'.tokens == s.tokens)
            && (cfg.rotate ==>
                 && IsFreshToken(cfg, s, s', r.token, s.tokens[t].claim, now)
                 && OtherTokensKept(s, s', t, r.token)
                 && t in s'.tokens
                 && s'.tokens[t] == s.tokens[t].(blacklisted := cfg.blacklistAfterRotation))
  {
    NewIds(s);
  }

  /** A logout blacklists exactly the presented token, if it is known, unexpired and live. */
  lemma LogoutCall(cfg: Settings, s: State, token: Option<nat>, now: int)
    ensures var (s', r) := Apply(cfg, s, Logout(token, now));
            && (r == Done <==>
                 && token.Some? && token.value in s.tokens
                 && now < s.tokens[token.value].expiresAt && !s.tokens[token.value].blacklisted)
            && (r == Done || r.Raised?) && (r.Raised? ==> s' == s)
            && (r.Raised? ==> r.error == if token.None? then RefreshTokenMissing else InvalidRefreshToken)
            && (r == Done ==>
                 && s'.users == s.users && OtherTokensKept(s, s', token.value, token.value)
                 && token.value in s'.tokens && s'.tokens[token.value] == s.tokens[token.value].(blacklisted := true))
  {}

  // ----- changing an account -----

  lemma DeleteMeCall(cfg: Settings, s: State, user: int, now: int)
    ensures var (s', r) := Apply(cfg, s, DeleteMe(user, now));
            && (r == Done <==> user in s.users && s.users[user].deletedAt.None? && s.users[user].isActive)
            && (r != Done ==> r == Raised(AccountDeactivated) && s' == s)
            && (r == Done ==>
                 && OthersKept(s, s', user) && SessionsEnded(s, s', user)
                 && !s'.users[user].isActive && s'.users[user].deletedAt == Some(now))
  {}

  /** A new password needs a usable account and the other checks, and ends every session. */
  lemma PasswordCalls(cfg: Settings, s: State, user: int, accepted: bool)
    ensures var (s', r) := Apply(cfg, s, ChangePassword(user, accepted));
            && Apply(cfg, s, ResetPassword(user, accepted)) == (s', r)
            && (r == Done <==> user in s.users && s.users[user].deletedAt.None? && s.users[user].isActive && accepted)
            && (r == Raised(PasswordRefused) <==>
                 user in s.users && s.users[user].deletedAt.None? && s.users[user].isActive && !accepted)
            && (r == Done || r == Raised(PasswordRefused) || r == Raised(AccountDeactivated))
            && (r != Done ==> s' == s)
            && (r == Done ==> s'.users == s.users && SessionsEnded(s, s', user))
  {}

  lemma RestoreCall(cfg: Settings, s: State, user: int, passwordOk: bool, now: int)
    ensures var (s', r) := Apply(cfg, s, Restore(user, passwordOk, now));
            && (r == Done <==>
                 && user in s.users && passwordOk && s.users[user].deletedAt.Some?
                 && now <= s.users[user].deletedAt.value + cfg.retention)
            && (r == Raised(InvalidCredentials) <==> user !in s.users || !passwordOk)
            && (r == Raised(AccountNotDeleted) <==> user in s.users && passwordOk && s.users[user].deletedAt.None?)
            && (r == Done || r == Raised(InvalidCredentials) || r == Raised(AccountNotDeleted)
                || r == Raised(AccountRestoreExpired))
            && (r != Done ==> s' == s)
            && (r == Done ==>
                 && OthersKept(s, s', user) && SessionsEnded(s, s', user)
                 && s'.users[user].isActive && s'.users[user].deletedAt.None?)
  {}

  /** Activation also undeletes, deactivation keeps the deletion mark; sessions end exactly when
      either field changes. */
  lemma SetStatusCall(cfg: Settings, s: State, user: int, active: bool)
    ensures var (s', r) := Apply(cfg, s, SetStatus(user, active));
            && (r == Done <==> user in s.users) && (r != Done ==> r == Raised(UserNotFound) && s' == s)
            && (r == Done ==>
                 && OthersKept(s, s', user) && s'.users[user].isActive == active
                 && s'.users[user].deletedAt == (if active then None else s.users[user].deletedAt)
                 && (if s'.users[user] == s.users[user] then s' == s else SessionsEnded(s, s', user)))
  {
    if user in s.users && Apply(cfg, s, SetStatus(user, active)).0.users[user] == s.users[user] {
      assert s.users[user := s.users[user]] == s.users;
    }
  }

  /** Exactly the accounts deleted at least the retention ago go, and their tokens lose the owner. */
  lemma PurgeCall(cfg: Settings, s: State, now: int)
    ensures var s' := Apply(cfg, s, Purge(now)).0;
            && (forall u :: u in s'.users <==>
                 u in s.users && !(s.users[u].deletedAt.Some? && s.users[u].deletedAt.value + cfg.retention <= now))
            && (forall u :: u in s'.users ==> s'.users[u] == s.users[u])
            && s'.tokens.Keys == s.tokens.Keys
            && (forall t :: t in s.tokens ==>
                 && s'.tokens[t].blacklisted == s.tokens[t].blacklisted && s'.tokens[t].claim == s.tokens[t].claim
                 && s'.tokens[t].expiresAt == s.tokens[t].expiresAt
                 && s'.tokens[t].owner ==
                    if s.tokens[t].owner.Some? && s.tokens[t].owner.value in s.users
                       && s.tokens[t].owner.value !in s'.users then None
                    else s.tokens[t].owner)
  {}

  // ----- where tokens come from -----

  /** The call that made token t, in the state it was made in: a login with the right password, or
      a refresh that presented a live, unexpired token of the same user. */
  ghost predicate Issues(cfg: Settings, s: State, op: Op, t: nat, claim: int) {
    && t !in s.tokens && t in Apply(cfg, s, op).0.tokens
    && match op
       case Login(user, passwordOk, _) => user == claim && passwordOk
       case Refresh(token, now) =>
         && token.Some? && token.value in s.tokens && s.tokens[token.value].claim == claim
         && !s.tokens[token.value].blacklisted && now < s.tokens[token.value].expiresAt
       case _ => false
  }

  lemma StepIssues(cfg: Settings, s: State, op: Op, t: nat)
    requires Safe(s) && t in Apply(cfg, s, op).0.tokens
    ensures var k := Apply(cfg, s, op).0.tokens[t];
            if t in s.tokens then k.claim == s.tokens[t].claim else Issues(cfg, s, op, t, k.claim)
  {}

  /** Step i of the run made token t for this user. */
  ghost predicate IssuedAt(cfg: Settings, ops: seq<Op>, i: int, t: nat, claim: int)
    requires 0 <= i < |ops|
  {
    Issues(cfg, Run(cfg, EMPTY, ops[..i]), ops[i], t, claim)
  }

  /** Every token of a reachable state was made by a login with the right password or by a refresh
      of a live token of the same user. */
  lemma {:induction false} EveryTokenWasIssued(cfg: Settings, ops: seq<Op>, t: nat)
    requires t in Run(cfg, EMPTY, ops).tokens
    ensures exists i :: 0 <= i < |ops| && IssuedAt(cfg, ops, i, t, Run(cfg, EMPTY, ops).tokens[t].claim)
  {
    if ops != [] {
      var n := |ops| - 1;
      var s, claim := Run(cfg, EMPTY, ops[..n]), Run(cfg, EMPTY, ops).tokens[t].claim;
      RunIsSafe(cfg, ops[..n]);
      StepIssues(cfg, s, ops[n], t);
      if t in s.tokens {
        EveryTokenWasIssued(cfg, ops[..n], t);
        var i :| 0 <= i < n && IssuedAt(cfg, ops[..n], i, t, claim);
        assert ops[..n][..i] == ops[..i];
        assert IssuedAt(cfg, ops, i, t, claim);
      } else {
        assert IssuedAt(cfg, ops, n, t, claim);
      }
    }
  }

  /** This step is a login of the user with the right password. */
  predicate IsLoginOf(op: Op, user: int) {
    op.Login? && op.user == user && op.passwordOk
  }

  /** No session without a password: whoever holds a token in a reachable state, the user in it
      has logged in with the right password earlier in the run. */
  lemma {:induction false} NoSessionWithoutLogin(cfg: Settings, ops: seq<Op>, t: nat)
    requires t in Run(cfg, EMPTY, ops).tokens
    ensures exists i :: 0 <= i < |ops| && IsLoginOf(ops[i], Run(cfg, EMPTY, ops).tokens[t].claim)
  {
    if ops != [] {
      var n := |ops| - 1;
      var s, claim := Run(cfg, EMPTY, ops[..n]), Run(cfg, EMPTY, ops).tokens[t].claim;
      RunIsSafe(cfg, ops[..n]);
      StepIssues(cfg, s, ops[n], t);
      if !IsLoginOf(ops[n], claim) {
        var earlier := if t in s.tokens then t else ops[n].token.value;
        NoSessionWithoutLogin(cfg, ops[..n], earlier);
        var i :| 0 <= i < n && IsLoginOf(ops[..n][i], claim);
        assert IsLoginOf(ops[i], claim);
      }
    }
  }
}
