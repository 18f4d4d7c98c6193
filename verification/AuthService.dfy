/** The account and token services in their imperative form, each a step of `Accounts`. */
module AuthService {
  import opened Wrappers
  import opened Lists
  import opened Accounts
  import ResetCodes

  class Service {
    const cfg: Settings
    var users: map<int, Account>
    var nextUser: int
    var tokens: map<nat, Token>
    var nextToken: nat
    ghost var balance: map<int, int>
    ghost var uses: map<nat, nat>

    ghost function View(): State
      reads this
    {
      State(users, nextUser, tokens, nextToken, balance, uses)
    }

    constructor (cfg: Settings)
      ensures this.cfg == cfg && View() == EMPTY
    {
      this.cfg := cfg;
      users, nextUser, tokens, nextToken, balance, uses := map[], 0, map[], 0, map[], map[];
    }

    /** Blacklists every outstanding token of the user, one by one. */
    method RevokeAllRefreshTokens(user: int)
      modifies this
      ensures View() == RevokedAll(old(View()), user)
    {
      ghost var before := tokens;
      ghost var done: set<nat> := {};
      var rest := set t | t in tokens && tokens[t].owner == Some(user);
      while rest != {}
        invariant unchanged(`users) && unchanged(`nextUser) && unchanged(`nextToken) && unchanged(`balance)
            && unchanged(`uses)
        invariant done + rest == OutstandingOf(before, user) && done !! rest
        invariant tokens == Blacklisted(before, done)
        decreases rest
      {
        ghost var next := Element(rest);
        var t :| t in rest;
        rest, done := rest - {t}, done + {t};
        tokens := tokens[t := tokens[t].(blacklisted := true)];
      }
      balance := balance[user := 0];
    }

    method IssueAuthTokens(user: int, now: int) returns (token: nat)
      modifies this
      ensures View() == WithToken(cfg, old(View()), user, now) && token == old(nextToken)
    {
      token := nextToken;
      tokens := tokens[token := Token(user, Some(user), false, now + cfg.lifetime)];
      nextToken := nextToken + 1;
    }

    /** Creates the account once the emailed code is confirmed, or changes no account. */
    method SignupUser(
        codes: ResetCodes.EmailCodes, email: string, guess: string, user: Option<int>, nicknameTaken: bool,
        passwordOk: bool)
      returns (r: ResetCodes.Outcome)
      requires codes.Valid()
      modifies this, codes
      ensures codes.Valid()
      ensures (codes.View(), r) ==
              ResetCodes.Apply(old(codes.View()),
                               ResetCodes.SignUp(email, guess, old(StateOf(user, false)), nicknameTaken, passwordOk))
      ensures View() == if r == ResetCodes.Done then Apply(cfg, old(View()), Op.SignUp).0 else old(View())
    {
      r := codes.SignupUser(email, guess, StateOf(user, false), nicknameTaken, passwordOk);
      if r == ResetCodes.Done {
        users := users[nextUser := Account(true, None)];
        nextUser := nextUser + 1;
      }
    }

    method Login(user: int, passwordOk: bool, now: int) returns (r: Outcome)
      modifies this
      ensures (View(), r) == Apply(cfg, old(View()), Op.Login(user, passwordOk, now))
      ensures r.Issued? <==>
                user in users && users[user].deletedAt.None? && users[user].isActive && passwordOk
      ensures users == old(users) && (r.Raised? ==> View() == old(View()))
    {
      if user !in users { return Raised(InvalidCredentials); }
      if users[user].deletedAt.Some? || !users[user].isActive { return Raised(AccountDeactivated); }
      if !passwordOk { return Raised(InvalidCredentials); }
      var token := IssueAuthTokens(user, now);
      balance := balance[user := Get(balance, user) + 1];
      r := Issued(token);
    }

    /** Verifies a presented token the way the token library does. */
    method VerifyToken(token: Option<nat>, now: int, expired: AuthError) returns (e: Option<AuthError>)
      ensures e == TokenError(View(), token, now, expired)
    {
      if token.None? { return Some(RefreshTokenMissing); }
      if token.value !in tokens { return Some(InvalidRefreshToken); }
      if tokens[token.value].expiresAt <= now { return Some(expired); }
      if tokens[token.value].blacklisted { return Some(InvalidRefreshToken); }
      e := None;
    }

    method Blacklist(t: nat)
      requires t in tokens
      modifies this
      ensures View() == Spent(old(View()), t)
    {
      tokens := tokens[t := tokens[t].(blacklisted := true)];
    }

    method LogoutUser(token: Option<nat>, now: int) returns (r: Outcome)
      modifies this
      ensures (View(), r) == Apply(cfg, old(View()), Logout(token, now))
    {
      var e := VerifyToken(token, now, InvalidRefreshToken);
      if e.Some? { return Raised(e.value); }
      uses := uses[token.value := Uses(uses, token.value) + 1];
      balance := balance[tokens[token.value].claim := Get(balance, tokens[token.value].claim) - 1];
      Blacklist(token.value);
      r := Done;
    }

    method RefreshAccessToken(token: Option<nat>, now: int) returns (r: Outcome)
      modifies this
      ensures (View(), r) == Apply(cfg, old(View()), Refresh(token, now))
    {
      var e := VerifyToken(token, now, RefreshTokenExpired);
      if e.Some? { return Raised(e.value); }
      var user := tokens[token.value].claim;
      if user !in users { return Raised(InvalidRefreshToken); }
      if users[user].deletedAt.Some? || !users[user].isActive { return Raised(AccountDeactivated); }
      uses := uses[token.value := Uses(uses, token.value) + 1];
      if cfg.rotate {
        if cfg.blacklistAfterRotation { Blacklist(token.value); }
        var issued := IssueAuthTokens(user, now);
        return Issued(issued);
      }
      r := Done;
    }

    method DeleteUserMe(user: int, now: int) returns (r: Outcome)
      modifies this
      ensures (View(), r) == Apply(cfg, old(View()), DeleteMe(user, now))
    {
      if user !in users || users[user].deletedAt.Some? || !users[user].isActive { return Raised(AccountDeactivated); }
      users := users[user := Account(false, Some(now))];
      RevokeAllRefreshTokens(user);
      r := Done;
    }

    method ChangePassword(user: int, accepted: bool) returns (r: Outcome)
      modifies this
      ensures (View(), r) == Apply(cfg, old(View()), Op.ChangePassword(user, accepted))
    {
      if user !in users || users[user].deletedAt.Some? || !users[user].isActive { return Raised(AccountDeactivated); }
      if !accepted { return Raised(PasswordRefused); }
      RevokeAllRefreshTokens(user);
      r := Done;
    }

    /** What the user table says of the account behind an email address. */
    function StateOf(user: Option<int>, socialOnly: bool): (state: ResetCodes.UserState)
      reads this
      ensures state == ResetCodes.NoUser <==> user.None? || user.value !in users
      ensures state == ResetCodes.Deactivated <==>
              user.Some? && user.value in users && (users[user.value].deletedAt.Some? || !users[user.value].isActive)
      ensures state == ResetCodes.Ordinary <==>
              && user.Some? && user.value in users && !socialOnly
              && users[user.value].deletedAt.None? && users[user.value].isActive
    {
      if user.None? || user.value !in users then ResetCodes.NoUser
      else if !Usable(users[user.value]) then ResetCodes.Deactivated
      else if socialOnly then ResetCodes.SocialOnly
      else ResetCodes.Ordinary
    }

    /** A reset spends its code and ends every session of the account, or does neither. */
    method ResetUserPassword(
        codes: ResetCodes.EmailCodes, email: string, guess: string, user: Option<int>, socialOnly: bool,
        passwordOk: bool)
      returns (r: ResetCodes.Outcome)
      requires codes.Valid()
      modifies this, codes
      ensures codes.Valid()
      ensures (codes.View(), r) ==
              ResetCodes.Apply(old(codes.View()),
                               ResetCodes.Reset(email, guess, old(StateOf(user, socialOnly)), passwordOk))
      ensures r == ResetCodes.Done ==>
                user.Some? && View() == Apply(cfg, old(View()), ResetPassword(user.value, true)).0
      ensures r != ResetCodes.Done ==> View() == old(View())
      ensures r == ResetCodes.Done ==>
                && user.Some? && user.value in users && users[user.value].deletedAt.None? && users[user.value].isActive
                && !socialOnly && passwordOk
    {
      r := codes.ResetUserPassword(email, guess, StateOf(user, socialOnly), passwordOk);
      if r == ResetCodes.Done { RevokeAllRefreshTokens(user.value); }
    }

    method RestoreUserAccount(user: int, passwordOk: bool, now: int) returns (r: Outcome)
      modifies this
      ensures (View(), r) == Apply(cfg, old(View()), Restore(user, passwordOk, now))
    {
      if user !in users || !passwordOk { return Raised(InvalidCredentials); }
      if users[user].deletedAt.None? { return Raised(AccountNotDeleted); }
      var deadline := users[user].deletedAt.value + cfg.retention;
      if deadline < now { return Raised(AccountRestoreExpired); }
      users := users[user := Account(true, None)];
      RevokeAllRefreshTokens(user);
      r := Done;
    }

    method UpdateAdminUserStatus(user: int, active: bool) returns (r: Outcome)
      modifies this
      ensures (View(), r) == Apply(cfg, old(View()), SetStatus(user, active))
    {
      if user !in users { return Raised(UserNotFound); }
      var account := users[user];
      var changed := account.isActive != active;
      account := account.(isActive := active);
      if active && account.deletedAt.Some? {
        account := account.(deletedAt := None);
        changed := true;
      }
      users := users[user := account];
      if changed { RevokeAllRefreshTokens(user); }
      r := Done;
    }

    /** Deletes the accounts past their retention; their tokens lose their owner. */
    method PurgeSoftDeletedUsers(now: int) returns (count: nat)
      modifies this
      ensures View() == Apply(cfg, old(View()), Purge(now)).0
      ensures count == |old(users)| - |users|
    {
      var gone := set u | u in users && Purgeable(cfg, users[u], now);
      count := |gone|;
      tokens := map t | t in tokens ::
        if tokens[t].owner.Some? && tokens[t].owner.value in gone then tokens[t].(owner := None) else tokens[t];
      assert users.Keys == (users - gone).Keys + gone;
      assert |users.Keys| == |(users - gone).Keys| + |gone|;
      users := users - gone;
    }
  }
}
