/** Accounts and refresh tokens as one state machine.

    Refresh tokens rotate as section 10.4 of RFC 6749 describes. Every service call is one atomic
    step. A token is known by its id; `claim` is the user id inside the signed token, `owner` the
    foreign key of the outstanding-token table, which deleting the user clears. */
module Accounts {
  import opened Wrappers

  datatype Account = Account(isActive: bool, deletedAt: Option<int>)

  datatype Token = Token(claim: int, owner: Option<int>, blacklisted: bool, expiresAt: int)

  /** `rotate` and `blacklistAfterRotation` are the two switches of the token library. */
  datatype Settings = Settings(rotate: bool, blacklistAfterRotation: bool, retention: int, lifetime: int)

  /** `balance` and `uses` are history variables: logins minus logouts since the last revocation
      of all tokens, and how often a token was accepted by a refresh or a logout. */
  datatype State = State(users: map<int, Account>, nextUser: int, tokens: map<nat, Token>, nextToken: nat,
                         balance: map<int, int>, uses: map<nat, nat>)

  const EMPTY := State(map[], 0, map[], 0, map[], map[])

  datatype AuthError =
    | InvalidCredentials
    | AccountDeactivated
    | AccountNotDeleted
    | AccountRestoreExpired
    | RefreshTokenMissing
    | InvalidRefreshToken
    | RefreshTokenExpired
    | PasswordRefused
    | UserNotFound

  datatype Outcome = Done | Issued(token: nat) | Raised(error: AuthError)

  /** `passwordOk`, `accepted` stand for the password, social-account and validator checks. */
  datatype Op =
    | SignUp
    | Login(user: int, passwordOk: bool, now: int)
    | Refresh(token: Option<nat>, now: int)
    | Logout(token: Option<nat>, now: int)
    | DeleteMe(user: int, now: int)
    | ChangePassword(user: int, accepted: bool)
    | ResetPassword(user: int, accepted: bool)
    | Restore(user: int, passwordOk: bool, now: int)
    | SetStatus(user: int, active: bool)
    | Purge(now: int)

  // ----- the steps -----

  predicate Usable(a: Account) {
    a.deletedAt.None? && a.isActive
  }

  function Get<K(==)>(m: map<K, int>, k: K): int {
    if k in m then m[k] else 0
  }

  function Uses(uses: map<nat, nat>, t: nat): nat {
    if t in uses then uses[t] else 0
  }

  function Live(s: State, user: int): set<nat> {
    set t | t in s.tokens && s.tokens[t].owner == Some(user) && !s.tokens[t].blacklisted
  }

  function Blacklisted(tokens: map<nat, Token>, which: set<nat>): map<nat, Token> {
    map t | t in tokens :: if t in which then tokens[t].(blacklisted := true) else tokens[t]
  }

  function OutstandingOf(tokens: map<nat, Token>, user: int): set<nat> {
    set t | t in tokens && tokens[t].owner == Some(user)
  }

  /** All outstanding tokens of the user blacklisted; the balance starts over. */
  function RevokedAll(s: State, user: int): State {
    s.(tokens := Blacklisted(s.tokens, OutstandingOf(s.tokens, user)), balance := s.balance[user := 0])
  }

  function WithToken(cfg: Settings, s: State, user: int, now: int): State {
    s.(tokens := s.tokens[s.nextToken := Token(user, Some(user), false, now + cfg.lifetime)],
       nextToken := s.nextToken + 1)
  }

  /** What the token library says of a presented token: expiry is checked before the blacklist. */
  function TokenError(s: State, token: Option<nat>, now: int, expired: AuthError): Option<AuthError> {
    if token.None? then Some(RefreshTokenMissing)
    else if token.value !in s.tokens then Some(InvalidRefreshToken)
    else if s.tokens[token.value].expiresAt <= now then Some(expired)
    else if s.tokens[token.value].blacklisted then Some(InvalidRefreshToken)
    else None
  }

  function RefreshError(s: State, token: Option<nat>, now: int): Option<AuthError> {
    var e := TokenError(s, token, now, RefreshTokenExpired);
    if e.Some? then e
    else
      var user := s.tokens[token.value].claim;
      if user !in s.users then Some(InvalidRefreshToken)
      else if !Usable(s.users[user]) then Some(AccountDeactivated)
      else None
  }

  function Used(s: State, t: nat): State {
    s.(uses := s.uses[t := Uses(s.uses, t) + 1])
  }

  function Spent(s: State, t: nat): State {
    s.(tokens := Blacklisted(s.tokens, {t}))
  }

  function ApplyRefresh(cfg: Settings, s: State, token: Option<nat>, now: int): (State, Outcome) {
    var e := RefreshError(s, token, now);
    if e.Some? then (s, Raised(e.value))
    else
      var t := token.value;
      var user, used := s.tokens[t].claim, Used(s, t);
      if cfg.rotate then
        var spent := if cfg.blacklistAfterRotation then Spent(used, t) else used;
        (WithToken(cfg, spent, user, now), Issued(s.nextToken))
      else (used, Done)
  }

  function ApplyLogout(s: State, token: Option<nat>, now: int): (State, Outcome) {
    var e := TokenError(s, token, now, InvalidRefreshToken);
    if e.Some? then (s, Raised(e.value))
    else
      var t := token.value;
      var user := s.tokens[t].claim;
      (Spent(Used(s, t), t).(balance := s.balance[user := Get(s.balance, user) - 1]), Done)
  }

  function ApplyRestore(cfg: Settings, s: State, user: int, passwordOk: bool, now: int): (State, Outcome) {
    if user !in s.users || !passwordOk then (s, Raised(InvalidCredentials))
    else if s.users[user].deletedAt.None? then (s, Raised(AccountNotDeleted))
    else if s.users[user].deletedAt.value + cfg.retention < now then (s, Raised(AccountRestoreExpired))
    else (RevokedAll(s.(users := s.users[user := Account(true, None)]), user), Done)
  }

  function ApplySetStatus(s: State, user: int, active: bool): (State, Outcome) {
    if user !in s.users then (s, Raised(UserNotFound))
    else
      var a := s.users[user];
      var undelete := active && a.deletedAt.Some?;
      var s' := s.(users := s.users[user := Account(active, if undelete then None else a.deletedAt)]);
      (if a.isActive != active || undelete then RevokedAll(s', user) else s', Done)
  }

  predicate Purgeable(cfg: Settings, a: Account, now: int) {
    a.deletedAt.Some? && a.deletedAt.value <= now - cfg.retention
  }

  function ApplyPurge(cfg: Settings, s: State, now: int): State {
    var gone := set u | u in s.users && Purgeable(cfg, s.users[u], now);
    s.(users := s.users - gone,
       tokens := map t | t in s.tokens ::
         if s.tokens[t].owner.Some? && s.tokens[t].owner.value in gone then s.tokens[t].(owner := None)
         else s.tokens[t])
  }

  function Apply(cfg: Settings, s: State, op: Op): (State, Outcome) {
    match op
    case SignUp =>
      (s.(users := s.users[s.nextUser := Account(true, None)], nextUser := s.nextUser + 1), Done)
    case Login(user, passwordOk, now) =>
      if user !in s.users then (s, Raised(InvalidCredentials))
      else if !Usable(s.users[user]) then (s, Raised(AccountDeactivated))
      else if !passwordOk then (s, Raised(InvalidCredentials))
      else (WithToken(cfg, s, user, now).(balance := s.balance[user := Get(s.balance, user) + 1]), Issued(s.nextToken))
    case Refresh(token, now) => ApplyRefresh(cfg, s, token, now)
    case Logout(token, now) => ApplyLogout(s, token, now)
    case DeleteMe(user, now) =>
      if user !in s.users || !Usable(s.users[user]) then (s, Raised(AccountDeactivated))
      else (RevokedAll(s.(users := s.users[user := Account(false, Some(now))]), user), Done)
    case ChangePassword(user, accepted) =>
      if user !in s.users || !Usable(s.users[user]) then (s, Raised(AccountDeactivated))
      else if !accepted then (s, Raised(PasswordRefused))
      else (RevokedAll(s, user), Done)
    case ResetPassword(user, accepted) =>
      if user !in s.users || !Usable(s.users[user]) then (s, Raised(AccountDeactivated))
      else if !accepted then (s, Raised(PasswordRefused))
      else (RevokedAll(s, user), Done)
    case Restore(user, passwordOk, now) => ApplyRestore(cfg, s, user, passwordOk, now)
    case SetStatus(user, active) => ApplySetStatus(s, user, active)
    case Purge(now) => (ApplyPurge(cfg, s, now), Done)
  }

  function Run(cfg: Settings, s: State, ops: seq<Op>): State {
    if ops == [] then s else Apply(cfg, Run(cfg, s, ops[..|ops| - 1]), ops[|ops| - 1]).0
  }

  // ----- the invariant -----

  /** The configured token policy: rotate, and blacklist the rotated token. */
  predicate Configured(cfg: Settings) {
    cfg.rotate && cfg.blacklistAfterRotation
  }

  ghost predicate AccountOk(s: State, u: int)
    requires u in s.users
  {
    u < s.nextUser && (s.users[u].deletedAt.Some? ==> !s.users[u].isActive)
  }

  /** What holds of a token under every policy: only a usable account has a live one. */
  ghost predicate TokenSafe(s: State, t: nat)
    requires t in s.tokens
  {
    var k := s.tokens[t];
    && t < s.nextToken
    && (k.owner.Some? ==> k.owner == Some(k.claim) && k.claim in s.users)
    && (!k.blacklisted ==> k.owner.Some? && Usable(s.users[k.claim]))
  }

  ghost predicate TokenOk(s: State, t: nat)
    requires t in s.tokens
  {
    TokenSafe(s, t) && Uses(s.uses, t) <= (if s.tokens[t].blacklisted then 1 else 0)
  }

  /** The part of the invariant that needs no particular token policy. */
  ghost predicate Safe(s: State) {
    && (forall u :: u in s.users ==> AccountOk(s, u))
    && (forall t :: t in s.tokens ==> TokenSafe(s, t))
  }

  ghost predicate Balanced(s: State, u: int) {
    Get(s.balance, u) == |Live(s, u)|
  }

  ghost predicate Inv(s: State) {
    && (forall u :: u in s.users ==> AccountOk(s, u))
    && (forall t :: t in s.tokens ==> TokenOk(s, t))
    && (forall t :: t in s.uses ==> t in s.tokens)
    && (forall u :: Balanced(s, u))
  }

  lemma InvIsSafe(s: State)
    requires Inv(s)
    ensures Safe(s)
  {
    forall t | t in s.tokens ensures TokenSafe(s, t) { assert TokenOk(s, t); }
  }

  lemma InactiveHasNoLiveToken(s: State, u: int)
    requires Safe(s) && (u !in s.users || !Usable(s.users[u]))
    ensures Live(s, u) == {}
  {
    assert forall t :: t in s.tokens ==> TokenSafe(s, t) && t !in Live(s, u);
  }

  lemma RevokedKeepsInv(s: State, s': State, user: int, a: Account)
    requires Inv(s) && user in s.users && s' == RevokedAll(s.(users := s.users[user := a]), user)
    requires a.deletedAt.Some? ==> !a.isActive
    ensures Inv(s') && Live(s', user) == {}
  {
    forall u | u in s'.users ensures AccountOk(s', u) { assert u in s.users && AccountOk(s, u); }
    forall t | t in s'.tokens ensures TokenOk(s', t) { assert TokenOk(s, t); }
    forall u ensures Balanced(s', u) {
      assert Balanced(s, u);
      assert Live(s', u) == if u == user then {} else Live(s, u);
    }
  }

  lemma WithTokenLive(cfg: Settings, s: State, user: int, now: int, u: int)
    requires forall t :: t in s.tokens ==> t < s.nextToken
    ensures Live(WithToken(cfg, s, user, now), u) == Live(s, u) + (if u == user then {s.nextToken} else {})
    ensures s.nextToken !in Live(s, u)
  {}

  lemma SpentLive(s: State, t: nat, u: int)
    ensures Live(Spent(s, t), u) == Live(s, u) - {t}
  {}

  lemma SignUpKeepsInv(cfg: Settings, s: State)
    requires Inv(s)
    ensures Inv(Apply(cfg, s, SignUp).0)
  {
    var s' := Apply(cfg, s, SignUp).0;
    forall u | u in s'.users ensures AccountOk(s', u) { if u in s.users { assert AccountOk(s, u); } }
    forall t | t in s'.tokens ensures TokenOk(s', t) {
      assert TokenOk(s, t);
      if s.tokens[t].owner.Some? { assert AccountOk(s, s.tokens[t].claim); }
    }
    forall u ensures Balanced(s', u) {
      assert Balanced(s, u);
      assert Live(s', u) == Live(s, u);
    }
  }

  lemma LoginKeepsInv(cfg: Settings, s: State, user: int, passwordOk: bool, now: int)
    requires Inv(s)
    ensures Inv(Apply(cfg, s, Login(user, passwordOk, now)).0)
  {
    var s' := Apply(cfg, s, Login(user, passwordOk, now)).0;
    if user in s.users && Usable(s.users[user]) && passwordOk {
      forall t | t in s.tokens ensures t < s.nextToken { assert TokenOk(s, t); }
      forall u | u in s'.users ensures AccountOk(s', u) { assert AccountOk(s, u); }
      forall t | t in s'.tokens ensures TokenOk(s', t) {
        if t in s.tokens { assert TokenOk(s, t); }
      }
      forall u ensures Balanced(s', u) {
        assert Balanced(s, u);
        WithTokenLive(cfg, s, user, now, u);
        assert Live(s', u) == Live(WithToken(cfg, s, user, now), u);
      }
    }
  }

  lemma SpentToken(s: State, t: nat, k: nat)
    requires TokenKnown(s, t) && !s.tokens[t].blacklisted && k in s.tokens && TokenOk(s, k)
    ensures TokenOk(Spent(Used(s, t), t), k)
  {}

  ghost predicate TokenKnown(s: State, t: nat) {
    t in s.tokens && TokenOk(s, t)
  }

  /** Accepting a live token and blacklisting it takes it out of its owner's live tokens. */
  lemma SpentLiveCount(s: State, t: nat, u: int)
    requires TokenKnown(s, t) && !s.tokens[t].blacklisted
    ensures |Live(Spent(Used(s, t), t), u)| == |Live(s, u)| - (if u == s.tokens[t].claim then 1 else 0)
  {
    SpentLive(Used(s, t), t, u);
    assert Live(Used(s, t), u) == Live(s, u);
    assert t in Live(s, u) <==> u == s.tokens[t].claim;
  }

  /** A successful rotation swaps one live token for another. */
  lemma RefreshKeepsInv(cfg: Settings, s: State, token: Option<nat>, now: int)
    requires Inv(s) && Configured(cfg)
    ensures Inv(ApplyRefresh(cfg, s, token, now).0)
  {
    var s' := ApplyRefresh(cfg, s, token, now).0;
    if RefreshError(s, token, now).None? {
      var t := token.value;
      assert TokenOk(s, t);
      var user, spent := s.tokens[t].claim, Spent(Used(s, t), t);
      forall k | k in s.tokens ensures k < s.nextToken { assert TokenOk(s, k); }
      forall u | u in s'.users ensures AccountOk(s', u) { assert AccountOk(s, u); }
      forall k | k in s'.tokens ensures TokenOk(s', k) {
        if k in s.tokens { SpentToken(s, t, k); }
      }
      forall u ensures Balanced(s', u) {
        assert Balanced(s, u);
        SpentLiveCount(s, t, u);
        WithTokenLive(cfg, spent, user, now, u);
      }
    }
  }

  lemma LogoutKeepsInv(s: State, token: Option<nat>, now: int)
    requires Inv(s)
    ensures Inv(ApplyLogout(s, token, now).0)
  {
    var s' := ApplyLogout(s, token, now).0;
    if TokenError(s, token, now, InvalidRefreshToken).None? {
      var t := token.value;
      assert TokenOk(s, t);
      var user := s.tokens[t].claim;
      forall u | u in s'.users ensures AccountOk(s', u) { assert AccountOk(s, u); }
      forall k | k in s'.tokens ensures TokenOk(s', k) { SpentToken(s, t, k); }
      forall u ensures Balanced(s', u) {
        assert Balanced(s, u);
        SpentLiveCount(s, t, u);
        assert Live(s', u) == Live(Spent(Used(s, t), t), u);
      }
    }
  }

  lemma PurgeKeepsInv(cfg: Settings, s: State, now: int)
    requires Inv(s)
    ensures Inv(ApplyPurge(cfg, s, now))
  {
    var s' := ApplyPurge(cfg, s, now);
    forall u | u in s'.users ensures AccountOk(s', u) { assert AccountOk(s, u); }
    forall t | t in s'.tokens ensures TokenOk(s', t) {
      assert TokenOk(s, t);
      if s.tokens[t].owner.Some? { assert AccountOk(s, s.tokens[t].claim); }
    }
    forall u ensures Balanced(s', u) {
      assert Balanced(s, u);
      if u in s.users && Purgeable(cfg, s.users[u], now) {
        assert AccountOk(s, u);
        InvIsSafe(s);
        InactiveHasNoLiveToken(s, u);
        assert Live(s', u) == {};
      } else {
        assert Live(s', u) == Live(s, u);
      }
    }
  }

  lemma SetStatusKeepsInv(s: State, user: int, active: bool)
    requires Inv(s)
    ensures Inv(ApplySetStatus(s, user, active).0)
  {
    if user in s.users {
      assert AccountOk(s, user);
      var a := s.users[user];
      var a' := Account(active, if active && a.deletedAt.Some? then None else a.deletedAt);
      if a.isActive != active || (active && a.deletedAt.Some?) {
        RevokedKeepsInv(s, ApplySetStatus(s, user, active).0, user, a');
      } else {
        assert a' == a && s.users[user := a'] == s.users;
      }
    }
  }

  lemma RestoreKeepsInv(cfg: Settings, s: State, user: int, passwordOk: bool, now: int)
    requires Inv(s)
    ensures Inv(ApplyRestore(cfg, s, user, passwordOk, now).0)
  {
    if ApplyRestore(cfg, s, user, passwordOk, now).1 == Done {
      RevokedKeepsInv(s, ApplyRestore(cfg, s, user, passwordOk, now).0, user, Account(true, None));
    }
  }

  lemma PasswordKeepsInv(s: State, user: int)
    requires Inv(s) && user in s.users
    ensures Inv(RevokedAll(s, user))
  {
    assert AccountOk(s, user);
    assert s.users[user := s.users[user]] == s.users;
    RevokedKeepsInv(s, RevokedAll(s, user), user, s.users[user]);
  }

  lemma StepKeepsInv(cfg: Settings, s: State, op: Op)
    requires Inv(s) && Configured(cfg)
    ensures Inv(Apply(cfg, s, op).0)
  {
    match op
    case SignUp => SignUpKeepsInv(cfg, s);
    case Login(user, passwordOk, now) => LoginKeepsInv(cfg, s, user, passwordOk, now);
    case Refresh(token, now) => RefreshKeepsInv(cfg, s, token, now);
    case Logout(token, now) => LogoutKeepsInv(s, token, now);
    case DeleteMe(user, now) =>
      if user in s.users && Usable(s.users[user]) {
        RevokedKeepsInv(s, Apply(cfg, s, op).0, user, Account(false, Some(now)));
      }
    case ChangePassword(user, accepted) => if user in s.users { PasswordKeepsInv(s, user); }
    case ResetPassword(user, accepted) => if user in s.users { PasswordKeepsInv(s, user); }
    case Restore(user, passwordOk, now) => RestoreKeepsInv(cfg, s, user, passwordOk, now);
    case SetStatus(user, active) => SetStatusKeepsInv(s, user, active);
    case Purge(now) => PurgeKeepsInv(cfg, s, now);
  }

  lemma {:induction false} RunKeepsInv(cfg: Settings, s: State, ops: seq<Op>)
    requires Inv(s) && Configured(cfg)
    ensures Inv(Run(cfg, s, ops))
  {
    if ops != [] {
      RunKeepsInv(cfg, s, ops[..|ops| - 1]);
      StepKeepsInv(cfg, Run(cfg, s, ops[..|ops| - 1]), ops[|ops| - 1]);
    }
  }

  // ----- the results over whole runs -----

  /** In every reachable state: a user's live refresh tokens number the logins minus logouts
      since the last revocation, no token was accepted twice, deleted accounts are inactive, and
      neither a deleted, an inactive nor a purged account has a live token. */
  lemma TokenConservation(cfg: Settings, ops: seq<Op>, u: int, t: nat)
    requires Configured(cfg)
    ensures var s := Run(cfg, EMPTY, ops);
            && |Live(s, u)| == Get(s.balance, u)
            && Uses(s.uses, t) <= 1
            && (u in s.users && s.users[u].deletedAt.Some? ==> !s.users[u].isActive)
            && (u !in s.users || !Usable(s.users[u]) ==> Live(s, u) == {})
  {
    forall v ensures Balanced(EMPTY, v) { assert Live(EMPTY, v) == {}; }
    RunKeepsInv(cfg, EMPTY, ops);
    var s := Run(cfg, EMPTY, ops);
    assert Balanced(s, u);
    if t in s.tokens { assert TokenOk(s, t); }
    if u in s.users { assert AccountOk(s, u); }
    InvIsSafe(s);
    if u !in s.users || !Usable(s.users[u]) { InactiveHasNoLiveToken(s, u); }
  }

  // ----- under any token policy -----

  lemma RevokedKeepsSafe(s: State, s': State, user: int, a: Account)
    requires Safe(s) && user in s.users && s' == RevokedAll(s.(users := s.users[user := a]), user)
    requires a.deletedAt.Some? ==> !a.isActive
    ensures Safe(s')
  {
    forall u | u in s'.users ensures AccountOk(s', u) { assert u in s.users && AccountOk(s, u); }
    forall t | t in s'.tokens ensures TokenSafe(s', t) { assert TokenSafe(s, t); }
  }

  lemma WithTokenKeepsSafe(cfg: Settings, s: State, user: int, now: int)
    requires Safe(s) && user in s.users && Usable(s.users[user])
    ensures Safe(WithToken(cfg, s, user, now))
  {
    var s' := WithToken(cfg, s, user, now);
    forall u | u in s'.users ensures AccountOk(s', u) { assert AccountOk(s, u); }
    forall t | t in s'.tokens ensures TokenSafe(s', t) {
      if t in s.tokens { assert TokenSafe(s, t); }
    }
  }

  lemma SpentKeepsSafe(s: State, t: nat)
    requires Safe(s)
    ensures Safe(Spent(s, t))
  {
    var s' := Spent(s, t);
    forall u | u in s'.users ensures AccountOk(s', u) { assert AccountOk(s, u); }
    forall k | k in s'.tokens ensures TokenSafe(s', k) { assert TokenSafe(s, k); }
  }

  /** Only accounts and tokens matter to safety, not the history. */
  lemma HistoryKeepsSafe(s: State, s': State)
    requires Safe(s) && s' == s.(balance := s'.balance, uses := s'.uses)
    ensures Safe(s')
  {
    forall u | u in s'.users ensures AccountOk(s', u) { assert AccountOk(s, u); }
    forall t | t in s'.tokens ensures TokenSafe(s', t) { assert TokenSafe(s, t); }
  }

  lemma SignUpKeepsSafe(cfg: Settings, s: State)
    requires Safe(s)
    ensures Safe(Apply(cfg, s, SignUp).0)
  {
    var s' := Apply(cfg, s, SignUp).0;
    forall u | u in s'.users ensures AccountOk(s', u) { if u in s.users { assert AccountOk(s, u); } }
    forall t | t in s'.tokens ensures TokenSafe(s', t) {
      assert TokenSafe(s, t);
      if s.tokens[t].owner.Some? { assert AccountOk(s, s.tokens[t].claim); }
    }
  }

  lemma PurgeKeepsSafe(cfg: Settings, s: State, now: int)
    requires Safe(s)
    ensures Safe(ApplyPurge(cfg, s, now))
  {
    var s' := ApplyPurge(cfg, s, now);
    forall u | u in s'.users ensures AccountOk(s', u) { assert AccountOk(s, u); }
    forall t | t in s'.tokens ensures TokenSafe(s', t) {
      assert TokenSafe(s, t);
      if s.tokens[t].owner.Some? { assert AccountOk(s, s.tokens[t].claim); }
    }
  }

  lemma RefreshKeepsSafe(cfg: Settings, s: State, token: Option<nat>, now: int)
    requires Safe(s)
    ensures Safe(ApplyRefresh(cfg, s, token, now).0)
  {
    if RefreshError(s, token, now).None? {
      var used := Used(s, token.value);
      HistoryKeepsSafe(s, used);
      SpentKeepsSafe(used, token.value);
      var spent := if cfg.blacklistAfterRotation then Spent(used, token.value) else used;
      WithTokenKeepsSafe(cfg, spent, s.tokens[token.value].claim, now);
    }
  }

  lemma LogoutKeepsSafe(s: State, token: Option<nat>, now: int)
    requires Safe(s)
    ensures Safe(ApplyLogout(s, token, now).0)
  {
    if TokenError(s, token, now, InvalidRefreshToken).None? {
      SpentKeepsSafe(s, token.value);
      HistoryKeepsSafe(Spent(s, token.value), ApplyLogout(s, token, now).0);
    }
  }

  lemma LoginKeepsSafe(cfg: Settings, s: State, user: int, passwordOk: bool, now: int)
    requires Safe(s)
    ensures Safe(Apply(cfg, s, Login(user, passwordOk, now)).0)
  {
    if user in s.users && Usable(s.users[user]) && passwordOk {
      WithTokenKeepsSafe(cfg, s, user, now);
      HistoryKeepsSafe(WithToken(cfg, s, user, now), Apply(cfg, s, Login(user, passwordOk, now)).0);
    }
  }

  lemma SetStatusKeepsSafe(s: State, user: int, active: bool)
    requires Safe(s)
    ensures Safe(ApplySetStatus(s, user, active).0)
  {
    if user in s.users {
      assert AccountOk(s, user);
      var a := s.users[user];
      var a' := Account(active, if active && a.deletedAt.Some? then None else a.deletedAt);
      if a.isActive != active || (active && a.deletedAt.Some?) {
        RevokedKeepsSafe(s, ApplySetStatus(s, user, active).0, user, a');
      } else {
        assert a' == a && s.users[user := a'] == s.users;
      }
    }
  }

  lemma PasswordKeepsSafe(s: State, user: int)
    requires Safe(s) && user in s.users
    ensures Safe(RevokedAll(s, user))
  {
    assert AccountOk(s, user);
    assert s.users[user := s.users[user]] == s.users;
    RevokedKeepsSafe(s, RevokedAll(s, user), user, s.users[user]);
  }

  lemma StepKeepsSafe(cfg: Settings, s: State, op: Op)
    requires Safe(s)
    ensures Safe(Apply(cfg, s, op).0)
  {
    match op
    case SignUp => SignUpKeepsSafe(cfg, s);
    case Login(user, passwordOk, now) => LoginKeepsSafe(cfg, s, user, passwordOk, now);
    case Refresh(token, now) => RefreshKeepsSafe(cfg, s, token, now);
    case Logout(token, now) => LogoutKeepsSafe(s, token, now);
    case DeleteMe(user, now) =>
      if user in s.users && Usable(s.users[user]) {
        RevokedKeepsSafe(s, Apply(cfg, s, op).0, user, Account(false, Some(now)));
      }
    case ChangePassword(user, accepted) => if user in s.users { PasswordKeepsSafe(s, user); }
    case ResetPassword(user, accepted) => if user in s.users { PasswordKeepsSafe(s, user); }
    case Restore(user, passwordOk, now) =>
      if Apply(cfg, s, op).1 == Done { RevokedKeepsSafe(s, Apply(cfg, s, op).0, user, Account(true, None)); }
    case SetStatus(user, active) => SetStatusKeepsSafe(s, user, active);
    case Purge(now) => PurgeKeepsSafe(cfg, s, now);
  }

  /** Under every token policy and in every reachable state: deleted accounts are inactive, and
      no deleted, inactive or purged account has a live token. */
  lemma {:induction false} RunIsSafe(cfg: Settings, ops: seq<Op>)
    ensures var s := Run(cfg, EMPTY, ops);
            && Safe(s)
            && (forall u :: u in s.users && s.users[u].deletedAt.Some? ==> !s.users[u].isActive)
            && (forall u :: u !in s.users || !Usable(s.users[u]) ==> Live(s, u) == {})
  {
    if ops != [] {
      RunIsSafe(cfg, ops[..|ops| - 1]);
      StepKeepsSafe(cfg, Run(cfg, EMPTY, ops[..|ops| - 1]), ops[|ops| - 1]);
    }
    var s := Run(cfg, EMPTY, ops);
    forall u | u in s.users && s.users[u].deletedAt.Some? ensures !s.users[u].isActive { assert AccountOk(s, u); }
    forall u | u !in s.users || !Usable(s.users[u]) ensures Live(s, u) == {} { InactiveHasNoLiveToken(s, u); }
  }

  /** A successful refresh, after any run under any policy, keeps the number of live tokens exactly
      when it does not rotate or blacklists what it rotates. */
  lemma RotationKeepsCountIff(cfg: Settings, ops: seq<Op>, token: Option<nat>, now: int)
    requires RefreshError(Run(cfg, EMPTY, ops), token, now).None?
    ensures var s := Run(cfg, EMPTY, ops);
            var user := s.tokens[token.value].claim;
            |Live(ApplyRefresh(cfg, s, token, now).0, user)| == |Live(s, user)|
            <==> (!cfg.rotate || cfg.blacklistAfterRotation)
  {
    RunIsSafe(cfg, ops);
    SafeRotationKeepsCountIff(cfg, Run(cfg, EMPTY, ops), token, now);
  }

  lemma SafeRotationKeepsCountIff(cfg: Settings, s: State, token: Option<nat>, now: int)
    requires Safe(s) && RefreshError(s, token, now).None?
    ensures var user := s.tokens[token.value].claim;
            |Live(ApplyRefresh(cfg, s, token, now).0, user)| == |Live(s, user)|
            <==> (!cfg.rotate || cfg.blacklistAfterRotation)
  {
    var t := token.value;
    assert TokenSafe(s, t);
    var user := s.tokens[t].claim;
    forall k | k in s.tokens ensures k < s.nextToken { assert TokenSafe(s, k); }
    assert t in Live(s, user) && Live(Used(s, t), user) == Live(s, user);
    SpentLive(Used(s, t), t, user);
    if cfg.rotate {
      WithTokenLive(cfg, if cfg.blacklistAfterRotation then Spent(Used(s, t), t) else Used(s, t), user, now, user);
    }
  }

  ghost predicate IsSpent(s: State, t: nat, claim: int) {
    t in s.tokens && t < s.nextToken && s.tokens[t].blacklisted && s.tokens[t].claim == claim
  }

  lemma StepKeepsSpent(cfg: Settings, s: State, op: Op, t: nat, claim: int)
    requires IsSpent(s, t, claim)
    ensures IsSpent(Apply(cfg, s, op).0, t, claim)
  {}

  /** Once blacklisted, a token stays so through any run: logout and revocation are final. */
  lemma {:induction false} BlacklistedForever(cfg: Settings, s: State, ops: seq<Op>, t: nat, claim: int)
    requires IsSpent(s, t, claim)
    ensures IsSpent(Run(cfg, s, ops), t, claim)
  {
    if ops != [] {
      BlacklistedForever(cfg, s, ops[..|ops| - 1], t, claim);
      StepKeepsSpent(cfg, Run(cfg, s, ops[..|ops| - 1]), ops[|ops| - 1], t, claim);
    }
  }

  /** The calls that end the sessions of a user: deletion, a new password, restoration, and a
      status change that changes something. */
  predicate Revokes(s: State, op: Op, user: int) {
    match op
    case DeleteMe(u, _) => u == user
    case ChangePassword(u, _) => u == user
    case ResetPassword(u, _) => u == user
    case Restore(u, _, _) => u == user
    case SetStatus(u, active) =>
      u == user && u in s.users && (s.users[u].isActive != active || (active && s.users[u].deletedAt.Some?))
    case _ => false
  }

  /** Deleting or restoring an account, changing or resetting its password, or changing its status
      ends every session for good: after any run under any policy, no token the user held before
      that call is accepted again, whatever happens afterwards. */
  lemma RevocationIsFinal(cfg: Settings, before: seq<Op>, op: Op, user: int, t: nat, after: seq<Op>, now: int)
    requires var s := Run(cfg, EMPTY, before);
             t in OutstandingOf(s.tokens, user) && Revokes(s, op, user) && Apply(cfg, s, op).1 == Done
    ensures var later := Run(cfg, Apply(cfg, Run(cfg, EMPTY, before), op).0, after);
            RefreshError(later, Some(t), now).Some? && TokenError(later, Some(t), now, InvalidRefreshToken).Some?
  {
    var s := Run(cfg, EMPTY, before);
    RunIsSafe(cfg, before);
    assert TokenSafe(s, t);
    BlacklistedForever(cfg, Apply(cfg, s, op).0, after, t, s.tokens[t].claim);
  }

  /** A deleted account can be restored up to its deadline and purged from its deadline on;
      the two overlap at that instant only. */
  lemma RestoreOrPurge(cfg: Settings, s: State, user: int, now: int)
    requires user in s.users && s.users[user].deletedAt.Some?
    ensures var restorable := ApplyRestore(cfg, s, user, true, now).1 == Done;
            var purgeable := user !in ApplyPurge(cfg, s, now).users;
            && (restorable || purgeable)
            && (restorable && purgeable <==> now == s.users[user].deletedAt.value + cfg.retention)
  {}
}
