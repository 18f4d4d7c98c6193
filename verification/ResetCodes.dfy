/** The emailed one-time code: three cache entries per (purpose, email) with three lifetimes.

    A reset counts its wrong guesses and withdraws the code at the fifth. A sign-up does neither,
    so the bound on wrong guesses holds for reset codes only. Calls are atomic steps; before each
    the clock advances by any amount. A cache entry is readable strictly before its expiry. */
module ResetCodes {
  import opened Wrappers

  const CODE_TTL := 300
  const COOLDOWN := 60
  const MAX_ATTEMPTS := 5
  const ATTEMPTS_TTL := 20 * 60

  datatype Purpose = Signup | PasswordReset

  datatype Slot = Slot(purpose: Purpose, email: string)

  /** What the user table says of an email address. */
  datatype UserState = NoUser | Ordinary | Deactivated | SocialOnly

  datatype Code = Code(value: string, serial: nat, expiresAt: int)

  datatype Attempts = Attempts(count: nat, expiresAt: int)

  datatype Issue = Issue(slot: Slot, at: int)

  /** The cache, the clock, and three history variables: every code issued, and for each the
      wrong guesses compared against it and the calls it authorised. */
  datatype State = State(codes: map<Slot, Code>, cooldowns: map<Slot, int>, attempts: map<Slot, Attempts>, now: int,
                         issues: seq<Issue>, wrong: map<nat, nat>, accepted: map<nat, nat>)

  const EMPTY := State(map[], map[], map[], 0, [], map[], map[])

  datatype CodeError =
    | EmailAlreadyExists
    | NicknameAlreadyExists
    | TooManyRequests
    | CodeExpired
    | InvalidCode
    | AccountDeactivated
    | SocialUserOnly
    | ValidationError

  datatype Outcome = Done | Raised(error: CodeError)

  datatype Op =
    | Wait(ticks: nat)
    | Send(slot: Slot, user: UserState, code: string)
    | Reset(email: string, guess: string, user: UserState, passwordOk: bool)
    | SignUp(address: string, entered: string, owner: UserState, nicknameTaken: bool, accepted: bool)

  // ----- reading the cache -----

  function LiveCode(s: State, slot: Slot): Option<Code> {
    if slot in s.codes && s.now < s.codes[slot].expiresAt then Some(s.codes[slot]) else None
  }

  function LiveAttempts(s: State, slot: Slot): nat {
    if slot in s.attempts && s.now < s.attempts[slot].expiresAt then s.attempts[slot].count else 0
  }

  predicate Cooling(s: State, slot: Slot) {
    slot in s.cooldowns && s.now < s.cooldowns[slot]
  }

  function Times(m: map<nat, nat>, k: nat): nat {
    if k in m then m[k] else 0
  }

  // ----- the steps -----

  /** A sign-up code goes to an unknown address, a reset code to an ordinary account. */
  predicate ShouldIssue(purpose: Purpose, user: UserState) {
    match purpose
    case Signup => user.NoUser?
    case PasswordReset => user.Ordinary?
  }

  function Issued(s: State, slot: Slot, code: string): State {
    s.(codes := s.codes[slot := Code(code, |s.issues|, s.now + CODE_TTL)],
       attempts := s.attempts - {slot},
       issues := s.issues + [Issue(slot, s.now)])
  }

  function ApplySend(s: State, slot: Slot, user: UserState, code: string): (State, Outcome) {
    if slot.purpose == Signup && !user.NoUser? then (s, Raised(EmailAlreadyExists))
    else if Cooling(s, slot) then (s, Raised(TooManyRequests))
    else
      var s' := s.(cooldowns := s.cooldowns[slot := s.now + COOLDOWN]);
      (if ShouldIssue(slot.purpose, user) then Issued(s', slot, code) else s', Done)
  }

  /** The history of a wrong guess, if there was a code to compare it with. */
  function Compared(wrong: map<nat, nat>, code: Option<Code>): map<nat, nat> {
    if code.Some? then wrong[code.value.serial := Times(wrong, code.value.serial) + 1] else wrong
  }

  /** A failed guess at a reset: counted, and at the fifth the code is withdrawn. */
  function Failed(s: State, slot: Slot): State {
    var failed := LiveAttempts(s, slot) + 1;
    s.(attempts := s.attempts[slot := Attempts(failed, s.now + ATTEMPTS_TTL)],
       codes := if failed >= MAX_ATTEMPTS then s.codes - {slot} else s.codes,
       wrong := Compared(s.wrong, LiveCode(s, slot)))
  }

  function Consumed(s: State, slot: Slot, serial: nat): State {
    s.(codes := s.codes - {slot}, attempts := s.attempts - {slot},
       accepted := s.accepted[serial := Times(s.accepted, serial) + 1])
  }

  function ApplyReset(s: State, email: string, guess: string, user: UserState, passwordOk: bool): (State, Outcome) {
    var slot := Slot(PasswordReset, email);
    var saved := LiveCode(s, slot);
    if LiveAttempts(s, slot) >= MAX_ATTEMPTS then (s, Raised(TooManyRequests))
    else if saved.None? || saved.value.value != guess then (Failed(s, slot), Raised(InvalidCode))
    else if user.NoUser? then (s, Raised(InvalidCode))
    else if user.Deactivated? then (s, Raised(AccountDeactivated))
    else if user.SocialOnly? then (s, Raised(SocialUserOnly))
    else if !passwordOk then (s, Raised(ValidationError))
    else (Consumed(s, slot, saved.value.serial), Done)
  }

  /** A sign-up leaves the cache alone until it succeeds. */
  function ApplySignUp(
      s: State, email: string, guess: string, user: UserState, nicknameTaken: bool, passwordOk: bool): (State, Outcome)
  {
    var slot := Slot(Signup, email);
    var saved := LiveCode(s, slot);
    if !user.NoUser? then (s, Raised(EmailAlreadyExists))
    else if nicknameTaken then (s, Raised(NicknameAlreadyExists))
    else if saved.None? then (s, Raised(CodeExpired))
    else if saved.value.value != guess then (s.(wrong := Compared(s.wrong, saved)), Raised(InvalidCode))
    else if !passwordOk then (s, Raised(ValidationError))
    else (Consumed(s, slot, saved.value.serial), Done)
  }

  function Apply(s: State, op: Op): (State, Outcome) {
    match op
    case Wait(ticks) => (s.(now := s.now + ticks), Done)
    case Send(slot, user, code) => ApplySend(s, slot, user, code)
    case Reset(email, guess, user, passwordOk) => ApplyReset(s, email, guess, user, passwordOk)
    case SignUp(email, guess, user, nicknameTaken, passwordOk) =>
      ApplySignUp(s, email, guess, user, nicknameTaken, passwordOk)
  }

  function Run(s: State, ops: seq<Op>): State {
    if ops == [] then s else Apply(Run(s, ops[..|ops| - 1]), ops[|ops| - 1]).0
  }

  // ----- the invariant -----

  /** A stored code knows its issue and was never accepted; while a reset code can be read, the
      counter of its slot says how many wrong guesses it has seen and outlives it. */
  ghost predicate CodeOk(s: State, slot: Slot)
    requires slot in s.codes
  {
    var c := s.codes[slot];
    && c.serial < |s.issues| && s.issues[c.serial].slot == slot
    && c.expiresAt == s.issues[c.serial].at + CODE_TTL
    && Times(s.accepted, c.serial) == 0
    && (slot.purpose == PasswordReset && s.now < c.expiresAt ==>
         && Times(s.wrong, c.serial) < MAX_ATTEMPTS
         && (if slot in s.attempts
             then s.attempts[slot].count == Times(s.wrong, c.serial) && c.expiresAt < s.attempts[slot].expiresAt
             else Times(s.wrong, c.serial) == 0))
  }

  /** Code k was issued, and for this purpose. */
  ghost predicate IsCodeFor(s: State, k: nat, purpose: Purpose) {
    k < |s.issues| && s.issues[k].slot.purpose == purpose
  }

  ghost predicate IssueOk(s: State, i: int)
    requires 0 <= i < |s.issues|
  {
    var issue := s.issues[i];
    issue.at <= s.now && issue.slot in s.cooldowns && issue.at + COOLDOWN <= s.cooldowns[issue.slot]
  }

  ghost predicate CountsOk(s: State, k: nat) {
    && Times(s.accepted, k) <= 1
    && (IsCodeFor(s, k, PasswordReset) ==> Times(s.wrong, k) <= MAX_ATTEMPTS)
    && (k >= |s.issues| ==> Times(s.wrong, k) == 0 && Times(s.accepted, k) == 0)
  }

  ghost predicate IssuesSpaced(issues: seq<Issue>) {
    forall i, j :: 0 <= i < j < |issues| && issues[i].slot == issues[j].slot ==> issues[j].at - issues[i].at >= COOLDOWN
  }

  ghost predicate Inv(s: State) {
    && (forall slot :: slot in s.codes ==> CodeOk(s, slot))
    && (forall i :: 0 <= i < |s.issues| ==> IssueOk(s, i))
    && (forall k: nat :: CountsOk(s, k))
    && IssuesSpaced(s.issues)
  }

  lemma WaitKeepsInv(s: State, ticks: nat)
    requires Inv(s)
    ensures Inv(s.(now := s.now + ticks))
  {
    var s' := s.(now := s.now + ticks);
    forall slot | slot in s'.codes ensures CodeOk(s', slot) { assert CodeOk(s, slot); }
    forall i | 0 <= i < |s'.issues| ensures IssueOk(s', i) { assert IssueOk(s, i); }
    forall k: nat ensures CountsOk(s', k) { assert CountsOk(s, k); }
  }

  lemma CooldownKeepsInv(s: State, slot: Slot)
    requires Inv(s) && !Cooling(s, slot)
    ensures Inv(s.(cooldowns := s.cooldowns[slot := s.now + COOLDOWN]))
  {
    var s' := s.(cooldowns := s.cooldowns[slot := s.now + COOLDOWN]);
    forall l | l in s'.codes ensures CodeOk(s', l) { assert CodeOk(s, l); }
    forall i | 0 <= i < |s'.issues| ensures IssueOk(s', i) { assert IssueOk(s, i); }
    forall k: nat ensures CountsOk(s', k) { assert CountsOk(s, k); }
  }

  /** A new code starts with a clean counter, at least the cooldown after the previous one. */
  lemma IssuedKeepsInv(s: State, slot: Slot, code: string)
    requires Inv(s) && slot in s.cooldowns && s.now + COOLDOWN <= s.cooldowns[slot]
    requires forall i :: 0 <= i < |s.issues| && s.issues[i].slot == slot ==> s.now - s.issues[i].at >= COOLDOWN
    ensures Inv(Issued(s, slot, code))
  {
    var s' := Issued(s, slot, code);
    assert CountsOk(s, |s.issues|);
    forall l | l in s'.codes ensures CodeOk(s', l) {
      if l != slot { assert CodeOk(s, l); }
    }
    forall i | 0 <= i < |s'.issues| ensures IssueOk(s', i) {
      if i < |s.issues| { assert IssueOk(s, i); }
    }
    forall k: nat ensures CountsOk(s', k) { assert CountsOk(s, k); }
  }

  lemma SendKeepsInv(s: State, slot: Slot, user: UserState, code: string)
    requires Inv(s)
    ensures Inv(ApplySend(s, slot, user, code).0)
  {
    var s' := s.(cooldowns := s.cooldowns[slot := s.now + COOLDOWN]);
    if (slot.purpose == Signup && !user.NoUser?) || Cooling(s, slot) {
      assert ApplySend(s, slot, user, code).0 == s;
    } else if ShouldIssue(slot.purpose, user) {
      NewIssueKeepsInv(s, slot, code);
      assert ApplySend(s, slot, user, code).0 == Issued(s', slot, code);
    } else {
      CooldownKeepsInv(s, slot);
      assert ApplySend(s, slot, user, code).0 == s';
    }
  }

  lemma NewIssueKeepsInv(s: State, slot: Slot, code: string)
    requires Inv(s) && !Cooling(s, slot)
    ensures Inv(Issued(s.(cooldowns := s.cooldowns[slot := s.now + COOLDOWN]), slot, code))
  {
    CooldownKeepsInv(s, slot);
    forall i | 0 <= i < |s.issues| && s.issues[i].slot == slot ensures s.now - s.issues[i].at >= COOLDOWN {
      assert IssueOk(s, i);
    }
    IssuedKeepsInv(s.(cooldowns := s.cooldowns[slot := s.now + COOLDOWN]), slot, code);
  }

  /** Counting a failed guess keeps every code that remains: the slot's own counter moves in step
      with its wrong guesses, and codes of other slots have other serials. */
  lemma FailedKeepsCode(s: State, slot: Slot, l: Slot)
    requires Inv(s) && slot.purpose == PasswordReset && LiveAttempts(s, slot) < MAX_ATTEMPTS
        && l in Failed(s, slot).codes
    ensures CodeOk(Failed(s, slot), l)
  {
    assert CodeOk(s, l);
    if slot in s.codes { assert CodeOk(s, slot); }
    if l == slot { assert IssueOk(s, s.codes[slot].serial); }
  }

  lemma FailedKeepsInv(s: State, slot: Slot)
    requires Inv(s) && slot.purpose == PasswordReset && LiveAttempts(s, slot) < MAX_ATTEMPTS
    ensures Inv(Failed(s, slot))
  {
    var s' := Failed(s, slot);
    forall l | l in s'.codes ensures CodeOk(s', l) { FailedKeepsCode(s, slot, l); }
    if slot in s.codes { assert CodeOk(s, slot); }
    forall i | 0 <= i < |s'.issues| ensures IssueOk(s', i) { assert IssueOk(s, i); }
    forall k: nat ensures CountsOk(s', k) { assert CountsOk(s, k); }
  }

  lemma ConsumedKeepsInv(s: State, slot: Slot)
    requires Inv(s) && LiveCode(s, slot).Some?
    ensures Inv(Consumed(s, slot, LiveCode(s, slot).value.serial))
  {
    var s' := Consumed(s, slot, LiveCode(s, slot).value.serial);
    assert CodeOk(s, slot);
    forall l | l in s'.codes ensures CodeOk(s', l) { assert CodeOk(s, l); }
    forall i | 0 <= i < |s'.issues| ensures IssueOk(s', i) { assert IssueOk(s, i); }
    forall k: nat ensures CountsOk(s', k) { assert CountsOk(s, k); }
  }

  lemma ResetKeepsInv(s: State, email: string, guess: string, user: UserState, passwordOk: bool)
    requires Inv(s)
    ensures Inv(ApplyReset(s, email, guess, user, passwordOk).0)
  {
    var slot := Slot(PasswordReset, email);
    var saved, s' := LiveCode(s, slot), ApplyReset(s, email, guess, user, passwordOk).0;
    if LiveAttempts(s, slot) >= MAX_ATTEMPTS {
      assert s' == s;
    } else if saved.None? || saved.value.value != guess {
      FailedKeepsInv(s, slot);
      assert s' == Failed(s, slot);
    } else if user.Ordinary? && passwordOk {
      ConsumedKeepsInv(s, slot);
      assert s' == Consumed(s, slot, saved.value.serial);
    } else {
      assert s' == s;
    }
  }

  /** A wrong guess at a sign-up code moves only that code's history. */
  lemma WrongSignUpKeepsInv(s: State, slot: Slot)
    requires Inv(s) && slot.purpose == Signup && LiveCode(s, slot).Some?
    ensures Inv(s.(wrong := Compared(s.wrong, LiveCode(s, slot))))
  {
    var s' := s.(wrong := Compared(s.wrong, LiveCode(s, slot)));
    assert CodeOk(s, slot);
    forall l | l in s'.codes ensures CodeOk(s', l) { assert CodeOk(s, l); }
    forall i | 0 <= i < |s'.issues| ensures IssueOk(s', i) { assert IssueOk(s, i); }
    forall k: nat ensures CountsOk(s', k) { assert CountsOk(s, k); }
  }

  lemma SignUpKeepsInv(s: State, email: string, guess: string, user: UserState, nicknameTaken: bool, passwordOk: bool)
    requires Inv(s)
    ensures Inv(ApplySignUp(s, email, guess, user, nicknameTaken, passwordOk).0)
  {
    var slot := Slot(Signup, email);
    if LiveCode(s, slot).Some? {
      WrongSignUpKeepsInv(s, slot);
      ConsumedKeepsInv(s, slot);
    }
  }

  lemma StepKeepsInv(s: State, op: Op)
    requires Inv(s)
    ensures Inv(Apply(s, op).0)
  {
    match op
    case Wait(ticks) => WaitKeepsInv(s, ticks);
    case Send(slot, user, code) => SendKeepsInv(s, slot, user, code);
    case Reset(email, guess, user, passwordOk) => ResetKeepsInv(s, email, guess, user, passwordOk);
    case SignUp(email, guess, user, nicknameTaken, passwordOk) =>
      SignUpKeepsInv(s, email, guess, user, nicknameTaken, passwordOk);
  }

  lemma {:induction false} RunKeepsInv(s: State, ops: seq<Op>)
    requires Inv(s)
    ensures Inv(Run(s, ops))
  {
    if ops != [] {
      RunKeepsInv(s, ops[..|ops| - 1]);
      StepKeepsInv(Run(s, ops[..|ops| - 1]), ops[|ops| - 1]);
    }
  }

  // ----- the results over whole runs -----

  /** In every reachable state: at most five wrong guesses were compared against any one reset
      code, each code of either purpose authorised at most one call, and codes for one purpose and
      email were issued at least a minute apart. */
  lemma GuessesBounded(ops: seq<Op>, k: nat)
    ensures var s := Run(EMPTY, ops);
            && (IsCodeFor(s, k, PasswordReset) ==> Times(s.wrong, k) <= 5)
            && Times(s.accepted, k) <= 1
            && (forall i, j :: 0 <= i < j < |s.issues| && s.issues[i].slot == s.issues[j].slot
                 ==> s.issues[j].at - s.issues[i].at >= 60)
  {
    RunKeepsInv(EMPTY, ops);
    assert CountsOk(Run(EMPTY, ops), k);
  }

  /** The bound rests on the counter outliving the code: as long as a reset code can be read, the
      counter read by the next guess is exactly the number of wrong guesses it has seen. */
  lemma CounterNeverLags(ops: seq<Op>, slot: Slot)
    requires slot.purpose == PasswordReset
    ensures var s := Run(EMPTY, ops);
            LiveCode(s, slot).Some? ==> LiveAttempts(s, slot) == Times(s.wrong, LiveCode(s, slot).value.serial) < 5
  {
    RunKeepsInv(EMPTY, ops);
    var s := Run(EMPTY, ops);
    if slot in s.codes { assert CodeOk(s, slot); }
  }

  // ----- the block after five failures -----

  predicate Blocked(s: State, email: string) {
    LiveAttempts(s, Slot(PasswordReset, email)) >= MAX_ATTEMPTS
  }

  /** Blocked means exactly that every reset is turned away, whatever is guessed, and changes nothing. */
  lemma BlockedIff(s: State, email: string, guess: string, user: UserState, passwordOk: bool)
    ensures Blocked(s, email) <==> ApplyReset(s, email, guess, user, passwordOk).1 == Raised(TooManyRequests)
    ensures Blocked(s, email) ==> ApplyReset(s, email, guess, user, passwordOk).0 == s
  {}

  /** The fifth failure starts a block of 1200 seconds. */
  lemma FifthFailureBlocks(s: State, email: string, guess: string, user: UserState, passwordOk: bool)
    requires var slot := Slot(PasswordReset, email);
             LiveAttempts(s, slot) == 4 && (LiveCode(s, slot).None? || LiveCode(s, slot).value.value != guess)
    ensures var after := ApplyReset(s, email, guess, user, passwordOk).0;
            Blocked(after, email) && BlockedUntil(after, email) == s.now + 1200
  {}

  /** When the counter of the slot expires. */
  function BlockedUntil(s: State, email: string): int {
    var slot := Slot(PasswordReset, email);
    if slot in s.attempts then s.attempts[slot].expiresAt else s.now
  }

  /** No reset code for this email was issued from issue k on. */
  ghost predicate NoIssueSince(s: State, k: nat, email: string) {
    forall i :: k <= i < |s.issues| ==> s.issues[i].slot != Slot(PasswordReset, email)
  }

  lemma BlockStep(s: State, op: Op, email: string)
    requires Blocked(s, email) && Apply(s, op).0.now < BlockedUntil(s, email)
    ensures var s' := Apply(s, op).0;
            && s.now <= s'.now && |s.issues| <= |s'.issues| && s'.issues[..|s.issues|] == s.issues
            && (Blocked(s', email) <==> NoIssueSince(s', |s.issues|, email))
            && (Blocked(s', email) ==> BlockedUntil(s', email) == BlockedUntil(s, email))
  {
    match op
    case Reset(e, guess, user, passwordOk) => if e == email { BlockedIff(s, email, guess, user, passwordOk); }
    case Send(slot, user, code) => BlockSend(s, slot, user, code, email);
    case _ =>
  }

  lemma BlockSend(s: State, slot: Slot, user: UserState, code: string, email: string)
    requires Blocked(s, email)
    ensures var s' := ApplySend(s, slot, user, code).0;
            && (Blocked(s', email) <==> NoIssueSince(s', |s.issues|, email))
            && (Blocked(s', email) ==> BlockedUntil(s', email) == BlockedUntil(s, email))
  {
    var s' := ApplySend(s, slot, user, code).0;
    if |s'.issues| > |s.issues| { assert s'.issues[|s.issues|] == Issue(slot, s.now); }
  }

  lemma TimeAdvances(s: State, op: Op)
    ensures s.now <= Apply(s, op).0.now
    ensures |s.issues| <= |Apply(s, op).0.issues| && Apply(s, op).0.issues[..|s.issues|] == s.issues
  {}

  /** Every state of the run, from the first to the last, is blocked. */
  ghost predicate BlockedThroughout(s: State, ops: seq<Op>, email: string) {
    forall n: nat :: n <= |ops| ==> BlockedAfter(s, ops, email, n)
  }

  predicate BlockedAfter(s: State, ops: seq<Op>, email: string, n: nat)
    requires n <= |ops|
  {
    Blocked(Run(s, ops[..n]), email)
  }

  /** Within the 1200 seconds the block is lifted by one thing only: every reset of a run is turned
      away if and only if no new reset code is issued for the email meanwhile. */
  lemma {:induction false} BlockLastsIff(s: State, ops: seq<Op>, email: string)
    requires Blocked(s, email) && Run(s, ops).now < BlockedUntil(s, email)
    ensures BlockedThroughout(s, ops, email) <==> NoIssueSince(Run(s, ops), |s.issues|, email)
    ensures BlockedThroughout(s, ops, email) ==> BlockedUntil(Run(s, ops), email) == BlockedUntil(s, email)
    ensures |s.issues| <= |Run(s, ops).issues|
  {
    if ops == [] {
      assert ops[..0] == ops;
      assert BlockedThroughout(s, ops, email) by {
        assert BlockedAfter(s, ops, email, 0);
      }
    } else {
      var n := |ops| - 1;
      var mid := Run(s, ops[..n]);
      TimeAdvances(mid, ops[n]);
      BlockLastsIff(s, ops[..n], email);
      PrefixesBlocked(s, ops, email);
      if BlockedThroughout(s, ops[..n], email) {
        assert ops[..n][..n] == ops[..n];
        assert BlockedAfter(s, ops[..n], email, n);
        BlockStep(mid, ops[n], email);
      }
    }
  }

  lemma PrefixesBlocked(s: State, ops: seq<Op>, email: string)
    requires ops != []
    ensures BlockedThroughout(s, ops, email) <==>
            BlockedThroughout(s, ops[..|ops| - 1], email) && Blocked(Run(s, ops), email)
  {
    var n := |ops| - 1;
    assert ops[..|ops|] == ops;
    assert BlockedAfter(s, ops, email, |ops|) <==> Blocked(Run(s, ops), email);
    forall m: nat | m <= n ensures BlockedAfter(s, ops[..n], email, m) <==> BlockedAfter(s, ops, email, m) {
      assert ops[..n][..m] == ops[..m];
    }
  }

  /** A new code ends the block once the cooldown of the last one is over. */
  lemma NewCodeUnblocks(s: State, email: string, code: string)
    requires !Cooling(s, Slot(PasswordReset, email))
    ensures !Blocked(ApplySend(s, Slot(PasswordReset, email), Ordinary, code).0, email)
  {}

  lemma RunSnoc(s: State, ops: seq<Op>, op: Op)
    ensures Run(s, ops + [op]) == Apply(Run(s, ops), op).0
  {
    assert (ops + [op])[..|ops|] == ops;
  }

  /** A run that asks for a reset code and enters n wrong ones. */
  function ResetGuesses(email: string, n: nat): seq<Op> {
    if n == 0 then [Send(Slot(PasswordReset, email), Ordinary, "000000")]
    else ResetGuesses(email, n - 1) + [Reset(email, "999999", Ordinary, true)]
  }

  ghost predicate AfterGuesses(s: State, email: string, n: nat) {
    var slot := Slot(PasswordReset, email);
    && s.now == 0 && slot in s.cooldowns && s.cooldowns[slot] == 60 && LiveAttempts(s, slot) == n
    && (n < 5 ==> LiveCode(s, slot) == Some(Code("000000", 0, 300)))
    && (n == 5 ==> BlockedUntil(s, email) == 1200)
  }

  lemma OneMoreGuess(s: State, email: string, n: nat)
    requires n < 5 && AfterGuesses(s, email, n)
    ensures AfterGuesses(ApplyReset(s, email, "999999", Ordinary, true).0, email, n + 1)
  {
    assert ApplyReset(s, email, "999999", Ordinary, true).0 == Failed(s, Slot(PasswordReset, email));
  }

  lemma {:induction false} ResetGuessesCount(email: string, n: nat)
    requires n <= 5
    ensures AfterGuesses(Run(EMPTY, ResetGuesses(email, n)), email, n)
  {
    if n == 0 {
      RunSnoc(EMPTY, [], Send(Slot(PasswordReset, email), Ordinary, "000000"));
    } else {
      ResetGuessesCount(email, n - 1);
      RunSnoc(EMPTY, ResetGuesses(email, n - 1), Reset(email, "999999", Ordinary, true));
      OneMoreGuess(Run(EMPTY, ResetGuesses(email, n - 1)), email, n - 1);
    }
  }

  /** Five wrong guesses block an email until 1200, and a code asked for at 60 unblocks it. */
  lemma BlockCanEndAfterAMinute(email: string)
    ensures var guesses, slot := ResetGuesses(email, 5), Slot(PasswordReset, email);
            && Blocked(Run(EMPTY, guesses), email) && BlockedUntil(Run(EMPTY, guesses), email) == 1200
            && !Blocked(Run(EMPTY, guesses + [Wait(60)] + [Send(slot, Ordinary, "000001")]), email)
            && Run(EMPTY, guesses + [Wait(60)] + [Send(slot, Ordinary, "000001")]).now == 60
  {
    var guesses, slot := ResetGuesses(email, 5), Slot(PasswordReset, email);
    ResetGuessesCount(email, 5);
    RunSnoc(EMPTY, guesses, Wait(60));
    RunSnoc(EMPTY, guesses + [Wait(60)], Send(slot, Ordinary, "000001"));
    NewCodeUnblocks(Run(EMPTY, guesses + [Wait(60)]), email, "000001");
  }

  // ----- sign-up codes -----

  function WrongSignUp(email: string): Op {
    SignUp(email, "999999", NoUser, false, true)
  }

  /** A run that asks for a sign-up code and enters n wrong ones. */
  function SignUpGuesses(email: string, n: nat): seq<Op> {
    if n == 0 then [Send(Slot(Signup, email), NoUser, "000000")] else SignUpGuesses(email, n - 1) + [WrongSignUp(email)]
  }

  /** One sign-up code was issued, has met n wrong guesses, and can still be read. */
  ghost predicate ValidAfter(s: State, email: string, n: nat) {
    && IsCodeFor(s, 0, Signup) && Times(s.wrong, 0) == n
    && LiveCode(s, Slot(Signup, email)) == Some(Code("000000", 0, CODE_TTL))
  }

  lemma OneMoreSignUpGuess(s: State, email: string, n: nat)
    requires ValidAfter(s, email, n)
    ensures ValidAfter(ApplySignUp(s, email, "999999", NoUser, false, true).0, email, n + 1)
  {}

  /** For every n there is a run in which one sign-up code meets n wrong guesses and stays valid. */
  lemma {:induction false} SignUpGuessesAreUncounted(email: string, n: nat)
    ensures ValidAfter(Run(EMPTY, SignUpGuesses(email, n)), email, n)
  {
    if n == 0 {
      RunSnoc(EMPTY, [], Send(Slot(Signup, email), NoUser, "000000"));
    } else {
      SignUpGuessesAreUncounted(email, n - 1);
      RunSnoc(EMPTY, SignUpGuesses(email, n - 1), WrongSignUp(email));
      OneMoreSignUpGuess(Run(EMPTY, SignUpGuesses(email, n - 1)), email, n - 1);
    }
  }

  /** No run compares more than five wrong guesses with one code of this purpose. */
  ghost predicate IsGuessLimited(purpose: Purpose) {
    forall ops, k: nat :: IsCodeFor(Run(EMPTY, ops), k, purpose) ==> Times(Run(EMPTY, ops).wrong, k) <= 5
  }

  /** The exact split: guesses are limited for reset codes and for no others. */
  lemma GuessLimitIff(purpose: Purpose)
    ensures IsGuessLimited(purpose) <==> purpose == PasswordReset
  {
    if purpose == PasswordReset {
      forall ops, k: nat | IsCodeFor(Run(EMPTY, ops), k, purpose) ensures Times(Run(EMPTY, ops).wrong, k) <= 5 {
        GuessesBounded(ops, k);
      }
    } else {
      SignUpGuessesAreUncounted("user@example.com", 6);
      assert IsCodeFor(Run(EMPTY, SignUpGuesses("user@example.com", 6)), 0, purpose);
    }
  }

  // ----- the imperative form -----

  class EmailCodes {
    var codes: map<Slot, Code>
    var cooldowns: map<Slot, int>
    var attempts: map<Slot, Attempts>
    var now: int
    ghost var issues: seq<Issue>
    ghost var wrong: map<nat, nat>
    ghost var accepted: map<nat, nat>
    var serial: nat

    ghost predicate Valid()
      reads this
    {
      serial == |issues|
    }

    ghost function View(): State
      reads this
    {
      State(codes, cooldowns, attempts, now, issues, wrong, accepted)
    }

    constructor ()
      ensures Valid() && View() == EMPTY
    {
      codes, cooldowns, attempts, now := map[], map[], map[], 0;
      issues, wrong, accepted, serial := [], map[], map[], 0;
    }

    method SendEmailCode(slot: Slot, user: UserState, code: string) returns (r: Outcome)
      requires Valid()
      modifies this
      ensures Valid() && (View(), r) == Apply(old(View()), Send(slot, user, code))
    {
      var userExists := !user.NoUser?;
      if slot.purpose == Signup && userExists { return Raised(EmailAlreadyExists); }
      if slot in cooldowns && now < cooldowns[slot] { return Raised(TooManyRequests); }
      cooldowns := cooldowns[slot := now + COOLDOWN];
      if slot.purpose == PasswordReset && (user.Deactivated? || user.SocialOnly?) { userExists := false; }
      if (if slot.purpose == Signup then !userExists else userExists) {
        codes := codes[slot := Code(code, serial, now + CODE_TTL)];
        attempts := attempts - {slot};
        serial := serial + 1;
        issues := issues + [Issue(slot, now)];
      }
      r := Done;
    }

    method ResetUserPassword(email: string, guess: string, user: UserState, passwordOk: bool) returns (r: Outcome)
      requires Valid()
      modifies this
      ensures Valid() && (View(), r) == Apply(old(View()), Reset(email, guess, user, passwordOk))
      ensures var slot := Slot(PasswordReset, email);
              r == Done <==>
                && (slot in old(attempts) && now < old(attempts)[slot].expiresAt ==> old(attempts)[slot].count < 5)
                && slot in old(codes) && now < old(codes)[slot].expiresAt && old(codes)[slot].value == guess
                && user == Ordinary && passwordOk
    {
      var slot := Slot(PasswordReset, email);
      var failed := if slot in attempts && now < attempts[slot].expiresAt then attempts[slot].count else 0;
      if failed >= MAX_ATTEMPTS { return Raised(TooManyRequests); }
      var saved := if slot in codes && now < codes[slot].expiresAt then Some(codes[slot]) else None;
      if saved.None? || saved.value.value != guess {
        failed := failed + 1;
        attempts := attempts[slot := Attempts(failed, now + ATTEMPTS_TTL)];
        if failed >= MAX_ATTEMPTS { codes := codes - {slot}; }
        wrong := Compared(wrong, saved);
        return Raised(InvalidCode);
      }
      if user.NoUser? { return Raised(InvalidCode); }
      if user.Deactivated? { return Raised(AccountDeactivated); }
      if user.SocialOnly? { return Raised(SocialUserOnly); }
      if !passwordOk { return Raised(ValidationError); }
      codes, attempts := codes - {slot}, attempts - {slot};
      accepted := accepted[saved.value.serial := Times(accepted, saved.value.serial) + 1];
      r := Done;
    }

    method SignupUser(email: string, guess: string, user: UserState, nicknameTaken: bool, passwordOk: bool)
      returns (r: Outcome)
      requires Valid()
      modifies this
      ensures Valid() && (View(), r) == Apply(old(View()), SignUp(email, guess, user, nicknameTaken, passwordOk))
    {
      if !user.NoUser? { return Raised(EmailAlreadyExists); }
      if nicknameTaken { return Raised(NicknameAlreadyExists); }
      var slot := Slot(Signup, email);
      var saved := if slot in codes && now < codes[slot].expiresAt then Some(codes[slot]) else None;
      if saved.None? { return Raised(CodeExpired); }
      if saved.value.value != guess {
        wrong := Compared(wrong, saved);
        return Raised(InvalidCode);
      }
      if !passwordOk { return Raised(ValidationError); }
      codes, attempts := codes - {slot}, attempts - {slot};
      accepted := accepted[saved.value.serial := Times(accepted, saved.value.serial) + 1];
      r := Done;
    }
  }
}
