/** What sending, resetting and signing up answer and change, and which call a code can be accepted
    by. Conditions are stated on the cache entries. */
module CodeCalls {
  import opened Wrappers
  import opened ResetCodes

  /** The cache entries of all other slots and the clock are as before. */
  ghost predicate OthersKept(s: State, s': State, slot: Slot) {
    && s'.now == s.now
    && (forall l :: l != slot ==> (l in s'.codes <==> l in s.codes) && (l in s.codes ==> s'.codes[l] == s.codes[l]))
    && (forall l :: l != slot ==>
         (l in s'.attempts <==> l in s.attempts) && (l in s.attempts ==> s'.attempts[l] == s.attempts[l]))
    && (forall l :: l != slot ==>
         (l in s'.cooldowns <==> l in s.cooldowns) && (l in s.cooldowns ==> s'.cooldowns[l] == s.cooldowns[l]))
  }

  ghost predicate CacheKept(s: State, s': State) {
    s'.codes == s.codes && s'.attempts == s.attempts && s'.cooldowns == s.cooldowns && s'.now == s.now
  }

  /** The wrong guesses counted at a slot, as long as the counter can be read. */
  function Counted(s: State, slot: Slot): nat {
    if slot in s.attempts && s.now < s.attempts[slot].expiresAt then s.attempts[slot].count else 0
  }

  /** The guess is the code of the slot, which can still be read. */
  predicate IsRight(s: State, slot: Slot, guess: string) {
    slot in s.codes && s.now < s.codes[slot].expiresAt && s.codes[slot].value == guess
  }

  // ----- one call -----

  /** A reset succeeds exactly below five counted failures, with the right code, for an ordinary
      account and an acceptable password; then code and counter are gone. A right code refused for
      another reason changes nothing. */
  lemma ResetCall(s: State, email: string, guess: string, user: UserState, passwordOk: bool)
    ensures var slot, (s', r) := Slot(PasswordReset, email), Apply(s, Reset(email, guess, user, passwordOk));
            var open, right := Counted(s, slot) < 5, IsRight(s, slot, guess);
            && (r == Done <==> open && right && user == Ordinary && passwordOk)
            && (!open ==> r == Raised(TooManyRequests))
            && (open && !right ==> r == Raised(InvalidCode))
            && (open && right && user == NoUser ==> r == Raised(InvalidCode))
            && (open && right && user == Deactivated ==> r == Raised(AccountDeactivated))
            && (open && right && user == SocialOnly ==> r == Raised(SocialUserOnly))
            && (open && right && user == Ordinary && !passwordOk ==> r == Raised(ValidationError))
            && (r != Done && (!open || right) ==> CacheKept(s, s'))
            && OthersKept(s, s', slot) && s'.cooldowns == s.cooldowns
            && (r == Done ==> slot !in s'.codes && slot !in s'.attempts)
  {}

  /** A wrong guess is counted for 1200 seconds more, and the fifth withdraws the code. */
  lemma WrongResetCall(s: State, email: string, guess: string, user: UserState, passwordOk: bool)
    requires Counted(s, Slot(PasswordReset, email)) < 5 && !IsRight(s, Slot(PasswordReset, email), guess)
    ensures var slot, s' := Slot(PasswordReset, email), Apply(s, Reset(email, guess, user, passwordOk)).0;
            && slot in s'.attempts && s'.attempts[slot] == Attempts(Counted(s, slot) + 1, s.now + 1200)
            && (slot in s'.codes <==> slot in s.codes && Counted(s, slot) < 4)
            && (slot in s'.codes ==> s'.codes[slot] == s.codes[slot])
  {}

  /** A sign-up succeeds exactly for a new address and a free nickname, with the right code and an
      acceptable password; nothing else changes the cache. */
  lemma SignUpCall(s: State, email: string, guess: string, user: UserState, nicknameTaken: bool, passwordOk: bool)
    ensures var slot := Slot(Signup, email);
            var (s', r) := Apply(s, SignUp(email, guess, user, nicknameTaken, passwordOk));
            var readable, right := slot in s.codes && s.now < s.codes[slot].expiresAt, IsRight(s, slot, guess);
            && (r == Done <==> user == NoUser && !nicknameTaken && right && passwordOk)
            && (r == Raised(EmailAlreadyExists) <==> user != NoUser)
            && (r == Raised(NicknameAlreadyExists) <==> user == NoUser && nicknameTaken)
            && (r == Raised(CodeExpired) <==> user == NoUser && !nicknameTaken && !readable)
            && (r == Raised(InvalidCode) <==> user == NoUser && !nicknameTaken && readable && !right)
            && (r == Raised(ValidationError) <==> user == NoUser && !nicknameTaken && right && !passwordOk)
            && (r != Done ==> CacheKept(s, s'))
            && (r == Done ==>
                 OthersKept(s, s', slot) && slot !in s'.codes && slot !in s'.attempts && s'.cooldowns == s.cooldowns)
  {}

  /** Sending answers, writes the cooldown of 60 seconds, and stores a code readable for 300 with a
      clean counter exactly when the address is new for a sign-up or ordinary for a reset. */
  lemma SendCall(s: State, slot: Slot, user: UserState, code: string)
    ensures var (s', r) := Apply(s, Send(slot, user, code));
            var taken := slot.purpose == Signup && user != NoUser;
            var cooling := slot in s.cooldowns && s.now < s.cooldowns[slot];
            var due := slot.purpose == Signup || user == Ordinary;
            && (r == Raised(EmailAlreadyExists) <==> taken)
            && (r == Raised(TooManyRequests) <==> !taken && cooling)
            && (r == Done <==> !taken && !cooling)
            && (r != Done ==> s' == s)
            && OthersKept(s, s', slot)
            && (r == Done ==> slot in s'.cooldowns && s'.cooldowns[slot] == s.now + 60)
            && (r == Done && due ==>
                 && slot in s'.codes && s'.codes[slot].value == code && s'.codes[slot].expiresAt == s.now + 300
                 && slot !in s'.attempts)
            && (r == Done && !due ==> s'.codes == s.codes && s'.attempts == s.attempts && s'.issues == s.issues)
  {}

  // ----- which call accepts a code -----

  /** The slot and the code a call presents. */
  function Presented(op: Op): Option<(Slot, string)> {
    match op
    case Reset(email, guess, _, _) => Some((Slot(PasswordReset, email), guess))
    case SignUp(email, guess, _, _, _) => Some((Slot(Signup, email), guess))
    case _ => None
  }

  /** The call succeeds on presenting the value of code k while it can be read. */
  ghost predicate Accepts(s: State, op: Op, k: nat) {
    && Presented(op).Some? && Apply(s, op).1 == Done
    && IsRight(s, Presented(op).value.0, Presented(op).value.1) && s.codes[Presented(op).value.0].serial == k
  }

  lemma StepAccepts(s: State, op: Op, k: nat)
    ensures Times(Apply(s, op).0.accepted, k) == Times(s.accepted, k) + if Accepts(s, op, k) then 1 else 0
  {}

  ghost predicate AcceptedAt(ops: seq<Op>, i: int, k: nat)
    requires 0 <= i < |ops|
  {
    Accepts(Run(EMPTY, ops[..i]), ops[i], k)
  }

  /** A code counts as accepted if and only if some call of the run presented its value in time
      and succeeded. */
  lemma {:induction false} AcceptedIffPresented(ops: seq<Op>, k: nat)
    ensures Times(Run(EMPTY, ops).accepted, k) > 0 <==> exists i :: 0 <= i < |ops| && AcceptedAt(ops, i, k)
  {
    if ops != [] {
      var n := |ops| - 1;
      AcceptedIffPresented(ops[..n], k);
      StepAccepts(Run(EMPTY, ops[..n]), ops[n], k);
      assert AcceptedAt(ops, n, k) <==> Accepts(Run(EMPTY, ops[..n]), ops[n], k);
      forall i | 0 <= i < n ensures AcceptedAt(ops[..n], i, k) <==> AcceptedAt(ops, i, k) {
        AcceptedInPrefix(ops, n, i, k);
      }
    }
  }

  lemma AcceptedInPrefix(ops: seq<Op>, n: nat, i: nat, k: nat)
    requires i < n <= |ops|
    ensures AcceptedAt(ops[..n], i, k) <==> AcceptedAt(ops, i, k)
  {
    assert ops[..n][..i] == ops[..i] && ops[..n][i] == ops[i];
  }

  /** Step i of the run sent this code to the slot, as code number k. */
  ghost predicate SentAt(ops: seq<Op>, i: int, slot: Slot, value: string, k: nat)
    requires 0 <= i < |ops|
  {
    && ops[i].Send? && ops[i].slot == slot && ops[i].code == value
    && |Run(EMPTY, ops[..i]).issues| == k && Apply(Run(EMPTY, ops[..i]), ops[i]).1 == Done
  }

  /** A code in the cache is one that was sent to its address for its purpose. */
  lemma {:induction false} StoredCodeWasSent(ops: seq<Op>, slot: Slot)
    requires slot in Run(EMPTY, ops).codes
    ensures var c := Run(EMPTY, ops).codes[slot];
            exists i :: 0 <= i < |ops| && SentAt(ops, i, slot, c.value, c.serial)
  {
    if ops != [] {
      var n := |ops| - 1;
      var s, c := Run(EMPTY, ops[..n]), Run(EMPTY, ops).codes[slot];
      StepStores(s, ops[n], slot);
      if slot in s.codes && s.codes[slot] == c {
        StoredCodeWasSent(ops[..n], slot);
        var i :| 0 <= i < n && SentAt(ops[..n], i, slot, c.value, c.serial);
        SentInPrefix(ops, n, i, slot, c.value, c.serial);
      } else {
        assert SentAt(ops, n, slot, c.value, c.serial);
      }
    }
  }

  lemma SentInPrefix(ops: seq<Op>, n: nat, i: nat, slot: Slot, value: string, k: nat)
    requires i < n <= |ops| && SentAt(ops[..n], i, slot, value, k)
    ensures SentAt(ops, i, slot, value, k)
  {
    assert ops[..n][..i] == ops[..i] && ops[..n][i] == ops[i];
  }

  lemma StepStores(s: State, op: Op, slot: Slot)
    requires slot in Apply(s, op).0.codes
    ensures var c := Apply(s, op).0.codes[slot];
            (slot in s.codes && s.codes[slot] == c)
            || (op.Send? && op.slot == slot && op.code == c.value && |s.issues| == c.serial && Apply(s, op).1 == Done)
  {}

  /** Step j accepts code k, which step i sent to the address and for the purpose of step j, with the
      value that step j presents. */
  ghost predicate SentAndAccepted(ops: seq<Op>, i: int, j: int, k: nat)
    requires 0 <= i < j < |ops|
  {
    AcceptedAt(ops, j, k) && SentAt(ops, i, Presented(ops[j]).value.0, Presented(ops[j]).value.1, k)
  }

  lemma WasSentBefore(ops: seq<Op>, j: nat, k: nat) returns (i: nat)
    requires j < |ops| && AcceptedAt(ops, j, k)
    ensures i < j && SentAndAccepted(ops, i, j, k)
  {
    var slot, value := Presented(ops[j]).value.0, Presented(ops[j]).value.1;
    StoredCodeWasSent(ops[..j], slot);
    i :| i < j && SentAt(ops[..j], i, slot, value, k);
    SentInPrefix(ops, j, i, slot, value, k);
  }

  /** Nobody resets a password or signs up without the emailed code: every accepted code was sent
      earlier, and with the value that was presented. */
  lemma AcceptedCodeWasSent(ops: seq<Op>, k: nat)
    requires Times(Run(EMPTY, ops).accepted, k) > 0
    ensures exists i, j :: 0 <= i < j < |ops| && SentAndAccepted(ops, i, j, k)
  {
    AcceptedIffPresented(ops, k);
    var j :| 0 <= j < |ops| && AcceptedAt(ops, j, k);
    var i := WasSentBefore(ops, j, k);
  }
}
