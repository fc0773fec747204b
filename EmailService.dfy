/** One-time codes that verify a user's e-mail address: generating a code,
    storing it with a five-minute lifetime, checking a submitted code, and
    issuing a new one at most once a minute. `down` is the set of statements
    the database rejects during the call; the e-mail itself is sent by a
    background HTTP request that is not part of this model. */
module EmailService {
  import opened Wrappers
  import opened Text
  import opened Models
  import opened Rows
  import opened Store
  import opened EmailVerificationRepository

  /** Digits in a code, seconds a code stays valid, and seconds before a new
      code may be requested. */
  const OtpDigits: nat := 6
  const OtpLifetime: int := 300
  const ResendWait: int := 60

  /** A code as the generator produces it. */
  predicate WellFormedOtp(code: string)
  {
    |code| == OtpDigits && AllDigits(code)
  }

  /** Six digits, each drawn uniformly from 0–9 by the system's random
      source. The draws are the method's own choice; `failsAt` is the draw at
      which the random source reports an error (`OtpDigits` or more when none
      does), and any failure abandons the code. */
  method GenerateOTP(failsAt: nat) returns (otp: Option<string>)
    ensures otp.None? <==> failsAt < OtpDigits
    ensures otp.Some? ==> WellFormedOtp(otp.value)
  {
    var code := "";
    for i := 0 to OtpDigits
      invariant i <= failsAt
      invariant |code| == i && AllDigits(code)
    {
      if i == failsAt { return None; }
      var d :| 0 <= d < 10;
      code := code + [DigitChar(d)];
    }
    return Some(code);
  }

  /** The record the service stores for a fresh code: for `userId` at
      `email`, expiring `OtpLifetime` seconds after `now`, unverified, with
      the id `id` and creation time `now` the database assigns. */
  predicate Issued(v: EmailVerification, id: int, userId: int, email: string, now: int)
  {
    v.id == id && v.userId == userId && v.email == email && WellFormedOtp(v.otpCode)
    && v.expiresAt == now + OtpLifetime && !v.isVerified && v.createdAt == now
  }

  /** Generates a code and stores it for the address. The name is only used
      in the e-mail text. */
  method SendOTP(db: Database, userId: int, email: string, username: string, failsAt: nat, down: set<Call>)
    returns (err: Option<Error>)
    requires db.VerificationsValid()
    modifies db`verifications, db`nextVerificationId
    ensures db.VerificationsValid()
    ensures failsAt < OtpDigits ==> (err == Some(OtpGenerationFailed)
      && db.verifications == old(db.verifications) && db.nextVerificationId == old(db.nextVerificationId))
    ensures failsAt >= OtpDigits && VerificationInsert in down ==> (err == Some(OtpSaveFailed)
      && db.verifications == old(db.verifications) && db.nextVerificationId == old(db.nextVerificationId))
    ensures failsAt >= OtpDigits && VerificationInsert !in down ==> (err == None
      && |db.verifications| == |old(db.verifications)| + 1
      && db.verifications[..|old(db.verifications)|] == old(db.verifications)
      && Issued(db.verifications[|old(db.verifications)|], old(db.nextVerificationId), userId, email, db.now))
  {
    var otp := GenerateOTP(failsAt);
    if otp.None? { return Some(OtpGenerationFailed); }
    var v := EmailVerification(0, userId, email, otp.value, db.now + OtpLifetime, false, 0);
    var saved := Create(db, v, VerificationInsert !in down);
    if saved.Err? { return Some(OtpSaveFailed); }
    return None;
  }

  // ---------------------------------------------------------------------
  // Checking a submitted code

  /** The checks of `VerifyOTP`, in the order the service runs them, on the
      address's most recent record: the record when every one passes,
      otherwise the error of the first that fails. `up` says whether the
      lookup statement succeeds. */
  function OtpVerdict(vs: seq<EmailVerification>, email: string, code: string, now: int, up: bool)
    : (r: Result<EmailVerification, Error>)
    ensures r == Err(VerificationNotFound) <==> !up
    ensures r == Err(NoOtpForEmail) <==> up && Latest(vs, email).None?
    ensures r == Err(EmailAlreadyVerified) <==> up && Latest(vs, email).Some? && Latest(vs, email).value.isVerified
    ensures r == Err(OtpExpired) <==>
      up && Latest(vs, email).Some? && !Latest(vs, email).value.isVerified
      && now > Latest(vs, email).value.expiresAt
    ensures r == Err(InvalidOtpCode) <==>
      up && Latest(vs, email).Some? && !Latest(vs, email).value.isVerified
      && now <= Latest(vs, email).value.expiresAt && Latest(vs, email).value.otpCode != code
    ensures r.Ok? <==>
      up && Latest(vs, email).Some? && !Latest(vs, email).value.isVerified
      && now <= Latest(vs, email).value.expiresAt && Latest(vs, email).value.otpCode == code
    ensures r.Ok? ==> Some(r.value) == Latest(vs, email)
  {
    if !up then Err(VerificationNotFound) else
    match Latest(vs, email)
    case None => Err(NoOtpForEmail)
    case Some(v) =>
      if v.isVerified then Err(EmailAlreadyVerified)
      else if now > v.expiresAt then Err(OtpExpired)
      else if v.otpCode != code then Err(InvalidOtpCode)
      else Ok(v)
  }

  /** The checks as the service runs them; it writes nothing. */
  method CheckOtp(db: Database, email: string, code: string, down: set<Call>) returns (r: Result<EmailVerification, Error>)
    ensures r == OtpVerdict(db.verifications, email, code, db.now, VerificationLookup !in down)
  {
    var found := GetByEmail(db, email, VerificationLookup !in down);
    if found.Err? { return Err(VerificationNotFound); }
    if found.value.None? { return Err(NoOtpForEmail); }
    var v := found.value.value;
    if v.isVerified { return Err(EmailAlreadyVerified); }
    if db.now > v.expiresAt { return Err(OtpExpired); }
    if v.otpCode != code { return Err(InvalidOtpCode); }
    return Ok(v);
  }

  /** Checks the code against the address's most recent record, then marks
      that record verified, then marks its user verified; a failed write stops
      the sequence, and the write before it stays. */
  method VerifyOTP(db: Database, email: string, code: string, down: set<Call>) returns (err: Option<Error>)
    requires db.VerificationsValid() && db.UsersValid()
    modifies db`verifications, db`users
    ensures db.VerificationsValid() && db.UsersValid()
    ensures var c := OtpVerdict(old(db.verifications), email, code, db.now, VerificationLookup !in down);
      c.Err? ==> (err == Some(c.error) && db.verifications == old(db.verifications) && db.users == old(db.users))
    ensures var c := OtpVerdict(old(db.verifications), email, code, db.now, VerificationLookup !in down);
      c.Ok? && VerificationMark in down ==>
      (err == Some(MarkVerifiedFailed) && db.verifications == old(db.verifications) && db.users == old(db.users))
    ensures var c := OtpVerdict(old(db.verifications), email, code, db.now, VerificationLookup !in down);
      c.Ok? && VerificationMark !in down ==>
      (db.verifications == SetVerified(old(db.verifications), c.value.id)
       && (UserVerify in down ==> err == Some(UserStatusFailed) && db.users == old(db.users))
       && (UserVerify !in down ==> err == None && db.users == SetUserVerified(old(db.users), c.value.userId)))
  {
    var checked := CheckOtp(db, email, code, down);
    if checked.Err? { return Some(checked.error); }
    var v := checked.value;

    var e := MarkAsVerified(db, v.id, VerificationMark !in down);
    if e.Some? { return Some(MarkVerifiedFailed); }

    e := UpdateUserVerification(db, v.userId, UserVerify !in down);
    if e.Some? { return Some(UserStatusFailed); }
    return None;
  }

  /** Marking a record verified leaves the address's most recent record the
      same row, now verified when it is the one marked. */
  lemma {:induction false} LatestAfterSetVerified(vs: seq<EmailVerification>, email: string, id: int)
    ensures Latest(SetVerified(vs, id), email) ==
      match Latest(vs, email)
      case None => None
      case Some(v) => Some(if v.id == id then v.(isVerified := true) else v)
  {
    if vs != [] {
      var init := vs[..|vs| - 1];
      var r := SetVerified(vs, id);
      assert r[..|r| - 1] == SetVerified(init, id);
      LatestAfterSetVerified(init, email, id);
    }
  }

  /** A code that has been accepted cannot be accepted again: once its record
      is marked, every later check on the address, with any code at any time,
      reports the address as already verified. */
  lemma VerifiedOnce(vs: seq<EmailVerification>, email: string, code: string, now: int,
                     code2: string, later: int)
    requires OtpVerdict(vs, email, code, now, true).Ok?
    ensures OtpVerdict(SetVerified(vs, OtpVerdict(vs, email, code, now, true).value.id), email, code2, later, true)
      == Err(EmailAlreadyVerified)
  {
    LatestAfterSetVerified(vs, email, OtpVerdict(vs, email, code, now, true).value.id);
  }

  /** The round trip of `SendOTP` and `VerifyOTP`: a freshly stored code is
      accepted exactly when it is submitted unchanged and no later than its
      expiry. */
  lemma SentCodeVerifies(vs: seq<EmailVerification>, v: EmailVerification, id: int, userId: int,
                         email: string, issuedAt: int, code: string, now: int)
    requires Issued(v, id, userId, email, issuedAt)
    ensures OtpVerdict(vs + [v], email, code, now, true).Ok? <==> code == v.otpCode && now <= issuedAt + OtpLifetime
    ensures OtpVerdict(vs + [v], email, code, now, true).Ok? ==> OtpVerdict(vs + [v], email, code, now, true).value == v
  {
    assert Latest(vs + [v], email) == Some(v);
  }

  // ---------------------------------------------------------------------
  // Issuing a new code

  /** The checks of `ResendOTP`, in the order the service runs them: the
      address's most recent record when every one passes, otherwise the error
      of the first that fails. A failed lookup reads as no registration. */
  function ResendVerdict(vs: seq<EmailVerification>, email: string, now: int, up: bool)
    : (r: Result<EmailVerification, Error>)
    ensures r == Err(NoRegistration) <==> !up || Latest(vs, email).None?
    ensures r == Err(EmailAlreadyVerified) <==> up && Latest(vs, email).Some? && Latest(vs, email).value.isVerified
    ensures r == Err(ResendTooSoon) <==>
      up && Latest(vs, email).Some? && !Latest(vs, email).value.isVerified
      && now - Latest(vs, email).value.createdAt < ResendWait
    ensures r.Ok? <==>
      up && Latest(vs, email).Some? && !Latest(vs, email).value.isVerified
      && now - Latest(vs, email).value.createdAt >= ResendWait
    ensures r.Ok? ==> Some(r.value) == Latest(vs, email)
  {
    if !up then Err(NoRegistration) else
    match Latest(vs, email)
    case None => Err(NoRegistration)
    case Some(v) =>
      if v.isVerified then Err(EmailAlreadyVerified)
      else if now - v.createdAt < ResendWait then Err(ResendTooSoon)
      else Ok(v)
  }

  method CheckResend(db: Database, email: string, down: set<Call>) returns (r: Result<EmailVerification, Error>)
    ensures r == ResendVerdict(db.verifications, email, db.now, VerificationLookup !in down)
  {
    var found := GetByEmail(db, email, VerificationLookup !in down);
    if found.Err? || found.value.None? { return Err(NoRegistration); }
    var v := found.value.value;
    if v.isVerified { return Err(EmailAlreadyVerified); }
    if db.now - v.createdAt < ResendWait { return Err(ResendTooSoon); }
    return Ok(v);
  }

  /** Stores a new code for the user of the address's most recent record;
      the older codes stay, but only the newest one is ever checked. */
  method ResendOTP(db: Database, email: string, failsAt: nat, down: set<Call>) returns (err: Option<Error>)
    requires db.VerificationsValid()
    modifies db`verifications, db`nextVerificationId
    ensures db.VerificationsValid()
    ensures var c := ResendVerdict(old(db.verifications), email, db.now, VerificationLookup !in down);
      c.Err? ==> (err == Some(c.error) && db.verifications == old(db.verifications)
        && db.nextVerificationId == old(db.nextVerificationId))
    ensures var c := ResendVerdict(old(db.verifications), email, db.now, VerificationLookup !in down);
      c.Ok? && failsAt < OtpDigits ==> (err == Some(NewOtpGenerationFailed)
        && db.verifications == old(db.verifications) && db.nextVerificationId == old(db.nextVerificationId))
    ensures var c := ResendVerdict(old(db.verifications), email, db.now, VerificationLookup !in down);
      c.Ok? && failsAt >= OtpDigits && VerificationInsert in down ==> (err == Some(NewOtpSaveFailed)
        && db.verifications == old(db.verifications) && db.nextVerificationId == old(db.nextVerificationId))
    ensures var c := ResendVerdict(old(db.verifications), email, db.now, VerificationLookup !in down);
      c.Ok? && failsAt >= OtpDigits && VerificationInsert !in down ==> (err == None
        && |db.verifications| == |old(db.verifications)| + 1
        && db.verifications[..|old(db.verifications)|] == old(db.verifications)
        && Issued(db.verifications[|old(db.verifications)|], old(db.nextVerificationId), c.value.userId, email, db.now))
  {
    var checked := CheckResend(db, email, down);
    if checked.Err? { return Some(checked.error); }
    var previous := checked.value;

    var otp := GenerateOTP(failsAt);
    if otp.None? { return Some(NewOtpGenerationFailed); }
    var v := EmailVerification(0, previous.userId, email, otp.value, db.now + OtpLifetime, false, 0);
    var saved := Create(db, v, VerificationInsert !in down);
    if saved.Err? { return Some(NewOtpSaveFailed); }
    return None;
  }

  /** The rate limit: right after a code is stored, a new one is refused
      until `ResendWait` seconds have passed, and allowed from then on. */
  lemma ResendRateLimited(vs: seq<EmailVerification>, v: EmailVerification, id: int, userId: int,
                          email: string, issuedAt: int, now: int)
    requires Issued(v, id, userId, email, issuedAt)
    ensures ResendVerdict(vs + [v], email, now, true) == Err(ResendTooSoon) <==> now < issuedAt + ResendWait
    ensures ResendVerdict(vs + [v], email, now, true).Ok? <==> now >= issuedAt + ResendWait
  {
    assert Latest(vs + [v], email) == Some(v);
  }

  /** A new code supersedes the old one: after a resend, the previous code is
      never accepted unless the new code happens to be the same digits. */
  lemma ResendSupersedes(vs: seq<EmailVerification>, v: EmailVerification, id: int, userId: int,
                         email: string, issuedAt: int, oldCode: string, now: int)
    requires Issued(v, id, userId, email, issuedAt)
    requires oldCode != v.otpCode
    ensures OtpVerdict(vs + [v], email, oldCode, now, true).Err?
  {
    SentCodeVerifies(vs, v, id, userId, email, issuedAt, oldCode, now);
  }
}
