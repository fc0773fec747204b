/** The `email_verifications` table (one-time codes sent to an address) and
    the `users.is_verified` flag it drives. `up` says whether the database
    accepts the call's statements; when it does not, the call reports
    `Storage(call)` and changes nothing. */
module EmailVerificationRepository {
  import opened Wrappers
  import opened Models
  import opened Rows
  import opened Store

  /** `WHERE email = $1 ORDER BY created_at DESC LIMIT 1`: the most recently
      inserted record for the address. */
  function Latest(vs: seq<EmailVerification>, email: string): (r: Option<EmailVerification>)
    ensures r.Some? ==> r.value in vs && r.value.email == email
    ensures r.None? <==> forall i :: 0 <= i < |vs| ==> vs[i].email != email
  {
    if vs == [] then None
    else if vs[|vs| - 1].email == email then Some(vs[|vs| - 1])
    else
      var r := Latest(vs[..|vs| - 1], email);
      assert r.Some? ==> r.value in vs by {
        if r.Some? { assert r.value in vs[..|vs| - 1]; }
      }
      r
  }

  /** Records are stamped when inserted, so the most recent one has the
      greatest `created_at` of all the address's records. */
  lemma {:induction false} LatestIsNewest(vs: seq<EmailVerification>, now: int, email: string)
    requires Stamped(vs, VerificationCreated, now)
    ensures Latest(vs, email).Some? ==>
      forall i :: 0 <= i < |vs| && vs[i].email == email ==> vs[i].createdAt <= Latest(vs, email).value.createdAt
  {
    if vs != [] && vs[|vs| - 1].email != email {
      var init := vs[..|vs| - 1];
      LatestIsNewest(init, now, email);
      assert forall i :: 0 <= i < |init| ==> init[i] == vs[i];
    }
  }

  /** `UPDATE email_verifications SET is_verified = true WHERE id = $1`. */
  function SetVerified(vs: seq<EmailVerification>, id: int): (r: seq<EmailVerification>)
    ensures |r| == |vs|
    ensures forall i :: 0 <= i < |vs| ==> r[i].(isVerified := vs[i].isVerified) == vs[i]
    ensures forall i :: 0 <= i < |vs| ==> r[i].isVerified == (vs[i].id == id || vs[i].isVerified)
  {
    if vs == [] then [] else
      var v := vs[|vs| - 1];
      SetVerified(vs[..|vs| - 1], id) + [if v.id == id then v.(isVerified := true) else v]
  }

  lemma SetVerifiedValid(vs: seq<EmailVerification>, next: int, now: int, id: int)
    requires Keyed(vs, VerificationId, next) && Stamped(vs, VerificationCreated, now)
    ensures Keyed(SetVerified(vs, id), VerificationId, next) && Stamped(SetVerified(vs, id), VerificationCreated, now)
  {
    var r := SetVerified(vs, id);
    forall i | 0 <= i < |vs| ensures r[i].id == vs[i].id && r[i].createdAt == vs[i].createdAt {
      assert r[i].(isVerified := vs[i].isVerified) == vs[i];
    }
  }

  /** `UPDATE users SET is_verified = true WHERE id = $1`. */
  function SetUserVerified(us: seq<User>, id: int): (r: seq<User>)
    ensures |r| == |us|
    ensures forall i :: 0 <= i < |us| ==> r[i].(isVerified := us[i].isVerified) == us[i]
    ensures forall i :: 0 <= i < |us| ==> r[i].isVerified == (us[i].id == id || us[i].isVerified)
  {
    if us == [] then [] else
      var u := us[|us| - 1];
      SetUserVerified(us[..|us| - 1], id) + [if u.id == id then u.(isVerified := true) else u]
  }

  lemma SetUserVerifiedValid(us: seq<User>, next: int, id: int)
    requires Keyed(us, UserId, next)
    ensures Keyed(SetUserVerified(us, id), UserId, next)
  {
    var r := SetUserVerified(us, id);
    forall i | 0 <= i < |us| ensures r[i].id == us[i].id {
      assert r[i].(isVerified := us[i].isVerified) == us[i];
    }
  }

  /** The record outlives `DELETE … WHERE expires_at < NOW() AND is_verified = false`. */
  predicate Kept(v: EmailVerification, now: int)
  {
    !(v.expiresAt < now && !v.isVerified)
  }

  function KeptAt(now: int): EmailVerification -> bool
  {
    (v: EmailVerification) => Kept(v, now)
  }

  /** Exactly the unverified records that expired before `now` go; every
      other record stays, in order. */
  function WithoutExpired(vs: seq<EmailVerification>, now: int): (r: seq<EmailVerification>)
    ensures forall v :: multiset(r)[v] == if v.expiresAt < now && !v.isVerified then 0 else multiset(vs)[v]
  {
    FilterCount(vs, KeptAt(now));
    Filter(vs, KeptAt(now))
  }

  // ---------------------------------------------------------------------
  // The repository's methods

  /** `INSERT INTO email_verifications (…, is_verified) VALUES (…, false)
      RETURNING id, created_at`: the stored record is unverified and created now. */
  method Create(db: Database, v: EmailVerification, up: bool) returns (r: Result<EmailVerification, Error>)
    requires db.VerificationsValid()
    modifies db`verifications, db`nextVerificationId
    ensures db.VerificationsValid()
    ensures up ==> (r == Ok(v.(id := old(db.nextVerificationId), isVerified := false, createdAt := db.now))
      && db.verifications == old(db.verifications) + [r.value]
      && db.nextVerificationId == old(db.nextVerificationId) + 1)
    ensures !up ==> (r == Err(Storage(VerificationInsert)) && db.verifications == old(db.verifications)
      && db.nextVerificationId == old(db.nextVerificationId))
  {
    if !up { return Err(Storage(VerificationInsert)); }
    var row := v.(id := db.nextVerificationId, isVerified := false, createdAt := db.now);
    KeyedAppend(db.verifications, VerificationId, db.nextVerificationId, row);
    StampedAppend(db.verifications, VerificationCreated, db.now, row);
    db.verifications := db.verifications + [row];
    db.nextVerificationId := db.nextVerificationId + 1;
    return Ok(row);
  }

  /** An address without records is no error: `Ok(None)`. */
  method GetByEmail(db: Database, email: string, up: bool) returns (r: Result<Option<EmailVerification>, Error>)
    ensures up ==> r == Ok(Latest(db.verifications, email))
    ensures !up ==> r == Err(Storage(VerificationLookup))
  {
    if !up { return Err(Storage(VerificationLookup)); }
    return Ok(Latest(db.verifications, email));
  }

  method MarkAsVerified(db: Database, id: int, up: bool) returns (err: Option<Error>)
    requires db.VerificationsValid()
    modifies db`verifications
    ensures db.VerificationsValid()
    ensures up ==> err == None && db.verifications == SetVerified(old(db.verifications), id)
    ensures !up ==> err == Some(Storage(VerificationMark)) && db.verifications == old(db.verifications)
  {
    if !up { return Some(Storage(VerificationMark)); }
    SetVerifiedValid(db.verifications, db.nextVerificationId, db.now, id);
    db.verifications := SetVerified(db.verifications, id);
    return None;
  }

  method UpdateUserVerification(db: Database, userId: int, up: bool) returns (err: Option<Error>)
    requires db.UsersValid()
    modifies db`users
    ensures db.UsersValid()
    ensures up ==> err == None && db.users == SetUserVerified(old(db.users), userId)
    ensures !up ==> err == Some(Storage(UserVerify)) && db.users == old(db.users)
  {
    if !up { return Some(Storage(UserVerify)); }
    SetUserVerifiedValid(db.users, db.nextUserId, userId);
    db.users := SetUserVerified(db.users, userId);
    return None;
  }

  method DeleteExpired(db: Database, up: bool) returns (err: Option<Error>)
    requires db.VerificationsValid()
    modifies db`verifications
    ensures db.VerificationsValid()
    ensures up ==> err == None && db.verifications == WithoutExpired(old(db.verifications), db.now)
    ensures !up ==> err == Some(Storage(VerificationCleanup)) && db.verifications == old(db.verifications)
  {
    if !up { return Some(Storage(VerificationCleanup)); }
    FilterKeyed(db.verifications, KeptAt(db.now), VerificationId, db.nextVerificationId);
    FilterStamped(db.verifications, KeptAt(db.now), VerificationCreated, db.now);
    db.verifications := WithoutExpired(db.verifications, db.now);
    return None;
  }
}
