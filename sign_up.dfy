/**
  `POST /api/sign-up` (src/app/api/sign-up/route.ts): refuse a username or
  an email a verified user already holds, otherwise store a new unverified
  user with a six-digit code valid for one hour, then send the code by mail.

  The random part of the code (`Math.random() * 900000`, floored) is the
  parameter `r`, the clock is `now`, and whether the mail went out is
  `mailSent`.
*/
module SignUpRoute {
  import opened Wrappers
  import opened Text
  import opened UserModel
  import opened Store

  datatype SignUpRequest = SignUpRequest(username: string, email: string, password: string)

  const CodeBase := 100000
  const CodeSpan := 900000

  /** One hour in milliseconds: the lifetime of a verification code. */
  const CodeLifetime := 3600 * 1000

  const UsernameTaken := "Username is already taken"
  const EmailTaken := "User already registered using this email"
  const Registered := "User registered successfully. Please verify your email"
  const MailFailed := "Failed to send verification email"
  const RegisterError := "Error registering the user"

  /** `Math.floor(100000 + Math.random() * 900000).toString()` with the
      random offset `r`: always six decimal digits, worth 100000 + r. */
  function VerifyCode(r: nat): (code: string)
    requires r < CodeSpan
    ensures |code| == 6 && forall k :: 0 <= k < |code| ==> IsDigit(code[k])
    ensures DigitsValue(code) == CodeBase + r
  {
    assert Pow10(5) == 100000 && Pow10(6) == 1000000;
    DecimalLength(CodeBase + r, 6);
    DecimalRoundTrip(CodeBase + r);
    Decimal(CodeBase + r)
  }

  /** The fields of `new UserModel({...})` for a new registration. The
      request's `isAcceptingMessage: true` names no schema path, so strict
      mode drops it and the schema default applies instead. */
  function Fields(req: SignUpRequest, code: string, now: Time): UserFields {
    UserFields(req.username, req.email, Hash(req.password), code,
               Some(now + CodeLifetime), Some(false), None)
  }

  function Notice400(message: string): Response { Response(400, Notice(false, message)) }
  function Notice500(message: string): Response { Response(500, Notice(false, message)) }

  /** The handler as a decision procedure over the collection: the response
      and the collection afterwards. `newId` is the id a new document gets. */
  function Outcome(db: Db, newId: UserId, req: SignUpRequest, r: nat, now: Time, mailSent: bool): (Response, Db)
    requires newId !in db && r < CodeSpan
  {
    if Found(db, ByUsername(req.username), true) then (Notice400(UsernameTaken), db)
    else if Found(db, ByEmail(req.email), true) then (Notice400(EmailTaken), db)
    else
      match NewUser(Fields(req, VerifyCode(r), now))
      case Invalid(_) => (Notice500(RegisterError), db)
      case Ok(u) =>
        if Clashes(db, u) then (Notice500(RegisterError), db)
        else if mailSent then (Response(200, Notice(true, Registered)), db[newId := u])
        else (Notice500(MailFailed), db[newId := u])
  }

  method Post(store: UserStore, req: SignUpRequest, r: nat, now: Time, mailSent: bool) returns (resp: Response)
    requires store.Valid() && r < CodeSpan
    modifies store
    ensures store.Valid()
    ensures old(store.nextId) !in old(store.users)
    ensures (resp, store.users) == Outcome(old(store.users), old(store.nextId), req, r, now, mailSent)
  {
    var byUsername := store.FindOne(ByUsername(req.username), true);
    if byUsername.Some? {
      return Notice400(UsernameTaken);
    }
    var byEmail := store.FindOne(ByEmail(req.email), true);
    var code := VerifyCode(r);
    if byEmail.Some? {
      var holder := store.users[byEmail.value];
      if holder.isVerified {
        return Notice400(EmailTaken);
      } else {
        // The overwrite of an unverified holder: the filter above already
        // demanded `isVerified: true`, so this branch is never taken.
        assert false;
      }
    }
    var built := NewUser(Fields(req, code, now));
    if built.Invalid? {
      // `save()` throws a ValidationError, caught by the handler.
      return Notice500(RegisterError);
    }
    NewUserValid(Fields(req, code, now));
    var id := store.Insert(built.value);
    if id.None? {
      // `save()` throws a duplicate-key error, caught by the handler.
      return Notice500(RegisterError);
    }
    if !mailSent {
      return Notice500(MailFailed);
    }
    return Response(200, Notice(true, Registered));
  }

  /** A verified holder of the username or the email gets a 400 and the
      collection is left alone; the username is checked first, so a
      request colliding on both reports the username. */
  lemma VerifiedHolderRefused(db: Db, newId: UserId, req: SignUpRequest, r: nat, now: Time, mailSent: bool)
    requires newId !in db && r < CodeSpan
    ensures var (resp, db') := Outcome(db, newId, req, r, now, mailSent);
            && (resp.status == 400 <==> Found(db, ByUsername(req.username), true) || Found(db, ByEmail(req.email), true))
            && (resp.status == 400 ==> db' == db)
            && (Found(db, ByUsername(req.username), true) ==> resp.body == Notice(false, UsernameTaken))
            && (!Found(db, ByUsername(req.username), true) && Found(db, ByEmail(req.email), true) ==>
                  resp.body == Notice(false, EmailTaken))
  {
  }

  /** The schema's six-character minimum is checked on the hash, which is
      always longer, so the password never makes a registration invalid:
      only a blank username or an email of the wrong shape does. */
  lemma PasswordNeverRefused(req: SignUpRequest, r: nat, now: Time)
    requires r < CodeSpan
    ensures NewUser(Fields(req, VerifyCode(r), now)).Ok? <==>
              !IsBlank(req.username) && MatchesEmailPattern(NormalizeEmail(req.email))
  {
    NewUserAcceptsExactly(Fields(req, VerifyCode(r), now));
  }

  /** Every request that is not refused stores a new document under the
      new id, unless it is invalid or clashes with an unverified holder of
      the username or the email; no stored document is ever changed. */
  lemma RegistrationInserts(db: Db, newId: UserId, req: SignUpRequest, r: nat, now: Time, mailSent: bool)
    requires newId !in db && r < CodeSpan
    ensures var (_, db') := Outcome(db, newId, req, r, now, mailSent);
            var built := NewUser(Fields(req, VerifyCode(r), now));
            && (newId in db' <==>
                  && !Found(db, ByUsername(req.username), true)
                  && !Found(db, ByEmail(req.email), true)
                  && built.Ok? && !Clashes(db, built.value))
            && (newId in db' ==> db' == db[newId := built.value])
            && (newId !in db' ==> db' == db)
  {
    var built := NewUser(Fields(req, VerifyCode(r), now));
    if !Found(db, ByUsername(req.username), true) && !Found(db, ByEmail(req.email), true)
       && built.Ok? && !Clashes(db, built.value) {
      assert Outcome(db, newId, req, r, now, mailSent).1 == db[newId := built.value];
    } else {
      assert Outcome(db, newId, req, r, now, mailSent).1 == db;
    }
  }

  /** The user a registration stores is valid, unverified and accepting,
      with an empty inbox, a hashed password and a six-digit code that
      expires an hour from now. */
  lemma RegisteredUserShape(req: SignUpRequest, r: nat, now: Time)
    requires r < CodeSpan
    ensures var built := NewUser(Fields(req, VerifyCode(r), now));
            built.Ok? ==>
              var u := built.value;
              && UserValid(u)
              && u.username == Trim(req.username) && u.email == NormalizeEmail(req.email)
              && !u.isVerified && u.isAcceptingMessages && u.messages == []
              && u.password == Hash(req.password) && u.password != req.password
              && |u.verifyCode| == 6 && DigitsValue(u.verifyCode) == CodeBase + r
              && u.verifyCodeExpiry == now + CodeLifetime
  {
    NewUserValid(Fields(req, VerifyCode(r), now));
  }

  /** An unverified user already holding the username or the email makes
      the insert break a unique index: the handler answers 500 and the
      collection is left alone. */
  lemma UnverifiedHolderBreaksInsert(db: Db, newId: UserId, req: SignUpRequest, r: nat, now: Time, mailSent: bool, holder: UserId)
    requires newId !in db && r < CodeSpan
    requires holder in db && !db[holder].isVerified
    requires db[holder].username == Trim(req.username) || db[holder].email == NormalizeEmail(req.email)
    requires !Found(db, ByUsername(req.username), true) && !Found(db, ByEmail(req.email), true)
    ensures Outcome(db, newId, req, r, now, mailSent) == (Notice500(RegisterError), db)
  {
    var f := Fields(req, VerifyCode(r), now);
    NewUserValid(f);
    if NewUser(f).Ok? {
      assert Clashes(db, NewUser(f).value);
    }
  }

  /** Success is reported only when the mail went out; when it did not, the
      response is a 500 carrying the mail helper's message but the new user
      stays stored. */
  lemma MailFailureKeepsUser(db: Db, newId: UserId, req: SignUpRequest, r: nat, now: Time, mailSent: bool)
    requires newId !in db && r < CodeSpan
    ensures var (resp, db') := Outcome(db, newId, req, r, now, mailSent);
            && (resp.status == 200 <==> mailSent && newId in db')
            && (!mailSent && newId in db' ==> resp == Notice500(MailFailed))
  {
  }

  /** Registration keeps the collection valid. */
  lemma OutcomeKeepsValid(db: Db, newId: UserId, req: SignUpRequest, r: nat, now: Time, mailSent: bool)
    requires newId !in db && r < CodeSpan && StoreValid(db)
    ensures StoreValid(Outcome(db, newId, req, r, now, mailSent).1)
  {
    RegistrationInserts(db, newId, req, r, now, mailSent);
    var built := NewUser(Fields(req, VerifyCode(r), now));
    if newId in Outcome(db, newId, req, r, now, mailSent).1 {
      RegisteredUserShape(req, r, now);
      InsertKeepsValid(db, newId, built.value);
    }
  }
}
