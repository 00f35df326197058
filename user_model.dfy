/**
  The records of the document store (src/model/User.model.ts): a Message
  sub-document and a User document, built the way Mongoose builds them —
  setters (`trim`, `lowercase`) first, then defaults, then the validators
  of each path in schema order.
*/
module UserModel {
  import opened Wrappers
  import opened Text

  /** Milliseconds since the epoch, as `Date.now()` returns them. */
  type Time = nat

  datatype Message = Message(content: string, isRead: bool, createdAt: Time)

  datatype User = User(
    username: string,
    email: string,
    password: string,
    verifyCode: string,
    verifyCodeExpiry: Time,
    isVerified: bool,
    isAcceptingMessages: bool,
    messages: seq<Message>)

  /** The fields a caller passes when creating a Message; `None` stands for
      a field the caller leaves out. */
  datatype MessageFields = MessageFields(content: string, isRead: Option<bool>, createdAt: Option<Time>)

  /** A Message document built from `f` at time `now`: `content` is trimmed
      and required, `isRead` defaults to false and `createdAt` to `now`. */
  function NewMessage(f: MessageFields, now: Time): Result<Message> {
    var content := Trim(f.content);
    if content == [] then Invalid(["Path `content` is required."])
    else Ok(Message(content, f.isRead.GetOr(false), f.createdAt.GetOr(now)))
  }

  /** A stored message: its content is trimmed and not empty. */
  predicate MessageValid(m: Message) {
    m.content != [] && IsTrimmed(m.content)
  }

  /** A message created without `isRead` and `createdAt` is unread and
      stamped with the current time; one that is created is valid. */
  lemma MessageDefaults(content: string, now: Time)
    ensures var r := NewMessage(MessageFields(content, None, None), now);
            r.Ok? ==> r.value.isRead == false && r.value.createdAt == now && MessageValid(r.value)
  {
    TrimIdempotent(content);
  }

  /** Content is required after trimming: a message is refused exactly when
      its content is blank. */
  lemma MessageContentRequired(f: MessageFields, now: Time)
    ensures NewMessage(f, now).Invalid? <==> IsBlank(f.content)
  {
    TrimEmptyIffBlank(f.content);
  }

  // ---------------------------------------------------------------- email

  /** `[^\s@]+` */
  predicate Atom(s: string) {
    |s| > 0 && forall k :: 0 <= k < |s| ==> !IsSpace(s[k]) && s[k] != '@'
  }

  /** `s` read as `local@domain.tld` with the `@` at `i` and the `.` at `j`. */
  ghost predicate EmailSplitAt(s: string, i: int, j: int) {
    0 <= i < j < |s| && s[i] == '@' && s[j] == '.'
    && Atom(s[..i]) && Atom(s[i + 1..j]) && Atom(s[j + 1..])
  }

  /** The whole string matches `/^[^\s@]+@[^\s@]+\.[^\s@]+$/`. */
  ghost predicate MatchesEmailPattern(s: string) {
    exists i, j :: EmailSplitAt(s, i, j)
  }

  function IndexOf(s: string, c: char): (r: nat)
    requires c in s
    ensures r < |s| && s[r] == c && c !in s[..r]
  {
    if s[0] == c then 0 else 1 + IndexOf(s[1..], c)
  }

  /** The shape check the email validator performs, as a scan: no
      whitespace, exactly one `@` and not in front, and a `.` after the `@`
      that is neither right after it nor the last character. */
  predicate IsEmailShape(s: string) {
    && (forall k :: 0 <= k < |s| ==> !IsSpace(s[k]))
    && '@' in s
    && var i := IndexOf(s, '@');
       && 0 < i
       && '@' !in s[i + 1..]
       && exists j :: i + 1 < j < |s| - 1 && s[j] == '.'
  }

  /** The scan accepts exactly the strings the regular expression matches. */
  lemma EmailShapeMatchesPattern(s: string)
    ensures IsEmailShape(s) <==> MatchesEmailPattern(s)
  {
    if IsEmailShape(s) {
      var i := IndexOf(s, '@');
      var j :| i + 1 < j < |s| - 1 && s[j] == '.';
      assert s[i + 1..j] == s[i + 1..][..j - i - 1];
      assert s[j + 1..] == s[i + 1..][j - i..];
      assert EmailSplitAt(s, i, j);
    }
    if MatchesEmailPattern(s) {
      var i, j :| EmailSplitAt(s, i, j);
      forall k | 0 <= k < |s| ensures !IsSpace(s[k]) && (k != i ==> s[k] != '@') {
        if k < i {
          assert s[k] == s[..i][k];
        } else if i < k < j {
          assert s[k] == s[i + 1..j][k - i - 1];
        } else if j < k {
          assert s[k] == s[j + 1..][k - j - 1];
        }
      }
      assert IndexOf(s, '@') == i;
      var d := s[i + 1..];
      forall k | 0 <= k < |d| ensures d[k] != '@' {
        assert d[k] == s[i + 1 + k];
      }
    }
  }

  lemma LowerIdempotent(s: string)
    ensures Lower(Lower(s)) == Lower(s)
  {
    assert forall k :: 0 <= k < |s| ==> LowerChar(LowerChar(s[k])) == LowerChar(s[k]);
  }

  /** What the `email` path stores: trimmed, then lower-cased. Queries on
      `email` are cast the same way. */
  function NormalizeEmail(email: string): string {
    Lower(Trim(email))
  }

  /** No ASCII capital letter occurs in `s`. */
  predicate NoCapitals(s: string) {
    forall k :: 0 <= k < |s| ==> !('A' <= s[k] <= 'Z')
  }

  /** A normalised email is trimmed and has no capitals; one that is both
      is its own normal form. */
  lemma NormalizeEmailNormal(email: string)
    ensures IsTrimmed(NormalizeEmail(email)) && NoCapitals(NormalizeEmail(email))
  {
    TrimIdempotent(email);
  }

  lemma NormalEmailUnchanged(email: string)
    requires IsTrimmed(email) && NoCapitals(email)
    ensures NormalizeEmail(email) == email
  {
    TrimmedUnchanged(email);
  }

  /** Normalising is idempotent, so a stored email queried by its own value
      is found. */
  lemma NormalizeEmailIdempotent(email: string)
    ensures NormalizeEmail(NormalizeEmail(email)) == NormalizeEmail(email)
  {
    var t := Trim(email);
    calc {
      NormalizeEmail(NormalizeEmail(email));
      Lower(Trim(Lower(t)));
      { LowerTrimCommute(t); }
      Lower(Lower(Trim(t)));
      { TrimIdempotent(email); }
      Lower(Lower(t));
      { LowerIdempotent(t); }
      Lower(t);
    }
  }

  // ------------------------------------------------------------- password

  const MinPasswordLength := 6

  /** Prefix of the model's stand-in for a bcrypt hash (cost 10). */
  const HashTag := "$2a$10$"

  /** A stand-in for `bcrypt.hash(password, 10)`: injective, never the
      plaintext itself, and always longer than the schema's minimum. */
  function Hash(password: string): (h: string)
    ensures h != password && |h| > MinPasswordLength
  {
    HashTag + password
  }

  lemma HashInjective(p: string, q: string)
    ensures Hash(p) == Hash(q) ==> p == q
  {
    if Hash(p) == Hash(q) {
      assert p == Hash(p)[|HashTag|..];
      assert q == Hash(q)[|HashTag|..];
    }
  }

  // ------------------------------------------------------------------ user

  /** The fields a caller passes when creating a User, before setters,
      defaults and validation. The inbox of a new user is empty. */
  datatype UserFields = UserFields(
    username: string,
    email: string,
    password: string,
    verifyCode: string,
    verifyCodeExpiry: Option<Time>,
    isVerified: Option<bool>,
    isAcceptingMessages: Option<bool>)

  /** The message of the first failing validator of each path (`required`
      first, then `match` or `minlength`); empty when the path is valid. */
  function UsernameErrors(username: string): seq<string> {
    if username == [] then ["Username is required"] else []
  }

  function EmailErrors(email: string): seq<string> {
    if email == [] then ["Email is required"]
    else if !IsEmailShape(email) then ["Please use a valid email address"]
    else []
  }

  function PasswordErrors(password: string): seq<string> {
    if password == [] then ["Password is required"]
    else if |password| < MinPasswordLength then ["Password must be at least 6 characters long"]
    else []
  }

  function VerifyCodeErrors(verifyCode: string, expiry: Option<Time>): seq<string> {
    (if verifyCode == [] then ["Verify Code is required"] else [])
    + (if expiry.None? then ["Path `verifyCodeExpiry` is required."] else [])
  }

  /** `new UserModel(f)` followed by validation. */
  function NewUser(f: UserFields): Result<User> {
    var username := Trim(f.username);
    var email := NormalizeEmail(f.email);
    var errors := UsernameErrors(username) + EmailErrors(email) + PasswordErrors(f.password)
                  + VerifyCodeErrors(f.verifyCode, f.verifyCodeExpiry);
    if errors != [] then Invalid(errors)
    else Ok(User(username, email, f.password, f.verifyCode, f.verifyCodeExpiry.value,
                 f.isVerified.GetOr(false), f.isAcceptingMessages.GetOr(true), []))
  }

  /** Everything the schema demands of a stored user. */
  predicate UserValid(u: User) {
    && u.username != [] && IsTrimmed(u.username)
    && u.email != [] && IsTrimmed(u.email) && NoCapitals(u.email) && IsEmailShape(u.email)
    && |u.password| >= MinPasswordLength
    && u.verifyCode != []
    && forall k :: 0 <= k < |u.messages| ==> MessageValid(u.messages[k])
  }

  /** A user that passes validation satisfies the schema, and is unverified
      and accepting messages unless told otherwise. */
  lemma NewUserValid(f: UserFields)
    ensures var r := NewUser(f);
            r.Ok? ==> && UserValid(r.value)
                      && r.value.username == Trim(f.username)
                      && r.value.email == NormalizeEmail(f.email)
                      && (f.isVerified.None? ==> !r.value.isVerified)
                      && (f.isAcceptingMessages.None? ==> r.value.isAcceptingMessages)
  {
    TrimIdempotent(f.username);
    NormalizeEmailNormal(f.email);
  }

  /** Creation succeeds exactly when the trimmed username is not blank, the
      normalised email has the shape the pattern demands, the password has
      at least six characters, a code is given and an expiry is given. */
  lemma NewUserAcceptsExactly(f: UserFields)
    ensures NewUser(f).Ok? <==>
              && !IsBlank(f.username)
              && MatchesEmailPattern(NormalizeEmail(f.email))
              && |f.password| >= MinPasswordLength
              && f.verifyCode != []
              && f.verifyCodeExpiry.Some?
  {
    TrimEmptyIffBlank(f.username);
    EmailShapeMatchesPattern(NormalizeEmail(f.email));
    var e := NormalizeEmail(f.email);
    if e == [] {
      assert !MatchesEmailPattern(e);
    }
  }

  /** A non-empty password shorter than six characters is refused with the
      schema's message. */
  lemma ShortPasswordRefused(f: UserFields)
    requires 0 < |f.password| < MinPasswordLength
    ensures NewUser(f).Invalid?
    ensures "Password must be at least 6 characters long" in NewUser(f).errors
  {
    var u := UsernameErrors(Trim(f.username)) + EmailErrors(NormalizeEmail(f.email));
    var c := VerifyCodeErrors(f.verifyCode, f.verifyCodeExpiry);
    assert NewUser(f).errors == u + ["Password must be at least 6 characters long"] + c;
  }
}
