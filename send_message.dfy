/**
  `POST /api/send-message` (src/app/api/send-message/route.ts): anyone may
  drop a message into the inbox of the user named in the request, as long
  as that user exists and accepts messages. The message records only its
  content and the time it was sent; nothing identifies the sender.
*/
module SendMessageRoute {
  import opened Wrappers
  import opened Text
  import opened UserModel
  import opened Store

  const UserNotFound := "User not found"
  const NotAccepting := "User is not accepting messages"
  const Sent := "Message sent successfully"
  const InternalError := "Internal server error"

  /** The sub-document pushed into the inbox: `{ content, createdAt: new
      Date() }`, cast through the Message schema. A request without
      `content` fails the schema's `required` check when the user is saved. */
  function PushedMessage(content: Option<string>, now: Time): Result<Message> {
    match content
    case None => Invalid(["Path `content` is required."])
    case Some(c) => NewMessage(MessageFields(c, None, Some(now)), now)
  }

  /** The handler as a decision procedure: the response and the collection
      afterwards. `content` is `None` when the request has no such field. */
  ghost function Outcome(db: Db, username: string, content: Option<string>, now: Time): (Response, Db) {
    if !Found(db, ByUsername(username), false) then (Response(404, Notice(false, UserNotFound)), db)
    else
      var id := TheMatch(db, ByUsername(username), false);
      var user := db[id];
      if !user.isAcceptingMessages then (Response(403, Notice(false, NotAccepting)), db)
      else
        match PushedMessage(content, now)
        case Invalid(_) => (Response(500, Notice(false, InternalError)), db)
        case Ok(m) => (Response(201, Notice(true, Sent)), db[id := user.(messages := user.messages + [m])])
  }

  method Post(store: UserStore, username: string, content: Option<string>, now: Time) returns (resp: Response)
    requires store.Valid()
    modifies store
    ensures store.Valid()
    ensures (resp, store.users) == Outcome(old(store.users), username, content, now)
  {
    var found := store.FindOne(ByUsername(username), false);
    if found.None? {
      return Response(404, Notice(false, UserNotFound));
    }
    var id := found.value;
    var user := store.users[id];
    if !user.isAcceptingMessages {
      return Response(403, Notice(false, NotAccepting));
    }
    var pushed := PushedMessage(content, now);
    if pushed.Invalid? {
      // `save()` throws a ValidationError, caught by the handler.
      return Response(500, Notice(false, InternalError));
    }
    PushedMessageValid(content, now);
    AppendKeepsUserValid(user, pushed.value);
    store.Replace(id, user.(messages := user.messages + [pushed.value]));
    return Response(201, Notice(true, Sent));
  }

  /** A pushed message is valid, unread, stamped `now` and holds the trimmed
      content; it is refused exactly when the content is absent or blank. */
  lemma PushedMessageValid(content: Option<string>, now: Time)
    ensures PushedMessage(content, now).Ok? <==> content.Some? && !IsBlank(content.value)
    ensures PushedMessage(content, now).Ok? ==>
              PushedMessage(content, now).value == Message(Trim(content.value), false, now)
              && MessageValid(PushedMessage(content, now).value)
  {
    if content.Some? {
      TrimEmptyIffBlank(content.value);
      TrimIdempotent(content.value);
    }
  }

  lemma AppendKeepsUserValid(u: User, m: Message)
    requires UserValid(u) && MessageValid(m)
    ensures UserValid(u.(messages := u.messages + [m]))
  {
  }

  /** An unknown recipient gets a 404 and one that does not accept messages
      a 403; neither changes the collection. */
  lemma RefusalsChangeNothing(db: Db, username: string, content: Option<string>, now: Time)
    ensures var (resp, db') := Outcome(db, username, content, now);
            && (!Found(db, ByUsername(username), false) ==> resp == Response(404, Notice(false, UserNotFound)))
            && (Found(db, ByUsername(username), false)
                && !db[TheMatch(db, ByUsername(username), false)].isAcceptingMessages ==>
                  resp == Response(403, Notice(false, NotAccepting)))
            && (resp.status != 201 ==> db' == db)
  {
  }

  /** A message is delivered exactly when the recipient exists, accepts
      messages and the content is not blank. Then the recipient's inbox
      grows by one message at its end, holding the trimmed content, unread
      and stamped `now`; every other field of the recipient and every other
      user stay as they were. */
  lemma DeliveryAppendsOne(db: Db, username: string, content: Option<string>, now: Time)
    ensures var (resp, db') := Outcome(db, username, content, now);
            && (resp.status == 201 <==>
                  && Found(db, ByUsername(username), false)
                  && db[TheMatch(db, ByUsername(username), false)].isAcceptingMessages
                  && content.Some? && !IsBlank(content.value))
            && (resp.status == 201 ==>
                  var id := TheMatch(db, ByUsername(username), false);
                  && db'.Keys == db.Keys
                  && db'[id] == db[id].(messages := db[id].messages + [Message(Trim(content.value), false, now)])
                  && forall other :: other in db && other != id ==> db'[other] == db[other])
  {
    PushedMessageValid(content, now);
  }

  /** Delivering a message keeps the collection valid. */
  lemma OutcomeKeepsValid(db: Db, username: string, content: Option<string>, now: Time)
    requires StoreValid(db)
    ensures StoreValid(Outcome(db, username, content, now).1)
  {
    PushedMessageValid(content, now);
    if Found(db, ByUsername(username), false) {
      var id := TheMatch(db, ByUsername(username), false);
      var user := db[id];
      if user.isAcceptingMessages && PushedMessage(content, now).Ok? {
        AppendKeepsUserValid(user, PushedMessage(content, now).value);
        ReplaceKeepsValid(db, id, user.(messages := user.messages + [PushedMessage(content, now).value]));
      }
    }
  }
}
