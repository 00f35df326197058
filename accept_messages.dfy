/**
  `POST` and `GET /api/accept-messages` (src/app/api/accept-messages/route.ts):
  the signed-in user switches whether they accept messages, or reads the
  switch.
*/
module AcceptMessagesRoute {
  import opened Wrappers
  import opened UserModel
  import opened Store

  const NotAuthenticated := "Not authenticated"
  const UpdateMissing := "Unable to find user to update message acceptance status"
  const Updated := "Message acceptance status updated successfully"
  const UserNotFound := "User not found"

  /** `POST`: the response and the collection afterwards. */
  function PostOutcome(db: Db, session: Session, accept: bool): (Response, Db) {
    match session
    case None => (Response(401, Notice(false, NotAuthenticated)), db)
    case Some(id) =>
      if id !in db then (Response(404, Notice(false, UpdateMissing)), db)
      else
        var u := db[id].(isAcceptingMessages := accept);
        (Response(200, AcceptanceUpdated(Updated, u.isAcceptingMessages)), db[id := u])
  }

  /** `GET`: the response; the collection is only read. */
  function GetOutcome(db: Db, session: Session): Response {
    match session
    case None => Response(401, Notice(false, NotAuthenticated))
    case Some(id) =>
      if id !in db then Response(404, Notice(false, UserNotFound))
      else Response(200, AcceptanceStatus(db[id].isAcceptingMessages))
  }

  method Post(store: UserStore, session: Session, accept: bool) returns (resp: Response)
    requires store.Valid()
    modifies store
    ensures store.Valid()
    ensures (resp, store.users) == PostOutcome(old(store.users), session, accept)
  {
    if session.None? {
      return Response(401, Notice(false, NotAuthenticated));
    }
    var updated := store.SetAccepting(session.value, accept);
    if updated.None? {
      return Response(404, Notice(false, UpdateMissing));
    }
    return Response(200, AcceptanceUpdated(Updated, updated.value.isAcceptingMessages));
  }

  method Get(store: UserStore, session: Session) returns (resp: Response)
    ensures resp == GetOutcome(store.users, session)
  {
    if session.None? {
      return Response(401, Notice(false, NotAuthenticated));
    }
    var found := store.FindById(session.value);
    if found.None? {
      return Response(404, Notice(false, UserNotFound));
    }
    return Response(200, AcceptanceStatus(found.value.isAcceptingMessages));
  }

  /** Without a session both handlers answer 401 and nothing changes; a
      session naming no stored user gets a 404 and nothing changes. */
  lemma RefusalsChangeNothing(db: Db, session: Session, accept: bool)
    ensures session.None? ==> PostOutcome(db, session, accept) == (Response(401, Notice(false, NotAuthenticated)), db)
                              && GetOutcome(db, session).status == 401
    ensures session.Some? && session.value !in db ==>
              PostOutcome(db, session, accept).0.status == 404 && PostOutcome(db, session, accept).1 == db
              && GetOutcome(db, session).status == 404
  {
  }

  /** `POST` sets the flag of the session's user to the requested value,
      answers with that value, and touches no other field and no other user;
      a `GET` afterwards reads the value back. */
  lemma PostSetsFlag(db: Db, id: UserId, accept: bool)
    requires id in db
    ensures var (resp, db') := PostOutcome(db, Some(id), accept);
            && resp.status == 200 && resp.body.accepting == accept
            && db'.Keys == db.Keys
            && db'[id] == db[id].(isAcceptingMessages := accept)
            && (forall other :: other in db && other != id ==> db'[other] == db[other])
            && GetOutcome(db', Some(id)) == Response(200, AcceptanceStatus(accept))
  {
  }

  /** Repeating a `POST` with the same value changes nothing further and
      gives the same response. */
  lemma PostIdempotent(db: Db, session: Session, accept: bool)
    ensures var (resp, db') := PostOutcome(db, session, accept);
            PostOutcome(db', session, accept) == (resp, db')
  {
    if session.Some? && session.value in db {
      var db' := PostOutcome(db, session, accept).1;
      var u := db[session.value].(isAcceptingMessages := accept);
      assert db'[session.value] == u;
      assert db'[session.value := u] == db';
    }
  }

  /** Switching the flag keeps the collection valid. */
  lemma PostKeepsValid(db: Db, session: Session, accept: bool)
    requires StoreValid(db)
    ensures StoreValid(PostOutcome(db, session, accept).1)
  {
    if session.Some? && session.value in db {
      ReplaceKeepsValid(db, session.value, db[session.value].(isAcceptingMessages := accept));
    }
  }
}
