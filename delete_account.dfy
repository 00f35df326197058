/**
  `DELETE /api/delete-account` (src/app/api/delete-account/route.ts): the
  signed-in user removes their own document.
*/
module DeleteAccountRoute {
  import opened Wrappers
  import opened UserModel
  import opened Store

  const NotAuthenticated := "Not authenticated"
  const UserNotFound := "User not found"
  const Deleted := "Account deleted successfully"

  /** The handler as a decision procedure: the response and the collection
      afterwards. */
  function Outcome(db: Db, session: Session): (Response, Db) {
    match session
    case None => (Response(401, Notice(false, NotAuthenticated)), db)
    case Some(id) =>
      if id !in db then (Response(404, Notice(false, UserNotFound)), db)
      else (Response(200, Notice(true, Deleted)), db - {id})
  }

  method Delete(store: UserStore, session: Session) returns (resp: Response)
    requires store.Valid()
    modifies store
    ensures store.Valid()
    ensures (resp, store.users) == Outcome(old(store.users), session)
  {
    if session.None? {
      return Response(401, Notice(false, NotAuthenticated));
    }
    var removed := store.Delete(session.value);
    if removed.None? {
      return Response(404, Notice(false, UserNotFound));
    }
    return Response(200, Notice(true, Deleted));
  }

  /** Without a session nothing changes; otherwise exactly the session
      user's document goes, every other one stays, and the answer is 200
      when there was one to remove and 404 when there was not. */
  lemma RemovesOnlySessionUser(db: Db, session: Session)
    ensures var (resp, db') := Outcome(db, session);
            && (session.None? ==> resp.status == 401 && db' == db)
            && (session.Some? ==>
                  && db'.Keys == db.Keys - {session.value}
                  && (forall id :: id in db' ==> db'[id] == db[id])
                  && (resp.status == 200 <==> session.value in db)
                  && (resp.status == 404 <==> session.value !in db))
  {
  }

  /** Deleting twice: success the first time, 404 the second. */
  lemma DeleteTwice(db: Db, id: UserId)
    requires id in db
    ensures Outcome(db, Some(id)).0 == Response(200, Notice(true, Deleted))
    ensures Outcome(Outcome(db, Some(id)).1, Some(id)).0 == Response(404, Notice(false, UserNotFound))
  {
  }
}
