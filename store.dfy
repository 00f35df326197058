/**
  The `User` collection as the route handlers see it: documents keyed by id,
  the two unique indexes (`username`, `email`) and the handful of Mongoose
  calls the handlers make (`findOne`, `findById`, `save` of a new document,
  `save` of a changed one, `findByIdAndUpdate`, `findByIdAndDelete`).
*/
module Store {
  import opened Wrappers
  import opened Text
  import opened UserModel

  type UserId = nat

  /** The collection: every stored document under its `_id`. */
  type Db = map<UserId, User>

  /** The session the handlers read with `getServerSession`: the signed-in
      user's id, or `None` when there is no session. */
  type Session = Option<UserId>

  /** The JSON bodies the handlers answer with. */
  datatype Body =
    | Notice(success: bool, message: string)
    | AcceptanceUpdated(message: string, accepting: bool)
    | AcceptanceStatus(accepting: bool)
    | Inbox(messages: seq<Message>)

  datatype Response = Response(status: nat, body: Body)

  /** A `findOne` filter on one indexed path. The schema's setters are
      applied to the filter value before it is compared, as Mongoose casts
      query values through the path's setters. */
  datatype Query = ByUsername(username: string) | ByEmail(email: string)

  /** Whether `u` matches the filter `q`, with `isVerified: true` added
      to the filter when `verifiedOnly` holds. */
  predicate Matches(u: User, q: Query, verifiedOnly: bool) {
    && (verifiedOnly ==> u.isVerified)
    && match q
       case ByUsername(name) => u.username == Trim(name)
       case ByEmail(email) => u.email == NormalizeEmail(email)
  }

  predicate Found(db: Db, q: Query, verifiedOnly: bool) {
    exists id :: id in db && Matches(db[id], q, verifiedOnly)
  }

  /** The unique indexes on `username` and `email`. */
  predicate Unique(db: Db) {
    forall a, b :: a in db && b in db && a != b ==>
      db[a].username != db[b].username && db[a].email != db[b].email
  }

  /** What the schema and its indexes guarantee of the whole collection. */
  predicate StoreValid(db: Db) {
    Unique(db) && forall id :: id in db ==> UserValid(db[id])
  }

  /** Inserting `u` would break a unique index (MongoDB error E11000). */
  predicate Clashes(db: Db, u: User) {
    exists id :: id in db && (db[id].username == u.username || db[id].email == u.email)
  }

  /** A filter on a unique path matches at most one document. */
  lemma AtMostOneMatch(db: Db, q: Query, verifiedOnly: bool, a: UserId, b: UserId)
    requires Unique(db)
    requires a in db && Matches(db[a], q, verifiedOnly)
    requires b in db && Matches(db[b], q, verifiedOnly)
    ensures a == b
  {
  }

  /** The document `findOne(q)` returns when one matches; the unique
      indexes make it the only one. */
  ghost function TheMatch(db: Db, q: Query, verifiedOnly: bool): (id: UserId)
    requires Found(db, q, verifiedOnly)
    ensures id in db && Matches(db[id], q, verifiedOnly)
  {
    var id :| id in db && Matches(db[id], q, verifiedOnly); id
  }

  /** Inserting a valid user that clashes with no stored one keeps the
      collection valid. */
  lemma InsertKeepsValid(db: Db, id: UserId, u: User)
    requires StoreValid(db) && UserValid(u) && !Clashes(db, u) && id !in db
    ensures StoreValid(db[id := u])
  {
  }

  /** Replacing a document by one with the same indexed values keeps the
      collection valid when the new document is valid. */
  lemma ReplaceKeepsValid(db: Db, id: UserId, u: User)
    requires StoreValid(db) && id in db && UserValid(u)
    requires u.username == db[id].username && u.email == db[id].email
    ensures StoreValid(db[id := u])
  {
  }

  /** Removing a document keeps the collection valid. */
  lemma RemoveKeepsValid(db: Db, id: UserId)
    requires StoreValid(db)
    ensures StoreValid(db - {id})
  {
  }

  /** The connected collection. `nextId` stands for the ObjectId the driver
      mints for a new document: it is larger than every stored id. */
  class UserStore {
    var users: Db
    var nextId: UserId

    ghost predicate Valid()
      reads this
    {
      StoreValid(users) && forall id :: id in users ==> id < nextId
    }

    constructor ()
      ensures Valid() && users == map[]
    {
      users := map[];
      nextId := 0;
    }

    /** `UserModel.findOne(filter)`. */
    method FindOne(q: Query, verifiedOnly: bool) returns (found: Option<UserId>)
      requires Valid()
      ensures found.Some? <==> Found(users, q, verifiedOnly)
      ensures found.Some? ==> found.value in users && Matches(users[found.value], q, verifiedOnly)
      ensures forall id :: id in users && Matches(users[id], q, verifiedOnly) ==> found == Some(id)
    {
      if exists id :: id in users && Matches(users[id], q, verifiedOnly) {
        var id :| id in users && Matches(users[id], q, verifiedOnly);
        found := Some(id);
      } else {
        found := None;
      }
    }

    /** `UserModel.findById(id)`. */
    method FindById(id: UserId) returns (found: Option<User>)
      ensures found.Some? <==> id in users
      ensures found.Some? ==> found.value == users[id]
    {
      found := if id in users then Some(users[id]) else None;
    }

    /** `save()` of a new document that passed validation: refused with a
        duplicate-key error when it clashes with a stored document,
        otherwise stored under a fresh id. */
    method Insert(u: User) returns (id: Option<UserId>)
      requires Valid() && UserValid(u)
      modifies this
      ensures Valid()
      ensures id.None? <==> Clashes(old(users), u)
      ensures id.None? ==> users == old(users)
      ensures id.Some? ==> id.value !in old(users) && id.value == old(nextId) && users == old(users)[id.value := u]
    {
      if exists k :: k in users && (users[k].username == u.username || users[k].email == u.email) {
        id := None;
      } else {
        InsertKeepsValid(users, nextId, u);
        users := users[nextId := u];
        id := Some(nextId);
        nextId := nextId + 1;
      }
    }

    /** `save()` of a stored document whose indexed paths did not change. */
    method Replace(id: UserId, u: User)
      requires Valid() && id in users && UserValid(u)
      requires u.username == users[id].username && u.email == users[id].email
      modifies this
      ensures Valid() && nextId == old(nextId)
      ensures users == old(users)[id := u]
    {
      ReplaceKeepsValid(users, id, u);
      users := users[id := u];
    }

    /** `findByIdAndUpdate(id, { isAcceptingMessages: v }, { new: true })`. */
    method SetAccepting(id: UserId, v: bool) returns (updated: Option<User>)
      requires Valid()
      modifies this
      ensures Valid() && nextId == old(nextId)
      ensures updated.Some? <==> id in old(users)
      ensures updated.None? ==> users == old(users)
      ensures updated.Some? ==> updated.value == old(users)[id].(isAcceptingMessages := v)
                                && users == old(users)[id := updated.value]
    {
      if id in users {
        var u := users[id].(isAcceptingMessages := v);
        ReplaceKeepsValid(users, id, u);
        users := users[id := u];
        updated := Some(u);
      } else {
        updated := None;
      }
    }

    /** `findByIdAndDelete(id)`. */
    method Delete(id: UserId) returns (removed: Option<User>)
      requires Valid()
      modifies this
      ensures Valid() && nextId == old(nextId)
      ensures removed.Some? <==> id in old(users)
      ensures removed.Some? ==> removed.value == old(users)[id]
      ensures users == old(users) - {id}
      ensures removed.None? ==> users == old(users)
    {
      removed := if id in users then Some(users[id]) else None;
      RemoveKeepsValid(users, id);
      if id !in users {
        assert users - {id} == users;
      }
      users := users - {id};
    }
  }
}
