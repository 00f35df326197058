/**
  `GET /api/get-messages` (src/app/api/get-messages/route.ts): the signed-in
  user's inbox, newest first. JavaScript's `Array.prototype.sort` is stable,
  so messages sent at the same instant keep their stored order; the sorted
  array is returned without being saved.
*/
module GetMessagesRoute {
  import opened Wrappers
  import opened UserModel
  import opened Store

  const NotAuthenticated := "Not authenticated"
  const UserNotFound := "User not found"

  /** No message is older than one after it. */
  predicate NewestFirst(s: seq<Message>) {
    forall i, j :: 0 <= i < j < |s| ==> s[i].createdAt >= s[j].createdAt
  }

  /** The messages of `s` sent at time `t`, in their order in `s`. */
  function SentAt(s: seq<Message>, t: Time): seq<Message> {
    if s == [] then []
    else (if s[0].createdAt == t then [s[0]] else []) + SentAt(s[1..], t)
  }

  /** `m` placed in front of the first message of `s` that is not newer. */
  function Place(m: Message, s: seq<Message>): seq<Message> {
    if s == [] || s[0].createdAt <= m.createdAt then [m] + s
    else [s[0]] + Place(m, s[1..])
  }

  /** `messages.sort((a, b) => b.createdAt - a.createdAt)`: a stable sort
      by sending time, newest first. */
  function SortNewestFirst(s: seq<Message>): seq<Message> {
    if s == [] then [] else Place(s[0], SortNewestFirst(s[1..]))
  }

  /** Placing a message no newer than `b` among messages no newer than `b`
      gives messages no newer than `b`. */
  lemma {:induction false} PlaceBounded(m: Message, s: seq<Message>, b: Time)
    requires m.createdAt <= b && forall k :: 0 <= k < |s| ==> s[k].createdAt <= b
    ensures forall k :: 0 <= k < |Place(m, s)| ==> Place(m, s)[k].createdAt <= b
  {
    if s != [] && s[0].createdAt > m.createdAt {
      PlaceBounded(m, s[1..], b);
    }
  }

  /** Placing a message into a list sorted newest first keeps it sorted. */
  lemma {:induction false} PlaceKeepsOrder(m: Message, s: seq<Message>)
    requires NewestFirst(s)
    ensures NewestFirst(Place(m, s))
  {
    if s != [] && s[0].createdAt > m.createdAt {
      PlaceKeepsOrder(m, s[1..]);
      PlaceBounded(m, s[1..], s[0].createdAt);
    }
  }

  /** Placing a message adds it and loses nothing. */
  lemma {:induction false} PlacePermutes(m: Message, s: seq<Message>)
    ensures multiset(Place(m, s)) == multiset(s) + multiset{m}
  {
    if s != [] && s[0].createdAt > m.createdAt {
      PlacePermutes(m, s[1..]);
      assert s == [s[0]] + s[1..];
    }
  }

  lemma {:induction false} SentAtAppend(x: seq<Message>, y: seq<Message>, t: Time)
    ensures SentAt(x + y, t) == SentAt(x, t) + SentAt(y, t)
  {
    if x != [] {
      assert (x + y)[1..] == x[1..] + y;
      SentAtAppend(x[1..], y, t);
    } else {
      assert x + y == y;
    }
  }

  /** Placing `m` puts it in front of every message of `s` sent at the same
      time, and moves no other message. */
  lemma {:induction false} PlaceStable(m: Message, s: seq<Message>, t: Time)
    ensures SentAt(Place(m, s), t) == SentAt([m], t) + SentAt(s, t)
  {
    SentAtAppend([m], s, t);
    if s != [] && s[0].createdAt > m.createdAt {
      PlaceStable(m, s[1..], t);
      SentAtAppend([s[0]], Place(m, s[1..]), t);
      SentAtAppend([s[0]], s[1..], t);
      assert s == [s[0]] + s[1..];
      if m.createdAt == t {
        assert SentAt([s[0]], t) == [];
      }
    }
  }

  /** The listing is sorted newest first, holds exactly the stored messages,
      and keeps the stored order among messages sent at the same time. */
  lemma {:induction false} SortNewestFirstCorrect(s: seq<Message>)
    ensures NewestFirst(SortNewestFirst(s))
    ensures multiset(SortNewestFirst(s)) == multiset(s)
    ensures forall t :: SentAt(SortNewestFirst(s), t) == SentAt(s, t)
  {
    if s != [] {
      SortNewestFirstCorrect(s[1..]);
      PlaceKeepsOrder(s[0], SortNewestFirst(s[1..]));
      PlacePermutes(s[0], SortNewestFirst(s[1..]));
      assert s == [s[0]] + s[1..];
      forall t ensures SentAt(SortNewestFirst(s), t) == SentAt(s, t) {
        PlaceStable(s[0], SortNewestFirst(s[1..]), t);
        SentAtAppend([s[0]], s[1..], t);
      }
    }
  }

  /** The handler's response; the collection is only read. */
  function Outcome(db: Db, session: Session): Response {
    match session
    case None => Response(401, Notice(false, NotAuthenticated))
    case Some(id) =>
      if id !in db then Response(404, Notice(false, UserNotFound))
      else Response(200, Inbox(SortNewestFirst(db[id].messages)))
  }

  method Get(store: UserStore, session: Session) returns (resp: Response)
    ensures resp == Outcome(store.users, session)
  {
    if session.None? {
      return Response(401, Notice(false, NotAuthenticated));
    }
    var found := store.FindById(session.value);
    if found.None? {
      return Response(404, Notice(false, UserNotFound));
    }
    return Response(200, Inbox(SortNewestFirst(found.value.messages)));
  }

  /** Without a session the answer is 401; for a session naming no stored
      user it is 404; otherwise it is the session user's whole inbox, newest
      first, in stable order. */
  lemma ListingIsSortedInbox(db: Db, session: Session)
    ensures session.None? <==> Outcome(db, session).status == 401
    ensures session.Some? && session.value !in db <==> Outcome(db, session).status == 404
    ensures Outcome(db, session).status == 200 ==>
              var stored := db[session.value].messages;
              var listed := Outcome(db, session).body.messages;
              && NewestFirst(listed)
              && multiset(listed) == multiset(stored)
              && forall t :: SentAt(listed, t) == SentAt(stored, t)
  {
    if session.Some? && session.value in db {
      SortNewestFirstCorrect(db[session.value].messages);
    }
  }
}
