/** Chats: creation, guarded access, messages and the private chat of two users. */
module ChatService {
  import opened Wrappers
  import opened Store
  import opened UserTypes

  /** A new chat has no messages and no participant list. */
  method CreateChat(db: Database, createdAt: int) returns (id: ObjectId, chat: ChatDoc)
    requires db.Valid()
    modifies db`chats, db`nextId
    ensures db.Valid()
    ensures id !in old(db.chats)
    ensures chat == ChatDoc([], createdAt, None)
    ensures db.chats == old(db.chats)[id := chat]
  {
    id := db.FreshId();
    chat := ChatDoc([], createdAt, None);
    db.chats := db.chats[id := chat];
  }

  function InvalidChatMessage(user: UserWithId, verb: string): string {
    "user " + user.username + " " + verb + " invalid chat id"
  }

  /** A chat restricts access exactly when it has a non-empty participant list. */
  predicate Admits(chat: ChatDoc, user: ObjectId) {
    !(chat.participants.Some? && |chat.participants.value| > 0 && user !in chat.participants.value)
  }

  /**
   * The chat with this id, if it exists and the user may see it: a chat
   * without participants admits anyone.
   */
  function ForceChatById(chats: map<ObjectId, ChatDoc>, chatId: IdArg, user: UserWithId): (r: Result<ChatDoc>)
    ensures r.Success? <==> chatId.Id? && chatId.oid in chats && Admits(chats[chatId.oid], user.id)
    ensures r.Success? ==> r.value == chats[chatId.oid]
    ensures (chatId.Malformed? || chatId.oid !in chats) ==> r == Failure(InvalidChatMessage(user, "accessed"))
    ensures chatId.Id? && chatId.oid in chats && !Admits(chats[chatId.oid], user.id) ==>
      r == Failure("user " + user.username + " tried to join DM they are not part of")
  {
    if chatId.Malformed? || chatId.oid !in chats then Failure(InvalidChatMessage(user, "accessed"))
    else
      var chat := chats[chatId.oid];
      if chat.participants.Some? && |chat.participants.value| > 0 && user.id !in chat.participants.value then
        Failure("user " + user.username + " tried to join DM they are not part of")
      else Success(chat)
  }

  /** A private chat admits both of its users and nobody else. */
  lemma PrivateChatAdmitsExactlyItsPair(chat: ChatDoc, a: ObjectId, b: ObjectId, u: ObjectId)
    requires chat.participants == Some(SortedPair(a, b))
    ensures Admits(chat, u) <==> u == a || u == b
  {
  }

  /** Appends the message id at the end of the chat's messages. */
  method AddMessageToChat(db: Database, chatId: IdArg, user: UserWithId, message: ObjectId) returns (r: Result<ChatDoc>)
    requires db.Valid()
    modifies db`chats
    ensures db.Valid()
    ensures (chatId.Malformed? || chatId.oid !in old(db.chats)) ==>
      r == Failure(InvalidChatMessage(user, "sent to")) && db.chats == old(db.chats)
    ensures chatId.Id? && chatId.oid in old(db.chats) ==>
      var c := chatId.oid;
      && db.chats == old(db.chats)[c := old(db.chats)[c].(messages := old(db.chats)[c].messages + [message])]
      && r == Success(db.chats[c])
  {
    if chatId.Malformed? || chatId.oid !in db.chats {
      return Failure(InvalidChatMessage(user, "sent to"));
    }
    var c := chatId.oid;
    db.chats := db.chats[c := db.chats[c].(messages := db.chats[c].messages + [message])];
    r := Success(db.chats[c]);
  }

  /**
   * `[a, b].sort()`: the default sort compares the ids' string forms, which
   * for fixed-width hexadecimal object ids is their numeric order.
   */
  function SortedPair(a: ObjectId, b: ObjectId): (pair: seq<ObjectId>)
    ensures |pair| == 2 && pair[0] <= pair[1]
    ensures multiset(pair) == multiset{a, b}
  {
    if a <= b then [a, b] else [b, a]
  }

  /** The pair does not depend on the order the two users are given in. */
  lemma {:induction false} SortedPairSymmetric(a: ObjectId, b: ObjectId)
    ensures SortedPair(a, b) == SortedPair(b, a)
  {
    var p, q := SortedPair(a, b), SortedPair(b, a);
    assert multiset(p) == multiset(q);
    assert p[0] in multiset(q) && p[1] in multiset(q);
  }

  /**
   * The chat whose participants are exactly the sorted pair, created (with no
   * messages) when there is none yet.
   */
  method GetOrCreatePrivateChat(db: Database, a: ObjectId, b: ObjectId, createdAt: int) returns (id: ObjectId, chat: ChatDoc)
    requires db.Valid()
    modifies db`chats, db`nextId
    ensures db.Valid()
    ensures id in db.chats && chat == db.chats[id] && chat.participants == Some(SortedPair(a, b))
    ensures id in old(db.chats) ==> db.chats == old(db.chats)
    ensures id !in old(db.chats) ==>
      && PairIndexAdmits(old(db.chats), SortedPair(a, b))
      && chat == ChatDoc([], createdAt, Some(SortedPair(a, b)))
      && db.chats == old(db.chats)[id := chat]
  {
    var pair := SortedPair(a, b);
    if c :| c in db.chats && db.chats[c].participants == Some(pair) {
      id := c;
    } else {
      id := db.FreshId();
      db.chats := db.chats[id := ChatDoc([], createdAt, Some(pair))];
    }
    chat := db.chats[id];
  }

  /** Asking for the chat of (a, b) and then of (b, a) yields one chat, created at most once. */
  method PrivateChatIsShared(db: Database, a: ObjectId, b: ObjectId, at1: int, at2: int) returns (id1: ObjectId, id2: ObjectId)
    requires db.Valid()
    modifies db`chats, db`nextId
    ensures db.Valid()
    ensures id1 == id2 && id1 in db.chats && db.chats[id1].participants == Some(SortedPair(a, b))
    ensures db.chats == old(db.chats) || (id1 !in old(db.chats) && db.chats == old(db.chats)[id1 := db.chats[id1]])
  {
    var chat1, chat2;
    id1, chat1 := GetOrCreatePrivateChat(db, a, b, at1);
    ghost var chats1 := db.chats;
    SortedPairSymmetric(a, b);
    id2, chat2 := GetOrCreatePrivateChat(db, b, a, at2);
    assert db.chats == chats1;
  }

  /**
   * Whether the unique index on `participants` (server/src/models/chat.model.ts)
   * lets a chat with this list be inserted. The field is an array, so MongoDB
   * builds a multikey index and enforces uniqueness per element: no other chat
   * with a participant list may contain any of the new participants.
   */
  predicate MultikeyIndexAdmits(chats: map<ObjectId, ChatDoc>, participants: seq<ObjectId>) {
    forall c, x :: c in chats && chats[c].participants.Some? && x in participants ==> x !in chats[c].participants.value
  }

  /**
   * Once user `a` has a private chat with `b`, the index as declared refuses
   * the private chat of `a` with anyone else, although no chat of that pair exists.
   */
  lemma MultikeyIndexRefusesSecondChat(chats: map<ObjectId, ChatDoc>, id: ObjectId, a: ObjectId, b: ObjectId, c: ObjectId)
    requires id in chats && chats[id].participants == Some(SortedPair(a, b))
    requires c != b
    ensures SortedPair(a, c) != SortedPair(a, b)
    ensures !MultikeyIndexAdmits(chats, SortedPair(a, c))
  {
    assert a in multiset(SortedPair(a, c)) && a in multiset(SortedPair(a, b));
    assert a in SortedPair(a, c) && a in chats[id].participants.value;
  }

  /**
   * Uniqueness of the whole pair, as a compound key would enforce it: no chat
   * already has exactly this participant list.
   */
  predicate PairIndexAdmits(chats: map<ObjectId, ChatDoc>, participants: seq<ObjectId>) {
    forall c :: c in chats ==> chats[c].participants != Some(participants)
  }
}
