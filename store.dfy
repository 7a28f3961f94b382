/**
 * The document store behind the forum services, as an in-memory database:
 * one table per collection and a counter that issues fresh object ids.
 */
module Store {
  import opened Wrappers
  import opened UserTypes
  import opened VoteTypes

  /** A database object id. */
  type ObjectId = nat

  /**
   * An id as it arrives in a request: either a string that passes the
   * object-id validity check, standing for that id, or one that does not.
   */
  datatype IdArg = Id(oid: ObjectId) | Malformed

  datatype UserDoc = UserDoc(id: ObjectId, username: string, display: string, password: string, createdAt: int)

  datatype ThreadDoc = ThreadDoc(
    title: string, text: string, createdAt: int, createdBy: ObjectId,
    comments: seq<ObjectId>, votes: seq<ObjectId>)

  datatype CommentDoc = CommentDoc(text: string, createdBy: ObjectId, createdAt: int, votes: seq<ObjectId>)

  datatype VoteDoc = VoteDoc(
    id: ObjectId, vote: bool, itemType: ItemType, itemId: ObjectId, createdBy: ObjectId, createdAt: int)

  /** A chat; only private chats have a participant list. */
  datatype ChatDoc = ChatDoc(messages: seq<ObjectId>, createdAt: int, participants: Option<seq<ObjectId>>)

  /** The authenticated caller as the services see them. */
  datatype UserWithId = UserWithId(id: ObjectId, username: string)

  class Database {
    var users: map<string, UserDoc>          // keyed by the unique username
    var threads: map<ObjectId, ThreadDoc>
    var comments: map<ObjectId, CommentDoc>
    var votes: seq<VoteDoc>                  // in insertion order: the order `findOne` scans
    var chats: map<ObjectId, ChatDoc>
    var nextId: ObjectId

    /**
     * Every id in use was issued before `nextId`; a user is stored under its
     * own username; no two chats have the same participant list, the
     * uniqueness the private chats rely on.
     */
    ghost predicate Valid()
      reads this
    {
      && (forall u :: u in users ==> users[u].id < nextId && users[u].username == u)
      && (forall t :: t in threads ==>
            t < nextId && IdsBelow(threads[t].comments, nextId) && IdsBelow(threads[t].votes, nextId))
      && (forall c :: c in comments ==> c < nextId && IdsBelow(comments[c].votes, nextId))
      && (forall i :: 0 <= i < |votes| ==> votes[i].id < nextId)
      && (forall c :: c in chats ==> c < nextId)
      && ParticipantsUnique(chats)
    }

    constructor ()
      ensures Valid()
      ensures users == map[] && threads == map[] && comments == map[] && votes == [] && chats == map[]
    {
      users, threads, comments, votes, chats := map[], map[], map[], [], map[];
      nextId := 0;
    }

    /** Issues an id that no stored document uses. */
    method FreshId() returns (id: ObjectId)
      requires Valid()
      modifies this`nextId
      ensures Valid()
      ensures id == old(nextId) && nextId == id + 1
    {
      id := nextId;
      nextId := nextId + 1;
    }
  }

  predicate IdsBelow(ids: seq<ObjectId>, bound: ObjectId) {
    forall x :: x in ids ==> x < bound
  }

  /** At most one chat has any given participant list. */
  ghost predicate ParticipantsUnique(chats: map<ObjectId, ChatDoc>) {
    forall c1, c2 ::
      (c1 in chats && c2 in chats && chats[c1].participants.Some? &&
       chats[c1].participants == chats[c2].participants) ==> c1 == c2
  }

  /** The vote stored for (user, item type, item), in the first position `findOne` would meet it. */
  function FindVote(votes: seq<VoteDoc>, user: ObjectId, itemType: ItemType, itemId: ObjectId): (r: Option<nat>)
    ensures r.Some? ==> r.value < |votes| && VoteMatches(votes[r.value], user, itemType, itemId)
    ensures r.Some? ==> forall j :: 0 <= j < r.value ==> !VoteMatches(votes[j], user, itemType, itemId)
    ensures r.None? <==> forall j :: 0 <= j < |votes| ==> !VoteMatches(votes[j], user, itemType, itemId)
    decreases |votes|
  {
    if votes == [] then None
    else if VoteMatches(votes[0], user, itemType, itemId) then Some(0)
    else
      match FindVote(votes[1..], user, itemType, itemId)
      case None => None
      case Some(k) => Some(k + 1)
  }

  predicate VoteMatches(v: VoteDoc, user: ObjectId, itemType: ItemType, itemId: ObjectId) {
    v.createdBy == user && v.itemType == itemType && v.itemId == itemId
  }

  /** The table without its i-th row, the rest in order. */
  function RemoveAt<T>(s: seq<T>, i: nat): (r: seq<T>)
    requires i < |s|
    ensures |r| == |s| - 1
    ensures forall j :: 0 <= j < i ==> r[j] == s[j]
    ensures forall j :: i <= j < |r| ==> r[j] == s[j + 1]
  {
    s[..i] + s[i + 1..]
  }

  /** `$pull`: every occurrence of x leaves the array, the other elements keep their order. */
  function Pull(ids: seq<ObjectId>, x: ObjectId): (r: seq<ObjectId>)
    ensures x !in r
    ensures forall y :: y in r <==> y in ids && y != x
    ensures multiset(r)[x] == 0
    ensures forall y :: y != x ==> multiset(r)[y] == multiset(ids)[y]
    decreases |ids|
  {
    if ids == [] then []
    else
      assert ids == [ids[0]] + ids[1..];
      if ids[0] == x then Pull(ids[1..], x) else [ids[0]] + Pull(ids[1..], x)
  }

  /** Appending a vote leaves an earlier match where it was, and otherwise finds the new vote. */
  lemma {:induction false} FindVoteAppend(votes: seq<VoteDoc>, v: VoteDoc, user: ObjectId, itemType: ItemType, itemId: ObjectId)
    ensures FindVote(votes + [v], user, itemType, itemId) ==
      if FindVote(votes, user, itemType, itemId).Some? then FindVote(votes, user, itemType, itemId)
      else if VoteMatches(v, user, itemType, itemId) then Some(|votes|)
      else None
    decreases |votes|
  {
    if votes != [] {
      assert (votes + [v])[1..] == votes[1..] + [v];
      FindVoteAppend(votes[1..], v, user, itemType, itemId);
    }
  }

  /** Pulling an id that was pushed onto an array without it gives the array back. */
  lemma {:induction false} PullAfterPush(ids: seq<ObjectId>, x: ObjectId)
    requires x !in ids
    ensures Pull(ids + [x], x) == ids
    decreases |ids|
  {
    if ids == [] {
      assert [] + [x] == [x];
    } else {
      assert (ids + [x])[1..] == ids[1..] + [x];
      PullAfterPush(ids[1..], x);
      assert ids == [ids[0]] + ids[1..];
    }
  }
}
