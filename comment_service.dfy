/** Votes on forum comments. */
module CommentService {
  import opened Wrappers
  import opened Store
  import opened VoteTypes

  /**
   * Stores a new vote and pushes its id onto the comment's votes. There is no
   * check for an earlier vote by the same user, and the vote is stored before
   * the comment is looked up, so it is stored even when the comment is unknown.
   */
  method AddVoteToComment(db: Database, commentId: IdArg, user: UserWithId, createdAt: int) returns (r: Option<CommentDoc>)
    requires db.Valid()
    modifies db`votes, db`comments, db`nextId
    ensures db.Valid()
    ensures commentId.Malformed? ==> r.None? && db.votes == old(db.votes) && db.comments == old(db.comments)
    ensures commentId.Id? ==>
      var c := commentId.oid;
      var v := VoteDoc(old(db.nextId), true, CommentItem, c, user.id, createdAt);
      && db.votes == old(db.votes) + [v]
      && (c in old(db.comments) ==>
            db.comments == old(db.comments)[c := old(db.comments)[c].(votes := old(db.comments)[c].votes + [v.id])]
            && r == Some(db.comments[c]))
      && (c !in old(db.comments) ==> db.comments == old(db.comments) && r.None?)
  {
    if commentId.Malformed? {
      return None;
    }
    var c := commentId.oid;
    var id := db.FreshId();
    db.votes := db.votes + [VoteDoc(id, true, CommentItem, c, user.id, createdAt)];
    if c !in db.comments {
      return None;
    }
    db.comments := db.comments[c := db.comments[c].(votes := db.comments[c].votes + [id])];
    r := Some(db.comments[c]);
  }

  /**
   * Deletes one vote of the user on the comment, if there is one, and pulls its
   * id from the comment's votes. Without such a vote the pull removes nothing
   * and the comment is still returned; only an unknown comment gives null.
   */
  method RemoveVoteFromComment(db: Database, commentId: IdArg, user: UserWithId) returns (r: Option<CommentDoc>)
    requires db.Valid()
    modifies db`votes, db`comments
    ensures db.Valid()
    ensures commentId.Malformed? ==> r.None? && db.votes == old(db.votes) && db.comments == old(db.comments)
    ensures commentId.Id? ==>
      var c := commentId.oid;
      var found := FindVote(old(db.votes), user.id, CommentItem, c);
      && db.votes == (if found.Some? then RemoveAt(old(db.votes), found.value) else old(db.votes))
      && (c in old(db.comments) ==>
            && db.comments == old(db.comments)[c := old(db.comments)[c].(votes :=
                 if found.Some? then Pull(old(db.comments)[c].votes, old(db.votes)[found.value].id)
                 else old(db.comments)[c].votes)]
            && r == Some(db.comments[c]))
      && (c !in old(db.comments) ==> db.comments == old(db.comments) && r.None?)
  {
    if commentId.Malformed? {
      return None;
    }
    var c := commentId.oid;
    var deletedVote := FindVote(db.votes, user.id, CommentItem, c);
    var gone: Option<ObjectId> := None;
    if deletedVote.Some? {
      gone := Some(db.votes[deletedVote.value].id);
      db.votes := RemoveAt(db.votes, deletedVote.value);
    }
    if c !in db.comments {
      return None;
    }
    if gone.Some? {
      db.comments := db.comments[c := db.comments[c].(votes := Pull(db.comments[c].votes, gone.value))];
    }
    r := Some(db.comments[c]);
  }

  /** Two votes by the same user on one comment are both stored. */
  method VoteTwiceStoresTwoVotes(db: Database, c: ObjectId, user: UserWithId, at1: int, at2: int)
    requires db.Valid() && c in db.comments
    modifies db`votes, db`comments, db`nextId
    ensures db.Valid()
    ensures |db.votes| == |old(db.votes)| + 2
    ensures c in db.comments && |db.comments[c].votes| == |old(db.comments)[c].votes| + 2
  {
    var first := AddVoteToComment(db, Id(c), user, at1);
    var second := AddVoteToComment(db, Id(c), user, at2);
  }
}
