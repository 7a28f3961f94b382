/** Forum threads: creation, lookup, listing, comments and one vote per user. */
module ThreadService {
  import opened Wrappers
  import opened Store
  import opened VoteTypes

  /** A created thread has no comments and no votes yet. */
  method CreateThread(db: Database, user: UserWithId, title: string, text: string, createdAt: int)
    returns (id: ObjectId, thread: ThreadDoc)
    requires db.Valid()
    modifies db`threads, db`nextId
    ensures db.Valid()
    ensures id !in old(db.threads)
    ensures thread == ThreadDoc(title, text, createdAt, user.id, [], [])
    ensures db.threads == old(db.threads)[id := thread]
  {
    id := db.FreshId();
    thread := ThreadDoc(title, text, createdAt, user.id, [], []);
    db.threads := db.threads[id := thread];
  }

  /** A malformed or unknown id finds nothing. */
  function GetThreadById(threads: map<ObjectId, ThreadDoc>, threadId: IdArg): (r: Option<ThreadDoc>)
    ensures r.Some? <==> threadId.Id? && threadId.oid in threads
    ensures r.Some? ==> r.value == threads[threadId.oid]
  {
    match threadId
    case Malformed => None
    case Id(t) => if t in threads then Some(threads[t]) else None
  }

  /** A thread as listed: its comments replaced by their number. */
  datatype ThreadSummary = ThreadSummary(
    id: ObjectId, title: string, text: string, createdAt: int, createdBy: ObjectId,
    votes: seq<ObjectId>, comments: nat)

  function Summarize(id: ObjectId, t: ThreadDoc): ThreadSummary {
    ThreadSummary(id, t.title, t.text, t.createdAt, t.createdBy, t.votes, |t.comments|)
  }

  /** Newest first. */
  predicate NewestFirst(s: seq<ThreadSummary>) {
    forall i, j :: 0 <= i < j < |s| ==> s[i].createdAt >= s[j].createdAt
  }

  function InsertByNewest(x: ThreadSummary, s: seq<ThreadSummary>): (r: seq<ThreadSummary>)
    requires NewestFirst(s)
    ensures NewestFirst(r)
    ensures |r| == |s| + 1
    ensures forall y :: y in r <==> y in s || y == x
    ensures multiset(r) == multiset(s) + multiset{x}
    decreases |s|
  {
    if s == [] then [x]
    else if x.createdAt >= s[0].createdAt then [x] + s
    else
      var rest := InsertByNewest(x, s[1..]);
      assert forall y :: y in s[1..] ==> y.createdAt <= s[0].createdAt by {
        forall y | y in s[1..] ensures y.createdAt <= s[0].createdAt {
          var k :| 0 <= k < |s[1..]| && s[1..][k] == y;
          assert s[k + 1] == y;
        }
      }
      assert forall y :: y in rest ==> y.createdAt <= s[0].createdAt;
      PrependKeepsNewestFirst(s[0], rest);
      assert s == [s[0]] + s[1..];
      [s[0]] + rest
  }

  /** A head no older than anything after it keeps a newest-first list newest-first. */
  lemma PrependKeepsNewestFirst(a: ThreadSummary, rest: seq<ThreadSummary>)
    requires NewestFirst(rest)
    requires forall y :: y in rest ==> y.createdAt <= a.createdAt
    ensures NewestFirst([a] + rest)
  {
    var r := [a] + rest;
    forall i, j | 0 <= i < j < |r| ensures r[i].createdAt >= r[j].createdAt {
      assert r[j] == rest[j - 1];
      if i > 0 { assert r[i] == rest[i - 1]; }
    }
  }

  /** Every thread once, newest first, with comment counts in place of comments. */
  method GetThreadSummaries(db: Database) returns (r: seq<ThreadSummary>)
    ensures NewestFirst(r)
    ensures |r| == |db.threads|
    ensures forall i :: 0 <= i < |r| ==> r[i].id in db.threads && r[i] == Summarize(r[i].id, db.threads[r[i].id])
    ensures forall t :: t in db.threads ==> exists i :: 0 <= i < |r| && r[i].id == t
  {
    var left := db.threads.Keys;
    r := [];
    while left != {}
      invariant left <= db.threads.Keys
      invariant NewestFirst(r)
      invariant |r| + |left| == |db.threads.Keys|
      invariant forall i :: 0 <= i < |r| ==>
        r[i].id in db.threads && r[i].id !in left && r[i] == Summarize(r[i].id, db.threads[r[i].id])
      invariant forall t :: t in db.threads && t !in left ==> exists i :: 0 <= i < |r| && r[i].id == t
      decreases |left|
    {
      var t :| t in left;
      var x := Summarize(t, db.threads[t]);
      ghost var before := r;
      r := InsertByNewest(x, r);
      assert |left - {t}| == |left| - 1;
      left := left - {t};
      forall i | 0 <= i < |r|
        ensures r[i].id in db.threads && r[i].id !in left && r[i] == Summarize(r[i].id, db.threads[r[i].id])
      {
        assert r[i] in r;
        if r[i] != x {
          var k :| 0 <= k < |before| && before[k] == r[i];
        }
      }
      forall u | u in db.threads && u !in left
        ensures exists i :: 0 <= i < |r| && r[i].id == u
      {
        if u == t {
          assert x in r;
        } else {
          var k :| 0 <= k < |before| && before[k].id == u;
          assert before[k] in r;
        }
      }
    }
  }

  /**
   * Stores a comment and appends its id to the thread's comments. The comment
   * is stored before the thread is looked up, so an unknown thread still
   * leaves the comment behind.
   */
  method AddCommentToThread(db: Database, threadId: IdArg, user: UserWithId, text: string, createdAt: int)
    returns (r: Option<ThreadDoc>)
    requires db.Valid()
    modifies db`comments, db`threads, db`nextId
    ensures db.Valid()
    ensures threadId.Malformed? ==>
      r.None? && db.comments == old(db.comments) && db.threads == old(db.threads)
    ensures threadId.Id? ==>
      db.comments == old(db.comments)[old(db.nextId) := CommentDoc(text, user.id, createdAt, [])]
    ensures threadId.Id? && threadId.oid in old(db.threads) ==>
      var t := threadId.oid;
      && db.threads == old(db.threads)[t := old(db.threads)[t].(comments := old(db.threads)[t].comments + [old(db.nextId)])]
      && r == Some(db.threads[t])
    ensures threadId.Id? && threadId.oid !in old(db.threads) ==> r.None? && db.threads == old(db.threads)
  {
    if threadId.Malformed? {
      return None;
    }
    var c := db.FreshId();
    db.comments := db.comments[c := CommentDoc(text, user.id, createdAt, [])];
    var t := threadId.oid;
    if t !in db.threads {
      return None;
    }
    db.threads := db.threads[t := db.threads[t].(comments := db.threads[t].comments + [c])];
    r := Some(db.threads[t]);
  }

  /**
   * Records the user's vote on the thread unless one is already stored, in
   * which case nothing changes. The vote is stored before the thread is looked
   * up.
   */
  method AddVoteToThread(db: Database, threadId: IdArg, user: UserWithId, createdAt: int) returns (r: Option<ThreadDoc>)
    requires db.Valid()
    modifies db`votes, db`threads, db`nextId
    ensures db.Valid()
    ensures threadId.Malformed? ==> r.None? && db.votes == old(db.votes) && db.threads == old(db.threads)
    ensures threadId.Id? ==> FindVote(db.votes, user.id, ThreadItem, threadId.oid).Some?
    ensures threadId.Id? && FindVote(old(db.votes), user.id, ThreadItem, threadId.oid).Some? ==>
      && db.votes == old(db.votes) && db.threads == old(db.threads)
      && r == GetThreadById(db.threads, threadId)
    ensures threadId.Id? && FindVote(old(db.votes), user.id, ThreadItem, threadId.oid).None? ==>
      var t := threadId.oid;
      var v := VoteDoc(old(db.nextId), true, ThreadItem, t, user.id, createdAt);
      && db.votes == old(db.votes) + [v]
      && (t in old(db.threads) ==>
            db.threads == old(db.threads)[t := old(db.threads)[t].(votes := old(db.threads)[t].votes + [v.id])]
            && r == Some(db.threads[t]))
      && (t !in old(db.threads) ==> db.threads == old(db.threads) && r.None?)
  {
    if threadId.Malformed? {
      return None;
    }
    var t := threadId.oid;
    var existingVote := FindVote(db.votes, user.id, ThreadItem, t);
    if existingVote.Some? {
      return GetThreadById(db.threads, threadId);
    }
    var id := db.FreshId();
    var vote := VoteDoc(id, true, ThreadItem, t, user.id, createdAt);
    FindVoteAppend(db.votes, vote, user.id, ThreadItem, t);
    db.votes := db.votes + [vote];
    if t !in db.threads {
      return None;
    }
    db.threads := db.threads[t := db.threads[t].(votes := db.threads[t].votes + [id])];
    r := Some(db.threads[t]);
  }

  /**
   * Deletes the user's vote on the thread and pulls its id from the thread.
   * Without such a vote the result is null and nothing changes.
   */
  method RemoveVoteFromThread(db: Database, threadId: IdArg, user: UserWithId) returns (r: Option<ThreadDoc>)
    requires db.Valid()
    modifies db`votes, db`threads
    ensures db.Valid()
    ensures threadId.Malformed? ==> r.None? && db.votes == old(db.votes) && db.threads == old(db.threads)
    ensures threadId.Id? && FindVote(old(db.votes), user.id, ThreadItem, threadId.oid).None? ==>
      r.None? && db.votes == old(db.votes) && db.threads == old(db.threads)
    ensures threadId.Id? && FindVote(old(db.votes), user.id, ThreadItem, threadId.oid).Some? ==>
      var t := threadId.oid;
      var i := FindVote(old(db.votes), user.id, ThreadItem, t).value;
      var gone := old(db.votes)[i].id;
      && db.votes == RemoveAt(old(db.votes), i)
      && (t in old(db.threads) ==>
            db.threads == old(db.threads)[t := old(db.threads)[t].(votes := Pull(old(db.threads)[t].votes, gone))]
            && r == Some(db.threads[t]))
      && (t !in old(db.threads) ==> db.threads == old(db.threads) && r.None?)
  {
    if threadId.Malformed? {
      return None;
    }
    var t := threadId.oid;
    var deletedVote := FindVote(db.votes, user.id, ThreadItem, t);
    if deletedVote.None? {
      return None;
    }
    var gone := db.votes[deletedVote.value].id;
    db.votes := RemoveAt(db.votes, deletedVote.value);
    if t !in db.threads {
      return None;
    }
    db.threads := db.threads[t := db.threads[t].(votes := Pull(db.threads[t].votes, gone))];
    r := Some(db.threads[t]);
  }

  /** Voting twice stores one vote: the second call changes nothing. */
  method VoteTwiceKeepsOneVote(db: Database, t: ObjectId, user: UserWithId, at1: int, at2: int)
    returns (first: Option<ThreadDoc>, second: Option<ThreadDoc>)
    requires db.Valid() && t in db.threads
    modifies db`votes, db`threads, db`nextId
    ensures db.Valid()
    ensures second == first && first.Some?
    ensures |db.votes| <= |old(db.votes)| + 1
    ensures t in db.threads && |db.threads[t].votes| <= |old(db.threads)[t].votes| + 1
  {
    first := AddVoteToThread(db, Id(t), user, at1);
    ghost var votes1, threads1 := db.votes, db.threads;
    second := AddVoteToThread(db, Id(t), user, at2);
    assert db.votes == votes1 && db.threads == threads1;
  }

  /** Voting and then unvoting a thread the user had not voted on restores its votes. */
  method VoteThenUnvoteRestores(db: Database, t: ObjectId, user: UserWithId, at: int)
    requires db.Valid() && t in db.threads
    requires FindVote(db.votes, user.id, ThreadItem, t).None?
    modifies db`votes, db`threads, db`nextId
    ensures db.Valid()
    ensures db.votes == old(db.votes) && db.threads == old(db.threads)
  {
    ghost var votes0, threads0, id0 := db.votes, db.threads, db.nextId;
    ghost var v := VoteDoc(id0, true, ThreadItem, t, user.id, at);
    FindVoteAppend(votes0, v, user.id, ThreadItem, t);
    var added := AddVoteToThread(db, Id(t), user, at);
    assert db.votes == votes0 + [v];
    var removed := RemoveVoteFromThread(db, Id(t), user);
    PushThenPullRestores(votes0, v, threads0, t);
  }

  /** The vote table and thread after a push of a fresh vote and its pull are the ones before. */
  lemma PushThenPullRestores(votes0: seq<VoteDoc>, v: VoteDoc, threads0: map<ObjectId, ThreadDoc>, t: ObjectId)
    requires t in threads0 && v.id !in threads0[t].votes
    ensures RemoveAt(votes0 + [v], |votes0|) == votes0
    ensures var pushed := threads0[t := threads0[t].(votes := threads0[t].votes + [v.id])];
      pushed[t := pushed[t].(votes := Pull(pushed[t].votes, v.id))] == threads0
  {
    PullAfterPush(threads0[t].votes, v.id);
    assert (votes0 + [v])[..|votes0|] == votes0;
  }
}
