/**
 * The vote button's optimistic toggle: the displayed list of votes changes at
 * once, the request is sent, and the list reverts to the votes passed in if
 * the request fails. A click while a request is pending does nothing.
 */
module VoteButton {
  import opened Wrappers
  import opened UserTypes
  import opened VoteTypes

  predicate VotedBy(v: VoteInfo, username: string) {
    v.createdBy.username == username
  }

  /** The first vote of the user, as `find` returns it. */
  function CurrentUserVote(votes: seq<VoteInfo>, username: string): (r: Option<VoteInfo>)
    ensures r.Some? ==> r.value in votes && VotedBy(r.value, username)
    ensures r.None? <==> forall i :: 0 <= i < |votes| ==> !VotedBy(votes[i], username)
    decreases |votes|
  {
    if votes == [] then None
    else if VotedBy(votes[0], username) then Some(votes[0])
    else CurrentUserVote(votes[1..], username)
  }

  function HasVoted(votes: seq<VoteInfo>, username: string): (r: bool)
    ensures r <==> exists i :: 0 <= i < |votes| && VotedBy(votes[i], username)
  {
    CurrentUserVote(votes, username).Some?
  }

  /** The list without the user's votes: `filter(vote => vote.createdBy.username !== username)`. */
  function WithoutUser(votes: seq<VoteInfo>, username: string): (r: seq<VoteInfo>)
    ensures forall v :: v in r <==> v in votes && !VotedBy(v, username)
    ensures |r| <= |votes|
    decreases |votes|
  {
    if votes == [] then []
    else
      assert votes == [votes[0]] + votes[1..];
      if VotedBy(votes[0], username) then WithoutUser(votes[1..], username)
      else [votes[0]] + WithoutUser(votes[1..], username)
  }

  /** The filter works piece by piece, so the remaining votes keep their order. */
  lemma {:induction false} WithoutUserAppend(a: seq<VoteInfo>, b: seq<VoteInfo>, username: string)
    ensures WithoutUser(a + b, username) == WithoutUser(a, username) + WithoutUser(b, username)
    decreases |a|
  {
    if a == [] {
      assert a + b == b;
    } else {
      assert (a + b)[0] == a[0] && (a + b)[1..] == a[1..] + b;
      WithoutUserAppend(a[1..], b, username);
    }
  }

  /** Filtering a list that holds no vote of the user keeps it whole. */
  lemma {:induction false} WithoutUserNoVote(votes: seq<VoteInfo>, username: string)
    requires !HasVoted(votes, username)
    ensures WithoutUser(votes, username) == votes
    decreases |votes|
  {
    if votes != [] {
      assert !HasVoted(votes[1..], username) by {
        forall i | 0 <= i < |votes[1..]| ensures !VotedBy(votes[1..][i], username) {
          assert votes[1..][i] == votes[i + 1];
        }
      }
      WithoutUserNoVote(votes[1..], username);
      assert votes == [votes[0]] + votes[1..];
    }
  }

  /** The vote appended optimistically, with a temporary id. */
  function NewVote(tempId: string, itemType: ItemType, itemId: string, user: SafeUserInfo, now: int): VoteInfo {
    VoteInfo(tempId, true, itemType, itemId, SafeUserInfo(user.username, user.display, now), now)
  }

  /** One toggle: remove the user's votes if there are any, else append the new vote. */
  function Toggled(votes: seq<VoteInfo>, username: string, newVote: VoteInfo): seq<VoteInfo> {
    if HasVoted(votes, username) then WithoutUser(votes, username) else votes + [newVote]
  }

  /** Toggling off removes every vote of the user; toggling on adds exactly one, which is theirs. */
  lemma ToggleEffect(votes: seq<VoteInfo>, username: string, newVote: VoteInfo)
    requires VotedBy(newVote, username)
    ensures HasVoted(votes, username) ==> !HasVoted(Toggled(votes, username, newVote), username)
    ensures HasVoted(votes, username) ==> |Toggled(votes, username, newVote)| < |votes|
    ensures !HasVoted(votes, username) ==>
      Toggled(votes, username, newVote) == votes + [newVote] && HasVoted(votes + [newVote], username)
  {
    var r := Toggled(votes, username, newVote);
    if HasVoted(votes, username) {
      var i :| 0 <= i < |votes| && VotedBy(votes[i], username);
      assert votes[i] !in r;
      if |r| == |votes| {
        WithoutUserSameLength(votes, username);
      }
    } else {
      var s := votes + [newVote];
      assert VotedBy(s[|votes|], username);
    }
  }

  /** A filter that drops nothing is the whole list. */
  lemma {:induction false} WithoutUserSameLength(votes: seq<VoteInfo>, username: string)
    requires |WithoutUser(votes, username)| == |votes|
    ensures !HasVoted(votes, username)
    decreases |votes|
  {
    if votes != [] {
      assert votes == [votes[0]] + votes[1..];
      if VotedBy(votes[0], username) {
        assert false;
      }
      WithoutUserSameLength(votes[1..], username);
      forall i | 0 <= i < |votes| ensures !VotedBy(votes[i], username) {
        if i > 0 { assert votes[i] == votes[1..][i - 1]; }
      }
    }
  }

  /** Voting and then unvoting, starting without a vote of the user, gives the list back. */
  lemma ToggleTwiceRestores(votes: seq<VoteInfo>, username: string, v1: VoteInfo, v2: VoteInfo)
    requires !HasVoted(votes, username)
    requires VotedBy(v1, username)
    ensures Toggled(Toggled(votes, username, v1), username, v2) == votes
  {
    ToggleEffect(votes, username, v1);
    WithoutUserAppend(votes, [v1], username);
    WithoutUserNoVote(votes, username);
    assert WithoutUser([v1], username) == [];
  }

  /** The component's state for one item, with the logged-in user. */
  class VoteButtonState {
    const votes: seq<VoteInfo>
    const itemId: string
    const itemType: ItemType
    const user: SafeUserInfo
    var optimisticVotes: seq<VoteInfo>
    var isLoading: bool

    constructor (votes: seq<VoteInfo>, itemId: string, itemType: ItemType, user: SafeUserInfo)
      ensures this.votes == votes && this.itemId == itemId && this.itemType == itemType && this.user == user
      ensures optimisticVotes == votes && !isLoading
    {
      this.votes, this.itemId, this.itemType, this.user := votes, itemId, itemType, user;
      optimisticVotes := votes;
      isLoading := false;
    }

    /** Whether the arrow is shown as pressed: the user has a vote in the shown list. */
    function HasVotedNow(): (r: bool)
      reads this
      ensures r <==> exists i :: 0 <= i < |optimisticVotes| && VotedBy(optimisticVotes[i], user.username)
      ensures !r ==> CurrentUserVote(optimisticVotes, user.username).None?
    {
      HasVoted(optimisticVotes, user.username)
    }

    /** The number shown beside the arrow. */
    function VoteCount(): (r: nat)
      reads this
      ensures r == |optimisticVotes|
      ensures HasVotedNow() ==> r > 0
    {
      |optimisticVotes|
    }

    /**
     * The click, up to the await: while a request is pending nothing happens;
     * otherwise the list is toggled at once and the matching request is issued.
     */
    method HandleVote(tempId: string, now: int) returns (request: Option<VoteRequest>)
      modifies this`optimisticVotes, this`isLoading
      ensures old(isLoading) ==>
        request.None? && optimisticVotes == old(optimisticVotes) && isLoading
      ensures !old(isLoading) ==>
        && isLoading
        && optimisticVotes == Toggled(old(optimisticVotes), user.username,
                                      NewVote(tempId, itemType, itemId, user, now))
        && request == Some(if HasVoted(old(optimisticVotes), user.username) then RemoveVote(itemId) else Vote(itemId))
    {
      if isLoading {
        return None;
      }
      var hasVoted := HasVotedNow();
      isLoading := true;
      if hasVoted {
        optimisticVotes := WithoutUser(optimisticVotes, user.username);
        request := Some(RemoveVote(itemId));
      } else {
        var newVote := NewVote(tempId, itemType, itemId, user, now);
        optimisticVotes := optimisticVotes + [newVote];
        request := Some(Vote(itemId));
      }
    }

    /** The request settled: a failure restores the votes passed in; loading ends either way. */
    method VoteSettled(failed: bool)
      requires isLoading
      modifies this`optimisticVotes, this`isLoading
      ensures !isLoading
      ensures optimisticVotes == if failed then votes else old(optimisticVotes)
    {
      if failed {
        optimisticVotes := votes;
      }
      isLoading := false;
    }
  }

  /** The request sent to the server for a click. */
  datatype VoteRequest = Vote(itemId: string) | RemoveVote(itemId: string)
}
