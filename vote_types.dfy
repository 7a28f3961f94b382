/** Votes as the client receives them. */
module VoteTypes {
  import opened UserTypes

  /** What a vote is on. */
  datatype ItemType = ThreadItem | CommentItem

  datatype VoteInfo = VoteInfo(
    id: string, vote: bool, itemType: ItemType, itemId: string, createdBy: SafeUserInfo, createdAt: int)
}
