# Strategy Town, modelled in Dafny

Strategy Town is a small web application. It has turn-based games (Nim and a
guessing game), a forum of threads, comments and votes, and chats. This project
models the application's core: the rules that decide what the client shows and
how the server updates its records. It then proves properties of those rules.

- **Game types** (`game_types.dfy`). The game keys `nim` and `guess`, the Nim
  and guess move schemas, game status, and the tagged game views.
- **Nim replay** (`replay.dfy`). Rebuilding the views of a finished Nim game
  from its move history. The game starts at 21 objects; each move is
  subtracted and the turn flips.
- **Guessing game display** (`guess_game.dfy`). Whether the viewer has guessed,
  whether the game is over, the best distance to the secret and which guesses
  win, the text shown for each player, and which footer appears.
- **Game panel** (`game_panel.dfy`). The history navigation: a `HistoryPanel`
  class whose Prev, Next and Back handlers step an index in [-1, n-1] with a
  viewing flag. It also covers the Join and Start button conditions.
- **Game controller** (`game_controller.dfy`). The create request's 400 / 403 /
  create branching, and the per-player room names. `SendViewUpdates` is the
  broadcast loop with its routing. The socket handlers (watch, join, start,
  move) work on a `Connection` class that holds the rooms joined, the events
  sent and the errors logged.
- **Forum and account services** (`store.dfy`, `user_service.dfy`,
  `thread_service.dfy`, `comment_service.dfy`, `chat_service.dfy`). The
  document store is a `Database` class with one table per collection and a
  counter that issues object ids. Each service operation is a method that
  updates those tables.
- **Vote button** (`vote_button.dfy`). The optimistic vote toggle, its loading
  guard and the revert on failure.
- **Edit-profile form** (`edit_profile.dfy`). The ordered validation chain, the
  construction of the update request, and the error/reset effect of the
  server's answer.

How values are represented:

- A JavaScript `number` is a `real`, and an untyped JSON value is a `JsValue`.
- An object id is a `nat`. An id that arrives as a request string is an
  `IdArg`: either the id it denotes or `Malformed`.
- Timestamps and temporary ids are opaque parameters.
- The live game engine is not part of this model. Its answers (the roster after
  a join, the view updates after a start or a move, the view for a watcher) are
  parameters of the handlers, and so is the game type's `maxPlayers`.

Where the tests and the code disagree, the model follows the code.
server/tests/comment.api.spec.ts:95-112 expects a second vote on a comment to
be ignored. `addVoteToComment` never checks for an existing vote, so the model
stores both votes (`CommentService.VoteTwiceStoresTwoVotes`).

## Model

| member | source | states |
|---|---|---|
| GameTypes.ParseGameKey | shared/src/game.types.ts:54 | a value is accepted exactly when it is the string `nim` or `guess`, and the key returned is the one named |
| GameTypes.GameKeyRoundTrip | shared/src/game.types.ts:54 | parsing the name of a key gives that key back |
| GameTypes.ParseIntInRange | shared/src/game.types.ts:64-74 | accepts exactly the numbers that are integers in [lo, hi] and returns that integer |
| GameTypes.ParseNimMove | shared/src/game.types.ts:64 | a Nim move is accepted iff it is an integer number in [1, 3] |
| GameTypes.ParseGuessMove | shared/src/game.types.ts:74 | a guess is accepted iff it is an integer number in [1, 100] |
| GameTypes.MoveSchemaExamples | shared/src/game.types.spec.ts:5-31 | 1..3 pass and 0, 4, null fail for Nim; 1, 2, 17, 100 pass and 0, 101, -4, undefined, '55' fail for guesses; the failing Nim move 1.5 is a case of the model's own, not of the test file |
| GameTypes.TagOf | shared/src/game.types.ts:76 | a view's tag is `nim` exactly for a Nim view and `guess` exactly for a guess view |
| Replay.BuildNimViews | client/src/games/replay.ts:5-18 | one view per history entry; view i shows 21 minus the sum of the first i+1 numeric moves and next player (i+1) mod 2 |
| Replay.BuildHistoryViews | client/src/games/replay.ts:20-27 | Nim histories get the Nim replay; any other game type gets no views |
| Replay.MoveSumAppend | client/src/games/replay.ts:10-12 | the subtracted total of a concatenation is the sum of the totals |
| Replay.ReplayStep | client/src/games/replay.ts:11-14 | consecutive views differ by exactly the later entry's move, and the turn flips |
| Replay.NonNumericMoveKeepsRemaining | client/src/games/replay.ts:11-13 | a non-numeric move leaves the objects unchanged but still flips the turn |
| Replay.ReplayFinal | client/src/games/replay.ts:3-15 | the last view shows 21 minus the whole history's moves, with next player the history's length mod 2 |
| Replay.ReplayPrefix | client/src/games/replay.ts:10-15 | the first k views are the replay of the first k entries |
| Replay.ReplayExtend | client/src/games/replay.ts:10-15 | one more entry extends the replay by one view, computed from the previous one |
| Replay.ReplayIsAllNim | client/src/games/replay.ts:14 | every replayed view is tagged `nim` |
| Replay.LegalMovesBound | client/src/games/replay.ts:11-12 | when every recorded move is a legal Nim move, the objects taken lie between the number of moves and three times it |
| GuessGame.PlayerHasGuessed | client/src/games/GuessGame.tsx:12 | the viewer has not guessed iff their entry exists and is `false`; an index past the list counts as guessed |
| GuessGame.GameIsUnfinished | client/src/games/GuessGame.tsx:13 | unfinished iff the secret is absent or falsy (0) |
| GuessGame.MinDelta | client/src/games/GuessGame.tsx:18 | for a non-empty list: at most every guess's distance to the secret, and equal to one of them |
| GuessGame.BestDelta | client/src/games/GuessGame.tsx:16-18 | null iff the game is unfinished, Infinity iff finished with no guesses, else the least distance and attained |
| GuessGame.IsBestGuess | client/src/games/GuessGame.tsx:21-23 | a crowned guess is a number in a game whose secret is out, no listed guess is closer to the secret, and some listed guess is exactly as close |
| GuessGame.BestIffClosest | client/src/games/GuessGame.tsx:21-23 | a finished game's guess wears the crown iff it is a number and no guess is closer to the secret |
| GuessGame.WinnerExists | client/src/games/GuessGame.tsx:16-23 | a finished game with numeric guesses has at least one crowned guess |
| GuessGame.TiesShareTheCrown | client/src/games/GuessGame.tsx:21-23 | two numeric guesses at the same distance are both crowned or both not |
| GuessGame.GetGuessText | client/src/games/GuessGame.tsx:26-37 | the viewer sees "haven't guessed" for a falsy entry and "You guessed g" otherwise; others see hasn't / has guessed / guessed n by entry kind, under their display name |
| GuessGame.MaskedEntriesShowNoNumbers | client/src/games/GuessGame.tsx:26-37 | while others' entries are flags, no text about another player shows a number |
| GuessGame.GuessFooter | client/src/games/GuessGame.tsx:51-57 | game over iff finished; the form iff unfinished, a player, and not yet guessed; waiting iff unfinished, a player, and guessed |
| GamePanel.HistoryPanel.constructor | client/src/components/GamePanel.tsx:28-30 | the panel starts live (index -1, not viewing) with no history |
| GamePanel.HistoryPanel.SetGameHistory | client/src/components/GamePanel.tsx:40 | the fetched history replaces the old one; the navigation state is kept |
| GamePanel.HistoryPanel.HandlePrevMove | client/src/components/GamePanel.tsx:50-59 | the new state is the Prev step; the history is kept |
| GamePanel.HistoryPanel.HandleNextMove | client/src/components/GamePanel.tsx:62-72 | the new state is the Next step; the history is kept |
| GamePanel.HistoryPanel.HandleBackToCurrent | client/src/components/GamePanel.tsx:75-78 | the state becomes live (index -1, not viewing) |
| GamePanel.StepsStayInRange | client/src/components/GamePanel.tsx:29-78 | from an index in [-1, n-1], each handler keeps it there |
| GamePanel.RunStaysInRange | client/src/components/GamePanel.tsx:50-78 | any sequence of presses keeps the index in [-1, n-1] |
| GamePanel.EmptyHistoryIgnoresPrevNext | client/src/components/GamePanel.tsx:51-63 | with an empty history, Prev and Next change nothing |
| GamePanel.PrevFromLiveOpensLastMove | client/src/components/GamePanel.tsx:53-58 | Prev while not viewing opens move n-1 and starts viewing |
| GamePanel.PrevWhileViewing | client/src/components/GamePanel.tsx:53-54 | Prev while viewing steps back one move, never below the first |
| GamePanel.NextAtEndGoesLive | client/src/components/GamePanel.tsx:65-68 | Next at or past the last move returns to live |
| GamePanel.NextAdvances | client/src/components/GamePanel.tsx:69-71 | Next elsewhere adds one to the index and keeps the viewing flag; from live that gives index 0 and still not viewing |
| GamePanel.PrevNextInverse | client/src/components/GamePanel.tsx:50-72 | inside the history, Prev undoes Next |
| GamePanel.NextPrevInverse | client/src/components/GamePanel.tsx:50-72 | after the first move, Next undoes Prev |
| GamePanel.DisabledPrevIsNoOp | client/src/components/GamePanel.tsx:129 | Prev is disabled only where pressing it would change nothing |
| GamePanel.FinalLabelWhileViewingGoesLive | client/src/components/GamePanel.tsx:133-135 | while viewing, a Next button labelled "Final" returns to live |
| GamePanel.JoinAndStartExclusive | client/src/components/GamePanel.tsx:100-108 | Join and Start are never both offered, neither once the game has a view, and one is offered before the start once enough players are present |
| GamePanel.CanJoin | client/src/components/GamePanel.tsx:99-100 | Join is offered only before the game has a view, and never together with Start whatever the player count and minimum |
| GamePanel.CanStart | client/src/components/GamePanel.tsx:106-107 | Start is offered only before the game has a view and once the minimum is met; for a joined player in an unstarted game it is offered exactly when enough players are present |
| Store.FindVote | server/src/services/thread.service.ts:128-132 | the first vote matching (user, item type, item), if any, and none iff no vote matches |
| Store.Pull | server/src/services/thread.service.ts:179-181 | `$pull`: removes every occurrence of the id and keeps every other id with its multiplicity |
| Store.FindVoteAppend | server/src/services/thread.service.ts:128-146 | appending a vote leaves an earlier match in place, and otherwise the new vote is found iff it matches |
| Store.PullAfterPush | server/src/services/thread.service.ts:148-182 | pulling a fresh id after pushing it gives the original list |
| UserService.CheckAuth | server/src/services/user.service.ts:29-34 | succeeds iff the username exists and the password equals the stored one, returning that user's id and name |
| UserService.UnknownUserLikeWrongPassword | server/src/services/user.service.ts:31-32 | an unknown user and a wrong password fail alike |
| UserService.EnforceAuth | server/src/services/user.service.ts:45-49 | fails with "Invalid auth" iff the auth check fails, and otherwise returns the same user |
| UserService.GetUserByUsername | server/src/services/user.service.ts:81-85 | the safe view of the user iff the name is taken |
| UserService.CreateUser | server/src/services/user.service.ts:57-73 | `login`, `signup`, `list` are refused; an existing name fails with "User already exists"; both leave the store unchanged; otherwise the user is added with display = username and can log in |
| UserService.GetUsersByUsername | server/src/services/user.service.ts:94-102 | succeeds iff every name exists, answering in input order with duplicates kept; else "No such username" |
| UserService.ApplyUpdate | server/src/services/user.service.ts:112-117 | only the supplied fields change; id, username and creation time never do |
| UserService.UpdateUser | server/src/services/user.service.ts:112-120 | an unknown user fails with "Username does not exist" and nothing changes; otherwise only that user's record is updated |
| UserService.EmptyUpdateIsIdentity | server/src/services/user.service.ts:113-115 | an update with no fields leaves the record as it was |
| UserService.PasswordChangeMovesAuth | server/src/services/user.service.ts:115-117 | after a password change the new password logs in and the old one does not |
| UserService.UpdateKeepsOtherLogins | server/src/services/user.service.ts:117 | updating one user does not change anyone else's login |
| ThreadService.CreateThread | server/src/services/thread.service.ts:40-53 | a fresh thread by the user with no comments and no votes is added |
| ThreadService.GetThreadById | server/src/services/thread.service.ts:61-66 | the thread iff the id is well formed and present |
| ThreadService.InsertByNewest | server/src/services/thread.service.ts:77 | inserting into a newest-first list keeps it newest-first, and the result is the old list plus the new element as a multiset (so one element more, and the same members plus the new one) |
| ThreadService.PrependKeepsNewestFirst | server/src/services/thread.service.ts:77 | a head no older than every later summary keeps a newest-first list newest-first |
| ThreadService.GetThreadSummaries | server/src/services/thread.service.ts:73-81 | one summary per thread, newest first, each with its comments replaced by their count |
| ThreadService.AddCommentToThread | server/src/services/thread.service.ts:91-112 | a malformed id changes nothing; otherwise the comment is created even if the thread is missing, and its id is appended to an existing thread |
| ThreadService.AddVoteToThread | server/src/services/thread.service.ts:121-156 | idempotent: an existing vote changes nothing; otherwise a vote (true, Thread, user) is stored even for a missing thread and appended to an existing one |
| ThreadService.RemoveVoteFromThread | server/src/services/thread.service.ts:164-185 | no vote gives null and no change; otherwise the first matching vote is deleted and its id pulled from the thread |
| ThreadService.VoteTwiceKeepsOneVote | server/src/services/thread.service.ts:128-138 | voting twice answers the same thread twice and adds at most one vote |
| ThreadService.VoteThenUnvoteRestores | server/src/services/thread.service.ts:140-182 | voting and then unvoting restores the votes table and the thread |
| CommentService.AddVoteToComment | server/src/services/comment.service.ts:29-48 | a malformed id changes nothing; otherwise a new vote (true, Comment, user) is always stored, even for a missing comment, and appended to an existing one |
| CommentService.RemoveVoteFromComment | server/src/services/comment.service.ts:56-72 | the first matching vote is deleted and pulled from the comment; with no vote the comment is unchanged but still returned; a missing comment gives null |
| CommentService.VoteTwiceStoresTwoVotes | server/src/services/comment.service.ts:35-45 | two votes by one user on one comment store two votes |
| ChatService.CreateChat | server/src/services/chat.service.ts:27-34 | a fresh chat with no messages and no participant list is added |
| ChatService.ForceChatById | server/src/services/chat.service.ts:44-52 | succeeds iff the id is well formed, present and the chat admits the user; names the failure as the source does |
| ChatService.PrivateChatAdmitsExactlyItsPair | server/src/services/chat.service.ts:48-50 | a private chat admits its two users and nobody else |
| ChatService.AddMessageToChat | server/src/services/chat.service.ts:63-74 | the message id is appended at the end; a malformed or missing chat fails with "sent to invalid chat id" and nothing changes |
| ChatService.SortedPair | server/src/services/chat.service.ts:87 | the pair in ascending order, holding exactly the two ids |
| ChatService.SortedPairSymmetric | server/src/services/chat.service.ts:87 | the pair does not depend on argument order |
| ChatService.GetOrCreatePrivateChat | server/src/services/chat.service.ts:83-92 | the chat of exactly the sorted pair; it is created, empty, only when no chat of that pair exists |
| ChatService.PrivateChatIsShared | server/src/services/chat.service.ts:87-90 | asking for (a, b) and then (b, a) yields the same chat, created at most once |
| ChatService.MultikeyIndexRefusesSecondChat | server/src/models/chat.model.ts:18 | once a has a private chat with b, the index as declared refuses a's chat with anyone else |
| VoteButton.CurrentUserVote | client/src/components/VoteButton.tsx:27 | the user's vote if there is one, and none iff no vote is the user's |
| VoteButton.HasVoted | client/src/components/VoteButton.tsx:28 | true iff some vote in the list was cast by the user |
| VoteButton.WithoutUser | client/src/components/VoteButton.tsx:38 | keeps exactly the votes not cast by the user |
| VoteButton.WithoutUserAppend | client/src/components/VoteButton.tsx:38 | the filter works piecewise, so the remaining votes keep their order |
| VoteButton.WithoutUserNoVote | client/src/components/VoteButton.tsx:38 | with no vote by the user the filter keeps the whole list |
| VoteButton.WithoutUserSameLength | client/src/components/VoteButton.tsx:38 | a filter that drops nothing means the user had not voted |
| VoteButton.ToggleEffect | client/src/components/VoteButton.tsx:37-49 | unvoting removes every vote by the user and shortens the list; voting appends exactly the new vote, which is the user's |
| VoteButton.ToggleTwiceRestores | client/src/components/VoteButton.tsx:37-49 | voting and then unvoting from a list without the user's vote gives the list back |
| VoteButton.VoteButtonState.constructor | client/src/components/VoteButton.tsx:22-23 | the shown votes start as the votes passed in, not loading |
| VoteButton.VoteButtonState.HasVotedNow | client/src/components/VoteButton.tsx:27-28 | the arrow shows as pressed iff some vote in the optimistic list was cast by the user; otherwise the user has no current vote |
| VoteButton.VoteButtonState.VoteCount | client/src/components/VoteButton.tsx:29 | the count shown is the length of the optimistic list, and is positive whenever the arrow shows as pressed |
| VoteButton.VoteButtonState.HandleVote | client/src/components/VoteButton.tsx:31-51 | while loading nothing happens; otherwise the list is toggled at once, loading starts and the matching vote or unvote request is issued |
| VoteButton.VoteButtonState.VoteSettled | client/src/components/VoteButton.tsx:52-57 | a failure restores the votes passed in; loading ends either way |
| EditProfileForm.TrimStart | client/src/hooks/useEditProfileForm.ts:34 | drops exactly the leading white space: what remains is a suffix that does not start with white space |
| EditProfileForm.TrimEnd | client/src/hooks/useEditProfileForm.ts:34 | drops exactly the trailing white space |
| EditProfileForm.TrimIdentity | client/src/hooks/useEditProfileForm.ts:34 | trimming changes nothing iff neither end is white space |
| EditProfileForm.TrimEmpty | client/src/hooks/useEditProfileForm.ts:39 | a string trims to nothing iff it is all white space |
| EditProfileForm.AcceptedIff | client/src/hooks/useEditProfileForm.ts:29-52 | a submission passes every check iff something changed, the display name is non-empty and unpadded, the password is unpadded and matches the confirmation |
| EditProfileForm.AcceptedSendsChange | client/src/hooks/useEditProfileForm.ts:54-56 | an accepted submission sends a non-empty update with only the changed display name and the non-empty password |
| EditProfileForm.ProblemIff | client/src/hooks/useEditProfileForm.ts:29-52 | each message appears exactly when the earlier checks pass and its own fails; the blank-name check sees only the empty name |
| EditProfileForm.EditProfile.constructor | client/src/hooks/useEditProfileForm.ts:17-20 | the form starts with the user's display name, empty passwords and no error |
| EditProfileForm.EditProfile.HandleSubmit | client/src/hooks/useEditProfileForm.ts:26-65 | the first failed check sets its message and sends nothing; otherwise the update is sent, and a server error is shown while success resets the login |
| GameController.Hex | server/src/controllers/game.controller.ts:76 | an id's string has fixed width and contains no `-` |
| GameController.HexInjective | server/src/controllers/game.controller.ts:76 | distinct ids that fit the width have distinct strings |
| GameController.UserRoom | server/src/controllers/game.controller.ts:75-77 | the room name is the game id, `-` and the user id, so it is 25 characters longer than the game id |
| GameController.UserRoomInjective | server/src/controllers/game.controller.ts:71-77 | two player rooms coincide only for the same game and the same user |
| GameController.UserRoomIsNotPublic | server/src/controllers/game.controller.ts:75-77 | a player room is never a game's public room |
| GameController.WatchRooms | server/src/controllers/game.controller.ts:90 | a watcher joins the game's room, plus their own room iff they play, and nothing else |
| GameController.ViewBroadcast | server/src/controllers/game.controller.ts:101-106 | one emission for the public view plus one per player view |
| GameController.SendViewUpdates | server/src/controllers/game.controller.ts:101-106 | the loop emits the public view to the game's room, then each player's view to that player's room |
| GameController.ToRoomAppend | server/src/controllers/game.controller.ts:101-106 | what a room receives from two batches of emissions is their concatenation |
| GameController.PlayerEmissionsMissShortRooms | server/src/controllers/game.controller.ts:103-105 | no player emission reaches a game's public room |
| GameController.PlayerEmissionsToOwnRoom | server/src/controllers/game.controller.ts:103-105 | with distinct players, each player room receives exactly that player's view |
| GameController.NoOtherEmissionToRoom | server/src/controllers/game.controller.ts:103-105 | a user with no update receives nothing in their room |
| GameController.BroadcastRouting | server/src/controllers/game.controller.ts:101-106 | the public room receives exactly the public view with forPlayer false, each player's room exactly their view with forPlayer true, and others nothing |
| GameController.PostCreate | server/src/controllers/game.controller.ts:27-42 | 400 iff the body or key is malformed; else 403 iff the credentials fail; else the game of that key is created for the authenticated user, with the id and name stored for that username |
| GameController.PostCreateExamples | server/tests/game.api.spec.ts:12-30 | key 9 and an unknown key give 400, a wrong password 403, and `nim` with good credentials creates the game |
| GameController.Connection.constructor | server/src/controllers/game.controller.ts:85-96 | a new connection is in no room and has sent and logged nothing |
| GameController.Connection.Authenticate | server/src/controllers/game.controller.ts:87-88 | a malformed body or failed auth logs an error and yields no caller; otherwise the authenticated user |
| GameController.Connection.Watch | server/src/controllers/game.controller.ts:85-96 | on success the watcher joins the watch rooms and receives the game's view and players; any failure only logs an error. A refused request logs exactly one error: a parse error for a malformed body, else "Invalid auth". |
| GameController.Connection.Broadcast | server/src/controllers/game.controller.ts:128-130 | the engine's updates are broadcast as routed, or its error is logged and nothing is sent |
| GameController.Connection.JoinAsPlayer | server/src/controllers/game.controller.ts:111-134 | on a join the roster is broadcast to the game's room and the user's room joined; the game starts iff the roster size equals maxPlayers; failures only log. A refused request logs exactly one error: a parse error for a malformed body, else "Invalid auth". |
| GameController.Connection.Start | server/src/controllers/game.controller.ts:139-147 | the start's view updates are broadcast, or the failure is logged. A refused request logs exactly one error: a parse error for a malformed body, else "Invalid auth". |
| GameController.Connection.MakeMove | server/src/controllers/game.controller.ts:152-164 | the move's view updates are broadcast to the move's game, or the failure is logged. A refused request logs exactly one error: a parse error for a malformed body, else "Invalid auth". |
| GameController.JoinTwiceSameRooms | server/src/controllers/game.controller.ts:123-125 | joining twice leaves the connection in the same rooms as joining once |

## Left out

- The live game engine is not part of this model: `createGame`, `joinGame`,
  `startGame`, `updateGame`, `viewGame`, the per-game rule modules and the
  history log. The controller handlers take their answers as parameters.
  `gameServices[...].maxPlayers` is a parameter too.
- `getById` and `getList` in the game controller only forward engine results.
- JavaScript numbers are exact reals, so floating point, NaN and Infinity
  arithmetic are left out. The one Infinity the source produces, `Math.min()`
  of no guesses, is modelled as its own case.
- GameController.PostCreate: zod's `withAuth` parsing is reduced to two
  outcomes, credentials present or absent. The payload is a `JsValue`, and the
  created game is named by its caller and key rather than built.
- GameController.Connection: the socket handlers' body parsing is an optional
  body. The text logged for a parse error is not modelled. The payload of a
  state update is the view itself, because server/src/types.ts is not part of
  this model. `zGameMakeMovePayload`'s move is passed through untouched.
- GameController.UserRoomInjective and GameController.BroadcastRouting assume
  every user id fits 24 hexadecimal digits (96 bits), as object ids do.
- `isValidObjectId` is modelled only by its verdict (`IdArg`). Which strings
  pass is left out.
- Mongoose `populate`/`select` and the info objects they build are left out.
  The services return the stored document.
- Concurrency is left out: async ordering, per-session serialisation and
  concurrent socket handlers. Every operation runs to completion in turn.
- ThreadService.GetThreadSummaries orders threads newest first but does not fix
  the order among threads created at the same instant, as the database does not.
- ChatService.GetOrCreatePrivateChat models creation as succeeding whenever no
  chat holds exactly the pair (see Findings). The per-element refusal of
  MongoDB's multikey unique index is stated separately, not applied.
- Store.FindVote: scans the votes in insertion order, taking that as MongoDB's
  natural order, which MongoDB does not guarantee. This matters only when a
  comment holds duplicate votes: `removeVoteFromComment`'s `findOneAndDelete`
  may then delete a different duplicate than CommentService.RemoveVoteFromComment
  does.
- Failed database calls and re-thrown unexpected errors are left out, for
  example `createUser`'s non-duplicate errors.
- VoteButton's temporary vote id `'temp-' + Date.now()` and the timestamps are
  opaque parameters. `console.error` is left out.
- React rendering, styling and hook mechanics are left out. Rendered text is a
  datatype naming the message and its fields, not the exact string.
- `fetchHistory` in the game panel is modelled only by its effect
  (`SetGameHistory`).

## Findings

| source | as written | input that shows it | evidently intended | confidence | as-written member | corrected member |
|---|---|---|---|---|---|---|
| server/src/models/chat.model.ts:18 | `participants` is an array, so the unique index is a multikey index that enforces uniqueness per element across chats | after `getOrCreatePrivateChat(A, B)`, a call `getOrCreatePrivateChat(A, C)` finds no chat for [A, C], and creating it is refused because A already appears in a chat | each pair of users gets its own private chat: uniqueness of the whole pair | medium (relies on MongoDB's multikey index semantics); not executed | ChatService.MultikeyIndexRefusesSecondChat | ChatService.GetOrCreatePrivateChat |

The as-written rule is `ChatService.MultikeyIndexAdmits`.
`ChatService.MultikeyIndexRefusesSecondChat` proves that this rule refuses a
user's second private chat. The corrected rule, `ChatService.PairIndexAdmits`,
forbids only a repeat of the same pair. `GetOrCreatePrivateChat` creates a chat
exactly when that rule admits it. The store invariant `Database.Valid` keeps
participant pairs unique.
