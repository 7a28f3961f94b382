/**
 * The game panel's history navigation (previous / next / back to the final
 * state over the fetched move history) and its join / start button rules.
 */
module GamePanel {
  import opened Wrappers
  import opened JsValues
  import opened GameTypes

  /** The navigation state: `currentHistoryIndex` (-1 means the live state) and `isViewingHistory`. */
  datatype NavState = NavState(index: int, viewing: bool)

  /** The state the panel starts in. */
  const Live := NavState(-1, false)

  /** The index names a history entry or the live state. */
  predicate InRange(s: NavState, n: nat) {
    -1 <= s.index <= n - 1
  }

  /** `handlePrevMove` over a history of n entries. */
  function PrevStep(s: NavState, n: nat): NavState {
    if n == 0 then s
    else NavState(if s.viewing then (if s.index - 1 < 0 then 0 else s.index - 1) else n - 1, true)
  }

  /** `handleNextMove` over a history of n entries. */
  function NextStep(s: NavState, n: nat): NavState {
    if n == 0 then s
    else if s.index >= n - 1 then Live
    else NavState(s.index + 1, s.viewing)
  }

  /** `handleBackToCurrent`. */
  function BackStep(s: NavState): NavState {
    Live
  }

  /** The fetched history and the navigation position within it. */
  class HistoryPanel {
    var gameHistory: seq<JsValue>
    var currentHistoryIndex: int
    var isViewingHistory: bool

    function State(): NavState
      reads this
    {
      NavState(currentHistoryIndex, isViewingHistory)
    }

    constructor ()
      ensures gameHistory == [] && State() == Live
    {
      gameHistory := [];
      currentHistoryIndex := -1;
      isViewingHistory := false;
    }

    /** A history response arrived; the position is left as it was. */
    method SetGameHistory(h: seq<JsValue>)
      modifies this
      ensures gameHistory == h && State() == old(State())
    {
      gameHistory := h;
    }

    method HandlePrevMove()
      modifies this
      ensures gameHistory == old(gameHistory)
      ensures State() == PrevStep(old(State()), |gameHistory|)
    {
      if |gameHistory| == 0 {
        return;
      }
      var newIndex := if isViewingHistory then Max(0, currentHistoryIndex - 1) else |gameHistory| - 1;
      currentHistoryIndex := newIndex;
      isViewingHistory := true;
    }

    method HandleNextMove()
      modifies this
      ensures gameHistory == old(gameHistory)
      ensures State() == NextStep(old(State()), |gameHistory|)
    {
      if |gameHistory| == 0 {
        return;
      }
      if currentHistoryIndex >= |gameHistory| - 1 {
        isViewingHistory := false;
        currentHistoryIndex := -1;
      } else {
        currentHistoryIndex := currentHistoryIndex + 1;
      }
    }

    method HandleBackToCurrent()
      modifies this
      ensures gameHistory == old(gameHistory)
      ensures State() == BackStep(old(State()))
    {
      isViewingHistory := false;
      currentHistoryIndex := -1;
    }
  }

  function Max(a: int, b: int): (r: int)
    ensures r >= a && r >= b && (r == a || r == b)
  {
    if a >= b then a else b
  }

  /** Every handler keeps the index within [-1, n - 1] for a fixed history length n. */
  lemma StepsStayInRange(s: NavState, n: nat)
    requires InRange(s, n)
    ensures InRange(PrevStep(s, n), n) && InRange(NextStep(s, n), n) && InRange(BackStep(s), n)
  {
  }

  /** Any sequence of handler presses keeps the index in range. */
  datatype Press = Prev | Next | Back

  function Run(s: NavState, n: nat, presses: seq<Press>): NavState
    decreases |presses|
  {
    if presses == [] then s
    else
      var s' := match presses[0]
        case Prev => PrevStep(s, n)
        case Next => NextStep(s, n)
        case Back => BackStep(s);
      Run(s', n, presses[1..])
  }

  lemma {:induction false} RunStaysInRange(s: NavState, n: nat, presses: seq<Press>)
    requires InRange(s, n)
    ensures InRange(Run(s, n, presses), n)
    decreases |presses|
  {
    if presses != [] {
      StepsStayInRange(s, n);
      var s' := match presses[0]
        case Prev => PrevStep(s, n)
        case Next => NextStep(s, n)
        case Back => BackStep(s);
      RunStaysInRange(s', n, presses[1..]);
    }
  }

  /** With nothing fetched, Prev and Next do nothing. */
  lemma EmptyHistoryIgnoresPrevNext(s: NavState)
    ensures PrevStep(s, 0) == s && NextStep(s, 0) == s
  {
  }

  /** From the live state, Prev opens the last move. */
  lemma PrevFromLiveOpensLastMove(s: NavState, n: nat)
    requires n > 0 && !s.viewing
    ensures PrevStep(s, n) == NavState(n - 1, true)
  {
  }

  /** While viewing, Prev goes back one move and stops at the first. */
  lemma PrevWhileViewing(s: NavState, n: nat)
    requires n > 0 && s.viewing && InRange(s, n)
    ensures PrevStep(s, n).viewing
    ensures PrevStep(s, n).index == (if s.index <= 0 then 0 else s.index - 1)
  {
  }

  /** Next at (or past) the last move returns to the live state. */
  lemma NextAtEndGoesLive(s: NavState, n: nat)
    requires n > 0 && s.index >= n - 1
    ensures NextStep(s, n) == Live
  {
  }

  /** Next elsewhere moves one forward and leaves the viewing flag alone; from live that is index 0, still not viewing. */
  lemma NextAdvances(s: NavState, n: nat)
    requires n > 0 && s.index < n - 1
    ensures NextStep(s, n) == NavState(s.index + 1, s.viewing)
    ensures s == Live ==> NextStep(s, n) == NavState(0, false)
  {
  }

  /** Prev undoes Next inside the history, and Next undoes Prev away from the first move. */
  lemma PrevNextInverse(s: NavState, n: nat)
    requires s.viewing && 0 <= s.index < n - 1
    ensures PrevStep(NextStep(s, n), n) == s
  {
  }

  lemma NextPrevInverse(s: NavState, n: nat)
    requires s.viewing && 0 < s.index <= n - 1
    ensures NextStep(PrevStep(s, n), n) == s
  {
  }

  /** The Prev button is disabled only where pressing it would change nothing. */
  function PrevDisabled(s: NavState): bool {
    s.viewing && s.index == 0
  }

  lemma DisabledPrevIsNoOp(s: NavState, n: nat)
    requires PrevDisabled(s)
    ensures PrevStep(s, n) == s
  {
  }

  /** The Next button reads "Next" while viewing before the last move, "Final" otherwise. */
  function NextSaysFinal(s: NavState, n: nat): bool {
    !(s.viewing && s.index < n - 1)
  }

  /** While viewing, a button reading "Final" does return to the live state. */
  lemma FinalLabelWhileViewingGoesLive(s: NavState, n: nat)
    requires n > 0 && s.viewing && NextSaysFinal(s, n)
    ensures NextStep(s, n) == Live
  {
  }

  /** `userPlayerIndex < 0 && !view`: a non-player may join a game that has not started. */
  function CanJoin(userPlayerIndex: int, view: Option<TaggedGameView>): (r: bool)
    ensures r ==> view.None?
    ensures r ==> forall playerCount: nat, minPlayers: int :: !CanStart(userPlayerIndex, view, playerCount, minPlayers)
  {
    userPlayerIndex < 0 && view.None?
  }

  /** A player may start a game that has not started once enough players are present. */
  function CanStart(userPlayerIndex: int, view: Option<TaggedGameView>, playerCount: nat, minPlayers: int): (r: bool)
    ensures r ==> view.None? && playerCount >= minPlayers
    ensures view.None? && userPlayerIndex >= 0 ==> (r <==> playerCount >= minPlayers)
  {
    userPlayerIndex >= 0 && view.None? && playerCount >= minPlayers
  }

  /** Join and Start are never both offered; once the game has a view, neither is. */
  lemma JoinAndStartExclusive(userPlayerIndex: int, view: Option<TaggedGameView>, playerCount: nat, minPlayers: int)
    ensures !(CanJoin(userPlayerIndex, view) && CanStart(userPlayerIndex, view, playerCount, minPlayers))
    ensures view.Some? ==> !CanJoin(userPlayerIndex, view) && !CanStart(userPlayerIndex, view, playerCount, minPlayers)
    ensures view.None? && playerCount >= minPlayers ==>
      CanJoin(userPlayerIndex, view) || CanStart(userPlayerIndex, view, playerCount, minPlayers)
  {
  }
}
