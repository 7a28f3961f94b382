/**
 * The guessing game's client-side display rules: who has guessed, whether the
 * game is over, which guesses are closest to the secret, the line of text
 * shown for each player and what the viewer is offered below the list.
 */
module GuessGame {
  import opened Wrappers
  import opened GameTypes

  /** A view entry is `!== false`: a spectator's out-of-range index reads as `undefined`, which is not `false`. */
  function PlayerHasGuessed(guesses: seq<GuessEntry>, userPlayerIndex: int): (r: bool)
    ensures !r <==> 0 <= userPlayerIndex < |guesses| && guesses[userPlayerIndex] == Flag(false)
    ensures userPlayerIndex < 0 ==> r
  {
    !(0 <= userPlayerIndex < |guesses| && guesses[userPlayerIndex] == Flag(false))
  }

  /** `!secret`: an absent secret, or the falsy number 0. */
  function GameIsUnfinished(secret: Option<real>): (r: bool)
    ensures r <==> secret.None? || secret.value == 0.0
  {
    match secret
    case None => true
    case Some(s) => s == 0.0
  }

  /** The number an entry stands for in arithmetic: booleans coerce to 1 and 0. */
  function Coerce(e: GuessEntry): real {
    match e
    case Number(n) => n
    case Flag(b) => if b then 1.0 else 0.0
  }

  function Abs(x: real): real {
    if x < 0.0 then -x else x
  }

  /** How far an entry is from the secret. */
  function Delta(e: GuessEntry, secret: real): real {
    Abs(Coerce(e) - secret)
  }

  /** The smallest distance to the secret; None on an empty list (where `Math.min()` is Infinity). */
  function MinDelta(guesses: seq<GuessEntry>, secret: real): (r: Option<real>)
    ensures r.Some? <==> guesses != []
    ensures r.Some? ==> forall i :: 0 <= i < |guesses| ==> r.value <= Delta(guesses[i], secret)
    ensures r.Some? ==> exists i :: 0 <= i < |guesses| && r.value == Delta(guesses[i], secret)
    decreases |guesses|
  {
    if guesses == [] then None
    else
      var d := Delta(guesses[0], secret);
      match MinDelta(guesses[1..], secret)
      case None => Some(d)
      case Some(rest) =>
        assert forall i :: 1 <= i < |guesses| ==> guesses[i] == guesses[1..][i - 1];
        if d <= rest then Some(d) else Some(rest)
  }

  /** `bestDelta`: null while the secret is hidden, else the minimum distance (Infinity when nobody is listed). */
  datatype BestDeltaValue = NullDelta | InfiniteDelta | FiniteDelta(d: real)

  function BestDelta(view: GuessView): (r: BestDeltaValue)
    ensures GameIsUnfinished(view.secret) <==> r == NullDelta
    ensures r == InfiniteDelta <==> !GameIsUnfinished(view.secret) && view.guesses == []
    ensures r.FiniteDelta? ==> forall i :: 0 <= i < |view.guesses| ==>
      r.d <= Delta(view.guesses[i], view.secret.value)
    ensures r.FiniteDelta? ==>
      exists i :: 0 <= i < |view.guesses| && r.d == Delta(view.guesses[i], view.secret.value)
  {
    if GameIsUnfinished(view.secret) then NullDelta
    else
      match MinDelta(view.guesses, view.secret.value)
      case None => InfiniteDelta
      case Some(d) => FiniteDelta(d)
  }

  /** A guess gets the crown when the secret is out, it is a number, and nothing is closer. */
  function IsBestGuess(view: GuessView, guess: GuessEntry): (r: bool)
    ensures r ==> !GameIsUnfinished(view.secret) && guess.Number? && view.guesses != []
    ensures r ==> forall i :: 0 <= i < |view.guesses| ==>
      Delta(guess, view.secret.value) <= Delta(view.guesses[i], view.secret.value)
    ensures r ==>
      exists i :: 0 <= i < |view.guesses| && Delta(guess, view.secret.value) == Delta(view.guesses[i], view.secret.value)
  {
    !GameIsUnfinished(view.secret) && guess.Number?
    && BestDelta(view) == FiniteDelta(Abs(guess.n - view.secret.value))
  }

  /** A listed guess is best exactly when it is a number at minimal distance from the secret. */
  lemma BestIffClosest(view: GuessView, i: nat)
    requires !GameIsUnfinished(view.secret)
    requires i < |view.guesses|
    ensures IsBestGuess(view, view.guesses[i]) <==>
      view.guesses[i].Number? &&
      forall j :: 0 <= j < |view.guesses| ==>
        Delta(view.guesses[i], view.secret.value) <= Delta(view.guesses[j], view.secret.value)
  {
    var s := view.secret.value;
    var b := BestDelta(view);
    assert b.FiniteDelta?;
    if view.guesses[i].Number? && forall j :: 0 <= j < |view.guesses| ==>
        Delta(view.guesses[i], s) <= Delta(view.guesses[j], s) {
      var k :| 0 <= k < |view.guesses| && b.d == Delta(view.guesses[k], s);
      assert Delta(view.guesses[i], s) <= b.d;
    }
  }

  /** Once the secret is out and everyone has guessed a number, somebody wins. */
  lemma WinnerExists(view: GuessView)
    requires !GameIsUnfinished(view.secret)
    requires view.guesses != []
    requires forall i :: 0 <= i < |view.guesses| ==> view.guesses[i].Number?
    ensures exists i :: 0 <= i < |view.guesses| && IsBestGuess(view, view.guesses[i])
  {
    var b := BestDelta(view);
    var k :| 0 <= k < |view.guesses| && b.d == Delta(view.guesses[k], view.secret.value);
    assert IsBestGuess(view, view.guesses[k]);
  }

  /** Two numeric guesses equally far from the secret are both best or both not. */
  lemma TiesShareTheCrown(view: GuessView, i: nat, j: nat)
    requires !GameIsUnfinished(view.secret)
    requires i < |view.guesses| && j < |view.guesses|
    requires view.guesses[i].Number? && view.guesses[j].Number?
    requires Delta(view.guesses[i], view.secret.value) == Delta(view.guesses[j], view.secret.value)
    ensures IsBestGuess(view, view.guesses[i]) <==> IsBestGuess(view, view.guesses[j])
  {
    BestIffClosest(view, i);
    BestIffClosest(view, j);
  }

  /** JavaScript truthiness of an entry: `false` and the number 0 are falsy. */
  predicate EntryTruthy(e: GuessEntry) {
    match e
    case Flag(b) => b
    case Number(n) => n != 0.0
  }

  /** The line of text for one player's entry; constructors name the message templates. */
  datatype GuessText =
    | YouHaventGuessed                           // "You haven't guessed yet"
    | YouGuessed(entry: GuessEntry)              // "You guessed <entry>"
    | HasntGuessed(name: string)                 // "<name> hasn't guessed yet"
    | HasGuessed(name: string)                   // "<name> has guessed"
    | GuessedValue(name: string, value: real)    // "<name> guessed <value>"

  function GetGuessText(guess: GuessEntry, index: int, userPlayerIndex: int, displays: seq<string>): (r: GuessText)
    requires index == userPlayerIndex || 0 <= index < |displays|
    ensures index == userPlayerIndex ==>
      (r == YouHaventGuessed <==> !EntryTruthy(guess)) &&
      (EntryTruthy(guess) ==> r == YouGuessed(guess))
    ensures index != userPlayerIndex ==> !r.YouHaventGuessed? && !r.YouGuessed? && r.name == displays[index]
    ensures index != userPlayerIndex ==> (r.HasntGuessed? <==> guess == Flag(false))
    ensures index != userPlayerIndex ==> (r.HasGuessed? <==> guess == Flag(true))
    ensures index != userPlayerIndex ==> (r.GuessedValue? <==> guess.Number?)
    ensures r.GuessedValue? ==> guess == Number(r.value)
  {
    if index == userPlayerIndex then
      (if !EntryTruthy(guess) then YouHaventGuessed else YouGuessed(guess))
    else if guess == Flag(false) then HasntGuessed(displays[index])
    else if guess == Flag(true) then HasGuessed(displays[index])
    else GuessedValue(displays[index], guess.n)
  }

  /** While other players' entries are flags, no line of text shows another player's number. */
  lemma MaskedEntriesShowNoNumbers(view: GuessView, userPlayerIndex: int, displays: seq<string>)
    requires |displays| == |view.guesses|
    requires forall j :: 0 <= j < |view.guesses| && j != userPlayerIndex ==> view.guesses[j].Flag?
    ensures forall j :: 0 <= j < |view.guesses| && j != userPlayerIndex ==>
      !GetGuessText(view.guesses[j], j, userPlayerIndex, displays).GuessedValue?
  {
  }

  /** What is shown under the list of guesses. */
  datatype Footer = GameOver(secret: real) | WaitingForOthers | GuessForm | NoFooter

  function GuessFooter(view: GuessView, userPlayerIndex: int): (r: Footer)
    ensures r.GameOver? <==> !GameIsUnfinished(view.secret)
    ensures r.GameOver? ==> r.secret == view.secret.value
    ensures r == GuessForm <==>
      (GameIsUnfinished(view.secret) &&
       0 <= userPlayerIndex < |view.guesses| && view.guesses[userPlayerIndex] == Flag(false))
    ensures r == WaitingForOthers <==>
      (GameIsUnfinished(view.secret) && userPlayerIndex >= 0 &&
       PlayerHasGuessed(view.guesses, userPlayerIndex))
    ensures r == NoFooter <==> GameIsUnfinished(view.secret) && userPlayerIndex < 0
  {
    if !GameIsUnfinished(view.secret) then GameOver(view.secret.value)
    else if userPlayerIndex >= 0 then
      (if PlayerHasGuessed(view.guesses, userPlayerIndex) then WaitingForOthers else GuessForm)
    else NoFooter
  }
}
