/**
 * The shared game vocabulary: which games exist, what a legal move looks like
 * for each, and the shapes of the views the server sends to clients.
 */
module GameTypes {
  import opened Wrappers
  import opened JsValues
  import opened UserTypes

  /** The registered game types. */
  datatype GameKey = Nim | Guess

  /** The wire spelling of a game key. */
  function KeyName(k: GameKey): string {
    match k
    case Nim => "nim"
    case Guess => "guess"
  }

  /** The union of the literals 'nim' and 'guess': nothing else is a game key. */
  function ParseGameKey(v: JsValue): (r: Option<GameKey>)
    ensures r.Some? ==> v == JStr(KeyName(r.value))
    ensures r.None? ==> forall k :: v != JStr(KeyName(k))
  {
    if v == JStr("nim") then Some(Nim)
    else if v == JStr("guess") then Some(Guess)
    else None
  }

  lemma {:induction false} GameKeyRoundTrip(k: GameKey)
    ensures ParseGameKey(JStr(KeyName(k))) == Some(k)
  {
    match k
    case Nim =>
    case Guess => assert KeyName(Guess) != KeyName(Nim);
  }

  /**
   * A number schema restricted to the integers of [lo, hi]: the move schemas
   * are `number().int().gte(lo).lte(hi)`. A successful parse returns the value.
   */
  function ParseIntInRange(v: JsValue, lo: int, hi: int): (r: Option<int>)
    ensures r.Some? ==> v == IntValue(r.value) && lo <= r.value <= hi
    ensures r.None? ==> forall m: int :: lo <= m <= hi ==> v != IntValue(m)
  {
    if v.JNum? && IsInteger(v.x) && lo as real <= v.x <= hi as real then Some(v.x.Floor)
    else None
  }

  /** A Nim move removes between one and three objects. */
  function ParseNimMove(v: JsValue): (r: Option<int>)
    ensures r.Some? ==> v == IntValue(r.value) && 1 <= r.value <= 3
    ensures r.None? ==> forall m: int :: 1 <= m <= 3 ==> v != IntValue(m)
  {
    ParseIntInRange(v, 1, 3)
  }

  /** A guess is a whole number between 1 and 100. */
  function ParseGuessMove(v: JsValue): (r: Option<int>)
    ensures r.Some? ==> v == IntValue(r.value) && 1 <= r.value <= 100
    ensures r.None? ==> forall m: int :: 1 <= m <= 100 ==> v != IntValue(m)
  {
    ParseIntInRange(v, 1, 100)
  }

  /** The cases the shared schema tests check, accepted and rejected. */
  lemma MoveSchemaExamples()
    ensures ParseNimMove(JNum(1.0)) == Some(1) && ParseNimMove(JNum(2.0)) == Some(2)
    ensures ParseNimMove(JNum(3.0)) == Some(3)
    ensures ParseNimMove(JNum(0.0)).None? && ParseNimMove(JNum(4.0)).None?
    ensures ParseNimMove(JNull).None? && ParseNimMove(JNum(1.5)).None?
    ensures ParseGuessMove(JNum(1.0)) == Some(1) && ParseGuessMove(JNum(2.0)) == Some(2)
    ensures ParseGuessMove(JNum(17.0)) == Some(17)
    ensures ParseGuessMove(JNum(100.0)) == Some(100)
    ensures ParseGuessMove(JNum(0.0)).None? && ParseGuessMove(JNum(101.0)).None?
    ensures ParseGuessMove(JNum(-4.0)).None? && ParseGuessMove(JUndefined).None?
    ensures ParseGuessMove(JStr("55")).None?
  {
  }

  /** A game's lifecycle phase. */
  datatype GameStatus = Waiting | Active | Done

  function StatusName(s: GameStatus): string {
    match s
    case Waiting => "waiting"
    case Active => "active"
    case Done => "done"
  }

  /** The client's view of a Nim game. */
  datatype NimView = NimView(remaining: real, nextPlayer: int)

  /** One entry of a guessing-game view: a has-guessed flag or a revealed guess. */
  datatype GuessEntry = Flag(guessed: bool) | Number(n: real)

  /** The client's view of a guessing game; the secret is present once revealed. */
  datatype GuessView = GuessView(secret: Option<real>, guesses: seq<GuessEntry>)

  /** A view together with the tag that says which game it belongs to. */
  datatype TaggedGameView = NimTagged(nim: NimView) | GuessTagged(guess: GuessView)

  /** The tag of a tagged view. */
  function TagOf(t: TaggedGameView): (k: GameKey)
    ensures k == Nim <==> t.NimTagged?
    ensures k == Guess <==> t.GuessTagged?
  {
    match t
    case NimTagged(_) => Nim
    case GuessTagged(_) => Guess
  }

  /** What a client needs to load a game page. */
  datatype GameInfo = GameInfo(
    id: string,
    gameType: GameKey,
    status: GameStatus,
    chat: string,
    players: seq<SafeUserInfo>,
    createdAt: int,
    createdBy: SafeUserInfo,
    minPlayers: int)

  /** What a watcher receives: no view while the game is still waiting. */
  datatype GamePlayInfo = GamePlayInfo(id: string, view: Option<TaggedGameView>, players: seq<SafeUserInfo>)
}
