/**
 * The game controller: the create request, and the socket handlers that put a
 * connection into rooms and broadcast game state. The game engine behind it
 * (creating, joining, starting, viewing and updating games) is outside the
 * model: each handler takes the engine's answer as a parameter.
 */
module GameController {
  import opened Wrappers
  import opened JsValues
  import opened UserTypes
  import opened GameTypes
  import opened Store
  import opened UserService

  // ----- Object ids as strings -----

  /** The width of an object id's hexadecimal string. */
  const IdWidth: nat := 24

  function Pow16(w: nat): (r: nat)
    ensures r >= 1
  {
    if w == 0 then 1 else 16 * Pow16(w - 1)
  }

  function HexDigit(d: nat): char
    requires d < 16
  {
    if d < 10 then ('0' as int + d) as char else ('a' as int + d - 10) as char
  }

  /** The `w` low hexadecimal digits of `n`, most significant first. */
  function Hex(n: nat, w: nat): (r: string)
    ensures |r| == w
    ensures forall i :: 0 <= i < |r| ==> r[i] != '-'
  {
    if w == 0 then [] else Hex(n / 16, w - 1) + [HexDigit(n % 16)]
  }

  /** Distinct ids that fit the width have distinct strings. */
  lemma {:induction false} HexInjective(n: nat, m: nat, w: nat)
    requires n < Pow16(w) && m < Pow16(w)
    requires Hex(n, w) == Hex(m, w)
    ensures n == m
  {
    if w > 0 {
      var a, b := Hex(n / 16, w - 1), Hex(m / 16, w - 1);
      assert a + [HexDigit(n % 16)] == b + [HexDigit(m % 16)];
      assert a == (a + [HexDigit(n % 16)])[..w - 1];
      assert b == (b + [HexDigit(m % 16)])[..w - 1];
      assert HexDigit(n % 16) == HexDigit(m % 16) by {
        assert (a + [HexDigit(n % 16)])[w - 1] == HexDigit(n % 16);
        assert (b + [HexDigit(m % 16)])[w - 1] == HexDigit(m % 16);
      }
      assert n % 16 == m % 16;
      HexInjective(n / 16, m / 16, w - 1);
    }
  }

  function IdString(id: ObjectId): (r: string)
    ensures |r| == IdWidth
  {
    Hex(id, IdWidth)
  }

  /** An id the 24-digit string can represent. */
  predicate Representable(id: ObjectId) {
    id < Pow16(IdWidth)
  }

  // ----- Rooms -----

  /** The room that reaches only one player's connections for one game. */
  function UserRoom(gameId: string, userId: ObjectId): (r: string)
    ensures |r| == |gameId| + 1 + IdWidth
  {
    gameId + "-" + IdString(userId)
  }

  /** Two player rooms are the same room only for the same game and the same user. */
  lemma UserRoomInjective(g1: string, u1: ObjectId, g2: string, u2: ObjectId)
    requires Representable(u1) && Representable(u2)
    requires UserRoom(g1, u1) == UserRoom(g2, u2)
    ensures g1 == g2 && u1 == u2
  {
    var r := UserRoom(g1, u1);
    assert g1 == r[..|g1|] && g2 == UserRoom(g2, u2)[..|g2|];
    assert IdString(u1) == r[|g1| + 1..];
    assert IdString(u2) == UserRoom(g2, u2)[|g2| + 1..];
    HexInjective(u1, u2, IdWidth);
  }

  /** A player room is never the public room of a game whose id is at most an object id long. */
  lemma UserRoomIsNotPublic(gameId: string, userId: ObjectId, other: string)
    requires |other| <= |gameId| + IdWidth
    ensures UserRoom(gameId, userId) != other
  {
  }

  /** The rooms a watcher joins: the game's room, and their own room if they play. */
  function WatchRooms(gameId: string, isPlayer: bool, userId: ObjectId): (r: set<string>)
    ensures gameId in r
    ensures UserRoom(gameId, userId) in r <==> isPlayer
    ensures forall room :: room in r ==> room == gameId || room == UserRoom(gameId, userId)
  {
    if isPlayer then {gameId, UserRoom(gameId, userId)} else {gameId}
  }

  // ----- Messages -----

  /** One player's private view in a state update. */
  datatype PlayerUpdate = PlayerUpdate(userId: ObjectId, view: TaggedGameView)

  /** A state update from the engine: the public view and each player's view. */
  datatype ViewUpdates = ViewUpdates(watchers: TaggedGameView, players: seq<PlayerUpdate>)

  datatype Event =
    | GameWatched(id: string, view: Option<TaggedGameView>, roster: seq<SafeUserInfo>)
    | GamePlayersUpdated(players: seq<SafeUserInfo>)
    | GameStateUpdated(state: TaggedGameView, forPlayer: bool)

  /** An event sent to every connection in a room. */
  datatype Emission = Emission(room: string, event: Event)

  /** The broadcasts of one state update: the public view first, then each player's own. */
  function ViewBroadcast(gameId: string, updates: ViewUpdates): (r: seq<Emission>)
    ensures |r| == 1 + |updates.players|
  {
    [Emission(gameId, GameStateUpdated(updates.watchers, false))]
    + seq(|updates.players|, i requires 0 <= i < |updates.players| =>
        Emission(UserRoom(gameId, updates.players[i].userId), GameStateUpdated(updates.players[i].view, true)))
  }

  /** Sends the public view to the game's room and each player view to that player's room. */
  method SendViewUpdates(gameId: string, updates: ViewUpdates) returns (sent: seq<Emission>)
    ensures sent == ViewBroadcast(gameId, updates)
  {
    sent := [Emission(gameId, GameStateUpdated(updates.watchers, false))];
    for i := 0 to |updates.players|
      invariant |sent| == 1 + i
      invariant sent[0] == Emission(gameId, GameStateUpdated(updates.watchers, false))
      invariant forall j :: 0 <= j < i ==>
        sent[1 + j] == Emission(UserRoom(gameId, updates.players[j].userId), GameStateUpdated(updates.players[j].view, true))
    {
      var p := updates.players[i];
      sent := sent + [Emission(UserRoom(gameId, p.userId), GameStateUpdated(p.view, true))];
    }
  }

  /** The events a room receives, in order. */
  function ToRoom(sent: seq<Emission>, room: string): (r: seq<Event>)
    ensures |r| <= |sent|
  {
    if sent == [] then []
    else (if sent[0].room == room then [sent[0].event] else []) + ToRoom(sent[1..], room)
  }

  lemma {:induction false} ToRoomAppend(a: seq<Emission>, b: seq<Emission>, room: string)
    ensures ToRoom(a + b, room) == ToRoom(a, room) + ToRoom(b, room)
    decreases |a|
  {
    if a == [] {
      assert a + b == b;
    } else {
      var ab := a + b;
      assert ab[0] == a[0] && ab[1..] == a[1..] + b;
      var here := if a[0].room == room then [a[0].event] else [];
      assert ToRoom(ab, room) == here + ToRoom(a[1..] + b, room);
      ToRoomAppend(a[1..], b, room);
      assert ToRoom(a, room) == here + ToRoom(a[1..], room);
    }
  }

  /** The player emissions of a broadcast: one emission per player update, in order. */
  function PlayerEmissions(gameId: string, ps: seq<PlayerUpdate>): seq<Emission> {
    seq(|ps|, i requires 0 <= i < |ps| => Emission(UserRoom(gameId, ps[i].userId), GameStateUpdated(ps[i].view, true)))
  }

  lemma {:induction false} PlayerEmissionsSplit(gameId: string, ps: seq<PlayerUpdate>)
    requires ps != []
    ensures PlayerEmissions(gameId, ps) ==
      [Emission(UserRoom(gameId, ps[0].userId), GameStateUpdated(ps[0].view, true))] + PlayerEmissions(gameId, ps[1..])
  {
  }

  /** No player emission reaches a room of at most an object id's length. */
  lemma {:induction false} PlayerEmissionsMissShortRooms(gameId: string, ps: seq<PlayerUpdate>, room: string)
    requires |room| <= |gameId| + IdWidth
    ensures ToRoom(PlayerEmissions(gameId, ps), room) == []
    decreases |ps|
  {
    if ps != [] {
      PlayerEmissionsSplit(gameId, ps);
      PlayerEmissionsMissShortRooms(gameId, ps[1..], room);
    }
  }

  /** A player room receives the views addressed to that user. */
  lemma {:induction false} PlayerEmissionsToOwnRoom(gameId: string, ps: seq<PlayerUpdate>, i: nat)
    requires i < |ps|
    requires forall j :: 0 <= j < |ps| ==> Representable(ps[j].userId)
    requires forall j :: 0 <= j < |ps| && j != i ==> ps[j].userId != ps[i].userId
    ensures ToRoom(PlayerEmissions(gameId, ps), UserRoom(gameId, ps[i].userId)) == [GameStateUpdated(ps[i].view, true)]
    decreases |ps|
  {
    PlayerEmissionsSplit(gameId, ps);
    var room := UserRoom(gameId, ps[i].userId);
    if i == 0 {
      assert ToRoom(PlayerEmissions(gameId, ps[1..]), room) == [] by {
        NoOtherEmissionToRoom(gameId, ps[1..], ps[0].userId);
      }
    } else {
      if UserRoom(gameId, ps[0].userId) == room {
        UserRoomInjective(gameId, ps[0].userId, gameId, ps[i].userId);
        assert false;
      }
      PlayerEmissionsToOwnRoom(gameId, ps[1..], i - 1);
    }
  }

  /** A user that has no update in the list gets nothing in their room. */
  lemma {:induction false} NoOtherEmissionToRoom(gameId: string, ps: seq<PlayerUpdate>, userId: ObjectId)
    requires Representable(userId)
    requires forall j :: 0 <= j < |ps| ==> Representable(ps[j].userId) && ps[j].userId != userId
    ensures ToRoom(PlayerEmissions(gameId, ps), UserRoom(gameId, userId)) == []
    decreases |ps|
  {
    if ps != [] {
      PlayerEmissionsSplit(gameId, ps);
      if UserRoom(gameId, ps[0].userId) == UserRoom(gameId, userId) {
        UserRoomInjective(gameId, ps[0].userId, gameId, userId);
        assert false;
      }
      NoOtherEmissionToRoom(gameId, ps[1..], userId);
    }
  }

  /**
   * The game's room receives exactly one update, the public one; each
   * player's room receives exactly that player's view; nobody else gets any.
   */
  lemma BroadcastRouting(gameId: string, updates: ViewUpdates)
    requires forall j :: 0 <= j < |updates.players| ==> Representable(updates.players[j].userId)
    requires forall j, k :: 0 <= j < k < |updates.players| ==> updates.players[j].userId != updates.players[k].userId
    ensures ToRoom(ViewBroadcast(gameId, updates), gameId) == [GameStateUpdated(updates.watchers, false)]
    ensures forall i :: 0 <= i < |updates.players| ==>
      ToRoom(ViewBroadcast(gameId, updates), UserRoom(gameId, updates.players[i].userId))
        == [GameStateUpdated(updates.players[i].view, true)]
    ensures forall u: ObjectId :: Representable(u) && (forall j :: 0 <= j < |updates.players| ==> updates.players[j].userId != u) ==>
      ToRoom(ViewBroadcast(gameId, updates), UserRoom(gameId, u)) == []
  {
    var ps := updates.players;
    var head := [Emission(gameId, GameStateUpdated(updates.watchers, false))];
    assert ViewBroadcast(gameId, updates) == head + PlayerEmissions(gameId, ps);
    ToRoomAppend(head, PlayerEmissions(gameId, ps), gameId);
    PlayerEmissionsMissShortRooms(gameId, ps, gameId);
    assert ToRoom(head, gameId) == [GameStateUpdated(updates.watchers, false)] by {
      assert head[1..] == [];
    }
    forall i | 0 <= i < |ps|
      ensures ToRoom(ViewBroadcast(gameId, updates), UserRoom(gameId, ps[i].userId)) == [GameStateUpdated(ps[i].view, true)]
    {
      var room := UserRoom(gameId, ps[i].userId);
      ToRoomAppend(head, PlayerEmissions(gameId, ps), room);
      assert head[1..] == [];
      PlayerEmissionsToOwnRoom(gameId, ps, i);
    }
    forall u: ObjectId | Representable(u) && (forall j :: 0 <= j < |ps| ==> ps[j].userId != u)
      ensures ToRoom(ViewBroadcast(gameId, updates), UserRoom(gameId, u)) == []
    {
      var room := UserRoom(gameId, u);
      ToRoomAppend(head, PlayerEmissions(gameId, ps), room);
      assert head[1..] == [];
      NoOtherEmissionToRoom(gameId, ps, u);
    }
  }

  // ----- The create request -----

  datatype CreateResponse =
    | BadRequest(error: string)
    | Forbidden(error: string)
    /** The caller's game of this kind is created and returned. */
    | CreateGame(user: UserWithId, key: GameKey)

  /**
   * POST /api/game/create. `auth` is the parsed credentials, none when the
   * body's auth part is malformed; `payload` is the body's payload.
   */
  function PostCreate(users: map<string, UserDoc>, auth: Option<UserAuth>, payload: JsValue): (r: CreateResponse)
    ensures r.BadRequest? <==> auth.None? || ParseGameKey(payload).None?
    ensures r.BadRequest? ==> r.error == "Poorly-formed request"
    ensures r.Forbidden? <==> auth.Some? && ParseGameKey(payload).Some? && CheckAuth(users, auth.value).None?
    ensures r.Forbidden? ==> r.error == "Invalid credentials"
    ensures r.CreateGame? ==>
      && auth.Some? && auth.value.username in users && users[auth.value.username].password == auth.value.password
      && r.user == UserWithId(users[auth.value.username].id, auth.value.username)
      && payload == JStr(KeyName(r.key))
  {
    if auth.None? || ParseGameKey(payload).None? then BadRequest("Poorly-formed request")
    else
      match CheckAuth(users, auth.value)
      case None => Forbidden("Invalid credentials")
      case Some(user) => CreateGame(user, ParseGameKey(payload).value)
  }

  /** The create request's cases as the API tests exercise them. */
  lemma PostCreateExamples(users: map<string, UserDoc>)
    requires "user3" in users && users["user3"].password == "pwd3"
    ensures PostCreate(users, Some(UserAuth("user3", "pwd3")), JNum(9.0)).BadRequest?
    ensures PostCreate(users, Some(UserAuth("user3", "pwd3")), JStr("gameThatDoesNotExist")).BadRequest?
    ensures PostCreate(users, Some(UserAuth("user3", "user3")), JStr("nim")).Forbidden?
    ensures PostCreate(users, Some(UserAuth("user3", "pwd3")), JStr("nim")) == CreateGame(UserWithId(users["user3"].id, "user3"), Nim)
  {
    assert ParseGameKey(JStr("nim")) == Some(Nim) by { GameKeyRoundTrip(Nim); }
  }

  // ----- Socket handlers -----

  /** A socket request body: credentials and a payload. */
  datatype Body<P> = Body(auth: UserAuth, payload: P)

  /** The parts of a make-move request. */
  datatype MovePayload = MovePayload(gameId: string, move: JsValue)

  /** What the engine answers a watcher. */
  datatype WatchView = WatchView(isPlayer: bool, view: Option<TaggedGameView>, players: seq<SafeUserInfo>)

  /** Why a handler gave up; each is logged and nothing more is sent. */
  datatype HandlerError = ParseError | AuthError(message: string) | EngineError(message: string)

  /** One client connection, with the broadcasts the server sends on its behalf. */
  class Connection {
    var rooms: set<string>
    /** Events sent to this connection alone. */
    var received: seq<Event>
    /** Events sent to rooms, to every connection in them. */
    var broadcasts: seq<Emission>
    var errors: seq<HandlerError>

    constructor ()
      ensures rooms == {} && received == [] && broadcasts == [] && errors == []
    {
      rooms, received, broadcasts, errors := {}, [], [], [];
    }

    /** The error logged when the body or the caller is refused. */
    static function AuthFailure<P>(body: Option<Body<P>>): HandlerError {
      if body.None? then ParseError else AuthError("Invalid auth")
    }

    /**
     * Resolves the body and the caller: none, with the error logged, when the
     * body is malformed or the credentials are wrong.
     */
    method Authenticate<P>(users: map<string, UserDoc>, body: Option<Body<P>>) returns (caller: Option<UserWithId>)
      modifies this`errors
      ensures body.None? ==> caller.None? && errors == old(errors) + [ParseError]
      ensures body.Some? && CheckAuth(users, body.value.auth).None? ==>
        caller.None? && errors == old(errors) + [AuthError("Invalid auth")]
      ensures body.Some? && CheckAuth(users, body.value.auth).Some? ==>
        caller == CheckAuth(users, body.value.auth) && errors == old(errors)
    {
      if body.None? {
        errors := errors + [ParseError];
        return None;
      }
      var user := EnforceAuth(users, body.value.auth);
      if user.Failure? {
        errors := errors + [AuthError(user.error)];
        return None;
      }
      return Some(user.value);
    }

    /** `gameWatch`: `viewed` is the engine's view of the game for the caller. */
    method Watch(users: map<string, UserDoc>, body: Option<Body<string>>, viewed: Result<WatchView>)
      modifies this`rooms, this`received, this`errors
      ensures var caller := if body.Some? then CheckAuth(users, body.value.auth) else None;
        && (caller.None? ==> rooms == old(rooms) && received == old(received) && errors == old(errors) + [AuthFailure(body)])
        && (caller.Some? && viewed.Failure? ==>
              rooms == old(rooms) && received == old(received) && errors == old(errors) + [EngineError(viewed.error)])
        && (caller.Some? && viewed.Success? ==>
              && rooms == old(rooms) + WatchRooms(body.value.payload, viewed.value.isPlayer, caller.value.id)
              && received == old(received) + [GameWatched(body.value.payload, viewed.value.view, viewed.value.players)]
              && errors == old(errors))
    {
      var caller := Authenticate(users, body);
      if caller.None? {
        return;
      }
      if viewed.Failure? {
        errors := errors + [EngineError(viewed.error)];
        return;
      }
      var gameId := body.value.payload;
      rooms := rooms + WatchRooms(gameId, viewed.value.isPlayer, caller.value.id);
      received := received + [GameWatched(gameId, viewed.value.view, viewed.value.players)];
    }

    /** Records a state update, or logs the engine's error. */
    method Broadcast(gameId: string, updates: Result<ViewUpdates>)
      modifies this`broadcasts, this`errors
      ensures updates.Success? ==> broadcasts == old(broadcasts) + ViewBroadcast(gameId, updates.value) && errors == old(errors)
      ensures updates.Failure? ==> broadcasts == old(broadcasts) && errors == old(errors) + [EngineError(updates.error)]
    {
      if updates.Failure? {
        errors := errors + [EngineError(updates.error)];
        return;
      }
      var sent := SendViewUpdates(gameId, updates.value);
      broadcasts := broadcasts + sent;
    }

    /**
     * `joinAsPlayer`: `joined` is the roster after the engine's join,
     * `maxPlayers` the game type's limit and `started` the engine's answer if
     * the game is then started.
     */
    method JoinAsPlayer(users: map<string, UserDoc>, body: Option<Body<string>>,
                        joined: Result<seq<SafeUserInfo>>, maxPlayers: nat, started: Result<ViewUpdates>)
      modifies this`rooms, this`broadcasts, this`errors
      ensures var caller := if body.Some? then CheckAuth(users, body.value.auth) else None;
        && (caller.None? ==> rooms == old(rooms) && broadcasts == old(broadcasts) && errors == old(errors) + [AuthFailure(body)])
        && (caller.Some? && joined.Failure? ==>
              rooms == old(rooms) && broadcasts == old(broadcasts) && errors == old(errors) + [EngineError(joined.error)])
        && (caller.Some? && joined.Success? ==>
              var gameId := body.value.payload;
              var announced := old(broadcasts) + [Emission(gameId, GamePlayersUpdated(joined.value))];
              && rooms == old(rooms) + {UserRoom(gameId, caller.value.id)}
              && (|joined.value| != maxPlayers ==> broadcasts == announced && errors == old(errors))
              && (|joined.value| == maxPlayers && started.Success? ==>
                    broadcasts == announced + ViewBroadcast(gameId, started.value) && errors == old(errors))
              && (|joined.value| == maxPlayers && started.Failure? ==>
                    broadcasts == announced && errors == old(errors) + [EngineError(started.error)]))
    {
      var caller := Authenticate(users, body);
      if caller.None? {
        return;
      }
      if joined.Failure? {
        errors := errors + [EngineError(joined.error)];
        return;
      }
      var gameId := body.value.payload;
      broadcasts := broadcasts + [Emission(gameId, GamePlayersUpdated(joined.value))];
      var room := UserRoom(gameId, caller.value.id);
      if room !in rooms {
        rooms := rooms + {room};
      }
      if |joined.value| == maxPlayers {
        Broadcast(gameId, started);
      }
    }

    /** `gameStart`: `started` is the engine's answer. */
    method Start(users: map<string, UserDoc>, body: Option<Body<string>>, started: Result<ViewUpdates>)
      modifies this`broadcasts, this`errors
      ensures var caller := if body.Some? then CheckAuth(users, body.value.auth) else None;
        && (caller.None? ==> broadcasts == old(broadcasts) && errors == old(errors) + [AuthFailure(body)])
        && (caller.Some? && started.Success? ==>
              broadcasts == old(broadcasts) + ViewBroadcast(body.value.payload, started.value) && errors == old(errors))
        && (caller.Some? && started.Failure? ==>
              broadcasts == old(broadcasts) && errors == old(errors) + [EngineError(started.error)])
    {
      var caller := Authenticate(users, body);
      if caller.None? {
        return;
      }
      Broadcast(body.value.payload, started);
    }

    /** `makeMove`: `updated` is the engine's answer to the move. */
    method MakeMove(users: map<string, UserDoc>, body: Option<Body<MovePayload>>, updated: Result<ViewUpdates>)
      modifies this`broadcasts, this`errors
      ensures var caller := if body.Some? then CheckAuth(users, body.value.auth) else None;
        && (caller.None? ==> broadcasts == old(broadcasts) && errors == old(errors) + [AuthFailure(body)])
        && (caller.Some? && updated.Success? ==>
              broadcasts == old(broadcasts) + ViewBroadcast(body.value.payload.gameId, updated.value) && errors == old(errors))
        && (caller.Some? && updated.Failure? ==>
              broadcasts == old(broadcasts) && errors == old(errors) + [EngineError(updated.error)])
    {
      var caller := Authenticate(users, body);
      if caller.None? {
        return;
      }
      Broadcast(body.value.payload.gameId, updated);
    }
  }

  /** Joining twice leaves the connection in the same rooms as joining once. */
  method JoinTwiceSameRooms(c: Connection, users: map<string, UserDoc>, body: Body<string>,
                            roster: seq<SafeUserInfo>, maxPlayers: nat, started: Result<ViewUpdates>)
    requires CheckAuth(users, body.auth).Some?
    modifies c
    ensures c.rooms == old(c.rooms) + {UserRoom(body.payload, CheckAuth(users, body.auth).value.id)}
  {
    c.JoinAsPlayer(users, Some(body), Success(roster), maxPlayers, started);
    var once := c.rooms;
    c.JoinAsPlayer(users, Some(body), Success(roster), maxPlayers, started);
    assert c.rooms == once;
  }
}
