/**
 * The real-time server: the registry of running boat loops and the socket
 * handlers, each a composition of controller operations followed by the
 * messages it emits. Rooms are identified by game id; a message goes either
 * back to the socket that sent the request or to everyone in a game's room.
 */
module SocketServer {
  import opened GameModel
  import opened TurnOrder
  import opened GameController
  import opened SessionInvariants

  /** The payload of each message the server emits, named after its socket event. */
  datatype Message =
    | ErrorMsg(error: Error)
    | SyncGame(creatorId: int, status: Status, winnerId: Option<int>, players: seq<Player>)
    | PlayerJoined(userId: int)
    | PlayerReady(userId: int, boatChoice: Choice)
    | GameReady(gameId: int)
    | Start(boat: Boat)
    | UpdateBoat(boat: Boat)
    | Winner(winner: int)
    | PlayerNotReady(userId: int)
    | GameWaiting(gameId: int)

  /** Who receives a message: the requesting socket, or the room `game:<gameId>`. */
  datatype Event = ToSender(msg: Message) | ToRoom(gameId: int, msg: Message)

  /** The `syncGame` payload: the game row with its players preloaded (the boat is not). */
  function Sync(s: Session): (m: Message)
  {
    SyncGame(s.creatorId, s.status, s.winnerId, s.players)
  }

  /**
   * One running interval per game: a game is in `gameLoops` exactly while it
   * is in progress. Together with the store invariant this means a loop's
   * tick always finds a boat to move.
   */
  class GameServer {
    var store: Store
    var gameLoops: set<int>

    ghost predicate Valid()
      reads this
    {
      ValidStore(store) && gameLoops == Running(store)
    }

    /**
     * The server starts with no loops. The invariant needs a store with no
     * game in progress: a game left InProgress would have no interval.
     */
    constructor (initial: Store)
      requires ValidStore(initial)
      requires Running(initial) == {}
      ensures Valid() && store == initial && gameLoops == {}
    {
      store := initial;
      gameLoops := {};
    }

    /** `startBoatLoop`: registers an interval for the game unless one is already running. */
    method StartBoatLoop(gameId: int)
      modifies this
      ensures store == old(store)
      ensures gameLoops == old(gameLoops) + {gameId}
    {
      if gameId in gameLoops {
        return;
      }
      gameLoops := gameLoops + {gameId};
    }

    /**
     * One firing of a game's interval: a stopped tick clears the interval,
     * a move is broadcast to the room.
     */
    method LoopTick(gameId: int) returns (events: seq<Event>)
      requires gameId in gameLoops
      modifies this
      ensures var r := BoatTick(old(store), gameId);
        store == r.0 &&
        (r.1.Stop? ==> gameLoops == old(gameLoops) - {gameId} && events == []) &&
        (r.1.Moved? ==> gameLoops == old(gameLoops) && events == [ToRoom(gameId, UpdateBoat(r.1.boat))])
      ensures old(Valid()) ==> Valid() && BoatTick(old(store), gameId).1.Moved?
    {
      if Valid() {
        TickValid(store, gameId);
      }
      var r := BoatTick(store, gameId);
      store := r.0;
      if r.1.Stop? {
        gameLoops := gameLoops - {gameId};
        events := [];
        return;
      }
      events := [ToRoom(gameId, UpdateBoat(r.1.boat))];
    }

    /** `join`: records the socket on the player's row and syncs the newcomer. */
    method Join(gameId: int, userId: int, socketId: string) returns (events: seq<Event>)
      requires Valid()
      modifies this
      ensures Valid() && gameLoops == old(gameLoops)
      ensures gameId == 0 || userId == 0 ==> store == old(store) && events == []
      ensures gameId != 0 && userId != 0 ==>
        var r := JoinGame(old(store), gameId, userId, socketId);
        store == r.0 &&
        (r.1.Err? ==> events == [ToSender(ErrorMsg(r.1.error))]) &&
        (r.1.Ok? ==> events == [ToSender(Sync(r.0.games[gameId])), ToRoom(gameId, PlayerJoined(userId))])
    {
      if gameId == 0 || userId == 0 {
        return [];
      }
      JoinGameValid(store, gameId, userId, socketId);
      var r := JoinGame(store, gameId, userId, socketId);
      store := r.0;
      if r.1.Err? {
        return [ToSender(ErrorMsg(r.1.error))];
      }
      events := [ToSender(Sync(store.games[gameId])), ToRoom(gameId, PlayerJoined(userId))];
    }

    /** `leaveGame`: a running game ends with its creator as winner and its loop stops. */
    method LeaveGame(gameId: int) returns (events: seq<Event>)
      requires Valid()
      modifies this
      ensures Valid()
      ensures gameId == 0 ==> store == old(store) && gameLoops == old(gameLoops) && events == []
      ensures gameId != 0 ==>
        var r := EndGameAssignCreatorWinner(old(store), gameId);
        store == r.0 &&
        (r.1.None? ==> gameLoops == old(gameLoops) && events == []) &&
        (r.1.Some? ==> gameLoops == old(gameLoops) - {gameId} && events == [ToRoom(gameId, Winner(r.1.value))])
    {
      if gameId == 0 {
        return [];
      }
      EndGameValid(store, gameId);
      var r := EndGameAssignCreatorWinner(store, gameId);
      store := r.0;
      events := [];
      if r.1.Some? {
        gameLoops := gameLoops - {gameId};
        events := [ToRoom(gameId, Winner(r.1.value))];
      }
    }

    /** `chooseBoat`: takes the screen, announces it, and marks the game Ready when all are. */
    method ChooseBoat(gameId: int, userId: int, choice: Choice) returns (events: seq<Event>)
      requires Valid()
      modifies this
      ensures Valid() && gameLoops == old(gameLoops)
      ensures gameId == 0 || userId == 0 ==> store == old(store) && events == []
      ensures gameId != 0 && userId != 0 ==>
        var r := GameController.ChooseBoat(old(store), gameId, userId, choice);
        var ready := MarkGameReadyIfAllReady(r.0, gameId);
        (r.1.Err? ==> store == old(store) && events == [ToSender(ErrorMsg(r.1.error))]) &&
        (r.1.Ok? ==> (store == ready.0 &&
          events == [ToRoom(gameId, PlayerReady(userId, choice))] +
                    (if ready.1 then [ToRoom(gameId, GameReady(gameId))] else [])))
    {
      if gameId == 0 || userId == 0 {
        return [];
      }
      var st := store;
      ChooseBoatValid(st, gameId, userId, choice);
      ChooseBoatRunning(st, gameId, userId, choice);
      var r := GameController.ChooseBoat(st, gameId, userId, choice);
      if r.1.Err? {
        return [ToSender(ErrorMsg(r.1.error))];
      }
      MarkGameReadyValid(r.0, gameId);
      ReadyRunning(r.0, gameId);
      var ready := MarkGameReadyIfAllReady(r.0, gameId);
      store := ready.0;
      events := [ToRoom(gameId, PlayerReady(userId, choice))] +
                (if ready.1 then [ToRoom(gameId, GameReady(gameId))] else []);
    }

    /** `startGame`: the creator starts a Ready game; the boat is announced and its loop started. */
    method StartGame(gameId: int, userId: int) returns (events: seq<Event>)
      requires Valid()
      modifies this
      ensures Valid()
      ensures gameId == 0 || userId == 0 ==> store == old(store) && gameLoops == old(gameLoops) && events == []
      ensures gameId != 0 && userId != 0 ==>
        var r := GameController.StartGame(old(store), gameId, userId);
        store == r.0 &&
        (r.1.Err? ==> gameLoops == old(gameLoops) && events == [ToSender(ErrorMsg(r.1.error))]) &&
        (r.1.Ok? ==> gameLoops == old(gameLoops) + {gameId} && events == [ToRoom(gameId, Start(r.1.value))])
    {
      if gameId == 0 || userId == 0 {
        return [];
      }
      StartGameValid(store, gameId, userId);
      StartGameNeverTooFew(store, gameId, userId);
      var r := GameController.StartGame(store, gameId, userId);
      store := r.0;
      if r.1.Err? {
        return [ToSender(ErrorMsg(r.1.error))];
      }
      events := [ToRoom(gameId, Start(r.1.value))];
      StartBoatLoop(gameId);
    }

    /** `clickBoat`: the boat's owner wins; the loop stops and the room learns the winner. */
    method ClickBoat(gameId: int, userId: int) returns (events: seq<Event>)
      requires Valid()
      modifies this
      ensures Valid()
      ensures gameId == 0 || userId == 0 ==> store == old(store) && gameLoops == old(gameLoops) && events == []
      ensures gameId != 0 && userId != 0 ==>
        var r := GameController.ClickBoat(old(store), gameId, userId);
        store == r.0 &&
        (!r.1 ==> gameLoops == old(gameLoops) && events == []) &&
        (r.1 ==> gameLoops == old(gameLoops) - {gameId} && events == [ToRoom(gameId, Winner(userId))])
    {
      if gameId == 0 || userId == 0 {
        return [];
      }
      ClickBoatValid(store, gameId, userId);
      var r := GameController.ClickBoat(store, gameId, userId);
      store := r.0;
      events := [];
      if r.1 {
        gameLoops := gameLoops - {gameId};
        events := [ToRoom(gameId, Winner(userId))];
      }
    }

    /** `disconnect`: the socket's player is no longer ready, and a Ready game falls back. */
    method Disconnect(socketId: string) returns (events: seq<Event>)
      requires Valid()
      modifies this
      ensures Valid() && gameLoops == old(gameLoops)
      ensures var r := MarkDisconnected(old(store), socketId);
        (r.1.None? ==> store == old(store) && events == []) &&
        (r.1.Some? ==>
          var g := r.1.value.gameId;
          var waiting := MarkGameWaitingIfNotAllReady(r.0, g);
          store == waiting.0 &&
          events == [ToRoom(g, PlayerNotReady(r.1.value.player.userId))] +
                    (if waiting.1 then [ToRoom(g, GameWaiting(g))] else []))
    {
      var st := store;
      MarkDisconnectedValid(st, socketId);
      DisconnectRunning(st, socketId);
      var r := MarkDisconnected(st, socketId);
      if r.1.None? {
        return [];
      }
      var g := r.1.value.gameId;
      MarkGameWaitingValid(r.0, g);
      WaitingRunning(r.0, g);
      var waiting := MarkGameWaitingIfNotAllReady(r.0, g);
      store := waiting.0;
      events := [ToRoom(g, PlayerNotReady(r.1.value.player.userId))] +
                (if waiting.1 then [ToRoom(g, GameWaiting(g))] else []);
    }
  }

  /** Choosing a screen starts or stops no race. */
  lemma ChooseBoatRunning(st: Store, gameId: int, userId: int, choice: Choice)
    ensures Running(GameController.ChooseBoat(st, gameId, userId, choice).0) == Running(st)
  {
    var r := GameController.ChooseBoat(st, gameId, userId, choice);
    if r.1.Ok? {
      var s := st.games[gameId];
      var i :| 0 <= i < |s.players| && r.0 == Put(st, gameId, s.(players := s.players[i := r.1.value]));
      RunningPut(st, gameId, s.(players := s.players[i := r.1.value]));
    }
  }

  /** Promotion to Ready starts or stops no race. */
  lemma ReadyRunning(st: Store, gameId: int)
    ensures Running(MarkGameReadyIfAllReady(st, gameId).0) == Running(st)
  {
    if MarkGameReadyIfAllReady(st, gameId).1 {
      RunningPut(st, gameId, st.games[gameId].(status := Ready));
    }
  }

  /** Marking a socket's player not ready starts or stops no race. */
  lemma DisconnectRunning(st: Store, socketId: string)
    ensures Running(MarkDisconnected(st, socketId).0) == Running(st)
  {
    var r := MarkDisconnected(st, socketId);
    if r.1.Some? {
      var g := r.1.value.gameId;
      RunningPut(st, g, r.0.games[g]);
    }
  }

  /** Falling back to Waiting starts or stops no race. */
  lemma WaitingRunning(st: Store, gameId: int)
    ensures Running(MarkGameWaitingIfNotAllReady(st, gameId).0) == Running(st)
  {
    if MarkGameWaitingIfNotAllReady(st, gameId).1 {
      RunningPut(st, gameId, st.games[gameId].(status := Waiting));
    }
  }

  /** The games whose race is running. */
  function Running(st: Store): (games: set<int>)
  {
    set g | g in st.games && st.games[g].status == InProgress
  }

  /** Writing one session changes the running set only at that game. */
  lemma RunningPut(st: Store, gameId: int, s: Session)
    requires gameId in st.games
    ensures Running(Put(st, gameId, s)) ==
      if s.status == InProgress then Running(st) + {gameId} else Running(st) - {gameId}
  {
  }

  /**
   * A tick of a running game in a valid store always moves the boat and
   * keeps the store valid: a loop never stops by itself while its race runs.
   */
  lemma TickValid(st: Store, gameId: int)
    requires ValidStore(st) && gameId in st.games && st.games[gameId].status == InProgress
    ensures BoatTick(st, gameId).1.Moved?
    ensures ValidStore(BoatTick(st, gameId).0)
    ensures BoatTick(st, gameId).0.games[gameId].status == InProgress
  {
    assert ValidSession(st.games[gameId], st.nextPlayerId);
    BoatTickValid(st, gameId);
  }
}
