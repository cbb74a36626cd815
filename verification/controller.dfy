/**
 * The game controller: each operation reads a game, its players and its
 * boat from the store, applies one transition and writes it back. Every
 * operation is a function from the store to the new store and the value the
 * controller returns.
 */
module GameController {
  import opened GameModel
  import opened TurnOrder

  /** `players.length >= 2 && players.every((p) => p.ready)`. */
  predicate AllReady(ps: seq<Player>)
  {
    |ps| >= 2 && forall j :: 0 <= j < |ps| ==> ps[j].ready
  }

  /** Some player other than `userId` already holds screen `k`. */
  predicate ScreenHeldByOther(ps: seq<Player>, userId: int, k: int)
  {
    exists j :: 0 <= j < |ps| && ps[j].userId != userId && ps[j].boatChoice == Numeric(k)
  }

  /** Stores session `s` under `gameId`, leaving the id counter alone. */
  function Put(st: Store, gameId: int, s: Session): (st': Store)
    requires gameId in st.games
    ensures OnlyGameChanged(st, st', gameId) && st'.games[gameId] == s
  {
    st.(games := st.games[gameId := s])
  }

  // ---------------------------------------------------------------------
  // joinGame

  /**
   * `updateOrCreate({gameId, userId}, {socketId, ready: false})`: refreshes
   * the socket id and clears `ready` on the user's row, or appends a new row
   * with the next id and no boat choice.
   */
  function JoinGame(st: Store, gameId: int, userId: int, socketId: string): (r: (Store, Result<Player>))
    ensures gameId !in st.games ==> r == (st, Err(GameNotFound))
    ensures gameId in st.games ==> r.1.Ok? && r.0.games.Keys == st.games.Keys
    ensures gameId in st.games ==>
      var s, s', p := st.games[gameId], r.0.games[gameId], r.1.value;
      (forall h :: h in st.games && h != gameId ==> r.0.games[h] == st.games[h]) &&
      s' == s.(players := s'.players) &&
      p.userId == userId && p.socketId == Some(socketId) && !p.ready &&
      (HasUser(s.players, userId) ==>
        r.0.nextPlayerId == st.nextPlayerId &&
        exists i :: 0 <= i < |s.players| && s.players[i].userId == userId &&
          (forall j :: 0 <= j < i ==> s.players[j].userId != userId) &&
          p.id == s.players[i].id && p.boatChoice == s.players[i].boatChoice &&
          s'.players == s.players[i := p]) &&
      (!HasUser(s.players, userId) ==>
        p.id == st.nextPlayerId && p.boatChoice == NoChoice &&
        r.0.nextPlayerId == st.nextPlayerId + 1 &&
        s'.players == s.players + [p])
  {
    if gameId !in st.games then (st, Err(GameNotFound))
    else
      var s := st.games[gameId];
      match FindPlayer(s.players, userId)
      case Some(i) =>
        var p := s.players[i].(socketId := Some(socketId), ready := false);
        (Put(st, gameId, s.(players := s.players[i := p])), Ok(p))
      case None =>
        var p := Player(st.nextPlayerId, userId, Some(socketId), NoChoice, false);
        (Store(st.games[gameId := s.(players := s.players + [p])], st.nextPlayerId + 1), Ok(p))
  }

  // ---------------------------------------------------------------------
  // chooseBoat

  /**
   * Validates the requested screen and, when it is acceptable, stores its
   * canonical text and marks the player ready. Every rejection leaves the
   * store as it was.
   */
  function ChooseBoat(st: Store, gameId: int, userId: int, choice: Choice): (r: (Store, Result<Player>))
    ensures r.1.Err? ==> r.0 == st
    ensures r.1 == Err(PlayerNotFound) <==> !HasUser(PlayersOf(st, gameId), userId)
    ensures r.1 == Err(InvalidScreen) <==>
      HasUser(PlayersOf(st, gameId), userId) && (choice.NonNumeric? || ScreenOf(choice).value < 1)
    ensures r.1 == Err(ScreenOutOfRange) <==>
      HasUser(PlayersOf(st, gameId), userId) && !choice.NonNumeric? &&
      ScreenOf(choice).value > |PlayersOf(st, gameId)|
    ensures r.1 == Err(ScreenTaken) <==>
      HasUser(PlayersOf(st, gameId), userId) && !choice.NonNumeric? &&
      1 <= ScreenOf(choice).value <= |PlayersOf(st, gameId)| &&
      ScreenHeldByOther(PlayersOf(st, gameId), userId, ScreenOf(choice).value)
    ensures r.1.Ok? <==>
      HasUser(PlayersOf(st, gameId), userId) && choice.Numeric? &&
      1 <= choice.n <= |PlayersOf(st, gameId)| &&
      !ScreenHeldByOther(PlayersOf(st, gameId), userId, choice.n)
    ensures r.1.Ok? ==> gameId in st.games
    ensures r.1.Ok? ==>
      var s, p := st.games[gameId], r.1.value;
      choice.Numeric? && 1 <= choice.n <= |s.players| &&
      !ScreenHeldByOther(s.players, userId, choice.n) &&
      p.userId == userId && p.boatChoice == choice && p.ready &&
      exists i :: 0 <= i < |s.players| && s.players[i].userId == userId &&
        (forall j :: 0 <= j < i ==> s.players[j].userId != userId) &&
        p == s.players[i].(boatChoice := choice, ready := true) &&
        r.0 == Put(st, gameId, s.(players := s.players[i := p]))
  {
    var ps := PlayersOf(st, gameId);
    match FindPlayer(ps, userId)
    case None => (st, Err(PlayerNotFound))
    case Some(i) =>
      var screen := ScreenOf(choice);
      if screen.None? || screen.value < 1 then (st, Err(InvalidScreen))
      else if screen.value > |ps| then (st, Err(ScreenOutOfRange))
      else if ScreenHeldByOther(ps, userId, screen.value) then (st, Err(ScreenTaken))
      else
        var p := ps[i].(boatChoice := Numeric(screen.value), ready := true);
        (Put(st, gameId, st.games[gameId].(players := ps[i := p])), Ok(p))
  }

  // ---------------------------------------------------------------------
  // Readiness

  /** Waiting becomes Ready exactly when at least two players are all ready. */
  function MarkGameReadyIfAllReady(st: Store, gameId: int): (r: (Store, bool))
    ensures r.1 <==> gameId in st.games && st.games[gameId].status == Waiting &&
                     AllReady(st.games[gameId].players)
    ensures r.1 <==> r.0 != st
    ensures r.1 ==> r.0 == Put(st, gameId, st.games[gameId].(status := Ready))
  {
    var ps := PlayersOf(st, gameId);
    if !AllReady(ps) then (st, false)
    else if gameId !in st.games then (st, false)
    else if st.games[gameId].status != Waiting then (st, false)
    else (Put(st, gameId, st.games[gameId].(status := Ready)), true)
  }

  /** Ready falls back to Waiting exactly when the players are not all ready. */
  function MarkGameWaitingIfNotAllReady(st: Store, gameId: int): (r: (Store, bool))
    ensures r.1 <==> gameId in st.games && st.games[gameId].status == Ready &&
                     !AllReady(st.games[gameId].players)
    ensures r.1 <==> r.0 != st
    ensures r.1 ==> r.0 == Put(st, gameId, st.games[gameId].(status := Waiting))
  {
    var ps := PlayersOf(st, gameId);
    if AllReady(ps) then (st, false)
    else if gameId !in st.games then (st, false)
    else if st.games[gameId].status != Ready then (st, false)
    else (Put(st, gameId, st.games[gameId].(status := Waiting)), true)
  }

  // ---------------------------------------------------------------------
  // startGame

  /**
   * Only the creator may start, and only a Ready game. The status is written
   * before the player count is checked, so the too-few-players error leaves
   * the game InProgress without a boat.
   */
  function StartGame(st: Store, gameId: int, userId: int): (r: (Store, Result<Boat>))
    ensures gameId !in st.games ==> r == (st, Err(GameNotFound))
    ensures gameId in st.games && st.games[gameId].creatorId != userId ==> r == (st, Err(NotCreator))
    ensures (gameId in st.games && st.games[gameId].creatorId == userId &&
             st.games[gameId].status != Ready) ==> r == (st, Err(NotAllChosen))
    ensures (gameId in st.games && st.games[gameId].creatorId == userId &&
             st.games[gameId].status == Ready) ==>
      var s := st.games[gameId];
      OnlyGameChanged(st, r.0, gameId) &&
      (|s.players| < 2 ==>
        r.1 == Err(NotEnoughPlayers) && r.0.games[gameId] == s.(status := InProgress)) &&
      (|s.players| >= 2 ==>
        r.1.Ok? && r.1.value.position == 0 && r.1.value.direction == Forward &&
        r.1.value.ownerId == StartOwner(s.players) &&
        r.0.games[gameId] == s.(status := InProgress, boat := Some(r.1.value)))
  {
    if gameId !in st.games then (st, Err(GameNotFound))
    else
      var s := st.games[gameId];
      if s.creatorId != userId then (st, Err(NotCreator))
      else if s.status != Ready then (st, Err(NotAllChosen))
      else
        var started := s.(status := InProgress);
        if |s.players| < 2 then (Put(st, gameId, started), Err(NotEnoughPlayers))
        else
          var boat := Boat(0, StartOwner(s.players), Forward);
          (Put(st, gameId, started.(boat := Some(boat))), Ok(boat))
  }

  // ---------------------------------------------------------------------
  // boatTick

  datatype TickResult = Stop | Moved(boat: Boat)

  /** The step the boat advances on every tick, and the end of the lap. */
  const Step := 5
  const LapLength := 100

  /**
   * Advances the boat by one step; at the end of the lap the boat goes back
   * to 0 and passes to the next player in turn order.
   */
  function BoatTick(st: Store, gameId: int): (r: (Store, TickResult))
    ensures r.1.Stop? <==>
      gameId !in st.games || st.games[gameId].status != InProgress || st.games[gameId].boat.None? ||
      (st.games[gameId].boat.value.position + Step >= LapLength && |st.games[gameId].players| == 0)
    ensures r.1.Stop? ==> r.0 == st
    ensures r.1.Moved? ==>
      var s, b, b' := st.games[gameId], st.games[gameId].boat.value, r.1.boat;
      r.0 == Put(st, gameId, s.(boat := Some(b'))) && b'.direction == b.direction &&
      (b.position + Step < LapLength ==> b' == b.(position := b.position + Step)) &&
      (b.position + Step >= LapLength ==>
        b'.position == 0 && HasUser(s.players, b'.ownerId) &&
        b'.ownerId == NextOwner(s.players, b.ownerId))
  {
    if gameId !in st.games || st.games[gameId].status != InProgress then (st, Stop)
    else
      var s := st.games[gameId];
      match s.boat
      case None => (st, Stop)
      case Some(b) =>
        var position := b.position + Step;
        if position >= LapLength then
          if |s.players| == 0 then (st, Stop)
          else
            var b' := b.(position := 0, ownerId := NextOwner(s.players, b.ownerId));
            (Put(st, gameId, s.(boat := Some(b'))), Moved(b'))
        else
          var b' := b.(position := position);
          (Put(st, gameId, s.(boat := Some(b'))), Moved(b'))
  }

  // ---------------------------------------------------------------------
  // clickBoat

  /** The boat's owner wins by clicking; the status is not consulted. */
  function ClickBoat(st: Store, gameId: int, userId: int): (r: (Store, bool))
    ensures r.1 <==> gameId in st.games && st.games[gameId].boat.Some? &&
                     st.games[gameId].boat.value.ownerId == userId
    ensures !r.1 ==> r.0 == st
    ensures r.1 ==> r.0 == Put(st, gameId, st.games[gameId].(status := Finished, winnerId := Some(userId)))
  {
    if gameId !in st.games || st.games[gameId].boat.None? then (st, false)
    else
      var s := st.games[gameId];
      if s.boat.value.ownerId == userId then
        (Put(st, gameId, s.(status := Finished, winnerId := Some(userId))), true)
      else (st, false)
  }

  // ---------------------------------------------------------------------
  // markDisconnected

  /** The player row a socket id resolves to. */
  datatype Located = Located(gameId: int, index: nat, player: Player)

  predicate SocketAt(st: Store, socketId: string, g: int, i: int)
  {
    g in st.games && 0 <= i < |st.games[g].players| &&
    st.games[g].players[i].socketId == Some(socketId)
  }

  /** The ids of all player rows, in any game, that carry this socket id. */
  function SocketRowIds(st: Store, socketId: string): set<int>
  {
    set g, i | g in st.games && 0 <= i < |st.games[g].players| &&
               st.games[g].players[i].socketId == Some(socketId) :: st.games[g].players[i].id
  }

  lemma {:induction false} MinExists(s: set<int>)
    requires s != {}
    ensures exists m :: m in s && forall x :: x in s ==> m <= x
    decreases |s|
  {
    assert exists y :: y in s by {
      if forall y :: y !in s {
        assert false;
      }
    }
    var y :| y in s;
    if s != {y} {
      MinExists(s - {y});
      var m :| m in s - {y} && forall x :: x in s - {y} ==> m <= x;
      var least := if y < m then y else m;
      forall x | x in s ensures least <= x {
        if x != y { assert x in s - {y}; }
      }
      assert least in s;
    } else {
      assert forall x :: x in s ==> y <= x;
    }
  }

  /** The least element of a non-empty set. */
  function SetMin(s: set<int>): (m: int)
    requires s != {}
    ensures m in s && forall x :: x in s ==> m <= x
  {
    MinExists(s);
    var m :| m in s && forall x :: x in s ==> m <= x;
    m
  }

  /** Index of the first row with this socket id and this row id. */
  function FindRow(ps: seq<Player>, socketId: string, id: int): (r: Option<nat>)
    ensures r.Some? ==> r.value < |ps| && ps[r.value].socketId == Some(socketId) && ps[r.value].id == id
    ensures r.None? ==> forall j :: 0 <= j < |ps| ==> ps[j].socketId != Some(socketId) || ps[j].id != id
  {
    if |ps| == 0 then None
    else if ps[0].socketId == Some(socketId) && ps[0].id == id then Some(0)
    else match FindRow(ps[1..], socketId, id)
      case None => None
      case Some(i) => Some(i + 1)
  }

  /**
   * `GamePlayer.query().where('socket_id', socketId).first()` across all
   * games: the row with the lowest id (on equal ids, the lowest game id).
   */
  function LocateSocket(st: Store, socketId: string): (r: Option<Located>)
    ensures r.None? <==> forall g, i :: SocketAt(st, socketId, g, i) ==> false
    ensures r.Some? ==>
      var l := r.value;
      SocketAt(st, socketId, l.gameId, l.index) && l.player == st.games[l.gameId].players[l.index] &&
      forall g, i :: SocketAt(st, socketId, g, i) ==> l.player.id <= st.games[g].players[i].id
  {
    var ids := SocketRowIds(st, socketId);
    assert forall g, i :: SocketAt(st, socketId, g, i) ==> st.games[g].players[i].id in ids;
    if ids == {} then None
    else
      var m := SetMin(ids);
      var gs := set g | g in st.games && FindRow(st.games[g].players, socketId, m).Some?;
      assert gs != {} by {
        var g, i :| SocketAt(st, socketId, g, i) && st.games[g].players[i].id == m;
        assert FindRow(st.games[g].players, socketId, m).Some?;
        assert g in gs;
      }
      var g := SetMin(gs);
      var i := FindRow(st.games[g].players, socketId, m).value;
      assert SocketAt(st, socketId, g, i) && st.games[g].players[i].id == m;
      Some(Located(g, i, st.games[g].players[i]))
  }

  /**
   * Clears `ready` on the row the socket id resolves to, if there is one,
   * and returns that row as saved.
   */
  function MarkDisconnected(st: Store, socketId: string): (r: (Store, Option<Located>))
    ensures r.1.None? <==> LocateSocket(st, socketId).None?
    ensures r.1.None? ==> r.0 == st
    ensures r.1.Some? ==>
      var l, saved := LocateSocket(st, socketId).value, r.1.value;
      var s := st.games[l.gameId];
      saved.gameId == l.gameId && saved.index == l.index &&
      saved.player == l.player.(ready := false) &&
      r.0 == Put(st, l.gameId, s.(players := s.players[l.index := saved.player])) &&
      saved.gameId in r.0.games && saved.index < |r.0.games[saved.gameId].players| &&
      r.0.games[saved.gameId].players[saved.index] == saved.player && !saved.player.ready
  {
    match LocateSocket(st, socketId)
    case None => (st, None)
    case Some(l) =>
      var s := st.games[l.gameId];
      var p := l.player.(ready := false);
      (Put(st, l.gameId, s.(players := s.players[l.index := p])), Some(l.(player := p)))
  }

  // ---------------------------------------------------------------------
  // endGameAssignCreatorWinner

  /** Leaving an InProgress game ends it with the creator as winner, whoever left. */
  function EndGameAssignCreatorWinner(st: Store, gameId: int): (r: (Store, Option<int>))
    ensures r.1.Some? <==> gameId in st.games && st.games[gameId].status == InProgress
    ensures r.1.None? ==> r.0 == st
    ensures r.1.Some? ==>
      var s := st.games[gameId];
      r.1.value == s.creatorId &&
      r.0 == Put(st, gameId, s.(status := Finished, winnerId := Some(s.creatorId)))
  {
    if gameId !in st.games then (st, None)
    else
      var s := st.games[gameId];
      if s.status != InProgress then (st, None)
      else (Put(st, gameId, s.(status := Finished, winnerId := Some(s.creatorId))), Some(s.creatorId))
  }
}
