/**
 * Data model of the race-session back end: the `games`, `players` and
 * `boats` tables, held in memory as one map from game id to a Session that
 * owns its players (in ascending primary-key order) and its boat.
 */
module GameModel {

  datatype Option<+T> = None | Some(value: T)

  /** The `status` enum of the games table. */
  datatype Status = Waiting | Ready | InProgress | Finished

  /**
   * The stored `boat_choice` string as `Number()` sees it.
   * NoChoice: `null` or the empty string, both of which `Number()` turns into 0.
   * Numeric(n): the canonical decimal text of the integer n (what `String(n)` writes).
   * NonNumeric: any text `Number()` turns into NaN or an infinity.
   */
  datatype Choice = NoChoice | Numeric(n: int) | NonNumeric

  datatype Direction = Forward | Backward

  /** A row of the players table; `id` is its auto-increment primary key. */
  datatype Player = Player(id: int, userId: int, socketId: Option<string>, boatChoice: Choice, ready: bool)

  /** A row of the boats table (one per game). */
  datatype Boat = Boat(position: int, ownerId: int, direction: Direction)

  /** A games row together with the players rows and the boats row that reference it. */
  datatype Session = Session(
    creatorId: int,
    status: Status,
    winnerId: Option<int>,
    players: seq<Player>,
    boat: Option<Boat>)

  /** The whole store; `nextPlayerId` is the players table's auto-increment counter. */
  datatype Store = Store(games: map<int, Session>, nextPlayerId: int)

  /** The error strings the controller returns, one constructor per distinct message. */
  datatype Error =
    | GameNotFound        // 'Juego no encontrado'
    | PlayerNotFound      // 'Jugador no encontrado en el juego'
    | InvalidScreen       // 'Pantalla inválida'
    | ScreenOutOfRange    // 'Pantalla fuera de rango'
    | ScreenTaken         // 'Pantalla ya seleccionada por otro jugador'
    | NotCreator          // 'Solo el creador puede iniciar'
    | NotAllChosen        // 'Aún no todos han elegido barco'
    | NotEnoughPlayers    // 'Se requieren al menos 2 jugadores'

  datatype Result<+T> = Ok(value: T) | Err(error: Error)

  /** `Number(boatChoice)` when it is finite, None when it is NaN or infinite. */
  function ScreenOf(c: Choice): (r: Option<int>)
  {
    match c
    case NoChoice => Some(0)
    case Numeric(n) => Some(n)
    case NonNumeric => None
  }

  /** The players of a game as `GamePlayer.query().where('game_id', gameId)` sees them. */
  function PlayersOf(st: Store, gameId: int): (ps: seq<Player>)
  {
    if gameId in st.games then st.games[gameId].players else []
  }

  /** Index of the first player row of `userId`, as `.where('user_id', userId).first()` finds it. */
  function FindPlayer(ps: seq<Player>, userId: int): (r: Option<nat>)
    ensures r.Some? ==> r.value < |ps| && ps[r.value].userId == userId
    ensures r.Some? ==> forall j :: 0 <= j < r.value ==> ps[j].userId != userId
    ensures r.None? <==> forall j :: 0 <= j < |ps| ==> ps[j].userId != userId
  {
    if |ps| == 0 then None
    else if ps[0].userId == userId then Some(0)
    else match FindPlayer(ps[1..], userId)
      case None => None
      case Some(i) => Some(i + 1)
  }

  /** True when some player row of the game belongs to `userId`. */
  predicate HasUser(ps: seq<Player>, userId: int)
  {
    exists j :: 0 <= j < |ps| && ps[j].userId == userId
  }

  /** Everything outside game `gameId` is as it was, and the id counter did not move. */
  predicate OnlyGameChanged(st: Store, st': Store, gameId: int)
  {
    st'.nextPlayerId == st.nextPlayerId &&
    st'.games.Keys == st.games.Keys &&
    forall h :: h in st.games && h != gameId ==> st'.games[h] == st.games[h]
  }
}
