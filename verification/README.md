# Boat race sessions

A Dafny model of the back end of a multiplayer "click the boat" game. Players
join a game, each picks a distinct screen number and becomes ready. When
everyone is ready the game is Ready, and its creator can start the race. A
boat then moves across the screens, five units per tick. At the end of each
100-unit lap it passes to the next player in screen order. The player who
owns the boat wins by clicking it. If a player leaves a running game, the
creator is declared winner.

The model has two layers, following the repository:

- `game.controller.ts` (files `model.dfy`, `turn_order.dfy` and
  `controller.dfy`). Every controller operation is a function from the
  store to the new store and the value it returns.
  - The store holds the `games`, `players` and `boats` tables as one map
    from game id to a `Session`. A session owns its player rows, in primary-key
    order, and its boat.
  - The players table's auto-increment counter is `nextPlayerId`.
  - A player's `boat_choice` text is kept as what `Number()` makes of it:
    - `NoChoice` stands for `null` or the empty string, both of which read as 0;
    - `Numeric(n)` is the canonical decimal text of `n`;
    - `NonNumeric` is any text that reads as NaN or an infinity.
- `socket.ts` (file `socket.dfy`). The class `GameServer` holds the store and
  the `gameLoops` registry. It has one method per socket handler and one for a
  firing of a game's interval. Each method returns the messages it emits,
  addressed either to the requesting socket or to a game's room.

What is proved:

- `invariants.dfy`: a store invariant that every operation preserves. It
  requires:
  - one row per user in a game, with ascending ids below the counter;
  - distinct numeric screens in 1..player count;
  - at least two players in a Ready game;
  - in a started game, a boat at a multiple of 5 below 100, heading forward
    and owned by a player;
  - in a finished game, a winner who is a player or the creator.
- `laws.dfy`: laws that relate several operations:
  - the boat's progress over n ticks and over whole laps;
  - fairness: every player holds the boat within n laps, and after n laps the
    store is back where it started;
  - idempotence of joining and of choosing;
  - the race for a screen between two players;
  - readiness flips;
  - places where the controller does not guard itself.
- `socket.dfy`: the server keeps the invariant. When the server starts over
  a store with no game in progress, a game then has a running interval
  exactly while it is in progress. So an interval never stops by itself; only
  a click or a player leaving stops it.

## Model

| member | source | states |
|---|---|---|
| GameModel.FindPlayer | backEnd/app/controllers/game.controller.ts:22-27 | `.where('user_id').first()`: the first row of the user; nothing exactly when no row has that user |
| TurnOrder.WithScreenEmpty | backEnd/app/controllers/game.controller.ts:78-80 | the with-screen filter is empty exactly when no player has a numeric screen |
| TurnOrder.SortPermutes | backEnd/app/controllers/game.controller.ts:81 | the sort by screen returns a permutation of its input |
| TurnOrder.SortSorted | backEnd/app/controllers/game.controller.ts:81 | the sort by screen returns players in ascending screen order |
| TurnOrder.SortStable | backEnd/app/controllers/game.controller.ts:81 | the sort is stable: players with equal screens keep their id order |
| TurnOrder.SortUnique | backEnd/app/controllers/game.controller.ts:81 | sorting keeps user ids distinct |
| TurnOrder.OrderedCorrect | backEnd/app/controllers/game.controller.ts:115-123 | `orderedPlayers` is a permutation of the players: first those with a screen, sorted and stable, then the rest in id order |
| TurnOrder.OrderedMembers | backEnd/app/controllers/game.controller.ts:115-123 | the turn order has the same length and exactly the same users as the players |
| TurnOrder.OrderedUnique | backEnd/app/controllers/game.controller.ts:115-123 | distinct users stay distinct in the turn order |
| TurnOrder.SortHeadIsFirstLowest | backEnd/app/controllers/game.controller.ts:78-83 | the head of the sorted list is the earliest player holding the lowest screen |
| TurnOrder.StartOwner | backEnd/app/controllers/game.controller.ts:76-83 | the starting owner is the earliest player with the lowest screen, or the first player when nobody has a screen; always a player of the game |
| TurnOrder.IndexOfUser | backEnd/app/controllers/game.controller.ts:125 | `findIndex`: the first position of the user, -1 exactly when absent |
| TurnOrder.NextOwner | backEnd/app/controllers/game.controller.ts:125-128 | the next owner is a player; an owner who is not a player hands over to the head of the order |
| TurnOrder.NextOwnerStep | backEnd/app/controllers/game.controller.ts:125-128 | with distinct users, a lap moves the boat exactly one place along the order, wrapping at the end |
| TurnOrder.RotateCycles | backEnd/app/controllers/game.controller.ts:111-128 | m laps (m at most the player count) move the boat m places along the turn order, wrapping |
| GameController.Put | backEnd/app/controllers/game.controller.ts:59-60 | saving one game leaves every other game and the id counter unchanged |
| GameController.JoinGame | backEnd/app/controllers/game.controller.ts:9-19 | missing game is an error with no change; otherwise upsert on (game, user): the user's row (the first by id; the only one in a valid store) gets the socket and loses `ready`, keeping id and choice; or a new row with the next id, no choice, not ready is appended |
| GameController.ChooseBoat | backEnd/app/controllers/game.controller.ts:21-48 | each error (player missing, invalid, out of range, taken by another user) holds exactly under its condition in source order and changes nothing; it succeeds exactly when the user has a row and the choice is a free screen in 1..player count; on success the user's first row holds the canonical screen and is ready |
| GameController.MarkGameReadyIfAllReady | backEnd/app/controllers/game.controller.ts:50-62 | changes the store exactly when the game is Waiting with at least two players all ready, and then only its status becomes Ready |
| GameController.MarkGameWaitingIfNotAllReady | backEnd/app/controllers/game.controller.ts:159-171 | changes the store exactly when the game is Ready and not all ready, and then only its status becomes Waiting |
| GameController.StartGame | backEnd/app/controllers/game.controller.ts:64-100 | errors in source order (missing, not creator, not Ready) change nothing; else the game becomes InProgress, and with fewer than two players that is all (the late check); otherwise the boat is at 0, forward, owned by the starting owner |
| GameController.BoatTick | backEnd/app/controllers/game.controller.ts:102-133 | stops exactly when the game is missing, not in progress, boatless, or at the lap's end with no players, changing nothing; otherwise advances 5, or at 100 returns to 0 with the next owner |
| GameController.ClickBoat | backEnd/app/controllers/game.controller.ts:135-147 | the clicker wins exactly when the game has a boat they own, whatever the status; the game is then Finished with them as winner |
| GameController.LocateSocket | backEnd/app/controllers/game.controller.ts:150-151 | finds a row with the socket, in any game, with the lowest id; nothing exactly when no row has it |
| GameController.MarkDisconnected | backEnd/app/controllers/game.controller.ts:149-156 | the located row, and only it, is marked not ready and saved, and that saved row (not ready) is returned; without one nothing changes and nothing is returned |
| GameController.EndGameAssignCreatorWinner | backEnd/app/controllers/game.controller.ts:173-182 | changes exactly a game in progress, to Finished with the creator as winner, and returns the creator |
| SessionInvariants.NewGameValid | backEnd/app/controllers/game.http.controller.ts:9 | a newly created Waiting game with no players satisfies the invariant |
| SessionInvariants.SameUsersAfterUpdate | backEnd/app/controllers/game.controller.ts:43-45 | rewriting a row without touching its id or user keeps the users, their uniqueness and id order |
| SessionInvariants.ScreensAfterUpdate | backEnd/app/controllers/game.controller.ts:153-154 | rewriting a row without touching its choice keeps the screens valid |
| SessionInvariants.StatusAfterUpdate | backEnd/app/controllers/game.controller.ts:153-154 | rewriting a row without touching its id or user keeps the status invariant |
| SessionInvariants.JoinGameValid | backEnd/app/controllers/game.controller.ts:9-19 | joining keeps the store valid; in particular a user never gets a second row |
| SessionInvariants.AppendValid | backEnd/app/controllers/game.controller.ts:13-16 | the row `updateOrCreate` creates for a user not yet in the game, with the next id and no choice, keeps the session valid |
| SessionInvariants.ChooseBoatValid | backEnd/app/controllers/game.controller.ts:21-48 | choosing keeps the screens distinct and in range |
| SessionInvariants.MarkGameReadyValid | backEnd/app/controllers/game.controller.ts:50-62 | becoming Ready keeps the store valid (a Ready game has two players) |
| SessionInvariants.MarkGameWaitingValid | backEnd/app/controllers/game.controller.ts:159-171 | falling back to Waiting keeps the store valid |
| SessionInvariants.StartGameValid | backEnd/app/controllers/game.controller.ts:64-100 | starting keeps the store valid: the boat is owned by a player |
| SessionInvariants.StartGameNeverTooFew | backEnd/app/controllers/game.controller.ts:70-74 | in a valid store the too-few-players error, which leaves a game running without a boat, cannot occur |
| SessionInvariants.BoatTickValid | backEnd/app/controllers/game.controller.ts:102-133 | a tick keeps the boat at a multiple of 5 below 100, owned by a player |
| SessionInvariants.ClickBoatValid | backEnd/app/controllers/game.controller.ts:135-147 | a winning click keeps the store valid (the winner is a player) |
| SessionInvariants.MarkDisconnectedValid | backEnd/app/controllers/game.controller.ts:149-156 | disconnecting keeps the store valid |
| SessionInvariants.EndGameValid | backEnd/app/controllers/game.controller.ts:173-182 | ending with the creator as winner keeps the store valid |
| SessionLaws.TicksAdd | backEnd/start/socket.ts:35-43 | m ticks followed by n ticks are m + n ticks |
| SessionLaws.TicksAdvance | backEnd/app/controllers/game.controller.ts:109-131 | within a lap, n ticks move the boat 5n and change nothing else |
| SessionLaws.LapEnd | backEnd/app/controllers/game.controller.ts:109-131 | the ticks that reach the lap's end leave the boat at 0 with the next owner, nothing else changed |
| SessionLaws.Lap | backEnd/app/controllers/game.controller.ts:109-131 | twenty ticks from the start line hand the boat to the next player in turn order |
| SessionLaws.Laps | backEnd/app/controllers/game.controller.ts:109-131 | 20·m ticks from the start line hand the boat on m times |
| SessionLaws.RotateStays | backEnd/app/controllers/game.controller.ts:125-128 | the boat only passes between players of the game |
| SessionLaws.EveryPlayerGetsTurn | backEnd/app/controllers/game.controller.ts:111-128 | every player gets the boat within fewer laps than there are players |
| SessionLaws.RoundReturns | backEnd/app/controllers/game.controller.ts:111-128 | as many laps as players bring the boat back to its holder |
| SessionLaws.FullRound | backEnd/app/controllers/game.controller.ts:102-133 | 20·n ticks from the start line (n players) restore the store exactly |
| SessionLaws.JoinGameIdempotent | backEnd/app/controllers/game.controller.ts:13-16 | joining twice from the same socket is the same as joining once |
| SessionLaws.FindPlayerAfterUpdate | backEnd/app/controllers/game.controller.ts:22-25 | rewriting a user's first row keeps it the first row |
| SessionLaws.ChooseHeldScreen | backEnd/app/controllers/game.controller.ts:38-45 | a ready player asking again for the screen it holds is accepted with no change |
| SessionLaws.ChooseBoatIdempotent | backEnd/app/controllers/game.controller.ts:21-48 | choosing the same screen twice is the same as choosing it once |
| SessionLaws.ScreenRace | backEnd/app/controllers/game.controller.ts:38-41 | once one player holds a screen, another player of the game asking for it is refused with no change |
| SessionLaws.ReadyThenWaitingNoop | backEnd/app/controllers/game.controller.ts:50-62 | right after a game becomes Ready, the fall-back to Waiting does nothing |
| SessionLaws.WaitingThenReadyNoop | backEnd/app/controllers/game.controller.ts:159-171 | right after a game falls back to Waiting, marking it Ready does nothing |
| SessionLaws.JoinKeepsReady | backEnd/app/controllers/game.controller.ts:13-16 | joining a Ready game leaves it Ready though a player is now not ready |
| SessionLaws.ClickAfterEndOverridesWinner | backEnd/app/controllers/game.controller.ts:135-147 | after a leave made the creator winner, the boat's owner can still click and replace the winner |
| SessionLaws.FinishedStopsLoop | backEnd/app/controllers/game.controller.ts:103-104 | a tick of a finished game stops and changes nothing |
| SocketServer.RunningPut | backEnd/app/controllers/game.controller.ts:59-60 | saving one game changes the running set only at that game |
| SocketServer.ChooseBoatRunning | backEnd/app/controllers/game.controller.ts:21-48 | choosing a screen starts or stops no race |
| SocketServer.ReadyRunning | backEnd/app/controllers/game.controller.ts:50-62 | promotion to Ready starts or stops no race |
| SocketServer.DisconnectRunning | backEnd/app/controllers/game.controller.ts:149-156 | disconnecting starts or stops no race |
| SocketServer.WaitingRunning | backEnd/app/controllers/game.controller.ts:159-171 | falling back to Waiting starts or stops no race |
| SocketServer.TickValid | backEnd/start/socket.ts:35-43 | in a valid store a tick of a running game always moves the boat and keeps the store valid and the game running |
| SocketServer.GameServer.constructor | backEnd/start/socket.ts:30 | the server starts with no intervals; over a valid store with no game in progress, it then satisfies the invariant |
| SocketServer.GameServer.StartBoatLoop | backEnd/start/socket.ts:32-46 | registers the game's interval; registering twice is harmless |
| SocketServer.GameServer.LoopTick | backEnd/start/socket.ts:35-43 | a stopped tick clears the interval and emits nothing; a move is broadcast; in a valid server the tick always moves |
| SocketServer.GameServer.Join | backEnd/start/socket.ts:54-72 | a zero id is ignored; an error goes to the sender; otherwise the sender is synced and the room told who joined; intervals untouched; invariant kept |
| SocketServer.GameServer.LeaveGame | backEnd/start/socket.ts:75-89 | a running game ends with the creator as winner, its interval cleared and the winner broadcast; otherwise nothing happens |
| SocketServer.GameServer.ChooseBoat | backEnd/start/socket.ts:93-107 | an error goes to the sender with no change; success is announced, and `gameReady` follows exactly when the game became Ready |
| SocketServer.GameServer.StartGame | backEnd/start/socket.ts:111-123 | an error goes to the sender; a started game is announced with its boat and its interval registered; intervals stay exactly the running games |
| SocketServer.GameServer.ClickBoat | backEnd/start/socket.ts:127-140 | a winning click clears the interval and broadcasts the winner; otherwise nothing is emitted |
| SocketServer.GameServer.Disconnect | backEnd/start/socket.ts:142-153 | the socket's player is announced not ready, and `gameWaiting` follows exactly when its game fell back to Waiting |

## Left out

- Persistence is not modelled: the ORM, database round trips and the auto-increment counter are replaced by the in-memory `Store`. Each controller call is taken as one atomic step, so interleavings of concurrent asynchronous handlers are not modelled.
- The 500 ms interval timer is not modelled. `LoopTick` is one firing; `Ticks` is a sequence of them.
- Socket.IO transport, room membership (`socket.join` and `socket.leave`) and console logging are not modelled. A room message is recorded as addressed to `game:<gameId>`.
- GameModel.ScreenOf: only integer screens are modelled. A fractional numeric choice such as `"1.5"`, which `Number()` accepts, is not. A numeric text is stored by its integer value, so variants such as `"01"` or `" 1"` are identified with `"1"`.
- LocateSocket: the unordered `.first()` of `markDisconnected` is resolved as the lowest player id across all games. The database may return any matching row.
- The boat row's own id, and the difference between creating and resetting the boat in `startGame`, are not modelled. Both give the same boat value.
- A missing or null payload field is modelled as the id 0, which the `!gameId`/`!userId` guards reject as they reject `undefined`. `leaveGame` reads only `gameId`, so the model takes only that.
- SocketServer.GameServer.ChooseBoat: the `playerReady` message echoes the payload's `boatChoice` as the parsed `Choice`, not as the raw string.
- The HTTP controller, authentication, the front end and game creation are not part of this model. `NewGameValid` shows that a newly created game satisfies the invariant. Nothing else ties the store to game creation.
- The players table has no unique index on (game, user). Uniqueness of a user's row comes from the upsert of `joinGame`, assuming no concurrent upserts, and is proved as part of the store invariant.
- SocketServer.GameServer.constructor: the server is started only over a store with no game in progress. The program starts `gameLoops` empty whatever the database holds. So a game still in progress after a restart never gets its interval back, because `startGame` refuses any game that is not Ready. In that case the correspondence "interval exactly while in progress" does not hold, and the model does not cover it.
- GameController.JoinGame: the upsert's lookup of the user's row is unordered, and so is the `.where('user_id', userId).first()` of `chooseBoat` that `FindPlayer` models. The model takes the first row by id in both. In a valid store a user has only one row, so the choice makes no difference there.
