/**
 * The invariant every reachable store satisfies, and its preservation by
 * each controller operation. It gathers the session invariants: unique
 * player rows, distinct in-range screens, a Ready game has at
 * least two players, a started game has a boat owned by one of its players
 * at a lap position, and a finished game has a winner.
 */
module SessionInvariants {
  import opened GameModel
  import opened TurnOrder
  import opened GameController

  /** Player rows are in ascending id order and every id was handed out already. */
  predicate IdsAscending(ps: seq<Player>, nextId: int)
  {
    (forall i, j :: 0 <= i < j < |ps| ==> ps[i].id < ps[j].id) &&
    (forall i :: 0 <= i < |ps| ==> ps[i].id < nextId)
  }

  /** Numeric screens lie in 1..player count and no two players share one. */
  predicate ScreensValid(ps: seq<Player>)
  {
    (forall i :: 0 <= i < |ps| && ps[i].boatChoice.Numeric? ==> 1 <= ps[i].boatChoice.n <= |ps|) &&
    (forall i, j :: 0 <= i < j < |ps| && ps[i].boatChoice.Numeric? ==> ps[i].boatChoice != ps[j].boatChoice)
  }

  /** A boat during or after a race: at a lap position, heading forward, owned by a player. */
  predicate BoatValid(b: Boat, ps: seq<Player>)
  {
    0 <= b.position < LapLength && b.position % Step == 0 &&
    b.direction == Forward && HasUser(ps, b.ownerId)
  }

  predicate StatusValid(s: Session)
  {
    (s.status == Ready ==> |s.players| >= 2) &&
    (s.status == Waiting || s.status == Ready ==> s.boat.None? && s.winnerId.None?) &&
    (s.status == InProgress || s.status == Finished ==> s.boat.Some? && BoatValid(s.boat.value, s.players)) &&
    (s.status == Finished ==>
      s.winnerId.Some? && (HasUser(s.players, s.winnerId.value) || s.winnerId.value == s.creatorId))
  }

  predicate ValidSession(s: Session, nextId: int)
  {
    IdsAscending(s.players, nextId) && UniqueUsers(s.players) &&
    ScreensValid(s.players) && StatusValid(s)
  }

  predicate ValidStore(st: Store)
  {
    forall g :: g in st.games ==> ValidSession(st.games[g], st.nextPlayerId)
  }

  /** A freshly created game: Waiting, no players, no boat, no winner. */
  lemma NewGameValid(creatorId: int, nextId: int)
    ensures ValidSession(Session(creatorId, Waiting, None, [], None), nextId)
  {
  }

  // ---------------------------------------------------------------------
  // Helpers

  lemma PutValid(st: Store, gameId: int, s: Session)
    requires ValidStore(st) && gameId in st.games && ValidSession(s, st.nextPlayerId)
    ensures ValidStore(Put(st, gameId, s))
  {
  }

  /** Rewriting one row without touching its id or user keeps the set of users. */
  lemma SameUsersAfterUpdate(ps: seq<Player>, i: int, p: Player)
    requires 0 <= i < |ps| && p.userId == ps[i].userId && p.id == ps[i].id
    ensures forall u :: HasUser(ps[i := p], u) <==> HasUser(ps, u)
    ensures UniqueUsers(ps) ==> UniqueUsers(ps[i := p])
    ensures forall n :: IdsAscending(ps, n) ==> IdsAscending(ps[i := p], n)
  {
    var qs := ps[i := p];
    forall u | HasUser(qs, u) ensures HasUser(ps, u) {
      var j :| 0 <= j < |qs| && qs[j].userId == u;
      assert ps[j].userId == u;
    }
    forall u | HasUser(ps, u) ensures HasUser(qs, u) {
      var j :| 0 <= j < |ps| && ps[j].userId == u;
      assert qs[j].userId == u;
    }
  }

  /** Rewriting one row without touching its choice keeps the screens valid. */
  lemma ScreensAfterUpdate(ps: seq<Player>, i: int, p: Player)
    requires 0 <= i < |ps| && p.boatChoice == ps[i].boatChoice
    requires ScreensValid(ps)
    ensures ScreensValid(ps[i := p])
  {
    var qs := ps[i := p];
    assert forall j :: 0 <= j < |qs| ==> qs[j].boatChoice == ps[j].boatChoice;
  }

  lemma StatusAfterUpdate(s: Session, i: int, p: Player)
    requires 0 <= i < |s.players| && p.userId == s.players[i].userId && p.id == s.players[i].id
    requires StatusValid(s)
    ensures StatusValid(s.(players := s.players[i := p]))
  {
    SameUsersAfterUpdate(s.players, i, p);
  }

  // ---------------------------------------------------------------------
  // Preservation, operation by operation

  lemma JoinGameValid(st: Store, gameId: int, userId: int, socketId: string)
    requires ValidStore(st)
    ensures ValidStore(JoinGame(st, gameId, userId, socketId).0)
  {
    if gameId in st.games {
      var s := st.games[gameId];
      var r := JoinGame(st, gameId, userId, socketId);
      var p := r.1.value;
      match FindPlayer(s.players, userId)
      case Some(i) =>
        SameUsersAfterUpdate(s.players, i, p);
        ScreensAfterUpdate(s.players, i, p);
        StatusAfterUpdate(s, i, p);
        PutValid(st, gameId, s.(players := s.players[i := p]));
      case None =>
        assert ValidSession(s, st.nextPlayerId);
        AppendValid(s, p, st.nextPlayerId);
        forall h | h in r.0.games ensures ValidSession(r.0.games[h], r.0.nextPlayerId) {
          if h != gameId {
            assert ValidSession(st.games[h], st.nextPlayerId);
          }
        }
    }
  }

  /** Appending a new user's row, with the next id and no choice, keeps a session valid. */
  lemma AppendValid(s: Session, p: Player, nextId: int)
    requires ValidSession(s, nextId) && !HasUser(s.players, p.userId)
    requires p.id == nextId && p.boatChoice == NoChoice
    ensures ValidSession(s.(players := s.players + [p]), nextId + 1)
  {
    var qs := s.players + [p];
    assert forall j :: 0 <= j < |s.players| ==> qs[j] == s.players[j];
    assert UniqueUsers(qs) by {
      forall a, b | 0 <= a < b < |qs| ensures qs[a].userId != qs[b].userId {
        if b == |s.players| { assert qs[a] == s.players[a]; }
      }
    }
    assert IdsAscending(qs, nextId + 1) by {
      forall a, b | 0 <= a < b < |qs| ensures qs[a].id < qs[b].id {
        if b == |s.players| { assert qs[a] == s.players[a]; }
      }
    }
    assert ScreensValid(qs) by {
      forall a | 0 <= a < |qs| && qs[a].boatChoice.Numeric?
        ensures 1 <= qs[a].boatChoice.n <= |qs|
      {
        assert a < |s.players| && qs[a] == s.players[a];
      }
      forall a, b | 0 <= a < b < |qs| && qs[a].boatChoice.Numeric?
        ensures qs[a].boatChoice != qs[b].boatChoice
      {
        assert qs[a] == s.players[a];
      }
    }
    forall u | HasUser(s.players, u) ensures HasUser(qs, u) {
      var j :| 0 <= j < |s.players| && s.players[j].userId == u;
      assert qs[j].userId == u;
    }
  }

  lemma ChooseBoatValid(st: Store, gameId: int, userId: int, choice: Choice)
    requires ValidStore(st)
    ensures ValidStore(ChooseBoat(st, gameId, userId, choice).0)
  {
    var r := ChooseBoat(st, gameId, userId, choice);
    if r.1.Ok? {
      var s, p := st.games[gameId], r.1.value;
      var i :| 0 <= i < |s.players| && s.players[i].userId == userId &&
               p == s.players[i].(boatChoice := choice, ready := true) &&
               r.0 == Put(st, gameId, s.(players := s.players[i := p]));
      var qs := s.players[i := p];
      SameUsersAfterUpdate(s.players, i, p);
      StatusAfterUpdate(s, i, p);
      assert ScreensValid(qs) by {
        forall a, b | 0 <= a < b < |qs| && qs[a].boatChoice.Numeric?
          ensures qs[a].boatChoice != qs[b].boatChoice
        {
          if a == i {
            assert qs[b] == s.players[b] && s.players[b].userId != userId;
          } else if b == i {
            assert qs[a] == s.players[a] && s.players[a].userId != userId;
          }
        }
      }
      PutValid(st, gameId, s.(players := qs));
    }
  }

  lemma MarkGameReadyValid(st: Store, gameId: int)
    requires ValidStore(st)
    ensures ValidStore(MarkGameReadyIfAllReady(st, gameId).0)
  {
    if MarkGameReadyIfAllReady(st, gameId).1 {
      PutValid(st, gameId, st.games[gameId].(status := Ready));
    }
  }

  lemma MarkGameWaitingValid(st: Store, gameId: int)
    requires ValidStore(st)
    ensures ValidStore(MarkGameWaitingIfNotAllReady(st, gameId).0)
  {
    if MarkGameWaitingIfNotAllReady(st, gameId).1 {
      PutValid(st, gameId, st.games[gameId].(status := Waiting));
    }
  }

  lemma StartGameValid(st: Store, gameId: int, userId: int)
    requires ValidStore(st)
    ensures ValidStore(StartGame(st, gameId, userId).0)
  {
    var r := StartGame(st, gameId, userId);
    if gameId in st.games && st.games[gameId].creatorId == userId && st.games[gameId].status == Ready {
      var s := st.games[gameId];
      PutValid(st, gameId, s.(status := InProgress, boat := Some(r.1.value)));
    }
  }

  /**
   * The too-few-players error of startGame, which leaves a game InProgress
   * without a boat, cannot happen in a valid store: a Ready game already has
   * two players, and players are never removed.
   */
  lemma StartGameNeverTooFew(st: Store, gameId: int, userId: int)
    requires ValidStore(st)
    ensures StartGame(st, gameId, userId).1 != Err(NotEnoughPlayers)
  {
    if gameId in st.games && st.games[gameId].status == Ready {
      assert ValidSession(st.games[gameId], st.nextPlayerId);
    }
  }

  lemma BoatTickValid(st: Store, gameId: int)
    requires ValidStore(st)
    ensures ValidStore(BoatTick(st, gameId).0)
  {
    var r := BoatTick(st, gameId);
    if r.1.Moved? {
      var s := st.games[gameId];
      assert ValidSession(s, st.nextPlayerId);
      PutValid(st, gameId, s.(boat := Some(r.1.boat)));
    }
  }

  lemma ClickBoatValid(st: Store, gameId: int, userId: int)
    requires ValidStore(st)
    ensures ValidStore(ClickBoat(st, gameId, userId).0)
  {
    if ClickBoat(st, gameId, userId).1 {
      var s := st.games[gameId];
      assert ValidSession(s, st.nextPlayerId);
      PutValid(st, gameId, s.(status := Finished, winnerId := Some(userId)));
    }
  }

  lemma MarkDisconnectedValid(st: Store, socketId: string)
    requires ValidStore(st)
    ensures ValidStore(MarkDisconnected(st, socketId).0)
  {
    var r := MarkDisconnected(st, socketId);
    if r.1.Some? {
      var l := LocateSocket(st, socketId).value;
      var s := st.games[l.gameId];
      var p := l.player.(ready := false);
      SameUsersAfterUpdate(s.players, l.index, p);
      ScreensAfterUpdate(s.players, l.index, p);
      StatusAfterUpdate(s, l.index, p);
      PutValid(st, l.gameId, s.(players := s.players[l.index := p]));
    }
  }

  lemma EndGameValid(st: Store, gameId: int)
    requires ValidStore(st)
    ensures ValidStore(EndGameAssignCreatorWinner(st, gameId).0)
  {
    var r := EndGameAssignCreatorWinner(st, gameId);
    if r.1.Some? {
      var s := st.games[gameId];
      PutValid(st, gameId, s.(status := Finished, winnerId := Some(s.creatorId)));
    }
  }
}
