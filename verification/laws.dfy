/**
 * Laws relating several controller operations: the boat's progress over
 * many ticks and the fairness of the hand-over, idempotence of joining and
 * choosing, the screen race between two players, readiness flips, and the
 * places where the controller deliberately does not guard (clicking after
 * the end, joining while Ready).
 */
module SessionLaws {
  import opened GameModel
  import opened TurnOrder
  import opened GameController
  import opened SessionInvariants

  // ---------------------------------------------------------------------
  // The boat over many ticks

  /** The store after `n` ticks of the loop of game `gameId` (a stopped tick changes nothing). */
  function Ticks(st: Store, gameId: int, n: nat): Store
    decreases n
  {
    if n == 0 then st else Ticks(BoatTick(st, gameId).0, gameId, n - 1)
  }

  lemma {:induction false} TicksAdd(st: Store, gameId: int, m: nat, n: nat)
    ensures Ticks(st, gameId, m + n) == Ticks(Ticks(st, gameId, m), gameId, n)
    decreases m
  {
    if m > 0 {
      TicksAdd(BoatTick(st, gameId).0, gameId, m - 1, n);
    }
  }

  /** Within a lap, `n` ticks move the boat `n` steps and change nothing else. */
  lemma {:induction false} TicksAdvance(st: Store, gameId: int, n: nat)
    requires gameId in st.games && st.games[gameId].status == InProgress && st.games[gameId].boat.Some?
    requires st.games[gameId].boat.value.position + Step * n < LapLength
    ensures var s, b := st.games[gameId], st.games[gameId].boat.value;
      Ticks(st, gameId, n) == Put(st, gameId, s.(boat := Some(b.(position := b.position + Step * n))))
    decreases n
  {
    var s, b := st.games[gameId], st.games[gameId].boat.value;
    if n == 0 {
      assert s.(boat := Some(b.(position := b.position))) == s;
      assert st.games[gameId := s] == st.games;
    } else {
      var st1 := BoatTick(st, gameId).0;
      var b1 := b.(position := b.position + Step);
      assert st1 == Put(st, gameId, s.(boat := Some(b1)));
      TicksAdvance(st1, gameId, n - 1);
      assert b1.(position := b1.position + Step * (n - 1)) == b.(position := b.position + Step * n);
      assert st1.games[gameId := s.(boat := Some(b.(position := b.position + Step * n)))] ==
             st.games[gameId := s.(boat := Some(b.(position := b.position + Step * n)))];
    }
  }

  /**
   * The tick that crosses the end of the lap: the `n` ticks that take the
   * boat from its position to the lap's end leave it at 0 with the next
   * player in turn order.
   */
  lemma {:induction false} LapEnd(st: Store, gameId: int, n: nat)
    requires gameId in st.games && st.games[gameId].status == InProgress && st.games[gameId].boat.Some?
    requires HasUser(st.games[gameId].players, st.games[gameId].boat.value.ownerId)
    requires n > 0 && st.games[gameId].boat.value.position + Step * (n - 1) < LapLength
    requires st.games[gameId].boat.value.position + Step * n >= LapLength
    ensures var s, b := st.games[gameId], st.games[gameId].boat.value;
      Ticks(st, gameId, n) ==
      Put(st, gameId, s.(boat := Some(b.(position := 0, ownerId := NextOwner(s.players, b.ownerId)))))
  {
    var s, b := st.games[gameId], st.games[gameId].boat.value;
    var k := n - 1;
    var stk := Ticks(st, gameId, k);
    TicksAdvance(st, gameId, k);
    TicksAdd(st, gameId, k, 1);
    assert stk.games[gameId] == s.(boat := Some(b.(position := b.position + Step * k)));
    var b' := b.(position := 0, ownerId := NextOwner(s.players, b.ownerId));
    assert BoatTick(stk, gameId).0 == Put(stk, gameId, s.(boat := Some(b')));
    assert Ticks(stk, gameId, 1) == BoatTick(stk, gameId).0;
    assert stk.games[gameId := s.(boat := Some(b'))] == st.games[gameId := s.(boat := Some(b'))];
  }

  /** A whole lap: twenty ticks from the start line hand the boat to the next player. */
  lemma Lap(st: Store, gameId: int)
    requires gameId in st.games && st.games[gameId].status == InProgress
    requires st.games[gameId].boat.Some? && st.games[gameId].boat.value.position == 0
    requires HasUser(st.games[gameId].players, st.games[gameId].boat.value.ownerId)
    ensures var s, b := st.games[gameId], st.games[gameId].boat.value;
      Ticks(st, gameId, 20) == Put(st, gameId, s.(boat := Some(b.(ownerId := NextOwner(s.players, b.ownerId)))))
  {
    LapEnd(st, gameId, 20);
  }

  /** `m` laps hand the boat on `m` times along the turn order. */
  lemma {:induction false} Laps(st: Store, gameId: int, m: nat)
    requires gameId in st.games && st.games[gameId].status == InProgress
    requires st.games[gameId].boat.Some? && st.games[gameId].boat.value.position == 0
    requires HasUser(st.games[gameId].players, st.games[gameId].boat.value.ownerId)
    ensures |st.games[gameId].players| > 0
    ensures Ticks(st, gameId, 20 * m) == LapsResult(st, gameId, m)
    decreases m
  {
    var s, b := st.games[gameId], st.games[gameId].boat.value;
    if m == 0 {
      assert s.(boat := Some(b.(ownerId := b.ownerId))) == s;
      assert st.games[gameId := s] == st.games;
      assert Ticks(st, gameId, 20 * m) == LapsResult(st, gameId, m);
    } else {
      var k := m - 1;
      Laps(st, gameId, k);
      LapsStep(st, gameId, m);
      assert Ticks(st, gameId, 20 * m) == LapsResult(st, gameId, m);
    }
  }

  /** The store after `m` laps from the start line: only the owner has moved on. */
  function LapsResult(st: Store, gameId: int, m: nat): Store
    requires gameId in st.games && st.games[gameId].boat.Some? && |st.games[gameId].players| > 0
  {
    var s, b := st.games[gameId], st.games[gameId].boat.value;
    Put(st, gameId, s.(boat := Some(b.(ownerId := Rotate(s.players, b.ownerId, m)))))
  }

  /** One more lap after `m - 1` of them. */
  lemma LapsStep(st: Store, gameId: int, m: nat)
    requires gameId in st.games && st.games[gameId].status == InProgress
    requires st.games[gameId].boat.Some? && st.games[gameId].boat.value.position == 0
    requires HasUser(st.games[gameId].players, st.games[gameId].boat.value.ownerId)
    requires m > 0
    requires var s, b := st.games[gameId], st.games[gameId].boat.value;
      Ticks(st, gameId, 20 * (m - 1)) ==
      Put(st, gameId, s.(boat := Some(b.(ownerId := Rotate(s.players, b.ownerId, m - 1)))))
    ensures Ticks(st, gameId, 20 * m) == LapsResult(st, gameId, m)
  {
    var s, b := st.games[gameId], st.games[gameId].boat.value;
    var prev := Rotate(s.players, b.ownerId, m - 1);
    var mid := Put(st, gameId, s.(boat := Some(b.(ownerId := prev))));
    RotateStays(s.players, b.ownerId, m - 1);
    TicksLapSplit(st, gameId, m, 20);
    Lap(mid, gameId);
    PutTwice(st, gameId, s.(boat := Some(b.(ownerId := prev))),
             s.(boat := Some(b.(ownerId := NextOwner(s.players, prev)))));
  }

  lemma TicksLapSplit(st: Store, gameId: int, m: nat, k: nat)
    requires m > 0
    ensures Ticks(st, gameId, k * m) == Ticks(Ticks(st, gameId, k * (m - 1)), gameId, k)
  {
    assert k * (m - 1) + k == k * m;
    TicksAdd(st, gameId, k * (m - 1), k);
  }

  lemma PutTwice(st: Store, gameId: int, x: Session, y: Session)
    requires gameId in st.games
    ensures Put(Put(st, gameId, x), gameId, y) == Put(st, gameId, y)
  {
    assert st.games[gameId := x][gameId := y] == st.games[gameId := y];
  }

  /** The boat only ever passes between players of the game. */
  lemma {:induction false} RotateStays(ps: seq<Player>, owner: int, m: nat)
    requires |ps| > 0
    ensures m > 0 || HasUser(ps, owner) ==> HasUser(ps, Rotate(ps, owner, m))
    decreases m
  {
    if m > 0 {
      RotateStays(ps, owner, m - 1);
    }
  }

  /**
   * Fairness of the hand-over: whoever holds the boat now, every player of
   * the game holds it within fewer laps than there are players.
   */
  lemma EveryPlayerGetsTurn(ps: seq<Player>, owner: int, u: int)
    requires UniqueUsers(ps) && HasUser(ps, owner) && HasUser(ps, u)
    ensures exists m :: 0 <= m < |ps| && Rotate(ps, owner, m) == u
  {
    OrderedMembers(ps);
    var o := Ordered(ps);
    assert HasUser(o, owner) && HasUser(o, u);
    var i :| 0 <= i < |o| && o[i].userId == owner;
    var j :| 0 <= j < |o| && o[j].userId == u;
    var m := if i <= j then j - i else j - i + |ps|;
    assert Along(|ps|, i, m) == j;
    RotateCycles(ps, i, m);
    assert 0 <= m < |ps| && Rotate(ps, owner, m) == u;
  }

  /**
   * A full round: after twenty ticks per player the boat is back at the
   * start line with the player who held it, and the store is as it was.
   */
  lemma FullRound(st: Store, gameId: int)
    requires ValidStore(st)
    requires gameId in st.games && st.games[gameId].status == InProgress
    requires st.games[gameId].boat.Some? && st.games[gameId].boat.value.position == 0
    ensures Ticks(st, gameId, 20 * |st.games[gameId].players|) == st
  {
    var s, b := st.games[gameId], st.games[gameId].boat.value;
    assert ValidSession(s, st.nextPlayerId);
    RoundReturns(s.players, b.ownerId);
    Laps(st, gameId, |s.players|);
    assert s.(boat := Some(b.(ownerId := b.ownerId))) == s;
    assert st.games[gameId := s] == st.games;
  }

  /** As many laps as players bring the boat back to its holder. */
  lemma RoundReturns(ps: seq<Player>, owner: int)
    requires UniqueUsers(ps) && HasUser(ps, owner)
    ensures Rotate(ps, owner, |ps|) == owner
  {
    OrderedMembers(ps);
    assert HasUser(Ordered(ps), owner);
    var i :| 0 <= i < |ps| && Ordered(ps)[i].userId == owner;
    RotateCycles(ps, i, |ps|);
    assert Along(|ps|, i, |ps|) == i;
  }

  // ---------------------------------------------------------------------
  // Idempotence and races

  /** Joining again from the same socket changes nothing more. */
  lemma JoinGameIdempotent(st: Store, gameId: int, userId: int, socketId: string)
    ensures var once := JoinGame(st, gameId, userId, socketId);
      JoinGame(once.0, gameId, userId, socketId) == once
  {
    var once := JoinGame(st, gameId, userId, socketId);
    if gameId in st.games {
      var ps := once.0.games[gameId].players;
      var p := once.1.value;
      assert HasUser(ps, userId) by {
        if HasUser(st.games[gameId].players, userId) {
          var i :| 0 <= i < |st.games[gameId].players| && st.games[gameId].players[i].userId == userId &&
                   ps == st.games[gameId].players[i := p];
          assert ps[i].userId == userId;
        } else {
          assert ps[|ps| - 1] == p;
        }
      }
      var k := FindPlayer(ps, userId).value;
      assert ps[k] == p by {
        if HasUser(st.games[gameId].players, userId) {
          var i := FindPlayer(st.games[gameId].players, userId).value;
          assert ps == st.games[gameId].players[i := p];
          assert ps[i].userId == userId;
          assert forall j :: 0 <= j < i ==> ps[j].userId != userId;
          assert k == i;
        } else {
          assert ps == st.games[gameId].players + [p];
          assert k == |ps| - 1;
        }
      }
      assert ps[k].(socketId := Some(socketId), ready := false) == p;
      assert ps[k := p] == ps;
      assert once.0.games[gameId := once.0.games[gameId].(players := ps)] == once.0.games;
    }
  }

  /** Choosing the same screen again is accepted and changes nothing more. */
  lemma ChooseBoatIdempotent(st: Store, gameId: int, userId: int, choice: Choice)
    requires ChooseBoat(st, gameId, userId, choice).1.Ok?
    ensures var once := ChooseBoat(st, gameId, userId, choice);
      ChooseBoat(once.0, gameId, userId, choice) == once
  {
    var once := ChooseBoat(st, gameId, userId, choice);
    var s, p := st.games[gameId], once.1.value;
    var i :| 0 <= i < |s.players| && s.players[i].userId == userId &&
             (forall j :: 0 <= j < i ==> s.players[j].userId != userId) &&
             p == s.players[i].(boatChoice := choice, ready := true) &&
             once.0 == Put(st, gameId, s.(players := s.players[i := p]));
    var ps := s.players[i := p];
    assert once.0.games[gameId] == s.(players := ps);
    FindPlayerAfterUpdate(s.players, i, p);
    assert !ScreenHeldByOther(ps, userId, choice.n) by {
      forall j | 0 <= j < |ps| && ps[j].userId != userId ensures ps[j].boatChoice != Numeric(choice.n) {
        assert ps[j] == s.players[j];
      }
    }
    ChooseHeldScreen(once.0, gameId, userId, i);
  }

  /** Rewriting the first row of a user, keeping the user, keeps it the first row. */
  lemma FindPlayerAfterUpdate(ps: seq<Player>, i: int, p: Player)
    requires 0 <= i < |ps| && ps[i].userId == p.userId
    requires forall j :: 0 <= j < i ==> ps[j].userId != p.userId
    ensures FindPlayer(ps[i := p], p.userId) == Some(i)
  {
    var qs := ps[i := p];
    assert forall j :: 0 <= j < i ==> qs[j].userId != p.userId;
    assert qs[i].userId == p.userId;
  }

  /** A ready player asking again for the screen it holds is accepted with no change. */
  lemma ChooseHeldScreen(st: Store, gameId: int, userId: int, i: int)
    requires gameId in st.games
    requires FindPlayer(st.games[gameId].players, userId) == Some(i)
    requires var q := st.games[gameId].players[i];
      q.ready && q.boatChoice.Numeric? && 1 <= q.boatChoice.n <= |st.games[gameId].players| &&
      !ScreenHeldByOther(st.games[gameId].players, userId, q.boatChoice.n)
    ensures var q := st.games[gameId].players[i];
      ChooseBoat(st, gameId, userId, q.boatChoice) == (st, Ok(q))
  {
    var s := st.games[gameId];
    var q := s.players[i];
    assert q.(boatChoice := Numeric(q.boatChoice.n), ready := true) == q;
    assert s.players[i := q] == s.players;
    assert st.games[gameId := s.(players := s.players)] == st.games;
  }

  /**
   * The screen race: once one player holds screen n, any other player of
   * the game asking for the same screen is turned away and nothing changes.
   */
  lemma ScreenRace(st: Store, gameId: int, userA: int, userB: int, choice: Choice)
    requires ChooseBoat(st, gameId, userA, choice).1.Ok?
    requires userB != userA && HasUser(PlayersOf(st, gameId), userB)
    ensures var after := ChooseBoat(st, gameId, userA, choice).0;
      ChooseBoat(after, gameId, userB, choice) == (after, Err(ScreenTaken))
  {
    var once := ChooseBoat(st, gameId, userA, choice);
    var s, p := st.games[gameId], once.1.value;
    var i :| 0 <= i < |s.players| && s.players[i].userId == userA &&
             p == s.players[i].(boatChoice := choice, ready := true) &&
             once.0 == Put(st, gameId, s.(players := s.players[i := p]));
    var ps := s.players[i := p];
    assert once.0 == Put(st, gameId, s.(players := ps));
    assert Put(st, gameId, s.(players := ps)).games[gameId] == s.(players := ps);
    assert once.0.games[gameId] == s.(players := ps);
    assert PlayersOf(once.0, gameId) == ps;
    assert HasUser(ps, userB) by {
      var j :| 0 <= j < |s.players| && s.players[j].userId == userB;
      assert ps[j].userId == userB;
    }
    assert ScreenHeldByOther(ps, userB, choice.n) by {
      assert ps[i].userId != userB && ps[i].boatChoice == Numeric(choice.n);
    }
  }

  // ---------------------------------------------------------------------
  // Readiness

  /** Right after a game becomes Ready, the fall-back to Waiting does nothing. */
  lemma ReadyThenWaitingNoop(st: Store, gameId: int)
    requires MarkGameReadyIfAllReady(st, gameId).1
    ensures var st' := MarkGameReadyIfAllReady(st, gameId).0;
      MarkGameWaitingIfNotAllReady(st', gameId) == (st', false)
  {
  }

  /** Right after a game falls back to Waiting, marking it Ready does nothing. */
  lemma WaitingThenReadyNoop(st: Store, gameId: int)
    requires MarkGameWaitingIfNotAllReady(st, gameId).1
    ensures var st' := MarkGameWaitingIfNotAllReady(st, gameId).0;
      MarkGameReadyIfAllReady(st', gameId) == (st', false)
  {
  }

  /**
   * Joining does not re-check readiness: a player re-joining a Ready game is
   * reset to not ready, yet the game stays Ready.
   */
  lemma JoinKeepsReady(st: Store, gameId: int, userId: int, socketId: string)
    requires gameId in st.games && st.games[gameId].status == Ready
    ensures var st' := JoinGame(st, gameId, userId, socketId).0;
      st'.games[gameId].status == Ready && !AllReady(st'.games[gameId].players)
  {
    var r := JoinGame(st, gameId, userId, socketId);
    var ps := r.0.games[gameId].players;
    var p := r.1.value;
    if HasUser(st.games[gameId].players, userId) {
      var i :| 0 <= i < |st.games[gameId].players| && st.games[gameId].players[i].userId == userId &&
               ps == st.games[gameId].players[i := p];
      assert !ps[i].ready;
    } else {
      assert !ps[|ps| - 1].ready;
    }
  }

  // ---------------------------------------------------------------------
  // Finishing

  /**
   * Clicking does not consult the status: after the creator has been made
   * winner by a player leaving, the boat's owner can still click and take
   * the win.
   */
  lemma ClickAfterEndOverridesWinner(st: Store, gameId: int)
    requires gameId in st.games && st.games[gameId].status == InProgress && st.games[gameId].boat.Some?
    ensures var ended := EndGameAssignCreatorWinner(st, gameId).0;
      var owner := st.games[gameId].boat.value.ownerId;
      ended.games[gameId].winnerId == Some(st.games[gameId].creatorId) &&
      var clicked := ClickBoat(ended, gameId, owner);
      clicked.1 && clicked.0.games[gameId].status == Finished &&
      clicked.0.games[gameId].winnerId == Some(owner)
  {
  }

  /** Once a game is Finished no tick moves its boat. */
  lemma FinishedStopsLoop(st: Store, gameId: int)
    requires gameId in st.games && st.games[gameId].status == Finished
    ensures BoatTick(st, gameId) == (st, Stop)
  {
  }
}
