/**
 * The turn order of a race: players whose `boat_choice` is a finite number
 * come first, sorted by that number with ties kept in id order (the sort is
 * stable), then the players whose choice is not a number, in id order.
 * Both the start owner and the rotation on every lap are read off this order.
 */
module TurnOrder {
  import opened GameModel

  /** `Number.isFinite(Number(p.boatChoice))`. */
  predicate HasScreen(p: Player)
  {
    ScreenOf(p.boatChoice).Some?
  }

  /** The sort key; only consulted for players with a screen. */
  function Key(p: Player): int
  {
    match ScreenOf(p.boatChoice)
    case Some(n) => n
    case None => 0
  }

  predicate ScreenIs(p: Player, k: int)
  {
    ScreenOf(p.boatChoice) == Some(k)
  }

  /** `players.filter(p => Number.isFinite(Number(p.boatChoice)))`, keeping id order. */
  function WithScreen(ps: seq<Player>): (r: seq<Player>)
    ensures forall j :: 0 <= j < |r| ==> HasScreen(r[j])
  {
    if |ps| == 0 then []
    else if HasScreen(ps[0]) then [ps[0]] + WithScreen(ps[1..])
    else WithScreen(ps[1..])
  }

  /** `players.filter(p => !Number.isFinite(Number(p.boatChoice)))`, keeping id order. */
  function WithoutScreen(ps: seq<Player>): (r: seq<Player>)
    ensures forall j :: 0 <= j < |r| ==> !HasScreen(r[j])
  {
    if |ps| == 0 then []
    else if !HasScreen(ps[0]) then [ps[0]] + WithoutScreen(ps[1..])
    else WithoutScreen(ps[1..])
  }

  /** The players with screen exactly `k`, in their original order. */
  function WithScreenEq(ps: seq<Player>, k: int): seq<Player>
  {
    if |ps| == 0 then []
    else if ScreenIs(ps[0], k) then [ps[0]] + WithScreenEq(ps[1..], k)
    else WithScreenEq(ps[1..], k)
  }

  predicate SortedByScreen(s: seq<Player>)
  {
    forall i, j :: 0 <= i < j < |s| ==> Key(s[i]) <= Key(s[j])
  }

  /** Places `x` in front of the first element whose key is not smaller. */
  function Insert(x: Player, t: seq<Player>): seq<Player>
  {
    if |t| == 0 || Key(x) <= Key(t[0]) then [x] + t
    else [t[0]] + Insert(x, t[1..])
  }

  /** `.sort((a, b) => a.screen - b.screen)`: a stable ascending sort by screen. */
  function SortByScreen(s: seq<Player>): seq<Player>
  {
    if |s| == 0 then [] else Insert(s[0], SortByScreen(s[1..]))
  }

  /** `[...orderedByScreen, ...withoutScreen]`, the rotation order of the boat. */
  function Ordered(ps: seq<Player>): seq<Player>
  {
    SortByScreen(WithScreen(ps)) + WithoutScreen(ps)
  }

  /** `ps[k]` holds the lowest screen, and no earlier player holds that screen. */
  predicate FirstLowestScreen(ps: seq<Player>, k: int)
  {
    0 <= k < |ps| && HasScreen(ps[k]) &&
    (forall j :: 0 <= j < |ps| && HasScreen(ps[j]) ==> Key(ps[k]) <= Key(ps[j])) &&
    (forall j :: 0 <= j < k && HasScreen(ps[j]) ==> Key(ps[k]) < Key(ps[j]))
  }

  predicate UniqueUsers(ps: seq<Player>)
  {
    forall i, j :: 0 <= i < j < |ps| ==> ps[i].userId != ps[j].userId
  }

  // ---------------------------------------------------------------------
  // Small facts about user ids

  lemma TailUnique(ps: seq<Player>)
    requires |ps| > 0 && UniqueUsers(ps)
    ensures UniqueUsers(ps[1..]) && !HasUser(ps[1..], ps[0].userId)
  {
    var tl := ps[1..];
    forall i, j | 0 <= i < j < |tl| ensures tl[i].userId != tl[j].userId {
      assert tl[i] == ps[i + 1] && tl[j] == ps[j + 1];
    }
    forall j | 0 <= j < |tl| ensures tl[j].userId != ps[0].userId {
      assert tl[j] == ps[j + 1];
    }
  }

  lemma ConsUnique(x: Player, s: seq<Player>)
    requires UniqueUsers(s) && !HasUser(s, x.userId)
    ensures UniqueUsers([x] + s)
  {
    var r := [x] + s;
    forall i, j | 0 <= i < j < |r| ensures r[i].userId != r[j].userId {
      assert r[j] == s[j - 1];
      if i > 0 { assert r[i] == s[i - 1]; }
    }
  }

  /** Every user of a sub-multiset was already a user of the whole. */
  lemma UsersOfSubset(s: seq<Player>, whole: seq<Player>, u: int)
    requires multiset(s) <= multiset(whole)
    requires HasUser(s, u)
    ensures HasUser(whole, u)
  {
    var j :| 0 <= j < |s| && s[j].userId == u;
    assert s[j] in multiset(s);
    var n :| 0 <= n < |whole| && whole[n] == s[j];
  }

  /** An element of a sequence contributes its user to the sequence. */
  lemma ElementUser(y: Player, whole: seq<Player>)
    requires y in multiset(whole)
    ensures HasUser(whole, y.userId)
  {
    var n :| 0 <= n < |whole| && whole[n] == y;
  }

  // ---------------------------------------------------------------------
  // The insertion step

  lemma {:induction false} InsertPermutes(x: Player, t: seq<Player>)
    ensures multiset(Insert(x, t)) == multiset(t) + multiset{x}
    ensures |Insert(x, t)| == |t| + 1
    decreases |t|
  {
    if |t| == 0 || Key(x) <= Key(t[0]) {
    } else {
      InsertPermutes(x, t[1..]);
      assert t == [t[0]] + t[1..];
    }
  }

  lemma {:induction false} InsertSorted(x: Player, t: seq<Player>)
    requires SortedByScreen(t)
    ensures SortedByScreen(Insert(x, t))
    decreases |t|
  {
    if |t| == 0 || Key(x) <= Key(t[0]) {
    } else {
      var rest := Insert(x, t[1..]);
      InsertSorted(x, t[1..]);
      InsertPermutes(x, t[1..]);
      forall j | 0 <= j < |rest|
        ensures Key(t[0]) <= Key(rest[j])
      {
        assert rest[j] in multiset(rest);
        if rest[j] != x {
          assert rest[j] in multiset(t[1..]);
          var m :| 0 <= m < |t[1..]| && t[1..][m] == rest[j];
          assert t[1 + m] == rest[j];
        }
      }
    }
  }

  lemma {:induction false} InsertStable(x: Player, t: seq<Player>, k: int)
    ensures WithScreenEq(Insert(x, t), k) ==
            (if ScreenIs(x, k) then [x] else []) + WithScreenEq(t, k)
    decreases |t|
  {
    if |t| == 0 || Key(x) <= Key(t[0]) {
      assert ([x] + t)[1..] == t;
    } else {
      InsertStable(x, t[1..], k);
      assert ([t[0]] + Insert(x, t[1..]))[1..] == Insert(x, t[1..]);
      if ScreenIs(x, k) {
        // t[0] sorts strictly before x, so its screen is not k
        assert !ScreenIs(t[0], k);
      }
    }
  }

  lemma {:induction false} InsertUnique(x: Player, t: seq<Player>)
    requires UniqueUsers(t) && !HasUser(t, x.userId)
    ensures UniqueUsers(Insert(x, t))
    decreases |t|
  {
    if |t| == 0 || Key(x) <= Key(t[0]) {
      ConsUnique(x, t);
    } else {
      TailUnique(t);
      assert !HasUser(t[1..], x.userId) by {
        forall j | 0 <= j < |t[1..]| ensures t[1..][j].userId != x.userId {
          assert t[1..][j] == t[j + 1];
        }
      }
      InsertUnique(x, t[1..]);
      InsertPermutes(x, t[1..]);
      var rest := Insert(x, t[1..]);
      assert !HasUser(rest, t[0].userId) by {
        forall j | 0 <= j < |rest| ensures rest[j].userId != t[0].userId {
          assert rest[j] in multiset(rest);
          if rest[j] != x {
            ElementUser(rest[j], t[1..]);
          }
        }
      }
      ConsUnique(t[0], rest);
    }
  }

  // ---------------------------------------------------------------------
  // The sort

  /** The sort is a permutation of its input. */
  lemma {:induction false} SortPermutes(s: seq<Player>)
    ensures multiset(SortByScreen(s)) == multiset(s)
    ensures |SortByScreen(s)| == |s|
  {
    if |s| > 0 {
      SortPermutes(s[1..]);
      InsertPermutes(s[0], SortByScreen(s[1..]));
      assert s == [s[0]] + s[1..];
    }
  }

  /** The sort's output ascends by screen. */
  lemma {:induction false} SortSorted(s: seq<Player>)
    ensures SortedByScreen(SortByScreen(s))
  {
    if |s| > 0 {
      SortSorted(s[1..]);
      InsertSorted(s[0], SortByScreen(s[1..]));
    }
  }

  /** The sort is stable: players with equal screens keep their input order. */
  lemma {:induction false} SortStable(s: seq<Player>, k: int)
    ensures WithScreenEq(SortByScreen(s), k) == WithScreenEq(s, k)
  {
    if |s| > 0 {
      SortStable(s[1..], k);
      InsertStable(s[0], SortByScreen(s[1..]), k);
    }
  }

  lemma {:induction false} SortUnique(s: seq<Player>)
    requires UniqueUsers(s)
    ensures UniqueUsers(SortByScreen(s))
  {
    if |s| > 0 {
      var t := SortByScreen(s[1..]);
      TailUnique(s);
      SortUnique(s[1..]);
      SortPermutes(s[1..]);
      if HasUser(t, s[0].userId) {
        UsersOfSubset(t, s[1..], s[0].userId);
      }
      InsertUnique(s[0], t);
    }
  }

  // ---------------------------------------------------------------------
  // The two filters

  lemma {:induction false} SplitPermutes(ps: seq<Player>)
    ensures multiset(WithScreen(ps)) + multiset(WithoutScreen(ps)) == multiset(ps)
    ensures |WithScreen(ps)| + |WithoutScreen(ps)| == |ps|
  {
    if |ps| > 0 {
      SplitPermutes(ps[1..]);
      assert ps == [ps[0]] + ps[1..];
    }
  }

  lemma {:induction false} WithScreenKeepsEq(ps: seq<Player>, k: int)
    ensures WithScreenEq(WithScreen(ps), k) == WithScreenEq(ps, k)
  {
    if |ps| > 0 {
      WithScreenKeepsEq(ps[1..], k);
      if HasScreen(ps[0]) {
        assert ([ps[0]] + WithScreen(ps[1..]))[1..] == WithScreen(ps[1..]);
      }
    }
  }

  lemma {:induction false} WithScreenEmpty(ps: seq<Player>)
    ensures |WithScreen(ps)| == 0 <==> forall j :: 0 <= j < |ps| ==> !HasScreen(ps[j])
  {
    if |ps| > 0 {
      WithScreenEmpty(ps[1..]);
      if |WithScreen(ps)| == 0 {
        forall j | 0 <= j < |ps| ensures !HasScreen(ps[j]) {
          if j > 0 { assert ps[j] == ps[1..][j - 1]; }
        }
      }
      if forall j :: 0 <= j < |ps| ==> !HasScreen(ps[j]) {
        forall j | 0 <= j < |ps[1..]| ensures !HasScreen(ps[1..][j]) {
          assert ps[1..][j] == ps[j + 1];
        }
      }
    }
  }

  lemma {:induction false} FilterUnique(ps: seq<Player>)
    requires UniqueUsers(ps)
    ensures UniqueUsers(WithScreen(ps)) && UniqueUsers(WithoutScreen(ps))
    ensures forall u :: HasUser(WithScreen(ps), u) ==> !HasUser(WithoutScreen(ps), u)
  {
    if |ps| > 0 {
      var tl := ps[1..];
      TailUnique(ps);
      FilterUnique(tl);
      SplitPermutes(tl);
      var a, b := WithScreen(tl), WithoutScreen(tl);
      if HasUser(a, ps[0].userId) { UsersOfSubset(a, tl, ps[0].userId); }
      if HasUser(b, ps[0].userId) { UsersOfSubset(b, tl, ps[0].userId); }
      if HasScreen(ps[0]) {
        ConsUnique(ps[0], a);
        assert WithScreen(ps) == [ps[0]] + a;
        forall u | HasUser(WithScreen(ps), u) ensures !HasUser(b, u) {
          var j :| 0 <= j < |WithScreen(ps)| && WithScreen(ps)[j].userId == u;
          if j > 0 { assert WithScreen(ps)[j] == a[j - 1]; }
        }
      } else {
        ConsUnique(ps[0], b);
        assert WithoutScreen(ps) == [ps[0]] + b;
        forall u | HasUser(WithScreen(ps), u) ensures !HasUser(WithoutScreen(ps), u) {
          assert WithScreen(ps) == a;
          forall j | 0 <= j < |WithoutScreen(ps)| ensures WithoutScreen(ps)[j].userId != u {
            if j > 0 {
              assert WithoutScreen(ps)[j] == b[j - 1];
            } else {
              UsersOfSubset(a, tl, u);
            }
          }
        }
      }
    }
  }

  // ---------------------------------------------------------------------
  // The turn order

  /**
   * The turn order lists every player exactly once: first those with a
   * numeric screen, ascending, with equal screens in id order; then the
   * others in id order.
   */
  lemma OrderedCorrect(ps: seq<Player>, k: int)
    ensures multiset(Ordered(ps)) == multiset(ps)
    ensures |Ordered(ps)| == |ps|
    ensures |SortByScreen(WithScreen(ps))| == |WithScreen(ps)|
    ensures Ordered(ps)[..|WithScreen(ps)|] == SortByScreen(WithScreen(ps))
    ensures Ordered(ps)[|WithScreen(ps)|..] == WithoutScreen(ps)
    ensures SortedByScreen(SortByScreen(WithScreen(ps)))
    ensures WithScreenEq(SortByScreen(WithScreen(ps)), k) == WithScreenEq(ps, k)
  {
    SplitPermutes(ps);
    SortPermutes(WithScreen(ps));
    SortSorted(WithScreen(ps));
    SortStable(WithScreen(ps), k);
    WithScreenKeepsEq(ps, k);
  }

  lemma OrderedMembers(ps: seq<Player>)
    ensures |Ordered(ps)| == |ps|
    ensures forall u :: HasUser(Ordered(ps), u) <==> HasUser(ps, u)
  {
    SplitPermutes(ps);
    SortPermutes(WithScreen(ps));
    var o := Ordered(ps);
    forall u | HasUser(o, u) ensures HasUser(ps, u) {
      UsersOfSubset(o, ps, u);
    }
    forall u | HasUser(ps, u) ensures HasUser(o, u) {
      UsersOfSubset(ps, o, u);
    }
  }

  lemma OrderedLength(ps: seq<Player>)
    ensures |Ordered(ps)| == |ps|
  {
    OrderedMembers(ps);
  }

  lemma {:induction false} OrderedUnique(ps: seq<Player>)
    requires UniqueUsers(ps)
    ensures UniqueUsers(Ordered(ps))
  {
    var a, b := SortByScreen(WithScreen(ps)), WithoutScreen(ps);
    FilterUnique(ps);
    SortUnique(WithScreen(ps));
    SortPermutes(WithScreen(ps));
    var o := a + b;
    forall i, j | 0 <= i < j < |o| ensures o[i].userId != o[j].userId {
      if j < |a| {
        assert o[i] == a[i] && o[j] == a[j];
      } else if i >= |a| {
        assert o[i] == b[i - |a|] && o[j] == b[j - |a|];
      } else {
        assert o[i] == a[i] && o[j] == b[j - |a|];
        if o[i].userId == o[j].userId {
          UsersOfSubset(a, WithScreen(ps), o[i].userId);
          assert HasUser(b, o[i].userId);
        }
      }
    }
  }

  // ---------------------------------------------------------------------
  // Start owner and rotation

  /** Shifts a first-lowest witness of `ps[1..]` to `ps`, when `ps[0]` does not beat it. */
  lemma FirstLowestShift(ps: seq<Player>, k: int)
    requires |ps| > 0 && FirstLowestScreen(ps[1..], k)
    requires HasScreen(ps[0]) ==> Key(ps[1..][k]) < Key(ps[0])
    ensures FirstLowestScreen(ps, k + 1)
  {
    var tl := ps[1..];
    assert ps[k + 1] == tl[k];
    forall j | 0 <= j < |ps| && HasScreen(ps[j]) ensures Key(ps[k + 1]) <= Key(ps[j]) {
      if j > 0 { assert ps[j] == tl[j - 1]; }
    }
    forall j | 0 <= j < k + 1 && HasScreen(ps[j]) ensures Key(ps[k + 1]) < Key(ps[j]) {
      if j > 0 { assert ps[j] == tl[j - 1]; }
    }
  }

  /** `ps[0]` is first-lowest when nobody after it has a smaller screen. */
  lemma FirstLowestHead(ps: seq<Player>)
    requires |ps| > 0 && HasScreen(ps[0])
    requires forall j :: 0 <= j < |ps[1..]| && HasScreen(ps[1..][j]) ==> Key(ps[0]) <= Key(ps[1..][j])
    ensures FirstLowestScreen(ps, 0)
  {
    forall j | 0 <= j < |ps| && HasScreen(ps[j]) ensures Key(ps[0]) <= Key(ps[j]) {
      if j > 0 { assert ps[j] == ps[1..][j - 1]; }
    }
  }

  /** One step of the induction below: the head of the sort, given the head for `ps[1..]`. */
  lemma SortHeadStep(ps: seq<Player>, k': int)
    requires |ps| > 0 && |SortByScreen(WithScreen(ps[1..]))| > 0
    requires FirstLowestScreen(ps[1..], k') && SortByScreen(WithScreen(ps[1..]))[0] == ps[1..][k']
    ensures |SortByScreen(WithScreen(ps))| > 0
    ensures exists k :: FirstLowestScreen(ps, k) && SortByScreen(WithScreen(ps))[0] == ps[k]
  {
    var tl := ps[1..];
    var t := SortByScreen(WithScreen(tl));
    if !HasScreen(ps[0]) {
      assert WithScreen(ps) == WithScreen(tl);
      FirstLowestShift(ps, k');
      assert SortByScreen(WithScreen(ps))[0] == ps[k' + 1];
    } else {
      assert ([ps[0]] + WithScreen(tl))[1..] == WithScreen(tl);
      assert SortByScreen(WithScreen(ps)) == Insert(ps[0], t);
      if Key(ps[0]) <= Key(t[0]) {
        FirstLowestHead(ps);
        assert SortByScreen(WithScreen(ps))[0] == ps[0];
      } else {
        FirstLowestShift(ps, k');
        assert SortByScreen(WithScreen(ps))[0] == ps[k' + 1];
      }
    }
  }

  /** The base of the induction below: only `ps[0]` has a screen. */
  lemma SortHeadAlone(ps: seq<Player>)
    requires |ps| > 0 && HasScreen(ps[0]) && |WithScreen(ps[1..])| == 0
    ensures |SortByScreen(WithScreen(ps))| > 0
    ensures FirstLowestScreen(ps, 0) && SortByScreen(WithScreen(ps))[0] == ps[0]
  {
    var tl := ps[1..];
    WithScreenEmpty(tl);
    assert WithScreen(ps) == [ps[0]];
    FirstLowestHead(ps);
  }

  lemma {:induction false} SortHeadIsFirstLowest(ps: seq<Player>)
    requires exists j :: 0 <= j < |ps| && HasScreen(ps[j])
    ensures |SortByScreen(WithScreen(ps))| > 0
    ensures exists k :: FirstLowestScreen(ps, k) && SortByScreen(WithScreen(ps))[0] == ps[k]
  {
    var tl := ps[1..];
    WithScreenEmpty(tl);
    SortPermutes(WithScreen(tl));
    if |WithScreen(tl)| > 0 {
      SortHeadIsFirstLowest(tl);
      var k' :| FirstLowestScreen(tl, k') && SortByScreen(WithScreen(tl))[0] == tl[k'];
      SortHeadStep(ps, k');
    } else {
      forall j | 0 < j < |ps| ensures !HasScreen(ps[j]) {
        assert ps[j] == tl[j - 1];
      }
      SortHeadAlone(ps);
    }
  }

  /**
   * `(playersWithScreen[0]?.player?.userId) ?? players[0].userId`: the player
   * with the lowest numeric screen (the earliest such player on a tie), or the
   * first player when nobody has a numeric screen.
   */
  function StartOwner(ps: seq<Player>): (owner: int)
    requires |ps| > 0
    ensures (forall j :: 0 <= j < |ps| ==> !HasScreen(ps[j])) ==> owner == ps[0].userId
    ensures (exists j :: 0 <= j < |ps| && HasScreen(ps[j])) ==>
              exists k :: FirstLowestScreen(ps, k) && owner == ps[k].userId
    ensures HasUser(ps, owner)
  {
    WithScreenEmpty(ps);
    SortPermutes(WithScreen(ps));
    var ws := SortByScreen(WithScreen(ps));
    if |ws| > 0 then
      SortHeadIsFirstLowest(ps);
      ws[0].userId
    else
      ps[0].userId
  }

  /** `orderedPlayers.findIndex(p => p.userId === owner)`: -1 when absent. */
  function IndexOfUser(order: seq<Player>, userId: int): (i: int)
    ensures -1 <= i < |order|
    ensures i == -1 <==> !HasUser(order, userId)
    ensures i >= 0 ==> order[i].userId == userId && forall j :: 0 <= j < i ==> order[j].userId != userId
  {
    match FindPlayer(order, userId)
    case Some(i) => i
    case None => -1
  }

  /**
   * The owner after a lap: the successor of `owner` in the turn order,
   * wrapping around, or the first in the order when `owner` is not a player.
   */
  function NextOwner(ps: seq<Player>, owner: int): (next: int)
    requires |ps| > 0
    ensures HasUser(ps, next)
    ensures !HasUser(ps, owner) ==> next == Ordered(ps)[0].userId
  {
    OrderedMembers(ps);
    var order := Ordered(ps);
    var idx := IndexOfUser(order, owner);
    order[(idx + 1) % |order|].userId
  }

  /** With distinct user ids, a lap moves the boat exactly one place along the turn order. */
  lemma NextOwnerStep(ps: seq<Player>, i: int)
    requires UniqueUsers(ps) && 0 <= i < |ps|
    ensures |Ordered(ps)| == |ps|
    ensures NextOwner(ps, Ordered(ps)[i].userId) ==
            Ordered(ps)[if i + 1 < |ps| then i + 1 else 0].userId
  {
    OrderedMembers(ps);
    OrderedUnique(ps);
    var o := Ordered(ps);
    assert IndexOfUser(o, o[i].userId) == i;
    SuccMod(i, |ps|);
  }

  lemma SuccMod(i: int, n: int)
    requires 0 <= i < n
    ensures (i + 1) % n == if i + 1 < n then i + 1 else 0
  {
  }

  /** `owner` after `laps` laps. */
  function Rotate(ps: seq<Player>, owner: int, laps: nat): int
    requires |ps| > 0
  {
    if laps == 0 then owner else NextOwner(ps, Rotate(ps, owner, laps - 1))
  }

  /**
   * Rotation is fair: starting from the player at place i of the turn order,
   * m laps later (m at most the number of players) the boat is m places
   * further along, wrapping around; so each player holds it once in n laps
   * and after n laps it is back with the first holder.
   */
  lemma {:induction false} RotateCycles(ps: seq<Player>, i: int, m: nat)
    requires UniqueUsers(ps) && 0 <= i < |ps| && m <= |ps|
    ensures |Ordered(ps)| == |ps|
    ensures Rotate(ps, Ordered(ps)[i].userId, m) == Ordered(ps)[Along(|ps|, i, m)].userId
  {
    OrderedLength(ps);
    var o := Ordered(ps);
    if m == 0 {
      assert Rotate(ps, o[i].userId, m) == o[Along(|ps|, i, m)].userId;
    } else {
      var k := m - 1;
      RotateCycles(ps, i, k);
      RotateUnfold(ps, o[i].userId, m);
      NextOwnerAlong(ps, i, m);
      assert Rotate(ps, o[i].userId, m) == o[Along(|ps|, i, m)].userId;
    }
  }

  /** The place `m` steps after place `i` on a round of `n` places. */
  function Along(n: int, i: int, m: int): (k: int)
    requires 0 <= i < n && 0 <= m <= n
    ensures 0 <= k < n && (k == i + m || k == i + m - n)
  {
    if i + m < n then i + m else i + m - n
  }

  lemma RotateUnfold(ps: seq<Player>, owner: int, m: nat)
    requires |ps| > 0 && m > 0
    ensures Rotate(ps, owner, m) == NextOwner(ps, Rotate(ps, owner, m - 1))
  {
  }

  /** From place `m - 1` after `i`, a lap leads to place `m` after `i`. */
  lemma NextOwnerAlong(ps: seq<Player>, i: int, m: int)
    requires UniqueUsers(ps) && 0 <= i < |ps| && 0 < m <= |ps|
    ensures |Ordered(ps)| == |ps|
    ensures NextOwner(ps, Ordered(ps)[Along(|ps|, i, m - 1)].userId) == Ordered(ps)[Along(|ps|, i, m)].userId
  {
    var p := Along(|ps|, i, m - 1);
    NextOwnerStep(ps, p);
    assert (if p + 1 < |ps| then p + 1 else 0) == Along(|ps|, i, m);
  }
}
