/**
 * What the session rules of QuiddlerService promise over whole operations:
 * registration and its ids, joining and leaving, a turn's score, the start
 * of a game, the advance of a round, the end of a game and the payloads
 * each client receives, the winner message, the round status, and the
 * forced end when the deck runs out.
 */
module SessionProps {
  import opened UserRecords
  import opened Callbacks
  import opened Numerals
  import opened Coordinator
  import Decks
  import Cards
  import DictOrder

  // ---------------------------------------------------------------------
  // The enumeration order versus the users map

  /** `readyForNewRound` holds exactly when every joined user has ended the turn. */
  lemma EveryTurnEnded(s: Session)
    requires Inv(s)
    ensures ReadyForNewRound(UserList(s)) <==> forall k :: k in s.users ==> s.users[k].turnEnded
  {
    var us := UserList(s);
    UserOrderKeys(s);
    if forall i :: 0 <= i < |us| ==> us[i].turnEnded {
      forall k | k in s.users ensures s.users[k].turnEnded {
        var i :| 0 <= i < |UserOrder(s)| && UserOrder(s)[i] == k;
        assert us[i] == s.users[k];
      }
    }
  }

  /** `readyToPlay` holds exactly when every joined user is ready. */
  lemma EveryUserReady(s: Session)
    requires Inv(s)
    ensures ReadyToPlay(UserList(s)) <==> forall k :: k in s.users ==> s.users[k].isReady
  {
    var us := UserList(s);
    UserOrderKeys(s);
    if forall i :: 0 <= i < |us| ==> us[i].isReady {
      forall k | k in s.users ensures s.users[k].isReady {
        var i :| 0 <= i < |UserOrder(s)| && UserOrder(s)[i] == k;
        assert us[i] == s.users[k];
      }
    }
  }

  // ---------------------------------------------------------------------
  // Registration

  /**
   * A client is registered exactly when fewer than `U` clients are and no
   * game runs.  It then gets the next id, which no registered client holds
   * and which exceeds every id handed out before, and the next id goes up
   * by one; nothing else changes.  A refused client gets -1, a running game
   * being reported before a full one, and the state stays as it was.
   */
  lemma RegisterOutcome(s: Session, U: int)
    requires Inv(s)
    ensures var r := Register(s, U);
      (r.id != -1 <==> |ClientOrder(s)| < U && !s.gameInProgress) &&
      (r.id != -1 ==>
        r.id == s.clientId && r.msg == "Success" && r.s.clientId == s.clientId + 1 &&
        r.id !in ClientOrder(s) && r.id in ClientOrder(r.s) &&
        |ClientOrder(r.s)| == |ClientOrder(s)| + 1 &&
        (forall k :: k in ClientOrder(s) ==> k < r.id) &&
        r.s.users == s.users && r.s.userSlots == s.userSlots &&
        r.s.roundCount == s.roundCount && r.s.gameInProgress == s.gameInProgress) &&
      (r.id == -1 ==>
        r.s == s &&
        r.msg == if s.gameInProgress then "The game is currently in progress" else "The game is already full")
  {
    if |ClientOrder(s)| < U && !s.gameInProgress {
      IssueId(s.clientSlots, s.clientId);
      var d := DictOrder.Add(s.clientSlots, s.clientId);
      var i := DictOrder.AddSlot(s.clientSlots);
      var a, b := DictOrder.Order(s.clientSlots.entries[..i]), DictOrder.Order(s.clientSlots.entries[i..]);
      assert DictOrder.Order(d.entries) == a + [s.clientId] + b;
      assert ClientOrder(s) == a + b;
    }
  }

  /** Leaving never lowers the next id, so an id is never handed out twice. */
  lemma UnregisterKeepsNextId(s: Session, R: int, id: int)
    requires Inv(s)
    ensures Unregister(s, R, id).s.clientId == s.clientId
  {
    if id in s.users {
      var l := Leave(s, id);
      assert l.clientId == s.clientId;
    }
  }

  // ---------------------------------------------------------------------
  // updateAllClients

  /** Every joined user has ended the turn (true when nobody has joined). */
  ghost predicate AllTurnsEnded(s: Session)
  {
    forall k :: k in s.users ==> s.users[k].turnEnded
  }

  /**
   * Whether `updateAllClients(startGame, endGame)` ends the game: after a
   * round advance exactly when the new round number exceeds `R`, otherwise
   * as the caller asked.
   */
  ghost predicate EndsGame(s: Session, R: int, startGame: bool, endGame: bool)
  {
    if !startGame && AllTurnsEnded(s) then R < s.roundCount + 1 else endGame
  }

  /** The phase and the end decision of `updateAllClients`, stated on the users map. */
  lemma PhaseFacts(s: Session, R: int, startGame: bool, endGame: bool)
    requires Inv(s)
    ensures PhaseOf(s, startGame) == if startGame then Starting else if AllTurnsEnded(s) then Advancing else Idle
    ensures Ends(s, PhaseOf(s, startGame), R, endGame) == EndsGame(s, R, startGame, endGame)
  {
    EveryTurnEnded(s);
  }

  /**
   * What `updateAllClients` does to the state.  A new game sets round 1 and
   * resets every user's score and flags; otherwise, once every user has
   * ended the turn, the turns are cleared and the round goes up by exactly
   * one; otherwise the users and the round stay.  The game runs afterwards
   * exactly when it ran or was started, and did not end.  The dictionaries
   * and the next id are never touched.
   */
  lemma UpdateAllState(s: Session, R: int, startGame: bool, endGame: bool)
    requires Inv(s)
    ensures var r := UpdateAll(s, R, startGame, endGame);
      (startGame ==> r.s.roundCount == 1 && r.s.users == ResetForGame(s.users)) &&
      (!startGame && AllTurnsEnded(s) ==> r.s.roundCount == s.roundCount + 1 && r.s.users == ClearTurns(s.users)) &&
      (!startGame && !AllTurnsEnded(s) ==> r.s.roundCount == s.roundCount && r.s.users == s.users) &&
      r.s.gameInProgress == (!EndsGame(s, R, startGame, endGame) && (startGame || s.gameInProgress)) &&
      r.s.clientSlots == s.clientSlots && r.s.userSlots == s.userSlots && r.s.clientId == s.clientId
  {
    PhaseFacts(s, R, startGame, endGame);
    var ph := PhaseOf(s, startGame);
    var s1 := Enter(s, ph);
    var s2 := if Ends(s, ph, R, endGame) then s1.(gameInProgress := false) else s1;
    assert UpdateAll(s, R, startGame, endGame).s == s2;
  }

  /**
   * When the game ends, no exception is possible and every registered
   * client, in order, gets the same payload: the game over, play disabled,
   * readying enabled, the round status "R/R", the roster and the winner.
   */
  lemma EndOfGamePayloads(s: Session, R: int, startGame: bool, endGame: bool)
    requires Inv(s) && EndsGame(s, R, startGame, endGame)
    ensures var r := UpdateAll(s, R, startGame, endGame);
      var us := UserList(r.s);
      !r.fault && !r.s.gameInProgress &&
      Recipients(r.sends) == ClientOrder(s) &&
      forall i :: 0 <= i < |r.sends| ==>
        r.sends[i].info == CallbackInfoDC(PlayerList(us), startGame, true, false, true,
                                          WinnerMessage(us, true, false), IntToString(R) + "/" + IntToString(R))
  {
    PhaseFacts(s, R, startGame, endGame);
    var r := UpdateAll(s, R, startGame, endGame);
    assert ClientOrder(r.s) == ClientOrder(s);
    var ids := Recipients(r.sends);
    assert ids == ClientOrder(s);
  }

  /**
   * When the game goes on, the registered clients are notified in order,
   * each with its own payload: play enabled exactly when that user has not
   * ended the turn, readying enabled exactly when neither a new game nor a
   * new round began and no game runs, the round status "round/R", and no
   * winner.  The loop stops with an exception at the first client that has
   * not joined, and there is one exactly when such a client exists.
   */
  lemma WaitingPayloads(s: Session, R: int, startGame: bool, endGame: bool)
    requires Inv(s) && !EndsGame(s, R, startGame, endGame)
    ensures var r := UpdateAll(s, R, startGame, endGame);
      var clients := ClientOrder(s);
      (r.fault <==> exists i :: 0 <= i < |clients| && clients[i] !in s.users) &&
      (!r.fault ==> |r.sends| == |clients|) &&
      |r.sends| <= |clients| &&
      forall i :: 0 <= i < |r.sends| ==>
        var k, p := r.sends[i].to, r.sends[i].info;
        k == clients[i] && k in r.s.users &&
        p.gameState == !r.s.users[k].turnEnded &&
        p.readyState == (!startGame && !AllTurnsEnded(s) && !s.gameInProgress) &&
        p.startGame == startGame && !p.endGame && p.endGameMsg == "" &&
        p.roundStatus == RoundStatus(false, r.s.roundCount, R) &&
        p.usersLst == PlayerList(UserList(r.s))
  {
    PhaseFacts(s, R, startGame, endGame);
    var r := UpdateAll(s, R, startGame, endGame);
    assert ClientOrder(r.s) == ClientOrder(s);
  }

  // ---------------------------------------------------------------------
  // Joining and leaving

  /**
   * `Join` refuses an id already joined by throwing, with nothing changed.
   * Otherwise the user is added under its id with its name, score and ready
   * flag, and comes last in the enumeration order as long as no user ever
   * left; the other users stay joined.
   */
  lemma JoiningUser(s: Session, R: int, u: UserDC)
    requires Inv(s)
    ensures var r := Join(s, R, u);
      (u.ID in s.users ==> r == Step(s, [], true)) &&
      (u.ID !in s.users ==>
        r.s.users.Keys == s.users.Keys + {u.ID} &&
        r.s.users[u.ID].Name == u.Name && r.s.users[u.ID].Score == u.Score &&
        r.s.users[u.ID].isReady == u.isReady &&
        (s.userSlots.free == [] ==> UserOrder(r.s) == UserOrder(s) + [u.ID]))
  {
    if u.ID !in s.users {
      var j := Joined(s, u);
      JoinedFacts(s, u);
      UpdateAllState(j, R, false, false);
      var r := UpdateAll(j, R, false, false);
      assert Join(s, R, u) == r;
      if AllTurnsEnded(j) {
        assert r.s.users[u.ID] == u.(turnEnded := false);
      } else {
        assert r.s.users == j.users;
      }
    }
  }

  /** The state `Join` hands to `updateAllClients`: `u` stored under its id, last in the order when no slot is free. */
  lemma JoinedFacts(s: Session, u: UserDC)
    requires Inv(s) && u.ID !in s.users
    ensures var j := Joined(s, u);
      j.users == s.users[u.ID := u] && j.users.Keys == s.users.Keys + {u.ID} &&
      (s.userSlots.free == [] ==> UserOrder(j) == UserOrder(s) + [u.ID])
  {
    UserOrderKeys(s);
  }

  /**
   * `Unregister_client` of a joined id removes it from the users and the
   * clients, keeps everyone else in the same relative order, notifies only
   * the clients that remain, and never hands the id out again.
   */
  lemma LeavingUser(s: Session, R: int, id: int)
    requires Inv(s) && id in s.users
    ensures var r := Unregister(s, R, id);
      r.s.users.Keys == s.users.Keys - {id} &&
      UserOrder(r.s) == DictOrder.Without(UserOrder(s), id) &&
      ClientOrder(r.s) == DictOrder.Without(ClientOrder(s), id) &&
      id !in ClientOrder(r.s) && r.s.clientId == s.clientId &&
      forall i :: 0 <= i < |r.sends| ==> r.sends[i].to != id
  {
    var l := Leave(s, id);
    UpdateAllState(l, R, false, false);
    var r := UpdateAll(l, R, false, false);
    if EndsGame(l, R, false, false) {
      EndOfGamePayloads(l, R, false, false);
      forall i | 0 <= i < |r.sends| ensures r.sends[i].to != id {
        assert r.sends[i].to == Recipients(r.sends)[i];
        assert r.sends[i].to in ClientOrder(l);
      }
    } else {
      WaitingPayloads(l, R, false, false);
    }
  }

  /**
   * When the last user leaves, the game stops and the round count is reset
   * to 0; the same call's `readyForNewRound`, vacuously true for no users,
   * then raises it to 1.  With at least one round per game the game goes on,
   * and nobody is notified: the first client still registered has no user
   * record, so the loop throws exactly when such a client exists.  With no
   * rounds at all the game ends and every remaining client gets the end.
   */
  lemma LastUserLeaves(s: Session, R: int, id: int)
    requires Inv(s) && s.users.Keys == {id}
    ensures var r := Unregister(s, R, id);
      r.s.users == map[] && !r.s.gameInProgress && r.s.roundCount == 1 &&
      (1 <= R ==> r.sends == [] && (r.fault <==> ClientOrder(r.s) != [])) &&
      (R < 1 ==> !r.fault && Recipients(r.sends) == ClientOrder(r.s) &&
                 forall i :: 0 <= i < |r.sends| ==> r.sends[i].info.endGame)
  {
    var l := Leave(s, id);
    assert l.users.Keys == {};
    assert |l.users| == 0;
    assert AllTurnsEnded(l);
    UpdateAllState(l, R, false, false);
    var r := UpdateAll(l, R, false, false);
    assert ClientOrder(r.s) == ClientOrder(l);
    if 1 <= R {
      WaitingPayloads(l, R, false, false);
      assert |ClientOrder(l)| > 0 ==> ClientOrder(l)[0] !in l.users;
      assert r.sends == [];
    } else {
      EndOfGamePayloads(l, R, false, false);
    }
  }

  // ---------------------------------------------------------------------
  // A turn, readiness, cards

  /**
   * `updateScore` of a joined user returns its old score plus the points of
   * the cards, counted only when some were used; the user keeps that score.
   * Its turn stays ended exactly when that turn did not complete the round;
   * when it did, the round advanced by one.
   */
  lemma ScoringTurn(s: Session, R: int, template: seq<Cards.Card>, userId: int, cardsUsed: seq<string>)
    requires Inv(s) && userId in s.users
    ensures var r := UpdateScore(s, R, template, userId, cardsUsed);
      var s1 := s.(users := s.users[userId := TurnTaken(s.users[userId], template, cardsUsed)]);
      r.score == s.users[userId].Score + (if |cardsUsed| > 0 then Decks.ScoreOf(template, cardsUsed) else 0) &&
      r.step.s.users.Keys == s.users.Keys && r.step.s.users[userId].Score == r.score &&
      r.step.s.users[userId].turnEnded == !AllTurnsEnded(s1) &&
      r.step.s.roundCount == (if AllTurnsEnded(s1) then s.roundCount + 1 else s.roundCount)
  {
    var s1 := s.(users := s.users[userId := TurnTaken(s.users[userId], template, cardsUsed)]);
    SameKeys(s, s1.users);
    UpdateAllState(s1, R, false, false);
  }

  /** Resetting for a new game clears the ready flag, so readying a user first makes no difference. */
  lemma ResetForgetsReady(users: map<int, UserDC>, userId: int)
    requires userId in users
    ensures ResetForGame(users[userId := users[userId].(isReady := true)]) == ResetForGame(users)
  {
    var a, b := ResetForGame(users[userId := users[userId].(isReady := true)]), ResetForGame(users);
    forall k | k in a ensures k in b && a[k] == b[k] {
      if k == userId {
        assert a[k] == users[k].(isReady := true).(Score := 0, isReady := false, turnEnded := false);
      }
    }
  }

  /**
   * `userReady` of a joined user starts a new game (with a new deck) exactly
   * when every other user is ready already: round 1, the game running, every
   * score and flag reset.  Otherwise only the user's ready flag changes and
   * nobody is notified.
   */
  lemma ReadyingUser(s: Session, R: int, userId: int)
    requires Inv(s) && userId in s.users
    ensures var r := UserReady(s, R, userId);
      (r.newDeck <==> forall k :: k in s.users && k != userId ==> s.users[k].isReady) &&
      (r.newDeck ==>
        r.step.s.gameInProgress && r.step.s.roundCount == 1 && r.step.s.users == ResetForGame(s.users)) &&
      (!r.newDeck ==>
        r.step.s == s.(users := s.users[userId := s.users[userId].(isReady := true)]) && r.step.sends == [] && !r.step.fault)
  {
    var s1 := s.(users := s.users[userId := s.users[userId].(isReady := true)]);
    SameKeys(s, s1.users);
    EveryUserReady(s1);
    var r := UserReady(s, R, userId);
    if ReadyToPlay(UserList(s1)) {
      assert r == Readied(UpdateAll(s1, R, true, false), true);
      UpdateAllState(s1, R, true, false);
      ResetForgetsReady(s.users, userId);
    } else {
      assert r == Readied(Step(s1, [], false), false);
    }
  }

  /**
   * `getCards(n)` from cursor `idx` either deals the next `n` cards, leaving
   * the cursor just past them and notifying nobody, or — for a negative `n`
   * or when fewer than `n` cards remain before the last — returns no cards
   * and forces the end of the game, the cards dealt before the refusal
   * staying dealt.
   */
  lemma DrawingCards(s: Session, R: int, pile: seq<string>, idx: int, n: int)
    requires Inv(s) && 0 <= idx < |pile|
    ensures var d := GetCards(s, R, pile, idx, n);
      var ok := 0 <= n && (n == 0 || idx + n <= |pile| - 1);
      (ok ==> d.cards == pile[idx..idx + n] && d.cursor == idx + n && d.sends == []) &&
      (!ok ==> d.cards == [] && d.sends == ForceEndSends(s, R) &&
               d.cursor == if n < 0 || |pile| - 1 <= idx then idx else |pile| - 1)
  {
    if 0 <= n {
      Decks.DealRunClosedForm(pile, idx, n);
    }
  }

  /**
   * `forceEndGame` notifies every registered client, in order, with the same
   * payload: the game over, play disabled, readying enabled, "R/R", the
   * roster and the end-of-deck winner message.
   */
  lemma ForcedEnd(s: Session, R: int)
    requires Inv(s)
    ensures var sends := ForceEndSends(s, R);
      var us := UserList(s);
      Recipients(sends) == ClientOrder(s) &&
      forall i :: 0 <= i < |sends| ==>
        sends[i].info == CallbackInfoDC(PlayerList(us), false, true, false, true,
                                        WinnerMessage(us, false, true), IntToString(R) + "/" + IntToString(R))
  {
    var sends := ForceEndSends(s, R);
    var ids := Recipients(sends);
    assert ids == ClientOrder(s);
  }
  // ---------------------------------------------------------------------
  // The winner message and the round status

  /** The winner is the first user with the highest score, when that score is positive. */
  lemma {:induction false} LeaderIsFirstBest(us: seq<UserDC>, p: int)
    requires 0 <= p < |us| && us[p].Score > 0
    requires forall i :: 0 <= i < |us| ==> us[i].Score <= us[p].Score
    requires forall i :: 0 <= i < p ==> us[i].Score < us[p].Score
    ensures Leader(us) == p
  {
    var q := Leader(us);
    assert us[q].Score == us[p].Score by {
      assert us[p].Score <= us[q].Score;
    }
    assert !(q < p);
    assert !(p < q);
  }

  /**
   * With several users, the message names the first user with the highest
   * score and that score — as the winner at the end of the game, or with
   * "End of deck" when the deck ran out.
   */
  lemma WinnerAmongSeveral(us: seq<UserDC>, p: int, endGame: bool, noMoreCards: bool)
    requires 1 < |us| && 0 <= p < |us| && us[p].Score > 0
    requires forall i :: 0 <= i < |us| ==> us[i].Score <= us[p].Score
    requires forall i :: 0 <= i < p ==> us[i].Score < us[p].Score
    requires endGame || noMoreCards
    ensures WinnerMessage(us, endGame, noMoreCards) ==
      if noMoreCards then "End of deck, " + us[p].Name + " wins with a score of " + IntToString(us[p].Score) + "!"
      else "The winner is " + us[p].Name + " with a score of " + IntToString(us[p].Score) + "!"
  {
    LeaderIsFirstBest(us, p);
  }

  /**
   * Nobody wins exactly when no user scored above 0; otherwise the message
   * begins with "The winner is", "End of deck" or "You scored".
   */
  lemma NobodyWins(us: seq<UserDC>, endGame: bool, noMoreCards: bool)
    requires endGame || noMoreCards
    ensures WinnerMessage(us, endGame, noMoreCards) == "Nobody wins, please play again" <==>
      forall i :: 0 <= i < |us| ==> us[i].Score <= 0
  {
    var r := WinnerMessage(us, endGame, noMoreCards);
    var p := Leader(us);
    if p >= 0 {
      var name, shown := us[p].Name, IntToString(us[p].Score);
      if |us| > 1 && noMoreCards {
        assert r == "End of deck, " + name + " wins with a score of " + shown + "!";
        assert r[0] == 'E';
      } else if |us| > 1 {
        assert r == "The winner is " + name + " with a score of " + shown + "!";
        assert r[0] == 'T';
      } else {
        var head := if noMoreCards then "End of deck, you scored " + shown else "You scored " + shown;
        assert r == head + (if us[p].Score > 40 then ", Good Job!" else "");
        assert r[0] == head[0] != 'N';
      }
    }
  }

  /**
   * A sole player is told its own score, with "End of deck" when the deck
   * ran out, and praised above 40 points.
   */
  lemma SolePlayer(u: UserDC, endGame: bool, noMoreCards: bool)
    requires u.Score > 0 && (endGame || noMoreCards)
    ensures WinnerMessage([u], endGame, noMoreCards) ==
      (if noMoreCards then "End of deck, you scored " else "You scored ") + IntToString(u.Score) +
      (if u.Score > 40 then ", Good Job!" else "")
  {
    LeaderIsFirstBest([u], 0);
  }

  /** With the scores 40, 25 and 0, the first user wins with 40. */
  lemma WinnerExample()
    ensures WinnerMessage([UserDC(1, "ann", false, true, 40), UserDC(2, "bob", false, true, 25),
                           UserDC(3, "cy", false, true, 0)], true, false)
            == "The winner is ann with a score of 40!"
  {
    var us := [UserDC(1, "ann", false, true, 40), UserDC(2, "bob", false, true, 25), UserDC(3, "cy", false, true, 0)];
    LeaderIsFirstBest(us, 0);
    assert NatToString(4) == "4";
    assert NatToString(40) == NatToString(4) + "0";
  }

  /**
   * The round status is the shown round and the round limit in decimal,
   * around a '/' that neither number contains, and both numbers read back.
   */
  lemma RoundStatusReadBack(endGame: bool, roundCount: int, R: int)
    requires 0 <= roundCount && 0 <= R
    ensures var shown := if endGame then R else roundCount;
      RoundStatus(endGame, roundCount, R) == NatToString(shown) + "/" + NatToString(R) &&
      '/' !in NatToString(shown) && '/' !in NatToString(R) &&
      ParseDigits(NatToString(shown)) == shown && ParseDigits(NatToString(R)) == R
  {
    ParseNatToString(if endGame then R else roundCount);
    ParseNatToString(R);
  }

  /** Two texts followed by the same suffix are equal only when the texts are. */
  lemma CancelSuffix(x: string, y: string, t: string)
    requires x + t == y + t
    ensures x == y
  {
    assert |x| == |y|;
    assert x == (x + t)[..|x|] && y == (y + t)[..|y|];
  }

  /** Distinct rounds of the same game show distinct statuses. */
  lemma RoundStatusInjective(a: int, b: int, R: int)
    requires 0 <= a && 0 <= b && 0 <= R
    ensures RoundStatus(false, a, R) == RoundStatus(false, b, R) <==> a == b
  {
    if RoundStatus(false, a, R) == RoundStatus(false, b, R) {
      var x, y, t := NatToString(a), NatToString(b), "/" + NatToString(R);
      assert RoundStatus(false, a, R) == x + t && RoundStatus(false, b, R) == y + t;
      CancelSuffix(x, y, t);
      NatToStringInjective(a, b);
    }
  }
}
