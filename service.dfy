/**
 * The game service (QuiddlerService): one instance holds the joined users,
 * the registered clients, the id and round counters, the deck and the word
 * list.  Each operation is proved to change the state and to notify the
 * clients exactly as the session rules of the Coordinator module say.
 *
 * Callback channels are represented by the client ids they belong to; a
 * notification is returned as a `Send` instead of being pushed.
 */
module Service {
  import opened Wrappers
  import opened UserRecords
  import opened Callbacks
  import opened Coordinator
  import opened Decks
  import opened WordLists
  import DictOrder

  class QuiddlerService {
    var users: map<int, UserDC>
    var userSlots: DictOrder.Slots
    var clientSlots: DictOrder.Slots
    var clientId: int
    var roundCount: int
    var gameInProgress: bool
    const deck: Deck
    const words: Words
    /** Most clients that may register (`settings.UserCount`). */
    const UserCount: int
    /** Rounds per game (`settings.RoundCount`). */
    const RoundCount: int

    /** The session fields as a value. */
    function State(): Session
      reads this
    {
      Session(users, userSlots, clientSlots, clientId, roundCount, gameInProgress)
    }

    ghost predicate Valid()
      reads this, deck
    {
      Inv(State()) && deck.Valid()
    }

    /**
     * `new QuiddlerService()` with the configured limits, the random indices
     * of the first shuffle and the lines of the word file: no users, no
     * clients, ids from 1, round 0, no game running.
     */
    constructor (userCount: int, roundCount: int, picks: seq<int>, wordLines: seq<string>)
      requires |picks| == PileSize && PicksInRange(picks, PileSize)
      ensures Valid() && State() == Initial()
      ensures UserCount == userCount && RoundCount == roundCount
      ensures fresh(deck) && |Expand(deck.template)| == PileSize && deck.cards == ShufflePass(Expand(deck.template), picks, PileSize) && deck.cardIdx == 0
      ensures fresh(words) && words.words == wordLines
    {
      var d := new Deck(picks);
      var w := new Words(TextFile, "Resources/Data/Words.txt", wordLines, []);
      deck := d;
      words := w;
      users := map[];
      userSlots := DictOrder.Empty();
      clientSlots := DictOrder.Empty();
      clientId := 1;
      this.roundCount := 0;
      gameInProgress := false;
      UserCount := userCount;
      RoundCount := roundCount;
      new;
      assert State() == Initial();
    }

    // -------------------------------------------------------------------
    // Queries

    /** `usernameExists`: some joined user has exactly this name. */
    function UsernameExists(name: string): (r: bool)
      reads this
      requires Inv(State())
      ensures r <==> exists k :: k in users && users[k].Name == name
    {
      var us := UserList(State());
      UserOrderKeys(State());
      if Coordinator.UsernameExists(us, name) then
        true
      else
        assert forall k :: k in users ==> users[k].Name != name by {
          forall k | k in users ensures users[k].Name != name {
            var i :| 0 <= i < |UserOrder(State())| && UserOrder(State())[i] == k;
            assert us[i] == users[k];
          }
        }
        false
    }

    /** `validate`: the word list holds the word. */
    function Validate(word: string): (r: bool)
      reads this, words
      ensures r <==> word in words.words
    {
      words.Validate(word)
    }

    // -------------------------------------------------------------------
    // Notifying the clients

    /** The `foreach (var callback in clients.Values)` loop: the same payload to every client, in order. */
    method NotifyAll(info: CallbackInfoDC) returns (sends: seq<Send>)
      ensures sends == Broadcast(ClientOrder(State()), info)
    {
      var clients := DictOrder.Order(clientSlots.entries);
      sends := [];
      var i := 0;
      while i < |clients|
        invariant 0 <= i <= |clients|
        invariant sends == Broadcast(clients[..i], info)
      {
        sends := sends + [Send(clients[i], info)];
        i := i + 1;
      }
      assert clients[..i] == clients;
    }

    /**
     * The `foreach (var cb in clients)` loop of a waiting update: each client
     * its own payload, until a client that has not joined makes
     * `users[cb.Key]` throw.
     */
    method NotifyEach(base: CallbackInfoDC) returns (sends: seq<Send>, fault: bool)
      ensures Delivery(sends, fault) == WaitingSends(ClientOrder(State()), users, base)
    {
      var clients := DictOrder.Order(clientSlots.entries);
      sends := [];
      var i := 0;
      while i < |clients| && clients[i] in users
        invariant 0 <= i <= |clients| && |sends| == i
        invariant forall j :: 0 <= j < i ==> clients[j] in users && sends[j] == Send(clients[j], OwnPayload(users, clients[j], base))
      {
        sends := sends + [Send(clients[i], OwnPayload(users, clients[i], base))];
        i := i + 1;
      }
      fault := i < |clients|;
      var d := WaitingSends(clients, users, base);
      assert |d.sends| == i;
    }

    /** `forceEndGame`: every client gets the end-of-deck payload; no field changes. */
    method ForceEndGame() returns (sends: seq<Send>)
      requires Inv(State())
      ensures sends == ForceEndSends(State(), RoundCount)
    {
      var us := UserList(State());
      var info := CallbackInfoDC(PlayerList(us), false, true, false, true,
                                 WinnerMessage(us, false, true), RoundStatus(true, roundCount, RoundCount));
      sends := NotifyAll(info);
    }

    // -------------------------------------------------------------------
    // updateAllClients

    /** The `foreach` of a new game: every user back to score 0, not ready, turn not ended. */
    method ResetUsersForGame()
      requires Inv(State())
      modifies this`users
      ensures users == ResetForGame(old(users))
    {
      var order := DictOrder.Order(userSlots.entries);
      UserOrderKeys(State());
      var i := 0;
      while i < |order|
        invariant 0 <= i <= |order|
        invariant users.Keys == old(users).Keys
        invariant forall k :: k in users ==>
          users[k] == if k in order[..i] then old(users)[k].(Score := 0, isReady := false, turnEnded := false) else old(users)[k]
      {
        var k := order[i];
        assert k in order;
        assert k !in order[..i] by {
          forall j | 0 <= j < i ensures order[j] != k { }
        }
        users := users[k := users[k].(Score := 0, isReady := false, turnEnded := false)];
        assert forall x :: x in order[..i + 1] <==> x in order[..i] || x == k by {
          assert order[..i + 1] == order[..i] + [k];
        }
        i := i + 1;
      }
      assert order[..i] == order;
      forall k | k in users ensures users[k] == ResetForGame(old(users))[k] {
        assert k in order;
      }
    }

    /** The `foreach` of a new round: every user's turn cleared. */
    method ClearUserTurns()
      requires Inv(State())
      modifies this`users
      ensures users == ClearTurns(old(users))
    {
      var order := DictOrder.Order(userSlots.entries);
      UserOrderKeys(State());
      var i := 0;
      while i < |order|
        invariant 0 <= i <= |order|
        invariant users.Keys == old(users).Keys
        invariant forall k :: k in users ==>
          users[k] == if k in order[..i] then old(users)[k].(turnEnded := false) else old(users)[k]
      {
        var k := order[i];
        assert k in order;
        assert k !in order[..i] by {
          forall j | 0 <= j < i ensures order[j] != k { }
        }
        users := users[k := users[k].(turnEnded := false)];
        assert forall x :: x in order[..i + 1] <==> x in order[..i] || x == k by {
          assert order[..i + 1] == order[..i] + [k];
        }
        i := i + 1;
      }
      assert order[..i] == order;
      forall k | k in users ensures users[k] == ClearTurns(old(users))[k] {
        assert k in order;
      }
    }

    /**
     * `updateAllClients(startGame, endGame)`: start a game or begin the next
     * round when due, end the game when due, then notify the clients.
     */
    method UpdateAllClients(startGame: bool, endGame: bool) returns (sends: seq<Send>, fault: bool)
      requires Inv(State())
      modifies this
      ensures Inv(State())
      ensures var r := UpdateAll(old(State()), RoundCount, startGame, endGame);
        State() == r.s && sends == r.sends && fault == r.fault
    {
      var end := endGame;
      var gameState := false;
      var readyState := false;
      ghost var s0 := State();
      ghost var ph := PhaseOf(s0, startGame);
      if startGame {
        gameInProgress := true;
        roundCount := 1;
        ResetUsersForGame();
        gameState := true;
        readyState := false;
      } else if ReadyForNewRound(UserList(State())) {
        ClearUserTurns();
        gameState := true;
        readyState := false;
        roundCount := roundCount + 1;
        end := !(roundCount <= RoundCount);
      } else if !gameInProgress {
        readyState := true;
      }
      assert State() == Enter(s0, ph);
      assert end == Ends(s0, ph, RoundCount, endGame);
      assert gameState == (ph != Idle) && readyState == (ph == Idle && !s0.gameInProgress);
      if end {
        gameInProgress := false;
        gameState := false;
        readyState := true;
      }
      sends, fault := SendUpdate(startGame, end, gameState, readyState);
    }

    /**
     * The second half of `updateAllClients`: the roster, the winner and the
     * round status to every client — each waiting client its own payload,
     * or the one end-of-game payload to all.
     */
    method SendUpdate(startGame: bool, end: bool, gameState: bool, readyState: bool) returns (sends: seq<Send>, fault: bool)
      requires Inv(State())
      requires end ==> !gameState && readyState
      ensures Delivery(sends, fault) == Notify(State(), RoundCount, startGame, end, gameState, readyState)
    {
      var us := UserList(State());
      var players := PlayerList(us);
      var winner := WinnerMessage(us, end, false);
      var info := CallbackInfoDC(players, startGame, end, gameState, readyState, winner, RoundStatus(end, roundCount, RoundCount));
      if !end {
        sends, fault := NotifyEach(info);
      } else {
        sends := NotifyAll(info);
        fault := false;
      }
    }

    // -------------------------------------------------------------------
    // Operations

    /**
     * `Register_client`: store the calling client under the next id and
     * return it, or refuse with -1 and the reason.
     */
    method RegisterClient() returns (id: int, msg: string)
      requires Valid()
      modifies this
      ensures Valid()
      ensures var r := Register(old(State()), UserCount); State() == r.s && id == r.id && msg == r.msg
    {
      if |DictOrder.Order(clientSlots.entries)| < UserCount && !gameInProgress {
        IssueId(clientSlots, clientId);
        clientSlots := DictOrder.Add(clientSlots, clientId);
        id := clientId;
        clientId := clientId + 1;
        msg := "Success";
      } else if gameInProgress {
        id, msg := -1, "The game is currently in progress";
      } else {
        id, msg := -1, "The game is already full";
      }
    }

    /** `Join(objUser)`: add the user under its id (a duplicate throws), then update all clients. */
    method Join(u: UserDC) returns (sends: seq<Send>, fault: bool)
      requires Valid()
      modifies this
      ensures Valid()
      ensures var r := Coordinator.Join(old(State()), RoundCount, u);
        State() == r.s && sends == r.sends && fault == r.fault
    {
      if u.ID in users {
        sends, fault := [], true;
        return;
      }
      AddUser(u);
      sends, fault := UpdateAllClients(false, false);
    }

    /** `users.Add(objUser.ID, objUser)`. */
    method AddUser(u: UserDC)
      requires Inv(State()) && u.ID !in users
      modifies this`users, this`userSlots
      ensures State() == Joined(old(State()), u)
    {
      ghost var joined := Joined(State(), u);
      UserOrderKeys(State());
      users := users[u.ID := u];
      userSlots := DictOrder.Add(userSlots, u.ID);
      assert users == joined.users && userSlots == joined.userSlots;
    }

    /**
     * `Unregister_client(id)`: an id that never joined throws; otherwise
     * drop it from both dictionaries, reset the game when nobody is left,
     * and update all clients.
     */
    method UnregisterClient(id: int) returns (sends: seq<Send>, fault: bool)
      requires Valid()
      modifies this
      ensures Valid()
      ensures var r := Unregister(old(State()), RoundCount, id);
        State() == r.s && sends == r.sends && fault == r.fault
    {
      if id !in users {
        sends, fault := [], true;
        return;
      }
      RemoveUser(id);
      sends, fault := UpdateAllClients(false, false);
    }

    /** `clients.Remove(id)` and `users.Remove(id)`, then the reset of an empty game. */
    method RemoveUser(id: int)
      requires Inv(State())
      modifies this`clientSlots, this`users, this`userSlots, this`gameInProgress, this`roundCount
      ensures State() == Leave(old(State()), id)
    {
      clientSlots := DictOrder.Remove(clientSlots, id);
      users := users - {id};
      userSlots := DictOrder.Remove(userSlots, id);
      if |users| == 0 {
        gameInProgress := false;
        roundCount := 0;
      }
    }

    /**
     * `updateScore(userId, cardsUsed)`: add the cards' points when some were
     * used, end the user's turn, update all clients, return the new score.
     */
    method UpdateScore(userId: int, cardsUsed: seq<string>) returns (score: int, sends: seq<Send>, fault: bool)
      requires Valid()
      modifies this
      ensures Valid()
      ensures var r := Coordinator.UpdateScore(old(State()), RoundCount, deck.template, userId, cardsUsed);
        State() == r.step.s && sends == r.step.sends && fault == r.step.fault && score == r.score
    {
      if userId !in users {
        score, sends, fault := 0, [], true;
        return;
      }
      ghost var turned := TurnTaken(users[userId], deck.template, cardsUsed);
      if |cardsUsed| > 0 {
        var points := deck.GetScore(cardsUsed);
        users := users[userId := users[userId].(Score := users[userId].Score + points)];
      }
      users := users[userId := users[userId].(turnEnded := true)];
      assert users[userId] == turned;
      assert users == old(users)[userId := turned];
      SameKeys(old(State()), users);
      ghost var s1 := State();
      assert s1 == old(State()).(users := old(State()).users[userId := turned]);
      ghost var st := UpdateAll(s1, RoundCount, false, false);
      assert Coordinator.UpdateScore(old(State()), RoundCount, deck.template, userId, cardsUsed)
          == Scored(st, st.s.users[userId].Score);
      sends, fault := UpdateAllClients(false, false);
      score := users[userId].Score;
    }

    /**
     * `userReady(userId)`: mark the user ready; once all are, repopulate and
     * reshuffle the deck (with the given random indices) and start the game.
     */
    method UserReady(userId: int, picks: seq<int>) returns (sends: seq<Send>, fault: bool)
      requires Valid()
      requires |picks| == PileSize && PicksInRange(picks, PileSize)
      modifies this, deck
      ensures Valid()
      ensures var r := Coordinator.UserReady(old(State()), RoundCount, userId);
        State() == r.step.s && sends == r.step.sends && fault == r.step.fault &&
        (r.newDeck ==> deck.cards == ShufflePass(Expand(deck.template), picks, PileSize) && deck.cardIdx == 0) &&
        (!r.newDeck ==> deck.cards == old(deck.cards) && deck.cardIdx == old(deck.cardIdx))
      ensures deck.template == old(deck.template)
    {
      if userId !in users {
        sends, fault := [], true;
        return;
      }
      users := users[userId := users[userId].(isReady := true)];
      SameKeys(old(State()), users);
      if ReadyToPlay(UserList(State())) {
        deck.Populate();
        PileSizeFact(deck.template);
        deck.Shuffle(picks);
        sends, fault := UpdateAllClients(true, false);
      } else {
        sends, fault := [], false;
      }
    }

    /**
     * `getCards(cardCount)`: deal `cardCount` cards.  A negative count or an
     * exhausted deck forces the end of the game and returns no cards; the
     * cards dealt before the failure stay dealt.
     */
    method GetCards(cardCount: int) returns (cards: seq<string>, sends: seq<Send>)
      requires Valid()
      modifies deck
      ensures Valid()
      ensures var d := Coordinator.GetCards(State(), RoundCount, old(deck.cards), old(deck.cardIdx), cardCount);
        cards == d.cards && deck.cardIdx == d.cursor && sends == d.sends
      ensures deck.cards == old(deck.cards) && deck.template == old(deck.template)
    {
      if cardCount < 0 {
        sends := ForceEndGame();
        cards := [];
        return;
      }
      var drawn, complete := Draw(cardCount);
      if complete {
        cards, sends := drawn, [];
      } else {
        sends := ForceEndGame();
        cards := [];
      }
    }

    /** The `for` loop of `getCards`: one `getCard` per card, until one throws. */
    method Draw(cardCount: nat) returns (cards: seq<string>, complete: bool)
      requires deck.Valid()
      modifies deck`cardIdx
      ensures deck.Valid()
      ensures var d := DealRun(deck.cards, old(deck.cardIdx), cardCount);
        complete == d.complete && deck.cardIdx == d.cursor && (complete ==> cards == d.drawn)
    {
      ghost var pile, start := deck.cards, deck.cardIdx;
      DealRunClosedForm(pile, start, cardCount);
      cards := [];
      var i := 0;
      while i < cardCount
        invariant 0 <= i <= cardCount
        invariant 0 <= deck.cardIdx < |pile| == |deck.cards|
        invariant (deck.cardIdx == start + i && start + i <= |pile| - 1) || (i == 0 && deck.cardIdx == start)
        invariant cards == pile[start..deck.cardIdx]
      {
        var c := deck.GetCard();
        if c.None? {
          return cards, false;
        }
        cards := cards + [c.value];
        i := i + 1;
      }
      complete := true;
    }
  }
}
