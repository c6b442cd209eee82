/**
 * The session rules of QuiddlerService, stated on values: the session
 * state, the read-only queries (`usernameExists`, `readyForNewRound`,
 * `readyToPlay`, `getPlayerList`, `getRoundStatus`, `getWinner`) and what
 * each operation does to the state and which notifications it sends.
 * The service class proves its methods against these functions.
 *
 * A broadcast is the sequence of `UpdateGui` calls it makes, in order.
 * An exception that escapes an operation is a fault: the state changes and
 * the notifications made before the throw are kept, as in C#.
 */
module Coordinator {
  import opened Wrappers
  import opened UserRecords
  import opened Callbacks
  import opened Numerals
  import Decks
  import Cards
  import DictOrder

  /** The fields of the service that the rules read and write (the deck and word list aside). */
  datatype Session = Session(
    users: map<int, UserDC>,
    userSlots: DictOrder.Slots,
    clientSlots: DictOrder.Slots,
    clientId: int,
    roundCount: int,
    gameInProgress: bool)

  /** Ids of the joined users, in the order `users` enumerates them. */
  function UserOrder(s: Session): seq<int>
  {
    DictOrder.Order(s.userSlots.entries)
  }

  /** Ids of the registered clients, in the order `clients` enumerates them. */
  function ClientOrder(s: Session): seq<int>
  {
    DictOrder.Order(s.clientSlots.entries)
  }

  /**
   * Both dictionaries are well formed, the user order lists exactly the
   * keys of `users`, and every client id was handed out by an earlier
   * registration, so it lies below the next id to hand out.
   */
  ghost predicate Inv(s: Session)
  {
    KeysListed(s.users.Keys, s.userSlots) && IdsIssued(s.clientSlots, s.clientId)
  }

  /** A well-formed dictionary whose keys are exactly `keys`. */
  ghost predicate KeysListed(keys: set<int>, d: DictOrder.Slots)
  {
    DictOrder.Valid(d) && forall k :: k in keys <==> k in DictOrder.Order(d.entries)
  }

  /** The user order lists exactly the joined ids. */
  lemma UserOrderKeys(s: Session)
    requires Inv(s)
    ensures forall k :: k in s.users <==> k in UserOrder(s)
    ensures forall i :: 0 <= i < |UserOrder(s)| ==> UserOrder(s)[i] in s.users
  {
    assert UserOrder(s) == DictOrder.Order(s.userSlots.entries);
    forall k ensures k in s.users <==> k in UserOrder(s) {
      assert k in s.users <==> k in s.users.Keys;
    }
    forall i | 0 <= i < |UserOrder(s)| ensures UserOrder(s)[i] in s.users {
      assert UserOrder(s)[i] in UserOrder(s);
    }
  }

  /** Handing out `next` keeps the ids issued, and `next` was not in use. */
  lemma IssueId(d: DictOrder.Slots, next: int)
    requires IdsIssued(d, next)
    ensures next !in DictOrder.Order(d.entries)
    ensures IdsIssued(DictOrder.Add(d, next), next + 1)
  {
    var o := DictOrder.Order(d.entries);
    var r := DictOrder.Add(d, next);
    var i := DictOrder.AddSlot(d);
    var a, b := DictOrder.Order(d.entries[..i]), DictOrder.Order(d.entries[i..]);
    assert DictOrder.Order(r.entries) == a + [next] + b;
    assert o == a + b;
    forall k | k in DictOrder.Order(r.entries) ensures 1 <= k < next + 1 {
      if k != next { assert k in a || k in b; assert k in o; }
    }
  }

  /** A well-formed dictionary whose keys are ids below `next`, counting from 1. */
  ghost predicate IdsIssued(d: DictOrder.Slots, next: int)
  {
    DictOrder.Valid(d) && 1 <= next && forall k :: k in DictOrder.Order(d.entries) ==> 1 <= k < next
  }

  /** The state right after the constructor: no users, no clients, ids from 1. */
  function Initial(): (s: Session)
    ensures Inv(s)
  {
    Session(map[], DictOrder.Empty(), DictOrder.Empty(), 1, 0, false)
  }

  /** `users.Values`: the user records in enumeration order. */
  function UserList(s: Session): (us: seq<UserDC>)
    requires Inv(s)
    ensures |us| == |UserOrder(s)|
    ensures forall i :: 0 <= i < |us| ==> UserOrder(s)[i] in s.users && us[i] == s.users[UserOrder(s)[i]]
  {
    var o := UserOrder(s);
    UserOrderKeys(s);
    seq(|o|, i requires 0 <= i < |o| && o[i] in s.users => s.users[o[i]])
  }

  // ---------------------------------------------------------------------
  // Read-only queries

  /** `usernameExists`: some user's name equals `name` exactly (case-sensitive). */
  function UsernameExists(us: seq<UserDC>, name: string): (r: bool)
    ensures r <==> exists i :: 0 <= i < |us| && us[i].Name == name
  {
    if us == [] then false
    else if us[0].Name == name then true
    else
      var r := UsernameExists(us[1..], name);
      assert forall i :: 1 <= i < |us| ==> us[1..][i - 1] == us[i];
      r
  }

  /** `readyForNewRound`: every user has ended the turn (true when there are no users). */
  function ReadyForNewRound(us: seq<UserDC>): (r: bool)
    ensures r <==> forall i :: 0 <= i < |us| ==> us[i].turnEnded
  {
    if us == [] then true
    else if !us[0].turnEnded then false
    else
      var r := ReadyForNewRound(us[1..]);
      assert forall i :: 1 <= i < |us| ==> us[1..][i - 1] == us[i];
      r
  }

  /** `readyToPlay`: every user is ready (true when there are no users). */
  function ReadyToPlay(us: seq<UserDC>): (r: bool)
    ensures r <==> forall i :: 0 <= i < |us| ==> us[i].isReady
  {
    if us == [] then true
    else if !us[0].isReady then false
    else
      var r := ReadyToPlay(us[1..]);
      assert forall i :: 1 <= i < |us| ==> us[1..][i - 1] == us[i];
      r
  }

  /** One roster line: the name, " : ", the score. */
  function RosterLine(u: UserDC): (r: string)
    ensures var n := |u.Name|;
      n + 3 < |r| && r[..n] == u.Name && r[n..n + 3] == " : " && r[n + 3..] == IntToString(u.Score)
  {
    var r := u.Name + " : " + IntToString(u.Score);
    assert r[..|u.Name|] == u.Name && r[|u.Name|..|u.Name| + 3] == " : ";
    assert r[|u.Name| + 3..] == IntToString(u.Score);
    r
  }

  /** `getPlayerList`: one roster line per user, in enumeration order. */
  function PlayerList(us: seq<UserDC>): (r: seq<string>)
    ensures |r| == |us|
    ensures forall i :: 0 <= i < |us| ==> r[i] == RosterLine(us[i])
  {
    seq(|us|, i requires 0 <= i < |us| => RosterLine(us[i]))
  }

  /** `getRoundStatus`: "R/R" once the game ends, otherwise "roundCount/R". */
  function RoundStatus(endGame: bool, roundCount: int, R: int): (r: string)
    ensures var k := |IntToString(if endGame then R else roundCount)|;
      |r| == k + 1 + |IntToString(R)| && r[k] == '/'
  {
    var a, b := IntToString(if endGame then R else roundCount), IntToString(R);
    var r := a + "/" + b;
    assert r[..|a|] == a && r[|a| + 1..] == b;
    r
  }

  /** Score of the running leader: the placeholder's 0 while there is none. */
  function LeaderScore(us: seq<UserDC>, p: int): int
    requires p < |us|
  {
    if p < 0 then 0 else us[p].Score
  }

  /**
   * The user `getWinner` settles on: starting from a placeholder with score
   * 0, each user in turn takes over when its score is strictly higher.  The
   * result is the index of that user, or -1 when the placeholder survives.
   * So it is the first user with the highest score, when that score is
   * positive.
   */
  function Leader(us: seq<UserDC>): (p: int)
    ensures -1 <= p < |us|
    ensures p == -1 <==> forall i :: 0 <= i < |us| ==> us[i].Score <= 0
    ensures p >= 0 ==> us[p].Score > 0
    ensures p >= 0 ==> forall i :: 0 <= i < |us| ==> us[i].Score <= us[p].Score
    ensures p >= 0 ==> forall i :: 0 <= i < p ==> us[i].Score < us[p].Score
  {
    if us == [] then -1
    else
      var u := us[..|us| - 1];
      var p := Leader(u);
      assert forall i :: 0 <= i < |u| ==> u[i] == us[i];
      if LeaderScore(u, p) < us[|us| - 1].Score then |us| - 1 else p
  }

  /**
   * `getWinner(endGame, noMoreCards)`: the end-of-game message, built from
   * the leader's name and score; "" while the game goes on.
   */
  function WinnerMessage(us: seq<UserDC>, endGame: bool, noMoreCards: bool): (r: string)
    ensures r == "" <==> !(endGame || noMoreCards)
  {
    if !(endGame || noMoreCards) then ""
    else
      var p := Leader(us);
      var best := LeaderScore(us, p);
      if best == 0 then "Nobody wins, please play again"
      else if |us| > 1 then
        if noMoreCards then "End of deck, " + us[p].Name + " wins with a score of " + IntToString(best) + "!"
        else "The winner is " + us[p].Name + " with a score of " + IntToString(best) + "!"
      else
        (if noMoreCards then "End of deck, you scored " + IntToString(best) else "You scored " + IntToString(best)) +
        (if best > 40 then ", Good Job!" else "")
  }

  // ---------------------------------------------------------------------
  // Notifications

  /** The same payload pushed to each of the clients, in order. */
  function Broadcast(clients: seq<int>, info: CallbackInfoDC): (r: seq<Send>)
    ensures |r| == |clients|
    ensures forall i :: 0 <= i < |clients| ==> r[i] == Send(clients[i], info)
  {
    seq(|clients|, i requires 0 <= i < |clients| => Send(clients[i], info))
  }

  /** The payload a waiting client `k` receives: `base` with its own turn state. */
  function OwnPayload(users: map<int, UserDC>, k: int, base: CallbackInfoDC): CallbackInfoDC
    requires k in users
  {
    base.(gameState := !users[k].turnEnded)
  }

  /** The calls a notification loop made, and whether it ended in an exception. */
  datatype Delivery = Delivery(sends: seq<Send>, fault: bool)

  /**
   * The per-recipient loop of `updateAllClients`: each client in order gets
   * its own payload; `users[cb.Key]` throws for a client that has not
   * joined, which stops the loop there.
   */
  function WaitingSends(clients: seq<int>, users: map<int, UserDC>, base: CallbackInfoDC): (d: Delivery)
    ensures d.fault <==> exists i :: 0 <= i < |clients| && clients[i] !in users
    ensures |d.sends| <= |clients|
    ensures !d.fault ==> |d.sends| == |clients|
    ensures d.fault ==> |d.sends| < |clients| && clients[|d.sends|] !in users
    ensures forall i :: 0 <= i < |d.sends| ==>
      clients[i] in users && d.sends[i] == Send(clients[i], OwnPayload(users, clients[i], base))
  {
    if clients == [] then Delivery([], false)
    else
      var n := |clients| - 1;
      var d := WaitingSends(clients[..n], users, base);
      assert forall i :: 0 <= i < n ==> clients[..n][i] == clients[i];
      if d.fault then d
      else if clients[n] in users then
        Delivery(d.sends + [Send(clients[n], OwnPayload(users, clients[n], base))], false)
      else Delivery(d.sends, true)
  }

  // ---------------------------------------------------------------------
  // updateAllClients

  /** Which branch of `updateAllClients` runs first: a new game, a new round, or neither. */
  datatype Phase = Starting | Advancing | Idle

  function PhaseOf(s: Session, startGame: bool): Phase
    requires Inv(s)
  {
    if startGame then Starting
    else if ReadyForNewRound(UserList(s)) then Advancing
    else Idle
  }

  /** Every user with score 0 and both flags cleared, as a new game has them. */
  function ResetForGame(users: map<int, UserDC>): (r: map<int, UserDC>)
    ensures r.Keys == users.Keys
    ensures forall k :: k in r ==> r[k] == users[k].(Score := 0, isReady := false, turnEnded := false)
  {
    map k | k in users :: users[k].(Score := 0, isReady := false, turnEnded := false)
  }

  /** Every user's turn cleared for a new round. */
  function ClearTurns(users: map<int, UserDC>): (r: map<int, UserDC>)
    ensures r.Keys == users.Keys
    ensures forall k :: k in r ==> r[k] == users[k].(turnEnded := false)
  {
    map k | k in users :: users[k].(turnEnded := false)
  }

  /** The state changes of the first branch: start a game, or begin the next round. */
  function Enter(s: Session, ph: Phase): (r: Session)
    requires Inv(s)
    ensures Inv(r)
  {
    match ph
    case Starting => s.(gameInProgress := true, roundCount := 1, users := ResetForGame(s.users))
    case Advancing => s.(users := ClearTurns(s.users), roundCount := s.roundCount + 1)
    case Idle => s
  }

  /** Whether the call ends the game: decided anew after a round advance, otherwise as asked. */
  function Ends(s: Session, ph: Phase, R: int, endGame: bool): bool
  {
    if ph == Advancing then !(s.roundCount + 1 <= R) else endGame
  }

  /** What an operation did: the new state, the notifications sent, and whether it threw. */
  datatype Step = Step(s: Session, sends: seq<Send>, fault: bool)

  /**
   * `updateAllClients(startGame, endGame)` with `R` rounds per game: run the
   * start or new-round branch, end the game if due, then notify the
   * clients — the same end-of-game payload to all, or each waiting client
   * its own payload.
   */
  function UpdateAll(s: Session, R: int, startGame: bool, endGame: bool): (r: Step)
    requires Inv(s)
    ensures Inv(r.s)
    ensures r.s.clientSlots == s.clientSlots && r.s.userSlots == s.userSlots && r.s.clientId == s.clientId
    ensures r.s.users.Keys == s.users.Keys
  {
    var ph := PhaseOf(s, startGame);
    var s1 := Enter(s, ph);
    var end := Ends(s, ph, R, endGame);
    var s2 := if end then s1.(gameInProgress := false) else s1;
    var d := Notify(s2, R, startGame, end, ph != Idle, ph == Idle && !s.gameInProgress);
    Step(s2, d.sends, d.fault)
  }

  /**
   * The notification half of `updateAllClients` in state `s`: the roster,
   * the winner message and the round status go to every client — the same
   * end-of-game payload to all when the game ends, otherwise each waiting
   * client its own.
   */
  function Notify(s: Session, R: int, startGame: bool, end: bool, gameState: bool, readyState: bool): (d: Delivery)
    requires Inv(s)
    ensures |d.sends| <= |ClientOrder(s)| && (!d.fault ==> |d.sends| == |ClientOrder(s)|)
    ensures end ==> !d.fault
    ensures Recipients(d.sends) == ClientOrder(s)[..|d.sends|]
  {
    var us := UserList(s);
    var base := CallbackInfoDC(PlayerList(us), startGame, end, gameState, readyState,
                               WinnerMessage(us, end, false), RoundStatus(end, s.roundCount, R));
    if end then Delivery(Broadcast(ClientOrder(s), base.(gameState := false, readyState := true)), false)
    else WaitingSends(ClientOrder(s), s.users, base)
  }

  // ---------------------------------------------------------------------
  // Operations

  /** What `Register_client` did: the new state, and the id and message it returned. */
  datatype Registration = Registration(s: Session, id: int, msg: string)

  /**
   * `Register_client` with room for `U` clients: while no game runs and
   * fewer than `U` clients are registered, store a client under the next
   * id and hand that id out; otherwise refuse with -1, reporting a running
   * game before a full one.  Names are not looked at.
   */
  function Register(s: Session, U: int): (r: Registration)
    requires Inv(s)
    ensures Inv(r.s)
  {
    if |ClientOrder(s)| < U && !s.gameInProgress then
      IssueId(s.clientSlots, s.clientId);
      Registration(s.(clientSlots := DictOrder.Add(s.clientSlots, s.clientId), clientId := s.clientId + 1),
                   s.clientId, "Success")
    else if s.gameInProgress then
      Registration(s, -1, "The game is currently in progress")
    else
      Registration(s, -1, "The game is already full")
  }

  /** `Join(u)`: add the user under its id (a duplicate id throws), then update all clients. */
  function Join(s: Session, R: int, u: UserDC): (r: Step)
    requires Inv(s)
    ensures Inv(r.s)
  {
    if u.ID in s.users then Step(s, [], true)
    else UpdateAll(Joined(s, u), R, false, false)
  }

  /** The state once `u` is added under its id: last in the order, or in the slot freed last. */
  function Joined(s: Session, u: UserDC): (r: Session)
    requires Inv(s) && u.ID !in s.users
    ensures Inv(r)
  {
    UserOrderKeys(s);
    s.(users := s.users[u.ID := u], userSlots := DictOrder.Add(s.userSlots, u.ID))
  }

  /** Replacing user records without changing the ids keeps the invariant. */
  lemma SameKeys(s: Session, users: map<int, UserDC>)
    requires Inv(s) && users.Keys == s.users.Keys
    ensures Inv(s.(users := users))
  {
  }

  /** The state once `id` has left: out of both dictionaries, and the game reset when nobody is left. */
  function Leave(s: Session, id: int): (r: Session)
    requires Inv(s)
    ensures Inv(r)
  {
    var s1 := s.(clientSlots := DictOrder.Remove(s.clientSlots, id),
                 users := s.users - {id},
                 userSlots := DictOrder.Remove(s.userSlots, id));
    if |s1.users| == 0 then s1.(gameInProgress := false, roundCount := 0) else s1
  }

  /**
   * `Unregister_client(id)`: reading the leaving user's name throws for an
   * id that never joined; otherwise the id leaves and all clients are updated.
   */
  function Unregister(s: Session, R: int, id: int): (r: Step)
    requires Inv(s)
    ensures Inv(r.s)
  {
    if id !in s.users then Step(s, [], true)
    else UpdateAll(Leave(s, id), R, false, false)
  }

  /** What `updateScore` did, and the score it returned (meaningless after a fault). */
  datatype Scored = Scored(step: Step, score: int)

  /** The user after its turn: the cards' points added when some were used, the turn ended. */
  function TurnTaken(u: UserDC, template: seq<Cards.Card>, cardsUsed: seq<string>): (v: UserDC)
    ensures v.ID == u.ID && v.Name == u.Name && v.isReady == u.isReady && v.turnEnded
    ensures v.Score == u.Score + Decks.ScoreOf(template, cardsUsed)
    ensures (forall i :: 0 <= i < |template| ==> template[i].Value >= 0) ==> v.Score >= u.Score
  {
    (if |cardsUsed| > 0 then u.(Score := u.Score + Decks.ScoreOf(template, cardsUsed)) else u).(turnEnded := true)
  }

  /**
   * `updateScore(userId, cardsUsed)`: credit the turn to the user (an
   * unknown id throws before anything changes), update all clients, and
   * return the user's score.
   */
  function UpdateScore(s: Session, R: int, template: seq<Cards.Card>, userId: int, cardsUsed: seq<string>): (r: Scored)
    requires Inv(s)
    ensures Inv(r.step.s)
  {
    if userId !in s.users then Scored(Step(s, [], true), 0)
    else
      var s1 := s.(users := s.users[userId := TurnTaken(s.users[userId], template, cardsUsed)]);
      var st := UpdateAll(s1, R, false, false);
      Scored(st, st.s.users[userId].Score)
  }

  /** What `userReady` did, and whether it repopulated and reshuffled the deck. */
  datatype Readied = Readied(step: Step, newDeck: bool)

  /**
   * `userReady(userId)`: mark the user ready (an unknown id throws); once
   * every user is ready, a fresh deck is dealt and the game starts.
   */
  function UserReady(s: Session, R: int, userId: int): (r: Readied)
    requires Inv(s)
    ensures Inv(r.step.s)
  {
    if userId !in s.users then Readied(Step(s, [], true), false)
    else
      var s1 := s.(users := s.users[userId := s.users[userId].(isReady := true)]);
      if ReadyToPlay(UserList(s1)) then Readied(UpdateAll(s1, R, true, false), true)
      else Readied(Step(s1, [], false), false)
  }

  /** `forceEndGame`: every client gets the same end-of-deck payload; the state is left as it is. */
  function ForceEndSends(s: Session, R: int): (r: seq<Send>)
    requires Inv(s)
    ensures Recipients(r) == ClientOrder(s)
    ensures forall i :: 0 <= i < |r| ==> r[i].info.endGame && !r[i].info.gameState && r[i].info.endGameMsg != ""
  {
    var us := UserList(s);
    Broadcast(ClientOrder(s), CallbackInfoDC(PlayerList(us), false, true, false, true,
                                             WinnerMessage(us, false, true), RoundStatus(true, s.roundCount, R)))
  }

  /** What `getCards` did: the cards returned, the deck cursor after it, and the notifications sent. */
  datatype Drawn = Drawn(cards: seq<string>, cursor: int, sends: seq<Send>)

  /**
   * `getCards(cardCount)` on a pile with cursor `idx`: a negative count
   * fails to allocate the array; otherwise cards are dealt one by one, and
   * the first refusal abandons the request.  A failure forces the end of
   * the game and returns no cards, but the cards dealt before it stay dealt.
   */
  function GetCards(s: Session, R: int, pile: seq<string>, idx: int, cardCount: int): (r: Drawn)
    requires Inv(s) && 0 <= idx
    ensures idx <= r.cursor
    ensures r.cards == [] || (|r.cards| == cardCount && r.cursor == idx + cardCount && r.sends == [])
    ensures forall i :: 0 <= i < |r.cards| ==> idx + i < |pile| && r.cards[i] == pile[idx + i]
    ensures r.sends == [] || r.sends == ForceEndSends(s, R)
    ensures 0 <= cardCount && idx + cardCount <= |pile| - 1 ==> |r.cards| == cardCount && r.sends == []
    ensures cardCount < 0 || (0 < cardCount && |pile| - 1 < idx + cardCount) ==>
      r.cards == [] && r.sends == ForceEndSends(s, R)
  {
    if cardCount < 0 then Drawn([], idx, ForceEndSends(s, R))
    else
      var d := Decks.DealRun(pile, idx, cardCount);
      if d.complete then
        assert 0 < cardCount ==> d.drawn[cardCount - 1] in d.drawn && idx + cardCount - 1 < |pile| - 1;
        Drawn(d.drawn, d.cursor, [])
      else Drawn([], d.cursor, ForceEndSends(s, R))
  }
}
