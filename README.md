# Quiddler game service — a Dafny model

This project models the core of a networked Quiddler card game: the
single-instance game service (`QuiddlerService`), its deck (`Deck`), its
word list (`Words`), the records they exchange (`Card`, `UserDC`,
`CallbackInfoDC`), and the two string helpers of the client window
(`append` and `remove`).

What is proved, and what is not:

- Each method of the classes is proved to compute what a pure function of
  the model says. For example, each `QuiddlerService` method computes the
  `Coordinator` function for the same operation.
- The properties below are proved about those functions.
- That the functions themselves follow the C# code is by construction:
  each was written line by line against the code. That part is not
  proved.

The service works as follows:

- Clients register and get an id. They join as users, ready up and play
  rounds.
- Each call ends in `updateAllClients`. It decides between starting a game,
  advancing a round, ending the game and waiting. It then pushes a
  `CallbackInfoDC` to every registered client.
- In the model, a push is a returned `Send(recipient id, payload)`. An
  exception that escapes an operation is a `fault`. The state changes and
  the pushes made before the throw are kept, as they are in C#.

Modules:

- `Coordinator`: the session rules, stated on values.
  - `Session` holds the users, both dictionaries, `clientId`, `roundCount`
    and `gameInProgress`.
  - It contains the read-only queries.
  - It contains one function per operation, giving the new state, the sends
    and the fault.
- `Service`: the class `QuiddlerService`. Its fields, loops and in-place
  updates follow the C# code. Every method is proved against the
  `Coordinator` function for the same operation.
- `SessionProps`: lemmas stating what the operations promise.
- `DictOrder`: the enumeration order of a .NET `Dictionary<int, …>`. This
  order decides the roster order, the notification order and the winner's
  tie-break.
  - A dictionary is a slot array plus a free list. A removal frees its
    slot, and the next addition reuses the slot freed last.
  - Without removals this is insertion order.
- `Decks`: the 31-entry template and its 118-card pile. The class `Deck`
  has `Populate`, `Shuffle`, `GetCard` and `GetScore`.
- `WordLists`: the class `Words` and its loading.
- `Cards`, `UserRecords` and `Callbacks`: the records.
- `ClientText`: `append` and `remove`.
- `Numerals`: C#'s `int.ToString()`.
- `Wrappers`: `Option`.

Inputs the code gets from outside are parameters of the model:

- The random indices of `shuffle` are a sequence `picks`, one index in
  range per card.
- The lines of the word file and the rows of the word table are given as
  sequences.
- `UserCount` and `RoundCount` come from the configuration file. Here they
  are constructor parameters.

## Model

| member | source | states |
|---|---|---|
| ClientText.Lower | QuiddlerClient/QuiddlerUI.xaml.cs:291-292 | `ToLower` keeps the length and maps every character to lower case (ASCII) |
| ClientText.LowerCharMaps | QuiddlerClient/QuiddlerUI.xaml.cs:291-292 | an upper-case letter becomes the lower-case letter 32 code points on, so 'A' becomes 'a' and 'Z' becomes 'z' |
| ClientText.IndexOf | QuiddlerClient/QuiddlerUI.xaml.cs:339 | `IndexOf` is -1 exactly when the substring occurs nowhere, otherwise it is the position of the first occurrence |
| ClientText.Append | QuiddlerClient/QuiddlerUI.xaml.cs:287-293 | `append` is lower(full) followed by lower(sub): the length is the sum, and there is no upper-case letter |
| ClientText.Remove | QuiddlerClient/QuiddlerUI.xaml.cs:333-339 | `remove` returns lower(full) when lower(sub) does not occur in it. Otherwise it cuts out exactly the first occurrence, and the length drops by \|sub\|. There is no upper-case letter |
| ClientText.LowerIdempotent | QuiddlerClient/QuiddlerUI.xaml.cs:337-338 | lower-casing twice is lower-casing once |
| ClientText.AppendAssociative | QuiddlerClient/QuiddlerUI.xaml.cs:287-293 | appending two pieces in turn equals appending them joined |
| ClientText.RemoveUndoesAppend | QuiddlerClient/QuiddlerUI.xaml.cs:287-339 | removing what was just appended gives back lower(full), when sub occurs first at the appended position |
| Cards.CardRecord | QuiddlerLibrary/Card.cs:27-41 | the constructor keeps `l`, `c` and `v` as Letter, DeckCount and Value. Each setter changes its own property only |
| UserRecords.NewUser | QuiddlerLibrary/UserDC.cs:41-47 | a new user has the given name, both flags false, score 0, and the default ID 0 |
| Callbacks.PayloadRecord | QuiddlerLibrary/CallbackInfoDC.cs:53-61 | the constructor stores each of the seven arguments in its own property. Payloads are values, so they cannot change afterwards |
| Numerals.NatToString | QuiddlerLibrary/QuiddlerService.cs:170 | a number's `ToString` is a non-empty run of decimal digits with no leading zero |
| Numerals.IntToString | QuiddlerLibrary/QuiddlerService.cs:142 | `int.ToString()` is non-empty and starts with '-' exactly for a negative number. A non-negative number gives only digits, which read back to it |
| Numerals.ParseNatToString | QuiddlerLibrary/QuiddlerService.cs:170 | the decimal text reads back to the number |
| Numerals.NatToStringInjective | QuiddlerLibrary/QuiddlerService.cs:170 | distinct numbers print differently |
| Decks.TemplateShape | QuiddlerLibrary/Deck.cs:115-145 | the template has 31 entries with pairwise distinct letters, and every count and value is positive |
| Decks.Template | QuiddlerLibrary/Deck.cs:107-145 | `loadTemplate` lists 31 card types: the 26 single letters A to Z in alphabetical order, then five two-letter cards |
| Decks.PileSizeFact | QuiddlerLibrary/Deck.cs:115-145 | the template's counts add up to 118, the size of the expanded pile |
| Decks.PileCopiesFact | QuiddlerLibrary/Deck.cs:156-174 | the populated pile holds each template letter exactly DeckCount times |
| Decks.Expand | QuiddlerLibrary/Deck.cs:156-174 | the pile `populate` builds has as many cards as the template's counts add up to |
| Decks.ExpandCopies | QuiddlerLibrary/Deck.cs:167-173 | each letter of a template with distinct letters appears in the pile exactly as often as its entry's count |
| Decks.ExpandOnlyTemplateLetters | QuiddlerLibrary/Deck.cs:167-173 | a letter the template does not name never appears in the pile |
| Decks.TemplateWeightedTotal | QuiddlerLibrary/Deck.cs:115-145 | the sum over the template of count × value is 592 |
| Decks.PileScoreFact | QuiddlerLibrary/Deck.cs:83-145 | scoring the whole freshly populated pile gives 592 |
| Decks.ScoreOfConcat | QuiddlerLibrary/Deck.cs:83-101 | the score of two hands together is the sum of their scores |
| Decks.FirstValue | QuiddlerLibrary/Deck.cs:90-97 | the inner lookup of `getScore` never gives a negative value when the template has none |
| Decks.ScoreOf | QuiddlerLibrary/Deck.cs:83-101 | a score is never negative when the template's values are not |
| Decks.ScoreOfPermutation | QuiddlerLibrary/Deck.cs:83-101 | the score depends only on the multiset of tokens, not their order |
| Decks.FirstValueOfEntry | QuiddlerLibrary/Deck.cs:90-97 | with distinct letters, a template letter scores its own entry's value |
| Decks.ScoreOfRepeat | QuiddlerLibrary/Deck.cs:83-101 | n copies of a token score n times the token's value |
| Decks.ScoreOfExpandedPrefix | QuiddlerLibrary/Deck.cs:83-174 | scoring the cards that populate adds for the first k entries gives those entries' count × value total |
| Decks.Swap | QuiddlerLibrary/Deck.cs:198-203 | a swap exchanges two positions, leaves every other position alone, and keeps the multiset |
| Decks.ShufflePass | QuiddlerLibrary/Deck.cs:193-204 | the swap loop keeps the length |
| Decks.ShufflePassPermutes | QuiddlerLibrary/Deck.cs:185-205 | the whole swap loop is a permutation: the multiset of cards is unchanged |
| Decks.DealRunClosedForm | QuiddlerLibrary/Deck.cs:56-69 | n successive `getCard` calls succeed exactly when n positions remain before the last card. They deal consecutive cards and move the cursor past them. A refused run stops the cursor at the last card |
| Decks.DealRun | QuiddlerLibrary/QuiddlerService.cs:480-484 | repeated `getCard` calls deal the consecutive cards under the cursor, each before the last position. The cursor moves past exactly the cards dealt. The run completes exactly when all n cards come out, and a refused run stops at or past the last position |
| Decks.DealLimit | QuiddlerLibrary/Deck.cs:61 | from a fresh 118-card pile at most 117 cards can be dealt: the last card never is |
| Decks.Deck.constructor | QuiddlerLibrary/Deck.cs:36-50 | a new deck loads the template, populates it and shuffles it with the given indices. The cursor is 0 |
| Decks.Deck.Populate | QuiddlerLibrary/Deck.cs:156-174 | the pile becomes each template letter DeckCount times, in template order, and the cursor is 0 |
| Decks.Deck.Shuffle | QuiddlerLibrary/Deck.cs:185-205 | the pile becomes the swap loop's result. The deck stays well formed: same template, 118 cards, same multiset, cursor untouched |
| Decks.Deck.GetCard | QuiddlerLibrary/Deck.cs:56-69 | a card is dealt exactly when the cursor is before the last position. It is the card under the cursor, and the cursor advances by one. Otherwise the call fails and the cursor stays |
| Decks.Deck.GetScore | QuiddlerLibrary/Deck.cs:83-101 | the nested loop returns the sum, over the tokens, of the value of the first template entry with that letter (0 when none). It changes nothing |
| WordLists.WordColumn | QuiddlerLibrary/Words.cs:141-144 | the "word" values of the rows, one per row, in row order |
| WordLists.Loaded | QuiddlerLibrary/Words.cs:46-63 | a text file loads its lines, the database its rows' words in row order, and any other source nothing |
| WordLists.LoadedMembership | QuiddlerLibrary/Words.cs:46-63 | after loading, a word is accepted exactly when the selected source supplies it: a file line, or some row's word |
| WordLists.UnlistedAcceptsNothing | QuiddlerLibrary/Words.cs:56-63 | a source other than a file or a database loads nothing, so no word validates |
| WordLists.Words.constructor | QuiddlerLibrary/Words.cs:46-63 | the constructor records the source and file name. It loads from the file only for TextFile and from the table only for Database |
| WordLists.Words.Validate | QuiddlerLibrary/Words.cs:92-96 | true exactly when some element of the list equals the word (exact, case-sensitive). It reads only |
| WordLists.Words.GetWordsFromFile | QuiddlerLibrary/Words.cs:168-189 | earlier words are discarded. The list becomes the file's lines, in order |
| WordLists.Words.GetWordsFromDb | QuiddlerLibrary/Words.cs:138-144 | earlier words are discarded. The list becomes the rows' words, in row order |
| DictOrder.Add | QuiddlerLibrary/QuiddlerService.cs:534 | adding a new key keeps the dictionary well formed. The key enters the enumeration at the reused slot, or last when no slot is free. Every other key keeps its relative order |
| DictOrder.Remove | QuiddlerLibrary/QuiddlerService.cs:568-569 | removing a key keeps the dictionary well formed. The enumeration loses exactly that key, and the others keep their order |
| DictOrder.RemoveUndoesAdd | QuiddlerLibrary/QuiddlerService.cs:568-569 | removing a key just added gives back the same enumeration |
| DictOrder.AddCount | QuiddlerLibrary/QuiddlerService.cs:534 | after adding a new key, it is enumerated and the count grows by one |
| Coordinator.Initial | QuiddlerLibrary/QuiddlerService.cs:53-71 | the initial session (no users, no clients, next id 1, round 0, no game) satisfies the session invariant |
| Coordinator.IssueId | QuiddlerLibrary/QuiddlerService.cs:534-536 | the next id is held by no client, and every client id stays below the next id after it is handed out |
| Coordinator.UserList | QuiddlerLibrary/QuiddlerService.cs:140 | `users.Values` lists the record of each enumerated id, one per user |
| Coordinator.UsernameExists | QuiddlerLibrary/QuiddlerService.cs:658-679 | true exactly when some user's name equals the argument exactly |
| Coordinator.ReadyForNewRound | QuiddlerLibrary/QuiddlerService.cs:412-433 | true exactly when every user has ended the turn (so true with no users) |
| Coordinator.ReadyToPlay | QuiddlerLibrary/QuiddlerService.cs:439-460 | true exactly when every user is ready (so true with no users) |
| Coordinator.PlayerList | QuiddlerLibrary/QuiddlerService.cs:135-152 | one line "name : score" per user, in enumeration order |
| Coordinator.RosterLine | QuiddlerLibrary/QuiddlerService.cs:142 | a roster line is the name, then " : ", then the score's `ToString` |
| Coordinator.RoundStatus | QuiddlerLibrary/QuiddlerService.cs:159-180 | a '/' stands right after the shown round's text (R once the game ends) and the lengths add up; `SessionProps.RoundStatusReadBack` gives the digits on both sides for non-negative numbers |
| Coordinator.Leader | QuiddlerLibrary/QuiddlerService.cs:195-205 | the scan ends on no user exactly when no score is positive. Otherwise it ends on a user with a positive, highest score, strictly above every earlier user's score |
| Coordinator.WinnerMessage | QuiddlerLibrary/QuiddlerService.cs:188-257 | the message is empty exactly when neither end flag is set |
| Coordinator.Broadcast | QuiddlerLibrary/QuiddlerService.cs:276-279 | one push of the same payload to each client, in order |
| Coordinator.WaitingSends | QuiddlerLibrary/QuiddlerService.cs:376-381 | each client, in order, gets the payload with `gameState = !turnEnded` of its own user. The loop throws exactly when some client has not joined, and stops at the first such client |
| Coordinator.Notify | QuiddlerLibrary/QuiddlerService.cs:366-394 | the notification half never pushes more than one payload per client, in client order. It reaches every client unless it throws, and at the end of a game it never throws |
| Coordinator.ForceEndSends | QuiddlerLibrary/QuiddlerService.cs:266-286 | `forceEndGame` pushes to every registered client in order. Each payload ends the game, disables play and carries a non-empty winner message |
| Coordinator.ResetForGame | QuiddlerLibrary/QuiddlerService.cs:314-319 | every user, and only those, gets score 0 and both flags cleared |
| Coordinator.ClearTurns | QuiddlerLibrary/QuiddlerService.cs:332-335 | every user, and only those, gets `turnEnded` cleared |
| Coordinator.Enter | QuiddlerLibrary/QuiddlerService.cs:302-351 | the start and new-round branches keep the session invariant |
| Coordinator.UpdateAll | QuiddlerLibrary/QuiddlerService.cs:293-401 | `updateAllClients` keeps the invariant. It never touches either dictionary or the next id, and keeps the set of user ids |
| Coordinator.Register | QuiddlerLibrary/QuiddlerService.cs:525-556 | `Register_client` keeps the invariant |
| Coordinator.Join | QuiddlerLibrary/QuiddlerService.cs:502-519 | `Join` keeps the invariant |
| Coordinator.Joined | QuiddlerLibrary/QuiddlerService.cs:507 | adding a user with a new id keeps the invariant |
| Coordinator.Leave | QuiddlerLibrary/QuiddlerService.cs:568-577 | removing an id from both dictionaries, and resetting an emptied game, keeps the invariant |
| Coordinator.Unregister | QuiddlerLibrary/QuiddlerService.cs:562-586 | `Unregister_client` keeps the invariant |
| Coordinator.UpdateScore | QuiddlerLibrary/QuiddlerService.cs:594-622 | `updateScore` keeps the invariant |
| Coordinator.TurnTaken | QuiddlerLibrary/QuiddlerService.cs:599-610 | after a turn the user's id, name and ready flag are kept and its turn is ended. Its score grows by the cards' score; the `Count > 0` guard makes no difference, since no cards score 0. The score never drops when no card value is negative |
| Coordinator.UserReady | QuiddlerLibrary/QuiddlerService.cs:628-651 | `userReady` keeps the invariant |
| Coordinator.GetCards | QuiddlerLibrary/QuiddlerService.cs:471-496 | `getCards(n)` returns either no cards or exactly n, the ones under the cursor in pile order, and then notifies nobody. It succeeds whenever n cards remain before the last position. A negative n, or too few cards, returns nothing and sends exactly the forced end |
| Service.QuiddlerService.constructor | QuiddlerLibrary/QuiddlerService.cs:60-77 | the new service is in the initial session state. Its deck is freshly shuffled with the cursor at 0, and its words are the file's lines |
| Service.QuiddlerService.UsernameExists | QuiddlerLibrary/QuiddlerService.cs:658-679 | true exactly when some joined user's name equals the argument |
| Service.QuiddlerService.Validate | QuiddlerLibrary/QuiddlerService.cs:686-697 | true exactly when the word list holds the word |
| Service.QuiddlerService.NotifyAll | QuiddlerLibrary/QuiddlerService.cs:388-393 | the loop pushes the same payload to every registered client, in enumeration order |
| Service.QuiddlerService.NotifyEach | QuiddlerLibrary/QuiddlerService.cs:376-381 | the loop's pushes and exception are exactly `WaitingSends` for the registered clients |
| Service.QuiddlerService.ForceEndGame | QuiddlerLibrary/QuiddlerService.cs:266-286 | the pushes are exactly `ForceEndSends` of the current state. It changes nothing |
| Service.QuiddlerService.ResetUsersForGame | QuiddlerLibrary/QuiddlerService.cs:314-319 | the in-place loop leaves `users` equal to `ResetForGame` of its old value |
| Service.QuiddlerService.ClearUserTurns | QuiddlerLibrary/QuiddlerService.cs:332-335 | the in-place loop leaves `users` equal to `ClearTurns` of its old value |
| Service.QuiddlerService.UpdateAllClients | QuiddlerLibrary/QuiddlerService.cs:293-401 | the new state, the pushes and the exception are exactly those of `UpdateAll` |
| Service.QuiddlerService.SendUpdate | QuiddlerLibrary/QuiddlerService.cs:366-394 | the notification half pushes exactly what `Notify` gives for the current state |
| Service.QuiddlerService.RegisterClient | QuiddlerLibrary/QuiddlerService.cs:525-556 | the new state, the id and the message are exactly those of `Register` |
| Service.QuiddlerService.Join | QuiddlerLibrary/QuiddlerService.cs:502-519 | the new state, the pushes and the exception are exactly those of `Coordinator.Join` |
| Service.QuiddlerService.AddUser | QuiddlerLibrary/QuiddlerService.cs:507 | the state becomes `Joined` |
| Service.QuiddlerService.UnregisterClient | QuiddlerLibrary/QuiddlerService.cs:562-586 | the new state, the pushes and the exception are exactly those of `Unregister` |
| Service.QuiddlerService.RemoveUser | QuiddlerLibrary/QuiddlerService.cs:568-577 | the state becomes `Leave` |
| Service.QuiddlerService.UpdateScore | QuiddlerLibrary/QuiddlerService.cs:594-622 | the new state, the pushes, the exception and the returned score are exactly those of `Coordinator.UpdateScore` |
| Service.QuiddlerService.UserReady | QuiddlerLibrary/QuiddlerService.cs:628-651 | as `Coordinator.UserReady`. When a game starts, the deck is repopulated and reshuffled with the given indices and its cursor is 0. Otherwise the deck is untouched |
| Service.QuiddlerService.GetCards | QuiddlerLibrary/QuiddlerService.cs:471-496 | the returned cards, the deck cursor and the pushes are exactly those of `Coordinator.GetCards`. The pile and the session are unchanged |
| Service.QuiddlerService.Draw | QuiddlerLibrary/QuiddlerService.cs:480-484 | the loop of `getCard` calls ends as `DealRun` says: complete or not, the cursor, and the cards dealt |
| SessionProps.EveryTurnEnded | QuiddlerLibrary/QuiddlerService.cs:412-433 | `readyForNewRound` holds exactly when every joined user has ended the turn |
| SessionProps.EveryUserReady | QuiddlerLibrary/QuiddlerService.cs:439-460 | `readyToPlay` holds exactly when every joined user is ready |
| SessionProps.RegisterOutcome | QuiddlerLibrary/QuiddlerService.cs:525-549 | registration succeeds exactly when fewer than UserCount clients are registered and no game runs. On success the id is the old next id, held by no client and above all earlier ids, and the next id rises by one, so ids run 1, 2, 3, … and are never reused. The client count grows by one and nothing else changes. Otherwise the id is -1, "in progress" is reported before "full", and nothing changes |
| SessionProps.UnregisterKeepsNextId | QuiddlerLibrary/QuiddlerService.cs:562-579 | leaving never lowers the next id |
| SessionProps.PhaseFacts | QuiddlerLibrary/QuiddlerService.cs:302-351 | the branch taken is start, then new round exactly when every user has ended the turn, then neither. The game ends after a new round exactly when the round exceeds RoundCount |
| SessionProps.UpdateAllState | QuiddlerLibrary/QuiddlerService.cs:302-363 | a start sets round 1 and resets all users. A new round clears all turns and raises the round by exactly 1. Otherwise users and round stay. The game runs afterwards exactly when it ran or started and did not end. The dictionaries and the next id are untouched |
| SessionProps.EndOfGamePayloads | QuiddlerLibrary/QuiddlerService.cs:353-393 | at the end of a game nothing throws and the game stops. Every client, in order, gets the same payload: endGame, no play, readying on, "R/R", the roster and the winner |
| SessionProps.WaitingPayloads | QuiddlerLibrary/QuiddlerService.cs:364-381 | otherwise each client gets `gameState = !turnEnded` of its own user. `readyState` is set exactly when neither start nor new round fired and no game runs. The status is "round/R" and there is no winner message. An exception happens exactly when some client has not joined |
| SessionProps.JoiningUser | QuiddlerLibrary/QuiddlerService.cs:502-512 | a duplicate id throws with nothing changed. Otherwise the user is added with its name, score and ready flag, and is enumerated last while no user has left |
| SessionProps.LeavingUser | QuiddlerLibrary/QuiddlerService.cs:562-579 | the id leaves both the users and the clients. The others keep their order, only remaining clients are notified, and the next id is kept |
| SessionProps.LastUserLeaves | QuiddlerLibrary/QuiddlerService.cs:562-586 | when the last user leaves, no game runs and the round ends up 1: the reset to 0 is followed by the vacuous new-round branch. With R ≥ 1 nobody is notified, and the call throws exactly when a client is still registered. With R < 1 every remaining client gets the end of the game |
| SessionProps.ScoringTurn | QuiddlerLibrary/QuiddlerService.cs:594-615 | the returned score is the old score plus the cards' points, which count only when cards were used. The user keeps that score. Its turn stays ended exactly when that turn did not complete the round; when it did, the round went up by one |
| SessionProps.ReadyingUser | QuiddlerLibrary/QuiddlerService.cs:628-644 | a new game (with a new deck) starts exactly when every other user is already ready: round 1, game running, all users reset. Otherwise only the ready flag changes and nobody is notified |
| SessionProps.DrawingCards | QuiddlerLibrary/QuiddlerService.cs:471-495 | `getCards(n)` either deals the next n cards and notifies nobody, or (for a negative n or too few cards) returns none and forces the end of the game. Cards dealt before the failure stay consumed |
| SessionProps.ForcedEnd | QuiddlerLibrary/QuiddlerService.cs:266-279 | every registered client, in order, gets the same payload: endGame, no play, readying on, "R/R", the roster and the end-of-deck winner message |
| SessionProps.LeaderIsFirstBest | QuiddlerLibrary/QuiddlerService.cs:195-205 | the scan settles exactly on the first user with the highest score, when that score is positive |
| SessionProps.WinnerAmongSeveral | QuiddlerLibrary/QuiddlerService.cs:212-224 | with several users, the message names the first top scorer and that score ("End of deck, …" when out of cards) |
| SessionProps.NobodyWins | QuiddlerLibrary/QuiddlerService.cs:206-211 | "Nobody wins, please play again" exactly when no user scored above 0 |
| SessionProps.SolePlayer | QuiddlerLibrary/QuiddlerService.cs:225-242 | a sole player is told its own score, and ", Good Job!" is added above 40 |
| SessionProps.WinnerExample | QuiddlerLibrary/QuiddlerService.cs:188-224 | with the scores 40, 25 and 0, the message is "The winner is ann with a score of 40!" |
| SessionProps.RoundStatusReadBack | QuiddlerLibrary/QuiddlerService.cs:159-180 | the status is the shown round (R at the end of the game), '/', then R. Neither number contains '/', and both read back |
| SessionProps.RoundStatusInjective | QuiddlerLibrary/QuiddlerService.cs:170 | distinct rounds of a game show distinct statuses |

## Left out

- WCF hosting, callback channels and concurrency. The service is modelled
  as one sequential instance, and a callback channel is just its client id.
  A push that fails on a dead channel is not modelled: every push succeeds.
- Logging, `Dispose`, the finalizer and the catch-and-rethrow blocks. A
  logging line matters only where it reads `users[id]`, which throws for an
  unknown id. That throw is modelled as the fault of `Unregister` and
  `UpdateScore`.
- Randomness: `shuffle`'s `rand.Next` results are the input `picks`. No
  claim is made about the distribution; the swap loop is not a uniform
  shuffle.
- File, database and configuration I/O. The word file's lines, the table's
  rows, `UserCount` and `RoundCount` are parameters. A null "word" column is
  not modelled. Reading past the end of the stream is not modelled either.
- Connection.cs, the server and login windows, and the rest of the client
  window are not part of this model. ICallback.cs and Callback.cs are not
  part of this model either: they are an interface and an empty stub.
- 32-bit integers: `clientId`, `roundCount` and the scores are unbounded, so
  wrap-around after 2^31 - 1 registrations or points is not modelled.
- ClientText.Lower: lower-cases ASCII letters only. `ToLower` is
  culture-sensitive, and `IndexOf(string)` compares with the current
  culture. The model compares characters ordinally.
- Service.QuiddlerService.Validate: the catch that turns a word-list
  exception into `false` is not modelled, because the word list's
  `validate` cannot throw once it is loaded.
- Service.QuiddlerService.GetCards: the strings in the C# array are not
  modelled separately from the dealt cards. A failed call returns the empty
  array, as in C#.
- Decks.Deck.GetScore: the C# `int` sum could overflow only far beyond any
  hand; the model adds unboundedly.
