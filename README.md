# Bầu cua room server: a verified model of the game rules

This project models the game rules of a "bầu cua" (gourd–crab–fish) dice
wagering server. Players join a room and bet on doors, the symbols on the dice.
The dealer opens the bowl on a result of three dice. Each bet pays back its
stake plus the stake once per die showing its door; otherwise the bet is lost.
In rotate mode the dealer role passes round the members every `rotateRounds`
rounds.

The model has three modules:

- `GameLogic` (game_logic.dfy) is the payout aggregation `calculateSettlement`
  of utils/gameLogic.js. It is a method with a loop that builds the `reports`
  map. `Tally`, the report of one user as a function of the bets taken in
  order, specifies it. The lemmas state what the reports promise: the match
  count, the payout formula, where reports exist, bounds, conservation of
  stakes, and independence from other users' bets and from bet order.
- `RoomModel` (room_model.dfy) holds the documents of models/Room.js and
  models/Bet.js as datatypes. It also holds the pure pieces of the socket
  handlers: member lookups (`findIndex`/`find`), the `filter`s of leave and
  disconnect, settling one bet, the winnings of a round and the dealer rotation.
- `RoomServer` (room.dfy) is a `Room` class whose fields are the room document
  (`status`, `config`, `currentDealer`, `members`, `history`) plus the bet
  documents stored for the room. Each room-changing handler of server.js is
  one method, with database access, broadcasts and timers stripped out.
  `Valid()` is the room invariant every method keeps:
  - balances are never negative;
  - user ids are unique;
  - `history` holds rounds `|history|` down to 1, newest first;
  - exactly the bets of the open round `|history| + 1` are pending.

Modelling choices, where the source is followed over its description:

- Round ids are numbers. The handlers build the string `R-<roomId>-<n>` with
  `n = history.length + 1`, but models/Bet.js:5 declares `roundId` a Number.
  Read as written (not executed), Mongoose cannot cast `R-…` to a Number, so
  `newBet.save()` (server.js:152) rejects before the balance is debited
  (server.js:155), and the `Bet.find` of `open_bowl` (server.js:170) rejects
  too: no bet would ever be stored or settled. The evident intent is one
  round id per round, and only `n` matters to the game, so the model keeps
  `n`.
- A bet names its player by the socket it was placed from (server.js:147).
  `open_bowl` pays the first member on that socket (the `$` positional update,
  server.js:181-184). A player who reconnects between betting and the opening
  of the bowl gets a new socket id, so that player's winnings reach nobody.
  The model does the same.
- `leave_room` removes the member but does not save when nobody would be left
  (server.js:105-111). In that case the model leaves the member list as it was.
- Leaving and disconnecting remove members from the room. They do not mark
  them offline.
- `open_bowl` has no status gate and settles in any status. The model does the
  same.
- The dealer is found by socket id. A dealer that is no longer a member, or
  now has another socket, is followed by the first member. With no member
  left, `members[NaN]` throws before the last save, so the dealer does not
  change (`NextDealer`).
- `place_bet` from a socket that is not a member throws before any write. The
  model returns `Failed(MemberNotFound)` and changes nothing. A `place_bet`
  outside the betting phase returns silently; the model returns
  `Failed(NotBetting)`.
- `join_room` for an id whose room is finished: the lookup skips finished
  rooms, so a config creates a new document. Saving it collides with the
  unique index on `roomId` (models/Room.js:4), so no room is created
  (`Failed(RoomIdTaken)`).
- The dealer's balance is never adjusted at settlement. The server has no
  cancel-bet, batch bets, automatic round loop or per-door totals, so the
  model has none either.

## Model

| member | source | states |
|---|---|---|
| GameLogic.MatchCount | utils/gameLogic.js:15 | the match count is at most the number of dice, and zero exactly when the door did not come up |
| GameLogic.MatchCountIsPositions | utils/gameLogic.js:15 | the match count equals the number of positions of the result that hold the bet's door |
| GameLogic.MatchCountOfTriple | utils/gameLogic.js:3-15 | for a three-dice result the match count is 0..3 and counts the dice showing the door |
| GameLogic.WinAmount | utils/gameLogic.js:17-20 | a bet pays nothing without a match and `amount * (1 + matchCount)` with one; a non-negative stake pays between 0 and `amount * (1 + dice)` |
| GameLogic.CalculateSettlement | utils/gameLogic.js:6-24 | the reports have exactly the users that placed a bet as keys, and each report is that user's `Tally` (stakes added once, payouts of winning bets added) |
| GameLogic.TallyOfAbsentUser | utils/gameLogic.js:10-12 | a user without bets has the starting report `totalWin = 0, totalBet = 0` |
| GameLogic.TallyConcat | utils/gameLogic.js:9-21 | the report over two runs of bets is the sum of the reports over each |
| GameLogic.TallyPermutation | utils/gameLogic.js:9-21 | reordering the bets gives every user the same report |
| GameLogic.TallyOwnBets | utils/gameLogic.js:9-21 | a report depends only on that user's own bets; other users' bets never change it |
| GameLogic.TallyBounds | utils/gameLogic.js:14-20 | with non-negative stakes, `0 <= totalBet` and `0 <= totalWin <= (1 + dice) * totalBet` |
| GameLogic.ReportWithinFourStakes | utils/gameLogic.js:14-20 | for three dice, every report has `0 <= totalWin <= 4 * totalBet` |
| GameLogic.Users | utils/gameLogic.js:10-12 | the report keys in insertion order: distinct, and exactly the users with a bet |
| GameLogic.TotalBetConserved | utils/gameLogic.js:14 | the `totalBet` of all reports sum to the sum of all bet amounts: each stake is counted once |
| RoomModel.FindIndexByUser | server.js:55 | `findIndex` by user id: -1 when no member has the id, else the first member with it |
| RoomModel.FindIndexBySocket | server.js:138 | `find`/`findIndex` by socket id: -1 when no member is on the socket, else the first member on it |
| RoomModel.WithoutUser | server.js:102 | the leave filter leaves no member with the user id and never lengthens the list |
| RoomModel.WithoutUserMembers | server.js:102 | the leave filter keeps exactly the members with another user id, and keeps user ids unique |
| RoomModel.WithoutSocket | server.js:257 | the disconnect filter leaves no member on the socket and never lengthens the list |
| RoomModel.WithoutSocketMembers | server.js:257 | the disconnect filter keeps exactly the members on another socket, and keeps user ids unique |
| RoomModel.WithoutSocketOne | server.js:257 | a lone member survives the disconnect filter exactly when it is on another socket |
| RoomModel.WithoutSocketKeepsOrder | server.js:257 | filtering a concatenation is filtering each part and concatenating, so with `WithoutSocketOne` the kept members stay in their order |
| RoomModel.WithoutUserCutsOne | server.js:102 | with unique user ids, leaving cuts out exactly the leaving member and keeps the others in order; an unknown id changes nothing |
| RoomModel.WithoutAbsentSocket | server.js:255-257 | disconnecting a socket no member is on filters nothing out |
| RoomModel.SettledBetOfRoom | server.js:164-193 | settling the open round leaves no bet of it pending and leaves the already settled bets of earlier rounds untouched |
| RoomModel.RoundWinningsNonNegative | server.js:173-184 | with non-negative stakes, opening the bowl credits no negative amount |
| RoomModel.RoundWinningsStep | server.js:173-184 | each bet of the round adds its payout to the winnings of its own socket only |
| RoomModel.NoBetsOfRoundPayNothing | server.js:164-170 | a round with no bet pays nobody, so opening the bowl again before new bets credits nothing |
| RoomModel.SuccessorIndex | server.js:205-207 | the next dealer index is in range and is the circular successor of the dealer's index; a dealer not found is followed by member 0 |
| RoomModel.FixedDealerStays | server.js:200 | in fixed mode the dealer never changes |
| RoomModel.DealerKeepsRole | server.js:200-203 | in rotate mode the dealer keeps the role, one round fewer after each settlement, while rounds are left |
| RoomModel.DealerRotatesOnTime | server.js:200-213 | exactly when its rounds run out, the role passes to the next member, who deals for `rotateRounds` rounds |
| RoomServer.Room.constructor | server.js:38-50 | a new room is waiting, empty, without history or bets, with the host as dealer for `rotateRounds` rounds |
| RoomServer.Room.Join | server.js:54-79 | a returning user only gets the new socket id, and member count, order and balances stay; a new user is refused without change when the room is full, else appended with the starting balance as initial and current balance |
| RoomServer.Room.Leave | server.js:96-114 | the leaving user is filtered out, unless nobody would be left, when nothing is saved |
| RoomServer.Room.StartShake | server.js:117-120 | the room goes to shaking |
| RoomServer.Room.OpenBetting | server.js:122-125 | when the shake timer fires, the room goes to betting |
| RoomServer.Room.PlaceBet | server.js:129-159 | refused without change unless betting, `minBet <= amount <= maxBet`, and the socket's member can cover the amount; on success that member alone is debited by exactly the amount and a pending bet of round `history.length + 1` is stored |
| RoomServer.Room.OpenBowl | server.js:162-223 | the bets of round `history.length + 1` are marked won or lost, each member gets the winnings of its socket's bets, the round goes to the front of the history, the status becomes result, the dealer advances as `NextDealer` says, and afterwards no stored bet is pending or belongs to the next round |
| RoomServer.Room.SettleAndRecord | server.js:162-194 | up to the first save of `open_bowl`: the room stays valid, the round's bets are settled, winnings credited, and the round is recorded at the front of the history with status result |
| RoomServer.SettlementKeepsInvariant | server.js:164-194 | settling a round and recording it keeps the room invariant: balances stay non-negative, history ids stay consecutive, and no bet is left pending |
| RoomServer.SettleRound | server.js:169-189 | the loop settles exactly the bets of the round, leaves the other bets alone, and credits the first member on each winning bet's socket with that socket's winnings |
| RoomServer.SettleBet | server.js:173-188 | one pass: a bet of the round is marked won or lost as its door matched, and a win pays the bet's payout to the first member on its socket only |
| RoomServer.Room.RotateDealer | server.js:200-220 | the dealer after a settlement is `NextDealer` of the dealer before |
| RoomServer.Room.Cleanup | server.js:242-252 | the room becomes finished exactly when it has no members |
| RoomServer.Room.Disconnect | server.js:254-267 | in an unfinished room with a member on the socket, every member on it is removed and cleanup is scheduled when the room empties; otherwise nothing changes |
| RoomServer.CreditedStep | server.js:173-184 | one pass of the settlement loop credits the winning bet's payout to the first member on its socket and to nobody else |
| RoomServer.JoinRoom | server.js:29-93 | a found unfinished room is joined and only its members may change; without a room and without a config nothing is created; with a config a room with the joining user as host and dealer is created and kept only when that user could be admitted and no finished room holds the id; a finished room with the id is left untouched and the join fails with `RoomIdTaken`, or `RoomFull` when `maxPlayers` admits nobody |
| RoomServer.BauRoundPays | server.js:174-176 | 10000 on bau against bau, cua, bau pays 30000: the stake back plus the stake for each of the two matching dice |
| RoomServer.OpenBowlTwice | server.js:162-193 | opening the bowl twice in a row keeps the room valid and ends in result, and every member's balance after the second opening is the balance the first left (`afterFirst`) |

## Left out

- Persistence: the MongoDB loads and saves (`findOne`, `save`, `updateOne`, `find`). Each handler is one atomic step on a `Room`, and the bets stored for a room are a field of it.
- Concurrency between overlapping asynchronous handlers: each handler runs to completion alone.
- Transport: socket.io rooms, broadcasts (`room_update`, `bet_update`, `game_result`, `new_dealer`), error message strings and console logging. Errors are an `Outcome` value.
- Timers: the 2-second shake timer is the separate step `OpenBetting`. The 60-second cleanup delay is the flag returned by `Disconnect` plus the separate step `Cleanup`.
- Randomness: `getRandomResult()` is not defined in the server; the result is a parameter of `OpenBowl`.
- `get_rooms_info`, a read-only listing query.
- `currentBetsByRoom`: it is written by `start_shake` but never read.
- Timestamps (`createdAt`, `finishedAt`, history `time`) and the 24-hour expiry of rooms.
- The config `name`. The bet fields `userId` and `results`, which the server never sets. The history field `totalPot`, which it never sets.
- The host id update of `join_room` (server.js:82-84): it assigns the value the field already has.
- Handlers acting on a room that is not found (`leave_room`, `place_bet`, `open_bowl`): they do nothing or throw before writing. The `Room` methods act on a found room.
- Amounts are integers; the server's numbers could also be fractional.
- GameLogic.CalculateSettlement: models `reports` as a map from string user ids, so it does not model three effects of its being a plain JavaScript object: a user id naming an `Object.prototype` member (`constructor`, `toString`, `__proto__`) gets no report of its own or a `NaN` total; non-string ids are converted to strings, so `1` and `"1"` share one report; and integer-like keys are listed in numeric order rather than in the order of the first bet (`GameLogic.Users` is the latter).
- RoomServer.JoinRoom: requires a host config with non-negative `minBet` and `startingBalance`. The server accepts any config; with a negative minimum a negative stake could drive a balance below zero.
- RoomServer.Room.constructor: requires the same non-negative `minBet` and `startingBalance`, for the same reason.
