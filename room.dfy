/** The room-mutating bodies of the socket handlers of server.js, with the
    database loads and saves, the broadcasts and the timers stripped out.
    Each handler is one atomic step on a `Room`; an error return leaves the
    room as it was. */
module RoomServer {
  import GameLogic
  import opened RoomModel

  class Room {
    const roomId: string
    const hostId: UserId
    const config: Config
    var status: Status
    var currentDealer: Dealer
    var members: seq<Member>
    var history: seq<RoundRecord>
    /** The bet documents stored for this room, in the order they were saved. */
    var bets: seq<Bet>

    /** What every handler keeps: balances never go negative, user ids are
        unique, the history holds rounds `|history|` down to 1 (newest first),
        and exactly the bets of the open round `|history| + 1` are pending. */
    ghost predicate Valid()
      reads this
    {
      RoomInvariant(roomId, config, members, history, bets)
    }

    /** A new room document: created by the host's `join_room`, with the host
        as dealer for `rotateRounds` rounds. */
    constructor (roomId: string, hostId: UserId, hostSocket: SocketId, config: Config)
      requires ConfigSane(config)
      ensures Valid()
      ensures this.roomId == roomId && this.hostId == hostId && this.config == config
      ensures status == Waiting && members == [] && history == [] && bets == []
      ensures currentDealer == Dealer(hostId, hostSocket, config.rotateRounds)
    {
      this.roomId := roomId;
      this.hostId := hostId;
      this.config := config;
      status := Waiting;
      currentDealer := Dealer(hostId, hostSocket, config.rotateRounds);
      members := [];
      history := [];
      bets := [];
    }

    /** `join_room` on a found room: a returning user only gets the new
        socket; a new user is appended with the starting balance, unless the
        room is full. */
    method Join(userId: UserId, nickname: string, avatar: string, socketId: SocketId)
      returns (outcome: Outcome)
      requires Valid()
      modifies this`members
      ensures Valid()
      ensures Joined(old(members), members, config, userId, nickname, avatar, socketId, outcome)
    {
      var existingMemberIndex := FindIndexByUser(members, userId);
      if existingMemberIndex != -1 {
        members := members[existingMemberIndex := members[existingMemberIndex].(socketId := socketId)];
        outcome := Done;
      } else if |members| >= config.maxPlayers {
        outcome := Failed(RoomFull);
      } else {
        var newMember := Member(userId, nickname, avatar, socketId,
                                config.startingBalance, config.startingBalance);
        members := members + [newMember];
        outcome := Done;
      }
    }

    /** `leave_room`: the user's member entry is filtered out. When that
        leaves nobody, the handler does not save, so the room keeps its
        members. */
    method Leave(userId: UserId)
      requires Valid()
      modifies this`members
      ensures Valid()
      ensures var rest := WithoutUser(old(members), userId);
        members == if |rest| == 0 then old(members) else rest
    {
      var rest := WithoutUser(members, userId);
      WithoutUserMembers(members, userId);
      if |rest| != 0 {
        members := rest;
      }
    }

    /** `start_shake`: the room goes to shaking, whatever its status. */
    method StartShake()
      requires Valid()
      modifies this`status
      ensures Valid() && status == Shaking
    {
      status := Shaking;
    }

    /** The timer of `start_shake` firing: the room goes to betting. */
    method OpenBetting()
      requires Valid()
      modifies this`status
      ensures Valid() && status == Betting
    {
      status := Betting;
    }

    /** `place_bet` from `socketId`: accepted only while betting, for an
        amount within the room's limits, from a member who can cover it.
        The member is debited and a pending bet of the open round is saved. */
    method PlaceBet(socketId: SocketId, nickname: string, door: Door, amount: int)
      returns (outcome: Outcome)
      requires Valid()
      modifies this`members, this`bets
      ensures Valid()
      ensures var k := FindIndexBySocket(old(members), socketId);
        && (status != Betting ==> outcome == Failed(NotBetting))
        && ((status == Betting && !(config.minBet <= amount <= config.maxBet))
              ==> outcome == Failed(BetOutOfRange))
        && ((status == Betting && config.minBet <= amount <= config.maxBet && k == -1)
              ==> outcome == Failed(MemberNotFound))
        && ((status == Betting && config.minBet <= amount <= config.maxBet && 0 <= k
             && old(members)[k].currentBalance < amount)
              ==> outcome == Failed(InsufficientBalance))
        && (outcome.Done? <==>
              status == Betting && config.minBet <= amount <= config.maxBet && 0 <= k
              && old(members)[k].currentBalance >= amount)
        && (outcome.Failed? ==> members == old(members) && bets == old(bets))
        && (outcome.Done? ==>
              && members == old(members)[k := old(members)[k].(currentBalance := old(members)[k].currentBalance - amount)]
              && bets == old(bets) + [Bet(roomId, |history| + 1, socketId, nickname, door, amount, Pending, 0)])
    {
      if status != Betting {
        return Failed(NotBetting);
      }
      if amount < config.minBet || amount > config.maxBet {
        return Failed(BetOutOfRange);
      }
      var k := FindIndexBySocket(members, socketId);
      if k == -1 {
        return Failed(MemberNotFound);
      }
      var member := members[k];
      if member.currentBalance < amount {
        return Failed(InsufficientBalance);
      }
      var newBet := Bet(roomId, |history| + 1, socketId, nickname, door, amount, Pending, 0);
      bets := bets + [newBet];
      members := members[k := member.(currentBalance := member.currentBalance - amount)];
      outcome := Done;
    }

    /** `open_bowl` with the dice showing `result`: every bet of the open
        round is marked won or lost, each winning bet pays the first member on
        its socket, the round goes to the front of the history, the status
        becomes result and the dealer rotation advances. */
    method OpenBowl(result: seq<Door>)
      requires Valid()
      modifies this
      ensures Valid()
      ensures status == Result
      ensures history == [RoundRecord(|old(history)| + 1, result)] + old(history)
      ensures |bets| == |old(bets)|
      ensures forall i :: 0 <= i < |bets| ==> bets[i] == SettleIn(result, |old(history)| + 1, old(bets)[i])
      ensures |members| == |old(members)|
      ensures forall k {:trigger members[k]} :: 0 <= k < |members| ==>
                members[k] == Credit(old(members)[k], PayoutTo(old(members), k, result, old(bets), |old(history)| + 1))
      ensures currentDealer == NextDealer(old(currentDealer), old(members), config)
      ensures forall i :: 0 <= i < |bets| ==> bets[i].status != Pending && bets[i].roundId <= |history|
    {
      ghost var members0 := members;
      SettleAndRecord(result);
      FindIndexBySocketSameSockets(members, members0, currentDealer.socketId);
      RotateDealer();
    }

    /** The first part of `open_bowl`, up to its first save: the bets of the
        open round are settled, the winnings credited, and the round recorded
        at the front of the history. */
    method SettleAndRecord(result: seq<Door>)
      requires Valid()
      modifies this`bets, this`members, this`history, this`status
      ensures Valid()
      ensures status == Result
      ensures history == [RoundRecord(|old(history)| + 1, result)] + old(history)
      ensures |bets| == |old(bets)|
      ensures forall i :: 0 <= i < |bets| ==> bets[i] == SettleIn(result, |old(history)| + 1, old(bets)[i])
      ensures |members| == |old(members)|
      ensures forall k {:trigger members[k]} :: 0 <= k < |members| ==>
                members[k] == Credit(old(members)[k], PayoutTo(old(members), k, result, old(bets), |old(history)| + 1))
    {
      var currentRoundId := |history| + 1;
      ghost var members0, bets0, history0 := members, bets, history;
      bets, members := SettleRound(bets, members, currentRoundId, result);
      history := [RoundRecord(currentRoundId, result)] + history;
      status := Result;
      SettlementKeepsInvariant(roomId, config, members0, members, history0, bets0, bets, result);
    }

    /** The rotation at the end of `open_bowl`. */
    method RotateDealer()
      modifies this`currentDealer
      ensures currentDealer == NextDealer(old(currentDealer), members, config)
    {
      if config.dealerMode == Rotate {
        var roundsLeft := currentDealer.roundsLeft - 1;
        if roundsLeft <= 0 {
          if |members| > 0 {
            var currentIndex := FindIndexBySocket(members, currentDealer.socketId);
            var nextIndex := (currentIndex + 1) % |members|;
            currentDealer := Dealer(members[nextIndex].userId, members[nextIndex].socketId, config.rotateRounds);
          }
        } else {
          currentDealer := currentDealer.(roundsLeft := roundsLeft);
        }
      }
    }

    /** `handleRoomCleanup`: a room without members is marked finished. */
    method Cleanup()
      requires Valid()
      modifies this`status
      ensures Valid()
      ensures status == if |members| == 0 then Finished else old(status)
    {
      if status != Finished && |members| == 0 {
        status := Finished;
      }
    }

    /** `disconnect` of `socketId`: in a room that is not finished and has a
        member on that socket, every member on it is filtered out; the
        cleanup is scheduled when nobody is left. */
    method Disconnect(socketId: SocketId) returns (scheduleCleanup: bool)
      requires Valid()
      modifies this`members
      ensures Valid()
      ensures var found := status != Finished && FindIndexBySocket(old(members), socketId) != -1;
        && members == (if found then WithoutSocket(old(members), socketId) else old(members))
        && scheduleCleanup == (found && |members| == 0)
    {
      scheduleCleanup := false;
      if status != Finished && FindIndexBySocket(members, socketId) != -1 {
        WithoutSocketMembers(members, socketId);
        members := WithoutSocket(members, socketId);
        scheduleCleanup := |members| == 0;
      }
    }
  }

  /** What every handler keeps: balances never go negative, user ids are
      unique, the history holds rounds `|history|` down to 1 (newest first),
      and exactly the bets of the open round `|history| + 1` are pending. */
  ghost predicate RoomInvariant(roomId: string, config: Config, members: seq<Member>,
                                history: seq<RoundRecord>, bets: seq<Bet>)
  {
    && ConfigSane(config)
    && UniqueUserIds(members)
    && (forall k :: 0 <= k < |members| ==> members[k].currentBalance >= 0)
    && (forall j :: 0 <= j < |history| ==> history[j].roundId == |history| - j)
    && (forall i :: 0 <= i < |bets| ==> BetOfRoom(bets[i], roomId, |history|))
  }

  /** Opening the bowl keeps the room invariant: the settled round becomes
      history round `|history| + 1`, no bet is left pending, and crediting
      non-negative winnings keeps every balance non-negative. */
  lemma SettlementKeepsInvariant(roomId: string, config: Config, members0: seq<Member>, members: seq<Member>,
                                 history0: seq<RoundRecord>, bets0: seq<Bet>, bets: seq<Bet>,
                                 result: seq<Door>)
    requires RoomInvariant(roomId, config, members0, history0, bets0)
    requires |bets| == |bets0|
    requires forall i :: 0 <= i < |bets| ==> bets[i] == SettleIn(result, |history0| + 1, bets0[i])
    requires |members| == |members0|
    requires forall k :: 0 <= k < |members| ==>
               members[k] == Credit(members0[k], PayoutTo(members0, k, result, bets0, |history0| + 1))
    ensures RoomInvariant(roomId, config, members, [RoundRecord(|history0| + 1, result)] + history0, bets)
  {
    var round := |history0| + 1;
    var history := [RoundRecord(round, result)] + history0;
    forall k | 0 <= k < |members| ensures members[k].currentBalance >= 0 {
      RoundWinningsNonNegative(result, bets0, round, members0[k].socketId);
    }
    forall i | 0 <= i < |bets| ensures BetOfRoom(bets[i], roomId, round) {
      SettledBetOfRoom(bets0[i], roomId, |history0|, result);
    }
    assert forall k :: 0 <= k < |members| ==> members[k].userId == members0[k].userId;
    forall j | 0 <= j < |history| ensures history[j].roundId == |history| - j {
      if j > 0 {
        assert history[j] == history0[j - 1];
      }
    }
  }

  /** The loop of `open_bowl` over the bets stored for the room: settles
      the bets of round `round` and credits the winnings to the members. */
  method SettleRound(bets: seq<Bet>, members: seq<Member>, round: nat, result: seq<Door>)
    returns (settled: seq<Bet>, credited: seq<Member>)
    ensures |settled| == |bets|
    ensures forall i :: 0 <= i < |settled| ==> settled[i] == SettleIn(result, round, bets[i])
    ensures |credited| == |members|
    ensures forall k {:trigger credited[k]} :: 0 <= k < |credited| ==>
              credited[k] == Credit(members[k], PayoutTo(members, k, result, bets, round))
  {
    settled, credited := bets, members;
    var i := 0;
    while i < |settled|
      invariant 0 <= i <= |settled| == |bets|
      invariant forall j :: 0 <= j < |settled| ==>
                  settled[j] == if j < i then SettleIn(result, round, bets[j]) else bets[j]
      invariant CreditedUpTo(members, credited, bets, i, result, round)
    {
      ghost var before := credited;
      var bet;
      bet, credited := SettleBet(settled[i], credited, round, result);
      settled := settled[i := bet];
      CreditedStep(members, before, credited, bets, i, result, round);
      i := i + 1;
    }
    CreditedAll(members, credited, bets, result, round);
  }

  /** One pass of the loop of `open_bowl`: a bet of the round is marked won
      or lost, and a win pays its stake back plus the stake per matching die
      to the first member on the bet's socket; other bets and members stay. */
  method SettleBet(bet: Bet, members: seq<Member>, round: nat, result: seq<Door>)
    returns (settled: Bet, credited: seq<Member>)
    ensures settled == SettleIn(result, round, bet)
    ensures CreditsBet(members, credited, bet, round, result)
  {
    settled, credited := bet, members;
    if bet.roundId == round {
      var matchCount := GameLogic.MatchCount(result, bet.door);
      if matchCount > 0 {
        var winMoney := bet.amount + bet.amount * matchCount;
        settled := bet.(status := Win, winAmount := winMoney);
        var k := FindIndexBySocket(members, bet.socketId);
        if k != -1 {
          credited := members[k := Credit(members[k], winMoney)];
        }
      } else {
        settled := bet.(status := Lose);
      }
    }
  }

  /** `after` is `before` once bet `b` is settled: a winning bet of round
      `round` pays the first member on its socket, and nothing else changes. */
  predicate CreditsBet(before: seq<Member>, after: seq<Member>, b: Bet, round: nat, result: seq<Door>)
  {
    var k := FindIndexBySocket(before, b.socketId);
    after == if b.roundId == round && GameLogic.MatchCount(result, b.door) > 0 && k != -1
             then before[k := Credit(before[k], GameLogic.WinAmount(result, b.door, b.amount))]
             else before
  }

  /** The member list after the loop of `open_bowl` has taken bets
      `0 .. i - 1` into account. */
  ghost predicate CreditedUpTo(members0: seq<Member>, members: seq<Member>, bets0: seq<Bet>, i: nat,
                               result: seq<Door>, round: nat)
    requires i <= |bets0|
  {
    && |members| == |members0|
    && forall k {:trigger members[k]} :: 0 <= k < |members| ==>
         members[k] == Credit(members0[k], PayoutTo(members0, k, result, bets0[..i], round))
  }

  /** One pass of the loop of `open_bowl` keeps `CreditedUpTo`: a winning bet
      of the round pays the first member on its socket. */
  lemma CreditedStep(members0: seq<Member>, before: seq<Member>, after: seq<Member>, bets0: seq<Bet>,
                     i: nat, result: seq<Door>, round: nat)
    requires i < |bets0|
    requires CreditedUpTo(members0, before, bets0, i, result, round)
    requires CreditsBet(before, after, bets0[i], round, result)
    ensures CreditedUpTo(members0, after, bets0, i + 1, result, round)
  {
    var b := bets0[i];
    FindIndexBySocketSameSockets(before, members0, b.socketId);
    forall k | 0 <= k < |members0|
      ensures after[k] == Credit(members0[k], PayoutTo(members0, k, result, bets0[..i + 1], round))
    {
      RoundWinningsStep(result, bets0, i, round, members0[k].socketId);
    }
  }

  lemma CreditedAll(members0: seq<Member>, members: seq<Member>, bets0: seq<Bet>, result: seq<Door>, round: nat)
    requires CreditedUpTo(members0, members, bets0, |bets0|, result, round)
    ensures |members| == |members0|
    ensures forall k :: 0 <= k < |members| ==>
              members[k] == Credit(members0[k], PayoutTo(members0, k, result, bets0, round))
  {
    assert bets0[..|bets0|] == bets0;
  }

  /** `join_room`. `stored` is the room document stored under `roomId`, if
      any. A finished room is not found; without a found room, a config
      creates one with the joining user as host and dealer, which is kept
      only when the join succeeds and no finished room holds the id. */
  method JoinRoom(stored: Room?, roomId: string, userId: UserId, nickname: string, avatar: string,
                  socketId: SocketId, roomConfig: Option<Config>)
    returns (room: Room?, outcome: Outcome)
    requires stored != null ==> stored.Valid() && stored.roomId == roomId
    requires roomConfig.Some? ==> ConfigSane(roomConfig.value)
    modifies stored
    ensures room != null ==> room.Valid() && room.roomId == roomId
    ensures stored != null && old(stored.status) != Finished ==>
      room == stored
      && Joined(old(stored.members), stored.members, stored.config, userId, nickname, avatar, socketId, outcome)
    ensures (stored == null || old(stored.status) == Finished) && roomConfig.None? ==>
      room == null && outcome == Failed(RoomNotFound)
    ensures stored != null && old(stored.status) == Finished && roomConfig.Some? ==>
      room == null
      && outcome == if 0 < roomConfig.value.maxPlayers then Failed(RoomIdTaken) else Failed(RoomFull)
    ensures stored != null ==>
      stored.status == old(stored.status) && stored.currentDealer == old(stored.currentDealer)
      && stored.history == old(stored.history) && stored.bets == old(stored.bets)
    ensures stored != null && old(stored.status) == Finished ==> stored.members == old(stored.members)
    ensures stored == null && roomConfig.Some? ==>
      var config := roomConfig.value;
      && (outcome == Done <==> 0 < config.maxPlayers)
      && (outcome.Failed? ==> outcome == Failed(RoomFull) && room == null)
      && (outcome.Done? ==>
            && room != null && fresh(room)
            && room.hostId == userId && room.config == config && room.status == Waiting
            && room.members == [Member(userId, nickname, avatar, socketId, config.startingBalance, config.startingBalance)]
            && room.currentDealer == Dealer(userId, socketId, config.rotateRounds)
            && room.history == [] && room.bets == [])
  {
    if stored != null && stored.status != Finished {
      room := stored;
      outcome := room.Join(userId, nickname, avatar, socketId);
      return;
    }
    if roomConfig.None? {
      return null, Failed(RoomNotFound);
    }
    var created := new Room(roomId, userId, socketId, roomConfig.value);
    outcome := created.Join(userId, nickname, avatar, socketId);
    if outcome.Failed? {
      return null, outcome;
    }
    if stored != null {
      // saving the new document collides with the finished one on the unique roomId
      return null, Failed(RoomIdTaken);
    }
    room := created;
  }

  datatype Option<T> = None | Some(value: T)

  /** Opening the bowl twice in a row: the second opening settles a new,
      empty round and changes no balance, so no bet is paid twice.
      `afterFirst` is the member list left by the first opening. */
  method OpenBowlTwice(room: Room, first: seq<Door>, second: seq<Door>) returns (ghost afterFirst: seq<Member>)
    requires room.Valid()
    modifies room
    ensures room.Valid() && room.status == Result
    ensures |room.members| == |afterFirst|
    ensures forall k :: 0 <= k < |afterFirst| ==> room.members[k].currentBalance == afterFirst[k].currentBalance
  {
    room.OpenBowl(first);
    afterFirst := room.members;
    ghost var bets := room.bets;
    ghost var round := |room.history| + 1;
    room.OpenBowl(second);
    forall k | 0 <= k < |room.members|
      ensures room.members[k].currentBalance == afterFirst[k].currentBalance
    {
      NoBetsOfRoundPayNothing(second, bets, round, afterFirst[k].socketId);
    }
  }

  /** The payout of the round below: 10000 on "bau" with the dice showing
      bau, cua, bau pays the stake back plus twice the stake. */
  lemma BauRoundPays()
    ensures RoundWinnings(["bau", "cua", "bau"], [Bet("R1", 1, "s-A", "An", "bau", 10000, Pending, 0)], 1, "s-A")
         == 30000
  {
    var result := ["bau", "cua", "bau"];
    var bets := [Bet("R1", 1, "s-A", "An", "bau", 10000, Pending, 0)];
    var wagers := [GameLogic.Wager("s-A", "bau", 10000)];
    assert bets[..0] == [];
    assert RoundWagers(bets, 1) == wagers;
    assert wagers[..0] == [];
    GameLogic.MatchCountOfTriple(result, "bau");
    assert "cua"[0] != "bau"[0];
    assert GameLogic.MatchCount(result, "bau") == 2;
  }

  /** A round told through the contracts alone: a player with 100000 bets
      10000 on "bau", the dice show bau, cua, bau, and the player ends the
      round with 120000. */
  method BauRoundScenario()
  {
    var config := Config(15, 100000, Rotate, 3, 5000, 50000);
    var room, outcome := JoinRoom(null, "R1", "A", "An", "", "s-A", Some(config));
    assert outcome == Done;
    room.StartShake();
    room.OpenBetting();
    outcome := room.PlaceBet("s-A", "An", "bau", 10000);
    assert outcome == Done;
    assert room.members == [Member("A", "An", "", "s-A", 100000, 90000)];
    assert room.bets == [Bet("R1", 1, "s-A", "An", "bau", 10000, Pending, 0)];
    BauRoundPays();
    room.OpenBowl(["bau", "cua", "bau"]);
    assert room.members[0].currentBalance == 120000;
  }
}
