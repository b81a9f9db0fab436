/** The documents a room server keeps (models/Room.js, models/Bet.js) and the
    pure pieces of the socket handlers of server.js: looking a member up,
    filtering members out, settling one bet, the winnings of a round and the
    choice of the next dealer. */
module RoomModel {
  import GameLogic

  type UserId = string
  type SocketId = string
  type Door = GameLogic.Door

  /** The room status enum. */
  datatype Status = Waiting | Shaking | Betting | Result | Finished

  datatype DealerMode = Fixed | Rotate

  /** The room config (its display name is left out). */
  datatype Config = Config(
    maxPlayers: int,
    startingBalance: int,
    dealerMode: DealerMode,
    rotateRounds: int,
    minBet: int,
    maxBet: int)

  datatype Dealer = Dealer(userId: UserId, socketId: SocketId, roundsLeft: int)

  datatype Member = Member(
    userId: UserId,
    nickname: string,
    avatar: string,
    socketId: SocketId,
    initBalance: int,
    currentBalance: int)

  /** One entry of the room history; `roundId` is the round number. */
  datatype RoundRecord = RoundRecord(roundId: nat, result: seq<Door>)

  datatype BetStatus = Pending | Win | Lose

  /** A bet document; it names its player by the socket it was placed from. */
  datatype Bet = Bet(
    roomId: string,
    roundId: nat,
    socketId: SocketId,
    nickname: string,
    door: Door,
    amount: int,
    status: BetStatus,
    winAmount: int)

  /** Why a handler stopped without changing the room. */
  datatype Error =
    | RoomNotFound        // join without a stored room and without a config
    | RoomIdTaken         // a finished room already holds the id (unique index)
    | RoomFull
    | NotBetting          // place_bet outside the betting phase (silently ignored)
    | BetOutOfRange
    | MemberNotFound      // place_bet from a socket that is not a member
    | InsufficientBalance

  datatype Outcome = Done | Failed(error: Error)

  /** The host-supplied config values that keep balances non-negative. */
  predicate ConfigSane(config: Config)
  {
    0 <= config.minBet && 0 <= config.startingBalance
  }

  predicate UniqueUserIds(members: seq<Member>)
  {
    forall i, j :: 0 <= i < j < |members| ==> members[i].userId != members[j].userId
  }

  /** `members.findIndex(m => m.userId === userId)`. */
  function FindIndexByUser(members: seq<Member>, userId: UserId): (k: int)
    ensures -1 <= k < |members|
    ensures 0 <= k ==> members[k].userId == userId
    ensures 0 <= k ==> forall j :: 0 <= j < k ==> members[j].userId != userId
    ensures k == -1 ==> forall j :: 0 <= j < |members| ==> members[j].userId != userId
  {
    FindUserFrom(members, userId, 0)
  }

  /** The scan of `findIndex` from position `from` on. */
  function FindUserFrom(members: seq<Member>, userId: UserId, from: nat): (k: int)
    requires from <= |members|
    ensures k == -1 || from <= k < |members|
    ensures 0 <= k ==> members[k].userId == userId
    ensures 0 <= k ==> forall j :: from <= j < k ==> members[j].userId != userId
    ensures k == -1 ==> forall j :: from <= j < |members| ==> members[j].userId != userId
    decreases |members| - from
  {
    if from == |members| then -1
    else if members[from].userId == userId then from
    else FindUserFrom(members, userId, from + 1)
  }

  /** `members.findIndex(m => m.socketId === socketId)`; `members.find` is the
      member at this index. */
  function FindIndexBySocket(members: seq<Member>, socketId: SocketId): (k: int)
    ensures -1 <= k < |members|
    ensures 0 <= k ==> members[k].socketId == socketId
    ensures 0 <= k ==> forall j :: 0 <= j < k ==> members[j].socketId != socketId
    ensures k == -1 ==> forall j :: 0 <= j < |members| ==> members[j].socketId != socketId
  {
    FindSocketFrom(members, socketId, 0)
  }

  /** The scan of `find`/`findIndex` by socket from position `from` on. */
  function FindSocketFrom(members: seq<Member>, socketId: SocketId, from: nat): (k: int)
    requires from <= |members|
    ensures k == -1 || from <= k < |members|
    ensures 0 <= k ==> members[k].socketId == socketId
    ensures 0 <= k ==> forall j :: from <= j < k ==> members[j].socketId != socketId
    ensures k == -1 ==> forall j :: from <= j < |members| ==> members[j].socketId != socketId
    decreases |members| - from
  {
    if from == |members| then -1
    else if members[from].socketId == socketId then from
    else FindSocketFrom(members, socketId, from + 1)
  }

  /** Two member lists with the same sockets at the same places give the same lookups. */
  lemma FindIndexBySocketSameSockets(a: seq<Member>, b: seq<Member>, socketId: SocketId)
    requires |a| == |b|
    requires forall k :: 0 <= k < |a| ==> a[k].socketId == b[k].socketId
    ensures FindIndexBySocket(a, socketId) == FindIndexBySocket(b, socketId)
  {
  }

  /** `members.filter(m => m.userId !== userId)`. */
  function WithoutUser(members: seq<Member>, userId: UserId): (r: seq<Member>)
    ensures |r| <= |members|
    ensures forall i :: 0 <= i < |r| ==> r[i].userId != userId
    decreases |members|
  {
    if members == [] then []
    else
      var p, m := members[..|members| - 1], members[|members| - 1];
      if m.userId != userId then WithoutUser(p, userId) + [m] else WithoutUser(p, userId)
  }

  /** The leave filter keeps exactly the members with another user id, and
      keeps the user ids unique. */
  lemma {:induction false} WithoutUserMembers(members: seq<Member>, userId: UserId)
    ensures forall m :: m in WithoutUser(members, userId) <==> m in members && m.userId != userId
    ensures UniqueUserIds(members) ==> UniqueUserIds(WithoutUser(members, userId))
    decreases |members|
  {
    if members != [] {
      var p, m := members[..|members| - 1], members[|members| - 1];
      assert members == p + [m];
      WithoutUserMembers(p, userId);
      if UniqueUserIds(members) {
        assert UniqueUserIds(p);
        forall x | x in p ensures x.userId != m.userId {
          var j :| 0 <= j < |p| && p[j] == x;
          assert members[j] == x;
        }
      }
    }
  }

  /** `members.filter(m => m.socketId !== socketId)`. */
  function WithoutSocket(members: seq<Member>, socketId: SocketId): (r: seq<Member>)
    ensures |r| <= |members|
    ensures forall i :: 0 <= i < |r| ==> r[i].socketId != socketId
    decreases |members|
  {
    if members == [] then []
    else
      var p, m := members[..|members| - 1], members[|members| - 1];
      if m.socketId != socketId then WithoutSocket(p, socketId) + [m] else WithoutSocket(p, socketId)
  }

  /** The disconnect filter keeps exactly the members on another socket, and
      keeps the user ids unique. */
  lemma {:induction false} WithoutSocketMembers(members: seq<Member>, socketId: SocketId)
    ensures forall m :: m in WithoutSocket(members, socketId) <==> m in members && m.socketId != socketId
    ensures UniqueUserIds(members) ==> UniqueUserIds(WithoutSocket(members, socketId))
    decreases |members|
  {
    if members != [] {
      var p, m := members[..|members| - 1], members[|members| - 1];
      assert members == p + [m];
      WithoutSocketMembers(p, socketId);
      if UniqueUserIds(members) {
        assert UniqueUserIds(p);
        forall x | x in p ensures x.userId != m.userId {
          var j :| 0 <= j < |p| && p[j] == x;
          assert members[j] == x;
        }
      }
    }
  }

  /** Looking a user up in a list with one more member at its end. */
  lemma FindIndexByUserAppend(p: seq<Member>, m: Member, userId: UserId)
    ensures var k := FindIndexByUser(p, userId);
      FindIndexByUser(p + [m], userId)
        == if 0 <= k then k else if m.userId == userId then |p| else -1
  {
    var q := p + [m];
    assert forall j :: 0 <= j < |p| ==> q[j] == p[j];
    assert q[|p|] == m;
  }

  /** Removing `userId` cuts out the member found for it, and nothing when none is found. */
  predicate CutsOne(members: seq<Member>, userId: UserId)
  {
    var k := FindIndexByUser(members, userId);
    && (k == -1 ==> WithoutUser(members, userId) == members)
    && (0 <= k ==> WithoutUser(members, userId) == members[..k] + members[k + 1..])
  }

  /** In a room whose user ids are unique, removing a user cuts exactly that
      member out and keeps the others in their order. */
  lemma {:induction false} WithoutUserCutsOne(members: seq<Member>, userId: UserId)
    requires UniqueUserIds(members)
    ensures CutsOne(members, userId)
    decreases |members|
  {
    if members != [] {
      var p := members[..|members| - 1];
      LastUserIsNew(members);
      WithoutUserCutsOne(p, userId);
      CutsOneStep(members, userId);
    }
  }

  /** One more member at the end of the list keeps `CutsOne`, given that its
      user id is new. */
  lemma CutsOneStep(members: seq<Member>, userId: UserId)
    requires |members| > 0
    requires var n := |members| - 1;
      CutsOne(members[..n], userId) && FindIndexByUser(members[..n], members[n].userId) == -1
    ensures CutsOne(members, userId)
  {
    var n := |members| - 1;
    var p, m := members[..n], members[n];
    assert members == p + [m];
    if m.userId == userId {
      CutsOneAppendMatch(p, m, userId);
    } else {
      CutsOneAppendOther(p, m, userId);
    }
  }

  lemma WithoutUserAppend(p: seq<Member>, m: Member, userId: UserId)
    ensures WithoutUser(p + [m], userId)
         == if m.userId != userId then WithoutUser(p, userId) + [m] else WithoutUser(p, userId)
  {
    var q := p + [m];
    assert q[..|q| - 1] == p && q[|q| - 1] == m;
  }

  lemma CutsOneAppendMatch(p: seq<Member>, m: Member, userId: UserId)
    requires m.userId == userId && FindIndexByUser(p, userId) == -1 && CutsOne(p, userId)
    ensures CutsOne(p + [m], userId)
  {
    var q := p + [m];
    FindIndexByUserAppend(p, m, userId);
    WithoutUserAppend(p, m, userId);
    assert WithoutUser(p, userId) == p;
    assert q[..|p|] + q[|p| + 1..] == p;
  }

  lemma CutsOneAppendOther(p: seq<Member>, m: Member, userId: UserId)
    requires m.userId != userId && CutsOne(p, userId)
    ensures CutsOne(p + [m], userId)
  {
    var q := p + [m];
    var k := FindIndexByUser(p, userId);
    FindIndexByUserAppend(p, m, userId);
    WithoutUserAppend(p, m, userId);
    if 0 <= k {
      var l, r := p[..k], p[k + 1..];
      assert WithoutUser(p, userId) == l + r;
      SliceAppend(p, m, k);
      assert (l + r) + [m] == l + (r + [m]);
    }
  }

  lemma SliceAppend(p: seq<Member>, m: Member, k: nat)
    requires k < |p|
    ensures (p + [m])[..k] == p[..k]
    ensures (p + [m])[k + 1..] == p[k + 1..] + [m]
  {
  }

  /** With unique user ids, the last member's id occurs nowhere before it,
      and the ids before it are unique too. */
  lemma LastUserIsNew(members: seq<Member>)
    requires UniqueUserIds(members) && |members| > 0
    ensures UniqueUserIds(members[..|members| - 1])
    ensures FindIndexByUser(members[..|members| - 1], members[|members| - 1].userId) == -1
  {
    var n := |members| - 1;
    forall j | 0 <= j < n ensures members[..n][j].userId != members[n].userId {
      assert members[..n][j] == members[j];
    }
  }

  /** Without a member on that socket, disconnecting it filters nothing out. */
  lemma {:induction false} WithoutAbsentSocket(members: seq<Member>, socketId: SocketId)
    requires FindIndexBySocket(members, socketId) == -1
    ensures WithoutSocket(members, socketId) == members
    decreases |members|
  {
    if members != [] {
      var p := members[..|members| - 1];
      assert members == p + [members[|members| - 1]];
      WithoutAbsentSocket(p, socketId);
    }
  }

  /** The disconnect filter on a lone member keeps it exactly when it is on
      another socket. */
  lemma WithoutSocketOne(m: Member, socketId: SocketId)
    ensures WithoutSocket([m], socketId) == if m.socketId != socketId then [m] else []
  {
    assert [m][..0] == [];
  }

  /** The disconnect filter keeps the order of the members it keeps:
      filtering two runs of members one after the other is filtering their
      concatenation. With `WithoutSocketOne` this fixes the result member by
      member. */
  lemma {:induction false} WithoutSocketKeepsOrder(p: seq<Member>, q: seq<Member>, socketId: SocketId)
    ensures WithoutSocket(p + q, socketId) == WithoutSocket(p, socketId) + WithoutSocket(q, socketId)
    decreases |q|
  {
    if q == [] {
      assert p + q == p;
    } else {
      var q', m := q[..|q| - 1], q[|q| - 1];
      var pq := p + q;
      assert pq[..|pq| - 1] == p + q' && pq[|pq| - 1] == m;
      WithoutSocketKeepsOrder(p, q', socketId);
      var w := WithoutSocket(p, socketId);
      var wq := WithoutSocket(q', socketId);
      if m.socketId != socketId {
        assert (w + wq) + [m] == w + (wq + [m]);
      }
    }
  }

  /** The effect of `join_room` on the member list of a found room. */
  predicate Joined(before: seq<Member>, after: seq<Member>, config: Config,
                   userId: UserId, nickname: string, avatar: string, socketId: SocketId,
                   outcome: Outcome)
  {
    var k := FindIndexByUser(before, userId);
    && (0 <= k ==> outcome == Done && after == before[k := before[k].(socketId := socketId)])
    && (k == -1 && |before| >= config.maxPlayers ==> outcome == Failed(RoomFull) && after == before)
    && (k == -1 && |before| < config.maxPlayers ==>
          outcome == Done
          && after == before + [Member(userId, nickname, avatar, socketId,
                                       config.startingBalance, config.startingBalance)])
  }

  /** A bet stored for room `roomId` after `rounds` rounds were settled:
      pending exactly when it belongs to the open round `rounds + 1`. */
  predicate BetOfRoom(b: Bet, roomId: string, rounds: nat)
  {
    && b.roomId == roomId
    && 1 <= b.roundId <= rounds + 1
    && b.amount >= 0
    && (b.status == Pending <==> b.roundId == rounds + 1)
  }

  /** Settling round `rounds + 1` leaves every bet consistent with one more
      settled round: the open round's bets are no longer pending, and bets of
      earlier rounds, already settled, are left alone. */
  lemma SettledBetOfRoom(b: Bet, roomId: string, rounds: nat, result: seq<Door>)
    requires BetOfRoom(b, roomId, rounds)
    ensures BetOfRoom(SettleIn(result, rounds + 1, b), roomId, rounds + 1)
    ensures b.roundId <= rounds ==> SettleIn(result, rounds + 1, b) == b && b.status != Pending
  {
  }

  /** A bet after the bowl is opened on `result`. */
  function Settle(result: seq<Door>, b: Bet): Bet
  {
    var matchCount := GameLogic.MatchCount(result, b.door);
    if matchCount > 0 then b.(status := Win, winAmount := GameLogic.WinAmount(result, b.door, b.amount))
    else b.(status := Lose)
  }

  /** A bet after the bowl of round `round` is opened: only that round's bets settle. */
  function SettleIn(result: seq<Door>, round: nat, b: Bet): Bet
  {
    if b.roundId == round then Settle(result, b) else b
  }

  /** The bets of round `round`, as the wagers of the payout aggregation,
      keyed by the socket they were placed from. */
  function RoundWagers(bets: seq<Bet>, round: nat): (r: seq<GameLogic.Wager>)
    ensures (forall i :: 0 <= i < |bets| ==> bets[i].amount >= 0) ==> GameLogic.NonNegativeAmounts(r)
    decreases |bets|
  {
    if bets == [] then []
    else
      var b := bets[|bets| - 1];
      RoundWagers(bets[..|bets| - 1], round)
        + (if b.roundId == round then [GameLogic.Wager(b.socketId, b.door, b.amount)] else [])
  }

  /** What opening the bowl of round `round` pays to the player on `socketId`. */
  function RoundWinnings(result: seq<Door>, bets: seq<Bet>, round: nat, socketId: SocketId): int
  {
    GameLogic.Tally(result, RoundWagers(bets, round), socketId).totalWin
  }

  /** Opening the bowl pays no negative amount when no stake is negative. */
  lemma RoundWinningsNonNegative(result: seq<Door>, bets: seq<Bet>, round: nat, socketId: SocketId)
    requires forall i :: 0 <= i < |bets| ==> bets[i].amount >= 0
    ensures 0 <= RoundWinnings(result, bets, round, socketId)
  {
    GameLogic.TallyBounds(result, RoundWagers(bets, round), socketId);
  }

  /** A round without bets pays nobody: opening the bowl again right after a
      settlement, before any new bet, credits nothing, since every stored bet
      belongs to an earlier round. */
  lemma {:induction false} NoBetsOfRoundPayNothing(result: seq<Door>, bets: seq<Bet>, round: nat, socketId: SocketId)
    requires forall i :: 0 <= i < |bets| ==> bets[i].roundId != round
    ensures RoundWagers(bets, round) == []
    ensures RoundWinnings(result, bets, round, socketId) == 0
    decreases |bets|
  {
    if bets != [] {
      NoBetsOfRoundPayNothing(result, bets[..|bets| - 1], round, socketId);
    }
  }

  /** Taking one more bet into account adds its payout, if it is a bet of the
      round placed from that socket. */
  lemma RoundWinningsStep(result: seq<Door>, bets: seq<Bet>, i: nat, round: nat, socketId: SocketId)
    requires i < |bets|
    ensures RoundWinnings(result, bets[..i + 1], round, socketId)
         == RoundWinnings(result, bets[..i], round, socketId)
          + (if bets[i].roundId == round && bets[i].socketId == socketId
             then GameLogic.WinAmount(result, bets[i].door, bets[i].amount) else 0)
  {
    var p := bets[..i + 1];
    assert p[..|p| - 1] == bets[..i];
    var w := RoundWagers(bets[..i], round);
    if bets[i].roundId == round {
      var w' := w + [GameLogic.Wager(bets[i].socketId, bets[i].door, bets[i].amount)];
      assert w'[..|w'| - 1] == w;
    } else {
      assert w + [] == w;
    }
  }

  function Credit(m: Member, amount: int): Member
  {
    m.(currentBalance := m.currentBalance + amount)
  }

  /** What opening the bowl pays to the member at index `k`: the `$` update
      credits the first member on the bet's socket, so a later member on the
      same socket receives nothing. */
  function PayoutTo(members: seq<Member>, k: nat, result: seq<Door>, bets: seq<Bet>, round: nat): int
    requires k < |members|
  {
    if FindIndexBySocket(members, members[k].socketId) == k
    then RoundWinnings(result, bets, round, members[k].socketId)
    else 0
  }

  /** The index of the member after the dealer, going round the member list;
      a dealer who is no longer a member is followed by the first member. */
  function SuccessorIndex(members: seq<Member>, socketId: SocketId): (k: nat)
    requires |members| > 0
    ensures k < |members|
    ensures FindIndexBySocket(members, socketId) == -1 ==> k == 0
    ensures 0 <= FindIndexBySocket(members, socketId) < |members| - 1
            ==> k == FindIndexBySocket(members, socketId) + 1
    ensures FindIndexBySocket(members, socketId) == |members| - 1 ==> k == 0
  {
    var i := FindIndexBySocket(members, socketId);
    ModAtMost(i + 1, |members|);
    (i + 1) % |members|
  }

  lemma ModAtMost(x: int, n: int)
    requires 0 <= x <= n && 0 < n
    ensures x < n ==> x % n == x
    ensures x == n ==> x % n == 0
  {
  }

  /** The dealer after one settlement. In rotate mode the dealer's rounds
      count down; when they run out the next member deals for `rotateRounds`
      rounds. With no member left the handler fails before saving, so the
      dealer stays as it was. */
  function NextDealer(dealer: Dealer, members: seq<Member>, config: Config): Dealer
  {
    if config.dealerMode == Fixed then dealer
    else if dealer.roundsLeft - 1 > 0 then dealer.(roundsLeft := dealer.roundsLeft - 1)
    else if |members| == 0 then dealer
    else
      var next := members[SuccessorIndex(members, dealer.socketId)];
      Dealer(next.userId, next.socketId, config.rotateRounds)
  }

  /** The dealer after `n` settlements with an unchanged member list. */
  function DealerAfter(dealer: Dealer, members: seq<Member>, config: Config, n: nat): Dealer
  {
    if n == 0 then dealer else NextDealer(DealerAfter(dealer, members, config, n - 1), members, config)
  }

  /** A fixed dealer never changes. */
  lemma {:induction false} FixedDealerStays(dealer: Dealer, members: seq<Member>, config: Config, n: nat)
    requires config.dealerMode == Fixed
    ensures DealerAfter(dealer, members, config, n) == dealer
  {
    if n > 0 {
      FixedDealerStays(dealer, members, config, n - 1);
    }
  }

  /** A rotating dealer keeps the role, one round fewer each time, while
      rounds are left. */
  lemma {:induction false} DealerKeepsRole(dealer: Dealer, members: seq<Member>, config: Config, n: nat)
    requires config.dealerMode == Rotate
    requires n < dealer.roundsLeft
    ensures DealerAfter(dealer, members, config, n) == dealer.(roundsLeft := dealer.roundsLeft - n)
  {
    if n > 0 {
      DealerKeepsRole(dealer, members, config, n - 1);
    }
  }

  /** Exactly when its rounds run out, the role passes to the member after
      the dealer, for `rotateRounds` rounds. */
  lemma DealerRotatesOnTime(dealer: Dealer, members: seq<Member>, config: Config)
    requires config.dealerMode == Rotate && 1 <= dealer.roundsLeft && |members| > 0
    ensures var next := members[SuccessorIndex(members, dealer.socketId)];
      DealerAfter(dealer, members, config, dealer.roundsLeft)
        == Dealer(next.userId, next.socketId, config.rotateRounds)
  {
    DealerKeepsRole(dealer, members, config, dealer.roundsLeft - 1);
  }
}
