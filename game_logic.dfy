/** Payout aggregation of a bầu cua round (utils/gameLogic.js).

    `CalculateSettlement` walks the bets of a round and builds, per user, a
    report of how much was staked and how much is paid back.  Its result is
    specified by `Tally`, the report of one user as a function of the bets
    taken in order; the lemmas below state what the reports promise. */
module GameLogic {

  type UserId = string

  /** One of the symbols on the dice ("bau", "cua", "ca", ...); the code only
      ever compares doors for equality. */
  type Door = string

  /** One element of the `bets` argument: `{userId, door, amount}`. */
  datatype Wager = Wager(userId: UserId, door: Door, amount: int)

  /** One value of the `reports` dictionary. */
  datatype Report = Report(userId: UserId, totalWin: int, totalBet: int)

  /** The number of dice of `result` that show `door`. */
  function MatchCount(result: seq<Door>, door: Door): (n: nat)
    ensures n <= |result|
    ensures n == 0 <==> door !in result
  {
    if result == [] then 0
    else (if result[0] == door then 1 else 0) + MatchCount(result[1..], door)
  }

  /** The positions of `result` that show `door`: an independent reading of
      "how many times the door came up". */
  function Positions(result: seq<Door>, door: Door): set<nat>
  {
    set i: nat | i < |result| && result[i] == door
  }

  lemma {:induction false} MatchCountAppend(result: seq<Door>, x: Door, door: Door)
    ensures MatchCount(result + [x], door) == MatchCount(result, door) + (if x == door then 1 else 0)
  {
    if result != [] {
      assert (result + [x])[1..] == result[1..] + [x];
      MatchCountAppend(result[1..], x, door);
    }
  }

  /** The match count is the number of positions of the result holding the door. */
  lemma {:induction false} MatchCountIsPositions(result: seq<Door>, door: Door)
    ensures MatchCount(result, door) == |Positions(result, door)|
  {
    if result == [] {
      assert Positions(result, door) == {};
    } else {
      var n := |result| - 1;
      var p, x := result[..n], result[n];
      assert result == p + [x];
      MatchCountIsPositions(p, door);
      MatchCountAppend(p, x, door);
      assert n !in Positions(p, door);
      if x == door {
        assert Positions(result, door) == Positions(p, door) + {n};
      } else {
        assert Positions(result, door) == Positions(p, door);
      }
    }
  }

  /** For the three dice of a round the match count is 0, 1, 2 or 3 and counts
      the dice showing the door. */
  lemma MatchCountOfTriple(result: seq<Door>, door: Door)
    requires |result| == 3
    ensures 0 <= MatchCount(result, door) <= 3
    ensures MatchCount(result, door) == |Positions(result, door)|
    ensures MatchCount(result, door)
         == (if result[0] == door then 1 else 0) + (if result[1] == door then 1 else 0)
          + (if result[2] == door then 1 else 0)
  {
    MatchCountIsPositions(result, door);
    assert result[1..][1..][1..] == [];
  }

  /** What a bet of `amount` on `door` pays for `result`: the stake back plus
      the stake once more per matching die, and nothing without a match. */
  function WinAmount(result: seq<Door>, door: Door, amount: int): (w: int)
    ensures door !in result ==> w == 0
    ensures door in result ==> w == amount * (1 + MatchCount(result, door))
    ensures 0 <= amount ==> 0 <= w <= (1 + |result|) * amount
  {
    var matchCount := MatchCount(result, door);
    PayoutArithmetic(amount, matchCount, |result|);
    if matchCount > 0 then amount + amount * matchCount else 0
  }

  lemma PayoutArithmetic(a: int, m: int, n: int)
    requires 0 <= m <= n
    ensures a + a * m == a * (1 + m)
    ensures 0 <= a ==> 0 <= a + a * m <= (1 + n) * a
  {
    assert a * (1 + m) == a + a * m;
    assert (1 + n) * a == a + n * a;
    if 0 <= a {
      assert a * m <= a * n == n * a;
    }
  }

  /** What one wager adds to the report of `u`: its stake and its payout when
      it is `u`'s, nothing when it is another user's. */
  function Share(result: seq<Door>, b: Wager, u: UserId): Report
  {
    if b.userId == u then Report(u, WinAmount(result, b.door, b.amount), b.amount)
    else Report(u, 0, 0)
  }

  function Add(r: Report, s: Report): Report
  {
    Report(r.userId, r.totalWin + s.totalWin, r.totalBet + s.totalBet)
  }

  /** The report of `u` after the bets have been taken in order. */
  function Tally(result: seq<Door>, bets: seq<Wager>, u: UserId): (r: Report)
    ensures r.userId == u
    decreases |bets|
  {
    if bets == [] then Report(u, 0, 0)
    else Add(Tally(result, bets[..|bets| - 1], u), Share(result, bets[|bets| - 1], u))
  }

  /** The users that have placed at least one bet. */
  function UserIds(bets: seq<Wager>): set<UserId>
  {
    set i | 0 <= i < |bets| :: bets[i].userId
  }

  /** The bets of `u`, in their order. */
  function OwnBets(bets: seq<Wager>, u: UserId): (r: seq<Wager>)
    ensures forall b :: b in r <==> b in bets && b.userId == u
    decreases |bets|
  {
    if bets == [] then []
    else
      var p, b := bets[..|bets| - 1], bets[|bets| - 1];
      assert bets == p + [b];
      OwnBets(p, u) + (if b.userId == u then [b] else [])
  }

  predicate NonNegativeAmounts(bets: seq<Wager>)
  {
    forall i :: 0 <= i < |bets| ==> bets[i].amount >= 0
  }

  /** `calculateSettlement`: one report per user that has bet, holding the
      total staked and the total won by that user's bets. */
  method CalculateSettlement(result: seq<Door>, bets: seq<Wager>) returns (reports: map<UserId, Report>)
    ensures reports.Keys == UserIds(bets)
    ensures forall u :: u in reports ==> reports[u] == Tally(result, bets, u)
  {
    reports := map[];
    for i := 0 to |bets|
      invariant reports.Keys == UserIds(bets[..i])
      invariant forall u :: u in reports ==> reports[u] == Tally(result, bets[..i], u)
    {
      var bet := bets[i];
      ghost var before := reports;
      UserIdsStep(bets, i);
      if bet.userId !in reports {
        TallyOfAbsentUser(result, bets[..i], bet.userId);
        reports := reports[bet.userId := Report(bet.userId, 0, 0)];
      }
      var report := reports[bet.userId];
      reports := reports[bet.userId := report.(totalBet := report.totalBet + bet.amount)];
      var matchCount := MatchCount(result, bet.door);
      if matchCount > 0 {
        report := reports[bet.userId];
        reports := reports[bet.userId := report.(totalWin := report.totalWin + bet.amount + bet.amount * matchCount)];
      }
      assert reports.Keys == before.Keys + {bet.userId};
      assert reports[bet.userId] == Add(Tally(result, bets[..i], bet.userId), Share(result, bet, bet.userId));
      forall u | u in reports ensures reports[u] == Tally(result, bets[..i + 1], u) {
        TallyStep(result, bets, i, u);
        if u != bet.userId {
          assert reports[u] == before[u];
        }
      }
    }
    assert bets[..|bets|] == bets;
  }

  lemma UserIdsStep(bets: seq<Wager>, i: nat)
    requires i < |bets|
    ensures UserIds(bets[..i + 1]) == UserIds(bets[..i]) + {bets[i].userId}
  {
    assert bets[..i + 1] == bets[..i] + [bets[i]];
  }

  /** Taking bet `i` into account adds its share to every report. */
  lemma TallyStep(result: seq<Door>, bets: seq<Wager>, i: nat, u: UserId)
    requires i < |bets|
    ensures Tally(result, bets[..i + 1], u) == Add(Tally(result, bets[..i], u), Share(result, bets[i], u))
  {
    assert bets[..i + 1][..i] == bets[..i];
  }

  /** A user without bets has the starting report. */
  lemma {:induction false} TallyOfAbsentUser(result: seq<Door>, bets: seq<Wager>, u: UserId)
    requires u !in UserIds(bets)
    ensures Tally(result, bets, u) == Report(u, 0, 0)
    decreases |bets|
  {
    if bets != [] {
      var p := bets[..|bets| - 1];
      assert UserIds(p) <= UserIds(bets);
      TallyOfAbsentUser(result, p, u);
    }
  }

  /** The report of a concatenation adds up the reports of its parts. */
  lemma {:induction false} TallyConcat(result: seq<Door>, p: seq<Wager>, q: seq<Wager>, u: UserId)
    ensures Tally(result, p + q, u) == Add(Tally(result, p, u), Tally(result, q, u))
    decreases |q|
  {
    if q == [] {
      assert p + q == p;
    } else {
      var q', x := q[..|q| - 1], q[|q| - 1];
      assert (p + q)[..|p + q| - 1] == p + q';
      assert (p + q)[|p + q| - 1] == x;
      TallyConcat(result, p, q', u);
    }
  }

  /** Taking one bet out of the sequence takes its share out of the report. */
  lemma TallyRemoveAt(result: seq<Door>, b: seq<Wager>, j: nat, u: UserId)
    requires j < |b|
    ensures Tally(result, b, u) == Add(Tally(result, b[..j] + b[j + 1..], u), Share(result, b[j], u))
  {
    var l, x, r := b[..j], b[j], b[j + 1..];
    assert b == (l + [x]) + r;
    TallyConcat(result, l + [x], r, u);
    TallyConcat(result, l, [x], u);
    TallyConcat(result, l, r, u);
    assert [x][..0] == [];
  }

  lemma MultisetRemoveAt(a: seq<Wager>, b: seq<Wager>, j: nat)
    requires |a| > 0 && j < |b| && b[j] == a[|a| - 1]
    requires multiset(a) == multiset(b)
    ensures multiset(a[..|a| - 1]) == multiset(b[..j] + b[j + 1..])
  {
    var x, a', b' := b[j], a[..|a| - 1], b[..j] + b[j + 1..];
    assert a == a' + [x];
    assert multiset(a) == multiset(a') + multiset{x};
    assert b == b[..j] + [x] + b[j + 1..];
    assert multiset(b) == multiset(b[..j]) + multiset{x} + multiset(b[j + 1..]);
    assert multiset(b') == multiset(b[..j]) + multiset(b[j + 1..]);
    assert multiset(b) == multiset(b') + multiset{x};
    assert multiset(a') == multiset(a) - multiset{x};
    assert multiset(b') == multiset(b) - multiset{x};
  }

  /** Reordering the bets leaves every report unchanged. */
  lemma {:induction false} TallyPermutation(result: seq<Door>, a: seq<Wager>, b: seq<Wager>, u: UserId)
    requires multiset(a) == multiset(b)
    ensures Tally(result, a, u) == Tally(result, b, u)
    decreases |a|
  {
    if a == [] {
      assert |b| == |multiset(b)| == 0;
    } else {
      var x := a[|a| - 1];
      assert x in multiset(b);
      var j :| 0 <= j < |b| && b[j] == x;
      MultisetRemoveAt(a, b, j);
      TallyPermutation(result, a[..|a| - 1], b[..j] + b[j + 1..], u);
      TallyRemoveAt(result, b, j, u);
    }
  }

  /** A report depends only on that user's own bets. */
  lemma {:induction false} TallyOwnBets(result: seq<Door>, bets: seq<Wager>, u: UserId)
    ensures Tally(result, bets, u) == Tally(result, OwnBets(bets, u), u)
    decreases |bets|
  {
    if bets != [] {
      var p, b := bets[..|bets| - 1], bets[|bets| - 1];
      TallyOwnBets(result, p, u);
      if b.userId == u {
        var own := OwnBets(p, u) + [b];
        assert own[..|own| - 1] == OwnBets(p, u);
      } else {
        assert OwnBets(bets, u) == OwnBets(p, u) + [];
        assert Share(result, b, u) == Report(u, 0, 0);
        assert Tally(result, bets, u) == Add(Tally(result, p, u), Report(u, 0, 0));
        assert Tally(result, bets, u) == Tally(result, p, u);
        assert OwnBets(bets, u) == OwnBets(p, u);
      }
    }
  }

  /** With non-negative stakes a user's winnings lie between nothing and the
      stake times one more than the number of dice. */
  lemma {:induction false} TallyBounds(result: seq<Door>, bets: seq<Wager>, u: UserId)
    requires NonNegativeAmounts(bets)
    ensures 0 <= Tally(result, bets, u).totalBet
    ensures 0 <= Tally(result, bets, u).totalWin <= (1 + |result|) * Tally(result, bets, u).totalBet
    decreases |bets|
  {
    if bets != [] {
      var p, b := bets[..|bets| - 1], bets[|bets| - 1];
      assert NonNegativeAmounts(p) && b.amount >= 0;
      TallyBounds(result, p, u);
      var t, s := Tally(result, p, u), Share(result, b, u);
      assert Tally(result, bets, u) == Add(t, s);
      var k := 1 + |result|;
      assert 0 <= s.totalBet && 0 <= s.totalWin <= k * s.totalBet;
      BoundsAdd(k, t.totalBet, t.totalWin, s.totalBet, s.totalWin);
    }
  }

  lemma BoundsAdd(k: int, tb: int, tw: int, sb: int, sw: int)
    requires 0 <= tb && 0 <= tw <= k * tb
    requires 0 <= sb && 0 <= sw <= k * sb
    ensures 0 <= tb + sb && 0 <= tw + sw <= k * (tb + sb)
  {
    assert k * (tb + sb) == k * tb + k * sb;
  }

  /** For a round of three dice: `0 <= totalWin <= 4 * totalBet`. */
  lemma ReportWithinFourStakes(result: seq<Door>, bets: seq<Wager>, u: UserId)
    requires |result| == 3 && NonNegativeAmounts(bets)
    ensures 0 <= Tally(result, bets, u).totalWin <= 4 * Tally(result, bets, u).totalBet
  {
    TallyBounds(result, bets, u);
  }

  predicate Distinct(users: seq<UserId>)
  {
    forall i, j :: 0 <= i < j < |users| ==> users[i] != users[j]
  }

  /** The users in the order of their first bet, each listed once. This is
      the order in which `reports` receives its keys; the order in which a
      JavaScript object lists them differs for integer-like keys. */
  function Users(bets: seq<Wager>): (us: seq<UserId>)
    ensures Distinct(us)
    ensures forall u :: u in us <==> u in UserIds(bets)
    decreases |bets|
  {
    if bets == [] then []
    else
      var p, b := bets[..|bets| - 1], bets[|bets| - 1];
      assert UserIds(bets) == UserIds(p) + {b.userId} by { assert bets == p + [b]; }
      var us := Users(p);
      if b.userId in us then us else us + [b.userId]
  }

  function SumAmounts(bets: seq<Wager>): int
    decreases |bets|
  {
    if bets == [] then 0 else SumAmounts(bets[..|bets| - 1]) + bets[|bets| - 1].amount
  }

  /** The sum of `totalBet` over the reports of `users`. */
  function SumTotalBet(result: seq<Door>, bets: seq<Wager>, users: seq<UserId>): int
    decreases |users|
  {
    if users == [] then 0
    else SumTotalBet(result, bets, users[..|users| - 1]) + Tally(result, bets, users[|users| - 1]).totalBet
  }

  lemma {:induction false} SumTotalBetAppend(result: seq<Door>, p: seq<Wager>, b: Wager, users: seq<UserId>)
    requires Distinct(users)
    ensures SumTotalBet(result, p + [b], users)
         == SumTotalBet(result, p, users) + (if b.userId in users then b.amount else 0)
    decreases |users|
  {
    assert (p + [b])[..|p|] == p;
    if users != [] {
      var us, u := users[..|users| - 1], users[|users| - 1];
      assert users == us + [u];
      SumTotalBetAppend(result, p, b, us);
    }
  }

  /** Every stake is counted once: the `totalBet` of all reports add up to the
      sum of the amounts of all bets. */
  lemma {:induction false} TotalBetConserved(result: seq<Door>, bets: seq<Wager>)
    ensures SumTotalBet(result, bets, Users(bets)) == SumAmounts(bets)
    decreases |bets|
  {
    if bets != [] {
      var p, b := bets[..|bets| - 1], bets[|bets| - 1];
      assert bets == p + [b];
      TotalBetConserved(result, p);
      var us := Users(p);
      assert SumAmounts(bets) == SumAmounts(p) + b.amount;
      SumTotalBetAppend(result, p, b, us);
      if b.userId in us {
        assert Users(bets) == us;
      } else {
        var users := us + [b.userId];
        assert Users(bets) == users;
        assert users[..|users| - 1] == us;
        TallyOfAbsentUser(result, p, b.userId);
        assert Tally(result, bets, b.userId).totalBet == b.amount;
        assert SumTotalBet(result, bets, users) == SumTotalBet(result, bets, us) + b.amount;
      }
    }
  }
}
