/** The level a player is scored against when a game ends: the average level of all opponents. */
module OpponentLevel {
  import opened Matchmaker

  // ---------------------------------------------------------------- sums over slots

  /** g(a) + g(a + 1) + ... over n terms. */
  function Sum(g: nat -> nat, a: nat, n: nat): nat
    decreases n
  {
    if n == 0 then 0 else Sum(g, a, n - 1) + g(a + n - 1)
  }

  lemma {:induction false} SumHead(g: nat -> nat, a: nat, n: nat)
    ensures Sum(g, a, n + 1) == g(a) + Sum(g, a + 1, n)
    decreases n
  {
    if n > 0 { SumHead(g, a, n - 1); }
  }

  /** Over a whole period it does not matter where a sum starts. */
  lemma {:induction false} SumShift(g: nat -> nat, a: nat, n: nat)
    requires forall k: nat :: g(k + n) == g(k)
    ensures Sum(g, a, n) == Sum(g, 0, n)
    decreases a
  {
    if a > 0 {
      SumShift(g, a - 1, n);
      SumHead(g, a - 1, n);
      assert Sum(g, a - 1, n + 1) == Sum(g, a - 1, n) + g(a - 1 + n);
    }
  }

  lemma {:induction false} SumSplit(g: nat -> nat, a: nat, m: nat, n: nat)
    ensures Sum(g, a, m + n) == Sum(g, a, m) + Sum(g, a + m, n)
    decreases n
  {
    if n > 0 { SumSplit(g, a, m, n - 1); }
  }

  // ---------------------------------------------------------------- opponents

  /** Every slot is a side of its own where there are no teams. */
  function Sides(k: Kind): nat {
    if Teams(k) == 0 then Total(k) else Teams(k)
  }

  predicate Opposed(sides: nat, p: nat, i: nat)
    requires sides > 0
  {
    p % sides != i % sides
  }

  /** The level that slot p adds for player i; slots are counted around the table. */
  function Share(levels: seq<nat>, sides: nat, i: nat): nat -> nat
    requires |levels| > 0 && sides > 0
  {
    (p: nat) => if Opposed(sides, p, i) then levels[p % |levels|] else 0
  }

  /** The levels of all opponents of player i, summed over the slots of the game. */
  function OpponentSum(levels: seq<nat>, sides: nat, i: nat): nat
    requires |levels| > 0 && sides > 0
  {
    Sum(Share(levels, sides, i), 0, |levels|)
  }

  function OpponentCount(tp: nat, sides: nat): int
    requires sides > 0
  {
    tp - tp / sides
  }

  lemma {:induction false} CountIs(tp: nat, sides: nat, i: nat)
    requires sides > 0 && tp > 0 && tp % sides == 0
    ensures OpponentSum(seq(tp, _ => 1), sides, i) == OpponentCount(tp, sides)
  {
    var g := Share(seq(tp, _ => 1), sides, i);
    Whole(tp, sides);
    CountRounds(g, sides, i, tp / sides);
  }

  lemma {:induction false} CountRounds(g: nat -> nat, sides: nat, i: nat, n: nat)
    requires sides > 0 && forall p: nat :: g(p) == if Opposed(sides, p, i) then 1 else 0
    ensures Sum(g, 0, n * sides) == n * sides - n
    decreases n
  {
    if n > 0 {
      CountRounds(g, sides, i, n - 1);
      assert n * sides == (n - 1) * sides + sides;
      SumSplit(g, 0, (n - 1) * sides, sides);
      CountRound(g, sides, i, (n - 1) * sides, sides);
      Remainders(n - 1, sides, i % sides);
    }
  }

  /** The place of the teammate within a block of sides-many slots that starts at a. */
  lemma {:induction false} CountRound(g: nat -> nat, sides: nat, i: nat, a: nat, n: nat)
    requires sides > 0 && n <= sides && (exists m: nat :: a == m * sides)
    requires forall p: nat :: g(p) == if Opposed(sides, p, i) then 1 else 0
    ensures Sum(g, a, n) == if i % sides < n then n - 1 else n
    decreases n
  {
    if n > 0 {
      CountRound(g, sides, i, a, n - 1);
      var m: nat :| a == m * sides;
      Remainders(m, sides, n - 1);
    }
  }

  lemma Remainders(m: nat, sides: nat, r: nat)
    requires r < sides
    ensures 0 <= m * sides && (m * sides + r) % sides == r
  {
    LaneOf(r, m, sides);
  }

  // ---------------------------------------------------------------- the walk around the table

  /** After j rounds the walk of player i has summed the slots from i + 1 to i + j * tt that belong to opponents. */
  lemma RoundOf(g: nat -> nat, i: nat, tt: nat, j: nat)
    requires tt > 0 && forall k: nat :: g(i + k * tt) == 0
    ensures Sum(g, i + 1 + j * tt, tt) == Sum(g, i + 1 + j * tt, tt - 1)
    ensures 0 <= j * tt && (j + 1) * tt == j * tt + tt
    ensures Sum(g, i + 1, (j + 1) * tt) == Sum(g, i + 1, j * tt) + Sum(g, i + 1 + j * tt, tt - 1)
  {
    Grows(0, j, tt);
    SumSplit(g, i + 1, j * tt, tt);
    assert i + 1 + j * tt + tt - 1 == i + (j + 1) * tt;
    assert g(i + (j + 1) * tt) == 0;
  }

  lemma SharePeriodic(levels: seq<nat>, tt: nat, i: nat)
    requires |levels| > 0 && tt > 0 && |levels| % tt == 0
    ensures forall k: nat :: Share(levels, tt, i)(k + |levels|) == Share(levels, tt, i)(k)
    ensures forall k: nat :: 0 <= k * tt && Share(levels, tt, i)(i + k * tt) == 0
  {
    var n := |levels|;
    Whole(n, tt);
    forall k: nat ensures Share(levels, tt, i)(k + n) == Share(levels, tt, i)(k) {
      AddMultiple(k, n / tt, tt);
      AddMultiple(k, 1, n);
    }
    forall k: nat ensures 0 <= k * tt && Share(levels, tt, i)(i + k * tt) == 0 {
      AddMultiple(i, k, tt);
    }
  }

  lemma AddMultiple(x: nat, m: nat, d: nat)
    requires d > 0
    ensures 0 <= m * d && (x + m * d) % d == x % d
  {
    Grows(0, m, d);
    Grows(0, x / d, d);
    var r := x % d;
    assert x == x / d * d + r;
    LaneOf(r, x / d + m, d);
    assert x + m * d == (x / d + m) * d + r;
  }

  /** One round of the walk: the opponents up to the next teammate. */
  method Round(levels: seq<nat>, tt: nat, i: nat, k: nat, sum: nat, ghost j: nat) returns (sum': nat)
    requires tt > 0 && |levels| > 0 && 0 <= j * tt && k == i + 1 + j * tt
    ensures sum' == sum + Sum(Share(levels, tt, i), k, tt - 1)
  {
    hide Share, Opposed;
    sum' := sum;
    var k' := k;
    for l: nat := 0 to tt - 1
      invariant k' == k + l && sum' == sum + Sum(Share(levels, tt, i), k, l)
    {
      NotTeammate(i, tt, j, l);
      ShareOf(levels, tt, i, k');
      sum' := sum' + levels[k' % |levels|];
      k' := k' + 1;
    }
  }

  lemma ShareOf(levels: seq<nat>, tt: nat, i: nat, k: nat)
    requires tt > 0 && |levels| > 0 && Opposed(tt, k, i)
    ensures Share(levels, tt, i)(k) == levels[k % |levels|]
  {
  }

  /** The walk of player i around a table of tt teams: tt - 1 opponents, one teammate skipped, and so on. */
  method Walked(levels: seq<nat>, tt: nat, i: nat) returns (sum: nat)
    requires tt > 0 && |levels| > 0 && |levels| % tt == 0 && i < |levels|
    ensures sum == OpponentSum(levels, tt, i)
  {
    hide Share, Sum;
    var count := |levels| / tt;
    ghost var g := Share(levels, tt, i);
    SharePeriodic(levels, tt, i);
    var k := i + 1;
    sum := 0;
    Empty(g, i + 1, tt);
    for j: nat := 0 to count
      invariant 0 <= j * tt && k == i + 1 + j * tt && sum == Sum(g, i + 1, j * tt)
    {
      RoundOf(g, i, tt, j);
      sum := Round(levels, tt, i, k, sum, j);
      k := k + (tt - 1) + 1;
    }
    Whole(|levels|, tt);
    SumShift(g, i + 1, |levels|);
  }

  lemma Empty(g: nat -> nat, a: nat, tt: nat)
    ensures 0 * tt == 0 && Sum(g, a, 0 * tt) == 0
  {
  }

  lemma NotTeammate(i: nat, tt: nat, j: nat, l: nat)
    requires tt > 0 && l < tt - 1
    ensures 0 <= j * tt && Opposed(tt, i + 1 + j * tt + l, i)
  {
    AddMultiple(i + 1 + l, j, tt);
    StepsApart(i, tt, l + 1);
  }

  /** Fewer than tt steps from a slot lead to another team. */
  lemma StepsApart(i: nat, tt: nat, d: nat)
    requires 0 < d < tt
    ensures (i + d) % tt != i % tt
  {
    var q, r := i / tt, i % tt;
    Grows(0, q, tt);
    if r + d < tt {
      LaneOf(r + d, q, tt);
      assert i + d == (r + d) + q * tt;
    } else {
      LaneOf(r + d - tt, q + 1, tt);
      assert (q + 1) * tt == q * tt + tt;
    }
  }

  // ---------------------------------------------------------------- all kinds of games

  /** The integer mean over all opponents. */
  function Mean(levels: seq<nat>, sides: nat, i: nat): nat
    requires sides > 1 && |levels| > 0 && |levels| % sides == 0
  {
    CountPositive(|levels|, sides);
    OpponentSum(levels, sides, i) / OpponentCount(|levels|, sides)
  }

  lemma CountPositive(tp: nat, sides: nat)
    requires sides > 1 && tp > 0 && tp % sides == 0
    ensures 0 < OpponentCount(tp, sides) == tp / sides * (sides - 1)
  {
    Whole(tp, sides);
    Distribute(tp / sides, sides);
  }

  lemma Distribute(q: nat, s: nat)
    requires s > 1
    ensures q * s == q * (s - 1) + q
    ensures q * s > 0 ==> q * (s - 1) > 0
  {
    if q > 0 { Grows(1, q, s - 1); }
  }

  /** A table where everybody plays alone: the others, one by one. */
  method AllOthers(levels: seq<nat>, i: nat) returns (sum: nat)
    requires i < |levels|
    ensures sum == OpponentSum(levels, |levels|, i)
  {
    hide Share;
    sum := 0;
    for j: nat := 0 to |levels|
      invariant sum == Sum(Share(levels, |levels|, i), 0, j)
    {
      Alone(levels, i, j);
      if i != j { sum := sum + levels[j]; }
    }
  }

  lemma Alone(levels: seq<nat>, i: nat, j: nat)
    requires i < |levels| && j < |levels|
    ensures Share(levels, |levels|, i)(j) == if i == j then 0 else levels[j]
  {
    Small(i, |levels|);
    Small(j, |levels|);
  }

  lemma Small(a: nat, n: nat)
    requires a < n
    ensures a % n == a
  {
  }

  /** What is recorded for player i. */
  function Recorded(k: Kind, ladder: seq<nat>, team: seq<nat>, i: nat): nat
    requires |ladder| == |team| == Total(k)
  {
    KindSides(k);
    if k in {At2v2, At3v3, At4v4} then team[(i + 1) % Total(k)]
    else if k == At2v2v2 then team[(i + 2) % Total(k)] / 2
    else Mean(ladder, Sides(k), i)
  }

  lemma KindSides(k: Kind)
    ensures 1 < Sides(k) <= Total(k) && Total(k) % Sides(k) == 0
  {
  }

  /** The walk of player i, averaged over as many steps as it took. */
  method TeamMean(levels: seq<nat>, tt: nat, i: nat) returns (level: nat)
    requires tt > 1 && |levels| > 0 && |levels| % tt == 0 && i < |levels|
    ensures level == Mean(levels, tt, i)
  {
    hide OpponentSum;
    CountPositive(|levels|, tt);
    level := Walked(levels, tt, i);
    level := level / (|levels| / tt * (tt - 1));
  }

  method LevelAgainst(k: Kind, ladder: seq<nat>, team: seq<nat>, i: nat) returns (level: nat)
    requires |ladder| == |team| == Total(k) && i < Total(k)
    ensures level == Recorded(k, ladder, team, i)
  {
    hide OpponentSum, Teams, Sides, Mean, OpponentCount;
    KindSides(k);
    var tp := Total(k);
    match k {
      case Pg1v1 =>
        level := ladder[(i + 1) % tp];
        Duel(ladder, i);
      case SmallFfa =>
        level := AllOthers(ladder, i);
        level := level / (tp - 1);
        FourAlone(ladder, i);
      case At2v2 | At3v3 | At4v4 =>
        level := team[(i + 1) % tp];
      case At2v2v2 =>
        level := team[(i + 1) % tp];
        level := team[(i + 2) % tp];
        level := level / 2;
      case _ =>
        TeamGame(k);
        level := TeamMean(ladder, Teams(k), i);
    }
  }

  method OpponentLevels(k: Kind, ladder: seq<nat>, team: seq<nat>) returns (oppon: seq<nat>)
    requires |ladder| == |team| == Total(k)
    ensures |oppon| == Total(k) && forall i :: 0 <= i < Total(k) ==> oppon[i] == Recorded(k, ladder, team, i)
  {
    hide Recorded, Total;
    oppon := [];
    for i: nat := 0 to Total(k)
      invariant |oppon| == i && forall j :: 0 <= j < i ==> oppon[j] == Recorded(k, ladder, team, j)
    {
      var level := LevelAgainst(k, ladder, team, i);
      oppon := oppon + [level];
    }
  }

  lemma Duel(ladder: seq<nat>, i: nat)
    requires |ladder| == 2 && i < 2
    ensures Sides(Pg1v1) == 2 && Mean(ladder, 2, i) == ladder[(i + 1) % 2]
  {
    var g := Share(ladder, 2, i);
    assert Sum(g, 0, 2) == g(0) + g(1);
  }

  lemma FourAlone(ladder: seq<nat>, i: nat)
    requires |ladder| == 4
    ensures Sides(SmallFfa) == 4 && Mean(ladder, 4, i) == OpponentSum(ladder, 4, i) / 3
  {
  }

  lemma TeamGame(k: Kind)
    requires k !in {Pg1v1, SmallFfa}
    ensures Sides(k) == Teams(k)
  {
  }

  // ---------------------------------------------------------------- players who queued alone

  lemma {:induction false} SumBetween(g: nat -> nat, ones: nat -> nat, lo: nat, hi: nat, n: nat)
    requires forall p: nat :: p < n ==> Scaled(lo, ones(p)) <= g(p) <= Scaled(hi, ones(p))
    ensures Scaled(lo, Sum(ones, 0, n)) <= Sum(g, 0, n) <= Scaled(hi, Sum(ones, 0, n))
    decreases n
  {
    if n > 0 {
      SumBetween(g, ones, lo, hi, n - 1);
      ScaledSum(lo, Sum(ones, 0, n - 1), ones(n - 1));
      ScaledSum(hi, Sum(ones, 0, n - 1), ones(n - 1));
      hide Scaled;
    }
  }

  function Scaled(a: nat, b: nat): int {
    a * b
  }

  lemma ScaledSum(a: nat, b: nat, c: nat)
    ensures Scaled(a, b + c) == Scaled(a, b) + Scaled(a, c)
  {
  }

  lemma ShareBetween(levels: seq<nat>, sides: nat, i: nat, lo: nat, hi: nat, p: nat)
    requires sides > 0 && p < |levels|
    requires Opposed(sides, p, i) ==> lo <= levels[p] <= hi
    ensures var one := Share(seq(|levels|, _ => 1), sides, i)(p);
            Scaled(lo, one) <= Share(levels, sides, i)(p) <= Scaled(hi, one)
  {
    SmallRemainder(p, |levels|);
    hide Opposed;
  }

  /** What is recorded lies between the ladder levels of the opponents; nobody else's level matters, and no team's. */
  lemma QueuedAlone(k: Kind, ladder: seq<nat>, team: seq<nat>, i: nat, lo: nat, hi: nat)
    requires !Arranged(k) && |ladder| == |team| == Total(k) && i < Total(k)
    requires forall p :: 0 <= p < Total(k) && Opposed(Sides(k), p, i) ==> lo <= ladder[p] <= hi
    ensures lo <= Recorded(k, ladder, team, i) <= hi
  {
    KindSides(k);
    var n, s := Total(k), Sides(k);
    CountIs(n, s, i);
    CountPositive(n, s);
    var g, ones := Share(ladder, s, i), Share(seq(n, _ => 1), s, i);
    forall p: nat | p < n ensures Scaled(lo, ones(p)) <= g(p) <= Scaled(hi, ones(p)) {
      ShareBetween(ladder, s, i, lo, hi, p);
    }
    hide Sum, Share, Opposed, Total, Sides, OpponentCount;
    SumBetween(g, ones, lo, hi, n);
    Quotient(OpponentSum(ladder, s, i), OpponentCount(n, s), lo, hi);
  }

  lemma Quotient(x: nat, d: nat, lo: nat, hi: nat)
    requires d > 0 && lo * d <= x <= hi * d
    ensures lo <= x / d <= hi
  {
    assert x == x / d * d + x % d;
    if x / d < lo { Grows(x / d + 1, lo, d); }
    if x / d > hi { Grows(hi + 1, x / d, d); }
  }

  // ---------------------------------------------------------------- arranged teams

  /** Members of a team share the level of their team. */
  ghost predicate TeamLevels(team: seq<nat>, sides: nat, of: seq<nat>)
    requires sides > 0
  {
    |of| == sides && forall p :: 0 <= p < |team| ==> team[p] == of[p % sides]
  }

  lemma {:induction false} TeamSums(team: seq<nat>, sides: nat, of: seq<nat>, i: nat, n: nat)
    requires sides > 0 && |team| > 0 && n * sides <= |team| && |of| == sides && TeamLevels(team, sides, of)
    ensures Sum(Share(team, sides, i), 0, n * sides) == n * Sum(Share(of, sides, i), 0, sides)
    decreases n
  {
    hide Share, TeamLevels;
    if n > 0 {
      assert n * sides == (n - 1) * sides + sides;
      TeamSums(team, sides, of, i, n - 1);
      SumSplit(Share(team, sides, i), 0, (n - 1) * sides, sides);
      OneBlock(team, sides, of, i, n - 1, sides);
      assert n * Sum(Share(of, sides, i), 0, sides) ==
             (n - 1) * Sum(Share(of, sides, i), 0, sides) + Sum(Share(of, sides, i), 0, sides);
    }
  }

  lemma {:induction false} OneBlock(team: seq<nat>, sides: nat, of: seq<nat>, i: nat, b: nat, m: nat)
    requires sides > 0 && (b + 1) * sides <= |team| && TeamLevels(team, sides, of) && m <= sides
    ensures 0 <= b * sides && Sum(Share(team, sides, i), b * sides, m) == Sum(Share(of, sides, i), 0, m)
    decreases m
  {
    hide Share;
    Grows(0, b, sides);
    if m > 0 {
      OneBlock(team, sides, of, i, b, m - 1);
      SameShare(team, sides, of, i, b, m - 1);
    }
  }

  lemma SameShare(team: seq<nat>, sides: nat, of: seq<nat>, i: nat, b: nat, r: nat)
    requires sides > 0 && (b + 1) * sides <= |team| && |of| == sides && TeamLevels(team, sides, of) && r < sides
    ensures 0 <= b * sides && Share(team, sides, i)(b * sides + r) == Share(of, sides, i)(r)
  {
    hide Share, TeamLevels;
    Remainders(b, sides, r);
    assert (b + 1) * sides == b * sides + sides;
    ShareAt(team, sides, of, i, b * sides + r, r);
  }

  lemma ShareAt(team: seq<nat>, sides: nat, of: seq<nat>, i: nat, p: nat, r: nat)
    requires sides > 0 && p < |team| && TeamLevels(team, sides, of) && p % sides == r
    ensures Share(team, sides, i)(p) == Share(of, sides, i)(r)
  {
    SmallRemainder(p, |team|);
    SmallRemainder(r, sides);
    assert team[p] == of[r];
  }

  lemma SmallRemainder(x: nat, n: nat)
    requires x < n
    ensures x % n == x
  {
  }

  /** Between two arranged teams the level recorded is the mean over the opponents. */
  lemma TwoTeamsExact(k: Kind, ladder: seq<nat>, team: seq<nat>, of: seq<nat>, i: nat)
    requires k in {At2v2, At3v3, At4v4} && |ladder| == |team| == Total(k) && i < Total(k)
    requires TeamLevels(team, 2, of)
    ensures Recorded(k, ladder, team, i) == Mean(team, 2, i) == of[1 - i % 2]
  {
    MeanOfTwo(team, of, i, Total(k) / 2);
    hide Mean;
    assert team[(i + 1) % Total(k)] == of[1 - i % 2];
  }

  lemma MeanOfTwo(team: seq<nat>, of: seq<nat>, i: nat, n: nat)
    requires n > 0 && |team| == n * 2 && TeamLevels(team, 2, of)
    ensures Mean(team, 2, i) == of[1 - i % 2]
  {
    TeamSums(team, 2, of, i, n);
    TwoShares(of, i);
    hide Sum, Share, TeamLevels;
    var x := of[1 - i % 2];
    assert OpponentSum(team, 2, i) == n * x && OpponentCount(|team|, 2) == n;
    DivideBack(n, x);
  }

  lemma DivideBack(n: nat, x: nat)
    requires n > 0
    ensures n * x / n == x
  {
    Grows(0, x, n);
    OfBlock(x * n, n, x);
  }

  lemma TwoShares(of: seq<nat>, i: nat)
    requires |of| == 2
    ensures Sum(Share(of, 2, i), 0, 2) == of[1 - i % 2]
  {
    var g := Share(of, 2, i);
    assert Sum(g, 0, 2) == g(0) + g(1);
  }

  /**
   Among three arranged teams the second opponent's level replaces the first one's before the halving. The mean
   over the opponents is recorded exactly if the first opponent's level is 0, or is 1 while the second's is even.
   */
  lemma ThreeTeamsExactly(ladder: seq<nat>, team: seq<nat>, of: seq<nat>, i: nat)
    requires |ladder| == |team| == 6 && i < 6 && TeamLevels(team, 3, of)
    ensures var a, b := of[(i + 1) % 3], of[(i + 2) % 3];
            && Mean(team, 3, i) == (a + b) / 2
            && (Recorded(At2v2v2, ladder, team, i) == Mean(team, 3, i) <==> a == 0 || (a == 1 && b % 2 == 0))
  {
    MeanOfThree(team, of, i);
    hide Mean;
    assert team[(i + 2) % 6] == of[(i + 2) % 3];
    Halves(of[(i + 1) % 3], of[(i + 2) % 3]);
  }

  lemma Halves(a: nat, b: nat)
    ensures b / 2 == (a + b) / 2 <==> a == 0 || (a == 1 && b % 2 == 0)
  {
  }

  lemma MeanOfThree(team: seq<nat>, of: seq<nat>, i: nat)
    requires |team| == 6 && i < 6 && TeamLevels(team, 3, of)
    ensures Mean(team, 3, i) == (of[(i + 1) % 3] + of[(i + 2) % 3]) / 2
  {
    TeamSums(team, 3, of, i, 2);
    ThreeShares(of, i);
    hide Sum, Share, TeamLevels;
    assert OpponentCount(6, 3) == 4;
    assert OpponentSum(team, 3, i) == 2 * (of[(i + 1) % 3] + of[(i + 2) % 3]);
  }

  lemma ThreeShares(of: seq<nat>, i: nat)
    requires |of| == 3 && i < 6
    ensures Sum(Share(of, 3, i), 0, 3) == of[(i + 1) % 3] + of[(i + 2) % 3]
  {
    var g := Share(of, 3, i);
    assert Sum(g, 0, 3) == g(0) + g(1) + g(2);
    assert i in {0, 1, 2, 3, 4, 5};
  }

  /** Two opposing teams of levels 30 and 10 count as 5, not as 20. */
  lemma ThreeTeamsWrong()
    ensures var team := [20, 30, 10, 20, 30, 10];
            Recorded(At2v2v2, team, team, 0) == 5 && Mean(team, 3, 0) == 20
  {
    ThreeTeamsExactly([20, 30, 10, 20, 30, 10], [20, 30, 10, 20, 30, 10], [20, 30, 10], 0);
  }
}
