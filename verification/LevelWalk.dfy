/** The zig-zag order in which the matchmaker visits level lists around the searcher's level. */
module LevelWalk {

  const MAX_LEVEL: int := 100

  function Abs(d: int): nat {
    if d < 0 then -d else d
  }

  /** The next offset: up by one, down by the same, and only one way where the other is out of range. */
  function NextDelta(level: int, delta: int): int {
    var d := if delta <= 0 || level - delta < 0 then Abs(delta) + 1 else -delta;
    if level + d > MAX_LEVEL then -d else d
  }

  /** Position of an offset in the order 0, 1, -1, 2, -2, ... */
  function Rank(d: int): nat {
    2 * Abs(d) + (if d < 0 then 1 else 0)
  }

  /** The offsets that the search loop goes through, from delta on. */
  function Walk(level: nat, diff: nat, delta: int): seq<int>
    requires level <= MAX_LEVEL && 0 <= level + delta <= MAX_LEVEL
    decreases 2 * diff + 2 - Rank(delta)
  {
    if Abs(delta) >= diff + 1 then []
    else
      var d := NextDelta(level, delta);
      NextRank(level, delta);
      if level + d < 0 then [delta]
      else [delta] + Walk(level, diff, d)
  }

  lemma NextRank(level: nat, delta: int)
    requires level <= MAX_LEVEL && 0 <= level + delta <= MAX_LEVEL
    ensures Rank(NextDelta(level, delta)) > Rank(delta)
    ensures level + NextDelta(level, delta) <= MAX_LEVEL
  {
  }

  /** From delta on, the walk visits exactly the offsets of higher rank that keep the level between 0 and MAX_LEVEL. */
  lemma {:induction false} WalkVisits(level: nat, diff: nat, delta: int, e: int)
    requires level <= MAX_LEVEL && 0 <= level + delta <= MAX_LEVEL
    ensures e in Walk(level, diff, delta) <==>
            Abs(e) <= diff && 0 <= level + e <= MAX_LEVEL && Rank(e) >= Rank(delta)
    decreases 2 * diff + 2 - Rank(delta)
  {
    if Abs(delta) < diff + 1 {
      var d := NextDelta(level, delta);
      NextRank(level, delta);
      if level + d >= 0 {
        WalkVisits(level, diff, d, e);
      }
    }
  }

  /** No offset is visited twice, and the distance from the searcher's level never shrinks. */
  lemma {:induction false} WalkOrder(level: nat, diff: nat, delta: int, i: nat, j: nat)
    requires level <= MAX_LEVEL && 0 <= level + delta <= MAX_LEVEL
    requires i < j < |Walk(level, diff, delta)|
    ensures var w := Walk(level, diff, delta);
            Rank(w[i]) < Rank(w[j]) && w[i] != w[j] && Abs(w[i]) <= Abs(w[j])
    decreases 2 * diff + 2 - Rank(delta)
  {
    var d := NextDelta(level, delta);
    NextRank(level, delta);
    var w := Walk(level, diff, delta);
    var rest := Walk(level, diff, d);
    assert w[j] == rest[j - 1];
    if i > 0 {
      WalkOrder(level, diff, d, i - 1, j - 1);
    } else {
      assert rest[j - 1] in rest;
      WalkVisits(level, diff, d, w[j]);
    }
  }

  /**
   The loop guards against levels above MAX_LEVEL, one too many for lists numbered below it: with an unshrunk
   window every list index is in range exactly when the window itself ends below MAX_LEVEL.
   */
  lemma WalkInRange(level: nat, diff: nat)
    requires level <= MAX_LEVEL
    ensures (forall e :: e in Walk(level, diff, 0) ==> 0 <= level + e < MAX_LEVEL) <==> level + diff < MAX_LEVEL
  {
    forall e ensures e in Walk(level, diff, 0) <==> Abs(e) <= diff && 0 <= level + e <= MAX_LEVEL {
      WalkVisits(level, diff, 0, e);
    }
    assert level + diff >= MAX_LEVEL ==> MAX_LEVEL - level in Walk(level, diff, 0);
  }

  /** With the window in range, the walk visits every level of the window once. */
  lemma WalkCoversWindow(level: nat, diff: nat, visited: nat)
    requires level + diff < MAX_LEVEL
    ensures visited - level in Walk(level, diff, 0) <==>
            (if level < diff then 0 else level - diff) <= visited <= level + diff
  {
    WalkVisits(level, diff, 0, visited - level);
  }
}
