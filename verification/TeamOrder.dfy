/**
 Sharing sorted players out over teams. Slot p of a block of teams-many slots belongs to team p; each further
 round permutes one block in place, by cycles that depend on the order of the teams' level totals.
 */
module TeamOrder {

  // ---------------------------------------------------------------- rotations

  function Swap<T>(s: seq<T>, i: nat, j: nat): (r: seq<T>)
    requires i < |s| && j < |s|
    ensures |r| == |s|
  {
    s[i := s[j]][j := s[i]]
  }

  ghost predicate IsCycle(cycle: seq<nat>, base: nat, length: nat) {
    && (forall i :: 0 <= i < |cycle| ==> base + cycle[i] < length)
    && (forall i, j :: 0 <= i < j < |cycle| ==> cycle[i] != cycle[j])
  }

  /** Each place of the cycle takes what the next one holds; the last takes what the first held. */
  function Rotated<T>(s: seq<T>, base: nat, cycle: seq<nat>): (r: seq<T>)
    requires forall i :: 0 <= i < |cycle| ==> base + cycle[i] < |s|
    ensures |r| == |s|
    decreases |cycle|
  {
    if |cycle| < 2 then s else Rotated(Swap(s, base + cycle[0], base + cycle[1]), base, cycle[1..])
  }

  lemma SwapPermutes<T>(s: seq<T>, i: nat, j: nat)
    requires i < |s| && j < |s|
    ensures multiset(Swap(s, i, j)) == multiset(s)
  {
  }

  lemma {:induction false} RotatedPermutes<T>(s: seq<T>, base: nat, cycle: seq<nat>)
    requires forall i :: 0 <= i < |cycle| ==> base + cycle[i] < |s|
    ensures multiset(Rotated(s, base, cycle)) == multiset(s)
    ensures forall k :: 0 <= k < |s| && k < base ==> Rotated(s, base, cycle)[k] == s[k]
    decreases |cycle|
  {
    if |cycle| >= 2 {
      SwapPermutes(s, base + cycle[0], base + cycle[1]);
      RotatedPermutes(Swap(s, base + cycle[0], base + cycle[1]), base, cycle[1..]);
    }
  }

  /** The chain of assignments through one temporary. */
  method RotateInPlace<T>(a: array<T>, base: nat, cycle: seq<nat>)
    requires IsCycle(cycle, base, a.Length)
    modifies a
    ensures a[..] == Rotated(old(a[..]), base, cycle)
  {
    if |cycle| < 2 { return; }
    var temp := a[base + cycle[0]];
    var j := 0;
    assert a[..][base + cycle[0] := temp] == a[..] && cycle[0..] == cycle;
    while j + 1 < |cycle|
      invariant j < |cycle|
      invariant Rotated(a[..][base + cycle[j] := temp], base, cycle[j..]) == Rotated(old(a[..]), base, cycle)
    {
      RotateStep(a[..], base, cycle, j, temp);
      a[base + cycle[j]] := a[base + cycle[j + 1]];
      j := j + 1;
    }
    a[base + cycle[j]] := temp;
  }

  lemma RotateStep<T>(s: seq<T>, base: nat, cycle: seq<nat>, j: nat, temp: T)
    requires IsCycle(cycle, base, |s|) && j + 1 < |cycle|
    ensures Rotated(s[base + cycle[j] := temp], base, cycle[j..]) ==
            Rotated(s[base + cycle[j] := s[base + cycle[j + 1]]][base + cycle[j + 1] := temp], base, cycle[j + 1..])
  {
    assert cycle[j..][1..] == cycle[j + 1..];
    assert Swap(s[base + cycle[j] := temp], base + cycle[j], base + cycle[j + 1]) ==
           s[base + cycle[j] := s[base + cycle[j + 1]]][base + cycle[j + 1] := temp];
  }

  // ---------------------------------------------------------------- which cycles

  datatype Cycle = Two(a: nat, b: nat) | Three(a: nat, b: nat, c: nat) | Four(a: nat, b: nat, c: nat, d: nat)

  /** What a branch of the comparisons does: nothing, one cycle, or two. */
  datatype Moves = Still | Once(first: Cycle) | Twice(first: Cycle, second: Cycle)

  /** The comparisons of one round, for the totals t of the teams. No branch may apply; then nothing moves. */
  function Moves2(t: seq<int>): Moves
    requires |t| == 2
  {
    if t[0] >= t[1] then Once(Two(0, 1)) else Still
  }

  function Moves3(t: seq<int>): Moves
    requires |t| == 3
  {
    if t[0] >= t[1] >= t[2] then Once(Two(0, 2))
    else if t[0] >= t[2] >= t[1] then Once(Three(0, 2, 1))
    else if t[1] >= t[0] >= t[2] then Once(Three(0, 1, 2))
    else if t[1] >= t[2] >= t[0] then Once(Two(1, 2))
    else if t[2] >= t[0] >= t[1] then Once(Two(0, 1))
    else if t[2] >= t[1] >= t[0] then Still
    else Still
  }

  function Moves4(t: seq<int>): Moves
    requires |t| == 4
  {
    if t[0] >= t[1] >= t[2] >= t[3] then Twice(Two(0, 3), Two(1, 2))
    else if t[0] >= t[1] && t[1] >= t[2] && t[3] >= t[2] then Once(Four(0, 3, 1, 2))
    else if t[0] >= t[2] >= t[1] >= t[3] then Once(Two(0, 3))
    else if t[0] >= t[2] >= t[3] >= t[1] then Once(Three(0, 3, 1))
    else if t[0] >= t[3] >= t[1] >= t[2] then Once(Three(0, 3, 2))
    else if t[0] >= t[3] >= t[2] >= t[1] then Once(Four(0, 3, 2, 1))
    else if t[1] >= t[0] >= t[2] >= t[3] then Once(Four(0, 2, 1, 3))
    else if t[1] >= t[0] >= t[3] >= t[2] then Twice(Two(0, 2), Two(1, 3))
    else if t[1] >= t[2] >= t[0] >= t[3] then Once(Three(0, 3, 1))
    else if t[1] >= t[2] >= t[3] >= t[0] then Once(Three(1, 2, 3))
    else if t[1] >= t[3] >= t[0] >= t[2] then Once(Four(0, 1, 3, 2))
    else if t[1] >= t[3] >= t[2] >= t[0] then Once(Three(1, 3, 2))
    else if t[2] >= t[0] >= t[1] >= t[3] then Once(Three(0, 2, 3))
    else if t[2] >= t[0] >= t[3] >= t[1] then Once(Four(0, 2, 3, 1))
    else if t[2] >= t[1] >= t[0] >= t[3] then Once(Four(0, 1, 2, 3))
    else if t[2] >= t[1] >= t[3] >= t[0] then Once(Three(1, 2, 3))
    else if t[2] >= t[3] >= t[0] >= t[1] then Twice(Two(0, 1), Two(2, 3))
    else if t[2] >= t[3] >= t[1] >= t[0] then Once(Two(2, 3))
    else if t[3] >= t[0] >= t[1] >= t[2] then Once(Two(0, 2))
    else if t[3] >= t[0] >= t[2] >= t[1] then Once(Three(0, 2, 1))
    else if t[3] >= t[1] >= t[0] >= t[2] then Once(Three(0, 1, 2))
    else if t[3] >= t[1] >= t[2] >= t[0] then Once(Two(1, 2))
    else if t[3] >= t[2] >= t[0] >= t[1] then Once(Two(0, 1))
    else if t[3] >= t[2] >= t[1] >= t[0] then Still
    else Still
  }

  function MovesFor(t: seq<int>): Moves
    requires 2 <= |t| <= 4
  {
    if |t| == 2 then Moves2(t) else if |t| == 3 then Moves3(t) else Moves4(t)
  }

  function Places(c: Cycle): seq<nat> {
    match c
    case Two(a, b) => [a, b]
    case Three(a, b, c) => [a, b, c]
    case Four(a, b, c, d) => [a, b, c, d]
  }

  function Listed(m: Moves): seq<seq<nat>> {
    match m
    case Still => []
    case Once(c) => [Places(c)]
    case Twice(c, d) => [Places(c), Places(d)]
  }

  function Cycles(t: seq<int>): seq<seq<nat>>
    requires 2 <= |t| <= 4
  {
    Listed(MovesFor(t))
  }

  ghost predicate AllCycles(cs: seq<seq<nat>>, n: nat) {
    forall c :: 0 <= c < |cs| ==> IsCycle(cs[c], 0, n)
  }

  lemma CyclesFit(t: seq<int>)
    requires 2 <= |t| <= 4
    ensures AllCycles(Cycles(t), |t|)
  {
    MovesFit(t);
    hide MovesFor;
    match MovesFor(t)
    case Still =>
    case Once(c) => PlacesFit(c, |t|);
    case Twice(c, d) => PlacesFit(c, |t|); PlacesFit(d, |t|);
  }

  /** The places of a cycle are different places of a block of n. */
  predicate Fits(c: Cycle, n: nat) {
    match c
    case Two(a, b) => a < n && b < n && a != b
    case Three(a, b, c) => a < n && b < n && c < n && a != b && b != c && a != c
    case Four(a, b, c, d) =>
      && a < n && b < n && c < n && d < n
      && a != b && a != c && a != d && b != c && b != d && c != d
  }

  predicate AllFit(m: Moves, n: nat) {
    (m != Still ==> Fits(m.first, n)) && (m.Twice? ==> Fits(m.second, n))
  }

  lemma MovesFit(t: seq<int>)
    requires 2 <= |t| <= 4
    ensures AllFit(MovesFor(t), |t|)
  {
  }

  lemma PlacesFit(c: Cycle, n: nat)
    requires Fits(c, n)
    ensures IsCycle(Places(c), 0, n)
  {
  }

  /** All the cycles of one round, one after the other. */
  function Applied<T>(s: seq<T>, base: nat, cs: seq<seq<nat>>): (r: seq<T>)
    requires forall c, i :: 0 <= c < |cs| && 0 <= i < |cs[c]| ==> base + cs[c][i] < |s|
    ensures |r| == |s|
    decreases |cs|
  {
    if cs == [] then s else Applied(Rotated(s, base, cs[0]), base, cs[1..])
  }

  /** One round on one block. */
  function Draft<T>(t: seq<int>, block: seq<T>): seq<T>
    requires 2 <= |t| <= 4 && |block| == |t|
  {
    CyclesFit(t);
    Applied(block, 0, Cycles(t))
  }

  lemma {:induction false} AppliedPermutes<T>(s: seq<T>, base: nat, cs: seq<seq<nat>>)
    requires forall c, i :: 0 <= c < |cs| && 0 <= i < |cs[c]| ==> base + cs[c][i] < |s|
    ensures multiset(Applied(s, base, cs)) == multiset(s)
    decreases |cs|
  {
    if cs != [] {
      RotatedPermutes(s, base, cs[0]);
      AppliedPermutes(Rotated(s, base, cs[0]), base, cs[1..]);
    }
  }

  // ---------------------------------------------------------------- working on a block inside a longer sequence

  function Embedded<T>(s: seq<T>, base: nat, block: seq<T>): seq<T>
    requires base + |block| <= |s|
  {
    s[..base] + block + s[base + |block|..]
  }

  lemma SwapInBlock<T>(s: seq<T>, base: nat, block: seq<T>, i: nat, j: nat)
    requires base + |block| <= |s| && i < |block| && j < |block|
    ensures Swap(Embedded(s, base, block), base + i, base + j) == Embedded(s, base, Swap(block, i, j))
  {
  }

  lemma {:induction false} RotateInBlock<T>(s: seq<T>, base: nat, block: seq<T>, cycle: seq<nat>)
    requires base + |block| <= |s| && forall i :: 0 <= i < |cycle| ==> cycle[i] < |block|
    ensures Rotated(Embedded(s, base, block), base, cycle) == Embedded(s, base, Rotated(block, 0, cycle))
    decreases |cycle|
  {
    hide Embedded, Swap;
    Lengths(s, base, block);
    if |cycle| >= 2 {
      SwapInBlock(s, base, block, cycle[0], cycle[1]);
      RotateInBlock(s, base, Swap(block, cycle[0], cycle[1]), cycle[1..]);
    }
  }

  lemma Lengths<T>(s: seq<T>, base: nat, block: seq<T>)
    requires base + |block| <= |s|
    ensures |Embedded(s, base, block)| == |s|
  {
  }

  lemma {:induction false} ApplyInBlock<T>(s: seq<T>, base: nat, block: seq<T>, cs: seq<seq<nat>>)
    requires base + |block| <= |s| && AllCycles(cs, |block|)
    ensures |Embedded(s, base, block)| == |s|
    ensures Applied(Embedded(s, base, block), base, cs) == Embedded(s, base, Applied(block, 0, cs))
    decreases |cs|
  {
    hide Embedded, Rotated;
    Lengths(s, base, block);
    if cs != [] {
      RotateInBlock(s, base, block, cs[0]);
      ApplyInBlock(s, base, Rotated(block, 0, cs[0]), cs[1..]);
    }
  }

  // ---------------------------------------------------------------- what a round achieves

  /** What place k holds after a rotation. */
  lemma {:induction false} RotatedAt<T>(s: seq<T>, cycle: seq<nat>, k: nat)
    requires IsCycle(cycle, 0, |s|) && k < |s|
    ensures k !in cycle ==> Rotated(s, 0, cycle)[k] == s[k]
    ensures forall i :: 0 <= i < |cycle| && cycle[i] == k ==>
              Rotated(s, 0, cycle)[k] == s[cycle[if i + 1 < |cycle| then i + 1 else 0]]
    decreases |cycle|
  {
    if |cycle| >= 2 {
      RotatedAt(Swap(s, cycle[0], cycle[1]), cycle[1..], k);
    }
  }

  /** The place that place k takes from under a cycle, and under all that a branch does. */
  function Takes(c: Cycle, k: nat): nat {
    match c
    case Two(a, b) => if k == a then b else if k == b then a else k
    case Three(a, b, c) => if k == a then b else if k == b then c else if k == c then a else k
    case Four(a, b, c, d) =>
      if k == a then b else if k == b then c else if k == c then d else if k == d then a else k
  }

  function From(m: Moves, k: nat): nat {
    match m
    case Still => k
    case Once(c) => Takes(c, k)
    case Twice(c, d) => Takes(c, Takes(d, k))
  }

  lemma RotatedTakes<T>(s: seq<T>, c: Cycle, k: nat)
    requires Fits(c, |s|) && k < |s|
    ensures IsCycle(Places(c), 0, |s|) && Takes(c, k) < |s|
    ensures Rotated(s, 0, Places(c))[k] == s[Takes(c, k)]
  {
    PlacesFit(c, |s|);
    RotatedAt(s, Places(c), k);
    hide Rotated, IsCycle;
    var p := Places(c);
    match c
    case Two(a, b) => assert p[0] == a && p[1] == b;
    case Three(a, b, c) => assert p[0] == a && p[1] == b && p[2] == c;
    case Four(a, b, c, d) => assert p[0] == a && p[1] == b && p[2] == c && p[3] == d;
  }

  lemma AppliedTakes<T>(s: seq<T>, m: Moves, k: nat)
    requires AllFit(m, |s|) && AllCycles(Listed(m), |s|) && k < |s|
    ensures From(m, k) < |s| && Applied(s, 0, Listed(m))[k] == s[From(m, k)]
  {
    hide Rotated, Takes, Places, Fits;
    match m
    case Still =>
    case Once(c) =>
      RotatedTakes(s, c, k);
      OneCycle(s, Places(c));
    case Twice(c, d) =>
      PlacesFit(c, |s|);
      RotatedTakes(Rotated(s, 0, Places(c)), d, k);
      RotatedTakes(s, c, Takes(d, k));
      TwoCycles(s, Places(c), Places(d));
  }

  lemma OneCycle<T>(s: seq<T>, c: seq<nat>)
    requires IsCycle(c, 0, |s|)
    ensures Applied(s, 0, [c]) == Rotated(s, 0, c)
  {
    hide Rotated;
    assert [c][1..] == [];
  }

  lemma TwoCycles<T>(s: seq<T>, c: seq<nat>, d: seq<nat>)
    requires IsCycle(c, 0, |s|) && IsCycle(d, 0, |s|)
    ensures Applied(s, 0, [c, d]) == Rotated(Rotated(s, 0, c), 0, d)
  {
    hide Rotated;
    OneCycle(Rotated(s, 0, c), d);
    assert [c, d][1..] == [d];
  }

  /** Each place of a drafted block holds what its branch takes there. */
  lemma DraftTakes<T>(t: seq<int>, block: seq<T>)
    requires 2 <= |t| <= 4 && |block| == |t|
    ensures |Draft(t, block)| == |t|
    ensures forall k: nat :: k < |t| ==>
              From(MovesFor(t), k) < |t| && Draft(t, block)[k] == block[From(MovesFor(t), k)]
  {
    CyclesFit(t);
    MovesFit(t);
    hide MovesFor, From, Listed, Applied;
    forall k: nat | k < |t|
      ensures From(MovesFor(t), k) < |t| && Draft(t, block)[k] == block[From(MovesFor(t), k)]
    {
      AppliedTakes(block, MovesFor(t), k);
    }
  }

  /** The drafted places, by their rank in the sorted block: 0 is the strongest player. */
  function Ranks(n: nat): seq<nat> {
    seq(n, i => i)
  }

  /** A team of larger compared value never gets a stronger player than a team of smaller value does. */
  ghost predicate Fair(t: seq<int>, drafted: seq<nat>)
    requires |drafted| == |t|
  {
    forall a, b :: 0 <= a < |t| && 0 <= b < |t| && t[a] > t[b] ==> drafted[a] > drafted[b]
  }

  lemma DraftedRanks(t: seq<int>)
    requires 2 <= |t| <= 4
    ensures var d := Draft(t, Ranks(|t|)); |d| == |t| && forall k: nat :: k < |t| ==> d[k] == From(MovesFor(t), k)
  {
    DraftTakes(t, Ranks(|t|));
    hide Draft, MovesFor, From;
  }

  /**
   With two or three teams a round is fair by the values it compares, whatever these are. From the second round on
   they are not the sums of the teams' levels: see SecondRoundOfTwo.
   */
  lemma SmallDraftsFair(t: seq<int>)
    requires 2 <= |t| <= 3
    ensures Fair(t, Draft(t, Ranks(|t|)))
  {
    DraftedRanks(t);
    hide Draft;
  }

  /** Every place is settled by the values, and by the numbers of the teams where these are equal. */
  ghost predicate Settled(t: seq<int>, drafted: seq<nat>)
    requires |drafted| == |t|
  {
    forall a, b :: 0 <= a < |t| && 0 <= b < |t| && (t[a] > t[b] || (t[a] == t[b] && a < b)) ==> drafted[a] > drafted[b]
  }

  lemma SmallDraftsSettled(t: seq<int>)
    requires 2 <= |t| <= 3
    ensures Settled(t, Draft(t, Ranks(|t|)))
  {
    DraftedRanks(t);
    hide Draft;
  }

  /** What a round of four teams does with any four values; in three families of orders it ends differently. */
  lemma FourTeamsSettled(t: seq<int>)
    requires |t| == 4
    ensures var d := Draft(t, Ranks(4));
            if t[0] >= t[1] >= t[2] && t[3] > t[1] then d == [3, 2, 0, 1]
            else if t[1] >= t[2] > t[0] >= t[3] then d == [3, 0, 2, 1]
            else if t[1] >= t[2] >= t[3] >= t[0] && t[2] > t[0] then d == [0, 2, 3, 1]
            else Settled(t, d)
  {
    DraftedRanks(t);
    if t[0] >= t[1] >= t[2] && t[3] > t[1] {
    } else if t[1] >= t[2] > t[0] >= t[3] {
    } else if t[1] >= t[2] >= t[3] >= t[0] && t[2] > t[0] {
    } else {
      SettledMoves(t);
    }
    hide Draft, Ranks;
  }

  ghost predicate Ordinary(t: seq<int>)
    requires |t| == 4
  {
    && !(t[0] >= t[1] >= t[2] && t[3] > t[1])
    && !(t[1] >= t[2] > t[0] >= t[3])
    && !(t[1] >= t[2] >= t[3] >= t[0] && t[2] > t[0])
  }

  lemma SettledMoves(t: seq<int>)
    requires |t| == 4 && Ordinary(t)
    ensures forall a: nat, b: nat :: a < 4 && b < 4 && (t[a] > t[b] || (t[a] == t[b] && a < b)) ==>
              From(MovesFor(t), a) > From(MovesFor(t), b)
  {
    forall a: nat, b: nat | a < 4 && b < 4 && (t[a] > t[b] || (t[a] == t[b] && a < b))
      ensures From(MovesFor(t), a) > From(MovesFor(t), b)
    {
      SettledPair(t, a, b);
    }
  }

  lemma SettledPair(t: seq<int>, a: nat, b: nat)
    requires |t| == 4 && Ordinary(t) && a < 4 && b < 4 && (t[a] > t[b] || (t[a] == t[b] && a < b))
    ensures From(MovesFor(t), a) > From(MovesFor(t), b)
  {
  }

  /** The orders of four compared values that the comparisons share out fairly. */
  predicate FairOrder(t: seq<int>)
    requires |t| == 4
  {
    && !(t[0] >= t[1] >= t[2] && t[3] > t[1])
    && !(t[1] >= t[2] > t[0] >= t[3])
    && !(t[1] > t[2] >= t[3] >= t[0] && t[2] > t[0])
  }

  /** With four teams a round is fair by the values it compares exactly for those orders. */
  lemma FourTeamDrafts(t: seq<int>)
    requires |t| == 4
    ensures Fair(t, Draft(t, Ranks(4))) <==> FairOrder(t)
  {
    DraftedRanks(t);
    if FairOrder(t) { FairMoves(t); } else { UnfairMoves(t); }
    hide Draft, Ranks, MovesFor, From, FairOrder;
  }

  lemma UnfairMoves(t: seq<int>)
    requires |t| == 4 && !FairOrder(t)
    ensures exists a: nat, b: nat ::
              a < 4 && b < 4 && t[a] > t[b] && From(MovesFor(t), a) <= From(MovesFor(t), b)
  {
    if t[0] >= t[1] >= t[2] && t[3] > t[1] {
      assert t[3] > t[1] && From(MovesFor(t), 3) <= From(MovesFor(t), 1);
    } else if t[1] >= t[2] > t[0] >= t[3] {
      assert t[2] > t[0] && From(MovesFor(t), 2) <= From(MovesFor(t), 0);
    } else {
      assert t[1] > t[2] && From(MovesFor(t), 1) <= From(MovesFor(t), 2);
    }
  }

  lemma FairMoves(t: seq<int>)
    requires |t| == 4 && FairOrder(t)
    ensures forall a: nat, b: nat ::
              a < 4 && b < 4 && t[a] > t[b] ==> From(MovesFor(t), a) > From(MovesFor(t), b)
  {
    forall a: nat, b: nat | a < 4 && b < 4 && t[a] > t[b]
      ensures From(MovesFor(t), a) > From(MovesFor(t), b)
    {
      FairPair(t, a, b);
    }
  }

  lemma FairPair(t: seq<int>, a: nat, b: nat)
    requires |t| == 4 && FairOrder(t) && a < 4 && b < 4 && t[a] > t[b]
    ensures From(MovesFor(t), a) > From(MovesFor(t), b)
  {
  }

  /** Totals that already fall from team to team turn the block around. */
  lemma SortedDraft<T>(t: seq<int>, block: seq<T>)
    requires 2 <= |t| <= 4 && |block| == |t| && forall a, b :: 0 <= a < b < |t| ==> t[a] >= t[b]
    ensures |Draft(t, block)| == |t|
    ensures forall k :: 0 <= k < |t| ==> Draft(t, block)[k] == block[|t| - 1 - k]
  {
    DraftTakes(t, block);
    hide Draft;
  }

  // ---------------------------------------------------------------- the reordering pass

  const MAX_TEAMS: nat := 4

  /** Block b of s, for teams of the given number. */
  function Block<T>(s: seq<T>, teams: nat, b: nat): seq<T>
    requires (b + 1) * teams <= |s|
  {
    BlockFits(teams, b);
    s[b * teams..(b + 1) * teams]
  }

  lemma BlockFits(teams: nat, b: nat)
    ensures 0 <= b * teams <= (b + 1) * teams
    ensures (b + 1) * teams == b * teams + teams
  {
  }

  lemma BlockOrder(teams: nat, b: nat, c: nat)
    requires b < c
    ensures (b + 1) * teams <= c * teams
  {
    if b + 1 < c { BlockOrder(teams, b, c - 1); BlockFits(teams, c - 1); }
  }

  /** One round, in place. */
  method DraftInPlace<T>(a: array<T>, base: nat, t: seq<int>)
    requires 2 <= |t| <= 4 && base + |t| <= a.Length
    modifies a
    ensures a[..] == Embedded(old(a[..]), base, Draft(t, old(a[base..base + |t|])))
  {
    hide Rotated, Cycles;
    CyclesFit(t);
    ghost var s, block := a[..], a[base..base + |t|];
    assert Embedded(s, base, block) == s;
    ApplyInBlock(s, base, block, Cycles(t));
    hide Embedded;
    var cs := Cycles(t);
    var c := 0;
    assert cs[0..] == cs;
    while c < |cs|
      invariant c <= |cs|
      invariant Applied(a[..], base, cs[c..]) == Applied(s, base, cs)
    {
      assert cs[c..][0] == cs[c] && cs[c..][1..] == cs[c + 1..];
      Shifted(cs[c], base, |t|, a.Length);
      RotateInPlace(a, base, cs[c]);
      c := c + 1;
    }
  }

  lemma Shifted(c: seq<nat>, base: nat, n: nat, length: nat)
    requires IsCycle(c, 0, n) && base + n <= length
    ensures IsCycle(c, base, length)
  {
  }

  lemma {:induction false} DraftPermutes<T>(t: seq<int>, block: seq<T>)
    requires 2 <= |t| <= 4 && |block| == |t|
    ensures |Draft(t, block)| == |block| && multiset(Draft(t, block)) == multiset(block)
  {
    CyclesFit(t);
    hide Cycles;
    AppliedPermutes(block, 0, Cycles(t));
  }

  /** What the reordering pass reads: player levels, and stray memory where an index runs past its array. */
  datatype Reads<!T> = Reads(levelOf: T -> int, strayLevel: (nat, nat) -> int, strayTotal: (nat, nat) -> int)

  /** The level added to team j in round i; the index multiplies the round by the team size. */
  function LevelRead<T>(s: seq<T>, size: nat, i: nat, j: nat, env: Reads<T>): int {
    SlotNat(i, size);
    var slot: nat := i * size + j;
    if slot < |s| then env.levelOf(s[slot]) else env.strayLevel(i, j)
  }

  lemma SlotNat(i: nat, size: nat)
    ensures i * size >= 0
  {
  }

  /** The running totals after round i, a fixed row of four of which teams-many are in use. */
  function AddLevels<T>(s: seq<T>, size: nat, teams: nat, i: nat, totals: seq<int>, env: Reads<T>): (r: seq<int>)
    requires |totals| == MAX_TEAMS
    ensures |r| == MAX_TEAMS
  {
    seq(MAX_TEAMS, j requires 0 <= j < MAX_TEAMS =>
      if j < teams then totals[j] + LevelRead(s, size, i, j, env) else totals[j])
  }

  /** The totals that round i compares; from the second round on the index leaves the teams in use. */
  function Compared<T>(totals: seq<int>, teams: nat, i: nat, env: Reads<T>): seq<int>
    requires |totals| == MAX_TEAMS
  {
    SlotNat(i, teams);
    seq(teams, k requires 0 <= k < teams =>
      if i * teams + k < MAX_TEAMS then totals[i * teams + k] else env.strayTotal(i, k))
  }

  /** Round i: block i + 1 is drafted by the running totals. */
  function Round<T>(s: seq<T>, size: nat, teams: nat, i: nat, totals: seq<int>, env: Reads<T>): (r: seq<T>)
    requires 2 <= teams <= MAX_TEAMS && |totals| == MAX_TEAMS && size * teams <= |s| && i + 1 < size
    ensures |r| == |s|
  {
    BlockInside(teams, i + 1, size, |s|);
    var t := Compared(totals, teams, i, env);
    var block := Block(s, teams, i + 1);
    DraftPermutes(t, block);
    Embedded(s, (i + 1) * teams, Draft(t, block))
  }

  /** Rounds i, i + 1, ... of a queue with the given team size. */
  function Rounds<T>(s: seq<T>, size: nat, teams: nat, i: nat, totals: seq<int>, env: Reads<T>): (r: seq<T>)
    requires 2 <= teams <= MAX_TEAMS && |totals| == MAX_TEAMS && size * teams <= |s|
    ensures |r| == |s|
    decreases size - i
  {
    if i + 1 >= size then s
    else
      var totals' := AddLevels(s, size, teams, i, totals, env);
      Rounds(Round(s, size, teams, i, totals', env), size, teams, i + 1, totals', env)
  }

  lemma BlockInside(teams: nat, b: nat, size: nat, length: nat)
    requires b < size && size * teams <= length
    ensures 0 <= b * teams && (b + 1) * teams == b * teams + teams <= length
  {
    BlockFits(teams, b);
    BlockOrder(teams, b, size);
  }

  /** A round permutes its own block, and nothing else moves. */
  lemma RoundPermutesBlock<T>(s: seq<T>, size: nat, teams: nat, i: nat, totals: seq<int>, env: Reads<T>, b: nat)
    requires 2 <= teams <= MAX_TEAMS && |totals| == MAX_TEAMS && size * teams <= |s| && i + 1 < size && b < size
    ensures (b + 1) * teams <= |s|
    ensures var r := Round(s, size, teams, i, totals, env);
            && multiset(Block(r, teams, b)) == multiset(Block(s, teams, b))
            && (b != i + 1 ==> Block(r, teams, b) == Block(s, teams, b))
            && r[size * teams..] == s[size * teams..]
  {
    BlockInside(teams, b, size, |s|);
    BlockInside(teams, i + 1, size, |s|);
    var t := Compared(totals, teams, i, env);
    var block := Block(s, teams, i + 1);
    DraftPermutes(t, block);
    OtherBlock(s, teams, i + 1, Draft(t, block), b);
    BlockEnd(teams, i + 1, size);
    EmbeddedTail(s, (i + 1) * teams, Draft(t, block), size * teams);
  }

  /** Every block but the first is permuted, and nothing else moves. */
  lemma {:induction false} RoundsPermuteBlocks<T>(s: seq<T>, size: nat, teams: nat, i: nat, totals: seq<int>,
      env: Reads<T>, b: nat)
    requires 2 <= teams <= MAX_TEAMS && |totals| == MAX_TEAMS && size * teams <= |s| && b < size
    ensures (b + 1) * teams <= |s|
    ensures var r := Rounds(s, size, teams, i, totals, env);
            && multiset(Block(r, teams, b)) == multiset(Block(s, teams, b))
            && (b <= i ==> Block(r, teams, b) == Block(s, teams, b))
            && r[size * teams..] == s[size * teams..]
    decreases size - i
  {
    hide Round, Block, AddLevels;
    BlockInside(teams, b, size, |s|);
    if i + 1 < size {
      var totals' := AddLevels(s, size, teams, i, totals, env);
      RoundPermutesBlock(s, size, teams, i, totals', env, b);
      RoundsPermuteBlocks(Round(s, size, teams, i, totals', env), size, teams, i + 1, totals', env, b);
    }
  }

  /** What one round makes of its block is final. */
  lemma DraftedBlock<T>(s: seq<T>, size: nat, teams: nat, i: nat, totals: seq<int>, env: Reads<T>)
    requires 2 <= teams <= MAX_TEAMS && |totals| == MAX_TEAMS && size * teams <= |s| && i + 1 < size
    ensures (i + 1 + 1) * teams <= |s|
    ensures Block(Rounds(s, size, teams, i, totals, env), teams, i + 1) ==
            Draft(Compared(AddLevels(s, size, teams, i, totals, env), teams, i, env), Block(s, teams, i + 1))
  {
    BlockInside(teams, i + 1, size, |s|);
    var totals' := AddLevels(s, size, teams, i, totals, env);
    var t, block := Compared(totals', teams, i, env), Block(s, teams, i + 1);
    DraftPermutes(t, block);
    OtherBlock(s, teams, i + 1, Draft(t, block), i + 1);
    RoundsPermuteBlocks(Round(s, size, teams, i, totals', env), size, teams, i + 1, totals', env, i + 1);
    hide Draft, Block, AddLevels, Compared, Embedded;
  }

  lemma BlockAt<T>(s: seq<T>, teams: nat, b: nat, k: nat)
    requires (b + 1) * teams <= |s| && k < teams
    ensures 0 <= b * teams && b * teams + k < |s| && Block(s, teams, b)[k] == s[b * teams + k]
  {
    BlockFits(teams, b);
  }

  /** A queue sorted by level: the second place of every team goes to the teams in reverse order. */
  lemma SnakeDraft<T>(s: seq<T>, size: nat, teams: nat, env: Reads<T>)
    requires 2 <= teams <= MAX_TEAMS && size * teams <= |s| && size >= 2
    requires forall a, b :: 0 <= a < b < teams ==> env.levelOf(s[a]) >= env.levelOf(s[b])
    ensures 2 * teams <= size * teams
    ensures var r := Rounds(s, size, teams, 0, [0, 0, 0, 0], env);
            && (forall k :: 0 <= k < teams ==> r[k] == s[k])
            && (forall k :: teams <= k < 2 * teams ==> r[k] == s[3 * teams - 1 - k])
  {
    BlockEnd(teams, 1, size);
    FirstDraft(s, size, teams, env);
    hide Rounds, Block;
    Turned(s, Rounds(s, size, teams, 0, [0, 0, 0, 0], env), teams);
  }

  lemma Turned<T>(s: seq<T>, r: seq<T>, teams: nat)
    requires |r| == |s| && (0 + 1) * teams <= |s| && (1 + 1) * teams <= |s|
    requires Block(r, teams, 0) == Block(s, teams, 0)
    requires |Block(r, teams, 1)| == |Block(s, teams, 1)| == teams
    requires forall k :: 0 <= k < teams ==> Block(r, teams, 1)[k] == Block(s, teams, 1)[teams - 1 - k]
    ensures forall k :: 0 <= k < teams ==> r[k] == s[k]
    ensures forall k :: teams <= k < 2 * teams ==> r[k] == s[3 * teams - 1 - k]
  {
    hide Block;
    forall k | 0 <= k < teams ensures r[k] == s[k] {
      BlockAt(r, teams, 0, k);
      BlockAt(s, teams, 0, k);
    }
    forall k | teams <= k < 2 * teams ensures r[k] == s[3 * teams - 1 - k] {
      BlockAt(r, teams, 1, k - teams);
      BlockAt(s, teams, 1, 2 * teams - 1 - k);
    }
  }

  lemma FirstDraft<T>(s: seq<T>, size: nat, teams: nat, env: Reads<T>)
    requires 2 <= teams <= MAX_TEAMS && size * teams <= |s| && size >= 2
    requires forall a, b :: 0 <= a < b < teams ==> env.levelOf(s[a]) >= env.levelOf(s[b])
    ensures (0 + 1) * teams <= |s| && (1 + 1) * teams <= |s|
    ensures var r := Rounds(s, size, teams, 0, [0, 0, 0, 0], env);
            && Block(r, teams, 0) == Block(s, teams, 0)
            && |Block(r, teams, 1)| == |Block(s, teams, 1)| == teams
            && forall k :: 0 <= k < teams ==> Block(r, teams, 1)[k] == Block(s, teams, 1)[teams - 1 - k]
  {
    hide Rounds, Block, Draft, Compared, AddLevels, LevelRead, Ranks, SumSoFar;
    BlockInside(teams, 0, size, |s|);
    BlockInside(teams, 1, size, |s|);
    RoundsPermuteBlocks(s, size, teams, 0, [0, 0, 0, 0], env, 0);
    DraftedBlock(s, size, teams, 0, [0, 0, 0, 0], env);
    BlockLength(s, teams, 1);
    FirstTotals(s, size, teams, env);
    SortedDraft(Compared(AddLevels(s, size, teams, 0, [0, 0, 0, 0], env), teams, 0, env), Block(s, teams, 1));
  }

  lemma BlockLength<T>(s: seq<T>, teams: nat, b: nat)
    requires (b + 1) * teams <= |s|
    ensures |Block(s, teams, b)| == teams
  {
    BlockFits(teams, b);
  }

  lemma FirstTotals<T>(s: seq<T>, size: nat, teams: nat, env: Reads<T>)
    requires 2 <= teams <= MAX_TEAMS && teams <= |s|
    requires forall a, b :: 0 <= a < b < teams ==> env.levelOf(s[a]) >= env.levelOf(s[b])
    ensures var t := Compared(AddLevels(s, size, teams, 0, [0, 0, 0, 0], env), teams, 0, env);
            |t| == teams && forall a, b :: 0 <= a < b < teams ==> t[a] >= t[b]
  {
    var totals := AddLevels(s, size, teams, 0, [0, 0, 0, 0], env);
    var t := Compared(totals, teams, 0, env);
    forall k | 0 <= k < teams ensures t[k] == env.levelOf(s[k]) {
      assert totals[k] == LevelRead(s, size, 0, k, env);
    }
  }

  /** The values that a round behind the first compares: totals of teams that do not exist, then memory behind them. */
  function LaterCompared<T>(teams: nat, i: nat, env: Reads<T>): (r: seq<int>)
    ensures |r| == teams
  {
    SlotNat(i, teams);
    seq(teams, k requires 0 <= k < teams => if i * teams + k < MAX_TEAMS then 0 else env.strayTotal(i, k))
  }

  /** No level decides any round behind the first: block c is drafted by round c - 1. */
  lemma LaterDraft<T>(s: seq<T>, size: nat, teams: nat, c: nat, env: Reads<T>)
    requires 2 <= teams <= MAX_TEAMS && size * teams <= |s| && 2 <= c < size
    ensures 0 <= c * teams && c * teams + teams <= |s|
    ensures var r, m := Rounds(s, size, teams, 0, [0, 0, 0, 0], env), MovesFor(LaterCompared(teams, c - 1, env));
            forall k: nat :: k < teams ==> From(m, k) < teams && r[c * teams + k] == s[c * teams + From(m, k)]
  {
    hide Draft, Rounds, Block, MovesFor, From, LaterCompared;
    LaterBlock(s, size, teams, c, env);
    DraftTakes(LaterCompared(teams, c - 1, env), Block(s, teams, c));
    DraftedAt(s, Rounds(s, size, teams, 0, [0, 0, 0, 0], env), teams, c, MovesFor(LaterCompared(teams, c - 1, env)));
  }

  lemma DraftedAt<T>(s: seq<T>, r: seq<T>, teams: nat, b: nat, m: Moves)
    requires |r| == |s| && (b + 1) * teams <= |s| && |Block(r, teams, b)| == |Block(s, teams, b)| == teams
    requires forall k: nat :: k < teams ==>
               From(m, k) < teams && Block(r, teams, b)[k] == Block(s, teams, b)[From(m, k)]
    ensures 0 <= b * teams && b * teams + teams <= |s|
    ensures forall k: nat :: k < teams ==> From(m, k) < teams && r[b * teams + k] == s[b * teams + From(m, k)]
  {
    hide Block, From;
    BlockFits(teams, b);
    forall k: nat | k < teams ensures From(m, k) < teams && r[b * teams + k] == s[b * teams + From(m, k)] {
      BlockAt(r, teams, b, k);
      BlockAt(s, teams, b, From(m, k));
    }
  }

  /** Block c of s is drafted by the values t. */
  ghost predicate Drafts<T>(s: seq<T>, r: seq<T>, teams: nat, c: nat, t: seq<int>) {
    && |r| == |s| && (c + 1) * teams <= |s| && |t| == teams && 2 <= teams <= MAX_TEAMS
    && |Block(s, teams, c)| == teams && Block(r, teams, c) == Draft(t, Block(s, teams, c))
  }

  lemma ThisRound<T>(s: seq<T>, size: nat, teams: nat, i: nat, totals: seq<int>, env: Reads<T>)
    requires 2 <= teams <= MAX_TEAMS && |totals| == MAX_TEAMS && size * teams <= |s| && 1 <= i && i + 1 < size
    requires forall j :: teams <= j < MAX_TEAMS ==> totals[j] == 0
    ensures Drafts(s, Rounds(s, size, teams, i, totals, env), teams, i + 1, LaterCompared(teams, i, env))
  {
    LaterTotals(s, size, teams, i, totals, env);
    hide Rounds, Block, Draft, Compared, AddLevels, LaterCompared;
    BlockInside(teams, i + 1, size, |s|);
    BlockLength(s, teams, i + 1);
    DraftedBlock(s, size, teams, i, totals, env);
  }

  lemma NotThisRound<T>(s: seq<T>, size: nat, teams: nat, i: nat, totals: seq<int>, env: Reads<T>, c: nat,
      r: seq<T>, t: seq<int>)
    requires 2 <= teams <= MAX_TEAMS && |totals| == MAX_TEAMS && size * teams <= |s| && i + 1 < size
    requires c < size && c != i + 1 && Drafts(Round(s, size, teams, i, totals, env), r, teams, c, t)
    ensures Drafts(s, r, teams, c, t)
  {
    hide Block, Draft, Round;
    RoundPermutesBlock(s, size, teams, i, totals, env, c);
  }

  lemma {:induction false} LaterRounds<T>(s: seq<T>, size: nat, teams: nat, i: nat, totals: seq<int>, env: Reads<T>,
      c: nat)
    requires 2 <= teams <= MAX_TEAMS && |totals| == MAX_TEAMS && size * teams <= |s| && 1 <= i < c < size
    requires forall j :: teams <= j < MAX_TEAMS ==> totals[j] == 0
    ensures Drafts(s, Rounds(s, size, teams, i, totals, env), teams, c, LaterCompared(teams, c - 1, env))
    decreases c - i
  {
    hide Rounds, Round, Drafts, AddLevels, Compared, LaterCompared;
    if i + 1 == c {
      ThisRound(s, size, teams, i, totals, env);
    } else {
      var totals' := AddLevels(s, size, teams, i, totals, env);
      LaterTotals(s, size, teams, i, totals, env);
      NextRounds(s, size, teams, i, totals, env);
      var s' := Round(s, size, teams, i, totals', env);
      LaterRounds(s', size, teams, i + 1, totals', env, c);
      NotThisRound(s, size, teams, i, totals', env, c, Rounds(s', size, teams, i + 1, totals', env),
                   LaterCompared(teams, c - 1, env));
    }
  }

  lemma LaterBlock<T>(s: seq<T>, size: nat, teams: nat, c: nat, env: Reads<T>)
    requires 2 <= teams <= MAX_TEAMS && size * teams <= |s| && 2 <= c < size
    ensures Drafts(s, Rounds(s, size, teams, 0, [0, 0, 0, 0], env), teams, c, LaterCompared(teams, c - 1, env))
  {
    var first := AddLevels(s, size, teams, 0, [0, 0, 0, 0], env);
    assert forall j :: teams <= j < MAX_TEAMS ==> first[j] == 0;
    hide Rounds, Round, Drafts, AddLevels, LaterCompared;
    NextRounds(s, size, teams, 0, [0, 0, 0, 0], env);
    var s' := Round(s, size, teams, 0, first, env);
    LaterRounds(s', size, teams, 1, first, env, c);
    NotThisRound(s, size, teams, 0, first, env, c, Rounds(s', size, teams, 1, first, env),
                 LaterCompared(teams, c - 1, env));
  }

  lemma LaterTotals<T>(s: seq<T>, size: nat, teams: nat, i: nat, totals: seq<int>, env: Reads<T>)
    requires 2 <= teams <= MAX_TEAMS && |totals| == MAX_TEAMS && i >= 1
    requires forall j :: teams <= j < MAX_TEAMS ==> totals[j] == 0
    ensures var totals' := AddLevels(s, size, teams, i, totals, env);
            && Compared(totals', teams, i, env) == LaterCompared(teams, i, env)
            && forall j :: teams <= j < MAX_TEAMS ==> totals'[j] == 0
  {
    hide LevelRead;
    BlockFits(teams, i - 1);
    assert i * teams >= teams;
  }

  lemma NextRounds<T>(s: seq<T>, size: nat, teams: nat, i: nat, totals: seq<int>, env: Reads<T>)
    requires 2 <= teams <= MAX_TEAMS && |totals| == MAX_TEAMS && size * teams <= |s| && i + 1 < size
    ensures var totals' := AddLevels(s, size, teams, i, totals, env);
            Rounds(s, size, teams, i, totals, env) ==
            Rounds(Round(s, size, teams, i, totals', env), size, teams, i + 1, totals', env)
  {
    hide Round, AddLevels;
  }

  /** The levels that the first so many rounds gave to team p. */
  function SumSoFar<T>(r: seq<T>, teams: nat, p: nat, rounds: nat, env: Reads<T>): int
    requires rounds * teams <= |r| && p < teams
  {
    if rounds == 0 then 0
    else
      BlockFits(teams, rounds - 1);
      SumSoFar(r, teams, p, rounds - 1, env) + env.levelOf(r[(rounds - 1) * teams + p])
  }

  /** In round b no team that has collected more levels gets a stronger player than one that has collected less. */
  ghost predicate RoundFair<T>(r: seq<T>, teams: nat, b: nat, env: Reads<T>)
    requires (b + 1) * teams <= |r|
  {
    BlockFits(teams, b);
    forall p, q :: 0 <= p < teams && 0 <= q < teams
                   && SumSoFar(r, teams, p, b, env) > SumSoFar(r, teams, q, b, env)
                   ==> env.levelOf(r[b * teams + p]) <= env.levelOf(r[b * teams + q])
  }

  /** On a sorted game the first reordering round is fair. */
  lemma FirstRoundFair<T>(s: seq<T>, size: nat, teams: nat, env: Reads<T>)
    requires 2 <= teams <= MAX_TEAMS && size * teams <= |s| && size >= 2
    requires SortedRounds(s, teams, 2, env)
    ensures (1 + 1) * teams <= |s| && RoundFair(Rounds(s, size, teams, 0, [0, 0, 0, 0], env), teams, 1, env)
  {
    BlockInside(teams, 1, size, |s|);
    SnakeDraft(s, size, teams, env) by { hide Rounds; }
    hide Rounds, RoundFair, SumSoFar;
    FirstPairs(s, Rounds(s, size, teams, 0, [0, 0, 0, 0], env), teams, env);
  }

  lemma FirstPairs<T>(s: seq<T>, r: seq<T>, teams: nat, env: Reads<T>)
    requires |r| == |s| && 2 * teams <= |s| && SortedRounds(s, teams, 2, env)
    requires forall k :: 0 <= k < teams ==> r[k] == s[k]
    requires forall k :: teams <= k < 2 * teams ==> r[k] == s[3 * teams - 1 - k]
    ensures RoundFair(r, teams, 1, env)
  {
    forall p, q | 0 <= p < teams && 0 <= q < teams
                  && SumSoFar(r, teams, p, 1, env) > SumSoFar(r, teams, q, 1, env)
      ensures env.levelOf(r[1 * teams + p]) <= env.levelOf(r[1 * teams + q])
    {
      FirstPair(s, r, teams, p, q, env);
    }
  }

  lemma FirstPair<T>(s: seq<T>, r: seq<T>, teams: nat, p: nat, q: nat, env: Reads<T>)
    requires p < teams && q < teams && |r| == |s| && 2 * teams <= |s| && SortedRounds(s, teams, 2, env)
    requires r[p] == s[p] && r[q] == s[q]
    requires r[teams + p] == s[2 * teams - 1 - p] && r[teams + q] == s[2 * teams - 1 - q]
    requires SumSoFar(r, teams, p, 1, env) > SumSoFar(r, teams, q, 1, env)
    ensures env.levelOf(r[teams + p]) <= env.levelOf(r[teams + q])
  {
    OneRoundSum(r, teams, p, env);
    OneRoundSum(r, teams, q, env);
    hide SumSoFar;
    assert p < q;
  }

  /** The levels fall through the first so many rounds of a game, as they do when it is formed. */
  ghost predicate SortedRounds<T>(s: seq<T>, teams: nat, rounds: nat, env: Reads<T>) {
    forall a, b :: 0 <= a < b < rounds * teams && b < |s| ==> env.levelOf(s[a]) >= env.levelOf(s[b])
  }

  lemma OneRoundSum<T>(r: seq<T>, teams: nat, p: nat, env: Reads<T>)
    requires teams <= |r| && p < teams
    ensures SumSoFar(r, teams, p, 1, env) == env.levelOf(r[p])
  {
    assert SumSoFar(r, teams, p, 0, env) == 0;
  }

  lemma TwoRoundSum<T>(r: seq<T>, teams: nat, p: nat, env: Reads<T>)
    requires 2 * teams <= |r| && p < teams
    ensures SumSoFar(r, teams, p, 2, env) == env.levelOf(r[p]) + env.levelOf(r[teams + p])
  {
    OneRoundSum(r, teams, p, env);
  }

  /** The second round of two teams compares two totals that are never added to, so it always swaps. */
  lemma SecondSwap<T>(s: seq<T>, size: nat, env: Reads<T>)
    requires size >= 3 && size * 2 <= |s|
    ensures var r := Rounds(s, size, 2, 0, [0, 0, 0, 0], env); r[4] == s[5] && r[5] == s[4]
  {
    LaterDraft(s, size, 2, 2, env);
    hide Rounds;
    assert MovesFor(LaterCompared(2, 1, env)) == Once(Two(0, 1));
    assert From(Once(Two(0, 1)), 0) == 1 && From(Once(Two(0, 1)), 1) == 0;
  }

  /** So on a sorted game it is fair exactly when the first team is not behind by then or the two players are equal. */
  lemma SecondRoundOfTwo<T>(s: seq<T>, size: nat, env: Reads<T>)
    requires size >= 3 && size * 2 <= |s|
    requires SortedRounds(s, 2, 3, env)
    ensures RoundFair(Rounds(s, size, 2, 0, [0, 0, 0, 0], env), 2, 2, env) <==>
            || env.levelOf(s[0]) + env.levelOf(s[3]) >= env.levelOf(s[1]) + env.levelOf(s[2])
            || env.levelOf(s[4]) == env.levelOf(s[5])
  {
    hide Rounds, SumSoFar;
    SecondSwap(s, size, env);
    SnakeDraft(s, size, 2, env);
    var r := Rounds(s, size, 2, 0, [0, 0, 0, 0], env);
    TwoRoundSum(r, 2, 0, env);
    TwoRoundSum(r, 2, 1, env);
    TwoTeamsFair(r, 2, env);
    hide RoundFair;
  }

  /** Fairness over two teams, both ways round. */
  lemma TwoTeamsFair<T>(r: seq<T>, b: nat, env: Reads<T>)
    requires (b + 1) * 2 <= |r|
    ensures var first, second := SumSoFar(r, 2, 0, b, env), SumSoFar(r, 2, 1, b, env);
            RoundFair(r, 2, b, env) <==>
            && (first > second ==> env.levelOf(r[2 * b]) <= env.levelOf(r[2 * b + 1]))
            && (second > first ==> env.levelOf(r[2 * b + 1]) <= env.levelOf(r[2 * b]))
  {
    hide SumSoFar;
    if RoundFair(r, 2, b, env) {
      assert b * 2 + 0 == 2 * b && b * 2 + 1 == 2 * b + 1;
    }
  }

  /** Three against three: the team with levels 9 and 8 gets the stronger player, not the one with 10 and 1. */
  lemma UnfairPair(env: Reads<int>)
    requires forall x :: env.levelOf(x) == x
    ensures var r := Rounds([10, 9, 8, 1, 1, 0], 3, 2, 0, [0, 0, 0, 0], env);
            r == [10, 9, 1, 8, 0, 1] && !RoundFair(r, 2, 2, env)
  {
    var s := [10, 9, 8, 1, 1, 0];
    PairPlaces(s, env);
    SecondRoundOfTwo(s, 3, env);
    hide Rounds, RoundFair;
  }

  lemma PairPlaces<T>(s: seq<T>, env: Reads<T>)
    requires |s| == 6 && SortedRounds(s, 2, 1, env)
    ensures Rounds(s, 3, 2, 0, [0, 0, 0, 0], env) == [s[0], s[1], s[3], s[2], s[5], s[4]]
  {
    SnakeDraft(s, 3, 2, env);
    SecondSwap(s, 3, env);
    hide Rounds;
  }

  /**
   Four teams of three, where the memory that the second round compares happens to hold the true sums 18, 23, 22
   and 20: the second team, which leads, still gets a stronger player than the third.
   */
  lemma UnfairFour(env: Reads<int>)
    requires forall x :: env.levelOf(x) == x
    requires env.strayTotal(1, 0) == 18 && env.strayTotal(1, 1) == 23
             && env.strayTotal(1, 2) == 22 && env.strayTotal(1, 3) == 20
    ensures var r := Rounds([14, 14, 13, 10, 10, 9, 9, 4, 3, 2, 1, 0], 3, 4, 0, [0, 0, 0, 0], env);
            && r == [14, 14, 13, 10, 4, 9, 9, 10, 3, 1, 0, 2]
            && (forall p: nat :: p < 4 ==> SumSoFar(r, 4, p, 2, env) == env.strayTotal(1, p))
            && !RoundFair(r, 4, 2, env)
  {
    hide Rounds, SumSoFar, MovesFor, LaterCompared, RoundFair, From;
    var s := [14, 14, 13, 10, 10, 9, 9, 4, 3, 2, 1, 0];
    SecondMoves(env);
    FourPlaces(s, env);
    UnfairSums(Rounds(s, 3, 4, 0, [0, 0, 0, 0], env), env);
  }

  lemma FourPlaces<T>(s: seq<T>, env: Reads<T>)
    requires |s| == 12 && SortedRounds(s, 4, 1, env)
    requires var m := MovesFor(LaterCompared(4, 1, env));
             From(m, 0) == 0 && From(m, 1) == 2 && From(m, 2) == 3 && From(m, 3) == 1
    ensures Rounds(s, 3, 4, 0, [0, 0, 0, 0], env) ==
            [s[0], s[1], s[2], s[3], s[7], s[6], s[5], s[4], s[8], s[10], s[11], s[9]]
  {
    hide Rounds, MovesFor, LaterCompared, From;
    var r := Rounds(s, 3, 4, 0, [0, 0, 0, 0], env);
    SnakeDraft(s, 3, 4, env);
    LaterDraft(s, 3, 4, 2, env);
    assert r[8 + 0] == s[8] && r[8 + 1] == s[10] && r[8 + 2] == s[11] && r[8 + 3] == s[9];
    assert r[..4] == s[..4];
    FirstBlocks(s, r);
    Twelve(s, r);
  }

  lemma FirstBlocks<T>(s: seq<T>, r: seq<T>)
    requires |s| == |r| == 12 && forall k :: 4 <= k < 8 ==> r[k] == s[11 - k]
    ensures r[4] == s[7] && r[5] == s[6] && r[6] == s[5] && r[7] == s[4]
  {
  }

  lemma Twelve<T>(s: seq<T>, r: seq<T>)
    requires |s| == |r| == 12 && r[..4] == s[..4]
    requires r[4] == s[7] && r[5] == s[6] && r[6] == s[5] && r[7] == s[4]
    requires r[8] == s[8] && r[9] == s[10] && r[10] == s[11] && r[11] == s[9]
    ensures r == [s[0], s[1], s[2], s[3], s[7], s[6], s[5], s[4], s[8], s[10], s[11], s[9]]
  {
    forall k | 0 <= k < 4 ensures r[k] == s[k] { assert r[k] == r[..4][k]; }
  }

  lemma SecondMoves(env: Reads<int>)
    requires env.strayTotal(1, 0) == 18 && env.strayTotal(1, 1) == 23
             && env.strayTotal(1, 2) == 22 && env.strayTotal(1, 3) == 20
    ensures var m := MovesFor(LaterCompared(4, 1, env));
            From(m, 0) == 0 && From(m, 1) == 2 && From(m, 2) == 3 && From(m, 3) == 1
  {
  }

  lemma UnfairSums(r: seq<int>, env: Reads<int>)
    requires forall x :: env.levelOf(x) == x
    requires |r| == 12 && r[0] == 14 && r[1] == 14 && r[2] == 13 && r[3] == 10
             && r[4] == 4 && r[5] == 9 && r[6] == 9 && r[7] == 10 && r[9] == 1 && r[10] == 0
    ensures SumSoFar(r, 4, 0, 2, env) == 18 && SumSoFar(r, 4, 1, 2, env) == 23
    ensures SumSoFar(r, 4, 2, 2, env) == 22 && SumSoFar(r, 4, 3, 2, env) == 20
    ensures !RoundFair(r, 4, 2, env)
  {
    hide SumSoFar;
    TwoRoundSum(r, 4, 0, env);
    TwoRoundSum(r, 4, 1, env);
    TwoRoundSum(r, 4, 2, env);
    TwoRoundSum(r, 4, 3, env);
    assert SumSoFar(r, 4, 1, 2, env) > SumSoFar(r, 4, 2, 2, env) && r[2 * 4 + 1] > r[2 * 4 + 2];
  }

  lemma BlockEnd(teams: nat, b: nat, size: nat)
    requires b < size
    ensures b * teams + teams <= size * teams
  {
    BlockOrder(teams, b, size);
    BlockFits(teams, b);
  }

  lemma EmbeddedTail<T>(s: seq<T>, base: nat, block: seq<T>, k: nat)
    requires base + |block| <= k <= |s|
    ensures Embedded(s, base, block)[k..] == s[k..]
  {
  }

  lemma OtherBlock<T>(s: seq<T>, teams: nat, c: nat, block: seq<T>, b: nat)
    requires (c + 1) * teams <= |s| && (b + 1) * teams <= |s| && |block| == teams && c * teams + |block| <= |s|
    requires c * teams >= 0
    ensures |Embedded(s, c * teams, block)| == |s|
    ensures Block(Embedded(s, c * teams, block), teams, b) == if b == c then block else Block(s, teams, b)
  {
    Lengths(s, c * teams, block);
    hide Embedded;
    BlockFits(teams, b);
    BlockFits(teams, c);
    if b < c { BlockOrder(teams, b, c); }
    if c < b { BlockOrder(teams, c, b); }
    OtherSlice(s, c * teams, block, b * teams, (b + 1) * teams);
  }

  lemma OtherSlice<T>(s: seq<T>, base: nat, block: seq<T>, lo: nat, hi: nat)
    requires base + |block| <= |s| && lo <= hi <= |s|
    requires hi <= base || base + |block| <= lo || (lo == base && hi == base + |block|)
    ensures |Embedded(s, base, block)| == |s|
    ensures Embedded(s, base, block)[lo..hi] == if lo == base && hi == base + |block| then block else s[lo..hi]
  {
  }

  /** _anongame_order_queue for a queue of team games: the rounds one after the other, in place. */
  method OrderQueue<T>(player: array<T>, players: nat, teams: nat, env: Reads<T>)
    requires 2 <= teams <= MAX_TEAMS && players <= player.Length
    modifies player
    ensures players / teams * teams <= player.Length
    ensures player[..] == Rounds(old(player[..]), players / teams, teams, 0, [0, 0, 0, 0], env)
  {
    hide Embedded, Draft, AddLevels, Compared, Block;
    var size: nat := TeamSize(players, teams);
    var totals := [0, 0, 0, 0];
    var i := 0;
    while i + 1 < size
      invariant size * teams <= player.Length && |totals| == MAX_TEAMS
      invariant Rounds(player[..], size, teams, i, totals, env) ==
                Rounds(old(player[..]), size, teams, 0, [0, 0, 0, 0], env)
      decreases size - i
    {
      totals := AddedLevels(player, size, teams, i, totals, env);
      OneRound(player, size, teams, i, totals, env);
      i := i + 1;
    }
  }

  method AddedLevels<T>(player: array<T>, size: nat, teams: nat, i: nat, totals: seq<int>, env: Reads<T>)
    returns (r: seq<int>)
    requires |totals| == MAX_TEAMS && teams <= MAX_TEAMS
    ensures |r| == MAX_TEAMS && r == AddLevels(player[..], size, teams, i, totals, env)
  {
    hide LevelRead;
    r := totals;
    for j := 0 to teams
      invariant |r| == MAX_TEAMS
      invariant forall k :: 0 <= k < MAX_TEAMS ==>
                  r[k] == if k < j then totals[k] + LevelRead(player[..], size, i, k, env) else totals[k]
    {
      r := r[j := r[j] + LevelRead(player[..], size, i, j, env)];
    }
  }

  method OneRound<T>(player: array<T>, size: nat, teams: nat, i: nat, totals: seq<int>, env: Reads<T>)
    requires 2 <= teams <= MAX_TEAMS && |totals| == MAX_TEAMS && size * teams <= player.Length && i + 1 < size
    modifies player
    ensures player[..] == Round(old(player[..]), size, teams, i, totals, env)
  {
    hide Embedded, Draft;
    BlockInside(teams, i + 1, size, player.Length);
    assert player[(i + 1) * teams..(i + 1) * teams + teams] == Block(player[..], teams, i + 1);
    DraftInPlace(player, (i + 1) * teams, Compared(totals, teams, i, env));
  }

  method TeamSize(players: nat, teams: nat) returns (size: nat)
    requires teams >= 1
    ensures size == players / teams && size * teams <= players
  {
    size := players / teams;
  }
}
