/** The ladder matchmaker: one queue, its level lists, and the players of the game being formed. */
module Matchmaker {
  import opened Common
  import opened MapPrefs
  import opened LevelWalk
  import opened QueueSearch
  import opened QueueRemoval
  import T = TeamOrder

  const MAX_PLAYERS: nat := 12
  const TEAM_SLOTS: nat := 6

  // ---------------------------------------------------------------- the queues

  datatype Kind =
    | Pg1v1 | Pg2v2 | Pg3v3 | Pg4v4 | Pg5v5 | Pg6v6 | SmallFfa | TeamFfa
    | Pg2v2v2 | Pg3v3v3 | Pg4v4v4 | Pg2v2v2v2 | Pg3v3v3v3
    | At2v2 | At3v3 | At4v4 | At2v2v2

  function Total(k: Kind): nat {
    match k
    case Pg1v1 => 2
    case Pg2v2 | At2v2 | SmallFfa => 4
    case Pg3v3 | At3v3 | Pg2v2v2 | At2v2v2 => 6
    case Pg4v4 | At4v4 | TeamFfa | Pg2v2v2v2 => 8
    case Pg3v3v3 => 9
    case Pg5v5 => 10
    case Pg6v6 | Pg4v4v4 | Pg3v3v3v3 => 12
  }

  function Teams(k: Kind): nat {
    match k
    case Pg1v1 | SmallFfa => 0
    case Pg2v2 | Pg3v3 | Pg4v4 | Pg5v5 | Pg6v6 | At2v2 | At3v3 | At4v4 => 2
    case Pg2v2v2 | Pg3v3v3 | Pg4v4v4 | At2v2v2 => 3
    case TeamFfa | Pg2v2v2v2 | Pg3v3v3v3 => 4
  }

  predicate Arranged(k: Kind) {
    k in {At2v2, At3v3, At4v4, At2v2v2}
  }

  /** Players that one entry brings: a whole team in the arranged queues. */
  function Per(k: Kind): nat {
    if Arranged(k) then Total(k) / Teams(k) else 1
  }

  /** Entries that a game needs. */
  function Need(k: Kind): nat {
    if Arranged(k) then Teams(k) else Total(k)
  }

  lemma Sizes(k: Kind)
    ensures Need(k) * Per(k) == Total(k) && 1 <= Need(k) && 1 <= Per(k) <= TEAM_SLOTS && Total(k) <= MAX_PLAYERS
    ensures Teams(k) != 0 ==> 2 <= Teams(k) <= T.MAX_TEAMS && Total(k) % Teams(k) == 0
  {
  }

  /** How many players stand on each side, as the name of the kind has it. */
  function TeamSizes(k: Kind): seq<nat> {
    match k
    case Pg1v1 => [1, 1]
    case Pg2v2 | At2v2 => [2, 2]
    case Pg3v3 | At3v3 => [3, 3]
    case Pg4v4 | At4v4 => [4, 4]
    case Pg5v5 => [5, 5]
    case Pg6v6 => [6, 6]
    case SmallFfa => [1, 1, 1, 1]
    case TeamFfa | Pg2v2v2v2 => [2, 2, 2, 2]
    case Pg2v2v2 | At2v2v2 => [2, 2, 2]
    case Pg3v3v3 => [3, 3, 3]
    case Pg4v4v4 => [4, 4, 4]
    case Pg3v3v3v3 => [3, 3, 3, 3]
  }

  function AllOf(sizes: seq<nat>): nat {
    if sizes == [] then 0 else sizes[0] + AllOf(sizes[1..])
  }

  /** The tables of players and teams agree with the names; games of single players count no teams. */
  lemma NamedFor(k: Kind)
    ensures Total(k) == AllOf(TeamSizes(k))
    ensures Teams(k) == if TeamSizes(k)[0] == 1 then 0 else |TeamSizes(k)|
    ensures Arranged(k) ==> Need(k) == |TeamSizes(k)| && forall n :: n in TeamSizes(k) ==> Per(k) == n
  {
    assert AllOf(TeamSizes(k)[1..]) == TeamSizes(k)[0] * (|TeamSizes(k)| - 1) by {
      assert AllOf(TeamSizes(k)[1..][1..]) == TeamSizes(k)[0] * (|TeamSizes(k)| - 2) by {
        if |TeamSizes(k)| > 2 { assert AllOf(TeamSizes(k)[1..][1..][1..]) == TeamSizes(k)[0] * (|TeamSizes(k)| - 3); }
      }
    }
  }

  /** Slot of the i-th player of the t-th entry: the teams of an arranged game are dealt out in turn. */
  function Slot(k: Kind, t: nat, i: nat): (slot: nat)
    requires t < Need(k) && i < Per(k)
    ensures slot < Total(k)
  {
    Sizes(k);
    Lanes(t, i, Need(k), Per(k));
    if Arranged(k) then t + i * Teams(k) else t
  }

  lemma Lanes(t: nat, i: nat, lanes: nat, per: nat)
    requires t < lanes && i < per
    ensures 0 <= i * lanes && t + i * lanes < lanes * per
    ensures (t + i * lanes) % lanes == t
  {
    LaneOf(t, i, lanes);
    assert i * lanes <= (per - 1) * lanes by { if i < per - 1 { Grows(i, per - 1, lanes); } }
    assert lanes * per == (per - 1) * lanes + lanes;
  }

  lemma Grows(a: nat, b: nat, c: nat)
    requires a <= b
    ensures a * c <= b * c
  {
  }

  lemma LaneOf(t: nat, i: nat, lanes: nat)
    requires t < lanes
    ensures 0 <= i * lanes && (t + i * lanes) % lanes == t
  {
    var x := t + i * lanes;
    Grows(0, i, lanes);
    assert x == x / lanes * lanes + x % lanes;
    if x / lanes < i { Grows(x / lanes + 1, i, lanes); }
    if x / lanes > i { Grows(i + 1, x / lanes, lanes); }
  }

  /** No slot is dealt twice. */
  lemma SlotsDistinct(k: Kind, t: nat, i: nat, t': nat, i': nat)
    requires t < Need(k) && i < Per(k) && t' < Need(k) && i' < Per(k)
    ensures Slot(k, t, i) == Slot(k, t', i') ==> t == t' && i == i'
  {
    if Arranged(k) {
      Lanes(t, i, Need(k), Per(k));
      Lanes(t', i', Need(k), Per(k));
      if t == t' && i != i' {
        if i < i' { Apart(i, i', Teams(k)); } else { Apart(i', i, Teams(k)); }
      }
    }
  }

  lemma Apart(i: nat, i': nat, lanes: nat)
    requires i < i' && lanes > 0
    ensures i * lanes < i' * lanes
  {
  }

  function Member(k: Kind, members: Conn -> seq<Conn>, leader: Conn, i: nat): Conn
    requires i < Per(k) && |members(leader)| == TEAM_SLOTS
  {
    Sizes(k);
    if Arranged(k) then members(leader)[i] else leader
  }

  ghost predicate TeamsKnown(members: Conn -> seq<Conn>) {
    forall c :: |members(c)| == TEAM_SLOTS
  }

  /** The players that the given leaders brought stand in their slots. */
  ghost predicate Laid(k: Kind, p: seq<Conn>, leaders: seq<Conn>, members: Conn -> seq<Conn>)
    requires TeamsKnown(members)
  {
    && |p| == MAX_PLAYERS && |leaders| <= Need(k) && Total(k) <= MAX_PLAYERS
    && forall t, i :: 0 <= t < |leaders| && 0 <= i < Per(k) ==> p[Slot(k, t, i)] == Member(k, members, leaders[t], i)
  }

  /** What a search through the given lists, and the one behind them, comes to. */
  ghost function Sought(k: Kind, lists: Lists, behind: seq<Entry>, wish: Wish): Search
    requires wish.level <= MAX_LEVEL
  {
    Searched(Start(wish), wish, Need(k), Candidates(lists + [behind], wish))
  }

  /** In a full arranged game the j-th player comes from team j % teams, and is its member j / teams. */
  lemma ArrangedTeams(k: Kind, p: seq<Conn>, leaders: seq<Conn>, members: Conn -> seq<Conn>, j: nat)
    requires TeamsKnown(members) && Laid(k, p, leaders, members) && Arranged(k) && |leaders| == Need(k)
    requires j < Total(k)
    ensures p[j] == members(leaders[j % Teams(k)])[j / Teams(k)]
  {
    var n := Teams(k);
    var t, i := j % n, j / n;
    Sizes(k);
    assert j == t + i * n;
    assert i < Per(k);
    assert p[Slot(k, t, i)] == Member(k, members, leaders[t], i);
  }

  // ---------------------------------------------------------------- folding the search over the levels

  /** A level outside the window has nothing to offer. */
  lemma {:induction false} OutsideWindow(st: Search, wish: Wish, need: nat, spots: seq<Spot>)
    requires forall i :: 0 <= i < |spots| ==> !(st.lo <= spots[i].level <= st.hi)
    ensures Searched(st, wish, need, spots) == st
    decreases |spots|
  {
    if spots != [] { OutsideWindow(st, wish, need, spots[1..]); }
  }

  lemma NoneLeft(st: Search, wish: Wish, need: nat)
    ensures Searched(st, wish, need, []) == st
  {
  }

  lemma Enough(st: Search, wish: Wish, need: nat, spots: seq<Spot>)
    requires |st.spots| == need
    ensures Searched(st, wish, need, spots) == st
  {
  }

  lemma NextOffer(st: Search, wish: Wish, need: nat, spots: seq<Spot>, i: nat)
    requires i < |spots| && |st.spots| != need
    ensures Searched(st, wish, need, spots[i..]) == Searched(Offered(st, wish, spots[i]), wish, need, spots[i + 1..])
  {
    assert spots[i..][1..] == spots[i + 1..];
  }

  // ---------------------------------------------------------------- sorting

  ghost predicate Falling(s: seq<Conn>, levelOf: Conn -> int) {
    forall i, j :: 0 <= i < j < |s| ==> levelOf(s[i]) >= levelOf(s[j])
  }

  /** c put behind the last player of at least its level. */
  function Inserted(s: seq<Conn>, c: Conn, levelOf: Conn -> int): seq<Conn> {
    if s == [] || levelOf(s[|s| - 1]) >= levelOf(c) then s + [c]
    else Inserted(s[..|s| - 1], c, levelOf) + [s[|s| - 1]]
  }

  lemma {:induction false} InsertedCounts(s: seq<Conn>, c: Conn, levelOf: Conn -> int)
    ensures var r := Inserted(s, c, levelOf);
            |r| == |s| + 1 && multiset(r) == multiset(s) + multiset{c}
  {
    if s == [] || levelOf(s[|s| - 1]) >= levelOf(c) {
    } else {
      assert s == s[..|s| - 1] + [s[|s| - 1]];
      InsertedCounts(s[..|s| - 1], c, levelOf);
    }
  }

  lemma {:induction false} InsertedFalls(s: seq<Conn>, c: Conn, levelOf: Conn -> int)
    requires Falling(s, levelOf)
    ensures Falling(Inserted(s, c, levelOf), levelOf)
  {
    if s == [] || levelOf(s[|s| - 1]) >= levelOf(c) {
    } else {
      var a, z := s[..|s| - 1], s[|s| - 1];
      InsertedFalls(a, c, levelOf);
      InsertedCounts(a, c, levelOf);
      var r := Inserted(a, c, levelOf);
      forall i | 0 <= i < |r| ensures levelOf(r[i]) >= levelOf(z) {
        assert r[i] in multiset(r);
        assert r[i] in a || r[i] == c;
      }
    }
  }

  /** Sorting by falling level; what the library does among equal levels is left open. */
  method SortByLevel(a: array<Conn>, n: nat, levelOf: Conn -> int)
    requires n <= a.Length
    modifies a
    ensures Falling(a[..n], levelOf)
    ensures multiset(a[..n]) == multiset(old(a[..n])) && a[n..] == old(a[n..])
  {
    var s: seq<Conn> := [];
    for i := 0 to n
      invariant a[..] == old(a[..])
      invariant |s| == i && Falling(s, levelOf) && multiset(s) == multiset(a[..i])
    {
      InsertedFalls(s, a[i], levelOf);
      InsertedCounts(s, a[i], levelOf);
      assert a[..i + 1] == a[..i] + [a[i]];
      s := Inserted(s, a[i], levelOf);
    }
    CopyInto(a, s);
  }

  method CopyInto(a: array<Conn>, s: seq<Conn>)
    requires |s| <= a.Length
    modifies a
    ensures a[..|s|] == s && a[|s|..] == old(a[|s|..])
  {
    for i := 0 to |s|
      invariant a[..i] == s[..i] && a[|s|..] == old(a[|s|..])
    {
      a[i] := s[i];
    }
  }

  // ---------------------------------------------------------------- what sorting and reordering leave

  /** Nobody stands in an earlier round than a player of higher level: slot p belongs to round p / teams. */
  ghost predicate Layered(p: seq<Conn>, teams: nat, levelOf: Conn -> int)
    requires teams > 0
  {
    forall i, j :: 0 <= i < |p| && 0 <= j < |p| && i / teams < j / teams ==> levelOf(p[i]) >= levelOf(p[j])
  }

  ghost predicate SameBlocks(s: seq<Conn>, r: seq<Conn>, teams: nat, size: nat)
    requires size * teams <= |s| == |r|
  {
    forall b :: 0 <= b < size ==> SameBlock(s, r, teams, b)
  }

  ghost predicate SameBlock(s: seq<Conn>, r: seq<Conn>, teams: nat, b: nat) {
    && (b + 1) * teams <= |s| && (b + 1) * teams <= |r|
    && multiset(T.Block(r, teams, b)) == multiset(T.Block(s, teams, b))
  }

  lemma {:induction false} BlocksAddUp(s: seq<Conn>, r: seq<Conn>, teams: nat, size: nat)
    requires size * teams <= |s| == |r| && SameBlocks(s, r, teams, size)
    ensures multiset(r[..size * teams]) == multiset(s[..size * teams])
    decreases size
  {
    if size > 0 {
      var b := size - 1;
      T.BlockFits(teams, b);
      assert SameBlock(s, r, teams, b);
      BlocksAddUp(s, r, teams, b);
      assert s[..size * teams] == s[..b * teams] + T.Block(s, teams, b);
      assert r[..size * teams] == r[..b * teams] + T.Block(r, teams, b);
    } else {
      assert r[..size * teams] == s[..size * teams] == [];
    }
  }

  /** Whoever ends up in a slot came from a slot of the same round. */
  lemma OriginOf(s: seq<Conn>, r: seq<Conn>, teams: nat, size: nat, i: nat) returns (o: nat)
    requires teams > 0 && size * teams <= |s| == |r| && SameBlocks(s, r, teams, size) && i < size * teams
    ensures o < size * teams && o / teams == i / teams && s[o] == r[i]
  {
    var b := i / teams;
    InBlock(i, teams, b);
    assert b < size by { if b >= size { Grows(size, b, teams); } }
    T.BlockInside(teams, b, size, |s|);
    assert SameBlock(s, r, teams, b);
    var x, y := T.Block(s, teams, b), T.Block(r, teams, b);
    assert y[i - b * teams] == r[i];
    assert r[i] in multiset(y) && r[i] in x;
    var k :| 0 <= k < |x| && x[k] == r[i];
    o := b * teams + k;
    OfBlock(o, teams, b);
    T.BlockOrder(teams, b, size);
  }

  lemma InBlock(i: nat, teams: nat, b: nat)
    requires teams > 0 && b == i / teams
    ensures 0 <= b * teams <= i < b * teams + teams
  {
    assert i == b * teams + i % teams;
  }

  lemma OfBlock(o: nat, teams: nat, b: nat)
    requires teams > 0 && b * teams <= o < b * teams + teams
    ensures o / teams == b
  {
    var k := o - b * teams;
    LaneOf(k, b, teams);
    assert o == (o / teams) * teams + k;
  }

  lemma SortedLayers(s: seq<Conn>, r: seq<Conn>, teams: nat, size: nat, levelOf: Conn -> int)
    requires teams > 0 && size * teams <= |s| == |r| && SameBlocks(s, r, teams, size)
    requires Falling(s[..size * teams], levelOf)
    ensures Layered(r[..size * teams], teams, levelOf)
  {
    var n := size * teams;
    forall i, j | 0 <= i < n && 0 <= j < n && i / teams < j / teams ensures levelOf(r[i]) >= levelOf(r[j]) {
      var a := OriginOf(s, r, teams, size, i);
      var b := OriginOf(s, r, teams, size, j);
      Earlier(a, b, teams);
      assert s[..n][a] == s[a] && s[..n][b] == s[b];
    }
  }

  lemma Earlier(a: nat, b: nat, teams: nat)
    requires teams > 0 && a / teams < b / teams
    ensures a < b
  {
    InBlock(a, teams, a / teams);
    InBlock(b, teams, b / teams);
    Grows(a / teams + 1, b / teams, teams);
  }

  // ---------------------------------------------------------------- one queue

  class Queue {
    const kind: Kind
    const player: array<Conn>
    var lists: Lists
    var players: nat

    ghost predicate Valid()
      reads this
    {
      player.Length == MAX_PLAYERS
    }

    constructor (kind: Kind)
      ensures Valid() && fresh(player) && this.kind == kind
      ensures Flat(lists, 0) == [] && players == 0 && forall l :: 0 <= l < MAX_LEVEL ==> lists[l] == []
    {
      this.kind := kind;
      player := new Conn[MAX_PLAYERS](i => 0);
      lists := seq(MAX_LEVEL, i => []);
      players := 0;
      new;
      NothingQueued(lists, 0);
    }

    /** A new entry goes to the end of the list of its level. */
    method Enqueue(c: Conn, level: nat, prefs: bv32, tag: Option<string>)
      requires Valid() && level < MAX_LEVEL
      modifies this`lists
      ensures Valid() && lists == old(lists)[level := old(lists)[level] + [Entry(c, prefs, tag)]]
      ensures multiset(Conns(Flat(lists, 0))) == multiset(Conns(old(Flat(lists, 0)))) + multiset{c}
    {
      OneMore(lists, 0, level, Entry(c, prefs, tag));
      lists := lists[level := lists[level] + [Entry(c, prefs, tag)]];
    }

    /** Drops the first entry of c, looking from level 0 upwards. */
    method Unqueue(c: Conn) returns (ok: bool)
      requires Valid()
      modifies this`lists
      ensures Valid() && Flat(lists, 0) == Without(old(Flat(lists, 0)), c)
      ensures ok <==> Arranged(kind) || c in Conns(old(Flat(lists, 0)))
    {
      hide Flat, Conns, Without;
      for level: nat := 0 to MAX_LEVEL
        invariant lists == old(lists)
        invariant forall l, k :: 0 <= l < level && 0 <= k < |lists[l]| ==> lists[l][k].c != c
      {
        var list := lists[level];
        for i := 0 to |list|
          invariant lists == old(lists)
          invariant forall k :: 0 <= k < i ==> list[k].c != c
        {
          if list[i].c == c {
            RemoveAtLevel(lists, 0, level, i, c);
            lists := lists[level := list[..i] + list[i + 1..]];
            return true;
          }
        }
      }
      NotQueued(lists, 0, c);
      NothingToDrop(Flat(lists, 0), c);
      ok := Arranged(kind);
    }

    method UnqueueEach(cs: seq<Conn>)
      requires Valid()
      modifies this`lists
      ensures Valid() && Flat(lists, 0) == WithoutAll(old(Flat(lists, 0)), cs)
    {
      hide Flat, Without;
      for i := 0 to |cs|
        invariant WithoutAll(Flat(lists, 0), cs[i..]) == WithoutAll(old(Flat(lists, 0)), cs)
      {
        assert cs[i..][0] == cs[i] && cs[i..][1..] == cs[i + 1..];
        var _ := Unqueue(cs[i]);
      }
    }

    /** Puts what the t-th entry brings into its slots. */
    method Place(c: Conn, ghost leaders: seq<Conn>, t: nat, members: Conn -> seq<Conn>)
      requires Valid() && TeamsKnown(members) && t < Need(kind) && players == t * Per(kind) && |leaders| == t
      requires Laid(kind, player[..], leaders, members)
      modifies this`players, player
      ensures Valid() && players == (t + 1) * Per(kind)
      ensures Laid(kind, player[..], leaders + [c], members)
    {
      hide Slot, Member, Total, Teams, Need;
      Sizes(kind);
      for i := 0 to Per(kind)
        invariant players == t * Per(kind) + i
        invariant Laid(kind, player[..], leaders, members)
        invariant forall j :: 0 <= j < i ==> player[Slot(kind, t, j)] == Member(kind, members, c, j)
      {
        label before:
        player[Slot(kind, t, i)] := Member(kind, members, c, i);
        OtherSlots(old@before(player[..]), kind, t, i, Member(kind, members, c, i));
        assert player[..] == old@before(player[..])[Slot(kind, t, i) := Member(kind, members, c, i)];
        StillLaid(kind, old@before(player[..]), leaders, members, t, i, Member(kind, members, c, i));
        players := players + 1;
      }
    }

    /** What a search through the lists as they stand, and the one behind them, comes to. */
    ghost function Outcome(wish: Wish, behind: seq<Entry>): Search
      requires wish.level <= MAX_LEVEL
      reads this`lists
    {
      Sought(kind, lists, behind, wish)
    }

    /** The part of a search that goes through the list of one level inside the window. */
    method SearchLevel(shelf: Shelf, level: nat, wish: Wish, members: Conn -> seq<Conn>, mask: bv32, lo: int, hi: int,
        leaders: seq<Conn>, ghost spots: seq<Spot>)
      returns (mask': bv32, lo': int, hi': int, leaders': seq<Conn>, ghost spots': seq<Spot>)
      requires Valid() && TeamsKnown(members) && level <= MAX_LEVEL && lo <= level <= hi
      requires |spots| < Need(kind) && leaders == Leaders(spots)
      requires players == |spots| * Per(kind) && Laid(kind, player[..], leaders, members)
      modifies this`players, player
      ensures Valid() && leaders' == Leaders(spots') && |spots'| <= Need(kind)
      ensures players == |spots'| * Per(kind) && Laid(kind, player[..], leaders', members)
      ensures Search(mask', lo', hi', spots') ==
              Searched(Search(mask, lo, hi, spots), wish, Need(kind), SpotsAt(shelf, level))
    {
      hide Slot, Member, Total, Teams, Need, Laid, And, Searched, Per;
      mask', lo', hi', leaders', spots' := mask, lo, hi, leaders, spots;
      ghost var all, need := SpotsAt(shelf, level), Need(kind);
      ghost var goal := Searched(Search(mask, lo, hi, spots), wish, need, all);
      var list := shelf[level];
      assert all[0..] == all;
      for i := 0 to |list|
        invariant lo' <= level <= hi'
        invariant |spots'| < need && leaders' == Leaders(spots')
        invariant players == |spots'| * Per(kind) && Laid(kind, player[..], leaders', members)
        invariant Searched(Search(mask', lo', hi', spots'), wish, need, all[i..]) == goal
      {
        var md := list[i];
        NextOffer(Search(mask', lo', hi', spots'), wish, need, all, i);
        if md.tag.Some? && wish.tag.Some? && md.tag.value == wish.tag.value && And(mask', md.prefs) != 0 {
          hi' := if level + wish.diff < hi' then level + wish.diff else hi';
          lo' := if level - wish.diff > lo' then level - wish.diff else lo';
          mask' := And(mask', md.prefs);
          Place(md.c, leaders', |leaders'|, members);
          leaders' := leaders' + [md.c];
          spots' := spots' + [all[i]];
          LeadersMore(spots'[..|spots'| - 1], all[i]);
          if |leaders'| == Need(kind) {
            Enough(Search(mask', lo', hi', spots'), wish, need, all[i + 1..]);
            return;
          }
        }
      }
      assert all[|list|..] == [];
      NoneLeft(Search(mask', lo', hi', spots'), wish, need);
    }

    /** The search loop; it stops as soon as the game is full. */
    method Find(wish: Wish, members: Conn -> seq<Conn>, behind: seq<Entry>) returns (mask: bv32, leaders: seq<Conn>)
      requires Valid() && TeamsKnown(members) && wish.level <= MAX_LEVEL
      modifies this`players, player
      ensures Valid() && mask == Outcome(wish, behind).mask && leaders == Leaders(Outcome(wish, behind).spots)
      ensures players == |leaders| * Per(kind) && Laid(kind, player[..], leaders, members)
    {
      hide Slot, Member, Total, Teams, Need, Laid, Per, Searched, SpotsAt, Flat, Walk, SpotsAlong, WalkFits, Onward;
      hide NextDelta, Leaders;
      StartsEmpty(kind, player[..], members);
      InRange(wish);
      var shelf: Shelf := lists + [behind];
      var level, diff := wish.level, wish.diff;
      ghost var need, spots, goal := Need(kind), [], Outcome(wish, behind);
      players := 0;
      var delta, hi, lo := 0, level + diff, if level - diff < 0 then 0 else level - diff;
      mask, leaders := wish.prefs, [];
      NobodyLeads();
      while Abs(delta) < diff + 1
        invariant 0 <= level + delta <= MAX_LEVEL && WalkFits(level, Walk(level, diff, delta))
        invariant |spots| < need && leaders == Leaders(spots)
        invariant players == |spots| * Per(kind) && Laid(kind, player[..], leaders, members)
        invariant Searched(Search(mask, lo, hi, spots), wish, need, SpotsAlong(shelf, level, Walk(level, diff, delta)))
                  == goal
        decreases 2 * diff + 2 - Rank(delta)
      {
        NextRank(level, delta);
        ghost var st := Search(mask, lo, hi, spots);
        ghost var here := level + delta;
        OneLevel(shelf, wish, delta, st, need);
        if lo <= level + delta <= hi {
          mask, lo, hi, leaders, spots :=
            SearchLevel(shelf, level + delta, wish, members, mask, lo, hi, leaders, spots);
          if |leaders| == Need(kind) {
            Enough(Search(mask, lo, hi, spots), wish, need, Onward(shelf, wish, delta));
            return;
          }
        } else {
          LevelOutside(shelf, level + delta, st, wish, need);
        }
        delta := NextDelta(level, delta);
        NoneLeft(Search(mask, lo, hi, spots), wish, need);
        if level + delta < 0 { return; }
      }
      WalkOver(shelf, level, diff, delta);
      NoneLeft(Search(mask, lo, hi, spots), wish, need);
    }

    /** Sorting the players of a full game by level, and sharing them out over its teams. */
    method Arrange(env: T.Reads<Conn>)
      requires Valid() && !Arranged(kind) && players == Total(kind)
      modifies player
      ensures Valid() && multiset(player[..Total(kind)]) == multiset(old(player[..Total(kind)]))
      ensures Teams(kind) == 0 ==> Falling(player[..Total(kind)], env.levelOf)
      ensures Teams(kind) != 0 ==> Layered(player[..Total(kind)], Teams(kind), env.levelOf)
    {
      hide Total, Teams, Falling, Layered;
      Sizes(kind);
      SortByLevel(player, players, env.levelOf);
      if Teams(kind) != 0 {
        ShareOut(player, players, Teams(kind), env);
      }
    }

    /**
     One matching attempt for a player who has just queued. With too few fitting entries nothing leaves the queue;
     otherwise the game's players leave it, and a map slot is drawn that all of them ticked.
     */
    method Match(wish: Wish, members: Conn -> seq<Conn>, behind: seq<Entry>, env: T.Reads<Conn>, random: nat)
      returns (slot: Option<nat>)
      requires Valid() && TeamsKnown(members) && wish.level <= MAX_LEVEL
      modifies this`players, this`lists, player
      ensures Valid() && slot.Some? <==> players == Total(kind)
      ensures var r := old(Outcome(wish, behind));
              && slot.Some? == (|r.spots| == Need(kind))
              && (slot.None? ==> lists == old(lists) && players == |r.spots| * Per(kind) < Total(kind))
              && (slot.Some? ==> slot.value < 32 && Bit(r.mask, slot.value) && GoodGame(r.spots, wish, slot.value))
              && (slot.Some? && Arranged(kind) ==> Laid(kind, player[..], Leaders(r.spots), members))
              && (slot.Some? && !Arranged(kind) ==>
                    multiset(player[..Total(kind)]) == multiset(Leaders(r.spots)) && Total(kind) <= MAX_PLAYERS)
      ensures slot.Some? ==>
                var r := old(Outcome(wish, behind));
                var gone := if Arranged(kind) then Leaders(r.spots) else player[..Total(kind)];
                Flat(lists, 0) == WithoutAll(old(Flat(lists, 0)), gone) && multiset(gone) == multiset(Leaders(r.spots))
      ensures slot.Some? && !Arranged(kind) && Teams(kind) == 0 ==> Falling(player[..Total(kind)], env.levelOf)
      ensures slot.Some? && !Arranged(kind) && Teams(kind) != 0 ==>
                Layered(player[..Total(kind)], Teams(kind), env.levelOf)
    {
      hide Total, Teams, Need, Per, Falling, Layered, Outcome, Flat, WithoutAll, Bit;
      Sizes(kind);
      OutcomeFacts(wish, behind);
      ghost var r := Outcome(wish, behind);
      var mask, leaders := Find(wish, members, behind);
      FullExactly(kind, |leaders|);
      if players != Total(kind) { return None; }
      if Arranged(kind) {
        UnqueueEach(leaders);
      } else {
        LaidPlain(kind, player[..], leaders, members);
        Arrange(env);
        UnqueueEach(player[..players]);
      }
      var picked := PickSlot(mask, random);
      GoodFrom(r, wish, picked);
      slot := Some(picked);
    }

    /**
     A search request puts the player at the end of the list of its level, with its preferences and tag, and tries to
     form a game. Without one nothing else changes. With one, exactly the players found leave, and the game is good
     for the drawn slot. Nobody is lost, and nobody appears exactly if the players taken are among the queued ones; so
     it is when the search stays within the lists, or finds nobody behind them.
     */
    method Request(c: Conn, wish: Wish, members: Conn -> seq<Conn>, behind: seq<Entry>, env: T.Reads<Conn>, random: nat)
      returns (slot: Option<nat>, ghost gone: seq<Conn>)
      requires Valid() && TeamsKnown(members) && wish.level < MAX_LEVEL
      modifies this`players, this`lists, player
      ensures Valid() && |gone| == (if slot.Some? then Need(kind) else 0)
      ensures var queued: Lists :=
                old(lists)[wish.level := old(lists)[wish.level] + [Entry(c, wish.prefs, wish.tag)]];
              var r := Sought(kind, queued, behind, wish);
              && (slot.Some? <==> |r.spots| == Need(kind))
              && (slot.None? ==> lists == queued)
              && (slot.Some? ==>
                    && Flat(lists, 0) == WithoutAll(Flat(queued, 0), gone)
                    && multiset(gone) == multiset(Leaders(r.spots))
                    && slot.value < 32 && Bit(r.mask, slot.value) && GoodGame(r.spots, wish, slot.value)
                    && (Arranged(kind) ==> gone == Leaders(r.spots) && Laid(kind, player[..], gone, members)))
      ensures var queued := multiset(Conns(old(Flat(lists, 0)))) + multiset{c};
              && multiset(Conns(Flat(lists, 0))) == queued - multiset(gone)
              && (multiset(Conns(Flat(lists, 0))) + multiset(gone) == queued <==> multiset(gone) <= queued)
              && (wish.level + wish.diff < MAX_LEVEL || behind == [] ==> multiset(gone) <= queued)
      ensures slot.Some? && !Arranged(kind) ==> |gone| <= MAX_PLAYERS && gone == player[..|gone|]
      ensures slot.Some? && !Arranged(kind) && Teams(kind) == 0 ==> Falling(gone, env.levelOf)
      ensures slot.Some? && !Arranged(kind) && Teams(kind) != 0 ==> Layered(gone, Teams(kind), env.levelOf)
    {
      hide Total, Teams, Need, Per, Falling, Layered, Flat, WithoutAll, Bit, Conns, Leaders, Laid, Sought, GoodGame;
      Enqueue(c, wish.level, wish.prefs, wish.tag);
      ghost var queued, r := lists, Sought(kind, lists, behind, wish);
      OutcomeQueued(wish, behind);
      slot := Match(wish, members, behind, env, random);
      gone := [];
      if slot.Some? {
        gone := if Arranged(kind) then Leaders(r.spots) else player[..Total(kind)];
        WithoutAllCounts(Flat(queued, 0), gone);
        SameSize(gone, Leaders(r.spots));
      }
    }

    lemma OutcomeQueued(wish: Wish, behind: seq<Entry>)
      requires wish.level <= MAX_LEVEL
      ensures wish.level + wish.diff < MAX_LEVEL || behind == [] ==>
                multiset(Leaders(Outcome(wish, behind).spots)) <= multiset(Conns(Flat(lists, 0)))
      ensures |Leaders(Outcome(wish, behind).spots)| == |Outcome(wish, behind).spots|
    {
      hide Searched, MaskExact, Rejected, Flat, Start, WindowExact;
      WholeSearch(lists + [behind], wish, Need(kind));
      var spots := Outcome(wish, behind).spots;
      if wish.level + wish.diff < MAX_LEVEL || behind == [] {
        forall s | s in spots ensures Stands(lists, s) {
          var i :| 0 <= i < |spots| && spots[i] == s;
          assert Near(spots[i].level, wish.level, wish.diff);
        }
        FoundAreQueued(lists, spots);
      }
    }

    lemma OutcomeFacts(wish: Wish, behind: seq<Entry>)
      requires wish.level <= MAX_LEVEL
      ensures var r := Outcome(wish, behind);
              && |r.spots| <= Need(kind) && (r.spots != [] ==> r.mask != 0)
              && MaskExact(r, wish) && Compatible(r, wish)
    {
      hide Searched, WindowExact, MaskExact, Stands, Rejected;
      WholeSearch(lists + [behind], wish, Need(kind));
    }
  }

  /** The reordering of a sorted game keeps its players, and its rounds keep falling by level. */
  method ShareOut(player: array<Conn>, players: nat, teams: nat, env: T.Reads<Conn>)
    requires 2 <= teams <= T.MAX_TEAMS && players <= player.Length && players % teams == 0
    requires Falling(player[..players], env.levelOf)
    modifies player
    ensures multiset(player[..players]) == multiset(old(player[..players]))
    ensures Layered(player[..players], teams, env.levelOf)
  {
    hide T.Rounds, Falling, Layered;
    ghost var sorted, size: nat := player[..], players / teams;
    Whole(players, teams);
    T.OrderQueue(player, players, teams, env);
    ghost var r := player[..];
    RoundsKeepBlocks(sorted, size, teams, env);
    assert sorted[..players] == old(player[..players]) && r[..players] == player[..players];
    BlocksAddUp(sorted, r, teams, size);
    SortedLayers(sorted, r, teams, size, env.levelOf);
  }

  lemma Whole(players: nat, teams: nat)
    requires teams > 0 && players % teams == 0
    ensures players / teams * teams == players
  {
  }

  lemma SameSize(a: seq<Conn>, b: seq<Conn>)
    requires multiset(a) == multiset(b)
    ensures |a| == |b|
  {
    assert |multiset(a)| == |a| && |multiset(b)| == |b|;
  }

  lemma RoundsKeepBlocks(s: seq<Conn>, size: nat, teams: nat, env: T.Reads<Conn>)
    requires 2 <= teams <= T.MAX_TEAMS && size * teams <= |s|
    ensures |T.Rounds(s, size, teams, 0, [0, 0, 0, 0], env)| == |s|
    ensures SameBlocks(s, T.Rounds(s, size, teams, 0, [0, 0, 0, 0], env), teams, size)
  {
    hide T.Rounds;
    forall b | 0 <= b < size ensures SameBlock(s, T.Rounds(s, size, teams, 0, [0, 0, 0, 0], env), teams, b) {
      T.RoundsPermuteBlocks(s, size, teams, 0, [0, 0, 0, 0], env, b);
    }
  }

  lemma FullExactly(k: Kind, n: nat)
    requires n <= Need(k)
    ensures n * Per(k) <= Total(k) && (n * Per(k) == Total(k) <==> n == Need(k)) && 0 < Need(k)
  {
    Sizes(k);
    if n < Need(k) { Apart(n, Need(k), Per(k)); }
  }

  lemma LaidPlain(k: Kind, p: seq<Conn>, leaders: seq<Conn>, members: Conn -> seq<Conn>)
    requires TeamsKnown(members) && Laid(k, p, leaders, members) && !Arranged(k) && |leaders| == Need(k)
    ensures p[..Total(k)] == leaders
  {
    forall i | 0 <= i < |leaders| ensures p[i] == leaders[i] {
      assert Slot(k, i, 0) == i;
    }
  }

  lemma StartsEmpty(k: Kind, p: seq<Conn>, members: Conn -> seq<Conn>)
    requires |p| == MAX_PLAYERS && TeamsKnown(members)
    ensures Laid(k, p, [], members) && 0 < Need(k) && 0 * Per(k) == 0
  {
    Sizes(k);
  }

  lemma NobodyLeads()
    ensures Leaders([]) == []
  {
  }

  lemma WalkOver(shelf: Shelf, level: nat, diff: nat, delta: int)
    requires level <= MAX_LEVEL && 0 <= level + delta <= MAX_LEVEL && Abs(delta) >= diff + 1
    ensures WalkFits(level, Walk(level, diff, delta)) && SpotsAlong(shelf, level, Walk(level, diff, delta)) == []
  {
  }

  /** The entries that the search loop has still to offer once it has dealt with the level at delta. */
  ghost function Onward(lists: Shelf, wish: Wish, delta: int): seq<Spot>
    requires wish.level <= MAX_LEVEL && 0 <= wish.level + delta <= MAX_LEVEL
    requires WalkFits(wish.level, Walk(wish.level, wish.diff, delta))
  {
    var walk := Walk(wish.level, wish.diff, delta);
    if walk == [] then [] else SpotsAlong(lists, wish.level, walk[1..])
  }

  lemma OneLevel(lists: Shelf, wish: Wish, delta: int, st: Search, need: nat)
    requires wish.level <= MAX_LEVEL && 0 <= wish.level + delta <= MAX_LEVEL && Abs(delta) < wish.diff + 1
    requires WalkFits(wish.level, Walk(wish.level, wish.diff, delta))
    ensures 0 <= wish.level + delta <= MAX_LEVEL
    ensures Searched(st, wish, need, SpotsAlong(lists, wish.level, Walk(wish.level, wish.diff, delta))) ==
            Searched(Searched(st, wish, need, SpotsAt(lists, wish.level + delta)), wish, need,
                     Onward(lists, wish, delta))
    ensures var next := NextDelta(wish.level, delta);
            if wish.level + next < 0 then Onward(lists, wish, delta) == []
            else wish.level + next <= MAX_LEVEL && WalkFits(wish.level, Walk(wish.level, wish.diff, next)) &&
                 Onward(lists, wish, delta) == SpotsAlong(lists, wish.level, Walk(wish.level, wish.diff, next))
  {
    hide Searched, SpotsAt;
    var walk := Walk(wish.level, wish.diff, delta);
    NextRank(wish.level, delta);
    assert walk[0] == delta;
    SearchedInParts(st, wish, need, SpotsAt(lists, wish.level + delta), SpotsAlong(lists, wish.level, walk[1..]));
    var next := NextDelta(wish.level, delta);
    if wish.level + next >= 0 {
      var rest := Walk(wish.level, wish.diff, next);
      assert walk[1..] == rest;
      forall i | 0 <= i < |rest| ensures 0 <= wish.level + rest[i] <= MAX_LEVEL { assert rest[i] == walk[i + 1]; }
    }
  }

  lemma LevelOutside(lists: Shelf, level: nat, st: Search, wish: Wish, need: nat)
    requires level <= MAX_LEVEL && !(st.lo <= level <= st.hi)
    ensures Searched(st, wish, need, SpotsAt(lists, level)) == st
  {
    OutsideWindow(st, wish, need, SpotsAt(lists, level));
  }

  lemma LeadersMore(spots: seq<Spot>, s: Spot)
    ensures (spots + [s])[..|spots + [s]| - 1] == spots
    ensures Leaders(spots + [s]) == Leaders(spots) + [s.entry.c]
  {
  }

  lemma {:induction false} NothingQueued(lists: Lists, from: nat)
    requires from <= MAX_LEVEL && forall l :: 0 <= l < MAX_LEVEL ==> lists[l] == []
    ensures Flat(lists, from) == []
    decreases MAX_LEVEL - from
  {
    if from < MAX_LEVEL { NothingQueued(lists, from + 1); }
  }

  lemma NothingToDrop(q: seq<Queued>, c: Conn)
    requires c !in Conns(q)
    ensures Without(q, c) == q
  {
  }

  lemma {:induction false} OneMore(lists: Lists, from: nat, level: nat, e: Entry)
    requires from <= level < MAX_LEVEL
    ensures multiset(Conns(Flat(lists[level := lists[level] + [e]], from))) ==
            multiset(Conns(Flat(lists, from))) + multiset{e.c}
    decreases level - from
  {
    hide Conns, Row;
    var after := lists[level := lists[level] + [e]];
    JoinConns(Row(from, lists[from]), Flat(lists, from + 1));
    JoinConns(Row(from, after[from]), Flat(after, from + 1));
    if from == level {
      SameAbove(lists, after, level, from + 1);
      RowMore(from, lists[from], e);
    } else {
      OneMore(lists, from + 1, level, e);
    }
  }

  lemma RowMore(level: nat, list: seq<Entry>, e: Entry)
    ensures multiset(Conns(Row(level, list + [e]))) == multiset(Conns(Row(level, list))) + multiset{e.c}
  {
    assert Conns(Row(level, list + [e])) == Conns(Row(level, list)) + [e.c];
  }

  lemma JoinConns(a: seq<Queued>, b: seq<Queued>)
    ensures multiset(Conns(a + b)) == multiset(Conns(a)) + multiset(Conns(b))
  {
    assert Conns(a + b) == Conns(a) + Conns(b);
  }

  lemma OtherSlots(p: seq<Conn>, k: Kind, t: nat, i: nat, x: Conn)
    requires t < Need(k) && i < Per(k) && Total(k) <= |p|
    ensures forall j :: 0 <= j < i ==> p[Slot(k, t, i) := x][Slot(k, t, j)] == p[Slot(k, t, j)]
  {
    forall j | 0 <= j < i ensures Slot(k, t, j) != Slot(k, t, i) { SlotsDistinct(k, t, j, t, i); }
  }

  lemma StillLaid(k: Kind, p: seq<Conn>, leaders: seq<Conn>, members: Conn -> seq<Conn>, t: nat, i: nat, x: Conn)
    requires TeamsKnown(members) && Laid(k, p, leaders, members) && |leaders| <= t < Need(k) && i < Per(k)
    ensures Laid(k, p[Slot(k, t, i) := x], leaders, members)
  {
    hide Slot, Member, Need;
    forall t', i' | 0 <= t' < |leaders| && 0 <= i' < Per(k) ensures Slot(k, t', i') != Slot(k, t, i) {
      SlotsDistinct(k, t', i', t, i);
    }
  }

  // ---------------------------------------------------------------- two players

  /** The second of two players can be matched with the first one. */
  predicate Suits(first: Wish, second: Wish) {
    && second.tag.Some? && first.tag == second.tag
    && Near(first.level, second.level, second.diff)
    && And(second.prefs, first.prefs) != 0
  }

  ghost predicate StaysInside(wish: Wish, behind: seq<Entry>) {
    wish.level < MAX_LEVEL && (wish.level + wish.diff < MAX_LEVEL || behind == [])
  }

  /** Two players who search one after the other in an empty queue of one against one meet exactly if they suit. */
  method TwoMeet(a: Conn, first: Wish, b: Conn, second: Wish, members: Conn -> seq<Conn>, behind: seq<Entry>,
      env: T.Reads<Conn>, random: nat)
    returns (alone: Option<nat>, game: Option<nat>)
    requires TeamsKnown(members) && StaysInside(first, behind) && StaysInside(second, behind)
    ensures alone.None?
    ensures game.Some? <==> Suits(first, second)
    ensures game.Some? ==> game.value < 32 && Bit(first.prefs, game.value) && Bit(second.prefs, game.value)
  {
    hide Flat, Conns, WithoutAll, Laid, Falling, Layered, Leaders, Bit, And, Near;
    var q := new Queue(Pg1v1);
    var none: Lists := q.lists;
    ghost var gone;
    alone, gone := q.Request(a, first, members, behind, env, random);
    FirstFindsNobody(none, a, first, behind);
    game, gone := q.Request(b, second, members, behind, env, random);
    SecondFindsFirst(none, a, first, b, second, behind);
  }

  function Joined(lists: Lists, c: Conn, wish: Wish): Lists
    requires wish.level < MAX_LEVEL
  {
    lists[wish.level := lists[wish.level] + [Entry(c, wish.prefs, wish.tag)]]
  }

  lemma FirstFindsNobody(none: Lists, a: Conn, first: Wish, behind: seq<Entry>)
    requires StaysInside(first, behind) && forall l :: 0 <= l < MAX_LEVEL ==> none[l] == []
    ensures |Sought(Pg1v1, Joined(none, a, first), behind, first).spots| < 2
  {
    var shelf: Shelf := Joined(none, a, first) + [behind];
    WholeSearch(shelf, first, 2);
    var r := Sought(Pg1v1, Joined(none, a, first), behind, first);
    hide Sought, Searched, Candidates, Start, WindowExact, MaskExact, Rejected;
    forall i | 0 <= i < |r.spots| ensures r.spots[i] == Spot(first.level, 0, Entry(a, first.prefs, first.tag)) {
      assert r.spots[i] in r.spots;
    }
    FirstTwo(r.spots);
  }

  lemma FirstTwo(s: seq<Spot>)
    requires NoDup(s)
    ensures |s| < 2 || s[0] != s[1]
  {
  }

  function SpotOf(first: Wish, a: Conn): Spot {
    Spot(first.level, 0, Entry(a, first.prefs, first.tag))
  }

  function SpotBehind(first: Wish, b: Conn, second: Wish): Spot {
    Spot(second.level, if first.level == second.level then 1 else 0, Entry(b, second.prefs, second.tag))
  }

  /** Two entries stand in the lists, and no other within reach. */
  lemma TheTwo(none: Lists, a: Conn, first: Wish, b: Conn, second: Wish, behind: seq<Entry>, shelf: Shelf)
    requires StaysInside(first, behind) && StaysInside(second, behind)
    requires forall l :: 0 <= l < MAX_LEVEL ==> none[l] == []
    requires shelf == Joined(Joined(none, a, first), b, second) + [behind]
    ensures Stands(shelf, SpotOf(first, a)) && Stands(shelf, SpotBehind(first, b, second))
    ensures forall s :: Stands(shelf, s) && Near(s.level, second.level, second.diff) ==>
              s == SpotOf(first, a) || s == SpotBehind(first, b, second)
  {
  }

  /** Of two queued players the one searching finds the other exactly if they suit. */
  lemma SecondFindsFirst(none: Lists, a: Conn, first: Wish, b: Conn, second: Wish, behind: seq<Entry>)
    requires StaysInside(first, behind) && StaysInside(second, behind)
    requires forall l :: 0 <= l < MAX_LEVEL ==> none[l] == []
    ensures var r := Sought(Pg1v1, Joined(Joined(none, a, first), b, second), behind, second);
            && (|r.spots| == 2 <==> Suits(first, second))
            && (|r.spots| == 2 ==> exists i :: 0 <= i < 2 && r.spots[i].entry.prefs == first.prefs)
  {
    var shelf: Shelf := Joined(Joined(none, a, first), b, second) + [behind];
    TheTwo(none, a, first, b, second, behind, shelf);
    var own, other := SpotBehind(first, b, second), SpotOf(first, a);
    hide Candidates, Searched, Joined, Suits;
    assert Sought(Pg1v1, Joined(Joined(none, a, first), b, second), behind, second) ==
           Searched(Start(second), second, 2, Candidates(shelf, second));
    if |Searched(Start(second), second, 2, Candidates(shelf, second)).spots| == 2 {
      FoundSuits(shelf, first, a, b, second);
    }
    if Suits(first, second) { SuitingFound(shelf, first, a, b, second); }
  }

  lemma FoundSuits(shelf: Shelf, first: Wish, a: Conn, b: Conn, second: Wish)
    requires second.level <= MAX_LEVEL
    requires forall s :: Stands(shelf, s) && Near(s.level, second.level, second.diff) ==>
               s == SpotOf(first, a) || s == SpotBehind(first, b, second)
    requires |Searched(Start(second), second, 2, Candidates(shelf, second)).spots| == 2
    ensures Suits(first, second)
    ensures var r := Searched(Start(second), second, 2, Candidates(shelf, second));
            exists i :: 0 <= i < 2 && r.spots[i].entry.prefs == first.prefs
  {
    WholeSearch(shelf, second, 2);
    var r := Searched(Start(second), second, 2, Candidates(shelf, second));
    hide Candidates, Searched, Start, Rejected, WindowExact, And, Near, Stands;
    assert r.spots[0] in r.spots && r.spots[1] in r.spots && r.spots[0] != r.spots[1];
    var i := if r.spots[0] == SpotOf(first, a) then 0 else 1;
    SharedSlot(r, second, i);
    assert r.spots[i] == SpotOf(first, a);
  }

  lemma SuitingFound(shelf: Shelf, first: Wish, a: Conn, b: Conn, second: Wish)
    requires second.level <= MAX_LEVEL && Suits(first, second)
    requires Stands(shelf, SpotOf(first, a)) && Stands(shelf, SpotBehind(first, b, second))
    ensures |Searched(Start(second), second, 2, Candidates(shelf, second)).spots| == 2
  {
    var own, other := SpotBehind(first, b, second), SpotOf(first, a);
    NonZero(second.prefs, first.prefs);
    assert Opponent(shelf, second, own, other);
    hide And, Near, Stands, Opponent, Candidates, Searched, Start;
    PairExactly(shelf, second, own);
  }

  lemma NonZero(a: bv32, b: bv32)
    requires And(a, b) != 0
    ensures a != 0
  {
  }
}
