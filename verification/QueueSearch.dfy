/**
 One search through the level lists of a queue: the entries are offered in the walk's order, and each entry that
 fits narrows the window of levels and the set of map preferences for the ones after it.
 */
module QueueSearch {
  import opened Common
  import opened MapPrefs
  import opened LevelWalk

  type Conn = nat

  /** A queued player or team leader; a client without a version check has no tag. */
  datatype Entry = Entry(c: Conn, prefs: bv32, tag: Option<string>)

  /** An entry and the place where it stands. */
  datatype Spot = Spot(level: nat, index: nat, entry: Entry)

  /** What the searching player brings, and the largest level difference. */
  datatype Wish = Wish(level: nat, prefs: bv32, tag: Option<string>, diff: nat)

  /** The running state of a search: common preferences, window of levels, entries taken. */
  datatype Search = Search(mask: bv32, lo: int, hi: int, spots: seq<Spot>)

  type Lists = s: seq<seq<Entry>> | |s| == MAX_LEVEL witness seq(MAX_LEVEL, i => [])

  /**
   The lists that a search reaches: those of the queue, and what lies behind them. The loop's guard lets the index
   MAX_LEVEL pass, where the original reads the first list of the next queue.
   */
  type Shelf = s: seq<seq<Entry>> | |s| == MAX_LEVEL + 1 witness seq(MAX_LEVEL + 1, i => [])

  function Start(wish: Wish): Search {
    Search(wish.prefs, if wish.level - wish.diff < 0 then 0 else wish.level - wish.diff, wish.level + wish.diff, [])
  }

  /** Only a client that passed the version check is ever matched, with clients of its own version. */
  predicate SameTag(entry: Entry, wish: Wish) {
    wish.tag.Some? && entry.tag == wish.tag
  }

  predicate Fits(st: Search, wish: Wish, spot: Spot) {
    && st.lo <= spot.level <= st.hi
    && SameTag(spot.entry, wish)
    && And(st.mask, spot.entry.prefs) != 0
  }

  function Taken(st: Search, wish: Wish, spot: Spot): Search {
    Search(And(st.mask, spot.entry.prefs),
           if spot.level - wish.diff > st.lo then spot.level - wish.diff else st.lo,
           if spot.level + wish.diff < st.hi then spot.level + wish.diff else st.hi,
           st.spots + [spot])
  }

  function Offered(st: Search, wish: Wish, spot: Spot): Search {
    if Fits(st, wish, spot) then Taken(st, wish, spot) else st
  }

  /** Offering one entry after the other, up to the number needed. */
  function Searched(st: Search, wish: Wish, need: nat, spots: seq<Spot>): Search
    decreases |spots|
  {
    if |st.spots| == need || spots == [] then st else Searched(Offered(st, wish, spots[0]), wish, need, spots[1..])
  }

  function SpotsAt(lists: seq<seq<Entry>>, level: nat): (r: seq<Spot>)
    requires level < |lists|
    ensures |r| == |lists[level]|
  {
    seq(|lists[level]|, i requires 0 <= i < |lists[level]| => Spot(level, i, lists[level][i]))
  }

  ghost predicate WalkFits(level: nat, walk: seq<int>) {
    forall i :: 0 <= i < |walk| ==> 0 <= level + walk[i] <= MAX_LEVEL
  }

  /** The entries of the visited levels, in the order of the visit. */
  function SpotsAlong(lists: Shelf, level: nat, walk: seq<int>): seq<Spot>
    requires WalkFits(level, walk)
    decreases |walk|
  {
    if walk == [] then [] else SpotsAt(lists, level + walk[0]) + SpotsAlong(lists, level, walk[1..])
  }

  ghost predicate Stands(lists: seq<seq<Entry>>, spot: Spot) {
    spot.level < |lists| && spot.index < |lists[spot.level]| && spot.entry == lists[spot.level][spot.index]
  }

  // ---------------------------------------------------------------- what is offered

  lemma InRange(wish: Wish)
    requires wish.level <= MAX_LEVEL
    ensures WalkFits(wish.level, Walk(wish.level, wish.diff, 0))
  {
    var walk := Walk(wish.level, wish.diff, 0);
    forall i | 0 <= i < |walk| ensures 0 <= wish.level + walk[i] <= MAX_LEVEL {
      WalkVisits(wish.level, wish.diff, 0, walk[i]);
    }
  }

  function Candidates(lists: Shelf, wish: Wish): seq<Spot>
    requires wish.level <= MAX_LEVEL
  {
    InRange(wish);
    SpotsAlong(lists, wish.level, Walk(wish.level, wish.diff, 0))
  }

  lemma {:induction false} AlongMembers(lists: Shelf, level: nat, walk: seq<int>, spot: Spot)
    requires WalkFits(level, walk)
    ensures spot in SpotsAlong(lists, level, walk) <==> Stands(lists, spot) && spot.level - level in walk
    decreases |walk|
  {
    if walk != [] {
      AlongMembers(lists, level, walk[1..], spot);
      AtMembers(lists, level + walk[0], spot);
      assert walk == [walk[0]] + walk[1..];
    }
  }

  lemma AtMembers(lists: seq<seq<Entry>>, level: nat, spot: Spot)
    requires level < |lists|
    ensures spot in SpotsAt(lists, level) <==> Stands(lists, spot) && spot.level == level
  {
    if Stands(lists, spot) && spot.level == level {
      assert SpotsAt(lists, level)[spot.index] == spot;
    }
  }

  lemma {:induction false} AlongDistinct(lists: Shelf, level: nat, walk: seq<int>)
    requires WalkFits(level, walk) && NoDup(walk)
    ensures NoDup(SpotsAlong(lists, level, walk))
    decreases |walk|
  {
    if walk != [] {
      AlongDistinct(lists, level, walk[1..]);
      var rest := SpotsAlong(lists, level, walk[1..]);
      forall i | 0 <= i < |rest| ensures rest[i].level != level + walk[0] {
        AlongMembers(lists, level, walk[1..], rest[i]);
        assert rest[i] in rest;
      }
    }
  }

  /** Every entry within reach of the searcher's level is offered, once. */
  lemma CandidatesAreAllInReach(lists: Shelf, wish: Wish)
    requires wish.level <= MAX_LEVEL
    ensures NoDup(Candidates(lists, wish))
    ensures forall s :: s in Candidates(lists, wish) <==> Stands(lists, s) && Abs(s.level - wish.level) <= wish.diff
  {
    InRange(wish);
    var walk := Walk(wish.level, wish.diff, 0);
    forall i, j | 0 <= i < j < |walk| ensures walk[i] != walk[j] {
      WalkOrder(wish.level, wish.diff, 0, i, j);
    }
    AlongDistinct(lists, wish.level, walk);
    forall s ensures s in Candidates(lists, wish) <==> Stands(lists, s) && Abs(s.level - wish.level) <= wish.diff {
      AlongMembers(lists, wish.level, walk, s);
      WalkVisits(wish.level, wish.diff, 0, s.level - wish.level);
    }
  }

  /** A foreign entry is offered exactly if there is one and the unshrunk window is not below MAX_LEVEL. */
  lemma ReadsBehindExactly(lists: Shelf, wish: Wish)
    requires wish.level <= MAX_LEVEL
    ensures (exists s :: s in Candidates(lists, wish) && s.level == MAX_LEVEL) <==>
            wish.level + wish.diff >= MAX_LEVEL && lists[MAX_LEVEL] != []
  {
    CandidatesAreAllInReach(lists, wish);
    hide Candidates;
    if wish.level + wish.diff >= MAX_LEVEL && lists[MAX_LEVEL] != [] {
      assert Stands(lists, Spot(MAX_LEVEL, 0, lists[MAX_LEVEL][0]));
      assert Spot(MAX_LEVEL, 0, lists[MAX_LEVEL][0]) in Candidates(lists, wish);
    }
  }

  // ---------------------------------------------------------------- safety

  ghost predicate NearAll(l: nat, spots: seq<Spot>, diff: nat) {
    forall i :: 0 <= i < |spots| ==> Near(l, spots[i].level, diff)
  }

  ghost predicate TickedByAll(k: nat, spots: seq<Spot>) {
    forall i :: 0 <= i < |spots| ==> Bit(spots[i].entry.prefs, k)
  }

  /** The window holds exactly the levels within reach of the searcher and of every entry taken. */
  ghost predicate WindowExact(st: Search, wish: Wish) {
    forall l: nat :: st.lo <= l <= st.hi <==> Near(l, wish.level, wish.diff) && NearAll(l, st.spots, wish.diff)
  }

  predicate Near(a: nat, b: nat, diff: nat) {
    Abs(a - b) <= diff
  }

  /** The mask holds exactly the slots ticked by the searcher and by every entry taken. */
  ghost predicate MaskExact(st: Search, wish: Wish) {
    forall k: nat :: Bit(st.mask, k) <==> Bit(wish.prefs, k) && TickedByAll(k, st.spots)
  }

  ghost predicate Compatible(st: Search, wish: Wish) {
    && (forall i :: 0 <= i < |st.spots| ==> SameTag(st.spots[i].entry, wish))
    && (forall i :: 0 <= i < |st.spots| ==> Near(st.spots[i].level, wish.level, wish.diff))
    && (forall i, j :: 0 <= i < j < |st.spots| ==> Near(st.spots[i].level, st.spots[j].level, wish.diff))
    && (st.spots != [] ==> st.mask != 0)
  }

  lemma NearAllMore(l: nat, spots: seq<Spot>, s: Spot, diff: nat)
    ensures NearAll(l, spots + [s], diff) <==> NearAll(l, spots, diff) && Near(l, s.level, diff)
  {
    var all := spots + [s];
    assert all[|spots|] == s && forall i :: 0 <= i < |spots| ==> all[i] == spots[i];
    if NearAll(l, all, diff) {
      forall i | 0 <= i < |spots| ensures Near(l, spots[i].level, diff) { assert Near(l, all[i].level, diff); }
      assert Near(l, all[|spots|].level, diff);
    }
  }

  lemma TickedByAllMore(k: nat, spots: seq<Spot>, s: Spot)
    ensures TickedByAll(k, spots + [s]) <==> TickedByAll(k, spots) && Bit(s.entry.prefs, k)
  {
    hide Bit;
    var all := spots + [s];
    assert all[|spots|] == s && forall i :: 0 <= i < |spots| ==> all[i] == spots[i];
    if TickedByAll(k, all) {
      forall i | 0 <= i < |spots| ensures Bit(spots[i].entry.prefs, k) { assert Bit(all[i].entry.prefs, k); }
      assert Bit(all[|spots|].entry.prefs, k);
    }
  }

  lemma WindowTaken(st: Search, wish: Wish, spot: Spot)
    requires WindowExact(st, wish)
    ensures WindowExact(Taken(st, wish, spot), wish)
  {
    hide And, NearAll;
    var st' := Taken(st, wish, spot);
    forall l: nat
      ensures st'.lo <= l <= st'.hi <==> Near(l, wish.level, wish.diff) && NearAll(l, st'.spots, wish.diff)
    {
      NearAllMore(l, st.spots, spot, wish.diff);
    }
  }

  lemma MaskTaken(st: Search, wish: Wish, spot: Spot)
    requires MaskExact(st, wish)
    ensures MaskExact(Taken(st, wish, spot), wish)
  {
    hide Bit, And, TickedByAll;
    var st' := Taken(st, wish, spot);
    forall k: nat ensures Bit(st'.mask, k) <==> Bit(wish.prefs, k) && TickedByAll(k, st'.spots) {
      BitAnd(st.mask, spot.entry.prefs, k);
      TickedByAllMore(k, st.spots, spot);
    }
  }

  lemma TakenCompatible(st: Search, wish: Wish, spot: Spot)
    requires Fits(st, wish, spot) && WindowExact(st, wish) && Compatible(st, wish)
    ensures Compatible(Taken(st, wish, spot), wish)
  {
    hide And;
    assert Near(spot.level, wish.level, wish.diff) && NearAll(spot.level, st.spots, wish.diff);
  }

  /** Any two entries taken are within reach of each other and of the searcher, share the searcher's version tag,
      and the common preferences stay non-empty and are exactly the slots that everyone ticked. */
  lemma {:induction false} SearchSafe(st: Search, wish: Wish, need: nat, spots: seq<Spot>)
    requires WindowExact(st, wish) && MaskExact(st, wish) && Compatible(st, wish)
    ensures var r := Searched(st, wish, need, spots);
            WindowExact(r, wish) && MaskExact(r, wish) && Compatible(r, wish)
    decreases |spots|
  {
    hide WindowExact, MaskExact, Compatible, Taken, Fits;
    if |st.spots| != need && spots != [] {
      if Fits(st, wish, spots[0]) {
        WindowTaken(st, wish, spots[0]);
        MaskTaken(st, wish, spots[0]);
        TakenCompatible(st, wish, spots[0]);
      }
      SearchSafe(Offered(st, wish, spots[0]), wish, need, spots[1..]);
    }
  }

  lemma StartSafe(wish: Wish)
    ensures WindowExact(Start(wish), wish) && MaskExact(Start(wish), wish) && Compatible(Start(wish), wish)
  {
  }

  // ---------------------------------------------------------------- distinctness and maximality

  /** The entries taken are among those offered, each once, and never more than needed. */
  lemma {:induction false} SearchTakesOffered(st: Search, wish: Wish, need: nat, spots: seq<Spot>)
    requires NoDup(st.spots + spots) && |st.spots| <= need
    ensures var r := Searched(st, wish, need, spots);
            && NoDup(r.spots) && st.spots <= r.spots && |r.spots| <= need
            && forall s :: s in r.spots ==> s in st.spots + spots
    decreases |spots|
  {
    hide Fits;
    if |st.spots| != need && spots != [] {
      var st' := Offered(st, wish, spots[0]);
      if Fits(st, wish, spots[0]) {
        assert st'.spots + spots[1..] == st.spots + spots;
      } else {
        Skipped(st.spots, spots);
      }
      SearchTakesOffered(st', wish, need, spots[1..]);
    } else {
      assert forall i :: 0 <= i < |st.spots| ==> (st.spots + spots)[i] == st.spots[i];
    }
  }

  lemma Skipped(taken: seq<Spot>, spots: seq<Spot>)
    requires NoDup(taken + spots) && spots != []
    ensures NoDup(taken + spots[1..])
    ensures forall s :: s in taken + spots[1..] ==> s in taken + spots
  {
    forall i, j | 0 <= i < j < |taken + spots[1..]| ensures (taken + spots[1..])[i] != (taken + spots[1..])[j] {
      var i', j' := if i < |taken| then i else i + 1, if j < |taken| then j else j + 1;
      assert (taken + spots)[i'] != (taken + spots)[j'];
    }
  }

  /** An entry that the search had to leave aside, judged by the state at the end. */
  predicate Rejected(r: Search, wish: Wish, s: Spot) {
    || !(r.lo <= s.level <= r.hi)
    || !SameTag(s.entry, wish)
    || And(r.mask, s.entry.prefs) == 0
  }

  lemma AndShrinks(mask: bv32, p: bv32, q: bv32)
    requires And(mask, q) == 0
    ensures And(And(mask, p), q) == 0
  {
  }

  lemma {:induction false} RejectionLasts(st: Search, wish: Wish, need: nat, spots: seq<Spot>, s: Spot)
    requires Rejected(st, wish, s)
    ensures Rejected(Searched(st, wish, need, spots), wish, s)
    decreases |spots|
  {
    hide And;
    if |st.spots| != need && spots != [] {
      if And(st.mask, s.entry.prefs) == 0 { AndShrinks(st.mask, spots[0].entry.prefs, s.entry.prefs); }
      RejectionLasts(Offered(st, wish, spots[0]), wish, need, spots[1..], s);
    }
  }

  /** A search that ends without enough entries has overlooked none: every entry offered was taken or rejected. */
  lemma {:induction false} SearchMaximal(st: Search, wish: Wish, need: nat, spots: seq<Spot>, s: Spot)
    requires |st.spots| <= need && s in spots && NoDup(st.spots + spots)
    ensures var r := Searched(st, wish, need, spots);
            |r.spots| < need ==> s in r.spots || Rejected(r, wish, s)
    decreases |spots|
  {
    hide Fits, Rejected;
    if |st.spots| != need {
      var st' := Offered(st, wish, spots[0]);
      if Fits(st, wish, spots[0]) {
        assert st'.spots + spots[1..] == st.spots + spots;
      } else {
        Skipped(st.spots, spots);
      }
      if s == spots[0] {
        NotFitting(st, wish, s);
        if Rejected(st, wish, s) {
          RejectionLasts(st', wish, need, spots[1..], s);
        } else {
          SearchTakesOffered(st', wish, need, spots[1..]);
          assert st'.spots[|st.spots|] == s;
        }
      } else {
        SearchMaximal(st', wish, need, spots[1..], s);
      }
    }
  }

  lemma NotFitting(st: Search, wish: Wish, s: Spot)
    ensures Rejected(st, wish, s) <==> !Fits(st, wish, s)
  {
  }

  /** Both together, for a whole search over the lists of a queue. */
  lemma WholeSearch(lists: Shelf, wish: Wish, need: nat)
    requires wish.level <= MAX_LEVEL
    ensures var r := Searched(Start(wish), wish, need, Candidates(lists, wish));
            && WindowExact(r, wish) && MaskExact(r, wish) && Compatible(r, wish)
            && NoDup(r.spots) && |r.spots| <= need
            && (forall s :: s in r.spots ==> Stands(lists, s))
            && (|r.spots| < need ==> forall s :: Stands(lists, s) ==> s in r.spots || Rejected(r, wish, s))
  {
    hide Rejected, Compatible, MaskExact;
    StartSafe(wish);
    var spots := Candidates(lists, wish);
    assert Start(wish).spots + spots == spots;
    CandidatesAreAllInReach(lists, wish);
    SearchSafe(Start(wish), wish, need, spots);
    SearchTakesOffered(Start(wish), wish, need, spots);
    var r := Searched(Start(wish), wish, need, spots);
    hide Searched, Candidates, Start;
    if |r.spots| < need {
      forall s | Stands(lists, s) ensures s in r.spots || Rejected(r, wish, s) {
        if s in spots { SearchMaximal(Start(wish), wish, need, spots, s); } else { OutOfReach(r, wish, s); }
      }
    }
  }

  lemma {:induction false} SearchedInParts(st: Search, wish: Wish, need: nat, a: seq<Spot>, b: seq<Spot>)
    ensures Searched(st, wish, need, a + b) == Searched(Searched(st, wish, need, a), wish, need, b)
    decreases |a|
  {
    if a == [] {
      assert a + b == b;
    } else {
      assert (a + b)[1..] == a[1..] + b;
      SearchedInParts(Offered(st, wish, a[0]), wish, need, a[1..], b);
    }
  }

  /** Nobody taken so far objects to s, nor does the searcher: in reach, of one version, with a slot that all ticked. */
  ghost predicate Welcome(taken: seq<Spot>, wish: Wish, s: Spot) {
    && Near(s.level, wish.level, wish.diff) && NearAll(s.level, taken, wish.diff)
    && SameTag(s.entry, wish)
    && exists k: nat :: k < 32 && Bit(wish.prefs, k) && TickedByAll(k, taken) && Bit(s.entry.prefs, k)
  }

  lemma FitsExactly(st: Search, wish: Wish, s: Spot)
    requires WindowExact(st, wish) && MaskExact(st, wish)
    ensures Fits(st, wish, s) <==> Welcome(st.spots, wish, s)
  {
    hide And, Bit, Near, NearAll, TickedByAll, SameTag;
    CommonSlot(st.mask, s.entry.prefs);
  }

  lemma NeverAgain(spots: seq<Spot>, i: nat, taken: seq<Spot>)
    requires NoDup(spots) && NoDup(taken) && i <= |spots| && forall s :: s in taken ==> s in spots[..i]
    ensures NoDup(taken + spots[i..])
  {
    var all := taken + spots[i..];
    forall a, b | 0 <= a < b < |all| ensures all[a] != all[b] {
      if a < |taken| <= b {
        assert taken[a] in taken;
        var k :| 0 <= k < |spots[..i]| && spots[..i][k] == taken[a];
        assert spots[k] != spots[i + (b - |taken|)];
      }
    }
  }

  /** First come, first served: who is offered is taken exactly if room is left and nobody taken before objects. */
  lemma TakenInTurn(wish: Wish, need: nat, spots: seq<Spot>, i: nat)
    requires NoDup(spots) && i < |spots|
    ensures var earlier := Searched(Start(wish), wish, need, spots[..i]).spots;
            spots[i] in Searched(Start(wish), wish, need, spots).spots <==>
            |earlier| < need && Welcome(earlier, wish, spots[i])
  {
    var s, st, rest := spots[i], Searched(Start(wish), wish, need, spots[..i]), spots[i + 1..];
    assert spots == spots[..i] + spots[i..] && spots[i..][1..] == rest;
    assert Start(wish).spots + spots[..i] == spots[..i];
    SearchedInParts(Start(wish), wish, need, spots[..i], spots[i..]);
    SearchTakesOffered(Start(wish), wish, need, spots[..i]);
    StartSafe(wish);
    SearchSafe(Start(wish), wish, need, spots[..i]);
    FitsExactly(st, wish, s);
    assert s !in st.spots;
    hide Fits, Start, Welcome;
    var st' := Offered(st, wish, s);
    assert forall x :: x in st'.spots ==> x in spots[..i + 1];
    NeverAgain(spots, i + 1, st'.spots);
    if |st.spots| < need {
      SearchTakesOffered(st', wish, need, rest);
      if Welcome(st.spots, wish, s) { assert st'.spots[|st.spots|] == s; } else { NotLater(spots, i, st.spots); }
    }
  }

  lemma NotLater(spots: seq<Spot>, i: nat, taken: seq<Spot>)
    requires NoDup(spots) && i < |spots| && spots[i] !in taken
    ensures spots[i] !in taken + spots[i + 1..]
  {
  }

  /** Another entry that the searcher could play a game of two with. */
  ghost predicate Opponent(lists: Shelf, wish: Wish, own: Spot, s: Spot) {
    && Stands(lists, s) && s != own && SameTag(s.entry, wish) && Near(s.level, wish.level, wish.diff)
    && And(wish.prefs, s.entry.prefs) != 0
  }

  /** A queued player who searches a game of two finds one exactly if there is anybody to play with. */
  lemma PairExactly(lists: Shelf, wish: Wish, own: Spot)
    requires wish.level <= MAX_LEVEL && wish.prefs != 0 && wish.tag.Some?
    requires Stands(lists, own) && own.level == wish.level
    requires own.entry.prefs == wish.prefs && own.entry.tag == wish.tag
    ensures |Searched(Start(wish), wish, 2, Candidates(lists, wish)).spots| == 2 <==>
            exists s :: Opponent(lists, wish, own, s)
  {
    WholeSearch(lists, wish, 2);
    var r := Searched(Start(wish), wish, 2, Candidates(lists, wish));
    hide Searched, Candidates, Start, And, Bit;
    if |r.spots| == 2 {
      var i := if r.spots[0] == own then 1 else 0;
      assert r.spots[0] != r.spots[1] && r.spots[i] in r.spots;
      SharedSlot(r, wish, i);
      assert Opponent(lists, wish, own, r.spots[i]);
    } else {
      if own !in r.spots { OwnFits(r, wish, own); }
      forall s | Opponent(lists, wish, own, s) ensures false { OpponentFits(lists, r, wish, own, s); }
    }
  }

  lemma SharedSlot(r: Search, wish: Wish, i: nat)
    requires MaskExact(r, wish) && Compatible(r, wish) && i < |r.spots|
    ensures And(wish.prefs, r.spots[i].entry.prefs) != 0
  {
    hide And, Bit;
    CommonSlot(r.mask, r.mask);
    Itself(r.mask);
    var k: nat :| k < 32 && Bit(r.mask, k);
    assert TickedByAll(k, r.spots);
    CommonSlot(wish.prefs, r.spots[i].entry.prefs);
  }

  lemma Itself(m: bv32)
    ensures And(m, m) == m
  {
  }

  /** The searcher's own entry fits whatever was taken without it. */
  lemma OwnFits(r: Search, wish: Wish, own: Spot)
    requires WindowExact(r, wish) && MaskExact(r, wish) && Compatible(r, wish)
    requires wish.prefs != 0 && wish.tag.Some? && own.level == wish.level
    requires own.entry.prefs == wish.prefs && own.entry.tag == wish.tag
    ensures !Rejected(r, wish, own)
  {
    assert NearAll(own.level, r.spots, wish.diff) && Near(own.level, wish.level, wish.diff);
    hide And, Bit, Near, NearAll;
    Itself(r.mask);
    Itself(wish.prefs);
    CommonSlot(r.mask, r.mask);
    CommonSlot(wish.prefs, wish.prefs);
    CommonSlot(r.mask, wish.prefs);
    if r.spots == [] {
      var k: nat :| k < 32 && Bit(wish.prefs, k);
      assert TickedByAll(k, r.spots);
      assert Bit(r.mask, k);
    }
  }

  /** A search that holds nobody but the searcher has not been offered an opponent. */
  lemma OpponentFits(lists: Shelf, r: Search, wish: Wish, own: Spot, s: Spot)
    requires WindowExact(r, wish) && MaskExact(r, wish) && r.spots == [own]
    requires own.level == wish.level && own.entry.prefs == wish.prefs
    requires Opponent(lists, wish, own, s)
    ensures !Rejected(r, wish, s)
  {
    assert NearAll(s.level, r.spots, wish.diff);
    hide And, Bit, Near, NearAll;
    CommonSlot(wish.prefs, s.entry.prefs);
    var k: nat :| k < 32 && Bit(wish.prefs, k) && Bit(s.entry.prefs, k);
    assert TickedByAll(k, r.spots);
    assert Bit(r.mask, k);
    CommonSlot(r.mask, s.entry.prefs);
  }

  /** A game that may be played: all within reach of each other, of one version, and the map slot ticked by all. */
  ghost predicate GoodGame(spots: seq<Spot>, wish: Wish, slot: nat) {
    && Bit(wish.prefs, slot)
    && (forall i :: 0 <= i < |spots| ==> Bit(spots[i].entry.prefs, slot))
    && (forall i :: 0 <= i < |spots| ==> SameTag(spots[i].entry, wish))
    && (forall i :: 0 <= i < |spots| ==> Near(spots[i].level, wish.level, wish.diff))
    && (forall i, j :: 0 <= i < j < |spots| ==> Near(spots[i].level, spots[j].level, wish.diff))
  }

  lemma GoodFrom(r: Search, wish: Wish, slot: nat)
    requires MaskExact(r, wish) && Compatible(r, wish) && Bit(r.mask, slot)
    ensures GoodGame(r.spots, wish, slot)
  {
    assert TickedByAll(slot, r.spots);
    hide Bit, Near, MaskExact, SameTag;
  }

  lemma OutOfReach(r: Search, wish: Wish, s: Spot)
    requires WindowExact(r, wish) && !(Abs(s.level - wish.level) <= wish.diff)
    ensures Rejected(r, wish, s)
  {
    hide And;
    assert !Near(s.level, wish.level, wish.diff);
  }
}
