/** Taking players out of the level lists of a queue, seen on one flat sequence from level 0 upwards. */
module QueueRemoval {
  import opened Common
  import opened LevelWalk
  import opened QueueSearch

  datatype Queued = Queued(level: nat, entry: Entry)

  function Row(level: nat, list: seq<Entry>): (r: seq<Queued>)
    ensures |r| == |list| && forall i :: 0 <= i < |list| ==> r[i] == Queued(level, list[i])
  {
    seq(|list|, i requires 0 <= i < |list| => Queued(level, list[i]))
  }

  /** The lists from one level on, in the order in which they are scanned. */
  function Flat(lists: Lists, from: nat): seq<Queued>
    requires from <= MAX_LEVEL
    decreases MAX_LEVEL - from
  {
    if from == MAX_LEVEL then [] else Row(from, lists[from]) + Flat(lists, from + 1)
  }

  function Conns(q: seq<Queued>): (r: seq<Conn>)
    ensures |r| == |q|
  {
    seq(|q|, i requires 0 <= i < |q| => q[i].entry.c)
  }

  /** The queue without its first entry for c. */
  function Without(q: seq<Queued>, c: Conn): seq<Queued> {
    var n := IndexOf(Conns(q), c);
    if n < |q| then q[..n] + q[n + 1..] else q
  }

  /** One player after the other. */
  function WithoutAll(q: seq<Queued>, cs: seq<Conn>): seq<Queued>
    decreases |cs|
  {
    if cs == [] then q else WithoutAll(Without(q, cs[0]), cs[1..])
  }

  // ---------------------------------------------------------------- conservation

  lemma ConnsWithout(q: seq<Queued>, c: Conn)
    ensures Conns(Without(q, c)) == Remove(Conns(q), c)
  {
    var n := IndexOf(Conns(q), c);
    hide IndexOf, NoDup;
    if n < |q| { assert Conns(q[..n] + q[n + 1..]) == Conns(q)[..n] + Conns(q)[n + 1..]; }
  }

  lemma {:induction false} WithoutAllCounts(q: seq<Queued>, cs: seq<Conn>)
    ensures multiset(Conns(WithoutAll(q, cs))) == multiset(Conns(q)) - multiset(cs)
    decreases |cs|
  {
    hide Conns, Without;
    if cs != [] {
      ConnsWithout(q, cs[0]);
      RemoveMultiset(Conns(q), cs[0]);
      WithoutAllCounts(Without(q, cs[0]), cs[1..]);
      assert cs == [cs[0]] + cs[1..];
      assert multiset(cs) == multiset{cs[0]} + multiset(cs[1..]);
    }
  }

  /** Keeping the entries whose player is not among cs, in their order. */
  function Others(q: seq<Queued>, cs: seq<Conn>): seq<Queued> {
    if q == [] then []
    else (if q[0].entry.c in cs then [] else [q[0]]) + Others(q[1..], cs)
  }

  lemma {:induction false} OthersAppend(a: seq<Queued>, b: seq<Queued>, cs: seq<Conn>)
    ensures Others(a + b, cs) == Others(a, cs) + Others(b, cs)
    decreases |a|
  {
    if a == [] {
      assert a + b == b;
    } else {
      assert (a + b)[1..] == a[1..] + b;
      OthersAppend(a[1..], b, cs);
    }
  }

  lemma {:induction false} OthersOfAbsent(q: seq<Queued>, c: Conn, cs: seq<Conn>)
    requires forall i :: 0 <= i < |q| ==> q[i].entry.c != c
    ensures Others(q, [c] + cs) == Others(q, cs)
    decreases |q|
  {
    if q != [] { OthersOfAbsent(q[1..], c, cs); }
  }

  /** When nobody is queued twice, exactly the entries of the given players go and the rest keeps its order. */
  lemma {:induction false} RestKeepsOrder(q: seq<Queued>, cs: seq<Conn>)
    requires NoDup(Conns(q))
    ensures WithoutAll(q, cs) == Others(q, cs)
    decreases |cs|
  {
    if cs == [] {
      NoOthers(q);
    } else {
      ConnsWithout(q, cs[0]);
      RemoveNoDup(Conns(q), cs[0]);
      RestKeepsOrder(Without(q, cs[0]), cs[1..]);
      OneStep(q, cs);
    }
  }

  lemma {:induction false} NoOthers(q: seq<Queued>)
    ensures Others(q, []) == q
    decreases |q|
  {
    if q != [] { NoOthers(q[1..]); }
  }

  lemma OneStep(q: seq<Queued>, cs: seq<Conn>)
    requires NoDup(Conns(q)) && cs != []
    ensures Others(Without(q, cs[0]), cs[1..]) == Others(q, cs)
  {
    hide Others, NoDup;
    var c, n := cs[0], IndexOf(Conns(q), cs[0]);
    if n < |q| {
      assert q == q[..n] + [q[n]] + q[n + 1..];
      OthersAround(q[..n], q[n], q[n + 1..], cs, q);
    } else {
      Absent(q, c);
      assert cs == [c] + cs[1..];
      OthersOfAbsent(q, c, cs[1..]);
    }
  }

  lemma OthersAround(a: seq<Queued>, x: Queued, b: seq<Queued>, cs: seq<Conn>, q: seq<Queued>)
    requires cs != [] && x.entry.c == cs[0] && q == a + [x] + b && NoDup(Conns(q))
    ensures Others(a + b, cs[1..]) == Others(q, cs)
  {
    var c := cs[0];
    NobodyElse(a, x, b, q);
    hide Others, Conns, NoDup;
    var tail := cs[1..];
    assert cs == [c] + tail;
    assert q == a + ([x] + b);
    OthersOfAbsent(a, c, tail);
    OthersOfAbsent(b, c, tail);
    DropOther(a, x, b, cs);
    OthersAppend(a, b, tail);
  }

  lemma DropOther(a: seq<Queued>, x: Queued, b: seq<Queued>, cs: seq<Conn>)
    requires x.entry.c in cs
    ensures Others(a + ([x] + b), cs) == Others(a, cs) + Others(b, cs)
  {
    OthersAppend(a, [x] + b, cs);
    OthersAppend([x], b, cs);
    OneOther(x, cs);
    hide Others;
    assert [] + Others(b, cs) == Others(b, cs);
  }

  lemma NobodyElse(a: seq<Queued>, x: Queued, b: seq<Queued>, q: seq<Queued>)
    requires q == a + [x] + b && NoDup(Conns(q))
    ensures forall i :: 0 <= i < |a| ==> a[i].entry.c != x.entry.c
    ensures forall i :: 0 <= i < |b| ==> b[i].entry.c != x.entry.c
  {
    assert Conns(q)[|a|] == x.entry.c;
    forall i | 0 <= i < |a| ensures a[i].entry.c != x.entry.c { assert a[i].entry.c == Conns(q)[i]; }
    forall i | 0 <= i < |b| ensures b[i].entry.c != x.entry.c { assert b[i].entry.c == Conns(q)[|a| + 1 + i]; }
  }

  lemma OneOther(x: Queued, cs: seq<Conn>)
    requires x.entry.c in cs
    ensures Others([x], cs) == []
  {
  }

  lemma Absent(q: seq<Queued>, c: Conn)
    requires c !in Conns(q)
    ensures forall i :: 0 <= i < |q| ==> q[i].entry.c != c
  {
    forall i | 0 <= i < |q| ensures q[i].entry.c != c { assert q[i].entry.c == Conns(q)[i]; }
  }

  // ---------------------------------------------------------------- the scan finds the first entry

  /** Taking one entry out of the list of one level, with nobody of that name below. */
  lemma {:induction false} RemoveAtLevel(lists: Lists, from: nat, level: nat, i: nat, c: Conn)
    requires from <= level < MAX_LEVEL && i < |lists[level]| && lists[level][i].c == c
    requires forall l, k :: from <= l < level && 0 <= k < |lists[l]| ==> lists[l][k].c != c
    requires forall k :: 0 <= k < i ==> lists[level][k].c != c
    ensures Flat(lists[level := lists[level][..i] + lists[level][i + 1..]], from) == Without(Flat(lists, from), c)
    ensures c in Conns(Flat(lists, from))
    decreases level - from
  {
    hide Without;
    var after := lists[level := lists[level][..i] + lists[level][i + 1..]];
    var row, rest := Row(from, lists[from]), Flat(lists, from + 1);
    if from == level {
      SameAbove(lists, after, level, from + 1);
      WithoutHere(row, rest, i, c);
      assert Row(from, after[from]) == row[..i] + row[i + 1..];
    } else {
      RemoveAtLevel(lists, from + 1, level, i, c);
      WithoutThere(row, rest, c);
    }
  }

  lemma FirstIs(cs: seq<Conn>, c: Conn, i: nat)
    requires i < |cs| && cs[i] == c && forall k :: 0 <= k < i ==> cs[k] != c
    ensures IndexOf(cs, c) == i
  {
  }

  lemma WithoutBetween(q: seq<Queued>, n: nat, c: Conn)
    requires n < |q| && q[n].entry.c == c && forall k :: 0 <= k < n ==> q[k].entry.c != c
    ensures Without(q, c) == q[..n] + q[n + 1..]
    ensures c in Conns(q)
  {
    assert Conns(q)[n] == c;
    FirstIs(Conns(q), c, n);
  }

  lemma WithoutHere(row: seq<Queued>, rest: seq<Queued>, i: nat, c: Conn)
    requires i < |row| && row[i].entry.c == c && forall k :: 0 <= k < i ==> row[k].entry.c != c
    ensures Without(row + rest, c) == (row[..i] + row[i + 1..]) + rest
    ensures c in Conns(row + rest)
  {
    hide Without, Conns;
    WithoutBetween(row + rest, i, c);
    assert (row + rest)[..i] + (row + rest)[i + 1..] == (row[..i] + row[i + 1..]) + rest;
  }

  lemma WithoutThere(row: seq<Queued>, rest: seq<Queued>, c: Conn)
    requires forall k :: 0 <= k < |row| ==> row[k].entry.c != c
    requires c in Conns(rest)
    ensures Without(row + rest, c) == row + Without(rest, c)
    ensures c in Conns(row + rest)
  {
    var n := IndexOf(Conns(rest), c);
    assert rest[n].entry.c == Conns(rest)[n] == c;
    forall k | 0 <= k < n ensures rest[k].entry.c != c {
      assert Conns(rest)[..n][k] == rest[k].entry.c;
    }
    SplitThere(row, rest, n, c);
  }

  lemma SplitThere(row: seq<Queued>, rest: seq<Queued>, n: nat, c: Conn)
    requires forall k :: 0 <= k < |row| ==> row[k].entry.c != c
    requires n < |rest| && rest[n].entry.c == c && forall k :: 0 <= k < n ==> rest[k].entry.c != c
    ensures Without(row + rest, c) == row + Without(rest, c)
    ensures c in Conns(row + rest)
  {
    hide Without, Conns;
    var q, m := row + rest, |row| + n;
    WithoutBetween(rest, n, c);
    WithoutBetween(q, m, c);
    assert q[..m] + q[m + 1..] == row + (rest[..n] + rest[n + 1..]);
  }

  lemma {:induction false} SameAbove(lists: Lists, after: Lists, level: nat, from: nat)
    requires level < from <= MAX_LEVEL && forall l :: level < l < MAX_LEVEL ==> lists[l] == after[l]
    ensures Flat(lists, from) == Flat(after, from)
    decreases MAX_LEVEL - from
  {
    if from < MAX_LEVEL { SameAbove(lists, after, level, from + 1); }
  }

  /** Nobody of that name in any list. */
  lemma {:induction false} NotQueued(lists: Lists, from: nat, c: Conn)
    requires from <= MAX_LEVEL
    requires forall l, k :: from <= l < MAX_LEVEL && 0 <= k < |lists[l]| ==> lists[l][k].c != c
    ensures c !in Conns(Flat(lists, from))
    decreases MAX_LEVEL - from
  {
    if from < MAX_LEVEL {
      NotQueued(lists, from + 1, c);
      var row, rest := Row(from, lists[from]), Flat(lists, from + 1);
      forall i | 0 <= i < |row + rest| ensures Conns(row + rest)[i] != c {
        if i >= |row| { assert Conns(rest)[i - |row|] != c; }
      }
    }
  }

  // ---------------------------------------------------------------- who a search takes is queued

  function Leaders(spots: seq<Spot>): (r: seq<Conn>)
    ensures |r| == |spots|
  {
    seq(|spots|, i requires 0 <= i < |spots| => spots[i].entry.c)
  }

  function AllSpots(lists: Lists, from: nat): seq<Spot>
    requires from <= MAX_LEVEL
    decreases MAX_LEVEL - from
  {
    if from == MAX_LEVEL then [] else SpotsAt(lists, from) + AllSpots(lists, from + 1)
  }

  lemma {:induction false} AllSpotsMembers(lists: Lists, from: nat, spot: Spot)
    requires from <= MAX_LEVEL && Stands(lists, spot) && from <= spot.level
    ensures spot in AllSpots(lists, from)
    decreases MAX_LEVEL - from
  {
    AtMembers(lists, from, spot);
    if spot.level > from { AllSpotsMembers(lists, from + 1, spot); }
  }

  lemma {:induction false} SameConns(lists: Lists, from: nat)
    requires from <= MAX_LEVEL
    ensures Leaders(AllSpots(lists, from)) == Conns(Flat(lists, from))
    decreases MAX_LEVEL - from
  {
    if from < MAX_LEVEL {
      SameConns(lists, from + 1);
      LeadersJoin(SpotsAt(lists, from), AllSpots(lists, from + 1));
      ConnsJoin(Row(from, lists[from]), Flat(lists, from + 1));
      LeadersOfRow(lists, from);
      hide Leaders, Conns, SpotsAt, Row;
    }
  }

  lemma LeadersJoin(a: seq<Spot>, b: seq<Spot>)
    ensures Leaders(a + b) == Leaders(a) + Leaders(b)
  {
  }

  lemma ConnsJoin(a: seq<Queued>, b: seq<Queued>)
    ensures Conns(a + b) == Conns(a) + Conns(b)
  {
  }

  lemma LeadersOfRow(lists: Lists, level: nat)
    requires level < MAX_LEVEL
    ensures Leaders(SpotsAt(lists, level)) == Conns(Row(level, lists[level]))
  {
  }

  lemma {:induction false} LeadersIncluded(a: seq<Spot>, b: seq<Spot>)
    requires NoDup(a) && forall s :: s in a ==> s in b
    ensures multiset(Leaders(a)) <= multiset(Leaders(b))
    decreases |a|
  {
    if a != [] {
      var s := a[0];
      var b' := Remove(b, s);
      forall x | x in a[1..] ensures x in b' {
        RemoveMembers(b, s, x);
      }
      LeadersIncluded(a[1..], b');
      assert Leaders(a) == [s.entry.c] + Leaders(a[1..]);
      OneLess(b, s);
    }
  }

  lemma OneLess(b: seq<Spot>, s: Spot)
    requires s in b
    ensures multiset(Leaders(b)) == multiset(Leaders(Remove(b, s))) + multiset{s.entry.c}
  {
    var x, y := RemoveParts(b, s);
    hide Remove;
    LeadersJoin(x, [s] + y);
    LeadersJoin([s], y);
    LeadersJoin(x, y);
    assert Leaders([s]) == [s.entry.c];
    hide Leaders;
    MiddleCounts(Leaders(x), s.entry.c, Leaders(y));
    assert multiset(Leaders(x) + ([s.entry.c] + Leaders(y)))[s.entry.c] > 0;
  }

  /** A search can only take queued entries: counted with repetitions, its leaders are among the queued players. */
  lemma FoundAreQueued(lists: Lists, spots: seq<Spot>)
    requires NoDup(spots) && forall s :: s in spots ==> Stands(lists, s)
    ensures multiset(Leaders(spots)) <= multiset(Conns(Flat(lists, 0)))
  {
    forall s | s in spots ensures s in AllSpots(lists, 0) { AllSpotsMembers(lists, 0, s); }
    hide AllSpots;
    LeadersIncluded(spots, AllSpots(lists, 0));
    SameConns(lists, 0);
  }
}
