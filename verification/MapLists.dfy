/** The maps of one game client: a table of distinct names, and for every queue up to 32 numbers into that table. */
module MapLists {
  import opened Common
  import MapPrefs

  const MAXMAPS: nat := 100
  const MAXMAPS_PER_QUEUE: nat := 32
  const QUEUES: nat := 18

  /** A line of the maps file: a map offered in a queue. */
  datatype Line = Line(name: string, queue: nat)

  function FirstFew(names: seq<string>): seq<string> {
    if |names| <= MAXMAPS_PER_QUEUE then names else names[..MAXMAPS_PER_QUEUE]
  }

  /** The names that the lines offer in one queue, in their order. */
  function Named(lines: seq<Line>, q: nat): seq<string> {
    if lines == [] then []
    else Named(lines[..|lines| - 1], q) + (if lines[|lines| - 1].queue == q then [lines[|lines| - 1].name] else [])
  }

  /** One queue's row: how many maps, their numbers, and zeros. */
  ghost predicate RowValid(row: seq<nat>, number: nat) {
    && |row| == MAXMAPS_PER_QUEUE + 1 && row[0] <= MAXMAPS_PER_QUEUE
    && (forall n :: 1 <= n <= row[0] ==> row[n] < number)
    && (forall n :: row[0] < n <= MAXMAPS_PER_QUEUE ==> row[n] == 0)
  }

  ghost function NamesOf(row: seq<nat>, names: seq<string>): (r: seq<string>)
    requires RowValid(row, |names|)
    ensures |r| == row[0]
  {
    seq(row[0], k requires 0 <= k < row[0] => names[row[k + 1]])
  }

  function RowWith(row: seq<nat>, j: nat): seq<nat>
    requires |row| == MAXMAPS_PER_QUEUE + 1 && row[0] < MAXMAPS_PER_QUEUE
  {
    var n: nat := row[0] + 1;
    [n] + row[1..n] + [j] + row[n + 1..]
  }

  /** Appending to a row appends to the queue's maps. */
  lemma RowAppended(row: seq<nat>, names: seq<string>, j: nat)
    requires RowValid(row, |names|) && row[0] < MAXMAPS_PER_QUEUE && j < |names|
    ensures RowValid(RowWith(row, j), |names|)
    ensures NamesOf(RowWith(row, j), names) == NamesOf(row, names) + [names[j]]
  {
  }

  lemma TableAppended(row: seq<nat>, names: seq<string>, name: string)
    requires RowValid(row, |names|)
    ensures RowValid(row, |names + [name]|) && NamesOf(row, names + [name]) == NamesOf(row, names)
  {
  }

  class MapTable {
    const names: array<string>
    var number: nat
    /** Column 0 holds the number of maps of a queue, the other columns their numbers. */
    const slots: array2<nat>

    ghost predicate Valid()
      reads this, names, slots
    {
      && names.Length == MAXMAPS && number <= MAXMAPS
      && slots.Length0 == QUEUES && slots.Length1 == MAXMAPS_PER_QUEUE + 1
      && NoDup(names[..number])
      && forall q :: 0 <= q < QUEUES ==> RowValid(Row(q), number)
    }

    ghost function Row(q: nat): (r: seq<nat>)
      requires q < slots.Length0 && slots.Length1 == MAXMAPS_PER_QUEUE + 1
      reads slots
      ensures |r| == MAXMAPS_PER_QUEUE + 1 && forall n :: 0 <= n <= MAXMAPS_PER_QUEUE ==> r[n] == slots[q, n]
    {
      seq(MAXMAPS_PER_QUEUE + 1, n requires 0 <= n <= MAXMAPS_PER_QUEUE reads slots => slots[q, n])
    }

    /** The maps of a queue, by slot. */
    ghost function Offered(q: nat): (r: seq<string>)
      requires Valid() && q < QUEUES
      reads this, names, slots
      ensures |r| == slots[q, 0] <= MAXMAPS_PER_QUEUE
    {
      NamesOf(Row(q), names[..number])
    }

    constructor ()
      ensures Valid() && fresh(names) && fresh(slots) && number == 0
      ensures forall q :: 0 <= q < QUEUES ==> Offered(q) == []
    {
      names := new string[MAXMAPS](i => "");
      slots := new nat[QUEUES, MAXMAPS_PER_QUEUE + 1]((i, j) => 0);
      number := 0;
    }

    /**
     Looks the name up, or appends it to the table. The original would write a hundred-and-first name behind the
     table; that is the refusal here.
     */
    method NumberOf(name: string) returns (ok: bool, j: nat)
      requires Valid()
      modifies this, names
      ensures Valid() && ok == (old(number) < MAXMAPS || name in old(names[..number]))
      ensures ok ==> j < number && names[j] == name
      ensures names[..number] == old(names[..number]) + (if !ok || name in old(names[..number]) then [] else [name])
      ensures forall q :: 0 <= q < QUEUES ==> Offered(q) == old(Offered(q))
    {
      hide RowValid, NamesOf;
      j := 0;
      while j < number && names[j] != name
        invariant j <= number && name !in names[..j]
      {
        j := j + 1;
      }
      ghost var before := names[..number];
      assert j < number ==> before[j] == name;
      ok := j < MAXMAPS;
      if j == number && ok {
        names[number] := name;
        number := number + 1;
        assert names[..number] == before + [name];
        forall q | 0 <= q < QUEUES { TableAppended(Row(q), before, name); }
      }
    }

    /** Puts map j into the next slot of a queue; a full queue keeps its maps. */
    method Offer(queue: nat, j: nat)
      requires Valid() && queue < QUEUES && j < number
      modifies slots
      ensures Valid()
      ensures forall q :: 0 <= q < QUEUES ==>
                Offered(q) == FirstFew(old(Offered(q)) + (if q == queue then [names[j]] else []))
    {
      hide NamesOf;
      ghost var row := Row(queue);
      assert RowValid(row, number);
      if slots[queue, 0] < MAXMAPS_PER_QUEUE {
        RowAppended(row, names[..number], j);
        hide RowValid;
        var n := slots[queue, 0] + 1;
        slots[queue, 0] := n;
        slots[queue, n] := j;
        assert Row(queue) == RowWith(row, j);
        forall q | 0 <= q < QUEUES && q != queue ensures Row(q) == old(Row(q)) {}
      }
    }

    method AddMap(name: string, queue: nat) returns (ok: bool)
      requires Valid() && queue < QUEUES
      modifies this, names, slots
      ensures Valid() && ok == (old(number) < MAXMAPS || name in old(names[..number]))
      ensures names[..number] == old(names[..number]) + (if !ok || name in old(names[..number]) then [] else [name])
      ensures forall q :: 0 <= q < QUEUES ==>
                Offered(q) == FirstFew(old(Offered(q)) + (if ok && q == queue then [name] else []))
    {
      var j;
      ok, j := NumberOf(name);
      if ok { Offer(queue, j); }
    }

    /** A slot past the queue's count leads to the first map of the table, whatever its queue. */
    method GetMap(queue: nat, n: nat) returns (name: Option<string>)
      requires Valid() && queue < QUEUES && 1 <= n <= MAXMAPS_PER_QUEUE
      ensures n <= |Offered(queue)| ==> name == Some(Offered(queue)[n - 1])
      ensures n > |Offered(queue)| ==> name == if number == 0 then None else Some(names[0])
    {
      assert RowValid(Row(queue), number);
      var index := slots[queue, n];
      name := if index < number then Some(names[index]) else None;
    }

    /** The map of a game: the one in a slot that the common preferences tick, or the default map. */
    method MapFromPrefs(queue: nat, prefs: bv32, random: nat, defaultMap: string) returns (name: string)
      requires Valid() && queue < QUEUES && prefs != 0
      ensures name == MapDrawn(Offered(queue), names[..number], prefs, random, defaultMap)
    {
      var slot := MapPrefs.PickSlot(prefs, random);
      var found := GetMap(queue, slot + 1);
      name := match found case Some(m) => m case None => defaultMap;
    }

    /**
     A queue offers the first 32 maps named for it, each in the slot of its position, repetitions included. All
     lines are taken exactly if they name no more than a hundred maps.
     */
    method Load(lines: seq<Line>) returns (ok: bool)
      requires Valid() && number == 0
      requires forall q :: 0 <= q < QUEUES ==> Offered(q) == []
      requires forall i :: 0 <= i < |lines| ==> lines[i].queue < QUEUES
      modifies this, names, slots
      ensures Valid() && (ok <==> |Mentioned(lines)| <= MAXMAPS)
      ensures ok ==> forall q :: 0 <= q < QUEUES ==> Offered(q) == FirstFew(Named(lines, q))
    {
      assert lines[..0] == [] && FirstFew([]) == [];
      hide FirstFew;
      for i := 0 to |lines|
        invariant Valid() && Covers(names[..number], lines[..i])
        invariant forall q :: 0 <= q < QUEUES ==> Offered(q) == FirstFew(Named(lines[..i], q))
      {
        assert lines[..i + 1][..i] == lines[..i];
        forall q | 0 <= q < QUEUES {
          FewAndOne(Named(lines[..i], q), if lines[i].queue == q then [lines[i].name] else []);
        }
        ghost var before := names[..number];
        CoversMore(before, lines, i);
        var added := AddMap(lines[i].name, lines[i].queue);
        if !added { return false; }
      }
      assert lines[..|lines|] == lines;
      CoversAll(names[..number], lines);
      ok := true;
    }
  }

  /** What a slot yields when it is past the queue's count. */
  function Fallback(names: seq<string>, defaultMap: string): string {
    if names == [] then defaultMap else names[0]
  }

  function MapDrawn(offered: seq<string>, names: seq<string>, prefs: bv32, random: nat, defaultMap: string): string
    requires prefs != 0
  {
    var slot := MapPrefs.Drawn(prefs, random);
    if slot < |offered| then offered[slot] else Fallback(names, defaultMap)
  }

  /** The maps that can be drawn are those to which a ticked slot leads. */
  lemma MapDrawnExactly(offered: seq<string>, names: seq<string>, prefs: bv32, defaultMap: string, chosen: string)
    requires prefs != 0
    ensures (exists random: nat :: MapDrawn(offered, names, prefs, random, defaultMap) == chosen) <==>
            || (exists k: nat :: k < 32 && k < |offered| && MapPrefs.Bit(prefs, k) && offered[k] == chosen)
            || (exists k: nat :: |offered| <= k < 32 && MapPrefs.Bit(prefs, k) && chosen == Fallback(names, defaultMap))
  {
    hide MapPrefs.Bit, Fallback, MapPrefs.Drawn;
    forall k: nat {
      MapPrefs.DrawnExactly(prefs, k);
    }
    if k: nat :| k < 32 && k < |offered| && MapPrefs.Bit(prefs, k) && offered[k] == chosen {
      var random: nat :| MapPrefs.Drawn(prefs, random) == k;
      assert MapDrawn(offered, names, prefs, random, defaultMap) == chosen;
    }
    if k: nat :| |offered| <= k < 32 && MapPrefs.Bit(prefs, k) && chosen == Fallback(names, defaultMap) {
      var random: nat :| MapPrefs.Drawn(prefs, random) == k;
      assert MapDrawn(offered, names, prefs, random, defaultMap) == chosen;
    }
  }

  /**
   Every draw yields a map of the queue exactly if all ticked slots are below the queue's count, or the map that
   the others lead to happens to be one of the queue.
   */
  lemma DrawsFromQueue(offered: seq<string>, names: seq<string>, prefs: bv32, defaultMap: string)
    requires prefs != 0
    ensures (forall random: nat :: MapDrawn(offered, names, prefs, random, defaultMap) in offered) <==>
            || (forall k: nat :: k < 32 && MapPrefs.Bit(prefs, k) ==> k < |offered|)
            || Fallback(names, defaultMap) in offered
  {
    hide MapPrefs.Bit, Fallback, MapPrefs.Drawn;
    if k: nat :| k < 32 && MapPrefs.Bit(prefs, k) && k >= |offered| {
      MapPrefs.DrawnExactly(prefs, k);
      var random: nat :| MapPrefs.Drawn(prefs, random) == k;
      assert MapDrawn(offered, names, prefs, random, defaultMap) == Fallback(names, defaultMap);
    }
  }

  /** A queue with one map and a mask that ticks the second slot too: the draw can be the first map of the table. */
  lemma PastTheCount()
    ensures MapDrawn(["Lost Temple"], ["Gnoll Wood", "Lost Temple"], 3, 0, "Plains Of Snow") == "Lost Temple"
    ensures MapDrawn(["Lost Temple"], ["Gnoll Wood", "Lost Temple"], 3, 1, "Plains Of Snow") == "Gnoll Wood"
  {
    MapPrefs.FirstTwoTicked(32);
    hide MapPrefs.Ticked;
    assert MapPrefs.Drawn(3, 0) == 0 && MapPrefs.Drawn(3, 1) == 1;
  }

  function Mentioned(lines: seq<Line>): set<string> {
    set l | l in lines :: l.name
  }

  lemma {:induction false} RoomLeft(s: seq<string>, x: string, all: set<string>)
    requires NoDup(s) && x in all && forall k :: 0 <= k < |s| ==> s[k] in all
    ensures |s| <= |all| && (x !in s ==> |s| < |all|)
    decreases |s|
  {
    if s != [] {
      var rest := all - {s[0]};
      assert forall k :: 0 <= k < |s[1..]| ==> s[1..][k] in rest;
      if x != s[0] {
        RoomLeft(s[1..], x, rest);
      } else if |s| > 1 {
        RoomLeft(s[1..], s[1], rest);
      }
    }
  }

  /** The table holds exactly the names that the lines mention. */
  ghost predicate Covers(names: seq<string>, lines: seq<Line>) {
    forall n :: n in names <==> n in Mentioned(lines)
  }

  lemma CoversMore(names: seq<string>, lines: seq<Line>, i: nat)
    requires i < |lines| && NoDup(names) && Covers(names, lines[..i])
    ensures Covers(names + (if lines[i].name in names then [] else [lines[i].name]), lines[..i + 1])
    ensures lines[i].name !in names ==> |names| < |Mentioned(lines)|
  {
    assert lines[..i + 1] == lines[..i] + [lines[i]];
    forall n ensures n in Mentioned(lines[..i + 1]) <==> n in Mentioned(lines[..i]) || n == lines[i].name {
      assert lines[i] in lines[..i + 1];
    }
    assert lines[i] in lines;
    forall k | 0 <= k < |names| ensures names[k] in Mentioned(lines) {
      assert names[k] in Mentioned(lines[..i]);
    }
    RoomLeft(names, lines[i].name, Mentioned(lines));
  }

  lemma CoversAll(names: seq<string>, lines: seq<Line>)
    requires Covers(names, lines)
    ensures |Mentioned(lines)| <= |names|
  {
    SetSize(Mentioned(lines), names);
  }

  lemma {:induction false} SetSize(all: set<string>, s: seq<string>)
    requires forall n :: n in all ==> n in s
    ensures |all| <= |s|
    decreases |s|
  {
    if s != [] {
      SetSize(all - {s[0]}, s[1..]);
      assert all <= (all - {s[0]}) + {s[0]};
    }
  }

  lemma FewAndOne(a: seq<string>, b: seq<string>)
    requires |b| <= 1
    ensures FirstFew(FirstFew(a) + b) == FirstFew(a + b)
  {
  }
}
