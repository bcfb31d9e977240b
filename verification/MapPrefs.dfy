/** Map preference masks: 32 bits, one for each slot of a queue's map list. */
module MapPrefs {

  function Half(m: bv32): bv32 {
    m >> 1
  }

  function And(a: bv32, b: bv32): bv32 {
    a & b
  }

  predicate Low(m: bv32) {
    m & 1 == 1
  }

  predicate AtMost(a: bv32, b: bv32) {
    a <= b
  }

  /** A mask after i shifts to the right. */
  function Shifted(m: bv32, i: nat): bv32
    decreases i
  {
    if i == 0 then m else Half(Shifted(m, i - 1))
  }

  /** Bit i of a mask. */
  predicate Bit(m: bv32, i: nat) {
    Low(Shifted(m, i))
  }

  lemma HalfAnd(a: bv32, b: bv32)
    ensures Half(And(a, b)) == And(Half(a), Half(b))
    ensures Low(And(a, b)) <==> Low(a) && Low(b)
  {
  }

  lemma {:induction false} ShiftedAnd(a: bv32, b: bv32, i: nat)
    ensures Shifted(And(a, b), i) == And(Shifted(a, i), Shifted(b, i))
    decreases i
  {
    hide Half, And;
    if i > 0 {
      ShiftedAnd(a, b, i - 1);
      HalfAnd(Shifted(a, i - 1), Shifted(b, i - 1));
    }
  }

  /** A slot survives an intersection exactly if both masks ticked it. */
  lemma BitAnd(a: bv32, b: bv32, i: nat)
    ensures Bit(And(a, b), i) <==> Bit(a, i) && Bit(b, i)
  {
    hide Half, And, Low;
    ShiftedAnd(a, b, i);
    HalfAnd(Shifted(a, i), Shifted(b, i));
  }

  /** What is left of 32 one-bits after i shifts. */
  function Ceiling(i: nat): bv32 {
    if i == 0 then 0xFFFF_FFFF else Half(Ceiling(i - 1))
  }

  lemma CeilingGone()
    ensures Ceiling(32) == 0
  {
    assert Ceiling(8) == 0x00FF_FFFF;
    assert Ceiling(16) == 0x0000_FFFF;
    assert Ceiling(24) == 0x0000_00FF;
  }

  lemma HalfFacts(m: bv32, c: bv32)
    requires AtMost(m, c)
    ensures AtMost(Half(m), Half(c))
    ensures !Low(m) ==> (m == 0 <==> Half(m) == 0)
  {
  }

  /** The ticked slots below n, in order. */
  function Ticked(m: bv32, n: nat): seq<nat> {
    if n == 0 then [] else Ticked(m, n - 1) + (if Bit(m, n - 1) then [n - 1] else [])
  }

  lemma {:induction false} TickedExactly(m: bv32, n: nat, k: nat)
    ensures k in Ticked(m, n) <==> k < n && Bit(m, k)
  {
    hide Bit;
    if n > 0 { TickedExactly(m, n - 1, k); }
  }

  lemma {:induction false} NothingTicked(m: bv32, n: nat)
    ensures AtMost(Shifted(m, n), Ceiling(n))
    ensures Ticked(m, n) == [] ==> (m == 0 <==> Shifted(m, n) == 0)
  {
    if n > 0 {
      hide Half, Low, AtMost;
      NothingTicked(m, n - 1);
      HalfFacts(Shifted(m, n - 1), Ceiling(n - 1));
    } else {
      Full(m);
    }
  }

  lemma Full(m: bv32)
    ensures AtMost(m, Ceiling(0))
  {
  }

  lemma {:induction false} ZeroShifted(i: nat)
    ensures Shifted(0, i) == 0 && !Bit(0, i)
    decreases i
  {
    if i > 0 { ZeroShifted(i - 1); }
  }

  /** Two masks have a slot in common exactly if their intersection is not empty. */
  lemma CommonSlot(a: bv32, b: bv32)
    ensures And(a, b) != 0 <==> exists k: nat :: k < 32 && Bit(a, k) && Bit(b, k)
  {
    hide And, Bit, Shifted, Ticked;
    if And(a, b) != 0 {
      SomeTicked(And(a, b));
      var k := Ticked(And(a, b), 32)[0];
      TickedExactly(And(a, b), 32, k);
      BitAnd(a, b, k);
    }
    if k: nat :| k < 32 && Bit(a, k) && Bit(b, k) {
      BitAnd(a, b, k);
      ZeroShifted(k);
    }
  }

  /** A mask with any bit set leaves something to choose from. */
  lemma SomeTicked(m: bv32)
    requires m != 0
    ensures Ticked(m, 32) != []
  {
    NothingTicked(m, 32);
    CeilingGone();
  }

  /** The slot drawn with a random number. */
  function Drawn(prefs: bv32, random: nat): (slot: nat)
    requires prefs != 0
    ensures slot < 32 && Bit(prefs, slot)
  {
    SomeTicked(prefs);
    var slots := Ticked(prefs, 32);
    TickedExactly(prefs, 32, slots[random % |slots|]);
    slots[random % |slots|]
  }

  /** Every ticked slot can be drawn, and no other. */
  lemma DrawnExactly(prefs: bv32, slot: nat)
    requires prefs != 0
    ensures (exists random: nat :: Drawn(prefs, random) == slot) <==> slot < 32 && Bit(prefs, slot)
  {
    hide Bit, Ticked;
    if slot < 32 && Bit(prefs, slot) {
      TickedExactly(prefs, 32, slot);
      SomeTicked(prefs);
      var k: nat :| k < |Ticked(prefs, 32)| && Ticked(prefs, 32)[k] == slot;
      SmallRemainder(k, |Ticked(prefs, 32)|);
      assert Drawn(prefs, k) == slot;
    }
  }

  lemma SmallRemainder(k: nat, n: nat)
    requires k < n
    ensures k % n == k
  {
  }

  lemma {:induction false} FirstTwoTicked(n: nat)
    requires n >= 2
    ensures Shifted(3, n) == 0 && Ticked(3, n) == [0, 1]
  {
    if n > 2 { FirstTwoTicked(n - 1); } else { assert Shifted(3, 1) == 1 && Ticked(3, 1) == [0]; }
  }

  /**
   _get_map_from_prefs up to the names: one of the ticked slots, at a random place. With an empty mask the
   original divides by zero, so the mask must not be empty.
   */
  method PickSlot(prefs: bv32, random: nat) returns (slot: nat)
    requires prefs != 0
    ensures slot == Drawn(prefs, random)
  {
    hide Half, Low;
    var slots: seq<nat> := [];
    var cur, i := prefs, 0;
    while i < 32
      invariant i <= 32 && cur == Shifted(prefs, i) && slots == Ticked(prefs, i)
    {
      if Low(cur) { slots := slots + [i]; }
      cur, i := Half(cur), i + 1;
    }
    SomeTicked(prefs);
    slot := slots[random % |slots|];
  }
}
