/** Small pieces shared by the models: options, ASCII case folding and queue surgery. */
module Common {

  datatype Option<+T> = None | Some(value: T)

  const TWO32: nat := 0x1_0000_0000
  const TWO64: nat := 0x1_0000_0000_0000_0000

  // ---------------------------------------------------------------- ASCII case

  function LowerChar(c: char): char {
    if 'A' <= c <= 'Z' then c - 'A' + 'a' else c
  }

  function Fold(s: string): (r: string)
    ensures |r| == |s|
    ensures forall i :: 0 <= i < |s| ==> r[i] == LowerChar(s[i])
  {
    seq(|s|, i requires 0 <= i < |s| => LowerChar(s[i]))
  }

  /** The C library's strcasecmp(a, b) == 0 on ASCII text. */
  predicate EqIgnoreCase(a: string, b: string) {
    Fold(a) == Fold(b)
  }

  lemma FoldIdempotent(s: string)
    ensures Fold(Fold(s)) == Fold(s)
  {
  }

  // ---------------------------------------------------------------- queues

  ghost predicate NoDup<T>(q: seq<T>) {
    forall i, j :: 0 <= i < j < |q| ==> q[i] != q[j]
  }

  /** Position of the first occurrence of x in q, or |q|. */
  function IndexOf<T(==)>(q: seq<T>, x: T): (n: nat)
    ensures n <= |q|
    ensures x !in q[..n]
    ensures n < |q| <==> x in q
    ensures n < |q| ==> q[n] == x
  {
    if q == [] then 0
    else if q[0] == x then 0
    else
      var m := IndexOf(q[1..], x);
      assert q[..m + 1] == [q[0]] + q[1..][..m];
      m + 1
  }

  /** Unlinking the first occurrence of x from q; q itself when x is not queued. */
  function Remove<T(==)>(q: seq<T>, x: T): seq<T> {
    var n := IndexOf(q, x);
    if n < |q| then q[..n] + q[n + 1..] else q
  }

  lemma RemoveMembers<T>(q: seq<T>, x: T, y: T)
    ensures y in Remove(q, x) ==> y in q
    ensures y in q && y != x ==> y in Remove(q, x)
  {
    var n := IndexOf(q, x);
    if n < |q| && y in q && y != x {
      var i :| 0 <= i < |q| && q[i] == y;
      if i < n { assert q[..n][i] == y; } else { assert q[n + 1..][i - n - 1] == y; }
    }
  }

  lemma MiddleCounts<T>(a: seq<T>, x: T, b: seq<T>)
    ensures multiset(a + b) == multiset(a + ([x] + b)) - multiset{x}
  {
    assert multiset([x] + b) == multiset{x} + multiset(b);
  }

  lemma AbsentCounts<T>(q: seq<T>, x: T)
    requires x !in q
    ensures multiset(q) == multiset(q) - multiset{x}
  {
    assert x !in multiset(q);
  }

  /** The parts of a sequence around the element that Remove drops. */
  lemma RemoveParts<T>(q: seq<T>, x: T) returns (a: seq<T>, b: seq<T>)
    requires x in q
    ensures q == a + ([x] + b) && Remove(q, x) == a + b
  {
    var n := IndexOf(q, x);
    a, b := q[..n], q[n + 1..];
  }

  lemma RemoveMultiset<T>(q: seq<T>, x: T)
    ensures multiset(Remove(q, x)) == multiset(q) - multiset{x}
  {
    if x in q {
      var a, b := RemoveParts(q, x);
      hide Remove;
      MiddleCounts(a, x, b);
    } else {
      AbsentCounts(q, x);
    }
  }

  lemma RemoveNoDup<T>(q: seq<T>, x: T)
    requires NoDup(q)
    ensures NoDup(Remove(q, x))
    ensures x !in Remove(q, x)
  {
  }

  /** Remove keeps the order of what stays: its i-th element was at i, or at i + 1 past the gap. */
  lemma RemoveAt<T>(q: seq<T>, x: T, i: nat)
    requires i < |Remove(q, x)|
    ensures var n := IndexOf(q, x);
            Remove(q, x)[i] == q[if i < n then i else i + 1]
  {
    hide IndexOf;
  }
}
