/**
 The value of one account, seen through its cached attribute list and the storage behind it.
 Storage rows are keyed by the escaped, case-folded key; a missing row is a null value.
 */
module AttrView {
  import opened Common

  datatype Attr = Attr(key: string, val: Option<string>, dirty: bool)

  type Rows = map<string, string>

  // ---------------------------------------------------------------- keys

  /** Rewrites the prefixes that old clients get wrong. */
  function EscapeKey(key: string): string {
    if |key| >= 6 && EqIgnoreCase(key[..6], "DynKey") then "Record" + key[6..]
    else if |key| >= 4 && key[..4] == "Star" then "STAR" + key[4..]
    else key
  }

  /** What two keys must share to name the same attribute. */
  function CanonicalKey(key: string): string {
    Fold(EscapeKey(key))
  }

  lemma FoldPrefix(s: string, n: nat)
    requires n <= |s|
    ensures Fold(s)[..n] == Fold(s[..n])
    ensures Fold(s)[n..] == Fold(s[n..])
  {
  }

  lemma EscapeIdempotent(key: string)
    ensures EscapeKey(EscapeKey(key)) == EscapeKey(key)
  {
    var e := EscapeKey(key);
    if |key| >= 6 && EqIgnoreCase(key[..6], "DynKey") {
      assert e[..6] == "Record" && e[..4] == "Reco";
      assert Fold(e[..6])[0] == 'r' && Fold("DynKey")[0] == 'd';
    } else if |key| >= 4 && key[..4] == "Star" {
      assert e[..4] == "STAR";
      if |e| >= 6 {
        assert Fold(e[..6])[0] == 's' && Fold("DynKey")[0] == 'd';
      }
    }
  }

  /** Keys that differ only in ASCII case name the same attribute, whatever prefix they carry. */
  lemma CanonicalIgnoresCase(a: string, b: string)
    requires EqIgnoreCase(a, b)
    ensures CanonicalKey(a) == CanonicalKey(b)
  {
    CanonicalByCase(a);
    CanonicalByCase(b);
  }

  lemma FoldConcat(a: string, b: string)
    ensures Fold(a + b) == Fold(a) + Fold(b)
  {
  }

  lemma FoldedWords()
    ensures Fold("DynKey") == "dynkey"
    ensures Fold("Record") == "record"
    ensures Fold("STAR") == Fold("Star")
  {
  }

  /** The canonical key computed from the folded key alone. */
  lemma CanonicalByCase(key: string)
    ensures var f := Fold(key);
            CanonicalKey(key) == if |f| >= 6 && f[..6] == "dynkey" then "record" + f[6..] else f
  {
    FoldedWords();
    if |key| >= 6 {
      FoldPrefix(key, 6);
    }
    if |key| >= 6 && EqIgnoreCase(key[..6], "DynKey") {
      FoldConcat("Record", key[6..]);
    } else if |key| >= 4 && key[..4] == "Star" {
      StarFolds(key);
    }
  }

  lemma StarFolds(key: string)
    requires |key| >= 4 && key[..4] == "Star"
    ensures Fold("STAR" + key[4..]) == Fold(key)
  {
    FoldedWords();
    FoldConcat("STAR", key[4..]);
    FoldConcat("Star", key[4..]);
    assert key == "Star" + key[4..];
  }

  lemma CanonicalIdempotent(key: string)
    ensures CanonicalKey(CanonicalKey(key)) == CanonicalKey(key)
    ensures CanonicalKey(EscapeKey(key)) == CanonicalKey(key) == Fold(EscapeKey(key))
  {
    EscapeIdempotent(key);
    CanonicalByCase(key);
    CanonicalByCase(CanonicalKey(key));
    FoldIdempotent(key);
    FoldIdempotent(EscapeKey(key));
  }

  // ---------------------------------------------------------------- one account

  /** Position of the attribute whose folded key is k, or |list|. */
  function Find(list: seq<Attr>, k: string): (n: nat)
    ensures n <= |list|
    ensures forall i :: 0 <= i < n ==> Fold(list[i].key) != k
    ensures n < |list| ==> Fold(list[n].key) == k
  {
    if list == [] then 0
    else if Fold(list[0].key) == k then 0
    else 1 + Find(list[1..], k)
  }

  /** The search loop over the cached list. */
  method Search(list: seq<Attr>, key: string) returns (at: nat)
    ensures at == Find(list, Fold(key))
  {
    at := 0;
    while at < |list| && !EqIgnoreCase(list[at].key, key)
      invariant at <= |list|
      invariant forall i :: 0 <= i < at ==> Fold(list[i].key) != Fold(key)
    {
      at := at + 1;
    }
    FindIs(list, Fold(key), at);
  }

  /** Every key cached in l is still cached in l'. */
  ghost predicate Keeps(l: seq<Attr>, l': seq<Attr>) {
    forall k :: Find(l, k) < |l| ==> Find(l', k) < |l'|
  }

  function Read(rows: Rows, k: string): Option<string> {
    if k in rows then Some(rows[k]) else None
  }

  /** A write of null removes the row. */
  function Put(rows: Rows, k: string, v: Option<string>): Rows {
    if v.Some? then rows[k := v.value] else rows - {k}
  }

  lemma PutSame(rows: Rows, k: string)
    ensures Put(rows, k, Read(rows, k)) == rows
  {
  }

  lemma KeepsTrans(a: seq<Attr>, b: seq<Attr>, c: seq<Attr>)
    requires Keeps(a, b) && Keeps(b, c)
    ensures Keeps(a, c)
  {
  }

  /** The value of key k: the cached attribute if there is one, else the stored row. */
  function At(list: seq<Attr>, rows: Rows, k: string): Option<string> {
    var n := Find(list, k);
    if n < |list| then list[n].val else Read(rows, k)
  }

  function Keys(list: seq<Attr>): set<string> {
    set i | 0 <= i < |list| :: Fold(list[i].key)
  }

  /** The account as a plain map: the stored rows overlaid with the cached attributes. */
  function Overlay(list: seq<Attr>, rows: Rows): Rows {
    map k | k in Keys(list) + rows.Keys && At(list, rows, k).Some? :: At(list, rows, k).value
  }

  ghost predicate UniqueKeys(list: seq<Attr>) {
    forall i, j :: 0 <= i < j < |list| ==> Fold(list[i].key) != Fold(list[j].key)
  }

  /** Every cached attribute without the dirty bit shows what storage holds. */
  ghost predicate CleanAgrees(list: seq<Attr>, rows: Rows) {
    forall i :: 0 <= i < |list| && !list[i].dirty ==> list[i].val == Read(rows, Fold(list[i].key))
  }

  ghost predicate AllClean(list: seq<Attr>) {
    forall i :: 0 <= i < |list| ==> !list[i].dirty
  }

  ghost predicate Covers(list: seq<Attr>, rows: Rows) {
    forall k :: k in rows ==> Find(list, k) < |list|
  }

  lemma ReadOverlay(list: seq<Attr>, rows: Rows, k: string)
    ensures Read(Overlay(list, rows), k) == At(list, rows, k)
  {
    var n := Find(list, k);
    if n < |list| { assert k in Keys(list); }
  }

  lemma SameOverlay(l: seq<Attr>, r: Rows, l': seq<Attr>, r': Rows)
    requires forall k :: At(l, r, k) == At(l', r', k)
    ensures Overlay(l, r) == Overlay(l', r')
  {
    RowsExtensional(Overlay(l, r), Overlay(l', r')) by {
      forall k ensures Read(Overlay(l, r), k) == Read(Overlay(l', r'), k) {
        ReadOverlay(l, r, k);
        ReadOverlay(l', r', k);
      }
    }
  }

  lemma RowsExtensional(a: Rows, b: Rows)
    requires forall k :: Read(a, k) == Read(b, k)
    ensures a == b
  {
    forall k ensures k in a <==> k in b {
      assert Read(a, k) == Read(b, k);
    }
    forall k | k in a ensures a[k] == b[k] {
      assert Read(a, k) == Read(b, k);
    }
  }

  /** What pins the position down. */
  lemma FindIs(list: seq<Attr>, k: string, n: nat)
    requires n <= |list|
    requires forall i :: 0 <= i < n ==> Fold(list[i].key) != k
    requires n < |list| ==> Fold(list[n].key) == k
    ensures Find(list, k) == n
  {
  }

  lemma FindUnique(list: seq<Attr>, n: nat)
    requires n < |list| && UniqueKeys(list)
    ensures Find(list, Fold(list[n].key)) == n
  {
    FindIs(list, Fold(list[n].key), n);
  }

  /** Two lists with the same keys in the same places find everything in the same place. */
  lemma SameKeysFind(l: seq<Attr>, l': seq<Attr>, k: string)
    requires |l| == |l'| && forall i :: 0 <= i < |l| ==> Fold(l[i].key) == Fold(l'[i].key)
    ensures Find(l, k) == Find(l', k)
  {
    FindIs(l', k, Find(l, k));
  }

  // ---------------------------------------------------------------- steps on the list

  /** hlist_promote: the found attribute moves one place towards the head. */
  function Promote(list: seq<Attr>, n: nat): (r: seq<Attr>)
    requires n < |list|
    ensures |r| == |list|
  {
    if n == 0 then list else list[n - 1 := list[n]][n := list[n - 1]]
  }

  lemma PromoteFind(list: seq<Attr>, n: nat, k: string)
    requires n < |list| && UniqueKeys(list)
    ensures var p, m := Promote(list, n), Find(list, k);
            Find(p, k) == if n == 0 then m else if m == n then n - 1 else if m == n - 1 then n else m
  {
    var m := Find(list, k);
    FindIs(Promote(list, n), k, if n == 0 then m else if m == n then n - 1 else if m == n - 1 then n else m);
  }

  lemma PromoteAt(list: seq<Attr>, rows: Rows, n: nat, k: string)
    requires n < |list| && UniqueKeys(list)
    ensures At(Promote(list, n), rows, k) == At(list, rows, k)
    ensures Find(list, k) < |list| <==> Find(Promote(list, n), k) < |list|
  {
    PromoteFind(list, n, k);
  }

  lemma PromoteKeepsOverlay(list: seq<Attr>, rows: Rows, n: nat)
    requires n < |list| && UniqueKeys(list)
    ensures Overlay(Promote(list, n), rows) == Overlay(list, rows)
    ensures Covers(list, rows) ==> Covers(Promote(list, n), rows)
  {
    forall k
      ensures At(Promote(list, n), rows, k) == At(list, rows, k)
      ensures Find(list, k) < |list| <==> Find(Promote(list, n), k) < |list|
    {
      PromoteAt(list, rows, n, k);
    }
    SameOverlay(Promote(list, n), rows, list, rows);
  }

  lemma PromoteFrom(list: seq<Attr>, n: nat, i: nat) returns (i': nat)
    requires n < |list| && i < |list|
    ensures i' < |list| && |Promote(list, n)| == |list| && Promote(list, n)[i] == list[i']
  {
    i' := if n == 0 then i else if i == n then n - 1 else if i == n - 1 then n else i;
  }

  lemma PromoteUnique(list: seq<Attr>, n: nat)
    requires n < |list| && UniqueKeys(list)
    ensures UniqueKeys(Promote(list, n))
  {
    forall i, j | 0 <= i < j < |list| ensures Fold(Promote(list, n)[i].key) != Fold(Promote(list, n)[j].key) {
      var i' := if n == 0 then i else if i == n then n - 1 else if i == n - 1 then n else i;
      var j' := if n == 0 then j else if j == n then n - 1 else if j == n - 1 then n else j;
      assert Promote(list, n)[i] == list[i'] && Promote(list, n)[j] == list[j'];
    }
  }

  /** Caching a row that storage would have answered changes nothing. */
  lemma CacheRowKeepsOverlay(list: seq<Attr>, rows: Rows, a: Attr)
    requires UniqueKeys(list) && Find(list, Fold(a.key)) == |list|
    requires a.val == Read(rows, Fold(a.key))
    ensures UniqueKeys([a] + list)
    ensures Overlay([a] + list, rows) == Overlay(list, rows)
  {
    hide Overlay, Find, UniqueKeys, Fold, At;
    AddUnique(list, a);
    forall k ensures At([a] + list, rows, k) == At(list, rows, k) {
      AddAt(list, rows, a, k);
      if k == Fold(a.key) { NotCached(list, rows, k); }
    }
    SameOverlay([a] + list, rows, list, rows);
  }

  lemma NotCached(list: seq<Attr>, rows: Rows, k: string)
    requires Find(list, k) == |list|
    ensures At(list, rows, k) == Read(rows, k)
  {
  }

  lemma AddFind(list: seq<Attr>, a: Attr, k: string)
    requires Find(list, Fold(a.key)) == |list|
    ensures Find([a] + list, k) == if k == Fold(a.key) then 0 else 1 + Find(list, k)
  {
    assert ([a] + list)[1..] == list;
  }

  /** If every key reads as Put would leave it, the whole account is what Put would leave. */
  lemma PutExtensional(l: seq<Attr>, l': seq<Attr>, rows: Rows, k: string, v: Option<string>)
    requires forall j :: At(l', rows, j) == if j == k then v else At(l, rows, j)
    ensures Overlay(l', rows) == Put(Overlay(l, rows), k, v)
  {
    forall j ensures Read(Overlay(l', rows), j) == Read(Put(Overlay(l, rows), k, v), j) {
      ReadOverlay(l', rows, j);
      ReadOverlay(l, rows, j);
    }
    RowsExtensional(Overlay(l', rows), Put(Overlay(l, rows), k, v));
  }

  lemma AddUnique(list: seq<Attr>, a: Attr)
    requires UniqueKeys(list) && Find(list, Fold(a.key)) == |list|
    ensures UniqueKeys([a] + list)
  {
    hide Fold;
    forall i | 0 <= i < |list| ensures Fold(list[i].key) != Fold(a.key) { FindUnique(list, i); }
  }

  lemma AtIs(list: seq<Attr>, rows: Rows, k: string, n: nat)
    requires n == Find(list, k)
    ensures At(list, rows, k) == if n < |list| then list[n].val else Read(rows, k)
  {
    hide Find, Read;
  }

  lemma AddAt(list: seq<Attr>, rows: Rows, a: Attr, k: string)
    requires Find(list, Fold(a.key)) == |list|
    ensures At([a] + list, rows, k) == if k == Fold(a.key) then a.val else At(list, rows, k)
  {
    hide *;
    var n, l := Find(list, k), [a] + list;
    AddFind(list, a, k);
    AddedAt(list, a, n);
    if k == Fold(a.key) {
      AtIs(l, rows, k, 0);
    } else {
      AtIs(list, rows, k, n);
      AtIs(l, rows, k, n + 1);
    }
  }

  lemma AddedAt(list: seq<Attr>, a: Attr, n: nat)
    ensures |[a] + list| == |list| + 1 && ([a] + list)[0] == a
    ensures n < |list| ==> ([a] + list)[n + 1] == list[n]
  {
  }

  lemma AddIsPut(list: seq<Attr>, rows: Rows, a: Attr)
    requires UniqueKeys(list) && Find(list, Fold(a.key)) == |list|
    ensures UniqueKeys([a] + list)
    ensures Overlay([a] + list, rows) == Put(Overlay(list, rows), Fold(a.key), a.val)
  {
    hide Overlay, Put, Fold, Find, UniqueKeys, At;
    AddUnique(list, a);
    forall k ensures At([a] + list, rows, k) == if k == Fold(a.key) then a.val else At(list, rows, k) {
      AddAt(list, rows, a, k);
    }
    PutExtensional(list, [a] + list, rows, Fold(a.key), a.val);
  }

  lemma ReplaceIsPut(list: seq<Attr>, rows: Rows, n: nat, a: Attr)
    requires n < |list| && UniqueKeys(list) && a.key == list[n].key
    ensures UniqueKeys(list[n := a])
    ensures Overlay(list[n := a], rows) == Put(Overlay(list, rows), Fold(a.key), a.val)
    ensures forall k :: Find(list[n := a], k) == Find(list, k)
  {
    FindUnique(list, n);
    forall k
      ensures At(list[n := a], rows, k) == if k == Fold(a.key) then a.val else At(list, rows, k)
      ensures Find(list[n := a], k) == Find(list, k)
    {
      SameKeysFind(list, list[n := a], k);
    }
    PutExtensional(list, list[n := a], rows, Fold(a.key), a.val);
  }

  // ---------------------------------------------------------------- write-back

  /** A row store that updates only the rows of dirty attributes. */
  function WriteDirty(list: seq<Attr>, rows: Rows): Rows {
    if list == [] then rows
    else
      var rest := WriteDirty(list[1..], rows);
      if list[0].dirty then Put(rest, Fold(list[0].key), list[0].val) else rest
  }

  /** A flat file that is rewritten with every cached attribute that has a value. */
  function WriteAll(list: seq<Attr>): Rows {
    Overlay(list, map[])
  }

  lemma {:induction false} WriteDirtyAt(list: seq<Attr>, rows: Rows, k: string)
    requires UniqueKeys(list)
    ensures Read(WriteDirty(list, rows), k) ==
            if Find(list, k) < |list| && list[Find(list, k)].dirty then list[Find(list, k)].val else Read(rows, k)
  {
    if list != [] {
      WriteDirtyAt(list[1..], rows, k);
    }
  }

  /** Write-back saves exactly what a reader could see, on either kind of store. */
  lemma WriteBackIsOverlay(list: seq<Attr>, rows: Rows)
    requires UniqueKeys(list) && CleanAgrees(list, rows)
    ensures WriteDirty(list, rows) == Overlay(list, rows)
    ensures Covers(list, rows) ==> WriteAll(list) == Overlay(list, rows)
  {
    forall k
      ensures Read(WriteDirty(list, rows), k) == Read(Overlay(list, rows), k)
    {
      WriteDirtyAt(list, rows, k);
      ReadOverlay(list, rows, k);
    }
    RowsExtensional(WriteDirty(list, rows), Overlay(list, rows));
    if Covers(list, rows) {
      SameOverlay(list, map[], list, rows);
    }
  }

  const DB_MAX_ATTRVAL: nat := 180

  /** A value as the SQL writer puts it down: cut to its buffer, and no single quote in it. */
  function SqlText(v: string): (r: string)
    ensures r == v <==> |v| < DB_MAX_ATTRVAL && '\'' !in v
  {
    var n := if |v| < DB_MAX_ATTRVAL then |v| else DB_MAX_ATTRVAL - 1;
    seq(n, i requires 0 <= i < n => if v[i] == '\'' then '\"' else v[i])
  }

  /** The row store as it is: a dirty attribute whose value is null is passed over, and its row stays. */
  function WriteSql(list: seq<Attr>, rows: Rows): Rows {
    if list == [] then rows
    else
      var rest := WriteSql(list[1..], rows);
      if list[0].dirty && list[0].val.Some? then rest[Fold(list[0].key) := SqlText(list[0].val.value)] else rest
  }

  /** What the row of a cached attribute holds after the write. */
  function SqlRow(a: Attr, rows: Rows): Option<string> {
    if a.dirty && a.val.Some? then Some(SqlText(a.val.value)) else Read(rows, Fold(a.key))
  }

  lemma {:induction false} WriteSqlAt(list: seq<Attr>, rows: Rows, k: string)
    requires UniqueKeys(list)
    ensures Read(WriteSql(list, rows), k) ==
            var n := Find(list, k); if n < |list| then SqlRow(list[n], rows) else Read(rows, k)
  {
    hide SqlText;
    if list != [] {
      WriteSqlAt(list[1..], rows, k);
    }
  }

  /** The writer does an attribute justice: it writes the value as it is, and no null is due for a row that exists. */
  predicate SqlExact(a: Attr, rows: Rows) {
    a.dirty ==> if a.val.Some? then |a.val.value| < DB_MAX_ATTRVAL && '\'' !in a.val.value else Fold(a.key) !in rows
  }

  /** It saves what a reader could see exactly if it does every attribute justice. */
  lemma WriteSqlExactly(list: seq<Attr>, rows: Rows)
    requires UniqueKeys(list) && CleanAgrees(list, rows)
    ensures WriteSql(list, rows) == Overlay(list, rows) <==>
            forall i :: 0 <= i < |list| ==> SqlExact(list[i], rows)
  {
    hide WriteSql, Overlay;
    forall k ensures Read(Overlay(list, rows), k) == At(list, rows, k) { ReadOverlay(list, rows, k); }
    forall i | 0 <= i < |list| ensures SqlRow(list[i], rows) == list[i].val <==> SqlExact(list[i], rows) {}
    hide SqlRow, SqlExact;
    if forall i :: 0 <= i < |list| ==> SqlExact(list[i], rows) {
      forall k ensures Read(WriteSql(list, rows), k) == Read(Overlay(list, rows), k) { WriteSqlAt(list, rows, k); }
      RowsExtensional(WriteSql(list, rows), Overlay(list, rows));
    } else {
      var i :| 0 <= i < |list| && !SqlExact(list[i], rows);
      FindUnique(list, i);
      WriteSqlAt(list, rows, Fold(list[i].key));
    }
  }

  /** A name set to null comes back: the null is written nowhere, and once the cache is dropped the row shows again. */
  lemma NullComesBack()
    ensures var list, rows := [Attr("friend\\1\\name", None, true)], map["friend\\1\\name" := "bob"];
            && Read(Overlay(list, rows), "friend\\1\\name") == None
            && Read(Overlay([], WriteSql(list, rows)), "friend\\1\\name") == Some("bob")
  {
    var k := "friend\\1\\name";
    var list, rows := [Attr(k, None, true)], map[k := "bob"];
    assert Fold(k) == k;
    FindIs(list, k, 0);
    ReadOverlay(list, rows, k);
    ReadOverlay([], WriteSql(list, rows), k);
  }

  /** attrgroup_clear_dirty's pass over the attributes. */
  function CleanList(list: seq<Attr>): (r: seq<Attr>)
    ensures |r| == |list|
    ensures forall i :: 0 <= i < |list| ==> r[i] == list[i].(dirty := false)
  {
    seq(|list|, i requires 0 <= i < |list| => list[i].(dirty := false))
  }

  // ---------------------------------------------------------------- canonical rows

  ghost predicate CanonicalRows(rows: Rows) {
    forall k :: k in rows ==> CanonicalKey(k) == k
  }

  ghost predicate CanonicalKeys(list: seq<Attr>) {
    forall i :: 0 <= i < |list| ==> CanonicalKey(list[i].key) == Fold(list[i].key)
  }

  lemma OverlayCanonical(list: seq<Attr>, rows: Rows)
    requires CanonicalRows(rows) && CanonicalKeys(list)
    ensures CanonicalRows(Overlay(list, rows))
  {
    forall k | k in Overlay(list, rows) ensures CanonicalKey(k) == k {
      if k !in rows {
        var i :| 0 <= i < |list| && Fold(list[i].key) == k;
        CanonicalIdempotent(list[i].key);
      }
    }
  }

  /** Rows that already show everything: the cached list can be dropped or cleaned without loss. */
  lemma WrittenRows(list: seq<Attr>, rows: Rows)
    requires UniqueKeys(list)
    ensures CleanAgrees(list, Overlay(list, rows))
    ensures Overlay(list, Overlay(list, rows)) == Overlay(list, rows)
    ensures Covers(list, rows) ==> Covers(list, Overlay(list, rows))
  {
    var rows' := Overlay(list, rows);
    forall k
      ensures At(list, rows', k) == At(list, rows, k)
      ensures k in rows' ==> Find(list, k) < |list| || k in rows
    {
      ReadOverlay(list, rows, k);
    }
    forall i | 0 <= i < |list| ensures list[i].val == Read(rows', Fold(list[i].key)) {
      ReadOverlay(list, rows, Fold(list[i].key));
      FindUnique(list, i);
    }
    SameOverlay(list, rows', list, rows);
  }

  /** An empty cache shows the stored rows. */
  lemma EmptyOverlay(rows: Rows)
    ensures Overlay([], rows) == rows
  {
    forall k ensures Read(Overlay([], rows), k) == Read(rows, k) { ReadOverlay([], rows, k); }
    RowsExtensional(Overlay([], rows), rows);
  }

  /** A cache without dirty attributes shows exactly the stored rows. */
  lemma CleanOverlay(list: seq<Attr>, rows: Rows)
    requires AllClean(list) && CleanAgrees(list, rows)
    ensures Overlay(list, rows) == rows
  {
    forall k ensures Read(Overlay(list, rows), k) == Read(rows, k) { ReadOverlay(list, rows, k); }
    RowsExtensional(Overlay(list, rows), rows);
  }

  /** Cleaning a list that storage already shows. */
  lemma CleanedOverlay(list: seq<Attr>, rows: Rows)
    requires UniqueKeys(list) && rows == Overlay(list, rows)
    ensures UniqueKeys(CleanList(list)) && AllClean(CleanList(list)) && CleanAgrees(CleanList(list), rows)
    ensures Overlay(CleanList(list), rows) == rows
    ensures Covers(list, rows) ==> Covers(CleanList(list), rows)
  {
    var l := CleanList(list);
    forall k
      ensures At(l, rows, k) == At(list, rows, k)
      ensures Find(l, k) == Find(list, k)
    {
      SameKeysFind(list, l, k);
    }
    forall i | 0 <= i < |l| ensures l[i].val == Read(rows, Fold(l[i].key)) {
      ReadOverlay(list, rows, Fold(l[i].key));
      FindUnique(list, i);
    }
    SameOverlay(l, rows, list, rows);
  }
}
