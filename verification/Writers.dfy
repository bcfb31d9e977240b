/** What the writers of the two back ends make of storage, and the texts that come through them unchanged. */
module Writers {
  import opened Common
  import opened AttrView
  import F = FlatFile

  /** The two kinds of storage: a flat file read and rewritten whole, or rows that are read one by one. */
  datatype Backend = FlatFile | SqlRows

  // ---------------------------------------------------------------- texts

  predicate PlainText(s: string) {
    F.CString(s) && F.QUOTE !in s
  }

  /** A value that survives being written and loaded: a table is loaded through the unescaping of flat files. */
  predicate SafeValue(b: Backend, v: string) {
    match b
    case FlatFile => PlainText(v)
    case SqlRows => |v| < DB_MAX_ATTRVAL && '\'' !in v && F.BACKSLASH !in v
  }

  predicate SafeKey(b: Backend, k: string) {
    b.FlatFile? ==> k != "" && PlainText(k)
  }

  /** A request to set an attribute that the writers can carry out. */
  predicate SafeSet(b: Backend, key: string, val: Option<string>) {
    && SafeKey(b, CanonicalKey(key))
    && (val.Some? ==> SafeValue(b, val.value)) && (b.SqlRows? ==> val.Some?)
  }

  predicate SafeAttr(b: Backend, a: Attr) {
    && SafeKey(b, Fold(a.key))
    && (a.val.Some? ==> SafeValue(b, a.val.value)) && (b.SqlRows? && a.dirty ==> a.val.Some?)
  }

  ghost predicate SafeList(b: Backend, list: seq<Attr>) {
    forall i :: 0 <= i < |list| ==> SafeAttr(b, list[i])
  }

  ghost predicate SafeRows(b: Backend, rows: Rows) {
    forall k :: k in rows ==> SafeKey(b, k) && SafeValue(b, rows[k])
  }

  /** Upper and lower case letters are equally plain. */
  lemma FoldPlain(s: string)
    ensures PlainText(Fold(s)) <==> PlainText(s)
    ensures Fold(s) == "" <==> s == ""
  {
    forall i | 0 <= i < |s|
      ensures 0 < s[i] as int < 256 <==> 0 < Fold(s)[i] as int < 256
      ensures s[i] == F.QUOTE <==> Fold(s)[i] == F.QUOTE
    {}
    if F.QUOTE in s {
      var i :| 0 <= i < |s| && s[i] == F.QUOTE;
      assert Fold(s)[i] == F.QUOTE;
    }
    if PlainText(Fold(s)) {
      forall i | 0 <= i < |s| ensures 0 < s[i] as int < 256 { assert 0 < Fold(s)[i] as int < 256; }
    }
  }

  /** Without a backslash there is nothing to unescape. */
  lemma {:induction false} NothingEscaped(s: string)
    requires F.BACKSLASH !in s
    ensures F.Unescape(s) == s
  {
    if s != [] { NothingEscaped(s[1..]); }
  }

  /** Rows that are safe are loaded as they are stored. */
  lemma LoadedAsStored(rows: Rows, k: string)
    requires SafeRows(SqlRows, rows) && k in rows
    ensures F.Unescape(rows[k]) == rows[k]
  {
    NothingEscaped(rows[k]);
  }

  // ---------------------------------------------------------------- writing

  /** What a reader of storage gets back after write_attrs. */
  ghost function OnDisk(b: Backend, list: seq<Attr>, rows: Rows): Rows {
    match b
    case SqlRows => WriteSql(list, rows)
    case FlatFile =>
      if F.AllText(F.Valued(list)) then F.Loaded(F.Entries(F.Text(F.Valued(list)))) else map[]
  }

  lemma {:induction false} ValuedText(list: seq<Attr>)
    requires SafeList(FlatFile, list)
    ensures F.AllText(F.Valued(list))
  {
    if list != [] {
      ValuedText(list[1..]);
      FoldPlain(list[0].key);
      assert SafeAttr(FlatFile, list[0]);
    }
  }

  lemma PlainKeysOf(list: seq<Attr>)
    requires SafeList(FlatFile, list)
    ensures F.PlainKeys(list) && forall i :: 0 <= i < |list| ==> F.IntactValue(list[i])
  {
    forall i | 0 <= i < |list| ensures list[i].key != "" && F.QUOTE !in list[i].key && F.IntactValue(list[i]) {
      FoldPlain(list[i].key);
      assert SafeAttr(FlatFile, list[i]);
    }
  }

  /** Safe attributes are written so that storage shows what readers saw, on either back end. */
  lemma SafeWrite(b: Backend, list: seq<Attr>, rows: Rows)
    requires UniqueKeys(list) && CanonicalKeys(list) && CleanAgrees(list, rows)
    requires b.FlatFile? ==> Covers(list, rows)
    requires SafeList(b, list) && SafeRows(b, rows)
    ensures OnDisk(b, list, rows) == Overlay(list, rows)
    ensures SafeRows(b, Overlay(list, rows))
  {
    StillSafe(b, list, rows);
    match b
    case SqlRows =>
      forall i | 0 <= i < |list| ensures SqlExact(list[i], rows) { assert SafeAttr(b, list[i]); }
      WriteSqlExactly(list, rows);
    case FlatFile =>
      ValuedText(list);
      PlainKeysOf(list);
      F.FileKeepsAccount(list);
      WriteBackIsOverlay(list, rows);
  }

  lemma StillSafe(b: Backend, list: seq<Attr>, rows: Rows)
    requires SafeList(b, list) && SafeRows(b, rows)
    ensures SafeRows(b, Overlay(list, rows))
  {
    hide SafeKey, SafeValue, Overlay;
    forall k | k in Overlay(list, rows) ensures SafeKey(b, k) && SafeValue(b, Overlay(list, rows)[k]) {
      ReadOverlay(list, rows, k);
      var n := Find(list, k);
      if n < |list| { assert SafeAttr(b, list[n]); }
    }
  }

  // ---------------------------------------------------------------- changes of the cached list

  lemma SafePromote(b: Backend, list: seq<Attr>, n: nat)
    requires SafeList(b, list) && n < |list|
    ensures SafeList(b, Promote(list, n))
  {
    hide SafeAttr, Promote;
    forall i | 0 <= i < |list| ensures |Promote(list, n)| == |list| && SafeAttr(b, Promote(list, n)[i]) {
      var i' := PromoteFrom(list, n, i);
    }
  }

  lemma SafeAdd(b: Backend, list: seq<Attr>, a: Attr)
    requires SafeList(b, list) && SafeAttr(b, a)
    ensures SafeList(b, [a] + list)
  {
    hide SafeAttr;
  }

  lemma SafeReplace(b: Backend, list: seq<Attr>, n: nat, a: Attr)
    requires SafeList(b, list) && n < |list| && SafeAttr(b, a)
    ensures SafeList(b, list[n := a])
  {
    hide SafeAttr;
  }

  lemma SafeClean(b: Backend, list: seq<Attr>)
    requires SafeList(b, list)
    ensures SafeList(b, CleanList(list))
  {
    hide SafeKey, SafeValue;
    forall i | 0 <= i < |list| ensures SafeAttr(b, CleanList(list)[i]) { assert SafeAttr(b, list[i]); }
  }

  /** A stored row as a cached attribute. */
  lemma SafeRow(b: Backend, rows: Rows, key: string)
    requires SafeRows(b, rows) && Fold(key) in rows
    ensures SafeAttr(b, Attr(key, Some(rows[Fold(key)]), false))
  {
    hide SafeKey, SafeValue;
  }

  /** What a safe request puts into the list, whether the attribute is new or not. */
  lemma SafeNew(b: Backend, key: string, val: Option<string>, cached: string)
    requires SafeSet(b, key, val) && Fold(cached) == CanonicalKey(key)
    ensures SafeAttr(b, Attr(cached, val, true))
  {
  }
}
