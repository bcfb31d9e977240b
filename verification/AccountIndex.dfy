/** The account index: one hash table by name, one by uid, and the largest uid handed out so far. */
module AccountIndex {
  import opened Common
  import opened Decimal

  // ---------------------------------------------------------------- names and hashes

  /** The value of a plain char, which is signed. */
  function SignedChar(c: char): int {
    var code := c as int % 256;
    if code < 128 then code else code - 256
  }

  /** The conversion of a signed value to 32-bit unsigned. */
  function ToUnsigned(i: int): bv32 {
    (i % 0x1_0000_0000) as bv32
  }

  /** account_hash from h on: a byte below -1 ends the hash early. */
  function HashFrom(h: bv32, name: string): bv32
    decreases |name|
  {
    if name == "" then h
    else
      var h' := h + (h << 5);
      if SignedChar(name[0]) < -1 then h'
      else HashFrom(h' ^ ToUnsigned(SignedChar(LowerChar(name[0]))), name[1..])
  }

  function AccountHash(name: string): bv32 {
    HashFrom(5381, name)
  }

  /** The loop over the running hash. */
  method ComputeHash(name: string) returns (h: bv32)
    ensures h == AccountHash(name)
  {
    hide SignedChar, ToUnsigned, LowerChar;
    h := 5381;
    var i := 0;
    while i < |name|
      invariant i <= |name| && HashFrom(h, name[i..]) == AccountHash(name)
    {
      assert name[i..][0] == name[i] && name[i..][1..] == name[i + 1..];
      h := h + (h << 5);
      if SignedChar(name[i]) < -1 { return; }
      h := h ^ ToUnsigned(SignedChar(LowerChar(name[i])));
      i := i + 1;
    }
  }

  /** Names that differ only in ASCII case fall into the same bucket. */
  lemma {:induction false} HashIgnoresCase(a: string, b: string, h: bv32)
    requires EqIgnoreCase(a, b)
    ensures HashFrom(h, a) == HashFrom(h, b)
    decreases |a|
  {
    if a != "" {
      assert LowerChar(a[0]) == Fold(a)[0] == Fold(b)[0] == LowerChar(b[0]);
      assert SignedChar(a[0]) < -1 <==> SignedChar(b[0]) < -1;
      FoldTail(a);
      FoldTail(b);
      hide SignedChar, ToUnsigned, LowerChar, Fold;
      HashIgnoresCase(a[1..], b[1..], (h + (h << 5)) ^ ToUnsigned(SignedChar(LowerChar(a[0]))));
    } else {
      assert |b| == |Fold(b)| == 0;
    }
  }

  lemma FoldTail(a: string)
    requires a != ""
    ensures Fold(a[1..]) == Fold(a)[1..]
  {
  }

  /** str_to_uint: blanks, an optional plus, then only digits (possibly none), with overflow an error. */
  function ParseUint(s: string): Option<nat> {
    var t := SkipBlanks(s);
    var d := if t != "" && t[0] == '+' then t[1..] else t;
    if AllDigits(d) && Value(d) < 0x1_0000_0000 then Some(Value(d)) else None
  }

  function SkipBlanks(s: string): string {
    if s != "" && (s[0] == ' ' || s[0] == '\t') then SkipBlanks(s[1..]) else s
  }

  /** The conversion loop in wrapping 32-bit arithmetic; its two checks catch every overflow. */
  method StrToUint(s: string) returns (r: Option<nat>)
    ensures r == ParseUint(s)
  {
    var t := SkipBlanks(s);
    var d := if t != "" && t[0] == '+' then t[1..] else t;
    r := Convert(d);
  }

  method Convert(d: string) returns (r: Option<nat>)
    ensures r == if AllDigits(d) && Value(d) < TWO32 then Some(Value(d)) else None
  {
    assert Value(d[..0]) == 0;
    hide Value;
    var val, i := 0, 0;
    while i < |d|
      invariant i <= |d| && AllDigits(d[..i]) && val == Value(d[..i]) && val < TWO32
    {
      var pval := val;
      val := val * 10 % TWO32;
      if val / 10 != pval {
        if AllDigits(d) { ValueGrows(d, i); }
        return None;
      }
      assert val == 10 * pval;
      pval := val;
      if !IsDigit(d[i]) { return None; }
      NextValue(d, i);
      val := (val + DigitValue(d[i])) % TWO32;
      if val < pval {
        if AllDigits(d) { ValueGrows(d, i + 1); }
        return None;
      }
      i := i + 1;
    }
    assert d[..i] == d;
    r := Some(val);
  }

  lemma NextValue(d: string, i: nat)
    requires i < |d| && AllDigits(d[..i]) && IsDigit(d[i])
    ensures AllDigits(d[..i + 1]) && Value(d[..i + 1]) == 10 * Value(d[..i]) + DigitValue(d[i])
  {
    assert d[..i + 1][..i] == d[..i];
  }

  lemma {:induction false} ValueGrows(d: string, i: nat)
    requires i <= |d| && AllDigits(d)
    ensures Value(d[..i]) <= Value(d)
    ensures i < |d| ==> 10 * Value(d[..i]) <= Value(d)
  {
    if i == |d| {
      assert d[..i] == d;
    } else {
      var front := d[..|d| - 1];
      ValueGrows(front, i);
      assert front[..i] == d[..i];
    }
  }

  // ---------------------------------------------------------------- accounts and tables

  class Account {
    const name: string
    const userid: nat      // the stored attribute; uid and namehash are filled in when the account is indexed
    var uid: nat
    var namehash: bv32

    constructor (name: string, userid: nat)
      ensures this.name == name && this.userid == userid && uid == 0 && namehash == 0
    {
      this.name, this.userid := name, userid;
      uid, namehash := 0, 0;
    }
  }

  function RowOf(hash: bv32, n: nat): (r: nat)
    requires n >= 1
    ensures r < n
  {
    hash as int % n
  }

  /** Every account sits in the row of its name hash, and only accounts are in the rows. */
  ghost predicate NameTable(rows: seq<seq<Account>>, accounts: set<Account>) {
    && |rows| >= 1
    && (forall r, i :: 0 <= r < |rows| && 0 <= i < |rows[r]| ==>
          rows[r][i] in accounts && RowOf(AccountHash(rows[r][i].name), |rows|) == r)
    && (forall a :: a in accounts ==> a in rows[RowOf(AccountHash(a.name), |rows|)])
  }

  ghost predicate UidTable(rows: seq<seq<Account>>, accounts: set<Account>) {
    && |rows| >= 1
    && (forall r, i :: 0 <= r < |rows| && 0 <= i < |rows[r]| ==>
          rows[r][i] in accounts && rows[r][i].userid % |rows| == r)
    && (forall a :: a in accounts ==> a in rows[a.userid % |rows|])
  }

  /** The fields filled in when an account is indexed. */
  ghost predicate Indexed(a: Account, max: nat)
    reads a
  {
    a.uid == a.userid && a.namehash == AccountHash(a.name) && a.name != "" && 1 <= a.userid <= max
  }

  ghost predicate Distinct(accounts: set<Account>) {
    forall a, b :: a in accounts && b in accounts && a != b ==>
      !EqIgnoreCase(a.name, b.name) && a.userid != b.userid
  }

  /** hashtable_insert_data puts the new entry at the head of its row. */
  function Insert(rows: seq<seq<Account>>, r: nat, a: Account): seq<seq<Account>>
    requires r < |rows|
  {
    rows[r := [a] + rows[r]]
  }

  lemma InsertName(rows: seq<seq<Account>>, accounts: set<Account>, a: Account)
    requires NameTable(rows, accounts)
    ensures NameTable(Insert(rows, RowOf(AccountHash(a.name), |rows|), a), accounts + {a})
  {
    hide AccountHash, RowOf;
    var rows' := Insert(rows, RowOf(AccountHash(a.name), |rows|), a);
    forall b | b in accounts + {a} ensures b in rows'[RowOf(AccountHash(b.name), |rows'|)] {
      var q := RowOf(AccountHash(b.name), |rows'|);
      if b == a { assert rows'[q][0] == a; } else { assert b in rows[q]; }
    }
  }

  lemma InsertUid(rows: seq<seq<Account>>, accounts: set<Account>, a: Account)
    requires UidTable(rows, accounts)
    ensures UidTable(Insert(rows, a.userid % |rows|, a), accounts + {a})
  {
    var rows' := Insert(rows, a.userid % |rows|, a);
    forall b | b in accounts + {a} ensures b in rows'[b.userid % |rows'|] {
      var q := b.userid % |rows'|;
      if b == a { assert rows'[q][0] == a; } else { assert b in rows[q]; }
    }
  }

  /** Looking only in the row of the name's hash misses no account of that name. */
  lemma RowHoldsName(rows: seq<seq<Account>>, accounts: set<Account>, username: string, a: Account)
    requires NameTable(rows, accounts) && a in accounts && EqIgnoreCase(a.name, username)
    ensures a in rows[RowOf(AccountHash(username), |rows|)]
  {
    HashIgnoresCase(a.name, username, 5381);
  }

  method ScanByName(row: seq<Account>, username: string) returns (r: Option<Account>)
    ensures r.Some? ==> r.value in row && EqIgnoreCase(r.value.name, username)
    ensures r.None? ==> forall a :: a in row ==> !EqIgnoreCase(a.name, username)
  {
    for i := 0 to |row|
      invariant forall j :: 0 <= j < i ==> !EqIgnoreCase(row[j].name, username)
    {
      if EqIgnoreCase(row[i].name, username) { return Some(row[i]); }
    }
    r := None;
  }

  /** Which uid, if any, a typed user name asks for. */
  function AskedUid(username: string, savebyname: bool): nat {
    if username != "" && username[0] == '#' then Uid(ParseUint(username[1..]))
    else if !savebyname then Uid(ParseUint(username))
    else 0
  }

  function Uid(o: Option<nat>): nat {
    if o.Some? then o.value else 0
  }

  /** A number-like name that is not an indexed uid is still tried as a name if it starts like one. */
  function TriedAsName(username: string, savebyname: bool): bool {
    AskedUid(username, savebyname) == 0 || username == "" || username[0] == '#' || IsDigit(username[0])
  }

  /** The answer of a linear scan over all accounts. */
  ghost predicate IsAnswer(accounts: set<Account>, username: string, savebyname: bool, r: Option<Account>) {
    var uid := AskedUid(username, savebyname);
    if uid != 0 && exists a :: a in accounts && a.userid == uid then
      r.Some? && r.value in accounts && r.value.userid == uid
    else if TriedAsName(username, savebyname) && exists a :: a in accounts && EqIgnoreCase(a.name, username) then
      r.Some? && r.value in accounts && EqIgnoreCase(r.value.name, username)
    else r.None?
  }

  // ---------------------------------------------------------------- what a typed name asks for

  /** A number as it may be typed: blanks, an optional plus, and digits. */
  ghost predicate Denotes(s: string, u: nat) {
    exists i :: 0 <= i <= |s| && DenotesFrom(s, i, u)
  }

  predicate DenotesFrom(s: string, i: nat, u: nat)
    requires i <= |s|
  {
    && (forall k :: 0 <= k < i ==> s[k] == ' ' || s[k] == '\t')
    && var d := if i < |s| && s[i] == '+' then s[i + 1..] else s[i..];
       AllDigits(d) && Value(d) == u
  }

  /** The conversion yields exactly the numbers that fit 32 bits. */
  lemma {:induction false} ParseExactly(s: string, u: nat)
    ensures ParseUint(s) == Some(u) <==> u < TWO32 && Denotes(s, u)
    decreases |s|
  {
    hide Value;
    if s != "" && (s[0] == ' ' || s[0] == '\t') {
      ParseExactly(s[1..], u);
      assert ParseUint(s) == ParseUint(s[1..]);
      if i :| 0 <= i <= |s[1..]| && DenotesFrom(s[1..], i, u) { OneMoreBlank(s, i, u); }
      if i :| 0 <= i <= |s| && DenotesFrom(s, i, u) {
        BlankFirst(s, i, u);
        OneMoreBlank(s, i - 1, u);
      }
    } else {
      assert s[0..] == s;
      assert ParseUint(s) == Some(u) <==> u < TWO32 && DenotesFrom(s, 0, u);
    }
  }

  lemma OneMoreBlank(s: string, i: nat, u: nat)
    requires s != "" && (s[0] == ' ' || s[0] == '\t') && i < |s|
    ensures DenotesFrom(s[1..], i, u) <==> DenotesFrom(s, i + 1, u)
  {
    hide Value;
    assert s[1..][i..] == s[i + 1..];
    if i + 1 < |s| { assert s[1..][i] == s[i + 1] && s[1..][i + 1..] == s[i + 2..]; }
    if DenotesFrom(s, i + 1, u) {
      forall k | 0 <= k < i ensures s[1..][k] == ' ' || s[1..][k] == '\t' { assert s[1..][k] == s[k + 1]; }
    }
  }

  lemma BlankFirst(s: string, i: nat, u: nat)
    requires s != "" && (s[0] == ' ' || s[0] == '\t') && i <= |s| && DenotesFrom(s, i, u)
    ensures i > 0
  {
    hide Value;
    assert s[0..] == s;
  }

  /** The account of that name, ignoring case, if there is one. */
  ghost predicate ByName(accounts: set<Account>, username: string, r: Option<Account>) {
    if exists a :: a in accounts && EqIgnoreCase(a.name, username)
    then r.Some? && r.value in accounts && EqIgnoreCase(r.value.name, username)
    else r.None?
  }

  /** The account of that uid if there is one, and otherwise what the rest of the lookup says. */
  ghost predicate ByUid(accounts: set<Account>, u: nat, r: Option<Account>, otherwise: bool) {
    if exists a :: a in accounts && a.userid == u
    then r.Some? && r.value in accounts && r.value.userid == u
    else otherwise
  }

  /** Where names are saved by name, whatever does not begin with '#' asks for a name. */
  lemma NameAsked(accounts: set<Account>, username: string, r: Option<Account>)
    requires username == "" || username[0] != '#'
    ensures IsAnswer(accounts, username, true, r) <==> ByName(accounts, username, r)
  {
  }

  /** A number behind '#', or a name that reads as a number where names are not saved by name, asks for a uid. Where
      there is none of it the whole is tried as a name, unless it begins with a blank or a plus. */
  lemma UidAsked(accounts: set<Account>, username: string, savebyname: bool, s: string, u: nat, r: Option<Account>)
    requires Denotes(s, u) && 0 < u < TWO32
    requires username == "#" + s || (username == s && !savebyname)
    ensures s != ""
    ensures IsAnswer(accounts, username, savebyname, r) <==>
            ByUid(accounts, u, r, if username == s && !IsDigit(s[0]) then r.None? else ByName(accounts, username, r))
  {
    NumberReads(username, savebyname, s, u);
    hide AskedUid, TriedAsName, EqIgnoreCase, ByName, Denotes;
  }

  lemma NumberReads(username: string, savebyname: bool, s: string, u: nat)
    requires Denotes(s, u) && 0 < u < TWO32
    requires username == "#" + s || (username == s && !savebyname)
    ensures s != "" && AskedUid(username, savebyname) == u
    ensures TriedAsName(username, savebyname) <==> !(username == s && !IsDigit(s[0]))
  {
    ParseExactly(s, u);
    BeginsLikeANumber(s, u);
    hide ParseUint, Denotes;
    if username == "#" + s { assert username[1..] == s && |username| != |s|; }
  }

  lemma BeginsLikeANumber(s: string, u: nat)
    requires Denotes(s, u) && u > 0
    ensures s != "" && s[0] != '#'
  {
    var i :| 0 <= i <= |s| && DenotesFrom(s, i, u);
    assert Value("") == 0;
    if i == 0 { assert s[0..] == s; }
  }

  /** Everything else asks for a name. */
  lemma NoUidAsked(accounts: set<Account>, username: string, savebyname: bool, r: Option<Account>)
    requires forall u: nat :: 0 < u < TWO32 ==> !Denotes(username, u)
    requires username != "" && username[0] == '#' ==> forall u: nat :: 0 < u < TWO32 ==> !Denotes(username[1..], u)
    ensures IsAnswer(accounts, username, savebyname, r) <==> ByName(accounts, username, r)
  {
    var p := if username != "" && username[0] == '#' then ParseUint(username[1..]) else ParseUint(username);
    hide ParseUint, Denotes, EqIgnoreCase;
    if p.Some? {
      ParseExactly(username, p.value);
      if username != "" { ParseExactly(username[1..], p.value); }
    }
  }

  /** "#12" asks for the account of uid 12 first, and so does "12" where names are not saved by name. */
  lemma NumberAsked(accounts: set<Account>, savebyname: bool, u: nat, r: Option<Account>)
    requires 0 < u < TWO32
    ensures IsAnswer(accounts, "#" + Digits(u), savebyname, r) <==>
            ByUid(accounts, u, r, ByName(accounts, "#" + Digits(u), r))
    ensures IsAnswer(accounts, Digits(u), false, r) <==> ByUid(accounts, u, r, ByName(accounts, Digits(u), r))
  {
    var s := Digits(u);
    DigitsDenote(u);
    assert s[0..] == s && s[0] != '+' && IsDigit(s[0]);
    assert DenotesFrom(s, 0, u);
    hide IsAnswer, ByUid, ByName, Digits, DenotesFrom;
    UidAsked(accounts, "#" + s, savebyname, s, u, r);
    UidAsked(accounts, s, false, s, u, r);
    assert |"#" + s| != |s|;
  }

  // ---------------------------------------------------------------- new names

  /** No indexed account has the uid or, ignoring case, the name of this one. */
  ghost predicate Unused(accounts: set<Account>, account: Account) {
    forall a :: a in accounts ==> a.userid != account.userid && !EqIgnoreCase(a.name, account.name)
  }

  /** A new account may take the name: nobody has it, and it does not read as the uid of an account. */
  ghost predicate Available(accounts: set<Account>, username: string, savebyname: bool) {
    forall a :: a in accounts ==>
      !EqIgnoreCase(a.name, username) && (a.userid != AskedUid(username, savebyname) || a.userid == 0)
  }

  lemma DistinctAdd(accounts: set<Account>, account: Account)
    requires Distinct(accounts) && Unused(accounts, account)
    ensures Distinct(accounts + {account})
  {
  }

  class AccountList {
    const savebyname: bool
    const maxAccounts: nat    // 0 means no limit
    var nameRows: seq<seq<Account>>
    var uidRows: seq<seq<Account>>
    var length: nat
    var maxuserid: nat
    ghost var accounts: set<Account>

    constructor (numRows: nat, maxuserid: nat, savebyname: bool, maxAccounts: nat)
      requires numRows >= 1 && maxuserid < TWO32
      ensures Valid() && accounts == {} && this.maxuserid == maxuserid
      ensures this.savebyname == savebyname && this.maxAccounts == maxAccounts
    {
      this.savebyname, this.maxAccounts, this.maxuserid := savebyname, maxAccounts, maxuserid;
      nameRows := seq(numRows, i => []);
      uidRows := seq(numRows, i => []);
      length := 0;
      accounts := {};
    }

    ghost predicate Valid()
      reads this, accounts
    {
      && NameTable(nameRows, accounts) && UidTable(uidRows, accounts) && Distinct(accounts)
      && (forall a :: a in accounts ==> Indexed(a, maxuserid))
      && maxuserid < TWO32 && length == |accounts|
    }

    /** accountlist_find_account_by_uid, up to the call that loads from storage. */
    method FindByUid(uid: nat) returns (r: Option<Account>)
      requires Valid()
      ensures r.Some? ==> r.value in accounts && r.value.uid == uid != 0
      ensures r.None? ==> forall a :: a in accounts ==> a.uid != uid
    {
      hide NameTable, Distinct, AccountHash;
      if uid != 0 {
        var row := uidRows[uid % |uidRows|];
        for i := 0 to |row|
          invariant forall j :: 0 <= j < i ==> row[j].uid != uid
        {
          if row[i].uid == uid { return Some(row[i]); }
        }
        assert forall a :: a in accounts && a.uid == uid ==> a in row;
      }
      r := None;
    }

    /** accountlist_find_account, up to the call that loads from storage. */
    method FindAccount(username: string) returns (r: Option<Account>)
      requires Valid()
      ensures IsAnswer(accounts, username, savebyname, r)
    {
      hide AccountHash, UidTable, Distinct, ParseUint, RowOf;
      var userid := 0;
      if username != "" && username[0] == '#' {
        var u := StrToUint(username[1..]);
        userid := Uid(u);
      } else if !savebyname {
        var u := StrToUint(username);
        userid := Uid(u);
      }
      if userid != 0 {
        r := FindByUid(userid);
        if r.Some? { return; }
      }
      if userid == 0 || username == "" || username[0] == '#' || IsDigit(username[0]) {
        r := FindByName(username);
        return;
      }
      r := None;
    }

    method FindByName(username: string) returns (r: Option<Account>)
      requires Valid()
      ensures r.Some? ==> r.value in accounts && EqIgnoreCase(r.value.name, username)
      ensures r.None? ==> forall a :: a in accounts ==> !EqIgnoreCase(a.name, username)
    {
      hide AccountHash, UidTable, Distinct, RowOf, EqIgnoreCase;
      var row := nameRows[RowOf(AccountHash(username), |nameRows|)];
      r := ScanByName(row, username);
      if r.None? {
        forall a | a in accounts ensures !EqIgnoreCase(a.name, username) {
          if EqIgnoreCase(a.name, username) { RowHoldsName(nameRows, accounts, username, a); }
        }
      }
    }

    /** The limit on the number of accounts; a forced addition ignores it. */
    predicate AllowAdd(force: bool)
      reads this
    {
      force || maxAccounts == 0 || maxAccounts > length
    }

    /**
     accountlist_add_account. The uid table is consulted only for uids up to the largest one seen, yet an
     account is added exactly when no indexed account has its uid or, ignoring case, its name.
     */
    method AddAccount(account: Account, force: bool) returns (ok: bool)
      requires Valid() && account !in accounts && account.userid < TWO32
      modifies this, account
      ensures Valid()
      ensures ok <==> account.name != "" && account.userid >= 1 && Unused(old(accounts), account) &&
                      (force || maxAccounts == 0 || |old(accounts)| < maxAccounts)
      ensures accounts == if ok then old(accounts) + {account} else old(accounts)
      ensures ok ==> account.uid == account.userid
      ensures maxuserid == if ok && account.userid > old(maxuserid) then account.userid else old(maxuserid)
      ensures !ok ==> nameRows == old(nameRows) && uidRows == old(uidRows)
    {
      hide NameTable, UidTable, AccountHash, RowOf, EqIgnoreCase;
      if account.name == "" { return false; }
      if account.userid < 1 { return false; }
      if !AllowAdd(force) { return false; }
      account.namehash := AccountHash(account.name);
      account.uid := account.userid;
      if account.uid <= maxuserid {
        var u := FindByUid(account.uid);
        if u.Some? { return false; }
      }
      var n := FindByName(account.name);
      if n.Some? { return false; }
      Index(account);
      ok := true;
    }

    /** The insertion into both tables. */
    method Index(account: Account)
      requires Valid() && account !in accounts && 1 <= account.userid < TWO32 && account.name != ""
      requires account.uid == account.userid && account.namehash == AccountHash(account.name)
      requires Unused(accounts, account)
      modifies this
      ensures Valid() && accounts == old(accounts) + {account}
      ensures maxuserid == if account.userid > old(maxuserid) then account.userid else old(maxuserid)
    {
      var max := if account.uid > maxuserid then account.uid else maxuserid;
      Extended(account, max);
      hide *;
      SetTables(Insert(nameRows, RowOf(account.namehash, |nameRows|), account),
                Insert(uidRows, account.uid % |uidRows|, account), accounts + {account}, max);
    }

    method SetTables(names: seq<seq<Account>>, uids: seq<seq<Account>>, ghost all: set<Account>, max: nat)
      requires NameTable(names, all) && UidTable(uids, all) && Distinct(all)
      requires forall a :: a in all ==> Indexed(a, max)
      requires max < TWO32 && length + 1 == |all|
      modifies this
      ensures Valid() && accounts == all && maxuserid == max
    {
      hide NameTable, UidTable, Distinct, Indexed;
      nameRows, uidRows, length, maxuserid := names, uids, length + 1, max;
      accounts := all;
    }

    /** What the invariant says of the tables after an insertion. */
    lemma Extended(account: Account, max: nat)
      requires Valid() && Unused(accounts, account) && Indexed(account, max) && maxuserid <= max
      ensures |nameRows| >= 1 && |uidRows| >= 1
      ensures NameTable(Insert(nameRows, RowOf(account.namehash, |nameRows|), account), accounts + {account})
      ensures UidTable(Insert(uidRows, account.uid % |uidRows|, account), accounts + {account})
      ensures Distinct(accounts + {account})
      ensures forall a :: a in accounts + {account} ==> Indexed(a, max)
    {
      assert |nameRows| >= 1 && |uidRows| >= 1;
      hide NameTable, UidTable, Distinct, Unused, Insert, RowOf, EqIgnoreCase, AccountHash;
      InsertName(nameRows, accounts, account);
      InsertUid(uidRows, accounts, account);
      DistinctAdd(accounts, account);
    }

    /** accountlist_create_account: the next uid after the largest one is never taken. */
    method CreateAccount(username: string, force: bool) returns (r: Option<Account>)
      requires Valid()
      modifies this
      ensures Valid()
      ensures r.Some? ==> fresh(r.value) && accounts == old(accounts) + {r.value}
      ensures r.Some? ==> r.value.name == username && r.value.uid == old(maxuserid) + 1 == maxuserid
      ensures r.None? ==> accounts == old(accounts) && maxuserid == old(maxuserid)
      ensures r.Some? <==> username != "" && old(maxuserid) + 1 < TWO32 &&
                           (force || maxAccounts == 0 || |old(accounts)| < maxAccounts) &&
                           Available(old(accounts), username, savebyname)
    {
      hide NameTable, UidTable, Distinct, AccountHash, RowOf, EqIgnoreCase, AskedUid, TriedAsName, Indexed;
      hide IsAnswer, Available, Unused;
      AllBelow();
      var taken := FindAccount(username);
      if taken.Some? {
        NameTaken(accounts, username, savebyname, taken.value);
        return None;
      }
      var account := new Account(username, (maxuserid + 1) % TWO32);
      if maxuserid + 1 < TWO32 { NextUid(account); }
      var ok := AddAccount(account, force);
      r := if ok then Some(account) else None;
    }

    lemma AllBelow()
      requires Valid()
      ensures forall a :: a in accounts ==> 1 <= a.userid <= maxuserid
    {
    }

    lemma NextUid(account: Account)
      requires Valid() && account.userid > maxuserid && IsAnswer(accounts, account.name, savebyname, None)
      ensures Unused(accounts, account) <==> Available(accounts, account.name, savebyname)
    {
      AllBelow();
      NewName(accounts, account.name, savebyname);
      hide Available, IsAnswer, EqIgnoreCase, Indexed;
    }
  }

  lemma NameTaken(accounts: set<Account>, username: string, savebyname: bool, a: Account)
    requires IsAnswer(accounts, username, savebyname, Some(a))
    ensures (forall o :: o in accounts ==> o.userid >= 1) ==> !Available(accounts, username, savebyname)
  {
    hide AskedUid, EqIgnoreCase, TriedAsName;
    assert a in accounts;
  }

  /** When the lookup finds nothing, the name is available exactly if no account has it. */
  lemma NewName(accounts: set<Account>, username: string, savebyname: bool)
    requires IsAnswer(accounts, username, savebyname, None)
    ensures Available(accounts, username, savebyname) <==>
            forall a :: a in accounts ==> !EqIgnoreCase(a.name, username)
  {
  }
}
