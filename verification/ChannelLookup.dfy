/**
 Looking a channel up by name. A short name stands for a family of copies: the first suitable copy with room is
 the answer, and when all are full a further copy is due.
 */
module ChannelLookup {
  import opened Common
  import opened Decimal

  /** What a lookup sees of a channel; tag 0 is no client tag, and -1 members is no limit. */
  datatype Info = Info(name: string, shortname: Option<string>, tag: nat,
                       country: Option<string>, realm: Option<string>,
                       bots: bool, opers: bool, logged: bool, moderated: bool, autoname: bool,
                       maxmembers: int, currmembers: nat)

  datatype Query = Query(name: string, country: Option<string>, realm: Option<string>)

  /** What a scan remembers: whether the family exists, whether a full copy of the right language was met, the name
      of that copy if it was given by hand, how many full copies there are, and the last copy looked at. */
  datatype Memory = Memory(perm: bool, lang: bool, special: Option<string>, copies: nat, last: nat)

  const NOTHING := Memory(false, false, None, 0, 0)

  datatype Outcome = Found(index: nat) | Ended(memory: Memory)

  predicate Exact(ch: Info, name: string) {
    EqIgnoreCase(ch.name, name)
  }

  predicate Short(ch: Info, name: string) {
    ch.shortname.Some? && EqIgnoreCase(ch.shortname.value, name)
  }

  predicate Suits(ch: Info, q: Query, lang: bool) {
    && ((ch.country.None? && !lang) || q.country.None? || ch.country == q.country)
    && (ch.realm.None? || q.realm.None? || ch.realm == q.realm)
  }

  /** Two choices clash if both are made and differ. */
  predicate Clash(a: Option<string>, b: Option<string>) {
    a.Some? && b.Some? && a != b
  }

  /** A copy suits unless a country or a realm clashes; with a language remembered, one without does not do any more. */
  lemma SuitsExactly(ch: Info, q: Query, lang: bool)
    ensures Suits(ch, q, lang) <==>
            !Clash(ch.country, q.country) && !Clash(ch.realm, q.realm) &&
            !(lang && ch.country.None? && q.country.Some?)
  {
  }

  predicate HasRoom(ch: Info) {
    ch.maxmembers == -1 || ch.currmembers < ch.maxmembers
  }

  function Noted(memory: Memory, ch: Info, at: nat, q: Query): Memory {
    if Suits(ch, q, memory.lang) then
      var first := !memory.lang && ch.country.Some?;
      Memory(true, memory.lang || first,
             if first && !ch.autoname then Some(ch.name) else memory.special,
             (if first then 0 else memory.copies) + 1, at)
    else memory.(perm := true, last := at)
  }

  /** The scan of places i to limit of the list. */
  function Scan(list: seq<Info>, q: Query, i: nat, limit: nat, memory: Memory): (r: Outcome)
    requires i <= limit <= |list|
    ensures r.Found? ==> r.index < limit
    decreases limit, 0, limit - i
  {
    if i == limit then Ended(memory)
    else if Exact(list[i], q.name) then Found(i)
    else if Short(list[i], q.name) then
      var at := Resolved(list, q, i);
      if Suits(list[at], q, memory.lang) && HasRoom(list[at]) then Found(at)
      else Scan(list, q, i + 1, limit, Noted(memory, list[at], at, q))
    else Scan(list, q, i + 1, limit, memory)
  }

  /** The copy that a lookup by the full name of place i leads to: an earlier one, or place i itself. */
  function Resolved(list: seq<Info>, q: Query, i: nat): (r: nat)
    requires i < |list|
    ensures r <= i
    decreases i, 1, 0
  {
    match Scan(list, q.(name := list[i].name), 0, i, NOTHING)
    case Found(m) => m
    case Ended(_) => i
  }

  function Lookup(list: seq<Info>, q: Query): Outcome {
    Scan(list, q, 0, |list|, NOTHING)
  }

  // ---------------------------------------------------------------- what is found

  /** Somebody's short name: place k belongs to the family, and leads to place m. */
  ghost predicate LeadsTo(list: seq<Info>, q: Query, k: nat, m: nat) {
    k < |list| && Short(list[k], q.name) && Resolved(list, q, k) == m
  }

  /** A channel found has the full name asked for, or is a copy of the family, of a suitable country and realm, with
      room left. */
  lemma {:induction false} FoundIsRight(list: seq<Info>, q: Query, i: nat, limit: nat, memory: Memory)
    requires i <= limit <= |list|
    ensures var r := Scan(list, q, i, limit, memory);
            r.Found? && !Exact(list[r.index], q.name) ==>
              HasRoom(list[r.index]) && Suits(list[r.index], q, false) && exists k :: LeadsTo(list, q, k, r.index)
    decreases limit - i
  {
    hide Suits, HasRoom, Resolved, Short, Exact;
    if i < limit {
      if Exact(list[i], q.name) {
      } else if Short(list[i], q.name) {
        var at := Resolved(list, q, i);
        if Suits(list[at], q, memory.lang) && HasRoom(list[at]) {
          AnyLanguage(list[at], q, memory.lang);
          assert LeadsTo(list, q, i, at);
        } else {
          FoundIsRight(list, q, i + 1, limit, Noted(memory, list[at], at, q));
        }
      } else {
        FoundIsRight(list, q, i + 1, limit, memory);
      }
    }
  }

  lemma AnyLanguage(ch: Info, q: Query, lang: bool)
    ensures Suits(ch, q, true) ==> Suits(ch, q, lang)
    ensures Suits(ch, q, lang) ==> Suits(ch, q, false)
  {
  }

  /** A scan that finds nothing has met no channel of that full name, and no copy with room that surely suits. */
  lemma {:induction false} NothingOverlooked(list: seq<Info>, q: Query, i: nat, limit: nat, memory: Memory, k: nat)
    requires i <= k < limit <= |list| && Scan(list, q, i, limit, memory).Ended?
    ensures !Exact(list[k], q.name)
    ensures var at := Resolved(list, q, k);
            Short(list[k], q.name) ==> !(Suits(list[at], q, true) && HasRoom(list[at]))
    decreases limit - i
  {
    hide Suits, HasRoom, Resolved, Short, Exact;
    if Short(list[i], q.name) {
      var at := Resolved(list, q, i);
      AnyLanguage(list[at], q, memory.lang);
      if i < k { NothingOverlooked(list, q, i + 1, limit, Noted(memory, list[at], at, q), k); }
    } else {
      if i < k { NothingOverlooked(list, q, i + 1, limit, memory, k); }
    }
  }

  /** Without exact matches and short names, nothing is remembered; otherwise the last place is a place of the list. */
  lemma {:induction false} MemoryIs(list: seq<Info>, q: Query, i: nat, limit: nat, memory: Memory)
    requires i <= limit <= |list| && Scan(list, q, i, limit, memory).Ended?
    ensures var s := Scan(list, q, i, limit, memory).memory;
            && (s.perm <==> memory.perm || exists k :: i <= k < limit && Short(list[k], q.name))
            && (s.perm ==> s.last == memory.last || s.last < |list|)
            && (!memory.perm && s.perm ==> s.last < |list|)
    decreases limit - i
  {
    hide Suits, HasRoom, Resolved, Short, Exact;
    if i < limit {
      if Short(list[i], q.name) {
        var at := Resolved(list, q, i);
        MemoryIs(list, q, i + 1, limit, Noted(memory, list[at], at, q));
      } else {
        MemoryIs(list, q, i + 1, limit, memory);
      }
    }
  }

  lemma {:induction false} ScanPasses(list: seq<Info>, q: Query, i: nat, limit: nat, memory: Memory)
    requires i <= limit <= |list|
    requires forall j :: i <= j < limit ==> !Exact(list[j], q.name) && !Short(list[j], q.name)
    ensures Scan(list, q, i, limit, memory) == Ended(memory)
    decreases limit - i
  {
    hide Short, Exact;
    if i < limit { ScanPasses(list, q, i + 1, limit, memory); }
  }

  /** No earlier channel goes by a later one's full name. */
  ghost predicate Apart(list: seq<Info>) {
    forall j, k :: 0 <= j < k < |list| ==> !Exact(list[j], list[k].name) && !Short(list[j], list[k].name)
  }

  /** Then a full name leads to the channel that bears it. */
  lemma NamesResolve(list: seq<Info>, q: Query, k: nat)
    requires k < |list| && Apart(list)
    ensures Resolved(list, q, k) == k
  {
    hide Short, Exact;
    ScanPasses(list, q.(name := list[k].name), 0, k, NOTHING);
  }

  lemma {:induction false} LastIsFamily(list: seq<Info>, q: Query, i: nat, limit: nat, memory: Memory)
    requires i <= limit <= |list| && Scan(list, q, i, limit, memory).Ended? && Apart(list)
    requires memory.perm ==> memory.last < |list| && Short(list[memory.last], q.name)
    ensures var s := Scan(list, q, i, limit, memory).memory;
            s.perm ==> s.last < |list| && Short(list[s.last], q.name)
    decreases limit - i
  {
    hide Suits, HasRoom, Resolved, Short, Exact;
    if i < limit {
      if Short(list[i], q.name) {
        NamesResolve(list, q, i);
        LastIsFamily(list, q, i + 1, limit, Noted(memory, list[i], i, q));
      } else {
        LastIsFamily(list, q, i + 1, limit, memory);
      }
    }
  }

  // ---------------------------------------------------------------- how many copies are counted

  /** Place k belongs to the family, and the copy it leads to suits. */
  predicate Candidate(list: seq<Info>, q: Query, k: nat, lang: bool)
    requires k < |list|
  {
    Short(list[k], q.name) && Suits(list[Resolved(list, q, k)], q, lang)
  }

  function Count(list: seq<Info>, q: Query, i: nat, limit: nat, lang: bool): nat
    requires i <= limit <= |list|
    decreases limit - i
  {
    if i == limit then 0 else (if Candidate(list, q, i, lang) then 1 else 0) + Count(list, q, i + 1, limit, lang)
  }

  /** Once a language is remembered, the copies that suit it are counted, and the name kept stays. */
  lemma {:induction false} CountsOn(list: seq<Info>, q: Query, i: nat, limit: nat, memory: Memory)
    requires i <= limit <= |list| && Scan(list, q, i, limit, memory).Ended? && memory.lang
    ensures var s := Scan(list, q, i, limit, memory).memory;
            s.lang && s.special == memory.special && s.copies == memory.copies + Count(list, q, i, limit, true)
    decreases limit - i
  {
    hide Suits, HasRoom, Resolved, Short, Exact;
    if i < limit {
      if Short(list[i], q.name) {
        CountsOn(list, q, i + 1, limit, Noted(memory, list[Resolved(list, q, i)], Resolved(list, q, i), q));
      } else {
        CountsOn(list, q, i + 1, limit, memory);
      }
    }
  }

  /** Place j is a suitable copy that has a language. */
  predicate OfLanguage(list: seq<Info>, q: Query, j: nat) {
    j < |list| && Candidate(list, q, j, false) && list[Resolved(list, q, j)].country.Some?
  }

  /** Place k is the first of these. */
  ghost predicate FirstOfLanguage(list: seq<Info>, q: Query, i: nat, k: nat) {
    i <= k && OfLanguage(list, q, k) && forall j: nat :: i <= j < k ==> !OfLanguage(list, q, j)
  }

  ghost predicate NoLanguage(list: seq<Info>, q: Query, i: nat) {
    forall j: nat :: i <= j ==> !OfLanguage(list, q, j)
  }

  /** One place of the scan, where no language has been remembered. */
  lemma CountStep(list: seq<Info>, q: Query, i: nat, memory: Memory) returns (memory': Memory)
    requires i < |list| && Scan(list, q, i, |list|, memory).Ended? && !memory.lang
    ensures Scan(list, q, i, |list|, memory) == Scan(list, q, i + 1, |list|, memory')
    ensures memory'.lang <==> OfLanguage(list, q, i)
    ensures OfLanguage(list, q, i) ==>
              var first := list[Resolved(list, q, i)];
              memory'.copies == 1 && memory'.special == if first.autoname then memory.special else Some(first.name)
    ensures !OfLanguage(list, q, i) ==>
              && memory'.special == memory.special
              && memory'.copies == memory.copies + (if Candidate(list, q, i, false) then 1 else 0)
  {
    hide Suits, HasRoom, Resolved, Short, Exact;
    var at := Resolved(list, q, i);
    memory' := if Short(list[i], q.name) then Noted(memory, list[at], at, q) else memory;
  }

  /** A scan without success has counted the suitable copies, if none of them has a language. */
  lemma {:induction false} CopiesCounted(list: seq<Info>, q: Query, i: nat, memory: Memory)
    requires i <= |list| && Scan(list, q, i, |list|, memory).Ended? && !memory.lang && NoLanguage(list, q, i)
    ensures var s := Scan(list, q, i, |list|, memory).memory;
            !s.lang && s.special == memory.special && s.copies == memory.copies + Count(list, q, i, |list|, false)
    decreases |list| - i
  {
    hide Scan, Candidate, OfLanguage;
    if i < |list| {
      var memory' := CountStep(list, q, i, memory);
      CopiesCounted(list, q, i + 1, memory');
    } else {
      ScanNone(list, q, memory);
    }
  }

  /** The first of them with a language starts the count again, and gives its name if it was named by hand. */
  lemma {:induction false} CopiesOfLanguage(list: seq<Info>, q: Query, i: nat, memory: Memory, k: nat)
    requires i <= |list| && Scan(list, q, i, |list|, memory).Ended? && !memory.lang && FirstOfLanguage(list, q, i, k)
    ensures k < |list|
    ensures var s, first := Scan(list, q, i, |list|, memory).memory, list[Resolved(list, q, k)];
            && s.lang && s.copies == 1 + Count(list, q, k + 1, |list|, true)
            && s.special == if first.autoname then memory.special else Some(first.name)
    decreases |list| - i
  {
    assert k < |list|;
    hide Scan, Candidate, OfLanguage, Count, Resolved;
    var memory' := CountStep(list, q, i, memory);
    if i == k {
      CountsOn(list, q, i + 1, |list|, memory');
    } else {
      CopiesOfLanguage(list, q, i + 1, memory', k);
    }
  }

  lemma ScanNone(list: seq<Info>, q: Query, memory: Memory)
    ensures Scan(list, q, |list|, |list|, memory) == Ended(memory)
  {
  }

  // ---------------------------------------------------------------- a further copy

  function FormatName(sname: string, country: Option<string>, realm: Option<string>, id: nat): string {
    (if realm.Some? then realm.value + " " else "") + sname +
    (if country.Some? then " " + country.value else "") + "-" + Digits(id)
  }

  /** Copies of one family differ in name exactly if they differ in number. */
  lemma NumbersTellCopies(sname: string, country: Option<string>, realm: Option<string>, a: nat, b: nat)
    ensures FormatName(sname, country, realm, a) == FormatName(sname, country, realm, b) ==> a == b
  {
    DigitsDenote(a);
    DigitsDenote(b);
    var stem := (if realm.Some? then realm.value + " " else "") + sname +
                (if country.Some? then " " + country.value else "") + "-";
    assert FormatName(sname, country, realm, a)[|stem|..] == Digits(a);
    assert FormatName(sname, country, realm, b)[|stem|..] == Digits(b);
  }

  function Or(a: Option<string>, b: Option<string>): Option<string> {
    if a.Some? then a else b
  }

  /** The channel that a scan without success asks for; None when there is no name to start from. */
  function Copy(list: seq<Info>, q: Query, memory: Memory): Option<Info>
    requires memory.last < |list|
  {
    var src := list[memory.last];
    var country, realm := Or(q.country, src.country), Or(q.realm, src.realm);
    var plain := !memory.lang || memory.special.None?;
    if plain && src.shortname.None? then None
    else
      var name := if plain then FormatName(src.shortname.value, country, realm, memory.copies + 1)
                  else FormatName(memory.special.value, None, realm, memory.copies + 1);
      Some(Info(name, src.shortname, src.tag, country, realm,
                src.bots, src.opers, src.logged, src.moderated, true, src.maxmembers, 0))
  }

  /** A further copy of a family without languages: its short name, and one more than there are suitable copies. */
  lemma CopyIsNamed(list: seq<Info>, q: Query)
    requires Lookup(list, q).Ended? && Lookup(list, q).memory.perm && Apart(list) && NoLanguage(list, q, 0)
    ensures Lookup(list, q).memory.last < |list|
    ensures var sibling, copy := list[Lookup(list, q).memory.last], Copy(list, q, Lookup(list, q).memory);
            && sibling.shortname.Some? && copy.Some?
            && copy.value.name == FormatName(sibling.shortname.value, Or(q.country, sibling.country),
                                             Or(q.realm, sibling.realm), Count(list, q, 0, |list|, false) + 1)
  {
    hide FormatName, Apart, Count, Scan, NoLanguage, Short;
    LastOfFamily(list, q);
    CopiesCounted(list, q, 0, NOTHING);
  }

  /** With a language the count begins at the first copy that has one, and its name is kept if given by hand. */
  lemma CopyOfLanguageIsNamed(list: seq<Info>, q: Query, k: nat)
    requires Lookup(list, q).Ended? && Lookup(list, q).memory.perm && Apart(list) && FirstOfLanguage(list, q, 0, k)
    ensures Lookup(list, q).memory.last < |list| && k < |list|
    ensures var sibling, copy := list[Lookup(list, q).memory.last], Copy(list, q, Lookup(list, q).memory);
            var first, n := list[Resolved(list, q, k)], Count(list, q, k + 1, |list|, true) + 2;
            && sibling.shortname.Some? && copy.Some?
            && copy.value.name ==
               if first.autoname then
                 FormatName(sibling.shortname.value, Or(q.country, sibling.country), Or(q.realm, sibling.realm), n)
               else FormatName(first.name, None, Or(q.realm, sibling.realm), n)
  {
    hide FormatName, Apart, Count, Scan, FirstOfLanguage, Resolved, Short;
    LastOfFamily(list, q);
    CopiesOfLanguage(list, q, 0, NOTHING, k);
  }

  lemma LastOfFamily(list: seq<Info>, q: Query)
    requires Lookup(list, q).Ended? && Lookup(list, q).memory.perm && Apart(list)
    ensures var last := Lookup(list, q).memory.last;
            last < |list| && Short(list[last], q.name) && list[last].shortname.Some?
  {
    MemoryIs(list, q, 0, |list|, NOTHING);
    LastIsFamily(list, q, 0, |list|, NOTHING);
  }

  /** The further copy is like the last of the family but for its name, its language and its realm, and it is empty. */
  lemma CopyTakesAfter(list: seq<Info>, q: Query)
    requires Lookup(list, q).Ended? && Lookup(list, q).memory.perm && Apart(list)
    ensures Lookup(list, q).memory.last < |list|
    ensures var sibling, copy := list[Lookup(list, q).memory.last], Copy(list, q, Lookup(list, q).memory);
            && Short(sibling, q.name) && copy.Some? && Short(copy.value, q.name) && copy.value.autoname
            && copy.value.currmembers == 0 && Suits(copy.value, q, true)
            && sibling == copy.value.(name := sibling.name, country := sibling.country, realm := sibling.realm,
                                      autoname := sibling.autoname, currmembers := sibling.currmembers)
            && (q.country.None? ==> copy.value.country == sibling.country)
            && copy.value.realm == (if q.realm.None? then sibling.realm else q.realm)
  {
    LastOfFamily(list, q);
    hide FormatName, Lookup, Apart;
  }

  /** Place of the first channel of that full name, or |list|. */
  function FirstNamed(list: seq<Info>, name: string): (r: nat)
    ensures r <= |list|
    ensures r < |list| ==> Exact(list[r], name)
    ensures forall j :: 0 <= j < r ==> !Exact(list[j], name)
  {
    if list == [] || Exact(list[0], name) then 0 else FirstNamed(list[1..], name) + 1
  }

  /** A permanent channel may share its full name only with a channel of another client tag and equal settings. */
  predicate Refused(list: seq<Info>, ch: Info, permanent: bool) {
    || ch.name == "" || ch.shortname == Some("")
    || (permanent && FirstNamed(list, ch.name) < |list| &&
        var namesake := list[FirstNamed(list, ch.name)];
        (namesake.tag != 0 && namesake.tag == ch.tag) || namesake.bots != ch.bots || namesake.opers != ch.opers ||
        namesake.maxmembers != ch.maxmembers || namesake.moderated != ch.moderated || namesake.logged != ch.logged)
  }

  predicate SameSettings(a: Info, b: Info) {
    a == b.(name := a.name, shortname := a.shortname, tag := a.tag, country := a.country, realm := a.realm,
            autoname := a.autoname, currmembers := a.currmembers)
  }

  /** A channel with proper names is refused only if it is permanent, and its first namesake has other settings or
      serves the same client. */
  lemma RefusedExactly(list: seq<Info>, ch: Info, permanent: bool)
    ensures Refused(list, ch, permanent) <==>
            || |ch.name| == 0 || (ch.shortname.Some? && |ch.shortname.value| == 0)
            || (permanent && exists k: nat :: FirstNamesake(list, ch, k) && !MayShare(list[k], ch))
  {
    hide Exact;
    var n := FirstNamed(list, ch.name);
    if n < |list| { assert FirstNamesake(list, ch, n); }
    forall k: nat | FirstNamesake(list, ch, k) ensures k == n { }
  }

  predicate MayShare(a: Info, b: Info) {
    SameSettings(a, b) && !(a.tag == b.tag && a.tag != 0)
  }

  ghost predicate FirstNamesake(list: seq<Info>, ch: Info, k: nat) {
    k < |list| && Exact(list[k], ch.name) && forall j :: 0 <= j < k ==> !Exact(list[j], ch.name)
  }

  /** The whole lookup: the place of the answer, and the list afterwards. */
  function FindChannel(list: seq<Info>, q: Query): (r: (Option<nat>, seq<Info>)) {
    match Lookup(list, q)
    case Found(m) => (Some(m), list)
    case Ended(memory) =>
      MemoryIs(list, q, 0, |list|, NOTHING);
      if !memory.perm then (None, list)
      else
        var copy := Copy(list, q, memory);
        if copy.None? || Refused(list, copy.value, true) then (None, list)
        else (Some(|list|), list + [copy.value])
  }

  /** What a lookup answers: the full name itself, a suitable copy with room, or one fresh copy, empty, at the end. */
  lemma LookupAnswers(list: seq<Info>, q: Query)
    ensures var (r, after) := FindChannel(list, q);
            && (r.Some? ==> r.value < |after|)
            && (after == list || (|after| == |list| + 1 && after[..|list|] == list && r == Some(|list|)))
            && (r.Some? && !Exact(after[r.value], q.name) ==> Suits(after[r.value], q, false))
            && (r.Some? && r.value < |list| && !Exact(after[r.value], q.name) ==> HasRoom(list[r.value]))
            && (r == Some(|list|) ==> after[|list|].currmembers == 0 && after[|list|].autoname)
            && ((r.None? || r.value == |list|) ==> forall k :: 0 <= k < |list| ==> !Exact(list[k], q.name))
  {
    FoundIsRight(list, q, 0, |list|, NOTHING);
    if Lookup(list, q).Ended? {
      forall k | 0 <= k < |list| ensures !Exact(list[k], q.name) { NothingOverlooked(list, q, 0, |list|, NOTHING, k); }
    }
    hide Exact, HasRoom, Refused;
  }

  // ---------------------------------------------------------------- asking again

  lemma {:induction false} ScanPrefix(list: seq<Info>, ch: Info, q: Query, i: nat, limit: nat, memory: Memory)
    requires i <= limit <= |list|
    ensures Scan(list + [ch], q, i, limit, memory) == Scan(list, q, i, limit, memory)
    decreases limit, 0, limit - i
  {
    hide Suits, HasRoom, Short, Exact, Resolved;
    if i < limit {
      ResolvedPrefix(list, ch, q, i);
      assert (list + [ch])[i] == list[i];
      var at := Resolved(list, q, i);
      assert (list + [ch])[at] == list[at];
      ScanPrefix(list, ch, q, i + 1, limit, memory);
      ScanPrefix(list, ch, q, i + 1, limit, Noted(memory, list[at], at, q));
    }
  }

  lemma {:induction false} ResolvedPrefix(list: seq<Info>, ch: Info, q: Query, i: nat)
    requires i < |list|
    ensures Resolved(list + [ch], q, i) == Resolved(list, q, i)
    decreases i, 1, 0
  {
    hide Scan;
    assert (list + [ch])[i] == list[i];
    ScanPrefix(list, ch, q.(name := list[i].name), 0, i, NOTHING);
  }

  lemma {:induction false} ScanOn(list: seq<Info>, q: Query, i: nat, mid: nat, limit: nat, memory: Memory)
    requires i <= mid <= limit <= |list| && Scan(list, q, i, mid, memory).Ended?
    ensures Scan(list, q, i, limit, memory) == Scan(list, q, mid, limit, Scan(list, q, i, mid, memory).memory)
    decreases mid - i
  {
    hide Suits, HasRoom, Short, Exact, Resolved, Noted;
    if i < mid {
      if Short(list[i], q.name) {
        ScanOn(list, q, i + 1, mid, limit, Noted(memory, list[Resolved(list, q, i)], Resolved(list, q, i), q));
      } else {
        ScanOn(list, q, i + 1, mid, limit, memory);
      }
    }
  }

  /** The scan does not see the case of the name asked for. */
  lemma {:induction false} ScanFolds(list: seq<Info>, q: Query, name: string, i: nat, limit: nat, memory: Memory)
    requires i <= limit <= |list| && EqIgnoreCase(q.name, name)
    ensures Scan(list, q, i, limit, memory) == Scan(list, q.(name := name), i, limit, memory)
    decreases limit - i
  {
    hide Fold;
    if i < limit {
      var at := Resolved(list, q, i);
      assert q.(name := name).(name := list[i].name) == q.(name := list[i].name);
      hide Scan;
      ScanUnfold(list, q, i, limit, memory);
      ScanUnfold(list, q.(name := name), i, limit, memory);
      ScanFolds(list, q, name, i + 1, limit, memory);
      ScanFolds(list, q, name, i + 1, limit, Noted(memory, list[at], at, q));
    }
  }

  lemma ScanUnfold(list: seq<Info>, q: Query, i: nat, limit: nat, memory: Memory)
    requires i < limit <= |list|
    ensures Scan(list, q, i, limit, memory) ==
            if Exact(list[i], q.name) then Found(i)
            else if Short(list[i], q.name) then
              var at := Resolved(list, q, i);
              if Suits(list[at], q, memory.lang) && HasRoom(list[at]) then Found(at)
              else Scan(list, q, i + 1, limit, Noted(memory, list[at], at, q))
            else Scan(list, q, i + 1, limit, memory)
  {
  }

  /**
   With names that tell channels apart, a family whose copies are all full answers two calls in a row with the same
   fresh copy exactly if a lookup by the name that the copy would get finds nothing, and the family admits members
   at all or that name is the one asked for.
   */
  lemma AskingAgain(list: seq<Info>, q: Query)
    requires Lookup(list, q).Ended? && Lookup(list, q).memory.perm && q.name != "" && Apart(list)
    ensures Lookup(list, q).memory.last < |list|
    ensures var copy := Copy(list, q, Lookup(list, q).memory);
            && copy.Some?
            && var first := FindChannel(list, q);
               ((first.0 == Some(|list|) && FindChannel(first.1, q) == first) <==>
                  && Lookup(list, q.(name := copy.value.name)).Ended?
                  && (copy.value.maxmembers == -1 || copy.value.maxmembers > 0 || Exact(copy.value, q.name)))
  {
    MemoryIs(list, q, 0, |list|, NOTHING);
    LastIsFamily(list, q, 0, |list|, NOTHING);
    var memory := Lookup(list, q).memory;
    hide FormatName;
    var ch := Copy(list, q, memory).value;
    if Lookup(list, q.(name := ch.name)).Ended? {
      NameFree(list, q, ch);
      CopyAdmitted(list, q, memory);
      AtTheEnd(list, q, memory, ch);
    } else {
      NameTaken(list, q, memory, ch);
    }
    hide Lookup, Copy, Refused, Exact, Short, Apart;
  }

  lemma NameFree(list: seq<Info>, q: Query, ch: Info)
    requires Lookup(list, q.(name := ch.name)).Ended?
    ensures forall j :: 0 <= j < |list| ==> !Exact(list[j], ch.name)
    ensures Resolved(list + [ch], q, |list|) == |list|
  {
    var all, n, named := list + [ch], |list|, q.(name := ch.name);
    forall j | 0 <= j < n ensures !Exact(list[j], ch.name) { NothingOverlooked(list, named, 0, n, NOTHING, j); }
    ScanPrefix(list, ch, named, 0, n, NOTHING);
    assert all[n] == ch;
    hide Exact, Scan;
  }

  /** A copy whose name leads to another channel is never found through the family. */
  lemma NameTaken(list: seq<Info>, q: Query, memory: Memory, ch: Info)
    requires Lookup(list, q) == Ended(memory) && memory.last < |list| && Copy(list, q, memory) == Some(ch)
    requires Short(list[memory.last], q.name) && Lookup(list, q.(name := ch.name)).Found?
    ensures Lookup(list + [ch], q) != Found(|list|)
  {
    var all, n, named := list + [ch], |list|, q.(name := ch.name);
    ScanPrefix(list, ch, q, 0, n, NOTHING);
    ScanPrefix(list, ch, named, 0, n, NOTHING);
    ScanOn(all, q, 0, n, n + 1, NOTHING);
    if Exact(ch, q.name) { ScanFolds(list, q, ch.name, 0, n, NOTHING); }
    assert Short(ch, q.name) && all[n] == ch;
    assert Resolved(all, q, n) < n;
    hide Exact, Short, Suits, Resolved, Copy;
  }

  /** The full copies below: a plain one, and one that a client from the USA asked for. */
  function FullCopy(name: string, country: Option<string>, maxmembers: nat): Info {
    Info(name, Some("Foo"), 7, country, None, false, false, false, false, country.Some?, maxmembers, maxmembers)
  }

  /** The count starts again with a language, so a client without one is led to a name that is taken. */
  lemma NameCollides()
    ensures var list := [FullCopy("Foo-1", None, 40), FullCopy("Foo USA-2", Some("USA"), 40)];
            Apart(list) && FindChannel(list, Query("Foo", None, None)) == (None, list)
  {
    var first, second := FullCopy("Foo-1", None, 40), FullCopy("Foo USA-2", Some("USA"), 40);
    var list, q := [first, second], Query("Foo", None, None);
    BothFull(list, q);
    var memory := Memory(true, true, None, 1, 1);
    DigitsOfTwo();
    var copy := Copy(list, q, memory).value;
    assert copy.name == "Foo USA-2";
    assert !Exact(first, copy.name) && Exact(second, copy.name);
    assert FirstNamed(list, copy.name) == 1;
    hide Lookup, Apart, FormatName, Exact;
  }

  lemma BothFull(list: seq<Info>, q: Query)
    requires list == [FullCopy("Foo-1", None, 40), FullCopy("Foo USA-2", Some("USA"), 40)]
    requires q == Query("Foo", None, None)
    ensures Apart(list) && Lookup(list, q) == Ended(Memory(true, true, None, 1, 1))
  {
    assert |list[0].name| == 5 && |list[1].name| == 9 && |q.name| == 3;
    assert Apart(list);
    NamesResolve(list, q, 0);
    NamesResolve(list, q, 1);
    hide Apart;
    assert !Exact(list[0], q.name) && !Exact(list[1], q.name);
    assert Short(list[0], q.name) && Short(list[1], q.name);
    hide Exact, Short, Resolved;
    var one := Noted(NOTHING, list[0], 0, q);
    var two := Noted(one, list[1], 1, q);
    assert two == Memory(true, true, None, 1, 1);
    assert !HasRoom(list[0]) && !HasRoom(list[1]);
    hide Noted, HasRoom, Suits;
    assert Scan(list, q, 2, 2, two) == Ended(two);
    assert Scan(list, q, 1, 2, one) == Ended(two);
  }

  lemma DigitsOfTwo()
    ensures Digits(2) == "2"
  {
  }

  /** A family that admits nobody gets another copy with every call. */
  lemma NobodyAdmitted()
    ensures var list := [FullCopy("Main Foo", None, 0)];
            var first := FindChannel(list, Query("Foo", None, None));
            first.0 == Some(1) && FindChannel(first.1, Query("Foo", None, None)) != first
  {
    var channel, q := FullCopy("Main Foo", None, 0), Query("Foo", None, None);
    var list := [channel];
    assert |channel.name| == 8 && |q.name| == 3;
    assert Apart(list);
    NamesResolve(list, q, 0);
    var one := Noted(NOTHING, channel, 0, q);
    assert Scan(list, q, 1, 1, one) == Ended(one);
    assert Scan(list, q, 0, 1, NOTHING) == Ended(one);
    DigitsOfTwo();
    var copy := Copy(list, q, one).value;
    assert |copy.name| == 5;
    assert !Exact(channel, copy.name) && !Short(channel, copy.name) && !Exact(copy, q.name);
    ScanPasses(list, q.(name := copy.name), 0, 1, NOTHING);
    AskingAgain(list, q);
    CopyAdmitted(list, q, one);
  }

  lemma CopyAdmitted(list: seq<Info>, q: Query, memory: Memory)
    requires memory.last < |list| && Short(list[memory.last], q.name) && q.name != ""
    requires Copy(list, q, memory).Some?
    requires forall j :: 0 <= j < |list| ==> !Exact(list[j], Copy(list, q, memory).value.name)
    ensures !Refused(list, Copy(list, q, memory).value, true)
  {
    var ch := Copy(list, q, memory).value;
    assert |Fold(ch.shortname.value)| == |Fold(q.name)| > 0;
    hide Exact;
    assert FirstNamed(list, ch.name) == |list|;
  }

  lemma AtTheEnd(list: seq<Info>, q: Query, memory: Memory, ch: Info)
    requires Lookup(list, q) == Ended(memory) && memory.last < |list| && memory.perm
    requires Copy(list, q, memory) == Some(ch) && Short(list[memory.last], q.name)
    requires Resolved(list + [ch], q, |list|) == |list|
    ensures Lookup(list + [ch], q) == Found(|list|) <==> HasRoom(ch) || Exact(ch, q.name)
    ensures !(HasRoom(ch) || Exact(ch, q.name)) ==> Lookup(list + [ch], q).Ended?
  {
    var all, n := list + [ch], |list|;
    ScanPrefix(list, ch, q, 0, n, NOTHING);
    ScanOn(all, q, 0, n, n + 1, NOTHING);
    assert all[n] == ch;
    assert Short(ch, q.name) && Suits(ch, q, memory.lang);
    hide Exact, Short, Suits, Resolved, Copy;
    var noted := Noted(memory, ch, n, q);
    ScanUnfold(all, q, n, n + 1, memory);
  }
}
