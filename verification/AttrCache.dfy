/**
 The write-back attribute cache: lazily loaded attribute groups over a storage back end, a global queue of
 dirty groups, a global queue of loaded groups in order of last access, timed save and flush passes.
 */
module AttrCache {
  import opened Common
  import opened AttrView
  import opened Writers

  type Word = n: nat | n < TWO32

  /** What stands for an account in storage: the uid of its rows, or the path of its file. */
  datatype Record = Uid(uid: Word) | Path(path: string)

  /** The first four bytes of a path, as far as the text goes. */
  function FirstWord(path: string): string {
    (path + [0 as char, 0 as char, 0 as char, 0 as char])[..4]
  }

  /** What the cache takes for the same account: the first four bytes agree, which for rows is the uid. */
  predicate SameMark(a: Record, b: Record) {
    match (a, b)
    case (Uid(u), Uid(v)) => u == v
    case (Path(p), Path(q)) => FirstWord(p) == FirstWord(q)
    case _ => false
  }

  /** What the save and flush passes are asked to do. */
  datatype Pass = Pass(force: bool, all: bool)

  class AttrGroup {
    const id: Record         // the storage record behind the group
    var list: seq<Attr>
    var loaded: bool
    var accessed: bool
    var dirty: bool
    var lastaccess: int
    var dirtytime: int

    constructor (id: Record)
      ensures this.id == id && list == []
      ensures !loaded && !accessed && !dirty && lastaccess == 0 && dirtytime == 0
    {
      this.id := id;
      list := [];
      loaded, accessed, dirty := false, false, false;
      lastaccess, dirtytime := 0, 0;
    }
  }

  /** The part of a key that names its table: everything before the first underscore. */
  function KeyTab(key: string): string {
    if key == "" || key[0] == '_' then "" else [key[0]] + KeyTab(key[1..])
  }

  /** A cached list over its rows: no key twice, clean attributes show storage, and no row is missing if covered. */
  ghost predicate ListOk(list: seq<Attr>, rows: Rows, dirty: bool, covered: bool) {
    && UniqueKeys(list) && CanonicalKeys(list) && CanonicalRows(rows)
    && CleanAgrees(list, rows)
    && (!dirty ==> AllClean(list))
    && (covered ==> Covers(list, rows))
  }

  lemma RowsOf(list: seq<Attr>, rows: Rows, covered: bool)
    requires ListOk(list, rows, true, covered)
    ensures CanonicalRows(rows)
  {
  }

  lemma ListOkDirty(list: seq<Attr>, rows: Rows, dirty: bool, covered: bool)
    requires ListOk(list, rows, dirty, covered)
    ensures ListOk(list, rows, true, covered)
  {
  }

  /** After write_attrs the list still agrees with its rows, and both show what the list showed before. */
  lemma Written(list: seq<Attr>, rows: Rows, rows': Rows, covered: bool, flat: bool)
    requires ListOk(list, rows, true, covered) && (flat ==> covered)
    requires rows' == if flat then WriteAll(list) else WriteDirty(list, rows)
    ensures rows' == Overlay(list, rows) == Overlay(list, rows')
    ensures ListOk(list, rows', true, covered)
  {
    WriteBackIsOverlay(list, rows);
    WrittenRows(list, rows);
    OverlayCanonical(list, rows);
  }

  lemma Cleaned(list: seq<Attr>, rows: Rows, covered: bool)
    requires ListOk(list, rows, true, covered) && rows == Overlay(list, rows)
    ensures ListOk(CleanList(list), rows, false, covered)
    ensures Overlay(CleanList(list), rows) == rows
  {
    CleanedOverlay(list, rows);
  }

  lemma KeysUnique(list: seq<Attr>, rows: Rows, dirty: bool, covered: bool)
    requires ListOk(list, rows, dirty, covered)
    ensures UniqueKeys(list)
  {
  }

  /** hlist_promote on a found attribute. */
  lemma Promoted(list: seq<Attr>, rows: Rows, n: nat, dirty: bool, covered: bool)
    requires ListOk(list, rows, dirty, covered) && n < |list|
    ensures ListOk(Promote(list, n), rows, dirty, covered)
    ensures Overlay(Promote(list, n), rows) == Overlay(list, rows)
  {
    hide Overlay, Find, UniqueKeys, Covers;
    PromoteUnique(list, n);
    PromoteKeepsOverlay(list, rows, n);
    var p := Promote(list, n);
    forall i | 0 <= i < |p|
      ensures !p[i].dirty ==> p[i].val == Read(rows, Fold(p[i].key))
      ensures CanonicalKey(p[i].key) == Fold(p[i].key)
      ensures !dirty ==> !p[i].dirty
    {
      var i' := PromoteFrom(list, n, i);
    }
  }

  /** A row copied into the cache, by read_attr or by the loader. */
  lemma Fetched(list: seq<Attr>, rows: Rows, a: Attr, dirty: bool, covered: bool)
    requires ListOk(list, rows, dirty, covered) && Find(list, Fold(a.key)) == |list|
    requires !a.dirty && a.val == Read(rows, Fold(a.key)) && CanonicalKey(a.key) == Fold(a.key)
    ensures ListOk([a] + list, rows, dirty, covered)
    ensures Overlay([a] + list, rows) == Overlay(list, rows)
  {
    hide Overlay, Find, UniqueKeys, Covers;
    CacheRowKeepsOverlay(list, rows, a);
    AddedCovers(list, rows, a);
    AddedElements(list, a);
  }

  lemma AddedCovers(list: seq<Attr>, rows: Rows, a: Attr)
    requires Find(list, Fold(a.key)) == |list|
    ensures Covers(list, rows) ==> Covers([a] + list, rows)
  {
    if Covers(list, rows) {
      forall k | k in rows ensures Find([a] + list, k) < |[a] + list| { AddFind(list, a, k); }
    }
  }

  lemma AddedElements(list: seq<Attr>, a: Attr)
    ensures |[a] + list| == |list| + 1
    ensures forall i :: 0 <= i <= |list| ==> ([a] + list)[i] == if i == 0 then a else list[i - 1]
  {
  }

  /** A new attribute with a new value. */
  lemma Added(list: seq<Attr>, rows: Rows, a: Attr, covered: bool)
    requires ListOk(list, rows, true, covered) && Find(list, Fold(a.key)) == |list|
    requires a.dirty && CanonicalKey(a.key) == Fold(a.key)
    ensures ListOk([a] + list, rows, true, covered)
    ensures Overlay([a] + list, rows) == Put(Overlay(list, rows), Fold(a.key), a.val)
  {
    hide Overlay, Find, UniqueKeys, Covers;
    AddIsPut(list, rows, a);
    AddedCovers(list, rows, a);
    AddedElements(list, a);
  }

  lemma Replaced(list: seq<Attr>, rows: Rows, n: nat, a: Attr, covered: bool)
    requires ListOk(list, rows, true, covered) && n < |list|
    requires a.dirty && a.key == list[n].key
    ensures ListOk(list[n := a], rows, true, covered)
    ensures Overlay(list[n := a], rows) == Put(Overlay(list, rows), Fold(a.key), a.val)
  {
    ReplaceIsPut(list, rows, n, a);
  }

  /** What a cached attribute shows is what the group shows. */
  lemma Shown(list: seq<Attr>, rows: Rows, n: nat, dirty: bool, covered: bool)
    requires ListOk(list, rows, dirty, covered) && n < |list|
    ensures Read(Overlay(list, rows), Fold(list[n].key)) == list[n].val
  {
    FindUnique(list, n);
    ReadOverlay(list, rows, Fold(list[n].key));
  }

  lemma NotShown(list: seq<Attr>, rows: Rows, k: string)
    requires Find(list, k) == |list|
    ensures Read(Overlay(list, rows), k) == Read(rows, k)
  {
    ReadOverlay(list, rows, k);
  }

  lemma KeepsItself(list: seq<Attr>)
    ensures Keeps(list, list)
  {
  }

  lemma KeepsFromNothing(list: seq<Attr>)
    ensures Keeps([], list)
  {
  }

  /** Loading row k keeps the rows loaded before it. */
  lemma StillFound(before: seq<Attr>, after: seq<Attr>, rows: Rows, todo: set<string>, k: string, flat: bool)
    requires Keeps(before, after) && Find(after, k) < |after|
    requires forall x :: x in rows && flat && x !in todo ==> Find(before, x) < |before|
    ensures forall x :: x in rows && flat && x !in todo - {k} ==> Find(after, x) < |after|
  {
    hide Find;
  }

  /** What one group may look like between calls; a partial group is in the middle of being loaded. */
  ghost predicate Coherent(g: AttrGroup, rows: Rows, partial: bool)
    reads g`dirty, g`loaded, g`accessed, g`list
  {
    && (g.dirty ==> g.loaded)
    && (g.accessed ==> g.loaded)
    && (!g.loaded ==> g.list == [])
    && ListOk(g.list, rows, g.dirty, g.loaded && !partial)
  }

  /** The writers put down what they should have, and it is safe with them. */
  ghost predicate SafeStore(b: Backend, store: map<Record, Rows>, disk: map<Record, Rows>) {
    disk == store && forall id :: id in store ==> SafeRows(b, store[id])
  }

  ghost predicate Canonically(b: Backend, store: map<Record, Rows>) {
    forall id :: id in store ==> CanonicalRows(store[id]) && (id.Path? <==> b.FlatFile?)
  }

  lemma CanonicalUpdate(b: Backend, store: map<Record, Rows>, id: Record, rows: Rows)
    requires Canonically(b, store) && CanonicalRows(rows) && (id.Path? <==> b.FlatFile?)
    ensures Canonically(b, store[id := rows])
  {
    hide CanonicalRows;
  }

  lemma SafeStoreUpdate(b: Backend, store: map<Record, Rows>, disk: map<Record, Rows>, id: Record, rows: Rows)
    requires SafeStore(b, store, disk) && SafeRows(b, rows)
    ensures SafeStore(b, store[id := rows], disk[id := rows])
  {
    hide SafeRows;
  }

  ghost function IdsOf(gs: set<AttrGroup>): set<Record> {
    set g | g in gs :: g.id
  }

  ghost function Apart(store: map<Record, Rows>, ids: set<Record>): map<Record, Rows> {
    store - ids
  }

  lemma ApartUpdate(store: map<Record, Rows>, ids: set<Record>, id: Record, rows: Rows)
    requires id in ids
    ensures Apart(store[id := rows], ids) == Apart(store, ids)
  {
  }

  ghost predicate Lists(dir: map<Record, AttrGroup>, gs: set<AttrGroup>) {
    && (forall id :: id in dir ==> dir[id] in gs && dir[id].id == id)
    && forall g :: g in gs ==> g.id in dir
  }

  lemma ListsMore(dir: map<Record, AttrGroup>, gs: set<AttrGroup>, g: AttrGroup)
    requires Lists(dir, gs) && g.id !in dir
    ensures Lists(dir[g.id := g], gs + {g})
  {
  }

  lemma ListsLess(dir: map<Record, AttrGroup>, gs: set<AttrGroup>, id: Record)
    requires Lists(dir, gs) && id in dir && OneEach(gs)
    ensures Lists(dir - {id}, gs - {dir[id]})
  {
  }

  type Times = map<(Record, string), int>

  /** Every key on which the two differ was set no earlier than that. */
  ghost predicate Stamped(view: Rows, rows: Rows, id: Record, times: Times, since: int) {
    forall k :: Read(view, k) != Read(rows, k) ==> (id, k) in times && times[(id, k)] >= since
  }

  lemma StampedSame(rows: Rows, id: Record, times: Times, since: int)
    ensures Stamped(rows, rows, id, times, since)
  {
  }

  lemma StampedPut(view: Rows, rows: Rows, id: Record, times: Times, since: int, k: string, v: Option<string>)
    requires Stamped(view, rows, id, times, since) && (id, k) in times && times[(id, k)] >= since
    ensures Stamped(Put(view, k, v), rows, id, times, since)
  {
    forall j | j != k ensures Read(Put(view, k, v), j) == Read(view, j) {}
  }

  lemma StampedLater(view: Rows, rows: Rows, id: Record, times: Times, since: int, at: (Record, string), now: int)
    requires Stamped(view, rows, id, times, since) && now >= since
    ensures Stamped(view, rows, id, times[at := now], since)
  {
    hide Read;
  }

  lemma JoinSet(rest: map<Record, Rows>, views: map<Record, Rows>, id: Record, rows: Rows)
    ensures rest + views[id := rows] == (rest + views)[id := rows]
  {
  }

  lemma JoinNew(rest: map<Record, Rows>, views: map<Record, Rows>, id: Record, rows: Rows)
    ensures (rest - {id}) + views[id := rows] == (rest + views)[id := rows]
  {
  }

  lemma JoinOpen(rest: map<Record, Rows>, views: map<Record, Rows>, id: Record)
    requires id in rest && id !in views
    ensures (rest - {id}) + views[id := rest[id]] == rest + views
  {
  }

  lemma JoinClose(rest: map<Record, Rows>, views: map<Record, Rows>, id: Record)
    requires id in views
    ensures rest[id := views[id]] + (views - {id}) == rest + views
  {
  }

  /** Every record has one group. */
  ghost predicate OneEach(gs: set<AttrGroup>) {
    forall g, h :: g in gs && h in gs && g.id == h.id ==> g == h
  }

  /** Queue q holds exactly the given groups, each once. */
  ghost predicate Queued(q: seq<AttrGroup>, gs: set<AttrGroup>) {
    NoDup(q) && (forall g :: g in q ==> g in gs) && (forall g :: g in gs ==> g in q)
  }

  ghost function Loaded(gs: set<AttrGroup>): set<AttrGroup>
    reads gs`loaded
  {
    set g | g in gs && g.loaded
  }

  ghost function Dirty(gs: set<AttrGroup>): set<AttrGroup>
    reads gs`dirty
  {
    set g | g in gs && g.dirty
  }

  /** Dirty groups stand in the order they became dirty, none of them in the future. */
  ghost predicate DirtyOrder(q: seq<AttrGroup>, now: int)
    reads q`dirtytime
  {
    && (forall i :: 0 <= i < |q| ==> q[i].dirtytime <= now)
    && (forall i, j :: 0 <= i < j < |q| ==> q[i].dirtytime <= q[j].dirtytime)
  }

  /** Groups that were accessed since they were loaded stand in the order of last access. */
  ghost predicate AccessOrder(q: seq<AttrGroup>, now: int)
    reads q`accessed, q`lastaccess
  {
    && (forall i :: 0 <= i < |q| && q[i].accessed ==> q[i].lastaccess <= now)
    && (forall i, j :: 0 <= i < j < |q| && q[i].accessed && q[j].accessed ==> q[i].lastaccess <= q[j].lastaccess)
  }

  lemma EnqueueMembers(q: seq<AttrGroup>, g: AttrGroup, gs: set<AttrGroup>)
    requires Queued(q, gs) && g !in gs
    ensures Queued(q + [g], gs + {g}) && g !in q
  {
  }

  lemma EnqueueOrder(q: seq<AttrGroup>, g: AttrGroup, now: int)
    requires DirtyOrder(q, now) && g.dirtytime == now
    ensures DirtyOrder(q + [g], now)
  {
  }

  lemma EnqueueUnaccessed(q: seq<AttrGroup>, g: AttrGroup, now: int)
    requires AccessOrder(q, now) && !g.accessed
    ensures AccessOrder(q + [g], now)
  {
  }

  lemma RequeueMembers(q: seq<AttrGroup>, g: AttrGroup, gs: set<AttrGroup>)
    requires Queued(q, gs) && g in gs
    ensures Queued(Remove(q, g) + [g], gs) && NoDup(q)
  {
    RemoveNoDup(q, g);
    forall h | h in gs ensures h in Remove(q, g) + [g] { RemoveMembers(q, g, h); }
    forall h | h in Remove(q, g) + [g] ensures h in gs { RemoveMembers(q, g, h); }
  }

  lemma UnqueueMembers(q: seq<AttrGroup>, g: AttrGroup, gs: set<AttrGroup>)
    requires Queued(q, gs)
    ensures Queued(Remove(q, g), gs - {g}) && NoDup(q)
  {
    RemoveNoDup(q, g);
    forall h | h in gs - {g} ensures h in Remove(q, g) { RemoveMembers(q, g, h); }
    forall h | h in Remove(q, g) ensures h in gs - {g} { RemoveMembers(q, g, h); }
  }

  /** The order of access, leaving one group out of account. */
  ghost predicate OrderBut(q: seq<AttrGroup>, g: AttrGroup, now: int)
    reads (set h | h in q && h != g)`accessed, (set h | h in q && h != g)`lastaccess
  {
    && (forall i :: 0 <= i < |q| && q[i] != g && q[i].accessed ==> q[i].lastaccess <= now)
    && (forall i, j :: 0 <= i < j < |q| && q[i] != g && q[j] != g && q[i].accessed && q[j].accessed ==>
          q[i].lastaccess <= q[j].lastaccess)
  }

  lemma OrderLeavesOut(q: seq<AttrGroup>, g: AttrGroup, now: int)
    requires AccessOrder(q, now)
    ensures OrderBut(q, g, now)
  {
  }

  /** Moving the group that was just accessed to the tail restores the order. */
  lemma RequeueOrder(q: seq<AttrGroup>, g: AttrGroup, now: int)
    requires OrderBut(q, g, now) && NoDup(q) && g.lastaccess == now
    ensures AccessOrder(Remove(q, g) + [g], now)
  {
    var r := Remove(q, g);
    RemoveNoDup(q, g);
    forall i | 0 <= i < |r| ensures r[i] != g && (r[i].accessed ==> r[i].lastaccess <= now) {
      RemoveAt(q, g, i);
      assert r[i] in r;
    }
    forall i, j | 0 <= i < j < |r| && r[i].accessed && r[j].accessed
      ensures r[i].lastaccess <= r[j].lastaccess
    {
      RemoveAt(q, g, i);
      RemoveAt(q, g, j);
    }
  }

  lemma UnqueueOrder(q: seq<AttrGroup>, g: AttrGroup, now: int)
    requires DirtyOrder(q, now)
    ensures DirtyOrder(Remove(q, g), now)
  {
    var r := Remove(q, g);
    forall i | 0 <= i < |r| ensures r[i].dirtytime <= now {
      RemoveAt(q, g, i);
    }
    forall i, j | 0 <= i < j < |r| ensures r[i].dirtytime <= r[j].dirtytime {
      RemoveAt(q, g, i);
      RemoveAt(q, g, j);
    }
  }

  lemma AccessUnqueue(q: seq<AttrGroup>, g: AttrGroup, now: int)
    requires AccessOrder(q, now) && NoDup(q)
    ensures AccessOrder(Remove(q, g), now) && g !in Remove(q, g)
  {
    var r := Remove(q, g);
    RemoveNoDup(q, g);
    forall i | 0 <= i < |r| && r[i].accessed ensures r[i].lastaccess <= now {
      RemoveAt(q, g, i);
    }
    forall i, j | 0 <= i < j < |r| && r[i].accessed && r[j].accessed
      ensures r[i].lastaccess <= r[j].lastaccess
    {
      RemoveAt(q, g, i);
      RemoveAt(q, g, j);
    }
  }

  /** What a lookup of key k answers: the account's own value, else the default account's. */
  function Answer(own: Rows, dflt: Rows, k: string): Option<string> {
    if k in own then Some(own[k]) else Read(dflt, k)
  }

  /** A group as a flush finds it. */
  datatype Sight = Sight(view: Rows, rows: Rows, loaded: bool, dirty: bool, accessed: bool, lastaccess: int, idle: bool)

  class AttrLayer {
    const backend: Backend
    const syncTimer: nat
    const flushTimer: nat
    const userStep: nat
    var now: int
    var store: map<Record, Rows>
    /** What the writers of the back end make of storage, and whether all that was set is safe with them. */
    ghost var disk: map<Record, Rows>
    ghost var safe: bool
    /** When each key of each account was last set. */
    ghost var settimes: Times
    var defattrs: AttrGroup
    var loadedlist: seq<AttrGroup>
    var dirtylist: seq<AttrGroup>
    ghost var groups: set<AttrGroup>

    /** An empty cache over canonical storage; the default group is created first and not yet loaded. */
    constructor (backend: Backend, syncTimer: nat, flushTimer: nat, userStep: nat, now: int,
                 store: map<Record, Rows>, defid: Record)
      requires defid in store
      requires forall id :: id in store ==> CanonicalRows(store[id]) && (id.Path? <==> backend.FlatFile?)
      ensures Valid() && fresh(defattrs) && groups == {defattrs}
      ensures this.store == store && this.now == now && defattrs.id == defid
      ensures this.backend == backend && this.syncTimer == syncTimer && this.flushTimer == flushTimer
      ensures this.userStep == userStep
      ensures safe <==> forall id :: id in store ==> SafeRows(backend, store[id])
      ensures loadedlist == [] && dirtylist == [] && settimes == map[]
    {
      this.backend, this.syncTimer, this.flushTimer, this.userStep := backend, syncTimer, flushTimer, userStep;
      this.now, this.store, disk := now, store, store;
      safe := forall id :: id in store ==> SafeRows(backend, store[id]);
      settimes := map[];
      loadedlist, dirtylist := [], [];
      var g := new AttrGroup(defid);
      defattrs := g;
      groups := {g};
    }

    /** The rows storage holds for a group. */
    ghost function StoredRows(g: AttrGroup): Rows
      reads this`store
    {
      if g.id in store then store[g.id] else map[]
    }

    /** What a reader can see of a group. */
    ghost function View(g: AttrGroup): Rows
      reads this`store, g`list
    {
      Overlay(g.list, StoredRows(g))
    }

    /** Whether a flush takes the group for the default one. */
    predicate Marked(g: AttrGroup)
      reads this`defattrs
    {
      SameMark(g.id, defattrs.id)
    }

    /** What is stored of accounts that have no group. */
    ghost function Elsewhere(): map<Record, Rows>
      reads this`store, this`groups
    {
      Apart(store, IdsOf(groups))
    }

    /** What is stored is keyed canonically, under records of the right kind. */
    ghost predicate StoreOk()
      reads this`store, this`disk
    {
      disk.Keys == store.Keys && Canonically(backend, store)
    }

    /** The writers have put down everything as it should be, and are going to. */
    ghost predicate Faithful()
      reads this`store, this`disk, this`groups, groups`list
    {
      SafeStore(backend, store, disk) && SafeGroups()
    }

    ghost predicate SafeGroups()
      reads this`groups, groups`list
    {
      forall g :: g in groups ==> SafeList(backend, g.list)
    }

    /** A group is complete when lookups in it never need storage, or storage answers single reads. */
    ghost predicate Cached(p: set<AttrGroup>)
      reads this`groups, this`store, groups`dirty, groups`loaded, groups`accessed, groups`list
    {
      forall g :: g in groups ==> g.id in store && Coherent(g, store[g.id], g in p || backend.SqlRows?)
    }

    ghost predicate LoadedOk()
      reads this`groups, this`loadedlist, this`now, groups`loaded, loadedlist`accessed, loadedlist`lastaccess
    {
      Queued(loadedlist, Loaded(groups)) && AccessOrder(loadedlist, now)
    }

    ghost predicate DirtyOk()
      reads this`groups, this`dirtylist, this`now, groups`dirty, dirtylist`dirtytime
    {
      Queued(dirtylist, Dirty(groups)) && DirtyOrder(dirtylist, now)
    }

    /** What a dirty group shows and has not written was set since it became dirty. */
    ghost predicate Recent()
      reads this`groups, this`store, this`settimes, groups`dirty, groups`dirtytime, groups`list
    {
      forall g :: g in groups && g.dirty ==> Stamped(View(g), StoredRows(g), g.id, settimes, g.dirtytime)
    }

    ghost predicate Inv(p: set<AttrGroup>)
      reads this, groups`dirty, groups`dirtytime, groups`loaded, groups`accessed, groups`list
      reads loadedlist`accessed, loadedlist`lastaccess, dirtylist`dirtytime
    {
      && defattrs in groups && OneEach(groups) && Cached(p)
      && LoadedOk() && DirtyOk()
      && StoreOk() && (safe ==> Faithful()) && Recent()
    }

    /** The invariant between calls. Inside a load, Inv({g}) says that group g may be incomplete. */
    ghost predicate Valid()
      reads this, groups`dirty, groups`dirtytime, groups`loaded, groups`accessed, groups`list
      reads loadedlist`accessed, loadedlist`lastaccess, dirtylist`dirtytime
    {
      Inv({})
    }

    // -------------------------------------------------------------- flags and queues

    method SetAccessed(g: AttrGroup, ghost p: set<AttrGroup>)
      requires Inv(p) && g in groups && g.loaded
      modifies this`loadedlist, g`accessed, g`lastaccess
      ensures Inv(p)
      ensures g.accessed && g.lastaccess == now
      ensures loadedlist == Remove(old(loadedlist), g) + [g]
      ensures View(g) == old(View(g))
    {
      hide OneEach, StoreOk, Recent, Faithful, DirtyOk, ListOk, Queued, NoDup, Overlay, StoredRows, Remove;
      hide AccessOrder, OrderBut;
      RequeueMembers(loadedlist, g, Loaded(groups));
      OrderLeavesOut(loadedlist, g, now);
      ghost var ls, ds := Loaded(groups), Dirty(groups);
      g.accessed := true;
      g.lastaccess := now;
      Accessed(g);
      assert Loaded(groups) == ls;
      assert Dirty(groups) == ds;
    }

    /** attrlayer_accessed: the group moves to the end of the loaded queue. */
    method Accessed(g: AttrGroup)
      requires g.accessed && g.lastaccess == now && NoDup(loadedlist) && OrderBut(loadedlist, g, now)
      modifies this`loadedlist
      ensures loadedlist == Remove(old(loadedlist), g) + [g]
      ensures AccessOrder(loadedlist, now)
    {
      RequeueOrder(loadedlist, g, now);
      loadedlist := Remove(loadedlist, g) + [g];
    }

    method SetDirty(g: AttrGroup)
      requires Inv({}) && g in groups && g.loaded
      modifies this`dirtylist, g`dirty, g`dirtytime
      ensures Inv({})
      ensures g.dirty
      ensures old(g.dirty) ==> dirtylist == old(dirtylist) && g.dirtytime == old(g.dirtytime)
      ensures !old(g.dirty) ==> dirtylist == old(dirtylist) + [g] && g.dirtytime == now
    {
      hide OneEach, StoreOk, Faithful, Stamped, View, StoredRows, LoadedOk, ListOk, Queued, DirtyOrder;
      if g.dirty { return; }
      CleanView(g, {});
      StampedSame(View(g), g.id, settimes, now);
      ListOkDirty(g.list, store[g.id], g.dirty, backend.FlatFile?);
      EnqueueMembers(dirtylist, g, Dirty(groups));
      ghost var ls := Loaded(groups);
      g.dirtytime := now;
      g.dirty := true;
      assert Loaded(groups) == ls;
      assert Dirty(groups) == old(Dirty(groups)) + {g};
      EnqueueOrder(dirtylist, g, now);
      dirtylist := dirtylist + [g];
    }

    method SetLoaded(g: AttrGroup)
      requires Inv({}) && g in groups && !g.loaded
      modifies this`loadedlist, g`loaded
      ensures Inv({g})
      ensures g.loaded && loadedlist == old(loadedlist) + [g]
      ensures View(g) == old(View(g))
    {
      hide OneEach, StoreOk, Recent, Faithful, DirtyOk, ListOk, Queued, AccessOrder;
      ghost var ls, ds, q := Loaded(groups), Dirty(groups), loadedlist + [g];
      EnqueueMembers(loadedlist, g, ls);
      EnqueueUnaccessed(loadedlist, g, now);
      g.loaded := true;
      loadedlist := loadedlist + [g];
      assert Dirty(groups) == ds;
      assert Loaded(groups) == ls + {g};
      assert loadedlist == q;
    }

    // -------------------------------------------------------------- storage calls

    /** storage->write_attrs: afterwards storage shows the group exactly as its readers do. */
    method WriteAttrs(g: AttrGroup)
      requires Valid() && g in groups && g.dirty
      modifies this`store, this`disk
      ensures Elsewhere() == old(Elsewhere())
      ensures Valid()
      ensures g.id in old(store) && store == old(store)[g.id := old(View(g))]
      ensures g.id in old(disk) && disk == old(disk)[g.id := OnDisk(backend, g.list, old(disk)[g.id])]
      ensures View(g) == old(View(g)) == StoredRows(g)
      ensures forall h :: h in groups && h != g ==> StoredRows(h) == old(StoredRows(h))
    {
      hide Recent, Faithful, ListOk, OneEach, Queued, AccessOrder, DirtyOrder, Overlay, OnDisk, StoreOk;
      Recorded(g);
      var rows := if backend.FlatFile? then WriteAll(g.list) else WriteDirty(g.list, store[g.id]);
      ListOkDirty(g.list, store[g.id], g.dirty, backend.FlatFile?);
      Written(g.list, store[g.id], rows, backend.FlatFile?, backend.FlatFile?);
      FaithfulWrite(g, rows);
      RowsOf(g.list, rows, backend.FlatFile?);
      OtherIds(g);
      PutRows(g, rows);
    }

    /** With new rows for one group the others are as coherent as they were. */
    lemma CachedWith(g: AttrGroup, rows: Rows)
      requires Valid() && g in groups && Coherent(g, rows, backend.SqlRows?)
      ensures var after := store[g.id := rows];
              forall h :: h in groups ==> h.id in after && Coherent(h, after[h.id], backend.SqlRows?)
    {
      OtherIds(g);
      hide Coherent, OneEach, LoadedOk, DirtyOk, Recent, Faithful, StoreOk;
    }

    lemma RecentWith(g: AttrGroup, rows: Rows)
      requires Valid() && g in groups && Overlay(g.list, rows) == rows
      ensures var after := store[g.id := rows];
              forall h :: h in groups && h.dirty ==>
                h.id in after && Stamped(Overlay(h.list, after[h.id]), after[h.id], h.id, settimes, h.dirtytime)
    {
      OtherIds(g);
      StampedSame(rows, g.id, settimes, g.dirtytime);
      hide Coherent, OneEach, LoadedOk, DirtyOk, Faithful, StoreOk, Stamped, Overlay;
    }

    lemma OtherIds(g: AttrGroup)
      requires Valid() && g in groups
      ensures forall h :: h in groups && h != g ==> h.id != g.id
    {
      hide Coherent, LoadedOk, DirtyOk, CanonicalRows, Recent, Faithful;
    }

    lemma KindOf(g: AttrGroup)
      requires Valid() && g in groups
      ensures g.id.Path? <==> backend.FlatFile?
    {
      hide Coherent, OneEach, LoadedOk, DirtyOk, CanonicalRows, Recent, Faithful;
    }

    method PutRows(g: AttrGroup, rows: Rows)
      requires Valid() && g in groups && g.dirty && g.id in store && g.id in disk
      requires Coherent(g, rows, backend.SqlRows?) && CanonicalRows(rows)
      requires Overlay(g.list, rows) == rows
      requires safe ==> OnDisk(backend, g.list, disk[g.id]) == rows && SafeRows(backend, rows)
      modifies this`store, this`disk
      ensures Elsewhere() == old(Elsewhere())
      ensures Valid()
      ensures store == old(store)[g.id := rows]
      ensures disk == old(disk)[g.id := OnDisk(backend, g.list, old(disk)[g.id])]
    {
      hide Stamped, Overlay, Apart, OneEach, LoadedOk, DirtyOk, OnDisk, Coherent, SafeStore, SafeGroups, SafeRows;
      hide CanonicalRows;
      hide Canonically;
      if safe { SafeStoreUpdate(backend, store, disk, g.id, rows); }
      KindOf(g);
      CachedWith(g, rows);
      RecentWith(g, rows);
      ApartUpdate(store, IdsOf(groups), g.id, rows);
      CanonicalUpdate(backend, store, g.id, rows);
      store := store[g.id := rows];
      disk := disk[g.id := OnDisk(backend, g.list, disk[g.id])];
    }

    lemma Recorded(g: AttrGroup)
      requires Valid() && g in groups
      ensures g.id in store && g.id in disk
    {
      hide Coherent, OneEach, Queued, DirtyOrder, AccessOrder, CanonicalRows, Recent, Faithful;
    }

    lemma FaithfulWrite(g: AttrGroup, rows: Rows)
      requires Valid() && g in groups && g.dirty && rows == View(g)
      ensures g.id in disk
      ensures safe ==> OnDisk(backend, g.list, disk[g.id]) == rows && SafeRows(backend, rows)
    {
      hide OneEach, Queued, AccessOrder, DirtyOrder, Overlay, OnDisk, SafeRows, SafeList;
      if safe { SafeWrite(backend, g.list, store[g.id]); }
    }

    method ClearDirty(g: AttrGroup)
      requires Valid() && g in groups && StoredRows(g) == View(g)
      modifies this`dirtylist, g`dirty, g`list
      ensures Valid()
      ensures !g.dirty && dirtylist == Remove(old(dirtylist), g)
      ensures View(g) == old(View(g))
    {
      hide OneEach, StoreOk, Recent, Faithful, LoadedOk, DirtyOk, SafeList, SafeRows, ListOk, Overlay, NoDup, Remove;
      if !g.dirty {
        NotQueued(g);
        return;
      }
      AllSafe(g, {});
      Dated(g, {});
      if safe { SafeClean(backend, g.list); }
      Cleaned(g.list, store[g.id], backend.FlatFile?);
      ListOkDirty(CleanList(g.list), store[g.id], false, backend.FlatFile?);
      SetList(g, CleanList(g.list), {});
      Unqueue(g);
    }

    /** The group leaves the dirty queue, its attributes clean. */
    method Unqueue(g: AttrGroup)
      requires Valid() && g in groups && g.dirty && ListOk(g.list, StoredRows(g), false, backend.FlatFile?)
      modifies this`dirtylist, g`dirty
      ensures Valid()
      ensures !g.dirty && dirtylist == Remove(old(dirtylist), g)
    {
      hide OneEach, StoreOk, Faithful, Stamped, Overlay, LoadedOk, ListOk, Queued, DirtyOrder, Remove;
      UnqueueMembers(dirtylist, g, Dirty(groups));
      UnqueueOrder(dirtylist, g, now);
      g.dirty := false;
      dirtylist := Remove(dirtylist, g);
      assert Dirty(groups) == old(Dirty(groups)) - {g};
    }

    // -------------------------------------------------------------- lookup, load, get, set

    /** attrgroup_find_attr: loads the group if need be, then finds, promotes or fetches the attribute. */
    method FindAttr(g: AttrGroup, key: string, escape: bool, ghost p: set<AttrGroup>)
      returns (newkey: string, found: bool, at: nat)
      requires Inv(p) && g in groups && p <= {g} && (p != {} ==> g.loaded)
      requires !escape ==> EscapeKey(key) == key
      modifies this`loadedlist, this`dirtylist, g, this`safe, this`settimes
      ensures settimes == old(settimes)
      ensures safe == old(safe)
      ensures Inv(p)
      ensures newkey == EscapeKey(key)
      ensures g.loaded && g.accessed && g.lastaccess == now
      ensures dirtylist == old(dirtylist) && g.dirty == old(g.dirty) && g.dirtytime == old(g.dirtytime)
      ensures View(g) == old(View(g))
      ensures found ==> at < |g.list| && Fold(g.list[at].key) == Fold(newkey)
      ensures !found ==> Find(g.list, Fold(newkey)) == |g.list|
      ensures !found && p == {} ==> Fold(newkey) !in StoredRows(g)
      ensures Keeps(old(g.list), g.list)
      decreases !g.loaded, 1
    {
      hide *;
      CanonicalIdempotent(key);
      newkey := if escape then EscapeKey(key) else key;
      Load(g, KeyTab(newkey), p);
      SetAccessed(g, p);

      label Loaded:
      at := Search(g.list, newkey);
      if at < |g.list| {
        PromoteInList(g, at, p);
        at := if at == 0 then 0 else at - 1;
        found := true;
      } else {
        found := FetchRow(g, newkey, p);
        at := 0;
      }
      KeepsTrans(old(g.list), old@Loaded(g.list), g.list);
    }

    method PromoteInList(g: AttrGroup, at: nat, ghost p: set<AttrGroup>)
      requires Inv(p) && g in groups && at < |g.list|
      modifies g`list
      ensures Inv(p)
      ensures g.list == Promote(old(g.list), at) && View(g) == old(View(g))
      ensures g.list[if at == 0 then 0 else at - 1] == old(g.list)[at]
      ensures Keeps(old(g.list), g.list)
    {
      hide ListOk, Queued, Overlay, AccessOrder, DirtyOrder, Find;
      assert UniqueKeys(g.list) by {
        KeysUnique(g.list, store[g.id], g.dirty, g.loaded && !(g in p || backend.SqlRows?));
      }
      forall k ensures Find(g.list, k) < |g.list| ==> Find(Promote(g.list, at), k) < |g.list| {
        PromoteFind(g.list, at, k);
      }
      Promoted(g.list, store[g.id], at, g.dirty, g.loaded && !(g in p || backend.SqlRows?));
      AllSafe(g, p);
      if g.dirty { Dated(g, p); }
      if safe { SafePromote(backend, g.list, at); }
      SetList(g, Promote(g.list, at), p);
    }

    lemma AllSafe(g: AttrGroup, p: set<AttrGroup>)
      requires Inv(p) && g in groups
      ensures safe ==> SafeList(backend, g.list) && SafeRows(backend, StoredRows(g))
    {
      hide Coherent, Queued, AccessOrder, DirtyOrder, SafeList, SafeRows;
    }

    lemma Dated(g: AttrGroup, p: set<AttrGroup>)
      requires Inv(p) && g in groups && g.dirty
      ensures Stamped(View(g), StoredRows(g), g.id, settimes, g.dirtytime) && g.dirtytime <= now
    {
      hide OneEach, Cached, LoadedOk, StoreOk, Faithful, Stamped, View, StoredRows;
      assert g in dirtylist;
    }

    /** Any change of the cached list that keeps it coherent. */
    method SetList(g: AttrGroup, list: seq<Attr>, ghost p: set<AttrGroup>)
      requires Inv(p) && g in groups && (!g.loaded ==> list == [])
      requires ListOk(list, StoredRows(g), g.dirty, g.loaded && !(g in p || backend.SqlRows?))
      requires safe ==> SafeList(backend, list)
      requires g.dirty ==>
                 Stamped(Overlay(list, StoredRows(g)), StoredRows(g), g.id, settimes, g.dirtytime)
      modifies g`list
      ensures Inv(p) && g.list == list
    {
      hide Stamped, Overlay, OneEach, StoreOk, LoadedOk, DirtyOk, ListOk, SafeList, SafeRows;
      g.list := list;
      assert Loaded(groups) == old(Loaded(groups));
      assert Dirty(groups) == old(Dirty(groups));
    }

    /** A clean attribute copied from storage to the head of the list. */
    method AddClean(g: AttrGroup, a: Attr, ghost p: set<AttrGroup>)
      requires Inv(p) && g in groups && g.loaded && Find(g.list, Fold(a.key)) == |g.list|
      requires !a.dirty && a.val == Read(StoredRows(g), Fold(a.key)) && CanonicalKey(a.key) == Fold(a.key)
      requires safe ==> SafeAttr(backend, a)
      modifies g`list
      ensures Inv(p)
      ensures g.list == [a] + old(g.list) && View(g) == old(View(g))
      ensures Keeps(old(g.list), g.list) && Find(g.list, Fold(a.key)) == 0
    {
      hide ListOk, Queued, Overlay, Find, AccessOrder, DirtyOrder;
      forall k ensures Find([a] + g.list, k) == if k == Fold(a.key) then 0 else 1 + Find(g.list, k) {
        AddFind(g.list, a, k);
      }
      Fetched(g.list, store[g.id], a, g.dirty, g.loaded && !(g in p || backend.SqlRows?));
      AllSafe(g, p);
      if g.dirty { Dated(g, p); }
      if safe { SafeAdd(backend, g.list, a); }
      SetList(g, [a] + g.list, p);
    }

    /** storage->read_attr and hlist_add; only a row store answers single reads. */
    method FetchRow(g: AttrGroup, key: string, ghost p: set<AttrGroup>) returns (found: bool)
      requires Inv(p) && g in groups && g.loaded && Find(g.list, Fold(key)) == |g.list|
      requires CanonicalKey(key) == Fold(key)
      modifies g`list
      ensures Inv(p)
      ensures View(g) == old(View(g))
      ensures found ==> 0 < |g.list| && Fold(g.list[0].key) == Fold(key)
      ensures !found ==> g.list == old(g.list)
      ensures !found && (p == {} || backend.SqlRows?) ==> Fold(key) !in StoredRows(g)
      ensures Keeps(old(g.list), g.list)
    {
      found := backend.SqlRows? && Fold(key) in store[g.id];
      if found {
        AllSafe(g, p);
        if safe { SafeRow(backend, store[g.id], key); }
        AddClean(g, Attr(key, Some(store[g.id][Fold(key)]), false), p);
      }
    }

    /** attrgroup_load: marks the group loaded and copies the rows of storage (of the table, for a row store). */
    method Load(g: AttrGroup, tab: string, ghost p: set<AttrGroup>)
      requires Inv(p) && g in groups && p <= {g} && (p != {} ==> g.loaded)
      modifies this`loadedlist, this`dirtylist, g, this`safe, this`settimes
      ensures settimes == old(settimes)
      ensures safe == old(safe)
      ensures Inv(p) && g.loaded
      ensures old(g.loaded) ==> loadedlist == old(loadedlist) && g.list == old(g.list)
      ensures old(g.loaded) ==> g.accessed == old(g.accessed) && g.lastaccess == old(g.lastaccess)
      ensures dirtylist == old(dirtylist) && g.dirty == old(g.dirty) && g.dirtytime == old(g.dirtytime)
      ensures View(g) == old(View(g)) && Keeps(old(g.list), g.list)
      decreases !g.loaded, 0
    {
      hide Inv, Overlay, Keeps;
      DirtyLoaded(g, p);
      if g.loaded {
        KeepsItself(g.list);
        return;
      }
      assert !g.dirty;    // so the "can't load modified account" exit is never taken
      SetLoaded(g);
      KeepsFromNothing(g.list);
      var rows := store[g.id];
      Canonical(g);
      var todo := set k | k in rows && (backend.FlatFile? || KeyTab(k) == Fold(tab));
      while todo != {}
        invariant Inv({g}) && g.loaded && !g.dirty && store == old(store)
        invariant dirtylist == old(dirtylist) && g.dirtytime == old(g.dirtytime) && safe == old(safe)
        invariant settimes == old(settimes)
        invariant View(g) == old(View(g))
        invariant todo <= rows.Keys
        invariant forall k :: k in rows && backend.FlatFile? && k !in todo ==> Find(g.list, k) < |g.list|
        decreases todo
      {
        var k :| k in todo;
        label before:
        SetAttr(g, k, Some(rows[k]), false, {g});
        StillFound(old@before(g.list), g.list, rows, todo, k, backend.FlatFile?);
        todo := todo - {k};
      }
      KeepsFromNothing(g.list);
      Completed(g);
    }

    lemma Canonical(g: AttrGroup)
      requires Inv({g}) && g in groups
      ensures CanonicalRows(StoredRows(g))
    {
      hide Queued, AccessOrder, DirtyOrder, Overlay;
    }

    /** attrgroup_set_attr; the loader calls it without the dirty flag, everyone else with it. */
    method SetAttr(g: AttrGroup, key: string, val: Option<string>, setDirty: bool, ghost p: set<AttrGroup>)
      requires Inv(p) && g in groups
      requires p == if setDirty then {} else {g}
      requires !setDirty ==> g.loaded && !g.dirty
      requires !setDirty ==> val.Some? && val == Read(StoredRows(g), CanonicalKey(key))
      modifies this`loadedlist, this`dirtylist, g, this`safe, this`settimes
      ensures settimes == if setDirty then old(settimes)[(g.id, CanonicalKey(key)) := now] else old(settimes)
      ensures safe == (old(safe) && (setDirty ==> SafeSet(backend, key, val)))
      ensures Inv(p)
      ensures g.loaded && g.accessed && g.lastaccess == now
      ensures View(g) == Put(old(View(g)), CanonicalKey(key), val)
      ensures !setDirty ==> dirtylist == old(dirtylist) && !g.dirty && g.dirtytime == old(g.dirtytime)
      ensures !setDirty ==> View(g) == old(View(g))
      ensures !setDirty ==> Find(g.list, CanonicalKey(key)) < |g.list|
      ensures !setDirty ==> Keeps(old(g.list), g.list)
      decreases !g.loaded, 2
    {
      hide Inv, Overlay, EscapeKey, Find, Keeps, StoredRows;
      if setDirty { Note((g.id, CanonicalKey(key)), SafeSet(backend, key, val), p); }
      var newkey, found, at := FindAttr(g, key, true, p);
      CanonicalIdempotent(key);
      if !setDirty {
        CleanView(g, p);
        PutSame(View(g), CanonicalKey(key));
        AllSafe(g, p);
        if safe { SafeRow(backend, StoredRows(g), newkey); }
      }
      if found {
        ShownValue(g, at, p);
        if g.list[at].val == val {
          PutSame(View(g), CanonicalKey(key));
          return;
        }
        assert setDirty;    // a loader only brings values that the cache already shows
        if safe { SafeNew(backend, key, val, g.list[at].key); }
        ReplaceDirty(g, at, val);
      } else if setDirty {
        if safe { SafeNew(backend, key, val, newkey); }
        AddDirty(g, newkey, val);
      } else {
        label Found:
        AddClean(g, Attr(newkey, val, false), p);
        KeepsTrans(old(g.list), old@Found(g.list), g.list);
      }
    }

    /** A set is dated, and from an unsafe one on nothing is claimed of the writers. */
    ghost method Note(at: (Record, string), still: bool, p: set<AttrGroup>)
      requires Inv(p)
      modifies this`safe, this`settimes
      ensures Inv(p) && safe == (old(safe) && still) && settimes == old(settimes)[at := now]
    {
      hide OneEach, Cached, LoadedOk, DirtyOk, StoreOk, Faithful, Stamped, View, StoredRows;
      forall g | g in groups && g.dirty
        ensures Stamped(View(g), StoredRows(g), g.id, settimes[at := now], g.dirtytime)
      {
        Dated(g, p);
        StampedLater(View(g), StoredRows(g), g.id, settimes, g.dirtytime, at, now);
      }
      safe := safe && still;
      settimes := settimes[at := now];
    }

    lemma CleanView(g: AttrGroup, p: set<AttrGroup>)
      requires Inv(p) && g in groups && !g.dirty
      ensures View(g) == StoredRows(g)
    {
      hide Queued, Overlay, AccessOrder, DirtyOrder;
      CleanOverlay(g.list, store[g.id]);
    }

    lemma ShownValue(g: AttrGroup, at: nat, p: set<AttrGroup>)
      requires Inv(p) && g in groups && at < |g.list|
      ensures Read(View(g), Fold(g.list[at].key)) == g.list[at].val
    {
      hide ListOk, Queued, Overlay, AccessOrder, DirtyOrder;
      Shown(g.list, store[g.id], at, g.dirty, g.loaded && !(g in p || backend.SqlRows?));
    }

    /** attr_set_val on a cached attribute, with its dirty flag and the group's. */
    method ReplaceDirty(g: AttrGroup, at: nat, val: Option<string>)
      requires Valid() && g in groups && g.loaded && at < |g.list|
      requires safe ==> SafeAttr(backend, Attr(g.list[at].key, val, true))
      requires (g.id, Fold(g.list[at].key)) in settimes && settimes[(g.id, Fold(g.list[at].key))] == now
      modifies this`dirtylist, g`dirty, g`dirtytime, g`list
      ensures Valid() && g.dirty
      ensures View(g) == Put(old(View(g)), Fold(old(g.list)[at].key), val)
      ensures g.list == old(g.list)[at := Attr(old(g.list)[at].key, val, true)]
    {
      hide Stamped, ListOk, Queued, Overlay, AccessOrder, DirtyOrder;
      SetDirty(g);
      var a := Attr(g.list[at].key, val, true);
      Replaced(g.list, store[g.id], at, a, backend.FlatFile?);
      AllSafe(g, {});
      Dated(g, {});
      StampedPut(View(g), StoredRows(g), g.id, settimes, g.dirtytime, Fold(g.list[at].key), val);
      if safe { SafeReplace(backend, g.list, at, a); }
      SetList(g, g.list[at := a], {});
    }

    /** attr_create at the head of the list, with its dirty flag and the group's. */
    method AddDirty(g: AttrGroup, key: string, val: Option<string>)
      requires Valid() && g in groups && g.loaded
      requires Find(g.list, Fold(key)) == |g.list| && CanonicalKey(key) == Fold(key)
      requires safe ==> SafeAttr(backend, Attr(key, val, true))
      requires (g.id, Fold(key)) in settimes && settimes[(g.id, Fold(key))] == now
      modifies this`dirtylist, g`dirty, g`dirtytime, g`list
      ensures Valid() && g.dirty
      ensures View(g) == Put(old(View(g)), Fold(key), val)
      ensures g.list == [Attr(key, val, true)] + old(g.list)
    {
      hide Stamped, ListOk, Queued, Overlay, AccessOrder, DirtyOrder;
      SetDirty(g);
      var a := Attr(key, val, true);
      Added(g.list, store[g.id], a, backend.FlatFile?);
      AllSafe(g, {});
      Dated(g, {});
      StampedPut(View(g), StoredRows(g), g.id, settimes, g.dirtytime, Fold(key), val);
      if safe { SafeAdd(backend, g.list, a); }
      SetList(g, [a] + g.list, {});
    }

    /** attrgroup_get_attrlow: a missing or null value falls through to the default group, key already escaped. */
    method GetAttr(g: AttrGroup, key: string, escape: bool) returns (val: Option<string>)
      requires Valid() && g in groups && (!escape ==> EscapeKey(key) == key)
      modifies this`loadedlist, this`dirtylist, g, defattrs, this`safe, this`settimes
      ensures settimes == old(settimes)
      ensures safe == old(safe)
      ensures Valid() && g.loaded && g.accessed && g.lastaccess == now
      ensures val == Answer(old(View(g)), old(View(defattrs)), CanonicalKey(key))
      ensures View(g) == old(View(g)) && View(defattrs) == old(View(defattrs))
      ensures dirtylist == old(dirtylist)
      decreases g != defattrs
    {
      hide Coherent, ListOk, Queued, AccessOrder, DirtyOrder, Overlay, StoredRows, EscapeKey, Find, Keeps;
      var newkey, found, at := FindAttr(g, key, escape, {});
      CanonicalIdempotent(key);
      val := None;
      if found {
        ShownValue(g, at, {});
        val := g.list[at].val;
      } else {
        NotShown(g.list, StoredRows(g), CanonicalKey(key));
      }
      if val.None? && g != defattrs {
        EscapeIdempotent(key);
        val := GetAttr(defattrs, newkey, false);
      }
    }

    // -------------------------------------------------------------- save and flush

    /** Old enough to be written, or written by force. */
    ghost predicate Due(g: AttrGroup, force: bool)
      reads this`now, g`dirtytime
    {
      force || now - g.dirtytime >= syncTimer
    }

    /** attrgroup_save: 1 when the group was written, 0 when there was nothing to write yet. */
    method Save(g: AttrGroup, force: bool) returns (r: int)
      requires Valid() && g in groups
      modifies this`dirtylist, this`store, this`disk, g`dirty, g`list
      ensures Elsewhere() == old(Elsewhere())
      ensures Valid() && View(g) == old(View(g))
      ensures forall h :: h in groups ==> View(h) == old(View(h))
      ensures r == if old(g.dirty) && (force || now - old(g.dirtytime) >= syncTimer) then 1 else 0
      ensures r == 0 ==> store == old(store) && dirtylist == old(dirtylist) && g.dirty == old(g.dirty)
      ensures r == 0 ==> g.list == old(g.list)
      ensures r == 1 ==> StoredRows(g) == old(View(g))
      ensures store.Keys == old(store.Keys)
      ensures forall h :: h in groups && h != g ==> StoredRows(h) == old(StoredRows(h))
      ensures r == 1 ==> dirtylist == Remove(old(dirtylist), g) && !g.dirty
    {
      hide Inv, Overlay, Remove, StoredRows;
      DirtyLoaded(g, {});
      if !g.loaded { return 0; }
      if !g.dirty { return 0; }
      if !force && now - g.dirtytime < syncTimer { return 0; }
      WriteAttrs(g);
      ClearDirty(g);
      return 1;
    }

    lemma DirtyLoaded(g: AttrGroup, p: set<AttrGroup>)
      requires Inv(p) && g in groups
      ensures g.id in store && StoredRows(g) == store[g.id] && (g.dirty ==> g.loaded) && (!g.loaded ==> g.list == [])
    {
      hide ListOk, OneEach, Queued, AccessOrder, DirtyOrder;
    }

    /** attrgroup_clear_loaded on a group whose list was just dropped. */
    method ClearLoaded(g: AttrGroup)
      requires Inv({g}) && g in groups && g.loaded && !g.dirty && g.list == []
      modifies this`loadedlist, g`loaded, g`accessed
      ensures Valid() && !g.loaded && !g.accessed
      ensures loadedlist == Remove(old(loadedlist), g)
      ensures View(g) == old(View(g))
    {
      hide OneEach, StoreOk, Recent, Faithful, DirtyOk, ListOk, Queued, Overlay, StoredRows, Remove;
      UnqueueMembers(loadedlist, g, Loaded(groups));
      AccessUnqueue(loadedlist, g, now);
      ghost var ls, ds := Loaded(groups), Dirty(groups);
      g.accessed := false;
      g.loaded := false;
      loadedlist := Remove(loadedlist, g);
      assert Loaded(groups) == ls - {g};
      assert Dirty(groups) == ds;
    }

    /** Not accessed since it was loaded, or accessed long enough ago, or forced. */
    ghost predicate Idle(g: AttrGroup, force: bool)
      reads this`now, g`accessed, g`lastaccess
    {
      force || !g.accessed || now - g.lastaccess >= flushTimer
    }

    /** attrgroup_flush: 1 flushed, 2 skipped because it is taken for the default group, 0 not loaded or too recent. */
    method Flush(g: AttrGroup, force: bool) returns (r: int)
      requires Valid() && g in groups
      modifies this`dirtylist, this`loadedlist, this`store, this`disk, g
      ensures Elsewhere() == old(Elsewhere())
      ensures Valid()
      ensures forall h :: h in groups ==> View(h) == old(View(h))
      ensures r == if !old(g.loaded) || (!force && old(g.accessed) && now - old(g.lastaccess) < flushTimer) then 0
                   else if Marked(g) then 2 else 1
      ensures r != 1 ==> store == old(store) && dirtylist == old(dirtylist) && loadedlist == old(loadedlist)
      ensures r != 1 ==> g.list == old(g.list) && g.loaded == old(g.loaded) && g.dirty == old(g.dirty)
      ensures r != 1 ==> g.accessed == old(g.accessed) && g.lastaccess == old(g.lastaccess)
      ensures r == 1 ==> !g.loaded && !g.dirty && g.list == [] && StoredRows(g) == old(View(g))
      ensures r == 1 ==> loadedlist == Remove(old(loadedlist), g) && dirtylist == Remove(old(dirtylist), g)
      ensures store.Keys == old(store.Keys)
      ensures forall h :: h in groups && h != g ==> StoredRows(h) == old(StoredRows(h))
    {
      hide Inv, Overlay, Remove, StoredRows;
      if !g.loaded { return 0; }
      if !force && g.accessed && now - g.lastaccess < flushTimer { return 0; }
      if Marked(g) { return 2; }
      DropList(g);
      ClearLoaded(g);
      return 1;
    }

    /** The sync to storage and the release of the cached attributes. */
    method DropList(g: AttrGroup)
      requires Valid() && g in groups && g.loaded
      modifies this`dirtylist, this`store, this`disk, g`dirty, g`list
      ensures Elsewhere() == old(Elsewhere())
      ensures Inv({g}) && !g.dirty && g.list == []
      ensures forall h :: h in groups ==> View(h) == old(View(h))
      ensures StoredRows(g) == old(View(g)) && store.Keys == old(store.Keys)
      ensures forall h :: h in groups && h != g ==> StoredRows(h) == old(StoredRows(h))
      ensures dirtylist == Remove(old(dirtylist), g)
    {
      hide OneEach, Recent, Faithful, ListOk, Queued, AccessOrder, DirtyOrder, Overlay, Remove;
      var r := Save(g, true);
      if r == 0 { NotQueued(g); }
      CleanView(g, {});
      EmptyOverlay(StoredRows(g));
      Incomplete(g);
      SetList(g, [], {g});
    }

    lemma NotQueued(g: AttrGroup)
      requires Valid() && g in groups && !g.dirty
      ensures Remove(dirtylist, g) == dirtylist
    {
      hide Coherent, AccessOrder, DirtyOrder;
      assert g !in dirtylist;
    }

    /** A group may always be treated as one that is being loaded, and its list may then be dropped if clean. */
    lemma Incomplete(g: AttrGroup)
      requires Valid() && g in groups && !g.dirty
      ensures Inv({g}) && ListOk([], StoredRows(g), false, false)
    {
      hide Queued, AccessOrder, DirtyOrder;
    }

    /** Two dirty groups: if the one queued earlier is too young to write, so is the later one. */
    lemma YoungerBehind(i: nat, j: nat, force: bool)
      requires Valid() && i <= j < |dirtylist| && !Due(dirtylist[i], force)
      ensures !Due(dirtylist[j], force)
    {
      hide Coherent, Queued, AccessOrder;
    }

    /** Writing the head of the queue leaves the tail. */
    lemma HeadRemoved(q: seq<AttrGroup>)
      requires q != []
      ensures Remove(q, q[0]) == q[1..]
    {
    }

    lemma DirtyDistinct()
      requires Valid()
      ensures NoDup(dirtylist)
      ensures forall i :: 0 <= i < |dirtylist| ==> dirtylist[i] in groups
    {
      hide Coherent, AccessOrder, DirtyOrder;
      forall i | 0 <= i < |dirtylist| ensures dirtylist[i] in groups { assert dirtylist[i] in dirtylist; }
    }

    lemma LoadedDistinct()
      requires Valid()
      ensures NoDup(loadedlist)
      ensures forall i :: 0 <= i < |loadedlist| ==> loadedlist[i] in groups && loadedlist[i].loaded
      ensures forall g :: g in groups && g.loaded ==> g in loadedlist
      ensures defattrs in groups
    {
      hide ListOk, AccessOrder, DirtyOrder;
      forall i | 0 <= i < |loadedlist| ensures loadedlist[i] in groups && loadedlist[i].loaded {
        assert loadedlist[i] in loadedlist;
      }
    }

    /** Two accessed groups: if the one accessed earlier is too recent to flush, so is the later one. */
    lemma RecentBehind(i: nat, j: nat, force: bool)
      requires Valid() && i <= j < |loadedlist| && !Idle(loadedlist[i], force) && loadedlist[j].accessed
      ensures !Idle(loadedlist[j], force)
    {
      hide Coherent, Queued, DirtyOrder;
    }

    lemma MemberRemoved(q: seq<AttrGroup>, i: nat)
      requires i < |q| && q[i] !in q[..i]
      ensures Remove(q, q[i]) == q[..i] + q[i + 1..]
    {
      var n := IndexOf(q, q[i]);
      assert n == i;
    }

    lemma DirtyMember(i: nat)
      requires Valid() && i < |dirtylist|
      ensures dirtylist[i] in groups && dirtylist[i].dirty && dirtylist[i].loaded
    {
      hide ListOk, AccessOrder, DirtyOrder;
      assert dirtylist[i] in dirtylist;
    }

    /** With nothing left in the dirty queue, storage shows every account as its readers see it. */
    lemma AllSaved()
      requires Valid() && dirtylist == []
      ensures forall h :: h in groups ==> StoredRows(h) == View(h)
    {
      hide ListOk, AccessOrder, Overlay;
      forall h | h in groups ensures StoredRows(h) == View(h) {
        assert h !in Dirty(groups);
        CleanView(h, {});
      }
    }

    /** attrlayer_save from the head of the queue: 1 when a stepwise pass left work behind. */
    method SaveAll(pass: Pass) returns (r: int)
      requires Valid()
      modifies this`dirtylist, this`store, this`disk, groups`dirty, groups`list
      ensures Elsewhere() == old(Elsewhere())
      ensures Valid()
      ensures forall h :: h in groups ==> View(h) == old(View(h))
      ensures |dirtylist| <= |old(dirtylist)|
      ensures var n := |old(dirtylist)| - |dirtylist|;
              && dirtylist == old(dirtylist)[n..]
              && (forall i :: 0 <= i < n ==> old(Due(dirtylist[i], pass.force)))
              && (forall i :: 0 <= i < n ==> StoredRows(old(dirtylist)[i]) == old(View(dirtylist[i])))
              && (pass.all ==> forall i :: n <= i < |old(dirtylist)| ==> !old(Due(dirtylist[i], pass.force)))
              && (!pass.all ==> n <= userStep)
              && (n < userStep ==> forall i :: n <= i < |old(dirtylist)| ==> !old(Due(dirtylist[i], pass.force)))
      ensures forall h :: h in groups && h !in old(dirtylist) ==> StoredRows(h) == old(StoredRows(h))
      ensures pass.all && pass.force ==> dirtylist == []
      ensures r == if !pass.all && dirtylist != [] then 1 else 0
    {
      hide Inv, View, StoredRows, Remove;
      DirtyDistinct();
      ghost var q := dirtylist;
      ghost var n := 0;
      var tcount := 0;
      while dirtylist != []
        invariant Elsewhere() == old(Elsewhere())
        invariant Valid() && n <= |q| && dirtylist == q[n..] && tcount == n
        invariant forall h :: h in groups ==> View(h) == old(View(h))
        invariant forall i :: 0 <= i < n ==> old(Due(q[i], pass.force))
        invariant forall i :: 0 <= i < |q| ==> q[i] in groups
        invariant forall i :: 0 <= i < n ==> StoredRows(q[i]) == old(View(q[i]))
        invariant forall h :: h in groups && h !in q ==> StoredRows(h) == old(StoredRows(h))
        invariant !pass.all ==> n <= userStep
        decreases |dirtylist|
      {
        if !pass.all && tcount >= userStep { break; }
        var g := dirtylist[0];
        DirtyMember(0);
        HeadRemoved(dirtylist);
        var s := Save(g, pass.force);
        if s == 0 {
          forall i | 0 <= i < |dirtylist| ensures !Due(dirtylist[i], pass.force) {
            YoungerBehind(0, i, pass.force);
          }
          forall i | n <= i < |q| ensures !old(Due(q[i], pass.force)) {
            assert q[i] == dirtylist[i - n];
          }
          break;
        }
        n := n + 1;
        tcount := tcount + 1;
      }
      r := if !pass.all && dirtylist != [] then 1 else 0;
    }

    /** Left in the cache as it was, with what it has not written. */
    twostate predicate Untouched(h: AttrGroup)
      reads this`store, h
    {
      && h.loaded == old(h.loaded) && h.accessed == old(h.accessed) && h.lastaccess == old(h.lastaccess)
      && h.dirty == old(h.dirty) && StoredRows(h) == old(StoredRows(h))
    }

    /** Written back and released. */
    twostate predicate Flushed(h: AttrGroup, force: bool)
      reads this`store, this`now, h
    {
      !h.loaded && StoredRows(h) == old(View(h)) && old(Idle(h, force))
    }

    /** Behind a group that is too recent to flush, all that were accessed are. */
    lemma RecentFrom(i: nat, force: bool)
      requires Valid() && i < |loadedlist| && !Idle(loadedlist[i], force)
      ensures forall j :: i <= j < |loadedlist| && loadedlist[j].accessed ==> !Idle(loadedlist[j], force)
      ensures forall h :: h in loadedlist[i..] && h.accessed ==> !Idle(h, force)
    {
      hide Inv;
      forall j | i <= j < |loadedlist| && loadedlist[j].accessed ensures !Idle(loadedlist[j], force) {
        RecentBehind(i, j, force);
      }
    }

    lemma VisitedStep(q: seq<AttrGroup>, n: nat, list: seq<AttrGroup>, i: nat)
      requires n < |q| && i < |list| && list[..i] == Kept(q[..n]) && list[i..] == q[n..] && NoDup(list)
      ensures q[n] == list[i] && q[n + 1..] == list[i + 1..]
      ensures Kept(q[..n + 1]) == if Marked(list[i]) then list[..i + 1] else list[..i]
    {
      assert list[i..][0] == q[n..][0];
      assert q[..n + 1][..n] == q[..n] && q[..n + 1][n] == q[n];
      assert q[n + 1..] == q[n..][1..] && list[i + 1..] == list[i..][1..];
    }

    /** What stays of the groups that a pass has gone over: those it takes for the default one, in their order. */
    ghost function Kept(visited: seq<AttrGroup>): seq<AttrGroup>
      reads this`defattrs
    {
      if visited == [] then []
      else
        var last := visited[|visited| - 1];
        Kept(visited[..|visited| - 1]) + if Marked(last) then [last] else []
    }

    lemma {:induction false} KeptMembers(visited: seq<AttrGroup>, h: AttrGroup)
      ensures h in Kept(visited) <==> h in visited && Marked(h)
    {
      if visited != [] {
        assert visited == visited[..|visited| - 1] + [visited[|visited| - 1]];
        KeptMembers(visited[..|visited| - 1], h);
      }
    }

    /** One step of the walk. */
    method FlushStep(i: nat, force: bool) returns (s: int)
      requires Valid() && i < |loadedlist|
      modifies this`dirtylist, this`loadedlist, this`store, this`disk, loadedlist[i]
      ensures Elsewhere() == old(Elsewhere())
      ensures Valid()
      ensures forall h :: h in groups ==> View(h) == old(View(h))
      ensures forall h :: h in groups && h != old(loadedlist[i]) ==> StoredRows(h) == old(StoredRows(h))
      ensures s in {0, 1, 2}
      ensures s == 1 ==> loadedlist == old(loadedlist)[..i] + old(loadedlist)[i + 1..]
      ensures s == 1 ==> Flushed(old(loadedlist[i]), force) && !Marked(old(loadedlist[i]))
      ensures s != 1 ==> loadedlist == old(loadedlist) && Untouched(loadedlist[i])
      ensures s == 2 ==> Marked(loadedlist[i])
      ensures s == 0 ==> !Idle(loadedlist[i], force)
    {
      hide Inv, View, StoredRows, Remove;
      LoadedDistinct();
      MemberRemoved(loadedlist, i);
      s := Flush(loadedlist[i], force);
    }

    /** Before place i stands what is left of the first n groups of q, and from there on the others. */
    ghost predicate WalkedTo(q: seq<AttrGroup>, n: nat, i: nat)
      reads this`loadedlist, this`defattrs
    {
      && n <= |q| && i <= |loadedlist|
      && loadedlist[..i] == Kept(q[..n]) && loadedlist[i..] == q[n..]
    }

    /** The same step, as progress over the queue q. */
    method FlushNext(i: nat, force: bool, ghost q: seq<AttrGroup>, ghost n: nat) returns (s: int)
      requires Valid() && i < |loadedlist| && WalkedTo(q, n, i)
      modifies this`dirtylist, this`loadedlist, this`store, this`disk, loadedlist[i]
      ensures Elsewhere() == old(Elsewhere())
      ensures Valid()
      ensures old(loadedlist[i]) == q[n] && q[n] !in q[n + 1..]
      ensures forall h :: h in groups ==> View(h) == old(View(h))
      ensures forall h :: h in groups && h != q[n] ==> StoredRows(h) == old(StoredRows(h))
      ensures s in {0, 1, 2}
      ensures s == 0 ==> loadedlist == old(loadedlist) && WalkedTo(q, n, i) && Untouched(q[n])
      ensures s == 0 ==> !Idle(q[n], force) && forall h :: h in q[n..] && h.accessed ==> !Idle(h, force)
      ensures s != 0 ==> WalkedTo(q, n + 1, if s == 2 then i + 1 else i)
      ensures s == 1 ==> !Marked(q[n]) && Flushed(q[n], force)
      ensures s == 2 ==> Marked(q[n]) && Untouched(q[n])
    {
      hide Inv, View, StoredRows;
      LoadedDistinct();
      VisitedStep(q, n, loadedlist, i);
      assert q[n + 1..] == loadedlist[i + 1..];
      s := FlushStep(i, force);
      if s == 0 { RecentFrom(i, force); }
    }

    /** A group as a walk that may force its way found it. */
    ghost function Seen(h: AttrGroup, force: bool): Sight
      reads this`store, this`now, h
    {
      Sight(View(h), StoredRows(h), h.loaded, h.dirty, h.accessed, h.lastaccess, Idle(h, force))
    }

    /** Where every group stands, against what a walk found, while the groups in rest are still to be visited. */
    ghost predicate Standing(found: map<AttrGroup, Sight>, rest: seq<AttrGroup>, force: bool)
      reads this, groups
    {
      forall h :: h in groups ==>
        && h in found && View(h) == found[h].view
        && (if found[h].loaded && !Marked(h) && h !in rest
            then !h.loaded && StoredRows(h) == found[h].view && found[h].idle
            else Seen(h, force) == found[h])
    }

    /** The same step, against what the walk found. */
    method FlushRound(i: nat, force: bool, ghost q: seq<AttrGroup>, ghost n: nat, ghost found: map<AttrGroup, Sight>)
      returns (s: int)
      requires Valid() && i < |loadedlist| && WalkedTo(q, n, i) && n < |q| && Standing(found, q[n..], force)
      modifies this`dirtylist, this`loadedlist, this`store, this`disk, loadedlist[i]
      ensures Elsewhere() == old(Elsewhere())
      ensures Valid() && s in {0, 1, 2}
      ensures s == 0 ==> WalkedTo(q, n, i) && loadedlist == old(loadedlist) && Standing(found, q[n..], force)
      ensures s == 0 ==> !Idle(q[n], force) && forall h :: h in q[n..] && h.accessed ==> !Idle(h, force)
      ensures s != 0 ==> WalkedTo(q, n + 1, if s == 2 then i + 1 else i) && Standing(found, q[n + 1..], force)
    {
      hide Inv, View, StoredRows, WalkedTo, Kept;
      LoadedDistinct();
      ghost var g, rest := loadedlist[i], q[n + 1..];
      FirstToGo(q, n, i);
      assert q[n..] == [g] + rest;
      assert Seen(g, force) == found[g];
      s := FlushNext(i, force, q, n);
    }

    lemma FirstToGo(q: seq<AttrGroup>, n: nat, i: nat)
      requires WalkedTo(q, n, i) && n < |q| && i < |loadedlist|
      ensures q[n] == loadedlist[i]
    {
      hide Kept;
      assert loadedlist[i..][0] == q[n..][0];
    }

    /** The walk itself: what becomes of the list, and where every group stands when it ends. */
    method FlushWalk(pass: Pass, ghost found: map<AttrGroup, Sight>) returns (ghost n: nat, more: bool)
      requires Valid() && Standing(found, loadedlist, pass.force)
      modifies this`dirtylist, this`loadedlist, this`store, this`disk, groups
      ensures Elsewhere() == old(Elsewhere())
      ensures Valid()
      ensures n <= |old(loadedlist)| && (!pass.all ==> n <= userStep) && more == (n < |old(loadedlist)|)
      ensures loadedlist == Kept(old(loadedlist)[..n]) + old(loadedlist)[n..]
      ensures Standing(found, old(loadedlist)[n..], pass.force)
      ensures more && (pass.all || n < userStep) ==>
                !Idle(old(loadedlist)[n], pass.force)
                && forall h :: h in old(loadedlist)[n..] && h.accessed ==> !Idle(h, pass.force)
    {
      hide Inv, View, StoredRows, Kept, WalkedTo, Standing;
      ghost var q := loadedlist;
      var i, tcount := 0, 0;
      n := 0;
      WalkStarts();
      Walked(q, 0, 0);
      assert q[0..] == q;
      while i < |loadedlist|
        invariant Elsewhere() == old(Elsewhere())
        invariant Valid() && WalkedTo(q, n, i) && tcount == n && (!pass.all ==> n <= userStep)
        invariant n <= |q| && |loadedlist| - i == |q| - n
        invariant Standing(found, q[n..], pass.force)
        decreases |loadedlist| - i
      {
        if !pass.all && tcount >= userStep { break; }
        LoadedDistinct();
        var s := FlushRound(i, pass.force, q, n, found);
        if s == 0 { break; }
        if s == 2 { i := i + 1; }
        n := n + 1;
        tcount := tcount + 1;
        Walked(q, n, i);
      }
      Walked(q, n, i);
      more := i < |loadedlist|;
    }

    lemma Walked(q: seq<AttrGroup>, n: nat, i: nat)
      requires WalkedTo(q, n, i)
      ensures n <= |q| && |loadedlist| - i == |q| - n && loadedlist == Kept(q[..n]) + q[n..]
    {
      hide Kept;
    }

    lemma WalkStarts()
      ensures WalkedTo(loadedlist, 0, 0)
    {
    }

    /**
     attrlayer_flush from the head of the queue, over its first n groups; those taken for the default group are
     stepped over, and neither released nor written. The pass stops at a group that is too recent, and a stepwise
     one also after userStep groups; then r is 1.
     */
    method FlushAll(pass: Pass) returns (r: int, ghost n: nat)
      requires Valid()
      modifies this`dirtylist, this`loadedlist, this`store, this`disk, groups
      ensures Elsewhere() == old(Elsewhere())
      ensures Valid()
      ensures forall h :: h in groups ==> View(h) == old(View(h))
      ensures n <= |old(loadedlist)| && (!pass.all ==> n <= userStep)
      ensures loadedlist == Kept(old(loadedlist)[..n]) + old(loadedlist)[n..]
      ensures n < |old(loadedlist)| && (pass.all || n < userStep) ==>
                forall h :: h in old(loadedlist)[n..] && (h == old(loadedlist)[n] || h.accessed) ==>
                  !old(Idle(h, pass.force))
      ensures r == if !pass.all && n < |old(loadedlist)| then 1 else 0
      ensures forall h :: h in groups && old(h.loaded) && !h.loaded ==> Flushed(h, pass.force) && !Marked(h)
      ensures forall h :: h in groups && h.loaded ==> Untouched(h)
      ensures pass.all ==> forall h :: h in groups && h.loaded && h.accessed && !Marked(h) ==>
                !old(Idle(h, pass.force))
      ensures pass.all && pass.force ==>
                forall h :: h in groups ==>
                  (h.loaded <==> old(h.loaded) && Marked(h)) && (!h.loaded ==> StoredRows(h) == old(View(h)))
    {
      hide Inv, View, StoredRows, Marked;
      LoadedDistinct();
      ghost var found := map h | h in groups :: Seen(h, pass.force);
      var more;
      n, more := FlushWalk(pass, found);
      LoadedDistinct();
      Unloaded();
      r := if !pass.all && more then 1 else 0;
    }

    /** So a forced full pass leaves the default group alone exactly if no other loaded group is taken for it. */
    method FlushForced() returns (r: int)
      requires Valid()
      modifies this`dirtylist, this`loadedlist, this`store, this`disk, groups
      ensures Valid() && r == 0
      ensures (forall h :: h in groups && h.loaded ==> h == defattrs) <==>
              forall h :: h in groups && old(h.loaded) && Marked(h) ==> h == defattrs
      ensures (forall h :: h in groups ==> StoredRows(h) == View(h)) <==>
              forall h :: h in groups && old(h.loaded) && Marked(h) ==> old(StoredRows(h)) == old(View(h))
    {
      hide Inv, View, StoredRows, Marked, Kept;
      ghost var n;
      r, n := FlushAll(Pass(true, true));
      Unloaded();
    }

    /** For files of one directory the directory decides: all of them are taken for the default one, or none. */
    lemma MarkedOnFiles(g: AttrGroup, dir: string, name: string)
      requires Valid() && g in groups && backend.FlatFile? && g.id == Path(dir + "/" + name)
      requires |dir| >= 4 && (0 as char) !in dir[..4]
      ensures defattrs.id.Path?
      ensures Marked(g) <==> |defattrs.id.path| >= 4 && dir[..4] == defattrs.id.path[..4]
    {
      Kinds();
      DirectoryDecides(dir, name, defattrs.id.path);
      hide Inv, SameMark;
    }

    lemma Kinds()
      requires Valid()
      ensures forall g :: g in groups ==> (g.id.Path? <==> backend.FlatFile?)
      ensures defattrs in groups
    {
      hide Inv;
      forall g | g in groups ensures g.id.Path? <==> backend.FlatFile? { KindOf(g); }
      DefaultListed();
    }

    lemma DefaultListed()
      requires Valid()
      ensures defattrs in groups
    {
      hide OneEach, Cached, LoadedOk, DirtyOk, Recent, Faithful, StoreOk;
    }

    /** On rows only the default group is taken for the default group. */
    lemma MarkedOnRows(g: AttrGroup)
      requires Valid() && g in groups && backend.SqlRows?
      ensures Marked(g) <==> g == defattrs
    {
      hide Coherent, Queued, AccessOrder, DirtyOrder;
    }

    /** Groups out of the cache show what storage holds. */
    lemma Unloaded()
      requires Valid()
      ensures forall h :: h in groups && !h.loaded ==> StoredRows(h) == View(h)
    {
      hide ListOk, Queued, AccessOrder, DirtyOrder, View;
      forall h | h in groups && !h.loaded ensures StoredRows(h) == View(h) { CleanView(h, {}); }
    }

    // -------------------------------------------------------------- groups come and go

    /** The server clock only moves forward. */
    method Tick(t: nat)
      requires Valid()
      modifies this`now
      ensures Valid() && now == old(now) + t
    {
      hide Coherent, Queued;
      now := now + t;
    }

    /** attrgroup_create_storage, and attrgroup_create_newuser when the record is new: a new user is born loaded. */
    method CreateGroup(id: Record, newuser: bool) returns (g: AttrGroup)
      requires Valid() && (forall h :: h in groups ==> h.id != id) && (id in store <==> !newuser)
      requires id.Path? <==> backend.FlatFile?
      modifies this`groups, this`store, this`disk, this`loadedlist
      ensures Elsewhere() == old(Elsewhere()) - {id}
      ensures Valid() && fresh(g) && g.id == id && groups == old(groups) + {g}
      ensures g.loaded == newuser && g.list == [] && !g.dirty
      ensures store == if newuser then old(store)[id := map[]] else old(store)
      ensures disk == if newuser then old(disk)[id := map[]] else old(disk)
      ensures loadedlist == old(loadedlist) + if newuser then [g] else []
      ensures View(g) == if newuser then map[] else old(store)[id]
      ensures forall h :: h in old(groups) ==> View(h) == old(View(h))
    {
      hide Inv, Overlay, Covers;
      g := new AttrGroup(id);
      if newuser { NewRecord(id); }
      EmptyOverlay(store[id]);
      Enlist(g);
      if newuser {
        SetLoaded(g);
        NoRows();
        Completed(g);
      }
    }

    lemma NoRows()
      ensures Covers([], map[]) && CanonicalRows(map[])
    {
    }

    /** storage->create_account: a record without rows. */
    method NewRecord(id: Record)
      requires Valid() && id !in store && (id.Path? <==> backend.FlatFile?)
      modifies this`store, this`disk
      ensures Valid() && store == old(store)[id := map[]] && disk == old(disk)[id := map[]]
    {
      hide Coherent, OneEach, LoadedOk, DirtyOk, SafeGroups, SafeStore, SafeRows, Canonically, CanonicalRows;
      NothingUnsafe();
      NoRows();
      CanonicalUpdate(backend, store, id, map[]);
      if safe { SafeStoreUpdate(backend, store, disk, id, map[]); }
      store, disk := store[id := map[]], disk[id := map[]];
    }

    method Enlist(g: AttrGroup)
      requires Valid() && g !in groups && g.id in store && forall h :: h in groups ==> h.id != g.id
      requires !g.loaded && !g.accessed && !g.dirty && g.list == []
      modifies this`groups
      ensures Valid() && groups == old(groups) + {g}
    {
      hide Coherent, StoreOk, Queued, DirtyOrder, AccessOrder, SafeList, SafeRows, SafeStore, CanonicalRows;
      NothingUnsafe();
      StoredCanonical(g.id);
      NewCoherent(g, store[g.id]);
      ghost var ls, ds := Loaded(groups), Dirty(groups);
      groups := groups + {g};
      assert Loaded(groups) == ls;
      assert Dirty(groups) == ds;
    }

    lemma StoredCanonical(id: Record)
      requires Valid() && id in store
      ensures CanonicalRows(store[id])
    {
      hide OneEach, Cached, LoadedOk, DirtyOk, Recent, Faithful, CanonicalRows;
    }

    lemma NothingUnsafe()
      ensures SafeRows(backend, map[]) && SafeList(backend, [])
    {
    }

    lemma NewCoherent(g: AttrGroup, rows: Rows)
      requires CanonicalRows(rows) && !g.loaded && !g.accessed && !g.dirty && g.list == []
      ensures forall partial :: Coherent(g, rows, partial)
    {
    }

    /** A load that has cached every row is over. */
    lemma Completed(g: AttrGroup)
      requires Inv({g}) && g in groups && (backend.SqlRows? || Covers(g.list, StoredRows(g)))
      ensures Valid()
    {
      hide Queued, AccessOrder, DirtyOrder, Overlay;
    }

    /**
     attrgroup_destroy, of any group but the default: forced out of the cache, then forgotten. One that is loaded
     and taken for the default group is forgotten without being written, and stays in the queues.
     */
    method Destroy(g: AttrGroup)
      requires Valid() && g in groups && g != defattrs
      modifies this`dirtylist, this`loadedlist, this`store, this`disk, this`groups, g
      ensures Elsewhere() == old(Elsewhere())[g.id := StoredRows(g)]
      ensures groups == old(groups) - {g}
      ensures Valid() <==> !(old(g.loaded) && Marked(g))
      ensures !(old(g.loaded) && Marked(g)) ==>
                StoredRows(g) == old(View(g)) && g !in loadedlist && g !in dirtylist
      ensures old(g.loaded) && Marked(g) ==>
                && store == old(store) && loadedlist == old(loadedlist) && dirtylist == old(dirtylist)
                && g in loadedlist && (old(g.dirty) ==> g in dirtylist)
      ensures forall h :: h in groups ==> View(h) == old(View(h)) && StoredRows(h) == old(StoredRows(h))
    {
      hide Inv, View, StoredRows, Remove, Marked, Apart, IdsOf;
      var r := Flush(g, true);
      Left(g);
      if g.loaded {
        Linked(g);
        groups := groups - {g};
        Dangling(g);
      } else {
        Unloaded();
        Forget(g);
      }
    }

    /** What storage holds of an account counts as elsewhere once its group is gone. */
    lemma Left(g: AttrGroup)
      requires Valid() && g in groups
      ensures Apart(store, IdsOf(groups - {g})) == Apart(store, IdsOf(groups))[g.id := StoredRows(g)]
    {
      hide Inv;
      Recorded(g);
      OtherIds(g);
      assert IdsOf(groups) == IdsOf(groups - {g}) + {g.id};
    }

    lemma Linked(g: AttrGroup)
      requires Valid() && g in groups && g.loaded
      ensures g in loadedlist && (g.dirty ==> g in dirtylist)
    {
      hide ListOk, NoDup, AccessOrder, DirtyOrder;
    }

    lemma Dangling(g: AttrGroup)
      requires g in loadedlist && g !in groups
      ensures !Valid()
    {
      hide Coherent, NoDup, AccessOrder, DirtyOrder;
    }

    /** The end of a group that is no longer loaded. */
    method Forget(g: AttrGroup)
      requires Valid() && g in groups && g != defattrs && !g.loaded
      modifies this`groups
      ensures Valid() && groups == old(groups) - {g}
      ensures g !in loadedlist && g !in dirtylist
    {
      hide StoreOk, SafeStore, ListOk, Queued, DirtyOrder, AccessOrder, SafeList;
      ghost var ls, ds := Loaded(groups), Dirty(groups);
      groups := groups - {g};
      assert Loaded(groups) == ls;
      assert Dirty(groups) == ds;
      NotMember(loadedlist, g, ls);
      NotMember(dirtylist, g, ds);
    }

    lemma NotMember(q: seq<AttrGroup>, g: AttrGroup, gs: set<AttrGroup>)
      requires Queued(q, gs) && g !in gs
      ensures g !in q
    {
    }

    // -------------------------------------------------------------- whole runs

    ghost function Views(dir: map<Record, AttrGroup>): map<Record, Rows>
      reads this`store, dir.Values`list
    {
      map id | id in dir :: View(dir[id])
    }

    /** The plain map behind the cache: what readers see of the accounts with a group, and what is stored of others. */
    ghost function Plain(dir: map<Record, AttrGroup>): Accounts
      reads this`store, this`groups, dir.Values`list
    {
      Accounts(Elsewhere() + Views(dir), dir.Keys)
    }

    /** The groups by their records, the default one among them. */
    ghost predicate Directory(dir: map<Record, AttrGroup>)
      reads this`groups, this`defattrs
    {
      Lists(dir, groups) && defattrs.id in dir && dir[defattrs.id] == defattrs
    }

    lemma SameViews(dir: map<Record, AttrGroup>, was: map<Record, Rows>)
      requires was.Keys == dir.Keys
      requires forall id :: id in dir ==> View(dir[id]) == was[id]
      ensures Views(dir) == was
    {
      hide View;
    }

    lemma AllRecords(dir: map<Record, AttrGroup>, id: Record)
      requires Valid() && Directory(dir)
      ensures id in Plain(dir).rows <==> id in store
      ensures id in Elsewhere() <==> id in store && id !in dir
      ensures id in Elsewhere() ==> Elsewhere()[id] == store[id]
    {
      hide Inv, View;
      forall g | g in groups ensures g.id in store { Recorded(g); }
    }

    /** The key has not been set for the time after which groups are saved, if ever. */
    ghost predicate Aged(id: Record, k: string)
      reads this`settimes, this`now
    {
      (id, k) in settimes ==> now - settimes[(id, k)] >= syncTimer
    }

    /** Storage has what was set that long ago. */
    ghost predicate Settled(g: AttrGroup)
      reads this`settimes, this`now, this`store, g`list
    {
      forall k :: Aged(g.id, k) ==> Read(StoredRows(g), k) == Read(View(g), k)
    }

    /** Whatever a group that is not due has yet to write was set a short time ago. */
    lemma NotDueSettled(g: AttrGroup)
      requires Valid() && g in groups && (g.dirty ==> now - g.dirtytime < syncTimer)
      ensures Settled(g)
    {
      if g.dirty {
        Dated(g, {});
      } else {
        CleanView(g, {});
      }
      hide Inv, View, StoredRows;
    }

    /** Accessed too short a time ago to be flushed. */
    ghost predicate Fresh(g: AttrGroup)
      reads this`now, g`accessed, g`lastaccess
    {
      g.accessed && now - g.lastaccess < flushTimer
    }

    /** What a request leaves behind, besides what readers see. */
    ghost predicate Effect(dir: map<Record, AttrGroup>, op: Op)
      reads this, dir.Values
    {
      match op
      case Get(id, _) => id in dir ==> dir[id].loaded && dir[id].accessed && dir[id].lastaccess == now
      case Set(id, _, _) => id in dir ==> dir[id].loaded && dir[id].accessed && dir[id].lastaccess == now
      case LoadGroup(id, _) => id in dir ==> dir[id].loaded
      case SaveGroup(id, force) =>
        id in dir ==> Settled(dir[id]) && (force ==> !dir[id].dirty && StoredRows(dir[id]) == View(dir[id]))
      case FlushGroup(id, force) =>
        id in dir && !Marked(dir[id]) && (force || !Fresh(dir[id])) ==>
          !dir[id].loaded && StoredRows(dir[id]) == View(dir[id])
      case SavePass(pass) =>
        && (pass.all ==> forall id :: id in dir ==> Settled(dir[id]))
        && (pass.all && pass.force ==> dirtylist == [] && store == Plain(dir).rows)
      case FlushPass(pass) =>
        pass.all ==> forall id :: id in dir && !Marked(dir[id]) ==>
          if pass.force then !dir[id].loaded && StoredRows(dir[id]) == View(dir[id])
          else dir[id].loaded && dir[id].accessed ==> Fresh(dir[id])
      case _ => true
    }

    /** If every group has been written, storage is the plain map. */
    lemma AllStored(dir: map<Record, AttrGroup>)
      requires Valid() && Directory(dir) && forall id :: id in dir ==> StoredRows(dir[id]) == View(dir[id])
      ensures store == Plain(dir).rows
    {
      hide Inv, View;
      forall id ensures id in store <==> id in Plain(dir).rows
                ensures id in Elsewhere() <==> id in store && id !in dir
                ensures id in Elsewhere() ==> Elsewhere()[id] == store[id] {
        AllRecords(dir, id);
      }
      forall id | id in dir ensures id in store { Recorded(dir[id]); }
      hide Elsewhere;
    }

    method Ask(dir: map<Record, AttrGroup>, id: Record, key: string) returns (answer: seq<Option<string>>)
      requires Valid() && Directory(dir)
      modifies this`loadedlist, this`dirtylist, this`safe, this`settimes, groups
      ensures Valid() && safe == old(safe) && settimes == old(settimes) && Plain(dir) == old(Plain(dir))
      ensures answer == PlainAnswer(old(Plain(dir)), defattrs.id, Get(id, key))
      ensures Effect(dir, Get(id, key))
    {
      hide Inv, View, Answer, CanonicalKey, Elsewhere;
      answer := [];
      AllRecords(dir, defattrs.id);
      ghost var was := Views(dir);
      if id in dir {
        var v := GetAttr(dir[id], key, true);
        answer := [v];
        SameViews(dir, was);
      }
    }

    method Change(dir: map<Record, AttrGroup>, id: Record, key: string, val: Option<string>)
      requires Valid() && Directory(dir)
      modifies this`loadedlist, this`dirtylist, this`safe, this`settimes, groups
      ensures Valid() && safe == (old(safe) && (id in dir ==> SafeSet(backend, key, val)))
      ensures settimes == if id in dir then old(settimes)[(id, CanonicalKey(key)) := now] else old(settimes)
      ensures Plain(dir) == PlainStep(old(Plain(dir)), defattrs.id, Set(id, key, val))
      ensures Effect(dir, Set(id, key, val))
    {
      hide Inv, View, Put, CanonicalKey, Elsewhere, SafeSet;
      ghost var was, rest := Views(dir), Elsewhere();
      if id in dir {
        SetAttr(dir[id], key, val, true, {});
        SameViews(dir, was[id := Put(was[id], CanonicalKey(key), val)]);
        JoinSet(rest, was, id, Put(was[id], CanonicalKey(key), val));
      } else {
        NotOpen(dir, id);
      }
    }

    lemma NotOpen(dir: map<Record, AttrGroup>, id: Record)
      requires id !in dir
      ensures id !in Plain(dir).open
    {
    }

    /** Loads, saves, flushes, passes and waits change nothing that a reader sees. */
    method Maintain(dir: map<Record, AttrGroup>, op: Op)
      requires Valid() && Directory(dir) && !op.Get? && !op.Set?
      modifies this`now, this`store, this`disk, this`safe, this`settimes, this`loadedlist, this`dirtylist, groups
      ensures Valid() && safe == old(safe) && settimes == old(settimes) && Plain(dir) == old(Plain(dir))
      ensures now == old(now) + if op.Wait? then op.t else 0
      ensures Effect(dir, op)
      ensures op.FlushGroup? && op.id in dir ==>
                (dir[op.id].loaded <==> old(dir[op.id].loaded) &&
                                        (Marked(dir[op.id]) || (!op.force && old(Fresh(dir[op.id])))))
      ensures op.SavePass? && !op.pass.all ==>
                || |dirtylist| + userStep == |old(dirtylist)|
                || forall id :: id in dir ==> Settled(dir[id]) && (op.pass.force ==> !dir[id].dirty)
      ensures op.FlushPass? && !op.pass.force ==>
                forall id :: id in dir && old(dir[id].loaded && Fresh(dir[id])) ==> dir[id].loaded
    {
      hide Inv, View, Plain, Directory, Settled, Fresh, StoredRows, Marked;
      match op
      case LoadGroup(id, tab) => if id in dir { LoadOne(dir, id, tab); }
      case SaveGroup(id, force) => if id in dir { SaveOne(dir, id, force); }
      case FlushGroup(id, force) => if id in dir { FlushOne(dir, id, force); }
      case SavePass(pass) => SaveSome(dir, pass);
      case FlushPass(pass) => FlushSome(dir, pass);
      case Wait(t) => Tick(t);
      case _ =>
    }

    method LoadOne(dir: map<Record, AttrGroup>, id: Record, tab: string)
      requires Valid() && Directory(dir) && id in dir
      modifies this`safe, this`settimes, this`loadedlist, this`dirtylist, groups
      ensures Valid() && safe == old(safe) && settimes == old(settimes) && Plain(dir) == old(Plain(dir))
      ensures dir[id].loaded
    {
      hide Inv, View, StoredRows, Elsewhere, Lists, Keeps;
      Members(dir);
      ghost var was := Views(dir);
      Load(dir[id], tab, {});
      SameViews(dir, was);
    }

    method SaveOne(dir: map<Record, AttrGroup>, id: Record, force: bool)
      requires Valid() && Directory(dir) && id in dir
      modifies this`store, this`disk, this`dirtylist, groups
      ensures Valid() && safe == old(safe) && Plain(dir) == old(Plain(dir))
      ensures Settled(dir[id])
      ensures force ==> !dir[id].dirty && StoredRows(dir[id]) == View(dir[id])
    {
      hide Inv, View, StoredRows, Elsewhere, Lists, Due, Settled;
      Members(dir);
      ghost var was := Views(dir);
      var r := Save(dir[id], force);
      SameViews(dir, was);
      if !dir[id].dirty { CleanView(dir[id], {}); }
      NotDueSettled(dir[id]);
    }

    method FlushOne(dir: map<Record, AttrGroup>, id: Record, force: bool)
      requires Valid() && Directory(dir) && id in dir
      modifies this`store, this`disk, this`loadedlist, this`dirtylist, groups
      ensures Valid() && safe == old(safe) && Plain(dir) == old(Plain(dir))
      ensures dir[id].loaded <==> old(dir[id].loaded) && (Marked(dir[id]) || (!force && old(Fresh(dir[id]))))
      ensures dir[id].loaded ==> (Fresh(dir[id]) <==> old(Fresh(dir[id])))
      ensures !dir[id].loaded ==> StoredRows(dir[id]) == View(dir[id])
    {
      hide Inv, View, StoredRows, Elsewhere, Lists, Marked;
      Members(dir);
      ghost var was := Views(dir);
      var r := Flush(dir[id], force);
      SameViews(dir, was);
      Unloaded();
    }

    method SaveSome(dir: map<Record, AttrGroup>, pass: Pass)
      requires Valid() && Directory(dir)
      modifies this`store, this`disk, this`dirtylist, groups`dirty, groups`list
      ensures Valid() && safe == old(safe) && Plain(dir) == old(Plain(dir))
      ensures pass.all && pass.force ==> dirtylist == [] && store == Plain(dir).rows
      ensures pass.all || |dirtylist| + userStep != |old(dirtylist)| ==>
                forall id :: id in dir ==> Settled(dir[id]) && (pass.force ==> !dir[id].dirty)
    {
      hide Inv, View, StoredRows, Elsewhere, Lists, Due, Settled;
      Members(dir);
      ghost var was := Views(dir);
      var r := SaveAll(pass);
      SameViews(dir, was);
      RestSettled(pass);
      if dirtylist == [] {
        AllSaved();
        AllStored(dir);
      }
    }

    /** After a pass that left nothing due behind. */
    lemma RestSettled(pass: Pass)
      requires Valid()
      ensures (forall i :: 0 <= i < |dirtylist| ==> !Due(dirtylist[i], pass.force)) ==>
                forall g :: g in groups ==> Settled(g) && (pass.force ==> !g.dirty)
    {
      hide Inv, Settled;
      if forall i :: 0 <= i < |dirtylist| ==> !Due(dirtylist[i], pass.force) {
        forall g | g in groups ensures Settled(g) && (pass.force ==> !g.dirty) {
          if g.dirty { QueuedDirty(g); }
          NotDueSettled(g);
        }
      }
    }

    lemma QueuedDirty(g: AttrGroup)
      requires Valid() && g in groups && g.dirty
      ensures g in dirtylist
    {
      hide OneEach, Cached, LoadedOk, StoreOk, Faithful, Recent;
    }

    method FlushSome(dir: map<Record, AttrGroup>, pass: Pass)
      requires Valid() && Directory(dir)
      modifies this`store, this`disk, this`loadedlist, this`dirtylist, groups
      ensures Valid() && safe == old(safe) && Plain(dir) == old(Plain(dir))
      ensures Effect(dir, FlushPass(pass))
      ensures !pass.force ==> forall id :: id in dir && old(dir[id].loaded && Fresh(dir[id])) ==> dir[id].loaded
    {
      hide Inv, View, StoredRows, Elsewhere, Lists, Marked, Kept;
      Members(dir);
      ghost var was := Views(dir);
      var r, _ := FlushAll(pass);
      SameViews(dir, was);
      Unloaded();
    }

    lemma Members(dir: map<Record, AttrGroup>)
      requires Directory(dir)
      ensures forall id :: id in dir ==> dir[id] in groups && dir[id].id == id
    {
    }

    method Come(dir: map<Record, AttrGroup>, id: Record, newuser: bool) returns (dir': map<Record, AttrGroup>)
      requires Valid() && Directory(dir) && (id.Path? <==> backend.FlatFile?)
      modifies this`groups, this`store, this`disk, this`loadedlist
      ensures Valid() && Directory(dir') && fresh(groups - old(groups))
      ensures Plain(dir') == PlainStep(old(Plain(dir)), defattrs.id, if newuser then NewUser(id) else Open(id))
    {
      hide Inv, View, Elsewhere, Lists, Views;
      AllRecords(dir, id);
      if id !in dir && (id in store <==> !newuser) {
        if newuser { dir' := Register(dir, id); } else { dir' := Bring(dir, id); }
      } else {
        AlreadyThere(dir, id);
        dir' := dir;
      }
    }

    method Register(dir: map<Record, AttrGroup>, id: Record) returns (dir': map<Record, AttrGroup>)
      requires Valid() && Directory(dir) && (id.Path? <==> backend.FlatFile?) && id !in dir && id !in store
      modifies this`groups, this`store, this`disk, this`loadedlist
      ensures Valid() && Directory(dir') && fresh(groups - old(groups)) && dir'.Keys == dir.Keys + {id}
      ensures Plain(dir').rows == old(Plain(dir)).rows[id := map[]]
    {
      hide Inv, View, Elsewhere, Lists;
      ghost var was, rest, gs := Views(dir), Elsewhere(), groups;
      NoGroup(dir, id);
      Members(dir);
      var g := CreateGroup(id, true);
      dir' := dir[id := g];
      ListsMore(dir, gs, g);
      SameViews(dir', was[id := map[]]);
      JoinNew(rest, was, id, map[]);
    }

    method Bring(dir: map<Record, AttrGroup>, id: Record) returns (dir': map<Record, AttrGroup>)
      requires Valid() && Directory(dir) && (id.Path? <==> backend.FlatFile?) && id !in dir && id in store
      modifies this`groups, this`store, this`disk, this`loadedlist
      ensures Valid() && Directory(dir') && fresh(groups - old(groups)) && dir'.Keys == dir.Keys + {id}
      ensures Plain(dir').rows == old(Plain(dir)).rows
    {
      hide Inv, View, Elsewhere, Lists;
      AllRecords(dir, id);
      ghost var was, rest, gs := Views(dir), Elsewhere(), groups;
      NoGroup(dir, id);
      Members(dir);
      var g := CreateGroup(id, false);
      dir' := dir[id := g];
      ListsMore(dir, gs, g);
      SameViews(dir', was[id := rest[id]]);
      JoinOpen(rest, was, id);
    }

    lemma AlreadyThere(dir: map<Record, AttrGroup>, id: Record)
      requires Valid() && Directory(dir)
      ensures id in dir ==> id in Plain(dir).open && id in Plain(dir).rows
      ensures Plain(dir).open == dir.Keys
    {
      hide Inv, View, Elsewhere;
    }

    lemma NoGroup(dir: map<Record, AttrGroup>, id: Record)
      requires Directory(dir) && id !in dir
      ensures forall h :: h in groups ==> h.id != id
      ensures id !in Views(dir)
    {
    }

    method Go(dir: map<Record, AttrGroup>, id: Record) returns (dir': map<Record, AttrGroup>)
      requires Valid() && Directory(dir) && !SameMark(id, defattrs.id)
      modifies this`groups, this`store, this`disk, this`loadedlist, this`dirtylist, groups
      ensures Valid() && Directory(dir') && groups <= old(groups)
      ensures Plain(dir') == PlainStep(old(Plain(dir)), defattrs.id, Close(id))
    {
      hide Inv, View, Elsewhere, StoredRows, SameMark, Lists;
      dir' := dir;
      if id in dir && id != defattrs.id {
        ghost var was, rest, gs := Views(dir), Elsewhere(), groups;
        Members(dir);
        Alone();
        Destroy(dir[id]);
        dir' := dir - {id};
        ListsLess(dir, gs, id);
        SameViews(dir', was - {id});
        JoinClose(rest, was, id);
      } else {
        AlreadyThere(dir, id);
      }
    }

    lemma Alone()
      requires Valid()
      ensures OneEach(groups)
    {
      hide OneEach, Cached, LoadedOk, DirtyOk, Recent, Faithful, StoreOk;
    }

    /** One request: the answer, if any, and the plain map afterwards are those of the plain map. */
    method Do(dir: map<Record, AttrGroup>, op: Op) returns (answer: seq<Option<string>>, dir': map<Record, AttrGroup>)
      requires Valid() && Directory(dir) && Known(op, backend, defattrs.id)
      modifies this`now, this`store, this`disk, this`safe, this`settimes, this`loadedlist, this`dirtylist
      modifies this`groups, groups
      ensures Valid() && Directory(dir') && fresh(groups - old(groups))
      ensures old(safe) && SafeOp(backend, op) ==> safe
      ensures answer == PlainAnswer(old(Plain(dir)), defattrs.id, op)
      ensures Plain(dir') == PlainStep(old(Plain(dir)), defattrs.id, op)
      ensures now == old(now) + Lasts(op)
      ensures settimes == TimesStep(old(Plain(dir)), old(settimes), old(now), op)
      ensures Effect(dir', op)
      ensures op.FlushGroup? && op.id in dir ==>
                (dir[op.id].loaded <==> old(dir[op.id].loaded) &&
                                        (Marked(dir[op.id]) || (!op.force && old(Fresh(dir[op.id])))))
      ensures op.SavePass? && !op.pass.all ==>
                || |dirtylist| + userStep == |old(dirtylist)|
                || forall id :: id in dir ==> Settled(dir[id]) && (op.pass.force ==> !dir[id].dirty)
      ensures op.FlushPass? && !op.pass.force ==>
                forall id :: id in dir && old(dir[id].loaded && Fresh(dir[id])) ==> dir[id].loaded
    {
      hide Inv, Plain, Directory, Effect, Marked, Fresh, Settled;
      answer, dir' := [], dir;
      OpenAre(dir);
      match op
      case Get(id, key) => answer := Ask(dir, id, key);
      case Set(id, key, val) => Change(dir, id, key, val);
      case Open(id) =>
        dir' := Come(dir, id, false);
        NoEffect(dir', op);
      case NewUser(id) =>
        dir' := Come(dir, id, true);
        NoEffect(dir', op);
      case Close(id) =>
        dir' := Go(dir, id);
        NoEffect(dir', op);
      case _ => Maintain(dir, op);
    }

    lemma OpenAre(dir: map<Record, AttrGroup>)
      ensures Plain(dir).open == dir.Keys
    {
    }

    lemma NoEffect(dir: map<Record, AttrGroup>, op: Op)
      requires op.Open? || op.NewUser? || op.Close?
      ensures Effect(dir, op)
    {
    }

    lemma Exact()
      requires Valid()
      ensures safe ==> disk == store
    {
      hide Coherent, Queued, AccessOrder, DirtyOrder, Recent;
    }

    /**
     A whole run: the cache answers every request as the plain map would, and ends showing the same map. The last
     request has had its effect: after a forced full save storage is the plain map, and so on. If all that is set is
     safe with the writers of the back end, storage is what these writers make of it.
     */
    method Serve(dir: map<Record, AttrGroup>, ops: seq<Op>)
      returns (answers: seq<Option<string>>, dir': map<Record, AttrGroup>)
      requires Valid() && Directory(dir) && forall op :: op in ops ==> Known(op, backend, defattrs.id)
      modifies this`now, this`store, this`disk, this`safe, this`settimes, this`loadedlist, this`dirtylist
      modifies this`groups, groups
      ensures Valid() && Directory(dir')
      ensures old(safe) && (forall op :: op in ops ==> SafeOp(backend, op)) ==> disk == store
      ensures answers == PlainAnswers(old(Plain(dir)), defattrs.id, ops)
      ensures Plain(dir') == PlainRun(old(Plain(dir)), defattrs.id, ops)
      ensures now == old(now) + Clock(ops)
      ensures settimes == TimesRun(old(Plain(dir)), defattrs.id, old(settimes), old(now), ops)
      ensures ops != [] ==> Effect(dir', ops[|ops| - 1])
      ensures ops != [] && ops[|ops| - 1] == SavePass(Pass(true, true)) ==>
                dirtylist == [] && store == PlainRun(old(Plain(dir)), defattrs.id, ops).rows
    {
      hide Inv, Directory, Known, Plain, PlainStep, PlainAnswer, Lasts, TimesStep, SafeOp, Effect;
      answers, dir' := [], dir;
      var n := 0;
      while n < |ops|
        invariant n <= |ops| && Valid() && Directory(dir') && fresh(groups - old(groups))
        invariant old(safe) && (forall op :: op in ops ==> SafeOp(backend, op)) ==> safe
        invariant answers == PlainAnswers(old(Plain(dir)), defattrs.id, ops[..n])
        invariant Plain(dir') == PlainRun(old(Plain(dir)), defattrs.id, ops[..n])
        invariant now == old(now) + Clock(ops[..n])
        invariant settimes == TimesRun(old(Plain(dir)), defattrs.id, old(settimes), old(now), ops[..n])
        invariant n > 0 ==> Effect(dir', ops[n - 1])
      {
        var a;
        a, dir' := Do(dir', ops[n]);
        answers := answers + a;
        assert ops[..n + 1][..n] == ops[..n] && ops[..n + 1][n] == ops[n];
        n := n + 1;
      }
      assert ops[..n] == ops;
      Exact();
      if ops != [] { EffectOfSave(dir', ops[|ops| - 1]); }
    }

    lemma EffectOfSave(dir: map<Record, AttrGroup>, op: Op)
      requires Effect(dir, op)
      ensures op == SavePass(Pass(true, true)) ==> dirtylist == [] && store == Plain(dir).rows
    {
    }
  }

  // ---------------------------------------------------------------- paths that look alike

  /** For files of one directory the directory decides: all of them are taken for the default file, or none is. */
  lemma DirectoryDecides(dir: string, name: string, dflt: string)
    requires |dir| >= 4 && (0 as char) !in dir[..4]
    ensures SameMark(Path(dir + "/" + name), Path(dflt)) <==> |dflt| >= 4 && dir[..4] == dflt[..4]
  {
    var path := dir + "/" + name;
    assert FirstWord(path) == path[..4] == dir[..4];
    if |dflt| >= 4 {
      assert FirstWord(dflt) == dflt[..4];
    } else {
      assert FirstWord(dflt)[3] == 0 as char;
      assert dir[..4][3] != 0 as char;
    }
  }

  const PREFIX := "/usr/local"
  const DEFAULT_FILE := PREFIX + "/etc/bnetd_default_user.plain"
  const JOES_FILE := PREFIX + "/var/users/joe"

  lemma LookAlike()
    ensures DEFAULT_FILE != JOES_FILE && SameMark(Path(JOES_FILE), Path(DEFAULT_FILE))
  {
    assert FirstWord(DEFAULT_FILE) == DEFAULT_FILE[..4] == PREFIX[..4];
    assert FirstWord(JOES_FILE) == JOES_FILE[..4] == PREFIX[..4];
    assert DEFAULT_FILE[11] == 'e' && JOES_FILE[11] == 'v';
  }

  lemma RecordKey()
    ensures CanonicalKey("record") == "record"
  {
    CanonicalByCase("record");
    assert Fold("record") == "record";
  }

  /** A cache over two empty files, the default account's and Joe's. */
  method JoesCache() returns (layer: AttrLayer, g: AttrGroup)
    ensures fresh(layer) && fresh(layer.groups) && layer.Valid() && g in layer.groups && layer.defattrs in layer.groups
    ensures g.id == Path(JOES_FILE) && layer.defattrs.id == Path(DEFAULT_FILE)
    ensures layer.View(g) == layer.StoredRows(g) == map[]
  {
    hide AttrLayer.Inv, Overlay;
    LookAlike();
    var dflt, joe := Path(DEFAULT_FILE), Path(JOES_FILE);
    layer := new AttrLayer(FlatFile, 300, 1200, 100, 0, map[dflt := map[], joe := map[]], dflt);
    g := layer.CreateGroup(joe, false);
  }

  /** With the usual directories below one prefix even a forced full flush writes nothing: the change is lost. */
  method FlushWritesNothing() returns (written: Option<string>, shown: Option<string>)
    ensures written == None && shown == Some("1")
  {
    hide AttrLayer.Inv, CanonicalKey, EscapeKey, Overlay, Find, SameMark, AttrLayer.Kept, AttrLayer.Idle, Keeps;
    LookAlike();
    RecordKey();
    var layer, g := JoesCache();
    layer.SetAttr(g, "record", Some("1"), true, {});
    var _, _ := layer.FlushAll(Pass(true, true));
    layer.Recorded(g);
    written := Read(layer.store[g.id], "record");
    shown := layer.GetAttr(g, "record", true);
  }

  // ---------------------------------------------------------------- the plain map that the cache refines

  /** All accounts by their records, and those that are open to requests. */
  datatype Accounts = Accounts(rows: map<Record, Rows>, open: set<Record>)

  datatype Op =
    | Get(id: Record, key: string)
    | Set(id: Record, key: string, val: Option<string>)
    | Open(id: Record)
    | NewUser(id: Record)
    | Close(id: Record)
    | LoadGroup(id: Record, tab: string)
    | SaveGroup(id: Record, force: bool)
    | FlushGroup(id: Record, force: bool)
    | SavePass(pass: Pass)
    | FlushPass(pass: Pass)
    | Wait(t: nat)

  /** A group is only closed if the cache cannot take it for the default one; new records are of the right kind. */
  predicate Known(op: Op, b: Backend, def: Record) {
    && (op.Open? || op.NewUser? ==> (op.id.Path? <==> b.FlatFile?))
    && (op.Close? ==> !SameMark(op.id, def))
  }

  /** A request whose effect the writers of the back end can put down. */
  predicate SafeOp(b: Backend, op: Op) {
    op.Set? ==> SafeSet(b, op.key, op.val)
  }

  /** How long a request takes: only waits take time. */
  function Lasts(op: Op): nat {
    if op.Wait? then op.t else 0
  }

  function Clock(ops: seq<Op>): nat {
    if ops == [] then 0 else Clock(ops[..|ops| - 1]) + Lasts(ops[|ops| - 1])
  }

  /** Sets of open accounts are dated. */
  function TimesStep(st: Accounts, times: Times, now: int, op: Op): Times {
    if op.Set? && op.id in st.open then times[(op.id, CanonicalKey(op.key)) := now] else times
  }

  function TimesRun(st: Accounts, def: Record, times: Times, now: int, ops: seq<Op>): Times {
    if ops == [] then times
    else
      var before := ops[..|ops| - 1];
      TimesStep(PlainRun(st, def, before), TimesRun(st, def, times, now, before), now + Clock(before), ops[|ops| - 1])
  }

  /** Only sets and new users change the rows. */
  function PlainStep(st: Accounts, def: Record, op: Op): Accounts {
    match op
    case Set(id, key, val) =>
      if id !in st.open || id !in st.rows then st
      else st.(rows := st.rows[id := Put(st.rows[id], CanonicalKey(key), val)])
    case Open(id) => if id in st.rows then st.(open := st.open + {id}) else st
    case NewUser(id) => if id in st.rows then st else Accounts(st.rows[id := map[]], st.open + {id})
    case Close(id) => if id == def then st else st.(open := st.open - {id})
    case _ => st
  }

  /** Only a get of an open account has an answer. */
  function PlainAnswer(st: Accounts, def: Record, op: Op): seq<Option<string>> {
    if op.Get? && op.id in st.open && op.id in st.rows && def in st.rows
    then [Answer(st.rows[op.id], st.rows[def], CanonicalKey(op.key))]
    else []
  }

  function PlainRun(st: Accounts, def: Record, ops: seq<Op>): Accounts {
    if ops == [] then st else PlainStep(PlainRun(st, def, ops[..|ops| - 1]), def, ops[|ops| - 1])
  }

  function PlainAnswers(st: Accounts, def: Record, ops: seq<Op>): seq<Option<string>> {
    if ops == [] then []
    else
      var before := ops[..|ops| - 1];
      PlainAnswers(st, def, before) + PlainAnswer(PlainRun(st, def, before), def, ops[|ops| - 1])
  }

  /** The value most recently set under key k of account id while it was open, if any request set it. */
  function LastSet(st: Accounts, def: Record, ops: seq<Op>, id: Record, k: string): Option<Option<string>> {
    if ops == [] then None
    else
      var before, op := ops[..|ops| - 1], ops[|ops| - 1];
      if op.Set? && op.id == id && CanonicalKey(op.key) == k && id in PlainRun(st, def, before).open then Some(op.val)
      else LastSet(st, def, before, id, k)
  }

  /** What a key of a stored account holds after any run: what was last set under it, else what it held at the start. */
  function Held(st: Accounts, def: Record, ops: seq<Op>, id: Record, k: string): Option<string>
    requires id in st.rows
  {
    match LastSet(st, def, ops, id, k) case Some(v) => v case None => Read(st.rows[id], k)
  }

  lemma {:induction false} LastSetWins(st: Accounts, def: Record, ops: seq<Op>, id: Record, k: string)
    requires id in st.rows
    ensures id in PlainRun(st, def, ops).rows
    ensures Read(PlainRun(st, def, ops).rows[id], k) == Held(st, def, ops, id, k)
  {
    hide CanonicalKey;
    if ops != [] {
      LastSetWins(st, def, ops[..|ops| - 1], id, k);
    }
  }

  /** Whether an account is told to open or to close by the last request that says so. */
  function LastDoor(ops: seq<Op>, id: Record): Option<bool> {
    if ops == [] then None
    else
      var op := ops[|ops| - 1];
      if op == Open(id) then Some(true) else if op == Close(id) then Some(false) else LastDoor(ops[..|ops| - 1], id)
  }

  /** A stored account is open after a run exactly if it was opened last, or never closed. */
  lemma {:induction false} OpenAfterRun(st: Accounts, def: Record, ops: seq<Op>, id: Record)
    requires id in st.rows && id != def
    ensures id in PlainRun(st, def, ops).rows
    ensures id in PlainRun(st, def, ops).open <==>
            match LastDoor(ops, id) { case Some(door) => door case None => id in st.open }
  {
    if ops != [] {
      OpenAfterRun(st, def, ops[..|ops| - 1], id);
    }
  }

  /** A new user is stored without a value, and open: what a get answers is the default. */
  lemma NewUserAnswers(st: Accounts, def: Record, ops: seq<Op>, id: Record, key: string)
    requires id !in PlainRun(st, def, ops).rows && def in PlainRun(st, def, ops).rows
    ensures var run := ops + [NewUser(id)];
            && id in PlainRun(st, def, run).open && PlainRun(st, def, run).rows[id] == map[]
            && PlainAnswer(PlainRun(st, def, run), def, Get(id, key)) ==
               [Read(PlainRun(st, def, ops).rows[def], CanonicalKey(key))]
  {
    assert (ops + [NewUser(id)])[..|ops|] == ops;
  }

  /** What a get of an open account answers after any run, in terms of the requests alone. */
  lemma GetAfterRun(st: Accounts, def: Record, ops: seq<Op>, id: Record, key: string)
    requires id in st.rows && def in st.rows && id in PlainRun(st, def, ops).open
    ensures var own, dflt := Held(st, def, ops, id, CanonicalKey(key)), Held(st, def, ops, def, CanonicalKey(key));
            PlainAnswers(st, def, ops + [Get(id, key)]) ==
            PlainAnswers(st, def, ops) + [if own.Some? then own else dflt]
  {
    var k := CanonicalKey(key);
    assert (ops + [Get(id, key)])[..|ops|] == ops;
    LastSetWins(st, def, ops, id, k);
    LastSetWins(st, def, ops, def, k);
  }
}
