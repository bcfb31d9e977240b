/** The channel list: channels with their members, looked up, created, joined and left in place. */
module Channels {
  import opened Common
  import opened ChannelLookup

  type Conn = nat

  class Channel {
    const settings: Info
    var permanent: bool
    var members: seq<Conn>
    var currmembers: nat

    constructor (settings: Info, permanent: bool)
      ensures this.settings == settings && this.permanent == permanent && members == [] && currmembers == 0
    {
      this.settings, this.permanent, members, currmembers := settings, permanent, [], 0;
    }

    /** The channel as a lookup sees it. */
    function Seen(): Info
      reads this`currmembers
    {
      settings.(currmembers := currmembers)
    }
  }

  /** A limit of -1 admits any number. */
  predicate Within(ch: Info) {
    ch.maxmembers == -1 || ch.currmembers <= ch.maxmembers
  }

  function Unoccupied(n: nat): (r: seq<seq<Conn>>)
    ensures |r| == n && forall i :: 0 <= i < n ==> r[i] == []
  {
    seq(n, i => [])
  }

  class ChannelList {
    var channels: seq<Channel>

    ghost predicate Valid()
      reads this, channels
    {
      && NoDup(channels)
      && forall i :: 0 <= i < |channels| ==> channels[i].currmembers == |channels[i].members|
    }

    ghost function Infos(): (r: seq<Info>)
      reads this, channels
      ensures |r| == |channels| && forall i :: 0 <= i < |channels| ==> r[i] == channels[i].Seen()
    {
      InfosOf(channels)
    }

    constructor ()
      ensures Valid() && channels == []
    {
      channels := [];
    }

    method FirstByFullname(name: string) returns (i: nat)
      requires Valid()
      ensures i == FirstNamed(Infos(), name)
    {
      hide Exact, InfosOf;
      i := 0;
      while i < |channels| && !Exact(channels[i].Seen(), name)
        invariant i <= |channels| && forall j :: 0 <= j < i ==> !Exact(Infos()[j], name)
      {
        i := i + 1;
      }
      FirstIs(Infos(), name, i);
    }

    method Append(channel: Channel)
      requires Valid() && channel !in channels && channel.currmembers == |channel.members|
      modifies this
      ensures Valid() && channels == old(channels) + [channel] && Infos() == old(Infos()) + [channel.Seen()]
    {
      hide InfosOf;
      ghost var list := Infos();
      channels := channels + [channel];
      assert forall i :: 0 <= i < |list| ==> Infos()[i] == list[i];
    }

    /** Appends a channel, unless its names are empty or it may not share the name of an existing one. */
    method Create(settings: Info, permanent: bool) returns (r: Option<Channel>)
      requires Valid() && settings.currmembers == 0
      modifies this
      ensures Valid()
      ensures r.None? <==> Refused(old(Infos()), settings, permanent)
      ensures r.None? ==> channels == old(channels)
      ensures r.Some? ==> fresh(r.value) && channels == old(channels) + [r.value]
      ensures r.Some? ==> r.value.settings == settings && r.value.members == [] && r.value.permanent == permanent
      ensures r.Some? ==> Infos() == old(Infos()) + [settings]
    {
      hide InfosOf, Exact, FirstNamed, NoDup, EqIgnoreCase;
      if settings.name == "" || settings.shortname == Some("") { return None; }
      if permanent {
        var i := FirstByFullname(settings.name);
        if i < |channels| {
          var ch := channels[i].Seen();
          assert Infos()[i] == ch;
          if ch.tag != 0 && settings.tag != 0 && ch.tag == settings.tag { return None; }
          if ch.bots != settings.bots || ch.opers != settings.opers || ch.maxmembers != settings.maxmembers ||
             ch.moderated != settings.moderated || ch.logged != settings.logged { return None; }
        }
      }
      var channel := new Channel(settings, permanent);
      Append(channel);
      r := Some(channel);
    }

    /**
     The scan with its nested lookups. The place limit bears the name asked for, or is the end of the list; a nested
     lookup is for the name of the place just reached, which is before the limit, so it finds a channel, changes
     nothing, and the nesting ends.
     */
    method Find(q: Query, ghost limit: nat) returns (r: Option<Channel>)
      requires Valid() && limit <= |channels| && (limit < |channels| ==> Exact(Infos()[limit], q.name))
      modifies this
      ensures Valid()
      ensures Reply(old(Infos()), q, limit, old(channels), channels, Infos(), r)
      ensures forall c :: c in channels && c !in old(channels) ==> fresh(c) && c.members == [] && c.permanent
      decreases limit
    {
      hide Suits, HasRoom, Exact, Short, Noted, Refused, Copy, Resolved, InfosOf, NoDup, Reply, Lookup, EqIgnoreCase;
      hide Scan, FindChannel;
      ghost var list := Infos();
      var perm, lang, special, copies, saved := false, false, None, 0, None;
      ghost var last := 0;
      var i: nat := 0;
      while i < |channels|
        invariant i <= limit && channels == old(channels) && Infos() == list
        invariant Scan(list, q, 0, limit, NOTHING) == Scan(list, q, i, limit, Memory(perm, lang, special, copies, last))
        invariant perm ==> last < |list| && saved == Some(list[last])
      {
        var channel := channels[i];
        assert channel.Seen() == list[i];
        if i < limit { ScanUnfold(list, q, i, limit, Memory(perm, lang, special, copies, last)); }
        if Exact(channel.Seen(), q.name) {
          if i == limit { ScanOver(list, q, limit, Memory(perm, lang, special, copies, last)); }
          ReplyFound(list, q, limit, channels, i);
          return Some(channel);
        }
        if Short(channel.Seen(), q.name) {
          SameName(list, i);
          var nested := Find(q.(name := channel.settings.name), i);
          ghost var at, before := Resolved(list, q, i), Memory(perm, lang, special, copies, last);
          NestedReply(list, q, i, old(channels), channels, Infos(), nested);
          channel := nested.value;
          assert channel.Seen() == list[at];
          var suits := Suits(channel.Seen(), q, lang);
          if suits && HasRoom(channel.Seen()) {
            ReplyFound(list, q, limit, channels, at);
            return Some(channel);
          }
          lang, special, copies := Note(channel.Seen(), q, suits, lang, special, copies, before, at);
          perm, saved, last := true, Some(channel.Seen()), at;
        }
        i := i + 1;
      }
      ScanOver(list, q, limit, Memory(perm, lang, special, copies, last));
      if perm {
        r := CreateCopy(q, lang, special, copies, saved.value, last, list);
      } else {
        ReplyNone(list, q, channels, Memory(perm, lang, special, copies, last));
        r := None;
      }
    }

    /** What the scan keeps of a copy that is full or unsuitable. */
    method Note(ch: Info, q: Query, suits: bool, lang: bool, special: Option<string>, copies: nat,
        ghost memory: Memory, ghost at: nat)
      returns (lang': bool, special': Option<string>, copies': nat)
      requires suits == Suits(ch, q, lang)
      requires memory.lang == lang && memory.special == special && memory.copies == copies
      ensures Noted(memory, ch, at, q) == Memory(true, lang', special', copies', at)
    {
      hide Suits;
      lang', special', copies' := lang, special, copies;
      if suits {
        if !lang && ch.country.Some? {
          lang' := true;
          if !ch.autoname { special' := Some(ch.name); }
          copies' := 0;
        }
        copies' := copies' + 1;
      }
    }

    method CreateCopy(q: Query, lang: bool, special: Option<string>, copies: nat, saved: Info,
        ghost last: nat, ghost list: seq<Info>)
      returns (r: Option<Channel>)
      requires Valid() && list == Infos() && last < |list| && saved == list[last]
      requires Scan(list, q, 0, |list|, NOTHING) == Ended(Memory(true, lang, special, copies, last))
      modifies this
      ensures Valid()
      ensures Reply(list, q, |list|, old(channels), channels, Infos(), r)
      ensures forall c :: c in channels && c !in old(channels) ==> fresh(c) && c.members == [] && c.permanent
    {
      hide Refused, Scan, InfosOf, NoDup, FormatName;
      var country, realm := Or(q.country, saved.country), Or(q.realm, saved.realm);
      var name: string;
      if !lang || special.None? {
        if saved.shortname.None? { return None; }
        name := FormatName(saved.shortname.value, country, realm, copies + 1);
      } else {
        name := FormatName(special.value, None, realm, copies + 1);
      }
      var copy := Info(name, saved.shortname, saved.tag, country, realm, saved.bots, saved.opers, saved.logged,
                       saved.moderated, true, saved.maxmembers, 0);
      assert Copy(list, q, Memory(true, lang, special, copies, last)) == Some(copy);
      r := Create(copy, true);
    }

    /** A new member goes in front. */
    method AddConnection(ch: Channel, c: Conn, banned: bool) returns (ok: bool)
      requires Valid() && ch in channels
      modifies ch
      ensures Valid() && ok == !banned && ch.permanent == old(ch.permanent)
      ensures ch.members == (if banned then [] else [c]) + old(ch.members)
    {
      if banned { return false; }
      ch.members := [c] + ch.members;
      ch.currmembers := ch.currmembers + 1;
      ok := true;
    }

    /** A channel with members only loses its permanence; an empty one is unlinked. */
    method Destroy(ch: Channel)
      requires Valid() && ch in channels
      modifies this, ch
      ensures Valid() && ch.members == old(ch.members)
      ensures channels == if ch.members == [] then Remove(old(channels), ch) else old(channels)
      ensures ch.permanent == (old(ch.permanent) && ch.members == [])
    {
      if ch.members != [] {
        ch.permanent := false;
      } else {
        RemoveNoDup(channels, ch);
        var rest := Remove(channels, ch);
        forall i | 0 <= i < |rest| ensures rest[i] in channels { RemoveAt(channels, ch, i); }
        channels := rest;
      }
    }

    /**
     Unlinks the first entry of c; a temporary channel goes with its last member. On a channel without members the
     original follows a null pointer, where the answer here is false.
     */
    method DelConnection(ch: Channel, c: Conn) returns (ok: bool)
      requires Valid() && ch in channels
      modifies this, ch
      ensures Valid() && (ok <==> c in old(ch.members)) && ch.permanent == old(ch.permanent)
      ensures ch.members == Remove(old(ch.members), c)
      ensures channels ==
              if ok && ch.members == [] && !ch.permanent then Remove(old(channels), ch) else old(channels)
    {
      hide NoDup;
      var i: nat := 0;
      while i < |ch.members| && ch.members[i] != c
        invariant i <= |ch.members| && ch.members == old(ch.members) && c !in ch.members[..i]
      {
        i := i + 1;
      }
      FirstPlace(ch.members, c, i);
      if i == |ch.members| { return false; }
      ch.members := ch.members[..i] + ch.members[i + 1..];
      ch.currmembers := ch.currmembers - 1;
      if ch.members == [] && !ch.permanent {
        Destroy(ch);
      }
      ok := true;
    }

    /** Coming and going leaves members and channels as they were, but for a temporary channel that was empty. */
    method JoinThenPart(ch: Channel, c: Conn)
      requires Valid() && ch in channels
      modifies this, ch
      ensures Valid() && ch.members == old(ch.members) && ch.permanent == old(ch.permanent)
      ensures channels ==
              if old(ch.members) == [] && !ch.permanent then Remove(old(channels), ch) else old(channels)
    {
      hide NoDup;
      ghost var before := ch.members;
      var joined := AddConnection(ch, c, false);
      assert ch.members == [c] + before;
      FirstPlace(ch.members, c, 0);
      assert ([c] + before)[1..] == before;
      var parted := DelConnection(ch, c);
    }

    ghost predicate AllWithin()
      reads this, channels
    {
      forall i :: 0 <= i < |Infos()| ==> Within(Infos()[i])
    }

    /** The lookup, with the copy that it may make. */
    method Answering(q: Query) returns (r: Option<Channel>)
      requires Valid()
      modifies this
      ensures Valid() && old(channels) <= channels
      ensures var (place, list) := FindChannel(old(Infos()), q);
              && Infos() == list && (place.None? ==> channels == old(channels))
              && (if place.Some? then place.value < |channels| && r == Some(channels[place.value]) else r == None)
      ensures forall i :: |old(channels)| <= i < |channels| ==>
                fresh(channels[i]) && channels[i].members == [] && channels[i].permanent
      ensures Rosters() == old(Rosters()) + Unoccupied(|channels| - |old(channels)|)
      ensures old(AllWithin()) ==> AllWithin()
    {
      hide InfosOf, FindChannel, Refused, Reply, Within, Exact, Scan, Lookup, Copy, EqIgnoreCase;
      ghost var list := Infos();
      r := Find(q, |channels|);
      OuterReply(list, q, old(channels), channels, Infos(), r);
      forall i | |old(channels)| <= i < |channels| ensures channels[i] !in old(channels) {
        Later(old(channels), channels, i);
      }
    }

    /** A temporary channel, unless it is refused. */
    method Temporary(temporary: Info) returns (r: Option<Channel>)
      requires Valid() && temporary.currmembers == 0 && (temporary.maxmembers == -1 || temporary.maxmembers > 0)
      modifies this
      ensures Valid()
      ensures r.None? <==> Refused(old(Infos()), temporary, false)
      ensures channels == old(channels) + (if r.Some? then [r.value] else [])
      ensures Infos() == old(Infos()) + (if r.Some? then [temporary] else [])
      ensures Rosters() == old(Rosters()) + Unoccupied(|channels| - |old(channels)|)
      ensures r.Some? ==> fresh(r.value) && !r.value.permanent && HasRoom(r.value.Seen())
      ensures old(AllWithin()) ==> AllWithin()
    {
      hide InfosOf, Refused, Exact, NoDup, Within;
      NewWithin(temporary);
      r := Create(temporary, false);
      assert r.Some? ==> r.value.Seen() == Infos()[|old(channels)|];
    }

    /**
     The channel for somebody who asks to enter one by name: the one found, unless its ban or its limit keeps the
     user out; where none is found, a temporary one.
     */
    method Admit(q: Query, banned: bool, privileged: bool, temporary: Info) returns (r: Option<Channel>, ghost at: nat)
      requires Valid() && temporary.currmembers == 0 && (temporary.maxmembers == -1 || temporary.maxmembers > 0)
      modifies this
      ensures Valid() && old(channels) <= channels
      ensures var (place, list) := FindChannel(old(Infos()), q);
              && at == (if place.Some? then place.value else |old(channels)|)
              && (r.Some? ==> at < |channels| && r == Some(channels[at]) && (privileged || HasRoom(r.value.Seen())))
              && (r.Some? <==> if place.Some? then at < |list| && !banned && (privileged || HasRoom(list[at]))
                               else !Refused(old(Infos()), temporary, false))
              && Infos() == (if place.None? && r.Some? then list + [temporary] else list)
      ensures forall i :: |old(channels)| <= i < |channels| ==> fresh(channels[i])
      ensures Rosters() == old(Rosters()) + Unoccupied(|channels| - |old(channels)|)
      ensures forall i :: |old(channels)| <= i < |channels| ==>
                channels[i].permanent == FindChannel(old(Infos()), q).0.Some?
      ensures old(AllWithin()) ==> AllWithin()
    {
      hide InfosOf, FindChannel, Refused, Exact, NoDup, Within, Unoccupied, Rosters;
      ghost var place, list := FindChannel(Infos(), q).0, FindChannel(Infos(), q).1;
      r := Answering(q);
      at := if place.Some? then place.value else |old(channels)|;
      if r.Some? {
        var ch := r.value;
        assert ch.Seen() == list[at];
        if banned { return None, at; }
        if !privileged && ch.settings.maxmembers == 0 { return None, at; }
        if !privileged && ch.settings.maxmembers != -1 && ch.currmembers >= ch.settings.maxmembers { return None, at; }
      } else {
        NoneFound(old(Infos()), q);
        r := Temporary(temporary);
      }
    }

    /** Who is where. */
    ghost function Rosters(): (r: seq<seq<Conn>>)
      reads this, channels
      ensures |r| == |channels| && forall i :: 0 <= i < |channels| ==> r[i] == channels[i].members
    {
      seq(|channels|, i requires 0 <= i < |channels| reads this, channels => channels[i].members)
    }

    /** Taking a place in the channel chosen; nobody else moves. */
    method Sit(ch: Channel, c: Conn, privileged: bool, ghost at: nat)
      requires Valid() && at < |channels| && ch == channels[at] && (privileged || HasRoom(ch.Seen()))
      modifies ch
      ensures Valid() && ch.permanent == old(ch.permanent)
      ensures Rosters() == old(Rosters())[at := [c] + old(Rosters())[at]]
      ensures !privileged && old(AllWithin()) ==> AllWithin()
    {
      hide InfosOf;
      ghost var all := Infos();
      var _ := AddConnection(ch, c, false);
      forall i | 0 <= i < |channels| && i != at ensures channels[i] != ch && Infos()[i] == all[i] {
        if i < at { assert channels[i] != channels[at]; } else { assert channels[at] != channels[i]; }
      }
    }

    /**
     Somebody enters exactly if a channel is found that neither bans the user nor, unless the user may pass it, has
     reached its limit, or if none is found and a temporary one can be made. The user then stands first among the
     members of that channel, and nobody else has moved.
     */
    method Enter(c: Conn, q: Query, banned: bool, privileged: bool, temporary: Info) returns (r: Option<Channel>)
      requires Valid() && temporary.currmembers == 0 && (temporary.maxmembers == -1 || temporary.maxmembers > 0)
      modifies this, channels
      ensures Valid() && old(channels) <= channels
      ensures var (place, list) := FindChannel(old(Infos()), q);
              var at := if place.Some? then place.value else |old(channels)|;
              && (r.Some? <==> if place.Some? then at < |list| && !banned && (privileged || HasRoom(list[at]))
                               else !Refused(old(Infos()), temporary, false))
              && |channels| == |list| + (if place.None? && r.Some? then 1 else 0)
              && (r.Some? ==> at < |channels| && r.value == channels[at])
              && var rosters := old(Rosters()) + Unoccupied(|channels| - |old(channels)|);
                 Rosters() == if r.Some? then rosters[at := [c] + rosters[at]] else rosters
      ensures forall i :: 0 <= i < |old(channels)| ==> channels[i].permanent == old(channels[i].permanent)
      ensures forall i :: |old(channels)| <= i < |channels| ==>
                fresh(channels[i]) && channels[i].permanent == FindChannel(old(Infos()), q).0.Some?
      ensures !privileged && old(AllWithin()) ==> AllWithin()
    {
      hide InfosOf, FindChannel, Refused, Exact, NoDup, AllWithin, Unoccupied, Rosters, Infos, HasRoom;
      ghost var at;
      r, at := Admit(q, banned, privileged, temporary);
      if r.Some? {
        assert r.value in channels;
        Sit(r.value, c, privileged, at);
      }
    }
  }

  lemma Later(before: seq<Channel>, after: seq<Channel>, i: nat)
    requires NoDup(after) && before <= after && |before| <= i < |after|
    ensures after[i] !in before
  {
    forall j | 0 <= j < |before| ensures before[j] != after[i] { assert before[j] == after[j]; }
  }

  lemma NoneFound(list: seq<Info>, q: Query)
    ensures FindChannel(list, q).0.None? ==> FindChannel(list, q).1 == list
  {
    LookupAnswers(list, q);
    hide FindChannel;
  }

  lemma NewWithin(ch: Info)
    requires ch.currmembers == 0 && (ch.maxmembers == -1 || ch.maxmembers > 0)
    ensures Within(ch) && HasRoom(ch)
  {
  }

  lemma FirstPlace(s: seq<Conn>, c: Conn, i: nat)
    requires i <= |s| && c !in s[..i] && (i < |s| ==> s[i] == c)
    ensures i == IndexOf(s, c)
  {
  }

  lemma {:induction false} CopiesWithin(list: seq<Info>, q: Query)
    requires forall i :: 0 <= i < |list| ==> Within(list[i])
    ensures forall i :: 0 <= i < |FindChannel(list, q).1| ==> Within(FindChannel(list, q).1[i])
  {
    if Lookup(list, q).Ended? { MemoryIs(list, q, 0, |list|, NOTHING); }
    hide Scan, Refused;
  }

  lemma OuterReply(list: seq<Info>, q: Query, before: seq<Channel>, after: seq<Channel>, infos: seq<Info>,
      r: Option<Channel>)
    requires |list| == |before| && Reply(list, q, |list|, before, after, infos, r)
    ensures var (place, list') := FindChannel(list, q);
            && infos == list' && before <= after && |after| == |infos|
            && (if place.Some? then place.value < |after| && r == Some(after[place.value]) else r == None)
            && (place.None? ==> after == before)
    ensures (forall i :: 0 <= i < |list| ==> Within(list[i])) ==> forall i :: 0 <= i < |infos| ==> Within(infos[i])
  {
    NoneFound(list, q);
    hide FindChannel;
    if forall i :: 0 <= i < |list| ==> Within(list[i]) { CopiesWithin(list, q); }
  }

  ghost function InfosOf(channels: seq<Channel>): (r: seq<Info>)
    reads channels
    ensures |r| == |channels| && forall i :: 0 <= i < |channels| ==> r[i] == channels[i].Seen()
  {
    if channels == [] then [] else [channels[0].Seen()] + InfosOf(channels[1..])
  }

  lemma {:induction false} FirstIs(list: seq<Info>, name: string, i: nat)
    requires i <= |list| && (i < |list| ==> Exact(list[i], name))
    requires forall j :: 0 <= j < i ==> !Exact(list[j], name)
    ensures FirstNamed(list, name) == i
  {
  }

  lemma SameName(list: seq<Info>, i: nat)
    requires i < |list|
    ensures Exact(list[i], list[i].name)
  {
  }

  /** Where a lookup leads whose name is that of the place limit. */
  function Answer(list: seq<Info>, q: Query, limit: nat): (r: nat)
    requires limit < |list|
    ensures r <= limit
  {
    match Scan(list, q, 0, limit, NOTHING)
    case Found(m) => m
    case Ended(_) => limit
  }

  /** What a lookup does: the nested one finds a channel and changes nothing, the outermost one is FindChannel. */
  ghost predicate Reply(list: seq<Info>, q: Query, limit: nat, before: seq<Channel>, after: seq<Channel>,
      infos: seq<Info>, r: Option<Channel>)
    requires limit <= |list| == |before|
  {
    if limit < |list| then
      after == before && infos == list && r == Some(before[Answer(list, q, limit)])
    else
      var (place, list') := FindChannel(list, q);
      && infos == list' && |after| == |list'| && before <= after
      && (if place.Some? then place.value < |after| && r == Some(after[place.value]) else r == None)
  }

  lemma ScanOver(list: seq<Info>, q: Query, limit: nat, memory: Memory)
    requires limit <= |list|
    ensures Scan(list, q, limit, limit, memory) == Ended(memory)
  {
  }

  lemma ReplyFound(list: seq<Info>, q: Query, limit: nat, before: seq<Channel>, at: nat)
    requires limit <= |list| == |before| && at < |list|
    requires Scan(list, q, 0, limit, NOTHING) == Found(at) || (Scan(list, q, 0, limit, NOTHING).Ended? && at == limit)
    ensures Reply(list, q, limit, before, before, list, Some(before[at]))
  {
    hide Scan, FindChannel;
    if limit == |list| { FoundAtOnce(list, q, at); }
  }

  lemma FoundAtOnce(list: seq<Info>, q: Query, at: nat)
    requires at < |list| && Scan(list, q, 0, |list|, NOTHING) == Found(at)
    ensures FindChannel(list, q) == (Some(at), list)
  {
    hide Scan;
  }

  lemma ReplyNone(list: seq<Info>, q: Query, before: seq<Channel>, memory: Memory)
    requires |list| == |before| && Scan(list, q, 0, |list|, NOTHING) == Ended(memory) && !memory.perm
    ensures Reply(list, q, |list|, before, before, list, None)
  {
    hide Scan;
  }

  lemma NestedReply(list: seq<Info>, q: Query, i: nat, before: seq<Channel>, after: seq<Channel>, infos: seq<Info>,
      r: Option<Channel>)
    requires i < |list| == |before| && Reply(list, q.(name := list[i].name), i, before, after, infos, r)
    ensures after == before && infos == list && r == Some(before[Resolved(list, q, i)])
  {
    hide Scan;
  }
}
