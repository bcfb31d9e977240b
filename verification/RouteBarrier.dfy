/** The loading barrier of a matched game: players open route connections, report that they have loaded, and leave. */
module RouteBarrier {
  import opened Common

  const MAX_SEATS: nat := 12
  /** Slot lookups answer only for the first eight slots. */
  const SEEN_SEATS: nat := 8

  datatype Seat = Seat(present: bool, route: bool, loaded: bool)

  datatype Event = Open(seat: nat) | Leave(seat: nat) | LoadingDone(seat: nat)

  datatype Message = LoadingAck(to: nat, from: nat) | Ready(to: nat)

  // ---------------------------------------------------------------- one event

  predicate Seen(t: seq<Seat>, i: nat) {
    i < |t| && i < SEEN_SEATS && t[i].present
  }

  /** The slots below n that a broadcast reaches. */
  function Audience(t: seq<Seat>, n: nat): seq<nat> {
    if n == 0 then [] else Audience(t, n - 1) + (if Seen(t, n - 1) then [n - 1] else [])
  }

  function Acks(to: seq<nat>, from: nat): (r: seq<Message>)
    ensures |r| == |to|
  {
    seq(|to|, k requires 0 <= k < |to| => LoadingAck(to[k], from))
  }

  function Readies(to: seq<nat>): (r: seq<Message>)
    ensures |r| == |to|
  {
    seq(|to|, k requires 0 <= k < |to| => Ready(to[k]))
  }

  /** A report counts only while every other player that is seen has a route connection. */
  predicate Accepted(t: seq<Seat>, i: nat) {
    && i < |t| && t[i].present && t[i].route
    && forall j | 0 <= j < |t| :: j != i && Seen(t, j) ==> t[j].route
  }

  predicate OthersLoaded(t: seq<Seat>, i: nat) {
    forall j | 0 <= j < |t| :: j != i && Seen(t, j) ==> t[j].loaded
  }

  function After(t: seq<Seat>, e: Event): (r: seq<Seat>)
    ensures |r| == |t|
  {
    var i := e.seat;
    if i >= |t| || !t[i].present then t
    else match e
      case Open(_) => t[i := Seat(true, true, false)]
      case Leave(_) => t[i := Seat(false, false, t[i].loaded)]
      case LoadingDone(_) => if Accepted(t, i) then t[i := t[i].(loaded := true)] else t
  }

  function Sent(t: seq<Seat>, e: Event): seq<Message> {
    if !e.LoadingDone? || !Accepted(t, e.seat) then []
    else
      var to := Audience(t, |t|);
      Acks(to, e.seat) + (if OthersLoaded(t, e.seat) then Readies(to) else [])
  }

  class Game {
    const seats: array<Seat>

    constructor (players: nat)
      requires players <= MAX_SEATS
      ensures fresh(seats) && seats[..] == Start(players)
    {
      seats := new Seat[players](i => Seat(true, false, false));
    }

    /** A route request replaces the player's route connection and forgets that it had loaded. */
    method OpenRoute(i: nat)
      modifies seats
      ensures seats[..] == After(old(seats[..]), Open(i)) && Sent(old(seats[..]), Open(i)) == []
    {
      if i < seats.Length && seats[i].present {
        seats[i] := Seat(true, true, false);
      }
    }

    /** Closing either connection takes the player out of the game. */
    method Close(i: nat)
      modifies seats
      ensures seats[..] == After(old(seats[..]), Leave(i)) && Sent(old(seats[..]), Leave(i)) == []
    {
      if i < seats.Length && seats[i].present {
        seats[i] := Seat(false, false, seats[i].loaded);
      }
    }

    method Done(i: nat) returns (out: seq<Message>)
      modifies seats
      ensures seats[..] == After(old(seats[..]), LoadingDone(i)) && out == Sent(old(seats[..]), LoadingDone(i))
    {
      ghost var t := seats[..];
      out := [];
      if i >= seats.Length || !seats[i].present || !seats[i].route { return; }
      for j := 0 to seats.Length
        invariant seats[..] == t && forall k :: 0 <= k < j && k != i && Seen(t, k) ==> t[k].route
      {
        if j != i && j < SEEN_SEATS && seats[j].present && !seats[j].route {
          assert Seen(t, j);
          return;
        }
      }
      seats[i] := seats[i].(loaded := true);
      SameAudience(t, i, |t|);
      out := Broadcast(Some(i));
      var j := 0;
      while j < seats.Length
        invariant j <= seats.Length && seats[..] == t[i := t[i].(loaded := true)]
        invariant forall k :: 0 <= k < j && k != i && Seen(t, k) ==> t[k].loaded
      {
        if j != i && j < SEEN_SEATS && seats[j].present && !seats[j].loaded {
          assert Seen(t, j);
          return;
        }
        j := j + 1;
      }
      var ready := Broadcast(None);
      out := out + ready;
    }

    /** One message to every player that is seen: an acknowledgement for the given slot, or the go-ahead. */
    method Broadcast(from: Option<nat>) returns (out: seq<Message>)
      ensures var to := Audience(seats[..], seats.Length);
              out == if from.Some? then Acks(to, from.value) else Readies(to)
    {
      out := [];
      for j: nat := 0 to seats.Length
        invariant var to := Audience(seats[..], j);
                  out == if from.Some? then Acks(to, from.value) else Readies(to)
      {
        if j < SEEN_SEATS && seats[j].present {
          out := out + [if from.Some? then LoadingAck(j, from.value) else Ready(j)];
        }
      }
    }
  }

  lemma {:induction false} SameAudience(t: seq<Seat>, i: nat, n: nat)
    requires i < |t| && n <= |t|
    ensures Audience(t[i := t[i].(loaded := true)], n) == Audience(t, n)
    decreases n
  {
    if n > 0 { SameAudience(t, i, n - 1); }
  }

  // ---------------------------------------------------------------- safety of one event

  lemma {:induction false} AudienceIs(t: seq<Seat>, n: nat, j: nat)
    ensures j in Audience(t, n) <==> j < n && Seen(t, j)
    decreases n
  {
    if n > 0 { AudienceIs(t, n - 1, j); }
  }

  /** Every accepted report is acknowledged to every player that is seen, the sender included, and no other is. */
  lemma AcknowledgedExactly(t: seq<Seat>, e: Event, j: nat, from: nat)
    ensures LoadingAck(j, from) in Sent(t, e) <==>
            e.LoadingDone? && Accepted(t, e.seat) && from == e.seat && Seen(t, j)
  {
    var to := Audience(t, |t|);
    AudienceIs(t, |t|, j);
    if e.LoadingDone? && Accepted(t, e.seat) {
      var acks, readies := Acks(to, e.seat), Readies(to);
      assert LoadingAck(j, from) !in readies;
      if j in to {
        var k :| 0 <= k < |to| && to[k] == j;
        assert acks[k] == LoadingAck(j, e.seat);
      }
      assert LoadingAck(j, from) in Sent(t, e) <==> LoadingAck(j, from) in acks;
    }
  }

  /** The go-ahead reaches a slot exactly if a report is accepted that leaves everyone seen loaded and routed. */
  lemma ReadyExactly(t: seq<Seat>, e: Event, j: nat)
    ensures Ready(j) in Sent(t, e) <==>
            && e.LoadingDone? && Accepted(t, e.seat) && Seen(t, j)
            && forall k: nat :: Seen(t, k) ==> After(t, e)[k].loaded && After(t, e)[k].route
  {
    var to := Audience(t, |t|);
    AudienceIs(t, |t|, j);
    if e.LoadingDone? && Accepted(t, e.seat) {
      var acks, readies := Acks(to, e.seat), Readies(to);
      assert Ready(j) !in acks;
      if j in to {
        var k :| 0 <= k < |to| && to[k] == j;
        assert readies[k] == Ready(j);
      }
      assert Ready(j) in Sent(t, e) <==> OthersLoaded(t, e.seat) && j in to;
      assert OthersLoaded(t, e.seat) <==> forall k: nat :: Seen(t, k) ==> After(t, e)[k].loaded;
    }
  }

  ghost predicate IsReady(t: seq<Seat>, e: Event) {
    e.LoadingDone? && Accepted(t, e.seat) && OthersLoaded(t, e.seat)
  }

  /** In that step it reaches every player still in the game exactly if none of them sits past the eighth slot. */
  lemma ReadyReachesAll(t: seq<Seat>, e: Event)
    requires IsReady(t, e)
    ensures (forall j :: 0 <= j < |t| && t[j].present ==> Ready(j) in Sent(t, e)) <==>
            (forall j :: SEEN_SEATS <= j < |t| ==> !t[j].present)
  {
    forall j: nat ensures Ready(j) in Sent(t, e) <==> Seen(t, j) {
      ReadyExactly(t, e, j);
      assert forall k: nat :: Seen(t, k) ==> After(t, e)[k].loaded && After(t, e)[k].route;
    }
  }

  /** Every message goes to a player with an open route connection. */
  lemma OpenRoutesOnly(t: seq<Seat>, e: Event, k: nat)
    requires k < |Sent(t, e)|
    ensures Sent(t, e)[k].to < |t| && t[Sent(t, e)[k].to].route
  {
    var to := Audience(t, |t|);
    var j := if k < |to| then to[k] else to[k - |to|];
    assert Sent(t, e)[k].to == j && j in to;
    AudienceIs(t, |t|, j);
  }

  lemma {:induction false} AudienceRises(t: seq<Seat>, n: nat, i: nat, j: nat)
    requires i < j < |Audience(t, n)|
    ensures Audience(t, n)[i] < Audience(t, n)[j] < n
    decreases n
  {
    var rest := Audience(t, n - 1);
    if j < |rest| {
      AudienceRises(t, n - 1, i, j);
    } else {
      assert rest[i] in rest;
      AudienceIs(t, n - 1, rest[i]);
    }
  }

  /** The messages of one step: acknowledgements before the go-ahead, each in the order of the slots and none twice. */
  lemma SentInOrder(t: seq<Seat>, e: Event, i: nat, j: nat)
    requires i < j < |Sent(t, e)|
    ensures var a, b := Sent(t, e)[i], Sent(t, e)[j];
            if a.Ready? == b.Ready? then a.to < b.to else a.LoadingAck? && b.Ready?
  {
    var to := Audience(t, |t|);
    if j < |to| { AudienceRises(t, |t|, i, j); }
    if i >= |to| { AudienceRises(t, |t|, i - |to|, j - |to|); }
  }

  // ---------------------------------------------------------------- whole games

  function Start(players: nat): seq<Seat> {
    seq(players, i => Seat(true, false, false))
  }

  function Run(t: seq<Seat>, es: seq<Event>): (r: seq<Seat>)
    ensures |r| == |t|
    decreases |es|
  {
    if es == [] then t else After(Run(t, es[..|es| - 1]), es[|es| - 1])
  }

  /** The go-ahead is given by the k-th event of a game. */
  ghost predicate ReadyAt(players: nat, es: seq<Event>, k: nat) {
    k < |es| && IsReady(Run(Start(players), es[..k]), es[k])
  }

  lemma {:induction false} StillPresent(t: seq<Seat>, es: seq<Event>, k: nat, j: nat)
    requires k <= |es| && j < |t|
    ensures Run(t, es)[j].present ==> Run(t, es[..k])[j].present
    decreases |es|
  {
    if k < |es| {
      StillPresent(t, es[..|es| - 1], k, j);
      assert es[..|es| - 1][..k] == es[..k];
    } else {
      assert es[..k] == es;
    }
  }

  /** The k-th event of a game is a report that counts. */
  ghost predicate AcceptedAt(players: nat, es: seq<Event>, k: nat) {
    k < |es| && es[k].LoadingDone? && Accepted(Run(Start(players), es[..k]), es[k].seat)
  }

  lemma {:induction false} LoadedReported(players: nat, es: seq<Event>, j: nat)
    requires j < players && Run(Start(players), es)[j].loaded
    ensures exists k: nat :: AcceptedAt(players, es, k) && es[k] == LoadingDone(j)
    decreases |es|
  {
    if es != [] {
      var before, e := es[..|es| - 1], es[|es| - 1];
      if Run(Start(players), before)[j].loaded {
        LoadedReported(players, before, j);
        var k: nat :| AcceptedAt(players, before, k) && before[k] == LoadingDone(j);
        assert before[..k] == es[..k];
        assert AcceptedAt(players, es, k);
      } else {
        assert AcceptedAt(players, es, |es| - 1);
      }
    }
  }

  lemma LoadedBefore(players: nat, es: seq<Event>, k: nat, j: nat)
    requires j < players && k <= |es| && Run(Start(players), es[..k])[j].loaded
    ensures exists p: nat :: p < k && AcceptedAt(players, es, p) && es[p] == LoadingDone(j)
  {
    LoadedReported(players, es[..k], j);
    var p: nat :| AcceptedAt(players, es[..k], p) && es[..k][p] == LoadingDone(j);
    assert es[..k][..p] == es[..p];
    assert AcceptedAt(players, es, p);
  }

  /** No player's report is accepted twice; a report that was lost may be repeated. */
  ghost predicate NoRepeatedReport(players: nat, es: seq<Event>) {
    forall k: nat, m: nat :: k < m && AcceptedAt(players, es, k) && AcceptedAt(players, es, m) ==> es[k] != es[m]
  }

  ghost predicate NothingTwice(es: seq<Event>) {
    forall k, m :: 0 <= k < m < |es| ==> es[k] != es[m]
  }

  /** In a game of at most eight players the go-ahead is given once, if no accepted report is repeated. */
  lemma ReadyOnce(players: nat, es: seq<Event>, k: nat, m: nat)
    requires players <= SEEN_SEATS && NoRepeatedReport(players, es) && k < m
    ensures !(ReadyAt(players, es, k) && ReadyAt(players, es, m))
  {
    if ReadyAt(players, es, k) && ReadyAt(players, es, m) {
      var j := es[m].seat;
      StillPresent(Start(players), es[..m], k, j);
      assert es[..m][..k] == es[..k];
      assert Seen(Run(Start(players), es[..k]), j);
      assert AcceptedAt(players, es, k) && AcceptedAt(players, es, m);
      if es[k].seat != j {
        LoadedBefore(players, es, k, j);
      }
    }
  }

  /** Everybody opens a route, and then everybody reports in turn. */
  function Orderly(players: nat): (r: seq<Event>)
    ensures |r| == 2 * players
  {
    seq(2 * players, k requires 0 <= k => if k < players then Open(k) else LoadingDone(k - players))
  }

  lemma {:induction false} OrderlyState(players: nat, k: nat)
    requires k <= 2 * players
    ensures Run(Start(players), Orderly(players)[..k]) ==
            seq(players, i => Seat(true, i < k, players + i < k))
    decreases k
  {
    if k > 0 {
      OrderlyState(players, k - 1);
      assert Orderly(players)[..k][..k - 1] == Orderly(players)[..k - 1];
      var t := Run(Start(players), Orderly(players)[..k - 1]);
      assert Orderly(players)[..k][k - 1] == if k - 1 < players then Open(k - 1) else LoadingDone(k - 1 - players);
    }
  }

  lemma NinthPlayerReadiesAgain(players: nat)
    requires players > SEEN_SEATS
    ensures NoRepeatedReport(players, Orderly(players))
    ensures ReadyAt(players, Orderly(players), players + SEEN_SEATS - 1)
    ensures ReadyAt(players, Orderly(players), players + SEEN_SEATS)
  {
    EveryReportReadies(players, players + SEEN_SEATS - 1);
    EveryReportReadies(players, players + SEEN_SEATS);
    OrderlyOnce(players);
    OnceOnly(players, Orderly(players));
    hide ReadyAt, Orderly, NothingTwice, NoRepeatedReport;
  }

  /** From the eighth report on, everyone who is seen has loaded. */
  lemma EveryReportReadies(players: nat, k: nat)
    requires players + SEEN_SEATS - 1 <= k < 2 * players
    ensures ReadyAt(players, Orderly(players), k)
  {
    OrderlyState(players, k);
    assert Orderly(players)[k] == LoadingDone(k - players);
    hide Run, Orderly;
  }

  lemma OrderlyOnce(players: nat)
    ensures NothingTwice(Orderly(players))
  {
  }

  lemma OnceOnly(players: nat, es: seq<Event>)
    requires NothingTwice(es)
    ensures NoRepeatedReport(players, es)
  {
  }

  /** The go-ahead is given at most once without repeated accepted reports: exactly for up to eight players. */
  lemma ReadyOnceExactly(players: nat)
    ensures players <= SEEN_SEATS <==>
            forall es, k: nat, m: nat :: NoRepeatedReport(players, es) && k < m ==>
              !(ReadyAt(players, es, k) && ReadyAt(players, es, m))
  {
    if players <= SEEN_SEATS {
      forall es, k: nat, m: nat | NoRepeatedReport(players, es) && k < m
        ensures !(ReadyAt(players, es, k) && ReadyAt(players, es, m))
      {
        ReadyOnce(players, es, k, m);
      }
    } else {
      NinthPlayerReadiesAgain(players);
    }
  }

  // ---------------------------------------------------------------- stalls

  /** Someone who is seen has yet to load. */
  ghost predicate Waiting(t: seq<Seat>) {
    exists i: nat :: Seen(t, i) && !t[i].loaded
  }

  /** Nobody is left to wait for once i has gone. */
  ghost predicate LastAwaited(t: seq<Seat>, i: nat) {
    Seen(t, i) && !t[i].loaded && forall j: nat :: Seen(t, j) && j != i ==> t[j].loaded
  }

  /**
   The barrier ought to wait for somebody until the go-ahead is given. One event ends the waiting without
   the go-ahead in exactly one case: the last player awaited leaves.
   */
  lemma StallsExactly(t: seq<Seat>, e: Event)
    requires Waiting(t)
    ensures !Waiting(After(t, e)) && !IsReady(t, e) <==> e.Leave? && LastAwaited(t, e.seat)
  {
    var w: nat :| Seen(t, w) && !t[w].loaded;
    var r := After(t, e);
    assert forall j: nat :: j != e.seat ==> (Seen(r, j) <==> Seen(t, j));
    if e.Open? && Seen(t, e.seat) { assert Seen(r, e.seat) && !r[e.seat].loaded; }
    if w != e.seat || r == t { assert Seen(r, w) && !r[w].loaded; }
    if e.LoadingDone? && !IsReady(t, e) && Accepted(t, e.seat) {
      var o: nat :| 0 <= o < |t| && o != e.seat && Seen(t, o) && !t[o].loaded;
      assert Seen(r, o) && !r[o].loaded;
    }
    if e.Leave? && Seen(t, e.seat) && !LastAwaited(t, e.seat) {
      var o: nat :| Seen(t, o) && !t[o].loaded && (o != e.seat);
      assert Seen(r, o) && !r[o].loaded;
    }
  }

  /** With the k-th event the last player awaited leaves. */
  ghost predicate StallsAt(players: nat, es: seq<Event>, k: nat) {
    k < |es| && es[k].Leave? && LastAwaited(Run(Start(players), es[..k]), es[k].seat)
  }

  /** Over a whole game: whoever waits for nobody any more has been given the go-ahead, or the last one awaited left. */
  lemma {:induction false} WaitingEnds(players: nat, es: seq<Event>)
    requires players >= 1
    ensures || Waiting(Run(Start(players), es))
            || (exists k: nat :: ReadyAt(players, es, k))
            || (exists k: nat :: StallsAt(players, es, k))
    decreases |es|
  {
    if es == [] {
      assert Seen(Start(players), 0);
    } else {
      var before, last: nat := es[..|es| - 1], |es| - 1;
      WaitingEnds(players, before);
      if Waiting(Run(Start(players), before)) {
        StallsExactly(Run(Start(players), before), es[last]);
        assert IsReady(Run(Start(players), before), es[last]) ==> ReadyAt(players, es, last);
        assert es[last].Leave? && LastAwaited(Run(Start(players), before), es[last].seat) ==>
                 StallsAt(players, es, last);
      } else if k: nat :| ReadyAt(players, before, k) {
        assert before[..k] == es[..k];
        assert ReadyAt(players, es, k);
      } else {
        var k: nat :| StallsAt(players, before, k);
        assert before[..k] == es[..k];
        assert StallsAt(players, es, k);
      }
    }
  }

  /** As long as nobody leaves, a game that waits for nobody any more has been given the go-ahead. */
  lemma NoStallWithoutLeaving(players: nat, es: seq<Event>)
    requires players >= 1 && forall k :: 0 <= k < |es| ==> !es[k].Leave?
    ensures Waiting(Run(Start(players), es)) || exists k: nat :: ReadyAt(players, es, k)
  {
    WaitingEnds(players, es);
    hide Run, ReadyAt;
  }

  /** Two players, one loads and the other leaves: everyone left has loaded, and the go-ahead never comes. */
  lemma StalledGame()
    ensures var es := [Open(0), Open(1), LoadingDone(0), Leave(1)];
            && Run(Start(2), es) == [Seat(true, true, true), Seat(false, false, false)]
            && forall k: nat :: !ReadyAt(2, es, k)
  {
    var es := [Open(0), Open(1), LoadingDone(0), Leave(1)];
    RunOf4(Start(2), es);
    assert es[..2] == [Open(0), Open(1)] && es[..3] == [Open(0), Open(1), LoadingDone(0)];
    assert Seen(Run(Start(2), es[..2]), 1);
  }

  lemma RunOf4(t: seq<Seat>, es: seq<Event>)
    requires |es| == 4
    ensures Run(t, es[..1]) == After(t, es[0])
    ensures Run(t, es[..2]) == After(After(t, es[0]), es[1])
    ensures Run(t, es[..3]) == After(After(After(t, es[0]), es[1]), es[2])
    ensures Run(t, es) == After(After(After(After(t, es[0]), es[1]), es[2]), es[3])
  {
    hide After;
    assert es[..3][..2] == es[..2] && es[..2][..1] == es[..1] && es[..1][..0] == [];
    assert Run(t, es[..1]) == After(t, es[0]);
    assert Run(t, es[..2]) == After(Run(t, es[..1]), es[1]);
    assert Run(t, es[..3]) == After(Run(t, es[..2]), es[2]);
  }

  /** A report that comes before the other player's route connection is lost, and so is the go-ahead. */
  lemma EarlyReportIsLost()
    ensures var es := [Open(0), LoadingDone(0), Open(1), LoadingDone(1)];
            && Run(Start(2), es) == [Seat(true, true, false), Seat(true, true, true)]
            && forall k: nat :: !ReadyAt(2, es, k)
  {
    var es := [Open(0), LoadingDone(0), Open(1), LoadingDone(1)];
    RunOf4(Start(2), es);
    assert es[..1] == [Open(0)];
    assert Seen(Run(Start(2), es[..1]), 1) && Seen(Run(Start(2), es[..3]), 0);
  }

  // ---------------------------------------------------------------- when the go-ahead comes

  /** Every player that is waited for, and has not left, has opened a route by then. */
  predicate AllOpened(players: nat, es: seq<Event>) {
    forall i: nat :: i < players && i < SEEN_SEATS && Leave(i) !in es ==> Open(i) in es
  }

  /** What makes a report of player j count after these events. */
  predicate MayReport(players: nat, es: seq<Event>, j: nat) {
    j < players && Leave(j) !in es && Open(j) in es && AllOpened(players, es)
  }

  /** The p-th event is a report of player j that counts. */
  predicate ReportsAt(players: nat, es: seq<Event>, j: nat, p: nat) {
    p < |es| && es[p] == LoadingDone(j) && MayReport(players, es[..p], j)
  }

  ghost predicate ReportsInTime(players: nat, es: seq<Event>, j: nat) {
    exists p: nat :: ReportsAt(players, es, j, p)
  }

  /** A report of player j has counted, and it has not opened its route again since. */
  ghost predicate Reported(players: nat, es: seq<Event>, j: nat) {
    exists p: nat :: ReportsAt(players, es, j, p) && Open(j) !in es[p..]
  }

  lemma ReportedStep(players: nat, before: seq<Event>, e: Event, j: nat)
    ensures Reported(players, before + [e], j) <==>
            || (e == LoadingDone(j) && MayReport(players, before, j))
            || (e != Open(j) && Reported(players, before, j))
  {
    var es, n := before + [e], |before|;
    hide MayReport;
    assert es[..n] == before && es[n..] == [e];
    forall p: nat | p < n
      ensures ReportsAt(players, es, j, p) <==> ReportsAt(players, before, j, p)
      ensures Open(j) in es[p..] <==> Open(j) in before[p..] || e == Open(j)
    {
      assert es[..p] == before[..p] && es[p..] == before[p..] + [e];
    }
    assert ReportsAt(players, es, j, n) <==> e == LoadingDone(j) && MayReport(players, before, j);
    if Reported(players, es, j) {
      var p: nat :| ReportsAt(players, es, j, p) && Open(j) !in es[p..];
      if p < n { assert ReportsAt(players, before, j, p) && Open(j) !in before[p..]; }
    }
    if e != Open(j) && Reported(players, before, j) {
      var p: nat :| ReportsAt(players, before, j, p) && Open(j) !in before[p..];
      assert ReportsAt(players, es, j, p) && Open(j) !in es[p..];
    }
    if e == LoadingDone(j) && MayReport(players, before, j) {
      assert ReportsAt(players, es, j, n) && Open(j) !in es[n..];
    }
  }

  lemma {:induction false} RoutesAre(players: nat, es: seq<Event>, i: nat)
    requires i < players
    ensures Run(Start(players), es)[i].present <==> Leave(i) !in es
    ensures Run(Start(players), es)[i].route <==> Leave(i) !in es && Open(i) in es
    decreases |es|
  {
    if es != [] {
      var before, e := es[..|es| - 1], es[|es| - 1];
      assert es == before + [e];
      RoutesAre(players, before, i);
    }
  }

  lemma AcceptedIfOpened(players: nat, es: seq<Event>, j: nat)
    ensures Accepted(Run(Start(players), es), j) <==> MayReport(players, es, j)
  {
    var t := Run(Start(players), es);
    forall i: nat | i < players
      ensures t[i].present <==> Leave(i) !in es
      ensures t[i].route <==> Leave(i) !in es && Open(i) in es
    {
      RoutesAre(players, es, i);
    }
    hide Run;
    if Accepted(t, j) {
      forall i: nat | i < players && i < SEEN_SEATS && Leave(i) !in es ensures Open(i) in es {
        assert Seen(t, i) || i == j;
      }
    }
  }

  /** The seats of any game, told from its events. */
  lemma {:induction false} SeatsAre(players: nat, es: seq<Event>, j: nat)
    requires j < players && Leave(j) !in es
    ensures Run(Start(players), es)[j] == Seat(true, Open(j) in es, Reported(players, es, j))
    decreases |es|
  {
    if es != [] {
      var before, e := es[..|es| - 1], es[|es| - 1];
      assert es == before + [e];
      SeatsAre(players, before, j);
      ReportedStep(players, before, e, j);
      AcceptedIfOpened(players, before, j);
      hide Reported, MayReport, Accepted;
    }
  }

  /** Every player that is waited for, and has not left, has reported. */
  ghost predicate AllReported(players: nat, es: seq<Event>) {
    forall j: nat :: j < players && j < SEEN_SEATS && Leave(j) !in es ==> Reported(players, es, j)
  }

  lemma AllLoaded(players: nat, es: seq<Event>)
    ensures AllReported(players, es) <==> !Waiting(Run(Start(players), es))
  {
    var t := Run(Start(players), es);
    forall j: nat | j < players
      ensures Seen(t, j) <==> j < SEEN_SEATS && Leave(j) !in es
      ensures Leave(j) !in es ==> (t[j].loaded <==> Reported(players, es, j))
    {
      RoutesAre(players, es, j);
      if Leave(j) !in es { SeatsAre(players, es, j); }
    }
    hide Run, Reported;
    if AllReported(players, es) {
      forall j: nat | Seen(t, j) ensures t[j].loaded { assert j < players; }
    } else {
      var j: nat :| j < players && j < SEEN_SEATS && Leave(j) !in es && !Reported(players, es, j);
      assert Seen(t, j) && !t[j].loaded;
    }
  }

  /** The k-th event of any game is given the go-ahead exactly if it is a report that counts and leaves all reported. */
  lemma ReadyInAnyGame(players: nat, es: seq<Event>, k: nat)
    ensures ReadyAt(players, es, k) <==>
            && k < |es| && es[k].LoadingDone? && ReportsAt(players, es, es[k].seat, k)
            && AllReported(players, es[..k + 1])
  {
    if k < |es| {
      var t, e := Run(Start(players), es[..k]), es[k];
      AcceptedIfOpened(players, es[..k], e.seat);
      assert es[..k + 1][..k] == es[..k];
      AllLoaded(players, es[..k + 1]);
      assert Run(Start(players), es[..k + 1]) == After(t, e);
      hide Run, AllReported, MayReport;
      if e.LoadingDone? && Accepted(t, e.seat) {
        assert forall j: nat :: Seen(After(t, e), j) <==> Seen(t, j);
        assert OthersLoaded(t, e.seat) <==> !Waiting(After(t, e));
      }
    }
  }

  predicate NobodyLeaves(es: seq<Event>) {
    forall k :: 0 <= k < |es| ==> !es[k].Leave?
  }

  /**
   A game that nobody leaves is given the go-ahead exactly if at some moment every player that is waited for has
   reported after all the routes were opened, and has not opened its route again.
   */
  lemma ReadyComesExactly(players: nat, es: seq<Event>)
    requires players >= 1 && NobodyLeaves(es)
    ensures (exists k: nat :: ReadyAt(players, es, k)) <==>
            exists m: nat :: m <= |es| && AllReported(players, es[..m])
  {
    if k: nat :| ReadyAt(players, es, k) {
      ReadyInAnyGame(players, es, k);
      var m := k + 1;
      assert m <= |es| && AllReported(players, es[..m]);
    }
    if m: nat :| m <= |es| && AllReported(players, es[..m]) {
      NoStallWithoutLeaving(players, es[..m]);
      AllLoaded(players, es[..m]);
      var k: nat :| ReadyAt(players, es[..m], k);
      assert es[..m][..k] == es[..k];
      assert ReadyAt(players, es, k);
    }
  }

  /** If no event comes twice either: exactly if the report of each comes after the routes of all. */
  lemma ReadyIfRoutesFirst(players: nat, es: seq<Event>)
    requires players >= 1 && NobodyLeaves(es) && NothingTwice(es)
    ensures (exists k: nat :: ReadyAt(players, es, k)) <==>
            forall j: nat :: j < players && j < SEEN_SEATS ==> ReportsInTime(players, es, j)
  {
    ReadyComesExactly(players, es);
    hide ReadyAt;
    forall j: nat ensures Leave(j) !in es {}
    if m: nat :| m <= |es| && AllReported(players, es[..m]) {
      forall j: nat | j < players && j < SEEN_SEATS ensures ReportsInTime(players, es, j) {
        assert Leave(j) !in es[..m];
        assert Reported(players, es[..m], j);
        var p: nat :| ReportsAt(players, es[..m], j, p);
        assert es[..m][..p] == es[..p];
        assert ReportsAt(players, es, j, p);
      }
    }
    if forall j: nat :: j < players && j < SEEN_SEATS ==> ReportsInTime(players, es, j) {
      forall j: nat | j < players && j < SEEN_SEATS ensures Reported(players, es, j) {
        assert ReportsInTime(players, es, j);
        var p: nat :| ReportsAt(players, es, j, p);
        assert Open(j) in es[..p];
        var o :| 0 <= o < p && es[..p][o] == Open(j);
        assert es[o] == Open(j) && Open(j) !in es[p..];
      }
      assert es[..|es|] == es && AllReported(players, es);
    }
  }
}
