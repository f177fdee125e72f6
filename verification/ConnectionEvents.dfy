/**
 The connection event stream: traffic is sent as deltas against a snapshot of the counters
 that were sent last. The stream is judged by a client that replays it.

 Counters do not move while one of these calls reads them.
 */
module ConnectionEvents {
  import opened Wrappers

  type Id = string

  /** A tracked connection with its counters; `closedAt` is set once it is closed. */
  datatype Tracked = Tracked(id: Id, upload: int, download: int, closedAt: Option<int>)

  /** The message form of a connection: totals, and the closing time if it lists a closed one. */
  datatype Connection = Connection(id: Id, uplinkTotal: int, downlinkTotal: int, closedAt: Option<int>)

  datatype Event =
    | New(id: Id, connection: Connection)
    | Update(id: Id, uplink: int, downlink: int)
    | Closed(id: Id, at: int, last: Option<Connection>)

  datatype Snapshot = Snapshot(uplink: int, downlink: int, hadTraffic: bool)

  /** What the traffic manager reports between ticks. */
  datatype Change =
    | Opened(tracked: Tracked)
    | Left(id: Id, last: Option<Tracked>, at: Option<int>)
    | OtherChange

  function Proto(t: Tracked): Connection {
    Connection(t.id, t.upload, t.download, None)
  }

  function Fresh(t: Tracked): Snapshot {
    Snapshot(t.upload, t.download, false)
  }

  /** How a closed connection is listed. */
  function Listed(t: Tracked): Event {
    New(t.id, Proto(t).(closedAt := t.closedAt))
  }

  // ----- The client -----

  /** What the client knows of a connection it holds open. */
  datatype Known = Known(uplink: int, downlink: int, active: bool)

  type Client = map<Id, Known>

  /** A NEW event that lists a closed connection opens nothing. */
  function Replay(c: Client, e: Event): Client {
    match e
    case New(id, connection) =>
      if connection.closedAt.Some? then c
      else c[id := Known(connection.uplinkTotal, connection.downlinkTotal, false)]
    case Update(id, up, down) =>
      if id in c then c[id := Known(c[id].uplink + up, c[id].downlink + down, up != 0 || down != 0)] else c
    case Closed(id, _, _) => c - {id}
  }

  function ReplayAll(c: Client, events: seq<Event>): Client {
    if events == [] then c
    else Replay(ReplayAll(c, events[..|events| - 1]), events[|events| - 1])
  }

  /** Every UPDATE is about a connection the client holds open, and no delta is negative. */
  predicate Meaningful(c: Client, events: seq<Event>) {
    events == [] ||
    var earlier, last := events[..|events| - 1], events[|events| - 1];
    && Meaningful(c, earlier)
    && (last.Update? ==> last.id in ReplayAll(c, earlier) && last.uplink >= 0 && last.downlink >= 0)
  }

  lemma ReplayOneMore(c: Client, events: seq<Event>, e: Event)
    ensures ReplayAll(c, events + [e]) == Replay(ReplayAll(c, events), e)
    ensures Meaningful(c, events + [e]) <==>
      Meaningful(c, events) && (e.Update? ==> e.id in ReplayAll(c, events) && e.uplink >= 0 && e.downlink >= 0)
  {
    assert (events + [e])[..|events|] == events;
  }

  // ----- Snapshot and client agree -----

  /**
   The snapshots are kept for exactly the connections the client holds open, and `hadTraffic`
   tells whether the last UPDATE it got for one since NEW was non-zero.
   */
  ghost predicate Mirrors(s: map<Id, Snapshot>, c: Client) {
    && s.Keys == c.Keys
    && forall id :: id in s ==> s[id].hadTraffic == c[id].active
  }

  predicate ExactAt(s: map<Id, Snapshot>, c: Client, id: Id) {
    id in s && id in c ==> c[id].uplink == s[id].uplink && c[id].downlink == s[id].downlink
  }

  /** The totals the client has added up are the counters of the snapshot. */
  ghost predicate Exact(s: map<Id, Snapshot>, c: Client) {
    forall id :: ExactAt(s, c, id)
  }

  // ----- One connection at a tick -----

  function Previous(s: map<Id, Snapshot>, id: Id): Option<Snapshot> {
    if id in s then Some(s[id]) else None
  }

  predicate WentBack(t: Tracked, p: Snapshot) {
    t.upload < p.uplink || t.download < p.downlink
  }

  predicate Moved(t: Tracked, p: Snapshot) {
    t.upload != p.uplink || t.download != p.downlink
  }

  /** What is sent about an active connection: nothing if it stays idle. */
  function TickEvent(t: Tracked, previous: Option<Snapshot>): Option<Event> {
    if previous.None? then Some(New(t.id, Proto(t))) else
    var p := previous.value;
    if WentBack(t, p) then (if p.hadTraffic then Some(Update(t.id, 0, 0)) else None)
    else if Moved(t, p) then Some(Update(t.id, t.upload - p.uplink, t.download - p.downlink))
    else if p.hadTraffic then Some(Update(t.id, 0, 0))
    else None
  }

  function TickSnapshot(t: Tracked, previous: Option<Snapshot>): Snapshot {
    if previous.None? then Fresh(t) else
    var p := previous.value;
    Snapshot(t.upload, t.download, !WentBack(t, p) && Moved(t, p))
  }

  lemma TickOne(s: map<Id, Snapshot>, c: Client, t: Tracked)
    requires Mirrors(s, c)
    ensures var e, s' := TickEvent(t, Previous(s, t.id)), s[t.id := TickSnapshot(t, Previous(s, t.id))];
      var c' := if e.Some? then Replay(c, e.value) else c;
      && Mirrors(s', c')
      && (e.Some? && e.value.Update? ==> e.value.id in c && e.value.uplink >= 0 && e.value.downlink >= 0)
      && (ExactAt(s, c, t.id) ==> (ExactAt(s', c', t.id) <==> (t.id in s ==> !WentBack(t, s[t.id]))))
      && (forall id :: id != t.id ==> ExactAt(s', c', id) == ExactAt(s, c, id))
  {
  }

  /** A connection that stops moving is sent one zero UPDATE if it had traffic, then nothing. */
  lemma IdlingIsAnnouncedOnce(t: Tracked, previous: Option<Snapshot>)
    ensures var first := TickSnapshot(t, previous);
      var second := TickSnapshot(t, Some(first));
      && TickEvent(t, Some(first)) == (if first.hadTraffic then Some(Update(t.id, 0, 0)) else None)
      && TickEvent(t, Some(second)) == None && TickSnapshot(t, Some(second)) == second
  {
  }

  // ----- A whole tick -----

  ghost predicate DistinctIds(active: seq<Tracked>) {
    forall i, j :: 0 <= i < j < |active| ==> active[i].id != active[j].id
  }

  function Ids(active: seq<Tracked>): set<Id> {
    set t | t in active :: t.id
  }

  function ActiveEvents(active: seq<Tracked>, s: map<Id, Snapshot>): seq<Event> {
    if active == [] then [] else
    var last := active[|active| - 1];
    var e := TickEvent(last, Previous(s, last.id));
    ActiveEvents(active[..|active| - 1], s) + (if e.Some? then [e.value] else [])
  }

  function AfterActive(active: seq<Tracked>, s: map<Id, Snapshot>): map<Id, Snapshot> {
    if active == [] then s else
    var last := active[|active| - 1];
    AfterActive(active[..|active| - 1], s)[last.id := TickSnapshot(last, Previous(s, last.id))]
  }

  /** One more connection: its event and snapshot only depend on what was sent for it before. */
  lemma TickOneMore(active: seq<Tracked>, i: nat, s: map<Id, Snapshot>)
    requires DistinctIds(active) && i < |active|
    ensures var t, before := active[i], AfterActive(active[..i], s);
      var e := TickEvent(t, Previous(before, t.id));
      && ActiveEvents(active[..i + 1], s) == ActiveEvents(active[..i], s) + (if e.Some? then [e.value] else [])
      && AfterActive(active[..i + 1], s) == before[t.id := TickSnapshot(t, Previous(before, t.id))]
  {
    var t := active[i];
    assert active[..i + 1][..i] == active[..i];
    assert Previous(AfterActive(active[..i], s), t.id) == Previous(s, t.id) by {
      SnapshotsStay(active[..i], s, t.id);
    }
  }

  lemma {:induction false} SnapshotsStay(active: seq<Tracked>, s: map<Id, Snapshot>, id: Id)
    requires forall t :: t in active ==> t.id != id
    ensures Previous(AfterActive(active, s), id) == Previous(s, id)
  {
    if active != [] {
      var rest, last := active[..|active| - 1], active[|active| - 1];
      assert last in active;
      SnapshotsStay(rest, s, id);
    }
  }

  /** The snapshot of every active connection is the one a tick makes of the one before. */
  ghost predicate Ticked(active: seq<Tracked>, before: map<Id, Snapshot>, after: map<Id, Snapshot>) {
    forall t :: t in active ==> Previous(after, t.id) == Some(TickSnapshot(t, Previous(before, t.id)))
  }

  /** The client's totals of the active connections are their counters. */
  ghost predicate Totals(active: seq<Tracked>, c: Client) {
    forall t :: t in active ==> t.id in c && c[t.id].uplink == t.upload && c[t.id].downlink == t.download
  }

  lemma {:induction false} AfterActiveKeys(active: seq<Tracked>, s: map<Id, Snapshot>)
    ensures AfterActive(active, s).Keys == s.Keys + Ids(active)
  {
    if active != [] {
      var rest, last := active[..|active| - 1], active[|active| - 1];
      AfterActiveKeys(rest, s);
      assert active == rest + [last];
      assert Ids(active) == Ids(rest) + {last.id};
    }
  }

  lemma {:induction false} AfterActiveAt(active: seq<Tracked>, s: map<Id, Snapshot>, t: Tracked)
    requires DistinctIds(active) && t in active
    ensures Previous(AfterActive(active, s), t.id) == Some(TickSnapshot(t, Previous(s, t.id)))
  {
    var rest, last := active[..|active| - 1], active[|active| - 1];
    if t != last {
      assert active == rest + [last];
      var i :| 0 <= i < |rest| && rest[i] == t;
      assert active[i].id != active[|rest|].id;
      AfterActiveAt(rest, s, t);
    }
  }

  lemma AfterActiveMeaning(active: seq<Tracked>, s: map<Id, Snapshot>)
    requires DistinctIds(active)
    ensures AfterActive(active, s).Keys == s.Keys + Ids(active)
    ensures Ticked(active, s, AfterActive(active, s))
  {
    AfterActiveKeys(active, s);
    forall t | t in active ensures Previous(AfterActive(active, s), t.id) == Some(TickSnapshot(t, Previous(s, t.id))) {
      AfterActiveAt(active, s, t);
    }
  }

  /** What is left when the connections that are not active go. */
  lemma OnlyActiveLeft(active: seq<Tracked>, before: map<Id, Snapshot>, updated: map<Id, Snapshot>,
                       after: map<Id, Snapshot>)
    requires Ticked(active, before, updated) && updated.Keys == before.Keys + Ids(active)
    requires after == updated - (updated.Keys - Ids(active))
    ensures after.Keys == Ids(active) && Ticked(active, before, after)
    ensures updated.Keys - Ids(active) == before.Keys - Ids(active)
  {
    forall t | t in active ensures Previous(after, t.id) == Some(TickSnapshot(t, Previous(before, t.id))) {
      assert t.id in Ids(active) && Previous(updated, t.id) == Some(TickSnapshot(t, Previous(before, t.id)));
    }
  }

  lemma TotalsAreCounters(active: seq<Tracked>, before: map<Id, Snapshot>, after: map<Id, Snapshot>, c: Client)
    requires Ticked(active, before, after) && Mirrors(after, c) && Exact(after, c)
    ensures Totals(active, c)
  {
    forall t | t in active ensures t.id in c && c[t.id].uplink == t.upload && c[t.id].downlink == t.download {
      assert Previous(after, t.id) == Some(TickSnapshot(t, Previous(before, t.id)));
      assert ExactAt(after, c, t.id);
    }
  }

  /** No counter is below what the snapshot says. */
  ghost predicate Monotone(active: seq<Tracked>, s: map<Id, Snapshot>) {
    forall t :: t in active && t.id in s ==> !WentBack(t, s[t.id])
  }

  /** Replaying the updates of a tick keeps client and snapshots in agreement. */
  lemma {:induction false} TickMirrors(active: seq<Tracked>, s: map<Id, Snapshot>, c: Client)
    requires Mirrors(s, c) && DistinctIds(active)
    ensures var events := ActiveEvents(active, s);
      Mirrors(AfterActive(active, s), ReplayAll(c, events)) && Meaningful(c, events)
  {
    if active != [] {
      TickMirrors(active[..|active| - 1], s, c);
      TickLast(active, s, c);
    }
  }

  /** The last connection of a tick, after the others. */
  lemma TickLast(active: seq<Tracked>, s: map<Id, Snapshot>, c: Client)
    requires DistinctIds(active) && active != []
    requires var rest := active[..|active| - 1];
      Mirrors(AfterActive(rest, s), ReplayAll(c, ActiveEvents(rest, s))) && Meaningful(c, ActiveEvents(rest, s))
    ensures var rest, t := active[..|active| - 1], active[|active| - 1];
      var s1, c1 := AfterActive(rest, s), ReplayAll(c, ActiveEvents(rest, s));
      var s2, c2 := AfterActive(active, s), ReplayAll(c, ActiveEvents(active, s));
      && Mirrors(s2, c2) && Meaningful(c, ActiveEvents(active, s))
      && Previous(s1, t.id) == Previous(s, t.id)
      && (ExactAt(s1, c1, t.id) ==> (ExactAt(s2, c2, t.id) <==> (t.id in s ==> !WentBack(t, s[t.id]))))
      && (forall id :: id != t.id ==> ExactAt(s2, c2, id) == ExactAt(s1, c1, id))
  {
    var rest, t := active[..|active| - 1], active[|active| - 1];
    var s1, events := AfterActive(rest, s), ActiveEvents(rest, s);
    SnapshotsStay(rest, s, t.id);
    TickOne(s1, ReplayAll(c, events), t);
    var e := TickEvent(t, Previous(s, t.id));
    if e.Some? {
      ReplayOneMore(c, events, e.value);
    } else {
      assert events + [] == events;
    }
  }

  /** The counters of the connection `id`, if it is active, did not go back. */
  ghost predicate Forward(active: seq<Tracked>, s: map<Id, Snapshot>, id: Id) {
    forall t :: t in active && t.id == id && id in s ==> !WentBack(t, s[id])
  }

  lemma ForwardLast(active: seq<Tracked>, s: map<Id, Snapshot>, id: Id)
    requires DistinctIds(active) && active != []
    ensures var rest, last := active[..|active| - 1], active[|active| - 1];
      if last.id == id then Forward(rest, s, id) && (Forward(active, s, id) <==> (id in s ==> !WentBack(last, s[id])))
      else Forward(active, s, id) <==> Forward(rest, s, id)
  {
    var rest, last := active[..|active| - 1], active[|active| - 1];
    assert active == rest + [last];
    forall t | t in rest ensures t.id != last.id {
      var i :| 0 <= i < |rest| && rest[i] == t;
      assert active[i].id != active[|rest|].id;
    }
  }

  /** After a tick the client's totals are right for a connection exactly if its counters did not go back. */
  lemma {:induction false} TickExactAt(active: seq<Tracked>, s: map<Id, Snapshot>, c: Client, id: Id)
    requires Mirrors(s, c) && DistinctIds(active) && ExactAt(s, c, id)
    ensures ExactAt(AfterActive(active, s), ReplayAll(c, ActiveEvents(active, s)), id) <==> Forward(active, s, id)
  {
    if active != [] {
      var rest := active[..|active| - 1];
      TickExactAt(rest, s, c, id);
      ForwardLast(active, s, id);
      TickMirrors(rest, s, c);
      TickLast(active, s, c);
    }
  }

  /**
   The totals of a client that were right stay right through a tick, gone connections included,
   if and only if no counter went back.
   */
  lemma TickExactIff(active: seq<Tracked>, s: map<Id, Snapshot>, c: Client, gone: set<Id>)
    requires Mirrors(s, c) && DistinctIds(active) && Exact(s, c) && gone !! Ids(active)
    ensures Exact(AfterActive(active, s) - gone, ReplayAll(c, ActiveEvents(active, s)) - gone) <==> Monotone(active, s)
  {
    var s', c' := AfterActive(active, s), ReplayAll(c, ActiveEvents(active, s));
    forall id ensures ExactAt(s', c', id) <==> Forward(active, s, id) {
      assert ExactAt(s, c, id);
      TickExactAt(active, s, c, id);
    }
    forall id ensures ExactAt(s' - gone, c' - gone, id) <==> id in gone || ExactAt(s', c', id) {
    }
    if t :| t in active && t.id in s && WentBack(t, s[t.id]) {
      assert t.id in Ids(active) && !Forward(active, s, t.id) && !ExactAt(s', c', t.id);
      assert !ExactAt(s' - gone, c' - gone, t.id);
    }
  }

  /** A connection that is counted from zero again: the client still holds its old total. */
  lemma CounterGoesBack()
    ensures var active, s := [Tracked("a", 0, 0, None)], map["a" := Snapshot(5, 0, false)];
      var c := map["a" := Known(5, 0, false)];
      && Mirrors(s, c) && Exact(s, c)
      && !Exact(AfterActive(active, s), ReplayAll(c, ActiveEvents(active, s)))
  {
    var active, s := [Tracked("a", 0, 0, None)], map["a" := Snapshot(5, 0, false)];
    var c := map["a" := Known(5, 0, false)];
    assert active[0] in active && WentBack(active[0], s["a"]);
    TickExactIff(active, s, c, {});
    var s', c' := AfterActive(active, s), ReplayAll(c, ActiveEvents(active, s));
    assert s' - {} == s' && c' - {} == c';
  }

  function Opening(active: seq<Tracked>): seq<Event> {
    seq(|active|, i requires 0 <= i < |active| => New(active[i].id, Proto(active[i])))
  }

  function Listing(closed: seq<Tracked>): seq<Event> {
    seq(|closed|, i requires 0 <= i < |closed| => Listed(closed[i]))
  }

  lemma {:induction false} OpeningIsATick(active: seq<Tracked>)
    ensures ActiveEvents(active, map[]) == Opening(active)
  {
    if active != [] {
      OpeningIsATick(active[..|active| - 1]);
    }
  }

  lemma {:induction false} ListingOpensNothing(c: Client, events: seq<Event>, closed: seq<Tracked>)
    requires forall t :: t in closed ==> t.closedAt.Some?
    ensures ReplayAll(c, events + Listing(closed)) == ReplayAll(c, events)
  {
    if closed == [] {
      assert events + Listing(closed) == events;
    } else {
      var rest, last := closed[..|closed| - 1], closed[|closed| - 1];
      ListingOpensNothing(c, events, rest);
      var earlier := events + Listing(rest);
      ReplayOneMore(c, earlier, Listed(last));
      assert last in closed && Replay(ReplayAll(c, earlier), Listed(last)) == ReplayAll(c, earlier);
      assert Listing(closed) == Listing(rest) + [Listed(last)];
      assert events + Listing(closed) == earlier + [Listed(last)];
    }
  }

  /** The first batch leaves a client that holds exactly the active connections open, with their totals. */
  lemma InitialMirrors(active: seq<Tracked>, closed: seq<Tracked>, s: map<Id, Snapshot>, c: Client)
    requires DistinctIds(active)
    requires forall t :: t in closed ==> t.closedAt.Some?
    requires s == AfterActive(active, map[]) && c == ReplayAll(map[], Opening(active) + Listing(closed))
    ensures Mirrors(s, c) && Exact(s, c) && s.Keys == Ids(active)
    ensures forall t :: t in active ==> s[t.id] == Fresh(t)
  {
    OpeningIsATick(active);
    ListingOpensNothing(map[], Opening(active), closed);
    TickMirrors(active, map[], map[]);
    TickExactIff(active, map[], map[], {});
    assert s - {} == s && c - {} == c;
    AfterActiveMeaning(active, map[]);
    forall t | t in active ensures s[t.id] == Fresh(t) {
      assert Previous(s, t.id) == Some(TickSnapshot(t, None));
    }
  }

  /** The closing time that is sent: the one reported, else the tracked one, else the present. */
  function ClosedEvent(id: Id, at: Option<int>, tracked: Option<Tracked>, now: int): Event {
    var closedAt := if at.Some? then at.value
                    else if tracked.Some? && tracked.value.closedAt.Some? then tracked.value.closedAt.value
                    else now;
    Closed(id, closedAt, if tracked.Some? then Some(Proto(tracked.value).(closedAt := Some(closedAt))) else None)
  }

  function Find(closed: map<Id, Tracked>, id: Id): Option<Tracked> {
    if id in closed then Some(closed[id]) else None
  }

  /** One CLOSED event for each of `ids`, and nothing else. */
  ghost predicate AllClosed(events: seq<Event>, ids: set<Id>) {
    && (forall e :: e in events ==> e.Closed? && e.id in ids)
    && (forall id :: id in ids ==> exists i :: 0 <= i < |events| && events[i].id == id)
    && (forall i, j :: 0 <= i < j < |events| ==> events[i].id != events[j].id)
  }

  lemma CloseOneMore(events: seq<Event>, ids: set<Id>, e: Event)
    requires AllClosed(events, ids) && e.Closed? && e.id !in ids
    ensures AllClosed(events + [e], ids + {e.id})
  {
    var all := events + [e];
    forall id | id in ids + {e.id} ensures exists i :: 0 <= i < |all| && all[i].id == id {
      if id == e.id {
        assert all[|events|].id == id;
      } else {
        var i :| 0 <= i < |events| && events[i].id == id;
        assert all[i].id == id;
      }
    }
  }

  /** Replaying CLOSED events removes what they are about, and nothing else. */
  lemma ClosingForgets(c: Client, events: seq<Event>, ids: set<Id>)
    requires AllClosed(events, ids)
    ensures ReplayAll(c, events) == c - ids
  {
    ReplayClosed(c, events);
    assert (set e | e in events :: e.id) == ids;
  }

  lemma {:induction false} ReplayClosed(c: Client, events: seq<Event>)
    requires forall e :: e in events ==> e.Closed?
    ensures ReplayAll(c, events) == c - set e | e in events :: e.id
  {
    if events != [] {
      var rest, last := events[..|events| - 1], events[|events| - 1];
      ReplayClosed(c, rest);
      assert events == rest + [last];
      assert (set e | e in events :: e.id) == (set e | e in rest :: e.id) + {last.id};
      assert last in events && ReplayAll(c, events) == ReplayAll(c, rest) - {last.id};
    }
  }

  class Stream {
    var snapshots: map<Id, Snapshot>
    ghost var client: Client

    ghost predicate Valid()
      reads this
    {
      Mirrors(snapshots, client)
    }

    constructor ()
      ensures Valid() && snapshots == map[] && client == map[]
    {
      snapshots, client := map[], map[];
    }

    /** buildInitialConnectionState, with the connections active and the ones recently closed. */
    method BuildInitial(active: seq<Tracked>, closed: seq<Tracked>) returns (events: seq<Event>)
      requires Valid() && snapshots == map[] && DistinctIds(active)
      requires forall t :: t in closed ==> t.closedAt.Some?
      modifies this
      ensures Valid() && snapshots.Keys == Ids(active) && Exact(snapshots, client)
      ensures client == ReplayAll(old(client), events)
      ensures forall t :: t in active ==> snapshots[t.id] == Fresh(t)
      ensures events == Opening(active) + Listing(closed)
    {
      events := [];
      for i := 0 to |active|
        invariant snapshots == AfterActive(active[..i], map[]) && client == old(client)
        invariant events == Opening(active[..i])
      {
        assert active[..i + 1][..i] == active[..i];
        events := events + [New(active[i].id, Proto(active[i]))];
        snapshots := snapshots[active[i].id := Fresh(active[i])];
      }
      assert active[..|active|] == active;
      for i := 0 to |closed|
        invariant snapshots == AfterActive(active, map[]) && client == old(client)
        invariant events == Opening(active) + Listing(closed[..i])
      {
        assert closed[..i + 1][..i] == closed[..i];
        events := events + [Listed(closed[i])];
      }
      assert closed[..|closed|] == closed;
      client := ReplayAll(client, events);
      InitialMirrors(active, closed, snapshots, client);
    }

    /** applyConnectionEvent. */
    method ApplyChange(change: Change, now: int) returns (event: Option<Event>)
      requires Valid()
      modifies this
      ensures Valid()
      ensures client == (if event.Some? then Replay(old(client), event.value) else old(client))
      ensures event.Some? ==> !event.value.Update?
      ensures old(Exact(snapshots, client)) ==> Exact(snapshots, client)
      ensures match change
        case Opened(t) =>
          && event == (if t.id in old(snapshots) then None else Some(New(t.id, Proto(t))))
          && snapshots == (if t.id in old(snapshots) then old(snapshots) else old(snapshots)[t.id := Fresh(t)])
        case Left(id, last, at) => event == Some(ClosedEvent(id, at, last, now)) && snapshots == old(snapshots) - {id}
        case OtherChange => event.None? && snapshots == old(snapshots)
    {
      match change
      case Opened(t) =>
        if t.id in snapshots { return None; }
        snapshots := snapshots[t.id := Fresh(t)];
        event := Some(New(t.id, Proto(t)));
        client := Replay(client, event.value);
        assert forall id :: old(ExactAt(snapshots, client, id)) ==> ExactAt(snapshots, client, id);
      case Left(id, tracked, at) =>
        snapshots := snapshots - {id};
        var closedAt := if at.Some? then at.value
                        else if tracked.Some? && tracked.value.closedAt.Some? then tracked.value.closedAt.value
                        else now;
        var last := if tracked.Some? then Some(Proto(tracked.value).(closedAt := Some(closedAt))) else None;
        event := Some(Closed(id, closedAt, last));
        client := Replay(client, event.value);
        assert forall other :: old(ExactAt(snapshots, client, other)) ==> ExactAt(snapshots, client, other);
      case OtherChange =>
        event := None;
    }

    /**
     buildTrafficUpdates: one event at most per active connection, then CLOSED for every
     connection that is gone. Afterwards exactly the active connections are open, and if no
     counter went back, the client's totals are the counters.
     */
    method BuildTrafficUpdates(active: seq<Tracked>, closed: map<Id, Tracked>, now: int)
      returns (updates: seq<Event>, gone: seq<Event>)
      requires Valid() && DistinctIds(active)
      modifies this
      ensures Valid() && snapshots.Keys == Ids(active)
      ensures client == ReplayAll(ReplayAll(old(client), updates), gone)
      ensures Meaningful(old(client), updates)
      ensures updates == ActiveEvents(active, old(snapshots))
      ensures AllClosed(gone, old(snapshots.Keys) - Ids(active))
      ensures forall e :: e in gone ==> e == ClosedEvent(e.id, None, Find(closed, e.id), now)
      ensures Ticked(active, old(snapshots), snapshots)
      ensures old(Exact(snapshots, client)) ==> (Exact(snapshots, client) <==> Monotone(active, old(snapshots)))
      ensures Exact(snapshots, client) ==> Totals(active, client)
    {
      ghost var before, known := snapshots, client;
      updates := UpdateActive(active);
      ghost var updated := snapshots;
      gone := CloseGone(Ids(active), closed, now);
      OnlyActiveLeft(active, before, updated, snapshots);
      if Exact(snapshots, client) {
        TotalsAreCounters(active, before, snapshots, client);
      }
      if old(Exact(snapshots, client)) {
        TickExactIff(active, before, known, before.Keys - Ids(active));
      }
    }

    method UpdateActive(active: seq<Tracked>) returns (events: seq<Event>)
      requires Valid() && DistinctIds(active)
      modifies this
      ensures Valid() && snapshots.Keys == old(snapshots.Keys) + Ids(active)
      ensures client == ReplayAll(old(client), events) && Meaningful(old(client), events)
      ensures events == ActiveEvents(active, old(snapshots))
      ensures Ticked(active, old(snapshots), snapshots) && snapshots == AfterActive(active, old(snapshots))
    {
      ghost var snapshots0 := snapshots;
      events := [];
      for i := 0 to |active|
        invariant client == old(client)
        invariant events == ActiveEvents(active[..i], snapshots0)
        invariant snapshots == AfterActive(active[..i], snapshots0)
      {
        TickOneMore(active, i, snapshots0);
        var event := Tick(active[i]);
        if event.Some? { events := events + [event.value]; }
      }
      assert active[..|active|] == active;
      AfterActiveMeaning(active, snapshots0);
      TickMirrors(active, snapshots0, client);
      client := ReplayAll(client, events);
    }

    /** The loop over the snapshots that are not active any more, in any order. */
    method CloseGone(keep: set<Id>, closed: map<Id, Tracked>, now: int) returns (events: seq<Event>)
      requires Valid()
      modifies this
      ensures Valid() && snapshots == old(snapshots) - (old(snapshots.Keys) - keep)
      ensures client == ReplayAll(old(client), events) && client == old(client) - (old(snapshots.Keys) - keep)
      ensures AllClosed(events, old(snapshots.Keys) - keep)
      ensures forall e :: e in events ==> e == ClosedEvent(e.id, None, Find(closed, e.id), now)
      ensures old(Exact(snapshots, client)) ==> Exact(snapshots, client)
    {
      events := [];
      var remaining := snapshots.Keys;
      ghost var gone: set<Id> := {};
      while remaining != {}
        invariant remaining <= old(snapshots.Keys) && gone == old(snapshots.Keys) - keep - remaining
        invariant snapshots == old(snapshots) - gone && client == old(client)
        invariant AllClosed(events, gone)
        invariant forall e :: e in events ==> e == ClosedEvent(e.id, None, Find(closed, e.id), now)
        decreases remaining
      {
        var id :| id in remaining;
        remaining := remaining - {id};
        if id in keep { continue; }
        var closedAt := if id in closed && closed[id].closedAt.Some? then closed[id].closedAt.value else now;
        var last := if id in closed then Some(Proto(closed[id]).(closedAt := Some(closedAt))) else None;
        CloseOneMore(events, gone, Closed(id, closedAt, last));
        events := events + [Closed(id, closedAt, last)];
        snapshots, gone := snapshots - {id}, gone + {id};
      }
      ClosingForgets(old(client), events, gone);
      client := ReplayAll(client, events);
      assert forall id :: old(ExactAt(snapshots, client, id)) ==> ExactAt(snapshots, client, id);
    }

    /** The body of the loop over the active connections. */
    method Tick(t: Tracked) returns (event: Option<Event>)
      modifies this`snapshots
      ensures event == TickEvent(t, old(Previous(snapshots, t.id)))
      ensures snapshots == old(snapshots)[t.id := TickSnapshot(t, old(Previous(snapshots, t.id)))]
    {
      event := None;
      if t.id !in snapshots {
        snapshots := snapshots[t.id := Fresh(t)];
        event := Some(New(t.id, Proto(t)));
      } else {
        var snapshot := snapshots[t.id];
        var up, down := t.upload - snapshot.uplink, t.download - snapshot.downlink;
        if up < 0 || down < 0 {
          if snapshot.hadTraffic { event := Some(Update(t.id, 0, 0)); }
          snapshots := snapshots[t.id := Snapshot(t.upload, t.download, false)];
        } else if up > 0 || down > 0 {
          snapshots := snapshots[t.id := Snapshot(t.upload, t.download, true)];
          event := Some(Update(t.id, up, down));
        } else if snapshot.hadTraffic {
          snapshots := snapshots[t.id := Snapshot(t.upload, t.download, false)];
          event := Some(Update(t.id, 0, 0));
        }
      }
    }
  }
}
