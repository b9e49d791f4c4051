/**
 * The watchdog table as values: the record kept per watchdog ID, the
 * notifications the handler and the ticker send, and what one ping, one
 * batch of pings, one sweep and a run of sweeps do to the table.
 *
 * Each entry is a two-state machine: not firing (pings arrive) and firing
 * (the silence exceeded the expiry). A ping of a firing entry sends one
 * "recover" notification, a sweep that finds a silent entry sends one "fire"
 * notification; both carry the alert stored when the ID was first seen.
 */
module Watchdogs {
  import opened Alerts
  import opened Fingerprints

  /** `watchdog`: one entry of `watchdogCache`. */
  datatype Watchdog = Watchdog(id: string, lastPing: int, lastAlert: Alert, firing: bool)

  /** `watchdogCache`: watchdog ID to entry. */
  type Table = map<string, Watchdog>

  /** The two notification templates: "watchdogAlertFire" and
      "watchdogAlertRecover". */
  datatype Kind = Fire | Recover

  /** A notification, before rendering: which template and which alert. */
  datatype Event = Event(kind: Kind, alert: Alert)

  /** A new table and the notifications sent on the way to it. */
  datatype Step = Step(table: Table, events: seq<Event>)

  /** Every entry sits under its own ID, and that ID is the fingerprint of the
      labels of the alert it stores. */
  ghost predicate WellKeyed(t: Table, digest: string -> string)
  {
    forall id :: id in t ==> t[id].id == id && WatchdogId(t[id].lastAlert.labels, digest) == id
  }

  predicate Distinct(s: seq<string>)
  {
    forall i, j :: 0 <= i < j < |s| ==> s[i] != s[j]
  }

  /** One firing alert with ID `id` reaching the handler at time `now`. */
  function Ping(t: Table, id: string, alert: Alert, now: int): (s: Step)
    ensures s.table.Keys == t.Keys + {id}
    ensures forall other :: other in t && other != id ==> s.table[other] == t[other]
    ensures id !in t ==> s.table[id] == Watchdog(id, now, alert, false) && s.events == []
    ensures id in t ==>
      && !s.table[id].firing && s.table[id].lastPing == now
      && s.table[id].id == t[id].id && s.table[id].lastAlert == t[id].lastAlert
    ensures id in t && t[id].firing ==> s.events == [Event(Recover, t[id].lastAlert)]
    ensures id in t && !t[id].firing ==> s.events == []
  {
    if id in t then
      var entry := t[id];
      var events := if entry.firing then [Event(Recover, entry.lastAlert)] else [];
      Step(t[id := entry.(firing := false, lastPing := now)], events)
    else
      Step(t[id := Watchdog(id, now, alert, false)], [])
  }

  /** The alerts of one batch, pinged in order; `ids[i]` is the ID of `alerts[i]`. */
  function PingAll(t: Table, ids: seq<string>, alerts: seq<Alert>, now: int): (s: Step)
    requires |ids| == |alerts|
    ensures |s.events| <= |ids|
    decreases |ids|
  {
    if ids == [] then Step(t, [])
    else
      var n := |ids| - 1;
      var before := PingAll(t, ids[..n], alerts[..n], now);
      var s := Ping(before.table, ids[n], alerts[n], now);
      Step(s.table, before.events + s.events)
  }

  /** A batch is its first `i` alerts followed by alert `i`. */
  lemma PingAllPrefix(t: Table, ids: seq<string>, alerts: seq<Alert>, i: nat, now: int)
    requires |ids| == |alerts| && i < |ids|
    ensures var before := PingAll(t, ids[..i], alerts[..i], now);
            var s := Ping(before.table, ids[i], alerts[i], now);
      PingAll(t, ids[..i + 1], alerts[..i + 1], now) == Step(s.table, before.events + s.events)
  {
    assert ids[..i + 1][..i] == ids[..i];
    assert alerts[..i + 1][..i] == alerts[..i];
  }

  /** A batch without a firing alert changes nothing and sends nothing. */
  lemma NoFiringNoChange(t: Table, batch: seq<Alert>, now: int, digest: string -> string)
    requires forall a :: a in batch ==> !IsFiring(a)
    ensures PingAll(t, IdsOf(Firing(batch), digest), Firing(batch), now) == Step(t, [])
  {
    NoFiringAlerts(batch);
  }

  /** The whole batch as its own prefix. */
  lemma PingAllWhole(t: Table, ids: seq<string>, alerts: seq<Alert>, now: int)
    requires |ids| == |alerts|
    ensures PingAll(t, ids[..|ids|], alerts[..|alerts|], now) == PingAll(t, ids, alerts, now)
  {
    assert ids[..|ids|] == ids;
    assert alerts[..|alerts|] == alerts;
  }

  /** A batch removes no entry and adds one for every new ID. */
  lemma {:induction false} PingAllKeys(t: Table, ids: seq<string>, alerts: seq<Alert>, now: int)
    requires |ids| == |alerts|
    ensures forall id :: id in PingAll(t, ids, alerts, now).table <==> id in t || id in ids
    decreases |ids|
  {
    if ids != [] {
      var n := |ids| - 1;
      PingAllKeys(t, ids[..n], alerts[..n], now);
      assert ids == ids[..n] + [ids[n]];
    }
  }

  /** A batch leaves the entries of the IDs it does not mention untouched. */
  lemma {:induction false} PingAllUntouched(t: Table, ids: seq<string>, alerts: seq<Alert>, now: int)
    requires |ids| == |alerts|
    ensures forall id :: id in t && id !in ids ==>
      id in PingAll(t, ids, alerts, now).table && PingAll(t, ids, alerts, now).table[id] == t[id]
    decreases |ids|
  {
    if ids != [] {
      var n := |ids| - 1;
      PingAllUntouched(t, ids[..n], alerts[..n], now);
      assert ids == ids[..n] + [ids[n]];
    }
  }

  /** After a batch every pinged entry is not firing and was pinged at `now`,
      and an entry that existed before keeps its ID and its stored alert. */
  lemma {:induction false} PingAllRefreshes(t: Table, ids: seq<string>, alerts: seq<Alert>, now: int)
    requires |ids| == |alerts|
    ensures var u := PingAll(t, ids, alerts, now).table;
      && (forall id :: id in ids ==> id in u && !u[id].firing && u[id].lastPing == now)
      && (forall id :: id in ids && id in t ==>
            id in u && u[id].id == t[id].id && u[id].lastAlert == t[id].lastAlert)
    decreases |ids|
  {
    if ids != [] {
      var n := |ids| - 1;
      PingAllRefreshes(t, ids[..n], alerts[..n], now);
      PingAllUntouched(t, ids[..n], alerts[..n], now);
      var before := PingAll(t, ids[..n], alerts[..n], now).table;
      assert PingAll(t, ids, alerts, now).table == Ping(before, ids[n], alerts[n], now).table;
      RefreshStep(t, ids[..n], before, ids[n], alerts[n], now);
      assert ids == ids[..n] + [ids[n]];
    }
  }

  /** One more ping keeps `PingAllRefreshes` for the IDs pinged before it
      and establishes it for its own. */
  lemma RefreshStep(t: Table, pinged: seq<string>, before: Table, id: string, alert: Alert, now: int)
    requires forall x :: x in t && x !in pinged ==> x in before && before[x] == t[x]
    requires forall x :: x in pinged ==> x in before && !before[x].firing && before[x].lastPing == now
    requires forall x :: x in pinged && x in t ==>
      x in before && before[x].id == t[x].id && before[x].lastAlert == t[x].lastAlert
    ensures var u := Ping(before, id, alert, now).table;
      && (forall x :: x in pinged + [id] ==> x in u && !u[x].firing && u[x].lastPing == now)
      && (forall x :: x in pinged + [id] && x in t ==>
            x in u && u[x].id == t[x].id && u[x].lastAlert == t[x].lastAlert)
  {
    var u := Ping(before, id, alert, now).table;
    forall x | x in pinged + [id]
      ensures x in u && !u[x].firing && u[x].lastPing == now
      ensures x in t ==> u[x].id == t[x].id && u[x].lastAlert == t[x].lastAlert
    {
      if x != id {
        assert x in pinged;
      } else if x !in pinged && x in t {
        assert before[x] == t[x];
      }
    }
  }

  /** A new ID stores the alert of its first sighting in the batch. */
  lemma PingAllFirstSighting(t: Table, ids: seq<string>, alerts: seq<Alert>, now: int)
    requires |ids| == |alerts|
    ensures var u := PingAll(t, ids, alerts, now).table;
      forall i :: 0 <= i < |ids| && ids[i] !in t && ids[i] !in ids[..i] ==>
        ids[i] in u && u[ids[i]].id == ids[i] && u[ids[i]].lastAlert == alerts[i]
  {
    FirstSightingUpTo(t, ids, alerts, now, |ids|);
    PingAllWhole(t, ids, alerts, now);
  }

  /** `PingAllFirstSighting` for the first `k` alerts of the batch. */
  lemma {:induction false} FirstSightingUpTo(t: Table, ids: seq<string>, alerts: seq<Alert>, now: int, k: nat)
    requires |ids| == |alerts| && k <= |ids|
    ensures var u := PingAll(t, ids[..k], alerts[..k], now).table;
      forall i :: 0 <= i < k && ids[i] !in t && ids[i] !in ids[..i] ==>
        ids[i] in u && u[ids[i]].id == ids[i] && u[ids[i]].lastAlert == alerts[i]
    decreases k
  {
    if k > 0 {
      var n := k - 1;
      FirstSightingUpTo(t, ids, alerts, now, n);
      PingAllKeys(t, ids[..n], alerts[..n], now);
      PingAllPrefix(t, ids, alerts, n, now);
      FirstSightingStep(t, ids, alerts, now, PingAll(t, ids[..n], alerts[..n], now).table, n);
    }
  }

  /** Alert `n` of a batch keeps the first sightings of the alerts before it
      and records its own when its ID is new. */
  lemma FirstSightingStep(t: Table, ids: seq<string>, alerts: seq<Alert>, now: int, before: Table, n: nat)
    requires |ids| == |alerts| && n < |ids|
    requires forall id :: id in before <==> id in t || id in ids[..n]
    requires forall i :: 0 <= i < n && ids[i] !in t && ids[i] !in ids[..i] ==>
      ids[i] in before && before[ids[i]].id == ids[i] && before[ids[i]].lastAlert == alerts[i]
    ensures var u := Ping(before, ids[n], alerts[n], now).table;
      forall i :: 0 <= i <= n && ids[i] !in t && ids[i] !in ids[..i] ==>
        ids[i] in u && u[ids[i]].id == ids[i] && u[ids[i]].lastAlert == alerts[i]
  {
    var u := Ping(before, ids[n], alerts[n], now).table;
    forall i | 0 <= i <= n && ids[i] !in t && ids[i] !in ids[..i]
      ensures ids[i] in u && u[ids[i]].id == ids[i] && u[ids[i]].lastAlert == alerts[i]
    {
      if i == n {
        assert ids[n] !in before;
      }
    }
  }

  /** The position at which `id` first occurs in `ids`. */
  function FirstIndex(ids: seq<string>, id: string): (k: nat)
    requires id in ids
    ensures k < |ids| && ids[k] == id && id !in ids[..k]
  {
    if ids[0] == id then 0
    else
      assert ids[1..] == ids[..][1..];
      var k := FirstIndex(ids[1..], id);
      assert ids[..k + 1] == [ids[0]] + ids[1..][..k];
      k + 1
  }

  /** An occurrence of an ID with no earlier one is its first occurrence. */
  lemma FirstIndexAt(ids: seq<string>, k: nat)
    requires k < |ids| && ids[k] !in ids[..k]
    ensures FirstIndex(ids, ids[k]) == k
  {
  }

  /** The first occurrence of an ID in a prefix is its first occurrence in
      the whole sequence. */
  lemma FirstIndexPrefix(ids: seq<string>, n: nat, id: string)
    requires n <= |ids| && id in ids[..n]
    ensures FirstIndex(ids, id) == FirstIndex(ids[..n], id) < n
  {
    var k := FirstIndex(ids[..n], id);
    assert ids[..n][..k] == ids[..k];
    FirstIndexAt(ids, k);
  }

  /** The IDs of a batch that recover: those whose entry was firing before the
      batch, each at its first position in the batch. */
  function Recovered(t: Table, ids: seq<string>): (r: seq<string>)
    ensures Distinct(r)
    ensures forall id :: id in r <==> id in ids && id in t && t[id].firing
    ensures forall i, j :: 0 <= i < j < |r| ==> FirstIndex(ids, r[i]) < FirstIndex(ids, r[j])
    decreases |ids|
  {
    if ids == [] then []
    else
      var n := |ids| - 1;
      assert ids == ids[..n] + [ids[n]];
      var earlier := Recovered(t, ids[..n]);
      var first := if ids[n] in t && t[ids[n]].firing && ids[n] !in ids[..n] then [ids[n]] else [];
      RecoveredInOrder(ids, n, earlier, first);
      earlier + first
  }

  /** Appending the ID at position `n`, when it is new there, keeps a list
      ordered by first occurrence. */
  lemma RecoveredInOrder(ids: seq<string>, n: nat, earlier: seq<string>, first: seq<string>)
    requires n < |ids|
    requires forall id :: id in earlier ==> id in ids[..n]
    requires forall i, j :: 0 <= i < j < |earlier| ==> FirstIndex(ids[..n], earlier[i]) < FirstIndex(ids[..n], earlier[j])
    requires first == [] || (first == [ids[n]] && ids[n] !in ids[..n])
    ensures forall id :: id in earlier + first ==> id in ids
    ensures var r := earlier + first;
      forall i, j :: 0 <= i < j < |r| ==> FirstIndex(ids, r[i]) < FirstIndex(ids, r[j])
  {
    var r := earlier + first;
    forall id | id in earlier
      ensures FirstIndex(ids, id) == FirstIndex(ids[..n], id) < n
    {
      FirstIndexPrefix(ids, n, id);
    }
    if first != [] {
      FirstIndexAt(ids, n);
    }
    assert forall id :: id in r ==> id in ids;
    forall i, j | 0 <= i < j < |r|
      ensures FirstIndex(ids, r[i]) < FirstIndex(ids, r[j])
    {
      assert r[i] == earlier[i];
      if j < |earlier| {
        assert r[j] == earlier[j];
      }
    }
  }

  /** A batch sends exactly one "recover" notification per ID whose entry was
      firing before the batch, however often the ID repeats in it, and each
      carries the alert stored in that entry, not the incoming one. */
  lemma {:induction false} PingAllRecovers(t: Table, ids: seq<string>, alerts: seq<Alert>, now: int)
    requires |ids| == |alerts|
    ensures var events := PingAll(t, ids, alerts, now).events;
            var r := Recovered(t, ids);
      && |events| == |r|
      && forall i :: 0 <= i < |r| ==> events[i] == Event(Recover, t[r[i]].lastAlert)
    decreases |ids|
  {
    if ids != [] {
      var n := |ids| - 1;
      var last := ids[n];
      var before := PingAll(t, ids[..n], alerts[..n], now);
      var s := Ping(before.table, last, alerts[n], now);
      PingAllRecovers(t, ids[..n], alerts[..n], now);
      PingAllKeys(t, ids[..n], alerts[..n], now);
      PingAllUntouched(t, ids[..n], alerts[..n], now);
      PingAllRefreshes(t, ids[..n], alerts[..n], now);
      assert PingAll(t, ids, alerts, now).events == before.events + s.events;
      if last in ids[..n] {
        assert s.events == [];
      } else if last in t {
        assert before.table[last] == t[last];
      } else {
        assert last !in before.table;
      }
    }
  }

  /** In a table whose entries sit under their alerts' fingerprints, each
      "recover" notification of a batch carries the labels of the watchdog
      that recovers. */
  lemma PingAllRecoversKeyed(t: Table, alerts: seq<Alert>, now: int, digest: string -> string)
    requires WellKeyed(t, digest)
    ensures var ids := IdsOf(alerts, digest);
            var events := PingAll(t, ids, alerts, now).events;
            var r := Recovered(t, ids);
      && |events| == |r|
      && forall i :: 0 <= i < |r| ==>
           events[i].kind == Recover && WatchdogId(events[i].alert.labels, digest) == r[i]
  {
    PingAllRecovers(t, IdsOf(alerts, digest), alerts, now);
  }

  /** A batch keeps every entry under the fingerprint of its stored alert. */
  lemma {:induction false} PingAllWellKeyed(t: Table, alerts: seq<Alert>, now: int, digest: string -> string)
    requires WellKeyed(t, digest)
    ensures WellKeyed(PingAll(t, IdsOf(alerts, digest), alerts, now).table, digest)
    decreases |alerts|
  {
    if alerts != [] {
      var n := |alerts| - 1;
      var ids := IdsOf(alerts, digest);
      assert ids[..n] == IdsOf(alerts[..n], digest);
      PingAllWellKeyed(t, alerts[..n], now, digest);
      var before := PingAll(t, ids[..n], alerts[..n], now).table;
      var u := Ping(before, ids[n], alerts[n], now).table;
      assert PingAll(t, ids, alerts, now).table == u;
      assert ids[n] == WatchdogId(alerts[n].labels, digest);
      forall id | id in u
        ensures u[id].id == id && WatchdogId(u[id].lastAlert.labels, digest) == id
      {
        if id != ids[n] || ids[n] in before {
          assert id in before;
        }
      }
    }
  }

  /** The condition the ticker checks: not firing, and silent for strictly
      longer than `expiry`. */
  predicate Expired(w: Watchdog, now: int, expiry: int)
  {
    !w.firing && now - w.lastPing > expiry
  }

  /** The IDs a sweep at `now` fires. */
  function ExpiredIds(t: Table, now: int, expiry: int): (ids: set<string>)
  {
    set id | id in t && Expired(t[id], now, expiry)
  }

  /** The "fire" notifications for the entries `ids`, in that order. */
  function FireEvents(t: Table, ids: seq<string>): (events: seq<Event>)
    requires forall id :: id in ids ==> id in t
    ensures |events| == |ids|
    ensures forall i :: 0 <= i < |ids| ==> events[i] == Event(Fire, t[ids[i]].lastAlert)
    decreases |ids|
  {
    if ids == [] then []
    else
      var n := |ids| - 1;
      FireEvents(t, ids[..n]) + [Event(Fire, t[ids[n]].lastAlert)]
  }

  /** The silence test of the ticker is strict and, for an entry nobody
      pings, stays true once true: an entry silent for exactly `expiry` has
      not expired, and one that has expired at `now` has at every later time. */
  lemma ExpiryThreshold(t: Table, now: int, later: int, expiry: int)
    requires now <= later
    ensures forall id :: id in t ==> id !in ExpiredIds(t, t[id].lastPing + expiry, expiry)
    ensures ExpiredIds(t, now, expiry) <= ExpiredIds(t, later, expiry)
  {
  }

  /** In a table whose entries sit under their alerts' fingerprints, each
      "fire" notification carries the labels of the watchdog it names. */
  lemma FireEventsKeyed(t: Table, ids: seq<string>, digest: string -> string)
    requires WellKeyed(t, digest)
    requires forall id :: id in ids ==> id in t
    ensures var events := FireEvents(t, ids);
      forall i :: 0 <= i < |ids| ==> events[i].kind == Fire && WatchdogId(events[i].alert.labels, digest) == ids[i]
  {
  }

  /** One entry after a sweep. */
  function SweepEntry(w: Watchdog, now: int, expiry: int): (v: Watchdog)
  {
    if Expired(w, now, expiry) then w.(firing := true) else w
  }

  /** The table after one sweep: expired entries are marked firing and keep
      everything else; no entry is added or removed; the others are untouched. */
  function SweepTable(t: Table, now: int, expiry: int): (r: Table)
    ensures r.Keys == t.Keys
    ensures forall id :: id in t && !Expired(t[id], now, expiry) ==> r[id] == t[id]
    ensures forall id :: id in t && Expired(t[id], now, expiry) ==>
      && r[id].firing
      && r[id].id == t[id].id && r[id].lastPing == t[id].lastPing && r[id].lastAlert == t[id].lastAlert
  {
    map id | id in t :: SweepEntry(t[id], now, expiry)
  }

  /** The table part-way through a sweep: the entries `visited` are swept. */
  ghost function PartialSweep(t: Table, visited: set<string>, now: int, expiry: int): (u: Table)
  {
    map id | id in t :: if id in visited then SweepEntry(t[id], now, expiry) else t[id]
  }

  /** What holds part-way through a sweep, while `unvisited` remain. */
  ghost predicate Sweeping(
    t: Table, now: int, expiry: int,
    unvisited: set<string>, cache: Table, events: seq<Event>, fired: seq<string>)
  {
    && unvisited <= t.Keys
    && cache == PartialSweep(t, t.Keys - unvisited, now, expiry)
    && Distinct(fired)
    && (forall id :: id in fired <==> id in t && id !in unvisited && Expired(t[id], now, expiry))
    && events == FireEvents(t, fired)
  }

  /** Visiting one more entry keeps `Sweeping`. */
  lemma SweepVisit(
    t: Table, now: int, expiry: int,
    unvisited: set<string>, cache: Table, events: seq<Event>, fired: seq<string>, id: string)
    requires Sweeping(t, now, expiry, unvisited, cache, events, fired)
    requires id in unvisited
    ensures id in cache && cache[id] == t[id]
    ensures var w := cache[id];
      if Expired(w, now, expiry) then
        Sweeping(t, now, expiry, unvisited - {id},
          cache[id := w.(firing := true)], events + [Event(Fire, w.lastAlert)], fired + [id])
      else
        Sweeping(t, now, expiry, unvisited - {id}, cache, events, fired)
  {
    var w := cache[id];
    var next := PartialSweep(t, t.Keys - (unvisited - {id}), now, expiry);
    if Expired(w, now, expiry) {
      assert next == cache[id := w.(firing := true)];
      assert (fired + [id])[..|fired|] == fired;
    } else {
      assert next == cache;
    }
  }

  /** A sweep that has visited every entry has swept the table, keeps every
      entry under the fingerprint of its stored alert, and has sent one "fire"
      notification per expired entry, carrying that watchdog's labels. */
  lemma SweepFinished(
    t: Table, now: int, expiry: int, cache: Table, events: seq<Event>, fired: seq<string>,
    digest: string -> string)
    requires Sweeping(t, now, expiry, {}, cache, events, fired)
    requires WellKeyed(t, digest)
    ensures cache == SweepTable(t, now, expiry)
    ensures WellKeyed(cache, digest)
    ensures Distinct(fired)
    ensures forall id :: id in fired <==> id in ExpiredIds(t, now, expiry)
    ensures events == FireEvents(t, fired)
    ensures forall i :: 0 <= i < |fired| ==>
      events[i].kind == Fire && WatchdogId(events[i].alert.labels, digest) == fired[i]
  {
    assert t.Keys - {} == t.Keys;
    SweepDone(t, now, expiry);
    forall id | id in cache
      ensures cache[id].id == id && WatchdogId(cache[id].lastAlert.labels, digest) == id
    {
      assert cache[id].lastAlert == t[id].lastAlert;
    }
    FireEventsKeyed(t, fired, digest);
  }

  /** The table part-way through a sweep, once every entry is visited. */
  lemma SweepDone(t: Table, now: int, expiry: int)
    ensures PartialSweep(t, t.Keys, now, expiry) == SweepTable(t, now, expiry)
  {
  }

  /** A later sweep with no ping in between fires only entries that had not
      yet expired at the earlier one: nothing fires twice. */
  lemma SweepAgain(t: Table, now: int, later: int, expiry: int)
    ensures ExpiredIds(SweepTable(t, now, expiry), later, expiry)
         == ExpiredIds(t, later, expiry) - ExpiredIds(t, now, expiry)
  {
  }

  /** Sweeps at each of `times`, in order, with no ping in between. */
  function Sweeps(t: Table, times: seq<int>, expiry: int): (u: Table)
    decreases |times|
  {
    if times == [] then t
    else Sweeps(SweepTable(t, times[0], expiry), times[1..], expiry)
  }

  /** How many of those sweeps fire the entry `id`. */
  function FireCount(t: Table, times: seq<int>, expiry: int, id: string): (n: nat)
    decreases |times|
  {
    if times == [] then 0
    else
      (if id in ExpiredIds(t, times[0], expiry) then 1 else 0)
      + FireCount(SweepTable(t, times[0], expiry), times[1..], expiry, id)
  }

  /** Some sweep time lies more than `expiry` after `lastPing`. */
  ghost predicate Overdue(times: seq<int>, lastPing: int, expiry: int)
  {
    exists i :: 0 <= i < |times| && times[i] - lastPing > expiry
  }

  /** One silence yields at most one "fire" notification for an entry, and
      exactly one when the entry was not firing and some sweep came more than
      `expiry` after its last ping; the entry's ping time and stored alert
      never change, and it ends up firing exactly then or if it already was. */
  lemma {:induction false} SilenceFiresOnce(t: Table, times: seq<int>, expiry: int, id: string)
    requires id in t
    ensures var u := Sweeps(t, times, expiry);
      && id in u
      && u[id].id == t[id].id && u[id].lastPing == t[id].lastPing && u[id].lastAlert == t[id].lastAlert
      && u[id].firing == (t[id].firing || Overdue(times, t[id].lastPing, expiry))
      && FireCount(t, times, expiry, id)
         == if !t[id].firing && Overdue(times, t[id].lastPing, expiry) then 1 else 0
    decreases |times|
  {
    if times != [] {
      var lastPing := t[id].lastPing;
      var rest := times[1..];
      SilenceFiresOnce(SweepTable(t, times[0], expiry), rest, expiry, id);
      if Overdue(times, lastPing, expiry) {
        var i :| 0 <= i < |times| && times[i] - lastPing > expiry;
        if i > 0 {
          assert rest[i - 1] == times[i];
        }
      }
      if Overdue(rest, lastPing, expiry) {
        var j :| 0 <= j < |rest| && rest[j] - lastPing > expiry;
        assert times[j + 1] == rest[j];
      }
    }
  }

  /** A ping, a silence, then a ping: the second ping recovers exactly when
      the silence fired, once, and the "recover" notification carries the
      alert stored at the entry's first sighting. */
  lemma SilenceThenPing(
    t: Table, id: string, alert: Alert, pinged: int,
    times: seq<int>, expiry: int, later: int, next: Alert)
    ensures var s := Ping(t, id, alert, pinged).table;
            var p := Ping(Sweeps(s, times, expiry), id, next, later);
      && s[id].lastAlert == (if id in t then t[id].lastAlert else alert)
      && FireCount(s, times, expiry, id) == |p.events|
      && |p.events| == (if Overdue(times, pinged, expiry) then 1 else 0)
      && forall e :: e in p.events ==> e == Event(Recover, s[id].lastAlert)
  {
    var s := Ping(t, id, alert, pinged).table;
    SilenceFiresOnce(s, times, expiry, id);
  }
}
