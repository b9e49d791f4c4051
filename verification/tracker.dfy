/**
 * The shared watchdog cache and the two code paths that change it: the
 * watchdog webhook handler (one batch of alerts at a time) and one tick of
 * the expiry timer. Each notification the real code renders and sends to
 * Keybase is returned here as an `Event`; the clock is the parameter `now`.
 */
module Tracker {
  import opened Alerts
  import opened Fingerprints
  import opened Watchdogs

  class WatchdogCache {
    /** `watchdogCache`. */
    var cache: Table
    /** SHA-256 of the written bytes, hex-encoded. */
    const digest: string -> string

    ghost predicate Valid()
      reads this
    {
      WellKeyed(cache, digest)
    }

    /** The empty cache the program starts with. */
    constructor (digest: string -> string)
      ensures Valid()
      ensures cache == map[] && this.digest == digest
    {
      cache := map[];
      this.digest := digest;
    }

    /** The body of the handler's loop for one firing alert: fingerprint
        its labels, then create the entry or refresh it, sending "recover"
        if it was firing. */
    method Observe(alert: Alert, now: int) returns (events: seq<Event>)
      requires Valid()
      modifies this
      ensures Valid()
      ensures Step(cache, events) == Ping(old(cache), WatchdogId(alert.labels, digest), alert, now)
    {
      var id := Fingerprint(alert.labels, digest);
      events := [];
      if id in cache {
        var entry := cache[id];
        if entry.firing {
          events := [Event(Recover, entry.lastAlert)];
        }
        entry := entry.(firing := false, lastPing := now);
        cache := cache[id := entry];
      } else {
        cache := cache[id := Watchdog(id, now, alert, false)];
      }
    }

    /** The watchdog handler for one webhook batch: only the firing alerts
        are processed, in order; the result holds the "recover"
        notifications, in the order they are sent. */
    method Upsert(batch: seq<Alert>, now: int) returns (events: seq<Event>)
      requires Valid()
      modifies this
      ensures Valid()
      ensures var s := PingAll(old(cache), IdsOf(Firing(batch), digest), Firing(batch), now);
        cache == s.table && events == s.events
      ensures var r := Recovered(old(cache), IdsOf(Firing(batch), digest));
        && |events| == |r|
        && forall i :: 0 <= i < |r| ==>
             events[i].kind == Recover && WatchdogId(events[i].alert.labels, digest) == r[i]
    {
      var alerts := Firing(batch);
      ghost var ids := IdsOf(alerts, digest);
      ghost var initial := cache;
      events := [];
      for i := 0 to |alerts|
        invariant Valid()
        invariant Step(cache, events) == PingAll(initial, ids[..i], alerts[..i], now)
      {
        var recovered := Observe(alerts[i], now);
        events := events + recovered;
        PingAllPrefix(initial, ids, alerts, i, now);
      }
      PingAllWhole(initial, ids, alerts, now);
      PingAllRecoversKeyed(initial, alerts, now, digest);
    }

    /** One tick of the expiry timer: every entry that is not firing and has
        been silent for longer than `expiry` is marked firing and yields one
        "fire" notification with its stored alert. The entries are visited in
        the map's iteration order, which nothing here fixes; `fired` lists
        the IDs in the order of the notifications. */
    method Sweep(now: int, expiry: int) returns (events: seq<Event>, ghost fired: seq<string>)
      requires Valid()
      modifies this
      ensures Valid()
      ensures cache == SweepTable(old(cache), now, expiry)
      ensures Distinct(fired)
      ensures forall id :: id in fired <==> id in ExpiredIds(old(cache), now, expiry)
      ensures events == FireEvents(old(cache), fired)
      ensures forall i :: 0 <= i < |fired| ==>
        events[i].kind == Fire && WatchdogId(events[i].alert.labels, digest) == fired[i]
    {
      ghost var initial := cache;
      var unvisited := cache.Keys;
      events, fired := [], [];
      while unvisited != {}
        invariant Sweeping(initial, now, expiry, unvisited, cache, events, fired)
        decreases unvisited
      {
        var id :| id in unvisited;
        SweepVisit(initial, now, expiry, unvisited, cache, events, fired, id);
        var entry := cache[id];
        if !entry.firing && now - entry.lastPing > expiry {
          entry := entry.(firing := true);
          cache := cache[id := entry];
          events := events + [Event(Fire, entry.lastAlert)];
          fired := fired + [id];
        }
        unvisited := unvisited - {id};
      }
      SweepFinished(initial, now, expiry, cache, events, fired, digest);
    }
  }
}
