# Dead-man's-switch watchdog tracker of keybase-alertmanager

keybase-alertmanager receives Alertmanager webhooks and relays them to a
Keybase chat. Its `/watchdog` endpoint turns an alert that is expected to
fire all the time (a "Watchdog" or dead-man's-switch alert) into a
notification when it stops arriving. This project models that tracker in
Dafny:

- `alerts.dfy` (module `Alerts`): the Alertmanager alert record and the
  `Firing()` filter that the handler applies to each webhook batch.
- `fingerprints.dfy` (module `Fingerprints`): the watchdog ID. The handler
  visits the label names in the order of Alertmanager's `KV.SortedPairs`:
  `alertname` first, every other name in ascending byte order. It writes
  `name:value` for each label into a SHA-256 state and hex-encodes the sum.
  The model sorts the names in whatever order the map yields them. It proves
  that exactly one canonical listing exists, so the ID does not depend on
  that order.
- `watchdogs.dfy` (module `Watchdogs`): the `watchdog` record, the table
  `watchdogCache` as a value, and the notifications as `Event` values. It
  also holds what one ping, one batch, one sweep and a run of sweeps do, with
  the lemmas about them.
- `tracker.dfy` (module `Tracker`): class `WatchdogCache`, holding the map
  that the handler and the ticker update in place. `Upsert` is the
  handler's loop over a batch; `Observe` is one pass of its body; `Sweep` is
  one tick of the expiry timer. Each is proved against the value-level
  functions of `Watchdogs`.

Each entry is a two-state machine. An unseen ID creates an entry that is
not firing. A ping of a known ID clears `firing` and sets `lastPing`. If
the entry was firing, the ping sends one "recover" notification. A sweep
marks every non-firing entry whose silence is strictly longer than the
expiry as firing, and sends one "fire" notification for it. Both
notifications carry `lastAlert`. The code never rewrites `lastAlert` after
the first sighting of an ID, so that is always the alert from the first
sighting.

Where the code and a design reading of it differ, the model follows the
code:

- A repeat ping refreshes only `firing` and `lastPing`. It does not refresh
  `lastAlert`.
- Label pairs are hashed with no separator between them. Two different
  label sets can therefore share an ID; `Fingerprints.PreimageCollision`
  shows one such pair.
- The label order puts `alertname` first, not in its alphabetical place.
- The map is shared by the ticker goroutine and the HTTP handlers without a
  lock. The model treats `Upsert` and `Sweep` as sequential operations.

Inputs the model takes as parameters:

- The clock: `now` is an integer parameter. Timestamps and durations share
  one unit.
- The digest: SHA-256 followed by hex encoding is the parameter `digest`,
  held in the class's `digest` constant. Nothing is assumed about it.
- Go's map iteration order: a nondeterministic choice (`:|`), both in
  `KV.SortedPairs` and in the sweep.

## Model

| member | source | states |
|---|---|---|
| `Alerts.Firing` | main.go:99 | Only alerts whose status is "firing" are processed; none of the result is anything else and it is no longer than the batch |
| `Alerts.FiringAppend` | main.go:99 | The filter keeps batch order: the firing alerts of two consecutive parts of a batch are those of the first part followed by those of the second; with `FiringContents` this fixes the result exactly |
| `Alerts.FiringContents` | main.go:99 | Every firing alert of the batch is kept as often as it occurs, every other alert is dropped |
| `Alerts.NoFiringAlerts` | main.go:99-100 | A batch with no firing alert gives the handler's loop nothing to iterate over |
| `Fingerprints.SortedNames` | main.go:103 | There is a canonical listing of any set of label names: `alertname` first, the rest in ascending byte order, each name once |
| `Fingerprints.CanonicalUnique` | main.go:103 | Two canonical listings of the same names are equal, so the names' order cannot depend on map iteration order |
| `Fingerprints.SortNames` | main.go:103 | Visiting the label names in any order, `SortedPairs().Names()` returns the one canonical listing |
| `Fingerprints.Pair` | main.go:105 | One `hash.Write` writes the name, one colon, then the value, and nothing else |
| `Fingerprints.PreimageConcat` | main.go:103-106 | The bytes written for a listing of names are the bytes written for any split of it, one part after the other, with no separator between pairs |
| `Fingerprints.WatchdogId` | main.go:102-108 | The watchdog ID is the digest of the bytes written for any listing of the label names in `KV.SortedPairs` order, so it cannot depend on the order in which Go's map iteration yields the names |
| `Fingerprints.Fingerprint` | main.go:102-108 | The loop writing `name:value` per label in canonical order yields exactly the digest of the canonical preimage |
| `Fingerprints.PreimageCollision` | main.go:105 | `{a:"1", b:"2"}` and `{a:"1b:2"}` are different label sets with the same ID, for every digest, because pairs are written without a separator |
| `Watchdogs.Ping` | main.go:112-141 | An unseen ID gets a non-firing entry with `lastPing = now`, the incoming alert and no event; a known ID keeps its `id` and `lastAlert`, gets `firing = false`, `lastPing = now`, and one recover event carrying the stored alert exactly when it was firing; no other entry changes and none is removed |
| `Watchdogs.PingAll` | main.go:100-142 | The handler's loop over a batch, alert by alert; each alert sends at most one notification |
| `Watchdogs.NoFiringNoChange` | main.go:99-100 | A batch with no firing alert leaves the table unchanged and sends nothing |
| `Watchdogs.PingAllKeys` | main.go:112-141 | After a batch the table holds exactly the old IDs plus the IDs of the batch |
| `Watchdogs.PingAllUntouched` | main.go:112-141 | Entries whose ID is not in the batch are unchanged |
| `Watchdogs.PingAllRefreshes` | main.go:130-132 | Every pinged entry ends not firing with `lastPing = now`; an entry that existed keeps its `id` and `lastAlert` |
| `Watchdogs.PingAllFirstSighting` | main.go:134-141 | A new ID stores the alert of its first occurrence in the batch, under its own ID |
| `Watchdogs.Recovered` | main.go:116 | The IDs that recover in a batch are exactly those of the batch whose entry was firing before it, each listed once, in the order of their first occurrence in the batch |
| `Watchdogs.PingAllRecovers` | main.go:116-128 | A batch sends exactly one recover event per ID that was firing, however often the ID repeats, each carrying the stored `lastAlert`, not the incoming alert |
| `Watchdogs.PingAllRecoversKeyed` | main.go:116-121 | In a table whose entries sit under their alerts' fingerprints, the i-th "recover" notification of a batch carries the labels whose fingerprint is the i-th recovered ID |
| `Watchdogs.PingAllWellKeyed` | main.go:130-140 | A batch keeps every entry under its own ID, and that ID is the fingerprint of the labels of the alert the entry stores |
| `Watchdogs.FireEvents` | main.go:199-207 | The fire notifications of a sweep, one per fired ID in order, each carrying that entry's stored alert |
| `Watchdogs.FireEventsKeyed` | main.go:199-200 | In a table whose entries sit under their alerts' fingerprints, each "fire" notification carries the labels whose fingerprint is the ID it was sent for |
| `Watchdogs.ExpiryThreshold` | main.go:193 | The silence test is strict: an entry silent for exactly `expiry` has not expired; and an entry that has expired stays expired at every later sweep time while nobody pings it |
| `Watchdogs.SweepTable` | main.go:192-197 | A sweep sets `firing` on expired entries (not firing and `now - lastPing > expiry`, strictly) and changes nothing else in them; other entries are untouched; no entry is added or removed |
| `Watchdogs.SweepAgain` | main.go:193 | A later sweep with no ping in between fires only entries that had not expired at the earlier one; with the same time it fires nothing |
| `Watchdogs.SilenceFiresOnce` | main.go:192-200 | Over any run of sweeps with no ping, an entry fires at most once, and exactly once when it was not firing and some sweep came more than `expiry` after its last ping; `lastPing`, `id` and `lastAlert` never change |
| `Watchdogs.SilenceThenPing` | main.go:116-132 | Ping, silence, ping: the second ping sends exactly one recover event when the silence fired the entry, none otherwise, and it carries the alert of the entry's first sighting |
| `Tracker.WatchdogCache.constructor` | main.go:24 | The cache starts empty |
| `Tracker.WatchdogCache.Observe` | main.go:102-141 | One pass of the handler's loop body changes the cache and sends events exactly as `Watchdogs.Ping` on the alert's fingerprint |
| `Tracker.WatchdogCache.Upsert` | main.go:99-142 | The handler's loop over the firing alerts of a batch leaves the cache and the recover events of `Watchdogs.PingAll`; it keeps every entry under its alert's fingerprint, and its i-th notification is a "recover" carrying the labels of the i-th recovered watchdog |
| `Tracker.WatchdogCache.Sweep` | main.go:192-209 | One timer tick leaves the cache of `Watchdogs.SweepTable` and returns one fire event per expired entry, each with its stored alert, each ID once, in an order nothing fixes; the i-th notification is a "fire" carrying the labels of the i-th fired watchdog |

## Left out

- HTTP handling, body reading and JSON decoding (main.go:53-97): plumbing over library types. The model starts from a decoded batch of alerts.
- Template rendering and the template helpers (main.go:34-51, 74, 120, 200): a notification is an `Event` value (template kind plus alert).
- Delivery to Keybase (main.go:77, 125, 205), flag parsing and process startup (main.go:147-183, 216-220): foreign calls and I/O. The model neither sends nor logs, and a failed send changes nothing in the code either.
- Concurrency: the ticker goroutine and the HTTP handlers share `watchdogCache` without a lock (main.go:186-213). Interleavings are not modelled and no race-freedom is claimed.
- SHA-256 and hex encoding: the parameter `digest`. No injectivity or collision resistance is assumed or claimed. Strings are `seq<char>` rather than UTF-8 bytes; code-point order agrees with Go's byte order on UTF-8.
- Alertmanager's `KV.SortedPairs` and `Alerts.Firing`: library code, not part of this model. Each is modelled from its behaviour: the name order and the status filter.
- Tracker.WatchdogCache.Upsert: uses one `now` for the whole batch, while the code reads `time.Now()` anew for each alert (main.go:131, 137).
- Tracker.WatchdogCache.Sweep: uses one `now` for the whole tick, while the code reads `time.Now()` for each entry (main.go:193). It also does not model the saturation of `time.Time.Sub` at the limits of a 64-bit nanosecond `Duration`.
- Monotonic `lastPing`: the model does not assume the clock only moves forward, so no lemma claims `lastPing` never decreases.
- Eviction: the code never deletes an entry, and neither does the model. Every operation's contract keeps all existing keys.
- `main_test.go`: it only marshals a library message to JSON; there is no tracker logic in it.
