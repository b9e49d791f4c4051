/**
 * The Alertmanager alert payload as the watchdog handler sees it, and the
 * filter that keeps the alerts of a webhook batch that are currently firing.
 */
module Alerts {

  /** A label or annotation set: Go's `template.KV`, a map from name to value. */
  type Labels = map<string, string>

  /** One alert of a webhook message (Alertmanager's `template.Alert`).
      Timestamps are integers in one common unit. */
  datatype Alert = Alert(
    status: string,
    labels: Labels,
    annotations: Labels,
    startsAt: int,
    endsAt: int,
    generatorURL: string,
    fingerprint: string)

  /** The status value Alertmanager gives an alert that is currently firing. */
  const StatusFiring: string := "firing"

  predicate IsFiring(a: Alert)
  {
    a.status == StatusFiring
  }

  /** `Alerts.Firing()`: the alerts of the batch whose status is "firing",
      in their order. */
  function Firing(alerts: seq<Alert>): (r: seq<Alert>)
    ensures |r| <= |alerts|
    ensures forall a :: a in r ==> IsFiring(a)
  {
    if alerts == [] then []
    else if IsFiring(alerts[0]) then [alerts[0]] + Firing(alerts[1..])
    else Firing(alerts[1..])
  }

  /** `Firing` keeps every firing alert of the batch, as often as it occurs
      there, and drops every other one. */
  lemma {:induction false} FiringContents(alerts: seq<Alert>)
    ensures forall a :: multiset(Firing(alerts))[a] == if IsFiring(a) then multiset(alerts)[a] else 0
  {
    if alerts != [] {
      FiringContents(alerts[1..]);
      assert alerts == [alerts[0]] + alerts[1..];
    }
  }

  /** `Firing` keeps the batch order: the firing alerts of two consecutive
      parts of a batch are those of the first part, then those of the second. */
  lemma {:induction false} FiringAppend(a: seq<Alert>, b: seq<Alert>)
    ensures Firing(a + b) == Firing(a) + Firing(b)
    decreases |a|
  {
    if a != [] {
      assert (a + b)[1..] == a[1..] + b;
      FiringAppend(a[1..], b);
    } else {
      assert a + b == b;
    }
  }

  /** A batch without a firing alert leaves nothing to process. */
  lemma NoFiringAlerts(alerts: seq<Alert>)
    requires forall a :: a in alerts ==> !IsFiring(a)
    ensures Firing(alerts) == []
  {
    var r := Firing(alerts);
    FiringContents(alerts);
    forall a
      ensures multiset(r)[a] == 0
    {
      if IsFiring(a) {
        assert a !in alerts;
      }
    }
    assert multiset(r) == multiset{};
  }
}
