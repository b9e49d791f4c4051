/**
 * Watchdog identities. The handler visits the label names of an alert in
 * the order of Alertmanager's `KV.SortedPairs` (the `alertname` label first,
 * every other name in ascending byte order), writes `name:value` for each
 * into a SHA-256 state and hex-encodes the digest.
 *
 * The digest (SHA-256 followed by hex encoding) is a parameter `digest`:
 * nothing here depends on what it computes.
 */
module Fingerprints {
  import opened Alerts

  /** The label that `KV.SortedPairs` puts in front of all others. */
  const AlertName: string := "alertname"

  /** Lexicographic order on strings, comparing characters by code point.
      On UTF-8 encoded strings this is Go's byte-wise string order. */
  predicate LexLess(a: string, b: string)
  {
    if a == [] then b != []
    else if b == [] then false
    else if a[0] != b[0] then a[0] < b[0]
    else LexLess(a[1..], b[1..])
  }

  lemma {:induction false} LexIrreflexive(a: string)
    ensures !LexLess(a, a)
  {
    if a != [] {
      LexIrreflexive(a[1..]);
    }
  }

  lemma {:induction false} LexTransitive(a: string, b: string, c: string)
    requires LexLess(a, b) && LexLess(b, c)
    ensures LexLess(a, c)
  {
    if a != [] && a[0] == b[0] && b[0] == c[0] {
      LexTransitive(a[1..], b[1..], c[1..]);
    }
  }

  lemma {:induction false} LexTotal(a: string, b: string)
    requires a != b
    ensures LexLess(a, b) || LexLess(b, a)
  {
    if a != [] && b != [] && a[0] == b[0] {
      assert a == [a[0]] + a[1..];
      assert b == [b[0]] + b[1..];
      LexTotal(a[1..], b[1..]);
    }
  }

  /** The order in which `KV.SortedPairs` lists label names. */
  predicate Before(a: string, b: string)
  {
    if a == AlertName then b != AlertName
    else if b == AlertName then false
    else LexLess(a, b)
  }

  lemma BeforeIrreflexive(a: string)
    ensures !Before(a, a)
  {
    LexIrreflexive(a);
  }

  lemma BeforeTransitive(a: string, b: string, c: string)
    requires Before(a, b) && Before(b, c)
    ensures Before(a, c)
  {
    if a != AlertName {
      LexTransitive(a, b, c);
    }
  }

  lemma BeforeTotal(a: string, b: string)
    requires a != b
    ensures Before(a, b) || Before(b, a)
  {
    if a != AlertName && b != AlertName {
      LexTotal(a, b);
    }
  }

  lemma BeforeAsymmetric(a: string, b: string)
    ensures !(Before(a, b) && Before(b, a))
  {
    if Before(a, b) && Before(b, a) {
      BeforeTransitive(a, b, a);
      BeforeIrreflexive(a);
    }
  }

  /** Every name comes before every later one (so no name repeats). */
  predicate StrictlyOrdered(names: seq<string>)
  {
    forall i, j :: 0 <= i < j < |names| ==> Before(names[i], names[j])
  }

  /** `names` lists the label names `keys` in the order of `KV.SortedPairs`. */
  ghost predicate IsCanonical(names: seq<string>, keys: set<string>)
  {
    StrictlyOrdered(names) && forall k :: k in names <==> k in keys
  }

  lemma PrependOrdered(x: string, s: seq<string>)
    requires StrictlyOrdered(s)
    requires forall y :: y in s ==> Before(x, y)
    ensures StrictlyOrdered([x] + s)
  {
  }

  lemma HeadBeforeAll(x: string, s: seq<string>)
    requires StrictlyOrdered(s) && s != [] && Before(x, s[0])
    ensures forall y :: y in s ==> Before(x, y)
  {
    forall y | y in s
      ensures Before(x, y)
    {
      var j :| 0 <= j < |s| && s[j] == y;
      if j > 0 {
        BeforeTransitive(x, s[0], y);
      }
    }
  }

  /** Puts `k` at its place in an ordered list of names. */
  function Insert(s: seq<string>, k: string): (r: seq<string>)
    requires StrictlyOrdered(s)
    ensures StrictlyOrdered(r)
    ensures forall x :: x in r <==> x in s || x == k
    decreases |s|
  {
    if s == [] then [k]
    else if s[0] == k then s
    else if Before(k, s[0]) then
      HeadBeforeAll(k, s);
      PrependOrdered(k, s);
      [k] + s
    else
      BeforeTotal(k, s[0]);
      var rest := Insert(s[1..], k);
      assert s == [s[0]] + s[1..];
      PrependOrdered(s[0], rest);
      [s[0]] + rest
  }

  /** The first name of a canonical listing comes before every other name. */
  lemma HeadIsLeast(names: seq<string>, keys: set<string>)
    requires IsCanonical(names, keys) && names != []
    ensures forall k :: k in keys && k != names[0] ==> Before(names[0], k)
  {
    forall k | k in keys && k != names[0]
      ensures Before(names[0], k)
    {
      var j :| 0 <= j < |names| && names[j] == k;
    }
  }

  lemma TailCanonical(names: seq<string>, keys: set<string>)
    requires IsCanonical(names, keys) && names != []
    ensures IsCanonical(names[1..], keys - {names[0]})
  {
    forall k | k in names[1..]
      ensures k != names[0]
    {
      var j :| 1 <= j < |names| && names[j] == k;
      BeforeIrreflexive(k);
    }
    forall k | k in keys && k != names[0]
      ensures k in names[1..]
    {
      var j :| 0 <= j < |names| && names[j] == k;
      assert names[1..][j - 1] == k;
    }
  }

  /** A canonical listing names every label exactly once. */
  lemma {:induction false} CanonicalLength(names: seq<string>, keys: set<string>)
    requires IsCanonical(names, keys)
    ensures |names| == |keys|
    decreases |names|
  {
    if names == [] {
      assert forall k :: k !in keys;
      assert keys == {};
    } else {
      TailCanonical(names, keys);
      CanonicalLength(names[1..], keys - {names[0]});
    }
  }

  /** There is only one canonical listing of a set of label names: the hash
      input cannot depend on the order in which Go's map iteration yields
      the names. */
  lemma {:induction false} CanonicalUnique(a: seq<string>, b: seq<string>, keys: set<string>)
    requires IsCanonical(a, keys) && IsCanonical(b, keys)
    ensures a == b
    decreases |a|
  {
    CanonicalLength(a, keys);
    CanonicalLength(b, keys);
    if a != [] {
      HeadIsLeast(a, keys);
      HeadIsLeast(b, keys);
      BeforeAsymmetric(a[0], b[0]);
      assert a[0] == b[0];
      TailCanonical(a, keys);
      TailCanonical(b, keys);
      CanonicalUnique(a[1..], b[1..], keys - {a[0]});
      assert a == [a[0]] + a[1..];
      assert b == [b[0]] + b[1..];
    }
  }

  /** The canonical listing of a set of label names. */
  ghost function SortedNames(keys: set<string>): (names: seq<string>)
    ensures IsCanonical(names, keys)
    decreases keys
  {
    if keys == {} then []
    else
      var k :| k in keys;
      Insert(SortedNames(keys - {k}), k)
  }

  /** `alert.Labels.SortedPairs().Names()`: visits the names in whatever
      order the map yields them and returns them in canonical order. */
  method SortNames(labels: Labels) returns (names: seq<string>)
    ensures names == SortedNames(labels.Keys)
  {
    names := [];
    var unvisited := labels.Keys;
    while unvisited != {}
      invariant unvisited <= labels.Keys
      invariant StrictlyOrdered(names)
      invariant forall k :: k in names <==> k in labels.Keys && k !in unvisited
      decreases unvisited
    {
      var k :| k in unvisited;
      names := Insert(names, k);
      unvisited := unvisited - {k};
    }
    CanonicalUnique(names, SortedNames(labels.Keys), labels.Keys);
  }

  /** What one `hash.Write` call adds for a label: `fmt.Sprintf("%s:%s", k, v)`,
      the name, a colon, then the value. */
  function Pair(name: string, value: string): (w: string)
    ensures |w| == |name| + 1 + |value|
    ensures w[..|name|] == name && w[|name|] == ':' && w[|name| + 1..] == value
  {
    name + ":" + value
  }

  /** Everything written into the hash state for the names `names`, in order,
      with no separator between two pairs. */
  function Preimage(names: seq<string>, labels: Labels): (w: string)
    requires forall k :: k in names ==> k in labels
  {
    if names == [] then ""
    else
      var last := names[|names| - 1];
      Preimage(names[..|names| - 1], labels) + Pair(last, labels[last])
  }

  /** Writing one more pair appends it to what was written. */
  lemma PreimageStep(names: seq<string>, labels: Labels, i: nat)
    requires forall k :: k in names ==> k in labels
    requires i < |names|
    ensures Preimage(names[..i + 1], labels) == Preimage(names[..i], labels) + Pair(names[i], labels[names[i]])
  {
    assert names[..i + 1][..i] == names[..i];
  }

  /** The bytes written for a listing are those written for any split of it,
      one part after the other: a sequence of `hash.Write` calls hashes the
      concatenation of what they write. */
  lemma {:induction false} PreimageConcat(a: seq<string>, b: seq<string>, labels: Labels)
    requires forall k :: k in a ==> k in labels
    requires forall k :: k in b ==> k in labels
    ensures Preimage(a + b, labels) == Preimage(a, labels) + Preimage(b, labels)
    decreases |b|
  {
    if b == [] {
      assert a + b == a;
    } else {
      var n := |b| - 1;
      var init := b[..n];
      var last := b[n];
      var w := Pair(last, labels[last]);
      assert (a + b)[..|a + b| - 1] == a + init && (a + b)[|a + b| - 1] == last;
      assert Preimage(a + b, labels) == Preimage(a + init, labels) + w;
      PreimageConcat(a, init, labels);
      assert Preimage(b, labels) == Preimage(init, labels) + w;
    }
  }

  /** The watchdog ID of a label set: the digest of the canonical preimage.
      Any listing of the names in the order of `KV.SortedPairs` gives it. */
  ghost function WatchdogId(labels: Labels, digest: string -> string): (id: string)
    ensures forall names :: IsCanonical(names, labels.Keys) ==> id == digest(Preimage(names, labels))
  {
    var names := SortedNames(labels.Keys);
    forall other | IsCanonical(other, labels.Keys)
      ensures other == names
    {
      CanonicalUnique(other, names, labels.Keys);
    }
    digest(Preimage(names, labels))
  }

  /** The IDs of a sequence of alerts, position by position. */
  ghost function IdsOf(alerts: seq<Alert>, digest: string -> string): (ids: seq<string>)
    ensures |ids| == |alerts|
    ensures forall i :: 0 <= i < |alerts| ==> ids[i] == WatchdogId(alerts[i].labels, digest)
  {
    seq(|alerts|, i requires 0 <= i < |alerts| => WatchdogId(alerts[i].labels, digest))
  }

  /** The fingerprint loop of the watchdog handler. */
  method Fingerprint(labels: Labels, digest: string -> string) returns (id: string)
    ensures id == WatchdogId(labels, digest)
  {
    var names := SortNames(labels);
    assert IsCanonical(names, labels.Keys);
    var written := "";
    for i := 0 to |names|
      invariant written == Preimage(names[..i], labels)
    {
      var k := names[i];
      PreimageStep(names, labels, i);
      written := written + Pair(k, labels[k]);
    }
    assert names[..|names|] == names;
    id := digest(written);
  }

  /** Two different label sets share one preimage, so one watchdog ID:
      `{a: "1", b: "2"}` and `{a: "1b:2"}` are both hashed as "a:1b:2". */
  lemma PreimageCollision(digest: string -> string)
    ensures map["a" := "1", "b" := "2"] != map["a" := "1b:2"]
    ensures WatchdogId(map["a" := "1", "b" := "2"], digest)
         == WatchdogId(map["a" := "1b:2"], digest)
  {
    var two := map["a" := "1", "b" := "2"];
    var one := map["a" := "1b:2"];
    assert "b" in two && "b" !in one;
    TwoLabelsListing(two);
    assert IsCanonical(["a"], one.Keys);
    assert Preimage(["a", "b"], two) == "a:1b:2" by {
      assert ["a", "b"][..1] == ["a"];
      assert ["a"][..0] == [];
    }
    assert Preimage(["a"], one) == "a:1b:2" by {
      assert ["a"][..0] == [];
    }
  }

  /** The canonical listing of the labels `a` and `b`. */
  lemma TwoLabelsListing(labels: Labels)
    requires labels.Keys == {"a", "b"}
    ensures IsCanonical(["a", "b"], labels.Keys)
  {
    assert LexLess("a", "b");
  }
}
