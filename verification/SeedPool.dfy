/** A deterministic pool of distinct seeds: each digest takes the next free value, wrapping at the end. */
module SeedPool {
  import opened Collections

  const RANGE: nat := 0x1_0000_0000_0000_0000

  function Below(n: nat): (values: set<nat>)
    ensures forall value: nat :: value in values <==> value < n
    ensures |values| == n
  {
    if n == 0 then {} else Below(n - 1) + {n - 1}
  }

  function Around(digest: nat, distance: nat): nat {
    (digest + distance) % RANGE
  }

  /** The first free value, going up from the digest and around, is that far away. */
  ghost predicate FreeFirstAt(used: set<nat>, digest: nat, distance: nat) {
    Around(digest, distance) !in used && forall nearer: nat | nearer < distance :: Around(digest, nearer) in used
  }

  ghost predicate TakesNext(used: set<nat>, digest: nat, value: nat) {
    exists distance: nat :: FreeFirstAt(used, digest, distance) && value == Around(digest, distance)
  }

  lemma SomeMissing(used: set<nat>, n: nat) returns (value: nat)
    requires |used| < n
    ensures value < n && value !in used
  {
    if Below(n) <= used {
      SubsetSize(Below(n), used);
    }
    value :| value in Below(n) && value !in used;
  }

  /** Fewer used values than there are values leave a free one: the pigeonhole behind the search. */
  lemma SomeFree(used: set<nat>, from: nat) returns (distance: nat)
    requires |used| < RANGE && from < RANGE
    ensures Around(from, distance) !in used
  {
    var value := SomeMissing(used, RANGE);
    distance := if value >= from then value - from else value + RANGE - from;
  }

  /** Steps from the digest to the next free value. */
  method NextFree(used: set<nat>, digest: nat) returns (value: nat)
    requires |used| < RANGE && digest < RANGE
    ensures value < RANGE && TakesNext(used, digest, value)
  {
    value := digest;
    ghost var free := SomeFree(used, digest);
    ghost var distance: nat := 0;
    while value in used
      invariant value == Around(digest, distance) && distance <= free
      invariant forall nearer: nat | nearer < distance :: Around(digest, nearer) in used
      decreases free - distance
    {
      value := (value + 1) % RANGE;
      distance := distance + 1;
    }
    assert FreeFirstAt(used, digest, distance);
  }

  function SetOf(values: seq<nat>): set<nat> {
    set value | value in values
  }

  /** Each value is decided by its digest and the values before it. */
  ghost predicate IsPool(digest: nat -> nat, values: seq<nat>) {
    forall k | 0 <= k < |values| :: TakesNext(SetOf(values[..k]), digest(k), values[k])
  }

  lemma ExtendsPool(digest: nat -> nat, values: seq<nat>, value: nat)
    requires IsPool(digest, values) && TakesNext(SetOf(values), digest(|values|), value)
    ensures IsPool(digest, values + [value])
  {
    hide TakesNext;
    var longer := values + [value];
    assert values[..|values|] == values;
    forall k | 0 <= k < |longer| ensures TakesNext(SetOf(longer[..k]), digest(k), longer[k]) {
      assert longer[..k] == values[..k];
    }
  }

  method Values(digest: nat -> nat, count: nat) returns (values: seq<nat>)
    requires count <= RANGE && forall k :: digest(k) < RANGE
    ensures |values| == count && IsPool(digest, values)
    ensures forall value | value in values :: value < RANGE
    ensures forall i, j | 0 <= i < j < count :: values[i] != values[j]
  {
    hide IsPool, TakesNext;
    values := [];
    var used: set<nat> := {};
    assert IsPool(digest, values) by { EmptyPool(digest); }
    for index := 0 to count
      invariant |values| == index && used == SetOf(values) && |used| == index
      invariant IsPool(digest, values)
      invariant forall value | value in values :: value < RANGE
      invariant forall i, j | 0 <= i < j < index :: values[i] != values[j]
    {
      var candidate := NextFree(used, digest(index));
      ExtendsPool(digest, values, candidate);
      NextIsNew(used, digest(index), candidate);
      used := used + {candidate};
      values := values + [candidate];
    }
  }

  lemma EmptyPool(digest: nat -> nat)
    ensures IsPool(digest, [])
  {
  }

  lemma NextIsNew(used: set<nat>, digest: nat, value: nat)
    requires TakesNext(used, digest, value)
    ensures value !in used
  {
  }

  lemma TakenOnce(used: set<nat>, digest: nat, a: nat, b: nat)
    requires TakesNext(used, digest, a) && TakesNext(used, digest, b)
    ensures a == b
  {
    var i: nat :| FreeFirstAt(used, digest, i) && a == Around(digest, i);
    var j: nat :| FreeFirstAt(used, digest, j) && b == Around(digest, j);
    hide Around;
    assert i == j;
  }

  /** Growing a pool never changes the seeds it already had. */
  lemma {:induction false} PoolsAgree(digest: nat -> nat, shorter: seq<nat>, longer: seq<nat>)
    requires IsPool(digest, shorter) && IsPool(digest, longer) && |shorter| <= |longer|
    ensures shorter == longer[..|shorter|]
    decreases |shorter|
  {
    hide TakesNext;
    if shorter != [] {
      var last := |shorter| - 1;
      var front := shorter[..last];
      forall k | 0 <= k < last ensures TakesNext(SetOf(front[..k]), digest(k), front[k]) {
        assert front[..k] == shorter[..k];
      }
      PoolsAgree(digest, front, longer);
      TakenOnce(SetOf(front), digest(last), shorter[last], longer[last]);
    }
  }
}
