/** The anti-replay filter: two pools that change places every interval. */
module ReplayFilter {

  datatype Filter<T> = Filter(poolA: set<T>, poolB: set<T>, interval: nat, lastClean: nat)

  predicate Due<T>(f: Filter<T>, now: nat) { now >= f.lastClean && now - f.lastClean >= f.interval }

  function Rotate<T>(f: Filter<T>, now: nat): Filter<T>
  {
    if Due(f, now) then Filter({}, f.poolA, f.interval, now) else f
  }

  predicate Fresh<T(==)>(f: Filter<T>, v: T) { v !in f.poolA && v !in f.poolB }

  function Check<T(==)>(f: Filter<T>, v: T, now: nat): Filter<T>
  {
    var g := Rotate(f, now);
    if Fresh(g, v) then g.(poolA := g.poolA + {v}) else g
  }

  class ReplayFilter<T(==)> {
    const interval: nat
    var poolA: set<T>
    var poolB: set<T>
    var lastClean: nat

    function State(): Filter<T>
      reads this
    {
      Filter(poolA, poolB, interval, lastClean)
    }

    constructor (interval: nat, now: nat)
      ensures State() == Filter({}, {}, interval, now)
    {
      this.interval, poolA, poolB, lastClean := interval, {}, {}, now;
    }

    method CheckValue(value: T, now: nat) returns (valid: bool)
      modifies this
      ensures State() == Check(old(State()), value, now)
      ensures valid == Fresh(Rotate(old(State()), now), value)
    {
      if now >= lastClean && now - lastClean >= interval {
        poolB := poolA;
        poolA := {};
        lastClean := now;
      }
      if value in poolA || value in poolB {
        return false;
      }
      poolA := poolA + {value};
      return true;
    }
  }

  // ----- whole runs -----

  datatype Query<T> = Query(v: T, now: nat)

  /** The filter after the first n queries. */
  function After<T(==)>(f: Filter<T>, qs: seq<Query<T>>, n: nat): Filter<T>
    requires n <= |qs|
  {
    if n == 0 then f else Check(After(f, qs, n - 1), qs[n - 1].v, qs[n - 1].now)
  }

  /** What query i was answered. */
  predicate Accepted<T(==)>(f: Filter<T>, qs: seq<Query<T>>, i: nat)
    requires i < |qs|
  {
    Fresh(Rotate(After(f, qs, i), qs[i].now), qs[i].v)
  }

  /** Rotations up to and including query i. */
  function Rotations<T(==)>(f: Filter<T>, qs: seq<Query<T>>, i: nat): nat
    requires i < |qs|
  {
    (if i == 0 then 0 else Rotations(f, qs, i - 1)) + if Due(After(f, qs, i), qs[i].now) then 1 else 0
  }

  /** Query i accepted v after r rotations. */
  ghost predicate AcceptedAt<T>(f: Filter<T>, qs: seq<Query<T>>, i: nat, v: T, r: int)
    requires i < |qs|
  {
    qs[i].v == v && Accepted(f, qs, i) && Rotations(f, qs, i) == r
  }

  ghost predicate AcceptedIn<T>(f: Filter<T>, qs: seq<Query<T>>, n: nat, v: T, r: int)
    requires n <= |qs|
  {
    exists i :: 0 <= i < n && AcceptedAt(f, qs, i, v, r)
  }

  ghost function Turns<T>(f: Filter<T>, qs: seq<Query<T>>, n: nat): int
    requires n <= |qs|
  {
    if n == 0 then 0 else Rotations(f, qs, n - 1)
  }

  lemma AcceptedInStep<T>(f: Filter<T>, qs: seq<Query<T>>, n: nat, v: T, r: int)
    requires n < |qs|
    ensures AcceptedIn(f, qs, n + 1, v, r) <==> AcceptedIn(f, qs, n, v, r) || AcceptedAt(f, qs, n, v, r)
  {
    if AcceptedAt(f, qs, n, v, r) {
      assert 0 <= n < n + 1;
    } else if AcceptedIn(f, qs, n + 1, v, r) {
      var i :| 0 <= i < n + 1 && AcceptedAt(f, qs, i, v, r);
      assert i < n;
    }
  }

  lemma {:induction false} RotationsGrow<T>(f: Filter<T>, qs: seq<Query<T>>, i: nat, j: nat)
    requires i <= j < |qs|
    ensures Rotations(f, qs, i) <= Rotations(f, qs, j)
  {
    if i < j { RotationsGrow(f, qs, i, j - 1); }
  }

  lemma NoneYet<T>(f: Filter<T>, qs: seq<Query<T>>, n: nat, v: T, r: int)
    requires n <= |qs| && r > Turns(f, qs, n)
    ensures !AcceptedIn(f, qs, n, v, r)
  {
    forall i | 0 <= i < n
      ensures !AcceptedAt(f, qs, i, v, r)
    {
      RotationsGrow(f, qs, i, n - 1);
    }
  }

  /** Pool A holds what this turn accepted, pool B what the turn before did. */
  lemma {:induction false} PoolsAreTurns<T>(f: Filter<T>, qs: seq<Query<T>>, n: nat, v: T)
    requires f.poolA == {} && f.poolB == {} && n <= |qs|
    ensures v in After(f, qs, n).poolA <==> AcceptedIn(f, qs, n, v, Turns(f, qs, n))
    ensures v in After(f, qs, n).poolB <==> AcceptedIn(f, qs, n, v, Turns(f, qs, n) - 1)
  {
    if n > 0 {
      var k := n - 1;
      var r := Turns(f, qs, n);
      PoolsAreTurns(f, qs, k, v);
      AcceptedInStep(f, qs, k, v, r);
      AcceptedInStep(f, qs, k, v, r - 1);
      if Due(After(f, qs, k), qs[k].now) { NoneYet(f, qs, k, v, r); }
    }
  }

  lemma RejectedByPools<T>(f: Filter<T>, qs: seq<Query<T>>, j: nat)
    requires f.poolA == {} && f.poolB == {} && j < |qs|
    ensures var v, r := qs[j].v, Rotations(f, qs, j);
      !Accepted(f, qs, j) <==> AcceptedIn(f, qs, j, v, r) || AcceptedIn(f, qs, j, v, r - 1)
  {
    PoolsAreTurns(f, qs, j, qs[j].v);
    if Due(After(f, qs, j), qs[j].now) { NoneYet(f, qs, j, qs[j].v, Rotations(f, qs, j)); }
  }

  /** Query i, before j, accepted the value of j, and fewer than two rotations lie between them. */
  ghost predicate Explains<T>(f: Filter<T>, qs: seq<Query<T>>, i: nat, j: nat)
    requires i < j < |qs|
  {
    qs[i].v == qs[j].v && Accepted(f, qs, i) && Rotations(f, qs, j) < Rotations(f, qs, i) + 2
  }

  lemma ExplainedIsIn<T>(f: Filter<T>, qs: seq<Query<T>>, i: nat, j: nat)
    requires i < j < |qs| && Explains(f, qs, i, j)
    ensures var v, r := qs[j].v, Rotations(f, qs, j);
      AcceptedIn(f, qs, j, v, r) || AcceptedIn(f, qs, j, v, r - 1)
  {
    RotationsGrow(f, qs, i, j);
    assert AcceptedAt(f, qs, i, qs[j].v, Rotations(f, qs, i));
  }

  /**
    * A query is turned away exactly when an earlier one accepted the same value less than two
    * rotations ago; in particular a value never seen before is always accepted.
    */
  lemma RejectedIffRecentlyAccepted<T>(f: Filter<T>, qs: seq<Query<T>>, j: nat)
    requires f.poolA == {} && f.poolB == {} && j < |qs|
    ensures !Accepted(f, qs, j) <==> exists i :: 0 <= i < j && Explains(f, qs, i, j)
  {
    RejectedByPools(f, qs, j);
    if i :| 0 <= i < j && Explains(f, qs, i, j) {
      ExplainedIsIn(f, qs, i, j);
    } else if !Accepted(f, qs, j) {
      var r := if AcceptedIn(f, qs, j, qs[j].v, Rotations(f, qs, j)) then Rotations(f, qs, j) else Rotations(f, qs, j) - 1;
      var i :| 0 <= i < j && AcceptedAt(f, qs, i, qs[j].v, r);
      assert Explains(f, qs, i, j);
    }
  }

  /** The clock never runs backwards, from the filter's creation on. */
  ghost predicate ClockForward<T>(f: Filter<T>, qs: seq<Query<T>>)
  {
    && (forall i :: 0 <= i < |qs| ==> f.lastClean <= qs[i].now)
    && (forall i, j :: 0 <= i < j < |qs| ==> qs[i].now <= qs[j].now)
  }

  lemma {:induction false} LastCleanIsPast<T>(f: Filter<T>, qs: seq<Query<T>>, n: nat, t: nat)
    requires n <= |qs| && f.lastClean <= t && forall i :: 0 <= i < n ==> qs[i].now <= t
    ensures After(f, qs, n).lastClean <= t && After(f, qs, n).interval == f.interval
  {
    if n > 0 { LastCleanIsPast(f, qs, n - 1, t); }
  }

  /** Within one interval of query i at most one rotation follows it, and that one not before it. */
  lemma {:induction false} OneRotationPerInterval<T>(f: Filter<T>, qs: seq<Query<T>>, i: nat, j: nat)
    requires ClockForward(f, qs) && i <= j < |qs| && qs[j].now - qs[i].now < f.interval
    ensures Rotations(f, qs, j) <= Rotations(f, qs, i) + 1
    ensures Rotations(f, qs, j) == Rotations(f, qs, i) + 1 ==> After(f, qs, j + 1).lastClean >= qs[i].now
  {
    if i < j {
      OneRotationPerInterval(f, qs, i, j - 1);
      LastCleanIsPast(f, qs, j, qs[j].now);
    }
  }

  /** A value accepted at t is rejected at every later t' with t' - t below the interval. */
  lemma ReplayWithinIntervalIsRejected<T>(f: Filter<T>, qs: seq<Query<T>>, i: nat, j: nat)
    requires f.poolA == {} && f.poolB == {} && ClockForward(f, qs)
    requires i < j < |qs| && qs[i].v == qs[j].v && Accepted(f, qs, i)
    requires qs[j].now - qs[i].now < f.interval
    ensures !Accepted(f, qs, j)
  {
    OneRotationPerInterval(f, qs, i, j);
    assert Explains(f, qs, i, j);
    RejectedIffRecentlyAccepted(f, qs, j);
  }
}
