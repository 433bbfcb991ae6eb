/** The LRU cache: a map and the list of its keys, least recently used first. */
module LruCache {
  import opened Bytes

  datatype Lru<K, V> = Lru(capacity: nat, m: map<K, V>, order: seq<K>)

  /** `s` with every `k` taken out. */
  function Without<K(==, !new)>(s: seq<K>, k: K): (r: seq<K>)
    ensures forall x :: x in r <==> x in s && x != k
  {
    if s == [] then [] else (if s[0] == k then [] else [s[0]]) + Without(s[1..], k)
  }

  function Touch<K(==, !new)>(s: seq<K>, k: K): seq<K> { Without(s, k) + [k] }

  function Get<K(==, !new), V>(c: Lru<K, V>, k: K): Lru<K, V>
  {
    if k in c.m then c.(order := Touch(c.order, k)) else c
  }

  function Put<K(==, !new), V>(c: Lru<K, V>, k: K, v: V): Lru<K, V>
  {
    if k in c.m then c.(m := c.m[k := v], order := Touch(c.order, k))
    else if |c.order| >= c.capacity && c.order != [] then
      c.(m := (c.m - {c.order[0]})[k := v], order := c.order[1..] + [k])
    else c.(m := c.m[k := v], order := c.order + [k])
  }

  ghost predicate Distinct<K>(s: seq<K>)
  {
    forall i, j :: 0 <= i < j < |s| ==> s[i] != s[j]
  }

  /** `order` lists the keys of the map, each once. */
  ghost predicate Valid<K(!new), V>(c: Lru<K, V>)
  {
    Distinct(c.order) && forall k :: k in c.m <==> k in c.order
  }

  lemma {:induction false} RemoveAt<K(!new)>(s: seq<K>, i: nat)
    requires i < |s| && Distinct(s)
    ensures s[..i] + s[i + 1..] == Without(s, s[i])
    decreases |s|
  {
    if i == 0 {
      WithoutAbsent(s[1..], s[0]);
      assert s[..0] + s[1..] == s[1..];
    } else {
      RemoveAt(s[1..], i - 1);
      assert s[..i] + s[i + 1..] == [s[0]] + (s[1..][..i - 1] + s[1..][i..]);
    }
  }

  lemma {:induction false} WithoutAbsent<K(!new)>(s: seq<K>, k: K)
    requires k !in s
    ensures Without(s, k) == s
  {
    if s != [] { WithoutAbsent(s[1..], k); }
  }

  class LruCache<K(==, !new), V(==)> {
    const capacity: nat
    var m: map<K, V>
    var order: seq<K>

    ghost function State(): Lru<K, V>
      reads this
    {
      Lru(capacity, m, order)
    }

    constructor (capacity: nat)
      ensures State() == Lru(capacity, map[], []) && Valid(State())
    {
      this.capacity, m, order := capacity, map[], [];
    }

    /** `iter().position`, then `remove` and `push`. */
    method MoveToBack(key: K)
      requires Valid(State()) && key in m
      modifies this
      ensures State() == old(State()).(order := Touch(old(order), key))
    {
      var pos := 0;
      while pos < |order| && order[pos] != key
        invariant 0 <= pos <= |order|
        invariant exists i :: pos <= i < |order| && order[i] == key
      {
        pos := pos + 1;
      }
      if pos < |order| {
        RemoveAt(order, pos);
        var k := order[pos];
        order := order[..pos] + order[pos + 1..];
        order := order + [k];
      }
    }

    method Lookup(key: K) returns (v: Option<V>)
      requires Valid(State())
      modifies this
      ensures State() == Get(old(State()), key) && Valid(State())
      ensures v == if key in old(m) then Some(old(m)[key]) else None
    {
      if key in m {
        MoveToBack(key);
        TouchDistinct(old(order), key);
        return Some(m[key]);
      }
      return None;
    }

    method Peek(key: K) returns (v: Option<V>)
      ensures v == if key in m then Some(m[key]) else None
    {
      v := if key in m then Some(m[key]) else None;
    }

    /** The map is searched in no particular order: `pick` is the entry found, if there is one. */
    method KeyFromValue(value: V, pick: K) returns (found: Option<K>)
      requires Valid(State())
      requires (exists k :: k in m && m[k] == value) ==> pick in m && m[pick] == value
      modifies this
      ensures found == if pick in old(m) && old(m)[pick] == value then Some(pick) else None
      ensures State() == if found == None then old(State()) else Get(old(State()), pick)
      ensures Valid(State())
    {
      if pick in m && m[pick] == value {
        MoveToBack(pick);
        TouchDistinct(old(order), pick);
        return Some(pick);
      }
      return None;
    }

    method Insert(key: K, value: V)
      requires Valid(State())
      modifies this
      ensures State() == Put(old(State()), key, value) && Valid(State())
    {
      PutValid(State(), key, value);
      if key in m {
        m := m[key := value];
        MoveToBack(key);
      } else {
        if |order| >= capacity {
          if order != [] {
            var lru := order[0];
            m := m - {lru};
            order := order[1..];
          }
        }
        m := m[key := value];
        order := order + [key];
      }
    }
  }

  lemma {:induction false} WithoutDistinct<K(!new)>(s: seq<K>, k: K)
    requires Distinct(s)
    ensures Distinct(Without(s, k))
    ensures |Without(s, k)| == if k in s then |s| - 1 else |s|
  {
    if s != [] {
      WithoutDistinct(s[1..], k);
      if s[0] == k { WithoutAbsent(s[1..], k); } else { assert s[0] !in Without(s[1..], k); }
    }
  }

  lemma TouchDistinct<K(!new)>(s: seq<K>, k: K)
    requires Distinct(s)
    ensures Distinct(Touch(s, k)) && |Touch(s, k)| == if k in s then |s| else |s| + 1
  {
    WithoutDistinct(s, k);
  }

  lemma PutValid<K(!new), V>(c: Lru<K, V>, k: K, v: V)
    requires Valid(c)
    ensures Valid(Put(c, k, v))
  {
    if k in c.m {
      TouchDistinct(c.order, k);
    } else if c.order != [] {
      assert c.order == [c.order[0]] + c.order[1..];
      assert c.order[0] !in c.order[1..];
    }
  }

  // ----- against the history of uses -----

  datatype Op<K, V> = OpGet(k: K) | OpPeek(k: K) | OpPut(k: K, v: V) | OpFind(k: K, v: V)

  /** A run so far: the cache, the keys it was used with, and the last value put under each key. */
  datatype Run<K, V> = Run(c: Lru<K, V>, uses: seq<K>, puts: map<K, V>)

  function Apply<K(==, !new), V(==)>(r: Run<K, V>, op: Op<K, V>): Run<K, V>
  {
    match op
    case OpGet(k) => if k in r.c.m then Run(Get(r.c, k), r.uses + [k], r.puts) else r
    case OpPeek(_) => r
    case OpPut(k, v) => Run(Put(r.c, k, v), r.uses + [k], r.puts[k := v])
    case OpFind(k, v) => if k in r.c.m && r.c.m[k] == v then Run(Get(r.c, k), r.uses + [k], r.puts) else r
  }

  function ApplyAll<K(==, !new), V(==)>(r: Run<K, V>, ops: seq<Op<K, V>>): Run<K, V>
    decreases |ops|
  {
    if ops == [] then r else ApplyAll(Apply(r, ops[0]), ops[1..])
  }

  function Empty<K, V>(capacity: nat): Run<K, V> { Run(Lru(capacity, map[], []), [], map[]) }

  /** The distinct keys of a use log, least recently used first. */
  function Recency<K(==, !new)>(uses: seq<K>): seq<K>
  {
    if uses == [] then [] else Touch(Recency(uses[..|uses| - 1]), uses[|uses| - 1])
  }

  function LastN<T>(s: seq<T>, n: nat): (r: seq<T>)
    ensures |r| == Min(n, |s|)
  {
    if |s| <= n then s else s[|s| - n..]
  }

  function Room(capacity: nat): nat { if capacity == 0 then 1 else capacity }

  /** `order` is the most recently used keys, as many as there is room for. */
  ghost predicate OrderRecent<K(!new)>(order: seq<K>, uses: seq<K>, capacity: nat)
  {
    Distinct(Recency(uses)) && order == LastN(Recency(uses), Room(capacity))
  }

  /** The map holds the listed keys, each with the value last put under it. */
  ghost predicate Holds<K(!new), V>(c: Lru<K, V>, puts: map<K, V>)
  {
    Valid(c) && forall k :: k in c.m ==> k in puts && c.m[k] == puts[k]
  }

  /** The cache holds exactly the most recently used keys, in recency order, with their last values. */
  ghost predicate MostRecent<K(!new), V>(r: Run<K, V>)
  {
    OrderRecent(r.c.order, r.uses, r.c.capacity) && Holds(r.c, r.puts)
  }

  lemma RecencySnoc<K(!new)>(uses: seq<K>, k: K)
    ensures Recency(uses + [k]) == Touch(Recency(uses), k)
  {
    assert (uses + [k])[..|uses|] == uses;
  }

  lemma {:induction false} WithoutAppend<K(!new)>(a: seq<K>, b: seq<K>, k: K)
    ensures Without(a + b, k) == Without(a, k) + Without(b, k)
  {
    if a == [] {
      assert a + b == b;
    } else {
      WithoutAppend(a[1..], b, k);
      assert (a + b)[0] == a[0] && (a + b)[1..] == a[1..] + b;
      Assoc(if a[0] == k then [] else [a[0]], Without(a[1..], k), Without(b, k));
    }
  }

  lemma LastNAppend<T>(a: seq<T>, b: seq<T>, n: nat)
    requires |b| == n || (a == [] && |b| <= n)
    ensures LastN(a + b, n) == b
  {
  }

  /** Using a key that is among the last n keeps the other n - 1 and moves it to the end. */
  lemma TouchHeld<K(!new)>(full: seq<K>, n: nat, k: K)
    requires Distinct(full) && k in LastN(full, n)
    ensures LastN(Touch(full, k), n) == Touch(LastN(full, n), k)
  {
    var held := LastN(full, n);
    var older := full[..|full| - |held|];
    assert full == older + held;
    assert k !in older by { var i :| 0 <= i < |held| && held[i] == k; }
    WithoutAbsent(older, k);
    WithoutAppend(older, held, k);
    assert Distinct(held);
    TouchDistinct(held, k);
    Assoc(older, Without(held, k), [k]);
    LastNAppend(older, Touch(held, k), n);
  }

  /** Using a key that is not among the last n drops the first of them once there are n. */
  lemma TouchNew<K(!new)>(full: seq<K>, n: nat, k: K)
    requires Distinct(full) && k !in LastN(full, n) && n > 0
    ensures var held := LastN(full, n);
      LastN(Touch(full, k), n) == (if |held| >= n then held[1..] else held) + [k]
  {
    var held := LastN(full, n);
    var older := full[..|full| - |held|];
    assert full == older + held;
    WithoutAbsent(held, k);
    WithoutAppend(older, held, k);
    var rest := Without(older, k);
    Assoc(rest, held, [k]);
    if |held| >= n {
      assert held == [held[0]] + held[1..];
      Assoc([held[0]], held[1..], [k]);
      Assoc(rest, [held[0]], held[1..] + [k]);
      LastNAppend(rest + [held[0]], held[1..] + [k], n);
    } else {
      assert older == [];
      LastNAppend(rest, held + [k], n);
    }
  }

  /** How an operation moves the key list. */
  function OrderAfterPut<K(==, !new)>(order: seq<K>, capacity: nat, k: K): seq<K>
  {
    if k in order then Touch(order, k)
    else (if |order| >= capacity && order != [] then order[1..] else order) + [k]
  }

  lemma UseKeepsOrder<K(!new)>(order: seq<K>, uses: seq<K>, capacity: nat, k: K)
    requires OrderRecent(order, uses, capacity)
    ensures k in order ==> OrderRecent(Touch(order, k), uses + [k], capacity)
    ensures OrderRecent(OrderAfterPut(order, capacity, k), uses + [k], capacity)
  {
    RecencySnoc(uses, k);
    TouchDistinct(Recency(uses), k);
    if k in order {
      TouchHeld(Recency(uses), Room(capacity), k);
    } else {
      TouchNew(Recency(uses), Room(capacity), k);
    }
  }

  lemma PutKeepsValues<K(!new), V>(c: Lru<K, V>, puts: map<K, V>, k: K, v: V)
    requires Holds(c, puts)
    ensures Holds(Put(c, k, v), puts[k := v])
  {
    PutValid(c, k, v);
  }

  lemma GetKeepsValid<K(!new), V>(c: Lru<K, V>, k: K)
    requires Valid(c)
    ensures Valid(Get(c, k))
  {
    TouchDistinct(c.order, k);
  }

  lemma ApplyKeepsMostRecent<K(!new), V>(r: Run<K, V>, op: Op<K, V>)
    requires MostRecent(r)
    ensures MostRecent(Apply(r, op))
  {
    if !op.OpPeek? { UseKeepsOrder(r.c.order, r.uses, r.c.capacity, op.k); }
    if op.OpPut? {
      PutKeepsValues(r.c, r.puts, op.k, op.v);
      assert Put(r.c, op.k, op.v).order == OrderAfterPut(r.c.order, r.c.capacity, op.k);
    } else if !op.OpPeek? {
      GetKeepsValid(r.c, op.k);
    }
  }

  /** After any run of operations the cache is what the history of uses says it should be. */
  lemma {:induction false} AlwaysMostRecent<K(!new), V>(r: Run<K, V>, ops: seq<Op<K, V>>)
    requires MostRecent(r)
    ensures MostRecent(ApplyAll(r, ops))
    decreases |ops|
  {
    if ops != [] {
      ApplyKeepsMostRecent(r, ops[0]);
      AlwaysMostRecent(Apply(r, ops[0]), ops[1..]);
    }
  }

  /** The index of the last use of a key, -1 for a key never used. */
  function LastUse<K(==)>(uses: seq<K>, k: K): int
  {
    if uses == [] then -1
    else if uses[|uses| - 1] == k then |uses| - 1
    else LastUse(uses[..|uses| - 1], k)
  }

  ghost predicate ByLastUse<K>(uses: seq<K>, s: seq<K>)
  {
    forall i, j :: 0 <= i < j < |s| ==> LastUse(uses, s[i]) < LastUse(uses, s[j])
  }

  lemma {:induction false} WithoutKeepsOrder<K(!new)>(uses: seq<K>, s: seq<K>, k: K)
    requires ByLastUse(uses, s)
    ensures ByLastUse(uses, Without(s, k))
  {
    if s != [] {
      WithoutKeepsOrder(uses, s[1..], k);
      var rest := Without(s[1..], k);
      forall j | 0 <= j < |rest| ensures LastUse(uses, s[0]) < LastUse(uses, rest[j]) {
        assert rest[j] in s[1..];
        var q :| 0 <= q < |s[1..]| && s[1..][q] == rest[j];
        assert s[q + 1] == rest[j];
      }
    }
  }

  lemma LastUseSnoc<K>(uses: seq<K>, k: K, x: K)
    ensures LastUse(uses + [k], x) == if x == k then |uses| else LastUse(uses, x)
  {
    assert (uses + [k])[..|uses|] == uses;
  }

  lemma {:induction false} LastUseBound<K>(uses: seq<K>, x: K)
    ensures -1 <= LastUse(uses, x) < |uses|
  {
    if uses != [] { LastUseBound(uses[..|uses| - 1], x); }
  }

  /** `Recency` in its own terms: the used keys, each once, by the time of their last use. */
  lemma {:induction false} RecencyIsByLastUse<K(!new)>(uses: seq<K>)
    ensures Distinct(Recency(uses)) && ByLastUse(uses, Recency(uses))
    ensures forall k :: k in Recency(uses) <==> k in uses
  {
    if uses != [] {
      var front, k := uses[..|uses| - 1], uses[|uses| - 1];
      assert uses == front + [k];
      RecencyIsByLastUse(front);
      TouchDistinct(Recency(front), k);
      WithoutKeepsOrder(front, Recency(front), k);
      var w := Without(Recency(front), k);
      forall i, j | 0 <= i < j < |w + [k]| ensures LastUse(uses, (w + [k])[i]) < LastUse(uses, (w + [k])[j]) {
        LastUseSnoc(front, k, (w + [k])[i]);
        LastUseSnoc(front, k, (w + [k])[j]);
        LastUseBound(front, (w + [k])[i]);
        assert w[i] in w;
        if j < |w| { assert w[j] in w; }
      }
    }
  }

  // ----- against a larger cache -----

  function Keep<K(==)>(s: seq<K>, held: set<K>): seq<K>
  {
    if s == [] then [] else (if s[0] in held then [s[0]] else []) + Keep(s[1..], held)
  }

  function Elems<K(==, !new)>(s: seq<K>): (r: set<K>)
    ensures forall x :: x in r <==> x in s
  {
    if s == [] then {} else {s[0]} + Elems(s[1..])
  }

  /** The small list is part of the large one, in the same order; and all of it until it fills up. */
  ghost predicate Within<K(!new)>(small: seq<K>, large: seq<K>, room: nat)
  {
    && Distinct(small) && Distinct(large)
    && Keep(large, Elems(small)) == small
    && |small| <= room
    && (|small| < room ==> small == large)
  }

  lemma {:induction false} KeepAppend<K>(a: seq<K>, b: seq<K>, held: set<K>)
    ensures Keep(a + b, held) == Keep(a, held) + Keep(b, held)
  {
    if a == [] {
      assert a + b == b;
    } else {
      KeepAppend(a[1..], b, held);
      assert (a + b)[0] == a[0] && (a + b)[1..] == a[1..] + b;
      Assoc(if a[0] in held then [a[0]] else [], Keep(a[1..], held), Keep(b, held));
    }
  }

  lemma {:induction false} KeepWithout<K(!new)>(s: seq<K>, held: set<K>, k: K)
    ensures Keep(Without(s, k), held) == Without(Keep(s, held), k)
    ensures Keep(s, held - {k}) == Without(Keep(s, held), k)
  {
    if s != [] {
      KeepWithout(s[1..], held, k);
      var head := if s[0] in held then [s[0]] else [];
      WithoutAppend(head, Keep(s[1..], held), k);
      KeepAppend(if s[0] == k then [] else [s[0]], Without(s[1..], k), held);
    }
  }

  lemma {:induction false} KeepIgnores<K>(s: seq<K>, held: set<K>, k: K)
    requires k !in s
    ensures Keep(s, held + {k}) == Keep(s, held)
  {
    if s != [] { KeepIgnores(s[1..], held, k); }
  }

  lemma {:induction false} KeepMembers<K(!new)>(s: seq<K>, held: set<K>)
    ensures forall k :: k in Keep(s, held) <==> k in s && k in held
  {
    if s != [] { KeepMembers(s[1..], held); }
  }

  lemma {:induction false} KeepAll<K>(s: seq<K>, held: set<K>)
    requires forall k :: k in s ==> k in held
    ensures Keep(s, held) == s
  {
    if s != [] { KeepAll(s[1..], held); }
  }

  /** Appending a key and holding it adds it to what is kept. */
  lemma KeepSnoc<K>(s: seq<K>, held: set<K>, k: K)
    requires k !in s
    ensures Keep(s + [k], held + {k}) == Keep(s, held) + [k]
  {
    KeepAppend(s, [k], held + {k});
    KeepIgnores(s, held, k);
    assert Keep([k], held + {k}) == [k] + Keep([k][1..], held + {k}) == [k];
  }

  /** A key used in both. */
  lemma TouchBoth<K(!new)>(small: seq<K>, large: seq<K>, room: nat, k: K)
    requires Within(small, large, room) && k in small
    ensures Within(Touch(small, k), Touch(large, k), room)
  {
    TouchDistinct(small, k);
    TouchDistinct(large, k);
    KeepWithout(large, Elems(small), k);
    KeepSnoc(Without(large, k), Elems(small), k);
    assert Elems(Touch(small, k)) == Elems(small) + {k};
  }

  /** A key used in the large list alone. */
  lemma TouchLarge<K(!new)>(small: seq<K>, large: seq<K>, room: nat, k: K)
    requires Within(small, large, room) && k in large && k !in small
    ensures Within(small, Touch(large, k), room)
  {
    TouchDistinct(large, k);
    KeepWithout(large, Elems(small), k);
    WithoutAbsent(small, k);
    KeepAppend(Without(large, k), [k], Elems(small));
    assert Keep([k], Elems(small)) == [] + Keep([k][1..], Elems(small)) == [];
  }

  lemma DropFirst<K(!new)>(s: seq<K>)
    requires s != [] && Distinct(s)
    ensures Without(s, s[0]) == s[1..] && Elems(s[1..]) == Elems(s) - {s[0]}
  {
    WithoutAbsent(s[1..], s[0]);
    assert Without(s, s[0]) == [] + Without(s[1..], s[0]);
    assert s[0] !in Elems(s[1..]);
  }

  /** Dropping the first key of the small list, and possibly also that of the large one. */
  lemma DropKeeps<K(!new)>(small: seq<K>, large: seq<K>)
    requires Distinct(small) && Distinct(large) && small != [] && Keep(large, Elems(small)) == small
    ensures Keep(large, Elems(small[1..])) == small[1..]
    ensures large != [] && Keep(large[1..], Elems(small[1..])) == small[1..]
  {
    DropFirst(small);
    KeepWithout(large, Elems(small), small[0]);
    assert large != [];
    var rest := Elems(small[1..]);
    assert large[0] !in rest;
    assert Keep(large, rest) == [] + Keep(large[1..], rest);
  }

  /** What a list is before the new key goes to its end. */
  function BeforePut<K(==, !new)>(order: seq<K>, capacity: nat, k: K): seq<K>
  {
    if k in order then Without(order, k) else if |order| >= capacity && order != [] then order[1..] else order
  }

  lemma PutAppends<K(!new)>(order: seq<K>, capacity: nat, k: K)
    requires Distinct(order)
    ensures var b := BeforePut(order, capacity, k);
      OrderAfterPut(order, capacity, k) == b + [k] && Distinct(b) && k !in b
  {
    WithoutDistinct(order, k);
  }

  /** A full small list makes room; what it keeps is still within what the large one keeps. */
  lemma FullMakesRoom<K(!new)>(small: seq<K>, large: seq<K>, capL: nat, k: K)
    requires Distinct(small) && Distinct(large) && small != [] && k !in small
    requires Keep(large, Elems(small)) == small
    ensures Keep(BeforePut(large, capL, k), Elems(small[1..])) == small[1..]
  {
    DropKeeps(small, large);
    if k in large {
      KeepWithout(large, Elems(small[1..]), k);
      WithoutAbsent(small[1..], k);
    }
  }

  /** A key put that the small list lacks. */
  lemma PutNew<K(!new)>(small: seq<K>, large: seq<K>, capS: nat, capL: nat, k: K)
    requires capS <= capL && Within(small, large, Room(capS)) && k !in small && |large| <= Room(capL)
    ensures Within(OrderAfterPut(small, capS, k), OrderAfterPut(large, capL, k), Room(capS))
  {
    var s1, l1 := BeforePut(small, capS, k), BeforePut(large, capL, k);
    PutAppends(small, capS, k);
    PutAppends(large, capL, k);
    if |small| < Room(capS) {
      KeepAll(s1, Elems(s1));
    } else {
      FullMakesRoom(small, large, capL, k);
    }
    WithinSnoc(s1, l1, Room(capS), k);
  }

  lemma WithinSnoc<K(!new)>(s: seq<K>, l: seq<K>, room: nat, k: K)
    requires Distinct(s) && Distinct(l) && k !in s && k !in l
    requires Keep(l, Elems(s)) == s && |s| < room && (|s| + 1 < room ==> s == l)
    ensures Within(s + [k], l + [k], room)
  {
    KeepSnoc(l, Elems(s), k);
    ElemsSnoc(s, k);
    DistinctSnoc(s, k);
    DistinctSnoc(l, k);
  }

  lemma ElemsSnoc<K(!new)>(s: seq<K>, k: K)
    ensures Elems(s + [k]) == Elems(s) + {k}
  {
  }

  lemma DistinctSnoc<K>(s: seq<K>, k: K)
    requires Distinct(s) && k !in s
    ensures Distinct(s + [k])
  {
  }

  predicate OnlyGetPeekPut<K, V>(ops: seq<Op<K, V>>) { forall i :: 0 <= i < |ops| ==> !ops[i].OpFind? }

  ghost predicate Linked<K(!new), V>(a: Run<K, V>, b: Run<K, V>)
  {
    && a.c.capacity <= b.c.capacity
    && Within(a.c.order, b.c.order, Room(a.c.capacity)) && |b.c.order| <= Room(b.c.capacity)
    && Holds(a.c, a.puts) && Holds(b.c, b.puts) && a.puts == b.puts
  }

  lemma WithinMembers<K(!new)>(small: seq<K>, large: seq<K>, room: nat)
    requires Within(small, large, room)
    ensures forall k :: k in small ==> k in large
  {
    KeepMembers(large, Elems(small));
  }

  lemma ApplyKeepsLinked<K(!new), V>(a: Run<K, V>, b: Run<K, V>, op: Op<K, V>)
    requires Linked(a, b) && !op.OpFind?
    ensures Linked(Apply(a, op), Apply(b, op))
  {
    if op.OpPeek? { return; }
    var k, small, large, room := op.k, a.c.order, b.c.order, Room(a.c.capacity);
    WithinMembers(small, large, room);
    TouchDistinct(large, k);
    GetKeepsValid(a.c, k);
    GetKeepsValid(b.c, k);
    if k in small {
      TouchBoth(small, large, room, k);
    } else if op.OpPut? {
      PutNew(small, large, a.c.capacity, b.c.capacity, k);
    } else if k in large {
      TouchLarge(small, large, room, k);
    }
    if op.OpPut? {
      PutKeepsValues(a.c, a.puts, k, op.v);
      PutKeepsValues(b.c, b.puts, k, op.v);
    }
  }

  ghost predicate PartOf<K, V>(a: map<K, V>, b: map<K, V>) { forall k :: k in a ==> k in b && a[k] == b[k] }

  /** The same gets, peeks and puts on a larger cache always leave a superset, with equal values. */
  lemma {:induction false} LargerCacheHoldsMore<K(!new), V>(a: Run<K, V>, b: Run<K, V>, ops: seq<Op<K, V>>)
    requires Linked(a, b) && OnlyGetPeekPut(ops)
    ensures PartOf(ApplyAll(a, ops).c.m, ApplyAll(b, ops).c.m)
    decreases |ops|
  {
    if ops == [] {
      WithinMembers(a.c.order, b.c.order, Room(a.c.capacity));
    } else {
      ApplyKeepsLinked(a, b, ops[0]);
      LargerCacheHoldsMore(Apply(a, ops[0]), Apply(b, ops[0]), ops[1..]);
    }
  }

  /** Both invariants hold of new caches, so the theorems apply to every run from the start. */
  lemma FreshCaches<K(!new), V>(capS: nat, capL: nat)
    requires capS <= capL
    ensures MostRecent(Empty<K, V>(capS)) && Linked(Empty<K, V>(capS), Empty<K, V>(capL))
  {
  }
}
