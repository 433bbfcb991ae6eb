/** The fake-IP resolver: lookup, allocation and insertion are separate steps of concurrent tasks. */
module FakeDns {
  import opened Bytes

  type Domain = seq<byte>

  /** `to_lowercase`. */
  type Lower = Domain -> Domain

  const WORD: nat := 0x1_0000_0000

  function Pow2(n: nat): (p: nat)
    ensures p >= 1
  {
    if n == 0 then 1 else 2 * Pow2(n - 1)
  }

  /** The pool size of a prefix, which is forced into 8 to 32. */
  function Count(prefix: nat): nat { Pow2(32 - (if prefix > 32 then 32 else if prefix < 8 then 8 else prefix)) }

  /** The address at an offset from the base, with the source's wrapping addition. */
  function Addr(base: u32, offset: nat): u32 { (base + offset) % WORD }

  // ----- one resolver, used from one task -----

  class FakeDnsResolver {
    const base: u32
    const count: nat
    var next: u32
    var domainToIp: map<Domain, u32>
    var ipToDomain: map<u32, Domain>

    constructor (base: u32, prefix: nat)
      ensures this.base == base && count == Count(prefix) && next == 1
      ensures domainToIp == map[] && ipToDomain == map[] && Valid()
    {
      CountBound(prefix);
      this.base, count, next, domainToIp, ipToDomain := base, Count(prefix), 1, map[], map[];
    }

    method Allocate() returns (ip: Option<u32>)
      modifies this`next
      ensures next == (old(next) + 1) % WORD
      ensures ip == if old(next) >= count then None else Some(Addr(base, old(next)))
    {
      var offset := next;
      next := (next + 1) % WORD;
      ip := if offset >= count then None else Some(Addr(base, offset));
    }

    function State(): Pool
      reads this
    {
      Pool(next, domainToIp, ipToDomain)
    }

    ghost predicate Valid()
      reads this
    {
      Tidy(base, count, State())
    }

    /** A resolve nobody interferes with; `ResolvedKeeps` says what it keeps. */
    method Resolve(lower: Lower, domain: Domain) returns (ip: Option<u32>)
      modifies this
      ensures (State(), ip) == Resolved(base, count, old(State()), lower(domain))
    {
      var key := lower(domain);
      if key in domainToIp {
        return Some(domainToIp[key]);
      }
      ip := Allocate();
      if ip == None { return; }
      domainToIp := domainToIp[key := ip.value];
      ipToDomain := ipToDomain[ip.value := key];
    }
  }

  datatype Pool = Pool(next: u32, d2i: map<Domain, u32>, i2d: map<u32, Domain>)

  function Resolved(base: u32, count: nat, p: Pool, key: Domain): (Pool, Option<u32>)
  {
    if key in p.d2i then (p, Some(p.d2i[key])) else
      var p1, a := p.(next := (p.next + 1) % WORD), Addr(base, p.next);
      if p.next >= count then (p1, None)
      else (p1.(d2i := p.d2i[key := a], i2d := p.i2d[a := key]), Some(a))
  }

  /** The maps are inverse to each other and hold only addresses handed out before `next`. */
  ghost predicate Tidy(base: u32, count: nat, p: Pool)
  {
    && p.next >= 1 && count < WORD - 1 && Inverse(p.d2i, p.i2d)
    && forall a :: a in p.i2d ==> Handed(base, p.next, a)
  }

  /** A resolve by itself keeps the maps inverse, and all of `Tidy` until the counter wraps to zero. */
  lemma ResolvedKeeps(base: u32, count: nat, p: Pool, key: Domain)
    requires Tidy(base, count, p)
    ensures var p' := Resolved(base, count, p, key).0;
      Inverse(p'.d2i, p'.i2d) && (p'.next != 0 ==> Tidy(base, count, p'))
  {
    ResolvedIs(base, count, p, key);
    if key !in p.d2i && p.next + 1 < WORD {
      if p.next < count {
        NewKeepsTidy(base, count, p, key);
      } else {
        SpentKeepsTidy(base, count, p);
      }
    }
  }

  lemma ResolvedIs(base: u32, count: nat, p: Pool, key: Domain)
    requires count < WORD - 1
    ensures var p' := Resolved(base, count, p, key).0;
      if key in p.d2i then p' == p
      else if p.next + 1 == WORD then p' == p.(next := 0)
      else if p.next >= count then p' == p.(next := p.next + 1)
      else var a := Addr(base, p.next); p' == Pool(p.next + 1, p.d2i[key := a], p.i2d[a := key])
  {
  }

  /** It answers as the forward map then says, changes no earlier answer, and fails only for a new domain and a spent pool. */
  lemma ResolvedAnswers(base: u32, count: nat, p: Pool, key: Domain)
    ensures var (p', ip) := Resolved(base, count, p, key);
      && (ip.Some? ==> key in p'.d2i && p'.d2i[key] == ip.value)
      && (ip == None <==> key !in p.d2i && p.next >= count)
      && forall d :: d in p.d2i ==> d in p'.d2i && p'.d2i[d] == p.d2i[d]
  {
  }

  lemma NewKeepsTidy(base: u32, count: nat, p: Pool, key: Domain)
    requires Tidy(base, count, p) && key !in p.d2i && p.next + 1 < WORD
    ensures var a := Addr(base, p.next);
      Tidy(base, count, Pool(p.next + 1, p.d2i[key := a], p.i2d[a := key]))
  {
    HandedStep(base, p.next, p.i2d.Keys);
    InsertKeepsInverseIff(p.d2i, p.i2d, key, Addr(base, p.next));
  }

  lemma SpentKeepsTidy(base: u32, count: nat, p: Pool)
    requires Tidy(base, count, p) && p.next + 1 < WORD
    ensures Tidy(base, count, p.(next := p.next + 1))
  {
    HandedStep(base, p.next, p.i2d.Keys);
  }

  /** The address has an offset from 1 to below n. */
  ghost predicate Handed(base: u32, n: nat, a: u32) { exists o: nat :: 1 <= o < n && a == Addr(base, o) }

  /** The next address differs from those handed out, and all of them count as handed out after it. */
  lemma HandedStep(base: u32, n: nat, held: set<u32>)
    requires 1 <= n && n + 1 < WORD && forall a :: a in held ==> Handed(base, n, a)
    ensures Addr(base, n) !in held && Handed(base, n + 1, Addr(base, n))
    ensures forall a :: a in held ==> Handed(base, n + 1, a)
  {
    forall a | a in held ensures a != Addr(base, n) && Handed(base, n + 1, a) {
      var o: nat :| 1 <= o < n && a == Addr(base, o);
      AddrInjective(base, o, n);
      assert 1 <= o < n + 1;
    }
    assert 1 <= n < n + 1;
  }

  ghost predicate Inverse(d2i: map<Domain, u32>, i2d: map<u32, Domain>)
  {
    && (forall d :: d in d2i ==> d2i[d] in i2d && i2d[d2i[d]] == d)
    && (forall a :: a in i2d ==> i2d[a] in d2i && d2i[i2d[a]] == a)
  }

  /** Inserting a fresh address keeps the maps inverse exactly when the domain had none. */
  lemma InsertKeepsInverseIff(d2i: map<Domain, u32>, i2d: map<u32, Domain>, d: Domain, a: u32)
    requires Inverse(d2i, i2d) && a !in i2d
    ensures Inverse(d2i[d := a], i2d[a := d]) <==> d !in d2i
  {
    if d in d2i {
      assert d2i[d] in i2d[a := d] && i2d[a := d][d2i[d]] == d;
    }
  }

  // ----- any number of tasks -----

  datatype Task = Idle | Missed(domain: Domain) | Holding(domain: Domain, ip: u32)

  datatype Answer = Answer(domain: Domain, ip: u32)

  /** `calls` counts the allocations tried, `answers` every address returned and what for. */
  datatype World = World(
    base: u32, count: nat, next: u32, d2i: map<Domain, u32>, i2d: map<u32, Domain>,
    tasks: map<nat, Task>, calls: nat, answers: seq<Answer>)

  function Start(base: u32, prefix: nat): World { World(base, Count(prefix), 1, map[], map[], map[], 0, []) }

  datatype Action = Lookup(t: nat, domain: Domain) | Allocate(t: nat) | Insert(t: nat)

  function TaskOf(w: World, t: nat): Task { if t in w.tasks then w.tasks[t] else Idle }

  function Act(lower: Lower, w: World, a: Action): World
  {
    match a
    case Lookup(t, domain) =>
      if !TaskOf(w, t).Idle? then w
      else if lower(domain) in w.d2i then w.(answers := w.answers + [Answer(domain, w.d2i[lower(domain)])])
      else w.(tasks := w.tasks[t := Missed(domain)])
    case Allocate(t) =>
      var k := TaskOf(w, t);
      if !k.Missed? then w
      else
        w.(next := (w.next + 1) % WORD, calls := w.calls + 1,
           tasks := w.tasks[t := if w.next >= w.count then Idle else Holding(k.domain, Addr(w.base, w.next))])
    case Insert(t) =>
      var k := TaskOf(w, t);
      if !k.Holding? then w
      else
        w.(d2i := w.d2i[lower(k.domain) := k.ip], i2d := w.i2d[k.ip := lower(k.domain)],
           tasks := w.tasks[t := Idle], answers := w.answers + [Answer(k.domain, k.ip)])
  }

  function Runs(lower: Lower, w: World, acts: seq<Action>): World
    decreases |acts|
  {
    if acts == [] then w else Runs(lower, Act(lower, w, acts[0]), acts[1..])
  }

  /** The address is one of those the pool has handed out so far. */
  ghost predicate Issued(w: World, ip: u32)
  {
    exists o: nat :: 1 <= o <= w.calls && o < w.count && ip == Addr(w.base, o)
  }

  ghost predicate Inv(lower: Lower, w: World)
  {
    && w.calls < WORD && w.next == (w.calls + 1) % WORD
    && (forall ip :: ip in w.i2d ==> Issued(w, ip))
    && (forall t :: t in w.tasks && w.tasks[t].Holding? ==> Issued(w, w.tasks[t].ip) && w.tasks[t].ip !in w.i2d)
    && (forall t, u :: t in w.tasks && u in w.tasks && t != u && w.tasks[t].Holding? && w.tasks[u].Holding? ==>
          w.tasks[t].ip != w.tasks[u].ip)
    && (forall d :: d in w.d2i ==> w.d2i[d] in w.i2d && w.i2d[w.d2i[d]] == d)
    && (forall i :: 0 <= i < |w.answers| ==> Answered(lower, w.i2d, w.answers[i]))
  }

  /** The answered address leads back to the domain it was given for. */
  predicate Answered(lower: Lower, i2d: map<u32, Domain>, a: Answer)
  {
    a.ip in i2d && i2d[a.ip] == lower(a.domain)
  }

  lemma AddrInjective(base: u32, a: nat, b: nat)
    requires a < b < WORD
    ensures Addr(base, a) != Addr(base, b)
  {
  }

  lemma NextIsFresh(w: World, ip: u32)
    requires w.calls + 1 < WORD && w.next == (w.calls + 1) % WORD && Issued(w, ip)
    ensures Addr(w.base, w.next) != ip
  {
    var o: nat :| 1 <= o <= w.calls && o < w.count && ip == Addr(w.base, o);
    assert w.next == w.calls + 1;
    AddrInjective(w.base, o, w.calls + 1);
  }

  lemma IssuedGrows(w: World, w': World, ip: u32)
    requires Issued(w, ip) && w'.base == w.base && w'.count == w.count && w'.calls >= w.calls
    ensures Issued(w', ip)
  {
    var o: nat :| 1 <= o <= w.calls && o < w.count && ip == Addr(w.base, o);
    assert 1 <= o <= w'.calls && o < w'.count && ip == Addr(w'.base, o);
  }

  lemma AnswerKeepsInv(lower: Lower, w: World, a: Answer)
    requires Inv(lower, w) && Answered(lower, w.i2d, a)
    ensures Inv(lower, w.(answers := w.answers + [a]))
  {
    var w' := w.(answers := w.answers + [a]);
    forall ip: u32 | Issued(w, ip) ensures Issued(w', ip) { IssuedGrows(w, w', ip); }
  }

  lemma MissKeepsInv(lower: Lower, w: World, t: nat, domain: Domain)
    requires Inv(lower, w) && TaskOf(w, t).Idle?
    ensures Inv(lower, w.(tasks := w.tasks[t := Missed(domain)]))
  {
    var w' := w.(tasks := w.tasks[t := Missed(domain)]);
    forall ip: u32 | Issued(w, ip) ensures Issued(w', ip) { IssuedGrows(w, w', ip); }
  }

  lemma LookupKeepsInv(lower: Lower, w: World, t: nat, domain: Domain)
    requires Inv(lower, w)
    ensures Inv(lower, Act(lower, w, Lookup(t, domain)))
  {
    if TaskOf(w, t).Idle? {
      if lower(domain) in w.d2i {
        AnswerKeepsInv(lower, w, Answer(domain, w.d2i[lower(domain)]));
      } else {
        MissKeepsInv(lower, w, t, domain);
      }
    }
  }

  lemma AllocateKeepsInv(lower: Lower, w: World, t: nat)
    requires Inv(lower, w) && Act(lower, w, Allocate(t)).calls < WORD
    ensures Inv(lower, Act(lower, w, Allocate(t)))
  {
    var w' := Act(lower, w, Allocate(t));
    if TaskOf(w, t).Missed? {
      var unused := Addr(w.base, w.next);
      forall ip | ip in w'.i2d ensures Issued(w', ip) && ip != unused {
        IssuedGrows(w, w', ip);
        NextIsFresh(w, ip);
      }
      forall u | u in w'.tasks && w'.tasks[u].Holding?
        ensures Issued(w', w'.tasks[u].ip) && (u != t ==> w'.tasks[u].ip != unused)
      {
        if u == t {
          assert w.next == w.calls + 1;
          assert 1 <= w.next <= w'.calls && w.next < w'.count;
        } else {
          IssuedGrows(w, w', w.tasks[u].ip);
          NextIsFresh(w, w.tasks[u].ip);
        }
      }
    }
  }

  lemma InsertKeepsInv(lower: Lower, w: World, t: nat)
    requires Inv(lower, w)
    ensures Inv(lower, Act(lower, w, Insert(t)))
  {
    var w' := Act(lower, w, Insert(t));
    forall ip | ip in w'.i2d ensures Issued(w', ip) { IssuedGrows(w, w', ip); }
    forall u | u in w'.tasks && w'.tasks[u].Holding? ensures Issued(w', w'.tasks[u].ip) { IssuedGrows(w, w', w.tasks[u].ip); }
    forall i | 0 <= i < |w'.answers| ensures Answered(lower, w'.i2d, w'.answers[i]) {
      if i < |w.answers| { assert Answered(lower, w.i2d, w.answers[i]); }
    }
  }

  lemma {:induction false} CallsGrow(lower: Lower, w: World, acts: seq<Action>)
    ensures w.calls <= Runs(lower, w, acts).calls
    decreases |acts|
  {
    if acts != [] { CallsGrow(lower, Act(lower, w, acts[0]), acts[1..]); }
  }

  /** The invariant survives every interleaving with fewer than 2^32 allocations. */
  lemma {:induction false} InvAlways(lower: Lower, w: World, acts: seq<Action>)
    requires Inv(lower, w) && Runs(lower, w, acts).calls < WORD
    ensures Inv(lower, Runs(lower, w, acts))
    decreases |acts|
  {
    if acts != [] {
      var w' := Act(lower, w, acts[0]);
      CallsGrow(lower, w', acts[1..]);
      ActKeepsInv(lower, w, acts[0]);
      InvAlways(lower, w', acts[1..]);
    }
  }

  /**
    * Whatever the interleaving: every address ever returned leads back to the lower-cased domain it
    * was returned for, so two domains that differ in lower case were never given the same one.
    */
  lemma AnswersLeadBack(lower: Lower, base: u32, prefix: nat, acts: seq<Action>)
    requires Runs(lower, Start(base, prefix), acts).calls < WORD
    ensures var w := Runs(lower, Start(base, prefix), acts);
      && (forall i :: 0 <= i < |w.answers| ==> Answered(lower, w.i2d, w.answers[i]))
      && (forall i, j :: 0 <= i < |w.answers| && 0 <= j < |w.answers| ==>
            lower(w.answers[i].domain) != lower(w.answers[j].domain) ==> w.answers[i].ip != w.answers[j].ip)
  {
    InvAlways(lower, Start(base, prefix), acts);
    var w := Runs(lower, Start(base, prefix), acts);
    forall i, j | 0 <= i < |w.answers| && 0 <= j < |w.answers|
                  && lower(w.answers[i].domain) != lower(w.answers[j].domain)
      ensures w.answers[i].ip != w.answers[j].ip
    {
      assert Answered(lower, w.i2d, w.answers[i]) && Answered(lower, w.i2d, w.answers[j]);
    }
  }

  // ----- when the maps stay inverse -----

  /** The step inserts an address for a domain that has one by now. */
  predicate Overlaps(lower: Lower, w: World, a: Action)
  {
    a.Insert? && TaskOf(w, a.t).Holding? && lower(TaskOf(w, a.t).domain) in w.d2i
  }

  predicate SomeOverlap(lower: Lower, w: World, acts: seq<Action>)
    decreases |acts|
  {
    acts != [] && (Overlaps(lower, w, acts[0]) || SomeOverlap(lower, Act(lower, w, acts[0]), acts[1..]))
  }

  /** The forward map has left this address behind. */
  predicate Orphan(w: World, ip: u32)
  {
    ip in w.i2d && w.i2d[ip] in w.d2i && w.d2i[w.i2d[ip]] != ip
  }

  lemma OrphanStays(lower: Lower, w: World, a: Action, ip: u32)
    requires Inv(lower, w) && Orphan(w, ip)
    ensures Orphan(Act(lower, w, a), ip)
  {
  }

  lemma OverlapOrphans(lower: Lower, w: World, a: Action) returns (ip: u32)
    requires Inv(lower, w) && Overlaps(lower, w, a)
    ensures Orphan(Act(lower, w, a), ip)
  {
    ip := w.d2i[lower(TaskOf(w, a.t).domain)];
  }

  lemma NoOverlapKeepsInverse(lower: Lower, w: World, a: Action)
    requires Inv(lower, w) && Inverse(w.d2i, w.i2d) && !Overlaps(lower, w, a)
    ensures var w' := Act(lower, w, a); Inverse(w'.d2i, w'.i2d)
  {
    if a.Insert? && TaskOf(w, a.t).Holding? {
      var k := TaskOf(w, a.t);
      InsertKeepsInverseIff(w.d2i, w.i2d, lower(k.domain), k.ip);
    }
  }

  lemma ActKeepsInv(lower: Lower, w: World, a: Action)
    requires Inv(lower, w) && Act(lower, w, a).calls < WORD
    ensures Inv(lower, Act(lower, w, a))
  {
    match a
    case Lookup(t, d) => LookupKeepsInv(lower, w, t, d);
    case Allocate(t) => AllocateKeepsInv(lower, w, t);
    case Insert(t) => InsertKeepsInv(lower, w, t);
  }

  lemma {:induction false} OrphanForGood(lower: Lower, w: World, acts: seq<Action>, ip: u32)
    requires Inv(lower, w) && Orphan(w, ip) && Runs(lower, w, acts).calls < WORD
    ensures Orphan(Runs(lower, w, acts), ip)
    decreases |acts|
  {
    if acts != [] {
      CallsGrow(lower, Act(lower, w, acts[0]), acts[1..]);
      ActKeepsInv(lower, w, acts[0]);
      OrphanStays(lower, w, acts[0], ip);
      OrphanForGood(lower, Act(lower, w, acts[0]), acts[1..], ip);
    }
  }

  lemma {:induction false} InverseAfterRunIff(lower: Lower, w: World, acts: seq<Action>)
    requires Inv(lower, w) && Inverse(w.d2i, w.i2d) && Runs(lower, w, acts).calls < WORD
    ensures var w' := Runs(lower, w, acts); Inverse(w'.d2i, w'.i2d) <==> !SomeOverlap(lower, w, acts)
    decreases |acts|
  {
    if acts != [] {
      var w1 := Act(lower, w, acts[0]);
      CallsGrow(lower, w1, acts[1..]);
      ActKeepsInv(lower, w, acts[0]);
      if Overlaps(lower, w, acts[0]) {
        var ip := OverlapOrphans(lower, w, acts[0]);
        OrphanForGood(lower, w1, acts[1..], ip);
        assert Orphan(Runs(lower, w, acts), ip);
      } else {
        NoOverlapKeepsInverse(lower, w, acts[0]);
        InverseAfterRunIff(lower, w1, acts[1..]);
      }
    }
  }

  /** After any run the maps are inverse exactly when no insert of it found its domain already there. */
  lemma MapsInverseIff(lower: Lower, base: u32, prefix: nat, acts: seq<Action>)
    requires Runs(lower, Start(base, prefix), acts).calls < WORD
    ensures var w := Runs(lower, Start(base, prefix), acts);
      Inverse(w.d2i, w.i2d) <==> !SomeOverlap(lower, Start(base, prefix), acts)
  {
    InverseAfterRunIff(lower, Start(base, prefix), acts);
  }

  /** The maps need not stay inverse: two overlapping resolves of one name leave an orphan address. */
  lemma OverlapLeavesOrphan(d: Domain)
    ensures var id := (x: Domain) => x;
      var w := Act(id, Act(id, Act(id, Act(id, Act(id, Act(id, Start(0, 24), Lookup(0, d)), Lookup(1, d)),
                   Allocate(0)), Allocate(1)), Insert(0)), Insert(1));
      !Inverse(w.d2i, w.i2d) && |w.answers| == 2 && w.answers[0].ip != w.answers[1].ip
  {
    var id := (x: Domain) => x;
    CountOf24();
    var w1 := Act(id, Act(id, Start(0, 24), Lookup(0, d)), Lookup(1, d));
    var w2 := Act(id, Act(id, w1, Allocate(0)), Allocate(1));
    assert w2.tasks[0] == Holding(d, 1) && w2.tasks[1] == Holding(d, 2);
    var w := Act(id, Act(id, w2, Insert(0)), Insert(1));
    assert 1 in w.i2d && w.d2i[w.i2d[1]] == 2;
  }

  lemma CountOf24()
    ensures Count(24) == 256
  {
    assert Pow2(8) == 2 * Pow2(7) && Pow2(7) == 2 * Pow2(6) && Pow2(6) == 2 * Pow2(5) && Pow2(5) == 2 * Pow2(4);
    assert Pow2(4) == 2 * Pow2(3) && Pow2(3) == 2 * Pow2(2) && Pow2(2) == 2 * Pow2(1) && Pow2(1) == 2 * Pow2(0);
  }

  // ----- recognising fake addresses -----

  /** `is_fake_ip` compares the first two octets only. */
  predicate IsFake(base: u32, ip: u32) { ip / 0x1_0000 == base / 0x1_0000 }

  lemma {:induction false} Pow2Splits(a: nat, b: nat)
    ensures Pow2(a + b) == Pow2(a) * Pow2(b)
  {
    if a > 0 { Pow2Splits(a - 1, b); }
  }

  lemma Pow2Of16()
    ensures Pow2(16) == 0x1_0000
  {
    assert Pow2(4) == 16 by {
      assert Pow2(3) == 2 * Pow2(2) && Pow2(2) == 2 * Pow2(1) && Pow2(1) == 2 * Pow2(0);
    }
    Pow2Splits(4, 4);
    Pow2Splits(8, 8);
  }

  lemma {:induction false} Pow2Monotone(a: nat, b: nat)
    requires a <= b
    ensures Pow2(a) <= Pow2(b)
  {
    if a < b { Pow2Monotone(a, b - 1); }
  }

  lemma CountBound(prefix: nat)
    ensures Count(prefix) < WORD - 1
  {
    Pow2Of16();
    Pow2Splits(16, 8);
    Pow2Monotone(8, 16);
    MulMonotone(Pow2(16), Pow2(8), Pow2(16));
    Pow2Monotone(32 - (if prefix > 32 then 32 else if prefix < 8 then 8 else prefix), 24);
    assert Pow2(8) < 0x1_0000 by { Pow2Splits(8, 8); assert Pow2(8) >= 2 * Pow2(7) >= 2; }
  }

  /**
    * Of a pool at any base, every address is recognised as fake exactly when the block, which starts
    * behind the base, does not run over the last two octets.
    */
  lemma PoolRecognisedIff(base: u32, prefix: nat)
    ensures (forall o: nat :: 1 <= o < Count(prefix) ==> IsFake(base, Addr(base, o)))
        <==> Count(prefix) == 1 || base % 0x1_0000 + Count(prefix) <= 0x1_0000
  {
    var c, low := Count(prefix), base % 0x1_0000;
    if c == 1 || low + c <= 0x1_0000 {
      forall o: nat | 1 <= o < c ensures IsFake(base, Addr(base, o)) {
        StaysInPair(base, o);
      }
    } else {
      var o: nat := 0x1_0000 - low;
      LeavesPair(base, o);
      assert !IsFake(base, Addr(base, o));
    }
  }

  lemma StaysInPair(base: u32, o: nat)
    requires base % 0x1_0000 + o < 0x1_0000
    ensures IsFake(base, Addr(base, o))
  {
    var u := base / 0x1_0000;
    assert base + o == 0x1_0000 * u + (base % 0x1_0000 + o);
  }

  lemma LeavesPair(base: u32, o: nat)
    requires base % 0x1_0000 + o == 0x1_0000
    ensures !IsFake(base, Addr(base, o))
  {
    var u := base / 0x1_0000;
    assert base + o == 0x1_0000 * (u + 1);
  }

  lemma MulMonotone(c: nat, a: nat, b: nat)
    requires a <= b
    ensures c * a <= c * b
  {
  }

  /** An aligned base, split at the second octet: the block of c addresses fits behind the rest. */
  lemma SplitAligned(base: u32, c: nat, k: nat) returns (u: nat, r: nat)
    requires c > 0 && c * k == 0x1_0000 && base % c == 0
    ensures base == 0x1_0000 * u + r && r + c <= 0x1_0000
  {
    var q := base / c;
    assert k > 0;
    u, r := q / k, c * (q % k);
    calc {
      base;
      c * q;
      { assert q == k * u + q % k; }
      c * (k * u + q % k);
      c * (k * u) + r;
      (c * k) * u + r;
    }
    MulMonotone(c, q % k + 1, k);
    assert c * (q % k + 1) == r + c;
  }

  /** A block of c addresses, c dividing 65536, lies within one pair of leading octets. */
  lemma BlockInOnePair(base: u32, c: nat, k: nat, o: nat)
    requires c > 0 && c * k == 0x1_0000 && base % c == 0 && o < c
    ensures IsFake(base, Addr(base, o))
  {
    var u, r := SplitAligned(base, c, k);
  }

  /**
    * For a block-aligned pool every address it can return is recognised as fake exactly when its
    * prefix is 16 or longer; the default pool, a /15, is not such a pool.
    */
  lemma AllRecognisedIff(base: u32, prefix: nat)
    requires 8 <= prefix <= 32 && base % Count(prefix) == 0
    ensures (forall o: nat :: 1 <= o < Count(prefix) ==> IsFake(base, Addr(base, o))) <==> prefix >= 16
  {
    Pow2Of16();
    var c := Count(prefix);
    if prefix >= 16 {
      Pow2Splits(32 - prefix, prefix - 16);
      forall o: nat | 1 <= o < c
        ensures IsFake(base, Addr(base, o))
      {
        BlockInOnePair(base, c, Pow2(prefix - 16), o);
      }
    } else {
      Pow2Splits(16, 16 - prefix);
      assert Pow2(16 - prefix) == 2 * Pow2(15 - prefix);
      assert c == 0x1_0000 * Pow2(16 - prefix) && c >= 0x2_0000;
      AlignedHasRoom(base, c, Pow2(15 - prefix));
      assert !IsFake(base, Addr(base, 0x1_0000));
    }
  }

  /** Hence every address such a resolver ever returns is recognised. */
  lemma EveryAnswerRecognised(lower: Lower, base: u32, prefix: nat, acts: seq<Action>)
    requires 16 <= prefix <= 32 && base % Count(prefix) == 0
    requires Runs(lower, Start(base, prefix), acts).calls < WORD
    ensures var w := Runs(lower, Start(base, prefix), acts);
      forall i :: 0 <= i < |w.answers| ==> IsFake(base, w.answers[i].ip)
  {
    InvAlways(lower, Start(base, prefix), acts);
    AllRecognisedIff(base, prefix);
    PoolIsFixed(lower, Start(base, prefix), acts);
    var w := Runs(lower, Start(base, prefix), acts);
    forall i | 0 <= i < |w.answers| ensures IsFake(base, w.answers[i].ip) {
      assert Answered(lower, w.i2d, w.answers[i]);
      assert Issued(w, w.answers[i].ip);
    }
  }

  lemma {:induction false} PoolIsFixed(lower: Lower, w: World, acts: seq<Action>)
    ensures Runs(lower, w, acts).base == w.base && Runs(lower, w, acts).count == w.count
    decreases |acts|
  {
    if acts != [] { PoolIsFixed(lower, Act(lower, w, acts[0]), acts[1..]); }
  }

  lemma AlignedHasRoom(base: u32, c: nat, h: nat)
    requires h > 0 && c == 0x2_0000 * h && base % c == 0
    ensures base % 0x2_0000 == 0
  {
    var q := base / c;
    assert base == c * q == 0x2_0000 * (h * q);
  }
}
