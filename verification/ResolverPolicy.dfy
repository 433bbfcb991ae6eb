/** Which name servers are asked for a domain, in what order, and whose answer comes back. */
module ResolverPolicy {
  type Ip = seq<nat>

  datatype Error = EmptyResponse | Failure(code: nat)

  datatype Reply = Ok(ips: seq<Ip>) | Err(error: Error)

  datatype NameServer = NameServer(tag: string, skipFallback: bool, expected: seq<Ip>)

  /** A resolver's settings; `matches` is `matches_domain`. */
  datatype Policy = Policy(
    servers: seq<NameServer>,
    matches: (NameServer, string) -> bool,
    disableFallback: bool,
    disableFallbackIfMatch: bool)
  {
    predicate Hit(domain: string, i: nat)
    {
      i < |servers| && matches(servers[i], domain)
    }

    /** A server that matches the domain carries the tag that ends the search. */
    ghost predicate Final(domain: string)
    {
      exists i :: 0 <= i < |servers| && Hit(domain, i) && '+' in servers[i].tag
    }

    /** The settings forbid servers that do not match the domain. */
    ghost predicate Restricted(domain: string)
    {
      disableFallback || (disableFallbackIfMatch && exists i :: 0 <= i < |servers| && Hit(domain, i))
    }
  }

  // ----- the order of the servers -----

  /** The matching servers among the first `n`, by index. */
  function Matching(p: Policy, domain: string, n: nat): seq<nat>
    requires n <= |p.servers|
  {
    if n == 0 then [] else
      Matching(p, domain, n - 1) + if p.Hit(domain, n - 1) then [n - 1 as nat] else []
  }

  function Fallbacks(p: Policy, domain: string, n: nat): seq<nat>
    requires n <= |p.servers|
  {
    if n == 0 then [] else
      Fallbacks(p, domain, n - 1)
      + if !p.Hit(domain, n - 1) && !p.servers[n - 1].skipFallback then [n - 1 as nat] else []
  }

  ghost function Order(p: Policy, domain: string): seq<nat>
  {
    Matching(p, domain, |p.servers|) + if p.Final(domain) then [] else Fallbacks(p, domain, |p.servers|)
  }

  lemma {:induction false} MatchingAre(p: Policy, domain: string, n: nat)
    requires n <= |p.servers|
    ensures forall k :: 0 <= k < |Matching(p, domain, n)| ==>
      Matching(p, domain, n)[k] < n && p.Hit(domain, Matching(p, domain, n)[k])
    ensures forall j, k :: 0 <= j < k < |Matching(p, domain, n)| ==> Matching(p, domain, n)[j] < Matching(p, domain, n)[k]
    ensures forall i: nat :: i in Matching(p, domain, n) <==> i < n && p.Hit(domain, i)
  {
    if n > 0 {
      MatchingAre(p, domain, n - 1);
    }
  }

  lemma {:induction false} FallbacksAre(p: Policy, domain: string, n: nat)
    requires n <= |p.servers|
    ensures forall k :: 0 <= k < |Fallbacks(p, domain, n)| ==>
      Fallbacks(p, domain, n)[k] < n && !p.Hit(domain, Fallbacks(p, domain, n)[k])
    ensures forall j, k :: 0 <= j < k < |Fallbacks(p, domain, n)| ==> Fallbacks(p, domain, n)[j] < Fallbacks(p, domain, n)[k]
    ensures forall i: nat :: i in Fallbacks(p, domain, n) <==> i < n && !p.Hit(domain, i) && !p.servers[i].skipFallback
  {
    if n > 0 {
      FallbacksAre(p, domain, n - 1);
    }
  }

  /** `j` comes before `k` in the order: matching servers first, and each kind as configured. */
  predicate Before(p: Policy, domain: string, j: nat, k: nat)
  {
    if p.Hit(domain, j) == p.Hit(domain, k) then j < k else p.Hit(domain, j)
  }

  /** The order is the stable partition of the admitted servers, each of which is in it once. */
  lemma OrderIsStablePartition(p: Policy, domain: string)
    ensures forall j, k :: 0 <= j < k < |Order(p, domain)| ==> Before(p, domain, Order(p, domain)[j], Order(p, domain)[k])
    ensures forall i: nat :: i in Order(p, domain) <==>
      i < |p.servers| && (p.Hit(domain, i) || (!p.Final(domain) && !p.servers[i].skipFallback))
  {
    MatchingAre(p, domain, |p.servers|);
    FallbacksAre(p, domain, |p.servers|);
  }

  /** `sort_clients_by_domain`; the servers are told apart by their place in the list. */
  method SortClients(p: Policy, domain: string) returns (order: seq<nat>, hasFinal: bool)
    ensures order == Order(p, domain) && hasFinal == p.Final(domain)
  {
    order := [];
    for i := 0 to |p.servers|
      invariant order == Matching(p, domain, i)
    {
      if p.matches(p.servers[i], domain) {
        order := order + [i];
      }
    }
    hasFinal := AnyFinal(p, domain, order);
    if !hasFinal {
      var remaining := CollectFallbacks(p, domain, order);
      order := order + remaining;
    }
  }

  method AnyFinal(p: Policy, domain: string, matched: seq<nat>) returns (found: bool)
    requires matched == Matching(p, domain, |p.servers|)
    ensures found <==> p.Final(domain)
  {
    MatchingAre(p, domain, |p.servers|);
    found := false;
    for k := 0 to |matched|
      invariant found <==> exists j :: 0 <= j < k && '+' in p.servers[matched[j]].tag
    {
      found := found || '+' in p.servers[matched[k]].tag;
    }
  }

  method CollectFallbacks(p: Policy, domain: string, matched: seq<nat>) returns (remaining: seq<nat>)
    requires matched == Matching(p, domain, |p.servers|)
    ensures remaining == Fallbacks(p, domain, |p.servers|)
  {
    MatchingAre(p, domain, |p.servers|);
    remaining := [];
    for i := 0 to |p.servers|
      invariant remaining == Fallbacks(p, domain, i)
    {
      if i !in matched && !p.servers[i].skipFallback {
        remaining := remaining + [i];
      }
    }
  }

  /** `filter_expected`: a server without expected addresses is believed whole. */
  function Expected(ips: seq<Ip>, expected: seq<Ip>): seq<Ip>
  {
    if expected == [] then ips else Kept(ips, expected)
  }

  function Kept(ips: seq<Ip>, expected: seq<Ip>): seq<Ip>
  {
    if ips == [] then [] else (if ips[0] in expected then [ips[0]] else []) + Kept(ips[1..], expected)
  }

  lemma {:induction false} ExpectedIff(ips: seq<Ip>, expected: seq<Ip>, ip: Ip)
    ensures ip in Expected(ips, expected) <==> ip in ips && (expected == [] || ip in expected)
  {
    if expected != [] && ips != [] {
      ExpectedIff(ips[1..], expected, ip);
      assert ip in ips <==> ip == ips[0] || ip in ips[1..];
    }
  }

  /** The filter keeps the order and the repeats of what it keeps. */
  lemma {:induction false} ExpectedAppend(a: seq<Ip>, b: seq<Ip>, expected: seq<Ip>)
    ensures Expected(a + b, expected) == Expected(a, expected) + Expected(b, expected)
  {
    if expected != [] {
      KeptAppend(a, b, expected);
    }
  }

  lemma {:induction false} KeptAppend(a: seq<Ip>, b: seq<Ip>, expected: seq<Ip>)
    ensures Kept(a + b, expected) == Kept(a, expected) + Kept(b, expected)
  {
    if a == [] {
      assert a + b == b;
    } else {
      KeptAppend(a[1..], b, expected);
      assert (a + b)[0] == a[0] && (a + b)[1..] == a[1..] + b;
      var head := if a[0] in expected then [a[0]] else [];
      assert head + (Kept(a[1..], expected) + Kept(b, expected)) == head + Kept(a[1..], expected) + Kept(b, expected);
    }
  }

  // ----- asking -----

  /** What each server answers to each record type during one lookup. */
  type Answers = (nat, nat) -> Reply

  function Useful(p: Policy, i: nat, qtype: nat, ask: Answers): seq<Ip>
    requires i < |p.servers|
  {
    match ask(i, qtype)
    case Ok(ips) => Expected(ips, p.servers[i].expected)
    case Err(_) => []
  }

  /** The answer of one server: that of the first record type with an expected address. */
  function Single(p: Policy, i: nat, qtypes: seq<nat>, ask: Answers): (r: Reply)
    requires i < |p.servers|
    ensures r == Err(EmptyResponse) || (r.Ok? && r.ips != [])
  {
    if qtypes == [] then Err(EmptyResponse)
    else if Useful(p, i, qtypes[0], ask) != [] then Ok(Useful(p, i, qtypes[0], ask))
    else Single(p, i, qtypes[1..], ask)
  }

  method QuerySingle(p: Policy, i: nat, qtypes: seq<nat>, ask: Answers) returns (r: Reply)
    requires i < |p.servers|
    ensures r == Single(p, i, qtypes, ask)
  {
    var all := [];
    for k := 0 to |qtypes|
      invariant all == []
      invariant Single(p, i, qtypes, ask) == Single(p, i, qtypes[k..], ask)
    {
      var reply := ask(i, qtypes[k]);
      assert qtypes[k..][1..] == qtypes[k + 1..];
      if reply.Ok? {
        var filtered := Expected(reply.ips, p.servers[i].expected);
        if filtered != [] {
          all := all + filtered;
          break;
        }
      }
    }
    r := if all == [] then Err(EmptyResponse) else Ok(all);
  }

  ghost predicate Indices(p: Policy, order: seq<nat>)
  {
    forall k :: 0 <= k < |order| ==> order[k] < |p.servers|
  }

  /** The answer of the first server that has one. */
  function First(p: Policy, order: seq<nat>, qtypes: seq<nat>, ask: Answers): Reply
    requires Indices(p, order)
  {
    if order == [] then Err(EmptyResponse)
    else if Single(p, order[0], qtypes, ask).Ok? then Single(p, order[0], qtypes, ask)
    else First(p, order[1..], qtypes, ask)
  }

  method SerialQuery(p: Policy, order: seq<nat>, qtypes: seq<nat>, ask: Answers) returns (r: Reply)
    requires Indices(p, order)
    ensures r == First(p, order, qtypes, ask)
  {
    var lastErr := EmptyResponse;
    for k := 0 to |order|
      invariant lastErr == EmptyResponse
      invariant First(p, order, qtypes, ask) == First(p, order[k..], qtypes, ask)
    {
      var reply := QuerySingle(p, order[k], qtypes, ask);
      assert order[k..][1..] == order[k + 1..];
      match reply
      case Ok(ips) =>
        if ips != [] { return Ok(ips); }
      case Err(e) =>
        lastErr := e;
    }
    r := Err(lastErr);
  }

  /** Every server is asked; the answers are then searched in the order of the servers. */
  method ParallelQuery(p: Policy, order: seq<nat>, qtypes: seq<nat>, ask: Answers) returns (r: Reply)
    requires Indices(p, order)
    ensures r == First(p, order, qtypes, ask)
  {
    var results := [];
    for k := 0 to |order|
      invariant |results| == k
      invariant forall j :: 0 <= j < k ==> results[j] == Single(p, order[j], qtypes, ask)
    {
      var reply := QuerySingle(p, order[k], qtypes, ask);
      results := results + [reply];
    }
    r := PickFirst(p, order, qtypes, ask, results);
  }

  /** The search of the answers once all are in. */
  method PickFirst(p: Policy, order: seq<nat>, qtypes: seq<nat>, ask: Answers, results: seq<Reply>) returns (r: Reply)
    requires Indices(p, order) && |results| == |order|
    requires forall j :: 0 <= j < |order| ==> results[j] == Single(p, order[j], qtypes, ask)
    ensures r == First(p, order, qtypes, ask)
  {
    for k := 0 to |order|
      invariant First(p, order, qtypes, ask) == First(p, order[k..], qtypes, ask)
    {
      assert order[k..][1..] == order[k + 1..];
      if results[k].Ok? && results[k].ips != [] {
        return results[k];
      }
    }
    r := Err(EmptyResponse);
  }

  /** The answer is that of the k-th server asked, and no earlier one had any. */
  lemma {:induction false} FirstIsFirst(p: Policy, order: seq<nat>, qtypes: seq<nat>, ask: Answers) returns (k: nat)
    requires Indices(p, order)
    ensures k <= |order|
    ensures forall j :: 0 <= j < k ==> Single(p, order[j], qtypes, ask) == Err(EmptyResponse)
    ensures First(p, order, qtypes, ask)
         == if k < |order| then Single(p, order[k], qtypes, ask) else Err(EmptyResponse)
    ensures k < |order| <==> First(p, order, qtypes, ask).Ok?
  {
    if order == [] || Single(p, order[0], qtypes, ask).Ok? {
      k := 0;
    } else {
      var rest := FirstIsFirst(p, order[1..], qtypes, ask);
      k := rest + 1;
      forall j | 0 <= j < k ensures Single(p, order[j], qtypes, ask) == Err(EmptyResponse) {
        if j > 0 {
          assert order[j] == order[1..][j - 1];
        }
      }
    }
  }

  // ----- a resolver with its cache -----

  const SECOND: nat := 1_000_000_000
  const DEFAULT_TTL: nat := 300

  datatype Record = Record(ips: seq<Ip>, expiry: nat)

  type Key = (string, seq<nat>)

  /** One lookup: the question, the clock in nanoseconds when the cache is read, and what the servers would answer. */
  datatype Query = Query(domain: string, qtypes: seq<nat>, now: nat, ask: Answers)
  {
    function Key(): Key { (domain, qtypes) }
  }

  /** The servers that may be asked. */
  ghost function Asked(p: Policy, domain: string): (r: seq<nat>)
    ensures Indices(p, r)
    ensures p.Restricted(domain) || p.Final(domain) ==> forall k :: 0 <= k < |r| ==> p.Hit(domain, r[k])
  {
    MatchingAre(p, domain, |p.servers|);
    FallbacksAre(p, domain, |p.servers|);
    if p.Restricted(domain) && !p.Final(domain) then Matching(p, domain, |p.servers|) else Order(p, domain)
  }

  ghost predicate Fresh(records: map<Key, Record>, q: Query)
  {
    q.Key() in records && records[q.Key()].expiry > q.now
  }

  ghost function Outcome(p: Policy, records: map<Key, Record>, q: Query): Reply
  {
    if Fresh(records, q) then Ok(records[q.Key()].ips) else First(p, Asked(p, q.domain), q.qtypes, q.ask)
  }

  /** The cache once the servers have been heard, at time `done`: unless the settings restricted them, it keeps the answer. */
  ghost function Stored(p: Policy, disableCache: bool, records: map<Key, Record>, q: Query, done: nat): map<Key, Record>
  {
    var r := First(p, Asked(p, q.domain), q.qtypes, q.ask);
    if disableCache || r.Err? || (p.Restricted(q.domain) && !p.Final(q.domain)) then records
    else records[q.Key() := Record(r.ips, done + DEFAULT_TTL * SECOND)]
  }

  class UdpDnsResolver {
    const policy: Policy
    const enableParallel: bool
    const disableCache: bool
    var records: map<Key, Record>

    constructor (policy: Policy, enableParallel: bool, disableCache: bool)
      ensures this.policy == policy && this.enableParallel == enableParallel && this.disableCache == disableCache
      ensures records == map[]
    {
      this.policy, this.enableParallel, this.disableCache := policy, enableParallel, disableCache;
      records := map[];
    }

    ghost predicate Valid()
      reads this
    {
      disableCache ==> records == map[]
    }

    /** `CacheController::find` with `serve_stale` off, as both resolvers set it. */
    method Find(q: Query) returns (found: seq<Ip>, hit: bool)
      requires Valid()
      ensures hit <==> Fresh(records, q)
      ensures hit ==> found == records[q.Key()].ips
    {
      found, hit := [], false;
      if !disableCache && q.Key() in records && records[q.Key()].expiry > q.now {
        found, hit := records[q.Key()].ips, true;
      }
    }

    method QueryServers(order: seq<nat>, q: Query) returns (r: Reply)
      requires Indices(policy, order)
      ensures r == First(policy, order, q.qtypes, q.ask)
    {
      if enableParallel {
        r := ParallelQuery(policy, order, q.qtypes, q.ask);
      } else {
        r := SerialQuery(policy, order, q.qtypes, q.ask);
      }
    }

    /** A lookup by itself; `done` is the clock when the answer is stored. */
    method DoNameserverLookup(q: Query, done: nat) returns (r: Reply)
      requires Valid()
      modifies this
      ensures Valid()
      ensures r == Outcome(policy, old(records), q)
      ensures records == if Fresh(old(records), q) then old(records)
                         else Stored(policy, disableCache, old(records), q, done)
    {
      var found, hit := Find(q);
      if hit { return Ok(found); }
      var sorted, hasFinal := SortClients(policy, q.domain);
      HeadMatchesIffAny(policy, q.domain);
      var hasMatch := sorted != [] && policy.Hit(q.domain, sorted[0]);
      if (policy.disableFallback || (policy.disableFallbackIfMatch && hasMatch)) && !hasFinal {
        var matchedOnly := OnlyMatching(policy, q.domain, sorted);
        if matchedOnly == [] { return Err(EmptyResponse); }
        assert matchedOnly == Asked(policy, q.domain);
        r := QueryServers(matchedOnly, q);
        return;
      }
      assert sorted == Asked(policy, q.domain);
      r := QueryServers(sorted, q);
      if r.Ok? && !disableCache && r.ips != [] {
        records := records[q.Key() := Record(r.ips, done + DEFAULT_TTL * SECOND)];
      }
      var k := FirstIsFirst(policy, sorted, q.qtypes, q.ask);
    }
  }

  method OnlyMatching(p: Policy, domain: string, sorted: seq<nat>) returns (matched: seq<nat>)
    requires sorted == Order(p, domain)
    ensures matched == Matching(p, domain, |p.servers|)
  {
    MatchingAre(p, domain, |p.servers|);
    FallbacksAre(p, domain, |p.servers|);
    matched := [];
    for k := 0 to |sorted|
      invariant matched == sorted[..k] || (matched == Matching(p, domain, |p.servers|) && k >= |matched|)
      invariant k <= |Matching(p, domain, |p.servers|)| ==> matched == sorted[..k]
      invariant k >= |Matching(p, domain, |p.servers|)| ==> matched == Matching(p, domain, |p.servers|)
    {
      if p.Hit(domain, sorted[k]) {
        matched := matched + [sorted[k]];
      }
    }
  }

  lemma HeadMatchesIffAny(p: Policy, domain: string)
    ensures Order(p, domain) != [] && p.Hit(domain, Order(p, domain)[0])
       <==> exists i :: 0 <= i < |p.servers| && p.Hit(domain, i)
  {
    MatchingAre(p, domain, |p.servers|);
    FallbacksAre(p, domain, |p.servers|);
    if i :| 0 <= i < |p.servers| && p.Hit(domain, i) {
      assert i in Matching(p, domain, |p.servers|);
    }
  }

  // ----- every interleaving of lookups -----

  /** `i` is the lookup that got the reply. */
  datatype Answer = Answer(i: nat, reply: Reply)

  /** `asked` lists the lookups begun, `waiting` those at the servers, `done` when the others stored. */
  datatype World = World(
    records: map<Key, Record>, asked: seq<Query>, waiting: set<nat>, done: map<nat, nat>, answers: seq<Answer>)

  const START: World := World(map[], [], {}, map[], [])

  datatype Action = Begin(q: Query) | End(i: nat, now: nat)

  /** A lookup reads the cache when it begins, and writes it when the servers have been heard. */
  ghost function Act(p: Policy, disableCache: bool, w: World, a: Action): World
  {
    match a
    case Begin(q) =>
      var w' := w.(asked := w.asked + [q]);
      if Fresh(w.records, q) then w'.(answers := w.answers + [Answer(|w.asked|, Ok(w.records[q.Key()].ips))])
      else w'.(waiting := w.waiting + {|w.asked|})
    case End(i, now) =>
      if i !in w.waiting || i >= |w.asked| then w else
        var q := w.asked[i];
        w.(records := Stored(p, disableCache, w.records, q, now), waiting := w.waiting - {i}, done := w.done[i := now],
           answers := w.answers + [Answer(i, First(p, Asked(p, q.domain), q.qtypes, q.ask))])
  }

  ghost function Runs(p: Policy, disableCache: bool, w: World, acts: seq<Action>): World
    decreases |acts|
  {
    if acts == [] then w else Runs(p, disableCache, Act(p, disableCache, w, acts[0]), acts[1..])
  }

  /** The addresses are the answer server `s` gave to lookup `j`, and `s` may be asked about the domain. */
  ghost predicate GivenBy(p: Policy, asked: seq<Query>, key: Key, ips: seq<Ip>, j: nat, s: nat)
  {
    && j < |asked| && asked[j].Key() == key && s in Asked(p, key.0)
    && s < |p.servers| && Single(p, s, key.1, asked[j].ask) == Ok(ips)
  }

  /** The record holds that answer, and expires three hundred seconds after lookup `j` stored it. */
  ghost predicate HeldFrom(p: Policy, w: World, key: Key, rec: Record, j: nat, s: nat)
  {
    && GivenBy(p, w.asked, key, rec.ips, j, s)
    && j in w.done && rec.expiry == w.done[j] + DEFAULT_TTL * SECOND
  }

  ghost predicate Given(p: Policy, w: World, key: Key, rec: Record)
  {
    exists j: nat, s: nat :: HeldFrom(p, w, key, rec, j, s)
  }

  /** The answer is to this very lookup, or to one that stored it less than three hundred seconds before. */
  ghost predicate SourcedBy(p: Policy, w: World, a: Answer, j: nat, s: nat)
    requires a.i < |w.asked| && a.reply.Ok?
  {
    && GivenBy(p, w.asked, w.asked[a.i].Key(), a.reply.ips, j, s)
    && (j == a.i || (j in w.done && w.asked[a.i].now < w.done[j] + DEFAULT_TTL * SECOND))
  }

  ghost predicate Sourced(p: Policy, w: World, a: Answer)
  {
    a.i < |w.asked| && (a.reply.Ok? ==> exists j: nat, s: nat :: SourcedBy(p, w, a, j, s))
  }

  ghost predicate RecordsGiven(p: Policy, w: World)
  {
    forall key :: key in w.records ==> Given(p, w, key, w.records[key])
  }

  ghost predicate AnswersSourced(p: Policy, w: World)
  {
    forall n :: 0 <= n < |w.answers| ==> Sourced(p, w, w.answers[n])
  }

  ghost predicate Inv(p: Policy, w: World)
  {
    && RecordsGiven(p, w) && AnswersSourced(p, w)
    && (forall i :: i in w.done ==> i < |w.asked| && i !in w.waiting)
  }

  /** More lookups begun and more stored; nothing of before is forgotten. */
  ghost predicate Grows(w: World, w': World)
  {
    && |w.asked| <= |w'.asked| && (forall i :: 0 <= i < |w.asked| ==> w'.asked[i] == w.asked[i])
    && (forall i :: i in w.done ==> i in w'.done && w'.done[i] == w.done[i])
  }

  lemma GivenGrows(p: Policy, w: World, w': World, key: Key, rec: Record)
    requires Grows(w, w') && Given(p, w, key, rec)
    ensures Given(p, w', key, rec)
  {
    var j: nat, s: nat :| HeldFrom(p, w, key, rec, j, s);
    assert HeldFrom(p, w', key, rec, j, s);
  }

  lemma SourcedGrows(p: Policy, w: World, w': World, a: Answer)
    requires Grows(w, w') && Sourced(p, w, a)
    ensures Sourced(p, w', a)
  {
    if a.reply.Ok? {
      var j: nat, s: nat :| SourcedBy(p, w, a, j, s);
      assert SourcedBy(p, w', a, j, s);
    }
  }

  /** An answer from the network is given by a server that may be asked. */
  lemma AnswerIsGiven(p: Policy, q: Query) returns (s: nat)
    requires First(p, Asked(p, q.domain), q.qtypes, q.ask).Ok?
    ensures s < |p.servers| && s in Asked(p, q.domain)
    ensures Single(p, s, q.qtypes, q.ask) == First(p, Asked(p, q.domain), q.qtypes, q.ask)
  {
    var order := Asked(p, q.domain);
    var k := FirstIsFirst(p, order, q.qtypes, q.ask);
    s := order[k];
  }

  lemma RecordsStayGiven(p: Policy, w: World, w': World)
    requires RecordsGiven(p, w) && Grows(w, w') && w'.records == w.records
    ensures RecordsGiven(p, w')
  {
    forall key | key in w'.records ensures Given(p, w', key, w'.records[key]) {
      GivenGrows(p, w, w', key, w.records[key]);
    }
  }

  lemma AnswersStaySourced(p: Policy, w: World, w': World)
    requires AnswersSourced(p, w) && Grows(w, w') && w'.answers == w.answers
    ensures AnswersSourced(p, w')
  {
    forall n | 0 <= n < |w'.answers| ensures Sourced(p, w', w'.answers[n]) {
      SourcedGrows(p, w, w', w.answers[n]);
    }
  }

  lemma AnswerIsAdded(p: Policy, w: World, w': World, a: Answer)
    requires AnswersSourced(p, w) && Grows(w, w') && w'.answers == w.answers + [a] && Sourced(p, w', a)
    ensures AnswersSourced(p, w')
  {
    forall n | 0 <= n < |w'.answers| ensures Sourced(p, w', w'.answers[n]) {
      if n < |w.answers| {
        SourcedGrows(p, w, w', w.answers[n]);
      }
    }
  }

  lemma BeginKeepsInv(p: Policy, disableCache: bool, w: World, q: Query)
    requires Inv(p, w)
    ensures Inv(p, Act(p, disableCache, w, Begin(q)))
  {
    var w' := Act(p, disableCache, w, Begin(q));
    BeginGrows(p, disableCache, w, q);
    RecordsStayGiven(p, w, w');
    if Fresh(w.records, q) {
      FreshIsSourced(p, w', q);
      AnswerIsAdded(p, w, w', Answer(|w.asked|, Ok(w.records[q.Key()].ips)));
    } else {
      AnswersStaySourced(p, w, w');
    }
  }

  lemma BeginGrows(p: Policy, disableCache: bool, w: World, q: Query)
    ensures var w' := Act(p, disableCache, w, Begin(q));
      Grows(w, w') && w'.records == w.records && w'.done == w.done && w'.asked == w.asked + [q]
  {
  }

  /** A fresh record is a sourced answer to the lookup just begun. */
  lemma FreshIsSourced(p: Policy, w: World, q: Query)
    requires w.asked != [] && w.asked[|w.asked| - 1] == q && Fresh(w.records, q)
    requires Given(p, w, q.Key(), w.records[q.Key()])
    ensures Sourced(p, w, Answer(|w.asked| - 1, Ok(w.records[q.Key()].ips)))
  {
    var rec := w.records[q.Key()];
    var j: nat, s: nat :| HeldFrom(p, w, q.Key(), rec, j, s);
    assert SourcedBy(p, w, Answer(|w.asked| - 1, Ok(rec.ips)), j, s);
  }

  lemma EndKeepsRecords(p: Policy, disableCache: bool, w: World, i: nat, now: nat, s: nat)
    requires RecordsGiven(p, w) && i in w.waiting && i < |w.asked| && i !in w.done
    requires var q := w.asked[i]; var r := First(p, Asked(p, q.domain), q.qtypes, q.ask);
      r.Ok? ==> GivenBy(p, w.asked, q.Key(), r.ips, i, s)
    ensures RecordsGiven(p, Act(p, disableCache, w, End(i, now)))
  {
    var w' := Act(p, disableCache, w, End(i, now));
    forall key | key in w'.records ensures Given(p, w', key, w'.records[key]) {
      if key in w.records && w'.records[key] == w.records[key] {
        GivenGrows(p, w, w', key, w.records[key]);
      } else {
        assert HeldFrom(p, w', key, w'.records[key], i, s);
      }
    }
  }

  lemma EndKeepsInv(p: Policy, disableCache: bool, w: World, i: nat, now: nat)
    requires Inv(p, w)
    ensures Inv(p, Act(p, disableCache, w, End(i, now)))
  {
    var w' := Act(p, disableCache, w, End(i, now));
    if i in w.waiting && i < |w.asked| {
      var q := w.asked[i];
      var reply := First(p, Asked(p, q.domain), q.qtypes, q.ask);
      var s := 0;
      if reply.Ok? {
        s := AnswerIsGiven(p, q);
        assert SourcedBy(p, w', Answer(i, reply), i, s);
      }
      EndKeepsRecords(p, disableCache, w, i, now, s);
      AnswerIsAdded(p, w, w', Answer(i, reply));
    }
  }

  lemma {:induction false} InvAlways(p: Policy, disableCache: bool, w: World, acts: seq<Action>)
    requires Inv(p, w)
    ensures Inv(p, Runs(p, disableCache, w, acts))
    decreases |acts|
  {
    if acts != [] {
      match acts[0] {
        case Begin(q) => BeginKeepsInv(p, disableCache, w, q);
        case End(i, now) => EndKeepsInv(p, disableCache, w, i, now);
      }
      InvAlways(p, disableCache, Act(p, disableCache, w, acts[0]), acts[1..]);
    }
  }

  /**
    * However lookups overlap, every address returned was given, by a server that may be asked about
    * that very domain, to a lookup of the same question: this one, or one that stored its answer
    * less than three hundred seconds before.
    */
  lemma AnswersHaveASource(p: Policy, disableCache: bool, acts: seq<Action>, n: nat)
    requires n < |Runs(p, disableCache, START, acts).answers|
    ensures var w := Runs(p, disableCache, START, acts); Sourced(p, w, w.answers[n])
  {
    InvAlways(p, disableCache, START, acts);
  }

  /** Under a restriction or a final tag, the cache included, only matching servers are heard. */
  lemma OnlyMatchingServersAreHeard(p: Policy, disableCache: bool, acts: seq<Action>, n: nat)
    returns (j: nat, s: nat)
    requires var w := Runs(p, disableCache, START, acts);
      && n < |w.answers| && w.answers[n].reply.Ok? && w.answers[n].i < |w.asked|
      && var domain := w.asked[w.answers[n].i].domain;
         p.Restricted(domain) || p.Final(domain)
    ensures var w := Runs(p, disableCache, START, acts);
      var a := w.answers[n];
      GivenBy(p, w.asked, w.asked[a.i].Key(), a.reply.ips, j, s) && p.Hit(w.asked[a.i].domain, s)
  {
    AnswersHaveASource(p, disableCache, acts, n);
    var w := Runs(p, disableCache, START, acts);
    var a := w.answers[n];
    j, s :| SourcedBy(p, w, a, j, s);
  }

  /** A lookup fails exactly when nothing fresh is held and no server that may be asked has an answer. */
  lemma FailsIffNoServerAnswers(p: Policy, records: map<Key, Record>, q: Query)
    ensures Outcome(p, records, q).Err? <==>
      !Fresh(records, q)
      && forall k :: 0 <= k < |Asked(p, q.domain)| ==> Single(p, Asked(p, q.domain)[k], q.qtypes, q.ask).Err?
    ensures Outcome(p, records, q).Err? ==> Outcome(p, records, q) == Err(EmptyResponse)
  {
    var k := FirstIsFirst(p, Asked(p, q.domain), q.qtypes, q.ask);
  }
}
