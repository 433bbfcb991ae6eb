/** The TCP resolver: the same search, but deaf to the fallback settings, and with its own errors. */
module TcpResolver {
  import opened ResolverPolicy

  /** The last failure among the replies of one server, or `last`. */
  function LastOf(i: nat, qtypes: seq<nat>, ask: Answers, last: Error): Error
  {
    if qtypes == [] then last else
      LastOf(i, qtypes[1..], ask, if ask(i, qtypes[0]).Err? then ask(i, qtypes[0]).error else last)
  }

  /** The last failure among all replies, or `last`. */
  function LastFailure(order: seq<nat>, qtypes: seq<nat>, ask: Answers, last: Error): Error
  {
    if order == [] then last else LastFailure(order[1..], qtypes, ask, LastOf(order[0], qtypes, ask, last))
  }

  method AskOne(p: Policy, i: nat, qtypes: seq<nat>, ask: Answers, last: Error) returns (all: seq<Ip>, err: Error)
    requires i < |p.servers|
    ensures Single(p, i, qtypes, ask) == if all == [] then Err(EmptyResponse) else Ok(all)
    ensures all == [] ==> err == LastOf(i, qtypes, ask, last)
  {
    all, err := [], last;
    for k := 0 to |qtypes|
      invariant all == []
      invariant Single(p, i, qtypes, ask) == Single(p, i, qtypes[k..], ask)
      invariant LastOf(i, qtypes, ask, last) == LastOf(i, qtypes[k..], ask, err)
    {
      assert qtypes[k..][1..] == qtypes[k + 1..];
      match ask(i, qtypes[k])
      case Ok(ips) =>
        var filtered := Expected(ips, p.servers[i].expected);
        if filtered != [] {
          all := all + filtered;
          break;
        }
      case Err(e) =>
        err := e;
    }
  }

  method TcpSerialQuery(p: Policy, order: seq<nat>, qtypes: seq<nat>, ask: Answers) returns (r: Reply)
    requires Indices(p, order)
    ensures First(p, order, qtypes, ask).Ok? ==> r == First(p, order, qtypes, ask)
    ensures First(p, order, qtypes, ask).Err? ==> r == Err(LastFailure(order, qtypes, ask, EmptyResponse))
  {
    var lastErr := EmptyResponse;
    for k := 0 to |order|
      invariant First(p, order, qtypes, ask) == First(p, order[k..], qtypes, ask)
      invariant LastFailure(order, qtypes, ask, EmptyResponse) == LastFailure(order[k..], qtypes, ask, lastErr)
    {
      assert order[k..][1..] == order[k + 1..];
      var all, err := AskOne(p, order[k], qtypes, ask, lastErr);
      if all != [] { return Ok(all); }
      lastErr := err;
    }
    r := Err(lastErr);
  }

  method TcpParallelQuery(p: Policy, order: seq<nat>, qtypes: seq<nat>, ask: Answers) returns (r: Reply)
    requires Indices(p, order)
    ensures r == First(p, order, qtypes, ask)
  {
    var results := AskAll(p, order, qtypes, ask);
    r := PickFirst(p, order, qtypes, ask, results);
  }

  method AskAll(p: Policy, order: seq<nat>, qtypes: seq<nat>, ask: Answers) returns (results: seq<Reply>)
    requires Indices(p, order)
    ensures |results| == |order|
    ensures forall j :: 0 <= j < |order| ==> results[j] == Single(p, order[j], qtypes, ask)
  {
    results := [];
    for k := 0 to |order|
      invariant |results| == k
      invariant forall j :: 0 <= j < k ==> results[j] == Single(p, order[j], qtypes, ask)
    {
      var all, _ := AskOne(p, order[k], qtypes, ask, EmptyResponse);
      results := results + [if all == [] then Err(EmptyResponse) else Ok(all)];
    }
  }

  // ----- the lookup -----

  /** The settings this resolver goes by, whatever those it was given. */
  function Unrestricted(p: Policy): Policy
  {
    p.(disableFallback := false, disableFallbackIfMatch := false)
  }

  class TcpDnsResolver {
    const policy: Policy
    const enableParallel: bool
    const disableCache: bool
    var records: map<Key, Record>

    constructor (policy: Policy, enableParallel: bool, disableCache: bool)
      ensures this.policy == policy && this.enableParallel == enableParallel && this.disableCache == disableCache
      ensures records == map[]
    {
      this.policy, this.enableParallel, this.disableCache := policy, enableParallel, disableCache;
      records := map[];
    }

    /** Cache, order and query, as without restrictions; only a serial search has errors of its own. */
    method DoNameserverLookup(q: Query, done: nat) returns (r: Reply)
      requires disableCache ==> records == map[]
      modifies this
      ensures disableCache ==> records == map[]
      ensures var p := Unrestricted(policy);
        && (Outcome(p, old(records), q).Ok? ==> r == Outcome(p, old(records), q))
        && (Outcome(p, old(records), q).Err? ==>
              r == Err(if enableParallel then EmptyResponse
                       else LastFailure(Asked(p, q.domain), q.qtypes, q.ask, EmptyResponse)))
        && records == if Fresh(old(records), q) then old(records)
                      else Stored(p, disableCache, old(records), q, done)
    {
      if !disableCache && q.Key() in records && records[q.Key()].expiry > q.now {
        return Ok(records[q.Key()].ips);
      }
      var sorted, _ := SortClients(Unrestricted(policy), q.domain);
      assert sorted == Asked(Unrestricted(policy), q.domain);
      r := QueryServers(sorted, q);
      var k := FirstIsFirst(Unrestricted(policy), sorted, q.qtypes, q.ask);
      if r.Ok? && !disableCache && r.ips != [] {
        records := records[q.Key() := Record(r.ips, done + DEFAULT_TTL * SECOND)];
      }
    }

    method QueryServers(order: seq<nat>, q: Query) returns (r: Reply)
      requires Indices(Unrestricted(policy), order)
      ensures var f := First(Unrestricted(policy), order, q.qtypes, q.ask);
        r == if f.Ok? then f
             else Err(if enableParallel then EmptyResponse else LastFailure(order, q.qtypes, q.ask, EmptyResponse))
    {
      var k := FirstIsFirst(Unrestricted(policy), order, q.qtypes, q.ask);
      if enableParallel {
        r := TcpParallelQuery(Unrestricted(policy), order, q.qtypes, q.ask);
      } else {
        r := TcpSerialQuery(Unrestricted(policy), order, q.qtypes, q.ask);
      }
    }
  }

  lemma {:induction false} SameMatching(p: Policy, domain: string, n: nat)
    requires n <= |p.servers|
    ensures Matching(Unrestricted(p), domain, n) == Matching(p, domain, n)
    ensures Fallbacks(Unrestricted(p), domain, n) == Fallbacks(p, domain, n)
  {
    if n > 0 {
      SameMatching(p, domain, n - 1);
      assert Unrestricted(p).Hit(domain, n - 1) == p.Hit(domain, n - 1);
    }
  }

  lemma SameOrder(p: Policy, domain: string)
    ensures Order(Unrestricted(p), domain) == Order(p, domain)
  {
    SameMatching(p, domain, |p.servers|);
    forall i: nat | i < |p.servers| ensures Unrestricted(p).Hit(domain, i) == p.Hit(domain, i) {}
    assert Unrestricted(p).Final(domain) == p.Final(domain);
  }

  lemma {:induction false} SameSingle(p: Policy, i: nat, qtypes: seq<nat>, ask: Answers)
    requires i < |p.servers|
    ensures Single(Unrestricted(p), i, qtypes, ask) == Single(p, i, qtypes, ask)
  {
    if qtypes != [] {
      assert Useful(Unrestricted(p), i, qtypes[0], ask) == Useful(p, i, qtypes[0], ask);
      SameSingle(p, i, qtypes[1..], ask);
    }
  }

  lemma {:induction false} SameFirst(p: Policy, order: seq<nat>, qtypes: seq<nat>, ask: Answers)
    requires Indices(p, order)
    ensures Indices(Unrestricted(p), order)
    ensures First(Unrestricted(p), order, qtypes, ask) == First(p, order, qtypes, ask)
  {
    if order != [] {
      SameSingle(p, order[0], qtypes, ask);
      SameFirst(p, order[1..], qtypes, ask);
    }
  }

  /** So what it finds, when the cache has nothing fresh, is the first answer in the whole order. */
  lemma LookupSearchesWholeOrder(p: Policy, records: map<Key, Record>, q: Query)
    requires !Fresh(records, q)
    ensures Indices(p, Order(p, q.domain))
    ensures Outcome(Unrestricted(p), records, q) == First(p, Order(p, q.domain), q.qtypes, q.ask)
  {
    OrderIndices(p, q.domain);
    SameOrder(p, q.domain);
    SameFirst(p, Order(p, q.domain), q.qtypes, q.ask);
  }

  // ----- the fallback settings -----

  /** Some server that the settings forbid would still be asked. */
  ghost predicate Leaks(p: Policy, domain: string)
  {
    p.Restricted(domain) && !p.Final(domain) && Fallbacks(p, domain, |p.servers|) != []
  }

  lemma OrderIndices(p: Policy, domain: string)
    ensures Indices(p, Order(p, domain))
  {
    OrderIsStablePartition(p, domain);
    forall k | 0 <= k < |Order(p, domain)| ensures Order(p, domain)[k] < |p.servers| {
      assert Order(p, domain)[k] in Order(p, domain);
    }
  }

  /** Searching the full order, as this resolver does, answers as the settings say. */
  ghost predicate Obeys(p: Policy, domain: string, qtypes: seq<nat>, ask: Answers)
    requires Indices(p, Order(p, domain))
  {
    First(p, Order(p, domain), qtypes, ask) == First(p, Asked(p, domain), qtypes, ask)
  }

  /** The settings are obeyed whatever the servers answer exactly when no forbidden server is in the order. */
  lemma SettingsObeyedIff(p: Policy, domain: string, qtypes: seq<nat>)
    ensures Indices(p, Order(p, domain))
    ensures (forall ask :: Obeys(p, domain, qtypes, ask)) <==> qtypes == [] || !Leaks(p, domain)
  {
    OrderIndices(p, domain);
    if qtypes == [] {
      forall ask ensures Obeys(p, domain, qtypes, ask) {
        NothingAskedNothingFound(p, Order(p, domain), ask);
        NothingAskedNothingFound(p, Asked(p, domain), ask);
      }
    } else if Leaks(p, domain) {
      var ask := ForbiddenServerIsHeard(p, domain, qtypes);
      assert !Obeys(p, domain, qtypes, ask);
    } else {
      assert Order(p, domain) == Asked(p, domain);
    }
  }

  lemma {:induction false} NothingAskedNothingFound(p: Policy, order: seq<nat>, ask: Answers)
    requires Indices(p, order)
    ensures First(p, order, [], ask) == Err(EmptyResponse)
  {
    if order != [] {
      NothingAskedNothingFound(p, order[1..], ask);
    }
  }

  /** Only server `f` answers. */
  function OnlyServer(f: nat, ip: Ip): Answers
  {
    (i: nat, qtype: nat) => if i == f then Ok([ip]) else Ok([])
  }

  lemma {:induction false} OthersAreSilent(p: Policy, i: nat, f: nat, ip: Ip, qtypes: seq<nat>)
    requires i < |p.servers| && i != f
    ensures Single(p, i, qtypes, OnlyServer(f, ip)) == Err(EmptyResponse)
  {
    if qtypes != [] {
      assert Useful(p, i, qtypes[0], OnlyServer(f, ip)) == [];
      OthersAreSilent(p, i, f, ip, qtypes[1..]);
    }
  }

  lemma {:induction false} SilentServersAreSkipped(p: Policy, a: seq<nat>, b: seq<nat>, f: nat, ip: Ip, qtypes: seq<nat>)
    requires Indices(p, a) && Indices(p, a + b) && Indices(p, b)
    requires forall k :: 0 <= k < |a| ==> a[k] != f
    ensures First(p, a + b, qtypes, OnlyServer(f, ip)) == First(p, b, qtypes, OnlyServer(f, ip))
  {
    if a == [] {
      assert a + b == b;
    } else {
      OthersAreSilent(p, a[0], f, ip, qtypes);
      assert (a + b)[0] == a[0] && (a + b)[1..] == a[1..] + b;
      SilentServersAreSkipped(p, a[1..], b, f, ip, qtypes);
    }
  }

  /** A forbidden server that alone answers is heard over TCP, while the settings call for no answer. */
  lemma ForbiddenServerIsHeard(p: Policy, domain: string, qtypes: seq<nat>) returns (ask: Answers)
    requires Indices(p, Order(p, domain)) && Leaks(p, domain) && qtypes != []
    ensures First(p, Order(p, domain), qtypes, ask).Ok?
    ensures First(p, Asked(p, domain), qtypes, ask) == Err(EmptyResponse)
  {
    var n := |p.servers|;
    var a, b := Matching(p, domain, n), Fallbacks(p, domain, n);
    MatchingAre(p, domain, n);
    FallbacksAre(p, domain, n);
    var f := b[0];
    assert f in b;
    var ip: Ip := if p.servers[f].expected == [] then [] else p.servers[f].expected[0];
    ask := OnlyServer(f, ip);
    SilentServersAreSkipped(p, a, b, f, ip, qtypes);
    SilentServersAreSkipped(p, a, [], f, ip, qtypes);
    assert a + [] == a == Asked(p, domain) && a + b == Order(p, domain);
    ExpectedIff([ip], p.servers[f].expected, ip);
    assert ip in Useful(p, f, qtypes[0], ask);
  }
}
