/** The static hosts table: a domain stands for addresses or for another domain. */
module StaticHosts {
  import opened Bytes

  datatype HostEntry<Ip> = Ips(ips: seq<Ip>) | Domain(name: string)

  datatype Found<Ip> = Addresses(ips: seq<Ip>) | Replaced(name: string)

  /** A table, and how a domain is brought to the form of its keys. */
  datatype Hosts<Ip> = Hosts(entries: map<string, HostEntry<Ip>>, key: string -> string)
  {
    function Entry(domain: string): Option<HostEntry<Ip>>
    {
      if key(domain) in entries then Some(entries[key(domain)]) else None
    }
  }

  const MAX_DEPTH: nat := 5

  /** The most domains a lookup visits. */
  const LIMIT: nat := 6

  function LookupRecursive<Ip>(h: Hosts<Ip>, domain: string, depth: nat): Option<Found<Ip>>
    decreases if depth <= MAX_DEPTH then LIMIT - depth else 0
  {
    if depth > MAX_DEPTH then None else
      match h.Entry(domain)
      case None => None
      case Some(Ips(ips)) => Some(Addresses(ips))
      case Some(Domain(name)) =>
        match LookupRecursive(h, name, depth + 1)
        case None => Some(Replaced(name))
        case Some(found) => Some(found)
  }

  /** `path` is a run of replacements that starts from `domain`. */
  predicate Chain<Ip(!new)>(h: Hosts<Ip>, domain: string, path: seq<string>)
    decreases |path|
  {
    path == [] || (h.Entry(domain) == Some(Domain(path[0])) && Chain(h, path[0], path[1..]))
  }

  function End(domain: string, path: seq<string>): string
    decreases |path|
  {
    if path == [] then domain else End(path[0], path[1..])
  }

  /**
   * The result, said as a path through the table: at most `limit` replacements are followed, and the
   * search ends at addresses, at a domain the table does not have, or at the limit.
   */
  ghost predicate Reaches<Ip(!new)>(h: Hosts<Ip>, domain: string, limit: nat, path: seq<string>, r: Option<Found<Ip>>)
  {
    && |path| <= limit && Chain(h, domain, path)
    && match r
       case None => path == [] && (limit == 0 || h.Entry(domain) == None)
       case Some(Addresses(ips)) => |path| < limit && h.Entry(End(domain, path)) == Some(Ips(ips))
       case Some(Replaced(name)) =>
         path != [] && name == End(domain, path) && (|path| == limit || h.Entry(name) == None)
  }

  lemma {:induction false} LookupFollowsThePath<Ip(!new)>(h: Hosts<Ip>, domain: string, depth: nat)
    returns (path: seq<string>)
    requires depth <= LIMIT
    ensures Reaches(h, domain, LIMIT - depth, path, LookupRecursive(h, domain, depth))
    decreases LIMIT - depth
  {
    path := [];
    if depth <= MAX_DEPTH {
      match h.Entry(domain)
      case Some(Domain(name)) =>
        var rest := LookupFollowsThePath(h, name, depth + 1);
        path := [name] + rest;
        assert path[1..] == rest;
      case _ =>
    }
  }

  /** No table and domain have two such results. */
  lemma {:induction false} PathIsUnique<Ip(!new)>(
    h: Hosts<Ip>, domain: string, limit: nat, a: seq<string>, ra: Option<Found<Ip>>, b: seq<string>, rb: Option<Found<Ip>>)
    requires Reaches(h, domain, limit, a, ra) && Reaches(h, domain, limit, b, rb)
    ensures a == b && ra == rb
    decreases limit
  {
    if a != [] && b != [] {
      assert a[0] == b[0];
      assert End(domain, a) == End(a[0], a[1..]) && End(domain, b) == End(b[0], b[1..]);
      var sa, sb := Tail(ra, a[1..]), Tail(rb, b[1..]);
      PathIsUnique(h, a[0], limit - 1, a[1..], sa, b[1..], sb);
      assert a == [a[0]] + a[1..] && b == [b[0]] + b[1..];
    }
  }

  /** What is left to find after one replacement. */
  function Tail<Ip>(r: Option<Found<Ip>>, rest: seq<string>): Option<Found<Ip>>
  {
    if r.Some? && r.value.Replaced? && rest == [] then None else r
  }

  /** The lookup gives a result exactly when a path of at most six replacements leads to it. */
  lemma LookupIffPath<Ip(!new)>(h: Hosts<Ip>, domain: string, r: Option<Found<Ip>>)
    ensures LookupRecursive(h, domain, 0) == r <==> exists path :: Reaches(h, domain, LIMIT, path, r)
  {
    var path := LookupFollowsThePath(h, domain, 0);
    if other :| Reaches(h, domain, LIMIT, other, r) {
      PathIsUnique(h, domain, LIMIT, path, LookupRecursive(h, domain, 0), other, r);
    }
  }
}
