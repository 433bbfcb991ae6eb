/** The order in which the addresses of a host are tried: the preferred family first, then alternating. */
module HappyEyeballs {
  datatype Addr = V4(ip: nat, port: nat) | V6(ip: nat, port: nat)

  function Max(a: int, b: int): int { if a >= b then a else b }

  function Min(a: int, b: int): int { if a <= b then a else b }

  /** The addresses of one family, in order. */
  function Family(s: seq<Addr>, six: bool): (r: seq<Addr>)
  {
    if s == [] then [] else (if s[0].V6? == six then [s[0]] else []) + Family(s[1..], six)
  }

  /** The two lists dealt out in turn, the longer one continuing alone. */
  function Interleaved(a: seq<Addr>, b: seq<Addr>): (r: seq<Addr>)
    ensures |r| == |a| + |b|
  {
    if a == [] then b else if b == [] then a else [a[0], b[0]] + Interleaved(a[1..], b[1..])
  }

  /** How many addresses are out after `idx` turns. */
  function Dealt(a: seq<Addr>, b: seq<Addr>, idx: nat): nat
  {
    Min(idx, |a|) + Min(idx, |b|)
  }

  method Interleave(preferred: seq<Addr>, other: seq<Addr>, out: array<Addr>)
    requires out.Length == |preferred| + |other|
    modifies out
    ensures out[..] == Interleaved(preferred, other)
  {
    var i := 0;
    var maxLen := Max(|preferred|, |other|);
    ghost var all := Interleaved(preferred, other);
    for idx := 0 to maxLen
      invariant i == Dealt(preferred, other, idx)
      invariant out[..i] == all[..i]
    {
      if idx < |preferred| {
        PreferredAt(preferred, other, idx, i);
        i := Put(out, i, preferred[idx], all);
      }
      if idx < |other| {
        OtherAt(preferred, other, idx, i);
        i := Put(out, i, other[idx], all);
      }
    }
  }

  method Put(out: array<Addr>, i: nat, x: Addr, ghost all: seq<Addr>) returns (next: nat)
    requires i < out.Length == |all| && out[..i] == all[..i] && all[i] == x
    modifies out
    ensures next == i + 1 && out[..next] == all[..next]
  {
    out[i] := x;
    next := i + 1;
  }

  /** The address at place `k`, said without dealing. */
  function Pick(a: seq<Addr>, b: seq<Addr>, k: nat): Addr
    requires k < |a| + |b|
  {
    var m := Min(|a|, |b|);
    if k < 2 * m then (if k % 2 == 0 then a[k / 2] else b[k / 2])
    else if |a| > |b| then a[k - m] else b[k - m]
  }

  lemma {:induction false} InterleavedIsPick(a: seq<Addr>, b: seq<Addr>, k: nat)
    requires k < |a| + |b|
    ensures Interleaved(a, b)[k] == Pick(a, b, k)
    decreases k
  {
    if a != [] && b != [] && k >= 2 {
      InterleavedIsPick(a[1..], b[1..], k - 2);
      PickStep(a, b, k);
    }
  }

  lemma PickStep(a: seq<Addr>, b: seq<Addr>, k: nat)
    requires a != [] && b != [] && 2 <= k < |a| + |b|
    ensures Pick(a, b, k) == Pick(a[1..], b[1..], k - 2)
  {
    assert (k - 2) / 2 == k / 2 - 1 && (k - 2) % 2 == k % 2;
  }

  lemma Halves(n: nat)
    ensures (2 * n) / 2 == n && (2 * n) % 2 == 0 && (2 * n + 1) / 2 == n && (2 * n + 1) % 2 == 1
  {
  }

  lemma PickBoth(a: seq<Addr>, b: seq<Addr>, idx: nat)
    requires idx < |a| && idx < |b|
    ensures Pick(a, b, 2 * idx) == a[idx] && Pick(a, b, 2 * idx + 1) == b[idx]
  {
    Halves(idx);
  }

  lemma PickRest(a: seq<Addr>, b: seq<Addr>, idx: nat)
    requires idx >= Min(|a|, |b|) && idx < Max(|a|, |b|)
    ensures Pick(a, b, Min(|a|, |b|) + idx) == if idx < |a| then a[idx] else b[idx]
  {
  }

  lemma PlaceOf(a: seq<Addr>, b: seq<Addr>, k: nat, x: Addr)
    requires k < |a| + |b| && Pick(a, b, k) == x
    ensures Interleaved(a, b)[k] == x
  {
    InterleavedIsPick(a, b, k);
  }

  /** Where turn `idx` puts its address of the first list. */
  lemma PreferredAt(a: seq<Addr>, b: seq<Addr>, idx: nat, k: nat)
    requires idx < |a| && k == Dealt(a, b, idx)
    ensures k < |a| + |b| && Interleaved(a, b)[k] == a[idx]
  {
    if idx < |b| { PickBoth(a, b, idx); } else { PickRest(a, b, idx); }
    PlaceOf(a, b, k, a[idx]);
  }

  /** And where that of the second. */
  lemma OtherAt(a: seq<Addr>, b: seq<Addr>, idx: nat, k: nat)
    requires idx < |b| && k == Dealt(a, b, idx) + if idx < |a| then 1 else 0
    ensures k < |a| + |b| && Interleaved(a, b)[k] == b[idx]
  {
    if idx < |a| { PickBoth(a, b, idx); } else { PickRest(a, b, idx); }
    PlaceOf(a, b, k, b[idx]);
  }

  method SortAddresses(addrs: array<Addr>, preferIpv6: bool)
    modifies addrs
    ensures addrs[..] == Sorted(old(addrs[..]), preferIpv6)
  {
    var v6, v4 := [], [];
    for k := 0 to addrs.Length
      invariant addrs[..] == old(addrs[..])
      invariant v6 == Family(addrs[..k], true) && v4 == Family(addrs[..k], false)
    {
      assert addrs[..k + 1] == addrs[..k] + [addrs[k]];
      FamilySnoc(addrs[..k], addrs[k], true);
      FamilySnoc(addrs[..k], addrs[k], false);
      if addrs[k].V6? {
        v6 := v6 + [addrs[k]];
      } else {
        v4 := v4 + [addrs[k]];
      }
    }
    assert addrs[..addrs.Length] == addrs[..];
    FamiliesSplit(addrs[..], true);
    if preferIpv6 {
      Interleave(v6, v4, addrs);
    } else {
      Interleave(v4, v6, addrs);
    }
  }

  function Sorted(s: seq<Addr>, preferIpv6: bool): seq<Addr>
  {
    Interleaved(Family(s, preferIpv6), Family(s, !preferIpv6))
  }

  lemma {:induction false} FamilySnoc(s: seq<Addr>, x: Addr, six: bool)
    ensures Family(s + [x], six) == Family(s, six) + if x.V6? == six then [x] else []
  {
    if s == [] {
      assert s + [x] == [x];
    } else {
      FamilySnoc(s[1..], x, six);
      assert (s + [x])[0] == s[0] && (s + [x])[1..] == s[1..] + [x];
    }
  }

  predicate AllOf(s: seq<Addr>, six: bool)
  {
    s == [] || (s[0].V6? == six && AllOf(s[1..], six))
  }

  lemma {:induction false} AllOfAt(s: seq<Addr>, six: bool, k: nat)
    requires AllOf(s, six) && k < |s|
    ensures s[k].V6? == six
  {
    if k > 0 {
      AllOfAt(s[1..], six, k - 1);
    }
  }

  lemma {:induction false} FamiliesSplit(s: seq<Addr>, six: bool)
    ensures |Family(s, six)| + |Family(s, !six)| == |s|
    ensures multiset(Family(s, six)) + multiset(Family(s, !six)) == multiset(s)
  {
    if s != [] {
      FamiliesSplit(s[1..], six);
      assert s == [s[0]] + s[1..];
    }
  }

  lemma {:induction false} FamilyIsOfOneKind(s: seq<Addr>, six: bool)
    ensures AllOf(Family(s, six), six)
  {
    if s != [] {
      FamilyIsOfOneKind(s[1..], six);
      var rest := Family(s[1..], six);
      assert ([s[0]] + rest)[1..] == rest && [] + rest == rest;
    }
  }

  lemma {:induction false} FamilyOfOneKind(a: seq<Addr>, six: bool)
    requires AllOf(a, six)
    ensures Family(a, six) == a && Family(a, !six) == []
  {
    if a != [] {
      FamilyOfOneKind(a[1..], six);
      assert a == [a[0]] + a[1..];
    }
  }

  /** Dealing out two families of one kind each loses nothing and keeps the order inside each. */
  lemma {:induction false} InterleavedKeepsFamilies(a: seq<Addr>, b: seq<Addr>, six: bool)
    requires AllOf(a, six) && AllOf(b, !six)
    ensures Family(Interleaved(a, b), six) == a && Family(Interleaved(a, b), !six) == b
  {
    if a == [] {
      FamilyOfOneKind(b, !six);
    } else if b == [] {
      FamilyOfOneKind(a, six);
    } else {
      InterleavedKeepsFamilies(a[1..], b[1..], six);
      var rest := Interleaved(a[1..], b[1..]);
      FamilyOfPair(a[0], b[0], rest, six);
      FamilyOfPair(a[0], b[0], rest, !six);
      assert a == [a[0]] + a[1..] && b == [b[0]] + b[1..];
    }
  }

  lemma FamilyOfPair(x: Addr, y: Addr, rest: seq<Addr>, six: bool)
    requires x.V6? != y.V6?
    ensures Family([x, y] + rest, six) == [if x.V6? == six then x else y] + Family(rest, six)
  {
    var r := [x, y] + rest;
    assert r[1..] == [y] + rest && r[1..][1..] == rest;
  }

  /** The sorted list is a permutation that keeps the order of the resolver inside each family. */
  lemma SortKeepsAddresses(s: seq<Addr>, preferIpv6: bool, six: bool)
    ensures multiset(Sorted(s, preferIpv6)) == multiset(s)
    ensures Family(Sorted(s, preferIpv6), six) == Family(s, six)
  {
    var r := Sorted(s, preferIpv6);
    FamiliesSplit(s, preferIpv6);
    FamilyIsOfOneKind(s, preferIpv6);
    FamilyIsOfOneKind(s, !preferIpv6);
    InterleavedKeepsFamilies(Family(s, preferIpv6), Family(s, !preferIpv6), preferIpv6);
    FamiliesSplit(r, preferIpv6);
  }

  /** While both families last they alternate, the preferred one on the even places; then one is left. */
  lemma SortAlternates(s: seq<Addr>, preferIpv6: bool, k: nat)
    requires k < |s|
    ensures |Sorted(s, preferIpv6)| == |s|
    ensures var a, b := |Family(s, preferIpv6)|, |Family(s, !preferIpv6)|;
      Sorted(s, preferIpv6)[k].V6? == preferIpv6 <==> if k < 2 * Min(a, b) then k % 2 == 0 else a > b
  {
    FamiliesSplit(s, preferIpv6);
    FamilyIsOfOneKind(s, preferIpv6);
    FamilyIsOfOneKind(s, !preferIpv6);
    var a, b := Family(s, preferIpv6), Family(s, !preferIpv6);
    InterleavedIsPick(a, b, k);
    PickKind(a, b, preferIpv6, k);
  }

  lemma PickKind(a: seq<Addr>, b: seq<Addr>, six: bool, k: nat)
    requires AllOf(a, six) && AllOf(b, !six) && k < |a| + |b|
    ensures Pick(a, b, k).V6? == six <==> if k < 2 * Min(|a|, |b|) then k % 2 == 0 else |a| > |b|
  {
    var m := Min(|a|, |b|);
    if k < 2 * m {
      AllOfAt(a, six, k / 2);
      AllOfAt(b, !six, k / 2);
    } else if |a| > |b| {
      AllOfAt(a, six, k - m);
    } else {
      AllOfAt(b, !six, k - m);
    }
  }
}
