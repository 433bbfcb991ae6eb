/** The byte-wise carry loops that step AEAD nonces. */
module Nonce {
  import opened Bytes

  function Pow256(n: nat): (p: nat)
    ensures p >= 1
  {
    if n == 0 then 1 else 256 * Pow256(n - 1)
  }

  function WrappingInc(b: byte): byte { if b == 255 then 0 else b + 1 }

  // ----- big-endian: `inc_nonce` and `next_nonce` -----

  /** The number a nonce denotes, most significant byte first. */
  function ValueBE(s: seq<byte>): nat
  {
    if s == [] then 0 else 256 * ValueBE(s[..|s| - 1]) + s[|s| - 1]
  }

  function NextBE(s: seq<byte>): (r: seq<byte>)
    ensures |r| == |s|
  {
    if s == [] then []
    else if s[|s| - 1] < 255 then s[..|s| - 1] + [s[|s| - 1] + 1]
    else NextBE(s[..|s| - 1]) + [0]
  }

  /** The carry loop of `inc_nonce` (and `next_nonce`), in place, last byte first. */
  method IncNonce(n: array<byte>)
    modifies n
    ensures n[..] == NextBE(old(n[..]))
  {
    var i := n.Length;
    while i > 0
      invariant 0 <= i <= n.Length
      invariant forall k :: 0 <= k < i ==> n[k] == old(n[k])
      invariant forall k :: i <= k < n.Length ==> n[k] == 0 && old(n[k]) == 255
    {
      i := i - 1;
      n[i] := WrappingInc(n[i]);
      if n[i] != 0 {
        NextBEAt(old(n[..]), i + 1);
        return;
      }
    }
    NextBEAt(old(n[..]), 0);
  }

  /** The carry runs through the trailing 255s, from index i on, and stops just before it. */
  lemma {:induction false} NextBEAt(s: seq<byte>, i: nat)
    requires i <= |s| && (i > 0 ==> s[i - 1] < 255)
    requires forall k :: i <= k < |s| ==> s[k] == 255
    ensures forall k :: 0 <= k < |s| ==>
      NextBE(s)[k] == if k >= i then 0 else if k == i - 1 then s[k] + 1 else s[k]
  {
    if i < |s| { NextBEAt(s[..|s| - 1], i); }
  }

  lemma {:induction false} ValueBEBound(s: seq<byte>)
    ensures ValueBE(s) < Pow256(|s|)
  {
    if s != [] { ValueBEBound(s[..|s| - 1]); }
  }

  /** One pass of the carry loop adds one modulo 256^n, for every width n. */
  lemma {:induction false} NextBEAddsOne(s: seq<byte>)
    ensures ValueBE(NextBE(s)) == (ValueBE(s) + 1) % Pow256(|s|)
  {
    if s != [] {
      var front, last := s[..|s| - 1], s[|s| - 1];
      ValueBEBound(front);
      assert NextBE(s)[..|s| - 1] == if last < 255 then front else NextBE(front);
      if last < 255 {
        SmallMod(ValueBE(s) + 1, Pow256(|s|));
      } else {
        NextBEAddsOne(front);
        var v, p := ValueBE(front) + 1, Pow256(|front|);
        if v < p {
          SmallMod(v, p);
          SmallMod(256 * v, 256 * p);
        } else {
          SelfMod(p);
          SelfMod(256 * p);
        }
      }
    }
  }

  lemma {:induction false} ValueBEInjective(a: seq<byte>, b: seq<byte>)
    requires |a| == |b| && ValueBE(a) == ValueBE(b)
    ensures a == b
  {
    if a != [] {
      ValueBEInjective(a[..|a| - 1], b[..|b| - 1]);
      assert a == a[..|a| - 1] + [a[|a| - 1]];
      assert b == b[..|b| - 1] + [b[|b| - 1]];
    }
  }

  function IterBE(s: seq<byte>, k: nat): (r: seq<byte>)
    ensures |r| == |s|
  {
    if k == 0 then s else NextBE(IterBE(s, k - 1))
  }

  lemma {:induction false} IterBEValue(s: seq<byte>, k: nat)
    ensures ValueBE(IterBE(s, k)) == (ValueBE(s) + k) % Pow256(|s|)
  {
    var p := Pow256(|s|);
    if k == 0 {
      ValueBEBound(s);
      SmallMod(ValueBE(s), p);
    } else {
      IterBEValue(s, k - 1);
      NextBEAddsOne(IterBE(s, k - 1));
      ModSucc(ValueBE(s) + k - 1, p);
    }
  }

  /** No nonce comes back before the counter has gone once around. */
  lemma IterBEDistinct(s: seq<byte>, i: nat, j: nat)
    requires i < j < i + Pow256(|s|)
    ensures IterBE(s, i) != IterBE(s, j)
  {
    IterBEValue(s, i);
    IterBEValue(s, j);
    ModDistinct(ValueBE(s) + i, ValueBE(s) + j, Pow256(|s|));
  }

  /** After 256^n steps the counter is where it was. */
  lemma IterBEComesRound(s: seq<byte>, p: nat)
    requires p == Pow256(|s|)
    ensures IterBE(s, p) == s
  {
    IterBEValue(s, p);
    assert (ValueBE(s) + p) % p == ValueBE(s) by {
      ValueBEBound(s);
      ModPlusP(ValueBE(s), p);
      SmallMod(ValueBE(s), p);
    }
    ValueBEInjective(IterBE(s, p), s);
  }

  lemma {:induction false} IterBEShift(s: seq<byte>, k: nat)
    ensures IterBE(NextBE(s), k) == IterBE(s, k + 1)
  {
    if k > 0 { IterBEShift(s, k - 1); }
  }

  // ----- little-endian: `IncreasingNonceGenerator` -----

  /** The number a nonce denotes, least significant byte first. */
  function ValueLE(s: seq<byte>): nat
  {
    if s == [] then 0 else s[0] + 256 * ValueLE(s[1..])
  }

  function NextLE(s: seq<byte>): (r: seq<byte>)
    ensures |r| == |s|
  {
    if s == [] then []
    else if s[0] < 255 then [s[0] + 1] + s[1..]
    else [0] + NextLE(s[1..])
  }

  function IterLE(s: seq<byte>, k: nat): (r: seq<byte>)
    ensures |r| == |s|
  {
    if k == 0 then s else NextLE(IterLE(s, k - 1))
  }

  function AllOnes(n: nat): (r: seq<byte>)
    ensures |r| == n
  {
    seq(n, i => 255)
  }

  class IncreasingNonceGenerator {
    const nonce: array<byte>

    constructor (initial: seq<byte>)
      ensures fresh(nonce) && nonce[..] == initial
    {
      var a := new byte[|initial|](i requires 0 <= i < |initial| => initial[i]);
      nonce := a;
    }

    method Generate() returns (out: seq<byte>)
      modifies nonce
      ensures out == nonce[..] == NextLE(old(nonce[..]))
    {
      var i := 0;
      while i < nonce.Length
        invariant 0 <= i <= nonce.Length
        invariant forall k :: i <= k < nonce.Length ==> nonce[k] == old(nonce[k])
        invariant forall k :: 0 <= k < i ==> nonce[k] == 0 && old(nonce[k]) == 255
      {
        nonce[i] := WrappingInc(nonce[i]);
        if nonce[i] != 0 {
          break;
        }
        i := i + 1;
      }
      NextLEAt(old(nonce[..]), i);
      return nonce[..];
    }
  }

  /** The carry runs through the leading 255s, up to index i, and stops there. */
  lemma {:induction false} NextLEAt(s: seq<byte>, i: nat)
    requires i <= |s| && (i < |s| ==> s[i] < 255)
    requires forall k :: 0 <= k < i ==> s[k] == 255
    ensures forall k :: 0 <= k < |s| ==>
      NextLE(s)[k] == if k < i then 0 else if k == i then s[k] + 1 else s[k]
  {
    if i > 0 { NextLEAt(s[1..], i - 1); }
  }

  /** `aead_nonce_generator`: starts one below zero, so the first nonce is all zeros. */
  method AeadNonceGenerator(size: nat) returns (g: IncreasingNonceGenerator)
    ensures fresh(g) && fresh(g.nonce) && g.nonce[..] == AllOnes(size)
  {
    g := new IncreasingNonceGenerator(AllOnes(size));
  }

  lemma {:induction false} ValueLEBound(s: seq<byte>)
    ensures ValueLE(s) < Pow256(|s|)
  {
    if s != [] { ValueLEBound(s[1..]); }
  }

  lemma {:induction false} NextLEAddsOne(s: seq<byte>)
    ensures ValueLE(NextLE(s)) == (ValueLE(s) + 1) % Pow256(|s|)
  {
    if s != [] {
      ValueLEBound(s[1..]);
      assert NextLE(s)[1..] == if s[0] < 255 then s[1..] else NextLE(s[1..]);
      if s[0] < 255 {
        SmallMod(ValueLE(s) + 1, Pow256(|s|));
      } else {
        NextLEAddsOne(s[1..]);
        var v, p := ValueLE(s[1..]) + 1, Pow256(|s| - 1);
        if v < p {
          SmallMod(v, p);
          SmallMod(256 * v, 256 * p);
        } else {
          SelfMod(p);
          SelfMod(256 * p);
        }
      }
    }
  }

  lemma {:induction false} AllOnesValue(n: nat)
    ensures ValueLE(AllOnes(n)) == Pow256(n) - 1
  {
    if n > 0 {
      AllOnesValue(n - 1);
      assert AllOnes(n)[1..] == AllOnes(n - 1);
    }
  }

  /** The k-th nonce of `aead_nonce_generator`, counting from zero, denotes k. */
  lemma {:induction false} AeadNonceCountsFromZero(n: nat, k: nat)
    ensures ValueLE(IterLE(AllOnes(n), k + 1)) == k % Pow256(n)
  {
    var p := Pow256(n);
    if k == 0 {
      AllOnesValue(n);
      NextLEAddsOne(AllOnes(n));
      assert IterLE(AllOnes(n), 1) == NextLE(IterLE(AllOnes(n), 0));
      SelfMod(p);
      SmallMod(0, p);
    } else {
      AeadNonceCountsFromZero(n, k - 1);
      NextLEAddsOne(IterLE(AllOnes(n), k));
      ModSucc(k - 1, p);
    }
  }

  /** Hence the first 256^n nonces of a generator are pairwise distinct. */
  lemma AeadNoncesDistinct(n: nat, i: nat, j: nat)
    requires i < j < i + Pow256(n)
    ensures IterLE(AllOnes(n), i + 1) != IterLE(AllOnes(n), j + 1)
  {
    AeadNonceCountsFromZero(n, i);
    AeadNonceCountsFromZero(n, j);
    ModDistinct(i, j, Pow256(n));
  }

  // ----- the modular arithmetic used above -----

  lemma SmallMod(x: nat, p: nat)
    requires x < p
    ensures x % p == x
  {
  }

  lemma SelfMod(p: nat)
    requires p > 0
    ensures p % p == 0
  {
  }

  lemma ModSucc(x: nat, p: nat)
    requires p > 0
    ensures (x % p + 1) % p == (x + 1) % p
  {
    var q, r := x / p, x % p;
    assert x + 1 == p * q + (r + 1);
    ModMultiple(q, r + 1, p);
  }

  lemma {:induction false} ModMultiple(q: nat, r: nat, p: nat)
    requires p > 0
    ensures (p * q + r) % p == r % p
  {
    if q > 0 {
      ModMultiple(q - 1, r, p);
      ModPlusP(p * (q - 1) + r, p);
      assert p * q == p * (q - 1) + p;
    }
  }

  lemma ModPlusP(x: nat, p: nat)
    requires p > 0
    ensures (x + p) % p == x % p
  {
    OnlyMultiple(x / p + 1 - (x + p) / p, (x + p) % p - x % p, p);
  }

  lemma ModDistinct(x: nat, y: nat, p: nat)
    requires x < y < x + p
    ensures x % p != y % p
  {
    assert x == p * (x / p) + x % p;
    assert y == p * (y / p) + y % p;
    if x % p == y % p {
      OnlyMultiple(y / p - x / p, y - x, p);
    }
  }

  /** Zero is the only multiple of p strictly between -p and p. */
  lemma OnlyMultiple(d: int, m: int, p: int)
    requires p > 0 && m == p * d && -p < m < p
    ensures m == 0
  {
    assert d >= 1 ==> p * d >= p;
    assert d <= -1 ==> p * d <= -p;
  }
}
