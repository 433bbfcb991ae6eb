/** Bytes, big-endian integers and lists of chunks: the vocabulary every other module uses. */
module Bytes {
  type byte = x: int | 0 <= x < 0x100
  type u16 = x: int | 0 <= x < 0x1_0000
  type u32 = x: int | 0 <= x < 0x1_0000_0000

  datatype Option<+T> = None | Some(value: T)

  function Min(a: int, b: int): int { if a <= b then a else b }

  /** `(n as u16).to_be_bytes()`: the cast keeps the low sixteen bits. */
  function U16Bytes(n: nat): (r: seq<byte>)
    ensures |r| == 2
  {
    var m := n % 0x1_0000;
    [m / 0x100, m % 0x100]
  }

  function U16Of(hi: byte, lo: byte): u16 { hi * 0x100 + lo }

  lemma U16RoundTrip(n: nat)
    ensures var b := U16Bytes(n); U16Of(b[0], b[1]) == n % 0x1_0000
  {
  }

  lemma SmallRoundTrip(n: u16)
    ensures var b := U16Bytes(n); U16Of(b[0], b[1]) == n
  {
  }

  function U32Bytes(n: u32): (r: seq<byte>)
    ensures |r| == 4
  {
    U16Bytes(n / 0x1_0000) + U16Bytes(n % 0x1_0000)
  }

  function U32Of(a: byte, b: byte, c: byte, d: byte): u32
  {
    U16Of(a, b) * 0x1_0000 + U16Of(c, d)
  }

  lemma U32RoundTrip(n: u32)
    ensures var b := U32Bytes(n); U32Of(b[0], b[1], b[2], b[3]) == n
  {
    var hi, lo := n / 0x1_0000, n % 0x1_0000;
    SmallRoundTrip(hi);
    SmallRoundTrip(lo);
    assert U32Bytes(n) == [U16Bytes(hi)[0], U16Bytes(hi)[1], U16Bytes(lo)[0], U16Bytes(lo)[1]];
  }

  /** The flat sequence a list of chunks stands for. */
  function Concat<T>(chunks: seq<seq<T>>): seq<T>
  {
    if chunks == [] then [] else chunks[0] + Concat(chunks[1..])
  }

  lemma {:induction false} ConcatAppend<T>(a: seq<seq<T>>, b: seq<seq<T>>)
    ensures Concat(a + b) == Concat(a) + Concat(b)
  {
    if a == [] {
      assert a + b == b;
    } else {
      ConcatAppend(a[1..], b);
      assert (a + b)[0] == a[0] && (a + b)[1..] == a[1..] + b;
      Assoc(a[0], Concat(a[1..]), Concat(b));
    }
  }

  lemma ConcatSnoc<T>(a: seq<seq<T>>, x: seq<T>)
    ensures Concat(a + [x]) == Concat(a) + x
  {
    ConcatAppend(a, [x]);
    assert Concat([x]) == x + Concat([x][1..]) == x;
  }

  // ----- sequence algebra, kept apart so that the solver meets it in a small context -----

  lemma Assoc<T>(a: seq<T>, b: seq<T>, c: seq<T>)
    ensures a + (b + c) == a + b + c
  {
  }

  lemma ConsTail<T>(s: seq<T>, t: seq<T>)
    requires s != []
    ensures [s[0]] + (s[1..] + t) == s + t
  {
  }

  lemma SliceSlice<T>(s: seq<T>, i: nat, j: nat, k: nat)
    requires i + j <= i + k <= |s|
    ensures s[i..][j..k] == s[i + j..i + k]
  {
  }

  lemma TakeDrop<T>(s: seq<T>, k: nat)
    requires k <= |s|
    ensures s[..k] + s[k..] == s
  {
  }

  lemma DropBack<T>(s: seq<T>, k: nat)
    requires k < |s|
    ensures [s[k]] + s[k + 1..] == s[k..] && s[..k + 1] == s[..k] + [s[k]] && s[..k + 1][..k] == s[..k]
  {
  }

  lemma SliceJoin<T>(s: seq<T>, i: nat, j: nat)
    requires i <= j <= |s|
    ensures s[i..j] + s[j..] == s[i..]
  {
  }

  lemma Parts<T>(a: seq<T>, b: seq<T>, c: seq<T>)
    ensures var w := a + b + c;
      && w[..|a|] == a
      && w[|a|..|a| + |b|] == b
      && w[|a|..] == b + c
      && w[|a| + |b|..] == c
  {
  }

  /** A two-byte length and what it counts, read back from the front of a sequence. */
  lemma Prefixed(body: seq<byte>, after: seq<byte>)
    requires |body| < 0x1_0000
    ensures var w := U16Bytes(|body|) + body + after;
      && |w| == 2 + |body| + |after| && U16Of(w[0], w[1]) == |body|
      && w[2..2 + |body|] == body && w[2 + |body|..] == after
  {
    var b := U16Bytes(|body|);
    SmallRoundTrip(|body|);
    Parts(b, body, after);
    assert (b + body + after)[0] == b[0] && (b + body + after)[1] == b[1];
  }

  /** `part` is what `s` holds from index `pos` on. */
  ghost predicate Stands<T>(s: seq<T>, pos: nat, part: seq<T>)
  {
    pos + |part| <= |s| && s[pos..pos + |part|] == part
  }

  lemma StandsSplit<T>(s: seq<T>, pos: nat, a: seq<T>, b: seq<T>)
    requires Stands(s, pos, a + b)
    ensures Stands(s, pos, a) && Stands(s, pos + |a|, b)
  {
    var w := s[pos..pos + |a + b|];
    assert w[..|a|] == a && w[|a|..] == b;
    assert s[pos..pos + |a|] == w[..|a|];
    assert s[pos + |a|..pos + |a| + |b|] == w[|a|..];
  }

  lemma StandsAt<T>(s: seq<T>, pos: nat, part: seq<T>, i: nat)
    requires Stands(s, pos, part) && i < |part|
    ensures s[pos + i] == part[i]
  {
    assert s[pos..pos + |part|][i] == s[pos + i];
  }

  lemma StandsIn<T>(a: seq<T>, b: seq<T>, c: seq<T>)
    ensures Stands(a + b + c, |a|, b)
  {
    Parts(a, b, c);
  }
}
