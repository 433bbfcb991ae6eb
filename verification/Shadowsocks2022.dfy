/** The Shadowsocks-2022 TCP chunk stream: sealed length, then sealed payload, one nonce each. */
module Shadowsocks2022 {
  import opened Bytes
  import opened AeadCipher
  import opened Nonce

  const MAX_PKT: nat := 16383

  function Chunk(a: Aead, nonce: seq<byte>, data: seq<byte>): seq<byte>
  {
    a.seal(nonce, [], U16Bytes(|data|)) + a.seal(NextBE(nonce), [], data)
  }

  function Chunks(a: Aead, nonce: seq<byte>, payloads: seq<seq<byte>>): seq<byte>
    decreases |payloads|
  {
    if payloads == [] then []
    else Chunk(a, nonce, payloads[0]) + Chunks(a, NextBE(NextBE(nonce)), payloads[1..])
  }

  method WriteChunk(a: Aead, nonce: array<byte>, data: seq<byte>) returns (out: seq<byte>)
    modifies nonce
    ensures out == Chunk(a, old(nonce[..]), data)
    ensures nonce[..] == IterBE(old(nonce[..]), 2)
  {
    ghost var n := nonce[..];
    assert IterBE(n, 1) == NextBE(IterBE(n, 0));
    var lenCt := a.seal(nonce[..], [], U16Bytes(|data|));
    IncNonce(nonce);
    var payloadCt := a.seal(nonce[..], [], data);
    IncNonce(nonce);
    out := lenCt + payloadCt;
  }

  /** `NoMore` is `Ok(None)`; `Panic` is indexing a length plaintext of under two bytes. */
  datatype ReadResult = NoMore | Got(payload: seq<byte>) | Error | Panic

  datatype Read = Read(result: ReadResult, nonce: seq<byte>, rest: seq<byte>)

  function ReadOne(a: Aead, nonce: seq<byte>, wire: seq<byte>): (r: Read)
    ensures r.result.Got? ==> |r.rest| < |wire|
  {
    if |wire| < 2 + TAG then Read(NoMore, nonce, [])
    else match a.unseal(nonce, [], wire[..2 + TAG])
      case None => Read(Error, nonce, wire[2 + TAG..])
      case Some(lenPt) =>
        var n1, rest := NextBE(nonce), wire[2 + TAG..];
        if |lenPt| < 2 then Read(Panic, n1, rest)
        else
          var len := U16Of(lenPt[0], lenPt[1]);
          if len == 0 || len > MAX_PKT then Read(Error, n1, rest)
          else if |rest| < len + TAG then Read(Error, n1, [])
          else match a.unseal(n1, [], rest[..len + TAG])
            case None => Read(Error, n1, rest[len + TAG..])
            case Some(p) => Read(Got(p), NextBE(n1), rest[len + TAG..])
  }

  method ReadChunk(a: Aead, nonce: array<byte>, wire: seq<byte>) returns (result: ReadResult, rest: seq<byte>)
    modifies nonce
    ensures Read(result, nonce[..], rest) == ReadOne(a, old(nonce[..]), wire)
  {
    if |wire| < 2 + TAG { return NoMore, []; }
    var lenEnc := wire[..2 + TAG];
    rest := wire[2 + TAG..];
    var lenPt := a.unseal(nonce[..], [], lenEnc);
    if lenPt == None { return Error, rest; }
    IncNonce(nonce);
    if |lenPt.value| < 2 { return Panic, rest; }
    var len := U16Of(lenPt.value[0], lenPt.value[1]);
    if len == 0 || len > MAX_PKT { return Error, rest; }
    if |rest| < len + TAG { return Error, []; }
    var payload := a.unseal(nonce[..], [], rest[..len + TAG]);
    rest := rest[len + TAG..];
    if payload == None { return Error, rest; }
    IncNonce(nonce);
    return Got(payload.value), rest;
  }

  /** The two sealed parts of a chunk, as `read_chunk` slices them off the wire. */
  lemma ChunkParts(a: Aead, nonce: seq<byte>, p: seq<byte>, tail: seq<byte>)
    requires Lawful(a)
    ensures var wire, ct := Chunk(a, nonce, p) + tail, a.seal(NextBE(nonce), [], p);
      && |wire| == 2 + TAG + |p| + TAG + |tail|
      && wire[..2 + TAG] == a.seal(nonce, [], U16Bytes(|p|))
      && wire[2 + TAG..] == ct + tail
      && (ct + tail)[..|p| + TAG] == ct
      && (ct + tail)[|p| + TAG..] == tail
  {
    var lenCt, ct := a.seal(nonce, [], U16Bytes(|p|)), a.seal(NextBE(nonce), [], p);
    Assoc(lenCt, ct, tail);
  }

  lemma ChunkReads(a: Aead, nonce: seq<byte>, p: seq<byte>, tail: seq<byte>)
    requires Lawful(a) && 1 <= |p| <= MAX_PKT
    ensures ReadOne(a, nonce, Chunk(a, nonce, p) + tail) == Read(Got(p), NextBE(NextBE(nonce)), tail)
  {
    ChunkParts(a, nonce, p, tail);
    U16RoundTrip(|p|);
  }

  /** A length that does not fit is refused, or cut to its low sixteen bits and leaves bytes behind. */
  lemma MisfitChunkFails(a: Aead, nonce: seq<byte>, p: seq<byte>, tail: seq<byte>)
    requires Lawful(a) && !(1 <= |p| <= MAX_PKT)
    ensures var r := ReadOne(a, nonce, Chunk(a, nonce, p) + tail); r.result.Got? ==> |r.rest| > |tail|
  {
    ChunkParts(a, nonce, p, tail);
    U16RoundTrip(|p|);
  }

  /** One chunk reads back whole, nonces in step, exactly for payloads of 1 to 16383 bytes. */
  lemma ChunkRoundTripIff(a: Aead, nonce: seq<byte>, p: seq<byte>, tail: seq<byte>)
    requires Lawful(a)
    ensures ReadOne(a, nonce, Chunk(a, nonce, p) + tail) == Read(Got(p), NextBE(NextBE(nonce)), tail)
        <==> 1 <= |p| <= MAX_PKT
  {
    if 1 <= |p| <= MAX_PKT {
      ChunkReads(a, nonce, p, tail);
    } else {
      MisfitChunkFails(a, nonce, p, tail);
    }
  }

  datatype Stream = Stream(payloads: seq<seq<byte>>, stop: ReadResult, nonce: seq<byte>)

  /** Calling `read_chunk` until it yields no payload. */
  function ReadAll(a: Aead, nonce: seq<byte>, wire: seq<byte>): Stream
    decreases |wire|
  {
    var r := ReadOne(a, nonce, wire);
    if !r.result.Got? then Stream([], r.result, r.nonce)
    else
      var s := ReadAll(a, r.nonce, r.rest);
      s.(payloads := [r.result.payload] + s.payloads)
  }

  ghost predicate Sendable(payloads: seq<seq<byte>>)
  {
    forall i :: 0 <= i < |payloads| ==> 1 <= |payloads[i]| <= MAX_PKT
  }

  /** Reading undoes writing for every list of payloads, both counters having moved by two a chunk. */
  lemma StreamRoundTrip(a: Aead, nonce: seq<byte>, payloads: seq<seq<byte>>, tail: seq<byte>)
    requires Lawful(a) && Sendable(payloads)
    ensures var s := ReadAll(a, IterBE(nonce, 2 * |payloads|), tail);
      ReadAll(a, nonce, Chunks(a, nonce, payloads) + tail) == s.(payloads := payloads + s.payloads)
  {
    var wire, end := Chunks(a, nonce, payloads) + tail, IterBE(nonce, 2 * |payloads|);
    ChunksYield(a, nonce, payloads, tail, wire, end);
    YieldedIsRead(a, nonce, wire, payloads, end, tail);
  }

  /** Reading off `wire` gives `ps` one by one, and leaves the nonce at `end` before `rest`. */
  ghost predicate Yields(
    a: Aead, nonce: seq<byte>, wire: seq<byte>, ps: seq<seq<byte>>, end: seq<byte>, rest: seq<byte>)
    decreases |ps|
  {
    if ps == [] then nonce == end && wire == rest else
      var r := ReadOne(a, nonce, wire);
      r.result == Got(ps[0]) && Yields(a, r.nonce, r.rest, ps[1..], end, rest)
  }

  lemma {:induction false} YieldedIsRead(
      a: Aead, nonce: seq<byte>, wire: seq<byte>, ps: seq<seq<byte>>, end: seq<byte>, rest: seq<byte>)
    requires Yields(a, nonce, wire, ps, end, rest)
    ensures var s := ReadAll(a, end, rest); ReadAll(a, nonce, wire) == s.(payloads := ps + s.payloads)
    decreases |ps|
  {
    var s := ReadAll(a, end, rest);
    if ps == [] {
      assert ps + s.payloads == s.payloads;
    } else {
      var r := ReadOne(a, nonce, wire);
      YieldedIsRead(a, r.nonce, r.rest, ps[1..], end, rest);
      ConsTail(ps, s.payloads);
    }
  }

  lemma {:induction false} ChunksYield(
      a: Aead, nonce: seq<byte>, payloads: seq<seq<byte>>, tail: seq<byte>, wire: seq<byte>, end: seq<byte>)
    requires Lawful(a) && Sendable(payloads)
    requires wire == Chunks(a, nonce, payloads) + tail && end == IterBE(nonce, 2 * |payloads|)
    ensures Yields(a, nonce, wire, payloads, end, tail)
    decreases |payloads|
  {
    if payloads == [] {
      assert Chunks(a, nonce, payloads) + tail == tail;
    } else {
      var after := AfterFirst(a, nonce, payloads, tail, wire, end);
      ChunksYield(a, NextBE(NextBE(nonce)), payloads[1..], tail, after, end);
      ChunkYields(a, nonce, payloads[0], after, payloads[1..], end, tail);
      assert [payloads[0]] + payloads[1..] == payloads;
    }
  }

  lemma AfterFirst(
      a: Aead, nonce: seq<byte>, payloads: seq<seq<byte>>, tail: seq<byte>, wire: seq<byte>, end: seq<byte>)
    returns (after: seq<byte>)
    requires payloads != []
    requires wire == Chunks(a, nonce, payloads) + tail && end == IterBE(nonce, 2 * |payloads|)
    ensures after == Chunks(a, NextBE(NextBE(nonce)), payloads[1..]) + tail
    ensures wire == Chunk(a, nonce, payloads[0]) + after
    ensures end == IterBE(NextBE(NextBE(nonce)), 2 * |payloads[1..]|)
  {
    var n2 := NextBE(NextBE(nonce));
    after := Chunks(a, n2, payloads[1..]) + tail;
    Assoc(Chunk(a, nonce, payloads[0]), Chunks(a, n2, payloads[1..]), tail);
    IterTwo(nonce, 2 * |payloads[1..]|);
  }

  lemma ChunkYields(
      a: Aead, nonce: seq<byte>, p: seq<byte>, after: seq<byte>, ps: seq<seq<byte>>, end: seq<byte>, rest: seq<byte>)
    requires Lawful(a) && 1 <= |p| <= MAX_PKT && Yields(a, NextBE(NextBE(nonce)), after, ps, end, rest)
    ensures Yields(a, nonce, Chunk(a, nonce, p) + after, [p] + ps, end, rest)
  {
    ChunkReads(a, nonce, p, after);
    assert ([p] + ps)[1..] == ps;
  }

  lemma IterTwo(nonce: seq<byte>, k: nat)
    ensures IterBE(NextBE(NextBE(nonce)), k) == IterBE(nonce, k + 2)
  {
    IterBEShift(NextBE(nonce), k);
    IterBEShift(nonce, k + 1);
  }

  /** What a stream holds from its n-th chunk on is the stream of the later payloads, 2n nonces on. */
  lemma {:induction false} ChunksAppend(a: Aead, nonce: seq<byte>, p: seq<seq<byte>>, q: seq<seq<byte>>)
    ensures Chunks(a, nonce, p + q) == Chunks(a, nonce, p) + Chunks(a, IterBE(nonce, 2 * |p|), q)
    decreases |p|
  {
    if p == [] {
      assert p + q == q;
    } else {
      var n2, k := NextBE(NextBE(nonce)), 2 * |p[1..]|;
      assert (p + q)[0] == p[0] && (p + q)[1..] == p[1..] + q;
      ChunksAppend(a, n2, p[1..], q);
      IterTwo(nonce, k);
      Assoc(Chunk(a, nonce, p[0]), Chunks(a, n2, p[1..]), Chunks(a, IterBE(nonce, k + 2), q));
    }
  }

  /** Chunk j is sealed under the nonces 2j and 2j + 1 above the start. */
  lemma ChunkNonces(a: Aead, nonce: seq<byte>, payloads: seq<seq<byte>>, j: nat)
    requires j < |payloads|
    ensures Chunks(a, nonce, payloads)
         == Chunks(a, nonce, payloads[..j])
            + ((a.seal(IterBE(nonce, 2 * j), [], U16Bytes(|payloads[j]|))
                + a.seal(IterBE(nonce, 2 * j + 1), [], payloads[j]))
               + Chunks(a, IterBE(nonce, 2 * j + 2), payloads[j + 1..]))
  {
    var n := IterBE(nonce, 2 * j);
    ChunksAppend(a, nonce, payloads[..j], payloads[j..]);
    assert payloads == payloads[..j] + payloads[j..];
    assert payloads[j..][0] == payloads[j] && payloads[j..][1..] == payloads[j + 1..];
    assert IterBE(nonce, 2 * j + 1) == NextBE(n) && IterBE(nonce, 2 * j + 2) == NextBE(NextBE(n));
  }

  function ChunkSize(p: seq<byte>): nat { 2 + TAG + |p| + TAG }

  function StreamSize(payloads: seq<seq<byte>>): nat
  {
    if payloads == [] then 0 else ChunkSize(payloads[0]) + StreamSize(payloads[1..])
  }

  lemma {:induction false} StreamSizeIs(a: Aead, nonce: seq<byte>, payloads: seq<seq<byte>>)
    requires Lawful(a)
    ensures |Chunks(a, nonce, payloads)| == StreamSize(payloads)
    decreases |payloads|
  {
    if payloads != [] { StreamSizeIs(a, NextBE(NextBE(nonce)), payloads[1..]); }
  }

  /** How many chunks lie wholly within the first `cut` bytes. */
  function Whole(payloads: seq<seq<byte>>, cut: nat): (k: nat)
    ensures k <= |payloads|
  {
    if payloads == [] || cut < ChunkSize(payloads[0]) then 0
    else 1 + Whole(payloads[1..], cut - ChunkSize(payloads[0]))
  }

  /** The bytes of a cut stream behind its last whole chunk. */
  function Leftover(payloads: seq<seq<byte>>, cut: nat): nat
  {
    if payloads == [] || cut < ChunkSize(payloads[0]) then cut
    else Leftover(payloads[1..], cut - ChunkSize(payloads[0]))
  }

  lemma {:induction false} WholeAndLeftover(payloads: seq<seq<byte>>, cut: nat)
    requires cut <= StreamSize(payloads)
    ensures var k, l := Whole(payloads, cut), Leftover(payloads, cut);
      StreamSize(payloads[..k]) + l == cut && if k < |payloads| then l < ChunkSize(payloads[k]) else l == 0
  {
    if payloads != [] && cut >= ChunkSize(payloads[0]) {
      WholeAndLeftover(payloads[1..], cut - ChunkSize(payloads[0]));
      var k := Whole(payloads[1..], cut - ChunkSize(payloads[0]));
      assert payloads[..k + 1][1..] == payloads[1..][..k];
    }
  }

  lemma CutInsideChunk(a: Aead, nonce: seq<byte>, p: seq<byte>, tail: seq<byte>, cut: nat)
    requires Lawful(a) && 1 <= |p| <= MAX_PKT && cut < ChunkSize(p)
    ensures !ReadOne(a, nonce, (Chunk(a, nonce, p) + tail)[..cut]).result.Got?
  {
    var wire := (Chunk(a, nonce, p) + tail)[..cut];
    if |wire| >= 2 + TAG {
      U16RoundTrip(|p|);
      assert wire[..2 + TAG] == a.seal(nonce, [], U16Bytes(|p|));
    }
  }

  lemma CutInsideStops(a: Aead, nonce: seq<byte>, p: seq<byte>, tail: seq<byte>, cut: nat)
    requires Lawful(a) && 1 <= |p| <= MAX_PKT && cut < ChunkSize(p)
    ensures var s := ReadAll(a, nonce, (Chunk(a, nonce, p) + tail)[..cut]);
      s.payloads == [] && s.stop == if cut < 2 + TAG then NoMore else Error
  {
    CutInsideChunk(a, nonce, p, tail, cut);
    var wire := (Chunk(a, nonce, p) + tail)[..cut];
    if |wire| >= 2 + TAG {
      U16RoundTrip(|p|);
      assert wire[..2 + TAG] == a.seal(nonce, [], U16Bytes(|p|));
    }
  }

  lemma TakeAcross<T>(a: seq<T>, b: seq<T>, cut: nat)
    requires |a| <= cut <= |a| + |b|
    ensures (a + b)[..cut] == a + b[..cut - |a|]
  {
  }

  /** Behind its whole chunks a cut stream holds less than a chunk, or nothing. */
  lemma RemainderStops(a: Aead, nonce: seq<byte>, later: seq<seq<byte>>, l: nat)
    requires Lawful(a) && Sendable(later)
    requires if later == [] then l == 0 else l < ChunkSize(later[0])
    ensures l <= |Chunks(a, nonce, later)|
    ensures var s := ReadAll(a, nonce, Chunks(a, nonce, later)[..l]);
      s.payloads == [] && s.stop == if l < 2 + TAG then NoMore else Error
  {
    if later != [] {
      CutInsideStops(a, nonce, later[0], Chunks(a, NextBE(NextBE(nonce)), later[1..]), l);
    }
  }

  /**
    * A stream cut anywhere yields exactly the payloads of its whole chunks; it then ends quietly
    * if less than a sealed length is left, and in an error otherwise.
    */
  lemma CutStreamYieldsPrefix(a: Aead, nonce: seq<byte>, payloads: seq<seq<byte>>, cut: nat)
    requires Lawful(a) && Sendable(payloads) && cut <= |Chunks(a, nonce, payloads)|
    ensures var s := ReadAll(a, nonce, Chunks(a, nonce, payloads)[..cut]);
      && s.payloads == payloads[..Whole(payloads, cut)]
      && s.stop == if Leftover(payloads, cut) < 2 + TAG then NoMore else Error
  {
    var k, l := Whole(payloads, cut), Leftover(payloads, cut);
    var n := IterBE(nonce, 2 * k);
    StreamSizeIs(a, nonce, payloads);
    WholeAndLeftover(payloads, cut);
    RemainderStops(a, n, payloads[k..], l);
    var rest := Chunks(a, n, payloads[k..])[..l];
    CutSplits(a, nonce, payloads, cut, k, l);
    StreamRoundTrip(a, nonce, payloads[..k], rest);
    assert payloads[..k] + [] == payloads[..k];
  }

  /** The bytes of a cut stream: its whole chunks, then the front of what follows them. */
  lemma CutSplits(a: Aead, nonce: seq<byte>, payloads: seq<seq<byte>>, cut: nat, k: nat, l: nat)
    requires Lawful(a) && k <= |payloads| && cut == StreamSize(payloads[..k]) + l
    requires l <= |Chunks(a, IterBE(nonce, 2 * k), payloads[k..])|
    ensures cut <= |Chunks(a, nonce, payloads)|
    ensures Chunks(a, nonce, payloads)[..cut]
         == Chunks(a, nonce, payloads[..k]) + Chunks(a, IterBE(nonce, 2 * k), payloads[k..])[..l]
  {
    TakeDrop(payloads, k);
    ChunksAppend(a, nonce, payloads[..k], payloads[k..]);
    StreamSizeIs(a, nonce, payloads[..k]);
    TakeAcross(Chunks(a, nonce, payloads[..k]), Chunks(a, IterBE(nonce, 2 * k), payloads[k..]), cut);
  }

  /** The nonces the seals of a stream are made under, in order. */
  function Nonces(nonce: seq<byte>, payloads: seq<seq<byte>>): (r: seq<seq<byte>>)
    ensures |r| == 2 * |payloads|
    decreases |payloads|
  {
    if payloads == [] then [] else
      [nonce, NextBE(nonce)] + Nonces(NextBE(NextBE(nonce)), payloads[1..])
  }

  lemma {:induction false} NonceAt(nonce: seq<byte>, payloads: seq<seq<byte>>, k: nat)
    requires k < 2 * |payloads|
    ensures Nonces(nonce, payloads)[k] == IterBE(nonce, k)
    decreases |payloads|
  {
    assert IterBE(nonce, 1) == NextBE(IterBE(nonce, 0));
    if k >= 2 {
      NonceAt(NextBE(NextBE(nonce)), payloads[1..], k - 2);
      IterTwo(nonce, k - 2);
    }
  }

  /** No nonce is used twice in a stream exactly as long as it has at most half as many chunks as there are nonces. */
  lemma NoncesDistinctIff(nonce: seq<byte>, payloads: seq<seq<byte>>)
    ensures (forall i, j :: 0 <= i < j < 2 * |payloads| ==> Nonces(nonce, payloads)[i] != Nonces(nonce, payloads)[j])
        <==> 2 * |payloads| <= Pow256(|nonce|)
  {
    var p, used := Pow256(|nonce|), Nonces(nonce, payloads);
    if 2 * |payloads| <= p {
      forall i, j | 0 <= i < j < 2 * |payloads| ensures used[i] != used[j] {
        NonceAt(nonce, payloads, i);
        NonceAt(nonce, payloads, j);
        IterBEDistinct(nonce, i, j);
      }
    } else {
      NonceAt(nonce, payloads, 0);
      NonceAt(nonce, payloads, p);
      IterBEComesRound(nonce, p);
      assert used[0] == used[p];
    }
  }
}
