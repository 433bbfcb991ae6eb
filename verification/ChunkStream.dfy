/** The writer that cuts a stream into chunks and puts the plain two-byte size before each. */
module ChunkStream {
  import opened Bytes
  import opened MultiBuffers

  const SLICE_SIZE: nat := 8192

  /** The framed form of a byte stream. */
  function Frames(s: seq<byte>): seq<byte>
  {
    if s == [] then [] else
      var n := Min(SLICE_SIZE, |s|);
      U16Bytes(n) + s[..n] + Frames(s[n..])
  }

  method WriteMultiBuffer(mb: MultiBuffer) returns (out: MultiBuffer)
    requires mb.Valid()
    modifies mb
    ensures fresh(out) && out.Valid() && mb.Valid()
    ensures Flat(out.bufs) == Frames(old(Flat(mb.bufs))) && Flat(mb.bufs) == []
  {
    out := new MultiBuffer();
    ghost var all := Flat(mb.bufs);
    while true
      invariant mb.Valid() && out.Valid() && fresh(out)
      invariant Flat(out.bufs) + Frames(Flat(mb.bufs)) == Frames(all)
      decreases mb.totalLen
    {
      ghost var left, done := Flat(mb.bufs), Flat(out.bufs);
      var chunk := mb.CutFront(SLICE_SIZE);
      ghost var piece := Flat(chunk.bufs);
      assert piece == left[..|piece|] && Flat(mb.bufs) == left[|piece|..];
      if chunk.totalLen == 0 { break; }
      out.PushBack(Span(0, U16Bytes(chunk.totalLen)));
      PushAll(out, chunk.bufs);
      Framed(done, U16Bytes(|piece|), piece, Frames(Flat(mb.bufs)));
    }
  }

  /** The inner loop: the buffers of a chunk, one after the other. */
  method PushAll(out: MultiBuffer, bufs: seq<Window>)
    requires out.Valid()
    modifies out
    ensures out.Valid() && Flat(out.bufs) == old(Flat(out.bufs)) + Flat(bufs)
  {
    ghost var before := out.bufs;
    for i := 0 to |bufs|
      invariant out.Valid() && out.bufs == before + bufs[..i]
    {
      out.PushBack(bufs[i]);
    }
    assert bufs[..|bufs|] == bufs;
    FlatAppend(before, bufs);
  }

  lemma Framed(done: seq<byte>, size: seq<byte>, piece: seq<byte>, rest: seq<byte>)
    ensures done + (size + piece + rest) == done + size + piece + rest
  {
  }

  // ----- what a reader of the format recovers -----

  /** The payloads of a framed stream: a size of at least one, then that many bytes, to the very end. */
  function Payloads(w: seq<byte>): Option<seq<seq<byte>>>
    decreases |w|
  {
    if w == [] then Some([]) else if |w| < 2 then None else
      var n := U16Of(w[0], w[1]);
      if n == 0 || |w| < 2 + n then None else
        match Payloads(w[2 + n..])
        case None => None
        case Some(rest) => Some([w[2..2 + n]] + rest)
  }

  /** Chunks of a writer: never empty, at most a slice, and full except for the last. */
  predicate WellCut(chunks: seq<seq<byte>>)
  {
    forall i :: 0 <= i < |chunks| ==> 0 < |chunks[i]| <= SLICE_SIZE && (i < |chunks| - 1 ==> |chunks[i]| == SLICE_SIZE)
  }

  lemma {:induction false} FramesCarryTheStream(s: seq<byte>)
    ensures var got := Payloads(Frames(s)); got.Some? && Concat(got.value) == s && WellCut(got.value)
    decreases |s|
  {
    if s != [] {
      var n := Min(SLICE_SIZE, |s|);
      FramesCarryTheStream(s[n..]);
      var rest := Payloads(Frames(s[n..])).value;
      FirstPayload(s[..n], Frames(s[n..]));
      CutOne(s[..n], rest);
      assert s == s[..n] + s[n..];
    }
  }

  lemma CutOne(piece: seq<byte>, rest: seq<seq<byte>>)
    requires 0 < |piece| <= SLICE_SIZE && WellCut(rest)
    requires |piece| < SLICE_SIZE ==> Concat(rest) == []
    ensures Concat([piece] + rest) == piece + Concat(rest) && WellCut([piece] + rest)
  {
    assert ([piece] + rest)[1..] == rest;
    assert rest != [] ==> |Concat(rest)| >= |rest[0]|;
  }

  lemma FirstPayload(piece: seq<byte>, rest: seq<byte>)
    requires 0 < |piece| <= SLICE_SIZE && Payloads(rest).Some?
    ensures Payloads(U16Bytes(|piece|) + piece + rest) == Some([piece] + Payloads(rest).value)
  {
    var w := U16Bytes(|piece|) + piece + rest;
    SmallRoundTrip(|piece|);
    Parts(U16Bytes(|piece|), piece, rest);
    assert w[0] == U16Bytes(|piece|)[0] && w[1] == U16Bytes(|piece|)[1];
  }

  /** Two streams with the same framed form are the same stream. */
  lemma FramesInjective(s: seq<byte>, t: seq<byte>)
    requires Frames(s) == Frames(t)
    ensures s == t
  {
    FramesCarryTheStream(s);
    FramesCarryTheStream(t);
  }
}
