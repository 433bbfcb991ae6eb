/**
  * The Shadowsocks AEAD chunk stream: `SessionCipher` seals chunks, the resumable
  * `DecryptingReader` and the counter-nonce loop of the outbound open them again.
  */
module ShadowsocksStream {
  import opened Bytes
  import opened AeadCipher
  import opened Nonce

  // ----- sealing -----

  /** size(2) | nonce | ciphertext, the size bytes being the associated data. */
  function SealChunk(a: Aead, nonce: seq<byte>, pt: seq<byte>): seq<byte>
  {
    var size := U16Bytes(|nonce| + |pt| + TAG);
    size + nonce + a.seal(nonce, size, pt)
  }

  function SealAll(a: Aead, nonce: seq<byte>, pts: seq<seq<byte>>): seq<byte>
    decreases |pts|
  {
    if pts == [] then [] else SealChunk(a, nonce, pts[0]) + SealAll(a, NextBE(nonce), pts[1..])
  }

  /** The chunk lengths the sixteen-bit size field can announce. */
  ghost predicate Fits(nonceSize: nat, pts: seq<seq<byte>>)
  {
    forall i :: 0 <= i < |pts| ==> nonceSize + |pts[i]| + TAG < 0x1_0000
  }

  class SessionCipher {
    const aead: Aead
    const nonce: array<byte>

    /** `create_authenticator` seeds the counter with zeros. */
    constructor (aead: Aead, nonceSize: nat)
      ensures this.aead == aead && fresh(nonce) && nonce[..] == seq(nonceSize, i => 0)
    {
      this.aead := aead;
      nonce := new byte[nonceSize](i => 0);
    }

    method EncryptChunk(pt: seq<byte>) returns (out: seq<byte>)
      modifies nonce
      ensures out == SealChunk(aead, old(nonce[..]), pt)
      ensures nonce[..] == NextBE(old(nonce[..]))
    {
      var size := U16Bytes(nonce.Length + |pt| + TAG);
      var ct := aead.seal(nonce[..], size, pt);
      out := size + nonce[..] + ct;
      IncNonce(nonce);
    }

    method DecryptChunk(ct: seq<byte>, size: seq<byte>) returns (pt: Option<seq<byte>>)
      modifies nonce
      ensures pt == aead.unseal(old(nonce[..]), size, ct)
      ensures nonce[..] == if pt.Some? then NextBE(old(nonce[..])) else old(nonce[..])
    {
      pt := aead.unseal(nonce[..], size, ct);
      if pt.Some? {
        IncNonce(nonce);
      }
    }
  }

  /** Sealing a list chunk by chunk writes `SealAll` and moves the counter once per chunk. */
  method EncryptStream(c: SessionCipher, pts: seq<seq<byte>>) returns (wire: seq<byte>)
    modifies c.nonce
    ensures wire == SealAll(c.aead, old(c.nonce[..]), pts)
    ensures c.nonce[..] == IterBE(old(c.nonce[..]), |pts|)
  {
    wire := [];
    ghost var n0 := c.nonce[..];
    for i := 0 to |pts|
      invariant c.nonce[..] == IterBE(n0, i)
      invariant SealAll(c.aead, n0, pts) == wire + SealAll(c.aead, c.nonce[..], pts[i..])
    {
      SealAllStep(c.aead, c.nonce[..], pts, i, wire);
      var chunk := c.EncryptChunk(pts[i]);
      wire := wire + chunk;
    }
  }

  lemma SealAllStep(a: Aead, nonce: seq<byte>, pts: seq<seq<byte>>, i: nat, wire: seq<byte>)
    requires i < |pts|
    ensures wire + SealAll(a, nonce, pts[i..])
         == wire + SealChunk(a, nonce, pts[i]) + SealAll(a, NextBE(nonce), pts[i + 1..])
  {
    assert pts[i..][1..] == pts[i + 1..];
    Assoc(wire, SealChunk(a, nonce, pts[i]), SealAll(a, NextBE(nonce), pts[i + 1..]));
  }

  /** The parts of a chunk, read back from its bytes. */
  lemma ChunkParts(a: Aead, nonce: seq<byte>, pt: seq<byte>)
    requires Lawful(a) && |nonce| + |pt| + TAG < 0x1_0000
    ensures var c := SealChunk(a, nonce, pt);
      && |c| == 2 + |nonce| + |pt| + TAG
      && U16Of(c[0], c[1]) == |c| - 2 > 0
      && c[2..2 + |nonce|] == nonce
      && a.unseal(nonce, c[..2], c[2 + |nonce|..]) == Some(pt)
  {
    U16RoundTrip(|nonce| + |pt| + TAG);
    var c := SealChunk(a, nonce, pt);
    var size := U16Bytes(|nonce| + |pt| + TAG);
    assert c[..2] == size;
    assert c[2 + |nonce|..] == a.seal(nonce, size, pt);
  }

  /** A receiver finds the end of a chunk exactly when its length fits the size field. */
  lemma SizeFieldIsExactIff(a: Aead, nonce: seq<byte>, pt: seq<byte>)
    requires Lawful(a)
    ensures var c := SealChunk(a, nonce, pt);
      |c| >= 2 && (2 + U16Of(c[0], c[1]) == |c| <==> |nonce| + |pt| + TAG < 0x1_0000)
  {
    U16RoundTrip(|nonce| + |pt| + TAG);
  }

  // ----- the resumable reader -----

  datatype Stage = Size | Payload(total: nat, read: nat)

  datatype Reader = Reader(
    output: seq<byte>, stage: Stage, sizeBuf: seq<byte>, sizePos: nat,
    payload: seq<byte>, nonce: seq<byte>)

  predicate WellFormed(s: Reader)
  {
    && |s.sizeBuf| == 2
    && match s.stage
       case Size => s.sizePos < 2
       case Payload(total, read) => s.sizePos == 0 && read < total && |s.payload| == total
  }

  /** Room left in the slice handed to the inner reader. */
  function Room(s: Reader): nat
    requires WellFormed(s)
  {
    match s.stage
    case Size => 2 - s.sizePos
    case Payload(total, read) => total - read
  }

  function Zeros(n: nat): (r: seq<byte>)
    ensures |r| == n
  {
    seq(n, i => 0)
  }

  function Fresh(nonce: seq<byte>): Reader { Reader([], Size, [0, 0], 0, [], nonce) }

  /** What one `poll_read` of the inner reader leads to. */
  datatype Next =
    | Continue(s: Reader)   // go round the loop
    | EndMark(s: Reader)    // a zero size: Ready with no bytes
    | Rejected(s: Reader)   // the cipher refused the chunk
    | OutOfRange(s: Reader) // slicing past a chunk shorter than its nonce panics

  function Overwrite(buf: seq<byte>, at: nat, bytes: seq<byte>): (r: seq<byte>)
    requires at + |bytes| <= |buf|
    ensures |r| == |buf| && r[..at] == buf[..at] && r[at..at + |bytes|] == bytes
  {
    buf[..at] + bytes + buf[at + |bytes|..]
  }

  function Absorb(a: Aead, s: Reader, nonceSize: nat, got: seq<byte>): (n: Next)
    requires WellFormed(s) && |got| <= Room(s)
    ensures n.Rejected? || n.OutOfRange? || WellFormed(n.s)
  {
    match s.stage
    case Size =>
      var buf := Overwrite(s.sizeBuf, s.sizePos, got);
      var pos := s.sizePos + |got|;
      if pos < 2 then Continue(s.(sizeBuf := buf, sizePos := pos))
      else
        var total := U16Of(buf[0], buf[1]);
        var s' := s.(sizeBuf := buf, sizePos := 0);
        if total == 0 then EndMark(s')
        else Continue(s'.(payload := Zeros(total), stage := Payload(total, 0)))
    case Payload(total, read) =>
      var payload := Overwrite(s.payload, read, got);
      var s' := s.(payload := payload);
      if read + |got| < total then Continue(s'.(stage := Payload(total, read + |got|)))
      else if total < nonceSize then OutOfRange(s')
      else
        match a.unseal(payload[..nonceSize], s.sizeBuf, payload[nonceSize..])
        case Some(pt) =>
          Continue(s'.(output := s.output + pt, nonce := NextBE(s.nonce), stage := Size))
        case None => Rejected(s')
  }

  /** One answer of the inner reader: not ready, ready with up to `n` bytes, or an error. */
  datatype Grant = Pend | Give(n: nat) | Break

  /** `Broken` passes on an error of the inner reader; `Starved` is the loop still running after the last answer. */
  datatype Outcome = Pending | Ready(bytes: seq<byte>) | Broken | Failed | Panicked | Starved

  function Yield(o: Outcome): seq<byte> { if o.Ready? then o.bytes else [] }

  datatype Polled = Polled(s: Reader, wire: seq<byte>, script: seq<Grant>, outcome: Outcome)

  function Granted(s: Reader, wire: seq<byte>, n: nat): (k: nat)
    requires WellFormed(s)
    ensures k <= Room(s) && k <= |wire|
  {
    Min(n, Min(Room(s), |wire|))
  }

  /** The loop of `poll_read`, as a function of the inner reader's answers. */
  function Poll(a: Aead, s: Reader, nonceSize: nat, wire: seq<byte>, script: seq<Grant>, room: nat): (p: Polled)
    requires WellFormed(s)
    ensures p.outcome.Failed? || p.outcome.Panicked? || WellFormed(p.s)
    decreases |script|
  {
    if s.output != [] then
      var n := Min(room, |s.output|);
      Polled(s.(output := s.output[n..]), wire, script, Ready(s.output[..n]))
    else if script == [] then Polled(s, wire, script, Starved)
    else match script[0]
      case Pend => Polled(s, wire, script[1..], Pending)
      case Break => Polled(s, wire, script[1..], Broken)
      case Give(n) =>
        var k := Granted(s, wire, n);
        match Absorb(a, s, nonceSize, wire[..k])
        case Continue(s') => Poll(a, s', nonceSize, wire[k..], script[1..], room)
        case EndMark(s') => Polled(s', wire[k..], script[1..], Ready([]))
        case Rejected(s') => Polled(s', wire[k..], script[1..], Failed)
        case OutOfRange(s') => Polled(s', wire[k..], script[1..], Panicked)
  }

  /** One turn of the loop after `output` was found empty. */
  ghost predicate Stepped(
    a: Aead, nonceSize: nat, s: Reader, wire: seq<byte>, script: seq<Grant>,
    s': Reader, wire': seq<byte>, script': seq<Grant>, r: Option<Outcome>)
    requires WellFormed(s) && script != []
  {
    && script' == script[1..]
    && match script[0]
       case Pend => s' == s && wire' == wire && r == Some(Pending)
       case Break => s' == s && wire' == wire && r == Some(Broken)
       case Give(n) =>
         var k := Granted(s, wire, n);
         && wire' == wire[k..]
         && match Absorb(a, s, nonceSize, wire[..k])
            case Continue(s1) => s' == s1 && r == None
            case EndMark(s1) => s' == s1 && r == Some(Ready([]))
            case Rejected(s1) => s' == s1 && r == Some(Failed)
            case OutOfRange(s1) => s' == s1 && r == Some(Panicked)
  }

  /** The inner reader: bytes still in transit and the answers it will give. */
  datatype Read = NotReady | Got(bytes: seq<byte>) | Error

  class Transport {
    var wire: seq<byte>
    var script: seq<Grant>

    constructor (wire: seq<byte>, script: seq<Grant>)
      ensures this.wire == wire && this.script == script
    {
      this.wire, this.script := wire, script;
    }

    /** At most `space` bytes move to the caller. */
    method PollRead(space: nat) returns (got: Read)
      requires script != []
      modifies this
      ensures script == old(script)[1..]
      ensures match old(script)[0]
        case Pend => got == NotReady && wire == old(wire)
        case Break => got == Error && wire == old(wire)
        case Give(n) =>
          var k := Min(n, Min(space, |old(wire)|));
          got == Got(old(wire)[..k]) && wire == old(wire)[k..]
    {
      var grant := script[0];
      script := script[1..];
      match grant
      case Pend => got := NotReady;
      case Break => got := Error;
      case Give(n) =>
        var k := Min(n, Min(space, |wire|));
        got, wire := Got(wire[..k]), wire[k..];
    }
  }

  class DecryptingReader {
    const inner: Transport
    const aead: Aead
    const nonceSize: nat
    var output: seq<byte>
    var stage: Stage
    var sizeBuf: seq<byte>
    var sizePos: nat
    var payloadBuf: seq<byte>
    var nonce: seq<byte>

    function State(): Reader
      reads this
    {
      Reader(output, stage, sizeBuf, sizePos, payloadBuf, nonce)
    }

    constructor (inner: Transport, aead: Aead, nonceSize: nat, nonce: seq<byte>)
      ensures this.inner == inner && this.aead == aead && this.nonceSize == nonceSize
      ensures State() == Fresh(nonce) && WellFormed(State())
    {
      this.inner, this.aead, this.nonceSize, this.nonce := inner, aead, nonceSize, nonce;
      output, stage, sizeBuf, sizePos, payloadBuf := [], Size, [0, 0], 0, [];
    }

    /** The Size arm of the loop; `None` means go round again. */
    method PollSize() returns (r: Option<Outcome>)
      requires WellFormed(State()) && stage.Size? && inner.script != []
      modifies this, inner
      ensures Stepped(aead, nonceSize, old(State()), old(inner.wire), old(inner.script),
                      State(), inner.wire, inner.script, r)
    {
      var got := inner.PollRead(2 - sizePos);
      if got == NotReady { return Some(Pending); }
      if got == Error { return Some(Broken); }
      sizeBuf := Overwrite(sizeBuf, sizePos, got.bytes);
      sizePos := sizePos + |got.bytes|;
      if sizePos < 2 { return None; }
      sizePos := 0;
      var total := U16Of(sizeBuf[0], sizeBuf[1]);
      if total == 0 { return Some(Ready([])); }
      payloadBuf := Zeros(total);
      stage := Payload(total, 0);
      return None;
    }

    /** The Payload arm of the loop. */
    method PollPayload() returns (r: Option<Outcome>)
      requires WellFormed(State()) && stage.Payload? && inner.script != []
      modifies this, inner
      ensures Stepped(aead, nonceSize, old(State()), old(inner.wire), old(inner.script),
                      State(), inner.wire, inner.script, r)
    {
      var total, read := stage.total, stage.read;
      var got := inner.PollRead(total - read);
      if got == NotReady { return Some(Pending); }
      if got == Error { return Some(Broken); }
      payloadBuf := Overwrite(payloadBuf, read, got.bytes);
      if read + |got.bytes| < total {
        stage := Payload(total, read + |got.bytes|);
        return None;
      }
      if total < nonceSize { return Some(Panicked); }
      var pt := aead.unseal(payloadBuf[..nonceSize], sizeBuf, payloadBuf[nonceSize..]);
      if pt == None { return Some(Failed); }
      output := output + pt.value;
      nonce := NextBE(nonce);
      stage := Size;
      return None;
    }

    method PollRead(room: nat) returns (outcome: Outcome)
      requires WellFormed(State())
      modifies this, inner
      ensures var p := Poll(aead, old(State()), nonceSize, old(inner.wire), old(inner.script), room);
        p == Polled(State(), inner.wire, inner.script, outcome)
      ensures outcome.Failed? || outcome.Panicked? || WellFormed(State())
    {
      ghost var p := Poll(aead, State(), nonceSize, inner.wire, inner.script, room);
      while true
        invariant WellFormed(State())
        invariant p == Poll(aead, State(), nonceSize, inner.wire, inner.script, room)
        decreases |inner.script|
      {
        if output != [] {
          var n := Min(room, |output|);
          outcome, output := Ready(output[..n]), output[n..];
          return;
        }
        if inner.script == [] {
          return Starved;
        }
        var r;
        if stage.Size? { r := PollSize(); } else { r := PollPayload(); }
        if r.Some? {
          return r.value;
        }
      }
    }
  }

  // ----- what the reader yields -----

  /** Wire bytes already taken in but not yet decrypted. */
  function Buffered(s: Reader): seq<byte>
    requires WellFormed(s)
  {
    match s.stage
    case Size => s.sizeBuf[..s.sizePos]
    case Payload(_, read) => s.sizeBuf + s.payload[..read]
  }

  /** Half-read chunk plus transit bytes are exactly `rest`, sealed from the reader's own counter. */
  ghost predicate Tracks(a: Aead, s: Reader, wire: seq<byte>, rest: seq<seq<byte>>)
  {
    && WellFormed(s)
    && Fits(|s.nonce|, rest)
    && (s.stage.Payload? ==> s.stage.total == U16Of(s.sizeBuf[0], s.sizeBuf[1]))
    && Buffered(s) + wire == SealAll(a, s.nonce, rest)
  }

  lemma FirstChunk(a: Aead, s: Reader, wire: seq<byte>, rest: seq<seq<byte>>)
    requires Lawful(a) && Tracks(a, s, wire, rest) && Buffered(s) + wire != []
    ensures rest != []
    ensures var c := SealChunk(a, s.nonce, rest[0]);
      && |Buffered(s)| < |c| <= |Buffered(s)| + |wire|
      && Buffered(s) == c[..|Buffered(s)|]
      && (Buffered(s) + wire)[..|c|] == c
      && (s.stage.Payload? ==> s.sizeBuf == c[..2] && s.stage.total == |c| - 2)
      && (Buffered(s) + wire)[|c|..] == SealAll(a, NextBE(s.nonce), rest[1..])
  {
    var all, c := Buffered(s) + wire, SealChunk(a, s.nonce, rest[0]);
    ChunkParts(a, s.nonce, rest[0]);
    assert all == c + SealAll(a, NextBE(s.nonce), rest[1..]);
    if s.stage.Payload? {
      assert s.sizeBuf == all[..2] == c[..2];
    }
    assert Buffered(s) == all[..|Buffered(s)|];
  }

  /** What taking `got` off the wire does to the reader, as the stream sees it. */
  ghost predicate Advanced(
    a: Aead, s: Reader, got: seq<byte>, wire: seq<byte>, rest: seq<seq<byte>>, rest': seq<seq<byte>>)
    requires WellFormed(s) && |got| <= Room(s)
  {
    var n := Absorb(a, s, |s.nonce|, got);
    && n.Continue? && |n.s.nonce| == |s.nonce| && Tracks(a, n.s, wire, rest')
    && n.s.output + Concat(rest') == s.output + Concat(rest)
  }

  lemma AbsorbSize(a: Aead, s: Reader, got: seq<byte>, wire: seq<byte>, rest: seq<seq<byte>>)
    requires Lawful(a) && Tracks(a, s, got + wire, rest) && |got| <= Room(s) && s.stage.Size?
    ensures Advanced(a, s, got, wire, rest, rest)
  {
    var n := Absorb(a, s, |s.nonce|, got);
    var buf := Overwrite(s.sizeBuf, s.sizePos, got);
    assert buf[..s.sizePos + |got|] == Buffered(s) + got;
    Assoc(Buffered(s), got, wire);
    if s.sizePos + |got| == 2 {
      FirstChunk(a, s, got + wire, rest);
      ChunkParts(a, s.nonce, rest[0]);
      assert buf == (Buffered(s) + got + wire)[..2];
      assert Buffered(n.s) == buf;
    }
  }

  lemma AbsorbPart(a: Aead, s: Reader, got: seq<byte>, wire: seq<byte>, rest: seq<seq<byte>>)
    requires Lawful(a) && Tracks(a, s, got + wire, rest) && |got| < Room(s) && s.stage.Payload?
    ensures Advanced(a, s, got, wire, rest, rest)
  {
    var n := Absorb(a, s, |s.nonce|, got);
    var payload := Overwrite(s.payload, s.stage.read, got);
    assert payload[..s.stage.read + |got|] == s.payload[..s.stage.read] + got;
    assert Buffered(n.s) == Buffered(s) + got;
    Assoc(Buffered(s), got, wire);
  }

  lemma AbsorbWhole(a: Aead, s: Reader, got: seq<byte>, wire: seq<byte>, rest: seq<seq<byte>>)
    requires Lawful(a) && Tracks(a, s, got + wire, rest) && |got| == Room(s) && s.stage.Payload?
    ensures rest != [] && Advanced(a, s, got, wire, rest, rest[1..])
    // the nonce carried by the chunk is the one the reader's own counter holds
    ensures (s.payload[..s.stage.read] + got)[..|s.nonce|] == s.nonce
  {
    FirstChunk(a, s, got + wire, rest);
    ChunkParts(a, s.nonce, rest[0]);
    var n, c := Absorb(a, s, |s.nonce|, got), SealChunk(a, s.nonce, rest[0]);
    var payload := Overwrite(s.payload, s.stage.read, got);
    assert payload == s.payload[..s.stage.read] + got;
    Assoc(Buffered(s), got, wire);
    assert c == Buffered(s) + got == s.sizeBuf + payload;
    assert payload[..|s.nonce|] == c[2..2 + |s.nonce|];
    assert payload[|s.nonce|..] == c[2 + |s.nonce|..];
    assert n.Continue? && n.s.output == s.output + rest[0];
    assert Buffered(n.s) + wire == (Buffered(s) + (got + wire))[|c|..];
    Assoc(s.output, rest[0], Concat(rest[1..]));
  }

  lemma AbsorbTracks(a: Aead, s: Reader, got: seq<byte>, wire: seq<byte>, rest: seq<seq<byte>>)
    returns (rest': seq<seq<byte>>)
    requires Lawful(a) && Tracks(a, s, got + wire, rest) && |got| <= Room(s)
    ensures Advanced(a, s, got, wire, rest, rest')
  {
    if s.stage.Size? {
      AbsorbSize(a, s, got, wire, rest);
      rest' := rest;
    } else if |got| < Room(s) {
      AbsorbPart(a, s, got, wire, rest);
      rest' := rest;
    } else {
      AbsorbWhole(a, s, got, wire, rest);
      rest' := rest[1..];
    }
  }

  /** One poll loses, invents and reorders nothing, and on a sealed stream no failure is its own. */
  lemma {:induction false} PollConserves(
      a: Aead, s: Reader, wire: seq<byte>, script: seq<Grant>, room: nat, rest: seq<seq<byte>>)
    returns (rest': seq<seq<byte>>)
    requires Lawful(a) && Tracks(a, s, wire, rest)
    ensures var p := Poll(a, s, |s.nonce|, wire, script, room);
      && !p.outcome.Failed? && !p.outcome.Panicked?
      && |p.s.nonce| == |s.nonce| && Tracks(a, p.s, p.wire, rest')
      && Yield(p.outcome) + p.s.output + Concat(rest')
         == s.output + Concat(rest)
    decreases |script|
  {
    rest' := rest;
    if s.output == [] && script != [] && script[0].Give? {
      var k := Granted(s, wire, script[0].n);
      assert wire == wire[..k] + wire[k..];
      rest' := AbsorbTracks(a, s, wire[..k], wire[k..], rest);
      var s' := Absorb(a, s, |s.nonce|, wire[..k]).s;
      rest' := PollConserves(a, s', wire[k..], script[1..], room, rest');
    }
  }

  datatype Call = Call(script: seq<Grant>, room: nat)

  datatype Trace = Trace(s: Reader, wire: seq<byte>, yielded: seq<byte>)

  /** A whole run: each call of `poll_read` comes with its destination size and inner answers; a starved one goes on in the next. */
  function Run(a: Aead, s: Reader, nonceSize: nat, wire: seq<byte>, calls: seq<Call>): Trace
    requires WellFormed(s)
    decreases |calls|
  {
    if calls == [] then Trace(s, wire, [])
    else
      var p := Poll(a, s, nonceSize, wire, calls[0].script, calls[0].room);
      if p.outcome.Failed? || p.outcome.Panicked? then Trace(p.s, p.wire, [])
      else
        var t := Run(a, p.s, nonceSize, p.wire, calls[1..]);
        t.(yielded := Yield(p.outcome) + t.yielded)
  }

  lemma {:induction false} RunConserves(
      a: Aead, s: Reader, wire: seq<byte>, calls: seq<Call>, rest: seq<seq<byte>>)
    returns (rest': seq<seq<byte>>)
    requires Lawful(a) && Tracks(a, s, wire, rest)
    ensures var t := Run(a, s, |s.nonce|, wire, calls);
      && Tracks(a, t.s, t.wire, rest')
      && t.yielded + t.s.output + Concat(rest') == s.output + Concat(rest)
    decreases |calls|
  {
    rest' := rest;
    if calls != [] {
      var mid := PollConserves(a, s, wire, calls[0].script, calls[0].room, rest);
      var p := Poll(a, s, |s.nonce|, wire, calls[0].script, calls[0].room);
      rest' := RunConserves(a, p.s, p.wire, calls[1..], mid);
      var t := Run(a, p.s, |s.nonce|, p.wire, calls[1..]);
      var y, whole := Yield(p.outcome), Run(a, s, |s.nonce|, wire, calls);
      assert whole.s == t.s && whole.wire == t.wire && whole.yielded == y + t.yielded;
      Assoc(y, t.yielded, t.s.output);
      Assoc(y, t.yielded + t.s.output, Concat(rest'));
      Assoc(y, p.s.output, Concat(mid));
    }
  }

  /**
    * However the transport fragments, pends or stalls and whatever the destination sizes, the
    * bytes read so far are a prefix of the plaintexts; once everything has been delivered, only
    * `output` still separates them from the whole.
    */
  lemma ReaderYieldsPlaintexts(a: Aead, nonce: seq<byte>, pts: seq<seq<byte>>, calls: seq<Call>)
    requires Lawful(a) && Fits(|nonce|, pts)
    ensures var t := Run(a, Fresh(nonce), |nonce|, SealAll(a, nonce, pts), calls);
      && WellFormed(t.s) && t.yielded <= Concat(pts)
      && (t.wire == [] ==> t.yielded + t.s.output == Concat(pts))
  {
    var wire := SealAll(a, nonce, pts);
    assert Buffered(Fresh(nonce)) + wire == wire;
    var rest := RunConserves(a, Fresh(nonce), wire, calls, pts);
    var t := Run(a, Fresh(nonce), |nonce|, wire, calls);
    assert Fresh(nonce).output + Concat(pts) == Concat(pts);
    Assoc(t.yielded, t.s.output, Concat(rest));
    if t.wire == [] {
      if rest != [] {
        ChunkParts(a, t.s.nonce, rest[0]);
        FirstChunk(a, t.s, t.wire, rest);
      }
      assert rest == [];
    }
  }

  /** A turn of the loop moves the reader exactly when the inner reader produced a byte. */
  lemma ProgressIffBytes(a: Aead, s: Reader, nonceSize: nat, got: seq<byte>)
    requires WellFormed(s) && |got| <= Room(s)
    ensures Absorb(a, s, nonceSize, got) == Continue(s) <==> got == []
  {
    if got == [] {
      match s.stage
      case Size => assert Overwrite(s.sizeBuf, s.sizePos, got) == s.sizeBuf;
      case Payload(_, read) => assert Overwrite(s.payload, read, got) == s.payload;
    }
  }

  /** So at the end of input `poll_read` spins: it is still looping after any number of reads. */
  lemma {:induction false} SpinsAtEndOfInput(a: Aead, s: Reader, nonceSize: nat, script: seq<Grant>, room: nat)
    requires WellFormed(s) && s.output == []
    requires forall i :: 0 <= i < |script| ==> script[i].Give?
    ensures Poll(a, s, nonceSize, [], script, room) == Polled(s, [], [], Starved)
    decreases |script|
  {
    if script != [] {
      ProgressIffBytes(a, s, nonceSize, []);
      SpinsAtEndOfInput(a, s, nonceSize, script[1..], room);
    }
  }

  /** Without input nothing moves: a poll with nothing to hand out leaves the reader as it was. */
  lemma {:induction false} IdlePoll(a: Aead, s: Reader, nonceSize: nat, script: seq<Grant>, room: nat)
    requires WellFormed(s) && s.output == []
    ensures var p := Poll(a, s, nonceSize, [], script, room);
      p.s == s && p.wire == [] && (p.outcome.Pending? || p.outcome.Starved? || p.outcome.Broken?)
    decreases |script|
  {
    if script != [] && script[0].Give? {
      ProgressIffBytes(a, s, nonceSize, []);
      assert Granted(s, [], script[0].n) == 0;
      IdlePoll(a, s, nonceSize, script[1..], room);
    }
  }

  function Rooms(calls: seq<Call>): nat
  {
    if calls == [] then 0 else calls[0].room + Rooms(calls[1..])
  }

  /** After the last input, reads hand out `output` in order, as fast as the destinations allow. */
  lemma {:induction false} OutputDrains(a: Aead, s: Reader, nonceSize: nat, calls: seq<Call>)
    requires WellFormed(s)
    ensures Run(a, s, nonceSize, [], calls).yielded == s.output[..Min(Rooms(calls), |s.output|)]
    decreases |calls|
  {
    if calls != [] {
      var room, rest := calls[0].room, calls[1..];
      if s.output == [] {
        IdlePoll(a, s, nonceSize, calls[0].script, room);
        OutputDrains(a, s, nonceSize, rest);
      } else {
        var n := Min(room, |s.output|);
        OutputDrains(a, s.(output := s.output[n..]), nonceSize, rest);
        TakeTwice(s.output, n, Min(Rooms(rest), |s.output| - n));
      }
    }
  }

  lemma TakeTwice<T>(s: seq<T>, n: nat, m: nat)
    requires n + m <= |s|
    ensures s[..n] + s[n..][..m] == s[..n + m]
  {
  }

  /** So once all input has come in, reads with room for what is left complete the plaintexts. */
  lemma ReadsCompleteAfterInput(
      a: Aead, nonce: seq<byte>, pts: seq<seq<byte>>, calls: seq<Call>, more: seq<Call>)
    requires Lawful(a) && Fits(|nonce|, pts)
    ensures var t := Run(a, Fresh(nonce), |nonce|, SealAll(a, nonce, pts), calls);
      && WellFormed(t.s)
      && (t.wire == [] && Rooms(more) >= |t.s.output| ==>
            t.yielded + Run(a, t.s, |nonce|, t.wire, more).yielded == Concat(pts))
  {
    ReaderYieldsPlaintexts(a, nonce, pts, calls);
    var t := Run(a, Fresh(nonce), |nonce|, SealAll(a, nonce, pts), calls);
    if t.wire == [] && Rooms(more) >= |t.s.output| {
      OutputDrains(a, t.s, |nonce|, more);
      assert t.s.output[..|t.s.output|] == t.s.output;
    }
  }

  // ----- when it yields -----

  /** The inner reader always has a byte when it is ready, and is always ready. */
  ghost predicate Flowing(script: seq<Grant>)
  {
    forall i :: 0 <= i < |script| ==> script[i].Give? && script[i].n >= 1
  }

  /** Nothing in transit means nothing half-read and nothing to come. */
  lemma EmptyWireEndsStream(a: Aead, s: Reader, rest: seq<seq<byte>>)
    requires Lawful(a) && Tracks(a, s, [], rest)
    ensures rest == []
  {
    if rest != [] {
      ChunkParts(a, s.nonce, rest[0]);
      FirstChunk(a, s, [], rest);
    }
  }

  /**
    * A poll with an answer for every byte in transit returns exactly when some plaintext byte is held
    * or still to come; at the end of the stream, or before empty chunks alone, it loops for ever.
    */
  lemma {:induction false} PollReturnsIff(
      a: Aead, s: Reader, wire: seq<byte>, script: seq<Grant>, room: nat, rest: seq<seq<byte>>)
    requires Lawful(a) && Tracks(a, s, wire, rest) && Flowing(script) && |script| >= |wire|
    ensures var o := Poll(a, s, |s.nonce|, wire, script, room).outcome;
      && (o.Ready? <==> s.output + Concat(rest) != [])
      && (o.Ready? || o.Starved?)
    decreases |script|
  {
    if s.output == [] {
      if wire == [] {
        EmptyWireEndsStream(a, s, rest);
        SpinsAtEndOfInput(a, s, |s.nonce|, script, room);
      } else {
        var k := Granted(s, wire, script[0].n);
        assert wire == wire[..k] + wire[k..];
        var rest' := AbsorbTracks(a, s, wire[..k], wire[k..], rest);
        var s' := Absorb(a, s, |s.nonce|, wire[..k]).s;
        PollReturnsIff(a, s', wire[k..], script[1..], room, rest');
      }
    }
  }

  /** A call that finds the inner reader ready and has room in its destination. */
  predicate Useful(c: Call)
  {
    c.room >= 1 && c.script != [] && c.script[0].Give? && c.script[0].n >= 1
  }

  function CountUseful(calls: seq<Call>): nat
  {
    if calls == [] then 0 else (if Useful(calls[0]) then 1 else 0) + CountUseful(calls[1..])
  }

  lemma {:induction false} PollTakesFromWire(
      a: Aead, s: Reader, nonceSize: nat, wire: seq<byte>, script: seq<Grant>, room: nat)
    requires WellFormed(s)
    ensures |Poll(a, s, nonceSize, wire, script, room).wire| <= |wire|
    decreases |script|
  {
    if s.output == [] && script != [] && script[0].Give? {
      var k := Granted(s, wire, script[0].n);
      var n := Absorb(a, s, nonceSize, wire[..k]);
      if n.Continue? {
        PollTakesFromWire(a, n.s, nonceSize, wire[k..], script[1..], room);
      }
    }
  }

  /** Bytes in transit, held and to come, all of which a stream has to get through. */
  function Ahead(s: Reader, wire: seq<byte>, rest: seq<seq<byte>>): nat
  {
    |wire| + |s.output + Concat(rest)|
  }

  /** A useful call leaves less ahead. */
  lemma UsefulCallAdvances(a: Aead, s: Reader, wire: seq<byte>, c: Call, rest: seq<seq<byte>>, rest': seq<seq<byte>>)
    requires Lawful(a) && Tracks(a, s, wire, rest)
    requires var p := Poll(a, s, |s.nonce|, wire, c.script, c.room);
      Yield(p.outcome) + p.s.output + Concat(rest') == s.output + Concat(rest)
    ensures var p := Poll(a, s, |s.nonce|, wire, c.script, c.room);
      && Ahead(p.s, p.wire, rest') <= Ahead(s, wire, rest)
      && (Useful(c) && Ahead(s, wire, rest) > 0 ==> Ahead(p.s, p.wire, rest') < Ahead(s, wire, rest))
  {
    PollTakesFromWire(a, s, |s.nonce|, wire, c.script, c.room);
    if Useful(c) && s.output == [] {
      if wire == [] {
        EmptyWireEndsStream(a, s, rest);
      } else {
        var k := Granted(s, wire, c.script[0].n);
        var n := Absorb(a, s, |s.nonce|, wire[..k]);
        if n.Continue? {
          PollTakesFromWire(a, n.s, |s.nonce|, wire[k..], c.script[1..], c.room);
        }
      }
    }
  }

  /** Each useful call of a run counts towards the end of the stream. */
  lemma {:induction false} RunAdvances(
      a: Aead, s: Reader, wire: seq<byte>, calls: seq<Call>, rest: seq<seq<byte>>)
    returns (rest': seq<seq<byte>>)
    requires Lawful(a) && Tracks(a, s, wire, rest)
    ensures var t := Run(a, s, |s.nonce|, wire, calls);
      && t.yielded + (t.s.output + Concat(rest')) == s.output + Concat(rest)
      && (Ahead(t.s, t.wire, rest') == 0
          || Ahead(t.s, t.wire, rest') + CountUseful(calls) <= Ahead(s, wire, rest))
    decreases |calls|
  {
    rest' := rest;
    if calls == [] {
      assert [] + (s.output + Concat(rest)) == s.output + Concat(rest);
    } else {
      var mid := PollConserves(a, s, wire, calls[0].script, calls[0].room, rest);
      var p := Poll(a, s, |s.nonce|, wire, calls[0].script, calls[0].room);
      UsefulCallAdvances(a, s, wire, calls[0], rest, mid);
      rest' := RunAdvances(a, p.s, p.wire, calls[1..], mid);
      var t := Run(a, p.s, |s.nonce|, p.wire, calls[1..]);
      Assoc(Yield(p.outcome), t.yielded, t.s.output + Concat(rest'));
      Assoc(Yield(p.outcome), p.s.output, Concat(mid));
    }
  }

  /**
    * If the inner reader gives at least a byte whenever it is ready, all plaintexts are delivered:
    * after as many useful calls as there are wire and plaintext bytes, whatever the other calls did.
    */
  lemma ReaderDeliversEverything(a: Aead, nonce: seq<byte>, pts: seq<seq<byte>>, calls: seq<Call>)
    requires Lawful(a) && Fits(|nonce|, pts)
    requires CountUseful(calls) >= |SealAll(a, nonce, pts)| + |Concat(pts)|
    ensures var t := Run(a, Fresh(nonce), |nonce|, SealAll(a, nonce, pts), calls);
      t.wire == [] && t.yielded == Concat(pts)
  {
    var wire := SealAll(a, nonce, pts);
    assert Buffered(Fresh(nonce)) + wire == wire;
    assert Fresh(nonce).output + Concat(pts) == Concat(pts);
    var rest := RunAdvances(a, Fresh(nonce), wire, calls, pts);
    var t := Run(a, Fresh(nonce), |nonce|, wire, calls);
    assert t.yielded + [] == t.yielded;
  }

  // ----- the outbound's counter-nonce loop -----

  /** Why the loop stopped. */
  datatype Stop = SizeCutOff | EndOfStream | ChunkCutOff | Refused | TooShort

  datatype Received = Received(pts: seq<seq<byte>>, stop: Stop)

  function Receive(a: Aead, nonce: seq<byte>, wire: seq<byte>): Received
    decreases |wire|
  {
    if |wire| < 2 then Received([], SizeCutOff)
    else
      var total := U16Of(wire[0], wire[1]);
      if total == 0 then Received([], EndOfStream)
      else if |wire| < 2 + total then Received([], ChunkCutOff)
      else if total < |nonce| then Received([], TooShort)
      else match a.unseal(nonce, wire[..2], wire[2 + |nonce|..2 + total])
        case None => Received([], Refused)
        case Some(pt) =>
          var r := Receive(a, NextBE(nonce), wire[2 + total..]);
          r.(pts := [pt] + r.pts)
  }

  /** The loop itself: the nonce carried by each chunk is skipped, the counter is used instead. */
  method ReceiveLoop(c: SessionCipher, input: seq<byte>) returns (pts: seq<seq<byte>>, stop: Stop)
    modifies c.nonce
    ensures Receive(c.aead, old(c.nonce[..]), input) == Received(pts, stop)
  {
    pts := [];
    var wire := input;
    ghost var n0 := c.nonce[..];
    while true
      invariant var r := Receive(c.aead, c.nonce[..], wire);
        Receive(c.aead, n0, input) == r.(pts := pts + r.pts)
      decreases |wire|
    {
      if |wire| < 2 { return pts, SizeCutOff; }
      var total := U16Of(wire[0], wire[1]);
      if total == 0 { return pts, EndOfStream; }
      if |wire| < 2 + total { return pts, ChunkCutOff; }
      if total < c.nonce.Length { return pts, TooShort; }
      ghost var n := c.nonce[..];
      var pt := c.DecryptChunk(wire[2 + c.nonce.Length..2 + total], wire[..2]);
      if pt == None { return pts, Refused; }
      ghost var r := Receive(c.aead, NextBE(n), wire[2 + total..]);
      Assoc(pts, [pt.value], r.pts);
      pts := pts + [pt.value];
      wire := wire[2 + total..];
    }
  }

  lemma ReceiveOne(a: Aead, nonce: seq<byte>, pt: seq<byte>, after: seq<byte>)
    requires Lawful(a) && |nonce| + |pt| + TAG < 0x1_0000
    ensures var r := Receive(a, NextBE(nonce), after);
      Receive(a, nonce, SealChunk(a, nonce, pt) + after) == r.(pts := [pt] + r.pts)
  {
    var c := SealChunk(a, nonce, pt);
    var wire := c + after;
    ChunkParts(a, nonce, pt);
    assert wire[..2] == c[..2] && wire[|c|..] == after;
    assert wire[2 + |nonce|..|c|] == c[2 + |nonce|..];
  }

  /** The counter loop recovers the same plaintexts, and carries on at whatever follows them. */
  lemma {:induction false} ReceiveUndoesSealing(
      a: Aead, nonce: seq<byte>, pts: seq<seq<byte>>, tail: seq<byte>)
    requires Lawful(a) && Fits(|nonce|, pts)
    ensures var r := Receive(a, IterBE(nonce, |pts|), tail);
      Receive(a, nonce, SealAll(a, nonce, pts) + tail) == r.(pts := pts + r.pts)
    decreases |pts|
  {
    if pts == [] {
      assert SealAll(a, nonce, pts) + tail == tail;
      var r := Receive(a, nonce, tail);
      assert pts + r.pts == r.pts;
    } else {
      var after := SealAll(a, NextBE(nonce), pts[1..]) + tail;
      assert SealAll(a, nonce, pts) + tail == SealChunk(a, nonce, pts[0]) + after;
      ReceiveOne(a, nonce, pts[0], after);
      var r1 := Receive(a, NextBE(nonce), after);
      var r := Receive(a, IterBE(NextBE(nonce), |pts| - 1), tail);
      assert r1 == r.(pts := pts[1..] + r.pts) by {
        ReceiveUndoesSealing(a, NextBE(nonce), pts[1..], tail);
      }
      ConsTail(pts, r.pts);
      IterBEShift(nonce, |pts| - 1);
    }
  }
}
