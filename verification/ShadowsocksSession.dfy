/** Opening a Shadowsocks TCP session: the first chunk names the target, the rest is the payload. */
module ShadowsocksSession {
  import opened Bytes
  import opened Net
  import opened AeadCipher
  import opened Nonce
  import opened ShadowsocksStream

  /** `write_address`; `None` where its assertion on the domain length panics. */
  function WriteAddress(addr: Address): Option<seq<byte>>
  {
    match addr
    case Ipv4(o) => Some([0x01] + o)
    case Ipv6(o) => Some([0x04] + o)
    case Domain(d) => if |d| <= 255 then Some([0x03, |d|] + d) else None
  }

  /** `read_address`: the destination and how many bytes it took; `utf8` is the text check. */
  function ReadAddress(data: seq<byte>, utf8: seq<byte> -> bool): Option<(Destination, nat)>
  {
    if data == [] then None
    else if data[0] == 0x01 then
      if |data| < 5 then None else ReadPort(data, Ipv4(data[1..5]), 5)
    else if data[0] == 0x04 then
      if |data| < 17 then None else ReadPort(data, Ipv6(data[1..17]), 17)
    else if data[0] == 0x03 then
      if |data| < 2 then None
      else
        var end: nat := 2 + data[1] as int;
        if |data| < end || !utf8(data[2..end]) then None
        else ReadPort(data, Domain(data[2..end]), end)
    else None
  }

  function ReadPort(data: seq<byte>, addr: Address, offset: nat): Option<(Destination, nat)>
  {
    if |data| < offset + 2 then None
    else Some((Destination(addr, U16Of(data[offset], data[offset + 1]), Tcp), offset + 2))
  }

  lemma AddressRoundTrip(addr: Address, port: u16, tail: seq<byte>, utf8: seq<byte> -> bool)
    requires addr.Valid() && WriteAddress(addr).Some?
    requires addr.Domain? ==> utf8(addr.name)
    ensures var w := WriteAddress(addr).value + U16Bytes(port);
      ReadAddress(w + tail, utf8) == Some((Destination(addr, port, Tcp), |w|))
  {
    var data := WriteAddress(addr).value + U16Bytes(port) + tail;
    U16RoundTrip(port);
    match addr
    case Ipv4(o) => assert data[1..5] == o;
    case Ipv6(o) => assert data[1..17] == o;
    case Domain(d) => assert data[2..2 + |d|] == d;
  }

  datatype Opened = Opened(dest: Destination, reader: Reader, wire: seq<byte>)

  /** `read_tcp_session`, up to the reader it returns; `None` is an error or a slice panic. */
  function OpenSession(a: Aead, nonce: seq<byte>, wire: seq<byte>, utf8: seq<byte> -> bool): Option<Opened>
  {
    if |wire| < 2 then None
    else
      var total := U16Of(wire[0], wire[1]);
      if |wire| < 2 + total || total < |nonce| then None
      else
        var chunk := wire[2..2 + total];
        match a.unseal(chunk[..|nonce|], wire[..2], chunk[|nonce|..])
        case None => None
        case Some(pt) =>
          match ReadAddress(pt, utf8)
          case None => None
          case Some((dest, _)) => Some(Opened(dest, Fresh(NextBE(nonce)), wire[2 + total..]))
  }

  /** Opening a session reads the address out of the first plaintext and leaves the rest of the wire. */
  lemma OpeningReads(a: Aead, nonce: seq<byte>, pt: seq<byte>, rest: seq<byte>, utf8: seq<byte> -> bool)
    requires Lawful(a) && |nonce| + |pt| + TAG < 0x1_0000
    ensures OpenSession(a, nonce, SealChunk(a, nonce, pt) + rest, utf8)
         == match ReadAddress(pt, utf8)
            case None => None
            case Some((dest, _)) => Some(Opened(dest, Fresh(NextBE(nonce)), rest))
  {
    var c := SealChunk(a, nonce, pt);
    ChunkParts(a, nonce, pt);
    ChunkInFront(c, rest, |nonce|);
  }

  lemma ChunkInFront<T>(c: seq<T>, rest: seq<T>, n: nat)
    requires 2 + n <= |c|
    ensures var wire := c + rest;
      && wire[..2] == c[..2] && wire[0] == c[0] && wire[1] == c[1] && wire[|c|..] == rest
      && wire[2..|c|][..n] == c[2..2 + n] && wire[2..|c|][n..] == c[2 + n..]
  {
    assert (c + rest)[2..|c|] == c[2..];
    SliceSlice(c, 2, 0, n);
    SliceSlice(c, 2, n, |c| - 2);
  }

  /** A sealed greeting is opened as the target it names, whatever follows it. */
  lemma GreetingOpens(
      a: Aead, nonce: seq<byte>, addr: Address, port: u16, rest: seq<byte>, utf8: seq<byte> -> bool)
    requires Lawful(a) && |nonce| < 0xFE00
    requires addr.Valid() && WriteAddress(addr).Some? && (addr.Domain? ==> utf8(addr.name))
    ensures var hello := WriteAddress(addr).value + U16Bytes(port);
      OpenSession(a, nonce, SealChunk(a, nonce, hello) + rest, utf8)
        == Some(Opened(Destination(addr, port, Tcp), Fresh(NextBE(nonce)), rest))
  {
    HelloReads(addr, port, utf8);
    OpeningReads(a, nonce, WriteAddress(addr).value + U16Bytes(port), rest, utf8);
  }

  lemma HelloReads(addr: Address, port: u16, utf8: seq<byte> -> bool)
    requires addr.Valid() && WriteAddress(addr).Some? && (addr.Domain? ==> utf8(addr.name))
    ensures var hello := WriteAddress(addr).value + U16Bytes(port);
      |hello| < 0x180 && ReadAddress(hello, utf8) == Some((Destination(addr, port, Tcp), |hello|))
  {
    var hello := WriteAddress(addr).value + U16Bytes(port);
    assert hello + [] == hello;
    AddressRoundTrip(addr, port, [], utf8);
  }

  /**
    * End to end: what a client seals (target first, then its plaintexts) is opened as the same
    * target, and every later read of the session yields only a prefix of those plaintexts, and all
    * of them once the transport has been found ready often enough.
    */
  lemma SessionCarriesTargetAndData(
      a: Aead, nonce: seq<byte>, addr: Address, port: u16, pts: seq<seq<byte>>,
      calls: seq<Call>, utf8: seq<byte> -> bool)
    requires Lawful(a) && Fits(|nonce|, pts) && |nonce| < 0xFE00
    requires addr.Valid() && WriteAddress(addr).Some? && (addr.Domain? ==> utf8(addr.name))
    ensures var hello := WriteAddress(addr).value + U16Bytes(port);
      var o := OpenSession(a, nonce, SealAll(a, nonce, [hello] + pts), utf8);
      && o.Some?
      && o.value.dest == Destination(addr, port, Tcp)
      && WellFormed(o.value.reader)
      && var t := Run(a, o.value.reader, |nonce|, o.value.wire, calls);
         && t.yielded <= Concat(pts)
         && (t.wire == [] ==> t.yielded + t.s.output == Concat(pts))
         && (CountUseful(calls) >= |o.value.wire| + |Concat(pts)| ==> t.yielded == Concat(pts))
  {
    var hello := WriteAddress(addr).value + U16Bytes(port);
    assert ([hello] + pts)[1..] == pts;
    GreetingOpens(a, nonce, addr, port, SealAll(a, NextBE(nonce), pts), utf8);
    ReaderYieldsPlaintexts(a, NextBE(nonce), pts, calls);
    if CountUseful(calls) >= |SealAll(a, NextBE(nonce), pts)| + |Concat(pts)| {
      ReaderDeliversEverything(a, NextBE(nonce), pts, calls);
    }
  }
}
