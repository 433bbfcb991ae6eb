/** The mux wire format: length-prefixed metadata, then length-prefixed data. */
module MuxFrame {
  import opened Bytes
  import opened Net

  datatype Status = New | Keep | End | KeepAlive {
    function Byte(): byte
    {
      match this
      case New => 1
      case Keep => 2
      case End => 3
      case KeepAlive => 4
    }
  }

  function StatusOf(b: byte): Option<Status>
  {
    if b == 1 then Some(New)
    else if b == 2 then Some(Keep)
    else if b == 3 then Some(End)
    else if b == 4 then Some(KeepAlive)
    else None
  }

  datatype Inbound = Inbound(source: Option<Destination>, local: Option<Destination>)

  datatype Meta = Meta(
    id: u16, status: Status, option: byte,
    target: Option<Destination>, inbound: Option<Inbound>, globalId: seq<byte>)
  {
    /** The DATA bit of the option byte. */
    predicate HasData() { option % 2 == 1 }
  }

  datatype Frame = Frame(meta: Meta, data: Option<seq<byte>>)

  const NO_GLOBAL_ID: seq<byte> := [0, 0, 0, 0, 0, 0, 0, 0]

  /** `String::from_utf8_lossy`, as a function on bytes. */
  type Lossy = seq<byte> -> seq<byte>

  // ----- encoding -----

  function Clip(name: seq<byte>): (r: seq<byte>)
    ensures |r| <= 255
  {
    name[..Min(|name|, 255)]
  }

  function EncodeAddressPort(d: Destination): seq<byte>
  {
    U16Bytes(d.port) +
    match d.address
    case Ipv4(o) => [1] + o
    case Domain(n) => [2, |Clip(n)|] + Clip(n)
    case Ipv6(o) => [3] + o
  }

  /** A source or local endpoint, written with TCP as 0 and UDP as 1. */
  function EncodeEndpoint(d: Option<Destination>): seq<byte>
  {
    if d == None || d.value.network.Unix? || d.value.network.Unknown? then []
    else [if d.value.network.Tcp? then 0 else 1] + EncodeAddressPort(d.value)
  }

  predicate IsUdp(target: Option<Destination>) { target.Some? && target.value.network.Udp? }

  function EncodeTarget(target: Option<Destination>): seq<byte>
  {
    if target == None then []
    else [if target.value.network.Udp? then 2 else 1] + EncodeAddressPort(target.value)
  }

  function EncodeExtra(m: Meta): seq<byte>
  {
    if m.inbound.Some? then EncodeEndpoint(m.inbound.value.source) + EncodeEndpoint(m.inbound.value.local)
    else if IsUdp(m.target) && m.globalId != NO_GLOBAL_ID then m.globalId
    else []
  }

  function EncodeMeta(m: Meta): seq<byte>
  {
    U16Bytes(m.id) + [m.status.Byte(), m.option]
    + if m.status.New? then EncodeTarget(m.target) + EncodeExtra(m) else []
  }

  function EncodeData(data: Option<seq<byte>>): seq<byte>
  {
    if data.Some? then U16Bytes(|data.value|) + data.value else []
  }

  function EncodeFrame(f: Frame): seq<byte>
  {
    var meta := EncodeMeta(f.meta);
    U16Bytes(|meta|) + meta + EncodeData(f.data)
  }

  // ----- decoding; `None` stands for every error message -----

  function DecodeAddressPort(lossy: Lossy, data: seq<byte>, network: Network): (r: Option<(Destination, nat)>)
    ensures r.Some? ==> r.value.0.network == network && r.value.1 <= |data|
  {
    if |data| < 3 then None
    else
      var port := U16Of(data[0], data[1]);
      if data[2] == 1 then
        if |data| < 7 then None else Some((Destination(Ipv4(data[3..7]), port, network), 7))
      else if data[2] == 2 then
        if |data| < 4 then None
        else
          var end: nat := 4 + data[3] as int;
          if |data| < end then None
          else Some((Destination(Domain(lossy(data[4..end])), port, network), end))
      else if data[2] == 3 then
        if |data| < 19 then None else Some((Destination(Ipv6(data[3..19]), port, network), 19))
      else None
  }

  /** `decode` as `read_frame` calls it, without source and local endpoints. */
  function DecodeMeta(lossy: Lossy, buf: seq<byte>): Option<Meta>
  {
    if |buf| < 4 || StatusOf(buf[2]) == None then None
    else
      var m := Meta(U16Of(buf[0], buf[1]), StatusOf(buf[2]).value, buf[3], None, None, NO_GLOBAL_ID);
      match m.status
      case New => DecodeNew(lossy, m, buf[4..])
      case Keep =>
        if |buf| > 4 && buf[4] == 2 then
          match DecodeAddressPort(lossy, buf[5..], Udp)
          case None => None
          case Some((dest, _)) => Some(m.(target := Some(dest)))
        else Some(m)
      case _ => Some(m)
  }

  function DecodeNew(lossy: Lossy, m: Meta, rest: seq<byte>): Option<Meta>
  {
    if rest == [] || (rest[0] != 1 && rest[0] != 2) then None
    else
      match DecodeAddressPort(lossy, rest[1..], if rest[0] == 1 then Tcp else Udp)
      case None => None
      case Some((dest, consumed)) =>
        var after := rest[1 + consumed..];
        var m' := m.(target := Some(dest));
        if dest.network.Udp? && m.HasData() && |after| >= 8 then Some(m'.(globalId := after[..8]))
        else Some(m')
  }

  /** `read_frame`: the frame and what is left on the wire. */
  function ParseFrame(lossy: Lossy, wire: seq<byte>): (r: Option<(Frame, seq<byte>)>)
    ensures r.Some? ==> |r.value.1| < |wire|
  {
    if |wire| < 2 then None
    else
      var metaEnd := 2 + U16Of(wire[0], wire[1]);
      if |wire| < metaEnd then None
      else match DecodeMeta(lossy, wire[2..metaEnd])
        case None => None
        case Some(m) => ParseData(m, wire[metaEnd..])
  }

  function ParseData(m: Meta, wire: seq<byte>): (r: Option<(Frame, seq<byte>)>)
    ensures r.Some? ==> r.value.0.meta == m && |r.value.1| <= |wire|
  {
    if !m.HasData() then Some((Frame(m, None), wire))
    else if |wire| < 2 then None
    else
      var end := 2 + U16Of(wire[0], wire[1]);
      if |wire| < end then None else Some((Frame(m, Some(wire[2..end])), wire[end..]))
  }

  class ByteReader {
    var bytes: seq<byte>

    /** `read_exact`; `None` when the stream ends first. */
    method ReadExact(n: nat) returns (got: Option<seq<byte>>)
      modifies this
      ensures if n <= |old(bytes)| then got == Some(old(bytes)[..n]) && bytes == old(bytes)[n..]
              else got == None && bytes == []
    {
      if n <= |bytes| { got, bytes := Some(bytes[..n]), bytes[n..]; } else { got, bytes := None, []; }
    }
  }

  method ReadFrame(lossy: Lossy, reader: ByteReader) returns (f: Option<Frame>)
    modifies reader
    ensures var p := ParseFrame(lossy, old(reader.bytes));
      f.Some? == p.Some? && (f.Some? ==> p.value == (f.value, reader.bytes))
  {
    ghost var wire := reader.bytes;
    var lenBuf := reader.ReadExact(2);
    if lenBuf == None { return None; }
    var metaBuf := reader.ReadExact(U16Of(lenBuf.value[0], lenBuf.value[1]));
    if metaBuf == None { return None; }
    ghost var metaEnd := 2 + |metaBuf.value|;
    SliceSlice(wire, 2, 0, |metaBuf.value|);
    SliceSlice(wire, 2, |metaBuf.value|, |wire| - 2);
    var meta := DecodeMeta(lossy, metaBuf.value);
    if meta == None { return None; }
    if !meta.value.HasData() { return Some(Frame(meta.value, None)); }
    ghost var after := reader.bytes;
    var dataLen := reader.ReadExact(2);
    if dataLen == None { return None; }
    var data := reader.ReadExact(U16Of(dataLen.value[0], dataLen.value[1]));
    if data == None { return None; }
    SliceSlice(after, 2, 0, |data.value|);
    SliceSlice(after, 2, |data.value|, |after| - 2);
    return Some(Frame(meta.value, data));
  }

  // ----- round trip -----

  /** What the Rust types guarantee: octet counts and an eight-byte global id. */
  predicate Typed(m: Meta)
  {
    && |m.globalId| == 8
    && (m.target.Some? ==> m.target.value.address.Valid())
    && (m.inbound.Some? ==>
         && (m.inbound.value.source.Some? ==> m.inbound.value.source.value.address.Valid())
         && (m.inbound.value.local.Some? ==> m.inbound.value.local.value.address.Valid()))
  }

  /** The name survives clipping to 255 bytes and lossy decoding, as valid short names do. */
  predicate NameSurvives(lossy: Lossy, a: Address) { a.Domain? ==> lossy(Clip(a.name)) == a.name }

  predicate GoodMeta(lossy: Lossy, m: Meta)
  {
    && m.inbound == None
    && if m.status.New? then
         && m.target.Some?
         && (m.target.value.network.Tcp? || m.target.value.network.Udp?)
         && NameSurvives(lossy, m.target.value.address)
         && (m.globalId != NO_GLOBAL_ID ==> IsUdp(m.target) && m.HasData())
       else m.target == None && m.globalId == NO_GLOBAL_ID
  }

  predicate GoodFrame(lossy: Lossy, f: Frame)
  {
    && GoodMeta(lossy, f.meta)
    && (f.data.Some? <==> f.meta.HasData())
    && (f.data.Some? ==> |f.data.value| < 0x1_0000)
  }

  lemma AddressPortLength(d: Destination)
    requires d.address.Valid()
    ensures 3 <= |EncodeAddressPort(d)| <= 259
  {
  }

  /** Decoding gives back the destination, its name clipped and lossily decoded. */
  lemma AddressPortRoundTrip(lossy: Lossy, d: Destination, network: Network, tail: seq<byte>)
    requires d.address.Valid()
    ensures var seen := if d.address.Domain? then Domain(lossy(Clip(d.address.name))) else d.address;
      DecodeAddressPort(lossy, EncodeAddressPort(d) + tail, network)
        == Some((Destination(seen, d.port, network), |EncodeAddressPort(d)|))
  {
    U16RoundTrip(d.port);
    var data := EncodeAddressPort(d) + tail;
    match d.address
    case Ipv4(o) => assert data[3..7] == o;
    case Domain(n) => assert data[4..4 + |Clip(n)|] == Clip(n);
    case Ipv6(o) => assert data[3..19] == o;
  }

  /** The body of a New frame with a target decodes to that target. */
  lemma NewRoundTrip(lossy: Lossy, m: Meta, base: Meta)
    requires Typed(m) && m.target.Some?
    ensures var t := m.target.value;
      var seen := if t.address.Domain? then Domain(lossy(Clip(t.address.name))) else t.address;
      var dest := Destination(seen, t.port, if t.network.Udp? then Udp else Tcp);
      var extra := EncodeExtra(m);
      DecodeNew(lossy, base, EncodeTarget(m.target) + extra)
        == Some(if dest.network.Udp? && base.HasData() && |extra| >= 8
                then base.(target := Some(dest), globalId := extra[..8])
                else base.(target := Some(dest)))
  {
    var t, extra := m.target.value, EncodeExtra(m);
    var rest := EncodeTarget(m.target) + extra;
    Parts([rest[0]], EncodeAddressPort(t), extra);
    AddressPortRoundTrip(lossy, t, if t.network.Udp? then Udp else Tcp, extra);
  }

  /** Encoded metadata decodes to itself exactly for good metadata. */
  lemma MetaRoundTripIff(lossy: Lossy, m: Meta)
    requires Typed(m)
    ensures DecodeMeta(lossy, EncodeMeta(m)) == Some(m) <==> GoodMeta(lossy, m)
  {
    var buf := EncodeMeta(m);
    U16RoundTrip(m.id);
    var base := Meta(m.id, m.status, m.option, None, None, NO_GLOBAL_ID);
    if m.status.New? {
      assert buf[4..] == EncodeTarget(m.target) + EncodeExtra(m);
      assert DecodeMeta(lossy, buf) == DecodeNew(lossy, base, buf[4..]);
      if m.target.Some? {
        NewRoundTrip(lossy, m, base);
        assert |m.globalId| == 8 ==> m.globalId[..8] == m.globalId;
      }
    } else {
      assert |buf| == 4;
    }
  }

  lemma MetaLength(m: Meta)
    requires Typed(m)
    ensures 4 <= |EncodeMeta(m)| < 0x1_0000
  {
    if m.target.Some? { AddressPortLength(m.target.value); }
    if m.inbound.Some? {
      if m.inbound.value.source.Some? { AddressPortLength(m.inbound.value.source.value); }
      if m.inbound.value.local.Some? { AddressPortLength(m.inbound.value.local.value); }
    }
  }

  lemma DataRoundTripIff(m: Meta, data: Option<seq<byte>>, rest: seq<byte>)
    ensures ParseData(m, EncodeData(data) + rest) == Some((Frame(m, data), rest))
        <==> (data.Some? <==> m.HasData()) && (data.Some? ==> |data.value| < 0x1_0000)
  {
    if data.Some? {
      if |data.value| < 0x1_0000 {
        Prefixed(data.value, rest);
      } else {
        var p := ParseData(m, EncodeData(data) + rest);
        assert p.Some? && p.value.0.data.Some? ==> |p.value.0.data.value| < 0x1_0000;
      }
    } else {
      assert EncodeData(data) + rest == rest;
    }
  }

  lemma ParsePrefixed(lossy: Lossy, meta: seq<byte>, after: seq<byte>)
    requires |meta| < 0x1_0000
    ensures ParseFrame(lossy, U16Bytes(|meta|) + meta + after)
         == match DecodeMeta(lossy, meta) case None => None case Some(m) => ParseData(m, after)
  {
    Prefixed(meta, after);
  }

  /** A frame reads back as itself, and nothing after it is touched, exactly when it is good. */
  lemma FrameRoundTripIff(lossy: Lossy, f: Frame, rest: seq<byte>)
    requires Typed(f.meta)
    ensures ParseFrame(lossy, EncodeFrame(f) + rest) == Some((f, rest)) <==> GoodFrame(lossy, f)
  {
    var meta, data := EncodeMeta(f.meta), EncodeData(f.data);
    MetaLength(f.meta);
    Assoc(U16Bytes(|meta|) + meta, data, rest);
    ParsePrefixed(lossy, meta, data + rest);
    MetaRoundTripIff(lossy, f.meta);
    DataRoundTripIff(f.meta, f.data, rest);
  }

  function EncodeFrames(fs: seq<Frame>): seq<byte>
  {
    if fs == [] then [] else EncodeFrame(fs[0]) + EncodeFrames(fs[1..])
  }

  /** The frames a read loop sees before its first error. */
  function ParseFrames(lossy: Lossy, wire: seq<byte>): seq<Frame>
    decreases |wire|
  {
    match ParseFrame(lossy, wire)
    case None => []
    case Some((f, rest)) => [f] + ParseFrames(lossy, rest)
  }

  /** Any interleaving of good frames on one connection is read back as the same list. */
  lemma {:induction false} FramesRoundTrip(lossy: Lossy, fs: seq<Frame>)
    requires forall i :: 0 <= i < |fs| ==> Typed(fs[i].meta) && GoodFrame(lossy, fs[i])
    ensures ParseFrames(lossy, EncodeFrames(fs)) == fs
  {
    if fs != [] {
      FrameRoundTripIff(lossy, fs[0], EncodeFrames(fs[1..]));
      FramesRoundTrip(lossy, fs[1..]);
      ConsTail(fs, []);
    }
  }
}
