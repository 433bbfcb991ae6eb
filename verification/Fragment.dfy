/**
  * The freedom outbound's fragmentation: the first TLS record, or whole writes, cut at random
  * places. Every clock reading that `rand_between` takes is an argument here.
  */
module Fragment {
  import opened Bytes

  datatype Config = Config(
    packetsFrom: nat, packetsTo: nat, lengthMin: nat, lengthMax: nat,
    intervalMin: nat, intervalMax: nat, maxSplitMin: nat, maxSplitMax: nat)

  function RandBetween(min: nat, max: nat, nanos: nat): (r: nat)
    ensures min <= r && (r <= max || r == min)
  {
    if min >= max then min else min + nanos % (max - min + 1)
  }

  /** A 64-bit number, as the settings are. */
  type u64 = x: int | 0 <= x < 0x1_0000_0000_0000_0000

  /** The free `rand_between` in wrapping arithmetic; `None` is its division by zero. */
  function FreeRand(min: u64, max: u64, nanos: nat): Option<nat>
  {
    if min >= max then Some(min) else
      var range := (max - min + 1) % 0x1_0000_0000_0000_0000;
      if range == 0 then None else Some(min + nanos % range)
  }

  /** `FragmentWriter::rand_between`, which looks at the range first. */
  function WriterRand(min: u64, max: u64, nanos: nat): Option<nat>
  {
    if min >= max then Some(min) else
      var range := (max - min + 1) % 0x1_0000_0000_0000_0000;
      Some(if range == 0 then min else min + nanos % range)
  }

  /** Both draw as `RandBetween` does, except from the range of all numbers, where they part. */
  lemma RandsAgreeIff(min: u64, max: u64, nanos: nat)
    ensures FreeRand(min, max, nanos) == WriterRand(min, max, nanos)
        <==> !(min == 0 && max == 0xFFFF_FFFF_FFFF_FFFF)
    ensures FreeRand(min, max, nanos) == WriterRand(min, max, nanos) ==>
      FreeRand(min, max, nanos) == Some(RandBetween(min, max, nanos))
  {
    if min < max && !(min == 0 && max == 0xFFFF_FFFF_FFFF_FFFF) {
      assert (max - min + 1) % 0x1_0000_0000_0000_0000 == max - min + 1;
    }
  }

  /** `finished` is false while the loop still wants clock readings. */
  datatype Cutting = Cutting(pieces: seq<seq<byte>>, finished: bool)

  /** The cutting loop shared by both modes; `made` counts the splits so far. */
  function Cut(cfg: Config, maxSplit: nat, payload: seq<byte>, clock: seq<nat>, made: nat): Cutting
    decreases |clock|
  {
    if payload == [] then Cutting([], true)
    else if clock == [] then Cutting([], false)
    else if maxSplit > 0 && made + 1 >= maxSplit then Cutting([payload], true)
    else
      var n := Min(RandBetween(cfg.lengthMin, cfg.lengthMax, clock[0]), |payload|);
      var c := Cut(cfg, maxSplit, payload[n..], clock[1..], made + 1);
      c.(pieces := [payload[..n]] + c.pieces)
  }

  /** A TLS record: type and version, length, fragment (section 5.1 of RFC 8446). */
  function Record(prefix: seq<byte>, piece: seq<byte>): seq<byte>
  {
    prefix + U16Bytes(|piece|) + piece
  }

  function Records(prefix: seq<byte>, pieces: seq<seq<byte>>): (r: seq<seq<byte>>)
    ensures |r| == |pieces|
  {
    seq(|pieces|, i requires 0 <= i < |pieces| => Record(prefix, pieces[i]))
  }

  function RecordLen(data: seq<byte>): nat
    requires |data| > 5
  {
    5 + U16Of(data[3], data[4])
  }

  /** A first write that holds a complete handshake record. */
  predicate HoldsHandshake(count: nat, data: seq<byte>)
  {
    count == 1 && |data| > 5 && data[0] == 22 && |data| >= RecordLen(data)
  }

  function Payload(data: seq<byte>): seq<byte>
    requires |data| > 5 && |data| >= RecordLen(data)
  {
    data[5..RecordLen(data)]
  }

  predicate TlsMode(cfg: Config) { cfg.packetsFrom == 0 && cfg.packetsTo == 1 }

  /** The readings one write consumes: one for the split limit, one for each length. */
  datatype Choices = Choices(split: nat, clock: seq<nat>)

  function MaxSplit(cfg: Config, ch: Choices): nat
  {
    RandBetween(cfg.maxSplitMin, cfg.maxSplitMax, ch.split)
  }

  /** The `write_all` calls reaching the connection, and whether the function returned. */
  datatype Written = Written(writes: seq<seq<byte>>, finished: bool)

  function NonEmpty(b: seq<byte>): seq<seq<byte>> { if b == [] then [] else [b] }

  function WriteTls(cfg: Config, data: seq<byte>, ch: Choices): Written
    requires |data| > 5 && |data| >= RecordLen(data)
  {
    var c := Cut(cfg, MaxSplit(cfg, ch), Payload(data), ch.clock, 0);
    var records := Records(data[..3], c.pieces);
    if !c.finished then Written(if cfg.intervalMax == 0 then [] else records, false)
    else
      Written((if cfg.intervalMax == 0 then NonEmpty(Concat(records)) else records)
              + NonEmpty(data[RecordLen(data)..]), true)
  }

  function Write(cfg: Config, count: nat, data: seq<byte>, ch: Choices): Written
  {
    if TlsMode(cfg) then
      if !HoldsHandshake(count, data) then Written([data], true) else WriteTls(cfg, data, ch)
    else if cfg.packetsFrom != 0 && (count < cfg.packetsFrom || count > cfg.packetsTo) then
      Written([data], true)
    else
      var c := Cut(cfg, MaxSplit(cfg, ch), data, ch.clock, 0);
      Written(c.pieces, c.finished)
  }

  // ----- the two implementations -----

  class Connection {
    var writes: seq<seq<byte>>

    method WriteAll(data: seq<byte>)
      modifies this
      ensures writes == old(writes) + [data]
    {
      writes := writes + [data];
    }
  }

  lemma RecordsSnoc(prefix: seq<byte>, pieces: seq<seq<byte>>, piece: seq<byte>)
    ensures Records(prefix, pieces + [piece]) == Records(prefix, pieces) + [Record(prefix, piece)]
  {
  }

  /** Progress of a cutting loop: what is already cut plus what the rest will become. */
  ghost predicate Along(cfg: Config, maxSplit: nat, all: Cutting, done: seq<seq<byte>>,
                        left: seq<byte>, clock: seq<nat>, made: nat)
  {
    var c := Cut(cfg, maxSplit, left, clock, made);
    all == Cutting(done + c.pieces, c.finished)
  }

  /** One turn of the loop keeps `Along`. */
  lemma AlongStep(cfg: Config, maxSplit: nat, all: Cutting, done: seq<seq<byte>>,
                  left: seq<byte>, clock: seq<nat>, made: nat)
    requires Along(cfg, maxSplit, all, done, left, clock, made) && left != []
    ensures clock == [] ==> all == Cutting(done, false)
    ensures clock != [] && maxSplit > 0 && made + 1 >= maxSplit ==> all == Cutting(done + [left], true)
    ensures clock != [] && !(maxSplit > 0 && made + 1 >= maxSplit) ==>
      var n := Min(RandBetween(cfg.lengthMin, cfg.lengthMax, clock[0]), |left|);
      Along(cfg, maxSplit, all, done + [left[..n]], left[n..], clock[1..], made + 1)
  {
    if clock != [] && !(maxSplit > 0 && made + 1 >= maxSplit) {
      var n := Min(RandBetween(cfg.lengthMin, cfg.lengthMax, clock[0]), |left|);
      var c := Cut(cfg, maxSplit, left[n..], clock[1..], made + 1);
      Assoc(done, [left[..n]], c.pieces);
    }
  }

  /** The same turn on the loops' own indices. */
  lemma IndexStep(cfg: Config, maxSplit: nat, all: Cutting, done: seq<seq<byte>>,
                  data: seq<byte>, from: nat, clock: seq<nat>, made: nat)
    requires from < |data| && made <= |clock|
    requires Along(cfg, maxSplit, all, done, data[from..], clock[made..], made)
    ensures made == |clock| ==> all == Cutting(done, false)
    ensures made < |clock| && maxSplit > 0 && made + 1 >= maxSplit ==> all == Cutting(done + [data[from..]], true)
    ensures made < |clock| && !(maxSplit > 0 && made + 1 >= maxSplit) ==>
      var to := Min(from + RandBetween(cfg.lengthMin, cfg.lengthMax, clock[made]), |data|);
      Along(cfg, maxSplit, all, done + [data[from..to]], data[to..], clock[made + 1..], made + 1)
  {
    AlongStep(cfg, maxSplit, all, done, data[from..], clock[made..], made);
    if made < |clock| {
      var to := Min(from + RandBetween(cfg.lengthMin, cfg.lengthMax, clock[made]), |data|);
      SliceSlice(data, from, 0, to - from);
      SliceSlice(data, from, to - from, |data| - from);
      SliceSlice(clock, made, 1, |clock| - made);
    }
  }

  lemma AlongStart(cfg: Config, maxSplit: nat, data: seq<byte>, clock: seq<nat>)
    ensures Along(cfg, maxSplit, Cut(cfg, maxSplit, data, clock, 0), [], data[0..], clock[0..], 0)
  {
    assert data[0..] == data && clock[0..] == clock;
  }

  lemma AlongEnd(cfg: Config, maxSplit: nat, all: Cutting, done: seq<seq<byte>>, clock: seq<nat>, made: nat)
    requires Along(cfg, maxSplit, all, done, [], clock, made)
    ensures all == Cutting(done, true)
  {
  }

  /** Where the fragments cut so far have gone. */
  ghost predicate Sent(cfg: Config, prefix: seq<byte>, done: seq<seq<byte>>, hello: seq<byte>,
                       before: seq<seq<byte>>, after: seq<seq<byte>>)
  {
    if cfg.intervalMax == 0
    then hello == Concat(Records(prefix, done)) && after == before
    else hello == [] && after == before + Records(prefix, done)
  }

  /** Sends one fragment, or adds it to `hello`. */
  method Emit(writer: Connection, cfg: Config, prefix: seq<byte>, piece: seq<byte>, hello: seq<byte>,
              ghost done: seq<seq<byte>>, ghost before: seq<seq<byte>>)
    returns (hello': seq<byte>)
    requires Sent(cfg, prefix, done, hello, before, writer.writes)
    modifies writer
    ensures Sent(cfg, prefix, done + [piece], hello', before, writer.writes)
  {
    var buf := Record(prefix, piece);
    RecordsSnoc(prefix, done, piece);
    ConcatSnoc(Records(prefix, done), buf);
    hello' := hello;
    if cfg.intervalMax == 0 { hello' := hello + buf; } else { writer.WriteAll(buf); }
  }

  /** The loop over the record: fragments go out one by one, or gather in `hello`. */
  method TlsLoop(writer: Connection, cfg: Config, prefix: seq<byte>, tlsData: seq<byte>,
                 maxSplit: nat, clock: seq<nat>)
    returns (hello: seq<byte>, finished: bool)
    modifies writer
    ensures var c := Cut(cfg, maxSplit, tlsData, clock, 0);
      && finished == c.finished
      && if cfg.intervalMax == 0
         then hello == Concat(Records(prefix, c.pieces)) && writer.writes == old(writer.writes)
         else hello == [] && writer.writes == old(writer.writes) + Records(prefix, c.pieces)
  {
    hello := [];
    var from, splitNum := 0, 0;
    ghost var all, done, before := Cut(cfg, maxSplit, tlsData, clock, 0), [], writer.writes;
    assert Records(prefix, []) == [];
    AlongStart(cfg, maxSplit, tlsData, clock);
    while from < |tlsData|
      invariant 0 <= from <= |tlsData| && 0 <= splitNum <= |clock|
      invariant Along(cfg, maxSplit, all, done, tlsData[from..], clock[splitNum..], splitNum)
      invariant Sent(cfg, prefix, done, hello, before, writer.writes)
      decreases |clock| - splitNum
    {
      IndexStep(cfg, maxSplit, all, done, tlsData, from, clock, splitNum);
      if splitNum == |clock| { return hello, false; }
      var to := Min(from + RandBetween(cfg.lengthMin, cfg.lengthMax, clock[splitNum]), |tlsData|);
      splitNum := splitNum + 1;
      if maxSplit > 0 && splitNum >= maxSplit {
        hello := Emit(writer, cfg, prefix, tlsData[from..], hello, done, before);
        return hello, true;
      }
      hello := Emit(writer, cfg, prefix, tlsData[from..to], hello, done, before);
      done := done + [tlsData[from..to]];
      from := to;
    }
    assert tlsData[from..] == [];
    AlongEnd(cfg, maxSplit, all, done, clock[splitNum..], splitNum);
    return hello, true;
  }

  /** The loop over plain data. */
  method DataLoop(writer: Connection, cfg: Config, data: seq<byte>, maxSplit: nat, clock: seq<nat>)
    returns (finished: bool)
    modifies writer
    ensures var c := Cut(cfg, maxSplit, data, clock, 0);
      finished == c.finished && writer.writes == old(writer.writes) + c.pieces
  {
    var from, splitNum := 0, 0;
    ghost var all, done := Cut(cfg, maxSplit, data, clock, 0), [];
    AlongStart(cfg, maxSplit, data, clock);
    while from < |data|
      invariant 0 <= from <= |data| && 0 <= splitNum <= |clock|
      invariant Along(cfg, maxSplit, all, done, data[from..], clock[splitNum..], splitNum)
      invariant writer.writes == old(writer.writes) + done
      decreases |clock| - splitNum
    {
      IndexStep(cfg, maxSplit, all, done, data, from, clock, splitNum);
      if splitNum == |clock| { return false; }
      var to := Min(from + RandBetween(cfg.lengthMin, cfg.lengthMax, clock[splitNum]), |data|);
      splitNum := splitNum + 1;
      if maxSplit > 0 && splitNum >= maxSplit {
        writer.WriteAll(data[from..]);
        return true;
      }
      writer.WriteAll(data[from..to]);
      done := done + [data[from..to]];
      from := to;
    }
    assert data[from..] == [];
    AlongEnd(cfg, maxSplit, all, done, clock[splitNum..], splitNum);
    return true;
  }

  method WriteFragmented(writer: Connection, cfg: Config, count: nat, data: seq<byte>, ch: Choices)
    returns (finished: bool)
    modifies writer
    ensures Write(cfg, count, data, ch).finished == finished
    ensures writer.writes == old(writer.writes) + Write(cfg, count, data, ch).writes
  {
    if cfg.packetsFrom == 0 && cfg.packetsTo == 1 {
      if count != 1 || |data| <= 5 || data[0] != 22 || |data| < RecordLen(data) {
        writer.WriteAll(data);
        return true;
      }
      var recordLen := RecordLen(data);
      ghost var before := writer.writes;
      var hello;
      hello, finished := TlsLoop(writer, cfg, data[..3], data[5..recordLen], MaxSplit(cfg, ch), ch.clock);
      if !finished { return; }
      if hello != [] { writer.WriteAll(hello); }
      if |data| > recordLen { writer.WriteAll(data[recordLen..]); }
      return;
    }
    if cfg.packetsFrom != 0 && (count < cfg.packetsFrom || count > cfg.packetsTo) {
      writer.WriteAll(data);
      return true;
    }
    finished := DataLoop(writer, cfg, data, MaxSplit(cfg, ch), ch.clock);
  }

  /** The stateful twin: it counts its own calls and is otherwise the same code. */
  class FragmentWriter {
    const config: Config
    const inner: Connection
    var count: nat

    constructor (config: Config, inner: Connection)
      ensures this.config == config && this.inner == inner && count == 0
    {
      this.config, this.inner, count := config, inner, 0;
    }

    method WriteAll(data: seq<byte>, ch: Choices) returns (finished: bool)
      modifies this, inner
      ensures count == old(count) + 1
      ensures Write(config, count, data, ch).finished == finished
      ensures inner.writes == old(inner.writes) + Write(config, count, data, ch).writes
    {
      count := count + 1;
      if TlsMode(config) && !HoldsHandshake(count, data) {
        inner.WriteAll(data);
        return true;
      }
      if TlsMode(config) {
        var end := RecordLen(data);
        var hello;
        hello, finished := TlsLoop(inner, config, data[..3], data[5..end], MaxSplit(config, ch), ch.clock);
        if finished && hello != [] { inner.WriteAll(hello); }
        if finished && |data| > end { inner.WriteAll(data[end..]); }
      } else if config.packetsFrom != 0 && !(config.packetsFrom <= count <= config.packetsTo) {
        inner.WriteAll(data);
        finished := true;
      } else {
        finished := DataLoop(inner, config, data, MaxSplit(config, ch), ch.clock);
      }
    }
  }

  // ----- what is preserved -----

  /** The pieces of a finished cut are the payload, in order, at most `maxSplit` of them. */
  lemma {:induction false} CutConserves(cfg: Config, maxSplit: nat, payload: seq<byte>, clock: seq<nat>, made: nat)
    ensures var c := Cut(cfg, maxSplit, payload, clock, made);
      && (c.finished ==> Concat(c.pieces) == payload)
      && (payload != [] && c.finished ==> c.pieces != [])
      && (maxSplit > made ==> made + |c.pieces| <= maxSplit)
      && (forall i :: 0 <= i < |c.pieces| ==> |c.pieces[i]| <= |payload|)
      && (cfg.lengthMin >= 1 ==> forall i :: 0 <= i < |c.pieces| ==> c.pieces[i] != [])
    decreases |clock|
  {
    if payload != [] && clock != [] {
      if maxSplit > 0 && made + 1 >= maxSplit {
        assert Concat([payload]) == payload + Concat([payload][1..]) == payload;
      } else {
        var n := Min(RandBetween(cfg.lengthMin, cfg.lengthMax, clock[0]), |payload|);
        CutConserves(cfg, maxSplit, payload[n..], clock[1..], made + 1);
        var c := Cut(cfg, maxSplit, payload[n..], clock[1..], made + 1);
        assert ([payload[..n]] + c.pieces)[1..] == c.pieces;
        assert payload[..n] + payload[n..] == payload;
      }
    }
  }

  /** Reading `n` records off a byte stream, as a TLS receiver does. */
  function ParseRecords(bytes: seq<byte>, n: nat): Option<(seq<(seq<byte>, seq<byte>)>, seq<byte>)>
    decreases n
  {
    if n == 0 then Some(([], bytes))
    else if |bytes| < 5 then None
    else
      var end := 5 + U16Of(bytes[3], bytes[4]);
      if |bytes| < end then None
      else match ParseRecords(bytes[end..], n - 1)
        case None => None
        case Some((records, rest)) => Some(([(bytes[..3], bytes[5..end])] + records, rest))
  }

  function Tagged(prefix: seq<byte>, pieces: seq<seq<byte>>): (r: seq<(seq<byte>, seq<byte>)>)
  {
    seq(|pieces|, i requires 0 <= i < |pieces| => (prefix, pieces[i]))
  }

  lemma ParseOne(prefix: seq<byte>, piece: seq<byte>, after: seq<byte>)
    requires |prefix| == 3 && |piece| < 0x1_0000
    ensures var bytes := Record(prefix, piece) + after;
      && |bytes| >= 5
      && var end := 5 + U16Of(bytes[3], bytes[4]);
         && end <= |bytes| && bytes[..3] == prefix && bytes[5..end] == piece && bytes[end..] == after
  {
    U16RoundTrip(|piece|);
  }

  lemma RecordsTail(prefix: seq<byte>, pieces: seq<seq<byte>>)
    requires pieces != []
    ensures Records(prefix, pieces)[1..] == Records(prefix, pieces[1..])
    ensures [(prefix, pieces[0])] + Tagged(prefix, pieces[1..]) == Tagged(prefix, pieces)
  {
  }

  lemma {:induction false} RecordsParse(prefix: seq<byte>, pieces: seq<seq<byte>>, tail: seq<byte>)
    requires |prefix| == 3 && forall i :: 0 <= i < |pieces| ==> |pieces[i]| < 0x1_0000
    ensures ParseRecords(Concat(Records(prefix, pieces)) + tail, |pieces|) == Some((Tagged(prefix, pieces), tail))
    decreases |pieces|
  {
    if pieces == [] {
      assert Concat(Records(prefix, pieces)) + tail == tail;
      assert Tagged(prefix, pieces) == [];
    } else {
      RecordsTail(prefix, pieces);
      var first, others := Record(prefix, pieces[0]), Concat(Records(prefix, pieces[1..]));
      assert Concat(Records(prefix, pieces)) == first + others;
      Assoc(first, others, tail);
      ParseOne(prefix, pieces[0], others + tail);
      RecordsParse(prefix, pieces[1..], tail);
    }
  }

  /** `out` is the same handshake data in one or more records, then the trailing bytes verbatim. */
  ghost predicate SameMeaning(data: seq<byte>, out: seq<byte>, pieces: seq<seq<byte>>)
    requires |data| > 5 && |data| >= RecordLen(data)
  {
    && pieces != []
    && Concat(pieces) == Payload(data)
    && ParseRecords(out, |pieces|) == Some((Tagged(data[..3], pieces), data[RecordLen(data)..]))
  }

  lemma ConcatNonEmpty(b: seq<byte>)
    ensures Concat(NonEmpty(b)) == b
  {
    if b != [] {
      assert Concat([b]) == b + Concat([b][1..]) == b;
    }
  }

  /** What reaches the connection does not depend on `interval_max`: records, then the trailer. */
  lemma WriteTlsBytes(cfg: Config, data: seq<byte>, ch: Choices)
    requires |data| > 5 && |data| >= RecordLen(data) && WriteTls(cfg, data, ch).finished
    ensures var c := Cut(cfg, MaxSplit(cfg, ch), Payload(data), ch.clock, 0);
      Concat(WriteTls(cfg, data, ch).writes)
        == Concat(Records(data[..3], c.pieces)) + data[RecordLen(data)..]
  {
    var c := Cut(cfg, MaxSplit(cfg, ch), Payload(data), ch.clock, 0);
    var records, tail := Records(data[..3], c.pieces), data[RecordLen(data)..];
    ConcatNonEmpty(Concat(records));
    ConcatNonEmpty(tail);
    ConcatAppend(NonEmpty(Concat(records)), NonEmpty(tail));
    ConcatAppend(records, NonEmpty(tail));
  }

  /**
    * Fragmenting a handshake record of nonzero length keeps its meaning for every choice of
    * lengths, split limit and interval, in at most `max_split` records when that is positive and
    * with no empty record when `length_min` is.
    */
  lemma TlsFragmentationPreservesMeaning(cfg: Config, data: seq<byte>, ch: Choices)
    requires TlsMode(cfg) && HoldsHandshake(1, data)
    requires Write(cfg, 1, data, ch).finished && Payload(data) != []
    ensures var pieces := Cut(cfg, MaxSplit(cfg, ch), Payload(data), ch.clock, 0).pieces;
      && SameMeaning(data, Concat(Write(cfg, 1, data, ch).writes), pieces)
      && (MaxSplit(cfg, ch) > 0 ==> |pieces| <= MaxSplit(cfg, ch))
      && (cfg.lengthMin >= 1 ==> [] !in pieces)
  {
    CutConserves(cfg, MaxSplit(cfg, ch), Payload(data), ch.clock, 0);
    WriteTlsBytes(cfg, data, ch);
    var c := Cut(cfg, MaxSplit(cfg, ch), Payload(data), ch.clock, 0);
    RecordsParse(data[..3], c.pieces, data[RecordLen(data)..]);
  }

  lemma {:induction false} ParseConsumes(bytes: seq<byte>, n: nat)
    ensures var r := ParseRecords(bytes, n); r.Some? ==> |r.value.1| + 5 * n <= |bytes|
    decreases n
  {
    if n > 0 && |bytes| >= 5 {
      var end := 5 + U16Of(bytes[3], bytes[4]);
      if |bytes| >= end { ParseConsumes(bytes[end..], n - 1); }
    }
  }

  /** A zero-length record comes out without its header, so no reading of the output has it. */
  lemma EmptyRecordLosesHeader(cfg: Config, data: seq<byte>, ch: Choices, pieces: seq<seq<byte>>)
    requires TlsMode(cfg) && HoldsHandshake(1, data) && Payload(data) == []
    ensures var w := Write(cfg, 1, data, ch);
      w.finished && Concat(w.writes) == data[5..] && !SameMeaning(data, Concat(w.writes), pieces)
  {
    WriteTlsBytes(cfg, data, ch);
    assert Records(data[..3], []) == [];
    assert [] + data[5..] == data[5..];
    ParseConsumes(data[5..], |pieces|);
  }

  ghost predicate MeaningKept(data: seq<byte>, out: seq<byte>)
    requires |data| > 5 && |data| >= RecordLen(data)
  {
    exists pieces :: SameMeaning(data, out, pieces)
  }

  /** So the condition of the theorem above is exact. */
  lemma MeaningKeptIff(cfg: Config, data: seq<byte>, ch: Choices)
    requires TlsMode(cfg) && HoldsHandshake(1, data) && Write(cfg, 1, data, ch).finished
    ensures MeaningKept(data, Concat(Write(cfg, 1, data, ch).writes)) <==> Payload(data) != []
  {
    var out := Concat(Write(cfg, 1, data, ch).writes);
    if Payload(data) != [] {
      TlsFragmentationPreservesMeaning(cfg, data, ch);
      var pieces := Cut(cfg, MaxSplit(cfg, ch), Payload(data), ch.clock, 0).pieces;
      assert SameMeaning(data, out, pieces);
    } else if MeaningKept(data, out) {
      var pieces :| SameMeaning(data, out, pieces);
      EmptyRecordLosesHeader(cfg, data, ch, pieces);
    }
  }

  lemma {:induction false} CutTerminates(cfg: Config, maxSplit: nat, payload: seq<byte>, clock: seq<nat>, made: nat)
    requires (cfg.lengthMin >= 1 && |clock| >= |payload|) || (maxSplit > made && |clock| >= maxSplit - made)
    ensures Cut(cfg, maxSplit, payload, clock, made).finished
    decreases |clock|
  {
    if payload != [] && !(maxSplit > 0 && made + 1 >= maxSplit) {
      var n := Min(RandBetween(cfg.lengthMin, cfg.lengthMax, clock[0]), |payload|);
      CutTerminates(cfg, maxSplit, payload[n..], clock[1..], made + 1);
    }
  }

  lemma {:induction false} CutSpins(cfg: Config, payload: seq<byte>, k: nat, made: nat)
    requires payload != [] && cfg.lengthMin == 0
    ensures !Cut(cfg, 0, payload, seq(k, i => 0), made).finished
    decreases k
  {
    if k > 0 {
      assert seq(k, i => 0)[1..] == seq(k - 1, i => 0);
      assert payload[0..] == payload;
      CutSpins(cfg, payload, k - 1, made + 1);
    }
  }

  /** The loop ends under every clock exactly when a length or a split limit forces it to. */
  lemma CutTerminatesIff(cfg: Config, maxSplit: nat, payload: seq<byte>)
    ensures (forall clock :: |clock| >= |payload| + maxSplit ==> Cut(cfg, maxSplit, payload, clock, 0).finished)
        <==> payload == [] || cfg.lengthMin >= 1 || maxSplit >= 1
  {
    if payload == [] || cfg.lengthMin >= 1 || maxSplit >= 1 {
      forall clock: seq<nat> | |clock| >= |payload| + maxSplit
        ensures Cut(cfg, maxSplit, payload, clock, 0).finished
      {
        if payload != [] { CutTerminates(cfg, maxSplit, payload, clock, 0); }
      }
    } else {
      CutSpins(cfg, payload, |payload|, 0);
    }
  }

  // ----- empty fragments -----

  /** The settings let a length of zero be drawn, with a further fragment still to come, and the loop end. */
  predicate CanBeEmpty(cfg: Config)
  {
    && cfg.lengthMin == 0
    && (cfg.maxSplitMin >= 2 || cfg.maxSplitMax >= 2 || (cfg.maxSplitMin == 0 && cfg.lengthMax >= 1))
  }

  lemma {:induction false} ZeroLengthsStall(cfg: Config, payload: seq<byte>, clock: seq<nat>, made: nat)
    requires payload != [] && cfg.lengthMin == 0 && cfg.lengthMax == 0
    ensures !Cut(cfg, 0, payload, clock, made).finished
    decreases |clock|
  {
    if clock != [] {
      assert payload[0..] == payload;
      ZeroLengthsStall(cfg, payload, clock[1..], made + 1);
    }
  }

  lemma {:induction false} OnesFinish(cfg: Config, payload: seq<byte>, made: nat)
    requires cfg.lengthMin == 0 && cfg.lengthMax >= 1
    ensures Cut(cfg, 0, payload, seq(|payload|, i => 1), made).finished
    decreases |payload|
  {
    if payload != [] {
      var ones := seq(|payload|, i => 1);
      assert ones[1..] == seq(|payload[1..]|, i => 1);
      DrawsOne(cfg.lengthMax);
      OnesFinish(cfg, payload[1..], made + 1);
    }
  }

  lemma DrawsOne(max: nat)
    requires max >= 1
    ensures RandBetween(0, max, 1) == 1
  {
    assert 1 % (max + 1) == 1;
  }

  /** A zero drawn first is an empty piece. */
  lemma ZeroFirst(cfg: Config, maxSplit: nat, payload: seq<byte>, clock: seq<nat>)
    requires payload != [] && cfg.lengthMin == 0 && maxSplit != 1 && clock != [] && clock[0] == 0
    ensures var c := Cut(cfg, maxSplit, payload, clock, 0);
      c.pieces != [] && c.pieces[0] == [] && c.finished == Cut(cfg, maxSplit, payload, clock[1..], 1).finished
  {
    assert payload[0..] == payload && payload[..0] == [];
  }

  /** The choices make an empty fragment, and the write ends. */
  ghost predicate MakesEmpty(cfg: Config, payload: seq<byte>, ch: Choices)
  {
    var c := Cut(cfg, MaxSplit(cfg, ch), payload, ch.clock, 0);
    c.finished && [] in c.pieces
  }

  lemma EmptyNeedsSettings(cfg: Config, payload: seq<byte>, ch: Choices)
    requires payload != [] && MakesEmpty(cfg, payload, ch)
    ensures CanBeEmpty(cfg)
  {
    var maxSplit := MaxSplit(cfg, ch);
    CutConserves(cfg, maxSplit, payload, ch.clock, 0);
    if maxSplit == 0 && cfg.lengthMax == 0 {
      ZeroLengthsStall(cfg, payload, ch.clock, 0);
    }
  }

  lemma LargestSplit(cfg: Config) returns (split: nat)
    requires cfg.maxSplitMin >= 2 || cfg.maxSplitMax >= 2
    ensures RandBetween(cfg.maxSplitMin, cfg.maxSplitMax, split) >= 2
  {
    split := 0;
    if cfg.maxSplitMin < cfg.maxSplitMax {
      split := cfg.maxSplitMax - cfg.maxSplitMin;
      assert split % (split + 1) == split;
    }
  }

  lemma SettingsAllowEmpty(cfg: Config, payload: seq<byte>) returns (ch: Choices)
    requires payload != [] && CanBeEmpty(cfg)
    ensures MakesEmpty(cfg, payload, ch)
  {
    if cfg.maxSplitMin >= 2 || cfg.maxSplitMax >= 2 {
      var split := LargestSplit(cfg);
      var max := RandBetween(cfg.maxSplitMin, cfg.maxSplitMax, split);
      ch := Choices(split, seq(max, i => 0));
      ZeroFirst(cfg, max, payload, ch.clock);
      CutTerminates(cfg, max, payload, ch.clock[1..], 1);
    } else {
      ch := Choices(0, [0] + seq(|payload|, i => 1));
      ZeroFirst(cfg, 0, payload, ch.clock);
      assert ch.clock[1..] == seq(|payload|, i => 1);
      OnesFinish(cfg, payload, 1);
    }
  }

  /**
    * A record can come out with empty fragments among its own, which section 5.1 of RFC 8446
    * forbids for handshake records, exactly under these settings.
    */
  lemma EmptyFragmentIff(cfg: Config, payload: seq<byte>)
    requires payload != []
    ensures (exists ch :: MakesEmpty(cfg, payload, ch)) <==> CanBeEmpty(cfg)
  {
    if CanBeEmpty(cfg) {
      var ch := SettingsAllowEmpty(cfg, payload);
    } else if ch :| MakesEmpty(cfg, payload, ch) {
      EmptyNeedsSettings(cfg, payload, ch);
    }
  }

  // ----- whole connections -----

  /** Successive writes through one `FragmentWriter`, stopping where a call never returns. */
  function WriteRun(cfg: Config, count: nat, datas: seq<seq<byte>>, chs: seq<Choices>): Written
    requires |datas| == |chs|
    decreases |datas|
  {
    if datas == [] then Written([], true)
    else
      var w := Write(cfg, count + 1, datas[0], chs[0]);
      if !w.finished then w
      else
        var r := WriteRun(cfg, count + 1, datas[1..], chs[1..]);
        Written(w.writes + r.writes, r.finished)
  }

  lemma SingleWrite(data: seq<byte>)
    ensures Concat([data]) == data
  {
    assert [data][1..] == [];
  }

  /** Data fragmentation never changes the byte stream, whatever the packet range and choices. */
  lemma {:induction false} DataModeIsTransparent(cfg: Config, count: nat, datas: seq<seq<byte>>, chs: seq<Choices>)
    requires |datas| == |chs| && !TlsMode(cfg) && WriteRun(cfg, count, datas, chs).finished
    ensures Concat(WriteRun(cfg, count, datas, chs).writes) == Concat(datas)
    decreases |datas|
  {
    if datas != [] {
      var w := Write(cfg, count + 1, datas[0], chs[0]);
      CutConserves(cfg, MaxSplit(cfg, chs[0]), datas[0], chs[0].clock, 0);
      SingleWrite(datas[0]);
      DataModeIsTransparent(cfg, count + 1, datas[1..], chs[1..]);
      ConcatAppend(w.writes, WriteRun(cfg, count + 1, datas[1..], chs[1..]).writes);
    }
  }
}
