/** `SessionIo`: the byte stream a consumer reads out of a mux session's channel. */
module MuxIo {
  import opened Bytes

  /** The channel's queue and sender side, then the reader's own buffer. */
  datatype Io = Io(queue: seq<seq<byte>>, connected: bool, readBuf: seq<byte>, readPos: nat, eof: bool)

  datatype Poll = Pending | Ready(bytes: seq<byte>)

  predicate WellFormed(s: Io) { s.readPos <= |s.readBuf| }

  /** `poll_read` with a destination of `room` bytes; `locked` is a failed `try_lock`. */
  function PollRead(s: Io, room: nat, locked: bool): (r: (Io, Poll))
    requires WellFormed(s)
    ensures WellFormed(r.0)
  {
    if s.readPos < |s.readBuf| then
      var len := Min(|s.readBuf| - s.readPos, room);
      var s' := if s.readPos + len >= |s.readBuf| then s.(readBuf := [], readPos := 0)
                else s.(readPos := s.readPos + len);
      (s', Ready(s.readBuf[s.readPos..s.readPos + len]))
    else if s.eof then (s, Ready([]))
    else if locked then (s, Pending)
    else if s.queue != [] then
      var data := s.queue[0];
      var len := Min(|data|, room);
      var s' := s.(queue := s.queue[1..]);
      (if len < |data| then s'.(readBuf := data, readPos := len) else s', Ready(data[..len]))
    else if s.connected then (s, Pending)
    else (s.(eof := true), Ready([]))
  }

  class Receiver {
    var queue: seq<seq<byte>>
    var connected: bool
  }

  class SessionIo {
    const dataRx: Receiver
    var readBuf: seq<byte>
    var readPos: nat
    var eof: bool

    constructor (dataRx: Receiver)
      ensures this.dataRx == dataRx && readBuf == [] && readPos == 0 && !eof
    {
      this.dataRx, readBuf, readPos, eof := dataRx, [], 0, false;
    }

    function State(): Io
      reads this, dataRx
    {
      Io(dataRx.queue, dataRx.connected, readBuf, readPos, eof)
    }

    method PollReadInto(room: nat, locked: bool) returns (p: Poll)
      requires WellFormed(State())
      modifies this, dataRx
      ensures WellFormed(State()) && (State(), p) == PollRead(old(State()), room, locked)
    {
      if readPos < |readBuf| {
        var len := Min(|readBuf| - readPos, room);
        p := Ready(readBuf[readPos..readPos + len]);
        readPos := readPos + len;
        if readPos >= |readBuf| {
          readBuf, readPos := [], 0;
        }
        return;
      }
      if eof { return Ready([]); }
      if locked { return Pending; }
      if dataRx.queue != [] {
        var data := dataRx.queue[0];
        dataRx.queue := dataRx.queue[1..];
        var len := Min(|data|, room);
        p := Ready(data[..len]);
        if len < |data| {
          readBuf, readPos := data, len;
        }
        return;
      }
      if dataRx.connected { return Pending; }
      eof := true;
      return Ready([]);
    }
  }

  datatype Op = Push(chunk: seq<byte>) | Disconnect | Read(room: nat, locked: bool)

  /** `received` lists the chunks the channel accepted, `read` the bytes handed out. */
  datatype History = History(s: Io, received: seq<seq<byte>>, read: seq<byte>)

  function Apply(h: History, op: Op): (h': History)
    requires WellFormed(h.s)
    ensures WellFormed(h'.s)
  {
    match op
    case Push(chunk) =>
      if h.s.connected then h.(s := h.s.(queue := h.s.queue + [chunk]), received := h.received + [chunk]) else h
    case Disconnect => h.(s := h.s.(connected := false))
    case Read(room, locked) =>
      var (s', p) := PollRead(h.s, room, locked);
      h.(s := s', read := h.read + if p.Ready? then p.bytes else [])
  }

  function Run(h: History, ops: seq<Op>): (h': History)
    requires WellFormed(h.s)
    ensures WellFormed(h'.s)
    decreases |ops|
  {
    if ops == [] then h else Run(Apply(h, ops[0]), ops[1..])
  }

  const START: History := History(Io([], true, [], 0, false), [], [])

  /** Read bytes, unread tail and queue are together everything received. */
  ghost predicate Conserved(h: History)
    requires WellFormed(h.s)
  {
    && h.read + h.s.readBuf[h.s.readPos..] + Concat(h.s.queue) == Concat(h.received)
    && (h.s.eof ==> !h.s.connected && h.s.queue == [] && h.s.readPos == |h.s.readBuf|)
  }

  lemma ReadConserves(s: Io, room: nat, locked: bool)
    requires WellFormed(s)
    ensures var (s', p) := PollRead(s, room, locked);
      (if p.Ready? then p.bytes else []) + s'.readBuf[s'.readPos..] + Concat(s'.queue)
        == s.readBuf[s.readPos..] + Concat(s.queue)
  {
    var (s', p) := PollRead(s, room, locked);
    if s.readPos < |s.readBuf| {
      var end := s.readPos + Min(|s.readBuf| - s.readPos, room);
      SliceJoin(s.readBuf, s.readPos, end);
      assert s.readBuf[|s.readBuf|..] == [];
    } else {
      assert s.readBuf[s.readPos..] == [];
      if !s.eof && !locked && s.queue != [] {
        TakeDrop(s.queue[0], Min(|s.queue[0]|, room));
        assert s.queue[0][|s.queue[0]|..] == [];
      }
    }
  }

  lemma ApplyConserves(h: History, op: Op)
    requires WellFormed(h.s) && Conserved(h)
    ensures Conserved(Apply(h, op))
  {
    match op
    case Push(chunk) =>
      ConcatSnoc(h.s.queue, chunk);
      ConcatSnoc(h.received, chunk);
      Assoc(h.read + h.s.readBuf[h.s.readPos..], Concat(h.s.queue), chunk);
    case Disconnect =>
    case Read(room, locked) =>
      ReadConserves(h.s, room, locked);
      var (s', p) := PollRead(h.s, room, locked);
      var y, tail, queue := if p.Ready? then p.bytes else [], s'.readBuf[s'.readPos..], Concat(s'.queue);
      Assoc(h.read, h.s.readBuf[h.s.readPos..], Concat(h.s.queue));
      Assoc(h.read, y + tail, queue);
      Assoc(h.read, y, tail);
  }

  /** Over every run: nothing is lost, repeated or reordered, and `eof` means everything was read. */
  lemma {:induction false} RunConserves(h: History, ops: seq<Op>)
    requires WellFormed(h.s) && Conserved(h)
    ensures Conserved(Run(h, ops))
    decreases |ops|
  {
    if ops != [] {
      ApplyConserves(h, ops[0]);
      RunConserves(Apply(h, ops[0]), ops[1..]);
    }
  }

  lemma StartConserved()
    ensures Conserved(START)
  {
  }

  /** Hence what was read is a prefix of what was received, and all of it at end of file. */
  lemma ReadIsPrefix(ops: seq<Op>)
    ensures var h := Run(START, ops);
      h.read <= Concat(h.received) && (h.s.eof ==> h.read == Concat(h.received))
  {
    StartConserved();
    RunConserves(START, ops);
    var h := Run(START, ops);
    Assoc(h.read, h.s.readBuf[h.s.readPos..], Concat(h.s.queue));
  }

  function Backlog(s: Io): nat
    requires WellFormed(s)
  {
    |s.readBuf| - s.readPos + |Concat(s.queue)| + |s.queue|
  }

  /** The reads all find the lock free and have room. */
  predicate OnlyReads(ops: seq<Op>)
  {
    forall i :: 0 <= i < |ops| ==> ops[i].Read? && ops[i].room >= 1 && !ops[i].locked
  }

  /** Once the sender is gone, reads reach `eof` after at most one for every chunk and byte left, and one more. */
  lemma {:induction false} ReadsReachEof(h: History, ops: seq<Op>)
    requires WellFormed(h.s) && !h.s.connected && OnlyReads(ops)
    requires h.s.eof ==> h.s.readPos == |h.s.readBuf|
    requires |ops| > Backlog(h.s)
    ensures Run(h, ops).s.eof
    decreases |ops|
  {
    if h.s.eof {
      EofStays(h, ops);
    } else {
      var h1 := Apply(h, ops[0]);
      if h1.s.eof {
        EofStays(h1, ops[1..]);
      } else {
        ReadsReachEof(h1, ops[1..]);
      }
    }
  }

  lemma {:induction false} EofStays(h: History, ops: seq<Op>)
    requires WellFormed(h.s) && h.s.eof
    ensures Run(h, ops).s.eof
    decreases |ops|
  {
    if ops != [] {
      EofStays(Apply(h, ops[0]), ops[1..]);
    }
  }

  /**
    * A read of no bytes, which callers take for end of file, comes before `eof` exactly when the
    * destination was full or the chunk at hand was an empty one, whether or not the sender is gone.
    */
  lemma EmptyReadBeforeEofIff(s: Io, room: nat, locked: bool)
    requires WellFormed(s) && !s.eof
    ensures PollRead(s, room, locked).1 == Ready([]) && !PollRead(s, room, locked).0.eof
        <==> if s.readPos < |s.readBuf| then room == 0
             else !locked && s.queue != [] && (room == 0 || s.queue[0] == [])
  {
    if s.readPos < |s.readBuf| {
      var len := Min(|s.readBuf| - s.readPos, room);
      assert |s.readBuf[s.readPos..s.readPos + len]| == len;
    } else if s.queue != [] {
      assert |s.queue[0][..Min(|s.queue[0]|, room)]| == Min(|s.queue[0]|, room);
    }
  }
}
