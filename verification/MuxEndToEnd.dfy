/** From the frames a peer encodes to the bytes the consumer of one session reads. */
module MuxEndToEnd {
  import opened Bytes
  import opened MuxFrame
  import MuxLoop
  import MuxIo

  /** The frames among the events, in arrival order. */
  function FramesOf(evs: seq<MuxLoop.Event>): seq<Frame>
  {
    if evs == [] then []
    else (if evs[0].Arrive? then [evs[0].f] else []) + FramesOf(evs[1..])
  }

  /** The payloads of the Keep frames of `id`. */
  function KeepPayloads(fs: seq<Frame>, id: u16): seq<seq<byte>>
  {
    if fs == [] then []
    else
      (if fs[0].meta.id == id && fs[0].meta.status.Keep? && fs[0].data.Some? then [fs[0].data.value] else [])
      + KeepPayloads(fs[1..], id)
  }

  lemma ConcatPrefix<T>(a: seq<seq<T>>, b: seq<seq<T>>)
    requires a <= b
    ensures Concat(a) <= Concat(b)
  {
    ConcatAppend(a, b[|a|..]);
    assert a + b[|a|..] == b;
  }

  // ----- one run of the loop and of the consumer -----

  /** What can happen next: an event at this end, a read by the consumer, or the holder of taken channels dropping them. */
  datatype Step = Loop(ev: MuxLoop.Event) | Read(room: nat, locked: bool) | Drop

  datatype Joint = Joint(m: MuxLoop.Mux, io: MuxIo.History)

  /** Some session in the table holds the sending half of channel `c`. */
  ghost predicate Attached(m: MuxLoop.Mux, c: MuxLoop.Channel)
  {
    exists i :: i in m.table && m.table[i] == Some(c)
  }

  /** A delivery to `c` is a chunk in its queue. */
  function Feed(h: MuxIo.History, ds: seq<MuxLoop.Delivery>, c: MuxLoop.Channel): (h': MuxIo.History)
    requires MuxIo.WellFormed(h.s)
    ensures MuxIo.WellFormed(h'.s)
  {
    if ds != [] && ds[0].channel == c then MuxIo.Apply(h, MuxIo.Push(ds[0].data)) else h
  }

  /** A session that loses its channels drops the sender, unless `take_channels` handed it to the caller. */
  ghost function Advance(role: MuxLoop.Role, c: MuxLoop.Channel, j: Joint, step: Step): (j': Joint)
    requires MuxIo.WellFormed(j.io.s)
    ensures MuxIo.WellFormed(j'.io.s)
  {
    match step
    case Loop(ev) =>
      var m', io := MuxLoop.Step(role, j.m, ev), Feed(j.io, MuxLoop.Delivers(j.m, ev), c);
      Joint(m', if Attached(j.m, c) && !Attached(m', c) && !ev.Detach? then MuxIo.Apply(io, MuxIo.Disconnect) else io)
    case Read(room, locked) => Joint(j.m, MuxIo.Apply(j.io, MuxIo.Read(room, locked)))
    case Drop => if Attached(j.m, c) then j else Joint(j.m, MuxIo.Apply(j.io, MuxIo.Disconnect))
  }

  ghost function Runs(role: MuxLoop.Role, c: MuxLoop.Channel, j: Joint, steps: seq<Step>): (j': Joint)
    requires MuxIo.WellFormed(j.io.s)
    ensures MuxIo.WellFormed(j'.io.s)
    decreases |steps|
  {
    if steps == [] then j else Runs(role, c, Advance(role, c, j, steps[0]), steps[1..])
  }

  function EventsOf(steps: seq<Step>): seq<MuxLoop.Event>
  {
    if steps == [] then [] else (if steps[0].Loop? then [steps[0].ev] else []) + EventsOf(steps[1..])
  }

  /** The event takes the channel away from session `id`, or the session away. */
  predicate Gone(role: MuxLoop.Role, closed: bool, ev: MuxLoop.Event, id: u16)
  {
    match ev
    case Arrive(f) => f.meta.id == id && (f.meta.status.End? || (f.meta.status.New? && (role.Client? || !closed)))
    case Detach(i) => i == id
    case Open(i) => i == id && !closed
    case Remove(i) => i == id
    case _ => false
  }

  /** The Keep payloads of `id` up to the event that ends its attachment. */
  function Mine(role: MuxLoop.Role, closed: bool, evs: seq<MuxLoop.Event>, id: u16): seq<seq<byte>>
    decreases |evs|
  {
    if evs == [] || Gone(role, closed, evs[0], id) then []
    else MuxLoop.KeepDatum(evs[0], id) + Mine(role, closed || evs[0].Close?, evs[1..], id)
  }

  predicate Ended(role: MuxLoop.Role, closed: bool, evs: seq<MuxLoop.Event>, id: u16)
    decreases |evs|
  {
    evs != [] && (Gone(role, closed, evs[0], id) || Ended(role, closed || evs[0].Close?, evs[1..], id))
  }

  /** `c` is with session `id` and nowhere else, or has left the table. */
  ghost predicate Held(j: Joint, id: u16, c: MuxLoop.Channel, gone: bool)
  {
    if gone then !Attached(j.m, c)
    else
      && id in j.m.table && j.m.table[id] == Some(c) && j.io.s.connected
      && forall i :: i in j.m.table && j.m.table[i] == Some(c) ==> i == id
  }

  ghost predicate Good(j: Joint, id: u16, c: MuxLoop.Channel, gone: bool)
  {
    MuxIo.WellFormed(j.io.s) && MuxIo.Conserved(j.io) && Held(j, id, c, gone)
  }

  /** While attached, an event either ends the attachment or leaves it, and feeds the queue its Keep payload. */
  lemma EventWhileHeld(role: MuxLoop.Role, j: Joint, ev: MuxLoop.Event, id: u16, c: MuxLoop.Channel)
    requires Good(j, id, c, false) && !(ev.Attach? && ev.channel == c)
    ensures var gone := Gone(role, j.m.closed, ev, id);
      var j' := Advance(role, c, j, Loop(ev));
      && Held(j', id, c, gone) && j'.m.closed == (j.m.closed || ev.Close?)
      && j'.io.received == j.io.received + (if gone then [] else MuxLoop.KeepDatum(ev, id))
  {
    var m' := MuxLoop.Step(role, j.m, ev);
    if !Gone(role, j.m.closed, ev, id) {
      assert id in m'.table && m'.table[id] == Some(c);
    }
  }

  /** After that nothing reaches the channel any more. */
  lemma EventWhileGone(role: MuxLoop.Role, j: Joint, ev: MuxLoop.Event, id: u16, c: MuxLoop.Channel)
    requires Good(j, id, c, true) && !(ev.Attach? && ev.channel == c)
    ensures var j' := Advance(role, c, j, Loop(ev));
      Held(j', id, c, true) && j'.io == j.io
  {
    var m' := MuxLoop.Step(role, j.m, ev);
    forall i | i in m'.table ensures m'.table[i] != Some(c) {
      assert i in j.m.table ==> j.m.table[i] != Some(c);
    }
  }

  lemma AdvanceConserves(role: MuxLoop.Role, c: MuxLoop.Channel, j: Joint, step: Step)
    requires MuxIo.WellFormed(j.io.s) && MuxIo.Conserved(j.io)
    ensures MuxIo.Conserved(Advance(role, c, j, step).io)
  {
    match step
    case Loop(ev) =>
      var ds := MuxLoop.Delivers(j.m, ev);
      if ds != [] && ds[0].channel == c { MuxIo.ApplyConserves(j.io, MuxIo.Push(ds[0].data)); }
      MuxIo.ApplyConserves(Feed(j.io, ds, c), MuxIo.Disconnect);
    case Read(room, locked) => MuxIo.ApplyConserves(j.io, MuxIo.Read(room, locked));
    case Drop => MuxIo.ApplyConserves(j.io, MuxIo.Disconnect);
  }

  /** No step attaches the channel a second time. */
  predicate AttachedOnce(steps: seq<Step>, c: MuxLoop.Channel)
  {
    steps == [] || (!(steps[0].Loop? && steps[0].ev.Attach? && steps[0].ev.channel == c) && AttachedOnce(steps[1..], c))
  }

  lemma {:induction false} NothingAfterTheEnd(
      role: MuxLoop.Role, j: Joint, steps: seq<Step>, id: u16, c: MuxLoop.Channel)
    requires Good(j, id, c, true) && AttachedOnce(steps, c)
    ensures var j' := Runs(role, c, j, steps);
      MuxIo.Conserved(j'.io) && j'.io.received == j.io.received
    decreases |steps|
  {
    if steps != [] {
      AdvanceConserves(role, c, j, steps[0]);
      if steps[0].Loop? { EventWhileGone(role, j, steps[0].ev, id, c); }
      NothingAfterTheEnd(role, Advance(role, c, j, steps[0]), steps[1..], id, c);
    }
  }

  /** At every point of every run the channel has carried exactly `Mine`, and `eof` comes only after the end. */
  lemma {:induction false} ChannelCarriesMine(
      role: MuxLoop.Role, j: Joint, steps: seq<Step>, id: u16, c: MuxLoop.Channel)
    requires Good(j, id, c, false) && AttachedOnce(steps, c)
    ensures var j', evs := Runs(role, c, j, steps), EventsOf(steps);
      && MuxIo.Conserved(j'.io)
      && j'.io.received == j.io.received + Mine(role, j.m.closed, evs, id)
      && (j'.io.s.eof ==> Ended(role, j.m.closed, evs, id))
    decreases |steps|
  {
    if steps == [] {
      assert j.io.received + [] == j.io.received;
    } else {
      var j1, rest := Advance(role, c, j, steps[0]), EventsOf(steps[1..]);
      AdvanceConserves(role, c, j, steps[0]);
      if steps[0].Loop? {
        var ev := steps[0].ev;
        assert EventsOf(steps)[0] == ev && EventsOf(steps)[1..] == rest;
        EventWhileHeld(role, j, ev, id, c);
        if Gone(role, j.m.closed, ev, id) {
          NothingAfterTheEnd(role, j1, steps[1..], id, c);
        } else {
          ChannelCarriesMine(role, j1, steps[1..], id, c);
          Assoc(j.io.received, MuxLoop.KeepDatum(ev, id), Mine(role, j1.m.closed, rest, id));
        }
      } else {
        assert EventsOf(steps) == rest;
        assert Held(j1, id, c, false);
        ChannelCarriesMine(role, j1, steps[1..], id, c);
      }
    }
  }

  /** The consumer's side of the joint state right after `attach_channels` with a new channel. */
  ghost function Joined(role: MuxLoop.Role, m: MuxLoop.Mux, id: u16, c: MuxLoop.Channel): (j: Joint)
    requires id in m.table && m.table[id] == None && !Attached(m, c)
    ensures Good(j, id, c, false) && j.m.closed == m.closed && j.io.received == []
  {
    MuxIo.StartConserved();
    Joint(MuxLoop.Step(role, m, MuxLoop.Attach(id, c)), MuxIo.START)
  }

  /**
    * At every point of every run since the attachment, bytes read, unread tail and queue are together
    * the Keep payloads of the session so far; at `eof` the attachment has ended and all were read.
    */
  lemma ConsumerConserves(role: MuxLoop.Role, m: MuxLoop.Mux, id: u16, c: MuxLoop.Channel, steps: seq<Step>)
    requires id in m.table && m.table[id] == None && !Attached(m, c) && AttachedOnce(steps, c)
    ensures var h := Runs(role, c, Joined(role, m, id, c), steps).io;
      var mine := Concat(Mine(role, m.closed, EventsOf(steps), id));
      && h.read + h.s.readBuf[h.s.readPos..] + Concat(h.s.queue) == mine
      && (h.s.eof ==> h.read == mine && Ended(role, m.closed, EventsOf(steps), id))
  {
    var j := Joined(role, m, id, c);
    ChannelCarriesMine(role, j, steps, id, c);
    var h := Runs(role, c, j, steps).io;
    assert [] + Mine(role, m.closed, EventsOf(steps), id) == Mine(role, m.closed, EventsOf(steps), id);
    assert h.s.eof ==> h.read + [] + [] == h.read;
  }

  // ----- from the bytes of the connection -----

  lemma {:induction false} KeepPayloadsAppend(a: seq<Frame>, b: seq<Frame>, id: u16)
    ensures KeepPayloads(a + b, id) == KeepPayloads(a, id) + KeepPayloads(b, id)
  {
    if a == [] {
      assert a + b == b;
    } else {
      KeepPayloadsAppend(a[1..], b, id);
      assert (a + b)[0] == a[0] && (a + b)[1..] == a[1..] + b;
      var head := if a[0].meta.id == id && a[0].meta.status.Keep? && a[0].data.Some? then [a[0].data.value] else [];
      Assoc(head, KeepPayloads(a[1..], id), KeepPayloads(b, id));
    }
  }

  lemma FramesOfCons(evs: seq<MuxLoop.Event>)
    requires evs != []
    ensures evs[0].Arrive? ==> FramesOf(evs) != [] && FramesOf(evs)[0] == evs[0].f && FramesOf(evs)[1..] == FramesOf(evs[1..])
    ensures !evs[0].Arrive? ==> FramesOf(evs) == FramesOf(evs[1..])
  {
  }

  lemma {:induction false} MineIsPrefix(role: MuxLoop.Role, closed: bool, evs: seq<MuxLoop.Event>, id: u16)
    ensures Mine(role, closed, evs, id) <= KeepPayloads(FramesOf(evs), id)
    decreases |evs|
  {
    if evs != [] && !Gone(role, closed, evs[0], id) {
      FramesOfCons(evs);
      MineIsPrefix(role, closed || evs[0].Close?, evs[1..], id);
    }
  }

  /** The frames before the first End of `id`. */
  function UntilEnd(fs: seq<Frame>, id: u16): seq<Frame>
  {
    if fs == [] || (fs[0].meta.id == id && fs[0].meta.status.End?) then [] else [fs[0]] + UntilEnd(fs[1..], id)
  }

  predicate HasEnd(fs: seq<Frame>, id: u16)
  {
    fs != [] && ((fs[0].meta.id == id && fs[0].meta.status.End?) || HasEnd(fs[1..], id))
  }

  /** The event leaves the end of session `id` to an End frame of the peer. */
  predicate Calm(ev: MuxLoop.Event, id: u16)
  {
    match ev
    case Arrive(f) => f.meta.id == id ==> !f.meta.status.New?
    case Detach(i) => i != id
    case Open(i) => i != id
    case Remove(i) => i != id
    case _ => true
  }

  predicate AllCalm(evs: seq<MuxLoop.Event>, id: u16)
  {
    evs == [] || (Calm(evs[0], id) && AllCalm(evs[1..], id))
  }

  lemma {:induction false} CalmEndsByFrame(role: MuxLoop.Role, closed: bool, evs: seq<MuxLoop.Event>, id: u16)
    requires AllCalm(evs, id)
    ensures Mine(role, closed, evs, id) == KeepPayloads(UntilEnd(FramesOf(evs), id), id)
    ensures Ended(role, closed, evs, id) ==> HasEnd(FramesOf(evs), id)
    decreases |evs|
  {
    if evs != [] {
      FramesOfCons(evs);
      CalmEndsByFrame(role, closed || evs[0].Close?, evs[1..], id);
      if evs[0].Arrive? {
        KeepUntilEnd(FramesOf(evs), id);
      }
    }
  }

  lemma KeepUntilEnd(fs: seq<Frame>, id: u16)
    requires fs != []
    ensures KeepPayloads(UntilEnd(fs, id), id)
         == if fs[0].meta.id == id && fs[0].meta.status.End? then []
            else MuxLoop.KeepDatum(MuxLoop.Arrive(fs[0]), id) + KeepPayloads(UntilEnd(fs[1..], id), id)
  {
    var rest := UntilEnd(fs[1..], id);
    assert ([fs[0]] + rest)[0] == fs[0] && ([fs[0]] + rest)[1..] == rest;
  }

  lemma {:induction false} EndCutsTheRest(a: seq<Frame>, b: seq<Frame>, id: u16)
    requires HasEnd(a, id)
    ensures UntilEnd(a + b, id) == UntilEnd(a, id)
  {
    assert (a + b)[0] == a[0] && (a + b)[1..] == a[1..] + b;
    if !(a[0].meta.id == id && a[0].meta.status.End?) {
      EndCutsTheRest(a[1..], b, id);
    }
  }

  /**
    * A peer writes good frames of any sessions on one connection. This end has handled those of
    * `before`, then a new channel is attached to session `id`, and `steps` is any mix of handling
    * the frames that follow, of what other tasks do, and of reads. Then the bytes the consumer has
    * read are a prefix of the Keep payloads of `id` the peer wrote after the attachment; and at
    * `eof`, unless this end ended the session itself, they are all of them up to its End.
    */
  lemma ConsumerReadsOwnKeepData(
      lossy: Lossy, role: MuxLoop.Role, m: MuxLoop.Mux, fs: seq<Frame>,
      before: seq<MuxLoop.Event>, steps: seq<Step>, id: u16, c: MuxLoop.Channel)
    requires forall i :: 0 <= i < |fs| ==> Typed(fs[i].meta) && GoodFrame(lossy, fs[i])
    requires FramesOf(before) + FramesOf(EventsOf(steps)) <= ParseFrames(lossy, EncodeFrames(fs))
    requires var m1 := MuxLoop.Run(role, m, before); id in m1.table && m1.table[id] == None && !Attached(m1, c)
    requires AttachedOnce(steps, c)
    ensures var m1 := MuxLoop.Run(role, m, before);
      var h := Runs(role, c, Joined(role, m1, id, c), steps).io;
      && |FramesOf(before)| <= |fs|
      && var late := fs[|FramesOf(before)|..];
         && h.read <= Concat(KeepPayloads(late, id))
         && (h.s.eof && AllCalm(EventsOf(steps), id) ==> h.read == Concat(KeepPayloads(UntilEnd(late, id), id)))
  {
    FramesRoundTrip(lossy, fs);
    var m1, evs := MuxLoop.Run(role, m, before), EventsOf(steps);
    var n, handled := |FramesOf(before)|, FramesOf(evs);
    var late, mine := fs[n..], Mine(role, m1.closed, evs, id);
    var rest := late[|handled|..];
    HandledThenRest(FramesOf(before), handled, fs);
    ConsumerConserves(role, m1, id, c, steps);
    var h := Runs(role, c, Joined(role, m1, id, c), steps).io;
    Assoc(h.read, h.s.readBuf[h.s.readPos..], Concat(h.s.queue));
    MineIsPrefix(role, m1.closed, evs, id);
    KeepPayloadsAppend(handled, rest, id);
    ConcatPrefix(mine, KeepPayloads(late, id));
    if h.s.eof && AllCalm(evs, id) {
      CalmEndsByFrame(role, m1.closed, evs, id);
      EndCutsTheRest(handled, rest, id);
    }
  }

  lemma HandledThenRest<T>(a: seq<T>, b: seq<T>, all: seq<T>)
    requires a + b <= all
    ensures |a| + |b| <= |all| && all[|a|..] == b + all[|a|..][|b|..]
  {
    assert all[..|a| + |b|] == a + b;
    assert all[|a|..][..|b|] == all[|a|..|a| + |b|] == b;
  }
}
