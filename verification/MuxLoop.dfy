/**
  * The mux read loops of client and server: frames in arrival order against a table of sessions,
  * interleaved with what other tasks do to that table.
  */
module MuxLoop {
  import opened Bytes
  import opened MuxFrame

  datatype Role = Server | Client

  /** The identity of a data channel handed to a session. */
  type Channel = nat

  datatype Delivery = Delivery(id: u16, channel: Channel, data: seq<byte>)

  /** `table` holds the live sessions and, where attached, their channel. */
  datatype Mux = Mux(
    table: map<u16, Option<Channel>>, closed: bool,
    announced: seq<u16>, delivered: seq<Delivery>, ended: seq<Delivery>)

  datatype Event =
    | Arrive(f: Frame)                   // the read loop handles a frame
    | Attach(id: u16, channel: Channel)  // attach_channels on the session in the table
    | Detach(id: u16)                    // take_channels
    | Open(id: u16)                      // add or allocate puts a fresh session in the table
    | Remove(id: u16)
    | Close                              // the manager is closed, by idleness or by its owner

  /** What the event does to the table of sessions. */
  function NextTable(role: Role, m: Mux, ev: Event): map<u16, Option<Channel>>
  {
    match ev
    case Arrive(f) =>
      var id := f.meta.id;
      if f.meta.status.New? then
        if role.Client? then m.table - {id} else if m.closed then m.table else m.table[id := None]
      else if f.meta.status.End? then m.table - {id}
      else m.table
    case Attach(id, c) => if id in m.table && m.table[id] == None then m.table[id := Some(c)] else m.table
    case Detach(id) => if id in m.table then m.table[id := None] else m.table
    case Open(id) => if m.closed then m.table else m.table[id := None]
    case Remove(id) => m.table - {id}
    case Close => m.table
  }

  /** The channel a frame of `status` finds attached to its session, if any. */
  predicate Finds(m: Mux, ev: Event, status: Status)
  {
    ev.Arrive? && ev.f.meta.status == status && ev.f.meta.id in m.table && m.table[ev.f.meta.id].Some?
  }

  /** Data sent on: that of a Keep frame whose session has a channel. */
  function Delivers(m: Mux, ev: Event): seq<Delivery>
  {
    if Finds(m, ev, Keep) && ev.f.data.Some?
    then [Delivery(ev.f.meta.id, m.table[ev.f.meta.id].value, ev.f.data.value)] else []
  }

  /** The close signal of an End frame. */
  function Ends(m: Mux, ev: Event): seq<Delivery>
  {
    if Finds(m, ev, End) then [Delivery(ev.f.meta.id, m.table[ev.f.meta.id].value, [])] else []
  }

  function Announces(role: Role, ev: Event): seq<u16>
  {
    if role.Server? && ev.Arrive? && ev.f.meta.status.New? then [ev.f.meta.id] else []
  }

  function Step(role: Role, m: Mux, ev: Event): Mux
  {
    Mux(NextTable(role, m, ev), m.closed || ev.Close?, m.announced + Announces(role, ev),
        m.delivered + Delivers(m, ev), m.ended + Ends(m, ev))
  }

  function Run(role: Role, m: Mux, evs: seq<Event>): Mux
    decreases |evs|
  {
    if evs == [] then m else Run(role, Step(role, m, evs[0]), evs[1..])
  }

  function Arrivals(fs: seq<Frame>): (evs: seq<Event>)
    ensures |evs| == |fs|
  {
    seq(|fs|, i requires 0 <= i < |fs| => Arrive(fs[i]))
  }

  class Endpoint {
    const role: Role
    var table: map<u16, Option<Channel>>
    var closed: bool
    var announced: seq<u16>
    var delivered: seq<Delivery>
    var ended: seq<Delivery>

    constructor (role: Role)
      ensures this.role == role && State() == Mux(map[], false, [], [], [])
    {
      this.role := role;
      table, closed, announced, delivered, ended := map[], false, [], [], [];
    }

    function State(): Mux
      reads this
    {
      Mux(table, closed, announced, delivered, ended)
    }

    method HandleFrame(f: Frame)
      modifies this
      ensures State() == Step(role, old(State()), Arrive(f))
    {
      var id := f.meta.id;
      match f.meta.status
      case New =>
        if role.Client? {
          table := table - {id};
        } else {
          if !closed { table := table[id := None]; }
          announced := announced + [id];
        }
      case Keep =>
        if id in table && table[id].Some? && f.data.Some? {
          delivered := delivered + [Delivery(id, table[id].value, f.data.value)];
        }
      case End =>
        if id in table {
          var ch := table[id];
          table := table[id := None];
          if ch.Some? { ended := ended + [Delivery(id, ch.value, [])]; }
        }
        table := table - {id};
      case KeepAlive =>
    }

    method AttachChannels(id: u16, channel: Channel) returns (ok: bool)
      modifies this
      ensures State() == Step(role, old(State()), Attach(id, channel))
      ensures ok <==> id in old(table) && old(table)[id] == None
    {
      ok := id in table && table[id] == None;
      if ok { table := table[id := Some(channel)]; }
    }

    /** `read_loop` left to itself: it handles every frame up to the first read error. */
    method ReadLoop(lossy: Lossy, reader: ByteReader)
      modifies this, reader
      ensures State() == Run(role, old(State()), Arrivals(ParseFrames(lossy, old(reader.bytes))))
    {
      ghost var all := Arrivals(ParseFrames(lossy, reader.bytes));
      ghost var s0 := State();
      while true
        invariant Run(role, s0, all) == Run(role, State(), Arrivals(ParseFrames(lossy, reader.bytes)))
        decreases |reader.bytes|
      {
        ghost var fs := ParseFrames(lossy, reader.bytes);
        var f := ReadFrame(lossy, reader);
        if f == None { break; }
        ghost var rest := ParseFrames(lossy, reader.bytes);
        assert fs == [f.value] + rest;
        ArrivalsCons(f.value, rest);
        HandleFrame(f.value);
      }
    }
  }

  lemma ArrivalsCons(f: Frame, fs: seq<Frame>)
    ensures Arrivals([f] + fs) == [Arrive(f)] + Arrivals(fs)
    ensures Arrivals([f] + fs)[1..] == Arrivals(fs)
  {
  }

  // ----- one session as the others cannot see it -----

  predicate Concerns(ev: Event, id: u16)
  {
    match ev
    case Arrive(f) => f.meta.id == id
    case Attach(i, _) => i == id
    case Detach(i) => i == id
    case Open(i) => i == id
    case Remove(i) => i == id
    case Close => true
  }

  function Project(evs: seq<Event>, id: u16): seq<Event>
  {
    if evs == [] then []
    else (if Concerns(evs[0], id) then [evs[0]] else []) + Project(evs[1..], id)
  }

  function For(log: seq<Delivery>, id: u16): seq<Delivery>
  {
    if log == [] then [] else (if log[0].id == id then [log[0]] else []) + For(log[1..], id)
  }

  lemma {:induction false} ForAppend(a: seq<Delivery>, b: seq<Delivery>, id: u16)
    ensures For(a + b, id) == For(a, id) + For(b, id)
  {
    if a == [] {
      assert a + b == b;
    } else {
      ForAppend(a[1..], b, id);
      assert (a + b)[0] == a[0] && (a + b)[1..] == a[1..] + b;
      Assoc(if a[0].id == id then [a[0]] else [], For(a[1..], id), For(b, id));
    }
  }

  /** All that session `id` can observe. */
  datatype View = View(slot: Option<Option<Channel>>, closed: bool, delivered: seq<Delivery>, ended: seq<Delivery>)

  function ViewOf(m: Mux, id: u16): View
  {
    View(Slot(m.table, id), m.closed, For(m.delivered, id), For(m.ended, id))
  }

  function Own<T>(mine: bool, xs: seq<T>): seq<T> { if mine then xs else [] }

  lemma StepAppends(role: Role, m: Mux, ev: Event, id: u16)
    ensures var m' := Step(role, m, ev);
      && For(m'.delivered, id) == For(m.delivered, id) + Own(Concerns(ev, id), Delivers(m, ev))
      && For(m'.ended, id) == For(m.ended, id) + Own(Concerns(ev, id), Ends(m, ev))
  {
    ForAppend(m.delivered, Delivers(m, ev), id);
    ForAppend(m.ended, Ends(m, ev), id);
    ForShort(Delivers(m, ev), id);
    ForShort(Ends(m, ev), id);
  }

  lemma ForShort(log: seq<Delivery>, id: u16)
    requires |log| <= 1
    ensures For(log, id) == if log == [] || log[0].id == id then log else []
  {
  }

  function Slot(t: map<u16, Option<Channel>>, id: u16): Option<Option<Channel>>
  {
    if id in t then Some(t[id]) else None
  }

  lemma TableIsLocal(role: Role, m: Mux, m': Mux, ev: Event, id: u16)
    requires Slot(m.table, id) == Slot(m'.table, id) && m.closed == m'.closed
    ensures !Concerns(ev, id) ==> Slot(NextTable(role, m, ev), id) == Slot(m.table, id)
    ensures Concerns(ev, id) ==> Slot(NextTable(role, m, ev), id) == Slot(NextTable(role, m', ev), id)
  {
    assert id in m.table <==> id in m'.table;
  }

  lemma OthersDoNotShow(role: Role, m: Mux, ev: Event, id: u16)
    requires !Concerns(ev, id)
    ensures ViewOf(Step(role, m, ev), id) == ViewOf(m, id)
  {
    StepAppends(role, m, ev, id);
    TableIsLocal(role, m, m, ev, id);
  }

  lemma OwnStepsAgree(role: Role, m: Mux, m': Mux, ev: Event, id: u16)
    requires ViewOf(m, id) == ViewOf(m', id) && Concerns(ev, id)
    ensures ViewOf(Step(role, m, ev), id) == ViewOf(Step(role, m', ev), id)
  {
    StepAppends(role, m, ev, id);
    StepAppends(role, m', ev, id);
    TableIsLocal(role, m, m', ev, id);
    SendsAgree(m, m', ev, id);
  }

  lemma SendsAgree(m: Mux, m': Mux, ev: Event, id: u16)
    requires Slot(m.table, id) == Slot(m'.table, id) && m.closed == m'.closed && Concerns(ev, id)
    ensures Delivers(m, ev) == Delivers(m', ev) && Ends(m, ev) == Ends(m', ev)
  {
    assert id in m.table <==> id in m'.table;
  }

  /** No frame, attachment or removal of another id changes anything session `id` sees. */
  lemma {:induction false} SessionsAreIsolated(role: Role, m: Mux, m': Mux, evs: seq<Event>, id: u16)
    requires ViewOf(m, id) == ViewOf(m', id)
    ensures ViewOf(Run(role, m, evs), id) == ViewOf(Run(role, m', Project(evs, id)), id)
    decreases |evs|
  {
    if evs != [] {
      var m1, rest := Step(role, m, evs[0]), Project(evs[1..], id);
      if Concerns(evs[0], id) {
        OwnStepsAgree(role, m, m', evs[0], id);
        assert Project(evs, id)[0] == evs[0] && Project(evs, id)[1..] == rest;
        SessionsAreIsolated(role, m1, Step(role, m', evs[0]), evs[1..], id);
      } else {
        OthersDoNotShow(role, m, evs[0], id);
        assert Project(evs, id) == [] + rest == rest;
        SessionsAreIsolated(role, m1, m', evs[1..], id);
      }
    }
  }

  // ----- what an attached session receives -----

  /** The event leaves session `id` alive and attached as it is. */
  predicate Leaves(ev: Event, id: u16)
  {
    match ev
    case Arrive(f) => f.meta.id == id ==> f.meta.status.Keep? || f.meta.status.KeepAlive?
    case Attach(_, _) => true
    case Close => true
    case _ => !Concerns(ev, id)
  }

  /** The data of the Keep frames of `id`, in wire order. */
  function KeepData(evs: seq<Event>, id: u16): seq<seq<byte>>
  {
    if evs == [] then []
    else KeepDatum(evs[0], id) + KeepData(evs[1..], id)
  }

  function To(id: u16, c: Channel, chunks: seq<seq<byte>>): seq<Delivery>
  {
    seq(|chunks|, i requires 0 <= i < |chunks| => Delivery(id, c, chunks[i]))
  }

  function KeepDatum(ev: Event, id: u16): seq<seq<byte>>
  {
    if ev.Arrive? && ev.f.meta.id == id && ev.f.meta.status.Keep? && ev.f.data.Some? then [ev.f.data.value] else []
  }

  lemma AttachedStep(role: Role, m: Mux, ev: Event, id: u16, c: Channel)
    requires id in m.table && m.table[id] == Some(c) && Leaves(ev, id)
    ensures var m' := Step(role, m, ev);
      && id in m'.table && m'.table[id] == Some(c)
      && For(m'.delivered, id) == For(m.delivered, id) + To(id, c, KeepDatum(ev, id))
  {
    StepAppends(role, m, ev, id);
    assert Own(Concerns(ev, id), Delivers(m, ev)) == To(id, c, KeepDatum(ev, id));
  }

  lemma ToAppend(id: u16, c: Channel, a: seq<seq<byte>>, b: seq<seq<byte>>)
    ensures To(id, c, a + b) == To(id, c, a) + To(id, c, b)
  {
  }

  /** While attached, a session is delivered exactly its own Keep data, in order. */
  lemma {:induction false} AttachedReceivesKeepData(role: Role, m: Mux, evs: seq<Event>, id: u16, c: Channel)
    requires id in m.table && m.table[id] == Some(c)
    requires forall i :: 0 <= i < |evs| ==> Leaves(evs[i], id)
    ensures var m' := Run(role, m, evs);
      && id in m'.table && m'.table[id] == Some(c)
      && For(m'.delivered, id) == For(m.delivered, id) + To(id, c, KeepData(evs, id))
    decreases |evs|
  {
    if evs == [] {
      assert To(id, c, []) == [];
    } else {
      AttachedStep(role, m, evs[0], id, c);
      AttachedReceivesKeepData(role, Step(role, m, evs[0]), evs[1..], id, c);
      ToAppend(id, c, KeepDatum(evs[0], id), KeepData(evs[1..], id));
      Assoc(For(m.delivered, id), To(id, c, KeepDatum(evs[0], id)), To(id, c, KeepData(evs[1..], id)));
    }
  }

  /** While nobody is attached, nothing is delivered, however many Keep frames arrive. */
  lemma {:induction false} UnattachedReceivesNothing(role: Role, m: Mux, evs: seq<Event>, id: u16)
    requires id in m.table ==> m.table[id] == None
    requires forall i :: 0 <= i < |evs| ==> evs[i].Attach? ==> evs[i].id != id
    ensures var m' := Run(role, m, evs);
      && (id in m'.table ==> m'.table[id] == None)
      && For(m'.delivered, id) == For(m.delivered, id)
    decreases |evs|
  {
    if evs != [] {
      StepAppends(role, m, evs[0], id);
      UnattachedReceivesNothing(role, Step(role, m, evs[0]), evs[1..], id);
    }
  }
}
