/**
  * `SessionManager` under concurrent use. Sections that hold the lock are single steps; the read
  * of `closed` before the lock, and the idle monitor's two samples, are steps of their own.
  */
module MuxSessions {
  import opened Bytes

  datatype Session = Session(id: u16, closed: bool)

  datatype Strategy = Strategy(maxConcurrency: u32, maxConnection: u32)

  datatype Manager = Manager(sessions: map<u16, Session>, nextId: u16, closed: bool)

  const NEW_MANAGER := Manager(map[], 0, false)

  predicate Full(st: Strategy, m: Manager)
  {
    || (st.maxConcurrency > 0 && |m.sessions| >= st.maxConcurrency)
    || (st.maxConnection > 0 && m.nextId >= st.maxConnection)
  }

  function NextId(m: Manager): u16 { if m.nextId == 0xFFFF then 0 else m.nextId + 1 }

  /** `allocate` once it holds the lock. */
  function LockedAllocate(st: Strategy, m: Manager): Manager
  {
    if Full(st, m) then m
    else
      var id := NextId(m);
      m.(nextId := id, sessions := m.sessions[id := Session(id, false)])
  }

  /** `close_if_no_session_and_idle` once it holds the lock. */
  function LockedIdle(m: Manager, size: nat, count: u16): Manager
  {
    if m.sessions != map[] || size != 0 || count != m.nextId then m else m.(closed := true)
  }

  function LockedClose(m: Manager): Manager
  {
    m.(sessions := map id | id in m.sessions :: m.sessions[id].(closed := true))
  }

  class SessionManager {
    var sessions: map<u16, Session>
    var nextId: u16
    var closed: bool

    function State(): Manager
      reads this
    {
      Manager(sessions, nextId, closed)
    }

    constructor ()
      ensures State() == NEW_MANAGER
    {
      sessions, nextId, closed := map[], 0, false;
    }

    method Allocate(st: Strategy) returns (s: Option<Session>)
      modifies this
      ensures State() == if old(closed) then old(State()) else LockedAllocate(st, old(State()))
      ensures s == if old(closed) || Full(st, old(State())) then None
                   else Some(Session(NextId(old(State())), false))
    {
      if closed { return None; }
      if (st.maxConcurrency > 0 && |sessions| >= st.maxConcurrency)
         || (st.maxConnection > 0 && nextId >= st.maxConnection) {
        return None;
      }
      nextId := if nextId == 0xFFFF then 0 else nextId + 1;
      var session := Session(nextId, false);
      sessions := sessions[nextId := session];
      return Some(session);
    }

    method Remove(id: u16)
      modifies this
      ensures State() == old(State()).(sessions := old(sessions) - {id})
    {
      sessions := sessions - {id};
    }

    method CloseIfIdle(checkSize: nat, checkCount: u16) returns (done: bool)
      modifies this
      ensures State() == if old(closed) then old(State()) else LockedIdle(old(State()), checkSize, checkCount)
      ensures done == closed
    {
      if closed { return true; }
      if sessions != map[] { return false; }
      if checkSize != 0 || checkCount != nextId { return false; }
      closed := true;
      return true;
    }

    method CloseAll()
      modifies this
      ensures State() == if old(closed) then old(State()) else LockedClose(old(State())).(closed := true)
    {
      if closed { return; }
      closed := true;
      sessions := map id | id in sessions :: sessions[id].(closed := true);
    }
  }

  // ----- every interleaving -----

  /** Where a task stands between its steps; `at` records the allocations made by sampling time. */
  datatype Task =
    | Allocating                                    // read `closed` as false, waits for the lock
    | SizeRead(size: nat)
    | Sampled(size: nat, count: u16, at: nat)
    | IdleArmed(size: nat, count: u16, at: nat)     // read `closed` as false, waits for the lock
    | Closing                                       // set `closed`, waits for the lock
    | Idle

  /** `issued` lists every id handed out, in order. */
  datatype World = World(m: Manager, tasks: map<nat, Task>, issued: seq<u16>)

  datatype Action =
    | BeginAllocate(t: nat) | LockAllocate(t: nat)
    | ReadSize(t: nat) | ReadCount(t: nat) | BeginIdle(t: nat) | LockIdle(t: nat)
    | BeginClose(t: nat) | LockClose(t: nat)
    | RemoveId(id: u16)

  function TaskOf(w: World, t: nat): Task { if t in w.tasks then w.tasks[t] else Idle }

  function Set(w: World, t: nat, k: Task): World { w.(tasks := w.tasks[t := k]) }

  /** One step; an action its task is not ready for does nothing. */
  function Act(st: Strategy, w: World, a: Action): World
  {
    match a
    case BeginAllocate(t) => if TaskOf(w, t).Idle? && !w.m.closed then Set(w, t, Allocating) else w
    case LockAllocate(t) =>
      if !TaskOf(w, t).Allocating? then w
      else
        var w' := Set(w, t, Idle).(m := LockedAllocate(st, w.m));
        if Full(st, w.m) then w' else w'.(issued := w.issued + [NextId(w.m)])
    case ReadSize(t) => if TaskOf(w, t).Idle? then Set(w, t, SizeRead(|w.m.sessions|)) else w
    case ReadCount(t) =>
      if TaskOf(w, t).SizeRead? then Set(w, t, Sampled(TaskOf(w, t).size, w.m.nextId, |w.issued|)) else w
    case BeginIdle(t) =>
      var k := TaskOf(w, t);
      if k.Sampled? then Set(w, t, if w.m.closed then Idle else IdleArmed(k.size, k.count, k.at)) else w
    case LockIdle(t) =>
      var k := TaskOf(w, t);
      if k.IdleArmed? then Set(w, t, Idle).(m := LockedIdle(w.m, k.size, k.count)) else w
    case BeginClose(t) =>
      if TaskOf(w, t).Idle? && !w.m.closed then Set(w, t, Closing).(m := w.m.(closed := true)) else w
    case LockClose(t) => if TaskOf(w, t).Closing? then Set(w, t, Idle).(m := LockedClose(w.m)) else w
    case RemoveId(id) => w.(m := w.m.(sessions := w.m.sessions - {id}))
  }

  function Runs(st: Strategy, w: World, acts: seq<Action>): World
    decreases |acts|
  {
    if acts == [] then w else Runs(st, Act(st, w, acts[0]), acts[1..])
  }

  const START: World := World(NEW_MANAGER, map[], [])

  /** The k-th id handed out, counting from zero. */
  function IdAt(k: nat): u16 { (k + 1) % 0x1_0000 }

  lemma IdsDistinct(i: nat, j: nat)
    requires i < j < i + 0x1_0000
    ensures IdAt(i) != IdAt(j)
  {
  }

  /** Entries are keyed by their own, issued, id; the limits hold; ids are issued in counter order. */
  ghost predicate TableInv(st: Strategy, m: Manager, issued: seq<u16>)
  {
    && (forall id :: id in m.sessions ==> m.sessions[id].id == id && id in issued)
    && (st.maxConcurrency > 0 ==> |m.sessions| <= st.maxConcurrency)
    && m.nextId == |issued| % 0x1_0000
    && (forall k :: 0 <= k < |issued| ==> issued[k] == IdAt(k))
    && (1 <= st.maxConnection < 0x1_0000 ==> |issued| <= st.maxConnection)
  }

  /** The idle monitor's sample is of some earlier moment. */
  predicate SampleFits(k: Task, n: nat)
  {
    k.Sampled? || k.IdleArmed? ==> k.at <= n && k.count == k.at % 0x1_0000
  }

  ghost predicate Inv(st: Strategy, w: World)
  {
    && TableInv(st, w.m, w.issued)
    && SamplesFit(w)
  }

  lemma RemoveShrinks(m: map<u16, Session>, id: u16)
    ensures |m - {id}| <= |m|
  {
    assert (m - {id}).Keys == m.Keys - {id};
    if id in m { assert m.Keys == (m - {id}).Keys + {id}; } else { assert (m - {id}) == m; }
  }

  lemma InsertGrows(m: map<u16, Session>, id: u16, s: Session)
    ensures |m[id := s]| <= |m| + 1
  {
    assert m[id := s].Keys == m.Keys + {id};
    if id in m { assert m.Keys + {id} == m.Keys; }
  }

  lemma NextIdIsIdAt(m: Manager, n: nat)
    requires m.nextId == n % 0x1_0000
    ensures NextId(m) == IdAt(n)
  {
  }

  lemma AllocateKeepsTable(st: Strategy, m: Manager, issued: seq<u16>)
    requires TableInv(st, m, issued) && !Full(st, m)
    ensures TableInv(st, LockedAllocate(st, m), issued + [NextId(m)])
  {
    var id, m' := NextId(m), LockedAllocate(st, m);
    InsertGrows(m.sessions, id, Session(id, false));
    NextIdIsIdAt(m, |issued|);
    forall i | i in m'.sessions
      ensures m'.sessions[i].id == i && i in issued + [id]
    {
      assert i == id || i in issued;
      assert (issued + [id])[|issued|] == id;
    }
  }

  lemma ActKeepsTable(st: Strategy, w: World, a: Action)
    requires TableInv(st, w.m, w.issued)
    ensures var w' := Act(st, w, a); TableInv(st, w'.m, w'.issued) && |w.issued| <= |w'.issued|
  {
    match a
    case LockAllocate(t) => if !Full(st, w.m) { AllocateKeepsTable(st, w.m, w.issued); }
    case RemoveId(id) => RemoveShrinks(w.m.sessions, id);
    case LockClose(t) => assert LockedClose(w.m).sessions.Keys == w.m.sessions.Keys;
    case _ =>
  }

  lemma ActKeepsInv(st: Strategy, w: World, a: Action)
    requires Inv(st, w)
    ensures Inv(st, Act(st, w, a))
  {
    ActKeepsTable(st, w, a);
    ActKeepsSamples(st, w, a);
  }

  ghost predicate SamplesFit(w: World)
  {
    forall t :: t in w.tasks ==> SampleFits(w.tasks[t], |w.issued|)
  }

  lemma ActKeepsSamples(st: Strategy, w: World, a: Action)
    requires SamplesFit(w) && w.m.nextId == |w.issued| % 0x1_0000
    ensures SamplesFit(Act(st, w, a))
  {
    var w' := Act(st, w, a);
    forall t | t in w'.tasks
      ensures SampleFits(w'.tasks[t], |w'.issued|)
    {
      if t in w.tasks { assert SampleFits(w.tasks[t], |w.issued|); }
    }
  }

  /** The invariant holds after every run, whatever the interleaving. */
  lemma {:induction false} InvAlways(st: Strategy, w: World, acts: seq<Action>)
    requires Inv(st, w)
    ensures Inv(st, Runs(st, w, acts))
    decreases |acts|
  {
    if acts != [] {
      ActKeepsInv(st, w, acts[0]);
      InvAlways(st, Act(st, w, acts[0]), acts[1..]);
    }
  }

  /** What a caller gets from it: keyed entries, both limits, and ids that count up from 1. */
  lemma TableGuarantees(st: Strategy, acts: seq<Action>)
    ensures var w := Runs(st, START, acts);
      && (forall id :: id in w.m.sessions ==> w.m.sessions[id].id == id)
      && (st.maxConcurrency > 0 ==> |w.m.sessions| <= st.maxConcurrency)
      && (1 <= st.maxConnection < 0x1_0000 ==> |w.issued| <= st.maxConnection)
      && (forall i, j :: 0 <= i < j < |w.issued| && j < i + 0x1_0000 ==> w.issued[i] != w.issued[j])
  {
    InvAlways(st, START, acts);
    forall i, j | 0 <= i < j < |Runs(st, START, acts).issued| && j < i + 0x1_0000
      ensures Runs(st, START, acts).issued[i] != Runs(st, START, acts).issued[j]
    {
      IdsDistinct(i, j);
    }
  }

  /** None of the first 65536 allocations replaces a live session. */
  lemma EarlyAllocationIsFresh(st: Strategy, acts: seq<Action>, t: nat)
    ensures var w := Runs(st, START, acts);
      |w.issued| < 0x1_0000 && Act(st, w, LockAllocate(t)).issued != w.issued ==>
        NextId(w.m) !in w.m.sessions
  {
    InvAlways(st, START, acts);
    var w := Runs(st, START, acts);
    NextIdIsIdAt(w.m, |w.issued|);
    if |w.issued| < 0x1_0000 && NextId(w.m) in w.m.sessions {
      var k :| 0 <= k < |w.issued| && w.issued[k] == NextId(w.m);
      IdsDistinct(k, |w.issued|);
    }
  }

  lemma {:induction false} RunsSnoc(st: Strategy, w: World, acts: seq<Action>, a: Action)
    ensures Runs(st, w, acts + [a]) == Act(st, Runs(st, w, acts), a)
    decreases |acts|
  {
    if acts == [] {
      assert acts + [a] == [a] && [a][1..] == [];
    } else {
      assert (acts + [a])[0] == acts[0] && (acts + [a])[1..] == acts[1..] + [a];
      RunsSnoc(st, Act(st, w, acts[0]), acts[1..], a);
    }
  }

  /** A run of n allocations that removes every session again except the first. */
  function Churn(n: nat): seq<Action>
    requires n >= 1
  {
    if n == 1 then [BeginAllocate(0)] + [LockAllocate(0)]
    else Churn(n - 1) + [BeginAllocate(0)] + [LockAllocate(0)] + [RemoveId(n % 0x1_0000)]
  }

  /** One more turn of the churn, as steps of the world before it. */
  lemma ChurnSteps(st: Strategy, n: nat)
    requires n >= 2
    ensures Runs(st, START, Churn(n))
         == Act(st, Act(st, Act(st, Runs(st, START, Churn(n - 1)), BeginAllocate(0)), LockAllocate(0)),
                RemoveId(n % 0x1_0000))
  {
    var c := Churn(n - 1);
    RunsSnoc(st, START, c, BeginAllocate(0));
    RunsSnoc(st, START, c + [BeginAllocate(0)], LockAllocate(0));
    RunsSnoc(st, START, c + [BeginAllocate(0)] + [LockAllocate(0)], RemoveId(n % 0x1_0000));
  }

  /** After n allocations only session 1 is left. */
  ghost predicate Churned(w: World, n: nat)
  {
    w.m == Manager(map[1 := Session(1, false)], n % 0x1_0000, false) && |w.issued| == n && TaskOf(w, 0).Idle?
  }

  /** Settings that keep the table to one session, or the ids from coming round. */
  predicate Guarded(st: Strategy)
  {
    st.maxConcurrency == 1 || 1 <= st.maxConnection < 0x1_0000
  }

  lemma ChurnTurn(st: Strategy, w: World, n: nat)
    requires !Guarded(st) && 2 <= n <= 0x1_0000 && Churned(w, n - 1)
    ensures Churned(Act(st, Act(st, Act(st, w, BeginAllocate(0)), LockAllocate(0)), RemoveId(n % 0x1_0000)), n)
  {
    var id: u16 := n % 0x1_0000;
    ChurnAllocates(st, w, n, id);
    var w2 := Act(st, Act(st, w, BeginAllocate(0)), LockAllocate(0));
    assert w2.m.sessions - {id} == w.m.sessions;
  }

  lemma ChurnAllocates(st: Strategy, w: World, n: nat, id: u16)
    requires !Guarded(st) && 2 <= n <= 0x1_0000 && Churned(w, n - 1) && id == n % 0x1_0000
    ensures id != 1
    ensures var w2 := Act(st, Act(st, w, BeginAllocate(0)), LockAllocate(0));
      && w2.m == Manager(w.m.sessions[id := Session(id, false)], id, false)
      && |w2.issued| == n && TaskOf(w2, 0).Idle?
  {
    var w1 := Act(st, w, BeginAllocate(0));
    assert w1.m == w.m && TaskOf(w1, 0).Allocating?;
    NextIdIsIdAt(w.m, n - 1);
    OneEntry(w.m.sessions);
    assert !Full(st, w.m);
  }

  lemma OneEntry(m: map<u16, Session>)
    requires m == map[1 := Session(1, false)]
    ensures |m| == 1
  {
    assert m.Keys == {1};
  }

  lemma ChurnStart(st: Strategy)
    requires !Guarded(st)
    ensures Churned(Runs(st, START, Churn(1)), 1)
  {
    RunsSnoc(st, START, [BeginAllocate(0)], LockAllocate(0));
    RunsSnoc(st, START, [], BeginAllocate(0));
    assert [] + [BeginAllocate(0)] == [BeginAllocate(0)];
    assert Runs(st, START, []) == START;
  }

  lemma {:induction false} ChurnState(st: Strategy, n: nat)
    requires !Guarded(st) && 1 <= n <= 0x1_0000
    ensures Churned(Runs(st, START, Churn(n)), n)
  {
    if n == 1 {
      ChurnStart(st);
    } else {
      ChurnState(st, n - 1);
      ChurnTurn(st, Runs(st, START, Churn(n - 1)), n);
      ChurnSteps(st, n);
    }
  }

  /** After this run, task t's allocation goes through and takes the place of a live session. */
  ghost predicate Replaces(st: Strategy, acts: seq<Action>, t: nat)
  {
    var w := Runs(st, START, acts);
    Act(st, w, LockAllocate(t)).issued != w.issued && NextId(w.m) in w.m.sessions
  }

  /** Without a guard, the allocation after the first 65536 can replace a live session. */
  lemma LateAllocationReplaces(st: Strategy, n: nat)
    requires !Guarded(st) && n == 0x1_0000
    ensures Replaces(st, Churn(n) + [BeginAllocate(0)], 0)
  {
    ChurnState(st, n);
    RunsSnoc(st, START, Churn(n), BeginAllocate(0));
    var w := Act(st, Runs(st, START, Churn(n)), BeginAllocate(0));
    OneEntry(w.m.sessions);
    IssuesIff(st, w, LockAllocate(0));
  }

  lemma GuardedNeverReplaces(st: Strategy, acts: seq<Action>, t: nat)
    requires Guarded(st)
    ensures !Replaces(st, acts, t)
  {
    var w := Runs(st, START, acts);
    InvAlways(st, START, acts);
    EarlyAllocationIsFresh(st, acts, t);
    if st.maxConcurrency == 1 && !Full(st, w.m) {
      assert w.m.sessions == map[];
    }
  }

  /** Some run lets an allocation replace a live session exactly when the settings do not guard against it. */
  lemma CanReplaceIff(st: Strategy)
    ensures (exists acts, t :: Replaces(st, acts, t)) <==> !Guarded(st)
  {
    if Guarded(st) {
      forall acts, t ensures !Replaces(st, acts, t) {
        GuardedNeverReplaces(st, acts, t);
      }
    } else {
      var n := 0x1_0000;
      LateAllocationReplaces(st, n);
    }
  }

  /**
    * When the idle monitor closes the manager the table is empty and the number of sessions
    * allocated since its sample is a multiple of 65536: none, short of a full turn of the counter.
    */
  lemma IdleCloseOnlyWhenQuiet(st: Strategy, acts: seq<Action>, t: nat)
    ensures var w := Runs(st, START, acts);
      !w.m.closed && Act(st, w, LockIdle(t)).m.closed ==>
        && w.m.sessions == map[]
        && TaskOf(w, t).IdleArmed?
        && TaskOf(w, t).at <= |w.issued|
        && (|w.issued| - TaskOf(w, t).at) % 0x1_0000 == 0
        && (|w.issued| < TaskOf(w, t).at + 0x1_0000 ==> |w.issued| == TaskOf(w, t).at)
  {
    InvAlways(st, START, acts);
    var w := Runs(st, START, acts);
    if !w.m.closed && Act(st, w, LockIdle(t)).m.closed {
      assert SampleFits(TaskOf(w, t), |w.issued|);
      SameResidue(TaskOf(w, t).at, |w.issued|);
    }
  }

  lemma SameResidue(a: nat, b: nat)
    requires a <= b && a % 0x1_0000 == b % 0x1_0000
    ensures (b - a) % 0x1_0000 == 0
    ensures b < a + 0x1_0000 ==> a == b
  {
  }

  // ----- what closing stops -----

  /** A session is issued by one kind of step only, and is open when it is. */
  lemma IssuesIff(st: Strategy, w: World, a: Action)
    ensures Act(st, w, a).issued != w.issued <==>
      a.LockAllocate? && TaskOf(w, a.t).Allocating? && !Full(st, w.m)
    ensures var m := Act(st, w, a).m;
      Act(st, w, a).issued != w.issued ==>
        NextId(w.m) in m.sessions && m.sessions[NextId(w.m)] == Session(NextId(w.m), false)
  {
    assert |w.issued + [NextId(w.m)]| == |w.issued| + 1;
  }

  /** Some task has read `closed` as false and waits for the lock. */
  ghost predicate Pending(w: World)
  {
    exists t :: t in w.tasks && w.tasks[t].Allocating?
  }

  /** Every connection the settings allow has been made. */
  predicate Spent(st: Strategy, m: Manager)
  {
    st.maxConnection > 0 && m.nextId >= st.maxConnection
  }

  lemma ClosedStep(st: Strategy, w: World, a: Action)
    requires w.m.closed && (!Pending(w) || Spent(st, w.m))
    ensures var w' := Act(st, w, a);
      w'.m.closed && w'.issued == w.issued && (!Pending(w') || Spent(st, w'.m))
  {
    IssuesIff(st, w, a);
  }

  lemma {:induction false} ClosedForGood(st: Strategy, w: World, acts: seq<Action>)
    requires w.m.closed && (!Pending(w) || Spent(st, w.m))
    ensures Runs(st, w, acts).issued == w.issued
    decreases |acts|
  {
    if acts != [] {
      ClosedStep(st, w, acts[0]);
      ClosedForGood(st, Act(st, w, acts[0]), acts[1..]);
    }
  }

  lemma {:induction false} TableCanEmpty(st: Strategy, w: World) returns (acts: seq<Action>)
    ensures Runs(st, w, acts) == w.(m := w.m.(sessions := map[]))
    decreases |w.m.sessions|
  {
    acts := [];
    if w.m.sessions != map[] {
      var id :| id in w.m.sessions;
      var w1 := Act(st, w, RemoveId(id));
      assert w.m.sessions.Keys == w1.m.sessions.Keys + {id};
      var rest := TableCanEmpty(st, w1);
      acts := [RemoveId(id)] + rest;
      assert acts[1..] == rest;
    }
  }

  /** After closing, a session can still be issued exactly when an allocation is past its read of `closed`. */
  lemma ClosedCanGainSessionIff(st: Strategy, w: World)
    requires w.m.closed
    ensures (exists acts :: Runs(st, w, acts).issued != w.issued) <==> Pending(w) && !Spent(st, w.m)
  {
    if Pending(w) && !Spent(st, w.m) {
      var t :| t in w.tasks && w.tasks[t].Allocating?;
      var acts := TableCanEmpty(st, w);
      IssuesIff(st, Runs(st, w, acts), LockAllocate(t));
      RunsSnoc(st, w, acts, LockAllocate(t));
      assert Runs(st, w, acts + [LockAllocate(t)]).issued != w.issued;
    } else {
      forall acts ensures Runs(st, w, acts).issued == w.issued {
        ClosedForGood(st, w, acts);
      }
    }
  }

  /** Such a world is reachable: a task past its `closed` read adds a session to a closed manager. */
  lemma ClosedManagerCanGainSession()
    ensures var acts := [BeginAllocate(0)] + [ReadSize(1)] + [ReadCount(1)] + [BeginIdle(1)] + [LockIdle(1)]
                        + [LockAllocate(0)];
      var w := Runs(Strategy(8, 0), START, acts);
      w.m.closed && 1 in w.m.sessions && !w.m.sessions[1].closed
  {
    var st, t := Strategy(8, 0), [BeginAllocate(0)];
    assert [] + t == t;
    RunsSnoc(st, START, [], BeginAllocate(0));
    RunsSnoc(st, START, t, ReadSize(1));
    RunsSnoc(st, START, t + [ReadSize(1)], ReadCount(1));
    RunsSnoc(st, START, t + [ReadSize(1)] + [ReadCount(1)], BeginIdle(1));
    RunsSnoc(st, START, t + [ReadSize(1)] + [ReadCount(1)] + [BeginIdle(1)], LockIdle(1));
    RunsSnoc(st, START, t + [ReadSize(1)] + [ReadCount(1)] + [BeginIdle(1)] + [LockIdle(1)], LockAllocate(0));
  }
}
