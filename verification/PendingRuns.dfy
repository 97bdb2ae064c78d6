/** Runs of the pending table: any sequence of device-id requests and replies, each served as one atomic step.
    `TryLock` shows that the concurrent handlers of the hook produce exactly such runs. */
module PendingRuns {
  import opened Wrappers
  import opened PendingTable

  datatype Counters = Counters(
    requestHits: nat, pushes: nat, overflows: nat, collisions: nat, onewayIgnored: nat, lockDrops: nat,
    pops: nat, misses: nat, generationStale: nat, withoutPending: nat, correlated: nat)

  const ZERO := Counters(0, 0, 0, 0, 0, 0, 0, 0, 0, 0, 0)

  datatype State = State(table: Table, counters: Counters)

  /** One flagged request delivered to the HAL, or one reply leaving it. `acquired` says whether the bounded
      try-lock was taken, `generation` is the HAL generation read inside the critical section. */
  datatype Call =
    | Request(who: Identity, request: PendingTable.Request, acquired: bool, generation: nat)
    | Reply(who: Identity, acquired: bool, generation: nat)

  predicate Oneway(r: PendingTable.Request) { r.flags % 2 == 1 }

  predicate DeviceId(parcelFlags: nat) { parcelFlags % 2 == 1 }

  const EMPTY_SLOT := Slot(0, 0, 0, 0, [NO_FRAME, NO_FRAME, NO_FRAME, NO_FRAME])
  const NO_FRAME := Frame(PendingTable.Request(0, 0, 0, 0, 0, 0), 0)
  const INITIAL := State(Blank(SLOTS), ZERO)

  function Blank(n: nat): (t: Table)
    ensures |t| == n && forall i :: 0 <= i < n ==> t[i] == EMPTY_SLOT
  {
    if n == 0 then [] else Blank(n - 1) + [EMPTY_SLOT]
  }

  /** The push of one request, with the counters the emitted code raises. */
  function PushCall(s: State, who: Identity, r: PendingTable.Request, acquired: bool, generation: nat): (s': State)
    requires Shaped(s.table)
    ensures Shaped(s'.table)
  {
    var c := s.counters;
    if Oneway(r) then s.(counters := c.(onewayIgnored := c.onewayIgnored + 1))
    else if !acquired then s.(counters := c.(lockDrops := c.lockDrops + 1))
    else match Push(s.table, who, Frame(r, generation))
      case Overflow(after) =>
        State(after, c.(overflows := c.overflows + 1))
      case Pushed(after, collision) =>
        State(after, c.(pushes := c.pushes + 1, collisions := c.collisions + if collision then 1 else 0))
  }

  /** The pop of one reply: the new state, the event id it yields (0 for none) and the flags with it. */
  function PopCall(s: State, task: nat, acquired: bool, generation: nat): (r: (State, nat, nat))
    requires Shaped(s.table)
    ensures Shaped(r.0.table)
  {
    var c := s.counters;
    if !acquired then (s.(counters := c.(lockDrops := c.lockDrops + 1)), 0, 0)
    else match Pop(s.table, task, generation)
      case Miss => (s.(counters := c.(misses := c.misses + 1)), 0, 0)
      case Stale(after) => (State(after, c.(generationStale := c.generationStale + 1)), 0, 0)
      case Yield(after, id, flags) =>
        (State(after, if id != 0 then c.(pops := c.pops + 1) else c), id, flags)
  }

  /** What the handler counts after the pop. */
  function CountReply(c: Counters, id: nat, flags: nat): Counters {
    if id == 0 then c.(withoutPending := c.withoutPending + 1)
    else if DeviceId(flags) then c.(correlated := c.correlated + 1)
    else c
  }

  function Serve(s: State, call: Call): (r: (State, nat))
    requires Shaped(s.table)
    ensures Shaped(r.0.table)
  {
    match call
    case Request(who, r, acquired, generation) =>
      var hit := s.(counters := s.counters.(requestHits := s.counters.requestHits + 1));
      (PushCall(hit, who, r, acquired, generation), 0)
    case Reply(who, acquired, generation) =>
      var (after, id, flags) := PopCall(s, who.task, acquired, generation);
      (after.(counters := CountReply(after.counters, id, flags)), id)
  }

  function Serial(calls: seq<Call>): (s: State)
    ensures Shaped(s.table)
  {
    if calls == [] then INITIAL else Serve(Serial(calls[..|calls| - 1]), calls[|calls| - 1]).0
  }

  /** The event id that call i yields in the run, 0 when it yields none. */
  function YieldAt(calls: seq<Call>, i: nat): nat
    requires i < |calls|
  {
    Serve(Serial(calls[..i]), calls[i]).1
  }

  predicate Tracked(call: Call) {
    call.Request? && !Oneway(call.request)
  }

  /** Event ids are tickets of one atomic counter and a task handles one command at a time: ids are positive
      and distinct, and the ids of one task pointer rise. Only flagged requests are pushed, and the running
      task is never null. */
  ghost predicate Ticketed(calls: seq<Call>) {
    && (forall i :: 0 <= i < |calls| ==> calls[i].who.task != 0)
    && (forall i :: 0 <= i < |calls| && calls[i].Request? ==>
          calls[i].request.eventId != 0 && DeviceId(calls[i].request.parcelFlags))
    && (forall i, j :: 0 <= i < j < |calls| && calls[i].Request? && calls[j].Request? ==>
          && calls[i].request.eventId != calls[j].request.eventId
          && (calls[i].who.task == calls[j].who.task ==> calls[i].request.eventId < calls[j].request.eventId))
  }

  /** Frame f, held for `task` after `calls`, is what one of the calls pushed. */
  ghost predicate PushedBy(calls: seq<Call>, i: nat, task: nat, f: Frame) {
    && i < |calls|
    && Tracked(calls[i]) && calls[i].acquired
    && calls[i].who.task == task
    && f == Frame(calls[i].request, calls[i].generation)
  }

  ghost predicate NotYielded(calls: seq<Call>, id: nat) {
    forall i :: 0 <= i < |calls| ==> YieldAt(calls, i) != id
  }

  ghost predicate Holds(t: Table, task: nat, f: Frame)
    requires Shaped(t)
  {
    Held(t, task).Some? && f in Held(t, task).value.frames
  }

  ghost predicate FrameOk(calls: seq<Call>, task: nat, f: Frame) {
    NotYielded(calls, f.request.eventId) && exists i :: PushedBy(calls, i, task, f)
  }

  /** The yield of reply k is the id of an earlier request of the same task pointer that read the same HAL
      generation, and no earlier reply yielded it. */
  ghost predicate YieldOk(calls: seq<Call>, k: nat)
    requires k < |calls|
  {
    YieldAt(calls, k) != 0 ==>
      && (exists i :: 0 <= i < k && YieldedBy(calls, i, k))
      && (forall j :: 0 <= j < k ==> YieldAt(calls, j) != YieldAt(calls, k))
  }

  ghost predicate YieldedBy(calls: seq<Call>, i: nat, k: nat)
    requires i < k < |calls|
  {
    && Tracked(calls[i]) && calls[i].acquired
    && calls[k].Reply? && calls[k].acquired
    && calls[i].who.task == calls[k].who.task
    && calls[i].generation == calls[k].generation
    && calls[i].request.eventId == YieldAt(calls, k)
  }

  /** What every run keeps, besides the table's own invariant: every frame was pushed by a call of its task,
      with the generation that call read, and has not been yielded; every yield is sound and new. */
  ghost predicate RunOk(calls: seq<Call>) {
    && TableOk(Serial(calls).table)
    && (forall task, f :: task != 0 && Holds(Serial(calls).table, task, f) ==> FrameOk(calls, task, f))
    && (forall k :: 0 <= k < |calls| ==> YieldOk(calls, k))
  }

  lemma Prefix(calls: seq<Call>, i: nat)
    requires i < |calls|
    ensures forall k :: 0 <= k < i ==> YieldAt(calls[..i], k) == YieldAt(calls, k)
    ensures Ticketed(calls) ==> Ticketed(calls[..i])
  {
    forall k | 0 <= k < i ensures YieldAt(calls[..i], k) == YieldAt(calls, k) {
      assert calls[..i][..k] == calls[..k];
    }
  }

  /** Everything above, on every run: lock drops, overflow, eviction, pointer reuse and generation changes
      included. */
  lemma {:induction false} EveryRun(calls: seq<Call>)
    requires Ticketed(calls)
    ensures RunOk(calls)
  {
    if calls == [] {
      assert TableOk(INITIAL.table);
      forall task: nat ensures Held(INITIAL.table, task) == None || task == 0 {}
    } else {
      var n := |calls| - 1;
      Prefix(calls, n);
      EveryRun(calls[..n]);
      if calls[n].Request? { RequestKeeps(calls); } else { ReplyKeeps(calls); }
    }
  }

  lemma EarlierYields(calls: seq<Call>)
    requires calls != [] && RunOk(calls[..|calls| - 1])
    ensures forall k :: 0 <= k < |calls| - 1 ==> YieldOk(calls, k)
  {
    var n := |calls| - 1;
    Prefix(calls, n);
    forall k | 0 <= k < n ensures YieldOk(calls, k) {
      assert YieldOk(calls[..n], k);
      if YieldAt(calls, k) != 0 {
        var i :| 0 <= i < k && YieldedBy(calls[..n], i, k);
        assert YieldedBy(calls, i, k);
      }
    }
  }

  /** The request to be pushed is newer than every frame its task still has. */
  lemma RequestIsNewest(calls: seq<Call>)
    requires Ticketed(calls) && calls != [] && calls[|calls| - 1].Request? && RunOk(calls[..|calls| - 1])
    ensures var call := calls[|calls| - 1];
            forall f :: f in Below(Serial(calls[..|calls| - 1]).table, call.who).frames ==>
              f.request.eventId < call.request.eventId
  {
    hide FindTask, Held, TableOk, Serial;
    var n := |calls| - 1;
    var call := calls[n];
    var before := Serial(calls[..n]).table;
    forall f | f in Below(before, call.who).frames ensures f.request.eventId < call.request.eventId {
      assert Holds(before, call.who.task, f);
      assert FrameOk(calls[..n], call.who.task, f);
      var i: nat :| PushedBy(calls[..n], i, call.who.task, f);
      assert calls[i] == calls[..n][i];
    }
  }

  lemma RequestNotYielded(calls: seq<Call>)
    requires Ticketed(calls) && calls != [] && calls[|calls| - 1].Request?
    requires forall k :: 0 <= k < |calls| - 1 ==> YieldOk(calls, k)
    requires YieldAt(calls, |calls| - 1) == 0
    ensures NotYielded(calls, calls[|calls| - 1].request.eventId)
  {
    hide YieldAt;
    var n := |calls| - 1;
    forall k | 0 <= k < n ensures YieldAt(calls, k) != calls[n].request.eventId {
      assert YieldOk(calls, k);
      if YieldAt(calls, k) != 0 {
        var i :| 0 <= i < k && YieldedBy(calls, i, k);
        assert calls[i].request.eventId != calls[n].request.eventId;
      }
    }
  }

  /** What a request leaves in the table was there before, or is its own frame. */
  lemma RequestLeaves(t: Table, who: Identity, frame: Frame, other: nat, f: Frame)
    requires TableOk(t) && who.task != 0 && other != 0
    requires forall g :: g in Below(t, who).frames ==> g.request.eventId < frame.request.eventId
    requires Holds(Push(t, who, frame).table, other, f)
    ensures Holds(t, other, f) || (Push(t, who, frame).Pushed? && other == who.task && f == frame)
  {
    hide Push, Locate, FindTask, TableOk, Held;
    PushMeaning(t, who, frame);
  }

  lemma RequestKeeps(calls: seq<Call>)
    requires Ticketed(calls) && calls != [] && calls[|calls| - 1].Request? && RunOk(calls[..|calls| - 1])
    ensures RunOk(calls)
  {
    hide Push, Locate, FindTask, Held, TableOk;
    var n := |calls| - 1;
    var call := calls[n];
    var before := Serial(calls[..n]).table;
    var after := Serial(calls).table;
    var frame := Frame(call.request, call.generation);
    EarlierYields(calls);
    assert YieldAt(calls, n) == 0;
    RequestIsNewest(calls);
    PushMeaning(before, call.who, frame);
    assert TableOk(after);
    forall task, f | task != 0 && Holds(after, task, f)
      ensures FrameOk(calls, task, f)
    {
      if Tracked(call) && call.acquired {
        RequestLeaves(before, call.who, frame, task, f);
      }
      if Holds(before, task, f) {
        FrameStays(calls, task, f);
      } else {
        assert PushedBy(calls, n, task, f);
        RequestNotYielded(calls);
      }
    }
  }

  /** What a reply leaves in the table was there before, and is not what it yields. */
  lemma ReplyLeaves(t: Table, task: nat, generation: nat, after: Table, other: nat, f: Frame)
    requires TableOk(t) && task != 0 && other != 0
    requires after == if Pop(t, task, generation).Miss? then t else Pop(t, task, generation).table
    requires Holds(after, other, f)
    ensures Holds(t, other, f)
    ensures Pop(t, task, generation).Yield? && other == task ==> f.request.eventId != Pop(t, task, generation).eventId
  {
    PopMeaning(t, task, generation);
    if !Pop(t, task, generation).Miss? && other == task {
      assert f in Under(t, task);
    }
  }

  lemma ReplyKeeps(calls: seq<Call>)
    requires Ticketed(calls) && calls != [] && calls[|calls| - 1].Reply? && RunOk(calls[..|calls| - 1])
    ensures RunOk(calls)
  {
    var n := |calls| - 1;
    var call := calls[n];
    var before := Serial(calls[..n]).table;
    var after := Serial(calls).table;
    Prefix(calls, n);
    EarlierYields(calls);
    PopMeaning(before, call.who.task, call.generation);
    if YieldAt(calls, n) != 0 { YieldSound(calls); }
    forall task, f | task != 0 && Holds(after, task, f)
      ensures FrameOk(calls, task, f)
    {
      if call.acquired {
        ReplyLeaves(before, call.who.task, call.generation, after, task, f);
      }
      FrameStays(calls, task, f);
    }
  }

  lemma FrameStays(calls: seq<Call>, task: nat, f: Frame)
    requires Ticketed(calls) && calls != [] && RunOk(calls[..|calls| - 1]) && YieldOk(calls, |calls| - 1)
    requires task != 0 && Holds(Serial(calls[..|calls| - 1]).table, task, f)
    requires task == calls[|calls| - 1].who.task ==>
               YieldAt(calls, |calls| - 1) == 0 || f.request.eventId != YieldAt(calls, |calls| - 1)
    ensures FrameOk(calls, task, f)
  {
    hide Serial, Held, YieldAt, TableOk;
    var n := |calls| - 1;
    assert FrameOk(calls[..n], task, f);
    var i: nat :| PushedBy(calls[..n], i, task, f);
    assert calls[..n][i] == calls[i];
    assert PushedBy(calls, i, task, f);
    if YieldAt(calls, n) != 0 && task != calls[n].who.task {
      var j :| 0 <= j < n && YieldedBy(calls, j, n);
      assert i < j || j < i;
    }
    StillNotYielded(calls, f.request.eventId);
  }

  lemma StillNotYielded(calls: seq<Call>, id: nat)
    requires calls != [] && NotYielded(calls[..|calls| - 1], id) && YieldAt(calls, |calls| - 1) != id
    ensures NotYielded(calls, id)
  {
    Prefix(calls, |calls| - 1);
  }

  lemma YieldSound(calls: seq<Call>)
    requires Ticketed(calls) && calls != [] && RunOk(calls[..|calls| - 1])
    requires YieldAt(calls, |calls| - 1) != 0
    ensures YieldOk(calls, |calls| - 1)
    ensures calls[|calls| - 1].Reply?
  {
    hide Held, TableOk, FindTask;
    var n := |calls| - 1;
    var task := calls[n].who.task;
    var before := Serial(calls[..n]).table;
    Prefix(calls, n);
    PopMeaning(before, task, calls[n].generation);
    var top := Newest(before, task);
    assert Holds(before, task, top);
    assert FrameOk(calls[..n], task, top);
    var i: nat :| PushedBy(calls[..n], i, task, top);
    assert YieldedBy(calls, i, n);
    assert NotYielded(calls[..n], top.request.eventId);
  }

  // ---- Conservation of the counters ----

  function TotalDepth(t: Table): nat {
    if t == [] then 0 else TotalDepth(t[..|t| - 1]) + t[|t| - 1].depth
  }

  lemma {:induction false} DepthUpdate(t: Table, i: nat, s: Slot)
    requires i < |t|
    ensures TotalDepth(t[i := s]) == TotalDepth(t) - t[i].depth + s.depth
  {
    var n := |t| - 1;
    if i == n {
      assert t[i := s][..n] == t[..n];
    } else {
      assert t[i := s][..n] == t[..n][i := s];
      DepthUpdate(t[..n], i, s);
    }
  }

  /** The conservation laws: every hit and every reply without a request has exactly one cause, every popped id
      is a correlated reply, and a push is still in the table, was popped, went stale, or was thrown away by a
      collision, which throws away one to four. */
  ghost predicate Conserved(s: State) {
    var c := s.counters;
    var accounted := TotalDepth(s.table) + c.pops + c.generationStale;
    && c.requestHits + c.withoutPending
       == c.pushes + c.overflows + c.onewayIgnored + c.misses + c.generationStale + c.lockDrops
    && c.pops == c.correlated
    && accounted + c.collisions <= c.pushes <= accounted + DEPTH * c.collisions
  }

  /** The frames in the slot a push settles on: none when it is free, one to four when it is taken over. */
  lemma PlaceDepth(t: Table, who: Identity)
    requires TableOk(t) && who.task != 0
    ensures var p := Locate(t, who);
            var victim := t[p.index];
            if p.collision then p.claim && 1 <= victim.depth <= DEPTH else p.claim ==> victim.depth == 0
  {
    hide BucketBase, FindTask, Oldest, Increasing, Locate, OneSlotPerTask;
    var p := Locate(t, who);
    PlaceMeaning(t, who);
    assert SlotOk(t[p.index], p.index);
  }

  lemma PushDepth(t: Table, who: Identity, frame: Frame)
    requires TableOk(t) && who.task != 0
    ensures match Push(t, who, frame)
            case Overflow(after) => after == t
            case Pushed(after, collision) =>
              var victim := t[Locate(t, who).index];
              && (collision ==> 1 <= victim.depth <= DEPTH)
              && TotalDepth(after) == TotalDepth(t) + 1 - if collision then victim.depth else 0
  {
    hide SlotOk, OneSlotPerTask, Locate, TotalDepth;
    var p := Locate(t, who);
    PlaceDepth(t, who);
    var s := if p.claim then Claimed(t[p.index], who) else t[p.index];
    if s.depth < DEPTH {
      DepthUpdate(t, p.index, s.(frames := s.frames[s.depth := frame], depth := s.depth + 1));
    } else {
      assert t[p.index := s] == t;
    }
  }

  lemma PopDepth(t: Table, task: nat, generation: nat)
    requires TableOk(t) && task != 0
    ensures !Pop(t, task, generation).Miss? ==>
              TotalDepth(Pop(t, task, generation).table) == TotalDepth(t) - 1
  {
    var base := BucketBase(task);
    match FindTask(t, base, base + WAYS, task) {
      case None =>
      case Some(i) =>
        assert SlotOk(t[i], i);
        DepthUpdate(t, i, Popped(t[i]));
    }
  }

  lemma {:induction false} BlankDepth(n: nat)
    ensures TotalDepth(Blank(n)) == 0
  {
    if n > 0 {
      assert Blank(n)[..n - 1] == Blank(n - 1);
      BlankDepth(n - 1);
    }
  }

  lemma RequestConserves(s: State, call: Call)
    requires TableOk(s.table) && Conserved(s) && call.Request? && call.who.task != 0
    ensures Conserved(Serve(s, call).0)
  {
    hide Push, Locate, TotalDepth, TableOk;
    PushDepth(s.table, call.who, Frame(call.request, call.generation));
  }

  lemma ReplyConserves(s: State, call: Call)
    requires TableOk(s.table) && Conserved(s) && call.Reply? && call.who.task != 0
    requires var r := Pop(s.table, call.who.task, call.generation);
             r.Yield? ==> r.eventId != 0 && DeviceId(r.parcelFlags)
    ensures Conserved(Serve(s, call).0)
  {
    hide Pop, TotalDepth, TableOk;
    PopDepth(s.table, call.who.task, call.generation);
  }

  lemma {:induction false} EveryRunConserves(calls: seq<Call>)
    requires Ticketed(calls)
    ensures Conserved(Serial(calls))
  {
    if calls == [] {
      BlankDepth(SLOTS);
    } else {
      hide Conserved, Serve, TableOk;
      var n := |calls| - 1;
      Prefix(calls, n);
      EveryRunConserves(calls[..n]);
      EveryRun(calls[..n]);
      if calls[n].Request? {
        RequestConserves(Serial(calls[..n]), calls[n]);
      } else {
        YieldCounted(calls);
        ReplyConserves(Serial(calls[..n]), calls[n]);
      }
    }
  }

  /** A popped frame carries a non-zero id and the device-id flag. */
  lemma YieldCounted(calls: seq<Call>)
    requires Ticketed(calls) && calls != [] && calls[|calls| - 1].Reply?
    requires RunOk(calls[..|calls| - 1])
    ensures var call := calls[|calls| - 1];
            var r := Pop(Serial(calls[..|calls| - 1]).table, call.who.task, call.generation);
            r.Yield? ==> r.eventId != 0 && DeviceId(r.parcelFlags)
  {
    var n := |calls| - 1;
    var task := calls[n].who.task;
    var before := Serial(calls[..n]).table;
    PopMeaning(before, task, calls[n].generation);
    if Pop(before, task, calls[n].generation).Yield? {
      var top := Newest(before, task);
      assert Holds(before, task, top);
      assert FrameOk(calls[..n], task, top);
      var i: nat :| PushedBy(calls[..n], i, task, top);
      assert calls[..n][i] == calls[i];
    }
  }
}
