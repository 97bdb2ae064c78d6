/** The table as an implementation of an unbounded map from task pointer to stack, and what that gives a
    reply: the event id of its own request. */
module PendingRefinement {
  import opened Wrappers
  import opened PendingTable
  import opened PendingRuns

  type Stacks = map<nat, Stack>

  function Lookup(m: Stacks, task: nat): Option<Stack> {
    if task in m then Some(m[task]) else None
  }

  function Frames(m: Stacks, task: nat): seq<Frame> {
    if task in m then m[task].frames else []
  }

  /** The newest frame of a task taken away; a task without frames leaves the map. */
  function Shorter(m: Stacks, task: nat): Stacks
    requires Frames(m, task) != []
  {
    var frames := Frames(m, task);
    if |frames| == 1 then m - {task} else m[task := m[task].(frames := frames[..|frames| - 1])]
  }

  /** One call on the unbounded map: requests push, replies pop, nothing is ever refused, evicted, dropped or
      invalidated. */
  function Ideal(m: Stacks, call: Call): (r: (Stacks, nat)) {
    match call
    case Request(who, request, acquired, generation) =>
      if Oneway(request) then (m, 0)
      else (m[who.task := Stack(who.pid, who.tgid, Frames(m, who.task) + [Frame(request, generation)])], 0)
    case Reply(who, acquired, generation) =>
      var frames := Frames(m, who.task);
      if frames == [] then (m, 0)
      else (Shorter(m, who.task), frames[|frames| - 1].request.eventId)
  }

  function IdealRun(m: Stacks, calls: seq<Call>): Stacks {
    if calls == [] then m else Ideal(IdealRun(m, calls[..|calls| - 1]), calls[|calls| - 1]).0
  }

  function IdealYield(calls: seq<Call>, i: nat): nat
    requires i < |calls|
  {
    Ideal(IdealRun(map[], calls[..i]), calls[i]).1
  }

  /** The other tasks with live frames whose pointers agree with `task` in bits 6 to 10. */
  ghost function Neighbours(m: Stacks, task: nat): set<nat> {
    set other | other in m.Keys && other != task && SameLine(other, task)
  }

  /** What a call needs of the map to be served as if the table were unbounded: the lock is taken; a task
      keeps its pid and tgid while it has frames, and nests at most four; a task without frames finds fewer
      than eight such neighbours; the HAL generation has not changed since the frame on top was
      pushed. */
  ghost predicate Benign(m: Stacks, call: Call) {
    match call
    case Request(who, request, acquired, generation) =>
      !Oneway(request) ==>
        && acquired
        && (who.task in m ==>
              m[who.task].pid == who.pid && m[who.task].tgid == who.tgid && |m[who.task].frames| < 4)
        && (who.task !in m ==> |Neighbours(m, who.task)| < 8)
    case Reply(who, acquired, generation) =>
      && acquired
      && (Frames(m, who.task) != [] ==>
            Frames(m, who.task)[|Frames(m, who.task)| - 1].generation == generation)
  }

  ghost predicate BenignRun(calls: seq<Call>) {
    forall i :: 0 <= i < |calls| ==> Benign(IdealRun(map[], calls[..i]), calls[i])
  }

  ghost predicate Same(t: Table, m: Stacks)
    requires Shaped(t)
  {
    && 0 !in m
    && (forall task :: task in m ==> m[task].frames != [])
    && (forall task :: task != 0 ==> Held(t, task) == Lookup(m, task))
  }

  lemma OccupiedByNeighbour(t: Table, m: Stacks, task: nat, j: nat)
    requires TableOk(t) && Same(t, m) && task != 0 && task !in m && j < |t| && t[j].task != 0
    requires BucketBase(task) <= j < BucketBase(task) + WAYS
    ensures t[j].task in Neighbours(m, task)
  {
    hide FindTask, BucketBase, SameLine;
    HeldAt(t, j);
    assert Held(t, t[j].task) == Lookup(m, t[j].task);
    SameBucket(t, j, task);
  }

  ghost function Occupants(t: Table, base: nat, ways: nat): set<nat>
    requires base + ways <= |t|
  {
    set j | base <= j < base + ways :: t[j].task
  }

  /** The first occupied ways hold as many different neighbours. */
  lemma {:induction false} FullBucket(t: Table, m: Stacks, task: nat, ways: nat)
    requires TableOk(t) && Same(t, m) && task != 0 && task !in m && ways <= WAYS
    requires forall j :: BucketBase(task) <= j < BucketBase(task) + ways ==> t[j].task != 0
    ensures Occupants(t, BucketBase(task), ways) <= Neighbours(m, task)
    ensures |Occupants(t, BucketBase(task), ways)| == ways
  {
    hide Same, SlotOk, OneSlotPerTask, BucketBase, Neighbours, Occupants;
    var base := BucketBase(task);
    if ways == 0 {
      NoOccupants(t, base);
    } else {
      FullBucket(t, m, task, ways - 1);
      OccupiedByNeighbour(t, m, task, base + ways - 1);
      OneMoreOccupant(t, base, ways);
    }
  }

  lemma NoOccupants(t: Table, base: nat)
    requires base <= |t|
    ensures Occupants(t, base, 0) == {}
  {
  }

  lemma OneMoreOccupant(t: Table, base: nat, ways: nat)
    requires TableOk(t) && 0 < ways && base + ways <= |t| && t[base + ways - 1].task != 0
    ensures var last := t[base + ways - 1].task;
            var fewer := Occupants(t, base, ways - 1);
            Occupants(t, base, ways) == fewer + {last} && last !in fewer
  {
    hide SlotOk;
  }

  lemma SameBucket(t: Table, j: nat, task: nat)
    requires TableOk(t) && j < |t| && t[j].task != 0
    requires BucketBase(task) <= j < BucketBase(task) + WAYS
    ensures SameLine(t[j].task, task)
  {
    hide SameLine;
    assert SlotOk(t[j], j);
    LinesAreDisjoint(t[j].task, task);
  }

  lemma CardinalityOfSubset(a: set<nat>, b: set<nat>)
    requires a <= b
    ensures |a| <= |b|
  {
    assert b == a + (b - a);
    assert |b| == |a| + |b - a|;
  }

  /** Nothing was evicted, refused, dropped or found stale in between. */
  predicate Lossless(s: State, after: State) {
    var c, d := s.counters, after.counters;
    d.collisions == c.collisions && d.overflows == c.overflows && d.lockDrops == c.lockDrops
    && d.generationStale == c.generationStale
  }

  lemma RequestRefines(s: State, m: Stacks, call: Call)
    requires TableOk(s.table) && Same(s.table, m) && call.Request? && call.who.task != 0
    requires Benign(m, call)
    requires forall f :: f in Frames(m, call.who.task) ==> f.request.eventId < call.request.eventId
    ensures Same(Serve(s, call).0.table, Ideal(m, call).0)
    ensures Lossless(s, Serve(s, call).0)
  {
    var who, t := call.who, s.table;
    if !Oneway(call.request) {
      assert Held(t, who.task) == Lookup(m, who.task);
      PlaceMeaning(t, who);
      var p := Locate(t, who);
      if p.collision {
        FullBucket(t, m, who.task, WAYS);
        CardinalityOfSubset(Occupants(t, BucketBase(who.task), WAYS), Neighbours(m, who.task));
        assert false;
      }
      PushMeaning(t, who, Frame(call.request, call.generation));
    }
  }

  lemma ReplyRefines(s: State, m: Stacks, call: Call)
    requires TableOk(s.table) && Same(s.table, m) && call.Reply? && call.who.task != 0
    requires Benign(m, call)
    ensures Same(Serve(s, call).0.table, Ideal(m, call).0)
    ensures Serve(s, call).1 == Ideal(m, call).1
    ensures Lossless(s, Serve(s, call).0)
  {
    hide SlotOk, OneSlotPerTask, Pop, Held, Same, PoppedFrom, Under, Newest, Shorter;
    SameAt(s.table, m, call.who.task);
    PopMeaning(s.table, call.who.task, call.generation);
    var popped := Pop(s.table, call.who.task, call.generation);
    if !popped.Miss? { SamePopped(s.table, m, call.who.task, popped.table); }
  }

  lemma SameAt(t: Table, m: Stacks, task: nat)
    requires Shaped(t) && Same(t, m) && task != 0
    ensures Held(t, task) == Lookup(m, task) && (task in m ==> Frames(m, task) != [])
  {
    hide Held;
  }

  lemma SamePopped(t: Table, m: Stacks, task: nat, after: Table)
    requires TableOk(t) && task != 0 && Same(t, m) && PoppedFrom(t, task, after)
    ensures Shaped(after)
    ensures Frames(m, task) == Under(t, task) + [Newest(t, task)] && Same(after, Shorter(m, task))
  {
    hide SlotOk, OneSlotPerTask, Held, Under, Newest;
    assert Held(t, task) == Lookup(m, task);
    assert Frames(m, task)[..|Under(t, task)|] == Under(t, task);
  }

  lemma BenignPrefix(calls: seq<Call>)
    requires calls != [] && BenignRun(calls)
    ensures BenignRun(calls[..|calls| - 1])
    ensures forall i :: 0 <= i < |calls| - 1 ==> IdealYield(calls[..|calls| - 1], i) == IdealYield(calls, i)
  {
    var n := |calls| - 1;
    forall i | 0 <= i < n
      ensures Benign(IdealRun(map[], calls[..n][..i]), calls[..n][i])
      ensures IdealYield(calls[..n], i) == IdealYield(calls, i)
    {
      assert calls[..n][..i] == calls[..i];
      assert calls[..n][i] == calls[i];
    }
  }

  /** The id of the last request is above those that its task holds. */
  lemma LatestIsNewest(calls: seq<Call>)
    requires Ticketed(calls) && calls != [] && calls[|calls| - 1].Request?
    requires Same(Serial(calls[..|calls| - 1]).table, IdealRun(map[], calls[..|calls| - 1]))
    ensures var last := calls[|calls| - 1];
            forall f :: f in Frames(IdealRun(map[], calls[..|calls| - 1]), last.who.task) ==>
              f.request.eventId < last.request.eventId
  {
    var n := |calls| - 1;
    var s, m := Serial(calls[..n]), IdealRun(map[], calls[..n]);
    var task := calls[n].who.task;
    Prefix(calls, n);
    EveryRun(calls[..n]);
    forall f | f in Frames(m, task) ensures f.request.eventId < calls[n].request.eventId {
      assert Held(s.table, task) == Lookup(m, task);
      assert Holds(s.table, task, f);
      assert FrameOk(calls[..n], task, f);
      var i: nat :| PushedBy(calls[..n], i, task, f);
      assert calls[..n][i] == calls[i];
    }
  }

  lemma LastCallRefines(calls: seq<Call>)
    requires Ticketed(calls) && calls != []
    requires Same(Serial(calls[..|calls| - 1]).table, IdealRun(map[], calls[..|calls| - 1]))
    requires Benign(IdealRun(map[], calls[..|calls| - 1]), calls[|calls| - 1])
    ensures Same(Serial(calls).table, IdealRun(map[], calls))
    ensures YieldAt(calls, |calls| - 1) == IdealYield(calls, |calls| - 1)
    ensures Lossless(Serial(calls[..|calls| - 1]), Serial(calls))
  {
    var n := |calls| - 1;
    var s, m := Serial(calls[..n]), IdealRun(map[], calls[..n]);
    var task := calls[n].who.task;
    Prefix(calls, n);
    EveryRun(calls[..n]);
    if calls[n].Request? {
      LatestIsNewest(calls);
      RequestRefines(s, m, calls[n]);
    } else {
      ReplyRefines(s, m, calls[n]);
    }
  }

  /** On every run whose calls are benign the table is the unbounded map, every reply yields what the map would, and
      nothing is lost. */
  lemma {:induction false} TableRefinesMap(calls: seq<Call>)
    requires Ticketed(calls) && BenignRun(calls)
    ensures Same(Serial(calls).table, IdealRun(map[], calls))
    ensures forall i :: 0 <= i < |calls| ==> YieldAt(calls, i) == IdealYield(calls, i)
    ensures Lossless(INITIAL, Serial(calls))
  {
    hide Same, Serial, IdealRun, YieldAt, IdealYield, Ticketed, BenignRun;
    if calls == [] {
      EmptyRefines();
    } else {
      var n := |calls| - 1;
      Prefix(calls, n);
      LastIsBenign(calls);
      BenignPrefix(calls);
      TableRefinesMap(calls[..n]);
      LastCallRefines(calls);
      forall i | 0 <= i < n ensures YieldAt(calls, i) == IdealYield(calls, i) {
        assert YieldAt(calls[..n], i) == IdealYield(calls[..n], i);
      }
    }
  }

  lemma EmptyRefines()
    ensures Same(Serial([]).table, IdealRun(map[], [])) && Lossless(INITIAL, Serial([]))
  {
    forall task: nat | task != 0 ensures Held(INITIAL.table, task) == None {}
  }

  lemma LastIsBenign(calls: seq<Call>)
    requires BenignRun(calls) && calls != []
    ensures Benign(IdealRun(map[], calls[..|calls| - 1]), calls[|calls| - 1])
  {
    hide Benign;
  }

  // ---- Nothing is lost exactly when the run is benign ----

  lemma SlotOfNeighbour(t: Table, m: Stacks, task: nat, other: nat)
    requires TableOk(t) && Same(t, m) && other in Neighbours(m, task)
    ensures exists j :: BucketBase(task) <= j < BucketBase(task) + WAYS && t[j].task == other
  {
    hide SlotOk, OneSlotPerTask, SameLine, BucketBase;
    LinesAreDisjoint(other, task);
    assert Held(t, other) == Lookup(m, other);
  }

  lemma TasksOfFew(t: Table, indices: set<nat>)
    requires forall i :: i in indices ==> i < |t|
    ensures |set i | i in indices :: t[i].task| <= |indices|
    decreases |indices|
  {
    var tasks := set i | i in indices :: t[i].task;
    if indices != {} {
      var i :| i in indices;
      TasksOfFew(t, indices - {i});
      assert tasks == (set j | j in indices - {i} :: t[j].task) + {t[i].task};
    } else {
      assert tasks == {};
    }
  }

  /** The seven ways of a bucket besides one. */
  ghost function OtherWays(base: nat, free: nat): (ways: set<nat>)
    requires base <= free < base + 8
    ensures |ways| == 7 && forall j :: j in ways <==> base <= j < base + 8 && j != free
  {
    {base, base + 1, base + 2, base + 3, base + 4, base + 5, base + 6, base + 7} - {free}
  }

  /** A free way in the bucket leaves room for seven neighbours. */
  lemma FreeWayMeansFew(t: Table, m: Stacks, task: nat, free: nat)
    requires TableOk(t) && Same(t, m) && BucketBase(task) <= free < BucketBase(task) + WAYS && t[free].task == 0
    ensures |Neighbours(m, task)| < 8
  {
    hide SlotOk, OneSlotPerTask, SameLine, Neighbours, BucketBase, Same;
    var base := BucketBase(task);
    var taken := OtherWays(base, free);
    TasksOfFew(t, taken);
    var tasks := set i | i in taken :: t[i].task;
    forall other | other in Neighbours(m, task) ensures other in tasks {
      SlotOfNeighbour(t, m, task, other);
      NeighbourIsHeld(t, m, task, other);
      var j :| base <= j < base + WAYS && t[j].task == other;
      assert j in taken;
    }
    CardinalityOfSubset(Neighbours(m, task), tasks);
  }

  lemma NeighbourIsHeld(t: Table, m: Stacks, task: nat, other: nat)
    requires Shaped(t) && Same(t, m) && other in Neighbours(m, task)
    ensures other in m && other != 0
  {
  }

  lemma LosslessRequest(s: State, m: Stacks, call: Call)
    requires TableOk(s.table) && Same(s.table, m) && call.Request? && call.who.task != 0
    requires forall f :: f in Frames(m, call.who.task) ==> f.request.eventId < call.request.eventId
    requires Lossless(s, Serve(s, call).0)
    ensures Benign(m, call)
  {
    hide SlotOk, OneSlotPerTask, Neighbours, Locate, BucketBase;
    var who, t := call.who, s.table;
    if call.request.flags % 2 == 0 && call.acquired {
      SameAt(t, m, who.task);
      PlaceMeaning(t, who);
      PushMeaning(t, who, Frame(call.request, call.generation));
      var p := Locate(t, who);
      if who.task !in m { FreeWayMeansFew(t, m, who.task, p.index); }
    }
  }

  lemma LosslessReply(s: State, m: Stacks, call: Call)
    requires TableOk(s.table) && Same(s.table, m) && call.Reply? && call.who.task != 0
    requires Lossless(s, Serve(s, call).0)
    ensures Benign(m, call)
  {
    hide SlotOk, OneSlotPerTask, Pop, Held, Same, PoppedFrom, Under, Newest;
    SameAt(s.table, m, call.who.task);
    PopMeaning(s.table, call.who.task, call.generation);
    var popped := Pop(s.table, call.who.task, call.generation);
    if !popped.Miss? { SamePopped(s.table, m, call.who.task, popped.table); }
  }

  lemma LossesStay(s: State, call: Call)
    requires Shaped(s.table)
    ensures var c, d := s.counters, Serve(s, call).0.counters;
            && c.collisions <= d.collisions && c.overflows <= d.overflows && c.lockDrops <= d.lockDrops
            && c.generationStale <= d.generationStale
  {
    hide Push, Pop;
  }

  /** Over a whole run nothing is evicted, refused, dropped or found stale if and only if every call is benign in the
      map that the calls before it leave. */
  lemma {:induction false} NothingIsLostExactlyWhen(calls: seq<Call>)
    requires Ticketed(calls)
    ensures Lossless(INITIAL, Serial(calls)) <==> BenignRun(calls)
  {
    hide Same, Ticketed, BenignRun, Serve, Benign;
    if BenignRun(calls) {
      TableRefinesMap(calls);
    } else if calls == [] {
      NoCallIsBenign();
    } else if Lossless(INITIAL, Serial(calls)) {
      var n := |calls| - 1;
      Prefix(calls, n);
      LossesStay(Serial(calls[..n]), calls[n]);
      NothingIsLostExactlyWhen(calls[..n]);
      TableRefinesMap(calls[..n]);
      LastWasBenign(calls);
      BenignOn(calls);
    }
  }

  lemma NoCallIsBenign()
    ensures BenignRun([])
  {
  }

  lemma LastWasBenign(calls: seq<Call>)
    requires Ticketed(calls) && calls != []
    requires Same(Serial(calls[..|calls| - 1]).table, IdealRun(map[], calls[..|calls| - 1]))
    requires Lossless(Serial(calls[..|calls| - 1]), Serial(calls))
    ensures Benign(IdealRun(map[], calls[..|calls| - 1]), calls[|calls| - 1])
  {
    hide Same, Benign, Lossless, Serve, RunOk;
    var n := |calls| - 1;
    var s, m := Serial(calls[..n]), IdealRun(map[], calls[..n]);
    Prefix(calls, n);
    EveryRun(calls[..n]);
    TableOfRun(calls[..n]);
    TaskOfLast(calls);
    if calls[n].Request? {
      LatestIsNewest(calls);
      LosslessRequest(s, m, calls[n]);
    } else {
      LosslessReply(s, m, calls[n]);
    }
  }

  lemma TableOfRun(calls: seq<Call>)
    requires RunOk(calls)
    ensures TableOk(Serial(calls).table)
  {
  }

  lemma TaskOfLast(calls: seq<Call>)
    requires Ticketed(calls) && calls != []
    ensures calls[|calls| - 1].who.task != 0
  {
  }

  lemma BenignOn(calls: seq<Call>)
    requires calls != [] && BenignRun(calls[..|calls| - 1])
    requires Benign(IdealRun(map[], calls[..|calls| - 1]), calls[|calls| - 1])
    ensures BenignRun(calls)
  {
    hide Benign, IdealRun;
    var n := |calls| - 1;
    forall i | 0 <= i < |calls| ensures Benign(IdealRun(map[], calls[..i]), calls[i]) {
      if i < n { assert calls[..n][..i] == calls[..i] && calls[..n][i] == calls[i]; }
    }
  }

  // ---- Many tasks at once ----

  /** Requests that are all outstanding at once: each of another task, and none one-way or without the lock. */
  ghost predicate Outstanding(calls: seq<Call>) {
    && Ticketed(calls)
    && (forall i :: 0 <= i < |calls| ==> calls[i].Request? && calls[i].request.flags % 2 == 0 && calls[i].acquired)
    && forall i, j :: 0 <= i < j < |calls| ==> calls[i].who.task != calls[j].who.task
  }

  ghost function Sharers(calls: seq<Call>, k: nat): set<nat>
    requires k < |calls|
  {
    set i | 0 <= i < |calls| && i != k && SameLine(calls[i].who.task, calls[k].who.task)
  }

  function StackOf(call: Call): Stack
    requires call.Request?
  {
    Stack(call.who.pid, call.who.tgid, [Frame(call.request, call.generation)])
  }

  /** A map that has the stacks of these requests and no others. */
  ghost predicate Stacked(m: Stacks, calls: seq<Call>)
    requires forall i :: 0 <= i < |calls| ==> calls[i].Request?
  {
    && (forall i :: 0 <= i < |calls| ==> Lookup(m, calls[i].who.task) == Some(StackOf(calls[i])))
    && forall task :: task in m ==> exists i :: 0 <= i < |calls| && calls[i].who.task == task
  }

  lemma StackedOn(m: Stacks, calls: seq<Call>, call: Call)
    requires (forall i :: 0 <= i < |calls| ==> calls[i].Request?) && Stacked(m, calls)
    requires call.Request? && call.request.flags % 2 == 0
    requires forall i :: 0 <= i < |calls| ==> calls[i].who.task != call.who.task
    ensures Stacked(Ideal(m, call).0, calls + [call])
  {
    var m', all := Ideal(m, call).0, calls + [call];
    assert call.who.task !in m && [] + [Frame(call.request, call.generation)] == [Frame(call.request, call.generation)];
    forall task | task in m' ensures exists i :: 0 <= i < |all| && all[i].who.task == task {
      if task == call.who.task {
        assert all[|calls|].who.task == task;
      } else {
        var i :| 0 <= i < |calls| && calls[i].who.task == task;
        assert all[i].who.task == task;
      }
    }
  }

  lemma NothingStacked()
    ensures Stacked(IdealRun(map[], []), [])
  {
  }

  lemma IdealLast(calls: seq<Call>)
    requires calls != []
    ensures IdealRun(map[], calls) == Ideal(IdealRun(map[], calls[..|calls| - 1]), calls[|calls| - 1]).0
  {
  }

  lemma OutstandingTake(calls: seq<Call>, n: nat)
    requires Outstanding(calls) && n <= |calls|
    ensures Outstanding(calls[..n])
  {
  }

  lemma {:induction false} IdealOfOutstanding(calls: seq<Call>)
    requires Outstanding(calls)
    ensures Stacked(IdealRun(map[], calls), calls)
  {
    hide Stacked, Ideal, Ticketed, IdealRun;
    if calls == [] {
      NothingStacked();
    } else {
      var n := |calls| - 1;
      IdealLast(calls);
      OutstandingTake(calls, n);
      IdealOfOutstanding(calls[..n]);
      StackedOn(IdealRun(map[], calls[..n]), calls[..n], calls[n]);
      assert calls[..n] + [calls[n]] == calls;
    }
  }

  lemma ImageIsSmall(calls: seq<Call>, indices: set<nat>)
    requires forall i :: i in indices ==> i < |calls|
    ensures |set i | i in indices :: calls[i].who.task| <= |indices|
    decreases |indices|
  {
    var image := set i | i in indices :: calls[i].who.task;
    if indices != {} {
      var i :| i in indices;
      var fewer := set j | j in indices - {i} :: calls[j].who.task;
      ImageIsSmall(calls, indices - {i});
      assert image == fewer + {calls[i].who.task};
    } else {
      assert image == {};
    }
  }

  lemma OutstandingIsBenign(calls: seq<Call>, k: nat)
    requires Outstanding(calls) && k < |calls| && |Sharers(calls, k)| < 8
    ensures Benign(IdealRun(map[], calls[..k]), calls[k])
  {
    hide SameLine, IdealRun, Ticketed;
    var m := IdealRun(map[], calls[..k]);
    OutstandingTake(calls, k);
    IdealOfOutstanding(calls[..k]);
    var task := calls[k].who.task;
    assert forall i :: 0 <= i < k ==> calls[..k][i] == calls[i];
    var image := set i | i in Sharers(calls, k) :: calls[i].who.task;
    forall other | other in Neighbours(m, task) ensures other in image {
      var i :| 0 <= i < |calls[..k]| && calls[..k][i].who.task == other;
      assert i in Sharers(calls, k);
    }
    ImageIsSmall(calls, Sharers(calls, k));
    CardinalityOfSubset(Neighbours(m, task), image);
  }

  /** Any number of tasks is held at once, each with its own request, as long as no more than eight of them agree in
      bits 6 to 10: 256 tasks when eight have each value of these bits. */
  lemma EightToALineAreHeld(calls: seq<Call>)
    requires Outstanding(calls) && forall k :: 0 <= k < |calls| ==> |Sharers(calls, k)| < 8
    ensures forall k :: 0 <= k < |calls| ==> Held(Serial(calls).table, calls[k].who.task) == Some(StackOf(calls[k]))
    ensures Lossless(INITIAL, Serial(calls))
  {
    hide Benign, Sharers, SameLine, IdealRun, Serial, Held, Lossless, Ticketed;
    forall k | 0 <= k < |calls| ensures Benign(IdealRun(map[], calls[..k]), calls[k]) { OutstandingIsBenign(calls, k); }
    TableRefinesMap(calls);
    IdealOfOutstanding(calls);
    forall k | 0 <= k < |calls|
      ensures Held(Serial(calls).table, calls[k].who.task) == Some(StackOf(calls[k]))
    {
      TaskIsNotNull(calls, k);
      SameAt(Serial(calls).table, IdealRun(map[], calls), calls[k].who.task);
    }
  }

  lemma TaskIsNotNull(calls: seq<Call>, k: nat)
    requires Ticketed(calls) && k < |calls|
    ensures calls[k].who.task != 0
  {
  }

  // ---- Brackets ----

  /** Requests minus replies of one task. */
  function Height(calls: seq<Call>, task: nat): int {
    if calls == [] then 0 else
    Height(calls[..|calls| - 1], task) + Rise(calls[|calls| - 1], task)
  }

  /** The task's requests and replies in `calls` pair up like brackets. */
  ghost predicate Bracketed(calls: seq<Call>, task: nat) {
    && (forall k :: 0 <= k <= |calls| ==> Height(calls[..k], task) >= 0)
    && Height(calls, task) == 0
  }

  function Rise(call: Call, task: nat): int {
    if call.who.task != task then 0 else if call.Reply? then -1 else if Tracked(call) then 1 else 0
  }

  /** One call leaves every frame but the newest of its task alone. */
  lemma OneCall(m: Stacks, call: Call, task: nat)
    ensures var before, after := Frames(m, task), Frames(Ideal(m, call).0, task);
            if Rise(call, task) == 0 then after == before
            else if Rise(call, task) == 1 then after == before + [Frame(call.request, call.generation)]
            else if before == [] then after == []
            else after == before[..|before| - 1]
  {
  }

  /** While the height stays non-negative, what a task already had is untouched. */
  lemma {:induction false} BracketsKeepStack(m: Stacks, calls: seq<Call>, task: nat)
    requires forall k :: 0 <= k <= |calls| ==> Height(calls[..k], task) >= 0
    ensures var after := Frames(IdealRun(m, calls), task);
            |after| == |Frames(m, task)| + Height(calls, task) && Frames(m, task) <= after
  {
    hide Ideal, Frames, Rise;
    if calls != [] {
      var n := |calls| - 1;
      forall k | 0 <= k <= n ensures Height(calls[..n][..k], task) >= 0 {
        assert calls[..n][..k] == calls[..k];
      }
      BracketsKeepStack(m, calls[..n], task);
      OneCall(IdealRun(m, calls[..n]), calls[n], task);
      assert calls[..n + 1] == calls;
      RiseValues(calls[n], task);
    }
  }

  lemma RiseValues(call: Call, task: nat)
    ensures -1 <= Rise(call, task) <= 1
  {
  }

  lemma {:induction false} IdealRunSplit(m: Stacks, a: seq<Call>, b: seq<Call>)
    ensures IdealRun(m, a + b) == IdealRun(IdealRun(m, a), b)
    decreases |b|
  {
    if b == [] {
      assert a + b == a;
    } else {
      var n := |b| - 1;
      assert (a + b)[..|a + b| - 1] == a + b[..n];
      IdealRunSplit(m, a, b[..n]);
    }
  }

  /** Call j is the reply to request i: same task, and in between that task's requests and replies pair up. */
  ghost predicate Matches(calls: seq<Call>, i: nat, j: nat) {
    && i < j < |calls|
    && Tracked(calls[i]) && calls[j].Reply?
    && calls[i].who.task == calls[j].who.task
    && Bracketed(calls[i + 1..j], calls[i].who.task)
  }

  lemma IdealReplyYields(calls: seq<Call>, i: nat, j: nat)
    requires Matches(calls, i, j)
    ensures IdealYield(calls, j) == calls[i].request.eventId
  {
    hide Height;
    var task := calls[i].who.task;
    var before, pushed := IdealRun(map[], calls[..i]), IdealRun(map[], calls[..i + 1]);
    assert calls[..i + 1][..i] == calls[..i];
    assert calls[..j] == calls[..i + 1] + calls[i + 1..j];
    IdealRunSplit(map[], calls[..i + 1], calls[i + 1..j]);
    BracketsKeepStack(pushed, calls[i + 1..j], task);
    var frames := Frames(IdealRun(map[], calls[..j]), task);
    assert Frames(pushed, task) == Frames(before, task) + [Frame(calls[i].request, calls[i].generation)];
    assert frames == Frames(pushed, task);
  }

  lemma MatchedYields(calls: seq<Call>, i: nat, j: nat)
    requires Ticketed(calls) && BenignRun(calls) && Matches(calls, i, j)
    ensures YieldAt(calls, j) == calls[i].request.eventId
  {
    hide Serial, YieldAt, IdealYield;
    TableRefinesMap(calls);
    IdealReplyYields(calls, i, j);
  }

  lemma BenignTake(calls: seq<Call>, n: nat)
    requires n <= |calls| && Ticketed(calls) && BenignRun(calls)
    ensures Ticketed(calls[..n]) && BenignRun(calls[..n])
  {
    hide Benign;
    forall i | 0 <= i < n ensures Benign(IdealRun(map[], calls[..n][..i]), calls[..n][i]) {
      assert calls[..n][..i] == calls[..i];
    }
  }

  /** The ids on a stack increase upwards. */
  lemma StackIncreases(calls: seq<Call>, task: nat)
    requires Ticketed(calls) && BenignRun(calls) && task != 0
    ensures Increasing(Frames(IdealRun(map[], calls), task))
  {
    hide Increasing, BenignRun, Ticketed, BucketBase, OneSlotPerTask;
    TableRefinesMap(calls);
    EveryRun(calls);
    var t := Serial(calls).table;
    SameAt(t, IdealRun(map[], calls), task);
    match FindTask(t, BucketBase(task), BucketBase(task) + WAYS, task) {
      case None => NothingIncreases();
      case Some(i) => assert SlotOk(t[i], i);
    }
  }

  lemma NothingIncreases()
    ensures Increasing([])
  {
  }

  /** A reply that yields the id of request i follows it in the same task. */
  lemma YieldFollows(calls: seq<Call>, i: nat, j: nat)
    requires Ticketed(calls) && i < |calls| && j < |calls| && Tracked(calls[i])
    requires YieldAt(calls, j) == calls[i].request.eventId
    ensures i < j && calls[j].Reply? && calls[j].who.task == calls[i].who.task
    ensures forall k :: 0 <= k < j ==> YieldAt(calls, k) != calls[i].request.eventId
  {
    hide YieldAt, Serial, TableOk;
    EveryRun(calls);
    assert YieldOk(calls, j);
    var from: nat :| from < j && YieldedBy(calls, from, j);
    assert from == i;
  }

  /** Requests minus replies of one task in a part of a run. */
  function HeightFrom(calls: seq<Call>, from: nat, to: nat, task: nat): int
    requires from <= to <= |calls|
  {
    Height(calls[from..to], task)
  }

  ghost predicate NoDip(calls: seq<Call>, from: nat, to: nat, task: nat)
    requires from <= to <= |calls|
  {
    forall l: nat :: from <= l <= to ==> HeightFrom(calls, from, l, task) >= 0
  }

  /** Until a reply yields the id of request i, its task's later replies do not outnumber its later requests: the
      first one too many would have yielded it. */
  lemma {:induction false} NeverDips(calls: seq<Call>, i: nat, j: nat, k: nat)
    requires Ticketed(calls) && BenignRun(calls) && i < k <= j < |calls| && Tracked(calls[i])
    requires YieldAt(calls, j) == calls[i].request.eventId
    ensures NoDip(calls, i + 1, k, calls[i].who.task)
    decreases k
  {
    hide YieldAt, BenignRun, Height, Ticketed;
    var task := calls[i].who.task;
    if k == i + 1 {
      assert calls[i + 1..k] == [];
      HeightOfNone(task);
    } else {
      var last := k - 1;
      NeverDips(calls, i, j, last);
      HeightOn(calls[i + 1..k], task);
      assert calls[i + 1..k][..last - (i + 1)] == calls[i + 1..last];
      assert HeightFrom(calls, i + 1, last, task) >= 0;
      if HeightFrom(calls, i + 1, k, task) < 0 {
        BracketedFrom(calls, i + 1, last, task);
        MatchedYields(calls, i, last);
        YieldFollows(calls, i, j);
        assert false;
      }
    }
  }

  lemma HeightOfNone(task: nat)
    ensures Height([], task) == 0
  {
  }

  lemma HeightOn(calls: seq<Call>, task: nat)
    requires calls != []
    ensures var last := calls[|calls| - 1];
            var before := Height(calls[..|calls| - 1], task);
            && Height(calls, task) == before + Rise(last, task)
            && (Height(calls, task) < 0 <= before ==> before == 0 && last.Reply? && last.who.task == task)
  {
  }

  lemma BracketedFrom(calls: seq<Call>, from: nat, to: nat, task: nat)
    requires from <= to <= |calls|
    requires NoDip(calls, from, to, task) && HeightFrom(calls, from, to, task) == 0
    ensures Bracketed(calls[from..to], task)
  {
    hide Height;
    forall k | 0 <= k <= to - from ensures Height(calls[from..to][..k], task) >= 0 {
      assert calls[from..to][..k] == calls[from..from + k];
      assert HeightFrom(calls, from, from + k, task) >= 0;
    }
  }

  lemma YieldIsMatched(calls: seq<Call>, i: nat, j: nat)
    requires Ticketed(calls) && BenignRun(calls) && i < |calls| && j < |calls| && Tracked(calls[i])
    requires YieldAt(calls, j) == calls[i].request.eventId
    ensures Matches(calls, i, j)
  {
    hide YieldAt, BenignRun, HeightFrom, NoDip, Bracketed;
    YieldFollows(calls, i, j);
    NeverDips(calls, i, j, j);
    NoneAbove(calls, i, j);
    BracketedFrom(calls, i + 1, j, calls[i].who.task);
  }

  /** The frame of request i is on top again when its id is yielded: ids increase upwards. */
  lemma NoneAbove(calls: seq<Call>, i: nat, j: nat)
    requires Ticketed(calls) && BenignRun(calls) && i < j < |calls| && Tracked(calls[i]) && calls[j].Reply?
    requires calls[j].who.task == calls[i].who.task && calls[i].who.task != 0 && calls[i].request.eventId != 0
    requires YieldAt(calls, j) == calls[i].request.eventId
    requires NoDip(calls, i + 1, j, calls[i].who.task)
    ensures HeightFrom(calls, i + 1, j, calls[i].who.task) == 0
  {
    hide YieldAt, BenignRun, Height, Ticketed;
    var task, mid := calls[i].who.task, calls[i + 1..j];
    var pushed := IdealRun(map[], calls[..i + 1]);
    var frames := Frames(IdealRun(map[], calls[..j]), task);
    assert calls[..i + 1][..i] == calls[..i];
    assert calls[..j] == calls[..i + 1] + mid;
    IdealRunSplit(map[], calls[..i + 1], mid);
    forall k | 0 <= k <= |mid| ensures Height(mid[..k], task) >= 0 {
      assert mid[..k] == calls[i + 1..i + 1 + k];
      assert HeightFrom(calls, i + 1, i + 1 + k, task) >= 0;
    }
    BracketsKeepStack(pushed, mid, task);
    BenignTake(calls, j);
    StackIncreases(calls[..j], task);
    TableRefinesMap(calls);
    var own := |Frames(pushed, task)| - 1;
    assert frames[own] == Frames(pushed, task)[own] == Frame(calls[i].request, calls[i].generation);
    assert frames[|frames| - 1].request.eventId == IdealYield(calls, j);
  }

  /** In a benign run a reply yields the event id of a tracked request if and only if it is the reply to it. */
  lemma ReplyYieldsItsRequest(calls: seq<Call>, i: nat, j: nat)
    requires Ticketed(calls) && BenignRun(calls) && i < |calls| && j < |calls| && Tracked(calls[i])
    ensures YieldAt(calls, j) == calls[i].request.eventId <==> Matches(calls, i, j)
  {
    hide YieldAt, Matches, BenignRun, Ticketed;
    if Matches(calls, i, j) { MatchedYields(calls, i, j); }
    if YieldAt(calls, j) == calls[i].request.eventId { YieldIsMatched(calls, i, j); }
  }

  // ---- Untracked calls ----

  /** What reaches a handler: a call the hook acts on, or a request that is not flagged, which the hook lets pass. */
  datatype Event = Acted(call: Call) | Passed(who: Identity)

  function Calls(es: seq<Event>): seq<Call> {
    if es == [] then [] else
    Calls(es[..|es| - 1]) + if es[|es| - 1].Acted? then [es[|es| - 1].call] else []
  }

  /** The place in the run of the call at event x. */
  function PlaceOf(es: seq<Event>, x: nat): nat
    requires x < |es|
  {
    |Calls(es[..x])|
  }

  lemma {:induction false} CallsSplit(a: seq<Event>, b: seq<Event>)
    ensures Calls(a + b) == Calls(a) + Calls(b)
    decreases |b|
  {
    if b == [] {
      assert a + b == a;
    } else {
      var n := |b| - 1;
      assert (a + b)[..|a| + n] == a + b[..n];
      CallsSplit(a, b[..n]);
    }
  }

  /** The calls around an event that is one. */
  lemma CallsAround(es: seq<Event>, x: nat)
    requires x < |es| && es[x].Acted?
    ensures Calls(es) == Calls(es[..x]) + [es[x].call] + Calls(es[x + 1..])
  {
    hide Calls;
    assert es == es[..x] + ([es[x]] + es[x + 1..]);
    CallsSplit(es[..x], [es[x]] + es[x + 1..]);
    CallsSplit([es[x]], es[x + 1..]);
    OneEvent(es[x]);
  }

  /** The calls between two events, and the two at their ends. */
  lemma CallsBetween(es: seq<Event>, x: nat, y: nat)
    requires x < y < |es| && es[x].Acted? && es[y].Acted?
    ensures var calls := Calls(es);
            && PlaceOf(es, x) < PlaceOf(es, y) < |calls|
            && calls[PlaceOf(es, x)] == es[x].call && calls[PlaceOf(es, y)] == es[y].call
            && calls[PlaceOf(es, x) + 1..PlaceOf(es, y)] == Calls(es[x + 1..y])
  {
    hide Calls;
    CallsAround(es, y);
    CallsAround(es[..y], x);
    assert es[..y][..x] == es[..x] && es[..y][x + 1..] == es[x + 1..y];
  }

  lemma OneEvent(e: Event)
    ensures Calls([e]) == if e.Acted? then [e.call] else []
  {
  }

  lemma {:induction false} HeightSplit(a: seq<Call>, b: seq<Call>, task: nat)
    ensures Height(a + b, task) == Height(a, task) + Height(b, task)
    decreases |b|
  {
    hide Rise;
    if b == [] {
      assert a + b == a;
    } else {
      var n := |b| - 1;
      assert (a + b)[..|a| + n] == a + b[..n];
      HeightSplit(a, b[..n], task);
    }
  }

  lemma BracketsJoin(a: seq<Call>, b: seq<Call>, task: nat)
    requires Bracketed(a, task) && Bracketed(b, task)
    ensures Bracketed(a + b, task)
  {
    hide Height;
    HeightSplit(a, b, task);
    forall k | 0 <= k <= |a + b| ensures Height((a + b)[..k], task) >= 0 {
      if k <= |a| {
        assert (a + b)[..k] == a[..k];
      } else {
        assert (a + b)[..k] == a + b[..k - |a|];
        HeightSplit(a, b[..k - |a|], task);
      }
    }
  }

  /** The task's tracked requests and replies pair up, and no request of the task is passed. */
  ghost predicate Paired(es: seq<Event>, task: nat) {
    Bracketed(Calls(es), task) && forall e :: e in es && e.Passed? ==> e.who.task != task
  }

  /** Pairing is needed: the hook pops for every reply but pushes only flagged requests. A task sends a flagged
      request a and, nested in it, a request u that is not flagged; k answers u and j answers a. The reply to u
      takes the frame of a, and the reply to a does not get it. */
  lemma UntrackedReplyTakesTheFrame(es: seq<Event>, a: nat, u: nat, k: nat, j: nat)
    requires a < u < k < j < |es|
    requires es[a].Acted? && Tracked(es[a].call) && es[u].Passed?
    requires es[k].Acted? && es[k].call.Reply? && es[j].Acted? && es[j].call.Reply?
    requires var task := es[a].call.who.task;
             && task == es[u].who.task == es[k].call.who.task == es[j].call.who.task
             && Paired(es[a + 1..u], task) && Paired(es[u + 1..k], task) && Paired(es[k + 1..j], task)
    requires Ticketed(Calls(es)) && BenignRun(Calls(es))
    ensures var id := es[a].call.request.eventId;
            && PlaceOf(es, k) < PlaceOf(es, j) < |Calls(es)|
            && YieldAt(Calls(es), PlaceOf(es, k)) == id != YieldAt(Calls(es), PlaceOf(es, j))
  {
    hide Calls, Bracketed, YieldAt, BenignRun;
    var task := es[a].call.who.task;
    var calls := Calls(es);
    CallsBetween(es, a, k);
    CallsBetween(es, k, j);
    NestedBrackets(es, a, u, k, task);
    ReplyYieldsItsRequest(calls, PlaceOf(es, a), PlaceOf(es, k));
    EveryRun(calls);
    assert YieldOk(calls, PlaceOf(es, j));
  }

  lemma NestedBrackets(es: seq<Event>, a: nat, u: nat, k: nat, task: nat)
    requires a < u < k < |es| && es[u].Passed?
    requires Bracketed(Calls(es[a + 1..u]), task) && Bracketed(Calls(es[u + 1..k]), task)
    ensures Bracketed(Calls(es[a + 1..k]), task)
  {
    hide Bracketed;
    var before, after := es[a + 1..u], es[u + 1..k];
    assert es[a + 1..k] == before + ([es[u]] + after);
    CallsSplit(before, [es[u]] + after);
    CallsSplit([es[u]], after);
    OneEvent(es[u]);
    assert Calls([es[u]] + after) == Calls(after);
    BracketsJoin(Calls(before), Calls(after), task);
  }
}
