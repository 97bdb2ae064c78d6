/** The concurrent handlers of the hook, one atomic access at a time.

    Every handler brackets its use of the pending table with a bounded try-lock built from load-exclusive,
    store-exclusive and a releasing store. Between these, and between the single loads and stores of a push or
    a pop, any other task may run, the daemon may publish another HAL generation, and other events may take
    tickets. The state carries a log of calls in the order their critical sections end (dropped and one-way
    calls where they are decided); the theorems say that the log, run serially, is what happened. A counter is
    raised together with a neighbouring access of the same handler. */
module TryLock {
  import opened Numbers
  import opened Wrappers
  import opened PendingTable
  import opened PendingRuns
  import PendingRefinement

  const TRIES := 8

  datatype Op = PushOp(who: Identity, request: PendingTable.Request) | PopOp(who: Identity)

  /** How a critical section ends, with the generation it read (0 when it read none). */
  datatype Outcome =
    | DidPush(collision: bool, generation: nat)
    | DidOverflow
    | DidMiss
    | DidStale(generation: nat)
    | DidYield(eventId: nat, parcelFlags: nat, generation: nat)

  /** The next access of a handler that holds the lock. */
  datatype Stage =
    | Scanning(cursor: Cursor)
    | Claiming(place: Place, stores: nat)
    | Checking(index: nat, collision: bool)
    | Capturing(index: nat, depth: nat, collision: bool)
    | Tagging(index: nat, depth: nat, collision: bool, generation: nat)
    | Deepening(index: nat, depth: nat, collision: bool, generation: nat)
    | Looking(way: nat)
    | Taking(index: nat)
    | Comparing(index: nat, depth: nat, frame: Frame)
    | Clearing(index: nat, depth: nat, outcome: Outcome)
    | Leaving(outcome: Outcome)

  /** Where a task is. `Trying` is about to load-exclusive, `Loaded` saw the lock free and is about to
      store-exclusive; `Replying` carries what its pop yielded and its place in the log. */
  datatype Pc =
    | Idle
    | Trying(op: Op, left: nat)
    | Loaded(op: Op, left: nat)
    | Holding(op: Op, stage: Stage)
    | Replying(who: Identity, eventId: nat, parcelFlags: nat, at: nat)

  /** The HAL generation of the machine when a call began and when it ended: the acquisition and the release of
      its critical section, or for a call without one the moment it was decided; and those it had in between. */
  datatype Span = Span(entered: nat, left: nat, had: set<nat>)

  /** Besides the shared state and the tasks: the log, the span of each call in it, the generation at the last
      acquisition and all there have been since, and the operations issued. */
  datatype Machine = Machine(
    table: Table, counters: Counters, lock: bool, monitors: set<nat>, generation: nat, tickets: nat,
    tasks: map<nat, Pc>, log: seq<Call>, spans: seq<Span>, entered: nat, had: set<nat>, issued: seq<Op>)

  const START_STATE := Machine(INITIAL.table, ZERO, false, {}, 1, 0, map[], [], [], 1, {1}, [])

  function At(tasks: map<nat, Pc>, task: nat): Pc {
    if task in tasks then tasks[task] else Idle
  }

  datatype Step =
    | BeginRequest(who: Identity, request: PendingTable.Request)
    | BeginReply(who: Identity)
    | LoadExclusive(task: nat)
    | StoreExclusive(task: nat, spurious: bool)
    | Work(task: nat)
    | Release(task: nat)
    | CountAnswer(task: nat)
    | TakeTicket
    | SetGeneration(next: nat)

  predicate Enabled(m: Machine, step: Step) {
    match step
    case BeginRequest(who, r) => who.task != 0 && At(m.tasks, who.task).Idle? && DeviceId(r.parcelFlags)
    case BeginReply(who) => who.task != 0 && At(m.tasks, who.task).Idle?
    case LoadExclusive(t) => At(m.tasks, t).Trying?
    case StoreExclusive(t, _) => At(m.tasks, t).Loaded?
    case Work(t) => At(m.tasks, t).Holding? && !At(m.tasks, t).stage.Leaving?
    case Release(t) => At(m.tasks, t).Holding? && At(m.tasks, t).stage.Leaving?
    case CountAnswer(t) => At(m.tasks, t).Replying?
    case TakeTicket => true
    case SetGeneration(next) => next > m.generation
  }

  function CallOf(op: Op, acquired: bool, generation: nat): Call {
    match op
    case PushOp(who, r) => Call.Request(who, r, acquired, generation)
    case PopOp(who) => Call.Reply(who, acquired, generation)
  }

  function Goto(m: Machine, task: nat, pc: Pc): Machine {
    m.(tasks := m.tasks[task := pc])
  }

  function Now(m: Machine): Span { Span(m.generation, m.generation, {m.generation}) }

  /** A lost attempt: one try fewer, and after the last one the call is dropped. */
  function Lose(m: Machine, task: nat, op: Op, left: nat): Machine {
    if left > 1 then Goto(m, task, Trying(op, left - 1))
    else
      var dropped := m.(counters := m.counters.(lockDrops := m.counters.lockDrops + 1),
                        log := m.log + [CallOf(op, false, 0)], spans := m.spans + [Now(m)]);
      Goto(dropped, task, if op.PushOp? then Idle else Replying(op.who, 0, 0, |m.log|))
  }

  /** The stores that take a slot over, in order: task, pid, tgid, depth. */
  function Partly(s: Slot, who: Identity, stores: nat): Slot {
    if stores == 0 then s
    else if stores == 1 then s.(task := who.task)
    else if stores == 2 then s.(task := who.task, pid := who.pid)
    else if stores == 3 then s.(task := who.task, pid := who.pid, tgid := who.tgid)
    else Claimed(s, who)
  }

  /** One store of the claim. */
  function ClaimStore(s: Slot, who: Identity, k: nat): Slot {
    if k == 0 then s.(task := who.task)
    else if k == 1 then s.(pid := who.pid)
    else if k == 2 then s.(tgid := who.tgid)
    else s.(depth := 0)
  }

  function Enter(place: Place): Stage {
    if place.claim then Claiming(place, 0) else Checking(place.index, place.collision)
  }

  predicate InRange(t: Table, index: nat) { index < |t| && |t[index].frames| == DEPTH }

  /** One access inside the critical section: the table after it and the next stage. A stage that the code
      cannot be in stays where it is. */
  function Access(t: Table, generation: nat, op: Op, stage: Stage): (Table, Stage) {
    match (op, stage)
    case (PushOp(who, r), Scanning(c)) =>
      if |t| != SLOTS || c.way > WAYS then (t, stage)
      else if c.way == WAYS then (t, Enter(Settle(c)))
      else (match ExamineWay(t, who, c)
            case Going(next) => (t, Scanning(next))
            case Chosen(place) => (t, Enter(place)))
    case (PushOp(who, r), Claiming(place, k)) =>
      if !InRange(t, place.index) then (t, stage) else
      (t[place.index := ClaimStore(t[place.index], who, k)],
       if k < 3 then Claiming(place, k + 1) else Checking(place.index, place.collision))
    case (PushOp(who, r), Checking(i, collision)) =>
      if !InRange(t, i) then (t, stage) else
      var depth := t[i].depth;
      if depth >= DEPTH then (t, Leaving(DidOverflow))
      else (t[i := t[i].(frames := t[i].frames[depth := t[i].frames[depth].(request := r)])],
            Capturing(i, depth, collision))
    case (PushOp(who, r), Capturing(i, depth, collision)) =>
      (t, Tagging(i, depth, collision, generation))
    case (PushOp(who, r), Tagging(i, depth, collision, g)) =>
      if !InRange(t, i) || depth >= DEPTH then (t, stage) else
      (t[i := t[i].(frames := t[i].frames[depth := t[i].frames[depth].(generation := g)])],
       Deepening(i, depth, collision, g))
    case (PushOp(who, r), Deepening(i, depth, collision, g)) =>
      if !InRange(t, i) then (t, stage) else
      (t[i := t[i].(depth := depth + 1)], Leaving(DidPush(collision, g)))
    case (PopOp(who), Looking(way)) =>
      if |t| != SLOTS || way > WAYS then (t, stage)
      else if way == WAYS then (t, Leaving(DidMiss))
      else if t[BucketBase(who.task) + way].task == who.task then (t, Taking(BucketBase(who.task) + way))
      else (t, Looking(way + 1))
    case (PopOp(who), Taking(i)) =>
      if !InRange(t, i) || t[i].depth > DEPTH then (t, stage)
      else if t[i].depth == 0 then (t, Leaving(DidMiss))
      else (t[i := t[i].(depth := t[i].depth - 1)],
            Comparing(i, t[i].depth - 1, t[i].frames[t[i].depth - 1]))
    case (PopOp(who), Comparing(i, depth, frame)) =>
      (t, Clearing(i, depth,
                   if generation == frame.generation
                   then DidYield(frame.request.eventId, frame.request.parcelFlags, generation)
                   else DidStale(generation)))
    case (PopOp(who), Clearing(i, depth, outcome)) =>
      if !InRange(t, i) then (t, stage) else
      (if depth == 0 then t[i := t[i].(task := 0)] else t, Leaving(outcome))
    case _ => (t, stage)
  }

  /** The generation a critical section read, or the one at its end when it read none. */
  function GenerationOf(outcome: Outcome, now: nat): nat {
    match outcome
    case DidPush(_, g) => g
    case DidStale(g) => g
    case DidYield(_, _, g) => g
    case _ => now
  }

  function CountOutcome(c: Counters, outcome: Outcome): Counters {
    match outcome
    case DidPush(collision, _) =>
      c.(pushes := c.pushes + 1, collisions := c.collisions + if collision then 1 else 0)
    case DidOverflow => c.(overflows := c.overflows + 1)
    case DidMiss => c.(misses := c.misses + 1)
    case DidStale(_) => c.(generationStale := c.generationStale + 1)
    case DidYield(id, _, _) => if id != 0 then c.(pops := c.pops + 1) else c
  }

  function After(who: Identity, op: Op, outcome: Outcome, at: nat): Pc {
    if op.PushOp? then Idle
    else if outcome.DidYield? then Replying(who, outcome.eventId, outcome.parcelFlags, at)
    else Replying(who, 0, 0, at)
  }

  function Next(m: Machine, step: Step): Machine
    requires Enabled(m, step)
  {
    match step
    case BeginRequest(who, r) =>
      var request := r.(eventId := m.tickets + 1);
      var op := PushOp(who, request);
      var c := m.counters;
      var hit := m.(tickets := m.tickets + 1, issued := m.issued + [op],
                    counters := c.(requestHits := c.requestHits + 1));
      if Oneway(r) then
        hit.(counters := hit.counters.(onewayIgnored := c.onewayIgnored + 1), log := m.log + [CallOf(op, false, 0)],
             spans := m.spans + [Now(m)])
      else Goto(hit, who.task, Trying(op, TRIES))
    case BeginReply(who) =>
      Goto(m.(issued := m.issued + [PopOp(who)]), who.task, Trying(PopOp(who), TRIES))
    case LoadExclusive(t) =>
      var pc := m.tasks[t];
      if m.lock then Lose(m.(monitors := m.monitors - {t}), t, pc.op, pc.left)
      else Goto(m.(monitors := m.monitors + {t}), t, Loaded(pc.op, pc.left))
    case StoreExclusive(t, spurious) =>
      var pc := m.tasks[t];
      if t in m.monitors && !spurious then
        Goto(m.(lock := true, monitors := {}, entered := m.generation, had := {m.generation}), t,
             Holding(pc.op, if pc.op.PushOp? then Scanning(START) else Looking(0)))
      else Lose(m.(monitors := m.monitors - {t}), t, pc.op, pc.left)
    case Work(t) =>
      var pc := m.tasks[t];
      var (table, stage) := Access(m.table, m.generation, pc.op, pc.stage);
      Goto(m.(table := table), t, Holding(pc.op, stage))
    case Release(t) =>
      var pc := m.tasks[t];
      var outcome := pc.stage.outcome;
      Goto(m.(lock := false, monitors := {}, counters := CountOutcome(m.counters, outcome),
              log := m.log + [CallOf(pc.op, true, GenerationOf(outcome, m.generation))],
              spans := m.spans + [Span(m.entered, m.generation, m.had)]),
           t, After(pc.op.who, pc.op, outcome, |m.log|))
    case CountAnswer(t) =>
      var pc := m.tasks[t];
      Goto(m.(counters := CountReply(m.counters, pc.eventId, pc.parcelFlags)), t, Idle)
    case TakeTicket => m.(tickets := m.tickets + 1)
    case SetGeneration(next) => m.(generation := next, had := m.had + {next})
  }

  /** The machine after a sequence of steps, if each was possible. */
  function Exec(steps: seq<Step>): Option<Machine> {
    if steps == [] then Some(START_STATE) else
    match Exec(steps[..|steps| - 1])
    case None => None
    case Some(m) => if Enabled(m, steps[|steps| - 1]) then Some(Next(m, steps[|steps| - 1])) else None
  }

  // ---- Invariant ----

  /** What a push has in the table before it looks at the depth. */
  function Opened(base: Table, p: Place, who: Identity): Slot
    requires p.index < |base|
  {
    if p.claim then Claimed(base[p.index], who) else base[p.index]
  }

  /** The table of a lock holder, in terms of the table it found. */
  ghost predicate StageOk(t: Table, base: Table, op: Op, stage: Stage)
    requires TableOk(base)
  {
    var who := op.who;
    var p := Locate(base, who);
    match stage
    case Scanning(c) => op.PushOp? && t == base && CursorOk(base, who, c)
    case Claiming(place, k) =>
      op.PushOp? && place == p && p.claim && k <= 3 && t == base[p.index := Partly(base[p.index], who, k)]
    case Checking(i, collision) =>
      op.PushOp? && i == p.index && collision == p.collision && t == base[i := Opened(base, p, who)]
    case Capturing(i, depth, collision) =>
      && op.PushOp? && i == p.index && collision == p.collision
      && var s := Opened(base, p, who);
      depth == s.depth < DEPTH
      && t == base[i := s.(frames := s.frames[depth := s.frames[depth].(request := op.request)])]
    case Tagging(i, depth, collision, g) =>
      && op.PushOp? && i == p.index && collision == p.collision
      && var s := Opened(base, p, who);
      depth == s.depth < DEPTH
      && t == base[i := s.(frames := s.frames[depth := s.frames[depth].(request := op.request)])]
    case Deepening(i, depth, collision, g) =>
      && op.PushOp? && i == p.index && collision == p.collision
      && var s := Opened(base, p, who);
      depth == s.depth < DEPTH
      && t == base[i := s.(frames := s.frames[depth := Frame(op.request, g)])]
    case Looking(way) =>
      && op.PopOp? && t == base && way <= WAYS
      && forall j :: BucketBase(who.task) <= j < BucketBase(who.task) + way ==> base[j].task != who.task
    case Taking(i) =>
      op.PopOp? && t == base && Found(base, who.task) == Some(i)
    case Comparing(i, depth, frame) =>
      && op.PopOp? && Found(base, who.task) == Some(i)
      && depth + 1 == base[i].depth && frame == base[i].frames[depth]
      && t == base[i := base[i].(depth := depth)]
    case Clearing(i, depth, outcome) =>
      && op.PopOp? && Found(base, who.task) == Some(i)
      && depth + 1 == base[i].depth
      && t == base[i := base[i].(depth := depth)]
      && outcome == Verdict(base[i].frames[depth], GenerationOf(outcome, 0))
    case Leaving(outcome) => Finished(t, base, op, outcome)
  }

  function Found(base: Table, task: nat): Option<nat>
    requires |base| == SLOTS
  {
    FindTask(base, BucketBase(task), BucketBase(task) + WAYS, task)
  }

  function Verdict(frame: Frame, generation: nat): Outcome {
    if generation == frame.generation
    then DidYield(frame.request.eventId, frame.request.parcelFlags, generation)
    else DidStale(generation)
  }

  /** A critical section about to end has done one atomic push or pop. */
  ghost predicate Finished(t: Table, base: Table, op: Op, outcome: Outcome)
    requires Shaped(base)
  {
    var g := GenerationOf(outcome, 0);
    match op
    case PushOp(who, r) =>
      (match Push(base, who, Frame(r, g))
       case Pushed(after, collision) => t == after && outcome == DidPush(collision, g)
       case Overflow(after) => t == after && outcome == DidOverflow)
    case PopOp(who) =>
      (match Pop(base, who.task, g)
       case Miss => t == base && outcome == DidMiss
       case Stale(after) => t == after && outcome == DidStale(g)
       case Yield(after, id, flags) => t == after && outcome == DidYield(id, flags, g))
  }

  lemma ScanKept(t: Table, base: Table, generation: nat, op: Op, stage: Stage)
    requires TableOk(base) && op.PushOp? && op.who.task != 0 && StageOk(t, base, op, stage) && stage.Scanning?
    ensures var (t', stage') := Access(t, generation, op, stage); StageOk(t', base, op, stage')
  {
    var c := stage.cursor;
    if c.way < WAYS { ExamineWayCorrect(base, op.who, c); } else { SettleCorrect(base, op.who, c); }
    var p := Locate(base, op.who);
    assert base[p.index := base[p.index]] == base;
  }

  lemma ClaimKept(t: Table, base: Table, generation: nat, op: Op, stage: Stage)
    requires TableOk(base) && op.PushOp? && op.who.task != 0 && StageOk(t, base, op, stage)
    requires stage.Claiming? || stage.Checking? || stage.Capturing?
    ensures var (t', stage') := Access(t, generation, op, stage); StageOk(t', base, op, stage')
  {
    var p := Locate(base, op.who);
    assert SlotOk(base[p.index], p.index);
    if stage.Claiming? {
      assert ClaimStore(Partly(base[p.index], op.who, stage.stores), op.who, stage.stores)
          == Partly(base[p.index], op.who, stage.stores + 1);
    }
  }

  lemma FillKept(t: Table, base: Table, generation: nat, op: Op, stage: Stage)
    requires TableOk(base) && op.PushOp? && op.who.task != 0 && StageOk(t, base, op, stage)
    requires stage.Tagging? || stage.Deepening?
    ensures var (t', stage') := Access(t, generation, op, stage); StageOk(t', base, op, stage')
  {
    hide SlotOk, OneSlotPerTask, Locate, BucketBase, FindTask, CursorOk, Partly, ClaimStore, Enter;
    var p := Locate(base, op.who);
    var s := Opened(base, p, op.who);
    var d, g := stage.depth, stage.generation;
    var half := s.frames[d].(request := op.request);
    assert half.(generation := g) == Frame(op.request, g);
    assert s.frames[d := half][d := Frame(op.request, g)] == s.frames[d := Frame(op.request, g)];
  }

  lemma PopStageKept(t: Table, base: Table, generation: nat, op: Op, stage: Stage)
    requires TableOk(base) && op.PopOp? && op.who.task != 0 && StageOk(t, base, op, stage) && !stage.Leaving?
    ensures var (t', stage') := Access(t, generation, op, stage); StageOk(t', base, op, stage')
  {
    hide BucketBase, Increasing, OneSlotPerTask;
    if !stage.Looking? { TakenKept(t, base, generation, op, stage); }
  }

  lemma TakenKept(t: Table, base: Table, generation: nat, op: Op, stage: Stage)
    requires TableOk(base) && op.PopOp? && op.who.task != 0 && StageOk(t, base, op, stage)
    requires stage.Taking? || stage.Comparing? || stage.Clearing?
    ensures var (t', stage') := Access(t, generation, op, stage); StageOk(t', base, op, stage')
  {
    hide BucketBase, Increasing, OneSlotPerTask, FindTask, Locate, CursorOk, Opened, Partly, ClaimStore, Enter;
    assert SlotOk(base[stage.index], stage.index);
    assert base[stage.index := base[stage.index]] == base;
  }

  predicate Acting(pc: Pc) { pc.Trying? || pc.Loaded? || pc.Holding? }

  /** At most one task is inside a critical section, exactly while the lock word is set; an exclusive monitor
      is only armed while it is clear. */
  ghost predicate LockInv(m: Machine) {
    && (forall t :: t in m.tasks && m.tasks[t].Holding? ==> m.lock)
    && (forall t, u :: t in m.tasks && u in m.tasks && m.tasks[t].Holding? && m.tasks[u].Holding? ==> t == u)
    && (m.lock ==> exists t :: t in m.tasks && m.tasks[t].Holding?)
    && (forall t :: t in m.monitors ==> !m.lock)
    && (forall t :: t in m.tasks && (m.tasks[t].Trying? || m.tasks[t].Loaded?) ==> 1 <= m.tasks[t].left <= TRIES)
  }

  /** A step moves at most one task, and the lock word changes only with its entering or leaving. */
  lemma OneMoves(m: Machine, step: Step) returns (t: nat)
    requires LockInv(m) && Enabled(m, step)
    ensures var m' := Next(m, step);
            var before, after := At(m.tasks, t), At(m'.tasks, t);
            && (m'.tasks == m.tasks || m'.tasks == m.tasks[t := after])
            && (|| (m'.lock == m.lock && after.Holding? == before.Holding?
                    && forall u :: u in m'.monitors ==> u in m.monitors || !m.lock)
                || (!m.lock && m'.lock && !before.Holding? && after.Holding? && m'.monitors == {})
                || (m.lock && !m'.lock && before.Holding? && !after.Holding? && m'.monitors == {}))
            && (after.Trying? || after.Loaded? ==> 1 <= after.left <= TRIES)
  {
    hide Access, CountOutcome, CountReply, CallOf, GenerationOf, Now, Oneway, DeviceId;
    t := match step
      case BeginRequest(who, _) => who.task
      case BeginReply(who) => who.task
      case LoadExclusive(u) => u
      case StoreExclusive(u, _) => u
      case Work(u) => u
      case Release(u) => u
      case CountAnswer(u) => u
      case _ => 0;
  }

  lemma LockKept(m: Machine, step: Step)
    requires LockInv(m) && Enabled(m, step)
    ensures LockInv(Next(m, step))
  {
    hide Next, Enabled;
    var m' := Next(m, step);
    var t := OneMoves(m, step);
    if m.lock {
      var u :| u in m.tasks && m.tasks[u].Holding?;
      assert m'.lock ==> u in m'.tasks && m'.tasks[u].Holding?;
    } else if m'.lock {
      assert t in m'.tasks && m'.tasks[t].Holding?;
    }
  }

  /** The request of a push under way is newer than anything its task has in the log, and its id is in no
      other request. */
  ghost predicate NewRequest(m: Machine, r: PendingTable.Request, task: nat) {
    && !Oneway(r) && DeviceId(r.parcelFlags)
    && 0 < r.eventId <= m.tickets
    && forall i :: 0 <= i < |m.log| && m.log[i].Request? ==>
         && m.log[i].request.eventId != r.eventId
         && (m.log[i].who.task == task ==> m.log[i].request.eventId < r.eventId)
  }

  predicate Pushing(pc: Pc) { Acting(pc) && pc.op.PushOp? }

  ghost predicate LogInv(m: Machine) {
    && Ticketed(m.log)
    && (forall i :: 0 <= i < |m.log| && m.log[i].Request? ==> m.log[i].request.eventId <= m.tickets)
  }

  ghost predicate OwnInv(m: Machine) {
    forall t :: t in m.tasks && !m.tasks[t].Idle? ==>
      t != 0 && t == if m.tasks[t].Replying? then m.tasks[t].who.task else m.tasks[t].op.who.task
  }

  ghost predicate NewInv(m: Machine) {
    && (forall t :: t in m.tasks && Pushing(m.tasks[t]) ==> NewRequest(m, m.tasks[t].op.request, t))
    && (forall t, u :: t in m.tasks && u in m.tasks && t != u && Pushing(m.tasks[t]) && Pushing(m.tasks[u]) ==>
          m.tasks[t].op.request.eventId != m.tasks[u].op.request.eventId)
  }

  ghost predicate TicketInv(m: Machine) {
    LogInv(m) && OwnInv(m) && NewInv(m)
  }

  lemma OwnKept(m: Machine, step: Step)
    requires OwnInv(m) && Enabled(m, step)
    ensures OwnInv(Next(m, step))
  {
  }

  /** What a step adds to the log: nothing, a one-way request, or the call of the acting task, which is then no
      longer under way. */
  lemma LogGrowth(m: Machine, step: Step)
    requires OwnInv(m) && Enabled(m, step) && Next(m, step).log != m.log
    ensures exists call :: LoggedBy(m, step, call)
  {
    hide Access;
    var call := Next(m, step).log[|m.log|];
    assert LoggedBy(m, step, call);
  }

  ghost predicate LoggedBy(m: Machine, step: Step, call: Call)
    requires Enabled(m, step)
  {
    var m' := Next(m, step);
    && m'.log == m.log + [call]
    && call.who.task != 0
    && (call.Request? && step.BeginRequest? ==>
          && Oneway(call.request) && DeviceId(call.request.parcelFlags) && !call.acquired
          && call.request.eventId == m.tickets + 1)
    && (!step.BeginRequest? ==>
          && call.who.task in m.tasks && Acting(m.tasks[call.who.task])
          && m.tasks[call.who.task].op == (if call.Request? then PushOp(call.who, call.request) else PopOp(call.who))
          && m'.tasks.Keys == m.tasks.Keys
          && !Acting(m'.tasks[call.who.task]))
  }

  /** The log may grow by a call whose request id is new in it. */
  lemma TicketedAppend(log: seq<Call>, call: Call)
    requires Ticketed(log) && call.who.task != 0
    requires call.Request? ==> call.request.eventId != 0 && DeviceId(call.request.parcelFlags)
    requires call.Request? ==> forall i :: 0 <= i < |log| && log[i].Request? ==>
               && log[i].request.eventId != call.request.eventId
               && (log[i].who.task == call.who.task ==> log[i].request.eventId < call.request.eventId)
    ensures Ticketed(log + [call])
  {
  }

  lemma LogKept(m: Machine, step: Step)
    requires TicketInv(m) && Enabled(m, step)
    ensures LogInv(Next(m, step))
  {
    hide Access, Ticketed;
    var m' := Next(m, step);
    if m'.log != m.log {
      LogGrowth(m, step);
      var call :| LoggedBy(m, step, call);
      if call.Request? && !step.BeginRequest? {
        assert NewRequest(m, call.request, call.who.task);
      }
      TicketedAppend(m.log, call);
    }
  }

  lemma PushingBefore(m: Machine, step: Step, t: nat)
    requires Enabled(m, step) && t in Next(m, step).tasks && Pushing(Next(m, step).tasks[t])
    ensures var op := Next(m, step).tasks[t].op;
            if step.BeginRequest? && step.who.task == t then op.request.eventId == m.tickets + 1
            else t in m.tasks && Pushing(m.tasks[t]) && m.tasks[t].op == op
  {
  }

  lemma StillNew(m: Machine, step: Step, t: nat)
    requires TicketInv(m) && Enabled(m, step) && t in Next(m, step).tasks && Pushing(Next(m, step).tasks[t])
    ensures NewRequest(Next(m, step), Next(m, step).tasks[t].op.request, t)
  {
    hide Access;
    var m' := Next(m, step);
    PushingBefore(m, step, t);
    if m'.log != m.log {
      LogGrowth(m, step);
      var call :| LoggedBy(m, step, call);
    }
    if t in m.tasks && Pushing(m.tasks[t]) { assert NewRequest(m, m.tasks[t].op.request, t); }
  }

  lemma NewKept(m: Machine, step: Step)
    requires TicketInv(m) && Enabled(m, step)
    ensures NewInv(Next(m, step))
  {
    var m' := Next(m, step);
    forall t | t in m'.tasks && Pushing(m'.tasks[t])
      ensures NewRequest(m', m'.tasks[t].op.request, t)
    {
      StillNew(m, step, t);
    }
    forall t, u | t in m'.tasks && u in m'.tasks && t != u && Pushing(m'.tasks[t]) && Pushing(m'.tasks[u])
      ensures m'.tasks[t].op.request.eventId != m'.tasks[u].op.request.eventId
    {
      PushingBefore(m, step, t);
      PushingBefore(m, step, u);
      if t in m.tasks && Pushing(m.tasks[t]) { assert NewRequest(m, m.tasks[t].op.request, t); }
      if u in m.tasks && Pushing(m.tasks[u]) { assert NewRequest(m, m.tasks[u].op.request, u); }
    }
  }

  lemma TicketKept(m: Machine, step: Step)
    requires TicketInv(m) && Enabled(m, step)
    ensures TicketInv(Next(m, step))
  {
    OwnKept(m, step);
    LogKept(m, step);
    NewKept(m, step);
  }

  lemma Append(log: seq<Call>, call: Call)
    ensures Serial(log + [call]) == Serve(Serial(log), call).0
    ensures YieldAt(log + [call], |log|) == Serve(Serial(log), call).1
    ensures forall i :: 0 <= i < |log| ==> YieldAt(log + [call], i) == YieldAt(log, i)
  {
    var longer := log + [call];
    assert longer[..|log|] == log;
    forall i | 0 <= i < |log| ensures YieldAt(longer, i) == YieldAt(log, i) {
      assert longer[..i] == log[..i];
    }
  }

  /** Outside critical sections the table is what the log says; inside one it is what the finished part of one
      atomic push or pop makes of that. */
  ghost predicate TableInv(m: Machine) {
    && TableOk(Serial(m.log).table)
    && (!m.lock ==> m.table == Serial(m.log).table)
    && (forall t :: t in m.tasks && m.tasks[t].Holding? ==>
          StageOk(m.table, Serial(m.log).table, m.tasks[t].op, m.tasks[t].stage))
  }

  lemma StageKept(t: Table, base: Table, generation: nat, op: Op, stage: Stage)
    requires TableOk(base) && op.who.task != 0 && StageOk(t, base, op, stage) && !stage.Leaving?
    ensures var (t', stage') := Access(t, generation, op, stage); StageOk(t', base, op, stage')
  {
    hide Access, Locate, FindTask, CursorOk, TableOk;
    if op.PopOp? { PopStageKept(t, base, generation, op, stage); }
    else if stage.Scanning? { ScanKept(t, base, generation, op, stage); }
    else if stage.Tagging? || stage.Deepening? { FillKept(t, base, generation, op, stage); }
    else { ClaimKept(t, base, generation, op, stage); }
  }

  lemma LeavingFinished(t: Table, base: Table, op: Op, outcome: Outcome)
    requires TableOk(base) && StageOk(t, base, op, Leaving(outcome))
    ensures Finished(t, base, op, outcome)
  {
  }

  lemma WorkTable(m: Machine, t: nat)
    requires TicketInv(m) && LockInv(m) && TableInv(m) && Enabled(m, Work(t))
    ensures TableInv(Next(m, Work(t)))
  {
    hide Access, StageOk, TableOk, Serial, Ticketed;
    StageKept(m.table, Serial(m.log).table, m.generation, m.tasks[t].op, m.tasks[t].stage);
  }

  lemma FinishedIsServed(s: State, t: Table, op: Op, outcome: Outcome, now: nat)
    requires Shaped(s.table) && Finished(t, s.table, op, outcome)
    requires op.PushOp? ==> !Oneway(op.request)
    ensures Serve(s, CallOf(op, true, GenerationOf(outcome, now))).0.table == t
    ensures Serve(s, CallOf(op, true, GenerationOf(outcome, now))).1 == if outcome.DidYield? then outcome.eventId else 0
  {
  }

  lemma ReleaseTable(m: Machine, t: nat)
    requires TicketInv(m) && LockInv(m) && TableInv(m) && Enabled(m, Release(t))
    ensures TableInv(Next(m, Release(t)))
  {
    hide StageOk, Finished, Serve, RunOk, Ticketed;
    var op, outcome := m.tasks[t].op, m.tasks[t].stage.outcome;
    var m' := Next(m, Release(t));
    assert StageOk(m.table, Serial(m.log).table, op, m.tasks[t].stage);
    LeavingFinished(m.table, Serial(m.log).table, op, outcome);
    if op.PushOp? { assert NewRequest(m, op.request, t); }
    FinishedIsServed(Serial(m.log), m.table, op, outcome, m.generation);
    Append(m.log, CallOf(op, true, GenerationOf(outcome, m.generation)));
    LogKept(m, Release(t));
    EveryRun(m'.log);
  }

  /** A step that changes neither the table nor what the log makes of it, and lets nobody in. */
  lemma TableFrame(m: Machine, m': Machine)
    requires TableInv(m) && m'.table == m.table && Serial(m'.log).table == Serial(m.log).table
    requires m'.lock == m.lock
    requires forall t :: t in m'.tasks && m'.tasks[t].Holding? ==> t in m.tasks && m.tasks[t] == m'.tasks[t]
    ensures TableInv(m')
  {
  }

  lemma AcquireTable(m: Machine, t: nat)
    requires LockInv(m) && TicketInv(m) && TableInv(m) && Enabled(m, StoreExclusive(t, false)) && t in m.monitors
    ensures TableInv(Next(m, StoreExclusive(t, false)))
  {
    var m' := Next(m, StoreExclusive(t, false));
    var base := Serial(m.log).table;
    forall u | u in m'.tasks && m'.tasks[u].Holding?
      ensures StageOk(base, base, m'.tasks[u].op, m'.tasks[u].stage)
    {
      assert u == t;
      assert CursorOk(base, m.tasks[t].op.who, START);
    }
  }

  /** Dropped and one-way calls leave the table as it is. */
  lemma QuietCall(log: seq<Call>, op: Op)
    ensures Serial(log + [CallOf(op, false, 0)]).table == Serial(log).table
  {
  }

  lemma QuietStep(m: Machine, step: Step)
    requires Enabled(m, step) && !step.Work? && !step.Release?
    ensures Next(m, step).log == m.log || exists op :: Next(m, step).log == m.log + [CallOf(op, false, 0)]
    ensures Next(m, step).table == m.table
  {
  }

  lemma TableKept(m: Machine, step: Step)
    requires TicketInv(m) && LockInv(m) && TableInv(m) && Enabled(m, step)
    ensures TableInv(Next(m, step))
  {
    hide Access, StageOk, TableOk, Serial, Ticketed;
    if step.Work? {
      WorkTable(m, step.task);
    } else if step.Release? {
      ReleaseTable(m, step.task);
    } else if step.StoreExclusive? && step.task in m.monitors && !step.spurious {
      AcquireTable(m, step.task);
    } else {
      var m' := Next(m, step);
      QuietStep(m, step);
      if m'.log != m.log {
        var op :| m'.log == m.log + [CallOf(op, false, 0)];
        QuietCall(m.log, op);
      }
      TableFrame(m, m');
    }
  }

  // ---- Answers, counters and order ----

  /** A reply under way carries what its call yields in the serial run. */
  ghost predicate AnswerInv(m: Machine) {
    forall t :: t in m.tasks && m.tasks[t].Replying? ==> AnswerOk(m.log, m.tasks[t])
  }

  ghost predicate AnswerOk(log: seq<Call>, pc: Pc)
    requires pc.Replying?
  {
    pc.at < |log| && log[pc.at].Reply? && log[pc.at].who == pc.who && YieldAt(log, pc.at) == pc.eventId
  }

  lemma NewAnswer(m: Machine, step: Step, t: nat)
    requires TicketInv(m) && LockInv(m) && TableInv(m) && Enabled(m, step)
    requires t in Next(m, step).tasks && Next(m, step).tasks[t].Replying?
    requires !(t in m.tasks && m.tasks[t].Replying?)
    ensures AnswerOk(Next(m, step).log, Next(m, step).tasks[t])
  {
    hide StageOk, Finished, Serve, YieldAt, Serial, TableOk, Ticketed;
    var op := m.tasks[t].op;
    if step.Release? {
      var outcome := m.tasks[t].stage.outcome;
      assert StageOk(m.table, Serial(m.log).table, op, m.tasks[t].stage);
      LeavingFinished(m.table, Serial(m.log).table, op, outcome);
      FinishedIsServed(Serial(m.log), m.table, op, outcome, m.generation);
      Append(m.log, CallOf(op, true, GenerationOf(outcome, m.generation)));
    } else {
      Append(m.log, CallOf(op, false, 0));
      DroppedAnswer(Serial(m.log), op);
    }
  }

  lemma DroppedAnswer(s: State, op: Op)
    requires Shaped(s.table)
    ensures Serve(s, CallOf(op, false, 0)).1 == 0
  {
  }

  lemma AnswerKept(m: Machine, step: Step)
    requires TicketInv(m) && LockInv(m) && TableInv(m) && AnswerInv(m) && Enabled(m, step)
    ensures AnswerInv(Next(m, step))
  {
    var m' := Next(m, step);
    forall t | t in m'.tasks && m'.tasks[t].Replying? ensures AnswerOk(m'.log, m'.tasks[t]) {
      if t in m.tasks && m.tasks[t].Replying? {
        OldAnswer(m, step, t);
      } else {
        NewAnswer(m, step, t);
      }
    }
  }

  lemma OldAnswer(m: Machine, step: Step, t: nat)
    requires AnswerInv(m) && Enabled(m, step)
    requires t in m.tasks && m.tasks[t].Replying? && t in Next(m, step).tasks && Next(m, step).tasks[t].Replying?
    ensures AnswerOk(Next(m, step).log, Next(m, step).tasks[t])
  {
    hide Access, YieldAt, Serial;
    var m' := Next(m, step);
    assert m'.tasks[t] == m.tasks[t];
    if m'.log != m.log {
      var call := m'.log[|m.log|];
      assert m'.log == m.log + [call];
      Append(m.log, call);
    }
  }

  predicate Unanswered(pc: Pc) { pc.Replying? && pc.eventId == 0 }

  predicate Correlating(pc: Pc) { pc.Replying? && pc.eventId != 0 && DeviceId(pc.parcelFlags) }

  ghost function PushingTasks(tasks: map<nat, Pc>): set<nat> {
    set t | t in tasks && Pushing(tasks[t])
  }

  ghost function UnansweredTasks(tasks: map<nat, Pc>): set<nat> {
    set t | t in tasks && Unanswered(tasks[t])
  }

  ghost function CorrelatingTasks(tasks: map<nat, Pc>): set<nat> {
    set t | t in tasks && Correlating(tasks[t])
  }

  lemma SetUpdate(before: set<nat>, after: set<nat>, t: nat)
    requires forall u :: u != t ==> (u in before <==> u in after)
    ensures |after| == |before| - One(t in before) + One(t in after)
  {
    var rest := before - {t};
    assert before == if t in before then rest + {t} else rest;
    assert after == if t in after then rest + {t} else rest;
  }

  /** The counts move with the acting task only. */
  lemma CountsOf(tasks: map<nat, Pc>, t: nat, pc: Pc)
    ensures |PushingTasks(tasks[t := pc])| ==
            |PushingTasks(tasks)| - One(Pushing(At(tasks, t))) + One(Pushing(pc))
    ensures |UnansweredTasks(tasks[t := pc])| ==
            |UnansweredTasks(tasks)| - One(Unanswered(At(tasks, t))) + One(Unanswered(pc))
    ensures |CorrelatingTasks(tasks[t := pc])| ==
            |CorrelatingTasks(tasks)| - One(Correlating(At(tasks, t))) + One(Correlating(pc))
  {
    var tasks' := tasks[t := pc];
    SetUpdate(PushingTasks(tasks), PushingTasks(tasks'), t);
    SetUpdate(UnansweredTasks(tasks), UnansweredTasks(tasks'), t);
    SetUpdate(CorrelatingTasks(tasks), CorrelatingTasks(tasks'), t);
  }

  /** The counters are those of the serial run, but for handlers that have counted a hit and not yet decided
      their push, or have left the critical section and not yet counted their reply. */
  ghost predicate Settled(actual: Counters, tasks: map<nat, Pc>, serial: Counters) {
    actual.(withoutPending := actual.withoutPending + |UnansweredTasks(tasks)|,
            correlated := actual.correlated + |CorrelatingTasks(tasks)|)
    == serial.(requestHits := serial.requestHits + |PushingTasks(tasks)|)
  }

  /** The log entry of a step, as far as the serial counters go. */
  function Logged(c: Counters, m: Machine, step: Step): Counters
    requires Enabled(m, step)
  {
    match step
    case BeginRequest(_, r) =>
      if Oneway(r) then c.(requestHits := c.requestHits + 1, onewayIgnored := c.onewayIgnored + 1) else c
    case LoadExclusive(t) => if m.lock then Lost(c, m.tasks[t].op, m.tasks[t].left) else c
    case StoreExclusive(t, spurious) =>
      if t in m.monitors && !spurious then c else Lost(c, m.tasks[t].op, m.tasks[t].left)
    case Release(t) => Ended(c, m.tasks[t].op, m.tasks[t].stage.outcome)
    case _ => c
  }

  function Lost(c: Counters, op: Op, left: nat): Counters {
    if left > 1 then c
    else if op.PushOp? then c.(requestHits := c.requestHits + 1, lockDrops := c.lockDrops + 1)
    else CountReply(c.(lockDrops := c.lockDrops + 1), 0, 0)
  }

  /** A finished critical section counts its outcome, the hit before it or the answer after it. */
  function Ended(c: Counters, op: Op, outcome: Outcome): Counters {
    if op.PushOp? then CountOutcome(c.(requestHits := c.requestHits + 1), outcome)
    else CountReply(CountOutcome(c, outcome), if outcome.DidYield? then outcome.eventId else 0,
                    if outcome.DidYield? then outcome.parcelFlags else 0)
  }

  lemma LostCounters(m: Machine, t: nat, op: Op, left: nat, c: Counters)
    requires Settled(m.counters, m.tasks, c)
    requires At(m.tasks, t) == Trying(op, left) || At(m.tasks, t) == Loaded(op, left)
    ensures Settled(Lose(m, t, op, left).counters, Lose(m, t, op, left).tasks, Lost(c, op, left))
  {
    CountsOf(m.tasks, t, Lose(m, t, op, left).tasks[t]);
  }

  lemma EndedCounters(actual: Counters, tasks: map<nat, Pc>, t: nat, op: Op, outcome: Outcome, at: nat, c: Counters)
    requires Settled(actual, tasks, c)
    requires At(tasks, t) == Holding(op, Leaving(outcome))
    requires op.PushOp? <==> outcome.DidPush? || outcome.DidOverflow?
    ensures Settled(CountOutcome(actual, outcome), tasks[t := After(op.who, op, outcome, at)], Ended(c, op, outcome))
  {
    CountsOf(tasks, t, After(op.who, op, outcome, at));
  }

  lemma SettledKept(m: Machine, step: Step, c: Counters)
    requires Settled(m.counters, m.tasks, c) && Enabled(m, step)
    requires step.Release? ==>
               (m.tasks[step.task].op.PushOp? <==>
                  m.tasks[step.task].stage.outcome.DidPush? || m.tasks[step.task].stage.outcome.DidOverflow?)
    ensures Settled(Next(m, step).counters, Next(m, step).tasks, Logged(c, m, step))
  {
    hide Settled, Next, Logged;
    if step.LoadExclusive? || step.StoreExclusive? {
      SettledByAttempt(m, step, c);
    } else {
      SettledElsewhere(m, step, c);
    }
  }

  lemma SettledByAttempt(m: Machine, step: Step, c: Counters)
    requires Settled(m.counters, m.tasks, c) && Enabled(m, step) && (step.LoadExclusive? || step.StoreExclusive?)
    ensures Settled(Next(m, step).counters, Next(m, step).tasks, Logged(c, m, step))
  {
    hide Access, PushingTasks, UnansweredTasks, CorrelatingTasks, Lose, Lost;
    var t := step.task;
    var op, left := m.tasks[t].op, m.tasks[t].left;
    LostCounters(m.(monitors := m.monitors - {t}), t, op, left, c);
    CountsOf(m.tasks, t, Loaded(op, left));
    CountsOf(m.tasks, t, Holding(op, if op.PushOp? then Scanning(START) else Looking(0)));
  }

  lemma SettledElsewhere(m: Machine, step: Step, c: Counters)
    requires Settled(m.counters, m.tasks, c) && Enabled(m, step) && !step.LoadExclusive? && !step.StoreExclusive?
    requires step.Release? ==>
               (m.tasks[step.task].op.PushOp? <==>
                  m.tasks[step.task].stage.outcome.DidPush? || m.tasks[step.task].stage.outcome.DidOverflow?)
    ensures Settled(Next(m, step).counters, Next(m, step).tasks, Logged(c, m, step))
  {
    hide Access, PushingTasks, UnansweredTasks, CorrelatingTasks, Lose, Lost;
    match step {
      case BeginRequest(who, r) =>
        CountsOf(m.tasks, who.task, Trying(PushOp(who, r.(eventId := m.tickets + 1)), TRIES));
      case BeginReply(who) => CountsOf(m.tasks, who.task, Trying(PopOp(who), TRIES));
      case Work(t) =>
        var op := m.tasks[t].op;
        CountsOf(m.tasks, t, Holding(op, Access(m.table, m.generation, op, m.tasks[t].stage).1));
      case Release(t) =>
        EndedCounters(m.counters, m.tasks, t, m.tasks[t].op, m.tasks[t].stage.outcome, |m.log|, c);
      case CountAnswer(t) => CountsOf(m.tasks, t, Idle);
      case _ =>
    }
  }


  lemma EndedServed(s: State, t: Table, op: Op, outcome: Outcome, now: nat)
    requires Shaped(s.table) && Finished(t, s.table, op, outcome)
    requires op.PushOp? ==> !Oneway(op.request)
    ensures Serve(s, CallOf(op, true, GenerationOf(outcome, now))).0.counters == Ended(s.counters, op, outcome)
    ensures op.PushOp? <==> outcome.DidPush? || outcome.DidOverflow?
  {
  }

  ghost predicate CounterInv(m: Machine) {
    Settled(m.counters, m.tasks, Serial(m.log).counters)
  }

  lemma LostSerial(m: Machine, t: nat, op: Op, left: nat)
    requires op.PushOp? ==> !Oneway(op.request)
    ensures Serial(Lose(m, t, op, left).log).counters == Lost(Serial(m.log).counters, op, left)
  {
  }

  lemma SerialCounters(m: Machine, step: Step)
    requires TicketInv(m) && TableInv(m) && Enabled(m, step) && !step.Release?
    ensures Serial(Next(m, step).log).counters == Logged(Serial(m.log).counters, m, step)
  {
    hide Access, StageOk, Serial, TableOk, Ticketed;
    match step {
      case BeginRequest(who, r) =>
        Append(m.log, CallOf(PushOp(who, r.(eventId := m.tickets + 1)), false, 0));
      case LoadExclusive(t) =>
        if m.tasks[t].op.PushOp? { assert NewRequest(m, m.tasks[t].op.request, t); }
        LostSerial(m.(monitors := m.monitors - {t}), t, m.tasks[t].op, m.tasks[t].left);
      case StoreExclusive(t, _) =>
        if m.tasks[t].op.PushOp? { assert NewRequest(m, m.tasks[t].op.request, t); }
        LostSerial(m.(monitors := m.monitors - {t}), t, m.tasks[t].op, m.tasks[t].left);
      case _ =>
    }
  }

  lemma ReleaseCounters(m: Machine, t: nat)
    requires TicketInv(m) && TableInv(m) && CounterInv(m) && Enabled(m, Release(t))
    ensures CounterInv(Next(m, Release(t)))
  {
    hide Finished, Serve, Settled, Ticketed, TableOk;
    var op, outcome := m.tasks[t].op, m.tasks[t].stage.outcome;
    var s := Serial(m.log);
    assert StageOk(m.table, s.table, op, m.tasks[t].stage);
    LeavingFinished(m.table, s.table, op, outcome);
    if op.PushOp? { assert NewRequest(m, op.request, t); }
    EndedServed(s, m.table, op, outcome, m.generation);
    Append(m.log, CallOf(op, true, GenerationOf(outcome, m.generation)));
    SettledKept(m, Release(t), s.counters);
  }

  lemma CounterKept(m: Machine, step: Step)
    requires TicketInv(m) && TableInv(m) && CounterInv(m) && Enabled(m, step)
    ensures CounterInv(Next(m, step))
  {
    if step.Release? {
      ReleaseCounters(m, step.task);
    } else {
      SerialCounters(m, step);
      SettledKept(m, step, Serial(m.log).counters);
    }
  }

  /** The operations a task has issued, in the order it issued them. */
  function IssuedBy(ops: seq<Op>, t: nat): seq<Op> {
    if ops == [] then [] else
    var op := ops[|ops| - 1];
    var earlier := IssuedBy(ops[..|ops| - 1], t);
    if op.who.task == t then earlier + [op] else earlier
  }

  function OpOf(call: Call): Op {
    match call
    case Request(who, r, _, _) => PushOp(who, r)
    case Reply(who, _, _) => PopOp(who)
  }

  function LoggedFor(log: seq<Call>, t: nat): seq<Op> {
    if log == [] then [] else
    var call := log[|log| - 1];
    var earlier := LoggedFor(log[..|log| - 1], t);
    if call.who.task == t then earlier + [OpOf(call)] else earlier
  }

  /** Task by task the log is the program order, without the operation still under way. */
  ghost predicate OrderInv(m: Machine) {
    forall t :: OrderFor(m, t)
  }

  lemma OrderAppend(ops: seq<Op>, op: Op, log: seq<Call>, call: Call, t: nat)
    ensures IssuedBy(ops + [op], t) == if op.who.task == t then IssuedBy(ops, t) + [op] else IssuedBy(ops, t)
    ensures LoggedFor(log + [call], t) ==
            if call.who.task == t then LoggedFor(log, t) + [OpOf(call)] else LoggedFor(log, t)
  {
  }

  lemma OrderKept(m: Machine, step: Step)
    requires OwnInv(m) && OrderInv(m) && Enabled(m, step)
    ensures OrderInv(Next(m, step))
  {
    forall t ensures OrderFor(Next(m, step), t) {
      assert OrderFor(m, t);
      OrderKeptFor(m, step, t);
    }
  }

  ghost predicate OrderFor(m: Machine, t: nat) {
    var pc := At(m.tasks, t);
    IssuedBy(m.issued, t) == if Acting(pc) then LoggedFor(m.log, t) + [pc.op] else LoggedFor(m.log, t)
  }

  lemma LoseOrder(m: Machine, u: nat, t: nat)
    requires OwnInv(m) && OrderFor(m, t) && Acquiring(At(m.tasks, u))
    ensures OrderFor(Lose(m, u, At(m.tasks, u).op, At(m.tasks, u).left), t)
  {
    hide IssuedBy, LoggedFor;
    var op := m.tasks[u].op;
    OrderAppend(m.issued, op, m.log, CallOf(op, false, 0), t);
  }

  lemma ReleaseOrder(m: Machine, u: nat, t: nat)
    requires OwnInv(m) && OrderFor(m, t) && Enabled(m, Release(u))
    ensures OrderFor(Next(m, Release(u)), t)
  {
    hide IssuedBy, LoggedFor, CountOutcome, GenerationOf;
    var op, outcome := m.tasks[u].op, m.tasks[u].stage.outcome;
    OrderAppend(m.issued, op, m.log, CallOf(op, true, GenerationOf(outcome, m.generation)), t);
  }

  lemma BeginOrder(m: Machine, step: Step, t: nat)
    requires OwnInv(m) && OrderFor(m, t) && Enabled(m, step) && (step.BeginRequest? || step.BeginReply?)
    ensures OrderFor(Next(m, step), t)
  {
    hide IssuedBy, LoggedFor;
    var op := if step.BeginReply? then PopOp(step.who)
              else PushOp(step.who, step.request.(eventId := m.tickets + 1));
    OrderAppend(m.issued, op, m.log, CallOf(op, false, 0), t);
  }

  lemma OrderKeptFor(m: Machine, step: Step, t: nat)
    requires OwnInv(m) && OrderFor(m, t) && Enabled(m, step)
    ensures OrderFor(Next(m, step), t)
  {
    hide Access, IssuedBy, LoggedFor, Lose;
    match step {
      case LoadExclusive(u) => LoseOrder(m.(monitors := m.monitors - {u}), u, t);
      case StoreExclusive(u, _) => LoseOrder(m.(monitors := m.monitors - {u}), u, t);
      case Release(u) => ReleaseOrder(m, u, t);
      case BeginRequest(_, _) => BeginOrder(m, step, t);
      case BeginReply(_) => BeginOrder(m, step, t);
      case _ =>
    }
  }

  predicate Acquiring(pc: Pc) { pc.Trying? || pc.Loaded? }

  // ---- Generations ----

  /** The generation a critical section has read, if it has come to that. */
  function ReadSoFar(stage: Stage): Option<nat> {
    match stage
    case Tagging(_, _, _, g) => Some(g)
    case Deepening(_, _, _, g) => Some(g)
    case Clearing(_, _, outcome) => Some(GenerationOf(outcome, 0))
    case Leaving(outcome) => if outcome.DidOverflow? || outcome.DidMiss? then None else Some(GenerationOf(outcome, 0))
    case _ => None
  }

  ghost predicate Between(span: Span) {
    forall g :: g in span.had ==> span.entered <= g <= span.left
  }

  /** Each call that had the lock carries a generation the machine had in its critical section, and these
      sections follow each other. */
  ghost predicate SpansOk(log: seq<Call>, spans: seq<Span>) {
    && |spans| == |log|
    && (forall i :: 0 <= i < |log| && log[i].acquired ==>
          log[i].generation in spans[i].had && Between(spans[i]))
    && forall i, j :: 0 <= i < j < |log| && log[i].acquired && log[j].acquired ==> spans[i].left <= spans[j].entered
  }

  ghost predicate LeftBy(log: seq<Call>, spans: seq<Span>, now: nat)
    requires |spans| == |log|
  {
    forall i :: 0 <= i < |log| && log[i].acquired ==> spans[i].left <= now
  }

  /** What a critical section has read is a generation there has been since its beginning. */
  ghost predicate ReadInv(m: Machine) {
    && m.generation in m.had && Between(Span(m.entered, m.generation, m.had))
    && forall t :: t in m.tasks && m.tasks[t].Holding? && ReadSoFar(m.tasks[t].stage).Some? ==>
         ReadSoFar(m.tasks[t].stage).value in m.had
  }

  ghost predicate GenerationInv(m: Machine) {
    && ReadInv(m) && SpansOk(m.log, m.spans)
    && LeftBy(m.log, m.spans, if m.lock then m.entered else m.generation)
  }

  /** An access reads the generation of the machine or none. */
  lemma AccessReads(t: Table, generation: nat, op: Op, stage: Stage)
    ensures var after := ReadSoFar(Access(t, generation, op, stage).1);
            after.None? || after == Some(generation) || after == ReadSoFar(stage)
  {
    hide BucketBase, Settle, ExamineWay, ClaimStore;
  }

  lemma SpansAppend(log: seq<Call>, spans: seq<Span>, call: Call, span: Span)
    requires SpansOk(log, spans)
    requires call.acquired ==> call.generation in span.had && Between(span)
    requires call.acquired ==> forall i :: 0 <= i < |log| && log[i].acquired ==> spans[i].left <= span.entered
    ensures SpansOk(log + [call], spans + [span])
  {
  }

  lemma ReadKept(m: Machine, step: Step)
    requires LockInv(m) && ReadInv(m) && Enabled(m, step)
    ensures ReadInv(Next(m, step))
  {
    hide Access;
    if step.Work? {
      AccessReads(m.table, m.generation, m.tasks[step.task].op, m.tasks[step.task].stage);
    }
  }

  /** What a step adds to the log and the spans: nothing, a call without the lock, or the call of the section that
      ends. */
  lemma SpanGrowth(m: Machine, step: Step)
    requires Enabled(m, step) && |m.spans| == |m.log|
    ensures var m', n := Next(m, step), |m.log|;
            if m'.log == m.log then m'.spans == m.spans && !step.Release?
            else |m'.log| == |m'.spans| == n + 1
                 && m'.log == m.log + [m'.log[n]] && m'.spans == m.spans + [m'.spans[n]]
                 && (m'.log[n].acquired <==> step.Release?)
                 && (step.Release? ==>
                       && m'.spans[n] == Span(m.entered, m.generation, m.had)
                       && m'.log[n].generation == GenerationOf(m.tasks[step.task].stage.outcome, m.generation))
  {
    hide Access;
  }

  lemma GenerationKept(m: Machine, step: Step)
    requires LockInv(m) && GenerationInv(m) && Enabled(m, step)
    ensures GenerationInv(Next(m, step))
  {
    hide Access, SpansOk;
    var m', n := Next(m, step), |m.log|;
    assert |m.spans| == |m.log| by { SpansMatch(m.log, m.spans); }
    ReadKept(m, step);
    SpanGrowth(m, step);
    LockChange(m, step);
    if m'.log != m.log {
      SpansAppend(m.log, m.spans, m'.log[n], m'.spans[n]);
    }
  }

  lemma SpansMatch(log: seq<Call>, spans: seq<Span>)
    requires SpansOk(log, spans)
    ensures |spans| == |log|
  {
  }

  /** The bound on finished sections only grows. */
  lemma LockChange(m: Machine, step: Step)
    requires LockInv(m) && ReadInv(m) && Enabled(m, step)
    ensures var m' := Next(m, step);
            && (if m.lock then m.entered else m.generation) <= (if m'.lock then m'.entered else m'.generation)
            && (step.Release? ==> m.lock && !m'.lock && m'.generation == m.generation)
  {
    hide Access;
  }

  /** A reply whose critical section begins after the HAL generation has changed never yields an id pushed before
      the change. */
  lemma ChangeInvalidates(log: seq<Call>, spans: seq<Span>, i: nat, j: nat)
    requires Ticketed(log) && RunOk(log) && SpansOk(log, spans) && i < |log| && j < |log|
    requires Tracked(log[i]) && log[i].acquired && log[j].acquired && spans[i].left < spans[j].entered
    ensures YieldAt(log, j) != log[i].request.eventId
  {
    hide YieldAt, TableOk, Serial;
    assert YieldOk(log, j);
  }

  ghost predicate Inv(m: Machine) {
    && LockInv(m) && TicketInv(m) && TableInv(m) && AnswerInv(m) && CounterInv(m) && OrderInv(m)
    && GenerationInv(m)
  }

  lemma Start()
    ensures Inv(START_STATE)
  {
  }

  /** Every interleaving keeps the invariant. */
  lemma {:induction false} EveryInterleaving(steps: seq<Step>)
    requires Exec(steps).Some?
    ensures Inv(Exec(steps).value)
  {
    if steps == [] {
      Start();
    } else {
      var n := |steps| - 1;
      EveryInterleaving(steps[..n]);
      var m, step := Exec(steps[..n]).value, steps[n];
      LockKept(m, step);
      TicketKept(m, step);
      TableKept(m, step);
      AnswerKept(m, step);
      CounterKept(m, step);
      OrderKept(m, step);
      GenerationKept(m, step);
    }
  }

  ghost predicate Quiescent(m: Machine) {
    forall t :: t in m.tasks ==> m.tasks[t].Idle?
  }

  /** Try-lock serialisability. In every interleaving at most one task is inside a push or a pop; each reply
      under way carries what the serial run of the log yields for it; every call carries a generation the machine
      had in its critical section, so that a reply that begins after a change of generation yields nothing pushed
      before it; each task's calls are in the log in program order; and once no handler is in flight the table and
      all counters are those of the serial run, so that the conservation laws hold. */
  lemma Serialisable(steps: seq<Step>)
    requires Exec(steps).Some?
    ensures var m := Exec(steps).value;
            && Ticketed(m.log) && RunOk(m.log)
            && (forall t, u :: t in m.tasks && u in m.tasks && m.tasks[t].Holding? && m.tasks[u].Holding? ==> t == u)
            && (forall t :: t in m.tasks && m.tasks[t].Replying? ==> AnswerOk(m.log, m.tasks[t]))
            && SpansOk(m.log, m.spans)
            && (forall i, j :: 0 <= i < |m.log| && 0 <= j < |m.log| && Tracked(m.log[i]) && m.log[i].acquired
                               && m.log[j].acquired && m.spans[i].left < m.spans[j].entered ==>
                  YieldAt(m.log, j) != m.log[i].request.eventId)
            && (Quiescent(m) ==>
                  && State(m.table, m.counters) == Serial(m.log)
                  && Conserved(State(m.table, m.counters))
                  && forall t :: LoggedFor(m.log, t) == IssuedBy(m.issued, t))
  {
    EveryInterleaving(steps);
    var m := Exec(steps).value;
    EveryRun(m.log);
    EveryRunConserves(m.log);
    forall i, j | 0 <= i < |m.log| && 0 <= j < |m.log| && Tracked(m.log[i]) && m.log[i].acquired
                  && m.log[j].acquired && m.spans[i].left < m.spans[j].entered
      ensures YieldAt(m.log, j) != m.log[i].request.eventId
    {
      ChangeInvalidates(m.log, m.spans, i, j);
    }
    if Quiescent(m) {
      assert PushingTasks(m.tasks) == UnansweredTasks(m.tasks) == CorrelatingTasks(m.tasks) == {};
      forall t ensures LoggedFor(m.log, t) == IssuedBy(m.issued, t) {
        assert OrderFor(m, t) && !Acting(At(m.tasks, t));
      }
    }
  }

  /** In an interleaving whose log is benign a reply under way carries the id of a tracked request if and only if
      it is the reply to it. */
  lemma ReplyCarriesItsRequest(steps: seq<Step>, t: nat, i: nat)
    requires Exec(steps).Some? && t in Exec(steps).value.tasks && Exec(steps).value.tasks[t].Replying?
    requires var m := Exec(steps).value; PendingRefinement.BenignRun(m.log) && i < |m.log| && Tracked(m.log[i])
    ensures var m := Exec(steps).value;
            m.tasks[t].eventId == m.log[i].request.eventId <==> PendingRefinement.Matches(m.log, i, m.tasks[t].at)
  {
    hide YieldAt, PendingRefinement.Matches, PendingRefinement.BenignRun;
    Serialisable(steps);
    var m := Exec(steps).value;
    PendingRefinement.ReplyYieldsItsRequest(m.log, i, m.tasks[t].at);
  }
}
