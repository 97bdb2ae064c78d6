/** The pending correlation table of the Binder hook: 256 slots in 32 buckets of eight ways, each slot a
    stack of at most four request frames owned by one task pointer.

    `Push` and `Pop` are the specification, on values: find the slot with a search per question (own slot?
    free slot? oldest slot?). The emitted code makes one pass over the bucket instead; `ExamineWay` is one
    turn of that pass and `Cursor` what it has in registers. `PendingArea` runs the pass on the slots in
    place and is proved to do what `Push` and `Pop` say. */
module PendingTable {
  import opened Wrappers

  const BUCKETS := 32
  const WAYS := 8
  const SLOTS := 256
  const DEPTH := 4

  /** The part of a frame copied from the request: the event id and the transaction fields. */
  datatype Request = Request(eventId: nat, target: nat, dataSize: nat, code: nat, flags: nat, parcelFlags: nat)

  datatype Frame = Frame(request: Request, generation: nat)

  datatype Slot = Slot(task: nat, pid: nat, tgid: nat, depth: nat, frames: seq<Frame>)

  type Table = seq<Slot>

  /** The running task: its pointer, never null, and the two ids read through it. */
  datatype Identity = Identity(task: nat, pid: nat, tgid: nat)

  function Live(s: Slot): seq<Frame>
    requires s.depth <= |s.frames|
  {
    s.frames[..s.depth]
  }

  ghost predicate Increasing(frames: seq<Frame>) {
    forall i, j :: 0 <= i < j < |frames| ==> frames[i].request.eventId < frames[j].request.eventId
  }

  function BucketBase(task: nat): (base: nat)
    ensures base + WAYS <= SLOTS
  {
    task / 64 % BUCKETS * WAYS
  }

  /** What holds of one slot: an empty slot has no frames; an occupied one lies in its task's bucket and
      holds one to four frames whose event ids increase upwards. */
  ghost predicate SlotOk(s: Slot, index: nat) {
    && |s.frames| == DEPTH
    && (s.task == 0 ==> s.depth == 0)
    && (s.task != 0 ==>
          && 1 <= s.depth <= DEPTH
          && BucketBase(s.task) <= index < BucketBase(s.task) + WAYS
          && Increasing(Live(s)))
  }

  ghost predicate OneSlotPerTask(t: Table) {
    forall i, j :: 0 <= i < j < |t| && t[i].task != 0 ==> t[i].task != t[j].task
  }

  ghost predicate TableOk(t: Table) {
    && Shaped(t)
    && (forall i :: 0 <= i < |t| ==> SlotOk(t[i], i))
    && OneSlotPerTask(t)
  }

  /** Four frame places in every slot, at most all of them in use. */
  predicate Shaped(t: Table) {
    |t| == SLOTS && forall i :: 0 <= i < |t| ==> |t[i].frames| == DEPTH && t[i].depth <= DEPTH
  }

  /** The event id on top of a slot's stack, 0 when the stack is empty. */
  function TopId(s: Slot): nat {
    if 0 < s.depth <= |s.frames| then s.frames[s.depth - 1].request.eventId else 0
  }

  function FindTask(t: Table, lo: nat, hi: nat, task: nat): (r: Option<nat>)
    requires lo <= hi <= |t|
    ensures r.Some? ==> lo <= r.value < hi && t[r.value].task == task
    ensures r.Some? ==> forall j :: lo <= j < r.value ==> t[j].task != task
    ensures r.None? ==> forall j :: lo <= j < hi ==> t[j].task != task
    decreases hi - lo
  {
    if lo == hi then None else if t[lo].task == task then Some(lo) else FindTask(t, lo + 1, hi, task)
  }

  /** The first slot with the least top id among lo..hi. */
  function Oldest(t: Table, lo: nat, hi: nat): (r: nat)
    requires lo < hi <= |t|
    ensures lo <= r < hi
    ensures forall j :: lo <= j < hi ==> TopId(t[r]) <= TopId(t[j])
  {
    if hi == lo + 1 then lo else
    var p := Oldest(t, lo, hi - 1);
    if TopId(t[hi - 1]) < TopId(t[p]) then hi - 1 else p
  }

  /** Where a push goes: an index, whether the slot is taken over with an empty stack, and whether that
      throws away frames of somebody else. */
  datatype Place = Place(index: nat, claim: bool, collision: bool)

  function Judge(s: Slot, index: nat, who: Identity): Place {
    if s.pid == who.pid && s.tgid == who.tgid then Place(index, false, false) else Place(index, true, true)
  }

  function Locate(t: Table, who: Identity): (p: Place)
    requires |t| == SLOTS
    ensures BucketBase(who.task) <= p.index < BucketBase(who.task) + WAYS
    ensures p.collision ==> p.claim
  {
    var base := BucketBase(who.task);
    match FindTask(t, base, base + WAYS, who.task)
    case Some(i) => Judge(t[i], i, who)
    case None =>
      match FindTask(t, base, base + WAYS, 0)
      case Some(e) => Place(e, true, false)
      case None => Place(Oldest(t, base, base + WAYS), true, true)
  }

  datatype PushResult = Pushed(table: Table, collision: bool) | Overflow(table: Table)

  function Claimed(s: Slot, who: Identity): Slot {
    Slot(who.task, who.pid, who.tgid, 0, s.frames)
  }

  function Push(t: Table, who: Identity, frame: Frame): PushResult
    requires Shaped(t)
  {
    var p := Locate(t, who);
    var s := if p.claim then Claimed(t[p.index], who) else t[p.index];
    if s.depth >= DEPTH then Overflow(t[p.index := s])
    else Pushed(t[p.index := s.(frames := s.frames[s.depth := frame], depth := s.depth + 1)], p.collision)
  }

  datatype PopResult = Miss | Stale(table: Table) | Yield(table: Table, eventId: nat, parcelFlags: nat)

  /** The slot after its top frame is taken; a slot without frames is given back. */
  function Popped(s: Slot): Slot
    requires s.depth > 0
  {
    s.(depth := s.depth - 1, task := if s.depth == 1 then 0 else s.task)
  }

  function Pop(t: Table, task: nat, generation: nat): PopResult
    requires Shaped(t)
  {
    var base := BucketBase(task);
    match FindTask(t, base, base + WAYS, task)
    case None => Miss
    case Some(i) =>
      if t[i].depth == 0 then Miss else
      var frame := t[i].frames[t[i].depth - 1];
      var after := t[i := Popped(t[i])];
      if frame.generation == generation then Yield(after, frame.request.eventId, frame.request.parcelFlags)
      else Stale(after)
  }

  // ---- What the table means ----

  /** What the table holds for one task pointer. */
  datatype Stack = Stack(pid: nat, tgid: nat, frames: seq<Frame>)

  /** What the table holds for a task: the table read as a partial map from task pointer to stack. */
  function Held(t: Table, task: nat): Option<Stack>
    requires Shaped(t)
  {
    match FindTask(t, BucketBase(task), BucketBase(task) + WAYS, task)
    case None => None
    case Some(i) => Some(Stack(t[i].pid, t[i].tgid, Live(t[i])))
  }

  /** A task is held exactly where its slot is. */
  lemma HeldAt(t: Table, i: nat)
    requires TableOk(t) && i < |t| && t[i].task != 0
    ensures BucketBase(t[i].task) <= i < BucketBase(t[i].task) + WAYS
    ensures FindTask(t, BucketBase(t[i].task), BucketBase(t[i].task) + WAYS, t[i].task) == Some(i)
    ensures Held(t, t[i].task) == Some(Stack(t[i].pid, t[i].tgid, Live(t[i])))
  {
  }

  ghost predicate Replaceable(t: Table, i: nat, s: Slot)
    requires |t| == SLOTS
  {
    i < |t| && SlotOk(s, i) && forall j :: 0 <= j < |t| && j != i && s.task != 0 ==> t[j].task != s.task
  }

  lemma SlotUpdateKeeps(t: Table, i: nat, s: Slot)
    requires TableOk(t) && Replaceable(t, i, s)
    ensures TableOk(t[i := s])
  {
  }

  /** Slot i changes owner or contents, and no other slot has the new owner: only the old and the new owner
      notice. */
  lemma SlotUpdateOther(t: Table, i: nat, s: Slot, task: nat)
    requires TableOk(t) && Replaceable(t, i, s) && TableOk(t[i := s])
    requires task != 0 && task != s.task
    ensures Held(t[i := s], task) == if task == t[i].task then None else Held(t, task)
  {
    var u := t[i := s];
    var base := BucketBase(task);
    match FindTask(u, base, base + WAYS, task) {
      case Some(j) => HeldAt(t, j);
      case None =>
        match FindTask(t, base, base + WAYS, task) {
          case None =>
          case Some(j) =>
            assert u[j].task != task;
            HeldAt(t, j);
        }
    }
  }

  lemma SlotUpdate(t: Table, i: nat, s: Slot)
    requires TableOk(t) && Replaceable(t, i, s)
    ensures TableOk(t[i := s])
    ensures s.task != 0 ==> Held(t[i := s], s.task) == Some(Stack(s.pid, s.tgid, Live(s)))
    ensures t[i].task != 0 && t[i].task != s.task ==> Held(t[i := s], t[i].task) == None
    ensures forall task :: task != 0 && task != s.task && task != t[i].task ==> Held(t[i := s], task) == Held(t, task)
  {
    SlotUpdateKeeps(t, i, s);
    if s.task != 0 { HeldAt(t[i := s], i); }
    forall task | task != 0 && task != s.task
      ensures Held(t[i := s], task) == if task == t[i].task then None else Held(t, task)
    {
      SlotUpdateOther(t, i, s, task);
    }
  }

  /** What a push makes of the stack of its task: the frames that stay below the new one. */
  function Below(t: Table, who: Identity): Stack
    requires Shaped(t)
  {
    match Held(t, who.task)
    case Some(own) => if own.pid == who.pid && own.tgid == who.tgid then own else Stack(who.pid, who.tgid, [])
    case None => Stack(who.pid, who.tgid, [])
  }

  /** The slot a push settles on holds the frames that stay below the new one. */
  lemma SlotBelow(t: Table, who: Identity)
    requires TableOk(t) && who.task != 0
    ensures var p := Locate(t, who);
            var s := if p.claim then Claimed(t[p.index], who) else t[p.index];
            && s.depth <= DEPTH == |s.frames| && (s.task, s.pid, s.tgid) == (who.task, who.pid, who.tgid)
            && Below(t, who) == Stack(s.pid, s.tgid, Live(s))
            && (s.depth == DEPTH ==> s == t[p.index])
            && (t[p.index].task != 0 && t[p.index].task != who.task ==> p.collision)
  {
  }

  /** With the new frame stored it is a slot of its task, and the only one. */
  lemma PushedSlot(t: Table, who: Identity, frame: Frame)
    requires TableOk(t) && who.task != 0
    requires forall f :: f in Below(t, who).frames ==> f.request.eventId < frame.request.eventId
    ensures var p := Locate(t, who);
            var s := if p.claim then Claimed(t[p.index], who) else t[p.index];
            s.depth < DEPTH ==>
              Replaceable(t, p.index, s.(frames := s.frames[s.depth := frame], depth := s.depth + 1))
  {
    hide BucketBase, Oldest, FindTask;
    var p := Locate(t, who);
    var s := if p.claim then Claimed(t[p.index], who) else t[p.index];
    SlotBelow(t, who);
    if s.depth < DEPTH {
      var s' := s.(frames := s.frames[s.depth := frame], depth := s.depth + 1);
      assert Live(s') == Live(s) + [frame];
      forall j: nat | j < |t| && j != p.index ensures t[j].task != who.task {
        if t[j].task == who.task { HeldAt(t, j); }
      }
    }
  }

  /** A push puts its frame on top of what its task already holds under the same pid and tgid, or refuses
      when that is four frames; besides its own task it touches only the one it evicts. The table keeps its
      invariant when the event id is newer than every id of the task. */
  lemma PushMeaning(t: Table, who: Identity, frame: Frame)
    requires TableOk(t) && who.task != 0
    requires forall f :: f in Below(t, who).frames ==> f.request.eventId < frame.request.eventId
    ensures TableOk(Push(t, who, frame).table)
    ensures var own := Below(t, who);
            var victim := t[Locate(t, who).index].task;
            match Push(t, who, frame)
            case Overflow(after) => |own.frames| == DEPTH && after == t
            case Pushed(after, collision) =>
              && |own.frames| < DEPTH
              && Held(after, who.task) == Some(own.(frames := own.frames + [frame]))
              && (victim != 0 && victim != who.task ==> collision && Held(after, victim) == None)
              && forall task :: task != 0 && task != who.task && task != victim ==> Held(after, task) == Held(t, task)
  {
    hide BucketBase, FindTask, Oldest, Held;
    var p := Locate(t, who);
    var s := if p.claim then Claimed(t[p.index], who) else t[p.index];
    SlotBelow(t, who);
    if s.depth < DEPTH {
      SlotUpdate(t, p.index, s.(frames := s.frames[s.depth := frame], depth := s.depth + 1)) by {
        PushedSlot(t, who, frame);
      }
      assert Live(s.(frames := s.frames[s.depth := frame], depth := s.depth + 1)) == Live(s) + [frame];
    } else {
      assert t[p.index := s] == t;
    }
  }

  /** Which slot a push takes: its own when the task has one, a free one when the bucket has one, and
      otherwise the slot whose newest frame is the oldest of the eight. It counts a collision exactly when
      that throws frames away: another task's, or those of a dead task with the same pointer. */
  lemma PlaceMeaning(t: Table, who: Identity)
    requires TableOk(t) && who.task != 0
    ensures var p := Locate(t, who);
            var base := BucketBase(who.task);
            match Held(t, who.task)
            case Some(own) =>
              && t[p.index].task == who.task
              && p.claim == p.collision
              && (p.collision <==> own.pid != who.pid || own.tgid != who.tgid)
            case None =>
              && p.claim
              && (!p.collision ==> t[p.index].task == 0)
              && (p.collision ==>
                    && (forall j :: base <= j < base + WAYS ==> t[j].task != 0)
                    && (forall j :: base <= j < base + WAYS ==> TopId(t[p.index]) <= TopId(t[j])))
  {
  }

  /** An eviction is of the task that has waited longest: the newest request of every task with the same eight slots
      is at least as new as the newest one of the task that is thrown out. */
  lemma EvictsTheOldest(t: Table, who: Identity, other: nat)
    requires TableOk(t) && who.task != 0 && Held(t, who.task) == None && Locate(t, who).collision
    requires other != 0 && SameLine(other, who.task) && Held(t, other).Some?
    ensures var victim := t[Locate(t, who).index].task;
            && victim != 0 && Held(t, victim).Some?
            && var out, stays := Held(t, victim).value.frames, Held(t, other).value.frames;
               && 0 < |out| <= 4 && 0 < |stays| <= 4
               && out[|out| - 1].request.eventId <= stays[|stays| - 1].request.eventId
  {
    hide SameLine, BucketBase, FindTask, Locate, Oldest;
    LinesAreDisjoint(other, who.task);
    PlaceMeaning(t, who);
    var p, base := Locate(t, who), BucketBase(who.task);
    assert SlotOk(t[p.index], p.index);
    HeldAt(t, p.index);
    var j := FindTask(t, base, base + WAYS, other).value;
    assert SlotOk(t[j], j);
  }

  /** A pop removes the newest frame of the task, if it has one, and yields its id exactly when the frame
      carries the current generation; a task without frames leaves the table, and no other task notices. */
  lemma PopMeaning(t: Table, task: nat, generation: nat)
    requires TableOk(t) && task != 0
    ensures match Pop(t, task, generation)
            case Miss => Held(t, task) == None
            case Stale(after) =>
              && PoppedFrom(t, task, after)
              && Newest(t, task).generation != generation
            case Yield(after, id, flags) =>
              && PoppedFrom(t, task, after)
              && Newest(t, task).generation == generation
              && Newest(t, task).request.eventId == id && Newest(t, task).request.parcelFlags == flags
              && forall f :: f in Under(t, task) ==> f.request.eventId < id
  {
    hide BucketBase, Increasing, Live, PoppedFrom, Under, Newest;
    var base := BucketBase(task);
    match FindTask(t, base, base + WAYS, task) {
      case None =>
      case Some(i) =>
        assert SlotOk(t[i], i);
        SlotPopped(t, i);
    }
  }

  lemma PushKeeps(t: Table, who: Identity, frame: Frame)
    requires TableOk(t) && who.task != 0
    requires forall f :: f in Below(t, who).frames ==> f.request.eventId < frame.request.eventId
    ensures TableOk(Push(t, who, frame).table)
  {
    hide TableOk, Push, Below;
    PushMeaning(t, who, frame);
  }

  lemma PopKeeps(t: Table, task: nat, generation: nat)
    requires TableOk(t) && task != 0
    ensures var p := Pop(t, task, generation); !p.Miss? ==> TableOk(p.table)
  {
    hide TableOk, Pop;
    PopMeaning(t, task, generation);
  }

  lemma PoppedSlot(s: Slot, index: nat)
    requires SlotOk(s, index) && s.task != 0
    ensures s.depth > 0 && SlotOk(Popped(s), index)
    ensures var live := Live(s);
            && Live(Popped(s)) == live[..s.depth - 1]
            && live == live[..s.depth - 1] + [s.frames[s.depth - 1]]
            && forall f :: f in live[..s.depth - 1] ==> f.request.eventId < TopId(s)
  {
  }

  lemma SlotPopped(t: Table, i: nat)
    requires TableOk(t) && i < |t| && t[i].task != 0
    ensures t[i].depth > 0 && PoppedFrom(t, t[i].task, t[i := Popped(t[i])])
    ensures Newest(t, t[i].task) == t[i].frames[t[i].depth - 1]
    ensures forall f :: f in Under(t, t[i].task) ==> f.request.eventId < TopId(t[i])
  {
    hide BucketBase, FindTask, Increasing;
    assert SlotOk(t[i], i);
    PoppedSlot(t[i], i);
    HeldAt(t, i);
    SlotUpdate(t, i, Popped(t[i]));
  }

  /** The frames below the newest one. */
  ghost function Under(t: Table, task: nat): seq<Frame>
    requires TableOk(t) && task != 0 && Held(t, task).Some?
  {
    var i := FindTask(t, BucketBase(task), BucketBase(task) + WAYS, task).value;
    assert SlotOk(t[i], i);
    Live(t[i])[..t[i].depth - 1]
  }

  ghost function Newest(t: Table, task: nat): Frame
    requires TableOk(t) && task != 0 && Held(t, task).Some?
  {
    var i := FindTask(t, BucketBase(task), BucketBase(task) + WAYS, task).value;
    assert SlotOk(t[i], i);
    Live(t[i])[t[i].depth - 1]
  }

  ghost predicate PoppedFrom(t: Table, task: nat, after: Table)
    requires TableOk(t) && task != 0
  {
    && TableOk(after)
    && Held(t, task).Some?
    && Held(t, task).value.frames == Under(t, task) + [Newest(t, task)]
    && Held(after, task) ==
       (if |Under(t, task)| == 0 then None else Some(Held(t, task).value.(frames := Under(t, task))))
    && forall other :: other != 0 && other != task ==> Held(after, other) == Held(t, other)
  }

  // ---- The single pass of the emitted code ----

  /** Registers of the pass: ways seen, first empty slot, least recently used slot and its top id. */
  datatype Cursor = Cursor(way: nat, empty: Option<nat>, oldest: Option<nat>, oldestId: nat)

  datatype Scan = Going(cursor: Cursor) | Chosen(place: Place)

  const START := Cursor(0, None, None, 0)

  function ExamineWay(t: Table, who: Identity, c: Cursor): Scan
    requires |t| == SLOTS && c.way < WAYS
  {
    var index := BucketBase(who.task) + c.way;
    var s := t[index];
    var next := c.(way := c.way + 1);
    if s.task == 0 then Going(if c.empty.None? then next.(empty := Some(index)) else next)
    else if s.task == who.task then Chosen(Judge(s, index, who))
    else if s.depth == 0 || c.oldest.None? || TopId(s) < c.oldestId then
      Going(next.(oldest := Some(index), oldestId := TopId(s)))
    else Going(next)
  }

  /** After the pass: the free slot, or else the least recently used one. */
  function Settle(c: Cursor): Place {
    match c.empty
    case Some(e) => Place(e, true, false)
    case None => Place(if c.oldest.Some? then c.oldest.value else 0, true, true)
  }

  ghost predicate CursorOk(t: Table, who: Identity, c: Cursor)
    requires |t| == SLOTS
  {
    var base := BucketBase(who.task);
    && c.way <= WAYS
    && (forall j :: base <= j < base + c.way ==> t[j].task != who.task)
    && (match c.empty
        case Some(e) => base <= e < base + c.way && t[e].task == 0 && forall j :: base <= j < e ==> t[j].task != 0
        case None => forall j :: base <= j < base + c.way ==> t[j].task != 0)
    && (c.empty.None? && c.way > 0 ==>
          && c.oldest == Some(Oldest(t, base, base + c.way))
          && c.oldestId == TopId(t[c.oldest.value]))
    && (c.way == 0 ==> c == START)
  }

  lemma OldestNext(t: Table, lo: nat, hi: nat)
    requires lo <= hi < |t|
    ensures Oldest(t, lo, hi + 1) ==
            if lo < hi && TopId(t[Oldest(t, lo, hi)]) <= TopId(t[hi]) then Oldest(t, lo, hi) else hi
  {
  }

  lemma NextWay(t: Table, who: Identity, c: Cursor)
    requires Shaped(t) && c.way < WAYS && CursorOk(t, who, c)
    requires var s := t[BucketBase(who.task) + c.way]; s.task != who.task && (s.task != 0 ==> s.depth > 0)
    ensures ExamineWay(t, who, c).Going? && CursorOk(t, who, ExamineWay(t, who, c).cursor)
  {
    hide BucketBase, Increasing, Oldest, TopId;
    OldestNext(t, BucketBase(who.task), BucketBase(who.task) + c.way);
  }

  /** One turn of the pass keeps what the registers mean, and a slot it settles on is the one the three
      searches find. */
  lemma ExamineWayCorrect(t: Table, who: Identity, c: Cursor)
    requires TableOk(t) && who.task != 0 && c.way < WAYS && CursorOk(t, who, c)
    ensures match ExamineWay(t, who, c)
            case Going(next) => CursorOk(t, who, next) && next.way == c.way + 1
            case Chosen(place) => place == Locate(t, who)
  {
    hide BucketBase, Increasing, Oldest, CursorOk, FindTask, TopId;
    var index := BucketBase(who.task) + c.way;
    assert SlotOk(t[index], index);
    if t[index].task == who.task {
      FoundHere(t, who, c);
    } else {
      NextWay(t, who, c);
    }
  }

  lemma FoundHere(t: Table, who: Identity, c: Cursor)
    requires |t| == SLOTS && c.way < WAYS && CursorOk(t, who, c)
    requires t[BucketBase(who.task) + c.way].task == who.task
    ensures var base := BucketBase(who.task); FindTask(t, base, base + WAYS, who.task) == Some(base + c.way)
  {
    hide BucketBase, Oldest, TopId, FindTask;
  }

  lemma StartOk(t: Table, who: Identity)
    requires |t| == SLOTS
    ensures CursorOk(t, who, START)
  {
  }

  lemma SettleCorrect(t: Table, who: Identity, c: Cursor)
    requires |t| == SLOTS && who.task != 0 && c.way == WAYS && CursorOk(t, who, c)
    ensures Settle(c) == Locate(t, who) && (c.empty.Some? || c.oldest.Some?)
  {
    hide BucketBase, Oldest, TopId;
  }

  // ---- Which slots a task may use ----

  /** Bit i of a number. */
  function Bit(n: nat, i: nat): nat {
    if i == 0 then n % 2 else Bit(n / 2, i - 1)
  }

  /** Two pointers that agree in bits 6 to 10. */
  ghost predicate SameLine(a: nat, b: nat) {
    forall i :: 6 <= i <= 10 ==> Bit(a, i) == Bit(b, i)
  }

  lemma SixHalves(n: nat, i: nat)
    ensures Bit(n, 6 + i) == Bit(n / 64, i)
  {
    var n3 := n / 2 / 2 / 2;
    assert n / 64 == n3 / 2 / 2 / 2;
    assert Bit(n, 6 + i) == Bit(n / 2, 5 + i) == Bit(n / 2 / 2, 4 + i) == Bit(n3, 3 + i);
    assert Bit(n3, 3 + i) == Bit(n3 / 2, 2 + i) == Bit(n3 / 2 / 2, 1 + i) == Bit(n3 / 2 / 2 / 2, i);
  }

  lemma FiveHalves(n: nat)
    ensures n % 32 == Bit(n, 0) + 2 * Bit(n, 1) + 4 * Bit(n, 2) + 8 * Bit(n, 3) + 16 * Bit(n, 4)
    ensures forall i :: 0 <= i <= 4 ==> 0 <= Bit(n, i) <= 1
  {
    hide Bit;
    LowBits(n);
    var n1, n2, n3, n4 := n / 2, n / 2 / 2, n / 2 / 2 / 2, n / 2 / 2 / 2 / 2;
    Halved(n);
    Halved(n1);
    Halved(n2);
    Halved(n3);
    Halved(n4);
    FiveDigits(n4 / 2, n % 2, n1 % 2, n2 % 2, n3 % 2, n4 % 2);
    assert forall i :: 0 <= i <= 4 ==> i == 0 || i == 1 || i == 2 || i == 3 || Bit(n, i) == Bit(n, 4);
  }

  lemma Halved(n: nat)
    ensures n == 2 * (n / 2) + n % 2 && n % 2 <= 1
  {
  }

  lemma LowBits(n: nat)
    ensures Bit(n, 0) == n % 2 && Bit(n, 1) == n / 2 % 2 && Bit(n, 2) == n / 2 / 2 % 2
    ensures Bit(n, 3) == n / 2 / 2 / 2 % 2 && Bit(n, 4) == n / 2 / 2 / 2 / 2 % 2
  {
    var n1, n2, n3 := n / 2, n / 2 / 2, n / 2 / 2 / 2;
    assert Bit(n, 2) == Bit(n1, 1);
    assert Bit(n, 3) == Bit(n1, 2) == Bit(n2, 1);
    assert Bit(n, 4) == Bit(n1, 3) == Bit(n2, 2) == Bit(n3, 1);
  }

  lemma FiveDigits(q: nat, b0: nat, b1: nat, b2: nat, b3: nat, b4: nat)
    requires b0 <= 1 && b1 <= 1 && b2 <= 1 && b3 <= 1 && b4 <= 1
    ensures (2 * (2 * (2 * (2 * (2 * q + b4) + b3) + b2) + b1) + b0) % 32 == b0 + 2 * b1 + 4 * b2 + 8 * b3 + 16 * b4
  {
    var r := b0 + 2 * b1 + 4 * b2 + 8 * b3 + 16 * b4;
    assert 2 * (2 * (2 * (2 * (2 * q + b4) + b3) + b2) + b1) + b0 == 32 * q + r && r < 32;
  }

  lemma DigitsAreUnique(a0: nat, a1: nat, a2: nat, a3: nat, a4: nat, b0: nat, b1: nat, b2: nat, b3: nat, b4: nat)
    requires a0 <= 1 && a1 <= 1 && a2 <= 1 && a3 <= 1 && a4 <= 1
    requires b0 <= 1 && b1 <= 1 && b2 <= 1 && b3 <= 1 && b4 <= 1
    ensures a0 + 2 * a1 + 4 * a2 + 8 * a3 + 16 * a4 == b0 + 2 * b1 + 4 * b2 + 8 * b3 + 16 * b4 <==>
            a0 == b0 && a1 == b1 && a2 == b2 && a3 == b3 && a4 == b4
  {
  }

  lemma LineIsRemainder(a: nat, b: nat)
    ensures SameLine(a, b) <==> a / 64 % 32 == b / 64 % 32
  {
    hide Bit;
    var x, y := a / 64, b / 64;
    FiveHalves(x);
    FiveHalves(y);
    DigitsAreUnique(Bit(x, 0), Bit(x, 1), Bit(x, 2), Bit(x, 3), Bit(x, 4),
                    Bit(y, 0), Bit(y, 1), Bit(y, 2), Bit(y, 3), Bit(y, 4));
    forall i | 6 <= i <= 10 ensures Bit(a, i) == Bit(x, i - 6) && Bit(b, i) == Bit(y, i - 6) {
      SixHalves(a, i - 6);
      SixHalves(b, i - 6);
    }
    if SameLine(a, b) {
      assert Bit(a, 6) == Bit(b, 6) && Bit(a, 7) == Bit(b, 7) && Bit(a, 8) == Bit(b, 8);
      assert Bit(a, 9) == Bit(b, 9) && Bit(a, 10) == Bit(b, 10);
    }
  }

  /** Two tasks have the same eight slots when their pointers agree in bits 6 to 10, and otherwise none in common. */
  lemma LinesAreDisjoint(a: nat, b: nat)
    ensures SameLine(a, b) ==> BucketBase(a) == BucketBase(b)
    ensures !SameLine(a, b) ==> BucketBase(a) + 8 <= BucketBase(b) || BucketBase(b) + 8 <= BucketBase(a)
  {
    hide SameLine;
    LineIsRemainder(a, b);
  }
}
