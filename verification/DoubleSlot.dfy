/** Double-slot publication of the runtime configuration and of the HAL identity set. The publisher fills the
    slot that is not active, one or more cells at a time, counts the switch, and flips the active index; hooked
    threads capture the index once and then read cells of that slot whenever they come to it. */
module DoubleSlot {
  import opened Wrappers

  const IDENTITY_LIMIT := 4
  const ID_BYTES := 32

  /** What a slot can hold. */
  datatype Content =
    | Runtime(generation: nat, seed: nat, fingerprint: nat, mode: nat, length: nat, virtualId: seq<nat>)
    | Identities(generation: nat, count: nat, tgids: seq<nat>)

  predicate ValidIdentities(generation: nat, count: nat, tgids: seq<nat>) {
    && generation != 0 && count <= IDENTITY_LIMIT == |tgids|
    && (forall i :: 0 <= i < count ==> tgids[i] != 0)
    && (forall i, j :: 0 <= i < j < count ==> tgids[i] < tgids[j])
    && (forall i :: count <= i < IDENTITY_LIMIT ==> tgids[i] == 0)
  }

  /** What the publishers accept. */
  predicate Valid(c: Content) {
    match c
    case Runtime(generation, seed, fingerprint, mode, length, id) =>
      generation != 0 && seed != 0 && fingerprint != 0 && mode <= 1 && length == ID_BYTES == |id|
    case Identities(generation, count, tgids) => ValidIdentities(generation, count, tgids)
  }

  const PADDING := [0, 0, 0, 0, 0, 0, 0, 0, 0, 0, 0, 0, 0, 0, 0, 0, 0, 0, 0, 0, 0, 0, 0, 0, 0, 0, 0, 0, 0, 0, 0, 0]

  /** The cells of a slot, generation first. */
  function Cells(c: Content): seq<nat> {
    match c
    case Runtime(generation, seed, fingerprint, mode, length, id) =>
      [generation, seed, fingerprint, mode, length] + id + PADDING
    case Identities(generation, count, tgids) => [generation, count] + tgids
  }

  predicate SameKind(c: Content, d: Content) { c.Runtime? <==> d.Runtime? }

  lemma SameWidth(c: Content, d: Content)
    requires Valid(c) && Valid(d) && SameKind(c, d)
    ensures |Cells(c)| == |Cells(d)|
  {
  }

  /** The loop form of the identity check. */
  method ValidateIdentities(generation: nat, count: nat, tgids: seq<nat>) returns (ok: bool)
    requires |tgids| == IDENTITY_LIMIT
    ensures ok <==> ValidIdentities(generation, count, tgids)
  {
    if generation == 0 || count > IDENTITY_LIMIT { return false; }
    var index := 0;
    while index < IDENTITY_LIMIT
      invariant 0 <= index <= IDENTITY_LIMIT
      invariant forall i :: 0 <= i < index && i < count ==> tgids[i] != 0
      invariant forall i, j :: 0 <= i < j < index && j < count ==> tgids[i] < tgids[j]
      invariant forall i :: count <= i < index ==> tgids[i] == 0
    {
      if index < count {
        if tgids[index] == 0 || (index != 0 && tgids[index - 1] >= tgids[index]) { return false; }
      } else if tgids[index] != 0 {
        return false;
      }
      index := index + 1;
    }
    return true;
  }

  // ---- Publication among readers ----

  datatype Publisher = Idle | Writing(content: Content, done: nat) | Flipping(content: Content)

  /** A hooked thread between its capture of a slot and the end of its work: the slot, what it held, how many
      publications were under way at the capture or began since, whether one has written to the slot, whether a cell
      was read behind that, and the cells read so far. */
  datatype Reader = Reader(
    slot: nat, content: Content, overlaps: nat, filled: bool, late: bool, log: seq<(nat, nat)>)

  datatype State = State(
    slots: seq<seq<nat>>, active: nat, switches: nat, publisher: Publisher, readers: map<nat, Reader>,
    history: seq<Content>)

  function Current(s: State): Content
    requires s.history != []
  {
    s.history[|s.history| - 1]
  }

  datatype Step =
    | Begin(content: Content)
    | Fill(cells: nat)
    | Count
    | Flip
    | Abort(flipped: bool)
    | Capture(reader: nat)
    | Look(reader: nat, cell: nat)
    | Leave(reader: nat)

  function Start(c: Content): State { State([Cells(c), Cells(c)], 0, 0, Idle, map[], [c]) }

  predicate Shaped(s: State) {
    |s.slots| == 2 && s.active < 2 && s.history != []
  }

  /** Which steps can be taken. There is one publisher at a time; it begins on what passes its checks, and can
      fail anywhere. */
  predicate Enabled(s: State, step: Step) {
    Shaped(s) &&
    match step
    case Begin(c) => s.publisher.Idle? && Valid(c) && SameKind(c, Current(s)) && c.generation > Current(s).generation
    case Fill(n) =>
      s.publisher.Writing? && n > 0 && s.publisher.done + n <= |Cells(s.publisher.content)| == |s.slots[1 - s.active]|
    case Count => s.publisher.Writing? && s.publisher.done == |Cells(s.publisher.content)|
    case Flip => s.publisher.Flipping?
    case Abort(flipped) => if flipped then s.publisher.Flipping? else !s.publisher.Idle?
    case Capture(r) => r !in s.readers
    case Look(r, cell) => r in s.readers && s.readers[r].slot < 2 && cell < |s.slots[s.readers[r].slot]|
    case Leave(r) => r in s.readers
  }

  function Next(s: State, step: Step): State
    requires Enabled(s, step)
  {
    match step
    case Begin(c) => s.(publisher := Writing(c, 0), readers := map r | r in s.readers :: Overlapped(s.readers[r]))
    case Fill(n) =>
      var c, k := s.publisher.content, s.publisher.done;
      var spare := s.slots[1 - s.active];
      s.(slots := s.slots[1 - s.active := Cells(c)[..k + n] + spare[k + n..]], publisher := Writing(c, k + n),
         readers := map r | r in s.readers :: FilledAt(s.readers[r], 1 - s.active))
    case Count => s.(switches := s.switches + 1, publisher := Flipping(s.publisher.content))
    case Flip => Flipped(s)
    case Abort(flipped) => if flipped then Flipped(s) else s.(publisher := Idle)
    case Capture(r) =>
      s.(readers := s.readers[r := Reader(s.active, Current(s), if s.publisher.Idle? then 0 else 1, false, false, [])])
    case Look(r, cell) =>
      var reader := s.readers[r];
      s.(readers := s.readers[r := reader.(late := reader.late || reader.filled,
                                           log := reader.log + [(cell, s.slots[reader.slot][cell])])])
    case Leave(r) => s.(readers := map k | k in s.readers && k != r :: s.readers[k])
  }

  function Overlapped(r: Reader): Reader { r.(overlaps := r.overlaps + 1) }

  function FilledAt(r: Reader, slot: nat): Reader { r.(filled := r.filled || r.slot == slot) }

  function Flipped(s: State): State
    requires Shaped(s) && s.publisher.Flipping?
  {
    s.(active := 1 - s.active, publisher := Idle, history := s.history + [s.publisher.content])
  }

  /** The state after some steps, if they can be taken. */
  function After(s: State, steps: seq<Step>): (r: Option<State>)
  {
    if steps == [] then Some(s) else
    match After(s, steps[..|steps| - 1])
    case None => None
    case Some(t) => if Enabled(t, steps[|steps| - 1]) then Some(Next(t, steps[|steps| - 1])) else None
  }

  /** Generations only grow, and everything that was ever active is valid. */
  ghost predicate Lineage(h: seq<Content>) {
    && h != []
    && (forall i :: 0 <= i < |h| ==> Valid(h[i]) && SameKind(h[i], h[0]))
    && (forall i, j :: 0 <= i < j < |h| ==> h[i].generation < h[j].generation)
  }

  ghost predicate SlotsOk(s: State) {
    && Shaped(s) && Lineage(s.history)
    && s.slots[s.active] == Cells(Current(s))
    && |s.slots[1 - s.active]| == |Cells(Current(s))|
    && (!s.publisher.Idle? ==>
          && Valid(s.publisher.content) && SameKind(s.publisher.content, Current(s))
          && s.publisher.content.generation > Current(s).generation)
    && (s.publisher.Writing? ==>
          && s.publisher.done <= |Cells(Current(s))|
          && s.slots[1 - s.active][..s.publisher.done] == Cells(s.publisher.content)[..s.publisher.done])
    && (s.publisher.Flipping? ==> s.slots[1 - s.active] == Cells(s.publisher.content))
  }

  /** Every cell read belongs to one published content. */
  ghost predicate OneContent(r: Reader, h: seq<Content>) {
    && r.content in h
    && forall e :: e in r.log ==> e.0 < |Cells(r.content)| && e.1 == Cells(r.content)[e.0]
  }

  /** A reader whose slot nothing was written to, or has been read only before that. */
  ghost predicate InTime(s: State, r: Reader) {
    && (!r.filled ==> r.slot < 2 && |s.slots| == 2 && s.slots[r.slot] == Cells(r.content) && !r.late)
    && (!r.late ==> OneContent(r, s.history))
  }

  /** A reader that at most one publication overlaps. */
  ghost predicate Undisturbed(s: State, r: Reader) {
    && !r.filled && r.slot < 2 && |s.slots| == 2 && s.slots[r.slot] == Cells(r.content)
    && (if r.overlaps == 0 then s.publisher.Idle? && s.active == r.slot else s.active == r.slot || s.publisher.Idle?)
    && OneContent(r, s.history)
  }

  ghost predicate Safe(s: State) {
    && SlotsOk(s)
    && (forall r :: r in s.readers ==> InTime(s, s.readers[r]))
    && forall r :: r in s.readers && s.readers[r].overlaps <= 1 ==> Undisturbed(s, s.readers[r])
  }

  lemma SlotsKept(s: State, step: Step)
    requires SlotsOk(s) && Enabled(s, step)
    ensures SlotsOk(Next(s, step))
  {
    hide Valid, Cells;
    match step
    case Begin(c) => SameWidth(c, Current(s));
    case Fill(n) =>
    case Count => SameWidth(s.publisher.content, Current(s));
    case Flip => FlipKeepsSlots(s);
    case Abort(flipped) => if flipped { FlipKeepsSlots(s); }
    case Capture(r) =>
    case Look(r, cell) =>
    case Leave(r) =>
  }

  lemma FlipKeepsSlots(s: State)
    requires SlotsOk(s) && s.publisher.Flipping?
    ensures SlotsOk(Flipped(s))
  {
  }

  /** A step moves the slots, the index and the publisher; what it does to an undisturbed reader that it does
      not name is nothing worse than one more overlap. */
  lemma OthersUndisturbed(s: State, step: Step, r: Reader)
    requires SlotsOk(s) && Undisturbed(s, r) && r.overlaps <= 1 && Enabled(s, step)
    requires step.Begin? ==> r.overlaps == 0
    ensures Undisturbed(Next(s, step), if step.Begin? then Overlapped(r) else r)
    ensures step.Fill? ==> FilledAt(r, 1 - s.active) == r
  {
  }

  lemma SafeKept(s: State, step: Step)
    requires Safe(s) && Enabled(s, step)
    ensures Safe(Next(s, step))
  {
    hide SlotsOk, Enabled, Undisturbed, InTime;
    SlotsKept(s, step);
    var t := Next(s, step);
    forall r | r in t.readers ensures InTime(t, t.readers[r]) { InTimeKept(s, step, r); }
    forall r | r in t.readers && t.readers[r].overlaps <= 1 ensures Undisturbed(t, t.readers[r]) {
      ReaderKept(s, step, r);
    }
  }

  lemma InTimeKept(s: State, step: Step, r: nat)
    requires Safe(s) && Enabled(s, step) && r in Next(s, step).readers
    ensures InTime(Next(s, step), Next(s, step).readers[r])
  {
    hide Valid, Cells, Lineage;
    if step != Capture(r) {
      assert InTime(s, s.readers[r]);
    }
  }

  lemma ReaderKept(s: State, step: Step, r: nat)
    requires Safe(s) && Enabled(s, step)
    requires r in Next(s, step).readers && Next(s, step).readers[r].overlaps <= 1
    ensures Undisturbed(Next(s, step), Next(s, step).readers[r])
  {
    hide Valid, Cells, Lineage;
    if step == Capture(r) {
    } else {
      OthersUndisturbed(s, step, s.readers[r]);
    }
  }

  /** In every interleaving the active slot holds a valid content whole, the generations that become active
      strictly increase, and a thread reads cells of one published content only, as long as it reads none after a
      write to its slot, and always when at most one publication overlaps it. */
  lemma {:induction false} EveryPublicationIsSafe(c: Content, steps: seq<Step>)
    requires Valid(c) && After(Start(c), steps).Some?
    ensures Safe(After(Start(c), steps).value)
  {
    hide Valid, Cells, Enabled, Next, Safe;
    if steps == [] {
      StartSafe(c);
    } else {
      var n := |steps| - 1;
      EveryPublicationIsSafe(c, steps[..n]);
      SafeKept(After(Start(c), steps[..n]).value, steps[n]);
    }
  }

  lemma StartSafe(c: Content)
    requires Valid(c)
    ensures Safe(Start(c))
  {
  }

  /** The cells a reply reads, in its order: length, mode, and the 32 id bytes. */
  function ReplyCell(k: nat): nat {
    if k == 0 then 4 else if k == 1 then 3 else 5 + k - 2
  }

  /** So a reply that has read all it needs has the length, mode and id of one published configuration, and the
      length is 32. */
  lemma ReplyUsesOneConfig(c: Content, steps: seq<Step>, r: nat)
    requires Valid(c) && c.Runtime? && After(Start(c), steps).Some?
    requires r in After(Start(c), steps).value.readers
    requires var reader := After(Start(c), steps).value.readers[r];
             (reader.overlaps <= 1 || !reader.late) && |reader.log| == 34
             && forall k :: 0 <= k < |reader.log| ==> reader.log[k].0 == ReplyCell(k)
    ensures var s := After(Start(c), steps).value;
            var reader := s.readers[r];
            var used := reader.content;
            && used in s.history && used.Runtime? && Valid(used)
            && reader.log[0].1 == used.length == 32 && reader.log[1].1 == used.mode
            && forall k :: 0 <= k < 32 ==> reader.log[2 + k].1 == used.virtualId[k]
  {
    hide After, Valid, Cells;
    EveryPublicationIsSafe(c, steps);
    HistoryBegins(c, steps);
    var s := After(Start(c), steps).value;
    var reader := s.readers[r];
    assert InTime(s, reader) && (reader.overlaps <= 1 ==> Undisturbed(s, reader));
    var i :| 0 <= i < |s.history| && s.history[i] == reader.content;
    ConfigRead(reader, s.history);
  }

  lemma ConfigRead(reader: Reader, h: seq<Content>)
    requires OneContent(reader, h) && reader.content.Runtime? && Valid(reader.content)
    requires |reader.log| == 2 + ID_BYTES
    requires forall k :: 0 <= k < |reader.log| ==> reader.log[k].0 == ReplyCell(k)
    ensures var used := reader.content;
            && reader.log[0].1 == used.length == ID_BYTES && reader.log[1].1 == used.mode
            && forall k :: 0 <= k < ID_BYTES ==> reader.log[2 + k].1 == used.virtualId[k]
  {
    var used := reader.content;
    assert forall k :: 0 <= k < |reader.log| ==> reader.log[k] in reader.log;
    forall k | 0 <= k < ID_BYTES ensures reader.log[2 + k].1 == used.virtualId[k] {
      assert reader.log[2 + k].0 == ReplyCell(2 + k) == 5 + k;
    }
    assert reader.log[0].0 == ReplyCell(0) && reader.log[1].0 == ReplyCell(1);
  }

  lemma {:induction false} HistoryBegins(c: Content, steps: seq<Step>)
    requires After(Start(c), steps).Some?
    ensures After(Start(c), steps).value.history != [] && After(Start(c), steps).value.history[0] == c
  {
    hide Next, Enabled;
    if steps != [] {
      var n := |steps| - 1;
      HistoryBegins(c, steps[..n]);
      HistoryGrows(After(Start(c), steps[..n]).value, steps[n]);
    }
  }

  lemma HistoryGrows(s: State, step: Step)
    requires Enabled(s, step)
    ensures s.history <= Next(s, step).history
  {
    hide Cells, Valid;
  }

  // ---- The publisher ----

  /** Where one publication fails, if it does. A flip can report failure after it took effect. */
  datatype Failure = NoFailure | SnapshotFails | WriteFails(cells: nat) | CounterFails | FlipFails(done: bool)

  datatype Outcome = Published(slot: nat) | Rejected | Failed

  class SlotPair {
    const first: array<nat>
    const second: array<nat>
    var active: nat
    var switches: nat

    constructor (c: Content)
      requires Valid(c)
      ensures Ready() && fresh(first) && fresh(second) && switches == 0 && Mirrors(Start(c))
    {
      var cells := Cells(c);
      first := new nat[|cells|](i requires 0 <= i < |cells| => cells[i]);
      second := new nat[|cells|](i requires 0 <= i < |cells| => cells[i]);
      active := 0;
      switches := 0;
      new;
      assert first[..] == cells && second[..] == cells;
    }

    ghost predicate Ready()
      reads this
    {
      active < 2 && first != second && first.Length == second.Length > 0
    }

    function Slot(i: nat): seq<nat>
      reads first, second
    {
      if i == 0 then first[..] else second[..]
    }

    ghost predicate Mirrors(s: State)
      reads this, first, second
    {
      s.slots == [Slot(0), Slot(1)] && s.active == active && s.switches == switches
    }

    function Spare(): array<nat>
      reads this
    {
      if active == 0 then second else first
    }

    /** The write to the spare slot, as far as it gets. */
    method FillSpare(c: Content, n: nat, ghost s: State, ghost steps: seq<Step>, ghost t: State)
      returns (ghost steps': seq<Step>, ghost t': State)
      requires Ready() && Mirrors(t) && After(s, steps) == Some(t) && t.history != []
      requires t.publisher == Writing(c, 0) && n <= |Cells(c)| == first.Length
      modifies Spare()
      ensures Slot(active) == old(Slot(active)) && Spare()[..n] == Cells(c)[..n]
      ensures Mirrors(t') && After(s, steps') == Some(t') && t'.history == t.history
      ensures t'.publisher == Writing(c, n)
    {
      hide Valid, Cells, After;
      var spare, cells := Spare(), Cells(c);
      steps', t' := steps, t;
      var k := 0;
      while k < n
        invariant 0 <= k <= n && spare[..k] == cells[..k] && Slot(active) == old(Slot(active))
        invariant Mirrors(t') && After(s, steps') == Some(t') && t'.publisher == Writing(c, k)
        invariant t'.history == t.history
      {
        ghost var was := spare[..];
        spare[k] := cells[k];
        assert spare[..] == cells[..k + 1] + was[k + 1..];
        steps', t' := Take(s, steps', t', Fill(1));
        k := k + 1;
      }
    }

    /** The publication. The slot in use is never written; the index moves only to a slot that holds all of the
        new content, and does so exactly when the call succeeds or only its last report failed. Its writes are
        steps of the publisher above: `steps` leads from `s` to a state that is again what memory holds. */
    method Publish(c: Content, fail: Failure, ghost s: State)
      returns (outcome: Outcome, ghost steps: seq<Step>, ghost t: State)
      requires Ready() && Mirrors(s) && SlotsOk(s) && s.publisher.Idle? && SameKind(c, Current(s))
      modifies this`active, this`switches, first, second
      ensures Ready() && Slot(old(active)) == old(Slot(active))
      ensures outcome.Rejected? <==>
                !Valid(c) || (fail != SnapshotFails && c.generation <= Current(s).generation)
      ensures outcome.Published? <==> Valid(c) && c.generation > Current(s).generation && fail == NoFailure
      ensures outcome.Published? ==> active == outcome.slot && switches == old(switches) + 1
      ensures active != old(active) <==> !outcome.Rejected? && (fail == NoFailure || fail == FlipFails(true))
      ensures active != old(active) ==> Slot(active) == Cells(c)
      ensures After(s, steps) == Some(t) && Mirrors(t) && t.publisher.Idle?
      ensures outcome.Rejected? ==> steps == []
    {
      hide Valid, Cells, Lineage, After;
      steps, t := [], s;
      After0(s);
      if !Valid(c) { return Rejected, steps, t; }
      if fail.SnapshotFails? { return Failed, steps, t; }
      CurrentIsGood(s);
      if c.generation <= Slot(active)[0] { return Rejected, steps, t; }
      SameWidth(c, Current(s));
      var cells := Cells(c);
      steps, t := Take(s, steps, t, Begin(c));
      var n := if fail.WriteFails? && fail.cells < |cells| then fail.cells else |cells|;
      steps, t := FillSpare(c, n, s, steps, t);
      if fail.WriteFails? {
        steps, t := Take(s, steps, t, Abort(false));
        return Failed, steps, t;
      }
      assert Spare()[..] == cells;
      if fail.CounterFails? {
        steps, t := Take(s, steps, t, Abort(false));
        return Failed, steps, t;
      }
      switches := switches + 1;
      steps, t := Take(s, steps, t, Count);
      if fail == FlipFails(false) {
        steps, t := Take(s, steps, t, Abort(false));
        return Failed, steps, t;
      }
      active := 1 - active;
      steps, t := Take(s, steps, t, if fail.FlipFails? then Abort(true) else Flip);
      if fail.FlipFails? { return Failed, steps, t; }
      return Published(active), steps, t;
    }
  }

  lemma CurrentIsGood(s: State)
    requires SlotsOk(s)
    ensures Valid(Current(s)) && |Cells(Current(s))| > 0 && Cells(Current(s))[0] == Current(s).generation
  {
  }

  /** Two publications are one too many: for any three contents in turn there is a run in which one thread reads
      one cell from the first and another from the third. */
  lemma TwoPublicationsTear(a: Content, b: Content, c: Content, i: nat, j: nat)
    requires Valid(a) && Valid(b) && Valid(c) && SameKind(a, b) && SameKind(b, c)
    requires a.generation < b.generation < c.generation && i < |Cells(a)| && j < |Cells(a)|
    ensures exists steps :: After(Start(a), steps).Some?
              && 0 in After(Start(a), steps).value.readers
              && After(Start(a), steps).value.readers[0].overlaps == 2
              && After(Start(a), steps).value.readers[0].log == [(i, Cells(a)[i]), (j, Cells(c)[j])]
  {
    hide Valid, Cells, After;
    SameWidth(a, b);
    SameWidth(b, c);
    var n := |Cells(a)|;
    var s0 := Start(a);
    After0(s0);
    var steps, s := Take(s0, [], s0, Capture(0));
    steps, s := Take(s0, steps, s, Look(0, i));
    steps, s := PublishWhole(s0, steps, s, b, n);
    steps, s := PublishWhole(s0, steps, s, c, n);
    steps, s := Take(s0, steps, s, Look(0, j));
    assert After(s0, steps).value.readers[0].log == [(i, Cells(a)[i]), (j, Cells(c)[j])];
  }

  lemma After0(s: State)
    ensures After(s, []) == Some(s)
  {
  }

  lemma Take(s0: State, steps: seq<Step>, s: State, step: Step) returns (steps': seq<Step>, t: State)
    requires After(s0, steps) == Some(s) && Enabled(s, step)
    ensures steps' == steps + [step] && t == Next(s, step) && After(s0, steps') == Some(t)
  {
    assert (steps + [step])[..|steps|] == steps;
    steps', t := steps + [step], Next(s, step);
  }

  lemma PublishWhole(s0: State, steps: seq<Step>, s: State, c: Content, n: nat)
    returns (steps': seq<Step>, t: State)
    requires After(s0, steps) == Some(s) && Shaped(s) && s.publisher.Idle?
    requires Valid(c) && SameKind(c, Current(s)) && c.generation > Current(s).generation
    requires |Cells(c)| == n == |s.slots[1 - s.active]| > 0
    ensures After(s0, steps') == Some(t) && Shaped(t) && t.publisher.Idle?
    ensures t.active == 1 - s.active && t.history == s.history + [c]
    ensures t.slots == s.slots[1 - s.active := Cells(c)]
    ensures t.readers == map r | r in s.readers :: FilledAt(Overlapped(s.readers[r]), 1 - s.active)
  {
    hide Valid, Cells, After;
    steps', t := Take(s0, steps, s, Begin(c));
    steps', t := Take(s0, steps', t, Fill(n));
    assert Cells(c)[..n] + s.slots[1 - s.active][n..] == Cells(c);
    steps', t := Take(s0, steps', t, Count);
    steps', t := Take(s0, steps', t, Flip);
  }
}
