/** The pending area of the kernel context, updated in place by the emitted push and pop. The try-lock outcome
    and the HAL generation read inside the critical section are inputs here; `TryLock` interleaves them. */
module PendingArea {
  import opened Wrappers
  import opened PendingTable
  import opened PendingRuns

  class Area {
    var slots: array<Slot>
    var counters: Counters

    ghost predicate Valid()
      reads this, slots
    {
      TableOk(slots[..])
    }

    ghost function View(): State
      reads this, slots
    {
      State(slots[..], counters)
    }

    constructor ()
      ensures Valid() && fresh(slots) && View() == INITIAL
    {
      slots := new Slot[SLOTS](_ => EMPTY_SLOT);
      counters := ZERO;
      new;
      assert slots[..] == Blank(SLOTS);
      EveryRun([]);
    }

    /** The single pass over the bucket: eight ways, unrolled in the emitted code. */
    method FindPlace(who: Identity) returns (place: Place)
      requires Valid() && who.task != 0
      ensures place == Locate(slots[..], who)
    {
      hide CursorOk, Locate, SlotOk, BucketBase, TopId, FindTask, OneSlotPerTask;
      ghost var t := slots[..];
      StartOk(t, who);
      var base := BucketBase(who.task);
      var way: nat, empty: Option<nat>, oldest: Option<nat>, oldestId: nat := 0, None, None, 0;
      while way < WAYS
        invariant 0 <= way <= WAYS
        invariant CursorOk(t, who, Cursor(way, empty, oldest, oldestId))
      {
        ghost var turn := ExamineWay(t, who, Cursor(way, empty, oldest, oldestId));
        ExamineWayCorrect(t, who, Cursor(way, empty, oldest, oldestId));
        var s := slots[base + way];
        if s.task == who.task {
          place := Place(base + way, s.pid != who.pid || s.tgid != who.tgid, s.pid != who.pid || s.tgid != who.tgid);
          assert turn == Chosen(place);
          return;
        }
        if s.task == 0 {
          if empty.None? { empty := Some(base + way); }
        } else {
          var id := TopId(s);
          if s.depth == 0 || oldest.None? || id < oldestId {
            oldest, oldestId := Some(base + way), id;
          }
        }
        way := way + 1;
        assert turn == Going(Cursor(way, empty, oldest, oldestId));
      }
      SettleCorrect(t, who, Cursor(way, empty, oldest, oldestId));
      place := if empty.Some? then Place(empty.value, true, false) else Place(oldest.value, true, true);
    }

    /** A slot taken over: four stores. */
    method Claim(i: nat, who: Identity)
      requires i < slots.Length
      modifies slots
      ensures slots[..] == old(slots[..])[i := Claimed(old(slots[i]), who)]
    {
      slots[i] := slots[i].(task := who.task);
      slots[i] := slots[i].(pid := who.pid);
      slots[i] := slots[i].(tgid := who.tgid);
      slots[i] := slots[i].(depth := 0);
    }

    /** A frame stored at the top, and then counted in the depth. */
    method StoreFrame(i: nat, frame: Frame)
      requires i < slots.Length && slots[i].depth < |slots[i].frames|
      modifies slots
      ensures var s := old(slots[i]);
              slots[..] == old(slots[..])[i := s.(frames := s.frames[s.depth := frame], depth := s.depth + 1)]
    {
      var depth := slots[i].depth;
      slots[i] := slots[i].(frames := slots[i].frames[depth := frame]);
      slots[i] := slots[i].(depth := depth + 1);
    }

    /** The push of a flagged request. Its event id is a ticket, newer than every id its task still holds. */
    method Push(who: Identity, r: PendingTable.Request, acquired: bool, generation: nat)
      requires Valid() && who.task != 0
      requires forall f :: f in Below(slots[..], who).frames ==> f.request.eventId < r.eventId
      modifies this`counters, slots
      ensures Valid() && View() == PushCall(old(View()), who, r, acquired, generation)
    {
      if r.flags % 2 == 1 {
        counters := counters.(onewayIgnored := counters.onewayIgnored + 1);
      } else if !acquired {
        counters := counters.(lockDrops := counters.lockDrops + 1);
      } else {
        PushLocked(who, Frame(r, generation));
      }
    }

    method PushLocked(who: Identity, frame: Frame)
      requires Valid() && who.task != 0
      requires forall f :: f in Below(slots[..], who).frames ==> f.request.eventId < frame.request.eventId
      modifies this`counters, slots
      ensures Valid()
      ensures var c := old(counters);
              match PendingTable.Push(old(slots[..]), who, frame)
              case Overflow(after) =>
                slots[..] == after && counters == c.(overflows := c.overflows + 1)
              case Pushed(after, collision) =>
                && slots[..] == after
                && counters == c.(pushes := c.pushes + 1, collisions := c.collisions + if collision then 1 else 0)
    {
      hide SlotOk, OneSlotPerTask, Below, Locate;
      ghost var t := slots[..];
      PushKeeps(t, who, frame);
      var place := FindPlace(who);
      if place.collision {
        counters := counters.(collisions := counters.collisions + 1);
      }
      if place.claim {
        Claim(place.index, who);
      }
      ghost var s := if place.claim then Claimed(t[place.index], who) else t[place.index];
      assert slots[..] == t[place.index := s];
      if slots[place.index].depth >= DEPTH {
        counters := counters.(overflows := counters.overflows + 1);
      } else {
        StoreFrame(place.index, frame);
        assert slots[..] == t[place.index := s.(frames := s.frames[s.depth := frame], depth := s.depth + 1)];
        counters := counters.(pushes := counters.pushes + 1);
      }
    }

    /** The pop of a reply: the event id of the newest request of the task, with the flags of its parcel, or
        zeros. Only the task pointer is compared. */
    method Pop(task: nat, acquired: bool, generation: nat) returns (eventId: nat, parcelFlags: nat)
      requires Valid() && task != 0
      modifies this`counters, slots
      ensures Valid() && (View(), eventId, parcelFlags) == PopCall(old(View()), task, acquired, generation)
    {
      hide SlotOk, OneSlotPerTask, FindTask, BucketBase, Popped;
      eventId, parcelFlags := 0, 0;
      if !acquired {
        counters := counters.(lockDrops := counters.lockDrops + 1);
        return;
      }
      PopKeeps(slots[..], task, generation);
      var slot := FindSlot(task);
      if slot.None? || slots[slot.value].depth == 0 {
        counters := counters.(misses := counters.misses + 1);
        return;
      }
      var frame := TakeTop(slot.value);
      eventId, parcelFlags := frame.request.eventId, frame.request.parcelFlags;
      if generation != frame.generation {
        eventId, parcelFlags := 0, 0;
        counters := counters.(generationStale := counters.generationStale + 1);
      }
      if eventId != 0 {
        counters := counters.(pops := counters.pops + 1);
      }
    }

    method FindSlot(task: nat) returns (slot: Option<nat>)
      requires Valid()
      ensures slot == FindTask(slots[..], BucketBase(task), BucketBase(task) + WAYS, task)
    {
      var base := BucketBase(task);
      var way := 0;
      while way < WAYS && slots[base + way].task != task
        invariant 0 <= way <= WAYS
        invariant forall j :: base <= j < base + way ==> slots[j].task != task
      {
        way := way + 1;
      }
      slot := if way == WAYS then None else Some(base + way);
    }

    /** The top frame leaves its slot, and a slot without frames is given back. */
    method TakeTop(i: nat) returns (frame: Frame)
      requires i < slots.Length && 0 < slots[i].depth <= |slots[i].frames|
      modifies slots
      ensures frame == old(slots[i].frames[slots[i].depth - 1])
      ensures slots[..] == old(slots[..])[i := Popped(old(slots[i]))]
    {
      var depth := slots[i].depth - 1;
      slots[i] := slots[i].(depth := depth);
      frame := slots[i].frames[depth];
      if depth == 0 {
        slots[i] := slots[i].(task := 0);
      }
    }
  }
}
