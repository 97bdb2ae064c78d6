/** The daemon's HAL monitor: it discovers the Widevine HAL processes, keeps a pidfd on each or falls back to
    looking at /proc, and publishes their thread-group ids to the kernel gate. */
module HalMonitor {
  import opened Numbers
  import opened Wrappers
  import DoubleSlot

  const INITIAL_RETRY_MS := 50
  const MAXIMUM_RETRY_MS := 2000
  const PROCFS_POLL_MS := 5000
  const UINT32_MAX := 0xffff_ffff

  /** A published set: its generation and the ids in it, without the zeros that fill the rest of a slot. */
  datatype Identities = Identities(generation: nat, ids: seq<nat>)

  predicate GoodIds(ids: seq<nat>) {
    && |ids| <= DoubleSlot.IDENTITY_LIMIT
    && (forall i :: 0 <= i < |ids| ==> ids[i] != 0)
    && (forall i, j :: 0 <= i < j < |ids| ==> ids[i] < ids[j])
  }

  function Padded(ids: seq<nat>): seq<nat> {
    ids + if |ids| <= DoubleSlot.IDENTITY_LIMIT then [0, 0, 0, 0][|ids|..] else []
  }

  /** Good ids are the ones the publisher accepts. */
  lemma GoodIdsAreValid(generation: nat, ids: seq<nat>)
    requires |ids| <= DoubleSlot.IDENTITY_LIMIT && generation != 0
    ensures GoodIds(ids) <==> DoubleSlot.ValidIdentities(generation, |ids|, Padded(ids))
  {
    forall i | 0 <= i < |ids| ensures Padded(ids)[i] == ids[i] {}
  }

  datatype Backend = Waiting | Pidfd | Procfs

  /** The monitor, the kernel's active set, and every set the kernel has had since the daemon came up. A
      descriptor is named by the process it watches. */
  datatype State = State(
    active: Identities, backend: Backend, wakeups: nat, retryMs: nat, pidfds: seq<nat>,
    kernel: Identities, history: seq<Identities>)

  /** How a publication ends, other than on the checks it makes: a failure may be reported for a flip that took
      effect. */
  datatype Report = Fine | Failing | FailingAfterFlip

  /** The first identity whose pidfd does not open, if that many are asked for, and whether the kernel refused. */
  datatype Opening = Opening(failsAt: nat, refused: bool)

  datatype Discovery = Found(ids: seq<nat>) | Unreadable

  datatype OpenResult = Ready | Unsupported | ProcessGone

  /** A state, and whether the operation that led to it succeeded. */
  datatype Turn = Turn(state: State, ok: bool)

  function Doubled(retryMs: nat): nat { Min(retryMs * 2, MAXIMUM_RETRY_MS) }

  function Woken(s: State): State {
    s.(wakeups := if s.wakeups != UINT32_MAX then s.wakeups + 1 else s.wakeups)
  }

  function OpenAll(ids: seq<nat>, o: Opening): OpenResult {
    if o.failsAt >= |ids| then Ready else if o.refused then Unsupported else ProcessGone
  }

  function Publish(s: State, ids: seq<nat>, report: Report): Turn {
    var next := Identities(s.active.generation + 1, ids);
    if s.active.generation == UINT64_MAX || next.generation <= s.kernel.generation || report.Failing? then
      Turn(s, false)
    else
      var held := s.(kernel := next, history := s.history + [next]);
      if report.FailingAfterFlip? then Turn(held, false) else Turn(held.(active := next), true)
  }

  function Clear(s: State, report: Report): Turn {
    var closed := s.(pidfds := []);
    var published := if s.active.ids == [] then Turn(closed, true) else Publish(closed, [], report);
    if published.ok
    then Turn(published.state.(backend := Waiting, retryMs := INITIAL_RETRY_MS), true)
    else published
  }

  function Adopt(s: State, ids: seq<nat>, o: Opening, report: Report): Turn {
    if ids == [] then Turn(s.(backend := Waiting, retryMs := Doubled(s.retryMs)), true) else
    var opened_ := if s.backend.Procfs? then Unsupported else OpenAll(ids, o);
    var s1 := if s.backend.Procfs? then s else s.(pidfds := if opened_.Ready? then ids else []);
    if opened_.ProcessGone? then Turn(s1.(backend := Waiting, retryMs := Doubled(s.retryMs)), true) else
    var published := if s.active.ids == ids then Turn(s1, true) else Publish(s1, ids, report);
    if published.ok
    then Turn(published.state.(backend := if opened_.Ready? then Pidfd else Procfs, retryMs := INITIAL_RETRY_MS), true)
    else published
  }

  function Rediscover(s: State, d: Discovery, o: Opening, cleared: Report, adopted: Report): Turn {
    var woken := Woken(s);
    if d.Unreadable? then Turn(woken, false) else
    var clear := if s.active.ids != [] && s.active.ids != d.ids then Clear(woken, cleared) else Turn(woken, true);
    if clear.ok then Adopt(clear.state, d.ids, o, adopted) else clear
  }

  function Start(kernel: Identities, o: Opening, report: Report): Turn {
    var s := State(kernel, Waiting, 0, INITIAL_RETRY_MS, [], kernel, [kernel]);
    if kernel.ids == [] then Turn(s, true)
    else match OpenAll(kernel.ids, o)
      case Ready => Turn(s.(backend := Pidfd, pidfds := kernel.ids), true)
      case Unsupported => Turn(s.(backend := Procfs), true)
      case ProcessGone => Clear(s, report)
  }

  /** What one turn of the server loop meets. A time-out is `whole` when the run-time limit did not cut it short. */
  datatype Event =
    | Interrupted
    | PollFails
    | Request
    | Exited(cleared: Report)
    | TimedOut(whole: bool, discovery: Discovery, opening: Opening, cleared: Report, adopted: Report, again: Report)

  predicate Sound(e: Event) {
    e.TimedOut? && e.discovery.Found? ==> GoodIds(e.discovery.ids)
  }

  /** How long the loop waits before it looks for processes again, if it does. */
  function LifecycleMs(s: State): Option<nat> {
    match s.backend
    case Waiting => Some(s.retryMs)
    case Pidfd => None
    case Procfs => Some(PROCFS_POLL_MS)
  }

  function Look(s: State, e: Event): Turn
    requires e.TimedOut?
  {
    var found := Rediscover(s, e.discovery, e.opening, e.cleared, e.adopted);
    if found.ok then found else
    var clear := Clear(found.state, e.again);
    if clear.ok then Turn(clear.state.(retryMs := Doubled(clear.state.retryMs)), true) else clear
  }

  /** One turn of the loop; not ok when it is the last. A process can exit only while a descriptor watches it,
      and looking again is for a whole time-out of a backend that waits for one. */
  function Iterate(s: State, e: Event): Turn {
    match e
    case PollFails => Turn(s, false)
    case Exited(report) => if s.pidfds == [] then Turn(s, true) else Clear(Woken(s), report)
    case TimedOut(whole, _, _, _, _, _) => if whole && LifecycleMs(s).Some? then Look(s, e) else Turn(s, true)
    case _ => Turn(s, true)
  }

  /** The sets published: each generation one more than the last, and empty and non-empty in turn. */
  ghost predicate Alternates(h: seq<Identities>) {
    forall i, j :: 0 <= i && j == i + 1 < |h| ==>
      h[j].generation == h[i].generation + 1 && (h[i].ids == [] <==> h[j].ids != [])
  }

  /** The loop-head invariant. */
  ghost predicate Mirrors(s: State) {
    && s.active == s.kernel && GoodIds(s.active.ids) && s.active.generation <= UINT64_MAX
    && (s.backend.Waiting? <==> s.active.ids == [])
    && s.pidfds == (if s.backend.Pidfd? then s.active.ids else [])
    && INITIAL_RETRY_MS <= s.retryMs <= MAXIMUM_RETRY_MS
    && s.history != [] && s.history[|s.history| - 1] == s.kernel && Alternates(s.history)
  }

  /** One of the processes found is gone when its descriptor is opened. */
  predicate Vanishes(ids: seq<nat>, o: Opening) { o.failsAt < |ids| && !o.refused }

  /** A look whose publication of newly found processes takes effect and is still reported as failed. */
  predicate Ambiguous(s: State, e: Event) {
    && e.TimedOut? && e.whole && !s.backend.Pidfd? && e.discovery.Found? && e.discovery.ids != []
    && e.discovery.ids != s.active.ids && e.adopted.FailingAfterFlip?
    && !Vanishes(e.discovery.ids, e.opening)
    && (if s.active.ids == [] then s.active.generation < UINT64_MAX
        else e.cleared.Fine? && s.active.generation + 1 < UINT64_MAX)
  }

  lemma AlternatesOnNext(s: State, ids: seq<nat>)
    requires Mirrors(s) && (s.active.ids == [] <==> ids != [])
    ensures Alternates(s.history + [Identities(s.active.generation + 1, ids)])
  {
  }

  /** Clearing a mirrored state. When it fails nothing is known to the monitor that was not, but the kernel may
      be a generation ahead. */
  lemma ClearKeeps(s: State, report: Report)
    requires Mirrors(s)
    ensures var t := Clear(s, report);
            && (t.ok <==> s.active.ids == [] || (report.Fine? && s.active.generation != UINT64_MAX))
            && (t.ok ==>
                  && Mirrors(t.state) && t.state.active.ids == [] && t.state.retryMs == INITIAL_RETRY_MS
                  && t.state.active.generation == s.active.generation + if s.active.ids == [] then 0 else 1)
  {
  }

  lemma FailedClearKeeps(s: State, report: Report, again: Report)
    requires Mirrors(s) && !Clear(s, report).ok && !s.backend.Pidfd? && Clear(Clear(s, report).state, again).ok
    ensures Mirrors(Clear(s, report).state)
  {
  }

  lemma AdoptKeeps(s: State, ids: seq<nat>, o: Opening, report: Report)
    requires Mirrors(s) && GoodIds(ids) && !s.backend.Pidfd? && (s.active.ids == [] || s.active.ids == ids)
    requires Adopt(s, ids, o, report).ok
    ensures Mirrors(Adopt(s, ids, o, report).state)
  {
    hide Alternates, GoodIds;
    if s.active.ids == [] && ids != [] { AlternatesOnNext(s, ids); }
  }

  /** A failed adoption is of newly found processes; the clearing that follows restores the mirror unless the
      kernel took the set. */
  lemma FailedAdoptKeeps(s: State, ids: seq<nat>, o: Opening, report: Report, again: Report)
    requires Mirrors(s) && GoodIds(ids) && !s.backend.Pidfd? && (s.active.ids == [] || s.active.ids == ids)
    requires !Adopt(s, ids, o, report).ok
    ensures var t := Clear(Adopt(s, ids, o, report).state, again);
            && s.active.ids == [] && ids != [] && !OpenAll(ids, o).ProcessGone?
            && t.ok && t.state.retryMs == INITIAL_RETRY_MS
            && (Mirrors(t.state) <==> !(report.FailingAfterFlip? && s.active.generation < UINT64_MAX))
            && (!Mirrors(t.state) ==> Adrift(t.state))
  {
  }

  /** The kernel's gate is open for a set that the monitor does not know of. */
  predicate Adrift(s: State) {
    && s.active.ids == [] && s.kernel.ids != [] && s.kernel.generation > s.active.generation
    && s.backend.Waiting? && s.pidfds == []
  }

  lemma LookKeeps(s: State, e: Event)
    requires Mirrors(s) && Sound(e) && e.TimedOut? && e.whole && LifecycleMs(s).Some? && Look(s, e).ok
    ensures Mirrors(Look(s, e).state) <==> !Ambiguous(s, e)
    ensures Ambiguous(s, e) ==> Adrift(Look(s, e).state)
  {
    hide Alternates, Clear, Adopt, GoodIds;
    var woken := Woken(s);
    if e.discovery.Unreadable? {
      ClearKeeps(woken, e.again);
    } else if s.active.ids != [] && s.active.ids != e.discovery.ids {
      ClearKeeps(woken, e.cleared);
      var clear := Clear(woken, e.cleared);
      if clear.ok {
        AdoptionKeeps(clear.state, e);
      } else {
        FailedClearKeeps(woken, e.cleared, e.again);
        ClearKeeps(clear.state, e.again);
      }
    } else {
      AdoptionKeeps(woken, e);
    }
  }

  /** The part of a look after any clearing. */
  function Settle(s: State, e: Event): Turn
    requires e.TimedOut? && e.discovery.Found?
  {
    var found := Adopt(s, e.discovery.ids, e.opening, e.adopted);
    if found.ok then found else
    var clear := Clear(found.state, e.again);
    if clear.ok then Turn(clear.state.(retryMs := Doubled(clear.state.retryMs)), true) else clear
  }

  lemma AdoptionKeeps(s: State, e: Event)
    requires Mirrors(s) && e.TimedOut? && e.discovery.Found? && GoodIds(e.discovery.ids)
    requires !s.backend.Pidfd? && (s.active.ids == [] || s.active.ids == e.discovery.ids)
    ensures var t := Settle(s, e);
            var ids := e.discovery.ids;
            var took := s.active.ids == [] && ids != [] && !OpenAll(ids, e.opening).ProcessGone?
                        && e.adopted.FailingAfterFlip? && s.active.generation < UINT64_MAX;
            t.ok && (Mirrors(t.state) <==> !took) && (took ==> Adrift(t.state))
  {
    hide Alternates, GoodIds;
    if Adopt(s, e.discovery.ids, e.opening, e.adopted).ok {
      AdoptKeeps(s, e.discovery.ids, e.opening, e.adopted);
    } else {
      FailedAdoptKeeps(s, e.discovery.ids, e.opening, e.adopted, e.again);
    }
  }

  /** One turn of the loop keeps the mirror exactly when it is not the ambiguous publication. */
  lemma IterateKeeps(s: State, e: Event)
    requires Mirrors(s) && Sound(e) && Iterate(s, e).ok
    ensures Mirrors(Iterate(s, e).state) <==> !Ambiguous(s, e)
    ensures Ambiguous(s, e) ==> Adrift(Iterate(s, e).state)
  {
    hide Alternates, Clear, Look, GoodIds;
    if e.Exited? {
      ClearKeeps(Woken(s), e.cleared);
    } else if e.TimedOut? && e.whole && LifecycleMs(s).Some? {
      LookKeeps(s, e);
    }
  }

  /** The turn that breaks the mirror can come first: any found processes, whose publication takes effect and is
      reported as failed, from a daemon that came up with an empty set. */
  lemma AmbiguityIsReachable(generation: nat, ids: seq<nat>)
    requires generation < UINT64_MAX && GoodIds(ids) && ids != []
    ensures var start := Start(Identities(generation, []), Opening(0, false), Fine);
            var e := TimedOut(true, Found(ids), Opening(|ids|, false), Fine, FailingAfterFlip, Fine);
            && start.ok && Mirrors(start.state) && Sound(e) && Ambiguous(start.state, e)
            && Iterate(start.state, e).ok && !Mirrors(Iterate(start.state, e).state)
            && Iterate(start.state, e).state.kernel == Identities(generation + 1, ids)
  {
    hide GoodIds;
    var start := Start(Identities(generation, []), Opening(0, false), Fine);
    assert GoodIds([]) by { NoIdsAreGood(); }
    IterateKeeps(start.state, TimedOut(true, Found(ids), Opening(|ids|, false), Fine, FailingAfterFlip, Fine));
  }

  lemma NoIdsAreGood()
    ensures GoodIds([])
  {
  }

  lemma StartMirrors(kernel: Identities, o: Opening, report: Report)
    requires GoodIds(kernel.ids) && kernel.generation <= UINT64_MAX && Start(kernel, o, report).ok
    ensures Mirrors(Start(kernel, o, report).state)
  {
  }

  /** The states at the loop heads of a run: the state after some events, if the loop gets that far. */
  function Loop(s: State, events: seq<Event>): Turn {
    if events == [] then Turn(s, true) else
    var before := Loop(s, events[..|events| - 1]);
    if before.ok then Iterate(before.state, events[|events| - 1]) else before
  }

  ghost predicate NeverAmbiguous(s: State, events: seq<Event>) {
    forall i :: 0 <= i < |events| ==> !Ambiguous(Loop(s, events[..i]).state, events[i])
  }

  /** Over every run of exits, time-outs, discoveries and failing publications, the invariant holds at each
      loop head exactly as long as no publication of found processes was reported failed after it took effect. */
  lemma {:induction false} EveryRun(s: State, events: seq<Event>)
    requires Mirrors(s) && Loop(s, events).ok && (forall e :: e in events ==> Sound(e))
    ensures NeverAmbiguous(s, events) ==> Mirrors(Loop(s, events).state)
    ensures !NeverAmbiguous(s, events) ==> Adrift(Loop(s, events).state)
  {
    hide Mirrors, Iterate, Ambiguous, Adrift, Sound;
    if events != [] {
      var n := |events| - 1;
      var before := events[..n];
      EveryRun(s, before);
      var t := Loop(s, before).state;
      assert events[n] in events;
      if NeverAmbiguous(s, before) {
        IterateKeeps(t, events[n]);
        if !Ambiguous(t, events[n]) {
          forall i | 0 <= i < |events| ensures !Ambiguous(Loop(s, events[..i]).state, events[i]) {
            if i < n { assert before[..i] == events[..i]; }
          }
        }
      } else {
        var i :| 0 <= i < n && Ambiguous(Loop(s, before[..i]).state, before[i]);
        assert before[..i] == events[..i];
        StaysAdrift(t, events[n]);
      }
    }
  }

  /** Adrift is for good: no turn of the loop changes what the kernel has, and leaving the loop does not
      close the gate either, although it reports success. */
  lemma StaysAdrift(s: State, e: Event)
    requires Adrift(s) && Sound(e)
    ensures Adrift(Iterate(s, e).state) && Iterate(s, e).state.kernel == s.kernel
    ensures forall r :: Clear(s, r).ok && Clear(s, r).state.kernel == s.kernel
  {
  }

  /** Leaving the loop from a mirrored state, when it succeeds, closes the gate and every descriptor. */
  lemma LeavingClosesTheGate(s: State, report: Report)
    requires Mirrors(s) && Clear(s, report).ok
    ensures Clear(s, report).state.kernel.ids == [] && Clear(s, report).state.pidfds == []
  {
  }

  function Backoff(k: nat): nat { if k == 0 then INITIAL_RETRY_MS else Doubled(Backoff(k - 1)) }

  function Power(k: nat): nat { if k == 0 then 1 else 2 * Power(k - 1) }

  /** The wait before the next look doubles from 50 ms to 2000 ms. */
  lemma {:induction false} BackoffDoubles(k: nat)
    ensures Backoff(k) == Min(50 * Power(k), 2000)
  {
    if k > 0 { BackoffDoubles(k - 1); }
  }

  predicate FindsNothing(e: Event) {
    e.TimedOut? && e.whole && e.discovery == Found([])
  }

  /** Empty discoveries in a row, from a fresh wait. */
  lemma {:induction false} EmptyLooksBackOff(s: State, events: seq<Event>)
    requires s.backend.Waiting? && s.active.ids == [] && s.retryMs == INITIAL_RETRY_MS
    requires forall e :: e in events ==> FindsNothing(e)
    ensures Loop(s, events).ok
    ensures var t := Loop(s, events).state;
            && t.retryMs == Min(50 * Power(|events|), 2000)
            && t == s.(retryMs := t.retryMs, wakeups := t.wakeups)
  {
    BackoffDoubles(|events|);
    if events != [] {
      var n := |events| - 1;
      assert events[n] in events;
      EmptyLooksBackOff(s, events[..n]);
      BackoffDoubles(n);
    }
  }

  // ---- Progress ----

  /** A whole time-out in which everything that is called works. */
  predicate Works(e: Event) {
    e.TimedOut? && e.whole && e.discovery.Found? && GoodIds(e.discovery.ids)
    && e.cleared.Fine? && e.adopted.Fine? && e.again.Fine?
  }

  /** The kernel has the set that was found, and each of its processes is watched by a descriptor, or none is and the
      monitor goes on looking. */
  predicate Follows(t: State, generation: nat, ids: seq<nat>) {
    && t.kernel == Identities(generation, ids) && t.active == t.kernel && t.retryMs == 50
    && (t.backend.Pidfd? || t.backend.Procfs?) && t.pidfds == if t.backend.Pidfd? then ids else []
  }

  /** The kernel has an empty set, and the monitor waits. */
  predicate Waits(t: State, generation: nat) {
    && t.kernel == Identities(generation, []) && t.active == t.kernel && t.backend.Waiting? && t.pidfds == []
  }

  /** A waiting monitor publishes the processes that it finds; when there are none, or one is gone again, it doubles
      its wait up to two seconds. */
  lemma WaitingMonitorAdopts(s: State, e: Event)
    requires Mirrors(s) && s.backend.Waiting? && Works(e) && s.kernel.generation < UINT64_MAX
    ensures var g, ids, turn := s.kernel.generation, e.discovery.ids, Iterate(s, e);
            && turn.ok
            && if ids == [] || Vanishes(ids, e.opening)
               then Waits(turn.state, g) && turn.state.retryMs == (if s.retryMs <= 1000 then 2 * s.retryMs else 2000)
               else Follows(turn.state, g + 1, ids) && (turn.state.backend.Pidfd? <==> e.opening.failsAt >= |ids|)
  {
    hide GoodIds, Alternates;
  }

  /** A monitor without descriptors looks again: it keeps the set when it finds the same one, clears it when it finds
      none or the new processes are gone again, and otherwise clears it and publishes the new one. */
  lemma FallbackMonitorFollows(s: State, e: Event)
    requires Mirrors(s) && s.backend.Procfs? && Works(e) && s.kernel.generation + 1 < UINT64_MAX
    ensures var g, ids, turn := s.kernel.generation, e.discovery.ids, Iterate(s, e);
            && turn.ok
            && if ids == s.kernel.ids then Follows(turn.state, g, ids) && turn.state.backend.Procfs?
               else if ids == [] || Vanishes(ids, e.opening) then Waits(turn.state, g + 1)
               else Follows(turn.state, g + 2, ids) && (turn.state.backend.Pidfd? <==> e.opening.failsAt >= |ids|)
  {
    hide GoodIds, Alternates;
  }

  /** A monitor with descriptors does not look, but clears the set as soon as a process exits. */
  lemma WatchingMonitorReacts(s: State, e: Event)
    requires Mirrors(s) && s.backend.Pidfd?
    ensures e.TimedOut? ==> Iterate(s, e) == Turn(s, true)
    ensures e == Exited(Fine) && s.kernel.generation < UINT64_MAX ==>
              && Iterate(s, e).ok && Waits(Iterate(s, e).state, s.kernel.generation + 1)
              && Iterate(s, e).state.retryMs == 50
  {
    hide GoodIds, Alternates;
  }

  /** A look that cannot tell which processes there are clears the set and tries again after a tenth of a second. */
  lemma BlindLookRetries(s: State, e: Event)
    requires Mirrors(s) && !s.backend.Pidfd? && s.kernel.generation < UINT64_MAX
    requires e.TimedOut? && e.whole && e.discovery.Unreadable? && e.again.Fine?
    ensures var turn := Iterate(s, e);
            && turn.ok && turn.state.retryMs == 100
            && Waits(turn.state, s.kernel.generation + if s.kernel.ids == [] then 0 else 1)
  {
    hide GoodIds, Alternates;
  }

  /** A daemon that comes up beside a kernel with a set goes on with it, by descriptors or without, unless one of its
      processes is gone: then it clears the set. */
  lemma StartFollows(kernel: Identities, o: Opening)
    requires GoodIds(kernel.ids) && kernel.ids != [] && kernel.generation < UINT64_MAX
    ensures var turn := Start(kernel, o, Fine);
            && turn.ok
            && if Vanishes(kernel.ids, o) then Waits(turn.state, kernel.generation + 1) && turn.state.retryMs == 50
               else Follows(turn.state, kernel.generation, kernel.ids)
                    && (turn.state.backend.Pidfd? <==> o.failsAt >= |kernel.ids|)
  {
    hide GoodIds;
  }

  /** Every look and every exit of a watched process is counted, up to the 32 bits of the counter. */
  lemma WakeupsAreCounted(s: State, e: Event)
    requires Mirrors(s) && s.wakeups <= 0xffff_ffff
    ensures var wakes := if e.Exited? then s.pidfds != [] else e.TimedOut? && e.whole && !s.backend.Pidfd?;
            Iterate(s, e).state.wakeups == if wakes && s.wakeups < 0xffff_ffff then s.wakeups + 1 else s.wakeups
  {
    hide GoodIds, Alternates;
  }

  /** How long a monitor waits before it looks: its retry time, five seconds, or for an exit. */
  lemma WaitOfBackend(s: State)
    ensures s.backend.Waiting? ==> LifecycleMs(s) == Some(s.retryMs)
    ensures s.backend.Procfs? ==> LifecycleMs(s) == Some(5000)
    ensures s.backend.Pidfd? ==> LifecycleMs(s) == None
  {
  }

  // ---- The monitor, updated in place ----

  class Monitor {
    var active: Identities
    var backend: Backend
    var wakeups: nat
    var retryMs: nat
    var pidfds: seq<nat>
    var kernel: Identities
    ghost var history: seq<Identities>

    ghost function Abstract(): State
      reads this
    {
      State(active, backend, wakeups, retryMs, pidfds, kernel, history)
    }

    /** A monitor before it is initialised, beside a kernel that has some set. */
    constructor (kernel: Identities)
      ensures this.kernel == kernel && history == [kernel]
    {
      this.kernel, history := kernel, [kernel];
      active, backend, wakeups, retryMs, pidfds := Identities(0, []), Waiting, 0, INITIAL_RETRY_MS, [];
    }

    method Initialize(o: Opening, report: Report) returns (ok: bool)
      requires history == [kernel]
      modifies this
      ensures Turn(Abstract(), ok) == Start(old(kernel), o, report)
    {
      backend, wakeups, retryMs, pidfds := Waiting, 0, INITIAL_RETRY_MS, [];
      active := kernel;
      if active.ids == [] { return true; }
      var result := OpenIdentityPidfds(active.ids, o);
      if result.Ready? {
        backend := Pidfd;
        return true;
      }
      if result.Unsupported? {
        backend := Procfs;
        return true;
      }
      ok := ClearMonitored(report);
    }

    /** One descriptor for each identity, in order; at the first that does not open all are closed again. */
    method OpenIdentityPidfds(ids: seq<nat>, o: Opening) returns (result: OpenResult)
      modifies this`pidfds
      ensures result == OpenAll(ids, o)
      ensures pidfds == if result.Ready? then ids else []
    {
      pidfds := [];
      for index := 0 to |ids|
        invariant index <= o.failsAt && pidfds == ids[..index]
      {
        if index == o.failsAt {
          pidfds := [];
          return if o.refused then Unsupported else ProcessGone;
        }
        pidfds := pidfds + [ids[index]];
      }
      return Ready;
    }

    method PublishMonitored(ids: seq<nat>, report: Report) returns (ok: bool)
      modifies this`active, this`kernel, this`history
      ensures Turn(Abstract(), ok) == Publish(old(Abstract()), ids, report)
    {
      if active.generation == UINT64_MAX { return false; }
      var next := Identities(active.generation + 1, ids);
      if next.generation <= kernel.generation || report.Failing? { return false; }
      kernel, history := next, history + [next];
      if report.FailingAfterFlip? { return false; }
      active := next;
      return true;
    }

    method ClearMonitored(report: Report) returns (ok: bool)
      modifies this
      ensures Turn(Abstract(), ok) == Clear(old(Abstract()), report)
    {
      pidfds := [];
      if active.ids != [] {
        ok := PublishMonitored([], report);
        if !ok { return; }
      }
      backend, retryMs := Waiting, INITIAL_RETRY_MS;
      return true;
    }

    method AdoptDiscovered(ids: seq<nat>, o: Opening, report: Report) returns (ok: bool)
      modifies this
      ensures Turn(Abstract(), ok) == Adopt(old(Abstract()), ids, o, report)
    {
      if ids == [] {
        backend, retryMs := Waiting, Doubled(retryMs);
        return true;
      }
      var result := Unsupported;
      if !backend.Procfs? { result := OpenIdentityPidfds(ids, o); }
      if result.ProcessGone? {
        backend, retryMs := Waiting, Doubled(retryMs);
        return true;
      }
      if active.ids != ids {
        ok := PublishMonitored(ids, report);
        if !ok { return; }
      }
      backend := if result.Ready? then Pidfd else Procfs;
      retryMs := INITIAL_RETRY_MS;
      return true;
    }

    method RediscoverIdentities(d: Discovery, o: Opening, cleared: Report, adopted: Report) returns (ok: bool)
      modifies this
      ensures Turn(Abstract(), ok) == Rediscover(old(Abstract()), d, o, cleared, adopted)
    {
      hide Adopt, Clear;
      if wakeups != UINT32_MAX { wakeups := wakeups + 1; }
      if d.Unreadable? { return false; }
      if active.ids != [] && active.ids != d.ids {
        ok := ClearMonitored(cleared);
        if !ok { return; }
      }
      ok := AdoptDiscovered(d.ids, o, adopted);
    }

    /** One turn of the server loop. */
    method Handle(e: Event) returns (ok: bool)
      modifies this
      ensures Turn(Abstract(), ok) == Iterate(old(Abstract()), e)
    {
      hide Clear, Rediscover;
      match e
      case PollFails => return false;
      case Exited(report) =>
        if pidfds == [] { return true; }
        if wakeups != UINT32_MAX { wakeups := wakeups + 1; }
        ok := ClearMonitored(report);
      case TimedOut(whole, discovery, opening, cleared, adopted, again) =>
        if !whole || backend.Pidfd? { return true; }
        ok := RediscoverIdentities(discovery, opening, cleared, adopted);
        if !ok {
          ok := ClearMonitored(again);
          if ok { retryMs := Doubled(retryMs); }
        }
      case _ => return true;
    }

    /** The server: the loop over what its polls meet, and the clearing on the way out. */
    method Serve(events: seq<Event>, leaving: Report) returns (handled: nat, ok: bool)
      modifies this
      ensures handled <= |events|
      ensures var left := Loop(old(Abstract()), events[..handled]);
              && (handled < |events| ==> !left.ok)
              && Abstract() == Clear(left.state, leaving).state.(pidfds := [])
              && ok == (left.ok && Clear(left.state, leaving).ok)
    {
      hide Clear, Iterate;
      handled := 0;
      var going := true;
      ghost var start := Abstract();
      while handled < |events| && going
        invariant handled <= |events|
        invariant Turn(Abstract(), going) == Loop(start, events[..handled])
        decreases |events| - handled
      {
        going := Handle(events[handled]);
        assert events[..handled + 1][..handled] == events[..handled];
        handled := handled + 1;
      }
      var cleared := ClearMonitored(leaving);
      pidfds := [];
      ok := going && cleared;
    }
  }
}
