/** How often a handler tries to take the lock: at most eight times, and it gives up only behind the eighth. */
module LockAttempts {
  import opened Wrappers
  import opened PendingTable
  import opened PendingRuns
  import opened TryLock

  // ---- At most eight ----

  function Loads(steps: seq<Step>, t: nat): nat {
    if steps == [] then 0 else
    Loads(steps[..|steps| - 1], t) + if steps[|steps| - 1] == LoadExclusive(t) then 1 else 0
  }

  /** Attempts a task still has; a load-exclusive uses one up. */
  function AttemptsLeft(pc: Pc): int {
    if pc.Trying? then pc.left else if pc.Loaded? then pc.left - 1 else 0
  }

  function PcAfter(steps: seq<Step>, t: nat): Pc {
    match Exec(steps)
    case None => Idle
    case Some(m) => At(m.tasks, t)
  }

  lemma AttemptUsedLast(steps: seq<Step>, t: nat)
    requires steps != [] && Acquiring(PcAfter(steps, t)) && Acquiring(PcAfter(steps[..|steps| - 1], t))
    ensures AttemptsLeft(PcAfter(steps, t))
         == AttemptsLeft(PcAfter(steps[..|steps| - 1], t)) - if steps[|steps| - 1] == LoadExclusive(t) then 1 else 0
  {
  }

  lemma {:induction false} UsedUp(left: seq<int>, during: seq<Step>, t: nat)
    requires |left| == |during| + 1
    requires forall k :: 0 <= k < |during| ==>
               left[k + 1] == left[k] - if during[k] == LoadExclusive(t) then 1 else 0
    ensures Loads(during, t) + left[|during|] == left[0]
  {
    if during != [] {
      UsedUp(left[..|during|], during[..|during| - 1], t);
    }
  }

  lemma AttemptsLeftAfter(before: seq<Step>, during: seq<Step>, k: nat, t: nat)
    requires k < |during|
    requires Acquiring(PcAfter(before + during[..k], t)) && Acquiring(PcAfter(before + during[..k + 1], t))
    ensures AttemptsLeft(PcAfter(before + during[..k + 1], t))
         == AttemptsLeft(PcAfter(before + during[..k], t)) - if during[k] == LoadExclusive(t) then 1 else 0
  {
    var steps := before + during[..k + 1];
    assert steps[..|steps| - 1] == before + during[..k];
    AttemptUsedLast(steps, t);
  }

  /** However long an acquisition is interleaved with others, it makes at most eight load-exclusive attempts:
      `before` ends with the task starting to acquire, and during all of `during` it is still acquiring. */
  lemma AttemptsBounded(before: seq<Step>, during: seq<Step>, t: nat)
    requires forall k :: 0 <= k <= |during| ==> Acquiring(PcAfter(before + during[..k], t))
    requires AttemptsLeft(PcAfter(before + during[..0], t)) == 8
    ensures Loads(during, t) <= 8
  {
    var left := seq(|during| + 1, k requires 0 <= k <= |during| => AttemptsLeft(PcAfter(before + during[..k], t)));
    forall k | 0 <= k < |during|
      ensures left[k + 1] == left[k] - if during[k] == LoadExclusive(t) then 1 else 0
    {
      AttemptsLeftAfter(before, during, k, t);
    }
    UsedUp(left, during, t);
    AttemptsLeftBounds(before + during[..|during|], t);
  }

  lemma AttemptsLeftBounds(steps: seq<Step>, t: nat)
    ensures AttemptsLeft(PcAfter(steps, t)) >= 0
  {
    if Exec(steps).Some? {
      EveryInterleaving(steps);
    }
  }

  // ---- And no fewer ----

  predicate Begins(step: Step, t: nat) {
    (step.BeginRequest? || step.BeginReply?) && step.who.task == t
  }

  /** The load-exclusive attempts of a task since it last began a call. */
  function LoadsSince(steps: seq<Step>, t: nat): nat {
    if steps == [] then 0 else
    var last := steps[|steps| - 1];
    if Begins(last, t) then 0
    else LoadsSince(steps[..|steps| - 1], t) + if last == LoadExclusive(t) then 1 else 0
  }

  /** An acquisition has as many attempts left as it has not made of eight. */
  ghost predicate AttemptsMade(pc: Pc, loads: nat) {
    && (pc.Trying? ==> 1 <= pc.left && pc.left + loads == 8)
    && (pc.Loaded? ==> 1 <= pc.left && pc.left + loads == 9)
  }

  lemma AttemptsKept(m: Machine, step: Step, t: nat, loads: nat)
    requires Enabled(m, step) && AttemptsMade(At(m.tasks, t), loads)
    ensures var now := if Begins(step, t) then 0 else loads + if step == LoadExclusive(t) then 1 else 0;
            AttemptsMade(At(Next(m, step).tasks, t), now)
  {
    hide Access, CountOutcome, CountReply, CallOf, GenerationOf, Now, Oneway, DeviceId;
  }

  lemma {:induction false} EveryAttemptCounts(steps: seq<Step>, t: nat)
    requires Exec(steps).Some?
    ensures AttemptsMade(PcAfter(steps, t), LoadsSince(steps, t))
  {
    hide Next, Enabled, AttemptsMade;
    if steps == [] {
      NothingAttempted(t);
    } else {
      var n := |steps| - 1;
      EveryAttemptCounts(steps[..n], t);
      AttemptsKept(Exec(steps[..n]).value, steps[n], t, LoadsSince(steps[..n], t));
    }
  }

  lemma NothingAttempted(t: nat)
    ensures AttemptsMade(PcAfter([], t), 0)
  {
  }

  /** What a step drops: a call of its own task, and of one that had a single attempt left. */
  lemma DropsLast(m: Machine, step: Step, t: nat)
    requires Enabled(m, step) && Next(m, step).log != m.log && OwnInv(m)
    requires var call := Next(m, step).log[|m.log|];
             !call.acquired && call.who.task == t && !(call.Request? && call.request.flags % 2 == 1)
    ensures (At(m.tasks, t).Trying? && At(m.tasks, t).left <= 1 && step == LoadExclusive(t))
         || (At(m.tasks, t).Loaded? && At(m.tasks, t).left <= 1 && step.StoreExclusive? && step.task == t)
  {
    hide Access, CountOutcome, CountReply, GenerationOf, DeviceId;
  }

  /** A call is dropped after exactly eight attempts: when one that is not one-way enters the log without the lock,
      its task has made eight load-exclusive attempts since it began. */
  lemma DroppedAfterEight(steps: seq<Step>)
    requires steps != [] && Exec(steps).Some?
    ensures var before, m := Exec(steps[..|steps| - 1]).value, Exec(steps).value;
            m.log != before.log ==>
              && |m.log| == |before.log| + 1
              && var call := m.log[|before.log|];
                 !call.acquired && !(call.Request? && call.request.flags % 2 == 1) ==>
                   LoadsSince(steps, call.who.task) == 8
  {
    hide Access, Next, Enabled, Inv;
    var n := |steps| - 1;
    var before, m := Exec(steps[..n]).value, Exec(steps).value;
    EveryInterleaving(steps[..n]);
    InvOwns(before);
    if m.log != before.log {
      OneLogged(before, steps[n]);
      var call := m.log[|before.log|];
      if !call.acquired && !(call.Request? && call.request.flags % 2 == 1) {
        DropsLast(before, steps[n], call.who.task);
        EveryAttemptCounts(steps[..n], call.who.task);
      }
    }
  }

  lemma InvOwns(m: Machine)
    requires Inv(m)
    ensures OwnInv(m)
  {
  }

  lemma OneLogged(m: Machine, step: Step)
    requires Enabled(m, step) && Next(m, step).log != m.log
    ensures |Next(m, step).log| == |m.log| + 1
  {
    hide Access;
  }

  /** And until then it goes on: a task that stops acquiring has the lock, or has made its eight attempts. */
  lemma KeepsTrying(steps: seq<Step>, t: nat)
    requires steps != [] && Exec(steps).Some? && Acquiring(PcAfter(steps[..|steps| - 1], t))
    ensures Acquiring(PcAfter(steps, t)) || PcAfter(steps, t).Holding? || LoadsSince(steps, t) == 8
    ensures LoadsSince(steps, t) <= 8
  {
    hide Next, Enabled, AttemptsMade;
    var n := |steps| - 1;
    EveryAttemptCounts(steps[..n], t);
    StopsAfterEight(Exec(steps[..n]).value, steps[n], t, LoadsSince(steps[..n], t));
  }

  lemma StopsAfterEight(m: Machine, step: Step, t: nat, loads: nat)
    requires Enabled(m, step) && Acquiring(At(m.tasks, t)) && AttemptsMade(At(m.tasks, t), loads)
    ensures var pc := At(Next(m, step).tasks, t);
            var now := if Begins(step, t) then 0 else loads + if step == LoadExclusive(t) then 1 else 0;
            (Acquiring(pc) || pc.Holding? || now == 8) && now <= 8
  {
    hide Access, CountOutcome, CountReply, CallOf, GenerationOf, Now, Oneway, DeviceId;
  }
}
