/** Waiting for a quiet system before the hook is installed: samples at a fixed poll, a window of consecutive quiet
    pairs, and a deadline behind which the wait gives up. */
module StartupReadiness {
  import opened Numbers
  import opened Wrappers

  datatype Policy = Policy(pollMs: nat, stableMs: nat, deadlineMs: nat, maxCpuPermille: nat)

  datatype Process = Process(pid: int, state: char, startTime: nat, cpuTicks: nat)

  datatype Observation = Observation(
    bootAnimationStopped: bool, bootComplete: bool, storageReady: bool, serviceManager: bool, mediaDrm: bool,
    drmService: bool, systemServer: Process, surfaceFlinger: Process, processCount: nat)

  // ---- The policy ----

  /** A variable of the environment as a number, if it is one. */
  function Bounded(value: Option<nat>, fallback: nat, minimum: nat, maximum: nat): (r: nat)
    requires minimum <= fallback <= maximum
    ensures minimum <= r <= maximum
    ensures r == fallback || value == Some(r)
    ensures value.Some? && minimum <= value.value <= maximum ==> value == Some(r)
  {
    if value.Some? && minimum <= value.value <= maximum then value.value else fallback
  }

  /** What the rest of the module relies on. */
  predicate Usable(p: Policy) {
    && 100 <= p.pollMs <= 1000 && 1000 <= p.stableMs <= 15000 && 5000 <= p.deadlineMs <= 60000
    && 50 <= p.maxCpuPermille <= 4000 && p.stableMs <= p.deadlineMs
  }

  /** Every policy that the environment can produce is usable; unset variables give the defaults. */
  function FromEnvironment(poll: Option<nat>, stable: Option<nat>, deadline: Option<nat>, cpu: Option<nat>): (p: Policy)
    ensures Usable(p)
    ensures poll.None? && stable.None? && deadline.None? && cpu.None? ==> p == Policy(250, 3000, 45000, 500)
    ensures p.pollMs == (if poll.Some? && 100 <= poll.value <= 1000 then poll.value else 250)
    ensures p.stableMs == (if stable.Some? && 1000 <= stable.value <= 15000 then stable.value else 3000)
    ensures p.maxCpuPermille == (if cpu.Some? && 50 <= cpu.value <= 4000 then cpu.value else 500)
    ensures var asked := if deadline.Some? && 5000 <= deadline.value <= 60000 then deadline.value else 45000;
            p.deadlineMs >= asked && p.deadlineMs >= p.stableMs && p.deadlineMs in {asked, p.stableMs}
  {
    var stableMs := Bounded(stable, 3000, 1000, 15000);
    var deadlineMs := Bounded(deadline, 45000, 5000, 60000);
    Policy(Bounded(poll, 250, 100, 1000), stableMs, if deadlineMs < stableMs then stableMs else deadlineMs,
           Bounded(cpu, 500, 50, 4000))
  }

  // ---- One pair of samples ----

  predicate Alive(p: Process) {
    p.pid > 1 && p.startTime != 0 && p.state !in {'Z', 'X', 'x', '?'}
  }

  function Bit(b: bool, weight: nat): nat { if b then weight else 0 }

  function ReadinessBits(o: Observation): nat {
    Bit(o.bootAnimationStopped, 1) + Bit(o.bootComplete, 2) + Bit(o.storageReady, 4) + Bit(o.serviceManager, 8)
    + Bit(o.mediaDrm, 16) + Bit(o.drmService, 32) + Bit(Alive(o.systemServer), 64) + Bit(Alive(o.surfaceFlinger), 128)
  }

  predicate BaseServicesReady(o: Observation) {
    ReadinessBits(o) == 0xff && o.processCount != 0
  }

  lemma ReadyMeansEverything(o: Observation)
    ensures BaseServicesReady(o) <==>
              && o.bootAnimationStopped && o.bootComplete && o.storageReady && o.serviceManager && o.mediaDrm
              && o.drmService && Alive(o.systemServer) && Alive(o.surfaceFlinger) && o.processCount != 0
  {
  }

  /** No process is init or unknown, and its state is neither zombie nor dead. */
  lemma AliveExactlyWhen(p: Process)
    ensures Alive(p) <==>
              p.pid >= 2 && p.startTime > 0 && p.state != 'Z' && p.state != 'X' && p.state != 'x' && p.state != '?'
  {
  }

  /** The ticks a process may use between two samples. The 64-bit product wraps. */
  function AllowedTicks(p: Policy, clock: nat): nat {
    p.maxCpuPermille * p.pollMs * clock % WORD64 / 1000000 + 1
  }

  predicate SameProcess(a: Process, b: Process) {
    a.pid == b.pid && a.startTime == b.startTime
  }

  predicate Quiet(previous: Observation, current: Observation, p: Policy, clock: nat) {
    && BaseServicesReady(current) && Alive(previous.systemServer) && Alive(previous.surfaceFlinger)
    && SameProcess(previous.systemServer, current.systemServer)
    && SameProcess(previous.surfaceFlinger, current.surfaceFlinger)
    && previous.processCount == current.processCount
    && clock != 0 && p.pollMs != 0
    && 0 <= current.systemServer.cpuTicks - previous.systemServer.cpuTicks <= AllowedTicks(p, clock)
    && 0 <= current.surfaceFlinger.cpuTicks - previous.surfaceFlinger.cpuTicks <= AllowedTicks(p, clock)
  }

  /** The share of the processor that a process may have used, as long as the product does not wrap: no more than
      one tick beyond maxCpuPermille thousandths of the clock's ticks in the poll. */
  lemma QuietTicks(p: Policy, clock: nat, used: nat)
    requires p.maxCpuPermille * p.pollMs * clock < 0x1_0000_0000_0000_0000
    ensures used <= AllowedTicks(p, clock) <==> (used - 1) * 1000000 <= p.maxCpuPermille * p.pollMs * clock
  {
    var n := p.maxCpuPermille * p.pollMs * clock;
    NoWrap(n);
    Quotient(n, used - 1);
  }

  lemma NoWrap(n: nat)
    requires n < WORD64
    ensures n % WORD64 == n
  {
  }

  lemma Quotient(n: nat, m: int)
    ensures m <= n / 1000000 <==> m * 1000000 <= n
  {
  }

  /** A pair is quiet when everything is ready now, both processes are the ones they were, as many processes run as
      before, and neither has used more than it may. */
  lemma QuietExactlyWhen(previous: Observation, current: Observation, p: Policy, clock: nat)
    requires p.pollMs > 0 && p.maxCpuPermille * p.pollMs * clock < 0x1_0000_0000_0000_0000
    ensures Quiet(previous, current, p, clock) <==>
              && BaseServicesReady(current) && Alive(previous.systemServer) && Alive(previous.surfaceFlinger)
              && previous.systemServer.pid == current.systemServer.pid
              && previous.systemServer.startTime == current.systemServer.startTime
              && previous.surfaceFlinger.pid == current.surfaceFlinger.pid
              && previous.surfaceFlinger.startTime == current.surfaceFlinger.startTime
              && previous.processCount == current.processCount && clock > 0
              && (var used := current.systemServer.cpuTicks - previous.systemServer.cpuTicks;
                  used >= 0 && (used - 1) * 1000000 <= p.maxCpuPermille * p.pollMs * clock)
              && (var used := current.surfaceFlinger.cpuTicks - previous.surfaceFlinger.cpuTicks;
                  used >= 0 && (used - 1) * 1000000 <= p.maxCpuPermille * p.pollMs * clock)
  {
    hide BaseServicesReady, Alive, AllowedTicks;
    var system := current.systemServer.cpuTicks - previous.systemServer.cpuTicks;
    var flinger := current.surfaceFlinger.cpuTicks - previous.surfaceFlinger.cpuTicks;
    if system >= 0 { QuietTicks(p, clock, system); }
    if flinger >= 0 { QuietTicks(p, clock, flinger); }
  }

  // ---- The window ----

  /** How many pairs in a row have been quiet at sample i. */
  function QuietRun(samples: nat -> Observation, p: Policy, clock: nat, i: nat): (n: nat)
    ensures n <= i
  {
    if i > 0 && Quiet(samples(i - 1), samples(i), p, clock) then QuietRun(samples, p, clock, i - 1) + 1 else 0
  }

  /** The number of pairs that cover the stable time. */
  function Pairs(p: Policy): nat
    requires p.pollMs > 0
  {
    (p.stableMs + p.pollMs - 1) / p.pollMs
  }

  lemma PairsCover(p: Policy, n: nat)
    requires p.pollMs > 0
    ensures n * p.pollMs >= p.stableMs <==> n >= Pairs(p)
  {
    var k := Pairs(p);
    assert k * p.pollMs >= p.stableMs > (k - 1) * p.pollMs || p.stableMs == 0 by { CeilingIs(p.stableMs, p.pollMs); }
    if n >= k {
      Monotone(k, n, p.pollMs);
    } else {
      Monotone(n, k - 1, p.pollMs);
    }
  }

  lemma CeilingIs(a: nat, b: nat)
    requires b > 0
    ensures var k := (a + b - 1) / b;
            k * b >= a && (a > 0 ==> a > (k - 1) * b) && (a == 0 ==> k == 0)
  {
    var k, r := (a + b - 1) / b, (a + b - 1) % b;
    assert a + b - 1 == b * k + r;
    assert (k - 1) * b == b * k - b;
    if a == 0 { SmallQuotient(b); }
  }

  lemma SmallQuotient(b: nat)
    requires b > 0
    ensures (b - 1) / b == 0
  {
  }

  lemma Monotone(a: int, b: int, c: nat)
    requires a <= b
    ensures a * c <= b * c
  {
  }

  /** The last n pairs up to sample i are all quiet. */
  ghost predicate Window(samples: nat -> Observation, p: Policy, clock: nat, i: nat, n: nat) {
    n <= i && forall j :: i - n < j <= i ==> Quiet(samples(j - 1), samples(j), p, clock)
  }

  /** The count is at least n exactly when the last n pairs are quiet. */
  lemma {:induction false} RunIsWindow(samples: nat -> Observation, p: Policy, clock: nat, i: nat, n: nat)
    ensures QuietRun(samples, p, clock, i) >= n <==> Window(samples, p, clock, i, n)
    decreases n
  {
    hide Quiet;
    if n > 0 && i > 0 {
      RunIsWindow(samples, p, clock, i - 1, n - 1);
      if Window(samples, p, clock, i, n) {
        assert Quiet(samples(i - 1), samples(i), p, clock);
      }
    }
  }

  /** Across a window both processes stay the same and alive, no process comes or goes, and the processor time
      each has used grows by no more than what is allowed for each pair. */
  lemma {:induction false} WindowIsStable(samples: nat -> Observation, p: Policy, clock: nat, i: nat, n: nat, a: nat,
                                          b: nat)
    requires Window(samples, p, clock, i, n) && i - n <= a <= b <= i
    ensures SameProcess(samples(a).systemServer, samples(b).systemServer)
    ensures SameProcess(samples(a).surfaceFlinger, samples(b).surfaceFlinger)
    ensures samples(a).processCount == samples(b).processCount
    ensures var allowed := (b - a) * AllowedTicks(p, clock);
            && 0 <= samples(b).systemServer.cpuTicks - samples(a).systemServer.cpuTicks <= allowed
            && 0 <= samples(b).surfaceFlinger.cpuTicks - samples(a).surfaceFlinger.cpuTicks <= allowed
    ensures a < b ==> BaseServicesReady(samples(b))
    decreases b - a
  {
    hide AllowedTicks, BaseServicesReady;
    if a < b {
      WindowIsStable(samples, p, clock, i, n, a, b - 1);
      assert Quiet(samples(b - 1), samples(b), p, clock);
      var allowed := AllowedTicks(p, clock);
      assert (b - a) * allowed == (b - 1 - a) * allowed + allowed;
    }
  }

  // ---- The wait ----

  datatype Outcome = Outcome(elapsedMs: nat, stableMs: nat, fallback: bool, observation: Option<Observation>)

  /** The wait, over whatever is sampled. It ends by the deadline. It is satisfied at the first sample that
      closes a window of quiet pairs as long as the stable time, and gives up exactly when there is none. */
  method WaitForReadiness(p: Policy, clock: nat, samples: nat -> Observation) returns (out: Outcome, ghost last: nat)
    requires Usable(p)
    ensures out.elapsedMs <= p.deadlineMs
    ensures out.fallback ==> out.elapsedMs == p.deadlineMs
    ensures !out.fallback ==>
              && out.elapsedMs == last * p.pollMs < p.deadlineMs && out.stableMs == p.stableMs
              && out.observation == Some(samples(last))
              && Window(samples, p, clock, last, Pairs(p))
    ensures forall i: nat :: i * p.pollMs < p.deadlineMs && (out.fallback || i < last) ==>
              !Window(samples, p, clock, i, Pairs(p))
  {
    hide Quiet, Window, Pairs;
    out := Outcome(0, 0, false, None);
    var k := 0;
    while out.elapsedMs < p.deadlineMs
      invariant out.elapsedMs == Min(k * p.pollMs, p.deadlineMs) && !out.fallback
      invariant k > 0 ==> out.observation == Some(samples(k - 1))
      invariant out.stableMs < p.stableMs
      invariant out.stableMs == if k == 0 then 0 else QuietRun(samples, p, clock, k - 1) * p.pollMs
      invariant forall i: nat :: i < k ==> !Window(samples, p, clock, i, Pairs(p))
      decreases p.deadlineMs - out.elapsedMs
    {
      var previous := out.observation;
      var current := samples(k);
      var quiet := k > 0 && Quiet(previous.value, current, p, clock);
      RunGrows(samples, p, clock, k);
      var run := QuietRun(samples, p, clock, k);
      PairsCover(p, run);
      RunIsWindow(samples, p, clock, k, Pairs(p));
      var stable := if quiet then Min(p.stableMs, out.stableMs + p.pollMs) else 0;
      out := out.(stableMs := stable, observation := Some(current));
      if stable >= p.stableMs { return out, k; }
      var elapsed := if p.deadlineMs - out.elapsedMs < p.pollMs then p.deadlineMs else out.elapsedMs + p.pollMs;
      assert (k + 1) * p.pollMs == k * p.pollMs + p.pollMs;
      out := out.(elapsedMs := elapsed);
      k := k + 1;
    }
    forall i: nat | i * p.pollMs < p.deadlineMs ensures !Window(samples, p, clock, i, Pairs(p)) {
      if i >= k { Monotone(k, i, p.pollMs); }
    }
    return out.(fallback := true), k;
  }

  lemma RunGrows(samples: nat -> Observation, p: Policy, clock: nat, k: nat)
    ensures QuietRun(samples, p, clock, k) * p.pollMs ==
              if k > 0 && Quiet(samples(k - 1), samples(k), p, clock)
              then QuietRun(samples, p, clock, k - 1) * p.pollMs + p.pollMs else 0
  {
  }
}
