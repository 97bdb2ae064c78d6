/** Persist, then publish. The WebUI asks the daemon for its status, writes the control file under the next
    generation, and asks the daemon to apply it; a daemon that comes up installs what the file holds. Requests can
    fail at any point, and the daemon can stop and come up again between any two of them. */
module GenerationProtocol {
  import opened Numbers
  import opened Wrappers

  const ID_BYTES := 32

  datatype Config = Config(generation: nat, seed: nat, fingerprint: nat, mode: nat, id: seq<nat>)

  /** The fingerprint of an id is a parameter: nothing here depends on how it is computed. */
  type Fingerprint = seq<nat> -> nat

  /** What a control file can hold, written by this version or migrated. */
  predicate Recorded(c: Config) {
    && 0 < c.generation <= UINT64_MAX && c.seed != 0 && c.fingerprint != 0 && c.mode <= 1 && |c.id| == ID_BYTES
  }

  predicate Valid(fp: Fingerprint, c: Config) {
    Recorded(c) && c.fingerprint == fp(c.id)
  }

  /** What the form asks for: a mode, and a new id or seed unless they are kept. */
  datatype Choice = Choice(mode: nat, id: Option<seq<nat>>, seed: Option<nat>)

  function Chosen(fp: Fingerprint, file: Config, choice: Choice, generation: nat): Config {
    var id := if choice.id.Some? then choice.id.value else file.id;
    Config(generation, if choice.seed.Some? then choice.seed.value else file.seed, fp(id), choice.mode, id)
  }

  /** Where the WebUI is: idle, with a status in hand, with the file written, or waiting for the apply. */
  datatype Client = Idle | Asked(status: Config) | Saved | Waiting

  /** The control file, the active configuration while a daemon is up, whether an apply waits in its queue, the
      WebUI, and every configuration that was active, in order. */
  datatype State = State(
    file: Option<Config>, kernel: Option<Config>, queued: bool, client: Client, history: seq<Config>)

  const FRESH := State(None, None, false, Idle, [])

  /** How handling an apply goes: well, failing with nothing done, or failing behind the switch of the slot index,
      which takes effect and is reported as a failure. */
  datatype Outcome = Good | FailsBefore | FailsAfter

  /** The first file is the generated one, under generation 1, or a migrated one under any. */
  datatype Step =
    | DaemonStart(initial: Config, writes: bool, comesUp: bool)
    | DaemonStop
    | Status
    | Persist(choice: Choice, writes: bool)
    | SendApply
    | HandleApply(outcome: Outcome)
    | Crash

  /** The daemon answers in the order of the requests, so no status is read past a waiting apply. */
  predicate Enabled(fp: Fingerprint, s: State, step: Step) {
    match step
    case DaemonStart(initial, _, _) => s.kernel.None? && Recorded(initial)
    case DaemonStop => s.kernel.Some?
    case Status => s.client.Idle? && s.kernel.Some? && !s.queued
    case Persist(choice, _) => s.client.Asked? && choice.mode <= 1
    case SendApply => s.client.Saved?
    case HandleApply(_) => s.queued && s.kernel.Some?
    case Crash => true
  }

  /** The status already shows what the form asks for. */
  predicate NoOp(status: Config, c: Config) {
    status.mode == c.mode && status.fingerprint == c.fingerprint
  }

  /** The configuration that a persist step writes, if it writes one. */
  function Saves(fp: Fingerprint, s: State, step: Step): Option<Config>
    requires step.Persist? && s.client.Asked?
  {
    if s.file.None? then None else
    var c := Chosen(fp, s.file.value, step.choice, s.client.status.generation + 1);
    if NoOp(s.client.status, c) || s.client.status.generation == UINT64_MAX || !Recorded(c) || !step.writes then None
    else Some(c)
  }

  function Activate(s: State, c: Config): State {
    s.(kernel := Some(c), history := s.history + [c])
  }

  function Next(fp: Fingerprint, s: State, step: Step): State
    requires Enabled(fp, s, step)
  {
    match step
    case DaemonStart(initial, writes, comesUp) =>
      var t := if s.file.None? && writes then s.(file := Some(initial)) else s;
      if t.file.Some? && t.file.value.fingerprint == fp(t.file.value.id) && comesUp
      then Activate(t, t.file.value) else t
    case DaemonStop => s.(kernel := None, queued := false, client := if s.client.Waiting? then Idle else s.client)
    case Status => s.(client := Asked(s.kernel.value))
    case Persist(_, _) =>
      var saved := Saves(fp, s, step);
      if saved.Some? then s.(file := saved, client := Saved) else s.(client := Idle)
    case SendApply => if s.kernel.Some? then s.(queued := true, client := Waiting) else s.(client := Idle)
    case HandleApply(outcome) =>
      var t := s.(queued := false, client := if s.client.Waiting? then Idle else s.client);
      if s.file.Some? && !outcome.FailsBefore? && s.file.value.generation > s.kernel.value.generation
      then Activate(t, s.file.value) else t
    case Crash => s.(client := Idle)
  }

  function After(fp: Fingerprint, s: State, steps: seq<Step>): Option<State> {
    if steps == [] then Some(s) else
    match After(fp, s, steps[..|steps| - 1])
    case None => None
    case Some(t) => if Enabled(fp, t, steps[|steps| - 1]) then Some(Next(fp, t, steps[|steps| - 1])) else None
  }

  function Latest(s: State): Config
    requires s.history != []
  {
    s.history[|s.history| - 1]
  }

  /** The generations that were active never go down, and none was active with two configurations. */
  ghost predicate Consistent(h: seq<Config>) {
    forall i, j :: 0 <= i < j < |h| ==>
      h[i].generation <= h[j].generation && (h[i].generation == h[j].generation ==> h[i] == h[j])
  }

  /** The file is at the generation of the latest active configuration, and is then the same, or one ahead. */
  predicate InStep(s: State) {
    s.file.Some? && s.history != [] ==>
      s.file.value == Latest(s) || s.file.value.generation == Latest(s).generation + 1
  }

  ghost predicate Invariant(fp: Fingerprint, s: State) {
    && (s.file.Some? ==> Recorded(s.file.value) && (s.history != [] ==> Valid(fp, s.file.value)))
    && (s.file.None? ==> s.history == [])
    && Consistent(s.history) && InStep(s)
    && (s.kernel.Some? ==> s.history != [] && s.kernel.value == Latest(s))
    && (s.queued ==> s.kernel.Some? && (s.client.Idle? || s.client.Waiting?))
    && (s.client.Asked? ==>
          s.history != [] && (s.client.status == Latest(s)
            || (s.client.status.generation + 1 == Latest(s).generation && s.file == Some(Latest(s)))))
  }

  /** A write under a number that is already taken: since the status was read a restart has made the pending file
      active, and what is written now differs from it. */
  predicate Overwrites(fp: Fingerprint, s: State, step: Step) {
    && step.Persist? && s.client.Asked? && s.history != []
    && s.client.status.generation != Latest(s).generation
    && Saves(fp, s, step).Some? && Saves(fp, s, step) != s.file
  }

  lemma ActivateKeeps(fp: Fingerprint, s: State)
    requires Invariant(fp, s) && s.file.Some? && Valid(fp, s.file.value) && !s.queued
    requires s.client.Asked? ==> s.kernel.None?
    ensures Invariant(fp, Activate(s, s.file.value))
  {
  }

  /** Every step keeps the invariant, except exactly the one that writes under a number already taken. */
  lemma StepKeeps(fp: Fingerprint, s: State, step: Step)
    requires Invariant(fp, s) && Enabled(fp, s, step)
    ensures Invariant(fp, Next(fp, s, step)) <==> !Overwrites(fp, s, step)
  {
    hide Consistent, Valid, NoOp;
    match step
    case DaemonStart(initial, writes, comesUp) =>
      var t := if s.file.None? && writes then s.(file := Some(initial)) else s;
      assert Invariant(fp, t);
      if t.file.Some? && t.file.value.fingerprint == fp(t.file.value.id) {
        FingerprintMakesValid(fp, t.file.value);
        ActivateKeeps(fp, t);
      }
    case HandleApply(outcome) =>
      var t := s.(queued := false, client := if s.client.Waiting? then Idle else s.client);
      assert Invariant(fp, t);
      if s.file.Some? { ActivateKeeps(fp, t); }
    case Persist(_, _) => if Saves(fp, s, step).Some? { SavedGeneration(fp, s, step); }
    case _ =>
  }

  lemma FingerprintMakesValid(fp: Fingerprint, c: Config)
    requires c.fingerprint == fp(c.id)
    ensures Valid(fp, c) <==> Recorded(c)
  {
  }

  lemma SavedGeneration(fp: Fingerprint, s: State, step: Step)
    requires step.Persist? && s.client.Asked? && Saves(fp, s, step).Some?
    ensures Saves(fp, s, step).value.generation == s.client.status.generation + 1
    ensures Valid(fp, Saves(fp, s, step).value)
  {
  }

  ghost predicate NeverOverwrites(fp: Fingerprint, s: State, steps: seq<Step>) {
    forall i :: 0 <= i < |steps| && After(fp, s, steps[..i]).Some? ==>
      !Overwrites(fp, After(fp, s, steps[..i]).value, steps[i])
  }

  /** Every run in which no write takes a used number: through failures, crashes and restarts the file is in step
      with the kernel, the active generation never goes down, and no number is active with two configurations. */
  lemma {:induction false} EveryRun(fp: Fingerprint, steps: seq<Step>)
    requires After(fp, FRESH, steps).Some? && NeverOverwrites(fp, FRESH, steps)
    ensures Invariant(fp, After(fp, FRESH, steps).value)
  {
    hide Invariant, Enabled, Next, Overwrites;
    if steps == [] {
      FreshIsInvariant(fp);
    } else {
      var n := |steps| - 1;
      var before := steps[..n];
      forall i | 0 <= i < n && After(fp, FRESH, before[..i]).Some?
        ensures !Overwrites(fp, After(fp, FRESH, before[..i]).value, before[i])
      {
        assert before[..i] == steps[..i];
      }
      EveryRun(fp, before);
      StepKeeps(fp, After(fp, FRESH, before).value, steps[n]);
    }
  }

  lemma FreshIsInvariant(fp: Fingerprint)
    ensures Invariant(fp, FRESH)
  {
  }

  lemma Take(fp: Fingerprint, s0: State, steps: seq<Step>, s: State, step: Step)
    returns (steps': seq<Step>, t: State)
    requires After(fp, s0, steps) == Some(s) && Enabled(fp, s, step)
    ensures steps' == steps + [step] && t == Next(fp, s, step) && After(fp, s0, steps') == Some(t)
  {
    assert (steps + [step])[..|steps|] == steps;
    steps', t := steps + [step], Next(fp, s, step);
  }

  /** The step that must not happen can happen. From any first file, a pending file and a restart between the
      status and the write let two different configurations be active under one generation. */
  lemma RestartBetweenStatusAndWrite(fp: Fingerprint, init: Config, a: Choice, b: Choice)
    requires Valid(fp, init) && a.mode <= 1 && b.mode <= 1
    requires var next := init.generation + 1;
             var c := Chosen(fp, init, a, next);
             var d := Chosen(fp, c, b, next);
             Valid(fp, c) && !NoOp(init, c) && Valid(fp, d) && !NoOp(init, d) && c != d
    ensures exists steps :: After(fp, FRESH, steps).Some?
              && var h := After(fp, FRESH, steps).value.history;
                 |h| == 3 && h[1].generation == h[2].generation == init.generation + 1 && h[1] != h[2]
  {
    hide Valid, Recorded, NoOp, After, Chosen;
    var next := init.generation + 1;
    var c := Chosen(fp, init, a, next);
    var d := Chosen(fp, c, b, next);
    IsRecorded(fp, init);
    IsRecorded(fp, c);
    IsRecorded(fp, d);
    GenerationChosen(fp, init, a, next);
    GenerationChosen(fp, c, b, next);
    var steps, s := PendingWithStatus(fp, init, a);
    steps, s := Restart(fp, FRESH, steps, s, init);
    steps, s := Take(fp, FRESH, steps, s, Persist(b, true));
    steps, s := Restart(fp, FRESH, steps, s, init);
    assert s.history == [init, c, d];
    assert After(fp, FRESH, steps).value.history == s.history;
  }

  lemma IsRecorded(fp: Fingerprint, c: Config)
    requires Valid(fp, c)
    ensures Recorded(c) && c.fingerprint == fp(c.id) && c.generation <= UINT64_MAX
  {
  }

  lemma GenerationChosen(fp: Fingerprint, file: Config, choice: Choice, generation: nat)
    ensures Chosen(fp, file, choice, generation).generation == generation
  {
  }

  /** The next generation is pending, and the WebUI has read the status of the active one again. */
  lemma PendingWithStatus(fp: Fingerprint, init: Config, a: Choice) returns (steps: seq<Step>, s: State)
    requires Valid(fp, init) && a.mode <= 1
    requires var c := Chosen(fp, init, a, init.generation + 1); Valid(fp, c) && !NoOp(init, c)
    ensures After(fp, FRESH, steps) == Some(s)
    ensures s == State(Some(Chosen(fp, init, a, init.generation + 1)), Some(init), false, Asked(init), [init])
  {
    hide NoOp, After, Chosen, Recorded, Valid;
    IsRecorded(fp, init);
    IsRecorded(fp, Chosen(fp, init, a, init.generation + 1));
    GenerationChosen(fp, init, a, init.generation + 1);
    AfterItself(fp, FRESH);
    steps, s := Take(fp, FRESH, [], FRESH, DaemonStart(init, true, true));
    assert [] + [init] == [init];
    steps, s := Take(fp, FRESH, steps, s, Status);
    steps, s := Take(fp, FRESH, steps, s, Persist(a, true));
    steps, s := Take(fp, FRESH, steps, s, Crash);
    steps, s := Take(fp, FRESH, steps, s, Status);
  }

  lemma Restart(fp: Fingerprint, s0: State, steps: seq<Step>, s: State, init: Config)
    returns (steps': seq<Step>, t: State)
    requires After(fp, s0, steps) == Some(s) && s.kernel.Some? && Recorded(init)
    requires s.file.Some? && Valid(fp, s.file.value) && !s.client.Waiting?
    ensures After(fp, s0, steps') == Some(t)
    ensures t == s.(kernel := s.file, queued := false, history := s.history + [s.file.value])
  {
    hide After, Recorded, Valid;
    IsRecorded(fp, s.file.value);
    steps', t := Take(fp, s0, steps, s, DaemonStop);
    steps', t := Take(fp, s0, steps', t, DaemonStart(init, true, true));
  }

  // ---- The WebUI's request handler ----

  lemma AfterItself(fp: Fingerprint, s: State)
    ensures After(fp, s, []) == Some(s)
  {
  }

  /** How the answer to the apply request fares: it comes, it comes too late for the WebUI, or the daemon stops. */
  datatype Answer = Comes | Late | Never

  /** How the calls of one request go: whether the daemon answers for its status, how an apply still queued by then
      is handled, whether the file can be read and written, and the same for the apply of this request. */
  datatype Chances = Chances(
    asks: bool, earlier: Outcome, reads_: bool, writes: bool, answer: Answer, outcome: Outcome)

  /** What the daemon does in the meantime. */
  function Meanwhile(fp: Fingerprint, s: State, between: seq<Step>): State {
    if between == [] then s else
    var n := |between| - 1;
    var t := Meanwhile(fp, s, between[..n]);
    if Enabled(fp, t, between[n]) then Next(fp, t, between[n]) else t
  }

  /** Behind the status: an apply queued before it has been handled. */
  function AfterStatus(fp: Fingerprint, s: State, earlier: Outcome): State
    requires s.kernel.Some? && s.client.Idle?
  {
    Next(fp, if s.queued then Next(fp, s, HandleApply(earlier)) else s, Status)
  }

  function Wanted(fp: Fingerprint, s: State, choice: Choice): Config
    requires s.file.Some? && s.client.Asked?
  {
    Chosen(fp, s.file.value, choice, s.client.status.generation + 1)
  }

  /** The HTTP status of a request that has its status in hand. */
  function Code(fp: Fingerprint, s: State, choice: Choice, ch: Chances): nat
    requires s.client.Asked?
  {
    if s.file.None? || !ch.reads_ then 409
    else if NoOp(s.client.status, Wanted(fp, s, choice)) then 200
    else if s.client.status.generation == UINT64_MAX then 409
    else if !Recorded(Wanted(fp, s, choice)) || !ch.writes then 500
    else if s.kernel.None? || !ch.answer.Comes? then 503
    else if ch.outcome.Good? && s.kernel.value.generation <= Wanted(fp, s, choice).generation then 200 else 409
  }

  /** The state it leaves. */
  function Left(fp: Fingerprint, s: State, choice: Choice, ch: Chances): State
    requires s.client.Asked?
  {
    var saved := Saves(fp, s, Persist(choice, ch.writes));
    if !ch.reads_ || saved.None? then s.(client := Idle) else
    var t := s.(file := saved, client := Idle);
    if s.kernel.None? then t else
    match ch.answer
    case Late => t.(queued := true)
    case Never => t.(kernel := None)
    case Comes =>
      if !ch.outcome.FailsBefore? && saved.value.generation > s.kernel.value.generation
      then Activate(t, saved.value) else t
  }

  /** The active configuration is what the form asked for. */
  predicate Shows(fp: Fingerprint, s: State, choice: Choice) {
    && s.kernel.Some? && s.file.Some?
    && s.kernel.value.mode == choice.mode
    && s.kernel.value.fingerprint == fp(if choice.id.Some? then choice.id.value else s.file.value.id)
  }

  /** The id and the seed that the request wants, and whether it asks for what the status already shows. */
  function IdOf(file: Config, choice: Choice): seq<nat> {
    if choice.id.Some? then choice.id.value else file.id
  }

  function SeedOf(file: Config, choice: Choice): nat {
    if choice.seed.Some? then choice.seed.value else file.seed
  }

  predicate Unchanged(fp: Fingerprint, s: State, choice: Choice)
    requires s.client.Asked? && s.file.Some?
  {
    s.client.status.mode == choice.mode && s.client.status.fingerprint == fp(IdOf(s.file.value, choice))
  }

  /** Whether a file can hold what the request wants. */
  predicate Storable(fp: Fingerprint, file: Config, choice: Choice) {
    && choice.mode <= 1 && |IdOf(file, choice)| == 32 && fp(IdOf(file, choice)) != 0 && SeedOf(file, choice) != 0
  }

  /** Whether the request gets as far as the file. */
  predicate Writes(fp: Fingerprint, s: State, choice: Choice, ch: Chances)
    requires s.client.Asked? && s.file.Some?
  {
    && ch.reads_ && !Unchanged(fp, s, choice) && s.client.status.generation != 0xffff_ffff_ffff_ffff
    && Storable(fp, s.file.value, choice) && ch.writes
  }

  /** The file takes the wanted mode, id, fingerprint and seed under the generation behind the one of the status, or
      nothing happens at all; whatever the daemon has done since the status. */
  lemma FileFollows(fp: Fingerprint, s: State, choice: Choice, ch: Chances)
    requires s.client.Asked? && s.file.Some? && s.client.status.generation <= UINT64_MAX
    ensures var after, id := Left(fp, s, choice, ch), IdOf(s.file.value, choice);
            if Writes(fp, s, choice, ch) then
              after.file == Some(Config(s.client.status.generation + 1, SeedOf(s.file.value, choice), fp(id),
                                        choice.mode, id))
            else after == s.(client := Idle)
  {
  }

  /** When the daemon has been left alone since the status: 200 means that what was asked for is active, and is
      returned exactly when it was active before or everything went well. A 409 or 503 behind the write leaves it in
      the file, active or pending. */
  ghost predicate Honest(fp: Fingerprint, s: State, choice: Choice, ch: Chances, code: nat, after: State)
    requires s.client.Asked? && s.file.Some?
  {
    var done, written := Unchanged(fp, s, choice), Writes(fp, s, choice, ch);
    && code in {200, 409, 500, 503}
    && (code == 200 ==> Shows(fp, after, choice))
    && (code == 200 <==> (done && ch.reads_) || (written && ch.answer.Comes? && ch.outcome.Good?))
    && (code == 500 <==> ch.reads_ && !done && !written && s.client.status.generation != 0xffff_ffff_ffff_ffff)
    && (code == 503 <==> written && !ch.answer.Comes?)
    && (!written ==> after == s.(client := Idle))
    && (written && ch.answer.Comes? ==>
          var active := !ch.outcome.FailsBefore?;
          && after.file.Some? && after.file.value.generation == s.client.status.generation + 1
          && after.kernel == (if active then after.file else s.kernel)
          && after.history == (if active then s.history + [after.file.value] else s.history))
    && (written && ch.answer.Late? ==> after == s.(file := after.file, queued := true, client := Idle))
    && (written && ch.answer.Never? ==> after == s.(file := after.file, kernel := None, client := Idle))
  }

  lemma LeftAloneIsHonest(fp: Fingerprint, s: State, choice: Choice, ch: Chances)
    requires Invariant(fp, s) && s.client.Asked? && s.kernel == Some(s.client.status)
    ensures s.file.Some? && Honest(fp, s, choice, ch, Code(fp, s, choice, ch), Left(fp, s, choice, ch))
  {
    hide Consistent;
    FileFollows(fp, s, choice, ch);
  }

  lemma TakeAndKeep(fp: Fingerprint, s0: State, steps: seq<Step>, s: State, step: Step)
    returns (steps': seq<Step>)
    requires After(fp, s0, steps) == Some(s) && Enabled(fp, s, step)
    ensures After(fp, s0, steps') == Some(Next(fp, s, step))
    ensures Invariant(fp, s) && !Overwrites(fp, s, step) ==> Invariant(fp, Next(fp, s, step))
  {
    hide Invariant, Overwrites, After, Enabled, Next;
    var t;
    steps', t := Take(fp, s0, steps, s, step);
    if Invariant(fp, s) { StepKeeps(fp, s, step); }
  }

  class WebUi {
    var world: State

    constructor ()
      ensures world == FRESH
    {
      world := FRESH;
    }

    /** One apply request, with what the daemon does while the form is being processed. The code is the HTTP
        status. */
    method HandleApply(fp: Fingerprint, choice: Choice, between: seq<Step>, ch: Chances)
      returns (code: nat, ghost steps: seq<Step>)
      requires world.client.Idle? && choice.mode <= 1
      requires forall e :: e in between ==> e.DaemonStart? || e.DaemonStop?
      modifies this
      ensures After(fp, old(world), steps) == Some(world)
      ensures if old(world).kernel.None? || !ch.asks then code == 503 && world == old(world) else
              var asked := Meanwhile(fp, AfterStatus(fp, old(world), ch.earlier), between);
              asked.client.Asked? && code == Code(fp, asked, choice, ch) && world == Left(fp, asked, choice, ch)
      ensures Invariant(fp, old(world)) && between == [] ==>
                && Invariant(fp, world)
                && (old(world).kernel.Some? && ch.asks ==>
                      var asked := AfterStatus(fp, old(world), ch.earlier);
                      asked.file.Some? && Honest(fp, asked, choice, ch, code, world))
    {
      hide Invariant, Valid, After, Overwrites, NoOp, Recorded, Honest, Code, Left;
      ghost var start := world;
      AfterItself(fp, world);
      steps := [];
      if world.kernel.None? || !ch.asks { return 503, steps; }
      if world.queued {
        var handle := Step.HandleApply(ch.earlier);
        SavesNothingElse(fp, world, handle);
        steps := TakeAndKeep(fp, start, steps, world, handle);
        world := Next(fp, world, handle);
      }
      steps := TakeAndKeep(fp, start, steps, world, Status);
      SavesNothingElse(fp, world, Status);
      world := Next(fp, world, Status);
      ghost var asked := world;
      for k := 0 to |between|
        invariant After(fp, start, steps) == Some(world) && world.client == asked.client && !world.queued
        invariant world == Meanwhile(fp, asked, between[..k])
      {
        assert between[k] in between && between[..k + 1][..k] == between[..k];
        if Enabled(fp, world, between[k]) {
          steps := TakeAndKeep(fp, start, steps, world, between[k]);
          world := Next(fp, world, between[k]);
        }
      }
      assert between[..|between|] == between;
      code, steps := SaveAndApply(fp, choice, ch, start, steps);
    }

    /** What the handler does once it has the status: it persists, and if it wrote the file, applies. */
    method SaveAndApply(fp: Fingerprint, choice: Choice, ch: Chances, ghost start: State, ghost before: seq<Step>)
      returns (code: nat, ghost steps: seq<Step>)
      requires world.client.Asked? && !world.queued && choice.mode <= 1
      requires After(fp, start, before) == Some(world)
      modifies this
      ensures After(fp, start, steps) == Some(world)
      ensures code == Code(fp, old(world), choice, ch) && world == Left(fp, old(world), choice, ch)
      ensures Invariant(fp, old(world)) && old(world).kernel == Some(old(world).client.status) ==>
                Invariant(fp, world) && old(world).file.Some? && Honest(fp, old(world), choice, ch, code, world)
    {
      hide Invariant, Valid, After, Overwrites, NoOp, Recorded, Honest, Shows;
      ghost var asked := world;
      if Invariant(fp, asked) && asked.kernel == Some(asked.client.status) {
        LeftAloneIsHonest(fp, asked, choice, ch);
      }
      if world.file.None? || !ch.reads_ {
        steps := GiveUp(fp, start, before);
        return 409, steps;
      }
      var persist := Persist(choice, ch.writes);
      var status := world.client.status;
      CurrentSaves(fp, world, persist);
      steps := TakeAndKeep(fp, start, before, world, persist);
      var saved := Saves(fp, world, persist);
      code :=
        if NoOp(status, Chosen(fp, world.file.value, choice, status.generation + 1)) then 200
        else if status.generation == UINT64_MAX then 409 else 500;
      world := Next(fp, world, persist);
      if saved.None? { return; }
      SavesNothingElse(fp, world, SendApply);
      steps := TakeAndKeep(fp, start, steps, world, SendApply);
      world := Next(fp, world, SendApply);
      if world.kernel.None? { return 503, steps; }
      if !ch.answer.Comes? {
        var lost := if ch.answer.Late? then Crash else DaemonStop;
        SavesNothingElse(fp, world, lost);
        steps := TakeAndKeep(fp, start, steps, world, lost);
        world := Next(fp, world, lost);
        return 503, steps;
      }
      var handle := Step.HandleApply(ch.outcome);
      SavesNothingElse(fp, world, handle);
      steps := TakeAndKeep(fp, start, steps, world, handle);
      world := Next(fp, world, handle);
      code := if ch.outcome.Good? && world.kernel.value.generation == world.file.value.generation then 200 else 409;
    }

    /** The file cannot be read: the request ends here. */
    method GiveUp(fp: Fingerprint, ghost start: State, ghost before: seq<Step>) returns (ghost steps: seq<Step>)
      requires world.client.Asked? && After(fp, start, before) == Some(world)
      modifies this
      ensures world == old(world).(client := Idle) && After(fp, start, steps) == Some(world)
      ensures Invariant(fp, old(world)) ==> Invariant(fp, world)
    {
      hide Invariant, After, Overwrites;
      SavesNothingElse(fp, world, Crash);
      steps := TakeAndKeep(fp, start, before, world, Crash);
      world := world.(client := Idle);
    }
  }

  lemma SavesNothingElse(fp: Fingerprint, s: State, step: Step)
    requires !step.Persist?
    ensures !Overwrites(fp, s, step)
  {
  }

  /** A status that is still current is one to write behind. */
  lemma CurrentSaves(fp: Fingerprint, s: State, persist: Step)
    requires s.client.Asked? && persist.Persist?
    ensures Invariant(fp, s) && s.kernel == Some(s.client.status) ==> !Overwrites(fp, s, persist)
  {
  }
}
