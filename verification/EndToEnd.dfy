/** From a request to the reply it gets. The commands of all HAL threads, in the order in which they are dispatched,
    with the parcel matcher, the pending table and the rewrite behind each other: which replies are rewritten, and
    for whom. `CommandStream` shows that a walk dispatches its commands so, and `TryLock` that the pushes and pops of
    interleaved handlers have such an order. */
module EndToEnd {
  import opened Wrappers
  import opened UserBytes
  import opened StreamWalker
  import opened ReplyRewrite
  import ParcelMatcher
  import ParcelWriter
  import PendingTable
  import PendingRuns
  import PendingRefinement

  type Call = PendingRuns.Call

  /** What a command meets: the task that dispatches it, the outcome of the try-lock and the HAL generation read
      inside, the copy of the parcel, and the chances of a reply, whose id and flags the pending table supplies. */
  datatype Ambient = Ambient(
    who: PendingTable.Identity, acquired: bool, generation: nat, captureFault: bool, chance: Chance)

  /** A command is dispatched, or somebody else changes user memory. */
  datatype Event = Dispatched(kind: Kind, command: Command, env: Ambient) | Stores(mem: seq<octet>)

  /** The event tickets, the calls of the pending table with the events they come from, the table, and the world of
      `ReplyRewrite`. */
  datatype System = System(
    tickets: nat, calls: seq<Call>, sources: seq<nat>, pending: PendingRuns.State, world: World)

  predicate IsRequest(kind: Kind, word: Opcode) {
    kind.From? && (word == BR_TRANSACTION || word == BR_TRANSACTION_SEC_CTX)
  }

  /** A transaction whose data is copied gets an event ticket. */
  predicate Records(e: Event) {
    e.Dispatched? && IsTransaction(e.kind, e.command.word) && Copied(e.command, e.env.chance)
  }

  predicate Answers(e: Event) {
    Records(e) && IsReply(e.kind, e.command.word)
  }

  function CodeOf(c: Command): nat
    requires |c.payload| >= TRANSACTION_BYTES
  {
    U32(Data(c), 16)
  }

  /** What the hook captures of a parcel. */
  function Prefix(mem: seq<octet>, e: Event): Option<seq<octet>>
    requires Records(e)
  {
    ParcelMatcher.Captured(mem, ReplySize(e.command), ReplyBuffer(e.command), e.env.captureFault)
  }

  /** A request in whose prefix the parser finds the device-id call. */
  predicate Asks(mem: seq<octet>, e: Event) {
    && Records(e) && IsRequest(e.kind, e.command.word)
    && var p := Prefix(mem, e);
       p.Some? && ParcelMatcher.Scan(p.value, CodeOf(e.command), 0, ParcelMatcher.NO_MATCH).deviceId
  }

  function RequestOf(c: Command, id: nat): PendingTable.Request
    requires |c.payload| >= TRANSACTION_BYTES
  {
    PendingTable.Request(id, U64(Data(c), 0), ReplySize(c), CodeOf(c), U32(Data(c), 20), 1)
  }

  /** The call of the pending table that an event makes, if it makes one. */
  function CallOf(mem: seq<octet>, id: nat, e: Event): Option<Call> {
    if Answers(e) then Some(PendingRuns.Reply(e.env.who, e.env.acquired, e.env.generation))
    else if Asks(mem, e) then
      Some(PendingRuns.Request(e.env.who, RequestOf(e.command, id), e.env.acquired, e.env.generation))
    else None
  }

  /** The chance of a reply with what its pop gave. */
  function ChanceOf(pending: PendingRuns.State, e: Event): Chance
    requires e.Dispatched? && PendingTable.Shaped(pending.table)
  {
    if !Answers(e) then e.env.chance
    else
      var (after, id, flags) := PendingRuns.PopCall(pending, e.env.who.task, e.env.acquired, e.env.generation);
      e.env.chance.(eventId := id, parcelFlags := flags)
  }

  /** A call is served, if there is one. */
  function Called(s: System, call: Option<Call>, at: nat): (after: System)
    requires PendingTable.Shaped(s.pending.table)
    ensures PendingTable.Shaped(after.pending.table)
  {
    match call
    case None => s
    case Some(made) =>
      s.(calls := s.calls + [made], sources := s.sources + [at], pending := PendingRuns.Serve(s.pending, made).0)
  }

  function Next(s: System, e: Event, at: nat): (after: System)
    requires PendingTable.Shaped(s.pending.table)
    ensures PendingTable.Shaped(after.pending.table)
  {
    match e
    case Stores(mem) => s.(world := s.world.(mem := mem))
    case Dispatched(kind, c, _) =>
      Called(s, CallOf(s.world.mem, s.tickets + 1, e), at)
      .(tickets := if Records(e) then s.tickets + 1 else s.tickets,
        world := Served(kind, s.world, c, at, ChanceOf(s.pending, e)))
  }

  /** The system after some events. */
  function Run(w: World, events: seq<Event>): (s: System)
    ensures PendingTable.Shaped(s.pending.table)
  {
    if events == [] then System(0, [], [], PendingRuns.INITIAL, w) else
    var n := |events| - 1;
    Next(Run(w, events[..n]), events[n], n)
  }

  /** The system that event k meets. */
  function Before(w: World, events: seq<Event>, k: nat): (s: System)
    requires k < |events|
    ensures PendingTable.Shaped(s.pending.table)
  {
    Run(w, events[..k])
  }

  ghost predicate Plausible(events: seq<Event>) {
    forall e :: e in events && e.Dispatched? ==> e.env.who.task != 0 && FairChance(e.env.chance)
  }

  // ---- Where calls and rewrites come from ----

  /** Call x is the one that its event made, behind the calls before it. */
  ghost predicate CallMade(w: World, events: seq<Event>, s: System, x: nat)
    requires x < |s.calls| == |s.sources|
  {
    var at := s.sources[x];
    && at < |events|
    && var before := Before(w, events, at);
       before.calls == s.calls[..x] && CallOf(before.world.mem, before.tickets + 1, events[at]) == Some(s.calls[x])
  }

  /** A rewrite is what the reply of its event makes of the memory and the pending table it meets. */
  ghost predicate RewriteMade(w: World, events: seq<Event>, r: Rewrite) {
    && r.command < |events| && Answers(events[r.command])
    && var e, before := events[r.command], Before(w, events, r.command);
       RewriteOf(before.world.mem, e.command, r.command, ChanceOf(before.pending, e)) == Some(r)
  }

  /** The table is that of the serial run of the calls, whose ids are tickets. */
  ghost predicate CallsOk(s: System) {
    && s.pending == PendingRuns.Serial(s.calls) && |s.sources| == |s.calls|
    && PendingRuns.Ticketed(s.calls)
    && forall x :: 0 <= x < |s.calls| && s.calls[x].Request? ==> s.calls[x].request.eventId <= s.tickets
  }

  ghost predicate CallsMade(w: World, events: seq<Event>, s: System)
    requires |s.sources| == |s.calls|
  {
    forall x :: 0 <= x < |s.calls| ==> CallMade(w, events, s, x)
  }

  ghost predicate RewritesMade(w: World, events: seq<Event>, rs: seq<Rewrite>) {
    forall r :: r in rs ==> RewriteMade(w, events, r)
  }

  ghost predicate Linked(w: World, events: seq<Event>, s: System) {
    CallsOk(s) && CallsMade(w, events, s) && RewritesMade(w, events, s.world.rewrites)
  }

  lemma CallIsTicketed(calls: seq<Call>, tickets: nat, call: Call)
    requires PendingRuns.Ticketed(calls) && call.who.task != 0
    requires forall x :: 0 <= x < |calls| && calls[x].Request? ==> calls[x].request.eventId <= tickets
    requires call.Request? ==> call.request.eventId == tickets + 1 && PendingRuns.DeviceId(call.request.parcelFlags)
    ensures PendingRuns.Ticketed(calls + [call])
  {
  }

  /** What was made is not affected by one more event. */
  lemma EarlierStay(w: World, events: seq<Event>, e: Event, s: System, s': System)
    requires |s.sources| == |s.calls| && |s'.sources| == |s'.calls|
    requires s.calls <= s'.calls && s.sources <= s'.sources
    ensures forall x :: 0 <= x < |s.calls| && CallMade(w, events, s, x) ==> CallMade(w, events + [e], s', x)
  {
    hide CallOf, Run;
    forall x | 0 <= x < |s.calls| && CallMade(w, events, s, x) ensures CallMade(w, events + [e], s', x) {
      assert (events + [e])[..s.sources[x]] == events[..s.sources[x]];
      assert s'.calls[..x] == s.calls[..x];
    }
  }

  lemma EarlierRewritesStay(w: World, events: seq<Event>, e: Event)
    ensures forall r :: RewriteMade(w, events, r) ==> RewriteMade(w, events + [e], r)
  {
    hide RewriteOf, Run, Answers, ChanceOf;
    forall r | RewriteMade(w, events, r) ensures RewriteMade(w, events + [e], r) {
      assert (events + [e])[..r.command] == events[..r.command];
    }
  }

  lemma RewritesOfNext(s: System, e: Event, at: nat)
    requires PendingTable.Shaped(s.pending.table)
    ensures var after := Next(s, e, at).world;
            if Answers(e) then
              var made := RewriteOf(s.world.mem, e.command, at, ChanceOf(s.pending, e));
              after.rewrites == Extended(s.world.rewrites, made) && after.mem == Applied(s.world.mem, made)
            else after.rewrites == s.world.rewrites
  {
    hide VerdictOn, Counted, ReplySize, ReplyBuffer, Written, Apply, Asks, PendingRuns.PopCall, PendingRuns.Serve,
         IsTransaction, IsReply;
    if e.Dispatched? { RepliesAreTransactions(e.kind, e.command.word); }
  }

  lemma CallsOfNext(s: System, e: Event, at: nat)
    requires PendingTable.Shaped(s.pending.table)
    ensures var after := Next(s, e, at);
            var called := Called(s, CallOf(s.world.mem, s.tickets + 1, e), at);
            && after.tickets == (if Records(e) then s.tickets + 1 else s.tickets)
            && (after.calls, after.sources, after.pending) == (called.calls, called.sources, called.pending)
  {
    hide Served, ChanceOf, PendingRuns.Serve, Copied, IsTransaction;
    if e.Stores? { NoCall(s.world.mem, s.tickets + 1, e); }
  }

  lemma NoCall(mem: seq<octet>, id: nat, e: Event)
    requires e.Stores?
    ensures CallOf(mem, id, e) == None
  {
  }

  lemma CallOfEvent(mem: seq<octet>, id: nat, e: Event)
    ensures var call := CallOf(mem, id, e);
            && (call.Some? ==> Records(e) && call.value.who == e.env.who)
            && (call.Some? && call.value.Request? ==>
                  call.value.request.eventId == id && PendingRuns.DeviceId(call.value.request.parcelFlags))
  {
    hide Prefix, ReplySize, CodeOf, Records, IsReply, IsRequest, U64, U32, ParcelMatcher.Scan, Data;
  }

  lemma {:induction false} EveryRunIsLinked(w: World, events: seq<Event>)
    requires w.rewrites == [] && Plausible(events)
    ensures Linked(w, events, Run(w, events))
  {
    hide Next, Linked, Plausible;
    if events == [] {
      BeginsLinked(w);
    } else {
      var n := |events| - 1;
      PlausibleParts(events);
      EveryRunIsLinked(w, events[..n]);
      assert events[..n] + [events[n]] == events;
      LinkedOn(w, events[..n], events[n]);
    }
  }

  lemma PlausibleParts(events: seq<Event>)
    requires Plausible(events) && events != []
    ensures Plausible(events[..|events| - 1]) && Plausible([events[|events| - 1]])
  {
    hide FairChance;
    assert events[|events| - 1] in events;
  }

  lemma BeginsLinked(w: World)
    requires w.rewrites == []
    ensures Linked(w, [], Run(w, []))
  {
  }

  lemma LinkedOn(w: World, events: seq<Event>, e: Event)
    requires Linked(w, events, Run(w, events)) && Plausible([e])
    ensures Linked(w, events + [e], Next(Run(w, events), e, |events|))
  {
    hide CallsOk, CallsMade, RewritesMade, Next, Run;
    CallsOkOn(Run(w, events), e, |events|);
    CallsMadeOn(w, events, e);
    RewritesMadeOn(w, events, e);
  }

  lemma CallsOkOn(s: System, e: Event, at: nat)
    requires CallsOk(s) && Plausible([e])
    ensures CallsOk(Next(s, e, at))
  {
    hide CallOf, Answers, Next, PendingRuns.Ticketed, PendingRuns.Serve;
    var call := CallOf(s.world.mem, s.tickets + 1, e);
    assert e in [e];
    CallsOfNext(s, e, at);
    CallOfEvent(s.world.mem, s.tickets + 1, e);
    if call.Some? {
      CallIsTicketed(s.calls, s.tickets, call.value);
      assert (s.calls + [call.value])[..|s.calls|] == s.calls;
    }
  }

  lemma CallsMadeOn(w: World, events: seq<Event>, e: Event)
    requires CallsOk(Run(w, events)) && CallsMade(w, events, Run(w, events))
    ensures var s' := Next(Run(w, events), e, |events|);
            |s'.sources| == |s'.calls| && CallsMade(w, events + [e], s')
  {
    hide CallOf, Next, CallMade, RewriteMade, Run, PendingRuns.Ticketed, PendingRuns.Serve, PendingRuns.Serial;
    var s := Run(w, events);
    var s' := Next(s, e, |events|);
    CallsOfNext(s, e, |events|);
    EarlierStay(w, events, e, s, s');
    if CallOf(s.world.mem, s.tickets + 1, e).Some? { LastCallMade(w, events, e, s'); }
  }

  lemma RewritesMadeOn(w: World, events: seq<Event>, e: Event)
    requires RewritesMade(w, events, Run(w, events).world.rewrites)
    ensures RewritesMade(w, events + [e], Next(Run(w, events), e, |events|).world.rewrites)
  {
    hide Answers, Next, RewriteMade, Run, RewriteOf, ChanceOf;
    var s := Run(w, events);
    RewritesOfNext(s, e, |events|);
    EarlierRewritesStay(w, events, e);
    if Answers(e) { LastRewriteMade(w, events, e); }
  }

  lemma LastCallMade(w: World, events: seq<Event>, e: Event, s': System)
    requires s' == Next(Run(w, events), e, |events|)
    requires var s := Run(w, events);
             && |s.sources| == |s.calls|
             && CallOf(s.world.mem, s.tickets + 1, e).Some?
    ensures |s'.calls| == |s'.sources| == |Run(w, events).calls| + 1
            && CallMade(w, events + [e], s', |s'.calls| - 1)
  {
    hide CallOf, Next, Run;
    var s := Run(w, events);
    CallsOfNext(s, e, |events|);
    assert (events + [e])[..|events|] == events;
    assert s'.calls[..|s.calls|] == s.calls;
  }

  lemma LastRewriteMade(w: World, events: seq<Event>, e: Event)
    requires Answers(e)
    ensures var s := Run(w, events);
            var made := RewriteOf(s.world.mem, e.command, |events|, ChanceOf(s.pending, e));
            made.Some? ==> RewriteMade(w, events + [e], made.value)
  {
    hide Answers, ChanceOf, Run, VerdictOn, Written, ReplySize, ReplyBuffer;
    assert (events + [e])[..|events|] == events;
  }

  // ---- Soundness ----

  /** What has been made stays. */
  lemma {:induction false} RunGrows(w: World, events: seq<Event>, n: nat)
    requires n <= |events|
    ensures var before, after := Run(w, events[..n]), Run(w, events);
            before.calls <= after.calls && before.sources <= after.sources
    decreases |events|
  {
    hide Next, CallOf, PendingRuns.Serve;
    if n == |events| {
      assert events[..n] == events;
    } else {
      var last := |events| - 1;
      RunGrows(w, events[..last], n);
      assert events[..last][..n] == events[..n];
      CallsOfNext(Run(w, events[..last]), events[last], last);
    }
  }

  lemma LinkedHaveSources(w: World, events: seq<Event>, s: System)
    requires Linked(w, events, s)
    ensures |s.sources| == |s.calls| && s.pending == PendingRuns.Serial(s.calls) && PendingRuns.Ticketed(s.calls)
  {
    hide CallMade, RewriteMade, PendingRuns.Ticketed;
  }

  /** The place among the calls of the one that event k makes. */
  function PlaceOf(w: World, events: seq<Event>, k: nat): nat
    requires k < |events|
  {
    |Before(w, events, k).calls|
  }

  /** The call of event k is where the calls before it end, and stays there. */
  ghost predicate Placed(w: World, events: seq<Event>, k: nat, call: Call)
    requires k < |events|
  {
    var after, y := Run(w, events), PlaceOf(w, events, k);
    && y < |after.calls| == |after.sources| && after.sources[y] == k && after.calls[y] == call
    && Before(w, events, k).pending == PendingRuns.Serial(after.calls[..y])
  }

  lemma CallHasPlace(w: World, events: seq<Event>, k: nat, call: Call)
    requires k < |events| && w.rewrites == [] && Plausible(events)
    requires var s := Before(w, events, k); CallOf(s.world.mem, s.tickets + 1, events[k]) == Some(call)
    ensures Placed(w, events, k, call)
  {
    hide Next, CallOf, Linked, Run, PendingRuns.Serial, PendingRuns.Serve, PendingRuns.Ticketed;
    var s, next := Before(w, events, k), Run(w, events[..k + 1]);
    EveryRunIsLinked(w, events);
    LinkedHaveSources(w, events, Run(w, events));
    EveryRunIsLinked(w, events[..k]);
    LinkedHaveSources(w, events[..k], s);
    RunGrows(w, events, k + 1);
    RunOn(w, events, k);
    CallsOfNext(s, events[k], k);
    assert next.calls == s.calls + [call] && next.sources == s.sources + [k];
    assert Run(w, events).calls[..|s.calls|] == s.calls;
  }

  lemma RunOn(w: World, events: seq<Event>, k: nat)
    requires k < |events|
    ensures Run(w, events[..k + 1]) == Next(Before(w, events, k), events[k], k)
  {
    hide Next;
    assert events[..k + 1][..k] == events[..k];
  }

  /** What a reply is given is what its call yields, and its flags are those of a device-id request. */
  lemma ChanceIsYield(w: World, events: seq<Event>, k: nat)
    requires k < |events| && w.rewrites == [] && Plausible(events) && Answers(events[k])
    ensures var calls, y := Run(w, events).calls, PlaceOf(w, events, k);
            var ch := ChanceOf(Before(w, events, k).pending, events[k]);
            && y < |calls| && calls[y].Reply? && ch.eventId == PendingRuns.YieldAt(calls, y)
            && (ch.eventId != 0 ==> ch.parcelFlags % 2 == 1)
            && ch == events[k].env.chance.(eventId := ch.eventId, parcelFlags := ch.parcelFlags)
  {
    hide Run, PendingTable.Pop, PendingTable.TableOk, IsReply, IsTransaction, PendingRuns.Ticketed, Asks, PlaceOf,
         PendingRuns.Serial;
    var e := events[k];
    var call := PendingRuns.Reply(e.env.who, e.env.acquired, e.env.generation);
    CallHasPlace(w, events, k, call);
    YieldFlags(w, events, PlaceOf(w, events, k));
  }

  lemma YieldFlags(w: World, events: seq<Event>, y: nat)
    requires w.rewrites == [] && Plausible(events)
    requires y < |Run(w, events).calls| && Run(w, events).calls[y].Reply?
    ensures var calls := Run(w, events).calls;
            var before := PendingRuns.Serial(calls[..y]).table;
            var popped := PendingTable.Pop(before, calls[y].who.task, calls[y].generation);
            popped.Yield? ==> popped.parcelFlags % 2 == 1
  {
    hide Run, Linked, PendingTable.Pop, PendingRuns.Ticketed, PendingRuns.RunOk;
    EveryRunIsLinked(w, events);
    var calls := Run(w, events).calls;
    LinkedHaveSources(w, events, Run(w, events));
    TicketedTake(calls, y + 1);
    var upTo := calls[..y + 1];
    assert upTo[..|upTo| - 1] == calls[..y];
    TicketedTake(calls, y);
    PendingRuns.EveryRun(calls[..y]);
    PendingRuns.YieldCounted(upTo);
  }

  lemma TicketedTake(calls: seq<Call>, n: nat)
    requires PendingRuns.Ticketed(calls) && n <= |calls|
    ensures PendingRuns.Ticketed(calls[..n])
  {
  }

  /** The captured prefix has the interface descriptor and the property name, terminated, and the code is the one of
      the byte-array getter. */
  ghost predicate Recognised(mem: seq<octet>, e: Event) {
    && Records(e) && IsRequest(e.kind, e.command.word)
    && CodeOf(e.command) == ParcelMatcher.GET_PROPERTY_BYTE_ARRAY && Prefix(mem, e).Some?
    && (exists d :: 0 <= d && ParcelMatcher.Utf16At(Prefix(mem, e).value, d, ParcelMatcher.DESCRIPTOR))
    && exists q :: 0 <= q && ParcelMatcher.LoosePropertyAt(Prefix(mem, e).value, q)
  }

  lemma AsksIsRecognised(mem: seq<octet>, e: Event)
    requires Asks(mem, e)
    ensures Recognised(mem, e)
  {
    hide ParcelMatcher.Scan, Prefix, IsRequest, CodeOf, ParcelMatcher.Utf16At, ParcelMatcher.LoosePropertyAt;
    ParcelMatcher.FlagIsSound(Prefix(mem, e).value, CodeOf(e.command), 0, ParcelMatcher.NO_MATCH);
  }

  ghost predicate YieldedIn(calls: seq<Call>, x: nat, y: nat) {
    x < y < |calls| && PendingRuns.YieldedBy(calls, x, y)
  }

  predicate SameReader(e: Event, f: Event) {
    e.Dispatched? && f.Dispatched? && e.env.who.task == f.env.who.task && e.env.generation == f.env.generation
  }

  /** Event i is a recognised request, and its call the one whose frame the reply of event k was given: of the same
      task, under the same HAL generation, and with the same id. */
  ghost predicate Requested(w: World, events: seq<Event>, i: nat, k: nat)
    requires i < |events| && k < |events|
  {
    && Recognised(Before(w, events, i).world.mem, events[i]) && SameReader(events[i], events[k])
    && YieldedIn(Run(w, events).calls, PlaceOf(w, events, i), PlaceOf(w, events, k))
  }

  /** Soundness of the whole hook. Whatever the threads do, user memory is only rewritten for a reply that was given
      the frame of an earlier request of its own task, read under the same HAL generation, in whose captured prefix
      the device-id call was recognised; and the write is correct. */
  lemma RewritesAnswerRequests(w: World, events: seq<Event>, r: Rewrite)
    requires w.rewrites == [] && Plausible(events) && r in Run(w, events).world.rewrites
    ensures r.command < |events| && Answers(events[r.command])
    ensures var e, before := events[r.command], Before(w, events, r.command);
            Correct(before.world.mem, r, Data(e.command), ChanceOf(before.pending, e))
    ensures exists i: nat :: i < r.command && Requested(w, events, i, r.command)
  {
    hide Run, Linked, RewriteOf, Correct, PendingRuns.Ticketed, ChanceOf, IsReply, IsTransaction;
    var k := r.command;
    EveryRunIsLinked(w, events);
    LinkedRewrite(w, events, r);
    var e, before := events[k], Before(w, events, k);
    assert e in events;
    ChanceIsYield(w, events, k);
    RewriteIsCorrect(before.world.mem, e.command, k, ChanceOf(before.pending, e), r);
    YieldHasSource(w, events, k);
  }

  lemma LinkedRewrite(w: World, events: seq<Event>, r: Rewrite)
    requires Linked(w, events, Run(w, events)) && r in Run(w, events).world.rewrites
    ensures RewriteMade(w, events, r)
  {
    hide CallsOk, CallsMade, RewriteMade, Run;
  }

  lemma RewriteIsCorrect(mem: seq<octet>, c: Command, k: nat, ch: Chance, r: Rewrite)
    requires |c.payload| >= TRANSACTION_BYTES && FairChance(ch) && RewriteOf(mem, c, k, ch) == Some(r)
    ensures Correct(mem, r, Data(c), ch) && ch.eventId != 0
  {
    hide Judge, U64, U32;
    WrittenIsCorrect(mem, k, ReplySize(c), ReplyBuffer(c), Data(c), ch);
  }

  /** A reply that is given an id is given that of a recognised request. */
  lemma YieldHasSource(w: World, events: seq<Event>, k: nat)
    requires w.rewrites == [] && Plausible(events) && k < |events| && Answers(events[k])
    requires ChanceOf(Before(w, events, k).pending, events[k]).eventId != 0
    ensures exists i: nat :: i < k && Requested(w, events, i, k)
  {
    hide Run, Linked, ChanceOf, Answers, PlaceOf, PendingRuns.Ticketed, PendingRuns.YieldAt, Requested;
    var s, y := Run(w, events), PlaceOf(w, events, k);
    ChanceIsYield(w, events, k);
    EveryRunIsLinked(w, events);
    LinkedHaveSources(w, events, s);
    YieldHasCall(s.calls, y);
    var x: nat :| YieldedIn(s.calls, x, y);
    SourceIsRequested(w, events, x, k);
  }

  lemma YieldHasCall(calls: seq<Call>, y: nat)
    requires PendingRuns.Ticketed(calls) && y < |calls| && PendingRuns.YieldAt(calls, y) != 0
    ensures exists x: nat :: YieldedIn(calls, x, y)
  {
    hide PendingRuns.Ticketed, PendingRuns.YieldAt, PendingTable.TableOk, PendingRuns.Serial, PendingRuns.YieldedBy;
    PendingRuns.EveryRun(calls);
    assert PendingRuns.YieldOk(calls, y);
    var x: nat :| x < y && PendingRuns.YieldedBy(calls, x, y);
    assert YieldedIn(calls, x, y);
  }

  lemma SourceIsRequested(w: World, events: seq<Event>, x: nat, k: nat)
    requires w.rewrites == [] && Plausible(events) && k < |events| && Answers(events[k])
    requires YieldedIn(Run(w, events).calls, x, PlaceOf(w, events, k))
    ensures var s := Run(w, events);
            && x < |s.sources| && s.sources[x] < k && Requested(w, events, s.sources[x], k)
  {
    hide Run, PlaceOf, IsReply, IsTransaction, Asks, Recognised, RequestOf, PendingRuns.YieldAt;
    var e := events[k];
    CallHasPlace(w, events, k, PendingRuns.Reply(e.env.who, e.env.acquired, e.env.generation));
    CallComesFrom(w, events, x);
    SourcesRise(w, events, x, PlaceOf(w, events, k));
    var i := Run(w, events).sources[x];
    AsksIsRecognised(Before(w, events, i).world.mem, events[i]);
  }

  /** A request among the calls comes from an event that asks. */
  lemma CallComesFrom(w: World, events: seq<Event>, x: nat)
    requires w.rewrites == [] && Plausible(events)
    requires x < |Run(w, events).calls| && Run(w, events).calls[x].Request?
    ensures var s := Run(w, events);
            && |s.sources| == |s.calls| && s.sources[x] < |events|
            && var i := s.sources[x];
               var before := Before(w, events, i);
            && PlaceOf(w, events, i) == x && Asks(before.world.mem, events[i]) && events[i].Dispatched?
            && s.calls[x] == PendingRuns.Request(events[i].env.who, RequestOf(events[i].command, before.tickets + 1),
                                                 events[i].env.acquired, events[i].env.generation)
  {
    hide Run, PendingRuns.Ticketed, Answers, Asks, RequestOf, RewriteMade;
    EveryRunIsLinked(w, events);
    var s := Run(w, events);
    assert CallMade(w, events, s, x);
    var before := Before(w, events, s.sources[x]);
    CallOfEvent(before.world.mem, before.tickets + 1, events[s.sources[x]]);
  }

  lemma SourcesRise(w: World, events: seq<Event>, x: nat, y: nat)
    requires w.rewrites == [] && Plausible(events) && x < y < |Run(w, events).calls|
    ensures var s := Run(w, events); |s.sources| == |s.calls| && s.sources[x] < s.sources[y]
  {
    hide Run, PendingRuns.Ticketed, CallOf, RewriteMade;
    EveryRunIsLinked(w, events);
    var s := Run(w, events);
    var i, j := s.sources[x], s.sources[y];
    assert CallMade(w, events, s, x) && CallMade(w, events, s, y);
    assert Before(w, events, i).calls == s.calls[..x] && Before(w, events, j).calls == s.calls[..y];
    assert |Before(w, events, i).calls| == x && |Before(w, events, j).calls| == y;
    if j < i {
      assert events[..i][..j] == events[..j];
      RunGrows(w, events[..i], j);
    }
  }

  // ---- Completeness ----

  /** Everything but the request that a rewrite of reply k needs: a status of 0, an array of 32 readable bytes, a
      configuration in write mode and a copy that works. */
  predicate Ready(mem: seq<octet>, c: Command, ch: Chance)
    requires |c.payload| >= TRANSACTION_BYTES
  {
    && FairChance(ch) && Published(ch.config) && ch.store.Stored?
    && Due(mem, ReplySize(c), ReplyBuffer(c), ch.(eventId := 1, parcelFlags := 1))
  }

  lemma ReadyIsRewritten(mem: seq<octet>, c: Command, k: nat, ch: Chance, id: nat, flags: nat)
    requires |c.payload| >= TRANSACTION_BYTES && Ready(mem, c, ch) && (id != 0 ==> flags % 2 == 1)
    ensures RewriteOf(mem, c, k, ch.(eventId := id, parcelFlags := flags)) ==
            if id == 0 then None
            else Some(Rewrite(k, ReplySize(c), ReplyBuffer(c), ch.config.virtualId[..ID_BYTES]))
    ensures ReplyBuffer(c) + 8 + ID_BYTES <= |mem| && |ch.config.virtualId| == 64
  {
    hide Judge, Written, U64, U32;
    RewrittenExactlyWhen(mem, ReplySize(c), ReplyBuffer(c), ch.(eventId := id, parcelFlags := flags));
  }

  /** When reply k is the reply to the call of event i, in the order of their task. */
  ghost predicate RepliesTo(w: World, events: seq<Event>, i: nat, k: nat)
    requires i < |events| && k < |events|
  {
    var calls := Run(w, events).calls;
    && Asks(Before(w, events, i).world.mem, events[i])
    && PendingRefinement.Matches(calls, PlaceOf(w, events, i), PlaceOf(w, events, k))
  }

  /** In a run that is benign for the pending table a reply that is ready is rewritten if and only if it is the reply
      to a recognised request, and then the whole virtual id is where its content was. */
  lemma ReadyReplyIsRewrittenExactlyWhen(w: World, events: seq<Event>, k: nat)
    requires w.rewrites == [] && Plausible(events) && k < |events| && Answers(events[k])
    requires PendingRefinement.BenignRun(Run(w, events).calls)
    requires Ready(Before(w, events, k).world.mem, events[k].command, events[k].env.chance)
    ensures var e := events[k];
            var before, after := Before(w, events, k), Run(w, events[..k + 1]);
            var at := ReplyBuffer(e.command) + 8;
            && at + ID_BYTES <= |before.world.mem| == |after.world.mem|
            && after.world.mem[..at] == before.world.mem[..at]
            && after.world.mem[at + ID_BYTES..] == before.world.mem[at + ID_BYTES..]
            && after.world.mem[at..at + ID_BYTES] ==
               (if exists i: nat :: i < |events| && RepliesTo(w, events, i, k)
                then e.env.chance.config.virtualId[..ID_BYTES] else before.world.mem[at..at + ID_BYTES])
  {
    hide Run, Before, Answers, Ready, RepliesTo, ReplyBuffer, Apply;
    var e := events[k];
    ReplyEffect(w, events, k);
    YieldsExactlyWhen(w, events, k);
    ApplyWhole(Before(w, events, k).world.mem, WholeRewrite(e, k));
  }

  function WholeRewrite(e: Event, k: nat): Rewrite
    requires Answers(e) && FairChance(e.env.chance)
  {
    Rewrite(k, ReplySize(e.command), ReplyBuffer(e.command), e.env.chance.config.virtualId[..ID_BYTES])
  }

  lemma ReplyEffect(w: World, events: seq<Event>, k: nat)
    requires w.rewrites == [] && Plausible(events) && k < |events| && Answers(events[k])
    requires Ready(Before(w, events, k).world.mem, events[k].command, events[k].env.chance)
    ensures FairChance(events[k].env.chance)
    ensures var e, before := events[k], Before(w, events, k);
            && ReplyBuffer(e.command) + 8 + ID_BYTES <= |before.world.mem|
            && Run(w, events[..k + 1]).world.mem ==
               if ChanceOf(before.pending, e).eventId == 0 then before.world.mem
               else Apply(before.world.mem, WholeRewrite(e, k))
  {
    hide Run, ChanceOf, IsReply, IsTransaction, Due, U64, Apply;
    var e := events[k];
    var before := Before(w, events, k);
    var ch := ChanceOf(before.pending, e);
    ChanceIsYield(w, events, k);
    RunOn(w, events, k);
    RewritesOfNext(before, e, k);
    ReadyIsRewritten(before.world.mem, e.command, k, e.env.chance, ch.eventId, ch.parcelFlags);
  }

  lemma ApplyWhole(mem: seq<octet>, r: Rewrite)
    requires r.buffer + 8 + |r.bytes| <= |mem|
    ensures var after, at := Apply(mem, r), r.buffer + 8;
            && after[..at] == mem[..at] && after[at..at + |r.bytes|] == r.bytes
            && after[at + |r.bytes|..] == mem[at + |r.bytes|..]
  {
  }

  lemma YieldsExactlyWhen(w: World, events: seq<Event>, k: nat)
    requires w.rewrites == [] && Plausible(events) && k < |events| && Answers(events[k])
    requires PendingRefinement.BenignRun(Run(w, events).calls)
    ensures ChanceOf(Before(w, events, k).pending, events[k]).eventId != 0
            <==> exists i: nat :: i < |events| && RepliesTo(w, events, i, k)
  {
    hide Run, Linked, ChanceOf, Answers, PlaceOf, PendingRuns.Ticketed, PendingRuns.YieldAt, RepliesTo,
         PendingRefinement.BenignRun;
    var calls, y := Run(w, events).calls, PlaceOf(w, events, k);
    ChanceIsYield(w, events, k);
    EveryRunIsLinked(w, events);
    LinkedHaveSources(w, events, Run(w, events));
    if PendingRuns.YieldAt(calls, y) != 0 {
      YieldHasCall(calls, y);
      var x: nat :| YieldedIn(calls, x, y);
      PendingRefinement.ReplyYieldsItsRequest(calls, x, y);
      SourceReplies(w, events, x, k);
    }
    if i: nat :| i < |events| && RepliesTo(w, events, i, k) {
      RepliesToMatches(w, events, i, k);
      PendingRefinement.ReplyYieldsItsRequest(calls, PlaceOf(w, events, i), y);
      TicketIsPositive(calls, PlaceOf(w, events, i));
    }
  }

  lemma SourceReplies(w: World, events: seq<Event>, x: nat, k: nat)
    requires w.rewrites == [] && Plausible(events) && k < |events|
    requires PendingRefinement.Matches(Run(w, events).calls, x, PlaceOf(w, events, k))
    ensures var s := Run(w, events);
            x < |s.sources| && s.sources[x] < |events| && RepliesTo(w, events, s.sources[x], k)
  {
    hide Run, PlaceOf, Asks, RequestOf, PendingRefinement.Bracketed;
    CallComesFrom(w, events, x);
  }

  lemma RepliesToMatches(w: World, events: seq<Event>, i: nat, k: nat)
    requires i < |events| && k < |events| && RepliesTo(w, events, i, k)
    ensures var calls, x := Run(w, events).calls, PlaceOf(w, events, i);
            && PendingRefinement.Matches(calls, x, PlaceOf(w, events, k))
            && x < |calls| && PlaceOf(w, events, k) < |calls| && PendingRuns.Tracked(calls[x])
  {
    hide Run, PlaceOf, Asks, PendingRefinement.Bracketed;
  }

  lemma TicketIsPositive(calls: seq<Call>, x: nat)
    requires PendingRuns.Ticketed(calls) && x < |calls| && calls[x].Request?
    ensures calls[x].request.eventId != 0
  {
  }

  /** And a request as the framework or a vendor client writes it is recognised, wherever its parcel lies in readable
      memory. */
  lemma PlainRequestAsks(mem: seq<octet>, e: Event, at: nat, form: ParcelMatcher.Form)
    requires Records(e) && IsRequest(e.kind, e.command.word) && !e.env.captureFault
    requires CodeOf(e.command) == ParcelMatcher.GET_PROPERTY_BYTE_ARRAY
    requires var size, buffer := ReplySize(e.command), ReplyBuffer(e.command);
             0 < buffer && buffer + size <= |mem| && ParcelMatcher.IsRequest(mem[buffer..buffer + size], at, form)
    ensures Asks(mem, e)
  {
    hide ParcelMatcher.Scan, ParcelMatcher.IsRequest, ParcelMatcher.Captured, CodeOf, IsRequest, U64, U32;
    ParcelMatcher.RequestInMemoryIsFlagged(mem, ReplySize(e.command), ReplyBuffer(e.command), at, form);
  }

  // ---- A written request and its reply ----

  /** A request for the device id as its parcel is written, delivered by the driver and seen whole: its transaction
      has code 11, and its data lies in readable memory. */
  ghost predicate WrittenRequest(mem: seq<octet>, e: Event, before: seq<octet>, domain: Option<string>,
                                 after: seq<octet>)
  {
    && e.Dispatched? && e.kind.From? && Number(e.command.word) in {0x8040_7202, 0x8048_7202}
    && |e.command.payload| >= 64 && !e.env.chance.metadataFault && !e.env.captureFault
    && U32(e.command.payload, 16) == 11
    && |before| % 4 == 0 && |before| <= 32 && (domain.Some? ==> ParcelWriter.IsDomain(domain.value))
    && var size, buffer := U64(e.command.payload, 32), U64(e.command.payload, 48);
       0 < buffer && buffer + size <= |mem| && mem[buffer..buffer + size] == ParcelWriter.Written(before, domain, after)
  }

  lemma WrittenRequestRecords(mem: seq<octet>, e: Event, before: seq<octet>, domain: Option<string>,
                              after: seq<octet>)
    requires WrittenRequest(mem, e, before, domain, after)
    ensures Records(e) && IsRequest(e.kind, e.command.word) && CodeOf(e.command) == 11
    ensures ReplySize(e.command) == U64(e.command.payload, 32) && ReplyBuffer(e.command) == U64(e.command.payload, 48)
  {
    hide U64, U32, Number, IsTransaction, ParcelWriter.Written, ParcelWriter.IsDomain;
    RequestNumbers(e.command.word);
    FieldsOfData(e.command.payload);
  }

  lemma WrittenPrefixAsks(mem: seq<octet>, e: Event, size: nat, buffer: nat, before: seq<octet>,
                          domain: Option<string>, after: seq<octet>)
    requires Records(e) && IsRequest(e.kind, e.command.word) && CodeOf(e.command) == 11 && !e.env.captureFault
    requires ReplySize(e.command) == size && ReplyBuffer(e.command) == buffer
    requires |before| % 4 == 0 && |before| <= 32 && (domain.Some? ==> ParcelWriter.IsDomain(domain.value))
    requires 0 < buffer && buffer + size <= |mem|
    requires mem[buffer..buffer + size] == ParcelWriter.Written(before, domain, after)
    ensures Asks(mem, e)
  {
    hide ParcelMatcher.Scan, ParcelMatcher.Captured, ParcelWriter.Written, ParcelWriter.IsDomain, U32, U64, IsRequest,
         IsTransaction, CodeOf, ReplySize, ReplyBuffer;
    ParcelWriter.WrittenInMemoryIsFlagged(mem, size, buffer, before, domain, after);
  }

  lemma WrittenRequestAsks(mem: seq<octet>, e: Event, before: seq<octet>, domain: Option<string>, after: seq<octet>)
    ensures WrittenRequest(mem, e, before, domain, after) ==> Asks(mem, e)
  {
    if WrittenRequest(mem, e, before, domain, after) {
      hide Asks, Records, IsRequest, CodeOf, ReplySize, ReplyBuffer, Number, U32, U64, ParcelWriter.Written,
           ParcelWriter.IsDomain;
      WrittenRequestRecords(mem, e, before, domain, after);
      var c := e.command;
      WrittenPrefixAsks(mem, e, U64(c.payload, 32), U64(c.payload, 48), before, domain, after);
    }
  }

  lemma RequestNumbers(word: Opcode)
    ensures IsRequest(From, word) <==> Number(word) in {0x8040_7202, 0x8048_7202}
    ensures IsRequest(From, word) ==> IsTransaction(From, word)
  {
    hide Number;
    NumberIs(word, 0x02, 0x72, 0x40, 0x80);
    NumberIs(word, 0x02, 0x72, 0x48, 0x80);
  }

  lemma FieldsOfData(payload: seq<octet>)
    requires |payload| >= 64
    ensures U32(payload[..64], 16) == U32(payload, 16) && U32(payload[..64], 20) == U32(payload, 20)
    ensures U64(payload[..64], 32) == U64(payload, 32) && U64(payload[..64], 48) == U64(payload, 48)
    ensures U64(payload[..64], 0) == U64(payload, 0)
  {
  }

  /** What a frame keeps of a request, by the offsets of its transaction data. */
  lemma RequestOfPayload(c: Command, id: nat)
    requires |c.payload| >= 64
    ensures RequestOf(c, id) ==
            PendingTable.Request(id, U64(c.payload, 0), U64(c.payload, 32), U32(c.payload, 16), U32(c.payload, 20), 1)
  {
    hide U64, U32;
    FieldsOfData(c.payload);
  }

  /** A reply with status 0 and an array of 32 bytes, all of it in readable memory, met by a configuration in write
      mode. */
  ghost predicate WrittenReply(mem: seq<octet>, e: Event) {
    && e.Dispatched? && e.kind.Towards? && Number(e.command.word) in {0x4040_6301, 0x4048_6312}
    && |e.command.payload| >= 64
    && (var ch := e.env.chance;
        && !ch.metadataFault && !ch.prefixFault && !ch.contentFault && ch.store.Stored?
        && ch.config.write && ch.config.length == 32 && |ch.config.virtualId| == 64)
    && var size, buffer := U64(e.command.payload, 32), U64(e.command.payload, 48);
       && size >= 40 && 0 < buffer && buffer + 40 <= |mem|
       && mem[buffer..buffer + 8] == [0, 0, 0, 0, 32, 0, 0, 0]
  }

  lemma HeaderWords(mem: seq<octet>, buffer: nat)
    requires buffer + 8 <= |mem| && mem[buffer..buffer + 8] == [0, 0, 0, 0, 32, 0, 0, 0]
    ensures U32(mem, buffer) == 0 && U32(mem, buffer + 4) == 32
  {
    var header := mem[buffer..buffer + 8];
    assert header[0] == mem[buffer] && header[1] == mem[buffer + 1];
    assert header[2] == mem[buffer + 2] && header[3] == mem[buffer + 3];
    assert header[4] == mem[buffer + 4] && header[5] == mem[buffer + 5];
    assert header[6] == mem[buffer + 6] && header[7] == mem[buffer + 7];
  }

  lemma WrittenReplyAnswers(mem: seq<octet>, e: Event)
    requires WrittenReply(mem, e)
    ensures Answers(e)
    ensures ReplyBuffer(e.command) == U64(e.command.payload, 48) && ReplySize(e.command) == U64(e.command.payload, 32)
  {
    hide U64, U32, Number, IsReply, IsTransaction;
    TransactionNumbers(e.kind, e.command.word);
    RepliesAreTransactions(e.kind, e.command.word);
    FieldsOfData(e.command.payload);
  }

  lemma WrittenReplyIsReady(mem: seq<octet>, e: Event)
    requires WrittenReply(mem, e) && Answers(e)
    requires ReplyBuffer(e.command) == U64(e.command.payload, 48) && ReplySize(e.command) == U64(e.command.payload, 32)
    ensures Ready(mem, e.command, e.env.chance)
  {
    hide U64, U32, Number, IsReply, IsTransaction, ReplyBuffer, ReplySize;
    HeaderWords(mem, U64(e.command.payload, 48));
  }

  /** Between two events nothing is dispatched for a task. */
  ghost predicate QuietBetween(events: seq<Event>, i: nat, k: nat, task: nat)
    requires k <= |events|
  {
    forall m :: i < m < k && events[m].Dispatched? ==> events[m].env.who.task != task
  }

  lemma {:induction false} QuietIsBracketed(calls: seq<Call>, task: nat)
    requires forall c :: c in calls ==> c.who.task != task
    ensures PendingRefinement.Height(calls, task) == 0 && PendingRefinement.Bracketed(calls, task)
  {
    if calls != [] {
      var n := |calls| - 1;
      QuietIsBracketed(calls[..n], task);
      assert calls[n] in calls;
      forall k | 0 <= k <= |calls| ensures PendingRefinement.Height(calls[..k], task) >= 0 {
        if k <= n { assert calls[..k] == calls[..n][..k]; } else { assert calls[..k] == calls; }
      }
    }
  }

  /** Where a call comes from: an event of its own task. */
  lemma CallHasEvent(w: World, events: seq<Event>, x: nat)
    requires w.rewrites == [] && Plausible(events) && x < |Run(w, events).calls|
    ensures var s := Run(w, events);
            && |s.sources| == |s.calls| && s.sources[x] < |events| && events[s.sources[x]].Dispatched?
            && events[s.sources[x]].env.who == s.calls[x].who
  {
    hide Run, PendingRuns.Ticketed, Answers, Asks, RequestOf, RewriteMade, CallOf;
    EveryRunIsLinked(w, events);
    var s := Run(w, events);
    assert CallMade(w, events, s, x);
    var before := Before(w, events, s.sources[x]);
    CallOfEvent(before.world.mem, before.tickets + 1, events[s.sources[x]]);
  }

  /** The calls between those of two events belong to other tasks if the events between do. */
  lemma QuietCalls(w: World, events: seq<Event>, i: nat, k: nat, task: nat)
    requires w.rewrites == [] && Plausible(events) && i < k < |events| && QuietBetween(events, i, k, task)
    requires PlaceOf(w, events, i) < PlaceOf(w, events, k) < |Run(w, events).calls|
    requires var s := Run(w, events);
             |s.sources| == |s.calls| && s.sources[PlaceOf(w, events, i)] == i && s.sources[PlaceOf(w, events, k)] == k
    ensures forall c :: c in Run(w, events).calls[PlaceOf(w, events, i) + 1..PlaceOf(w, events, k)] ==>
              c.who.task != task
  {
    hide Run, PlaceOf;
    var s, x, y := Run(w, events), PlaceOf(w, events, i), PlaceOf(w, events, k);
    forall z | x < z < y ensures s.calls[z].who.task != task {
      CallHasEvent(w, events, z);
      SourcesRise(w, events, x, z);
      SourcesRise(w, events, z, y);
    }
  }

  /** From the bytes of a request to the bytes of its reply. In a run that is benign for the pending table, when a
      task is delivered a written two-way request for the device id and the next command it dispatches is a written
      reply, the 32 bytes behind the header of the reply become the first 32 of the configured id and every other
      byte stays. */
  lemma WrittenRequestIsAnswered(w: World, events: seq<Event>, i: nat, k: nat,
                                 before: seq<octet>, domain: Option<string>, after: seq<octet>)
    requires w.rewrites == [] && Plausible(events) && i < k < |events|
    requires PendingRefinement.BenignRun(Run(w, events).calls)
    requires WrittenRequest(Run(w, events[..i]).world.mem, events[i], before, domain, after)
    requires U32(events[i].command.payload, 20) % 2 == 0
    requires WrittenReply(Run(w, events[..k]).world.mem, events[k])
    requires events[k].env.who.task == events[i].env.who.task && QuietBetween(events, i, k, events[i].env.who.task)
    ensures var mem, mem' := Run(w, events[..k]).world.mem, Run(w, events[..k + 1]).world.mem;
            var at := U64(events[k].command.payload, 48) + 8;
            && at + 32 <= |mem| == |mem'|
            && mem'[at..at + 32] == events[k].env.chance.config.virtualId[..32]
            && mem'[..at] == mem[..at] && mem'[at + 32..] == mem[at + 32..]
  {
    hide Run, WrittenRequest, WrittenReply, Asks, Answers, Ready, ReplyBuffer, ReplySize, RepliesTo,
         PendingRefinement.BenignRun, QuietBetween, U64;
    WrittenRequestAsks(Run(w, events[..i]).world.mem, events[i], before, domain, after);
    WrittenReplyAnswers(Run(w, events[..k]).world.mem, events[k]);
    WrittenReplyIsReady(Run(w, events[..k]).world.mem, events[k]);
    NextReplyReplies(w, events, i, k);
    ReadyReplyIsRewrittenExactlyWhen(w, events, k);
  }

  lemma NextReplyReplies(w: World, events: seq<Event>, i: nat, k: nat)
    requires w.rewrites == [] && Plausible(events) && i < k < |events|
    requires Asks(Before(w, events, i).world.mem, events[i]) && U32(events[i].command.payload, 20) % 2 == 0
    requires Answers(events[k])
    requires events[k].env.who.task == events[i].env.who.task && QuietBetween(events, i, k, events[i].env.who.task)
    ensures RepliesTo(w, events, i, k)
  {
    hide Run, PlaceOf, Prefix, IsRequest, IsReply, IsTransaction, U64, U32, Linked, QuietBetween,
         PendingRefinement.Bracketed, ParcelMatcher.Scan;
    var e, f, s := events[i], events[k], Run(w, events);
    var asked := PendingRuns.Request(e.env.who, RequestOf(e.command, Before(w, events, i).tickets + 1),
                                     e.env.acquired, e.env.generation);
    var answered := PendingRuns.Reply(f.env.who, f.env.acquired, f.env.generation);
    FieldsOfData(e.command.payload);
    AsksIsNoAnswer(Before(w, events, i).world.mem, e);
    CallHasPlace(w, events, i, asked);
    CallHasPlace(w, events, k, answered);
    PlacesRise(w, events, i, k);
    QuietCalls(w, events, i, k, e.env.who.task);
    QuietIsBracketed(s.calls[PlaceOf(w, events, i) + 1..PlaceOf(w, events, k)], e.env.who.task);
  }

  lemma AsksIsNoAnswer(mem: seq<octet>, e: Event)
    ensures Asks(mem, e) ==> !Answers(e)
  {
    hide Prefix, ParcelMatcher.Scan;
  }

  lemma PlacesRise(w: World, events: seq<Event>, i: nat, k: nat)
    requires i < k < |events|
    requires PlaceOf(w, events, i) < |Run(w, events).calls| && PlaceOf(w, events, k) < |Run(w, events).calls|
    requires var s := Run(w, events);
             |s.sources| == |s.calls| && s.sources[PlaceOf(w, events, i)] == i && s.sources[PlaceOf(w, events, k)] == k
    ensures PlaceOf(w, events, i) < PlaceOf(w, events, k)
  {
    hide Run;
    RunGrows(w, events[..k], i);
    assert events[..k][..i] == events[..i];
  }

  // ---- Walks in a run ----

  /** The events of a walk by one handler that nobody comes between. */
  function WalkEvents(kind: Kind, cs: seq<Command>, envs: nat -> Ambient): (events: seq<Event>)
    ensures |events| == |cs|
  {
    seq(|cs|, i requires 0 <= i < |cs| => Dispatched(kind, cs[i], envs(i)))
  }

  /** Equal but for the list of rewrites. */
  predicate SameEffect(w: World, v: World) {
    w.mem == v.mem && w.counters == v.counters && w.replies == v.replies
  }

  lemma ServedAlike(kind: Kind, w: World, v: World, c: Command, j: nat, k: nat, ch: Chance)
    requires SameEffect(w, v)
    ensures SameEffect(Served(kind, w, c, j, ch), Served(kind, v, c, k, ch))
  {
    hide Judge, Written, Counted, U64, Overwrite, IsReply, IsTransaction;
  }

  /** A walk in the middle of a run does what `Walked` says for the chances that the pending table gives its
      replies. */
  lemma {:induction false} WalkInRun(w: World, before: seq<Event>, kind: Kind, cs: seq<Command>, envs: nat -> Ambient,
                                     chances: nat -> Chance)
    requires forall k: nat :: k < |cs| ==>
               chances(k) == ChanceOf(Run(w, before + WalkEvents(kind, cs[..k], envs)).pending,
                                      Dispatched(kind, cs[k], envs(k)))
    ensures SameEffect(Run(w, before + WalkEvents(kind, cs, envs)).world,
                       Walked(kind, Run(w, before).world, cs, chances))
  {
    hide Served, ChanceOf, SameEffect, Run, WalkEvents, Walked;
    if cs == [] {
      assert before + WalkEvents(kind, cs, envs) == before;
      NoWalk(kind, Run(w, before).world, chances);
    } else {
      var n := |cs| - 1;
      var earlier := before + WalkEvents(kind, cs[..n], envs);
      var last := Dispatched(kind, cs[n], envs(n));
      forall k: nat | k < n
        ensures chances(k) == ChanceOf(Run(w, before + WalkEvents(kind, cs[..n][..k], envs)).pending,
                                       Dispatched(kind, cs[..n][k], envs(k)))
      {
        assert cs[..n][..k] == cs[..k];
      }
      WalkInRun(w, before, kind, cs[..n], envs, chances);
      WalkEventsOn(kind, cs, envs);
      assert before + WalkEvents(kind, cs, envs) == earlier + [last];
      RunOne(w, earlier, last);
      WalkedOn(kind, Run(w, before).world, cs[..n], cs[n], chances);
      assert cs[..n] + [cs[n]] == cs;
      ServedAlike(kind, Run(w, earlier).world, Walked(kind, Run(w, before).world, cs[..n], chances), cs[n],
                  |earlier|, n, chances(n));
    }
  }

  lemma WalkEventsOn(kind: Kind, cs: seq<Command>, envs: nat -> Ambient)
    requires cs != []
    ensures var n := |cs| - 1;
            WalkEvents(kind, cs, envs) == WalkEvents(kind, cs[..n], envs) + [Dispatched(kind, cs[n], envs(n))]
  {
  }

  lemma RunOne(w: World, events: seq<Event>, e: Event)
    requires e.Dispatched?
    ensures var s := Run(w, events);
            Run(w, events + [e]).world == Served(e.kind, s.world, e.command, |events|, ChanceOf(s.pending, e))
  {
    hide Served, ChanceOf, CallOf, Called, Records;
    assert (events + [e])[..|events|] == events;
  }

  lemma NoWalk(kind: Kind, w: World, chances: nat -> Chance)
    ensures SameEffect(w, Walked(kind, w, [], chances))
  {
  }
}
