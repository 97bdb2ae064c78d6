/** The in-place rewrite of correlated replies in user memory, one command and one stream at a time, on values.

    User memory is indexed by address, address 0 being null. Each copy to or from it may fault; what the pending
    table answers to a pop is an input, as is the configuration slot a reply captures. */
module ReplyRewrite {
  import opened Numbers
  import opened Wrappers
  import opened UserBytes
  import opened StreamWalker

  const ID_BYTES := 32

  /** The fields of a published configuration slot that a reply reads. */
  datatype Config = Config(write: bool, length: nat, virtualId: seq<octet>)

  /** Every publisher insists on the length. */
  predicate Published(c: Config) { c.length == ID_BYTES }

  /** How a copy to user memory ends: completely, or after some of the bytes. */
  datatype Store = Stored | Torn(written: nat)

  /** Everything outside the hook that one command meets. */
  datatype Chance = Chance(
    headerFault: bool, metadataFault: bool, eventId: nat, parcelFlags: nat, config: Config,
    prefixFault: bool, contentFault: bool, store: Store)

  /** A slot holds 64 id bytes, of which 32 are copied, and a torn copy stops short of them. */
  predicate FairChance(c: Chance) {
    |c.config.virtualId| == 64 && (c.store.Torn? ==> c.store.written < ID_BYTES)
  }

  datatype Verdict =
    | NoPending | Untracked | HeaderFault | StatusNonzero | ArrayInvalid | ContentFault
    | LengthMismatch | DryRun | WriteOk | WriteFault(written: nat)

  /** Whether a copy of n bytes at an address succeeds. */
  predicate Copies(mem: seq<octet>, at: nat, n: nat, fault: bool) {
    !fault && at + n <= |mem|
  }

  /** What becomes of one reply: its size and buffer, user memory and chance decide. */
  function Judge(mem: seq<octet>, size: nat, buffer: nat, ch: Chance): (v: Verdict)
    ensures v.WriteFault? ==> ch.store == Torn(v.written)
    ensures v.WriteOk? || v.WriteFault? ==> buffer + 8 + ID_BYTES <= |mem|
  {
    if ch.eventId == 0 then NoPending
    else if ch.parcelFlags % 2 == 0 then Untracked
    else if size < 8 then ArrayInvalid
    else if buffer == 0 || !Copies(mem, buffer, 8, ch.prefixFault) then HeaderFault
    else if U32(mem, buffer) != 0 then StatusNonzero
    else if U32(mem, buffer + 4) != ID_BYTES || size < 8 + ID_BYTES then ArrayInvalid
    else if !Copies(mem, buffer + 8, ID_BYTES, ch.contentFault) then ContentFault
    else if ch.config.length != ID_BYTES then LengthMismatch
    else if !ch.config.write then DryRun
    else if ch.store.Torn? then WriteFault(ch.store.written)
    else WriteOk
  }

  /** The reply is to a tracked request. */
  predicate Correlated(ch: Chance) {
    ch.eventId != 0 && ch.parcelFlags % 2 == 1
  }

  /** The status and the length of the array can be read. */
  predicate HeaderReads(mem: seq<octet>, size: nat, buffer: nat, ch: Chance) {
    size >= 8 && buffer != 0 && buffer + 8 <= |mem| && !ch.prefixFault
  }

  /** And they say that an array of 32 bytes follows, which the reply has room for. */
  predicate ArrayReads(mem: seq<octet>, size: nat, buffer: nat, ch: Chance) {
    HeaderReads(mem, size, buffer, ch) && U32(mem, buffer) == 0 && U32(mem, buffer + 4) == 32 && size >= 40
  }

  /** Which verdict a reply gets, each by a condition of its own. */
  lemma VerdictExactlyWhen(mem: seq<octet>, size: nat, buffer: nat, ch: Chance)
    ensures var v := Judge(mem, size, buffer, ch);
            var readable := ArrayReads(mem, size, buffer, ch) && !ch.contentFault && buffer + 40 <= |mem|;
            && (v.NoPending? <==> ch.eventId == 0)
            && (v.Untracked? <==> ch.eventId != 0 && ch.parcelFlags % 2 == 0)
            && (v.HeaderFault? <==> Correlated(ch) && size >= 8 && !HeaderReads(mem, size, buffer, ch))
            && (v.StatusNonzero? <==>
                  Correlated(ch) && HeaderReads(mem, size, buffer, ch) && U32(mem, buffer) != 0)
            && (v.ArrayInvalid? <==>
                  && Correlated(ch) && !ArrayReads(mem, size, buffer, ch)
                  && (size >= 8 ==> HeaderReads(mem, size, buffer, ch) && U32(mem, buffer) == 0))
            && (v.ContentFault? <==> Correlated(ch) && ArrayReads(mem, size, buffer, ch) && !readable)
            && (v.LengthMismatch? <==> Correlated(ch) && readable && ch.config.length != 32)
            && (v.DryRun? <==> Correlated(ch) && readable && ch.config.length == 32 && !ch.config.write)
            && (v.WriteOk? || v.WriteFault?
                <==> Correlated(ch) && readable && ch.config.length == 32 && ch.config.write)
            && (v.WriteOk? ==> ch.store.Stored?) && (v.WriteFault? ==> ch.store == Torn(v.written))
  {
    hide U32;
  }

  /** The bytes of the virtual id that a verdict leaves in user memory. */
  function Written(ch: Chance, v: Verdict): seq<octet> {
    match v
    case WriteOk => FirstOf(ch.config.virtualId, ID_BYTES)
    case WriteFault(k) => FirstOf(ch.config.virtualId, k)
    case _ => []
  }

  function FirstOf(s: seq<octet>, n: nat): seq<octet> {
    if n <= |s| then s[..n] else s
  }

  function Overwrite(mem: seq<octet>, at: nat, bytes: seq<octet>): seq<octet>
    requires at + |bytes| <= |mem|
  {
    mem[..at] + bytes + mem[at + |bytes|..]
  }

  datatype ReplyCounters = ReplyCounters(
    withoutPending: nat, candidates: nat, correlated: nat, headerOk: nat, headerFaults: nat, statusOk: nat,
    statusNonzero: nat, arrayValid: nat, arrayInvalid: nat, contentOk: nat, contentFaults: nat,
    replacements: nat, lengthMismatch: nat, dryRun: nat, writeOk: nat, writeFaults: nat)

  /** The counters split exactly: every candidate failed in one of four ways or became a replacement, and every
      replacement was a length mismatch, a dry run, a write or a write fault. */
  predicate Split(c: ReplyCounters) {
    && c.candidates == c.correlated
    && c.candidates == c.headerFaults + c.statusNonzero + c.arrayInvalid + c.contentFaults + c.replacements
    && c.replacements == c.lengthMismatch + c.dryRun + c.writeOk + c.writeFaults
    && c.headerOk == c.statusOk + c.statusNonzero
    && c.arrayValid == c.contentOk + c.contentFaults
    && c.contentOk == c.replacements
  }

  /** Which counters one verdict raises. A reply shorter than eight bytes is invalid before its header is read,
      so the header counters need its size. */
  function Counted(c: ReplyCounters, v: Verdict, size: nat): ReplyCounters {
    if v.NoPending? then c.(withoutPending := c.withoutPending + 1)
    else if v.Untracked? then c
    else
      var header := One(size >= 8 && !v.HeaderFault?);
      var status := One(header == 1 && !v.StatusNonzero?);
      var array_ := One(status == 1 && !v.ArrayInvalid?);
      var content := One(array_ == 1 && !v.ContentFault?);
      ReplyCounters(
        c.withoutPending, c.candidates + 1, c.correlated + 1,
        c.headerOk + header, c.headerFaults + One(v.HeaderFault?),
        c.statusOk + status, c.statusNonzero + One(v.StatusNonzero?),
        c.arrayValid + array_, c.arrayInvalid + One(v.ArrayInvalid?),
        c.contentOk + content, c.contentFaults + One(v.ContentFault?),
        c.replacements + content, c.lengthMismatch + One(v.LengthMismatch?),
        c.dryRun + One(v.DryRun?), c.writeOk + One(v.WriteOk?), c.writeFaults + One(v.WriteFault?))
  }

  /** The verdicts of the guards. */
  predicate Rejected(v: Verdict) {
    v.HeaderFault? || v.StatusNonzero? || v.ArrayInvalid? || v.ContentFault?
  }

  /** The counters once all guards have passed. */
  function Accepted(c: ReplyCounters): ReplyCounters {
    c.(candidates := c.candidates + 1, correlated := c.correlated + 1, headerOk := c.headerOk + 1,
       statusOk := c.statusOk + 1, arrayValid := c.arrayValid + 1, contentOk := c.contentOk + 1,
       replacements := c.replacements + 1)
  }

  lemma SplitKept(c: ReplyCounters, mem: seq<octet>, size: nat, buffer: nat, ch: Chance)
    ensures Split(c) ==> Split(Counted(c, Judge(mem, size, buffer, ch), size))
    ensures Published(ch.config) ==> Counted(c, Judge(mem, size, buffer, ch), size).lengthMismatch == c.lengthMismatch
  {
  }

  /** How far the guards of one reply were passed. */
  lemma GuardsCounted(c: ReplyCounters, mem: seq<octet>, size: nat, buffer: nat, ch: Chance)
    ensures var after := Counted(c, Judge(mem, size, buffer, ch), size);
            var header := Correlated(ch) && HeaderReads(mem, size, buffer, ch);
            && after.candidates == c.candidates + One(Correlated(ch))
            && after.headerOk == c.headerOk + One(header)
            && after.statusOk == c.statusOk + One(header && U32(mem, buffer) == 0)
            && after.arrayValid == c.arrayValid + One(header && ArrayReads(mem, size, buffer, ch))
  {
    hide U32;
  }

  /** One rewrite of user memory: command k of the stream, its reply's size and buffer, and the bytes left at
      buffer + 8. */
  datatype Rewrite = Rewrite(command: nat, size: nat, buffer: nat, bytes: seq<octet>)

  function Replay(mem: seq<octet>, rs: seq<Rewrite>): (after: seq<octet>)
    ensures |after| == |mem|
  {
    if rs == [] then mem else
    Apply(Replay(mem, rs[..|rs| - 1]), rs[|rs| - 1])
  }

  function Apply(mem: seq<octet>, r: Rewrite): (after: seq<octet>)
    ensures |after| == |mem|
  {
    if r.buffer + 8 + |r.bytes| <= |mem| then Overwrite(mem, r.buffer + 8, r.bytes) else mem
  }

  predicate InWindow(r: Rewrite, at: nat) {
    r.buffer + 8 <= at < r.buffer + 8 + ID_BYTES
  }

  /** A rewrite is one the hook may do: its reply, whose transaction data is `data`, is correlated and in write
      mode, has status 0, length 32 and room for 40 bytes in the memory as it is, and what is left there is the
      captured id, or less of it only after a fault. */
  ghost predicate Correct(mem: seq<octet>, r: Rewrite, data: seq<octet>, ch: Chance) {
    && |data| == TRANSACTION_BYTES && r.size == U64(data, 32) && r.buffer == U64(data, 48)
    && ch.eventId != 0 && ch.parcelFlags % 2 == 1 && ch.config.write
    && r.size >= 8 + ID_BYTES && r.buffer != 0 && r.buffer + 8 + ID_BYTES <= |mem|
    && U32(mem, r.buffer) == 0 && U32(mem, r.buffer + 4) == ID_BYTES
    && |ch.config.virtualId| == 64
    && (if ch.store.Stored? then r.bytes == ch.config.virtualId[..ID_BYTES]
        else ch.store.written < ID_BYTES && r.bytes == ch.config.virtualId[..ch.store.written])
  }

  /** Rewrite i of a walk is correct in the memory that the rewrites before it leave, for the reply among the
      dispatched commands that it names. */
  ghost predicate Justified(mem: seq<octet>, rs: seq<Rewrite>, i: nat, dispatched: seq<Command>,
                            chances: nat -> Chance)
    requires i < |rs|
  {
    var k := rs[i].command;
    && k < |dispatched|
    && IsReply(Towards, dispatched[k].word)
    && |dispatched[k].payload| >= TRANSACTION_BYTES
    && Correct(Replay(mem, rs[..i]), rs[i], dispatched[k].payload[..TRANSACTION_BYTES], chances(k))
  }

  /** The frame of a whole stream: a byte outside every window is what it was. */
  lemma {:induction false} OutsideWindows(mem: seq<octet>, rs: seq<Rewrite>, at: nat)
    requires at < |mem|
    requires forall r :: r in rs ==> |r.bytes| <= ID_BYTES && !InWindow(r, at)
    ensures Replay(mem, rs)[at] == mem[at]
  {
    if rs != [] {
      OutsideWindows(mem, rs[..|rs| - 1], at);
      var r := rs[|rs| - 1];
      assert r in rs;
    }
  }

  /** What a rewrite leaves stays there unless a later reply of the stream names an overlapping buffer. */
  lemma {:induction false} WindowContents(mem: seq<octet>, rs: seq<Rewrite>, i: nat)
    requires i < |rs| && |rs[i].bytes| <= ID_BYTES && rs[i].buffer + 8 + |rs[i].bytes| <= |mem|
    requires forall k :: i < k < |rs| ==>
               |rs[k].bytes| <= ID_BYTES
               && (rs[k].buffer + ID_BYTES <= rs[i].buffer || rs[i].buffer + ID_BYTES <= rs[k].buffer)
    ensures Replay(mem, rs)[rs[i].buffer + 8..rs[i].buffer + 8 + |rs[i].bytes|] == rs[i].bytes
    decreases |rs|
  {
    var n := |rs| - 1;
    var lo, hi := rs[i].buffer + 8, rs[i].buffer + 8 + |rs[i].bytes|;
    var before := Replay(mem, rs[..n]);
    if i < n {
      WindowContents(mem, rs[..n], i);
      forall at | lo <= at < hi ensures Replay(mem, rs)[at] == before[at] {}
      assert Replay(mem, rs)[lo..hi] == before[lo..hi];
    }
  }

  datatype StreamCounters = StreamCounters(
    streams: nat, commands: nat, transactions: nat, boundaryErrors: nat, copyFaults: nat, capped: nat,
    metadataOk: nat, metadataFaults: nat)

  /** Why a walk stopped: as the framing says, or at a command word that could not be copied. */
  datatype Stop = Finished(end: End) | Fault

  function Stopped(c: StreamCounters, stop: Stop): StreamCounters {
    match stop
    case Finished(Complete) => c
    case Finished(Boundary) => c.(boundaryErrors := c.boundaryErrors + 1)
    case Finished(Capped) => c.(capped := c.capped + 1)
    case Fault => c.(copyFaults := c.copyFaults + 1)
  }

  // ---- One command, and a list of them ----

  /** What a walk can change: user memory and the counters, and the rewrites it has done. */
  datatype World = World(mem: seq<octet>, counters: StreamCounters, replies: ReplyCounters, rewrites: seq<Rewrite>)

  /** The transaction data of a command was copied. No legal transaction is too short for it. */
  predicate Copied(c: Command, ch: Chance) {
    |c.payload| >= TRANSACTION_BYTES && !ch.metadataFault
  }

  function Data(c: Command): (data: seq<octet>)
    requires |c.payload| >= TRANSACTION_BYTES
    ensures |data| == TRANSACTION_BYTES
  {
    c.payload[..TRANSACTION_BYTES]
  }

  function ReplySize(c: Command): nat
    requires |c.payload| >= TRANSACTION_BYTES
  {
    U64(Data(c), 32)
  }

  function ReplyBuffer(c: Command): nat
    requires |c.payload| >= TRANSACTION_BYTES
  {
    U64(Data(c), 48)
  }

  function VerdictOn(mem: seq<octet>, c: Command, ch: Chance): Verdict
    requires |c.payload| >= TRANSACTION_BYTES
  {
    Judge(mem, ReplySize(c), ReplyBuffer(c), ch)
  }

  function RewriteOf(mem: seq<octet>, c: Command, k: nat, ch: Chance): Option<Rewrite>
    requires |c.payload| >= TRANSACTION_BYTES
  {
    var bytes := Written(ch, VerdictOn(mem, c, ch));
    if bytes == [] then None else Some(Rewrite(k, ReplySize(c), ReplyBuffer(c), bytes))
  }

  function Extended(rs: seq<Rewrite>, r: Option<Rewrite>): seq<Rewrite> {
    if r.Some? then rs + [r.value] else rs
  }

  function Applied(mem: seq<octet>, r: Option<Rewrite>): (after: seq<octet>)
    ensures |after| == |mem|
  {
    if r.Some? then Apply(mem, r.value) else mem
  }

  /** A reply whose data was copied is judged and counted, and rewritten when the verdict leaves bytes. */
  function Answered(w: World, c: Command, k: nat, ch: Chance): (after: World)
    requires |c.payload| >= TRANSACTION_BYTES
    ensures |after.mem| == |w.mem|
  {
    var r := RewriteOf(w.mem, c, k, ch);
    World(Applied(w.mem, r), w.counters, Counted(w.replies, VerdictOn(w.mem, c, ch), ReplySize(c)),
          Extended(w.rewrites, r))
  }

  /** A transaction command, already counted. */
  function Recorded(kind: Kind, w: World, c: Command, k: nat, ch: Chance): (after: World)
    ensures |after.mem| == |w.mem|
  {
    if !Copied(c, ch) then w.(counters := w.counters.(metadataFaults := w.counters.metadataFaults + 1))
    else
      var copied := w.(counters := w.counters.(metadataOk := w.counters.metadataOk + 1));
      if IsReply(kind, c.word) then Answered(copied, c, k, ch) else copied
  }

  /** What dispatching command k does. */
  function Served(kind: Kind, w: World, c: Command, k: nat, ch: Chance): (after: World)
    ensures |after.mem| == |w.mem|
  {
    var n := w.counters;
    if !IsTransaction(kind, c.word) then w.(counters := n.(commands := n.commands + 1))
    else Recorded(kind, w.(counters := n.(commands := n.commands + 1, transactions := n.transactions + 1)), c, k, ch)
  }

  /** What dispatching a list of commands does, each in what the ones before it leave. */
  function Walked(kind: Kind, w: World, cs: seq<Command>, chances: nat -> Chance): (after: World)
    ensures |after.mem| == |w.mem|
  {
    if cs == [] then w else
    var n := |cs| - 1;
    Served(kind, Walked(kind, w, cs[..n], chances), cs[n], n, chances(n))
  }

  lemma WalkedOn(kind: Kind, w: World, cs: seq<Command>, c: Command, chances: nat -> Chance)
    ensures Walked(kind, w, cs + [c], chances) ==
            Served(kind, Walked(kind, w, cs, chances), c, |cs|, chances(|cs|))
  {
    hide Served;
    assert (cs + [c])[..|cs|] == cs;
  }

  /** The chances and configurations of a whole walk are fair and published. */
  ghost predicate Fair(chances: nat -> Chance) {
    forall n: nat :: FairChance(chances(n))
  }

  ghost predicate AllPublished(chances: nat -> Chance) {
    forall n: nat :: Published(chances(n).config)
  }

  // ---- Counters of a list ----

  function Transactions(kind: Kind, cs: seq<Command>): nat {
    if cs == [] then 0 else
    Transactions(kind, cs[..|cs| - 1]) + One(IsTransaction(kind, cs[|cs| - 1].word))
  }

  /** The stream counters of a list: every command and every transaction is counted, and every transaction has
      its metadata copied or not. */
  lemma {:induction false} StreamCountersOf(kind: Kind, w: World, cs: seq<Command>, chances: nat -> Chance)
    ensures var before, after := w.counters, Walked(kind, w, cs, chances).counters;
            && after.commands == before.commands + |cs|
            && after.transactions == before.transactions + Transactions(kind, cs)
            && after.metadataOk + after.metadataFaults
               == before.metadataOk + before.metadataFaults + Transactions(kind, cs)
            && (after.streams, after.boundaryErrors, after.copyFaults, after.capped)
               == (before.streams, before.boundaryErrors, before.copyFaults, before.capped)
  {
    hide RewriteOf, Applied, Counted, VerdictOn, ReplySize, IsTransaction, IsReply;
    if cs != [] { StreamCountersOf(kind, w, cs[..|cs| - 1], chances); }
  }

  /** The reply counters of a list stay split exactly, and no published configuration has another length. */
  lemma {:induction false} SplitOfWalk(kind: Kind, w: World, cs: seq<Command>, chances: nat -> Chance)
    ensures Split(w.replies) ==> Split(Walked(kind, w, cs, chances).replies)
    ensures AllPublished(chances) ==>
              Walked(kind, w, cs, chances).replies.lengthMismatch == w.replies.lengthMismatch
  {
    hide Split, Counted, Judge, Applied, Extended, Written, ReplySize, ReplyBuffer, Published, IsTransaction, IsReply;
    if cs != [] {
      var n := |cs| - 1;
      var before := Walked(kind, w, cs[..n], chances);
      SplitOfWalk(kind, w, cs[..n], chances);
      if |cs[n].payload| >= TRANSACTION_BYTES {
        SplitKept(before.replies, before.mem, ReplySize(cs[n]), ReplyBuffer(cs[n]), chances(n));
      }
    }
  }

  /** The same verdict, whatever a torn copy left. */
  predicate Alike(v: Verdict, w: Verdict) {
    v == w || (v.WriteFault? && w.WriteFault?)
  }

  /** How many replies of a list get a verdict. */
  function Tally(kind: Kind, w: World, cs: seq<Command>, chances: nat -> Chance, like: Verdict): nat {
    if cs == [] then 0 else
    var n := |cs| - 1;
    Tally(kind, w, cs[..n], chances, like)
    + One(IsReply(kind, cs[n].word) && Copied(cs[n], chances(n))
          && Alike(VerdictOn(Walked(kind, w, cs[..n], chances).mem, cs[n], chances(n)), like))
  }

  /** The counters that a verdict raises by itself, each by how often the verdict is it. */
  ghost predicate CountsVerdict(before: ReplyCounters, after: ReplyCounters, n: Verdict -> nat) {
    && after.withoutPending == before.withoutPending + n(NoPending)
    && after.headerFaults == before.headerFaults + n(HeaderFault)
    && after.statusNonzero == before.statusNonzero + n(StatusNonzero)
    && after.arrayInvalid == before.arrayInvalid + n(ArrayInvalid)
    && after.contentFaults == before.contentFaults + n(ContentFault)
    && after.lengthMismatch == before.lengthMismatch + n(LengthMismatch)
    && after.dryRun == before.dryRun + n(DryRun)
    && after.writeOk == before.writeOk + n(WriteOk)
    && after.writeFaults == before.writeFaults + n(WriteFault(0))
  }

  /** Every reply counter counts the replies with its verdict. */
  lemma {:induction false} ReplyCountersOf(kind: Kind, w: World, cs: seq<Command>, chances: nat -> Chance)
    ensures CountsVerdict(w.replies, Walked(kind, w, cs, chances).replies, v => Tally(kind, w, cs, chances, v))
  {
    hide Served, Counted, Alike, VerdictOn, Copied;
    if cs != [] {
      var n := |cs| - 1;
      var before := Walked(kind, w, cs[..n], chances);
      ReplyCountersOf(kind, w, cs[..n], chances);
      RepliesOfOne(kind, before, cs[n], n, chances(n));
    }
  }

  /** One command counts its verdict, if it is a reply whose data was copied, and nothing else. */
  lemma RepliesOfOne(kind: Kind, w: World, c: Command, k: nat, ch: Chance)
    ensures CountsVerdict(w.replies, Served(kind, w, c, k, ch).replies,
              v => One(IsReply(kind, c.word) && Copied(c, ch) && Alike(VerdictOn(w.mem, c, ch), v)))
  {
    hide VerdictOn, Applied, Extended, RewriteOf, ReplySize, IsTransaction, IsReply, Counted;
    RepliesAreTransactions(kind, c.word);
    if Copied(c, ch) { CountedAlike(w.replies, VerdictOn(w.mem, c, ch), ReplySize(c)); }
  }

  lemma CountedAlike(c: ReplyCounters, v: Verdict, size: nat)
    ensures CountsVerdict(c, Counted(c, v, size), like => One(Alike(v, like)))
  {
  }

  lemma RepliesAreTransactions(kind: Kind, word: Opcode)
    ensures IsReply(kind, word) ==> IsTransaction(kind, word)
  {
  }

  // ---- Rewrites of a list ----

  /** What a walk has done to user memory: the rewrites make it what it is, and each is justified. */
  ghost predicate Trail(kind: Kind, start: seq<octet>, mem: seq<octet>, rs: seq<Rewrite>, cs: seq<Command>,
                        chances: nat -> Chance)
  {
    && mem == Replay(start, rs)
    && (forall i :: 0 <= i < |rs| ==> Justified(start, rs, i, cs, chances))
    && (kind.From? ==> rs == [])
  }

  lemma WrittenIsCorrect(mem: seq<octet>, k: nat, size: nat, buffer: nat, data: seq<octet>, ch: Chance)
    requires FairChance(ch) && |data| == TRANSACTION_BYTES && size == U64(data, 32) && buffer == U64(data, 48)
    ensures var bytes := Written(ch, Judge(mem, size, buffer, ch));
            |bytes| > 0 ==> Correct(mem, Rewrite(k, size, buffer, bytes), data, ch) && |bytes| <= ID_BYTES
  {
  }

  lemma ReplayAppend(mem: seq<octet>, rs: seq<Rewrite>, r: Rewrite)
    ensures Replay(mem, rs + [r]) == Apply(Replay(mem, rs), r)
  {
  }

  lemma JustifiedKept(mem: seq<octet>, rs: seq<Rewrite>, rs': seq<Rewrite>, i: nat, cs: seq<Command>, c: Command,
                      chances: nat -> Chance)
    requires i < |rs| && Justified(mem, rs, i, cs, chances) && IsPrefix(rs, rs')
    ensures Justified(mem, rs', i, cs + [c], chances)
  {
    assert rs'[..i] == rs[..i];
  }

  lemma JustifiedNew(mem: seq<octet>, rs: seq<Rewrite>, r: Rewrite, cs: seq<Command>, c: Command,
                     chances: nat -> Chance)
    requires r.command == |cs| && IsReply(Towards, c.word) && |c.payload| >= TRANSACTION_BYTES
    requires Correct(Replay(mem, rs), r, c.payload[..TRANSACTION_BYTES], chances(|cs|))
    ensures Justified(mem, rs + [r], |rs|, cs + [c], chances)
  {
  }

  /** One more command leaves a trail as it is, or makes it longer by a justified rewrite. */
  lemma TrailOn(kind: Kind, start: seq<octet>, w: World, cs: seq<Command>, c: Command, chances: nat -> Chance)
    requires Trail(kind, start, w.mem, w.rewrites, cs, chances) && FairChance(chances(|cs|))
    ensures var after := Served(kind, w, c, |cs|, chances(|cs|));
            Trail(kind, start, after.mem, after.rewrites, cs + [c], chances)
  {
    hide Justified, Replay, Correct, Apply, Judge, Written, Counted, U64;
    var k, ch := |cs|, chances(|cs|);
    var after := Served(kind, w, c, k, ch);
    RepliesAreTransactions(kind, c.word);
    if IsReply(kind, c.word) && Copied(c, ch) && RewriteOf(w.mem, c, k, ch).Some? {
      var r := RewriteOf(w.mem, c, k, ch).value;
      WrittenIsCorrect(w.mem, k, ReplySize(c), ReplyBuffer(c), Data(c), ch);
      ReplayAppend(start, w.rewrites, r);
      JustifiedNew(start, w.rewrites, r, cs, c, chances);
    }
    forall i | 0 <= i < |w.rewrites| ensures Justified(start, after.rewrites, i, cs + [c], chances) {
      JustifiedKept(start, w.rewrites, after.rewrites, i, cs, c, chances);
    }
  }

  /** Soundness: a walk changes user memory by justified rewrites only. */
  lemma {:induction false} TrailOfWalk(kind: Kind, w: World, cs: seq<Command>, chances: nat -> Chance)
    requires w.rewrites == [] && Fair(chances)
    ensures var after := Walked(kind, w, cs, chances);
            Trail(kind, w.mem, after.mem, after.rewrites, cs, chances)
  {
    hide Served, Justified, FairChance;
    if cs != [] {
      var n := |cs| - 1;
      TrailOfWalk(kind, w, cs[..n], chances);
      assert cs[..n] + [cs[n]] == cs;
      assert FairChance(chances(n));
      TrailOn(kind, w.mem, Walked(kind, w, cs[..n], chances), cs[..n], cs[n], chances);
    }
  }

  /** What makes a reply due for a rewrite: it is correlated to a tracked request, carries status 0 and a
      readable array of 32 bytes, and the captured configuration is in write mode. */
  predicate Due(mem: seq<octet>, size: nat, buffer: nat, ch: Chance) {
    && ch.eventId != 0 && ch.parcelFlags % 2 == 1 && ch.config.write
    && size >= 40 && buffer != 0 && buffer + 40 <= |mem|
    && !ch.prefixFault && !ch.contentFault
    && U32(mem, buffer) == 0 && U32(mem, buffer + 4) == 32
  }

  lemma RewrittenExactlyWhen(mem: seq<octet>, size: nat, buffer: nat, ch: Chance)
    requires FairChance(ch) && Published(ch.config)
    ensures var v := Judge(mem, size, buffer, ch);
            && (v.WriteOk? || v.WriteFault? <==> Due(mem, size, buffer, ch))
            && (v.WriteOk? <==> Due(mem, size, buffer, ch) && ch.store.Stored?)
            && Written(ch, v) == (if !Due(mem, size, buffer, ch) then []
                                  else if ch.store.Stored? then ch.config.virtualId[..32]
                                  else ch.config.virtualId[..ch.store.written])
  {
  }

  /** What a command does to memory and rewrites: nothing, or one rewrite of its own. */
  lemma ServedRewrites(kind: Kind, w: World, c: Command, k: nat, ch: Chance)
    ensures var after := Served(kind, w, c, k, ch);
            || (after.mem == w.mem && after.rewrites == w.rewrites)
            || (var n := |w.rewrites|;
                |after.rewrites| == n + 1 && after.rewrites[n].command == k
                && after.rewrites == w.rewrites + [after.rewrites[n]] && after.mem == Apply(w.mem, after.rewrites[n]))
  {
    hide Apply, Counted, VerdictOn, ReplySize, ReplyBuffer, Written;
  }

  /** Rewrites of commands below n, in order. */
  ghost predicate InOrder(rs: seq<Rewrite>, n: nat) {
    && (forall i :: 0 <= i < |rs| ==> rs[i].command < n)
    && forall i, j :: 0 <= i < j < |rs| ==> rs[i].command < rs[j].command
  }

  lemma {:induction false} RewritesInOrder(kind: Kind, w: World, cs: seq<Command>, chances: nat -> Chance)
    requires w.rewrites == []
    ensures InOrder(Walked(kind, w, cs, chances).rewrites, |cs|)
  {
    hide Served;
    if cs != [] {
      var n := |cs| - 1;
      RewritesInOrder(kind, w, cs[..n], chances);
      ServedRewrites(kind, Walked(kind, w, cs[..n], chances), cs[n], n, chances(n));
    }
  }

  /** The rewrites of a list that belong to command k. */
  ghost predicate HasRewrite(rs: seq<Rewrite>, k: nat, r: Rewrite) {
    r in rs && r.command == k
  }

  /** The last command has the rewrite the specification gives it, and the others keep theirs. */
  lemma LastRewrite(kind: Kind, w: World, cs: seq<Command>, chances: nat -> Chance, k: nat, r: Rewrite)
    requires w.rewrites == [] && k < |cs|
    ensures var n := |cs| - 1;
            var before := Walked(kind, w, cs[..n], chances);
            HasRewrite(Walked(kind, w, cs, chances).rewrites, k, r) <==>
              if k < n then HasRewrite(before.rewrites, k, r)
              else IsReply(kind, cs[n].word) && Copied(cs[n], chances(n))
                   && RewriteOf(before.mem, cs[n], n, chances(n)) == Some(r)
  {
    hide Served, HasRewrite, InOrder, MadeBy;
    var n := |cs| - 1;
    RewritesInOrder(kind, w, cs[..n], chances);
    var before := Walked(kind, w, cs[..n], chances);
    ServedExtends(kind, before, cs[n], n, chances(n));
    OneMore(before.rewrites, MadeBy(kind, before.mem, cs[n], n, chances(n)), n, k, r);
    MadeBySome(kind, before.mem, cs[n], n, chances(n));
  }

  /** The rewrite of one command, if it has one. */
  function MadeBy(kind: Kind, mem: seq<octet>, c: Command, k: nat, ch: Chance): Option<Rewrite> {
    if IsReply(kind, c.word) && Copied(c, ch) then RewriteOf(mem, c, k, ch) else None
  }

  lemma MadeBySome(kind: Kind, mem: seq<octet>, c: Command, k: nat, ch: Chance)
    ensures forall r :: MadeBy(kind, mem, c, k, ch) == Some(r) <==>
              IsReply(kind, c.word) && Copied(c, ch) && RewriteOf(mem, c, k, ch) == Some(r)
  {
    hide RewriteOf, IsReply;
  }

  lemma ServedExtends(kind: Kind, w: World, c: Command, k: nat, ch: Chance)
    ensures var r := MadeBy(kind, w.mem, c, k, ch);
            Served(kind, w, c, k, ch).rewrites == Extended(w.rewrites, r) && (r.Some? ==> r.value.command == k)
  {
    hide VerdictOn, Applied, Counted, ReplySize, ReplyBuffer, Written, IsTransaction, IsReply;
    RepliesAreTransactions(kind, c.word);
  }

  lemma OneMore(rs: seq<Rewrite>, made: Option<Rewrite>, n: nat, k: nat, r: Rewrite)
    requires InOrder(rs, n) && k <= n && (made.Some? ==> made.value.command == n)
    ensures HasRewrite(Extended(rs, made), k, r) <==> if k < n then HasRewrite(rs, k, r) else made == Some(r)
  {
  }

  /** Exactly the due replies of a walk are rewritten, each in the memory it meets and with the captured id or,
      after a fault, as much of it as was copied; a copy that faults at once rewrites nothing. */
  lemma {:induction false} DueRepliesAreRewritten(kind: Kind, w: World, cs: seq<Command>, chances: nat -> Chance,
                                                  k: nat, r: Rewrite)
    requires w.rewrites == [] && k < |cs| && FairChance(chances(k)) && Published(chances(k).config)
    ensures var c, ch := cs[k], chances(k);
            var mem := Walked(kind, w, cs[..k], chances).mem;
            HasRewrite(Walked(kind, w, cs, chances).rewrites, k, r) <==>
              && IsReply(kind, c.word) && Copied(c, ch) && Due(mem, ReplySize(c), ReplyBuffer(c), ch)
              && ch.store != Torn(0)
              && r == Rewrite(k, ReplySize(c), ReplyBuffer(c),
                              if ch.store.Stored? then ch.config.virtualId[..ID_BYTES]
                              else ch.config.virtualId[..ch.store.written])
    decreases |cs|
  {
    hide Walked, HasRewrite, Judge, Due, Written, ReplySize, ReplyBuffer, IsReply;
    var n := |cs| - 1;
    LastRewrite(kind, w, cs, chances, k, r);
    if k < n {
      assert cs[..n][..k] == cs[..k];
      DueRepliesAreRewritten(kind, w, cs[..n], chances, k, r);
    } else if Copied(cs[k], chances(k)) {
      RewrittenExactlyWhen(Walked(kind, w, cs[..k], chances).mem, ReplySize(cs[k]), ReplyBuffer(cs[k]), chances(k));
    }
  }

  /** So a due reply whose copy works has the whole virtual id after the walk, unless a later rewrite of the
      stream overlaps it. */
  lemma NotOverwritten(kind: Kind, w: World, cs: seq<Command>, chances: nat -> Chance, k: nat)
    requires w.rewrites == [] && k < |cs| && Fair(chances) && Published(chances(k).config)
    requires IsReply(kind, cs[k].word) && Copied(cs[k], chances(k)) && chances(k).store.Stored?
    requires Due(Walked(kind, w, cs[..k], chances).mem, ReplySize(cs[k]), ReplyBuffer(cs[k]), chances(k))
    requires forall r :: r in Walked(kind, w, cs, chances).rewrites && r.command > k ==>
               r.buffer + ID_BYTES <= ReplyBuffer(cs[k]) || ReplyBuffer(cs[k]) + ID_BYTES <= r.buffer
    ensures var buffer := ReplyBuffer(cs[k]);
            && buffer + 8 + ID_BYTES <= |w.mem|
            && Walked(kind, w, cs, chances).mem[buffer + 8..buffer + 8 + ID_BYTES]
               == chances(k).config.virtualId[..ID_BYTES]
  {
    hide Walked, Due, Replay, ReplySize, ReplyBuffer, Correct, IsReply;
    var after := Walked(kind, w, cs, chances);
    var rs, id := after.rewrites, chances(k).config.virtualId[..ID_BYTES];
    var r := Rewrite(k, ReplySize(cs[k]), ReplyBuffer(cs[k]), id);
    assert FairChance(chances(k));
    DueRepliesAreRewritten(kind, w, cs, chances, k, r);
    RewritesInOrder(kind, w, cs, chances);
    TrailOfWalk(kind, w, cs, chances);
    DueFits(Walked(kind, w, cs[..k], chances).mem, r.size, r.buffer, chances(k));
    var i :| 0 <= i < |rs| && rs[i] == r;
    forall j | i < j < |rs| ensures |rs[j].bytes| <= ID_BYTES {
      assert Justified(w.mem, rs, j, cs, chances);
      CorrectIsShort(Replay(w.mem, rs[..j]), rs[j], Data(cs[rs[j].command]), chances(rs[j].command));
    }
    WindowContents(w.mem, rs, i);
  }

  /** The id of command k lies apart from the buffers that the replies behind it name. */
  predicate NamedOnce(kind: Kind, cs: seq<Command>, k: nat)
    requires k < |cs| && |cs[k].payload| >= TRANSACTION_BYTES
  {
    forall j :: k < j < |cs| && IsReply(kind, cs[j].word) && |cs[j].payload| >= TRANSACTION_BYTES ==>
      ReplyBuffer(cs[j]) + ID_BYTES <= ReplyBuffer(cs[k]) || ReplyBuffer(cs[k]) + ID_BYTES <= ReplyBuffer(cs[j])
  }

  /** A due reply whose copy works has the whole virtual id after the walk, when no later reply of the stream names
      an overlapping buffer. */
  lemma DueReplyHasTheId(kind: Kind, w: World, cs: seq<Command>, chances: nat -> Chance, k: nat)
    requires w.rewrites == [] && k < |cs| && Fair(chances) && Published(chances(k).config)
    requires IsReply(kind, cs[k].word) && Copied(cs[k], chances(k)) && chances(k).store.Stored?
    requires Due(Walked(kind, w, cs[..k], chances).mem, ReplySize(cs[k]), ReplyBuffer(cs[k]), chances(k))
    requires NamedOnce(kind, cs, k)
    ensures var buffer := ReplyBuffer(cs[k]);
            && buffer + 8 + ID_BYTES <= |w.mem|
            && Walked(kind, w, cs, chances).mem[buffer + 8..buffer + 8 + ID_BYTES]
               == chances(k).config.virtualId[..ID_BYTES]
  {
    hide Walked, Due, Replay, U64, U32, IsReply;
    var rs := Walked(kind, w, cs, chances).rewrites;
    TrailOfWalk(kind, w, cs, chances);
    forall r | r in rs && r.command > k
      ensures r.buffer + ID_BYTES <= ReplyBuffer(cs[k]) || ReplyBuffer(cs[k]) + ID_BYTES <= r.buffer
    {
      var i :| 0 <= i < |rs| && rs[i] == r;
      assert Justified(w.mem, rs, i, cs, chances);
      assert r.buffer == ReplyBuffer(cs[r.command]);
    }
    NotOverwritten(kind, w, cs, chances, k);
  }

  lemma DueFits(mem: seq<octet>, size: nat, buffer: nat, ch: Chance)
    ensures Due(mem, size, buffer, ch) ==> buffer + 8 + ID_BYTES <= |mem|
  {
  }

  lemma CorrectIsShort(mem: seq<octet>, r: Rewrite, data: seq<octet>, ch: Chance)
    requires Correct(mem, r, data, ch)
    ensures |r.bytes| <= ID_BYTES
  {
  }

  /** After a walk a byte of user memory outside every window of a rewritten reply is what it was. */
  lemma WalkFrame(kind: Kind, start: seq<octet>, mem: seq<octet>, rs: seq<Rewrite>, cs: seq<Command>,
                  chances: nat -> Chance, at: nat)
    requires Trail(kind, start, mem, rs, cs, chances) && at < |start|
    requires forall r :: r in rs ==> !InWindow(r, at)
    ensures mem[at] == start[at]
  {
    hide Replay;
    forall r | r in rs ensures |r.bytes| <= ID_BYTES {
      var i :| 0 <= i < |rs| && rs[i] == r;
      assert Justified(start, rs, i, cs, chances);
    }
    OutsideWindows(start, rs, at);
  }
}
