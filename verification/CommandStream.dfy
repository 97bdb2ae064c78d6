/** The Binder command stream walked in user memory: the loop of the hook over command words, with the counters it
    raises, the transaction data it copies and the replies it answers. The loop is proved to do exactly what
    `ReplyRewrite.Walked` says for the commands it dispatches, and to dispatch what `StreamWalker.Frame` reads. */
module CommandStream {
  import opened Numbers
  import opened Wrappers
  import opened UserBytes
  import opened StreamWalker
  import opened ReplyRewrite

  /** A copy from the stream: address and length. */
  datatype Span = Span(at: nat, length: nat)

  predicate Inside(s: Span, lo: nat, hi: nat) {
    lo <= s.at && s.at + s.length <= hi
  }

  datatype Head = Bad | Unreadable | Word(word: Opcode)

  function HeadOf(kind: Kind, mem: seq<octet>, at: nat, remaining: nat, fault: bool): Head
    requires at + remaining <= |mem|
  {
    if remaining < 4 then Bad
    else if fault then Unreadable
    else if TypeOf(OpcodeAt(mem, at)) != TypeCode(kind) || 4 + SizeOf(OpcodeAt(mem, at)) > remaining then Bad
    else Word(OpcodeAt(mem, at))
  }

  /** A finished walk has read what the framing reads; one stopped by a copy fault has read part of it. */
  ghost predicate Reads(f: Framing, cs: seq<Command>, stop: Stop) {
    match stop
    case Finished(end) => f == Framing(cs, end)
    case Fault => IsPrefix(cs, f.commands)
  }

  // ---- The walk, as a relation ----

  /** User memory once some commands have been dispatched. */
  function MemAfter(kind: Kind, start: World, cs: seq<Command>, chances: nat -> Chance): (mem: seq<octet>)
    ensures |mem| == |start.mem|
  {
    Walked(kind, start, cs, chances).mem
  }

  /** Command i was read where the ones before it end, in the memory they left. */
  ghost predicate ReadAt(kind: Kind, start: World, base: nat, n: nat, cs: seq<Command>, i: nat, chances: nat -> Chance)
    requires i < |cs| && base + n <= |start.mem|
  {
    && Extent(cs[..i]) <= n && Legal(kind, cs[i]) && !chances(i).headerFault
    && BeginsWith(MemAfter(kind, start, cs[..i], chances)[base + Extent(cs[..i])..base + n], cs[i])
  }

  ghost predicate Path(kind: Kind, start: World, base: nat, n: nat, cs: seq<Command>, chances: nat -> Chance)
    requires base + n <= |start.mem|
  {
    forall i: nat :: i < |cs| ==> ReadAt(kind, start, base, n, cs, i, chances)
  }

  /** Why the walk stops behind the commands dispatched: at the end of the stream, at the cap, at bytes that begin
      no command, or at a word whose copy faults. */
  ghost predicate StopsAt(kind: Kind, start: World, base: nat, n: nat, cs: seq<Command>, chances: nat -> Chance,
                          stop: Stop)
    requires base + n <= |start.mem|
  {
    var k := |cs|;
    && k <= MAX_COMMANDS && Extent(cs) <= n
    && var at, left := base + Extent(cs), n - Extent(cs);
    match stop
    case Finished(Complete) => left == 0
    case Finished(Capped) => left > 0 && k == MAX_COMMANDS
    case Finished(Boundary) =>
      && left > 0 && k < MAX_COMMANDS
      && HeadOf(kind, MemAfter(kind, start, cs, chances), at, left, chances(k).headerFault) == Bad
    case Fault => left >= 4 && k < MAX_COMMANDS && chances(k).headerFault
  }

  // ---- When the walk reads the framing ----

  /** When the walk comes to framed command k it still finds it; and behind the last one, where the framing ends at
      bytes that begin no command, it finds none. */
  ghost predicate Intact(kind: Kind, start: World, base: nat, n: nat, k: nat, chances: nat -> Chance)
    requires base + n <= |start.mem|
  {
    var f := Frame(kind, start.mem[base..base + n], MAX_COMMANDS);
    && k <= |f.commands| && Extent(f.commands[..k]) <= n
    && var at, left := base + Extent(f.commands[..k]), n - Extent(f.commands[..k]);
       var mem := MemAfter(kind, start, f.commands[..k], chances);
    if k < |f.commands| then BeginsWith(mem[at..base + n], f.commands[k])
    else f.end.Boundary? ==> HeadOf(kind, mem, at, left, false) == Bad
  }

  ghost predicate NoFaultTo(chances: nat -> Chance, k: nat) {
    forall j: nat :: j <= k ==> !chances(j).headerFault
  }

  /** No reply of the stream rewrites what the walk has still to read. A condition on memory and chances: it asks
      what dispatching the framed commands does to memory. */
  ghost predicate StaysIntact(kind: Kind, start: World, base: nat, n: nat, chances: nat -> Chance)
    requires base + n <= |start.mem|
  {
    var f := Frame(kind, start.mem[base..base + n], MAX_COMMANDS);
    forall k: nat :: k <= |f.commands| && NoFaultTo(chances, k) ==> Intact(kind, start, base, n, k, chances)
  }

  /** Two legal commands at the head of the same bytes are the same. */
  lemma SameHead(kind: Kind, s: seq<octet>, c: Command, d: Command)
    requires Legal(kind, c) && Legal(kind, d) && BeginsWith(s, c) && BeginsWith(s, d)
    ensures c == d
  {
    hide BytesOf, OpcodeAt, TypeOf, SizeOf, TypeCode;
    assert s[0..4] == s[..4];
    OpcodeRoundTrip(c.word, s, 0);
    OpcodeRoundTrip(d.word, s, 0);
  }

  /** What a legal command is to the hook, once its word has been copied. */
  lemma HeadOfCommand(kind: Kind, mem: seq<octet>, at: nat, left: nat, c: Command, fault: bool)
    requires at + left <= |mem| && Legal(kind, c) && BeginsWith(mem[at..at + left], c)
    ensures HeadOf(kind, mem, at, left, fault) == if fault then Unreadable else Word(c.word)
  {
    hide BytesOf, OpcodeAt, TypeOf, SizeOf, TypeCode;
    var s := mem[at..at + left];
    assert mem[at..at + 4] == s[..4];
    OpcodeRoundTrip(c.word, mem, at);
  }

  /** As long as the stream stays intact the commands dispatched are the framed ones. */
  lemma {:induction false} IntactPrefix(kind: Kind, start: World, base: nat, n: nat, cs: seq<Command>, i: nat,
                                        chances: nat -> Chance)
    requires base + n <= |start.mem| && Path(kind, start, base, n, cs, chances) && |cs| <= MAX_COMMANDS
    requires StaysIntact(kind, start, base, n, chances) && i <= |cs|
    ensures var f := Frame(kind, start.mem[base..base + n], MAX_COMMANDS);
            i <= |f.commands| && cs[..i] == f.commands[..i]
  {
    hide Frame, HeadOf, Legal, BeginsWith, MemAfter, Extent;
    if i > 0 {
      var k := i - 1;
      IntactPrefix(kind, start, base, n, cs, k, chances);
      var s := start.mem[base..base + n];
      var f := Frame(kind, s, MAX_COMMANDS);
      forall j: nat | j <= k ensures !chances(j).headerFault { assert ReadAt(kind, start, base, n, cs, j, chances); }
      assert NoFaultTo(chances, k);
      assert Intact(kind, start, base, n, k, chances);
      assert ReadAt(kind, start, base, n, cs, k, chances);
      FrameStops(kind, s, MAX_COMMANDS, k);
      var mem := MemAfter(kind, start, cs[..k], chances);
      var at := base + Extent(cs[..k]);
      if k < |f.commands| {
        SameHead(kind, mem[at..base + n], cs[k], f.commands[k]);
      } else {
        assert f.commands[..k] == f.commands;
        BeginsLong(mem[at..base + n], cs[k]);
        HeadOfCommand(kind, mem, at, n - Extent(cs[..k]), cs[k], false);
      }
    }
  }

  lemma ReadsIfIntact(kind: Kind, start: World, base: nat, n: nat, cs: seq<Command>, chances: nat -> Chance, stop: Stop)
    requires base + n <= |start.mem| && Path(kind, start, base, n, cs, chances)
    requires StopsAt(kind, start, base, n, cs, chances, stop) && StaysIntact(kind, start, base, n, chances)
    ensures Reads(Frame(kind, start.mem[base..base + n], MAX_COMMANDS), cs, stop)
  {
    hide Frame, HeadOf, Legal, BeginsWith, MemAfter, Extent;
    var s := start.mem[base..base + n];
    var f, k := Frame(kind, s, MAX_COMMANDS), |cs|;
    IntactPrefix(kind, start, base, n, cs, k, chances);
    FrameStops(kind, s, MAX_COMMANDS, k);
    assert cs[..k] == cs && f.commands[..k] == cs;
    var at, left := base + Extent(cs), n - Extent(cs);
    if k < |f.commands| {
      BeginsLong(s[Extent(cs)..], f.commands[k]);
      if stop == Finished(Boundary) {
        BadIsNoFault(kind, MemAfter(kind, start, cs, chances), at, left, chances(k).headerFault);
        forall j: nat | j < k ensures !chances(j).headerFault {
          assert ReadAt(kind, start, base, n, cs, j, chances);
        }
        assert NoFaultTo(chances, k);
        assert Intact(kind, start, base, n, k, chances);
        HeadOfCommand(kind, MemAfter(kind, start, cs, chances), at, left, f.commands[k], chances(k).headerFault);
      }
    } else {
      assert f.commands == cs;
    }
  }

  lemma BadIsNoFault(kind: Kind, mem: seq<octet>, at: nat, left: nat, fault: bool)
    requires at + left <= |mem| && HeadOf(kind, mem, at, left, fault) == Bad
    ensures left >= 4 ==> !fault
    ensures HeadOf(kind, mem, at, left, false) == Bad
  {
  }

  lemma IntactIfReads(kind: Kind, start: World, base: nat, n: nat, cs: seq<Command>, chances: nat -> Chance, stop: Stop)
    requires base + n <= |start.mem| && Path(kind, start, base, n, cs, chances)
    requires StopsAt(kind, start, base, n, cs, chances, stop)
    requires Reads(Frame(kind, start.mem[base..base + n], MAX_COMMANDS), cs, stop)
    ensures StaysIntact(kind, start, base, n, chances)
  {
    hide Frame, HeadOf, Legal, BeginsWith, MemAfter, Extent;
    var f := Frame(kind, start.mem[base..base + n], MAX_COMMANDS);
    forall k: nat | k <= |f.commands| && NoFaultTo(chances, k) ensures Intact(kind, start, base, n, k, chances) {
      if k < |cs| {
        assert ReadAt(kind, start, base, n, cs, k, chances);
        assert f.commands[..k] == cs[..k];
      } else {
        assert !stop.Fault?;
        assert f.commands[..k] == cs;
        if f.end.Boundary? {
          BadIsNoFault(kind, MemAfter(kind, start, cs, chances), base + Extent(cs), n - Extent(cs),
                       chances(k).headerFault);
        }
      }
    }
  }

  // ---- When it stays intact ----

  /** No rewrite touches the bytes from lo to hi. */
  ghost predicate Apart(rs: seq<Rewrite>, lo: nat, hi: nat) {
    forall r :: r in rs ==> r.buffer + 8 + |r.bytes| <= lo || hi <= r.buffer + 8
  }

  /** No reply among some commands names a buffer whose id bytes lie in lo to hi. */
  predicate RepliesElsewhere(kind: Kind, cs: seq<Command>, lo: nat, hi: nat) {
    forall k :: 0 <= k < |cs| && IsReply(kind, cs[k].word) && |cs[k].payload| >= TRANSACTION_BYTES ==>
      ReplyBuffer(cs[k]) + 8 + ID_BYTES <= lo || hi <= ReplyBuffer(cs[k]) + 8
  }

  lemma OverwriteApart(mem: seq<octet>, at: nat, bytes: seq<octet>, lo: nat, hi: nat)
    requires at + |bytes| <= |mem| && lo <= hi <= |mem| && (at + |bytes| <= lo || hi <= at)
    ensures Overwrite(mem, at, bytes)[lo..hi] == mem[lo..hi]
  {
  }

  lemma ApplyApart(mem: seq<octet>, r: Rewrite, lo: nat, hi: nat)
    requires lo <= hi <= |mem| && Apart([r], lo, hi)
    ensures Apply(mem, r)[lo..hi] == mem[lo..hi]
  {
    hide Overwrite;
    assert r in [r];
    if r.buffer + 8 + |r.bytes| <= |mem| { OverwriteApart(mem, r.buffer + 8, r.bytes, lo, hi); }
  }

  lemma ApartLast(rs: seq<Rewrite>, r: Rewrite, lo: nat, hi: nat)
    requires Apart(rs + [r], lo, hi)
    ensures Apart(rs, lo, hi) && Apart([r], lo, hi)
  {
    forall x | x in [r] ensures x.buffer + 8 + |x.bytes| <= lo || hi <= x.buffer + 8 { assert x in rs + [r]; }
  }

  /** Commands whose rewrites are elsewhere leave the bytes as they were, and so do the first k of them. */
  lemma {:induction false} ApartLeaves(kind: Kind, start: World, cs: seq<Command>, k: nat, chances: nat -> Chance,
                                       lo: nat, hi: nat)
    requires k <= |cs| && lo <= hi <= |start.mem| && Apart(Walked(kind, start, cs, chances).rewrites, lo, hi)
    ensures MemAfter(kind, start, cs[..k], chances)[lo..hi] == start.mem[lo..hi]
    decreases |cs|
  {
    hide Served, Apart, Apply;
    if cs != [] {
      var n := |cs| - 1;
      var before := Walked(kind, start, cs[..n], chances);
      var after := Walked(kind, start, cs, chances);
      ServedRewrites(kind, before, cs[n], n, chances(n));
      if after.rewrites != before.rewrites {
        ApartLast(before.rewrites, after.rewrites[|before.rewrites|], lo, hi);
        ApplyApart(before.mem, after.rewrites[|before.rewrites|], lo, hi);
      }
      ApartLeaves(kind, start, cs[..n], n, chances, lo, hi);
      assert cs[..n][..n] == cs[..n] && cs[..n + 1] == cs;
      if k < n {
        ApartLeaves(kind, start, cs[..n], k, chances, lo, hi);
        assert cs[..n][..k] == cs[..k];
      }
    }
  }

  /** When dispatching the framed commands would rewrite nothing of the stream, it stays intact. */
  lemma ApartStaysIntact(kind: Kind, start: World, base: nat, n: nat, chances: nat -> Chance)
    requires base + n <= |start.mem|
    requires var cs := Frame(kind, start.mem[base..base + n], MAX_COMMANDS).commands;
             Apart(Walked(kind, start, cs, chances).rewrites, base, base + n)
    ensures StaysIntact(kind, start, base, n, chances)
  {
    hide Frame, MemAfter, Apart, Intact;
    var f := Frame(kind, start.mem[base..base + n], MAX_COMMANDS);
    forall k: nat | k <= |f.commands| && NoFaultTo(chances, k) ensures Intact(kind, start, base, n, k, chances) {
      ApartLeaves(kind, start, f.commands, k, chances, base, base + n);
      SameIsIntact(kind, start, base, n, k, chances);
    }
  }

  lemma SameIsIntact(kind: Kind, start: World, base: nat, n: nat, k: nat, chances: nat -> Chance)
    requires base + n <= |start.mem|
    requires var cs := Frame(kind, start.mem[base..base + n], MAX_COMMANDS).commands;
             k <= |cs| && MemAfter(kind, start, cs[..k], chances)[base..base + n] == start.mem[base..base + n]
    ensures Intact(kind, start, base, n, k, chances)
  {
    hide Frame, HeadOf, Legal, BeginsWith, BeginsCommand, MemAfter, Extent;
    var s := start.mem[base..base + n];
    var f := Frame(kind, s, MAX_COMMANDS);
    var mem, from := MemAfter(kind, start, f.commands[..k], chances), Extent(f.commands[..k]);
    FrameStops(kind, s, MAX_COMMANDS, k);
    Within(mem, base, n, from, n);
    assert s[from..n] == s[from..];
    if k == |f.commands| && f.end.Boundary? {
      assert f.commands[..k] == f.commands;
      NoCommandIsBad(kind, mem, base + from, n - from);
    }
  }

  lemma NoCommandIsBad(kind: Kind, mem: seq<octet>, at: nat, left: nat)
    requires at + left <= |mem| && !BeginsCommand(kind, mem[at..at + left])
    ensures HeadOf(kind, mem, at, left, false) == Bad
  {
  }

  lemma SameWord(mem: seq<octet>, at: nat, s: seq<octet>)
    requires at + |s| <= |mem| && s == mem[at..at + |s|] && |s| >= 4
    ensures U32(s, 0) == U32(mem, at)
  {
    assert s[0] == mem[at] && s[1] == mem[at + 1] && s[2] == mem[at + 2] && s[3] == mem[at + 3];
  }

  /** In particular when no framed reply names a buffer in the stream. */
  lemma ElsewhereStaysIntact(kind: Kind, start: World, base: nat, n: nat, chances: nat -> Chance)
    requires base + n <= |start.mem| && start.rewrites == [] && Fair(chances)
    requires RepliesElsewhere(kind, Frame(kind, start.mem[base..base + n], MAX_COMMANDS).commands, base, base + n)
    ensures StaysIntact(kind, start, base, n, chances)
  {
    hide Frame, Walked, StaysIntact, Replay, IsReply, U64, U32;
    var cs := Frame(kind, start.mem[base..base + n], MAX_COMMANDS).commands;
    var rs := Walked(kind, start, cs, chances).rewrites;
    TrailOfWalk(kind, start, cs, chances);
    forall r | r in rs ensures r.buffer + 8 + |r.bytes| <= base || base + n <= r.buffer + 8 {
      var i :| 0 <= i < |rs| && rs[i] == r;
      assert Justified(start.mem, rs, i, cs, chances);
    }
    ApartStaysIntact(kind, start, base, n, chances);
  }

  // ---- When it does not ----

  function ZeroOctets(n: nat): (z: seq<octet>)
    ensures |z| == n
  {
    seq(n, _ => 0)
  }

  /** The transaction data of a reply of 40 bytes, its buffer address given by four bytes. Its last two words, for a
      reply their offsets, are a status of 0 and a length of 32 to one who reads them as a reply. */
  function OwnReply(address: seq<octet>): (data: seq<octet>)
    requires |address| == 4
    ensures |data| == TRANSACTION_BYTES
  {
    ZeroOctets(32) + Small(40) + Small(0) + ZeroOctets(8) + address + Small(0) + Small(0) + Small(ID_BYTES)
  }

  function Small(n: octet): (b: seq<octet>)
    ensures |b| == 4
  {
    [n, 0, 0, 0]
  }

  lemma SmallWord(n: octet)
    ensures U32(Small(n), 0) == n
  {
  }

  const NEXT_WORD := Opcode(0x05, 0x63, 0x1c, 0x00)

  /** Such a reply, and a legal command that takes up the 32 bytes behind it. */
  function OwnStream(address: seq<octet>): seq<Command>
    requires |address| == 4
  {
    [Command(BC_REPLY, OwnReply(address)), Command(NEXT_WORD, ZeroOctets(28))]
  }

  lemma OwnFields(address: seq<octet>)
    requires |address| == 4
    ensures var data := OwnReply(address);
            && U64(data, 32) == 40 && U64(data, 48) == U32(address, 0)
            && U32(data, 56) == 0 && U32(data, 60) == ID_BYTES
  {
    hide U32, Small, ZeroOctets;
    var data := OwnReply(address);
    assert data[32..36] == Small(40) && data[36..40] == Small(0);
    assert data[48..52] == address && data[52..56] == Small(0);
    assert data[56..60] == Small(0) && data[60..64] == Small(ID_BYTES);
    SmallWord(40);
    SmallWord(0);
    SmallWord(ID_BYTES);
    SameWord(data, 32, Small(40));
    SameWord(data, 36, Small(0));
    SameWord(data, 48, address);
    SameWord(data, 52, Small(0));
    SameWord(data, 56, Small(0));
    SameWord(data, 60, Small(ID_BYTES));
  }

  /** A chance under which a reply is rewritten if its bytes allow it. */
  predicate Willing(ch: Chance) {
    && FairChance(ch) && Published(ch.config) && !ch.headerFault && !ch.metadataFault
    && ch.eventId != 0 && ch.parcelFlags % 2 == 1 && ch.config.write
    && !ch.prefixFault && !ch.contentFault && ch.store.Stored?
  }

  lemma OwnRewrite(w: World, at: nat, address: seq<octet>, ch: Chance)
    requires |address| == 4 && U32(address, 0) == at + 60 && 0 < at && at + 100 <= |w.mem| && Willing(ch)
    requires w.mem[at + 4..at + 68] == OwnReply(address)
    ensures var after := Served(Towards, w, OwnStream(address)[0], 0, ch).mem;
            after[at + 68..at + 100] == ch.config.virtualId[..ID_BYTES]
  {
    hide U32, OwnReply, Counted;
    var data := OwnReply(address);
    OwnFields(address);
    assert data[..TRANSACTION_BYTES] == data;
    Within(w.mem, at + 4, 64, 56, 60);
    Within(w.mem, at + 4, 64, 60, 64);
    SameWord(w.mem, at + 60, w.mem[at + 60..at + 64]);
    SameWord(w.mem, at + 64, w.mem[at + 64..at + 68]);
    SameWord(data, 56, data[56..60]);
    SameWord(data, 60, data[60..64]);
  }

  /** The promise fails: wherever this stream stands, a walk that meets it in write mode with an id whose second
      byte is no stream type rewrites its second command, and reads less than its framing. */
  lemma OwnStreamIsRewritten(start: World, at: nat, address: seq<octet>, chances: nat -> Chance)
    requires |address| == 4 && U32(address, 0) == at + 60 && 0 < at && at + 100 <= |start.mem|
    requires start.mem[at..at + 100] == Serialise(OwnStream(address))
    requires Willing(chances(0)) && chances(0).config.virtualId[1] != TypeCode(Towards) && !chances(1).headerFault
    ensures Frame(Towards, start.mem[at..at + 100], MAX_COMMANDS) == Framing(OwnStream(address), Complete)
    ensures !StaysIntact(Towards, start, at, 100, chances)
  {
    hide Frame, Served, OwnReply;
    var cs := OwnStream(address);
    OwnIsLegal(address);
    FrameInvertsSerialise(Towards, cs, MAX_COMMANDS);
    OwnBytes(start.mem, at, address);
    OwnRewrite(start, at, address, chances(0));
    NothingWalked(Towards, start, chances);
    assert cs[..1] == [cs[0]] && cs[..1][..0] == [];
    ExtentOn([], cs[0]);
    assert [] + [cs[0]] == [cs[0]];
    var after := MemAfter(Towards, start, cs[..1], chances);
    assert after == Served(Towards, start, cs[0], 0, chances(0)).mem;
    assert NoFaultTo(chances, 1);
    assert !BeginsWith(after[at + 68..at + 100], cs[1]) by { assert after[at + 68..at + 100][1] != 99; }
  }

  lemma OwnIsLegal(address: seq<octet>)
    requires |address| == 4
    ensures AllLegal(Towards, OwnStream(address))
  {
    hide OwnReply;
  }

  lemma OwnBytes(mem: seq<octet>, at: nat, address: seq<octet>)
    requires |address| == 4 && at + 100 <= |mem| && mem[at..at + 100] == Serialise(OwnStream(address))
    ensures mem[at + 4..at + 68] == OwnReply(address)
  {
    hide OwnReply;
    var cs := OwnStream(address);
    assert Serialise(cs) == BytesOf(BC_REPLY) + OwnReply(address) + Serialise(cs[1..]);
    Within(mem, at, 100, 4, 68);
  }

  // ---- The loop ----

  /** The world at the end of a walk. */
  function Ended(w: World, stop: Stop): World { w.(counters := Stopped(w.counters, stop)) }

  /** What a walk has produced besides: the commands it dispatched and the copies it made. */
  datatype Walk = Walk(dispatched: seq<Command>, copies: seq<Span>)

  /** A walk of the n bytes at `base`, up to `at`, from one world to another. */
  ghost predicate WalkOk(kind: Kind, start: World, now: World, base: nat, n: nat, at: nat, w: Walk,
                         chances: nat -> Chance, stop: Stop)
  {
    && base + n <= |start.mem|
    && (forall r :: r in w.copies ==> Inside(r, base, base + n))
    && AllLegal(kind, w.dispatched) && |w.dispatched| <= MAX_COMMANDS
    && now == Ended(Walked(kind, start, w.dispatched, chances), stop)
    && at == base + Extent(w.dispatched) <= base + n
    && Path(kind, start, base, n, w.dispatched, chances)
    && (stop != Finished(Complete) ==> StopsAt(kind, start, base, n, w.dispatched, chances, stop))
  }

  lemma WalkStarts(kind: Kind, start: World, base: nat, n: nat, chances: nat -> Chance)
    requires base + n <= |start.mem|
    ensures WalkOk(kind, start, start, base, n, base, Walk([], []), chances, Finished(Complete))
  {
  }

  /** The walk stops: at the cap, at bytes that begin no command, or at a fault. */
  lemma WalkStops(kind: Kind, start: World, now: World, base: nat, n: nat, at: nat, w: Walk, chances: nat -> Chance,
                  stop: Stop, copies: seq<Span>)
    requires WalkOk(kind, start, now, base, n, at, w, chances, Finished(Complete))
    requires base <= at < base + n <= |now.mem|
    requires copies == [] || (at + 4 <= base + n && copies == [Span(at, 4)])
    requires var k := |w.dispatched|;
             var fault := chances(k).headerFault;
             match stop
             case Finished(Capped) => k >= MAX_COMMANDS
             case Finished(Boundary) => k < MAX_COMMANDS && HeadOf(kind, now.mem, at, base + n - at, fault) == Bad
             case Fault => k < MAX_COMMANDS && fault && base + n - at >= 4
             case _ => false
    ensures WalkOk(kind, start, Ended(now, stop), base, n, at, w.(copies := w.copies + copies), chances, stop)
  {
    hide Path, Walked, HeadOf, AllLegal, Extent;
  }

  /** The walk passes a command. */
  lemma WalkGoesOn(kind: Kind, start: World, now: World, base: nat, n: nat, at: nat, w: Walk, chances: nat -> Chance,
                   c: Command, copies: seq<Span>)
    requires WalkOk(kind, start, now, base, n, at, w, chances, Finished(Complete))
    requires base <= at && at + 4 + SizeOf(c.word) <= base + n <= |now.mem| && |w.dispatched| < MAX_COMMANDS
    requires HeadOf(kind, now.mem, at, base + n - at, chances(|w.dispatched|).headerFault) == Word(c.word)
    requires Legal(kind, c) && c.payload == now.mem[at + 4..at + 4 + SizeOf(c.word)]
    requires forall r :: r in copies ==> Inside(r, at, at + 4 + SizeOf(c.word))
    ensures WalkOk(kind, start, Served(kind, now, c, |w.dispatched|, chances(|w.dispatched|)), base, n,
                   at + 4 + SizeOf(c.word), Walk(w.dispatched + [c], w.copies + copies), chances, Finished(Complete))
  {
    hide Served, HeadOf, SizeOf, Walked, ReadAt, Extent, TypeOf, TypeCode;
    WalkedOn(kind, start, w.dispatched, c, chances);
    ExtentOn(w.dispatched, c);
    WordBegins(kind, now.mem, at, base + n - at, c, chances(|w.dispatched|).headerFault);
    PathOn(kind, start, base, n, w.dispatched, c, chances);
  }

  lemma ExtentOn(cs: seq<Command>, c: Command)
    ensures Extent(cs + [c]) == Extent(cs) + 4 + |c.payload|
  {
    assert (cs + [c])[..|cs|] == cs;
  }

  lemma Within(mem: seq<octet>, at: nat, n: nat, lo: nat, hi: nat)
    requires at + n <= |mem| && lo <= hi <= n
    ensures mem[at..at + n][lo..hi] == mem[at + lo..at + hi]
  {
    var a, b := mem[at..at + n][lo..hi], mem[at + lo..at + hi];
    assert |a| == |b| && forall i :: 0 <= i < |a| ==> a[i] == b[i];
  }

  /** A good word and the payload behind it are a command at the head of the bytes. */
  lemma WordBegins(kind: Kind, mem: seq<octet>, at: nat, left: nat, c: Command, fault: bool)
    requires at + left <= |mem| && Legal(kind, c) && 4 + |c.payload| <= left
    requires HeadOf(kind, mem, at, left, fault) == Word(c.word) && c.payload == mem[at + 4..at + 4 + |c.payload|]
    ensures !fault && BeginsWith(mem[at..at + left], c)
  {
    hide BytesOf, OpcodeAt, TypeOf, SizeOf, TypeCode;
    var s := mem[at..at + left];
    BytesOfOpcode(mem, at);
    Within(mem, at, left, 0, 4);
    Within(mem, at, left, 4, 4 + |c.payload|);
    assert s[..4] == s[0..4];
  }

  lemma PathOn(kind: Kind, start: World, base: nat, n: nat, cs: seq<Command>, c: Command, chances: nat -> Chance)
    requires base + n <= |start.mem| && Path(kind, start, base, n, cs, chances)
    requires Extent(cs) <= n && Legal(kind, c) && !chances(|cs|).headerFault
    requires BeginsWith(MemAfter(kind, start, cs, chances)[base + Extent(cs)..base + n], c)
    ensures Path(kind, start, base, n, cs + [c], chances)
  {
    hide MemAfter, Legal, BeginsWith, Extent;
    forall i: nat | i < |cs + [c]| ensures ReadAt(kind, start, base, n, cs + [c], i, chances) {
      if i < |cs| {
        assert ReadAt(kind, start, base, n, cs, i, chances);
        assert (cs + [c])[..i] == cs[..i];
      } else {
        assert (cs + [c])[..i] == cs;
      }
    }
  }

  /** A walk that is over has read what the framing reads if and only if the stream stays intact. */
  lemma WalkEnds(kind: Kind, start: World, now: World, base: nat, n: nat, at: nat, w: Walk, chances: nat -> Chance,
                 stop: Stop)
    requires WalkOk(kind, start, now, base, n, at, w, chances, stop)
    requires stop == Finished(Complete) ==> at == base + n
    ensures Reads(Frame(kind, start.mem[base..base + n], MAX_COMMANDS), w.dispatched, stop)
            <==> StaysIntact(kind, start, base, n, chances)
  {
    hide Frame, Path, Walked, Extent, HeadOf, StaysIntact, Reads;
    if StaysIntact(kind, start, base, n, chances) {
      ReadsIfIntact(kind, start, base, n, w.dispatched, chances, stop);
    }
    if Reads(Frame(kind, start.mem[base..base + n], MAX_COMMANDS), w.dispatched, stop) {
      IntactIfReads(kind, start, base, n, w.dispatched, chances, stop);
    }
  }

  lemma NothingWalked(kind: Kind, w: World, chances: nat -> Chance)
    ensures Walked(kind, w, [], chances) == w
  {
  }

  lemma OverwriteNothing(mem: seq<octet>, at: nat)
    requires at <= |mem|
    ensures Overwrite(mem, at, []) == mem
  {
  }

  /** The parser of one stream direction, with the user memory it works on. */
  class StreamParser {
    const kind: Kind
    const memory: array<octet>
    var counters: StreamCounters
    var replies: ReplyCounters

    constructor (kind: Kind, memory: array<octet>)
      ensures this.kind == kind && this.memory == memory
    {
      this.kind := kind;
      this.memory := memory;
      counters := StreamCounters(0, 0, 0, 0, 0, 0, 0, 0);
      replies := ReplyCounters(0, 0, 0, 0, 0, 0, 0, 0, 0, 0, 0, 0, 0, 0, 0, 0);
    }

    /** The world of a walk that has done some rewrites. */
    ghost function View(rewrites: seq<Rewrite>): World
      reads this, memory
    {
      World(memory[..], counters, replies, rewrites)
    }

    /** The guards of a correlated reply: the header is copied and its status and length checked, and the
        content is proved readable. None when all of them pass. */
    method GuardReply(size: nat, buffer: nat, ch: Chance) returns (failed: Option<Verdict>)
      requires ch.eventId != 0 && ch.parcelFlags % 2 == 1
      modifies this`replies
      ensures var v := Judge(memory[..], size, buffer, ch);
              if failed.Some? then failed.value == v && Rejected(v) && replies == Counted(old(replies), v, size)
              else !Rejected(v) && buffer + 8 + ID_BYTES <= memory.Length && replies == Accepted(old(replies))
    {
      hide U32;
      ghost var mem := memory[..];
      replies := replies.(candidates := replies.candidates + 1, correlated := replies.correlated + 1);
      if size < 8 {
        replies := replies.(arrayInvalid := replies.arrayInvalid + 1);
        return Some(ArrayInvalid);
      }
      if buffer == 0 || ch.prefixFault || buffer + 8 > memory.Length {
        replies := replies.(headerFaults := replies.headerFaults + 1);
        return Some(HeaderFault);
      }
      var header := memory[buffer..buffer + 8];
      SameWord(mem, buffer, header);
      SameWord(mem, buffer + 4, header[4..]);
      SameWord(header, 4, header[4..]);
      replies := replies.(headerOk := replies.headerOk + 1);
      if U32(header, 0) != 0 {
        replies := replies.(statusNonzero := replies.statusNonzero + 1);
        return Some(StatusNonzero);
      }
      replies := replies.(statusOk := replies.statusOk + 1);
      if U32(header, 4) != ID_BYTES || 8 + ID_BYTES > size {
        replies := replies.(arrayInvalid := replies.arrayInvalid + 1);
        return Some(ArrayInvalid);
      }
      replies := replies.(arrayValid := replies.arrayValid + 1);
      if ch.contentFault || buffer + 8 + ID_BYTES > memory.Length {
        replies := replies.(contentFaults := replies.contentFaults + 1);
        return Some(ContentFault);
      }
      replies := replies.(contentOk := replies.contentOk + 1, replacements := replies.replacements + 1);
      return None;
    }

    /** A correlated reply: once the guards pass, in write mode the 32 bytes behind the header are overwritten,
        completely or up to a fault. */
    method ParseReply(size: nat, buffer: nat, ch: Chance) returns (verdict: Verdict)
      requires FairChance(ch)
      modifies this`replies, memory
      ensures verdict == Judge(old(memory[..]), size, buffer, ch)
      ensures replies == Counted(old(replies), verdict, size)
      ensures |Written(ch, verdict)| > 0 ==> buffer + 8 + ID_BYTES <= memory.Length
      ensures |Written(ch, verdict)| <= ID_BYTES
      ensures memory[..] == if |Written(ch, verdict)| == 0 then old(memory[..])
                            else Overwrite(old(memory[..]), buffer + 8, Written(ch, verdict))
    {
      hide U32, Overwrite;
      ghost var before := memory[..];
      if ch.eventId == 0 {
        replies := replies.(withoutPending := replies.withoutPending + 1);
        return NoPending;
      }
      if ch.parcelFlags % 2 == 0 { return Untracked; }
      var failed := GuardReply(size, buffer, ch);
      if failed.Some? { return failed.value; }
      if ch.config.length != ID_BYTES {
        replies := replies.(lengthMismatch := replies.lengthMismatch + 1);
        return LengthMismatch;
      }
      if !ch.config.write {
        replies := replies.(dryRun := replies.dryRun + 1);
        return DryRun;
      }
      if ch.store.Torn? {
        CopyToUser(buffer + 8, ch.config.virtualId[..ch.store.written]);
        replies := replies.(writeFaults := replies.writeFaults + 1);
        OverwriteNothing(before, buffer + 8);
        return WriteFault(ch.store.written);
      }
      CopyToUser(buffer + 8, ch.config.virtualId[..ID_BYTES]);
      replies := replies.(writeOk := replies.writeOk + 1);
      return WriteOk;
    }

    method CopyToUser(at: nat, bytes: seq<octet>)
      requires at + |bytes| <= memory.Length
      modifies memory
      ensures memory[..] == Overwrite(old(memory[..]), at, bytes)
    {
      for k := 0 to |bytes|
        invariant forall i :: 0 <= i < k ==> memory[at + i] == bytes[i]
        invariant forall i :: 0 <= i < memory.Length && !(at <= i < at + k) ==> memory[i] == old(memory[i])
      {
        memory[at + k] := bytes[k];
      }
    }

    /** One copy from user memory: none when it faults or leaves readable memory. */
    method CopyFromUser(at: nat, n: nat, fault: bool) returns (bytes: Option<seq<octet>>)
      ensures bytes == if Copies(memory[..], at, n, fault) then Some(memory[at..at + n]) else None
    {
      if fault || at + n > memory.Length { return None; }
      return Some(memory[at..at + n]);
    }

    /** A transaction command, whose payload is at `at`: its data is copied, and the data of a reply is parsed. */
    method RecordTransaction(c: Command, at: nat, k: nat, ch: Chance, done: seq<Rewrite>)
      returns (rewrites: seq<Rewrite>)
      requires FairChance(ch) && |c.payload| >= TRANSACTION_BYTES && at + TRANSACTION_BYTES <= memory.Length
      requires memory[at..at + TRANSACTION_BYTES] == Data(c)
      modifies this`counters, this`replies, memory
      ensures View(rewrites) == Recorded(kind, old(View(done)), c, k, ch)
    {
      hide Judge, U64, Written, Overwrite, Counted, IsReply;
      rewrites := done;
      var data := CopyFromUser(at, TRANSACTION_BYTES, ch.metadataFault);
      if data.None? {
        counters := counters.(metadataFaults := counters.metadataFaults + 1);
        return;
      }
      counters := counters.(metadataOk := counters.metadataOk + 1);
      if IsReply(kind, c.word) {
        var size, buffer := U64(data.value, 32), U64(data.value, 48);
        var verdict := ParseReply(size, buffer, ch);
        var bytes := Written(ch, verdict);
        if bytes != [] { rewrites := done + [Rewrite(k, size, buffer, bytes)]; }
      }
    }

    /** The command word at an address: too short, unreadable, of another stream or too long for what is left,
        or good. */
    method ReadHead(at: nat, remaining: nat, fault: bool) returns (head: Head)
      requires at + remaining <= memory.Length
      ensures head == HeadOf(kind, memory[..], at, remaining, fault)
      ensures head.Word? ==> 4 + SizeOf(head.word) <= remaining && TypeOf(head.word) == TypeCode(kind)
      ensures head.Unreadable? ==> fault && remaining >= 4
    {
      if remaining < 4 { return Bad; }
      var bytes := CopyFromUser(at, 4, fault);
      if bytes.None? { return Unreadable; }
      var word := OpcodeAt(bytes.value, 0);
      if TypeOf(word) != TypeCode(kind) || 4 + SizeOf(word) > remaining { return Bad; }
      return Word(word);
    }

    /** A good command is counted, and recorded when it is a transaction. */
    method Dispatch(word: Opcode, at: nat, k: nat, ch: Chance, done: seq<Rewrite>)
      returns (command: Command, copies: seq<Span>, rewrites: seq<Rewrite>)
      requires FairChance(ch) && at + 4 + SizeOf(word) <= memory.Length
      requires TypeOf(word) == TypeCode(kind)
      modifies this`counters, this`replies, memory
      ensures command == Command(word, old(memory[at + 4..at + 4 + SizeOf(word)])) && Legal(kind, command)
      ensures forall r :: r in copies ==> Inside(r, at, at + 4 + SizeOf(word))
      ensures View(rewrites) == Served(kind, old(View(done)), command, k, ch)
    {
      hide Recorded, SizeOf, TypeOf, TypeCode, IsTransaction;
      command := Command(word, memory[at + 4..at + 4 + SizeOf(word)]);
      copies, rewrites := [], done;
      counters := counters.(commands := counters.commands + 1);
      if IsTransaction(kind, word) {
        TransactionsCarryData(kind, word);
        counters := counters.(transactions := counters.transactions + 1);
        copies := [Span(at + 4, TRANSACTION_BYTES)];
        assert memory[at + 4..at + 4 + TRANSACTION_BYTES] == Data(command);
        rewrites := RecordTransaction(command, at + 4, k, ch, done);
      }
    }

    /** Whether there is anything to walk: bytes, at an address, and not too many. */
    static predicate Walks(userBuffer: nat, consumed: nat) {
      userBuffer > 0 && 0 < consumed <= MAX_BYTES
    }

    function Entered(w: World): World { w.(counters := w.counters.(streams := w.counters.streams + 1)) }

    /** The walk over a stream. Memory, all counters and the rewrites become exactly what dispatching the commands
        makes of them. The array covers the addresses of the stream; an unmapped one is one whose copy faults. */
    method ParseCommandStream(userBuffer: nat, consumed: nat, chances: nat -> Chance)
      returns (dispatched: seq<Command>, copies: seq<Span>, rewrites: seq<Rewrite>, stop: Stop)
      requires Fair(chances)
      requires userBuffer + consumed <= memory.Length
      modifies this`counters, this`replies, memory
      ensures var start := old(View([]));
              View(rewrites) ==
                Ended(Walked(kind, if Walks(userBuffer, consumed) then Entered(start) else start, dispatched, chances),
                      stop)
      ensures (counters.boundaryErrors, counters.capped, counters.copyFaults) ==
                (old(counters.boundaryErrors) + One(stop == Finished(Boundary)),
                 old(counters.capped) + One(stop == Finished(Capped)),
                 old(counters.copyFaults) + One(stop == Fault))
      ensures counters.streams == old(counters.streams) + One(userBuffer > 0 && 0 < consumed <= 65536)
      ensures counters.commands == old(counters.commands) + |dispatched|
      ensures AllLegal(kind, dispatched) && |dispatched| <= 128
      ensures Trail(kind, old(memory[..]), memory[..], rewrites, dispatched, chances)
      ensures forall r :: r in copies ==> Inside(r, userBuffer, userBuffer + consumed)
      ensures consumed == 0 ==> dispatched == [] && stop == Finished(Complete)
      ensures consumed > 0 && userBuffer == 0 ==> dispatched == [] && stop == Fault
      ensures userBuffer > 0 && consumed > 65536 ==> dispatched == [] && stop == Finished(Capped)
      ensures userBuffer > 0 && 0 < consumed <= 65536 ==>
                var framing := Frame(kind, old(memory[userBuffer..userBuffer + consumed]), 128);
                && (Reads(framing, dispatched, stop)
                    <==> StaysIntact(kind, Entered(old(View([]))), userBuffer, consumed, chances))
                && (RepliesElsewhere(kind, framing.commands, userBuffer, userBuffer + consumed) ==>
                      Reads(framing, dispatched, stop))
      ensures userBuffer > 0 && (forall n: nat :: !chances(n).headerFault) ==> stop.Finished?
    {
      hide Frame, Walked, Trail, Reads, Fair, Path, StaysIntact, RepliesElsewhere, Extent, HeadOf;
      dispatched, copies, rewrites, stop := [], [], [], Finished(Complete);
      NothingWalked(kind, View([]), chances);
      TrailOfWalk(kind, View([]), [], chances);
      StreamCountersOf(kind, View([]), [], chances);
      if consumed == 0 { return; }
      if userBuffer == 0 {
        counters := counters.(copyFaults := counters.copyFaults + 1);
        stop := Fault;
        return;
      }
      if consumed > MAX_BYTES {
        counters := counters.(capped := counters.capped + 1);
        stop := Finished(Capped);
        return;
      }
      counters := counters.(streams := counters.streams + 1);
      ghost var start := View([]);
      var w, at;
      w, rewrites, at, stop := WalkCommands(userBuffer, consumed, chances);
      WalkEnds(kind, start, View(rewrites), userBuffer, consumed, at, w, chances, stop);
      dispatched, copies := w.dispatched, w.copies;
      TrailOfWalk(kind, start, dispatched, chances);
      StreamCountersOf(kind, start, dispatched, chances);
      if RepliesElsewhere(kind, Frame(kind, start.mem[userBuffer..userBuffer + consumed], MAX_COMMANDS).commands,
                          userBuffer, userBuffer + consumed) {
        ElsewhereStaysIntact(kind, start, userBuffer, consumed, chances);
      }
    }

    /** The loop of the walk. */
    method WalkCommands(userBuffer: nat, consumed: nat, chances: nat -> Chance)
      returns (w: Walk, rewrites: seq<Rewrite>, at: nat, stop: Stop)
      requires Fair(chances)
      requires userBuffer + consumed <= memory.Length
      modifies this`counters, this`replies, memory
      ensures WalkOk(kind, old(View([])), View(rewrites), userBuffer, consumed, at, w, chances, stop)
      ensures stop == Finished(Complete) ==> at == userBuffer + consumed
    {
      hide WalkOk, FairChance, HeadOf, Legal, Served, SizeOf, TypeOf, TypeCode, OpcodeAt;
      ghost var start := View([]);
      WalkStarts(kind, start, userBuffer, consumed, chances);
      w, rewrites, at, stop := Walk([], []), [], userBuffer, Finished(Complete);
      var remaining := consumed;
      while remaining > 0 && stop == Finished(Complete)
        invariant userBuffer <= at <= at + remaining == userBuffer + consumed
        invariant WalkOk(kind, start, View(rewrites), userBuffer, consumed, at, w, chances, stop)
        decreases remaining, if stop == Finished(Complete) then 1 else 0
      {
        var k := |w.dispatched|;
        ghost var now := View(rewrites);
        if k >= MAX_COMMANDS {
          stop := Finished(Capped);
          WalkStops(kind, start, now, userBuffer, consumed, at, w, chances, stop, []);
          counters := counters.(capped := counters.capped + 1);
          assert w.copies + [] == w.copies;
        } else {
          var head := ReadHead(at, remaining, chances(k).headerFault);
          var copied := if remaining >= 4 then [Span(at, 4)] else [];
          if head.Unreadable? {
            stop := Fault;
            WalkStops(kind, start, now, userBuffer, consumed, at, w, chances, stop, copied);
            counters := counters.(copyFaults := counters.copyFaults + 1);
            w := w.(copies := w.copies + copied);
          } else if head.Bad? {
            stop := Finished(Boundary);
            WalkStops(kind, start, now, userBuffer, consumed, at, w, chances, stop, copied);
            counters := counters.(boundaryErrors := counters.boundaryErrors + 1);
            w := w.(copies := w.copies + copied);
          } else {
            var total := 4 + SizeOf(head.word);
            assert FairChance(chances(k));
            var command, spans, more := Dispatch(head.word, at, k, chances(k), rewrites);
            WalkGoesOn(kind, start, now, userBuffer, consumed, at, w, chances, command, copied + spans);
            w, rewrites := Walk(w.dispatched + [command], w.copies + (copied + spans)), more;
            at, remaining := at + total, remaining - total;
          }
        }
      }
    }
  }
}
