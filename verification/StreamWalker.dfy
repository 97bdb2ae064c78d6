/** The framing of a Binder command stream: a command word, whose bits 16 to 29 give the length of the payload
    behind it and whose bits 8 to 15 its type, 'c' towards the driver and 'r' from it. `Frame` is the recursive
    reading of a stream; the walking loop of the hook is in `CommandStream` and is proved against it. */
module StreamWalker {
  import opened UserBytes

  const MAX_BYTES := 65536
  const MAX_COMMANDS := 128

  datatype Kind = Towards | From

  function TypeCode(kind: Kind): nat {
    if kind.Towards? then 99 else 114
  }

  /** A command word by its bytes, from the lowest: the number, the type, and the size with two bits of direction
      on top. */
  datatype Opcode = Opcode(number: octet, letter: octet, size: octet, top: octet)

  function TypeOf(word: Opcode): nat { word.letter }

  function SizeOf(word: Opcode): nat { word.size + 0x100 * (word.top % 0x40) }

  function BytesOf(word: Opcode): (b: seq<octet>)
    ensures |b| == 4
  {
    [word.number, word.letter, word.size, word.top]
  }

  function OpcodeAt(s: seq<octet>, at: nat): Opcode
    requires at + 4 <= |s|
  {
    Opcode(s[at], s[at + 1], s[at + 2], s[at + 3])
  }

  /** Type and size are bits 8 to 15 and 16 to 29 of the 32-bit number that the hook loads. */
  lemma FieldsOfNumber(s: seq<octet>, at: nat)
    requires at + 4 <= |s|
    ensures U32(s, at) / 0x100 % 0x100 == TypeOf(OpcodeAt(s, at))
    ensures U32(s, at) / 0x1_0000 % 0x4000 == SizeOf(OpcodeAt(s, at))
  {
    var word := OpcodeAt(s, at);
    var high := word.size + 0x100 * word.top;
    assert U32(s, at) == word.number + 0x100 * (word.letter + 0x100 * high);
    assert U32(s, at) == (word.number + 0x100 * word.letter) + 0x1_0000 * high;
    Digits(word.number, word.letter + 0x100 * high, 0x100);
    Digits(word.number + 0x100 * word.letter, high, 0x1_0000);
    Digits(word.letter, high, 0x100);
    Digits(word.size + 0x100 * (word.top % 0x40), word.top / 0x40, 0x4000);
  }

  lemma Digits(low: nat, high: nat, base: nat)
    requires low < base && base in {0x100, 0x4000, 0x1_0000}
    ensures (low + base * high) / base == high && (low + base * high) % base == low
  {
  }

  lemma OpcodeRoundTrip(word: Opcode, s: seq<octet>, at: nat)
    requires at + 4 <= |s| && s[at..at + 4] == BytesOf(word)
    ensures OpcodeAt(s, at) == word
  {
    var b := s[at..at + 4];
    assert b[0] == s[at] && b[1] == s[at + 1] && b[2] == s[at + 2] && b[3] == s[at + 3];
  }

  lemma BytesOfOpcode(s: seq<octet>, at: nat)
    requires at + 4 <= |s|
    ensures BytesOf(OpcodeAt(s, at)) == s[at..at + 4]
  {
  }

  const BC_TRANSACTION := Opcode(0x00, 0x63, 0x40, 0x40)  // 0x40406300
  const BC_REPLY := Opcode(0x01, 0x63, 0x40, 0x40)  // 0x40406301
  const BC_TRANSACTION_SG := Opcode(0x11, 0x63, 0x48, 0x40)  // 0x40486311
  const BC_REPLY_SG := Opcode(0x12, 0x63, 0x48, 0x40)  // 0x40486312
  const BR_TRANSACTION := Opcode(0x02, 0x72, 0x40, 0x80)  // 0x80407202
  const BR_TRANSACTION_SEC_CTX := Opcode(0x02, 0x72, 0x48, 0x80)  // 0x80487202
  const BR_REPLY := Opcode(0x03, 0x72, 0x40, 0x80)  // 0x80407203
  const TRANSACTION_BYTES := 64

  /** The commands that carry a binder_transaction_data. */
  predicate IsTransaction(kind: Kind, word: Opcode) {
    match kind
    case Towards => word == BC_TRANSACTION || word == BC_REPLY || word == BC_TRANSACTION_SG || word == BC_REPLY_SG
    case From => word == BR_TRANSACTION || word == BR_TRANSACTION_SEC_CTX || word == BR_REPLY
  }

  predicate IsReply(kind: Kind, word: Opcode) {
    kind.Towards? && (word == BC_REPLY || word == BC_REPLY_SG)
  }

  /** A transaction command has room for the 64 bytes the hook copies. */
  lemma TransactionsCarryData(kind: Kind, word: Opcode)
    requires IsTransaction(kind, word)
    ensures SizeOf(word) >= TRANSACTION_BYTES && TypeOf(word) == TypeCode(kind)
  {
  }

  /** The 32-bit number of a command word. */
  function Number(word: Opcode): nat {
    U32(BytesOf(word), 0)
  }

  lemma NumberIs(word: Opcode, b0: octet, b1: octet, b2: octet, b3: octet)
    ensures Number(word) == b0 + 0x100 * b1 + 0x1_0000 * b2 + 0x100_0000 * b3 <==> word == Opcode(b0, b1, b2, b3)
  {
    FourDigits(word.number, word.letter, word.size, word.top, b0, b1, b2, b3);
  }

  /** The commands that the hook copies the transaction data of, by number, and those among them that it takes for
      replies. */
  lemma TransactionNumbers(kind: Kind, word: Opcode)
    ensures IsTransaction(kind, word)
            <==> if kind.Towards? then Number(word) in {0x4040_6300, 0x4040_6301, 0x4048_6311, 0x4048_6312}
                 else Number(word) in {0x8040_7202, 0x8048_7202, 0x8040_7203}
    ensures IsReply(kind, word) <==> kind.Towards? && Number(word) in {0x4040_6301, 0x4048_6312}
  {
    hide Number;
    NumberIs(word, 0x00, 0x63, 0x40, 0x40);
    NumberIs(word, 0x01, 0x63, 0x40, 0x40);
    NumberIs(word, 0x11, 0x63, 0x48, 0x40);
    NumberIs(word, 0x12, 0x63, 0x48, 0x40);
    NumberIs(word, 0x02, 0x72, 0x40, 0x80);
    NumberIs(word, 0x02, 0x72, 0x48, 0x80);
    NumberIs(word, 0x03, 0x72, 0x40, 0x80);
  }

  datatype Command = Command(word: Opcode, payload: seq<octet>)

  predicate Legal(kind: Kind, c: Command) {
    TypeOf(c.word) == TypeCode(kind) && |c.payload| == SizeOf(c.word)
  }

  ghost predicate AllLegal(kind: Kind, cs: seq<Command>) {
    forall c :: c in cs ==> Legal(kind, c)
  }

  function Serialise(cs: seq<Command>): seq<octet> {
    if cs == [] then [] else BytesOf(cs[0].word) + cs[0].payload + Serialise(cs[1..])
  }

  datatype End = Complete | Boundary | Capped

  datatype Framing = Framing(commands: seq<Command>, end: End)

  predicate BeginsCommand(kind: Kind, s: seq<octet>) {
    |s| >= 4 && TypeOf(OpcodeAt(s, 0)) == TypeCode(kind) && 4 + SizeOf(OpcodeAt(s, 0)) <= |s|
  }

  /** The commands at the head of `s`, at most `left` of them, and why the reading stops. */
  function Frame(kind: Kind, s: seq<octet>, left: nat): Framing
    decreases left
  {
    if s == [] then Framing([], Complete)
    else if left == 0 then Framing([], Capped)
    else if !BeginsCommand(kind, s) then Framing([], Boundary)
    else
      var total := 4 + SizeOf(OpcodeAt(s, 0));
      var rest := Frame(kind, s[total..], left - 1);
      rest.(commands := [Command(OpcodeAt(s, 0), s[4..total])] + rest.commands)
  }

  /** The bytes of a command stand at the head of `s`. */
  ghost predicate BeginsWith(s: seq<octet>, c: Command) {
    4 + |c.payload| <= |s| && s[..4] == BytesOf(c.word) && s[4..4 + |c.payload|] == c.payload
  }

  /** One legal command at the head of the bytes is read first. */
  lemma FrameCons(kind: Kind, s: seq<octet>, left: nat, c: Command)
    requires left > 0 && Legal(kind, c) && BeginsWith(s, c)
    ensures var rest := Frame(kind, s[4 + |c.payload|..], left - 1);
            Frame(kind, s, left) == rest.(commands := [c] + rest.commands)
  {
    hide OpcodeAt, BytesOf, TypeOf, SizeOf, TypeCode;
    assert s[0..4] == s[..4];
    OpcodeRoundTrip(c.word, s, 0);
  }

  ghost predicate IsPrefix<T>(a: seq<T>, b: seq<T>) {
    |a| <= |b| && a == b[..|a|]
  }

  lemma SerialiseSplit(cs: seq<Command>, s: seq<octet>)
    requires cs != [] && IsPrefix(Serialise(cs), s)
    ensures BeginsWith(s, cs[0])
    ensures var tail := s[4 + |cs[0].payload|..];
            IsPrefix(Serialise(cs[1..]), tail) && (s == Serialise(cs) ==> tail == Serialise(cs[1..]))
  {
    hide BytesOf;
    var head, rest := BytesOf(cs[0].word) + cs[0].payload, Serialise(cs[1..]);
    assert Serialise(cs) == head + rest;
    PrefixSplit(head, rest, s);
    assert s[..4] == head[..4] && s[4..|head|] == head[4..];
  }

  lemma PrefixSplit<T>(head: seq<T>, rest: seq<T>, s: seq<T>)
    requires IsPrefix(head + rest, s)
    ensures |head| <= |s| && s[..|head|] == head && IsPrefix(rest, s[|head|..])
    ensures s == head + rest ==> s[|head|..] == rest
  {
    assert (head + rest)[..|head|] == head && (head + rest)[|head|..] == rest;
  }

  lemma IsPrefixOfItself<T>(s: seq<T>)
    ensures IsPrefix(s, s)
  {
  }

  lemma LegalSplit(kind: Kind, cs: seq<Command>)
    requires AllLegal(kind, cs) && cs != []
    ensures Legal(kind, cs[0]) && AllLegal(kind, cs[1..])
  {
    hide Legal;
    assert cs[0] in cs;
  }

  lemma PrefixJoin<T>(head: seq<T>, rest: seq<T>, s: seq<T>)
    requires |head| <= |s| && s[..|head|] == head && IsPrefix(rest, s[|head|..])
    ensures IsPrefix(head + rest, s)
    ensures head + rest == s <==> rest == s[|head|..]
  {
    assert s == head + s[|head|..];
    if head + rest == s { assert (head + rest)[|head|..] == rest; }
  }

  lemma NothingToRead(kind: Kind, left: nat)
    ensures Frame(kind, Serialise([]), left) == Framing([], Complete)
  {
  }

  /** Reading a serialised list gives the list back. */
  lemma {:induction false} FrameInvertsSerialise(kind: Kind, cs: seq<Command>, left: nat)
    requires AllLegal(kind, cs) && |cs| <= left
    ensures Frame(kind, Serialise(cs), left) == Framing(cs, Complete)
  {
    hide Serialise, Frame, AllLegal, Legal, BeginsWith, IsPrefix;
    if cs == [] {
      NothingToRead(kind, left);
    } else {
      var s := Serialise(cs);
      IsPrefixOfItself(s);
      SerialiseSplit(cs, s);
      LegalSplit(kind, cs);
      FrameInvertsSerialise(kind, cs[1..], left - 1);
      FrameCons(kind, s, left, cs[0]);
      assert cs == [cs[0]] + cs[1..];
    }
  }

  ghost predicate Longest(kind: Kind, s: seq<octet>, left: nat, f: Framing) {
    && AllLegal(kind, f.commands) && |f.commands| <= left && IsPrefix(Serialise(f.commands), s)
    && (f.end.Complete? <==> Serialise(f.commands) == s)
    && (f.end.Capped? <==> |f.commands| == left && Serialise(f.commands) != s)
  }

  lemma LongestCons(kind: Kind, s: seq<octet>, left: nat, c: Command, tail: Framing)
    requires left > 0 && Legal(kind, c) && BeginsWith(s, c)
    requires Longest(kind, s[4 + |c.payload|..], left - 1, tail)
    ensures Longest(kind, s, left, tail.(commands := [c] + tail.commands))
  {
    hide BytesOf, Legal;
    var head := BytesOf(c.word) + c.payload;
    assert s[..|head|] == s[..4] + s[4..|head|];
    PrefixJoin(head, Serialise(tail.commands), s);
    assert ([c] + tail.commands)[1..] == tail.commands;
    assert Serialise([c] + tail.commands) == head + Serialise(tail.commands);
  }

  /** On any bytes the commands read are legal and are there, and the end says which of the three things
      stopped the reading: nothing left, the command cap, or bytes that begin no legal command. */
  lemma {:induction false} FrameIsLegal(kind: Kind, s: seq<octet>, left: nat)
    ensures Longest(kind, s, left, Frame(kind, s, left))
    decreases left
  {
    hide OpcodeAt, SizeOf, TypeOf, TypeCode, BytesOf;
    if s == [] || left == 0 || |s| < 4 {
    } else {
      var word := OpcodeAt(s, 0);
      var total := 4 + SizeOf(word);
      if TypeOf(word) == TypeCode(kind) && total <= |s| {
        hide Longest;
        FrameIsLegal(kind, s[total..], left - 1);
        BytesOfOpcode(s, 0);
        assert s[0..4] == s[..4];
        LongestCons(kind, s, left, Command(word, s[4..total]), Frame(kind, s[total..], left - 1));
      }
    }
  }

  /** Every legal list that is there begins the commands read: they are the longest one. */
  lemma {:induction false} LegalListsBeginIt(kind: Kind, s: seq<octet>, left: nat, ds: seq<Command>)
    requires AllLegal(kind, ds) && |ds| <= left && IsPrefix(Serialise(ds), s)
    ensures IsPrefix(ds, Frame(kind, s, left).commands)
    decreases left
  {
    hide Serialise, Frame, AllLegal, Legal, BeginsWith;
    if ds != [] {
      var total := 4 + |ds[0].payload|;
      SerialiseSplit(ds, s);
      BeginsLong(s, ds[0]);
      LegalSplit(kind, ds);
      LegalListsBeginIt(kind, s[total..], left - 1, ds[1..]);
      FrameCons(kind, s, left, ds[0]);
      PrefixCons(ds[0], ds[1..], Frame(kind, s[total..], left - 1).commands);
      assert ds == [ds[0]] + ds[1..];
    }
  }

  lemma BeginsLong(s: seq<octet>, c: Command)
    requires BeginsWith(s, c)
    ensures 4 + |c.payload| <= |s|
  {
  }

  // ---- Where the commands stand ----

  /** The bytes that some commands take up. */
  function Extent(cs: seq<Command>): nat {
    if cs == [] then 0 else Extent(cs[..|cs| - 1]) + 4 + |cs[|cs| - 1].payload|
  }

  lemma FrameHead(kind: Kind, s: seq<octet>, left: nat)
    requires Frame(kind, s, left).commands != []
    ensures var f := Frame(kind, s, left);
            && left > 0 && Legal(kind, f.commands[0]) && BeginsWith(s, f.commands[0])
            && Frame(kind, s[4 + |f.commands[0].payload|..], left - 1) == f.(commands := f.commands[1..])
  {
    hide OpcodeAt, BytesOf, TypeOf, SizeOf, TypeCode;
    BytesOfOpcode(s, 0);
    assert s[0..4] == s[..4];
  }

  /** Behind k commands the framing goes on with the others. */
  lemma {:induction false} FrameRest(kind: Kind, s: seq<octet>, left: nat, k: nat)
    requires k <= |Frame(kind, s, left).commands|
    ensures var f := Frame(kind, s, left);
            && Extent(f.commands[..k]) <= |s| && k <= left
            && Frame(kind, s[Extent(f.commands[..k])..], left - k) == f.(commands := f.commands[k..])
  {
    hide Frame, Legal, BeginsWith;
    var f := Frame(kind, s, left);
    if k == 0 {
      assert s[0..] == s && f.commands[0..] == f.commands;
    } else {
      FrameRest(kind, s, left, k - 1);
      var at := Extent(f.commands[..k - 1]);
      FrameHead(kind, s[at..], left - (k - 1));
      assert f.commands[k - 1..][1..] == f.commands[k..];
      BeginsLong(s[at..], f.commands[k - 1]);
      var len := 4 + |f.commands[k - 1].payload|;
      assert f.commands[..k][..k - 1] == f.commands[..k - 1];
      assert s[at..][len..] == s[at + len..];
    }
  }

  /** What stands where k commands end: another one, or what ends the framing. */
  lemma FrameStops(kind: Kind, s: seq<octet>, left: nat, k: nat)
    requires k <= |Frame(kind, s, left).commands|
    ensures var f := Frame(kind, s, left);
            var at := Extent(f.commands[..k]);
            && at <= |s| && k <= left
            && if k < |f.commands| then k < left && Legal(kind, f.commands[k]) && BeginsWith(s[at..], f.commands[k])
               else match f.end
                    case Complete => at == |s|
                    case Capped => at < |s| && k == left
                    case Boundary => at < |s| && k < left && !BeginsCommand(kind, s[at..])
  {
    hide Extent, Legal, BeginsWith;
    var f := Frame(kind, s, left);
    FrameRest(kind, s, left, k);
    var rest := s[Extent(f.commands[..k])..];
    if k < |f.commands| {
      FrameHead(kind, rest, left - k);
    } else {
      FrameNone(kind, rest, left - k);
    }
  }

  lemma FrameNone(kind: Kind, s: seq<octet>, left: nat)
    requires Frame(kind, s, left).commands == []
    ensures match Frame(kind, s, left).end
            case Complete => s == []
            case Capped => s != [] && left == 0
            case Boundary => s != [] && left > 0 && !BeginsCommand(kind, s)
  {
  }

  lemma PrefixCons<T>(x: T, a: seq<T>, b: seq<T>)
    requires IsPrefix(a, b)
    ensures IsPrefix([x] + a, [x] + b)
  {
  }
}
