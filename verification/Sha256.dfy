/** The streaming SHA-256 of the module, proved equal to FIPS 180-4. */
module Sha256 {
  import opened Bytes
  import opened Numbers

  type word = bv32

  const BLOCK := 64

  // ---- FIPS 180-4 ----

  /** Addition modulo 2^32. */
  function Plus(x: word, y: word): word { x + y }

  function Rotr(x: word, n: bv6): word
    requires n < 32
  {
    (x >> n) | (x << (32 - n))
  }

  /** The functions of section 4.1.2. */
  function Ch(x: word, y: word, z: word): word { (x & y) ^ (!x & z) }

  function Maj(x: word, y: word, z: word): word { (x & y) ^ (x & z) ^ (y & z) }

  function BigSigma0(x: word): word { Rotr(x, 2) ^ Rotr(x, 13) ^ Rotr(x, 22) }

  function BigSigma1(x: word): word { Rotr(x, 6) ^ Rotr(x, 11) ^ Rotr(x, 25) }

  function SmallSigma0(x: word): word { Rotr(x, 7) ^ Rotr(x, 18) ^ (x >> 3) }

  function SmallSigma1(x: word): word { Rotr(x, 17) ^ Rotr(x, 19) ^ (x >> 10) }

  /** The constants of section 4.2.2. */
  function Constants(): (k: seq<word>)
    ensures |k| == 64
  {
    [0x428a2f98, 0x71374491, 0xb5c0fbcf, 0xe9b5dba5, 0x3956c25b, 0x59f111f1, 0x923f82a4, 0xab1c5ed5]
    + [0xd807aa98, 0x12835b01, 0x243185be, 0x550c7dc3, 0x72be5d74, 0x80deb1fe, 0x9bdc06a7, 0xc19bf174]
    + [0xe49b69c1, 0xefbe4786, 0x0fc19dc6, 0x240ca1cc, 0x2de92c6f, 0x4a7484aa, 0x5cb0a9dc, 0x76f988da]
    + [0x983e5152, 0xa831c66d, 0xb00327c8, 0xbf597fc7, 0xc6e00bf3, 0xd5a79147, 0x06ca6351, 0x14292967]
    + [0x27b70a85, 0x2e1b2138, 0x4d2c6dfc, 0x53380d13, 0x650a7354, 0x766a0abb, 0x81c2c92e, 0x92722c85]
    + [0xa2bfe8a1, 0xa81a664b, 0xc24b8b70, 0xc76c51a3, 0xd192e819, 0xd6990624, 0xf40e3585, 0x106aa070]
    + [0x19a4c116, 0x1e376c08, 0x2748774c, 0x34b0bcb5, 0x391c0cb3, 0x4ed8aa4a, 0x5b9cca4f, 0x682e6ff3]
    + [0x748f82ee, 0x78a5636f, 0x84c87814, 0x8cc70208, 0x90befffa, 0xa4506ceb, 0xbef9a3f7, 0xc67178f2]
  }

  /** The initial hash value of section 5.3.3. */
  function Initial(): (h: seq<word>)
    ensures |h| == 8
  {
    [0x6a09e667, 0xbb67ae85, 0x3c6ef372, 0xa54ff53a, 0x510e527f, 0x9b05688c, 0x1f83d9ab, 0x5be0cd19]
  }

  /** A number without its lowest i bytes. */
  function Shifted(n: nat, i: nat): nat {
    if i == 0 then n else Shifted(n, i - 1) / 256
  }

  function LengthByte(bits: nat, i: nat): byte { (Shifted(bits, i) % 256) as byte }

  /** A length in bits as eight bytes, most significant first. */
  function LengthBytes(bits: nat): (b: seq<byte>)
    ensures |b| == 8
  {
    seq(8, j requires 0 <= j < 8 => LengthByte(bits, 7 - j))
  }

  /** The number that some bytes spell, the highest first. */
  function Big(b: seq<byte>): nat {
    if b == [] then 0 else 256 * Big(b[..|b| - 1]) + b[|b| - 1] as int
  }

  lemma NextByte(b: byte)
    requires b as int < 255
    ensures (b + 1) as int == b as int + 1
  {
    assert b < 255;
  }

  lemma ByteReturns(b: byte)
    ensures (b as int) as byte == b
  {
  }

  lemma {:induction false} ByteAsInt(n: nat)
    requires n < 256
    ensures (n as byte) as int == n
  {
    if n > 0 {
      ByteAsInt(n - 1);
      var below := (n - 1) as byte;
      NextByte(below);
      ByteReturns(below + 1);
    }
  }

  lemma {:induction false} FirstLengthBytes(bits: nat, k: nat)
    requires Shifted(bits, 8) == 0 && k <= 8
    ensures Big(LengthBytes(bits)[..k]) == Shifted(bits, 8 - k)
  {
    var b := LengthBytes(bits);
    if k > 0 {
      FirstLengthBytes(bits, k - 1);
      assert b[..k][..k - 1] == b[..k - 1] && b[..k][k - 1] == LengthByte(bits, 8 - k);
      OneByteMore(bits, 8 - k);
    }
  }

  lemma OneByteMore(bits: nat, i: nat)
    ensures 256 * Shifted(bits, i + 1) + LengthByte(bits, i) as int == Shifted(bits, i)
  {
    ByteAsInt(Shifted(bits, i) % 256);
  }

  lemma ShiftOnce(n: nat, i: nat, bound: nat)
    requires Shifted(n, i) < 256 * bound
    ensures Shifted(n, i + 1) < bound
  {
  }

  /** The length field is the number of bits, most significant byte first. */
  lemma LengthIsBigEndian(bits: nat)
    requires bits < 0x1_0000_0000_0000_0000
    ensures Big(LengthBytes(bits)) == bits
  {
    hide LengthBytes, LengthByte;
    ShiftOnce(bits, 0, 0x100_0000_0000_0000);
    ShiftOnce(bits, 1, 0x1_0000_0000_0000);
    ShiftOnce(bits, 2, 0x100_0000_0000);
    ShiftOnce(bits, 3, 0x1_0000_0000);
    ShiftOnce(bits, 4, 0x100_0000);
    ShiftOnce(bits, 5, 0x1_0000);
    ShiftOnce(bits, 6, 0x100);
    ShiftOnce(bits, 7, 1);
    FirstLengthBytes(bits, 8);
    assert LengthBytes(bits)[..8] == LengthBytes(bits);
  }

  /** How many zero bytes follow the byte 0x80. */
  function PadZeros(n: nat): nat {
    (119 - n % BLOCK) % BLOCK
  }

  /** The length in bits, as far as 64 bits hold it. */
  function BitCount(bytes: nat): nat { bytes * 8 % WORD64 }

  function Pad(m: seq<byte>): seq<byte> {
    m + [0x80] + Zeros(PadZeros(|m|)) + LengthBytes(BitCount(|m|))
  }

  /** Section 5.1.1: the padding is the least that leaves room for the length, and on the messages the standard
      admits the length field is the length. */
  lemma PadIsFips(m: seq<byte>, z: nat)
    ensures |Pad(m)| % BLOCK == 0
    ensures (|m| + 1 + PadZeros(|m|)) % BLOCK == 56
    ensures (|m| + 1 + z) % BLOCK == 56 ==> PadZeros(|m|) <= z
    ensures |m| < 0x2000_0000_0000_0000 ==> Pad(m)[|Pad(m)| - 8..] == LengthBytes(|m| * 8)
  {
    hide LengthBytes, PadZeros, Zeros;
    PadCount(|m|, z);
    var front := m + [0x80] + Zeros(PadZeros(|m|));
    assert Pad(m) == front + LengthBytes(BitCount(|m|));
    assert |front| % BLOCK == 56;
    Block56(|front|);
  }

  lemma Block56(n: nat)
    requires n % BLOCK == 56
    ensures (n + 8) % BLOCK == 0
  {
  }

  lemma PadCount(n: nat, z: nat)
    ensures (n + 1 + PadZeros(n)) % BLOCK == 56
    ensures (n + 1 + z) % BLOCK == 56 ==> PadZeros(n) <= z
  {
    var q, r := n / BLOCK, n % BLOCK;
    BlocksAside(q, r + 1 + PadZeros(n));
    BlocksAside(q, r + 1 + z);
    assert n + 1 + z == BLOCK * q + (r + 1 + z);
    assert n + 1 + PadZeros(n) == BLOCK * q + (r + 1 + PadZeros(n));
    SmallPad(r, z);
  }

  lemma {:induction false} BlocksAside(q: nat, x: nat)
    ensures (BLOCK * q + x) % BLOCK == x % BLOCK
  {
    if q > 0 {
      BlocksAside(q - 1, x);
      OneBlockAside(BLOCK * (q - 1) + x);
    }
  }

  lemma OneBlockAside(x: nat)
    ensures (x + BLOCK) % BLOCK == x % BLOCK
  {
  }

  lemma SmallPad(r: nat, z: nat)
    requires r < BLOCK
    ensures (r + 1 + PadZeros(r)) % BLOCK == 56
    ensures (r + 1 + z) % BLOCK == 56 ==> PadZeros(r) <= z
  {
    SmallRemainder(r);
    SmallRemainder(119 - r);
    SmallRemainder(r + 1 + PadZeros(r));
    if z < PadZeros(r) { SmallRemainder(r + 1 + z); }
  }

  lemma SmallRemainder(x: nat)
    requires x < 2 * BLOCK
    ensures x % BLOCK == if x < BLOCK then x else x - BLOCK
  {
  }

  function WordAt(block: seq<byte>, i: nat): word
    requires 4 * i + 4 <= |block|
  {
    ((block[4 * i] as word) << 24) | ((block[4 * i + 1] as word) << 16)
    | ((block[4 * i + 2] as word) << 8) | (block[4 * i + 3] as word)
  }

  /** The message schedule, step 1 of section 6.2.2, its four terms added in the order of the loop. */
  function Schedule(block: seq<byte>, t: nat): word
    requires |block| == BLOCK
  {
    if t < 16 then WordAt(block, t)
    else Plus(Plus(Plus(Schedule(block, t - 16), SmallSigma0(Schedule(block, t - 15))), Schedule(block, t - 7)),
              SmallSigma1(Schedule(block, t - 2)))
  }

  /** The eight working variables. */
  datatype Vars = Vars(a: word, b: word, c: word, d: word, e: word, f: word, g: word, h: word)

  function T1(v: Vars, k: word, w: word): word {
    Plus(Plus(Plus(Plus(v.h, BigSigma1(v.e)), Ch(v.e, v.f, v.g)), k), w)
  }

  function T2(v: Vars): word { Plus(BigSigma0(v.a), Maj(v.a, v.b, v.c)) }

  /** One turn of step 3. */
  function Round(v: Vars, k: word, w: word): Vars {
    Vars(Plus(T1(v, k, w), T2(v)), v.a, v.b, v.c, Plus(v.d, T1(v, k, w)), v.e, v.f, v.g)
  }

  function Rounds(v: Vars, block: seq<byte>, t: nat): Vars
    requires |block| == BLOCK && t <= 64
  {
    if t == 0 then v else Round(Rounds(v, block, t - 1), Constants()[t - 1], Schedule(block, t - 1))
  }

  function AsVars(h: seq<word>): Vars
    requires |h| == 8
  {
    Vars(h[0], h[1], h[2], h[3], h[4], h[5], h[6], h[7])
  }

  /** Steps 2 to 4 for one block. */
  function Compress(h: seq<word>, block: seq<byte>): (r: seq<word>)
    requires |h| == 8 && |block| == BLOCK
    ensures |r| == 8
  {
    Added(h, Rounds(AsVars(h), block, 64))
  }

  function Added(h: seq<word>, v: Vars): (r: seq<word>)
    requires |h| == 8
    ensures |r| == 8
  {
    [Plus(h[0], v.a), Plus(h[1], v.b), Plus(h[2], v.c), Plus(h[3], v.d),
     Plus(h[4], v.e), Plus(h[5], v.f), Plus(h[6], v.g), Plus(h[7], v.h)]
  }

  function HashBlocks(h: seq<word>, bytes: seq<byte>): (r: seq<word>)
    requires |h| == 8 && |bytes| % BLOCK == 0
    ensures |r| == 8
  {
    if bytes == [] then h
    else Compress(HashBlocks(h, bytes[..|bytes| - BLOCK]), bytes[|bytes| - BLOCK..])
  }

  function ByteOf(w: word, i: nat): byte
    requires i < 4
  {
    if i == 0 then (w >> 24) as byte
    else if i == 1 then ((w >> 16) & 0xff) as byte
    else if i == 2 then ((w >> 8) & 0xff) as byte
    else (w & 0xff) as byte
  }

  function DigestOf(h: seq<word>): (d: seq<byte>)
    requires |h| == 8
    ensures |d| == 32
  {
    seq(32, j requires 0 <= j < 32 => ByteOf(h[j / 4], j % 4))
  }

  lemma DigestWord(h: seq<word>, i: nat)
    requires |h| == 8 && i < 8
    ensures DigestOf(h)[..4 * i + 4] ==
            DigestOf(h)[..4 * i] + [ByteOf(h[i], 0), ByteOf(h[i], 1), ByteOf(h[i], 2), ByteOf(h[i], 3)]
  {
    hide ByteOf;
  }

  function Hash(m: seq<byte>): (d: seq<byte>)
    ensures |d| == 32
  {
    PadIsFips(m, 0);
    DigestOf(HashBlocks(Initial(), Pad(m)))
  }

  lemma HashAppend(h: seq<word>, done: seq<byte>, block: seq<byte>)
    requires |h| == 8 && |done| % BLOCK == 0 && |block| == BLOCK
    ensures HashBlocks(h, done + block) == Compress(HashBlocks(h, done), block)
  {
  }

  /** Padding closes the last block, or the last and one more. */
  lemma PadBlocks(done: seq<byte>, tail: seq<byte>)
    requires |done| % BLOCK == 0 && |tail| < BLOCK
    ensures var m := done + tail;
            var last := LengthBytes(BitCount(|m|));
            var closing := tail + [0x80];
            Pad(m) == if |closing| <= 56 then done + (closing + Zeros(56 - |closing|) + last)
                      else done + (closing + Zeros(BLOCK - |closing|)) + (Zeros(56) + last)
  {
    hide LengthBytes, BitCount;
    var closing := tail + [0x80];
    assert |done + tail| % BLOCK == |tail|;
    if |closing| > 56 {
      assert Zeros(PadZeros(|done + tail|)) == Zeros(BLOCK - |closing|) + Zeros(56);
    }
  }

  // ---- The streaming hash ----

  class Hasher {
    const state: array<word>
    const buffer: array<byte>
    var total: nat
    var buffered: nat
    ghost var done: seq<byte>

    ghost predicate Valid()
      reads this, state, buffer
    {
      Holds() && total == |Message()| % WORD64
    }

    /** What has been hashed is whole blocks; what has not fits the buffer with room to spare. */
    ghost predicate Holds()
      reads this, state, buffer
    {
      && state.Length == 8 && buffer.Length == BLOCK && buffered < BLOCK
      && |done| % BLOCK == 0 && state[..] == HashBlocks(Initial(), done)
    }

    ghost function Message(): seq<byte>
      requires buffered <= buffer.Length
      reads this, buffer
    {
      done + buffer[..buffered]
    }

    constructor ()
      ensures Valid() && Message() == [] && fresh(state) && fresh(buffer)
    {
      hide Initial, Compress;
      var initial := Initial();
      state := new word[8](i requires 0 <= i < 8 => initial[i]);
      buffer := new byte[BLOCK](_ => 0);
      total, buffered, done := 0, 0, [];
      new;
      assert state[..] == initial;
    }

    /** One block into the state. */
    method Transform(block: seq<byte>)
      requires state.Length == 8 && |block| == BLOCK
      modifies state
      ensures state[..] == Compress(old(state[..]), block)
    {
      hide Added, Rounds;
      var v := RunRounds(AsVars(state[..]), block);
      Add(v);
    }

    method Add(v: Vars)
      requires state.Length == 8
      modifies state
      ensures state[..] == Added(old(state[..]), v)
    {
      hide Plus;
      Accumulate(0, v.a);
      Accumulate(1, v.b);
      Accumulate(2, v.c);
      Accumulate(3, v.d);
      Accumulate(4, v.e);
      Accumulate(5, v.f);
      Accumulate(6, v.g);
      Accumulate(7, v.h);
    }

    method Accumulate(i: nat, x: word)
      requires i < state.Length
      modifies state
      ensures state[..] == old(state[..])[i := Plus(old(state[i]), x)]
    {
      hide Plus;
      state[i] := Plus(state[i], x);
    }

    static method RunRounds(start: Vars, block: seq<byte>) returns (v: Vars)
      requires |block| == BLOCK
      ensures v == Rounds(start, block, 64)
    {
      hide Plus, BigSigma0, BigSigma1, Ch, Maj, Constants, Schedule, Rounds;
      var w := PrepareSchedule(block);
      var k := Constants();
      var a, b, c, d := start.a, start.b, start.c, start.d;
      var e, f, g, h := start.e, start.f, start.g, start.h;
      NoRounds(start, block);
      for i := 0 to 64
        invariant Vars(a, b, c, d, e, f, g, h) == Rounds(start, block, i)
      {
        OneRound(start, block, i);
        var s1 := BigSigma1(e);
        var ch := Ch(e, f, g);
        var t1 := Plus(Plus(Plus(Plus(h, s1), ch), k[i]), w[i]);
        var s0 := BigSigma0(a);
        var maj := Maj(a, b, c);
        var t2 := Plus(s0, maj);
        h := g;
        g := f;
        f := e;
        e := Plus(d, t1);
        d := c;
        c := b;
        b := a;
        a := Plus(t1, t2);
      }
      v := Vars(a, b, c, d, e, f, g, h);
    }

    static method PrepareSchedule(block: seq<byte>) returns (schedule: seq<word>)
      requires |block| == BLOCK
      ensures |schedule| == 64 && forall t :: 0 <= t < 64 ==> schedule[t] == Schedule(block, t)
    {
      hide Plus, SmallSigma0, SmallSigma1, WordAt, Schedule;
      var w := new word[64];
      for i := 0 to 16
        invariant forall t :: 0 <= t < i ==> w[t] == Schedule(block, t)
      {
        ScheduleStep(block, i);
        w[i] := WordAt(block, i);
      }
      for i := 16 to 64
        invariant forall t :: 0 <= t < i ==> w[t] == Schedule(block, t)
      {
        ScheduleStep(block, i);
        var s0 := SmallSigma0(w[i - 15]);
        var s1 := SmallSigma1(w[i - 2]);
        w[i] := Plus(Plus(Plus(w[i - 16], s0), w[i - 7]), s1);
      }
      schedule := w[..];
    }

    /** More of the message, in pieces that fill the buffer. */
    method Update(data: seq<byte>)
      requires Valid()
      modifies this`total, this`buffered, this`done, state, buffer
      ensures Valid() && Message() == old(Message()) + data
    {
      hide HashBlocks, Initial, Compress;
      ghost var before := Message();
      total := (total + |data|) % WORD64;
      TotalGrows(|before|, |data|);
      var used := 0;
      assert Message() == before + data[..used];
      while used < |data|
        invariant used <= |data| && Holds() && Message() == before + data[..used]
        invariant total == (|before| + |data|) % WORD64
      {
        var space := BLOCK - buffered;
        var take := if |data| - used < space then |data| - used else space;
        Take(data[used..used + take]);
        assert before + data[..used] + data[used..used + take] == before + data[..used + take];
        used := used + take;
      }
      assert data[..used] == data;
    }

    /** As many bytes as the buffer has room for. */
    method Take(piece: seq<byte>)
      requires Holds() && 0 < |piece| <= BLOCK - buffered
      modifies this`buffered, this`done, state, buffer
      ensures Holds() && Message() == old(Message()) + piece
    {
      hide HashBlocks, Initial, Compress;
      ghost var block := buffer[..buffered] + piece;
      Store(piece);
      buffered := buffered + |piece|;
      assert buffer[..buffered] == block;
      assert old(Message()) + piece == done + block;
      if buffered == BLOCK {
        assert buffer[..] == block;
        Transform(buffer[..]);
        HashAppend(Initial(), done, block);
        done := done + block;
        buffered := 0;
        assert Message() == done;
      }
    }

    method Store(piece: seq<byte>)
      requires buffer.Length == BLOCK && buffered + |piece| <= BLOCK
      modifies buffer
      ensures buffer[..] == old(buffer[..buffered]) + piece + old(buffer[buffered + |piece|..])
    {
      for i := 0 to |piece|
        invariant buffer[..] == old(buffer[..buffered]) + piece[..i] + old(buffer[buffered + i..])
      {
        buffer[buffered + i] := piece[i];
      }
    }

    /** The digest of the message. The object is spent. */
    method Finish() returns (digest: seq<byte>)
      requires Valid()
      modifies this`buffered, state, buffer
      ensures digest == Hash(old(Message()))
    {
      hide HashBlocks, Initial, Compress, Pad, DigestOf;
      ghost var m, tail := Message(), buffer[..buffered];
      BitsOf(|m|);
      PadIsFips(m, 0);
      var bits := BitCount(total);
      buffer[buffered] := 0x80;
      buffered := buffered + 1;
      assert buffer[..buffered] == tail + [0x80];
      Close(bits, tail);
      digest := WriteDigest();
    }

    /** The padding behind the byte 0x80, in one block or two. */
    method Close(bits: nat, ghost tail: seq<byte>)
      requires state.Length == 8 && buffer.Length == BLOCK && buffered <= BLOCK
      requires buffer[..buffered] == tail + [0x80] && bits == BitCount(|done + tail|)
      requires |done| % BLOCK == 0 && state[..] == HashBlocks(Initial(), done)
      modifies this`buffered, state, buffer
      ensures |Pad(done + tail)| % BLOCK == 0 && state[..] == HashBlocks(Initial(), Pad(done + tail))
    {
      hide HashBlocks, Initial, Compress, LengthBytes, Pad, PadZeros, Zeros, BitCount;
      ghost var closing, before := buffer[..buffered], done;
      PadBlocks(done, tail);
      PadIsFips(done + tail, 0);
      if buffered > 56 {
        Spill(before);
        before := done + (closing + Zeros(BLOCK - |closing|));
        OneBlockAside(|done|);
        assert |before| == |done| + BLOCK && buffer[..buffered] == [];
        assert [] + Zeros(56) == Zeros(56);
      }
      LastBlock(bits, before);
    }

    /** A block with no room left for the length. */
    method Spill(ghost done: seq<byte>)
      requires state.Length == 8 && buffer.Length == BLOCK && 56 < buffered <= BLOCK
      requires |done| % BLOCK == 0 && state[..] == HashBlocks(Initial(), done)
      modifies this`buffered, state, buffer
      ensures buffered == 0
      ensures state[..] == HashBlocks(Initial(), done + (old(buffer[..buffered]) + Zeros(BLOCK - old(buffered))))
    {
      hide HashBlocks, Initial, Compress, Zeros;
      ghost var closing := buffer[..buffered] + Zeros(BLOCK - buffered);
      Fill(BLOCK);
      assert buffer[..] == closing;
      Transform(buffer[..]);
      HashAppend(Initial(), done, closing);
      buffered := 0;
    }

    /** The block that ends with the length. */
    method LastBlock(bits: nat, ghost done: seq<byte>)
      requires state.Length == 8 && buffer.Length == BLOCK && buffered <= 56
      requires |done| % BLOCK == 0 && state[..] == HashBlocks(Initial(), done)
      modifies state, buffer
      ensures var closing := old(buffer[..buffered]) + Zeros(56 - buffered) + LengthBytes(bits);
              state[..] == HashBlocks(Initial(), done + closing)
    {
      hide HashBlocks, Initial, Compress, Zeros, LengthBytes;
      ghost var closing := buffer[..buffered] + Zeros(56 - buffered) + LengthBytes(bits);
      Fill(56);
      StoreLength(bits);
      assert buffer[..] == closing;
      Transform(buffer[..]);
      HashAppend(Initial(), done, closing);
    }

    method Fill(to: nat)
      requires buffer.Length == BLOCK && buffered <= to <= BLOCK
      modifies buffer
      ensures buffer[..to] == old(buffer[..buffered]) + Zeros(to - buffered)
    {
      for i := buffered to to
        invariant buffer[..i] == old(buffer[..buffered]) + Zeros(i - buffered)
      {
        buffer[i] := 0;
      }
    }

    method StoreLength(bits: nat)
      requires buffer.Length == BLOCK
      modifies buffer
      ensures buffer[..] == old(buffer[..56]) + LengthBytes(bits)
    {
      hide LengthByte;
      for i := 0 to 8
        invariant buffer[..56] == old(buffer[..56])
        invariant forall j :: 0 <= j < i ==> buffer[63 - j] == LengthByte(bits, j)
      {
        buffer[63 - i] := LengthByte(bits, i);
      }
      assert forall k :: 56 <= k < 64 ==> buffer[k] == buffer[63 - (63 - k)];
      assert buffer[56..] == LengthBytes(bits);
    }

    method WriteDigest() returns (digest: seq<byte>)
      requires state.Length == 8
      ensures digest == DigestOf(state[..])
    {
      hide ByteOf, DigestOf;
      var bytes := new byte[32](_ => 0);
      for i := 0 to 8
        invariant bytes[..4 * i] == DigestOf(state[..])[..4 * i]
      {
        DigestWord(state[..], i);
        StoreWord(bytes, 4 * i, state[i]);
        assert bytes[..4 * (i + 1)] == bytes[..4 * i] + bytes[4 * i..4 * i + 4];
      }
      digest := bytes[..];
    }

    /** Four bytes of the digest. */
    static method StoreWord(bytes: array<byte>, at: nat, w: word)
      requires at + 4 <= bytes.Length
      modifies bytes
      ensures bytes[..at] == old(bytes[..at])
      ensures bytes[at..at + 4] == [ByteOf(w, 0), ByteOf(w, 1), ByteOf(w, 2), ByteOf(w, 3)]
    {
      hide ByteOf;
      bytes[at], bytes[at + 1] := ByteOf(w, 0), ByteOf(w, 1);
      bytes[at + 2], bytes[at + 3] := ByteOf(w, 2), ByteOf(w, 3);
    }
  }

  lemma ScheduleStep(block: seq<byte>, t: nat)
    requires |block| == BLOCK
    ensures t < 16 ==> Schedule(block, t) == WordAt(block, t)
    ensures t >= 16 ==>
              Schedule(block, t) == Plus(Plus(Plus(Schedule(block, t - 16), SmallSigma0(Schedule(block, t - 15))),
                                              Schedule(block, t - 7)), SmallSigma1(Schedule(block, t - 2)))
  {
  }

  lemma TotalGrows(n: nat, more: nat)
    ensures (n % WORD64 + more) % WORD64 == (n + more) % WORD64
  {
  }

  lemma RemainderIs(x: nat, q: nat, r: nat)
    requires x == WORD64 * q + r && r < WORD64
    ensures x % WORD64 == r
  {
    var d := x / WORD64 - q;
    assert WORD64 * d == r - x % WORD64;
  }

  lemma BitsOf(n: nat)
    ensures BitCount(n % WORD64) == BitCount(n)
  {
    var q, r := n / WORD64, n % WORD64;
    var k, low := r * 8 / WORD64, r * 8 % WORD64;
    assert n == WORD64 * q + r && r * 8 == WORD64 * k + low;
    RemainderIs(n * 8, 8 * q + k, low);
  }

  lemma NoRounds(v: Vars, block: seq<byte>)
    requires |block| == BLOCK
    ensures Rounds(v, block, 0) == v
  {
  }

  lemma OneRound(v: Vars, block: seq<byte>, t: nat)
    requires |block| == BLOCK && t < 64
    ensures Rounds(v, block, t + 1) == Round(Rounds(v, block, t), Constants()[t], Schedule(block, t))
  {
  }

  function Concat(chunks: seq<seq<byte>>): seq<byte> {
    if chunks == [] then [] else Concat(chunks[..|chunks| - 1]) + chunks[|chunks| - 1]
  }

  /** Whatever the pieces, the digest is that of the whole. */
  method HashChunks(chunks: seq<seq<byte>>) returns (digest: seq<byte>)
    ensures digest == Hash(Concat(chunks))
  {
    hide Hash, HashBlocks, Initial;
    var hasher := new Hasher();
    for i := 0 to |chunks|
      invariant hasher.Valid() && hasher.Message() == Concat(chunks[..i])
      invariant fresh(hasher) && fresh(hasher.state) && fresh(hasher.buffer)
    {
      assert chunks[..i + 1][..i] == chunks[..i];
      hasher.Update(chunks[i]);
    }
    assert chunks[..|chunks|] == chunks;
    digest := hasher.Finish();
  }
}
