/** The reflected CRC-32 of clause 3.2.9 of IEEE 802.3, computed bit by bit, and what it detects. */
module Crc32 {
  import opened Bytes

  const ONES: bv32 := 0xffff_ffff

  function Xor(a: bv32, b: bv32): bv32 { a ^ b }

  function Half(v: bv32): bv32 {
    var one: bv6 := 1;
    v >> one
  }

  function Up(v: bv32, n: bv6): bv32
    requires n <= 32
  {
    v << n
  }

  /** The polynomial, when the bit shifted out is set. */
  function Tap(v: bv32): bv32 { if v & 1 == 1 then 0xedb88320 else 0 }

  /** One bit of the division. */
  function ShiftBit(v: bv32): bv32 { Xor(Half(v), Tap(v)) }

  function ShiftBits(v: bv32, n: nat): bv32 {
    if n == 0 then v else ShiftBit(ShiftBits(v, n - 1))
  }

  function Shift8(v: bv32): bv32 { ShiftBits(v, 8) }

  function Feed(v: bv32, b: byte): bv32 { Shift8(Xor(v, b as bv32)) }

  /** The register after some bytes. */
  function Register(v: bv32, bytes: seq<byte>): bv32 {
    if bytes == [] then v else Feed(Register(v, bytes[..|bytes| - 1]), bytes[|bytes| - 1])
  }

  function Crc(bytes: seq<byte>): bv32 { Xor(Register(ONES, bytes), ONES) }

  /** The loop, with its mask in place of the branch. */
  method Compute(data: seq<byte>) returns (crc: bv32)
    ensures crc == Crc(data)
  {
    hide Xor, Half, Tap;
    var value := ONES;
    for i := 0 to |data|
      invariant value == Register(ONES, data[..i])
    {
      assert data[..i + 1][..i] == data[..i];
      value := Xor(value, data[i] as bv32);
      ghost var start := value;
      for bit := 0 to 8
        invariant value == ShiftBits(start, bit)
      {
        MaskIsTap(value);
        var mask := 0 - (value & 1);
        value := Xor(Half(value), 0xedb88320 & mask);
      }
    }
    assert data[..|data|] == data;
    return Xor(value, ONES);
  }

  lemma MaskIsTap(v: bv32)
    ensures 0xedb88320 & (0 - (v & 1)) == Tap(v)
  {
  }

  // ---- The register is linear and loses nothing ----

  lemma HalfLinear(a: bv32, b: bv32)
    ensures Half(Xor(a, b)) == Xor(Half(a), Half(b))
  {
    hide Half;
    HalfOfXor(a, b);
  }

  lemma HalfOfXor(a: bv32, b: bv32)
    ensures Half(a ^ b) == Half(a) ^ Half(b)
  {
  }

  lemma TapLinear(a: bv32, b: bv32)
    ensures Tap(Xor(a, b)) == Xor(Tap(a), Tap(b))
  {
  }

  lemma XorSwaps(a: bv32, b: bv32, c: bv32, d: bv32)
    ensures Xor(Xor(a, b), Xor(c, d)) == Xor(Xor(a, c), Xor(b, d))
  {
    hide Xor;
    XorAssociates(a, b, Xor(c, d));
    XorAssociates(b, c, d);
    XorCommutes(b, c);
    XorAssociates(c, b, d);
    XorAssociates(a, c, Xor(b, d));
  }

  lemma XorCommutes(a: bv32, b: bv32)
    ensures Xor(a, b) == Xor(b, a)
  {
  }

  lemma XorAssociates(a: bv32, b: bv32, c: bv32)
    ensures Xor(Xor(a, b), c) == Xor(a, Xor(b, c))
  {
  }

  lemma {:induction false} ShiftLinear(a: bv32, b: bv32, n: nat)
    ensures ShiftBits(Xor(a, b), n) == Xor(ShiftBits(a, n), ShiftBits(b, n))
  {
    hide Xor, Half, Tap;
    if n > 0 {
      ShiftLinear(a, b, n - 1);
      var s, t := ShiftBits(a, n - 1), ShiftBits(b, n - 1);
      HalfLinear(s, t);
      TapLinear(s, t);
      XorSwaps(Half(s), Tap(s), Half(t), Tap(t));
    }
  }

  lemma ShiftBitInjective(a: bv32, b: bv32)
    requires ShiftBit(a) == ShiftBit(b)
    ensures a == b
  {
  }

  lemma {:induction false} ShiftInjective(a: bv32, b: bv32, n: nat)
    requires ShiftBits(a, n) == ShiftBits(b, n)
    ensures a == b
  {
    hide ShiftBit;
    if n > 0 {
      ShiftBitInjective(ShiftBits(a, n - 1), ShiftBits(b, n - 1));
      ShiftInjective(a, b, n - 1);
    }
  }

  lemma XorInjective(a: bv32, b: bv32, c: bv32)
    requires Xor(a, c) == Xor(b, c) || Xor(c, a) == Xor(c, b)
    ensures a == b
  {
  }

  /** Registers that differ stay different behind equal bytes. */
  lemma {:induction false} RegisterInjective(v: bv32, w: bv32, bytes: seq<byte>)
    requires v != w
    ensures Register(v, bytes) != Register(w, bytes)
  {
    hide ShiftBits, Xor;
    if bytes != [] {
      var front, last := bytes[..|bytes| - 1], bytes[|bytes| - 1];
      RegisterInjective(v, w, front);
      if Register(v, bytes) == Register(w, bytes) {
        ShiftInjective(Xor(Register(v, front), last as bv32), Xor(Register(w, front), last as bv32), 8);
        XorInjective(Register(v, front), Register(w, front), last as bv32);
      }
    }
  }

  lemma {:induction false} RegisterConcat(v: bv32, a: seq<byte>, b: seq<byte>)
    ensures Register(v, a + b) == Register(Register(v, a), b)
  {
    hide Feed;
    if b == [] {
      assert a + b == a;
    } else {
      RegisterConcat(v, a, b[..|b| - 1]);
      assert (a + b)[..|a + b| - 1] == a + b[..|b| - 1];
    }
  }

  // ---- Four bytes are one word ----

  function Above(b: byte, rest: bv32): bv32 { (b as bv32) | Up(rest, 8) }

  function WordOf(b0: byte, b1: byte, b2: byte, b3: byte): bv32 {
    Above(b0, Above(b1, Above(b2, b3 as bv32)))
  }

  lemma UpNone(v: bv32)
    ensures Up(v, 0) == v
  {
  }

  lemma OneDown(high: bv32, n: bv6)
    requires high < 0x100_0000 && 0 < n <= 8
    ensures ShiftBit(Up(high, n)) == Up(high, n - 1)
  {
  }

  /** Bits above the lowest eight are only moved down by a byte's worth of steps. */
  lemma HighBitsMoveDown(high: bv32)
    requires high < 0x100_0000
    ensures Shift8(Up(high, 8)) == high
  {
    hide ShiftBit, Up;
    var v := Up(high, 8);
    OneDown(high, 8);
    assert ShiftBits(v, 1) == Up(high, 7);
    OneDown(high, 7);
    assert ShiftBits(v, 2) == Up(high, 6);
    OneDown(high, 6);
    assert ShiftBits(v, 3) == Up(high, 5);
    OneDown(high, 5);
    assert ShiftBits(v, 4) == Up(high, 4);
    OneDown(high, 4);
    assert ShiftBits(v, 5) == Up(high, 3);
    OneDown(high, 3);
    assert ShiftBits(v, 6) == Up(high, 2);
    OneDown(high, 2);
    assert ShiftBits(v, 7) == Up(high, 1);
    OneDown(high, 1);
    UpNone(high);
  }

  /** A byte that enters above the lowest eight bits enters a byte later. */
  lemma EntersLater(v: bv32, b: byte, high: bv32)
    requires high < 0x100_0000
    ensures Shift8(Xor(v, Above(b, high))) == Xor(Feed(v, b), high)
  {
    hide ShiftBits, Xor, Up, Above;
    XorAbove(v, b, high);
    ShiftLinear(Xor(v, b as bv32), Up(high, 8), 8);
    HighBitsMoveDown(high);
  }

  lemma XorAbove(v: bv32, b: byte, high: bv32)
    requires high < 0x100_0000
    ensures Xor(v, Above(b, high)) == Xor(Xor(v, b as bv32), Up(high, 8))
  {
  }

  lemma AboveBounds(b0: byte, b1: byte, b2: byte)
    ensures Above(b0, Above(b1, b2 as bv32)) < 0x100_0000 && Above(b1, b2 as bv32) < 0x100_0000
    ensures b2 as bv32 < 0x100_0000
  {
  }

  function Shift32(v: bv32): bv32 { Shift8(Shift8(Shift8(Shift8(v)))) }

  /** Feeding four bytes is 32 steps of the register with their word. */
  lemma FourBytes(v: bv32, b0: byte, b1: byte, b2: byte, b3: byte)
    ensures Register(v, [b0, b1, b2, b3]) == Shift32(Xor(v, WordOf(b0, b1, b2, b3)))
  {
    hide ShiftBits, Xor, Above;
    AboveBounds(b1, b2, b3);
    var s1 := Feed(v, b0);
    EntersLater(v, b0, Above(b1, Above(b2, b3 as bv32)));
    var s2 := Feed(s1, b1);
    EntersLater(s1, b1, Above(b2, b3 as bv32));
    var s3 := Feed(s2, b2);
    EntersLater(s2, b2, b3 as bv32);
    RegisterFour(v, b0, b1, b2, b3);
  }

  lemma RegisterFour(v: bv32, b0: byte, b1: byte, b2: byte, b3: byte)
    ensures Register(v, [b0, b1, b2, b3]) == Feed(Feed(Feed(Feed(v, b0), b1), b2), b3)
  {
    hide Feed;
    RegisterSnoc(v, [], b0);
    RegisterSnoc(v, [b0], b1);
    RegisterSnoc(v, [b0, b1], b2);
    RegisterSnoc(v, [b0, b1, b2], b3);
    assert [] + [b0] == [b0] && [b0] + [b1] == [b0, b1];
    assert [b0, b1] + [b2] == [b0, b1, b2] && [b0, b1, b2] + [b3] == [b0, b1, b2, b3];
  }

  lemma RegisterSnoc(v: bv32, bytes: seq<byte>, b: byte)
    ensures Register(v, bytes + [b]) == Feed(Register(v, bytes), b)
  {
  }

  lemma WordInjective(a0: byte, a1: byte, a2: byte, a3: byte, b0: byte, b1: byte, b2: byte, b3: byte)
    requires WordOf(a0, a1, a2, a3) == WordOf(b0, b1, b2, b3)
    ensures a0 == b0 && a1 == b1 && a2 == b2 && a3 == b3
  {
  }

  // ---- Detection ----

  /** From one register, four bytes and four others lead to different registers. */
  lemma FourDiffer(v: bv32, a: seq<byte>, b: seq<byte>)
    requires |a| == |b| == 4 && a != b
    ensures Register(v, a) != Register(v, b)
  {
    hide Xor, ShiftBits, WordOf, Register;
    assert a == [a[0], a[1], a[2], a[3]] && b == [b[0], b[1], b[2], b[3]];
    FourBytes(v, a[0], a[1], a[2], a[3]);
    FourBytes(v, b[0], b[1], b[2], b[3]);
    var x, y := WordOf(a[0], a[1], a[2], a[3]), WordOf(b[0], b[1], b[2], b[3]);
    if Register(v, a) == Register(v, b) {
      Shift32Injective(Xor(v, x), Xor(v, y));
      XorInjective(x, y, v);
      WordInjective(a[0], a[1], a[2], a[3], b[0], b[1], b[2], b[3]);
    }
  }

  lemma Shift32Injective(v: bv32, w: bv32)
    requires Shift32(v) == Shift32(w)
    ensures v == w
  {
    hide ShiftBits;
    ShiftInjective(Shift8(Shift8(Shift8(v))), Shift8(Shift8(Shift8(w))), 8);
    ShiftInjective(Shift8(Shift8(v)), Shift8(Shift8(w)), 8);
    ShiftInjective(Shift8(v), Shift8(w), 8);
    ShiftInjective(v, w, 8);
  }

  const NOUGHTS: seq<byte> := [0, 0, 0, 0]

  /** Up to four bytes: they differ already when zeros are put behind them. */
  lemma ShortDiffer(v: bv32, a: seq<byte>, b: seq<byte>)
    requires |a| == |b| <= 4 && a != b
    ensures Register(v, a) != Register(v, b)
  {
    hide Register;
    var zeros := NOUGHTS[..4 - |a|];
    assert (a + zeros)[..|a|] == a && (b + zeros)[..|a|] == b;
    FourDiffer(v, a + zeros, b + zeros);
    RegisterConcat(v, a, zeros);
    RegisterConcat(v, b, zeros);
  }

  /** The inputs are equal outside the bytes lo up to hi. */
  ghost predicate DifferWithin(a: seq<byte>, b: seq<byte>, lo: nat, hi: nat) {
    && |a| == |b| && lo <= hi <= |a|
    && a[..lo] == b[..lo] && a[hi..] == b[hi..]
  }

  /** Registers of inputs that differ, but only inside four consecutive bytes, differ. */
  lemma RegisterDetects(v: bv32, a: seq<byte>, b: seq<byte>, lo: nat, hi: nat)
    requires DifferWithin(a, b, lo, hi) && hi - lo <= 4 && a != b
    ensures Register(v, a) != Register(v, b)
  {
    hide Register;
    var front, back := a[..lo], a[hi..];
    assert a == front + a[lo..hi] + back && b == front + b[lo..hi] + back;
    ShortDiffer(Register(v, front), a[lo..hi], b[lo..hi]);
    RegisterConcat(v, front, a[lo..hi]);
    RegisterConcat(v, front, b[lo..hi]);
    RegisterConcat(v, front + a[lo..hi], back);
    RegisterConcat(v, front + b[lo..hi], back);
    RegisterInjective(Register(v, front + a[lo..hi]), Register(v, front + b[lo..hi]), back);
  }

  /** A burst inside four consecutive bytes of an input of any length changes its CRC. */
  lemma CrcDetectsBursts(a: seq<byte>, b: seq<byte>, lo: nat, hi: nat)
    requires DifferWithin(a, b, lo, hi) && hi - lo <= 4 && a != b
    ensures Crc(a) != Crc(b)
  {
    hide Register, Xor, DifferWithin;
    RegisterDetects(ONES, a, b, lo, hi);
    if Crc(a) == Crc(b) { XorInjective(Register(ONES, a), Register(ONES, b), ONES); }
  }

  /** Data followed by a word leaves the register at one fixed value exactly when the word is the CRC. */
  lemma CrcIsResidue(data: seq<byte>, b0: byte, b1: byte, b2: byte, b3: byte)
    ensures WordOf(b0, b1, b2, b3) == Crc(data) <==>
              Register(ONES, data + [b0, b1, b2, b3]) == Shift32(ONES)
  {
    hide Register, Xor, WordOf, Shift32;
    var r := Register(ONES, data);
    RegisterConcat(ONES, data, [b0, b1, b2, b3]);
    FourBytes(r, b0, b1, b2, b3);
    XorTwice(r);
    if Register(ONES, data + [b0, b1, b2, b3]) == Shift32(ONES) {
      Shift32Injective(Xor(r, WordOf(b0, b1, b2, b3)), ONES);
      XorInjective(WordOf(b0, b1, b2, b3), Xor(r, ONES), r);
    }
  }

  lemma XorTwice(r: bv32)
    ensures Xor(r, Xor(r, ONES)) == ONES
  {
  }

  // ---- The check value ----

  function Four(v: bv32): bv32 { ShiftBit(ShiftBit(ShiftBit(ShiftBit(v)))) }

  lemma ShiftOnce(v: bv32, n: nat)
    ensures ShiftBits(v, n + 1) == ShiftBit(ShiftBits(v, n)) && ShiftBits(v, 0) == v
  {
  }

  lemma TwiceFour(v: bv32)
    ensures Shift8(v) == Four(Four(v))
  {
    hide ShiftBit, ShiftBits;
    ShiftOnce(v, 0);
    ShiftOnce(v, 1);
    ShiftOnce(v, 2);
    ShiftOnce(v, 3);
    ShiftOnce(v, 4);
    ShiftOnce(v, 5);
    ShiftOnce(v, 6);
    ShiftOnce(v, 7);
  }

  lemma FeedAt(m: seq<byte>, i: nat, v: bv32, half: bv32, w: bv32)
    requires i < |m| && Register(ONES, m[..i]) == v && Four(Xor(v, m[i] as bv32)) == half && Four(half) == w
    ensures Register(ONES, m[..i + 1]) == w
  {
    hide Four, Xor;
    TwiceFour(Xor(v, m[i] as bv32));
    assert m[..i + 1][..i] == m[..i];
  }

  lemma CheckRegister(m: seq<byte>)
    requires |m| == 9 && m[0] == 0x31 && m[1] == 0x32 && m[2] == 0x33 && m[3] == 0x34 && m[4] == 0x35
    requires m[5] == 0x36 && m[6] == 0x37 && m[7] == 0x38 && m[8] == 0x39
    ensures Register(ONES, m) == 0x340bc6d9
  {
    hide Register;
    NothingFed(ONES);
    assert m[..0] == [] && m[..9] == m;
    FeedAt(m, 0, 0xffffffff, 0xaff51d84, 0x7c231048);
    FeedAt(m, 1, 0x7c231048, 0xd11492ef, 0xb0acbb32);
    FeedAt(m, 2, 0xb0acbb32, 0x16bddbd4, 0x77b79c2d);
    FeedAt(m, 3, 0x77b79c2d, 0xf774ea85, 0x641c1f5c);
    FeedAt(m, 4, 0x641c1f5c, 0xf64e52b2, 0x340ac5e3);
    FeedAt(m, 5, 0x340ac5e3, 0x682bfda9, 0xf68d2c9e);
    FeedAt(m, 6, 0xf68d2c9e, 0xff67418e, 0xaffc9660);
    FeedAt(m, 7, 0xaffc9660, 0xe7474a45, 0x651f2550);
    FeedAt(m, 8, 0x651f2550, 0xf65e6112, 0x340bc6d9);
  }

  /** The check value of this CRC, that of the nine characters 1 to 9. */
  lemma CheckValue()
    ensures Crc([0x31, 0x32, 0x33, 0x34, 0x35, 0x36, 0x37, 0x38, 0x39]) == 0xcbf43926
  {
    hide Register;
    CheckRegister([0x31, 0x32, 0x33, 0x34, 0x35, 0x36, 0x37, 0x38, 0x39]);
  }

  lemma NothingFed(v: bv32)
    ensures Register(v, []) == v
  {
  }
}
