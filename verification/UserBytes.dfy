/** Bytes of user memory and the little-endian words in them. */
module UserBytes {
  type octet = x: int | 0 <= x < 256

  function U16(b: seq<octet>, at: nat): nat
    requires at + 2 <= |b|
  {
    b[at] as int + 0x100 * b[at + 1] as int
  }

  function U32(b: seq<octet>, at: nat): (r: nat)
    requires at + 4 <= |b|
    ensures r < 0x1_0000_0000
  {
    U16(b, at) + 0x1_0000 * U16(b, at + 2)
  }

  function U64(b: seq<octet>, at: nat): nat
    requires at + 8 <= |b|
  {
    U32(b, at) + 0x1_0000_0000 * U32(b, at + 4)
  }

  /** The number that some bytes spell, the lowest first. */
  function Little(b: seq<octet>): nat {
    if b == [] then 0 else b[0] + 256 * Little(b[1..])
  }

  /** The loads of two, four and eight bytes read the lowest byte first. */
  lemma WordsAreLittleEndian(b: seq<octet>, at: nat)
    ensures at + 2 <= |b| ==> U16(b, at) == Little(b[at..at + 2])
    ensures at + 4 <= |b| ==> U32(b, at) == Little(b[at..at + 4])
    ensures at + 8 <= |b| ==> U64(b, at) == Little(b[at..at + 8])
  {
    if at + 2 <= |b| {
      LittleOfTwo(b, at, []);
      assert b[at..at + 2] + [] == b[at..at + 2];
    }
    if at + 4 <= |b| {
      LittleOfFour(b, at, []);
      assert b[at..at + 4] + [] == b[at..at + 4];
    }
    if at + 8 <= |b| {
      LittleOfFour(b, at, b[at + 4..at + 8]);
      LittleOfFour(b, at + 4, []);
      assert b[at + 4..at + 8] + [] == b[at + 4..at + 8];
      assert b[at..at + 4] + b[at + 4..at + 8] == b[at..at + 8];
    }
  }

  lemma LittleOn(b0: octet, tail: seq<octet>)
    ensures Little([b0] + tail) == b0 + 0x100 * Little(tail)
  {
    assert ([b0] + tail)[1..] == tail;
  }

  lemma LittleOfTwo(b: seq<octet>, at: nat, tail: seq<octet>)
    requires at + 2 <= |b|
    ensures Little(b[at..at + 2] + tail) == U16(b, at) + 0x1_0000 * Little(tail)
  {
    LittleOn(b[at + 1], tail);
    LittleOn(b[at], [b[at + 1]] + tail);
    assert b[at..at + 2] + tail == [b[at]] + ([b[at + 1]] + tail);
  }

  lemma LittleOfFour(b: seq<octet>, at: nat, tail: seq<octet>)
    requires at + 4 <= |b|
    ensures Little(b[at..at + 4] + tail) == U32(b, at) + 0x1_0000_0000 * Little(tail)
  {
    LittleOfTwo(b, at + 2, tail);
    LittleOfTwo(b, at, b[at + 2..at + 4] + tail);
    assert b[at..at + 4] + tail == b[at..at + 2] + (b[at + 2..at + 4] + tail);
  }

  // ---- Words are determined by their bytes ----

  lemma FourDigits(a0: octet, a1: octet, a2: octet, a3: octet, b0: octet, b1: octet, b2: octet, b3: octet)
    ensures a0 + 0x100 * a1 + 0x1_0000 * (a2 + 0x100 * a3) == b0 + 0x100 * b1 + 0x1_0000 * b2 + 0x100_0000 * b3
            <==> (a0, a1, a2, a3) == (b0, b1, b2, b3)
  {
    TwoDigits(a0, a1, b0, b1);
    TwoDigits(a2, a3, b2, b3);
    TwoHalves(a0 + 0x100 * a1, a2 + 0x100 * a3, b0 + 0x100 * b1, b2 + 0x100 * b3);
  }

  lemma TwoDigits(a0: octet, a1: octet, b0: octet, b1: octet)
    ensures a0 + 0x100 * a1 == b0 + 0x100 * b1 <==> (a0, a1) == (b0, b1)
  {
  }

  lemma TwoHalves(low: nat, high: nat, l: nat, h: nat)
    requires low < 0x1_0000 && l < 0x1_0000
    ensures low + 0x1_0000 * high == l + 0x1_0000 * h <==> (low, high) == (l, h)
  {
  }
}
