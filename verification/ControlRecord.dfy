/** The control record: its 128 bytes in version 3, its 256 in version 2, and what the checks of a reader
    exclude. */
module ControlRecord {
  import opened Bytes
  import Crc32

  const MAGIC3: bv64 := 0x38314c54434d5244
  const MAGIC2: bv64 := 0x36314c54434d5244
  const V3_BYTES := 128
  const V2_BYTES := 256
  const ID_BYTES := 32
  const ID_SPACE := 64
  const TARGET_LIMIT := 32

  datatype Config = Config(generation: bv64, seed: bv64, fingerprint: bv64, mode: bv32, length: bv32, id: seq<byte>)

  function Byte(x: bv32, n: bv6): byte
    requires n <= 32
  {
    ((x >> n) & 0xff) as byte
  }

  /** Little-endian words. */
  function Le32(x: bv32): (b: seq<byte>)
    ensures |b| == 4
  {
    [Byte(x, 0), Byte(x, 8), Byte(x, 16), Byte(x, 24)]
  }

  function U32(b: seq<byte>, at: nat): bv32
    requires at + 4 <= |b|
  {
    Crc32.WordOf(b[at], b[at + 1], b[at + 2], b[at + 3])
  }

  function Low(x: bv64): bv32 { (x & 0xffff_ffff) as bv32 }

  function High(x: bv64): bv32 {
    var n: bv7 := 32;
    (x >> n) as bv32
  }

  function Join(low: bv32, high: bv32): bv64 {
    var n: bv7 := 32;
    (low as bv64) | ((high as bv64) << n)
  }

  function Le64(x: bv64): (b: seq<byte>)
    ensures |b| == 8
  {
    Le32(Low(x)) + Le32(High(x))
  }

  function U64(b: seq<byte>, at: nat): bv64
    requires at + 8 <= |b|
  {
    Join(U32(b, at), U32(b, at + 4))
  }

  // ---- Version 3 ----

  /** The bytes that the checksum covers. */
  function Head(c: Config): (h: seq<byte>)
    requires |c.id| == ID_SPACE
    ensures |h| == 120
  {
    Le64(MAGIC3) + Le32(3) + Le32(128) + Le64(c.generation) + Le64(c.seed) + Le64(c.fingerprint)
    + Le32(c.mode) + Le32(c.length) + (c.id[..ID_BYTES] + Zeros(ID_BYTES)) + Le64(0)
  }

  /** The record that the writer makes of a configuration. */
  function Record(c: Config): (r: seq<byte>)
    requires |c.id| == ID_SPACE
    ensures |r| == V3_BYTES
  {
    Head(c) + Le32(Crc32.Crc(Head(c))) + Le32(0)
  }

  predicate ValidV3(r: seq<byte>) {
    && |r| == V3_BYTES
    && U64(r, 0) == MAGIC3 && U32(r, 8) == 3 && U32(r, 12) == 128
    && U64(r, 16) != 0 && U64(r, 24) != 0 && U32(r, 40) <= 1 && U32(r, 44) == 32
    && U64(r, 32) != 0 && U64(r, 112) == 0 && U32(r, 124) == 0
    && U32(r, 120) == Crc32.Crc(r[..120])
  }

  /** What a reader makes of a valid record. */
  function ConfigOf(r: seq<byte>): (c: Config)
    requires |r| == V3_BYTES
    ensures |c.id| == ID_SPACE
  {
    Config(U64(r, 16), U64(r, 24), U64(r, 32), U32(r, 40), U32(r, 44), r[48..80] + Zeros(ID_BYTES))
  }

  /** What the writer insists on. */
  predicate Sound(c: Config) {
    && c.generation != 0 && c.seed != 0 && c.fingerprint != 0 && c.mode <= 1 && c.length == 32
    && |c.id| == ID_SPACE
  }

  /** The configuration with a zero tail behind its id. */
  function Trimmed(c: Config): Config
    requires |c.id| == ID_SPACE
  {
    c.(id := c.id[..ID_BYTES] + Zeros(ID_BYTES))
  }

  lemma Word32Returns(x: bv32)
    ensures Crc32.WordOf(Byte(x, 0), Byte(x, 8), Byte(x, 16), Byte(x, 24)) == x
  {
  }

  lemma Word64Returns(x: bv64)
    ensures Join(Low(x), High(x)) == x
  {
  }

  lemma Field32(b: seq<byte>, at: nat, x: bv32)
    requires at + 4 <= |b| && b[at..at + 4] == Le32(x)
    ensures U32(b, at) == x
  {
    hide Crc32.WordOf, Byte;
    Word32Returns(x);
    var f := b[at..at + 4];
    assert f[0] == b[at] && f[1] == b[at + 1] && f[2] == b[at + 2] && f[3] == b[at + 3];
  }

  lemma Field64(b: seq<byte>, at: nat, x: bv64)
    requires at + 8 <= |b| && b[at..at + 8] == Le64(x)
    ensures U64(b, at) == x
  {
    hide U32, Le32, Join, Low, High;
    var f := b[at..at + 8];
    assert b[at..at + 4] == f[..4] && b[at + 4..at + 8] == f[4..];
    Field32(b, at, Low(x));
    Field32(b, at + 4, High(x));
    Word64Returns(x);
  }

  lemma HeadBegins(c: Config)
    requires |c.id| == ID_SPACE
    ensures var h := Head(c);
            && h[0..8] == Le64(MAGIC3) && h[8..12] == Le32(3) && h[12..16] == Le32(128)
            && h[16..24] == Le64(c.generation) && h[24..32] == Le64(c.seed)
  {
    hide Le32, Le64, Zeros;
    var front := Le64(MAGIC3) + Le32(3) + Le32(128) + Le64(c.generation) + Le64(c.seed);
    assert Head(c)[..32] == front;
  }

  lemma Three(a: seq<byte>, b: seq<byte>, c: seq<byte>)
    ensures var s := a + b + c;
            && s[0..|a|] == a && s[|a|..|a| + |b|] == b && s[|a| + |b|..|s|] == c
  {
  }

  lemma Slice(s: seq<byte>, lo: nat, hi: nat, from: nat, to: nat)
    requires lo <= hi <= |s| && from <= to <= hi - lo
    ensures s[lo..hi][from..to] == s[lo + from..lo + to]
  {
    var a, b := s[lo..hi][from..to], s[lo + from..lo + to];
    assert |a| == |b| && forall i :: 0 <= i < |a| ==> a[i] == b[i];
  }

  /** The fingerprint, mode and length, and what is behind them. */
  function Middle(c: Config): (m: seq<byte>)
    ensures |m| == 16
  {
    Le64(c.fingerprint) + Le32(c.mode) + Le32(c.length)
  }

  function Rest(c: Config): (r: seq<byte>)
    requires |c.id| == ID_SPACE
    ensures |r| == 72
  {
    c.id[..ID_BYTES] + Zeros(ID_BYTES) + Le64(0)
  }

  lemma HeadParts(c: Config)
    requires |c.id| == ID_SPACE
    ensures Head(c)[32..48] == Middle(c) && Head(c)[48..120] == Rest(c)
  {
    hide Le32, Le64, Zeros;
    var front := Le64(MAGIC3) + Le32(3) + Le32(128) + Le64(c.generation) + Le64(c.seed);
    assert Head(c) == front + Middle(c) + Rest(c);
    Three(front, Middle(c), Rest(c));
  }

  lemma HeadEnds(c: Config)
    requires |c.id| == ID_SPACE
    ensures var h := Head(c);
            && h[32..40] == Le64(c.fingerprint) && h[40..44] == Le32(c.mode) && h[44..48] == Le32(c.length)
            && h[48..80] == c.id[..ID_BYTES] && h[112..120] == Le64(0)
  {
    hide Le32, Le64, Zeros;
    HeadParts(c);
    Three(Le64(c.fingerprint), Le32(c.mode), Le32(c.length));
    Three(c.id[..ID_BYTES], Zeros(ID_BYTES), Le64(0));
    hide Head, Middle, Rest;
    var h := Head(c);
    Slice(h, 32, 48, 0, 8);
    Slice(h, 32, 48, 8, 12);
    Slice(h, 32, 48, 12, 16);
    Slice(h, 48, 120, 0, 32);
    Slice(h, 48, 120, 64, 72);
  }

  /** Where the fields of a record are. */
  lemma FieldsOf(c: Config)
    requires |c.id| == ID_SPACE
    ensures var r := Record(c);
            && r[0..8] == Le64(MAGIC3) && r[8..12] == Le32(3) && r[12..16] == Le32(128)
            && r[16..24] == Le64(c.generation) && r[24..32] == Le64(c.seed) && r[32..40] == Le64(c.fingerprint)
            && r[40..44] == Le32(c.mode) && r[44..48] == Le32(c.length) && r[48..80] == c.id[..ID_BYTES]
            && r[112..120] == Le64(0) && r[120..124] == Le32(Crc32.Crc(Head(c))) && r[124..128] == Le32(0)
            && r[..120] == Head(c)
  {
    hide Le32, Le64, Zeros, Crc32.Crc, Head;
    HeadBegins(c);
    HeadEnds(c);
    var h := Head(c);
    forall lo, hi | 0 <= lo <= hi <= 120 ensures Record(c)[lo..hi] == h[lo..hi] {}
    assert Record(c)[120..124] == Le32(Crc32.Crc(h));
  }

  /** Reading what was written gives every field back, and the first 32 id bytes with zeros behind them. */
  lemma ReadBack(c: Config)
    requires Sound(c)
    ensures ValidV3(Record(c)) && ConfigOf(Record(c)) == Trimmed(c)
  {
    hide U32, U64, Le32, Le64, Record, Head, Crc32.Crc;
    var r := Record(c);
    FieldsOf(c);
    Field64(r, 0, MAGIC3);
    Field32(r, 8, 3);
    Field32(r, 12, 128);
    Field64(r, 16, c.generation);
    Field64(r, 24, c.seed);
    Field64(r, 32, c.fingerprint);
    Field32(r, 40, c.mode);
    Field32(r, 44, c.length);
    Field64(r, 112, 0);
    Field32(r, 120, Crc32.Crc(Head(c)));
    Field32(r, 124, 0);
  }

  /** The first sixteen bytes of every record: DRMCTL18, version 3, 128 bytes. */
  lemma RecordBegins(c: Config)
    requires |c.id| == ID_SPACE
    ensures Record(c)[..16] ==
            [0x44, 0x52, 0x4d, 0x43, 0x54, 0x4c, 0x31, 0x38, 3, 0, 0, 0, 128, 0, 0, 0]
  {
    hide Le64, Head, Crc32.Crc;
    FieldsOf(c);
    var r := Record(c);
    assert r[..16] == r[0..8] + r[8..12] + r[12..16];
    FirstBytes();
  }

  lemma FirstBytes()
    ensures Le64(MAGIC3) == [0x44, 0x52, 0x4d, 0x43, 0x54, 0x4c, 0x31, 0x38]
    ensures Le64(MAGIC2) == [0x44, 0x52, 0x4d, 0x43, 0x54, 0x4c, 0x31, 0x36]
    ensures Le32(2) == [2, 0, 0, 0] && Le32(3) == [3, 0, 0, 0]
    ensures Le32(128) == [128, 0, 0, 0] && Le32(256) == [0, 1, 0, 0]
  {
  }

  lemma Word32Is(a: byte, b: byte, c: byte, d: byte)
    ensures Le32(Crc32.WordOf(a, b, c, d)) == [a, b, c, d]
  {
  }

  lemma Word64Is(low: bv32, high: bv32)
    ensures Low(Join(low, high)) == low && High(Join(low, high)) == high
  {
  }

  /** A field that is read is the bytes that were there. */
  lemma Bytes32(b: seq<byte>, at: nat)
    requires at + 4 <= |b|
    ensures b[at..at + 4] == Le32(U32(b, at))
  {
    hide Crc32.WordOf, Le32;
    Word32Is(b[at], b[at + 1], b[at + 2], b[at + 3]);
  }

  lemma Bytes64(b: seq<byte>, at: nat)
    requires at + 8 <= |b|
    ensures b[at..at + 8] == Le64(U64(b, at))
  {
    hide U32, Le32, Join, Low, High;
    Bytes32(b, at);
    Bytes32(b, at + 4);
    Word64Is(U32(b, at), U32(b, at + 4));
    assert b[at..at + 8] == b[at..at + 4] + b[at + 4..at + 8];
  }

  /** Where the zero id tail of a record is. */
  lemma TailOf(c: Config)
    requires |c.id| == ID_SPACE
    ensures Record(c)[80..112] == Zeros(32)
  {
    hide Le32, Le64, Zeros, Crc32.Crc;
    FieldsOf(c);
    HeadParts(c);
    Three(c.id[..ID_BYTES], Zeros(ID_BYTES), Le64(0));
    var r := Record(c);
    hide Head, Record, Rest;
    assert r[80..112] == r[..120][80..112];
    Slice(r[..120], 48, 120, 32, 64);
  }

  lemma HeadOfFields(r: seq<byte>)
    requires |r| == V3_BYTES && r[80..112] == Zeros(32)
    requires U64(r, 0) == MAGIC3 && U32(r, 8) == 3 && U32(r, 12) == 128 && U64(r, 112) == 0
    ensures Head(ConfigOf(r)) == r[..120]
  {
    hide Le32, Le64, U32, U64, Zeros;
    Bytes64(r, 0);
    Bytes32(r, 8);
    Bytes32(r, 12);
    Bytes64(r, 16);
    Bytes64(r, 24);
    Bytes64(r, 32);
    Bytes32(r, 40);
    Bytes32(r, 44);
    Bytes64(r, 112);
    var c := ConfigOf(r);
    assert c.id[..ID_BYTES] == r[48..80];
    assert r[..120] == r[0..8] + r[8..12] + r[12..16] + r[16..24] + r[24..32] + r[32..40] + r[40..44] + r[44..48]
                       + (r[48..80] + r[80..112]) + r[112..120];
  }

  /** A valid record holds what the writer insists on; and the valid records with zeros behind the 32 bytes of their
      id are exactly what the writer makes of what the reader makes of them. */
  lemma ValidExactlyWhen(r: seq<byte>)
    requires |r| == 128
    ensures ValidV3(r) ==>
              && U64(r, 16) != 0 && U64(r, 24) != 0 && U64(r, 32) != 0 && U32(r, 40) <= 1 && U32(r, 44) == 32
              && Sound(ConfigOf(r))
    ensures ValidV3(r) && r[80..112] == Zeros(32) <==> Sound(ConfigOf(r)) && r == Record(ConfigOf(r))
  {
    hide U32, U64, Crc32.Crc, Head, Record;
    if ValidV3(r) && r[80..112] == Zeros(32) { RecordOfValid(r); }
    if Sound(ConfigOf(r)) && r == Record(ConfigOf(r)) {
      ReadBack(ConfigOf(r));
      TailOf(ConfigOf(r));
    }
  }

  lemma RecordOfValid(r: seq<byte>)
    requires ValidV3(r) && r[80..112] == Zeros(32)
    ensures r == Record(ConfigOf(r))
  {
    hide U32, U64, Le32, Crc32.Crc, Head;
    HeadOfFields(r);
    Bytes32(r, 120);
    Bytes32(r, 124);
    assert r == r[..120] + r[120..124] + r[124..128];
  }

  // ---- What the checksum keeps out ----

  /** A record whose last word is zero has a good checksum exactly when the register ends at one fixed value. */
  lemma GoodChecksum(r: seq<byte>)
    requires |r| == V3_BYTES
    ensures U32(r, 120) == Crc32.Crc(r[..120]) <==> Crc32.Register(Crc32.ONES, r[..124]) == Crc32.Shift32(Crc32.ONES)
  {
    hide Crc32.WordOf, Crc32.Crc, Crc32.Register, Crc32.Shift32;
    Crc32.CrcIsResidue(r[..120], r[120], r[121], r[122], r[123]);
    assert r[..124] == r[..120] + [r[120], r[121], r[122], r[123]];
  }

  lemma ZeroWord(r: seq<byte>)
    requires |r| == V3_BYTES && U32(r, 124) == 0
    ensures r[124..] == [0, 0, 0, 0]
  {
  }

  lemma BurstChangesRegister(r: seq<byte>, s: seq<byte>, lo: nat, hi: nat)
    requires |r| == |s| == V3_BYTES && r != s && Crc32.DifferWithin(r, s, lo, hi) && hi - lo <= 4
    requires r[124..] == s[124..]
    ensures Crc32.Register(Crc32.ONES, r[..124]) != Crc32.Register(Crc32.ONES, s[..124])
  {
    hide Crc32.Register;
    var a, b := r[..124], s[..124];
    assert r == a + r[124..] && s == b + s[124..];
    var from := if lo < 124 then lo else 124;
    var to := if hi < 124 then hi else 124;
    assert a[..from] == r[..lo][..from] && b[..from] == s[..lo][..from];
    forall i | to <= i < 124 ensures a[i] == b[i] {
      assert r[hi..][i - hi] == s[hi..][i - hi];
    }
    Crc32.RegisterDetects(Crc32.ONES, a, b, from, to);
  }

  /** A valid record altered in any way, but only inside four consecutive bytes, is not valid: in the fields, in
      the checksum, across the two, or in the zero word at the end. */
  lemma BurstsAreRejected(r: seq<byte>, s: seq<byte>, lo: nat, hi: nat)
    requires ValidV3(r) && r != s && Crc32.DifferWithin(r, s, lo, hi) && hi - lo <= 4
    ensures !ValidV3(s)
  {
    hide U32, U64, Crc32.Register, Crc32.Crc, Crc32.Shift32;
    ZeroWord(r);
    GoodChecksum(r);
    GoodChecksum(s);
    if U32(s, 124) == 0 {
      ZeroWord(s);
      BurstChangesRegister(r, s, lo, hi);
    }
  }

  // ---- Version 2 ----

  function AsNat(x: bv32): nat { x as int }

  function Targets(r: seq<byte>): (t: seq<nat>)
    requires |r| == V2_BYTES
    ensures |t| == TARGET_LIMIT
  {
    seq(TARGET_LIMIT, i requires 0 <= i < TARGET_LIMIT => AsNat(U32(r, 56 + 4 * i)))
  }

  /** Strictly increasing non-zero targets and then zeros; none exactly for rule mode 0. */
  predicate ValidTargets(ruleMode: nat, count: nat, targets: seq<nat>)
    requires |targets| == TARGET_LIMIT
  {
    && ruleMode <= 2 && count <= TARGET_LIMIT && (ruleMode == 0 <==> count == 0)
    && (forall i :: 0 <= i < count ==> targets[i] != 0)
    && (forall i, j :: 0 <= i < j < count ==> targets[i] < targets[j])
    && (forall i :: count <= i < TARGET_LIMIT ==> targets[i] == 0)
  }

  /** Each target is above the one before it, and the first above `below`. */
  predicate Rising(ts: seq<nat>, below: nat) {
    ts == [] || (below < ts[0] && Rising(ts[1..], ts[0]))
  }

  ghost predicate Sorted(ts: seq<nat>, below: nat) {
    && (forall i :: 0 <= i < |ts| ==> below < ts[i])
    && forall i, j :: 0 <= i < j < |ts| ==> ts[i] < ts[j]
  }

  lemma {:induction false} RisingIsSorted(ts: seq<nat>, below: nat)
    ensures Rising(ts, below) <==> Sorted(ts, below)
  {
    if ts != [] {
      RisingIsSorted(ts[1..], ts[0]);
      assert ts == [ts[0]] + ts[1..];
    }
  }

  /** A list of targets filled up with zeros is valid exactly when it rises from above zero and is empty in rule mode 0
      alone. */
  lemma TargetsExactlyWhen(ruleMode: nat, ts: seq<nat>, targets: seq<nat>)
    requires |ts| <= 32 && |targets| == 32 && targets[..|ts|] == ts && forall i :: |ts| <= i < 32 ==> targets[i] == 0
    ensures ValidTargets(ruleMode, |ts|, targets)
            <==> ruleMode in {0, 1, 2} && (ruleMode == 0 <==> ts == []) && Rising(ts, 0)
  {
    RisingIsSorted(ts, 0);
    assert forall i :: 0 <= i < |ts| ==> targets[i] == ts[i];
  }

  predicate ValidV2(r: seq<byte>) {
    && |r| == V2_BYTES
    && U64(r, 0) == MAGIC2 && U32(r, 8) == 2 && U32(r, 12) == 256
    && U64(r, 16) != 0 && U64(r, 24) != 0 && U32(r, 40) <= 1
    && ValidTargets(AsNat(U32(r, 44)), AsNat(U32(r, 48)), Targets(r))
    && U32(r, 52) == 32 && U32(r, 252) == 0
    && U32(r, 248) == Crc32.Crc(r[..248])
  }

  /** What the migration makes of a version 2 record. */
  function ConfigOfV2(r: seq<byte>): (c: Config)
    requires |r| == V2_BYTES
    ensures |c.id| == ID_SPACE
  {
    Config(U64(r, 16), U64(r, 24), U64(r, 32), U32(r, 40), U32(r, 52), r[184..216] + Zeros(ID_BYTES))
  }

  /** The generations, the mode and the id of a valid version 2 record survive, and with a fingerprint the
      record can be written; without one it cannot. */
  lemma ConversionIsSound(r: seq<byte>)
    requires ValidV2(r)
    ensures Sound(ConfigOfV2(r)) <==> U64(r, 32) != 0
    ensures Trimmed(ConfigOfV2(r)) == ConfigOfV2(r)
  {
  }

  function Words(ws: seq<bv32>): (b: seq<byte>)
    ensures |b| == 4 * |ws|
  {
    if ws == [] then [] else Words(ws[..|ws| - 1]) + Le32(ws[|ws| - 1])
  }

  lemma {:induction false} WordsAt(ws: seq<bv32>, i: nat)
    requires i < |ws|
    ensures Words(ws)[4 * i..4 * i + 4] == Le32(ws[i])
  {
    hide Le32;
    var n := |ws| - 1;
    if i < n {
      WordsAt(ws[..n], i);
      assert Words(ws)[4 * i..4 * i + 4] == Words(ws[..n])[4 * i..4 * i + 4];
    }
  }

  /** The fixed fields of a version 2 record in front of its targets. */
  function Opening2(c: Config): (f: seq<byte>)
    ensures |f| == 32
  {
    Le64(MAGIC2) + Le32(2) + Le32(256) + Le64(c.generation) + Le64(c.seed)
  }

  function Rules2(c: Config, ruleMode: bv32, count: bv32): (f: seq<byte>)
    ensures |f| == 24
  {
    Le64(c.fingerprint) + Le32(c.mode) + Le32(ruleMode) + Le32(count) + Le32(c.length)
  }

  function Head2(c: Config, ruleMode: bv32, count: bv32, targets: seq<bv32>): (h: seq<byte>)
    requires |c.id| == 64 && |targets| == 32
    ensures |h| == 248
  {
    (Opening2(c) + Rules2(c, ruleMode, count)) + (Words(targets) + c.id)
  }

  /** A record as version 2 of the module wrote it. */
  function Record2(c: Config, ruleMode: bv32, count: bv32, targets: seq<bv32>): (r: seq<byte>)
    requires |c.id| == 64 && |targets| == 32
    ensures |r| == 256
  {
    var head := Head2(c, ruleMode, count, targets);
    head + (Le32(Crc32.Crc(head)) + Le32(0))
  }

  /** The parts of five in a row, when the first three are one part of two. */
  lemma Five(a: seq<byte>, b: seq<byte>, c: seq<byte>, d: seq<byte>, e: seq<byte>)
    ensures var s := a + b + c + d + e;
            var i, j, k := |a| + |b|, |a| + |b| + |c|, |a| + |b| + |c| + |d|;
            && s[0..|a|] == a && s[|a|..i] == b && s[i..j] == c && s[j..k] == d && s[k..|s|] == e
  {
    var front := a + b + c;
    Three(a, b, c);
    Three(front, d, e);
    var s := a + b + c + d + e;
    assert s[0..|front|] == front;
    Slice(s, 0, |front|, 0, |a|);
    Slice(s, 0, |front|, |a|, |a| + |b|);
    Slice(s, 0, |front|, |a| + |b|, |front|);
  }

  lemma FieldsOfOpening2(c: Config)
    ensures var f := Opening2(c);
            && f[0..8] == Le64(MAGIC2) && f[8..12] == Le32(2) && f[12..16] == Le32(256)
            && f[16..24] == Le64(c.generation) && f[24..32] == Le64(c.seed)
  {
    hide Le32, Le64;
    Five(Le64(MAGIC2), Le32(2), Le32(256), Le64(c.generation), Le64(c.seed));
  }

  lemma FieldsOfRules2(c: Config, ruleMode: bv32, count: bv32)
    ensures var f := Rules2(c, ruleMode, count);
            && f[0..8] == Le64(c.fingerprint) && f[8..12] == Le32(c.mode) && f[12..16] == Le32(ruleMode)
            && f[16..20] == Le32(count) && f[20..24] == Le32(c.length)
  {
    hide Le32, Le64;
    Five(Le64(c.fingerprint), Le32(c.mode), Le32(ruleMode), Le32(count), Le32(c.length));
  }

  /** Where the parts of a version 2 record are. */
  lemma PartsOfRecord2(c: Config, ruleMode: bv32, count: bv32, targets: seq<bv32>)
    requires |c.id| == 64 && |targets| == 32
    ensures var r, head := Record2(c, ruleMode, count, targets), Head2(c, ruleMode, count, targets);
            && r[..248] == head && r[248..252] == Le32(Crc32.Crc(head)) && r[252..256] == Le32(0)
            && r[0..32] == Opening2(c) && r[32..56] == Rules2(c, ruleMode, count)
            && r[56..184] == Words(targets) && r[184..248] == c.id
  {
    hide Le32, Opening2, Rules2, Words, Crc32.Crc;
    var head := Head2(c, ruleMode, count, targets);
    var crc, fixed, rest := Le32(Crc32.Crc(head)), Opening2(c) + Rules2(c, ruleMode, count), Words(targets) + c.id;
    Three(head, crc, Le32(0));
    assert head + (crc + Le32(0)) == head + crc + Le32(0);
    Three(Opening2(c), Rules2(c, ruleMode, count), rest);
    assert head == Opening2(c) + Rules2(c, ruleMode, count) + rest;
    Three(fixed, Words(targets), c.id);
    assert head == fixed + Words(targets) + c.id;
    hide Head2, Record2;
    var r := Record2(c, ruleMode, count, targets);
    Slice(r, 0, 248, 0, 32);
    Slice(r, 0, 248, 32, 56);
    Slice(r, 0, 248, 56, 184);
    Slice(r, 0, 248, 184, 248);
  }

  /** Every field of a version 2 record, by its place. */
  lemma FieldsOfRecord2(c: Config, ruleMode: bv32, count: bv32, targets: seq<bv32>)
    requires |c.id| == 64 && |targets| == 32
    ensures var r := Record2(c, ruleMode, count, targets);
            && U64(r, 0) == MAGIC2 && U32(r, 8) == 2 && U32(r, 12) == 256
            && U64(r, 16) == c.generation && U64(r, 24) == c.seed && U64(r, 32) == c.fingerprint
            && U32(r, 40) == c.mode && U32(r, 44) == ruleMode && U32(r, 48) == count && U32(r, 52) == c.length
            && U32(r, 252) == 0 && U32(r, 248) == Crc32.Crc(r[..248]) && r[184..216] == c.id[..32]
  {
    hide Le32, Le64, U32, U64, Opening2, Rules2, Record2, Head2, Words, Crc32.Crc;
    var r := Record2(c, ruleMode, count, targets);
    PartsOfRecord2(c, ruleMode, count, targets);
    FieldsOfOpening2(c);
    FieldsOfRules2(c, ruleMode, count);
    Slice(r, 0, 32, 0, 8);
    Slice(r, 0, 32, 8, 12);
    Slice(r, 0, 32, 12, 16);
    Slice(r, 0, 32, 16, 24);
    Slice(r, 0, 32, 24, 32);
    Slice(r, 32, 56, 0, 8);
    Slice(r, 32, 56, 8, 12);
    Slice(r, 32, 56, 12, 16);
    Slice(r, 32, 56, 16, 20);
    Slice(r, 32, 56, 20, 24);
    Slice(r, 184, 248, 0, 32);
    Field64(r, 0, MAGIC2);
    Field32(r, 8, 2);
    Field32(r, 12, 256);
    Field64(r, 16, c.generation);
    Field64(r, 24, c.seed);
    Field64(r, 32, c.fingerprint);
    Field32(r, 40, c.mode);
    Field32(r, 44, ruleMode);
    Field32(r, 48, count);
    Field32(r, 52, c.length);
    Field32(r, 248, Crc32.Crc(Head2(c, ruleMode, count, targets)));
    Field32(r, 252, 0);
  }

  lemma TargetsOfRecord2(c: Config, ruleMode: bv32, count: bv32, targets: seq<bv32>)
    requires |c.id| == 64 && |targets| == 32
    ensures Targets(Record2(c, ruleMode, count, targets)) == seq(32, i requires 0 <= i < 32 => AsNat(targets[i]))
  {
    hide Le32, U32, Opening2, Rules2, Record2, Words, AsNat;
    var r := Record2(c, ruleMode, count, targets);
    PartsOfRecord2(c, ruleMode, count, targets);
    forall i | 0 <= i < 32 ensures U32(r, 56 + 4 * i) == targets[i] {
      WordsAt(targets, i);
      Slice(r, 56, 184, 4 * i, 4 * i + 4);
      Field32(r, 56 + 4 * i, targets[i]);
    }
  }

  /** A version 2 record with a generation, a seed, a mode and targets of that version is valid, and the migration
      keeps its fields and the first 32 bytes of its id. */
  lemma Record2ReadBack(c: Config, ruleMode: bv32, count: bv32, targets: seq<bv32>)
    requires |c.id| == 64 && |targets| == 32
    requires c.generation != 0 && c.seed != 0 && c.mode <= 1 && c.length == 32
    ensures var r := Record2(c, ruleMode, count, targets);
            && (ValidV2(r) <==> ValidTargets(AsNat(ruleMode), AsNat(count),
                                             seq(32, i requires 0 <= i < 32 => AsNat(targets[i]))))
            && ConfigOfV2(r) == Config(c.generation, c.seed, c.fingerprint, c.mode, 32, c.id[..32] + Zeros(32))
  {
    hide U32, U64, Crc32.Crc, Record2, Targets, ValidTargets, Zeros, AsNat;
    FieldsOfRecord2(c, ruleMode, count, targets);
    TargetsOfRecord2(c, ruleMode, count, targets);
  }

  // ---- The checks as the module makes them ----

  method ValidateV3(r: seq<byte>) returns (ok: bool)
    ensures ok <==> ValidV3(r)
  {
    hide U32, U64, Crc32.Crc;
    if |r| != V3_BYTES { return false; }
    var crc := Crc32.Compute(r[..120]);
    return U64(r, 0) == MAGIC3 && U32(r, 8) == 3 && U32(r, 12) == 128 && U64(r, 16) != 0 && U64(r, 24) != 0
        && U32(r, 40) <= 1 && U32(r, 44) == 32 && U64(r, 32) != 0 && U64(r, 112) == 0 && U32(r, 124) == 0
        && U32(r, 120) == crc;
  }

  method CheckTargets(ruleMode: nat, count: nat, targets: seq<nat>) returns (ok: bool)
    requires |targets| == TARGET_LIMIT
    ensures ok <==> ValidTargets(ruleMode, count, targets)
  {
    if ruleMode > 2 || count > TARGET_LIMIT { return false; }
    if (ruleMode == 0 && count != 0) || (ruleMode != 0 && count == 0) { return false; }
    for index := 0 to TARGET_LIMIT
      invariant forall i :: 0 <= i < index && i < count ==> targets[i] != 0
      invariant forall i, j :: 0 <= i < j < index && j < count ==> targets[i] < targets[j]
      invariant forall i :: count <= i < index ==> targets[i] == 0
    {
      if index < count {
        if targets[index] == 0 || (index != 0 && targets[index - 1] >= targets[index]) { return false; }
      } else if targets[index] != 0 {
        return false;
      }
    }
    return true;
  }

  method ValidateV2(r: seq<byte>) returns (ok: bool)
    ensures ok <==> ValidV2(r)
  {
    hide U32, U64, Crc32.Crc, ValidTargets, Targets, AsNat;
    if |r| != V2_BYTES { return false; }
    var targets := CheckTargets(AsNat(U32(r, 44)), AsNat(U32(r, 48)), Targets(r));
    var crc := Crc32.Compute(r[..248]);
    return U64(r, 0) == MAGIC2 && U32(r, 8) == 2 && U32(r, 12) == 256 && U64(r, 16) != 0 && U64(r, 24) != 0
        && U32(r, 40) <= 1 && targets && U32(r, 52) == 32 && U32(r, 252) == 0 && U32(r, 248) == crc;
  }
}
