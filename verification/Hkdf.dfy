/** HMAC (RFC 2104) and HKDF (RFC 5869) over the streaming hash. */
module Hkdf {
  import opened Bytes
  import opened Numbers
  import Sha256

  const BLOCK := 64
  const HASH := 32
  const LIMIT := 255 * HASH

  // ---- RFC 2104, section 2 ----

  /** The key as a block: hashed first when it is longer, and filled with zeros. */
  function BlockKey(key: seq<byte>): (k: seq<byte>)
    ensures |k| == BLOCK
  {
    var short := if |key| > BLOCK then Sha256.Hash(key) else key;
    short + Zeros(BLOCK - |short|)
  }

  function Xored(key: seq<byte>, pad: byte): (r: seq<byte>)
    ensures |r| == |key|
  {
    seq(|key|, i requires 0 <= i < |key| => key[i] ^ pad)
  }

  function Hmac(key: seq<byte>, text: seq<byte>): (mac: seq<byte>)
    ensures |mac| == HASH
  {
    Sha256.Hash(Xored(BlockKey(key), 0x5c) + Sha256.Hash(Xored(BlockKey(key), 0x36) + text))
  }

  /** An absent salt is a salt of zeros, as section 2.2 of RFC 5869 has it. */
  lemma NoSaltIsZeroSalt(text: seq<byte>)
    ensures Hmac([], text) == Hmac(Zeros(HASH), text)
  {
    hide Sha256.Hash;
    assert BlockKey([]) == BlockKey(Zeros(HASH));
  }

  /** A key of more than 64 bytes is the key that is its hash. */
  lemma LongKeyIsItsHash(key: seq<byte>, text: seq<byte>)
    requires |key| > 64
    ensures Hmac(key, text) == Hmac(Sha256.Hash(key), text)
  {
    hide Sha256.Hash;
    assert BlockKey(key) == BlockKey(Sha256.Hash(key));
  }

  /** Section 2 of RFC 2104 for a key that is not longer: the hash of the outer pad and the hash of the inner pad and
      the text, the pads being the key filled with zeros, xor 0x5c and xor 0x36. */
  lemma HmacIsTwoHashes(key: seq<byte>, text: seq<byte>, inner: seq<byte>, outer: seq<byte>)
    requires |key| <= 64 && |inner| == 64 && |outer| == 64
    requires forall i :: 0 <= i < |key| ==> inner[i] == key[i] ^ 0x36 && outer[i] == key[i] ^ 0x5c
    requires forall i :: |key| <= i < 64 ==> inner[i] == 0x36 && outer[i] == 0x5c
    ensures Hmac(key, text) == Sha256.Hash(outer + Sha256.Hash(inner + text))
  {
    hide Sha256.Hash;
    forall i | 0 <= i < 64
      ensures Xored(BlockKey(key), 0x36)[i] == inner[i] && Xored(BlockKey(key), 0x5c)[i] == outer[i]
    {
      ZeroXor(0x36);
      ZeroXor(0x5c);
    }
    assert Xored(BlockKey(key), 0x36) == inner && Xored(BlockKey(key), 0x5c) == outer;
  }

  lemma ZeroXor(b: byte)
    ensures 0 ^ b == b
  {
  }

  // ---- RFC 5869, section 2.3 ----

  /** T(i), for i up to 255. */
  function Expanded(prk: seq<byte>, info: seq<byte>, i: nat): (t: seq<byte>)
    ensures |t| == if i == 0 then 0 else HASH
  {
    if i == 0 then [] else Hmac(prk, Expanded(prk, info, i - 1) + info + [Octet(i)])
  }

  /** The counter byte. */
  function Octet(i: nat): byte { (i % 256) as byte }

  /** T(1) | ... | T(n). */
  function Stream(prk: seq<byte>, info: seq<byte>, n: nat): (s: seq<byte>)
    ensures |s| == HASH * n
  {
    if n == 0 then [] else Stream(prk, info, n - 1) + Expanded(prk, info, n)
  }

  function BlocksFor(length: nat): nat { (length + HASH - 1) / HASH }

  /** The first `length` bytes of the stream, from PRK = HMAC(salt, IKM) of section 2.2. */
  function Hkdf(ikm: seq<byte>, salt: seq<byte>, info: seq<byte>, length: nat): (okm: seq<byte>)
    ensures |okm| == length
  {
    Stream(Hmac(salt, ikm), info, BlocksFor(length))[..length]
  }

  lemma {:induction false} StreamPrefix(prk: seq<byte>, info: seq<byte>, m: nat, n: nat)
    requires m <= n
    ensures Stream(prk, info, n)[..HASH * m] == Stream(prk, info, m)
    decreases n
  {
    hide Expanded;
    if m < n {
      StreamPrefix(prk, info, m, n - 1);
      assert Stream(prk, info, n)[..HASH * m] == Stream(prk, info, n - 1)[..HASH * m];
    }
  }

  /** A shorter output is a prefix of a longer one. */
  lemma ShorterIsPrefix(ikm: seq<byte>, salt: seq<byte>, info: seq<byte>, short: nat, long: nat)
    requires short <= long
    ensures Hkdf(ikm, salt, info, short) == Hkdf(ikm, salt, info, long)[..short]
  {
    hide Stream, Hmac;
    var prk := Hmac(salt, ikm);
    var m, n := BlocksFor(short), BlocksFor(long);
    StreamPrefix(prk, info, m, n);
    var s := Stream(prk, info, n);
    assert s[..HASH * m][..short] == s[..short];
    assert s[..long][..short] == s[..short];
  }

  /** Whatever n, the i-th block of the stream is T(i). */
  lemma BlockOfStream(prk: seq<byte>, info: seq<byte>, n: nat, i: nat)
    requires 0 < i <= n
    ensures Stream(prk, info, n)[HASH * (i - 1)..HASH * i] == Expanded(prk, info, i)
  {
    hide Expanded;
    StreamPrefix(prk, info, i, n);
    var s := Stream(prk, info, n);
    assert s[HASH * (i - 1)..HASH * i] == s[..HASH * i][HASH * (i - 1)..];
  }

  /** The salt is the key of the extraction: an absent one is 32 zeros, and a long one is its hash. */
  lemma SaltIsTheKey(ikm: seq<byte>, salt: seq<byte>, info: seq<byte>, length: nat)
    ensures Hkdf(ikm, [], info, length) == Hkdf(ikm, Zeros(32), info, length)
    ensures |salt| > 64 ==> Hkdf(ikm, salt, info, length) == Hkdf(ikm, Sha256.Hash(salt), info, length)
  {
    hide Hmac, Stream, Sha256.Hash;
    NoSaltIsZeroSalt(ikm);
    if |salt| > 64 { LongKeyIsItsHash(salt, ikm); }
  }

  /** Sections 2.2 and 2.3 on the output alone: its i-th 32 bytes are the HMAC, under HMAC(salt, IKM), of the 32 before
      them, the info and the byte i. */
  lemma OutputIsChained(ikm: seq<byte>, salt: seq<byte>, info: seq<byte>, length: nat, i: nat)
    requires 0 < i <= 255 && 32 * i <= length
    ensures var okm := Hkdf(ikm, salt, info, length);
            var before := if i == 1 then [] else okm[32 * (i - 2)..32 * (i - 1)];
            okm[32 * (i - 1)..32 * i] == Hmac(Hmac(salt, ikm), before + info + [i as byte])
  {
    hide Hmac, Stream, Expanded, Octet;
    var prk, n := Hmac(salt, ikm), BlocksFor(length);
    var all := Stream(prk, info, n);
    BlockOfStream(prk, info, n, i);
    SliceOfPrefix(all, length, 32 * (i - 1), 32 * i);
    ExpandOnce(prk, info, i - 1);
    OctetOf(i);
    if i == 1 {
      NothingExpanded(prk, info);
    } else {
      BlockOfStream(prk, info, n, i - 1);
      SliceOfPrefix(all, length, 32 * (i - 2), 32 * (i - 1));
    }
  }

  lemma SliceOfPrefix(s: seq<byte>, n: nat, lo: nat, hi: nat)
    requires lo <= hi <= n <= |s|
    ensures s[..n][lo..hi] == s[lo..hi]
  {
  }

  // ---- The module's functions ----

  method Sha256Of(data: seq<byte>) returns (digest: seq<byte>)
    ensures digest == Sha256.Hash(data)
  {
    hide Sha256.Hash;
    var hasher := new Sha256.Hasher();
    assert [] + data == data;
    hasher.Update(data);
    digest := hasher.Finish();
  }

  /** Two pieces through one hash object. */
  method Sha256OfBoth(first: seq<byte>, second: seq<byte>) returns (digest: seq<byte>)
    ensures digest == Sha256.Hash(first + second)
  {
    hide Sha256.Hash, Sha256.Hasher.Valid;
    var hasher := new Sha256.Hasher();
    assert [] + first == first;
    hasher.Update(first);
    hasher.Update(second);
    digest := hasher.Finish();
  }

  method HmacSha256(key: seq<byte>, data: seq<byte>) returns (mac: seq<byte>)
    ensures mac == Hmac(key, data)
  {
    hide Sha256.Hash, BlockKey, Xored;
    var normalized := NormalizeKey(key);
    var innerPad, outerPad := Pads(normalized);
    var innerDigest := Sha256OfBoth(innerPad, data);
    mac := Sha256OfBoth(outerPad, innerDigest);
  }

  method NormalizeKey(key: seq<byte>) returns (block: seq<byte>)
    ensures block == BlockKey(key)
  {
    hide Sha256.Hash;
    var normalized := new byte[BLOCK](_ => 0);
    var short := key;
    if |key| > BLOCK { short := Sha256Of(key); }
    for i := 0 to |short|
      invariant normalized[..] == short[..i] + Zeros(BLOCK - i)
    {
      normalized[i] := short[i];
    }
    block := normalized[..];
  }

  method Pads(key: seq<byte>) returns (inner: seq<byte>, outer: seq<byte>)
    ensures inner == Xored(key, 0x36) && outer == Xored(key, 0x5c)
  {
    var innerPad := new byte[|key|];
    var outerPad := new byte[|key|];
    for i := 0 to |key|
      invariant forall j :: 0 <= j < i ==> innerPad[j] == key[j] ^ 0x36 && outerPad[j] == key[j] ^ 0x5c
    {
      innerPad[i] := key[i] ^ 0x36;
      outerPad[i] := key[i] ^ 0x5c;
    }
    inner, outer := innerPad[..], outerPad[..];
  }

  /** The output is filled block by block. The one-byte counter holds the number of the block each time it is
      used: it can only wrap behind the last. */
  method HkdfSha256(ikm: seq<byte>, salt: seq<byte>, info: seq<byte>, output: array<byte>) returns (ok: bool)
    modifies output
    ensures ok <==> output.Length <= 8160
    ensures output[..] == if ok then Hkdf(ikm, salt, info, output.Length) else old(output[..])
  {
    hide Hmac, Expanded, Stream, Octet;
    if output.Length > LIMIT { return false; }
    var prk := HmacSha256(salt, ikm);
    var previous: seq<byte> := [];
    var produced := 0;
    var counter := 1;
    ghost var n := 0;
    NothingExpanded(prk, info);
    while produced < output.Length
      invariant n <= 255 && counter == (n + 1) % 256
      invariant produced == Min(HASH * n, output.Length)
      invariant HASH * n < output.Length + HASH
      invariant previous == Expanded(prk, info, n)
      invariant output[..produced] == Stream(prk, info, n)[..produced]
    {
      assert counter == n + 1;
      OctetOf(n + 1);
      ExpandOnce(prk, info, n);
      var input := previous + info + [counter as byte];
      counter := (counter + 1) % 256;
      previous := HmacSha256(prk, input);
      produced := Emit(output, produced, previous, Stream(prk, info, n));
      StreamOnce(prk, info, n);
      n := n + 1;
    }
    assert n == BlocksFor(output.Length);
    return true;
  }

  /** One block more of the output, or what there is room for. */
  method Emit(output: array<byte>, produced: nat, block: seq<byte>, ghost stream: seq<byte>) returns (total: nat)
    requires produced == |stream| < output.Length && |block| == HASH && output[..produced] == stream
    modifies output
    ensures total == Min(produced + HASH, output.Length) && output[..total] == (stream + block)[..total]
  {
    var take := Min(HASH, output.Length - produced);
    for i := 0 to take
      invariant output[..produced + i] == stream + block[..i]
    {
      output[produced + i] := block[i];
    }
    total := produced + take;
    assert (stream + block)[..total] == stream + block[..take];
  }

  lemma OctetOf(i: nat)
    requires i < 256
    ensures Octet(i) == i as byte
  {
  }

  lemma NothingExpanded(prk: seq<byte>, info: seq<byte>)
    ensures Expanded(prk, info, 0) == [] && Stream(prk, info, 0) == []
  {
  }

  lemma ExpandOnce(prk: seq<byte>, info: seq<byte>, n: nat)
    ensures Expanded(prk, info, n + 1) == Hmac(prk, Expanded(prk, info, n) + info + [Octet(n + 1)])
  {
  }

  lemma StreamOnce(prk: seq<byte>, info: seq<byte>, n: nat)
    ensures Stream(prk, info, n + 1) == Stream(prk, info, n) + Expanded(prk, info, n + 1)
  {
  }
}
