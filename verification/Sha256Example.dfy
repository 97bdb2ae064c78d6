/** The one-block example of FIPS 180-4: the digest of the message "abc", a few words and turns at a time. */
module Sha256Example {
  import opened Bytes
  import opened Sha256

  /** The padded message. */
  predicate IsBlock(b: seq<byte>) {
    && |b| == 64 && b[0] == 0x61 && b[1] == 0x62 && b[2] == 0x63 && b[3] == 0x80 && b[63] == 0x18
    && forall i :: 4 <= i < 63 ==> b[i] == 0
  }

  lemma BlockSize(b: seq<byte>)
    requires IsBlock(b)
    ensures |b| == 64
  {
  }

  // ---- The schedule ----

  lemma EndWords(b: seq<byte>, t: nat)
    requires IsBlock(b) && (t == 0 || t == 15)
    ensures Schedule(b, t) == if t == 0 then 0x61626380 else 0x18
  {
    ScheduleStep(b, t);
  }

  lemma ZeroWords(b: seq<byte>, i: nat)
    requires IsBlock(b) && 1 <= i < 15
    ensures Schedule(b, i) == 0
  {
    ScheduleStep(b, i);
  }

  /** Eight words of the schedule. */
  predicate WordsAre(b: seq<byte>, t: nat, w0: word, w1: word, w2: word, w3: word, w4: word, w5: word, w6: word,
                     w7: word)
    requires |b| == 64
  {
    && Schedule(b, t) == w0 && Schedule(b, t + 1) == w1
    && Schedule(b, t + 2) == w2 && Schedule(b, t + 3) == w3
    && Schedule(b, t + 4) == w4 && Schedule(b, t + 5) == w5
    && Schedule(b, t + 6) == w6 && Schedule(b, t + 7) == w7
  }

  lemma Word(b: seq<byte>, t: nat, w16: word, w15: word, w7: word, w2: word, w: word)
    requires |b| == 64 && t >= 16
    requires Schedule(b, t - 16) == w16 && Schedule(b, t - 15) == w15
    requires Schedule(b, t - 7) == w7 && Schedule(b, t - 2) == w2
    requires Plus(Plus(Plus(w16, SmallSigma0(w15)), w7), SmallSigma1(w2)) == w
    ensures Schedule(b, t) == w
  {
    ScheduleStep(b, t);
  }

  lemma Words16(b: seq<byte>)
    requires IsBlock(b)
    ensures |b| == 64
    ensures WordsAre(b, 16, 0x61626380, 0x000f0000, 0x7da86405, 0x600003c6,
                     0x3e9d7b78, 0x0183fc00, 0x12dcbfdb, 0xe2e2c38e)
  {
    hide IsBlock, Schedule;
    BlockSize(b);
    EndWords(b, 0);
    EndWords(b, 15);
    ZeroWords(b, 1); ZeroWords(b, 2); ZeroWords(b, 3); ZeroWords(b, 4); ZeroWords(b, 5);
    ZeroWords(b, 6); ZeroWords(b, 7); ZeroWords(b, 8); ZeroWords(b, 9); ZeroWords(b, 10);
    ZeroWords(b, 11); ZeroWords(b, 12); ZeroWords(b, 13); ZeroWords(b, 14);
    Word(b, 16, 0x61626380, 0x00000000, 0x00000000, 0x00000000, 0x61626380);
    Word(b, 17, 0x00000000, 0x00000000, 0x00000000, 0x00000018, 0x000f0000);
    Word(b, 18, 0x00000000, 0x00000000, 0x00000000, 0x61626380, 0x7da86405);
    Word(b, 19, 0x00000000, 0x00000000, 0x00000000, 0x000f0000, 0x600003c6);
    Word(b, 20, 0x00000000, 0x00000000, 0x00000000, 0x7da86405, 0x3e9d7b78);
    Word(b, 21, 0x00000000, 0x00000000, 0x00000000, 0x600003c6, 0x0183fc00);
    Word(b, 22, 0x00000000, 0x00000000, 0x00000018, 0x3e9d7b78, 0x12dcbfdb);
    Word(b, 23, 0x00000000, 0x00000000, 0x61626380, 0x0183fc00, 0xe2e2c38e);
  }

  lemma Words24(b: seq<byte>)
    requires IsBlock(b)
    ensures |b| == 64
    ensures WordsAre(b, 24, 0xc8215c1a, 0xb73679a2, 0xe5bc3909, 0x32663c5b,
                     0x9d209d67, 0xec8726cb, 0x702138a4, 0xd3b7973b)
  {
    hide IsBlock, Schedule;
    BlockSize(b);
    Words16(b);
    EndWords(b, 15);
    ZeroWords(b, 8); ZeroWords(b, 9); ZeroWords(b, 10); ZeroWords(b, 11); ZeroWords(b, 12);
    ZeroWords(b, 13); ZeroWords(b, 14);
    Word(b, 24, 0x00000000, 0x00000000, 0x000f0000, 0x12dcbfdb, 0xc8215c1a);
    Word(b, 25, 0x00000000, 0x00000000, 0x7da86405, 0xe2e2c38e, 0xb73679a2);
    Word(b, 26, 0x00000000, 0x00000000, 0x600003c6, 0xc8215c1a, 0xe5bc3909);
    Word(b, 27, 0x00000000, 0x00000000, 0x3e9d7b78, 0xb73679a2, 0x32663c5b);
    Word(b, 28, 0x00000000, 0x00000000, 0x0183fc00, 0xe5bc3909, 0x9d209d67);
    Word(b, 29, 0x00000000, 0x00000000, 0x12dcbfdb, 0x32663c5b, 0xec8726cb);
    Word(b, 30, 0x00000000, 0x00000018, 0xe2e2c38e, 0x9d209d67, 0x702138a4);
    Word(b, 31, 0x00000018, 0x61626380, 0xc8215c1a, 0xec8726cb, 0xd3b7973b);
  }

  lemma Words32(b: seq<byte>)
    requires IsBlock(b)
    ensures |b| == 64
    ensures WordsAre(b, 32, 0x93f5997f, 0x3b68ba73, 0xaff4ffc1, 0xf10a5c62,
                     0x0a8b3996, 0x72af830a, 0x9409e33e, 0x24641522)
  {
    hide IsBlock, Schedule;
    BlockSize(b);
    Words24(b);
    Words16(b);
    Word(b, 32, 0x61626380, 0x000f0000, 0xb73679a2, 0x702138a4, 0x93f5997f);
    Word(b, 33, 0x000f0000, 0x7da86405, 0xe5bc3909, 0xd3b7973b, 0x3b68ba73);
    Word(b, 34, 0x7da86405, 0x600003c6, 0x32663c5b, 0x93f5997f, 0xaff4ffc1);
    Word(b, 35, 0x600003c6, 0x3e9d7b78, 0x9d209d67, 0x3b68ba73, 0xf10a5c62);
    Word(b, 36, 0x3e9d7b78, 0x0183fc00, 0xec8726cb, 0xaff4ffc1, 0x0a8b3996);
    Word(b, 37, 0x0183fc00, 0x12dcbfdb, 0x702138a4, 0xf10a5c62, 0x72af830a);
    Word(b, 38, 0x12dcbfdb, 0xe2e2c38e, 0xd3b7973b, 0x0a8b3996, 0x9409e33e);
    Word(b, 39, 0xe2e2c38e, 0xc8215c1a, 0x93f5997f, 0x72af830a, 0x24641522);
  }

  lemma Words40(b: seq<byte>)
    requires IsBlock(b)
    ensures |b| == 64
    ensures WordsAre(b, 40, 0x9f47bf94, 0xf0a64f5a, 0x3e246a79, 0x27333ba3,
                     0x0c4763f2, 0x840abf27, 0x7a290d5d, 0x065c43da)
  {
    hide IsBlock, Schedule;
    BlockSize(b);
    Words32(b);
    Words24(b);
    Word(b, 40, 0xc8215c1a, 0xb73679a2, 0x3b68ba73, 0x9409e33e, 0x9f47bf94);
    Word(b, 41, 0xb73679a2, 0xe5bc3909, 0xaff4ffc1, 0x24641522, 0xf0a64f5a);
    Word(b, 42, 0xe5bc3909, 0x32663c5b, 0xf10a5c62, 0x9f47bf94, 0x3e246a79);
    Word(b, 43, 0x32663c5b, 0x9d209d67, 0x0a8b3996, 0xf0a64f5a, 0x27333ba3);
    Word(b, 44, 0x9d209d67, 0xec8726cb, 0x72af830a, 0x3e246a79, 0x0c4763f2);
    Word(b, 45, 0xec8726cb, 0x702138a4, 0x9409e33e, 0x27333ba3, 0x840abf27);
    Word(b, 46, 0x702138a4, 0xd3b7973b, 0x24641522, 0x0c4763f2, 0x7a290d5d);
    Word(b, 47, 0xd3b7973b, 0x93f5997f, 0x9f47bf94, 0x840abf27, 0x065c43da);
  }

  lemma Words48(b: seq<byte>)
    requires IsBlock(b)
    ensures |b| == 64
    ensures WordsAre(b, 48, 0xfb3e89cb, 0xcc7617db, 0xb9e66c34, 0xa9993667,
                     0x84badedd, 0xc21462bc, 0x1487472c, 0xb20f7a99)
  {
    hide IsBlock, Schedule;
    BlockSize(b);
    Words40(b);
    Words32(b);
    Word(b, 48, 0x93f5997f, 0x3b68ba73, 0xf0a64f5a, 0x7a290d5d, 0xfb3e89cb);
    Word(b, 49, 0x3b68ba73, 0xaff4ffc1, 0x3e246a79, 0x065c43da, 0xcc7617db);
    Word(b, 50, 0xaff4ffc1, 0xf10a5c62, 0x27333ba3, 0xfb3e89cb, 0xb9e66c34);
    Word(b, 51, 0xf10a5c62, 0x0a8b3996, 0x0c4763f2, 0xcc7617db, 0xa9993667);
    Word(b, 52, 0x0a8b3996, 0x72af830a, 0x840abf27, 0xb9e66c34, 0x84badedd);
    Word(b, 53, 0x72af830a, 0x9409e33e, 0x7a290d5d, 0xa9993667, 0xc21462bc);
    Word(b, 54, 0x9409e33e, 0x24641522, 0x065c43da, 0x84badedd, 0x1487472c);
    Word(b, 55, 0x24641522, 0x9f47bf94, 0xfb3e89cb, 0xc21462bc, 0xb20f7a99);
  }

  lemma Words56(b: seq<byte>)
    requires IsBlock(b)
    ensures |b| == 64
    ensures WordsAre(b, 56, 0xef57b9cd, 0xebe6b238, 0x9fe3095e, 0x78bc8d4b,
                     0xa43fcf15, 0x668b2ff8, 0xeeaba2cc, 0x12b1edeb)
  {
    hide IsBlock, Schedule;
    BlockSize(b);
    Words48(b);
    Words40(b);
    Word(b, 56, 0x9f47bf94, 0xf0a64f5a, 0xcc7617db, 0x1487472c, 0xef57b9cd);
    Word(b, 57, 0xf0a64f5a, 0x3e246a79, 0xb9e66c34, 0xb20f7a99, 0xebe6b238);
    Word(b, 58, 0x3e246a79, 0x27333ba3, 0xa9993667, 0xef57b9cd, 0x9fe3095e);
    Word(b, 59, 0x27333ba3, 0x0c4763f2, 0x84badedd, 0xebe6b238, 0x78bc8d4b);
    Word(b, 60, 0x0c4763f2, 0x840abf27, 0xc21462bc, 0x9fe3095e, 0xa43fcf15);
    Word(b, 61, 0x840abf27, 0x7a290d5d, 0x1487472c, 0x78bc8d4b, 0x668b2ff8);
    Word(b, 62, 0x7a290d5d, 0x065c43da, 0xb20f7a99, 0xa43fcf15, 0xeeaba2cc);
    Word(b, 63, 0x065c43da, 0xfb3e89cb, 0xef57b9cd, 0x668b2ff8, 0x12b1edeb);
  }

  // ---- The turns ----

  /** The working variables after t turns. */
  function At(b: seq<byte>, t: nat): Vars
    requires |b| == 64 && t <= 64
  {
    Rounds(AsVars(Initial()), b, t)
  }

  lemma Turn(b: seq<byte>, t: nat, before: Vars, k: word, w: word, after: Vars)
    requires |b| == 64 && t < 64 && At(b, t) == before && Constants()[t] == k && Schedule(b, t) == w
    requires Round(before, k, w) == after
    ensures At(b, t + 1) == after
  {
    OneRound(AsVars(Initial()), b, t);
  }

  lemma Turns0(b: seq<byte>)
    requires |b| == 64
    ensures At(b, 0) == Vars(0x6a09e667, 0xbb67ae85, 0x3c6ef372, 0xa54ff53a,
                             0x510e527f, 0x9b05688c, 0x1f83d9ab, 0x5be0cd19)
  {
  }

  lemma Turns4(b: seq<byte>)
    requires IsBlock(b)
    ensures |b| == 64
    ensures At(b, 4) == Vars(0xd550f666, 0xc8c347a7, 0x5a6ad9ad, 0x5d6aebcd,
                             0x24e00850, 0xf92939eb, 0x78ce7989, 0xfa2a4622)
  {
    hide IsBlock, Schedule, At;
    BlockSize(b);
    EndWords(b, 0);
    ZeroWords(b, 1); ZeroWords(b, 2); ZeroWords(b, 3);
    Turns0(b);
    var v0 := Vars(0x6a09e667, 0xbb67ae85, 0x3c6ef372, 0xa54ff53a, 0x510e527f, 0x9b05688c, 0x1f83d9ab, 0x5be0cd19);
    var v1 := Vars(0x5d6aebcd, 0x6a09e667, 0xbb67ae85, 0x3c6ef372, 0xfa2a4622, 0x510e527f, 0x9b05688c, 0x1f83d9ab);
    var v2 := Vars(0x5a6ad9ad, 0x5d6aebcd, 0x6a09e667, 0xbb67ae85, 0x78ce7989, 0xfa2a4622, 0x510e527f, 0x9b05688c);
    var v3 := Vars(0xc8c347a7, 0x5a6ad9ad, 0x5d6aebcd, 0x6a09e667, 0xf92939eb, 0x78ce7989, 0xfa2a4622, 0x510e527f);
    var v4 := Vars(0xd550f666, 0xc8c347a7, 0x5a6ad9ad, 0x5d6aebcd, 0x24e00850, 0xf92939eb, 0x78ce7989, 0xfa2a4622);
    Turn(b, 0, v0, 0x428a2f98, 0x61626380, v1);
    Turn(b, 1, v1, 0x71374491, 0x00000000, v2);
    Turn(b, 2, v2, 0xb5c0fbcf, 0x00000000, v3);
    Turn(b, 3, v3, 0xe9b5dba5, 0x00000000, v4);
  }

  lemma Turns8(b: seq<byte>)
    requires IsBlock(b)
    ensures |b| == 64
    ensures At(b, 8) == Vars(0x85a07b5f, 0xe5030380, 0x2b4209f5, 0x04409a6a,
                             0x0c657a79, 0x9b27a401, 0x714260ad, 0x43ada245)
  {
    hide IsBlock, Schedule, At;
    BlockSize(b);
    ZeroWords(b, 4); ZeroWords(b, 5); ZeroWords(b, 6); ZeroWords(b, 7);
    Turns4(b);
    var v0 := Vars(0xd550f666, 0xc8c347a7, 0x5a6ad9ad, 0x5d6aebcd, 0x24e00850, 0xf92939eb, 0x78ce7989, 0xfa2a4622);
    var v1 := Vars(0x04409a6a, 0xd550f666, 0xc8c347a7, 0x5a6ad9ad, 0x43ada245, 0x24e00850, 0xf92939eb, 0x78ce7989);
    var v2 := Vars(0x2b4209f5, 0x04409a6a, 0xd550f666, 0xc8c347a7, 0x714260ad, 0x43ada245, 0x24e00850, 0xf92939eb);
    var v3 := Vars(0xe5030380, 0x2b4209f5, 0x04409a6a, 0xd550f666, 0x9b27a401, 0x714260ad, 0x43ada245, 0x24e00850);
    var v4 := Vars(0x85a07b5f, 0xe5030380, 0x2b4209f5, 0x04409a6a, 0x0c657a79, 0x9b27a401, 0x714260ad, 0x43ada245);
    Turn(b, 4, v0, 0x3956c25b, 0x00000000, v1);
    Turn(b, 5, v1, 0x59f111f1, 0x00000000, v2);
    Turn(b, 6, v2, 0x923f82a4, 0x00000000, v3);
    Turn(b, 7, v3, 0xab1c5ed5, 0x00000000, v4);
  }

  lemma Turns12(b: seq<byte>)
    requires IsBlock(b)
    ensures |b| == 64
    ensures At(b, 12) == Vars(0xf71fc5a9, 0x4798a3f4, 0x8c87346b, 0x8e04ecb9,
                              0x816fd6e9, 0x436b23e8, 0x1cc92596, 0x32ca2d8c)
  {
    hide IsBlock, Schedule, At;
    BlockSize(b);
    ZeroWords(b, 8); ZeroWords(b, 9); ZeroWords(b, 10); ZeroWords(b, 11);
    Turns8(b);
    var v0 := Vars(0x85a07b5f, 0xe5030380, 0x2b4209f5, 0x04409a6a, 0x0c657a79, 0x9b27a401, 0x714260ad, 0x43ada245);
    var v1 := Vars(0x8e04ecb9, 0x85a07b5f, 0xe5030380, 0x2b4209f5, 0x32ca2d8c, 0x0c657a79, 0x9b27a401, 0x714260ad);
    var v2 := Vars(0x8c87346b, 0x8e04ecb9, 0x85a07b5f, 0xe5030380, 0x1cc92596, 0x32ca2d8c, 0x0c657a79, 0x9b27a401);
    var v3 := Vars(0x4798a3f4, 0x8c87346b, 0x8e04ecb9, 0x85a07b5f, 0x436b23e8, 0x1cc92596, 0x32ca2d8c, 0x0c657a79);
    var v4 := Vars(0xf71fc5a9, 0x4798a3f4, 0x8c87346b, 0x8e04ecb9, 0x816fd6e9, 0x436b23e8, 0x1cc92596, 0x32ca2d8c);
    Turn(b, 8, v0, 0xd807aa98, 0x00000000, v1);
    Turn(b, 9, v1, 0x12835b01, 0x00000000, v2);
    Turn(b, 10, v2, 0x243185be, 0x00000000, v3);
    Turn(b, 11, v3, 0x550c7dc3, 0x00000000, v4);
  }

  lemma Turns16(b: seq<byte>)
    requires IsBlock(b)
    ensures |b| == 64
    ensures At(b, 16) == Vars(0xb0fa238e, 0xc0645fde, 0xd932eb16, 0x87912990,
                              0x07590dcd, 0x0b92f20c, 0x745a48de, 0x1e578218)
  {
    hide IsBlock, Schedule, At;
    BlockSize(b);
    EndWords(b, 15);
    ZeroWords(b, 12); ZeroWords(b, 13); ZeroWords(b, 14);
    Turns12(b);
    var v0 := Vars(0xf71fc5a9, 0x4798a3f4, 0x8c87346b, 0x8e04ecb9, 0x816fd6e9, 0x436b23e8, 0x1cc92596, 0x32ca2d8c);
    var v1 := Vars(0x87912990, 0xf71fc5a9, 0x4798a3f4, 0x8c87346b, 0x1e578218, 0x816fd6e9, 0x436b23e8, 0x1cc92596);
    var v2 := Vars(0xd932eb16, 0x87912990, 0xf71fc5a9, 0x4798a3f4, 0x745a48de, 0x1e578218, 0x816fd6e9, 0x436b23e8);
    var v3 := Vars(0xc0645fde, 0xd932eb16, 0x87912990, 0xf71fc5a9, 0x0b92f20c, 0x745a48de, 0x1e578218, 0x816fd6e9);
    var v4 := Vars(0xb0fa238e, 0xc0645fde, 0xd932eb16, 0x87912990, 0x07590dcd, 0x0b92f20c, 0x745a48de, 0x1e578218);
    Turn(b, 12, v0, 0x72be5d74, 0x00000000, v1);
    Turn(b, 13, v1, 0x80deb1fe, 0x00000000, v2);
    Turn(b, 14, v2, 0x9bdc06a7, 0x00000000, v3);
    Turn(b, 15, v3, 0xc19bf174, 0x00000018, v4);
  }

  lemma Turns24(b: seq<byte>)
    requires IsBlock(b)
    ensures |b| == 64
    ensures At(b, 24) == Vars(0xc5d53d8d, 0xa7a3623f, 0xc2606d6d, 0x9dc68b63,
                              0xaa47c347, 0x49f5114a, 0xe1257970, 0x8ada8930)
  {
    hide IsBlock, Schedule, At;
    BlockSize(b);
    Words16(b);
    Turns16(b);
    var v0 := Vars(0xb0fa238e, 0xc0645fde, 0xd932eb16, 0x87912990, 0x07590dcd, 0x0b92f20c, 0x745a48de, 0x1e578218);
    var v1 := Vars(0x21da9a9b, 0xb0fa238e, 0xc0645fde, 0xd932eb16, 0x8034229c, 0x07590dcd, 0x0b92f20c, 0x745a48de);
    var v2 := Vars(0xc2fbd9d1, 0x21da9a9b, 0xb0fa238e, 0xc0645fde, 0x846ee454, 0x8034229c, 0x07590dcd, 0x0b92f20c);
    var v3 := Vars(0xfe777bbf, 0xc2fbd9d1, 0x21da9a9b, 0xb0fa238e, 0xcc899961, 0x846ee454, 0x8034229c, 0x07590dcd);
    var v4 := Vars(0xe1f20c33, 0xfe777bbf, 0xc2fbd9d1, 0x21da9a9b, 0xb0638179, 0xcc899961, 0x846ee454, 0x8034229c);
    var v5 := Vars(0x9dc68b63, 0xe1f20c33, 0xfe777bbf, 0xc2fbd9d1, 0x8ada8930, 0xb0638179, 0xcc899961, 0x846ee454);
    var v6 := Vars(0xc2606d6d, 0x9dc68b63, 0xe1f20c33, 0xfe777bbf, 0xe1257970, 0x8ada8930, 0xb0638179, 0xcc899961);
    var v7 := Vars(0xa7a3623f, 0xc2606d6d, 0x9dc68b63, 0xe1f20c33, 0x49f5114a, 0xe1257970, 0x8ada8930, 0xb0638179);
    var v8 := Vars(0xc5d53d8d, 0xa7a3623f, 0xc2606d6d, 0x9dc68b63, 0xaa47c347, 0x49f5114a, 0xe1257970, 0x8ada8930);
    Turn(b, 16, v0, 0xe49b69c1, 0x61626380, v1);
    Turn(b, 17, v1, 0xefbe4786, 0x000f0000, v2);
    Turn(b, 18, v2, 0x0fc19dc6, 0x7da86405, v3);
    Turn(b, 19, v3, 0x240ca1cc, 0x600003c6, v4);
    Turn(b, 20, v4, 0x2de92c6f, 0x3e9d7b78, v5);
    Turn(b, 21, v5, 0x4a7484aa, 0x0183fc00, v6);
    Turn(b, 22, v6, 0x5cb0a9dc, 0x12dcbfdb, v7);
    Turn(b, 23, v7, 0x76f988da, 0xe2e2c38e, v8);
  }

  lemma Turns32(b: seq<byte>)
    requires IsBlock(b)
    ensures |b| == 64
    ensures At(b, 32) == Vars(0x73b33bf5, 0xea992a22, 0xa0060b30, 0x363482c9,
                              0xba591112, 0x0109ab3a, 0xade79437, 0x6112a3b7)
  {
    hide IsBlock, Schedule, At;
    BlockSize(b);
    Words24(b);
    Turns24(b);
    var v0 := Vars(0xc5d53d8d, 0xa7a3623f, 0xc2606d6d, 0x9dc68b63, 0xaa47c347, 0x49f5114a, 0xe1257970, 0x8ada8930);
    var v1 := Vars(0x1c2c2838, 0xc5d53d8d, 0xa7a3623f, 0xc2606d6d, 0x2823ef91, 0xaa47c347, 0x49f5114a, 0xe1257970);
    var v2 := Vars(0xcde8037d, 0x1c2c2838, 0xc5d53d8d, 0xa7a3623f, 0x14383d8e, 0x2823ef91, 0xaa47c347, 0x49f5114a);
    var v3 := Vars(0xb62ec4bc, 0xcde8037d, 0x1c2c2838, 0xc5d53d8d, 0xc74c6516, 0x14383d8e, 0x2823ef91, 0xaa47c347);
    var v4 := Vars(0x77d37528, 0xb62ec4bc, 0xcde8037d, 0x1c2c2838, 0xedffbff8, 0xc74c6516, 0x14383d8e, 0x2823ef91);
    var v5 := Vars(0x363482c9, 0x77d37528, 0xb62ec4bc, 0xcde8037d, 0x6112a3b7, 0xedffbff8, 0xc74c6516, 0x14383d8e);
    var v6 := Vars(0xa0060b30, 0x363482c9, 0x77d37528, 0xb62ec4bc, 0xade79437, 0x6112a3b7, 0xedffbff8, 0xc74c6516);
    var v7 := Vars(0xea992a22, 0xa0060b30, 0x363482c9, 0x77d37528, 0x0109ab3a, 0xade79437, 0x6112a3b7, 0xedffbff8);
    var v8 := Vars(0x73b33bf5, 0xea992a22, 0xa0060b30, 0x363482c9, 0xba591112, 0x0109ab3a, 0xade79437, 0x6112a3b7);
    Turn(b, 24, v0, 0x983e5152, 0xc8215c1a, v1);
    Turn(b, 25, v1, 0xa831c66d, 0xb73679a2, v2);
    Turn(b, 26, v2, 0xb00327c8, 0xe5bc3909, v3);
    Turn(b, 27, v3, 0xbf597fc7, 0x32663c5b, v4);
    Turn(b, 28, v4, 0xc6e00bf3, 0x9d209d67, v5);
    Turn(b, 29, v5, 0xd5a79147, 0xec8726cb, v6);
    Turn(b, 30, v6, 0x06ca6351, 0x702138a4, v7);
    Turn(b, 31, v7, 0x14292967, 0xd3b7973b, v8);
  }

  lemma Turns40(b: seq<byte>)
    requires IsBlock(b)
    ensures |b| == 64
    ensures At(b, 40) == Vars(0x79ea687a, 0x6dc57a8a, 0x34df1604, 0x41a65cb1,
                              0x1efbc0a0, 0xf0781bc8, 0xa507a53d, 0x0772a26b)
  {
    hide IsBlock, Schedule, At;
    BlockSize(b);
    Words32(b);
    Turns32(b);
    var v0 := Vars(0x73b33bf5, 0xea992a22, 0xa0060b30, 0x363482c9, 0xba591112, 0x0109ab3a, 0xade79437, 0x6112a3b7);
    var v1 := Vars(0x98e12507, 0x73b33bf5, 0xea992a22, 0xa0060b30, 0x9cd9f5f6, 0xba591112, 0x0109ab3a, 0xade79437);
    var v2 := Vars(0xfe604df5, 0x98e12507, 0x73b33bf5, 0xea992a22, 0x59249dd3, 0x9cd9f5f6, 0xba591112, 0x0109ab3a);
    var v3 := Vars(0xa9a7738c, 0xfe604df5, 0x98e12507, 0x73b33bf5, 0x085f3833, 0x59249dd3, 0x9cd9f5f6, 0xba591112);
    var v4 := Vars(0x65a0cfe4, 0xa9a7738c, 0xfe604df5, 0x98e12507, 0xf4b002d6, 0x085f3833, 0x59249dd3, 0x9cd9f5f6);
    var v5 := Vars(0x41a65cb1, 0x65a0cfe4, 0xa9a7738c, 0xfe604df5, 0x0772a26b, 0xf4b002d6, 0x085f3833, 0x59249dd3);
    var v6 := Vars(0x34df1604, 0x41a65cb1, 0x65a0cfe4, 0xa9a7738c, 0xa507a53d, 0x0772a26b, 0xf4b002d6, 0x085f3833);
    var v7 := Vars(0x6dc57a8a, 0x34df1604, 0x41a65cb1, 0x65a0cfe4, 0xf0781bc8, 0xa507a53d, 0x0772a26b, 0xf4b002d6);
    var v8 := Vars(0x79ea687a, 0x6dc57a8a, 0x34df1604, 0x41a65cb1, 0x1efbc0a0, 0xf0781bc8, 0xa507a53d, 0x0772a26b);
    Turn(b, 32, v0, 0x27b70a85, 0x93f5997f, v1);
    Turn(b, 33, v1, 0x2e1b2138, 0x3b68ba73, v2);
    Turn(b, 34, v2, 0x4d2c6dfc, 0xaff4ffc1, v3);
    Turn(b, 35, v3, 0x53380d13, 0xf10a5c62, v4);
    Turn(b, 36, v4, 0x650a7354, 0x0a8b3996, v5);
    Turn(b, 37, v5, 0x766a0abb, 0x72af830a, v6);
    Turn(b, 38, v6, 0x81c2c92e, 0x9409e33e, v7);
    Turn(b, 39, v7, 0x92722c85, 0x24641522, v8);
  }

  lemma Turns48(b: seq<byte>)
    requires IsBlock(b)
    ensures |b| == 64
    ensures At(b, 48) == Vars(0x4172328d, 0xa14c14b0, 0x72ab4b91, 0x26628815,
                              0xfecf0bc6, 0xd57b94a9, 0xb7755da1, 0xa80f11f0)
  {
    hide IsBlock, Schedule, At;
    BlockSize(b);
    Words40(b);
    Turns40(b);
    var v0 := Vars(0x79ea687a, 0x6dc57a8a, 0x34df1604, 0x41a65cb1, 0x1efbc0a0, 0xf0781bc8, 0xa507a53d, 0x0772a26b);
    var v1 := Vars(0xd6670766, 0x79ea687a, 0x6dc57a8a, 0x34df1604, 0x26352d63, 0x1efbc0a0, 0xf0781bc8, 0xa507a53d);
    var v2 := Vars(0xdf46652f, 0xd6670766, 0x79ea687a, 0x6dc57a8a, 0x838b2711, 0x26352d63, 0x1efbc0a0, 0xf0781bc8);
    var v3 := Vars(0x17aa0dfe, 0xdf46652f, 0xd6670766, 0x79ea687a, 0xdecd4715, 0x838b2711, 0x26352d63, 0x1efbc0a0);
    var v4 := Vars(0x9d4baf93, 0x17aa0dfe, 0xdf46652f, 0xd6670766, 0xfda24c2e, 0xdecd4715, 0x838b2711, 0x26352d63);
    var v5 := Vars(0x26628815, 0x9d4baf93, 0x17aa0dfe, 0xdf46652f, 0xa80f11f0, 0xfda24c2e, 0xdecd4715, 0x838b2711);
    var v6 := Vars(0x72ab4b91, 0x26628815, 0x9d4baf93, 0x17aa0dfe, 0xb7755da1, 0xa80f11f0, 0xfda24c2e, 0xdecd4715);
    var v7 := Vars(0xa14c14b0, 0x72ab4b91, 0x26628815, 0x9d4baf93, 0xd57b94a9, 0xb7755da1, 0xa80f11f0, 0xfda24c2e);
    var v8 := Vars(0x4172328d, 0xa14c14b0, 0x72ab4b91, 0x26628815, 0xfecf0bc6, 0xd57b94a9, 0xb7755da1, 0xa80f11f0);
    Turn(b, 40, v0, 0xa2bfe8a1, 0x9f47bf94, v1);
    Turn(b, 41, v1, 0xa81a664b, 0xf0a64f5a, v2);
    Turn(b, 42, v2, 0xc24b8b70, 0x3e246a79, v3);
    Turn(b, 43, v3, 0xc76c51a3, 0x27333ba3, v4);
    Turn(b, 44, v4, 0xd192e819, 0x0c4763f2, v5);
    Turn(b, 45, v5, 0xd6990624, 0x840abf27, v6);
    Turn(b, 46, v6, 0xf40e3585, 0x7a290d5d, v7);
    Turn(b, 47, v7, 0x106aa070, 0x065c43da, v8);
  }

  lemma Turns56(b: seq<byte>)
    requires IsBlock(b)
    ensures |b| == 64
    ensures At(b, 56) == Vars(0x38cc9913, 0x3ec45cdb, 0xf5702fdb, 0x101fd28f,
                              0x54cb266b, 0xe50e1b4f, 0x9f4787c3, 0x529e7d00)
  {
    hide IsBlock, Schedule, At;
    BlockSize(b);
    Words48(b);
    Turns48(b);
    var v0 := Vars(0x4172328d, 0xa14c14b0, 0x72ab4b91, 0x26628815, 0xfecf0bc6, 0xd57b94a9, 0xb7755da1, 0xa80f11f0);
    var v1 := Vars(0x05757ceb, 0x4172328d, 0xa14c14b0, 0x72ab4b91, 0xbd714038, 0xfecf0bc6, 0xd57b94a9, 0xb7755da1);
    var v2 := Vars(0xf11bfaa8, 0x05757ceb, 0x4172328d, 0xa14c14b0, 0x6e5c390c, 0xbd714038, 0xfecf0bc6, 0xd57b94a9);
    var v3 := Vars(0x7a0508a1, 0xf11bfaa8, 0x05757ceb, 0x4172328d, 0x52f1ccf7, 0x6e5c390c, 0xbd714038, 0xfecf0bc6);
    var v4 := Vars(0x886e7a22, 0x7a0508a1, 0xf11bfaa8, 0x05757ceb, 0x49231c1e, 0x52f1ccf7, 0x6e5c390c, 0xbd714038);
    var v5 := Vars(0x101fd28f, 0x886e7a22, 0x7a0508a1, 0xf11bfaa8, 0x529e7d00, 0x49231c1e, 0x52f1ccf7, 0x6e5c390c);
    var v6 := Vars(0xf5702fdb, 0x101fd28f, 0x886e7a22, 0x7a0508a1, 0x9f4787c3, 0x529e7d00, 0x49231c1e, 0x52f1ccf7);
    var v7 := Vars(0x3ec45cdb, 0xf5702fdb, 0x101fd28f, 0x886e7a22, 0xe50e1b4f, 0x9f4787c3, 0x529e7d00, 0x49231c1e);
    var v8 := Vars(0x38cc9913, 0x3ec45cdb, 0xf5702fdb, 0x101fd28f, 0x54cb266b, 0xe50e1b4f, 0x9f4787c3, 0x529e7d00);
    Turn(b, 48, v0, 0x19a4c116, 0xfb3e89cb, v1);
    Turn(b, 49, v1, 0x1e376c08, 0xcc7617db, v2);
    Turn(b, 50, v2, 0x2748774c, 0xb9e66c34, v3);
    Turn(b, 51, v3, 0x34b0bcb5, 0xa9993667, v4);
    Turn(b, 52, v4, 0x391c0cb3, 0x84badedd, v5);
    Turn(b, 53, v5, 0x4ed8aa4a, 0xc21462bc, v6);
    Turn(b, 54, v6, 0x5b9cca4f, 0x1487472c, v7);
    Turn(b, 55, v7, 0x682e6ff3, 0xb20f7a99, v8);
  }

  lemma Turns64(b: seq<byte>)
    requires IsBlock(b)
    ensures |b| == 64
    ensures At(b, 64) == Vars(0x506e3058, 0xd39a2165, 0x04d24d6c, 0xb85e2ce9,
                              0x5ef50f24, 0xfb121210, 0x948d25b6, 0x961f4894)
  {
    hide IsBlock, Schedule, At;
    BlockSize(b);
    Words56(b);
    Turns56(b);
    var v0 := Vars(0x38cc9913, 0x3ec45cdb, 0xf5702fdb, 0x101fd28f, 0x54cb266b, 0xe50e1b4f, 0x9f4787c3, 0x529e7d00);
    var v1 := Vars(0xfcd1887b, 0x38cc9913, 0x3ec45cdb, 0xf5702fdb, 0x9b5e906c, 0x54cb266b, 0xe50e1b4f, 0x9f4787c3);
    var v2 := Vars(0xc062d46f, 0xfcd1887b, 0x38cc9913, 0x3ec45cdb, 0x7e44008e, 0x9b5e906c, 0x54cb266b, 0xe50e1b4f);
    var v3 := Vars(0xffb70472, 0xc062d46f, 0xfcd1887b, 0x38cc9913, 0x6d83bfc6, 0x7e44008e, 0x9b5e906c, 0x54cb266b);
    var v4 := Vars(0xb6ae8fff, 0xffb70472, 0xc062d46f, 0xfcd1887b, 0xb21bad3d, 0x6d83bfc6, 0x7e44008e, 0x9b5e906c);
    var v5 := Vars(0xb85e2ce9, 0xb6ae8fff, 0xffb70472, 0xc062d46f, 0x961f4894, 0xb21bad3d, 0x6d83bfc6, 0x7e44008e);
    var v6 := Vars(0x04d24d6c, 0xb85e2ce9, 0xb6ae8fff, 0xffb70472, 0x948d25b6, 0x961f4894, 0xb21bad3d, 0x6d83bfc6);
    var v7 := Vars(0xd39a2165, 0x04d24d6c, 0xb85e2ce9, 0xb6ae8fff, 0xfb121210, 0x948d25b6, 0x961f4894, 0xb21bad3d);
    var v8 := Vars(0x506e3058, 0xd39a2165, 0x04d24d6c, 0xb85e2ce9, 0x5ef50f24, 0xfb121210, 0x948d25b6, 0x961f4894);
    Turn(b, 56, v0, 0x748f82ee, 0xef57b9cd, v1);
    Turn(b, 57, v1, 0x78a5636f, 0xebe6b238, v2);
    Turn(b, 58, v2, 0x84c87814, 0x9fe3095e, v3);
    Turn(b, 59, v3, 0x8cc70208, 0x78bc8d4b, v4);
    Turn(b, 60, v4, 0x90befffa, 0xa43fcf15, v5);
    Turn(b, 61, v5, 0xa4506ceb, 0x668b2ff8, v6);
    Turn(b, 62, v6, 0xbef9a3f7, 0xeeaba2cc, v7);
    Turn(b, 63, v7, 0xc67178f2, 0x12b1edeb, v8);
  }

  // ---- The digest ----

  lemma PaddedIsBlock(m: seq<byte>)
    requires |m| == 3 && m[0] == 0x61 && m[1] == 0x62 && m[2] == 0x63
    ensures IsBlock(Pad(m))
  {
    hide LengthBytes;
    LengthOfAbc();
    assert PadZeros(3) == 52 && BitCount(3) == 24;
    PadIs(m + [0x80], Zeros(52), LengthBytes(24));
  }

  lemma PadIs(front: seq<byte>, zeros: seq<byte>, length: seq<byte>)
    requires |front| == 4
    requires front[0] == 0x61 && front[1] == 0x62 && front[2] == 0x63 && front[3] == 0x80
    requires zeros == Zeros(52) && length == [0, 0, 0, 0, 0, 0, 0, 0x18]
    ensures IsBlock(front + zeros + length)
  {
    var p := front + zeros + length;
    forall i | 4 <= i < 63 ensures p[i] == 0 {
      if i < 56 { assert p[i] == zeros[i - 4]; } else { assert p[i] == length[i - 56]; }
    }
  }

  lemma LengthOfAbc()
    ensures LengthBytes(24) == [0, 0, 0, 0, 0, 0, 0, 0x18]
  {
    hide LengthByte;
    HighByte(1); HighByte(2); HighByte(3); HighByte(4); HighByte(5); HighByte(6); HighByte(7);
    LowByte();
    var b := LengthBytes(24);
    assert b == [b[0], b[1], b[2], b[3], b[4], b[5], b[6], b[7]];
  }

  lemma LowByte()
    ensures LengthByte(24, 0) == 0x18
  {
  }

  lemma {:induction false} HighByte(i: nat)
    requires i > 0
    ensures Shifted(24, i) == 0 && LengthByte(24, i) == 0
  {
    if i > 1 { HighByte(i - 1); }
  }

  lemma OneBlock(h: seq<word>, block: seq<byte>, v: Vars)
    requires |h| == 8 && |block| == 64 && Rounds(AsVars(h), block, 64) == v
    ensures HashBlocks(h, block) == Added(h, v)
  {
    hide Rounds, Added;
    assert block[..0] == [] && block[0..] == block;
    assert HashBlocks(h, []) == h;
  }

  lemma StateOfAbc(b: seq<byte>)
    requires IsBlock(b)
    ensures |b| == 64 && HashBlocks(Initial(), b) ==
            [0xba7816bf, 0x8f01cfea, 0x414140de, 0x5dae2223,
             0xb00361a3, 0x96177a9c, 0xb410ff61, 0xf20015ad]
  {
    hide IsBlock, Initial, Rounds, HashBlocks, Added;
    BlockSize(b);
    Turns64(b);
    OneBlock(Initial(), b, Vars(0x506e3058, 0xd39a2165, 0x04d24d6c, 0xb85e2ce9,
                               0x5ef50f24, 0xfb121210, 0x948d25b6, 0x961f4894));
    AddedLast();
  }

  lemma AddedLast()
    ensures Added(Initial(), Vars(0x506e3058, 0xd39a2165, 0x04d24d6c, 0xb85e2ce9,
                                  0x5ef50f24, 0xfb121210, 0x948d25b6, 0x961f4894)) ==
            [0xba7816bf, 0x8f01cfea, 0x414140de, 0x5dae2223,
             0xb00361a3, 0x96177a9c, 0xb410ff61, 0xf20015ad]
  {
  }

  lemma ByteOfDigest(h: seq<word>, i: nat)
    requires |h| == 8 && i < 8
    ensures DigestOf(h)[4 * i..4 * i + 4] == [ByteOf(h[i], 0), ByteOf(h[i], 1), ByteOf(h[i], 2), ByteOf(h[i], 3)]
  {
    hide ByteOf, DigestOf;
    DigestWord(h, i);
    var d := DigestOf(h)[..4 * i + 4];
    assert d[4 * i..] == DigestOf(h)[4 * i..4 * i + 4];
  }

  lemma Quarters(d: seq<byte>)
    requires |d| == 32
    ensures d == d[0..4] + d[4..8] + d[8..12] + d[12..16] + (d[16..20] + d[20..24] + d[24..28] + d[28..32])
  {
  }

  lemma BytesOfWords()
    ensures ByteOf(0xba7816bf, 0) == 0xba && ByteOf(0xba7816bf, 1) == 0x78
            && ByteOf(0xba7816bf, 2) == 0x16 && ByteOf(0xba7816bf, 3) == 0xbf
            && ByteOf(0x8f01cfea, 0) == 0x8f && ByteOf(0x8f01cfea, 1) == 0x01
            && ByteOf(0x8f01cfea, 2) == 0xcf && ByteOf(0x8f01cfea, 3) == 0xea
            && ByteOf(0x414140de, 0) == 0x41 && ByteOf(0x414140de, 1) == 0x41
            && ByteOf(0x414140de, 2) == 0x40 && ByteOf(0x414140de, 3) == 0xde
            && ByteOf(0x5dae2223, 0) == 0x5d && ByteOf(0x5dae2223, 1) == 0xae
            && ByteOf(0x5dae2223, 2) == 0x22 && ByteOf(0x5dae2223, 3) == 0x23
            && ByteOf(0xb00361a3, 0) == 0xb0 && ByteOf(0xb00361a3, 1) == 0x03
            && ByteOf(0xb00361a3, 2) == 0x61 && ByteOf(0xb00361a3, 3) == 0xa3
            && ByteOf(0x96177a9c, 0) == 0x96 && ByteOf(0x96177a9c, 1) == 0x17
            && ByteOf(0x96177a9c, 2) == 0x7a && ByteOf(0x96177a9c, 3) == 0x9c
            && ByteOf(0xb410ff61, 0) == 0xb4 && ByteOf(0xb410ff61, 1) == 0x10
            && ByteOf(0xb410ff61, 2) == 0xff && ByteOf(0xb410ff61, 3) == 0x61
            && ByteOf(0xf20015ad, 0) == 0xf2 && ByteOf(0xf20015ad, 1) == 0x00
            && ByteOf(0xf20015ad, 2) == 0x15 && ByteOf(0xf20015ad, 3) == 0xad
  {
  }

  /** The published digest of the message "abc". */
  lemma HashOfAbc(m: seq<byte>)
    requires |m| == 3 && m[0] == 0x61 && m[1] == 0x62 && m[2] == 0x63
    ensures Hash(m) ==
            [0xba, 0x78, 0x16, 0xbf] + [0x8f, 0x01, 0xcf, 0xea] + [0x41, 0x41, 0x40, 0xde] + [0x5d, 0xae, 0x22, 0x23]
            + ([0xb0, 0x03, 0x61, 0xa3] + [0x96, 0x17, 0x7a, 0x9c]
               + [0xb4, 0x10, 0xff, 0x61] + [0xf2, 0x00, 0x15, 0xad])
  {
    hide IsBlock, HashBlocks, Initial, Pad, DigestOf, ByteOf;
    PaddedIsBlock(m);
    StateOfAbc(Pad(m));
    var h := HashBlocks(Initial(), Pad(m));
    ByteOfDigest(h, 0);
    ByteOfDigest(h, 1);
    ByteOfDigest(h, 2);
    ByteOfDigest(h, 3);
    ByteOfDigest(h, 4);
    ByteOfDigest(h, 5);
    ByteOfDigest(h, 6);
    ByteOfDigest(h, 7);
    Quarters(DigestOf(h));
    BytesOfWords();
  }
}
