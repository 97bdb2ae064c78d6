/** Deciding whether the entry of binder_ioctl can be hooked: AArch64 words read from kernel text are classified
    by their bits, directly or behind a short veneer that branches to the implementation. */
module EntryClassifier {
  import opened Numbers
  import opened Wrappers

  type word = bv32
  type offset = bv64

  const PROBE_WORDS := 64

  const HAS_BTI: word := 0x1
  const HAS_PAC: word := 0x2
  const HAS_STACK_FRAME: word := 0x4
  const SAVES_FRAME_LINK: word := 0x8
  const SETS_FRAME_BASE: word := 0x10
  const RELOCATABLE_PREFIX: word := 0x20
  const HAS_VENEER: word := 0x40
  const HOOK_SITE_BTI: word := 0x80
  const HOOK_SITE_PAC: word := 0x100
  const HOOK_SITE_FRAME: word := 0x200

  // ---- Words ----

  function Shr(w: word, n: bv6): word
    requires n <= 32
  {
    w >> n
  }

  function Shl(w: word, n: bv6): word
    requires n <= 32
  {
    w << n
  }

  predicate IsBti(w: word) { w == 0xd503245f || w == 0xd503249f || w == 0xd50324df }

  predicate IsPacStack(w: word) { w == 0xd503233f || w == 0xd503237f }

  predicate IsMovFpSp(w: word) { w == 0x910003fd }

  /** SUB SP, SP, #imm with an immediate that can be a frame. */
  function SubSpFrame(w: word): Option<word> {
    if w & 0xffc003ff != 0xd10003ff then None else
    var immediate := Shr(w, 10) & 0xfff;
    if Shr(w, 22) & 1 != 0 || immediate < 16 || immediate > 4096 || immediate & 0xf != 0 then None
    else Some(immediate)
  }

  predicate IsStorePairToSp(w: word) {
    w & 0x80000000 != 0 && w & 0x3b400000 == 0x29000000 && Shr(w, 5) & 0x1f == 31
  }

  predicate IsFrameLinkStore(w: word) {
    IsStorePairToSp(w) && w & 0x1f == 29 && Shr(w, 10) & 0x1f == 30
  }

  /** STP X29, X30, [SP, #-frame]!: the seven-bit immediate counts eight bytes and must be negative. */
  function PreIndexFrame(w: word): Option<word> {
    if !IsFrameLinkStore(w) || w & 0x01800000 != 0x01800000 then None else
    var field := Shr(w, 15) & 0x7f;
    if field & 0x40 == 0 then None else
    var frame := Shl(0x80 - field, 3);
    if frame > 4096 || frame & 0xf != 0 then None else Some(frame)
  }

  predicate IsPcRelativeOrControlFlow(w: word) {
    || w & 0x7c000000 == 0x14000000 || w & 0xff000010 == 0x54000000
    || w & 0x7e000000 == 0x34000000 || w & 0x7e000000 == 0x36000000
    || w & 0x1f000000 == 0x10000000 || w & 0x9f000000 == 0x90000000
    || w & 0x3b000000 == 0x18000000 || w & 0xfe000000 == 0xd6000000
  }

  /** A frame that a prologue may set up. */
  predicate GoodFrame(frame: word) { 16 <= frame <= 4096 && frame & 0xf == 0 }

  function SubSpWord(frame: word): word { 0xd10003ff | Shl(frame, 10) }

  function PreIndexWord(frame: word): word {
    0xa9800000 | Shl((0x80 - Shr(frame, 3)) & 0x7f, 15) | 0x7bfd
  }

  /** The immediate form is accepted exactly for the words that encode a multiple of 16 from 16 to 4080. */
  lemma SubSpIsExact(w: word, frame: word)
    ensures SubSpFrame(w) == Some(frame) <==> GoodFrame(frame) && frame < 4096 && w == SubSpWord(frame)
  {
  }

  /** The pre-index form is accepted exactly for the words that encode a multiple of 16 from 16 to 512, whatever
      bit 30 and bit 26 are: the mask leaves out the bit that makes the pair a vector pair. */
  lemma PreIndexIsExact(w: word, frame: word)
    ensures PreIndexFrame(w) == Some(frame) <==>
              GoodFrame(frame) && frame <= 512 && w & 0xbbffffff == PreIndexWord(frame)
  {
  }

  /** HINT #n. */
  function Hint(n: word): word { 0xd503201f | Shl(n, 5) }

  /** BTI with c, j or both, and PACIASP and PACIBSP, by their hint numbers. */
  lemma HintsAre(w: word)
    ensures IsBti(w) <==> w == Hint(34) || w == Hint(36) || w == Hint(38)
    ensures IsPacStack(w) <==> w == Hint(25) || w == Hint(27)
  {
  }

  /** ADD X29, SP, #0, and STP X29, X30, [SP] in any of the forms that the mask leaves open. */
  lemma FrameWordsAre(w: word)
    ensures IsMovFpSp(w) <==> w == 0x91000000 | Shl(31, 5) | 29
    ensures IsFrameLinkStore(w) <==> w & 0xbb407fff == 0xa9000000 | Shl(30, 10) | Shl(31, 5) | 29
  {
  }

  /** The classes by their fields: B and BL, B.cond, CBZ and CBNZ, TBZ and TBNZ, ADR and ADRP, the literal loads, and
      the branches to a register. */
  lemma ControlFlowIs(w: word)
    ensures IsPcRelativeOrControlFlow(w) <==>
              || Shr(w, 26) & 0x1f == 5 || (Shr(w, 24) == 0x54 && Shr(w, 4) & 1 == 0)
              || Shr(w, 25) & 0x3f == 0x1a || Shr(w, 25) & 0x3f == 0x1b
              || Shr(w, 24) & 0x1f == 0x10
              || (Shr(w, 27) & 7 == 3 && Shr(w, 24) & 3 == 0) || Shr(w, 25) == 0x6b
  {
  }

  // ---- Branches ----

  function Shl64(d: offset, n: bv7): offset
    requires n <= 64
  {
    d << n
  }

  function Shr64(d: offset, n: bv7): offset
    requires n <= 64
  {
    d >> n
  }

  predicate IsBranch(w: word) { w & 0x7c000000 == 0x14000000 }

  function WithoutLink(w: word): word { w & 0x7fffffff }

  function Field(w: word): offset { (w & 0x03ffffff) as offset }

  function WithField(field: offset): word { 0x14000000 | (field & 0x03ffffff) as word }

  /** The 26-bit field as a two's complement number. */
  function Signed(field: offset): offset {
    if field & 0x2000000 != 0 then field - 0x4000000 else field
  }

  /** The displacement in bytes. */
  function Displacement(w: word): offset { Shl64(Signed(Field(w)), 2) }

  /** The word is accepted whether or not its top bit makes it a branch with link. */
  function DecodeBranch(w: word): Option<offset> {
    if !IsBranch(w) || Displacement(w) == 0 then None else Some(Displacement(w))
  }

  /** The displacements a branch can have: multiples of four from -2^27 up to 2^27. */
  predicate Reachable(d: offset) {
    d & 3 == 0 && (d < 0x8000000 || d >= 0xffff_ffff_f800_0000)
  }

  function FieldOf(d: offset): offset { Shr64(d, 2) & 0x03ffffff }

  function BranchWord(d: offset): word { WithField(FieldOf(d)) }

  function SignBits(field: offset): offset { field | 0xffff_ffff_fc00_0000 }

  lemma SignedByCases(field: offset)
    requires field < 0x4000000
    ensures field < 0x2000000 ==> Signed(field) == field
    ensures field >= 0x2000000 ==> Signed(field) == SignBits(field)
  {
  }

  lemma ForwardReturns(d: offset)
    requires d & 3 == 0 && d < 0x8000000
    ensures Shl64(FieldOf(d), 2) == d && FieldOf(d) < 0x2000000
  {
  }

  lemma BackwardReturns(d: offset)
    requires d & 3 == 0 && d >= 0xffff_ffff_f800_0000
    ensures Shl64(SignBits(FieldOf(d)), 2) == d && 0x2000000 <= FieldOf(d) < 0x4000000
  {
  }

  lemma FieldOfWord(field: offset)
    requires field < 0x4000000
    ensures Field(WithField(field)) == field && IsBranch(WithField(field))
  {
  }

  lemma FieldReturns(d: offset)
    requires Reachable(d)
    ensures Shl64(Signed(FieldOf(d)), 2) == d && FieldOf(d) < 0x4000000
  {
    hide Signed, Shl64, FieldOf, SignBits;
    if d < 0x8000000 { ForwardReturns(d); } else { BackwardReturns(d); }
    SignedByCases(FieldOf(d));
  }

  /** Decoding inverts encoding for every displacement but zero, which is refused. */
  lemma DecodeInvertsEncode(d: offset)
    requires Reachable(d)
    ensures DecodeBranch(BranchWord(d)) == if d == 0 then None else Some(d)
  {
    hide Field, WithField, Signed, Shl64, FieldOf, IsBranch, Reachable;
    FieldReturns(d);
    FieldOfWord(FieldOf(d));
  }

  lemma WordOfField(w: word)
    requires IsBranch(w)
    ensures Field(w) < 0x4000000 && WithField(Field(w)) == WithoutLink(w)
  {
  }

  lemma ForwardField(field: offset)
    requires field < 0x2000000
    ensures FieldOf(Shl64(field, 2)) == field && Reachable(Shl64(field, 2))
  {
  }

  lemma BackwardField(field: offset)
    requires 0x2000000 <= field < 0x4000000
    ensures FieldOf(Shl64(SignBits(field), 2)) == field && Reachable(Shl64(SignBits(field), 2))
  {
  }

  lemma FieldIsReached(field: offset)
    requires field < 0x4000000
    ensures FieldOf(Shl64(Signed(field), 2)) == field && Reachable(Shl64(Signed(field), 2))
  {
    hide Signed, Shl64, FieldOf, SignBits, Reachable;
    SignedByCases(field);
    if field < 0x2000000 { ForwardField(field); } else { BackwardField(field); }
  }

  /** What is decoded is a displacement that a branch can have, and the word is its encoding up to the top bit. */
  lemma EncodeInvertsDecode(w: word)
    requires DecodeBranch(w).Some?
    ensures Reachable(DecodeBranch(w).value) && BranchWord(DecodeBranch(w).value) == WithoutLink(w)
  {
    hide Field, WithField, WithoutLink, Signed, Shl64, FieldOf, Reachable, IsBranch;
    WordOfField(w);
    FieldIsReached(Field(w));
  }

  predicate Positive(d: offset) { 0 < d < 0x8000_0000_0000_0000 }

  /** A forward displacement as a number. */
  function Distance(d: offset): (n: nat)
    ensures n < 0x8000000
    ensures 0 < d < 0x8000000 ==> n > 0
  {
    if d < 0x8000000 then (d as bv27) as int else 0
  }

  lemma ForwardIsShort(d: offset)
    requires Reachable(d) && Positive(d)
    ensures 0 < d < 0x8000000
  {
  }

  // ---- Classification ----

  /** What the classifier reads besides the entry: the symbols around core text, and kernel memory. */
  datatype Kernel = Kernel(stext: Option<nat>, text: Option<nat>, etext: Option<nat>,
                           probe: nat -> Option<seq<word>>)

  predicate IsKernelPointer(a: nat) { a != 0 && a % 4 == 0 && a >= 0x8000_0000_0000_0000 }

  predicate Between(a: nat, begin: Option<nat>, end: Option<nat>) {
    && begin.Some? && end.Some? && IsKernelPointer(begin.value) && IsKernelPointer(end.value)
    && begin.value <= a < end.value
  }

  predicate InCoreText(a: nat, k: Kernel) {
    Between(a, k.stext, k.etext) || Between(a, k.text, k.etext)
  }

  /** The one instruction that the hook replaces. */
  function HookSite(w: word): Option<word> {
    if IsBti(w) then Some(HOOK_SITE_BTI)
    else if IsPacStack(w) then Some(HOOK_SITE_PAC)
    else if SubSpFrame(w).Some? || PreIndexFrame(w).Some? then Some(HOOK_SITE_FRAME)
    else None
  }

  /** The word behind an optional BTI and an optional PAC. */
  function PrefixLength(words: seq<word>): (n: nat)
    requires |words| == PROBE_WORDS
    ensures n <= 2
  {
    var n := if IsBti(words[0]) then 1 else 0;
    if IsPacStack(words[n]) then n + 1 else n
  }

  function PrefixSemantics(words: seq<word>): word
    requires |words| == PROBE_WORDS
  {
    var bti := IsBti(words[0]);
    (if bti then HAS_BTI else 0) | (if IsPacStack(words[if bti then 1 else 0]) then HAS_PAC else 0)
  }

  predicate SavesLinkWithin(words: seq<word>, from: nat, to: nat)
    requires to <= |words|
  {
    exists i :: from <= i < to && IsFrameLinkStore(words[i])
  }

  predicate RelocatablePrefix(words: seq<word>)
    requires |words| == PROBE_WORDS
  {
    forall i :: 0 <= i < 4 ==> !IsPcRelativeOrControlFlow(words[i])
  }

  /** A prologue: behind the prefix a frame is made, and the frame link saved with it or soon after. */
  function SemanticEntry(words: seq<word>): Option<word>
    requires |words| == PROBE_WORDS
  {
    var n := PrefixLength(words);
    var prefix := PrefixSemantics(words);
    var semantics :=
      if SubSpFrame(words[n]).Some? then
        if SavesLinkWithin(words, n + 1, n + 4) then Some(prefix | HAS_STACK_FRAME | SAVES_FRAME_LINK) else None
      else if PreIndexFrame(words[n]).Some? then
        Some(prefix | HAS_STACK_FRAME | SAVES_FRAME_LINK | if IsMovFpSp(words[n + 1]) then SETS_FRAME_BASE else 0)
      else None;
    if semantics.Some? && RelocatablePrefix(words) then Some(semantics.value | RELOCATABLE_PREFIX) else None
  }

  /** The branch behind the prefix; 64-bit addresses wrap. */
  function BranchAt(entry: nat, words: seq<word>): nat
    requires |words| == PROBE_WORDS
  {
    (entry + 4 * PrefixLength(words)) % WORD64
  }

  /** Where a veneer leads: the entry must begin with what the hook can replace, and branch forward to core text. */
  function VeneerTarget(entry: nat, words: seq<word>, k: Kernel): Option<nat>
    requires |words| == PROBE_WORDS
  {
    var n := PrefixLength(words);
    if n == 0 || HookSite(words[0]).None? then None else
    var displacement := DecodeBranch(words[n]);
    if displacement.None? || !Positive(displacement.value) then None else
    var target := (BranchAt(entry, words) + Distance(displacement.value)) % WORD64;
    if target <= entry || !IsKernelPointer(target) || !InCoreText(target, k) then None else Some(target)
  }

  /** The semantics of a prologue with the kind of its first instruction, which must be one to replace. */
  function Joined(semantics: word, site: Option<word>): Option<word> {
    if site.None? then None else Some(semantics | site.value)
  }

  function HookableEntry(entry: nat, words: seq<word>, k: Kernel): Option<word>
    requires |words| == PROBE_WORDS
  {
    var direct := SemanticEntry(words);
    if direct.Some? then Joined(direct.value, HookSite(words[0]))
    else
      var target := VeneerTarget(entry, words, k);
      if target.None? then None else
      var there := k.probe(target.value);
      if there.None? || |there.value| != PROBE_WORDS then None else
      var behind := SemanticEntry(there.value);
      if behind.None? then None else Some(behind.value | HookSite(words[0]).value | HAS_VENEER)
  }

  // ---- What acceptance means ----

  /** An instruction the hook may replace is neither PC-relative nor control flow. */
  lemma HookSiteIsMovable(w: word)
    requires HookSite(w).Some?
    ensures !IsPcRelativeOrControlFlow(w)
  {
  }

  /** The implementation's first words: nothing but a BTI and a PAC before the instruction that makes a frame of a
      multiple of 16 bytes from 16 to 4096, a saved frame link, and four words that can be moved. */
  ghost predicate GoodPrologue(words: seq<word>)
    requires |words| == PROBE_WORDS
  {
    && RelocatablePrefix(words)
    && exists n: nat, frame :: n <= 2 && GoodFrame(frame)
         && (forall i :: 0 <= i < n ==> IsBti(words[i]) || IsPacStack(words[i]))
         && (PreIndexFrame(words[n]) == Some(frame)
             || (SubSpFrame(words[n]) == Some(frame) && SavesLinkWithin(words, n + 1, n + 4)))
  }

  /** An optional BTI and an optional PAC behind it. */
  predicate PrefixIs(words: seq<word>, n: nat)
    requires |words| == PROBE_WORDS
  {
    || n == 0
    || (n == 1 && (IsBti(words[0]) || IsPacStack(words[0])))
    || (n == 2 && IsBti(words[0]) && IsPacStack(words[1]))
  }

  /** The frame is made by one instruction that saves the frame link as well, or the link is saved by one of the next
      three. */
  predicate MakesFrame(words: seq<word>, n: nat)
    requires n + 3 < |words|
  {
    || PreIndexFrame(words[n]).Some?
    || (SubSpFrame(words[n]).Some?
        && (IsFrameLinkStore(words[n + 1]) || IsFrameLinkStore(words[n + 2]) || IsFrameLinkStore(words[n + 3])))
  }

  lemma FrameIsNoPrefix(w: word)
    ensures SubSpFrame(w).Some? || PreIndexFrame(w).Some? ==> !IsBti(w) && !IsPacStack(w)
    ensures !(SubSpFrame(w).Some? && PreIndexFrame(w).Some?)
  {
  }

  /** Completeness: every prologue is recognised. */
  lemma SemanticEntryExactlyWhen(words: seq<word>)
    requires |words| == PROBE_WORDS
    ensures SemanticEntry(words).Some? <==>
              && !IsPcRelativeOrControlFlow(words[0]) && !IsPcRelativeOrControlFlow(words[1])
              && !IsPcRelativeOrControlFlow(words[2]) && !IsPcRelativeOrControlFlow(words[3])
              && exists n: nat :: PrefixIs(words, n) && MakesFrame(words, n)
  {
    hide IsBti, IsPacStack, IsMovFpSp, SubSpFrame, PreIndexFrame, IsFrameLinkStore, IsPcRelativeOrControlFlow,
         PrefixSemantics;
    var n := PrefixLength(words);
    FrameIsNoPrefix(words[0]);
    FrameIsNoPrefix(words[1]);
    FrameIsNoPrefix(words[2]);
    assert PrefixIs(words, n);
    assert MakesFrame(words, n) <==>
        PreIndexFrame(words[n]).Some? || (SubSpFrame(words[n]).Some? && SavesLinkWithin(words, n + 1, n + 4));
    if m: nat :| PrefixIs(words, m) && MakesFrame(words, m) {
      assert m == n;
    }
  }

  lemma FramesAreGood(w: word)
    ensures SubSpFrame(w).Some? ==> GoodFrame(SubSpFrame(w).value)
    ensures PreIndexFrame(w).Some? ==> GoodFrame(PreIndexFrame(w).value)
  {
  }

  lemma SemanticEntryIsPrologue(words: seq<word>)
    requires |words| == PROBE_WORDS && SemanticEntry(words).Some?
    ensures GoodPrologue(words)
  {
    hide IsBti, IsPacStack, IsMovFpSp, SubSpFrame, PreIndexFrame, GoodFrame, IsFrameLinkStore,
         IsPcRelativeOrControlFlow;
    var n := PrefixLength(words);
    FramesAreGood(words[n]);
    var frame := if SubSpFrame(words[n]).Some? then SubSpFrame(words[n]).value else PreIndexFrame(words[n]).value;
    assert forall i :: 0 <= i < n ==> IsBti(words[i]) || IsPacStack(words[i]);
    assert n <= 2 && GoodFrame(frame);
  }

  /** A veneer's branch lies behind the entry, and its target strictly behind the branch and less than 2^27 bytes
      away, without wrapping around. */
  lemma TargetIsForward(entry: nat, words: seq<word>, k: Kernel)
    requires |words| == PROBE_WORDS && entry < WORD64 && VeneerTarget(entry, words, k).Some?
    ensures var target := VeneerTarget(entry, words, k).value;
            var branch := BranchAt(entry, words);
            && entry < branch < target && target - branch < 0x8000000 && InCoreText(target, k)
  {
    hide IsBti, IsPacStack, HookSite, DecodeBranch, InCoreText, IsKernelPointer, Positive, Distance;
    var n := PrefixLength(words);
    ForwardBranch(words[n]);
    NoWrap(entry, 4 * n, Distance(DecodeBranch(words[n]).value));
  }

  lemma ForwardBranch(w: word)
    requires DecodeBranch(w).Some? && Positive(DecodeBranch(w).value)
    ensures 0 < Distance(DecodeBranch(w).value) < 0x8000000
  {
    hide DecodeBranch, Reachable, Positive, Distance;
    EncodeInvertsDecode(w);
    ForwardIsShort(DecodeBranch(w).value);
  }

  lemma NoWrap(entry: nat, step: nat, distance: nat)
    requires entry < WORD64 && 0 < step <= 8 && 0 < distance < 0x8000000
    requires ((entry + step) % WORD64 + distance) % WORD64 > entry
    ensures (entry + step) % WORD64 == entry + step
    ensures ((entry + step) % WORD64 + distance) % WORD64 == entry + step + distance
  {
  }

  /** Every accepted entry can have its first instruction moved, and leads to a good prologue: its own, or that
      of a target in core text strictly ahead. */
  lemma AcceptedEntry(entry: nat, words: seq<word>, k: Kernel)
    requires |words| == PROBE_WORDS && entry < WORD64 && HookableEntry(entry, words, k).Some?
    ensures HookSite(words[0]).Some? && !IsPcRelativeOrControlFlow(words[0])
    ensures SemanticEntry(words).Some? ==> GoodPrologue(words)
    ensures SemanticEntry(words).None? ==>
              exists target: nat, there ::
                && k.probe(target) == Some(there) && |there| == PROBE_WORDS && GoodPrologue(there)
                && InCoreText(target, k) && entry < BranchAt(entry, words) < target
                && target - BranchAt(entry, words) < 0x8000000
  {
    hide SemanticEntry, VeneerTarget, HookSite, GoodPrologue, InCoreText, BranchAt, IsPcRelativeOrControlFlow;
    VeneerNeedsHookSite(entry, words, k);
    HookSiteIsMovable(words[0]);
    if SemanticEntry(words).Some? {
      SemanticEntryIsPrologue(words);
    } else {
      var target := VeneerTarget(entry, words, k).value;
      TargetIsForward(entry, words, k);
      SemanticEntryIsPrologue(k.probe(target).value);
    }
  }

  /** A branch is decoded exactly when it is the encoding of a displacement other than zero, up to its top bit. */
  lemma DecodedExactlyWhen(w: word, d: offset)
    ensures DecodeBranch(w) == Some(d) <==> d != 0 && Reachable(d) && BranchWord(d) == WithoutLink(w)
  {
    hide Reachable, BranchWord, Displacement, IsBranch, WithoutLink;
    if DecodeBranch(w) == Some(d) {
      EncodeInvertsDecode(w);
    }
    if d != 0 && Reachable(d) && BranchWord(d) == WithoutLink(w) {
      DecodeInvertsEncode(d);
      LinkDoesNotMatter(w);
    }
  }

  lemma LinkDoesNotMatter(w: word)
    ensures DecodeBranch(WithoutLink(w)) == DecodeBranch(w)
  {
  }

  /** A pointer into the upper half of the address space, to a word. */
  predicate IsWordPointer(a: Option<nat>) {
    a.Some? && a.value % 4 == 0 && a.value >= 0x8000_0000_0000_0000
  }

  /** Between one of the two begins and the end of core text, as far as the symbols are known. */
  predicate WithinText(a: nat, k: Kernel) {
    && IsWordPointer(k.etext) && a < k.etext.value
    && ((IsWordPointer(k.stext) && k.stext.value <= a) || (IsWordPointer(k.text) && k.text.value <= a))
  }

  lemma WithinTextIs(a: nat, k: Kernel)
    ensures InCoreText(a, k) <==> WithinText(a, k)
  {
  }

  /** Behind the prefix of the entry a branch leads forward to a prologue in core text. */
  ghost predicate LeadsTo(entry: nat, words: seq<word>, k: Kernel, n: nat, d: offset)
    requires |words| == PROBE_WORDS
  {
    && n > 0 && PrefixIs(words, n)
    && 0 < d < 0x8000000 && Reachable(d) && BranchWord(d) == WithoutLink(words[n])
    && var target := (entry + 4 * n + Distance(d)) % 0x1_0000_0000_0000_0000;
       && target > entry && IsWordPointer(Some(target)) && WithinText(target, k)
       && var there := k.probe(target);
          there.Some? && |there.value| == PROBE_WORDS && SemanticEntry(there.value).Some?
  }

  lemma BranchIsNoPrefix(w: word)
    ensures IsBranch(w) ==> !IsBti(w) && !IsPacStack(w)
  {
  }

  lemma BranchWordsAreBranches(w: word, d: offset)
    requires BranchWord(d) == WithoutLink(w)
    ensures IsBranch(w)
  {
  }

  lemma SitesBegin(words: seq<word>)
    requires |words| == PROBE_WORDS
    ensures PrefixLength(words) > 0 ==> HookSite(words[0]).Some?
    ensures SemanticEntry(words).Some? ==> HookSite(words[0]).Some?
  {
    hide IsBti, IsPacStack, IsMovFpSp, SubSpFrame, PreIndexFrame, IsFrameLinkStore, IsPcRelativeOrControlFlow,
         PrefixSemantics;
  }

  lemma TargetWraps(entry: nat, step: nat, distance: nat)
    ensures ((entry + step) % WORD64 + distance) % WORD64 == (entry + step + distance) % 0x1_0000_0000_0000_0000
  {
  }

  lemma VeneerLeads(entry: nat, words: seq<word>, k: Kernel)
    requires |words| == PROBE_WORDS && SemanticEntry(words).None? && HookableEntry(entry, words, k).Some?
    ensures exists n: nat, d :: LeadsTo(entry, words, k, n, d)
  {
    hide SemanticEntry, DecodeBranch, Reachable, BranchWord, WithoutLink, InCoreText, WithinText, Distance, IsBti,
         IsPacStack, HookSite;
    var n := PrefixLength(words);
    var d := DecodeBranch(words[n]).value;
    DecodedExactlyWhen(words[n], d);
    ForwardIsShort(d);
    TargetWraps(entry, 4 * n, Distance(d));
    WithinTextIs((entry + 4 * n + Distance(d)) % WORD64, k);
    assert LeadsTo(entry, words, k, n, d);
  }

  lemma PrefixEnds(words: seq<word>, n: nat)
    requires |words| == PROBE_WORDS && n > 0 && PrefixIs(words, n) && !IsBti(words[n]) && !IsPacStack(words[n])
    ensures PrefixLength(words) == n
  {
    assert !(IsBti(words[0]) && IsPacStack(words[0]));
  }

  lemma LeadingIsHookable(entry: nat, words: seq<word>, k: Kernel, n: nat, d: offset)
    requires |words| == PROBE_WORDS && SemanticEntry(words).None? && LeadsTo(entry, words, k, n, d)
    ensures HookableEntry(entry, words, k).Some?
  {
    hide SemanticEntry, DecodeBranch, Reachable, BranchWord, WithoutLink, InCoreText, WithinText, Distance, IsBti,
         IsPacStack, HookSite, PrefixLength, IsBranch;
    BranchWordsAreBranches(words[n], d);
    BranchIsNoPrefix(words[n]);
    PrefixEnds(words, n);
    SitesBegin(words);
    DecodedExactlyWhen(words[n], d);
    TargetWraps(entry, 4 * n, Distance(d));
    WithinTextIs((entry + 4 * n + Distance(d)) % WORD64, k);
  }

  /** Completeness: an entry is accepted if and only if it is a prologue or leads to one. */
  lemma AcceptedExactlyWhen(entry: nat, words: seq<word>, k: Kernel)
    requires |words| == PROBE_WORDS
    ensures HookableEntry(entry, words, k).Some? <==>
              SemanticEntry(words).Some? || exists n: nat, d :: LeadsTo(entry, words, k, n, d)
  {
    hide SemanticEntry, LeadsTo, HookSite, VeneerTarget;
    SitesBegin(words);
    if SemanticEntry(words).None? {
      if HookableEntry(entry, words, k).Some? { VeneerLeads(entry, words, k); }
      if n: nat, d :| LeadsTo(entry, words, k, n, d) { LeadingIsHookable(entry, words, k, n, d); }
    }
  }

  /** The bits of a classified prologue say what is in it. */
  lemma SemanticsTell(words: seq<word>)
    requires |words| == PROBE_WORDS && SemanticEntry(words).Some?
    ensures var s := SemanticEntry(words).value;
            var n := PrefixLength(words);
            && (s & 0x1 != 0 <==> IsBti(words[0]))
            && (s & 0x2 != 0 <==> exists i :: 0 <= i < n && IsPacStack(words[i]))
            && s & 0x4 != 0 && s & 0x8 != 0 && s & 0x20 != 0
            && (s & 0x10 != 0 <==> SubSpFrame(words[n]).None? && IsMovFpSp(words[n + 1]))
            && s < 0x40
  {
    hide IsMovFpSp, SubSpFrame, PreIndexFrame, SavesLinkWithin, RelocatablePrefix;
    assert !(IsBti(words[0]) && IsPacStack(words[0]));
  }

  /** The bits of an accepted entry say which way it was accepted, and which kind of instruction is replaced. */
  lemma AcceptanceTells(entry: nat, words: seq<word>, k: Kernel)
    requires |words| == PROBE_WORDS && HookableEntry(entry, words, k).Some?
    ensures var s := HookableEntry(entry, words, k).value;
            && (s & 0x40 != 0 <==> SemanticEntry(words).None?)
            && (s & 0x80 != 0 <==> IsBti(words[0]))
            && (s & 0x100 != 0 <==> IsPacStack(words[0]))
            && (s & 0x200 != 0 <==> SubSpFrame(words[0]).Some? || PreIndexFrame(words[0]).Some?)
  {
    hide SemanticEntry, VeneerTarget, IsBti, IsPacStack, SubSpFrame, PreIndexFrame;
    VeneerNeedsHookSite(entry, words, k);
    OneKind(words[0]);
    if SemanticEntry(words).Some? {
      SemanticsTell(words);
    } else {
      SemanticsTell(k.probe(VeneerTarget(entry, words, k).value).value);
    }
  }

  lemma OneKind(w: word)
    ensures !(IsBti(w) && IsPacStack(w))
    ensures SubSpFrame(w).Some? || PreIndexFrame(w).Some? ==> !IsBti(w) && !IsPacStack(w)
  {
  }

  lemma VeneerNeedsHookSite(entry: nat, words: seq<word>, k: Kernel)
    requires |words| == PROBE_WORDS
    ensures VeneerTarget(entry, words, k).Some? ==> HookSite(words[0]).Some?
  {
  }

  // ---- The classifiers, with their cursors ----

  method ClassifySemanticEntry(words: seq<word>) returns (semantics: Option<word>)
    requires |words| == PROBE_WORDS
    ensures semantics == SemanticEntry(words)
  {
    hide IsBti, IsPacStack, IsMovFpSp, SubSpFrame, PreIndexFrame, IsFrameLinkStore, IsPcRelativeOrControlFlow;
    var index := 0;
    var bits := 0;
    if IsBti(words[index]) {
      bits := bits | HAS_BTI;
      index := index + 1;
    }
    if IsPacStack(words[index]) {
      bits := bits | HAS_PAC;
      index := index + 1;
    }
    if SubSpFrame(words[index]).Some? {
      bits := bits | HAS_STACK_FRAME;
      index := index + 1;
      var frameLink := false;
      var cursor := index;
      var end := if index + 3 < 8 then index + 3 else 8;
      while cursor < end && !frameLink
        invariant index <= cursor <= end && (frameLink <==> SavesLinkWithin(words, index, cursor))
      {
        frameLink := IsFrameLinkStore(words[cursor]);
        cursor := cursor + 1;
      }
      if !frameLink { return None; }
      bits := bits | SAVES_FRAME_LINK;
    } else if PreIndexFrame(words[index]).Some? {
      bits := bits | HAS_STACK_FRAME | SAVES_FRAME_LINK;
      index := index + 1;
      if index < 8 && IsMovFpSp(words[index]) { bits := bits | SETS_FRAME_BASE; }
    } else {
      return None;
    }
    for cursor := 0 to 4
      invariant forall i :: 0 <= i < cursor ==> !IsPcRelativeOrControlFlow(words[i])
    {
      if IsPcRelativeOrControlFlow(words[cursor]) { return None; }
    }
    return Some(bits | RELOCATABLE_PREFIX);
  }

  method ClassifyVeneerTarget(entry: nat, words: seq<word>, k: Kernel) returns (semantics: Option<word>)
    requires |words| == PROBE_WORDS && SemanticEntry(words).None?
    ensures semantics == HookableEntry(entry, words, k)
  {
    hide IsBti, IsPacStack, HookSite, DecodeBranch, SemanticEntry, InCoreText, IsKernelPointer, Positive, Distance;
    var index := 0;
    if IsBti(words[index]) { index := index + 1; }
    if IsPacStack(words[index]) { index := index + 1; }
    if index == 0 { return None; }
    var site := HookSite(words[0]);
    if site.None? { return None; }
    var displacement := DecodeBranch(words[index]);
    if displacement.None? || !Positive(displacement.value) { return None; }
    var branch := (entry + 4 * index) % WORD64;
    var target := (branch + Distance(displacement.value)) % WORD64;
    if target <= entry || !IsKernelPointer(target) || !InCoreText(target, k) { return None; }
    var there := k.probe(target);
    if there.None? || |there.value| != PROBE_WORDS { return None; }
    var behind := ClassifySemanticEntry(there.value);
    if behind.None? { return None; }
    return Some(behind.value | site.value | HAS_VENEER);
  }

  method ClassifyHookableEntry(entry: nat, words: seq<word>, k: Kernel) returns (semantics: Option<word>)
    requires |words| == PROBE_WORDS
    ensures semantics == HookableEntry(entry, words, k)
  {
    hide HookSite, SemanticEntry, VeneerTarget, Joined;
    var direct := ClassifySemanticEntry(words);
    if direct.Some? {
      return Joined(direct.value, HookSite(words[0]));
    }
    semantics := ClassifyVeneerTarget(entry, words, k);
  }
}
