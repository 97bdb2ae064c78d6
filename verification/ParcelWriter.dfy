/** The parcels that clients write, byte by byte, and what the matcher makes of them. */
module ParcelWriter {
  import opened Wrappers
  import opened UserBytes
  import opened ParcelMatcher

  // ---- The bytes of strings ----

  /** One byte is enough for every character, as for interface and property names. */
  type narrow = text: string | forall i :: 0 <= i < |text| ==> text[i] as int < 256

  /** The units of a text in UTF-16, low byte first. */
  function Utf16(text: narrow): (b: seq<octet>)
    ensures |b| == 2 * |text|
  {
    seq(2 * |text|, i requires 0 <= i < 2 * |text| => if i % 2 == 0 then text[i / 2] as int else 0)
  }

  /** The bytes of a text in UTF-8. */
  function Utf8(text: narrow): (b: seq<octet>)
    ensures |b| == |text|
  {
    seq(|text|, i requires 0 <= i < |text| => text[i] as int)
  }

  /** Zero bytes follow up to a multiple of four. */
  function Padded(b: seq<octet>): (padded: seq<octet>)
    ensures |padded| % 4 == 0 && |b| <= |padded| < |b| + 4 && b <= padded
    decreases (4 - |b| % 4) % 4
  {
    if |b| % 4 == 0 then b else Padded(b + [0])
  }

  const TOKEN: narrow := "android.hardware.drm.IDrmPlugin"
  const NAME: narrow := "deviceUniqueId"

  /** Their units with the zero unit. */
  const TOKEN_TEXT := Utf16(TOKEN) + [0, 0]
  const NAME_TEXT := Utf16(NAME) + [0, 0]

  /** A string of a parcel behind its length word: the units, the zero unit and the padding. */
  function Contents(text: narrow): seq<octet> {
    Padded(Utf16(text) + [0, 0])
  }

  /** The length word of a short string. */
  function LengthWord(n: nat): seq<octet>
    requires n < 256
  {
    [n, 0, 0, 0]
  }

  predicate IsDomain(name: string) {
    name == "SYST" || name == "VNDR" || name == "RECO" || name == "UNKN"
  }

  /** A build domain is a word of four characters, the first one in the highest byte. */
  function DomainWord(domain: Option<string>): seq<octet>
    requires domain.Some? ==> IsDomain(domain.value)
  {
    match domain
    case None => []
    case Some(name) => [name[3] as int, name[2] as int, name[1] as int, name[0] as int]
  }

  /** The request for the device id: anything the client's libbinder writes first, the interface token with its build
      domain or without one, the property name, and anything behind. */
  function Written(before: seq<octet>, domain: Option<string>, after: seq<octet>): seq<octet>
    requires domain.Some? ==> IsDomain(domain.value)
  {
    before
    + LengthWord(31) + DomainWord(domain) + Contents(TOKEN)
    + LengthWord(14) + Contents(NAME)
    + after
  }

  // ---- The matcher's view of those bytes ----

  /** Some bytes stand at an offset. */
  predicate Stands(p: seq<octet>, at: nat, b: seq<octet>) {
    at + |b| <= |p| && p[at..at + |b|] == b
  }

  lemma UnitIs(low: octet, high: octet, unit: octet)
    ensures low + 0x100 * high == unit <==> low == unit && high == 0
  {
  }

  /** The units of a text, without its terminator. */
  ghost predicate UnitsAt(p: seq<octet>, at: nat, text: narrow)
    requires at + 2 * |text| <= |p|
  {
    forall i :: 0 <= i < |text| ==> U16(p, at + 2 * i) == text[i] as int
  }

  lemma UnitsOfMore(p: seq<octet>, at: nat, text: narrow)
    requires text != "" && at + 2 * |text| <= |p|
    ensures var n := |text| - 1;
            UnitsAt(p, at, text) <==> UnitsAt(p, at, text[..n]) && U16(p, at + 2 * n) == text[n] as int
  {
    hide U16;
  }

  lemma StandsOneMore(p: seq<octet>, at: nat, b: seq<octet>, last: octet)
    ensures Stands(p, at, b + [last]) <==> Stands(p, at, b) && at + |b| < |p| && p[at + |b|] == last
  {
    var n := |b|;
    if at + n + 1 <= |p| {
      assert p[at..at + n + 1] == p[at..at + n] + [p[at + n]];
      assert (b + [last])[..n] == b && (b + [last])[n] == last;
      assert (p[at..at + n] + [p[at + n]])[..n] == p[at..at + n];
    }
  }

  lemma StandsUnitMore(p: seq<octet>, at: nat, b: seq<octet>, low: octet, high: octet)
    ensures Stands(p, at, b + [low, high])
            <==> Stands(p, at, b) && at + |b| + 2 <= |p| && p[at + |b|] == low && p[at + |b| + 1] == high
  {
    hide Stands;
    assert b + [low, high] == b + [low] + [high];
    StandsOneMore(p, at, b, low);
    StandsOneMore(p, at, b + [low], high);
  }

  lemma Utf16OfMore(text: narrow)
    requires text != ""
    ensures var n := |text| - 1; Utf16(text) == Utf16(text[..n]) + [text[n] as int, 0]
  {
  }

  lemma {:induction false} UnitsSpelled(p: seq<octet>, at: nat, text: narrow)
    requires at + 2 * |text| <= |p|
    ensures UnitsAt(p, at, text) <==> Stands(p, at, Utf16(text))
  {
    hide UnitsAt, Stands, Utf16;
    if text == "" {
      NoUnits(p, at);
    } else {
      var n := |text| - 1;
      UnitsSpelled(p, at, text[..n]);
      UnitsOfMore(p, at, text);
      Utf16OfMore(text);
      UnitIs(p[at + 2 * n], p[at + 2 * n + 1], text[n] as int);
      StandsUnitMore(p, at, Utf16(text[..n]), text[n] as int, 0);
    }
  }

  lemma NoUnits(p: seq<octet>, at: nat)
    requires at <= |p|
    ensures UnitsAt(p, at, "") && Stands(p, at, [])
  {
  }

  /** A text is matched in UTF-16 exactly where its units and a zero unit stand. */
  lemma Utf16AtExactlyWhen(p: seq<octet>, at: nat, text: narrow)
    ensures Utf16At(p, at, text) <==> Stands(p, at, Utf16(text) + [0, 0])
  {
    hide Utf16, Stands;
    var n := 2 * |text|;
    StandsUnitMore(p, at, Utf16(text), 0, 0);
    if at + n + 2 <= |p| {
      UnitsSpelled(p, at, text);
      UnitIs(p[at + n], p[at + n + 1], 0);
    }
  }

  ghost predicate BytesAt(p: seq<octet>, at: nat, text: narrow)
    requires at + |text| <= |p|
  {
    forall i :: 0 <= i < |text| ==> p[at + i] == text[i] as int
  }

  lemma BytesOfMore(p: seq<octet>, at: nat, text: narrow)
    requires text != "" && at + |text| <= |p|
    ensures var n := |text| - 1;
            BytesAt(p, at, text) <==> BytesAt(p, at, text[..n]) && p[at + n] == text[n] as int
  {
  }

  lemma {:induction false} BytesSpelled(p: seq<octet>, at: nat, text: narrow)
    requires at + |text| <= |p|
    ensures BytesAt(p, at, text) <==> Stands(p, at, Utf8(text))
  {
    if text != "" {
      hide BytesAt, Stands;
      var n := |text| - 1;
      BytesSpelled(p, at, text[..n]);
      BytesOfMore(p, at, text);
      assert Utf8(text) == Utf8(text[..n]) + [text[n] as int];
      StandsOneMore(p, at, Utf8(text[..n]), text[n] as int);
    }
  }

  /** And in UTF-8 where its bytes and a zero byte stand. */
  lemma Utf8AtExactlyWhen(p: seq<octet>, at: nat, text: narrow)
    ensures Utf8At(p, at, text) <==> Stands(p, at, Utf8(text) + [0])
  {
    hide Utf8, Utf8At, BytesAt, Stands;
    Utf8Parts(p, at, text);
    StandsOneMore(p, at, Utf8(text), 0);
    if at + |text| + 1 <= |p| { BytesSpelled(p, at, text); }
  }

  lemma Utf8Parts(p: seq<octet>, at: nat, text: narrow)
    ensures Utf8At(p, at, text) <==> at + |text| + 1 <= |p| && BytesAt(p, at, text) && p[at + |text|] == 0
  {
  }

  // ---- A written request is flagged ----

  lemma NamesAreLong()
    ensures |TOKEN| == 31 && TOKEN == DESCRIPTOR
    ensures |NAME| == 14 && NAME == PROPERTY
  {
  }

  lemma Split(p: seq<octet>, at: nat, a: seq<octet>, b: seq<octet>)
    requires Stands(p, at, a + b)
    ensures Stands(p, at, a) && Stands(p, at + |a|, b)
  {
    var slice := p[at..at + |a + b|];
    assert slice[..|a|] == a && slice[|a|..] == b;
    assert p[at..at + |a|] == slice[..|a|] && p[at + |a|..at + |a| + |b|] == slice[|a|..];
  }

  lemma WordStands(p: seq<octet>, at: nat, b0: octet, b1: octet, b2: octet, b3: octet)
    requires at + 4 <= |p|
    ensures U32(p, at) == b0 + 0x100 * b1 + 0x1_0000 * b2 + 0x100_0000 * b3 <==> Stands(p, at, [b0, b1, b2, b3])
  {
    FourDigits(p[at], p[at + 1], p[at + 2], p[at + 3], b0, b1, b2, b3);
    assert p[at..at + 4] == [p[at], p[at + 1], p[at + 2], p[at + 3]];
  }

  lemma LengthStands(p: seq<octet>, at: nat, n: nat)
    requires n < 256
    ensures at + 4 <= |p| && U32(p, at) == n <==> Stands(p, at, LengthWord(n))
  {
    if at + 4 <= |p| { WordStands(p, at, n, 0, 0, 0); }
  }

  /** One of the four build domains. */
  predicate DomainAt(p: seq<octet>, at: nat) {
    || Stands(p, at, DomainWord(Some("SYST"))) || Stands(p, at, DomainWord(Some("VNDR")))
    || Stands(p, at, DomainWord(Some("RECO"))) || Stands(p, at, DomainWord(Some("UNKN")))
  }

  lemma DomainIs(p: seq<octet>, at: nat, name: string)
    requires IsDomain(name) && at + 4 <= |p|
    ensures Stands(p, at, DomainWord(Some(name)))
            <==> U32(p, at) == if name == "SYST" then 0x53595354 else if name == "VNDR" then 0x564e4452
                               else if name == "RECO" then 0x5245434f else 0x554e4b4e
  {
    WordStands(p, at, name[3] as int, name[2] as int, name[1] as int, name[0] as int);
  }

  lemma DomainStands(p: seq<octet>, at: nat)
    ensures at + 4 <= |p| && DomainTag(U32(p, at)) <==> DomainAt(p, at)
  {
    hide U32, DomainWord;
    FourCharacters("SYST");
    FourCharacters("VNDR");
    FourCharacters("RECO");
    FourCharacters("UNKN");
    if at + 4 <= |p| {
      DomainIs(p, at, "SYST");
      DomainIs(p, at, "VNDR");
      DomainIs(p, at, "RECO");
      DomainIs(p, at, "UNKN");
    }
  }

  lemma FourCharacters(name: string)
    requires IsDomain(name)
    ensures |DomainWord(Some(name))| == 4
  {
  }

  lemma TextStands(p: seq<octet>, at: nat, text: narrow)
    requires Stands(p, at, Utf16(text) + [0, 0])
    ensures Utf16At(p, at, text)
  {
    Utf16AtExactlyWhen(p, at, text);
  }

  lemma StringStands(p: seq<octet>, at: nat, text: narrow)
    requires |text| < 256 && Stands(p, at, LengthWord(|text|) + (Utf16(text) + [0, 0]))
    ensures StringAt(p, at, text)
  {
    hide Utf16, Utf16At, U32, Stands;
    Split(p, at, LengthWord(|text|), Utf16(text) + [0, 0]);
    LengthStands(p, at, |text|);
    TextStands(p, at + 4, text);
  }

  lemma AnyDomain(p: seq<octet>, at: nat, name: string)
    requires IsDomain(name) && Stands(p, at, DomainWord(Some(name)))
    ensures DomainAt(p, at)
  {
    hide Stands, DomainWord;
  }

  lemma TaggedStands(p: seq<octet>, at: nat, name: string, text: narrow)
    requires |text| < 256 && IsDomain(name)
    requires Stands(p, at, LengthWord(|text|) + (DomainWord(Some(name)) + (Utf16(text) + [0, 0])))
    ensures TaggedAt(p, at, text)
  {
    hide Utf16, Utf16At, U32, Stands, DomainTag, DomainAt, DomainWord, IsDomain;
    FourCharacters(name);
    Split(p, at, LengthWord(|text|), DomainWord(Some(name)) + (Utf16(text) + [0, 0]));
    Split(p, at + 4, DomainWord(Some(name)), Utf16(text) + [0, 0]);
    LengthStands(p, at, |text|);
    AnyDomain(p, at + 4, name);
    DomainStands(p, at + 4);
    TextStands(p, at + 8, text);
  }

  /** The descriptor ends at a multiple of four with its zero unit; the property name needs two bytes more. */
  lemma PaddingOfNames()
    ensures Contents(TOKEN) == TOKEN_TEXT && Contents(NAME) == NAME_TEXT + [0, 0]
  {
    hide Utf16;
    NamesAreLong();
    var b := NAME_TEXT;
    assert Padded(b) == Padded(b + [0]) && Padded(b + [0]) == Padded(b + [0] + [0]);
    assert b + [0] + [0] == b + [0, 0];
  }

  function FormOf(domain: Option<string>): Form {
    if domain.None? then Plain else Tagged
  }

  lemma TokenStands(before: seq<octet>, domain: Option<string>, rest: seq<octet>)
    requires domain.Some? ==> IsDomain(domain.value)
    ensures var p := before + (LengthWord(31) + DomainWord(domain) + TOKEN_TEXT + rest);
            if domain.None? then StringAt(p, |before|, TOKEN) else TaggedAt(p, |before|, TOKEN)
  {
    hide Utf16, StringAt, TaggedAt, DomainWord;
    NamesAreLong();
    var p := before + (LengthWord(31) + DomainWord(domain) + TOKEN_TEXT + rest);
    if domain.None? {
      NoDomain();
      assert LengthWord(31) + DomainWord(None) + TOKEN_TEXT == LengthWord(31) + TOKEN_TEXT;
      assert Stands(p, |before|, LengthWord(31) + TOKEN_TEXT);
      StringStands(p, |before|, TOKEN);
    } else {
      assert LengthWord(31) + DomainWord(domain) + TOKEN_TEXT == LengthWord(31) + (DomainWord(domain) + TOKEN_TEXT);
      assert Stands(p, |before|, LengthWord(31) + (DomainWord(domain) + TOKEN_TEXT));
      TaggedStands(p, |before|, domain.value, TOKEN);
    }
  }

  lemma NoDomain()
    ensures DomainWord(None) == []
  {
  }

  /** The written bytes, with the padding spelled out. */
  lemma WrittenIs(before: seq<octet>, domain: Option<string>, after: seq<octet>)
    requires domain.Some? ==> IsDomain(domain.value)
    ensures var token := LengthWord(31) + DomainWord(domain) + TOKEN_TEXT;
            var name := LengthWord(14) + NAME_TEXT;
            && Written(before, domain, after) == before + (token + (name + ([0, 0] + after)))
            && Written(before, domain, after) == (before + token) + (name + ([0, 0] + after))
            && |token| == if domain.Some? then 72 else 68
  {
    hide Utf16, Contents;
    NamesAreLong();
    PaddingOfNames();
  }

  lemma WrittenIsRequest(before: seq<octet>, domain: Option<string>, after: seq<octet>)
    requires domain.Some? ==> IsDomain(domain.value)
    requires |before| % 4 == 0 && |before| <= 32
    ensures ParcelMatcher.IsRequest(Written(before, domain, after), |before|, FormOf(domain))
  {
    hide Utf16, Written, StringAt, TaggedAt, DomainWord;
    WrittenIs(before, domain, after);
    NamesAreLong();
    var token := LengthWord(31) + DomainWord(domain) + TOKEN_TEXT;
    var name := LengthWord(14) + NAME_TEXT;
    TokenStands(before, domain, name + ([0, 0] + after));
    assert Stands(Written(before, domain, after), |before + token|, name);
    StringStands(Written(before, domain, after), |before| + |token|, NAME);
  }

  /** Completeness, for the bytes that a client writes. */
  lemma WrittenIsFlagged(before: seq<octet>, domain: Option<string>, after: seq<octet>)
    requires domain.Some? ==> IsDomain(domain.value)
    requires |before| % 4 == 0 && |before| <= 32
    ensures Scan(Written(before, domain, after), 11, 0, NO_MATCH) == Match(true, |before|, true, 1, 1, 0)
  {
    hide Written, ParcelMatcher.IsRequest, Scan;
    WrittenIsRequest(before, domain, after);
    RequestIsFlagged(Written(before, domain, after), |before|, FormOf(domain), 0);
  }

  /** And the first 256 bytes of its parcel are enough, whatever follows. */
  lemma WrittenInMemoryIsFlagged(mem: seq<octet>, size: nat, buffer: nat,
                                 before: seq<octet>, domain: Option<string>, after: seq<octet>)
    requires domain.Some? ==> IsDomain(domain.value)
    requires |before| % 4 == 0 && |before| <= 32
    requires buffer > 0 && buffer + size <= |mem| && mem[buffer..buffer + size] == Written(before, domain, after)
    ensures var prefix := Captured(mem, size, buffer, false);
            && prefix == Some(mem[buffer..buffer + if size > 256 then 256 else size])
            && Scan(prefix.value, 11, 0, NO_MATCH) == Match(true, |before|, true, 1, 1, 0)
  {
    hide Written, ParcelMatcher.IsRequest, Scan;
    WrittenIsRequest(before, domain, after);
    RequestInMemoryIsFlagged(mem, size, buffer, |before|, FormOf(domain));
  }

  // ---- Which parcels are flagged ----

  /** The interface descriptor behind a length word or anything else of four bytes, or behind its length word and a
      build domain. */
  predicate TokenAt(p: seq<octet>, at: nat) {
    || Stands(p, at + 4, TOKEN_TEXT)
    || (Stands(p, at, LengthWord(31)) && DomainAt(p, at + 4) && Stands(p, at + 8, TOKEN_TEXT))
  }

  /** The first multiple of four up to 32 at which the descriptor is found. */
  ghost predicate FirstToken(p: seq<octet>, at: nat) {
    && at % 4 == 0 && at <= 32 && TokenAt(p, at)
    && forall e: nat :: e % 4 == 0 && e < at ==> !TokenAt(p, e)
  }

  /** The property name with its length word right behind the descriptor, or without it at a multiple of four up to
      64. */
  ghost predicate NameAt(p: seq<octet>, at: nat) {
    var behind := if Stands(p, at + 4, TOKEN_TEXT) then at + 68 else at + 72;
    || (Stands(p, behind, LengthWord(14)) && Stands(p, behind + 4, NAME_TEXT))
    || exists k :: 0 <= k <= 64 && k % 4 == 0 && BareName(p, k)
  }

  predicate BareName(p: seq<octet>, k: nat) {
    Stands(p, k, NAME_TEXT) || Stands(p, k, Utf8(NAME) + [0])
  }

  lemma BareNameIs(p: seq<octet>, k: nat)
    ensures BareName(p, k) <==> LoosePropertyAt(p, k)
  {
    hide Utf16, Utf8, Utf16At, Utf8At;
    Utf16AtExactlyWhen(p, k, NAME);
    Utf8AtExactlyWhen(p, k, NAME);
  }

  lemma TokenIs(p: seq<octet>, at: nat)
    ensures DescriptorForm(p, at) ==
            if Stands(p, at + 4, TOKEN_TEXT) then Plain else if TokenAt(p, at) then Tagged else Absent
  {
    hide Utf16, Utf16At, U32, DomainTag, DomainAt;
    NamesAreLong();
    Utf16AtExactlyWhen(p, at + 4, TOKEN);
    Utf16AtExactlyWhen(p, at + 8, TOKEN);
    LengthStands(p, at, 31);
    DomainStands(p, at + 4);
    if at + 8 <= |p| && DomainTag(U32(p, at + 4)) { TagBeginsNoText(p, at + 4); }
  }

  lemma NameIs(p: seq<octet>, at: nat)
    requires TokenAt(p, at)
    ensures HasProperty(p, at, DescriptorForm(p, at)) <==> NameAt(p, at)
  {
    hide Utf16, Utf16At, U32, DescriptorForm, TokenAt, LoosePropertyAt, BareName;
    NamesAreLong();
    TokenIs(p, at);
    var behind := PropertyOffset(at, DescriptorForm(p, at));
    LengthStands(p, behind, 14);
    Utf16AtExactlyWhen(p, behind + 4, NAME);
    forall k: nat ensures BareName(p, k) <==> LoosePropertyAt(p, k) { BareNameIs(p, k); }
  }

  lemma {:induction false} ScanFinds(p: seq<octet>, at: nat, e: nat)
    requires FirstToken(p, at) && e % 4 == 0 && e <= at
    ensures Scan(p, 11, e, NO_MATCH) ==
            if HasProperty(p, at, DescriptorForm(p, at)) then Match(true, at, true, 1, 1, 0)
            else Match(true, at, false, 1, 0, 0)
    decreases at - e
  {
    hide TokenAt, DescriptorForm, HasProperty;
    TokenIsForm(p, e);
    if e < at { ScanFinds(p, at, e + 4); }
  }

  lemma TokenIsForm(p: seq<octet>, at: nat)
    ensures TokenAt(p, at) <==> DescriptorForm(p, at) != Absent
  {
    hide Utf16, Stands, DomainAt, DescriptorForm;
    TokenIs(p, at);
  }

  /** With the code of the byte-array getter the first descriptor ends the search, and the request is flagged if and
      only if the property name is there. */
  lemma FlaggedExactlyWhen(p: seq<octet>, at: nat)
    requires FirstToken(p, at)
    ensures Scan(p, 11, 0, NO_MATCH) ==
            if NameAt(p, at) then Match(true, at, true, 1, 1, 0) else Match(true, at, false, 1, 0, 0)
  {
    hide TokenAt, DescriptorForm, HasProperty, NameAt, Scan;
    ScanFinds(p, at, 0);
    NameIs(p, at);
  }

  /** Nothing is flagged where no descriptor is, or for another code. */
  lemma {:induction false} OthersAreUnknown(p: seq<octet>, code: nat, e: nat, m: Match)
    requires e % 4 == 0
    requires code == 11 ==> forall at: nat :: at % 4 == 0 && e <= at <= 32 ==> !TokenAt(p, at)
    ensures var after := Scan(p, code, e, m);
            after.deviceId == m.deviceId && after.idHits == m.idHits && after.unknown == m.unknown + 1
    decreases 36 - e
  {
    hide TokenAt, DescriptorForm, HasProperty;
    TokenIsForm(p, e);
    if e <= 32 {
      OthersAreUnknown(p, code, e + 4, m);
      OthersAreUnknown(p, code, e + 4, m.(plugin := true, offset := e, pluginHits := m.pluginHits + 1));
    }
  }
}
