/** Recognition of a deviceUniqueId request in the first bytes of its parcel: the interface descriptor in one of
    three forms at one of nine offsets, and behind it, or anywhere near, the property name. */
module ParcelMatcher {
  import opened Wrappers
  import opened UserBytes

  const PREFIX_BYTES := 256
  const LAST_OFFSET := 32
  const LAST_RAW_OFFSET := 64
  const GET_PROPERTY_BYTE_ARRAY := 11
  const DESCRIPTOR := "android.hardware.drm.IDrmPlugin"
  const PROPERTY := "deviceUniqueId"

  const DESCRIPTOR_UNITS := 31
  const PROPERTY_UNITS := 14

  lemma Lengths()
    ensures |DESCRIPTOR| == DESCRIPTOR_UNITS && |PROPERTY| == PROPERTY_UNITS
  {
  }

  lemma NoTerminatorInside(i: nat)
    requires i < |DESCRIPTOR|
    ensures DESCRIPTOR[i] as int != 0
  {
  }

  /** The text in UTF-16 with its terminator, all of it inside the captured bytes. */
  predicate Utf16At(p: seq<octet>, at: nat, text: string) {
    && at + 2 * |text| + 2 <= |p|
    && (forall i :: 0 <= i < |text| ==> U16(p, at + 2 * i) == text[i] as int)
    && U16(p, at + 2 * |text|) == 0
  }

  /** The text in UTF-8 with its terminator, all of it inside the captured bytes. */
  predicate Utf8At(p: seq<octet>, at: nat, text: string) {
    && at + |text| + 1 <= |p|
    && (forall i :: 0 <= i < |text| ==> p[at + i] == text[i] as int)
    && p[at + |text|] == 0
  }

  /** A length word and the text it counts. */
  predicate StringAt(p: seq<octet>, at: nat, text: string) {
    at + 4 <= |p| && U32(p, at) == |text| && Utf16At(p, at + 4, text)
  }

  /** The build domains SYST, VNDR, RECO and UNKN. */
  predicate DomainTag(word: nat) {
    word == 0x53595354 || word == 0x564e4452 || word == 0x5245434f || word == 0x554e4b4e
  }

  /** A length word, a domain tag, and the text. */
  predicate TaggedAt(p: seq<octet>, at: nat, text: string) {
    at + 8 <= |p| && U32(p, at) == |text| && DomainTag(U32(p, at + 4)) && Utf16At(p, at + 8, text)
  }

  datatype Form = Absent | Plain | Tagged

  /** The form of the descriptor at a token offset. The last form asks for the text only. */
  function DescriptorForm(p: seq<octet>, at: nat): Form {
    if StringAt(p, at, DESCRIPTOR) then Plain
    else if TaggedAt(p, at, DESCRIPTOR) then Tagged
    else if Utf16At(p, at + 4, DESCRIPTOR) then Plain
    else Absent
  }

  /** Where the property string of a request stands: behind the descriptor and its terminator, rounded up to
      four. */
  function PropertyOffset(at: nat, form: Form): nat {
    at + 4 + 2 * (DESCRIPTOR_UNITS + 1) + if form.Tagged? then 4 else 0
  }

  /** The fallback: the bare property name at a multiple of four up to 64, in either encoding. */
  predicate LooseProperty(p: seq<octet>) {
    exists k :: 0 <= k <= LAST_RAW_OFFSET && k % 4 == 0 && LoosePropertyAt(p, k)
  }

  predicate LoosePropertyAt(p: seq<octet>, k: nat) {
    Utf16At(p, k, PROPERTY) || Utf8At(p, k, PROPERTY)
  }

  predicate HasProperty(p: seq<octet>, at: nat, form: Form) {
    StringAt(p, PropertyOffset(at, form), PROPERTY) || LooseProperty(p)
  }

  /** The parser scratch: token found and its offset, the device-id flag, and the three counters raised. */
  datatype Match = Match(plugin: bool, offset: nat, deviceId: bool, pluginHits: nat, idHits: nat, unknown: nat)

  const NO_MATCH := Match(false, 0, false, 0, 0, 0)

  /** The scan from one token offset on. A descriptor counts as a hit at every offset that has it, but only a
      property-byte-array transaction ends the scan. */
  function Scan(p: seq<octet>, code: nat, at: nat, m: Match): Match
    decreases LAST_OFFSET + 4 - at
  {
    if at > LAST_OFFSET then m.(unknown := m.unknown + 1) else
    var form := DescriptorForm(p, at);
    if form.Absent? then Scan(p, code, at + 4, m) else
    var hit := m.(plugin := true, offset := at, pluginHits := m.pluginHits + 1);
    if code != GET_PROPERTY_BYTE_ARRAY then Scan(p, code, at + 4, hit)
    else if HasProperty(p, at, form) then hit.(deviceId := true, idHits := hit.idHits + 1)
    else hit
  }

  /** Soundness. The flag means transaction code 11 and, inside the captured bytes, the exact terminated
      descriptor and the exact terminated property name. */
  lemma {:induction false} FlagIsSound(p: seq<octet>, code: nat, at: nat, m: Match)
    requires !m.deviceId && Scan(p, code, at, m).deviceId
    ensures code == GET_PROPERTY_BYTE_ARRAY
    ensures exists d :: 0 <= d && Utf16At(p, d, DESCRIPTOR)
    ensures exists q :: 0 <= q && LoosePropertyAt(p, q)
    decreases LAST_OFFSET + 4 - at
  {
    hide DescriptorForm, HasProperty, Utf16At, LoosePropertyAt;
    var form := DescriptorForm(p, at);
    if form.Absent? {
      FlagIsSound(p, code, at + 4, m);
    } else if code != GET_PROPERTY_BYTE_ARRAY {
      FlagIsSound(p, code, at + 4, m.(plugin := true, offset := at, pluginHits := m.pluginHits + 1));
    } else {
      MatchIsThere(p, at, form);
    }
  }

  lemma MatchIsThere(p: seq<octet>, at: nat, form: Form)
    requires form == DescriptorForm(p, at) != Absent && HasProperty(p, at, form)
    ensures exists d :: 0 <= d && Utf16At(p, d, DESCRIPTOR)
    ensures exists q :: 0 <= q && LoosePropertyAt(p, q)
  {
    hide U32, Utf16At, Utf8At, PropertyOffset;
    assert Utf16At(p, at + 4, DESCRIPTOR) || Utf16At(p, at + 8, DESCRIPTOR);
    if StringAt(p, PropertyOffset(at, form), PROPERTY) {
      assert LoosePropertyAt(p, PropertyOffset(at, form) + 4);
    }
  }

  /** The terminator keeps the descriptor from overlapping itself. */
  lemma NoOverlap(p: seq<octet>, d: nat, e: nat)
    requires Utf16At(p, d, DESCRIPTOR) && e < d && (d - e) % 2 == 0 && d - e <= 62
    ensures !Utf16At(p, e, DESCRIPTOR)
  {
    hide U16;
    Lengths();
    var i := DESCRIPTOR_UNITS - (d - e) / 2;
    NoTerminatorInside(i);
    assert e + 2 * DESCRIPTOR_UNITS == d + 2 * i;
  }

  /** A request as the framework or a vendor client writes it: token offset a multiple of four up to 32, any
      bytes before it, descriptor plain or behind a domain tag, and the property string next. */
  ghost predicate IsRequest(p: seq<octet>, at: nat, form: Form) {
    && at % 4 == 0 && at <= LAST_OFFSET
    && (match form
        case Absent => false
        case Plain => StringAt(p, at, DESCRIPTOR)
        case Tagged => TaggedAt(p, at, DESCRIPTOR))
    && StringAt(p, PropertyOffset(at, form), PROPERTY)
  }

  lemma NothingEarlier(p: seq<octet>, at: nat, form: Form, e: nat)
    requires IsRequest(p, at, form) && e % 4 == 0 && e < at
    ensures DescriptorForm(p, e) == Absent
  {
    hide Utf16At, U32, PropertyOffset;
    Lengths();
    var d := at + if form.Tagged? then 8 else 4;
    EvenGap(d, e + 4);
    NoOverlap(p, d, e + 4);
    EvenGap(d, e + 8);
    if e + 8 < d { NoOverlap(p, d, e + 8); }
  }

  lemma EvenGap(d: nat, e: nat)
    requires d % 4 == 0 && e % 4 == 0
    ensures (d - e) % 2 == 0
  {
    Even(d - e, 2 * (d / 4) - 2 * (e / 4));
  }

  lemma Even(n: int, half: int)
    requires n == 2 * half
    ensures n % 2 == 0
  {
  }

  lemma TagBeginsNoText(p: seq<octet>, at: nat)
    requires at + 4 <= |p| && DomainTag(U32(p, at))
    ensures !Utf16At(p, at, DESCRIPTOR)
  {
    hide Utf16At, DomainTag, U16;
    if Utf16At(p, at, DESCRIPTOR) {
      FirstUnit(p, at);
      NoTagBeginsSo(U16(p, at + 2));
    }
  }

  lemma FirstUnit(p: seq<octet>, at: nat)
    requires Utf16At(p, at, DESCRIPTOR)
    ensures at + 4 <= |p| && U16(p, at) == 97
  {
    hide U16;
    Lengths();
    assert DESCRIPTOR[0] as int == 97;
    assert U16(p, at + 2 * 0) == U16(p, at);
  }

  lemma NoTagBeginsSo(high: nat)
    ensures !DomainTag(97 + 0x1_0000 * high)
  {
  }

  lemma RequestForm(p: seq<octet>, at: nat, form: Form)
    requires IsRequest(p, at, form)
    ensures DescriptorForm(p, at) == form
  {
    hide U32, PropertyOffset;
    if form.Tagged? {
      TagBeginsNoText(p, at + 4);
    }
  }

  /** Completeness. Every such request is flagged, at its own offset. */
  lemma {:induction false} RequestIsFlagged(p: seq<octet>, at: nat, form: Form, e: nat)
    requires IsRequest(p, at, form) && e % 4 == 0 && e <= at
    ensures Scan(p, GET_PROPERTY_BYTE_ARRAY, e, NO_MATCH) == Match(true, at, true, 1, 1, 0)
    decreases at - e
  {
    hide DescriptorForm, StringAt, TaggedAt, LooseProperty, PropertyOffset;
    if e < at {
      NothingEarlier(p, at, form, e);
      RequestIsFlagged(p, at, form, e + 4);
    } else {
      RequestForm(p, at, form);
    }
  }

  lemma PrefixWords(data: seq<octet>, n: nat, k: nat)
    requires k + 2 <= n <= |data|
    ensures U16(data[..n], k) == U16(data, k)
    ensures k + 4 <= n ==> U32(data[..n], k) == U32(data, k)
  {
  }

  /** The captured prefix of a parcel is enough to see a request in it. */
  lemma PrefixIsEnough(data: seq<octet>, at: nat, form: Form)
    requires IsRequest(data, at, form)
    ensures IsRequest(data[..if |data| > PREFIX_BYTES then PREFIX_BYTES else |data|], at, form)
  {
    hide U32, U16;
    Lengths();
    var p := data[..if |data| > PREFIX_BYTES then PREFIX_BYTES else |data|];
    var q := PropertyOffset(at, form);
    assert q + 4 + 2 * PROPERTY_UNITS + 2 <= |p|;
    forall k: nat | k + 2 <= |p| ensures U16(p, k) == U16(data, k) { PrefixWords(data, |p|, k); }
    forall k: nat | k + 4 <= |p| ensures U32(p, k) == U32(data, k) { PrefixWords(data, |p|, k); }
  }

  // ---- The emitted comparisons, as loops ----

  method MatchUtf16(p: seq<octet>, at: nat, text: string) returns (matched: bool)
    requires at + 2 * |text| + 2 <= |p|
    ensures matched <==> Utf16At(p, at, text)
  {
    for index := 0 to |text|
      invariant forall i :: 0 <= i < index ==> U16(p, at + 2 * i) == text[i] as int
    {
      if U16(p, at + 2 * index) != text[index] as int { return false; }
    }
    return U16(p, at + 2 * |text|) == 0;
  }

  method MatchUtf8(p: seq<octet>, at: nat, text: string) returns (matched: bool)
    requires at + |text| + 1 <= |p|
    ensures matched <==> Utf8At(p, at, text)
  {
    for index := 0 to |text|
      invariant forall i :: 0 <= i < index ==> p[at + i] == text[i] as int
    {
      if p[at + index] != text[index] as int { return false; }
    }
    return p[at + |text|] == 0;
  }

  /** Every comparison is guarded by the number of captured bytes. */
  method TryUtf16(p: seq<octet>, at: nat, text: string) returns (matched: bool)
    ensures matched <==> Utf16At(p, at, text)
  {
    if |p| < at + 2 * (|text| + 1) { return false; }
    matched := MatchUtf16(p, at, text);
  }

  method TryUtf8(p: seq<octet>, at: nat, text: string) returns (matched: bool)
    ensures matched <==> Utf8At(p, at, text)
  {
    if |p| < at + |text| + 1 { return false; }
    matched := MatchUtf8(p, at, text);
  }

  method MatchDescriptor(p: seq<octet>, at: nat) returns (form: Form)
    ensures form == DescriptorForm(p, at)
  {
    hide Utf16At, U32;
    Lengths();
    if |p| >= at + 4 && U32(p, at) == DESCRIPTOR_UNITS {
      var plain := TryUtf16(p, at + 4, DESCRIPTOR);
      if plain { return Plain; }
    }
    if |p| >= at + 8 && U32(p, at) == DESCRIPTOR_UNITS && DomainTag(U32(p, at + 4)) {
      var tagged := TryUtf16(p, at + 8, DESCRIPTOR);
      if tagged { return Tagged; }
    }
    var raw := TryUtf16(p, at + 4, DESCRIPTOR);
    if raw { return Plain; }
    return Absent;
  }

  method MatchLooseProperty(p: seq<octet>) returns (found: bool)
    ensures found <==> LooseProperty(p)
  {
    hide Utf16At, Utf8At;
    var k := 0;
    while k <= LAST_RAW_OFFSET
      invariant 0 <= k && k % 4 == 0
      invariant forall j :: 0 <= j < k && j % 4 == 0 ==> !Utf16At(p, j, PROPERTY)
    {
      found := TryUtf16(p, k, PROPERTY);
      if found { assert LoosePropertyAt(p, k); return; }
      k := k + 4;
    }
    k := 0;
    while k <= LAST_RAW_OFFSET
      invariant 0 <= k && k % 4 == 0
      invariant forall j :: 0 <= j < k && j % 4 == 0 ==> !Utf8At(p, j, PROPERTY)
    {
      found := TryUtf8(p, k, PROPERTY);
      if found { assert LoosePropertyAt(p, k); return; }
      k := k + 4;
    }
    return false;
  }

  /** The property string where the descriptor says it is, and failing that the fallback. */
  method MatchProperty(p: seq<octet>, at: nat, form: Form) returns (found: bool)
    ensures found <==> HasProperty(p, at, form)
  {
    hide Utf16At, LooseProperty, U32, PropertyOffset;
    Lengths();
    var q := PropertyOffset(at, form);
    if |p| >= q + 4 && U32(p, q) == PROPERTY_UNITS {
      found := TryUtf16(p, q + 4, PROPERTY);
      if found { return; }
    }
    found := MatchLooseProperty(p);
  }

  lemma ScanStep(p: seq<octet>, code: nat, at: nat, m: Match)
    requires at <= LAST_OFFSET
    ensures var form := DescriptorForm(p, at);
            var hit := m.(plugin := true, offset := at, pluginHits := m.pluginHits + 1);
            && (form.Absent? ==> Scan(p, code, at, m) == Scan(p, code, at + 4, m))
            && (!form.Absent? && code != GET_PROPERTY_BYTE_ARRAY ==>
                  Scan(p, code, at, m) == Scan(p, code, at + 4, hit))
            && (!form.Absent? && code == GET_PROPERTY_BYTE_ARRAY ==>
                  Scan(p, code, at, m)
                  == if HasProperty(p, at, form) then hit.(deviceId := true, idHits := hit.idHits + 1) else hit)
  {
    hide DescriptorForm, HasProperty;
  }

  lemma ScanEnd(p: seq<octet>, code: nat, at: nat, m: Match)
    requires at > LAST_OFFSET
    ensures Scan(p, code, at, m) == m.(unknown := m.unknown + 1)
  {
  }

  method TryParcelDescriptor(p: seq<octet>, code: nat) returns (m: Match)
    ensures m == Scan(p, code, 0, NO_MATCH)
  {
    hide DescriptorForm, HasProperty, Scan;
    m := NO_MATCH;
    var at := 0;
    while at <= LAST_OFFSET
      invariant 0 <= at && at % 4 == 0
      invariant Scan(p, code, at, m) == Scan(p, code, 0, NO_MATCH)
      invariant !m.deviceId
      decreases LAST_OFFSET + 4 - at
    {
      ScanStep(p, code, at, m);
      var form := MatchDescriptor(p, at);
      if !form.Absent? {
        m := m.(plugin := true, offset := at, pluginHits := m.pluginHits + 1);
        if code == GET_PROPERTY_BYTE_ARRAY {
          var found := MatchProperty(p, at, form);
          if found { m := m.(deviceId := true, idHits := m.idHits + 1); }
          return;
        }
      }
      at := at + 4;
    }
    ScanEnd(p, code, at, m);
    m := m.(unknown := m.unknown + 1);
  }

  /** What the hook captures of a request parcel, or nothing when the copy faults: at most 256 bytes. */
  function Captured(mem: seq<octet>, size: nat, buffer: nat, fault: bool): Option<seq<octet>> {
    var n := if size > PREFIX_BYTES then PREFIX_BYTES else size;
    if size == 0 then Some([])
    else if buffer == 0 || fault || buffer + n > |mem| then None
    else Some(mem[buffer..buffer + n])
  }

  /** From the transaction to the flag. */
  method CaptureParcelPrefix(mem: seq<octet>, size: nat, buffer: nat, code: nat, fault: bool)
    returns (prefix: Option<seq<octet>>, m: Match)
    ensures prefix == Captured(mem, size, buffer, fault)
    ensures prefix.Some? ==> |prefix.value| <= PREFIX_BYTES
    ensures m == if prefix.Some? then Scan(prefix.value, code, 0, NO_MATCH) else NO_MATCH
  {
    hide Scan;
    m := NO_MATCH;
    if size == 0 {
      prefix := Some([]);
    } else {
      var n := if size > PREFIX_BYTES then PREFIX_BYTES else size;
      if buffer == 0 || fault || buffer + n > |mem| { return None, m; }
      prefix := Some(mem[buffer..buffer + n]);
    }
    m := TryParcelDescriptor(prefix.value, code);
  }

  /** A request in readable memory is flagged, whatever its length. */
  lemma RequestInMemoryIsFlagged(mem: seq<octet>, size: nat, buffer: nat, at: nat, form: Form)
    requires buffer > 0 && buffer + size <= |mem| && IsRequest(mem[buffer..buffer + size], at, form)
    ensures var prefix := Captured(mem, size, buffer, false);
            prefix.Some? && Scan(prefix.value, GET_PROPERTY_BYTE_ARRAY, 0, NO_MATCH) == Match(true, at, true, 1, 1, 0)
  {
    hide IsRequest, Scan;
    var data := mem[buffer..buffer + size];
    var prefix := Captured(mem, size, buffer, false);
    assert prefix.value == data[..if |data| > PREFIX_BYTES then PREFIX_BYTES else |data|];
    PrefixIsEnough(data, at, form);
    RequestAligned(prefix.value, at, form);
    RequestIsFlagged(prefix.value, at, form, 0);
  }

  lemma RequestAligned(p: seq<octet>, at: nat, form: Form)
    ensures IsRequest(p, at, form) ==> at % 4 == 0
  {
  }
}
