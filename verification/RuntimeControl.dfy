/** The control file: the writer that replaces it atomically, the strict reader, and the migration from the
    version 2 file. System calls take their outcome from a chance: an open, read or write can fail, a read or
    write can be short or interrupted, and so can everything after it fail. */
module RuntimeControl {
  import opened Bytes
  import opened ControlRecord
  import opened Wrappers
  import DoubleSlot

  datatype Status = Ok | Param | NotFound | ReadFailed | WriteFailed | BadType

  type File = Option<seq<byte>>

  datatype Transfer = Moved(bytes: nat) | Interrupted | Broken

  /** How the calls of one writing go. */
  datatype WriteChance = WriteChance(opens: bool, writes: seq<Transfer>, syncs: bool, closes: bool, renames: bool)

  /** How the calls of one reading go; behind the listed reads, reads return all there is. */
  datatype ReadChance = ReadChance(opens: bool, reads_: seq<Transfer>, tailReads: bool)

  /** Whether the writes listed get `left` bytes out. */
  predicate Completes(writes: seq<Transfer>, left: nat) {
    left == 0 || (writes != [] &&
      match writes[0]
      case Moved(n) => n > 0 && Completes(writes[1..], if n < left then left - n else 0)
      case Interrupted => Completes(writes[1..], left)
      case Broken => false)
  }

  predicate WriteWorks(ch: WriteChance) {
    ch.opens && Completes(ch.writes, V3_BYTES) && ch.syncs && ch.closes && ch.renames
  }

  predicate ReadWorks(ch: ReadChance) {
    ch.opens && ch.tailReads && forall t :: t in ch.reads_ ==> !t.Broken?
  }

  /** What a reader says of a file when its calls work. */
  function Contents(f: File): Status {
    match f
    case None => NotFound
    case Some(r) => if |r| != V3_BYTES then ReadFailed else if ValidV3(r) then Ok else BadType
  }

  /** One name with its temporary sibling and the version 2 file, and every content the name has had. */
  class Disk {
    var control: File
    var temporary: File
    var legacy: File
    ghost var past: seq<File>

    constructor (control: File, legacy: File)
      ensures this.control == control && this.legacy == legacy && temporary == None && past == [control]
    {
      this.control, this.legacy, temporary, past := control, legacy, None, [control];
    }

    /** Since an earlier moment the name has held nothing but what it held then, or the record of `c`. */
    ghost predicate Whole(before: File, earlier: nat, c: Config)
      requires |c.id| == ID_SPACE
      reads this
    {
      && earlier <= |past|
      && (forall i :: earlier <= i < |past| ==> past[i] == before || past[i] == Some(Record(c)))
      && (control == before || control == Some(Record(c)))
    }

    /** The writer. Whenever it stops, the name holds the old file or a complete new record. */
    method WriteRecord(c: Config, ch: WriteChance) returns (status: Status)
      requires Sound(c)
      modifies this`control, this`temporary, this`past
      ensures status == if WriteWorks(ch) then Ok else WriteFailed
      ensures control == if status == Ok then Some(Record(c)) else old(control)
      ensures old(past) <= past && Whole(old(control), |old(past)|, c)
      ensures ch.opens ==> temporary == None
    {
      hide Record;
      var record := Record(c);
      if !ch.opens { return WriteFailed; }
      temporary := Some([]);
      past := past + [control];
      var filled := FillTemporary(record, ch.writes, c);
      if !filled || !ch.syncs || !ch.closes || !ch.renames {
        temporary := None;
        past := past + [control];
        return WriteFailed;
      }
      control, temporary := temporary, None;
      past := past + [control];
      return Ok;
    }

    /** The loop of writes to the temporary file. */
    method FillTemporary(record: seq<byte>, writes: seq<Transfer>, ghost c: Config) returns (ok: bool)
      requires temporary == Some([]) && |record| == V3_BYTES && |c.id| == ID_SPACE
      modifies this`temporary, this`past
      ensures ok == Completes(writes, |record|)
      ensures ok ==> temporary == Some(record)
      ensures old(past) <= past && forall i :: |old(past)| <= i < |past| ==> past[i] == control
    {
      hide Record;
      var written, k := 0, 0;
      while written < |record|
        invariant 0 <= k <= |writes| && 0 <= written <= |record| && temporary == Some(record[..written])
        invariant Completes(writes, |record|) == Completes(writes[k..], |record| - written)
        invariant old(past) <= past && forall i :: |old(past)| <= i < |past| ==> past[i] == control
        decreases |writes| - k
      {
        if k == |writes| { return false; }
        assert writes[k..][1..] == writes[k + 1..];
        if writes[k].Broken? || writes[k] == Moved(0) { return false; }
        if writes[k].Moved? {
          var count := if writes[k].bytes < |record| - written then writes[k].bytes else |record| - written;
          temporary := Some(temporary.value + record[written..written + count]);
          assert record[..written] + record[written..written + count] == record[..written + count];
          written := written + count;
        }
        past := past + [control];
        k := k + 1;
      }
      assert record[..written] == record;
      return true;
    }
  }

  /** A file of exactly the record's size is read whole; any other, or a failing read, is an error. */
  method ReadExact(f: File, size: nat, ch: ReadChance) returns (status: Status, record: seq<byte>)
    ensures status in {Ok, NotFound, ReadFailed}
    ensures status == NotFound <==> f == None
    ensures status == Ok ==> f == Some(record) && |record| == size
    ensures ReadWorks(ch) && f.Some? && |f.value| == size ==> status == Ok
  {
    record := [];
    if f.None? { return NotFound, []; }
    if !ch.opens { return ReadFailed, []; }
    var bytes := f.value;
    var used, k := 0, 0;
    var reading := true;
    while used < size && reading
      invariant 0 <= k <= |ch.reads_| && used <= size && used <= |bytes|
      invariant !reading ==> used == |bytes| || !ReadWorks(ch)
      decreases size - used + |ch.reads_| - k, reading
    {
      var t := if k < |ch.reads_| then ch.reads_[k] else Moved(size);
      if k < |ch.reads_| { k := k + 1; }
      if t.Broken? {
        reading := false;
      } else if t.Moved? {
        // A read moves nothing only at the end of the file.
        var some := if t.bytes == 0 then 1 else t.bytes;
        var wanted := if some < size - used then some else size - used;
        var count := if wanted < |bytes| - used then wanted else |bytes| - used;
        if count == 0 { reading := false; }
        used := used + count;
      }
    }
    if used != size || used != |bytes| || !ch.tailReads { return ReadFailed, []; }
    return Ok, bytes;
  }

  method ReadControl(f: File, ch: ReadChance) returns (status: Status, config: Option<Config>)
    ensures status == Ok ==> f.Some? && ValidV3(f.value) && config == Some(ConfigOf(f.value))
    ensures status != Ok ==> config == None
    ensures ReadWorks(ch) ==> status == Contents(f)
  {
    hide ValidV3, ConfigOf;
    var record;
    status, record := ReadExact(f, V3_BYTES, ch);
    if status != Ok { return status, None; }
    var valid := ValidateV3(record);
    if !valid { return BadType, None; }
    return Ok, Some(ConfigOf(record));
  }

  /** The file after a migration, how it ended, and whether it migrated. */
  datatype Migration = Migration(control: File, status: Status, migrated: bool)

  /** A migration whose calls all work. */
  function Migrated(control: File, legacy: File): Migration {
    if control.Some? then Migration(control, Contents(control), false)
    else if legacy.None? then Migration(None, Ok, false)
    else if |legacy.value| != V2_BYTES then Migration(None, ReadFailed, false)
    else if !ValidV2(legacy.value) then Migration(None, BadType, false)
    else if !Sound(ConfigOfV2(legacy.value)) then Migration(None, Param, false)
    else Migration(Some(Record(ConfigOfV2(legacy.value))), Ok, true)
  }

  /** The migration. A file that is there is never touched; what it writes is the record of the converted
      version 2 file, whole; and it reports success only when that reads back. */
  method Migrate(disk: Disk, first: ReadChance, second: ReadChance, writing: WriteChance, third: ReadChance)
    returns (status: Status, migrated: bool)
    modifies disk`control, disk`temporary, disk`past
    ensures old(disk.control).Some? ==> disk.control == old(disk.control)
    ensures disk.control != old(disk.control) ==>
              && disk.legacy == old(disk.legacy) && disk.legacy.Some? && ValidV2(disk.legacy.value)
              && disk.control == Some(Record(ConfigOfV2(disk.legacy.value)))
    ensures migrated ==> status == Ok && disk.control != old(disk.control)
    ensures ReadWorks(first) && ReadWorks(second) && WriteWorks(writing) && ReadWorks(third) ==>
              Migration(disk.control, status, migrated) == Migrated(old(disk.control), disk.legacy)
  {
    hide ValidV3, ValidV2, Record, ConfigOfV2, Sound, WriteWorks, ReadWorks;
    var current, legacy;
    migrated := false;
    status, current := ReadExact(disk.control, V3_BYTES, first);
    if status == Ok {
      var valid := ValidateV3(current);
      return if valid then Ok else BadType, false;
    }
    if status != NotFound { return; }
    status, legacy := ReadExact(disk.legacy, V2_BYTES, second);
    if status == NotFound { return Ok, false; }
    if status != Ok { return; }
    var valid := ValidateV2(legacy);
    if !valid { return BadType, false; }
    var converted := ConfigOfV2(legacy);
    if !Sound(converted) { return Param, false; }
    status := disk.WriteRecord(converted, writing);
    if status != Ok { return; }
    ConvertedReadsBack(legacy);
    var verified;
    status, verified := ReadControl(disk.control, third);
    if status != Ok { return; }
    if verified.value != converted { return ReadFailed, false; }
    return Ok, true;
  }

  lemma ConvertedReadsBack(legacy: seq<byte>)
    requires ValidV2(legacy) && Sound(ConfigOfV2(legacy))
    ensures ValidV3(Record(ConfigOfV2(legacy))) && ConfigOf(Record(ConfigOfV2(legacy))) == ConfigOfV2(legacy)
    ensures |Record(ConfigOfV2(legacy))| == V3_BYTES
  {
    hide ValidV3, ValidV2, Record, ConfigOfV2, Sound, ConfigOf;
    ValidV2Size(legacy);
    ReadBack(ConfigOfV2(legacy));
    ConversionIsSound(legacy);
  }

  /** Migrating again changes nothing and succeeds. */
  lemma MigrationIsIdempotent(control: File, legacy: File)
    requires Migrated(control, legacy).status == Ok
    ensures var once := Migrated(control, legacy);
            Migrated(once.control, legacy) == Migration(once.control, Ok, false)
  {
    hide ValidV3, ValidV2, Record, ConfigOfV2, Sound;
    if Migrated(control, legacy).migrated { ConvertedReadsBack(legacy.value); }
  }

  /** The generations, fingerprint, mode and id of a valid version 2 file with a fingerprint are in the migrated
      one; a file without a fingerprint is refused and left alone. */
  lemma MigrationPreserves(legacy: seq<byte>)
    requires ValidV2(legacy)
    ensures var m := Migrated(None, Some(legacy));
            && (U64(legacy, 32) == 0 ==> m == Migration(None, Param, false))
            && (U64(legacy, 32) != 0 ==>
                  var r := m.control.value;
                  && m.migrated && ValidV3(r) && U64(r, 16) == U64(legacy, 16) && U64(r, 24) == U64(legacy, 24)
                  && U64(r, 32) == U64(legacy, 32) && U32(r, 40) == U32(legacy, 40) && r[48..80] == legacy[184..216])
  {
    hide ValidV3, ValidV2, Record, Sound, U64, U32;
    assert |legacy| == V2_BYTES by { ValidV2Size(legacy); }
    ConversionIsSound(legacy);
    if U64(legacy, 32) != 0 {
      ConvertedReadsBack(legacy);
      var r := Record(ConfigOfV2(legacy));
      assert ConfigOf(r).id[..ID_BYTES] == r[48..80] && ConfigOfV2(legacy).id[..ID_BYTES] == legacy[184..216];
    }
  }

  lemma ValidV2Size(legacy: seq<byte>)
    requires ValidV2(legacy)
    ensures |legacy| == V2_BYTES
  {
  }

  /** A written file reads back as the configuration that was written, trimmed to its id. */
  lemma WrittenReadsBack(c: Config)
    requires Sound(c)
    ensures Contents(Some(Record(c))) == Ok && ConfigOf(Record(c)) == Trimmed(c)
  {
    hide ValidV3, Record, ConfigOf;
    ReadBack(c);
  }

  /** Which files a reader accepts, and what it says of the others. */
  lemma StatusExactlyWhen(f: File)
    ensures Contents(f) == Ok <==> f.Some? && ValidV3(f.value)
    ensures Contents(f) == NotFound <==> f == None
    ensures Contents(f) == ReadFailed <==> f.Some? && |f.value| != 128
    ensures Contents(f) == BadType <==> f.Some? && |f.value| == 128 && !ValidV3(f.value)
  {
    hide U64, U32, Crc32.Crc;
  }

  /** A migration succeeds with a valid file, without any, or with a valid version 2 file that has a fingerprint, and
      only the last makes a file. */
  lemma MigratesExactlyWhen(control: File, legacy: File)
    ensures var m := Migrated(control, legacy);
            var convertible := legacy.Some? && ValidV2(legacy.value) && U64(legacy.value, 32) != 0;
            && (m.status == Ok <==> if control.Some? then ValidV3(control.value) else legacy == None || convertible)
            && (m.migrated <==> control == None && convertible)
            && (!m.migrated ==> m.control == control)
            && (m.status == Param <==>
                  control == None && legacy.Some? && ValidV2(legacy.value) && U64(legacy.value, 32) == 0)
            && m.status in {Ok, ReadFailed, BadType, Param}
  {
    hide ValidV3, Record, ConfigOfV2, Sound, U64;
    if legacy.Some? && ValidV2(legacy.value) { ConversionIsSound(legacy.value); }
    if control.Some? { StatusExactlyWhen(control); }
  }

  function Number(x: bv64): nat { x as int }

  function Word(x: bv32): nat { x as int }

  function Octets(b: seq<byte>): (n: seq<nat>)
    ensures |n| == |b|
  {
    seq(|b|, i requires 0 <= i < |b| => b[i] as int)
  }

  /** What the daemon publishes of a configuration that it has read. */
  function Published(c: Config): DoubleSlot.Content
    requires |c.id| == ID_SPACE
  {
    DoubleSlot.Runtime(Number(c.generation), Number(c.seed), Number(c.fingerprint), Word(c.mode), Word(c.length),
                       Octets(c.id[..32]))
  }

  /** The writer, the reader and the publisher of the active slot accept the same configurations. */
  lemma SoundIsPublishable(c: Config)
    requires |c.id| == ID_SPACE
    ensures Sound(c) <==> DoubleSlot.Valid(Published(c))
  {
    hide Octets, Number, Word;
    ZeroNumber(c.generation);
    ZeroNumber(c.seed);
    ZeroNumber(c.fingerprint);
    WordIs(c.mode, 0);
    WordIs(c.mode, 1);
    WordIs(c.length, 32);
    SmallWords();
    assert c.mode <= 1 <==> c.mode == 0 || c.mode == 1;
  }

  lemma ZeroNumber(x: bv64)
    ensures Number(x) == 0 <==> x == 0
  {
  }

  lemma WordIs(x: bv32, y: bv32)
    ensures Word(x) == Word(y) <==> x == y
  {
    assert Word(x) as bv32 == x && Word(y) as bv32 == y;
  }

  lemma SmallWords()
    ensures Word(0) == 0 && Word(1) == 1 && Word(32) == 32
  {
  }
}
