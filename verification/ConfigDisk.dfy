/** The configuration file of src/config.rs: its checksummed format, the atomic save with a backup chain,
    and what a crash at any point of a save leaves to load. */
module ConfigDisk {
  import opened Prelude
  import opened Config

  type Bytes = seq<u8>

  // ---- the format ----

  /** The libraries the format is built on: the record encoding and the CRC-32. */
  datatype Codec = Codec(encode: ConfigFile -> Bytes, decode: Bytes -> Option<ConfigFile>, crc: Bytes -> u32)

  /** What is asked of the encoding of a configuration that is written: it decodes to what was encoded, and
      its length fits the header. Nothing is asked of the checksum. */
  predicate Encodes(k: Codec, c: ConfigFile) {
    k.decode(k.encode(c)) == Some(c) && Fits(k, c)
  }

  datatype LoadError = BadMagic | Truncated | ChecksumMismatch | Undecodable | UnsupportedVersion

  function Magic(): (r: Bytes)
    ensures |r| == 4
  {
    [88, 68, 66, 49]
  }

  /** Little-endian 32 bits, of the number modulo 2^32. */
  function Le32(n: nat): (r: Bytes)
    ensures |r| == 4
    ensures n < 0x1_0000_0000 ==> FromLe32(r) == n
  {
    Le32Inverse(n);
    [n % 256, n / 256 % 256, n / 65536 % 256, n / 16777216 % 256]
  }

  function FromLe32(b: Bytes): (r: nat)
    requires |b| == 4
  {
    256 * (256 * (256 * (b[3] as int) + b[2]) + b[1]) + b[0]
  }

  /** Four bytes keep a number modulo 2^32. */
  lemma Le32Inverse(n: nat)
    ensures FromLe32([n % 256, n / 256 % 256, n / 65536 % 256, n / 16777216 % 256]) == n % 0x1_0000_0000
  {
    var a, b, c := n / 256, n / 65536, n / 16777216;
    assert b == a / 256 && c == b / 256;
    assert n == 256 * a + n % 256 && a == 256 * b + a % 256 && b == 256 * c + b % 256;
    var r := FromLe32([n % 256, n / 256 % 256, n / 65536 % 256, n / 16777216 % 256]);
    assert r == n % 256 + 256 * (a % 256) + 65536 * (b % 256) + 16777216 * (c % 256);
    assert n == r + 0x1_0000_0000 * (c / 256) && 0 <= r < 0x1_0000_0000;
    Mod32(n, r, c / 256);
  }

  lemma Mod32(n: nat, r: nat, q: nat)
    requires n == r + 0x1_0000_0000 * q && r < 0x1_0000_0000
    ensures n % 0x1_0000_0000 == r
  {
  }

  /** `serialize_with_checksum`; a payload of 4 GiB or more gets a truncated length. */
  function Serialize(k: Codec, c: ConfigFile): Bytes {
    var payload := k.encode(c);
    Magic() + (Le32(k.crc(payload)) + (Le32(|payload|) + payload))
  }

  /** `deserialize_with_checksum`. */
  function Deserialize(k: Codec, bytes: Bytes): Result<ConfigFile, LoadError> {
    if |bytes| < 12 || bytes[..4] != Magic() then Err(BadMagic)
    else
      var crc, len := FromLe32(bytes[4..8]), FromLe32(bytes[8..12]);
      if 12 + len > |bytes| then Err(Truncated)
      else
        var payload := bytes[12..12 + len];
        if k.crc(payload) != crc then Err(ChecksumMismatch)
        else match k.decode(payload)
          case None => Err(Undecodable)
          case Some(c) => if c.version == VERSION then Ok(c) else Err(UnsupportedVersion)
  }

  predicate Fits(k: Codec, c: ConfigFile) {
    |k.encode(c)| < 0x1_0000_0000
  }

  /** The four fields of a header followed by a payload. */
  lemma HeaderParts(a: Bytes, b: Bytes, c: Bytes, payload: Bytes)
    requires |a| == |b| == |c| == 4
    ensures var f := a + (b + (c + payload));
            |f| == 12 + |payload| && f[..4] == a && f[4..8] == b && f[8..12] == c && f[12..] == payload
  {
  }

  lemma SerializedParts(k: Codec, c: ConfigFile)
    requires Fits(k, c)
    ensures var (f, payload) := (Serialize(k, c), k.encode(c));
            |f| == 12 + |payload| && f[..4] == Magic() && FromLe32(f[4..8]) == k.crc(payload) &&
            FromLe32(f[8..12]) == |payload| && f[12..] == payload
  {
    var payload := k.encode(c);
    HeaderParts(Magic(), Le32(k.crc(payload)), Le32(|payload|), payload);
  }

  /** A saved file loads back as what was saved, if and only if it has the current version. */
  lemma RoundTripIff(k: Codec, c: ConfigFile)
    requires Encodes(k, c)
    ensures Deserialize(k, Serialize(k, c)) == Ok(c) <==> c.version == VERSION
    ensures c.version != VERSION ==> Deserialize(k, Serialize(k, c)) == Err(UnsupportedVersion)
  {
    SerializedParts(k, c);
    var f := Serialize(k, c);
    assert f[12..12 + |k.encode(c)|] == k.encode(c);
  }

  /** No part of a saved file loads: every strict prefix is refused. */
  lemma PrefixRefused(k: Codec, c: ConfigFile, n: nat)
    requires Fits(k, c) && n < |Serialize(k, c)|
    ensures Deserialize(k, Serialize(k, c)[..n]) == Err(if n < 12 then BadMagic else Truncated)
  {
    SerializedParts(k, c);
    var f := Serialize(k, c);
    if n >= 12 {
      assert f[..n][..4] == f[..4] && f[..n][4..8] == f[4..8] && f[..n][8..12] == f[8..12];
    }
  }

  // ---- the directory ----

  const MAX_BACKUPS: nat := 5

  datatype Name = Current | Backup(i: nat) | Temp

  type Disk = map<Name, Bytes>

  function File(d: Disk, n: Name): Option<Bytes> {
    if n in d then Some(d[n]) else None
  }

  function Rename(d: Disk, from: Name, to: Name): Disk {
    if from in d then (d - {from})[to := d[from]] else d
  }

  /** The chain with the oldest backup removed and backups `i`.. moved up by one. */
  function Moved(d: Disk, i: nat): Disk
    requires 1 <= i <= MAX_BACKUPS
    decreases MAX_BACKUPS - i
  {
    if i == MAX_BACKUPS then d - {Backup(i)} else Rename(Moved(d, i + 1), Backup(i), Backup(i + 1))
  }

  /** A prefix of the current file copied over the newest backup. */
  function Copied(d: Disk, n: nat): Disk {
    if Current in d && n <= |d[Current]| then Moved(d, 1)[Backup(1) := d[Current][..n]] else Moved(d, 1)
  }

  function AllCopied(d: Disk): Disk {
    if Current in d then Copied(d, |d[Current]|) else Copied(d, 0)
  }

  /** Where a save can stop: before anything, after the removal and the renames down to backup `i`, with `n` bytes of
      the backup copied, with `n` bytes of the temporary file written, or at the end. */
  datatype Point = Start | Moving(i: nat) | Copying(n: nat) | Writing(n: nat) | Done

  predicate IsPoint(d: Disk, bytes: Bytes, p: Point) {
    match p
    case Moving(i) => 1 <= i <= MAX_BACKUPS
    case Copying(n) => Current in d && n <= |d[Current]|
    case Writing(n) => n <= |bytes|
    case _ => true
  }

  /** What is on disk when a save of `bytes` stops there. */
  function StoppedAt(d: Disk, bytes: Bytes, p: Point): Disk
    requires IsPoint(d, bytes, p)
  {
    match p
    case Start => d
    case Moving(i) => Moved(d, i)
    case Copying(n) => Copied(d, n)
    case Writing(n) => AllCopied(d)[Temp := bytes[..n]]
    case Done => Rename(AllCopied(d)[Temp := bytes], Temp, Current)
  }

  class ConfigStore {
    var disk: Disk
    /** Every state the directory has been in. */
    ghost var trace: seq<Disk>

    constructor (d: Disk)
      ensures disk == d && trace == []
    {
      disk, trace := d, [];
    }

    method Note()
      modifies this`trace
      ensures trace == old(trace) + [disk]
    {
      trace := trace + [disk];
    }

    /** `rotate_backups`: drop the oldest, shift the rest, copy the current file byte by byte. */
    method RotateBackups(ghost bytes: Bytes)
      modifies this
      ensures disk == AllCopied(old(disk))
      ensures |trace| >= |old(trace)| && trace[..|old(trace)|] == old(trace)
      ensures forall j :: |old(trace)| <= j < |trace| ==> Passes(old(disk), bytes, trace[j])
    {
      ghost var d, t := disk, trace;
      disk := disk - {Backup(MAX_BACKUPS)};
      Pass(d, bytes, Moving(MAX_BACKUPS));
      Note();
      var i := MAX_BACKUPS;
      while i > 1
        invariant 1 <= i <= MAX_BACKUPS && disk == Moved(d, i)
        invariant |trace| >= |t| && trace[..|t|] == t
        invariant forall j :: |t| <= j < |trace| ==> Passes(d, bytes, trace[j])
      {
        i := i - 1;
        disk := Rename(disk, Backup(i), Backup(i + 1));
        Pass(d, bytes, Moving(i));
        Note();
      }
      CurrentStays(d, 1);
      if Current in disk {
        CopyCurrent(d, t, bytes);
      }
    }

    /** The copy writes the backup byte by byte. */
    method CopyCurrent(ghost d: Disk, ghost t: seq<Disk>, ghost bytes: Bytes)
      requires disk == Moved(d, 1) && File(disk, Current) == File(d, Current) && Current in disk
      requires |trace| >= |t| && trace[..|t|] == t
      requires forall j :: |t| <= j < |trace| ==> Passes(d, bytes, trace[j])
      modifies this
      ensures disk == AllCopied(d) && |trace| >= |t| && trace[..|t|] == t
      ensures forall j :: |t| <= j < |trace| ==> Passes(d, bytes, trace[j])
    {
      var source := disk[Current];
      disk := disk[Backup(1) := []];
      Pass(d, bytes, Copying(0));
      Note();
      for n := 0 to |source|
        invariant disk == Copied(d, n) && |trace| >= |t| && trace[..|t|] == t
        invariant forall j :: |t| <= j < |trace| ==> Passes(d, bytes, trace[j])
      {
        disk := disk[Backup(1) := disk[Backup(1)] + [source[n]]];
        assert source[..n + 1] == source[..n] + [source[n]];
        Pass(d, bytes, Copying(n + 1));
        Note();
      }
    }

    /** `save_to_disk`: backups, temporary file, rename. It passes through no states but the listed ones. */
    method SaveToDisk(k: Codec, c: ConfigFile) returns (bytes: Bytes)
      modifies this
      ensures bytes == Serialize(k, c)
      ensures disk == StoppedAt(old(disk), bytes, Done)
      ensures |trace| > |old(trace)| && trace[..|old(trace)|] == old(trace)
      ensures forall j :: |old(trace)| <= j < |trace| ==> Passes(old(disk), bytes, trace[j])
    {
      bytes := Serialize(k, c);
      ghost var d, t := disk, trace;
      RotateBackups(bytes);
      WriteTemp(d, t, bytes);
      disk := Rename(disk, Temp, Current);
      Pass(d, bytes, Done);
      Note();
    }

    method WriteTemp(ghost d: Disk, ghost t: seq<Disk>, bytes: Bytes)
      requires disk == AllCopied(d) && |trace| >= |t| && trace[..|t|] == t
      requires forall j :: |t| <= j < |trace| ==> Passes(d, bytes, trace[j])
      modifies this
      ensures disk == AllCopied(d)[Temp := bytes] && |trace| >= |t| && trace[..|t|] == t
      ensures forall j :: |t| <= j < |trace| ==> Passes(d, bytes, trace[j])
    {
      ghost var base := disk;
      disk := disk[Temp := []];
      PassWriting(d, base, bytes, 0);
      Note();
      for n := 0 to |bytes|
        invariant disk == base[Temp := bytes[..n]] && |trace| >= |t| && trace[..|t|] == t
        invariant forall j :: |t| <= j < |trace| ==> Passes(d, bytes, trace[j])
      {
        disk := disk[Temp := disk[Temp] + [bytes[n]]];
        PassWriting(d, base, bytes, n + 1);
        Note();
      }
      assert bytes[..|bytes|] == bytes;
    }

    /** `load_from_disk`: the first of the current file and the backups that is valid, sanitized; else the
        defaults, which are saved. */
    method LoadFromDisk(k: Codec, now: int) returns (c: ConfigFile)
      modifies this
      ensures c == (match Load(k, old(disk)) case Some(found) => found case None => Default(now))
      ensures Load(k, old(disk)).Some? ==> disk == old(disk)
      ensures Load(k, old(disk)).None? ==> disk == StoppedAt(old(disk), Serialize(k, Default(now)), Done)
    {
      var i := 0;
      while i <= MAX_BACKUPS
        invariant i <= MAX_BACKUPS + 1 && disk == old(disk)
        invariant Load(k, disk) == LoadFrom(k, disk, i)
      {
        var name := Candidate(i);
        if name in disk {
          var r := Deserialize(k, disk[name]);
          if r.Ok? {
            return Sanitized(r.value);
          }
        }
        i := i + 1;
      }
      c := Default(now);
      var bytes := SaveToDisk(k, c);
    }
  }

  /** The states a save passes through. */
  ghost predicate Passes(d: Disk, bytes: Bytes, now: Disk) {
    exists p :: IsPoint(d, bytes, p) && StoppedAt(d, bytes, p) == now
  }

  lemma Pass(d: Disk, bytes: Bytes, p: Point)
    requires IsPoint(d, bytes, p)
    ensures Passes(d, bytes, StoppedAt(d, bytes, p))
  {
  }

  lemma PassWriting(d: Disk, base: Disk, bytes: Bytes, n: nat)
    requires n <= |bytes| && base == AllCopied(d)
    ensures Passes(d, bytes, base[Temp := bytes[..n]])
    ensures n > 0 ==> base[Temp := bytes[..n]] == base[Temp := bytes[..n - 1]][Temp := bytes[..n - 1] + [bytes[n - 1]]]
  {
    Pass(d, bytes, Writing(n));
    assert n > 0 ==> bytes[..n] == bytes[..n - 1] + [bytes[n - 1]];
  }

  function Candidate(i: nat): Name {
    if i == 0 then Current else Backup(i)
  }

  function LoadFrom(k: Codec, d: Disk, i: nat): Option<ConfigFile>
    decreases MAX_BACKUPS + 1 - i
  {
    if i > MAX_BACKUPS then None
    else if Complete(k, d, Candidate(i)) then Some(Sanitized(Deserialize(k, d[Candidate(i)]).value))
    else LoadFrom(k, d, i + 1)
  }

  function Load(k: Codec, d: Disk): Option<ConfigFile> {
    LoadFrom(k, d, 0)
  }

  /** A file that loads. */
  predicate Complete(k: Codec, d: Disk, n: Name) {
    n in d && Deserialize(k, d[n]).Ok?
  }

  // ---- what stands where ----

  lemma CurrentStays(d: Disk, i: nat)
    requires 1 <= i <= MAX_BACKUPS
    ensures File(Moved(d, i), Current) == File(d, Current)
    decreases MAX_BACKUPS - i
  {
    if i < MAX_BACKUPS {
      CurrentStays(d, i + 1);
    }
  }

  /** Backups above `i` hold what the one below held, `i` is gone, those below are untouched. */
  lemma {:induction false} MovedFiles(d: Disk, i: nat, j: nat)
    requires 1 <= i <= MAX_BACKUPS && 1 <= j <= MAX_BACKUPS
    ensures File(Moved(d, i), Backup(j)) ==
            if j < i then File(d, Backup(j)) else if j == i then None else File(d, Backup(j - 1))
    decreases MAX_BACKUPS - i
  {
    if i < MAX_BACKUPS {
      MovedFiles(d, i + 1, j);
      MovedFiles(d, i + 1, i);
    }
  }

  /** A finished save: the new file, the old one as newest backup, every older backup one place up. */
  lemma SavedFiles(d: Disk, bytes: Bytes, j: nat)
    requires 1 <= j <= MAX_BACKUPS
    ensures var after := StoppedAt(d, bytes, Done);
            File(after, Current) == Some(bytes) && Temp !in after &&
            File(after, Backup(j)) == if j == 1 then File(d, Current) else File(d, Backup(j - 1))
  {
    CurrentStays(d, 1);
    MovedFiles(d, 1, j);
    assert Current in d ==> d[Current][..|d[Current]|] == d[Current];
  }

  function SaveAll(d: Disk, files: seq<Bytes>): Disk {
    if files == [] then d else StoppedAt(SaveAll(d, files[..|files| - 1]), files[|files| - 1], Done)
  }

  /** After n saves backup i holds save n - i, and the file there was before them is save 0. */
  lemma {:induction false} BackupsHoldSaves(d: Disk, files: seq<Bytes>, i: nat)
    requires 1 <= i <= MAX_BACKUPS && i <= |files|
    ensures File(SaveAll(d, files), Backup(i)) ==
            if i == |files| then File(d, Current) else Some(files[|files| - 1 - i])
    ensures File(SaveAll(d, files), Current) == Some(files[|files| - 1])
    decreases |files|
  {
    var n := |files| - 1;
    var before := SaveAll(d, files[..n]);
    SavedFiles(before, files[n], i);
    if n > 0 {
      BackupsHoldSaves(d, files[..n], if i > 1 then i - 1 else 1);
    }
  }

  // ---- crashes ----

  lemma CurrentUntilDone(d: Disk, bytes: Bytes, p: Point)
    requires IsPoint(d, bytes, p)
    ensures File(StoppedAt(d, bytes, p), Current) == if p.Done? then Some(bytes) else File(d, Current)
  {
    CurrentStays(d, 1);
    if p.Moving? {
      CurrentStays(d, p.i);
    }
  }

  /** A save attempt: the configuration and where it stopped. */
  datatype Attempt = Attempt(c: ConfigFile, stop: Point)

  predicate Stops(k: Codec, d: Disk, a: Attempt) {
    IsPoint(d, Serialize(k, a.c), a.stop)
  }

  function AfterAttempts(k: Codec, d: Disk, attempts: seq<Attempt>): Disk
    requires AllStop(k, d, attempts)
    decreases |attempts|
  {
    if attempts == [] then d
    else AfterAttempts(k, StoppedAt(d, Serialize(k, attempts[0].c), attempts[0].stop), attempts[1..])
  }

  predicate AllStop(k: Codec, d: Disk, attempts: seq<Attempt>)
    decreases |attempts|
  {
    attempts == [] ||
    (Stops(k, d, attempts[0]) &&
     AllStop(k, StoppedAt(d, Serialize(k, attempts[0].c), attempts[0].stop), attempts[1..]))
  }

  /** The configuration of the last attempt that finished. */
  function LastDone(c: ConfigFile, attempts: seq<Attempt>): ConfigFile
    decreases |attempts|
  {
    if attempts == [] then c
    else LastDone(if attempts[0].stop.Done? then attempts[0].c else c, attempts[1..])
  }

  /** However many saves are stopped at whatever points, on top of whatever earlier crashes left behind,
      loading returns the configuration of the last save that finished: never a mixture, never an older one. */
  lemma {:induction false} CrashSafe(k: Codec, d: Disk, c: ConfigFile, attempts: seq<Attempt>)
    requires Current in d && Deserialize(k, d[Current]) == Ok(c) && AllStop(k, d, attempts)
    requires forall i :: 0 <= i < |attempts| ==> Encodes(k, attempts[i].c) && attempts[i].c.version == VERSION
    ensures Load(k, AfterAttempts(k, d, attempts)) == Some(Sanitized(LastDone(c, attempts)))
    decreases |attempts|
  {
    if attempts != [] {
      var a := attempts[0];
      CurrentUntilDone(d, Serialize(k, a.c), a.stop);
      RoundTripIff(k, a.c);
      var after := StoppedAt(d, Serialize(k, a.c), a.stop);
      CrashSafe(k, after, if a.stop.Done? then a.c else c, attempts[1..]);
    }
  }

  // ---- the laws can be met ----

  function IndexOf(c: ConfigFile, cs: seq<ConfigFile>): (i: nat)
    ensures i <= |cs| && (c in cs ==> i < |cs| && cs[i] == c)
  {
    if cs == [] || cs[0] == c then 0 else 1 + IndexOf(c, cs[1..])
  }

  function Zeros(n: nat): (r: Bytes)
    ensures |r| == n
  {
    seq(n, i => 0)
  }

  /** The codec that numbers a list of configurations. */
  function Listing(cs: seq<ConfigFile>): Codec {
    Codec((c: ConfigFile) => Zeros(IndexOf(c, cs)), (b: Bytes) => if |b| < |cs| then Some(cs[|b|]) else None, (b: Bytes) => 0)
  }

  /** Whatever configurations are written, some codec encodes them all. */
  lemma ListingEncodes(cs: seq<ConfigFile>, c: ConfigFile)
    requires c in cs && |cs| < 0x1_0000_0000
    ensures Encodes(Listing(cs), c)
  {
  }

  /** Whatever configurations of the current version are saved after a first one, each save finishing or
      stopping inside its temporary file, the assumptions of CrashSafe can be met. */
  lemma CrashRunsExist(cs: seq<ConfigFile>, done: seq<bool>)
    requires 0 < |cs| == |done| + 1 < 0x1_0000_0000 && forall i :: 0 <= i < |cs| ==> cs[i].version == VERSION
    ensures var k := Listing(cs);
            var d: Disk := map[Current := Serialize(k, cs[0])];
            var attempts := Attempts(cs[1..], done);
            Deserialize(k, d[Current]) == Ok(cs[0]) && AllStop(k, d, attempts) &&
            forall i :: 0 <= i < |attempts| ==> Encodes(k, attempts[i].c) && attempts[i].c.version == VERSION
  {
    var k := Listing(cs);
    ListingEncodes(cs, cs[0]);
    RoundTripIff(k, cs[0]);
    AttemptsStop(k, map[Current := Serialize(k, cs[0])], cs[1..], done);
    forall c | c in cs ensures Encodes(k, c) {
      ListingEncodes(cs, c);
    }
  }

  /** Saves that finish or stop inside the temporary file. */
  function Attempts(cs: seq<ConfigFile>, done: seq<bool>): (r: seq<Attempt>)
    requires |cs| == |done|
    ensures |r| == |cs|
    ensures forall i {:trigger r[i]} :: 0 <= i < |r| ==> r[i] == Attempt(cs[i], if done[i] then Done else Writing(5))
  {
    seq(|cs|, i requires 0 <= i < |cs| => Attempt(cs[i], if done[i] then Done else Writing(5)))
  }

  lemma {:induction false} AttemptsStop(k: Codec, d: Disk, cs: seq<ConfigFile>, done: seq<bool>)
    requires |cs| == |done|
    ensures AllStop(k, d, Attempts(cs, done))
    decreases |cs|
  {
    if cs != [] {
      var a := Attempts(cs, done);
      AttemptsStop(k, StoppedAt(d, Serialize(k, a[0].c), a[0].stop), cs[1..], done[1..]);
      assert a[1..] == Attempts(cs[1..], done[1..]);
    }
  }

  predicate SomeBackup(k: Codec, d: Disk, least: nat, most: nat) {
    exists i :: least <= i <= most && Complete(k, d, Backup(i))
  }

  lemma CompleteSame(k: Codec, d: Disk, n: Name, d': Disk, n': Name)
    requires File(d, n) == File(d', n')
    ensures Complete(k, d, n) <==> Complete(k, d', n')
  {
  }

  /** A backup other than the oldest is still there, at most one place up, wherever the save stops. */
  lemma BackupSurvives(k: Codec, d: Disk, bytes: Bytes, p: Point, i: nat)
    requires IsPoint(d, bytes, p) && 1 <= i < MAX_BACKUPS && Complete(k, d, Backup(i))
    ensures SomeBackup(k, StoppedAt(d, bytes, p), i, i + 1)
  {
    var moved := if p.Moving? then p.i else 1;
    var j := if p.Start? || i < moved then i else i + 1;
    if p.Start? {
      assert Complete(k, StoppedAt(d, bytes, p), Backup(i));
    } else {
      MovedFiles(d, moved, j);
      var after := StoppedAt(d, bytes, p);
      assert File(after, Backup(j)) == File(d, Backup(i));
      CompleteSame(k, d, Backup(i), after, Backup(j));
    }
  }

  /** A complete backup exists at every point of a save if and only if one other than the oldest exists
      before it: the oldest is deleted first. */
  lemma BackupAlwaysIff(k: Codec, d: Disk, bytes: Bytes)
    ensures SomeBackup(k, d, 1, MAX_BACKUPS - 1) <==>
            forall p :: IsPoint(d, bytes, p) ==> SomeBackup(k, StoppedAt(d, bytes, p), 1, MAX_BACKUPS)
  {
    if i :| 1 <= i <= MAX_BACKUPS - 1 && Complete(k, d, Backup(i)) {
      forall p | IsPoint(d, bytes, p) ensures SomeBackup(k, StoppedAt(d, bytes, p), 1, MAX_BACKUPS) {
        BackupSurvives(k, d, bytes, p, i);
      }
    } else {
      var gone := StoppedAt(d, bytes, Moving(MAX_BACKUPS));
      forall i | 1 <= i <= MAX_BACKUPS ensures !Complete(k, gone, Backup(i)) {
        MovedFiles(d, MAX_BACKUPS, i);
        if i < MAX_BACKUPS {
          CompleteSame(k, gone, Backup(i), d, Backup(i));
        }
      }
      assert IsPoint(d, bytes, Moving(MAX_BACKUPS));
    }
  }

  /** A backup copy cut short is refused, so loading never takes it for a configuration. */
  lemma PartialCopyRefused(k: Codec, d: Disk, c: ConfigFile, bytes: Bytes, n: nat)
    requires Fits(k, c) && File(d, Current) == Some(Serialize(k, c)) && n < |Serialize(k, c)|
    ensures !Complete(k, StoppedAt(d, bytes, Copying(n)), Backup(1))
  {
    PrefixRefused(k, c, n);
  }
}
