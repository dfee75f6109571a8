/** What is loaded from any directory, damaged files included, and which bytes are a configuration file at all. */
module ConfigLoad {
  import opened Prelude
  import opened Config
  import opened ConfigDisk

  // ---- the format ----

  lemma Le32OfFour(b: Bytes)
    requires |b| == 4
    ensures FromLe32(b) < 0x1_0000_0000 && Le32(FromLe32(b)) == b
  {
    var n := FromLe32(b);
    var x, y := n / 256, n / 65536;
    assert n == 256 * (256 * (256 * (b[3] as int) + b[2]) + b[1]) + b[0];
    assert n % 256 == b[0] && x == 256 * (256 * (b[3] as int) + b[2]) + b[1];
    assert y == x / 256 && n / 16777216 == y / 256;
    assert x % 256 == b[1] && y == 256 * (b[3] as int) + b[2];
    assert y % 256 == b[2] && y / 256 == b[3];
  }

  /** A file: header, payload, anything behind it. */
  function FileOf(crc: nat, payload: Bytes, rest: Bytes): Bytes {
    Magic() + (Le32(crc) + (Le32(|payload|) + (payload + rest)))
  }

  /** The bytes of a current configuration: the checksum in the header is the payload's, and the payload decodes to
      that configuration. */
  ghost predicate IsFileOf(k: Codec, bytes: Bytes, c: ConfigFile) {
    c.version == VERSION &&
    exists payload, rest :: |payload| < 0x1_0000_0000 && k.decode(payload) == Some(c) &&
                            bytes == FileOf(k.crc(payload), payload, rest)
  }

  lemma FileParts(crc: nat, payload: Bytes, rest: Bytes)
    requires |payload| < 0x1_0000_0000 && crc < 0x1_0000_0000
    ensures var f := FileOf(crc, payload, rest);
            |f| == 12 + |payload| + |rest| && f[..4] == Magic() && FromLe32(f[4..8]) == crc &&
            FromLe32(f[8..12]) == |payload| && f[12..12 + |payload|] == payload
  {
    HeaderParts(Magic(), Le32(crc), Le32(|payload|), payload + rest);
    var f := FileOf(crc, payload, rest);
    assert f[12..12 + |payload|] == f[12..][..|payload|];
  }

  lemma SplitFile(bytes: Bytes, len: nat)
    requires 12 + len <= |bytes| && bytes[..4] == Magic() && FromLe32(bytes[8..12]) == len
    ensures bytes == FileOf(FromLe32(bytes[4..8]), bytes[12..12 + len], bytes[12 + len..])
  {
    Le32OfFour(bytes[4..8]);
    Le32OfFour(bytes[8..12]);
    var payload, rest := bytes[12..12 + len], bytes[12 + len..];
    assert bytes[12..] == payload + rest;
    assert bytes == bytes[..4] + (bytes[4..8] + (bytes[8..12] + bytes[12..]));
  }

  /** Exactly the well-formed files load: right magic, whole payload, matching checksum, decodable, current version. */
  lemma LoadsIff(k: Codec, bytes: Bytes, c: ConfigFile)
    ensures Deserialize(k, bytes) == Ok(c) <==> IsFileOf(k, bytes, c)
  {
    if Deserialize(k, bytes) == Ok(c) {
      var len := FromLe32(bytes[8..12]);
      Le32OfFour(bytes[8..12]);
      SplitFile(bytes, len);
      var payload, rest := bytes[12..12 + len], bytes[12 + len..];
      assert bytes == FileOf(k.crc(payload), payload, rest);
    }
    if IsFileOf(k, bytes, c) {
      var payload, rest :| |payload| < 0x1_0000_0000 && k.decode(payload) == Some(c) &&
                           bytes == FileOf(k.crc(payload), payload, rest);
      FileParts(k.crc(payload), payload, rest);
    }
  }

  /** Damage that the checksum sees is refused, whatever the damaged payload would decode to. */
  lemma DamageRefused(k: Codec, crc: nat, payload: Bytes, rest: Bytes)
    requires |payload| < 0x1_0000_0000 && crc < 0x1_0000_0000
    ensures Deserialize(k, FileOf(crc, payload, rest)) == Err(ChecksumMismatch) <==> k.crc(payload) != crc
  {
    FileParts(crc, payload, rest);
  }

  // ---- which file is loaded ----

  /** The configuration in a file. */
  function In(k: Codec, d: Disk, n: Name): ConfigFile
    requires Complete(k, d, n)
  {
    Deserialize(k, d[n]).value
  }

  /** No file before backup `j` is complete. */
  predicate NoneBefore(k: Codec, d: Disk, j: nat) {
    !Complete(k, d, Current) && forall i :: 1 <= i < j ==> !Complete(k, d, Backup(i))
  }

  lemma {:induction false} LoadFromBackup(k: Codec, d: Disk, i: nat, j: nat)
    requires 1 <= i <= j <= MAX_BACKUPS && Complete(k, d, Backup(j)) && NoneBefore(k, d, j)
    ensures LoadFrom(k, d, i) == Some(Sanitized(In(k, d, Backup(j))))
    decreases j - i
  {
    if i < j {
      LoadFromBackup(k, d, i + 1, j);
    }
  }

  lemma {:induction false} LoadFromNone(k: Codec, d: Disk, i: nat)
    requires 1 <= i <= MAX_BACKUPS + 1 && forall j :: i <= j <= MAX_BACKUPS ==> !Complete(k, d, Backup(j))
    ensures LoadFrom(k, d, i) == None
    decreases MAX_BACKUPS + 1 - i
  {
    if i <= MAX_BACKUPS {
      LoadFromNone(k, d, i + 1);
    }
  }

  /** The current file comes first. */
  lemma LoadsCurrent(k: Codec, d: Disk)
    requires Complete(k, d, Current)
    ensures Load(k, d) == Some(Sanitized(In(k, d, Current)))
  {
  }

  /** Without it the newest complete backup. */
  lemma LoadsNewestBackup(k: Codec, d: Disk, j: nat)
    requires 1 <= j <= MAX_BACKUPS && Complete(k, d, Backup(j)) && NoneBefore(k, d, j)
    ensures Load(k, d) == Some(Sanitized(In(k, d, Backup(j))))
  {
    LoadFromBackup(k, d, 1, j);
  }

  /** The defaults are used if and only if no file is complete. */
  lemma LoadsNothingIff(k: Codec, d: Disk)
    ensures Load(k, d) == None <==> NoneBefore(k, d, MAX_BACKUPS + 1)
  {
    if NoneBefore(k, d, MAX_BACKUPS + 1) {
      LoadFromNone(k, d, 1);
    } else if !Complete(k, d, Current) {
      var j := FirstComplete(k, d, 1);
      LoadsNewestBackup(k, d, j);
    }
  }

  lemma {:induction false} FirstComplete(k: Codec, d: Disk, i: nat) returns (j: nat)
    requires 1 <= i <= MAX_BACKUPS && NoneBefore(k, d, i) && !NoneBefore(k, d, MAX_BACKUPS + 1)
    ensures i <= j <= MAX_BACKUPS && Complete(k, d, Backup(j)) && NoneBefore(k, d, j)
    decreases MAX_BACKUPS - i
  {
    if Complete(k, d, Backup(i)) {
      j := i;
    } else {
      assert NoneBefore(k, d, i + 1);
      j := FirstComplete(k, d, i + 1);
    }
  }

  // ---- after saves and damage ----

  function Files(k: Codec, cs: seq<ConfigFile>): (r: seq<Bytes>)
    ensures |r| == |cs| && forall i {:trigger r[i]} :: 0 <= i < |r| ==> r[i] == Serialize(k, cs[i])
  {
    seq(|cs|, i requires 0 <= i < |cs| => Serialize(k, cs[i]))
  }

  /** After any number of saves, however the newest files are damaged, loading goes back to the newest save that is
      still whole: with the last `j` of n files broken, save n - j. */
  lemma DamageLoadsOlderSave(k: Codec, d: Disk, cs: seq<ConfigFile>, damaged: Disk, j: nat)
    requires 1 <= j <= MAX_BACKUPS && j < |cs|
    requires var c := cs[|cs| - 1 - j]; Encodes(k, c) && c.version == VERSION
    requires NoneBefore(k, damaged, j)
    requires File(damaged, Backup(j)) == File(SaveAll(d, Files(k, cs)), Backup(j))
    ensures Load(k, damaged) == Some(Sanitized(cs[|cs| - 1 - j]))
  {
    SavedBackup(k, d, cs, j);
    WholeBackupLoads(k, damaged, cs[|cs| - 1 - j], j);
  }

  lemma SavedBackup(k: Codec, d: Disk, cs: seq<ConfigFile>, j: nat)
    requires 1 <= j <= MAX_BACKUPS && j < |cs|
    ensures File(SaveAll(d, Files(k, cs)), Backup(j)) == Some(Serialize(k, cs[|cs| - 1 - j]))
  {
    BackupsHoldSaves(d, Files(k, cs), j);
  }

  lemma WholeBackupLoads(k: Codec, d: Disk, c: ConfigFile, j: nat)
    requires 1 <= j <= MAX_BACKUPS && Encodes(k, c) && c.version == VERSION
    requires NoneBefore(k, d, j) && File(d, Backup(j)) == Some(Serialize(k, c))
    ensures Load(k, d) == Some(Sanitized(c))
  {
    RoundTripIff(k, c);
    LoadsNewestBackup(k, d, j);
  }
}
