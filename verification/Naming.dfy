/**
 * Dump file names: how the backup job builds `<location>Ymd-His_<name>.sql[.gz]`
 * and how the retention sweep reads the name and the timestamp back out of it
 * by fixed character offsets.
 */
module Naming {
  import opened Php

  predicate EndsWith(s: string, suffix: string) {
    |suffix| <= |s| && s[|s| - |suffix|..] == suffix
  }

  /** The extension with the leading '.' that stripExtension adds when it is missing. */
  function Dotted(ext: string): (e: string)
    ensures 0 < |e| && e[0] == '.'
    ensures (0 < |ext| && ext[0] == '.') <==> e == ext
    ensures e != ext ==> e == "." + ext
  {
    if 0 < |ext| && ext[0] == '.' then ext else "." + ext
  }

  /**
   * stripExtension($file, $ext): the file name without its final extension
   * when it ends with that extension, and unchanged otherwise.
   */
  function StripExtension(file: string, ext: string): (r: string)
    ensures EndsWith(file, Dotted(ext)) ==> r + Dotted(ext) == file
    ensures !EndsWith(file, Dotted(ext)) ==> r == file
  {
    var e := Dotted(ext);
    if Substr(file, |file| - |e|, |file|) == e then Substr(file, 0, |file| - |e|) else file
  }

  /** A name shorter than the extension is never shortened. */
  lemma StripShortName(file: string, ext: string)
    requires |file| < |Dotted(ext)|
    ensures StripExtension(file, ext) == file
  {
  }

  /** "gz" and ".gz" strip the same suffix: the missing dot is added before matching. */
  lemma StripAddsDot(file: string, ext: string)
    requires ext == [] || ext[0] != '.'
    ensures StripExtension(file, ext) == StripExtension(file, "." + ext)
  {
  }

  /** A wall-clock reading broken down as `date()` formats it. */
  datatype Stamp = Stamp(year: int, month: int, day: int, hour: int, minute: int, second: int)

  /** The field ranges `date()` produces for a four-digit year. */
  predicate ValidStamp(t: Stamp) {
    && 0 <= t.year <= 9999 && 1 <= t.month <= 12 && 1 <= t.day <= 31
    && 0 <= t.hour <= 23 && 0 <= t.minute <= 59 && 0 <= t.second <= 59
  }

  /** A clock reading the script can format: a stamp within those ranges. */
  type Instant = t: Stamp | ValidStamp(t) witness Stamp(1970, 1, 1, 0, 0, 0)

  function Digit(d: int): (c: char)
    requires 0 <= d <= 9
    ensures IsDigit(c) && c as int - '0' as int == d
  {
    ('0' as int + d) as char
  }

  /** Two zero-padded decimal digits. */
  function Pad2(n: int): (r: string)
    requires 0 <= n <= 99
    ensures |r| == 2
  {
    [Digit(n / 10), Digit(n % 10)]
  }

  /** Four zero-padded decimal digits. */
  function Pad4(n: int): (r: string)
    requires 0 <= n <= 9999
    ensures |r| == 4 && r[..2] == Pad2(n / 100) && r[2..] == Pad2(n % 100)
  {
    Pad2(n / 100) + Pad2(n % 100)
  }

  lemma Pad2Injective(a: int, b: int)
    requires 0 <= a <= 99 && 0 <= b <= 99
    requires Pad2(a) == Pad2(b)
    ensures a == b
  {
    assert Digit(a / 10) == Pad2(a)[0] == Pad2(b)[0] == Digit(b / 10);
    assert Digit(a % 10) == Pad2(a)[1] == Pad2(b)[1] == Digit(b % 10);
  }

  lemma Pad4Injective(a: int, b: int)
    requires 0 <= a <= 9999 && 0 <= b <= 9999
    requires Pad4(a) == Pad4(b)
    ensures a == b
  {
    assert Pad2(a / 100) == Pad4(a)[..2] == Pad4(b)[..2] == Pad2(b / 100);
    assert Pad2(a % 100) == Pad4(a)[2..] == Pad4(b)[2..] == Pad2(b % 100);
    Pad2Injective(a / 100, b / 100);
    Pad2Injective(a % 100, b % 100);
  }

  /** `date("Ymd-His")`, the stamp written into dump file names. */
  function FileStamp(t: Instant): (r: string)
    ensures |r| == 15
  {
    var y, mo, d := Pad4(t.year), Pad2(t.month), Pad2(t.day);
    var h, mi, s := Pad2(t.hour), Pad2(t.minute), Pad2(t.second);
    [y[0], y[1], y[2], y[3], mo[0], mo[1], d[0], d[1], '-', h[0], h[1], mi[0], mi[1], s[0], s[1]]
  }

  /** `date("Y-m-d H:i:s")`, the form of a history row's TakenAt. */
  function HistoryStamp(t: Instant): (r: string)
    ensures |r| == 19
  {
    var y, mo, d := Pad4(t.year), Pad2(t.month), Pad2(t.day);
    var h, mi, s := Pad2(t.hour), Pad2(t.minute), Pad2(t.second);
    [y[0], y[1], y[2], y[3], '-', mo[0], mo[1], '-', d[0], d[1], ' ', h[0], h[1], ':', mi[0], mi[1], ':', s[0], s[1]]
  }

  /** Distinct stamps give distinct TakenAt strings, so TakenAt identifies the second of a dump. */
  lemma HistoryStampInjective(t: Instant, u: Instant)
    ensures HistoryStamp(t) == HistoryStamp(u) <==> t == u
  {
    if HistoryStamp(t) == HistoryStamp(u) {
      var h, k := HistoryStamp(t), HistoryStamp(u);
      assert h[0] == k[0] && h[1] == k[1] && h[2] == k[2] && h[3] == k[3];
      assert Pad4(t.year) == Pad4(u.year);
      Pad4Injective(t.year, u.year);
      assert h[5] == k[5] && h[6] == k[6];
      assert Pad2(t.month) == Pad2(u.month);
      Pad2Injective(t.month, u.month);
      assert h[8] == k[8] && h[9] == k[9];
      assert Pad2(t.day) == Pad2(u.day);
      Pad2Injective(t.day, u.day);
      assert h[11] == k[11] && h[12] == k[12];
      assert Pad2(t.hour) == Pad2(u.hour);
      Pad2Injective(t.hour, u.hour);
      assert h[14] == k[14] && h[15] == k[15];
      assert Pad2(t.minute) == Pad2(u.minute);
      Pad2Injective(t.minute, u.minute);
      assert h[17] == k[17] && h[18] == k[18];
      assert Pad2(t.second) == Pad2(u.second);
      Pad2Injective(t.second, u.second);
    }
  }

  /** The file suffix the dump loop chooses. */
  function DumpSuffix(compressed: bool): (r: string)
    ensures compressed ==> r == ".sql.gz"
    ensures !compressed ==> r == ".sql"
  {
    ".sql" + (if compressed then ".gz" else "")
  }

  /** The base name of one dump file: `Ymd-His + "_" + name + ".sql" [+ ".gz"]`. */
  function DumpBase(t: Instant, name: string, compressed: bool): string
  {
    FileStamp(t) + "_" + (name + DumpSuffix(compressed))
  }

  /**
   * The layout of a base name: a 15-character stamp, '_' at offset 15 and the
   * database name with its suffix from offset 16.
   */
  lemma DumpBaseLayout(t: Instant, name: string, compressed: bool)
    ensures var b := DumpBase(t, name, compressed);
      && |b| == 16 + |name| + |DumpSuffix(compressed)|
      && b[..15] == FileStamp(t) && b[15] == '_'
      && b[16..] == name + DumpSuffix(compressed)
  {
    var b := DumpBase(t, name, compressed);
    assert b[16..] == name + DumpSuffix(compressed);
  }

  /** The path of one dump file, under the backup location. */
  function DumpPath(location: string, t: Instant, name: string, compressed: bool): string
  {
    location + DumpBase(t, name, compressed)
  }

  /**
   * The path starts with the location, and ends in `.sql.gz` when compression
   * is on and in `.sql` (not `.gz`) when it is off.
   */
  lemma DumpPathLayout(location: string, t: Instant, name: string, compressed: bool)
    ensures var p := DumpPath(location, t, name, compressed);
      && p[..|location|] == location
      && p[|location|..] == DumpBase(t, name, compressed)
      && (compressed ==> EndsWith(p, ".sql.gz"))
      && (!compressed ==> EndsWith(p, ".sql") && !EndsWith(p, ".gz"))
  {
    var p := DumpPath(location, t, name, compressed);
    var sfx := DumpSuffix(compressed);
    DumpBaseLayout(t, name, compressed);
    assert p[|p| - |sfx|..] == DumpBase(t, name, compressed)[16..][|name|..] == sfx;
    assert !compressed ==> p[|p| - 1] == 'l';
  }

  /** `str_ireplace($backup_location, '', $file)` for a path that glob returned under the location. */
  function BaseName(path: string, location: string): (r: string)
    ensures location <= path ==> location + r == path
    ensures !(location <= path) ==> r == path
  {
    if location <= path then path[|location|..] else path
  }

  /** The join key of the history table: a database name and a TakenAt string. */
  datatype Key = Key(name: string, takenAt: string)

  /** Y-m-d H:i:s rebuilt from offsets 0-3, 4-5, 6-7, 9-10, 11-12 and 13-14 of a base name. */
  function DecodeTakenAt(f: string): (r: string)
    ensures 15 <= |f| ==> |r| == 19
  {
    Substr(f, 0, 4) + "-" + Substr(f, 4, 2) + "-" + Substr(f, 6, 2) + " "
      + Substr(f, 9, 2) + ":" + Substr(f, 11, 2) + ":" + Substr(f, 13, 2)
  }

  /** The database name: everything from offset 16, without a trailing ".gz" and then without a trailing ".sql". */
  function DecodeName(f: string): (r: string)
    ensures |r| <= |f|
  {
    StripExtension(StripExtension(Substr(f, 16, |f|), ".gz"), ".sql")
  }

  /** The key the sweep computes for a deleted file. */
  function Decode(path: string, location: string): Key {
    var f := BaseName(path, location);
    Key(DecodeName(f), DecodeTakenAt(f))
  }

  /** The character offsets DecodeTakenAt reads, on a name of at least 15 characters. */
  lemma DecodeTakenAtOffsets(f: string)
    requires 15 <= |f|
    ensures DecodeTakenAt(f)
         == [f[0], f[1], f[2], f[3], '-', f[4], f[5], '-', f[6], f[7], ' ', f[9], f[10], ':', f[11], f[12], ':', f[13], f[14]]
  {
    assert Substr(f, 0, 4) == f[0..4];
    assert Substr(f, 4, 2) == f[4..6];
    assert Substr(f, 6, 2) == f[6..8];
    assert Substr(f, 9, 2) == f[9..11];
    assert Substr(f, 11, 2) == f[11..13];
    assert Substr(f, 13, 2) == f[13..15];
  }

  /** Removing an extension that was appended gives back what it was appended to. */
  lemma StripAppended(x: string, e: string)
    requires 0 < |e| && e[0] == '.'
    ensures StripExtension(x + e, e) == x
  {
    assert (x + e)[|x|..] == e;
    var r := StripExtension(x + e, e);
    assert r + e == x + e;
    assert r == (r + e)[..|r|] == (x + e)[..|x|] == x;
  }

  lemma DecodeNameOfDump(t: Instant, name: string, compressed: bool)
    ensures DecodeName(DumpBase(t, name, compressed)) == name
  {
    var f := DumpBase(t, name, compressed);
    DumpBaseLayout(t, name, compressed);
    var tail := Substr(f, 16, |f|);
    assert tail == name + DumpSuffix(compressed);
    if compressed {
      assert tail == (name + ".sql") + ".gz";
      StripAppended(name + ".sql", ".gz");
      StripAppended(name, ".sql");
    } else {
      assert !EndsWith(tail, ".gz") by {
        assert tail[|tail| - 1] == 'l';
      }
      StripAppended(name, ".sql");
    }
  }

  /**
   * Round trip: the sweep's decoding of any dump path built under `location`
   * recovers the database name and the file stamp written as Y-m-d H:i:s,
   * for every database name and either compression setting.
   */
  lemma DecodeDumpPath(location: string, t: Instant, name: string, compressed: bool)
    ensures Decode(DumpPath(location, t, name, compressed), location) == Key(name, HistoryStamp(t))
  {
    var base := DumpBase(t, name, compressed);
    DumpBaseLayout(t, name, compressed);
    assert BaseName(location + base, location) == base;
    DecodeTakenAtOffsets(base);
    assert base[..15] == FileStamp(t);
    assert DecodeTakenAt(base) == HistoryStamp(t);
    DecodeNameOfDump(t, name, compressed);
  }

  /** 2024-01-15 09:30:00 is written as 20240115-093000 in file names and as itself in TakenAt. */
  lemma StampExample()
    ensures FileStamp(Stamp(2024, 1, 15, 9, 30, 0)) == "20240115-093000"
    ensures HistoryStamp(Stamp(2024, 1, 15, 9, 30, 0)) == "2024-01-15 09:30:00"
  {
    assert Pad2(20) == "20" && Pad2(24) == "24";
    assert Pad4(2024) == "2024";
    assert Pad2(1) == "01" && Pad2(15) == "15" && Pad2(9) == "09" && Pad2(30) == "30" && Pad2(0) == "00";
  }

  /** The compressed dump of mydb taken at that second is 20240115-093000_mydb.sql.gz ... */
  lemma DumpBaseExample()
    ensures DumpBase(Stamp(2024, 1, 15, 9, 30, 0), "mydb", true) == "20240115-093000_mydb.sql.gz"
  {
    StampExample();
    assert "20240115-093000" + "_" + ("mydb" + ".sql.gz") == "20240115-093000_mydb.sql.gz";
  }

  /** ... and the sweep decodes that file back to (mydb, 2024-01-15 09:30:00). */
  lemma DecodeExample()
    ensures Decode(DumpPath("/backups/", Stamp(2024, 1, 15, 9, 30, 0), "mydb", true), "/backups/")
         == Key("mydb", "2024-01-15 09:30:00")
  {
    StampExample();
    DecodeDumpPath("/backups/", Stamp(2024, 1, 15, 9, 30, 0), "mydb", true);
  }
}
