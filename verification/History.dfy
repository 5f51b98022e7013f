/**
 * The backup_history table and the two loops of the job that change it:
 * the dump loop, which records one row per database it dumps, and the
 * retention sweep, which unlinks old files in the backup directory and
 * clears Retained on the rows their names point back to.
 */
module History {
  import opened Wrappers
  import opened Naming

  /** One row of backup_history; Retained is 1 when the row is inserted. */
  datatype Row = Row(name: string, takenAt: string, size: Option<string>, compressed: bool, retained: bool)

  /** The columns the sweep's UPDATE matches on. */
  function KeyOf(r: Row): Key {
    Key(r.name, r.takenAt)
  }

  /** What happened while one database was dumped: the two clock reads and the size `stat` printed, if any. */
  datatype Observation = Observation(fileStamp: Instant, takenAt: Instant, size: Option<string>)

  /** The row the dump loop inserts for database `name`. */
  function DumpRow(name: string, o: Observation, compressed: bool): (r: Row)
    ensures r.retained && KeyOf(r) == Key(name, HistoryStamp(o.takenAt))
  {
    Row(name, HistoryStamp(o.takenAt), o.size, compressed, true)
  }

  /** The rows the dump loop inserts, one per database of the backup set, in order. */
  function DumpRows(names: seq<string>, obs: seq<Observation>, compressed: bool): (rows: seq<Row>)
    requires |obs| == |names|
    ensures |rows| == |names|
  {
    seq(|names|, i requires 0 <= i < |names| => DumpRow(names[i], obs[i], compressed))
  }

  /** The paths of the files the dump loop writes, one per database, in order. */
  function DumpPaths(location: string, names: seq<string>, obs: seq<Observation>, compressed: bool): (paths: seq<string>)
    requires |obs| == |names|
    ensures |paths| == |names|
  {
    seq(|names|, i requires 0 <= i < |names| => DumpPath(location, obs[i].fileStamp, names[i], compressed))
  }

  /** One more turn of the dump loop adds that database's row to the rows inserted so far. */
  lemma DumpRowsStep(names: seq<string>, obs: seq<Observation>, compressed: bool, i: int, before: seq<Row>)
    requires |obs| == |names| && 0 <= i < |names|
    ensures before + DumpRows(names[..i], obs[..i], compressed) + [DumpRow(names[i], obs[i], compressed)]
         == before + DumpRows(names[..i + 1], obs[..i + 1], compressed)
  {
    assert DumpRows(names[..i], obs[..i], compressed) + [DumpRow(names[i], obs[i], compressed)]
        == DumpRows(names[..i + 1], obs[..i + 1], compressed);
  }

  /** One more turn of the dump loop adds that database's file to the paths written so far. */
  lemma DumpPathsStep(location: string, names: seq<string>, obs: seq<Observation>, compressed: bool, i: int)
    requires |obs| == |names| && 0 <= i < |names|
    ensures DumpPaths(location, names[..i], obs[..i], compressed) + [DumpPath(location, obs[i].fileStamp, names[i], compressed)]
         == DumpPaths(location, names[..i + 1], obs[..i + 1], compressed)
  {
  }

  /**
   * The row inserted for a database is found again by the key decoded from
   * the name of the file dumped for it exactly when the two clock reads of
   * that dump fell in the same second.
   */
  lemma DumpRowMatchesItsFile(location: string, names: seq<string>, obs: seq<Observation>, compressed: bool, i: int)
    requires |obs| == |names| && 0 <= i < |names|
    ensures KeyOf(DumpRows(names, obs, compressed)[i]) == Decode(DumpPaths(location, names, obs, compressed)[i], location)
        <==> obs[i].fileStamp == obs[i].takenAt
  {
    DecodeDumpPath(location, obs[i].fileStamp, names[i], compressed);
    HistoryStampInjective(obs[i].fileStamp, obs[i].takenAt);
  }

  /** One entry of the backup directory as glob, is_file and filemtime see it. */
  datatype Entry = Entry(path: string, mtime: int, isFile: bool)

  const SecondsPerDay := 24 * 60 * 60

  /** The sweep's test: a regular file at least `limitDays` days old (the boundary is inclusive). */
  predicate Expired(e: Entry, now: int, limitDays: int) {
    e.isFile && now - e.mtime >= limitDays * SecondsPerDay
  }

  /** A file exactly `limitDays` days old is deleted; one a second younger is kept. */
  lemma ExpiryBoundary(path: string, now: int, limitDays: int)
    ensures Expired(Entry(path, now - limitDays * SecondsPerDay, true), now, limitDays)
    ensures !Expired(Entry(path, now - limitDays * SecondsPerDay + 1, true), now, limitDays)
  {
  }

  /** The entries left in the directory after the sweep, in directory order. */
  function Survivors(dir: seq<Entry>, stuck: set<string>, now: int, limitDays: int): (r: seq<Entry>)
    ensures |r| <= |dir|
  {
    if dir == [] then []
    else
      var last := dir[|dir| - 1];
      Survivors(dir[..|dir| - 1], stuck, now, limitDays)
        + (if Expired(last, now, limitDays) && last.path !in stuck then [] else [last])
  }

  /** The sweep keeps exactly the entries that are not expired regular files. */
  lemma {:induction false} SurvivorsExact(dir: seq<Entry>, stuck: set<string>, now: int, limitDays: int)
    ensures forall e :: e in Survivors(dir, stuck, now, limitDays) <==>
                         e in dir && (!Expired(e, now, limitDays) || e.path in stuck)
  {
    if dir != [] {
      var last := dir[|dir| - 1];
      SurvivorsExact(dir[..|dir| - 1], stuck, now, limitDays);
      assert dir == dir[..|dir| - 1] + [last];
    }
  }

  /**
   * The keys the sweep computes from the files it unlinks, in directory order,
   * whether or not the unlink succeeded;
   * `key` maps a path to its (Name, TakenAt) key, which the job does with
   * Naming.Decode under the backup location.
   */
  function RemovedKeys(dir: seq<Entry>, key: string -> Key, now: int, limitDays: int): (keys: seq<Key>)
    ensures |keys| <= |dir|
  {
    if dir == [] then []
    else
      var last := dir[|dir| - 1];
      RemovedKeys(dir[..|dir| - 1], key, now, limitDays)
        + (if Expired(last, now, limitDays) then [key(last.path)] else [])
  }

  /** Every expired file contributes the key of its name. */
  lemma {:induction false} RemovedKeysComplete(dir: seq<Entry>, key: string -> Key, now: int, limitDays: int, i: int)
    requires 0 <= i < |dir| && Expired(dir[i], now, limitDays)
    ensures key(dir[i].path) in RemovedKeys(dir, key, now, limitDays)
  {
    var front := dir[..|dir| - 1];
    if i < |front| {
      assert front[i] == dir[i];
      RemovedKeysComplete(front, key, now, limitDays, i);
    }
  }

  /** Every swept key is the key of the name of an expired file. */
  lemma {:induction false} RemovedKeysSound(dir: seq<Entry>, key: string -> Key, now: int, limitDays: int, k: Key)
    returns (i: nat)
    requires k in RemovedKeys(dir, key, now, limitDays)
    ensures i < |dir| && Expired(dir[i], now, limitDays) && key(dir[i].path) == k
  {
    var front := dir[..|dir| - 1];
    if k in RemovedKeys(front, key, now, limitDays) {
      i := RemovedKeysSound(front, key, now, limitDays, k);
      assert front[i] == dir[i];
    } else {
      i := |dir| - 1;
    }
  }

  /** A row after UPDATE ... SET Retained = 0 for every key in `keys`. */
  function Mark(r: Row, keys: seq<Key>): Row {
    if KeyOf(r) in keys then r.(retained := false) else r
  }

  /**
   * The table after the sweep's updates: Retained is cleared on exactly the
   * rows whose (Name, TakenAt) is one of the keys, and nothing else changes.
   */
  function Marked(rows: seq<Row>, keys: seq<Key>): (m: seq<Row>)
    ensures |m| == |rows|
    ensures forall i :: 0 <= i < |rows| ==> m[i].retained == (rows[i].retained && KeyOf(rows[i]) !in keys)
    ensures forall i :: 0 <= i < |rows| ==> m[i] == rows[i].(retained := m[i].retained)
  {
    seq(|rows|, i requires 0 <= i < |rows| => Mark(rows[i], keys))
  }

  /** Two rounds of updates are one round with both key lists. */
  lemma MarkedTwice(rows: seq<Row>, k1: seq<Key>, k2: seq<Key>)
    ensures Marked(Marked(rows, k1), k2) == Marked(rows, k1 + k2)
  {
    var a, b := Marked(Marked(rows, k1), k2), Marked(rows, k1 + k2);
    forall i | 0 <= i < |rows|
      ensures a[i] == b[i]
    {
      assert KeyOf(Marked(rows, k1)[i]) == KeyOf(rows[i]);
    }
  }

  /** Repeating the same updates changes nothing more. */
  lemma MarkedIdempotent(rows: seq<Row>, keys: seq<Key>)
    ensures Marked(Marked(rows, keys), keys) == Marked(rows, keys)
  {
    MarkedTwice(rows, keys, keys);
    assert forall k :: k in keys + keys <==> k in keys;
  }

  /** Clearing Retained for one more key extends the cleared prefix of a row sequence by one row. */
  lemma ClearStep(before: seq<Row>, rows: seq<Row>, key: Key, j: int)
    requires 0 <= j < |before| == |rows|
    requires rows[..j] == Marked(before, [key])[..j]
    requires rows[j] == before[j]
    ensures rows[..j] + [Mark(rows[j], [key])] == Marked(before, [key])[..j + 1]
  {
  }

  /** The history table, held in an array that grows as rows are inserted. */
  class Table {
    var rows: array<Row>
    var count: nat

    ghost predicate Valid()
      reads this
    {
      count <= rows.Length
    }

    /** The rows of the table, in insertion order. */
    function Contents(): seq<Row>
      reads this, rows
      requires Valid()
    {
      rows[..count]
    }

    constructor (capacity: nat)
      ensures Valid() && fresh(rows)
      ensures Contents() == []
    {
      rows := new Row[capacity];
      count := 0;
    }

    /** INSERT INTO backup_history: appends one row, growing the array when it is full. */
    method Insert(r: Row)
      requires Valid()
      modifies this, rows
      ensures Valid()
      ensures rows == old(rows) || fresh(rows)
      ensures Contents() == old(Contents()) + [r]
    {
      if count == rows.Length {
        var bigger := new Row[2 * rows.Length + 1];
        var i := 0;
        while i < count
          modifies bigger
          invariant 0 <= i <= count
          invariant bigger[..i] == rows[..i]
        {
          bigger[i] := rows[i];
          i := i + 1;
        }
        rows := bigger;
      }
      rows[count] := r;
      count := count + 1;
    }

    /**
     * One turn of the dump loop: the file `location + Ymd-His_<name>.sql[.gz]`
     * is written and one row for the database is inserted. Returns the path.
     */
    method RecordDump(location: string, compressed: bool, name: string, o: Observation) returns (path: string)
      requires Valid()
      modifies this, rows
      ensures Valid()
      ensures rows == old(rows) || fresh(rows)
      ensures Contents() == old(Contents()) + [DumpRow(name, o, compressed)]
      ensures path == DumpPath(location, o.fileStamp, name, compressed)
    {
      path := DumpPath(location, o.fileStamp, name, compressed);
      Insert(DumpRow(name, o, compressed));
    }

    /**
     * The dump loop: one turn per database of the backup set, in order.
     * Returns the paths of the files it writes.
     */
    method RecordDumps(location: string, compressed: bool, names: seq<string>, obs: seq<Observation>)
      returns (written: seq<string>)
      requires Valid()
      requires |obs| == |names|
      modifies this, rows
      ensures Valid()
      ensures rows == old(rows) || fresh(rows)
      ensures Contents() == old(Contents()) + DumpRows(names, obs, compressed)
      ensures written == DumpPaths(location, names, obs, compressed)
    {
      ghost var before := Contents();
      written := [];
      var i := 0;
      while i < |names|
        invariant 0 <= i <= |names|
        invariant Valid()
        invariant rows == old(rows) || fresh(rows)
        invariant Contents() == before + DumpRows(names[..i], obs[..i], compressed)
        invariant written == DumpPaths(location, names[..i], obs[..i], compressed)
      {
        DumpRowsStep(names, obs, compressed, i, before);
        DumpPathsStep(location, names, obs, compressed, i);
        var path := RecordDump(location, compressed, names[i], obs[i]);
        written := written + [path];
        i := i + 1;
      }
      assert names[..i] == names && obs[..i] == obs;
    }

    /** UPDATE backup_history SET Retained = 0 WHERE Name = ? and TakenAt = ?. */
    method ClearRetained(key: Key)
      requires Valid()
      modifies rows
      ensures Valid()
      ensures Contents() == Marked(old(Contents()), [key])
    {
      ghost var before := Contents();
      var j := 0;
      while j < count
        invariant 0 <= j <= count
        invariant rows[..j] == Marked(before, [key])[..j]
        invariant rows[j..count] == before[j..]
      {
        assert rows[j] == before[j];
        ClearStep(before, rows[..count], key, j);
        rows[j] := Mark(rows[j], [key]);
        assert rows[..j + 1] == Marked(before, [key])[..j + 1];
        j := j + 1;
      }
    }

    /**
     * The retention sweep. When retention is on, every regular file at least
     * `limitDays` days old is unlinked and, for each one, Retained is cleared
     * on the rows matching the key of its name, whether or not any row matches
     * and whether or not the unlink succeeded; `stuck` are the paths unlink
     * fails on, which stay in the directory. Returns the directory afterwards.
     * When retention is off nothing changes.
     */
    method Sweep(dir: seq<Entry>, stuck: set<string>, key: string -> Key, now: int, limitDays: int, retention: bool)
      returns (kept: seq<Entry>)
      requires Valid()
      modifies rows
      ensures Valid()
      ensures !retention ==> kept == dir && Contents() == old(Contents())
      ensures retention ==> kept == Survivors(dir, stuck, now, limitDays)
      ensures retention ==> Contents() == Marked(old(Contents()), RemovedKeys(dir, key, now, limitDays))
    {
      if !retention {
        return dir;
      }
      kept := [];
      var i := 0;
      while i < |dir|
        invariant 0 <= i <= |dir|
        invariant Valid()
        invariant kept == Survivors(dir[..i], stuck, now, limitDays)
        invariant Contents() == Marked(old(Contents()), RemovedKeys(dir[..i], key, now, limitDays))
      {
        var e := dir[i];
        assert dir[..i + 1][..i] == dir[..i] && dir[..i + 1][i] == e;
        if e.isFile && now - e.mtime >= limitDays * SecondsPerDay {
          if e.path in stuck {
            kept := kept + [e];
          }
          var k := key(e.path);
          ClearRetained(k);
          MarkedTwice(old(Contents()), RemovedKeys(dir[..i], key, now, limitDays), [k]);
        } else {
          kept := kept + [e];
        }
        i := i + 1;
      }
      assert dir[..i] == dir;
    }
  }
}
