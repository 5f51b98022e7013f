# MySQL backup job, modelled in Dafny

`backup.sql.php` is a cron script that backs up every database on a MySQL
server:

- It reads a configuration block and, in safe mode, coerces it and checks it.
- It lists the databases and removes those named in `backup_exclude`.
- It dumps each remaining database to `<location>Ymd-His_<name>.sql[.gz]` and
  logs one row per dump in `backup_history`.
- When retention is on, it deletes dump files older than a limit in days. It
  reads each deleted file's name back into (Name, TakenAt) and clears
  `Retained` on the matching history rows.

This project models that logic and proves properties about it. The
connection, the shell commands and the filesystem are replaced by values
passed in and returned.

Modules:

- `Wrappers`: `Option` and `Result`.
- `Php`: the parts of the PHP runtime the script relies on. These are loosely
  typed configuration values, `empty`, truthiness, `is_bool`, the PHP 8
  `is_numeric` grammar and `substr` with its negative and out-of-range
  offsets.
- `Naming`: `stripExtension`, the two `date()` formats, building a dump path
  and decoding a deleted file's name by fixed offsets. It also holds the
  round-trip theorem between building and decoding.
- `Config`: safe-mode coercion (lines 46-50) and the start-up checks
  (lines 53-56).
- `Catalog`: the backup set, `array_diff($databases, $databases_excluded)`.
- `History`: the `backup_history` table as a class over a growing array,
  with the two loops that change it. The dump loop appends one row per
  database. The retention sweep deletes expired files and clears `Retained`
  on the rows their names decode to.
- `Job`: the script body from top to bottom, against one table.

The retention test follows the code at line 124 rather than the comment on
the setting at line 22 ("the number of days old a backup can be before it's
deleted"). A file exactly `limit` days old is deleted (`>=`), not kept.

The PHP runtime functions follow PHP 8: `substr`, `strlen` on the UTF-8
bytes of a string, and `is_numeric`, which accepts trailing whitespace from
PHP 8 on. The model departs from the code as written in two places.

- The guard at line 95 follows PHP 7. Under PHP 8, `count()` of a boolean
  raises a TypeError and the script stops before the first dump. Under PHP 7
  it counts 1 and the dump loop runs. This keeps the dump loop and the sweep
  meaningful.
- When `backup_exclude` has no rows, the model backs up the whole catalog.
  The comment at line 89 says the step only removes the excluded databases
  from the list. The script as written backs up nothing; see "## Findings".

## Model

| member | source | states |
|---|---|---|
| Php.Substr | backup.sql.php:131-136 | `substr` returns at most `len` characters; inside the string it is the slice; it runs to the end when `len` reaches past it; it is empty when the start is past the end |
| Php.Empty | backup.sql.php:46-56 | `empty()` holds of null, false, 0, "" and "0". On strings it is `EmptyString`, which `Config` uses for the host default at line 46 and the location, user and password tests at lines 53, 55 and 56; `Config.Sanitise` and `Config.Startup` state their outcomes |
| Php.Truthy | backup.sql.php:118 | PHP truthiness, the negation of `empty`; it decides `if ($retention)` here and the `?:` on `$compressed` at line 98, as `Job.Run` states |
| Php.IsBool | backup.sql.php:47-48 | `is_bool()` holds of booleans only; `Config.Sanitise` states that every other flag value becomes true |
| Php.IsNumeric | backup.sql.php:49 | `is_numeric()` holds of integers and of PHP 8 numeric strings; `DigitsAreNumeric`, `NumericHasDigit` and the examples below state what it accepts and rejects |
| Php.Strlen | backup.sql.php:56 | `strlen` counts at least one and at most four bytes per character, the UTF-8 width of each |
| Php.LastChar | backup.sql.php:50 | `substr($s, -1)` is the last character, or "" for the empty string |
| Php.StrlenAscii | backup.sql.php:56 | on ASCII text `strlen` equals the number of characters |
| Php.StrlenExample | backup.sql.php:56 | three accented letters are six bytes, so such a password draws no warning |
| Php.DigitsAreNumeric | backup.sql.php:49 | every non-empty string of decimal digits is numeric, so such a limit is kept |
| Php.NumericHasDigit | backup.sql.php:49 | every numeric string contains a decimal digit |
| Php.NumericStringExamples | backup.sql.php:49 | `is_numeric` accepts 30, "30" and a number padded with whitespace |
| Php.ExponentStringExample | backup.sql.php:49 | `is_numeric` accepts a number with a fraction and an exponent |
| Php.FractionStringExample | backup.sql.php:49 | `is_numeric` accepts a fraction without integer digits |
| Php.NonNumericExamples | backup.sql.php:49 | `is_numeric` rejects "", ".", "30 days" and a boolean, so these limits fall back to 30 |
| Naming.Dotted | backup.sql.php:32 | the extension always starts with '.'; it is kept exactly when it already did, and otherwise a '.' is prefixed |
| Naming.StripExtension | backup.sql.php:31-39 | when the file ends with the dotted extension the result plus that extension is the file; otherwise the file is unchanged |
| Naming.StripShortName | backup.sql.php:33-38 | a name shorter than the extension is returned unchanged |
| Naming.StripAddsDot | backup.sql.php:32 | stripping "gz" and stripping ".gz" give the same result |
| Naming.StripAppended | backup.sql.php:35-36 | stripping an extension that was appended to a name gives back the name |
| Naming.HistoryStampInjective | backup.sql.php:106 | two clock readings give the same `Y-m-d H:i:s` string exactly when they are the same second |
| Naming.FileStamp | backup.sql.php:98 | `date("Ymd-His")` is 15 characters; `DumpBaseLayout` places it at the head of a dump name and `StampExample` shows its form |
| Naming.HistoryStamp | backup.sql.php:106 | `date("Y-m-d H:i:s")` is 19 characters; `HistoryStampInjective` shows it identifies the second |
| Naming.DumpSuffix | backup.sql.php:98 | the suffix is ".sql.gz" when compressed and ".sql" otherwise |
| Naming.DumpBase | backup.sql.php:98 | the base name of a dump file; `DumpBaseLayout` states its layout and `DecodeDumpPath` its round trip |
| Naming.DumpPath | backup.sql.php:98 | the path of a dump file under the location; `DumpPathLayout` states its prefix and suffix |
| Naming.DumpBaseLayout | backup.sql.php:98 | a dump's base name is the 15-character `Ymd-His` stamp, then '_' at offset 15, then the database name and suffix from offset 16 |
| Naming.DumpPathLayout | backup.sql.php:98 | a dump path starts with the location and ends in ".sql.gz" when compressed, or in ".sql" and not ".gz" when not |
| Naming.BaseName | backup.sql.php:128 | removing the location from a path under it leaves the part after it; any other path is unchanged |
| Naming.DecodeTakenAt | backup.sql.php:130-136 | on a name of at least 15 characters the rebuilt TakenAt has 19; `DecodeTakenAtOffsets` states which characters it reads |
| Naming.DecodeName | backup.sql.php:138-142 | the database name read back is no longer than the file name; `DecodeNameOfDump` shows it is the name the dump was written for |
| Naming.Decode | backup.sql.php:128-142 | the (Name, TakenAt) key of a deleted file; `DecodeDumpPath` proves the round trip against `DumpPath` |
| Naming.DecodeTakenAtOffsets | backup.sql.php:130-136 | TakenAt is rebuilt from characters 0-3, 4-5, 6-7, 9-10, 11-12 and 13-14 with the separators `- - space : :` |
| Naming.DecodeNameOfDump | backup.sql.php:138-142 | the database name read from offset 16 with ".gz" and then ".sql" stripped is the name the dump was written for, compressed or not |
| Naming.DecodeDumpPath | backup.sql.php:128-142 | round trip: decoding any dump path built under a location gives back the database name and the file stamp as `Y-m-d H:i:s` |
| Naming.StampExample | backup.sql.php:98 | 2024-01-15 09:30:00 is written `20240115-093000` in file names and `2024-01-15 09:30:00` in TakenAt |
| Naming.DumpBaseExample | backup.sql.php:98 | the compressed dump of mydb at that second is named `20240115-093000_mydb.sql.gz` |
| Naming.DecodeExample | backup.sql.php:128-142 | that file decodes to (mydb, 2024-01-15 09:30:00) |
| Config.Sanitise | backup.sql.php:46-50 | after coercion the host is non-empty, both flags are booleans, the limit is numeric and the location ends in '/'; an empty host becomes localhost, a non-boolean flag becomes true, a non-numeric limit becomes 30, a '/' is added only when missing, valid settings are kept and the other settings are untouched |
| Config.SanitiseKeepsCoerced | backup.sql.php:46-50 | coercion leaves already-coerced settings unchanged |
| Config.SanitiseIdempotent | backup.sql.php:50 | coercing twice equals coercing once, so the separator is never doubled |
| Config.SanitisedLocationNotEmpty | backup.sql.php:50-53 | the coerced location is never empty, and an empty location becomes "/" |
| Config.WeakPassword | backup.sql.php:56 | the warning test, empty or fewer than 6 bytes; `Config.Startup` states when it fires and `Php.StrlenExample` a non-ASCII case |
| Config.Startup | backup.sql.php:43-58 | without safe mode the settings pass unchanged; with it the job continues exactly when the coerced location is a directory and the user is non-empty. It fails with MissingLocation or EmptyUser in that order, continues with the coerced settings, and warns exactly when the password is shorter than 6 bytes as `strlen` counts them |
| Config.StartupNeverEmptyLocation | backup.sql.php:53 | the empty-location error is never raised |
| Catalog.BackupSet | backup.sql.php:91 | the backup set is no longer than the catalog |
| Catalog.BackupSetMembers | backup.sql.php:91 | a name is in the backup set exactly when the catalog lists it and it is not excluded |
| Catalog.BackupSetKeepsMultiplicity | backup.sql.php:91 | a name that is not excluded appears as many times as in the catalog |
| Catalog.BackupSetKeepsOrder | backup.sql.php:91 | the backup set of a concatenation is the concatenation of the backup sets, so catalog order is kept |
| Catalog.BackupSetDependsOnExcludedSet | backup.sql.php:79-91 | only the set of excluded names matters, not their order or repetitions |
| Catalog.BackupSetNoExclusions | backup.sql.php:91 | with no exclusions the whole catalog is backed up |
| Catalog.BackupSetExample | backup.sql.php:91 | catalog A, B, C, D with B and D excluded gives A, C |
| Catalog.BackupSetAsWritten | backup.sql.php:79-97 | the databases the dump loop visits as written under PHP 7: never an excluded one, and none at all when `backup_exclude` has no rows |
| Catalog.NoExclusionsBacksUpNothingAsWritten | backup.sql.php:83-97 | with nothing excluded, the script as written backs up no database, while the intended backup set is the whole non-empty catalog |
| History.DumpRow | backup.sql.php:104-107 | the inserted row is retained and keyed by the database name and the TakenAt reading as `Y-m-d H:i:s` |
| History.DumpRows | backup.sql.php:97-108 | one inserted row per database of the backup set; `Table.RecordDumps` appends exactly these and `DumpRowMatchesItsFile` links each to its file |
| History.DumpPaths | backup.sql.php:97-98 | one written path per database of the backup set; `Table.RecordDumps` returns exactly these |
| History.DumpRowMatchesItsFile | backup.sql.php:98-106 | a dump's row is found by the key decoded from its file exactly when the file-name clock reading and the TakenAt clock reading fall in the same second |
| History.Expired | backup.sql.php:124 | the sweep's test: a regular file at least `limit` days old; `ExpiryBoundary` shows the boundary is inclusive |
| History.ExpiryBoundary | backup.sql.php:124 | a file exactly `limit` days old is expired; one a second younger is not |
| History.Survivors | backup.sql.php:122-126 | the entries left after the sweep, never more than were there; `SurvivorsExact` states which |
| History.SurvivorsExact | backup.sql.php:122-126 | the entries left are exactly those that are not regular files at least `limit` days old, together with the expired ones `unlink` could not delete |
| History.RemovedKeys | backup.sql.php:122-147 | the keys of the expired files, at most one per entry; `RemovedKeysComplete` and `RemovedKeysSound` state which |
| History.RemovedKeysComplete | backup.sql.php:124-147 | every expired file contributes the key of its name to the updates, whether or not its unlink succeeded |
| History.RemovedKeysSound | backup.sql.php:124-147 | every key updated is the key of an expired file's name |
| History.Mark | backup.sql.php:145-149 | one row after the UPDATEs; `Marked` states the effect on the whole table |
| History.Marked | backup.sql.php:145-149 | the UPDATE clears Retained on exactly the rows whose (Name, TakenAt) is one of the keys; the row count and every other field are unchanged |
| History.MarkedTwice | backup.sql.php:145-149 | two rounds of updates equal one round with both key lists |
| History.MarkedIdempotent | backup.sql.php:145-149 | repeating the same updates changes nothing more |
| History.Table.Insert | backup.sql.php:104-107 | the table's rows become the old rows followed by the new row |
| History.Table.RecordDump | backup.sql.php:98-108 | one turn of the dump loop appends that database's row and returns the path of the file it writes |
| History.Table.RecordDumps | backup.sql.php:97-112 | the dump loop appends one row per database of the backup set, in order, and returns the paths of the files it writes, one per database in the same order |
| History.Table.ClearRetained | backup.sql.php:145-149 | one UPDATE turns the table into `Marked` of the old rows with that key |
| History.Table.Sweep | backup.sql.php:118-156 | with retention off nothing changes; with it on, the directory keeps exactly `Survivors`, which includes expired files whose `unlink` failed. The table becomes `Marked` of the old rows with the keys of all expired files in directory order, since the UPDATE runs whether or not the unlink succeeded |
| Job.Run | backup.sql.php:43-156 | a configuration error or a failed connection stops the job with the table untouched; otherwise the run returns the paths of the dump files it wrote, one per database of the backup set in order, the table gains their rows, then the sweep runs under the coerced location with the decoded keys and the paths `unlink` fails on, with compression and retention read by PHP truthiness |

## Left out

- The mysqli connection, prepared statements and fetch loops are not modelled. `Job.Run` takes whether the connection succeeded, and the two query results as sequences.
- `exec` of `mysqldump`, `gzip` and `stat` is external tooling. The size `stat` prints is an opaque optional string. A missing first output line is `None`.
- The shell quoting around the dump path and the credentials in the command line are not modelled. The quotes are not part of the file name.
- `is_dir`, `glob`, `is_file`, `filemtime` and `unlink` are filesystem calls. They are passed in as a set of directory paths, a sequence of entries and the set of paths `unlink` fails on, and the remaining entries are returned. The order of the entries is whatever `glob` produced.
- `date()` and `time()` are clock reads. Each dump's two readings are inputs (`Observation`).
- History.Table.Sweep: uses one `now` for the whole sweep; the script calls `time()` again for every file.
- History.Table.Sweep: takes the key of a file as a function, which `Job.Run` supplies as `Naming.Decode` under the backup location. This keeps the table proofs independent of how names are parsed.
- Job.Run: the directory listing the sweep sees is a parameter, and the caller must include in it the dump files this run wrote (returned as `written`). The model does not derive that listing, or the new files' modification times, from the dump loop.
- Job.Run: takes the retention limit as a whole number of days. The conversion of the configured value is not modelled, including numeric strings, fractions and non-numeric values when safe mode is off.
- Naming.BaseName: removes the location only as a prefix, case-sensitively. `str_ireplace` removes every case-insensitive occurrence, which differs only when the location occurs again inside the file name.
- Naming.StripExtension: compares the suffix with strict string equality. PHP's `==` compares two numeric strings by value, but ".gz" and ".sql" are not numeric.
- Php.IsNumeric: a setting written as a float literal, such as 30.5 without quotes, is not represented. Configuration values are null, booleans, integers and strings.
- Php.Substr: counts characters where PHP counts bytes. This differs only for a file name with a non-ASCII character in its first 16 characters. No dump name built at line 98 has one, because its stamp and '_' are ASCII.
- Returning a fatal error and `exit(1)` are modelled as an `Err` result. The password warning from `trigger_error` is a boolean.
- The guard `count($databases_forbackup > 0)` is left out. It counts a boolean, which PHP 8 rejects with a TypeError and PHP 7 treats as always true. The model follows PHP 7 and runs the dump loop over the backup set, which does nothing when the set is empty.
- Catalog.BackupSetNoExclusions: the model, and `Job.Run` with it, backs up the whole catalog when `backup_exclude` has no rows, as the comment at line 89 ("Remove excluded databases from the all databases list") intends. The script as written leaves `$databases_excluded` undefined in that case (lines 83-85). Under PHP 7 it then dumps nothing and still runs the sweep (`Catalog.BackupSetAsWritten`). Under PHP 8 it stops at line 91 with a TypeError.
- An empty `SHOW DATABASES` result is an empty sequence. The server always lists at least `information_schema`, so the undefined `$databases` of lines 71-73 does not arise.
- Naming.DecodeDumpPath: holds for four-digit years, the range of `Naming.Instant`. From year 10000 `date("Y")` prints five digits, every offset read at lines 130-140 shifts, and the decoded key no longer matches the row.
- The database collation is left out. Keys are compared by exact string equality.
- Rows are never deleted, and the table's other columns and the primary key are not modelled.

## Findings

| source | as written | input that shows it | evidently intended | confidence | as-written member | corrected member |
|---|---|---|---|---|---|---|
| backup.sql.php:83-91 | `$databases_excluded` is only assigned inside the fetch loop, so with no excluded rows `array_diff` gets an undefined variable: PHP 7 returns null and the dump loop backs up nothing, PHP 8 stops with a TypeError | an empty `backup_exclude` table and a catalog such as `information_schema, mydb` | every catalog database is backed up when nothing is excluded | high, not executed | Catalog.NoExclusionsBacksUpNothingAsWritten | Catalog.BackupSetNoExclusions |
