/**
 Creating a migration: the next version number from whatever the directory holds, the two file names that carry
 it, and writing both files or neither.
 */
module Migrations {
  import opened Wrappers
  import opened Text

  const I64_MIN := -0x8000_0000_0000_0000
  const I64_MAX := 0x7FFF_FFFF_FFFF_FFFF

  predicate InI64(v: int) {
    I64_MIN <= v <= I64_MAX
  }

  datatype MigrationError =
    | EmptyName | NameTooLong | BadCharacter | NotSnakeCase
    | NoDirectory | UnreadableDirectory | VersionOverflow | FileNotCreated | FileNotWritten

  // ---------------------------------------------------------------- numbers as text

  predicate IsDigit(c: char) {
    '0' <= c <= '9'
  }

  function DigitOf(n: nat): (c: char)
    requires n < 10
    ensures IsDigit(c)
  {
    '0' + n as char
  }

  function DigitValue(c: char): (n: nat)
    requires IsDigit(c)
    ensures n < 10 && DigitOf(n) == c
  {
    (c - '0') as nat
  }

  function PrintNat(n: nat): (s: string)
    ensures s != "" && forall c | c in s :: IsDigit(c)
  {
    if n < 10 then [DigitOf(n)] else PrintNat(n / 10) + [DigitOf(n % 10)]
  }

  function Print(v: int): string {
    if v < 0 then "-" + PrintNat(-v) else PrintNat(v)
  }

  function Value(digits: string): nat
    requires forall c | c in digits :: IsDigit(c)
  {
    if digits == "" then 0
    else
      var last := digits[|digits| - 1];
      assert last in digits;
      10 * Value(digits[..|digits| - 1]) + DigitValue(last)
  }

  /** `str::parse::<i64>`: an optional sign, at least one digit, and no overflow. */
  function Parse(s: string): (r: Option<int>)
    ensures r.Some? ==> InI64(r.value)
  {
    var signed := s != "" && (s[0] == '-' || s[0] == '+');
    var digits := if signed then s[1..] else s;
    if digits == "" || exists c | c in digits :: !IsDigit(c) then None
    else
      var v := if signed && s[0] == '-' then -(Value(digits) as int) else Value(digits);
      if InI64(v) then Some(v) else None
  }

  lemma {:induction false} ValueOfPrinted(n: nat)
    ensures Value(PrintNat(n)) == n
  {
    if n >= 10 {
      ValueOfPrinted(n / 10);
      assert PrintNat(n)[..|PrintNat(n)| - 1] == PrintNat(n / 10);
    }
  }

  predicate IsNumeral(s: string) {
    s != "" && forall c | c in s :: '0' <= c <= '9'
  }

  /** A numeral may carry a sign, and must fit into 64 bits. */
  lemma NumeralsAreParsed(digits: string)
    requires IsNumeral(digits)
    ensures var n := Value(digits);
            && Parse(digits) == Parse("+" + digits) == (if n < 0x8000_0000_0000_0000 then Some(n as int) else None)
            && Parse("-" + digits) == (if n <= 0x8000_0000_0000_0000 then Some(-(n as int)) else None)
  {
    assert digits[0] in digits;
    assert ("+" + digits)[1..] == digits && ("-" + digits)[1..] == digits;
  }

  /** Printing and parsing are inverse on all of i64, and no printed number holds an underscore. */
  lemma PrintedNumbersParse(v: int)
    requires InI64(v)
    ensures Parse(Print(v)) == Some(v) && '_' !in Print(v)
  {
    hide Parse, Value, PrintNat;
    var n := if v < 0 then -v else v;
    ValueOfPrinted(n);
    NumeralsAreParsed(PrintNat(n));
  }

  /** Nothing else is a number. */
  lemma OnlyNumeralsAreParsed(s: string)
    ensures Parse(s).Some? ==>
              IsNumeral(s) || (s != "" && (s[0] == '-' || s[0] == '+') && IsNumeral(s[1..]))
  {
    var digits := if s != "" && (s[0] == '-' || s[0] == '+') then s[1..] else s;
    if Parse(s).Some? {
      forall c | c in digits ensures '0' <= c <= '9' {
        assert IsDigit(c);
      }
    }
  }

  /** Ten digits, most significant first. */
  lemma DigitExamples()
    ensures Print(9876543210) == "9876543210" && Value("9876543210") == 9876543210
  {
    assert PrintNat(9) == "9" && PrintNat(98) == "98" && PrintNat(987) == "987" && PrintNat(9876) == "9876";
    assert PrintNat(98765) == "98765" && PrintNat(987654) == "987654" && PrintNat(9876543) == "9876543";
    assert PrintNat(98765432) == "98765432" && PrintNat(987654321) == "987654321";
    ValueOfPrinted(9876543210);
  }

  // ---------------------------------------------------------------- file names

  const UP := ".up.sql"
  const DOWN := ".down.sql"

  function FileName(version: int, name: string, suffix: string): string {
    Print(version) + "_" + name + suffix
  }

  /** The version a file name carries: what stands before its first underscore, if that is a number. */
  function VersionOf(fileName: string): (r: Option<int>)
    ensures r.Some? ==> InI64(r.value)
  {
    var cut := Next(fileName, "_", 0);
    if cut >= |fileName| then None else Parse(fileName[..cut])
  }

  /** The version stands before the first underscore; what follows it does not matter. */
  lemma VersionsAreReadFromTheFront(prefix: string, rest: string)
    requires '_' !in prefix
    ensures VersionOf(prefix + "_" + rest) == Parse(prefix)
    ensures VersionOf(prefix) == None
  {
    hide Parse;
    var file := prefix + "_" + rest;
    forall i | 0 <= i < |prefix| ensures !At(file, i, "_") && !At(prefix, i, "_") {
      assert file[i] == prefix[i] && prefix[i] in prefix;
      AtIsPointwise(file, i, "_");
      AtIsPointwise(prefix, i, "_");
    }
    assert At(file, |prefix|, "_");
    NextIs(file, "_", 0, |prefix|);
    NextIs(prefix, "_", 0, |prefix|);
    assert file[..|prefix|] == prefix;
  }

  /** The version that goes into a file name comes out again, whatever the migration is called. */
  lemma FileNamesCarryTheirVersion(version: int, name: string, suffix: string)
    requires InI64(version)
    ensures VersionOf(FileName(version, name, suffix)) == Some(version)
  {
    hide Parse, Print;
    PrintedNumbersParse(version);
    assert FileName(version, name, suffix) == Print(version) + "_" + (name + suffix);
    VersionsAreReadFromTheFront(Print(version), name + suffix);
  }

  // ---------------------------------------------------------------- the next version

  datatype Entry = Unreadable | NotUnicode | Named(name: string)

  function VersionOfEntry(e: Entry): (r: Option<int>)
    ensures r.Some? ==> InI64(r.value)
  {
    match e
    case Named(name) => VersionOf(name)
    case _ => None
  }

  ghost predicate Exists(entries: seq<Entry>, v: int) {
    exists e | e in entries :: VersionOfEntry(e) == Some(v)
  }

  /** `v` is the larger of the requested version and one more than the largest existing one. */
  ghost predicate IsNext(entries: seq<Entry>, requested: int, v: int) {
    && requested <= v
    && (forall existing | Exists(entries, existing) :: existing < v)
    && (v == requested || Exists(entries, v - 1))
  }

  /** `next_migration_version` over the entries in the order the directory gives them. */
  method NextMigrationVersion(entries: seq<Entry>, requested: int) returns (r: Result<int, MigrationError>)
    requires InI64(requested)
    ensures r.Ok? <==> Unreadable !in entries && !Exists(entries, I64_MAX)
    ensures r.Ok? ==> IsNext(entries, requested, r.value) && InI64(r.value)
    ensures r == Err(UnreadableDirectory) ==> Unreadable in entries
    ensures r == Err(VersionOverflow) ==> Exists(entries, I64_MAX)
    ensures r.Err? ==> r.error in {UnreadableDirectory, VersionOverflow}
  {
    hide VersionOf;
    var next := requested;
    for i := 0 to |entries|
      invariant Unreadable !in entries[..i] && !Exists(entries[..i], I64_MAX)
      invariant IsNext(entries[..i], requested, next) && InI64(next)
    {
      var entry := entries[i];
      assert entries[..i + 1] == entries[..i] + [entry];
      assert forall v | Exists(entries[..i + 1], v) :: Exists(entries[..i], v) || VersionOfEntry(entry) == Some(v);
      assert forall v | Exists(entries[..i], v) :: Exists(entries[..i + 1], v);
      if entry == Unreadable {
        return Err(UnreadableDirectory);
      }
      match VersionOfEntry(entry)
      case None =>
      case Some(existing) =>
        assert Exists(entries[..i + 1], existing) && Exists(entries, existing);
        if existing >= next {
          if existing == I64_MAX {
            return Err(VersionOverflow);
          }
          next := existing + 1;
        }
    }
    assert entries[..|entries|] == entries;
    r := Ok(next);
  }

  /** The next version depends only on which versions exist, not on the order of the directory. */
  lemma TheNextVersionIsUnique(a: seq<Entry>, b: seq<Entry>, requested: int, v: int, w: int)
    requires forall e :: e in a <==> e in b
    requires IsNext(a, requested, v) && IsNext(b, requested, w)
    ensures v == w
  {
    assert forall u :: Exists(a, u) <==> Exists(b, u);
  }

  // ---------------------------------------------------------------- names

  predicate IsWordCharacter(c: char) {
    'a' <= c <= 'z' || IsDigit(c)
  }

  predicate IsNameCharacter(c: char) {
    IsWordCharacter(c) || c == '_'
  }

  /** `validate_migration_name`. */
  function ValidateMigrationName(name: string): Result<(), MigrationError> {
    if name == "" then Err(EmptyName)
    else if Size(name) > 64 then Err(NameTooLong)
    else if exists c | c in name :: !IsNameCharacter(c) then Err(BadCharacter)
    else if name[0] == '_' || name[|name| - 1] == '_' || Contains(name, "__") then Err(NotSnakeCase)
    else Ok(())
  }

  predicate IsWord(s: string) {
    s != "" && forall c | c in s :: IsWordCharacter(c)
  }

  /** Words of lower-case letters and digits with one underscore between each two. */
  predicate IsSnakeCase(s: string) {
    IsWord(s) || exists i | 0 < i < |s| :: s[i] == '_' && IsWord(s[..i]) && IsSnakeCase(s[i + 1..])
  }

  predicate NoDoubleUnderscore(s: string) {
    forall i | 0 <= i < |s| - 1 :: !(s[i] == '_' && s[i + 1] == '_')
  }

  lemma ContainsDoubleUnderscore(s: string)
    ensures Contains(s, "__") <==> !NoDoubleUnderscore(s)
  {
    forall i | 0 <= i < |s| ensures At(s, i, "__") <==> i + 1 < |s| && s[i] == '_' && s[i + 1] == '_' {
      AtIsPointwise(s, i, "__");
    }
    var r := Next(s, "__", 0);
    if r < |s| {
      assert At(s, r, "__");
      assert s[r] == '_' && s[r + 1] == '_';
    }
    if !NoDoubleUnderscore(s) {
      var i :| 0 <= i < |s| - 1 && s[i] == '_' && s[i + 1] == '_';
      assert At(s, i, "__");
    }
  }

  predicate PassesTheChecks(s: string) {
    && s != "" && s[0] != '_' && s[|s| - 1] != '_' && NoDoubleUnderscore(s)
    && forall c | c in s :: IsNameCharacter(c)
  }

  predicate FirstUnderscore(s: string, i: nat) {
    0 < i < |s| && s[i] == '_' && forall k | 0 <= k < i :: s[k] != '_'
  }

  lemma SnakeCaseFromFirstUnderscore(s: string, i: nat)
    requires FirstUnderscore(s, i)
    ensures IsSnakeCase(s) <==> IsWord(s[..i]) && IsSnakeCase(s[i + 1..])
  {
    assert !IsWord(s) by {
      assert s[i] in s;
    }
    forall j | i < j < |s| ensures !IsWord(s[..j]) {
      assert s[..j][i] in s[..j];
    }
    hide IsWord;
    if IsSnakeCase(s) {
      var j :| 0 < j < |s| && s[j] == '_' && IsWord(s[..j]) && IsSnakeCase(s[j + 1..]);
      assert j == i;
    }
  }

  lemma ChecksFromFirstUnderscore(s: string, i: nat)
    requires FirstUnderscore(s, i)
    ensures PassesTheChecks(s) <==> IsWord(s[..i]) && PassesTheChecks(s[i + 1..])
  {
    var word, rest := s[..i], s[i + 1..];
    assert s == word + "_" + rest;
    if PassesTheChecks(s) {
      assert s[i + 1] != '_';
      forall c | c in word ensures IsWordCharacter(c) {
        assert IsNameCharacter(c);
      }
      forall k | 0 <= k < |rest| - 1 ensures !(rest[k] == '_' && rest[k + 1] == '_') {
        var m := k + i + 1;
        assert rest[k] == s[m] && rest[k + 1] == s[m + 1];
      }
    }
    if IsWord(word) && PassesTheChecks(rest) {
      forall k | 0 <= k < |s| - 1 ensures !(s[k] == '_' && s[k + 1] == '_') {
        if k > i {
          assert s[k] == rest[k - i - 1] && s[k + 1] == rest[(k - i - 1) + 1];
        }
      }
    }
  }

  /** The character checks accept exactly the words that are joined by single underscores. */
  lemma {:induction false} SnakeCaseByCharacters(s: string)
    ensures IsSnakeCase(s) <==> PassesTheChecks(s)
    decreases |s|
  {
    if i :| FirstUnderscore(s, i) {
      SnakeCaseFromFirstUnderscore(s, i);
      ChecksFromFirstUnderscore(s, i);
      SnakeCaseByCharacters(s[i + 1..]);
    } else if s != "" && s[0] == '_' {
      assert s[0] in s;
      forall j | 0 < j < |s| ensures !IsWord(s[..j]) {
        assert s[..j][0] in s[..j];
      }
    } else {
      NoUnderscoreAtAll(s);
    }
  }

  lemma {:induction false} NoUnderscoreAtAll(s: string)
    requires (forall i: nat :: !FirstUnderscore(s, i)) && (s == "" || s[0] != '_')
    ensures forall i | 0 <= i < |s| :: s[i] != '_'
  {
    for n := 0 to |s|
      invariant forall i | 0 <= i < n :: s[i] != '_'
    {
      assert n > 0 ==> !FirstUnderscore(s, n);
    }
  }

  /** A name is accepted exactly if it is snake_case and at most 64 bytes long. */
  lemma AcceptedNamesAreSnakeCase(name: string)
    ensures ValidateMigrationName(name).Ok? <==> IsSnakeCase(name) && Size(name) <= 64
  {
    ContainsDoubleUnderscore(name);
    SnakeCaseByCharacters(name);
  }

  /** Which name gets which error. */
  lemma RejectedNames(name: string)
    ensures ValidateMigrationName(name) == Err(EmptyName) <==> |name| == 0
    ensures ValidateMigrationName(name) == Err(NameTooLong) <==> Size(name) > 64
    ensures var plain := forall c | c in name :: 'a' <= c <= 'z' || '0' <= c <= '9' || c == '_';
            && (ValidateMigrationName(name) == Err(BadCharacter) <==> Size(name) <= 64 && !plain)
            && (ValidateMigrationName(name) == Err(NotSnakeCase) <==>
                0 < Size(name) <= 64 && plain && !IsSnakeCase(name))
    ensures ValidateMigrationName(name).Err? ==>
              ValidateMigrationName(name).error in {EmptyName, NameTooLong, BadCharacter, NotSnakeCase}
  {
    AcceptedNamesAreSnakeCase(name);
    assert name != "" ==> Size(name) >= Width(name[0]);
    hide IsSnakeCase, Contains;
  }

  // ---------------------------------------------------------------- the directory

  const UP_TEMPLATE := "-- Write schema changes here.\n"
  const DOWN_TEMPLATE := "-- Write rollback changes here.\n"

  /** How the file system answers one attempt to create a file; `partial` is what a failed write leaves. */
  datatype Attempt = Attempt(opens: bool, writes: bool, partial: string)

  datatype File = File(name: string, contents: string)

  /** No name is taken or used twice, and the file system lets every file be created and written. */
  ghost predicate Writable(files: map<string, string>, more: seq<File>, attempts: seq<Attempt>)
    requires |attempts| == |more|
  {
    && (forall i | 0 <= i < |more| :: more[i].name !in files && attempts[i].opens && attempts[i].writes)
    && (forall i, j | 0 <= i < j < |more| :: more[i].name != more[j].name)
  }

  /** Exactly the files `more` were added, and every earlier file is as it was. */
  ghost predicate Wrote(before: map<string, string>, after: map<string, string>, more: seq<File>) {
    && RolledBack(before, after, Names(more))
    && (forall file | file in more :: file.name in after && after[file.name] == file.contents)
  }

  /** Nothing but files named in `leftovers` was added, and every earlier file is as it was. */
  ghost predicate RolledBack(before: map<string, string>, after: map<string, string>, leftovers: set<string>) {
    && (forall name | name in before :: name in after && after[name] == before[name])
    && (forall name | name in after :: name in before || name in leftovers)
  }

  function Names(more: seq<File>): set<string> {
    set file | file in more :: file.name
  }

  function Pair(version: int, name: string): seq<File> {
    [File(FileName(version, name, UP), UP_TEMPLATE), File(FileName(version, name, DOWN), DOWN_TEMPLATE)]
  }

  lemma NothingWrittenYet(files: map<string, string>)
    ensures Writable(files, [], []) && Wrote(files, files, [])
  {
  }

  lemma OneMoreIsWritable(before: map<string, string>, now: map<string, string>, more: seq<File>,
          attempts: seq<Attempt>, i: nat)
    requires i < |more| == |attempts|
    requires Writable(before, more[..i], attempts[..i]) && Wrote(before, now, more[..i])
    ensures Writable(before, more[..i + 1], attempts[..i + 1]) <==>
            more[i].name !in now && attempts[i].opens && attempts[i].writes
    ensures Writable(before, more, attempts) ==> Writable(before, more[..i + 1], attempts[..i + 1])
  {
  }

  lemma OneMoreIsWritten(before: map<string, string>, now: map<string, string>, more: seq<File>, i: nat)
    requires i < |more| && Wrote(before, now, more[..i]) && more[i].name !in now
    ensures Wrote(before, now[more[i].name := more[i].contents], more[..i + 1])
  {
  }

  lemma OnlyStuckFilesAreLeft(before: map<string, string>, now: map<string, string>, failed: map<string, string>,
                              after: map<string, string>, more: seq<File>, attempts: seq<Attempt>,
                              created: seq<string>, stuck: set<string>)
    requires |created| < |more| == |attempts| && forall j | 0 <= j < |created| :: created[j] == more[j].name
    requires Wrote(before, now, more[..|created|]) && Writable(before, more[..|created|], attempts[..|created|])
    requires RolledBack(now, failed, stuck * {more[|created|].name})
    requires forall name :: name in after <==> name in failed && (name !in created || name in stuck)
    requires forall name | name in after :: after[name] == failed[name]
    ensures RolledBack(before, after, stuck * Names(more))
  {
  }

  /** One call of `create_migration_file` on a directory, with what it was asked, what it read and what it returned. */
  datatype Creation = Creation(
    name: string,
    requested: int,
    listing: Option<seq<Entry>>,
    result: Result<int, MigrationError>)

  /** What every such call does to the directory, whether it succeeds or fails. */
  ghost predicate Creates(before: map<string, string>, c: Creation, after: map<string, string>) {
    match c.result
    case Ok(v) =>
      && InI64(v) && c.listing.Some? && (forall file | file in before :: Named(file) in c.listing.value)
      && IsNext(c.listing.value, c.requested, v) && Wrote(before, after, Pair(v, c.name))
    case Err(_) => RolledBack(before, after, after.Keys)
  }

  class MigrationsDirectory {
    var files: map<string, string>

    /** `write_new_migration_file`. */
    method WriteNewFile(file: File, attempt: Attempt, stuck: set<string>) returns (r: Result<(), MigrationError>)
      modifies this
      ensures r.Ok? <==> file.name !in old(files) && attempt.opens && attempt.writes
      ensures r == Err(FileNotCreated) <==> file.name in old(files) || !attempt.opens
      ensures r == Err(FileNotWritten) <==> file.name !in old(files) && attempt.opens && !attempt.writes
      ensures r.Ok? ==> files == old(files)[file.name := file.contents]
      ensures r.Err? ==> RolledBack(old(files), files, stuck * {file.name})
    {
      if file.name in files || !attempt.opens {
        return Err(FileNotCreated);
      }
      files := files[file.name := ""];
      if !attempt.writes {
        files := files[file.name := attempt.partial];
        Remove(file.name, stuck);
        return Err(FileNotWritten);
      }
      files := files[file.name := file.contents];
      r := Ok(());
    }

    /** `fs::remove_file`, which fails for the names in `stuck`; the callers ignore that. */
    method Remove(name: string, stuck: set<string>)
      modifies this
      ensures files == if name in stuck then old(files) else old(files) - {name}
    {
      if name !in stuck {
        files := files - {name};
      }
    }

    method RemoveAll(names: seq<string>, stuck: set<string>)
      modifies this
      ensures forall name :: name in files <==> name in old(files) && (name !in names || name in stuck)
      ensures forall name | name in files :: files[name] == old(files)[name]
    {
      for k := 0 to |names|
        invariant forall name :: name in files <==> name in old(files) && (name !in names[..k] || name in stuck)
        invariant forall name | name in files :: files[name] == old(files)[name]
      {
        Remove(names[k], stuck);
        assert names[..k + 1] == names[..k] + [names[k]];
      }
      assert names[..|names|] == names;
    }

    /** `write_new_migration_files`: all files, or none that can be removed again. */
    method WriteNewFiles(more: seq<File>, attempts: seq<Attempt>, stuck: set<string>)
      returns (r: Result<(), MigrationError>)
      requires |attempts| == |more|
      modifies this
      ensures r.Ok? <==> Writable(old(files), more, attempts)
      ensures r.Ok? ==> Wrote(old(files), files, more)
      ensures r.Err? ==> r.error in {FileNotCreated, FileNotWritten}
      ensures r.Err? ==> RolledBack(old(files), files, stuck * Names(more))
    {
      hide Writable, Wrote, RolledBack;
      var created: seq<string> := [];
      assert Writable(files, [], []) && Wrote(files, files, []) by {
        NothingWrittenYet(files);
      }
      for i := 0 to |more|
        invariant |created| == i && forall j | 0 <= j < i :: created[j] == more[j].name
        invariant Writable(old(files), more[..i], attempts[..i])
        invariant Wrote(old(files), files, more[..i])
      {
        OneMoreIsWritable(old(files), files, more, attempts, i);
        if more[i].name !in files {
          OneMoreIsWritten(old(files), files, more, i);
        }
        ghost var before := files;
        var result := WriteNewFile(more[i], attempts[i], stuck);
        if result.Err? {
          ghost var failed := files;
          RemoveAll(created, stuck);
          OnlyStuckFilesAreLeft(old(files), before, failed, files, more, attempts, created, stuck);
          return result;
        }
        created := created + [more[i].name];
      }
      assert more[..|more|] == more && attempts[..|more|] == attempts;
      r := Ok(());
    }

    /** `create_migration_file`; `listing` is what reading the directory gives, if it can be read. */
    method CreateMigrationFile(name: string, requested: int, isDirectory: bool, listing: Option<seq<Entry>>,
                               attempts: seq<Attempt>, stuck: set<string>)
      returns (r: Result<int, MigrationError>)
      requires InI64(requested) && |attempts| == 2
      requires listing.Some? ==> forall file | file in files :: Named(file) in listing.value
      modifies this
      ensures r.Ok? <==>
              && ValidateMigrationName(name).Ok? && isDirectory
              && listing.Some? && Unreadable !in listing.value && !Exists(listing.value, I64_MAX)
              && forall a | a in attempts :: a.opens && a.writes
      ensures r.Ok? ==>
                && IsNext(listing.value, requested, r.value)
                && FileName(r.value, name, UP) !in old(files) && FileName(r.value, name, DOWN) !in old(files)
                && Wrote(old(files), files, Pair(r.value, name))
      ensures r.Ok? ==>
                var up, down := Print(r.value) + "_" + name + ".up.sql", Print(r.value) + "_" + name + ".down.sql";
                && up !in old(files) && down !in old(files) && up != down
                && files == old(files)[up := "-- Write schema changes here.\n"]
                            [down := "-- Write rollback changes here.\n"]
      ensures !isDirectory && ValidateMigrationName(name).Ok? ==> r == Err(NoDirectory)
      ensures isDirectory && ValidateMigrationName(name).Ok? && listing == None ==> r == Err(UnreadableDirectory)
      ensures ValidateMigrationName(name).Err? ==> r == Err(ValidateMigrationName(name).error)
      ensures && r.Err? && ValidateMigrationName(name).Ok? && isDirectory
              && listing.Some? && Unreadable !in listing.value && !Exists(listing.value, I64_MAX) ==>
                r.error in {FileNotCreated, FileNotWritten}
      ensures r.Err? ==> RolledBack(old(files), files, stuck)
      ensures r.Err? && stuck == {} ==> files == old(files)
      ensures Creates(old(files), Creation(name, requested, listing, r), files)
    {
      hide FileName, ValidateMigrationName, Wrote, IsNext;
      if ValidateMigrationName(name).Err? {
        return Err(ValidateMigrationName(name).error);
      }
      if !isDirectory {
        return Err(NoDirectory);
      }
      if listing == None {
        return Err(UnreadableDirectory);
      }
      var next := NextMigrationVersion(listing.value, requested);
      if next.Err? {
        return next;
      }
      var more := Pair(next.value, name);
      NewNamesAreFree(files, listing.value, requested, next.value, name);
      assert attempts[0] in attempts && attempts[1] in attempts;
      var written := WriteNewFiles(more, attempts, stuck);
      if written.Err? {
        if stuck == {} {
          NoLeftoversNoChange(old(files), files, stuck * Names(more));
        }
        return Err(written.error);
      }
      PairsAreTwoFiles(old(files), files, next.value, name);
      r := next;
    }
  }

  lemma PairsAreTwoFiles(before: map<string, string>, after: map<string, string>, v: int, name: string)
    requires Wrote(before, after, Pair(v, name))
    requires FileName(v, name, UP) !in before && FileName(v, name, DOWN) !in before
    ensures var up, down := Print(v) + "_" + name + ".up.sql", Print(v) + "_" + name + ".down.sql";
            && up !in before && down !in before && up != down
            && after == before[up := "-- Write schema changes here.\n"][down := "-- Write rollback changes here.\n"]
  {
    var pair := Pair(v, name);
    assert pair[0] in pair && pair[1] in pair;
    assert |pair[0].name| < |pair[1].name|;
  }

  lemma NoLeftoversNoChange(before: map<string, string>, after: map<string, string>, leftovers: set<string>)
    requires RolledBack(before, after, leftovers) && leftovers == {}
    ensures after == before
  {
  }

  /** A file with the next version in its name cannot exist yet, and the two new names differ. */
  lemma NewNamesAreFree(files: map<string, string>, listing: seq<Entry>, requested: int, v: int, name: string)
    requires (forall file | file in files :: Named(file) in listing) && IsNext(listing, requested, v) && InI64(v)
    ensures forall suffix :: FileName(v, name, suffix) !in files
    ensures FileName(v, name, UP) != FileName(v, name, DOWN)
  {
    forall suffix ensures FileName(v, name, suffix) !in files {
      FileNamesCarryTheirVersion(v, name, suffix);
      var entry := Named(FileName(v, name, suffix));
      assert VersionOfEntry(entry) == Some(v);
      assert entry in listing ==> Exists(listing, v);
    }
    assert |FileName(v, name, UP)| < |FileName(v, name, DOWN)|;
  }

  // ---------------------------------------------------------------- creations one after another

  /** Successive calls on one directory, successful or not; `directories[i]` is the directory before call `i`. */
  ghost predicate Series(directories: seq<map<string, string>>, calls: seq<Creation>) {
    |directories| == |calls| + 1 && forall i | 0 <= i < |calls| :: Creates(directories[i], calls[i], directories[i + 1])
  }

  lemma {:induction false} FilesStay(directories: seq<map<string, string>>, calls: seq<Creation>, i: nat, j: nat,
          name: string)
    requires Series(directories, calls) && i <= j <= |calls| && name in directories[i]
    ensures name in directories[j]
  {
    if i < j {
      FilesStay(directories, calls, i, j - 1, name);
      assert Creates(directories[j - 1], calls[j - 1], directories[j]);
    }
  }

  /** Whatever the clock asks for and however many calls fail in between, a later creation has a larger version. */
  lemma VersionsGrow(directories: seq<map<string, string>>, calls: seq<Creation>, i: nat, j: nat)
    requires Series(directories, calls) && i < j < |calls| && calls[i].result.Ok? && calls[j].result.Ok?
    ensures calls[i].result.value < calls[j].result.value
  {
    var v := calls[i].result.value;
    var file := FileName(v, calls[i].name, UP);
    assert Creates(directories[i], calls[i], directories[i + 1])
        && Creates(directories[j], calls[j], directories[j + 1]);
    assert file in directories[i + 1] by {
      assert Pair(v, calls[i].name)[0] in Pair(v, calls[i].name);
    }
    FilesStay(directories, calls, i + 1, j, file);
    FileNamesCarryTheirVersion(v, calls[i].name, UP);
    hide VersionOf, FileName;
    assert VersionOfEntry(Named(file)) == Some(v);
    assert Exists(calls[j].listing.value, v);
  }
}
