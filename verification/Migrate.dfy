/**
 The migration runner (internal/storage/sqlite.go). A start-up can be cut short anywhere, by a
 crash or by a failing statement; each migration commits together with its version row or not
 at all. What a script does to the rest of the database is a parameter.
 */
module Migrate {
  import opened Wrappers
  import Order

  type Schema(!new)

  /** Runs the script of a file; None when one of its statements fails. */
  type Script = (string, Schema) -> Option<Schema>

  datatype Database = Database(versions: set<int>, schema: Schema)

  datatype Entry = Entry(name: string, isDir: bool)

  // ------------------------------------------------------------------------ version numbers

  predicate IsDigit(c: char) {
    '0' <= c <= '9'
  }

  ghost predicate AllDigits(s: string) {
    forall i :: 0 <= i < |s| ==> IsDigit(s[i])
  }

  function Horner(acc: nat, s: string): Option<nat>
    decreases |s|
  {
    if s == [] then Some(acc)
    else if IsDigit(s[0]) then Horner(acc * 10 + (s[0] as int - '0' as int), s[1..])
    else None
  }

  /** strconv.Atoi with a 64-bit int. */
  function Atoi(s: string): Option<int> {
    var signed := s != [] && (s[0] == '+' || s[0] == '-');
    var digits := if signed then s[1..] else s;
    if digits == [] then None
    else
      match Horner(0, digits)
      case None => None
      case Some(n) =>
        var v := if signed && s[0] == '-' then 0 - n else n as int;
        if -0x8000_0000_0000_0000 <= v < 0x8000_0000_0000_0000 then Some(v) else None
  }

  function BeforeUnderscore(s: string): string {
    if s == [] || s[0] == '_' then [] else [s[0]] + BeforeUnderscore(s[1..])
  }

  function VersionOf(name: string): Option<int> {
    Atoi(BeforeUnderscore(name))
  }

  /** The value of a run of digits, most significant first. */
  ghost function Value(acc: nat, s: string): nat
    requires AllDigits(s)
    decreases |s|
  {
    if s == [] then acc else Value(acc * 10 + (s[0] as int - '0' as int), s[1..])
  }

  lemma {:induction false} HornerOfDigits(acc: nat, s: string)
    requires AllDigits(s)
    ensures Horner(acc, s) == Some(Value(acc, s))
    decreases |s|
  {
    if s == [] {
    } else {
      HornerOfDigits(acc * 10 + (s[0] as int - '0' as int), s[1..]);
    }
  }

  lemma {:induction false} BeforeUnderscoreOfDigits(s: string, rest: string)
    requires AllDigits(s)
    ensures BeforeUnderscore(s + "_" + rest) == s
    decreases |s|
  {
    var all := s + "_" + rest;
    if s == [] {
    } else {
      assert all[0] == s[0] != '_';
      assert all[1..] == s[1..] + "_" + rest;
      BeforeUnderscoreOfDigits(s[1..], rest);
    }
  }

  /** The version of `<digits>_<rest>` is the number the digits write, if it fits 64 bits. */
  lemma VersionOfDigits(s: string, rest: string)
    requires AllDigits(s) && s != []
    ensures VersionOf(s + "_" + rest) ==
      if Value(0, s) < 0x8000_0000_0000_0000 then Some(Value(0, s)) else None
  {
    BeforeUnderscoreOfDigits(s, rest);
    HornerOfDigits(0, s);
    assert IsDigit(s[0]);
  }

  lemma {:induction false} LargerLeadWins(m: nat, s: string, n: nat, t: string)
    requires AllDigits(s) && AllDigits(t) && |s| == |t| && m < n
    ensures Value(m, s) < Value(n, t)
    decreases |s|
  {
    if s == [] {
    } else {
      assert IsDigit(s[0]) && IsDigit(t[0]);
      LargerLeadWins(m * 10 + (s[0] as int - '0' as int), s[1..], n * 10 + (t[0] as int - '0' as int), t[1..]);
    }
  }

  /** Names whose numbers are padded to one width are in version order when they are in name order. */
  lemma {:induction false} PaddedNamesKeepVersionOrder(acc: nat, s: string, t: string, x: string, y: string)
    requires AllDigits(s) && AllDigits(t) && |s| == |t| && Order.Leq(s + x, t + y)
    ensures Value(acc, s) <= Value(acc, t)
    decreases |s|
  {
    if s == [] {
    } else {
      var (a, b) := (s + x, t + y);
      var (m, n) := (acc * 10 + (s[0] as int - '0' as int), acc * 10 + (t[0] as int - '0' as int));
      assert a[0] == s[0] && b[0] == t[0];
      assert IsDigit(s[0]) && IsDigit(t[0]);
      if m < n {
        LargerLeadWins(m, s[1..], n, t[1..]);
      } else {
        assert a[1..] == s[1..] + x && b[1..] == t[1..] + y;
        PaddedNamesKeepVersionOrder(m, s[1..], t[1..], x, y);
      }
    }
  }

  // -------------------------------------------------------------------------- one start-up

  /** A migration file, with the version its name starts with, if it does. */
  datatype File = File(name: string, version: Option<int>)

  /** A start-up over the sorted files that gets through `stop` files before something stops it. */
  function Migrated(db: Database, files: seq<File>, run: Script, stop: nat): (Database, bool)
    decreases |files|
  {
    if files == [] then (db, true)
    else if stop == 0 then (db, false)
    else
      match files[0].version
      case None => (db, false)
      case Some(v) =>
        if v in db.versions then Migrated(db, files[1..], run, stop - 1)
        else
          match run(files[0].name, db.schema)
          case None => (db, false)
          case Some(schema) => Migrated(Database(db.versions + {v}, schema), files[1..], run, stop - 1)
  }

  function FileNames(entries: seq<Entry>): seq<string> {
    if entries == [] then []
    else if entries[|entries| - 1].isDir then FileNames(entries[..|entries| - 1])
    else FileNames(entries[..|entries| - 1]) + [entries[|entries| - 1].name]
  }

  function Files(names: seq<string>): seq<File> {
    seq(|names|, i requires 0 <= i < |names| => File(names[i], VersionOf(names[i])))
  }

  class Store {
    var db: Database

    constructor (schema: Schema)
      ensures db == Database({}, schema)
    {
      db := Database({}, schema);
    }

    /** `stop`: how many files this start-up gets through before a crash or an I/O error. */
    method Migrate(entries: seq<Entry>, run: Script, stop: nat) returns (ok: bool)
      modifies this
      ensures (db, ok) == Migrated(old(db), Files(Order.Sort(FileNames(entries))), run, stop)
    {
      var names := [];
      for i := 0 to |entries|
        invariant names == FileNames(entries[..i])
      {
        assert entries[..i + 1][..i] == entries[..i];
        if !entries[i].isDir {
          names := names + [entries[i].name];
        }
      }
      assert entries[..|entries|] == entries;
      names := Order.Sort(names);
      ghost var files := Files(names);
      for i := 0 to |names|
        invariant i <= stop
        invariant Migrated(old(db), files, run, stop) == Migrated(db, files[i..], run, stop - i)
      {
        assert files[i..][1..] == files[i + 1..];
        if i == stop {
          return false;
        }
        var version := VersionOf(names[i]);
        if version.None? {
          return false;
        }
        if version.value !in db.versions {
          var result := run(names[i], db.schema);
          if result.None? {
            return false;
          }
          db := Database(db.versions + {version.value}, result.value);
        }
      }
      return true;
    }
  }

  // ---------------------------------------------------------------------- many start-ups

  /** A fixed set of files, in name order, and the database before the first start-up. */
  datatype Setup = Setup(files: seq<File>, run: Script, schema: Schema)

  /** The first k files applied, each exactly once, in order; None when one of them cannot be. */
  ghost function Applied(s: Setup, k: nat): Option<Database>
    requires k <= |s.files|
  {
    if k == 0 then Some(Database({}, s.schema))
    else
      var before := Applied(s, k - 1);
      if before.None? || s.files[k - 1].version.None? then None
      else
        var result := s.run(s.files[k - 1].name, before.value.schema);
        if result.None? then None
        else Some(Database(before.value.versions + {s.files[k - 1].version.value}, result.value))
  }

  /** How many files can be applied at all: all of them, or those before the first bad one. */
  ghost function Reach(s: Setup, k: nat): nat
    requires k <= |s.files|
    decreases |s.files| - k
  {
    if k < |s.files| && Applied(s, k + 1).Some? then Reach(s, k + 1) else k
  }

  ghost predicate DistinctVersions(files: seq<File>) {
    forall i, j :: 0 <= i < j < |files| && files[i].version.Some? ==> files[i].version != files[j].version
  }

  lemma {:induction false} AppliedVersions(s: Setup, k: nat, v: int)
    requires k <= |s.files| && Applied(s, k).Some?
    ensures v in Applied(s, k).value.versions <==> exists i :: 0 <= i < k && s.files[i].version == Some(v)
  {
    if k > 0 {
      AppliedVersions(s, k - 1, v);
      assert s.files[k - 1].version.Some?;
    }
  }

  lemma {:induction false} PrefixApplied(s: Setup, k: nat, i: nat)
    requires i <= k <= |s.files| && Applied(s, k).Some?
    ensures Applied(s, i).Some? && (i < k ==> s.files[i].version.Some?)
    decreases k
  {
    if i < k {
      PrefixApplied(s, k - 1, i);
    }
  }

  lemma PassesOne(s: Setup, k: nat, i: nat, stop: nat)
    requires i < k <= |s.files| && Applied(s, k).Some? && stop > 0
    ensures Migrated(Applied(s, k).value, s.files[i..], s.run, stop)
      == Migrated(Applied(s, k).value, s.files[i + 1..], s.run, stop - 1)
  {
    PrefixApplied(s, k, i);
    AppliedVersions(s, k, s.files[i].version.value);
    assert s.files[i..][0] == s.files[i];
    assert s.files[i..][1..] == s.files[i + 1..];
  }

  /** A start-up passes over the files already applied. */
  lemma {:induction false} PassesApplied(s: Setup, k: nat, i: nat, stop: nat)
    requires i <= k <= |s.files| && Applied(s, k).Some?
    ensures Migrated(Applied(s, k).value, s.files[i..], s.run, stop) ==
      if stop < k - i then (Applied(s, k).value, false)
      else Migrated(Applied(s, k).value, s.files[k..], s.run, stop - (k - i))
    decreases k - i
  {
    if i < k && stop > 0 {
      PassesOne(s, k, i, stop);
      PassesApplied(s, k, i + 1, stop - 1);
    }
  }

  lemma AppliesOne(s: Setup, k: nat, stop: nat)
    requires DistinctVersions(s.files) && k < |s.files| && Applied(s, k).Some? && stop > 0
    ensures Migrated(Applied(s, k).value, s.files[k..], s.run, stop) ==
      if Applied(s, k + 1).None? then (Applied(s, k).value, false)
      else Migrated(Applied(s, k + 1).value, s.files[k + 1..], s.run, stop - 1)
  {
    assert s.files[k..][0] == s.files[k];
    assert s.files[k..][1..] == s.files[k + 1..];
    if s.files[k].version.Some? {
      AppliedVersions(s, k, s.files[k].version.value);
    }
  }

  lemma ReachStep(s: Setup, k: nat)
    requires k < |s.files| && Applied(s, k + 1).Some?
    ensures Reach(s, k) == Reach(s, k + 1)
  {
  }

  lemma {:induction false} ReachBounds(s: Setup, k: nat)
    requires k <= |s.files|
    ensures k <= Reach(s, k) <= |s.files|
    ensures Applied(s, k).Some? ==> Applied(s, Reach(s, k)).Some?
    decreases |s.files| - k
  {
    if k < |s.files| && Applied(s, k + 1).Some? {
      ReachBounds(s, k + 1);
    }
  }

  lemma {:induction false} ReachFromStart(s: Setup, k: nat)
    requires k <= |s.files| && Applied(s, k).Some?
    ensures Reach(s, 0) == Reach(s, k)
  {
    if k > 0 {
      ReachFromStart(s, k - 1);
      ReachStep(s, k - 1);
    }
  }

  lemma {:induction false} AppliedUpToReach(s: Setup, k: nat)
    requires k <= Reach(s, 0)
    ensures k <= |s.files| && Applied(s, k).Some?
  {
    ReachBounds(s, 0);
    PrefixApplied(s, Reach(s, 0), k);
  }

  function Min(a: nat, b: nat): nat {
    if a < b then a else b
  }

  function Max(a: nat, b: nat): nat {
    if a < b then b else a
  }

  /** Where a start-up ends that finds the first k files applied and gets through `stop` more. */
  ghost function Extend(s: Setup, k: nat, stop: nat): nat
    requires k <= |s.files|
    decreases stop
  {
    if stop > 0 && k < |s.files| && Applied(s, k + 1).Some? then Extend(s, k + 1, stop - 1) else k
  }

  lemma {:induction false} ExtendIsMin(s: Setup, k: nat, stop: nat)
    requires k <= |s.files|
    ensures k <= Reach(s, k) && Extend(s, k, stop) == Min(Reach(s, k), k + stop) <= |s.files|
    decreases stop
  {
    ReachBounds(s, k);
    if stop > 0 && k < |s.files| && Applied(s, k + 1).Some? {
      ExtendIsMin(s, k + 1, stop - 1);
    }
  }

  /** From the first k files on, a start-up applies one file after the other. */
  lemma {:induction false} AppliesTheRest(s: Setup, k: nat, stop: nat)
    requires DistinctVersions(s.files) && k <= |s.files| && Applied(s, k).Some?
    ensures var far := Extend(s, k, stop);
      && far <= |s.files| && Applied(s, far).Some?
      && Migrated(Applied(s, k).value, s.files[k..], s.run, stop) == (Applied(s, far).value, far == |s.files|)
    decreases |s.files| - k
  {
    if k < |s.files| && stop > 0 {
      AppliesOne(s, k, stop);
      if Applied(s, k + 1).Some? {
        AppliesTheRest(s, k + 1, stop - 1);
      }
    }
  }

  /** How far start-ups get that get through at most `stop` files each. */
  ghost function Far(s: Setup, stop: nat): (far: nat)
    ensures far <= |s.files| && Applied(s, far).Some?
  {
    ReachBounds(s, 0);
    AppliedUpToReach(s, Min(Reach(s, 0), stop));
    Min(Reach(s, 0), stop)
  }

  lemma FarFrom(s: Setup, k: nat, stop: nat)
    requires k <= |s.files| && Applied(s, k).Some?
    ensures Far(s, Max(k, stop)) == if stop < k then k else Extend(s, k, stop - k)
    ensures stop < k ==> Far(s, stop) < |s.files|
    ensures stop >= k ==> Far(s, stop) == Extend(s, k, stop - k)
  {
    ReachFromStart(s, k);
    ReachBounds(s, k);
    if stop >= k {
      ExtendIsMin(s, k, stop - k);
    }
  }

  lemma PassesThenApplies(s: Setup, k: nat, stop: nat)
    requires DistinctVersions(s.files) && k <= |s.files| && Applied(s, k).Some?
    ensures var far := if stop < k then k else Extend(s, k, stop - k);
      && far <= |s.files| && Applied(s, far).Some?
      && Migrated(Applied(s, k).value, s.files, s.run, stop) == (Applied(s, far).value, stop >= k && far == |s.files|)
  {
    assert s.files[0..] == s.files;
    PassesApplied(s, k, 0, stop);
    if stop >= k {
      AppliesTheRest(s, k, stop - k);
    }
  }

  /** One start-up after the first k files: it gets as far as `stop` lets it, and never back. */
  lemma StartupExtendsPrefix(s: Setup, k: nat, stop: nat)
    requires DistinctVersions(s.files) && k <= |s.files| && Applied(s, k).Some?
    ensures Migrated(Applied(s, k).value, s.files, s.run, stop)
      == (Applied(s, Far(s, Max(k, stop))).value, Far(s, stop) == |s.files|)
  {
    FarFrom(s, k, stop);
    PassesThenApplies(s, k, stop);
  }

  /** Start-ups one after the other, each stopped somewhere. */
  function Startups(s: Setup, db: Database, stops: seq<nat>): Database
    decreases |stops|
  {
    if stops == [] then db else Startups(s, Migrated(db, s.files, s.run, stops[0]).0, stops[1..])
  }

  function Furthest(k: nat, stops: seq<nat>): nat
    decreases |stops|
  {
    if stops == [] then k else Furthest(Max(k, stops[0]), stops[1..])
  }

  lemma {:induction false} StartupsFrom(s: Setup, k: nat, reached: nat, stops: seq<nat>)
    requires DistinctVersions(s.files) && k == Far(s, reached)
    ensures Startups(s, Applied(s, k).value, stops) == Applied(s, Far(s, Furthest(reached, stops))).value
    decreases |stops|
  {
    if stops == [] {
    } else {
      StartupExtendsPrefix(s, k, stops[0]);
      StartupsFrom(s, Far(s, Max(reached, stops[0])), Max(reached, stops[0]), stops[1..]);
    }
  }

  /**
   After any number of start-ups, however each was cut short, the database is exactly the first
   so many files applied once each in name order: as many as the furthest start-up could do.
   */
  lemma AlwaysAPrefix(s: Setup, stops: seq<nat>)
    requires DistinctVersions(s.files)
    ensures Startups(s, Database({}, s.schema), stops) == Applied(s, Far(s, Furthest(0, stops))).value
  {
    StartupsFrom(s, 0, 0, stops);
  }

  /**
   A start-up that succeeds, after any history, leaves what one uninterrupted start-up would
   have left, and a further one changes nothing.
   */
  lemma SuccessIsComplete(s: Setup, stops: seq<nat>, stop: nat, again: nat)
    requires DistinctVersions(s.files)
    requires Migrated(Startups(s, Database({}, s.schema), stops), s.files, s.run, stop).1
    ensures var done := Migrated(Startups(s, Database({}, s.schema), stops), s.files, s.run, stop).0;
      && Migrated(Database({}, s.schema), s.files, s.run, |s.files|) == (done, true)
      && Migrated(done, s.files, s.run, again).0 == done
  {
    AlwaysAPrefix(s, stops);
    StartupExtendsPrefix(s, Far(s, Furthest(0, stops)), stop);
    StartupExtendsPrefix(s, 0, |s.files|);
    StartupExtendsPrefix(s, |s.files|, again);
  }

  // ------------------------------------------------------------------- two files, one version

  lemma {:induction false} AtMostOneVersionEach(db: Database, files: seq<File>, run: Script, stop: nat)
    ensures |Migrated(db, files, run, stop).0.versions| <= |db.versions| + |files|
    ensures db.versions <= Migrated(db, files, run, stop).0.versions
    decreases |files|
  {
    if files != [] && stop > 0 && files[0].version.Some? {
      var v := files[0].version.value;
      if v in db.versions {
        AtMostOneVersionEach(db, files[1..], run, stop - 1);
      } else if run(files[0].name, db.schema).Some? {
        AtMostOneVersionEach(Database(db.versions + {v}, run(files[0].name, db.schema).value), files[1..], run,
          stop - 1);
      }
    }
  }

  /** A file whose version is already there, or comes up again, is passed over without a word. */
  ghost predicate AllNew(db: Database, files: seq<File>) {
    && DistinctVersions(files)
    && forall i :: 0 <= i < |files| && files[i].version.Some? ==> files[i].version.value !in db.versions
  }

  lemma {:induction false} CountsAllIffNew(db: Database, files: seq<File>, run: Script, stop: nat)
    requires Migrated(db, files, run, stop).1
    ensures |Migrated(db, files, run, stop).0.versions| == |db.versions| + |files| <==> AllNew(db, files)
    decreases |files|
  {
    if files == [] {
    } else {
      var v := files[0].version.value;
      var rest := files[1..];
      if v in db.versions {
        AtMostOneVersionEach(db, rest, run, stop - 1);
        assert !AllNew(db, files);
      } else {
        var next := Database(db.versions + {v}, run(files[0].name, db.schema).value);
        CountsAllIffNew(next, rest, run, stop - 1);
        NewWithFirst(db, files, v);
        assert AllNew(db, files) <==> AllNew(next, rest);
      }
    }
  }

  lemma NewWithFirst(db: Database, files: seq<File>, v: int)
    requires files != [] && files[0].version == Some(v) && v !in db.versions
    ensures AllNew(db, files) <==> AllNew(db.(versions := db.versions + {v}), files[1..])
  {
  }

  /** A first start-up that succeeds has applied every file if and only if no two share a version. */
  lemma EveryFileAppliedIff(s: Setup, stop: nat)
    requires Migrated(Database({}, s.schema), s.files, s.run, stop).1
    ensures |Migrated(Database({}, s.schema), s.files, s.run, stop).0.versions| == |s.files| <==>
      DistinctVersions(s.files)
  {
    CountsAllIffNew(Database({}, s.schema), s.files, s.run, stop);
  }

  /** Of two files with version 1 the second is never run, and the start-up still succeeds. */
  lemma DuplicateVersionExample(run: Script, schema: Schema)
    requires run("1_a.sql", schema).Some?
    ensures Migrated(Database({}, schema), Files(["1_a.sql", "1_b.sql"]), run, 2)
      == (Database({1}, run("1_a.sql", schema).value), true)
  {
    VersionOfOne("a.sql");
    VersionOfOne("b.sql");
    assert "1" + "_" + "a.sql" == "1_a.sql" && "1" + "_" + "b.sql" == "1_b.sql";
    assert Files(["1_a.sql", "1_b.sql"]) == [File("1_a.sql", Some(1)), File("1_b.sql", Some(1))];
    SecondIsPassedOver(File("1_a.sql", Some(1)), File("1_b.sql", Some(1)), 1, run, schema);
  }

  lemma VersionOfOne(rest: string)
    ensures VersionOf("1" + "_" + rest) == Some(1)
  {
    VersionOfDigits("1", rest);
    assert Value(0, "1") == Value(1, "1"[1..]) == 1;
  }

  lemma SecondIsPassedOver(f: File, g: File, v: int, run: Script, schema: Schema)
    requires f.version == g.version == Some(v) && run(f.name, schema).Some?
    ensures Migrated(Database({}, schema), [f, g], run, 2) == (Database({v}, run(f.name, schema).value), true)
  {
    var after := Database({} + {v}, run(f.name, schema).value);
    assert {} + {v} == {v};
    assert [f, g][1..] == [g] && [g][1..] == [];
    assert Migrated(after, [g], run, 1) == Migrated(after, [], run, 0);
  }
}
