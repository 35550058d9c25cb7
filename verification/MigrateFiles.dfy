/** Which migration files there are, and which version each has (internal/storage/sqlite.go). */
module MigrateFiles {
  import opened Wrappers
  import opened Seqs
  import opened Migrate

  // ------------------------------------------------------------------ versions

  lemma {:induction false} HornerNeedsDigits(acc: nat, s: string)
    requires Horner(acc, s).Some?
    ensures AllDigits(s)
    decreases |s|
  {
    if s == [] {
    } else {
      HornerNeedsDigits(acc * 10 + (s[0] as int - '0' as int), s[1..]);
      assert s == [s[0]] + s[1..];
    }
  }

  /** The last digit counts once, everything before it ten times. */
  lemma {:induction false} ValueOfLast(acc: nat, s: string, c: char)
    requires AllDigits(s) && IsDigit(c)
    ensures AllDigits(s + [c]) && Value(acc, s + [c]) == 10 * Value(acc, s) + (c as int - '0' as int)
    decreases |s|
  {
    var all := s + [c];
    if s == [] {
      assert all[1..] == [];
    } else {
      assert all[0] == s[0] && IsDigit(s[0]);
      ValueOfLast(acc * 10 + (s[0] as int - '0' as int), s[1..], c);
      assert all[1..] == s[1..] + [c];
    }
  }

  /** s writes the number v: digits, with or without a sign before them. */
  ghost predicate Writes(s: string, v: int) {
    || (s != "" && AllDigits(s) && v == Value(0, s))
    || (|s| > 1 && s[0] == '+' && AllDigits(s[1..]) && v == Value(0, s[1..]))
    || (|s| > 1 && s[0] == '-' && AllDigits(s[1..]) && v == 0 - Value(0, s[1..]) as int)
  }

  /** A number is read exactly when the text writes it and it fits 64 bits. */
  lemma AtoiMeans(s: string, v: int)
    ensures Atoi(s) == Some(v) <==> Writes(s, v) && -0x8000_0000_0000_0000 <= v <= 0x7fff_ffff_ffff_ffff
  {
    if s == "" {
    } else if s[0] == '+' || s[0] == '-' {
      assert !AllDigits(s) by {
        assert !IsDigit(s[0]);
      }
      DigitsRead(s[1..]);
    } else {
      DigitsRead(s);
    }
  }

  lemma DigitsRead(s: string)
    ensures Horner(0, s).Some? <==> AllDigits(s)
    ensures AllDigits(s) ==> Horner(0, s).value == Value(0, s)
  {
    if AllDigits(s) {
      HornerOfDigits(0, s);
    } else if Horner(0, s).Some? {
      HornerNeedsDigits(0, s);
    }
  }

  /** The version of a file is the number before the first underscore, or the number the whole name writes. */
  lemma {:induction false} VersionIsBeforeUnderscore(a: string, rest: string)
    requires '_' !in a
    ensures VersionOf(a + "_" + rest) == Atoi(a) && VersionOf(a) == Atoi(a)
  {
    UpToUnderscore(a, rest);
  }

  lemma {:induction false} UpToUnderscore(a: string, rest: string)
    requires '_' !in a
    ensures BeforeUnderscore(a + "_" + rest) == a && BeforeUnderscore(a) == a
    decreases |a|
  {
    if a == [] {
    } else {
      assert a[0] in a && (a + "_" + rest)[1..] == a[1..] + "_" + rest;
      UpToUnderscore(a[1..], rest);
    }
  }

  // ------------------------------------------------------------------ files

  ghost function IsFile(entries: seq<Entry>): nat -> bool {
    (i: nat) => i < |entries| && !entries[i].isDir
  }

  ghost predicate NamesAt(names: seq<string>, entries: seq<Entry>, idx: seq<nat>) {
    && |names| == |idx|
    && forall k :: 0 <= k < |idx| ==> idx[k] < |entries| && names[k] == entries[idx[k]].name
  }

  /** The names are those of the entries that are not directories, in order. */
  lemma FileNamesMean(entries: seq<Entry>) returns (idx: seq<nat>)
    ensures Picks(idx, |entries|, IsFile(entries))
    ensures NamesAt(FileNames(entries), entries, idx)
  {
    idx := Kept(|entries|, IsFile(entries));
    KeptPicks(|entries|, IsFile(entries));
    FileNamesAreKept(entries, |entries|);
    assert entries[..|entries|] == entries;
  }

  lemma {:induction false} FileNamesAreKept(entries: seq<Entry>, n: nat)
    requires n <= |entries|
    ensures NamesAt(FileNames(entries[..n]), entries, Kept(n, IsFile(entries)))
  {
    if n == 0 {
    } else {
      FileNamesAreKept(entries, n - 1);
      assert entries[..n][..n - 1] == entries[..n - 1];
    }
  }
}
