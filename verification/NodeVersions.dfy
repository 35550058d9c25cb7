/** What detection takes for a Node.js version (internal/providers/runtime/node/node.go, installer.go). */
module NodeVersions {
  import opened Wrappers
  import opened NodeRuntime
  import opened Text

  // ------------------------------------------------------------------ names of versions

  /** At least one digit, and nothing else, from i up to j. */
  predicate Digits(s: string, i: nat, j: nat) {
    i < j <= |s| && forall m :: i <= m < j ==> '0' <= s[m] <= '9'
  }

  /** From i on: digits up to a dot at j, digits up to a dot at k, and another digit. */
  ghost predicate VersionAt(s: string, i: nat, j: nat, k: nat) {
    && Digits(s, i, j) && j < |s| && s[j] == '.'
    && Digits(s, j + 1, k) && k < |s| && s[k] == '.'
    && Digits(s, k + 1, k + 2)
  }

  ghost predicate SomewhereAVersion(s: string) {
    exists i, j, k :: VersionAt(s, i, j, k)
  }

  lemma {:induction false} SkipDigitsRun(s: string) returns (n: nat)
    ensures n <= |s| && SkipDigits(s) == s[n..]
    ensures forall i :: 0 <= i < n ==> '0' <= s[i] <= '9'
  {
    if s != [] && IsDigit(s[0]) {
      n := SkipDigitsRun(s[1..]);
      assert s == [s[0]] + s[1..];
      n := n + 1;
    } else {
      n := 0;
    }
  }

  lemma {:induction false} SkipDigitsTo(s: string, n: nat)
    requires n < |s| && !IsDigit(s[n]) && forall i :: 0 <= i < n ==> '0' <= s[i] <= '9'
    ensures SkipDigits(s) == s[n..]
  {
    if n > 0 {
      SkipDigitsTo(s[1..], n - 1);
      assert s[1..][n - 1..] == s[n..];
    }
  }

  lemma VersionAtStart(s: string) returns (j: nat, k: nat)
    requires StartsVersion(s)
    ensures VersionAt(s, 0, j, k)
  {
    j := SkipDigitsRun(s);
    var rest := s[j..][1..];
    var m := SkipDigitsRun(rest);
    k := j + 1 + m;
    DigitsMoved(s, rest, j + 1, 0, m);
    assert rest[m..] == s[k..] && rest[0] == s[j + 1];
    assert s[k..][0] == s[k] && s[k..][1] == s[k + 1];
  }

  /** A run of digits of a tail, as a run of the whole, and the reverse. */
  lemma DigitsMoved(s: string, rest: string, off: nat, i: nat, j: nat)
    requires off <= |s| && rest == s[off..]
    ensures Digits(rest, i, j) <==> Digits(s, i + off, j + off)
  {
    assert forall m :: off + i <= m < off + j && j <= |rest| ==> s[m] == rest[m - off];
  }

  lemma StartsAt(s: string, j: nat, k: nat)
    requires VersionAt(s, 0, j, k)
    ensures StartsVersion(s)
  {
    SkipDigitsTo(s, j);
    var rest := s[j..][1..];
    DigitsMoved(s, rest, j + 1, 0, k - j - 1);
    assert rest[k - j - 1] == s[k] && rest[0] == s[j + 1];
    SkipDigitsTo(rest, k - j - 1);
    assert rest[k - j - 1..] == s[k..];
  }

  lemma VersionMoved(s: string, i: nat, j: nat, k: nat)
    requires s != []
    ensures VersionAt(s[1..], i, j, k) <==> VersionAt(s, i + 1, j + 1, k + 1)
  {
    DigitsMoved(s, s[1..], 1, i, j);
    DigitsMoved(s, s[1..], 1, j + 1, k);
    DigitsMoved(s, s[1..], 1, k + 1, k + 2);
  }

  /** A name holds a version exactly when three runs of digits with single dots between them stand somewhere in it. */
  lemma {:induction false} HasVersionMeans(s: string)
    ensures HasVersion(s) <==> SomewhereAVersion(s)
  {
    if s == [] {
    } else {
      HasVersionMeans(s[1..]);
      if StartsVersion(s) {
        var j, k := VersionAtStart(s);
      } else if HasVersion(s) {
        var i: nat, j: nat, k: nat :| VersionAt(s[1..], i, j, k);
        VersionMoved(s, i, j, k);
      } else if i: nat, j: nat, k: nat :| VersionAt(s, i, j, k) {
        if i == 0 { StartsAt(s, j, k); } else { VersionMoved(s, i - 1, j - 1, k - 1); }
      }
    }
  }

  // ------------------------------------------------------------------ the active version

  /** The version named in default.txt is active when its binary is there, whatever white space surrounds it. */
  lemma DefaultIsActive(snap: Snapshot, a: string, v: string, b: string)
    requires snap.defaultFile == Some(a + v + b) && AllSpace(a) && AllSpace(b) && Trimmed(v)
    requires v != "" && v in snap.binaries
    ensures ActiveVersion(snap) == Some(RuntimeVersion(v, snap.binaries[v], true))
  {
    TrimIs(a, v, b);
  }

  predicate NamesNoBinary(snap: Snapshot) {
    snap.defaultFile.Some? ==> Trim(snap.defaultFile.value) == "" || Trim(snap.defaultFile.value) !in snap.binaries
  }

  /** Otherwise the node on PATH is active, with its own version and path, if there is one. */
  lemma PathIsActive(snap: Snapshot, version: string, path: string)
    requires NamesNoBinary(snap)
    ensures snap.onPath == Some((version, path)) ==> ActiveVersion(snap) == Some(RuntimeVersion(version, path, true))
    ensures snap.onPath == None ==> ActiveVersion(snap) == None
  {
  }

  /** A complete installation in the managed directory, as a version that is not the default. */
  predicate Installed(snap: Snapshot, v: RuntimeVersion) {
    && snap.listing.Listed? && Entry(v.version, true) in snap.listing.entries
    && HasVersion(v.version) && v.version in snap.binaries
    && v.path == snap.binaries[v.version] && !v.isDefault
  }

  /** Detection reports the active version, and every other installed one. */
  lemma DetectedMeans(snap: Snapshot, v: RuntimeVersion)
    ensures var active := ActiveVersion(snap);
      v in Detected(snap) <==>
        active == Some(v) || (Installed(snap, v) && (active.Some? ==> active.value.version != v.version))
  {
    if v in Managed(snap) {
      assert Entry(v.version, true) in snap.listing.entries;
    }
    if Installed(snap, v) {
      var e := Entry(v.version, true);
      assert e in snap.listing.entries && IsManaged(snap, e);
      assert ManagedVersion(snap, e) in Managed(snap);
    }
  }
}
