/**
 The path sandbox (internal/security/sandbox.go) over a tree of directories, files and
 symbolic links. A clean absolute path is the sequence of its component names.
 */
module Sandbox {
  /** A component name: not empty, not "." and not "..". */
  type Name(==, !new, 0)

  datatype Part = Here | Up | Named(name: Name)

  type Path = seq<Name>

  datatype Node = Dir | File | Link(absolute: bool, target: seq<Part>)

  type Tree = map<Path, Node>

  /** Everything stands in a directory. */
  ghost predicate IsTree(fs: Tree) {
    && [] in fs && fs[[]] == Dir
    && forall p {:trigger p in fs} :: p in fs && p != [] ==> p[..|p| - 1] in fs && fs[p[..|p| - 1]] == Dir
  }

  // ---------------------------------------------------------------- following links

  datatype Walk = Real(path: Path, links: nat) | Missing | NotDirectory | TooManyLinks

  const MAX_LINKS := 255

  function Parent(p: Path): Path {
    if p == [] then [] else p[..|p| - 1]
  }

  /** filepath.EvalSymlinks: walks rest from the real directory dest, having followed links so far. */
  function Eval(fs: Tree, dest: Path, rest: seq<Part>, links: nat): Walk
    decreases if links <= MAX_LINKS then MAX_LINKS - links else 0, |rest|
  {
    if rest == [] then Real(dest, links)
    else
      match rest[0]
      case Here => Eval(fs, dest, rest[1..], links)
      case Up => Eval(fs, Parent(dest), rest[1..], links)
      case Named(n) =>
        var p := dest + [n];
        if p !in fs then Missing
        else
          match fs[p]
          case Dir => Eval(fs, p, rest[1..], links)
          case File => if rest[1..] == [] then Real(p, links) else NotDirectory
          case Link(absolute, target) =>
            if links >= MAX_LINKS then TooManyLinks
            else Eval(fs, if absolute then [] else dest, target + rest[1..], links + 1)
  }

  function Names(p: Path): (parts: seq<Part>)
    ensures |parts| == |p| && forall i :: 0 <= i < |p| ==> parts[i] == Named(p[i])
  {
    seq(|p|, i requires 0 <= i < |p| => Named(p[i]))
  }

  function EvalSymlinks(fs: Tree, p: Path): Walk {
    Eval(fs, [], Names(p), 0)
  }

  // -------------------------------------------------------------------- the sandbox

  /** filepath.Clean of an absolute path. */
  function Clean(base: Path, parts: seq<Part>): Path
    decreases |parts|
  {
    if parts == [] then base
    else
      match parts[0]
      case Here => Clean(base, parts[1..])
      case Up => Clean(Parent(base), parts[1..])
      case Named(n) => Clean(base + [n], parts[1..])
  }

  datatype UserPath = UserPath(absolute: bool, parts: seq<Part>)

  function Joined(root: Path, user: UserPath): Path {
    Clean(if user.absolute then [] else root, user.parts)
  }

  /** filepath.Rel of two clean absolute paths. */
  function Rel(base: Path, target: Path): seq<Part>
    decreases |base|
  {
    if base != [] && target != [] && base[0] == target[0] then Rel(base[1..], target[1..])
    else seq(|base|, _ => Up) + Names(target)
  }

  predicate IsWithin(root: Path, target: Path) {
    var rel := Rel(root, target);
    rel == [] || rel[0] != Up
  }

  lemma {:induction false} IsWithinIffPrefix(root: Path, target: Path)
    ensures IsWithin(root, target) <==> root <= target
    decreases |root|
  {
    if root != [] && target != [] && root[0] == target[0] {
      IsWithinIffPrefix(root[1..], target[1..]);
      assert root == [root[0]] + root[1..] && target == [target[0]] + target[1..];
    } else if root != [] {
      assert Rel(root, target)[0] == Up;
    } else if target != [] {
      assert Rel(root, target)[0] == Named(target[0]);
    }
  }

  datatype Resolution = Accepted(path: Path) | Rejected

  /** How many leading components of path lead somewhere. */
  function Reach(fs: Tree, path: Path): (k: nat)
    ensures k <= |path|
  {
    if EvalSymlinks(fs, path) != Missing || path == [] then |path| else Reach(fs, path[..|path| - 1])
  }

  /** The real path of the deepest component that leads somewhere, and the rest unresolved. */
  function Located(fs: Tree, path: Path): (r: Resolution) {
    var k := Reach(fs, path);
    match EvalSymlinks(fs, path[..k])
    case Real(found, _) => Accepted(found + path[k..])
    case _ => Rejected
  }

  lemma {:induction false} ReachFrom(fs: Tree, path: Path, k: nat)
    requires k <= |path| && forall j :: k < j <= |path| ==> EvalSymlinks(fs, path[..j]) == Missing
    requires k == 0 || EvalSymlinks(fs, path[..k]) != Missing
    ensures Reach(fs, path) == k
  {
    assert path[..|path|] == path;
    if k < |path| {
      var up := path[..|path| - 1];
      assert forall j :: 0 <= j <= |up| ==> up[..j] == path[..j];
      ReachFrom(fs, up, k);
    }
  }

  lemma {:induction false} ReachIs(fs: Tree, path: Path)
    ensures var k := Reach(fs, path);
      && (forall j :: k < j <= |path| ==> EvalSymlinks(fs, path[..j]) == Missing)
      && (k == 0 || EvalSymlinks(fs, path[..k]) != Missing)
  {
    assert path[..|path|] == path;
    if EvalSymlinks(fs, path) == Missing && path != [] {
      var up := path[..|path| - 1];
      ReachIs(fs, up);
      assert forall j :: 0 <= j <= |up| ==> up[..j] == path[..j];
    }
  }

  method ResolveExistingAncestor(fs: Tree, path: Path) returns (r: Resolution)
    ensures r == Located(fs, path)
  {
    var cur := path;
    var suffix: Path := [];
    while true
      invariant cur + suffix == path
      invariant forall j :: |cur| < j <= |path| ==> EvalSymlinks(fs, path[..j]) == Missing
      decreases |cur|
    {
      assert cur == path[..|cur|] && suffix == path[|cur|..];
      match EvalSymlinks(fs, cur) {
        case Real(resolved, _) =>
          ReachFrom(fs, path, |cur|);
          return Accepted(resolved + suffix);
        case NotDirectory =>
          ReachFrom(fs, path, |cur|);
          return Rejected;
        case TooManyLinks =>
          ReachFrom(fs, path, |cur|);
          return Rejected;
        case Missing =>
          // The root directory is always there, so the walk up stops at it at the latest.
          assert cur != [];
          suffix := [cur[|cur| - 1]] + suffix;
          cur := Parent(cur);
      }
    }
  }

  /** A path is handed out as joined when what was located stands in the root. */
  function Resolved(fs: Tree, root: Path, user: UserPath): Resolution {
    match Located(fs, Joined(root, user))
    case Accepted(found) => if root <= found then Accepted(Joined(root, user)) else Rejected
    case Rejected => Rejected
  }

  method Resolve(fs: Tree, root: Path, user: UserPath) returns (r: Resolution)
    ensures r == Resolved(fs, root, user)
  {
    var joined := Joined(root, user);
    var found := ResolveExistingAncestor(fs, joined);
    if found.Rejected? {
      return Rejected;
    }
    IsWithinIffPrefix(root, found.path);
    if !IsWithin(root, found.path) {
      return Rejected;
    }
    return Accepted(joined);
  }

  // ------------------------------------------------------------- what following links does

  predicate IsDir(fs: Tree, p: Path) {
    p in fs && fs[p] == Dir
  }

  lemma ParentIsDir(fs: Tree, p: Path)
    requires IsTree(fs) && p in fs
    ensures p != [] ==> IsDir(fs, Parent(p))
    ensures IsDir(fs, p) ==> IsDir(fs, Parent(p))
  {
  }

  /** Walking from a directory ends, if anywhere, at a directory or a file that is really there. */
  lemma {:induction false} EvalArrives(fs: Tree, dest: Path, rest: seq<Part>, links: nat)
    requires IsTree(fs) && IsDir(fs, dest)
    ensures var w := Eval(fs, dest, rest, links);
      w.Real? ==> w.path in fs && !fs[w.path].Link? && w.links >= links
    decreases if links <= MAX_LINKS then MAX_LINKS - links else 0, |rest|
  {
    if rest == [] {
    } else {
      match rest[0]
      case Here => EvalArrives(fs, dest, rest[1..], links);
      case Up =>
        ParentIsDir(fs, dest);
        EvalArrives(fs, Parent(dest), rest[1..], links);
      case Named(n) =>
        var p := dest + [n];
        if p in fs {
          match fs[p]
          case Dir => EvalArrives(fs, p, rest[1..], links);
          case File =>
          case Link(absolute, target) =>
            if links < MAX_LINKS {
              EvalArrives(fs, if absolute then [] else dest, target + rest[1..], links + 1);
            }
        }
    }
  }

  /** Walking a then b: b starts where a ended, unless a ended at a file. */
  function Onward(fs: Tree, w: Walk, b: seq<Part>): Walk {
    match w
    case Real(p, links) => if b != [] && p in fs && fs[p].File? then NotDirectory else Eval(fs, p, b, links)
    case _ => w
  }

  lemma {:induction false} EvalAppend(fs: Tree, dest: Path, a: seq<Part>, b: seq<Part>, links: nat)
    requires IsTree(fs) && IsDir(fs, dest)
    ensures Eval(fs, dest, a + b, links) == Onward(fs, Eval(fs, dest, a, links), b)
    decreases if links <= MAX_LINKS then MAX_LINKS - links else 0, |a|, 1
  {
    if a == [] {
      assert a + b == b;
    } else {
      var rest := a[1..];
      assert (a + b)[0] == a[0] && (a + b)[1..] == rest + b;
      match a[0]
      case Here => EvalAppend(fs, dest, rest, b, links);
      case Up =>
        ParentIsDir(fs, dest);
        EvalAppend(fs, Parent(dest), rest, b, links);
      case Named(n) => EvalAppendNamed(fs, dest, a, a + b, n, rest, b, links);
    }
  }

  lemma {:induction false} EvalAppendNamed(fs: Tree, dest: Path, a: seq<Part>, ab: seq<Part>, n: Name, rest: seq<Part>,
      b: seq<Part>, links: nat)
    requires IsTree(fs) && IsDir(fs, dest) && a != [] && a[0] == Named(n) && rest == a[1..]
    requires ab != [] && ab[0] == a[0] && ab[1..] == rest + b
    ensures Eval(fs, dest, ab, links) == Onward(fs, Eval(fs, dest, a, links), b)
    decreases if links <= MAX_LINKS then MAX_LINKS - links else 0, |a|, 0
  {
    var p := dest + [n];
    if p in fs {
      match fs[p]
      case Dir => EvalAppend(fs, p, rest, b, links);
      case File =>
        assert ab[1..] == [] <==> rest == [] && b == [];
        assert Eval(fs, p, [], links) == Real(p, links);
      case Link(absolute, target) =>
        if links < MAX_LINKS {
          var from := if absolute then [] else dest;
          assert target + ab[1..] == (target + rest) + b;
          EvalAppend(fs, from, target + rest, b, links + 1);
          assert Eval(fs, dest, a, links) == Eval(fs, from, target + rest, links + 1);
          assert Eval(fs, dest, ab, links) == Eval(fs, from, target + ab[1..], links + 1);
        }
    }
  }

  /** What cannot be found after many links cannot be found after fewer. */
  lemma {:induction false} MissingWithFewerLinks(fs: Tree, dest: Path, rest: seq<Part>, links: nat, fewer: nat)
    requires fewer <= links && Eval(fs, dest, rest, links) == Missing
    ensures Eval(fs, dest, rest, fewer) == Missing
    decreases if links <= MAX_LINKS then MAX_LINKS - links else 0, |rest|
  {
    match rest[0]
    case Here => MissingWithFewerLinks(fs, dest, rest[1..], links, fewer);
    case Up => MissingWithFewerLinks(fs, Parent(dest), rest[1..], links, fewer);
    case Named(n) =>
      var p := dest + [n];
      if p in fs {
        match fs[p]
        case Dir => MissingWithFewerLinks(fs, p, rest[1..], links, fewer);
        case File =>
        case Link(absolute, target) =>
          MissingWithFewerLinks(fs, if absolute then [] else dest, target + rest[1..], links + 1, fewer + 1);
      }
  }

  lemma {:induction false} RealPathEvaluatesToItself(fs: Tree, p: Path)
    requires IsTree(fs) && IsDir(fs, p)
    ensures EvalSymlinks(fs, p) == Real(p, 0)
  {
    if p == [] {
    } else {
      var up, last := Parent(p), p[|p| - 1];
      assert up + [last] == p;
      RealPathEvaluatesToItself(fs, up);
      EvalAppend(fs, [], Names(up), [Named(last)], 0);
      NamesSnoc(up, last);
      EvalDirectory(fs, up, last, 0);
    }
  }

  lemma NamesSnoc(p: Path, n: Name)
    ensures Names(p + [n]) == Names(p) + [Named(n)]
  {
  }

  lemma EvalDirectory(fs: Tree, dest: Path, n: Name, links: nat)
    requires IsDir(fs, dest + [n])
    ensures Eval(fs, dest, [Named(n)], links) == Real(dest + [n], links)
  {
    assert [Named(n)][1..] == [];
  }

  // -------------------------------------------------------------------- the promise

  /** A link that leads to something that is not there. */
  predicate Dangling(fs: Tree, p: Path) {
    p in fs && fs[p].Link? && EvalSymlinks(fs, p) == Missing
  }

  ghost predicate NoDanglingLinks(fs: Tree) {
    forall p {:trigger p in fs} :: p in fs ==> !Dangling(fs, p)
  }

  /** A component that leads nowhere although its directory is found: nothing is there, or a dangling link is. */
  lemma NextIsAbsentOrDangling(fs: Tree, path: Path, k: nat, found: Path, links: nat)
    requires IsTree(fs) && k < |path|
    requires EvalSymlinks(fs, path[..k]) == Real(found, links) && EvalSymlinks(fs, path[..k + 1]) == Missing
    ensures IsDir(fs, found)
    ensures found + [path[k]] !in fs || Dangling(fs, found + [path[k]])
  {
    var next, p := [Named(path[k])], found + [path[k]];
    assert Names(path[..k + 1]) == Names(path[..k]) + next;
    EvalArrives(fs, [], Names(path[..k]), 0);
    EvalAppend(fs, [], Names(path[..k]), next, 0);
    assert Eval(fs, found, next, links) == Missing;
    if p in fs {
      assert next[1..] == [];
      MissingWithFewerLinks(fs, found, next, links, 0);
      RealPathEvaluatesToItself(fs, found);
      EvalAppend(fs, [], Names(found), next, 0);
      assert Names(p) == Names(found) + next;
    }
  }

  lemma {:induction false} PrefixesAreDirs(fs: Tree, p: Path, n: nat)
    requires IsTree(fs) && p in fs && n < |p|
    ensures IsDir(fs, p[..n])
  {
    var up := p[..|p| - 1];
    if n < |up| {
      PrefixesAreDirs(fs, up, n);
      assert up[..n] == p[..n];
    }
  }

  /** Nothing can stand below what is not there, or below a link. */
  lemma NothingBelow(fs: Tree, p: Path, more: Path)
    requires IsTree(fs) && !IsDir(fs, p) && more != []
    ensures p + more !in fs
  {
    assert (p + more)[..|p|] == p;
    if p + more in fs {
      PrefixesAreDirs(fs, p + more, |p|);
    }
  }

  /** The root is neither p, which is not a directory, nor below it. */
  lemma RootIsNotBelow(fs: Tree, root: Path, p: Path, more: Path)
    requires IsTree(fs) && root in fs && !fs[root].Link? && p != []
    requires p !in fs || fs[p].Link?
    requires root <= p + more
    ensures root <= Parent(p)
  {
    var n := if |root| < |p| then |root| else |p|;
    assert root[..n] == (p + more)[..n] == p[..n] && p[..|p|] == p && root[..|root|] == root;
    if |root| > |p| {
      PrefixesAreDirs(fs, root, |p|);
    }
    assert |root| < |p|;
    assert root == Parent(p)[..|root|];
  }

  /**
   An accepted path: the deepest component that leads somewhere leads to a place inside the
   root, and after it nothing exists, except that the next component may be a dangling link.
   */
  lemma AcceptedStaysInside(fs: Tree, root: Path, path: Path)
    requires IsTree(fs) && root in fs && !fs[root].Link?
    requires Located(fs, path).Accepted? && root <= Located(fs, path).path
    ensures var k := Reach(fs, path);
      && EvalSymlinks(fs, path[..k]).Real?
      && (var found := EvalSymlinks(fs, path[..k]).path;
          && root <= found && found in fs
          && (k < |path| ==> found + [path[k]] !in fs || Dangling(fs, found + [path[k]]))
          && (forall j :: k + 1 < j <= |path| ==> found + path[k..j] !in fs))
  {
    var k := Reach(fs, path);
    var found := EvalSymlinks(fs, path[..k]).path;
    ReachIs(fs, path);
    EvalArrives(fs, [], Names(path[..k]), 0);
    if k < |path| {
      NextIsAbsentOrDangling(fs, path, k, found, EvalSymlinks(fs, path[..k]).links);
      BeyondTheDeepest(fs, root, path, k, found);
    } else {
      assert found + path[k..] == found;
    }
  }

  lemma BeyondTheDeepest(fs: Tree, root: Path, path: Path, k: nat, found: Path)
    requires IsTree(fs) && root in fs && !fs[root].Link? && k < |path|
    requires root <= found + path[k..]
    requires found + [path[k]] !in fs || fs[found + [path[k]]].Link?
    ensures root <= found
    ensures forall j :: k + 1 < j <= |path| ==> found + path[k..j] !in fs
  {
    var p := found + [path[k]];
    forall j | k + 1 < j <= |path| ensures found + path[k..j] !in fs {
      NothingBelow(fs, p, path[k + 1..j]);
      assert found + path[k..j] == p + path[k + 1..j];
    }
    assert found + path[k..] == p + path[k + 1..];
    RootIsNotBelow(fs, root, p, path[k + 1..]);
    assert Parent(p) == found;
  }

  /** Without dangling links nothing at all exists after the deepest existing component. */
  lemma NothingBeyond(fs: Tree, root: Path, path: Path)
    requires IsTree(fs) && root in fs && !fs[root].Link? && NoDanglingLinks(fs)
    requires Located(fs, path).Accepted? && root <= Located(fs, path).path
    ensures var k := Reach(fs, path);
      && EvalSymlinks(fs, path[..k]).Real? && root <= EvalSymlinks(fs, path[..k]).path
      && forall j :: k < j <= |path| ==> EvalSymlinks(fs, path[..k]).path + path[k..j] !in fs
  {
    var k := Reach(fs, path);
    AcceptedStaysInside(fs, root, path);
    forall j | k < j <= |path| ensures EvalSymlinks(fs, path[..k]).path + path[k..j] !in fs {
      if j == k + 1 { assert path[k..j] == [path[k]]; }
    }
  }

  /** A path is accepted exactly when its deepest existing ancestor leads inside the root. */
  lemma AcceptedIffAncestorInside(fs: Tree, root: Path, path: Path)
    requires IsTree(fs) && root in fs && !fs[root].Link? && Located(fs, path).Accepted?
    ensures var k := Reach(fs, path);
      EvalSymlinks(fs, path[..k]).Real? &&
      (root <= Located(fs, path).path <==> root <= EvalSymlinks(fs, path[..k]).path)
  {
    if root <= Located(fs, path).path {
      AcceptedStaysInside(fs, root, path);
    }
  }

  /** Nothing exists after the deepest existing component exactly when no dangling link comes next. */
  lemma NothingBeyondIff(fs: Tree, root: Path, path: Path)
    requires IsTree(fs) && root in fs && !fs[root].Link?
    requires Located(fs, path).Accepted? && root <= Located(fs, path).path
    ensures var k := Reach(fs, path);
      && EvalSymlinks(fs, path[..k]).Real?
      && var found := EvalSymlinks(fs, path[..k]).path;
         (forall j :: k < j <= |path| ==> found + path[k..j] !in fs)
           <==> !(k < |path| && Dangling(fs, found + [path[k]]))
  {
    var k := Reach(fs, path);
    AcceptedStaysInside(fs, root, path);
    EmptyIffNotDangling(fs, EvalSymlinks(fs, path[..k]).path, path, k);
  }

  lemma EmptyIffNotDangling(fs: Tree, found: Path, path: Path, k: nat)
    requires k < |path| ==> found + [path[k]] !in fs || Dangling(fs, found + [path[k]])
    requires k <= |path| && forall j :: k + 1 < j <= |path| ==> found + path[k..j] !in fs
    ensures (forall j :: k < j <= |path| ==> found + path[k..j] !in fs)
      <==> !(k < |path| && Dangling(fs, found + [path[k]]))
  {
    if k < |path| {
      assert path[k..k + 1] == [path[k]];
    }
  }

  // ------------------------------------------------------- where a created file comes to stand

  datatype Landing = At(path: Path) | Nowhere

  /**
   Opening a path for writing, creating the file when it is not there: the walk of Eval, except
   that a last component that is missing is created, also when a link led to it.
   */
  function Create(fs: Tree, dest: Path, rest: seq<Part>, links: nat): Landing
    decreases if links <= MAX_LINKS then MAX_LINKS - links else 0, |rest|
  {
    if rest == [] then At(dest)
    else
      match rest[0]
      case Here => Create(fs, dest, rest[1..], links)
      case Up => Create(fs, Parent(dest), rest[1..], links)
      case Named(n) =>
        var p := dest + [n];
        if p !in fs then (if rest[1..] == [] then At(p) else Nowhere)
        else
          match fs[p]
          case Dir => Create(fs, p, rest[1..], links)
          case File => if rest[1..] == [] then At(p) else Nowhere
          case Link(absolute, target) =>
            if links >= MAX_LINKS then Nowhere
            else Create(fs, if absolute then [] else dest, target + rest[1..], links + 1)
  }

  function LandingOf(fs: Tree, p: Path): Landing {
    Create(fs, [], Names(p), 0)
  }

  /** Nothing is written outside the root. */
  predicate Inside(root: Path, l: Landing) {
    l.At? ==> root <= l.path
  }

  /** Where creating goes on after a walk. */
  function CreateOnward(fs: Tree, w: Walk, b: seq<Part>): Landing {
    match w
    case Real(p, links) => if p in fs && fs[p].File? then Nowhere else Create(fs, p, b, links)
    case _ => Nowhere
  }

  lemma {:induction false} CreateAppend(fs: Tree, dest: Path, a: seq<Part>, b: seq<Part>, links: nat)
    requires IsTree(fs) && IsDir(fs, dest) && b != []
    ensures Create(fs, dest, a + b, links) == CreateOnward(fs, Eval(fs, dest, a, links), b)
    decreases if links <= MAX_LINKS then MAX_LINKS - links else 0, |a|, 1
  {
    if a == [] {
      assert a + b == b;
    } else {
      var rest := a[1..];
      assert (a + b)[0] == a[0] && (a + b)[1..] == rest + b;
      match a[0]
      case Here => CreateAppend(fs, dest, rest, b, links);
      case Up =>
        ParentIsDir(fs, dest);
        CreateAppend(fs, Parent(dest), rest, b, links);
      case Named(n) => CreateAppendNamed(fs, dest, a, a + b, n, rest, b, links);
    }
  }

  lemma {:induction false} CreateAppendNamed(fs: Tree, dest: Path, a: seq<Part>, ab: seq<Part>, n: Name,
      rest: seq<Part>, b: seq<Part>, links: nat)
    requires IsTree(fs) && IsDir(fs, dest) && b != [] && a != [] && a[0] == Named(n) && rest == a[1..]
    requires ab != [] && ab[0] == a[0] && ab[1..] == rest + b
    ensures Create(fs, dest, ab, links) == CreateOnward(fs, Eval(fs, dest, a, links), b)
    decreases if links <= MAX_LINKS then MAX_LINKS - links else 0, |a|, 0
  {
    var p := dest + [n];
    assert ab[1..] != [];
    if p in fs {
      match fs[p]
      case Dir => CreateAppend(fs, p, rest, b, links);
      case File =>
      case Link(absolute, target) =>
        if links < MAX_LINKS {
          var from := if absolute then [] else dest;
          assert target + ab[1..] == (target + rest) + b;
          CreateAppend(fs, from, target + rest, b, links + 1);
          assert Eval(fs, dest, a, links) == Eval(fs, from, target + rest, links + 1);
          assert Create(fs, dest, ab, links) == Create(fs, from, target + ab[1..], links + 1);
        }
    }
  }

  /** What is there is opened where it is. */
  lemma {:induction false} CreateOfReal(fs: Tree, dest: Path, rest: seq<Part>, links: nat)
    requires Eval(fs, dest, rest, links).Real?
    ensures Create(fs, dest, rest, links) == At(Eval(fs, dest, rest, links).path)
    decreases if links <= MAX_LINKS then MAX_LINKS - links else 0, |rest|
  {
    if rest == [] {
    } else {
      match rest[0]
      case Here => CreateOfReal(fs, dest, rest[1..], links);
      case Up => CreateOfReal(fs, Parent(dest), rest[1..], links);
      case Named(n) =>
        match fs[dest + [n]]
        case Dir => CreateOfReal(fs, dest + [n], rest[1..], links);
        case File =>
        case Link(absolute, target) =>
          CreateOfReal(fs, if absolute then [] else dest, target + rest[1..], links + 1);
    }
  }

  /** What is missing is created in the same place, however many links were followed before. */
  lemma {:induction false} CreateWithFewerLinks(fs: Tree, dest: Path, rest: seq<Part>, links: nat, fewer: nat)
    requires fewer <= links && Eval(fs, dest, rest, links) == Missing
    ensures Create(fs, dest, rest, fewer) == Create(fs, dest, rest, links)
    decreases if links <= MAX_LINKS then MAX_LINKS - links else 0, |rest|
  {
    match rest[0]
    case Here => CreateWithFewerLinks(fs, dest, rest[1..], links, fewer);
    case Up => CreateWithFewerLinks(fs, Parent(dest), rest[1..], links, fewer);
    case Named(n) =>
      var p := dest + [n];
      if p in fs {
        match fs[p]
        case Dir => CreateWithFewerLinks(fs, p, rest[1..], links, fewer);
        case File =>
        case Link(absolute, target) =>
          CreateWithFewerLinks(fs, if absolute then [] else dest, target + rest[1..], links + 1, fewer + 1);
      }
  }

  /** Creating through a path whose component k is the first to lead nowhere. */
  lemma LandsBeyond(fs: Tree, path: Path, k: nat, found: Path, links: nat)
    requires IsTree(fs) && k < |path|
    requires EvalSymlinks(fs, path[..k]) == Real(found, links) && EvalSymlinks(fs, path[..k + 1]) == Missing
    ensures LandingOf(fs, path) == if k + 1 == |path| then LandingOf(fs, found + [path[k]]) else Nowhere
  {
    var next := [Named(path[k])];
    NextIsAbsentOrDangling(fs, path, k, found, links);
    if k + 1 == |path| {
      assert Names(path) == Names(path[..k]) + next && path[..k + 1] == path;
      CreateAppend(fs, [], Names(path[..k]), next, 0);
      EvalAppend(fs, [], Names(path[..k]), next, 0);
      CreateWithFewerLinks(fs, found, next, links, 0);
      RealPathEvaluatesToItself(fs, found);
      CreateAppend(fs, [], Names(found), next, 0);
      assert Names(found + [path[k]]) == Names(found) + next;
    } else {
      assert Names(path) == Names(path[..k + 1]) + Names(path[k + 1..]);
      CreateAppend(fs, [], Names(path[..k + 1]), Names(path[k + 1..]), 0);
    }
  }

  /** What is absent from a directory is created right there. */
  lemma AbsentLandsThere(fs: Tree, found: Path, n: Name)
    requires IsTree(fs) && IsDir(fs, found) && found + [n] !in fs
    ensures LandingOf(fs, found + [n]) == At(found + [n])
  {
    RealPathEvaluatesToItself(fs, found);
    CreateAppend(fs, [], Names(found), [Named(n)], 0);
    assert Names(found + [n]) == Names(found) + [Named(n)];
    assert [Named(n)][1..] == [];
  }

  /** Where writing to an accepted path comes to stand. */
  lemma AcceptedLandsAt(fs: Tree, root: Path, path: Path)
    requires IsTree(fs) && root in fs && !fs[root].Link?
    requires Located(fs, path).Accepted? && root <= Located(fs, path).path
    ensures var k := Reach(fs, path);
      && EvalSymlinks(fs, path[..k]).Real?
      && var found := EvalSymlinks(fs, path[..k]).path;
         && root <= found
         && LandingOf(fs, path) ==
              (if k == |path| then At(found)
               else if k + 1 < |path| then Nowhere
               else LandingOf(fs, found + [path[k]]))
         && (k < |path| && !Dangling(fs, found + [path[k]]) ==>
              LandingOf(fs, found + [path[k]]) == At(found + [path[k]]))
  {
    var k := Reach(fs, path);
    AcceptedStaysInside(fs, root, path);
    ReachIs(fs, path);
    if k == |path| {
      assert path[..k] == path;
      CreateOfReal(fs, [], Names(path), 0);
    } else {
      var w := EvalSymlinks(fs, path[..k]);
      NextIsAbsentOrDangling(fs, path, k, w.path, w.links);
      LandsBeyond(fs, path, k, w.path, w.links);
      if w.path + [path[k]] !in fs {
        AbsentLandsThere(fs, w.path, path[k]);
      }
    }
  }

  /**
   Writing to an accepted path stays inside the root if and only if its last component is not
   a dangling link right after the deepest existing ancestor, or that link itself leads inside.
   */
  lemma WriteStaysInsideIff(fs: Tree, root: Path, user: UserPath)
    requires IsTree(fs) && root in fs && !fs[root].Link? && Resolved(fs, root, user).Accepted?
    ensures var path := Resolved(fs, root, user).path;
      var k := Reach(fs, path);
      && EvalSymlinks(fs, path[..k]).Real?
      && var found := EvalSymlinks(fs, path[..k]).path;
         Inside(root, LandingOf(fs, path)) <==>
           || k + 1 != |path|
           || !Dangling(fs, found + [path[k]])
           || Inside(root, LandingOf(fs, found + [path[k]]))
  {
    AcceptedLandsAt(fs, root, Resolved(fs, root, user).path);
  }

  /**
   With root /a and a dangling link /a/b to /x, the user path b is accepted as /a/b, and writing
   to it creates /x, outside the root.
   */
  lemma DanglingLinkExample(a: Name, b: Name, x: Name)
    requires x != a
    ensures var fs: Tree := map[[] := Dir, [a] := Dir, [a, b] := Link(true, [Named(x)])];
      && IsTree(fs) && Dangling(fs, [a, b])
      && Resolved(fs, [a], UserPath(false, [Named(b)])) == Accepted([a, b])
      && LandingOf(fs, [a, b]) == At([x]) && !([a] <= [x])
  {
    var fs: Tree := map[[] := Dir, [a] := Dir, [a, b] := Link(true, [Named(x)])];
    assert [a, b][..1] == [a] && [a][..0] == [];
    DanglingWalk(fs, a, b, x);
    DanglingResolved(fs, a, b);
  }

  lemma DanglingResolved(fs: Tree, a: Name, b: Name)
    requires EvalSymlinks(fs, [a]) == Real([a], 0) && EvalSymlinks(fs, [a, b]) == Missing
    ensures Resolved(fs, [a], UserPath(false, [Named(b)])) == Accepted([a, b])
  {
    assert [a, b][..1] == [a] && [a, b][..2] == [a, b] && [a, b][1..] == [b];
    ReachFrom(fs, [a, b], 1);
    assert [Named(b)][1..] == [] && [a] + [b] == [a, b];
    assert Clean([a], [Named(b)]) == Clean([a] + [b], []) == [a, b];
  }

  lemma DanglingWalk(fs: Tree, a: Name, b: Name, x: Name)
    requires IsTree(fs) && IsDir(fs, [a]) && [a, b] in fs && fs[[a, b]] == Link(true, [Named(x)]) && [x] !in fs
    ensures EvalSymlinks(fs, [a]) == Real([a], 0) && EvalSymlinks(fs, [a, b]) == Missing
    ensures LandingOf(fs, [a, b]) == At([x])
  {
    RealPathEvaluatesToItself(fs, [a]);
    assert Names([a, b]) == [Named(a), Named(b)] && [Named(a), Named(b)][1..] == [Named(b)] && [Named(b)][1..] == [];
    assert [a] + [b] == [a, b] && [] + [a] == [a] && [] + [x] == [x] && [Named(x)] + [] == [Named(x)];
    assert Eval(fs, [a], [Named(b)], 0) == Eval(fs, [], [Named(x)], 1) == Missing;
    assert Create(fs, [a], [Named(b)], 0) == Create(fs, [], [Named(x)], 1) == At([x]);
  }
}
