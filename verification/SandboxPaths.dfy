/** What joining, cleaning and following a path mean (internal/security/sandbox.go). */
module SandboxPaths {
  import opened Sandbox

  // ---------------------------------------------------------------- cleaning

  lemma {:induction false} CleanAppend(base: Path, a: seq<Part>, b: seq<Part>)
    ensures Clean(base, a + b) == Clean(Clean(base, a), b)
    decreases |a|
  {
    if a == [] {
      assert a + b == b;
    } else {
      assert (a + b)[1..] == a[1..] + b;
      match a[0]
      case Here => CleanAppend(base, a[1..], b);
      case Up => CleanAppend(Parent(base), a[1..], b);
      case Named(n) => CleanAppend(base + [n], a[1..], b);
    }
  }

  /** "." can be left out, and ".." takes away the name before it. */
  lemma CleanCancels(base: Path, a: seq<Part>, n: Name, b: seq<Part>)
    ensures Clean(base, a + [Here] + b) == Clean(base, a + b)
    ensures Clean(base, a + [Named(n), Up] + b) == Clean(base, a + b)
  {
    var here := Clean(base, a);
    CleanAppend(base, a, b);
    CleanAppend(base, a, [Here]);
    CleanAppend(base, a + [Here], b);
    CleanAppend(base, a, [Named(n), Up]);
    CleanAppend(base, a + [Named(n), Up], b);
    assert [Named(n), Up][1..] == [Up] && [Here][1..] == [] && [Up][1..] == [];
    assert (here + [n])[..|here|] == here;
    assert Clean(here, [Here]) == Clean(here, []);
    assert Clean(here, [Named(n), Up]) == Clean(here + [n], [Up]) == Clean(here, []);
  }

  /** At the top ".." leads nowhere. */
  lemma CleanAtTop(b: seq<Part>)
    ensures Clean([], [Up] + b) == Clean([], b)
  {
    assert ([Up] + b)[1..] == b;
  }

  lemma {:induction false} CleanNames(base: Path, p: Path)
    ensures Clean(base, Names(p)) == base + p
    decreases |p|
  {
    if p == [] {
      assert base + p == base;
    } else {
      assert Names(p)[1..] == Names(p[1..]);
      CleanNames(base + [p[0]], p[1..]);
      assert base + [p[0]] + p[1..] == base + p;
    }
  }

  /** Cleaning a path is walking it, as long as no link is met. */
  lemma {:induction false} CleanIsTheWalk(fs: Tree, dest: Path, rest: seq<Part>, links: nat)
    requires IsTree(fs) && IsDir(fs, dest)
    requires Eval(fs, dest, rest, links).Real? && Eval(fs, dest, rest, links).links == links
    ensures Eval(fs, dest, rest, links).path == Clean(dest, rest)
    decreases |rest|
  {
    if rest == [] {
    } else {
      match rest[0]
      case Here => CleanIsTheWalk(fs, dest, rest[1..], links);
      case Up =>
        ParentIsDir(fs, dest);
        CleanIsTheWalk(fs, Parent(dest), rest[1..], links);
      case Named(n) =>
        var p := dest + [n];
        match fs[p]
        case Dir => CleanIsTheWalk(fs, p, rest[1..], links);
        case File =>
        case Link(absolute, target) =>
          EvalArrives(fs, if absolute then [] else dest, target + rest[1..], links + 1);
          assert false;
    }
  }

  // ---------------------------------------------------------------- joining

  /** An absolute path stands for itself, whatever the root; a relative one continues the root. */
  lemma JoinedNames(root: Path, p: Path)
    ensures Joined(root, UserPath(true, Names(p))) == p
    ensures Joined(root, UserPath(false, Names(p))) == root + p
    ensures Joined(root, UserPath(false, [])) == root
  {
    CleanNames([], p);
    CleanNames(root, p);
    assert [] + p == p;
  }

  /** An absolute path to a directory is accepted exactly when the directory stands in the root. */
  lemma AbsoluteAcceptedIff(fs: Tree, root: Path, p: Path)
    requires IsTree(fs) && IsDir(fs, p)
    ensures Resolved(fs, root, UserPath(true, Names(p))) == if root <= p then Accepted(p) else Rejected
  {
    JoinedNames(root, p);
    LocatedDirectory(fs, p);
  }

  lemma LocatedDirectory(fs: Tree, p: Path)
    requires IsTree(fs) && IsDir(fs, p)
    ensures Located(fs, p) == Accepted(p)
  {
    RealPathEvaluatesToItself(fs, p);
    assert p[..|p|] == p && p + p[|p|..] == p;
  }

  lemma JoinedAbove(root: Path, q: Path)
    requires root != []
    ensures Joined(root, UserPath(false, [Up] + Names(q))) == root[..|root| - 1] + q
  {
    assert ([Up] + Names(q))[1..] == Names(q);
    CleanNames(root[..|root| - 1], q);
  }

  /** Climbing out of the root to a directory beside it is refused. */
  lemma ClimbingOutIsRejected(fs: Tree, root: Path, q: Path)
    requires IsTree(fs) && root != [] && IsDir(fs, root[..|root| - 1] + q)
    requires !(root <= root[..|root| - 1] + q)
    ensures Resolved(fs, root, UserPath(false, [Up] + Names(q))) == Rejected
  {
    JoinedAbove(root, q);
    LocatedDirectory(fs, root[..|root| - 1] + q);
  }

  /** What is located: where the deepest leading part that leads anywhere leads, and the rest as it stands. */
  lemma LocatedMeans(fs: Tree, path: Path, k: nat)
    requires k <= |path| && forall j :: k < j <= |path| ==> EvalSymlinks(fs, path[..j]) == Missing
    requires EvalSymlinks(fs, path[..k]) != Missing
    ensures var w := EvalSymlinks(fs, path[..k]);
      Located(fs, path) == if w.Real? then Accepted(w.path + path[k..]) else Rejected
  {
    ReachFrom(fs, path, k);
  }

  /** A root that is yet to be made in a directory can be asked for. */
  lemma MissingRootIsAccepted(fs: Tree, root: Path)
    requires IsTree(fs) && root != [] && root !in fs && IsDir(fs, root[..|root| - 1])
    ensures Resolved(fs, root, UserPath(false, [])) == Accepted(root)
  {
    var up, last := root[..|root| - 1], root[|root| - 1];
    assert root[..|root|] == root && up + [last] == root && root[|up|..] == [last];
    RealPathEvaluatesToItself(fs, up);
    EvalAppend(fs, [], Names(up), [Named(last)], 0);
    NamesSnoc(up, last);
    LocatedMeans(fs, root, |up|);
    JoinedNames(root, []);
  }

  // ---------------------------------------------------------------- following a link

  /** Following a link starts over at the top, or where the link stands, with its target. */
  lemma LinkStep(fs: Tree, d: Path, n: Name, absolute: bool, target: seq<Part>)
    requires IsTree(fs) && IsDir(fs, d) && d + [n] in fs && fs[d + [n]] == Link(absolute, target)
    ensures EvalSymlinks(fs, d + [n]) == Eval(fs, if absolute then [] else d, target, 1)
  {
    RealPathEvaluatesToItself(fs, d);
    EvalAppend(fs, [], Names(d), [Named(n)], 0);
    assert Names(d + [n]) == Names(d) + [Named(n)];
    assert target + [Named(n)][1..] == target;
  }

  /** A link to an absolute path leads there; one to a relative path leads on from where the link stands. */
  lemma LinkLeads(fs: Tree, d: Path, n: Name, absolute: bool, q: Path)
    requires IsTree(fs) && IsDir(fs, d) && d + [n] in fs && fs[d + [n]] == Link(absolute, Names(q))
    requires IsDir(fs, if absolute then q else d + q)
    ensures EvalSymlinks(fs, d + [n]) == Real(if absolute then q else d + q, 1)
  {
    var from: Path := if absolute then [] else d;
    LinkStep(fs, d, n, absolute, Names(q));
    assert from + q == if absolute then q else d + q;
    WalkDown(fs, from, q, 1);
  }

  lemma {:induction false} WalkDown(fs: Tree, d: Path, q: Path, links: nat)
    requires IsTree(fs) && IsDir(fs, d + q)
    ensures Eval(fs, d, Names(q), links) == Real(d + q, links)
    decreases |q|
  {
    if q == [] {
      assert d + q == d;
    } else {
      assert d + [q[0]] + q[1..] == d + q && Names(q)[1..] == Names(q[1..]);
      Ancestors(fs, d + [q[0]], q[1..]);
      WalkDown(fs, d + [q[0]], q[1..], links);
    }
  }

  lemma {:induction false} Ancestors(fs: Tree, d: Path, q: Path)
    requires IsTree(fs) && IsDir(fs, d + q)
    ensures IsDir(fs, d)
    decreases |q|
  {
    if q == [] {
      assert d + q == d;
    } else {
      assert Parent(d + q) == d + q[..|q| - 1];
      ParentIsDir(fs, d + q);
      Ancestors(fs, d, q[..|q| - 1]);
    }
  }

  /** No walk follows more than 255 links. */
  lemma {:induction false} LinksAreBounded(fs: Tree, dest: Path, rest: seq<Part>, links: nat)
    requires links <= 255 && Eval(fs, dest, rest, links).Real?
    ensures Eval(fs, dest, rest, links).links <= 255
    decreases 255 - links, |rest|
  {
    if rest == [] {
    } else {
      match rest[0]
      case Here => LinksAreBounded(fs, dest, rest[1..], links);
      case Up => LinksAreBounded(fs, Parent(dest), rest[1..], links);
      case Named(n) =>
        var p := dest + [n];
        match fs[p]
        case Dir => LinksAreBounded(fs, p, rest[1..], links);
        case File =>
        case Link(absolute, target) =>
          LinksAreBounded(fs, if absolute then [] else dest, target + rest[1..], links + 1);
    }
  }
}
