/**
 Local path confinement of location.py: `_resolve` and `confine_local` over a filesystem with
 symbolic links.

 Two readings of a path are kept apart.  `Walk` is the kernel's: every component must exist and `..`
 leaves the directory that was really reached.  `Real` is os.path.realpath's: it never fails on a
 missing component and takes `..` off the text it has built.  The code mixes both: it asks the kernel
 whether a path lexists and rewrites it with realpath.  Where the prefix it rewrites is a link that the
 kernel cannot follow the two readings part; `Anchored` is the condition under which they do not.
 */
module Confinement {
  import opened Common

  /** One component of a path as it is spelled; repeated slashes are one separator. */
  datatype Seg = Dot | Up | Name(n: string)

  /** An absolute path without links, `.` or `..`; [] is the root directory. */
  type Place = seq<string>

  datatype Target = Target(absolute: bool, segs: seq<Seg>)

  datatype Node = Dir | File | Link(to: Target)

  type FileSystem = map<Place, Node>

  /** An absolute path as it is spelled; `slash` says that it ends in a slash. */
  datatype Path = Path(segs: seq<Seg>, slash: bool)

  /** What `_resolve` returns: only names are left. */
  datatype Canon = Canon(place: Place, slash: bool)

  datatype Error = OutsideRoot

  predicate IsDir(fs: FileSystem, p: Place) { p in fs && fs[p].Dir? }

  function Parent(p: Place): Place { if p == [] then [] else p[..|p| - 1] }

  function Names(p: Place): seq<Seg> {
    if p == [] then [] else Names(p[..|p| - 1]) + [Name(p[|p| - 1])]
  }

  ghost predicate WellFormed(fs: FileSystem) {
    && IsDir(fs, [])
    && forall p {:trigger Parent(p)} :: p in fs && p != [] ==> IsDir(fs, Parent(p))
  }

  /** No existing prefix of `p` is a link. */
  ghost predicate LinkFree(fs: FileSystem, p: Place) {
    forall k {:trigger p[..k]} :: 0 <= k <= |p| && p[..k] in fs ==> !fs[p[..k]].Link?
  }

  function Base(cur: Place, to: Target): Place { if to.absolute then [] else cur }

  /** os.path.realpath from `cur`, following at most `links` links. */
  function Real(fs: FileSystem, cur: Place, todo: seq<Seg>, links: nat): Option<Place>
    decreases links, |todo|
  {
    if todo == [] then Some(cur)
    else
      match todo[0]
      case Dot => Real(fs, cur, todo[1..], links)
      case Up => Real(fs, Parent(cur), todo[1..], links)
      case Name(n) =>
        var q := cur + [n];
        if q in fs && fs[q].Link? then
          if links == 0 then None
          else Real(fs, Base(cur, fs[q].to), fs[q].to.segs + todo[1..], links - 1)
        else Real(fs, q, todo[1..], links)
  }

  /** The kernel's lookup from `cur`, following at most `links` links; None is an error. */
  function Walk(fs: FileSystem, cur: Place, todo: seq<Seg>, links: nat): Option<Place>
    decreases links, |todo|
  {
    if todo == [] then Some(cur)
    else if !IsDir(fs, cur) then None
    else
      match todo[0]
      case Dot => Walk(fs, cur, todo[1..], links)
      case Up => Walk(fs, Parent(cur), todo[1..], links)
      case Name(n) =>
        var q := cur + [n];
        if q !in fs then None
        else if fs[q].Link? then
          if links == 0 then None
          else Walk(fs, Base(cur, fs[q].to), fs[q].to.segs + todo[1..], links - 1)
        else Walk(fs, q, todo[1..], links)
  }

  /** Looking up `segs` succeeds and reaches `p`. */
  ghost predicate Reaches(fs: FileSystem, segs: seq<Seg>, p: Place) {
    exists links: nat :: Walk(fs, [], segs, links) == Some(p)
  }

  /** realpath comes to an end. */
  ghost predicate Ends(fs: FileSystem, cur: Place, segs: seq<Seg>) {
    exists links: nat :: Real(fs, cur, segs, links).Some?
  }

  // ---------------------------------------------------------------- the two readings

  lemma {:induction false} MoreLinksSameReal(fs: FileSystem, cur: Place, todo: seq<Seg>, links: nat, more: nat)
    requires Real(fs, cur, todo, links).Some? && links <= more
    ensures Real(fs, cur, todo, more) == Real(fs, cur, todo, links)
    decreases links, |todo|
  {
    if todo != [] {
      match todo[0]
      case Dot => MoreLinksSameReal(fs, cur, todo[1..], links, more);
      case Up => MoreLinksSameReal(fs, Parent(cur), todo[1..], links, more);
      case Name(n) =>
        var q := cur + [n];
        if q in fs && fs[q].Link? {
          MoreLinksSameReal(fs, Base(cur, fs[q].to), fs[q].to.segs + todo[1..], links - 1, more - 1);
        } else {
          MoreLinksSameReal(fs, q, todo[1..], links, more);
        }
    }
  }

  /** Where the kernel's lookup succeeds, realpath finds the same place. */
  lemma {:induction false} WalkIsReal(fs: FileSystem, cur: Place, todo: seq<Seg>, links: nat)
    requires Walk(fs, cur, todo, links).Some?
    ensures Real(fs, cur, todo, links) == Walk(fs, cur, todo, links)
    decreases links, |todo|
  {
    if todo != [] {
      match todo[0]
      case Dot => WalkIsReal(fs, cur, todo[1..], links);
      case Up => WalkIsReal(fs, Parent(cur), todo[1..], links);
      case Name(n) =>
        var q := cur + [n];
        if fs[q].Link? {
          WalkIsReal(fs, Base(cur, fs[q].to), fs[q].to.segs + todo[1..], links - 1);
        } else {
          WalkIsReal(fs, q, todo[1..], links);
        }
    }
  }

  lemma {:induction false} RealAppend(fs: FileSystem, cur: Place, a: seq<Seg>, i: nat, b: seq<Seg>, j: nat)
    requires Real(fs, cur, a, i).Some? && Real(fs, Real(fs, cur, a, i).value, b, j).Some?
    ensures Real(fs, cur, a + b, i + j) == Real(fs, Real(fs, cur, a, i).value, b, j)
    decreases i, |a|
  {
    if a == [] {
      assert a + b == b;
      MoreLinksSameReal(fs, cur, b, j, i + j);
    } else {
      assert (a + b)[1..] == a[1..] + b;
      match a[0]
      case Dot => RealAppend(fs, cur, a[1..], i, b, j);
      case Up => RealAppend(fs, Parent(cur), a[1..], i, b, j);
      case Name(n) =>
        var q := cur + [n];
        if q in fs && fs[q].Link? {
          assert fs[q].to.segs + (a + b)[1..] == fs[q].to.segs + a[1..] + b;
          RealAppend(fs, Base(cur, fs[q].to), fs[q].to.segs + a[1..], i - 1, b, j);
        } else {
          RealAppend(fs, q, a[1..], i, b, j);
        }
    }
  }

  lemma {:induction false} MoreLinksSameWalk(fs: FileSystem, cur: Place, todo: seq<Seg>, links: nat, more: nat)
    requires Walk(fs, cur, todo, links).Some? && links <= more
    ensures Walk(fs, cur, todo, more) == Walk(fs, cur, todo, links)
    decreases links, |todo|
  {
    if todo != [] {
      match todo[0]
      case Dot => MoreLinksSameWalk(fs, cur, todo[1..], links, more);
      case Up => MoreLinksSameWalk(fs, Parent(cur), todo[1..], links, more);
      case Name(n) =>
        var q := cur + [n];
        if fs[q].Link? {
          MoreLinksSameWalk(fs, Base(cur, fs[q].to), fs[q].to.segs + todo[1..], links - 1, more - 1);
        } else {
          MoreLinksSameWalk(fs, q, todo[1..], links, more);
        }
    }
  }

  lemma {:induction false} WalkAppend(fs: FileSystem, cur: Place, a: seq<Seg>, i: nat, b: seq<Seg>, j: nat)
    requires Walk(fs, cur, a, i).Some? && Walk(fs, Walk(fs, cur, a, i).value, b, j).Some?
    ensures Walk(fs, cur, a + b, i + j) == Walk(fs, Walk(fs, cur, a, i).value, b, j)
    decreases i, |a|
  {
    if a == [] {
      assert a + b == b;
      MoreLinksSameWalk(fs, cur, b, j, i + j);
    } else {
      assert (a + b)[1..] == a[1..] + b;
      match a[0]
      case Dot => WalkAppend(fs, cur, a[1..], i, b, j);
      case Up => WalkAppend(fs, Parent(cur), a[1..], i, b, j);
      case Name(n) =>
        var q := cur + [n];
        if fs[q].Link? {
          assert fs[q].to.segs + (a + b)[1..] == fs[q].to.segs + a[1..] + b;
          WalkAppend(fs, Base(cur, fs[q].to), fs[q].to.segs + a[1..], i - 1, b, j);
        } else {
          WalkAppend(fs, q, a[1..], i, b, j);
        }
    }
  }

  /** A lookup that succeeds has looked up every prefix. */
  lemma {:induction false} WalkPrefix(fs: FileSystem, cur: Place, a: seq<Seg>, b: seq<Seg>, links: nat)
    requires Walk(fs, cur, a + b, links).Some?
    ensures Walk(fs, cur, a, links).Some?
    decreases links, |a|
  {
    if a != [] {
      assert (a + b)[1..] == a[1..] + b;
      match a[0]
      case Dot => WalkPrefix(fs, cur, a[1..], b, links);
      case Up => WalkPrefix(fs, Parent(cur), a[1..], b, links);
      case Name(n) =>
        var q := cur + [n];
        if fs[q].Link? {
          assert fs[q].to.segs + (a + b)[1..] == fs[q].to.segs + a[1..] + b;
          WalkPrefix(fs, Base(cur, fs[q].to), fs[q].to.segs + a[1..], b, links - 1);
        } else {
          WalkPrefix(fs, q, a[1..], b, links);
        }
    }
  }

  /** No link leads into a cycle; it may dangle. */
  ghost predicate NoLinkLoops(fs: FileSystem) {
    forall p {:trigger Parent(p)} :: p in fs && fs[p].Link? && p != [] ==> Ends(fs, Parent(p), [Name(p[|p| - 1])])
  }

  lemma RealOneStep(fs: FileSystem, cur: Place, s: Seg) returns (links: nat)
    requires NoLinkLoops(fs)
    ensures Real(fs, cur, [s], links).Some?
  {
    links := 0;
    if s.Name? && cur + [s.n] in fs && fs[cur + [s.n]].Link? {
      assert Parent(cur + [s.n]) == cur;
      assert Ends(fs, cur, [Name(s.n)]);
      links :| Real(fs, cur, [Name(s.n)], links).Some?;
    }
  }

  /** Without link loops realpath ends on every path, also through dangling links and missing directories. */
  lemma {:induction false} RealTerminates(fs: FileSystem, cur: Place, todo: seq<Seg>) returns (links: nat)
    requires NoLinkLoops(fs)
    ensures Real(fs, cur, todo, links).Some?
    decreases |todo|
  {
    if todo == [] { return 0; }
    var head, tail := [todo[0]], todo[1..];
    var i := RealOneStep(fs, cur, todo[0]);
    var q := Real(fs, cur, head, i).value;
    var j := RealTerminates(fs, q, tail);
    RealAppend(fs, cur, head, i, tail, j);
    assert todo == head + tail;
    return i + j;
  }

  ghost function Realpath(fs: FileSystem, segs: seq<Seg>): Place
    requires Ends(fs, [], segs)
  {
    var links: nat :| Real(fs, [], segs, links).Some?;
    Real(fs, [], segs, links).value
  }

  lemma {:induction false} RealpathIs(fs: FileSystem, segs: seq<Seg>, links: nat)
    requires Real(fs, [], segs, links).Some?
    ensures Ends(fs, [], segs) && Realpath(fs, segs) == Real(fs, [], segs, links).value
  {
    assert Ends(fs, [], segs);
    var n: nat :| Real(fs, [], segs, n).Some? && Realpath(fs, segs) == Real(fs, [], segs, n).value;
    if n <= links { MoreLinksSameReal(fs, [], segs, n, links); } else { MoreLinksSameReal(fs, [], segs, links, n); }
  }

  lemma ReachesIsRealpath(fs: FileSystem, segs: seq<Seg>, p: Place)
    requires Reaches(fs, segs, p)
    ensures Ends(fs, [], segs) && Realpath(fs, segs) == p
  {
    var links: nat :| Walk(fs, [], segs, links) == Some(p);
    WalkIsReal(fs, [], segs, links);
    RealpathIs(fs, segs, links);
  }

  /** Whatever realpath returns has no link in any prefix that exists. */
  lemma {:induction false} RealIsLinkFree(fs: FileSystem, cur: Place, todo: seq<Seg>, links: nat)
    requires WellFormed(fs) && LinkFree(fs, cur) && Real(fs, cur, todo, links).Some?
    ensures LinkFree(fs, Real(fs, cur, todo, links).value)
    decreases links, |todo|
  {
    if todo != [] {
      match todo[0]
      case Dot => RealIsLinkFree(fs, cur, todo[1..], links);
      case Up =>
        assert forall k :: 0 <= k <= |Parent(cur)| ==> Parent(cur)[..k] == cur[..k];
        RealIsLinkFree(fs, Parent(cur), todo[1..], links);
      case Name(n) =>
        var q := cur + [n];
        if q in fs && fs[q].Link? {
          assert LinkFree(fs, []);
          RealIsLinkFree(fs, Base(cur, fs[q].to), fs[q].to.segs + todo[1..], links - 1);
        } else {
          LinkFreeSnoc(fs, cur, n);
          RealIsLinkFree(fs, q, todo[1..], links);
        }
    }
  }

  lemma LinkFreeSnoc(fs: FileSystem, p: Place, n: string)
    requires LinkFree(fs, p) && (p + [n] in fs ==> !fs[p + [n]].Link?)
    ensures LinkFree(fs, p + [n])
  {
    forall k | 0 <= k <= |p| + 1 && (p + [n])[..k] in fs ensures !fs[(p + [n])[..k]].Link? {
      if k <= |p| { assert (p + [n])[..k] == p[..k]; } else { assert (p + [n])[..k] == p + [n]; }
    }
  }

  lemma RealpathIsLinkFree(fs: FileSystem, segs: seq<Seg>)
    requires WellFormed(fs) && Ends(fs, [], segs)
    ensures LinkFree(fs, Realpath(fs, segs))
  {
    var links: nat :| Real(fs, [], segs, links).Some?;
    RealpathIs(fs, segs, links);
    RealIsLinkFree(fs, [], segs, links);
  }

  // ---------------------------------------------------------------- _resolve

  function Head(segs: seq<Seg>): seq<Seg>
    requires segs != []
  {
    segs[..|segs| - 1]
  }

  function Tail(segs: seq<Seg>): Seg
    requires segs != []
  {
    segs[|segs| - 1]
  }

  ghost predicate ReachesDir(fs: FileSystem, segs: seq<Seg>, d: Place) { Reaches(fs, segs, d) && IsDir(fs, d) }

  /** os.path.lexists: the last name is looked up without following it. */
  ghost predicate LExists(fs: FileSystem, path: Path) {
    if path.segs == [] then true
    else if path.slash then exists d :: ReachesDir(fs, path.segs, d)
    else
      match Tail(path.segs)
      case Name(n) => exists d :: ReachesDir(fs, Head(path.segs), d) && d + [n] in fs
      case _ => exists d :: Reaches(fs, path.segs, d)
  }

  /** The path at which the recursion of `_resolve` stops. */
  ghost function Stop(fs: FileSystem, path: Path): Path
    decreases |path.segs|, path.slash
  {
    if LExists(fs, path) then path
    else if path.slash then Stop(fs, Path(path.segs, false))
    else if Tail(path.segs).Up? then path
    else Stop(fs, Path(Head(path.segs), false))
  }

  /** realpath ends where `_resolve` calls it: the prefix at which it stops is not caught in a link loop. */
  ghost predicate Settles(fs: FileSystem, path: Path) {
    LExists(fs, Stop(fs, path)) ==> Ends(fs, [], Stop(fs, path).segs)
  }

  ghost function Resolve(fs: FileSystem, path: Path): Result<Canon, Error>
    requires Settles(fs, path)
    decreases |path.segs|, path.slash
  {
    if LExists(fs, path) then Ok(Canon(Realpath(fs, path.segs), false))
    else if path.slash then
      var r := Resolve(fs, Path(path.segs, false));
      if r.Ok? then Ok(Canon(r.value.place, true)) else r
    else
      match Tail(path.segs)
      case Dot => Resolve(fs, Path(Head(path.segs), false))
      case Up => Err(OutsideRoot)
      case Name(n) =>
        var r := Resolve(fs, Path(Head(path.segs), false));
        if r.Ok? then Ok(Canon(r.value.place + [n], false)) else r
  }

  lemma {:induction false} ReachesOneMore(fs: FileSystem, segs: seq<Seg>, d: Place, s: Seg, links: nat)
    requires Reaches(fs, segs, d) && Walk(fs, d, [s], links).Some?
    ensures Reaches(fs, segs + [s], Walk(fs, d, [s], links).value)
  {
    var n: nat :| Walk(fs, [], segs, n) == Some(d);
    WalkAppend(fs, [], segs, n, [s], links);
  }

  /** os.path.exists: the kernel can follow the path to its end. */
  ghost predicate Exists(fs: FileSystem, path: Path) {
    exists d :: Reaches(fs, path.segs, d) && (path.slash ==> IsDir(fs, d))
  }

  /** The path names a link, which may lead nowhere. */
  ghost predicate EndsInLink(fs: FileSystem, path: Path) {
    && !path.slash && path.segs != [] && Tail(path.segs).Name?
    && exists d :: ReachesDir(fs, Head(path.segs), d) && d + [Tail(path.segs).n] in fs
         && fs[d + [Tail(path.segs).n]].Link?
  }

  /** What lexists reports can be followed to the place realpath gives, unless it is a link itself. */
  lemma ExistingPathIsReached(fs: FileSystem, path: Path)
    requires WellFormed(fs) && LExists(fs, path)
    ensures Exists(fs, path) || EndsInLink(fs, path)
    ensures Exists(fs, path) ==> Ends(fs, [], path.segs) && Reaches(fs, path.segs, Realpath(fs, path.segs))
  {
    if path.segs == [] {
      assert Walk(fs, [], [], 0) == Some([]);
      assert Reaches(fs, path.segs, []) && IsDir(fs, []);
    } else if !path.slash && Tail(path.segs).Name? {
      var n := Tail(path.segs).n;
      var d :| ReachesDir(fs, Head(path.segs), d) && d + [n] in fs;
      if !fs[d + [n]].Link? {
        EntryIsReached(fs, d, n);
        ReachesOneMore(fs, Head(path.segs), d, Name(n), 0);
        assert path.segs == Head(path.segs) + [Name(n)];
      }
    }
    if Exists(fs, path) {
      var p :| Reaches(fs, path.segs, p) && (path.slash ==> IsDir(fs, p));
      ReachesIsRealpath(fs, path.segs, p);
    }
  }

  /** It stops at the longest prefix that lexists, and appends only names to its realpath. */
  lemma {:induction false} StopIsTheLongest(fs: FileSystem, path: Path)
    requires Settles(fs, path) && Resolve(fs, path).Ok?
    ensures var s := Stop(fs, path);
            && LExists(fs, s) && s.segs <= path.segs && Realpath(fs, s.segs) <= Resolve(fs, path).value.place
            && (s == path || (!s.slash && forall j :: |s.segs| < j <= |path.segs| ==>
                                            !LExists(fs, Path(path.segs[..j], false))))
    decreases |path.segs|, path.slash
  {
    if !LExists(fs, path) {
      if path.slash {
        StopIsTheLongest(fs, Path(path.segs, false));
        assert path.segs[..|path.segs|] == path.segs;
      } else {
        var head := Path(Head(path.segs), false);
        StopIsTheLongest(fs, head);
        forall j | |Stop(fs, path).segs| < j <= |path.segs| ensures !LExists(fs, Path(path.segs[..j], false)) {
          if j < |path.segs| {
            assert path.segs[..j] == head.segs[..j];
          } else {
            assert path.segs[..j] == path.segs;
          }
        }
      }
    }
  }

  /**
   What the code needs of a path, in terms a caller can ask for: it lexists, or the prefix at which
   `_resolve` stops exists, or the realpath of that prefix is no directory.
   */
  ghost predicate Anchored(fs: FileSystem, path: Path) {
    || LExists(fs, path)
    || Exists(fs, Stop(fs, path))
    || (Ends(fs, [], Stop(fs, path).segs) && !IsDir(fs, Realpath(fs, Stop(fs, path).segs)))
  }

  /** A missing path that is anchored resolves to a place that is no directory, so nothing exists below it. */
  lemma {:induction false} MissingPathHasNoEntries(fs: FileSystem, path: Path)
    requires WellFormed(fs) && Settles(fs, path)
    requires !LExists(fs, path) && Resolve(fs, path).Ok? && Anchored(fs, path)
    ensures !IsDir(fs, Resolve(fs, path).value.place) && LinkFree(fs, Resolve(fs, path).value.place)
    decreases |path.segs|, path.slash
  {
    var head := if path.slash then Path(path.segs, false) else Path(Head(path.segs), false);
    var h := Resolve(fs, head).value.place;
    if !path.slash { assert path.segs == head.segs + [Tail(path.segs)]; }
    if LExists(fs, head) {
      RealpathIsLinkFree(fs, head.segs);
      if IsDir(fs, h) {
        // the kernel reaches a directory here, so only a missing name can make the path missing
        var stop := Stop(fs, path);
        assert stop == Stop(fs, head);
        assert Stop(fs, head) == head && Realpath(fs, head.segs) == h;
        assert Exists(fs, stop);
        ExistingPathIsReached(fs, head);
        assert ReachesDir(fs, head.segs, h);
        if !path.slash && Tail(path.segs).Dot? {
          ReachesOneMore(fs, head.segs, h, Dot, 0);
        }
      }
    } else {
      MissingPathHasNoEntries(fs, head);
    }
    if !path.slash && Tail(path.segs).Name? {
      var n := Tail(path.segs).n;
      assert Parent(h + [n]) == h;
      LinkFreeSnoc(fs, h, n);
    }
  }

  lemma {:induction false} AnchoredPathIsLinkFree(fs: FileSystem, path: Path)
    requires WellFormed(fs) && Settles(fs, path) && Resolve(fs, path).Ok? && Anchored(fs, path)
    ensures var c := Resolve(fs, path).value; LinkFree(fs, c.place) && (c.slash ==> !IsDir(fs, c.place))
  {
    if LExists(fs, path) { RealpathIsLinkFree(fs, path.segs); } else { MissingPathHasNoEntries(fs, path); }
  }

  /** Component k is `..`, and neither the prefix that ends with it nor any longer one lexists. */
  ghost predicate UpAfterMissing(fs: FileSystem, path: Path, k: int) {
    && 0 <= k < |path.segs| && path.segs[k].Up? && !LExists(fs, path)
    && forall j :: k < j <= |path.segs| ==> !LExists(fs, Path(path.segs[..j], false))
  }

  /** `_resolve` refuses exactly the paths with a `..` that nothing which lexists comes after. */
  lemma {:induction false} RefusedExactlyWhen(fs: FileSystem, path: Path)
    requires Settles(fs, path)
    ensures Resolve(fs, path).Err? <==> exists k :: UpAfterMissing(fs, path, k)
    decreases |path.segs|, path.slash
  {
    var n := |path.segs|;
    assert path.segs[..n] == path.segs;
    if !LExists(fs, path) {
      var head := if path.slash then Path(path.segs, false) else Path(Head(path.segs), false);
      assert forall j :: 0 <= j <= |head.segs| ==> head.segs[..j] == path.segs[..j];
      if !path.slash && Tail(path.segs).Up? {
        assert UpAfterMissing(fs, path, n - 1);
      } else {
        RefusedExactlyWhen(fs, head);
        if Resolve(fs, head).Err? {
          var k :| UpAfterMissing(fs, head, k);
          assert UpAfterMissing(fs, path, k);
        } else if k :| UpAfterMissing(fs, path, k) {
          assert head.segs[..|head.segs|] == head.segs;
          assert !LExists(fs, Path(path.segs[..|head.segs|], false));
          assert UpAfterMissing(fs, head, k);
        }
      }
    }
  }

  lemma {:induction false} LinkFreeNamesAreReal(fs: FileSystem, p: Place)
    requires LinkFree(fs, p)
    ensures Real(fs, [], Names(p), 0) == Some(p)
  {
    if p != [] {
      var q := Parent(p);
      assert forall k :: 0 <= k <= |q| ==> q[..k] == p[..k];
      LinkFreeNamesAreReal(fs, q);
      assert p == p[..|p|] == q + [p[|p| - 1]];
      assert Real(fs, q, [Name(p[|p| - 1])], 0) == Some(p);
      RealAppend(fs, [], Names(q), 0, [Name(p[|p| - 1])], 0);
    }
  }

  lemma {:induction false} LinkFreeNamesAreReached(fs: FileSystem, p: Place)
    requires WellFormed(fs) && LinkFree(fs, p) && p in fs
    ensures Walk(fs, [], Names(p), 0) == Some(p)
  {
    if p != [] {
      var q, n := Parent(p), p[|p| - 1];
      assert forall k :: 0 <= k <= |q| ==> q[..k] == p[..k];
      LinkFreeNamesAreReached(fs, q);
      assert p == p[..|p|] == q + [n];
      EntryIsReached(fs, q, n);
      WalkAppend(fs, [], Names(q), 0, [Name(n)], 0);
    }
  }

  lemma {:induction false} EntryIsReached(fs: FileSystem, d: Place, n: string)
    requires IsDir(fs, d) && d + [n] in fs && !fs[d + [n]].Link?
    ensures Walk(fs, d, [Name(n)], 0) == Some(d + [n])
  {
    assert Walk(fs, d + [n], [Name(n)][1..], 0) == Some(d + [n]);
  }

  /** Resolving the path again changes nothing. */
  ghost predicate Stable(fs: FileSystem, c: Canon) {
    var path := Path(Names(c.place), c.slash);
    Settles(fs, path) && Resolve(fs, path) == Ok(c)
  }

  /** Link-free paths are stable, unless they spell a directory with a slash. */
  lemma {:induction false} ResolveIsStable(fs: FileSystem, c: Canon)
    requires WellFormed(fs) && LinkFree(fs, c.place) && (c.slash ==> !IsDir(fs, c.place))
    ensures Stable(fs, c)
    decreases |c.place|, c.slash
  {
    var path := Path(Names(c.place), c.slash);
    LinkFreeNamesAreReal(fs, c.place);
    RealpathIs(fs, path.segs, 0);
    if LExists(fs, path) {
      if c.slash {
        var d :| ReachesDir(fs, path.segs, d);
        ReachesIsRealpath(fs, path.segs, d);
      }
    } else if c.slash {
      ResolveIsStable(fs, Canon(c.place, false));
    } else {
      var q := Parent(c.place);
      assert forall k :: 0 <= k <= |q| ==> q[..k] == c.place[..k];
      assert Head(path.segs) == Names(q) && c.place == q + [c.place[|c.place| - 1]];
      ResolveIsStable(fs, Canon(q, false));
    }
  }

  lemma {:induction false} NoSlashIsAdded(fs: FileSystem, path: Path)
    requires Settles(fs, path) && Resolve(fs, path).Ok? && !path.slash
    ensures !Resolve(fs, path).value.slash
    decreases |path.segs|
  {
    if !LExists(fs, path) { NoSlashIsAdded(fs, Path(Head(path.segs), false)); }
  }

  /** Only such paths are stable. */
  lemma {:induction false} StableIsLinkFree(fs: FileSystem, c: Canon)
    requires WellFormed(fs) && Stable(fs, c)
    ensures LinkFree(fs, c.place) && (c.slash ==> !IsDir(fs, c.place))
    decreases |c.place|, c.slash
  {
    var path := Path(Names(c.place), c.slash);
    if LExists(fs, path) {
      RealpathIsLinkFree(fs, path.segs);
    } else if c.slash {
      NoSlashIsAdded(fs, Path(path.segs, false));
      StableIsLinkFree(fs, Canon(c.place, false));
      if IsDir(fs, c.place) {
        LinkFreeNamesAreReached(fs, c.place);
        assert ReachesDir(fs, path.segs, c.place);
      }
    } else {
      var q, n := Parent(c.place), c.place[|c.place| - 1];
      NoSlashIsAdded(fs, Path(Names(q), false));
      assert Head(path.segs) == Names(q) && c.place == q + [n];
      StableIsLinkFree(fs, Canon(q, false));
      if c.place in fs {
        LinkFreeNamesAreReached(fs, q);
        assert ReachesDir(fs, Names(q), q);
      }
      LinkFreeSnoc(fs, q, n);
    }
  }

  // ---------------------------------------------------------------- exact conditions

  /** The names appended below `base` meet no link. */
  ghost predicate ClearBelow(fs: FileSystem, base: Place, p: Place) {
    forall k {:trigger p[..k]} :: |base| < k <= |p| && p[..k] in fs ==> !fs[p[..k]].Link?
  }

  /** One resolved path is link-free exactly when it was anchored, or the names appended meet no link. */
  lemma {:induction false} ResolvedPathIsLinkFreeExactlyWhen(fs: FileSystem, path: Path)
    requires WellFormed(fs) && Settles(fs, path) && Resolve(fs, path).Ok?
    ensures Ends(fs, [], Stop(fs, path).segs)
    ensures LinkFree(fs, Resolve(fs, path).value.place) <==>
            Anchored(fs, path) || ClearBelow(fs, Realpath(fs, Stop(fs, path).segs), Resolve(fs, path).value.place)
  {
    StopIsTheLongest(fs, path);
    var base, p := Realpath(fs, Stop(fs, path).segs), Resolve(fs, path).value.place;
    RealpathIsLinkFree(fs, Stop(fs, path).segs);
    if Anchored(fs, path) { AnchoredPathIsLinkFree(fs, path); }
    assert forall k :: 0 <= k <= |base| ==> base[..k] == p[..k];
  }

  /** Every path at whose prefix `s` the recursion stops resolves to a path without links. */
  ghost predicate LinkFreeFrom(fs: FileSystem, s: Path) {
    forall path {:trigger Stop(fs, path)} ::
      Stop(fs, path) == s && Settles(fs, path) && Resolve(fs, path).Ok? ==> LinkFree(fs, Resolve(fs, path).value.place)
  }

  /** Every such path resolves to one that resolving again does not change. */
  ghost predicate StableFrom(fs: FileSystem, s: Path) {
    forall path {:trigger Stop(fs, path)} ::
      Stop(fs, path) == s && Settles(fs, path) && Resolve(fs, path).Ok? ==> Stable(fs, Resolve(fs, path).value)
  }

  ghost predicate NoLinkBelow(fs: FileSystem, base: Place) {
    forall q :: q in fs && base < q ==> !fs[q].Link?
  }

  /** Behind a link that the kernel cannot follow `_resolve` appends whatever names follow to its realpath. */
  lemma {:induction false} NamesAreAppended(fs: FileSystem, s: Path, names: Place)
    requires WellFormed(fs) && LExists(fs, s) && !Exists(fs, s) && Ends(fs, [], s.segs)
    ensures var path := Path(s.segs + Names(names), false);
            Stop(fs, path) == s && Resolve(fs, path) == Ok(Canon(Realpath(fs, s.segs) + names, false))
    decreases |names|
  {
    var path := Path(s.segs + Names(names), false);
    ExistingPathIsReached(fs, s);
    if names == [] {
      assert path == s && Realpath(fs, s.segs) + names == Realpath(fs, s.segs);
    } else {
      var init, n := Parent(names), names[|names| - 1];
      var head := Path(s.segs + Names(init), false);
      NamesAreAppended(fs, s, init);
      assert path.segs == head.segs + [Name(n)] && Head(path.segs) == head.segs && Tail(path.segs) == Name(n);
      if LExists(fs, path) {
        var d :| ReachesDir(fs, head.segs, d) && d + [n] in fs;
        var links: nat :| Walk(fs, [], head.segs, links) == Some(d);
        WalkPrefix(fs, [], s.segs, Names(init), links);
        assert Reaches(fs, s.segs, Walk(fs, [], s.segs, links).value);
        assert Exists(fs, s);
      }
      assert Realpath(fs, s.segs) + init + [n] == Realpath(fs, s.segs) + names;
    }
  }

  lemma FollowablePrefixIsEnough(fs: FileSystem, s: Path)
    requires WellFormed(fs) && LExists(fs, s) && Ends(fs, [], s.segs)
    requires Exists(fs, s) || !IsDir(fs, Realpath(fs, s.segs))
    ensures LinkFreeFrom(fs, s) && StableFrom(fs, s)
  {
    forall path | Stop(fs, path) == s && Settles(fs, path) && Resolve(fs, path).Ok?
      ensures LinkFree(fs, Resolve(fs, path).value.place) && Stable(fs, Resolve(fs, path).value)
    {
      AnchoredPathIsLinkFree(fs, path);
      ResolveIsStable(fs, Resolve(fs, path).value);
    }
  }

  /**
   For which prefixes `_resolve` keeps its promise: whatever path stops at `s`, the result has no link in
   any existing prefix, exactly when `s` exists, or its realpath is no directory, or no link lies below
   that directory.
   */
  lemma LinkFreeExactlyWhen(fs: FileSystem, s: Path)
    requires WellFormed(fs) && LExists(fs, s) && Ends(fs, [], s.segs)
    ensures LinkFreeFrom(fs, s) <==>
            Exists(fs, s) || !IsDir(fs, Realpath(fs, s.segs)) || NoLinkBelow(fs, Realpath(fs, s.segs))
  {
    var base := Realpath(fs, s.segs);
    if Exists(fs, s) || !IsDir(fs, base) {
      FollowablePrefixIsEnough(fs, s);
    } else if NoLinkBelow(fs, base) {
      RealpathIsLinkFree(fs, s.segs);
      forall path | Stop(fs, path) == s && Settles(fs, path) && Resolve(fs, path).Ok?
        ensures LinkFree(fs, Resolve(fs, path).value.place)
      {
        StopIsTheLongest(fs, path);
        StaysLinkFree(fs, base, Resolve(fs, path).value.place);
      }
    } else {
      var q :| q in fs && base < q && fs[q].Link?;
      NamesAreAppended(fs, s, q[|base|..]);
      assert base + q[|base|..] == q && q[..|q|] == q;
      assert Stop(fs, Path(s.segs + Names(q[|base|..]), false)) == s;
    }
  }

  lemma StaysLinkFree(fs: FileSystem, base: Place, p: Place)
    requires LinkFree(fs, base) && NoLinkBelow(fs, base) && base <= p
    ensures LinkFree(fs, p)
  {
    forall k | 0 <= k <= |p| && p[..k] in fs ensures !fs[p[..k]].Link? {
      if k <= |base| { assert p[..k] == base[..k]; } else { assert base < p[..k]; }
    }
  }

  /**
   Whatever path stops at `s`, resolving twice is resolving once, exactly when `s` exists or its realpath is no
   directory.
   */
  lemma StableExactlyWhen(fs: FileSystem, s: Path)
    requires WellFormed(fs) && LExists(fs, s) && Ends(fs, [], s.segs)
    ensures StableFrom(fs, s) <==> Exists(fs, s) || !IsDir(fs, Realpath(fs, s.segs))
  {
    var base := Realpath(fs, s.segs);
    if Exists(fs, s) || !IsDir(fs, base) {
      FollowablePrefixIsEnough(fs, s);
    } else {
      // the same path with a slash: it does not exist, and its realpath does
      ExistingPathIsReached(fs, s);
      var slashed := Path(s.segs, true);
      assert !LExists(fs, slashed);
      assert s == Path(s.segs, false) && Stop(fs, s) == s && Resolve(fs, s) == Ok(Canon(base, false));
      assert Stop(fs, slashed) == s && Resolve(fs, slashed) == Ok(Canon(base, true));
      if Stable(fs, Canon(base, true)) { StableIsLinkFree(fs, Canon(base, true)); }
    }
  }

  /** Every link can be followed by the kernel to something that exists. */
  ghost predicate NoDanglingLinks(fs: FileSystem) {
    forall p {:trigger Parent(p)} :: p in fs && fs[p].Link? && p != [] ==> Resolves(fs, Parent(p), [Name(p[|p| - 1])])
  }

  ghost predicate Resolves(fs: FileSystem, cur: Place, segs: seq<Seg>) {
    exists links: nat :: Walk(fs, cur, segs, links).Some?
  }

  /** Where no link dangles or loops, realpath ends where it is called, and every accepted path is anchored. */
  lemma {:induction false} WithoutDanglingLinksAllIsAnchored(fs: FileSystem, path: Path)
    requires WellFormed(fs) && NoDanglingLinks(fs)
    ensures Settles(fs, path) && (Resolve(fs, path).Ok? ==> Anchored(fs, path))
  {
    var s := Stop(fs, path);
    if LExists(fs, s) {
      ExistingPathIsReached(fs, s);
      if EndsInLink(fs, s) {
        var n := Tail(s.segs).n;
        var d :| ReachesDir(fs, Head(s.segs), d) && d + [n] in fs && fs[d + [n]].Link?;
        assert Parent(d + [n]) == d && (d + [n])[|d|] == n;
        var links: nat :| Walk(fs, d, [Name(n)], links).Some?;
        ReachesOneMore(fs, Head(s.segs), d, Name(n), links);
        assert s.segs == Head(s.segs) + [Name(n)];
        ReachesIsRealpath(fs, s.segs, Walk(fs, d, [Name(n)], links).value);
        assert Exists(fs, s);
      }
    }
    if Resolve(fs, path).Ok? { StopIsTheLongest(fs, path); }
  }

  // ---------------------------------------------------------------- confine_local

  /** What local_path returned: absolute, or relative to the root. */
  datatype Location = Location(absolute: bool, path: Path)

  /** os.path.join(root, location). */
  function Joined(root: Place, loc: Location): Path {
    if loc.absolute then loc.path
    else Path(Names(root) + loc.path.segs, loc.path.slash || loc.path.segs == [])
  }

  /** Neither realpath call of `confine_local` meets a link loop; other parts of the tree may have some. */
  ghost predicate Confinable(fs: FileSystem, rootSegs: seq<Seg>, loc: Location) {
    WellFormed(fs) && Ends(fs, [], rootSegs) && Settles(fs, Joined(Realpath(fs, rootSegs), loc))
  }

  /** `confine_local` under an active policy whose root is spelled `rootSegs`. */
  ghost function Confine(fs: FileSystem, rootSegs: seq<Seg>, loc: Location): Result<Canon, Error>
    requires Confinable(fs, rootSegs, loc)
  {
    var root := Realpath(fs, rootSegs);
    var effective := Resolve(fs, Joined(root, loc));
    if effective.Ok? && !(root <= effective.value.place) then Err(OutsideRoot) else effective
  }

  /**
   The confined path of an anchored location lies beneath the real root, and the kernel agrees: every
   prefix of it that exists is looked up to exactly itself, without a link on the way.
   */
  lemma ConfinedPathStaysInside(fs: FileSystem, rootSegs: seq<Seg>, loc: Location, k: nat)
    requires Confinable(fs, rootSegs, loc) && Confine(fs, rootSegs, loc).Ok?
    requires Anchored(fs, Joined(Realpath(fs, rootSegs), loc))
    requires k <= |Confine(fs, rootSegs, loc).value.place|
    ensures var c := Confine(fs, rootSegs, loc).value;
            && Realpath(fs, rootSegs) <= c.place
            && LinkFree(fs, c.place)
            && (c.place[..k] in fs ==> Reaches(fs, Names(c.place[..k]), c.place[..k]))
  {
    var c := Confine(fs, rootSegs, loc).value;
    AnchoredPathIsLinkFree(fs, Joined(Realpath(fs, rootSegs), loc));
    assert forall j :: 0 <= j <= k ==> c.place[..k][..j] == c.place[..j];
    if c.place[..k] in fs { LinkFreeNamesAreReached(fs, c.place[..k]); }
  }

  /**
   Confining the confined path of an anchored location again returns the same path; that of any location,
   exactly when the path is link-free and spells no directory with a slash.
   */
  lemma {:induction false} ConfineIsIdempotent(fs: FileSystem, rootSegs: seq<Seg>, loc: Location)
    requires Confinable(fs, rootSegs, loc) && Confine(fs, rootSegs, loc).Ok?
    ensures var c := Confine(fs, rootSegs, loc).value;
            var again := Location(true, Path(Names(c.place), c.slash));
            && (Confinable(fs, rootSegs, again) && Confine(fs, rootSegs, again) == Ok(c) <==>
                  LinkFree(fs, c.place) && (c.slash ==> !IsDir(fs, c.place)))
            && (Anchored(fs, Joined(Realpath(fs, rootSegs), loc)) ==>
                  Confinable(fs, rootSegs, again) && Confine(fs, rootSegs, again) == Ok(c))
  {
    var path, c := Joined(Realpath(fs, rootSegs), loc), Confine(fs, rootSegs, loc).value;
    if Anchored(fs, path) { AnchoredPathIsLinkFree(fs, path); }
    if LinkFree(fs, c.place) && (c.slash ==> !IsDir(fs, c.place)) { ResolveIsStable(fs, c); }
    if Stable(fs, c) { StableIsLinkFree(fs, c); }
  }

  /** A location that exists is allowed exactly when the object the kernel reaches is beneath the root. */
  lemma ExistingLocationIsJudgedByItsTarget(fs: FileSystem, rootSegs: seq<Seg>, loc: Location, target: Place)
    requires WellFormed(fs) && Ends(fs, [], rootSegs)
    requires LExists(fs, Joined(Realpath(fs, rootSegs), loc))
    requires Reaches(fs, Joined(Realpath(fs, rootSegs), loc).segs, target)
    ensures Confinable(fs, rootSegs, loc)
    ensures Confine(fs, rootSegs, loc) ==
            if Realpath(fs, rootSegs) <= target then Ok(Canon(target, false)) else Err(OutsideRoot)
  {
    ReachesIsRealpath(fs, Joined(Realpath(fs, rootSegs), loc).segs, target);
  }

  /**
   A new name in an existing directory is allowed exactly when the place it would be created at is beneath
   the root.
   */
  lemma NewEntryIsJudgedByItsDirectory(fs: FileSystem, rootSegs: seq<Seg>, loc: Location, d: Place, n: string)
    requires WellFormed(fs) && Ends(fs, [], rootSegs)
    requires var path := Joined(Realpath(fs, rootSegs), loc);
             && !path.slash && path.segs != [] && Tail(path.segs) == Name(n)
             && LExists(fs, Path(Head(path.segs), false)) && ReachesDir(fs, Head(path.segs), d) && d + [n] !in fs
    ensures Confinable(fs, rootSegs, loc)
    ensures Confine(fs, rootSegs, loc) ==
            if Realpath(fs, rootSegs) <= d + [n] then Ok(Canon(d + [n], false)) else Err(OutsideRoot)
  {
    var path := Joined(Realpath(fs, rootSegs), loc);
    var head := Path(Head(path.segs), false);
    ReachesIsRealpath(fs, Head(path.segs), d);
    forall d' | ReachesDir(fs, Head(path.segs), d') ensures d' == d { ReachesIsRealpath(fs, Head(path.segs), d'); }
    assert !LExists(fs, path) && Stop(fs, path) == head;
    assert Resolve(fs, head) == Ok(Canon(d, false));
    assert Resolve(fs, path) == Ok(Canon(d + [n], false));
  }

  // ---------------------------------------------------------------- a location that is not anchored

  /** Under `r`, the link `l` goes through the missing `m` to the directory `s`, which holds a link. */
  const UNANCHORED: FileSystem := map[
    [] := Dir,
    ["r"] := Dir,
    ["r", "l"] := Link(Target(false, [Name("m"), Up, Name("s")])),
    ["r", "s"] := Dir,
    ["r", "s", "x"] := Link(Target(true, [Name("o")])),
    ["o"] := Dir]

  lemma RealOfL()
    ensures Real(UNANCHORED, ["r"], [Name("l")], 1) == Some(["r", "s"])
    ensures forall links: nat :: Walk(UNANCHORED, ["r"], [Name("l")], links) == None
  {
    var fs, to := UNANCHORED, [Name("m"), Up, Name("s")];
    assert ["r"] + ["l"] == ["r", "l"] && ["r"] + ["m"] == ["r", "m"] && ["r"] + ["s"] == ["r", "s"];
    assert to + [Name("l")][1..] == to;
    assert Real(fs, ["r"], to, 0) == Real(fs, ["r", "m"], to[1..], 0);
    assert to[1..][1..] == [Name("s")] && Parent(["r", "m"]) == ["r"];
    assert Real(fs, ["r"], [Name("s")], 0) == Some(["r", "s"]);
    forall links: nat ensures Walk(fs, ["r"], [Name("l")], links) == None {
      if links > 0 { assert Walk(fs, ["r"], to, links - 1) == None; }
    }
  }

  lemma UnanchoredIsWellFormed()
    ensures WellFormed(UNANCHORED)
  {
    assert Parent(["r"]) == [] && Parent(["o"]) == [] && Parent(["r", "l"]) == ["r"];
    assert Parent(["r", "s"]) == ["r"] && Parent(["r", "s", "x"]) == ["r", "s"];
  }

  /** `/r` is what it says; `/r/l` lexists, does not exist, and has the realpath `/r/s`. */
  lemma UnanchoredPrefix()
    ensures Ends(UNANCHORED, [], [Name("r")]) && Realpath(UNANCHORED, [Name("r")]) == ["r"]
    ensures var l := Path([Name("r"), Name("l")], false);
            && LExists(UNANCHORED, l) && !Exists(UNANCHORED, l)
            && Ends(UNANCHORED, [], l.segs) && Realpath(UNANCHORED, l.segs) == ["r", "s"]
  {
    var fs, r, l := UNANCHORED, [Name("r")], [Name("r"), Name("l")];
    RealOfL();
    assert Walk(fs, [], r, 0) == Real(fs, [], r, 0) == Some(["r"]) by { assert [] + ["r"] == ["r"]; }
    ReachesIsRealpath(fs, r, ["r"]);
    assert r + [Name("l")] == l && Head(l) == r && ["r"] + ["l"] == ["r", "l"];
    RealAppend(fs, [], r, 0, [Name("l")], 1);
    RealpathIs(fs, l, 1);
    assert ReachesDir(fs, r, ["r"]);
    forall links: nat ensures Walk(fs, [], l, links) == None {
      assert l[1..] == [Name("l")] && [] + ["r"] == ["r"];
      assert Walk(fs, [], l, links) == Walk(fs, ["r"], [Name("l")], links);
    }
  }

  /**
   Without an anchor the claim can fail: for the location `l/x` the path returned is `/r/s/x`, spelled
   beneath the root, but a link.
   */
  lemma UnanchoredLocationMayBeALink()
    ensures var loc := Location(false, Path([Name("l"), Name("x")], false));
            && Confinable(UNANCHORED, [Name("r")], loc)
            && !Anchored(UNANCHORED, Joined(Realpath(UNANCHORED, [Name("r")]), loc))
            && Confine(UNANCHORED, [Name("r")], loc) == Ok(Canon(["r", "s", "x"], false))
            && UNANCHORED[["r", "s", "x"]].Link?
  {
    var fs, r, l := UNANCHORED, [Name("r")], Path([Name("r"), Name("l")], false);
    var x, c := Path([Name("r"), Name("l"), Name("x")], false), Canon(["r", "s", "x"], false);
    UnanchoredIsWellFormed();
    UnanchoredPrefix();
    assert Names(["r"]) == r && r + [Name("l"), Name("x")] == x.segs;
    NamesAreAppended(fs, l, ["x"]);
    assert Names(["x"]) == [Name("x")] && l.segs + [Name("x")] == x.segs;
    assert ["r", "s"] + ["x"] == ["r", "s", "x"] && ["r"] <= ["r", "s", "x"];
    assert Resolve(fs, x) == Ok(c);
    assert !LExists(fs, x);
  }
}
