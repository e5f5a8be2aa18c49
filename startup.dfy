/** The start-up wipe of the document cache (`HelloApplication.cleanCache`):
    walk the cache directory, sort the walked paths in reverse order and
    delete them one by one, ignoring every failure. The file system is a set
    of path strings; a path in `undeletable` refuses deletion (a file held
    open, no permission). */
module Startup {
  import JavaStrings
  import SmartCache

  /** `q` lies strictly below directory `p`. */
  predicate IsStrictDescendant(p: string, q: string) {
    |q| > |p| + 1 && q[..|p| + 1] == p + "/"
  }

  /** `q` is one of the paths `Files.walk(root)` visits. */
  predicate UnderRoot(root: string, q: string) {
    q == root || IsStrictDescendant(root, q)
  }

  lemma DescendantTransitive(a: string, b: string, c: string)
    requires IsStrictDescendant(a, b) && IsStrictDescendant(b, c)
    ensures IsStrictDescendant(a, c)
  {
    assert c[..|a| + 1] == c[..|b| + 1][..|a| + 1];
    assert (b + "/")[..|a| + 1] == b[..|a| + 1];
  }

  /** A descendant sorts after its ancestor in `String` order. */
  lemma DescendantSortsAfter(p: string, q: string)
    requires IsStrictDescendant(p, q)
    ensures JavaStrings.Less(p, q)
  {
    assert q[..|p|] == q[..|p| + 1][..|p|];
    assert (p + "/")[..|p|] == p;
    JavaStrings.PrefixLess(p, q);
  }

  class FileSystem {
    var paths: set<string>
    const undeletable: set<string>

    constructor (paths: set<string>, undeletable: set<string>)
      ensures this.paths == paths && this.undeletable == undeletable
    {
      this.paths := paths;
      this.undeletable := undeletable;
    }

    /** `File.delete()`: succeeds on an existing, deletable path with nothing
        below it, and reports failure by its result. */
    method Delete(p: string) returns (ok: bool)
      modifies this
      ensures ok <==> p in old(paths) && p !in undeletable && !HasEntryBelow(old(paths), p)
      ensures paths == if ok then old(paths) - {p} else old(paths)
    {
      ok := p in paths && p !in undeletable && !HasEntryBelow(paths, p);
      if ok {
        paths := paths - {p};
      }
    }
  }

  /** A directory that is not empty cannot be deleted. */
  predicate HasEntryBelow(ps: set<string>, p: string) {
    exists q :: q in ps && IsStrictDescendant(p, q)
  }

  /** The sweep over `ps` removes `p`: it was walked, it is deletable, and
      nothing undeletable sits below it. */
  ghost predicate Removable(ps: set<string>, undeletable: set<string>, root: string, p: string) {
    && p in ps && UnderRoot(root, p) && p !in undeletable
    && !exists q :: q in ps && q in undeletable && IsStrictDescendant(p, q)
  }

  ghost function RemovableSet(ps: set<string>, undeletable: set<string>, root: string): set<string> {
    set p | p in ps && Removable(ps, undeletable, root, p)
  }

  /** What the sweep has removed after trying the paths in `done`. */
  ghost function Swept(ps: set<string>, undeletable: set<string>, root: string, done: seq<string>): set<string> {
    set p | p in done && Removable(ps, undeletable, root, p)
  }

  /** The walk in reverse order: exactly the walked paths, largest first. */
  ghost predicate IsReverseWalk(ps: set<string>, root: string, order: seq<string>) {
    && (forall q :: q in order <==> q in ps && UnderRoot(root, q))
    && JavaStrings.Descending(order)
  }

  /** In the reverse walk every descendant of a path comes before it. */
  lemma DescendantsComeFirst(ps: set<string>, root: string, order: seq<string>, i: int, j: int)
    requires IsReverseWalk(ps, root, order)
    requires 0 <= i < |order| && 0 <= j < |order|
    requires IsStrictDescendant(order[i], order[j])
    ensures j < i
  {
    var below, above := order[i], order[j];
    DescendantSortsAfter(below, above);
    if i < j {
      JavaStrings.LessAsymmetric(below, above);
    } else if i == j {
      JavaStrings.LessIrreflexive(below);
    }
  }

  /** Descendants of a walked path are walked too. */
  lemma BelowWalkedIsWalked(root: string, p: string, q: string)
    requires UnderRoot(root, p) && IsStrictDescendant(p, q)
    ensures UnderRoot(root, q)
  {
    if p != root {
      DescendantTransitive(root, p, q);
    }
  }

  lemma NoRepeats(order: seq<string>, i: int, j: int)
    requires JavaStrings.Descending(order)
    requires 0 <= i < j < |order|
    ensures order[i] != order[j]
  {
    if order[i] == order[j] {
      JavaStrings.LessIrreflexive(order[i]);
    }
  }

  /** One `File::delete` of the sweep removes `order[k]` exactly when the
      sweep as a whole removes it. */
  lemma DeleteStep(ps: set<string>, undeletable: set<string>, root: string, order: seq<string>, k: int, cur: set<string>)
    requires IsReverseWalk(ps, root, order)
    requires 0 <= k < |order|
    requires cur == ps - Swept(ps, undeletable, root, order[..k])
    ensures (order[k] in cur && order[k] !in undeletable && !HasEntryBelow(cur, order[k]))
            <==> Removable(ps, undeletable, root, order[k])
    ensures Swept(ps, undeletable, root, order[..k + 1]) ==
            Swept(ps, undeletable, root, order[..k]) +
            (if Removable(ps, undeletable, root, order[k]) then {order[k]} else {})
  {
    var p := order[k];
    assert order[..k + 1] == order[..k] + [p];
    forall i | 0 <= i < k ensures order[i] != p {
      NoRepeats(order, i, k);
    }
    assert p !in order[..k];
    assert p in cur;
    // every path below p was tried before p
    forall q | q in ps && IsStrictDescendant(p, q)
      ensures q in order[..k]
    {
      BelowWalkedIsWalked(root, p, q);
      var j :| 0 <= j < |order| && order[j] == q;
      DescendantsComeFirst(ps, root, order, k, j);
    }
    if Removable(ps, undeletable, root, p) {
      forall q | q in cur && IsStrictDescendant(p, q) ensures false {
        assert q in order[..k];
        assert !Removable(ps, undeletable, root, q);
        BelowWalkedIsWalked(root, p, q);
        if q !in undeletable {
          var r :| r in ps && r in undeletable && IsStrictDescendant(q, r);
          DescendantTransitive(p, q, r);
        }
      }
    }
  }

  datatype SweepOutcome = NoCache | Cleaned | SweepFailed

  /** `cleanCache()`. `walkFails` says whether walking the directory throws;
      the exception is caught, and since the sort reads the whole walk before
      the first delete, nothing is deleted then. `attempted` is the order in
      which `File::delete` is called. */
  method CleanCache(mgr: SmartCache.ServiceManager, fs: FileSystem, walkFails: bool)
    returns (o: SweepOutcome, attempted: seq<string>)
    modifies fs
    ensures mgr.cachePath !in old(fs.paths) ==> o == NoCache && fs.paths == old(fs.paths) && attempted == []
    ensures mgr.cachePath in old(fs.paths) && walkFails ==>
      o == SweepFailed && fs.paths == old(fs.paths) && attempted == []
    ensures mgr.cachePath in old(fs.paths) && !walkFails ==>
      && o == Cleaned
      && fs.paths == old(fs.paths) - RemovableSet(old(fs.paths), fs.undeletable, mgr.cachePath)
      && (forall q :: q in attempted <==> q in old(fs.paths) && UnderRoot(mgr.cachePath, q))
      && (forall i, j ::
            0 <= i < |attempted| && 0 <= j < |attempted| && IsStrictDescendant(attempted[i], attempted[j]) ==> j < i)
      && |attempted| > 0 && attempted[|attempted| - 1] == mgr.cachePath
  {
    var root := mgr.cachePath;
    attempted := [];
    if root !in fs.paths {
      return NoCache, [];
    }
    if walkFails {
      return SweepFailed, [];
    }
    ghost var ps := fs.paths;
    var walked := set q | q in fs.paths && UnderRoot(root, q);
    var order := JavaStrings.SortDescending(walked);
    assert IsReverseWalk(ps, root, order);
    var k := 0;
    while k < |order|
      invariant 0 <= k <= |order|
      invariant fs.paths == ps - Swept(ps, fs.undeletable, root, order[..k])
    {
      DeleteStep(ps, fs.undeletable, root, order, k, fs.paths);
      var _ := fs.Delete(order[k]);
      k := k + 1;
    }
    assert order[..k] == order;
    assert Swept(ps, fs.undeletable, root, order) == RemovableSet(ps, fs.undeletable, root);
    forall i, j | 0 <= i < |order| && 0 <= j < |order| && IsStrictDescendant(order[i], order[j])
      ensures j < i
    {
      DescendantsComeFirst(ps, root, order, i, j);
    }
    RootComesLast(ps, root, order);
    return Cleaned, order;
  }

  /** The root is deleted last: everything else walked lies below it. */
  lemma RootComesLast(ps: set<string>, root: string, order: seq<string>)
    requires root in ps
    requires IsReverseWalk(ps, root, order)
    ensures |order| > 0 && order[|order| - 1] == root
  {
    assert root in order;
    var i :| 0 <= i < |order| && order[i] == root;
    if i < |order| - 1 {
      var last := |order| - 1;
      NoRepeats(order, i, last);
      assert order[last] in order;
      DescendantsComeFirst(ps, root, order, i, last);
    }
  }

  /** A second sweep right after the first removes nothing more. */
  lemma SweepIsIdempotent(ps: set<string>, undeletable: set<string>, root: string)
    ensures RemovableSet(ps - RemovableSet(ps, undeletable, root), undeletable, root) == {}
  {
    var left := ps - RemovableSet(ps, undeletable, root);
    forall p | p in left ensures !Removable(left, undeletable, root, p) {
      if UnderRoot(root, p) && p !in undeletable {
        var q :| q in ps && q in undeletable && IsStrictDescendant(p, q);
        assert q in left;
      }
    }
  }

  /** One undeletable walked path keeps exactly itself and its ancestors. */
  lemma OnePinnedPathKeepsItsAncestors(ps: set<string>, root: string, x: string, p: string)
    requires x in ps && UnderRoot(root, x)
    ensures Removable(ps, {x}, root, p) <==>
      p in ps && UnderRoot(root, p) && p != x && !IsStrictDescendant(p, x)
  {
  }

  /** `start()`: the sweep comes first, and whatever it does, the main view is
      loaded after it. */
  datatype StartStep = CacheSwept(outcome: SweepOutcome) | MainViewLoaded

  method Start(mgr: SmartCache.ServiceManager, fs: FileSystem, walkFails: bool) returns (steps: seq<StartStep>)
    modifies fs
    ensures |steps| == 2 && steps[0].CacheSwept? && steps[1] == MainViewLoaded
    ensures steps[0].outcome == NoCache <==> mgr.cachePath !in old(fs.paths)
    ensures steps[0].outcome == SweepFailed <==> mgr.cachePath in old(fs.paths) && walkFails
    ensures steps[0].outcome == Cleaned ==>
      fs.paths == old(fs.paths) - RemovableSet(old(fs.paths), fs.undeletable, mgr.cachePath)
    ensures !steps[0].outcome.Cleaned? ==> fs.paths == old(fs.paths)
  {
    var o, _ := CleanCache(mgr, fs, walkFails);
    steps := [CacheSwept(o), MainViewLoaded];
  }
}
