/**
 * `walk`: a top-down traversal of the site directory that never descends
 * into an ignored directory and drops ignored files. Each visited directory
 * yields its path relative to the walk root and its kept file names.
 */
module Walker {

  /** A directory as the traversal lists it: its name, its files and its subdirectories, in listing order. */
  datatype Tree = Dir(name: string, files: seq<string>, subdirs: seq<Tree>)

  /** One yielded pair: the directory's components below the root, and its kept files. */
  datatype Entry = Entry(path: seq<string>, files: seq<string>)

  /** `[n for n in names if not ignored(n)]`. */
  function Keep(names: seq<string>, ignored: string -> bool): (r: seq<string>)
    ensures |r| <= |names|
    ensures forall n :: n in r <==> n in names && !ignored(n)
  {
    if names == [] then []
    else (if ignored(names[0]) then [] else [names[0]]) + Keep(names[1..], ignored)
  }

  /** `dirs[:] = [d for d in dirs if not ignored(d)]`. */
  function KeepDirs(ds: seq<Tree>, ignored: string -> bool): (r: seq<Tree>)
    ensures forall d :: d in r <==> d in ds && !ignored(d.name)
  {
    if ds == [] then []
    else (if ignored(ds[0].name) then [] else [ds[0]]) + KeepDirs(ds[1..], ignored)
  }

  /**
   * What walking `t`, found at `path`, yields: `t` itself first, then each
   * kept subdirectory's walk in listing order.
   */
  function WalkFrom(path: seq<string>, t: Tree, ignored: string -> bool): (r: seq<Entry>)
    ensures |r| >= 1 && r[0] == Entry(path, Keep(t.files, ignored))
    ensures forall i :: 0 <= i < |r| ==> path <= r[i].path
    decreases t, 1
  {
    [Entry(path, Keep(t.files, ignored))] + WalkAll(path, t.subdirs, ignored)
  }

  /** The walks of the kept directories among `ts`, children of `path`. */
  function WalkAll(path: seq<string>, ts: seq<Tree>, ignored: string -> bool): (r: seq<Entry>)
    ensures forall i :: 0 <= i < |r| ==> |r[i].path| > |path| && path <= r[i].path
    decreases ts, 0
  {
    if ts == [] then []
    else
      (if ignored(ts[0].name) then [] else WalkFrom(path + [ts[0].name], ts[0], ignored))
      + WalkAll(path, ts[1..], ignored)
  }

  /** `sub` is reached from `t` by descending through the kept directories named by `q`. */
  ghost predicate Reaches(t: Tree, q: seq<string>, sub: Tree, ignored: string -> bool)
    decreases t
  {
    if q == [] then sub == t
    else exists c :: c in t.subdirs && c.name == q[0] && !ignored(c.name) && Reaches(c, q[1..], sub, ignored)
  }

  /** Every yielded entry is a directory reached through kept directories, with that directory's kept files. */
  lemma {:induction false} WalkFromSound(path: seq<string>, t: Tree, ignored: string -> bool, i: nat)
    returns (q: seq<string>, sub: Tree)
    requires i < |WalkFrom(path, t, ignored)|
    ensures WalkFrom(path, t, ignored)[i] == Entry(path + q, Keep(sub.files, ignored))
    ensures Reaches(t, q, sub, ignored)
    decreases t, 1
  {
    if i == 0 {
      q, sub := [], t;
      assert path + q == path;
    } else {
      var c, q', sub' := WalkAllSound(path, t.subdirs, ignored, i - 1);
      q, sub := [c.name] + q', sub';
      assert q[0] == c.name && q[1..] == q';
      AppendAssoc(path, [c.name], q');
    }
  }

  lemma {:induction false} WalkAllSound(path: seq<string>, ts: seq<Tree>, ignored: string -> bool, i: nat)
    returns (c: Tree, q: seq<string>, sub: Tree)
    requires i < |WalkAll(path, ts, ignored)|
    ensures c in ts && !ignored(c.name) && Reaches(c, q, sub, ignored)
    ensures WalkAll(path, ts, ignored)[i] == Entry(path + [c.name] + q, Keep(sub.files, ignored))
    decreases ts, 0
  {
    var head := FirstWalk(path, ts, ignored);
    WalkAllSplit(path, ts, ignored);
    if i < |head| {
      c := ts[0];
      q, sub := WalkFromSound(path + [c.name], c, ignored, i);
      WalkAllHead(path, ts, ignored, i);
    } else {
      c, q, sub := WalkAllSound(path, ts[1..], ignored, i - |head|);
      WalkAllTail(path, ts, ignored, i - |head|);
    }
  }

  /** Every directory reached through kept directories is yielded, with its kept files. */
  lemma {:induction false} WalkFromComplete(path: seq<string>, t: Tree, ignored: string -> bool, q: seq<string>, sub: Tree)
    returns (i: nat)
    requires Reaches(t, q, sub, ignored)
    ensures i < |WalkFrom(path, t, ignored)|
    ensures WalkFrom(path, t, ignored)[i] == Entry(path + q, Keep(sub.files, ignored))
    decreases t, 1
  {
    if q == [] {
      i := 0;
      assert path + q == path;
    } else {
      var c :| c in t.subdirs && c.name == q[0] && !ignored(c.name) && Reaches(c, q[1..], sub, ignored);
      var j := WalkAllComplete(path, t.subdirs, ignored, c, q[1..], sub);
      i := 1 + j;
      ExtendPath(path, q);
      WalkFromIndex(path, t, ignored, j);
    }
  }

  /** The part of `WalkAll(path, ts, ignored)` that comes from `ts[0]`. */
  function FirstWalk(path: seq<string>, ts: seq<Tree>, ignored: string -> bool): seq<Entry>
    requires ts != []
  {
    if ignored(ts[0].name) then [] else WalkFrom(path + [ts[0].name], ts[0], ignored)
  }

  lemma WalkAllSplit(path: seq<string>, ts: seq<Tree>, ignored: string -> bool)
    requires ts != []
    ensures |WalkAll(path, ts, ignored)| == |FirstWalk(path, ts, ignored)| + |WalkAll(path, ts[1..], ignored)|
  {
  }

  lemma WalkAllHead(path: seq<string>, ts: seq<Tree>, ignored: string -> bool, i: nat)
    requires ts != [] && !ignored(ts[0].name) && i < |WalkFrom(path + [ts[0].name], ts[0], ignored)|
    ensures i < |WalkAll(path, ts, ignored)|
    ensures WalkAll(path, ts, ignored)[i] == WalkFrom(path + [ts[0].name], ts[0], ignored)[i]
  {
  }

  lemma WalkAllTail(path: seq<string>, ts: seq<Tree>, ignored: string -> bool, j: nat)
    requires ts != [] && j < |WalkAll(path, ts[1..], ignored)|
    ensures |FirstWalk(path, ts, ignored)| + j < |WalkAll(path, ts, ignored)|
    ensures WalkAll(path, ts, ignored)[|FirstWalk(path, ts, ignored)| + j] == WalkAll(path, ts[1..], ignored)[j]
  {
  }

  /** Descending by the first component of `q` and then the rest reaches `path + q`. */
  lemma ExtendPath(path: seq<string>, q: seq<string>)
    requires q != []
    ensures path + [q[0]] + q[1..] == path + q
  {
    assert [q[0]] + q[1..] == q;
    AppendAssoc(path, [q[0]], q[1..]);
  }

  /** The entries after the first one of a walk are the walks of its subdirectories. */
  lemma WalkFromIndex(path: seq<string>, t: Tree, ignored: string -> bool, j: nat)
    requires j < |WalkAll(path, t.subdirs, ignored)|
    ensures 1 + j < |WalkFrom(path, t, ignored)|
    ensures WalkFrom(path, t, ignored)[1 + j] == WalkAll(path, t.subdirs, ignored)[j]
  {
  }

  lemma {:induction false} WalkAllComplete(path: seq<string>, ts: seq<Tree>, ignored: string -> bool, c: Tree, q: seq<string>, sub: Tree)
    returns (i: nat)
    requires c in ts && !ignored(c.name) && Reaches(c, q, sub, ignored)
    ensures i < |WalkAll(path, ts, ignored)|
    ensures WalkAll(path, ts, ignored)[i] == Entry(path + [c.name] + q, Keep(sub.files, ignored))
    decreases ts, 0
  {
    if ts[0] == c {
      i := WalkFromComplete(path + [c.name], c, ignored, q, sub);
      WalkAllHead(path, ts, ignored, i);
    } else {
      assert c in ts[1..];
      var j := WalkAllComplete(path, ts[1..], ignored, c, q, sub);
      i := |FirstWalk(path, ts, ignored)| + j;
      WalkAllTail(path, ts, ignored, j);
    }
  }

  lemma {:induction false} ReachesThroughKept(t: Tree, q: seq<string>, sub: Tree, ignored: string -> bool)
    requires Reaches(t, q, sub, ignored)
    ensures forall k :: 0 <= k < |q| ==> !ignored(q[k])
    decreases t
  {
    if q != [] {
      var c :| c in t.subdirs && c.name == q[0] && !ignored(c.name) && Reaches(c, q[1..], sub, ignored);
      ReachesThroughKept(c, q[1..], sub, ignored);
      assert forall k :: 1 <= k < |q| ==> q[k] == q[1..][k - 1];
    }
  }

  /**
   * Nothing ignored comes out of a walk from the root: no yielded file is
   * ignored, and no yielded directory lies under an ignored directory.
   */
  lemma WalkPrunesIgnored(t: Tree, ignored: string -> bool, i: nat)
    requires i < |WalkFrom([], t, ignored)|
    ensures forall n :: n in WalkFrom([], t, ignored)[i].files ==> !ignored(n)
    ensures forall k :: 0 <= k < |WalkFrom([], t, ignored)[i].path| ==> !ignored(WalkFrom([], t, ignored)[i].path[k])
  {
    var q, sub := WalkFromSound([], t, ignored, i);
    ReachesThroughKept(t, q, sub, ignored);
    assert [] + q == q;
  }

  /** No two directories of one listing share a name. */
  predicate SiblingsDistinct(ts: seq<Tree>) {
    forall i, j :: 0 <= i < j < |ts| ==> ts[i].name != ts[j].name
  }

  /** A tree as a file system lists it: sibling directories have distinct names, all the way down. */
  predicate WellListed(t: Tree)
    decreases t
  {
    && SiblingsDistinct(t.subdirs)
    && forall k :: 0 <= k < |t.subdirs| ==> WellListed(t.subdirs[k])
  }

  /** No directory is yielded twice. */
  ghost predicate DistinctPaths(es: seq<Entry>) {
    forall i, j :: 0 <= i < j < |es| ==> es[i].path != es[j].path
  }

  /**
   * In a well-listed tree every entry of the walk has its own path, so with
   * `WalkFromSound` and `WalkFromComplete` each visited directory is yielded
   * exactly once.
   */
  lemma {:induction false} WalkFromDistinct(path: seq<string>, t: Tree, ignored: string -> bool)
    requires WellListed(t)
    ensures DistinctPaths(WalkFrom(path, t, ignored))
    decreases t, 1
  {
    var w := WalkFrom(path, t, ignored);
    var rest := WalkAll(path, t.subdirs, ignored);
    assert w == [w[0]] + rest;
    WalkAllDistinct(path, t.subdirs, ignored);
    forall i, j | 0 <= i < j < |w|
      ensures w[i].path != w[j].path
    {
      assert w[j] == rest[j - 1];
      if i == 0 {
        assert |rest[j - 1].path| > |path|;
      } else {
        assert w[i] == rest[i - 1];
      }
    }
  }

  lemma {:induction false} WalkAllDistinct(path: seq<string>, ts: seq<Tree>, ignored: string -> bool)
    requires SiblingsDistinct(ts)
    requires forall k :: 0 <= k < |ts| ==> WellListed(ts[k])
    ensures DistinctPaths(WalkAll(path, ts, ignored))
    decreases ts, 0
  {
    if ts != [] {
      var w := WalkAll(path, ts, ignored);
      var first := FirstWalk(path, ts, ignored);
      var rest := WalkAll(path, ts[1..], ignored);
      assert w == first + rest;
      if !ignored(ts[0].name) {
        WalkFromDistinct(path + [ts[0].name], ts[0], ignored);
      }
      assert forall i :: 0 <= i < |ts| - 1 ==> ts[1..][i] == ts[i + 1];
      WalkAllDistinct(path, ts[1..], ignored);
      forall i, j | 0 <= i < j < |w|
        ensures w[i].path != w[j].path
      {
        if j < |first| {
          assert w[i] == first[i] && w[j] == first[j];
        } else if i >= |first| {
          assert w[i] == rest[i - |first|] && w[j] == rest[j - |first|];
        } else {
          assert w[i] == first[i] && w[j] == rest[j - |first|];
          FirstRestDiffer(path, ts, ignored, i, j - |first|);
        }
      }
    }
  }

  /** An entry from the first directory and one from a later sibling differ in the component below `path`. */
  lemma FirstRestDiffer(path: seq<string>, ts: seq<Tree>, ignored: string -> bool, i: nat, j: nat)
    requires ts != [] && SiblingsDistinct(ts)
    requires i < |FirstWalk(path, ts, ignored)| && j < |WalkAll(path, ts[1..], ignored)|
    ensures FirstWalk(path, ts, ignored)[i].path != WalkAll(path, ts[1..], ignored)[j].path
  {
    var a := FirstWalk(path, ts, ignored)[i].path;
    assert path + [ts[0].name] <= a;
    assert a[|path|] == ts[0].name;
    var c, q, sub := WalkAllSound(path, ts[1..], ignored, j);
    var k :| 0 <= k < |ts| - 1 && ts[1..][k] == c;
    assert ts[k + 1] == c;
    assert (path + [c.name] + q)[|path|] == c.name;
  }

  lemma AppendAssoc<T>(a: seq<T>, b: seq<T>, c: seq<T>)
    ensures a + b + c == a + (b + c)
  {
  }

  /** The directories still to be walked, each with its path, and what walking them yields. */
  function Pending(stack: seq<(seq<string>, Tree)>, ignored: string -> bool): seq<Entry> {
    if stack == [] then [] else WalkFrom(stack[0].0, stack[0].1, ignored) + Pending(stack[1..], ignored)
  }

  /** The kept subdirectories `ds` of the directory at `path`, each with its own path. */
  function Children(path: seq<string>, ds: seq<Tree>): seq<(seq<string>, Tree)> {
    if ds == [] then [] else [(path + [ds[0].name], ds[0])] + Children(path, ds[1..])
  }

  lemma PendingCons(top: (seq<string>, Tree), rest: seq<(seq<string>, Tree)>, ignored: string -> bool)
    ensures Pending([top] + rest, ignored) == WalkFrom(top.0, top.1, ignored) + Pending(rest, ignored)
  {
    assert ([top] + rest)[1..] == rest;
  }

  lemma ChildrenCons(path: seq<string>, d: Tree, ds: seq<Tree>)
    ensures Children(path, [d] + ds) == [(path + [d.name], d)] + Children(path, ds)
  {
    assert ([d] + ds)[1..] == ds;
  }

  lemma {:induction false} PendingAppend(a: seq<(seq<string>, Tree)>, b: seq<(seq<string>, Tree)>, ignored: string -> bool)
    ensures Pending(a + b, ignored) == Pending(a, ignored) + Pending(b, ignored)
  {
    if a == [] {
      assert a + b == b;
    } else {
      assert (a + b)[1..] == a[1..] + b;
      PendingAppend(a[1..], b, ignored);
    }
  }

  lemma {:induction false} WalkAllIsPending(path: seq<string>, ts: seq<Tree>, ignored: string -> bool)
    ensures WalkAll(path, ts, ignored) == Pending(Children(path, KeepDirs(ts, ignored)), ignored)
  {
    if ts != [] {
      WalkAllIsPending(path, ts[1..], ignored);
      var kept := KeepDirs(ts[1..], ignored);
      if ignored(ts[0].name) {
        assert KeepDirs(ts, ignored) == [] + kept;
        assert [] + kept == kept;
        assert WalkAll(path, ts, ignored) == [] + WalkAll(path, ts[1..], ignored);
        assert [] + WalkAll(path, ts[1..], ignored) == WalkAll(path, ts[1..], ignored);
      } else {
        assert KeepDirs(ts, ignored) == [ts[0]] + kept;
        ChildrenCons(path, ts[0], kept);
        PendingCons((path + [ts[0].name], ts[0]), Children(path, kept), ignored);
      }
    }
  }

  /** Walking the next pending directory yields it and puts its kept subdirectories first. */
  lemma PendingStep(stack: seq<(seq<string>, Tree)>, ignored: string -> bool)
    requires stack != []
    ensures Pending(stack, ignored) ==
      [Entry(stack[0].0, Keep(stack[0].1.files, ignored))]
      + Pending(Children(stack[0].0, KeepDirs(stack[0].1.subdirs, ignored)) + stack[1..], ignored)
  {
    var path, dir := stack[0].0, stack[0].1;
    var children := Children(path, KeepDirs(dir.subdirs, ignored));
    var head := [Entry(path, Keep(dir.files, ignored))];
    WalkAllIsPending(path, dir.subdirs, ignored);
    assert WalkFrom(path, dir, ignored) == head + Pending(children, ignored);
    assert Pending(stack, ignored) == WalkFrom(path, dir, ignored) + Pending(stack[1..], ignored);
    PendingAppend(children, stack[1..], ignored);
    AppendAssoc(head, Pending(children, ignored), Pending(stack[1..], ignored));
  }

  /**
   * `walk(root, ignored)`, collected. The loop stands for the top-down
   * traversal: each step takes the next directory, prunes its
   * subdirectories in place, yields its path and kept files, and goes on
   * with the kept subdirectories before the remaining ones.
   */
  method Walk(root: Tree, ignored: string -> bool) returns (entries: seq<Entry>)
    ensures entries == WalkFrom([], root, ignored)
  {
    entries := [];
    var stack: seq<(seq<string>, Tree)> := [([], root)];
    assert Pending(stack, ignored) == WalkFrom([], root, ignored) + Pending([], ignored);
    while stack != []
      invariant entries + Pending(stack, ignored) == WalkFrom([], root, ignored)
      decreases |WalkFrom([], root, ignored)| - |entries|
    {
      var top := stack[0];
      var path, dir := top.0, top.1;
      var dirs := KeepDirs(dir.subdirs, ignored);
      var files := Keep(dir.files, ignored);
      var next := Children(path, dirs) + stack[1..];
      PendingStep(stack, ignored);
      AppendAssoc(entries, [Entry(path, files)], Pending(next, ignored));
      entries := entries + [Entry(path, files)];
      stack := next;
    }
  }
}
