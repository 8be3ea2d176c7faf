/** The batch pipeline of FileOrganizer.organize_files over an abstract
    filesystem: create the category folders, collect the files outside them,
    move each file into its category under a free name, then remove the
    folders left empty (file_organizer.py:124-131, 144-188). */
module Organizer {
  import opened Paths
  import opened Filenames
  import opened Categories

  /** How a run ends: every collected file moved, or the first failing
      filesystem call aborted the run after `moved` files. */
  datatype Outcome = Sorted(moved: nat) | Failed(moved: nat)

  /** A filesystem state: every file sits in an existing directory, every
      ancestor of a directory is a directory, and no path is both. */
  ghost predicate WellFormed(files: set<Path>, dirs: set<Path>) {
    (forall f :: f in files ==> |f| > 0 && Parent(f) in dirs) &&
    (forall d, p :: d in dirs && IsPrefix(p, d) ==> p in dirs) &&
    (forall f :: f in files ==> f !in dirs)
  }

  predicate Distinct(s: seq<Path>) {
    forall i, j :: 0 <= i < j < |s| ==> s[i] != s[j]
  }

  function Elems(s: seq<Path>): set<Path> {
    set x | x in s
  }

  /** Some segment of p is a category name (the test of file_organizer.py:127). */
  predicate HasCategorySegment(p: Path) {
    exists k :: 0 <= k < |p| && IsCategory(p[k])
  }

  /** f is a file that get_all_files(directory) returns: it lies below
      directory and no segment of its folder's full path names a category. */
  ghost predicate Discoverable(files: set<Path>, directory: Path, f: Path) {
    f in files && |f| > 0 && IsPrefix(directory, Parent(f)) && !HasCategorySegment(Parent(f))
  }

  /** directory/<name of row i>. */
  function CategoryPath(directory: Path, i: nat): Path
    requires i < |Names|
  {
    directory + [Names[i]]
  }

  /** No ancestor of p, p included, is a file: os.makedirs(p) can succeed. */
  predicate NoFileOnPath(files: set<Path>, p: Path) {
    forall k :: 0 <= k <= |p| ==> p[..k] !in files
  }

  /** Row i cannot be provisioned: its category path does not exist and a
      file lies on its way, so os.makedirs raises. */
  predicate Blocked(files: set<Path>, dirs: set<Path>, directory: Path, i: nat)
    requires i < |Names|
  {
    var p := CategoryPath(directory, i);
    p !in files && p !in dirs && !NoFileOnPath(files, p)
  }

  /** The first blocked row at or after row i, or |Names| when there is none:
      the row at which provisioning stops. */
  function FirstBlocked(files: set<Path>, dirs: set<Path>, directory: Path, i: nat): (r: nat)
    requires i <= |Names|
    ensures i <= r <= |Names|
    ensures r < |Names| ==> Blocked(files, dirs, directory, r)
    ensures forall j :: i <= j < r ==> !Blocked(files, dirs, directory, j)
    decreases |Names| - i
  {
    if i == |Names| then i
    else if Blocked(files, dirs, directory, i) then i
    else FirstBlocked(files, dirs, directory, i + 1)
  }

  /** The folders created when rows [0, n) of the table are provisioned in
      the state (files, dirs): the ancestors of each absent category path. */
  ghost function NewDirs(files: set<Path>, dirs: set<Path>, directory: Path, n: nat): set<Path>
    requires n <= |Names|
  {
    if n == 0 then {}
    else
      var p := CategoryPath(directory, n - 1);
      NewDirs(files, dirs, directory, n - 1) + if p in files || p in dirs then {} else Prefixes(p)
  }

  /** The n-th destination tried for `name` in directory/category. */
  function Slot(directory: Path, category: string, name: string, n: nat): Path {
    directory + [category, NumberedName(name, n)]
  }

  /** The category folder a file is moved into:
      directory/<category of its extension> (the empty path has the empty
      name). */
  function CategoryFolder(directory: Path, f: Path): Path {
    directory + [CategoryOf(Extension(if |f| == 0 then "" else Basename(f)))]
  }

  /** The category folders of the first n collected files are folders. */
  ghost predicate FoldersFound(directory: Path, collected: seq<Path>, n: nat, dirs: set<Path>) {
    n <= |collected| &&
    forall k :: 0 <= k < n ==> CategoryFolder(directory, collected[k]) in dirs
  }

  lemma FoldersFoundSnoc(directory: Path, collected: seq<Path>, n: nat, dirs: set<Path>)
    requires FoldersFound(directory, collected, n, dirs) && n < |collected|
    requires CategoryFolder(directory, collected[n]) in dirs
    ensures FoldersFound(directory, collected, n + 1, dirs)
  {
  }

  /** The destinations tried before the n-th. */
  ghost function Tried(directory: Path, category: string, name: string, n: nat): set<Path> {
    set j | 0 <= j < n :: Slot(directory, category, name, j)
  }

  /** dst is where src belongs: directory/<category of src's extension>/<a
      numbered variant of src's name>. */
  ghost predicate Placed(directory: Path, src: Path, dst: Path) {
    |src| > 0 &&
    exists n: nat :: dst == Slot(directory, CategoryOf(Extension(Basename(src))), Basename(src), n)
  }

  /** The first |targets| collected files went to the matching targets. */
  ghost predicate AllPlaced(directory: Path, collected: seq<Path>, targets: seq<Path>) {
    |targets| <= |collected| &&
    (|targets| == 0 ||
     (AllPlaced(directory, collected, targets[..|targets| - 1]) &&
      Placed(directory, collected[|targets| - 1], targets[|targets| - 1])))
  }

  /** In the state (files, dirs), dst is the least free candidate for src:
      the n-th numbered variant of its name in its category folder, absent,
      with every earlier candidate present (file_organizer.py:165-174). */
  ghost predicate FirstFree(files: set<Path>, dirs: set<Path>, directory: Path, src: Path, dst: Path) {
    |src| > 0 &&
    exists n: nat ::
      dst == Slot(directory, CategoryOf(Extension(Basename(src))), Basename(src), n) &&
      LeastFree(files, dirs, directory, CategoryOf(Extension(Basename(src))), Basename(src), n)
  }

  /** The n-th candidate is absent and every earlier one exists. */
  ghost predicate LeastFree(files: set<Path>, dirs: set<Path>, directory: Path, category: string, name: string, n: nat) {
    Slot(directory, category, name, n) !in files && Slot(directory, category, name, n) !in dirs &&
    AllTaken(files, dirs, directory, category, name, n)
  }

  /** The candidates before the n-th all exist. */
  ghost predicate AllTaken(files: set<Path>, dirs: set<Path>, directory: Path, category: string, name: string, n: nat) {
    forall j :: 0 <= j < n ==> Slot(directory, category, name, j) in files || Slot(directory, category, name, j) in dirs
  }

  lemma AllTakenSnoc(files: set<Path>, dirs: set<Path>, directory: Path, category: string, name: string, n: nat)
    requires AllTaken(files, dirs, directory, category, name, n)
    requires Slot(directory, category, name, n) in files || Slot(directory, category, name, n) in dirs
    ensures AllTaken(files, dirs, directory, category, name, n + 1)
  {
  }

  /** The files present when the k-th move starts: the first k collected
      files have gone to the first k targets. */
  ghost function FilesAt(files0: set<Path>, collected: seq<Path>, targets: seq<Path>, k: nat): set<Path>
    requires k <= |collected| && k <= |targets|
  {
    files0 - Elems(collected[..k]) + Elems(targets[..k])
  }

  /** Every target was the least free candidate in the state its move saw,
      the folders being `dirs` throughout. */
  ghost predicate AllFirstFree(files0: set<Path>, dirs: set<Path>, directory: Path, collected: seq<Path>,
                               targets: seq<Path>) {
    |targets| <= |collected| &&
    (|targets| == 0 ||
     (AllFirstFree(files0, dirs, directory, collected, targets[..|targets| - 1]) &&
      FirstFree(FilesAt(files0, collected, targets, |targets| - 1), dirs, directory,
                collected[|targets| - 1], targets[|targets| - 1])))
  }

  /** The closed form of the bottom-up cleanup: d is removed exactly when its
      whole subtree holds no file and no folder named like a category. */
  ghost predicate Prunable(files: set<Path>, dirs: set<Path>, d: Path) {
    (forall f :: f in files ==> !IsBelow(d, f)) &&
    (forall x :: x in dirs && IsPrefix(d, x) && |x| > 0 ==> !IsCategory(Basename(x)))
  }

  /** The folders left once cleanup under root has run. */
  ghost function Pruned(files: set<Path>, dirs: set<Path>, root: Path): set<Path> {
    set d | d in dirs && !(IsBelow(root, d) && Prunable(files, dirs, d))
  }

  /** An abstract filesystem: the set of file paths and the set of directory
      paths, updated in place as os.makedirs, shutil.move and os.rmdir do. */
  class FileTree {
    var files: set<Path>
    var dirs: set<Path>

    ghost predicate Valid()
      reads this
    {
      WellFormed(files, dirs)
    }

    /** os.path.exists: p is a file or a folder (ExistingAncestors: every
        proper ancestor of an existing path is a folder). */
    predicate Exists(p: Path)
      reads this
    {
      p in files || p in dirs
    }

    constructor (files0: set<Path>, dirs0: set<Path>)
      requires WellFormed(files0, dirs0)
      ensures Valid() && files == files0 && dirs == dirs0
    {
      files, dirs := files0, dirs0;
    }

    /** os.makedirs(p) on an absent p: creates p and its missing ancestors,
        and fails, changing nothing, when an ancestor is a file. */
    method MakeDirs(p: Path) returns (ok: bool)
      requires Valid() && !Exists(p)
      modifies this
      ensures Valid() && files == old(files)
      ensures ok <==> NoFileOnPath(old(files), p)
      ensures dirs == if ok then old(dirs) + Prefixes(p) else old(dirs)
    {
      ok := NoFileOnPath(files, p);
      if ok {
        forall q | q in Prefixes(p) ensures IsPrefix(q, p) && q !in files {
          InPrefixes(p, q);
        }
        forall d, q | d in Prefixes(p) && IsPrefix(q, d) ensures q in Prefixes(p) {
          InPrefixes(p, d);
          PrefixTransitive(q, d, p);
          InPrefixes(p, q);
        }
        dirs := dirs + Prefixes(p);
      }
    }

    /** Create directory/<c> for every category c that is absent, in table
        order (file_organizer.py:144-148). */
    method Provision(directory: Path) returns (ok: bool)
      requires Valid()
      modifies this
      ensures Valid() && files == old(files)
      ensures ok <==> FirstBlocked(old(files), old(dirs), directory, 0) == |Names|
      ensures dirs == old(dirs) + NewDirs(old(files), old(dirs), directory, FirstBlocked(old(files), old(dirs), directory, 0))
      ensures ok ==> forall i :: 0 <= i < |Names| ==> Exists(CategoryPath(directory, i))
    {
      ghost var files0, dirs0 := files, dirs;
      ok := true;
      for i := 0 to |Names|
        invariant Valid() && files == files0 && ok
        invariant Provisioned(files0, dirs0, directory, i, dirs)
      {
        var path := CategoryPath(directory, i);
        ProvisionRow(files0, dirs0, directory, i, dirs);
        ghost var before := dirs;
        if !Exists(path) {
          ok := MakeDirs(path);
          if !ok {
            ProvisionStops(files0, dirs0, directory, i, dirs);
            return;
          }
        }
        ProvisionStep(files0, dirs0, directory, i, before, dirs);
      }
      ProvisionCompletes(files0, dirs0, directory, dirs);
    }

    /** get_all_files: walk every folder at or below directory, in any order,
        and collect the files of each folder whose full path has no segment
        named like a category (file_organizer.py:124-131). */
    method GetAllFiles(directory: Path) returns (all: seq<Path>)
      requires Valid()
      ensures Distinct(all)
      ensures forall f :: f in all <==> Discoverable(files, directory, f)
    {
      all := [];
      var walk := set d | d in dirs && IsPrefix(directory, d);
      var pending := walk;
      while pending != {}
        invariant pending <= walk
        invariant Distinct(all)
        invariant forall f :: f in all <==> Discoverable(files, directory, f) && Parent(f) !in pending
        decreases pending
      {
        var d :| d in pending;
        pending := pending - {d};
        if !HasCategorySegment(d) {
          var here := set f | f in files && |f| > 0 && Parent(f) == d;
          while here != {}
            invariant here <= set f | f in files && |f| > 0 && Parent(f) == d
            invariant Distinct(all)
            invariant forall f :: f in all <==>
              (Discoverable(files, directory, f) && Parent(f) !in pending && Parent(f) != d) ||
              (f in files && |f| > 0 && Parent(f) == d && f !in here)
            decreases here
          {
            var f :| f in here;
            all := all + [f];
            here := here - {f};
          }
        }
      }
    }

    /** The destination of a file named `name` classified as `category`:
        the name itself when free, else base_n + ext for the least n >= 1
        that is free (file_organizer.py:165-174). The search ends because
        only finitely many paths exist. */
    method FreeTarget(directory: Path, category: string, name: string) returns (target: Path, ghost n: nat)
      ensures target == Slot(directory, category, name, n)
      ensures LeastFree(files, dirs, directory, category, name, n)
    {
      target := directory + [category, name];
      n := 0;
      if Exists(target) {
        var counter := 1;
        while Exists(target)
          invariant counter >= 1
          invariant target == Slot(directory, category, name, counter - 1)
          invariant AllTaken(files, dirs, directory, category, name, counter - 1)
          decreases (files + dirs) - Tried(directory, category, name, counter - 1)
        {
          TriedGrows(directory, category, name, counter - 1);
          AllTakenSnoc(files, dirs, directory, category, name, counter - 1);
          target := directory + [category, NumberedName(name, counter)];
          counter := counter + 1;
        }
        n := counter - 1;
      }
    }

    /** shutil.move(src, dst) onto a free dst: it succeeds exactly when dst's
        folder is a directory. */
    method Move(src: Path, dst: Path) returns (ok: bool)
      requires Valid() && src in files && |dst| > 0 && !Exists(dst)
      modifies this
      ensures Valid() && dirs == old(dirs)
      ensures ok <==> Parent(dst) in old(dirs)
      ensures files == if ok then old(files) - {src} + {dst} else old(files)
    {
      ok := Parent(dst) in dirs;
      if ok {
        files := files - {src} + {dst};
      }
    }

    /** os.listdir(d) is empty: no file and no folder lies below d. */
    predicate IsEmpty(d: Path)
      reads this
      ensures Valid() ==> (IsEmpty(d) <==> forall x :: x in files || x in dirs ==> !IsBelow(d, x))
    {
      EmptyDirHoldsNothing(files, dirs, d);
      EmptyDir(files, dirs, d)
    }

    /** The bottom-up walk: every folder strictly below directory is examined
        after all folders below it, and removed when it is then empty and its
        own name is not a category name (file_organizer.py:181-186). */
    method Cleanup(directory: Path)
      requires Valid()
      modifies this
      ensures Valid() && files == old(files)
      ensures dirs == Pruned(old(files), old(dirs), directory)
    {
      ghost var dirs0 := dirs;
      var pending := set d | d in dirs && IsBelow(directory, d);
      assert dirs == PrunedExcept(files, dirs0, directory, pending);
      while pending != {}
        invariant Valid() && files == old(files)
        invariant forall x :: x in pending ==> x in dirs0 && IsBelow(directory, x)
        invariant dirs == PrunedExcept(files, dirs0, directory, pending)
        decreases pending
      {
        LeafExists(pending);
        var d :| d in pending && forall x :: x in pending ==> !IsBelow(d, x);
        CleanupStep(files, dirs0, directory, pending, d);
        if IsEmpty(d) && !IsCategory(Basename(d)) {
          RemoveEmptyDir(files, dirs, d);
          dirs := dirs - {d};
        }
        pending := pending - {d};
      }
    }

    /** The move loop (file_organizer.py:154-178): classify each collected
        file, find it a free name in its category folder, move it there and
        count it; the first failing move stops the loop. Each name search
        sees the moves made before it. `targets` lists where the moved files
        went, in order. */
    method MoveAll(directory: Path, collected: seq<Path>) returns (moved: nat, ok: bool, ghost targets: seq<Path>)
      requires Valid() && Distinct(collected)
      requires forall f :: f in collected ==> Discoverable(files, directory, f)
      modifies this
      ensures Valid() && dirs == old(dirs)
      ensures moved == |targets| && (ok <==> moved == |collected|)
      ensures Relocated(old(files), old(dirs), directory, collected, targets, files)
      ensures forall k :: 0 <= k < moved ==> CategoryFolder(directory, collected[k]) in dirs
      ensures !ok ==> moved < |collected| && CategoryFolder(directory, collected[moved]) !in dirs
      ensures AllFirstFree(old(files), old(dirs), directory, collected, targets)
    {
      ghost var files1, dirs1 := files, dirs;
      moved, ok, targets := 0, true, [];
      while ok && moved < |collected|
        invariant Valid() && dirs == dirs1
        invariant MoveLoop(files1, dirs1, directory, collected, moved, targets, files)
        invariant !ok ==> moved < |collected| && CategoryFolder(directory, collected[moved]) !in dirs
        decreases |collected| - moved, ok
      {
        var file := collected[moved];
        var name := Basename(file);
        var category := Classify(Extension(name));
        ghost var n;
        var target;
        target, n := FreeTarget(directory, category, name);
        NextStillThere(files1, dirs1, directory, collected, moved, targets, files);
        SlotFolder(directory, file, n);
        MoveLoopNext(files1, dirs1, directory, collected, moved, targets, files, target, n);
        ok := Move(file, target);
        if ok {
          targets := targets + [target];
          moved := moved + 1;
        }
      }
    }

    /** The pipeline of organize_files (file_organizer.py:144-188): provision
        the category folders, collect the files, move them, and last remove
        the folders left empty. The first failing filesystem call ends the run
        with the count so far. */
    method OrganizeFiles(directory: Path) returns (outcome: Outcome, collected: seq<Path>, ghost targets: seq<Path>)
      requires Valid()
      modifies this
      ensures Valid()
      ensures outcome.moved == |targets| <= |collected|
      ensures outcome.Sorted? ==> outcome.moved == |collected|
      ensures Distinct(collected)
      ensures forall f :: f in collected ==> Discoverable(old(files), directory, f)
      ensures outcome.Sorted? ==> forall f :: Discoverable(old(files), directory, f) ==> f in collected
      ensures outcome.Sorted? <==>
        FirstBlocked(old(files), old(dirs), directory, 0) == |Names| &&
        forall k :: 0 <= k < |collected| ==> CategoryFolder(directory, collected[k]) !in old(files)
      ensures forall k :: 0 <= k < outcome.moved ==> CategoryFolder(directory, collected[k]) !in old(files)
      ensures outcome.Failed? ==>
        if FirstBlocked(old(files), old(dirs), directory, 0) < |Names| then collected == []
        else outcome.moved < |collected| && CategoryFolder(directory, collected[outcome.moved]) in old(files)
      ensures Relocated(old(files), old(dirs), directory, collected, targets, files)
      ensures AllFirstFree(old(files), old(dirs) + NewDirs(old(files), old(dirs), directory, |Names|),
                           directory, collected, targets)
      ensures outcome.Sorted? ==>
        dirs == Pruned(files, old(dirs) + NewDirs(old(files), old(dirs), directory, |Names|), directory)
      ensures outcome.Failed? ==>
        dirs == old(dirs) + NewDirs(old(files), old(dirs), directory, FirstBlocked(old(files), old(dirs), directory, 0))
    {
      collected, targets := [], [];
      var ok := Provision(directory);
      if !ok {
        return Failed(0), collected, targets;
      }
      ghost var dirs1 := dirs;
      collected := GetAllFiles(directory);
      ProvisionedCategoryFolders(files, dirs, directory, collected);
      var moved;
      moved, ok, targets := MoveAll(directory, collected);
      RelocatedFewerDirs(old(files), old(dirs), dirs1, directory, collected, targets, files);
      if !ok {
        return Failed(moved), collected, targets;
      }
      Cleanup(directory);
      outcome := Sorted(moved);
    }
  }

  /** Cleanup never removes the chosen folder itself, a folder outside it, or
      a folder named like a category. */
  lemma CleanupKeeps(files: set<Path>, dirs: set<Path>, root: Path, d: Path)
    requires d in dirs && (IsBelow(root, d) ==> IsCategory(Basename(d)))
    ensures d in Pruned(files, dirs, root)
  {
    assert IsPrefix(d, d);
  }

  /** A folder below the chosen one that holds nothing and is not named like
      a category is removed, also inside a category folder. */
  lemma CleanupRemovesEmpty(files: set<Path>, dirs: set<Path>, root: Path, d: Path)
    requires d in dirs && IsBelow(root, d) && !IsCategory(Basename(d))
    requires forall f :: f in files ==> !IsBelow(d, f)
    requires forall x :: x in dirs ==> !IsBelow(d, x)
    ensures d !in Pruned(files, dirs, root)
  {
    forall x | x in dirs && IsPrefix(d, x) && |x| > 0 ensures !IsCategory(Basename(x)) {
      assert x == d;
    }
  }

  /** A folder survives cleanup when it holds a file or a surviving
      subfolder, so the folders of the remaining files stay. */
  lemma CleanupKeepsNonEmpty(files: set<Path>, dirs: set<Path>, root: Path, d: Path, x: Path)
    requires d in dirs && IsPrefix(d, x) && (x in files || x in Pruned(files, dirs, root))
    requires x in files ==> x != d
    ensures d in Pruned(files, dirs, root)
  {
    if x in files {
      assert IsBelow(d, x);
    } else if IsBelow(root, x) {
      if Prunable(files, dirs, d) {
        forall y | y in dirs && IsPrefix(x, y) && |y| > 0 ensures !IsCategory(Basename(y)) {
          PrefixTransitive(d, x, y);
        }
      }
    }
  }

  /** os.listdir(d) is empty in the state (files, dirs). */
  predicate EmptyDir(files: set<Path>, dirs: set<Path>, d: Path) {
    (forall f :: f in files && |f| > 0 ==> Parent(f) != d) &&
    (forall x :: x in dirs && |x| > 0 ==> Parent(x) != d)
  }

  /** The folders left while the bottom-up walk under root still has the
      folders of `pending` to examine. */
  ghost function PrunedExcept(files: set<Path>, dirs0: set<Path>, root: Path, pending: set<Path>): set<Path> {
    set d | d in dirs0 && !(IsBelow(root, d) && d !in pending && Prunable(files, dirs0, d))
  }

  /** In a prefix-closed set of folders, the folder on the way from d down
      to a folder x below it is one of d's subfolders. */
  lemma ChildOnTheWay(dirs: set<Path>, d: Path, x: Path)
    requires forall y, q :: y in dirs && IsPrefix(q, y) ==> q in dirs
    requires x in dirs && IsBelow(d, x)
    ensures x[..|d| + 1] in dirs && |x[..|d| + 1]| > 0 && Parent(x[..|d| + 1]) == d
    ensures IsPrefix(x[..|d| + 1], x)
  {
    assert IsPrefix(x[..|d| + 1], x);
  }

  /** Removing an empty folder keeps the filesystem well formed. */
  lemma RemoveEmptyDir(files: set<Path>, dirs: set<Path>, d: Path)
    requires WellFormed(files, dirs) && EmptyDir(files, dirs, d) && |d| > 0
    ensures WellFormed(files, dirs - {d})
  {
    forall x, q | x in dirs - {d} && IsPrefix(q, x) ensures q in dirs - {d} {
      if q == d {
        assert x != d && IsPrefix(d, x);
        ChildOnTheWay(dirs, d, x);
      }
    }
  }

  /** Examining d removes it exactly when it is prunable; the other folders
      are untouched. */
  lemma ExamineOne(files: set<Path>, dirs0: set<Path>, root: Path, pending: set<Path>, d: Path)
    requires d in pending && d in dirs0 && IsBelow(root, d)
    ensures PrunedExcept(files, dirs0, root, pending - {d}) ==
      if Prunable(files, dirs0, d) then PrunedExcept(files, dirs0, root, pending) - {d}
      else PrunedExcept(files, dirs0, root, pending)
  {
  }

  /** When everything below d has been examined, d is empty exactly when it
      holds no file and all its subfolders were prunable. */
  lemma EmptyAfterChildren(files: set<Path>, dirs0: set<Path>, root: Path, pending: set<Path>, d: Path)
    requires forall x :: x in pending ==> x in dirs0 && IsBelow(root, x)
    requires d in pending && forall x :: x in pending ==> !IsBelow(d, x)
    ensures EmptyDir(files, PrunedExcept(files, dirs0, root, pending), d) <==>
      (forall f :: f in files && |f| > 0 ==> Parent(f) != d) &&
      (forall c :: c in dirs0 && |c| > 0 && Parent(c) == d ==> Prunable(files, dirs0, c))
  {
    var dirs := PrunedExcept(files, dirs0, root, pending);
    forall c | c in dirs0 && |c| > 0 && Parent(c) == d ensures c in dirs <==> !Prunable(files, dirs0, c) {
      assert IsBelow(d, c);
      PrefixTransitive(root, d, c);
    }
  }

  /** One step of the bottom-up walk: once everything below d has been
      examined, d is removed when it is empty and not named like a category,
      and that agrees with the closed form. */
  lemma CleanupStep(files: set<Path>, dirs0: set<Path>, root: Path, pending: set<Path>, d: Path)
    requires WellFormed(files, dirs0)
    requires forall x :: x in pending ==> x in dirs0 && IsBelow(root, x)
    requires d in pending && forall x :: x in pending ==> !IsBelow(d, x)
    ensures
      var dirs := PrunedExcept(files, dirs0, root, pending);
      PrunedExcept(files, dirs0, root, pending - {d}) ==
        if EmptyDir(files, dirs, d) && !IsCategory(Basename(d)) then dirs - {d} else dirs
  {
    PrunableStep(files, dirs0, d);
    EmptyAfterChildren(files, dirs0, root, pending, d);
    ExamineOne(files, dirs0, root, pending, d);
  }

  lemma ElemsSplit(s: seq<Path>, i: nat)
    requires i < |s|
    ensures Elems(s[..i + 1]) == Elems(s[..i]) + {s[i]}
    ensures Elems(s[i..]) == {s[i]} + Elems(s[i + 1..])
  {
    assert s[..i + 1] == s[..i] + [s[i]];
    assert s[i..] == [s[i]] + s[i + 1..];
  }

  /** Appending a new path keeps a sequence free of repeats. */
  lemma ElemsSnoc(s: seq<Path>, x: Path)
    requires Distinct(s) && x !in Elems(s)
    ensures Distinct(s + [x]) && Elems(s + [x]) == Elems(s) + {x}
  {
    assert forall k :: 0 <= k < |s| ==> s[k] in Elems(s);
  }

  lemma DistinctApart(s: seq<Path>, i: nat)
    requires Distinct(s) && i < |s|
    ensures s[i] !in Elems(s[..i]) && s[i] !in Elems(s[i + 1..])
  {
  }

  /** Moving src to a fresh dst, as set algebra: the moved set gains src and
      the placed set gains dst, and the number of files does not change. */
  lemma SwapStep(files1: set<Path>, gone: set<Path>, placed: set<Path>, files: set<Path>, src: Path, dst: Path)
    requires files == files1 - gone + placed && placed !! files1
    requires src in files1 && src !in gone && dst !in files1 && dst !in files
    ensures src in files
    ensures files - {src} + {dst} == files1 - (gone + {src}) + (placed + {dst})
  {
  }

  lemma AllPlacedSnoc(directory: Path, collected: seq<Path>, targets: seq<Path>, dst: Path,
                      category: string, n: nat)
    requires AllPlaced(directory, collected, targets) && |targets| < |collected|
    requires |collected[|targets|]| > 0
    requires category == CategoryOf(Extension(Basename(collected[|targets|])))
    requires dst == Slot(directory, category, Basename(collected[|targets|]), n)
    ensures AllPlaced(directory, collected, targets + [dst])
  {
    assert (targets + [dst])[..|targets|] == targets;
    assert Placed(directory, collected[|targets|], dst);
  }

  /** AllPlaced read index by index: the k-th collected file went to the
      k-th target, for every k below |targets|. */
  lemma {:induction false} AllPlacedAt(directory: Path, collected: seq<Path>, targets: seq<Path>, k: nat)
    requires AllPlaced(directory, collected, targets) && k < |targets|
    ensures Placed(directory, collected[k], targets[k])
    decreases |targets|
  {
    if k < |targets| - 1 {
      AllPlacedAt(directory, collected, targets[..|targets| - 1], k);
    }
  }

  /** One move of the pipeline, on values: moving the next collected file
      to a destination that exists nowhere and is not a collected file keeps
      the bookkeeping of what has moved where, and the number of files. */
  lemma MoveStep(files1: set<Path>, dirs1: set<Path>, collected: seq<Path>, moved: nat,
                 targets: seq<Path>, files: set<Path>, dst: Path)
    requires moved < |collected| && Distinct(collected) && Elems(collected) <= files1
    requires files == files1 - Elems(collected[..moved]) + Elems(targets)
    requires Elems(targets) <= files && Elems(targets) !! files1 && Elems(targets) !! dirs1
    requires Elems(collected[moved..]) <= files
    requires Distinct(targets)
    requires dst !in files && dst !in dirs1 && dst !in Elems(collected)
    ensures
      var src := collected[moved];
      var files' := files - {src} + {dst};
      src in files && Distinct(targets + [dst]) &&
      files' == files1 - Elems(collected[..moved + 1]) + Elems(targets + [dst]) &&
      Elems(targets + [dst]) <= files' && Elems(targets + [dst]) !! files1 &&
      Elems(targets + [dst]) !! dirs1 &&
      Elems(collected[moved + 1..]) <= files'
  {
    var src := collected[moved];
    ElemsSplit(collected, moved);
    DistinctApart(collected, moved);
    assert dst !in files1;
    SwapStep(files1, Elems(collected[..moved]), Elems(targets), files, src, dst);
    ElemsSnoc(targets, dst);
  }

  /** The bookkeeping of the move loop after `moved` files: the first
      `moved` collected files have gone to `targets`, which existed nowhere
      before the loop, and the rest are still in place. */
  ghost predicate MoveInv(files1: set<Path>, dirs1: set<Path>, directory: Path, collected: seq<Path>,
                          moved: nat, targets: seq<Path>, files: set<Path>) {
    |targets| == moved && Relocated(files1, dirs1, directory, collected, targets, files) &&
    Elems(targets) <= files && Elems(collected[moved..]) <= files
  }

  /** MoveInv together with what the loop learned about the category folders
      and the names chosen. */
  ghost predicate MoveLoop(files1: set<Path>, dirs1: set<Path>, directory: Path, collected: seq<Path>,
                           moved: nat, targets: seq<Path>, files: set<Path>) {
    MoveInv(files1, dirs1, directory, collected, moved, targets, files) &&
    FoldersFound(directory, collected, moved, dirs1) &&
    AllFirstFree(files1, dirs1, directory, collected, targets)
  }

  lemma NextStillThere(files1: set<Path>, dirs1: set<Path>, directory: Path, collected: seq<Path>,
                       moved: nat, targets: seq<Path>, files: set<Path>)
    requires MoveLoop(files1, dirs1, directory, collected, moved, targets, files) && moved < |collected|
    ensures collected[moved] in files
  {
    assert collected[moved] in Elems(collected[moved..]);
  }

  /** The candidates for a file lie directly in its category folder. */
  lemma SlotFolder(directory: Path, file: Path, n: nat)
    requires |file| > 0
    ensures
      var dst := Slot(directory, CategoryOf(Extension(Basename(file))), Basename(file), n);
      |dst| > 0 && Parent(dst) == CategoryFolder(directory, file)
  {
  }

  /** A successful move of the next collected file to its least free
      candidate keeps the loop's bookkeeping. */
  lemma MoveLoopNext(files1: set<Path>, dirs1: set<Path>, directory: Path, collected: seq<Path>,
                     moved: nat, targets: seq<Path>, files: set<Path>, dst: Path, n: nat)
    requires MoveLoop(files1, dirs1, directory, collected, moved, targets, files)
    requires moved < |collected| && Distinct(collected)
    requires forall f :: f in collected ==> Discoverable(files1, directory, f)
    requires
      var src := collected[moved];
      |src| > 0 &&
      var category, name := CategoryOf(Extension(Basename(src))), Basename(src);
      dst == Slot(directory, category, name, n) && LeastFree(files, dirs1, directory, category, name, n)
    ensures CategoryFolder(directory, collected[moved]) in dirs1 ==>
      MoveLoop(files1, dirs1, directory, collected, moved + 1, targets + [dst],
               files - {collected[moved]} + {dst})
  {
    if CategoryFolder(directory, collected[moved]) !in dirs1 { return; }
    MoveNext(files1, dirs1, directory, collected, moved, targets, files, dst, n);
    AllFirstFreeSnoc(files1, dirs1, directory, collected, targets, files, dst, n);
    FoldersFoundSnoc(directory, collected, moved, dirs1);
  }

  /** Moving files out of (files0, dirs0) left the state `files`: the first
      |targets| collected files went, in order, to the targets, which are
      distinct, each in the category folder of its source under a numbered
      variant of its name, and none of which existed before; nothing else
      changed. */
  ghost predicate Relocated(files0: set<Path>, dirs0: set<Path>, directory: Path, collected: seq<Path>,
                            targets: seq<Path>, files: set<Path>) {
    |targets| <= |collected| && Distinct(targets) && AllPlaced(directory, collected, targets) &&
    Elems(targets) !! files0 && Elems(targets) !! dirs0 &&
    files == files0 - Elems(collected[..|targets|]) + Elems(targets)
  }

  /** After every collected file has moved, nothing is left to collect: a
      second run finds no file outside the category folders and moves
      nothing. */
  lemma NothingLeftToCollect(files0: set<Path>, dirs0: set<Path>, directory: Path, collected: seq<Path>,
                             targets: seq<Path>, files: set<Path>)
    requires Relocated(files0, dirs0, directory, collected, targets, files)
    requires |targets| == |collected|
    requires forall f :: Discoverable(files0, directory, f) ==> f in collected
    ensures forall f :: f in files ==> !Discoverable(files, directory, f)
  {
    assert collected[..|targets|] == collected;
    forall f | f in files ensures !Discoverable(files, directory, f) {
      if f in Elems(targets) {
        var k :| 0 <= k < |targets| && targets[k] == f;
        AllPlacedAt(directory, collected, targets, k);
        var src := collected[k];
        var n: nat :| f == Slot(directory, CategoryOf(Extension(Basename(src))), Basename(src), n);
        CategoryOfIsCategory(Extension(Basename(src)));
        TargetNotDiscoverable(files, directory, CategoryOf(Extension(Basename(src))), NumberedName(Basename(src), n));
      } else {
        assert f in files0 && f !in Elems(collected);
      }
    }
  }

  /** A sequence without repeats has as many elements as its set. */
  lemma {:induction false} DistinctCount(s: seq<Path>)
    requires Distinct(s)
    ensures |Elems(s)| == |s|
  {
    if s != [] {
      var init := s[..|s| - 1];
      assert s == init + [s[|s| - 1]];
      DistinctCount(init);
      assert Elems(s) == Elems(init) + {s[|s| - 1]};
    }
  }

  /** Relocation moves files and creates none: the number of files is the
      same before and after. */
  lemma RelocationKeepsCount(files0: set<Path>, dirs0: set<Path>, directory: Path, collected: seq<Path>,
                             targets: seq<Path>, files: set<Path>)
    requires Relocated(files0, dirs0, directory, collected, targets, files)
    requires Distinct(collected) && Elems(collected) <= files0
    ensures |files| == |files0|
  {
    var gone := collected[..|targets|];
    assert Distinct(gone);
    assert Elems(gone) <= files0;
    DistinctCount(gone);
    DistinctCount(targets);
    var rest := files0 - Elems(gone);
    assert |rest| == |files0| - |Elems(gone)|;
    assert rest !! Elems(targets);
    assert |rest + Elems(targets)| == |rest| + |Elems(targets)|;
  }

  /** Targets that avoid a set of folders avoid any subset of it. */
  lemma RelocatedFewerDirs(files0: set<Path>, dirs0: set<Path>, dirs1: set<Path>, directory: Path,
                           collected: seq<Path>, targets: seq<Path>, files: set<Path>)
    requires dirs0 <= dirs1 && Relocated(files0, dirs1, directory, collected, targets, files)
    ensures Relocated(files0, dirs0, directory, collected, targets, files)
  {
  }

  /** Moving the next collected file to the free slot of its category keeps
      the bookkeeping of the move loop. */
  lemma MoveNext(files1: set<Path>, dirs1: set<Path>, directory: Path, collected: seq<Path>,
                 moved: nat, targets: seq<Path>, files: set<Path>, dst: Path, n: nat)
    requires MoveInv(files1, dirs1, directory, collected, moved, targets, files)
    requires moved < |collected| && Distinct(collected)
    requires forall f :: f in collected ==> Discoverable(files1, directory, f)
    requires
      var src := collected[moved];
      |src| > 0 &&
      dst == Slot(directory, CategoryOf(Extension(Basename(src))), Basename(src), n)
    requires dst !in files && dst !in dirs1
    ensures collected[moved] in files
    ensures MoveInv(files1, dirs1, directory, collected, moved + 1, targets + [dst],
                    files - {collected[moved]} + {dst})
  {
    var src := collected[moved];
    var category := CategoryOf(Extension(Basename(src)));
    CategoryOfIsCategory(Extension(Basename(src)));
    TargetNotDiscoverable(files1, directory, category, NumberedName(Basename(src), n));
    MoveStep(files1, dirs1, collected, moved, targets, files, dst);
    AllPlacedSnoc(directory, collected, targets, dst, category, n);
  }

  /** dirs is the state after provisioning rows [0, i) from (files, dirs0):
      the folders created so far are NewDirs, every row's path exists, and
      each row was either present already or creatable. */
  ghost predicate Provisioned(files: set<Path>, dirs0: set<Path>, directory: Path, i: nat, dirs: set<Path>)
    requires i <= |Names|
  {
    dirs == dirs0 + NewDirs(files, dirs0, directory, i) &&
    forall j :: 0 <= j < i ==>
      (CategoryPath(directory, j) in files || CategoryPath(directory, j) in dirs) &&
      !Blocked(files, dirs0, directory, j)
  }

  /** Provisioning stops at a row whose path is absent with a file on its
      way: that is the first blocked row, and the folders are those of the
      rows before it. */
  lemma ProvisionStops(files: set<Path>, dirs0: set<Path>, directory: Path, i: nat, dirs: set<Path>)
    requires i < |Names| && Provisioned(files, dirs0, directory, i, dirs)
    requires
      var p := CategoryPath(directory, i);
      p !in files && p !in dirs && !NoFileOnPath(files, p)
    ensures FirstBlocked(files, dirs0, directory, 0) == i
    ensures dirs == dirs0 + NewDirs(files, dirs0, directory, i)
  {
    ProvisionRow(files, dirs0, directory, i, dirs);
    assert Blocked(files, dirs0, directory, i);
  }

  /** Provisioning every row: no row was blocked, and every category path
      exists. */
  lemma ProvisionCompletes(files: set<Path>, dirs0: set<Path>, directory: Path, dirs: set<Path>)
    requires Provisioned(files, dirs0, directory, |Names|, dirs)
    ensures FirstBlocked(files, dirs0, directory, 0) == |Names|
    ensures dirs == dirs0 + NewDirs(files, dirs0, directory, |Names|)
    ensures forall i :: 0 <= i < |Names| ==> CategoryPath(directory, i) in files || CategoryPath(directory, i) in dirs
  {
  }

  /** Provisioning row i: leaving its path alone when it exists, or creating
      it with its ancestors when it is absent and creatable, extends the
      provisioned state to rows [0, i]. */
  lemma ProvisionStep(files: set<Path>, dirs0: set<Path>, directory: Path, i: nat,
                      dirs: set<Path>, dirs': set<Path>)
    requires i < |Names| && Provisioned(files, dirs0, directory, i, dirs)
    requires
      var p := CategoryPath(directory, i);
      dirs' == if p in files || p in dirs then dirs else dirs + Prefixes(p)
    requires
      var p := CategoryPath(directory, i);
      p in files || p in dirs || NoFileOnPath(files, p)
    ensures Provisioned(files, dirs0, directory, i + 1, dirs')
  {
    var p := CategoryPath(directory, i);
    ProvisionRow(files, dirs0, directory, i, dirs);
    InPrefixes(p, p);
  }

  /** Provisioning row i once rows [0, i) are done: the row's path exists
      exactly when it did before provisioning, and creating its ancestors when
      absent yields the folders of rows [0, i]. */
  lemma ProvisionRow(files: set<Path>, dirs0: set<Path>, directory: Path, i: nat, dirs: set<Path>)
    requires i < |Names| && dirs == dirs0 + NewDirs(files, dirs0, directory, i)
    ensures
      var p := CategoryPath(directory, i);
      (p in files || p in dirs) == (p in files || p in dirs0) &&
      dirs0 + NewDirs(files, dirs0, directory, i + 1) ==
        if p in files || p in dirs0 then dirs else dirs + Prefixes(p)
  {
    NewDirsAvoidLaterRows(files, dirs0, directory, i);
  }

  /** Provisioning row i never creates the path of a later row, so the
      existence test of each row sees the state before provisioning. */
  lemma {:induction false} NewDirsAvoidLaterRows(files: set<Path>, dirs: set<Path>, directory: Path, n: nat)
    requires n <= |Names|
    ensures forall j :: n <= j < |Names| ==> CategoryPath(directory, j) !in NewDirs(files, dirs, directory, n)
  {
    if n > 0 {
      NewDirsAvoidLaterRows(files, dirs, directory, n - 1);
      TableShape();
      var p := CategoryPath(directory, n - 1);
      forall j | n <= j < |Names| ensures CategoryPath(directory, j) !in Prefixes(p) {
        InPrefixes(p, CategoryPath(directory, j));
        SiblingNotPrefix(directory, Names[j], Names[n - 1]);
      }
    }
  }

  /** Two different names in one folder: neither path is an ancestor of the other. */
  lemma SiblingNotPrefix(directory: Path, a: Segment, b: Segment)
    requires a != b
    ensures !IsPrefix(directory + [a], directory + [b])
  {
    assert (directory + [a])[|directory|] == a;
    assert (directory + [b])[..|directory| + 1][|directory|] == b;
  }

  /** Each probe of the counter search is new: the n-th destination is none
      of the earlier ones. */
  lemma TriedGrows(directory: Path, category: string, name: string, n: nat)
    ensures Slot(directory, category, name, n) !in Tried(directory, category, name, n)
    ensures Tried(directory, category, name, n + 1) ==
            Tried(directory, category, name, n) + {Slot(directory, category, name, n)}
  {
    forall j | 0 <= j < n ensures Slot(directory, category, name, j) != Slot(directory, category, name, n) {
      if Slot(directory, category, name, j) == Slot(directory, category, name, n) {
        assert NumberedName(name, j) == Slot(directory, category, name, j)[|directory| + 1];
        NumberedNameInjective(name, j, n);
      }
    }
  }

  /** A destination inside a category folder is never a file that discovery
      collects, so a collected file is never its own destination and files
      already sorted are never collected again. */
  lemma TargetNotDiscoverable(files: set<Path>, directory: Path, category: string, name: string)
    requires IsCategory(category)
    ensures !Discoverable(files, directory, directory + [category, name])
  {
    var p := directory + [category, name];
    assert Parent(p) == directory + [category];
    assert Parent(p)[|directory|] == category;
  }

  /** A nonempty finite set of paths has a member with nothing of the set
      below it: the walk can always find a folder whose subfolders are done. */
  lemma LeafExists(s: set<Path>)
    requires s != {}
    ensures exists d :: d in s && forall x :: x in s ==> !IsBelow(d, x)
  {
    var d := Deepest(s);
  }

  /** A member of s of greatest length. */
  lemma {:induction false} Deepest(s: set<Path>) returns (d: Path)
    requires s != {}
    ensures d in s && forall x :: x in s ==> |x| <= |d|
    decreases |s|
  {
    var y :| y in s;
    if s == {y} {
      d := y;
    } else {
      var r := Deepest(s - {y});
      d := if |r| < |y| then y else r;
    }
  }

  /** The bottom-up rule and the closed form agree: a folder belongs to a
      prunable subtree exactly when its own name is not a category, it holds
      no file directly, and every subfolder of it is prunable. */
  lemma PrunableStep(files: set<Path>, dirs: set<Path>, d: Path)
    requires WellFormed(files, dirs) && d in dirs && |d| > 0
    ensures Prunable(files, dirs, d) <==>
      !IsCategory(Basename(d)) &&
      (forall f :: f in files && |f| > 0 ==> Parent(f) != d) &&
      (forall c :: c in dirs && |c| > 0 && Parent(c) == d ==> Prunable(files, dirs, c))
  {
    if Prunable(files, dirs, d) {
      PrunableChildren(files, dirs, d);
    }
    if !IsCategory(Basename(d)) &&
       (forall f :: f in files && |f| > 0 ==> Parent(f) != d) &&
       (forall c :: c in dirs && |c| > 0 && Parent(c) == d ==> Prunable(files, dirs, c))
    {
      PrunableFromChildren(files, dirs, d);
    }
  }

  /** A prunable folder is not category-named, holds no file, and all its
      subfolders are prunable. */
  lemma PrunableChildren(files: set<Path>, dirs: set<Path>, d: Path)
    requires d in dirs && |d| > 0 && Prunable(files, dirs, d)
    ensures !IsCategory(Basename(d))
    ensures forall f :: f in files && |f| > 0 ==> Parent(f) != d
    ensures forall c :: c in dirs && |c| > 0 && Parent(c) == d ==> Prunable(files, dirs, c)
  {
    assert IsPrefix(d, d);
    forall c | c in dirs && |c| > 0 && Parent(c) == d ensures Prunable(files, dirs, c) {
      assert forall f :: f in files ==> !IsBelow(c, f);
      forall x | x in dirs && IsPrefix(c, x) && |x| > 0 ensures !IsCategory(Basename(x)) {
        PrefixTransitive(d, c, x);
      }
    }
  }

  /** Conversely, a folder that is not category-named, holds no file and has
      only prunable subfolders is prunable. */
  lemma PrunableFromChildren(files: set<Path>, dirs: set<Path>, d: Path)
    requires WellFormed(files, dirs) && d in dirs && |d| > 0
    requires !IsCategory(Basename(d))
    requires forall f :: f in files && |f| > 0 ==> Parent(f) != d
    requires forall c :: c in dirs && |c| > 0 && Parent(c) == d ==> Prunable(files, dirs, c)
    ensures Prunable(files, dirs, d)
  {
    forall f | f in files ensures !IsBelow(d, f) {
      if IsBelow(d, f) {
        var c := f[..|d| + 1];
        assert IsPrefix(c, Parent(f));
        assert c in dirs && Parent(c) == d;
        assert IsBelow(c, f);
      }
    }
    forall x | x in dirs && IsPrefix(d, x) && |x| > 0 ensures !IsCategory(Basename(x)) {
      if x != d {
        var c := x[..|d| + 1];
        assert IsPrefix(c, x);
        assert c in dirs && Parent(c) == d;
      }
    }
  }

  /** Extending the moves by one more least-free choice. */
  lemma AllFirstFreeSnoc(files0: set<Path>, dirs: set<Path>, directory: Path, collected: seq<Path>,
                         targets: seq<Path>, files: set<Path>, dst: Path, n: nat)
    requires AllFirstFree(files0, dirs, directory, collected, targets) && |targets| < |collected|
    requires files == files0 - Elems(collected[..|targets|]) + Elems(targets)
    requires
      var src := collected[|targets|];
      |src| > 0 &&
      var category, name := CategoryOf(Extension(Basename(src))), Basename(src);
      dst == Slot(directory, category, name, n) && LeastFree(files, dirs, directory, category, name, n)
    ensures AllFirstFree(files0, dirs, directory, collected, targets + [dst])
  {
    var longer := targets + [dst];
    assert longer[..|targets|] == targets;
    assert FilesAt(files0, collected, longer, |targets|) == files;
    assert FirstFree(files, dirs, directory, collected[|targets|], dst);
  }

  /** AllFirstFree read index by index: the k-th target was the least free
      candidate in the state of the k-th move. */
  lemma {:induction false} AllFirstFreeAt(files0: set<Path>, dirs: set<Path>, directory: Path,
                                          collected: seq<Path>, targets: seq<Path>, k: nat)
    requires AllFirstFree(files0, dirs, directory, collected, targets) && k < |targets|
    ensures FirstFree(FilesAt(files0, collected, targets, k), dirs, directory, collected[k], targets[k])
    decreases |targets|
  {
    if k < |targets| - 1 {
      var shorter := targets[..|targets| - 1];
      FilesAtShorter(files0, collected, targets, k);
      AllFirstFreeAt(files0, dirs, directory, collected, shorter, k);
    }
  }

  lemma FilesAtShorter(files0: set<Path>, collected: seq<Path>, targets: seq<Path>, k: nat)
    requires k < |targets| - 1 && k <= |collected|
    ensures targets[..|targets| - 1][k] == targets[k]
    ensures FilesAt(files0, collected, targets[..|targets| - 1], k) == FilesAt(files0, collected, targets, k)
  {
    assert targets[..|targets| - 1][..k] == targets[..k];
  }

  /** The least free candidate is determined by the state: two least free
      candidates for one file are the same path. */
  lemma FirstFreeUnique(files: set<Path>, dirs: set<Path>, directory: Path, src: Path, a: Path, b: Path)
    requires FirstFree(files, dirs, directory, src, a) && FirstFree(files, dirs, directory, src, b)
    ensures a == b
  {
    var category, name := CategoryOf(Extension(Basename(src))), Basename(src);
    var na: nat :| a == Slot(directory, category, name, na) && LeastFree(files, dirs, directory, category, name, na);
    var nb: nat :| b == Slot(directory, category, name, nb) && LeastFree(files, dirs, directory, category, name, nb);
  }

  /** A file whose own name is free in its category folder keeps that name. */
  lemma FreeNameKept(files: set<Path>, dirs: set<Path>, directory: Path, src: Path, dst: Path)
    requires FirstFree(files, dirs, directory, src, dst)
    requires
      var p := directory + [CategoryOf(Extension(Basename(src))), Basename(src)];
      p !in files && p !in dirs
    ensures dst == directory + [CategoryOf(Extension(Basename(src))), Basename(src)]
  {
    var category, name := CategoryOf(Extension(Basename(src))), Basename(src);
    assert Slot(directory, category, name, 0) == directory + [category, name];
    assert FirstFree(files, dirs, directory, src, Slot(directory, category, name, 0));
    FirstFreeUnique(files, dirs, directory, src, dst, Slot(directory, category, name, 0));
  }

  /** Every proper ancestor of an existing path is a folder. */
  lemma ExistingAncestors(files: set<Path>, dirs: set<Path>, p: Path)
    ensures WellFormed(files, dirs) && (p in files || p in dirs) ==>
      forall k :: 0 <= k < |p| ==> p[..k] in dirs
  {
    if WellFormed(files, dirs) && (p in files || p in dirs) {
      forall k | 0 <= k < |p| ensures p[..k] in dirs {
        if p in files {
          assert IsPrefix(p[..k], Parent(p));
        } else {
          assert IsPrefix(p[..k], p);
        }
      }
    }
  }

  /** In a well-formed state a folder's listing is empty exactly when no
      file and no folder lies below it. */
  lemma EmptyDirHoldsNothing(files: set<Path>, dirs: set<Path>, d: Path)
    ensures WellFormed(files, dirs) ==>
      (EmptyDir(files, dirs, d) <==> forall x :: x in files || x in dirs ==> !IsBelow(d, x))
  {
    if WellFormed(files, dirs) && EmptyDir(files, dirs, d) {
      forall x | x in files || x in dirs ensures !IsBelow(d, x) {
        if IsBelow(d, x) {
          if x in dirs {
            ChildOnTheWay(dirs, d, x);
          } else if |x| > |d| + 1 {
            assert IsBelow(d, Parent(x));
            ChildOnTheWay(dirs, d, Parent(x));
          }
        }
      }
    }
  }

  /** Once provisioning succeeded, a category folder is a folder exactly
      when it is not a file: every category path exists as one or the other. */
  lemma ProvisionedCategoryFolder(files: set<Path>, dirs: set<Path>, directory: Path, f: Path)
    requires WellFormed(files, dirs)
    requires forall i :: 0 <= i < |Names| ==> CategoryPath(directory, i) in files || CategoryPath(directory, i) in dirs
    ensures CategoryFolder(directory, f) in dirs <==> CategoryFolder(directory, f) !in files
  {
    var ext := Extension(if |f| == 0 then "" else Basename(f));
    CategoryOfIsCategory(ext);
    var i :| 0 <= i < |Names| && Names[i] == CategoryOf(ext);
    assert CategoryPath(directory, i) == CategoryFolder(directory, f);
  }

  /** ProvisionedCategoryFolder for every collected file at once. */
  lemma ProvisionedCategoryFolders(files: set<Path>, dirs: set<Path>, directory: Path, collected: seq<Path>)
    requires WellFormed(files, dirs)
    requires forall i :: 0 <= i < |Names| ==> CategoryPath(directory, i) in files || CategoryPath(directory, i) in dirs
    ensures forall k :: 0 <= k < |collected| ==>
      (CategoryFolder(directory, collected[k]) in dirs <==> CategoryFolder(directory, collected[k]) !in files)
  {
    forall k | 0 <= k < |collected|
      ensures CategoryFolder(directory, collected[k]) in dirs <==> CategoryFolder(directory, collected[k]) !in files
    {
      ProvisionedCategoryFolder(files, dirs, directory, collected[k]);
    }
  }

  /** Provisioning stops at no row exactly when every category path exists
      already or has no file on its way. */
  lemma NoRowBlocked(files: set<Path>, dirs: set<Path>, directory: Path)
    ensures FirstBlocked(files, dirs, directory, 0) == |Names| <==>
      forall i :: 0 <= i < |Names| ==>
        CategoryPath(directory, i) in files || CategoryPath(directory, i) in dirs ||
        NoFileOnPath(files, CategoryPath(directory, i))
  {
    var r := FirstBlocked(files, dirs, directory, 0);
    if r < |Names| {
      assert Blocked(files, dirs, directory, r);
    }
  }
}
