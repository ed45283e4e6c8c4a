/**
 * `TodoSearchEngine.walk` of ReviewMyself.py: the files to scan under each
 * root, with sub-directories whose names match an ignore pattern pruned
 * before descent and file names kept only when they match a care pattern
 * (when any care pattern is configured).
 */
module ReviewMyselfWalk {
  import opened Wrappers
  import opened FileTree
  import opened ReviewMyselfUtil

  /** `filenames` after `filenames[:] = ...`: only reassigned when care patterns exist. */
  function KeptFileNames(children: seq<Node>, care: seq<string>): seq<string> {
    if |care| > 0 then Filtered(FileNames(children), care, true) else FileNames(children)
  }

  /** `dirnames` after `dirnames[:] = ...`: only reassigned when ignore patterns exist. */
  function KeptDirNames(children: seq<Node>, ignored: seq<string>): seq<string> {
    if |ignored| > 0 then Filtered(DirNames(children), ignored, false) else DirNames(children)
  }

  /**
   * The file paths the top-down `os.walk` loop yields below `dirpath`: the
   * kept files of the directory, then the walks of the kept sub-directories.
   * Pruned sub-directories are never entered.
   */
  function WalkDir(dirpath: Path, node: Node, care: seq<string>, ignored: seq<string>): seq<Path>
    decreases node, 1
  {
    match node
    case File(_, _) => []
    case Dir(_, children) =>
      Joined(dirpath, KeptFileNames(children, care))
      + WalkSubdirs(dirpath, node, KeptDirNames(children, ignored), care, ignored)
  }

  function WalkSubdirs(dirpath: Path, dir: Node, names: seq<string>, care: seq<string>, ignored: seq<string>): seq<Path>
    requires dir.Dir?
    decreases dir, 0, |names|
  {
    if names == [] then []
    else WalkSubdirs(dirpath, dir, names[..|names| - 1], care, ignored)
         + WalkSubdir(dirpath, dir, names[|names| - 1], care, ignored)
  }

  function WalkSubdir(dirpath: Path, dir: Node, name: string, care: seq<string>, ignored: seq<string>): seq<Path>
    requires dir.Dir?
    decreases dir, 0, 0
  {
    match ChildNamed(dir.children, name)
    case None => []
    case Some(child) => WalkDir(dirpath + [name], child, care, ignored)
  }

  /**
   * What one root contributes: nothing when it does not exist, the root
   * itself when it is a file (unfiltered), else the walk below it.
   */
  function WalkRoot(fs: Node, root: Path, care: seq<string>, ignored: seq<string>): (r: seq<Path>)
    ensures Lookup(fs, root).None? ==> r == []
    ensures Lookup(fs, root).Some? && Lookup(fs, root).value.File? ==> r == [root]
  {
    match Lookup(fs, root)
    case None => []
    case Some(node) => (if node.File? then [root] else []) + WalkDir(root, node, care, ignored)
  }

  /** `walk()`: the roots in order, each contributing `WalkRoot`. */
  function WalkRoots(fs: Node, roots: seq<Path>, care: seq<string>, ignored: seq<string>): seq<Path> {
    if roots == [] then []
    else WalkRoots(fs, roots[..|roots| - 1], care, ignored) + WalkRoot(fs, roots[|roots| - 1], care, ignored)
  }

  /**
   * The walk for one directory, as `os.walk(top, topdown=True)` drives it:
   * the directory's lists are filtered in place, its files yielded, and then
   * the sub-directories left in `dirnames` walked in order.
   */
  method OsWalk(dirpath: Path, node: Node, care: seq<string>, ignored: seq<string>) returns (paths: seq<Path>)
    ensures paths == WalkDir(dirpath, node, care, ignored)
    decreases node, 1
  {
    if node.File? {
      return [];
    }
    var filenames := FileNames(node.children);
    var dirnames := DirNames(node.children);
    if |care| > 0 {
      filenames := FilterByUnixPatterns(filenames, care, true);
    }
    if |ignored| > 0 {
      dirnames := FilterByUnixPatterns(dirnames, ignored, false);
    }
    paths := JoinNames(dirpath, filenames);
    var below := WalkSubdirectories(dirpath, node, dirnames, care, ignored);
    WalkDirSplit(dirpath, node, care, ignored, filenames, dirnames);
    paths := paths + below;
  }

  /** The paths `os.path.join(dirpath, name)` of the kept file names, yielded in order. */
  method JoinNames(dirpath: Path, names: seq<string>) returns (paths: seq<Path>)
    ensures paths == Joined(dirpath, names)
  {
    paths := [];
    for i := 0 to |names|
      invariant paths == Joined(dirpath, names[..i])
    {
      paths := paths + [dirpath + [names[i]]];
    }
    assert names[..|names|] == names;
  }

  lemma WalkDirSplit(dirpath: Path, node: Node, care: seq<string>, ignored: seq<string>, filenames: seq<string>, dirnames: seq<string>)
    requires node.Dir?
    requires filenames == KeptFileNames(node.children, care) && dirnames == KeptDirNames(node.children, ignored)
    ensures WalkDir(dirpath, node, care, ignored) == Joined(dirpath, filenames) + WalkSubdirs(dirpath, node, dirnames, care, ignored)
  {
  }

  /** The second half of one `os.walk` step: descend into each name left in `dirnames`, in order. */
  method WalkSubdirectories(dirpath: Path, node: Node, dirnames: seq<string>, care: seq<string>, ignored: seq<string>)
    returns (paths: seq<Path>)
    requires node.Dir?
    ensures paths == WalkSubdirs(dirpath, node, dirnames, care, ignored)
    decreases node, 0
  {
    paths := [];
    for i := 0 to |dirnames|
      invariant paths == WalkSubdirs(dirpath, node, dirnames[..i], care, ignored)
    {
      var below := WalkOneSubdirectory(dirpath, node, dirnames[i], care, ignored);
      WalkSubdirsStep(dirpath, node, dirnames, i, care, ignored);
      paths := paths + below;
    }
    assert dirnames[..|dirnames|] == dirnames;
  }

  /** Descending into one name of `dirnames`: nothing when no entry has that name. */
  method WalkOneSubdirectory(dirpath: Path, node: Node, name: string, care: seq<string>, ignored: seq<string>)
    returns (paths: seq<Path>)
    requires node.Dir?
    ensures paths == WalkSubdir(dirpath, node, name, care, ignored)
    decreases node, 0, 0
  {
    paths := [];
    var found := ChildNamed(node.children, name);
    if found.Some? {
      paths := OsWalk(dirpath + [name], found.value, care, ignored);
    }
  }

  lemma WalkSubdirsStep(dirpath: Path, node: Node, names: seq<string>, i: nat, care: seq<string>, ignored: seq<string>)
    requires node.Dir? && i < |names|
    ensures WalkSubdirs(dirpath, node, names[..i + 1], care, ignored)
            == WalkSubdirs(dirpath, node, names[..i], care, ignored) + WalkSubdir(dirpath, node, names[i], care, ignored)
  {
    assert names[..i + 1][..i] == names[..i];
  }

  /** `TodoSearchEngine.walk` over the configured roots. */
  method Walk(fs: Node, pathsToSearch: seq<Path>, care: seq<string>, ignored: seq<string>) returns (paths: seq<Path>)
    ensures paths == WalkRoots(fs, pathsToSearch, care, ignored)
  {
    paths := [];
    for i := 0 to |pathsToSearch|
      invariant paths == WalkRoots(fs, pathsToSearch[..i], care, ignored)
    {
      var found := WalkOneRoot(fs, pathsToSearch[i], care, ignored);
      WalkRootsStep(fs, pathsToSearch, i, care, ignored);
      paths := paths + found;
    }
    assert pathsToSearch[..|pathsToSearch|] == pathsToSearch;
  }

  /** One pass of the loop over the roots: the root itself when it is a file, then `os.walk(root)`. */
  method WalkOneRoot(fs: Node, root: Path, care: seq<string>, ignored: seq<string>) returns (paths: seq<Path>)
    ensures paths == WalkRoot(fs, root, care, ignored)
  {
    paths := [];
    match Lookup(fs, root) {
      case None =>
      case Some(node) =>
        if node.File? {
          paths := [root];
        }
        var below := OsWalk(root, node, care, ignored);
        paths := paths + below;
    }
  }

  lemma WalkRootsStep(fs: Node, roots: seq<Path>, i: nat, care: seq<string>, ignored: seq<string>)
    requires i < |roots|
    ensures WalkRoots(fs, roots[..i + 1], care, ignored) == WalkRoots(fs, roots[..i], care, ignored) + WalkRoot(fs, roots[i], care, ignored)
  {
    assert roots[..i + 1][..i] == roots[..i];
  }

  /**
   * `rel` leads from directory `node` to a file the walk keeps: every
   * directory on the way has a name no ignore pattern matches, and the file
   * name matches a care pattern when care patterns exist.
   */
  predicate Eligible(node: Node, rel: Path, care: seq<string>, ignored: seq<string>)
    decreases |rel|
  {
    node.Dir? && |rel| >= 1 &&
    if |rel| == 1 then
      rel[0] in FileNames(node.children) && (|care| > 0 ==> IsMatchUnixPatterns(rel[0], care))
    else
      rel[0] in DirNames(node.children) && !IsMatchUnixPatterns(rel[0], ignored) &&
      match ChildNamed(node.children, rel[0])
      case None => false
      case Some(child) => Eligible(child, rel[1..], care, ignored)
  }

  lemma {:induction false} WalkDirSound(dirpath: Path, node: Node, care: seq<string>, ignored: seq<string>, p: Path)
    requires p in WalkDir(dirpath, node, care, ignored)
    ensures |p| > |dirpath| && p[..|dirpath|] == dirpath && Eligible(node, p[|dirpath|..], care, ignored)
    decreases node, 1
  {
    var files := Joined(dirpath, KeptFileNames(node.children, care));
    if p in files {
      var i :| 0 <= i < |files| && files[i] == p;
      assert p[|dirpath|..] == [KeptFileNames(node.children, care)[i]];
    } else {
      WalkSubdirsSound(dirpath, node, KeptDirNames(node.children, ignored), care, ignored, p);
    }
  }

  lemma {:induction false} WalkSubdirsSound(dirpath: Path, dir: Node, names: seq<string>, care: seq<string>, ignored: seq<string>, p: Path)
    requires dir.Dir? && p in WalkSubdirs(dirpath, dir, names, care, ignored)
    requires forall n :: n in names ==> n in DirNames(dir.children) && !IsMatchUnixPatterns(n, ignored)
    ensures |p| > |dirpath| && p[..|dirpath|] == dirpath && Eligible(dir, p[|dirpath|..], care, ignored)
    decreases dir, 0, |names|
  {
    var init, last := names[..|names| - 1], names[|names| - 1];
    if p in WalkSubdirs(dirpath, dir, init, care, ignored) {
      assert forall n :: n in init ==> n in names;
      WalkSubdirsSound(dirpath, dir, init, care, ignored, p);
    } else {
      assert p in WalkSubdir(dirpath, dir, last, care, ignored);
      var child := ChildNamed(dir.children, last).value;
      WalkDirSound(dirpath + [last], child, care, ignored, p);
      EligibleThroughChild(dirpath, dir, last, child, care, ignored, p);
    }
  }

  /** A file eligible below a kept sub-directory is eligible below its parent. */
  lemma EligibleThroughChild(dirpath: Path, dir: Node, name: string, child: Node, care: seq<string>, ignored: seq<string>, p: Path)
    requires dir.Dir? && name in DirNames(dir.children) && !IsMatchUnixPatterns(name, ignored)
    requires ChildNamed(dir.children, name) == Some(child)
    requires |p| > |dirpath + [name]| && p[..|dirpath + [name]|] == dirpath + [name]
    requires Eligible(child, p[|dirpath + [name]|..], care, ignored)
    ensures |p| > |dirpath| && p[..|dirpath|] == dirpath && Eligible(dir, p[|dirpath|..], care, ignored)
  {
    var rel := p[|dirpath|..];
    assert p[..|dirpath|] == p[..|dirpath| + 1][..|dirpath|];
    assert p[|dirpath|] == name by {
      assert p[..|dirpath| + 1][|dirpath|] == p[|dirpath|];
    }
    DropFirst(p, |dirpath|);
    EligibleStep(dir, rel, child, care, ignored);
  }

  lemma DropFirst(p: Path, k: nat)
    requires k < |p|
    ensures p[k..][0] == p[k] && p[k..][1..] == p[k + 1..]
  {
  }

  lemma EligibleStep(dir: Node, rel: Path, child: Node, care: seq<string>, ignored: seq<string>)
    requires dir.Dir? && |rel| >= 2 && rel[0] in DirNames(dir.children) && !IsMatchUnixPatterns(rel[0], ignored)
    requires ChildNamed(dir.children, rel[0]) == Some(child) && Eligible(child, rel[1..], care, ignored)
    ensures Eligible(dir, rel, care, ignored)
  {
  }

  lemma {:induction false} WalkDirComplete(dirpath: Path, node: Node, care: seq<string>, ignored: seq<string>, rel: Path)
    requires Eligible(node, rel, care, ignored)
    ensures dirpath + rel in WalkDir(dirpath, node, care, ignored)
    decreases |rel|
  {
    if |rel| == 1 {
      assert rel[0] in KeptFileNames(node.children, care);
      KeptFileIsWalked(dirpath, node, care, ignored, rel[0]);
      assert rel == [rel[0]];
    } else {
      var child := ChildNamed(node.children, rel[0]).value;
      assert rel[0] in KeptDirNames(node.children, ignored);
      WalkDirComplete(dirpath + [rel[0]], child, care, ignored, rel[1..]);
      SubdirFileIsWalked(dirpath, node, rel, child, care, ignored);
    }
  }

  lemma KeptFileIsWalked(dirpath: Path, node: Node, care: seq<string>, ignored: seq<string>, name: string)
    requires node.Dir? && name in KeptFileNames(node.children, care)
    ensures dirpath + [name] in WalkDir(dirpath, node, care, ignored)
  {
    var kept := KeptFileNames(node.children, care);
    var i :| 0 <= i < |kept| && kept[i] == name;
    assert Joined(dirpath, kept)[i] == dirpath + [name];
  }

  lemma SubdirFileIsWalked(dirpath: Path, node: Node, rel: Path, child: Node, care: seq<string>, ignored: seq<string>)
    requires node.Dir? && |rel| >= 2 && rel[0] in KeptDirNames(node.children, ignored)
    requires ChildNamed(node.children, rel[0]) == Some(child)
    requires dirpath + [rel[0]] + rel[1..] in WalkDir(dirpath + [rel[0]], child, care, ignored)
    ensures dirpath + rel in WalkDir(dirpath, node, care, ignored)
  {
    assert dirpath + [rel[0]] + rel[1..] == dirpath + rel;
    WalkSubdirsContains(dirpath, node, KeptDirNames(node.children, ignored), rel[0], care, ignored, dirpath + rel);
  }

  lemma {:induction false} WalkSubdirsContains(dirpath: Path, dir: Node, names: seq<string>, name: string,
                                               care: seq<string>, ignored: seq<string>, p: Path)
    requires dir.Dir? && name in names && p in WalkSubdir(dirpath, dir, name, care, ignored)
    ensures p in WalkSubdirs(dirpath, dir, names, care, ignored)
    decreases |names|
  {
    var init := names[..|names| - 1];
    WalkSubdirsSplit(dirpath, dir, names, care, ignored);
    if names[|names| - 1] != name {
      InEarlierNames(names, name);
      WalkSubdirsContains(dirpath, dir, init, name, care, ignored, p);
      InLeftPart(p, WalkSubdirs(dirpath, dir, init, care, ignored), WalkSubdir(dirpath, dir, names[|names| - 1], care, ignored));
    } else {
      InRightPart(p, WalkSubdirs(dirpath, dir, init, care, ignored), WalkSubdir(dirpath, dir, name, care, ignored));
    }
  }

  /** A name that is not the last one is among the names before it. */
  lemma InEarlierNames(names: seq<string>, name: string)
    requires name in names && names[|names| - 1] != name
    ensures name in names[..|names| - 1]
  {
    var i :| 0 <= i < |names| && names[i] == name;
    assert i != |names| - 1;
    assert names[..|names| - 1][i] == name;
  }

  /** The walks of the subdirectories: those of all but the last name, then the last one's. */
  lemma WalkSubdirsSplit(dirpath: Path, dir: Node, names: seq<string>, care: seq<string>, ignored: seq<string>)
    requires dir.Dir? && names != []
    ensures WalkSubdirs(dirpath, dir, names, care, ignored) ==
            WalkSubdirs(dirpath, dir, names[..|names| - 1], care, ignored) + WalkSubdir(dirpath, dir, names[|names| - 1], care, ignored)
  {
  }

  lemma InLeftPart<T>(x: T, a: seq<T>, b: seq<T>)
    requires x in a
    ensures x in a + b
  {
  }

  lemma InRightPart<T>(x: T, a: seq<T>, b: seq<T>)
    requires x in b
    ensures x in a + b
  {
  }

  /** The walk below a directory yields exactly the eligible files, joined to `dirpath`. */
  lemma WalkDirExactly(dirpath: Path, node: Node, care: seq<string>, ignored: seq<string>, p: Path)
    ensures p in WalkDir(dirpath, node, care, ignored) <==>
            |p| > |dirpath| && p[..|dirpath|] == dirpath && Eligible(node, p[|dirpath|..], care, ignored)
  {
    if p in WalkDir(dirpath, node, care, ignored) {
      WalkDirSound(dirpath, node, care, ignored, p);
    }
    if |p| > |dirpath| && p[..|dirpath|] == dirpath && Eligible(node, p[|dirpath|..], care, ignored) {
      WalkDirComplete(dirpath, node, care, ignored, p[|dirpath|..]);
      assert dirpath + p[|dirpath|..] == p;
    }
  }

  /**
   * Pruning: no directory on the way from the root directory to a yielded
   * file has a name an ignore pattern matches, and the yielded file's name
   * matches a care pattern whenever care patterns exist.
   */
  lemma {:induction false} EligibleComponents(node: Node, rel: Path, care: seq<string>, ignored: seq<string>)
    requires Eligible(node, rel, care, ignored)
    ensures forall k :: 0 <= k < |rel| - 1 ==> !IsMatchUnixPatterns(rel[k], ignored)
    ensures |care| > 0 ==> IsMatchUnixPatterns(rel[|rel| - 1], care)
    decreases |rel|
  {
    if |rel| > 1 {
      var child := ChildNamed(node.children, rel[0]).value;
      EligibleComponents(child, rel[1..], care, ignored);
      assert forall k :: 1 <= k < |rel| ==> rel[k] == rel[1..][k - 1];
    }
  }

  /** The pruning and care guarantees for every path a directory root yields. */
  lemma WalkDirGuarantees(dirpath: Path, node: Node, care: seq<string>, ignored: seq<string>, p: Path)
    requires p in WalkDir(dirpath, node, care, ignored)
    ensures |p| > |dirpath| && p[..|dirpath|] == dirpath
    ensures forall k :: |dirpath| <= k < |p| - 1 ==> !IsMatchUnixPatterns(p[k], ignored)
    ensures |care| > 0 ==> IsMatchUnixPatterns(p[|p| - 1], care)
  {
    WalkDirSound(dirpath, node, care, ignored, p);
    var rel := p[|dirpath|..];
    EligibleComponents(node, rel, care, ignored);
    assert forall k :: |dirpath| <= k < |p| ==> p[k] == rel[k - |dirpath|];
  }

  /**
   * Ignore patterns never filter file names: a file of the walked directory
   * is yielded exactly when care patterns are absent or one matches it,
   * whatever the ignore patterns are.
   */
  lemma IgnoredPatternsKeepFiles(dirpath: Path, node: Node, care: seq<string>, ignored: seq<string>, name: string)
    requires node.Dir? && name in FileNames(node.children)
    ensures dirpath + [name] in WalkDir(dirpath, node, care, ignored) <==>
            (|care| > 0 ==> IsMatchUnixPatterns(name, care))
  {
    WalkDirExactly(dirpath, node, care, ignored, dirpath + [name]);
    assert (dirpath + [name])[|dirpath|..] == [name];
  }

  /** With neither care nor ignore patterns the walk is the plain `os.walk` of every file. */
  lemma {:induction false} WalkDirWithoutPatterns(dirpath: Path, node: Node)
    ensures WalkDir(dirpath, node, [], []) == AllFiles(dirpath, node)
    decreases node, 1
  {
    if node.Dir? {
      WalkSubdirsWithoutPatterns(dirpath, node, DirNames(node.children));
    }
  }

  lemma {:induction false} WalkSubdirsWithoutPatterns(dirpath: Path, dir: Node, names: seq<string>)
    requires dir.Dir?
    ensures WalkSubdirs(dirpath, dir, names, [], []) == AllFilesIn(dirpath, dir, names)
    decreases dir, 0, |names|
  {
    if names != [] {
      var name := names[|names| - 1];
      WalkSubdirsWithoutPatterns(dirpath, dir, names[..|names| - 1]);
      match ChildNamed(dir.children, name) {
        case None =>
        case Some(child) => WalkDirWithoutPatterns(dirpath + [name], child);
      }
    }
  }
}
