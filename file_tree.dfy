/**
 * The file system both scanners walk: a tree of directories and files. A
 * path is the sequence of entry names from the root of the tree, so joining
 * a directory path and an entry name is appending the name; every path is
 * taken to be canonical already.
 */
module FileTree {
  import opened Wrappers

  type Path = seq<string>

  /**
   * What reading a file as UTF-8 text yields: the lines read successfully,
   * in order, and whether reading then fails (a decode error, a permission
   * error at open time with no lines, a file removed mid-walk).
   */
  datatype Content = Content(lines: seq<string>, failsAfter: bool)

  /** An entry of a directory listing. */
  datatype Node =
    | File(name: string, content: Content)
    | Dir(name: string, children: seq<Node>)

  /** The names `os.walk` puts in `filenames`: the non-directories, in listing order. */
  function FileNames(children: seq<Node>): (names: seq<string>)
    ensures |names| <= |children|
    ensures forall n :: n in names <==> exists c :: c in children && c.File? && c.name == n
  {
    if children == [] then []
    else
      var rest := FileNames(children[1..]);
      assert forall c :: c in children <==> c == children[0] || c in children[1..];
      if children[0].File? then [children[0].name] + rest else rest
  }

  /** The names `os.walk` puts in `dirnames`: the sub-directories, in listing order. */
  function DirNames(children: seq<Node>): (names: seq<string>)
    ensures |names| <= |children|
    ensures forall n :: n in names <==> exists c :: c in children && c.Dir? && c.name == n
  {
    if children == [] then []
    else
      var rest := DirNames(children[1..]);
      assert forall c :: c in children <==> c == children[0] || c in children[1..];
      if children[0].Dir? then [children[0].name] + rest else rest
  }

  /** A directory as the operating system lists it: no name occurs twice among its entries. */
  predicate UniqueNames(children: seq<Node>) {
    forall i, j :: 0 <= i < j < |children| ==> children[i].name != children[j].name
  }

  /** The entry a name denotes inside a directory (the first one, should a listing repeat a name). */
  function ChildNamed(children: seq<Node>, name: string): (r: Option<Node>)
    ensures r.Some? ==> r.value in children && r.value.name == name
    ensures r.None? <==> forall c :: c in children ==> c.name != name
  {
    if children == [] then None
    else if children[0].name == name then Some(children[0])
    else
      var r := ChildNamed(children[1..], name);
      assert forall c :: c in children <==> c == children[0] || c in children[1..];
      r
  }

  /** In a listing without repeated names, every entry is the one its name denotes. */
  lemma {:induction false} ChildNamedFindsEntry(children: seq<Node>, k: nat)
    requires UniqueNames(children) && k < |children|
    ensures ChildNamed(children, children[k].name) == Some(children[k])
  {
    if k > 0 {
      assert children[0].name != children[k].name;
      assert children[1..][k - 1] == children[k];
      assert UniqueNames(children[1..]) by {
        forall i, j | 0 <= i < j < |children[1..]|
          ensures children[1..][i].name != children[1..][j].name
        {
          assert children[1..][i] == children[i + 1] && children[1..][j] == children[j + 1];
        }
      }
      ChildNamedFindsEntry(children[1..], k - 1);
    }
  }

  /** The entry a path denotes, starting from `node`; `None` when it does not exist. */
  function Lookup(node: Node, path: Path): (r: Option<Node>)
    ensures path == [] ==> r == Some(node)
    decreases |path|
  {
    if path == [] then Some(node)
    else if node.File? then None
    else
      match ChildNamed(node.children, path[0])
      case None => None
      case Some(child) => Lookup(child, path[1..])
  }

  /** `os.path.join(dirpath, name)` for every name, in order. */
  function Joined(dirpath: Path, names: seq<string>): (paths: seq<Path>)
    ensures |paths| == |names|
    ensures forall i :: 0 <= i < |names| ==> paths[i] == dirpath + [names[i]]
  {
    seq(|names|, i requires 0 <= i < |names| => dirpath + [names[i]])
  }

  /**
   * `rel` leads from directory `node` to a file: every component but the
   * last names a sub-directory, the last names a file.
   */
  predicate IsFileBelow(node: Node, rel: Path)
    decreases |rel|
  {
    node.Dir? && |rel| >= 1 &&
    if |rel| == 1 then rel[0] in FileNames(node.children)
    else
      rel[0] in DirNames(node.children) &&
      match ChildNamed(node.children, rel[0])
      case None => false
      case Some(child) => IsFileBelow(child, rel[1..])
  }

  /**
   * The file paths `os.walk(dirpath)` reports when nothing is pruned: the
   * files of the directory first, then each sub-directory in turn. A file
   * yields nothing, as `os.walk` on a non-directory does.
   */
  function AllFiles(dirpath: Path, node: Node): seq<Path>
    decreases node, 1
  {
    match node
    case File(_, _) => []
    case Dir(_, children) => Joined(dirpath, FileNames(children)) + AllFilesIn(dirpath, node, DirNames(children))
  }

  /** The files below the named sub-directories of `dir`, one sub-directory after another. */
  function AllFilesIn(dirpath: Path, dir: Node, names: seq<string>): seq<Path>
    requires dir.Dir?
    decreases dir, 0, |names|
  {
    if names == [] then []
    else AllFilesIn(dirpath, dir, names[..|names| - 1]) + AllFilesUnder(dirpath, dir, names[|names| - 1])
  }

  /** The files below the sub-directory `name` of `dir`, reached by joining its name. */
  function AllFilesUnder(dirpath: Path, dir: Node, name: string): seq<Path>
    requires dir.Dir?
    decreases dir, 0, 0
  {
    match ChildNamed(dir.children, name)
    case None => []
    case Some(child) => AllFiles(dirpath + [name], child)
  }

  /** Every reported path is `dirpath` joined with a path to a file below the directory. */
  lemma {:induction false} AllFilesSound(dirpath: Path, node: Node, p: Path)
    requires p in AllFiles(dirpath, node)
    ensures |p| > |dirpath| && p[..|dirpath|] == dirpath && IsFileBelow(node, p[|dirpath|..])
    decreases node, 1
  {
    var files := Joined(dirpath, FileNames(node.children));
    if p in files {
      var i :| 0 <= i < |files| && files[i] == p;
      assert p[|dirpath|..] == [FileNames(node.children)[i]];
    } else {
      AllFilesInSound(dirpath, node, DirNames(node.children), p);
    }
  }

  lemma {:induction false} AllFilesInSound(dirpath: Path, dir: Node, names: seq<string>, p: Path)
    requires dir.Dir? && p in AllFilesIn(dirpath, dir, names)
    requires forall n :: n in names ==> n in DirNames(dir.children)
    ensures |p| > |dirpath| && p[..|dirpath|] == dirpath && IsFileBelow(dir, p[|dirpath|..])
    decreases dir, 0, |names|
  {
    var init, last := names[..|names| - 1], names[|names| - 1];
    if p in AllFilesIn(dirpath, dir, init) {
      AllFilesInSound(dirpath, dir, init, p);
    } else {
      var child := ChildNamed(dir.children, last).value;
      AllFilesSound(dirpath + [last], child, p);
      var rel := p[|dirpath|..];
      assert rel[0] == last && rel[1..] == p[|dirpath| + 1..];
    }
  }

  /** Every file below the directory is reported, joined to `dirpath`. */
  lemma {:induction false} AllFilesComplete(dirpath: Path, node: Node, rel: Path)
    requires IsFileBelow(node, rel)
    ensures dirpath + rel in AllFiles(dirpath, node)
    decreases |rel|
  {
    var files := Joined(dirpath, FileNames(node.children));
    if |rel| == 1 {
      var i :| 0 <= i < |FileNames(node.children)| && FileNames(node.children)[i] == rel[0];
      assert files[i] == dirpath + rel;
    } else {
      var child := ChildNamed(node.children, rel[0]).value;
      AllFilesComplete(dirpath + [rel[0]], child, rel[1..]);
      assert dirpath + [rel[0]] + rel[1..] == dirpath + rel;
      AllFilesInContains(dirpath, node, DirNames(node.children), rel[0], dirpath + rel);
    }
  }

  lemma {:induction false} AllFilesInContains(dirpath: Path, dir: Node, names: seq<string>, name: string, p: Path)
    requires dir.Dir? && name in names && p in AllFilesUnder(dirpath, dir, name)
    ensures p in AllFilesIn(dirpath, dir, names)
    decreases |names|
  {
    if names[|names| - 1] != name {
      assert name in names[..|names| - 1] by {
        var i :| 0 <= i < |names| && names[i] == name;
        assert names[..|names| - 1][i] == name;
      }
      AllFilesInContains(dirpath, dir, names[..|names| - 1], name, p);
    }
  }

  /** `os.walk` without pruning reports exactly the files below the directory. */
  lemma AllFilesExactly(dirpath: Path, node: Node, p: Path)
    ensures p in AllFiles(dirpath, node) <==>
            |p| > |dirpath| && p[..|dirpath|] == dirpath && IsFileBelow(node, p[|dirpath|..])
  {
    if p in AllFiles(dirpath, node) {
      AllFilesSound(dirpath, node, p);
    }
    if |p| > |dirpath| && p[..|dirpath|] == dirpath && IsFileBelow(node, p[|dirpath|..]) {
      AllFilesComplete(dirpath, node, p[|dirpath|..]);
      assert dirpath + p[|dirpath|..] == p;
    }
  }

  /** The text of a path as the file system reports it: every component after a `/`. */
  function PathText(path: Path): string {
    if path == [] then [] else PathText(path[..|path| - 1]) + "/" + path[|path| - 1]
  }
}
