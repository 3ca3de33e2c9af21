/** An abstract filesystem: a tree of regular files and directories addressed
    by paths, and the operating-system calls the driver makes on it (stat,
    mkdir -p, create-and-write, read, rename, recursive remove, list).
    Each call is a pure function from one tree to a new tree or an error; the
    errors are the ones the call reports on a Unix system for that shape of
    tree. */
module Fs {
  import opened Results
  import Names

  newtype byte = x: int | 0 <= x < 256

  type Bytes = seq<byte>

  /** A path as its components; `[]` is the working directory ".". */
  type Path = seq<string>

  datatype Node = File(data: Bytes) | Dir

  datatype Errno = ENOENT | ENOTDIR | EISDIR | EEXIST

  datatype Op = StatOp | MkdirOp | OpenOp | ReadOp | ReadDirOp | RenameOp

  /** The two shapes of error the calls return: one naming a path, and one
      naming both paths of a rename. */
  datatype IoError =
    | PathError(op: Op, path: Path, errno: Errno)
    | LinkError(op: Op, oldPath: Path, newPath: Path, errno: Errno)

  /** `p` exists and is a directory. */
  predicate IsDirAt(fs: map<Path, Node>, p: Path)
  {
    p in fs && fs[p].Dir?
  }

  function Parent(p: Path): Path
    requires |p| > 0
  {
    p[..|p| - 1]
  }

  /** `a` is `q` itself or one of its ancestors. */
  predicate Under(a: Path, q: Path)
  {
    |a| <= |q| && q[..|a|] == a
  }

  /** filepath.Join of a directory and one name: an empty name is dropped. */
  function Join(dir: Path, name: string): (p: Path)
    ensures name == "" ==> p == dir
    ensures name != "" ==> |p| == |dir| + 1 && Parent(p) == dir && p[|dir|] == name
  {
    if name == "" then dir else dir + [name]
  }

  /** The path spelled `p + ext`: the extension goes onto the last component
      ("." when `p` is the working directory). */
  function AddSuffix(p: Path, ext: string): (r: Path)
    ensures |r| > 0 && |r| == if |p| == 0 then 1 else |p|
    ensures |p| > 0 ==> Parent(r) == Parent(p) && r[|p| - 1] == p[|p| - 1] + ext
    ensures |p| == 0 ==> r == ["." + ext]
  {
    if |p| == 0 then ["." + ext] else Parent(p) + [p[|p| - 1] + ext]
  }

  /** The working directory exists and every entry sits in a directory.
      The trigger fires only on parents a proof mentions, so the fact does
      not climb to the root unasked. */
  predicate IsTree(fs: map<Path, Node>)
  {
    && [] in fs && fs[[]].Dir?
    && forall p {:trigger Parent(p)} :: p in fs && |p| > 0 ==> Parent(p) in fs && fs[Parent(p)].Dir?
  }

  type Tree = fs: map<Path, Node> | IsTree(fs) witness map[[] := Dir]

  /** A proper ancestor of `p` is a regular file, so `p` cannot be reached. */
  predicate BlockedByFile(fs: Tree, p: Path)
  {
    exists k :: 0 <= k < |p| && p[..k] in fs && fs[p[..k]].File?
  }

  /** Every existing prefix of `p`, `p` included, is a directory. */
  predicate DirsAlong(fs: Tree, p: Path)
  {
    forall k :: 0 <= k <= |p| && p[..k] in fs ==> fs[p[..k]].Dir?
  }

  lemma {:induction false} AncestorsAreDirs(fs: Tree, q: Path, k: nat)
    requires q in fs && k < |q|
    ensures IsDirAt(fs, q[..k])
    decreases |q|
  {
    var pq := Parent(q);
    if k == |q| - 1 {
      assert q[..k] == pq;
    } else {
      AncestorsAreDirs(fs, pq, k);
      assert pq[..k] == q[..k];
    }
  }

  /** Every ancestor of an entry exists. */
  lemma AncestorExists(fs: Tree, p: Path, q: Path)
    requires q in fs && Under(p, q)
    ensures p in fs
  {
    if |p| < |q| {
      AncestorsAreDirs(fs, q, |p|);
    } else {
      assert q[..|p|] == q;
    }
  }

  /** A regular file has nothing beneath it. */
  lemma FileIsLeaf(fs: Tree, p: Path, q: Path)
    requires p in fs && fs[p].File? && q in fs && Under(p, q)
    ensures q == p
  {
    if |p| < |q| {
      AncestorsAreDirs(fs, q, |p|);
    }
  }

  lemma InTreeNotBlocked(fs: Tree, q: Path)
    requires q in fs
    ensures !BlockedByFile(fs, q)
  {
    forall k | 0 <= k < |q| && q[..k] in fs
      ensures fs[q[..k]].Dir?
    {
      AncestorsAreDirs(fs, q, k);
    }
  }

  lemma BlockedStep(fs: Tree, p: Path)
    requires |p| > 0
    ensures BlockedByFile(fs, p) <==>
      (Parent(p) in fs && fs[Parent(p)].File?) || BlockedByFile(fs, Parent(p))
  {
    var pp := Parent(p);
    if BlockedByFile(fs, p) {
      var k :| 0 <= k < |p| && p[..k] in fs && fs[p[..k]].File?;
      if k < |p| - 1 {
        assert pp[..k] == p[..k];
      } else {
        assert p[..k] == pp;
      }
    }
    if BlockedByFile(fs, pp) {
      var k :| 0 <= k < |pp| && pp[..k] in fs && fs[pp[..k]].File?;
      assert p[..k] == pp[..k];
    }
    if pp in fs && fs[pp].File? {
      assert p[..|p| - 1] == pp;
    }
  }

  lemma DirsAlongStep(fs: Tree, p: Path)
    requires |p| > 0 && p !in fs
    ensures DirsAlong(fs, p) <==> DirsAlong(fs, Parent(p))
  {
    var pp := Parent(p);
    forall k | 0 <= k <= |pp|
      ensures p[..k] == pp[..k]
    {
    }
    assert p[..|p|] == p;
  }

  lemma InTreeDirsAlong(fs: Tree, p: Path)
    requires IsDirAt(fs, p)
    ensures DirsAlong(fs, p)
  {
    forall k | 0 <= k <= |p| && p[..k] in fs
      ensures fs[p[..k]].Dir?
    {
      if k < |p| {
        AncestorsAreDirs(fs, p, k);
      } else {
        assert p[..k] == p;
      }
    }
  }

  lemma UnderParent(a: Path, q: Path)
    requires |q| > 0 && Under(a, Parent(q))
    ensures Under(a, q)
  {
    assert q[..|a|] == Parent(q)[..|a|];
  }

  /** `p` and `p + ext` are siblings, so a regular file blocks both or
      neither. */
  lemma SiblingsBlockedTogether(fs: Tree, p: Path, ext: string)
    ensures BlockedByFile(fs, p) <==> BlockedByFile(fs, AddSuffix(p, ext))
  {
    if |p| > 0 {
      BlockedStep(fs, p);
      BlockedStep(fs, AddSuffix(p, ext));
    } else {
      BlockedStep(fs, AddSuffix(p, ext));
    }
  }

  /** Removing a path that does not exist changes nothing. */
  lemma RemoveMissing(fs: Tree, p: Path)
    requires |p| > 0 && p !in fs
    ensures RemoveAll(fs, p) == fs
  {
    forall q | q in fs
      ensures !Under(p, q)
    {
      if Under(p, q) {
        AncestorExists(fs, p, q);
      }
    }
  }

  /** Removing a regular file removes that entry and nothing else. */
  lemma RemoveFile(fs: Tree, p: Path)
    requires |p| > 0 && p in fs && fs[p].File?
    ensures RemoveAll(fs, p) == fs - {p}
  {
    forall q | q in fs && Under(p, q)
      ensures q == p
    {
      FileIsLeaf(fs, p, q);
    }
  }

  /** Path resolution from the working directory, the part of stat(2) that
      depends on the tree: the first missing component gives ENOENT, a
      regular file met before the last component gives ENOTDIR. */
  function Lookup(fs: Tree, p: Path): (r: Result<Node, Errno>)
    ensures r.Ok? <==> p in fs
    ensures r.Ok? ==> r.value == fs[p]
    ensures r.Err? ==> (r.error == ENOTDIR <==> BlockedByFile(fs, p))
    ensures r.Err? ==> r.error == ENOENT || r.error == ENOTDIR
    decreases |p|
  {
    if p in fs then Ok(fs[p])
    else
      BlockedStep(fs, p);
      match Lookup(fs, Parent(p))
      case Ok(Dir) => InTreeNotBlocked(fs, Parent(p)); Err(ENOENT)
      case Ok(File(_)) => Err(ENOTDIR)
      case Err(e) => Err(e)
  }

  /** os.Stat. */
  function Stat(fs: Tree, p: Path): (r: Result<Node, IoError>)
    ensures r.Ok? <==> p in fs
    ensures r.Ok? ==> r.value == fs[p]
    ensures r.Err? ==>
      r.error == PathError(StatOp, p, if BlockedByFile(fs, p) then ENOTDIR else ENOENT)
  {
    match Lookup(fs, p)
    case Ok(n) => Ok(n)
    case Err(e) => Err(PathError(StatOp, p, e))
  }

  /** os.MkdirAll: creates every missing directory down to `p`, and fails,
      creating nothing, when an existing prefix of `p` is a regular file. */
  function MkdirAll(fs: Tree, p: Path): (r: Result<Tree, IoError>)
    ensures r.Ok? <==> DirsAlong(fs, p)
    ensures r.Ok? ==> IsDirAt(r.value, p)
    ensures r.Ok? ==> forall q :: q in fs ==> q in r.value && r.value[q] == fs[q]
    ensures r.Ok? ==> forall q :: q in r.value && q !in fs ==> Under(q, p) && r.value[q].Dir?
    ensures r.Err? ==> r.error.PathError? && r.error.op == MkdirOp && r.error.errno == ENOTDIR
    decreases |p|
  {
    if p in fs then
      if fs[p].Dir? then
        InTreeDirsAlong(fs, p);
        Ok(fs)
      else
        assert p[..|p|] == p;
        Err(PathError(MkdirOp, p, ENOTDIR))
    else
      DirsAlongStep(fs, p);
      match MkdirAll(fs, Parent(p))
      case Err(e) => Err(e)
      case Ok(made) =>
        assert forall q :: Under(q, Parent(p)) ==> Under(q, p) by {
          forall q | Under(q, Parent(p))
            ensures Under(q, p)
          {
            UnderParent(q, p);
          }
        }
        Ok(made[p := Dir])
  }

  /** os.WriteFile: creates or truncates the regular file `p`; the directory
      holding it must exist. */
  function WriteFile(fs: Tree, p: Path, data: Bytes): (r: Result<Tree, IoError>)
    ensures r.Ok? <==>
      (p in fs && fs[p].File?) || (p !in fs && |p| > 0 && IsDirAt(fs, Parent(p)))
    ensures r.Ok? ==> r.value.Keys == fs.Keys + {p} && r.value[p] == File(data)
    ensures r.Ok? ==> forall q :: q in fs && q != p ==> r.value[q] == fs[q]
    ensures r.Err? ==> r.error.PathError? && r.error.op == OpenOp && r.error.path == p
  {
    if p in fs then
      if fs[p].Dir? then Err(PathError(OpenOp, p, EISDIR)) else Ok(fs[p := File(data)])
    else
      match Lookup(fs, Parent(p))
      case Ok(Dir) => Ok(fs[p := File(data)])
      case Ok(File(_)) => Err(PathError(OpenOp, p, ENOTDIR))
      case Err(e) => Err(PathError(OpenOp, p, e))
  }

  /** os.ReadFile. Opening a directory succeeds and reading it fails. */
  function ReadFile(fs: Tree, p: Path): (r: Result<Bytes, IoError>)
    ensures r.Ok? <==> p in fs && fs[p].File?
    ensures r.Ok? ==> fs[p] == File(r.value)
    ensures r.Err? && p in fs ==> r.error == PathError(ReadOp, p, EISDIR)
    ensures r.Err? && p !in fs ==>
      r.error == PathError(OpenOp, p, if BlockedByFile(fs, p) then ENOTDIR else ENOENT)
  {
    match Lookup(fs, p)
    case Ok(File(data)) => Ok(data)
    case Ok(Dir) => Err(PathError(ReadOp, p, EISDIR))
    case Err(e) => Err(PathError(OpenOp, p, e))
  }

  /** os.Rename of a regular file to a sibling name, replacing a regular file
      there; onto a directory it fails with EEXIST (os.Rename checks the
      target with Lstat before renaming). Only renames within one directory
      of a regular file are modelled: that is the only use the driver has. */
  function Rename(fs: Tree, src: Path, dst: Path): (r: Result<Tree, IoError>)
    requires src in fs && fs[src].File?
    requires |src| > 0 && |dst| > 0 && Parent(dst) == Parent(src)
    ensures r.Ok? <==> !IsDirAt(fs, dst)
    ensures r.Ok? ==> dst in r.value && r.value[dst] == fs[src]
    ensures r.Ok? && src != dst ==> src !in r.value
    ensures r.Ok? ==> forall q :: q in r.value ==> q in fs || q == dst
    ensures r.Ok? ==> forall q :: q in fs && q != src && q != dst ==> q in r.value && r.value[q] == fs[q]
    ensures r.Err? ==> r.error == LinkError(RenameOp, src, dst, EEXIST)
  {
    if IsDirAt(fs, dst) then Err(LinkError(RenameOp, src, dst, EEXIST))
    else Ok((fs - {src})[dst := fs[src]])
  }

  /** os.RemoveAll: removes `p` and everything beneath it; a missing `p` is
      not an error. The working directory itself is never removed (Go refuses
      a path ending in "."). */
  function RemoveAll(fs: Tree, p: Path): (r: Tree)
    ensures |p| > 0 ==> forall q :: q in r <==> q in fs && !Under(p, q)
    ensures forall q :: q in r ==> q in fs && r[q] == fs[q]
    ensures |p| == 0 ==> r == fs
  {
    if |p| == 0 then fs
    else
      assert forall q :: |q| > 0 && Under(p, Parent(q)) ==> Under(p, q) by {
        forall q | |q| > 0 && Under(p, Parent(q))
          ensures Under(p, q)
        {
          UnderParent(p, q);
        }
      }
      map q | q in fs && !Under(p, q) :: fs[q]
  }

  /** The names of the entries directly inside `dir`. */
  function Children(fs: Tree, dir: Path): set<string>
  {
    set p | p in fs && |p| == |dir| + 1 && p[..|dir|] == dir :: p[|dir|]
  }

  lemma ChildrenAreEntries(fs: Tree, dir: Path)
    ensures forall n :: n in Children(fs, dir) <==> dir + [n] in fs
  {
    forall n | dir + [n] in fs
      ensures n in Children(fs, dir)
    {
      var p := dir + [n];
      assert p[..|dir|] == dir && p[|dir|] == n;
    }
    forall n | n in Children(fs, dir)
      ensures dir + [n] in fs
    {
      var p :| p in fs && |p| == |dir| + 1 && p[..|dir|] == dir && p[|dir|] == n;
      assert p == dir + [n];
    }
  }

  /** os.ReadDir: the entries of a directory, sorted by name. */
  function ReadDir(fs: Tree, dir: Path): (r: Result<seq<string>, IoError>)
    ensures r.Ok? <==> IsDirAt(fs, dir)
    ensures r.Ok? ==> forall n :: n in r.value <==> dir + [n] in fs
    ensures r.Ok? ==> Names.StrictlySorted(r.value)
  {
    match Lookup(fs, dir)
    case Err(e) => Err(PathError(OpenOp, dir, e))
    case Ok(File(_)) => Err(PathError(ReadDirOp, dir, ENOTDIR))
    case Ok(Dir) =>
      ChildrenAreEntries(fs, dir);
      Ok(Names.Sorted(Children(fs, dir)))
  }
}
