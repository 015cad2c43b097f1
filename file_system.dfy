/**
  The file system the backup works on. A directory to back up is read as a
  tree (`Dir`), listed the way `DirectoryInfo.GetFiles()` and
  `GetDirectories()` list it. The volume that receives the copy is a map from
  paths to files and folders, changed by `Directory.CreateDirectory` and
  `FileInfo.CopyTo`.
 */
module FileSystem {
  import opened Paths

  datatype FileEntry = FileEntry(name: string, data: seq<bv8>)
  datatype SubDir = SubDir(name: string, dir: Dir)

  /** A directory: its files, then its subdirectories, each under a single-component name. */
  datatype Dir = Dir(files: seq<FileEntry>, subdirs: seq<SubDir>)

  /** No two entries of any directory in the tree share a name, as on a real volume. */
  predicate UniqueNames(d: Dir) {
    && (forall i, j :: 0 <= i < j < |d.files| ==> d.files[i].name != d.files[j].name)
    && (forall i, j :: 0 <= i < j < |d.subdirs| ==> d.subdirs[i].name != d.subdirs[j].name)
    && (forall i, j :: 0 <= i < |d.files| && 0 <= j < |d.subdirs| ==> d.files[i].name != d.subdirs[j].name)
    && (forall j :: 0 <= j < |d.subdirs| ==> UniqueNames(d.subdirs[j].dir))
  }

  function FileNames(d: Dir): seq<string> {
    seq(|d.files|, i requires 0 <= i < |d.files| => d.files[i].name)
  }

  function SubdirNames(d: Dir): seq<string> {
    seq(|d.subdirs|, j requires 0 <= j < |d.subdirs| => d.subdirs[j].name)
  }

  datatype Node = File(data: seq<bv8>) | Folder

  type Volume = map<Path, Node>

  /** Every non-empty prefix of `p`: the folders `p` walks through, and `p` itself. */
  function Prefixes(p: Path): set<Path> {
    set k | 1 <= k <= |p| :: p[..k]
  }

  /** `p` and every folder above it exist as folders. */
  predicate AllFolders(m: Volume, p: Path) {
    forall k :: 1 <= k <= |p| ==> p[..k] in m && m[p[..k]] == Folder
  }

  /** Nothing on the way to `p`, nor `p` itself, is a file. */
  predicate NoFileOnPath(m: Volume, p: Path) {
    forall k :: 1 <= k <= |p| ==> p[..k] !in m || m[p[..k]] == Folder
  }

  /** Nothing exists at or below `p`. */
  predicate FreshUnder(m: Volume, p: Path) {
    forall q :: q in m ==> !(p <= q)
  }

  /** `m2` keeps every entry of `m` as it was: nothing is deleted or overwritten. */
  predicate Extends(m: Volume, m2: Volume) {
    forall q :: q in m ==> q in m2 && m2[q] == m[q]
  }

  /** Every entry `m2` adds to `m` lies on the way to `p` or below it. */
  predicate AddsOnlyAround(m: Volume, m2: Volume, p: Path) {
    forall q :: q in m2 && q !in m ==> q <= p || p <= q
  }

  /** The volume after `Directory.CreateDirectory(p)` has succeeded. */
  function WithFolders(m: Volume, p: Path): Volume {
    m + map q | q in Prefixes(p) :: Folder
  }

  /** Creating the folders adds exactly the missing ones on the way to `p` and changes nothing that existed. */
  lemma WithFoldersSpec(m: Volume, p: Path)
    requires NoFileOnPath(m, p)
    ensures Extends(m, WithFolders(m, p))
    ensures AllFolders(WithFolders(m, p), p)
    ensures forall q :: q in WithFolders(m, p) && q !in m ==> q != [] && q <= p
  {
    var r := WithFolders(m, p);
    forall q | q in m
      ensures q in r && r[q] == m[q]
    {
      if q in Prefixes(p) {
        var k :| 1 <= k <= |p| && q == p[..k];
      }
    }
    forall k | 1 <= k <= |p|
      ensures p[..k] in r && r[p[..k]] == Folder
    {
      assert p[..k] in Prefixes(p);
    }
  }

  /** `p + [name]` for a file of `d` holds that file's bytes. */
  predicate FileCopied(m: Volume, p: Path, f: FileEntry) {
    p + [f.name] in m && m[p + [f.name]] == File(f.data)
  }

  /** The volume holds a copy of tree `d` at `p`: a folder, each file under its name, each subdirectory mirrored under its name. */
  predicate Mirrors(m: Volume, p: Path, d: Dir)
    decreases d
  {
    && p in m && m[p] == Folder
    && (forall i :: 0 <= i < |d.files| ==> FileCopied(m, p, d.files[i]))
    && (forall j :: 0 <= j < |d.subdirs| ==> Mirrors(m, p + [d.subdirs[j].name], d.subdirs[j].dir))
  }

  /** A copy stays a copy when entries are only added. */
  lemma {:induction false} MirrorsExtends(m: Volume, m2: Volume, p: Path, d: Dir)
    requires Mirrors(m, p, d) && Extends(m, m2)
    ensures Mirrors(m2, p, d)
    decreases d
  {
    forall j | 0 <= j < |d.subdirs|
      ensures Mirrors(m2, p + [d.subdirs[j].name], d.subdirs[j].dir)
    {
      MirrorsExtends(m, m2, p + [d.subdirs[j].name], d.subdirs[j].dir);
    }
  }

  /** A prefix of `p + [n]` is a prefix of `p` or `p + [n]` itself. */
  lemma PrefixOfExtended(q: Path, p: Path, n: string)
    requires q <= p + [n]
    ensures q <= p || q == p + [n]
  {
    if |q| <= |p| {
      assert q == (p + [n])[..|q|] == p[..|q|];
    }
  }

  /**
    What a fresh backup destination offers: a non-empty path with no file on
    the way, nothing at or below it yet, and a source tree with unique names.
   */
  predicate CanCopyInto(m: Volume, p: Path, d: Dir) {
    p != [] && NoFileOnPath(m, p) && FreshUnder(m, p) && UniqueNames(d)
  }

  /** The volume a backup writes to. */
  class DiskVolume {
    var nodes: Volume

    constructor (nodes: Volume)
      ensures this.nodes == nodes
    {
      this.nodes := nodes;
    }

    /** `Directory.CreateDirectory(p)`: fails on an empty path or a file in the way; otherwise creates what is missing. */
    method CreateDirectory(p: Path) returns (ok: bool)
      modifies this
      ensures ok == (p != [] && NoFileOnPath(old(nodes), p))
      ensures nodes == if ok then WithFolders(old(nodes), p) else old(nodes)
    {
      ok := p != [] && NoFileOnPath(nodes, p);
      if ok {
        nodes := WithFolders(nodes, p);
      }
    }

    /** `FileInfo.CopyTo(dest)` without overwriting: fails if `dest` exists or its parent is not a folder. */
    method CopyFile(data: seq<bv8>, dest: Path) returns (ok: bool)
      modifies this
      ensures ok == (dest != [] && dest !in old(nodes)
                     && dest[..|dest| - 1] in old(nodes) && old(nodes)[dest[..|dest| - 1]] == Folder)
      ensures nodes == if ok then old(nodes)[dest := File(data)] else old(nodes)
    {
      ok := dest != [] && dest !in nodes && dest[..|dest| - 1] in nodes && nodes[dest[..|dest| - 1]] == Folder;
      if ok {
        nodes := nodes[dest := File(data)];
      }
    }
  }
}
