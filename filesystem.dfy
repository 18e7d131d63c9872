/** The part of the filesystem the organizer touches: regular files with their
    bytes, the set of directories, `Path.mkdir(parents=True, exist_ok=True)`
    and `shutil.move` between paths on one filesystem. */
module FileSystem {
  import opened Wrappers
  import opened Paths

  type Content = seq<bv8>

  /** A well-formed directory tree: a file is never a directory, and every
      proper prefix of a file or directory is a directory. */
  predicate Tree(files: map<Path, Content>, dirs: set<Path>)
  {
    && (forall p :: p in files ==> p != [] && p !in dirs)
    && (forall p, j :: p in files && 1 <= j < |p| ==> p[..j] in dirs)
    && (forall d, j :: d in dirs && 1 <= j < |d| ==> d[..j] in dirs)
  }

  /** `p` and each of its non-empty prefixes: what `mkdir -p p` makes sure exists. */
  function Lineage(p: Path): set<Path>
  {
    set j | 1 <= j <= |p| :: p[..j]
  }

  /** `mkdir(parents=True, exist_ok=True)` raises when some prefix of the
      requested path is a regular file. */
  predicate MkdirBlocked(files: map<Path, Content>, p: Path)
  {
    exists j :: 1 <= j <= |p| && p[..j] in files
  }

  /** The directories after a `mkdir(parents=True, exist_ok=True)` that succeeds. */
  function MakeDirs(dirs: set<Path>, p: Path): (r: set<Path>)
    ensures dirs <= r
    ensures p != [] ==> p in r
    ensures forall d :: d in r && d !in dirs ==> exists j :: 1 <= j <= |p| && d == p[..j]
  {
    assert p != [] ==> p[..|p|] == p;
    dirs + Lineage(p)
  }

  /** mkdir is idempotent: on a directory that already exists it changes nothing,
      and it is not blocked. */
  lemma {:induction false} MakeDirsExisting(files: map<Path, Content>, dirs: set<Path>, p: Path)
    requires Tree(files, dirs) && p in dirs
    ensures MakeDirs(dirs, p) == dirs
    ensures !MkdirBlocked(files, p)
  {
    forall d | d in Lineage(p) ensures d in dirs {
      var j :| 1 <= j <= |p| && d == p[..j];
      if j < |p| { assert p[..j] in dirs; } else { assert p[..j] == p; }
    }
  }

  /** Running mkdir twice is the same as running it once. */
  lemma MakeDirsTwice(dirs: set<Path>, p: Path)
    ensures MakeDirs(MakeDirs(dirs, p), p) == MakeDirs(dirs, p)
  {
  }

  /** A successful mkdir keeps the tree well formed. */
  lemma {:induction false} MakeDirsPreservesTree(files: map<Path, Content>, dirs: set<Path>, p: Path)
    requires Tree(files, dirs) && !MkdirBlocked(files, p)
    ensures Tree(files, MakeDirs(dirs, p))
  {
    var r := MakeDirs(dirs, p);
    forall d, j | d in r && 1 <= j < |d| ensures d[..j] in r {
      if d !in dirs {
        var k :| 1 <= k <= |p| && d == p[..k];
        assert d[..j] == p[..j];
      }
    }
  }

  /** `after` is `before` with the file at `src` moved to `t`: `t` holds the bytes
      `src` had, `src` is gone unless it is `t`, and every other path is as it was. */
  ghost predicate Lands(before: map<Path, Content>, after: map<Path, Content>, src: Path, t: Path)
    requires src in before
  {
    && t in after && after[t] == before[src]
    && (src != t ==> src !in after)
    && (forall p :: p != src && p != t ==> (p in after <==> p in before))
    && (forall p :: p in after && p != src && p != t ==> after[p] == before[p])
  }

  /** `os.rename` of a regular file: the destination takes the source's bytes,
      replacing any file already there, as POSIX `rename` does. */
  function Rename(files: map<Path, Content>, src: Path, dst: Path): (r: map<Path, Content>)
    requires src in files
    ensures Lands(files, r, src, dst)
  {
    (files - {src})[dst := files[src]]
  }

  /** Renaming a file to a path whose proper prefixes are all directories, and
      which is not itself a directory, keeps the tree well formed. */
  lemma {:induction false} RenamePreservesTree(files: map<Path, Content>, dirs: set<Path>, src: Path, t: Path)
    requires Tree(files, dirs) && src in files
    requires t != [] && t !in dirs && forall j :: 1 <= j < |t| ==> t[..j] in dirs
    ensures Tree(Rename(files, src, t), dirs)
  {
    var r := Rename(files, src, t);
    forall p, j | p in r && 1 <= j < |p| ensures p[..j] in dirs {
      if p != t {
        assert p in files;
      }
    }
  }

  /** Where `shutil.move(src, dst)` puts the file: into `dst` when `dst` is an
      existing directory, at `dst` otherwise. */
  function MoveTarget(dirs: set<Path>, src: Path, dst: Path): (t: Path)
    ensures dst in dirs ==> Parent(t) == dst && Name(t) == Name(src)
    ensures dst !in dirs ==> t == dst
  {
    if dst in dirs then dst + [Name(src)] else dst
  }

  /** `shutil.move` of a regular file within one filesystem, to a path whose
      folder exists. None stands for the `shutil.Error` raised when `dst` is a
      directory that already holds an entry with the file's name. Otherwise the
      file lands at `dst`, or inside it when `dst` is a directory, and a
      well-formed tree stays well formed. */
  function ShutilMove(files: map<Path, Content>, dirs: set<Path>, src: Path, dst: Path): (r: Option<map<Path, Content>>)
    requires src in files
    requires Parent(dst) != [] && Parent(dst) in dirs
    ensures r.None? <==> dst in dirs && (dst + [Name(src)] in files || dst + [Name(src)] in dirs)
    ensures r.Some? && dst !in dirs ==> Lands(files, r.value, src, dst)
    ensures r.Some? && dst in dirs ==> Lands(files, r.value, src, dst + [Name(src)])
    ensures r.Some? && Tree(files, dirs) ==> Tree(r.value, dirs)
  {
    var target := MoveTarget(dirs, src, dst);
    if dst in dirs && (target in files || target in dirs) then None
    else if Tree(files, dirs) then
      MoveTargetAncestors(files, dirs, src, dst);
      RenamePreservesTree(files, dirs, src, target);
      Some(Rename(files, src, target))
    else Some(Rename(files, src, target))
  }

  /** The path a move lands on has only directories above it. */
  lemma MoveTargetAncestors(files: map<Path, Content>, dirs: set<Path>, src: Path, dst: Path)
    requires Tree(files, dirs) && Parent(dst) != [] && Parent(dst) in dirs
    ensures var t := MoveTarget(dirs, src, dst);
      t != [] && forall j :: 1 <= j < |t| ==> t[..j] in dirs
  {
    var t := MoveTarget(dirs, src, dst);
    forall j | 1 <= j < |t| ensures t[..j] in dirs {
      if dst in dirs {
        if j == |dst| { assert t[..j] == dst; } else { assert t[..j] == dst[..j]; }
      } else {
        var parent := Parent(dst);
        if j == |parent| { assert t[..j] == parent; } else { assert t[..j] == parent[..j]; }
      }
    }
  }
}
