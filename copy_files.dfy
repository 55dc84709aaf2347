/** files/copy_files.py: copying a source tree over a destination tree,
    file by file, with the overwrite policy deciding each file. Both trees
    are maps from a path relative to the tree's root to the file there. */
module CopyFiles {
  import opened Wrappers

  type Path = string
  type Bytes = seq<bv8>

  /** A file: its modification time, its bytes, and whether it can be read. */
  datatype FileEntry = FileEntry(mtime: int, content: Bytes, readable: bool)

  /** `calculate_file_hash(path)`: the digest of the bytes, or `None` when
      reading fails. `digest` stands for SHA-256's hex digest. */
  function FileHash(f: FileEntry, digest: Bytes -> string): (r: Option<string>)
    ensures r.None? <==> !f.readable
  {
    if f.readable then Some(digest(f.content)) else None
  }

  /** The per-file decision: copy `src` over the destination `dest` (absent
      when there is no file at that path yet)? */
  function ShouldCopy(src: FileEntry, dest: Option<FileEntry>, overwrite: bool, hashOverwrite: bool,
                      digest: Bytes -> string): (r: bool)
    // a missing destination is always filled
    ensures dest.None? ==> r
    // a strictly newer source always wins, whatever the flags
    ensures dest.Some? && src.mtime > dest.value.mtime ==> r
    // `overwrite` forces the copy, before any hash is looked at
    ensures overwrite ==> r
    // with an up-to-date destination and no flags nothing is copied
    ensures dest.Some? && src.mtime <= dest.value.mtime && !overwrite && !hashOverwrite ==> !r
    // `hash_overwrite` copies exactly when the two hashes differ
    ensures dest.Some? && src.mtime <= dest.value.mtime && !overwrite && hashOverwrite ==>
              (r <==> FileHash(src, digest) != FileHash(dest.value, digest))
  {
    match dest
    case None => true
    case Some(d) =>
      if src.mtime > d.mtime then true
      else if overwrite then true
      else if hashOverwrite then FileHash(src, digest) != FileHash(d, digest)
      else false
  }

  /** Two files that both fail to read hash alike (`None == None`), so
      `hash_overwrite` alone never replaces an unreadable destination with an
      unreadable source. */
  lemma UnreadableFilesAreNotCopied(src: FileEntry, dest: FileEntry, digest: Bytes -> string)
    requires !src.readable && !dest.readable && src.mtime <= dest.mtime
    ensures !ShouldCopy(src, Some(dest), false, true, digest)
  {
  }

  /** `dest` after the source file at `p` has been considered. */
  function CopyOne(dest: map<Path, FileEntry>, src: map<Path, FileEntry>, p: Path,
                   overwrite: bool, hashOverwrite: bool, digest: Bytes -> string): map<Path, FileEntry>
    requires p in src
  {
    var existing := if p in dest then Some(dest[p]) else None;
    if ShouldCopy(src[p], existing, overwrite, hashOverwrite, digest) then dest[p := src[p]] else dest
  }

  /** Handling the source file at `p` raises: either the environment makes
      it fail (`faults`: making the directory, reading a time, writing the
      copy), or the policy calls `shutil.copy2` on a source that cannot be
      read, which raises before anything is written. */
  predicate Raises(dest: map<Path, FileEntry>, src: map<Path, FileEntry>, p: Path,
                   overwrite: bool, hashOverwrite: bool, digest: Bytes -> string, faults: set<Path>)
    requires p in src
  {
    var existing := if p in dest then Some(dest[p]) else None;
    p in faults || (!src[p].readable && ShouldCopy(src[p], existing, overwrite, hashOverwrite, digest))
  }

  /** The destination after the walk, and whether an exception stopped it.
      `walk` is the order in which `os.walk` yields the source files; the
      first file whose handling raises ends the whole walk. */
  function CopyAll(dest: map<Path, FileEntry>, src: map<Path, FileEntry>, walk: seq<Path>,
                   overwrite: bool, hashOverwrite: bool, digest: Bytes -> string, faults: set<Path>)
    : (map<Path, FileEntry>, bool)
    requires forall p :: p in walk ==> p in src
    decreases |walk|
  {
    if walk == [] then (dest, false)
    else if Raises(dest, src, walk[0], overwrite, hashOverwrite, digest, faults) then (dest, true)
    else CopyAll(CopyOne(dest, src, walk[0], overwrite, hashOverwrite, digest),
                 src, walk[1..], overwrite, hashOverwrite, digest, faults)
  }

  /** Only source paths are written: a destination file the walk does not
      reach keeps its place and its contents, and no file is ever removed. */
  lemma {:induction false} OnlyWalkedPathsChange(dest: map<Path, FileEntry>, src: map<Path, FileEntry>,
                                                 walk: seq<Path>, overwrite: bool, hashOverwrite: bool,
                                                 digest: Bytes -> string, faults: set<Path>)
    requires forall p :: p in walk ==> p in src
    ensures var r := CopyAll(dest, src, walk, overwrite, hashOverwrite, digest, faults).0;
            dest.Keys <= r.Keys && r.Keys <= dest.Keys + (set p | p in walk) &&
            forall p :: p in dest && p !in walk ==> r[p] == dest[p]
    decreases |walk|
  {
    if walk != [] && !Raises(dest, src, walk[0], overwrite, hashOverwrite, digest, faults) {
      var d := CopyOne(dest, src, walk[0], overwrite, hashOverwrite, digest);
      OnlyWalkedPathsChange(d, src, walk[1..], overwrite, hashOverwrite, digest, faults);
      assert forall p :: p in walk[1..] ==> p in walk;
    }
  }

  /** Without faults each source file's outcome is decided by the policy
      alone, against the destination as it was before the walk: the file at
      the same relative path becomes the source file exactly when
      `ShouldCopy` says so. */
  lemma {:induction false} EachFileFollowsPolicy(dest: map<Path, FileEntry>, src: map<Path, FileEntry>,
                                                 walk: seq<Path>, overwrite: bool, hashOverwrite: bool,
                                                 digest: Bytes -> string, faults: set<Path>, p: Path)
    requires forall q :: q in walk ==> q in src && q !in faults && src[q].readable
    requires forall i, j :: 0 <= i < j < |walk| ==> walk[i] != walk[j]
    requires p in walk
    ensures var r := CopyAll(dest, src, walk, overwrite, hashOverwrite, digest, faults);
            var existing := if p in dest then Some(dest[p]) else None;
            !r.1 && p in r.0 &&
            r.0[p] == if ShouldCopy(src[p], existing, overwrite, hashOverwrite, digest) then src[p] else dest[p]
    decreases |walk|
  {
    var d := CopyOne(dest, src, walk[0], overwrite, hashOverwrite, digest);
    NoFaultNoAbort(d, src, walk[1..], overwrite, hashOverwrite, digest, faults);
    if walk[0] == p {
      assert p !in walk[1..] by {
        forall j | 0 <= j < |walk[1..]| ensures walk[1..][j] != p { assert walk[j + 1] != walk[0]; }
      }
      OnlyWalkedPathsChange(d, src, walk[1..], overwrite, hashOverwrite, digest, faults);
    } else {
      assert p in walk[1..];
      EachFileFollowsPolicy(d, src, walk[1..], overwrite, hashOverwrite, digest, faults, p);
    }
  }

  /** A walk over readable files that meets no fault runs to the end. */
  lemma {:induction false} NoFaultNoAbort(dest: map<Path, FileEntry>, src: map<Path, FileEntry>,
                                          walk: seq<Path>, overwrite: bool, hashOverwrite: bool,
                                          digest: Bytes -> string, faults: set<Path>)
    requires forall q :: q in walk ==> q in src && q !in faults && src[q].readable
    ensures !CopyAll(dest, src, walk, overwrite, hashOverwrite, digest, faults).1
    decreases |walk|
  {
    if walk != [] {
      NoFaultNoAbort(CopyOne(dest, src, walk[0], overwrite, hashOverwrite, digest),
                     src, walk[1..], overwrite, hashOverwrite, digest, faults);
    }
  }

  /** The walk over the first `k` files, then over the rest from where it
      left off, unless it was already stopped. */
  lemma {:induction false} CopyAllSplit(dest: map<Path, FileEntry>, src: map<Path, FileEntry>,
                                        walk: seq<Path>, overwrite: bool, hashOverwrite: bool,
                                        digest: Bytes -> string, faults: set<Path>, k: nat)
    requires forall q :: q in walk ==> q in src
    requires k <= |walk|
    ensures var a := CopyAll(dest, src, walk[..k], overwrite, hashOverwrite, digest, faults);
            CopyAll(dest, src, walk, overwrite, hashOverwrite, digest, faults) ==
            if a.1 then a else CopyAll(a.0, src, walk[k..], overwrite, hashOverwrite, digest, faults)
    decreases k
  {
    if k == 0 {
      assert walk[..k] == [] && walk[k..] == walk;
    } else if !Raises(dest, src, walk[0], overwrite, hashOverwrite, digest, faults) {
      var d := CopyOne(dest, src, walk[0], overwrite, hashOverwrite, digest);
      assert walk[..k][0] == walk[0];
      assert walk[1..][..k - 1] == walk[..k][1..];
      assert walk[1..][k - 1..] == walk[k..];
      CopyAllSplit(d, src, walk[1..], overwrite, hashOverwrite, digest, faults, k - 1);
    } else {
      assert walk[..k][0] == walk[0];
    }
  }

  /** An exception ends the walk: when the walk over the files before `k`
      did not stop and the file at `k` raises against the destination they
      produced, the result is that destination, marked aborted, and nothing
      from `k` on is considered. */
  lemma FaultAbortsRest(dest: map<Path, FileEntry>, src: map<Path, FileEntry>,
                        walk: seq<Path>, overwrite: bool, hashOverwrite: bool,
                        digest: Bytes -> string, faults: set<Path>, k: nat)
    requires forall q :: q in walk ==> q in src
    requires k < |walk|
    requires !CopyAll(dest, src, walk[..k], overwrite, hashOverwrite, digest, faults).1
    requires Raises(CopyAll(dest, src, walk[..k], overwrite, hashOverwrite, digest, faults).0,
                    src, walk[k], overwrite, hashOverwrite, digest, faults)
    ensures CopyAll(dest, src, walk, overwrite, hashOverwrite, digest, faults) ==
            (CopyAll(dest, src, walk[..k], overwrite, hashOverwrite, digest, faults).0, true)
  {
    CopyAllSplit(dest, src, walk, overwrite, hashOverwrite, digest, faults, k);
    assert walk[k..][0] == walk[k];
  }

  /** An unreadable source file that the policy decides to copy raises in
      `shutil.copy2`: the walk stops there and the destination keeps its
      file. */
  lemma UnreadableCopyAborts(dest: map<Path, FileEntry>, src: map<Path, FileEntry>,
                             walk: seq<Path>, overwrite: bool, hashOverwrite: bool,
                             digest: Bytes -> string, faults: set<Path>)
    requires forall q :: q in walk ==> q in src
    requires walk != [] && !src[walk[0]].readable
    requires ShouldCopy(src[walk[0]], if walk[0] in dest then Some(dest[walk[0]]) else None,
                        overwrite, hashOverwrite, digest)
    ensures CopyAll(dest, src, walk, overwrite, hashOverwrite, digest, faults) == (dest, true)
  {
  }

  /** Running the copy a second time changes nothing: every file the first
      run copied is identical on both sides, and every file it skipped is
      skipped again. */
  lemma CopyTwiceIsCopyOnce(dest: map<Path, FileEntry>, src: map<Path, FileEntry>,
                            walk: seq<Path>, overwrite: bool, hashOverwrite: bool,
                            digest: Bytes -> string, faults: set<Path>)
    requires forall q :: q in walk ==> q in src && q !in faults && src[q].readable
    requires forall i, j :: 0 <= i < j < |walk| ==> walk[i] != walk[j]
    ensures var once := CopyAll(dest, src, walk, overwrite, hashOverwrite, digest, faults).0;
            CopyAll(once, src, walk, overwrite, hashOverwrite, digest, faults).0 == once
  {
    var once := CopyAll(dest, src, walk, overwrite, hashOverwrite, digest, faults).0;
    var twice := CopyAll(once, src, walk, overwrite, hashOverwrite, digest, faults).0;
    OnlyWalkedPathsChange(dest, src, walk, overwrite, hashOverwrite, digest, faults);
    OnlyWalkedPathsChange(once, src, walk, overwrite, hashOverwrite, digest, faults);
    forall p | p in walk ensures p in once && p in twice && twice[p] == once[p] {
      EachFileFollowsPolicy(dest, src, walk, overwrite, hashOverwrite, digest, faults, p);
      EachFileFollowsPolicy(once, src, walk, overwrite, hashOverwrite, digest, faults, p);
    }
    assert twice.Keys == once.Keys;
  }

  /** Without faults the order in which `os.walk` yields the files does not
      matter: two walks over the same files give the same destination. */
  lemma WalkOrderIrrelevant(dest: map<Path, FileEntry>, src: map<Path, FileEntry>,
                            walk1: seq<Path>, walk2: seq<Path>, overwrite: bool, hashOverwrite: bool,
                            digest: Bytes -> string, faults: set<Path>)
    requires forall q :: q in walk1 ==> q in src && q !in faults && src[q].readable
    requires forall q :: q in walk1 <==> q in walk2
    requires forall i, j :: 0 <= i < j < |walk1| ==> walk1[i] != walk1[j]
    requires forall i, j :: 0 <= i < j < |walk2| ==> walk2[i] != walk2[j]
    ensures CopyAll(dest, src, walk1, overwrite, hashOverwrite, digest, faults) ==
            CopyAll(dest, src, walk2, overwrite, hashOverwrite, digest, faults)
  {
    var r1 := CopyAll(dest, src, walk1, overwrite, hashOverwrite, digest, faults);
    var r2 := CopyAll(dest, src, walk2, overwrite, hashOverwrite, digest, faults);
    NoFaultNoAbort(dest, src, walk1, overwrite, hashOverwrite, digest, faults);
    NoFaultNoAbort(dest, src, walk2, overwrite, hashOverwrite, digest, faults);
    OnlyWalkedPathsChange(dest, src, walk1, overwrite, hashOverwrite, digest, faults);
    OnlyWalkedPathsChange(dest, src, walk2, overwrite, hashOverwrite, digest, faults);
    forall p | p in walk1 ensures p in r1.0 && p in r2.0 && r1.0[p] == r2.0[p] {
      EachFileFollowsPolicy(dest, src, walk1, overwrite, hashOverwrite, digest, faults, p);
      EachFileFollowsPolicy(dest, src, walk2, overwrite, hashOverwrite, digest, faults, p);
    }
    assert r1.0.Keys == r2.0.Keys;
    forall p | p in r1.0 ensures r1.0[p] == r2.0[p] {
      if p !in walk1 {
        assert p in dest && p !in walk2;
      }
    }
    assert r1.0 == r2.0;
    assert r1.1 == r2.1;
  }

  /** The destination directory on disk. */
  class DestTree {
    var files: map<Path, FileEntry>

    constructor (files: map<Path, FileEntry>)
      ensures this.files == files
    {
      this.files := files;
    }

    /** `shutil.copy2(src_path, dest_path)`: the bytes and the modification
        time are copied, creating or replacing the file at `p`. A source that
        cannot be read raises (`ok` is false) before anything is written. */
    method Copy2(p: Path, f: FileEntry) returns (ok: bool)
      modifies this
      ensures ok == f.readable
      ensures files == if ok then old(files)[p := f] else old(files)
    {
      ok := f.readable;
      if ok {
        files := files[p := f];
      }
    }
  }

  /** `copy_files(src_dir, dest_dir, overwrite, hash_overwrite)`. */
  method CopyFilesTo(dest: DestTree, src: map<Path, FileEntry>, walk: seq<Path>, digest: Bytes -> string,
                     faults: set<Path>, overwrite: bool := false, hashOverwrite: bool := false)
    returns (aborted: bool)
    requires forall p :: p in walk <==> p in src
    modifies dest
    ensures (dest.files, aborted) == CopyAll(old(dest.files), src, walk, overwrite, hashOverwrite, digest, faults)
  {
    ghost var start := dest.files;
    var i := 0;
    while i < |walk|
      invariant 0 <= i <= |walk|
      invariant CopyAll(start, src, walk, overwrite, hashOverwrite, digest, faults) ==
                CopyAll(dest.files, src, walk[i..], overwrite, hashOverwrite, digest, faults)
    {
      var p := walk[i];
      if p in faults {
        return true;
      }
      var s := src[p];
      var copy := false;
      if p in dest.files {
        var d := dest.files[p];
        if s.mtime > d.mtime {
          copy := true;
        } else if overwrite {
          copy := true;
        } else if hashOverwrite {
          var srcHash := FileHash(s, digest);
          var destHash := FileHash(d, digest);
          copy := srcHash != destHash;
        }
      } else {
        copy := true;
      }
      if copy {
        var ok := dest.Copy2(p, s);
        if !ok {
          return true;
        }
      }
      assert walk[i..][1..] == walk[i + 1..];
      i := i + 1;
    }
    aborted := false;
  }
}
