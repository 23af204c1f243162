/** The file system a patch is committed to.

    A path is the empty string (`NoPath`), a name a patch or user can write, or a name
    handed out by os.CreateTemp.  Every call that the commit makes on its way forward may
    fail without effect; the calls that put things back or clean up fail exactly when the
    file they work on is missing. */
module Disk {
  import opened Prelude

  datatype Path = NoPath | Named(name: string) | Temp(id: nat)

  /** A file is its text. */
  type Content = string

  type Tree = map<Path, Content>

  /** os.Rename: a missing source or an empty target leaves the tree alone. */
  function Move(t: Tree, src: Path, dst: Path): Tree {
    if src in t && dst != NoPath then (t - {src})[dst := t[src]] else t
  }

  class FileSystem {
    var files: Tree
    /** Temp names are drawn in order, so no name is ever handed out twice. */
    var nextTemp: nat
    /** How often os.Stat has returned an error for a file that was there. */
    ghost var misreads: nat
    /** How often another call has failed though nothing in the tree was in its way. */
    ghost var faults: nat

    ghost predicate Valid()
      reads this
    {
      NoPath !in files && forall p :: p in files && p.Temp? ==> p.id < nextTemp
    }

    /** os.Stat, reduced to "err == nil". */
    method Stat(p: Path) returns (found: bool)
      modifies this`misreads
      ensures found ==> p in files
      ensures misreads == if p in files && !found then old(misreads) + 1 else old(misreads)
    {
      var fault: bool := *;
      found := p in files && !fault;
      misreads := if p in files && !found then misreads + 1 else misreads;
    }

    /** os.CreateTemp: a new empty file under a name nothing else has. */
    method CreateTemp() returns (r: Option<Path>)
      requires Valid()
      modifies this`files, this`nextTemp, this`faults
      ensures Valid() && faults == if r.None? then old(faults) + 1 else old(faults)
      ensures r.Some? ==> r.value == Temp(old(nextTemp)) && nextTemp == old(nextTemp) + 1
      ensures r.Some? ==> files == old(files)[r.value := ""]
      ensures r.None? ==> files == old(files) && nextTemp == old(nextTemp)
    {
      var fault: bool := *;
      if fault {
        faults := faults + 1;
        return None;
      }
      r := Some(Temp(nextTemp));
      files := files[r.value := ""];
      nextTemp := nextTemp + 1;
    }

    /** os.Rename on the way forward. */
    method Rename(src: Path, dst: Path) returns (ok: bool)
      requires Valid()
      requires dst.Temp? ==> dst.id < nextTemp
      modifies this`files, this`faults
      ensures Valid()
      ensures ok ==> src in old(files) && dst != NoPath && files == Move(old(files), src, dst)
      ensures !ok ==> files == old(files)
      ensures faults == if !ok && src in old(files) && dst != NoPath then old(faults) + 1 else old(faults)
    {
      var fault: bool := *;
      ok := src in files && dst != NoPath && !fault;
      faults := if !ok && src in files && dst != NoPath then faults + 1 else faults;
      if ok {
        files := Move(files, src, dst);
      }
    }

    /** os.Rename used to put a file back. */
    method RenameBack(src: Path, dst: Path) returns (ok: bool)
      requires Valid()
      requires dst.Temp? ==> dst.id < nextTemp
      modifies this`files
      ensures Valid()
      ensures files == Move(old(files), src, dst)
      ensures ok <==> src in old(files) && dst != NoPath
    {
      ok := src in files && dst != NoPath;
      files := Move(files, src, dst);
    }

    /** os.Remove used to clean up. */
    method Remove(p: Path) returns (ok: bool)
      requires Valid()
      modifies this`files
      ensures Valid()
      ensures files == old(files) - {p}
      ensures ok <==> p in old(files)
    {
      ok := p in files;
      files := files - {p};
    }

    method ReadFile(p: Path) returns (r: Option<Content>)
      modifies this`faults
      ensures r.Some? ==> p in files && r.value == files[p]
      ensures faults == if r.None? && p in files then old(faults) + 1 else old(faults)
    {
      var fault: bool := *;
      r := if p in files && !fault then Some(files[p]) else None;
      faults := if r.None? && p in files then faults + 1 else faults;
    }

    /** Writes a temp file that exists; a failed write may leave part of the content. */
    method Write(p: Path, c: Content) returns (ok: bool)
      requires Valid() && p in files
      modifies this`files, this`faults
      ensures Valid() && faults == if ok then old(faults) else old(faults) + 1
      ensures ok ==> files == old(files)[p := c]
      ensures p in files && files - {p} == old(files) - {p}
    {
      ok := *;
      var part: Content := *;
      faults := if ok then faults else faults + 1;
      files := files[p := if ok then c else part];
    }
  }
}
