/** The file calls as one entry point, proved to be one step of a run, and a shutdown followed by a
    mount. */
module FileCalls {
  import opened Fat
  import opened FatFiles
  import opened FatDisk
  import opened FatRuns
  import opened FileEngine

  /** The object is mounted and its open files are well-formed chains of the volume. */
  ghost predicate Serves(fs: FileSystem)
    reads fs, fs.image, fs.fat, fs.root
  {
    fs.Valid() && TableOk(fs.Table()) && OnVolume(fs.Table(), fs.Held())
  }

  /** What a caller owes: a fresh directory entry for a new file, a pointer inside the chain for a
      write, and clusters free on the volume for both. */
  ghost predicate Callable(fs: FileSystem, op: Op, e: nat)
    requires fs.Valid()
    reads fs, fs.image, fs.fat, fs.root
  {
    match op
    case Creating(stale) =>
      && HasEntry(fs.root[..], e) && EntryFirst(fs.root[..], e) == stale
      && (forall i :: 0 <= i < |fs.open| ==> fs.open[i].entry != e)
      && FreeBelow(fs.fat[..], fs.Held()) > 0
    case Writing(i, msg) => i < |fs.open| && msg != [] ==>
      && fs.open[i].ptr < |Flat(fs.Vol(), Chain(fs.Table(), i))|
      && NewClusters(fs.Table(), i, |msg|) <= FreeBelow(fs.fat[..], fs.Held())
    case _ => true
  }

  /** One call on the object is one operation on the table of files, and leaves the object ready
      for the next. */
  method Perform(fs: FileSystem, op: Op, e: nat) returns (a: Answer)
    requires Serves(fs) && Callable(fs, op, e)
    modifies fs, fs.image`position, fs.fat, fs.root
    ensures old(fs.State().Ok(fs.g)) ==> fs.State().Ok(fs.g)
    ensures Serves(fs) && a == Do(old(fs.Table()), op).0 && fs.Table() == Do(old(fs.Table()), op).1
  {
    StepStays(fs.Table(), op, fs.Held());
    a := Failure;
    match op {
      case Creating(_) => fs.CreateFile(e); a := Done;
      case Reading(i, length) => if i < |fs.open| { var data := fs.FileRead(i, length); a := Got(data); }
      case Writing(i, msg) => if i < |fs.open| { var n := fs.FileWrite(i, msg); a := Count(n); }
      case Seeking(i, offset, whence) => if i < |fs.open| { var p := fs.FileSeek(i, offset, whence); a := Count(p); }
      case Opening(i, truncate, append) => if i < |fs.open| { fs.OpenExisting(i, truncate, append); a := Done; }
    }
  }

  /** Shutting down and mounting the image again: the new object has the same table and the same
      root directory, and every chain the same bytes. */
  method Remount(fs: FileSystem) returns (fs': FileSystem)
    requires fs.State().Ok(fs.g) && GeometryOf(fs.image.sectors[0]) == fs.g
    modifies fs.image
    ensures fs'.State().fat == old(fs.State().fat) && fs'.State().root == old(fs.State().root)
    ensures forall cs :: IsChain(old(fs.State().fat), cs) ==> Flat(fs'.Vol(), cs) == old(Flat(fs.Vol(), cs))
  {
    ghost var m := fs.State();
    fs.WriteBack();
    ShutdownThenMount(fs.g, m);
    fs' := new FileSystem(fs.image);
    forall cs | IsChain(m.fat, cs) ensures Flat(fs'.Vol(), cs) == Flat(m.Vol(), cs) {
      FilesSurviveRemount(fs.g, m, cs);
    }
  }
}
