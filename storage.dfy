/** The part of the file system the crawl writes to: `Path.mkdir(parents=True, exist_ok=True)`,
    `open(path, "w")` and `write`. */
module Storage {
  import opened Paths

  /** A path and every ancestor of it exist once it has been made. */
  lemma SelfInAncestors(p: Path)
    ensures p in AncestorsOrSelf(p)
  {
    assert Prefix(p, |p.parts|) == p;
  }

  class FileSystem {
    /** The contents of every regular file. */
    var files: map<Path, string>
    /** Every directory. */
    var dirs: set<Path>

    constructor (files0: map<Path, string>, dirs0: set<Path>)
      ensures files == files0 && dirs == dirs0
    {
      files := files0;
      dirs := dirs0;
    }

    /** `p.mkdir(parents=True, exist_ok=True)`: `p` and all its ancestors are directories. */
    method MakeDirs(p: Path)
      modifies this
      ensures dirs == old(dirs) + AncestorsOrSelf(p) && p in dirs
      ensures files == old(files)
    {
      SelfInAncestors(p);
      dirs := dirs + AncestorsOrSelf(p);
    }

    /** `open(p, "w")`: the file exists and is empty. Its directory must exist. */
    method OpenForWrite(p: Path)
      requires Parent(p) in dirs
      modifies this
      ensures files == old(files)[p := ""]
      ensures dirs == old(dirs)
    {
      files := files[p := ""];
    }

    /** `f.write(s)` on a file opened for writing: `s` goes at its end. */
    method Append(p: Path, s: string)
      requires p in files
      modifies this
      ensures files == old(files)[p := old(files)[p] + s]
      ensures dirs == old(dirs)
    {
      files := files[p := files[p] + s];
    }
  }
}
