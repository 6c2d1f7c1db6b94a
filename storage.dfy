/** The file system as the program changes it: a store from paths to contents, from
    which `os.remove` deletes. */
module Storage {
  import opened Types
  import opened Paths

  /** What `os.remove` does with a path: deletes the file, or raises
      `FileNotFoundError` because there is no such file. */
  datatype RemoveOutcome = Removed | NotFound

  class FileStore {
    var files: map<Path, Bytes>

    constructor (files: map<Path, Bytes>)
      ensures this.files == files
    {
      this.files := files;
    }

    /** `os.remove(p)`: afterwards `p` is gone and every other file is as it was; the
        outcome says whether it was there. */
    method Remove(p: Path) returns (outcome: RemoveOutcome)
      modifies this
      ensures outcome == if p in old(files) then Removed else NotFound
      ensures files == old(files) - {p}
    {
      if p in files {
        files := files - {p};
        outcome := Removed;
      } else {
        outcome := NotFound;
      }
    }
  }
}
