/** The instructions directory (`config.GetInstructionsDir()`) as the
    instruction commands see it: the entries directly inside it, one per
    instruction name, and the files inside those entries. Reads and writes
    are the `os.Stat`, `os.MkdirAll`, `os.ReadFile` and `os.WriteFile` calls
    of internal/instruction/create.go and internal/instruction/version.go;
    writes are taken to succeed. */
module Store {
  import opened Wrappers

  /** `filepath.Join(instructionsDir, dir, file)`. */
  datatype Path = Path(dir: string, file: string)

  class InstructionsDir {
    /** The names present in the directory. */
    var entries: set<string>
    /** File contents, by path. */
    var files: map<Path, string>

    /** Every file lives inside an entry. */
    predicate Valid()
      reads this
    {
      forall p :: p in files ==> p.dir in entries
    }

    constructor (entries: set<string>, files: map<Path, string>)
      requires forall p :: p in files ==> p.dir in entries
      ensures Valid()
      ensures this.entries == entries && this.files == files
    {
      this.entries := entries;
      this.files := files;
    }

    /** `os.ReadFile`: the contents, or `None` when there is no such file. */
    function ReadFile(p: Path): Option<string>
      reads this
    {
      if p in files then Some(files[p]) else None
    }

    /** `os.MkdirAll` of one entry. */
    method MkdirAll(dir: string)
      requires Valid()
      modifies this
      ensures Valid()
      ensures entries == old(entries) + {dir} && files == old(files)
    {
      entries := entries + {dir};
    }

    /** `os.WriteFile` into an existing entry: creates or replaces the file. */
    method WriteFile(p: Path, data: string)
      requires Valid() && p.dir in entries
      modifies this
      ensures Valid()
      ensures entries == old(entries) && files == old(files)[p := data]
    {
      files := files[p := data];
    }
  }
}
