/** The file system the store runs on: names point to inodes, and a hard link gives an inode a second name. */
module FileSystem {
  import opened Wrappers
  import opened Paths

  datatype FS = FS(names: map<Path, nat>, data: seq<string>, dirs: set<Path>)
  {
    ghost predicate Valid() {
      && (forall p | p in names :: names[p] < |data|)
      && names.Keys !! dirs
    }

    predicate Exists(p: Path) { p in names || p in dirs }

    function TextAt(p: Path): Option<string> {
      if p in names && names[p] < |data| then Some(data[names[p]]) else None
    }
  }

  const EMPTY: FS := FS(map[], [], {})

  function Parent(p: Path): Path
    requires p != []
  {
    p[..|p| - 1]
  }

  function Prefixes(p: Path): set<Path> {
    set k | 0 <= k <= |p| :: p[..k]
  }

  /** `mkdir(parents=True, exist_ok=True)`: fails where a file is in the way. */
  function Mkdirs(fs: FS, dir: Path): Option<FS> {
    if Prefixes(dir) * fs.names.Keys == {} then Some(fs.(dirs := fs.dirs + Prefixes(dir))) else None
  }

  /** `open(p, "w")` on a name that does not exist: an empty new inode, the last one. */
  function OpenNew(fs: FS, p: Path): FS {
    fs.(names := fs.names[p := |fs.data|], data := fs.data + [""])
  }

  /** A write through an open handle goes to its inode, whatever names that has by now. */
  function WriteInode(fs: FS, inode: nat, text: string): FS
    requires inode < |fs.data|
  {
    fs.(data := fs.data[inode := fs.data[inode] + text])
  }

  /** `os.replace(from, to)`. */
  function Replace(fs: FS, from: Path, to: Path): FS
    requires from in fs.names
  {
    fs.(names := (fs.names - {from})[to := fs.names[from]])
  }

  /** `os.link(from, to)`. */
  function Link(fs: FS, from: Path, to: Path): FS
    requires from in fs.names && !fs.Exists(to)
  {
    fs.(names := fs.names[to := fs.names[from]])
  }

  /** `unlink(missing_ok=True)`. */
  function Unlink(fs: FS, p: Path): FS {
    fs.(names := fs.names - {p})
  }

  /** `open(p, "a")` and one write. */
  function AppendText(fs: FS, p: Path, text: string): FS
    requires fs.Valid()
  {
    if p in fs.names then WriteInode(fs, fs.names[p], text)
    else WriteInode(OpenNew(fs, p), |fs.data|, text)
  }
}
