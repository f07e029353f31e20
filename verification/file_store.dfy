/** An abstract local file system standing in for the `fs` calls the
    processor makes. A store maps each file path to its decoded text, or to
    `None` when the file exists but cannot be read or overwritten (no
    permission), and records which directories exist. Whether a read, a
    write, a rename or a recursive `mkdir` succeeds is determined by the
    store alone. */
module FileStore {
  import opened Wrappers
  import opened Paths

  datatype ErrorCode = ENOENT | EACCES | EISDIR | ENOTDIR | EEXIST

  /** A Node system error: its code, the system call and the path involved. */
  datatype IoError = IoError(code: ErrorCode, syscall: string, path: Path)

  datatype Store = Store(files: map<Path, Option<string>>, dirs: set<Path>)

  function CodeText(code: ErrorCode): string {
    match code
    case ENOENT => "ENOENT: no such file or directory"
    case EACCES => "EACCES: permission denied"
    case EISDIR => "EISDIR: illegal operation on a directory"
    case ENOTDIR => "ENOTDIR: not a directory"
    case EEXIST => "EEXIST: file already exists"
  }

  /** `error.message` in the shape `<CODE>: <description>, <syscall> '<path>'`. */
  function Message(e: IoError): string {
    CodeText(e.code) + ", " + e.syscall + " '" + e.path + "'"
  }

  /** What the store holds at `p`: `None` when there is no file there. */
  function Lookup(st: Store, p: Path): Option<Option<string>> {
    if p in st.files then Some(st.files[p]) else None
  }

  /** `p` can be created or overwritten: its parent directory exists, it is
      not itself a directory, and it is not an existing protected file. */
  predicate CanWrite(st: Store, p: Path) {
    p !in st.dirs && Dirname(p) in st.dirs && Lookup(st, p) != Some(None)
  }

  /** A file stands where the parent directory of `p` should be, so Node
      reports `ENOTDIR` for `p` rather than `ENOENT`. */
  predicate ParentIsFile(st: Store, p: Path) {
    Dirname(p) in st.files
  }

  /** Two stores agree everywhere except possibly on the paths in `changed`. */
  ghost predicate AgreeOutside(st: Store, st': Store, changed: set<Path>) {
    && st'.dirs == st.dirs
    && forall q :: q !in changed ==> Lookup(st', q) == Lookup(st, q)
  }

  /** Reading off one path from a frame over three changed paths. */
  lemma UnchangedOutsideThree(st: Store, st': Store, a: Path, b: Path, c: Path, x: Path)
    requires AgreeOutside(st, st', {a, b, c}) && x != a && x != b && x != c
    ensures Lookup(st', x) == Lookup(st, x)
  {
  }

  /** Changes made one after the other agree outside both change sets. */
  lemma AgreeOutsideCompose(s1: Store, s2: Store, s3: Store, a: set<Path>, b: set<Path>)
    requires AgreeOutside(s1, s2, a) && AgreeOutside(s2, s3, b)
    ensures AgreeOutside(s1, s3, a + b)
  {
  }

  lemma AgreeOutsideWiden(st: Store, st': Store, a: set<Path>, b: set<Path>)
    requires AgreeOutside(st, st', a) && a <= b
    ensures AgreeOutside(st, st', b)
  {
  }

  /** Whether a path the change set leaves out can be read, and what it
      holds, are unchanged; so is the error, when its parent is left out
      too. */
  lemma ReadFileOutside(st: Store, st': Store, changed: set<Path>, p: Path)
    requires AgreeOutside(st, st', changed) && p !in changed
    ensures ReadFile(st', p).Success? == ReadFile(st, p).Success?
    ensures ReadFile(st, p).Success? ==> ReadFile(st', p) == ReadFile(st, p)
    ensures Dirname(p) !in changed ==> ReadFile(st', p) == ReadFile(st, p)
  {
    assert Lookup(st', p) == Lookup(st, p);
    if Dirname(p) !in changed {
      assert Lookup(st', Dirname(p)) == Lookup(st, Dirname(p));
    }
  }

  /** Writability of a path the change set leaves out is unchanged. */
  lemma CanWriteOutside(st: Store, st': Store, changed: set<Path>, p: Path)
    requires AgreeOutside(st, st', changed) && p !in changed
    ensures CanWrite(st', p) == CanWrite(st, p)
  {
    assert Lookup(st', p) == Lookup(st, p);
  }

  /** `fs.readFile(p, "utf8")`. */
  function ReadFile(st: Store, p: Path): (r: Result<string, IoError>)
    ensures r.Success? <==> p !in st.dirs && Lookup(st, p).Some? && Lookup(st, p).value.Some?
    ensures r.Success? ==> Lookup(st, p) == Some(Some(r.value))
    ensures r.Failure? ==> r.error.path == p
    ensures r.Failure? ==> (r.error.code == ENOTDIR <==> p !in st.dirs && p !in st.files && ParentIsFile(st, p))
    ensures r.Failure? ==> (r.error.code == ENOENT <==> p !in st.dirs && p !in st.files && !ParentIsFile(st, p))
  {
    if p in st.dirs then Failure(IoError(EISDIR, "read", p))
    else if p !in st.files then Failure(IoError(if ParentIsFile(st, p) then ENOTDIR else ENOENT, "open", p))
    else match st.files[p]
      case None => Failure(IoError(EACCES, "open", p))
      case Some(text) => Success(text)
  }

  /** `fs.writeFile(p, content)`. */
  function WriteFile(st: Store, p: Path, content: string): (r: Result<Store, IoError>)
    ensures r.Success? <==> CanWrite(st, p)
    ensures r.Success? ==> ReadFile(r.value, p) == Success(content)
    ensures r.Success? ==> AgreeOutside(st, r.value, {p})
    ensures r.Failure? ==> r.error.path == p
    ensures r.Failure? ==> (r.error.code == ENOTDIR <==> p !in st.dirs && Dirname(p) !in st.dirs && ParentIsFile(st, p))
    ensures r.Failure? ==> (r.error.code == ENOENT <==> p !in st.dirs && Dirname(p) !in st.dirs && !ParentIsFile(st, p))
  {
    if p in st.dirs then Failure(IoError(EISDIR, "open", p))
    else if Dirname(p) !in st.dirs then Failure(IoError(if ParentIsFile(st, p) then ENOTDIR else ENOENT, "open", p))
    else if p in st.files && st.files[p].None? then Failure(IoError(EACCES, "open", p))
    else Success(st.(files := st.files[p := Some(content)]))
  }

  /** `fs.rename(from, to)` of a file: replaces whatever file is at `to`.
      The store keeps no tree under a directory, so a directory at `from`
      is not moved and the call fails as for a missing file. */
  function Rename(st: Store, from: Path, to: Path): (r: Result<Store, IoError>)
    ensures r.Success? <==> from in st.files && to !in st.dirs && Dirname(to) in st.dirs
    ensures r.Success? ==> Lookup(r.value, to) == Lookup(st, from)
    ensures r.Success? && from != to ==> Lookup(r.value, from) == None
    ensures r.Success? ==> AgreeOutside(st, r.value, {from, to})
    ensures r.Failure? ==> r.error.path == (if from in st.files then to else from)
    ensures r.Failure? ==> (r.error.code == ENOTDIR <==>
      if from in st.files then to !in st.dirs && Dirname(to) !in st.dirs && ParentIsFile(st, to)
      else ParentIsFile(st, from))
  {
    if from !in st.files then Failure(IoError(if ParentIsFile(st, from) then ENOTDIR else ENOENT, "rename", from))
    else if to in st.dirs then Failure(IoError(EISDIR, "rename", to))
    else if Dirname(to) !in st.dirs then Failure(IoError(if ParentIsFile(st, to) then ENOTDIR else ENOENT, "rename", to))
    else Success(st.(files := (st.files - {from})[to := st.files[from]]))
  }

  /** When the parent of a missing `p` is a file, reading, writing or
      renaming onto `p` fails with `ENOTDIR` naming `p`. */
  lemma ParentFileIsNotADirectory(st: Store, p: Path, from: Path, content: string)
    requires Dirname(p) in st.files && Dirname(p) !in st.dirs
    requires p !in st.files && p !in st.dirs && from in st.files
    ensures ReadFile(st, p) == Failure(IoError(ENOTDIR, "open", p))
    ensures WriteFile(st, p, content) == Failure(IoError(ENOTDIR, "open", p))
    ensures Rename(st, from, p) == Failure(IoError(ENOTDIR, "rename", p))
  {
  }

  /** `p` and every proper ancestor of `p` that ends at a separator. */
  function DirectoryChain(p: Path): set<Path> {
    {p} + set i | 0 < i < |p| && p[i] == '/' :: p[..i]
  }

  /** `fs.mkdir(p, { recursive: true })`: creates `p` and its missing
      ancestors; fails when `p` or one of them is a file. */
  function MakeDirectory(st: Store, p: Path): (r: Result<Store, IoError>)
    ensures r.Success? <==> forall q :: q in DirectoryChain(p) ==> q !in st.files
    ensures r.Success? ==> p in r.value.dirs && st.dirs <= r.value.dirs
    ensures r.Success? ==> r.value.files == st.files
    ensures r.Success? ==> r.value.dirs == st.dirs + DirectoryChain(p)
  {
    var chain := DirectoryChain(p);
    if p in st.files then Failure(IoError(EEXIST, "mkdir", p))
    else if exists q :: q in chain && q in st.files then Failure(IoError(ENOTDIR, "mkdir", p))
    else Success(st.(dirs := st.dirs + chain))
  }
}
