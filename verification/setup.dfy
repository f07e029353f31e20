/** `inicializar`: the directory layout the processor works in. */
module Setup {
  import opened Wrappers
  import opened Paths
  import opened FileStore
  import opened Artifacts

  /** Creates the base directory, then `procesados`, then `errores`, each
      with its missing ancestors. The first failure ends the sequence and
      is only logged, so the call never fails. */
  function Initialize(cfg: Config, st: Store): (st': Store)
    ensures st'.files == st.files
    ensures st.dirs <= st'.dirs
    ensures st'.dirs <= st.dirs + DirectoryChain(cfg.base) + DirectoryChain(ProcessedDir(cfg)) + DirectoryChain(ErrorsDir(cfg))
  {
    match MakeDirectory(st, cfg.base)
    case Failure(_) => st
    case Success(s1) =>
      match MakeDirectory(s1, ProcessedDir(cfg))
      case Failure(_) => s1
      case Success(s2) =>
        match MakeDirectory(s2, ErrorsDir(cfg))
        case Failure(_) => s2
        case Success(s3) => s3
  }

  /** No directory of the layout, nor any of their ancestors, is a file. */
  predicate LayoutIsFree(cfg: Config, st: Store) {
    forall q :: q in DirectoryChain(cfg.base) + DirectoryChain(ProcessedDir(cfg)) + DirectoryChain(ErrorsDir(cfg))
      ==> q !in st.files
  }

  /** When nothing blocks the layout, all three directories exist
      afterwards. */
  lemma InitializeCreatesLayout(cfg: Config, st: Store)
    requires LayoutIsFree(cfg, st)
    ensures var st' := Initialize(cfg, st);
      cfg.base in st'.dirs && ProcessedDir(cfg) in st'.dirs && ErrorsDir(cfg) in st'.dirs
  {
    var s1 := MakeDirectory(st, cfg.base).value;
    var s2 := MakeDirectory(s1, ProcessedDir(cfg)).value;
    assert MakeDirectory(s2, ErrorsDir(cfg)).Success?;
  }

  lemma MakeDirectoryAgain(st: Store, p: Path)
    requires MakeDirectory(st, p).Success?
    ensures MakeDirectory(MakeDirectory(st, p).value, p) == MakeDirectory(st, p)
  {
    var s1 := MakeDirectory(st, p).value;
    assert s1.dirs + DirectoryChain(p) == s1.dirs;
  }

  /** Initialising twice is initialising once. */
  lemma InitializeIdempotent(cfg: Config, st: Store)
    ensures Initialize(cfg, Initialize(cfg, st)) == Initialize(cfg, st)
  {
    var b, pd, ed := cfg.base, ProcessedDir(cfg), ErrorsDir(cfg);
    var once := Initialize(cfg, st);
    if MakeDirectory(st, b).Success? {
      var s1 := MakeDirectory(st, b).value;
      if MakeDirectory(s1, pd).Success? {
        var s2 := MakeDirectory(s1, pd).value;
        if MakeDirectory(s2, ed).Success? {
          var s3 := MakeDirectory(s2, ed).value;
          assert once == s3;
          assert s3.dirs + DirectoryChain(b) == s3.dirs;
          assert s3.dirs + DirectoryChain(pd) == s3.dirs;
          assert s3.dirs + DirectoryChain(ed) == s3.dirs;
        } else {
          assert once == s2;
          assert s2.dirs + DirectoryChain(b) == s2.dirs;
          assert s2.dirs + DirectoryChain(pd) == s2.dirs;
        }
      } else {
        assert once == s1;
        assert s1.dirs + DirectoryChain(b) == s1.dirs;
      }
    }
  }
}
