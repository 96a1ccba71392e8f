/** The host file system as the validators see it: which paths exist and which of
    them are directories, and `Path::join`. */
module HostFs {

  /** `paths` exist as files or directories; every entry of `dirs` is a directory. */
  datatype FileSystem = FileSystem(paths: set<string>, dirs: set<string>)

  /** `Path::exists`: a directory always exists. */
  predicate Exists(fs: FileSystem, p: string)
  {
    p in fs.paths || p in fs.dirs
  }

  /** `Path::is_dir`. */
  predicate IsDir(fs: FileSystem, p: string)
  {
    p in fs.dirs
  }

  lemma DirExists(fs: FileSystem, p: string)
    ensures IsDir(fs, p) ==> Exists(fs, p)
  {
  }

  /** `Path::join`: an absolute `rel` replaces the base; otherwise a '/' is put between
      them unless the base is empty or already ends in one. */
  function Join(base: string, rel: string): (p: string)
    ensures |rel| > 0 && rel[0] == '/' ==> p == rel
    ensures !(|rel| > 0 && rel[0] == '/') ==> p == base + rel || p == base + "/" + rel
    ensures base == "" ==> p == rel
  {
    if |rel| > 0 && rel[0] == '/' then rel
    else if base == "" || base[|base| - 1] == '/' then base + rel
    else base + "/" + rel
  }

  /** Different relative paths joined onto the same base give different paths. */
  lemma JoinInjectiveInRel(base: string, a: string, b: string)
    requires !(|a| > 0 && a[0] == '/') && !(|b| > 0 && b[0] == '/')
    ensures Join(base, a) == Join(base, b) <==> a == b
  {
    if Join(base, a) == Join(base, b) {
      if base == "" || base[|base| - 1] == '/' {
        assert a == Join(base, a)[|base|..];
        assert b == Join(base, b)[|base|..];
      } else {
        assert a == Join(base, a)[|base| + 1..];
        assert b == Join(base, b)[|base| + 1..];
      }
    }
  }
}
