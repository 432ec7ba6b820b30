/**
 * The host file system as the node sees it: regular files with their
 * text, and directories, all named by absolute path.
 */
module FileStore {
  import opened Text

  /** The proper ancestors `mkdirs` creates along with a path. */
  function Ancestors(path: string): (r: set<string>)
    ensures forall a | a in r :: |a| < |path| && path[..|a|] == a && path[|a|] == Separator[0]
  {
    set k | 0 < k < |path| && path[k] == Separator[0] :: path[..k]
  }

  /** Every directory `mkdirs(path)` wants to exist afterwards. */
  function MakeDirsTargets(path: string): set<string> {
    Ancestors(path) + {path}
  }

  class Store {
    var files: map<string, string>
    var dirs: set<string>

    constructor(files0: map<string, string>, dirs0: set<string>)
      ensures files == files0 && dirs == dirs0
    {
      files := files0;
      dirs := dirs0;
    }

    /** `File.exists`: a file or a directory by that name. */
    predicate Exists(path: string)
      reads this
    {
      path in files || path in dirs
    }

    /**
     * `File.mkdirs`: creates the directory and its missing ancestors, or
     * nothing when a regular file stands in the way.
     */
    method MakeDirs(path: string)
      modifies this
      ensures files == old(files)
      ensures (exists d | d in MakeDirsTargets(path) :: d in old(files)) ==> dirs == old(dirs)
      ensures (forall d | d in MakeDirsTargets(path) :: d !in old(files)) ==> dirs == old(dirs) + MakeDirsTargets(path)
    {
      var targets := MakeDirsTargets(path);
      if forall d | d in targets :: d !in files {
        dirs := dirs + targets;
      }
    }
  }
}
