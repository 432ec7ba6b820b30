/**
 * The working directory `execute` creates under the temporary root: a
 * name `PPinference` followed by a random number written with at least
 * six digits, drawn again while that name exists.
 */
module Workspace {
  import opened Wrappers
  import opened Text
  import opened FileStore

  const DirPrefix: string := "PPinference"

  /** `Integer.MAX_VALUE`, the exclusive bound `nextInt` is called with. */
  const IntMax: int := 0x7fff_ffff

  /** One value of `nextInt(Integer.MAX_VALUE)`. */
  type Draw = x: int | 0 <= x < IntMax

  /** `tmpdir + File.separator + String.format("%s%06d", "PPinference", num)`. */
  function WorkingDirName(tmpRoot: string, num: Draw): string {
    tmpRoot + Separator + DirPrefix + Format06(num)
  }

  /** Distinct draws name distinct directories. */
  lemma WorkingDirNameInjective(tmpRoot: string, a: Draw, b: Draw)
    ensures WorkingDirName(tmpRoot, a) == WorkingDirName(tmpRoot, b) <==> a == b
  {
    if WorkingDirName(tmpRoot, a) == WorkingDirName(tmpRoot, b) {
      var k := |tmpRoot + Separator + DirPrefix|;
      assert Format06(a) == WorkingDirName(tmpRoot, a)[k..];
      assert Format06(b) == WorkingDirName(tmpRoot, b)[k..];
      Format06Injective(a, b);
    }
  }

  /** `File.exists` on the store's contents. */
  predicate Taken(files: map<string, string>, dirs: set<string>, path: string) {
    path in files || path in dirs
  }

  /** The names the successive draws give, in order. */
  function Candidates(tmpRoot: string, draws: seq<Draw>): (r: seq<string>)
    ensures |r| == |draws| && forall j | 0 <= j < |draws| :: r[j] == WorkingDirName(tmpRoot, draws[j])
  {
    seq(|draws|, j requires 0 <= j < |draws| => WorkingDirName(tmpRoot, draws[j]))
  }

  /** The first of `names` that does not exist. */
  function FirstFree(files: map<string, string>, dirs: set<string>, names: seq<string>): Option<string>
    decreases |names|
  {
    if names == [] then None
    else if Taken(files, dirs, names[0]) then FirstFree(files, dirs, names[1..])
    else Some(names[0])
  }

  /** The name the retry loop settles on: that of the first draw whose name is free. */
  function FreeName(files: map<string, string>, dirs: set<string>, tmpRoot: string, draws: seq<Draw>): Option<string> {
    FirstFree(files, dirs, Candidates(tmpRoot, draws))
  }

  /**
   * `FirstFree` settles on some name `k` that is free, after names that
   * were all taken; it settles on nothing only when every name is taken.
   */
  lemma {:induction false} FirstFreeIsFirst(files: map<string, string>, dirs: set<string>, names: seq<string>)
    ensures var r := FirstFree(files, dirs, names);
      (r.Some? ==> exists k | 0 <= k < |names| ::
         r.value == names[k] && !Taken(files, dirs, names[k]) &&
         forall j | 0 <= j < k :: Taken(files, dirs, names[j])) &&
      (r.None? <==> forall j | 0 <= j < |names| :: Taken(files, dirs, names[j]))
    decreases |names|
  {
    if names != [] {
      var rest := names[1..];
      FirstFreeIsFirst(files, dirs, rest);
      var r := FirstFree(files, dirs, names);
      if Taken(files, dirs, names[0]) {
        assert r == FirstFree(files, dirs, rest);
        if r.Some? {
          var k :| 0 <= k < |rest| && r.value == rest[k] && !Taken(files, dirs, rest[k]) &&
                   forall j | 0 <= j < k :: Taken(files, dirs, rest[j]);
          assert names[k + 1] == rest[k];
          forall j | 0 <= j < k + 1 ensures Taken(files, dirs, names[j]) {
            if j > 0 {
              assert names[j] == rest[j - 1];
            }
          }
        } else {
          forall j | 0 <= j < |names| ensures Taken(files, dirs, names[j]) {
            if j > 0 {
              assert names[j] == rest[j - 1];
            }
          }
        }
      } else {
        assert r == Some(names[0]);
      }
    }
  }

  /**
   * The loop settles on the name of some draw `k`, that name is free, and
   * the names of all draws before `k` were taken; it settles on nothing
   * only when every drawn name is taken.
   */
  lemma FreeNameIsFirstFree(files: map<string, string>, dirs: set<string>, tmpRoot: string, draws: seq<Draw>)
    ensures var r := FreeName(files, dirs, tmpRoot, draws);
      (r.Some? ==> exists k | 0 <= k < |draws| ::
         r.value == WorkingDirName(tmpRoot, draws[k]) && !Taken(files, dirs, r.value) &&
         forall j | 0 <= j < k :: Taken(files, dirs, WorkingDirName(tmpRoot, draws[j]))) &&
      (r.None? <==> forall j | 0 <= j < |draws| :: Taken(files, dirs, WorkingDirName(tmpRoot, draws[j])))
  {
    var names := Candidates(tmpRoot, draws);
    FirstFreeIsFirst(files, dirs, names);
    var r := FreeName(files, dirs, tmpRoot, draws);
    if r.Some? {
      var k :| 0 <= k < |names| && r.value == names[k] && !Taken(files, dirs, names[k]) &&
               forall j | 0 <= j < k :: Taken(files, dirs, names[j]);
      assert forall j | 0 <= j < k :: Taken(files, dirs, WorkingDirName(tmpRoot, draws[j]));
    }
  }

  /** The `while (dir.exists())` loop, one draw after another. */
  method FindWorkingDir(store: Store, tmpRoot: string, draws: seq<Draw>) returns (dir: Option<string>)
    ensures dir == FreeName(store.files, store.dirs, tmpRoot, draws)
  {
    if |draws| == 0 {
      return None;
    }
    ghost var names := Candidates(tmpRoot, draws);
    var i := 0;
    var candidate := WorkingDirName(tmpRoot, draws[0]);
    while store.Exists(candidate)
      invariant 0 <= i < |draws|
      invariant candidate == names[i]
      invariant FreeName(store.files, store.dirs, tmpRoot, draws) == FirstFree(store.files, store.dirs, names[i..])
      decreases |draws| - i
    {
      assert names[i..][1..] == names[i + 1..];
      if i + 1 == |draws| {
        return None;
      }
      i := i + 1;
      candidate := WorkingDirName(tmpRoot, draws[i]);
    }
    return Some(candidate);
  }

  /**
   * Finding the name, then `dir.mkdirs()`, whose result the source
   * ignores: the directory and its ancestors are created unless a regular
   * file stands in the way.
   */
  method CreateWorkingDir(store: Store, tmpRoot: string, draws: seq<Draw>) returns (dir: Option<string>)
    modifies store
    ensures dir == FreeName(old(store.files), old(store.dirs), tmpRoot, draws)
    ensures store.files == old(store.files)
    ensures dir.None? ==> store.dirs == old(store.dirs)
    ensures dir.Some? && (forall d | d in MakeDirsTargets(dir.value) :: d !in old(store.files)) ==>
      store.dirs == old(store.dirs) + MakeDirsTargets(dir.value)
    ensures dir.Some? && (exists d | d in MakeDirsTargets(dir.value) :: d in old(store.files)) ==>
      store.dirs == old(store.dirs)
  {
    dir := FindWorkingDir(store, tmpRoot, draws);
    if dir.Some? {
      store.MakeDirs(dir.value);
    }
  }
}
