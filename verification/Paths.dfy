/** Slash-separated paths. */
module Paths {

  /** Where the last component of `path` begins. */
  function BaseAt(path: string): (k: nat)
    ensures k <= |path| && '/' !in path[k..]
    ensures k > 0 ==> path[k - 1] == '/'
  {
    if path == "" || path[|path| - 1] == '/' then |path|
    else
      var k := BaseAt(path[..|path| - 1]);
      assert path[k..] == path[..|path| - 1][k..] + [path[|path| - 1]];
      k
  }

  function BaseName(path: string): string {
    path[BaseAt(path)..]
  }

  /** `path` is the end of `file`, from the beginning of a component on. */
  predicate EndsWithPath(file: string, path: string) {
    file == path || (|file| > |path| && file[|file| - |path| - 1] == '/' && file[|file| - |path|..] == path)
  }

  /** A path ends another one where a directory can be put in front of it. */
  lemma EndsWithPathIff(file: string, path: string)
    ensures EndsWithPath(file, path) <==> file == path || exists dir :: file == dir + "/" + path
  {
    if |file| > |path| && file[|file| - |path| - 1] == '/' && file[|file| - |path|..] == path {
      var k := |file| - |path| - 1;
      assert file == file[..k] + "/" + path;
    }
    if dir :| file == dir + "/" + path {
      assert file[|dir|] == '/' && file[|dir| + 1..] == path;
    }
  }

  /** The name of a file is what stands behind the last slash. */
  lemma BaseNameIs(dir: string, name: string)
    requires '/' !in name
    ensures BaseName(name) == name
    ensures BaseName(dir + "/" + name) == name
  {
    hide BaseAt;
    NameFrom(name, 0, BaseAt(name));
    var path := dir + "/" + name;
    assert path[|dir|] == '/' && path[|dir| + 1..] == name;
    assert name[0..] == name;
    NameFrom(path, |dir| + 1, BaseAt(path));
  }

  lemma NameFrom(path: string, from: nat, k: nat)
    requires from <= |path| && '/' !in path[from..] && (from > 0 ==> path[from - 1] == '/')
    requires k <= |path| && '/' !in path[k..] && (k > 0 ==> path[k - 1] == '/')
    ensures k == from
  {
    var a, b := path[from..], path[k..];
    assert forall j :: from <= j < |path| ==> path[j] == a[j - from];
    assert forall j :: k <= j < |path| ==> path[j] == b[j - k];
  }
}
