/**
 * The input-folder check of the build command (melo/files/folders.go). The
 * file system is a map from path to file content; a path that is not a key
 * is a file fs.ReadFile cannot read.
 */
module Folders {
  import opened GoStrings

  /** What a go.mod must begin with. */
  const GoModStart := "module "

  const PathSeparator := "/"

  /**
   * The file CheckInputFolder reads: "/go.mod" after the folder, which is
   * `path` up to its run of trailing '/' and itself ends in no '/'.
   */
  function GoModPath(path: string): (r: string)
    ensures |r| >= 7 && r[|r| - 7..] == "/go.mod"
    ensures var folder := r[..|r| - 7];
      |folder| <= |path| && folder == path[..|folder|]
      && (forall i :: |folder| <= i < |path| ==> path[i] == '/')
      && (folder == [] || Last(folder) != '/')
  {
    var folder := TrimRight(path, PathSeparator);
    var r := folder + "/go.mod";
    assert r[|r| - 7..] == "/go.mod" && r[..|r| - 7] == folder;
    r
  }

  /**
   * CheckInputFolder: the folder's go.mod can be read and its content begins,
   * at offset 0, with "module ".
   */
  function CheckInputFolder(fileSystem: map<string, string>, path: string): (ok: bool)
    ensures ok <==> GoModPath(path) in fileSystem
                    && exists rest :: fileSystem[GoModPath(path)] == GoModStart + rest
  {
    var goMod := GoModPath(path);
    if goMod !in fileSystem then false
    else
      var content := fileSystem[goMod];
      if !HasPrefix(content, GoModStart) then false
      else
        assert content == GoModStart + content[|GoModStart|..];
        true
  }

  /** Without a readable go.mod the folder is refused. */
  lemma {:induction false} MissingGoModRefused(fileSystem: map<string, string>, path: string)
    requires GoModPath(path) !in fileSystem
    ensures !CheckInputFolder(fileSystem, path)
  {
  }

  /** A go.mod whose first character is not 'm' ("odule example.com") is refused. */
  lemma {:induction false} WrongStartRefused(fileSystem: map<string, string>, path: string, c: char, rest: string)
    requires GoModPath(path) in fileSystem && fileSystem[GoModPath(path)] == [c] + rest && c != 'm'
    ensures !CheckInputFolder(fileSystem, path)
  {
    var content := fileSystem[GoModPath(path)];
    assert content[0] == c;
    assert !HasPrefix(content, GoModStart) by {
      if |GoModStart| <= |content| {
        assert content[..|GoModStart|][0] == c;
      }
    }
  }

  /** Trailing '/' are all removed: "a", "a/" and "a//" name the same go.mod. */
  lemma {:induction false} TrailingSlashesIgnored(path: string, slashes: string)
    requires AllIn(slashes, PathSeparator)
    ensures GoModPath(path + slashes) == GoModPath(path)
    ensures forall fileSystem: map<string, string> ::
      CheckInputFolder(fileSystem, path + slashes) == CheckInputFolder(fileSystem, path)
  {
    TrimRightDropsRun(path, slashes, PathSeparator);
    assert GoModPath(path + slashes) == TrimRight(path + slashes, PathSeparator) + "/go.mod";
    assert GoModPath(path) == TrimRight(path, PathSeparator) + "/go.mod";
  }

  /**
   * The three folders of the check's own tests: a valid go.mod, a folder
   * holding only not_go.mod, and a go.mod beginning "odule ".
   */
  lemma {:induction false} TestScenarios(fileSystem: map<string, string>, folder: string, text: string)
    requires folder != [] && Last(folder) != '/'
    ensures CheckInputFolder(fileSystem[folder + "/go.mod" := GoModStart + text], folder)
    ensures !CheckInputFolder(fileSystem - {folder + "/go.mod"}, folder)
    ensures !CheckInputFolder(fileSystem[folder + "/go.mod" := "odule " + text], folder)
  {
    TrimRightRun(folder, "", PathSeparator);
    assert folder + "" == folder;
    var badContent := "odule " + text;
    WrongStartRefused(fileSystem[folder + "/go.mod" := badContent], folder, 'o', badContent[1..]);
  }
}
