/**
 * The module scanner of the bridge generator (heroana/files/files.go): walks a
 * module's tree, keeps the non-test Go files, reads the `// melo:` export
 * directive in each file's header and builds one ExportedPackage per
 * exported file.
 *
 * The file system is given as the sequence of entries that fs.WalkDir
 * visits, in its lexical order; a file's content is None when reading it
 * fails, and a WalkFailure entry stands for a call of the walk function
 * with a non-nil error for that path.
 */
module ScanFiles {
  import opened Wrappers
  import opened GoStrings

  /** Marks a file as exported; the rest of the line is the Python path. */
  const GoExportedDirective := "// melo:"
  /** The package clause that ends the header scan of a file. */
  const PackageClause := "package "

  datatype ExportedPackage = ExportedPackage(goPath: string, pythonPath: string, packageName: string)

  /** One visit of the walk function, in walk order. */
  datatype Entry =
    | Dir(path: string)
    | File(path: string, content: Option<string>)
    | WalkFailure(path: string)

  /** "error reading <path>" from the walk, "error parsing <path>" from a read. */
  datatype ScanError = ReadingError(path: string) | ParsingError(path: string)

  /** The named results of parseGoFile other than its error. */
  datatype GoFile = GoFile(packageName: string, pythonPath: string, exported: bool)

  /** The state of parseGoFile's line loop; `stopped` once it has hit `break`. */
  datatype LineScan = LineScan(file: GoFile, stopped: bool)

  // ---------------------------------------------------------------------------
  // parseGoFile
  // ---------------------------------------------------------------------------

  predicate IsDirective(line: string)
  {
    HasPrefix(line, GoExportedDirective)
  }

  predicate IsPackageLine(line: string)
  {
    HasPrefix(line, PackageClause)
  }

  /** No line of `lines` is a package clause. */
  predicate NoPackageLine(lines: seq<string>)
  {
    forall j :: 0 <= j < |lines| ==> !IsPackageLine(lines[j])
  }

  /** One iteration of parseGoFile's loop over the lines. */
  function ScanStep(st: LineScan, line: string): LineScan
  {
    if st.stopped then st
    else if IsDirective(line) then
      LineScan(st.file.(pythonPath := TrimPrefix(line, GoExportedDirective), exported := true), false)
    else if IsPackageLine(line) then
      LineScan(st.file.(packageName := TrimPrefix(line, PackageClause)), true)
    else st
  }

  /** The loop run over all of `lines`, starting from the zero values. */
  function ScanLines(lines: seq<string>): LineScan
    decreases |lines|
  {
    if |lines| == 0 then LineScan(GoFile("", "", false), false)
    else ScanStep(ScanLines(lines[..|lines| - 1]), Last(lines))
  }

  /** What parseGoFile returns for a readable file with this content. */
  function ParsedGoFile(content: string): GoFile
  {
    var file := ScanLines(Split(content, '\n')).file;
    if file.pythonPath != "" then file.(exported := true) else file
  }

  /**
   * parseGoFile: `read` is the outcome of fs.ReadFile; on a read error all
   * named results keep their zero values and `failed` is set.
   */
  method ParseGoFile(read: Option<string>) returns (packageName: string, pythonPath: string, exported: bool, failed: bool)
    ensures failed <==> read.None?
    ensures read.None? ==> packageName == "" && pythonPath == "" && !exported
    ensures read.Some? ==> GoFile(packageName, pythonPath, exported) == ParsedGoFile(read.value)
  {
    packageName, pythonPath, exported, failed := "", "", false, false;
    if read.None? {
      failed := true;
      return;
    }
    var lines := Split(read.value, '\n');
    var i := 0;
    while i < |lines|
      invariant 0 <= i <= |lines|
      invariant ScanLines(lines[..i]) == LineScan(GoFile(packageName, pythonPath, exported), false)
    {
      var line := lines[i];
      assert lines[..i + 1][..i] == lines[..i];
      if HasPrefix(line, GoExportedDirective) {
        pythonPath := TrimPrefix(line, GoExportedDirective);
        exported := true;
      } else if HasPrefix(line, PackageClause) {
        packageName := TrimPrefix(line, PackageClause);
        StoppedStays(lines, i + 1);
        assert lines[..|lines|] == lines;
        break;
      }
      i := i + 1;
    }
    assert lines[..|lines|] == lines;
    if pythonPath != "" {
      exported := true;
    }
  }

  // ---------------------------------------------------------------------------
  // What the header scan means
  // ---------------------------------------------------------------------------

  /** A line cannot be both a directive and a package clause. */
  lemma {:induction false} DirectiveNotPackage(line: string)
    ensures !(IsDirective(line) && IsPackageLine(line))
  {
  }

  /** Once the loop has hit its `break`, later lines change nothing. */
  lemma {:induction false} StoppedStays(lines: seq<string>, k: nat)
    requires k <= |lines|
    requires ScanLines(lines[..k]).stopped
    ensures ScanLines(lines) == ScanLines(lines[..k])
    decreases |lines|
  {
    if k < |lines| {
      var init := lines[..|lines| - 1];
      assert init[..k] == lines[..k];
      StoppedStays(init, k);
    } else {
      assert lines[..k] == lines;
    }
  }

  /** The loop stops exactly when some line is a package clause. */
  lemma {:induction false} ScanLinesStopped(lines: seq<string>)
    ensures ScanLines(lines).stopped <==> !NoPackageLine(lines)
    decreases |lines|
  {
    if |lines| > 0 {
      var init := lines[..|lines| - 1];
      ScanLinesStopped(init);
      DirectiveNotPackage(Last(lines));
      assert forall j :: 0 <= j < |init| ==> init[j] == lines[j];
    }
  }

  /**
   * A file's header loop reports it exported exactly when some directive
   * line comes before the first package clause, whatever follows the
   * directive prefix (an empty remainder included).
   */
  lemma {:induction false} ScanLinesExported(lines: seq<string>)
    ensures ScanLines(lines).file.exported <==>
      exists i :: 0 <= i < |lines| && IsDirective(lines[i]) && NoPackageLine(lines[..i])
    decreases |lines|
  {
    if |lines| > 0 {
      var n := |lines|;
      var init := lines[..n - 1];
      ScanLinesExported(init);
      ScanLinesStopped(init);
      assert forall i :: 0 <= i < n - 1 ==> init[..i] == lines[..i] && init[i] == lines[i];
      assert init == lines[..n - 1];
      if ScanLines(lines).file.exported && !ScanLines(init).file.exported {
        assert IsDirective(lines[n - 1]) && NoPackageLine(lines[..n - 1]);
      }
    }
  }

  /**
   * The Python path is the remainder of the last directive line before the
   * first package clause, and "" when there is no such line.
   */
  lemma {:induction false} PythonPathIsLastDirective(lines: seq<string>)
    ensures !ScanLines(lines).file.exported ==> ScanLines(lines).file.pythonPath == ""
    ensures ScanLines(lines).file.exported ==>
      exists i :: 0 <= i < |lines| && IsDirective(lines[i]) && NoPackageLine(lines[..i])
        && ScanLines(lines).file.pythonPath == TrimPrefix(lines[i], GoExportedDirective)
        && forall j :: i < j < |lines| && NoPackageLine(lines[..j]) ==> !IsDirective(lines[j])
    decreases |lines|
  {
    if |lines| > 0 {
      var n := |lines|;
      var init := lines[..n - 1];
      PythonPathIsLastDirective(init);
      ScanLinesStopped(init);
      var st := ScanLines(lines);
      assert forall i :: 0 <= i < n - 1 ==> init[..i] == lines[..i] && init[i] == lines[i];
      assert init == lines[..n - 1];
      if !ScanLines(init).stopped && IsDirective(lines[n - 1]) {
        assert st.file.pythonPath == TrimPrefix(lines[n - 1], GoExportedDirective);
        assert NoPackageLine(lines[..n - 1]);
      } else if st.file.exported {
        var i :| 0 <= i < n - 1 && IsDirective(init[i]) && NoPackageLine(init[..i])
          && ScanLines(init).file.pythonPath == TrimPrefix(init[i], GoExportedDirective)
          && forall j :: i < j < n - 1 && NoPackageLine(init[..j]) ==> !IsDirective(init[j]);
        assert st.file.pythonPath == ScanLines(init).file.pythonPath;
        forall j | i < j < n && NoPackageLine(lines[..j])
          ensures !IsDirective(lines[j])
        {
          if j == n - 1 {
            assert NoPackageLine(init);
          }
        }
      }
    }
  }

  /** A package clause after lines without one sets the package name and stops the loop. */
  lemma {:induction false} PackageLineStops(init: seq<string>, line: string)
    requires NoPackageLine(init) && IsPackageLine(line)
    ensures ScanLines(init + [line]) ==
      LineScan(ScanLines(init).file.(packageName := TrimPrefix(line, PackageClause)), true)
  {
    ScanLinesStopped(init);
    DirectiveNotPackage(line);
    assert (init + [line])[..|init|] == init;
  }

  /**
   * The first package clause ends the scan: what follows it is never read,
   * and the package name is the rest of that line.
   */
  lemma {:induction false} PackageLineEndsScan(lines: seq<string>, k: nat)
    requires k < |lines| && IsPackageLine(lines[k]) && NoPackageLine(lines[..k])
    ensures ScanLines(lines) == ScanLines(lines[..k + 1])
    ensures ScanLines(lines).file.packageName == TrimPrefix(lines[k], PackageClause)
  {
    assert lines[..k + 1] == lines[..k] + [lines[k]];
    PackageLineStops(lines[..k], lines[k]);
    StoppedStays(lines, k + 1);
  }

  /** A directive placed after the first package clause is never seen. */
  lemma {:induction false} DirectiveAfterPackageIgnored(before: seq<string>, packageLine: string, after: seq<string>)
    requires NoPackageLine(before) && IsPackageLine(packageLine)
    ensures ScanLines(before + [packageLine] + after) == ScanLines(before + [packageLine])
  {
    var lines := before + [packageLine] + after;
    assert lines[..|before|] == before;
    assert lines[..|before| + 1] == before + [packageLine];
    PackageLineEndsScan(lines, |before|);
  }

  /** parseGoFile's closing `if pythonPath != ""` never changes the result. */
  lemma {:induction false} FinalCheckRedundant(content: string)
    ensures ParsedGoFile(content) == ScanLines(Split(content, '\n')).file
  {
    PythonPathIsLastDirective(Split(content, '\n'));
  }

  // ---------------------------------------------------------------------------
  // goFormatPath and genExportedPackage
  // ---------------------------------------------------------------------------

  /** The segments of a walked path; goFormatPath panics below two. */
  predicate HasParentSegment(path: string)
  {
    |Split(path, '/')| >= 2
  }

  /**
   * goFormatPath: the module name followed by the directories below the walk
   * root. The Go path starts with the module name, and its segments are the
   * module name's segments followed by those directories: the first segment
   * of the walked path and the file name are dropped.
   */
  function GoFormatPath(path: string, moduleName: string): (r: string)
    requires HasParentSegment(path)
    ensures HasPrefix(r, moduleName)
    ensures var segments := Split(path, '/');
      Split(r, '/') == Split(moduleName, '/') + segments[1..|segments| - 1]
  {
    var segments := Split(path, '/');
    var xs := [moduleName] + segments[1..|segments| - 1];
    assert forall i :: 1 <= i < |xs| ==> xs[i] == segments[i];
    SplitJoin(xs, '/');
    assert xs[1..] == segments[1..|segments| - 1];
    var r := Join(xs, '/');
    assert |xs| > 1 ==> r == moduleName + ['/'] + Join(xs[1..], '/');
    assert r[..|moduleName|] == moduleName;
    r
  }

  /** genExportedPackage */
  function GenExportedPackage(path: string, moduleName: string, packageName: string, pythonPath: string): (r: ExportedPackage)
    requires HasParentSegment(path)
    ensures r.goPath == GoFormatPath(path, moduleName) && r.pythonPath == pythonPath
    ensures r.packageName == "" || r.packageName == packageName
  {
    var goPath := GoFormatPath(path, moduleName);
    if packageName == "main" then ExportedPackage(goPath, pythonPath, "")
    else if packageName != Last(Split(goPath, '/')) then ExportedPackage(goPath, pythonPath, packageName)
    else ExportedPackage(goPath, pythonPath, "")
  }

  /**
   * A path built from a root, directories and a file name, none holding
   * '/', gives the module name followed by those directories.
   */
  lemma {:induction false} GoFormatPathOfPieces(root: string, dirs: seq<string>, file: string, moduleName: string)
    requires '/' !in root && '/' !in file && forall i :: 0 <= i < |dirs| ==> '/' !in dirs[i]
    ensures HasParentSegment(Join([root] + dirs + [file], '/'))
    ensures GoFormatPath(Join([root] + dirs + [file], '/'), moduleName) == Join([moduleName] + dirs, '/')
  {
    var pieces := [root] + dirs + [file];
    assert forall i :: 0 <= i < |pieces| ==> '/' !in pieces[i] by {
      forall i | 0 <= i < |pieces|
        ensures '/' !in pieces[i]
      {
        if 0 < i < |pieces| - 1 {
          assert pieces[i] == dirs[i - 1];
        }
      }
    }
    SplitJoinPieces(pieces, '/');
    assert pieces[1..|pieces| - 1] == dirs;
  }

  /**
   * The example of the scanner's test: the walked path
   * "root/exported_package/other.go" gives "example.com/exported_package".
   */
  lemma {:induction false} GoFormatPathExample()
    ensures HasParentSegment(Join(["root", "exported_package", "other.go"], '/'))
    ensures GoFormatPath(Join(["root", "exported_package", "other.go"], '/'), "example.com")
            == Join(["example.com", "exported_package"], '/')
  {
    assert ["root"] + ["exported_package"] + ["other.go"] == ["root", "exported_package", "other.go"];
    assert ["example.com"] + ["exported_package"] == ["example.com", "exported_package"];
    GoFormatPathOfPieces("root", ["exported_package"], "other.go", "example.com");
  }

  /**
   * The alias is empty when the package is "main" or is named like the
   * file's directory, and is the package name otherwise. For a file directly
   * under the walk root the Go path is the module name, so the comparison is
   * with the module name's last segment.
   */
  lemma {:induction false} AliasOnlyWhenNameDiffers(path: string, moduleName: string, packageName: string, pythonPath: string)
    requires HasParentSegment(path)
    ensures var segments := Split(path, '/');
      var r := GenExportedPackage(path, moduleName, packageName, pythonPath);
      var directory := if |segments| >= 3 then segments[|segments| - 2] else Last(Split(moduleName, '/'));
      r.packageName == if packageName == "main" || packageName == directory then "" else packageName
  {
    var segments := Split(path, '/');
    var goSegments := Split(GoFormatPath(path, moduleName), '/');
    assert goSegments == Split(moduleName, '/') + segments[1..|segments| - 1];
    if |segments| >= 3 {
      assert Last(goSegments) == segments[|segments| - 2];
    } else {
      assert segments[1..|segments| - 1] == [];
      assert goSegments == Split(moduleName, '/');
    }
  }

  // ---------------------------------------------------------------------------
  // The walk function and ScanModule
  // ---------------------------------------------------------------------------

  /** The walker only parses non-test `.go` files. */
  predicate IsCandidate(path: string)
  {
    HasSuffix(path, ".go") && !HasSuffix(path, "_test.go")
  }

  /** The walk function returns an error for this entry. */
  predicate Fails(e: Entry)
  {
    e.WalkFailure? || (e.File? && IsCandidate(e.path) && e.content.None?)
  }

  /** The walk function appends a package for this entry. */
  predicate Exports(e: Entry)
  {
    e.File? && IsCandidate(e.path) && e.content.Some? && ParsedGoFile(e.content.value).exported
  }

  /** goFormatPath would panic on this entry. */
  predicate Panics(e: Entry)
  {
    Exports(e) && !HasParentSegment(e.path)
  }

  predicate NoPanics(entries: seq<Entry>)
  {
    forall i :: 0 <= i < |entries| ==> !Panics(entries[i])
  }

  /** The package an exporting entry contributes. */
  function PackageOf(e: Entry, moduleName: string): ExportedPackage
    requires Exports(e) && !Panics(e)
  {
    var file := ParsedGoFile(e.content.value);
    GenExportedPackage(e.path, moduleName, file.packageName, file.pythonPath)
  }

  /** What the walk function does for one entry: packages to append, or its error. */
  function Visit(e: Entry, moduleName: string): (r: Result<seq<ExportedPackage>, ScanError>)
    requires !Panics(e)
    ensures r.Failure? <==> Fails(e)
    ensures r.Failure? ==> r.error.path == e.path
    ensures r.Success? ==> r.value == if Exports(e) then [PackageOf(e, moduleName)] else []
  {
    match e
    case WalkFailure(path) => Failure(ReadingError(path))
    case Dir(_) => Success([])
    case File(path, content) =>
      if !HasSuffix(path, ".go") || HasSuffix(path, "_test.go") then Success([])
      else if content.None? then Failure(ParsingError(path))
      else
        var file := ParsedGoFile(content.value);
        if !file.exported then Success([])
        else Success([GenExportedPackage(path, moduleName, file.packageName, file.pythonPath)])
  }

  /** The whole walk: the first error aborts it, otherwise the packages in walk order. */
  function Scan(entries: seq<Entry>, moduleName: string): Result<seq<ExportedPackage>, ScanError>
    requires NoPanics(entries)
    decreases |entries|
  {
    if |entries| == 0 then Success([])
    else
      match Visit(entries[0], moduleName)
      case Failure(err) => Failure(err)
      case Success(found) =>
        match Scan(entries[1..], moduleName)
        case Failure(err) => Failure(err)
        case Success(rest) => Success(found + rest)
  }

  /** `acc` followed by the outcome of the rest of the walk. */
  function Prepend(acc: seq<ExportedPackage>, r: Result<seq<ExportedPackage>, ScanError>): Result<seq<ExportedPackage>, ScanError>
  {
    match r
    case Success(rest) => Success(acc + rest)
    case Failure(err) => Failure(err)
  }

  /**
   * The closure of getScanModuleWalker, with the slice it appends to passed
   * in and handed back.
   */
  method WalkEntry(e: Entry, moduleName: string, exportedPackages: seq<ExportedPackage>)
    returns (updated: seq<ExportedPackage>, err: Option<ScanError>)
    requires !Panics(e)
    ensures Visit(e, moduleName).Failure? ==> err == Some(Visit(e, moduleName).error) && updated == exportedPackages
    ensures Visit(e, moduleName).Success? ==> err == None && updated == exportedPackages + Visit(e, moduleName).value
  {
    updated, err := exportedPackages, None;
    match e
    case WalkFailure(path) =>
      err := Some(ReadingError(path));
    case Dir(_) =>
    case File(path, content) =>
      if !HasSuffix(path, ".go") {
        return;
      }
      if HasSuffix(path, "_test.go") {
        return;
      }
      var packageName, pythonPath, exported, failed := ParseGoFile(content);
      if failed {
        err := Some(ParsingError(path));
        return;
      }
      if !exported {
        return;
      }
      var exportedPackage := GenExportedPackage(path, moduleName, packageName, pythonPath);
      updated := exportedPackages + [exportedPackage];
  }

  /** One step of the walk: the first entry's outcome, then the rest. */
  lemma {:induction false} ScanCons(entries: seq<Entry>, moduleName: string)
    requires |entries| > 0 && NoPanics(entries)
    ensures NoPanics(entries[1..])
    ensures Visit(entries[0], moduleName).Failure? ==> Scan(entries, moduleName) == Visit(entries[0], moduleName)
    ensures Visit(entries[0], moduleName).Success? ==>
      Scan(entries, moduleName) == Prepend(Visit(entries[0], moduleName).value, Scan(entries[1..], moduleName))
  {
    assert forall i :: 0 <= i < |entries| - 1 ==> entries[1..][i] == entries[i + 1];
  }

  lemma {:induction false} PrependPrepend(a: seq<ExportedPackage>, b: seq<ExportedPackage>, r: Result<seq<ExportedPackage>, ScanError>)
    ensures Prepend(a, Prepend(b, r)) == Prepend(a + b, r)
  {
    match r
    case Success(rest) => assert a + (b + rest) == a + b + rest;
    case Failure(_) =>
  }

  lemma {:induction false} PrependNothing(r: Result<seq<ExportedPackage>, ScanError>)
    ensures Prepend([], r) == r
  {
    match r
    case Success(rest) => assert [] + rest == rest;
    case Failure(_) =>
  }

  /** ScanModule: fs.WalkDir with the walker; any error discards what was found. */
  method ScanModule(entries: seq<Entry>, moduleName: string) returns (r: Result<seq<ExportedPackage>, ScanError>)
    requires NoPanics(entries)
    ensures r == Scan(entries, moduleName)
  {
    var exportedPackages: seq<ExportedPackage> := [];
    var i := 0;
    assert entries[i..] == entries;
    PrependNothing(Scan(entries, moduleName));
    while i < |entries|
      invariant 0 <= i <= |entries|
      invariant NoPanics(entries[i..])
      invariant Scan(entries, moduleName) == Prepend(exportedPackages, Scan(entries[i..], moduleName))
    {
      ScanCons(entries[i..], moduleName);
      assert entries[i..][0] == entries[i] && entries[i..][1..] == entries[i + 1..];
      ghost var before := exportedPackages;
      var err;
      exportedPackages, err := WalkEntry(entries[i], moduleName, exportedPackages);
      if err.Some? {
        return Failure(err.value);
      }
      PrependPrepend(before, Visit(entries[i], moduleName).value, Scan(entries[i + 1..], moduleName));
      i := i + 1;
    }
    PrependPrepend(exportedPackages, [], Success([]));
    assert exportedPackages + [] == exportedPackages;
    return Success(exportedPackages);
  }

  // ---------------------------------------------------------------------------
  // What the scan means
  // ---------------------------------------------------------------------------

  /** Reference definition: one package per exporting entry, in walk order. */
  function ExportsOf(entries: seq<Entry>, moduleName: string): seq<ExportedPackage>
    requires NoPanics(entries)
    decreases |entries|
  {
    if |entries| == 0 then []
    else
      var init := entries[..|entries| - 1];
      assert forall i :: 0 <= i < |init| ==> init[i] == entries[i];
      ExportsOf(init, moduleName)
        + if Exports(Last(entries)) then [PackageOf(Last(entries), moduleName)] else []
  }

  lemma {:induction false} ExportsOfCons(e: Entry, rest: seq<Entry>, moduleName: string)
    requires NoPanics([e] + rest)
    ensures !Panics(e) && NoPanics(rest)
    ensures ExportsOf([e] + rest, moduleName)
      == (if Exports(e) then [PackageOf(e, moduleName)] else []) + ExportsOf(rest, moduleName)
    decreases |rest|
  {
    var all := [e] + rest;
    assert all[0] == e;
    assert forall i :: 0 <= i < |rest| ==> rest[i] == all[i + 1];
    if |rest| > 0 {
      var init := rest[..|rest| - 1];
      assert all[..|all| - 1] == [e] + init;
      ExportsOfCons(e, init, moduleName);
    }
  }

  /**
   * A walk without errors succeeds with exactly one package per exported
   * file, in walk order; files of one directory are not merged.
   */
  lemma {:induction false} ScanWithoutErrors(entries: seq<Entry>, moduleName: string)
    requires NoPanics(entries)
    requires forall i :: 0 <= i < |entries| ==> !Fails(entries[i])
    ensures Scan(entries, moduleName) == Success(ExportsOf(entries, moduleName))
    decreases |entries|
  {
    if |entries| > 0 {
      var rest := entries[1..];
      assert [entries[0]] + rest == entries;
      assert forall i :: 0 <= i < |rest| ==> rest[i] == entries[i + 1];
      ScanWithoutErrors(rest, moduleName);
      ExportsOfCons(entries[0], rest, moduleName);
    }
  }

  /**
   * All or nothing: the first entry whose visit fails decides the result,
   * an error carrying that entry's path, and no package is returned.
   */
  lemma {:induction false} ScanStopsAtFirstError(entries: seq<Entry>, moduleName: string, i: nat)
    requires NoPanics(entries)
    requires i < |entries| && Fails(entries[i])
    requires forall j :: 0 <= j < i ==> !Fails(entries[j])
    ensures Scan(entries, moduleName) == Visit(entries[i], moduleName)
    ensures Scan(entries, moduleName).Failure? && Scan(entries, moduleName).error.path == entries[i].path
    decreases i
  {
    if i > 0 {
      var rest := entries[1..];
      assert forall j :: 0 <= j < |rest| ==> rest[j] == entries[j + 1];
      ScanStopsAtFirstError(rest, moduleName, i - 1);
    }
  }

  /** Directories, files not ending in ".go" and "_test.go" files. */
  predicate Ignored(e: Entry)
  {
    e.Dir? || (e.File? && !IsCandidate(e.path))
  }

  /**
   * An ignored entry changes nothing wherever it stands, whatever its
   * content: a test file with a valid directive is never reported.
   */
  lemma {:induction false} IgnoredEntryInvisible(before: seq<Entry>, e: Entry, after: seq<Entry>, moduleName: string)
    requires NoPanics(before + [e] + after)
    requires Ignored(e)
    ensures NoPanics(before + after)
    ensures Scan(before + [e] + after, moduleName) == Scan(before + after, moduleName)
    decreases |before|
  {
    var all := before + [e] + after;
    if |before| == 0 {
      assert all[1..] == after;
      assert before + after == after;
      match Scan(after, moduleName) {
        case Success(rest) => assert [] + rest == rest;
        case Failure(_) =>
      }
    } else {
      var tail := before[1..] + [e] + after;
      assert all[0] == before[0] && all[1..] == tail;
      assert forall i :: 0 <= i < |tail| ==> tail[i] == all[i + 1];
      IgnoredEntryInvisible(before[1..], e, after, moduleName);
      var short := before + after;
      assert short[0] == before[0] && short[1..] == before[1..] + after;
      assert forall i :: 0 <= i < |short| ==> short[i] == all[if i < |before| then i else i + 1];
    }
  }
}
