# heroana / melo core, modelled in Dafny

This project models the non-I/O core of the heroana Go-to-Python bridge
generator and its `melo` command-line front end, and proves properties of
the model. It has four parts.

* **Module scanner** (`ScanFiles`, from `src/heroana/files/files.go`). This is
  a walk over a module's directory entries.
  - It keeps only `.go` files that are not `_test.go` files.
  - It reads each file's header up to the first `package ` line and looks
    for `// melo:` directives.
  - For each exported file it builds an `ExportedPackage`: the Go path, the
    Python path and an optional package alias.
  - The first walk or read error aborts the scan.
* **Declaration inspector** (`Inspector`, from
  `src/heroana/generator/inspector.go`). It walks the declarations of a
  loaded package and files every exported constant, variable, named type,
  struct, interface and function into the `ExportedObjects` record. It
  queues methods by receiver and then runs a second pass meant to attach
  them to their structs.
* **Argument parser** (`ArgParser`, from `src/melo/cli/argparser.go`). This
  is the `build` / `help` command line. It is modelled as the trace of
  calls it makes to the help callback, the build callback and `usage`.
* **Input-folder check** (`Folders`, from `src/melo/files/folders.go`). It
  checks that the folder's `go.mod` exists and starts with `module `.

Supporting modules:

* `Wrappers` holds `Option` and `Result`.
* `GoStrings` holds the Go `strings` functions the core calls.
  - For the cutset trims (`TrimLeft`, `TrimRight`, `Trim`), the modelled
    cutset is a set of characters, as in Go; it is not a prefix.
  - `Split` and `Join` come with their round-trip lemmas.
* `GeneratorTypes` holds the records of `src/heroana/generator/types.go`,
  with `Manifest` as the value of an `ExportedObjects`.
* `GoSyntax` is the loader's output as plain values.
  - A file is the sequence of `FuncDecl` and `GenDecl` nodes that
    `ast.Inspect` visits, in order.
  - Every type arrives as its `types.Type.String()` text.

Each imperative routine is a Dafny `method` with the loop of the source. It
is proved equal to a specification function, and the source's promises are
lemmas about that function.

* `Inspector.ParseArguments`, `Inspector.ParseStructFields`,
  `ScanFiles.ParseGoFile` and `ScanFiles.ScanModule` are such methods.
* So is `parseBuildArguments`, which re-slices its arguments as it goes.
* `ExportedObjects` is a class whose six list fields are appended to in
  place.

Where the Go code panics, the model has a precondition:

* `goFormatPath` on a path with a single segment;
* an exported, defined value name without a basic-literal value at its index.

Where the code does something other than its names and tests suggest, the
model follows the code:

* Only lines up to the first `package ` line are examined. A directive
  after it is never seen. The test file named for this case
  (`src/melo/files/files_test.go:29`) holds no directive at all, since its
  content is never passed through `fmt.Sprintf`, so the stop at the package
  line is untested.
* A later directive overwrites an earlier one, so the last directive before
  the package line gives the Python path.
* `ExportedObjects.ExportedStructs` never receives any method, although
  the test of a sibling package (`src/heroana/generator/inspector_test.go:47-62`,
  which tests `melo/generator`) expects a struct to list its method. The second pass appends to a copy; see Findings.
* The value type name is cut with `TrimLeft`, a character-set trim. The two
  cases that sibling test checks both expect "string": the constant's
  "untyped string" (`src/heroana/generator/inspector_test.go:17`) and the
  variable's "string" (line 25). Removing the "untyped " qualifier once
  gives the same two answers. String values lose every leading and trailing `"`.
* A failing file read surfaces as an error carrying the path. A value spec
  whose value at an exported name's index is missing or not a basic literal
  makes the code panic, so it is a precondition here, not an error value.

## Model

| member | source | states |
|---|---|---|
| ScanFiles.ParseGoFile | src/heroana/files/files.go:74-94 | a failed read returns the error with zero values; otherwise the result is the header scan of the content split on "\n" |
| ScanFiles.ScanLinesStopped | src/heroana/files/files.go:80-88 | the header loop breaks exactly when some line starts with "package " |
| ScanFiles.StoppedStays | src/heroana/files/files.go:84-87 | once the package line is reached, later lines change nothing |
| ScanFiles.ScanLinesExported | src/heroana/files/files.go:80-92 | a file is exported iff some line starting with "// melo:" comes before the first package line, whatever follows the prefix |
| ScanFiles.PythonPathIsLastDirective | src/heroana/files/files.go:80-88 | the Python path is the remainder of the last directive before the first package line, and "" when there is none |
| ScanFiles.PackageLineEndsScan | src/heroana/files/files.go:84-87 | the scan ends at the first package line, and the package name is that line without "package " |
| ScanFiles.PackageLineStops | src/heroana/files/files.go:84-87 | the first package line sets the package name and stops the loop |
| ScanFiles.DirectiveAfterPackageIgnored | src/heroana/files/files.go:80-88 | lines after the first package line, directives included, do not change the result |
| ScanFiles.DirectiveNotPackage | src/heroana/files/files.go:81-84 | no line is both a directive and a package line |
| ScanFiles.FinalCheckRedundant | src/heroana/files/files.go:90-92 | the final check (non-empty Python path implies exported) never changes the outcome of the loop |
| ScanFiles.GoFormatPath | src/heroana/files/files.go:66-72 | the Go path starts with the module name, and its segments are the module name's segments followed by the walked path's segments minus the first and the file name |
| ScanFiles.GoFormatPathOfPieces | src/heroana/files/files.go:66-72 | a path root/dirs.../file, with no piece holding '/', gives the module name joined with dirs |
| ScanFiles.GoFormatPathExample | src/melo/files/files_test.go:43 | "root/exported_package/other.go" under "example.com" gives "example.com/exported_package" |
| ScanFiles.GenExportedPackage | src/heroana/files/files.go:96-113 | the Go path is goFormatPath's, the Python path is passed through, and the alias is "" or the package name; when each applies is AliasOnlyWhenNameDiffers |
| ScanFiles.AliasOnlyWhenNameDiffers | src/heroana/files/files.go:102-110 | for every path goFormatPath accepts, the alias is "" iff the package is "main" or named like the file's directory (the module name's last segment for a file directly under the walk root), and is the package name otherwise |
| ScanFiles.Visit | src/heroana/files/files.go:33-63 | an entry fails iff it is a walk error or an unreadable candidate file, and the error carries its path; otherwise it contributes its one package exactly when it exports |
| ScanFiles.WalkEntry | src/heroana/files/files.go:33-63 | the walker closure returns the entry's error and leaves the slice, or appends the entry's packages |
| ScanFiles.ScanModule | src/heroana/files/files.go:20-30 | the walk loop returns exactly the whole-walk outcome: the first error, or every exported package in walk order |
| ScanFiles.ScanWithoutErrors | src/heroana/files/files.go:55-61 | with no failing entry, the result is one package per exporting file, in walk order and without dedupe |
| ScanFiles.ScanStopsAtFirstError | src/heroana/files/files.go:24-27 | the first failing entry's error, carrying its path, is the result; there are no partial results |
| ScanFiles.IgnoredEntryInvisible | src/heroana/files/files.go:38-48 | a directory, a non-".go" file or a "_test.go" file, wherever it stands, changes nothing |
| Inspector.TypeNameOf | src/heroana/generator/inspector.go:126 | the type name is the type text without its longest leading run of characters of "untyped ": every dropped character is in that set and the kept part starts outside it |
| Inspector.UntypedPrefixDropped | src/heroana/generator/inspector.go:126 | "untyped " followed by a name that starts outside the cutset gives that name |
| Inspector.UntypedStringName | src/heroana/generator/inspector.go:126 | "untyped string" gives "string" |
| Inspector.CutsetLetterEaten | src/heroana/generator/inspector.go:126 | a leading cutset character is dropped even when no "untyped " prefix is present |
| Inspector.UintName | src/heroana/generator/inspector.go:126 | "uint" gives "int" |
| Inspector.ErrorName | src/heroana/generator/inspector.go:126 | "error" gives "rror" |
| Inspector.TypeNameIntended | src/heroana/generator/inspector.go:126 | the corrected conversion drops the "untyped " prefix once and nothing else |
| Inspector.TypeNameIntendedExact | src/heroana/generator/inspector.go:126 | the corrected conversion inverts "untyped " + t and keeps every other type text |
| Inspector.ParseVariableValue | src/heroana/generator/inspector.go:225-230 | a non-"string" type keeps the literal verbatim; a "string" type gives a part of it with no quote at either end |
| Inspector.StringValueUnquoted | src/heroana/generator/inspector.go:225-228 | a "string" value is the literal with runs of quotes removed before and after it |
| Inspector.StringLiteralUnquoted | src/heroana/generator/inspector.go:225-228 | a quoted body with no quote at its ends is given back unquoted |
| Inspector.NonStringLiteralVerbatim | src/heroana/generator/inspector.go:225-230 | "\"hello\"" as string gives "hello"; "42" as int and "\"x\"" as untyped string stay verbatim |
| Inspector.EscapedQuoteLost | src/heroana/generator/inspector.go:227 | the literal `"a\""` as string gives `a\`, losing the escaped closing quote |
| Inspector.UnquoteOnce | src/heroana/generator/inspector.go:227 | the corrected unquoting removes one pair of enclosing quotes and keeps anything else |
| Inspector.UnquoteOnceExact | src/heroana/generator/inspector.go:227 | the corrected unquoting inverts quoting for every body |
| Inspector.ReceiverKey | src/heroana/generator/inspector.go:190-193 | the key is the receiver type's longest suffix without a '.': a suffix holding no '.', which is the whole type text or comes right after a '.' |
| Inspector.ReceiverKeyOfQualified | src/heroana/generator/inspector.go:190-193 | the receiver key is the text after the last "."; "p.T" and "*p.T" both give "T" |
| Inspector.Arguments | src/heroana/generator/inspector.go:204-214 | one argument per tuple element, in order, with its name and type text |
| Inspector.ParseArguments | src/heroana/generator/inspector.go:204-214 | the loop builds exactly that sequence |
| Inspector.ReturnTypes | src/heroana/generator/inspector.go:216-223 | one type text per result, in order |
| Inspector.ParseReturnTypes | src/heroana/generator/inspector.go:216-223 | the loop builds exactly that sequence |
| Inspector.Fields | src/heroana/generator/inspector.go:240-250 | one field per struct field, in order, with an empty doc |
| Inspector.ParseStructFields | src/heroana/generator/inspector.go:240-250 | the loop builds exactly that sequence |
| Inspector.InterfaceMethodOf | src/heroana/generator/inspector.go:268-274 | an interface method keeps its name and tuple lengths, and its doc is always "" |
| Inspector.ParseInterfaceMethod | src/heroana/generator/inspector.go:268-274 | parseInterfaceMethod builds that routine |
| Inspector.InterfaceMethods | src/heroana/generator/inspector.go:260-266 | one routine per explicit method, in order |
| Inspector.ParseInterfaceMethods | src/heroana/generator/inspector.go:260-266 | the loop builds exactly that sequence |
| Inspector.TrimmedDoc | src/heroana/generator/inspector.go:199 | the kept doc is a prefix of the doc, ends in no newline, and only newlines were cut |
| Inspector.TrimmedDocDropsNewlines | src/heroana/generator/inspector.go:199 | any run of trailing newlines is cut, however long |
| Inspector.DocsTrimmedUnevenly | src/heroana/generator/inspector.go:161-166 | a named type keeps its doc with trailing newlines, while a struct and a function with the same doc lose them |
| Inspector.ValueDocKept | src/heroana/generator/inspector.go:130-142 | a constant and a variable keep the spec's doc exactly, trailing newlines included |
| Inspector.RoutineOf | src/heroana/generator/inspector.go:195-200 | the routine keeps its name and a trimmed doc, with one argument and one return type per tuple element |
| Inspector.ParseRoutineDeclaration | src/heroana/generator/inspector.go:187-202 | it returns that routine, with the receiver key, or "" for a free function |
| Inspector.StructOf | src/heroana/generator/inspector.go:232-238 | a parsed struct has its name, one field per field, no methods and a trimmed doc |
| Inspector.ParseExportedStruct | src/heroana/generator/inspector.go:232-238 | parseExportedStruct builds that struct |
| Inspector.InterfaceOf | src/heroana/generator/inspector.go:252-258 | a parsed interface has its name and a trimmed doc, and every method doc is "" |
| Inspector.ParseExportedInterface | src/heroana/generator/inspector.go:252-258 | parseExportedInterface builds that interface |
| Inspector.FirstNamed | src/heroana/generator/inspector.go:276-283 | the index of the first struct with the name, or none when no struct has it |
| Inspector.FindStructByName | src/heroana/generator/inspector.go:276-283 | it returns a copy of the first struct with the name, or nothing |
| Inspector.FindStructIndex | src/heroana/generator/inspector.go:276-283 | the loop finds the first matching index |
| Inspector.ExportedObjects.constructor | src/heroana/generator/types.go:3-10 | a new record has six empty lists |
| Inspector.InspectFuncDecl | src/heroana/generator/inspector.go:102-111 | an exported free function is appended to the functions; a method is queued under its receiver key |
| Inspector.InspectValueSpec | src/heroana/generator/inspector.go:116-144 | the record gets the spec's exported, defined names, in order |
| Inspector.ValueNameStep | src/heroana/generator/inspector.go:117-143 | one name adds its constant (const spec) or variable (var spec) exactly when it is exported and defined, and changes no other list |
| Inspector.ConstantsOf | src/heroana/generator/inspector.go:117-135 | the reference list of a const spec's constants holds only exported names |
| Inspector.VariablesOf | src/heroana/generator/inspector.go:117-142 | the reference list of a var spec's variables holds only exported names |
| Inspector.ConstNamesRouted | src/heroana/generator/inspector.go:117-135 | a const spec appends exactly the constants of its exported, defined names, in order, with type name, converted value and doc, and changes no other list |
| Inspector.VarNamesRouted | src/heroana/generator/inspector.go:117-142 | a var spec appends exactly the variables of its exported, defined names, in order, and changes no other list |
| Inspector.InspectTypeSpec | src/heroana/generator/inspector.go:145-167 | the record changes as VisitTypeSpec says; TypeSpecRouted gives each kind |
| Inspector.TypeSpecRouted | src/heroana/generator/inspector.go:145-167 | an unexported or undefined type changes nothing; otherwise a struct grows the structs by StructOf, an interface the interfaces by InterfaceOf, any other kind the types by its underlying text and untrimmed doc, and nothing else changes |
| Inspector.InspectGenDecl | src/heroana/generator/inspector.go:113-170 | the specs of a declaration are handled in order |
| Inspector.InspectNodes | src/heroana/generator/inspector.go:99-173 | the first pass fills the record and the method queue as the walk function specifies |
| Inspector.ResolveReceivers | src/heroana/generator/inspector.go:175-183 | the second pass as written leaves the record unchanged |
| Inspector.InspectAbstractSyntaxTree | src/heroana/generator/inspector.go:98-185 | the record after a file is the first pass's record |
| Inspector.InspectPackage | src/heroana/generator/inspector.go:13-24 | a load error gives an empty record and a wrapped error; otherwise the files are inspected in order into one record |
| Inspector.VisitValueNamesGrows | src/heroana/generator/inspector.go:117-144 | value names only append exported constants and variables |
| Inspector.VisitSpecGrows | src/heroana/generator/inspector.go:115-169 | a spec only appends exported entries |
| Inspector.VisitSpecsGrows | src/heroana/generator/inspector.go:114-170 | a declaration only appends exported entries and adds no function |
| Inspector.VisitNodeGrows | src/heroana/generator/inspector.go:101-171 | a node only appends exported entries, and new structs have no methods |
| Inspector.FirstPassGrows | src/heroana/generator/inspector.go:100-173 | every list only grows by exported entries, and new structs have no methods |
| Inspector.InspectFileNoMethods | src/heroana/generator/inspector.go:98-185 | inspecting a file only appends, and keeps every struct without methods |
| Inspector.InspectFilesNoMethods | src/heroana/generator/inspector.go:20-22 | after the whole package, no struct has a method |
| Inspector.ReceiverPassLosesMethod | src/heroana/generator/inspector.go:175-183 | for a file declaring struct T and a method on it: as written, T has no method and the method is nowhere; with the method attached, T lists it |
| Inspector.VisitNodeFunctions | src/heroana/generator/inspector.go:107-108 | a node appends to the functions exactly its free exported function |
| Inspector.VisitNodeQueued | src/heroana/generator/inspector.go:109-110 | a node queues under a key exactly its exported method for that receiver |
| Inspector.FirstPassFunctions | src/heroana/generator/inspector.go:100-111 | the functions are the file's exported free functions, in order, and never a method |
| Inspector.FirstPassQueued | src/heroana/generator/inspector.go:109-110 | the queue under a key holds the file's exported methods on that receiver, in order |
| Inspector.AttachedFor | src/heroana/generator/inspector.go:175-183 | the corrected pass keeps every struct's name, fields and doc, only extends methods, and leaves structs of names not yet handled as they are |
| Inspector.AttachMethods | src/heroana/generator/inspector.go:175-183 | the corrected loop updates the stored structs to exactly that |
| Inspector.AppendMethods | src/heroana/generator/inspector.go:180-182 | appending keeps name, fields and doc, and extends the methods |
| Inspector.AttachingFileMethods | src/heroana/generator/inspector.go:175-183 | with the correction, a struct declared in the file ends with exactly the file's methods on it, in order |
| Inspector.InspectAbstractSyntaxTreeAttaching | src/heroana/generator/inspector.go:98-185 | the corrected file inspection yields the first pass with the methods attached |
| ArgParser.ParseBuildArguments | src/melo/cli/argparser.go:65-86 | the loop terminates, consuming two arguments or returning, and yields the specified path and `usage` call |
| ArgParser.ParseArguments | src/melo/cli/argparser.go:27-63 | the calls made are exactly the specified trace |
| ArgParser.HelpOnceOffBuild | src/melo/cli/argparser.go:28-61 | no arguments, "help" with anything after it, or an unknown command call the help callback exactly once and build never |
| ArgParser.BuildWithoutInput | src/melo/cli/argparser.go:44-48 | "build" alone calls only `usage` |
| ArgParser.BuildRunsOnce | src/melo/cli/argparser.go:37-54 | after "build", the next token is the input path whatever it looks like; build runs once, last, help never, `usage` at most once before |
| ArgParser.LastOutputWins | src/melo/cli/argparser.go:67-84 | with only `--output <path>` pairs, the last path wins and `usage` is not called |
| ArgParser.StopsAtFirstBadOption | src/melo/cli/argparser.go:69-81 | the first unknown option or missing path calls `usage` and keeps the latest path, or the default |
| ArgParser.TestScenarios | src/melo/cli/argparser_test.go:18-20 | "build . --output output" builds to "output", "build ." builds to "build", "help" calls help once |
| Folders.GoModPath | src/melo/files/folders.go:16 | the name read ends in "/go.mod" and what comes before it is the path up to, not including, its trailing run of '/': a prefix of the path, followed in it only by '/', and not ending in '/' |
| Folders.CheckInputFolder | src/melo/files/folders.go:14-28 | true iff that file can be read and its content is "module " followed by anything |
| Folders.MissingGoModRefused | src/melo/files/folders.go:17-20 | a missing go.mod gives false |
| Folders.WrongStartRefused | src/melo/files/folders.go:22-25 | content whose first character is not 'm', such as "odule example.com", gives false |
| Folders.TrailingSlashesIgnored | src/melo/files/folders.go:16 | "a", "a/" and "a//" check the same file and get the same answer |
| Folders.TestScenarios | src/melo/files/folders_test.go:25-41 | a valid go.mod is accepted; a folder without one, or with one starting "odule ", is refused |

## Left out

- Directory walking and file reading (`fs.WalkDir`, `fs.ReadFile`) are not modelled. The walk is a sequence of entries in lexical order; a file's read is an `Option` of its content; a walk error is an entry of its own.
- Package loading (`getPackage`, `packages.Load`, `PrintErrors`) is not modelled. `InspectPackage` takes the loader's outcome, successful or not, as its input.
- `types.Type.String()` and `Doc.Text()` are given as strings in the input.
- `ast.IsExported` is modelled for ASCII only: a name is exported when it starts with 'A' to 'Z'. Unicode upper-case letters are left out.
- All logging and printing is left out, including the text of `usage`. The model records only that `usage` was called.
- `CreateOutputFolder`, the `cmd` packages and the commented-out code of `InspectPackage` are left out: they hold no logic beyond I/O.
- Go map iteration order over the method queue is not modelled. `ResolveReceivers` visits the keys in an unspecified order, and as written no order has an effect. The corrected `AttachMethods` gives the same result in every order, because each key touches a different struct.
- `ResolveReceivers` does not model the pointer aliasing itself. The copy that `findStructByName` returns is a value, and appending to it is a local update that is then dropped.
- `ScanFiles.ScanModule` requires that no entry in the walk would panic, even one after the first error, which the real walk never reaches. This is slightly stronger than the code demands.
- A `name.Obj` that is nil is not modelled. Every value name carries its kind (`Con` or `Var`), as the loader provides it for declared names.
- Folders.CheckInputFolder: the file system is a plain map, so `fs.ValidPath` is not modelled. In Go, `os.DirFS` refuses names such as "./go.mod", so the build command (`src/heroana/cmd/build.go:11`, over `os.DirFS(".")`) refuses the input path ".", while the map model accepts such a key when present.
- Inspector.InspectValueSpec: value specs whose names and values the loader reports without a basic literal at an index (a panic in the code) are excluded by a precondition.

## Findings

| source | as written | input that shows it | evidently intended | confidence | as-written member | corrected member |
|---|---|---|---|---|---|---|
| src/heroana/generator/inspector.go:175-183 | `findStructByName` returns the address of the range variable, a copy, so the appended methods never reach `ExportedStructs` | a file declaring `type T struct{}` and `func (T) M()` | T's entry in `ExportedStructs` lists M | not executed | Inspector.ReceiverPassLosesMethod | Inspector.AttachingFileMethods |
| src/heroana/generator/inspector.go:126 | `strings.TrimLeft(s, "untyped ")` removes every leading character from the set {u,n,t,y,p,e,d,' '} | `var X uint = 5`: type text "uint" gives "int" | drop the prefix "untyped " once (`TrimPrefix`) | not executed | Inspector.UintName | Inspector.TypeNameIntendedExact |
| src/heroana/generator/inspector.go:227 | `strings.Trim(value, "\"")` removes every leading and trailing quote | the string literal `"a\""` gives `a\` | remove the one pair of enclosing quotes; `strconv.Unquote` would also decode escapes, which the corrected member leaves as they are | not executed | Inspector.EscapedQuoteLost | Inspector.UnquoteOnceExact |
