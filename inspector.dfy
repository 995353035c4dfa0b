/**
 * The declaration inspector (heroana/generator/inspector.go): walks the
 * nodes of each syntax file of a loaded package and files every exported
 * declaration into an ExportedObjects record, updated in place.
 *
 * The pure part comes first: the conversions of go/types values into
 * records, and the specification functions that say what the walk does to
 * a Manifest. The class ExportedObjects and its methods follow the code's
 * loops and are proved equal to those functions.
 */
module Inspector {
  import opened Wrappers
  import opened GoStrings
  import opened GeneratorTypes
  import opened GoSyntax

  /** Cutset of TrimLeft on a value's type text. */
  const UntypedCutset := "untyped "
  /** Cutset of Trim on a string literal. */
  const QuoteCutset := "\""
  /** Cutset of TrimRight on routine, struct and interface docs. */
  const NewlineCutset := "\n"

  // ---------------------------------------------------------------------------
  // Conversions
  // ---------------------------------------------------------------------------

  /** The type name recorded for a constant or variable. */
  function TypeNameOf(typeString: string): (r: string)
    ensures HasSuffix(typeString, r)
    ensures forall i :: 0 <= i < |typeString| - |r| ==> typeString[i] in UntypedCutset
    ensures r == [] || r[0] !in UntypedCutset
  {
    TrimLeft(typeString, UntypedCutset)
  }

  /**
   * parseVariableValue: for the type name "string" every leading and
   * trailing '"' goes; any other literal is kept verbatim.
   */
  function ParseVariableValue(literal: string, typeName: string): (r: string)
    ensures typeName != "string" ==> r == literal
    ensures typeName == "string" ==> |r| <= |literal| && (r == [] || (r[0] != '"' && Last(r) != '"'))
  {
    if typeName == "string" then
      TrimEnds(literal, QuoteCutset);
      Trim(literal, QuoteCutset)
    else literal
  }

  /**
   * A string constant's value is its literal with a run of quotes cut off
   * each end and nothing else changed.
   */
  lemma {:induction false} StringValueUnquoted(literal: string)
    ensures exists before, after ::
      AllIn(before, QuoteCutset) && AllIn(after, QuoteCutset) && literal == before + ParseVariableValue(literal, "string") + after
  {
    TrimInThree(literal, QuoteCutset);
    var left := TrimLeft(literal, QuoteCutset);
    var before := literal[..|literal| - |left|];
    var after := left[|Trim(literal, QuoteCutset)|..];
    assert AllIn(before, QuoteCutset) && AllIn(after, QuoteCutset)
      && literal == before + ParseVariableValue(literal, "string") + after;
  }

  /**
   * The receiver key: the text after the last "." of the receiver's type,
   * that is its longest suffix without a ".".
   */
  function ReceiverKey(receiverType: string): (r: string)
    ensures '.' !in r && HasSuffix(receiverType, r)
    ensures r == receiverType || receiverType[|receiverType| - |r| - 1] == '.'
  {
    SplitLast(receiverType, '.');
    Last(Split(receiverType, '.'))
  }

  /** The second result of parseRoutineDeclaration: "" for a function. */
  function ReceiverOf(signature: Signature): string
  {
    if signature.receiver.Some? then ReceiverKey(signature.receiver.value) else ""
  }

  /** One argument per parameter, in order. */
  function Arguments(params: seq<Variable>): (r: seq<ExportedArgument>)
    ensures |r| == |params|
    ensures forall i :: 0 <= i < |params| ==>
      r[i].name == params[i].name && r[i].typeName == params[i].typeString
    decreases |params|
  {
    if |params| == 0 then []
    else
      var p := Last(params);
      Arguments(params[..|params| - 1]) + [ExportedArgument(p.name, p.typeString)]
  }

  /** One type text per result, in order; the results' names are not kept. */
  function ReturnTypes(results: seq<Variable>): (r: seq<string>)
    ensures |r| == |results|
    ensures forall i :: 0 <= i < |results| ==> r[i] == results[i].typeString
    decreases |results|
  {
    if |results| == 0 then []
    else ReturnTypes(results[..|results| - 1]) + [Last(results).typeString]
  }

  /** One field per struct field, in order, without a doc. */
  function Fields(fields: seq<Variable>): (r: seq<ExportedField>)
    ensures |r| == |fields|
    ensures forall i :: 0 <= i < |fields| ==>
      r[i].name == fields[i].name && r[i].typeName == fields[i].typeString && r[i].doc == ""
    decreases |fields|
  {
    if |fields| == 0 then []
    else
      var f := Last(fields);
      Fields(fields[..|fields| - 1]) + [ExportedField(f.name, f.typeString, "")]
  }

  /** parseInterfaceMethod: an interface method never carries a doc. */
  function InterfaceMethodOf(fn: Func): (r: ExportedRoutine)
    ensures r.name == fn.name && r.doc == ""
    ensures |r.arguments| == |fn.signature.params| && |r.returnTypes| == |fn.signature.results|
  {
    ExportedRoutine(fn.name, Arguments(fn.signature.params), ReturnTypes(fn.signature.results), "")
  }

  /** One routine per explicit interface method, in order. */
  function InterfaceMethods(methods: seq<Func>): (r: seq<ExportedRoutine>)
    ensures |r| == |methods|
    ensures forall i :: 0 <= i < |methods| ==> r[i] == InterfaceMethodOf(methods[i])
    decreases |methods|
  {
    if |methods| == 0 then []
    else InterfaceMethods(methods[..|methods| - 1]) + [InterfaceMethodOf(Last(methods))]
  }

  /** The doc kept for routines, structs and interfaces. */
  function TrimmedDoc(doc: string): (r: string)
    ensures HasPrefix(doc, r)
    ensures r == [] || Last(r) != '\n'
    ensures forall k :: |r| <= k < |doc| ==> doc[k] == '\n'
  {
    TrimRight(doc, NewlineCutset)
  }

  /** The routine part of parseRoutineDeclaration. */
  function RoutineOf(name: string, doc: string, signature: Signature): (r: ExportedRoutine)
    ensures r.name == name && r.doc == TrimmedDoc(doc)
    ensures |r.arguments| == |signature.params| && |r.returnTypes| == |signature.results|
  {
    ExportedRoutine(name, Arguments(signature.params), ReturnTypes(signature.results), TrimmedDoc(doc))
  }

  /** parseExportedStruct: methods start empty. */
  function StructOf(name: string, doc: string, fields: seq<Variable>): (r: ExportedStruct)
    ensures r.name == name && r.methods == [] && r.doc == TrimmedDoc(doc)
    ensures |r.fields| == |fields|
  {
    ExportedStruct(name, Fields(fields), [], TrimmedDoc(doc))
  }

  /** parseExportedInterface */
  function InterfaceOf(name: string, doc: string, methods: seq<Func>): (r: ExportedInterface)
    ensures r.name == name && r.doc == TrimmedDoc(doc)
    ensures |r.methods| == |methods| && forall i :: 0 <= i < |methods| ==> r.methods[i].doc == ""
  {
    ExportedInterface(name, InterfaceMethods(methods), TrimmedDoc(doc))
  }

  // ---------------------------------------------------------------------------
  // The walk, as functions on a Manifest
  // ---------------------------------------------------------------------------

  /** The Manifest being filled and the per-file map of queued methods. */
  datatype FileState = FileState(objects: Manifest, methods: map<string, seq<ExportedRoutine>>)

  /** `methods[key]`, with Go's nil slice for a missing key. */
  function Queued(methods: map<string, seq<ExportedRoutine>>, key: string): seq<ExportedRoutine>
  {
    if key in methods then methods[key] else []
  }

  /**
   * `Values[index]` exists and is a basic literal for every name the code
   * converts; otherwise the type assertion or the index panics.
   */
  predicate SpecInBounds(spec: Spec)
  {
    spec.ValueSpec? ==>
      forall i :: 0 <= i < |spec.names| && IsExported(spec.names[i].name) && spec.names[i].def.Some? ==>
        i < |spec.values| && spec.values[i].BasicLit?
  }

  predicate SpecsInBounds(specs: seq<Spec>)
  {
    forall i :: 0 <= i < |specs| ==> SpecInBounds(specs[i])
  }

  predicate FileInBounds(file: seq<Node>)
  {
    forall i :: 0 <= i < |file| ==> file[i].GenDecl? ==> SpecsInBounds(file[i].specs)
  }

  predicate PackageInBounds(files: seq<seq<Node>>)
  {
    forall i :: 0 <= i < |files| ==> FileInBounds(files[i])
  }

  /** The FuncDecl case of the walk. */
  function VisitFuncDecl(st: FileState, name: string, doc: string, signature: Signature): FileState
  {
    if !IsExported(name) then st
    else
      var routine := RoutineOf(name, doc, signature);
      var receiver := ReceiverOf(signature);
      if receiver == "" then st.(objects := st.objects.(functions := st.objects.functions + [routine]))
      else st.(methods := st.methods[receiver := Queued(st.methods, receiver) + [routine]])
  }

  /** The name at `index` of a value spec. */
  function VisitValueName(m: Manifest, spec: Spec, index: nat): Manifest
    requires spec.ValueSpec? && SpecInBounds(spec) && index < |spec.names|
  {
    var ident := spec.names[index];
    if !IsExported(ident.name) || ident.def.None? then m
    else
      var typeName := TypeNameOf(ident.def.value);
      var value := ParseVariableValue(spec.values[index].value, typeName);
      match spec.kind
      case Con => m.(constants := m.constants + [ExportedConstant(ident.name, typeName, value, spec.doc)])
      case Var => m.(variables := m.variables + [ExportedVariable(ident.name, typeName, value, spec.doc)])
  }

  /** The first `count` names of a value spec. */
  function VisitValueNames(m: Manifest, spec: Spec, count: nat): Manifest
    requires spec.ValueSpec? && SpecInBounds(spec) && count <= |spec.names|
  {
    if count == 0 then m else VisitValueName(VisitValueNames(m, spec, count - 1), spec, count - 1)
  }

  /** The TypeSpec case, routed by underlying kind. */
  function VisitTypeSpec(m: Manifest, name: string, doc: string, def: Option<Underlying>): Manifest
  {
    if !IsExported(name) || def.None? then m
    else
      match def.value
      case StructType(fields) => m.(structs := m.structs + [StructOf(name, doc, fields)])
      case InterfaceType(methods) => m.(interfaces := m.interfaces + [InterfaceOf(name, doc, methods)])
      case OtherType(text) => m.(types := m.types + [ExportedType(name, text, doc)])
  }

  function VisitSpec(m: Manifest, spec: Spec): Manifest
    requires SpecInBounds(spec)
  {
    match spec
    case ValueSpec(_, names, _, _) => VisitValueNames(m, spec, |names|)
    case TypeSpec(name, doc, def) => VisitTypeSpec(m, name, doc, def)
    case ImportSpec(_) => m
  }

  /** The specs of one GenDecl, in order. */
  function VisitSpecs(m: Manifest, specs: seq<Spec>): Manifest
    requires SpecsInBounds(specs)
    decreases |specs|
  {
    if |specs| == 0 then m
    else VisitSpec(VisitSpecs(m, specs[..|specs| - 1]), Last(specs))
  }

  function VisitNode(st: FileState, node: Node): FileState
    requires node.GenDecl? ==> SpecsInBounds(node.specs)
  {
    match node
    case FuncDecl(name, doc, signature) => VisitFuncDecl(st, name, doc, signature)
    case GenDecl(specs) => st.(objects := VisitSpecs(st.objects, specs))
  }

  /** The ast.Inspect traversal over a file's nodes. */
  function FirstPass(st: FileState, file: seq<Node>): FileState
    requires FileInBounds(file)
    decreases |file|
  {
    if |file| == 0 then st
    else VisitNode(FirstPass(st, file[..|file| - 1]), Last(file))
  }

  /** What inspectAbstractSyntaxTree leaves in the record: the first pass only. */
  function InspectFile(m: Manifest, file: seq<Node>): Manifest
    requires FileInBounds(file)
  {
    FirstPass(FileState(m, map[]), file).objects
  }

  /** InspectPackage's loop over the package's files, in order. */
  function InspectFiles(m: Manifest, files: seq<seq<Node>>): Manifest
    requires PackageInBounds(files)
    decreases |files|
  {
    if |files| == 0 then m
    else InspectFile(InspectFiles(m, files[..|files| - 1]), Last(files))
  }

  // ---------------------------------------------------------------------------
  // Structs by name, and the intended second pass
  // ---------------------------------------------------------------------------

  /** The index findStructByName stops at: the first struct with that name. */
  function FirstNamed(structs: seq<ExportedStruct>, name: string): (r: Option<nat>)
    ensures r.Some? ==>
      r.value < |structs| && structs[r.value].name == name && forall j :: 0 <= j < r.value ==> structs[j].name != name
    ensures r.None? ==> forall j :: 0 <= j < |structs| ==> structs[j].name != name
    decreases |structs|
  {
    if |structs| == 0 then None
    else if structs[0].name == name then Some(0)
    else
      match FirstNamed(structs[1..], name)
      case None => None
      case Some(k) => Some(k + 1)
  }

  /**
   * The second pass as evidently intended, after the keys in `done`: the first
   * struct named by such a key has that key's queued methods appended.
   */
  function AttachedFor(structs: seq<ExportedStruct>, methods: map<string, seq<ExportedRoutine>>, done: set<string>): (r: seq<ExportedStruct>)
    ensures |r| == |structs|
    ensures forall j :: 0 <= j < |structs| ==>
      r[j].name == structs[j].name && r[j].fields == structs[j].fields && r[j].doc == structs[j].doc
      && structs[j].methods <= r[j].methods
    ensures forall j :: 0 <= j < |structs| && structs[j].name !in done ==> r[j] == structs[j]
  {
    seq(|structs|, j requires 0 <= j < |structs| =>
      if structs[j].name in done && FirstNamed(structs, structs[j].name) == Some(j)
      then structs[j].(methods := structs[j].methods + Queued(methods, structs[j].name))
      else structs[j])
  }

  function Attached(structs: seq<ExportedStruct>, methods: map<string, seq<ExportedRoutine>>): seq<ExportedStruct>
  {
    AttachedFor(structs, methods, methods.Keys)
  }

  /** inspectAbstractSyntaxTree with the receiver pass updating the stored structs. */
  function InspectFileAttaching(m: Manifest, file: seq<Node>): Manifest
    requires FileInBounds(file)
  {
    var st := FirstPass(FileState(m, map[]), file);
    st.objects.(structs := Attached(st.objects.structs, st.methods))
  }

  // ---------------------------------------------------------------------------
  // The loops that build slices
  // ---------------------------------------------------------------------------

  /** parseArguments */
  method ParseArguments(arguments: seq<Variable>) returns (exportedArguments: seq<ExportedArgument>)
    ensures exportedArguments == Arguments(arguments)
  {
    exportedArguments := [];
    var index := 0;
    while index < |arguments|
      invariant 0 <= index <= |arguments|
      invariant exportedArguments == Arguments(arguments[..index])
    {
      var argument := arguments[index];
      assert arguments[..index + 1][..index] == arguments[..index];
      exportedArguments := exportedArguments + [ExportedArgument(argument.name, argument.typeString)];
      index := index + 1;
    }
    assert arguments[..|arguments|] == arguments;
  }

  /** parseReturnTypes */
  method ParseReturnTypes(results: seq<Variable>) returns (returnTypes: seq<string>)
    ensures returnTypes == ReturnTypes(results)
  {
    returnTypes := [];
    var index := 0;
    while index < |results|
      invariant 0 <= index <= |results|
      invariant returnTypes == ReturnTypes(results[..index])
    {
      assert results[..index + 1][..index] == results[..index];
      returnTypes := returnTypes + [results[index].typeString];
      index := index + 1;
    }
    assert results[..|results|] == results;
  }

  /** parseStructFields */
  method ParseStructFields(fields: seq<Variable>) returns (exportedFields: seq<ExportedField>)
    ensures exportedFields == Fields(fields)
  {
    exportedFields := [];
    var index := 0;
    while index < |fields|
      invariant 0 <= index <= |fields|
      invariant exportedFields == Fields(fields[..index])
    {
      var field := fields[index];
      assert fields[..index + 1][..index] == fields[..index];
      exportedFields := exportedFields + [ExportedField(field.name, field.typeString, "")];
      index := index + 1;
    }
    assert fields[..|fields|] == fields;
  }

  /** parseInterfaceMethod */
  method ParseInterfaceMethod(fn: Func) returns (r: ExportedRoutine)
    ensures r == InterfaceMethodOf(fn)
  {
    var arguments := ParseArguments(fn.signature.params);
    var returnTypes := ParseReturnTypes(fn.signature.results);
    r := ExportedRoutine(fn.name, arguments, returnTypes, "");
  }

  /** parseInterfaceMethods */
  method ParseInterfaceMethods(methods: seq<Func>) returns (exportedMethods: seq<ExportedRoutine>)
    ensures exportedMethods == InterfaceMethods(methods)
  {
    exportedMethods := [];
    var index := 0;
    while index < |methods|
      invariant 0 <= index <= |methods|
      invariant exportedMethods == InterfaceMethods(methods[..index])
    {
      assert methods[..index + 1][..index] == methods[..index];
      var exportedMethod := ParseInterfaceMethod(methods[index]);
      exportedMethods := exportedMethods + [exportedMethod];
      index := index + 1;
    }
    assert methods[..|methods|] == methods;
  }

  /** parseRoutineDeclaration: the routine and its receiver key ("" for a function). */
  method ParseRoutineDeclaration(name: string, doc: string, signature: Signature) returns (routine: ExportedRoutine, receiver: string)
    ensures routine == RoutineOf(name, doc, signature)
    ensures receiver == ReceiverOf(signature)
  {
    receiver := "";
    if signature.receiver.Some? {
      var splitSignature := Split(signature.receiver.value, '.');
      receiver := splitSignature[|splitSignature| - 1];
    }
    var arguments := ParseArguments(signature.params);
    var returnTypes := ParseReturnTypes(signature.results);
    routine := ExportedRoutine(name, arguments, returnTypes, TrimRight(doc, NewlineCutset));
  }

  /** parseExportedStruct */
  method ParseExportedStruct(name: string, doc: string, fields: seq<Variable>) returns (r: ExportedStruct)
    ensures r == StructOf(name, doc, fields)
  {
    var exportedFields := ParseStructFields(fields);
    r := ExportedStruct(name, exportedFields, [], TrimRight(doc, NewlineCutset));
  }

  /** parseExportedInterface */
  method ParseExportedInterface(name: string, doc: string, methods: seq<Func>) returns (r: ExportedInterface)
    ensures r == InterfaceOf(name, doc, methods)
  {
    var exportedMethods := ParseInterfaceMethods(methods);
    r := ExportedInterface(name, exportedMethods, TrimRight(doc, NewlineCutset));
  }

  /**
   * findStructByName: a copy of the first struct with that name. The code
   * returns the address of the range variable, so the caller only ever holds
   * a copy.
   */
  method FindStructByName(structs: seq<ExportedStruct>, name: string) returns (r: Option<ExportedStruct>)
    ensures FirstNamed(structs, name).None? ==> r.None?
    ensures FirstNamed(structs, name).Some? ==> r == Some(structs[FirstNamed(structs, name).value])
  {
    var k := FindStructIndex(structs, name);
    if k.Some? {
      return Some(structs[k.value]);
    }
    return None;
  }

  /** The index of the first struct with that name. */
  method FindStructIndex(structs: seq<ExportedStruct>, name: string) returns (k: Option<nat>)
    ensures k == FirstNamed(structs, name)
  {
    var index := 0;
    while index < |structs|
      invariant 0 <= index <= |structs|
      invariant forall j :: 0 <= j < index ==> structs[j].name != name
    {
      if structs[index].name == name {
        FirstNamedAt(structs, name, index);
        return Some(index);
      }
      index := index + 1;
    }
    FirstNamedAt(structs, name, |structs|);
    return None;
  }

  /** FirstNamed is the first index whose struct carries the name. */
  lemma {:induction false} FirstNamedAt(structs: seq<ExportedStruct>, name: string, k: nat)
    requires k <= |structs| && forall j :: 0 <= j < k ==> structs[j].name != name
    requires k < |structs| ==> structs[k].name == name
    ensures FirstNamed(structs, name) == if k < |structs| then Some(k) else None
  {
    match FirstNamed(structs, name)
    case None =>
    case Some(j) =>
  }

  // ---------------------------------------------------------------------------
  // ExportedObjects and inspectAbstractSyntaxTree
  // ---------------------------------------------------------------------------

  /** The ExportedObjects record that inspectAbstractSyntaxTree appends to. */
  class ExportedObjects {
    var exportedConstants: seq<ExportedConstant>
    var exportedVariables: seq<ExportedVariable>
    var exportedTypes: seq<ExportedType>
    var exportedStructs: seq<ExportedStruct>
    var exportedInterfaces: seq<ExportedInterface>
    var exportedFunctions: seq<ExportedRoutine>

    /** The record's current value. */
    function Snapshot(): Manifest
      reads this
    {
      Manifest(exportedConstants, exportedVariables, exportedTypes, exportedStructs, exportedInterfaces, exportedFunctions)
    }

    /** The zero value. */
    constructor()
      ensures Snapshot() == EmptyManifest
    {
      exportedConstants, exportedVariables, exportedTypes := [], [], [];
      exportedStructs, exportedInterfaces, exportedFunctions := [], [], [];
    }
  }

  /** The FuncDecl case: a function is appended, a method is queued under its receiver key. */
  method InspectFuncDecl(objects: ExportedObjects, methods: map<string, seq<ExportedRoutine>>, name: string, doc: string, signature: Signature)
    returns (updated: map<string, seq<ExportedRoutine>>)
    modifies objects
    ensures FileState(objects.Snapshot(), updated) == VisitFuncDecl(FileState(old(objects.Snapshot()), methods), name, doc, signature)
  {
    updated := methods;
    if !IsExported(name) {
      return;
    }
    var exportedRoutine, receiver := ParseRoutineDeclaration(name, doc, signature);
    if receiver == "" {
      objects.exportedFunctions := objects.exportedFunctions + [exportedRoutine];
    } else {
      var queued := if receiver in methods then methods[receiver] else [];
      updated := methods[receiver := queued + [exportedRoutine]];
    }
  }

  /** The ValueSpec case: every exported name with a definition, in order. */
  method InspectValueSpec(objects: ExportedObjects, spec: Spec)
    requires spec.ValueSpec? && SpecInBounds(spec)
    modifies objects
    ensures objects.Snapshot() == VisitValueNames(old(objects.Snapshot()), spec, |spec.names|)
  {
    var index := 0;
    while index < |spec.names|
      invariant 0 <= index <= |spec.names|
      invariant objects.Snapshot() == VisitValueNames(old(objects.Snapshot()), spec, index)
    {
      var name := spec.names[index];
      if IsExported(name.name) && name.def.Some? {
        var typeName := TrimLeft(name.def.value, UntypedCutset);
        match spec.kind {
          case Con =>
            var value := ParseVariableValue(spec.values[index].value, typeName);
            objects.exportedConstants := objects.exportedConstants + [ExportedConstant(name.name, typeName, value, spec.doc)];
          case Var =>
            var value := ParseVariableValue(spec.values[index].value, typeName);
            objects.exportedVariables := objects.exportedVariables + [ExportedVariable(name.name, typeName, value, spec.doc)];
        }
      }
      index := index + 1;
    }
  }

  /** The TypeSpec case, routed by the underlying type. */
  method InspectTypeSpec(objects: ExportedObjects, name: string, doc: string, def: Option<Underlying>)
    modifies objects
    ensures objects.Snapshot() == VisitTypeSpec(old(objects.Snapshot()), name, doc, def)
  {
    if !IsExported(name) || def.None? {
      return;
    }
    match def.value
    case StructType(fields) =>
      var exportedStruct := ParseExportedStruct(name, doc, fields);
      objects.exportedStructs := objects.exportedStructs + [exportedStruct];
    case InterfaceType(explicitMethods) =>
      var exportedInterface := ParseExportedInterface(name, doc, explicitMethods);
      objects.exportedInterfaces := objects.exportedInterfaces + [exportedInterface];
    case OtherType(text) =>
      objects.exportedTypes := objects.exportedTypes + [ExportedType(name, text, doc)];
  }

  /** The GenDecl case: its specs in order. */
  method InspectGenDecl(objects: ExportedObjects, specs: seq<Spec>)
    requires SpecsInBounds(specs)
    modifies objects
    ensures objects.Snapshot() == VisitSpecs(old(objects.Snapshot()), specs)
  {
    var index := 0;
    while index < |specs|
      invariant 0 <= index <= |specs|
      invariant objects.Snapshot() == VisitSpecs(old(objects.Snapshot()), specs[..index])
    {
      assert specs[..index + 1][..index] == specs[..index];
      match specs[index] {
        case ValueSpec(_, _, _, _) =>
          InspectValueSpec(objects, specs[index]);
        case TypeSpec(name, doc, def) =>
          InspectTypeSpec(objects, name, doc, def);
        case ImportSpec(_) =>
      }
      index := index + 1;
    }
    assert specs[..|specs|] == specs;
  }

  /** ast.Inspect with the switch of inspectAbstractSyntaxTree: the first pass. */
  method InspectNodes(file: seq<Node>, objects: ExportedObjects) returns (methods: map<string, seq<ExportedRoutine>>)
    requires FileInBounds(file)
    modifies objects
    ensures FileState(objects.Snapshot(), methods) == FirstPass(FileState(old(objects.Snapshot()), map[]), file)
  {
    methods := map[];
    var index := 0;
    while index < |file|
      invariant 0 <= index <= |file|
      invariant FileState(objects.Snapshot(), methods) == FirstPass(FileState(old(objects.Snapshot()), map[]), file[..index])
    {
      assert file[..index + 1][..index] == file[..index];
      match file[index] {
        case FuncDecl(name, doc, signature) =>
          methods := InspectFuncDecl(objects, methods, name, doc, signature);
        case GenDecl(specs) =>
          InspectGenDecl(objects, specs);
      }
      index := index + 1;
    }
    assert file[..|file|] == file;
  }

  /**
   * The receiver pass as written: every queued method is appended to the
   * copy findStructByName hands back, so the record itself never changes.
   * That guarantee comes from the frame (the method modifies nothing), not
   * from the loops, which only build the discarded copy.
   */
  method ResolveReceivers(objects: ExportedObjects, methods: map<string, seq<ExportedRoutine>>)
    ensures unchanged(objects)
  {
    var pending := methods.Keys;
    while pending != {}
      invariant pending <= methods.Keys
      decreases |pending|
    {
      var structName :| structName in pending;
      var structMethods := methods[structName];
      var exportedStruct := FindStructByName(objects.exportedStructs, structName);
      if exportedStruct.Some? {
        var copy := exportedStruct.value;
        var index := 0;
        while index < |structMethods|
        {
          copy := copy.(methods := copy.methods + [structMethods[index]]);
          index := index + 1;
        }
      }
      pending := pending - {structName};
    }
  }

  /** inspectAbstractSyntaxTree */
  method InspectAbstractSyntaxTree(file: seq<Node>, objects: ExportedObjects)
    requires FileInBounds(file)
    modifies objects
    ensures objects.Snapshot() == InspectFile(old(objects.Snapshot()), file)
  {
    var methods := InspectNodes(file, objects);
    ResolveReceivers(objects, methods);
  }

  /** The receiver pass as evidently intended: the stored struct is updated. */
  method AttachMethods(objects: ExportedObjects, methods: map<string, seq<ExportedRoutine>>)
    modifies objects
    ensures objects.Snapshot() == old(objects.Snapshot()).(structs := Attached(old(objects.exportedStructs), methods))
  {
    ghost var original := objects.exportedStructs;
    var pending := methods.Keys;
    assert AttachedFor(original, methods, {}) == original;
    assert methods.Keys - pending == {};
    while pending != {}
      invariant pending <= methods.Keys
      invariant objects.Snapshot() == old(objects.Snapshot()).(structs := AttachedFor(original, methods, methods.Keys - pending))
      decreases |pending|
    {
      var structName :| structName in pending;
      var structMethods := methods[structName];
      ghost var done := methods.Keys - pending;
      ghost var current := AttachedFor(original, methods, done);
      FirstNamedSameNames(original, current, structName);
      var k := FindStructIndex(objects.exportedStructs, structName);
      AttachedStep(original, methods, done, structName);
      if k.Some? {
        assert current[k.value] == original[k.value];
        var exportedStruct := AppendMethods(objects.exportedStructs[k.value], structMethods);
        objects.exportedStructs := objects.exportedStructs[k.value := exportedStruct];
      }
      assert objects.exportedStructs == AttachedFor(original, methods, done + {structName});
      pending := pending - {structName};
      assert methods.Keys - pending == done + {structName};
    }
  }

  /** The inner loop of the receiver pass: the methods appended one by one. */
  method AppendMethods(exportedStruct: ExportedStruct, structMethods: seq<ExportedRoutine>) returns (r: ExportedStruct)
    ensures r.name == exportedStruct.name && r.fields == exportedStruct.fields && r.doc == exportedStruct.doc
    ensures r.methods == exportedStruct.methods + structMethods
  {
    r := exportedStruct;
    var index := 0;
    while index < |structMethods|
      invariant 0 <= index <= |structMethods|
      invariant r == exportedStruct.(methods := exportedStruct.methods + structMethods[..index])
    {
      assert structMethods[..index + 1] == structMethods[..index] + [structMethods[index]];
      r := r.(methods := r.methods + [structMethods[index]]);
      index := index + 1;
    }
    assert structMethods[..|structMethods|] == structMethods;
  }

  /** Renaming nothing, the first struct with a name stays where it was. */
  lemma {:induction false} FirstNamedSameNames(a: seq<ExportedStruct>, b: seq<ExportedStruct>, name: string)
    requires |a| == |b| && forall j :: 0 <= j < |a| ==> a[j].name == b[j].name
    ensures FirstNamed(a, name) == FirstNamed(b, name)
  {
    match FirstNamed(a, name)
    case None => FirstNamedAt(b, name, |b|);
    case Some(k) => FirstNamedAt(b, name, k);
  }

  /** Attaching one more key changes only the first struct with that name. */
  lemma {:induction false} AttachedStep(structs: seq<ExportedStruct>, methods: map<string, seq<ExportedRoutine>>, done: set<string>, key: string)
    requires key in methods && key !in done
    ensures var before := AttachedFor(structs, methods, done);
            var after := AttachedFor(structs, methods, done + {key});
            FirstNamed(structs, key).None? ==> after == before
    ensures var before := AttachedFor(structs, methods, done);
            var after := AttachedFor(structs, methods, done + {key});
            FirstNamed(structs, key).Some? ==>
              var k := FirstNamed(structs, key).value;
              after == before[k := structs[k].(methods := structs[k].methods + methods[key])]
  {
  }

  /** inspectAbstractSyntaxTree with the intended receiver pass. */
  method InspectAbstractSyntaxTreeAttaching(file: seq<Node>, objects: ExportedObjects)
    requires FileInBounds(file)
    modifies objects
    ensures objects.Snapshot() == InspectFileAttaching(old(objects.Snapshot()), file)
  {
    var methods := InspectNodes(file, objects);
    AttachMethods(objects, methods);
  }

  /** The error InspectPackage wraps a loader error in. */
  datatype InspectError = InspectingPackage(cause: string)

  /**
   * InspectPackage: `load` is what getPackage returns, the package's syntax
   * files or the loader's error.
   */
  method InspectPackage(load: Result<seq<seq<Node>>, string>) returns (exportedObjects: Manifest, err: Option<InspectError>)
    requires load.Success? ==> PackageInBounds(load.value)
    ensures load.Failure? ==> exportedObjects == EmptyManifest && err == Some(InspectingPackage(load.error))
    ensures load.Success? ==> exportedObjects == InspectFiles(EmptyManifest, load.value) && err.None?
  {
    if load.Failure? {
      return EmptyManifest, Some(InspectingPackage(load.error));
    }
    var files := load.value;
    var objects := new ExportedObjects();
    var index := 0;
    while index < |files|
      invariant 0 <= index <= |files|
      invariant objects.Snapshot() == InspectFiles(EmptyManifest, files[..index])
    {
      assert files[..index + 1][..index] == files[..index];
      InspectAbstractSyntaxTree(files[index], objects);
      index := index + 1;
    }
    assert files[..|files|] == files;
    return objects.Snapshot(), None;
  }

  // ---------------------------------------------------------------------------
  // What the walk means
  // ---------------------------------------------------------------------------

  /** A pointer receiver and a value receiver of one type share a key. */
  lemma {:induction false} ReceiverKeyOfQualified(pkg: string, typeName: string)
    requires '.' !in typeName
    ensures ReceiverKey(pkg + "." + typeName) == typeName
    ensures ReceiverKey("*" + pkg + "." + typeName) == typeName
  {
    SplitAppend(pkg, typeName, '.');
    SplitAppend("*" + pkg, typeName, '.');
    SplitNoSep(typeName, '.');
  }

  /**
   * `r` extends `m`: every list of `m` is a prefix of the same list of `r`,
   * everything appended has an exported name, and every struct appended has
   * no methods.
   */
  predicate Grows(m: Manifest, r: Manifest)
  {
    m.constants <= r.constants && m.variables <= r.variables && m.types <= r.types
    && m.structs <= r.structs && m.interfaces <= r.interfaces && m.functions <= r.functions
    && (forall i :: |m.constants| <= i < |r.constants| ==> IsExported(r.constants[i].name))
    && (forall i :: |m.variables| <= i < |r.variables| ==> IsExported(r.variables[i].name))
    && (forall i :: |m.types| <= i < |r.types| ==> IsExported(r.types[i].name))
    && (forall i :: |m.structs| <= i < |r.structs| ==> IsExported(r.structs[i].name) && r.structs[i].methods == [])
    && (forall i :: |m.interfaces| <= i < |r.interfaces| ==> IsExported(r.interfaces[i].name))
    && (forall i :: |m.functions| <= i < |r.functions| ==> IsExported(r.functions[i].name))
  }

  /** Grows, with the functions untouched: what a GenDecl does. */
  predicate DeclGrows(m: Manifest, r: Manifest)
  {
    Grows(m, r) && r.functions == m.functions
  }

  lemma {:induction false} GrowsTrans(a: Manifest, b: Manifest, c: Manifest)
    requires Grows(a, b) && Grows(b, c)
    ensures Grows(a, c)
    ensures b.functions == a.functions && c.functions == b.functions ==> DeclGrows(a, c)
  {
    forall i | |a.constants| <= i < |c.constants| ensures IsExported(c.constants[i].name) {
      if i < |b.constants| { assert c.constants[i] == b.constants[i]; }
    }
    forall i | |a.variables| <= i < |c.variables| ensures IsExported(c.variables[i].name) {
      if i < |b.variables| { assert c.variables[i] == b.variables[i]; }
    }
    forall i | |a.types| <= i < |c.types| ensures IsExported(c.types[i].name) {
      if i < |b.types| { assert c.types[i] == b.types[i]; }
    }
    forall i | |a.structs| <= i < |c.structs| ensures IsExported(c.structs[i].name) && c.structs[i].methods == [] {
      if i < |b.structs| { assert c.structs[i] == b.structs[i]; }
    }
    forall i | |a.interfaces| <= i < |c.interfaces| ensures IsExported(c.interfaces[i].name) {
      if i < |b.interfaces| { assert c.interfaces[i] == b.interfaces[i]; }
    }
    forall i | |a.functions| <= i < |c.functions| ensures IsExported(c.functions[i].name) {
      if i < |b.functions| { assert c.functions[i] == b.functions[i]; }
    }
  }

  /** Nothing at all changes: a Manifest grows into itself. */
  lemma {:induction false} GrowsRefl(m: Manifest)
    ensures DeclGrows(m, m)
  {
    assert m.constants <= m.constants && m.variables <= m.variables && m.types <= m.types;
    assert m.structs <= m.structs && m.interfaces <= m.interfaces && m.functions <= m.functions;
  }

  /** The names of a value spec only append exported constants and variables. */
  lemma {:induction false} VisitValueNamesGrows(m: Manifest, spec: Spec, count: nat)
    requires spec.ValueSpec? && SpecInBounds(spec) && count <= |spec.names|
    ensures DeclGrows(m, VisitValueNames(m, spec, count))
  {
    GrowsRefl(m);
    if spec.kind.Con? {
      ConstNamesRouted(m, spec, count);
    } else {
      VarNamesRouted(m, spec, count);
    }
  }

  /** The name at `i` of a value spec is converted: it is exported and has a Defs entry. */
  predicate NameConverted(spec: Spec, i: nat)
    requires spec.ValueSpec? && i < |spec.names|
  {
    IsExported(spec.names[i].name) && spec.names[i].def.Some?
  }

  /** The constant recorded for the converted name at `i`. */
  function ConstantAt(spec: Spec, i: nat): ExportedConstant
    requires spec.ValueSpec? && SpecInBounds(spec) && i < |spec.names| && NameConverted(spec, i)
  {
    var typeName := TypeNameOf(spec.names[i].def.value);
    ExportedConstant(spec.names[i].name, typeName, ParseVariableValue(spec.values[i].value, typeName), spec.doc)
  }

  /** The variable recorded for the converted name at `i`. */
  function VariableAt(spec: Spec, i: nat): ExportedVariable
    requires spec.ValueSpec? && SpecInBounds(spec) && i < |spec.names| && NameConverted(spec, i)
  {
    var typeName := TypeNameOf(spec.names[i].def.value);
    ExportedVariable(spec.names[i].name, typeName, ParseVariableValue(spec.values[i].value, typeName), spec.doc)
  }

  /** Reference definition: the constants of the converted names among the first `count`, in order. */
  function ConstantsOf(spec: Spec, count: nat): (r: seq<ExportedConstant>)
    requires spec.ValueSpec? && SpecInBounds(spec) && count <= |spec.names|
    ensures forall i :: 0 <= i < |r| ==> IsExported(r[i].name)
  {
    if count == 0 then []
    else ConstantsOf(spec, count - 1) + if NameConverted(spec, count - 1) then [ConstantAt(spec, count - 1)] else []
  }

  /** Reference definition: the variables of the converted names among the first `count`, in order. */
  function VariablesOf(spec: Spec, count: nat): (r: seq<ExportedVariable>)
    requires spec.ValueSpec? && SpecInBounds(spec) && count <= |spec.names|
    ensures forall i :: 0 <= i < |r| ==> IsExported(r[i].name)
  {
    if count == 0 then []
    else VariablesOf(spec, count - 1) + if NameConverted(spec, count - 1) then [VariableAt(spec, count - 1)] else []
  }

  /** One name of a value spec: its constant or variable, if converted, and nothing else. */
  lemma {:induction false} ValueNameStep(m: Manifest, spec: Spec, i: nat)
    requires spec.ValueSpec? && SpecInBounds(spec) && i < |spec.names|
    ensures var r := VisitValueName(m, spec, i);
      r.types == m.types && r.structs == m.structs && r.interfaces == m.interfaces && r.functions == m.functions
      && (spec.kind.Con? ==>
            r.variables == m.variables
            && r.constants == m.constants + (if NameConverted(spec, i) then [ConstantAt(spec, i)] else []))
      && (spec.kind.Var? ==>
            r.constants == m.constants
            && r.variables == m.variables + (if NameConverted(spec, i) then [VariableAt(spec, i)] else []))
  {
  }

  /**
   * A const spec appends exactly the constants of its converted names, in
   * order, and no variable; nothing else changes.
   */
  lemma {:induction false} ConstNamesRouted(m: Manifest, spec: Spec, count: nat)
    requires spec.ValueSpec? && spec.kind.Con? && SpecInBounds(spec) && count <= |spec.names|
    ensures var r := VisitValueNames(m, spec, count);
      r.types == m.types && r.structs == m.structs && r.interfaces == m.interfaces && r.functions == m.functions
      && r.variables == m.variables && r.constants == m.constants + ConstantsOf(spec, count)
    decreases count
  {
    if count > 0 {
      var before := VisitValueNames(m, spec, count - 1);
      ConstNamesRouted(m, spec, count - 1);
      ValueNameStep(before, spec, count - 1);
      var added := if NameConverted(spec, count - 1) then [ConstantAt(spec, count - 1)] else [];
      assert m.constants + ConstantsOf(spec, count) == (m.constants + ConstantsOf(spec, count - 1)) + added;
    }
  }

  /**
   * A var spec appends exactly the variables of its converted names, in
   * order, and no constant; nothing else changes.
   */
  lemma {:induction false} VarNamesRouted(m: Manifest, spec: Spec, count: nat)
    requires spec.ValueSpec? && spec.kind.Var? && SpecInBounds(spec) && count <= |spec.names|
    ensures var r := VisitValueNames(m, spec, count);
      r.types == m.types && r.structs == m.structs && r.interfaces == m.interfaces && r.functions == m.functions
      && r.constants == m.constants && r.variables == m.variables + VariablesOf(spec, count)
    decreases count
  {
    if count > 0 {
      var before := VisitValueNames(m, spec, count - 1);
      VarNamesRouted(m, spec, count - 1);
      ValueNameStep(before, spec, count - 1);
      var added := if NameConverted(spec, count - 1) then [VariableAt(spec, count - 1)] else [];
      assert m.variables + VariablesOf(spec, count) == (m.variables + VariablesOf(spec, count - 1)) + added;
    }
  }

  /**
   * Type specs are routed by underlying kind: structs, interfaces and every
   * other kind each grow their own list by one entry; an unexported name or
   * a nil Defs entry changes nothing.
   */
  lemma {:induction false} TypeSpecRouted(m: Manifest, name: string, doc: string, def: Option<Underlying>)
    ensures !IsExported(name) || def.None? ==> VisitTypeSpec(m, name, doc, def) == m
    ensures IsExported(name) && def.Some? && def.value.StructType? ==>
      VisitTypeSpec(m, name, doc, def) == m.(structs := m.structs + [StructOf(name, doc, def.value.fields)])
    ensures IsExported(name) && def.Some? && def.value.InterfaceType? ==>
      VisitTypeSpec(m, name, doc, def) == m.(interfaces := m.interfaces + [InterfaceOf(name, doc, def.value.explicitMethods)])
    ensures IsExported(name) && def.Some? && def.value.OtherType? ==>
      VisitTypeSpec(m, name, doc, def) == m.(types := m.types + [ExportedType(name, def.value.text, doc)])
  {
  }

  lemma {:induction false} VisitSpecGrows(m: Manifest, spec: Spec)
    requires SpecInBounds(spec)
    ensures DeclGrows(m, VisitSpec(m, spec))
  {
    match spec
    case ValueSpec(_, names, _, _) => VisitValueNamesGrows(m, spec, |names|);
    case TypeSpec(name, doc, def) => GrowsRefl(m);
    case ImportSpec(_) => GrowsRefl(m);
  }

  lemma {:induction false} VisitSpecsGrows(m: Manifest, specs: seq<Spec>)
    requires SpecsInBounds(specs)
    ensures DeclGrows(m, VisitSpecs(m, specs))
    decreases |specs|
  {
    if |specs| == 0 {
      GrowsRefl(m);
    } else {
      var before := VisitSpecs(m, specs[..|specs| - 1]);
      VisitSpecsGrows(m, specs[..|specs| - 1]);
      VisitSpecGrows(before, Last(specs));
      GrowsTrans(m, before, VisitSpec(before, Last(specs)));
    }
  }

  lemma {:induction false} VisitNodeGrows(st: FileState, node: Node)
    requires node.GenDecl? ==> SpecsInBounds(node.specs)
    ensures Grows(st.objects, VisitNode(st, node).objects)
  {
    match node
    case FuncDecl(_, _, _) => GrowsRefl(st.objects);
    case GenDecl(specs) => VisitSpecsGrows(st.objects, specs);
  }

  /**
   * The first pass only appends: what the record held before is kept, and
   * every record it adds has an exported name; no struct it adds has a method.
   */
  lemma {:induction false} FirstPassGrows(st: FileState, file: seq<Node>)
    requires FileInBounds(file)
    ensures Grows(st.objects, FirstPass(st, file).objects)
    decreases |file|
  {
    if |file| == 0 {
      GrowsRefl(st.objects);
    } else {
      var before := FirstPass(st, file[..|file| - 1]);
      FirstPassGrows(st, file[..|file| - 1]);
      VisitNodeGrows(before, Last(file));
      GrowsTrans(st.objects, before.objects, VisitNode(before, Last(file)).objects);
    }
  }

  /** Every struct has no methods. */
  predicate NoStructMethods(m: Manifest)
  {
    forall i :: 0 <= i < |m.structs| ==> m.structs[i].methods == []
  }

  /**
   * As written, the receiver pass has no effect: inspecting a file keeps the
   * earlier records and never gives a struct a method.
   */
  lemma {:induction false} InspectFileNoMethods(m: Manifest, file: seq<Node>)
    requires FileInBounds(file)
    ensures Grows(m, InspectFile(m, file))
    ensures NoStructMethods(m) ==> NoStructMethods(InspectFile(m, file))
  {
    FirstPassGrows(FileState(m, map[]), file);
    var r := InspectFile(m, file);
    if NoStructMethods(m) {
      forall i | 0 <= i < |r.structs| ensures r.structs[i].methods == [] {
        if i < |m.structs| { assert r.structs[i] == m.structs[i]; }
      }
    }
  }

  /** InspectPackage never reports a struct method, whatever the package. */
  lemma {:induction false} InspectFilesNoMethods(files: seq<seq<Node>>)
    requires PackageInBounds(files)
    ensures NoStructMethods(InspectFiles(EmptyManifest, files))
    decreases |files|
  {
    if |files| > 0 {
      InspectFilesNoMethods(files[..|files| - 1]);
      InspectFileNoMethods(InspectFiles(EmptyManifest, files[..|files| - 1]), Last(files));
    }
  }

  /** The function a node declares, if it is an exported one without a receiver. */
  function NodeFunction(node: Node): seq<ExportedRoutine>
  {
    match node
    case FuncDecl(name, doc, signature) =>
      if IsExported(name) && ReceiverOf(signature) == "" then [RoutineOf(name, doc, signature)] else []
    case GenDecl(_) => []
  }

  /** The method a node declares, if it is an exported one with receiver key `key`. */
  function NodeMethod(node: Node, key: string): seq<ExportedRoutine>
  {
    match node
    case FuncDecl(name, doc, signature) =>
      if IsExported(name) && ReceiverOf(signature) == key then [RoutineOf(name, doc, signature)] else []
    case GenDecl(_) => []
  }

  /** Reference definition: the exported functions without a receiver, in order. */
  function FreeFunctions(file: seq<Node>): seq<ExportedRoutine>
    decreases |file|
  {
    if |file| == 0 then [] else FreeFunctions(file[..|file| - 1]) + NodeFunction(Last(file))
  }

  /** Reference definition: the exported methods with receiver key `key`, in order. */
  function MethodsOf(file: seq<Node>, key: string): seq<ExportedRoutine>
    decreases |file|
  {
    if |file| == 0 then [] else MethodsOf(file[..|file| - 1], key) + NodeMethod(Last(file), key)
  }

  /** One node's effect on ExportedFunctions. */
  lemma {:induction false} VisitNodeFunctions(st: FileState, node: Node)
    requires node.GenDecl? ==> SpecsInBounds(node.specs)
    ensures VisitNode(st, node).objects.functions == st.objects.functions + NodeFunction(node)
  {
    assert st.objects.functions + [] == st.objects.functions;
    if node.GenDecl? {
      VisitSpecsGrows(st.objects, node.specs);
    }
  }

  /** One node's effect on the queue of one receiver key. */
  lemma {:induction false} VisitNodeQueued(st: FileState, node: Node, key: string)
    requires node.GenDecl? ==> SpecsInBounds(node.specs)
    requires key != ""
    ensures Queued(VisitNode(st, node).methods, key) == Queued(st.methods, key) + NodeMethod(node, key)
  {
    assert Queued(st.methods, key) + [] == Queued(st.methods, key);
  }

  /** Appending in two steps is appending the concatenation. */
  lemma {:induction false} AppendTwice(a: seq<ExportedRoutine>, b: seq<ExportedRoutine>, c: seq<ExportedRoutine>)
    ensures a + b + c == a + (b + c)
  {
  }

  /**
   * The first pass appends to ExportedFunctions exactly the file's exported
   * functions without a receiver: a method never becomes a function.
   */
  lemma {:induction false} FirstPassFunctions(st: FileState, file: seq<Node>)
    requires FileInBounds(file)
    ensures FirstPass(st, file).objects.functions == st.objects.functions + FreeFunctions(file)
    decreases |file|
  {
    if |file| > 0 {
      var init := file[..|file| - 1];
      FirstPassFunctions(st, init);
      VisitNodeFunctions(FirstPass(st, init), Last(file));
      AppendTwice(st.objects.functions, FreeFunctions(init), NodeFunction(Last(file)));
    } else {
      assert st.objects.functions + [] == st.objects.functions;
    }
  }

  /**
   * The first pass queues under each receiver key exactly the file's
   * exported methods with that key, in order.
   */
  lemma {:induction false} FirstPassQueued(st: FileState, file: seq<Node>, key: string)
    requires FileInBounds(file) && key != ""
    ensures Queued(FirstPass(st, file).methods, key) == Queued(st.methods, key) + MethodsOf(file, key)
    decreases |file|
  {
    if |file| > 0 {
      var init := file[..|file| - 1];
      FirstPassQueued(st, init, key);
      VisitNodeQueued(FirstPass(st, init), Last(file), key);
      AppendTwice(Queued(st.methods, key), MethodsOf(init, key), NodeMethod(Last(file), key));
    } else {
      assert Queued(st.methods, key) + [] == Queued(st.methods, key);
    }
  }

  /**
   * With the intended receiver pass, a struct declared in the file receives
   * every exported method whose receiver key is its name, in order, unless
   * an earlier struct carries the same name.
   */
  lemma {:induction false} AttachingFileMethods(m: Manifest, file: seq<Node>, key: string, j: nat)
    requires FileInBounds(file) && key != ""
    requires var st := FirstPass(FileState(m, map[]), file);
      |m.structs| <= j < |st.objects.structs| && FirstNamed(st.objects.structs, key) == Some(j)
    ensures InspectFileAttaching(m, file).structs[j].methods == MethodsOf(file, key)
  {
    var st := FirstPass(FileState(m, map[]), file);
    FirstPassGrows(FileState(m, map[]), file);
    FirstPassQueued(FileState(m, map[]), file, key);
    assert st.objects.structs[j].methods == [];
    if key !in st.methods {
      assert MethodsOf(file, key) == [];
    }
  }

  // ---------------------------------------------------------------------------
  // The receiver pass: a file with one struct and one method on it
  // ---------------------------------------------------------------------------

  /**
   * A struct and a value-receiver method on it: as written the struct keeps
   * no methods and the method appears nowhere in the record; with the
   * intended pass the struct carries the method.
   */
  lemma {:induction false} ReceiverPassLosesMethod(pkg: string, typeName: string, doc: string, fields: seq<Variable>,
                                                  methodName: string, methodDoc: string, params: seq<Variable>, results: seq<Variable>)
    requires IsExported(typeName) && IsExported(methodName) && '.' !in typeName
    ensures var signature := Signature(Some(pkg + "." + typeName), params, results);
            var file := [GenDecl([TypeSpec(typeName, doc, Some(StructType(fields)))]), FuncDecl(methodName, methodDoc, signature)];
            var written := InspectFile(EmptyManifest, file);
            var intended := InspectFileAttaching(EmptyManifest, file);
            written.structs == [StructOf(typeName, doc, fields)] && written.structs[0].methods == [] && written.functions == []
            && |intended.structs| == 1 && intended.structs[0].methods == [RoutineOf(methodName, methodDoc, signature)]
  {
    var signature := Signature(Some(pkg + "." + typeName), params, results);
    var declaration := GenDecl([TypeSpec(typeName, doc, Some(StructType(fields)))]);
    var decl := FuncDecl(methodName, methodDoc, signature);
    var file := [declaration, decl];
    ReceiverKeyOfQualified(pkg, typeName);
    assert ReceiverOf(signature) == typeName;
    var start := FileState(EmptyManifest, map[]);
    assert file[..1] == [declaration] && [declaration][..0] == [];
    var spec := TypeSpec(typeName, doc, Some(StructType(fields)));
    assert [spec][..0] == [];
    assert VisitSpecs(EmptyManifest, [spec]) == VisitTypeSpec(EmptyManifest, typeName, doc, Some(StructType(fields)));
    var afterStruct := FirstPass(start, [declaration]);
    assert [declaration][..0] == [] && Last([declaration]) == declaration;
    assert FirstPass(start, []) == start;
    assert afterStruct == VisitNode(start, declaration);
    assert afterStruct.objects == EmptyManifest.(structs := [StructOf(typeName, doc, fields)]);
    assert afterStruct.methods == map[];
    var st := FirstPass(start, file);
    assert st == VisitNode(afterStruct, decl);
    assert st.objects == afterStruct.objects;
    assert Queued(afterStruct.methods, typeName) == [];
    assert [] + [RoutineOf(methodName, methodDoc, signature)] == [RoutineOf(methodName, methodDoc, signature)];
    assert st.methods == map[typeName := [RoutineOf(methodName, methodDoc, signature)]];
    assert FirstNamed(st.objects.structs, typeName) == Some(0);
  }

  // ---------------------------------------------------------------------------
  // Type names and values
  // ---------------------------------------------------------------------------

  /** Every character of UntypedCutset is in it. */
  lemma {:induction false} UntypedCutsetAllIn(prefix: string)
    requires prefix <= UntypedCutset
    ensures AllIn(prefix, UntypedCutset)
  {
    forall k | 0 <= k < |prefix| ensures prefix[k] in UntypedCutset {
      assert prefix[k] == UntypedCutset[k];
    }
  }

  /**
   * The type text of an untyped constant loses its "untyped " prefix when
   * the type's own name starts with a letter outside the cutset.
   */
  lemma {:induction false} UntypedPrefixDropped(t: string)
    requires t == [] || t[0] !in UntypedCutset
    ensures TypeNameOf("untyped " + t) == t
  {
    UntypedCutsetAllIn(UntypedCutset);
    TrimLeftRun(UntypedCutset, t, UntypedCutset);
  }

  /** One cutset letter in front of a name that starts outside the cutset is eaten. */
  lemma {:induction false} CutsetLetterEaten(c: char, rest: string)
    requires c in UntypedCutset && rest != [] && rest[0] !in UntypedCutset
    ensures TypeNameOf([c] + rest) == rest
  {
    assert AllIn([c], UntypedCutset);
    TrimLeftRun([c], rest, UntypedCutset);
  }

  /** The type text of an untyped string constant becomes "string". */
  lemma {:induction false} UntypedStringName()
    ensures TypeNameOf("untyped string") == "string"
  {
    assert "untyped string" == "untyped " + "string";
    UntypedPrefixDropped("string");
  }

  /** The cutset eats the "u" of "uint". */
  lemma {:induction false} UintName()
    ensures TypeNameOf("uint") == "int"
  {
    assert "uint" == ['u'] + "int";
    CutsetLetterEaten('u', "int");
  }

  /** The cutset eats the "e" of "error". */
  lemma {:induction false} ErrorName()
    ensures TypeNameOf("error") == "rror"
  {
    assert "error" == ['e'] + "rror";
    CutsetLetterEaten('e', "rror");
  }

  /** The evidently intended type name: the "untyped " prefix dropped once. */
  function TypeNameIntended(typeString: string): (r: string)
    ensures HasPrefix(typeString, UntypedCutset) ==> UntypedCutset + r == typeString
    ensures !HasPrefix(typeString, UntypedCutset) ==> r == typeString
  {
    TrimPrefix(typeString, UntypedCutset)
  }

  /** The intended type name keeps every typed name and strips exactly "untyped ". */
  lemma {:induction false} TypeNameIntendedExact(t: string)
    ensures TypeNameIntended("untyped " + t) == t
    ensures !HasPrefix(t, UntypedCutset) ==> TypeNameIntended(t) == t
  {
    var s := "untyped " + t;
    assert s[..|UntypedCutset|] == UntypedCutset;
    assert UntypedCutset + TypeNameIntended(s) == UntypedCutset + t;
  }

  /** A string literal whose content has no quote at either end loses exactly its delimiters. */
  lemma {:induction false} StringLiteralUnquoted(body: string)
    requires body != [] && body[0] != '"' && Last(body) != '"'
    ensures ParseVariableValue("\"" + body + "\"", "string") == body
  {
    TrimOfRuns("\"", body, "\"", QuoteCutset);
  }

  /** Any other literal text is kept verbatim, even when it is quoted. */
  lemma {:induction false} NonStringLiteralVerbatim()
    ensures ParseVariableValue("\"hello\"", "string") == "hello"
    ensures ParseVariableValue("42", "int") == "42"
    ensures ParseVariableValue("\"x\"", "untyped string") == "\"x\""
  {
    assert "\"hello\"" == "\"" + "hello" + "\"";
    StringLiteralUnquoted("hello");
    assert |"int"| != |"string"| && |"untyped string"| != |"string"|;
  }

  /** A literal whose content ends with an escaped quote loses that quote too. */
  lemma {:induction false} EscapedQuoteLost()
    ensures ParseVariableValue("\"a\\\"\"", "string") == "a\\"
  {
    assert "\"a\\\"\"" == "\"" + "a\\" + "\"\"";
    assert AllIn("\"\"", QuoteCutset);
    TrimOfRuns("\"", "a\\", "\"\"", QuoteCutset);
  }

  /** The evidently intended unquoting: one delimiter off each end of a quoted literal. */
  function UnquoteOnce(literal: string): (r: string)
    ensures |literal| >= 2 && literal[0] == '"' && Last(literal) == '"' ==> "\"" + r + "\"" == literal
    ensures !(|literal| >= 2 && literal[0] == '"' && Last(literal) == '"') ==> r == literal
  {
    if |literal| >= 2 && literal[0] == '"' && Last(literal) == '"' then
      assert literal == [literal[0]] + literal[1..|literal| - 1] + [Last(literal)];
      literal[1..|literal| - 1]
    else literal
  }

  /** Unquoting gives back the content of any quoted literal, quotes inside included. */
  lemma {:induction false} UnquoteOnceExact(body: string)
    ensures UnquoteOnce("\"" + body + "\"") == body
  {
    var literal := "\"" + body + "\"";
    assert literal[0] == '"' && Last(literal) == '"';
    assert "\"" + UnquoteOnce(literal) + "\"" == "\"" + body + "\"";
    assert UnquoteOnce(literal) == ("\"" + UnquoteOnce(literal) + "\"")[1..|literal| - 1];
    assert body == ("\"" + body + "\"")[1..|literal| - 1];
  }

  /** Routine, struct and interface docs lose every trailing newline. */
  lemma {:induction false} TrimmedDocDropsNewlines(doc: string, newlines: string)
    requires AllIn(newlines, NewlineCutset)
    ensures TrimmedDoc(doc + newlines) == TrimmedDoc(doc)
  {
    TrimRightDropsRun(doc, newlines, NewlineCutset);
  }

  /**
   * Docs are trimmed unevenly: a named type keeps its doc as given, while a
   * struct and a free function declared with the same doc keep it without
   * its trailing newlines (ValueDocKept states the same of constants and
   * variables as of named types).
   */
  lemma {:induction false} DocsTrimmedUnevenly(m: Manifest, name: string, doc: string, newlines: string,
                                               text: string, fields: seq<Variable>, signature: Signature)
    requires IsExported(name) && AllIn(newlines, NewlineCutset) && ReceiverOf(signature) == ""
    ensures Last(VisitTypeSpec(m, name, doc + newlines, Some(OtherType(text))).types).doc == doc + newlines
    ensures Last(VisitTypeSpec(m, name, doc + newlines, Some(StructType(fields))).structs).doc == TrimmedDoc(doc)
    ensures Last(VisitFuncDecl(FileState(m, map[]), name, doc + newlines, signature).objects.functions).doc
            == TrimmedDoc(doc)
  {
    TrimmedDocDropsNewlines(doc, newlines);
  }

  /**
   * A constant or a variable keeps the spec's doc exactly as `Doc.Text()`
   * gives it, trailing newlines included.
   */
  lemma {:induction false} ValueDocKept(m: Manifest, kind: ObjKind, name: string, typeText: string, literal: string, doc: string)
    requires IsExported(name)
    ensures SpecInBounds(ValueSpec(kind, [Ident(name, Some(typeText))], [BasicLit(literal)], doc))
    ensures var spec := ValueSpec(kind, [Ident(name, Some(typeText))], [BasicLit(literal)], doc);
      (kind.Con? ==> Last(VisitSpec(m, spec).constants).doc == doc)
      && (kind.Var? ==> Last(VisitSpec(m, spec).variables).doc == doc)
  {
    var spec := ValueSpec(kind, [Ident(name, Some(typeText))], [BasicLit(literal)], doc);
    assert |spec.names| == 1 && VisitValueNames(m, spec, 0) == m;
    assert VisitSpec(m, spec) == VisitValueName(m, spec, 0);
    assert NameConverted(spec, 0);
    ValueNameStep(m, spec, 0);
  }
}
