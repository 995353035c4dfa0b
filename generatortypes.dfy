/**
 * The export records the inspector produces (heroana/generator/types.go).
 * Every record is a value; `Manifest` is the value of an ExportedObjects
 * record, whose six lists keep first-encounter order.
 */
module GeneratorTypes {

  /** A constant; `value` is the literal's text (quotes stripped for strings). */
  datatype ExportedConstant = ExportedConstant(name: string, typeName: string, value: string, doc: string)

  datatype ExportedVariable = ExportedVariable(name: string, typeName: string, value: string, doc: string)

  /** A named type whose underlying type is neither a struct nor an interface. */
  datatype ExportedType = ExportedType(name: string, typeName: string, doc: string)

  /** A struct field; the inspector never fills `doc`. */
  datatype ExportedField = ExportedField(name: string, typeName: string, doc: string)

  datatype ExportedArgument = ExportedArgument(name: string, typeName: string)

  /** A function, a method, or an interface method signature. */
  datatype ExportedRoutine = ExportedRoutine(
    name: string,
    arguments: seq<ExportedArgument>,
    returnTypes: seq<string>,
    doc: string)

  datatype ExportedInterface = ExportedInterface(name: string, methods: seq<ExportedRoutine>, doc: string)

  datatype ExportedStruct = ExportedStruct(
    name: string,
    fields: seq<ExportedField>,
    methods: seq<ExportedRoutine>,
    doc: string)

  /** The contents of an ExportedObjects record. */
  datatype Manifest = Manifest(
    constants: seq<ExportedConstant>,
    variables: seq<ExportedVariable>,
    types: seq<ExportedType>,
    structs: seq<ExportedStruct>,
    interfaces: seq<ExportedInterface>,
    functions: seq<ExportedRoutine>)

  /** The zero ExportedObjects value: every list empty. */
  const EmptyManifest := Manifest([], [], [], [], [], [])
}
