/** src/common.hpp: the records the debugger keeps about the program. */
module Common {
  import opened Memory

  /** The DWARF tags the debugger tells apart. */
  datatype Tag =
    | CompileUnitTag
    | Subprogram
    | Variable
    | FormalParameter
    | UnspecifiedParameters
    | Member
    | LexicalBlock
    | InlinedSubroutine
    | PointerType
    | ConstType
    | Typedef
    | BaseType
    | StructureType
    | ArrayType
    | OtherTag(name: string)

  /** A `datatype_t`: a type, function, variable, parameter or member. */
  datatype DataType = DataType(
    tag: Tag,
    sectionOffset: int,
    datatypeIndex: int,
    name: string,
    byteSize: nat,
    typ: int,
    declLine: int,
    dataMemberLocation: int,
    lowPc: Word,
    highPc: Word,
    inlined: int,
    dynSym: bool,
    parameters: seq<DataType>,
    members: seq<DataType>)

  datatype CompileUnit = CompileUnit(
    filename: string,
    datatypes: seq<DataType>,
    globalVariables: seq<DataType>,
    functions: seq<DataType>)

  /** A `symbol_t`, as far as the debugger looks at it. */
  datatype Symbol = Symbol(value: Word, name: string, isFunc: bool)

  /** An ELF section; only symtab and dynsym sections are symbol tables. */
  datatype Section = Section(isSymbolTable: bool, symbols: seq<Symbol>)

  /** A copy of an `sdb_parameter_t`, as vectors hold it. */
  datatype Param = Param(
    name: string,
    datatypes: seq<Tag>,
    dtName: string,
    value: string,
    valueAlias: string,
    byteSize: nat,
    isComplex: bool,
    members: seq<Param>)

  /** The `sdb_parameter_t` being filled in. */
  class SdbParameter {
    var name: string
    var datatypes: seq<Tag>
    var dtName: string
    var value: string
    var valueAlias: string
    var byteSize: nat
    var isComplex: bool
    var members: seq<Param>

    constructor (name: string)
      ensures Copy() == Param(name, [], "", "", "", 0, false, [])
    {
      this.name, datatypes, dtName, value, valueAlias := name, [], "", "", "";
      byteSize, isComplex, members := 0, false, [];
    }

    function Copy(): Param
      reads this
    {
      Param(name, datatypes, dtName, value, valueAlias, byteSize, isComplex, members)
    }
  }
}
