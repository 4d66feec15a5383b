# A verified model of the function-argument debugger

The debugger starts a program under ptrace, puts a breakpoint on every function for which it
has debug information and a symbol, and prints the arguments of each call. This project models
the three parts of it in which something can go wrong and proves what they are for.

**The breakpoint engine** (`Memory`, `Cpu`, `Native`, `Ptrace`, `Breakpoints`,
`FunctionBreakpoints`, `SteppingOver`, `Runs`, `Debugger`). The debuggee is a small processor
with variable-length instructions, byte-addressed memory, sixteen registers and a one-byte trap
that leaves the PC one past itself. Words are read and written as PTRACE_PEEKDATA and
PTRACE_POKEDATA do, with -1 standing both for a failed read and for a word of ones. The
reference is the *unpatched* program, resumed after every trap of its own. The main result,
`Debugger.Debugger.ContinueExecution` with `Runs.RunIs`, says that after any number of rounds
the debuggee with its original bytes put back is the unpatched program after exactly the
counted number of instructions; that the log is the program's sequence of arrivals at
breakpoints, once each and in order; that each of them is reported with the native registers;
and that the run ends only with the program, with a report that throws or never ends, or with
the observation: once all breakpoints are set, patching never fails.
`Debugger.Debugger.Run` says the same of the whole program from the moment it is loaded.

The hypothesis is that the program keeps clear of the patched bytes (`Native.WellBehaved`): no
breakpoint lies strictly inside an instruction it executes, and it neither reads nor writes a
breakpoint byte as data. `Cpu.LoadSeesTraps` shows that this cannot be dropped.
About the debug information it is assumed that section offsets are positive and increase in
preorder, as they do in a file (`IndexStability.ProperTree`).
Nothing is assumed about words that read as -1. Setting a breakpoint throws on such a word, and
`FunctionBreakpoints.Settable` says for which programs. Unpatching and patching again never
does: a breakpoint that has just been executed lies on an instruction, and eight 0xFF bytes are
none (`SteppingOver.NeverUnreadable`; in x86-64 too 0xFF is an opcode, but 0xFF 0xFF is not
defined).

**The flattener and the type resolver** (`Common`, `DieTree`, `Flattener`,
`FlattenerTheorems`, `IndexStability`, `TreeUnits`, `TypeChain`, `TypeNames`). The traversal threads its
pending records through a tree of debugging information entries (section 2.3 of the DWARF
Version 4 standard) and attaches them one top-level entry late. It is proved against a
specification that looks at one entry at a time, and `TreeUnits` says field by field what that
makes of each entry.

**The extractors and renderers** (`Text`, `Helpers`, `ParameterExtractor`, `Rendering`,
`ParameterValues`, `Payload`, `Arguments`, `NativeReports`, `TreeReports`). Scans of whole words
are proved against scans of bytes and slots, and every printed format comes with a parser that
undoes it.
`Arguments` says what is reported for an argument of each shape of type, `NativeReports` when
that is what native memory holds, and `TreeReports` which entries of the debug information the
report of a call names and prints. `Examples` repeats some of the repository's own output.

`Witnesses` gives an input for each of the ways in which the theorems show the code to fail.

## What the proofs show about the code

- The last top-level entry of a compile unit keeps only what the traversal attached before its
  end, so the function at examples/test1.cc:6 is printed without its parameter (README.md:42-44
  of the repository). `FlattenerTheorems.LastEntryIsFinalIff` says exactly when nothing is lost,
  `Witnesses.LastParameterIsLost` gives a unit that loses a parameter, and
  `FlattenerTheorems.FlattenedAfterFlush` says that one more run of the flush block would repair
  it.
- The search for a structure starts over at position 0 and then increments, so it never looks
  at position 0 again. A parameter that points to the very first type of its unit is missed:
  `TypeChain.ScanFindsFirstStructure`, `Witnesses.FirstTypeIsNotFound`.
- `get_datatype_metadata` ends exactly on type chains without a cycle
  (`TypeChain.EndsIffNeverRevisits`); on the others it never does (`Witnesses.TwoTypesNeverEnd`).
- Zero is printed in hexadecimal as "*0x0", so the comparisons with "0x0" never hold
  (`Payload.SpecialPointers`) and a null pointer is not recognised. It is reported as "*0x0",
  except for a null pointer to numbers, which is reported as "0x0" unless address 0 holds a zero
  word (`Arguments.NumberPointerArgument`, `Arguments.TextPointerArgument`).
- Reporting a null pointer to a structure that the search finds and that has members throws, or
  never ends if the type chain of the first member does not
  (`Arguments.StructurePointerEnding`, `Witnesses.NullStructureThrows`). Reporting such a
  structure passed by value throws, because its value is "...", or never ends if the chain of
  any member does not (`Arguments.StructureByValueEnding`, `Witnesses.ByValueThrows`). The repository's
  README.md:94-100 shows such a report completing, without the line that src/compile_unit.cc:81
  prints; the model follows the code.
- A word of ones, which ptrace reports like a failure, can be patched only once another
  breakpoint is in it. So whether all breakpoints can be set depends on their order, although
  the resulting memory does not. They can be set exactly if each function starts at a readable
  word or at a mapped one in which an earlier function starts (`FunctionBreakpoints.Settable`,
  to which `Debugger.Debugger.SetAllFunctionBreakpoints` and `Debugger.Debugger.Run` are proved
  equivalent); `Witnesses.FirstWordFirstFails` and `SecondWordFirstSucceeds` give two functions
  that can be set in one order and not in the other.
- The overload of `set_breakpoint` without indices loses the original byte when a breakpoint is
  already there: `Breakpoints.BreakpointTable.SetBreakpoint`, `Witnesses.SecondSetLosesByte`.
  Nothing in the repository calls this overload.

## Conventions

Fields and locals that the source leaves uninitialised are 0 or empty. A fully consumed word in
the character scan means going on to the next word (src/parameter_extractor.cc:54). Addresses in
the scans are integers, and a word that reaches past the top of the address space is unmapped.
The endless loops of the source are observed for a given number of instructions or hops, and the
contracts hold for every such number. The mask `(w & ~0xff) | b` is written as arithmetic.

## Model

| member | source | states |
|---|---|---|
| Memory.PeekIsAllOnes | src/breakpoint.cc:43-50 | PEEK comes back as -1 exactly on an unmapped word or on eight 0xFF bytes |
| Memory.PatchOneByte | src/breakpoint.cc:52-55 | poking a word with a changed low byte changes one byte of memory and no other |
| Cpu.StepPatched | src/debugger_manager.cc:125 | away from its breakpoints a patched machine does what the unpatched one does, instruction by instruction |
| Cpu.StepOntoTrap | src/debugger_manager.cc:153-154 | on a breakpoint a patched machine traps and changes nothing but the PC, which ends one past the trap |
| Cpu.TrapIsOneByte | src/debugger_manager.cc:153-154 | every trap leaves the PC one past itself and the rest alone |
| Cpu.LoadSeesTraps | src/breakpoint.cc:52-55 | a word read as data is the native one exactly if every trap in it is the program's own, so the hypothesis on data accesses is needed |
| Native.ContFollows | src/debugger_manager.cc:123-129 | a continued patched machine follows the native one to its next arrival at a breakpoint, its own trap or its end, and reports nothing on the way |
| Native.RunKeepsBytes | src/debugger_manager.cc:165-169 | along a well-behaved run the native bytes under the breakpoints stay what they were saved as |
| Native.ArrivalIsVisit | src/debugger_manager.cc:152-163 | every arrival of the native program at a breakpoint has its one place in the log, with the native registers and the PC one past |
| Native.VisitIsArrival | src/debugger_manager.cc:194-201 | every log entry is such an arrival, at the position its predecessors determine |
| Ptrace.Tracee.Cont | src/debugger_manager.cc:125-126 | the child runs to its next trap, exit or signal, for every bound on the observation |
| Ptrace.Tracee.SingleStep | src/debugger_manager.cc:166-167 | one native instruction, a trap of the program's own included |
| Breakpoints.Breakpoint.EnableBreakpoint | src/breakpoint.cc:42-58 | saves the byte, puts a trap there, changes nothing else; throws exactly if the word reads as -1, leaving memory alone |
| Breakpoints.Breakpoint.DisableBreakpoint | src/breakpoint.cc:60-73 | puts the saved byte back and changes nothing else; throws exactly if the word reads as -1 |
| Breakpoints.ArmedIsOverlay | src/debugger_manager.cc:124-128 | overlay invariant: an armed table's debuggee is its native program with traps at exactly the keys, and the saved bytes are the native ones, also where words overlap |
| Breakpoints.OverlayIsArmed | src/breakpoint.cc:31-39 | conversely, traps over saved native bytes form an armed table whose native program is the original |
| Breakpoints.ArmOne | src/breakpoint.cc:38-39 | setting a breakpoint keeps the table armed, and keeps the native program exactly if the address was free or held a native trap |
| Breakpoints.BreakpointTable.SetFunctionBreakpoint | src/breakpoint.cc:23-40 | sets a breakpoint unless there is one; the table stays armed, the native program is unchanged; fails exactly if the word reads as -1 |
| Breakpoints.BreakpointTable.SetBreakpoint | src/breakpoint.cc:10-21 | sets a breakpoint over any other and saves whatever byte is there; the native program survives exactly if there was none or the program had its own trap there |
| Breakpoints.PatchesCommute | src/breakpoint.cc:42-73 | enabling and disabling at distinct addresses commute and save the same bytes, even when their words overlap |
| Breakpoints.TrapIsNoFailure | src/breakpoint.cc:62-66 | a word that contains a trap never reads as -1, so a set breakpoint can always be disabled |
| Breakpoints.OrderDecidesFailure | src/breakpoint.cc:43-50 | after a breakpoint is set, a word can be patched exactly if it could be before or the breakpoint is in it |
| FunctionBreakpoints.MapsToLastStep | src/debugger_manager.cc:68-70 | recording one more symbol keeps the map pointing at the last function symbol of each address |
| FunctionBreakpoints.CoveredAll | src/debugger_manager.cc:207-246 | a table that describes and covers all functions has exactly the target addresses as its keys |
| FunctionBreakpoints.TargetsAre | src/debugger_manager.cc:219-232 | the target addresses are the nonzero ones in the symbol map at which a function with a name and a line starts |
| TreeReports.BreakpointsAreFunctions | src/debugger_manager.cc:207-246 | an address gets a breakpoint exactly if a subprogram with a name and a line starts there and a symbol table records a function symbol with that positive value |
| TreeReports.SymbolsInOrder | src/debugger_manager.cc:48-75 | the symbols of symbol tables are recorded table by table in order, those of other sections not |
| TreeReports.MappedIffSymbol | src/debugger_manager.cc:48-75 | the symbol map holds exactly the positive values of the function symbols in symbol tables |
| FunctionBreakpoints.TargetsIgnoreOrder | src/debugger_manager.cc:207-246 | the breakpoint addresses do not depend on the order of compile units and functions |
| FunctionBreakpoints.PatchesIgnoreOrder | src/debugger_manager.cc:207-246 | nor does the patched memory: complete tables over reordered units patch it in the same way |
| FunctionBreakpoints.SetIffCanSet | src/breakpoint.cc:23-50 | the next function's breakpoint is set, or already there, exactly if its word is natively readable, or mapped and an earlier function starts in it |
| FunctionBreakpoints.FailureIsNative | src/breakpoint.cc:46-50 | a breakpoint that cannot be set among others could not be set alone either |
| SteppingOver.DisarmOne | src/debugger_manager.cc:165 | inside a step-over exactly one entry is unpatched and every other byte is as before |
| SteppingOver.StepUnpatched | src/debugger_manager.cc:165-167 | the single step with that one entry unpatched is one native instruction |
| SteppingOver.RearmOne | src/debugger_manager.cc:169 | patching the one byte again arms the whole table around the new native state |
| SteppingOver.NeverUnreadable | src/breakpoint.cc:46-50 | the word of a breakpoint that has just been executed never reads as -1, so patching it again never throws |
| SteppingOver.RepatchFacts | src/debugger_manager.cc:163-169 | after rewind, unpatch and step the breakpoint can be patched again, and then the table is armed around the next native state |
| Runs.RunIsLater | src/debugger_manager.cc:124-128 | rounds compose: a run from where earlier rounds stopped is a run from the start |
| Runs.ReportIsNative | src/debugger_manager.cc:180-187 | the i-th report of any run is the payload of the native machine at the i-th arrival: all parameters in order, printed from the native registers |
| NativeReports.OrdinaryRunLosesNothing | src/compile_unit.cc:80-100 | if the types of all parameters end and lead to no structure, every call in the log is reported and no run ends with a report |
| Debugger.Debugger.GetSymbols | src/debugger_manager.cc:48-75 | records the symbols of all symbol tables; exactly the addresses of function symbols are mapped, each to the last one recorded |
| Debugger.Debugger.SetAllFunctionBreakpoints | src/debugger_manager.cc:207-246 | succeeds exactly if every eligible function starts at a natively readable word, or at a mapped one in which an earlier one starts; the table's keys are then exactly the targets, each entry is the lexicographically first eligible function and named by the symbol, and memory is the old one with traps there |
| Debugger.Debugger.GetBreakpointInfo | src/debugger_manager.cc:194-205 | logs the address and reports the call's payload, or says how building it fails |
| Debugger.Debugger.StepOverBreakpoint | src/debugger_manager.cc:152-172 | on a breakpoint: one log entry, then one report, one native instruction and armed again, unless the report is lost or the program ends; elsewhere nothing |
| Debugger.Debugger.StepOff | src/debugger_manager.cc:162-169 | the debuggee moves by one native instruction and is armed again, or is gone if the native program ends there; nothing throws |
| Debugger.Debugger.Round | src/debugger_manager.cc:125-127 | every round that is not the last performs at least one native instruction and keeps transparency, the log and the reports; the last ends in one of three ways |
| Debugger.Debugger.ContinueExecution | src/debugger_manager.cc:123-129 | transparency, exact log and exact reports of whole runs; they end only with the program, with a lost report or with the observation, armed unless the program is gone |
| Debugger.Debugger.Run | src/debugger_manager.cc:104-121 | the same for the program as it was loaded, with breakpoints at exactly the addresses at which a named subprogram with a line starts and a function symbol is recorded; it starts exactly if they can all be set |
| DieTree.IndexOf | src/compile_unit.cc:638-652 | a nonzero index names an entry with the wanted offset; zero means entry 0, no type, or a type not known yet |
| DieTree.Cut | src/compile_unit.cc:342-372 | a function's locals end at the first inlined subroutine reached with something pending |
| TreeUnits.CutIsFirst | src/compile_unit.cc:342-375 | that is the first inlined subroutine that a parameter, a variable or a member precedes, or the end |
| TreeUnits.PreorderPositions | src/compile_unit.cc:406-407 | an entry comes before its children, and each child's tree directly after those of the children before it |
| TreeUnits.FlattenedMatches | src/compile_unit.cc:228-407 | a flattened unit has the subprograms, variables and other types of its tree one for one and in order, with the name, offset, type, size, line and location of each entry, the start and end of each function, and the records of the entries below; a last type has no members, and a last function without a cut no locals |
| TreeUnits.LocalsAreEntries | src/compile_unit.cc:251-261 | the parameters and the variables kept of a list of records are the records of its parameter entries and of its variable entries, in order |
| Flattener.CompileUnitBuilder.SaveToFunction | src/compile_unit.cc:251-261 | the pending parameters and variables are appended to the last function, in order, and nothing else changes |
| Flattener.CompileUnitBuilder.SaveMembers | src/compile_unit.cc:244-273 | the flush block: records go to the last function or type or nowhere, and none stay pending |
| Flattener.CompileUnitBuilder.SetDatatype | src/compile_unit.cc:638-652 | sets the index of the first type with the wanted offset, and 0 if there is none |
| Flattener.CompileUnitBuilder.VisitNode | src/compile_unit.cc:235-399 | the work on one entry before its children; the last function or type always exists when it is used |
| Flattener.CompileUnitBuilder.ProcessCuTree | src/compile_unit.cc:228-407 | the recursion in place equals the traversal function, on every tree and from every consistent state |
| Flattener.GetCompileUnits | src/compile_unit.cc:11-26 | one flattened unit per root, in order, each from a fresh state |
| FlattenerTheorems.ProcessIsScan | src/compile_unit.cc:337-407 | below the top level the recursive traversal is one scan of the entries in preorder |
| FlattenerTheorems.ScanFunction | src/compile_unit.cc:342-372 | the scan below a function gives it everything up to the cut and leaves the rest to nobody |
| FlattenerTheorems.ScanCollects | src/compile_unit.cc:373-402 | the scan below a type or a variable collects every parameter, variable and member in preorder |
| FlattenerTheorems.FlattenedUnit | src/compile_unit.cc:243-407 | on return from the root every top-level entry but the last is as specified, and the pending records are exactly the remainder of the last |
| FlattenerTheorems.AllButLastAreFinal | src/compile_unit.cc:244-273 | the records of all top-level entries but the last are, one for one, those of the per-entry specification |
| FlattenerTheorems.FlattenedAfterFlush | src/compile_unit.cc:244-273 | one more run of the flush block makes every record meet the per-entry specification |
| FlattenerTheorems.LastEntryIsFinalIff | src/compile_unit.cc:244-273 | without it the unit meets the specification exactly if nothing is pending for the last entry |
| IndexStability.IndicesAreStable | src/compile_unit.cc:319-334 | if offsets increase in preorder the types end up sorted, and every nonzero index set on the way names the unique type with that offset at the end, pending records included |
| IndexStability.FlattenedOffsetsAreProper | src/compile_unit.cc:319-334 | the flattened types then have distinct positive offsets |
| TypeChain.CycleNeverEnds | src/compile_unit.cc:671-721 | a walk that comes back to an offset never ends |
| TypeChain.ChainLinks | src/compile_unit.cc:673-675 | every hop reaches the first entry with the offset that the one before asks for, and a finished walk asks for zero or for an offset nobody bears |
| TypeChain.Pigeonhole | src/compile_unit.cc:671-721 | more hops than types reach some type twice |
| TypeChain.EndsIffNeverRevisits | src/compile_unit.cc:670-721 | the walk ends exactly if it never reaches an entry twice, and then within as many hops as there are types |
| TypeChain.TooManyHops | src/compile_unit.cc:670-721 | a walk of more hops than types never ends |
| TypeChain.FindStructure | src/compile_unit.cc:184-196 | the restarting search ends on every chain that ends, by hops and then position, and returns what the restart function says |
| TypeChain.ScanFindsFirstStructure | src/compile_unit.cc:184-196 | it returns the first structure of the chain if no hop after the first is at position 0, and nothing otherwise |
| TypeChain.ScanAgreesWithTags | src/compile_unit.cc:946-958 | if no later hop is at position 0 the search succeeds exactly if the collected tags contain a structure |
| TypeNames.GetDatatypeMetadata | src/compile_unit.cc:654-723 | ends exactly on terminating chains, and then sets the tags, the last size and the right-to-left name of the whole chain |
| TypeNames.NameOfHop | src/compile_unit.cc:678-714 | every entry of a chain puts its text in front of the name, with brackets right after a typedef |
| TypeNames.NameOfTypedef | src/compile_unit.cc:683-714 | a typedef T of a base type B is named "(B) T " |
| TypeNames.NameOverTypedef | src/compile_unit.cc:678-714 | a typedef U of that is named "(B) (T) U ", and a pointer to it "(B) T *" |
| TypeNames.NameOfStructure | src/compile_unit.cc:678-714 | a typedef T of a structure without a name is named "T ", and a pointer to it "T *" |
| TypeNames.NameOfVariadic | src/compile_unit.cc:661-664 | a variable argument list is named "..." and marked as such |
| Arguments.SizeIsLast | src/compile_unit.cc:676 | a parameter ends up with the size of the last type on its chain, and with 0 without a type |
| TypeNames.PlainNameRoundTrip | src/compile_unit.cc:678-714 | the name of a chain of pointers and constants parses back to its tags and base name |
| TypeNames.MetadataReadBack | src/compile_unit.cc:722 | the stored name of a parameter parses back to the stored tags and the base name |
| TypeNames.PlainNameInjective | src/compile_unit.cc:678-714 | on such chains equal names mean equal tags and equal base names |
| Helpers.HexLength | src/helpers.cc:8-15 | a value prints with 18 characters exactly from 2^60 on, and with 10 exactly in [2^28, 2^32) |
| Helpers.HexRoundTrip | src/compile_unit.cc:209-211 | the base-0 parse returns the printed value exactly for positive longs, and fails on all others |
| Helpers.HexInjective | src/helpers.cc:8-15 | distinct values print differently |
| Text.NumeralOfDigits | src/helpers.cc:13 | digits in any base up to 16 read back as the number |
| ParameterExtractor.RunIsMaximal | src/parameter_extractor.cc:45-52 | the printable run is the only prefix of printable mapped bytes that cannot be extended |
| ParameterExtractor.ScanSeesRun | src/parameter_extractor.cc:36-58 | the word scan sees that whole run exactly if the stopping byte's word is mapped or holds none of it |
| ParameterExtractor.GetCharData | src/parameter_extractor.cc:21-60 | the nested loops print the codes of exactly the bytes the scan sees, in order |
| ParameterExtractor.GetNumberData | src/parameter_extractor.cc:62-106 | ends, and prints exactly the list of the values of the scan, with stride 4 for size 0 |
| ParameterExtractor.NumbersAreMaximalPrefix | src/parameter_extractor.cc:72-92 | value i is read from slot i, every earlier slot passes the stop tests and the next one does not |
| ParameterExtractor.GetAddressData | src/parameter_extractor.cc:108-129 | ends, and returns the addresses of the slots that hold the pointers of the scan |
| ParameterExtractor.PointersAreMaximalPrefix | src/parameter_extractor.cc:113-126 | pointer i is read from slot i, and the slot after the last fails or is zero |
| Rendering.CodesRoundTrip | src/parameter_extractor.cc:45-47 | codes run together decode to exactly the printable bytes they stand for |
| Rendering.CodesInjective | src/parameter_extractor.cc:45-47 | distinct printable strings have distinct codes |
| Rendering.NumbersRoundTrip | src/parameter_extractor.cc:97-105 | a printed list of numbers parses back to the numbers |
| Rendering.EntriesRoundTrip | src/parameter_extractor.cc:172-183 | separators inside entries are never taken for those between them |
| Rendering.NumberAliasRoundTrip | src/parameter_extractor.cc:170-183 | the nested alias parses back to the pointers and the list each leads to |
| Rendering.StringAliasRoundTrip | src/parameter_extractor.cc:216-229 | the same for pointers to strings |
| ParameterValues.GetNumberValue | src/parameter_extractor.cc:140-162 | sets value and alias for numbers and pointers to numbers and no other field |
| ParameterValues.GetMultiNumberValue | src/parameter_extractor.cc:164-184 | the alias is the rendering of the pointers at the value with the numbers each leads to |
| ParameterValues.GetStringValue | src/parameter_extractor.cc:196-208 | sets value and alias for characters and pointers to them |
| ParameterValues.GetMultiStringValue | src/parameter_extractor.cc:210-230 | the alias is the rendering of the pointers at the value with the strings each leads to |
| ParameterValues.NumbersReadBack | src/parameter_extractor.cc:164-184 | what is read back from memory can be read back from the alias |
| ParameterValues.StringsReadBack | src/parameter_extractor.cc:210-230 | the same for strings |
| ParameterValues.NumberPairsAreListed | src/parameter_extractor.cc:164-184 | the pairs read are the words up to a zero or a -1, each with the numbers in the slots it leads to |
| ParameterValues.TextPairsAreListed | src/parameter_extractor.cc:210-230 | the same for the bytes of strings |
| Payload.ClassifyTags | src/compile_unit.cc:821-852 | the loop over the tags, which an unspecified parameter ends, finds the shape of the type |
| Arguments.ShapeCounts | src/compile_unit.cc:821-852 | it counts pointers and arrays and finds structures, unless a parameter is unspecified |
| Arguments.ShapeKind | src/compile_unit.cc:829-845 | the last tag that says anything about the kind decides: a structure, or a base type by its name |
| Arguments.NoShapeKind | src/compile_unit.cc:811-845 | without such a tag there is no kind |
| Arguments.StringNames | src/parameter_extractor.hpp:14-16 | a name is that of a character type exactly if it contains "char" |
| Arguments.NumberNames | src/parameter_extractor.hpp:18-26 | a name is that of a number type exactly if it contains one of seven basic names |
| Arguments.KindOfName | src/compile_unit.cc:829-835 | a base type is text if its name contains "char", and otherwise a number if it contains one of seven names |
| Payload.SpecialPointers | src/compile_unit.cc:878-886 | the comparison for -1 holds exactly for -1, the one for "0x0" never |
| Payload.DatatypeValueToString | src/compile_unit.cc:804-921 | the printed value and alias for every shape of type, and whether its loops end |
| Payload.PointerToString | src/compile_unit.cc:875-920 | a pointer is printed in hexadecimal, and what up to two levels of it lead to as the alias |
| Payload.ComplexValueToString | src/compile_unit.cc:923-993 | ends exactly if the members of the structure have terminating types |
| Payload.GenerateComplexPayload | src/compile_unit.cc:172-226 | for every member of the structure, in order, the address is the parsed value plus its location, and its description joins the parameter's members; nothing if there is no structure; otherwise exactly how it fails |
| Arguments.MemberAddresses | src/compile_unit.cc:209-214 | for a pointer that is a positive long the addresses shown are the register plus the location of each member |
| Payload.GetDatatypeValue | src/compile_unit.cc:725-802 | arguments one to six are printed from registers 7, 6, 2, 1, 8 and 9 (rdi, rsi, rdx, rcx, r8, r9), later ones from none, and the register offset never moves |
| Payload.GenerateParameter | src/compile_unit.cc:58-84 | one parameter: how its handling ends, what it is reported as and which member addresses are shown |
| Payload.GenerateFunctionPayload | src/compile_unit.cc:34-101 | the payload has all parameters in order, with the member addresses of each, or the first one that fails decides how the report ends |
| Arguments.ArgumentsUseTheirRegisters | src/compile_unit.cc:761-801 | each of the first six arguments depends on its own register in the order of section 3.2.3 of the System V AMD64 ABI, the later ones on no register and no memory |
| Arguments.PlainArgument | src/parameter_extractor.cc:140-208 | a number or a character is reported as the signed value of register 7, 6, 2, 1, 8 or 9, by its position, with nothing after it |
| Arguments.SignedValue | src/parameter_extractor.cc:72-92 | the signed values are the numbers in range that agree with the 64, or the low 32, bits |
| Arguments.OtherArgument | src/compile_unit.cc:817-873 | a value of no known kind is reported as "unknown", a variable argument list and a structure by value as "...", an argument from the seventh on without a value |
| Arguments.OtherPointerArgument | src/compile_unit.cc:875-920 | pointers to structures, to no known kind or over more than two levels are reported as their register and not followed |
| Arguments.OrdinaryArgumentCompletes | src/compile_unit.cc:60-84 | reporting an argument completes if its type ends and leads to no structure, or if it has no register, and no member addresses are shown for it; without an end of its type it never completes |
| Arguments.VariadicArgument | src/compile_unit.cc:820-824 | the dots of a variable argument list are reported as "...", and their report completes |
| Payload.FirstEnding | src/compile_unit.cc:57-100 | the first argument whose handling does not complete decides how the report ends |
| Arguments.CompletesIff | src/compile_unit.cc:57-100 | the report of a call completes exactly if the handling of every argument does |
| Arguments.NumberPointerArgument | src/compile_unit.cc:876-898 | a pointer to numbers is reported as its register and the numbers in slots of the size of the last type on its chain, or of four bytes, up to the first word that ends the list; a null one as "0x0" with none; -1 and pointers to a zero word are only marked |
| Arguments.TextPointerArgument | src/compile_unit.cc:876-901 | a pointer to characters is reported as its register, "*0x0" for null, and the bytes from 32 to 126 it leads to, as far as whole words are mapped; -1 and pointers to a zero word are only marked |
| Arguments.DoublePointerArgument | src/compile_unit.cc:876-914 | a pointer to pointers is reported with an alias that parses back to the words there and the numbers or bytes that each leads to; -1 and pointers to a zero word are only marked |
| Arguments.StructurePointerEnding | src/compile_unit.cc:172-226 | how the report of a parameter that points to a structure ends, from its type and its register: with members of terminating types it completes exactly if the register is a positive long |
| Arguments.StructureByValueEnding | src/compile_unit.cc:201-211 | the report of a structure passed by value completes exactly if it has no members |
| NativeReports.NumbersAreNative | src/parameter_extractor.cc:72-92 | the scan for numbers finds what native memory holds if no breakpoint is in the slots it reads |
| NativeReports.StringIsNative | src/parameter_extractor.cc:36-58 | so does the scan for characters, for the words of the printable run and the one in which it ends |
| NativeReports.PointerIsNative | src/compile_unit.cc:875-920 | a pointer of any shape is printed as if there were no breakpoints, if none is in the words read |
| NativeReports.CallIsNative | src/compile_unit.cc:34-101 | then the whole report of a call, and how it ends, are those without breakpoints |
| NativeReports.RunReportsNativeMemory | src/debugger_manager.cc:180-187 | the i-th report of any run is then the payload of the native registers and the native memory at the i-th arrival |
| NativeReports.RunPrintsMemberAddresses | src/compile_unit.cc:201-219 | in the i-th report of any run the member addresses shown for a pointer to a structure are its native register plus each member's location |
| TreeReports.EntriesArePrinted | src/compile_unit.cc:60-78 | parameters recorded from entries are reported under the entries' names, from the registers in the entries' order, and from native memory where no breakpoint is read |
| TreeReports.RunReportsTree | src/debugger_manager.cc:180-205 | the i-th report of any run names a subprogram of some tree that starts where the native machine arrives, its unit and its line, and prints the parameters below that entry in order, or none if it is the last of its unit and is not cut |
| Witnesses.LastParameterIsLost | src/compile_unit.cc:244-273 | a unit whose only function should have one parameter and is flattened with none |
| Witnesses.FirstTypeIsNotFound | src/compile_unit.cc:184-196 | a pointer to the first type of a unit, a structure, which the search misses |
| Witnesses.TwoTypesNeverEnd | src/compile_unit.cc:670-721 | two types that refer to each other, on which the walk never ends |
| Witnesses.ByValueThrows | src/compile_unit.cc:201-211 | a structure with one member, passed by value: its report throws for all registers and memories |
| Witnesses.NullStructureThrows | src/compile_unit.cc:201-211 | a null pointer to that structure: its report throws for all memories |
| Witnesses.SecondSetLosesByte | src/breakpoint.cc:10-21 | an armed breakpoint over a no-operation, set again: the native byte becomes a trap |
| Witnesses.FirstWordFirstFails | src/debugger_manager.cc:207-246 | two functions of which the first starts in a word of ones: not all breakpoints can be set |
| Witnesses.SecondWordFirstSucceeds | src/debugger_manager.cc:207-246 | the same two in the other order: all can be set |
| Examples.CallOfTestcase2 | examples/test1.cc:9-10 | testcase2(int data1, char data2) with 555 and 65 in its registers is reported with the names, types and values of the repository's README.md:47-49 |
| Examples.ListFormat | src/parameter_extractor.cc:94-105 | a list of numbers is printed as "[1,2]" |
| Examples.AliasFormat | src/parameter_extractor.cc:170-183 | a pointer and the numbers it leads to are printed as "[ 0x9cae70=[555,-7] ]" |
| Examples.EntriesFormat | src/parameter_extractor.cc:170-183 | a list of entries is printed as "[ a, b ]" |

## Left out

- ptrace, waitpid, fork, exec, personality and prctl themselves (src/main.cc, `run_debuggee`, `wait_for_signal`): replaced by the machine's traps, steps and ends. A debuggee that exits or gets another signal ends the run.
- The debuggee's processor is not x86-64: its instructions, lengths and encodings are a small selection, which is all the breakpoint engine can tell apart. System calls, and with them changes of what is mapped, are not among them.
- libelfin and the attribute switches at src/compile_unit.cc:410-636: entries come with their attributes read, and the sections with their symbols.
- The try and catch around each compile unit (src/compile_unit.cc:19-24), because what throws there is the attribute parsing.
- `get_func_addr` is an arbitrary function from names to addresses.
- src/disassembler.cc, src/registers.cc, src/memory.cc and everything that only prints.
- TypeNames.PlainNameRoundTrip: not for names with typedefs, whose brackets and spaces do not determine the chain.
- Payload.GenerateComplexPayload: member addresses are integers, so an overflow of `long long` is not modelled; neither is the wrap-around of the `int` indices of the scans.
- Arguments.ArgumentsUseTheirRegisters: only the order of the registers is stated. Which arguments the ABI passes in more than one register, in SSE registers or on the stack is not, because the source does not look at it.
- Payload.ComplexValueToString: takes the parameter it is called for, where the source finds it again by its indices.
- Debugger.Debugger.ContinueExecution: an endless run is covered by all its finite observations; the loop is given a number of instructions after which the observation ends.
- TypeNames.GetDatatypeMetadata: a walk that never ends is represented by a result that says so.
- TypeChain.FindStructure: only for chains that end, which every caller has established by walking the same chain before.
- Threads, and signals other than the trap.
- SteppingOver.NeverUnreadable: of the instructions with opcode 0xFF only the jump through a register is modelled. A call or push of that group that overwrites its own second byte is not.
