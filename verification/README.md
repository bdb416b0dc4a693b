# Verified models of ktap

ktap compiles scripts to bytecode in user space and runs the bytecode in a virtual machine
inside the kernel. This project models the parts of both where something can go wrong in a
way that is hard to see, and proves that it does not.

* **Expression code** (`exprcode`, `emitter`, `emitproof`, `emitops`, `exprtheorem`,
  `jumplist`, `funcstate`, `compile`, `leaks`, `meaning`, `vm`). The parser emits code for an expression in one pass.
  Jumps without a target are chained through the offset fields of the instructions, and tests
  are patched later to keep or to drop the value they saw. `FuncStates.FuncState` updates the
  bytecode the way the parser does. It is proved to refine an emitter on values, and that
  emitter is proved against an evaluator of expressions and an interpreter of the opcodes.
  Finished code has no open jump or register left. What the evaluator gives is stated in plain
  terms, on integers cut to 64 bits; and `WordVm` has the interpreter once more, on 32-bit words
  with their bit fields and opcode numbers: a function compiled from an expression or its tokens,
  and run there, computes that value.
* **Priorities** (`precedence`, `grouping`, `onepass`). Precedence climbing against a printer and
  against the groups of operators of the language, and the parser that climbs and emits at once:
  from tokens to code that computes the value.
* **Assignments** (`assign`, `assignplain`, `localassign`). Multiple assignment with its renaming of table and
  key operands, against a parallel assignment, with stores that fail; and, for local variables,
  on the bytecode itself.
* **Tables** (`hashnodes`, `table`, `tablewalk`). The chained scatter table in its node array,
  with relocation of colliding keys, against a finite map; traversal; capacity; length.
* **Dumps** (`dump`, `dumpexact`, `dumpio`, `dumpbuf`, `dumptable`, `template`). The prototype tree
  written in post-order and read back with a stack, down to the bytes of the file and to when
  exactly the same tree comes back; the buffer it is written into; and template tables from the
  parser, through the dump, to the tables of the virtual machine. A compiled function that goes
  through a dump still computes its expression.
* **The virtual machine** (`upvals`, `scopes`, `frames`, `termination`, `loops`, `loopmeaning`,
  `endless`). Open and closed upvalues against cells, names against lexical scope, calls and
  returns against a machine with a list of frames, the code of loops and conditionals against what
  these statements mean, and a bound on every run of code that has the shape the parser emits.
* **Reentrancy** (`reentrancy`). Handlers of probes that interrupt each other.
* **Strings** (`interning`, `glob`, `globcodes`). Canonical interning with word-wise comparison, and
  pattern matching.

Where the source changes state in place the model is a class with methods and loops; what those
methods compute is stated by functions on values, and the laws are lemmas about these functions.
`hide` statements at the head of a proof only keep definitions out of it that it does not need.

Some promises of the source turned out to hold under a condition only. The condition is then
part of an equivalence, with a lemma or a method that shows a failing input. In all these cases
the model follows the code.

* A dump is read back if and only if no record has a length divisible by 256 and all its strings
  are short (`Dump.RoundTrip`, `Dump.LengthTakenForEnd`), and the tree that comes back is the one
  that was written if and only if its flags, header words and template tables are tidy
  (`DumpExact.ReadExact`). The writer stays inside its buffer if and
  only if every request fits what is left of it or, if it does not, is followed by no more bytes
  than were written before (`DumpBuffer.RecordStays`, `DumpBuffer.NumbersOverrun`).
* `kp_tab_len` is the number of entries if and only if no key is dead (`TableWalk.Len`,
  `TableWalk.DeadKeyCounted`).
* A text is parsed back to its tree if and only if it has enough parentheses and does not nest too
  deeply (`Precedence.ParsedBack`), which is to say if its operators are grouped as the language
  says (`Grouping.ParserGroups`).
* Stores of an assignment go from the last target to the first, and one into something that is no
  table ends the run, so a multiple assignment is not all or nothing: a place gets its value if and
  only if no target from its own on ends the run (`Assign.AssignIsParallel`, `Assign.NilTable`).
* A captured name leads to its variable in every nest of closures if and only if the number of the
  variable is below the limit on the stack of variables. The parser looks at that limit only when
  the stack, which doubles, is full, so a script gets past it (`Scopes.ScopeStack.LookupName`,
  `Scopes.LimitReached`). Behind 65535 numbers start again at 0, and variables go by the names of
  others (`Scopes.ScopeStack.VarNew`, `Scopes.NumbersWrap`).
* Without tail calls, and without calls on cycles that are not counted, there is a bound on the
  runs from every state if and only if every cycle is counted (`Endless.BoundedExactly`). With tail
  calls there need not be one (`Endless.TailStandsStill`).
* The word-wise comparison takes the bytes behind an empty string for the string itself, since the
  assertion against it is empty (include/ktap_bc.h:15). A request makes a second object for the same
  bytes if and only if it is for the empty string, there is one, and no object of it is followed by
  like bytes (`Interning.StrTab.StrNew`, `Interning.EmptyTwice`).
* The comment at userspace/kp_util.c:482 says that a broken pattern never matches; the code accepts
  a character that a class names before its broken range. A pattern refuses every string if and only
  if one of its tokens refuses every character (`Glob.NeverMatches`), which
  `Glob.BrokenPatternRefused` spells out for broken patterns. `char` is signed here.

## Model

| member | source | states |
|---|---|---|
| JumpList.ListDistinct | userspace/kp_parse.c:273-280 | a list threaded through offset fields never comes back to an element |
| JumpList.LinkIsNext | userspace/kp_parse.c:330-339 | an offset that was stored for a link is read back as that link; only the offset of an instruction to itself is the end marker |
| JumpList.LinkAppends | userspace/kp_parse.c:342-356 | linking the last element of a list to a disjoint list makes the sequence of both |
| ExprCode.ExecAppend | runtime/kp_vm.c:380-522 | code put behind other code continues exactly the runs that fell off the end |
| ExprCode.ExecPatch | userspace/kp_parse.c:359-373 | patching a list redirects exactly the runs that left through its members, with the tested value in the register if the jump brings one |
| EmitOps.DropValRun | userspace/kp_parse.c:323-327 | dropping the values of a list changes no run |
| EmitProof.EmitNilRun | userspace/kp_parse.c:506-546 | whether or not the nil load is merged with the one before, runs end with exactly these registers nil |
| EmitProof.InvertRun | userspace/kp_parse.c:797-801 | inverting the condition of the last test exchanges the runs that take its jump with those that fall through |
| EmitProof.ToRegNoBranchRun | userspace/kp_parse.c:549-589 | runs that reached the end now also have the value of the expression in the register, and nothing else changed |
| EmitProof.ToRegOk | userspace/kp_parse.c:592-616 | however a run delivered the value, at the end or through a jump list, it now arrives with that value in the register |
| EmitProof.BranchTOk | userspace/kp_parse.c:826-842 | runs with a true value go on, runs with a false one leave through the false list and still carry their value |
| EmitProof.BranchFOk | userspace/kp_parse.c:845-861 | runs with a false value go on, runs with a true one leave through the true list and still carry their value |
| EmitOps.EmitAluOk | userspace/kp_parse.c:899-940 | an arithmetic instruction over registers that hold the operands delivers the result or the type error, which Meaning.BinaryMeans says in integers |
| EmitOps.EmitTestOk | userspace/kp_parse.c:943-996 | a comparison over registers that hold the operands delivers its truth, as a jump or not |
| EmitOps.EmitNotOk | userspace/kp_parse.c:1054-1096 | negation delivers the negated truth of whatever the operand would have delivered |
| ExprTheorem.CompileOk | userspace/kp_parse.c:999-1051 | for every expression, state and start, the emitted code delivers the value the evaluator gives, which the lemmas of Meaning pin down operator by operator, or fails where it fails, and keeps the registers in use |
| ExprTheorem.ExprNextCorrect | userspace/kp_parse.c:2334-2339 | the same with the value in the next register: short-circuit operators give the deciding operand, and no active local changes |
| Leaks.CompileTight | userspace/kp_parse.c:999-1051 | while an expression is emitted, every jump without a target is waiting for the next instruction, in one of its lists, its own conditional jump, or was open before |
| Leaks.NextRegTight | userspace/kp_parse.c:2334-2339 | with the value in a register no jump is open but those that were, or that wait for the next instruction |
| Leaks.FinishedCode | userspace/kp_parse.c:2334-2339 | the code of an expression and the next instruction has no open jump, no open result and no test without its register |
| FuncStates.FuncState.JmpPatchtestreg | userspace/kp_parse.c:295-320 | settles the test before a jump as the abstract patch does, and tells whether that jump brings a value |
| FuncStates.FuncState.JmpNovalue | userspace/kp_parse.c:283-292 | true exactly when some jump of the list brings no value |
| FuncStates.FuncState.JmpPatchins | userspace/kp_parse.c:330-339 | exactly one offset changes; as a target it resolves the jump, as a link it changes no meaning; fails only out of range |
| FuncStates.FuncState.JmpAppend | userspace/kp_parse.c:342-356 | the new list is the concatenation of both; no instruction changes its meaning and no other list is touched |
| FuncStates.FuncState.JmpPatchval | userspace/kp_parse.c:359-373 | every jump of the list and no other gets its target: the value target where it brings a value, the default target otherwise |
| FuncStates.FuncState.JmpDropval | userspace/kp_parse.c:323-327 | the tests of the list lose their values; all lists stay as they are |
| FuncStates.FuncState.JmpTohere | userspace/kp_parse.c:376-380 | the list joins the jumps that wait for the next instruction |
| FuncStates.FuncState.BcemitINS | userspace/kp_parse.c:433-459 | waiting jumps are resolved to the new instruction, which is appended; other pending jumps are left alone |
| FuncStates.FuncState.BcemitJmp | userspace/kp_parse.c:781-794 | a new pending jump that takes over the jumps waiting here |
| FuncStates.FuncState.BcemitNil | userspace/kp_parse.c:506-546 | refines the abstract nil load, merging included |
| FuncStates.FuncState.ConstNumber | userspace/kp_parse.c:224-234 | the index holds the number, an old index is reused, and no instruction changes its meaning |
| FuncStates.FuncState.ConstStr | userspace/kp_parse.c:251-255 | the index holds the string, and no instruction changes its meaning |
| FuncStates.FuncState.BcregReserve | userspace/kp_parse.c:396-412 | registers are reserved below the frame limit, or an error says there are none |
| FuncStates.FuncState.ExprFree | userspace/kp_parse.c:415-428 | a temporary register is given back, a local is not |
| FuncStates.FuncState.ExprToregNobranch | userspace/kp_parse.c:549-589 | refines the abstract load of an expression into a register, for every kind of expression |
| FuncStates.FuncState.ExprToreg | userspace/kp_parse.c:592-616 | refines the abstract settling of both jump lists, bool loads included; jumps of others are left alone |
| FuncStates.FuncState.ExprTonextreg | userspace/kp_parse.c:619-625 | refines the abstract load into the next register |
| FuncStates.FuncState.ExprToanyreg | userspace/kp_parse.c:628-642 | refines the abstract choice of a register |
| FuncStates.FuncState.ExprToval | userspace/kp_parse.c:645-651 | an expression with jumps is settled, one without only discharged |
| FuncStates.FuncState.Invertcond | userspace/kp_parse.c:797-801 | the paired opcode is the inverted test |
| FuncStates.FuncState.BcemitBranch | userspace/kp_parse.c:804-823 | a test and a jump that is taken when the truth is the given one; a negation before it is undone |
| FuncStates.FuncState.BcemitBranchT | userspace/kp_parse.c:826-842 | refines the abstract branch for && |
| FuncStates.FuncState.BcemitBranchF | userspace/kp_parse.c:845-861 | refines the abstract branch for the or operator |
| FuncStates.FuncState.BcemitArith | userspace/kp_parse.c:865-940 | refines the abstract arithmetic: folding, the operand forms and their order of loading; WordVm.StepAgrees says what the instruction words do |
| FuncStates.FuncState.BcemitEq | userspace/kp_parse.c:943-996 | refines the abstract equality: a constant goes to the right, the sense is in the opcode |
| FuncStates.FuncState.EmitLess | userspace/kp_parse.c:943-996 | refines the abstract comparison for LT and LE |
| FuncStates.FuncState.EmitGreater | userspace/kp_parse.c:943-996 | GT and GE are LT and LE with exchanged operands, evaluated in the written order |
| FuncStates.FuncState.BcemitBinopLeft | userspace/kp_parse.c:999-1014 | refines the abstract preparation of the left operand |
| FuncStates.FuncState.BcemitBinop | userspace/kp_parse.c:1017-1051 | refines the abstract operator, joining the jump lists of && and the or operator |
| FuncStates.FuncState.BcemitNot | userspace/kp_parse.c:1054-1096 | refines the abstract negation: exchanged lists, dropped values, inverted condition |
| FuncStates.FuncState.BcemitNeg | userspace/kp_parse.c:1054-1096 | refines the abstract unary minus, folding included |
| FuncStates.FuncState.CompileExpr | userspace/kp_parse.c:2306-2325 | for every expression the bytecode is a representation of what the abstract emitter makes; an error is reported only at a limit |
| FuncStates.FuncState.constructor | userspace/kp_parse.c:1747-1764 | a new function state is valid, with the header word, which does nothing, and nothing pending |
| CompiledCode.ExprNext | userspace/kp_parse.c:2334-2339 | for every start and every registers, the bytecode in place computes the value of the expression into the next register, keeps those below, and fails exactly on a type error; jumps that only wait for the next instruction still do; the parser reports an error only at a limit of code, constants or registers |
| CompiledCode.NewFunction | userspace/kp_parse.c:1747-1764 | expressions can be compiled into a new function |
| Values.WrapFits | runtime/kp_vm.c:273-281 | wrapping gives a 64-bit number that is off by a multiple of 2^64 only, and the number itself where it fits |
| Meaning.BinaryMeans | runtime/kp_vm.c:273-421 | for all operands: + - * give the sum, difference and product in 64 bits, exactly where they fit; < >= <= > compare numbers; anything but numbers is an error there; == and its negation compare all values |
| Meaning.LogicMeans | runtime/kp_vm.c:475-508 | and gives its left operand if that is nil or false, or gives it otherwise; else both give the value, or the error, of the right one, which is not looked at before |
| Meaning.UnaryMeans | runtime/kp_vm.c:517-531 | not is true of nil and false only; minus is the negated number in 64 bits, an error on anything else; parentheses change nothing |
| Meaning.ErrorMeans | runtime/kp_vm.c:283-316 | an error in an operand that is looked at is an error of the whole |
| WordVm.Fields | include/ktap_bc.h:45-70 | opcode and operands are read back from an instruction word |
| WordVm.StepAgrees | runtime/kp_vm.c:380-604 | what a word does in the interpreter, by its opcode number and bit fields, is what the instruction means |
| WordVm.RunAgrees | runtime/kp_vm.c:270-604 | runs over finished words end as runs over their meanings: at the end with the same registers, in the same error, or by a jump back |
| WordVm.Flushed | userspace/kp_parse.c:433-459 | jumps that wait for the next instruction lead to the end of the code, and then no jump, register or opcode is open |
| WordVm.CompileFunction | userspace/kp_parse.c:1703-1744 | for every expression over n parameters, all arguments and whatever code follows, the words of the finished prototype, run from the first behind the header, leave the value of the expression in register n and the parameters as they were, or stop with an error if it has none; the header word is that of the flags and the frame size |
| WordVm.CompileText | userspace/kp_parse.c:2306-2339 | the same from tokens: the words compute the value of the tree the tokens parse to; an error means a syntax error, an operator left out, or a limit |
| Precedence.PrintedParses | userspace/kp_parse.c:2306-2325 | behind the tokens of a tree with enough parentheses the parser is in its loop with that tree |
| Precedence.ParsedEnough | userspace/kp_parse.c:2285-2325 | every result has enough parentheses, and the parser stops at an operator no stronger than its limit |
| Precedence.ParsedBack | userspace/kp_parse.c:2236-2325 | tokens of a tree are parsed back to it, all of them, if and only if it has enough parentheses for the priority table and stays below the nesting limit |
| Precedence.ParseUndoesPrint | userspace/kp_parse.c:2267-2325 | any tree, printed with parentheses only where the priorities need them, is parsed back, for left and right associative operators |
| Grouping.ParserGroups | userspace/kp_parse.c:2267-2325 | tokens of a tree are parsed back to it if and only if, wherever two operators meet, the one of the tighter group takes the operand, in a group the left one, or for .. and ^ the right one, and a prefix operator goes before all but ^; groups are or, and, comparisons, .., + -, * / %, ^ |
| Grouping.TwoOperators | userspace/kp_parse.c:2267-2325 | a p b q c is (a p b) q c or a p (b q c) by these groups, for all operators, and operands that are tokens or in parentheses, exactly while the nesting stays below the limit |
| Grouping.TwoOperatorTokens | userspace/kp_parse.c:2267-2278 | the same for five tokens |
| Grouping.PrefixOperators | userspace/kp_parse.c:2280-2303 | a prefix operator before a ^ b takes the power, before any other operator its operand alone; behind an operator it is part of the right operand |
| OnePass.ExprUnop | userspace/kp_parse.c:2285-2303 | consumes what the parse function consumes and has emitted the code of its tree; refused only as that says or at a limit |
| OnePass.ExprBinop | userspace/kp_parse.c:2306-2325 | the loop over operators: same tree, same rest of the tokens, code of the tree, whose meaning Meaning.WrittenMeans states |
| OnePass.ExprTokens | userspace/kp_parse.c:2328-2339 | from tokens to code: the bytecode computes the value of the tree the tokens parse to, operator by operator as Meaning.WrittenMeans says; jumps that only wait for the next instruction still do; an error means a syntax error, an operator left out, or a limit |
| Meaning.WrittenMeans | userspace/kp_parse.c:2245-2265 | each operator token that code is emitted for stands for its operation on the values of its operands; these are all but / % ^ .. |
| Meaning.PrefixMeans | userspace/kp_parse.c:2285-2303 | so do the prefix operators, and parentheses stand for their content |
| Meaning.TextMeans | userspace/kp_parse.c:2306-2325 | an operator token between two operand tokens: its tree, and the value of that from the operands |
| Assign.AssignRuns | userspace/kp_parse.c:2415-2469 | the emitted code ends, or stops, as the assignment to the old places does, target by target from the last |
| Assign.AssignFromAt | runtime/kp_tab.c:535-593 | what every place holds after stores of which some fail; the run stops if and only if a target is a global or no table, an error is reported if and only if some target could not be stored |
| Assign.AssignIsParallel | userspace/kp_parse.c:2415-2469 | for any targets, values and state: each place gets the old value meant for its first target that was stored, where a target is stored unless its key is nil, its table full, or it or a later target ends the run; if all can be stored this is the parallel assignment; missing values are nil, extra ones are dropped |
| Assign.AllStorable | runtime/kp_tab.c:535-593 | with room for the entries there are and those of the targets, which can be seen before, all targets can be stored into if and only if none is a global, indexes something that is no table, or has a nil key |
| Assign.NilTable | runtime/kp_vm.c:743-769 | t[1], a = 1, 2 with t nil: a is stored, then the run stops |
| Assign.GlobalsRefused | runtime/kp_vm.c:1182-1188 | the code is accepted before it is run if and only if no target is a global |
| Assign.GlobalNotStored | runtime/kp_vm.c:708-710 | an assignment to a global is refused, and its code would store nothing |
| Assign.HazardSettled | userspace/kp_parse.c:2364-2388 | after renaming every target leads to its old place and none uses the local about to be assigned |
| Assign.StillThere | userspace/kp_parse.c:2415-2469 | when a target is stored into, the stores before have not moved the place it stands for |
| Assign.Assignment.AssignHazard | userspace/kp_parse.c:2364-2388 | the walk over the targets renames all uses of the local, and copies it once if there was one |
| Assign.Assignment.ExprList | userspace/kp_parse.c:2059-2070 | all right-hand sides but the last are in consecutive registers |
| Assign.Assignment.AssignAdjust | userspace/kp_parse.c:2391-2412 | the last value is closed and the missing ones are nil |
| Assign.Assignment.ParseAssignment | userspace/kp_parse.c:2415-2469 | the recursion emits the code of the whole assignment although later targets rename earlier ones; registers of the values are given back |
| Assign.ParseCallAssign | userspace/kp_parse.c:2472-2484 | the statement's code, run on any state, assigns as above, failing stores included, and is accepted exactly without global targets |
| AssignPlain.LocalsAssigned | userspace/kp_parse.c:2415-2469 | any number of registers and right-hand sides: register i has the value right-hand side i had before, nil if there is none, the first naming of a register counting; nothing else changes, and nothing at all if a right-hand side has no value |
| AssignPlain.Swap | userspace/kp_parse.c:2415-2469 | a, b = b, a exchanges two registers |
| AssignPlain.EntryAssigned | runtime/kp_vm.c:743-769 | t[k] = x: the run stops if t is no table, nothing changes but for an error message if k is nil or the table is full, and otherwise exactly that entry is stored |
| AssignPlain.UpvalueAssigned | runtime/kp_vm.c:635-637 | exactly that upvalue is stored |
| AssignPlain.EntryBesideKey | userspace/kp_parse.c:2364-2388 | r, t[r] = x, y in either order stores into the entry r named before |
| LocalAssign.StoreDownOk | userspace/kp_parse.c:2465-2469 | values lined up in the registers on top reach their targets, the first occurrence of a local winning; other registers are unchanged |
| LocalAssign.PushAllOk | userspace/kp_parse.c:2059-2070 | the code of a list of expressions lines up their values above the registers in use, all computed from the same registers |
| LocalAssign.AdjustOk | userspace/kp_parse.c:2391-2412 | whatever number of values was computed, every target has one, nil if there was none |
| LocalAssign.StoreValueOk | userspace/kp_parse.c:654-662 | an expression evaluated straight into a local: it gets the value on every path, and no other register in use changes |
| LocalAssign.AssignLocalsOk | userspace/kp_parse.c:2415-2469 | on every run of the code an assignment to locals leaves each with the value meant for its first occurrence, all values computed from the registers before |
| LocalAssign.BcemitStore | userspace/kp_parse.c:654-662 | refines the abstract store into a local |
| LocalAssign.ParseLocals | userspace/kp_parse.c:2415-2469 | the bytecode of the whole statement performs the assignment on every run, whatever the numbers of targets and values, and fails exactly on a type error; registers are given back |
| HashNodes.InsertBlank | runtime/kp_tab.c:427-429 | a key in a blank main node keeps the chain invariant |
| HashNodes.InsertDead | runtime/kp_tab.c:427-429 | a key that overwrites a dead one in its place keeps the chain invariant |
| HashNodes.InsertBehind | runtime/kp_tab.c:421-425 | a free node linked behind the main node keeps chains disjoint, acyclic and every key reachable from its main position |
| HashNodes.InsertMoving | runtime/kp_tab.c:396-407 | moving a foreign key to the free node keeps the invariant: every held key stays reachable and unique |
| HashNodes.NoOwner | runtime/kp_tab.c:408-420 | no held key has a main node that holds a foreign key, so there is nothing to relink |
| Tables.Table.FindNode | runtime/kp_tab.c:323-360 | the chain walk finds the node of a key if and only if the key is held |
| Tables.Table.FindFree | runtime/kp_tab.c:386-394 | the highest free node below freetop, or all nodes hold keys |
| Tables.Table.FindPredecessor | runtime/kp_tab.c:395-400 | the search for the predecessor of a node ends, and finds it |
| Tables.Table.RechainFinds | runtime/kp_tab.c:408-420 | the loop that relinks string keys never finds one |
| Tables.Table.NewKey | runtime/kp_tab.c:375-430 | a new key gets a node and no other key or value changes; refused exactly when the main node is in use and every node holds a key, with the table unchanged |
| Tables.Table.Get | runtime/kp_tab.c:323-373 | the value the map has at the key, nil if it has none; without a hash part, for keys of the array |
| Tables.Table.Place | runtime/kp_tab.c:535-580 | a place for the key without a change of the map; an error exactly for nil and for a full table |
| Tables.Table.Set | runtime/kp_tab.c:582-593 | the old map with this key set, or without it if the value is nil; unchanged if refused |
| Tables.Table.Incr | runtime/kp_tab.c:595-614 | at a number x the new map is the old one with s there, where s is x + n cut to 64 bits, so x + n itself where it fits; at an absent key it is n; anything else is left and reported; a refused increment changes nothing |
| Tables.Table.Clear | runtime/kp_tab.c:251-260 | the empty map, with every node free again, hash part or not |
| Tables.HBitsFit | runtime/kp_tab.h:25-26 | the size is at least what was asked for and less than twice that |
| Tables.NewTable | runtime/kp_tab.c:189-199 | an empty table of the given sizes, without a hash part for no bits, or null exactly for more than 0x8000001 slots or 26 bits |
| Tables.NewTableFor | runtime/kp_tab.c:204-212 | room for at least the records asked for and less than twice that, and for the array entries; without a request 256 and 2048; a hash part unless only array entries were asked for |
| Tables.NotRefused | runtime/kp_tab.c:386-394 | keys of a set no larger than the hash part are never refused |
| Tables.Run | runtime/kp_tab.c:273-614 | any sequence of gets, sets and increments answers, step by step, as Tables.Step does on a finite map; if all its keys fit, nothing is refused |
| Tables.StepIncrements | runtime/kp_tab.c:595-614 | one increment of a finite map: the sum in 64 bits at a number, the increment at an absent key, nothing otherwise |
| Tables.IncrementedOnce | runtime/kp_tab.c:595-614 | there is one such map only |
| Tables.IncrementedTwice | runtime/kp_tab.c:595-614 | adding n and then l is adding n + l in 64 bits |
| Tables.RunCounts | runtime/kp_tab.c:595-614 | after any run of increments of absent keys, none refused, every key holds the sum of what was added to it, in 64 bits, and other keys are as they were |
| TableWalk.KeyIndex | runtime/kp_tab.c:620-643 | the index of a key in traversal order, an error exactly for keys the table does not have |
| TableWalk.Next | runtime/kp_tab.c:646-674 | the first pair with a value behind the key, or the end |
| TableWalk.WalkVisits | runtime/kp_tab.c:620-674 | a traversal during which values change visits nothing twice, only pairs that have a value then, and all that have one throughout |
| TableWalk.Traverse | runtime/kp_tab.c:646-674 | repeated kp_tab_next, with stores to existing keys between the steps, is such a traversal and ends |
| TableWalk.Enumerate | runtime/kp_tab.c:646-674 | an undisturbed traversal lists every entry of the map once and nothing else |
| TableWalk.MapSize | runtime/kp_tab.c:678-701 | the map has as many entries as there are places with a value |
| TableWalk.Len | runtime/kp_tab.c:678-701 | the number of entries plus the number of dead keys; equal to the number of entries if and only if there is no dead key |
| TableWalk.DeadKeyCounted | runtime/kp_tab.c:692-699 | nil stored under a new key of a new table: the map is empty and the length is one |
| Dump.TreeRead | userspace/kp_bcwrite.c:176-240 | reading a written tree pushes exactly that tree in its normal form, children popped in the order they were written, unless the reader gets stuck |
| Dump.RoundTrip | runtime/kp_bcread.c:376-425 | for every well-formed tree, reading the written dump gives its name and its normal form, which DumpExact.ReadRestores states field by field, if and only if no record length is divisible by 256 and no string is too long |
| Dump.LengthTakenForEnd | runtime/kp_bcread.c:398-400 | a tree whose record of 256 bytes is taken for the end of the dump |
| DumpExact.ReadRestores | runtime/kp_bcread.c:231-339 | what comes back, field by field: the three flags, sizes, upvalues, numbers, code behind the header word, that word as opcode 97 or 94 by the vararg flag with the frame size in A, strings, children, tables without trailing nils and empty nodes, and debug information unless stripped |
| DumpExact.ReadExact | runtime/kp_bcread.c:376-425 | the very same name and prototype come back if and only if the dump is accepted, no other flags are set, every header word is the one that goes with flags and frame size, and tables have no trailing nils, no empty nodes and the same order from both ends |
| DumpExact.CompiledSurvives | userspace/kp_parse.c:1464-1475 | a function compiled from an expression, finished with its header word, written and read back, is that prototype and computes the expression |
| DumpExact.ForeignRefused | runtime/kp_bcread.c:342-373 | files without the magic bytes and version 1, with an odd flag byte or one over 3 are refused |
| DumpExact.WordBytes | userspace/kp_bcwrite.c:43-48 | words lie in the file with their low byte first |
| DumpExact.PrimitiveBytes | userspace/kp_bcwrite.c:53-71 | nil, false and true in a template table are the codes 0, 1 and 2 |
| DumpExact.NumberBytes | userspace/kp_bcwrite.c:53-71 | a number is the code 4 and its eight bytes in two's complement, low byte first |
| DumpExact.StringBytes | userspace/kp_bcwrite.c:53-71 | a string is the code 5 plus its length and its characters |
| DumpExact.SmallDump | userspace/kp_bcwrite.c:176-291 | the dump of a function of one instruction, to the byte |
| DumpBuffer.ServedExactly | userspace/kp_util.c:77-90 | writes that each ask for room stay inside the buffer if and only if each fits where it starts |
| DumpBuffer.RecordStays | userspace/kp_bcwrite.c:176-240 | the first part of a record always fits, the requests write exactly the bytes of the record, and the condition for staying inside |
| DumpBuffer.NumbersStay | userspace/kp_bcwrite.c:152-164 | a record with numbers only stays inside if and only if ten bytes a number are left, or as many bytes as the numbers take are written before them |
| DumpBuffer.NumbersOverrun | userspace/kp_util.c:77-90 | 81 instructions and 80 numbers do not |
| DumpIO.BcWriter.PutTab | userspace/kp_bcwrite.c:73-111 | appends the encoding of a table: trailing nils and empty nodes left out, last node first |
| DumpIO.BcWriter.PutConsts | userspace/kp_bcwrite.c:114-150 | appends the encodings of the constants in reversed order |
| DumpIO.BcWriter.WriteProto | userspace/kp_bcwrite.c:176-240 | appends the records of the children, then its own with the size filled in afterwards |
| DumpIO.WriteDump | userspace/kp_bcwrite.c:273-291 | the bytes of the dump of a prototype tree |
| DumpIO.BcReader.GetTab | runtime/kp_bcread.c:151-181 | the table decoded at the cursor, or an error, for any bytes |
| DumpIO.BcReader.GetConsts | runtime/kp_bcread.c:184-216 | the constants decoded at the cursor, children popped from the stack |
| DumpIO.BcReader.GetProto | runtime/kp_bcread.c:260-339 | the prototype decoded at the cursor, with the header word its flags and frame size ask for, or an error |
| DumpIO.BcReader.GetHeader | runtime/kp_bcread.c:342-373 | accepts exactly headers with the right magic and version and flags for a little-endian dump, stripped or with a name that is not too long |
| DumpIO.ReadDump | runtime/kp_bcread.c:376-425 | for any bytes, the result of the decoder the round trip is about |
| DumpTable.RebuildTable | runtime/kp_bcread.c:151-181 | the table built from an image is its array part with all its entries stored, none refused; null exactly when a size is over its limit |
| DumpTable.DumpKeepsMap | userspace/kp_bcwrite.c:73-111 | a table in any arrangement whose entries have different keys, written, read and rebuilt, is the same map |
| DumpTable.TableImage | runtime/kp_tab.c:323-373 | the tables of the virtual machine are such tables |
| DumpTable.ThroughDump | runtime/kp_bcread.c:151-181 | the writer, the reader and the stores one after the other: the table that comes out has the entries of the one that went in, and fails only for strings that are too long |
| Templates.Template.constructor | userspace/kp_util.c:245-262 | an empty table |
| Templates.Template.Find | userspace/kp_util.c:157-188 | the node of a key, or there is none |
| Templates.Template.Set | userspace/kp_util.c:224-242 | the map with this key changed, unless all nodes are in use |
| Templates.TemplateDumped | userspace/kp_parse.c:1880-1895 | a table constructor with constant entries: the table that comes out of the dump has the last value given for every key, and no other keys |
| Upvals.Thread.Locate | runtime/kp_vm.c:87-105 | the open upvalue of a slot, or the place in the sorted list where it belongs |
| Upvals.Thread.FindUpval | runtime/kp_vm.c:87-116 | one open upvalue per slot, the same one for every request; list sorted, ring with the same elements; values unchanged |
| Upvals.Thread.CloseUv | runtime/kp_vm.c:118-148 | closes exactly the upvalues at or above the level; every upvalue keeps its cell and the value in it |
| Upvals.Thread.Get | runtime/kp_vm.c:632-634 | an upvalue shows the value of its cell, open or closed |
| Upvals.Thread.Set | runtime/kp_vm.c:635-637 | a store through an upvalue changes its cell and no other, so all closures that share it see it |
| Upvals.Thread.SetSlot | runtime/kp_vm.c:87-116 | a store to a register changes the cell its upvalue shows, and no other |
| Upvals.Thread.GetSlot | runtime/kp_vm.c:87-116 | a register shows the value of its cell |
| Upvals.Thread.OneVariable | runtime/kp_vm.c:87-148 | a store through a captured variable is seen in its register, a store to the register through the upvalue, also after it is closed |
| Upvals.Thread.FuncNew | runtime/kp_vm.c:173-199 | every upvalue of a new closure is the cell of the register or parent upvalue its reference names |
| Upvals.Thread.constructor | runtime/kp_vm.c:87-116 | a thread without upvalues is valid |
| Scopes.ScopeStack.VarLookupLocal | userspace/kp_parse.c:1205-1214 | the last variable of the function that goes by the name, which is the innermost one declared with it unless numbers have been given twice |
| Scopes.ScopeStack.VarLookupUv | userspace/kp_parse.c:1217-1236 | an upvalue for the variable, an old one if there is one; fails exactly when it is new and the map is full |
| Scopes.ScopeStack.VarLookup | userspace/kp_parse.c:1239-1267 | the variable lexical scoping picks, at any depth, with a path of references that leads to it; global exactly if there is none |
| Scopes.ScopeStack.constructor | userspace/kp_parse.c:1747-1764 | nothing is being parsed |
| Scopes.ScopeStack.FsInit | userspace/kp_parse.c:1747-1764 | an inner function without variables; numbers stay distinct |
| Scopes.ScopeStack.FsFinish | userspace/kp_parse.c:1703-1744 | the function is left with its references, and those around it are as they were |
| Scopes.ScopeStack.VarNew | userspace/kp_parse.c:1150-1173 | the whole new state; refused exactly for too many locals or a full stack of variables, which doubles before; the variable goes by its name if and only if its number is not cut, or the entry it then has is of the same name |
| Scopes.ScopeStack.VarRemove | userspace/kp_parse.c:1197-1202 | the variables of the inner scopes are gone, their numbers are not given again |
| Scopes.ScopeStack.LookupName | userspace/kp_parse.c:1239-1267 | in every nest of closures the functions could have at run time, what the name was resolved to is the cell of the variable that lexical scoping picks, if and only if that is a local or has a number below the limit |
| Scopes.NumberTooLarge | userspace/kp_parse.c:1477-1493 | for every captured variable with a number from the limit on there is a nest of closures in which the reference leads elsewhere or nowhere |
| Scopes.FarUpvalue | userspace/kp_parse.c:1477-1493 | such a reference is, at any depth, an upvalue of the function that has the variable, or nothing |
| Scopes.LimitReached | userspace/kp_parse.c:1150-1173 | a parse that gives a variable the first number over the limit: a function inside that uses it gets another variable in every nest |
| Scopes.NumbersWrap | userspace/kp_parse.c:1150-1173 | a parse in which a variable is not found under its name and is found under that of one that is gone |
| Scopes.FuncNewRule | runtime/kp_vm.c:173-199 | what func_new does, in terms of the cells of registers and upvalues |
| Scopes.ReferenceCodes | userspace/kp_parse.c:1477-1493 | 0x8000 marks a register of the enclosing function, 0x4000 one that is never assigned to, and a smaller code is an upvalue of it |
| Scopes.UpvalueCell | userspace/kp_parse.c:1477-1493 | at any depth of nested closures an upvalue is the cell of the variable it was made for, if the number of that is below the limit |
| Scopes.NameReachesVariable | runtime/kp_vm.c:632-637 | the upvalue index found at compile time reaches, at run time, the cell of the variable that scoping picked |
| Frames.CopyIsMove | runtime/kp_vm.c:878-911 | copying the arguments of a tail call down one by one moves all of them |
| Frames.CallPasses | runtime/kp_vm.c:816-876 | a call starts the function behind its header with the arguments as its first parameters and the missing ones nil; the way back is in the slot of the call, and slots below are untouched |
| Frames.TailCallPasses | runtime/kp_vm.c:878-911 | a tail call starts the function in the slots and with the caller of the one that calls it, with the arguments as its parameters |
| Frames.StepRep | runtime/kp_vm.c:816-977 | each instruction does to the stack with saved counters what it does to a list of frames |
| Frames.CallReturns | runtime/kp_vm.c:816-977 | a call, anything above it with any tail calls, and the return: same frames, the top one behind the call, result in its slot, lower slots unchanged but for upvalues |
| Frames.RunRep | runtime/kp_vm.c:816-977 | whole runs of the interpreter are runs of the machine with frames |
| Frames.InterpreterReturns | runtime/kp_vm.c:942-977 | after the return the interpreter has the caller's counter, function, base and closure, and its slots |
| Termination.MeasureDrops | runtime/kp_vm.c:259-268 | every step, calls and returns included, uses up some of the loop budget and frame ranks |
| Termination.RunsEnd | runtime/kp_vm.c:816-1029 | no run is longer than the measure of its start |
| Termination.CountedBounded | runtime/kp_vm.c:816-1029 | if all cycles are counted there is a bound on the runs from every state |
| Termination.RanksExist | runtime/kp_vm.c:1003-1029 | if every cycle passes LOOP, FORL or ITERN, instructions have ranks that go down everywhere else |
| Termination.RankedMeansCounted | runtime/kp_vm.c:1003-1029 | the converse: ranks leave no cycle uncounted |
| Termination.LoopsCounted | runtime/kp_vm.c:259-268 | code has no uncounted cycle if every uncounted way back spans a LOOP that no jump from before it skips |
| Loops.WhileGood | userspace/kp_parse.c:2677-2697 | if the jumps of the condition and the body stay inside or go behind the loop, and their own ways back span a LOOP, the same holds of the while loop |
| Loops.GenGood | userspace/kp_parse.c:2677-2912 | in the code of any nest of conditionals, while, repeat and for loops and breaks, over any straight code, every uncounted way back spans a LOOP that no jump from before it skips |
| Loops.EmittedCounted | userspace/kp_parse.c:2677-2912 | so code without threaded jumps and tail calls has no uncounted cycle |
| Loops.ThreadedCounted | userspace/kp_parse.c:781-794 | letting jumps that wait for a jump go where that goes makes no cycle that was not there |
| Loops.EmittedBounded | userspace/kp_parse.c:2677-2912 | for programs without tail calls: whatever the parser emits for these statements, with its jumps threaded in any way, has no uncounted cycle, and its runs are bounded |
| Loops.ThreadedExample | userspace/kp_parse.c:2677-2697 | a conditional at the end of a while loop, before and after threading |
| LoopMeaning.CodeMeans | userspace/kp_parse.c:2677-2912 | for every sequence of decisions: where a statement of conditionals, loops and breaks ends, its code has executed the same instructions in the same order and goes on behind it, behind the loop around it, or not at all; where a number of rounds is not enough, so is that number of instructions |
| LoopMeaning.InterpreterMoves | runtime/kp_vm.c:914-1035 | the interpreter moves through that code as the model of the code does, unless the loop budget is used up |
| Termination.Interpret | runtime/kp_vm.c:333-1029 | the dispatch loop ends, within the measure, for all code whose cycles are counted |
| Endless.CycleUnbounded | runtime/kp_vm.c:1003-1035 | a cycle without counted instructions and calls that can be reached without calls has runs of every length, from the entry of the function |
| Endless.TailUnbounded | runtime/kp_vm.c:878-911 | a tail call that can be reached from the entry without loops and calls has runs of every length |
| Endless.TailStandsStill | runtime/kp_vm.c:878-911 | two instructions that come back to the same state |
| Endless.BoundedExactly | runtime/kp_vm.c:259-268 | without tail calls, and calls on uncounted cycles, every state has a bound on its runs if and only if every cycle is counted |
| Endless.CallCycleBounded | runtime/kp_vm.c:816-876 | a call on an uncounted cycle may bound the runs by the stack, so the second condition is needed |
| Reentrancy.InitInv | runtime/kp_vm.h:16-24 | idle CPUs with clear flags satisfy the invariant |
| Reentrancy.StepInv | runtime/kp_events.c:236-296 | every step of a handler, and every interruption, keeps the invariant |
| Reentrancy.Exclusive | runtime/ktap.h:39-77 | in every run a context of a CPU serves at most one firing, its flag is set exactly while that one holds it, and the thread is as that one left it |
| Reentrancy.FromIdle | runtime/ktap.h:39-77 | from idle CPUs, however firings interrupt each other: a flag is set exactly while a firing of its context is inside its handler, there is never a second one inside, and a closure that runs has its own event current |
| Reentrancy.HandlerRuns | runtime/kp_events.c:236-296 | a firing whose flag is clear runs its closure on a fresh stack with its own event, and leaves flags, nest and the other threads as they were, with no event current |
| Reentrancy.RefusedExactly | runtime/kp_events.c:236-296 | a firing is refused if and only if it interrupted a holder of its own context |
| Reentrancy.NeverRefused | runtime/lib_timer.c:48-71 | in every reachable state a firing that interrupts only larger contexts gets its context, so the timer callback need not test for a refusal |
| Reentrancy.ResumesIntact | runtime/kp_events.c:709-731 | an interrupted handler goes on with its own current event and stack |
| Interning.WordDiff | runtime/kp_str.c:71-93 | the shifted difference of two words is zero exactly when the leading bytes agree |
| Interning.FastCmp | runtime/kp_str.c:71-93 | zero exactly for equal strings, whatever the up to three bytes behind them are; for empty ones, exactly if the words behind them are alike |
| Interning.StrTab.Find | runtime/kp_str.c:140-167 | an object the comparison takes for the string, if and only if the table has one |
| Interning.StrTab.StrNew | runtime/kp_str.c:130-193 | an object with these bytes, a new one only if none was taken for it; null exactly for a long string, or a new one without memory or over the limit; the exact condition for a second object with the same bytes |
| Interning.StrTab.constructor | runtime/kp_str.c:113-125 | an empty string table is valid |
| Interning.InternAll | runtime/kp_str.c:130-193 | over any run of requests, whatever is behind each new object, two results for strings that are not empty are the same object if and only if they have the same bytes; for the empty string too, unless bytes behind it decide |
| Interning.EmptyTwice | runtime/kp_str.c:71-93 | two requests for the empty string that get two objects |
| Glob.ScanIs | userspace/kp_util.c:401-415 | the scan over a class finds a character exactly if some range has it and none before is broken |
| Glob.ClassRefuses | userspace/kp_util.c:393-428 | a class refuses every character if and only if it is complemented and broken, or complemented and has them all |
| Glob.NeverMatches | userspace/kp_util.c:431-468 | a pattern refuses every string if and only if some token of it, not a star, refuses every character |
| Glob.BrokenPatternRefused | userspace/kp_util.c:482-483 | exactly which broken patterns refuse every string, as the comment promises of all |
| Glob.PastExactly | userspace/kp_util.c:393-428 | some string makes the matcher read past the end of the pattern if and only if a class that is cut off, after its bracket or after a dash, can be reached with a character it does not decide before |
| Glob.AllBytesRefused | userspace/kp_util.c:405-411 | the complement of all bytes from 1 to 255 is a broken range and refuses everything |
| Glob.BrokenPatternMatches | userspace/kp_util.c:482-483 | a broken pattern and a string it matches |
| Glob.MatchCharclass | userspace/kp_util.c:393-428 | decides membership, complement included; the place behind the class does not depend on the character |
| Glob.MatchGlob | userspace/kp_util.c:431-468 | for every string and pattern, the backtracking matcher accepts exactly the strings that some division among the tokens of the pattern explains, and reads past the end exactly where that is needed to decide |
| GlobCodes.PlainCode | userspace/kp_util.c:431-468 | text without special characters matches itself only |
| GlobCodes.StarCode | userspace/kp_util.c:459-466 | code 42 behind plain text p: exactly the strings that start with p |
| GlobCodes.StarBetween | userspace/kp_util.c:459-466 | code 42 between plain texts p and q: exactly the strings that start with p and end with q behind it |
| GlobCodes.QueryCode | userspace/kp_util.c:445-448 | code 63 behind p: exactly p and one more character |
| GlobCodes.EscapeCode | userspace/kp_util.c:455-457 | code 92 and any character c behind p: exactly p and c |
| GlobCodes.RangeCode | userspace/kp_util.c:393-428 | a range x-y with code 45 between codes 91 and 93: one character from x to y, or with code 33 one that is not; the wrong way round it is x alone, and its complement nothing |
| GlobCodes.SetCode | userspace/kp_util.c:393-428 | characters between codes 91 and 93: one of them, or with code 33 none of them |

## Left out

- CompiledCode.ExprNext: operands are constants and locals; calls, table, global and upvalue operands and the operators / % ^ .. have no code in this model.
- OnePass.ExprTokens: operands are single tokens; nothing may follow a closing parenthesis but an operator, and the operators / % ^ .. are refused.
- WordVm.CompileFunction: operands and operators as in CompiledCode.ExprNext; children, upvalues and debug information are left out, and so is the return instruction behind the value.
- WordVm.CompileText: operands and operators as in OnePass.ExprTokens.
- DumpExact.CompiledSurvives: the constants fit the dump and the dump is accepted, as Dump.RoundTrip asks.
- FuncStates.FuncState.ExprToregNobranch: the kinds of expression are constants, locals, registers, relocatable instructions and jumps.
- FuncStates.FuncState.BcemitArith: / % and ^ are left out.
- FuncStates.FuncState.BcemitBinopLeft: .. is left out.
- FuncStates.FuncState.BcemitBinop: .. is left out.
- FuncStates.FuncState.CompileExpr: operands and operators as in CompiledCode.ExprNext.
- OnePass.ExprBinop: the operators / % ^ .. are refused.
- FuncStates.FuncState.BcemitJmp: does not model the reuse of a preceding UCLO instruction; the model has no blocks with captured variables.
- FuncStates.FuncState.BcemitINS: the growth of the instruction buffer is not modelled, only the limit on its size.
- FuncStates.FuncState.ConstStr: strings have a pool of their own; other collectable constants and the growing of the user-space table they are kept in are left out.
- Assign.ParseCallAssign: a last right-hand side that is a call, the += form and targets that are not assignable are left out; evaluating an expression straight into a local is one step here, which LocalAssign.StoreValueOk proves of the code.
- Assign.Assignment.AssignAdjust: a last expression that is a call is left out.
- Assign.Assignment.ParseAssignment: the += form and calls are left out.
- LocalAssign.ParseLocals: operands as in CompiledCode.ExprNext; targets are locals, and reading the targets, which emits nothing for locals, is left out.
- Tables.Table.Set: requires a hash part, as do Place, Incr and the traversal; without one the node pointer is never set, and only Tables.Table.Get with array keys is modelled.
- Tables.Table.Place: event strings and stack traces as keys are left out.
- Tables.Run: keys are numbers, strings, booleans and objects; event strings, stack traces and kp_tab_dup are left out, locks make each operation one step, hnum has no claim, and the integer and string variants share one chain walk.
- DumpTable.RebuildTable: keys are not nil, as the assertion at runtime/kp_bcread.c:174 says.
- DumpIO.BcReader.GetTab: a type code out of range and a nil key, which the source only asserts against, are errors.
- Dump.RoundTrip: same byte order on both sides, total size below 2^30, no failing writer, and debug information as opaque bytes; the buffer of the writer is as long as needed, which DumpBuffer.RecordStays is about; reading past the end of the buffer is an error.
- DumpIO.BcReader.GetHeader: a header with the big-endian flag, which the source accepts, is refused.
- DumpIO.ReadDump: dumps with the big-endian flag are refused, and reads past the end are errors.
- Templates.Template.Set: a table with 1024 keys is full; that the source then makes room for more is left out.
- Frames.InterpreterReturns: functions with fixed parameters; variable arguments, calls with an open number of arguments, native functions and the value of `top` after a return are left out. Values, conditions and upvalue slots are chosen freely in every step.
- Frames.StepRep: the interpreter is a step function on values; only Termination.Interpret is a loop. Instructions are grouped by what they do to control; native calls, variable arguments and the rewriting of ISNEXT, here a plain jump, are left out.
- Termination.Interpret: code with tail calls is excluded; see Endless.TailUnbounded.
- Endless.CycleUnbounded: not for cycles with calls, for which it is false; see Endless.CallCycleBounded.
- Upvals.Thread.FindUpval: upvalue objects are elements of a sequence, links are indexes, and the flag for immutable upvalues is left out.
- Reentrancy.Exclusive: a handler stays on its CPU.
- Loops.GenGood: statements are code without jumps back, conditionals, loops and breaks; labels are left out, since the language has no statement that jumps to one, and so are returns that are tail calls. Jumps lead where the parser sends them first; Loops.EmittedBounded is about the code after threading.
- LoopMeaning.CodeMeans: statements as in Loops.GenGood; conditions are decided by a given sequence of outcomes, and calls are single instructions.
- Loops.WhileGood: see Loops.GenGood.
- Loops.EmittedCounted: see Loops.GenGood.
- Scopes.ScopeStack.LookupName: numbers have not been given twice; behind the last number only Scopes.ScopeStack.VarLookupLocal is modelled. Breaks and labels, which take numbers too, are left out.
- Interning.StrTab.StrNew: little-endian words and any hash function; the bytes behind a string can be read; resizing the table is left out.
- GlobCodes.StarBetween: the texts around the star are plain; for other patterns see Glob.MatchGlob.
- Glob.MatchGlob: char is signed, as on x86; without the lazy matching of spaces, which no caller asks for; nothing is said about a match that reads past the end.
- The memory pool: allocation is a step that may fail.
- Statements other than assignments, the lexer, and debug information on lines and variables: they would add easy members.
- The foreign function interface, the ring buffer, formatted output, event registration, symbol tables, the command line and the libraries: input, output and kernel calls.
