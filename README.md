# debugtuner core, modelled in Dafny

DebugTuner measures how well an optimising compiler keeps debug information. For every
optimisation level, and for every build with one optimisation pass disabled, it runs the
program under gdb or lldb with a breakpoint on every statement line. It records which
variables the debugger shows as available, optimized out or not available. It then checks
those variables against a static liveness analysis of the C source, which walks clang's
JSON AST.

This project models the core of that pipeline and proves properties of the model:

- **Source AST** (modules `ClangJson`, `Variables`, `Statement`, `Ast`). The clang JSON node
  tree is the datatype `ClangJson.Node`, with optional fields. `Statement.parse` builds an
  arena of statement and variable records addressed by integer handle, in the class
  `Statement.Arena`. The class `Ast.SourceAst` holds the parsed arena with its globals and
  functions. Its queries are `find_function_at`, `find_live_vars_at`, `find_used_vars_at`,
  the kind searches `find_conditionals`/`find_calls`/`find_loops`, and
  `find_global_updates`. Each is a module-level function over the arena, and each method
  is proved equal to its function.
- **Debugger output** (modules `Tracer`, `Dwarf`, `Debugger`). `parse_trace` is the gdb and
  lldb transcript scanner, including its crash sentinel and its clean-up pass.
  `parse_dwarf` reads the text that `llvm-dwarfdump --debug-line` prints, which is an
  input here. `get_variables` assembles the breakpoint script and dispatches on the
  result. Running the debugger is a function parameter.
- **Aggregation** (modules `Static`, `Traces`, `Minimize`).
  - `polish_traces` sorts every reported variable into `notlive` or `total`, and unions
    the buckets per optimisation level.
  - `remove_strings_and_comments` and `elements_in_at_least_two_lists`.
  - `compute_traces` covers the configuration order, the `.text`-hash short-circuit,
    skip-if-computed and `merge_functions`.
  - `minimize_traces` is a greedy line cover over fuzzing inputs.
- **Small helpers** (modules `AstParser`, `Config`). `parse_includes`, `blacklisted`, and
  the derivation of the `projects` and `projects_minimal` tables.

Shared modules:

- `Common`: `Option`, `Result`, and the `Fault` type. Python exceptions become distinct
  `Fail` faults, and so does the DeclStmt line loop that never ends. They are never
  preconditions.
- `PyStr`: the Python `str` operations the code relies on: `split`, `split()`, `strip`,
  `in`, `int`, `str`, and hex parsing.
- `ODict`: insertion-ordered dictionaries, stored as association lists.
- `Ordering`: string order, `sorted(set(xs))`, and removal from a sorted list.

Loops in the source are methods with loop invariants. Each is proved equal to a
specification function, and the properties are lemmas about the functions.

## Model

| member | source | states |
|---|---|---|
| ClangJson.NodeIdRoundTrip | src/debug-quality/llvm-ast-parser/ast_parser/variable.py:25 | a node whose id is `0x` followed by the hex digits of k reads back as k |
| ClangJson.TypeOfCases | src/debug-quality/llvm-ast-parser/ast_parser/variable.py:35-39 | `desugaredType` wins over `qualType`; a `type` object with neither raises KeyError; a node without `type` has no type |
| Variables.PointerTypeIff | src/debug-quality/llvm-ast-parser/ast_parser/variable.py:41-42 | a type is a pointer exactly when it contains `*` or `[` |
| Variables.ParseVariableFields | src/debug-quality/llvm-ast-parser/ast_parser/variable.py:24-47 | id from the hex string; `is_param` iff the kind is ParmVarDecl; `decl_loc` is the given line; initialised at that line iff the node has `inner` or is a parameter, otherwise uninitialised with no `init_loc`; pointer flag false without a type; name only when present; the KeyError and ValueError cases |
| Statement.ParseLocPicks | src/debug-quality/llvm-ast-parser/ast_parser/statement.py:35-62 | start line is the first known of `loc.line`, `loc.expansionLoc.line`, `range.begin.line`, `range.begin.expansionLoc.line`; end line is `range.end.line`, else its `expansionLoc.line`; no `range` leaves the end unknown |
| Statement.FunctionFlagIff | src/debug-quality/llvm-ast-parser/ast_parser/statement.py:157-171 | only a FunctionDecl can be a function; it is one iff it is defined in this file (no `includedFrom`, expansion line present, not `extern`) and both lines resolve; a FunctionDecl without `loc` raises |
| Statement.NewStmtShape | src/debug-quality/llvm-ast-parser/ast_parser/statement.py:185-188 | a new statement starts with no children, variables or references, under the given parent, and a function among them has both lines |
| Statement.NewStmtFields | src/debug-quality/llvm-ast-parser/ast_parser/statement.py:149-182 | each field of a new statement comes from the node (id, kind, parent, name, type, lines, function flag), and creation fails exactly when the id, the function flag or the type does |
| Statement.Ancestors | src/debug-quality/llvm-ast-parser/ast_parser/statement.py:75-82 | the parent chain from a statement, innermost first, ends at the root |
| Statement.FindVarById | src/debug-quality/llvm-ast-parser/ast_parser/statement.py:75-82 | a variable found has the id and is declared on the statement or an ancestor, and it is the first such variable up the chain; globals are never consulted |
| Statement.FindValidLoc | src/debug-quality/llvm-ast-parser/ast_parser/statement.py:131-136 | a location is found iff some non-root statement on the chain has a start line, and it is the nearest one |
| Statement.MarkReference | src/debug-quality/llvm-ast-parser/ast_parser/statement.py:211-223 | only the variable the reference resolves to may change, and only if it was uninitialised and a valid location exists; it then becomes initialised at that line |
| Statement.MarkReferenceEvolves | src/debug-quality/llvm-ast-parser/ast_parser/statement.py:219-223 | marking a reference never touches an initialised variable and only ever initialises |
| Statement.DeclLine | src/debug-quality/llvm-ast-parser/ast_parser/statement.py:204-207 | the `while` loop computes the declaration line of its specification, including the never-ending case and the dereference of a missing parent as faults |
| Statement.DeclLineIsCandidate | src/debug-quality/llvm-ast-parser/ast_parser/statement.py:201-207 | the line found is the DeclStmt's start line, the statement's start line or its parent's start line |
| Statement.DeclLineLocal | src/debug-quality/llvm-ast-parser/ast_parser/statement.py:204-207 | only the statement's start line, its parent and the parent's start line decide the outcome; no other ancestor is consulted |
| Statement.DeclStmtVarsOk | src/debug-quality/llvm-ast-parser/ast_parser/statement.py:195-209 | the scan of a DeclStmt's children succeeds exactly when every VarDecl child parses |
| Statement.DeclStmtVarsAreVarDecls | src/debug-quality/llvm-ast-parser/ast_parser/statement.py:195-209 | the DeclStmt contributes exactly its VarDecl children, in order, each declared at the DeclStmt's line |
| Statement.ParamLine | src/debug-quality/llvm-ast-parser/ast_parser/statement.py:228-235 | a parameter keeps its own line, and so does one outside a function; inside a function a parameter without a line takes the decl line of the statement's last variable so far, or the function's start line when it has none yet |
| Statement.ParamLineDefined | src/debug-quality/llvm-ast-parser/ast_parser/statement.py:228-235 | inside a function with a start line whose variables so far all have a decl line, every parameter gets one |
| Statement.ChildDecl | src/debug-quality/llvm-ast-parser/ast_parser/statement.py:193-235 | what a child declares on its statement, by kind: a DeclStmt without `inner` raises KeyError (with one, its VarDecls as `DeclStmtVarsAreVarDecls` states); a ParmVarDecl one record parsed under the parent at its `ParamLine`; a DeclRefExpr nothing, failing exactly when its referenced id is missing or not hex; any other child nothing |
| Statement.DeclaredProgressGrows | src/debug-quality/llvm-ast-parser/ast_parser/statement.py:193-235 | after one more child whose effect appended what `ChildDecl` gives, the statement's variables are still what its children so far declare, in order |
| Statement.MarkReferenceIgnoresReferences | src/debug-quality/llvm-ast-parser/ast_parser/statement.py:211-223 | adding the referenced id to the statement's references before the lookup changes neither the tree nor which variable the reference marks |
| Statement.FindKindsIsFilteredPreorder | src/debug-quality/llvm-ast-parser/ast_parser/statement.py:84-100 | `__find` returns exactly the subtree's statements of the admitted kinds, in preorder |
| Statement.FindReferencedVarsIsUnion | src/debug-quality/llvm-ast-parser/ast_parser/statement.py:64-73 | `find_referenced_var` is the union over the subtree of what each statement's own references resolve to |
| Statement.FindExactIsFirstInPostorder | src/debug-quality/llvm-ast-parser/ast_parser/statement.py:102-111 | the exact search returns the first statement in post-order that starts at the line, or nothing when none does |
| Statement.FindInRange | src/debug-quality/llvm-ast-parser/ast_parser/statement.py:113-123 | the range search descends through the first child whose full range spans the line, and stops where no child spans it |
| Statement.FindStatementAt | src/debug-quality/llvm-ast-parser/ast_parser/statement.py:125-129 | the statement found lies in the subtree and either starts at the line or spans it |
| Statement.FindStatementAtPrefersExact | src/debug-quality/llvm-ast-parser/ast_parser/statement.py:125-129 | the first post-order statement starting at the line wins; only when there is none is the range search's result taken |
| Statement.GlobalsPointwise | src/debug-quality/llvm-ast-parser/ast_parser/statement.py:138-144 | one global record per top-level VarDecl, each parsed at its own line; a fault is the first VarDecl's that fails |
| Statement.ParseGlobals | src/debug-quality/llvm-ast-parser/ast_parser/statement.py:138-144 | the loop computes the records of the VarDecl children of the root |
| Statement.GlobalsNext | src/debug-quality/llvm-ast-parser/ast_parser/statement.py:138-144 | one more statement of the root's body: a VarDecl adds its record or its fault is the fault of the whole, and any other statement adds nothing |
| Statement.Arena.Push | src/debug-quality/llvm-ast-parser/ast_parser/statement.py:152-182 | a new statement becomes the last one and nothing else changes |
| Statement.Arena.AddChild | src/debug-quality/llvm-ast-parser/ast_parser/statement.py:237-239 | the child becomes the last element of its parent's body and nothing else changes |
| Statement.Arena.AppendVar | src/debug-quality/llvm-ast-parser/ast_parser/statement.py:208-209 | the variable becomes the statement's last variable and nothing else changes |
| Statement.Arena.AddVariable | src/debug-quality/llvm-ast-parser/ast_parser/statement.py:208-209 | appends the parsed variable, or fails as its parse fails before anything changes |
| Statement.Arena.DeclChild | src/debug-quality/llvm-ast-parser/ast_parser/statement.py:196-209 | one DeclStmt child: a VarDecl becomes the next variable, declared at the computed line |
| Statement.Arena.DeclStmtStep | src/debug-quality/llvm-ast-parser/ast_parser/statement.py:196-209 | one more child of the DeclStmt keeps the loop's progress invariant, or ends in that child's fault |
| Statement.Arena.ParseDeclStmt | src/debug-quality/llvm-ast-parser/ast_parser/statement.py:195-209 | the DeclStmt's variables are appended to the enclosing statement; a DeclStmt without `inner` raises KeyError |
| Statement.Arena.ParseDeclRef | src/debug-quality/llvm-ast-parser/ast_parser/statement.py:211-223 | fails with KeyError without `referencedDecl` and as the hex parse of its id fails; otherwise the id joins the references and the variables become exactly what the reference rule (`MarkReference`) makes of the old ones |
| Statement.Arena.ParseParam | src/debug-quality/llvm-ast-parser/ast_parser/statement.py:228-235 | fails as the parameter's parse fails; otherwise the record parsed under the statement's parent at the parameter line (`ParamLine` over the statement's current variables) is appended to the arena and becomes the statement's last variable |
| Statement.Arena.ChildEffect | src/debug-quality/llvm-ast-parser/ast_parser/statement.py:193-235 | the child's effect on its statement succeeds or fails exactly as `ChildDecl` does; on success the records it gives are appended to the arena and their handles to the statement's variables, in order (none for a DeclRefExpr or a child of any other kind), a DeclRefExpr instead applies the reference rule and adds its id to the references |
| Statement.Arena.ParseChild | src/debug-quality/llvm-ast-parser/ast_parser/statement.py:193-239 | succeeds exactly when the child's effect (`ChildDecl`) does and the child itself parses (`ParseOk`), failing with `ChildDecl`'s fault when that fails; on success the statement's variables gain the handles of the records `ChildDecl` gives, which may only become initialised later, then the child is parsed and a statement it yields becomes the last child; earlier statements other than the parent are untouched |
| Statement.Arena.AttachChild | src/debug-quality/llvm-ast-parser/ast_parser/statement.py:237-239 | succeeds exactly when the child parses under the statement (`ParseOk`); the statement the child yields, if any, becomes the last element of the body; nothing else of the parent changes |
| Statement.Arena.Parse | src/debug-quality/llvm-ast-parser/ast_parser/statement.py:146-241 | succeeds exactly when `ParseOk` holds: the node has no `kind`, or its statement builds, every child's declarations go through and every child parses in turn; a node without `kind` gives None and is never appended; otherwise a new statement whose children are parsed in order, whose body is its children with `kind`, whose references are theirs, and whose variables are the records its DeclStmt and ParmVarDecl children declare (`Declared`), in child order, each perhaps initialised since; earlier statements are untouched and the arena stays a tree |
| Statement.Arena.ParseChildren | src/debug-quality/llvm-ast-parser/ast_parser/statement.py:193-239 | the loop over the children succeeds exactly when every child goes through (`KidsParse`), and keeps the new statement's body, references and variables equal to what the children parsed so far give |
| Statement.Arena.ParseNext | src/debug-quality/llvm-ast-parser/ast_parser/statement.py:193-239 | one turn of the loop over the children: it succeeds exactly when the first `i + 1` children go through, and the new statement's body, references and variables are then what those children give |
| Statement.ParseOkAnyParent | src/debug-quality/llvm-ast-parser/ast_parser/statement.py:146-241 | whether a node parses does not depend on the handle of the statement it is parsed under |
| Statement.DeclaredOkParent | src/debug-quality/llvm-ast-parser/ast_parser/statement.py:193-235 | whether a statement's children declare without fault depends only on its lines and whether it has a parent, not on the parent the records name |
| Statement.KidsParseStep | src/debug-quality/llvm-ast-parser/ast_parser/statement.py:193-239 | one more child goes through exactly when its declarations do and it parses |
| Statement.KidsParseNext | src/debug-quality/llvm-ast-parser/ast_parser/statement.py:193-239 | during the loop, the declarations `ParseChild` computes on the arena are the ones `Declared` gives, so the next child goes through exactly when `ParseChild` would succeed |
| Ast.FunctionsInExactly | src/debug-quality/llvm-ast-parser/ast_parser/ast.py:28-31 | the functions are exactly the flagged top-level statements, in source order |
| Ast.CollectFunctions | src/debug-quality/llvm-ast-parser/ast_parser/ast.py:28-31 | the loop computes that list |
| Ast.ParseDump | src/debug-quality/llvm-ast-parser/ast_parser/ast.py:23-24 | parsing the whole dump succeeds exactly when `ParseOk` holds for the top node; it gives None exactly for a top node without `kind`, fails with the top node's fault when its statement does not build, and otherwise gives an arena whose first statement is the top node: built from it, with one child statement per top-level child that has `kind`, in order and built from that child, the references of its DeclRefExpr children, and the variables its children declare (`Declared`), in order |
| Ast.Load | src/debug-quality/llvm-ast-parser/ast_parser/ast.py:19-31 | `AST.__init__`: `parse_globals` on None raises; a dump that does not parse raises; otherwise it succeeds exactly when every top-level VarDecl node parses at its own line, fails with the fault of the first that does not, and on success the globals are those records, in order, and the functions are the statements of the top-level children `is_function` accepts, in order |
| Ast.FunctionsInNodes | src/debug-quality/llvm-ast-parser/ast_parser/ast.py:28-31 | among statements built one per node, the flagged ones are those of the nodes `is_function` accepts, in order |
| Ast.FilterVarDecls | src/debug-quality/llvm-ast-parser/ast_parser/statement.py:138-144 | among statements built one per node, the VarDecl statements are those of the VarDecl nodes, in order |
| Ast.TopLevelOfDump | src/debug-quality/llvm-ast-parser/ast_parser/ast.py:26-31 | in an arena whose root body was built from the dump's top-level nodes, the globals are the records of its VarDecl nodes, each parsed at its own line, and the functions are the statements of the nodes `is_function` accepts, both in order |
| Ast.GlobalsOfDump | src/debug-quality/llvm-ast-parser/ast_parser/statement.py:138-144 | in an arena built from the dump, reading the globals succeeds exactly when every top-level VarDecl node parses at its own line, else fails with the first one's fault |
| Ast.FunctionAt | src/debug-quality/llvm-ast-parser/ast_parser/ast.py:124-128 | a function found is one of the functions |
| Ast.FunctionAtIsFirst | src/debug-quality/llvm-ast-parser/ast_parser/ast.py:124-128 | the function found is the first in list order that encloses the line; none is found iff no function encloses it |
| Ast.GlobalById | src/debug-quality/llvm-ast-parser/ast_parser/ast.py:130-134 | the first global with the id, or none iff no global has it |
| Ast.LiveInExactly | src/debug-quality/llvm-ast-parser/ast_parser/ast.py:46-48 | a statement contributes exactly its variables initialised before the line, and fails iff one is initialised at no known line (`None < line` raises) |
| Ast.LiveAlongExactly | src/debug-quality/llvm-ast-parser/ast_parser/ast.py:44-49 | the climb collects exactly the live variables declared along the chain, with the same fault |
| Ast.LiveVarsSound | src/debug-quality/llvm-ast-parser/ast_parser/ast.py:33-51 | a live variable is initialised strictly before the line and declared on the located statement or an ancestor; so it is never live at its own initialisation line |
| Ast.LiveVarsComplete | src/debug-quality/llvm-ast-parser/ast_parser/ast.py:33-51 | every variable on that chain initialised before the line is live |
| Ast.SourceAst.FindLiveVarsAt | src/debug-quality/llvm-ast-parser/ast_parser/ast.py:33-51 | the method computes `LiveVarsAt`: None when the function or the statement lookup fails, otherwise the collected set |
| Ast.SourceAst.LiveDeclaredOn | src/debug-quality/llvm-ast-parser/ast_parser/ast.py:46-48 | the inner loop computes one statement's contribution |
| Ast.OuterAtIsAncestor | src/debug-quality/llvm-ast-parser/ast_parser/ast.py:62-67 | the climb stops at an ancestor whose parent starts elsewhere, and every ancestor below it has a parent starting at the line |
| Ast.SourceAst.FindUsedVarsAt | src/debug-quality/llvm-ast-parser/ast_parser/ast.py:53-69 | the method computes the referenced variables under the outermost statement found, None for a failed lookup, and a fault when the climb reaches the root |
| Ast.CallReport | src/debug-quality/llvm-ast-parser/ast_parser/ast.py:78-83 | a call is reported with the variables it refers to |
| Ast.CallsReportEveryCall | src/debug-quality/llvm-ast-parser/ast_parser/ast.py:78-83 | a call search never fails and reports every candidate, in order, with its referenced variables |
| Ast.LoopReportByKind | src/debug-quality/llvm-ast-parser/ast_parser/ast.py:85-104 | a `for` is reported by its header, a `while` by its first child and a `do` by its last child; other kinds are not reported |
| Ast.HeaderVarsSound | src/debug-quality/llvm-ast-parser/ast_parser/ast.py:93-100 | every header variable of a `for` comes from a child before the first CompoundStmt |
| Ast.HeaderVarsComplete | src/debug-quality/llvm-ast-parser/ast_parser/ast.py:93-100 | every variable referred to by such a child is in the header |
| Ast.ForHeaderVars | src/debug-quality/llvm-ast-parser/ast_parser/ast.py:93-100 | the loop with its `break` computes the header |
| Ast.ReportOf | src/debug-quality/llvm-ast-parser/ast_parser/ast.py:71-104 | the method computes what each search records for one statement |
| Ast.LoopReportOf | src/debug-quality/llvm-ast-parser/ast_parser/ast.py:88-102 | the same for `find_loops` |
| Ast.ReportAdmitted | src/debug-quality/llvm-ast-parser/ast_parser/ast.py:71-104 | a statement of an admitted kind that is reported without a fault is reported with variables |
| Ast.ReportsOk | src/debug-quality/llvm-ast-parser/ast_parser/ast.py:71-104 | a search succeeds iff each statement it visits is reported without a fault |
| Ast.ReportsPointwise | src/debug-quality/llvm-ast-parser/ast_parser/ast.py:71-104 | a successful search has one finding per candidate, in order, each with that statement's report |
| Ast.SearchesFlatten | src/debug-quality/llvm-ast-parser/ast_parser/ast.py:71-104 | the nested loops over functions and candidates visit exactly the candidates of all functions, in order |
| Ast.SearchFunctions | src/debug-quality/llvm-ast-parser/ast_parser/ast.py:71-104 | the outer loop computes the search over all functions, the first fault ending it |
| Ast.FindIn | src/debug-quality/llvm-ast-parser/ast_parser/ast.py:73-75 | the inner loop computes the findings of one function's candidates |
| Ast.ReportAll | src/debug-quality/llvm-ast-parser/ast_parser/ast.py:73-75 | the loop over a candidate list computes its findings |
| Ast.ReportStep | src/debug-quality/llvm-ast-parser/ast_parser/ast.py:73-75 | one turn appends one more statement's finding |
| Ast.SourceAst.Find | src/debug-quality/llvm-ast-parser/ast_parser/ast.py:71-104 | `find_conditionals`, `find_calls` and `find_loops` report the candidates of all functions in preorder |
| Ast.Bfs | src/debug-quality/llvm-ast-parser/ast_parser/ast.py:109-121 | the visiting order pops the head and appends its children until the queue is empty |
| Ast.BfsIsPermutation | src/debug-quality/llvm-ast-parser/ast_parser/ast.py:109-121 | the breadth-first walk visits exactly the statements of the subtrees, each once: a permutation of their preorder |
| Ast.VisitReports | src/debug-quality/llvm-ast-parser/ast_parser/ast.py:112-121 | a visit reports the statement, with its referenced variables, when it is an assignment whose references name a global |
| Ast.ContinueSound | src/debug-quality/llvm-ast-parser/ast_parser/ast.py:106-122 | every finding is an assignment of the walk and, when it has references, one of them names a global |
| Ast.ContinueComplete | src/debug-quality/llvm-ast-parser/ast_parser/ast.py:106-122 | every assignment of the walk that references a global is reported |
| Ast.GlobAfterRefs | src/debug-quality/llvm-ast-parser/ast_parser/ast.py:115-118 | the reference loop with its `break` finds a global named by a reference, or keeps the previous `glob` |
| Ast.VisitStmt | src/debug-quality/llvm-ast-parser/ast_parser/ast.py:111-121 | the loop body computes one statement's visit |
| Ast.Emptied | src/debug-quality/llvm-ast-parser/ast_parser/ast.py:109-121 | the arena the aliased queue leaves has as many statements as before |
| Ast.EmptiedExactly | src/debug-quality/llvm-ast-parser/ast_parser/ast.py:109-121 | exactly the functions' bodies are emptied; every other field and statement is kept |
| Ast.VisitFrame | src/debug-quality/llvm-ast-parser/ast_parser/ast.py:110-121 | emptying a function's body does not change what the visit of a later statement sees |
| Ast.DrainPop | src/debug-quality/llvm-ast-parser/ast_parser/ast.py:110 | popping the head of the queue yields a later statement whose visit is unchanged by the pop |
| Ast.DrainFails | src/debug-quality/llvm-ast-parser/ast_parser/ast.py:110-121 | a visit that fails is the outcome of the whole function |
| Ast.DrainStep | src/debug-quality/llvm-ast-parser/ast_parser/ast.py:110-121 | a visit that succeeds queues the head's children after the rest and keeps the loop invariant |
| Ast.DrainQueue | src/debug-quality/llvm-ast-parser/ast_parser/ast.py:109-121 | one function's work-queue loop yields the findings of its breadth-first walk and leaves its body empty |
| Ast.DrainOnce | src/debug-quality/llvm-ast-parser/ast_parser/ast.py:110-121 | one turn on the loop state keeps the loop invariant and shrinks the queue's measure, or ends in the fault of the whole function |
| Ast.DrainTurn | src/debug-quality/llvm-ast-parser/ast_parser/ast.py:110-121 | one `pop(0)`, one visit on the arena as the pop left it, and `queue += stmt.body` |
| Ast.UpdatesStep | src/debug-quality/llvm-ast-parser/ast_parser/ast.py:108-121 | one function's fault is the whole search's fault; otherwise its findings and emptied body carry the loop on |
| Ast.SourceAst.FindGlobalUpdates | src/debug-quality/llvm-ast-parser/ast_parser/ast.py:106-122 | the assignments to globals, function by function in breadth-first order; afterwards every function's body is empty and nothing else changes |
| AstParser.ParseIncludes | src/debug-quality/llvm-ast-parser/llvm_ast_parser.py:22-36 | the loop computes the set of headers of the lines |
| AstParser.CollectSpec | src/debug-quality/llvm-ast-parser/llvm_ast_parser.py:23-36 | the set holds exactly each line's contribution, and it fails iff some line fails |
| AstParser.FailureSticks | src/debug-quality/llvm-ast-parser/llvm_ast_parser.py:24-35 | a fault on a prefix of the lines is the fault of the whole |
| AstParser.IncludesSpec | src/debug-quality/llvm-ast-parser/llvm_ast_parser.py:22-36 | the result is the set of the lines' headers, it fails iff some line's header extraction does, and `string.h` never appears |
| AstParser.BetweenShape | src/debug-quality/llvm-ast-parser/llvm_ast_parser.py:29 | `split(open)[1].split(close)[0]` is the text after the first `open` up to the next `open`, `close` or end |
| AstParser.HeaderShape | src/debug-quality/llvm-ast-parser/llvm_ast_parser.py:25-33 | a header comes from a line containing `#include` once spaces are removed; with `>` in the line it is cut from the first `<`, otherwise from the first `"` |
| AstParser.HeaderFails | src/debug-quality/llvm-ast-parser/llvm_ast_parser.py:26-29 | the IndexError hazard: it occurs exactly for an include line with `>` and `"` but no `<`, or with `<` but neither `>` nor `"` |
| Config.Pop | src/config.py:101-103 | missing key raises KeyError with that key |
| Config.PopSpec | src/config.py:101-103 | with distinct keys, popping removes exactly that entry and keeps the rest |
| Config.KeepOnly | src/config.py:105-106 | the comprehension keeps exactly the entries whose key is listed |
| Config.ProjectNamesOfTable | src/config.py:8-93 | the table's keys are the listed project names |
| Config.ProjectNamesDistinct | src/config.py:8-93 | each project appears once |
| Config.ThreePops | src/config.py:101-103 | three pops of distinct present keys remove exactly those three entries |
| Config.ClangPops | src/config.py:101-103 | on any table holding the three projects, the clang pops succeed and remove exactly them |
| Config.KeyStays | src/config.py:101-103 | a key other than the popped one survives |
| Config.ClangTable | src/config.py:98-103 | the gcc table is the whole table; the clang table is it minus liblouis, libpcap and libmpeg2, with the same fuzz targets |
| Config.MinimalTables | src/config.py:105-106 | both minimal tables hold exactly wasm3 and zydis |
| Config.BlacklistedCases | src/config.py:155-167 | only the first project named in the directory decides: liblouis `free.c`; libdwarf `.h`; libpcap `grammar.c` or `.l`; none of them blacklists nothing |
| Tracer.RunLoop | src/utils/tracer.py:169-301 | the scan loop stops at the first crash marker or fault |
| Tracer.RunFaultSticks | src/utils/tracer.py:169-301 | a fault ends the scan: every longer scan has it |
| Tracer.RunCrashSticks | src/utils/tracer.py:174-175 | a crash ends the scan: every longer scan reports it |
| Tracer.RunCrash | src/utils/tracer.py:174-175 | a scan ends in the crash result iff it reaches a marker line with no earlier fault |
| Tracer.ScanCrash | src/utils/tracer.py:174-175 | on a whole transcript: the crash result comes exactly when a marker line is reached before any fault |
| Tracer.ParseTraceCrash | src/utils/tracer.py:174-175 | `parse_trace` gives -1 exactly when the marker is reached (exact line for gdb, `stop reason = signal SIGSEGV` for lldb), and the earlier stops are discarded |
| Tracer.GdbBraceClears | src/utils/tracer.py:196-198 | a numbered gdb line whose instruction is `{` or `}` clears the current line |
| Tracer.GdbClearIgnores | src/utils/tracer.py:219 | while the current line is clear, any non-numbered line changes nothing, so `name = value` lines are ignored |
| Tracer.GdbNumberedStop | src/utils/tracer.py:190-216 | a numbered gdb line names a stop; source and function come from the raw preceding line; the record gets that function and is created empty, without `not_available` |
| Tracer.GdbVarSplit | src/utils/tracer.py:219-226 | name and value split at the first ` = `; exactly `<optimized out>` goes to `optimized_out`; any other value goes to `available`, without repeats |
| Tracer.AddVarSpec | src/utils/tracer.py:219-226 | a variable is recorded only under the current source and line, only when that record exists, and changes nothing else |
| Tracer.LldbNeedsParen | src/utils/tracer.py:285 | an lldb line that is neither a frame line nor starts with `(` records nothing |
| Tracer.FrameLocation | src/utils/tracer.py:256-263 | a located frame has enough tokens for its location |
| Tracer.FrameLocationSpec | src/utils/tracer.py:254-263 | the location is token 5, or token 7 when the line holds `[inlined]`; the line is after the last `:` and the source before it |
| Tracer.LldbFrameStop | src/utils/tracer.py:251-282 | a frame line sets the current line and source and leaves a record with the frame's function and a `not_available` bucket; other records are unchanged |
| Tracer.ScanShaped | src/utils/tracer.py:208-214 | records of a gdb transcript never have a `not_available` bucket and those of any other debugger always do |
| Tracer.TouchSpec | src/utils/tracer.py:208-215 | touching a stop creates a blank record or keeps its buckets, sets the function, and changes no other record |
| Tracer.CleanedSpec | src/utils/tracer.py:303-320 | after clean-up every bucket is strictly sorted; it keeps its names, minus the available names for `optimized_out` and, for lldb, `not_available` |
| Tracer.CleanedRecord | src/utils/tracer.py:303-320 | the clean-up replaces every record by its cleaned form and adds or removes none |
| Tracer.CleanedSource | src/utils/tracer.py:304-320 | the clean-up of a source keeps its line keys |
| Tracer.CleanedTrace | src/utils/tracer.py:303-320 | the clean-up keeps the source keys |
| Tracer.CleanEntry | src/utils/tracer.py:306-320 | the method computes one record's clean-up |
| Tracer.CleanSource | src/utils/tracer.py:304-320 | the loop computes one source's clean-up |
| Tracer.CleanTrace | src/utils/tracer.py:303-320 | the loop computes the whole clean-up |
| Tracer.ParseTrace | src/utils/tracer.py:154-323 | `parse_trace`; the functions map it returns is always empty |
| Tracer.ParseTraceClean | src/utils/tracer.py:303-323 | every record `parse_trace` returns is clean, with a `not_available` bucket iff the debugger is not gdb |
| Dwarf.SplitWithOne | src/utils/tracer.py:91-92 | `re.split` gives more than one piece iff the pattern matches somewhere |
| Dwarf.TablesIff | src/utils/tracer.py:91-92 | there is a line table iff the dump holds a `debug_line[0x...]` marker |
| Dwarf.SearchSpec | src/utils/tracer.py:95 | `re.search` finds nothing iff no position matches, else the capture at the first match |
| Dwarf.FindAllSound | src/utils/tracer.py:111-113 | each capture of `re.findall` comes from a match |
| Dwarf.DirMap | src/utils/tracer.py:113 | the directory map's keys are exactly the listed directory indices |
| Dwarf.LinesOf | src/utils/tracer.py:121 | a line is listed iff some row with that file index has it |
| Dwarf.LastPath | src/utils/tracer.py:115-121 | the last entry of a table with the path |
| Dwarf.FillSourcesSpec | src/utils/tracer.py:115-121 | within a table the last entry with a path decides its lines; other paths keep their value |
| Dwarf.LastTable | src/utils/tracer.py:110-121 | the last table naming a path |
| Dwarf.FillTablesSpec | src/utils/tracer.py:110-121 | a later table overwrites an earlier one for the same path |
| Dwarf.TableLinesSpec | src/utils/tracer.py:106-121 | a table gives a path exactly the lines of its `is_stmt` rows whose file index, as written, equals the entry's number |
| Dwarf.DeduplicatedGet | src/utils/tracer.py:124 | empty entries are dropped and the rest deduplicated |
| Dwarf.DwarfLines | src/utils/tracer.py:79-125 | for a path: nothing for `<built-in>` or no rows; otherwise the distinct `is_stmt` lines of the last table naming it, with files numbered from 1 below DWARF 5 and from 0 otherwise |
| Dwarf.ParseDwarf | src/utils/tracer.py:79-125 | the loops compute the line map of the dump |
| Debugger.BuildBreakpoints | src/utils/tracer.py:341-348 | the loop computes the breakpoint list |
| Debugger.BreakpointsSites | src/utils/tracer.py:343-348 | one breakpoint per site; the k-th is for the k-th site and, for lldb, is numbered k+1 across all sources; gdb uses `tbreak` |
| Debugger.SitesSpec | src/utils/tracer.py:343-348 | the sites are exactly the (source, line) pairs of the line map |
| Debugger.BuildScript | src/utils/tracer.py:340-350 | the script is the template wrapped around the joined breakpoints and the input |
| Debugger.CollectTrace | src/utils/tracer.py:352-363 | the tail of `get_variables` computes its dispatch |
| Debugger.CollectTriple | src/utils/tracer.py:352-363 | the three empty dictionaries come back exactly on a timeout or a crash; otherwise there are two results and the functions map is empty |
| Debugger.GetVariablesWith | src/utils/tracer.py:326-363 | `get_variables` for given templates and debugger runner |
| Debugger.GetVariables | src/utils/tracer.py:326-363 | the same with the source's own templates |
| Static.RemovePreservesLines | src/debug-quality/static.py:167-183 | removing literals and comments keeps the number of newlines, so line numbers are preserved |
| Static.ScrubLines | src/debug-quality/static.py:176-183 | the scan from any position keeps the newline count of the rest |
| Static.ScrubPlain | src/debug-quality/static.py:176-183 | text without quote, slash or `#` is left as it is |
| Static.NewlinesCount | src/debug-quality/static.py:178-181 | a replacement consists of exactly that many newlines |
| Static.ElementsInAtLeastTwoLists | src/debug-quality/static.py:186-203 | the result is exactly the elements occurring at least twice across all lists |
| Static.CountList | src/debug-quality/static.py:190-194 | the counting loop over one list keeps the count of every element |
| Static.CountOne | src/debug-quality/static.py:191-194 | counting one more element keeps the counts right |
| Static.CountedTwice | src/debug-quality/static.py:199-201 | the second loop keeps exactly the keys counted at least twice |
| Static.AtLeastTwiceOfCounts | src/debug-quality/static.py:196-203 | the elements counted at least twice are read off the counts |
| Static.FlatMember | src/debug-quality/static.py:189-190 | every counted element comes from one of the lists |
| Static.LineCountNewlines | src/debug-quality/static.py:93 | `splitlines` gives one line per newline, plus one for an unterminated last line |
| Static.VarKeyInjective | src/debug-quality/static.py:144-147 | at one line, two variables give the same entry only when they are the same |
| Static.Load | src/debug-quality/static.py:71-106 | a source that the loop goes on with is cached |
| Static.Sorted | src/debug-quality/static.py:159-162 | `sorted(list(set))` is strictly increasing with the same elements |
| Static.ClassifyAllSpec | src/debug-quality/static.py:141-147 | every available variable goes to `notlive` when its name is not live and to `total` when it is, nothing else is added |
| Static.ClassifyExactlyOne | src/debug-quality/static.py:141-147 | each available variable lands in exactly one bucket, as `source:line:var` |
| Static.ClassifyLoop | src/debug-quality/static.py:141-147 | the loop computes the classification |
| Static.LineFaults | src/debug-quality/static.py:109-150 | a line raises exactly when its text is not an integer, its index is out of range, the live query raises, or a function without live set meets a variable |
| Static.LineNoFunction | src/debug-quality/static.py:132-139 | a line with no enclosing function adds nothing; a function-name mismatch is not an error |
| Static.LineClassified | src/debug-quality/static.py:141-150 | a processed line goes into `lines` and its variables into the buckets by liveness |
| Static.LineLiveNone | src/debug-quality/static.py:127-142 | hazard: a found function with no live set makes the membership test raise TypeError at the first variable |
| Static.LinesGrow | src/debug-quality/static.py:109-150 | the lines of a source only add to the buckets |
| Static.PolishLine | src/debug-quality/static.py:109-150 | the method computes one line's step |
| Static.PolishLines | src/debug-quality/static.py:109-150 | the loop computes the lines of a source |
| Static.SourceContributes | src/debug-quality/static.py:59-108 | a source changes the buckets only if it is no fuzzing harness, is inside the project, is in the level's standard trace, is found and is not blacklisted |
| Static.BlacklistHazard | src/debug-quality/static.py:84-108 | hazard: a blacklisted source is cached as raw text without an AST, so the next configuration that reaches it raises KeyError |
| Static.PolishSource | src/debug-quality/static.py:59-150 | the method computes one source's step |
| Static.PolishSources | src/debug-quality/static.py:59-150 | the loop computes the sources of a configuration |
| Static.PolishConfig | src/debug-quality/static.py:44-150 | the method computes one configuration, with empty buckets for `"standard"` |
| Static.PolishLevel | src/debug-quality/static.py:38-150 | the method computes one level |
| Static.ConfigsFold | src/debug-quality/static.py:44-57 | one entry per configuration, in order; a `"standard"` configuration has empty buckets |
| Static.ConfigsAppend | src/debug-quality/static.py:44-57 | a configuration with a new key appends its buckets |
| Static.LevelsFold | src/debug-quality/static.py:38-150 | one entry per level, in order, each from its configuration loop |
| Static.LevelAppend | src/debug-quality/static.py:38-57 | a level with a new key appends its configurations |
| Static.OutcomeBuckets | src/debug-quality/static.py:44-57 | a level built by the configuration loop has one entry per configuration, empty for `"standard"` ones |
| Static.ConvertConfig | src/debug-quality/static.py:158-161 | each bucket of a configuration is sorted |
| Static.ConvertLevel | src/debug-quality/static.py:153-162 | the conversion of a level computes its union and sorted buckets |
| Static.ConvertLevels | src/debug-quality/static.py:153-162 | the conversion loops compute the emitted buckets |
| Static.ConvertSpec | src/debug-quality/static.py:152-162 | each level's `total` is the sorted union of the configurations' `total` (not `notlive`) and `lines`; every bucket is sorted |
| Static.FlatVarTotals | src/debug-quality/static.py:157 | an entry is in the union iff some configuration's `total` has it |
| Static.FlatLineTotals | src/debug-quality/static.py:157 | a line is in the union iff some configuration's `lines` has it |
| Static.LevelShape | src/debug-quality/static.py:152-162 | the emitted configurations of a level follow its keys, empty for `"standard"` ones |
| Static.PolishShape | src/debug-quality/static.py:21-164 | one emitted entry per level and configuration, in order, empty for `"standard"` configurations |
| Static.PolishTraces | src/debug-quality/static.py:21-164 | the method computes `polish_traces` |
| Traces.ConfigOrderSpec | src/debug-quality/traces.py:59-75 | every entry is visited once: `-O0-all` first, then `-O<level>-standard`, then the rest, each group by name |
| Traces.HashesFirst | src/debug-quality/traces.py:139-166 | every configuration that may short-circuit comes after every `-O0-all` and `-standard` one, so the hash it compares with is stored first |
| Traces.NamePartsSpec | src/debug-quality/traces.py:141-143 | the name splits iff text follows the first `-O` and is not another `-O`; `opt_level` is its first character, `disabled_opt` the rest up to the next `-O` |
| Traces.VisitSkips | src/debug-quality/traces.py:141-151 | non-directories, names without `-O` and missing binaries are skipped; nothing after `-O` raises IndexError |
| Traces.VisitShortCircuit | src/debug-quality/traces.py:160-170 | a configuration other than `-O0-all` and `-O<level>-standard` whose `.text` hash equals its level's `-standard` hash gets `"standard"` without being traced |
| Traces.VisitComputed | src/debug-quality/traces.py:172-175 | a configuration whose `variables` has `main` is not traced again |
| Traces.VisitTriple | src/debug-quality/traces.py:116 | hazard: the three-tuple of a timeout or crash fails the two-target unpacking `variables, functions = tracer.get_variables(...)` inside `compute_single_trace` with ValueError, which propagates through the call at traces.py:179-195 |
| Traces.SetEntryTwice | src/debug-quality/traces.py:153-158 | replacing a record twice keeps the second |
| Traces.SetEntryFrame | src/debug-quality/traces.py:153-158 | replacing a record leaves every other record alone |
| Traces.TraceEntryShape | src/debug-quality/traces.py:179-195 | tracing replaces one record |
| Traces.RegisterShape | src/debug-quality/traces.py:148-195 | the whole iteration replaces one record |
| Traces.VisitFrame | src/debug-quality/traces.py:139-195 | an iteration changes at most the record its directory names |
| Traces.AddMissingGet | src/debug-quality/traces.py:100-102 | a variable keeps its type if it has one, else gets the new one |
| Traces.AbsorbValue | src/debug-quality/traces.py:94-102 | a later report keeps each variable's type and adds the missing ones, equal or not |
| Traces.AbsorbGet | src/debug-quality/traces.py:93-102 | one report changes only its own function's entry |
| Traces.AbsorbAllSpec | src/debug-quality/traces.py:88-102 | a function is merged iff some trace reports it, and each variable keeps the type of its first report |
| Traces.SortedByKeySpec | src/debug-quality/traces.py:104 | sorting keeps each key with its value and orders the keys |
| Traces.MergedFunctionsSpec | src/debug-quality/traces.py:78-106 | the merged map has sorted keys, exactly the reported functions, each variable with the type of its first report |
| Traces.AddMissingLoop | src/debug-quality/traces.py:100-102 | the loop computes the addition of missing variables |
| Traces.MergeData | src/debug-quality/traces.py:93-102 | the loop computes one run's merge |
| Traces.MergeRuns | src/debug-quality/traces.py:92-102 | the loop computes one configuration's merge |
| Traces.MergeLevel | src/debug-quality/traces.py:90-102 | the loop computes one level's merge |
| Traces.MergeFunctions | src/debug-quality/traces.py:78-106 | `merge_functions` computes the merged map |
| Traces.DropFunctionsSpec | src/debug-quality/traces.py:210-213 | the final loops drop `functions` from every record and change nothing else |
| Traces.DropAll | src/debug-quality/traces.py:210-213 | the loops compute it |
| Traces.ComputeTracesDone | src/debug-quality/traces.py:207-213 | afterwards no record keeps `functions`, and `merged` is computed only when absent |
| Traces.ComputeTraces | src/debug-quality/traces.py:123-213 | the sequential `compute_traces` |
| Minimize.Ranked | src/build-dataset/minimize.py:118-123 | every input with its line total, in dictionary order |
| Minimize.CountLines | src/build-dataset/minimize.py:120-122 | the loop computes the line total |
| Minimize.RankInputs | src/build-dataset/minimize.py:118-123 | the loop computes `ordered`, every input with its line total |
| Minimize.StableSortPerm | src/build-dataset/minimize.py:124 | the sort is a permutation |
| Minimize.StableSortAscending | src/build-dataset/minimize.py:124 | the sort ascends by line total, though the comment says descending |
| Minimize.StableSortStable | src/build-dataset/minimize.py:124 | inputs with equal totals keep their order |
| Minimize.OrderMembers | src/build-dataset/minimize.py:117-124 | the processing order holds exactly the inputs |
| Minimize.AddLinesKeys | src/build-dataset/minimize.py:132-136 | a source's recorded lines are its old ones plus the trace's |
| Minimize.AddLinesKeeps | src/build-dataset/minimize.py:133-141 | a line already recorded keeps its status |
| Minimize.AddLinesStatus | src/build-dataset/minimize.py:132-141 | after a source, a line already recorded keeps its status and a new line takes the first status the source's trace gives it |
| Minimize.AddLinesNew | src/build-dataset/minimize.py:132-136 | a source marks the input new iff it has a missing line |
| Minimize.AddSourcesKeeps | src/build-dataset/minimize.py:129-141 | an input keeps every status recorded before it |
| Minimize.AddSourcesRecords | src/build-dataset/minimize.py:129-136 | an input records every line it steps on |
| Minimize.AddSourcesOnly | src/build-dataset/minimize.py:129-136 | an input records nothing else |
| Minimize.AddSourcesNew | src/build-dataset/minimize.py:129-136 | an input is new iff it steps on an unrecorded line |
| Minimize.FirstStatusHas | src/build-dataset/minimize.py:129-136 | an input gives a status exactly to the lines it steps on |
| Minimize.FirstStatusDistinct | src/build-dataset/minimize.py:129-134 | for a trace that names each source once, as a dictionary does, the status an input gives a line is `trace["variables"][source][line]` |
| Minimize.AddSourcesStatus | src/build-dataset/minimize.py:129-141 | after one input, a line keeps the status recorded before, and an unrecorded line takes the status the input gives it |
| Minimize.FirstStatusInSome | src/build-dataset/minimize.py:126-136 | some processed input gives the line a status exactly when one of them steps on it |
| Minimize.FirstStatusInIsFirst | src/build-dataset/minimize.py:126-136 | that status is the one the earliest input in the processing order stepping on the line gives |
| Minimize.GreedyStatus | src/build-dataset/minimize.py:126-141 | `main_trace` records a line exactly when a processed input steps on it, with the status of the first such input in the processing order; later inputs never change it |
| Minimize.GreedyStep | src/build-dataset/minimize.py:126-141 | an input is chosen iff at its turn it steps on an unrecorded line; earlier statuses survive and each newly recorded line takes this input's status |
| Minimize.GreedyCovers | src/build-dataset/minimize.py:126-141 | the chosen inputs and the record cover every line of the processed inputs |
| Minimize.GreedyChosen | src/build-dataset/minimize.py:126-136 | a chosen input steps on a line |
| Minimize.MinimizeCovers | src/build-dataset/minimize.py:103-143 | the result is a subset of the inputs that covers every line any input steps on |
| Minimize.MinimizeSkipsEmpty | src/build-dataset/minimize.py:129-136 | an input stepping on no line is never chosen |
| Minimize.AddLinesLoop | src/build-dataset/minimize.py:132-141 | the loop computes one source |
| Minimize.AddSourcesLoop | src/build-dataset/minimize.py:129-141 | the loop computes one input |
| Minimize.GreedyLoop | src/build-dataset/minimize.py:126-141 | the loop over `ordered_inputs` computes the record and the chosen set of the greedy cover |
| Minimize.MinimizeTraces | src/build-dataset/minimize.py:103-143 | `minimize_traces` computes the chosen set |
| PyStr.FindFrom | src/utils/tracer.py:177-180 | the first occurrence at or after a position, or None iff there is none |
| PyStr.ContainsIff | src/utils/tracer.py:177-180 | `sub in s` iff `sub` occurs somewhere in `s` |
| PyStr.Split | src/utils/tracer.py:167 | `split(sep)` pieces join back to the text and hold no separator |
| PyStr.SplitHead | src/utils/tracer.py:202 | the first piece is the text before the first separator |
| PyStr.SplitSecond | src/debug-quality/traces.py:142 | the second piece is the text after the first separator, up to the next |
| PyStr.SplitFirst | src/debug-quality/traces.py:142 | the first piece is the longest prefix without separator |
| PyStr.SplitOnce | src/utils/tracer.py:220-221 | `split(sep, maxsplit=1)` has at most two pieces joining to the text, the first free of the separator |
| PyStr.TokenLen | src/utils/tracer.py:190 | the leading token runs to the first blank |
| PyStr.SplitWs | src/utils/tracer.py:181 | `split()` tokens are non-empty and blank-free |
| PyStr.SplitWsConcat | src/utils/tracer.py:190 | the tokens concatenate to exactly the non-blank characters |
| PyStr.LStripSuffix | src/utils/tracer.py:170 | `lstrip` leaves a suffix starting with no blank |
| PyStr.RStripPrefix | src/utils/tracer.py:170 | `rstrip` leaves a prefix ending with no blank |
| PyStr.SplitWsOnce | src/utils/tracer.py:194 | `split(maxsplit=1)`: at most two pieces, the first a token |
| PyStr.SplitWsOnceHead | src/utils/tracer.py:194 | its first piece is the first token of `split()` |
| PyStr.SplitWsEmpty | src/utils/tracer.py:181 | `split()` is empty iff only blanks remain |
| PyStr.SplitWsOnceTwo | src/utils/tracer.py:191-194 | it has a second piece iff `split()` has two tokens |
| PyStr.RemoveChar | src/debug-quality/llvm-ast-parser/llvm_ast_parser.py:25 | `replace(" ", "")` leaves no such character |
| PyStr.NatToStrInjective | src/utils/tracer.py:121 | `str(n)` is injective |
| PyStr.NatToStrValue | src/utils/tracer.py:121 | `str(n)` reads back as n |
| PyStr.PyIntOfNatToStr | src/debug-quality/static.py:124 | `int(str(n)) == n` |
| PyStr.PyHexIntRoundTrip | src/debug-quality/llvm-ast-parser/ast_parser/variable.py:25 | `int("0x%x" % n, 16) == n` |
| Ordering.StrLessIsOrder | src/debug-quality/traces.py:104 | string order is a strict total order |
| Ordering.SortedSet | src/utils/tracer.py:306-307 | `sorted(set(xs))` is strictly increasing with the elements of `xs` |
| Ordering.SortUnique | src/utils/tracer.py:306-313 | the method computes it |
| Ordering.SortedUnique | src/utils/tracer.py:306-313 | two strictly increasing lists with the same elements are equal |
| Ordering.Without | src/utils/tracer.py:316-320 | the list without the removed elements, in order |
| Ordering.RemoveEach | src/utils/tracer.py:316-320 | the removal loop computes it on a sorted list |
| Ordering.WithoutSorted | src/utils/tracer.py:316-320 | removal keeps a list sorted |
| Ordering.RemoveFirstSorted | src/utils/tracer.py:317-320 | on a sorted list `remove(x)` drops every `x` |
| ODict.Get | src/debug-quality/traces.py:94-95 | `d.get(k)` is None iff k is no key |
| ODict.PutGet | src/utils/tracer.py:208-215 | after `d[k] = v`, k maps to v and other keys are unchanged |
| ODict.PutKeys | src/utils/tracer.py:208-215 | an existing key keeps its place and a new one goes last |
| ODict.PutTwice | src/utils/tracer.py:208-215 | assigning twice keeps the second value |

## Left out

- Running tools: `run_dbg`, `run.run_cmd`, `minimize_cmin`, `parse_ast`, `run_cmd` and `find_include_dirs` are left out. The debugger's output is a function parameter, `run` of `Debugger.GetVariablesWith` and `trace` of `Traces.Env`. `llvm-dwarfdump`'s output is the input text of `Dwarf.ParseDwarf`.
- Filesystem work and caching: `get_inputs`, `search_file`, reading a source, and the pickle cache of ASTs are left out. `Static.Env` gives what they return: `locate` is the source's text, or missing, or a naming collision; `astOf` is the parsed AST of a source; `inProject` is `Path.resolve` membership in the project tree. The `source_code`/`source_asts` caches are one map of `Static.Cached` values. That map keeps the observable difference: a blacklisted source has text but no AST.
- `json.loads`: the decoded clang JSON is the input, as a `ClangJson.Node` value.
- `ClangJson.SrcRange`: a `range` always has both `begin` and `end`. A `range` missing one of them would raise KeyError in `__parse_loc` (statement.py:45-60); the model assumes clang's JSON always gives both ends and cannot represent that input.
- `compute_single_trace` (src/debug-quality/traces.py:109-120): its result for a directory is `Traces.Env.trace`. The choice of gdb or lldb by compiler and the joining of the input paths happen inside it.
- `ast_config` (src/config.py:116-151): it only feeds `parse_ast`, which is left out.
- The `.text` section hash: it is an opaque string given by `Traces.Env.textHash`. ELF parsing and SHA-256 are not modelled.
- `multiprocessing.Pool` in `compute_traces`: only the sequential path (`proc == 1`) is modelled, in `Traces.ComputeTraces`. `compute_traces` in minimize.py is left out, as it is I/O and a process pool.
- Logging, argparse `main` blocks, `__str__` printers, and `line_str`: they only feed log messages.
- The functions map of `parse_trace` is never filled by the source. `Tracer.ParseTrace` states it is always empty.
- Python regexes are written out as scanners for the exact patterns used: `Dwarf`, `Static.MatchAt`, and `Traces.StandardName`.
- `PyStr` is ASCII only for digits, `int()` and `lower()`:
  - `PyInt` accepts no underscores and no non-ASCII digits.
  - `AsciiLower` only folds ASCII letters. This gives the same answer for the search for `fuzz`.
- `str.isspace()` is modelled on its Unicode set (`Blanks`).
- `Path(...).as_posix()`: in the tracer it is modelled as dropping empty and `.` components (`Tracer.Components`). The full normalisation of `pathlib` is not modelled.
- Set iteration order: sets are collected as sets where only membership matters. Where the source iterates a set, the model iterates a fixed order:
  - `GlobAfterRefs` scans the globals list, where the source iterates `stmt.references` in an order CPython does not specify. The loop breaks at the first global it finds, so `glob` ends non-None exactly when some reference names a global, in any order. The report (`find_referenced_var`) does not use which global that was, so the two always agree.
  - `static.py` iterates the available variables as the list the trace gives. Their order does not affect the sets it builds.
- `Variable.__hash__` (variable.py:63-64) hashes by `id` alone. In the arena, a variable is identified by its handle, so two records with equal ids remain distinct.
- The `"total"` key collision in `polish_traces` is left out. A configuration literally named `total` would share the level's union entry; the model keeps them apart.
- Aliasing in `merge_functions`: the first report's type map is the object later stored and extended. The model copies it, so repeated merges of the same map are not visible.
- The two-target assignment of `compute_traces` writes `variables["main"]` before `functions["main"]`. When the second write raises, the first has already happened. The model fails without that partial write, which only a caller catching the exception could see.
- `Debugger.GetVariables` uses the constant `Standard` for the script and breakpoint templates. The other members take the templates as a parameter, the `Templates` datatype.
- `Tracer.FrameLocation`: its ensures only bounds the token index. Its meaning is stated by `Tracer.FrameLocationSpec`.
- `Static.Load`: its ensures only says the cache gains the source. The filters are stated by `Static.SourceContributes` and `Static.BlacklistHazard`.
- `Traces.Priority`, `Static.Sorted` and `Dwarf.DirMap` state bounds or membership only. `Traces.ConfigOrderSpec`, `Static.ConvertSpec` and `Dwarf.DwarfLines` carry the full properties.
