/** The parsed source file (`AST` in the AST parser): the statement tree of a clang JSON
    dump, its global variables, its functions, and the queries the debug-information
    analysis asks of it. */
module Ast {
  import opened Common
  import opened ClangJson
  import opened Variables
  import opened Statement

  /** `ASTResult`: a statement and the variables it refers to. */
  datatype Finding = Finding(stmt: nat, variables: set<nat>)

  // ---------------------------------------------------------------- functions and globals

  /** The statements of `xs` whose `is_function` flag is set, in order. */
  function FunctionsIn(stmts: seq<Stmt>, xs: seq<nat>): seq<nat>
    requires forall i :: 0 <= i < |xs| ==> xs[i] < |stmts|
  {
    if xs == [] then []
    else FunctionsIn(stmts, xs[..|xs| - 1]) + (if stmts[xs[|xs| - 1]].isFunction then [xs[|xs| - 1]] else [])
  }

  /** The functions are the flagged statements, in their original order. */
  lemma {:induction false} FunctionsInExactly(stmts: seq<Stmt>, xs: seq<nat>)
    requires forall i :: 0 <= i < |xs| ==> xs[i] < |stmts|
    ensures forall f :: f in FunctionsIn(stmts, xs) <==> f in xs && stmts[f].isFunction
    ensures |FunctionsIn(stmts, xs)| <= |xs|
  {
    if xs != [] {
      var front := xs[..|xs| - 1];
      FunctionsInExactly(stmts, front);
      assert xs == front + [xs[|xs| - 1]];
    }
  }

  lemma FunctionsInStep(stmts: seq<Stmt>, xs: seq<nat>, i: nat)
    requires i < |xs| && forall j :: 0 <= j < |xs| ==> xs[j] < |stmts|
    ensures FunctionsIn(stmts, xs[..i + 1]) ==
              FunctionsIn(stmts, xs[..i]) + (if stmts[xs[i]].isFunction then [xs[i]] else [])
  {
    assert xs[..i + 1][..i] == xs[..i];
  }

  /** Whether the lines of function `f` enclose `line`. */
  predicate Covers(stmts: seq<Stmt>, f: nat, line: int)
    requires f < |stmts| && stmts[f].loc.start.Some? && stmts[f].loc.end.Some?
  {
    stmts[f].loc.start.value <= line <= stmts[f].loc.end.value
  }

  /** Every function has both lines, so comparing them with a line never fails. */
  predicate AllFunctions(stmts: seq<Stmt>, fs: seq<nat>) {
    forall i :: 0 <= i < |fs| ==> fs[i] < |stmts| && stmts[fs[i]].isFunction
  }

  /** `find_function_at`: the first of `fs` whose lines enclose `line`. */
  function FunctionAt(stmts: seq<Stmt>, fs: seq<nat>, line: int): (r: Option<nat>)
    requires Tree(stmts) && AllFunctions(stmts, fs)
    ensures r.Some? ==> r.value in fs && r.value < |stmts|
  {
    if fs == [] then None
    else if Covers(stmts, fs[0], line) then Some(fs[0])
    else FunctionAt(stmts, fs[1..], line)
  }

  /** The function found is the first in list order that encloses the line; none is
      found exactly when no function encloses it. */
  lemma {:induction false} FunctionAtIsFirst(stmts: seq<Stmt>, fs: seq<nat>, line: int)
    requires Tree(stmts) && AllFunctions(stmts, fs)
    ensures FunctionAt(stmts, fs, line).None? <==> forall i :: 0 <= i < |fs| ==> !Covers(stmts, fs[i], line)
    ensures FunctionAt(stmts, fs, line).Some? ==>
              exists i :: 0 <= i < |fs| && fs[i] == FunctionAt(stmts, fs, line).value && Covers(stmts, fs[i], line) &&
                          forall j :: 0 <= j < i ==> !Covers(stmts, fs[j], line)
  {
    if fs != [] && !Covers(stmts, fs[0], line) {
      FunctionAtIsFirst(stmts, fs[1..], line);
      if FunctionAt(stmts, fs[1..], line).Some? {
        var i :| 0 <= i < |fs[1..]| && fs[1..][i] == FunctionAt(stmts, fs[1..], line).value &&
                 Covers(stmts, fs[1..][i], line) && forall j :: 0 <= j < i ==> !Covers(stmts, fs[1..][j], line);
        assert fs[i + 1] == fs[1..][i];
        assert forall j :: 1 <= j < i + 1 ==> fs[j] == fs[1..][j - 1];
      } else {
        assert forall i :: 1 <= i < |fs| ==> fs[i] == fs[1..][i - 1];
      }
    }
  }

  /** `find_global_by_id`: the first global with the given id. */
  function GlobalById(globals: seq<Var>, id: int): (r: Option<nat>)
    ensures r.Some? ==> r.value < |globals| && globals[r.value].id == id &&
                        forall j :: 0 <= j < r.value ==> globals[j].id != id
    ensures r.None? <==> forall j :: 0 <= j < |globals| ==> globals[j].id != id
  {
    if globals == [] then None
    else if globals[0].id == id then Some(0)
    else
      match GlobalById(globals[1..], id)
      case None => None
      case Some(j) => Some(j + 1)
  }

  // ---------------------------------------------------------------- live variables

  /** Sequencing of two partial results, as Python evaluates them: the first fault wins,
      else the union. */
  function Then(a: Result<set<nat>>, b: Result<set<nat>>): Result<set<nat>> {
    if a.Fail? then a else if b.Fail? then b else Ok(a.value + b.value)
  }

  /** The test `var.is_init and var.init_loc < line` for one variable: comparing an unset
      line raises TypeError. */
  function LiveHere(vars: seq<Var>, v: nat, line: int): Result<set<nat>>
    requires v < |vars|
  {
    if !vars[v].isInit then Ok({})
    else if vars[v].initLoc.None? then Fail(TypeError("init_loc < line"))
    else Ok(if vars[v].initLoc.value < line then {v} else {})
  }

  /** The live variables of `vs`, in order. */
  function LiveIn(vars: seq<Var>, vs: seq<nat>, line: int): Result<set<nat>>
    requires forall i :: 0 <= i < |vs| ==> vs[i] < |vars|
  {
    if vs == [] then Ok({}) else Then(LiveHere(vars, vs[0], line), LiveIn(vars, vs[1..], line))
  }

  /** `LiveIn` over the variables of each statement of `xs`, in order. */
  function LiveAlong(stmts: seq<Stmt>, vars: seq<Var>, xs: seq<nat>, line: int): Result<set<nat>>
    requires WellFormed(stmts, vars) && forall i :: 0 <= i < |xs| ==> xs[i] < |stmts|
  {
    if xs == [] then Ok({})
    else Then(LiveIn(vars, stmts[xs[0]].variables, line), LiveAlong(stmts, vars, xs[1..], line))
  }

  /** A variable is live at `line` when it is initialised strictly before it. */
  predicate LiveAt(v: Var, line: int) {
    v.isInit && v.initLoc.Some? && v.initLoc.value < line
  }

  /** What `LiveIn` returns: exactly the live variables of `vs`, unless one of them is
      initialised at no known line. */
  lemma {:induction false} LiveInExactly(vars: seq<Var>, vs: seq<nat>, line: int)
    requires forall i :: 0 <= i < |vs| ==> vs[i] < |vars|
    ensures LiveIn(vars, vs, line).Fail? <==> exists v :: v in vs && vars[v].isInit && vars[v].initLoc.None?
    ensures LiveIn(vars, vs, line).Ok? ==>
              forall v :: v in LiveIn(vars, vs, line).value <==> v in vs && LiveAt(vars[v], line)
  {
    if vs != [] {
      LiveInExactly(vars, vs[1..], line);
      assert forall v :: v in vs <==> v == vs[0] || v in vs[1..];
    }
  }

  /** What `LiveAlong` returns: exactly the live variables declared on the statements of
      `xs`, unless one of them is initialised at no known line. */
  lemma {:induction false} LiveAlongExactly(stmts: seq<Stmt>, vars: seq<Var>, xs: seq<nat>, line: int)
    requires WellFormed(stmts, vars) && forall i :: 0 <= i < |xs| ==> xs[i] < |stmts|
    ensures LiveAlong(stmts, vars, xs, line).Fail? <==>
              exists a, v :: a in xs && v in stmts[a].variables && vars[v].isInit && vars[v].initLoc.None?
    ensures LiveAlong(stmts, vars, xs, line).Ok? ==>
              forall v :: v in LiveAlong(stmts, vars, xs, line).value <==>
                            (exists a :: a in xs && v in stmts[a].variables) && v < |vars| && LiveAt(vars[v], line)
  {
    if xs != [] {
      var vs := stmts[xs[0]].variables;
      assert forall i :: 0 <= i < |vs| ==> vs[i] < |vars|;
      LiveInExactly(vars, vs, line);
      LiveAlongExactly(stmts, vars, xs[1..], line);
      assert forall a :: a in xs <==> a == xs[0] || a in xs[1..];
      var whole := LiveAlong(stmts, vars, xs, line);
      if whole.Ok? {
        forall v ensures v in whole.value <==>
                         (exists a :: a in xs && v in stmts[a].variables) && v < |vars| && LiveAt(vars[v], line) {
          if v in vs {
            assert xs[0] in xs;
          }
        }
      }
    }
  }

  /** `find_live_vars_at`: none when no function encloses the line or no statement of it
      is found there; otherwise the live variables declared on that statement and on every
      ancestor up to the root. */
  function LiveVarsAt(stmts: seq<Stmt>, vars: seq<Var>, fs: seq<nat>, line: int): Result<Option<set<nat>>>
    requires WellFormed(stmts, vars) && AllFunctions(stmts, fs)
  {
    match FunctionAt(stmts, fs, line)
    case None => Ok(None)
    case Some(f) =>
      match FindStatementAt(stmts, f, line)
      case None => Ok(None)
      case Some(s) =>
        var live :- LiveAlong(stmts, vars, Ancestors(stmts, s), line);
        Ok(Some(live))
  }

  /** Every live variable is initialised strictly before the line and declared on the
      statement at the line or one of its ancestors; so a variable is never live at the
      line of its own initialisation. */
  lemma LiveVarsSound(stmts: seq<Stmt>, vars: seq<Var>, fs: seq<nat>, line: int, v: nat)
    requires WellFormed(stmts, vars) && AllFunctions(stmts, fs)
    requires LiveVarsAt(stmts, vars, fs, line).Ok? && LiveVarsAt(stmts, vars, fs, line).value.Some?
    requires v in LiveVarsAt(stmts, vars, fs, line).value.value
    ensures v < |vars| && vars[v].isInit && vars[v].initLoc.Some? && vars[v].initLoc.value < line
    ensures vars[v].initLoc != Some(line)
    ensures exists f, s :: FunctionAt(stmts, fs, line) == Some(f) && FindStatementAt(stmts, f, line) == Some(s) &&
                           exists a :: a in Ancestors(stmts, s) && v in stmts[a].variables
  {
    var f := FunctionAt(stmts, fs, line).value;
    var s := FindStatementAt(stmts, f, line).value;
    LiveAlongExactly(stmts, vars, Ancestors(stmts, s), line);
  }

  /** Conversely, every variable initialised before the line on that chain is live. */
  lemma LiveVarsComplete(stmts: seq<Stmt>, vars: seq<Var>, fs: seq<nat>, line: int, f: nat, s: nat, a: nat, v: nat)
    requires WellFormed(stmts, vars) && AllFunctions(stmts, fs)
    requires FunctionAt(stmts, fs, line) == Some(f) && FindStatementAt(stmts, f, line) == Some(s)
    requires a in Ancestors(stmts, s) && v in stmts[a].variables && LiveAt(vars[v], line)
    requires LiveVarsAt(stmts, vars, fs, line).Ok?
    ensures LiveVarsAt(stmts, vars, fs, line).value.Some? && v in LiveVarsAt(stmts, vars, fs, line).value.value
  {
    LiveAlongExactly(stmts, vars, Ancestors(stmts, s), line);
  }

  // ---------------------------------------------------------------- used variables

  /** The outermost statement, from `k` upwards, of the run of ancestors whose parent
      starts at `line`: climbing stops below the first parent that starts elsewhere, and
      reaching the root reads the location of its parent, None. */
  function OuterAt(stmts: seq<Stmt>, k: nat, line: int): (r: Result<nat>)
    requires Tree(stmts) && k < |stmts|
    ensures r.Ok? ==> r.value < |stmts|
    decreases k
  {
    if stmts[k].parent.None? then Fail(NoneAttribute("current.parent.loc"))
    else if stmts[stmts[k].parent.value].loc.start != Some(line) then Ok(k)
    else OuterAt(stmts, stmts[k].parent.value, line)
  }

  /** The statement found is an ancestor whose parent starts elsewhere; along the way
      every ancestor below it has a parent that starts at the line. */
  lemma {:induction false} OuterAtIsAncestor(stmts: seq<Stmt>, k: nat, line: int)
    requires Tree(stmts) && k < |stmts|
    ensures OuterAt(stmts, k, line).Ok? ==>
              var o := OuterAt(stmts, k, line).value;
              o in Ancestors(stmts, k) && stmts[o].parent.Some? && stmts[stmts[o].parent.value].loc.start != Some(line)
    ensures OuterAt(stmts, k, line).Fail? <==>
              forall a :: a in Ancestors(stmts, k) && stmts[a].parent.Some? ==> stmts[stmts[a].parent.value].loc.start == Some(line)
    decreases k
  {
    if stmts[k].parent.Some? {
      var p := stmts[k].parent.value;
      assert Ancestors(stmts, k) == [k] + Ancestors(stmts, p);
      OuterAtIsAncestor(stmts, p, line);
    }
  }

  /** `find_used_vars_at`: none when no function or statement is found at the line;
      otherwise the variables referred to under the outermost statement of `OuterAt`. */
  function UsedVarsAt(stmts: seq<Stmt>, vars: seq<Var>, fs: seq<nat>, line: int): Result<Option<set<nat>>>
    requires WellFormed(stmts, vars) && AllFunctions(stmts, fs)
  {
    match FunctionAt(stmts, fs, line)
    case None => Ok(None)
    case Some(f) =>
      match FindStatementAt(stmts, f, line)
      case None => Ok(None)
      case Some(s) =>
        var o :- OuterAt(stmts, s, line);
        Ok(Some(FindReferencedVars(stmts, vars, o)))
  }

  // ---------------------------------------------------------------- conditionals, calls, loops

  /** Which of the three statement searches of `AST` is meant. */
  datatype Query = Conditionals | Calls | Loops

  /** The kinds each search admits (`find_conditionals`, `find_calls`, `find_loops`). */
  function Admitted(q: Query): seq<string> {
    match q
    case Conditionals => ["IfStmt", "SwitchStmt"]
    case Calls => ["CallExpr"]
    case Loops => ["WhileStmt", "DoStmt", "ForStmt"]
  }

  /** The variables referred to by the children `cs[i..]` of a `for` before its body,
      the first CompoundStmt child: the init, condition and update. */
  function HeaderVars(stmts: seq<Stmt>, vars: seq<Var>, cs: seq<nat>, k: nat, i: nat): set<nat>
    requires WellFormed(stmts, vars) && k < |stmts|
    requires forall j :: 0 <= j < |cs| ==> k < cs[j] < |stmts|
    decreases |cs| - i
  {
    if i >= |cs| || stmts[cs[i]].kind == "CompoundStmt" then {}
    else FindReferencedVars(stmts, vars, cs[i]) + HeaderVars(stmts, vars, cs, k, i + 1)
  }

  /** The variables reported for a statement a search found: a conditional's first child
      (its condition), a call itself, a `while`'s first child, a `for`'s header, a `do`'s
      last child; indexing a childless statement raises IndexError. No other kind of loop
      is reported. */
  function Report(q: Query, stmts: seq<Stmt>, vars: seq<Var>, s: nat): Result<Option<set<nat>>>
    requires WellFormed(stmts, vars) && s < |stmts|
  {
    var body := stmts[s].body;
    match q
    case Conditionals =>
      if body == [] then Fail(IndexError("stmt.body[0]")) else Ok(Some(FindReferencedVars(stmts, vars, body[0])))
    case Calls => Ok(Some(FindReferencedVars(stmts, vars, s)))
    case Loops =>
      if stmts[s].kind == "WhileStmt" then
        if body == [] then Fail(IndexError("stmt.body[0]")) else Ok(Some(FindReferencedVars(stmts, vars, body[0])))
      else if stmts[s].kind == "ForStmt" then Ok(Some(HeaderVars(stmts, vars, body, s, 0)))
      else if stmts[s].kind == "DoStmt" then
        if body == [] then Fail(IndexError("stmt.body[-1]")) else Ok(Some(FindReferencedVars(stmts, vars, body[|body| - 1])))
      else Ok(None)
  }

  /** The findings for the statements `xs`, in order, or the first fault. */
  function Reports(q: Query, stmts: seq<Stmt>, vars: seq<Var>, xs: seq<nat>): Result<seq<Finding>>
    requires WellFormed(stmts, vars) && forall i :: 0 <= i < |xs| ==> xs[i] < |stmts|
  {
    if xs == [] then Ok([])
    else
      var init :- Reports(q, stmts, vars, xs[..|xs| - 1]);
      var here :- Report(q, stmts, vars, xs[|xs| - 1]);
      Ok(init + (if here.Some? then [Finding(xs[|xs| - 1], here.value)] else []))
  }

  /** The statements a search visits: for each function in order, the admitted
      statements of its subtree in preorder (`__find`). */
  function Candidates(q: Query, stmts: seq<Stmt>, fs: seq<nat>): (r: seq<nat>)
    requires Tree(stmts) && forall i :: 0 <= i < |fs| ==> fs[i] < |stmts|
    ensures forall i :: 0 <= i < |r| ==> r[i] < |stmts| && stmts[r[i]].kind in Admitted(q)
  {
    if fs == [] then [] else Candidates(q, stmts, fs[..|fs| - 1]) + FindKinds(stmts, fs[|fs| - 1], Admitted(q))
  }

  lemma CandidatesStep(q: Query, stmts: seq<Stmt>, fs: seq<nat>, i: nat)
    requires Tree(stmts) && i < |fs| && forall j :: 0 <= j < |fs| ==> fs[j] < |stmts|
    ensures Candidates(q, stmts, fs[..i + 1]) == Candidates(q, stmts, fs[..i]) + FindKinds(stmts, fs[i], Admitted(q))
  {
    assert fs[..i + 1][..i] == fs[..i];
  }

  lemma ReportsSnoc(q: Query, stmts: seq<Stmt>, vars: seq<Var>, xs: seq<nat>, x: nat)
    requires WellFormed(stmts, vars) && x < |stmts| && forall i :: 0 <= i < |xs| ==> xs[i] < |stmts|
    ensures Reports(q, stmts, vars, xs).Fail? ==> Reports(q, stmts, vars, xs + [x]) == Reports(q, stmts, vars, xs)
    ensures Reports(q, stmts, vars, xs).Ok? && Report(q, stmts, vars, x).Fail? ==>
              Reports(q, stmts, vars, xs + [x]) == Fail(Report(q, stmts, vars, x).fault)
    ensures Reports(q, stmts, vars, xs).Ok? && Report(q, stmts, vars, x).Ok? ==>
              var here := Report(q, stmts, vars, x).value;
              Reports(q, stmts, vars, xs + [x]) ==
                Ok(Reports(q, stmts, vars, xs).value + (if here.Some? then [Finding(x, here.value)] else []))
  {
    assert (xs + [x])[..|xs|] == xs;
  }

  lemma {:induction false} ReportsFailExtends(q: Query, stmts: seq<Stmt>, vars: seq<Var>, xs: seq<nat>, n: nat)
    requires WellFormed(stmts, vars) && forall i :: 0 <= i < |xs| ==> xs[i] < |stmts|
    requires n <= |xs| && Reports(q, stmts, vars, xs[..n]).Fail?
    ensures Reports(q, stmts, vars, xs) == Reports(q, stmts, vars, xs[..n])
    decreases |xs| - n
  {
    if n == |xs| {
      assert xs[..n] == xs;
    } else {
      var front := xs[..|xs| - 1];
      assert front[..n] == xs[..n];
      ReportsFailExtends(q, stmts, vars, front, n);
    }
  }

  /** A call search reports a statement by the variables it refers to. */
  lemma CallReport(stmts: seq<Stmt>, vars: seq<Var>, x: nat)
    requires WellFormed(stmts, vars) && x < |stmts|
    ensures Report(Calls, stmts, vars, x) == Ok(Some(FindReferencedVars(stmts, vars, x)))
  {
  }

  /** A call search reports every call of every function, in order, each with the
      variables it refers to. */
  lemma {:induction false} CallsReportEveryCall(stmts: seq<Stmt>, vars: seq<Var>, xs: seq<nat>)
    requires WellFormed(stmts, vars) && forall i :: 0 <= i < |xs| ==> xs[i] < |stmts|
    ensures Reports(Calls, stmts, vars, xs).Ok?
    ensures |Reports(Calls, stmts, vars, xs).value| == |xs|
    ensures forall i :: 0 <= i < |xs| ==>
              Reports(Calls, stmts, vars, xs).value[i] == Finding(xs[i], FindReferencedVars(stmts, vars, xs[i]))
  {
    if xs != [] {
      var front, x := xs[..|xs| - 1], xs[|xs| - 1];
      CallsReportEveryCall(stmts, vars, front);
      var init := Reports(Calls, stmts, vars, front).value;
      CallsSnoc(stmts, vars, front, x);
      assert front + [x] == xs;
      var all := init + [Finding(x, FindReferencedVars(stmts, vars, x))];
      assert Reports(Calls, stmts, vars, xs) == Ok(all);
      forall i | 0 <= i < |xs| ensures all[i] == Finding(xs[i], FindReferencedVars(stmts, vars, xs[i])) {
        if i < |front| {
          assert xs[i] == front[i] && all[i] == init[i];
        }
      }
    }
  }

  /** One more call adds its own finding at the end. */
  lemma CallsSnoc(stmts: seq<Stmt>, vars: seq<Var>, xs: seq<nat>, x: nat)
    requires WellFormed(stmts, vars) && x < |stmts| && forall i :: 0 <= i < |xs| ==> xs[i] < |stmts|
    requires Reports(Calls, stmts, vars, xs).Ok?
    ensures Reports(Calls, stmts, vars, xs + [x]) ==
              Ok(Reports(Calls, stmts, vars, xs).value + [Finding(x, FindReferencedVars(stmts, vars, x))])
  {
    CallReport(stmts, vars, x);
    ReportsSnoc(Calls, stmts, vars, xs, x);
  }

  /** A loop search reports a `for` by the references of its header and a `while` or `do`
      by those of its first or last child; a statement of any other kind adds nothing. */
  lemma LoopReportByKind(stmts: seq<Stmt>, vars: seq<Var>, s: nat)
    requires WellFormed(stmts, vars) && s < |stmts|
    ensures var r := Report(Loops, stmts, vars, s);
            var body := stmts[s].body;
            && (stmts[s].kind !in Admitted(Loops) ==> r == Ok(None))
            && (stmts[s].kind == "WhileStmt" && body != [] ==> r == Ok(Some(FindReferencedVars(stmts, vars, body[0]))))
            && (stmts[s].kind == "DoStmt" && body != [] ==> r == Ok(Some(FindReferencedVars(stmts, vars, body[|body| - 1]))))
            && (stmts[s].kind == "ForStmt" ==> r == Ok(Some(HeaderVars(stmts, vars, body, s, 0))))
            && (stmts[s].kind in Admitted(Loops) && r.Ok? ==> r.value.Some?)
  {
  }

  /** Every variable of a `for` header comes from a child before the first CompoundStmt. */
  lemma {:induction false} HeaderVarsSound(stmts: seq<Stmt>, vars: seq<Var>, cs: seq<nat>, k: nat, i: nat, v: nat)
    requires WellFormed(stmts, vars) && k < |stmts|
    requires forall j :: 0 <= j < |cs| ==> k < cs[j] < |stmts|
    requires v in HeaderVars(stmts, vars, cs, k, i)
    ensures exists n :: i <= n < |cs| && v in FindReferencedVars(stmts, vars, cs[n]) &&
                        forall j :: i <= j <= n ==> stmts[cs[j]].kind != "CompoundStmt"
    decreases |cs| - i
  {
    assert stmts[cs[i]].kind != "CompoundStmt";
    if v in FindReferencedVars(stmts, vars, cs[i]) {
    } else {
      HeaderVarsSound(stmts, vars, cs, k, i + 1, v);
      var n :| i + 1 <= n < |cs| && v in FindReferencedVars(stmts, vars, cs[n]) &&
               forall j :: i + 1 <= j <= n ==> stmts[cs[j]].kind != "CompoundStmt";
      assert forall j :: i <= j <= n ==> stmts[cs[j]].kind != "CompoundStmt";
    }
  }

  /** Every variable referred to by a child before the first CompoundStmt is in the header. */
  lemma {:induction false} HeaderVarsComplete(stmts: seq<Stmt>, vars: seq<Var>, cs: seq<nat>, k: nat, i: nat, n: nat, v: nat)
    requires WellFormed(stmts, vars) && k < |stmts|
    requires forall j :: 0 <= j < |cs| ==> k < cs[j] < |stmts|
    requires i <= n < |cs| && v in FindReferencedVars(stmts, vars, cs[n])
    requires forall j :: i <= j <= n ==> stmts[cs[j]].kind != "CompoundStmt"
    ensures v in HeaderVars(stmts, vars, cs, k, i)
    decreases |cs| - i
  {
    assert stmts[cs[i]].kind != "CompoundStmt";
    var here := FindReferencedVars(stmts, vars, cs[i]);
    assert HeaderVars(stmts, vars, cs, k, i) == here + HeaderVars(stmts, vars, cs, k, i + 1);
    if i < n {
      HeaderVarsComplete(stmts, vars, cs, k, i + 1, n, v);
    }
  }

  /** A statement of an admitted kind that is reported without a fault is reported
      with its variables. */
  lemma ReportAdmitted(q: Query, stmts: seq<Stmt>, vars: seq<Var>, x: nat)
    requires WellFormed(stmts, vars) && x < |stmts| && stmts[x].kind in Admitted(q)
    ensures Report(q, stmts, vars, x).Ok? ==> Report(q, stmts, vars, x).value.Some?
  {
    if q == Loops {
      LoopReportByKind(stmts, vars, x);
    }
  }

  /** A search over statements of the admitted kinds succeeds exactly when each of them
      is reported without a fault. */
  lemma {:induction false} ReportsOk(q: Query, stmts: seq<Stmt>, vars: seq<Var>, xs: seq<nat>)
    requires WellFormed(stmts, vars) && forall i :: 0 <= i < |xs| ==> xs[i] < |stmts|
    ensures Reports(q, stmts, vars, xs).Ok? <==> forall i :: 0 <= i < |xs| ==> Report(q, stmts, vars, xs[i]).Ok?
  {
    if xs != [] {
      var front, x := xs[..|xs| - 1], xs[|xs| - 1];
      ReportsOk(q, stmts, vars, front);
      assert front + [x] == xs;
      ReportsSnoc(q, stmts, vars, front, x);
      assert forall i :: 0 <= i < |front| ==> xs[i] == front[i];
    }
  }

  /** A search visits only statements of the admitted kinds, and each of those is
      reported, so a search that succeeds has findings that follow the candidates one
      for one. */
  lemma {:induction false} ReportsPointwise(q: Query, stmts: seq<Stmt>, vars: seq<Var>, xs: seq<nat>)
    requires WellFormed(stmts, vars) && forall i :: 0 <= i < |xs| ==> xs[i] < |stmts| && stmts[xs[i]].kind in Admitted(q)
    requires Reports(q, stmts, vars, xs).Ok?
    ensures Pointwise(q, stmts, vars, xs, Reports(q, stmts, vars, xs).value)
  {
    if xs != [] {
      var front, x := xs[..|xs| - 1], xs[|xs| - 1];
      assert front + [x] == xs;
      ReportsSnoc(q, stmts, vars, front, x);
      ReportsPointwise(q, stmts, vars, front);
      ReportAdmitted(q, stmts, vars, x);
      var here := Report(q, stmts, vars, x).value;
      PointwiseSnoc(q, stmts, vars, front, x, Reports(q, stmts, vars, front).value, here.value);
    }
  }

  /** Findings that follow the statements `xs` one for one, each with its statement's
      report. */
  predicate Pointwise(q: Query, stmts: seq<Stmt>, vars: seq<Var>, xs: seq<nat>, r: seq<Finding>)
    requires WellFormed(stmts, vars) && forall i :: 0 <= i < |xs| ==> xs[i] < |stmts|
  {
    |r| == |xs| && forall i :: 0 <= i < |xs| ==> r[i].stmt == xs[i] && Report(q, stmts, vars, xs[i]) == Ok(Some(r[i].variables))
  }

  lemma PointwiseSnoc(q: Query, stmts: seq<Stmt>, vars: seq<Var>, xs: seq<nat>, x: nat, r: seq<Finding>, v: set<nat>)
    requires WellFormed(stmts, vars) && x < |stmts| && forall i :: 0 <= i < |xs| ==> xs[i] < |stmts|
    requires Pointwise(q, stmts, vars, xs, r) && Report(q, stmts, vars, x) == Ok(Some(v))
    ensures Pointwise(q, stmts, vars, xs + [x], r + [Finding(x, v)])
  {
    var xs', r' := xs + [x], r + [Finding(x, v)];
    forall i | 0 <= i < |xs'| ensures r'[i].stmt == xs'[i] && Report(q, stmts, vars, xs'[i]) == Ok(Some(r'[i].variables)) {
      if i < |xs| {
        assert r'[i] == r[i] && xs'[i] == xs[i];
      }
    }
  }

  /** The nested loops of a search: for each function in order, the findings of its
      candidates, or the first fault. */
  function Searches(q: Query, stmts: seq<Stmt>, vars: seq<Var>, fs: seq<nat>): Result<seq<Finding>>
    requires WellFormed(stmts, vars) && forall i :: 0 <= i < |fs| ==> fs[i] < |stmts|
  {
    if fs == [] then Ok([])
    else
      var init :- Searches(q, stmts, vars, fs[..|fs| - 1]);
      var here :- Reports(q, stmts, vars, FindKinds(stmts, fs[|fs| - 1], Admitted(q)));
      Ok(init + here)
  }

  lemma SearchesStep(q: Query, stmts: seq<Stmt>, vars: seq<Var>, fs: seq<nat>, i: nat)
    requires WellFormed(stmts, vars) && i < |fs| && forall j :: 0 <= j < |fs| ==> fs[j] < |stmts|
    ensures var init := Searches(q, stmts, vars, fs[..i]);
            var here := Reports(q, stmts, vars, FindKinds(stmts, fs[i], Admitted(q)));
            Searches(q, stmts, vars, fs[..i + 1]) ==
              if init.Fail? then init else if here.Fail? then Fail(here.fault) else Ok(init.value + here.value)
  {
    assert fs[..i + 1][..i] == fs[..i];
  }

  lemma {:induction false} SearchesFailExtends(q: Query, stmts: seq<Stmt>, vars: seq<Var>, fs: seq<nat>, n: nat)
    requires WellFormed(stmts, vars) && forall i :: 0 <= i < |fs| ==> fs[i] < |stmts|
    requires n <= |fs| && Searches(q, stmts, vars, fs[..n]).Fail?
    ensures Searches(q, stmts, vars, fs) == Searches(q, stmts, vars, fs[..n])
    decreases |fs| - n
  {
    if n == |fs| {
      assert fs[..n] == fs;
    } else {
      var front := fs[..|fs| - 1];
      assert front[..n] == fs[..n];
      SearchesFailExtends(q, stmts, vars, front, n);
    }
  }

  /** The findings of a concatenation are those of each part, the first fault winning. */
  lemma {:induction false} ReportsAppend(q: Query, stmts: seq<Stmt>, vars: seq<Var>, xs: seq<nat>, ys: seq<nat>)
    requires WellFormed(stmts, vars)
    requires forall i :: 0 <= i < |xs| ==> xs[i] < |stmts|
    requires forall i :: 0 <= i < |ys| ==> ys[i] < |stmts|
    ensures var a, b := Reports(q, stmts, vars, xs), Reports(q, stmts, vars, ys);
            Reports(q, stmts, vars, xs + ys) ==
              if a.Fail? then a else if b.Fail? then Fail(b.fault) else Ok(a.value + b.value)
    decreases |ys|
  {
    if ys == [] {
      assert xs + ys == xs;
      var a := Reports(q, stmts, vars, xs);
      if a.Ok? {
        assert a.value + [] == a.value;
      }
    } else {
      var front, y := ys[..|ys| - 1], ys[|ys| - 1];
      ReportsAppend(q, stmts, vars, xs, front);
      SplitLast(xs, ys);
      ReportsSnoc(q, stmts, vars, xs + front, y);
      ReportsSnoc(q, stmts, vars, front, y);
      var a, b := Reports(q, stmts, vars, xs), Reports(q, stmts, vars, front);
      var here := Report(q, stmts, vars, y);
      if a.Ok? && b.Ok? && here.Ok? {
        AppendAssoc(a.value, b.value, if here.value.Some? then [Finding(y, here.value.value)] else []);
      }
    }
  }

  /** The nested loops over functions and their candidates visit exactly the candidates
      of all functions, in order. */
  lemma {:induction false} SearchesFlatten(q: Query, stmts: seq<Stmt>, vars: seq<Var>, fs: seq<nat>)
    requires WellFormed(stmts, vars) && forall i :: 0 <= i < |fs| ==> fs[i] < |stmts|
    ensures Searches(q, stmts, vars, fs) == Reports(q, stmts, vars, Candidates(q, stmts, fs))
  {
    if fs != [] {
      var front := fs[..|fs| - 1];
      SearchesFlatten(q, stmts, vars, front);
      ReportsAppend(q, stmts, vars, Candidates(q, stmts, front), FindKinds(stmts, fs[|fs| - 1], Admitted(q)));
    }
  }

  /** The loop of `find_conditionals`, `find_calls` and `find_loops` over the functions,
      each searched in turn; the first fault ends it. */
  method SearchFunctions(q: Query, stmts: seq<Stmt>, vars: seq<Var>, fs: seq<nat>) returns (r: Result<seq<Finding>>)
    requires WellFormed(stmts, vars) && forall i :: 0 <= i < |fs| ==> fs[i] < |stmts|
    ensures r == Searches(q, stmts, vars, fs)
  {
    var out: seq<Finding> := [];
    var i := 0;
    while i < |fs|
      invariant 0 <= i <= |fs|
      invariant Searches(q, stmts, vars, fs[..i]) == Ok(out)
    {
      SearchesStep(q, stmts, vars, fs, i);
      var here := FindIn(q, stmts, vars, fs[i]);
      if here.Fail? {
        SearchesFailExtends(q, stmts, vars, fs, i + 1);
        return Fail(here.fault);
      }
      out := out + here.value;
      i := i + 1;
    }
    TakeAll(fs);
    r := Ok(out);
  }

  /** The `for` loop of `find_loops` over a `for` statement's children, stopping at the
      first CompoundStmt. */
  method ForHeaderVars(stmts: seq<Stmt>, vars: seq<Var>, s: nat) returns (out: set<nat>)
    requires WellFormed(stmts, vars) && s < |stmts|
    ensures out == HeaderVars(stmts, vars, stmts[s].body, s, 0)
  {
    var cs := stmts[s].body;
    out := {};
    var i := 0;
    while i < |cs|
      invariant 0 <= i <= |cs|
      invariant out + HeaderVars(stmts, vars, cs, s, i) == HeaderVars(stmts, vars, cs, s, 0)
      decreases |cs| - i
    {
      if stmts[cs[i]].kind == "CompoundStmt" {
        break;
      }
      out := out + FindReferencedVars(stmts, vars, cs[i]);
      i := i + 1;
    }
  }

  // ---------------------------------------------------------------- global updates

  /** The number of statements in the subtree at `k`. */
  function Size(stmts: seq<Stmt>, k: nat): nat
    requires Tree(stmts) && k < |stmts|
    decreases |stmts| - k, 1
  {
    1 + SizeOf(stmts, stmts[k].body, k + 1)
  }

  /** The number of statements in the subtrees of a queue whose handles are at least `lo`. */
  function SizeOf(stmts: seq<Stmt>, q: seq<nat>, lo: nat): nat
    requires Tree(stmts) && forall i :: 0 <= i < |q| ==> lo <= q[i] < |stmts|
    decreases |stmts| - lo + 1, 0, |q|
  {
    if q == [] then 0 else Size(stmts, q[0]) + SizeOf(stmts, q[1..], lo)
  }

  lemma {:induction false} SizeOfAnyBound(stmts: seq<Stmt>, q: seq<nat>, lo: nat)
    requires Tree(stmts) && forall i :: 0 <= i < |q| ==> lo <= q[i] < |stmts|
    ensures SizeOf(stmts, q, lo) == SizeOf(stmts, q, 0)
  {
    if q != [] {
      SizeOfAnyBound(stmts, q[1..], lo);
    }
  }

  lemma {:induction false} SizeOfAppend(stmts: seq<Stmt>, a: seq<nat>, b: seq<nat>)
    requires Tree(stmts)
    requires forall i :: 0 <= i < |a| ==> a[i] < |stmts|
    requires forall i :: 0 <= i < |b| ==> b[i] < |stmts|
    ensures SizeOf(stmts, a + b, 0) == SizeOf(stmts, a, 0) + SizeOf(stmts, b, 0)
  {
    if a != [] {
      assert (a + b)[1..] == a[1..] + b;
      SizeOfAppend(stmts, a[1..], b);
    } else {
      assert a + b == b;
    }
  }

  /** Popping the head of a queue and appending its children shrinks the queue's size. */
  lemma SizeStep(stmts: seq<Stmt>, q: seq<nat>)
    requires Tree(stmts) && q != [] && forall i :: 0 <= i < |q| ==> q[i] < |stmts|
    ensures forall i :: 0 <= i < |q[1..] + stmts[q[0]].body| ==> (q[1..] + stmts[q[0]].body)[i] < |stmts|
    ensures SizeOf(stmts, q[1..] + stmts[q[0]].body, 0) < SizeOf(stmts, q, 0)
  {
    var body := stmts[q[0]].body;
    SizeOfAppend(stmts, q[1..], body);
    SizeOfAnyBound(stmts, body, q[0] + 1);
  }

  /** The order in which `find_global_updates` visits statements: it pops the head of the
      queue and appends the head's children, until the queue is empty. */
  function Bfs(stmts: seq<Stmt>, q: seq<nat>): (r: seq<nat>)
    requires Tree(stmts) && forall i :: 0 <= i < |q| ==> q[i] < |stmts|
    ensures forall i :: 0 <= i < |r| ==> r[i] < |stmts|
    decreases SizeOf(stmts, q, 0)
  {
    if q == [] then []
    else
      SizeStep(stmts, q);
      [q[0]] + Bfs(stmts, q[1..] + stmts[q[0]].body)
  }

  /** The statements of the subtrees of a queue, subtree after subtree, each in preorder. */
  function Forest(stmts: seq<Stmt>, q: seq<nat>): (r: seq<nat>)
    requires Tree(stmts) && forall i :: 0 <= i < |q| ==> q[i] < |stmts|
  {
    if q == [] then [] else Preorder(stmts, q[0]) + Forest(stmts, q[1..])
  }

  lemma {:induction false} ForestAppend(stmts: seq<Stmt>, a: seq<nat>, b: seq<nat>)
    requires Tree(stmts)
    requires forall i :: 0 <= i < |a| ==> a[i] < |stmts|
    requires forall i :: 0 <= i < |b| ==> b[i] < |stmts|
    ensures Forest(stmts, a + b) == Forest(stmts, a) + Forest(stmts, b)
  {
    if a == [] {
      assert a + b == b;
    } else {
      assert (a + b)[1..] == a[1..] + b;
      ForestAppend(stmts, a[1..], b);
      AppendAssoc(Preorder(stmts, a[0]), Forest(stmts, a[1..]), Forest(stmts, b));
    }
  }

  lemma {:induction false} PreorderOfIsForest(stmts: seq<Stmt>, cs: seq<nat>, k: nat)
    requires Tree(stmts) && k < |stmts|
    requires forall i :: 0 <= i < |cs| ==> k < cs[i] < |stmts|
    ensures PreorderOf(stmts, cs, k) == Forest(stmts, cs)
  {
    if cs != [] {
      PreorderOfIsForest(stmts, cs[1..], k);
    }
  }

  /** The breadth-first walk visits exactly the statements of the queue's subtrees, each
      as often as a preorder walk of them does: it is a permutation of `Forest`. */
  lemma {:induction false} BfsIsPermutation(stmts: seq<Stmt>, q: seq<nat>)
    requires Tree(stmts) && forall i :: 0 <= i < |q| ==> q[i] < |stmts|
    ensures multiset(Bfs(stmts, q)) == multiset(Forest(stmts, q))
    decreases SizeOf(stmts, q, 0)
  {
    if q != [] {
      var x := q[0];
      var body := stmts[x].body;
      SizeStep(stmts, q);
      var next := q[1..] + body;
      BfsIsPermutation(stmts, next);
      ForestAppend(stmts, q[1..], body);
      PreorderOfIsForest(stmts, body, x);
      PermuteHead(x, Bfs(stmts, next), Forest(stmts, q[1..]), Forest(stmts, body));
    }
  }

  /** The local `glob` of `find_global_updates`: never assigned, or assigned the result of
      `find_global_by_id`, abstracted to whether that was a variable or None. The local
      survives from one statement and one function to the next. */
  datatype Glob = Unbound | Bound(found: bool)

  /** `for ref in stmt.references: glob = find_global_by_id(ref); if glob is not None: break`:
      no references leave `glob` as it was; otherwise it ends up not None exactly when
      some reference is the id of a global, whatever order the set is iterated in. */
  function AfterRefs(globals: seq<Var>, refs: set<int>, glob: Glob): Glob {
    if refs == {} then glob else Bound(ReferencesGlobal(globals, refs))
  }

  /** Some reference is the id of a global. */
  predicate ReferencesGlobal(globals: seq<Var>, refs: set<int>) {
    exists ref :: ref in refs && GlobalById(globals, ref).Some?
  }

  /** Whether a statement is an update the search reports: it has at least two children
      and the first is a DeclRefExpr (the assigned name). */
  predicate Assigns(stmts: seq<Stmt>, s: nat)
    requires Tree(stmts) && s < |stmts|
  {
    |stmts[s].body| > 1 && stmts[stmts[s].body[0]].kind == "DeclRefExpr"
  }

  /** One statement popped from the queue: the new `glob` and what is reported; testing
      a `glob` that was never assigned raises UnboundLocalError. */
  function Visit(stmts: seq<Stmt>, vars: seq<Var>, globals: seq<Var>, s: nat, glob: Glob): Result<(seq<Finding>, Glob)>
    requires WellFormed(stmts, vars) && s < |stmts|
  {
    if !Assigns(stmts, s) then Ok(([], glob))
    else
      var g := AfterRefs(globals, stmts[s].references, glob);
      if g.Unbound? then Fail(UnboundLocal("glob"))
      else Ok((if g.found then [Finding(s, FindReferencedVars(stmts, vars, s))] else [], g))
  }

  /** A visit reports the statement itself, with the variables it refers to, when it is
      an assignment whose references name a global, and nothing when it is none. */
  lemma VisitReports(stmts: seq<Stmt>, vars: seq<Var>, globals: seq<Var>, s: nat, glob: Glob)
    requires WellFormed(stmts, vars) && s < |stmts|
    ensures var v := Visit(stmts, vars, globals, s, glob);
            v.Ok? ==>
              && (forall fd :: fd in v.value.0 ==>
                    && fd == Finding(s, FindReferencedVars(stmts, vars, s)) && Assigns(stmts, s)
                    && (stmts[s].references != {} ==> ReferencesGlobal(globals, stmts[s].references)))
              && (Assigns(stmts, s) && ReferencesGlobal(globals, stmts[s].references) ==>
                    Finding(s, FindReferencedVars(stmts, vars, s)) in v.value.0)
  {
  }

  /** The visits of a sequence of statements in order, threading `glob`. */
  function Continue(stmts: seq<Stmt>, vars: seq<Var>, globals: seq<Var>, order: seq<nat>, glob: Glob): Result<(seq<Finding>, Glob)>
    requires WellFormed(stmts, vars) && forall i :: 0 <= i < |order| ==> order[i] < |stmts|
  {
    if order == [] then Ok(([], glob))
    else
      var (here, g) :- Visit(stmts, vars, globals, order[0], glob);
      var (rest, g2) :- Continue(stmts, vars, globals, order[1..], g);
      Ok((here + rest, g2))
  }

  /** What the visits of a sequence of statements report: each finding is an assignment in
      the sequence, with the variables it refers to, and one with references reports only
      when a reference names a global. */
  lemma {:induction false} ContinueSound(stmts: seq<Stmt>, vars: seq<Var>, globals: seq<Var>, order: seq<nat>, glob: Glob)
    requires WellFormed(stmts, vars) && forall i :: 0 <= i < |order| ==> order[i] < |stmts|
    requires Continue(stmts, vars, globals, order, glob).Ok?
    ensures forall fd :: fd in Continue(stmts, vars, globals, order, glob).value.0 ==>
              && fd.stmt in order && fd.stmt < |stmts| && Assigns(stmts, fd.stmt)
              && fd.variables == FindReferencedVars(stmts, vars, fd.stmt)
              && (stmts[fd.stmt].references != {} ==> ReferencesGlobal(globals, stmts[fd.stmt].references))
  {
    if order != [] {
      var v := Visit(stmts, vars, globals, order[0], glob);
      var (here, g) := v.value;
      VisitReports(stmts, vars, globals, order[0], glob);
      var rest := Continue(stmts, vars, globals, order[1..], g);
      assert rest.Ok?;
      ContinueSound(stmts, vars, globals, order[1..], g);
      var out := here + rest.value.0;
      assert Continue(stmts, vars, globals, order, glob) == Ok((out, rest.value.1));
      forall fd | fd in out
        ensures fd.stmt in order
      {
        if fd in rest.value.0 {
          var j :| 0 <= j < |order[1..]| && order[1..][j] == fd.stmt;
          assert order[j + 1] == fd.stmt;
        }
      }
    }
  }

  /** Every assignment in the sequence that references a global is reported. */
  lemma {:induction false} ContinueComplete(stmts: seq<Stmt>, vars: seq<Var>, globals: seq<Var>, order: seq<nat>, glob: Glob)
    requires WellFormed(stmts, vars) && forall i :: 0 <= i < |order| ==> order[i] < |stmts|
    requires Continue(stmts, vars, globals, order, glob).Ok?
    ensures forall i :: 0 <= i < |order| && Assigns(stmts, order[i]) && ReferencesGlobal(globals, stmts[order[i]].references) ==>
              Finding(order[i], FindReferencedVars(stmts, vars, order[i])) in Continue(stmts, vars, globals, order, glob).value.0
  {
    if order != [] {
      var v := Visit(stmts, vars, globals, order[0], glob);
      var (here, g) := v.value;
      VisitReports(stmts, vars, globals, order[0], glob);
      var rest := Continue(stmts, vars, globals, order[1..], g);
      assert rest.Ok?;
      ContinueComplete(stmts, vars, globals, order[1..], g);
      var out := here + rest.value.0;
      assert Continue(stmts, vars, globals, order, glob) == Ok((out, rest.value.1));
      forall i | 0 <= i < |order| && Assigns(stmts, order[i]) && ReferencesGlobal(globals, stmts[order[i]].references)
        ensures Finding(order[i], FindReferencedVars(stmts, vars, order[i])) in out
      {
        if i > 0 {
          assert order[1..][i - 1] == order[i];
        }
      }
    }
  }

  /** The arena with the bodies of the functions `fs` emptied, as the aliased work queue
      leaves them. */
  function Emptied(stmts: seq<Stmt>, fs: seq<nat>): (r: seq<Stmt>)
    requires forall i :: 0 <= i < |fs| ==> fs[i] < |stmts|
    ensures |r| == |stmts|
  {
    if fs == [] then stmts
    else
      var e := Emptied(stmts, fs[..|fs| - 1]);
      e[fs[|fs| - 1] := e[fs[|fs| - 1]].(body := [])]
  }

  /** Exactly the functions' bodies are emptied; every other field and statement is kept. */
  lemma {:induction false} EmptiedExactly(stmts: seq<Stmt>, fs: seq<nat>)
    requires forall i :: 0 <= i < |fs| ==> fs[i] < |stmts|
    ensures forall j :: 0 <= j < |stmts| ==>
              Emptied(stmts, fs)[j] == if j in fs then stmts[j].(body := []) else stmts[j]
  {
    if fs != [] {
      var front := fs[..|fs| - 1];
      EmptiedExactly(stmts, front);
      assert fs == front + [fs[|fs| - 1]];
    }
  }

  /** Replacing one statement's body by handles of later statements keeps the arena
      well formed and every function a function. */
  lemma SetBodyValid(stmts: seq<Stmt>, vars: seq<Var>, fs: seq<nat>, f: nat, b: seq<nat>)
    requires WellFormed(stmts, vars) && AllFunctions(stmts, fs) && f < |stmts|
    requires forall i :: 0 <= i < |b| ==> f < b[i] < |stmts|
    ensures WellFormed(stmts[f := stmts[f].(body := b)], vars)
    ensures AllFunctions(stmts[f := stmts[f].(body := b)], fs)
  {
    var s := stmts[f := stmts[f].(body := b)];
    assert forall k :: 0 <= k < |s| && k != f ==> s[k] == stmts[k];
  }

  lemma {:induction false} EmptiedValid(stmts: seq<Stmt>, vars: seq<Var>, fs: seq<nat>, gs: seq<nat>)
    requires WellFormed(stmts, vars) && AllFunctions(stmts, fs) && AllFunctions(stmts, gs)
    ensures WellFormed(Emptied(stmts, gs), vars) && AllFunctions(Emptied(stmts, gs), fs)
  {
    if gs != [] {
      var front := gs[..|gs| - 1];
      EmptiedValid(stmts, vars, fs, front);
      SetBodyValid(Emptied(stmts, front), vars, fs, gs[|gs| - 1], []);
    }
  }

  /** `find_global_updates` from function `i` on, on the arena as the earlier functions
      left it, threading `glob`. */
  function UpdatesFrom(stmts: seq<Stmt>, vars: seq<Var>, globals: seq<Var>, fs: seq<nat>, i: nat, glob: Glob): Result<(seq<Finding>, Glob)>
    requires WellFormed(stmts, vars) && AllFunctions(stmts, fs) && i <= |fs|
    decreases |fs| - i
  {
    if i == |fs| then Ok(([], glob))
    else
      var f := fs[i];
      var (here, g) :- Continue(stmts, vars, globals, Bfs(stmts, stmts[f].body), glob);
      SetBodyValid(stmts, vars, fs, f, []);
      var (rest, g2) :- UpdatesFrom(stmts[f := stmts[f].(body := [])], vars, globals, fs, i + 1, g);
      Ok((here + rest, g2))
  }

  /** `find_global_updates`: the assignments to globals, function by function in
      breadth-first order, each with the variables it refers to. */
  function GlobalUpdates(stmts: seq<Stmt>, vars: seq<Var>, globals: seq<Var>, fs: seq<nat>): Result<seq<Finding>>
    requires WellFormed(stmts, vars) && AllFunctions(stmts, fs)
  {
    var (found, _) :- UpdatesFrom(stmts, vars, globals, fs, 0, Unbound);
    Ok(found)
  }

  /** What `find_conditionals`, `find_calls` or `find_loops` records for one statement
      the search returned. */
  method ReportOf(q: Query, stmts: seq<Stmt>, vars: seq<Var>, s: nat) returns (r: Result<Option<set<nat>>>)
    requires WellFormed(stmts, vars) && s < |stmts|
    ensures r == Report(q, stmts, vars, s)
  {
    var body := stmts[s].body;
    match q {
      case Conditionals =>
        if body == [] {
          return Fail(IndexError("stmt.body[0]"));
        }
        r := Ok(Some(FindReferencedVars(stmts, vars, body[0])));
      case Calls =>
        r := Ok(Some(FindReferencedVars(stmts, vars, s)));
      case Loops =>
        r := LoopReportOf(stmts, vars, s);
    }
  }

  /** What `find_loops` records for one statement: the header of a `for` is scanned by
      its loop; the other kinds index the children directly. */
  method LoopReportOf(stmts: seq<Stmt>, vars: seq<Var>, s: nat) returns (r: Result<Option<set<nat>>>)
    requires WellFormed(stmts, vars) && s < |stmts|
    ensures r == Report(Loops, stmts, vars, s)
  {
    if stmts[s].kind == "ForStmt" {
      assert stmts[s].kind != "WhileStmt";
      var header := ForHeaderVars(stmts, vars, s);
      r := Ok(Some(header));
    } else {
      r := Report(Loops, stmts, vars, s);
    }
  }

  /** The inner loop of a search: the findings for the statements the search of one
      function returns. */
  method FindIn(q: Query, stmts: seq<Stmt>, vars: seq<Var>, f: nat) returns (r: Result<seq<Finding>>)
    requires WellFormed(stmts, vars) && f < |stmts|
    ensures r == Reports(q, stmts, vars, FindKinds(stmts, f, Admitted(q)))
  {
    var found := FindKinds(stmts, f, Admitted(q));
    r := ReportAll(q, stmts, vars, found);
  }

  /** The loop over the statements a search returned, recording each in turn; the first
      fault ends it. */
  method ReportAll(q: Query, stmts: seq<Stmt>, vars: seq<Var>, found: seq<nat>) returns (r: Result<seq<Finding>>)
    requires WellFormed(stmts, vars) && forall i :: 0 <= i < |found| ==> found[i] < |stmts|
    ensures r == Reports(q, stmts, vars, found)
  {
    var out: seq<Finding> := [];
    var j := 0;
    while j < |found|
      invariant 0 <= j <= |found|
      invariant Reports(q, stmts, vars, found[..j]) == Ok(out)
    {
      TakeSnoc(found, j);
      var step := ReportStep(q, stmts, vars, found[..j], found[j], out);
      if step.Fail? {
        ReportsFailExtends(q, stmts, vars, found, j + 1);
        return step;
      }
      out := step.value;
      j := j + 1;
    }
    TakeAll(found);
    r := Ok(out);
  }

  /** One turn of the inner loop: the report of one more statement. */
  method ReportStep(q: Query, stmts: seq<Stmt>, vars: seq<Var>, xs: seq<nat>, x: nat, out: seq<Finding>)
    returns (r: Result<seq<Finding>>)
    requires WellFormed(stmts, vars) && x < |stmts| && forall i :: 0 <= i < |xs| ==> xs[i] < |stmts|
    requires Reports(q, stmts, vars, xs) == Ok(out)
    ensures r == Reports(q, stmts, vars, xs + [x])
  {
    ReportsSnoc(q, stmts, vars, xs, x);
    var here := ReportOf(q, stmts, vars, x);
    if here.Fail? {
      return Fail(here.fault);
    }
    r := Ok(out + (if here.value.Some? then [Finding(x, here.value.value)] else []));
  }

  /** A prefix of findings before a partial result. */
  function Prepend(out: seq<Finding>, r: Result<(seq<Finding>, Glob)>): Result<(seq<Finding>, Glob)> {
    if r.Fail? then r else Ok((out + r.value.0, r.value.1))
  }

  /** `find_var_by_id` reads no body, so replacing one body changes no lookup. */
  lemma {:induction false} FindVarByIdFrame(stmts: seq<Stmt>, vars: seq<Var>, f: nat, b: seq<nat>, k: nat, vid: int)
    requires WellFormed(stmts, vars) && f < |stmts| && k < |stmts|
    requires WellFormed(stmts[f := stmts[f].(body := b)], vars)
    ensures FindVarById(stmts[f := stmts[f].(body := b)], vars, k, vid) == FindVarById(stmts, vars, k, vid)
    decreases k
  {
    var s := stmts[f := stmts[f].(body := b)];
    assert s[k].variables == stmts[k].variables && s[k].parent == stmts[k].parent;
    if stmts[k].parent.Some? {
      FindVarByIdFrame(stmts, vars, f, b, stmts[k].parent.value, vid);
    }
  }

  /** `find_referenced_var` of a statement after `f` reads nothing of `f` but its
      variables, so replacing the body of `f` does not change it. */
  lemma {:induction false} ReferencedFrame(stmts: seq<Stmt>, vars: seq<Var>, f: nat, b: seq<nat>, x: nat)
    requires WellFormed(stmts, vars) && f < x < |stmts|
    requires WellFormed(stmts[f := stmts[f].(body := b)], vars)
    ensures FindReferencedVars(stmts[f := stmts[f].(body := b)], vars, x) == FindReferencedVars(stmts, vars, x)
    decreases |stmts| - x, 1
  {
    var s := stmts[f := stmts[f].(body := b)];
    assert s[x] == stmts[x];
    forall ref | ref in stmts[x].references
      ensures FindVarById(s, vars, x, ref) == FindVarById(stmts, vars, x, ref) {
      FindVarByIdFrame(stmts, vars, f, b, x, ref);
    }
    assert RefsHere(s, vars, x) == RefsHere(stmts, vars, x);
    ReferencedOfFrame(stmts, vars, f, b, stmts[x].body, x);
  }

  lemma {:induction false} ReferencedOfFrame(stmts: seq<Stmt>, vars: seq<Var>, f: nat, b: seq<nat>, cs: seq<nat>, k: nat)
    requires WellFormed(stmts, vars) && f < k < |stmts|
    requires WellFormed(stmts[f := stmts[f].(body := b)], vars)
    requires forall i :: 0 <= i < |cs| ==> k < cs[i] < |stmts|
    ensures FindReferencedVarsOf(stmts[f := stmts[f].(body := b)], vars, cs, k) == FindReferencedVarsOf(stmts, vars, cs, k)
    decreases |stmts| - k, 0, |cs|
  {
    if cs != [] {
      ReferencedFrame(stmts, vars, f, b, cs[0]);
      ReferencedOfFrame(stmts, vars, f, b, cs[1..], k);
    }
  }

  /** A visit of a statement after `f` sees the same thing whatever the body of `f`. */
  lemma VisitFrame(stmts: seq<Stmt>, vars: seq<Var>, globals: seq<Var>, f: nat, b: seq<nat>, x: nat, glob: Glob)
    requires WellFormed(stmts, vars) && f < x < |stmts|
    requires WellFormed(stmts[f := stmts[f].(body := b)], vars)
    ensures Visit(stmts[f := stmts[f].(body := b)], vars, globals, x, glob) == Visit(stmts, vars, globals, x, glob)
  {
    var s := stmts[f := stmts[f].(body := b)];
    assert s[x] == stmts[x];
    if |stmts[x].body| > 1 {
      assert s[stmts[x].body[0]] == stmts[stmts[x].body[0]];
    }
    assert Assigns(s, x) == Assigns(stmts, x);
    if Assigns(stmts, x) {
      ReferencedFrame(stmts, vars, f, b, x);
      var g := AfterRefs(globals, stmts[x].references, glob);
      assert AfterRefs(globals, s[x].references, glob) == g;
    }
  }

  /** The state of the work-queue loop of one function: the arena is the one at the start
      but for the body of `f`, which is the queue; what is still to come from the queue,
      after the findings so far, is the result for the whole function. */
  predicate DrainProgress(s0: seq<Stmt>, vars: seq<Var>, globals: seq<Var>, f: nat, stmts: seq<Stmt>,
                          out: seq<Finding>, glob: Glob, total: Result<(seq<Finding>, Glob)>)
  {
    && WellFormed(s0, vars) && f < |s0| && |stmts| == |s0|
    && stmts == s0[f := s0[f].(body := stmts[f].body)]
    && (forall i :: 0 <= i < |stmts[f].body| ==> f < stmts[f].body[i] < |s0|)
    && Prepend(out, Continue(s0, vars, globals, Bfs(s0, stmts[f].body), glob)) == total
  }

  /** Popping the head of the queue: the head is a statement after `f`, and visiting it
      on the arena with the shortened queue is visiting it on the arena at the start. */
  lemma DrainPop(s0: seq<Stmt>, vars: seq<Var>, globals: seq<Var>, f: nat, stmts: seq<Stmt>,
                 out: seq<Finding>, glob: Glob, total: Result<(seq<Finding>, Glob)>)
    requires DrainProgress(s0, vars, globals, f, stmts, out, glob, total) && stmts[f].body != []
    ensures var q := stmts[f].body;
            var popped := s0[f := s0[f].(body := q[1..])];
            && f < q[0] < |s0| && WellFormed(popped, vars) && popped[q[0]] == s0[q[0]]
            && (forall i :: 0 <= i < |s0[q[0]].body| ==> f < s0[q[0]].body[i] < |s0|)
            && Visit(popped, vars, globals, q[0], glob) == Visit(s0, vars, globals, q[0], glob)
  {
    var q := stmts[f].body;
    SetBodyValid(s0, vars, [], f, q[1..]);
    VisitFrame(s0, vars, globals, f, q[1..], q[0], glob);
  }

  /** A visit of the head that fails is the result of the whole function. */
  lemma DrainFails(s0: seq<Stmt>, vars: seq<Var>, globals: seq<Var>, f: nat, stmts: seq<Stmt>,
                   out: seq<Finding>, glob: Glob, total: Result<(seq<Finding>, Glob)>)
    requires DrainProgress(s0, vars, globals, f, stmts, out, glob, total) && stmts[f].body != []
    requires Visit(s0, vars, globals, stmts[f].body[0], glob).Fail?
    ensures total == Visit(s0, vars, globals, stmts[f].body[0], glob)
  {
    var q := stmts[f].body;
    SizeStep(s0, q);
    assert Bfs(s0, q) == [q[0]] + Bfs(s0, q[1..] + s0[q[0]].body);
  }

  /** One turn of the work-queue loop: a visit of the head that succeeds leaves the loop
      state with the head's children queued after the rest. */
  lemma DrainStep(s0: seq<Stmt>, vars: seq<Var>, globals: seq<Var>, f: nat, stmts: seq<Stmt>,
                  out: seq<Finding>, glob: Glob, total: Result<(seq<Finding>, Glob)>)
    requires DrainProgress(s0, vars, globals, f, stmts, out, glob, total) && stmts[f].body != []
    requires Visit(s0, vars, globals, stmts[f].body[0], glob).Ok?
    ensures var q := stmts[f].body;
            var v := Visit(s0, vars, globals, q[0], glob);
            DrainProgress(s0, vars, globals, f, s0[f := s0[f].(body := q[1..] + s0[q[0]].body)],
                          out + v.value.0, v.value.1, total)
  {
    var q := stmts[f].body;
    var x := q[0];
    SizeStep(s0, q);
    var next := q[1..] + s0[x].body;
    var after := s0[f := s0[f].(body := next)];
    assert after[f].body == next;
    assert Bfs(s0, q) == [x] + Bfs(s0, next);
    var v := Visit(s0, vars, globals, x, glob);
    var rest := Continue(s0, vars, globals, Bfs(s0, next), v.value.1);
    if rest.Ok? {
      AppendAssoc(out, v.value.0, rest.value.0);
    }
  }

  /** The `for ref in stmt.references` loop of `find_global_updates`, with its `break`:
      it stops at the first reference that names a global. The references form a set
      whose iteration order is unspecified, so the scan runs over the globals instead and
      asks whether each one is referenced; which reference is met first does not matter. */
  method GlobAfterRefs(globals: seq<Var>, refs: set<int>, glob: Glob) returns (g: Glob)
    ensures g == AfterRefs(globals, refs, glob)
  {
    if refs == {} {
      return glob;
    }
    var i := 0;
    while i < |globals|
      invariant 0 <= i <= |globals|
      invariant forall j :: 0 <= j < i ==> globals[j].id !in refs
    {
      if globals[i].id in refs {
        assert GlobalById(globals, globals[i].id).Some?;
        return Bound(true);
      }
      i := i + 1;
    }
    return Bound(false);
  }

  /** The body of the work-queue loop for one popped statement. */
  method VisitStmt(stmts: seq<Stmt>, vars: seq<Var>, globals: seq<Var>, x: nat, glob: Glob)
    returns (r: Result<(seq<Finding>, Glob)>)
    requires WellFormed(stmts, vars) && x < |stmts|
    ensures r == Visit(stmts, vars, globals, x, glob)
  {
    var body := stmts[x].body;
    if |body| > 1 && stmts[body[0]].kind == "DeclRefExpr" {
      var g := GlobAfterRefs(globals, stmts[x].references, glob);
      if g.Unbound? {
        return Fail(UnboundLocal("glob"));
      }
      if g.found {
        return Ok(([Finding(x, FindReferencedVars(stmts, vars, x))], g));
      }
      return Ok(([], g));
    }
    r := Ok(([], glob));
  }

  /** The `while len(queue) > 0` loop of `find_global_updates` for the function `f`. The
      queue is the function's own body list (`queue = func.body` aliases it), so popping
      and extending the queue rewrites that body, which ends up empty. The result is the
      visits in breadth-first order, threading `glob`. */
  method DrainQueue(s0: seq<Stmt>, vars: seq<Var>, globals: seq<Var>, f: nat, glob: Glob)
    returns (r: Result<(seq<Finding>, Glob)>, st: seq<Stmt>)
    requires WellFormed(s0, vars) && f < |s0|
    ensures r == Continue(s0, vars, globals, Bfs(s0, s0[f].body), glob)
    ensures r.Ok? ==> st == s0[f := s0[f].(body := [])]
  {
    st := s0;
    var out: seq<Finding> := [];
    var g := glob;
    ghost var total := Continue(s0, vars, globals, Bfs(s0, s0[f].body), glob);
    assert st == s0[f := s0[f].(body := st[f].body)];
    assert Prepend(out, total) == total by {
      if total.Ok? {
        assert [] + total.value.0 == total.value.0;
      }
    }
    while st[f].body != []
      invariant DrainProgress(s0, vars, globals, f, st, out, g, total)
      decreases SizeOf(s0, st[f].body, 0)
    {
      var v;
      v, st := DrainOnce(s0, vars, globals, f, st, out, g, total);
      if v.Fail? {
        return v, st;
      }
      out, g := out + v.value.0, v.value.1;
    }
    assert out + [] == out;
    r := Ok((out, g));
  }

  /** One turn of the work-queue loop, on the loop state. */
  method DrainOnce(s0: seq<Stmt>, vars: seq<Var>, globals: seq<Var>, f: nat, st: seq<Stmt>,
                   out: seq<Finding>, g: Glob, ghost total: Result<(seq<Finding>, Glob)>)
    returns (v: Result<(seq<Finding>, Glob)>, st': seq<Stmt>)
    requires DrainProgress(s0, vars, globals, f, st, out, g, total) && st[f].body != []
    ensures v.Fail? ==> total == v
    ensures v.Ok? ==> DrainProgress(s0, vars, globals, f, st', out + v.value.0, v.value.1, total) &&
                      SizeOf(s0, st'[f].body, 0) < SizeOf(s0, st[f].body, 0)
  {
    DrainPop(s0, vars, globals, f, st, out, g, total);
    ghost var q := st[f].body;
    SizeStep(s0, q);
    if Visit(s0, vars, globals, q[0], g).Fail? {
      DrainFails(s0, vars, globals, f, st, out, g, total);
    } else {
      DrainStep(s0, vars, globals, f, st, out, g, total);
    }
    ReplaceBody(s0, st, f, q[1..]);
    ReplaceBody(s0, st, f, q[1..] + s0[q[0]].body);
    v, st' := DrainTurn(st, vars, globals, f, g);
  }

  /** An arena that differs from `s0` only in the body of `f` is `s0` again once that
      body is replaced. */
  lemma ReplaceBody(s0: seq<Stmt>, st: seq<Stmt>, f: nat, b: seq<nat>)
    requires f < |s0| && |st| == |s0| && st == s0[f := s0[f].(body := st[f].body)]
    ensures st[f := st[f].(body := b)] == s0[f := s0[f].(body := b)]
    ensures forall k :: 0 <= k < |s0| && k != f ==> st[k] == s0[k]
  {
  }

  /** One turn of the work-queue loop of function `f`: `stmt = queue.pop(0)`, the visit of
      `stmt` on the arena as the pop left it, and `queue += stmt.body`. */
  method DrainTurn(stmts: seq<Stmt>, vars: seq<Var>, globals: seq<Var>, f: nat, glob: Glob)
    returns (v: Result<(seq<Finding>, Glob)>, st: seq<Stmt>)
    requires WellFormed(stmts, vars) && f < |stmts| && stmts[f].body != []
    requires forall i :: 0 <= i < |stmts[f].body| ==> f < stmts[f].body[i] < |stmts|
    ensures var q := stmts[f].body;
            var popped := stmts[f := stmts[f].(body := q[1..])];
            && WellFormed(popped, vars)
            && v == Visit(popped, vars, globals, q[0], glob)
            && (v.Ok? ==> st == stmts[f := stmts[f].(body := q[1..] + stmts[q[0]].body)])
  {
    var x := stmts[f].body[0];
    st := stmts[f := stmts[f].(body := stmts[f].body[1..])];
    SetBodyValid(stmts, vars, [], f, st[f].body);
    v := VisitStmt(st, vars, globals, x, glob);
    if v.Fail? {
      return;
    }
    assert st[x] == stmts[x];
    st := st[f := st[f].(body := st[f].body + st[x].body)];
  }

  /** The state of the loop over the functions: the arena at the start with the bodies of
      the functions done so far emptied; the findings so far before what the remaining
      functions give is the result for the whole search. */
  predicate UpdatesProgress(s0: seq<Stmt>, vars: seq<Var>, globals: seq<Var>, fs: seq<nat>, i: nat,
                            stmts: seq<Stmt>, out: seq<Finding>, glob: Glob, total: Result<(seq<Finding>, Glob)>)
  {
    && WellFormed(s0, vars) && AllFunctions(s0, fs) && i <= |fs|
    && stmts == Emptied(s0, fs[..i]) && WellFormed(stmts, vars) && AllFunctions(stmts, fs)
    && Prepend(out, UpdatesFrom(stmts, vars, globals, fs, i, glob)) == total
  }

  /** One function of `find_global_updates`: a fault of its queue is the fault of the
      whole search; otherwise the emptied arena and the findings carry the loop on. */
  lemma UpdatesStep(s0: seq<Stmt>, vars: seq<Var>, globals: seq<Var>, fs: seq<nat>, i: nat,
                    stmts: seq<Stmt>, out: seq<Finding>, glob: Glob, total: Result<(seq<Finding>, Glob)>,
                    here: Result<(seq<Finding>, Glob)>, next: seq<Stmt>)
    requires UpdatesProgress(s0, vars, globals, fs, i, stmts, out, glob, total) && i < |fs|
    requires here == Continue(stmts, vars, globals, Bfs(stmts, stmts[fs[i]].body), glob)
    requires here.Ok? ==> next == stmts[fs[i] := stmts[fs[i]].(body := [])]
    ensures here.Fail? ==> total == Fail(here.fault)
    ensures here.Ok? ==> UpdatesProgress(s0, vars, globals, fs, i + 1, next, out + here.value.0, here.value.1, total)
  {
    if here.Ok? {
      var f := fs[i];
      SetBodyValid(stmts, vars, fs, f, []);
      assert fs[..i + 1][..i] == fs[..i];
      var rest := UpdatesFrom(next, vars, globals, fs, i + 1, here.value.1);
      if rest.Ok? {
        AppendAssoc(out, here.value.0, rest.value.0);
      }
    }
  }

  // ---------------------------------------------------------------- loading

  /** The loop of `AST.__init__` over the root's children keeping those with `is_function`. */
  method CollectFunctions(stmts: seq<Stmt>, xs: seq<nat>) returns (fs: seq<nat>)
    requires forall i :: 0 <= i < |xs| ==> xs[i] < |stmts|
    ensures fs == FunctionsIn(stmts, xs)
  {
    fs := [];
    var i := 0;
    while i < |xs|
      invariant 0 <= i <= |xs|
      invariant fs == FunctionsIn(stmts, xs[..i])
    {
      FunctionsInStep(stmts, xs, i);
      if stmts[xs[i]].isFunction {
        fs := fs + [xs[i]];
      }
      i := i + 1;
    }
    TakeAll(xs);
  }

  /** The top-level nodes of the dump that become statements: the children with `kind`. */
  function TopNodes(json: Node): (r: seq<Node>)
    ensures forall j :: 0 <= j < |r| ==> r[j].kind.Some?
  {
    if json.inner.Inner? then WithKind(json.inner.elems) else []
  }

  /** The nodes among `ns` that `is_function` accepts, in order. */
  function FunctionNodes(ns: seq<Node>): seq<Node> {
    if ns == [] then []
    else FunctionNodes(ns[..|ns| - 1]) + (if FunctionFlag(ns[|ns| - 1]) == Ok(true) then [ns[|ns| - 1]] else [])
  }

  /** The VarDecl nodes among `ns`, in order. */
  function VarDeclsOf(ns: seq<Node>): seq<Node> {
    if ns == [] then [] else (if HasKind(ns[0], "VarDecl") then [ns[0]] else []) + VarDeclsOf(ns[1..])
  }

  /** The statements `xs` were built from the nodes `ns`, one each, in order. */
  predicate Mirrors(stmts: seq<Stmt>, xs: seq<nat>, ns: seq<Node>) {
    && |xs| == |ns|
    && forall j :: 0 <= j < |xs| ==> xs[j] < |stmts| && stmts[xs[j]].node == ns[j] && FromNode(stmts[xs[j]])
  }

  /** The functions among statements built from `ns` are the statements of the nodes
      `is_function` accepts, in order. */
  lemma {:induction false} FunctionsInNodes(stmts: seq<Stmt>, xs: seq<nat>, ns: seq<Node>)
    requires Mirrors(stmts, xs, ns)
    ensures |FunctionsIn(stmts, xs)| == |FunctionNodes(ns)|
    ensures forall j :: 0 <= j < |FunctionNodes(ns)| ==>
              FunctionsIn(stmts, xs)[j] < |stmts| && stmts[FunctionsIn(stmts, xs)[j]].node == FunctionNodes(ns)[j]
  {
    if xs != [] {
      var n := |xs| - 1;
      assert Mirrors(stmts, xs[..n], ns[..n]);
      FunctionsInNodes(stmts, xs[..n], ns[..n]);
      assert stmts[xs[n]].isFunction <==> FunctionFlag(ns[n]) == Ok(true);
    }
  }

  /** The VarDecl statements among statements built from `ns` are the statements of its
      VarDecl nodes, in order. */
  lemma {:induction false} FilterVarDecls(stmts: seq<Stmt>, xs: seq<nat>, ns: seq<Node>)
    requires Mirrors(stmts, xs, ns)
    ensures Mirrors(stmts, Filter(stmts, xs, ["VarDecl"]), VarDeclsOf(ns))
  {
    if xs != [] {
      assert Mirrors(stmts, xs[1..], ns[1..]);
      FilterVarDecls(stmts, xs[1..], ns[1..]);
      assert stmts[xs[0]].kind in ["VarDecl"] <==> HasKind(ns[0], "VarDecl");
    }
  }

  /** In an arena whose root body was built from the dump's top-level nodes, the
      globals `parse_globals` reads are the records of its VarDecl nodes and the functions
      are the statements of the nodes `is_function` accepts, both in order. */
  lemma TopLevelOfDump(json: Node, stmts: seq<Stmt>, globals: seq<Var>)
    requires |stmts| > 0 && Mirrors(stmts, stmts[0].body, TopNodes(json))
    requires Globals(stmts, Filter(stmts, stmts[0].body, ["VarDecl"])) == Ok(globals)
    ensures var gs := VarDeclsOf(TopNodes(json));
            && |globals| == |gs|
            && forall j :: 0 <= j < |gs| ==> ParseVariable(None, gs[j], ParseLoc(gs[j]).start) == Ok(globals[j])
    ensures var fs := FunctionNodes(TopNodes(json));
            && |FunctionsIn(stmts, stmts[0].body)| == |fs|
            && forall j :: 0 <= j < |fs| ==>
                 FunctionsIn(stmts, stmts[0].body)[j] < |stmts| && stmts[FunctionsIn(stmts, stmts[0].body)[j]].node == fs[j]
  {
    FunctionsInNodes(stmts, stmts[0].body, TopNodes(json));
    FilterVarDecls(stmts, stmts[0].body, TopNodes(json));
    GlobalsPointwise(stmts, Filter(stmts, stmts[0].body, ["VarDecl"]));
  }

  /** In an arena whose root body was built from the dump's top-level nodes, reading
      the globals succeeds exactly when every top-level VarDecl node parses at its own
      line, and otherwise fails with the fault of the first one that does not. */
  lemma GlobalsOfDump(json: Node, stmts: seq<Stmt>)
    requires |stmts| > 0 && Mirrors(stmts, stmts[0].body, TopNodes(json))
    ensures var ds, gs := Filter(stmts, stmts[0].body, ["VarDecl"]), VarDeclsOf(TopNodes(json));
            var g := Globals(stmts, ds);
            && (g.Ok? <==> forall j :: 0 <= j < |gs| ==> ParseVariable(None, gs[j], ParseLoc(gs[j]).start).Ok?)
            && (g.Fail? ==> exists i :: 0 <= i < |gs| && ParseVariable(None, gs[i], ParseLoc(gs[i]).start) == Fail(g.fault) &&
                                        forall j :: 0 <= j < i ==> ParseVariable(None, gs[j], ParseLoc(gs[j]).start).Ok?)
  {
    var ds, gs := Filter(stmts, stmts[0].body, ["VarDecl"]), VarDeclsOf(TopNodes(json));
    FilterVarDecls(stmts, stmts[0].body, TopNodes(json));
    GlobalsPointwise(stmts, ds);
    MirroredGlobals(stmts, ds, gs);
  }

  /** A global read off a statement built from a node is that node's record. */
  lemma MirroredGlobals(stmts: seq<Stmt>, ds: seq<nat>, gs: seq<Node>)
    requires Mirrors(stmts, ds, gs)
    ensures forall j :: 0 <= j < |ds| ==> GlobalOf(stmts, ds[j]) == ParseVariable(None, gs[j], ParseLoc(gs[j]).start)
  {
  }

  /** `Statement.parse(None, json_ast)` in a fresh arena: the statements and variables
      of the whole dump, the top node first, or None for a top node without `kind`. */
  method ParseDump(json: Node) returns (r: Result<Option<(seq<Stmt>, seq<Var>)>>)
    ensures json.kind.None? ==> r == Ok(None)
    ensures json.kind.Some? && r.Ok? ==> r.value.Some?
    ensures json.kind.Some? && NewStmt(None, json).Fail? ==> r == Fail(NewStmt(None, json).fault)
    ensures r.Ok? <==> ParseOk(None, None, json)
    ensures r.Ok? && r.value.Some? ==>
              var (stmts, vars) := r.value.value;
              WellFormed(stmts, vars) && |stmts| > 0 && stmts[0].node == json && stmts[0].parent.None?
    ensures r.Ok? && r.value.Some? ==>
              var (stmts, vars) := r.value.value;
              && NewStmt(None, json).Ok?
              && stmts[0] == NewStmt(None, json).value.(body := stmts[0].body, variables := stmts[0].variables,
                                                         references := stmts[0].references)
              && Mirrors(stmts, stmts[0].body, TopNodes(json))
              && (forall j :: 0 <= j < |stmts[0].body| ==> stmts[stmts[0].body[j]].parent == Some(0))
              && stmts[0].references == (if json.inner.Inner? then RefIds(json.inner.elems) else {})
    ensures r.Ok? && r.value.Some? ==>
              var (stmts, vars) := r.value.value;
              var decl := Declared(NewStmt(None, json).value, None, None, if json.inner.Inner? then json.inner.elems else []);
              && decl.Ok? && |stmts[0].variables| == |decl.value|
              && forall j :: 0 <= j < |stmts[0].variables| ==>
                   stmts[0].variables[j] < |vars| && VarEvolves(decl.value[j], vars[stmts[0].variables[j]])
  {
    var arena := new Arena();
    var parsed := arena.Parse(None, json);
    if parsed.Fail? {
      return Fail(parsed.fault);
    }
    if parsed.value.None? {
      return Ok(None);
    }
    r := Ok(Some((arena.stmts, arena.vars)));
  }

  /** `AST.__init__`: parses the whole dump; a dump whose top node has no `kind` parses to
      None, and `parse_globals` on None raises. The globals are the variables of the
      top-level VarDecls and the functions the top-level statements with `is_function`,
      both in source order. */
  method Load(json: Node) returns (r: Result<SourceAst>)
    ensures json.kind.None? ==> r == Fail(NoneAttribute("parse_globals"))
    ensures json.kind.Some? && NewStmt(None, json).Fail? ==> r == Fail(NewStmt(None, json).fault)
    ensures r.Ok? ==> fresh(r.value) && r.value.Valid() && r.value.root == 0
    ensures r.Ok? ==> r.value.stmts[0].node == json && r.value.stmts[0].parent.None?
    ensures json.kind.Some? && !ParseOk(None, None, json) ==> r.Fail?
    ensures json.kind.Some? && ParseOk(None, None, json) ==>
              var gs := VarDeclsOf(TopNodes(json));
              && (r.Ok? <==> forall j :: 0 <= j < |gs| ==> ParseVariable(None, gs[j], ParseLoc(gs[j]).start).Ok?)
              && (r.Fail? ==> exists i :: 0 <= i < |gs| && ParseVariable(None, gs[i], ParseLoc(gs[i]).start) == Fail(r.fault) &&
                                          forall j :: 0 <= j < i ==> ParseVariable(None, gs[j], ParseLoc(gs[j]).start).Ok?)
    ensures r.Ok? ==> var a := r.value;
                      && Globals(a.stmts, Filter(a.stmts, a.stmts[0].body, ["VarDecl"])) == Ok(a.globals)
                      && a.functions == FunctionsIn(a.stmts, a.stmts[0].body)
    ensures r.Ok? ==> var a, gs := r.value, VarDeclsOf(TopNodes(json));
                      && |a.globals| == |gs|
                      && forall j :: 0 <= j < |gs| ==> ParseVariable(None, gs[j], ParseLoc(gs[j]).start) == Ok(a.globals[j])
    ensures r.Ok? ==> var a, fs := r.value, FunctionNodes(TopNodes(json));
                      && |a.functions| == |fs|
                      && forall j :: 0 <= j < |fs| ==> a.stmts[a.functions[j]].node == fs[j]
  {
    var parsed := ParseDump(json);
    if parsed.Fail? {
      return Fail(parsed.fault);
    }
    if parsed.value.None? {
      return Fail(NoneAttribute("parse_globals"));
    }
    var (stmts, vars) := parsed.value.value;
    var globals := ParseGlobals(stmts, 0);
    GlobalsOfDump(json, stmts);
    if globals.Fail? {
      return Fail(globals.fault);
    }
    var functions := CollectFunctions(stmts, stmts[0].body);
    FunctionsInExactly(stmts, stmts[0].body);
    TopLevelOfDump(json, stmts, globals.value);
    var a := new SourceAst(stmts, vars, 0, globals.value, functions);
    r := Ok(a);
  }

  // ---------------------------------------------------------------- the AST object

  /** `AST`: the statement and variable arenas, the root statement, the global variables
      and the defined functions (the top-level statements with `is_function`). */
  class SourceAst {
    var stmts: seq<Stmt>
    var vars: seq<Var>
    var root: nat
    var globals: seq<Var>
    var functions: seq<nat>

    ghost predicate Valid()
      reads this
    {
      WellFormed(stmts, vars) && root < |stmts| && AllFunctions(stmts, functions)
    }

    constructor (stmts: seq<Stmt>, vars: seq<Var>, root: nat, globals: seq<Var>, functions: seq<nat>)
      ensures this.stmts == stmts && this.vars == vars && this.root == root
      ensures this.globals == globals && this.functions == functions
    {
      this.stmts := stmts;
      this.vars := vars;
      this.root := root;
      this.globals := globals;
      this.functions := functions;
    }

    /** `find_live_vars_at`: climbs from the statement at the line to the root, collecting
        each variable initialised before the line. */
    method FindLiveVarsAt(line: int) returns (r: Result<Option<set<nat>>>)
      requires Valid()
      ensures r == LiveVarsAt(stmts, vars, functions, line)
    {
      var f := FunctionAt(stmts, functions, line);
      if f.None? {
        return Ok(None);
      }
      var s := FindStatementAt(stmts, f.value, line);
      if s.None? {
        return Ok(None);
      }
      ghost var total := Chain(stmts, vars, s, line);
      var out: set<nat> := {};
      var current: Option<nat> := s;
      ThenUnit(total);
      while current.Some?
        invariant current.Some? ==> current.value < |stmts|
        invariant Then(Ok(out), Chain(stmts, vars, current, line)) == total
        decreases if current.Some? then current.value + 1 else 0
      {
        var k := current.value;
        ChainStep(stmts, vars, k, line);
        var here := LiveDeclaredOn(k, line);
        if here.Fail? {
          return Fail(here.fault);
        }
        ThenCons(out, here, Chain(stmts, vars, stmts[k].parent, line));
        out := out + here.value;
        current := stmts[k].parent;
      }
      r := Ok(Some(out));
    }

    /** The inner loop of `find_live_vars_at`: the variables of statement `k` that are
        initialised before the line. */
    method LiveDeclaredOn(k: nat, line: int) returns (r: Result<set<nat>>)
      requires Valid() && k < |stmts|
      ensures forall i :: 0 <= i < |stmts[k].variables| ==> stmts[k].variables[i] < |vars|
      ensures r == LiveIn(vars, stmts[k].variables, line)
    {
      var vs := stmts[k].variables;
      assert forall j :: 0 <= j < |vs| ==> vs[j] < |vars|;
      var out: set<nat> := {};
      var i := 0;
      ThenUnit(LiveIn(vars, vs, line));
      while i < |vs|
        invariant 0 <= i <= |vs|
        invariant Then(Ok(out), LiveIn(vars, vs[i..], line)) == LiveIn(vars, vs, line)
      {
        var v := vs[i];
        LiveInStep(vars, vs, i, line);
        ghost var out0 := out;
        if vars[v].isInit {
          if vars[v].initLoc.None? {
            return Fail(TypeError("init_loc < line"));
          }
          if vars[v].initLoc.value < line {
            out := out + {v};
          }
        }
        assert out == out0 + LiveHere(vars, v, line).value;
        ThenCons(out0, LiveHere(vars, v, line), LiveIn(vars, vs[i + 1..], line));
        i := i + 1;
      }
      assert vs[|vs|..] == [];
      r := Ok(out);
    }

    /** `find_used_vars_at`: the variables referred to under the outermost statement that
        starts at the line, climbing from the statement found there. */
    method FindUsedVarsAt(line: int) returns (r: Result<Option<set<nat>>>)
      requires Valid()
      ensures r == UsedVarsAt(stmts, vars, functions, line)
    {
      var f := FunctionAt(stmts, functions, line);
      if f.None? {
        return Ok(None);
      }
      var s := FindStatementAt(stmts, f.value, line);
      if s.None? {
        return Ok(None);
      }
      var current: nat := s.value;
      while true
        invariant current < |stmts| && OuterAt(stmts, current, line) == OuterAt(stmts, s.value, line)
        decreases current
      {
        var p := stmts[current].parent;
        if p.None? {
          return Fail(NoneAttribute("current.parent.loc"));
        }
        if stmts[p.value].loc.start != Some(line) {
          break;
        }
        current := p.value;
      }
      r := Ok(Some(FindReferencedVars(stmts, vars, current)));
    }

    /** `find_global_updates`: the assignments whose target is a global, function by
        function, each function's statements in breadth-first order. As in the source the
        work queue is each function's body list, so the functions' bodies are emptied. */
    method FindGlobalUpdates() returns (r: Result<seq<Finding>>)
      requires Valid()
      modifies this
      ensures r == GlobalUpdates(old(stmts), old(vars), old(globals), old(functions))
      ensures vars == old(vars) && root == old(root) && globals == old(globals) && functions == old(functions)
      ensures r.Ok? ==> stmts == Emptied(old(stmts), functions) && Valid()
    {
      var st, vs, gl, fs := stmts, vars, globals, functions;
      ghost var total := UpdatesFrom(st, vs, gl, fs, 0, Unbound);
      var out: seq<Finding> := [];
      var g := Unbound;
      var i := 0;
      assert UpdatesProgress(st, vs, gl, fs, 0, st, out, g, total) by {
        assert fs[..0] == [];
        if total.Ok? {
          assert [] + total.value.0 == total.value.0;
        }
      }
      ghost var s0 := st;
      while i < |fs|
        invariant 0 <= i <= |fs|
        invariant UpdatesProgress(s0, vs, gl, fs, i, st, out, g, total)
        invariant unchanged(this)
      {
        var here, next := DrainQueue(st, vs, gl, fs[i], g);
        UpdatesStep(s0, vs, gl, fs, i, st, out, g, total, here, next);
        if here.Fail? {
          stmts := next;
          return Fail(here.fault);
        }
        st, out, g := next, out + here.value.0, here.value.1;
        i := i + 1;
      }
      assert fs[..i] == fs;
      assert out + [] == out;
      stmts := st;
      r := Ok(out);
    }

    /** `find_conditionals`, `find_calls`, `find_loops`: for each function in order, the
        findings for the statements its search returns, in preorder. */
    method Find(q: Query) returns (r: Result<seq<Finding>>)
      requires Valid()
      ensures r == Searches(q, stmts, vars, functions)
      ensures r == Reports(q, stmts, vars, Candidates(q, stmts, functions))
    {
      SearchesFlatten(q, stmts, vars, functions);
      r := SearchFunctions(q, stmts, vars, functions);
    }
  }

  /** The live variables of the chain from `current` up to the root. */
  function Chain(stmts: seq<Stmt>, vars: seq<Var>, current: Option<nat>, line: int): Result<set<nat>>
    requires WellFormed(stmts, vars) && (current.Some? ==> current.value < |stmts|)
  {
    if current.None? then Ok({}) else LiveAlong(stmts, vars, Ancestors(stmts, current.value), line)
  }

  lemma ChainStep(stmts: seq<Stmt>, vars: seq<Var>, k: nat, line: int)
    requires WellFormed(stmts, vars) && k < |stmts|
    ensures forall i :: 0 <= i < |stmts[k].variables| ==> stmts[k].variables[i] < |vars|
    ensures Chain(stmts, vars, Some(k), line) ==
              Then(LiveIn(vars, stmts[k].variables, line), Chain(stmts, vars, stmts[k].parent, line))
  {
    var xs := Ancestors(stmts, k);
    assert xs[0] == k;
    if stmts[k].parent.Some? {
      assert xs[1..] == Ancestors(stmts, stmts[k].parent.value);
    } else {
      assert xs == [k];
      assert LiveAlong(stmts, vars, xs[1..], line) == Ok({});
    }
  }

  lemma ThenUnit(a: Result<set<nat>>)
    ensures Then(Ok({}), a) == a && Then(a, Ok({})) == a
  {
    if a.Ok? {
      assert {} + a.value == a.value && a.value + {} == a.value;
    }
  }

  lemma ThenCons(out: set<nat>, h: Result<set<nat>>, rest: Result<set<nat>>)
    requires h.Ok?
    ensures Then(Ok(out), Then(h, rest)) == Then(Ok(out + h.value), rest)
  {
    if rest.Ok? {
      assert out + (h.value + rest.value) == (out + h.value) + rest.value;
    }
  }

  lemma LiveInStep(vars: seq<Var>, vs: seq<nat>, i: nat, line: int)
    requires i < |vs| && forall j :: 0 <= j < |vs| ==> vs[j] < |vars|
    ensures LiveIn(vars, vs[i..], line) == Then(LiveHere(vars, vs[i], line), LiveIn(vars, vs[i + 1..], line))
  {
    assert vs[i..][0] == vs[i] && vs[i..][1..] == vs[i + 1..];
  }

  // ---------------------------------------------------------------- sequence facts

  lemma TakeSnoc<T>(s: seq<T>, j: nat)
    requires j < |s|
    ensures s[..j + 1] == s[..j] + [s[j]]
  {
  }

  lemma PermuteHead<T>(x: T, b: seq<T>, f1: seq<T>, f2: seq<T>)
    requires multiset(b) == multiset(f1 + f2)
    ensures multiset([x] + b) == multiset(([x] + f2) + f1)
  {
  }

  lemma TakeAll<T>(s: seq<T>)
    ensures s[..|s|] == s
  {
  }

  lemma SplitLast<T>(xs: seq<T>, ys: seq<T>)
    requires ys != []
    ensures ys == ys[..|ys| - 1] + [ys[|ys| - 1]]
    ensures xs + ys == (xs + ys[..|ys| - 1]) + [ys[|ys| - 1]]
  {
  }
}
