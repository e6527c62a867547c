/** Statements of the analysed C source (`Statement` in the AST parser), kept in an arena:
    a statement is addressed by its index in a `seq<Stmt>`, `parent` and `body` hold
    indices, and `variables` holds indices into the variable arena. A parent is always
    built before its children, so a parent's index is smaller than its children's; the
    recursive queries below descend on that order. */
module Statement {
  import opened Common
  import opened PyStr
  import opened ClangJson
  import opened Variables

  /** `StatementLocation`: the first and last source line of a statement, if known. */
  datatype Loc = Loc(start: Option<int>, end: Option<int>)

  datatype Stmt = Stmt(
    id: int,
    kind: string,
    parent: Option<nat>,
    name: Option<string>,
    ty: Option<string>,
    loc: Loc,
    body: seq<nat>,
    variables: seq<nat>,
    references: set<int>,
    isFunction: bool,
    node: Node)

  // ---------------------------------------------------------------- locations

  function LineOf(l: Option<SrcLoc>): Option<int> {
    if l.Some? then l.value.line else None
  }

  function ExpansionLineOf(l: Option<SrcLoc>): Option<int> {
    if l.Some? && l.value.expansionLoc.Some? then l.value.expansionLoc.value.line else None
  }

  function Begin(n: Node): Option<SrcLoc> {
    if n.range.Some? then Some(n.range.value.begin) else None
  }

  function End(n: Node): Option<SrcLoc> {
    if n.range.Some? then Some(n.range.value.end) else None
  }

  /** The first line that is known, in order of preference. */
  function FirstSome(cs: seq<Option<int>>): Option<int> {
    if cs == [] then None else if cs[0].Some? then cs[0] else FirstSome(cs[1..])
  }

  lemma FirstSomeOfFour(a: Option<int>, b: Option<int>, c: Option<int>, d: Option<int>)
    ensures FirstSome([a, b, c, d]) == if a.Some? then a else if b.Some? then b else if c.Some? then c else d
  {
    assert [a, b, c, d][1..] == [b, c, d];
    assert [b, c, d][1..] == [c, d];
    FirstSomeOfTwo(c, d);
  }

  lemma FirstSomeOfTwo(a: Option<int>, b: Option<int>)
    ensures FirstSome([a, b]) == if a.Some? then a else b
  {
    assert [a, b][1..] == [b];
    assert [b][1..] == [];
    assert FirstSome([b]) == b;
  }

  /** Where a start line may come from, most preferred first. */
  function StartCandidates(n: Node): seq<Option<int>> {
    [LineOf(n.loc), ExpansionLineOf(n.loc), LineOf(Begin(n)), ExpansionLineOf(Begin(n))]
  }

  /** Where an end line may come from, most preferred first. */
  function EndCandidates(n: Node): seq<Option<int>> {
    [LineOf(End(n)), ExpansionLineOf(End(n))]
  }

  /** `__parse_loc`: the start line is the first known of `loc.line`,
      `loc.expansionLoc.line`, `range.begin.line`, `range.begin.expansionLoc.line`; the
      end line is `range.end.line`, else `range.end.expansionLoc.line`. */
  function ParseLoc(n: Node): Loc {
    var start0 :=
      if n.loc.None? then None
      else if n.loc.value.line.Some? then n.loc.value.line
      else if n.loc.value.expansionLoc.Some? && n.loc.value.expansionLoc.value.line.Some? then n.loc.value.expansionLoc.value.line
      else None;
    if n.range.None? then Loc(start0, None)
    else
      var b := n.range.value.begin;
      var e := n.range.value.end;
      var start1 := if start0.None? then b.line else start0;
      var start2 := if start1.None? && b.expansionLoc.Some? then b.expansionLoc.value.line else start1;
      var end1 := e.line;
      var end2 := if end1.None? && e.expansionLoc.Some? then e.expansionLoc.value.line else end1;
      Loc(start2, end2)
  }

  /** The parsed lines are the first known candidates; no `range` leaves the end line
      unknown, and neither `loc` nor `range` leaves both unknown. */
  lemma ParseLocPicks(n: Node)
    ensures ParseLoc(n).start == FirstSome(StartCandidates(n))
    ensures ParseLoc(n).end == FirstSome(EndCandidates(n))
    ensures n.range.None? ==> ParseLoc(n).end.None?
    ensures n.loc.None? && n.range.None? ==> ParseLoc(n).start.None?
  {
    FirstSomeOfFour(LineOf(n.loc), ExpansionLineOf(n.loc), LineOf(Begin(n)), ExpansionLineOf(Begin(n)));
    FirstSomeOfTwo(LineOf(End(n)), ExpansionLineOf(End(n)));
  }

  // ---------------------------------------------------------------- functions

  /** A FunctionDecl written in the file under analysis: its `loc` is not from an included
      file, an `expansionLoc` (if any) has a line and is not from an included file, and it
      is not `extern`. */
  predicate DefinedHere(n: Node) {
    && HasKind(n, "FunctionDecl")
    && n.loc.Some?
    && !n.loc.value.includedFrom
    && (n.loc.value.expansionLoc.Some? ==>
          n.loc.value.expansionLoc.value.line.Some? && !n.loc.value.expansionLoc.value.includedFrom)
    && n.storageClass != Some("extern")
  }

  /** The `is_function` flag: set for a FunctionDecl defined here, then cleared unless both
      the start and the end line resolve. A FunctionDecl without `loc` raises KeyError. */
  function FunctionFlag(n: Node): Result<bool> {
    if !HasKind(n, "FunctionDecl") then Ok(false)
    else if n.loc.None? then Fail(KeyError("loc"))
    else
      var l := n.loc.value;
      var flag :=
        if l.includedFrom then false
        else
          var f1 := if l.expansionLoc.Some? && l.expansionLoc.value.line.None? then false else true;
          var f2 := if l.expansionLoc.Some? && l.expansionLoc.value.includedFrom then false else f1;
          if n.storageClass.Some? && n.storageClass.value == "extern" then false else f2;
      var loc := ParseLoc(n);
      Ok(flag && loc.start.Some? && loc.end.Some?)
  }

  /** Only a FunctionDecl can be a function, and it is one exactly when it is defined
      here and both of its lines resolve; a FunctionDecl without `loc` raises. */
  lemma FunctionFlagIff(n: Node)
    ensures FunctionFlag(n).Fail? <==> HasKind(n, "FunctionDecl") && n.loc.None?
    ensures FunctionFlag(n).Ok? ==> (FunctionFlag(n).value <==> DefinedHere(n) && ParseLoc(n).start.Some? && ParseLoc(n).end.Some?)
    ensures !HasKind(n, "FunctionDecl") ==> FunctionFlag(n) == Ok(false)
  {
  }

  // ---------------------------------------------------------------- the arena

  /** Parents come before children, and a function always has both lines. */
  predicate Tree(stmts: seq<Stmt>) {
    && (forall k :: 0 <= k < |stmts| && stmts[k].parent.Some? ==> stmts[k].parent.value < k)
    && (forall k, j :: 0 <= k < |stmts| && 0 <= j < |stmts[k].body| ==> k < stmts[k].body[j] < |stmts|)
    && (forall k :: 0 <= k < |stmts| && stmts[k].isFunction ==> stmts[k].loc.start.Some? && stmts[k].loc.end.Some?)
  }

  /** Every variable handle of every statement is in the variable arena. */
  predicate VarsIn(stmts: seq<Stmt>, nvars: nat) {
    forall k, j :: 0 <= k < |stmts| && 0 <= j < |stmts[k].variables| ==> stmts[k].variables[j] < nvars
  }

  predicate WellFormed(stmts: seq<Stmt>, vars: seq<Var>) {
    Tree(stmts) && VarsIn(stmts, |vars|)
  }

  /** The statement and its ancestors, innermost first, ending at the root. */
  function Ancestors(stmts: seq<Stmt>, k: nat): (r: seq<nat>)
    requires Tree(stmts) && k < |stmts|
    ensures |r| >= 1 && r[0] == k
    ensures forall i :: 0 <= i < |r| ==> r[i] < |stmts|
    ensures stmts[r[|r| - 1]].parent.None?
    decreases k
  {
    if stmts[k].parent.None? then [k] else [k] + Ancestors(stmts, stmts[k].parent.value)
  }

  // ---------------------------------------------------------------- variable lookup

  /** The first of `vs` whose variable has id `vid`. */
  function FirstVarWithId(vars: seq<Var>, vs: seq<nat>, vid: int): (r: Option<nat>)
    requires forall i :: 0 <= i < |vs| ==> vs[i] < |vars|
    ensures r.Some? ==> r.value in vs && vars[r.value].id == vid
    ensures r.None? <==> forall v :: v in vs ==> vars[v].id != vid
  {
    if vs == [] then None
    else if vars[vs[0]].id == vid then Some(vs[0])
    else FirstVarWithId(vars, vs[1..], vid)
  }

  /** `find_var_by_id`: the statement's own variables first, then its parent's, up to the
      root; global variables are not consulted. */
  function FindVarById(stmts: seq<Stmt>, vars: seq<Var>, k: nat, vid: int): (r: Option<nat>)
    requires WellFormed(stmts, vars) && k < |stmts|
    ensures r.Some? ==> r.value < |vars| && vars[r.value].id == vid
    ensures r.Some? ==> exists a :: a in Ancestors(stmts, k) && r.value in stmts[a].variables
    ensures r.None? <==> forall a, v :: a in Ancestors(stmts, k) && v in stmts[a].variables ==> vars[v].id != vid
    ensures FirstVarWithId(vars, stmts[k].variables, vid).Some? ==> r == FirstVarWithId(vars, stmts[k].variables, vid)
    decreases k
  {
    match FirstVarWithId(vars, stmts[k].variables, vid)
    case Some(v) => assert Ancestors(stmts, k)[0] == k; Some(v)
    case None =>
      if stmts[k].parent.None? then None
      else
        var up := FindVarById(stmts, vars, stmts[k].parent.value, vid);
        assert Ancestors(stmts, k) == [k] + Ancestors(stmts, stmts[k].parent.value);
        up
  }

  /** `find_valid_loc`: the location of the nearest statement, from `k` upwards, that has
      a start line; the root never qualifies, so a chain that only reaches a line at the
      root gives nothing. */
  function FindValidLoc(stmts: seq<Stmt>, k: nat): (r: Option<Loc>)
    requires Tree(stmts) && k < |stmts|
    ensures r.Some? <==> exists a :: a in Ancestors(stmts, k) && stmts[a].parent.Some? && stmts[a].loc.start.Some?
    ensures r.Some? ==> r.value.start.Some?
    ensures r.Some? ==> exists a :: a in Ancestors(stmts, k) && stmts[a].parent.Some? && r.value == stmts[a].loc
    ensures stmts[k].parent.Some? && stmts[k].loc.start.Some? ==> r == Some(stmts[k].loc)
    decreases k
  {
    if stmts[k].parent.None? then None
    else if stmts[k].loc.start.None? then
      assert Ancestors(stmts, k) == [k] + Ancestors(stmts, stmts[k].parent.value);
      FindValidLoc(stmts, stmts[k].parent.value)
    else
      assert k in Ancestors(stmts, k);
      Some(stmts[k].loc)
  }

  /** The effect of a DeclRefExpr child of statement `k` on the variables: the referenced
      variable, if it resolves and is not yet initialised, becomes initialised at the line
      of the nearest located statement, when there is one. */
  function MarkReference(stmts: seq<Stmt>, vars: seq<Var>, k: nat, refId: int): (r: seq<Var>)
    requires WellFormed(stmts, vars) && k < |stmts|
    ensures |r| == |vars|
    ensures forall v :: 0 <= v < |vars| && (vars[v].isInit || FindVarById(stmts, vars, k, refId) != Some(v)) ==> r[v] == vars[v]
    ensures FindVarById(stmts, vars, k, refId).None? || FindValidLoc(stmts, k).None? ==> r == vars
    ensures var f := FindVarById(stmts, vars, k, refId);
            f.Some? && !vars[f.value].isInit && FindValidLoc(stmts, k).Some? ==>
              r[f.value].isInit && r[f.value].initLoc.Some? &&
              r[f.value] == vars[f.value].(isInit := true, initLoc := FindValidLoc(stmts, k).value.start)
  {
    var found := FindVarById(stmts, vars, k, refId);
    if found.Some? && !vars[found.value].isInit then
      match FindValidLoc(stmts, k)
      case None => vars
      case Some(l) => vars[found.value := vars[found.value].(isInit := true, initLoc := l.start)]
    else vars
  }

  /** How the variables evolve while a tree is parsed: the arena only grows, and an
      existing variable changes only by becoming initialised at a known line. */
  predicate VarsEvolve(before: seq<Var>, after: seq<Var>) {
    && |before| <= |after|
    && forall v :: 0 <= v < |before| ==> VarEvolves(before[v], after[v])
  }

  /** One variable record evolves: it stays, or an uninitialised one becomes initialised
      at a known line; its id, name, type and decl line never change. */
  predicate VarEvolves(before: Var, after: Var) {
    after == before ||
    (!before.isInit && after.isInit && after.initLoc.Some? &&
     after == before.(isInit := true, initLoc := after.initLoc))
  }

  lemma VarsEvolveTrans(a: seq<Var>, b: seq<Var>, c: seq<Var>)
    requires VarsEvolve(a, b) && VarsEvolve(b, c)
    ensures VarsEvolve(a, c)
  {
  }

  /** Marking a reference is one such step; an initialised variable is never touched. */
  lemma MarkReferenceEvolves(stmts: seq<Stmt>, vars: seq<Var>, k: nat, refId: int)
    requires WellFormed(stmts, vars) && k < |stmts|
    ensures VarsEvolve(vars, MarkReference(stmts, vars, k, refId))
  {
  }

  // ---------------------------------------------------------------- declaration lines

  /** The line a VarDecl of a DeclStmt child of statement `k` is declared at: the
      DeclStmt's own start line, else `k`'s, else the start line of `k`'s parent. No other
      ancestor is consulted. With the DeclStmt's line unknown, a root `k` makes the
      program read an attribute of None, and three unknown lines make it loop forever. */
  function DeclLineSpec(stmts: seq<Stmt>, k: nat, declStmtLine: Option<int>): Result<int>
    requires Tree(stmts) && k < |stmts|
  {
    DeclLineAt(stmts[k], StartOf(stmts, stmts[k].parent), declStmtLine)
  }

  /** The start line of statement `p`, if there is one. */
  function StartOf(stmts: seq<Stmt>, p: Option<nat>): Option<int>
    requires p.Some? ==> p.value < |stmts|
  {
    if p.Some? then stmts[p.value].loc.start else None
  }

  /** `DeclLineSpec` read off the statement `s` itself, whose parent starts at line
      `parentStart`. */
  function DeclLineAt(s: Stmt, parentStart: Option<int>, declStmtLine: Option<int>): Result<int> {
    if declStmtLine.Some? then Ok(declStmtLine.value)
    else if s.parent.None? then Fail(NoneAttribute("current.loc"))
    else if s.loc.start.Some? then Ok(s.loc.start.value)
    else if parentStart.Some? then Ok(parentStart.value)
    else Fail(NonTermination("DeclStmt location loop"))
  }

  /** Only three facts decide the declaration line: the start line of `k`, its parent
      and the parent's start line; everything else in the arena is irrelevant. */
  lemma DeclLineLocal(a: seq<Stmt>, b: seq<Stmt>, k: nat, d: Option<int>)
    requires Tree(a) && Tree(b) && k < |a| && k < |b|
    requires a[k].loc.start == b[k].loc.start && a[k].parent == b[k].parent
    requires a[k].parent.Some? ==> a[a[k].parent.value].loc.start == b[a[k].parent.value].loc.start
    ensures DeclLineSpec(a, k, d) == DeclLineSpec(b, k, d)
  {
  }

  /** A line found for a declaration is always one of the three candidate lines. */
  lemma DeclLineIsCandidate(stmts: seq<Stmt>, k: nat, d: Option<int>)
    requires Tree(stmts) && k < |stmts|
    requires DeclLineSpec(stmts, k, d).Ok?
    ensures var l := Some(DeclLineSpec(stmts, k, d).value);
            l == d || l == stmts[k].loc.start ||
            (stmts[k].parent.Some? && l == stmts[stmts[k].parent.value].loc.start)
  {
  }

  /** The `while` loop of the DeclStmt case: it alternates between the statement and its
      parent, so its state stops changing after two rounds. */
  method DeclLine(stmts: seq<Stmt>, k: nat, declStmtLine: Option<int>) returns (r: Result<int>)
    requires Tree(stmts) && k < |stmts|
    ensures r == DeclLineSpec(stmts, k, declStmtLine)
  {
    var loc := declStmtLine;
    var current: Option<nat> := Some(k);
    var steps := 0;
    while loc.None? || current.None?
      invariant steps <= 2
      invariant current.Some? ==> current.value < |stmts|
      invariant steps == 0 ==> loc == declStmtLine && current == Some(k)
      invariant steps >= 1 ==> declStmtLine.None? && current == stmts[k].parent
      invariant steps == 1 ==> loc == stmts[k].loc.start
      invariant steps == 2 ==> stmts[k].loc.start.None? && current.Some? && loc == stmts[current.value].loc.start && loc.Some?
      decreases 2 - steps
    {
      if current.None? {
        return Fail(NoneAttribute("current.loc"));
      }
      var before := (loc, current);
      // `current.loc` is never None here: it is set as soon as a statement is built
      loc := stmts[current.value].loc.start;
      current := stmts[k].parent;
      if (loc, current) == before {
        return Fail(NonTermination("DeclStmt location loop"));
      }
      steps := steps + 1;
    }
    return Ok(loc.value);
  }

  /** The line of a ParmVarDecl child of statement `s`, whose variables so far are
      `declared`: its own, or, inside a function and when it has none, the previous
      variable's decl line, or the function's start line for the first one. */
  function ParamLine(s: Stmt, declared: seq<Var>, own: Option<int>): (r: Option<int>)
    ensures own.Some? || !s.isFunction ==> r == own
    ensures own.None? && s.isFunction && declared != [] ==> r == declared[|declared| - 1].declLoc
    ensures own.None? && s.isFunction && declared == [] ==> r == s.loc.start
  {
    if s.isFunction && own.None? then
      if |declared| > 0 then declared[|declared| - 1].declLoc else s.loc.start
    else own
  }

  /** Inside a function with a start line whose variables all have a decl line, every
      parameter gets one. */
  lemma ParamLineDefined(s: Stmt, declared: seq<Var>, own: Option<int>)
    requires s.isFunction && s.loc.start.Some?
    requires forall j :: 0 <= j < |declared| ==> declared[j].declLoc.Some?
    ensures ParamLine(s, declared, own).Some?
  {
    if own.None? && |declared| > 0 {
      assert declared[|declared| - 1].declLoc.Some?;
    }
  }

  /** The variable records of statement `k`, in order. */
  function DeclaredOf(stmts: seq<Stmt>, vars: seq<Var>, k: nat): (r: seq<Var>)
    requires WellFormed(stmts, vars) && k < |stmts|
    ensures |r| == |stmts[k].variables|
    ensures forall j :: 0 <= j < |r| ==> r[j] == vars[stmts[k].variables[j]]
  {
    seq(|stmts[k].variables|, j requires 0 <= j < |stmts[k].variables| => vars[stmts[k].variables[j]])
  }

  // ---------------------------------------------------------------- traversals

  /** The statements of the subtree at `k`, each parent before its children (preorder). */
  function Preorder(stmts: seq<Stmt>, k: nat): (r: seq<nat>)
    requires Tree(stmts) && k < |stmts|
    ensures |r| >= 1 && r[0] == k
    ensures forall i :: 0 <= i < |r| ==> k <= r[i] < |stmts|
    decreases |stmts| - k, 1
  {
    [k] + PreorderOf(stmts, stmts[k].body, k)
  }

  function PreorderOf(stmts: seq<Stmt>, cs: seq<nat>, k: nat): (r: seq<nat>)
    requires Tree(stmts) && k < |stmts|
    requires forall i :: 0 <= i < |cs| ==> k < cs[i] < |stmts|
    ensures forall i :: 0 <= i < |r| ==> k < r[i] < |stmts|
    decreases |stmts| - k, 0, |cs|
  {
    if cs == [] then [] else Preorder(stmts, cs[0]) + PreorderOf(stmts, cs[1..], k)
  }

  /** The statements of the subtree at `k`, each parent after its children (post-order). */
  function Postorder(stmts: seq<Stmt>, k: nat): (r: seq<nat>)
    requires Tree(stmts) && k < |stmts|
    ensures forall i :: 0 <= i < |r| ==> k <= r[i] < |stmts|
    decreases |stmts| - k, 1
  {
    PostorderOf(stmts, stmts[k].body, k) + [k]
  }

  function PostorderOf(stmts: seq<Stmt>, cs: seq<nat>, k: nat): (r: seq<nat>)
    requires Tree(stmts) && k < |stmts|
    requires forall i :: 0 <= i < |cs| ==> k < cs[i] < |stmts|
    ensures forall i :: 0 <= i < |r| ==> k < r[i] < |stmts|
    decreases |stmts| - k, 0, |cs|
  {
    if cs == [] then [] else Postorder(stmts, cs[0]) + PostorderOf(stmts, cs[1..], k)
  }

  /** The statements of `xs` whose kind is admitted, in order. */
  function Filter(stmts: seq<Stmt>, xs: seq<nat>, admitted: seq<string>): (r: seq<nat>)
    requires forall i :: 0 <= i < |xs| ==> xs[i] < |stmts|
    ensures forall i :: 0 <= i < |r| ==> r[i] in xs && r[i] < |stmts| && stmts[r[i]].kind in admitted
  {
    if xs == [] then []
    else (if stmts[xs[0]].kind in admitted then [xs[0]] else []) + Filter(stmts, xs[1..], admitted)
  }

  lemma {:induction false} FilterAppend(stmts: seq<Stmt>, xs: seq<nat>, ys: seq<nat>, admitted: seq<string>)
    requires forall i :: 0 <= i < |xs| ==> xs[i] < |stmts|
    requires forall i :: 0 <= i < |ys| ==> ys[i] < |stmts|
    ensures Filter(stmts, xs + ys, admitted) == Filter(stmts, xs, admitted) + Filter(stmts, ys, admitted)
  {
    if xs != [] {
      assert (xs + ys)[1..] == xs[1..] + ys;
      FilterAppend(stmts, xs[1..], ys, admitted);
    } else {
      assert xs + ys == ys;
    }
  }

  /** Filtering a growing prefix adds at most the next element. */
  lemma FilterStep(stmts: seq<Stmt>, xs: seq<nat>, i: nat, admitted: seq<string>)
    requires i < |xs| && forall j :: 0 <= j < |xs| ==> xs[j] < |stmts|
    ensures Filter(stmts, xs[..i + 1], admitted) ==
              Filter(stmts, xs[..i], admitted) + (if stmts[xs[i]].kind in admitted then [xs[i]] else [])
    ensures Filter(stmts, xs, admitted) == Filter(stmts, xs[..i + 1], admitted) + Filter(stmts, xs[i + 1..], admitted)
  {
    SplitAt(xs, i);
    FilterAppend(stmts, xs[..i], [xs[i]], admitted);
    assert [xs[i]][1..] == [];
    FilterAppend(stmts, xs[..i + 1], xs[i + 1..], admitted);
  }

  lemma SplitAt<T>(xs: seq<T>, i: nat)
    requires i < |xs|
    ensures xs[..i + 1] == xs[..i] + [xs[i]] && xs == xs[..i + 1] + xs[i + 1..]
  {
  }

  /** `__find`: the statements of the subtree whose kind is admitted, parents first. */
  function FindKinds(stmts: seq<Stmt>, k: nat, admitted: seq<string>): (r: seq<nat>)
    requires Tree(stmts) && k < |stmts|
    ensures forall i :: 0 <= i < |r| ==> k <= r[i] < |stmts| && stmts[r[i]].kind in admitted
    decreases |stmts| - k, 1
  {
    (if stmts[k].kind in admitted then [k] else []) + FindKindsOf(stmts, stmts[k].body, k, admitted)
  }

  function FindKindsOf(stmts: seq<Stmt>, cs: seq<nat>, k: nat, admitted: seq<string>): (r: seq<nat>)
    requires Tree(stmts) && k < |stmts|
    requires forall i :: 0 <= i < |cs| ==> k < cs[i] < |stmts|
    ensures forall i :: 0 <= i < |r| ==> k < r[i] < |stmts| && stmts[r[i]].kind in admitted
    decreases |stmts| - k, 0, |cs|
  {
    if cs == [] then [] else FindKinds(stmts, cs[0], admitted) + FindKindsOf(stmts, cs[1..], k, admitted)
  }

  /** `__find` returns exactly the admitted statements of the subtree, in preorder. */
  lemma {:induction false} FindKindsIsFilteredPreorder(stmts: seq<Stmt>, k: nat, admitted: seq<string>)
    requires Tree(stmts) && k < |stmts|
    ensures FindKinds(stmts, k, admitted) == Filter(stmts, Preorder(stmts, k), admitted)
    decreases |stmts| - k, 1
  {
    var rest := PreorderOf(stmts, stmts[k].body, k);
    FindKindsOfIsFiltered(stmts, stmts[k].body, k, admitted);
    FilterAppend(stmts, [k], rest, admitted);
    assert Filter(stmts, [k], admitted) == (if stmts[k].kind in admitted then [k] else []) by {
      assert [k][1..] == [];
    }
  }

  lemma {:induction false} FindKindsOfIsFiltered(stmts: seq<Stmt>, cs: seq<nat>, k: nat, admitted: seq<string>)
    requires Tree(stmts) && k < |stmts|
    requires forall i :: 0 <= i < |cs| ==> k < cs[i] < |stmts|
    ensures FindKindsOf(stmts, cs, k, admitted) == Filter(stmts, PreorderOf(stmts, cs, k), admitted)
    decreases |stmts| - k, 0, |cs|
  {
    if cs != [] {
      FindKindsIsFilteredPreorder(stmts, cs[0], admitted);
      FindKindsOfIsFiltered(stmts, cs[1..], k, admitted);
      FilterAppend(stmts, Preorder(stmts, cs[0]), PreorderOf(stmts, cs[1..], k), admitted);
    }
  }

  /** The variables that the references of statement `k` itself resolve to. */
  function RefsHere(stmts: seq<Stmt>, vars: seq<Var>, k: nat): set<nat>
    requires WellFormed(stmts, vars) && k < |stmts|
  {
    set ref | ref in stmts[k].references && FindVarById(stmts, vars, k, ref).Some? :: FindVarById(stmts, vars, k, ref).value
  }

  /** The union of `RefsHere` over a list of statements. */
  function UnionRefs(stmts: seq<Stmt>, vars: seq<Var>, xs: seq<nat>): set<nat>
    requires WellFormed(stmts, vars)
    requires forall i :: 0 <= i < |xs| ==> xs[i] < |stmts|
  {
    if xs == [] then {} else RefsHere(stmts, vars, xs[0]) + UnionRefs(stmts, vars, xs[1..])
  }

  lemma {:induction false} UnionRefsAppend(stmts: seq<Stmt>, vars: seq<Var>, xs: seq<nat>, ys: seq<nat>)
    requires WellFormed(stmts, vars)
    requires forall i :: 0 <= i < |xs| ==> xs[i] < |stmts|
    requires forall i :: 0 <= i < |ys| ==> ys[i] < |stmts|
    ensures UnionRefs(stmts, vars, xs + ys) == UnionRefs(stmts, vars, xs) + UnionRefs(stmts, vars, ys)
  {
    if xs != [] {
      assert (xs + ys)[1..] == xs[1..] + ys;
      UnionRefsAppend(stmts, vars, xs[1..], ys);
    } else {
      assert xs + ys == ys;
    }
  }

  /** `find_referenced_var`: the variables that the references anywhere in the subtree
      resolve to, each reference resolved from the statement that holds it. */
  function FindReferencedVars(stmts: seq<Stmt>, vars: seq<Var>, k: nat): (r: set<nat>)
    requires WellFormed(stmts, vars) && k < |stmts|
    ensures forall v :: v in r ==> v < |vars|
    decreases |stmts| - k, 1
  {
    RefsHere(stmts, vars, k) + FindReferencedVarsOf(stmts, vars, stmts[k].body, k)
  }

  function FindReferencedVarsOf(stmts: seq<Stmt>, vars: seq<Var>, cs: seq<nat>, k: nat): (r: set<nat>)
    requires WellFormed(stmts, vars) && k < |stmts|
    requires forall i :: 0 <= i < |cs| ==> k < cs[i] < |stmts|
    ensures forall v :: v in r ==> v < |vars|
    decreases |stmts| - k, 0, |cs|
  {
    if cs == [] then {}
    else FindReferencedVars(stmts, vars, cs[0]) + FindReferencedVarsOf(stmts, vars, cs[1..], k)
  }

  /** `find_referenced_var` is the union, over the whole subtree, of what each statement's
      own references resolve to. */
  lemma {:induction false} FindReferencedVarsIsUnion(stmts: seq<Stmt>, vars: seq<Var>, k: nat)
    requires WellFormed(stmts, vars) && k < |stmts|
    ensures FindReferencedVars(stmts, vars, k) == UnionRefs(stmts, vars, Preorder(stmts, k))
    decreases |stmts| - k, 1
  {
    FindReferencedVarsOfIsUnion(stmts, vars, stmts[k].body, k);
    UnionRefsAppend(stmts, vars, [k], PreorderOf(stmts, stmts[k].body, k));
    assert UnionRefs(stmts, vars, [k]) == RefsHere(stmts, vars, k) by {
      assert [k][1..] == [];
    }
  }

  lemma {:induction false} FindReferencedVarsOfIsUnion(stmts: seq<Stmt>, vars: seq<Var>, cs: seq<nat>, k: nat)
    requires WellFormed(stmts, vars) && k < |stmts|
    requires forall i :: 0 <= i < |cs| ==> k < cs[i] < |stmts|
    ensures FindReferencedVarsOf(stmts, vars, cs, k) == UnionRefs(stmts, vars, PreorderOf(stmts, cs, k))
    decreases |stmts| - k, 0, |cs|
  {
    if cs != [] {
      FindReferencedVarsIsUnion(stmts, vars, cs[0]);
      FindReferencedVarsOfIsUnion(stmts, vars, cs[1..], k);
      UnionRefsAppend(stmts, vars, Preorder(stmts, cs[0]), PreorderOf(stmts, cs[1..], k));
    }
  }

  // ---------------------------------------------------------------- statement at a line

  /** The first of `xs` that starts at `line`. */
  function FirstStartingAt(stmts: seq<Stmt>, xs: seq<nat>, line: int): (r: Option<nat>)
    requires forall i :: 0 <= i < |xs| ==> xs[i] < |stmts|
    ensures r.Some? ==> r.value in xs && stmts[r.value].loc.start == Some(line)
    ensures r.None? <==> forall i :: 0 <= i < |xs| ==> stmts[xs[i]].loc.start != Some(line)
  {
    if xs == [] then None
    else if stmts[xs[0]].loc.start == Some(line) then Some(xs[0])
    else FirstStartingAt(stmts, xs[1..], line)
  }

  lemma {:induction false} FirstStartingAtAppend(stmts: seq<Stmt>, xs: seq<nat>, ys: seq<nat>, line: int)
    requires forall i :: 0 <= i < |xs| ==> xs[i] < |stmts|
    requires forall i :: 0 <= i < |ys| ==> ys[i] < |stmts|
    ensures FirstStartingAt(stmts, xs + ys, line) ==
              if FirstStartingAt(stmts, xs, line).Some? then FirstStartingAt(stmts, xs, line)
              else FirstStartingAt(stmts, ys, line)
  {
    if xs != [] {
      assert (xs + ys)[1..] == xs[1..] + ys;
      FirstStartingAtAppend(stmts, xs[1..], ys, line);
    } else {
      assert xs + ys == ys;
    }
  }

  /** `__find_statement_at_exact`: children first, then the statement itself. */
  function FindExact(stmts: seq<Stmt>, k: nat, line: int): (r: Option<nat>)
    requires Tree(stmts) && k < |stmts|
    ensures r.Some? ==> k <= r.value < |stmts| && stmts[r.value].loc.start == Some(line)
    decreases |stmts| - k, 1
  {
    match FindExactOf(stmts, stmts[k].body, k, line)
    case Some(s) => Some(s)
    case None => if stmts[k].loc.start == Some(line) then Some(k) else None
  }

  function FindExactOf(stmts: seq<Stmt>, cs: seq<nat>, k: nat, line: int): (r: Option<nat>)
    requires Tree(stmts) && k < |stmts|
    requires forall i :: 0 <= i < |cs| ==> k < cs[i] < |stmts|
    ensures r.Some? ==> k < r.value < |stmts| && stmts[r.value].loc.start == Some(line)
    decreases |stmts| - k, 0, |cs|
  {
    if cs == [] then None
    else
      var s := FindExact(stmts, cs[0], line);
      if s.Some? && stmts[s.value].loc.start == Some(line) then s
      else FindExactOf(stmts, cs[1..], k, line)
  }

  /** The exact search returns the first statement of the subtree, in post-order, that
      starts at the line, and nothing when no statement of the subtree starts there. */
  lemma {:induction false} FindExactIsFirstInPostorder(stmts: seq<Stmt>, k: nat, line: int)
    requires Tree(stmts) && k < |stmts|
    ensures FindExact(stmts, k, line) == FirstStartingAt(stmts, Postorder(stmts, k), line)
    decreases |stmts| - k, 1
  {
    FindExactOfIsFirst(stmts, stmts[k].body, k, line);
    FirstStartingAtAppend(stmts, PostorderOf(stmts, stmts[k].body, k), [k], line);
    assert [k][1..] == [];
  }

  lemma {:induction false} FindExactOfIsFirst(stmts: seq<Stmt>, cs: seq<nat>, k: nat, line: int)
    requires Tree(stmts) && k < |stmts|
    requires forall i :: 0 <= i < |cs| ==> k < cs[i] < |stmts|
    ensures FindExactOf(stmts, cs, k, line) == FirstStartingAt(stmts, PostorderOf(stmts, cs, k), line)
    decreases |stmts| - k, 0, |cs|
  {
    if cs != [] {
      FindExactIsFirstInPostorder(stmts, cs[0], line);
      FindExactOfIsFirst(stmts, cs[1..], k, line);
      FirstStartingAtAppend(stmts, Postorder(stmts, cs[0]), PostorderOf(stmts, cs[1..], k), line);
    }
  }

  /** A location whose two lines are both set (and, as Python truth values, non-zero)
      and enclose `line`. */
  predicate Spans(l: Loc, line: int) {
    && l.start.Some? && l.start.value != 0
    && l.end.Some? && l.end.value != 0
    && l.start.value <= line <= l.end.value
  }

  /** The first of `cs` whose location spans `line`. */
  function FirstSpanning(stmts: seq<Stmt>, cs: seq<nat>, line: int): (r: Option<nat>)
    requires forall i :: 0 <= i < |cs| ==> cs[i] < |stmts|
    ensures r.Some? ==> r.value in cs && Spans(stmts[r.value].loc, line)
    ensures r.None? <==> forall i :: 0 <= i < |cs| ==> !Spans(stmts[cs[i]].loc, line)
  {
    if cs == [] then None
    else if Spans(stmts[cs[0]].loc, line) then Some(cs[0])
    else FirstSpanning(stmts, cs[1..], line)
  }

  /** `__find_statement_at_inrange`: descend into the first child spanning the line; stop
      at a statement none of whose children spans it. */
  function FindInRange(stmts: seq<Stmt>, k: nat, line: int): (r: Option<nat>)
    requires Tree(stmts) && k < |stmts|
    ensures r.Some? ==> k <= r.value < |stmts| && Spans(stmts[r.value].loc, line)
    ensures r.Some? ==> FirstSpanning(stmts, stmts[r.value].body, line).None?
    ensures r.None? <==> !Spans(stmts[k].loc, line) && FirstSpanning(stmts, stmts[k].body, line).None?
    decreases |stmts| - k
  {
    match FirstSpanning(stmts, stmts[k].body, line)
    case Some(c) => FindInRange(stmts, c, line)
    case None => if Spans(stmts[k].loc, line) then Some(k) else None
  }

  /** `find_statement_at`: the exact search, falling back to the range search. */
  function FindStatementAt(stmts: seq<Stmt>, k: nat, line: int): (r: Option<nat>)
    requires Tree(stmts) && k < |stmts|
    ensures r.Some? ==> k <= r.value < |stmts|
    ensures r.Some? ==> stmts[r.value].loc.start == Some(line) || Spans(stmts[r.value].loc, line)
    ensures r.None? <==> FindExact(stmts, k, line).None? && FindInRange(stmts, k, line).None?
  {
    var exact := FindExact(stmts, k, line);
    if exact.Some? then exact else FindInRange(stmts, k, line)
  }

  /** The statement found at a line is the first one, in post-order, starting at that
      line; only when there is none is the spanning statement taken. */
  lemma FindStatementAtPrefersExact(stmts: seq<Stmt>, k: nat, line: int)
    requires Tree(stmts) && k < |stmts|
    ensures FirstStartingAt(stmts, Postorder(stmts, k), line).Some? ==>
              FindStatementAt(stmts, k, line) == FirstStartingAt(stmts, Postorder(stmts, k), line)
    ensures FirstStartingAt(stmts, Postorder(stmts, k), line).None? ==>
              FindStatementAt(stmts, k, line) == FindInRange(stmts, k, line)
  {
    FindExactIsFirstInPostorder(stmts, k, line);
  }

  // ---------------------------------------------------------------- globals

  /** The global variable record of a top-level VarDecl statement. */
  function GlobalOf(stmts: seq<Stmt>, s: nat): Result<Var>
    requires s < |stmts|
  {
    ParseVariable(None, stmts[s].node, ParseLoc(stmts[s].node).start)
  }

  /** The global records of the statements `ds`, in order, or the fault of the first
      one that does not parse. */
  function Globals(stmts: seq<Stmt>, ds: seq<nat>): Result<seq<Var>>
    requires forall i :: 0 <= i < |ds| ==> ds[i] < |stmts|
  {
    if ds == [] then Ok([])
    else
      var init :- Globals(stmts, ds[..|ds| - 1]);
      var v :- GlobalOf(stmts, ds[|ds| - 1]);
      Ok(init + [v])
  }

  /** The records are the statements' own, one per statement; a fault is the fault of
      the first statement that does not parse. */
  lemma {:induction false} GlobalsPointwise(stmts: seq<Stmt>, ds: seq<nat>)
    requires forall i :: 0 <= i < |ds| ==> ds[i] < |stmts|
    ensures Globals(stmts, ds).Ok? <==> forall i :: 0 <= i < |ds| ==> GlobalOf(stmts, ds[i]).Ok?
    ensures Globals(stmts, ds).Ok? ==>
              |Globals(stmts, ds).value| == |ds| &&
              forall i :: 0 <= i < |ds| ==> GlobalOf(stmts, ds[i]) == Ok(Globals(stmts, ds).value[i])
    ensures Globals(stmts, ds).Fail? ==>
              exists i :: 0 <= i < |ds| && GlobalOf(stmts, ds[i]) == Fail(Globals(stmts, ds).fault) &&
                          forall j :: 0 <= j < i ==> GlobalOf(stmts, ds[j]).Ok?
  {
    if ds != [] {
      var front := ds[..|ds| - 1];
      GlobalsPointwise(stmts, front);
      assert forall i :: 0 <= i < |front| ==> ds[i] == front[i];
      if Globals(stmts, front).Fail? {
        var i :| 0 <= i < |front| && GlobalOf(stmts, front[i]) == Fail(Globals(stmts, front).fault) &&
                 forall j :: 0 <= j < i ==> GlobalOf(stmts, front[j]).Ok?;
        assert GlobalOf(stmts, ds[i]) == Fail(Globals(stmts, ds).fault);
      } else if GlobalOf(stmts, ds[|ds| - 1]).Fail? {
        assert GlobalOf(stmts, ds[|ds| - 1]) == Fail(Globals(stmts, ds).fault);
      }
    }
  }

  lemma GlobalsSnoc(stmts: seq<Stmt>, ds: seq<nat>, d: nat)
    requires forall i :: 0 <= i < |ds| ==> ds[i] < |stmts|
    requires d < |stmts|
    ensures Globals(stmts, ds).Fail? ==> Globals(stmts, ds + [d]) == Globals(stmts, ds)
    ensures Globals(stmts, ds).Ok? && GlobalOf(stmts, d).Fail? ==> Globals(stmts, ds + [d]) == Fail(GlobalOf(stmts, d).fault)
    ensures Globals(stmts, ds).Ok? && GlobalOf(stmts, d).Ok? ==>
              Globals(stmts, ds + [d]) == Ok(Globals(stmts, ds).value + [GlobalOf(stmts, d).value])
  {
    assert (ds + [d])[..|ds|] == ds;
  }

  lemma {:induction false} GlobalsFailExtends(stmts: seq<Stmt>, ds: seq<nat>, n: nat)
    requires forall i :: 0 <= i < |ds| ==> ds[i] < |stmts|
    requires n <= |ds| && Globals(stmts, ds[..n]).Fail?
    ensures Globals(stmts, ds) == Globals(stmts, ds[..n])
    decreases |ds| - n
  {
    if n == |ds| {
      assert ds[..n] == ds;
    } else {
      var front := ds[..|ds| - 1];
      assert front[..n] == ds[..n];
      GlobalsFailExtends(stmts, front, n);
    }
  }

  /** One more statement of the root's body: a VarDecl adds its record, or its fault
      is the fault of the whole; any other statement adds nothing. */
  lemma GlobalsNext(stmts: seq<Stmt>, body: seq<nat>, i: nat)
    requires i < |body| && forall j :: 0 <= j < |body| ==> body[j] < |stmts|
    requires Globals(stmts, Filter(stmts, body[..i], ["VarDecl"])).Ok?
    ensures var g, x := Globals(stmts, Filter(stmts, body[..i], ["VarDecl"])).value, body[i];
            var next := Globals(stmts, Filter(stmts, body[..i + 1], ["VarDecl"]));
            && (stmts[x].kind !in ["VarDecl"] ==> next == Ok(g))
            && (stmts[x].kind in ["VarDecl"] && GlobalOf(stmts, x).Ok? ==> next == Ok(g + [GlobalOf(stmts, x).value]))
            && (stmts[x].kind in ["VarDecl"] && GlobalOf(stmts, x).Fail? ==>
                  Globals(stmts, Filter(stmts, body, ["VarDecl"])) == Fail(GlobalOf(stmts, x).fault))
  {
    var before := Filter(stmts, body[..i], ["VarDecl"]);
    FilterStep(stmts, body, i, ["VarDecl"]);
    if stmts[body[i]].kind in ["VarDecl"] {
      GlobalsSnoc(stmts, before, body[i]);
      if GlobalOf(stmts, body[i]).Fail? {
        GlobalsPrefixFails(stmts, body, i + 1);
      }
    } else {
      assert before + [] == before;
    }
  }

  /** A fault among the first `n` statements of the body is the fault of the whole. */
  lemma GlobalsPrefixFails(stmts: seq<Stmt>, body: seq<nat>, n: nat)
    requires 0 < n <= |body| && forall j :: 0 <= j < |body| ==> body[j] < |stmts|
    requires Globals(stmts, Filter(stmts, body[..n], ["VarDecl"])).Fail?
    ensures Globals(stmts, Filter(stmts, body, ["VarDecl"])) == Globals(stmts, Filter(stmts, body[..n], ["VarDecl"]))
  {
    var all, pre := Filter(stmts, body, ["VarDecl"]), Filter(stmts, body[..n], ["VarDecl"]);
    FilterStep(stmts, body, n - 1, ["VarDecl"]);
    assert all[..|pre|] == pre;
    GlobalsFailExtends(stmts, all, |pre|);
  }

  /** `parse_globals`: a variable record for every VarDecl child of the root, with the
      decl line taken from the node's own location. */
  method ParseGlobals(stmts: seq<Stmt>, root: nat) returns (r: Result<seq<Var>>)
    requires Tree(stmts) && root < |stmts|
    ensures r == Globals(stmts, Filter(stmts, stmts[root].body, ["VarDecl"]))
  {
    var body := stmts[root].body;
    var out: seq<Var> := [];
    var i := 0;
    while i < |body|
      invariant 0 <= i <= |body|
      invariant Globals(stmts, Filter(stmts, body[..i], ["VarDecl"])) == Ok(out)
    {
      GlobalsNext(stmts, body, i);
      if stmts[body[i]].kind in ["VarDecl"] {
        var v := GlobalOf(stmts, body[i]);
        if v.Fail? {
          return Fail(v.fault);
        }
        out := out + [v.value];
      }
      i := i + 1;
    }
    assert body[..i] == body;
    return Ok(out);
  }

  // ---------------------------------------------------------------- building the tree

  /** The children that have a kind, in order: the ones that become statements. */
  function WithKind(cs: seq<Node>): (r: seq<Node>)
    ensures forall i :: 0 <= i < |r| ==> r[i].kind.Some?
  {
    if cs == [] then []
    else WithKind(cs[..|cs| - 1]) + (if cs[|cs| - 1].kind.Some? then [cs[|cs| - 1]] else [])
  }

  /** The VarDecl nodes among the children of a DeclStmt, in order. */
  function VarDeclNodes(cs: seq<Node>): (r: seq<Node>)
    ensures forall i :: 0 <= i < |r| ==> HasKind(r[i], "VarDecl")
  {
    if cs == [] then []
    else VarDeclNodes(cs[..|cs| - 1]) + (if HasKind(cs[|cs| - 1], "VarDecl") then [cs[|cs| - 1]] else [])
  }

  /** The id a DeclRefExpr child refers to, if it is one and its id reads as a number. */
  function RefIdOf(n: Node): set<int> {
    if HasKind(n, "DeclRefExpr") && n.referencedDeclId.Some? && PyHexInt(n.referencedDeclId.value).Some?
    then {PyHexInt(n.referencedDeclId.value).value}
    else {}
  }

  /** The ids referred to by the DeclRefExpr children. */
  function RefIds(cs: seq<Node>): set<int> {
    if cs == [] then {} else RefIds(cs[..|cs| - 1]) + RefIdOf(cs[|cs| - 1])
  }

  lemma WithKindStep(cs: seq<Node>, i: nat)
    requires i < |cs|
    ensures WithKind(cs[..i + 1]) == WithKind(cs[..i]) + (if cs[i].kind.Some? then [cs[i]] else [])
  {
    assert cs[..i + 1][..i] == cs[..i];
  }

  lemma VarDeclNodesStep(cs: seq<Node>, i: nat)
    requires i < |cs|
    ensures VarDeclNodes(cs[..i + 1]) == VarDeclNodes(cs[..i]) + (if HasKind(cs[i], "VarDecl") then [cs[i]] else [])
  {
    assert cs[..i + 1][..i] == cs[..i];
  }

  lemma RefIdsStep(cs: seq<Node>, i: nat)
    requires i < |cs|
    ensures RefIds(cs[..i + 1]) == RefIds(cs[..i]) + RefIdOf(cs[i])
  {
    assert cs[..i + 1][..i] == cs[..i];
  }
  /** The handles `lo`, `lo + 1`, ..., `lo + n - 1` of `n` variables appended in order. */
  function Handles(lo: nat, n: nat): seq<nat> {
    seq(n, i => lo + i)
  }

  lemma AppendAssoc<T>(a: seq<T>, b: seq<T>, c: seq<T>)
    ensures (a + b) + c == a + (b + c)
  {
  }

  lemma HandlesAppend(lo: nat, a: nat, b: nat)
    ensures Handles(lo, a) + Handles(lo + a, b) == Handles(lo, a + b)
  {
    var x, y := Handles(lo, a) + Handles(lo + a, b), Handles(lo, a + b);
    assert |x| == |y|;
    forall i | 0 <= i < |x| ensures x[i] == y[i] {
      if i < a {
        assert x[i] == Handles(lo, a)[i];
      } else {
        assert x[i] == Handles(lo + a, b)[i - a];
      }
    }
  }

  /** One child `n` of a DeclStmt, after the variables `acc` of the children before it:
      a child without `kind` raises KeyError, a VarDecl needs the declaration line
      (`line`, see `DeclLineSpec`) and must parse, any other child adds nothing. */
  function DeclStep(acc: Result<seq<Var>>, parent: Option<nat>, n: Node, line: Result<int>): Result<seq<Var>>
  {
    var vs :- acc;
    if n.kind.None? then Fail(KeyError("kind"))
    else if n.kind.value != "VarDecl" then Ok(vs)
    else
      var l :- line;
      var v :- ParseVariable(parent, n, Some(l));
      Ok(vs + [v])
  }

  /** The variables the VarDecl children of a DeclStmt with children `inner` add, in
      order, or the fault of the first child that stops the scan. */
  function DeclStmtVars(parent: Option<nat>, inner: seq<Node>, line: Result<int>): Result<seq<Var>>
  {
    if inner == [] then Ok([]) else DeclStep(DeclStmtVars(parent, inner[..|inner| - 1], line), parent, inner[|inner| - 1], line)
  }

  lemma DeclStmtVarsStep(parent: Option<nat>, inner: seq<Node>, i: nat, line: Result<int>)
    requires i < |inner|
    ensures DeclStmtVars(parent, inner[..i + 1], line) == DeclStep(DeclStmtVars(parent, inner[..i], line), parent, inner[i], line)
  {
    assert inner[..i + 1][..i] == inner[..i];
  }

  /** Every child of a DeclStmt needs a kind, and the declaration line is needed only when
      there is a VarDecl child, whose variable must then parse. */
  ghost predicate DeclsParse(parent: Option<nat>, inner: seq<Node>, line: Result<int>) {
    var decls := VarDeclNodes(inner);
    && (forall i :: 0 <= i < |inner| ==> inner[i].kind.Some?)
    && (decls != [] ==> line.Ok?)
    && (forall j :: 0 <= j < |decls| ==> ParseVariable(parent, decls[j], Some(line.value)).Ok?)
  }

  /** One child of a DeclStmt has a kind and, when it is a VarDecl, a variable that parses
      at the line. */
  ghost predicate DeclParses(parent: Option<nat>, n: Node, line: Result<int>) {
    n.kind.Some? && (HasKind(n, "VarDecl") ==> line.Ok? && ParseVariable(parent, n, Some(line.value)).Ok?)
  }

  lemma DeclsParseSnoc(parent: Option<nat>, inner: seq<Node>, line: Result<int>)
    requires inner != []
    ensures DeclsParse(parent, inner, line) <==>
              DeclsParse(parent, inner[..|inner| - 1], line) && DeclParses(parent, inner[|inner| - 1], line)
  {
    var front, last := inner[..|inner| - 1], inner[|inner| - 1];
    VarDeclNodesStep(inner, |inner| - 1);
    assert inner[..|inner| - 1 + 1] == inner;
    var df := VarDeclNodes(front);
    var decls := VarDeclNodes(inner);
    assert decls == df + (if HasKind(last, "VarDecl") then [last] else []);
    assert forall j :: 0 <= j < |df| ==> decls[j] == df[j];
    assert (forall i :: 0 <= i < |inner| ==> inner[i].kind.Some?) <==>
           (forall i :: 0 <= i < |front| ==> front[i].kind.Some?) && last.kind.Some? by {
      assert forall i :: 0 <= i < |front| ==> front[i] == inner[i];
    }
    if HasKind(last, "VarDecl") {
      assert decls[|df|] == last;
    }
  }

  /** The scan of a DeclStmt's children succeeds exactly when they parse. */
  lemma {:induction false} DeclStmtVarsOk(parent: Option<nat>, inner: seq<Node>, line: Result<int>)
    ensures DeclStmtVars(parent, inner, line).Ok? <==> DeclsParse(parent, inner, line)
  {
    if inner != [] {
      var front, last := inner[..|inner| - 1], inner[|inner| - 1];
      DeclStmtVarsOk(parent, front, line);
      DeclsParseSnoc(parent, inner, line);
      var acc := DeclStmtVars(parent, front, line);
      if acc.Ok? {
        DeclStepShift(acc.value, parent, last, line);
        assert DeclStep(Ok([]), parent, last, line).Ok? <==> DeclParses(parent, last, line);
      }
    }
  }

  /** The variables of a DeclStmt are those of its VarDecl children, in order, all
      declared at its line. */
  lemma {:induction false} DeclStmtVarsAreVarDecls(parent: Option<nat>, inner: seq<Node>, line: Result<int>)
    requires DeclStmtVars(parent, inner, line).Ok?
    ensures var decls := VarDeclNodes(inner);
            && |DeclStmtVars(parent, inner, line).value| == |decls|
            && (decls != [] ==> line.Ok?)
            && forall j :: 0 <= j < |decls| ==>
                 Ok(DeclStmtVars(parent, inner, line).value[j]) == ParseVariable(parent, decls[j], Some(line.value))
  {
    if inner != [] {
      var front, last := inner[..|inner| - 1], inner[|inner| - 1];
      var acc := DeclStmtVars(parent, front, line);
      assert acc.Ok?;
      DeclStmtVarsAreVarDecls(parent, front, line);
      VarDeclNodesStep(inner, |inner| - 1);
      assert inner[..|inner| - 1 + 1] == inner;
      DeclStepShift(acc.value, parent, last, line);
      var df := VarDeclNodes(front);
      var decls := VarDeclNodes(inner);
      var all := DeclStmtVars(parent, inner, line).value;
      assert decls == df + (if HasKind(last, "VarDecl") then [last] else []);
      forall j | 0 <= j < |df| ensures decls[j] == df[j] && all[j] == acc.value[j] {
      }
      if HasKind(last, "VarDecl") {
        assert decls[|df|] == last;
      }
    }
  }

  /** A step after the variables `vs` adds what it adds after none, or fails alike. */
  lemma DeclStepShift(vs: seq<Var>, parent: Option<nat>, n: Node, line: Result<int>)
    ensures DeclStep(Ok(vs), parent, n, line).Ok? <==> DeclStep(Ok([]), parent, n, line).Ok?
    ensures DeclStep(Ok(vs), parent, n, line).Ok? ==>
              DeclStep(Ok(vs), parent, n, line).value == vs + DeclStep(Ok([]), parent, n, line).value
    ensures DeclStep(Ok(vs), parent, n, line).Fail? ==>
              DeclStep(Ok(vs), parent, n, line).fault == DeclStep(Ok([]), parent, n, line).fault
  {
  }

  /** A child that adds `DeclStep(Ok([]), ...)` after a prefix that succeeded. */
  lemma DeclStmtVarsGrows(parent: Option<nat>, inner: seq<Node>, i: nat, line: Result<int>)
    requires i < |inner| && DeclStmtVars(parent, inner[..i], line).Ok?
    requires DeclStep(Ok([]), parent, inner[i], line).Ok?
    ensures DeclStmtVars(parent, inner[..i + 1], line) ==
            Ok(DeclStmtVars(parent, inner[..i], line).value + DeclStep(Ok([]), parent, inner[i], line).value)
  {
    DeclStmtVarsStep(parent, inner, i, line);
    DeclStepShift(DeclStmtVars(parent, inner[..i], line).value, parent, inner[i], line);
  }

  /** A child that fails after a prefix that succeeded stops the whole DeclStmt. */
  lemma DeclStmtVarsStops(parent: Option<nat>, inner: seq<Node>, i: nat, line: Result<int>)
    requires i < |inner| && DeclStmtVars(parent, inner[..i], line).Ok?
    requires DeclStep(Ok([]), parent, inner[i], line).Fail?
    ensures DeclStmtVars(parent, inner, line) == Fail(DeclStep(Ok([]), parent, inner[i], line).fault)
  {
    DeclStmtVarsStep(parent, inner, i, line);
    DeclStepShift(DeclStmtVars(parent, inner[..i], line).value, parent, inner[i], line);
    DeclStmtVarsFailExtends(parent, inner, i + 1, line);
  }

  /** Once a prefix of the children fails, the whole DeclStmt fails with that fault. */
  lemma {:induction false} DeclStmtVarsFailExtends(parent: Option<nat>, inner: seq<Node>, n: nat, line: Result<int>)
    requires n <= |inner| && DeclStmtVars(parent, inner[..n], line).Fail?
    ensures DeclStmtVars(parent, inner, line) == DeclStmtVars(parent, inner[..n], line)
    decreases |inner| - n
  {
    if n == |inner| {
      assert inner[..n] == inner;
    } else {
      var front := inner[..|inner| - 1];
      assert front[..n] == inner[..n];
      DeclStmtVarsFailExtends(parent, front, n, line);
    }
  }

  /** The state `(stmts, vars)` after the first `i` children of a DeclStmt of statement
      `k`: the variables they declare follow `vars0`, their handles follow the variables
      `k` had, and nothing else has changed since `stmts0`. */
  predicate DeclProgress(stmts: seq<Stmt>, vars: seq<Var>, stmts0: seq<Stmt>, vars0: seq<Var>, k: nat,
                         parent: Option<nat>, inner: seq<Node>, line: Result<int>, i: nat)
  {
    && i <= |inner| && k < |stmts0|
    && |stmts| == |stmts0| && stmts == stmts0[k := stmts0[k].(variables := stmts[k].variables)]
    && DeclStmtVars(parent, inner[..i], line).Ok?
    && vars == vars0 + DeclStmtVars(parent, inner[..i], line).value
    && stmts[k].variables == stmts0[k].variables + Handles(|vars0|, |vars| - |vars0|)
  }

  /** Another child that succeeds, appending its variables to `vars` and their handles to
      statement `k`, moves the progress on by one child. */
  lemma DeclProgressGrows(stmts1: seq<Stmt>, vars1: seq<Var>, stmts2: seq<Stmt>, vars2: seq<Var>,
                          stmts0: seq<Stmt>, vars0: seq<Var>, k: nat, parent: Option<nat>,
                          inner: seq<Node>, line: Result<int>, i: nat)
    requires i < |inner| && DeclProgress(stmts1, vars1, stmts0, vars0, k, parent, inner, line, i)
    requires DeclStep(Ok([]), parent, inner[i], line).Ok?
    requires vars2 == vars1 + DeclStep(Ok([]), parent, inner[i], line).value
    requires stmts2 == stmts1[k := stmts1[k].(variables := stmts1[k].variables + Handles(|vars1|, |vars2| - |vars1|))]
    ensures DeclProgress(stmts2, vars2, stmts0, vars0, k, parent, inner, line, i + 1)
  {
    DeclStmtVarsGrows(parent, inner, i, line);
    var done := DeclStmtVars(parent, inner[..i], line).value;
    var added := DeclStep(Ok([]), parent, inner[i], line).value;
    AppendAssoc(vars0, done, added);
    var a, b := |vars1| - |vars0|, |vars2| - |vars1|;
    HandlesAppend(|vars0|, a, b);
    AppendAssoc(stmts0[k].variables, Handles(|vars0|, a), Handles(|vars1|, b));
  }

  /** The statement record `parse` makes from a node with a kind, before its children:
      the node's id, kind, name, type, lines and function flag, in the order the program
      reads them, so that the first missing key or malformed id is the fault. */
  function NewStmt(parent: Option<nat>, node: Node): Result<Stmt>
    requires node.kind.Some?
  {
    var id :- NodeId(node);
    var isFunction :- FunctionFlag(node);
    var ty :- TypeOf(node);
    Ok(Stmt(id, node.kind.value, parent, node.name, ty, ParseLoc(node), [], [], {}, isFunction, node))
  }

  /** The kind and the function flag of statement `s` are the ones its node gives. */
  predicate FromNode(s: Stmt) {
    s.node.kind == Some(s.kind) && FunctionFlag(s.node) == Ok(s.isFunction)
  }

  /** A new statement has no children, variables or references yet, and a function
      among them has both of its lines. */
  lemma NewStmtShape(parent: Option<nat>, node: Node)
    requires node.kind.Some? && NewStmt(parent, node).Ok?
    ensures var s := NewStmt(parent, node).value;
            s.body == [] && s.variables == [] && s.references == {} && s.parent == parent &&
            (s.isFunction ==> s.loc.start.Some? && s.loc.end.Some?)
  {
    FunctionFlagIff(node);
  }

  /** What a new statement records: `int(node["id"], 16)`, the kind, the parent it was
      parsed under, the name if any, the type string (see `TypeOf`), the lines of
      `ParseLoc` and the function flag; it fails exactly when one of those raises. */
  lemma NewStmtFields(parent: Option<nat>, node: Node)
    requires node.kind.Some?
    ensures NewStmt(parent, node).Ok? <==> NodeId(node).Ok? && FunctionFlag(node).Ok? && TypeOf(node).Ok?
    ensures node.id.None? ==> NewStmt(parent, node) == Fail(KeyError("id"))
    ensures NewStmt(parent, node).Ok? ==>
              var s := NewStmt(parent, node).value;
              && node.id.Some? && PyHexInt(node.id.value) == Some(s.id)
              && Some(s.kind) == node.kind && s.parent == parent && s.name == node.name
              && TypeOf(node) == Ok(s.ty) && s.loc == ParseLoc(node) && s.node == node
              && (s.isFunction <==> DefinedHere(node) && s.loc.start.Some? && s.loc.end.Some?)
  {
    FunctionFlagIff(node);
  }

  /** The variables child `elem` declares on statement `s` before it is parsed itself,
      when `s`'s parent starts at line `ps`, the parent `Variable.parse` is given is
      `parent`, and `s` has declared `declared` so far. A DeclStmt declares the records
      of its VarDecl children (`DeclStmtVars`), a ParmVarDecl one record at `ParamLine`,
      and any other child none. A DeclStmt without `inner`, a DeclRefExpr whose
      referenced id is missing or unreadable, and a variable that does not parse raise. */
  function ChildDecl(s: Stmt, ps: Option<int>, parent: Option<nat>, declared: seq<Var>, elem: Node): (r: Result<seq<Var>>)
    ensures !HasKind(elem, "DeclStmt") && !HasKind(elem, "DeclRefExpr") && !HasKind(elem, "ParmVarDecl") ==> r == Ok([])
    ensures HasKind(elem, "DeclRefExpr") ==> (r.Ok? <==> RefIdOf(elem) != {}) && (r.Ok? ==> r.value == [])
    ensures HasKind(elem, "DeclStmt") && elem.inner.NoInner? ==> r == Fail(KeyError("inner"))
    ensures HasKind(elem, "ParmVarDecl") && r.Ok? ==>
              |r.value| == 1 && Ok(r.value[0]) == ParseVariable(parent, elem, ParamLine(s, declared, ParseLoc(elem).start))
  {
    if elem.kind.None? then Ok([])
    else if elem.kind.value == "DeclStmt" then
      if elem.inner.NoInner? then Fail(KeyError("inner"))
      else DeclStmtVars(parent, elem.inner.elems, DeclLineAt(s, ps, ParseLoc(elem).start))
    else if elem.kind.value == "DeclRefExpr" then
      if elem.referencedDeclId.None? then Fail(KeyError("referencedDecl"))
      else
        var _ :- HexId(elem.referencedDeclId.value);
        Ok([])
    else if elem.kind.value == "ParmVarDecl" then
      var v :- ParseVariable(parent, elem, ParamLine(s, declared, ParseLoc(elem).start));
      Ok([v])
    else Ok([])
  }

  /** The variables the children `cs` of statement `s` declare on it, in child order,
      each child seeing the variables declared by the children before it. */
  function Declared(s: Stmt, ps: Option<int>, parent: Option<nat>, cs: seq<Node>): Result<seq<Var>> {
    if cs == [] then Ok([])
    else
      var before :- Declared(s, ps, parent, cs[..|cs| - 1]);
      var added :- ChildDecl(s, ps, parent, before, cs[|cs| - 1]);
      Ok(before + added)
  }

  lemma DeclaredStep(s: Stmt, ps: Option<int>, parent: Option<nat>, cs: seq<Node>, i: nat)
    requires i < |cs| && Declared(s, ps, parent, cs[..i]).Ok?
    ensures var before := Declared(s, ps, parent, cs[..i]).value;
            var added := ChildDecl(s, ps, parent, before, cs[i]);
            Declared(s, ps, parent, cs[..i + 1]) == if added.Ok? then Ok(before + added.value) else Fail(added.fault)
  {
    assert cs[..i + 1][..i] == cs[..i];
  }

  /** A prefix of children whose declarations go through goes through itself. */
  lemma {:induction false} DeclaredPrefix(s: Stmt, ps: Option<int>, parent: Option<nat>, cs: seq<Node>, n: nat)
    requires n <= |cs| && Declared(s, ps, parent, cs).Ok?
    ensures Declared(s, ps, parent, cs[..n]).Ok?
    decreases |cs|
  {
    if n == |cs| {
      assert cs[..n] == cs;
    } else {
      var front := cs[..|cs| - 1];
      assert front[..n] == cs[..n];
      DeclaredPrefix(s, ps, parent, front, n);
    }
  }

  /** Whether the VarDecl children of a DeclStmt parse does not depend on the parent
      their records name. */
  lemma {:induction false} DeclStmtVarsOkParent(p1: Option<nat>, p2: Option<nat>, inner: seq<Node>, line: Result<int>)
    ensures DeclStmtVars(p1, inner, line).Ok? <==> DeclStmtVars(p2, inner, line).Ok?
  {
    if inner != [] {
      DeclStmtVarsOkParent(p1, p2, inner[..|inner| - 1], line);
    }
  }

  /** Whether a child's declarations go through depends on the statement only through
      its lines and whether it has a parent, and not on the parent the records name or
      on the variables declared before it. */
  lemma ChildDeclOkParent(s1: Stmt, s2: Stmt, ps: Option<int>, p1: Option<nat>, p2: Option<nat>,
                          d1: seq<Var>, d2: seq<Var>, elem: Node)
    requires s1.loc == s2.loc && s1.parent.None? == s2.parent.None?
    ensures ChildDecl(s1, ps, p1, d1, elem).Ok? <==> ChildDecl(s2, ps, p2, d2, elem).Ok?
  {
    if HasKind(elem, "DeclStmt") && elem.inner.Inner? {
      assert DeclLineAt(s1, ps, ParseLoc(elem).start) == DeclLineAt(s2, ps, ParseLoc(elem).start);
      DeclStmtVarsOkParent(p1, p2, elem.inner.elems, DeclLineAt(s1, ps, ParseLoc(elem).start));
    }
  }

  /** The same for all the children of a statement. */
  lemma {:induction false} DeclaredOkParent(s1: Stmt, s2: Stmt, ps: Option<int>, p1: Option<nat>, p2: Option<nat>, cs: seq<Node>)
    requires s1.loc == s2.loc && s1.parent.None? == s2.parent.None?
    ensures Declared(s1, ps, p1, cs).Ok? <==> Declared(s2, ps, p2, cs).Ok?
  {
    if cs != [] {
      var front := cs[..|cs| - 1];
      DeclaredOkParent(s1, s2, ps, p1, p2, front);
      if Declared(s1, ps, p1, front).Ok? {
        ChildDeclOkParent(s1, s2, ps, p1, p2, Declared(s1, ps, p1, front).value, Declared(s2, ps, p2, front).value, cs[|cs| - 1]);
      }
    }
  }

  /** Whether `Statement.parse(parent, node)` returns without raising, when the parent
      starts at line `ps`: a node without `kind` always does; otherwise its statement
      must build (`NewStmt`), its children's declarations must go through (`Declared`)
      and every child must parse under the new statement, whatever handle that has. */
  ghost predicate ParseOk(parent: Option<nat>, ps: Option<int>, node: Node)
    decreases node
  {
    node.kind.None? ||
    (NewStmt(parent, node).Ok? &&
     var s := NewStmt(parent, node).value;
     && Declared(s, ps, parent, if node.inner.Inner? then node.inner.elems else []).Ok?
     && (node.inner.Inner? ==> forall c, p: nat :: c in node.inner.elems ==> ParseOk(Some(p), s.loc.start, c)))
  }

  /** The children `cs` of the statement `s`, whose parent starts at line `ps`, go
      through: their declarations, and each child's own parse under `s`. */
  ghost predicate KidsParse(s: Stmt, ps: Option<int>, cs: seq<Node>) {
    Declared(s, ps, s.parent, cs).Ok? && forall c, p: nat :: c in cs ==> ParseOk(Some(p), s.loc.start, c)
  }

  /** A node with a kind parses when its statement builds and its children go through. */
  lemma ParseOkKids(parent: Option<nat>, ps: Option<int>, node: Node)
    requires node.kind.Some? && NewStmt(parent, node).Ok?
    ensures ParseOk(parent, ps, node) <==>
              KidsParse(NewStmt(parent, node).value, ps, if node.inner.Inner? then node.inner.elems else [])
  {
    NewStmtShape(parent, node);
  }

  /** Whether a node parses does not depend on the handle of its parent statement. */
  lemma ParseOkAnyParent(k: nat, ps: Option<int>, node: Node)
    requires ParseOk(Some(k), ps, node)
    ensures forall p: nat :: ParseOk(Some(p), ps, node)
  {
    if node.kind.Some? {
      var cs := if node.inner.Inner? then node.inner.elems else [];
      forall p: nat ensures ParseOk(Some(p), ps, node) {
        DeclaredOkParent(NewStmt(Some(k), node).value, NewStmt(Some(p), node).value, ps, Some(k), Some(p), cs);
      }
    }
  }

  /** One more child goes through exactly when its declarations do and it parses. */
  lemma KidsParseStep(s: Stmt, ps: Option<int>, cs: seq<Node>, i: nat)
    requires i < |cs| && Declared(s, ps, s.parent, cs[..i]).Ok?
    ensures KidsParse(s, ps, cs[..i + 1]) <==>
              && KidsParse(s, ps, cs[..i])
              && ChildDecl(s, ps, s.parent, Declared(s, ps, s.parent, cs[..i]).value, cs[i]).Ok?
              && forall p: nat :: ParseOk(Some(p), s.loc.start, cs[i])
  {
    DeclaredStep(s, ps, s.parent, cs, i);
    assert cs[..i + 1] == cs[..i] + [cs[i]];
    var start := s.loc.start;
    if KidsParse(s, ps, cs[..i + 1]) {
      forall c, p: nat | c in cs[..i] ensures ParseOk(Some(p), start, c) {
        assert c in cs[..i + 1];
      }
      forall p: nat ensures ParseOk(Some(p), start, cs[i]) {
        assert cs[i] in cs[..i + 1];
      }
    }
    if (forall p: nat :: ParseOk(Some(p), start, cs[i])) && KidsParse(s, ps, cs[..i]) {
      forall c, p: nat | c in cs[..i + 1] ensures ParseOk(Some(p), start, c) {
        if c != cs[i] {
          assert c in cs[..i];
        }
      }
    }
  }

  /** Children that go through have every prefix go through. */
  lemma KidsParsePrefix(s: Stmt, ps: Option<int>, cs: seq<Node>, n: nat)
    requires n <= |cs| && KidsParse(s, ps, cs)
    ensures KidsParse(s, ps, cs[..n])
  {
    DeclaredPrefix(s, ps, s.parent, cs, n);
    assert forall c :: c in cs[..n] ==> c in cs;
  }

  /** Adding references to statement `k` does not change how a reference is marked. */
  lemma MarkReferenceIgnoresReferences(stmts: seq<Stmt>, vars: seq<Var>, k: nat, refs: set<int>, vid: int)
    requires WellFormed(stmts, vars) && k < |stmts|
    ensures WellFormed(stmts[k := stmts[k].(references := refs)], vars)
    ensures MarkReference(stmts[k := stmts[k].(references := refs)], vars, k, vid) == MarkReference(stmts, vars, k, vid)
  {
    var b := stmts[k := stmts[k].(references := refs)];
    assert Tree(b) by {
      assert forall j :: 0 <= j < |b| ==> b[j].parent == stmts[j].parent && b[j].body == stmts[j].body &&
                                          b[j].isFunction == stmts[j].isFunction && b[j].loc == stmts[j].loc;
    }
    assert VarsIn(b, |vars|) by {
      assert forall j :: 0 <= j < |b| ==> b[j].variables == stmts[j].variables;
    }
    assert SameChains(stmts, b, k);
    FindVarFrame(stmts, b, vars, k, vid);
    ValidLocFrame(stmts, b, k);
  }

  /** A child declares the same whatever the statement's body, references or variables
      are, as long as its parent, lines and function flag and the decl line of its last
      variable agree. */
  lemma ChildDeclLocal(s1: Stmt, s2: Stmt, ps: Option<int>, parent: Option<nat>, d1: seq<Var>, d2: seq<Var>, elem: Node)
    requires s1.parent == s2.parent && s1.loc == s2.loc && s1.isFunction == s2.isFunction
    requires |d1| == |d2| && (d1 != [] ==> d1[|d1| - 1].declLoc == d2[|d2| - 1].declLoc)
    ensures ChildDecl(s1, ps, parent, d1, elem) == ChildDecl(s2, ps, parent, d2, elem)
  {
    assert ParamLine(s1, d1, ParseLoc(elem).start) == ParamLine(s2, d2, ParseLoc(elem).start);
  }

  /** The arenas `a` and `b` agree on the parents, lines and variables of the
      statements up to `k`: all that variable lookup from `k` reads. */
  predicate SameChains(a: seq<Stmt>, b: seq<Stmt>, k: nat) {
    k < |a| && k < |b| &&
    forall j :: 0 <= j <= k ==> a[j].parent == b[j].parent && a[j].loc == b[j].loc && a[j].variables == b[j].variables
  }

  lemma {:induction false} FindVarFrame(a: seq<Stmt>, b: seq<Stmt>, vars: seq<Var>, k: nat, vid: int)
    requires WellFormed(a, vars) && WellFormed(b, vars) && SameChains(a, b, k)
    ensures FindVarById(a, vars, k, vid) == FindVarById(b, vars, k, vid)
    decreases k
  {
    if a[k].parent.Some? {
      FindVarFrame(a, b, vars, a[k].parent.value, vid);
    }
  }

  lemma {:induction false} ValidLocFrame(a: seq<Stmt>, b: seq<Stmt>, k: nat)
    requires Tree(a) && Tree(b) && SameChains(a, b, k)
    ensures FindValidLoc(a, k) == FindValidLoc(b, k)
    decreases k
  {
    if a[k].parent.Some? {
      ValidLocFrame(a, b, a[k].parent.value);
    }
  }

  /** The state after the first `i` children of the node `made` was built from, now
      statement `k`: the statements before `k` are as in `stmts0`, the variables have
      evolved from `vars0`, and `k` holds a child statement per child with a kind and a
      reference per DeclRefExpr child so far. */
  predicate ParseProgress(stmts: seq<Stmt>, vars: seq<Var>, stmts0: seq<Stmt>, vars0: seq<Var>,
                          made: Stmt, k: nat, children: seq<Node>, i: nat)
  {
    && i <= |children| && k < |stmts| && k <= |stmts0|
    && (forall j :: 0 <= j < k ==> stmts[j] == stmts0[j])
    && VarsEvolve(vars0, vars)
    && stmts[k] == made.(body := stmts[k].body, variables := stmts[k].variables, references := stmts[k].references)
    && |stmts[k].body| == |WithKind(children[..i])|
    && (forall j :: 0 <= j < |stmts[k].body| ==>
          && stmts[k].body[j] < |stmts|
          && stmts[stmts[k].body[j]].node == WithKind(children[..i])[j]
          && stmts[stmts[k].body[j]].parent == Some(k)
          && FromNode(stmts[stmts[k].body[j]]))
    && stmts[k].references == RefIds(children[..i])
  }

  /** Parsing one more child as `ParseChild` does moves the progress on by one child. */
  lemma ParseProgressGrows(s1: seq<Stmt>, v1: seq<Var>, s2: seq<Stmt>, v2: seq<Var>, stmts0: seq<Stmt>,
                           vars0: seq<Var>, made: Stmt, k: nat, children: seq<Node>, i: nat)
    requires Tree(s1) && i < |children| && ParseProgress(s1, v1, stmts0, vars0, made, k, children, i)
    requires |s2| >= |s1| && forall j :: 0 <= j < |s1| && j != k ==> s2[j] == s1[j]
    requires s2[k] == s1[k].(body := s2[k].body, variables := s2[k].variables, references := s2[k].references)
    requires VarsEvolve(v1, v2)
    requires s2[k].references == s1[k].references + RefIdOf(children[i])
    requires s2[k].body == s1[k].body + (if children[i].kind.Some? then [|s1|] else [])
    requires children[i].kind.Some? ==> |s1| < |s2| && s2[|s1|].node == children[i] && s2[|s1|].parent == Some(k) && FromNode(s2[|s1|])
    ensures ParseProgress(s2, v2, stmts0, vars0, made, k, children, i + 1)
  {
    WithKindStep(children, i);
    RefIdsStep(children, i);
    VarsEvolveTrans(vars0, v1, v2);
    var b1 := s1[k].body;
    forall j | 0 <= j < |b1| ensures s2[b1[j]] == s1[b1[j]] {
      assert k < b1[j] < |s1|;
    }
  }

  /** The variables of statement `k`, after the first `i` children of the node `made`
      it was built from, are those the children declared, in child order; each record
      may since have become initialised. */
  predicate DeclaredProgress(stmts: seq<Stmt>, vars: seq<Var>, made: Stmt, ps: Option<int>, k: nat,
                             children: seq<Node>, i: nat)
  {
    && i <= |children| && k < |stmts|
    && Declared(made, ps, made.parent, children[..i]).Ok?
    && |stmts[k].variables| == |Declared(made, ps, made.parent, children[..i]).value|
    && forall j :: 0 <= j < |stmts[k].variables| ==>
         stmts[k].variables[j] < |vars| &&
         VarEvolves(Declared(made, ps, made.parent, children[..i]).value[j], vars[stmts[k].variables[j]])
  }

  /** The records `added`, appended after `before`, have at most evolved in `after`. */
  predicate AppendedEvolve(before: seq<Var>, after: seq<Var>, added: seq<Var>) {
    forall j :: 0 <= j < |added| ==> |before| + j < |after| && VarEvolves(added[j], after[|before| + j])
  }

  /** Records appended to the arena keep evolving as the arena does. */
  lemma AppendedEvolveTrans(v0: seq<Var>, v1: seq<Var>, v2: seq<Var>, added: seq<Var>)
    requires v1 == v0 + added && VarsEvolve(v1, v2)
    ensures AppendedEvolve(v0, v2, added)
  {
    forall j | 0 <= j < |added| ensures |v0| + j < |v2| && VarEvolves(added[j], v2[|v0| + j]) {
      assert v1[|v0| + j] == added[j];
    }
  }

  /** A child whose effect appends the variables `ChildDecl` gives, after which the
      variables only evolve, moves that progress on by one child. */
  lemma DeclaredProgressGrows(s1: seq<Stmt>, v1: seq<Var>, s2: seq<Stmt>, v2: seq<Var>, made: Stmt,
                              ps: Option<int>, k: nat, children: seq<Node>, i: nat)
    requires WellFormed(s1, v1) && i < |children| && DeclaredProgress(s1, v1, made, ps, k, children, i)
    requires s1[k].parent == made.parent && s1[k].loc == made.loc && s1[k].isFunction == made.isFunction
    requires ps == StartOf(s1, s1[k].parent)
    requires VarsEvolve(v1, v2) && k < |s2|
    requires var added := ChildDecl(s1[k], ps, made.parent, DeclaredOf(s1, v1, k), children[i]);
             && added.Ok?
             && s2[k].variables == s1[k].variables + Handles(|v1|, |added.value|)
             && AppendedEvolve(v1, v2, added.value)
    ensures DeclaredProgress(s2, v2, made, ps, k, children, i + 1)
  {
    var before := Declared(made, ps, made.parent, children[..i]).value;
    ChildDeclProgress(s1, v1, made, ps, k, children, i);
    var added := ChildDecl(made, ps, made.parent, before, children[i]).value;
    DeclaredStep(made, ps, made.parent, children, i);
    HandlesEvolve(s1[k].variables, s2[k].variables, v1, v2, before, added);
  }

  /** During the loop, the declarations `ParseChild` computes for child `i` on the
      arena are the ones `Declared` gives after the children before it. */
  lemma ChildDeclProgress(s1: seq<Stmt>, v1: seq<Var>, made: Stmt, ps: Option<int>, k: nat, children: seq<Node>, i: nat)
    requires WellFormed(s1, v1) && i < |children| && DeclaredProgress(s1, v1, made, ps, k, children, i)
    requires s1[k].parent == made.parent && s1[k].loc == made.loc && s1[k].isFunction == made.isFunction
    ensures ChildDecl(s1[k], ps, made.parent, DeclaredOf(s1, v1, k), children[i]) ==
            ChildDecl(made, ps, made.parent, Declared(made, ps, made.parent, children[..i]).value, children[i])
  {
    var before := Declared(made, ps, made.parent, children[..i]).value;
    var here := DeclaredOf(s1, v1, k);
    if before != [] {
      var last := |before| - 1;
      assert here[last] == v1[s1[k].variables[last]];
    }
    ChildDeclLocal(s1[k], made, ps, made.parent, here, before, children[i]);
  }

  /** Handles that stood for `before` keep standing for it, each perhaps initialised
      since, and the new handles stand for `added`. */
  lemma HandlesEvolve(hs1: seq<nat>, hs2: seq<nat>, v1: seq<Var>, v2: seq<Var>, before: seq<Var>, added: seq<Var>)
    requires |hs1| == |before| && forall j :: 0 <= j < |hs1| ==> hs1[j] < |v1| && VarEvolves(before[j], v1[hs1[j]])
    requires VarsEvolve(v1, v2) && hs2 == hs1 + Handles(|v1|, |added|) && AppendedEvolve(v1, v2, added)
    ensures |hs2| == |before + added|
    ensures forall j :: 0 <= j < |hs2| ==> hs2[j] < |v2| && VarEvolves((before + added)[j], v2[hs2[j]])
  {
    var after, n := before + added, |hs1|;
    forall j | 0 <= j < |hs2| ensures hs2[j] < |v2| && VarEvolves(after[j], v2[hs2[j]]) {
      if j < n {
        var x := hs1[j];
        assert hs2[j] == x && x < |v1|;
        assert VarEvolves(v1[x], v2[x]);
      } else {
        assert hs2[j] == Handles(|v1|, |added|)[j - n] == |v1| + (j - n);
        assert after[j] == added[j - n];
      }
    }
  }

  /** After the first `i` children of the node `made` was built from, now statement `k`,
      child `i` goes through exactly when the declarations `ParseChild` computes for it
      on `k` do and it parses under `k`. */
  lemma KidsParseNext(s1: seq<Stmt>, v1: seq<Var>, made: Stmt, ps: Option<int>, k: nat, children: seq<Node>, i: nat)
    requires WellFormed(s1, v1) && i < |children| && DeclaredProgress(s1, v1, made, ps, k, children, i)
    requires s1[k].parent == made.parent && s1[k].loc == made.loc && s1[k].isFunction == made.isFunction
    requires KidsParse(made, ps, children[..i])
    ensures KidsParse(made, ps, children[..i + 1]) <==>
              && ChildDecl(s1[k], ps, made.parent, DeclaredOf(s1, v1, k), children[i]).Ok?
              && ParseOk(Some(k), made.loc.start, children[i])
  {
    ChildDeclProgress(s1, v1, made, ps, k, children, i);
    KidsParseStep(made, ps, children, i);
    if ParseOk(Some(k), made.loc.start, children[i]) {
      ParseOkAnyParent(k, made.loc.start, children[i]);
    }
  }

  /** The statement and variable arenas that parsing allocates into. A statement or
      variable object of the analysed program is an index into `stmts` or `vars`. */
  class Arena {
    var stmts: seq<Stmt>
    var vars: seq<Var>

    ghost predicate Valid()
      reads this
    {
      WellFormed(stmts, vars)
    }

    constructor ()
      ensures stmts == [] && vars == []
    {
      stmts := [];
      vars := [];
    }

    /** A new statement with no children and no variables yet becomes the last one. */
    method Push(s: Stmt) returns (k: nat)
      requires Valid()
      requires s.parent.Some? ==> s.parent.value < |stmts|
      requires s.body == [] && s.variables == []
      requires s.isFunction ==> s.loc.start.Some? && s.loc.end.Some?
      modifies this
      ensures Valid()
      ensures k == old(|stmts|) && stmts == old(stmts) + [s] && vars == old(vars)
    {
      k := |stmts|;
      stmts := stmts + [s];
    }

    /** Statement `c` becomes the last child of statement `k`. */
    method AddChild(k: nat, c: nat)
      requires Valid() && k < c < |stmts|
      modifies this
      ensures Valid() && vars == old(vars)
      ensures stmts == old(stmts)[k := old(stmts[k]).(body := old(stmts[k].body) + [c])]
    {
      stmts := stmts[k := stmts[k].(body := stmts[k].body + [c])];
    }

    /** A new variable `v` becomes the last variable of statement `k`. */
    method AppendVar(k: nat, v: Var)
      requires Valid() && k < |stmts|
      modifies this
      ensures Valid()
      ensures vars == old(vars) + [v]
      ensures stmts == old(stmts)[k := old(stmts[k]).(variables := old(stmts[k].variables) + [old(|vars|)])]
    {
      vars := vars + [v];
      stmts := stmts[k := stmts[k].(variables := stmts[k].variables + [|vars| - 1])];
    }

    /** `stmt.variables.append(Variable.parse(parent, node, loc))`, failing as the
        variable's parse fails, before anything changes. */
    method AddVariable(k: nat, parent: Option<nat>, node: Node, loc: Option<int>) returns (r: Result<()>)
      requires Valid() && k < |stmts|
      modifies this
      ensures Valid()
      ensures r == Void(ParseVariable(parent, node, loc))
      ensures r.Fail? ==> stmts == old(stmts) && vars == old(vars)
      ensures r.Ok? ==> vars == old(vars) + [ParseVariable(parent, node, loc).value]
      ensures r.Ok? ==> stmts == old(stmts)[k := old(stmts[k]).(variables := old(stmts[k].variables) + [old(|vars|)])]
    {
      var v := ParseVariable(parent, node, loc);
      if v.Fail? {
        return Fail(v.fault);
      }
      AppendVar(k, v.value);
      return Ok(());
    }

    /** One child `node` of a DeclStmt whose own start line is `d` (`DeclStep`): a
        VarDecl becomes the next variable of `k`, declared at the line `DeclLineSpec`
        gives. */
    method DeclChild(k: nat, parent: Option<nat>, d: Option<int>, node: Node) returns (r: Result<()>)
      requires Valid() && k < |stmts|
      modifies this
      ensures Valid()
      ensures var spec := DeclStep(Ok([]), parent, node, DeclLineSpec(old(stmts), k, d));
              && (r.Ok? <==> spec.Ok?)
              && (r.Fail? ==> r.fault == spec.fault && stmts == old(stmts) && vars == old(vars))
              && (r.Ok? ==> vars == old(vars) + spec.value)
              && (r.Ok? ==> stmts == old(stmts)[k := old(stmts[k]).(variables := old(stmts[k].variables) + Handles(old(|vars|), |spec.value|))])
    {
      if node.kind.None? {
        return Fail(KeyError("kind"));
      }
      if node.kind.value != "VarDecl" {
        assert stmts[k].variables + Handles(|vars|, 0) == stmts[k].variables;
        return Ok(());
      }
      var line := DeclLine(stmts, k, d);
      if line.Fail? {
        return Fail(line.fault);
      }
      assert Handles(|vars|, 1) == [|vars|];
      r := AddVariable(k, parent, node, Some(line.value));
    }

    /** Child `i` of a DeclStmt: progress by one child, or the fault that stops it. */
    method DeclStmtStep(ghost stmts0: seq<Stmt>, ghost vars0: seq<Var>, k: nat, parent: Option<nat>,
                        d: Option<int>, inner: seq<Node>, i: nat) returns (r: Result<()>)
      requires Valid() && Tree(stmts0) && k < |stmts0| && i < |inner|
      requires DeclProgress(stmts, vars, stmts0, vars0, k, parent, inner, DeclLineSpec(stmts0, k, d), i)
      modifies this
      ensures Valid()
      ensures r.Ok? ==> DeclProgress(stmts, vars, stmts0, vars0, k, parent, inner, DeclLineSpec(stmts0, k, d), i + 1)
      ensures r.Fail? ==> |stmts| == |stmts0| && stmts == stmts0[k := stmts0[k].(variables := stmts[k].variables)]
      ensures r.Fail? ==> DeclStmtVars(parent, inner, DeclLineSpec(stmts0, k, d)) == Fail(r.fault)
    {
      ghost var line0 := DeclLineSpec(stmts0, k, d);
      DeclLineLocal(stmts, stmts0, k, d);
      ghost var stmts1, vars1 := stmts, vars;
      r := DeclChild(k, parent, d, inner[i]);
      if r.Fail? {
        DeclStmtVarsStops(parent, inner, i, line0);
        return;
      }
      DeclProgressGrows(stmts1, vars1, stmts, vars, stmts0, vars0, k, parent, inner, line0, i);
    }

    /** The DeclStmt case of `parse`: the variables `DeclStmtVars` gives become the next
        variables of statement `k`; a DeclStmt without `inner` raises KeyError. */
    method ParseDeclStmt(k: nat, parent: Option<nat>, elem: Node) returns (r: Result<()>)
      requires Valid() && k < |stmts|
      modifies this
      ensures Valid()
      ensures |stmts| == old(|stmts|) && stmts == old(stmts)[k := old(stmts[k]).(variables := stmts[k].variables)]
      ensures elem.inner.NoInner? ==> r == Fail(KeyError("inner"))
      ensures elem.inner.Inner? ==>
                var spec := DeclStmtVars(parent, elem.inner.elems, DeclLineSpec(old(stmts), k, ParseLoc(elem).start));
                && r == Void(spec)
                && (r.Ok? ==> vars == old(vars) + spec.value)
                && (r.Ok? ==> stmts[k].variables == old(stmts[k].variables) + Handles(old(|vars|), |spec.value|))
    {
      if elem.inner.NoInner? {
        return Fail(KeyError("inner"));
      }
      var inner := elem.inner.elems;
      var d := ParseLoc(elem).start;
      assert stmts == stmts[k := stmts[k].(variables := stmts[k].variables)];
      assert stmts[k].variables + Handles(|vars|, 0) == stmts[k].variables;
      assert inner[..0] == [];
      var i := 0;
      while i < |inner|
        invariant 0 <= i <= |inner|
        invariant Valid()
        invariant DeclProgress(stmts, vars, old(stmts), old(vars), k, parent, inner, DeclLineSpec(old(stmts), k, d), i)
      {
        var ok := DeclStmtStep(old(stmts), old(vars), k, parent, d, inner, i);
        if ok.Fail? {
          return ok;
        }
        i := i + 1;
      }
      assert inner[..i] == inner;
      return Ok(());
    }

    /** The DeclRefExpr case of `parse`: the referenced id joins the references of `k`,
        and the variable it resolves to may become initialised (`MarkReference`). */
    method ParseDeclRef(k: nat, elem: Node) returns (r: Result<()>)
      requires Valid() && k < |stmts| && HasKind(elem, "DeclRefExpr")
      modifies this
      ensures Valid()
      ensures |stmts| == old(|stmts|) && stmts == old(stmts)[k := old(stmts[k]).(references := stmts[k].references)]
      ensures r.Fail? ==> stmts == old(stmts) && vars == old(vars)
      ensures r.Ok? ==> elem.referencedDeclId.Some? && PyHexInt(elem.referencedDeclId.value).Some?
      ensures r.Ok? ==>
                var refId := PyHexInt(elem.referencedDeclId.value).value;
                stmts[k].references == old(stmts[k].references) + {refId} &&
                vars == MarkReference(old(stmts), old(vars), k, refId)
      ensures r == if elem.referencedDeclId.None? then Fail(KeyError("referencedDecl"))
                   else Void(HexId(elem.referencedDeclId.value))
      ensures VarsEvolve(old(vars), vars)
    {
      if elem.referencedDeclId.None? {
        return Fail(KeyError("referencedDecl"));
      }
      var refId :- HexId(elem.referencedDeclId.value);
      MarkReferenceIgnoresReferences(stmts, vars, k, stmts[k].references + {refId}, refId);
      stmts := stmts[k := stmts[k].(references := stmts[k].references + {refId})];
      MarkReferenceEvolves(stmts, vars, k, refId);
      vars := MarkReference(stmts, vars, k, refId);
      return Ok(());
    }

    /** The ParmVarDecl case of `parse`: the parameter becomes the next variable of `k`,
        declared at `ParamLine`. */
    method ParseParam(k: nat, parent: Option<nat>, elem: Node) returns (r: Result<()>)
      requires Valid() && k < |stmts|
      modifies this
      ensures Valid()
      ensures |stmts| == old(|stmts|) && stmts == old(stmts)[k := old(stmts[k]).(variables := stmts[k].variables)]
      ensures r.Fail? ==> stmts == old(stmts) && vars == old(vars)
      ensures VarsEvolve(old(vars), vars)
      ensures var line := ParamLine(old(stmts[k]), DeclaredOf(old(stmts), old(vars), k), ParseLoc(elem).start);
              && r == Void(ParseVariable(parent, elem, line))
              && (r.Ok? ==> vars == old(vars) + [ParseVariable(parent, elem, line).value])
              && (r.Ok? ==> stmts[k].variables == old(stmts[k].variables) + [old(|vars|)])
    {
      var loc := ParamLine(stmts[k], DeclaredOf(stmts, vars, k), ParseLoc(elem).start);
      r := AddVariable(k, parent, elem, loc);
    }

    /** What child `elem` does to statement `k` before it is parsed itself: it declares
        the variables `ChildDecl` gives, which become the next variables of `k`; a
        DeclRefExpr instead adds a reference and may initialise the variable it names;
        any other child does nothing. */
    method ChildEffect(k: nat, parent: Option<nat>, elem: Node) returns (r: Result<()>)
      requires Valid() && k < |stmts|
      modifies this
      ensures Valid()
      ensures |stmts| == old(|stmts|)
      ensures stmts == old(stmts)[k := old(stmts[k]).(variables := stmts[k].variables, references := stmts[k].references)]
      ensures var added := ChildDecl(old(stmts[k]), StartOf(old(stmts), old(stmts[k].parent)), parent,
                                     DeclaredOf(old(stmts), old(vars), k), elem);
              && r == Void(added)
              && (r.Ok? ==> stmts[k].variables == old(stmts[k].variables) + Handles(old(|vars|), |added.value|))
              && (r.Ok? && !HasKind(elem, "DeclRefExpr") ==> vars == old(vars) + added.value)
      ensures r.Ok? && HasKind(elem, "DeclRefExpr") ==>
                vars == MarkReference(old(stmts), old(vars), k, PyHexInt(elem.referencedDeclId.value).value)
      ensures r.Ok? ==> VarsEvolve(old(vars), vars)
      ensures r.Ok? ==> stmts[k].references == old(stmts[k].references) + RefIdOf(elem)
    {
      assert stmts[k].variables + Handles(|vars|, 0) == stmts[k].variables;
      if elem.kind.None? {
        return Ok(());
      }
      ghost var added := ChildDecl(stmts[k], StartOf(stmts, stmts[k].parent), parent, DeclaredOf(stmts, vars, k), elem);
      r := Ok(());
      if elem.kind.value == "DeclStmt" {
        r := ParseDeclStmt(k, parent, elem);
        assert r == Void(added);
      } else if elem.kind.value == "DeclRefExpr" {
        r := ParseDeclRef(k, elem);
        assert r == Void(added);
      } else if elem.kind.value == "ParmVarDecl" {
        r := ParseParam(k, parent, elem);
        assert r == Void(added);
        assert Handles(old(|vars|), 1) == [old(|vars|)];
      }
    }

    /** One child `elem` of statement `k`, whose own parent is `parent`: its effect on
        `k`, which appends the variables `ChildDecl` gives to `k`'s, then
        `parse(k, elem)`, whose statement, if there is one, becomes the last child of
        `k`. */
    method ParseChild(k: nat, parent: Option<nat>, elem: Node) returns (r: Result<()>)
      requires Valid() && k < |stmts|
      modifies this
      ensures Valid()
      ensures |stmts| >= old(|stmts|) && forall j :: 0 <= j < old(|stmts|) && j != k ==> stmts[j] == old(stmts[j])
      ensures stmts[k] == old(stmts[k]).(body := stmts[k].body, variables := stmts[k].variables, references := stmts[k].references)
      ensures r.Ok? ==> VarsEvolve(old(vars), vars)
      ensures r.Ok? ==> stmts[k].references == old(stmts[k].references) + RefIdOf(elem)
      ensures r.Ok? ==> stmts[k].body == old(stmts[k].body) + (if elem.kind.Some? then [old(|stmts|)] else [])
      ensures r.Ok? && elem.kind.Some? ==> old(|stmts|) < |stmts| && stmts[old(|stmts|)].node == elem && stmts[old(|stmts|)].parent == Some(k)
      ensures r.Ok? && elem.kind.Some? ==> FromNode(stmts[old(|stmts|)])
      ensures var added := ChildDecl(old(stmts[k]), StartOf(old(stmts), old(stmts[k].parent)), parent,
                                     DeclaredOf(old(stmts), old(vars), k), elem);
              && (added.Fail? ==> r == Fail(added.fault))
              && (r.Ok? <==> added.Ok? && ParseOk(Some(k), old(stmts[k].loc.start), elem))
              && (r.Ok? ==> stmts[k].variables == old(stmts[k].variables) + Handles(old(|vars|), |added.value|))
              && (r.Ok? ==> AppendedEvolve(old(vars), vars, added.value))
      decreases elem, 4
    {
      ghost var vars0 := vars;
      ghost var added := ChildDecl(stmts[k], StartOf(stmts, stmts[k].parent), parent, DeclaredOf(stmts, vars, k), elem);
      var ok :- ChildEffect(k, parent, elem);
      ghost var vars1 := vars;
      ok :- AttachChild(k, elem);
      VarsEvolveTrans(vars0, vars1, vars);
      if !HasKind(elem, "DeclRefExpr") {
        AppendedEvolveTrans(vars0, vars1, vars, added.value);
      }
      return Ok(());
    }

    /** `parse(k, elem)` for a child `elem` of statement `k`: the statement it makes, if
        any, becomes the last child of `k`; nothing else of `k` changes. */
    method AttachChild(k: nat, elem: Node) returns (r: Result<()>)
      requires Valid() && k < |stmts|
      modifies this
      ensures Valid()
      ensures |stmts| >= old(|stmts|) && forall j :: 0 <= j < old(|stmts|) && j != k ==> stmts[j] == old(stmts[j])
      ensures stmts[k] == old(stmts[k]).(body := stmts[k].body)
      ensures r.Ok? ==> VarsEvolve(old(vars), vars)
      ensures r.Ok? ==> stmts[k].body == old(stmts[k].body) + (if elem.kind.Some? then [old(|stmts|)] else [])
      ensures r.Ok? && elem.kind.Some? ==> old(|stmts|) < |stmts| && stmts[old(|stmts|)].node == elem && stmts[old(|stmts|)].parent == Some(k)
      ensures r.Ok? && elem.kind.Some? ==> FromNode(stmts[old(|stmts|)])
      ensures r.Ok? <==> ParseOk(Some(k), old(stmts[k].loc.start), elem)
      decreases elem, 3
    {
      var child :- Parse(Some(k), elem);
      if child.Some? {
        AddChild(k, child.value);
      }
      return Ok(());
    }

    /** `Statement.parse(parent, node)`: `Ok(None)` for a node without `kind`; otherwise
        the index of a new statement built from the node, whose children are parsed in
        order (`ParseChild`). Its variables are those its children declare, in child
        order (`Declared`). Statements that existed before are untouched; variables only
        grow or become initialised. */
    method Parse(parent: Option<nat>, node: Node) returns (r: Result<Option<nat>>)
      requires Valid()
      requires parent.Some? ==> parent.value < |stmts|
      modifies this
      ensures Valid()
      ensures |stmts| >= old(|stmts|) && forall j :: 0 <= j < old(|stmts|) ==> stmts[j] == old(stmts[j])
      ensures r.Ok? ==> VarsEvolve(old(vars), vars)
      ensures node.kind.None? ==> r == Ok(None) && stmts == old(stmts) && vars == old(vars)
      ensures r.Ok? <==> ParseOk(parent, StartOf(old(stmts), parent), node)
      ensures r.Ok? && node.kind.Some? ==> r.value == Some(old(|stmts|)) && old(|stmts|) < |stmts|
      ensures node.kind.Some? && NewStmt(parent, node).Fail? ==> r == Fail(NewStmt(parent, node).fault) && stmts == old(stmts)
      ensures r.Ok? && node.kind.Some? ==>
                var s := stmts[old(|stmts|)];
                NewStmt(parent, node).Ok? &&
                s == NewStmt(parent, node).value.(body := s.body, variables := s.variables, references := s.references)
      ensures r.Ok? && node.kind.Some? ==>
                var s := stmts[old(|stmts|)];
                var kids := if node.inner.Inner? then WithKind(node.inner.elems) else [];
                && |s.body| == |kids|
                && (forall j :: 0 <= j < |kids| ==> stmts[s.body[j]].node == kids[j] && stmts[s.body[j]].parent == Some(old(|stmts|)) &&
                                                    FromNode(stmts[s.body[j]]))
                && s.references == (if node.inner.Inner? then RefIds(node.inner.elems) else {})
      ensures r.Ok? && node.kind.Some? && NewStmt(parent, node).Ok? ==>
                var s := stmts[old(|stmts|)];
                var decl := Declared(NewStmt(parent, node).value, StartOf(old(stmts), parent), parent,
                                     if node.inner.Inner? then node.inner.elems else []);
                && decl.Ok? && |s.variables| == |decl.value|
                && forall j :: 0 <= j < |s.variables| ==> s.variables[j] < |vars| && VarEvolves(decl.value[j], vars[s.variables[j]])
      decreases node, 2
    {
      if node.kind.None? {
        return Ok(None);
      }
      var made :- NewStmt(parent, node);
      NewStmtShape(parent, node);
      ghost var ps := StartOf(stmts, parent);
      var k := Push(made);
      if node.inner.NoInner? {
        ParseOkKids(parent, ps, node);
        return Ok(Some(k));
      }
      var children := node.inner.elems;
      assert children[..0] == [];
      ParseOkKids(parent, ps, node);
      var ok :- ParseChildren(node, k, parent, old(stmts), old(vars), made, ps);
      assert children[..|children|] == children;
      return Ok(Some(k));
    }

    /** The loop over the children of `node`, from which the new statement `k` was
        made: each child in turn (`ParseChild`), the first fault ending it. */
    method ParseChildren(node: Node, k: nat, parent: Option<nat>, ghost stmts0: seq<Stmt>,
                         ghost vars0: seq<Var>, ghost made: Stmt, ghost ps: Option<int>) returns (r: Result<()>)
      requires Valid() && node.inner.Inner? && k == |stmts0| && made.parent == parent
      requires ParseProgress(stmts, vars, stmts0, vars0, made, k, node.inner.elems, 0)
      requires DeclaredProgress(stmts, vars, made, ps, k, node.inner.elems, 0)
      requires ps == StartOf(stmts, parent)
      modifies this
      ensures Valid()
      ensures |stmts| >= |stmts0| && forall j :: 0 <= j < |stmts0| ==> stmts[j] == old(stmts[j])
      ensures r.Ok? ==> ParseProgress(stmts, vars, stmts0, vars0, made, k, node.inner.elems, |node.inner.elems|)
      ensures r.Ok? ==> DeclaredProgress(stmts, vars, made, ps, k, node.inner.elems, |node.inner.elems|)
      ensures r.Ok? <==> KidsParse(made, ps, node.inner.elems)
      decreases node, 1
    {
      var children := node.inner.elems;
      var i := 0;
      assert children[..0] == [];
      while i < |children|
        invariant 0 <= i <= |children|
        invariant Valid()
        invariant |stmts| >= |stmts0| && forall j :: 0 <= j < |stmts0| ==> stmts[j] == old(stmts[j])
        invariant ParseProgress(stmts, vars, stmts0, vars0, made, k, children, i)
        invariant DeclaredProgress(stmts, vars, made, ps, k, children, i)
        invariant KidsParse(made, ps, children[..i])
      {
        assert ps == StartOf(stmts, parent);
        var ok := ParseNext(node, k, parent, stmts0, vars0, made, ps, i);
        if ok.Fail? {
          if KidsParse(made, ps, children) {
            KidsParsePrefix(made, ps, children, i + 1);
          }
          return ok;
        }
        i := i + 1;
      }
      assert children[..i] == children;
      return Ok(());
    }

    /** One turn of that loop: child `i` is parsed, and the progress moves on by one. */
    method ParseNext(node: Node, k: nat, parent: Option<nat>, ghost stmts0: seq<Stmt>, ghost vars0: seq<Var>,
                     ghost made: Stmt, ghost ps: Option<int>, i: nat) returns (r: Result<()>)
      requires Valid() && node.inner.Inner? && i < |node.inner.elems| && k == |stmts0| && made.parent == parent
      requires ParseProgress(stmts, vars, stmts0, vars0, made, k, node.inner.elems, i)
      requires DeclaredProgress(stmts, vars, made, ps, k, node.inner.elems, i)
      requires ps == StartOf(stmts, parent) && KidsParse(made, ps, node.inner.elems[..i])
      modifies this
      ensures Valid()
      ensures |stmts| >= old(|stmts|) && forall j :: 0 <= j < |stmts0| ==> stmts[j] == old(stmts[j])
      ensures r.Ok? ==> ParseProgress(stmts, vars, stmts0, vars0, made, k, node.inner.elems, i + 1)
      ensures r.Ok? ==> DeclaredProgress(stmts, vars, made, ps, k, node.inner.elems, i + 1)
      ensures r.Ok? <==> KidsParse(made, ps, node.inner.elems[..i + 1])
      decreases node, 0
    {
      var children := node.inner.elems;
      assert children[i] in node.inner.elems;
      ghost var s1, v1 := stmts, vars;
      KidsParseNext(s1, v1, made, ps, k, children, i);
      var ok :- ParseChild(k, parent, children[i]);
      ParseProgressGrows(s1, v1, stmts, vars, stmts0, vars0, made, k, children, i);
      DeclaredProgressGrows(s1, v1, stmts, vars, made, ps, k, children, i);
      return Ok(());
    }
  }
}
