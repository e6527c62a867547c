/** A declared variable of the analysed C source (`Variable` in the AST parser). Variables
    live in an arena addressed by handle; the only fields ever changed after parsing are
    `isInit` and `initLoc`, when the first reference to an uninitialised variable is seen. */
module Variables {
  import opened Common
  import opened PyStr
  import opened ClangJson

  /** `parent` is the handle of the statement given to `parse` (None for globals). */
  datatype Var = Var(
    id: int,
    parent: Option<nat>,
    name: Option<string>,
    ty: Option<string>,
    declLoc: Option<int>,
    initLoc: Option<int>,
    isPointer: bool,
    isInit: bool,
    isParam: bool)

  /** A C type string names a pointer or an array: `"*" in t or "[" in t`. */
  predicate PointerType(t: string) {
    '*' in t || '[' in t
  }

  lemma PointerTypeIff(t: string)
    ensures PointerType(t) <==> Contains(t, "*") || Contains(t, "[")
  {
    ContainsChar(t, '*');
    ContainsChar(t, '[');
  }

  /** `Variable.parse(parent, node, decl_loc)`: the record built from a declaration node. */
  function ParseVariable(parent: Option<nat>, node: Node, declLoc: Option<int>): Result<Var> {
    var id :- NodeId(node);
    if node.kind.None? then Fail(KeyError("kind"))
    else
      var isParam := node.kind.value == "ParmVarDecl";
      var init := node.inner.Inner? || isParam;
      var ty :- TypeOf(node);
      Ok(Var(id, parent, node.name, ty, declLoc, if init then declLoc else None,
             ty.Some? && PointerType(ty.value), init, isParam))
  }

  /** What a parsed variable records, field by field, and when parsing raises. */
  lemma ParseVariableFields(parent: Option<nat>, node: Node, declLoc: Option<int>)
    ensures var r := ParseVariable(parent, node, declLoc);
            && (node.id.None? ==> r == Fail(KeyError("id")))
            && (node.id.Some? && PyHexInt(node.id.value).None? ==> r == Fail(ValueError(node.id.value)))
            && (NodeId(node).Ok? && node.kind.None? ==> r == Fail(KeyError("kind")))
            && (r.Ok? <==> node.id.Some? && PyHexInt(node.id.value).Some? && node.kind.Some? && TypeOf(node).Ok?)
            && (r.Ok? ==> r.value.id == PyHexInt(node.id.value).value && r.value.parent == parent)
            && (r.Ok? ==> (r.value.isParam <==> HasKind(node, "ParmVarDecl")))
            && (r.Ok? ==> r.value.declLoc == declLoc)
            && (r.Ok? ==> (r.value.isInit <==> node.inner.Inner? || r.value.isParam))
            && (r.Ok? ==> r.value.initLoc == (if r.value.isInit then declLoc else None))
            && (r.Ok? ==> r.value.ty == TypeOf(node).value)
            && (r.Ok? ==> (r.value.isPointer <==> r.value.ty.Some? && PointerType(r.value.ty.value)))
            && (r.Ok? ==> (r.value.ty.None? ==> !r.value.isPointer))
            && (r.Ok? ==> r.value.name == node.name)
  {
  }
}
