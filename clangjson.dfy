/** The part of clang's JSON AST dump (`clang -Xclang -ast-dump=json`) that the statement
    parser reads. Every JSON key the parser tests with `in` is an `Option` (or a presence
    flag), so that each branch of the parser on a missing key is representable. */
module ClangJson {
  import opened Common
  import opened PyStr

  /** The `expansionLoc` object nested in a source location. */
  datatype Expansion = Expansion(line: Option<int>, includedFrom: bool)

  /** A `loc`, `range.begin` or `range.end` object: an optional `line`, whether an
      `includedFrom` key is present, an optional `expansionLoc`. */
  datatype SrcLoc = SrcLoc(line: Option<int>, includedFrom: bool, expansionLoc: Option<Expansion>)

  datatype SrcRange = SrcRange(begin: SrcLoc, end: SrcLoc)

  /** The `type` object: `qualType` and, for typedef'd types, `desugaredType`. */
  datatype TypeField = TypeField(qualType: Option<string>, desugaredType: Option<string>)

  /** One node of the dump. `referencedDeclId` is `referencedDecl.id` of a DeclRefExpr. */
  datatype Node = Node(
    id: Option<string>,
    kind: Option<string>,
    name: Option<string>,
    ty: Option<TypeField>,
    loc: Option<SrcLoc>,
    range: Option<SrcRange>,
    storageClass: Option<string>,
    referencedDeclId: Option<string>,
    inner: Inner)

  /** The `inner` key: absent, or the list of child nodes. */
  datatype Inner = NoInner | Inner(elems: seq<Node>)

  predicate HasKind(n: Node, k: string) {
    n.kind == Some(k)
  }

  /** `int(s, 16)`: clang writes node ids as `0x...` hexadecimal strings. */
  function HexId(s: string): Result<int> {
    match PyHexInt(s)
    case Some(v) => Ok(v)
    case None => Fail(ValueError(s))
  }

  /** `int(node["id"], 16)`. */
  function NodeId(n: Node): Result<int> {
    if n.id.None? then Fail(KeyError("id")) else HexId(n.id.value)
  }

  /** The id clang prints for a node is read back as the number it was written from. */
  lemma NodeIdRoundTrip(n: Node, k: nat)
    requires n.id == Some("0x" + NatToHex(k))
    ensures NodeId(n) == Ok(k)
  {
    PyHexIntRoundTrip(k);
  }

  /** The type string of a node: `desugaredType` when present, else `qualType`; no
      `type` key gives no type, a `type` without the chosen key raises KeyError. */
  function TypeOf(n: Node): Result<Option<string>> {
    if n.ty.None? then Ok(None)
    else
      var tag := if n.ty.value.desugaredType.Some? then "desugaredType" else "qualType";
      var chosen := if tag == "desugaredType" then n.ty.value.desugaredType else n.ty.value.qualType;
      if chosen.None? then Fail(KeyError(tag)) else Ok(chosen)
  }

  /** A `desugaredType` wins over a `qualType`; a `type` object with neither is a
      KeyError on `qualType`; a node without `type` has no type. */
  lemma TypeOfCases(n: Node)
    ensures n.ty.None? ==> TypeOf(n) == Ok(None)
    ensures n.ty.Some? && n.ty.value.desugaredType.Some? ==> TypeOf(n) == Ok(n.ty.value.desugaredType)
    ensures n.ty.Some? && n.ty.value.desugaredType.None? ==>
              TypeOf(n) == (if n.ty.value.qualType.Some? then Ok(n.ty.value.qualType) else Fail(KeyError("qualType")))
  {
  }
}
