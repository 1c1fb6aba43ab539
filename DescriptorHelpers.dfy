/** Type-reference specificity used by field descriptors (DescriptorHelpers.cs): when a
    descriptor learns a new type for a field, the new reference replaces the configured one
    only if it is "more specific". */
module DescriptorHelpers {
  import opened Wrappers

  datatype TypeContext = NoContext | InputContext | OutputContext

  /** A runtime type as seen by the type inspector; `isSchemaType` is true when the runtime
      type is itself a GraphQL schema type (an ObjectType<...> subclass, say). */
  datatype ExtendedType = ExtendedType(name: string, isSchemaType: bool)

  /** A GraphQL type in syntax form. */
  datatype TypeNode = NamedTypeNode(name: string) | ListTypeNode(element: TypeNode) | NonNullTypeNode(inner: TypeNode)

  /** The kinds of type references a field configuration can hold; `FactoryTypeReference`
      stands for every reference kind that is neither a schema, an extended nor a syntax
      reference. */
  datatype TypeReference =
    | SchemaTypeReference(schemaTypeName: string, context: TypeContext)
    | ExtendedTypeReference(extendedType: ExtendedType, context: TypeContext)
    | SyntaxTypeReference(typeNode: TypeNode, context: TypeContext)
    | FactoryTypeReference(factoryName: string, context: TypeContext)

  /** Decides whether the runtime type `t` is more specific than the configured reference
      (`None` for a null reference). */
  function IsExtendedTypeMoreSpecific(current: Option<TypeReference>, t: ExtendedType): (r: bool)
    ensures current.Some? && current.value.SchemaTypeReference? ==> !r
    ensures current.None? ==> r
  {
    if current.Some? && current.value.SchemaTypeReference? then false
    else if current.None? || t.isSchemaType then true
    else current.value.ExtendedTypeReference? && !current.value.extendedType.isSchemaType
  }

  /** Decides whether the syntax type `node` (`None` for a null node) is more specific than the
      configured reference. */
  function IsTypeNodeMoreSpecific(current: Option<TypeReference>, node: Option<TypeNode>): (r: bool)
    ensures r ==> node.Some?
    ensures current.Some? && current.value.SchemaTypeReference? ==> !r
  {
    if current.Some? && current.value.SchemaTypeReference? then false
    else node.Some? && (current.None? || current.value.SyntaxTypeReference?)
  }

  /** A field configuration; only `typeReference` is touched by the helpers below. */
  class FieldConfiguration {
    var name: string
    var description: Option<string>
    var typeReference: Option<TypeReference>

    constructor (name: string, typeReference: Option<TypeReference>)
      ensures this.name == name && this.typeReference == typeReference && description.None?
    {
      this.name := name;
      this.typeReference := typeReference;
      this.description := None;
    }
  }

  /** `SetMoreSpecificType(definition, IExtendedType, context)`: replaces the type reference by
      one created from `t` when `t` is more specific, and returns the same definition. */
  method SetMoreSpecificExtendedType(definition: FieldConfiguration, t: ExtendedType, context: TypeContext)
    returns (r: FieldConfiguration)
    modifies definition`typeReference
    ensures r == definition
    ensures definition.typeReference ==
      if IsExtendedTypeMoreSpecific(old(definition.typeReference), t)
      then Some(ExtendedTypeReference(t, context))
      else old(definition.typeReference)
    ensures definition.typeReference == Refine(old(definition.typeReference), FromExtendedType(t, context))
  {
    if IsExtendedTypeMoreSpecific(definition.typeReference, t) {
      definition.typeReference := Some(ExtendedTypeReference(t, context));
    }
    r := definition;
  }

  /** `SetMoreSpecificType(definition, ITypeNode, context)`: the syntax-node counterpart. */
  method SetMoreSpecificTypeNode(definition: FieldConfiguration, node: Option<TypeNode>, context: TypeContext)
    returns (r: FieldConfiguration)
    modifies definition`typeReference
    ensures r == definition
    ensures definition.typeReference ==
      if IsTypeNodeMoreSpecific(old(definition.typeReference), node)
      then Some(SyntaxTypeReference(node.value, context))
      else old(definition.typeReference)
    ensures definition.typeReference == Refine(old(definition.typeReference), FromTypeNode(node, context))
  {
    if IsTypeNodeMoreSpecific(definition.typeReference, node) {
      definition.typeReference := Some(SyntaxTypeReference(node.value, context));
    }
    r := definition;
  }

  // ---------------------------------------------------------------------------------------
  // The decision table, stated case by case.

  lemma SchemaReferenceNeverReplaced(name: string, c: TypeContext, t: ExtendedType, node: Option<TypeNode>)
    ensures !IsExtendedTypeMoreSpecific(Some(SchemaTypeReference(name, c)), t)
    ensures !IsTypeNodeMoreSpecific(Some(SchemaTypeReference(name, c)), node)
  {
  }

  /** A null reference, or a runtime type that is a schema type, wins unless a schema
      reference is already configured. */
  lemma ExtendedTypeWins(current: Option<TypeReference>, t: ExtendedType)
    ensures IsExtendedTypeMoreSpecific(current, t) <==>
      (current.None? || !current.value.SchemaTypeReference?) &&
      (current.None? || t.isSchemaType ||
       (current.value.ExtendedTypeReference? && !current.value.extendedType.isSchemaType))
  {
  }

  /** A runtime type that is not a schema type replaces an existing reference only when that
      reference is an extended reference whose own type is not a schema type either. */
  lemma PlainExtendedTypeReplacesOnlyPlainExtended(current: TypeReference, t: ExtendedType)
    requires !t.isSchemaType
    ensures IsExtendedTypeMoreSpecific(Some(current), t) <==>
      current.ExtendedTypeReference? && !current.extendedType.isSchemaType
  {
  }

  /** A syntax node replaces only a null or a syntax reference, and only when it is not null. */
  lemma TypeNodeReplacesOnlyNullOrSyntax(current: Option<TypeReference>, node: Option<TypeNode>)
    ensures IsTypeNodeMoreSpecific(current, node) <==>
      node.Some? && (current.None? || current.value.SyntaxTypeReference?)
  {
  }

  // ---------------------------------------------------------------------------------------
  // Repeated refinement: a descriptor applies a series of type hints to one field.

  datatype TypeHint = FromExtendedType(t: ExtendedType, context: TypeContext)
                    | FromTypeNode(node: Option<TypeNode>, context: TypeContext)

  /** The reference that results from applying one hint, as the two set-methods do. */
  function Refine(current: Option<TypeReference>, hint: TypeHint): (r: Option<TypeReference>)
  {
    match hint
    case FromExtendedType(t, c) =>
      if IsExtendedTypeMoreSpecific(current, t) then Some(ExtendedTypeReference(t, c)) else current
    case FromTypeNode(node, c) =>
      if IsTypeNodeMoreSpecific(current, node) then Some(SyntaxTypeReference(node.value, c)) else current
  }

  function RefineAll(current: Option<TypeReference>, hints: seq<TypeHint>): Option<TypeReference>
    decreases |hints|
  {
    if hints == [] then current else RefineAll(Refine(current, hints[0]), hints[1..])
  }

  /** Once a schema reference is configured, no sequence of hints of either kind replaces it. */
  lemma {:induction false} SchemaReferenceIsFinal(current: Option<TypeReference>, hints: seq<TypeHint>)
    requires current.Some? && current.value.SchemaTypeReference?
    ensures RefineAll(current, hints) == current
    decreases |hints|
  {
    if hints != [] {
      assert Refine(current, hints[0]) == current;
      SchemaReferenceIsFinal(current, hints[1..]);
    }
  }

  /** Applying the same hint twice has the effect of applying it once. */
  lemma RefineIdempotent(current: Option<TypeReference>, hint: TypeHint)
    ensures Refine(Refine(current, hint), hint) == Refine(current, hint)
  {
  }

  /** Once a runtime type that is a schema type has been installed, later runtime types that
      are not schema types never replace it; only another schema runtime type does. */
  lemma {:induction false} SchemaRuntimeTypeSticks(t: ExtendedType, c: TypeContext, hints: seq<TypeHint>)
    requires t.isSchemaType
    requires forall i :: 0 <= i < |hints| ==> hints[i].FromExtendedType? && !hints[i].t.isSchemaType
    ensures RefineAll(Some(ExtendedTypeReference(t, c)), hints) == Some(ExtendedTypeReference(t, c))
    decreases |hints|
  {
    if hints != [] {
      SchemaRuntimeTypeSticks(t, c, hints[1..]);
    }
  }
}
