/** The variable rules of the GraphQL document validator (VariableVisitor.cs), after the
    GraphQL June 2018 specification, sections 5.8.1 to 5.8.5: unique variable names,
    variables are input types, all variables used, all variable uses defined, and all
    variable usages allowed. */
module VariableRules {
  import opened Wrappers

  /** A GraphQL type, used both for the syntax type a variable is declared with and for the
      schema type expected at the place where the variable is used. */
  datatype TypeRef = Named(name: string) | ListOf(element: TypeRef) | NonNull(inner: TypeRef)

  /** Types the parser and the schema can produce: a non-null type never wraps a non-null
      type directly. */
  predicate WellFormed(t: TypeRef)
  {
    match t
    case Named(_) => true
    case ListOf(e) => WellFormed(e)
    case NonNull(i) => !i.NonNull? && WellFormed(i)
  }

  /** `NullableType()`: strips one non-null wrapper. */
  function NullableType(t: TypeRef): (r: TypeRef)
    ensures WellFormed(t) ==> WellFormed(r) && !r.NonNull?
    ensures !t.NonNull? ==> r == t
  {
    if t.NonNull? then t.inner else t
  }

  /** `AreTypesCompatible`: can a value of the variable's declared type flow into a place
      expecting `locationType`? */
  function AreTypesCompatible(variableType: TypeRef, locationType: TypeRef): bool
    decreases variableType
  {
    if locationType.NonNull? then
      if variableType.NonNull? then AreTypesCompatible(variableType.inner, locationType.inner)
      else false
    else if variableType.NonNull? then
      AreTypesCompatible(variableType.inner, locationType)
    else if locationType.ListOf? then
      if variableType.ListOf? then AreTypesCompatible(variableType.element, locationType.element)
      else false
    else if variableType.ListOf? then
      false
    else
      variableType.name == locationType.name
  }

  /** A literal value; only the distinction between the `null` literal and the others
      matters here. */
  datatype ValueNode = NullValue | Literal(text: string)

  /** `IsNull()` on an optional value node: absent or the `null` literal. */
  predicate IsNull(v: Option<ValueNode>)
  {
    v.None? || v.value.NullValue?
  }

  datatype VariableDefinition = VariableDefinition(name: string, variableType: TypeRef, defaultValue: Option<ValueNode>)

  /** `IsVariableUsageAllowed`: a nullable variable may flow into a non-null location only
      when the variable or the location supplies a default. */
  function IsVariableUsageAllowed(definition: VariableDefinition, locationType: TypeRef, locationDefault: Option<ValueNode>): bool
  {
    if locationType.NonNull? && !definition.variableType.NonNull? then
      if IsNull(definition.defaultValue) && IsNull(locationDefault) then false
      else AreTypesCompatible(definition.variableType, NullableType(locationType))
    else
      AreTypesCompatible(definition.variableType, locationType)
  }

  // ---------------------------------------------------------------------------------------
  // Compatibility, case by case.

  lemma CompatibilityCases(v: TypeRef, l: TypeRef, n: string)
    // a non-null location needs a non-null variable, compared after stripping both
    ensures AreTypesCompatible(v, NonNull(l)) <==> v.NonNull? && AreTypesCompatible(v.inner, l)
    // a non-null variable at a nullable location is compared by its inner type
    ensures !l.NonNull? ==> AreTypesCompatible(NonNull(v), l) == AreTypesCompatible(v, l)
    // a list location needs a list variable (possibly non-null)
    ensures !v.NonNull? ==> (AreTypesCompatible(v, ListOf(l)) <==> v.ListOf? && AreTypesCompatible(v.element, l))
    // a list variable never fits a named location
    ensures !AreTypesCompatible(ListOf(v), Named(n))
    // named types are compatible iff their names are equal
    ensures l.Named? && v.Named? ==> (AreTypesCompatible(v, l) <==> v.name == l.name)
  {
  }

  /** Every type is compatible with itself. */
  lemma {:induction false} CompatibleReflexive(t: TypeRef)
    ensures AreTypesCompatible(t, t)
    decreases t
  {
    match t
    case Named(_) =>
    case ListOf(e) => CompatibleReflexive(e);
    case NonNull(i) => CompatibleReflexive(i);
  }

  /** A non-null variable fits the nullable form of its own type. */
  lemma NonNullFitsNullableForm(t: TypeRef)
    requires WellFormed(t)
    ensures AreTypesCompatible(NonNull(t), NullableType(t))
  {
    CompatibleReflexive(NullableType(t));
  }

  // ---------------------------------------------------------------------------------------
  // An independent reading of compatibility: flatten a type into its levels, outermost
  // first, each a list level or the named base, with the level's non-null flag.

  datatype Layer = ListLayer(nonNull: bool) | NamedLayer(name: string, nonNull: bool)

  function Layers(t: TypeRef): (ls: seq<Layer>)
    ensures |ls| >= 1 && (ls[0].nonNull <==> t.NonNull?)
    decreases t
  {
    match t
    case Named(n) => [NamedLayer(n, false)]
    case ListOf(e) => [ListLayer(false)] + Layers(e)
    case NonNull(i) =>
      var inner := Layers(i);
      [inner[0].(nonNull := true)] + inner[1..]
  }

  /** One level of the variable's type fits one level of the location's type: same kind,
      same name for the base, and non-null wherever the location is non-null. */
  predicate LayerAllowed(v: Layer, l: Layer)
  {
    (match v
     case ListLayer(_) => l.ListLayer?
     case NamedLayer(n, _) => l.NamedLayer? && l.name == n)
    && (l.nonNull ==> v.nonNull)
  }

  predicate LayersAllowed(vs: seq<Layer>, ls: seq<Layer>)
  {
    |vs| == |ls| && forall i :: 0 <= i < |vs| ==> LayerAllowed(vs[i], ls[i])
  }

  lemma ConsAllowed(a: Layer, b: Layer, vs: seq<Layer>, ls: seq<Layer>)
    ensures LayersAllowed([a] + vs, [b] + ls) <==> LayerAllowed(a, b) && LayersAllowed(vs, ls)
  {
    var vs', ls' := [a] + vs, [b] + ls;
    if |vs| == |ls| {
      if LayersAllowed(vs', ls') {
        assert LayerAllowed(vs'[0], ls'[0]);
        forall i | 0 <= i < |vs| ensures LayerAllowed(vs[i], ls[i]) {
          assert vs'[i + 1] == vs[i] && ls'[i + 1] == ls[i];
          assert LayerAllowed(vs'[i + 1], ls'[i + 1]);
        }
      }
      if LayerAllowed(a, b) && LayersAllowed(vs, ls) {
        forall i | 0 <= i < |vs'| ensures LayerAllowed(vs'[i], ls'[i]) {
          if i > 0 {
            assert vs'[i] == vs[i - 1] && ls'[i] == ls[i - 1];
          }
        }
      }
    }
  }

  /** Two layer lists that agree below their heads, and whose heads are equally allowed, are
      equally allowed. */
  lemma HeadDecides(vs: seq<Layer>, ls: seq<Layer>, vs': seq<Layer>, ls': seq<Layer>)
    requires |vs| >= 1 && |vs'| == |vs| && |ls| >= 1 && |ls'| == |ls|
    requires vs[1..] == vs'[1..] && ls[1..] == ls'[1..]
    requires LayerAllowed(vs[0], ls[0]) == LayerAllowed(vs'[0], ls'[0])
    ensures LayersAllowed(vs, ls) == LayersAllowed(vs', ls')
  {
    assert vs == [vs[0]] + vs[1..] && vs' == [vs'[0]] + vs'[1..];
    assert ls == [ls[0]] + ls[1..] && ls' == [ls'[0]] + ls'[1..];
    ConsAllowed(vs[0], ls[0], vs[1..], ls[1..]);
    ConsAllowed(vs'[0], ls'[0], vs'[1..], ls'[1..]);
  }

  /** `AreTypesCompatible` agrees with the level-by-level reading for every variable type and
      every well-formed location type. */
  lemma {:induction false} CompatibleIffLayersAllowed(v: TypeRef, l: TypeRef)
    requires WellFormed(l)
    ensures AreTypesCompatible(v, l) <==> LayersAllowed(Layers(v), Layers(l))
    decreases v
  {
    var lv, ll := Layers(v), Layers(l);
    if l.NonNull? {
      if v.NonNull? {
        CompatibleIffLayersAllowed(v.inner, l.inner);
        HeadDecides(lv, ll, Layers(v.inner), Layers(l.inner));
      } else {
        assert !LayerAllowed(lv[0], ll[0]);
      }
    } else if v.NonNull? {
      CompatibleIffLayersAllowed(v.inner, l);
      HeadDecides(lv, ll, Layers(v.inner), ll);
    } else if l.ListOf? {
      if v.ListOf? {
        CompatibleIffLayersAllowed(v.element, l.element);
        ConsAllowed(ListLayer(false), ListLayer(false), Layers(v.element), Layers(l.element));
      } else {
        assert !LayerAllowed(lv[0], ll[0]);
      }
    } else if v.ListOf? {
      assert !LayerAllowed(lv[0], ll[0]);
    } else {
      assert LayersAllowed(lv, ll) <==> LayerAllowed(lv[0], ll[0]);
    }
  }

  // ---------------------------------------------------------------------------------------
  // Usage, with and without defaults.

  /** Without any default, a usage is allowed exactly when the types are compatible. */
  lemma UsageWithoutDefault(definition: VariableDefinition, locationType: TypeRef, locationDefault: Option<ValueNode>)
    requires IsNull(definition.defaultValue) && IsNull(locationDefault)
    ensures IsVariableUsageAllowed(definition, locationType, locationDefault) ==
            AreTypesCompatible(definition.variableType, locationType)
    ensures locationType.NonNull? && !definition.variableType.NonNull? ==>
            !IsVariableUsageAllowed(definition, locationType, locationDefault)
  {
  }

  /** With a default on either side, the outermost non-null of the location is waived. */
  lemma UsageWithDefault(definition: VariableDefinition, locationType: TypeRef, locationDefault: Option<ValueNode>)
    requires WellFormed(locationType)
    requires !IsNull(definition.defaultValue) || !IsNull(locationDefault)
    ensures IsVariableUsageAllowed(definition, locationType, locationDefault) ==
            AreTypesCompatible(definition.variableType, NullableType(locationType))
  {
  }

  /** A default never turns an allowed usage into a rejected one. */
  lemma DefaultsOnlyRelax(definition: VariableDefinition, locationType: TypeRef, locationDefault: Option<ValueNode>)
    requires WellFormed(locationType)
    requires AreTypesCompatible(definition.variableType, locationType)
    ensures IsVariableUsageAllowed(definition, locationType, locationDefault)
  {
  }

  // ---------------------------------------------------------------------------------------
  // The visitor's bookkeeping.

  datatype ValidationError =
    | VariableNotUsed(names: set<string>)
    | VariableNotDeclared(names: set<string>)
    | VariableNotInputType(name: string)
    | VariableNameNotUnique(name: string)
    | VariableIsNotCompatible(name: string)

  /** The kind of the syntax node that holds a variable usage. */
  datatype SyntaxKind = ArgumentKind | ObjectFieldKind | ListValueKind | OtherKind

  /** The default of the place a variable is used: the default of the argument or input field
      on top of the input-field stack, and none elsewhere. */
  function LocationDefault(parentKind: SyntaxKind, inputFieldDefault: Option<ValueNode>): (r: Option<ValueNode>)
    ensures r.Some? ==> parentKind in {ArgumentKind, ObjectFieldKind}
  {
    match parentKind
    case ArgumentKind => inputFieldDefault
    case ObjectFieldKind => inputFieldDefault
    case _ => None
  }

  /** The per-operation state of the rule. */
  class VariableVisitorFeature {
    var variableNames: set<string>
    var used: set<string>
    var declared: set<string>
    var unused: set<string>

    constructor ()
      ensures variableNames == {} && used == {} && declared == {} && unused == {}
    {
      variableNames, used, declared, unused := {}, {}, {}, {};
    }

    method Reset()
      modifies this
      ensures variableNames == {} && used == {} && declared == {} && unused == {}
    {
      variableNames, used, declared, unused := {}, {}, {}, {};
    }
  }

  /** The errors reported when leaving an operation, given what remains of the unused and the
      used sets. */
  function LeaveErrors(notUsed: set<string>, notDeclared: set<string>): (r: seq<ValidationError>)
    ensures |r| <= 2
    ensures VariableNotUsed(notUsed) in r <==> notUsed != {}
    ensures VariableNotDeclared(notDeclared) in r <==> notDeclared != {}
    ensures forall e :: e in r ==> e == VariableNotUsed(notUsed) || e == VariableNotDeclared(notDeclared)
    ensures |r| == 2 ==> r[0] == VariableNotUsed(notUsed) && r[1] == VariableNotDeclared(notDeclared)
  {
    (if notUsed != {} then [VariableNotUsed(notUsed)] else []) +
    (if notDeclared != {} then [VariableNotDeclared(notDeclared)] else [])
  }

  datatype Outcome = Done | FeatureMissing

  /** The validation context as far as the rule uses it: its feature slot and the errors
      reported so far. */
  class VariableVisitor {
    var feature: VariableVisitorFeature?
    var errors: seq<ValidationError>

    constructor ()
      ensures feature == null && errors == []
    {
      feature := null;
      errors := [];
    }

    /** Inside an operation the unused and the declared sets and the names seen so far are
        the same set: each definition adds to all three. */
    ghost predicate Tracking()
      reads this, feature
    {
      feature != null && feature.unused == feature.declared && feature.variableNames == feature.declared
    }

    /** Entering an operation gets or creates the feature and clears all four sets. */
    method EnterOperation()
      modifies this, feature
      ensures feature != null && (old(feature) != null ==> feature == old(feature))
      ensures old(feature) == null ==> fresh(feature)
      ensures feature.variableNames == {} && feature.used == {} && feature.declared == {} && feature.unused == {}
      ensures errors == old(errors)
      ensures Tracking()
    {
      if feature == null {
        feature := new VariableVisitorFeature();
      }
      feature.Reset();
    }

    /** Leaving an operation reports the declared-but-unused and the used-but-undeclared
        names, each only when there are some. */
    method LeaveOperation() returns (outcome: Outcome)
      modifies this, feature
      ensures feature == old(feature)
      ensures old(feature) == null ==> outcome == FeatureMissing && errors == old(errors)
      ensures old(feature) != null ==>
        && outcome == Done
        && feature.unused == old(feature.unused) - old(feature.used)
        && feature.used == old(feature.used) - old(feature.declared)
        && feature.declared == old(feature.declared)
        && feature.variableNames == old(feature.variableNames)
        && errors == old(errors) + LeaveErrors(feature.unused, feature.used)
      ensures old(Tracking()) ==>
        errors == old(errors) + LeaveErrors(old(feature.declared) - old(feature.used),
                                            old(feature.used) - old(feature.declared))
    {
      if feature == null {
        return FeatureMissing;
      }
      feature.unused := feature.unused - feature.used;
      feature.used := feature.used - feature.declared;
      errors := errors + LeaveErrors(feature.unused, feature.used);
      outcome := Done;
    }

    /** Entering a variable definition records the name as declared and as unused, reports a
        declared type the schema knows as a non-input type (`schemaType` is the schema's
        answer: `None` when it does not know the type, otherwise whether it is an input type),
        and reports a second definition of the same name. */
    method EnterVariableDefinition(name: string, schemaType: Option<bool>) returns (outcome: Outcome)
      modifies this, feature
      ensures feature == old(feature)
      ensures old(feature) == null ==> outcome == FeatureMissing && errors == old(errors)
      ensures old(feature) != null ==>
        && outcome == Done
        && feature.unused == old(feature.unused) + {name}
        && feature.declared == old(feature.declared) + {name}
        && feature.variableNames == old(feature.variableNames) + {name}
        && feature.used == old(feature.used)
        && errors == old(errors)
                     + (if schemaType == Some(false) then [VariableNotInputType(name)] else [])
                     + (if name in old(feature.variableNames) then [VariableNameNotUnique(name)] else [])
      ensures old(Tracking()) ==> Tracking()
    {
      if feature == null {
        return FeatureMissing;
      }
      feature.unused := feature.unused + {name};
      feature.declared := feature.declared + {name};
      if schemaType == Some(false) {
        errors := errors + [VariableNotInputType(name)];
      }
      var added := name !in feature.variableNames;
      feature.variableNames := feature.variableNames + {name};
      if !added {
        errors := errors + [VariableNameNotUnique(name)];
      }
      outcome := Done;
    }

    /** Entering a variable usage records the name as used and reports a usage that the
        variable's definition (looked up in `variables`) does not allow at the current
        location type. */
    method EnterVariable(name: string, variables: map<string, VariableDefinition>, locationType: TypeRef,
                         parentKind: SyntaxKind, inputFieldDefault: Option<ValueNode>)
      returns (outcome: Outcome)
      modifies this, feature
      ensures feature == old(feature)
      ensures old(feature) == null ==> outcome == FeatureMissing && errors == old(errors)
      ensures old(feature) != null ==>
        && outcome == Done
        && feature.used == old(feature.used) + {name}
        && feature.unused == old(feature.unused)
        && feature.declared == old(feature.declared)
        && feature.variableNames == old(feature.variableNames)
        && errors == old(errors) +
             (if name in variables &&
                 !IsVariableUsageAllowed(variables[name], locationType, LocationDefault(parentKind, inputFieldDefault))
              then [VariableIsNotCompatible(name)] else [])
      ensures old(Tracking()) ==> Tracking()
    {
      if feature == null {
        return FeatureMissing;
      }
      feature.used := feature.used + {name};
      var locationDefault := LocationDefault(parentKind, inputFieldDefault);
      if name in variables && !IsVariableUsageAllowed(variables[name], locationType, locationDefault) {
        errors := errors + [VariableIsNotCompatible(name)];
      }
      outcome := Done;
    }
  }
}
