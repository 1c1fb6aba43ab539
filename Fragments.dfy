/** The fragment productions of the GraphQL parser (Utf8GraphQLParser.Fragments.cs), after
    section 2.8 (Fragments) of the GraphQL June 2018 specification:

      FragmentSpread     : ... FragmentName Directives?
      InlineFragment     : ... TypeCondition? Directives? SelectionSet
      FragmentDefinition : fragment FragmentName VariableDefinitions? on TypeCondition Directives? SelectionSet
      FragmentName       : Name but not `on`

    The parser reads a token stream through a cursor that only moves forward. The functions
    named `...Spec` state, for a token sequence and a start position, what each production
    yields and where it stops; the `Parser` methods consume the same tokens by moving the
    cursor and are proved to agree with them. Names, named types, directives, selection sets
    and variable definitions are parsed by simplified stand-ins (see the README). */
module Fragments {
  import opened Wrappers

  datatype TokenKind =
    | Name | Spread | At | Dollar | Colon | LeftParen | RightParen | LeftBrace | RightBrace
    | StringValue | IntValue | EndOfFile

  /** A token: its kind and the text of its value (for a string token, the string's content). */
  datatype Token = Token(kind: TokenKind, value: string)

  const OnKeyword: string := "on"
  const FragmentKeyword: string := "fragment"

  /** The lexer always ends the stream with an end-of-file token. */
  predicate ValidTokens(ts: seq<Token>)
  {
    |ts| > 0 && ts[|ts| - 1].kind == EndOfFile
  }

  /** The exception `Unexpected(kind)`: the kind of the offending token and where it is. */
  datatype SyntaxError = Unexpected(kind: TokenKind, position: nat)

  datatype NameNode = NameNode(value: string)
  datatype NamedTypeNode = NamedTypeNode(name: NameNode)
  datatype DirectiveNode = DirectiveNode(name: NameNode)
  datatype VariableDefinitionNode = VariableDefinitionNode(variable: NameNode, variableType: NamedTypeNode)
  datatype SelectionSetNode = SelectionSetNode(fields: seq<NameNode>)

  datatype SelectionNode =
    | FragmentSpreadNode(name: NameNode, directives: seq<DirectiveNode>)
    | InlineFragmentNode(typeCondition: Option<NamedTypeNode>, directives: seq<DirectiveNode>, selectionSet: SelectionSetNode)

  datatype FragmentDefinitionNode = FragmentDefinitionNode(
    name: NameNode,
    variableDefinitions: seq<VariableDefinitionNode>,
    typeCondition: NamedTypeNode,
    directives: seq<DirectiveNode>,
    selectionSet: SelectionSetNode)

  /** What a production yields from a start position: the node and the position after it. */
  type Parsed<T> = Result<(T, nat), SyntaxError>

  /** A parse that, when it succeeds, stops inside the stream and not before `i`. */
  predicate Advances<T>(ts: seq<Token>, i: nat, r: Parsed<T>)
  {
    r.Success? ==> i <= r.value.1 < |ts|
  }

  // ---------------------------------------------------------------------------------------
  // The reader.

  /** `MoveNext`: the cursor stays on the end-of-file token once it reaches it. */
  function Next(ts: seq<Token>, i: nat): (j: nat)
    requires ValidTokens(ts) && i < |ts|
    ensures j < |ts|
    ensures j == if ts[i].kind == EndOfFile then i else i + 1
  {
    if ts[i].kind == EndOfFile then i else i + 1
  }

  function ExpectSpec(ts: seq<Token>, i: nat, kind: TokenKind): (r: Parsed<()>)
    requires ValidTokens(ts) && i < |ts|
    ensures Advances(ts, i, r)
    ensures r.Success? <==> ts[i].kind == kind
  {
    if ts[i].kind == kind then Success(((), Next(ts, i))) else Failure(Unexpected(ts[i].kind, i))
  }

  /** A keyword is a name token with that exact text. */
  function ExpectKeywordSpec(ts: seq<Token>, i: nat, keyword: string): (r: Parsed<()>)
    requires ValidTokens(ts) && i < |ts|
    ensures Advances(ts, i, r)
    ensures r.Success? <==> ts[i].kind == Name && ts[i].value == keyword
    ensures r.Success? ==> r.value.1 == i + 1
  {
    if ts[i].kind == Name && ts[i].value == keyword then Success(((), Next(ts, i)))
    else Failure(Unexpected(ts[i].kind, i))
  }

  // ---------------------------------------------------------------------------------------
  // Stand-ins for the sub-parsers this file calls.

  function NameSpec(ts: seq<Token>, i: nat): (r: Parsed<NameNode>)
    requires ValidTokens(ts) && i < |ts|
    ensures Advances(ts, i, r)
    ensures r.Success? <==> ts[i].kind == Name
    ensures r.Success? ==> r.value == (NameNode(ts[i].value), i + 1)
  {
    if ts[i].kind == Name then Success((NameNode(ts[i].value), Next(ts, i))) else Failure(Unexpected(ts[i].kind, i))
  }

  function NamedTypeSpec(ts: seq<Token>, i: nat): (r: Parsed<NamedTypeNode>)
    requires ValidTokens(ts) && i < |ts|
    ensures Advances(ts, i, r)
    ensures r.Success? <==> ts[i].kind == Name
    ensures r.Success? ==> r.value == (NamedTypeNode(NameNode(ts[i].value)), i + 1)
  {
    var n :- NameSpec(ts, i);
    Success((NamedTypeNode(n.0), n.1))
  }

  /** Prepends the items already read to the rest of a list production. */
  function Prepend<T>(items: seq<T>, rest: Parsed<seq<T>>): Parsed<seq<T>>
  {
    match rest
    case Success((xs, e)) => Success((items + xs, e))
    case Failure(err) => Failure(err)
  }

  lemma PrependNothing<T>(rest: Parsed<seq<T>>)
    ensures Prepend([], rest) == rest
  {
    if rest.Success? {
      assert [] + rest.value.0 == rest.value.0;
    }
  }

  lemma PrependTwice<T>(items: seq<T>, more: seq<T>, rest: Parsed<seq<T>>)
    ensures Prepend(items, Prepend(more, rest)) == Prepend(items + more, rest)
  {
    if rest.Success? {
      assert items + (more + rest.value.0) == (items + more) + rest.value.0;
    }
  }

  /** Directives: `@ Name`, repeated while the next token is `@`. */
  function DirectivesSpec(ts: seq<Token>, i: nat): (r: Parsed<seq<DirectiveNode>>)
    requires ValidTokens(ts) && i < |ts|
    ensures Advances(ts, i, r)
    decreases |ts| - i
  {
    if ts[i].kind != At then Success(([], i))
    else
      var n :- NameSpec(ts, Next(ts, i));
      Prepend([DirectiveNode(n.0)], DirectivesSpec(ts, n.1))
  }

  /** The fields of a selection set, up to and including the closing brace. */
  function FieldsSpec(ts: seq<Token>, i: nat): (r: Parsed<seq<NameNode>>)
    requires ValidTokens(ts) && i < |ts|
    ensures Advances(ts, i, r)
    decreases |ts| - i
  {
    if ts[i].kind == RightBrace then Success(([], Next(ts, i)))
    else
      var n :- NameSpec(ts, i);
      Prepend([n.0], FieldsSpec(ts, n.1))
  }

  /** A selection set: `{ Name* }`. */
  function SelectionSetSpec(ts: seq<Token>, i: nat): (r: Parsed<SelectionSetNode>)
    requires ValidTokens(ts) && i < |ts|
    ensures Advances(ts, i, r)
  {
    var open :- ExpectSpec(ts, i, LeftBrace);
    var fields :- FieldsSpec(ts, open.1);
    Success((SelectionSetNode(fields.0), fields.1))
  }

  /** One variable definition: `$ Name : NamedType`. */
  function VariableDefinitionSpec(ts: seq<Token>, i: nat): (r: Parsed<VariableDefinitionNode>)
    requires ValidTokens(ts) && i < |ts|
    ensures Advances(ts, i, r)
    ensures r.Success? ==> r.value.1 > i
  {
    var dollar :- ExpectSpec(ts, i, Dollar);
    var n :- NameSpec(ts, dollar.1);
    var colon :- ExpectSpec(ts, n.1, Colon);
    var t :- NamedTypeSpec(ts, colon.1);
    Success((VariableDefinitionNode(n.0, t.0), t.1))
  }

  /** The variable definitions inside the parentheses, up to and including `)`. */
  function VariableDefinitionListSpec(ts: seq<Token>, i: nat): (r: Parsed<seq<VariableDefinitionNode>>)
    requires ValidTokens(ts) && i < |ts|
    ensures Advances(ts, i, r)
    decreases |ts| - i
  {
    if ts[i].kind == RightParen then Success(([], Next(ts, i)))
    else
      var d :- VariableDefinitionSpec(ts, i);
      Prepend([d.0], VariableDefinitionListSpec(ts, d.1))
  }

  /** Optional variable definitions: nothing unless the next token is `(`. */
  function VariableDefinitionsSpec(ts: seq<Token>, i: nat): (r: Parsed<seq<VariableDefinitionNode>>)
    requires ValidTokens(ts) && i < |ts|
    ensures Advances(ts, i, r)
    ensures ts[i].kind != LeftParen ==> r == Success(([], i))
  {
    if ts[i].kind == LeftParen then VariableDefinitionListSpec(ts, Next(ts, i)) else Success(([], i))
  }

  // ---------------------------------------------------------------------------------------
  // The fragment productions.

  /** `ParseFragmentName`: a name, but never `on` (compared by value). */
  function FragmentNameSpec(ts: seq<Token>, i: nat): (r: Parsed<NameNode>)
    requires ValidTokens(ts) && i < |ts|
    ensures Advances(ts, i, r)
  {
    if ts[i].value == OnKeyword then Failure(Unexpected(ts[i].kind, i)) else NameSpec(ts, i)
  }

  /** `ParseFragmentSpread`, from the token after `...`. */
  function FragmentSpreadSpec(ts: seq<Token>, i: nat): (r: Parsed<SelectionNode>)
    requires ValidTokens(ts) && i < |ts|
    ensures Advances(ts, i, r)
  {
    var n :- FragmentNameSpec(ts, i);
    var ds :- DirectivesSpec(ts, n.1);
    Success((FragmentSpreadNode(n.0, ds.0), ds.1))
  }

  /** `ParseInlineFragment`, from the token after the type condition (if any). */
  function InlineFragmentSpec(ts: seq<Token>, i: nat, typeCondition: Option<NamedTypeNode>): (r: Parsed<SelectionNode>)
    requires ValidTokens(ts) && i < |ts|
    ensures Advances(ts, i, r)
  {
    var ds :- DirectivesSpec(ts, i);
    var ss :- SelectionSetSpec(ts, ds.1);
    Success((InlineFragmentNode(typeCondition, ds.0, ss.0), ss.1))
  }

  /** `ParseFragment`: after `...`, a name other than `on` starts a fragment spread; anything
      else starts an inline fragment, with a type condition when the token reads `on`. */
  function FragmentSpec(ts: seq<Token>, i: nat): (r: Parsed<SelectionNode>)
    requires ValidTokens(ts) && i < |ts|
    ensures Advances(ts, i, r)
  {
    var spread :- ExpectSpec(ts, i, Spread);
    var j := spread.1;
    var isOnKeyword := ts[j].value == OnKeyword;
    if !isOnKeyword && ts[j].kind == Name then
      FragmentSpreadSpec(ts, j)
    else if isOnKeyword then
      var t :- NamedTypeSpec(ts, Next(ts, j));
      InlineFragmentSpec(ts, t.1, Some(t.0))
    else
      InlineFragmentSpec(ts, j, None)
  }

  /** `ParseFragmentDefinition`; variable definitions are read only when fragment variables
      are allowed. */
  function FragmentDefinitionSpec(ts: seq<Token>, i: nat, allowFragmentVars: bool): (r: Parsed<FragmentDefinitionNode>)
    requires ValidTokens(ts) && i < |ts|
    ensures Advances(ts, i, r)
  {
    var kw :- ExpectKeywordSpec(ts, i, FragmentKeyword);
    var n :- FragmentNameSpec(ts, kw.1);
    var vs :- if allowFragmentVars then VariableDefinitionsSpec(ts, n.1) else Success(([], n.1));
    var on :- ExpectKeywordSpec(ts, vs.1, OnKeyword);
    var t :- NamedTypeSpec(ts, on.1);
    var ds :- DirectivesSpec(ts, t.1);
    var ss :- SelectionSetSpec(ts, ds.1);
    Success((FragmentDefinitionNode(n.0, vs.0, t.0, ds.0, ss.0), ss.1))
  }

  // ---------------------------------------------------------------------------------------
  // What the grammar promises.

  /** `...` and a name other than `on` make a fragment spread of that name; it succeeds
      exactly when the directives after the name do. */
  lemma SpreadOfName(ts: seq<Token>, i: nat)
    requires ValidTokens(ts) && i < |ts|
    requires ts[i].kind == Spread && ts[i + 1].kind == Name && ts[i + 1].value != OnKeyword
    ensures FragmentSpec(ts, i).Success? <==> DirectivesSpec(ts, i + 2).Success?
    ensures FragmentSpec(ts, i).Success? ==>
      FragmentSpec(ts, i).value.0 == FragmentSpreadNode(NameNode(ts[i + 1].value), DirectivesSpec(ts, i + 2).value.0)
  {
  }

  /** `... on T` makes an inline fragment whose type condition is `T`; without a name after
      `on` it fails. */
  lemma InlineFragmentOnType(ts: seq<Token>, i: nat)
    requires ValidTokens(ts) && i < |ts|
    requires ts[i].kind == Spread && ts[i + 1].value == OnKeyword
    ensures var k := Next(ts, i + 1);
      && (ts[k].kind != Name ==> FragmentSpec(ts, i).Failure?)
      && (FragmentSpec(ts, i).Success? ==>
            FragmentSpec(ts, i).value.0.InlineFragmentNode? &&
            FragmentSpec(ts, i).value.0.typeCondition == Some(NamedTypeNode(NameNode(ts[k].value))))
  {
  }

  /** `...` followed by anything that is neither a name nor `on` makes an inline fragment
      without a type condition. */
  lemma InlineFragmentWithoutCondition(ts: seq<Token>, i: nat)
    requires ValidTokens(ts) && i < |ts|
    requires ts[i].kind == Spread && ts[i + 1].kind != Name && ts[i + 1].value != OnKeyword
    ensures FragmentSpec(ts, i) == InlineFragmentSpec(ts, i + 1, None)
    ensures FragmentSpec(ts, i).Success? ==>
      FragmentSpec(ts, i).value.0.InlineFragmentNode? && FragmentSpec(ts, i).value.0.typeCondition.None?
  {
  }

  /** Only `...` starts a fragment. */
  lemma FragmentNeedsSpread(ts: seq<Token>, i: nat)
    requires ValidTokens(ts) && i < |ts|
    requires ts[i].kind != Spread
    ensures FragmentSpec(ts, i) == Failure(Unexpected(ts[i].kind, i))
  {
  }

  /** A fragment name reading `on` is rejected. */
  lemma FragmentNameRejectsOn(ts: seq<Token>, i: nat)
    requires ValidTokens(ts) && i < |ts|
    requires ts[i].value == OnKeyword
    ensures FragmentNameSpec(ts, i) == Failure(Unexpected(ts[i].kind, i))
  {
  }

  /** No successful parse yields a fragment spread or a fragment definition named `on`. */
  lemma NoFragmentNamedOn(ts: seq<Token>, i: nat, allowFragmentVars: bool)
    requires ValidTokens(ts) && i < |ts|
    ensures FragmentSpec(ts, i).Success? && FragmentSpec(ts, i).value.0.FragmentSpreadNode? ==>
      FragmentSpec(ts, i).value.0.name.value != OnKeyword
    ensures FragmentDefinitionSpec(ts, i, allowFragmentVars).Success? ==>
      FragmentDefinitionSpec(ts, i, allowFragmentVars).value.0.name.value != OnKeyword
  {
  }

  /** Without fragment variables a definition never has variable definitions, and `on` must
      follow the name directly. */
  lemma DefinitionWithoutFragmentVars(ts: seq<Token>, i: nat)
    requires ValidTokens(ts) && i < |ts|
    ensures FragmentDefinitionSpec(ts, i, false).Success? ==>
      && FragmentDefinitionSpec(ts, i, false).value.0.variableDefinitions == []
      && i + 2 < |ts| && ts[i + 2].kind == Name && ts[i + 2].value == OnKeyword
  {
  }

  /** When no `(` follows the name, both modes parse a definition alike; so a definition
      without `on` after its name fails in both. */
  lemma ModesAgreeWithoutParenthesis(ts: seq<Token>, i: nat)
    requires ValidTokens(ts) && i + 2 < |ts|
    requires ts[i + 2].kind != LeftParen
    ensures FragmentDefinitionSpec(ts, i, true) == FragmentDefinitionSpec(ts, i, false)
    ensures !(ts[i + 2].kind == Name && ts[i + 2].value == OnKeyword) ==>
      FragmentDefinitionSpec(ts, i, true).Failure? && FragmentDefinitionSpec(ts, i, false).Failure?
  {
  }

  /** With fragment variables, the definitions between the name and `on` are those the
      variable-definition production reads there. */
  lemma DefinitionWithFragmentVars(ts: seq<Token>, i: nat)
    requires ValidTokens(ts) && i + 2 < |ts|
    requires FragmentDefinitionSpec(ts, i, true).Success?
    ensures VariableDefinitionsSpec(ts, i + 2).Success?
    ensures FragmentDefinitionSpec(ts, i, true).value.0.variableDefinitions == VariableDefinitionsSpec(ts, i + 2).value.0
    ensures var after := VariableDefinitionsSpec(ts, i + 2).value.1;
      ts[after].kind == Name && ts[after].value == OnKeyword
  {
  }

  // ---------------------------------------------------------------------------------------
  // The parser: a cursor over the token stream.

  /** A method's result agrees with a production: the same node, and the cursor after it; or
      the same error. */
  predicate Agrees<T(==)>(r: Result<T, SyntaxError>, pos: nat, spec: Parsed<T>)
  {
    match spec
    case Success((v, e)) => r == Success(v) && pos == e
    case Failure(err) => r == Failure(err)
  }

  class Parser {
    const tokens: seq<Token>
    const allowFragmentVars: bool
    var pos: nat

    ghost predicate Valid()
      reads this
    {
      ValidTokens(tokens) && pos < |tokens|
    }

    constructor (tokens: seq<Token>, allowFragmentVars: bool)
      requires ValidTokens(tokens)
      ensures Valid() && this.tokens == tokens && this.allowFragmentVars == allowFragmentVars && pos == 0
    {
      this.tokens := tokens;
      this.allowFragmentVars := allowFragmentVars;
      pos := 0;
    }

    method MoveNext()
      requires Valid()
      modifies this`pos
      ensures Valid() && pos == Next(tokens, old(pos))
    {
      if tokens[pos].kind != EndOfFile {
        pos := pos + 1;
      }
    }

    method Expect(kind: TokenKind) returns (r: Result<(), SyntaxError>)
      requires Valid()
      modifies this`pos
      ensures Valid() && Agrees(r, pos, ExpectSpec(tokens, old(pos), kind))
    {
      if tokens[pos].kind != kind {
        return Failure(Unexpected(tokens[pos].kind, pos));
      }
      MoveNext();
      r := Success(());
    }

    method ExpectKeyword(keyword: string) returns (r: Result<(), SyntaxError>)
      requires Valid()
      modifies this`pos
      ensures Valid() && Agrees(r, pos, ExpectKeywordSpec(tokens, old(pos), keyword))
    {
      if tokens[pos].kind != Name || tokens[pos].value != keyword {
        return Failure(Unexpected(tokens[pos].kind, pos));
      }
      MoveNext();
      r := Success(());
    }

    method ParseName() returns (r: Result<NameNode, SyntaxError>)
      requires Valid()
      modifies this`pos
      ensures Valid() && Agrees(r, pos, NameSpec(tokens, old(pos)))
    {
      if tokens[pos].kind != Name {
        return Failure(Unexpected(tokens[pos].kind, pos));
      }
      var name := NameNode(tokens[pos].value);
      MoveNext();
      r := Success(name);
    }

    method ParseNamedType() returns (r: Result<NamedTypeNode, SyntaxError>)
      requires Valid()
      modifies this`pos
      ensures Valid() && Agrees(r, pos, NamedTypeSpec(tokens, old(pos)))
    {
      var name :- ParseName();
      r := Success(NamedTypeNode(name));
    }

    method ParseDirectives() returns (r: Result<seq<DirectiveNode>, SyntaxError>)
      requires Valid()
      modifies this`pos
      ensures Valid() && Agrees(r, pos, DirectivesSpec(tokens, old(pos)))
    {
      var directives: seq<DirectiveNode> := [];
      PrependNothing(DirectivesSpec(tokens, pos));
      while tokens[pos].kind == At
        invariant Valid()
        invariant DirectivesSpec(tokens, old(pos)) == Prepend(directives, DirectivesSpec(tokens, pos))
        decreases |tokens| - pos
      {
        MoveNext();
        var name :- ParseName();
        PrependTwice(directives, [DirectiveNode(name)], DirectivesSpec(tokens, pos));
        directives := directives + [DirectiveNode(name)];
      }
      assert directives + [] == directives;
      r := Success(directives);
    }

    method ParseSelectionSet() returns (r: Result<SelectionSetNode, SyntaxError>)
      requires Valid()
      modifies this`pos
      ensures Valid() && Agrees(r, pos, SelectionSetSpec(tokens, old(pos)))
    {
      var open :- Expect(LeftBrace);
      ghost var start := pos;
      var fields: seq<NameNode> := [];
      PrependNothing(FieldsSpec(tokens, pos));
      while tokens[pos].kind != RightBrace
        invariant Valid()
        invariant FieldsSpec(tokens, start) == Prepend(fields, FieldsSpec(tokens, pos))
        decreases |tokens| - pos
      {
        var name :- ParseName();
        PrependTwice(fields, [name], FieldsSpec(tokens, pos));
        fields := fields + [name];
      }
      MoveNext();
      assert fields + [] == fields;
      r := Success(SelectionSetNode(fields));
    }

    method ParseVariableDefinition() returns (r: Result<VariableDefinitionNode, SyntaxError>)
      requires Valid()
      modifies this`pos
      ensures Valid() && Agrees(r, pos, VariableDefinitionSpec(tokens, old(pos)))
    {
      var dollar :- Expect(Dollar);
      var name :- ParseName();
      var colon :- Expect(Colon);
      var t :- ParseNamedType();
      r := Success(VariableDefinitionNode(name, t));
    }

    method ParseVariableDefinitions() returns (r: Result<seq<VariableDefinitionNode>, SyntaxError>)
      requires Valid()
      modifies this`pos
      ensures Valid() && Agrees(r, pos, VariableDefinitionsSpec(tokens, old(pos)))
    {
      if tokens[pos].kind != LeftParen {
        return Success([]);
      }
      MoveNext();
      ghost var start := pos;
      var definitions: seq<VariableDefinitionNode> := [];
      PrependNothing(VariableDefinitionListSpec(tokens, pos));
      while tokens[pos].kind != RightParen
        invariant Valid()
        invariant VariableDefinitionListSpec(tokens, start) ==
          Prepend(definitions, VariableDefinitionListSpec(tokens, pos))
        decreases |tokens| - pos
      {
        var d :- ParseVariableDefinition();
        PrependTwice(definitions, [d], VariableDefinitionListSpec(tokens, pos));
        definitions := definitions + [d];
      }
      MoveNext();
      assert definitions + [] == definitions;
      r := Success(definitions);
    }

    method ParseFragmentName() returns (r: Result<NameNode, SyntaxError>)
      requires Valid()
      modifies this`pos
      ensures Valid() && Agrees(r, pos, FragmentNameSpec(tokens, old(pos)))
    {
      if tokens[pos].value == OnKeyword {
        return Failure(Unexpected(tokens[pos].kind, pos));
      }
      r := ParseName();
    }

    method ParseFragmentSpread() returns (r: Result<SelectionNode, SyntaxError>)
      requires Valid()
      modifies this`pos
      ensures Valid() && Agrees(r, pos, FragmentSpreadSpec(tokens, old(pos)))
    {
      var name :- ParseFragmentName();
      var directives :- ParseDirectives();
      r := Success(FragmentSpreadNode(name, directives));
    }

    method ParseInlineFragment(typeCondition: Option<NamedTypeNode>) returns (r: Result<SelectionNode, SyntaxError>)
      requires Valid()
      modifies this`pos
      ensures Valid() && Agrees(r, pos, InlineFragmentSpec(tokens, old(pos), typeCondition))
    {
      var directives :- ParseDirectives();
      var selectionSet :- ParseSelectionSet();
      r := Success(InlineFragmentNode(typeCondition, directives, selectionSet));
    }

    method ParseFragment() returns (r: Result<SelectionNode, SyntaxError>)
      requires Valid()
      modifies this`pos
      ensures Valid() && Agrees(r, pos, FragmentSpec(tokens, old(pos)))
    {
      var spread :- Expect(Spread);
      var isOnKeyword := tokens[pos].value == OnKeyword;
      if !isOnKeyword && tokens[pos].kind == Name {
        r := ParseFragmentSpread();
        return;
      }
      var typeCondition: Option<NamedTypeNode> := None;
      if isOnKeyword {
        MoveNext();
        var t :- ParseNamedType();
        typeCondition := Some(t);
      }
      r := ParseInlineFragment(typeCondition);
    }

    method ParseFragmentDefinition() returns (r: Result<FragmentDefinitionNode, SyntaxError>)
      requires Valid()
      modifies this`pos
      ensures Valid() && Agrees(r, pos, FragmentDefinitionSpec(tokens, old(pos), allowFragmentVars))
    {
      var kw :- ExpectKeyword(FragmentKeyword);
      if allowFragmentVars {
        var name :- ParseFragmentName();
        var variableDefinitions :- ParseVariableDefinitions();
        var on :- ExpectKeyword(OnKeyword);
        var typeCondition :- ParseNamedType();
        var directives :- ParseDirectives();
        var selectionSet :- ParseSelectionSet();
        r := Success(FragmentDefinitionNode(name, variableDefinitions, typeCondition, directives, selectionSet));
      } else {
        var name :- ParseFragmentName();
        var on :- ExpectKeyword(OnKeyword);
        var typeCondition :- ParseNamedType();
        var directives :- ParseDirectives();
        var selectionSet :- ParseSelectionSet();
        r := Success(FragmentDefinitionNode(name, [], typeCondition, directives, selectionSet));
      }
    }
  }
}
