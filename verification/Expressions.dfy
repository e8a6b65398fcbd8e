/** Parsed expressions and the type and multiplicity tests that candidates must pass. */
module Expressions {
  import opened Text
  import opened ExpressionLists

  datatype ExpectedType = ExpectedType(className: string, plural: bool)

  datatype Multiplicity = Single | Multiple | Both

  datatype NodeKind =
    | Grouped
    | List(conjunction: Conjunction)
    | Registered(registrationId: string)
    | Variable
    | Literal
    | Function
    | Arithmetic(operator: string)
    | Custom
    | Default

  /** Mapping from a declared parameter to the children parsed for it. */
  datatype FunctionArgument = FunctionArgument(
    parameterName: string,
    suppliedName: Option<string>,
    childStart: nat,
    childCount: nat,
    omitted: bool)

  datatype FunctionCall = FunctionCall(
    name: string,
    definitionId: string,
    registrationId: string,
    arguments: seq<FunctionArgument>)

  datatype Result<+T> = Ok(value: T) | Err(error: Error)

  datatype Error = DepthLimit | CandidateLimit | MemoLimit | InvalidInputRange | SourceMap | Environment

  /** `effects` is the token of work that was deferred for the node. */
  datatype Node = Node(
    kind: NodeKind,
    span: Range,
    returnType: Option<string>,
    possibleReturnTypes: seq<string>,
    multiplicity: Option<Multiplicity>,
    call: Option<FunctionCall>,
    effects: Option<nat>,
    children: seq<Node>)

  datatype Candidate = Candidate(node: Node, expectedAlternative: Option<nat>)

  const OBJECT := "java.lang.Object"

  /** The conversions of a catalog. */
  datatype Conversions = Conversions(canConvert: (string, string) -> bool) {
    predicate ReturnTypeMatches(returnType: Option<string>, expected: seq<ExpectedType>) {
      || expected == []
      || (returnType.Some? && exists i :: 0 <= i < |expected| && Converts(returnType.value, expected[i].className))
    }

    predicate Converts(from: string, to: string) {
      to == OBJECT || (from != OBJECT && canConvert(from, to))
    }

    predicate MultiplicityMatches(multiplicity: Option<Multiplicity>, expected: seq<ExpectedType>) {
      || expected == []
      || exists i :: 0 <= i < |expected| && Admits(multiplicity, expected[i])
    }

    predicate Admits(multiplicity: Option<Multiplicity>, expected: ExpectedType) {
      multiplicity == Some(Multiple) ==> expected.plural
    }

    predicate ExpressionTypesMatch(returnType: Option<string>, possible: seq<string>, multiplicity: Option<Multiplicity>,
                                   expected: seq<ExpectedType>) {
      && (|| ReturnTypeMatches(returnType, expected)
          || exists i :: 0 <= i < |possible| && ReturnTypeMatches(Some(possible[i]), expected))
      && MultiplicityMatches(multiplicity, expected)
    }

    /** The multiplicity asked for at every level; through groups and lists, the types
        asked for at every member that is neither. */
    predicate Fits(node: Node, expected: seq<ExpectedType>) {
      && MultiplicityMatches(node.multiplicity, expected)
      && match node.kind
         case Grouped => |node.children| == 1 && Fits(node.children[0], expected)
         case List(_) => |node.children| >= 2 && forall i :: 0 <= i < |node.children| ==> Fits(node.children[i], expected)
         case _ => ExpressionTypesMatch(node.returnType, node.possibleReturnTypes, node.multiplicity, expected)
    }
  }
}
