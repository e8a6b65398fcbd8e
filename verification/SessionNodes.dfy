/** The nodes that a session builds, and that each fits the types it was asked for. */
module SessionNodes {
  import opened Text
  import opened ExpressionLists
  import opened Expressions
  import opened SessionState
  import FC = FunctionCalls

  function GroupNode(span: Range, child: Node): Node {
    Node(Grouped, span, child.returnType, child.possibleReturnTypes, child.multiplicity, None, None, [child])
  }

  lemma {:induction false} GroupFits(rel: Conversions, span: Range, child: Node, expected: seq<ExpectedType>)
    requires rel.Fits(child, expected)
    ensures rel.Fits(GroupNode(span, child), expected)
  {}

  function Grouping(span: Range, inner: seq<Candidate>): (r: seq<Candidate>)
    ensures |r| == |inner|
    ensures forall i :: 0 <= i < |r| ==> r[i] == Candidate(GroupNode(span, inner[i].node), inner[i].expectedAlternative)
  {
    seq(|inner|, i requires 0 <= i < |inner| => Candidate(GroupNode(span, inner[i].node), inner[i].expectedAlternative))
  }

  lemma GroupingFits(rel: Conversions, span: Range, inner: seq<Candidate>, expected: seq<ExpectedType>)
    requires SessionState.AllFit(rel, inner, expected)
    ensures SessionState.AllFit(rel, Grouping(span, inner), expected)
  {
    forall i | 0 <= i < |inner| ensures rel.Fits(Grouping(span, inner)[i].node, expected) {
      GroupFits(rel, span, inner[i].node, expected);
    }
  }

  // --------------------------------------------------------------------------- leaves

  /** `valid_leaf`. */
  ghost predicate LeafAccepted(rel: Conversions, white: char -> bool, source: string, leaf: Leaf, request: Request, ends: seq<nat>) {
    && request.range.start <= leaf.range.start && leaf.range.end <= request.range.end
    && (leaf.kind == FunctionLeaf <==> leaf.call.Some?)
    && (leaf.call.Some? ==> FC.Owned(white, leaf.call.value, |leaf.children|) && ChildrenInside(leaf))
    && leaf.range.start == request.range.start && leaf.range.end in ends && leaf.range.Within(source)
    && (leaf.kind == LiteralLeaf ==> request.allowLiterals) && (leaf.kind != LiteralLeaf ==> request.allowExpressions)
    && rel.ReturnTypeMatches(leaf.returnType, request.expected)
    && rel.MultiplicityMatches(leaf.multiplicity, request.expected)
  }

  predicate ChildrenInside(leaf: Leaf) {
    forall i :: 0 <= i < |leaf.children| ==> leaf.range.start <= leaf.children[i].span.start && leaf.children[i].span.end <= leaf.range.end
  }

  function LeafNode(leaf: Leaf): Node {
    Node(
      match leaf.kind case VariableLeaf => Variable case LiteralLeaf => Literal case FunctionLeaf => Function case CustomLeaf => Custom,
      leaf.range, leaf.returnType, if leaf.returnType.Some? then [leaf.returnType.value] else [], leaf.multiplicity, leaf.call,
      leaf.effects, leaf.children)
  }

  lemma {:induction false} LeafFits(rel: Conversions, white: char -> bool, source: string, leaf: Leaf, request: Request, ends: seq<nat>)
    requires LeafAccepted(rel, white, source, leaf, request, ends)
    ensures rel.Fits(LeafNode(leaf), request.expected)
  {}

  // ----------------------------------------------------------------------- operations

  function ArithmeticNode(span: Range, operator: string, returnType: string, left: Node, right: Node): Node {
    Node(Arithmetic(operator), span, Some(returnType), [returnType], Some(Single), None, None, [left, right])
  }

  lemma {:induction false} ArithmeticFits(rel: Conversions, span: Range, operator: string, returnType: string, left: Node, right: Node, expected: seq<ExpectedType>)
    requires rel.ReturnTypeMatches(Some(returnType), expected)
    ensures rel.Fits(ArithmeticNode(span, operator, returnType, left, right), expected)
  {
    SingleMatches(rel, expected);
  }

  lemma SingleMatches(rel: Conversions, expected: seq<ExpectedType>)
    ensures rel.MultiplicityMatches(Some(Single), expected)
  {
    if expected != [] { assert rel.Admits(Some(Single), expected[0]); }
  }

  // ------------------------------------------------------------------------ functions

  predicate Usable(rel: Conversions, definition: FC.Definition, expected: seq<ExpectedType>) {
    && definition.returnType.Some?
    && rel.ReturnTypeMatches(definition.returnType, expected)
    && rel.MultiplicityMatches(Some(definition.ReturnMultiplicity()), expected)
  }

  function FunctionNode(span: Range, definition: FC.Definition, call: FunctionCall, children: seq<Node>): Node {
    Node(Function, span, definition.returnType, if definition.returnType.Some? then [definition.returnType.value] else [],
         Some(definition.ReturnMultiplicity()), Some(call), None, children)
  }

  lemma {:induction false} FunctionFits(rel: Conversions, span: Range, definition: FC.Definition, call: FunctionCall, children: seq<Node>, expected: seq<ExpectedType>)
    requires Usable(rel, definition, expected)
    ensures rel.Fits(FunctionNode(span, definition, call, children), expected)
  {}

  /** The definitions that return what is expected, those of one signature kind. */
  function UsableOf(rel: Conversions, definitions: seq<FC.Definition>, expected: seq<ExpectedType>, list: bool): (r: seq<FC.Definition>)
    ensures forall i :: 0 <= i < |r| ==> Usable(rel, r[i], expected) && r[i].ListSignature() == list && r[i] in definitions
  {
    if definitions == [] then []
    else
      var last := definitions[|definitions| - 1];
      var before := UsableOf(rel, definitions[..|definitions| - 1], expected, list);
      if Usable(rel, last, expected) && last.ListSignature() == list then before + [last] else before
  }

  // ----------------------------------------------------------------------- registered

  function RegisteredNode(span: Range, id: string, m: Metadata, children: seq<Node>): Node {
    Node(Registered(id), span, m.returnType, m.possibleReturnTypes, m.multiplicity, None, None, children)
  }

  lemma {:induction false} RegisteredFits(rel: Conversions, span: Range, id: string, m: Metadata, children: seq<Node>, expected: seq<ExpectedType>)
    requires rel.ExpressionTypesMatch(m.returnType, m.possibleReturnTypes, m.multiplicity, expected)
    ensures rel.Fits(RegisteredNode(span, id, m, children), expected)
  {}

  // ---------------------------------------------------------------------------- lists

  ghost predicate NodesFit(rel: Conversions, children: seq<Node>, expected: seq<ExpectedType>) {
    forall i :: 0 <= i < |children| ==> rel.Fits(children[i], expected)
  }

  /** Insertion into a sorted sequence without duplicates. */
  function InsertType(types: seq<string>, t: string): seq<string> {
    if types == [] then [t]
    else if types[0] == t then types
    else if StringLess(t, types[0]) then [t] + types
    else [types[0]] + InsertType(types[1..], t)
  }

  function InsertTypes(types: seq<string>, more: seq<string>): seq<string>
    decreases |more|
  {
    if more == [] then types else InsertTypes(InsertType(types, more[0]), more[1..])
  }

  /** The possible types of all children, sorted and without duplicates. */
  function ListTypes(children: seq<Node>): seq<string> {
    if children == [] then []
    else
      var child := children[0];
      InsertTypes(ListTypes(children[1..]),
                  if child.possibleReturnTypes != [] then child.possibleReturnTypes
                  else if child.returnType.Some? then [child.returnType.value] else [])
  }

  /** The return types of all children, if each has one. */
  function ReturnTypes(children: seq<Node>): Option<seq<string>> {
    if children == [] then Some([])
    else
      match (children[0].returnType, ReturnTypes(children[1..]))
      case (Some(first), Some(rest)) => Some([first] + rest)
      case _ => None
  }

  function ListMultiplicity(conjunction: Conjunction, children: seq<Node>): Multiplicity {
    if conjunction == Any && forall i :: 0 <= i < |children| ==> children[i].multiplicity != Some(Multiple) then Single else Multiple
  }

  function ListNode(span: Range, conjunction: Conjunction, children: seq<Node>, returnType: Option<string>, effects: Option<nat>): Node {
    Node(List(conjunction), span, returnType, ListTypes(children), Some(ListMultiplicity(conjunction, children)), None, effects, children)
  }

  /** A list of all its members needs a plural expectation. */
  predicate ListExpected(conjunction: Conjunction, expected: seq<ExpectedType>) {
    conjunction == All ==> exists i :: 0 <= i < |expected| && expected[i].plural
  }

  lemma {:induction false} ListFits(rel: Conversions, span: Range, conjunction: Conjunction, children: seq<Node>, returnType: Option<string>,
                 effects: Option<nat>, expected: seq<ExpectedType>)
    requires |children| >= 2 && NodesFit(rel, children, expected) && ListExpected(conjunction, expected)
    ensures rel.Fits(ListNode(span, conjunction, children, returnType, effects), expected)
  {
    var node := ListNode(span, conjunction, children, returnType, effects);
    if conjunction == Any && ListMultiplicity(conjunction, children) == Multiple {
      var i :| 0 <= i < |children| && children[i].multiplicity == Some(Multiple);
      FitsMultiplicity(rel, children[i], expected);
    }
    assert rel.MultiplicityMatches(node.multiplicity, expected) by {
      if node.multiplicity == Some(Single) { SingleMatches(rel, expected); }
    }
  }

  lemma {:induction false} FitsMultiplicity(rel: Conversions, node: Node, expected: seq<ExpectedType>)
    requires rel.Fits(node, expected)
    ensures rel.MultiplicityMatches(node.multiplicity, expected)
  {}

  /** Children that cover the pieces one behind the other: child `k` those from `starts[k]`
      up to the next start. */
  predicate Covering(starts: seq<nat>, next: nat) {
    && (starts == [] ==> next == 0)
    && (starts != [] ==> starts[0] == 0 && starts[|starts| - 1] < next)
    && forall i, j :: 0 <= i < j < |starts| ==> starts[i] < starts[j]
  }

  lemma CoveringNext(starts: seq<nat>, next: nat, end: nat)
    requires Covering(starts, next) && next < end
    ensures Covering(starts + [next], end)
  {}

  lemma CoveringAll(starts: seq<nat>, pieces: nat)
    requires Covering(starts, pieces) && |starts| >= 2
    ensures Segmentation(starts, pieces)
    ensures forall k :: 1 <= k < |starts| ==> 0 < starts[k] <= pieces - 1
  {
    assert forall k :: 1 <= k < |starts| ==> starts[0] < starts[k];
    assert forall k :: 1 <= k < |starts| - 1 ==> starts[k] < starts[|starts| - 1];
  }
}
