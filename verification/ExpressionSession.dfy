/** The expression session: recursive, memoised parsing inside speculative scopes. The
    environment, the pattern matcher and the catalog are what the session is given: its
    answers are read from a script, which may hold anything. */
module ExpressionSession {
  import opened Text
  import opened ExpressionLists
  import opened Expressions
  import opened SessionState
  import opened SessionNodes
  import opened Arithmetic
  import FC = FunctionCalls
  import CS = CallSyntax

  datatype Operation = Operation(left: string, right: string, returnType: string)

  datatype CaptureOptions = CaptureOptions(expected: seq<ExpectedType>, time: int, allowLiterals: bool, allowExpressions: bool)

  datatype Catalog = Catalog(
    rel: Conversions,
    letters: CS.Letters,
    policy: CS.Policy,
    mappable: Range -> bool,
    commonClass: seq<string> -> Option<string>,
    metadata: string -> Metadata,
    restricted: (string, Context) -> bool,
    resolvable: string -> bool,
    typeClass: string -> Option<string>,
    operators: seq<Operator>,
    operations: string -> seq<Operation>,
    captureContext: (Context, Binding, seq<Node>) -> Result<Option<Context>>,
    captureOptions: (Binding, int) -> Option<CaptureOptions>)

  datatype Resolution = Resolution(range: Range, alternative: Option<nat>, id: Option<nat>)

  datatype Selection = NoCall | OneCall(candidate: Candidate) | AmbiguousCall

  /** The pieces of a list that were taken, where its children start, and the children. */
  datatype SoFar = SoFar(next: nat, starts: seq<nat>, children: seq<Node>)

  datatype Checkpoint = Checkpoint(depth: nat, firstId: nat)

  // ------------------------------------------------------------------ candidate lists

  /** `extend_unique_candidates`: what is not there yet is appended. */
  function Extended(target: seq<Candidate>, incoming: seq<Candidate>): (r: seq<Candidate>)
    ensures target <= r
    ensures Distinct(target) ==> Distinct(r)
    ensures forall c :: c in r <==> c in target || c in incoming
    decreases |incoming|
  {
    if incoming == [] then target
    else
      assert incoming == [incoming[0]] + incoming[1..];
      Extended(Added(target, incoming[0]), incoming[1..])
  }

  function Added(target: seq<Candidate>, candidate: Candidate): seq<Candidate> {
    if candidate in target then target else target + [candidate]
  }

  lemma {:induction false} ExtendedFits(rel: Conversions, target: seq<Candidate>, incoming: seq<Candidate>, expected: seq<ExpectedType>)
    requires AllFit(rel, target, expected) && AllFit(rel, incoming, expected)
    ensures AllFit(rel, Extended(target, incoming), expected)
  {
    var r := Extended(target, incoming);
    forall i | 0 <= i < |r| ensures rel.Fits(r[i].node, expected) { assert r[i] in r; }
  }

  lemma {:induction false} ExtendedNext(target: seq<Candidate>, incoming: seq<Candidate>, k: nat)
    requires k < |incoming|
    ensures Extended(target, incoming[..k + 1]) == Added(Extended(target, incoming[..k]), incoming[k])
    decreases k
  {
    var next := incoming[..k + 1];
    if k == 0 {
      assert next == [incoming[0]] && incoming[..0] == [];
    } else {
      var target' := Added(target, incoming[0]);
      assert next[1..] == incoming[1..][..k] && incoming[..k][1..] == incoming[1..][..k - 1];
      ExtendedNext(target', incoming[1..], k - 1);
      assert next[0] == incoming[0] && incoming[..k][0] == incoming[0];
    }
  }

  lemma AllFitConcat(rel: Conversions, a: seq<Candidate>, b: seq<Candidate>, expected: seq<ExpectedType>)
    requires AllFit(rel, a, expected) && AllFit(rel, b, expected)
    ensures AllFit(rel, a + b, expected)
  {}

  function Without(ends: seq<nat>, end: nat): (r: seq<nat>)
    ensures forall e :: e in r <==> e in ends && e != end
  {
    if ends == [] then []
    else
      var rest := Without(ends[..|ends| - 1], end);
      if ends[|ends| - 1] == end then rest else rest + [ends[|ends| - 1]]
  }

  lemma {:induction false} WithoutValid(source: string, range: Range, ends: seq<nat>, end: nat)
    requires ValidRequest(source, range, ends)
    ensures ValidRequest(source, range, Without(ends, end))
  {
    forall i | 0 <= i < |Without(ends, end)| ensures range.start <= Without(ends, end)[i] <= range.end {
      assert Without(ends, end)[i] in ends;
    }
  }

  /** There are pieces to join, and every run of them is a range of the source. */
  ghost predicate Runnable(source: string, raw: RawList) {
    && |raw.pieces| == |raw.delimiters| + 1 >= 2
    && forall from: nat, to: nat {:trigger RunOf(raw, from, to)} :: from < to <= |raw.pieces| ==> RunOf(raw, from, to).Within(source)
  }

  lemma ShapedIsRunnable(source: string, range: Range, raw: RawList)
    requires range.Within(source) && WellShaped(source, range, raw)
    ensures Runnable(source, raw)
  {
    forall from: nat, to: nat | from < to <= |raw.pieces| ensures RunOf(raw, from, to).Within(source) {
      assert VisiblePiece(source, range, raw.pieces[from]) && VisiblePiece(source, range, raw.pieces[to - 1]);
      assert from < to - 1 ==> raw.pieces[from].end < raw.pieces[to - 1].start;
    }
  }

  predicate AnyPlural(expected: seq<ExpectedType>) { exists i :: 0 <= i < |expected| && expected[i].plural }

  /** A range of the source and ends inside it. */
  predicate ValidRequest(source: string, range: Range, ends: seq<nat>) {
    range.Within(source) && forall i :: 0 <= i < |ends| ==> range.start <= ends[i] <= range.end
  }

  // ------------------------------------------------------------------------- growing

  /** Parsing since `entry` for a request that has become active since. */
  ghost predicate Inside(entry: State, s: State, key: Key) {
    s.active == entry.active + {key} && Kept(entry, s.(active := entry.active))
  }

  lemma InsideThen(entry: State, a: State, b: State, key: Key)
    requires Inside(entry, a, key) && Kept(a, b)
    ensures Inside(entry, b, key)
  {
    var a', b' := a.(active := entry.active), b.(active := entry.active);
    assert KeptMemo(a', b') && KeptNodes(a', b');
    assert KeptLog(a', b');
    KeptThen(entry, a', b');
  }

  lemma InsideStores(entry: State, a: State, key: Key, candidates: seq<Candidate>)
    requires Inside(entry, a, key) && key !in entry.memo && key !in entry.active
    ensures Inside(entry, a.(memo := a.memo[key := candidates]), key)
  {}

  lemma InsideBegins(entry: State, s: State, key: Key)
    requires key !in entry.active && s == entry.(active := entry.active + {key})
    ensures Inside(entry, s, key) && ScopesRan(entry, s, true)
  {}

  /** The request is no longer active, and after a failure no longer memoized. */
  ghost function Ended(s: State, key: Key, ok: bool): State {
    s.(active := s.active - {key}, memo := if ok then s.memo else s.memo - {key})
  }

  lemma InsideEnds(entry: State, s: State, key: Key, ok: bool)
    requires key !in entry.memo && key !in entry.active
    requires Inside(entry, s, key) && ScopesRan(entry, s, ok)
    ensures Ran(entry, Ended(s, key, ok), ok)
  {
    assert Ended(s, key, ok).active == entry.active;
  }

  /** The end of parsing a request. */
  lemma SeedEnds(entry: State, s: State, key: Key, r: Result<seq<Candidate>>)
    requires key !in entry.memo && key !in entry.active && SeedGrown(entry, s, key, r)
    ensures var t := Ended(s, key, r.Ok?);
            && Ran(entry, t, r.Ok?) && Grew(entry, t, key, r)
            && (if r.Ok? then key in t.memo && t.memo[key] == r.value else key !in t.memo)
  {
    InsideEnds(entry, s, key, r.Ok?);
  }

  lemma EndedIsWell(rel: Conversions, config: Config, s: State, key: Key, ok: bool)
    requires Well(rel, config, s)
    ensures Well(rel, config, Ended(s, key, ok))
  {
    SmallerMap(s.memo, key);
  }

  lemma SmallerMap<K, V>(m: map<K, V>, key: K)
    ensures |m - {key}| <= |m|
  {
    assert (m - {key}).Keys <= m.Keys;
    SubsetSize((m - {key}).Keys, m.Keys);
  }

  lemma SubsetSize<T>(a: set<T>, b: set<T>)
    requires a <= b
    ensures |a| <= |b|
  {
    assert b == a + (b - a);
  }

  /** The key of a request, with the revision that the environment has for it. */
  function KeyFor(s: State, request: Request): Key {
    Key(request, s.context, if HasRevision(s) then s.script[0].revision else 0)
  }

  predicate HasRevision(s: State) { s.script != [] && s.script[0].Revision? }

  /** How a valid request is answered: from the memo; with nothing while it is being parsed
      itself; otherwise, if the memo has room, by growing a seed, which is memoized or, after
      a failure, forgotten. */
  ghost predicate Answered(a: State, b: State, r: Result<seq<Candidate>>, key: Key)
    requires a.script != []
  {
    if key in a.memo || key in a.active then r == Ok(Current(a, key)) && b == Asking(a, key, Some(r.value))
    else
      && (if r.Err? then key !in b.memo else key in b.memo && b.memo[key] == r.value)
      && (Grew(Asking(a, key, None), b, key, r) || (r == Err(MemoLimit) && b == Asking(a, key, None)))
  }

  /** The environment has given its revision, and the request counts as asked. */
  function Asking(s: State, key: Key, answer: Option<seq<Candidate>>): State
    requires s.script != []
  {
    s.(script := s.script[1..], log := s.log + [Lookup(key, answer)])
  }

  /** The first request asked since `a` is that of the key. */
  predicate AskedNext(a: State, b: State, key: Key) { |a.log| < |b.log| && b.log[|a.log|].key == key }

  lemma AskedNow(a: State, b: State, m: Moment, request: Request)
    requires AskedNext(a, b, KeyFor(a, request)) && Reaching(m, a)
    ensures AskedSince(b, m, |a.log|, request)
  {}

  /** A successful answer is in the memo, or is nothing. */
  lemma AnswerIsFirst(a: State, b: State, m: Moment, request: Request, answer: seq<Candidate>, key: Key)
    requires HasRevision(a) && Answered(a, b, Ok(answer), key) && key == KeyFor(a, request) && AskedNext(a, b, key) && Reaching(m, a)
    ensures if answer == [] then NoAnswer(b, m, request) else FirstAnswer(b, m, request, answer[0].node)
  {
    AskedNow(a, b, m, request);
    assert Current(b, key) == answer;
  }

  /** The parenthesised text at the start of a range, if it ends where it may. */
  function GroupSpan(source: string, range: Range, ends: seq<nat>): (r: Option<Range>)
    requires range.Within(source)
    ensures r.Some? ==> r.value.start == range.start && r.value.start + 2 <= r.value.end <= range.end && r.value.end in ends
  {
    if range.start == range.end || source[range.start] != '(' then None
    else
      var close := FindParenthesisEnd(source, range.start + 1, range.end);
      if close.Some? && close.value + 1 in ends then Some(Range(range.start, close.value + 1)) else None
  }

  /** All that the memo has for the text between the parentheses, each in a group. */
  ghost predicate GroupedFrom(s: State, m: Moment, request: Request, inner: Range, span: Range, candidates: seq<Candidate>) {
    exists i :: AskedSince(s, m, i, request.(range := inner, ends := [inner.end]))
                && s.log[i].key in s.memo && candidates == Grouping(span, s.memo[s.log[i].key])
  }

  /** The ends that are left for other parsers: that of a group is its own. */
  function EndsLeft(source: string, request: Request): seq<nat>
    requires request.range.Within(source)
  {
    var span := GroupSpan(source, request.range, request.ends);
    if span.Some? then Without(request.ends, span.value.end) else request.ends
  }

  ghost predicate GroupTaken(s: State, m: Moment, source: string, request: Request, candidates: seq<Candidate>)
    requires request.range.Within(source)
  {
    var span := GroupSpan(source, request.range, request.ends);
    span.Some? && GroupedFrom(s, m, request, Trimmed(source, Range(span.value.start + 1, span.value.end - 1)), span.value, candidates)
  }

  lemma GroupIsTaken(s: State, m: Moment, source: string, request: Request, span: Range, candidates: seq<Candidate>)
    requires request.range.Within(source) && GroupSpan(source, request.range, request.ends) == Some(span)
    requires GroupedFrom(s, m, request, Trimmed(source, Range(span.start + 1, span.end - 1)), span, candidates)
    ensures GroupTaken(s, m, source, request, candidates)
  {}

  lemma EndsLeftValid(source: string, request: Request)
    requires ValidRequest(source, request.range, request.ends)
    ensures ValidRequest(source, request.range, EndsLeft(source, request))
  {
    var span := GroupSpan(source, request.range, request.ends);
    if span.Some? { WithoutValid(source, request.range, request.ends, span.value.end); }
  }

  lemma InnerAnswered(a: State, b: State, m: Moment, request: Request, inner: Range, span: Range, answer: seq<Candidate>, key: Key)
    requires HasRevision(a) && Answered(a, b, Ok(answer), key) && key == KeyFor(a, request.(range := inner, ends := [inner.end]))
    requires AskedNext(a, b, key) && Reaching(m, a)
    ensures answer != [] ==> GroupedFrom(b, m, request, inner, span, Grouping(span, answer))
  {
    AskedNow(a, b, m, request.(range := inner, ends := [inner.end]));
  }

  /** The valid leaves in their order: those for now, or those that wait for registered
      expressions. */
  ghost function LeavesOf(catalog: Catalog, source: string, request: Request, ends: seq<nat>, leaves: seq<Leaf>, waiting: bool): seq<Candidate> {
    if leaves == [] then []
    else
      var leaf := leaves[|leaves| - 1];
      var before := LeavesOf(catalog, source, request, ends, leaves[..|leaves| - 1], waiting);
      if LeafAccepted(catalog.rel, catalog.letters.white, source, leaf, request, ends) && (request.allowExpressions && leaf.afterRegistered) == waiting
      then before + [Candidate(LeafNode(leaf), None)] else before
  }

  function OperandRequest(range: Range, className: string): Request {
    Request(range, [range.end], [ExpectedType(className, false)], true, true, 0, true)
  }

  function ValueRequest(range: Range, parameter: FC.Parameter): Request {
    Request(range, [range.end], FC.Wanted(parameter), true, true, 0, true)
  }

  /** A member may be a list itself only in parentheses. */
  function MemberRequest(source: string, request: Request, range: Range): Request
    requires range.Within(source)
  {
    Request(range, [range.end], request.expected, request.allowLiterals, true, request.time, CompletelyParenthesized(source, range))
  }

  /** Both sides of the operator, as the operation wants them, each the first of its kind; the
      left one in the context of the attempt, the right one in that which the left one left. */
  ghost predicate OperandsAnswered(s: State, m: Moment, source: string, range: Range, root: Occurrence, operation: Operation, left: Node, right: Node)
    requires range.Within(source) && range.start <= root.start < root.end <= range.end
  {
    && FirstAnswer(s, m, OperandRequest(Trimmed(source, Range(range.start, root.start)), operation.left), left)
    && FirstAnswer(s, Anywhere(m), OperandRequest(Trimmed(source, Range(root.end, range.end)), operation.right), right)
  }

  ghost predicate OperationBuilt(s: State, m: Moment, source: string, range: Range, root: Occurrence, operation: Operation, sign: string, node: Node)
    requires range.Within(source) && range.start <= root.start < root.end <= range.end
  {
    && node.kind == Arithmetic(sign) && node.span == range && node.returnType == Some(operation.returnType) && |node.children| == 2
    && OperandsAnswered(s, m, source, range, root, operation, node.children[0], node.children[1])
  }

  /** The operation cannot be built: an operand is blank, or its request has no answer. */
  ghost predicate OperandMissing(s: State, m: Moment, source: string, range: Range, root: Occurrence, operation: Operation)
    requires range.Within(source) && range.start <= root.start < root.end <= range.end
  {
    var left, right := Trimmed(source, Range(range.start, root.start)), Trimmed(source, Range(root.end, range.end));
    || left.start >= left.end || right.start >= right.end
    || NoAnswer(s, m, OperandRequest(left, operation.left)) || NoAnswer(s, Anywhere(m), OperandRequest(right, operation.right))
  }

  /** An occurrence of an operator inside the range. */
  predicate RootIn(catalog: Catalog, source: string, range: Range, root: Occurrence) {
    range.Within(source) && range.start <= root.start < root.end <= range.end && root.operator < |catalog.operators|
  }

  function OperationsOf(catalog: Catalog, root: Occurrence): seq<Operation>
    requires root.operator < |catalog.operators|
  {
    catalog.operations(catalog.operators[root.operator].sign)
  }

  /** None of the first `n` operations of the operator that return what is expected can be
      built at the root. */
  ghost predicate OperationsMissing(s: State, m: Moment, catalog: Catalog, source: string, range: Range, root: Occurrence, expected: seq<ExpectedType>, n: nat)
    requires RootIn(catalog, source, range, root)
  {
    var operations := OperationsOf(catalog, root);
    n <= |operations| && forall j :: 0 <= j < n && catalog.rel.ReturnTypeMatches(Some(operations[j].returnType), expected) ==>
      OperandMissing(s, m, source, range, root, operations[j])
  }

  ghost predicate RootMissing(s: State, m: Moment, catalog: Catalog, source: string, range: Range, root: Occurrence, expected: seq<ExpectedType>) {
    RootIn(catalog, source, range, root) && OperationsMissing(s, m, catalog, source, range, root, expected, |OperationsOf(catalog, root)|)
  }

  /** The node is built from the first operation of the operator that can be. */
  ghost predicate RootBuilt(s: State, m: Moment, catalog: Catalog, source: string, range: Range, root: Occurrence, expected: seq<ExpectedType>, node: Node) {
    RootIn(catalog, source, range, root) && exists j :: 0 <= j < |OperationsOf(catalog, root)| && BuiltAt(s, m, catalog, source, range, root, expected, node, j)
  }

  ghost predicate BuiltAt(s: State, m: Moment, catalog: Catalog, source: string, range: Range, root: Occurrence, expected: seq<ExpectedType>, node: Node, j: nat)
    requires RootIn(catalog, source, range, root) && j < |OperationsOf(catalog, root)|
  {
    var operation := OperationsOf(catalog, root)[j];
    && catalog.rel.ReturnTypeMatches(Some(operation.returnType), expected)
    && OperationBuilt(s, m, source, range, root, operation, catalog.operators[root.operator].sign, node)
    && OperationsMissing(s, m, catalog, source, range, root, expected, j)
  }

  /** The root candidates of a range, loosest first where priorities are layered. */
  ghost predicate RootsOf(catalog: Catalog, source: string, range: Range, roots: seq<Occurrence>)
    requires range.Within(source)
  {
    && multiset(roots) == multiset(Occurrences(catalog.operators, source, range))
    && (Layered(catalog.operators) ==> RootOrder(catalog.operators, roots))
  }

  ghost predicate RootsMissing(s: State, m: Moment, catalog: Catalog, source: string, range: Range, roots: seq<Occurrence>, expected: seq<ExpectedType>, n: nat) {
    n <= |roots| && forall k :: 0 <= k < n ==> RootMissing(s, m, catalog, source, range, roots[k], expected)
  }

  /** The arithmetic node of a range: built at the first root candidate where one can be, or
      none because none can be built anywhere. */
  ghost predicate ArithmeticOf(s: State, m: Moment, catalog: Catalog, source: string, range: Range, expected: seq<ExpectedType>, found: Option<Candidate>) {
    range.Within(source) && exists roots :: RootsOf(catalog, source, range, roots) && RootsTried(s, m, catalog, source, range, roots, expected, found)
  }

  ghost predicate RootsTried(s: State, m: Moment, catalog: Catalog, source: string, range: Range, roots: seq<Occurrence>, expected: seq<ExpectedType>,
                             found: Option<Candidate>) {
    if found.None? then RootsMissing(s, m, catalog, source, range, roots, expected, |roots|)
    else exists k :: 0 <= k < |roots| && RootsMissing(s, m, catalog, source, range, roots, expected, k)
                     && RootBuilt(s, m, catalog, source, range, roots[k], expected, found.value.node)
  }

  /** No arithmetic node for any of the first `n` ends. */
  ghost predicate NoArithmetic(s: State, m: Moment, catalog: Catalog, source: string, request: Request, n: nat) {
    n <= |request.ends| && forall k :: 0 <= k < n ==>
      ArithmeticOf(s, m, catalog, source, Range(request.range.start, request.ends[k]), request.expected, None)
  }

  /** The arithmetic of a request: the node for the first end that has one. */
  ghost predicate ArithmeticFound(s: State, m: Moment, catalog: Catalog, source: string, request: Request, found: Option<Candidate>) {
    if found.None? then NoArithmetic(s, m, catalog, source, request, |request.ends|)
    else exists k :: ArithmeticFirst(s, m, catalog, source, request, k, found.value)
  }

  ghost predicate ArithmeticFirst(s: State, m: Moment, catalog: Catalog, source: string, request: Request, k: nat, found: Candidate) {
    && k < |request.ends| && NoArithmetic(s, m, catalog, source, request, k)
    && ArithmeticOf(s, m, catalog, source, Range(request.range.start, request.ends[k]), request.expected, Some(found))
  }

  lemma ArithmeticNext(a: State, b: State, m: Moment, catalog: Catalog, source: string, request: Request, k: nat, found: Option<Candidate>)
    requires KeptAnswers(a, b) && NoArithmetic(a, m, catalog, source, request, k) && k < |request.ends|
    requires ArithmeticOf(b, m, catalog, source, Range(request.range.start, request.ends[k]), request.expected, found)
    ensures if found.Some? then ArithmeticFound(b, m, catalog, source, request, found) else NoArithmetic(b, m, catalog, source, request, k + 1)
  {
    NoArithmeticStays(a, b, m, catalog, source, request, k);
    if found.Some? { IsFirst(b, m, catalog, source, request, k, found.value); }
  }

  lemma IsFirst(s: State, m: Moment, catalog: Catalog, source: string, request: Request, k: nat, found: Candidate)
    requires k < |request.ends| && NoArithmetic(s, m, catalog, source, request, k)
    requires ArithmeticOf(s, m, catalog, source, Range(request.range.start, request.ends[k]), request.expected, Some(found))
    ensures ArithmeticFirst(s, m, catalog, source, request, k, found)
  {}

  lemma OperationsMissingStays(a: State, b: State, m: Moment, catalog: Catalog, source: string, range: Range, root: Occurrence, expected: seq<ExpectedType>, n: nat)
    requires KeptAnswers(a, b) && RootIn(catalog, source, range, root) && OperationsMissing(a, m, catalog, source, range, root, expected, n)
    ensures OperationsMissing(b, m, catalog, source, range, root, expected, n)
  {
    AnswersStay(a, b);
  }

  lemma OperationTried(a: State, b: State, m: Moment, catalog: Catalog, source: string, range: Range, root: Occurrence, expected: seq<ExpectedType>, k: nat,
                       found: Option<Candidate>)
    requires KeptAnswers(a, b) && RootIn(catalog, source, range, root) && OperationsMissing(a, m, catalog, source, range, root, expected, k)
    requires k < |OperationsOf(catalog, root)| && catalog.rel.ReturnTypeMatches(Some(OperationsOf(catalog, root)[k].returnType), expected)
    requires found.None? ==> OperandMissing(b, m, source, range, root, OperationsOf(catalog, root)[k])
    requires found.Some? ==>
               OperationBuilt(b, m, source, range, root, OperationsOf(catalog, root)[k], catalog.operators[root.operator].sign, found.value.node)
    ensures if found.Some? then RootBuilt(b, m, catalog, source, range, root, expected, found.value.node)
            else OperationsMissing(b, m, catalog, source, range, root, expected, k + 1)
  {
    OperationsMissingStays(a, b, m, catalog, source, range, root, expected, k);
    if found.Some? { assert BuiltAt(b, m, catalog, source, range, root, expected, found.value.node, k); }
  }

  lemma RootsMissingStays(a: State, b: State, m: Moment, catalog: Catalog, source: string, range: Range, roots: seq<Occurrence>, expected: seq<ExpectedType>, n: nat)
    requires KeptAnswers(a, b) && RootsMissing(a, m, catalog, source, range, roots, expected, n)
    ensures RootsMissing(b, m, catalog, source, range, roots, expected, n)
  {
    forall k | 0 <= k < n ensures RootMissing(b, m, catalog, source, range, roots[k], expected) {
      OperationsMissingStays(a, b, m, catalog, source, range, roots[k], expected, |OperationsOf(catalog, roots[k])|);
    }
  }

  lemma NoArithmeticStays(a: State, b: State, m: Moment, catalog: Catalog, source: string, request: Request, n: nat)
    requires KeptAnswers(a, b) && NoArithmetic(a, m, catalog, source, request, n)
    ensures NoArithmetic(b, m, catalog, source, request, n)
  {
    forall k | 0 <= k < n
      ensures ArithmeticOf(b, m, catalog, source, Range(request.range.start, request.ends[k]), request.expected, None)
    {
      var range := Range(request.range.start, request.ends[k]);
      assert ArithmeticOf(a, m, catalog, source, range, request.expected, None);
      var roots :| RootsOf(catalog, source, range, roots) && RootsTried(a, m, catalog, source, range, roots, request.expected, None);
      RootsMissingStays(a, b, m, catalog, source, range, roots, request.expected, |roots|);
      assert RootsTried(b, m, catalog, source, range, roots, request.expected, None);
    }
  }

  lemma NextRoot(a: State, b: State, m: Moment, catalog: Catalog, source: string, range: Range, roots: seq<Occurrence>, expected: seq<ExpectedType>, k: nat,
                 found: Option<Candidate>)
    requires KeptAnswers(a, b) && RootsMissing(a, m, catalog, source, range, roots, expected, k) && k < |roots|
    requires if found.Some? then RootBuilt(b, m, catalog, source, range, roots[k], expected, found.value.node)
             else RootMissing(b, m, catalog, source, range, roots[k], expected)
    ensures if found.Some? then RootsTried(b, m, catalog, source, range, roots, expected, found)
            else RootsMissing(b, m, catalog, source, range, roots, expected, k + 1)
  {
    RootsMissingStays(a, b, m, catalog, source, range, roots, expected, k);
  }

  /** The parsed values of the first parameters, each the first answer for its text. */
  ghost predicate ValuesAnswered(s: State, m: Moment, parameter: FC.Parameter, values: seq<Range>, parsed: seq<Node>) {
    |parsed| <= |values| && forall k :: 0 <= k < |parsed| ==> FirstAnswer(s, m, ValueRequest(values[k], parameter), parsed[k])
  }

  ghost predicate AllAnswered(s: State, m: Moment, parameters: seq<FC.Parameter>, mapped: seq<FC.MappedArgument>, parsed: seq<seq<Node>>) {
    && |parsed| <= |mapped| == |parameters|
    && forall p :: 0 <= p < |parsed| ==> ValuesAnswered(s, m, parameters[p], mapped[p].values, parsed[p])
  }

  /** A call of the definition over the whole range of the call; when the definition is well
      formed, every child belongs to exactly one argument. */
  ghost predicate CallOf(catalog: Catalog, call: CS.Call, definition: FC.Definition, node: Node) {
    && node.kind.Function? && node.span == call.range && node.returnType == definition.returnType && node.call.Some?
    && (FC.WellFormedDefinition(catalog.letters.white, definition) ==> FC.Owned(catalog.letters.white, node.call.value, |node.children|))
  }

  lemma ValuesStay(a: State, b: State, m: Moment, parameter: FC.Parameter, values: seq<Range>, parsed: seq<Node>)
    requires KeptAnswers(a, b) && ValuesAnswered(a, m, parameter, values, parsed)
    ensures ValuesAnswered(b, m, parameter, values, parsed)
  {
    AnswersStay(a, b);
  }

  lemma AllStay(a: State, b: State, m: Moment, parameters: seq<FC.Parameter>, mapped: seq<FC.MappedArgument>, parsed: seq<seq<Node>>)
    requires KeptAnswers(a, b) && AllAnswered(a, m, parameters, mapped, parsed)
    ensures AllAnswered(b, m, parameters, mapped, parsed)
  {
    forall p | 0 <= p < |parsed| ensures ValuesAnswered(b, m, parameters[p], mapped[p].values, parsed[p]) {
      ValuesStay(a, b, m, parameters[p], mapped[p].values, parsed[p]);
    }
  }

  /** The values of a parameter so far, and what was taken of them. */
  ghost predicate Collecting(rel: Conversions, s: State, m: Moment, parameter: FC.Parameter, values: seq<Range>, parsed: seq<Node>, children: seq<Node>) {
    && FC.AllTaken(parameter, parsed) == Some(children) && NodesFit(rel, parsed, FC.Wanted(parameter))
    && ValuesAnswered(s, m, parameter, values, parsed)
  }

  lemma CollectingStays(rel: Conversions, a: State, b: State, m: Moment, parameter: FC.Parameter, values: seq<Range>, parsed: seq<Node>, children: seq<Node>)
    requires KeptAnswers(a, b) && Collecting(rel, a, m, parameter, values, parsed, children)
    ensures Collecting(rel, b, m, parameter, values, parsed, children)
  {
    ValuesStay(a, b, m, parameter, values, parsed);
  }

  lemma {:induction false} CollectingNext(rel: Conversions, s: State, m: Moment, parameter: FC.Parameter, values: seq<Range>, parsed: seq<Node>, children: seq<Node>,
                       node: Node, nodes: seq<Node>)
    requires Collecting(rel, s, m, parameter, values, parsed, children) && |parsed| < |values|
    requires FC.Taken(parameter, node) == Some(nodes) && rel.Fits(node, FC.Wanted(parameter))
    requires FirstAnswer(s, m, ValueRequest(values[|parsed|], parameter), node)
    ensures Collecting(rel, s, m, parameter, values, parsed + [node], children + nodes)
  {
    FC.TakenNext(parameter, parsed, node);
    ValuesNext(s, m, parameter, values, parsed, node);
  }

  lemma ValuesNext(s: State, m: Moment, parameter: FC.Parameter, values: seq<Range>, parsed: seq<Node>, node: Node)
    requires ValuesAnswered(s, m, parameter, values, parsed) && |parsed| < |values|
    requires FirstAnswer(s, m, ValueRequest(values[|parsed|], parameter), node)
    ensures ValuesAnswered(s, m, parameter, values, parsed + [node])
  {
    var more := parsed + [node];
    forall k | 0 <= k < |more| ensures FirstAnswer(s, m, ValueRequest(values[k], parameter), more[k]) {
      if k < |parsed| { assert more[k] == parsed[k]; }
    }
  }

  /** The arguments of the first parameters, with the values they were built from. */
  ghost predicate Building(rel: Conversions, s: State, m: Moment, parameters: seq<FC.Parameter>, mapped: seq<FC.MappedArgument>, parsed: seq<seq<Node>>,
                           arguments: seq<FunctionArgument>, children: seq<Node>) {
    && FC.ArgumentsBuilt(parameters, mapped, parsed, arguments, children)
    && FC.AllFit(rel, parameters, parsed) && AllAnswered(s, m, parameters, mapped, parsed)
  }

  lemma BuildingStays(rel: Conversions, a: State, b: State, m: Moment, parameters: seq<FC.Parameter>, mapped: seq<FC.MappedArgument>, parsed: seq<seq<Node>>,
                      arguments: seq<FunctionArgument>, children: seq<Node>)
    requires KeptAnswers(a, b) && Building(rel, a, m, parameters, mapped, parsed, arguments, children)
    ensures Building(rel, b, m, parameters, mapped, parsed, arguments, children)
  {
    AllStay(a, b, m, parameters, mapped, parsed);
  }

  lemma BuildingNext(rel: Conversions, s: State, m: Moment, parameters: seq<FC.Parameter>, mapped: seq<FC.MappedArgument>, parsed: seq<seq<Node>>,
                     arguments: seq<FunctionArgument>, children: seq<Node>, values: seq<Node>, nodes: seq<Node>)
    requires Building(rel, s, m, parameters, mapped, parsed, arguments, children) && |arguments| < |mapped|
    requires |values| == |mapped[|arguments|].values|
    requires Collecting(rel, s, m, parameters[|arguments|], mapped[|arguments|].values, values, nodes)
    ensures var argument := FC.ArgumentOf(parameters[|arguments|], mapped[|arguments|], |children|, |nodes|);
            Building(rel, s, m, parameters, mapped, parsed + [values], arguments + [argument], children + nodes)
  {
    var argument := FC.ArgumentOf(parameters[|arguments|], mapped[|arguments|], |children|, |nodes|);
    FC.ArgumentBuilt(parameters, mapped, parsed, arguments, children, argument, values, nodes);
    FC.AllFitNext(rel, parameters, parsed, values);
    AllAnsweredNext(s, m, parameters, mapped, parsed, values);
  }

  lemma AllAnsweredNext(s: State, m: Moment, parameters: seq<FC.Parameter>, mapped: seq<FC.MappedArgument>, parsed: seq<seq<Node>>, values: seq<Node>)
    requires AllAnswered(s, m, parameters, mapped, parsed) && |parsed| < |mapped|
    requires ValuesAnswered(s, m, parameters[|parsed|], mapped[|parsed|].values, values)
    ensures AllAnswered(s, m, parameters, mapped, parsed + [values])
  {}

  /** The text of the pieces from `from` up to `to`. */
  function RunOf(raw: RawList, from: nat, to: nat): Range
    requires from < to <= |raw.pieces|
  {
    Range(raw.pieces[from].start, raw.pieces[to - 1].end)
  }

  /** The child that takes the pieces from `from` up to `to`: the first answer for their
      text, where no shorter run of pieces has an answer. */
  ghost predicate Segment(s: State, m: Moment, source: string, request: Request, raw: RawList, from: nat, to: nat, child: Node) {
    && from < to <= |raw.pieces| && RunOf(raw, from, to).Within(source)
    && FirstAnswer(s, m, MemberRequest(source, request, RunOf(raw, from, to)), child)
    && NoneUpTo(s, m, source, request, raw, from, to - 1)
  }

  ghost predicate NoneUpTo(s: State, m: Moment, source: string, request: Request, raw: RawList, from: nat, last: nat) {
    forall t :: from < t <= last ==> Unanswered(s, m, source, request, raw, from, t)
  }

  /** A run without an answer; all pieces together are never tried as one child. */
  ghost predicate Unanswered(s: State, m: Moment, source: string, request: Request, raw: RawList, from: nat, to: nat) {
    && from < to <= |raw.pieces|
    && (from > 0 || to < |raw.pieces| ==>
          RunOf(raw, from, to).Within(source) && NoAnswer(s, m, MemberRequest(source, request, RunOf(raw, from, to))))
  }

  /** The children take the pieces up to `next`, one run behind the other: the last from
      its start up to `next`, those before it up to that start. */
  ghost predicate Segments(s: State, m: Moment, source: string, request: Request, raw: RawList, starts: seq<nat>, children: seq<Node>, next: nat)
    decreases |starts|
  {
    && |children| == |starts|
    && (starts != [] ==>
          var last := |starts| - 1;
          && Segment(s, m, source, request, raw, starts[last], next, children[last])
          && Segments(s, m, source, request, raw, starts[..last], children[..last], starts[last]))
  }

  lemma SegmentStays(a: State, b: State, m: Moment, source: string, request: Request, raw: RawList, from: nat, to: nat, child: Node)
    requires KeptAnswers(a, b) && Segment(a, m, source, request, raw, from, to, child)
    ensures Segment(b, m, source, request, raw, from, to, child)
  {
    AnswersStay(a, b);
    AllUnanswered(a, b, m, source, request, raw, from, to - 1);
  }

  lemma AllUnanswered(a: State, b: State, m: Moment, source: string, request: Request, raw: RawList, from: nat, last: nat)
    requires KeptAnswers(a, b) && NoneUpTo(a, m, source, request, raw, from, last)
    ensures NoneUpTo(b, m, source, request, raw, from, last)
  {
    AnswersStay(a, b);
    forall t | from < t <= last ensures Unanswered(b, m, source, request, raw, from, t) { assert Unanswered(a, m, source, request, raw, from, t); }
  }

  /** After one more run: a segment, or one more run without an answer. */
  lemma RunTried(a: State, b: State, m: Moment, source: string, request: Request, raw: RawList, first: nat, last: nat, child: Option<Node>)
    requires KeptAnswers(a, b) && NoneUpTo(a, m, source, request, raw, first, last) && first <= last < |raw.pieces|
    requires child.None? ==> Unanswered(b, m, source, request, raw, first, last + 1)
    requires child.Some? ==> RunOf(raw, first, last + 1).Within(source)
    requires child.Some? ==> FirstAnswer(b, m, MemberRequest(source, request, RunOf(raw, first, last + 1)), child.value)
    ensures child.None? ==> NoneUpTo(b, m, source, request, raw, first, last + 1)
    ensures child.Some? ==> Segment(b, m, source, request, raw, first, last + 1, child.value)
  {
    AllUnanswered(a, b, m, source, request, raw, first, last);
  }

  lemma {:induction false} SegmentsStay(a: State, b: State, m: Moment, source: string, request: Request, raw: RawList, starts: seq<nat>, children: seq<Node>,
                                         next: nat)
    requires KeptAnswers(a, b) && Segments(a, m, source, request, raw, starts, children, next)
    ensures Segments(b, m, source, request, raw, starts, children, next)
    decreases |starts|
  {
    if starts != [] {
      var last := |starts| - 1;
      SegmentStays(a, b, m, source, request, raw, starts[last], next, children[last]);
      SegmentsStay(a, b, m, source, request, raw, starts[..last], children[..last], starts[last]);
    }
  }

  /** A child that fits what was asked for and does not take all pieces. */
  ghost predicate Link(rel: Conversions, s: State, m: Moment, source: string, request: Request, raw: RawList, from: nat, to: nat, child: Node) {
    Segment(s, m, source, request, raw, from, to, child) && rel.Fits(child, request.expected) && (from == 0 ==> to < |raw.pieces|)
  }

  /** The children that were found so far, one behind the other from the first piece on. */
  ghost predicate Segmenting(rel: Conversions, s: State, m: Moment, source: string, request: Request, raw: RawList, starts: seq<nat>, children: seq<Node>, next: nat) {
    && Covering(starts, next) && NodesFit(rel, children, request.expected) && Segments(s, m, source, request, raw, starts, children, next)
    && (|starts| == 1 ==> next < |raw.pieces|)
  }

  lemma SegmentingNext(rel: Conversions, a: State, b: State, m: Moment, source: string, request: Request, raw: RawList, starts: seq<nat>, children: seq<Node>,
                       next: nat, end: nat, child: Node)
    requires KeptAnswers(a, b) && Segmenting(rel, a, m, source, request, raw, starts, children, next)
    requires Link(rel, b, m, source, request, raw, next, end, child)
    ensures Segmenting(rel, b, m, source, request, raw, starts + [next], children + [child], end)
  {
    SegmentsStay(a, b, m, source, request, raw, starts, children, next);
    CoveringNext(starts, next, end);
    assert (starts + [next])[..|starts|] == starts && (children + [child])[..|children|] == children;
  }

  /** A list node: children that take all pieces in runs, joined as the delimiters between
      the runs say. */
  ghost predicate ListBuilt(s: State, m: Moment, source: string, request: Request, raw: RawList, conjunction: Conjunction, children: seq<Node>) {
    exists starts :: Joins(s, m, source, request, raw, starts, conjunction, children)
  }

  ghost predicate Joins(s: State, m: Moment, source: string, request: Request, raw: RawList, starts: seq<nat>, conjunction: Conjunction, children: seq<Node>) {
    && Segmentation(starts, |raw.pieces|) && (forall k :: 1 <= k < |starts| ==> 0 < starts[k] <= |raw.delimiters|)
    && JoinedBy(raw, starts, conjunction) && Segments(s, m, source, request, raw, starts, children, |raw.pieces|)
  }

  /** A list node over a range: its pieces are those of the split. */
  ghost predicate ListFrom(s: State, m: Moment, source: string, request: Request, range: Range, node: Node)
    requires range.Within(source)
  {
    && node.kind.List? && node.span == range
    && exists raw :: SplitsInto(source, range, Some(raw)) && ListBuilt(s, m, source, request, raw, node.kind.conjunction, node.children)
  }

  /** Every candidate is a list that reaches from the range start to one of the ends. */
  ghost predicate ListsFrom(s: State, m: Moment, source: string, request: Request, lists: seq<Candidate>) {
    forall i :: 0 <= i < |lists| ==> ListEnding(s, m, source, request, lists[i].node)
  }

  ghost predicate ListEnding(s: State, m: Moment, source: string, request: Request, node: Node) {
    && node.span.start == request.range.start && node.span.end in request.ends && node.span.Within(source)
    && ListFrom(s, m, source, request, node.span, node)
  }

  lemma ListsStay(a: State, b: State, m: Moment, source: string, request: Request, lists: seq<Candidate>)
    requires KeptAnswers(a, b) && ListsFrom(a, m, source, request, lists)
    ensures ListsFrom(b, m, source, request, lists)
  {
    forall i | 0 <= i < |lists| ensures ListEnding(b, m, source, request, lists[i].node) {
      var node := lists[i].node;
      assert ListEnding(a, m, source, request, node);
      var raw :| SplitsInto(source, node.span, Some(raw)) && ListBuilt(a, m, source, request, raw, node.kind.conjunction, node.children);
      ListStays(a, b, m, source, request, raw, node.kind.conjunction, node.children);
    }
  }

  lemma {:induction false} ListsNext(a: State, b: State, m: Moment, rel: Conversions, source: string, request: Request, lists: seq<Candidate>, list: Candidate)
    requires KeptAnswers(a, b) && ListsFrom(a, m, source, request, lists) && AllFit(rel, lists, request.expected)
    requires ListEnding(b, m, source, request, list.node) && rel.Fits(list.node, request.expected)
    ensures ListsFrom(b, m, source, request, lists + [list]) && AllFit(rel, lists + [list], request.expected)
  {
    ListsStay(a, b, m, source, request, lists);
  }

  lemma ListStays(a: State, b: State, m: Moment, source: string, request: Request, raw: RawList, conjunction: Conjunction, children: seq<Node>)
    requires KeptAnswers(a, b) && ListBuilt(a, m, source, request, raw, conjunction, children)
    ensures ListBuilt(b, m, source, request, raw, conjunction, children)
  {
    var starts :| Joins(a, m, source, request, raw, starts, conjunction, children);
    SegmentsStay(a, b, m, source, request, raw, starts, children, |raw.pieces|);
    assert Joins(b, m, source, request, raw, starts, conjunction, children);
  }

  /** What growing a seed comes to. */
  ghost predicate SeedGrown(entry: State, s: State, key: Key, r: Result<seq<Candidate>>) {
    && Inside(entry, s, key) && ScopesRan(entry, s, r.Ok?) && Grew(entry, s, key, r)
    && (r.Ok? ==> key in s.memo && s.memo[key] == r.value)
  }

  lemma AskingRan(a: State, key: Key, answer: Option<seq<Candidate>>)
    requires a.script != [] && (key in a.active ==> answer == Some(Current(a, key)))
    ensures Ran(a, Asking(a, key, answer), true)
  {}

  lemma SeenMore(a: State, b: State, c: State)
    requires Ran(a, b, true) && b.seen <= c.seen && c == b.(seen := c.seen)
    ensures Ran(a, c, true)
  {}

  /** The rounds so far, and whether the last one added anything. */
  ghost predicate GrownSoFar(rounds: seq<seq<Candidate>>, added: bool) {
    && rounds != [] && Extending(rounds)
    && (|rounds| > 1 ==> (rounds[|rounds| - 2] < rounds[|rounds| - 1] <==> added))
    && (!added ==> |rounds| > 1 && rounds[|rounds| - 2] == rounds[|rounds| - 1])
  }

  lemma GrownNext(rounds: seq<seq<Candidate>>, next: seq<Candidate>)
    requires GrownSoFar(rounds, true) && rounds[|rounds| - 1] <= next && Distinct(next)
    ensures GrownSoFar(rounds + [next], |next| > |rounds[|rounds| - 1]|)
  {
    var last := rounds[|rounds| - 1];
    if |next| == |last| { assert next == last; }
  }

  /** The first binding of a capture. */
  function BindingOf(bindings: seq<Binding>, capture: nat): Option<Binding> {
    if bindings == [] then None
    else if bindings[0].capture == capture then Some(bindings[0])
    else BindingOf(bindings[1..], capture)
  }

  /** The first candidate that reaches the end. */
  function FirstEnding(candidates: seq<Candidate>, end: nat): (r: Option<Candidate>)
    ensures r.Some? ==> r.value in candidates && r.value.node.span.end == end
  {
    if candidates == [] then None
    else if candidates[0].node.span.end == end then Some(candidates[0])
    else FirstEnding(candidates[1..], end)
  }

  /** The answer to a request has, or has not, a candidate that reaches the end. */
  ghost predicate Reached(s: State, m: Moment, request: Request, end: nat, reached: bool) {
    exists i :: AskedSince(s, m, i, request) && (s.log[i].key in s.memo || s.log[i].key in s.active)
                && FirstEnding(Current(s, s.log[i].key), end).Some? == reached
  }

  lemma {:induction false} AnswerReaches(a: State, b: State, m: Moment, request: Request, answer: seq<Candidate>, key: Key, end: nat)
    requires HasRevision(a) && Answered(a, b, Ok(answer), key) && key == KeyFor(a, request) && AskedNext(a, b, key) && Reaching(m, a)
    ensures Reached(b, m, request, end, FirstEnding(answer, end).Some?)
  {
    AskedNow(a, b, m, request);
    assert Current(b, key) == answer;
  }

  /** What an expression capture asks for. */
  function CaptureRequest(range: Range, o: CaptureOptions): Request {
    Request(range, [range.end], o.expected, o.allowLiterals, o.allowExpressions, o.time, true)
  }

  predicate CompletelyParenthesized(source: string, range: Range)
    requires range.Within(source)
  {
    range.start < range.end && source[range.start] == '(' && FindParenthesisEnd(source, range.start + 1, range.end) == Some(range.end - 1)
  }

  /** Parsing in another context, and back. */
  lemma ContextChanges(a: State, b: State, c: State, d: State, ok: bool)
    requires Ran(b, c, ok) && b == a.(context := b.context) && d == c.(context := d.context)
    ensures Ran(a, d, ok)
  {
    assert Ran(a, b, true);
    RanThen(a, b, c, ok);
  }

  lemma BeganRan(a: State, scope: Scope)
    requires !Began(a, scope).0
    ensures Asked(a, Began(a, scope).1) && Ran(a, Began(a, scope).1, false)
  {
    BeganOpens(a, scope);
    AskedRan(a, Began(a, scope).1);
  }

  /** Parsing inside a semantic scope of its own. */
  lemma SemanticScope(a: State, b: State, c: State, ok: bool, accepted: bool)
    requires Counted(a) && Counted(c) && Began(a, Semantic) == (true, b) && Ran(b, c, ok) && (accepted ==> ok)
    ensures Ran(a, Finished(c, accepted).1, ok) && Ran(a, Finished(c, accepted).1, false)
    ensures ok ==> Finished(c, accepted).1.context == if accepted then c.context else a.context
  {
    BeganOpens(a, Semantic);
    if ok {
      SemanticScopeSteps(a, b, c, accepted);
      RanFails(a, Finished(c, accepted).1);
    } else {
      SemanticScopeFails(a, b, c);
    }
  }

  lemma ForgottenRan(a: State, b: State, ok: bool)
    requires Ran(a, b, ok) && forall i :: i in a.nodes ==> i < a.nextId
    ensures Ran(a, Forgotten(b, a.nextId), ok) && Forgotten(b, a.nextId).nodes == a.nodes
  {
    ForgottenIsOld(a, b);
  }

  lemma FinishedNodes(s: State, accepted: bool)
    ensures Finished(s, accepted).1.nodes == s.nodes && Finished(s, accepted).1.nextId == s.nextId
  {
    FinishedLinked(s, accepted);
  }

  /** A candidate with the work that was deferred for it. */
  function WithEffects(candidate: Candidate, effects: Option<nat>): Candidate {
    candidate.(node := candidate.node.(effects := effects))
  }

  lemma {:induction false} EffectsFit(rel: Conversions, candidate: Candidate, effects: Option<nat>, expected: seq<ExpectedType>)
    requires rel.Fits(candidate.node, expected)
    ensures rel.Fits(WithEffects(candidate, effects).node, expected)
  {}

  lemma ClosedBothMemo(s: State, accepted: bool)
    ensures KeptAnswers(s, ClosedBoth(s, accepted).1)
  {
    DeferredInsideSteps(s);
    FinishedLinked(DeferredInside(s).1, accepted);
  }

  lemma RootInRange(found: seq<Occurrence>, roots: seq<Occurrence>, k: nat)
    requires multiset(roots) == multiset(found) && k < |roots|
    ensures roots[k] in found
  {
    assert roots[k] in multiset(roots);
  }

  /** Parsing inside an attempt. */
  lemma Attempted(a: State, b: State, c: State, ok: bool, accepted: bool)
    requires Counted(a) && Counted(c) && BeganBoth(a) == (true, b) && Ran(b, c, ok) && (accepted ==> ok)
    ensures var (effects, d) := ClosedBoth(c, accepted);
            && Ran(a, d, false) && (ok && effects.Some? ==> Ran(a, d, true) && (!accepted ==> d.context == a.context))
  {
    var s := Began(a, Semantic).1;
    BeganOpens(a, Semantic);
    BeganInsideOpens(s);
    if ok {
      AttemptSteps(a, s, b, c, accepted);
      if ClosedBoth(c, accepted).0.Some? { RanFails(a, ClosedBoth(c, accepted).1); }
    } else {
      AttemptFails(a, s, b, c);
    }
  }

  /** An attempt that could not begin: its semantic scope was not begun, or was given up. */
  lemma AttemptNotBegun(a: State)
    requires Counted(a) && !BeganBoth(a).0
    ensures Ran(a, BeganBoth(a).1, false)
  {
    var (ok, s) := Began(a, Semantic);
    BeganOpens(a, Semantic);
    if ok {
      BeganInsideOpens(s);
      OnlyScopesKept(a, s);
      OnlyScopesThen(a, s, BeganInside(s).1);
      SemanticsPush(a.scopes, Semantic);
    }
  }

  /** The deferred work that selecting a node applies: its own, or that of its children. */
  function Work(node: Node): seq<nat>
    decreases node, 0
  {
    if node.effects.Some? then [node.effects.value] else WorkOf(node.children)
  }

  function WorkOf(nodes: seq<Node>): seq<nat>
    decreases nodes, 1
  {
    if nodes == [] then [] else WorkOf(nodes[..|nodes| - 1]) + Work(nodes[|nodes| - 1])
  }

  /** `n` calls of the environment one after the other, until it refuses one. */
  function CalledTimes(s: State, n: nat): (bool, State) {
    if n == 0 then (true, s)
    else
      var (ok, t) := CalledTimes(s, n - 1);
      if ok then Called(t) else (false, t)
  }

  lemma {:induction false} CalledMore(s: State, m: nat, n: nat)
    ensures var (ok, t) := CalledTimes(s, m); CalledTimes(s, m + n) == if ok then CalledTimes(t, n) else (false, t)
  {
    if n > 0 { CalledMore(s, m, n - 1); }
  }

  /** Calls that a refusal keeps from being made. */
  lemma {:induction false} RefusedEarly(s: State, nodes: seq<Node>, k: nat)
    requires k < |nodes| && !CalledTimes(s, |WorkOf(nodes[..k + 1])|).0
    ensures CalledTimes(s, |WorkOf(nodes)|) == CalledTimes(s, |WorkOf(nodes[..k + 1])|)
  {
    WorkGrows(nodes, k + 1);
    CalledNoMore(s, |WorkOf(nodes[..k + 1])|, |WorkOf(nodes)|);
  }

  lemma {:induction false} CalledNoMore(s: State, m: nat, n: nat)
    requires m <= n && !CalledTimes(s, m).0
    ensures CalledTimes(s, n) == CalledTimes(s, m)
    decreases n
  {
    if m < n {
      CalledNoMore(s, m, n - 1);
      assert CalledTimes(s, n) == (false, CalledTimes(s, n - 1).1);
    }
  }

  /** The work of one more node. */
  lemma {:induction false} SelectStep(a: State, b: State, c: State, nodes: seq<Node>, k: nat, ok: bool)
    requires k < |nodes| && CalledTimes(a, |WorkOf(nodes[..k])|) == (true, b) && CalledTimes(b, |Work(nodes[k])|) == (ok, c)
    ensures CalledTimes(a, |WorkOf(nodes[..k + 1])|) == (ok, c)
    ensures !ok ==> CalledTimes(a, |WorkOf(nodes)|) == (ok, c)
  {
    assert nodes[..k + 1][..k] == nodes[..k];
    CalledMore(a, |WorkOf(nodes[..k])|, |Work(nodes[k])|);
    if !ok { RefusedEarly(a, nodes, k); }
  }

  lemma {:induction false} WorkGrows(nodes: seq<Node>, k: nat)
    requires k <= |nodes|
    ensures |WorkOf(nodes[..k])| <= |WorkOf(nodes)|
    decreases |nodes|
  {
    if k < |nodes| {
      WorkGrows(nodes[..|nodes| - 1], k);
      assert nodes[..|nodes| - 1][..k] == nodes[..k];
    } else {
      assert nodes[..k] == nodes;
    }
  }

  /** The context of the first candidate that was accepted; each candidate is given by the
      context it ended in, or by nothing when it was not accepted. */
  function FirstAccepted(ended: seq<Option<Context>>): (r: Option<Context>)
    ensures r.None? <==> forall i :: 0 <= i < |ended| ==> ended[i].None?
  {
    if ended == [] then None
    else
      var before := FirstAccepted(ended[..|ended| - 1]);
      if before.Some? then before else ended[|ended| - 1]
  }

  lemma {:induction false} FirstAcceptedIs(ended: seq<Option<Context>>, i: nat)
    requires i < |ended| && ended[i].Some? && forall j :: 0 <= j < i ==> ended[j].None?
    ensures FirstAccepted(ended) == ended[i]
    decreases |ended|
  {
    if i < |ended| - 1 { FirstAcceptedIs(ended[..|ended| - 1], i); }
  }

  /** What is selected so far is the first accepted candidate; conditions stop at it. */
  ghost predicate Selecting(effect: bool, ended: seq<Option<Context>>, selected: Option<Context>) {
    && selected == FirstAccepted(ended)
    && (!effect && selected.Some? ==> ended != [] && FirstAccepted(ended[..|ended| - 1]).None?)
  }

  lemma SelectingNext(effect: bool, ended: seq<Option<Context>>, selected: Option<Context>, end: Option<Context>)
    requires Selecting(effect, ended, selected) && (effect || selected.None?)
    ensures Selecting(effect, ended + [end], if selected.Some? then selected else end)
  {
    assert (ended + [end])[..|ended|] == ended;
  }

  /** The first accepted candidate is selected and its context kept; without one the context
      is the initial one. */
  ghost predicate Selects(ended: seq<Option<Context>>, initial: Context, selected: bool, context: Context) {
    && selected == FirstAccepted(ended).Some?
    && context == if selected then FirstAccepted(ended).value else initial
  }

  /** The candidates among what came of trying definitions. */
  function Hits(outcomes: seq<Option<Candidate>>): seq<Candidate> {
    if outcomes == [] then []
    else
      var last := outcomes[|outcomes| - 1];
      Hits(outcomes[..|outcomes| - 1]) + if last.Some? then [last.value] else []
  }

  /** What is selected: one candidate if there is one only. */
  function Unique(hits: seq<Candidate>): Selection {
    if hits == [] then NoCall else if |hits| == 1 then OneCall(hits[0]) else AmbiguousCall
  }

  /** What came of trying definitions in their order, up to the second that binds; each call
      is one of its definition and fits what is expected. */
  ghost predicate Tried(catalog: Catalog, call: CS.Call, definitions: seq<FC.Definition>, expected: seq<ExpectedType>, outcomes: seq<Option<Candidate>>) {
    && |outcomes| <= |definitions| && (|Hits(outcomes)| <= 1 ==> |outcomes| == |definitions|)
    && AllCalls(catalog, call, definitions, expected, outcomes)
  }

  ghost predicate AllCalls(catalog: Catalog, call: CS.Call, definitions: seq<FC.Definition>, expected: seq<ExpectedType>, outcomes: seq<Option<Candidate>>) {
    |outcomes| <= |definitions| && forall i :: 0 <= i < |outcomes| && outcomes[i].Some? ==>
      CallOf(catalog, call, definitions[i], outcomes[i].value.node) && catalog.rel.Fits(outcomes[i].value.node, expected)
  }

  lemma {:induction false} HitsFit(catalog: Catalog, call: CS.Call, definitions: seq<FC.Definition>, expected: seq<ExpectedType>, outcomes: seq<Option<Candidate>>)
    requires AllCalls(catalog, call, definitions, expected, outcomes)
    ensures AllFit(catalog.rel, Hits(outcomes), expected)
    decreases |outcomes|
  {
    if outcomes != [] { HitsFit(catalog, call, definitions, expected, outcomes[..|outcomes| - 1]); }
  }

  /** The outcomes of the definitions with an exact signature, then of those with a list
      signature, which are tried only if none of the others binds. */
  datatype Tries = Tries(exact: seq<Option<Candidate>>, list: seq<Option<Candidate>>)

  /** The call that is selected: the only exact one; without any, the only one of a list
      signature; none when there are several. */
  ghost predicate CallSelected(catalog: Catalog, call: CS.Call, definitions: seq<FC.Definition>, expected: seq<ExpectedType>, tries: Tries, selected: seq<Candidate>) {
    && Tried(catalog, call, UsableOf(catalog.rel, definitions, expected, false), expected, tries.exact)
    && (if Hits(tries.exact) != [] then selected == OnlyOne(Hits(tries.exact))
        else
          && Tried(catalog, call, UsableOf(catalog.rel, definitions, expected, true), expected, tries.list)
          && selected == OnlyOne(Hits(tries.list)))
  }

  lemma {:induction false} TriedNext(catalog: Catalog, call: CS.Call, definitions: seq<FC.Definition>, expected: seq<ExpectedType>, outcomes: seq<Option<Candidate>>,
                  next: Option<Candidate>)
    requires AllCalls(catalog, call, definitions, expected, outcomes) && |outcomes| < |definitions| && |Hits(outcomes)| <= 1
    requires next.Some? ==> CallOf(catalog, call, definitions[|outcomes|], next.value.node) && catalog.rel.Fits(next.value.node, expected)
    ensures AllCalls(catalog, call, definitions, expected, outcomes + [next])
    ensures Hits(outcomes + [next]) == Hits(outcomes) + if next.Some? then [next.value] else []
  {
    assert (outcomes + [next])[..|outcomes|] == outcomes;
  }

  function OnlyOne(hits: seq<Candidate>): seq<Candidate> { if |hits| == 1 then hits else [] }

  function MatchSpan(matched: Match, request: Request): Range {
    Range(request.range.start + matched.range.start, request.range.start + matched.range.end)
  }

  /** The node of a match has the registration and the range of the match. */
  predicate NodeOf(matched: Match, request: Request, node: Node) {
    node.kind == NodeKind.Registered(matched.registrationId) && node.span == MatchSpan(matched, request)
  }

  function MatchNode(matched: Match, request: Request, m: Metadata, children: seq<Node>): Node {
    RegisteredNode(MatchSpan(matched, request), matched.registrationId, m, children)
  }

  lemma {:induction false} MatchFits(rel: Conversions, matched: Match, request: Request, m: Metadata, children: seq<Node>)
    requires rel.ExpressionTypesMatch(m.returnType, m.possibleReturnTypes, m.multiplicity, request.expected)
    ensures var node := MatchNode(matched, request, m, children); rel.Fits(node, request.expected) && NodeOf(matched, request, node)
  {
    RegisteredFits(rel, MatchSpan(matched, request), matched.registrationId, m, children, request.expected);
  }

  /** What a default value must meet before it stands for an omitted capture. */
  predicate AcceptsDefault(rel: Conversions, request: TypeRequest, value: DefaultValue, expected: seq<ExpectedType>) {
    && rel.ReturnTypeMatches(Some(value.returnType), expected)
    && rel.MultiplicityMatches(Some(value.multiplicity), expected)
    && (if value.isLiteral then request.allowLiterals else request.allowExpressions)
    && (request.time != 0 ==> value.time == request.time)
    && value.identified
  }

  /** What an alternative must be for its default value to be taken. */
  function DefaultExpected(catalog: Catalog, request: TypeRequest, k: nat): Option<seq<ExpectedType>>
    requires k < |request.alternatives|
  {
    var className := catalog.typeClass(request.alternatives[k].name);
    if className.None? then None else Some([ExpectedType(className.value, request.alternatives[k].plural)])
  }

  /** The answer for an alternative gives no default: the type is unknown, there is no value,
      or it is not acceptable. */
  predicate Declined(catalog: Catalog, request: TypeRequest, k: nat, answer: Option<DefaultValue>)
    requires k < |request.alternatives|
  {
    var expected := DefaultExpected(catalog, request, k);
    expected.None? || answer.None? || !AcceptsDefault(catalog.rel, request, answer.value, expected.value)
  }

  predicate AllDeclined(catalog: Catalog, request: TypeRequest, answers: seq<Option<DefaultValue>>) {
    |answers| <= |request.alternatives| && forall k :: 0 <= k < |answers| ==> Declined(catalog, request, k, answers[k])
  }

  ghost predicate SameNodes(a: State, b: State) { b.nodes == a.nodes && b.nextId == a.nextId }

  /** The last node that was stored is the acceptable default value of an alternative. */
  ghost predicate DefaultStored(catalog: Catalog, request: TypeRequest, k: nat, value: DefaultValue, s: State) {
    && k < |request.alternatives| && DefaultExpected(catalog, request, k).Some?
    && AcceptsDefault(catalog.rel, request, value, DefaultExpected(catalog, request, k).value)
    && s.nextId > 0 && s.nextId - 1 in s.nodes && s.nodes[s.nextId - 1] == DefaultNode(request.remaining, value)
  }

  function DefaultNode(span: Range, value: DefaultValue): Node {
    Node(NodeKind.Default, span, Some(value.returnType), [value.returnType], Some(value.multiplicity), None, value.effects, [])
  }

  /** A resolution that names a node which fits the alternative it was resolved for. */
  ghost predicate Holds(catalog: Catalog, request: TypeRequest, resolution: Resolution, nodes: map<nat, Node>) {
    resolution.id.Some? ==>
      && resolution.id.value in nodes && resolution.alternative.Some? && resolution.alternative.value < |request.alternatives|
      && var wanted := request.alternatives[resolution.alternative.value];
      catalog.typeClass(wanted.name).Some?
      && catalog.rel.Fits(nodes[resolution.id.value], [ExpectedType(catalog.typeClass(wanted.name).value, wanted.plural)])
  }

  ghost predicate AllResolved(catalog: Catalog, request: TypeRequest, resolutions: seq<Resolution>, nodes: map<nat, Node>) {
    forall i :: 0 <= i < |resolutions| ==> Holds(catalog, request, resolutions[i], nodes)
  }

  lemma ResolvedLater(catalog: Catalog, request: TypeRequest, resolutions: seq<Resolution>, a: State, b: State)
    requires KeptNodes(a, b) && (forall i :: i in a.nodes ==> i < a.nextId) && AllResolved(catalog, request, resolutions, a.nodes)
    ensures AllResolved(catalog, request, resolutions, b.nodes)
  {
    forall i | 0 <= i < |resolutions| ensures Holds(catalog, request, resolutions[i], b.nodes) {
      assert Holds(catalog, request, resolutions[i], a.nodes);
    }
  }

  /** A request whose seed is memoized and grows. */
  ghost predicate Planted(entry: State, s: State, key: Key, candidates: seq<Candidate>, g: Growth, added: bool) {
    && Inside(entry, s, key) && ScopesRan(entry, s, true) && key in s.memo && s.memo[key] == candidates
    && g.key == key && !g.finished && Growing(entry, s, g) && GrownSoFar(g.rounds, added)
  }

  /** A request whose growth has stopped, because a round failed or the memo is full. */
  ghost predicate Stopped(entry: State, s: State, key: Key, g: Growth) {
    && Inside(entry, s, key) && ScopesRan(entry, s, false)
    && g.key == key && !g.finished && Growing(entry, s, g) && Extending(g.rounds)
  }

  lemma ScopesThen(entry: State, a: State, b: State, ok: bool)
    requires ScopesRan(entry, a, true) && ScopesRan(a, b, ok)
    requires entry.unclosed <= a.unclosed <= b.unclosed && entry.calls <= a.calls <= b.calls
    ensures ScopesRan(entry, b, ok)
  {
    LinkedThen(entry, a, b);
  }

  lemma GrowthStops(entry: State, s: State, g: Growth, ok: bool)
    requires Inside(entry, s, g.key) && ScopesRan(entry, s, ok) && Growing(entry, s, g) && !g.finished && Extending(g.rounds)
    ensures Stopped(entry, s, g.key, g)
  {}

  lemma StoredIsWell(rel: Conversions, config: Config, s: State, rounds: seq<seq<Candidate>>, key: Key, candidates: seq<Candidate>)
    requires Well(rel, config, s) && (key in s.memo || |s.memo| < config.maxMemoEntries)
    requires AllFit(rel, candidates, key.request.expected) && Extending(rounds + [candidates])
    ensures Well(rel, config, s.(memo := s.memo[key := candidates]))
  {
    assert (rounds + [candidates])[|rounds|] == candidates;
  }

  lemma InsideRecords(entry: State, s: State, key: Key, g: Growth)
    requires Inside(entry, s, key)
    ensures Inside(entry, s.(growths := s.growths + [g]), key)
  {}

  /** The state without the nodes resolved from `first` on. */
  ghost function Forgotten(s: State, first: nat): State {
    s.(nodes := map i | i in s.nodes && i < first :: s.nodes[i], nextId := first)
  }

  lemma ForgottenIsOld(a: State, s: State)
    requires KeptNodes(a, s) && forall i :: i in a.nodes ==> i < a.nextId
    ensures Forgotten(s, a.nextId).nodes == a.nodes
  {}

  /** With nothing but the own scope left, finishing it leads back to the scopes before it. */
  lemma OwnScopeLeft(a: State, s: State, accepted: bool)
    requires Counted(a) && Above(a, s) && s.scopes == a.scopes + [Semantic]
    ensures var (ok, t) := Finished(s, accepted);
            && t.scopes == a.scopes && t.contexts == a.contexts && Kept(a, t) && Scoped(a, t)
            && t.context == if accepted then s.context else a.context
  {
    var (ok, t) := Finished(s, accepted);
    SemanticsPush(a.scopes, Semantic);
    PoppedCounts(s, accepted);
    assert s.scopes[..|a.scopes|] == a.scopes;
    assert s.contexts == a.contexts + [a.context];
    assert s.contexts[..|a.contexts|] == a.contexts;
    OnlyScopesKept(s, t);
    KeptThen(a, s, t);
  }

  class ExpressionSession {
    const source: string
    const catalog: Catalog
    const config: Config

    var memo: map<Key, seq<Candidate>>
    var active: set<Key>
    var scopes: seq<Scope>
    var contexts: seq<Context>
    var context: Context
    var nodes: map<nat, Node>
    var nextId: nat
    var seen: nat
    var script: seq<Answer>
    ghost var unclosed: nat
    ghost var calls: seq<ScopeCall>
    ghost var log: seq<Lookup>
    ghost var growths: seq<Growth>

    constructor (source: string, catalog: Catalog, config: Config, context: Context, script: seq<Answer>)
      ensures Valid() && this.source == source && this.catalog == catalog && this.config == config
      ensures S() == State(map[], {}, [], [], context, map[], 0, 0, script, 0, [], [], [])
    {
      this.source, this.catalog, this.config, this.context, this.script := source, catalog, config, context, script;
      memo, active, scopes, contexts, nodes, nextId, seen := map[], {}, [], [], map[], 0, 0;
      unclosed, calls, log, growths := 0, [], [], [];
    }

    ghost function S(): State reads this {
      State(memo, active, scopes, contexts, context, nodes, nextId, seen, script, unclosed, calls, log, growths)
    }

    ghost predicate Valid() reads this { Well(catalog.rel, config, S()) }

    /** Levels of nesting that are left below `depth`. */
    ghost function Below(depth: nat): nat { if depth <= config.maxDepth then config.maxDepth + 1 - depth else 0 }

    // ------------------------------------------------------------------ environment

    method Ask() returns (answer: Answer)
      requires Valid()
      modifies this`script
      ensures Valid() && Asked(old(S()), S())
      ensures answer == if old(script) == [] then Fault else old(script)[0]
      ensures script == if old(script) == [] then [] else old(script)[1..]
    {
      if script == [] { return Fault; }
      answer := script[0];
      script := script[1..];
    }

    method CallEnvironment() returns (ok: bool)
      requires Valid()
      modifies this`script
      ensures Valid() && (ok, S()) == Called(old(S())) && Asked(old(S()), S())
    {
      var answer := Ask();
      return answer == Done;
    }

    // ----------------------------------------------------------------------- scopes

    method BeginExpression() returns (ok: bool)
      requires Valid()
      modifies this
      ensures Valid() && (ok, S()) == Began(old(S()), Expression)
    {
      ScopesStayCounted(S(), Expression, true);
      ok := CallEnvironment();
      if ok { scopes := scopes + [Expression]; }
    }

    method DeferExpression() returns (r: Option<Option<nat>>)
      requires Valid()
      modifies this
      ensures Valid() && (r, S()) == Deferred(old(S()))
    {
      ScopesStayCounted(S(), Expression, true);
      if !Ends(scopes, Expression) { return None; }
      scopes := scopes[..|scopes| - 1];
      var answer := Ask();
      return if answer.Effects? then Some(answer.effects) else None;
    }

    /** The expression scope inside the semantic scope of an attempt. */
    method BeginInside() returns (ok: bool)
      requires Valid()
      modifies this
      ensures Valid() && (ok, S()) == BeganInside(old(S()))
    {
      ok := BeginExpression();
      calls := calls + [ScopeCall.BeginInside(ok)];
      if !ok { unclosed := unclosed + 1; }
    }

    /** Discards an expression scope above a semantic scope that is to be closed. */
    method DeferInside() returns (r: Option<Option<nat>>)
      requires Valid()
      modifies this
      ensures Valid() && (r, S()) == DeferredInside(old(S()))
    {
      ghost var asked := Ends(scopes, Expression);
      r := DeferExpression();
      if asked { calls := calls + [DeferToClose(r.Some?)]; }
      if r.None? { unclosed := unclosed + 1; }
    }

    method BeginSemantic() returns (ok: bool)
      requires Valid()
      modifies this
      ensures Valid() && (ok, S()) == Began(old(S()), Semantic)
    {
      ScopesStayCounted(S(), Semantic, true);
      ok := CallEnvironment();
      if ok {
        contexts := contexts + [context];
        scopes := scopes + [Semantic];
      }
    }

    /** Discards the expression scopes on top, innermost first. */
    method CloseExpressions() returns (ok: bool)
      requires Valid()
      modifies this
      ensures Valid() && (ok, S()) == Closed(old(S()))
    {
      while Ends(scopes, Expression)
        invariant Valid() && Closed(S()) == Closed(old(S()))
        decreases |scopes|
      {
        var effects := DeferInside();
        if effects.None? { return false; }
      }
      return true;
    }

    method PopSemantic(accepted: bool) returns (ok: bool)
      requires Valid()
      modifies this
      ensures (ok, S()) == Popped(old(S()), accepted)
      ensures Valid()
    {
      PoppedStaysCounted(S(), accepted);
      if !Ends(scopes, Semantic) { return false; }
      scopes := scopes[..|scopes| - 1];
      if contexts == [] { return false; }
      var saved := contexts[|contexts| - 1];
      contexts := contexts[..|contexts| - 1];
      if !accepted { context := saved; }
      if script == [] { return false; }
      ok := script[0] == Done;
      script := script[1..];
    }

    /** Closes the semantic scope on top; a rejection first discards the expression scopes
        above it, and brings back the saved context. */
    method FinishSemantic(accepted: bool) returns (ok: bool)
      requires Valid()
      modifies this
      ensures Valid() && (ok, S()) == Finished(old(S()), accepted)
    {
      ok := true;
      if !accepted { ok := CloseExpressions(); }
      if !ok { return; }
      ok := PopSemantic(accepted);
    }

    /** Ends one attempt: its expression scope, then its semantic scope. */
    method CloseAttempt(accepted: bool) returns (r: Option<Option<nat>>)
      requires Valid()
      modifies this
      ensures Valid() && (r, S()) == ClosedBoth(old(S()), accepted)
    {
      r := DeferInside();
      if r.None? { return; }
      var ok := FinishSemantic(accepted);
      if !ok { return None; }
    }

    /** Ends parsing inside an expression scope of its own, which a failure leaves open. */
    method EndExpression(ok: bool, ghost a: State, ghost b: State) returns (r: Option<Option<nat>>)
      requires Valid() && Began(a, Expression) == (true, b) && Ran(b, S(), ok)
      modifies this
      ensures Valid() && Ran(a, S(), false) && KeptAnswers(old(S()), S())
      ensures ok ==> Ran(a, S(), true) && (r, S()) == Deferred(old(S()))
      ensures !ok ==> r == None && S() == old(S())
    {
      BeganOpens(a, Expression);
      ExpressionScopeSteps(a, b, S(), ok);
      if !ok { return None; }
      r := DeferExpression();
      RanFails(a, S());
    }

    // --------------------------------------------------------------------- recovery

    method BeginRecovery() returns (r: Option<Checkpoint>)
      requires Valid()
      modifies this
      ensures Valid() && (r.Some?, S()) == Began(old(S()), Semantic)
      ensures r.Some? ==> r.value == Checkpoint(|old(scopes)|, old(nextId))
    {
      var checkpoint := Checkpoint(|scopes|, nextId);
      var ok := BeginSemantic();
      return if ok then Some(checkpoint) else None;
    }

    /** Forgets the nodes resolved from an id on. */
    method DropNodes(first: nat)
      requires Valid() && first <= nextId
      modifies this`nodes, this`nextId
      ensures Valid() && S() == Forgotten(old(S()), first)
    {
      var id := first;
      while id < nextId
        invariant first <= id <= nextId && nextId == old(nextId)
        invariant forall i :: i in nodes <==> i in old(nodes) && !(first <= i < id)
        invariant forall i :: i in nodes ==> nodes[i] == old(nodes)[i]
      {
        nodes := nodes - {id};
        id := id + 1;
      }
      nextId := first;
    }

    /** Closes a recovery scope that was begun in state `a`. A rejection undoes everything
        but the memo, which it empties: scopes, contexts, context, resolved nodes and ids
        are those of `a` again, however the parsing inside ended. */
    method FinishRecovery(checkpoint: Checkpoint, accepted: bool, ghost a: State) returns (ok: bool)
      requires Valid() && Well(catalog.rel, config, a) && Above(a, S())
      requires checkpoint == Checkpoint(|a.scopes|, a.nextId)
      modifies this
      ensures Valid() && Scoped(a, S()) && active == a.active
      ensures ok ==> scopes == a.scopes && contexts == a.contexts
      ensures ok && !accepted ==> memo == map[] && nodes == a.nodes && nextId == a.nextId && context == a.context
      ensures ok && accepted ==> Kept(a, S()) && context == old(context)
      ensures ok && accepted ==> |old(scopes)| == |a.scopes| + 1
    {
      var unclosedScopes := |scopes| != checkpoint.depth + 1;
      ok := CloseAbove(checkpoint, a);
      if !ok { return; }
      ok := FinishOwn(accepted && !unclosedScopes, a);
      if !ok { return; }
      if !accepted || unclosedScopes { Abort(checkpoint, a); }
      if accepted && unclosedScopes { return false; }
    }

    method FinishOwn(accepted: bool, ghost a: State) returns (ok: bool)
      requires Valid() && Counted(a) && Above(a, S()) && scopes == a.scopes + [Semantic]
      modifies this
      ensures Valid() && scopes == a.scopes && contexts == a.contexts && Kept(a, S()) && Scoped(a, S())
      ensures context == if accepted then old(context) else a.context
    {
      OwnScopeLeft(a, S(), accepted);
      ok := FinishSemantic(accepted);
    }

    /** Nothing that was resolved or memoized since the checkpoint stays. */
    method Abort(checkpoint: Checkpoint, ghost a: State)
      requires Valid() && Well(catalog.rel, config, a) && KeptNodes(a, S()) && checkpoint.firstId == a.nextId
      modifies this`memo, this`nodes, this`nextId
      ensures Valid() && S() == old(S()).(memo := map[], nodes := a.nodes, nextId := a.nextId)
    {
      ForgottenIsOld(a, S());
      DropNodes(checkpoint.firstId);
      memo := map[];
    }

    /** Rejects every scope above the own one, innermost first. */
    method CloseAbove(checkpoint: Checkpoint, ghost a: State) returns (ok: bool)
      requires Valid() && Counted(a) && Above(a, S()) && checkpoint.depth == |a.scopes|
      modifies this
      ensures Valid() && Kept(a, S()) && (if ok then Above(a, S()) && scopes == a.scopes + [Semantic] else Scoped(a, S()))
      ensures |old(scopes)| == |a.scopes| + 1 ==> S() == old(S())
    {
      while |scopes| > checkpoint.depth + 1
        invariant Valid() && Above(a, S())
        invariant |old(scopes)| == |a.scopes| + 1 ==> S() == old(S())
        decreases |scopes|
      {
        ok := DropTop(a);
        if !ok { return; }
      }
      assert scopes == a.scopes + [Semantic];
      ok := true;
    }

    method DropTop(ghost a: State) returns (ok: bool)
      requires Valid() && Counted(a) && Above(a, S()) && |scopes| > |a.scopes| + 1
      modifies this
      ensures Valid() && Kept(a, S()) && (if ok then Above(a, S()) && |scopes| < |old(scopes)| else Scoped(a, S()))
    {
      AboveDrops(a, S());
      ok := Drop();
    }

    method Drop() returns (ok: bool)
      requires Valid() && (Ends(scopes, Semantic) ==> unclosed > 0)
      modifies this
      ensures Valid() && (ok, S()) == Dropped(old(S()))
    {
      if Ends(scopes, Expression) {
        var effects := DeferInside();
        ok := effects.Some?;
      } else {
        ghost var before := unclosed;
        ok := FinishSemantic(false);
        if ok { unclosed := before - 1; }
      }
    }

    // ------------------------------------------------------------------- candidates

    method CountCandidate() returns (ok: bool)
      requires Valid()
      modifies this`seen
      ensures Valid() && S() == old(S()).(seen := old(seen) + 1) && ok == (seen <= config.maxCandidates)
    {
      seen := seen + 1;
      return seen <= config.maxCandidates;
    }

    /** Appends what is new; every addition counts against the candidate limit. */
    method ExtendUnique(target: seq<Candidate>, incoming: seq<Candidate>) returns (r: Result<seq<Candidate>>)
      requires Valid()
      modifies this`seen
      ensures Valid() && old(seen) <= seen && S() == old(S()).(seen := seen)
      ensures r.Ok? ==> r.value == Extended(target, incoming)
    {
      var result, k := target, 0;
      assert incoming[..0] == [];
      while k < |incoming|
        invariant 0 <= k <= |incoming| && result == Extended(target, incoming[..k])
        invariant Valid() && old(seen) <= seen && S() == old(S()).(seen := seen)
      {
        ExtendedNext(target, incoming, k);
        var more := AddCandidate(result, incoming[k]);
        if more.Err? { return more; }
        result := more.value;
        k := k + 1;
      }
      assert incoming[..k] == incoming;
      return Ok(result);
    }

    method AddCandidate(target: seq<Candidate>, candidate: Candidate) returns (r: Result<seq<Candidate>>)
      requires Valid()
      modifies this`seen
      ensures Valid() && old(seen) <= seen && S() == old(S()).(seen := seen)
      ensures r.Ok? ==> r.value == Added(target, candidate)
    {
      if candidate in target { return Ok(target); }
      var ok := CountCandidate();
      r := if ok then Ok(target + [candidate]) else Err(CandidateLimit);
    }

    /** Applies the deferred work of a node, or of the nodes below it: one call for each
        piece of work, in order, until the environment refuses one. */
    method SelectExpression(node: Node) returns (ok: bool)
      requires Valid()
      modifies this`script
      ensures Valid() && Asked(old(S()), S())
      ensures (ok, S()) == CalledTimes(old(S()), |Work(node)|)
      decreases node
    {
      ghost var a := S();
      if node.effects.Some? {
        CalledMore(a, 0, 1);
        ok := CallEnvironment();
        return;
      }
      ok := true;
      var k := 0;
      while k < |node.children|
        invariant 0 <= k <= |node.children| && Valid() && Asked(a, S())
        invariant (ok, S()) == CalledTimes(a, |WorkOf(node.children[..k])|) && ok
      {
        ghost var b := S();
        ok := SelectExpression(node.children[k]);
        SelectStep(a, b, S(), node.children, k, ok);
        if !ok { return; }
        k := k + 1;
      }
      assert node.children[..k] == node.children;
    }

    // ----------------------------------------------------------------------- memo

    /** `parse_prefixes_mode`. */
    method ParsePrefixes(request: Request, depth: nat) returns (r: Result<seq<Candidate>>, ghost key: Key)
      requires Valid()
      modifies this
      ensures Valid() && Ran(old(S()), S(), r.Ok?) && key == KeyFor(old(S()), request)
      ensures r.Ok? ==> Distinct(r.value) && AllFit(catalog.rel, r.value, request.expected)
      ensures depth > config.maxDepth ==> r == Err(DepthLimit) && S() == old(S())
      ensures depth <= config.maxDepth && !ValidRequest(source, request.range, request.ends) ==> r == Err(InvalidInputRange) && S() == old(S())
      ensures depth <= config.maxDepth && ValidRequest(source, request.range, request.ends) && !HasRevision(old(S())) ==>
        r == Err(Environment) && Asked(old(S()), S())
      ensures Reaches(old(S()), request, depth) ==> Answered(old(S()), S(), r, key) && AskedNext(old(S()), S(), key)
      ensures r.Err? ==> (key in memo <==> key in old(memo) && !Reaches(old(S()), request, depth))
      decreases Below(depth), 33
    {
      ghost var a := S();
      key := KeyFor(a, request);
      if depth > config.maxDepth { return Err(DepthLimit), key; }
      if !ValidRequest(source, request.range, request.ends) { return Err(InvalidInputRange), key; }
      var answer := Ask();
      AskedRan(a, S());
      if !answer.Revision? { return Err(Environment), key; }
      r := ParseKey(request, Key(request, context, answer.revision), depth, a);
    }

    /** A request for which the environment has just given its revision, in state `a`. */
    method ParseKey(request: Request, key: Key, depth: nat, ghost a: State) returns (r: Result<seq<Candidate>>)
      requires Valid() && depth <= config.maxDepth && ValidRequest(source, request.range, request.ends)
      requires key.request == request && a.script != [] && S() == a.(script := a.script[1..])
      modifies this
      ensures Valid() && Ran(a, S(), r.Ok?) && Answered(a, S(), r, key) && AskedNext(a, S(), key)
      decreases Below(depth), 32
    {
      if key in memo || key in active {
        var current := Recall(key);
        AskingRan(a, key, Some(current));
        return Ok(current);
      }
      AskingRan(a, key, None);
      NoteNew(key);
      ghost var b := S();
      r := ParseNew(request, key, depth);
      RanThen(a, b, S(), r.Ok?);
    }

    /** A memoized request that is asked twice, the second time beyond the depth limit: it is
        answered and then fails, and its entry stays. */
    method AskedTooDeep(request: Request, depth: nat, beyond: nat)
      returns (first: Result<seq<Candidate>>, second: Result<seq<Candidate>>, ghost again: Key)
      requires Valid() && depth <= config.maxDepth < beyond && Reaches(S(), request, depth)
      requires KeyFor(S(), request) in memo && |script| > 1 && script[1] == script[0]
      modifies this
      ensures first == Ok(old(memo)[KeyFor(old(S()), request)]) && second == Err(DepthLimit)
      ensures again == KeyFor(old(S()), request) && again in memo && memo[again] == first.value
    {
      ghost var key;
      first, key := ParsePrefixes(request, depth);
      second, again := ParsePrefixes(request, beyond);
    }

    /** A request inside the limits, for which the environment has a revision. */
    ghost predicate Reaches(s: State, request: Request, depth: nat) {
      depth <= config.maxDepth && ValidRequest(source, request.range, request.ends) && HasRevision(s)
    }

    /** The answer to a request that is memoized or being parsed. */
    method Recall(key: Key) returns (answer: seq<Candidate>)
      requires Valid()
      modifies this`log
      ensures Valid() && answer == Current(old(S()), key) && S() == old(S()).(log := old(log) + [Lookup(key, Some(answer))])
    {
      answer := if key in memo then memo[key] else [];
      GrowthsLater(config.maxDepth, log, growths, Lookup(key, Some(answer)));
      log := log + [Lookup(key, Some(answer))];
    }

    /** Notes that a request is asked which has to be parsed. */
    ghost method NoteNew(key: Key)
      requires Valid()
      modifies this`log
      ensures Valid() && S() == old(S()).(log := old(log) + [Lookup(key, None)])
    {
      GrowthsLater(config.maxDepth, log, growths, Lookup(key, None));
      log := log + [Lookup(key, None)];
    }

    /** Marks a request as being parsed, if the memo has room for its answer. */
    method Activate(key: Key) returns (room: bool)
      requires Valid() && key !in active
      modifies this`active
      ensures Valid() && room == (|memo| < config.maxMemoEntries)
      ensures S() == if room then old(S()).(active := old(active) + {key}) else old(S())
      ensures room ==> Inside(old(S()), S(), key) && ScopesRan(old(S()), S(), true)
    {
      InsideBegins(S(), S().(active := active + {key}), key);
      active := active + {key};
      room := |memo| < config.maxMemoEntries;
      if !room { active := active - {key}; }
    }

    /** A request that is neither memoized nor being parsed. */
    method ParseNew(request: Request, key: Key, depth: nat) returns (r: Result<seq<Candidate>>)
      requires Valid() && depth <= config.maxDepth && ValidRequest(source, request.range, request.ends)
      requires key.request == request && key !in memo && key !in active
      modifies this
      ensures Valid() && Ran(old(S()), S(), r.Ok?)
      ensures if r.Ok? then key in memo && memo[key] == r.value else key !in memo
      ensures Grew(old(S()), S(), key, r) || (r == Err(MemoLimit) && S() == old(S()))
      decreases Below(depth), 31
    {
      ghost var entry := S();
      var room := Activate(key);
      if !room { return Err(MemoLimit); }
      r := GrowSeed(request, key, depth, entry);
      Deactivate(key, r, entry);
    }

    /** The end of parsing a request: a failure forgets its answer. */
    method Deactivate(key: Key, r: Result<seq<Candidate>>, ghost entry: State)
      requires Valid() && key !in entry.memo && key !in entry.active && SeedGrown(entry, S(), key, r)
      modifies this`active, this`memo
      ensures Valid() && Ran(entry, S(), r.Ok?) && Grew(entry, S(), key, r)
      ensures if r.Ok? then key in memo && memo[key] == r.value else key !in memo
    {
      SeedEnds(entry, S(), key, r);
      Retire(key, r.Ok?);
    }

    method Retire(key: Key, ok: bool)
      requires Valid()
      modifies this`active, this`memo
      ensures Valid() && S() == Ended(old(S()), key, ok)
    {
      EndedIsWell(catalog.rel, config, S(), key, ok);
      active := active - {key};
      if !ok { memo := memo - {key}; }
    }

    /** Parses without the memo until nothing new is found: first for a seed, which is
        memoized, then again and again with the seed at hand. */
    method GrowSeed(request: Request, key: Key, depth: nat, ghost entry: State) returns (r: Result<seq<Candidate>>)
      requires Valid() && depth <= config.maxDepth && ValidRequest(source, request.range, request.ends)
      requires key.request == request && key !in entry.memo && key !in entry.active
      requires Inside(entry, S(), key) && ScopesRan(entry, S(), true) && key !in memo && log == entry.log
      modifies this
      ensures Valid() && SeedGrown(entry, S(), key, r)
      decreases Below(depth), 30
    {
      ghost var g;
      r, g := PlantSeed(request, key, depth, entry);
      if r.Err? {
        RecordFailure(key, entry, g);
        return;
      }
      var round, added := 0, true;
      while round <= config.maxDepth && added
        invariant 0 <= round <= config.maxDepth + 1 && Valid() && |g.rounds| == round + 1
        invariant r.Ok? && Planted(entry, S(), key, r.value, g, added)
        decreases config.maxDepth + 1 - round
      {
        r, added, g := GrowOnce(request, key, depth, r.value, entry, g);
        if r.Err? {
          RecordFailure(key, entry, g);
          return;
        }
        round := round + 1;
      }
      RecordGrowth(key, r.value, entry, g, added);
    }

    /** Records a growth that has come to its end. */
    method RecordGrowth(key: Key, candidates: seq<Candidate>, ghost entry: State, ghost g: Growth, ghost added: bool)
      requires Valid() && Planted(entry, S(), key, candidates, g, added)
      requires |g.rounds| <= config.maxDepth + 2 && (added ==> |g.rounds| == config.maxDepth + 2)
      modifies this`growths
      ensures Valid() && S() == old(S()).(growths := old(growths) + [g.(finished := true)])
      ensures SeedGrown(entry, S(), key, Ok(candidates))
    {
      InsideRecords(entry, S(), key, g.(finished := true));
      growths := growths + [g.(finished := true)];
    }

    /** Records a growth whose next round failed, with the rounds that it had. */
    ghost method RecordFailure(key: Key, entry: State, g: Growth)
      requires Valid() && Stopped(entry, S(), key, g) && |g.rounds| <= config.maxDepth + 2
      modifies this`growths
      ensures Valid() && S() == old(S()).(growths := old(growths) + [g])
      ensures forall e :: SeedGrown(entry, S(), key, Err(e))
    {
      InsideRecords(entry, S(), key, g);
      growths := growths + [g];
    }

    method PlantSeed(request: Request, key: Key, depth: nat, ghost entry: State) returns (r: Result<seq<Candidate>>, ghost g: Growth)
      requires Valid() && depth <= config.maxDepth && ValidRequest(source, request.range, request.ends)
      requires key.request == request && key !in entry.memo && key !in entry.active
      requires Inside(entry, S(), key) && ScopesRan(entry, S(), true) && key !in memo && log == entry.log
      modifies this
      ensures Valid() && if r.Ok? then Planted(entry, S(), key, r.value, g, true) else Stopped(entry, S(), key, g)
      ensures g.rounds == if r.Ok? then [r.value] else []
      decreases Below(depth), 29
    {
      g := Growth(key, |log|, [], [], |log|, false);
      r, g := ParseRound(request, depth, true, [], entry, g);
      if r.Err? { return; }
      if |memo| >= config.maxMemoEntries { return Err(MemoLimit), g; }
      g := Store(key, r.value, entry, g, true);
    }

    /** One more round: what is new is appended to the candidates and stored in their place;
        after a failure the growth has the rounds it had. */
    method GrowOnce(request: Request, key: Key, depth: nat, candidates: seq<Candidate>, ghost entry: State, ghost g: Growth)
      returns (r: Result<seq<Candidate>>, added: bool, ghost h: Growth)
      requires Valid() && depth <= config.maxDepth && ValidRequest(source, request.range, request.ends)
      requires key.request == request && key !in entry.memo && key !in entry.active
      requires Planted(entry, S(), key, candidates, g, true)
      modifies this
      ensures Valid() && if r.Ok? then Planted(entry, S(), key, r.value, h, added) else Stopped(entry, S(), key, h)
      ensures r.Ok? ==> candidates <= r.value && (added <==> |r.value| > |candidates|)
      ensures if r.Ok? then h.rounds == g.rounds + [r.value] && h.marks[..|g.marks|] == g.marks else h.rounds == g.rounds && h.marks == g.marks
      decreases Below(depth), 29
    {
      added := true;
      r, h := ParseRound(request, depth, false, candidates, entry, g);
      if r.Err? { return; }
      added := |r.value| > |candidates|;
      h := StoreRound(key, candidates, r.value, entry, h);
    }

    /** Stores what one more round has come to. */
    method StoreRound(key: Key, before: seq<Candidate>, candidates: seq<Candidate>, ghost entry: State, ghost g: Growth) returns (ghost h: Growth)
      requires Valid() && key in memo && before <= candidates && Distinct(candidates) && AllFit(catalog.rel, candidates, key.request.expected)
      requires Inside(entry, S(), key) && ScopesRan(entry, S(), true) && key !in entry.memo && key !in entry.active
      requires Growing(entry, S(), g) && g.key == key && !g.finished && GrownSoFar(g.rounds, true) && g.rounds[|g.rounds| - 1] == before
      modifies this`memo
      ensures Valid() && Planted(entry, S(), key, candidates, h, |candidates| > |before|)
      ensures h == g.(rounds := g.rounds + [candidates], marks := g.marks + [|log|])
    {
      GrownNext(g.rounds, candidates);
      h := Store(key, candidates, entry, g, |candidates| > |before|);
    }

    method Store(key: Key, candidates: seq<Candidate>, ghost entry: State, ghost g: Growth, ghost added: bool) returns (ghost h: Growth)
      requires Valid() && (key in memo || |memo| < config.maxMemoEntries)
      requires AllFit(catalog.rel, candidates, key.request.expected) && GrownSoFar(g.rounds + [candidates], added)
      requires Inside(entry, S(), key) && ScopesRan(entry, S(), true) && key !in entry.memo && key !in entry.active
      requires Growing(entry, S(), g) && g.key == key && !g.finished
      modifies this`memo
      ensures Valid() && Planted(entry, S(), key, candidates, h, added)
      ensures h == g.(rounds := g.rounds + [candidates], marks := g.marks + [|log|])
      ensures S() == old(S()).(memo := old(memo)[key := candidates])
    {
      InsideStores(entry, S(), key, candidates);
      GrowingNext(entry, S(), g, candidates);
      StoredIsWell(catalog.rel, config, S(), g.rounds, key, candidates);
      h := g.(rounds := g.rounds + [candidates], marks := g.marks + [|log|]);
      memo := memo[key := candidates];
    }

    /** One parse without the memo, added to what is there. */
    method ParseRound(request: Request, depth: nat, base: bool, target: seq<Candidate>, ghost entry: State, ghost g: Growth)
      returns (r: Result<seq<Candidate>>, ghost h: Growth)
      requires Valid() && depth <= config.maxDepth && ValidRequest(source, request.range, request.ends)
      requires Inside(entry, S(), g.key) && ScopesRan(entry, S(), true) && AllFit(catalog.rel, target, request.expected) && Distinct(target)
      requires Growing(entry, S(), g) && !g.finished && Extending(g.rounds)
      modifies this
      ensures Valid() && Inside(entry, S(), g.key) && ScopesRan(entry, S(), r.Ok?) && Stopped(entry, S(), g.key, h)
      ensures g.key in memo <==> g.key in old(memo)
      ensures h == g.(till := |log|) && Growing(entry, S(), h)
      ensures r.Ok? ==> target <= r.value && Distinct(r.value) && AllFit(catalog.rel, r.value, request.expected)
      decreases Below(depth), 28
    {
      ghost var a := S();
      h := g;
      var parsed := ParseUncached(request, depth, base);
      ghost var b := S();
      if parsed.Ok? {
        r := ExtendUnique(target, parsed.value);
        SeenMore(a, b, S());
        ExtendedFits(catalog.rel, target, parsed.value, request.expected);
      } else {
        r := parsed;
      }
      InsideThen(entry, a, S(), g.key);
      ScopesThen(entry, a, S(), r.Ok?);
      GrowingServes(entry, a, S(), g);
      h := g.(till := |log|);
      GrowthStops(entry, S(), h, r.Ok?);
    }

    // --------------------------------------------------------------- type captures

    /** Lets the matcher run on a range; it asks the session for types, for the deferred
        work of a resolution and for default values. */
    method RunMatcher(range: Range, depth: nat) returns (r: Result<seq<Match>>, retry: bool)
      requires Valid() && depth <= config.maxDepth
      modifies this
      ensures Valid() && Ran(old(S()), S(), r.Ok?)
      decreases Below(depth), 2
    {
      ghost var a := S();
      while true
        invariant Valid() && Ran(a, S(), true)
        decreases |script|
      {
        ghost var b := S();
        var answer := Ask();
        AskedRan(b, S());
        RanThen(a, b, S(), true);
        ghost var c := S();
        if answer.Matched? { return Ok(answer.matches), answer.retry; }
        var ok := Serve(answer, range.start, depth);
        RanThen(a, c, S(), ok);
        if !ok { return Err(Environment), false; }
      }
    }

    /** One request of the matcher. */
    method Serve(answer: Answer, start: nat, depth: nat) returns (ok: bool)
      requires Valid() && depth <= config.maxDepth
      modifies this
      ensures Valid() && Ran(old(S()), S(), ok)
      ensures ok ==> answer != Fault
      decreases Below(depth), 1
    {
      match answer {
        case Done =>
          ok := true;
        case WantType(request) =>
          var resolutions := ResolveType(start, request, depth + 1);
          ok := resolutions.Ok?;
        case WantSelected(id) =>
          ok := true;
          if id in nodes { ok := SelectExpression(nodes[id]); }
        case WantDefault(request) =>
          ghost var answers, value;
          var done;
          ok, done, answers, value := CompleteDefault(request);
        case _ =>
          ok := false;
      }
    }

    /** `resolve_type_inner`: for every alternative, one node for each end it can reach. */
    method ResolveType(start: nat, request: TypeRequest, depth: nat) returns (r: Result<seq<Resolution>>)
      requires Valid()
      modifies this
      ensures Valid() && Ran(old(S()), S(), r.Ok?)
      ensures r.Ok? ==> AllResolved(catalog, request, r.value, nodes)
      decreases Below(depth), 36
    {
      ghost var a := S();
      var remaining := Range(start + request.remaining.start, start + request.remaining.end);
      var ends := seq(|request.ends|, i requires 0 <= i < |request.ends| => start + request.ends[i]);
      var resolutions: seq<Resolution> := [];
      if request.nullable && remaining.start in ends {
        resolutions := [Resolution(Range(remaining.start, remaining.start), None, None)];
      }
      var k := 0;
      while k < |request.alternatives|
        invariant 0 <= k <= |request.alternatives| && Valid() && Ran(a, S(), true)
        invariant AllResolved(catalog, request, resolutions, nodes)
      {
        ghost var b := S();
        r := AddAlternative(request, k, remaining, ends, depth, resolutions);
        RanThen(a, b, S(), r.Ok?);
        if r.Err? { return; }
        resolutions := r.value;
        k := k + 1;
      }
      r := Ok(resolutions);
    }

    /** The resolutions so far, followed by those of one more alternative. */
    method AddAlternative(request: TypeRequest, k: nat, remaining: Range, ends: seq<nat>, depth: nat, resolutions: seq<Resolution>)
      returns (r: Result<seq<Resolution>>)
      requires Valid() && k < |request.alternatives| && AllResolved(catalog, request, resolutions, nodes)
      modifies this
      ensures Valid() && Ran(old(S()), S(), r.Ok?)
      ensures r.Ok? ==> AllResolved(catalog, request, r.value, nodes) && resolutions <= r.value
      decreases Below(depth), 35
    {
      ghost var a := S();
      var found := ResolveAlternative(request, k, remaining, ends, depth);
      if found.Err? { return found; }
      ResolvedLater(catalog, request, resolutions, a, S());
      r := Ok(resolutions + found.value);
    }

    method ResolveAlternative(request: TypeRequest, k: nat, remaining: Range, ends: seq<nat>, depth: nat) returns (r: Result<seq<Resolution>>)
      requires Valid() && k < |request.alternatives|
      modifies this
      ensures Valid() && Ran(old(S()), S(), r.Ok?)
      ensures r.Ok? ==> AllResolved(catalog, request, r.value, nodes)
      decreases Below(depth), 34
    {
      var className := catalog.typeClass(request.alternatives[k].name);
      if className.None? { return Ok([]); }
      var expected := [ExpectedType(className.value, request.alternatives[k].plural)];
      var parsed, key := ParsePrefixes(Request(remaining, ends, expected, request.allowLiterals, request.allowExpressions, request.time, true), depth);
      if parsed.Err? { return Err(parsed.error); }
      var resolutions := StoreResolutions(request, k, className.value, parsed.value);
      r := Ok(resolutions);
    }

    /** Keeps the first candidate for each end as a resolved node. */
    method StoreResolutions(request: TypeRequest, k: nat, className: string, candidates: seq<Candidate>) returns (resolutions: seq<Resolution>)
      requires Valid() && k < |request.alternatives| && catalog.typeClass(request.alternatives[k].name) == Some(className)
      requires AllFit(catalog.rel, candidates, [ExpectedType(className, request.alternatives[k].plural)])
      modifies this`nodes, this`nextId
      ensures Valid() && Ran(old(S()), S(), true) && AllResolved(catalog, request, resolutions, nodes)
    {
      ghost var a := S();
      resolutions := [];
      var ends: set<nat> := {};
      var i := 0;
      while i < |candidates|
        invariant 0 <= i <= |candidates| && Valid() && Ran(a, S(), true)
        invariant AllResolved(catalog, request, resolutions, nodes)
      {
        var node := candidates[i].node;
        if node.span.end !in ends {
          ends := ends + {node.span.end};
          ghost var b := S();
          resolutions := AddResolution(request, k, className, node, resolutions);
          RanThen(a, b, S(), true);
        }
        i := i + 1;
      }
    }

    method AddResolution(request: TypeRequest, k: nat, className: string, node: Node, resolutions: seq<Resolution>) returns (more: seq<Resolution>)
      requires Valid() && k < |request.alternatives| && catalog.typeClass(request.alternatives[k].name) == Some(className)
      requires catalog.rel.Fits(node, [ExpectedType(className, request.alternatives[k].plural)])
      requires AllResolved(catalog, request, resolutions, nodes)
      modifies this`nodes, this`nextId
      ensures Valid() && Ran(old(S()), S(), true) && AllResolved(catalog, request, more, nodes) && resolutions <= more
    {
      ghost var b := S();
      var id := AddNode(node);
      ResolvedLater(catalog, request, resolutions, b, S());
      more := resolutions + [Resolution(node.span, Some(k), Some(id))];
    }

    method AddNode(node: Node) returns (id: nat)
      requires Valid()
      modifies this`nodes, this`nextId
      ensures Valid() && Ran(old(S()), S(), true) && id in nodes && nodes[id] == node && nextId == id + 1
    {
      id := nextId;
      nextId := nextId + 1;
      nodes := nodes[id := node];
    }

    /** `complete_default_expressions` for one omitted capture: the first alternative with a
        default value of the right type, multiplicity, flags, time and identity. */
    method CompleteDefault(request: TypeRequest) returns (ok: bool, done: bool, ghost answers: seq<Option<DefaultValue>>, ghost value: Option<DefaultValue>)
      requires Valid()
      modifies this
      ensures Valid() && Ran(old(S()), S(), ok) && AllDeclined(catalog, request, answers)
      ensures ok && done ==> value.Some? && DefaultStored(catalog, request, |answers|, value.value, S())
      ensures ok && !done ==> |answers| == |request.alternatives| && SameNodes(old(S()), S())
    {
      ghost var a := S();
      answers, value := [], None;
      ok, done := true, false;
      var k := 0;
      while k < |request.alternatives| && !done
        invariant 0 <= |answers| <= k <= |request.alternatives| && Valid() && Ran(a, S(), true) && AllDeclined(catalog, request, answers)
        invariant ok && if done then value.Some? && DefaultStored(catalog, request, |answers|, value.value, S())
                        else |answers| == k && SameNodes(a, S())
      {
        ghost var b := S();
        ok, done, value, answers := NextDefault(request, k, answers, a);
        RanThen(a, b, S(), ok);
        if !ok { return; }
        k := k + 1;
      }
    }

    /** One more alternative, where those before have no acceptable default. */
    method NextDefault(request: TypeRequest, k: nat, ghost answers: seq<Option<DefaultValue>>, ghost a: State)
      returns (ok: bool, done: bool, ghost value: Option<DefaultValue>, ghost more: seq<Option<DefaultValue>>)
      requires Valid() && k == |answers| < |request.alternatives| && AllDeclined(catalog, request, answers) && SameNodes(a, S())
      modifies this
      ensures Valid() && Ran(old(S()), S(), ok) && AllDeclined(catalog, request, more)
      ensures ok ==> if done then more == answers && value.Some? && DefaultStored(catalog, request, k, value.value, S())
                     else |more| == k + 1 && SameNodes(a, S())
    {
      ok, done, value := DefaultFor(request, k);
      more := if ok && !done then answers + [value] else answers;
    }

    /** The default value for one alternative, applied and stored if it is acceptable. */
    method DefaultFor(request: TypeRequest, k: nat) returns (ok: bool, done: bool, ghost answered: Option<DefaultValue>)
      requires Valid() && k < |request.alternatives|
      modifies this
      ensures Valid() && Ran(old(S()), S(), ok)
      ensures ok && done ==> answered.Some? && DefaultStored(catalog, request, k, answered.value, S())
      ensures ok && !done ==> Declined(catalog, request, k, answered) && SameNodes(old(S()), S())
    {
      answered, done := None, false;
      var expected := DefaultExpected(catalog, request, k);
      if expected.None? { return true, false, None; }
      ghost var a := S();
      var answer;
      ok, answer := AskDefault();
      answered := answer;
      if !ok || answer.None? || !AcceptsDefault(catalog.rel, request, answer.value, expected.value) { return; }
      ghost var b := S();
      ok := StoreDefault(DefaultNode(request.remaining, answer.value));
      RanThen(a, b, S(), ok);
      done := ok;
    }

    method AskDefault() returns (ok: bool, answer: Option<DefaultValue>)
      requires Valid()
      modifies this`script
      ensures Valid() && Ran(old(S()), S(), true) && Ran(old(S()), S(), ok) && SameNodes(old(S()), S())
    {
      ghost var a := S();
      var asked := Ask();
      AskedRan(a, S());
      RanFails(a, S());
      ok := asked.DefaultFound?;
      answer := if ok then asked.value else None;
    }

    method StoreDefault(node: Node) returns (ok: bool)
      requires Valid()
      modifies this
      ensures Valid() && Ran(old(S()), S(), ok)
      ensures ok ==> nextId > 0 && nextId - 1 in nodes && nodes[nextId - 1] == node
    {
      ghost var a := S();
      ok := SelectExpression(node);
      AskedRan(a, S());
      if !ok { return; }
      ghost var b := S();
      var id := AddNode(node);
      RanThen(a, b, S(), true);
    }

    // -------------------------------------------------------------------- captures

    /** The nodes that the typed captures of a match resolved to. */
    function ResolvedChildren(captures: seq<Capture>): seq<Node>
      reads this`nodes
    {
      if captures == [] then []
      else
        var last := captures[|captures| - 1];
        ResolvedChildren(captures[..|captures| - 1])
        + if last.TypeCapture? && last.id.Some? && last.id.value in nodes then [nodes[last.id.value]] else []
    }

    /** Parses the bound captures of a match; false when a required one did not parse. */
    method ResolveCaptures(matched: Match, bindings: seq<Binding>, start: nat, children: seq<Node>, time: int, depth: nat, selects: bool)
      returns (r: Result<bool>)
      requires Valid() && depth <= config.maxDepth
      modifies this
      ensures Valid() && Ran(old(S()), S(), r.Ok?)
      decreases Below(depth), 12
    {
      ghost var a := S();
      var k := 0;
      while k < |matched.captures|
        invariant 0 <= k <= |matched.captures| && Valid() && Ran(a, S(), true)
      {
        var capture := matched.captures[k];
        var binding := BindingOf(bindings, capture.index);
        if capture.RegexCapture? && binding.Some? {
          ghost var b := S();
          var range := Range(start + capture.range.start, start + capture.range.end);
          var parsed := ParseCapture(binding.value, range, children, time, depth, selects);
          RanThen(a, b, S(), parsed.Ok?);
          if parsed.Err? || (!parsed.value && binding.value.required) { return parsed; }
        }
        k := k + 1;
      }
      r := Ok(true);
    }

    /** Parses one capture in the context its binding asks for, and returns to the present one. */
    method ParseCapture(binding: Binding, range: Range, children: seq<Node>, time: int, depth: nat, selects: bool) returns (r: Result<bool>)
      requires Valid() && depth <= config.maxDepth
      modifies this
      ensures Valid() && Ran(old(S()), S(), r.Ok?)
      ensures binding.parser == OtherParser ==> r == Ok(false) && S() == old(S())
      ensures binding.parser != OtherParser ==>
        var inner := catalog.captureContext(old(context), binding, children);
        if inner.Err? then r == Err(inner.error) && S() == old(S())
        else
          && (inner.value.Some? ==> context == old(context))
          && (r.Ok? && binding.parser == ExpressionParser ==>
                CaptureAnswered(S(), MomentIn(old(S()), inner.value), binding, range, time, r.value))
      decreases Below(depth), 11
    {
      if binding.parser == OtherParser { return Ok(false); }
      var inner := catalog.captureContext(context, binding, children);
      if inner.Err? { return Err(inner.error); }
      r := ParseBound(binding, inner.value, range, time, depth, selects);
    }

    /** The moment at which a capture is parsed, in the context that its binding asks for. */
    ghost function MomentIn(s: State, inner: Option<Context>): Moment {
      Moment(|s.log|, if inner.Some? then inner else Some(s.context))
    }

    method ParseBound(binding: Binding, inner: Option<Context>, range: Range, time: int, depth: nat, selects: bool) returns (r: Result<bool>)
      requires Valid() && depth <= config.maxDepth
      modifies this
      ensures Valid() && Ran(old(S()), S(), r.Ok?) && (inner.Some? ==> context == old(context))
      ensures r.Ok? && binding.parser == ExpressionParser ==> CaptureAnswered(S(), MomentIn(old(S()), inner), binding, range, time, r.value)
      decreases Below(depth), 10
    {
      ghost var a := S();
      var previous := context;
      if inner.Some? { context := inner.value; }
      ghost var b := S();
      r := ParseInside(binding, range, time, depth, selects);
      ghost var c := S();
      if inner.Some? { context := previous; }
      ContextChanges(a, b, c, S(), r.Ok?);
    }

    /** Parses one capture in the context at hand. */
    method ParseInside(binding: Binding, range: Range, time: int, depth: nat, selects: bool) returns (r: Result<bool>)
      requires Valid() && depth <= config.maxDepth
      modifies this
      ensures Valid() && Ran(old(S()), S(), r.Ok?)
      ensures r.Ok? && binding.parser == ExpressionParser ==> CaptureAnswered(S(), Now(old(S())), binding, range, time, r.value)
      decreases Below(depth), 9
    {
      if binding.parser == ExpressionParser {
        r := ParseExpressionCapture(binding, range, time, depth, selects);
      } else {
        ghost var initial, ended;
        r, initial, ended := ParseRouted(binding.parser == EffectParser, range, depth + 1);
      }
    }

    /** An expression capture parses exactly if an answer for its range reaches the end of it. */
    ghost predicate CaptureAnswered(s: State, m: Moment, binding: Binding, range: Range, time: int, parsed: bool) {
      var o := catalog.captureOptions(binding, time);
      o.Some? && Reached(s, m, CaptureRequest(range, o.value), range.end, parsed)
    }

    method ParseExpressionCapture(binding: Binding, range: Range, time: int, depth: nat, selects: bool) returns (r: Result<bool>)
      requires Valid() && depth <= config.maxDepth
      modifies this
      ensures Valid() && Ran(old(S()), S(), r.Ok?)
      ensures r.Ok? ==> CaptureAnswered(S(), Now(old(S())), binding, range, time, r.value)
      decreases Below(depth), 8
    {
      ghost var a := S();
      var options := catalog.captureOptions(binding, time);
      if options.None? { return Err(Environment); }
      var parsed := ParseReaching(CaptureRequest(range, options.value), range.end, depth + 1);
      if parsed.Err? { return Err(parsed.error); }
      ghost var b := S();
      r := SelectEnding(parsed.value, range.end, selects);
      AskedRan(b, S());
      RanThen(a, b, S(), true);
      RanFails(a, S());
    }

    method ParseReaching(request: Request, end: nat, depth: nat) returns (r: Result<seq<Candidate>>)
      requires Valid()
      modifies this
      ensures Valid() && Ran(old(S()), S(), r.Ok?)
      ensures r.Ok? ==> Reached(S(), Now(old(S())), request, end, FirstEnding(r.value, end).Some?)
      decreases Below(depth), 34
    {
      ghost var a := S();
      ghost var key;
      r, key := ParsePrefixes(request, depth);
      if r.Ok? { AnswerReaches(a, S(), Now(a), request, r.value, key, end); }
    }

    /** Whether a candidate reaches the end; the first that does is selected, if that is asked. */
    method SelectEnding(candidates: seq<Candidate>, end: nat, selects: bool) returns (r: Result<bool>)
      requires Valid()
      modifies this`script
      ensures Valid() && Asked(old(S()), S()) && (r.Ok? ==> r.value == FirstEnding(candidates, end).Some?)
    {
      var first := FirstEnding(candidates, end);
      if first.None? || !selects { return Ok(first.Some?); }
      var ok := SelectExpression(first.value.node);
      r := if ok then Ok(true) else Err(Environment);
    }

    // --------------------------------------------------------- conditions and effects

    /** What the condition and the effect parser do with the session. */
    method ParseRouted(effect: bool, range: Range, depth: nat)
      returns (r: Result<bool>, ghost initial: Context, ghost ended: seq<Option<Context>>)
      requires Valid()
      modifies this
      ensures Valid() && Ran(old(S()), S(), r.Ok?)
      ensures depth > config.maxDepth ==> r == Err(DepthLimit) && S() == old(S())
      ensures depth <= config.maxDepth && !range.Within(source) ==> r == Err(InvalidInputRange) && S() == old(S())
      ensures r.Ok? ==> Selects(ended, initial, r.value, context)
      decreases Below(depth), 23
    {
      initial, ended := context, [];
      if depth > config.maxDepth { return Err(DepthLimit), initial, ended; }
      if !range.Within(source) { return Err(InvalidInputRange), initial, ended; }
      if effect {
        r, initial, ended := SelectRouted(effect, range, depth);
        return;
      }
      var trimmed := Trimmed(source, range);
      if trimmed.start >= trimmed.end { return Ok(false), initial, ended; }
      if CompletelyParenthesized(source, trimmed) {
        r, initial, ended := ParseRouted(effect, Range(trimmed.start + 1, trimmed.end - 1), depth + 1);
        if r.Ok? && !catalog.mappable(trimmed) {
          RanFails(old(S()), S());
          r := Err(SourceMap);
        }
        return;
      }
      r, initial, ended := SelectRouted(effect, trimmed, depth);
    }

    /** Matches, then selects; when nothing is selected an effect may match again, for its
        failures only. */
    method SelectRouted(effect: bool, range: Range, depth: nat)
      returns (r: Result<bool>, ghost initial: Context, ghost ended: seq<Option<Context>>)
      requires Valid() && depth <= config.maxDepth
      modifies this
      ensures Valid() && Ran(old(S()), S(), r.Ok?)
      ensures r.Ok? ==> Selects(ended, initial, r.value, context)
      decreases Below(depth), 22
    {
      ghost var a := S();
      var matches, retry := RunMatcher(range, depth);
      initial, ended := context, [];
      if matches.Err? { return Err(matches.error), initial, ended; }
      ghost var b := S();
      r, ended := SelectFrom(effect, matches.value, range, depth);
      RanThen(a, b, S(), r.Ok?);
      if r == Ok(false) && effect && retry {
        ghost var c := S();
        var ok := RecoverFailures(range, depth);
        RanThen(a, c, S(), ok);
        if !ok { r := Err(Environment); }
      }
    }

    /** The selection loop: the first accepted match keeps its effects, everything else is
        undone; the context of the selection stays, or that of the beginning. Effects are all
        tried, conditions up to the first that is accepted. */
    method SelectFrom(effect: bool, matches: seq<Match>, range: Range, depth: nat) returns (r: Result<bool>, ghost ended: seq<Option<Context>>)
      requires Valid() && depth <= config.maxDepth
      modifies this
      ensures Valid() && Ran(old(S()), S(), r.Ok?)
      ensures r.Ok? ==> Selects(ended, old(context), r.value, context)
      ensures r.Ok? && (effect || !r.value) ==> |ended| == |matches|
      ensures r.Ok? && !effect && r.value ==> 0 < |ended| <= |matches| && FirstAccepted(ended[..|ended| - 1]).None?
      decreases Below(depth), 21
    {
      ghost var a := S();
      var initial := context;
      var selected;
      r, selected, ended := TryCandidates(effect, matches, range, depth, initial);
      ghost var b := S();
      if r.Ok? { context := if selected.Some? then selected.value else initial; }
      ContextChanges(a, a, b, S(), r.Ok?);
    }

    method TryCandidates(effect: bool, matches: seq<Match>, range: Range, depth: nat, initial: Context)
      returns (r: Result<bool>, selected: Option<Context>, ghost ended: seq<Option<Context>>)
      requires Valid() && depth <= config.maxDepth
      modifies this
      ensures Valid() && Ran(old(S()), S(), r.Ok?)
      ensures r.Ok? ==> Selecting(effect, ended, selected) && r.value == selected.Some?
      ensures r.Ok? ==> |ended| <= |matches| && (effect || !r.value ==> |ended| == |matches|)
      decreases Below(depth), 20
    {
      ghost var a := S();
      selected, ended := None, [];
      var k := 0;
      while k < |matches| && (effect || selected.None?)
        invariant 0 <= k == |ended| <= |matches| && Valid() && Ran(a, S(), true) && Selecting(effect, ended, selected)
      {
        ghost var b := S();
        r, selected, ended := NextCandidate(effect, matches[k], range, depth, initial, selected, ended);
        RanThen(a, b, S(), r.Ok?);
        if r.Err? { return; }
        k := k + 1;
      }
      r := Ok(selected.Some?);
    }

    /** One more candidate, which starts in the initial context; one that the event restricts
        is skipped. Only the first that is accepted is kept. */
    method NextCandidate(effect: bool, matched: Match, range: Range, depth: nat, initial: Context, selected: Option<Context>,
                         ghost ended: seq<Option<Context>>)
      returns (attempt: Result<bool>, kept: Option<Context>, ghost more: seq<Option<Context>>)
      requires Valid() && depth <= config.maxDepth && Selecting(effect, ended, selected) && (effect || selected.None?)
      modifies this
      ensures Valid() && Ran(old(S()), S(), attempt.Ok?)
      ensures attempt.Ok? ==> |more| == |ended| + 1 && ended <= more && Selecting(effect, more, kept)
      ensures attempt.Ok? ==> (more[|ended|].Some? <==> attempt.value) && (selected.Some? ==> kept == selected)
      ensures attempt.Ok? ==> context == if selected.None? && kept.Some? then kept.value else initial
      decreases Below(depth), 19
    {
      ghost var end;
      attempt, kept, end := StartCandidate(effect, matched, range, depth, initial, selected.None?);
      SelectingNext(effect, ended, selected, end);
      more := ended + [end];
      if selected.Some? { kept := selected; }
    }

    method StartCandidate(effect: bool, matched: Match, range: Range, depth: nat, initial: Context, wanted: bool)
      returns (attempt: Result<bool>, kept: Option<Context>, ghost ended: Option<Context>)
      requires Valid() && depth <= config.maxDepth
      modifies this
      ensures Valid() && Ran(old(S()), S(), attempt.Ok?)
      ensures attempt.Ok? ==> (ended.Some? <==> attempt.value) && kept == (if wanted then ended else None)
      ensures attempt.Ok? ==> context == (if kept.Some? then kept.value else initial)
      decreases Below(depth), 18
    {
      ghost var a := S();
      context := initial;
      ghost var b := S();
      if !catalog.mappable(range) { return Err(SourceMap), None, None; }
      if catalog.restricted(matched.registrationId, context) { return Ok(false), None, None; }
      attempt, kept, ended := RoutedCandidate(effect, matched, range.start, depth, wanted);
      ContextChanges(a, b, S(), S(), attempt.Ok?);
    }

    /** One candidate inside its own semantic scope, kept when it is accepted and `wanted`;
        otherwise the context is what it was. */
    method RoutedCandidate(effect: bool, matched: Match, start: nat, depth: nat, wanted: bool)
      returns (attempt: Result<bool>, kept: Option<Context>, ghost ended: Option<Context>)
      requires Valid() && depth <= config.maxDepth
      modifies this
      ensures Valid() && Ran(old(S()), S(), attempt.Ok?)
      ensures attempt.Ok? ==> (ended.Some? <==> attempt.value) && kept == (if wanted then ended else None)
      ensures attempt.Ok? ==> context == (if kept.Some? then kept.value else old(context))
      decreases Below(depth), 17
    {
      ghost var a := S();
      kept, ended := None, None;
      var ok := BeginSemantic();
      if !ok {
        BeganRan(a, Semantic);
        return Err(Environment), None, None;
      }
      ghost var b := S();
      attempt := TryRouted(effect, matched, start, depth);
      ghost var c := S();
      var keep := attempt == Ok(true) && wanted;
      if keep { kept := Some(context); }
      ended := if attempt == Ok(true) then Some(context) else None;
      ok := FinishSemantic(keep);
      SemanticScope(a, b, c, attempt.Ok?, keep);
      if attempt.Ok? && !ok { attempt := Err(Environment); }
    }

    /** `effect_candidate` and the body of the condition loop. */
    method TryRouted(effect: bool, matched: Match, start: nat, depth: nat) returns (r: Result<bool>)
      requires Valid() && depth <= config.maxDepth
      modifies this
      ensures Valid() && Ran(old(S()), S(), r.Ok?)
      decreases Below(depth), 16
    {
      ghost var a := S();
      var ok := Restore(matched);
      AskedRan(a, S());
      if !ok { return Err(Environment); }
      ghost var b := S();
      if effect {
        r := BoundCaptures(matched, start, ResolvedChildren(matched.captures), 0, depth, false);
        RanThen(a, b, S(), r.Ok?);
        if r.Err? || !r.value { return; }
      }
      ghost var c := S();
      r := DecideRouted();
      RanThen(a, c, S(), r.Ok?);
    }

    /** The environment's word on a condition or an effect; an acceptance may name the
        context that follows it. */
    method DecideRouted() returns (r: Result<bool>)
      requires Valid()
      modifies this
      ensures Valid() && Ran(old(S()), S(), r.Ok?)
    {
      ghost var a := S();
      var answer := Ask();
      AskedRan(a, S());
      if !answer.RoutedDecided? {
        RanFails(a, S());
        return Err(Environment);
      }
      ghost var b := S();
      if answer.routed.AcceptIn? { context := answer.routed.context; }
      r := Ok(!answer.routed.RejectCandidate?);
    }

    method Restore(matched: Match) returns (ok: bool)
      requires Valid()
      modifies this`script
      ensures Valid() && Asked(old(S()), S())
    {
      ok := true;
      if matched.restore { ok := CallEnvironment(); }
    }

    /** Asks for the capture bindings of a match and parses what they bind. */
    method BoundCaptures(matched: Match, start: nat, children: seq<Node>, time: int, depth: nat, selects: bool) returns (r: Result<bool>)
      requires Valid() && depth <= config.maxDepth
      modifies this
      ensures Valid() && Ran(old(S()), S(), r.Ok?)
      decreases Below(depth), 13
    {
      ghost var a := S();
      var answer := Ask();
      AskedRan(a, S());
      if !answer.Bindings? { return Err(Environment); }
      ghost var b := S();
      r := ResolveCaptures(matched, answer.bindings, start, children, time, depth, selects);
      RanThen(a, b, S(), r.Ok?);
    }

    /** `recover_candidate_failures_at_depth`: another run of the matcher, for its failures
        only; the nodes it resolves and whatever else it did are dropped. */
    method RecoverFailures(range: Range, depth: nat) returns (ok: bool)
      requires Valid() && depth <= config.maxDepth
      modifies this
      ensures Valid() && Ran(old(S()), S(), ok)
      ensures ok ==> nodes == old(nodes) && nextId == old(nextId) && context == old(context)
      decreases Below(depth), 3
    {
      ghost var a := S();
      ok := BeginSemantic();
      if !ok {
        BeganRan(a, Semantic);
        return;
      }
      ghost var b := S();
      var first := nextId;
      var matched, retry := RunMatcher(range, depth);
      ForgottenRan(b, S(), matched.Ok?);
      DropNodes(first);
      ghost var c := S();
      ok := FinishSemantic(false);
      SemanticScope(a, b, c, matched.Ok?, false);
      FinishedNodes(c, false);
      if matched.Err? { ok := false; }
    }

    // ------------------------------------------------------- registered expressions

    /** The registered expression that spans from the range start to one of its ends: the
        first match that holds up, with the work it deferred. */
    method RegisteredAt(request: Request, end: nat, depth: nat) returns (r: Result<Option<Candidate>>)
      requires Valid() && depth <= config.maxDepth
      modifies this
      ensures Valid() && Ran(old(S()), S(), r.Ok?)
      ensures r.Ok? && r.value.Some? ==> catalog.rel.Fits(r.value.value.node, request.expected)
      decreases Below(depth), 17
    {
      ghost var a := S();
      var ok := BeginExpression();
      if !ok {
        BeganRan(a, Expression);
        return Err(Environment);
      }
      ghost var b := S();
      r := MatchRegistered(request, Range(request.range.start, end), depth);
      var effects := EndExpression(r.Ok?, a, b);
      if r.Err? { return; }
      if effects.None? { return Err(Environment); }
      if r.value.Some? {
        EffectsFit(catalog.rel, r.value.value, effects.value, request.expected);
        r := Ok(Some(WithEffects(r.value.value, effects.value)));
      }
    }

    method MatchRegistered(request: Request, range: Range, depth: nat) returns (r: Result<Option<Candidate>>)
      requires Valid() && depth <= config.maxDepth
      modifies this
      ensures Valid() && Ran(old(S()), S(), r.Ok?)
      ensures r.Ok? && r.value.Some? ==> catalog.rel.Fits(r.value.value.node, request.expected)
      decreases Below(depth), 16
    {
      ghost var a := S();
      var matches, retry := RunMatcher(range, depth);
      if matches.Err? { return Err(matches.error); }
      r := Ok(None);
      var k := 0;
      while k < |matches.value|
        invariant 0 <= k <= |matches.value| && Valid() && Ran(a, S(), true) && r == Ok(None)
      {
        ghost var b := S();
        r := AttemptMatch(matches.value[k], request, depth);
        RanThen(a, b, S(), r.Ok?);
        if r.Err? || r.value.Some? { return; }
        k := k + 1;
      }
    }

    /** One match inside its own semantic scope. */
    method AttemptMatch(matched: Match, request: Request, depth: nat) returns (r: Result<Option<Candidate>>)
      requires Valid() && depth <= config.maxDepth
      modifies this
      ensures Valid() && Ran(old(S()), S(), r.Ok?)
      ensures r.Ok? && r.value.Some? ==> catalog.rel.Fits(r.value.value.node, request.expected) && NodeOf(matched, request, r.value.value.node)
      ensures r == Ok(None) ==> context == old(context)
      decreases Below(depth), 15
    {
      ghost var a := S();
      var ok := BeginSemantic();
      if !ok {
        BeganRan(a, Semantic);
        return Err(Environment);
      }
      ghost var b := S();
      r := ResolveMatch(matched, request, depth);
      ghost var c := S();
      var accepted := r.Ok? && r.value.Some?;
      ok := FinishSemantic(accepted);
      SemanticScope(a, b, c, r.Ok?, accepted);
      if !ok { r := Err(Environment); }
    }

    /** `registered_node`. */
    method ResolveMatch(matched: Match, request: Request, depth: nat) returns (r: Result<Option<Candidate>>)
      requires Valid() && depth <= config.maxDepth
      modifies this
      ensures Valid() && Ran(old(S()), S(), r.Ok?)
      ensures r.Ok? && r.value.Some? ==> catalog.rel.Fits(r.value.value.node, request.expected) && NodeOf(matched, request, r.value.value.node)
      decreases Below(depth), 14
    {
      ghost var a := S();
      var ok := Restore(matched);
      AskedRan(a, S());
      if !ok { return Err(Environment); }
      var start := request.range.start;
      if !catalog.mappable(MatchSpan(matched, request)) { return Err(SourceMap); }
      if catalog.restricted(matched.registrationId, context) { return Ok(None); }
      ghost var b := S();
      var children := ResolvedChildren(matched.captures);
      var captured := BoundCaptures(matched, start, children, request.time, depth, true);
      RanThen(a, b, S(), captured.Ok?);
      if captured.Err? { return Err(captured.error); }
      if !captured.value { return Ok(None); }
      ghost var c := S();
      var decided := DecideType(matched.registrationId, request.expected);
      RanThen(a, c, S(), true);
      if decided.Err? { return Err(decided.error); }
      if decided.value.None? { return Ok(None); }
      MatchFits(catalog.rel, matched, request, decided.value.value, children);
      r := Ok(Some(Candidate(MatchNode(matched, request, decided.value.value, children), None)));
    }

    /** The declared type of a registration or the one the environment resolves, if it is
        what is expected. */
    method DecideType(id: string, expected: seq<ExpectedType>) returns (r: Result<Option<Metadata>>)
      requires Valid()
      modifies this`script
      ensures Valid() && Ran(old(S()), S(), true)
      ensures r.Ok? && r.value.Some? ==>
        catalog.rel.ExpressionTypesMatch(r.value.value.returnType, r.value.value.possibleReturnTypes, r.value.value.multiplicity, expected)
      ensures if !Asks(id) then r == Ok(Matching(catalog.metadata(id), expected)) && S() == old(S())
              else r.Ok? ==> old(script) != [] && old(script)[0].Decided? && r.value == DecidedBy(id, old(script)[0].decision, expected)
    {
      ghost var a := S();
      var m := catalog.metadata(id);
      if !Asks(id) { return Ok(Matching(m, expected)); }
      var answer := Ask();
      AskedRan(a, S());
      if !answer.Decided? { return Err(Environment); }
      if answer.decision.Resolved? { m := ResolvedType(m, answer.decision); }
      ghost var b := S();
      var ok := CallEnvironment();
      AskedRan(b, S());
      RanThen(a, b, S(), true);
      if !ok { return Err(Environment); }
      r := Ok(if answer.decision.Reject? then None else Matching(m, expected));
    }

    /** The environment is asked about the type of a registration when it is not static or may
        be resolved. */
    predicate Asks(id: string) { catalog.metadata(id).dynamic || catalog.resolvable(id) }

    /** What is resolved takes the place of what is declared. */
    function ResolvedType(m: Metadata, d: Decision): Metadata
      requires d.Resolved?
    {
      m.(returnType := d.returnType, possibleReturnTypes := d.possibleReturnTypes, multiplicity := d.multiplicity)
    }

    /** What a decision of the environment comes to: nothing, the declared type or the one it
        resolves, if that is what is expected. */
    function DecidedBy(id: string, d: Decision, expected: seq<ExpectedType>): Option<Metadata> {
      if d.Reject? then None
      else Matching(if d.Resolved? then ResolvedType(catalog.metadata(id), d) else catalog.metadata(id), expected)
    }

    function Matching(m: Metadata, expected: seq<ExpectedType>): (r: Option<Metadata>)
      ensures r.Some? <==> catalog.rel.ExpressionTypesMatch(m.returnType, m.possibleReturnTypes, m.multiplicity, expected)
      ensures r.Some? ==> r.value == m
    {
      if catalog.rel.ExpressionTypesMatch(m.returnType, m.possibleReturnTypes, m.multiplicity, expected) then Some(m) else None
    }

    // ------------------------------------------------------------------- arithmetic

    /** `parse_arithmetic`: the first root and operation whose operands parse, for the first
        end that has any. */
    method ParseArithmetic(request: Request, depth: nat) returns (r: Result<Option<Candidate>>)
      requires Valid() && depth <= config.maxDepth && ValidRequest(source, request.range, request.ends)
      modifies this
      ensures Valid() && Ran(old(S()), S(), r.Ok?)
      ensures r.Ok? && r.value.Some? ==> catalog.rel.Fits(r.value.value.node, request.expected)
      ensures if catalog.operators == [] then r == Ok(None) && S() == old(S())
              else r.Ok? ==> ArithmeticFound(S(), Now(old(S())), catalog, source, request, r.value)
      decreases Below(depth), 22
    {
      if catalog.operators == [] { return Ok(None); }
      r := FirstArithmetic(request, depth, Now(S()));
    }

    method FirstArithmetic(request: Request, depth: nat, ghost since: Moment) returns (r: Result<Option<Candidate>>)
      requires Valid() && depth <= config.maxDepth && ValidRequest(source, request.range, request.ends)
      requires Reaching(since, S()) && since.context.Some?
      modifies this
      ensures Valid() && Ran(old(S()), S(), r.Ok?)
      ensures r.Ok? && r.value.Some? ==> catalog.rel.Fits(r.value.value.node, request.expected)
      ensures r.Ok? ==> ArithmeticFound(S(), since, catalog, source, request, r.value)
      ensures r == Ok(None) ==> Reaching(since, S())
      decreases Below(depth), 21
    {
      ghost var a := S();
      r := Ok(None);
      var k := 0;
      while k < |request.ends|
        invariant 0 <= k <= |request.ends| && Valid() && Ran(a, S(), true) && r == Ok(None) && Reaching(since, S())
        invariant NoArithmetic(S(), since, catalog, source, request, k)
      {
        ghost var b := S();
        r := ArithmeticFrom(request, k, depth, since);
        RanThen(a, b, S(), r.Ok?);
        if r.Err? || r.value.Some? { return; }
        k := k + 1;
      }
    }

    /** The arithmetic node for one end, where those before have none. */
    method ArithmeticFrom(request: Request, k: nat, depth: nat, ghost since: Moment) returns (r: Result<Option<Candidate>>)
      requires Valid() && depth <= config.maxDepth && ValidRequest(source, request.range, request.ends)
      requires Reaching(since, S()) && since.context.Some?
      requires k < |request.ends| && NoArithmetic(S(), since, catalog, source, request, k)
      modifies this
      ensures Valid() && Ran(old(S()), S(), r.Ok?)
      ensures r.Ok? && r.value.Some? ==>
        catalog.rel.Fits(r.value.value.node, request.expected) && ArithmeticFound(S(), since, catalog, source, request, r.value)
      ensures r == Ok(None) ==> NoArithmetic(S(), since, catalog, source, request, k + 1)
      ensures r == Ok(None) ==> Reaching(since, S())
      decreases Below(depth), 20
    {
      ghost var a := S();
      r := ArithmeticAt(Range(request.range.start, request.ends[k]), request.expected, depth, since);
      if r.Ok? { ArithmeticNext(a, S(), since, catalog, source, request, k, r.value); }
    }

    method ArithmeticAt(range: Range, expected: seq<ExpectedType>, depth: nat, ghost since: Moment) returns (r: Result<Option<Candidate>>)
      requires Valid() && depth <= config.maxDepth && range.Within(source)
      requires Reaching(since, S()) && since.context.Some?
      modifies this
      ensures Valid() && Ran(old(S()), S(), r.Ok?)
      ensures r.Ok? && r.value.Some? ==> catalog.rel.Fits(r.value.value.node, expected)
      ensures r.Ok? ==> ArithmeticOf(S(), since, catalog, source, range, expected, r.value)
      ensures r == Ok(None) ==> Reaching(since, S())
      decreases Below(depth), 19
    {
      ghost var a := S();
      var roots := RootCandidates(catalog.operators, source, range);
      ghost var found := Occurrences(catalog.operators, source, range);
      assert RootsOf(catalog, source, range, roots);
      r := Ok(None);
      var k := 0;
      while k < |roots|
        invariant 0 <= k <= |roots| && Valid() && Ran(a, S(), true) && r == Ok(None) && Reaching(since, S())
        invariant RootsMissing(S(), since, catalog, source, range, roots, expected, k)
      {
        RootInRange(found, roots, k);
        ghost var b := S();
        r := TryRoot(range, roots[k], expected, depth, since);
        RanThen(a, b, S(), r.Ok?);
        if r.Err? { return; }
        NextRoot(b, S(), since, catalog, source, range, roots, expected, k, r.value);
        if r.value.Some? { return; }
        k := k + 1;
      }
      assert RootsTried(S(), since, catalog, source, range, roots, expected, None);
    }

    /** The operations of one operator, in registration order. */
    method TryRoot(range: Range, root: Occurrence, expected: seq<ExpectedType>, depth: nat, ghost since: Moment) returns (r: Result<Option<Candidate>>)
      requires Valid() && depth <= config.maxDepth && RootIn(catalog, source, range, root)
      requires Reaching(since, S()) && since.context.Some?
      modifies this
      ensures Valid() && Ran(old(S()), S(), r.Ok?)
      ensures r.Ok? && r.value.Some? ==>
        catalog.rel.Fits(r.value.value.node, expected) && RootBuilt(S(), since, catalog, source, range, root, expected, r.value.value.node)
      ensures r == Ok(None) ==> RootMissing(S(), since, catalog, source, range, root, expected)
      ensures r == Ok(None) ==> Reaching(since, S())
      decreases Below(depth), 18
    {
      ghost var a := S();
      var operations := OperationsOf(catalog, root);
      r := Ok(None);
      var k := 0;
      while k < |operations|
        invariant 0 <= k <= |operations| && Valid() && Ran(a, S(), true) && r == Ok(None) && Reaching(since, S())
        invariant OperationsMissing(S(), since, catalog, source, range, root, expected, k)
      {
        ghost var b := S();
        r := TryNext(range, root, k, expected, depth, since);
        RanThen(a, b, S(), r.Ok?);
        if r.Err? || r.value.Some? { return; }
        k := k + 1;
      }
    }

    /** One operation, where those before could not be built; one that returns something else
        is passed over. */
    method TryNext(range: Range, root: Occurrence, k: nat, expected: seq<ExpectedType>, depth: nat, ghost since: Moment) returns (r: Result<Option<Candidate>>)
      requires Valid() && depth <= config.maxDepth && RootIn(catalog, source, range, root) && k < |OperationsOf(catalog, root)|
      requires Reaching(since, S()) && since.context.Some?
      requires OperationsMissing(S(), since, catalog, source, range, root, expected, k)
      modifies this
      ensures Valid() && Ran(old(S()), S(), r.Ok?)
      ensures r.Ok? && r.value.Some? ==>
        catalog.rel.Fits(r.value.value.node, expected) && RootBuilt(S(), since, catalog, source, range, root, expected, r.value.value.node)
      ensures r == Ok(None) ==> OperationsMissing(S(), since, catalog, source, range, root, expected, k + 1)
      ensures r == Ok(None) ==> Reaching(since, S())
      decreases Below(depth), 17
    {
      var operation := OperationsOf(catalog, root)[k];
      if !catalog.rel.ReturnTypeMatches(Some(operation.returnType), expected) { return Ok(None); }
      ghost var a := S();
      r := TryOperation(range, root, operation, expected, depth, since);
      if r.Ok? { OperationTried(a, S(), since, catalog, source, range, root, expected, k, r.value); }
    }


    method TryOperation(range: Range, root: Occurrence, operation: Operation, expected: seq<ExpectedType>, depth: nat, ghost since: Moment)
      returns (r: Result<Option<Candidate>>)
      requires Valid() && depth <= config.maxDepth && range.Within(source) && root.operator < |catalog.operators|
      requires Reaching(since, S()) && since.context.Some?
      requires range.start <= root.start < root.end <= range.end && catalog.rel.ReturnTypeMatches(Some(operation.returnType), expected)
      modifies this
      ensures Valid() && Ran(old(S()), S(), r.Ok?)
      ensures r.Ok? && r.value.Some? ==> catalog.rel.Fits(r.value.value.node, expected)
      ensures r.Ok? && r.value.Some? ==>
        OperationBuilt(S(), since, source, range, root, operation, catalog.operators[root.operator].sign, r.value.value.node)
      ensures r == Ok(None) ==> context == old(context) && OperandMissing(S(), since, source, range, root, operation)
      ensures !BeganBoth(old(S())).0 ==> r == Err(Environment) && S() == BeganBoth(old(S())).1
      decreases Below(depth), 16
    {
      var parsed, effects := AttemptOperation(range, root, operation, depth, since);
      if parsed.Err? { return Err(parsed.error); }
      if parsed.value.None? { return Ok(None); }
      var sign := catalog.operators[root.operator].sign;
      var (left, right) := parsed.value.value;
      ArithmeticFits(catalog.rel, range, sign, operation.returnType, left, right, expected);
      var candidate := Candidate(ArithmeticNode(range, sign, operation.returnType, left, right), None);
      EffectsFit(catalog.rel, candidate, effects, expected);
      r := Ok(Some(WithEffects(candidate, effects)));
    }

    /** Both operands, parsed inside the scopes of one attempt, with the work it deferred. */
    method AttemptOperation(range: Range, root: Occurrence, operation: Operation, depth: nat, ghost since: Moment)
      returns (r: Result<Option<(Node, Node)>>, effects: Option<nat>)
      requires Valid() && depth <= config.maxDepth && range.Within(source)
      requires Reaching(since, S()) && since.context.Some?
      requires range.start <= root.start < root.end <= range.end
      modifies this
      ensures Valid() && Ran(old(S()), S(), r.Ok?)
      ensures r.Ok? && r.value.Some? ==> OperandsAnswered(S(), since, source, range, root, operation, r.value.value.0, r.value.value.1)
      ensures r == Ok(None) ==> context == old(context) && OperandMissing(S(), since, source, range, root, operation)
      ensures !BeganBoth(old(S())).0 ==> r == Err(Environment) && S() == BeganBoth(old(S())).1
      decreases Below(depth), 15
    {
      ghost var a := S();
      effects := None;
      var begun := BeginAttempt();
      if !begun { return Err(Environment), None; }
      ghost var b := S();
      r := ParseOperation(range, root, operation, depth, since);
      ghost var c := S();
      var accepted := r.Ok? && r.value.Some?;
      var closed := CloseAttempt(accepted);
      Attempted(a, b, c, r.Ok?, accepted);
      ClosedBothMemo(c, accepted);
      AnswersStay(c, S());
      if r.Err? { return; }
      if closed.None? { return Err(Environment), None; }
      effects := closed.value;
    }

    /** The semantic and the expression scope of one attempt. */
    method BeginAttempt() returns (ok: bool)
      requires Valid()
      modifies this
      ensures Valid() && (ok, S()) == BeganBoth(old(S())) && (!ok ==> Ran(old(S()), S(), false))
    {
      ghost var a := S();
      ok := BeginSemantic();
      if ok { ok := BeginInside(); }
      if !ok { AttemptNotBegun(a); }
    }

    /** Both operands, each parsed as the operation wants it; the left one is selected before
        the right one is parsed. */
    method ParseOperation(range: Range, root: Occurrence, operation: Operation, depth: nat, ghost since: Moment) returns (r: Result<Option<(Node, Node)>>)
      requires Valid() && depth <= config.maxDepth && range.Within(source)
      requires Reaching(since, S()) && since.context.Some?
      requires range.start <= root.start < root.end <= range.end
      modifies this
      ensures Valid() && Ran(old(S()), S(), r.Ok?)
      ensures r.Ok? && r.value.Some? ==> OperandsAnswered(S(), since, source, range, root, operation, r.value.value.0, r.value.value.1)
      ensures r == Ok(None) ==> OperandMissing(S(), since, source, range, root, operation)
      decreases Below(depth), 14
    {
      ghost var a := S();
      var left := Trimmed(source, Range(range.start, root.start));
      var right := Trimmed(source, Range(root.end, range.end));
      if left.start >= left.end || right.start >= right.end { return Ok(None); }
      var first := ParseOperand(left, operation.left, depth + 1, since);
      if first.Err? { return Err(first.error); }
      if first.value.None? { return Ok(None); }
      ghost var b := S();
      var second := ParseOperand(right, operation.right, depth + 1, Anywhere(since));
      RanThen(a, b, S(), second.Ok?);
      AnswersStay(b, S());
      if second.Err? { return Err(second.error); }
      if second.value.None? { return Ok(None); }
      if !catalog.mappable(range) {
        RanFails(a, S());
        return Err(SourceMap);
      }
      r := Ok(Some((first.value.value, second.value.value)));
    }

    /** The first candidate for an operand, selected. */
    method ParseOperand(range: Range, className: string, depth: nat, ghost since: Moment) returns (r: Result<Option<Node>>)
      requires Valid()
      requires Reaching(since, S())
      modifies this
      ensures Valid() && Ran(old(S()), S(), r.Ok?)
      ensures r.Ok? && r.value.Some? ==> FirstAnswer(S(), since, OperandRequest(range, className), r.value.value)
      ensures r == Ok(None) ==> NoAnswer(S(), since, OperandRequest(range, className))
      decreases Below(depth), 35
    {
      r := ParseFirst(OperandRequest(range, className), depth, since);
    }

    /** The first candidate of a request, with its deferred work applied. */
    method ParseFirst(request: Request, depth: nat, ghost since: Moment) returns (r: Result<Option<Node>>)
      requires Valid()
      requires Reaching(since, S())
      modifies this
      ensures Valid() && Ran(old(S()), S(), r.Ok?)
      ensures r.Ok? && r.value.Some? ==> catalog.rel.Fits(r.value.value, request.expected) && FirstAnswer(S(), since, request, r.value.value)
      ensures r == Ok(None) ==> NoAnswer(S(), since, request)
      decreases Below(depth), 34
    {
      ghost var a := S();
      var parsed, key := ParsePrefixes(request, depth);
      if parsed.Err? { return Err(parsed.error); }
      ghost var b := S();
      AnswerIsFirst(a, b, since, request, parsed.value, key);
      if parsed.value == [] { return Ok(None); }
      var ok := SelectExpression(parsed.value[0].node);
      AskedRan(b, S());
      AnswersStay(b, S());
      RanThen(a, b, S(), true);
      RanFails(a, S());
      r := if ok then Ok(Some(parsed.value[0].node)) else Err(Environment);
    }

    // -------------------------------------------------------------------- functions

    /** `parse_function_call`: the one definition with an exact signature that binds, or else
        the one with a list signature; none when several do. */
    method ParseFunction(request: Request, depth: nat) returns (r: Result<seq<Candidate>>, ghost tries: Tries)
      requires Valid() && depth <= config.maxDepth && ValidRequest(source, request.range, request.ends)
      modifies this
      ensures Valid() && Ran(old(S()), S(), r.Ok?)
      ensures r.Ok? ==> AllFit(catalog.rel, r.value, request.expected)
      ensures var call := CallAt(request);
              if call.None? || !FC.DistinctNames(call.value.arguments) then r == Ok([]) && S() == old(S())
              else r.Ok? ==> old(script) != [] && old(script)[0].Definitions?
                             && CallSelected(catalog, call.value, old(script)[0].definitions, request.expected, tries, r.value)
      decreases Below(depth), 24
    {
      var call := CS.ParseCallSyntax(catalog.letters, catalog.policy, source, request.range, request.ends);
      tries := Tries([], []);
      if call.None? || !FC.DistinctNames(call.value.arguments) { return Ok([]), tries; }
      ghost var a := S();
      var answer := Ask();
      AskedRan(a, S());
      if !answer.Definitions? { return Err(Environment), tries; }
      ghost var b := S();
      r, tries := SelectFunction(call.value, answer.definitions, request.expected, depth);
      RanThen(a, b, S(), r.Ok?);
    }

    /** The function call at the start of a request. */
    ghost function CallAt(request: Request): Option<CS.Call>
      requires request.range.Within(source)
    {
      CS.CallOf(CS.ParserOf(catalog.letters, catalog.policy, source), catalog.letters, source, request.range, request.ends)
    }

    method SelectFunction(call: CS.Call, definitions: seq<FC.Definition>, expected: seq<ExpectedType>, depth: nat)
      returns (r: Result<seq<Candidate>>, ghost tries: Tries)
      requires Valid() && depth <= config.maxDepth && FC.DistinctNames(call.arguments)
      modifies this
      ensures Valid() && Ran(old(S()), S(), r.Ok?)
      ensures r.Ok? ==> AllFit(catalog.rel, r.value, expected) && CallSelected(catalog, call, definitions, expected, tries, r.value)
      decreases Below(depth), 23
    {
      tries := Tries([], []);
      ghost var a := S();
      var exact, outcomes := SelectUnique(call, UsableOf(catalog.rel, definitions, expected, false), expected, depth);
      if exact.Err? { return Err(exact.error), tries; }
      tries := tries.(exact := outcomes);
      if !exact.value.NoCall? { return Ok(Calls(exact.value)), tries; }
      ghost var b, more := S(), [];
      r, more := SelectList(call, definitions, expected, depth);
      RanThen(a, b, S(), r.Ok?);
      tries := tries.(list := more);
    }

    method SelectList(call: CS.Call, definitions: seq<FC.Definition>, expected: seq<ExpectedType>, depth: nat)
      returns (r: Result<seq<Candidate>>, ghost outcomes: seq<Option<Candidate>>)
      requires Valid() && depth <= config.maxDepth && FC.DistinctNames(call.arguments)
      modifies this
      ensures Valid() && Ran(old(S()), S(), r.Ok?)
      ensures r.Ok? ==> AllFit(catalog.rel, r.value, expected) && r.value == OnlyOne(Hits(outcomes))
      ensures r.Ok? ==> Tried(catalog, call, UsableOf(catalog.rel, definitions, expected, true), expected, outcomes)
      decreases Below(depth), 22
    {
      var list;
      list, outcomes := SelectUnique(call, UsableOf(catalog.rel, definitions, expected, true), expected, depth);
      r := if list.Ok? then Ok(Calls(list.value)) else Err(list.error);
    }

    function Calls(selection: Selection): seq<Candidate> { if selection.OneCall? then [selection.candidate] else [] }

    method SelectUnique(call: CS.Call, definitions: seq<FC.Definition>, expected: seq<ExpectedType>, depth: nat)
      returns (r: Result<Selection>, ghost outcomes: seq<Option<Candidate>>)
      requires Valid() && depth <= config.maxDepth && FC.DistinctNames(call.arguments)
      requires forall i :: 0 <= i < |definitions| ==> Usable(catalog.rel, definitions[i], expected)
      modifies this
      ensures Valid() && Ran(old(S()), S(), r.Ok?)
      ensures r.Ok? ==> Tried(catalog, call, definitions, expected, outcomes) && r.value == Unique(Hits(outcomes))
      ensures r.Ok? ==> AllFit(catalog.rel, Hits(outcomes), expected)
      decreases Below(depth), 21
    {
      ghost var a := S();
      var selected: Selection := NoCall;
      outcomes := [];
      var k := 0;
      while k < |definitions| && !selected.AmbiguousCall?
        invariant 0 <= k == |outcomes| <= |definitions| && Valid() && Ran(a, S(), true)
        invariant selected == Unique(Hits(outcomes)) && AllCalls(catalog, call, definitions, expected, outcomes)
      {
        ghost var b := S();
        r, outcomes := SelectNext(call, definitions, k, expected, depth, selected, outcomes);
        RanThen(a, b, S(), r.Ok?);
        if r.Err? { return; }
        selected := r.value;
        k := k + 1;
      }
      HitsFit(catalog, call, definitions, expected, outcomes);
      r := Ok(selected);
    }

    /** One more definition: a second one that binds makes the call ambiguous. */
    method SelectNext(call: CS.Call, definitions: seq<FC.Definition>, k: nat, expected: seq<ExpectedType>, depth: nat, selected: Selection,
                      ghost outcomes: seq<Option<Candidate>>)
      returns (r: Result<Selection>, ghost more: seq<Option<Candidate>>)
      requires Valid() && depth <= config.maxDepth && FC.DistinctNames(call.arguments)
      requires k == |outcomes| < |definitions| && Usable(catalog.rel, definitions[k], expected)
      requires !selected.AmbiguousCall? && selected == Unique(Hits(outcomes)) && AllCalls(catalog, call, definitions, expected, outcomes)
      modifies this
      ensures Valid() && Ran(old(S()), S(), r.Ok?)
      ensures r.Ok? ==>
        |more| == k + 1 && r.value == Unique(Hits(more)) && AllCalls(catalog, call, definitions, expected, more)
      decreases Below(depth), 20
    {
      more := outcomes;
      var parsed := TryDefinition(call, definitions[k], expected, depth);
      if parsed.Err? { return Err(parsed.error), more; }
      TriedNext(catalog, call, definitions, expected, outcomes, parsed.value);
      more := outcomes + [parsed.value];
      r := Ok(if parsed.value.None? then selected else if selected.OneCall? then AmbiguousCall else OneCall(parsed.value.value));
    }

    method TryDefinition(call: CS.Call, definition: FC.Definition, expected: seq<ExpectedType>, depth: nat) returns (r: Result<Option<Candidate>>)
      requires Valid() && depth <= config.maxDepth && FC.DistinctNames(call.arguments) && Usable(catalog.rel, definition, expected)
      modifies this
      ensures Valid() && Ran(old(S()), S(), r.Ok?)
      ensures r.Ok? && r.value.Some? ==> catalog.rel.Fits(r.value.value.node, expected)
      ensures r.Ok? && r.value.Some? ==> CallOf(catalog, call, definition, r.value.value.node)
      ensures r == Ok(None) ==> context == old(context)
      ensures !BeganBoth(old(S())).0 ==> r == Err(Environment) && S() == BeganBoth(old(S())).1
      decreases Below(depth), 19
    {
      var parsed, effects := AttemptDefinition(call, definition, depth);
      if parsed.Err? { return Err(parsed.error); }
      if parsed.value.None? { return Ok(None); }
      var (built, children) := parsed.value.value;
      FunctionFits(catalog.rel, call.range, definition, built, children, expected);
      var candidate := Candidate(FunctionNode(call.range, definition, built, children), None);
      EffectsFit(catalog.rel, candidate, effects, expected);
      r := Ok(Some(WithEffects(candidate, effects)));
    }

    /** A definition, bound inside the scopes of one attempt, with the work it deferred. */
    method AttemptDefinition(call: CS.Call, definition: FC.Definition, depth: nat)
      returns (r: Result<Option<(FunctionCall, seq<Node>)>>, effects: Option<nat>)
      requires Valid() && depth <= config.maxDepth && FC.DistinctNames(call.arguments)
      modifies this
      ensures Valid() && Ran(old(S()), S(), r.Ok?)
      ensures r.Ok? && r.value.Some? && FC.WellFormedDefinition(catalog.letters.white, definition) ==>
        FC.Owned(catalog.letters.white, r.value.value.0, |r.value.value.1|)
      ensures r == Ok(None) ==> context == old(context)
      ensures !BeganBoth(old(S())).0 ==> r == Err(Environment) && S() == BeganBoth(old(S())).1
      decreases Below(depth), 18
    {
      ghost var a := S();
      effects := None;
      var begun := BeginAttempt();
      if !begun { return Err(Environment), None; }
      ghost var b := S();
      r := ParseDefinition(call, definition, depth);
      ghost var c := S();
      var accepted := r.Ok? && r.value.Some?;
      var closed := CloseAttempt(accepted);
      Attempted(a, b, c, r.Ok?, accepted);
      if r.Err? { return; }
      if closed.None? { return Err(Environment), None; }
      effects := closed.value;
    }

    /** Binds the arguments, either way, and builds the call; a call that a well-formed
        definition gives owns its children. */
    method ParseDefinition(call: CS.Call, definition: FC.Definition, depth: nat) returns (r: Result<Option<(FunctionCall, seq<Node>)>>)
      requires Valid() && depth <= config.maxDepth && FC.DistinctNames(call.arguments)
      modifies this
      ensures Valid() && Ran(old(S()), S(), r.Ok?)
      ensures r.Ok? && r.value.Some? && FC.WellFormedDefinition(catalog.letters.white, definition) ==>
        FC.Owned(catalog.letters.white, r.value.value.0, |r.value.value.1|)
      decreases Below(depth), 17
    {
      var mapped: Option<seq<FC.MappedArgument>>;
      ghost var slots;
      if definition.ListSignature() {
        mapped := FC.MapListArguments(definition, call.arguments);
      } else {
        if FC.HasNames(call.arguments) && !definition.allowsNamedArguments { return Ok(None); }
        if |call.arguments| > |definition.parameters| { return Ok(None); }
        mapped, slots := FC.MapExactArguments(definition.parameters, call.arguments);
        if mapped.Some? { FC.PlacedIsMapped(definition.parameters, call.arguments, slots, mapped.value); }
      }
      if mapped.None? { return Ok(None); }
      ghost var parsed;
      r, parsed := BuildCandidate(definition, mapped.value, depth, Anywhere(Now(S())));
      if r.Ok? && r.value.Some? && FC.WellFormedDefinition(catalog.letters.white, definition) {
        FC.BuiltCallIsOwned(catalog.letters.white, catalog.rel, definition, mapped.value, parsed, r.value.value.0, r.value.value.1);
      }
      if r.Ok? && r.value.Some? && !catalog.mappable(call.range) {
        RanFails(old(S()), S());
        r := Err(SourceMap);
      }
    }

    /** `build_candidate`: parses every bound value and hands each parameter its block of
        children. */
    method BuildCandidate(definition: FC.Definition, mapped: seq<FC.MappedArgument>, depth: nat, ghost since: Moment)
      returns (r: Result<Option<(FunctionCall, seq<Node>)>>, ghost parsed: seq<seq<Node>>)
      requires Valid() && depth <= config.maxDepth && FC.Mapped(definition.parameters, mapped)
      requires Reaching(since, S()) && since.context.None?
      modifies this
      ensures Valid() && Ran(old(S()), S(), r.Ok?)
      ensures r.Ok? && r.value.Some? ==>
        && FC.BuiltFrom(definition, mapped, parsed, r.value.value.0, r.value.value.1)
        && FC.AllFit(catalog.rel, definition.parameters, parsed) && AllAnswered(S(), since, definition.parameters, mapped, parsed)
      decreases Below(depth), 16
    {
      ghost var a := S();
      var children: seq<Node> := [];
      var arguments: seq<FunctionArgument> := [];
      parsed := [];
      var p := 0;
      while p < |mapped|
        invariant 0 <= p == |arguments| <= |mapped| && Valid() && Ran(a, S(), true)
        invariant Building(catalog.rel, S(), since, definition.parameters, mapped, parsed, arguments, children)
      {
        ghost var b := S();
        var more;
        more, parsed := AddArgument(definition.parameters, mapped, p, depth, arguments, children, parsed, since);
        RanThen(a, b, S(), more.Ok?);
        if more.Err? { return Err(more.error), parsed; }
        if more.value.None? { return Ok(None), parsed; }
        arguments, children := more.value.value.0, more.value.value.1;
        p := p + 1;
      }
      r := Ok(Some((FunctionCall(definition.name, definition.definitionId, definition.registrationId, arguments), children)));
    }

    /** The argument of one more parameter, with the children it owns behind those before. */
    method AddArgument(parameters: seq<FC.Parameter>, mapped: seq<FC.MappedArgument>, p: nat, depth: nat, arguments: seq<FunctionArgument>,
                       children: seq<Node>, ghost parsed: seq<seq<Node>>, ghost since: Moment)
      returns (r: Result<Option<(seq<FunctionArgument>, seq<Node>)>>, ghost more: seq<seq<Node>>)
      requires Valid() && depth <= config.maxDepth && p == |arguments| < |mapped| && Reaching(since, S()) && since.context.None?
      requires Building(catalog.rel, S(), since, parameters, mapped, parsed, arguments, children)
      modifies this
      ensures Valid() && Ran(old(S()), S(), r.Ok?)
      ensures r.Ok? && r.value.Some? ==>
        |r.value.value.0| == p + 1 && Building(catalog.rel, S(), since, parameters, mapped, more, r.value.value.0, r.value.value.1)
      decreases Below(depth), 15
    {
      ghost var b := S();
      more := parsed;
      var nodes, values := CollectValues(parameters[p], mapped[p].values, depth, since);
      if nodes.Err? { return Err(nodes.error), more; }
      if nodes.value.None? { return Ok(None), more; }
      BuildingStays(catalog.rel, b, S(), since, parameters, mapped, parsed, arguments, children);
      BuildingNext(catalog.rel, S(), since, parameters, mapped, parsed, arguments, children, values, nodes.value.value);
      more := parsed + [values];
      r := Ok(Some((arguments + [FC.ArgumentOf(parameters[p], mapped[p], |children|, |nodes.value.value|)], children + nodes.value.value)));
    }

    /** The nodes of one parameter, from all its values. */
    method CollectValues(parameter: FC.Parameter, values: seq<Range>, depth: nat, ghost since: Moment) returns (r: Result<Option<seq<Node>>>, ghost parsed: seq<Node>)
      requires Valid() && depth <= config.maxDepth
      requires Reaching(since, S()) && since.context.None?
      modifies this
      ensures Valid() && Ran(old(S()), S(), r.Ok?)
      ensures r.Ok? && r.value.Some? ==>
        |parsed| == |values| && Collecting(catalog.rel, S(), since, parameter, values, parsed, r.value.value)
      decreases Below(depth), 14
    {
      ghost var a := S();
      var children: seq<Node> := [];
      parsed := [];
      var k := 0;
      while k < |values|
        invariant 0 <= k == |parsed| <= |values| && Valid() && Ran(a, S(), true)
        invariant Collecting(catalog.rel, S(), since, parameter, values, parsed, children)
      {
        ghost var b := S();
        r, parsed := AddValue(parameter, values, k, depth, children, parsed, since);
        RanThen(a, b, S(), r.Ok?);
        if r.Err? || r.value.None? { return; }
        children := r.value.value;
        k := k + 1;
      }
      r := Ok(Some(children));
    }

    /** What the parameter takes of one more value, behind what it took before. */
    method AddValue(parameter: FC.Parameter, values: seq<Range>, k: nat, depth: nat, children: seq<Node>, ghost parsed: seq<Node>, ghost since: Moment)
      returns (r: Result<Option<seq<Node>>>, ghost more: seq<Node>)
      requires Valid() && depth <= config.maxDepth && k == |parsed| < |values| && Reaching(since, S()) && since.context.None?
      requires Collecting(catalog.rel, S(), since, parameter, values, parsed, children)
      modifies this
      ensures Valid() && Ran(old(S()), S(), r.Ok?)
      ensures r.Ok? && r.value.Some? ==> |more| == k + 1 && Collecting(catalog.rel, S(), since, parameter, values, more, r.value.value)
      decreases Below(depth), 13
    {
      ghost var b := S();
      more := parsed;
      var taken := CollectValue(parameter, values[k], depth, since);
      if taken.Err? { return Err(taken.error), more; }
      if taken.value.None? { return Ok(None), more; }
      CollectingStays(catalog.rel, b, S(), since, parameter, values, parsed, children);
      CollectingNext(catalog.rel, S(), since, parameter, values, parsed, children, taken.value.value.0, taken.value.value.1);
      more := parsed + [taken.value.value.0];
      r := Ok(Some(children + taken.value.value.1));
    }

    /** `parse_parameter_value`: the first answer for a value, and what the parameter takes of it. */
    method CollectValue(parameter: FC.Parameter, value: Range, depth: nat, ghost since: Moment) returns (r: Result<Option<(Node, seq<Node>)>>)
      requires Valid() && depth <= config.maxDepth
      requires Reaching(since, S())
      modifies this
      ensures Valid() && Ran(old(S()), S(), r.Ok?)
      ensures r.Ok? && r.value.Some? ==>
        && FC.Taken(parameter, r.value.value.0) == Some(r.value.value.1) && catalog.rel.Fits(r.value.value.0, FC.Wanted(parameter))
        && FirstAnswer(S(), since, ValueRequest(value, parameter), r.value.value.0)
      decreases Below(depth), 12
    {
      if value.start >= value.end { return Ok(None); }
      var first := ParseFirst(ValueRequest(value, parameter), depth + 1, since);
      if first.Err? { return Err(first.error); }
      if first.value.None? { return Ok(None); }
      var nodes := FC.Taken(parameter, first.value.value);
      r := Ok(if nodes.Some? then Some((first.value.value, nodes.value)) else None);
    }

    // ------------------------------------------------------------------------ leaves

    /** Whether a leaf that the environment offers is taken. */
    method ValidLeaf(leaf: Leaf, request: Request, ends: seq<nat>) returns (valid: bool)
      ensures valid <==> LeafAccepted(catalog.rel, catalog.letters.white, source, leaf, request, ends)
    {
      var owned := true;
      if leaf.call.Some? { owned := FC.ValidateChildren(catalog.letters.white, leaf.call.value, |leaf.children|); }
      valid :=
        && request.range.start <= leaf.range.start && leaf.range.end <= request.range.end
        && (leaf.kind == FunctionLeaf) == leaf.call.Some? && owned && (leaf.call.Some? ==> ChildrenInside(leaf))
        && leaf.range.start == request.range.start && leaf.range.end in ends && leaf.range.Within(source)
        && (request.allowLiterals || leaf.kind != LiteralLeaf) && (request.allowExpressions || leaf.kind == LiteralLeaf)
        && catalog.rel.ReturnTypeMatches(leaf.returnType, request.expected)
        && catalog.rel.MultiplicityMatches(leaf.multiplicity, request.expected);
    }

    /** The accepted leaves: those for now, and those behind the registered expressions. */
    method ParseLeaves(request: Request, ends: seq<nat>) returns (r: Result<(seq<Candidate>, seq<Candidate>)>)
      requires Valid()
      modifies this`script
      ensures Valid() && Ran(old(S()), S(), true)
      ensures r.Ok? ==> AllFit(catalog.rel, r.value.0, request.expected) && AllFit(catalog.rel, r.value.1, request.expected)
    {
      ghost var a := S();
      if !catalog.mappable(request.range) { return Err(SourceMap); }
      var answer := Ask();
      AskedRan(a, S());
      if !answer.Leaves? { return Err(Environment); }
      ghost var b := S();
      var accepted, deferred := TakeLeaves(request, ends, answer.leaves);
      var ok := CallEnvironment();
      AskedRan(b, S());
      RanThen(a, b, S(), true);
      r := if ok then Ok((accepted, deferred)) else Err(Environment);
    }

    method TakeLeaves(request: Request, ends: seq<nat>, leaves: seq<Leaf>) returns (accepted: seq<Candidate>, deferred: seq<Candidate>)
      ensures AllFit(catalog.rel, accepted, request.expected) && AllFit(catalog.rel, deferred, request.expected)
      ensures accepted == LeavesOf(catalog, source, request, ends, leaves, false) && deferred == LeavesOf(catalog, source, request, ends, leaves, true)
    {
      accepted, deferred := [], [];
      var k := 0;
      while k < |leaves|
        invariant 0 <= k <= |leaves|
        invariant AllFit(catalog.rel, accepted, request.expected) && AllFit(catalog.rel, deferred, request.expected)
        invariant accepted == LeavesOf(catalog, source, request, ends, leaves[..k], false)
        invariant deferred == LeavesOf(catalog, source, request, ends, leaves[..k], true)
      {
        assert leaves[..k + 1][..k] == leaves[..k];
        var valid := ValidLeaf(leaves[k], request, ends);
        if valid {
          LeafFits(catalog.rel, catalog.letters.white, source, leaves[k], request, ends);
          var candidate := Candidate(LeafNode(leaves[k]), None);
          if request.allowExpressions && leaves[k].afterRegistered {
            deferred := deferred + [candidate];
          } else {
            accepted := accepted + [candidate];
          }
        }
        k := k + 1;
      }
      assert leaves[..k] == leaves;
    }

    // ------------------------------------------------------------------------- lists

    /** `parse_expression_lists`. */
    method ParseLists(request: Request, depth: nat) returns (r: Result<seq<Candidate>>)
      requires Valid() && depth <= config.maxDepth && ValidRequest(source, request.range, request.ends)
      modifies this
      ensures Valid() && Ran(old(S()), S(), r.Ok?)
      ensures r.Ok? ==> AllFit(catalog.rel, r.value, request.expected) && ListsFrom(S(), Anywhere(Now(old(S()))), source, request, r.value)
      decreases Below(depth), 22
    {
      ghost var a := S();
      ghost var since := Anywhere(Now(a));
      r := Ok([]);
      var k := 0;
      while k < |request.ends|
        invariant 0 <= k <= |request.ends| && Valid() && Ran(a, S(), true) && r.Ok?
        invariant AllFit(catalog.rel, r.value, request.expected) && ListsFrom(S(), since, source, request, r.value)
      {
        ghost var b := S();
        r := AddList(request, request.ends[k], depth, r.value, since);
        RanThen(a, b, S(), r.Ok?);
        if r.Err? { return; }
        k := k + 1;
      }
    }

    method AddList(request: Request, end: nat, depth: nat, lists: seq<Candidate>, ghost since: Moment) returns (r: Result<seq<Candidate>>)
      requires Valid() && depth <= config.maxDepth && end in request.ends && request.range.start <= end <= |source|
      requires Reaching(since, S()) && since.context.None?
      requires AllFit(catalog.rel, lists, request.expected) && ListsFrom(S(), since, source, request, lists)
      modifies this
      ensures Valid() && Ran(old(S()), S(), r.Ok?)
      ensures r.Ok? ==> AllFit(catalog.rel, r.value, request.expected) && ListsFrom(S(), since, source, request, r.value)
      decreases Below(depth), 21
    {
      ghost var a := S();
      var list := ListAt(request, end, depth, since);
      if list.Err? { return Err(list.error); }
      if list.value.None? {
        ListsStay(a, S(), since, source, request, lists);
        return Ok(lists);
      }
      ListsNext(a, S(), since, catalog.rel, source, request, lists, list.value.value);
      r := Ok(lists + [list.value.value]);
    }

    /** The list that spans from the range start to one of its ends. */
    method ListAt(request: Request, end: nat, depth: nat, ghost since: Moment) returns (r: Result<Option<Candidate>>)
      requires Valid() && depth <= config.maxDepth && end in request.ends && request.range.start <= end <= |source|
      requires Reaching(since, S()) && since.context.None?
      modifies this
      ensures Valid() && Ran(old(S()), S(), r.Ok?)
      ensures r.Ok? && r.value.Some? ==>
        catalog.rel.Fits(r.value.value.node, request.expected)
        && r.value.value.node.span.end == end && ListEnding(S(), since, source, request, r.value.value.node)
      decreases Below(depth), 20
    {
      var range := Range(request.range.start, end);
      var raw := SplitExpressionList(source, range);
      if raw.None? { return Ok(None); }
      SplitShape(source, range, raw);
      ShapedIsRunnable(source, range, raw.value);
      ghost var a := S();
      var members, effects := AttemptMembers(request, raw.value, depth, since);
      if members.Err? { return Err(members.error); }
      if members.value.None? { return Ok(None); }
      if !catalog.mappable(range) {
        RanFails(a, S());
        return Err(SourceMap);
      }
      var (conjunction, children) := members.value.value;
      var returnTypes := ReturnTypes(children);
      var returnType := if returnTypes.Some? then catalog.commonClass(returnTypes.value) else None;
      ListFits(catalog.rel, range, conjunction, children, returnType, effects, request.expected);
      r := Ok(Some(Candidate(ListNode(range, conjunction, children, returnType, effects), None)));
    }

    /** The members of a list, parsed inside one expression scope, with the work it deferred. */
    method AttemptMembers(request: Request, raw: RawList, depth: nat, ghost since: Moment)
      returns (r: Result<Option<(Conjunction, seq<Node>)>>, effects: Option<nat>)
      requires Valid() && depth <= config.maxDepth && Runnable(source, raw)
      requires Reaching(since, S()) && since.context.None?
      modifies this
      ensures Valid() && Ran(old(S()), S(), r.Ok?)
      ensures r.Ok? && r.value.Some? ==>
        && |r.value.value.1| >= 2 && NodesFit(catalog.rel, r.value.value.1, request.expected)
        && ListExpected(r.value.value.0, request.expected)
        && ListBuilt(S(), since, source, request, raw, r.value.value.0, r.value.value.1)
      decreases Below(depth), 19
    {
      ghost var a := S();
      effects := None;
      var ok := BeginExpression();
      if !ok {
        BeganRan(a, Expression);
        return Err(Environment), None;
      }
      ghost var b := S();
      r := ParseMembers(request, raw, depth, since);
      ghost var c := S();
      var closed := EndExpression(r.Ok?, a, b);
      if r.Err? { return; }
      if r.value.Some? { ListStays(c, S(), since, source, request, raw, r.value.value.0, r.value.value.1); }
      if closed.None? { return Err(Environment), None; }
      effects := closed.value;
    }

    /** The members of a list and how they are joined: two or more children that cover all
        pieces, joined as the delimiters between them say. */
    method ParseMembers(request: Request, raw: RawList, depth: nat, ghost since: Moment) returns (r: Result<Option<(Conjunction, seq<Node>)>>)
      requires Valid() && depth <= config.maxDepth && Runnable(source, raw)
      requires Reaching(since, S()) && since.context.None?
      modifies this
      ensures Valid() && Ran(old(S()), S(), r.Ok?)
      ensures r.Ok? && r.value.Some? ==>
        && |r.value.value.1| >= 2 && NodesFit(catalog.rel, r.value.value.1, request.expected)
        && ListExpected(r.value.value.0, request.expected)
        && ListBuilt(S(), since, source, request, raw, r.value.value.0, r.value.value.1)
      decreases Below(depth), 18
    {
      var segments := ParseSegments(request, raw, depth, since);
      if segments.Err? { return Err(segments.error); }
      if segments.value.None? { return Ok(None); }
      var SoFar(next, starts, children) := segments.value.value;
      CoveringAll(starts, |raw.pieces|);
      var conjunction := ConjunctionForChildren(raw, starts);
      if conjunction == All && !AnyPlural(request.expected) { return Ok(None); }
      assert Joins(S(), since, source, request, raw, starts, conjunction, children);
      r := Ok(Some((conjunction, children)));
    }

    /** Splits the pieces into children, each as short as it can be. */
    method ParseSegments(request: Request, raw: RawList, depth: nat, ghost since: Moment) returns (r: Result<Option<SoFar>>)
      requires Valid() && depth <= config.maxDepth && Runnable(source, raw)
      requires Reaching(since, S()) && since.context.None?
      modifies this
      ensures Valid() && Ran(old(S()), S(), r.Ok?)
      ensures r.Ok? && r.value.Some? ==>
        r.value.value.next == |raw.pieces| && Taking(S(), since, request, raw, r.value.value)
      decreases Below(depth), 17
    {
      ghost var a := S();
      var segments := SoFar(0, [], []);
      r := Ok(None);
      while segments.next < |raw.pieces|
        invariant Valid() && Ran(a, S(), true)
        invariant Taking(S(), since, request, raw, segments)
        decreases |raw.pieces| - segments.next
      {
        ghost var b := S();
        var next := AddSegment(request, raw, segments, depth, since);
        RanThen(a, b, S(), next.Ok?);
        if next.Err? { return Err(next.error); }
        if next.value.None? { return Ok(None); }
        segments := next.value.value;
      }
      r := Ok(Some(segments));
    }

    ghost predicate Taking(s: State, m: Moment, request: Request, raw: RawList, segments: SoFar) {
      segments.next <= |raw.pieces| && Segmenting(catalog.rel, s, m, source, request, raw, segments.starts, segments.children, segments.next)
    }

    method AddSegment(request: Request, raw: RawList, segments: SoFar, depth: nat, ghost since: Moment) returns (r: Result<Option<SoFar>>)
      requires Valid() && depth <= config.maxDepth && Runnable(source, raw)
      requires Reaching(since, S()) && since.context.None?
      requires Taking(S(), since, request, raw, segments) && segments.next < |raw.pieces|
      modifies this
      ensures Valid() && Ran(old(S()), S(), r.Ok?)
      ensures r.Ok? && r.value.Some? ==> segments.next < r.value.value.next && Taking(S(), since, request, raw, r.value.value)
      decreases Below(depth), 16
    {
      ghost var b := S();
      var SoFar(first, starts, children) := segments;
      var segment := NextSegment(request, raw, first, depth, since);
      if segment.Err? { return Err(segment.error); }
      if segment.value.None? { return Ok(None); }
      var (next, node) := segment.value.value;
      SegmentingNext(catalog.rel, b, S(), since, source, request, raw, starts, children, first, next, node);
      r := Ok(Some(SoFar(next, starts + [first], children + [node])));
    }

    /** The shortest run of pieces from `first` on that parses; a child never takes them all. */
    method NextSegment(request: Request, raw: RawList, first: nat, depth: nat, ghost since: Moment) returns (r: Result<Option<(nat, Node)>>)
      requires Valid() && depth <= config.maxDepth && Runnable(source, raw) && first < |raw.pieces|
      requires Reaching(since, S()) && since.context.None?
      modifies this
      ensures Valid() && Ran(old(S()), S(), r.Ok?)
      ensures r.Ok? && r.value.Some? ==>
        first < r.value.value.0 <= |raw.pieces| && Link(catalog.rel, S(), since, source, request, raw, first, r.value.value.0, r.value.value.1)
      ensures r == Ok(None) ==> NoneUpTo(S(), since, source, request, raw, first, |raw.pieces|)
      decreases Below(depth), 15
    {
      ghost var a := S();
      var last := first;
      while last < |raw.pieces|
        invariant first <= last <= |raw.pieces| && Valid() && Ran(a, S(), true)
        invariant NoneUpTo(S(), since, source, request, raw, first, last)
      {
        ghost var b := S();
        r := NextRun(request, raw, first, last, depth, since);
        RanThen(a, b, S(), r.Ok?);
        if r.Err? || r.value.Some? { return; }
        last := last + 1;
      }
      r := Ok(None);
    }

    method NextRun(request: Request, raw: RawList, first: nat, last: nat, depth: nat, ghost since: Moment) returns (r: Result<Option<(nat, Node)>>)
      requires Valid() && depth <= config.maxDepth && Runnable(source, raw) && first <= last < |raw.pieces|
      requires Reaching(since, S()) && since.context.None?
      requires NoneUpTo(S(), since, source, request, raw, first, last)
      modifies this
      ensures Valid() && Ran(old(S()), S(), r.Ok?)
      ensures r.Ok? && r.value.Some? ==>
        first < r.value.value.0 <= |raw.pieces| && Link(catalog.rel, S(), since, source, request, raw, first, r.value.value.0, r.value.value.1)
      ensures r == Ok(None) ==> NoneUpTo(S(), since, source, request, raw, first, last + 1)
      decreases Below(depth), 14
    {
      ghost var a := S();
      var parsed := TryRun(request, raw, first, last, depth, since);
      if parsed.Err? { return Err(parsed.error); }
      RunTried(a, S(), since, source, request, raw, first, last, parsed.value);
      r := Ok(if parsed.value.Some? then Some((last + 1, parsed.value.value)) else None);
    }

    method TryRun(request: Request, raw: RawList, first: nat, last: nat, depth: nat, ghost since: Moment) returns (r: Result<Option<Node>>)
      requires Valid() && depth <= config.maxDepth && Runnable(source, raw) && first <= last < |raw.pieces|
      requires Reaching(since, S())
      modifies this
      ensures Valid() && Ran(old(S()), S(), r.Ok?)
      ensures r.Ok? && r.value.Some? ==>
        && RunOf(raw, first, last + 1).Within(source) && FirstAnswer(S(), since, MemberRequest(source, request, RunOf(raw, first, last + 1)), r.value.value)
        && (first == 0 ==> last + 1 < |raw.pieces|) && catalog.rel.Fits(r.value.value, request.expected)
      ensures r == Ok(None) ==> Unanswered(S(), since, source, request, raw, first, last + 1)
      decreases Below(depth), 13
    {
      if first == 0 && last + 1 == |raw.pieces| { return Ok(None); }
      assert RunOf(raw, first, last + 1).Within(source);
      r := ParseMember(request, RunOf(raw, first, last + 1), depth, since);
    }

    /** One member, selected; it may be a list itself only in parentheses. */
    method ParseMember(request: Request, range: Range, depth: nat, ghost since: Moment) returns (r: Result<Option<Node>>)
      requires Valid() && depth <= config.maxDepth && range.Within(source)
      requires Reaching(since, S())
      modifies this
      ensures Valid() && Ran(old(S()), S(), r.Ok?)
      ensures r.Ok? && r.value.Some? ==>
        catalog.rel.Fits(r.value.value, request.expected) && FirstAnswer(S(), since, MemberRequest(source, request, range), r.value.value)
      ensures r == Ok(None) ==> NoAnswer(S(), since, MemberRequest(source, request, range))
      decreases Below(depth), 12
    {
      r := ParseFirst(MemberRequest(source, request, range), depth + 1, since);
    }

    // -------------------------------------------------------------------- everything

    /** A parenthesised expression at the start of the range, whose end is then no longer
        asked of the other parsers. */
    method ParseGroup(request: Request, depth: nat, base: bool) returns (r: Result<seq<Candidate>>, ends: seq<nat>)
      requires Valid() && depth <= config.maxDepth && ValidRequest(source, request.range, request.ends)
      modifies this
      ensures Valid() && Ran(old(S()), S(), r.Ok?)
      ensures r.Ok? ==> AllFit(catalog.rel, r.value, request.expected)
      ensures ValidRequest(source, request.range, ends) && ends == EndsLeft(source, request)
      ensures r.Ok? && r.value != [] ==> base && GroupTaken(S(), Now(old(S())), source, request, r.value)
      decreases Below(depth), 19
    {
      EndsLeftValid(source, request);
      r, ends := Ok([]), EndsLeft(source, request);
      var span := GroupSpan(source, request.range, request.ends);
      if base && span.Some? { r := TakeGroup(request, span.value, depth); }
    }

    method TakeGroup(request: Request, span: Range, depth: nat) returns (r: Result<seq<Candidate>>)
      requires Valid() && depth <= config.maxDepth && request.range.Within(source) && GroupSpan(source, request.range, request.ends) == Some(span)
      modifies this
      ensures Valid() && Ran(old(S()), S(), r.Ok?)
      ensures r.Ok? ==> AllFit(catalog.rel, r.value, request.expected)
      ensures r.Ok? && r.value != [] ==> GroupTaken(S(), Now(old(S())), source, request, r.value)
      decreases Below(depth), 18
    {
      r := GroupInside(request, span, depth);
      if r.Ok? && r.value != [] { GroupIsTaken(S(), Now(old(S())), source, request, span, r.value); }
    }

    /** The expression between the parentheses of a group, if there is anything. */
    method GroupInside(request: Request, span: Range, depth: nat) returns (r: Result<seq<Candidate>>)
      requires Valid() && depth <= config.maxDepth && span.Within(source) && span.start + 2 <= span.end
      modifies this
      ensures Valid() && Ran(old(S()), S(), r.Ok?)
      ensures r.Ok? ==> AllFit(catalog.rel, r.value, request.expected)
      ensures r.Ok? && r.value != [] ==> GroupedFrom(S(), Now(old(S())), request, Trimmed(source, Range(span.start + 1, span.end - 1)), span, r.value)
      decreases Below(depth), 17
    {
      var inner := Trimmed(source, Range(span.start + 1, span.end - 1));
      if inner.start >= inner.end { return Ok([]); }
      ghost var a := S();
      ghost var key;
      r, key := ParsePrefixes(request.(range := inner, ends := [inner.end]), depth + 1);
      if r.Err? { return; }
      if !catalog.mappable(span) {
        RanFails(old(S()), S());
        return Err(SourceMap);
      }
      GroupingFits(catalog.rel, span, r.value, request.expected);
      InnerAnswered(a, S(), Now(a), request, inner, span, r.value, key);
      r := Ok(Grouping(span, r.value));
    }

    /** Registered expressions for every end. */
    method ParseRegistered(request: Request, depth: nat) returns (r: Result<seq<Candidate>>)
      requires Valid() && depth <= config.maxDepth
      modifies this
      ensures Valid() && Ran(old(S()), S(), r.Ok?)
      ensures r.Ok? ==> AllFit(catalog.rel, r.value, request.expected)
      decreases Below(depth), 19
    {
      ghost var a := S();
      var found: seq<Candidate> := [];
      var k := 0;
      while k < |request.ends|
        invariant 0 <= k <= |request.ends| && Valid() && Ran(a, S(), true) && AllFit(catalog.rel, found, request.expected)
      {
        ghost var b := S();
        r := AddRegistered(request, request.ends[k], depth, found);
        RanThen(a, b, S(), r.Ok?);
        if r.Err? { return; }
        found := r.value;
        k := k + 1;
      }
      r := Ok(found);
    }

    method AddRegistered(request: Request, end: nat, depth: nat, found: seq<Candidate>) returns (r: Result<seq<Candidate>>)
      requires Valid() && depth <= config.maxDepth && AllFit(catalog.rel, found, request.expected)
      modifies this
      ensures Valid() && Ran(old(S()), S(), r.Ok?)
      ensures r.Ok? ==> AllFit(catalog.rel, r.value, request.expected) && found <= r.value
      decreases Below(depth), 18
    {
      var parsed := RegisteredAt(request, end, depth);
      r := if parsed.Err? then Err(parsed.error) else Ok(if parsed.value.Some? then found + [parsed.value.value] else found);
    }

    /** What is parsed for a seed only: leaves, arithmetic and function calls. */
    method ParseBase(request: Request, depth: nat) returns (r: Result<(seq<Candidate>, seq<Candidate>)>)
      requires Valid() && depth <= config.maxDepth && ValidRequest(source, request.range, request.ends)
      modifies this
      ensures Valid() && Ran(old(S()), S(), r.Ok?)
      ensures r.Ok? ==> AllFit(catalog.rel, r.value.0, request.expected) && AllFit(catalog.rel, r.value.1, request.expected)
      decreases Below(depth), 26
    {
      ghost var a := S();
      r := ParseLeaves(request, request.ends);
      RanFails(a, S());
      if r.Err? || !request.allowExpressions { return; }
      ghost var b := S();
      var calls := ParseCalls(request, depth);
      RanThen(a, b, S(), calls.Ok?);
      if calls.Err? { return Err(calls.error); }
      AllFitConcat(catalog.rel, r.value.0, calls.value, request.expected);
      r := Ok((r.value.0 + calls.value, r.value.1));
    }

    /** Arithmetic and function calls. */
    method ParseCalls(request: Request, depth: nat) returns (r: Result<seq<Candidate>>)
      requires Valid() && depth <= config.maxDepth && ValidRequest(source, request.range, request.ends)
      modifies this
      ensures Valid() && Ran(old(S()), S(), r.Ok?)
      ensures r.Ok? ==> AllFit(catalog.rel, r.value, request.expected)
      decreases Below(depth), 25
    {
      ghost var a := S();
      r := TakeArithmetic(request, depth);
      if r.Err? { return; }
      ghost var b := S();
      var functions, tries := ParseFunction(request, depth);
      RanThen(a, b, S(), functions.Ok?);
      if functions.Err? { return functions; }
      AllFitConcat(catalog.rel, r.value, functions.value, request.expected);
      r := Ok(r.value + functions.value);
    }

    method TakeArithmetic(request: Request, depth: nat) returns (r: Result<seq<Candidate>>)
      requires Valid() && depth <= config.maxDepth && ValidRequest(source, request.range, request.ends)
      modifies this
      ensures Valid() && Ran(old(S()), S(), r.Ok?)
      ensures r.Ok? ==> AllFit(catalog.rel, r.value, request.expected)
      decreases Below(depth), 23
    {
      var found := ParseArithmetic(request, depth);
      r := if found.Err? then Err(found.error) else Ok(if found.value.Some? then [found.value.value] else []);
    }

    /** `parse_prefixes_uncached`: everything that can start at the range, ending at one of
        the ends. */
    method ParseUncached(request: Request, depth: nat, base: bool) returns (r: Result<seq<Candidate>>)
      requires Valid() && depth <= config.maxDepth && ValidRequest(source, request.range, request.ends)
      modifies this
      ensures Valid() && Ran(old(S()), S(), r.Ok?)
      ensures r.Ok? ==> AllFit(catalog.rel, r.value, request.expected)
      decreases Below(depth), 27
    {
      ghost var a := S();
      var ends;
      r, ends := ParseGroup(request, depth, base);
      if r.Err? { return; }
      var ordinary := request.(ends := ends);
      var deferred: seq<Candidate> := [];
      if base {
        ghost var b := S();
        var parsed := ParseBase(ordinary, depth);
        RanThen(a, b, S(), parsed.Ok?);
        if parsed.Err? { return Err(parsed.error); }
        AllFitConcat(catalog.rel, r.value, parsed.value.0, request.expected);
        r, deferred := Ok(r.value + parsed.value.0), parsed.value.1;
      }
      if request.allowExpressions {
        ghost var c := S();
        var rest := ParseRest(ordinary, depth, base && request.allowLists, deferred);
        RanThen(a, c, S(), rest.Ok?);
        if rest.Err? { return rest; }
        AllFitConcat(catalog.rel, r.value, rest.value, request.expected);
        r := Ok(r.value + rest.value);
      }
    }

    /** Registered expressions, the leaves that wait for them, and lists. */
    method ParseRest(request: Request, depth: nat, lists: bool, deferred: seq<Candidate>) returns (r: Result<seq<Candidate>>)
      requires Valid() && depth <= config.maxDepth && ValidRequest(source, request.range, request.ends)
      requires AllFit(catalog.rel, deferred, request.expected)
      modifies this
      ensures Valid() && Ran(old(S()), S(), r.Ok?)
      ensures r.Ok? ==> AllFit(catalog.rel, r.value, request.expected)
      decreases Below(depth), 23
    {
      ghost var a := S();
      r := ParseRegistered(request, depth);
      if r.Err? { return; }
      AllFitConcat(catalog.rel, r.value, deferred, request.expected);
      r := Ok(r.value + deferred);
      if lists {
        ghost var b := S();
        var found := ParseLists(request, depth);
        RanThen(a, b, S(), found.Ok?);
        if found.Err? { return found; }
        AllFitConcat(catalog.rel, r.value, found.value, request.expected);
        r := Ok(r.value + found.value);
      }
    }

    /** `parse_complete_range`: the first candidate that takes the whole range, selected. */
    method ParseCompleteRange(range: Range, expected: seq<ExpectedType>, allowLiterals: bool, allowExpressions: bool, depth: nat)
      returns (r: Result<Option<Candidate>>)
      requires Valid()
      modifies this
      ensures Valid() && Ran(old(S()), S(), r.Ok?)
      ensures r.Ok? && r.value.Some? ==> catalog.rel.Fits(r.value.value.node, expected) && r.value.value.node.span.end == range.end
    {
      ghost var a := S();
      var parsed, key := ParsePrefixes(Request(range, [range.end], expected, allowLiterals, allowExpressions, 0, true), depth);
      if parsed.Err? { return Err(parsed.error); }
      var selected := FirstEnding(parsed.value, range.end);
      if selected.None? { return Ok(None); }
      ghost var b := S();
      var ok := SelectExpression(selected.value.node);
      AskedRan(b, S());
      RanThen(a, b, S(), true);
      RanFails(a, S());
      r := if ok then Ok(selected) else Err(Environment);
    }

    /** Parsing inside a recovery scope. When it fails and its scopes could be closed, the
        session is as before but for an empty memo: same scopes, contexts, context, resolved
        nodes and ids, and nothing being parsed that was not. */
    method ParseRecoverably(request: Request, depth: nat) returns (r: Result<seq<Candidate>>, closed: bool)
      requires Valid()
      modifies this
      ensures Valid() && active == old(active)
      ensures closed ==> scopes == old(scopes) && contexts == old(contexts)
      ensures closed && r.Ok? ==> Kept(old(S()), S()) && AllFit(catalog.rel, r.value, request.expected)
      ensures closed && r.Err? ==> memo == map[] && nodes == old(nodes) && nextId == old(nextId) && context == old(context)
    {
      ghost var a := S();
      var checkpoint := BeginRecovery();
      if checkpoint.None? {
        BeganRan(a, Semantic);
        return Err(Environment), false;
      }
      ghost var b := S();
      ghost var key;
      r, key := ParsePrefixes(request, depth);
      BeganOpens(a, Semantic);
      AboveBegins(a, b, S(), r.Ok?);
      closed := FinishRecovery(checkpoint.value, r.Ok?, a);
    }
  }

  /** An attempt from a session without scopes, whose environment agrees to begin a semantic
      scope and refuses the expression scope in it: it fails and leaves the first open. */
  method ScopeLeftOpen(source: string, catalog: Catalog, config: Config, context: Context, range: Range, root: Occurrence, operation: Operation,
                       expected: seq<ExpectedType>)
    returns (r: Result<Option<Candidate>>, scopes: seq<Scope>)
    requires RootIn(catalog, source, range, root) && catalog.rel.ReturnTypeMatches(Some(operation.returnType), expected)
    ensures r == Err(Environment) && scopes == [Semantic]
  {
    var session := new ExpressionSession(source, catalog, config, context, [Done, Fault]);
    r := session.TryOperation(range, root, operation, expected, 0, Now(session.S()));
    scopes := session.scopes;
  }
}
