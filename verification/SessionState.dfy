/** The state of an expression session as a value, what each scope operation does to it,
    and what every step of a session keeps. */
module SessionState {
  import opened Text
  import opened Expressions
  import FunctionCalls

  datatype Scope = Expression | Semantic

  datatype Context = Context(syntaxContext: nat, eventClasses: seq<string>, values: map<string, string>)

  datatype Request = Request(
    range: Range,
    ends: seq<nat>,
    expected: seq<ExpectedType>,
    allowLiterals: bool,
    allowExpressions: bool,
    time: int,
    allowLists: bool)

  datatype Key = Key(request: Request, context: Context, revision: nat)

  datatype LeafKind = VariableLeaf | LiteralLeaf | FunctionLeaf | CustomLeaf

  datatype Leaf = Leaf(
    kind: LeafKind,
    range: Range,
    returnType: Option<string>,
    multiplicity: Option<Multiplicity>,
    call: Option<FunctionCall>,
    effects: Option<nat>,
    children: seq<Node>,
    afterRegistered: bool)

  datatype CaptureParser = ExpressionParser | ConditionParser | EffectParser | OtherParser

  datatype Binding = Binding(capture: nat, parser: CaptureParser, required: bool, options: map<string, string>)

  datatype Capture =
    | TypeCapture(index: nat, id: Option<nat>)
    | RegexCapture(index: nat, range: Range)

  /** A match the pattern matcher found; `restore` when the environment kept state for it. */
  datatype Match = Match(registrationId: string, range: Range, captures: seq<Capture>, restore: bool)

  datatype Alternative = Alternative(name: string, plural: bool)

  datatype TypeRequest = TypeRequest(
    remaining: Range,
    ends: seq<nat>,
    alternatives: seq<Alternative>,
    nullable: bool,
    allowLiterals: bool,
    allowExpressions: bool,
    time: int)

  datatype DefaultValue = DefaultValue(
    returnType: string,
    multiplicity: Multiplicity,
    isLiteral: bool,
    time: int,
    identified: bool,
    effects: Option<nat>)

  datatype Decision =
    | UseDeclared
    | Resolved(returnType: Option<string>, possibleReturnTypes: seq<string>, multiplicity: Option<Multiplicity>)
    | Reject

  datatype RoutedDecision = UseCandidate | AcceptIn(context: Context) | RejectCandidate

  /** `dynamic` when the return type or the multiplicity of a registration is not static. */
  datatype Metadata = Metadata(
    returnType: Option<string>,
    possibleReturnTypes: seq<string>,
    multiplicity: Option<Multiplicity>,
    dynamic: bool)

  /** What the environment and the pattern matcher answer or ask for next. */
  datatype Answer =
    | Done
    | Fault
    | Revision(revision: nat)
    | Effects(effects: Option<nat>)
    | Leaves(leaves: seq<Leaf>)
    | Definitions(definitions: seq<FunctionCalls.Definition>)
    | Bindings(bindings: seq<Binding>)
    | Decided(decision: Decision)
    | RoutedDecided(routed: RoutedDecision)
    | DefaultFound(value: Option<DefaultValue>)
    | WantType(request: TypeRequest)
    | WantSelected(id: nat)
    | WantDefault(request: TypeRequest)
    | Matched(matches: seq<Match>, retry: bool)

  /** A request that was asked, with the context and the revision in its key; and its answer,
      if that was given without parsing: from the memo or to a re-entrant request. */
  datatype Lookup = Lookup(key: Key, answer: Option<seq<Candidate>>)

  /** How the answer to a request grew: the candidates after every round, and how long the
      log was before the first, when each round was stored, and at the end; `finished` when
      no round failed. */
  datatype Growth = Growth(key: Key, from: nat, rounds: seq<seq<Candidate>>, marks: seq<nat>, till: nat, finished: bool)

  /** What the environment answered while a semantic scope was open and could not be closed
      without that call: to begin the expression scope of an attempt, or to defer an
      expression scope above a semantic one that is being closed. */
  datatype ScopeCall = BeginInside(granted: bool) | DeferToClose(granted: bool)

  /** How far a run had come: how many requests it had asked, and, if that matters, in which
      context it was. */
  datatype Moment = Moment(asked: nat, context: Option<Context>)

  /** `script` is what the environment will answer; `calls` is what it answered to the calls
      on which a semantic scope hung, and `unclosed` counts the semantic scopes that were
      given up. */
  datatype State = State(
    memo: map<Key, seq<Candidate>>,
    active: set<Key>,
    scopes: seq<Scope>,
    contexts: seq<Context>,
    context: Context,
    nodes: map<nat, Node>,
    nextId: nat,
    seen: nat,
    script: seq<Answer>,
    unclosed: nat,
    calls: seq<ScopeCall>,
    log: seq<Lookup>,
    growths: seq<Growth>)

  // ---------------------------------------------------------------------- invariants

  function Semantics(scopes: seq<Scope>): nat {
    if scopes == [] then 0
    else Semantics(scopes[..|scopes| - 1]) + if scopes[|scopes| - 1] == Semantic then 1 else 0
  }

  predicate Distinct(candidates: seq<Candidate>) {
    forall i, j :: 0 <= i < j < |candidates| ==> candidates[i] != candidates[j]
  }

  predicate AllFit(rel: Conversions, candidates: seq<Candidate>, expected: seq<ExpectedType>) {
    forall i :: 0 <= i < |candidates| ==> rel.Fits(candidates[i].node, expected)
  }

  ghost predicate MemoWell(rel: Conversions, limit: nat, memo: map<Key, seq<Candidate>>) {
    && |memo| <= limit
    && forall k :: k in memo ==> Distinct(memo[k]) && AllFit(rel, memo[k], k.request.expected)
  }

  /** Every open semantic scope has saved one context. */
  predicate Counted(s: State) { |s.contexts| == Semantics(s.scopes) }

  datatype Config = Config(maxDepth: nat, maxCandidates: nat, maxMemoEntries: nat)

  ghost predicate Well(rel: Conversions, config: Config, s: State) {
    && Counted(s)
    && MemoWell(rel, config.maxMemoEntries, s.memo)
    && (forall i :: i in s.nodes ==> i < s.nextId)
    && GrowthsWell(config.maxDepth, s.log, s.growths)
  }

  // ------------------------------------------------------------------------- growth

  /** The growth of a seed: each round extends the one before, strictly but for the last,
      and the rounds end when nothing was added or the limit is reached. */
  ghost predicate Grown(rounds: seq<seq<Candidate>>, limit: nat) {
    && 1 <= |rounds| <= limit + 2 && Extending(rounds)
    && (|rounds| == limit + 2 || (|rounds| > 1 && rounds[|rounds| - 2] == rounds[|rounds| - 1]))
  }

  ghost predicate Extending(rounds: seq<seq<Candidate>>) {
    && (forall i :: 0 <= i < |rounds| ==> Distinct(rounds[i]))
    && (forall i :: 0 < i < |rounds| ==> rounds[i - 1] <= rounds[i])
    && (forall i :: 0 < i < |rounds| - 1 ==> rounds[i - 1] < rounds[i])
  }

  /** While a seed grew, every re-entrant request for it was answered with the round stored
      last, and before the first was stored with nothing. */
  ghost predicate Served(log: seq<Lookup>, g: Growth) {
    && |g.marks| == |g.rounds| && g.from <= g.till <= |log|
    && (forall i :: 0 <= i < |g.marks| ==> g.from <= g.marks[i] <= g.till)
    && forall j :: g.from <= j < g.till && log[j].key == g.key ==> log[j].answer == Some(SeedAt(g.rounds, g.marks, j))
  }

  /** The round stored last when the log had length `j`. */
  function SeedAt(rounds: seq<seq<Candidate>>, marks: seq<nat>, j: nat): seq<Candidate>
    requires |marks| == |rounds|
  {
    if marks == [] then []
    else if marks[|marks| - 1] <= j then rounds[|rounds| - 1]
    else SeedAt(rounds[..|rounds| - 1], marks[..|marks| - 1], j)
  }

  /** Every growth extends one list and served its re-entrant requests, also one whose last
      round failed; one that ended well has grown to its end. */
  ghost predicate GrowthsWell(limit: nat, log: seq<Lookup>, growths: seq<Growth>) {
    forall i :: 0 <= i < |growths| ==> GrowthWell(limit, log, growths[i])
  }

  ghost predicate GrowthWell(limit: nat, log: seq<Lookup>, g: Growth) {
    && Extending(g.rounds) && |g.rounds| <= limit + 2 && Served(log, g)
    && (g.finished ==> Grown(g.rounds, limit))
  }

  lemma GrowthsLater(limit: nat, log: seq<Lookup>, growths: seq<Growth>, lookup: Lookup)
    requires GrowthsWell(limit, log, growths)
    ensures GrowthsWell(limit, log + [lookup], growths)
  {}

  /** The growth that ended last is that of this request: it began when the request did and
      lasted until now. */
  ghost predicate Grew(a: State, b: State, key: Key, r: Result<seq<Candidate>>) {
    && |a.growths| < |b.growths|
    && var g := b.growths[|b.growths| - 1];
    && g.key == key && g.from == |a.log| && g.till == |b.log| && g.finished == r.Ok?
    && (r.Ok? ==> g.rounds != [] && g.rounds[|g.rounds| - 1] == r.value)
  }

  /** A growth that is still going on, up to the current log. */
  ghost predicate Growing(entry: State, s: State, g: Growth) {
    && g.key in s.active && g.from == |entry.log| && g.till == |s.log| && Served(s.log, g)
    && Current(s, g.key) == (if g.rounds == [] then [] else g.rounds[|g.rounds| - 1])
  }

  /** What is parsed meanwhile is served with the current seed. */
  lemma GrowingServes(entry: State, a: State, b: State, g: Growth)
    requires Growing(entry, a, g) && KeptLog(a, b) && KeptMemo(a, b)
    ensures Growing(entry, b, g.(till := |b.log|))
  {
    var h := g.(till := |b.log|);
    forall j | h.from <= j < h.till && b.log[j].key == h.key ensures b.log[j].answer == Some(SeedAt(h.rounds, h.marks, j)) {
      if j < |a.log| { assert b.log[j] == a.log[j]; }
    }
  }

  /** Storing the next round. */
  lemma GrowingNext(entry: State, s: State, g: Growth, next: seq<Candidate>)
    requires Growing(entry, s, g)
    ensures var t := s.(memo := s.memo[g.key := next]);
            Growing(entry, t, g.(rounds := g.rounds + [next], marks := g.marks + [|s.log|]))
  {
    var h := g.(rounds := g.rounds + [next], marks := g.marks + [|s.log|]);
    assert h.rounds[..|g.rounds|] == g.rounds && h.marks[..|g.marks|] == g.marks;
    forall j | h.from <= j < h.till && s.log[j].key == h.key ensures s.log[j].answer == Some(SeedAt(h.rounds, h.marks, j)) {
      assert SeedAt(h.rounds, h.marks, j) == SeedAt(g.rounds, g.marks, j);
    }
  }

  // --------------------------------------------------------------------------- steps

  function Current(s: State, key: Key): seq<Candidate> { if key in s.memo then s.memo[key] else [] }

  function Now(s: State): Moment { Moment(|s.log|, Some(s.context)) }

  /** The same moment, whatever the context. */
  function Anywhere(m: Moment): Moment { m.(context := None) }

  /** The moment is not later than the state, and its context is the present one. */
  predicate Reaching(m: Moment, s: State) { m.asked <= |s.log| && (m.context.Some? ==> m.context.value == s.context) }

  /** The request was asked since then, as the `i`-th of all, and in that context. */
  predicate AskedSince(s: State, m: Moment, i: int, request: Request) {
    m.asked <= i < |s.log| && s.log[i].key.request == request && (m.context.Some? ==> s.log[i].key.context == m.context.value)
  }

  /** The request was asked since then, and the node is the first that the memo has for it. */
  ghost predicate FirstAnswer(s: State, m: Moment, request: Request, node: Node) {
    exists i :: AskedSince(s, m, i, request) && AnsweredFirst(s, s.log[i].key, node)
  }

  predicate AnsweredFirst(s: State, key: Key, node: Node) { key in s.memo && s.memo[key] != [] && s.memo[key][0].node == node }

  /** The request was asked since then and answered with nothing. */
  ghost predicate NoAnswer(s: State, m: Moment, request: Request) {
    exists i :: AskedSince(s, m, i, request) && AnsweredNothing(s, s.log[i].key)
  }

  predicate AnsweredNothing(s: State, key: Key) { (key in s.memo || key in s.active) && Current(s, key) == [] }

  /** What was asked, and the memo's answers to it, stay. */
  ghost predicate KeptAnswers(a: State, b: State) { KeptMemo(a, b) && |a.log| <= |b.log| && forall j :: 0 <= j < |a.log| ==> b.log[j] == a.log[j] }

  lemma AnswersStay(a: State, b: State)
    requires KeptAnswers(a, b)
    ensures forall m, request, node :: FirstAnswer(a, m, request, node) ==> FirstAnswer(b, m, request, node)
    ensures forall m, request :: NoAnswer(a, m, request) ==> NoAnswer(b, m, request)
  {
    forall m, request, node | FirstAnswer(a, m, request, node) ensures FirstAnswer(b, m, request, node) {
      var i :| AskedSince(a, m, i, request) && AnsweredFirst(a, a.log[i].key, node);
      assert AskedSince(b, m, i, request) && AnsweredFirst(b, b.log[i].key, node);
    }
    forall m, request | NoAnswer(a, m, request) ensures NoAnswer(b, m, request) {
      var i :| AskedSince(a, m, i, request) && AnsweredNothing(a, a.log[i].key);
      assert AskedSince(b, m, i, request) && AnsweredNothing(b, b.log[i].key);
    }
  }

  /** Memoized answers stay, and requests still being parsed gain none. */
  ghost predicate KeptMemo(a: State, b: State) {
    && b.active == a.active
    && (forall k :: k in a.memo ==> k in b.memo && b.memo[k] == a.memo[k])
    && (forall k :: k in a.active && k in b.memo ==> k in a.memo)
  }

  /** Resolved nodes stay. */
  ghost predicate KeptNodes(a: State, b: State) {
    && a.nextId <= b.nextId
    && forall i :: i < a.nextId ==> (i in b.nodes <==> i in a.nodes) && (i in a.nodes ==> b.nodes[i] == a.nodes[i])
  }

  /** Every request that is still being parsed was answered with its current seed. */
  ghost predicate KeptLog(a: State, b: State) {
    && |a.log| <= |b.log| && (forall j :: 0 <= j < |a.log| ==> b.log[j] == a.log[j])
    && forall j :: |a.log| <= j < |b.log| && b.log[j].key in a.active ==> b.log[j].answer == Some(Current(a, b.log[j].key))
  }

  ghost predicate Kept(a: State, b: State) {
    && KeptMemo(a, b) && KeptNodes(a, b) && KeptLog(a, b)
    && |b.script| <= |a.script| && a.seen <= b.seen
    && a.unclosed <= b.unclosed && a.calls <= b.calls && a.growths <= b.growths
  }

  /** Scopes were only added, and as many semantic ones as were given up. */
  ghost predicate Scoped(a: State, b: State) {
    && a.scopes <= b.scopes && a.contexts <= b.contexts
    && Semantics(b.scopes) + a.unclosed == Semantics(a.scopes) + b.unclosed
  }

  ghost predicate Balanced(a: State, b: State) {
    b.scopes == a.scopes && b.contexts == a.contexts && b.unclosed == a.unclosed
  }

  /** Since `a` the environment agreed to every call on which a semantic scope hung. */
  ghost predicate Granted(a: State, b: State) {
    forall j :: |a.calls| <= j < |b.calls| ==> b.calls[j].granted
  }

  /** Semantic scopes were given up exactly if the environment refused such a call. */
  ghost predicate Linked(a: State, b: State) { b.unclosed == a.unclosed <==> Granted(a, b) }

  ghost predicate ScopesRan(a: State, b: State, ok: bool) {
    Linked(a, b) && if ok then Balanced(a, b) else Scoped(a, b)
  }

  /** What a piece of parsing does to the session, when it succeeds and when it fails. */
  ghost predicate Ran(a: State, b: State, ok: bool) { Kept(a, b) && ScopesRan(a, b, ok) }

  lemma KeptThen(a: State, b: State, c: State)
    requires Kept(a, b) && Kept(b, c)
    ensures Kept(a, c)
  {
    LogThen(a, b, c);
  }

  lemma LogThen(a: State, b: State, c: State)
    requires KeptMemo(a, b) && KeptLog(a, b) && KeptLog(b, c)
    ensures KeptLog(a, c)
  {
    forall j | |a.log| <= j < |c.log| && c.log[j].key in a.active ensures c.log[j].answer == Some(Current(a, c.log[j].key)) {
      if j < |b.log| { assert c.log[j] == b.log[j]; }
    }
  }

  lemma LinkedThen(a: State, b: State, c: State)
    requires Linked(a, b) && Linked(b, c)
    requires a.unclosed <= b.unclosed <= c.unclosed && a.calls <= b.calls <= c.calls
    ensures Linked(a, c)
  {
    if Granted(a, c) {
      forall j | |a.calls| <= j < |b.calls| ensures b.calls[j].granted { assert b.calls[j] == c.calls[j]; }
    } else {
      var j :| |a.calls| <= j < |c.calls| && !c.calls[j].granted;
      if j < |b.calls| { assert b.calls[j] == c.calls[j]; }
    }
  }

  lemma RanThen(a: State, b: State, c: State, ok: bool)
    requires Ran(a, b, true) && Ran(b, c, ok)
    ensures Ran(a, c, ok)
  {
    KeptThen(a, b, c);
    LinkedThen(a, b, c);
  }

  lemma RanFails(a: State, b: State)
    requires Ran(a, b, true)
    ensures Ran(a, b, false)
  {}

  /** The extra scopes that a failing run leaves are all expression scopes if and only if
      the environment agreed, during the run, to begin the expression scope of every
      attempt and to defer every expression scope above a semantic one that was closed. */
  lemma FailureLeavesExpressionScopes(a: State, b: State)
    requires Ran(a, b, false)
    ensures (forall i :: |a.scopes| <= i < |b.scopes| ==> b.scopes[i] == Expression)
            <==> (forall j :: |a.calls| <= j < |b.calls| ==> b.calls[j].granted)
    ensures (forall i :: |a.scopes| <= i < |b.scopes| ==> b.scopes[i] == Expression) <==> b.unclosed == a.unclosed
  {
    SemanticsBeyond(a.scopes, b.scopes);
    assert Granted(a, b) <==> (forall j :: |a.calls| <= j < |b.calls| ==> b.calls[j].granted);
  }

  lemma {:induction false} SemanticsBeyond(a: seq<Scope>, b: seq<Scope>)
    requires a <= b
    ensures Semantics(a) <= Semantics(b)
    ensures Semantics(a) == Semantics(b) <==> forall i :: |a| <= i < |b| ==> b[i] == Expression
    decreases |b|
  {
    if |a| < |b| {
      var rest := b[..|b| - 1];
      assert a <= rest;
      SemanticsBeyond(a, rest);
      assert (forall i :: |a| <= i < |b| ==> b[i] == Expression)
        <==> (forall i :: |a| <= i < |rest| ==> rest[i] == Expression) && b[|b| - 1] == Expression;
    } else {
      assert a == b;
    }
  }

  // ---------------------------------------------------------------- scope operations

  /** One call of the environment that answers with nothing but success. */
  function Called(s: State): (bool, State) {
    if s.script == [] then (false, s) else (s.script[0] == Done, s.(script := s.script[1..]))
  }

  function Began(s: State, scope: Scope): (bool, State) {
    var (ok, t) := Called(s);
    if !ok then (false, t)
    else if scope == Semantic then (true, t.(scopes := t.scopes + [Semantic], contexts := t.contexts + [t.context]))
    else (true, t.(scopes := t.scopes + [Expression]))
  }

  /** Begins the expression scope of an attempt, whose semantic scope is open; without it
      the semantic scope is given up. */
  function BeganInside(s: State): (bool, State) {
    var (ok, t) := Began(s, Expression);
    (ok, t.(calls := t.calls + [BeginInside(ok)], unclosed := if ok then t.unclosed else t.unclosed + 1))
  }

  /** The semantic scope of an attempt and the expression scope in it. */
  function BeganBoth(s: State): (bool, State) {
    var (ok, t) := Began(s, Semantic);
    if ok then BeganInside(t) else (false, t)
  }

  predicate Ends(scopes: seq<Scope>, scope: Scope) { scopes != [] && scopes[|scopes| - 1] == scope }

  function Deferred(s: State): (Option<Option<nat>>, State) {
    if !Ends(s.scopes, Expression) then (None, s)
    else
      var t := s.(scopes := s.scopes[..|s.scopes| - 1]);
      if t.script == [] then (None, t)
      else (if t.script[0].Effects? then Some(t.script[0].effects) else None, t.(script := t.script[1..]))
  }

  /** Defers the expression scope above a semantic scope that is being closed; if that fails
      the semantic scope is given up. */
  function DeferredInside(s: State): (Option<Option<nat>>, State) {
    var (effects, t) := Deferred(s);
    var u := if Ends(s.scopes, Expression) then t.(calls := t.calls + [DeferToClose(effects.Some?)]) else t;
    (effects, if effects.None? then u.(unclosed := u.unclosed + 1) else u)
  }

  /** Closes the expression scopes on top, innermost first. */
  function Closed(s: State): (bool, State)
    decreases |s.scopes|
  {
    if !Ends(s.scopes, Expression) then (true, s)
    else
      var (effects, t) := DeferredInside(s);
      if effects.None? then (false, t) else Closed(t)
  }

  /** Removes the semantic scope on top with its saved context, which a rejection brings back. */
  function Popped(s: State, accepted: bool): (bool, State) {
    if !Ends(s.scopes, Semantic) then (false, s)
    else
      var t := s.(scopes := s.scopes[..|s.scopes| - 1]);
      if t.contexts == [] then (false, t)
      else
        var last := |t.contexts| - 1;
        Called(t.(contexts := t.contexts[..last], context := if accepted then t.context else t.contexts[last]))
  }

  /** `finish_semantic_candidate`. */
  function Finished(s: State, accepted: bool): (bool, State) {
    var (ok, t) := if accepted then (true, s) else Closed(s);
    if !ok then (false, t) else Popped(t, accepted)
  }

  /** Closing the expression scope and the semantic scope of one attempt. */
  function ClosedBoth(s: State, accepted: bool): (Option<Option<nat>>, State) {
    var (effects, t) := DeferredInside(s);
    if effects.None? then (None, t)
    else
      var (ok, u) := Finished(t, accepted);
      (if ok then effects else None, u)
  }

  /** Differs from `a` by nothing but answers taken from the script. */
  predicate Asked(a: State, b: State) { |b.script| <= |a.script| && b == a.(script := b.script) }

  lemma AskedRan(a: State, b: State)
    requires Asked(a, b)
    ensures Ran(a, b, true)
  {}

  /** Differs from `a` by answers, scopes and what is said of scopes. */
  ghost predicate OnlyScopes(a: State, b: State) {
    && Asked(a, b.(scopes := a.scopes, contexts := a.contexts, context := a.context, unclosed := a.unclosed, calls := a.calls))
    && a.unclosed <= b.unclosed && a.calls <= b.calls
  }

  lemma OnlyScopesKept(a: State, b: State)
    requires OnlyScopes(a, b)
    ensures Kept(a, b)
  {}

  lemma OnlyScopesThen(a: State, b: State, c: State)
    requires Kept(a, b) && Linked(a, b) && OnlyScopes(b, c) && Linked(b, c)
    ensures Kept(a, c) && Linked(a, c)
  {
    OnlyScopesKept(b, c);
    KeptThen(a, b, c);
    LinkedThen(a, b, c);
  }

  lemma {:induction false} SemanticsPush(scopes: seq<Scope>, scope: Scope)
    ensures Semantics(scopes + [scope]) == Semantics(scopes) + if scope == Semantic then 1 else 0
  {
    assert (scopes + [scope])[..|scopes|] == scopes;
  }

  /** A scope was begun: nothing else happened. */
  ghost predicate Opens(a: State, b: State, scope: Scope) {
    && OnlyScopes(a, b) && Linked(a, b) && b.unclosed == a.unclosed && b.context == a.context
    && b.scopes == a.scopes + [scope] && b.contexts == if scope == Semantic then a.contexts + [a.context] else a.contexts
  }

  lemma BeganOpens(s: State, scope: Scope)
    ensures var (ok, t) := Began(s, scope); if ok then Opens(s, t, scope) else Asked(s, t)
  {}

  lemma BeganInsideOpens(s: State)
    ensures var (ok, t) := BeganInside(s);
            && OnlyScopes(s, t) && Linked(s, t) && (ok ==> Opens(s, t, Expression))
            && (!ok ==> t.unclosed == s.unclosed + 1 && t.scopes == s.scopes && t.contexts == s.contexts)
  {
    assert BeganInside(s).1.calls[|s.calls|] == BeginInside(BeganInside(s).0);
  }

  /** Deferring an expression scope on the way to a semantic one. */
  lemma DeferredInsideSteps(s: State)
    ensures var (effects, t) := DeferredInside(s);
            && OnlyScopes(s, t) && t.contexts == s.contexts && t.context == s.context && Semantics(t.scopes) == Semantics(s.scopes)
            && t.unclosed == s.unclosed + (if effects.Some? then 0 else 1)
            && (if Ends(s.scopes, Expression) then t.scopes == s.scopes[..|s.scopes| - 1] && Linked(s, t) else effects.None? && t.scopes == s.scopes)
  {
    var (effects, t) := DeferredInside(s);
    if Ends(s.scopes, Expression) { assert t.calls[|s.calls|] == DeferToClose(effects.Some?); }
  }

  /** Closing stops at the topmost semantic scope, or where the environment refuses, having
      removed expression scopes only. */
  lemma {:induction false} ClosedScopes(s: State)
    ensures var (ok, t) := Closed(s);
            && OnlyScopes(s, t) && Linked(s, t) && t.contexts == s.contexts && t.context == s.context
            && t.unclosed == s.unclosed + (if ok then 0 else 1)
            && t.scopes <= s.scopes && Semantics(t.scopes) == Semantics(s.scopes)
            && (ok ==> !Ends(t.scopes, Expression))
            && forall i :: |t.scopes| <= i < |s.scopes| ==> s.scopes[i] == Expression
    decreases |s.scopes|
  {
    if Ends(s.scopes, Expression) {
      var (effects, t) := DeferredInside(s);
      DeferredInsideSteps(s);
      if effects.Some? {
        ClosedScopes(t);
        var u := Closed(t).1;
        LinkedThen(s, t, u);
        forall i | |u.scopes| <= i < |s.scopes| ensures s.scopes[i] == Expression {
          if i < |t.scopes| { assert t.scopes[i] == s.scopes[i]; }
        }
      }
    }
  }

  /** A rejecting finish never gives up a semantic scope without a refusal. */
  lemma FinishedLinked(s: State, accepted: bool)
    ensures var t := Finished(s, accepted).1; OnlyScopes(s, t) && Linked(s, t)
  {
    ClosedScopes(s);
  }

  lemma OwnScopeStays(before: seq<Scope>, after: seq<Scope>, base: seq<Scope>)
    requires base + [Semantic] <= before && after <= before
    requires forall i :: |after| <= i < |before| ==> before[i] == Expression
    ensures base + [Semantic] <= after
  {
    assert before[|base|] == Semantic;
    assert |base| < |after|;
  }

  // -------------------------------------------- when scopes can be closed, and when not

  /** How many expression scopes are on top. */
  function Trailing(scopes: seq<Scope>): (n: nat)
    ensures n <= |scopes|
    ensures forall i :: |scopes| - n <= i < |scopes| ==> scopes[i] == Expression
    ensures n < |scopes| ==> scopes[|scopes| - 1 - n] == Semantic
  {
    if Ends(scopes, Expression) then Trailing(scopes[..|scopes| - 1]) + 1 else 0
  }

  /** The next answers defer as many expression scopes. */
  predicate Defers(script: seq<Answer>, n: nat) {
    n <= |script| && forall i :: 0 <= i < n ==> script[i].Effects?
  }

  lemma DefersRest(script: seq<Answer>, n: nat)
    requires script != [] && n > 0
    ensures Defers(script, n) <==> script[0].Effects? && Defers(script[1..], n - 1)
  {
    if script[0].Effects? && Defers(script[1..], n - 1) {
      forall i | 0 <= i < n ensures script[i].Effects? {
        if i > 0 { assert script[1..][i - 1] == script[i]; }
      }
    }
  }

  /** All expression scopes on top can be closed exactly if the environment defers each. */
  lemma {:induction false} ClosesExactly(s: State)
    ensures Closed(s).0 <==> Defers(s.script, Trailing(s.scopes))
    ensures Closed(s).0 ==> Closed(s).1.scopes == s.scopes[..|s.scopes| - Trailing(s.scopes)]
    decreases |s.scopes|
  {
    if Ends(s.scopes, Expression) {
      ClosedNext(s);
      if s.script != [] {
        DefersRest(s.script, Trailing(s.scopes));
        if s.script[0].Effects? { ClosesExactly(DeferredInside(s).1); }
      }
    }
  }

  /** One expression scope is closed before the others, or none is. */
  lemma {:induction false} ClosedNext(s: State)
    requires Ends(s.scopes, Expression)
    ensures var t := DeferredInside(s).1;
            && t.scopes == s.scopes[..|s.scopes| - 1]
            && (if s.script != [] && s.script[0].Effects? then t.script == s.script[1..] && Closed(s) == Closed(t) else !Closed(s).0)
  {}

  lemma {:induction false} SemanticBelow(scopes: seq<Scope>)
    requires Semantics(scopes) > 0
    ensures Trailing(scopes) < |scopes|
  {
    if Trailing(scopes) == |scopes| { SemanticsBeyond([], scopes); }
  }

  /** A rejecting finish gives up its semantic scope if and only if the environment fails to
      defer one of the expression scopes above it; otherwise exactly these scopes are gone. */
  lemma FinishClosesExactly(s: State)
    requires Counted(s) && Semantics(s.scopes) > 0
    ensures Finished(s, false).1.unclosed == s.unclosed <==> Defers(s.script, Trailing(s.scopes))
    ensures Trailing(s.scopes) < |s.scopes|
    ensures Defers(s.script, Trailing(s.scopes)) ==> Finished(s, false).1.scopes == s.scopes[..|s.scopes| - Trailing(s.scopes) - 1]
  {
    ClosedScopes(s);
    ClosesExactly(s);
    SemanticBelow(s.scopes);
  }

  /** Beginning an attempt leaves its semantic scope open if and only if the environment
      agrees to the first call and not to the second. */
  lemma BeginLeavesExactly(s: State)
    ensures BeganBoth(s).1.scopes == s.scopes + [Semantic]
            <==> s.script != [] && s.script[0] == Done && !(|s.script| > 1 && s.script[1] == Done)
    ensures BeganBoth(s).1.unclosed != s.unclosed <==> BeganBoth(s).1.scopes == s.scopes + [Semantic]
  {
    var (ok, t) := Began(s, Semantic);
    if ok { assert BeganInside(t).0 <==> |s.script| > 1 && s.script[1] == Done; }
  }

  /** Closing an attempt with nothing but its own scopes leaves the semantic one open if and
      only if the environment does not defer the other. */
  lemma CloseLeavesExactly(s: State, base: seq<Scope>, accepted: bool)
    requires Counted(s) && s.scopes == base + [Semantic, Expression]
    ensures ClosedBoth(s, accepted).1.scopes == (if Defers(s.script, 1) then base else base + [Semantic])
    ensures ClosedBoth(s, accepted).1.unclosed == s.unclosed <==> Defers(s.script, 1)
  {
    var t := DeferredInside(s).1;
    DeferredInsideSteps(s);
    assert t.scopes == base + [Semantic];
    SemanticsPush(base, Semantic);
    assert t.scopes[..|base|] == base;
  }

  /** Answers with which an attempt leaves its semantic scope open: it cannot begin its
      expression scope, or it cannot defer it in the end. */
  lemma AttemptLeavesScope(s: State, accepted: bool)
    requires Counted(s)
    ensures s.script == [Done, Fault] ==> !BeganBoth(s).0 && BeganBoth(s).1.scopes == s.scopes + [Semantic]
    ensures s.script == [Done, Done, Fault] ==>
              var (ok, t) := BeganBoth(s); ok && ClosedBoth(t, accepted).0.None? && ClosedBoth(t, accepted).1.scopes == s.scopes + [Semantic]
  {
    if s.script == [Done, Done, Fault] {
      var t := BeganBoth(s).1;
      assert t.scopes == s.scopes + [Semantic, Expression] && t.script == [Fault];
      BothCounted(s);
      CloseLeavesExactly(t, s.scopes, accepted);
    }
  }

  lemma BothCounted(s: State)
    requires Counted(s)
    ensures Counted(BeganBoth(s).1)
  {
    SemanticsPush(s.scopes, Semantic);
    SemanticsPush(s.scopes + [Semantic], Expression);
  }

  /** Answers with which a rejecting finish leaves its semantic scope open: what failed inside
      left an expression scope that cannot be deferred. */
  lemma FinishLeavesScope(s: State)
    requires s.script == [Done, Done, Fault]
    ensures var t := Began(Began(s, Semantic).1, Expression).1;
            && t.scopes == s.scopes + [Semantic, Expression]
            && !Finished(t, false).0 && Finished(t, false).1.scopes == s.scopes + [Semantic]
  {
    var t := Began(Began(s, Semantic).1, Expression).1;
    assert t.scopes == s.scopes + [Semantic, Expression];
    assert DeferredInside(t).1.scopes == s.scopes + [Semantic];
  }

  // ------------------------------------------------- scopes around a piece of parsing

  /** Parsing inside an expression scope: closed again, it leaves no trace; left open after
      a failure, it is one more expression scope. */
  lemma ExpressionScopeSteps(a: State, b: State, c: State, ok: bool)
    requires Opens(a, b, Expression) && Ran(b, c, ok)
    ensures Ran(a, c, false)
    ensures ok ==> Ran(a, Deferred(c).1, true)
  {
    SemanticsPush(a.scopes, Expression);
    OnlyScopesKept(a, b);
    KeptThen(a, b, c);
    LinkedThen(a, b, c);
    if ok {
      OnlyScopesThen(a, c, Deferred(c).1);
      assert c.scopes[..|c.scopes| - 1] == a.scopes;
    }
  }

  /** A semantic scope around parsing that succeeded: closed, it leaves no trace, and a
      rejection brings back the context it began with. */
  lemma SemanticScopeSteps(a: State, b: State, c: State, accepted: bool)
    requires Opens(a, b, Semantic) && Kept(b, c) && Linked(b, c) && Balanced(b, c)
    ensures var (ok, d) := Finished(c, accepted);
            Ran(a, d, true) && (!accepted ==> d.context == a.context) && (accepted ==> d.context == c.context)
  {
    OnlyScopesKept(a, b);
    KeptThen(a, b, c);
    LinkedThen(a, b, c);
    var (ok, d) := Finished(c, accepted);
    assert c.scopes[..|c.scopes| - 1] == a.scopes && c.contexts[..|c.contexts| - 1] == a.contexts;
    OnlyScopesThen(a, c, d);
  }

  /** Parsing since `a` that still has its own semantic scope open. */
  ghost predicate Above(a: State, s: State) {
    && Kept(a, s) && Counted(s)
    && a.scopes <= s.scopes && a.scopes + [Semantic] <= s.scopes
    && a.contexts <= s.contexts && a.contexts + [a.context] <= s.contexts
    && Semantics(s.scopes) + a.unclosed == Semantics(a.scopes) + 1 + s.unclosed
  }

  lemma {:induction false} AboveCloses(a: State, s: State)
    requires Above(a, s)
    ensures var (ok, t) := Closed(s); if ok then Above(a, t) else Kept(a, t) && Scoped(a, t)
  {
    var t := Closed(s).1;
    ClosedScopes(s);
    OwnScopeStays(s.scopes, t.scopes, a.scopes);
    OnlyScopesKept(s, t);
    KeptThen(a, s, t);
  }

  lemma AbovePops(a: State, s: State, accepted: bool)
    requires Above(a, s) && Ends(s.scopes, Semantic)
    ensures var t := Popped(s, accepted).1; Kept(a, t) && Scoped(a, t)
  {
    var t := Popped(s, accepted).1;
    PrefixBelow(a.scopes, s.scopes);
    PrefixBelow(a.contexts, s.contexts);
    PoppedCounts(s, accepted);
    OnlyScopesKept(s, t);
    KeptThen(a, s, t);
  }

  lemma PoppedCounts(s: State, accepted: bool)
    requires Counted(s) && Ends(s.scopes, Semantic)
    ensures var t := Popped(s, accepted).1;
            && t.scopes == s.scopes[..|s.scopes| - 1] && t.contexts == s.contexts[..|s.contexts| - 1]
            && Semantics(t.scopes) + 1 == Semantics(s.scopes) && t.unclosed == s.unclosed
            && OnlyScopes(s, t)
  {}

  lemma PrefixBelow<T>(base: seq<T>, s: seq<T>)
    requires base <= s && |base| < |s|
    ensures base <= s[..|s| - 1]
  {}

  /** What lies below the own semantic scope survives closing it. */
  lemma AboveFinishes(a: State, s: State)
    requires Above(a, s)
    ensures var t := Finished(s, false).1; Kept(a, t) && Scoped(a, t)
  {
    AboveCloses(a, s);
    ClosedScopes(s);
    var (ok, t) := Closed(s);
    if ok {
      TopIsSemantic(a.scopes, t.scopes);
      AbovePops(a, t, false);
    }
  }

  lemma TopIsSemantic(base: seq<Scope>, scopes: seq<Scope>)
    requires base + [Semantic] <= scopes && !Ends(scopes, Expression)
    ensures Ends(scopes, Semantic)
  {}

  lemma AboveBegins(a: State, b: State, c: State, ok: bool)
    requires Counted(c) && Opens(a, b, Semantic) && Ran(b, c, ok)
    ensures Above(a, c) && Linked(a, c)
  {
    OnlyScopesKept(a, b);
    KeptThen(a, b, c);
    LinkedThen(a, b, c);
    SemanticsPush(a.scopes, Semantic);
  }

  /** A semantic scope around parsing that failed: closing it removes every expression
      scope above it and, when the environment refused nothing on which a semantic scope
      hung, restores exactly the scopes and the context it began with. */
  lemma SemanticScopeFails(a: State, b: State, c: State)
    requires Counted(a) && Counted(c) && Opens(a, b, Semantic) && Ran(b, c, false)
    ensures var (ok, d) := Finished(c, false);
            && Ran(a, d, false)
            && (ok && Granted(b, c) ==> Balanced(a, d) && d.context == a.context)
  {
    AboveBegins(a, b, c, false);
    AboveFinishes(a, c);
    FinishedLinked(c, false);
    OnlyScopesThen(a, c, Finished(c, false).1);
    if Finished(c, false).0 && Granted(b, c) {
      SemanticsPush(a.scopes, Semantic);
      FinishRestores(a, b, c);
    }
  }

  lemma FinishRestores(a: State, b: State, c: State)
    requires Opens(a, b, Semantic) && Ran(b, c, false) && Granted(b, c)
    requires |c.contexts| == Semantics(c.scopes) && |b.contexts| == Semantics(b.scopes) && Finished(c, false).0
    ensures Balanced(a, Finished(c, false).1) && Finished(c, false).1.context == a.context
  {
    SemanticsBeyond(b.scopes, c.scopes);
    ClosedScopes(c);
    var (ok, t) := Closed(c);
    OwnScopeStays(c.scopes, t.scopes, a.scopes);
    assert t.scopes == b.scopes;
    assert c.contexts == b.contexts;
  }

  /** One attempt has a semantic scope and an expression scope in it. */
  lemma AttemptSteps(a: State, b: State, c: State, d: State, accepted: bool)
    requires Opens(a, b, Semantic) && Opens(b, c, Expression) && Ran(c, d, true)
    ensures var (effects, e) := ClosedBoth(d, accepted);
            && (effects.Some? ==> Ran(a, e, true) && (!accepted ==> e.context == a.context))
            && (effects.None? ==> Ran(a, e, false))
  {
    ExpressionScopeSteps(b, c, d, true);
    var (effects, t) := DeferredInside(d);
    DeferredInsideSteps(d);
    assert t.scopes == b.scopes;
    OnlyScopesThen(b, d, t);
    if effects.None? {
      OnlyScopesKept(a, b);
      KeptThen(a, b, t);
      LinkedThen(a, b, t);
      SemanticsPush(a.scopes, Semantic);
    } else {
      SemanticScopeSteps(a, b, t, accepted);
      RanFails(a, Finished(t, accepted).1);
    }
  }

  lemma AttemptFails(a: State, b: State, c: State, d: State)
    requires Counted(a) && Counted(d)
    requires Opens(a, b, Semantic) && Opens(b, c, Expression) && Ran(c, d, false)
    ensures Ran(a, ClosedBoth(d, false).1, false)
  {
    ExpressionScopeSteps(b, c, d, false);
    AboveBegins(a, b, d, false);
    AboveDefers(a, d);
    var (effects, t) := DeferredInside(d);
    DeferredInsideSteps(d);
    if effects.Some? {
      OnlyScopesThen(a, d, t);
      AboveFinishes(a, t);
      FinishedLinked(t, false);
      OnlyScopesThen(a, t, Finished(t, false).1);
    } else if Ends(d.scopes, Expression) {
      OnlyScopesThen(a, d, t);
    } else {
      SemanticLeftOver(c.scopes, d.scopes);
      assert !Granted(c, d) && !Granted(a, t);
    }
  }

  lemma {:induction false} SemanticLeftOver(base: seq<Scope>, scopes: seq<Scope>)
    requires Ends(base, Expression) && base <= scopes && !Ends(scopes, Expression)
    ensures Semantics(base) < Semantics(scopes)
  {
    SemanticsBeyond(base, scopes);
    assert scopes != base;
  }

  /** Rejects the scope on top, whichever kind it is: a semantic one was given up before, and
      is now closed after all. */
  function Dropped(s: State): (bool, State)
    requires Ends(s.scopes, Semantic) ==> s.unclosed > 0
  {
    if Ends(s.scopes, Expression) then (DeferredInside(s).0.Some?, DeferredInside(s).1)
    else
      var (ok, t) := Finished(s, false);
      (ok, if ok then t.(unclosed := s.unclosed - 1) else t)
  }

  /** Above the own scope everything can be closed, one scope at a time, for as long as the
      environment agrees. */
  lemma AboveDrops(a: State, s: State)
    requires Counted(a) && Above(a, s) && |s.scopes| > |a.scopes| + 1
    ensures Ends(s.scopes, Semantic) ==> s.unclosed > 0
    ensures var (ok, t) := Dropped(s); if ok then Above(a, t) && |t.scopes| < |s.scopes| else Kept(a, t) && Scoped(a, t)
  {
    if Ends(s.scopes, Expression) {
      AboveDefers(a, s);
      DeferredInsideSteps(s);
    } else {
      AbovePopsInner(a, s);
      AbovePops(a, s, false);
    }
  }

  /** A semantic scope above the own one was given up before. */
  lemma {:induction false} InnerWasGivenUp(base: seq<Scope>, scopes: seq<Scope>)
    requires base + [Semantic] <= scopes && |scopes| > |base| + 1 && Ends(scopes, Semantic)
    ensures base <= scopes[..|scopes| - 1] && base + [Semantic] <= scopes[..|scopes| - 1]
    ensures Semantics(scopes) >= Semantics(base) + 2
  {
    PrefixBelow(base, scopes);
    PrefixBelow(base + [Semantic], scopes);
    SemanticsPush(base, Semantic);
    SemanticsBeyond(base + [Semantic], scopes[..|scopes| - 1]);
  }

  lemma AbovePopsInner(a: State, s: State)
    requires Counted(a) && Above(a, s) && |s.scopes| > |a.scopes| + 1 && Ends(s.scopes, Semantic)
    ensures s.unclosed > a.unclosed
    ensures var t := Popped(s, false).1; Above(a, t.(unclosed := s.unclosed - 1)) && |t.scopes| < |s.scopes|
  {
    var t := Popped(s, false).1;
    PoppedCounts(s, false);
    InnerWasGivenUp(a.scopes, s.scopes);
    PrefixBelow(a.contexts, s.contexts);
    PrefixBelow(a.contexts + [a.context], s.contexts);
    OnlyScopesKept(s, t);
    KeptThen(a, s, t);
    KeptLess(a, t, s.unclosed - 1);
  }

  lemma KeptLess(a: State, t: State, unclosed: nat)
    requires Kept(a, t) && a.unclosed <= unclosed
    ensures Kept(a, t.(unclosed := unclosed))
  {}

  lemma AboveDefers(a: State, d: State)
    requires Above(a, d) && |d.scopes| > |a.scopes| + 1
    ensures var (effects, t) := DeferredInside(d); if effects.Some? then Above(a, t) else Kept(a, t) && Scoped(a, t)
  {
    var t := DeferredInside(d).1;
    DeferredInsideSteps(d);
    OnlyScopesKept(d, t);
    KeptThen(a, d, t);
  }

  /** The scope operations keep the count of saved contexts. */
  lemma ScopesStayCounted(s: State, scope: Scope, accepted: bool)
    requires Counted(s)
    ensures Counted(Began(s, scope).1) && Counted(BeganInside(s).1) && Counted(Deferred(s).1) && Counted(DeferredInside(s).1)
    ensures Counted(Finished(s, accepted).1) && Counted(ClosedBoth(s, accepted).1)
  {
    SemanticsPush(s.scopes, scope);
    SemanticsPush(s.scopes, Expression);
    DeferredInsideSteps(s);
    FinishedCounts(s, accepted);
    FinishedCounts(DeferredInside(s).1, accepted);
  }

  lemma PoppedStaysCounted(s: State, accepted: bool)
    requires Counted(s)
    ensures Counted(Popped(s, accepted).1)
  {}

  lemma FinishedCounts(s: State, accepted: bool)
    requires Counted(s)
    ensures Counted(Finished(s, accepted).1)
  {
    ClosedScopes(s);
  }
}
