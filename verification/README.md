# Verification of the native Skript parser

A Dafny 4.11 model of the recursive, memoised and transactional parser in
`skript-parser` and of two bounded procedures in `core-library`, with proofs over every
input, every run and every environment. `dafny verify dfyconfig.toml` checks all of it.

## What is modelled

| module | subject |
|---|---|
| `Text` | ranges, trimming, and the scanners that find the end of a quote, a variable or a parenthesis |
| `Patterns` | pattern trees, what the matcher reaches in an input, and the expansions of a pattern |
| `Prefilter`, `PrefilterMirror`, `PrefilterSoundness`, `PrefilterExactness` | the literal filters in front of the matcher: how they are computed, that leading and trailing ones mirror each other, that they cover every expansion, and on exactly which inputs they can be trusted |
| `CandidateIndex` | the index by first character, the caches around it, and its agreement with a linear scan |
| `Expressions`, `SessionNodes` | nodes, the types and multiplicities they must have, and how each kind of node is built |
| `SessionState`, `ExpressionSession` | the expression session as a class: memo, active requests, speculative scopes, saved contexts, resolved nodes and ids; conditions and effects inside captures run on it too |
| `CallSyntax`, `FunctionCalls` | splitting calls into arguments, binding them to parameters, and giving every child one owner |
| `Arithmetic`, `ArithmeticTrees` | operator scan, root candidates, and the tree that recursive splitting gives |
| `ExpressionLists` | splitting lists at their delimiters, and the conjunction of a segmentation |
| `ExpansionGraph` | validation of the expansion graph, backtraces, and extension |
| `Selection` | the selection loops of effects and conditions over a context and an overlay |
| `FailureTraces` | ranking failures and keeping the best |
| `DefaultEventValues` | default values taken from the events of a context |
| `CatalogReads` | paged and chunked reads from a host, and the bounded contract cache |

Text is a sequence of characters and positions are character positions. What the session
is given - environment, pattern matcher, event test, type relations - may be anything: the
environment and the matcher answer from a finite script over which every statement
quantifies, so each run that ends is covered, with failures at any call. A script that is
used up answers with a failure.

The state of a session is a class, as in the source; its value (`S()`) is used to say what
a method does. `Ran(before, after, ok)` is what every piece of parsing keeps; `Valid()`
bounds the memo, ties saved contexts to semantic scopes, types every memo entry, and holds
the record of every growth, whether it came to its end or a round of it failed, so that
what is said of one request is said of all requests at all depths of a run.

## Where the code and its intention part

- The prefilter trims nothing: an input with a blank at either end, unless it is all
  blanks, has a matching pattern that is dropped. `PrefilterTrustedExactly` gives the exact
  condition; text that is trimmed first meets it.
- A required literal with two adjacent spaces inside can drop a pattern that matches, since
  the matcher lets spaces flow and the containment test does not.
  `RequiredLiteralTrustedExactly` gives the condition, `DoubleSpacePatternDropped` an input.
- `left_recursive` is exact for patterns whose choices have branches; with an empty choice it
  can be true of a pattern that has no expansion (`LeftRecursiveNeedsBranches`).
- A failing request leaves an entry for its key in the memo if and only if it failed before
  it was activated - past the depth limit, outside the source, or when the environment has
  no revision - and the key was memoized before (`ParsePrefixes`). `AskedTooDeep` asks
  a memoized request twice, the second time beyond the depth limit.
- Semantic scopes can stay open after a failure. A failing run leaves nothing but expression
  scopes if and only if the environment agreed, throughout the run, to begin the expression
  scope of every attempt and to defer every expression scope above a semantic one that was
  being closed (`FailureLeavesExpressionScopes`). There are two ways to the exception: an
  attempt begins its semantic scope and is refused the expression scope inside it
  (`BeginLeavesExactly`), or an expression scope above a semantic one cannot be deferred
  (`FinishClosesExactly`, `CloseLeavesExactly`). `AttemptLeavesScope` and
  `FinishLeavesScope` give the answers from the beginning on, `ScopeLeftOpen` a run. A
  recovery scope closes what was left open of either kind.
- An error behind an accepted effect candidate leaves the overlay of that candidate with the
  context of the beginning (`SelectEffect`); conditions stop at the first acceptance and have
  no such case.
- The order of event classes decides a default value only when one class cannot be looked up
  and another is ambiguous (`OrderKeepsKind`, `OrderDecidesKind`).
- The byte limit of a lookup counts the lengths a host declares. A host whose chunks stay
  inside them is held to the limit in fact (`RegistrationRecords`); one that declares
  nothing and serves anything is not (`OverrunningRecord`).
- Cache keys join digest and id with a NUL and are unique for digests without one.

## Model

| member | source | states |
|---|---|---|
| ExpressionSession.ExpressionSession.ParsePrefixes | skript-parser/src/expression.rs:2186-2300 | The answer to a request, for every environment and every nested run: past the depth limit or outside the source it fails and changes nothing; a memoized request, and one that is being parsed itself, gets the current memo entry or nothing; any other, if the memo has room, grows a seed whose record covers all that happened meanwhile, and is memoized exactly when it succeeds. A failing call leaves an entry for its key exactly if it failed before activation and the key was memoized. Whatever happens inside, the requests being parsed are the same before and after, memo entries of others stay, the memo keeps its bound, resolved nodes stay, re-entrant requests were served with the seed of the moment, scopes balance on success, and every candidate fits the expected types and is listed once |
| ExpressionSession.ExpressionSession.GrowSeed | skript-parser/src/expression.rs:2232-2299 | Rounds without the memo extend one duplicate-free list, each strictly but the last, at most `max_depth + 1` after the seed, until nothing is added; when a round fails the rounds before it are recorded all the same. In both cases the record shows that every re-entrant request got nothing before the seed and then exactly the round stored last |
| ExpressionSession.ExpressionSession.PlantSeed | skript-parser/src/expression.rs:2233-2262 | The seed is memoized only if the memo still has room; before that, and in all of a failing parse, re-entrant requests got nothing |
| ExpressionSession.ExpressionSession.GrowOnce | skript-parser/src/expression.rs:2264-2289 | One more round extends the candidates and stores them in their place, as one more round of the same growth, and says whether anything was added; a failing one leaves the rounds as they were |
| ExpressionSession.ExpressionSession.Store | skript-parser/src/expression.rs:2256-2285 | Storing a round replaces the entry of its own key and marks when it was stored; nothing else changes |
| ExpressionSession.ExpressionSession.ParseRound | skript-parser/src/expression.rs:2264-2278 | A round leaves the own entry alone, keeps everything else, and extends the list without repeating or retyping a candidate |
| ExpressionSession.ExpressionSession.RecordGrowth | skript-parser/src/expression.rs:2232-2299 | A finished growth joins the record of all growths, each of which keeps its shape and its re-entrant answers for the rest of the run |
| ExpressionSession.ExpressionSession.RecordFailure | skript-parser/src/expression.rs:2232-2299 | So does a growth whose next round failed, with the rounds it had |
| ExpressionSession.ExpressionSession.AskedTooDeep | skript-parser/src/expression.rs:2198-2220 | A memoized request that is asked twice, the second time beyond the depth limit, is answered and then fails, and its entry stays |
| ExpressionSession.ExpressionSession.ParseNew | skript-parser/src/expression.rs:2222-2299 | An unknown request becomes active, is parsed, and is inactive again; its entry is the answer or is gone, and its growth is on record unless the memo had no room |
| ExpressionSession.ExpressionSession.Deactivate | skript-parser/src/expression.rs:2295-2298 | Ending a request restores the active set exactly and forgets the answer of a failure |
| ExpressionSession.ExpressionSession.Activate | skript-parser/src/expression.rs:2222-2230 | A request is activated only while the memo has room |
| ExpressionSession.ExpressionSession.Recall | skript-parser/src/expression.rs:2219-2224 | A known request is answered from the memo, or with nothing, and only the log of requests grows |
| ExpressionSession.ExpressionSession.ExtendUnique | skript-parser/src/expression.rs:2731-2746 | Appends exactly the candidates not there yet, in order, counting each addition |
| ExpressionSession.ExpressionSession.CountCandidate | skript-parser/src/expression.rs:3456-3465 | The limit counts every candidate the session ever added |
| ExpressionSession.Extended | skript-parser/src/expression.rs:2731-2746 | Extending keeps the list as a prefix, keeps it free of duplicates, and has the members of both |
| ExpressionSession.InsideThen | skript-parser/src/expression.rs:2232-2294 | Nested parsing for one active request keeps everything kept since before it was activated |
| SessionState.GrowingServes | skript-parser/src/expression.rs:2219-2224 | While a request is active, what is parsed meanwhile is served with its current seed |
| SessionState.GrowingNext | skript-parser/src/expression.rs:2256-2285 | Storing a round changes later re-entrant answers and none of the earlier ones |
| SessionState.AnswersStay | skript-parser/src/expression.rs:2219-2299 | What a request asked in some context got as its first answer, or that it got nothing, stays so through all further parsing |
| SessionState.RanThen | skript-parser/src/expression.rs:2186-2300 | What successful parsing keeps carries over to whatever runs after it |
| SessionState.FailureLeavesExpressionScopes | skript-parser/src/expression.rs:1949-1992 | A failing run leaves nothing but expression scopes on top if and only if the environment refused, during the run, neither the expression scope of an attempt nor to defer one above a semantic scope that was being closed |
| SessionState.FinishClosesExactly | skript-parser/src/expression.rs:1970-1983 | A rejecting finish gives up its semantic scope if and only if one of the next answers, one for each expression scope on top, does not defer; else exactly these scopes and the semantic one are gone |
| SessionState.BeginLeavesExactly | skript-parser/src/arithmetic.rs:60-65 | Beginning an attempt leaves its semantic scope open if and only if the first answer agrees and the second does not |
| SessionState.CloseLeavesExactly | skript-parser/src/arithmetic.rs:70-94 | Closing an attempt that has nothing but its own scopes leaves the semantic one open if and only if the next answer does not defer |
| SessionState.AttemptLeavesScope | skript-parser/src/function.rs:331-370 | From a beginning on: the answers with which an attempt leaves its semantic scope open, at its begin or at its end |
| SessionState.FinishLeavesScope | skript-parser/src/expression.rs:1963-1974 | From a beginning on: the answers with which a rejection leaves the semantic scope open because an expression scope left inside cannot be deferred |
| ExpressionSession.ScopeLeftOpen | skript-parser/src/arithmetic.rs:60-65 | A run from a session without scopes that fails and leaves a semantic scope open |
| SessionState.LinkedThen | skript-parser/src/expression.rs:1949-1992 | That semantic scopes are given up exactly by refusals carries over from piece to piece of a run |
| SessionState.ClosedScopes | skript-parser/src/expression.rs:1971-1973 | A rejection removes only expression scopes before it reaches the semantic one, innermost first, and stops exactly where the environment refuses |
| SessionState.ExpressionScopeSteps | skript-parser/src/expression.rs:1949-1961 | An expression scope around successful parsing leaves no trace once closed; around failed parsing it is one more expression scope |
| SessionState.SemanticScopeSteps | skript-parser/src/expression.rs:1963-1983 | A semantic scope around successful parsing leaves no trace once closed, and a rejection brings back the context it began with |
| SessionState.SemanticScopeFails | skript-parser/src/expression.rs:1963-1983 | Closing a semantic scope over failed parsing removes every expression scope above it and, if the environment refused nothing on which a semantic scope hung, restores exactly the scopes and the context of its beginning |
| SessionState.FinishRestores | skript-parser/src/expression.rs:1970-1983 | A rejecting finish without such refusals before it ends in the very scopes, saved contexts and context of the matching begin |
| SessionState.AttemptSteps | skript-parser/src/arithmetic.rs:60-85 | The scope pair of an attempt closes without a trace, or its semantic scope is given up by a refusal |
| SessionState.AttemptFails | skript-parser/src/arithmetic.rs:86-94 | Closing the scope pair after an error leaves as many semantic scopes as were given up, and none without a refusal |
| SessionState.ScopesStayCounted | skript-parser/src/expression.rs:1949-1991 | Every scope operation, successful or not, keeps one saved context for each open semantic scope |
| SessionState.AboveFinishes | skript-parser/src/expression.rs:1970-1983 | Closing the own semantic scope never reaches below it, whatever is left above, and the count of what is left open stays exact |
| SessionState.AboveDrops | skript-parser/src/expression.rs:2008-2020 | Scopes above the own one can be rejected one at a time without touching what lies below |
| ExpressionSession.ExpressionSession.BeginExpression | skript-parser/src/expression.rs:1949-1953 | An expression scope is on top exactly when the environment agreed |
| ExpressionSession.ExpressionSession.DeferExpression | skript-parser/src/expression.rs:1955-1961 | Closes an expression scope on top, and nothing when another kind is |
| ExpressionSession.ExpressionSession.EndExpression | skript-parser/src/expression.rs:2548-2553 | Parsing inside an expression scope of its own ends without a trace, or leaves that scope open when it failed |
| ExpressionSession.ExpressionSession.BeginSemantic | skript-parser/src/expression.rs:1963-1968 | A semantic scope and the present context are saved together or not at all |
| ExpressionSession.ExpressionSession.FinishSemantic | skript-parser/src/expression.rs:1970-1983 | Accepting keeps the context, rejecting closes the expression scopes above and brings back the saved one; out of order it fails |
| ExpressionSession.ExpressionSession.CloseExpressions | skript-parser/src/expression.rs:1971-1973 | Closes expression scopes from the innermost on until another kind is on top |
| ExpressionSession.ExpressionSession.CloseAttempt | skript-parser/src/arithmetic.rs:66-94 | Closes the expression scope and then the semantic scope of one attempt |
| ExpressionSession.ExpressionSession.BeginRecovery | skript-parser/src/expression.rs:1993-2000 | The checkpoint remembers the scope depth and the first id to come |
| ExpressionSession.ExpressionSession.FinishRecovery | skript-parser/src/expression.rs:2002-2034 | A rejection restores the scopes, saved contexts, context, resolved nodes and ids of the checkpoint exactly and empties the memo; a success that left scopes open is refused |
| ExpressionSession.ExpressionSession.CloseAbove | skript-parser/src/expression.rs:2007-2020 | Every scope above the own one is rejected, innermost first, until the own one is on top |
| ExpressionSession.ExpressionSession.Abort | skript-parser/src/expression.rs:2022-2029 | Resolved nodes and ids are those of the checkpoint again and the memo is empty |
| ExpressionSession.ExpressionSession.DropNodes | skript-parser/src/expression.rs:2024-2027 | Exactly the nodes resolved from an id on are forgotten |
| ExpressionSession.OwnScopeLeft | skript-parser/src/expression.rs:2021-2021 | With only the own scope left, finishing it ends in the scopes before it |
| ExpressionSession.ExpressionSession.ParseRecoverably | skript-parser/src/structure.rs:347-353 | Parsing between begin and finish of recovery: after a failure the session is as before except for an empty memo; after a success everything kept by parsing is kept |
| ExpressionSession.ExpressionSession.RecoverFailures | skript-parser/src/expression.rs:1799-1832 | Matching again for failures only leaves resolved nodes, ids and context as they were |
| ExpressionSession.ExpressionSession.SelectExpression | skript-parser/src/expression.rs:1671-1686 | Exactly one call for each piece of deferred work of the node, or of the nodes below it, in order, until one is refused; nothing else of the session is touched |
| ExpressionSession.ExpressionSession.RunMatcher | skript-parser/src/expression.rs:4210-4216 | Matching, with all the parsing it asks for, keeps what parsing keeps |
| ExpressionSession.ExpressionSession.ResolveType | skript-parser/src/expression.rs:4446-4515 | Every resolution with an id names a stored node that fits the type of its alternative |
| ExpressionSession.ExpressionSession.StoreResolutions | skript-parser/src/expression.rs:4494-4509 | New nodes get fresh ids; stored ones are untouched |
| ExpressionSession.ResolvedLater | skript-parser/src/expression.rs:4446-4515 | Resolutions stay valid while more is resolved |
| ExpressionSession.ExpressionSession.CompleteDefault | skript-parser/src/expression.rs:4248-4444 | An omitted capture gets the default value of the first alternative that has an acceptable one, and no node when none has |
| ExpressionSession.ExpressionSession.ParseCapture | skript-parser/src/expression.rs:3013-3050 | A capture is parsed in its own context, and the present one comes back; an expression capture parses exactly if an answer for its range reaches the end of it |
| ExpressionSession.ExpressionSession.ParseRouted | skript-parser/src/condition.rs:143-190 | Conditions and effects in captures, through parentheses: selected exactly if a candidate was accepted, in the context of the first accepted one, or else in the initial context |
| ExpressionSession.ExpressionSession.SelectFrom | skript-parser/src/condition.rs:199-297 | The context at the end is the one the first accepted candidate ended in, or that of the beginning when none was accepted; effects try every candidate, conditions stop at the first accepted one |
| ExpressionSession.ExpressionSession.NextCandidate | skript-parser/src/effect.rs:284-320 | Every candidate starts in the initial context; only the first accepted one is kept |
| ExpressionSession.ExpressionSession.RoutedCandidate | skript-parser/src/effect.rs:303-328 | A candidate that is not kept leaves the context of its beginning; one that is kept leaves its own |
| ExpressionSession.ExpressionSession.RegisteredAt | skript-parser/src/expression.rs:2495-2553 | A registered expression fits what is expected and its scopes balance |
| ExpressionSession.ExpressionSession.AttemptMatch | skript-parser/src/expression.rs:2519-2546 | A rejected match restores the context before it; the node of an accepted one has its registration and range |
| ExpressionSession.ExpressionSession.ResolveMatch | skript-parser/src/expression.rs:2914-3360 | An accepted match matches the expected types and multiplicity as declared or as resolved |
| ExpressionSession.ExpressionSession.DecideType | skript-parser/src/expression.rs:3227-3330 | A static type that nothing may resolve is taken as declared; otherwise the environment rejects it, leaves it or puts another in its place; either is kept only if it matches |
| ExpressionSession.ExpressionSession.ParseArithmetic | skript-parser/src/arithmetic.rs:27-100 | The node for the first end that has one, at the first root candidate, of the first operation in registration order whose operands both have answers; none exactly because everywhere an operand is blank or has no answer |
| ExpressionSession.ExpressionSession.TryRoot | skript-parser/src/arithmetic.rs:47-98 | The first operation of a root that can be built, or every one that returns what is expected lacks an operand |
| ExpressionSession.ExpressionSession.TryOperation | skript-parser/src/arithmetic.rs:60-94 | The node holds the first memoized answers for the trimmed text on either side of the operator, parsed as the operand types of the operation, to requests asked during the attempt: the left one in its context, the right one behind it; a failed attempt restores the context and means that an operand is missing |
| ExpressionSession.ExpressionSession.ParseOperation | skript-parser/src/arithmetic.rs:102-175 | Both operands are first answers for their own side and type, asked here and now |
| ExpressionSession.ExpressionSession.BeginAttempt | skript-parser/src/arithmetic.rs:60-65 | Both scopes of an attempt are begun, or it fails and the one that stays open is accounted for |
| ExpressionSession.ExpressionSession.ParseFunction | skript-parser/src/function.rs:251-318 | The only exact definition that binds; without any, the only one of a list signature that does; nothing when several do |
| ExpressionSession.ExpressionSession.SelectUnique | skript-parser/src/function.rs:320-382 | Definitions are tried in order up to the second that binds: none, the only one, or ambiguous |
| ExpressionSession.ExpressionSession.TryDefinition | skript-parser/src/function.rs:331-373 | A definition that binds gives a call over the whole range that owns its children, if the definition is well formed; one that does not bind restores the context before it |
| ExpressionSession.ExpressionSession.ParseDefinition | skript-parser/src/function.rs:384-491 | A call built from a well-formed definition, whichever way its arguments were bound, owns its children |
| ExpressionSession.ExpressionSession.BuildCandidate | skript-parser/src/function.rs:583-660 | Each parameter owns the block of children that comes, in order, from the first answers for its own values |
| ExpressionSession.ExpressionSession.CollectValues | skript-parser/src/function.rs:594-605 | The nodes of a parameter are what it takes of the first answer for each of its values, in order, each asked meanwhile |
| ExpressionSession.ExpressionSession.ValidLeaf | skript-parser/src/expression.rs:3366-3392 | Exactly the leaves in range, at a requested end, of an allowed kind, with owned children and matching type and multiplicity are taken |
| ExpressionSession.ExpressionSession.TakeLeaves | skript-parser/src/expression.rs:2408-2467 | Valid leaves keep their order, split into those for now and those behind registered expressions, and all fit |
| ExpressionSession.ExpressionSession.ParseGroup | skript-parser/src/expression.rs:2320-2388 | A parenthesised expression takes its end from the ends left for others, and its candidates are all that the memo has for the text inside, grouped |
| ExpressionSession.ExpressionSession.GroupInside | skript-parser/src/expression.rs:2336-2383 | The groups wrap, one for one, all that the memo has for the text between the parentheses, asked in the present context |
| ExpressionSession.ExpressionSession.ParseLists | skript-parser/src/expression.rs:2576-2729 | Every list reaches from the range start to a requested end, with children as `ListAt` describes them |
| ExpressionSession.ExpressionSession.ListAt | skript-parser/src/expression.rs:2587-2727 | A list over a range has two or more children that take all its pieces in consecutive runs; each is the first memoized answer for the text of its run, no shorter run from the same piece had an answer, and the conjunction is the one the delimiters between the runs give |
| ExpressionSession.ExpressionSession.ParseMembers | skript-parser/src/expression.rs:2599-2659 | A list of all its members is built only for a plural expectation |
| ExpressionSession.ExpressionSession.ParseSegments | skript-parser/src/expression.rs:2597-2645 | The children cover the pieces from the first to the last without gap or overlap, never all in one |
| ExpressionSession.ExpressionSession.NextSegment | skript-parser/src/expression.rs:2603-2627 | The shortest run of pieces that has an answer, or none has one |
| ExpressionSession.ExpressionSession.ParseUncached | skript-parser/src/expression.rs:2303-2574 | Every candidate, of whatever origin, fits what is expected, and the run keeps what parsing keeps |
| ExpressionSession.ExpressionSession.ParseCompleteRange | skript-parser/src/expression.rs:1688-1733 | The selected expression takes the whole range and fits |
| SessionNodes.ListFits | skript-parser/src/expression.rs:2652-2699 | A list of fitting members fits as a whole, at every multiplicity its conjunction gives |
| SessionNodes.CoveringAll | skript-parser/src/expression.rs:2597-2650 | Runs that cover all pieces are a segmentation whose inner starts each have a delimiter in front |
| Patterns.MatchLiteralConcat | skript-parser/src/pattern_match.rs:2942-2975 | Matching literals composes: a concatenation matches exactly when its parts match one behind the other |
| Patterns.WalkIsExpansion | skript-parser/src/pattern_match.rs:2007-2307 | Whatever the matcher reaches through choices, options and groups it reaches by one expansion of the pattern |
| Patterns.ExpansionIsWalk | skript-parser/src/pattern_match.rs:2007-2307 | And whatever an expansion reaches, the matcher can reach |
| Prefilter.LeadingPrefixStates | skript-parser/src/expression.rs:3885-3934 | The loop over the pattern computes the leading states, with the cap of 256 |
| Prefilter.TrailingSuffixStates | skript-parser/src/expression.rs:3816-3868 | The backward loop computes the trailing states, with the cap of 256 |
| Prefilter.RequiredLiteralBranches | skript-parser/src/expression.rs:3693-3731 | The loop computes the branches of required literals, with the cap of 256 |
| Prefilter.StartsWithSkriptLiteral | skript-parser/src/expression.rs:3978-4003 | The cursor loop decides whether an input starts with a literal, spaces being flexible |
| Prefilter.EndsWithSkriptLiteral | skript-parser/src/expression.rs:3951-3976 | The backward cursor loop decides whether an input ends with a literal |
| Prefilter.FirstElementOf | skript-parser/src/expression.rs:3733-3746 | The loop decides whether a sequence can start with a type and whether it can be empty |
| Prefilter.NewPrefilter | skript-parser/src/expression.rs:3587-3597 | All parts of a prefilter are those of its pattern |
| PrefilterSoundness.LeadingCovers | skript-parser/src/expression.rs:3885-3949 | Every expansion, through nested choices, options and the cap, has a leading state that is a prefix of its literals before the first hole |
| PrefilterSoundness.TrailingCovers | skript-parser/src/expression.rs:3816-3883 | Every expansion has a trailing state that is a suffix of its literals behind the last hole |
| PrefilterSoundness.RequiredCovers | skript-parser/src/expression.rs:3693-3731 | Every expansion has a branch of required literals that asks only for its own trimmed, lowercased literals |
| PrefilterSoundness.MinimumLengthCovers | skript-parser/src/expression.rs:3627-3648 | Every expansion has at least as many visible characters as the minimum length |
| PrefilterSoundness.LeftRecursiveExactly | skript-parser/src/expression.rs:3689-3768 | A pattern without empty choices is left recursive exactly when one of its expansions starts with a type |
| PrefilterSoundness.LeftRecursiveNeedsBranches | skript-parser/src/expression.rs:3733-3768 | With an empty choice it is not so: a pattern without any expansion is called left recursive |
| PrefilterMirror.TrailingIsMirroredLeading | skript-parser/src/expression.rs:3816-3949 | Trailing states are, one by one, the reversed leading states of the reversed pattern |
| PrefilterMirror.MirroredExpansion | skript-parser/src/expression.rs:3816-3934 | The expansions of the reversed pattern are the reversed expansions |
| PrefilterExactness.StartsExactly | skript-parser/src/expression.rs:3978-4003 | Where no blank opens the input, the forward scan accepts a prefix exactly if it can be aligned with the start |
| PrefilterExactness.EndsExactly | skript-parser/src/expression.rs:3951-3976 | Where no blank ends the input, the backward scan accepts a suffix exactly if it can be aligned with the end |
| PrefilterExactness.AlignedMirror | skript-parser/src/expression.rs:3951-4003 | An alignment of a literal is one of the reversed literal with the reversed input |
| PrefilterExactness.MatchStarts | skript-parser/src/expression.rs:3770-3775 | The literals in front of the first hole match wherever an expansion does |
| PrefilterExactness.MatchEnds | skript-parser/src/expression.rs:3777-3782 | The literals behind the last hole match where an expansion ends |
| PrefilterExactness.AsciiShortcut | skript-parser/src/expression.rs:3803-3814 | The shortcut for plain ASCII text gives the same answer as lowercasing both sides |
| PrefilterExactness.PatternIsSingleSpaced | skript-parser/src/expression.rs:3693-3731 | A pattern requires no literal with two adjacent spaces if no literal outside its options has them |
| PrefilterExactness.TrimmedInputAccepted | skript-parser/src/expression.rs:3784-3801 | On an input without surrounding blanks no matching pattern whose required literals are single spaced is dropped |
| PrefilterExactness.BlankInputAccepted | skript-parser/src/expression.rs:3784-3801 | On a wholly blank input no matching pattern is dropped |
| PrefilterExactness.LeadingBlankDrops | skript-parser/src/expression.rs:3784-3801 | Every other input with a blank in front has a matching pattern that is dropped |
| PrefilterExactness.TrailingBlankDrops | skript-parser/src/expression.rs:3784-3801 | And so has every other input with a blank at its end |
| PrefilterExactness.PrefilterTrustedExactly | skript-parser/src/expression.rs:3784-3801 | The inputs for which no matching, single-spaced pattern is dropped are exactly those that are trimmed or wholly blank |
| PrefilterExactness.RequiredLiteralTrustedExactly | skript-parser/src/expression.rs:3693-3731 | A required literal is contained in every trimmed input it matches exactly when its trimmed text has no two adjacent spaces |
| PrefilterExactness.DoubleSpacePatternDropped | skript-parser/src/expression.rs:3693-3814 | The literal `a  b` matches the input `a b`, yet the prefilter drops it |
| PrefilterExactness.SingleSpacedContained | skript-parser/src/expression.rs:3693-3814 | A single-spaced literal that matches is contained in the lowercased input |
| CandidateIndex.CandidateIndex.MatcherCandidates | skript-parser/src/expression.rs:2802-2894 | The indexed and cached search returns exactly the patterns that a linear scan by pass, compatibility and prefilter returns, in registration order |
| CandidateIndex.CandidateIndex.ExpectedTypeId | skript-parser/src/expression.rs:2896-2912 | Expected types get one id each, the same whenever they are asked for |
| CandidateIndex.PatternInitialIndex | skript-parser/src/expression.rs:3650-3687 | Every pattern is filed under every character one of its leading states begins with, or with the unfiltered ones |
| CandidateIndex.PatternPrefilterIndex | skript-parser/src/expression.rs:3612-3625 | Each pattern text has the prefilter of a pattern with that text |
| CandidateIndex.FindPositions | skript-parser/src/expression.rs:2802-2860 | The positions found are those that can start with the first character of the input |
| CandidateIndex.Collect | skript-parser/src/expression.rs:2860-2894 | Collecting sorted positions gives the linear scan |
| CandidateIndex.InitialAgrees | skript-parser/src/expression.rs:3650-3687 | A literal that starts an input begins with the character the input is looked up under |
| CandidateIndex.PassesPartition | skript-parser/src/expression.rs:2802-2894 | A compatible pattern that is not overridden is tried in exactly one of the two passes |
| CandidateIndex.MatchingPatternIsKept | skript-parser/src/expression.rs:2802-2894 | A matching, compatible pattern survives into the candidates of its pass on trusted inputs |
| CallSyntax.ParseCallSyntax | skript-parser/src/function.rs:746-780 | The call at the start of a range, or none |
| CallSyntax.CallHasShape | skript-parser/src/function.rs:746-780 | A call spans from the range start to a requested end, a name in front of its parentheses and its arguments between them |
| CallSyntax.SplitArguments | skript-parser/src/function.rs:782-824 | The cursor loop finds the arguments between the commas outside quotes, variables and parentheses; an open region makes the call none |
| CallSyntax.SplitIsFinest | skript-parser/src/function.rs:782-824 | No argument can be split further: each, taken by itself, is its own only argument |
| CallSyntax.ArgumentsAlone | skript-parser/src/function.rs:746-824 | Every argument of a call lies inside its parentheses and splits alone to itself |
| CallSyntax.ParserRepeats | skript-parser/src/function.rs:826-879 | An argument is determined by its trimmed text |
| CallSyntax.PieceAlone | skript-parser/src/function.rs:782-824 | A piece without its trailing blanks has no top-level comma |
| FunctionCalls.MapExactArguments | skript-parser/src/function.rs:498-571 | Succeeds exactly when the call can be bound at all: declared names in their parameters, the other arguments forward in order through the parameters no name claims, skipping none that is free and staying in front of the next declared name, with every required parameter filled. Every argument then goes to one parameter and no parameter gets two |
| FunctionCalls.BindsOnce | skript-parser/src/function.rs:498-571 | There is one way at most to bind a call, and one to bind its first arguments |
| FunctionCalls.StuckBindsNothing | skript-parser/src/function.rs:544-559 | When an argument finds no free parameter between the cursor and the next declared name, nothing else would have bound the call |
| FunctionCalls.BindPositional | skript-parser/src/function.rs:535-571 | The second pass binds the call in the only way there is, or finds that there is none or that it leaves a required parameter empty |
| FunctionCalls.BindNamed | skript-parser/src/function.rs:523-533 | After the first pass the declared names hold their arguments and nothing else is filled |
| FunctionCalls.DeclaredCallMapped | skript-parser/src/function.rs:498-571 | A call of declared names only is mapped by name alone |
| FunctionCalls.NamedCallOrderIrrelevant | skript-parser/src/function.rs:498-571 | Such a call gives the same mapping in any order of its arguments |
| FunctionCalls.PlacedIsMapped | skript-parser/src/function.rs:498-571 | A supplied name comes only with a value and is the name of the parameter |
| FunctionCalls.MapListArguments | skript-parser/src/function.rs:421-491 | A list signature takes all arguments as one value, under no name but that of its parameter |
| FunctionCalls.ValidateChildren | skript-parser/src/function.rs:169-211 | A call is accepted exactly when its identity and names are nonblank, its names distinct, and its arguments cut the children into consecutive blocks |
| FunctionCalls.OneOwner | skript-parser/src/function.rs:169-211 | In such a call every child has one owner and nothing beyond is owned |
| FunctionCalls.FlattenedNonempty | skript-parser/src/function.rs:718-737 | Flattening a list that fits never leaves nothing |
| FunctionCalls.BuiltCallIsOwned | skript-parser/src/function.rs:583-660 | A call built from a well-formed definition passes the ownership check |
| Arithmetic.OperatorOccurrences | skript-parser/src/arithmetic.rs:234-300 | The cursor loop finds the longest signs outside quotes, variables and parentheses, or nothing if one of these is open |
| Arithmetic.OrderOperators | skript-parser/src/arithmetic.rs:202-208 | Every operator once; loosest first when the priorities are layered |
| Arithmetic.GroupOperators | skript-parser/src/arithmetic.rs:209-219 | The order is cut into groups; under layered priorities each is one layer and every later one binds tighter |
| Arithmetic.GroupRoots | skript-parser/src/arithmetic.rs:221-229 | The occurrences of a group, latest first |
| Arithmetic.RootCandidates | skript-parser/src/arithmetic.rs:192-232 | The candidates are a permutation of the occurrences; under layered priorities loosest and latest first |
| Arithmetic.GreaterMirrors | skript-parser/src/arithmetic.rs:302-325 | Whatever the priorities, a greater operator has the other below it |
| ArithmeticTrees.FirstCandidateIsRoot | skript-parser/src/arithmetic.rs:192-232 | The first candidate is the loosest operator, and of several the last |
| ArithmeticTrees.SignsAreLocal | skript-parser/src/arithmetic.rs:234-300 | Each side of an operator, taken by itself, has exactly the operators it had in the whole |
| ArithmeticTrees.ScanCut | skript-parser/src/arithmetic.rs:234-300 | A scan that ends earlier, behind visible text, finds the operators in front of it |
| ArithmeticTrees.ScanResumed | skript-parser/src/arithmetic.rs:234-300 | A scan resumed behind an operator finds the operators behind it |
| ArithmeticTrees.TreeReadsAsChain | skript-parser/src/arithmetic.rs:102-130 | Read in order, the tree is the chain of trimmed operands and operators of the text |
| ArithmeticTrees.TreeIsLeftAssociative | skript-parser/src/arithmetic.rs:192-232 | Left of a root nothing binds looser, right of it everything binds strictly tighter, at every level |
| ArithmeticTrees.TreeIsRooted | skript-parser/src/arithmetic.rs:102-130 | Every operator of the tree is the root of the operators below it |
| ArithmeticTrees.TreeIsUnique | skript-parser/src/arithmetic.rs:192-232 | Layered priorities leave one tree at most |
| ArithmeticTrees.TreeExists | skript-parser/src/arithmetic.rs:102-130 | A text whose operators all have something on either side has a tree |
| ExpressionLists.SplitExpressionList | skript-parser/src/expression_list.rs:52-101 | The cursor loop gives the pieces between the top-level delimiters, or nothing without a delimiter or with an empty piece |
| ExpressionLists.SplitShape | skript-parser/src/expression_list.rs:52-111 | One more piece than delimiters, each visible, in range, in order and apart |
| ExpressionLists.ConjunctionForChildren | skript-parser/src/expression_list.rs:32-49 | `Or` exactly when some boundary between children is explicit and every explicit one is `or` |
| ExpressionLists.SkipWhitespace | skript-parser/src/expression_list.rs:170-181 | The loop ends at the first character that is no whitespace |
| ExpansionGraph.New | skript-parser/src/expansion.rs:137-173 | A graph exactly for unique ids, nonblank owners, a call site each, known references and no cycle; every error names what is at fault, and a reported cycle exists |
| ExpansionGraph.IndexExpansions | skript-parser/src/expansion.rs:140-152 | Succeeds exactly on unique ids and nonblank owners, and indexes what was given |
| ExpansionGraph.ValidateReferences | skript-parser/src/expansion.rs:154-164 | Passes exactly when every expansion has a call site and all references are known |
| ExpansionGraph.ValidateAcyclic | skript-parser/src/expansion.rs:193-218 | The depth-first walk restores the visiting set and settles the id and all it came from, or names an id on a real cycle |
| ExpansionGraph.ValidateGraph | skript-parser/src/expansion.rs:166-170 | Passes exactly when there is no cycle |
| ExpansionGraph.SettledIsAcyclic | skript-parser/src/expansion.rs:193-218 | Ids in an order where each stands behind its parents leave no room for a cycle |
| ExpansionGraph.PathsNeverRepeat | skript-parser/src/expansion.rs:269-282 | In a valid graph no call-site path comes back to an id |
| ExpansionGraph.Backtrace | skript-parser/src/expansion.rs:269-282 | Ends for every id, repeats none, is no longer than the graph, and follows first call sites to original text; nothing exactly for unknown ids |
| ExpansionGraph.Backtraces | skript-parser/src/expansion.rs:284-312 | Exactly the distinct parent paths to original text, each once, the primary backtrace first; nothing exactly for unknown ids |
| ExpansionGraph.CollectBacktraces | skript-parser/src/expansion.rs:288-312 | All paths of one id, from any point of a recursion |
| ExpansionGraph.PrimaryIsUnique | skript-parser/src/expansion.rs:269-282 | There is one primary path from an id |
| ExpansionGraph.NextId | skript-parser/src/expansion.rs:246-256 | An id above all others, exhausted exactly when the last 32-bit id is taken |
| ExpansionGraph.WithExpansion | skript-parser/src/expansion.rs:259-263 | Accepted exactly when the extended list is a graph; always for a new id with owners and known call sites, and the graph then gains that expansion and nothing else |
| ExpansionGraph.ExtensionSucceeds | skript-parser/src/expansion.rs:246-263 | Appending with a new id and known sites is always sound |
| ExpansionGraph.ExtensionKeepsBacktraces | skript-parser/src/expansion.rs:259-312 | No backtrace of an existing id changes, primary or not |
| Selection.Session.Attempt | skript-parser/src/effect.rs:303-328 | A candidate that is not kept leaves context and overlay as they were |
| Selection.Session.SelectEffect | skript-parser/src/effect.rs:282-330 | Final context and overlay are those of running only the first accepted candidate from the entry, or the entry; after an error the context is the initial one and the overlay keeps an earlier acceptance |
| Selection.Session.SelectCondition | skript-parser/src/condition.rs:199-297 | The same for conditions, where an error leaves everything as at the entry |
| Selection.SelectionIgnoresTheRest | skript-parser/src/effect.rs:282-330 | What candidates behind the selection would do is no matter |
| FailureTraces.Specificity | skript-parser/src/failure.rs:206-223 | Counts the runs of different ranges from the outermost frame to the root cause |
| FailureTraces.ParentRaises | skript-parser/src/failure.rs:192-223 | A parent keeps the root cause and adds one exactly when its range is a new one |
| FailureTraces.ComparesRanks | skript-parser/src/failure.rs:269-334 | The comparison is that of a seven-part rank |
| FailureTraces.TotalPreorder | skript-parser/src/failure.rs:295-334 | Total, reflexive, mirrored and transitive |
| FailureTraces.ChosenIsEarliestBest | skript-parser/src/failure.rs:337-351 | Choosing along any list keeps the earliest of the best |
| FailureTraces.OrderKeepsRank | skript-parser/src/failure.rs:337-351 | In any order of the list, what is kept ranks the same |
| DefaultEventValues.ResolveEventValue | core-library/src/default_expression.rs:177-347 | The outcome is decided by the first event that stops the search, or else by what there is among all events together; a resolution holds the values of all events in order |
| DefaultEventValues.ResolutionIsCertain | core-library/src/default_expression.rs:282-300 | A resolution has values, nothing was unknown, and every value is known to need neither context nor validator |
| DefaultEventValues.OrderKeepsKind | core-library/src/default_expression.rs:203-281 | The order of the event classes is no matter, unless one cannot be looked up and another is ambiguous |
| DefaultEventValues.OrderDecidesKind | core-library/src/default_expression.rs:203-281 | In that case it is: either outcome comes of some order |
| DefaultEventValues.TakeValues | core-library/src/default_expression.rs:235-268 | One event is ambiguous, unknown or gives values as its direct or converted matches say |
| DefaultEventValues.TimeStates | core-library/src/default_expression.rs:205-234 | A past or a future value that is distinct makes a time state; a past one is enough |
| CatalogReads.ReadRecord | core-library/src/catalog.rs:787-822 | Ends with every host; with a correct one, however it slices, the bytes are exactly those of the record |
| CatalogReads.ReadPage | core-library/src/catalog.rs:769-826 | The records of a page come behind those before, within the limits, or not at all |
| CatalogReads.RegistrationRecords | core-library/src/catalog.rs:758-834 | Ends with every host; with a correct one it gives exactly the records, or fails exactly when they exceed the limits; one that stays inside the lengths it declares never gives more bytes than the limit |
| CatalogReads.OverrunningRecord | core-library/src/catalog.rs:787-822 | A record that declares no bytes is read with as many as the host serves |
| CatalogReads.ContractCache.ChangeContract | core-library/src/catalog.rs:242-281 | The cache stays bounded with every host; with a correct one each answer, cached or not, is what is computed from the records of that digest and id |
| CatalogReads.KeysDiffer | core-library/src/catalog.rs:245-245 | Keys of digests without a NUL belong to one digest and id |
| CatalogReads.KeysCanCollide | core-library/src/catalog.rs:245-245 | A digest with a NUL can share its key with another |
| Text.TrimmedUnique | skript-parser/src/pattern_match.rs:2929-2940 | A visible core is the only one |
| Text.QuoteEndLocal | skript-parser/src/pattern_match.rs:3014-3032 | Where a quote closes does not depend on the end of the range |
| Text.VariableEndLocal | skript-parser/src/pattern_match.rs:3034-3047 | Where a variable closes does not depend on the end of the range |
| Text.ParenthesisEndLocal | skript-parser/src/pattern_match.rs:3049-3072 | Where a parenthesis closes does not depend on the end of the range |

## Left out

- Cancellation: probes and their errors are not part of the session, and one generic
  environment error stands for extension faults.
- Failure traces inside the session: what a memo entry says about a failed request is not
  stored; `FailureTraces` treats the ranking by itself.
- The pattern matcher inside the session: what it matches is an answer of the script; the
  matcher of `Patterns` is used for the prefilter. That the candidates it is given are those
  of `CandidateIndex` is not connected to the session.
- Completeness of left-recursive parsing: nested entries may come from a partial seed, so
  no fixpoint over all requests is claimed.
- Saturation and width of counters (`candidates_seen`, `next_resolution_id`, call depth);
  expansion ids and page offsets do have 32 bits.
- Interning of expected types inside memo keys: keys hold the types themselves; that ids
  stand for types one to one is proved in `CandidateIndex`.
- Unicode: lowercasing is a table per character, so context-sensitive forms such as the
  final sigma are not modelled; UTF-8 boundaries are not either.
- The branches of a pattern choice are wrapped in a record where the source nests vectors.
- Merging of function definitions from the environment and the catalog by shape: the script
  gives the merged list.
- Mapping ranges to the original document: a test that may fail.
- `ExpressionSession.ExpressionSession.ParseCapture`: bound contexts and options are opaque functions of the binding, because their encoding is data.
- `ExpressionSession.ExpressionSession.ResolveType`: resolutions hold positions in the source instead of positions in the frame of the matcher.
- `ExpressionSession.ExpressionSession.RegisteredAt`: which match comes first is an answer of the script.
- `ExpressionSession.ExpressionSession.AttemptMatch`: the context that an accepted match leaves is whatever its captures ended in.
- `ExpressionSession.ExpressionSession.RunMatcher`: the matches are answers of the script.
- `ExpressionSession.ExpressionSession.ParseUncached`: that groups come before leaves, leaves before arithmetic, calls, registered expressions and lists is the order of its calls and is not stated.
- `ExpressionSession.ExpressionSession.ParseCompleteRange`: where the selected expression starts is not stated, because the ranges of matches are answers of the script.
- `ArithmeticTrees.SignsAreLocal`: only for signs without blank edges that no two operators share; a shared sign is found once for each of its operators in one place, and of such texts no tree is claimed.
- Document text of nodes: tags, marks, public data and metadata are not part of a node.
- `ExpansionGraph`: kinds and syntax contexts of expansions, which no check reads.
- `Arithmetic.OrderOperators`: a sort over priorities that are no layers has no order in the
  source; the model inserts one by one, and only the permutation is stated then.
- `DefaultEventValues.ResolveEventValue`: the search among the values of an event is a given function, because its source is another component; wording and diagnostics of exclusions are not stated.
- `CatalogReads.RegistrationRecords`: JSON parsing of the records is a given function.
- Hosts, bindings, manifests, hook dispatch, sections, structures, raw trees and source maps.
