/** The index that narrows registered patterns before matching: patterns by initial
    character, compatibility rows by expected types, and the position cache over both. */
module CandidateIndex {
  import opened Text
  import opened Expressions
  import opened Patterns
  import opened Prefilter
  import opened PrefilterSoundness
  import opened PrefilterExactness

  datatype Pattern = Pattern(source: string, patternIndex: nat, elements: seq<Element>)

  /** One registration with its patterns; the id stands for the identity, priority and
      ordering fields that are only copied along. */
  datatype Registration = Registration(registrationId: string, patterns: seq<Pattern>)

  datatype RegisteredPass = Base | LeftRecursive

  /** What a session's index is built over: the registrations in order, whether one can
      produce the expected types, and whether a hook may override one of its patterns. */
  datatype Registry = Registry(
    u: Unicode,
    candidates: seq<Registration>,
    compatible: (Registration, seq<ExpectedType>) -> bool,
    overridden: (Registration, Pattern) -> bool)
  {
    predicate Has(p: Position) {
      p.candidate < |candidates| && p.pattern < |candidates[p.candidate].patterns|
    }

    function PatternAt(p: Position): Pattern
      requires Has(p)
    {
      candidates[p.candidate].patterns[p.pattern]
    }

    predicate Overridden(p: Position)
      requires Has(p)
    {
      overridden(candidates[p.candidate], PatternAt(p))
    }

    /** The case table is a proper one and a pattern source has one parse. */
    ghost predicate Valid() {
      && u.Valid()
      && forall p, q :: Has(p) && Has(q) && PatternAt(p).source == PatternAt(q).source
                        ==> PatternAt(p).elements == PatternAt(q).elements
    }
  }

  datatype Position = Position(candidate: nat, pattern: nat) {
    predicate Before(other: Position) {
      candidate < other.candidate || (candidate == other.candidate && pattern < other.pattern)
    }
  }

  // ------------------------------------------------------------- the linear scan

  /** Whether a pattern takes part in a pass for some expected types. */
  predicate Selected(r: Registry, expected: seq<ExpectedType>, pass: RegisteredPass, p: Position)
    requires r.Has(p)
  {
    if r.Overridden(p) then pass == Base
    else
      && PrefilterOf(r.u, r.PatternAt(p).elements).leftRecursive == (pass == LeftRecursive)
      && r.compatible(r.candidates[p.candidate], expected)
  }

  /** What a filter over all patterns would keep. */
  predicate Keeps(r: Registry, input: string, expected: seq<ExpectedType>, pass: RegisteredPass, p: Position)
    requires r.Has(p)
  {
    && Selected(r, expected, pass, p)
    && (r.Overridden(p) || Accepts(r.u, PrefilterOf(r.u, r.PatternAt(p).elements), input))
  }

  /** That filter as a test on positions. */
  function Filter(r: Registry, input: string, expected: seq<ExpectedType>, pass: RegisteredPass): Position -> bool {
    (p: Position) => r.Has(p) && Keeps(r, input, expected, pass, p)
  }

  function KeptPatterns(candidates: seq<Registration>, keep: Position -> bool, c: nat, n: nat): seq<Pattern>
    requires c < |candidates| && n <= |candidates[c].patterns|
  {
    if n == 0 then []
    else if keep(Position(c, n - 1)) then KeptPatterns(candidates, keep, c, n - 1) + [candidates[c].patterns[n - 1]]
    else KeptPatterns(candidates, keep, c, n - 1)
  }

  function KeptCandidate(candidates: seq<Registration>, keep: Position -> bool, c: nat): seq<Registration>
    requires c < |candidates|
  {
    var patterns := KeptPatterns(candidates, keep, c, |candidates[c].patterns|);
    if patterns == [] then [] else [candidates[c].(patterns := patterns)]
  }

  /** The first `n` registrations in order, each with the patterns it keeps, the empty ones
      left out. */
  function LinearScan(candidates: seq<Registration>, keep: Position -> bool, n: nat): seq<Registration>
    requires n <= |candidates|
  {
    if n == 0 then [] else LinearScan(candidates, keep, n - 1) + KeptCandidate(candidates, keep, n - 1)
  }

  // ------------------------------------------------------------ initial characters

  function FirstSolid(s: string): Option<char> {
    if s == [] then None else if s[0] != ' ' then Some(s[0]) else FirstSolid(s[1..])
  }

  /** First non-space character, lowercased to the first character of its mapping. */
  function Initial(u: Unicode, s: string): Option<char> {
    match FirstSolid(s)
    case None => None
    case Some(c) => if u.lower(c) == [] then None else Some(u.lower(c)[0])
  }

  lemma {:induction false} FirstSolidMatched(u: Unicode, input: string, text: string)
    requires u.Valid() && Starts(u, input, text) && FirstSolid(text).Some?
    ensures input != [] && input[0] != ' ' && u.Same(FirstSolid(text).value, input[0])
    decreases |text|
  {
    if text[0] == ' ' { FirstSolidMatched(u, input, text[1..]); } else { SpaceIsAlone(u, text[0]); SpaceIsAlone(u, input[0]); }
  }

  lemma {:induction false} NoSolidIsSpaces(text: string)
    ensures AllSpaces(text) <==> FirstSolid(text).None?
    decreases |text|
  {
    if text != [] {
      NoSolidIsSpaces(text[1..]);
      assert forall k :: 1 <= k < |text| ==> text[k] == text[1..][k - 1];
    }
  }

  /** A leading state that lets an input through has no initial or the input's own. */
  lemma InitialAgrees(u: Unicode, input: string, text: string)
    requires u.Valid() && (AllSpaces(text) || Starts(u, input, text))
    ensures Initial(u, text).None? || Initial(u, text) == Initial(u, input)
  {
    NoSolidIsSpaces(text);
    if FirstSolid(text).Some? {
      FirstSolidMatched(u, input, text);
      assert u.lower(FirstSolid(text).value) == u.lower(input[0]);
    }
  }

  // -------------------------------------------------------------- sorted positions

  lemma BeforeNext(position: Position)
    ensures forall p: Position :: p.Before(Position(position.candidate, position.pattern + 1)) <==> p == position || p.Before(position)
  {
    forall p: Position
      ensures p.Before(Position(position.candidate, position.pattern + 1)) <==> p == position || p.Before(position)
    {
      assert p == Position(p.candidate, p.pattern);
    }
  }

  predicate Ascending(s: seq<Position>) { forall i, j :: 0 <= i < j < |s| ==> s[i].Before(s[j]) }

  /** `sort_unstable` then `dedup`. */
  method SortDedup(positions: seq<Position>) returns (r: seq<Position>)
    ensures Ascending(r)
    ensures forall p :: p in r <==> p in positions
  {
    r := [];
    var i := 0;
    while i < |positions|
      invariant 0 <= i <= |positions| && Ascending(r)
      invariant forall p :: p in r <==> p in positions[..i]
    {
      var p := positions[i];
      var k := 0;
      while k < |r| && r[k].Before(p)
        invariant 0 <= k <= |r|
        invariant forall j :: 0 <= j < k ==> r[j].Before(p)
      {
        k := k + 1;
      }
      if k == |r| || r[k] != p {
        ghost var was := r;
        assert forall j :: k <= j < |r| ==> p.Before(r[j]);
        r := r[..k] + [p] + r[k..];
        assert forall q :: q in r <==> q in was || q == p by {
          assert was == was[..k] + was[k..];
        }
      }
      assert positions[..i + 1] == positions[..i] + [p];
      i := i + 1;
    }
    assert positions[..i] == positions;
  }

  // ------------------------------------------------------------------ the prefilters

  type Prefilters = map<string, PatternPrefilter>

  ghost predicate PrefiltersKnown(r: Registry, prefilters: Prefilters) {
    forall p :: r.Has(p) ==> PrefilterKnown(r, prefilters, p)
  }

  ghost predicate PrefilterKnown(r: Registry, prefilters: Prefilters, p: Position)
    requires r.Has(p)
  {
    var pattern := r.PatternAt(p);
    pattern.source in prefilters && prefilters[pattern.source] == PrefilterOf(r.u, pattern.elements)
  }

  /** Progress of the build: positions in front of `end` are served and nothing stored is
      wrong for any pattern with that source. */
  ghost predicate PrefiltersUpTo(r: Registry, prefilters: Prefilters, end: Position) {
    && (forall p :: r.Has(p) && p.Before(end) ==> r.PatternAt(p).source in prefilters)
    && (forall p :: r.Has(p) && r.PatternAt(p).source in prefilters ==> PrefilterKnown(r, prefilters, p))
  }

  /** `pattern_prefilter_index`: one prefilter per distinct source. */
  method PatternPrefilterIndex(r: Registry) returns (prefilters: Prefilters)
    requires r.Valid()
    ensures PrefiltersKnown(r, prefilters)
  {
    prefilters := map[];
    var c := 0;
    while c < |r.candidates|
      invariant 0 <= c <= |r.candidates|
      invariant PrefiltersUpTo(r, prefilters, Position(c, 0))
    {
      var i := 0;
      while i < |r.candidates[c].patterns|
        invariant 0 <= i <= |r.candidates[c].patterns|
        invariant PrefiltersUpTo(r, prefilters, Position(c, i))
      {
        prefilters := AddPrefilter(r, prefilters, Position(c, i));
        i := i + 1;
      }
      c := c + 1;
    }
    assert forall p :: r.Has(p) ==> p.Before(Position(c, 0));
  }

  /** `entry(source).or_insert_with(new)`. */
  method AddPrefilter(r: Registry, prefilters: Prefilters, position: Position) returns (added: Prefilters)
    requires r.Valid() && r.Has(position) && PrefiltersUpTo(r, prefilters, position)
    ensures PrefiltersUpTo(r, added, Position(position.candidate, position.pattern + 1))
  {
    var pattern := r.PatternAt(position);
    added := prefilters;
    if pattern.source !in prefilters {
      var prefilter := NewPrefilter(r.u, pattern.elements);
      added := prefilters[pattern.source := prefilter];
    }
    BeforeNext(position);
    forall p | r.Has(p) && r.PatternAt(p).source in added ensures PrefilterKnown(r, added, p) {
      if r.PatternAt(p).source in prefilters { assert PrefilterKnown(r, prefilters, p); }
    }
  }

  // -------------------------------------------------------------- the initial index

  datatype InitialIndex = InitialIndex(wildcard: seq<Position>, byInitial: map<char, seq<Position>>) {
    /** Filed under this initial, or under every initial. */
    predicate Lists(p: Position, initial: Option<char>) {
      p in wildcard || (initial.Some? && initial.value in byInitial && p in byInitial[initial.value])
    }

    predicate ListsState(p: Position, initial: Option<char>) {
      if initial.None? then p in wildcard else Lists(p, initial)
    }

    ghost predicate InRange(r: Registry) {
      && (forall p :: p in wildcard ==> r.Has(p))
      && (forall c, p :: c in byInitial && p in byInitial[c] ==> r.Has(p))
    }
  }

  function LeadingOf(r: Registry, p: Position): seq<PrefixState>
    requires r.Has(p)
  {
    Leading(r.PatternAt(p).elements)
  }

  /** A pattern is filed under each initial its leading states can have. */
  ghost predicate Filed(r: Registry, index: InitialIndex, p: Position)
    requires r.Has(p)
  {
    forall s :: s in LeadingOf(r, p) ==> index.ListsState(p, Initial(r.u, s.text))
  }

  ghost predicate InitialsKnown(r: Registry, index: InitialIndex) {
    index.InRange(r) && forall p :: r.Has(p) ==> Filed(r, index, p)
  }

  ghost predicate InitialsUpTo(r: Registry, index: InitialIndex, end: Position) {
    index.InRange(r) && forall p :: r.Has(p) && p.Before(end) ==> Filed(r, index, p)
  }

  /** What the index lists it goes on listing. */
  ghost predicate Grows(index: InitialIndex, grown: InitialIndex) {
    && (forall p :: p in index.wildcard ==> p in grown.wildcard)
    && (forall c, p :: c in index.byInitial && p in index.byInitial[c] ==> c in grown.byInitial && p in grown.byInitial[c])
  }

  lemma GrowsKeepsFiled(r: Registry, index: InitialIndex, grown: InitialIndex, p: Position)
    requires r.Has(p) && Filed(r, index, p) && Grows(index, grown)
    ensures Filed(r, grown, p)
  {
    forall s | s in LeadingOf(r, p) ensures grown.ListsState(p, Initial(r.u, s.text)) {
      assert index.ListsState(p, Initial(r.u, s.text));
    }
  }

  /** `pattern_initial_index`. */
  method PatternInitialIndex(r: Registry, prefilters: Prefilters) returns (index: InitialIndex)
    requires r.Valid() && PrefiltersKnown(r, prefilters)
    ensures InitialsKnown(r, index)
  {
    index := InitialIndex([], map[]);
    var c := 0;
    while c < |r.candidates|
      invariant 0 <= c <= |r.candidates|
      invariant InitialsUpTo(r, index, Position(c, 0))
    {
      var i := 0;
      while i < |r.candidates[c].patterns|
        invariant 0 <= i <= |r.candidates[c].patterns|
        invariant InitialsUpTo(r, index, Position(c, i))
      {
        ghost var was := index;
        ghost var position := Position(c, i);
        index := FilePattern(r, prefilters, index, Position(c, i));
        forall p | r.Has(p) && p.Before(Position(c, i + 1)) ensures Filed(r, index, p) {
          BeforeNext(position);
          if p != position {
            GrowsKeepsFiled(r, was, index, p);
          }
        }
        i := i + 1;
      }
      c := c + 1;
    }
    assert forall p :: r.Has(p) ==> p.Before(Position(c, 0));
    ghost var unsorted := index;
    index := SortIndex(index);
    forall p | r.Has(p) ensures Filed(r, index, p) { GrowsKeepsFiled(r, unsorted, index, p); }
  }

  /** Files one pattern under the initials of its leading states. */
  method FilePattern(r: Registry, prefilters: Prefilters, index: InitialIndex, position: Position) returns (grown: InitialIndex)
    requires r.Valid() && r.Has(position) && PrefilterKnown(r, prefilters, position) && index.InRange(r)
    ensures grown.InRange(r) && Grows(index, grown) && Filed(r, grown, position)
  {
    var states := prefilters[r.PatternAt(position).source].leading;
    assert states == LeadingOf(r, position);
    var hasWildcard := false;
    grown := index;
    var k := 0;
    while k < |states|
      invariant 0 <= k <= |states|
      invariant grown.InRange(r) && Grows(index, grown)
      invariant forall j :: 0 <= j < k ==> FiledState(grown, hasWildcard, position, Initial(r.u, states[j].text))
    {
      var initial := Initial(r.u, states[k].text);
      if initial.Some? {
        grown := FileInitial(r, grown, initial.value, position);
      } else {
        hasWildcard := true;
      }
      k := k + 1;
    }
    if hasWildcard { grown := grown.(wildcard := grown.wildcard + [position]); }
    forall s | s in LeadingOf(r, position) ensures grown.ListsState(position, Initial(r.u, s.text)) {
      var j :| 0 <= j < |states| && states[j] == s;
      assert FiledState(grown, hasWildcard, position, Initial(r.u, states[j].text));
    }
  }

  ghost predicate FiledState(index: InitialIndex, hasWildcard: bool, p: Position, initial: Option<char>) {
    if initial.None? then hasWildcard else initial.value in index.byInitial && p in index.byInitial[initial.value]
  }

  method FileInitial(r: Registry, index: InitialIndex, c: char, position: Position) returns (grown: InitialIndex)
    requires r.Has(position) && index.InRange(r)
    ensures grown.InRange(r) && Grows(index, grown)
    ensures c in grown.byInitial && position in grown.byInitial[c] && grown.wildcard == index.wildcard
  {
    var filed := if c in index.byInitial then index.byInitial[c] else [];
    grown := index.(byInitial := index.byInitial[c := filed + [position]]);
  }

  /** Sorts every list and drops repetitions. */
  method SortIndex(index: InitialIndex) returns (sorted: InitialIndex)
    ensures Grows(index, sorted) && Grows(sorted, index)
  {
    var wildcard := SortDedup(index.wildcard);
    var byInitial := index.byInitial;
    var todo := byInitial.Keys;
    while todo != {}
      invariant todo <= byInitial.Keys == index.byInitial.Keys
      invariant forall c, p :: c in index.byInitial ==> (p in byInitial[c] <==> p in index.byInitial[c])
    {
      var c :| c in todo;
      var positions := SortDedup(byInitial[c]);
      byInitial := byInitial[c := positions];
      todo := todo - {c};
    }
    sorted := InitialIndex(wildcard, byInitial);
  }

  // ------------------------------------------------------------------ the positions

  /** Ordered positions of a pass, none missing that the initial cannot rule out. */
  ghost predicate PositionsFor(r: Registry, index: InitialIndex, positions: seq<Position>, initial: Option<char>,
                               expected: seq<ExpectedType>, pass: RegisteredPass) {
    && Ascending(positions)
    && (forall p :: p in positions ==> r.Has(p) && Selected(r, expected, pass, p))
    && (forall p :: r.Has(p) && Selected(r, expected, pass, p) && (r.Overridden(p) || index.Lists(p, initial)) ==> p in positions)
  }

  ghost predicate RowFor(r: Registry, row: seq<bool>, expected: seq<ExpectedType>) {
    |row| == |r.candidates| && forall c :: 0 <= c < |row| ==> row[c] == r.compatible(r.candidates[c], expected)
  }

  method OverriddenPositions(r: Registry) returns (positions: seq<Position>)
    ensures forall p :: p in positions <==> r.Has(p) && r.Overridden(p)
  {
    positions := [];
    var c := 0;
    while c < |r.candidates|
      invariant 0 <= c <= |r.candidates|
      invariant forall p :: p in positions <==> r.Has(p) && p.Before(Position(c, 0)) && r.Overridden(p)
    {
      var i := 0;
      while i < |r.candidates[c].patterns|
        invariant 0 <= i <= |r.candidates[c].patterns|
        invariant forall p :: p in positions <==> r.Has(p) && p.Before(Position(c, i)) && r.Overridden(p)
      {
        var position := Position(c, i);
        BeforeNext(position);
        if r.overridden(r.candidates[c], r.candidates[c].patterns[i]) { positions := positions + [position]; }
        i := i + 1;
      }
      assert forall p :: r.Has(p) ==> (p.Before(Position(c, i)) <==> p.Before(Position(c + 1, 0)));
      c := c + 1;
    }
    assert forall p :: r.Has(p) ==> p.Before(Position(c, 0));
  }

  /** `positions.retain(..)` of the lookup. */
  method RetainSelected(r: Registry, prefilters: Prefilters, row: seq<bool>, sorted: seq<Position>,
                        ghost expected: seq<ExpectedType>, pass: RegisteredPass) returns (positions: seq<Position>)
    requires PrefiltersKnown(r, prefilters) && RowFor(r, row, expected) && Ascending(sorted)
    requires forall p :: p in sorted ==> r.Has(p)
    ensures Ascending(positions)
    ensures forall p :: p in positions <==> p in sorted && Selected(r, expected, pass, p)
  {
    positions := [];
    var k := 0;
    while k < |sorted|
      invariant 0 <= k <= |sorted|
      invariant Ascending(positions)
      invariant forall p :: p in positions <==> p in sorted[..k] && Selected(r, expected, pass, p)
    {
      var p := sorted[k];
      assert p in sorted;
      var candidate, pattern := r.candidates[p.candidate], r.PatternAt(p);
      var isOverridden := r.overridden(candidate, pattern);
      assert PrefilterKnown(r, prefilters, p);
      if (isOverridden && pass == Base)
         || (!isOverridden && prefilters[pattern.source].leftRecursive == (pass == LeftRecursive) && row[p.candidate])
      {
        forall j | 0 <= j < |positions| ensures positions[j].Before(p) {
          assert positions[j] in sorted[..k];
        }
        positions := positions + [p];
      }
      assert sorted[..k + 1] == sorted[..k] + [p];
      k := k + 1;
    }
    assert sorted[..k] == sorted;
  }

  /** The positions a lookup starts from, for inputs with this initial. */
  method FindPositions(r: Registry, prefilters: Prefilters, index: InitialIndex, row: seq<bool>, initial: Option<char>,
                       ghost expected: seq<ExpectedType>, pass: RegisteredPass) returns (positions: seq<Position>)
    requires PrefiltersKnown(r, prefilters) && InitialsKnown(r, index) && RowFor(r, row, expected)
    ensures PositionsFor(r, index, positions, initial, expected, pass)
  {
    var found := index.wildcard;
    if initial.Some? && initial.value in index.byInitial { found := found + index.byInitial[initial.value]; }
    assert forall p :: p in found <==> index.Lists(p, initial);
    var overridden := OverriddenPositions(r);
    var sorted := SortDedup(found + overridden);
    assert forall p :: p in sorted <==> p in found || p in overridden;
    positions := RetainSelected(r, prefilters, row, sorted, expected, pass);
  }

  /** No pattern that the scan keeps is missing from the positions. */
  lemma KeptIsPosition(r: Registry, index: InitialIndex, positions: seq<Position>, input: string,
                       expected: seq<ExpectedType>, pass: RegisteredPass)
    requires r.Valid() && InitialsKnown(r, index)
    requires PositionsFor(r, index, positions, Initial(r.u, input), expected, pass)
    ensures NoneMissing(positions, Filter(r, input, expected, pass))
  {
    forall p | r.Has(p) && Keeps(r, input, expected, pass, p) ensures p in positions {
      if !r.Overridden(p) {
        assert MayStart(r.u, LeadingOf(r, p), input);
        MayStartListed(r, index, input, p);
      }
    }
  }

  lemma MayStartListed(r: Registry, index: InitialIndex, input: string, p: Position)
    requires r.Valid() && r.Has(p) && Filed(r, index, p) && MayStart(r.u, LeadingOf(r, p), input)
    ensures index.Lists(p, Initial(r.u, input))
  {
    var leading := LeadingOf(r, p);
    var i :| 0 <= i < |leading| && (AllSpaces(leading[i].text) || Starts(r.u, input, leading[i].text));
    InitialAgrees(r.u, input, leading[i].text);
    assert leading[i] in leading && index.ListsState(p, Initial(r.u, leading[i].text));
  }

  // ------------------------------------------------------------- from positions to scan

  ghost predicate NoneMissing(positions: seq<Position>, keep: Position -> bool) {
    forall p :: keep(p) ==> p in positions
  }

  /** The first `cursor` positions lie in front of `at`, the others do not. */
  ghost predicate CutAt(positions: seq<Position>, cursor: nat, at: Position) {
    && cursor <= |positions|
    && (forall k :: 0 <= k < cursor ==> positions[k].Before(at))
    && (forall k :: cursor <= k < |positions| ==> !positions[k].Before(at))
  }

  lemma CutBetween(positions: seq<Position>, cursor: nat, from: Position, to: Position, mid: Position)
    requires CutAt(positions, cursor, from) && CutAt(positions, cursor, to)
    requires !mid.Before(from) && !to.Before(mid)
    ensures CutAt(positions, cursor, mid)
  {}

  lemma NotListed(positions: seq<Position>, cursor: nat, from: Position, to: Position, p: Position)
    requires CutAt(positions, cursor, from) && CutAt(positions, cursor, to)
    requires !p.Before(from) && p.Before(to)
    ensures p !in positions
  {}

  lemma {:induction false} SkipPatterns(candidates: seq<Registration>, keep: Position -> bool, positions: seq<Position>,
                                        cursor: nat, c: nat, seen: nat, next: nat)
    requires c < |candidates| && seen <= next <= |candidates[c].patterns|
    requires NoneMissing(positions, keep)
    requires CutAt(positions, cursor, Position(c, seen)) && CutAt(positions, cursor, Position(c, next))
    ensures KeptPatterns(candidates, keep, c, next) == KeptPatterns(candidates, keep, c, seen)
    decreases next - seen
  {
    if seen < next {
      CutBetween(positions, cursor, Position(c, seen), Position(c, next), Position(c, next - 1));
      SkipPatterns(candidates, keep, positions, cursor, c, seen, next - 1);
      NotListed(positions, cursor, Position(c, seen), Position(c, next), Position(c, next - 1));
      assert !keep(Position(c, next - 1));
    }
  }

  lemma {:induction false} SkipCandidates(candidates: seq<Registration>, keep: Position -> bool, positions: seq<Position>,
                                          cursor: nat, done: nat, next: nat)
    requires done <= next <= |candidates|
    requires NoneMissing(positions, keep)
    requires CutAt(positions, cursor, Position(done, 0)) && CutAt(positions, cursor, Position(next, 0))
    ensures LinearScan(candidates, keep, next) == LinearScan(candidates, keep, done)
    decreases next - done
  {
    if done < next {
      var c := next - 1;
      var n := |candidates[c].patterns|;
      CutBetween(positions, cursor, Position(done, 0), Position(next, 0), Position(c, 0));
      CutBetween(positions, cursor, Position(done, 0), Position(next, 0), Position(c, n));
      SkipCandidates(candidates, keep, positions, cursor, done, c);
      SkipPatterns(candidates, keep, positions, cursor, c, 0, n);
    }
  }

  /** Moving the cut to the next position, or past it. */
  lemma CutAtPosition(positions: seq<Position>, cursor: nat, from: Position)
    requires Ascending(positions) && cursor < |positions| && CutAt(positions, cursor, from)
    ensures CutAt(positions, cursor, positions[cursor])
    ensures CutAt(positions, cursor + 1, Position(positions[cursor].candidate, positions[cursor].pattern + 1))
    ensures CutAt(positions, cursor, Position(positions[cursor].candidate, 0)) || from.candidate == positions[cursor].candidate
  {
    var p := positions[cursor];
    forall k | 0 <= k < |positions| && k != cursor ensures if k < cursor then positions[k].Before(p) else p.Before(positions[k]) {}
    BeforeNext(p);
  }

  lemma StartOfCandidate(positions: seq<Position>, cursor: nat, done: nat)
    requires Ascending(positions) && cursor < |positions| && CutAt(positions, cursor, Position(done, 0))
    ensures done <= positions[cursor].candidate && CutAt(positions, cursor, Position(positions[cursor].candidate, 0))
  {
    CutAtPosition(positions, cursor, Position(done, 0));
  }

  lemma EndOfPositions(r: Registry, positions: seq<Position>)
    requires forall p :: p in positions ==> r.Has(p)
    ensures CutAt(positions, |positions|, Position(|r.candidates|, 0))
  {
    forall k | 0 <= k < |positions| ensures positions[k].Before(Position(|r.candidates|, 0)) {
      assert positions[k] in positions;
    }
  }

  lemma EndOfCandidate(r: Registry, positions: seq<Position>, cursor: nat, c: nat, seen: nat)
    requires Ascending(positions) && c < |r.candidates|
    requires forall p :: p in positions ==> r.Has(p)
    requires CutAt(positions, cursor, Position(c, seen))
    requires cursor < |positions| ==> positions[cursor].candidate != c
    ensures CutAt(positions, cursor, Position(c + 1, 0)) && CutAt(positions, cursor, Position(c, |r.candidates[c].patterns|))
  {
    forall k | 0 <= k < |positions| ensures r.Has(positions[k]) { assert positions[k] in positions; }
    if cursor < |positions| {
      assert c < positions[cursor].candidate;
      assert forall k :: cursor < k < |positions| ==> positions[cursor].Before(positions[k]);
    }
  }

  /** The test that the lookup makes on a position. */
  predicate Passes(r: Registry, prefilters: Prefilters, input: string, p: Position) {
    && r.Has(p) && r.PatternAt(p).source in prefilters
    && (r.Overridden(p) || Accepts(r.u, prefilters[r.PatternAt(p).source], input))
  }

  /** On selected positions it is the filter of the linear scan. */
  ghost predicate Tested(r: Registry, prefilters: Prefilters, input: string, keep: Position -> bool, positions: seq<Position>) {
    forall p :: p in positions ==>
      r.Has(p) && r.PatternAt(p).source in prefilters && (keep(p) <==> Passes(r, prefilters, input, p))
  }

  lemma SelectedTested(r: Registry, prefilters: Prefilters, input: string, expected: seq<ExpectedType>, pass: RegisteredPass,
                       positions: seq<Position>)
    requires PrefiltersKnown(r, prefilters)
    requires forall p :: p in positions ==> r.Has(p) && Selected(r, expected, pass, p)
    ensures Tested(r, prefilters, input, Filter(r, input, expected, pass), positions)
  {
    forall p | p in positions
      ensures r.PatternAt(p).source in prefilters
      ensures Filter(r, input, expected, pass)(p) <==> Passes(r, prefilters, input, p)
    {
      assert PrefilterKnown(r, prefilters, p);
    }
  }

  /** The patterns of one candidate: the inner grouping loop of the lookup. */
  method CollectPatterns(r: Registry, prefilters: Prefilters, positions: seq<Position>, start: nat, c: nat, input: string,
                         ghost keep: Position -> bool) returns (patterns: seq<Pattern>, cursor: nat)
    requires Tested(r, prefilters, input, keep, positions) && NoneMissing(positions, keep)
    requires Ascending(positions) && c < |r.candidates| && CutAt(positions, start, Position(c, 0))
    ensures patterns == KeptPatterns(r.candidates, keep, c, |r.candidates[c].patterns|)
    ensures start <= cursor && CutAt(positions, cursor, Position(c + 1, 0))
    ensures start < |positions| && positions[start].candidate == c ==> start < cursor
  {
    ghost var n := |r.candidates[c].patterns|;
    patterns, cursor := [], start;
    ghost var seen: nat := 0;
    while cursor < |positions| && positions[cursor].candidate == c
      invariant start <= cursor <= |positions| && seen <= n
      invariant CutAt(positions, cursor, Position(c, seen))
      invariant patterns == KeptPatterns(r.candidates, keep, c, seen)
    {
      var position := positions[cursor];
      assert position in positions && position == Position(c, position.pattern);
      assert keep(position) <==> Passes(r, prefilters, input, position);
      CutAtPosition(positions, cursor, Position(c, seen));
      SkipPatterns(r.candidates, keep, positions, cursor, c, seen, position.pattern);
      var pattern := r.candidates[c].patterns[position.pattern];
      if r.overridden(r.candidates[c], pattern) || Accepts(r.u, prefilters[pattern.source], input) {
        patterns := patterns + [pattern];
      }
      seen := position.pattern + 1;
      cursor := cursor + 1;
    }
    EndOfCandidate(r, positions, cursor, c, seen);
    SkipPatterns(r.candidates, keep, positions, cursor, c, seen, n);
  }

  /** The next candidate that has positions, with those of its patterns that pass. */
  method CollectCandidate(r: Registry, prefilters: Prefilters, positions: seq<Position>, cursor: nat, input: string, before: seq<Registration>,
                          ghost done: nat, ghost keep: Position -> bool)
    returns (next: nat, result: seq<Registration>, ghost seen: nat)
    requires Tested(r, prefilters, input, keep, positions) && NoneMissing(positions, keep)
    requires Ascending(positions) && cursor < |positions| && done <= |r.candidates| && CutAt(positions, cursor, Position(done, 0))
    requires before == LinearScan(r.candidates, keep, done)
    ensures cursor < next <= |positions| && seen <= |r.candidates| && CutAt(positions, next, Position(seen, 0))
    ensures result == LinearScan(r.candidates, keep, seen)
  {
    var c := positions[cursor].candidate;
    assert positions[cursor] in positions;
    StartOfCandidate(positions, cursor, done);
    SkipCandidates(r.candidates, keep, positions, cursor, done, c);
    var patterns;
    patterns, next := CollectPatterns(r, prefilters, positions, cursor, c, input, keep);
    result := if patterns != [] then before + [r.candidates[c].(patterns := patterns)] else before;
    seen := c + 1;
  }

  /** The grouping loop: candidates in order, each with the patterns that pass. */
  method Collect(r: Registry, prefilters: Prefilters, positions: seq<Position>, input: string,
                 ghost keep: Position -> bool) returns (result: seq<Registration>)
    requires Tested(r, prefilters, input, keep, positions) && NoneMissing(positions, keep)
    requires Ascending(positions)
    ensures result == LinearScan(r.candidates, keep, |r.candidates|)
  {
    result := [];
    var cursor := 0;
    ghost var done: nat := 0;
    while cursor < |positions|
      invariant 0 <= cursor <= |positions| && done <= |r.candidates|
      invariant CutAt(positions, cursor, Position(done, 0))
      invariant result == LinearScan(r.candidates, keep, done)
    {
      cursor, result, done := CollectCandidate(r, prefilters, positions, cursor, input, result, done, keep);
    }
    EndOfPositions(r, positions);
    SkipCandidates(r.candidates, keep, positions, cursor, done, |r.candidates|);
  }

  // ---------------------------------------------------------------------- the session

  datatype PositionKey = PositionKey(initial: Option<char>, expectedTypeId: nat, pass: RegisteredPass)

  /** The lookup fields of an expression session. The caches fill up over the session. */
  class CandidateIndex {
    const r: Registry
    const prefilters: Prefilters
    const index: InitialIndex
    var expectedTypeIds: map<seq<ExpectedType>, nat>
    var compatibility: seq<seq<bool>>
    var positionCache: map<PositionKey, seq<Position>>
    /** The expected types behind each id. */
    ghost var expectedOf: seq<seq<ExpectedType>>

    ghost predicate IdsValid()
      reads this
    {
      && |expectedOf| == |compatibility|
      && (forall e :: e in expectedTypeIds ==> expectedTypeIds[e] < |expectedOf| && expectedOf[expectedTypeIds[e]] == e)
      && (forall i :: 0 <= i < |expectedOf| ==> RowFor(r, compatibility[i], expectedOf[i]))
    }

    ghost predicate CacheValid()
      reads this
    {
      forall key :: key in positionCache ==>
        && key.expectedTypeId < |expectedOf|
        && PositionsFor(r, index, positionCache[key], key.initial, expectedOf[key.expectedTypeId], key.pass)
    }

    ghost predicate Valid()
      reads this
    {
      r.Valid() && PrefiltersKnown(r, prefilters) && InitialsKnown(r, index) && IdsValid() && CacheValid()
    }

    constructor (registry: Registry)
      requires registry.Valid()
      ensures Valid() && r == registry
    {
      var known := PatternPrefilterIndex(registry);
      var initials := PatternInitialIndex(registry, known);
      r, prefilters, index := registry, known, initials;
      expectedTypeIds, compatibility, positionCache := map[], [], map[];
      expectedOf := [];
    }

    /** `expected_type_id`: interns the expected types and fills their compatibility row. */
    method ExpectedTypeId(expected: seq<ExpectedType>) returns (id: nat)
      requires Valid()
      modifies this`expectedTypeIds, this`compatibility, this`expectedOf
      ensures Valid() && old(expectedOf) <= expectedOf
      ensures id < |expectedOf| && expectedOf[id] == expected
    {
      if expected in expectedTypeIds { return expectedTypeIds[expected]; }
      var row := CompatibilityRow(r, expected);
      id := |compatibility|;
      compatibility := compatibility + [row];
      expectedTypeIds := expectedTypeIds[expected := id];
      expectedOf := expectedOf + [expected];
      assert CacheValid() by {
        forall key | key in positionCache
          ensures PositionsFor(r, index, positionCache[key], key.initial, expectedOf[key.expectedTypeId], key.pass)
        {
          assert expectedOf[key.expectedTypeId] == old(expectedOf)[key.expectedTypeId];
        }
      }
    }

    /** The index answers what a linear scan over every registered pattern answers, in
        registration order, whatever was looked up before. */
    method MatcherCandidates(input: string, expected: seq<ExpectedType>, pass: RegisteredPass) returns (result: seq<Registration>)
      requires Valid()
      modifies this`expectedTypeIds, this`compatibility, this`expectedOf, this`positionCache
      ensures Valid()
      ensures result == LinearScan(r.candidates, Filter(r, input, expected, pass), |r.candidates|)
    {
      var initial := Initial(r.u, input);
      var id := ExpectedTypeId(expected);
      var key := PositionKey(initial, id, pass);
      if key !in positionCache {
        var found := FindPositions(r, prefilters, index, compatibility[id], initial, expected, pass);
        positionCache := positionCache[key := found];
      }
      var positions := positionCache[key];
      assert PositionsFor(r, index, positions, initial, expected, pass);
      KeptIsPosition(r, index, positions, input, expected, pass);
      SelectedTested(r, prefilters, input, expected, pass, positions);
      result := Collect(r, prefilters, positions, input, Filter(r, input, expected, pass));
    }
  }

  method CompatibilityRow(r: Registry, expected: seq<ExpectedType>) returns (row: seq<bool>)
    ensures RowFor(r, row, expected)
  {
    row := [];
    var c := 0;
    while c < |r.candidates|
      invariant 0 <= c <= |r.candidates| && |row| == c
      invariant forall i :: 0 <= i < c ==> row[i] == r.compatible(r.candidates[i], expected)
    {
      row := row + [r.compatible(r.candidates[c], expected)];
      c := c + 1;
    }
  }

  // ------------------------------------------------------------------- the two passes

  /** A pattern that no hook overrides is tried in exactly one of the two passes: the
      growth pass if it can begin with a typed capture, the base pass if it cannot. */
  lemma PassesPartition(r: Registry, expected: seq<ExpectedType>, p: Position)
    requires r.Has(p) && !r.Overridden(p) && r.compatible(r.candidates[p.candidate], expected)
    requires Inhabited(r.PatternAt(p).elements)
    ensures Selected(r, expected, LeftRecursive, p)
       <==> exists parts :: parts in Expansions(r.PatternAt(p).elements) && StartsTyped(parts)
    ensures Selected(r, expected, Base, p) <==> !Selected(r, expected, LeftRecursive, p)
  {
    LeftRecursiveExactly(r.u, r.PatternAt(p).elements);
  }

  /** From scan to matcher: on trimmed text a pattern that matches, and whose required literals
      are single-spaced, is among the candidates of one of the passes. */
  lemma MatchingPatternIsKept(r: Registry, input: string, expected: seq<ExpectedType>, p: Position)
    requires r.Valid() && r.Has(p) && !r.Overridden(p) && r.compatible(r.candidates[p.candidate], expected)
    requires TrimmedOrBlank(input) && SingleSpaced(r.u, r.PatternAt(p).elements)
    requires Matches(r.u, r.PatternAt(p).elements, input)
    ensures Keeps(r, input, expected, Base, p) || Keeps(r, input, expected, LeftRecursive, p)
  {
    PrefilterTrustedExactly(r.u, input);
  }
}
