/** Failures of nested parsing: how they are ranked, and which one is kept. */
module FailureTraces {
  import opened Text

  datatype Reason = EventRestricted | DefaultExpression | OtherReason(text: string)

  datatype Failure = Failure(range: Range, reasons: seq<Reason>)

  datatype Role = SemanticCandidate | TypeCapture | ExpressionCapture(index: nat) | ConditionCapture(index: nat) | EffectCapture(index: nat)

  datatype Frame = Frame(registrationId: string, range: Range, role: Role)

  datatype Trace = Trace(failure: Failure, frame: Option<Frame>, cause: Option<Trace>, diagnostics: seq<string>)

  function RootCause(t: Trace): Trace { if t.cause.None? then t else RootCause(t.cause.value) }

  function WithParent(t: Trace, frame: Frame): Trace { Trace(t.failure, Some(frame), Some(t), []) }

  /** The ranges of the frames, outermost first. */
  function FrameRanges(t: Trace): seq<Range> {
    (if t.frame.Some? then [t.frame.value.range] else []) + if t.cause.Some? then FrameRanges(t.cause.value) else []
  }

  /** From the outermost frame to the root cause. */
  function Spans(t: Trace): (r: seq<Range>)
    ensures r != []
  {
    FrameRanges(t) + [RootCause(t).failure.range]
  }

  /** How many runs of equal ranges there are. */
  function Runs(ranges: seq<Range>): nat {
    if |ranges| <= 1 then |ranges|
    else Runs(ranges[1..]) + if ranges[0] == ranges[1] then 0 else 1
  }

  /** The ranges without those that repeat the one in front. */
  function Appended(ranges: seq<Range>, range: Range): seq<Range> {
    if ranges != [] && ranges[|ranges| - 1] == range then ranges else ranges + [range]
  }

  function Collapsed(ranges: seq<Range>): (r: seq<Range>)
    ensures ranges != [] ==> r != [] && r[|r| - 1] == ranges[|ranges| - 1]
    ensures ranges == [] ==> r == []
  {
    if ranges == [] then [] else Appended(Collapsed(ranges[..|ranges| - 1]), ranges[|ranges| - 1])
  }

  lemma {:induction false} RunsBehind(ranges: seq<Range>, range: Range)
    ensures Runs(ranges + [range]) == Runs(ranges) + if ranges != [] && ranges[|ranges| - 1] == range then 0 else 1
    decreases |ranges|
  {
    if |ranges| > 1 {
      RunsBehind(ranges[1..], range);
      assert (ranges + [range])[1..] == ranges[1..] + [range];
    }
  }

  /** Collapsing leaves one range for each run. */
  lemma {:induction false} CollapsedRuns(ranges: seq<Range>)
    ensures |Collapsed(ranges)| == Runs(ranges)
    decreases |ranges|
  {
    if ranges != [] {
      var before := ranges[..|ranges| - 1];
      CollapsedRuns(before);
      RunsBehind(before, ranges[|ranges| - 1]);
      assert ranges == before + [ranges[|ranges| - 1]];
    }
  }

  lemma {:induction false} CollapsedNext(ranges: seq<Range>, range: Range)
    ensures Collapsed(ranges + [range]) == Appended(Collapsed(ranges), range)
  {
    assert (ranges + [range])[..|ranges|] == ranges;
  }

  function SpecificityOf(t: Trace): nat { Runs(Spans(t)) }

  /** `specificity`: the number of different ranges on the way to the root cause. */
  method Specificity(t: Trace) returns (n: nat)
    ensures n == SpecificityOf(t)
  {
    var ranges: seq<Range> := [];
    var current := Some(t);
    ghost var passed: seq<Range> := [];
    while current.Some?
      invariant ranges == Collapsed(passed)
      invariant FrameRanges(t) == passed + RangesFrom(current)
      decreases current
    {
      var trace := current.value;
      if trace.frame.Some? {
        PassFrame(passed, trace);
        ranges := Push(ranges, trace.frame.value.range);
        passed := passed + [trace.frame.value.range];
      } else {
        assert RangesFrom(current) == RangesFrom(trace.cause);
      }
      current := trace.cause;
    }
    var root := RootCause(t).failure.range;
    assert passed + RangesFrom(None) == passed;
    assert Spans(t) == passed + [root];
    CollapsedNext(passed, root);
    CollapsedRuns(passed + [root]);
    ranges := Push(ranges, root);
    n := |ranges|;
  }

  method Push(ranges: seq<Range>, range: Range) returns (r: seq<Range>)
    ensures r == Appended(ranges, range)
  {
    r := ranges;
    if ranges == [] || ranges[|ranges| - 1] != range { r := r + [range]; }
  }

  function RangesFrom(t: Option<Trace>): seq<Range> { if t.Some? then FrameRanges(t.value) else [] }

  lemma {:induction false} PassFrame(passed: seq<Range>, t: Trace)
    requires t.frame.Some?
    ensures Collapsed(passed + [t.frame.value.range]) == Appended(Collapsed(passed), t.frame.value.range)
    ensures passed + FrameRanges(t) == passed + [t.frame.value.range] + RangesFrom(t.cause)
  {
    CollapsedNext(passed, t.frame.value.range);
    Regrouped(passed, t.frame.value.range, RangesFrom(t.cause));
  }

  lemma Regrouped(a: seq<Range>, range: Range, b: seq<Range>)
    ensures a + ([range] + b) == a + [range] + b
  {}

  /** A parent keeps the root cause and adds one exactly when its range is a new one. */
  lemma {:induction false} ParentRaises(t: Trace, frame: Frame)
    ensures RootCause(WithParent(t, frame)) == RootCause(t)
    ensures SpecificityOf(WithParent(t, frame)) == SpecificityOf(t) + if Spans(t)[0] == frame.range then 0 else 1
  {
    var parent := WithParent(t, frame);
    assert Spans(parent) == [frame.range] + Spans(t);
    assert Spans(parent)[1..] == Spans(t);
  }

  // ------------------------------------------------------------------------- ranking

  predicate IsEventRestriction(t: Trace) { EventRestricted in RootCause(t).failure.reasons }

  predicate IsDefaultFailure(t: Trace) { DefaultExpression in RootCause(t).failure.reasons }

  predicate IsSemanticRejection(t: Trace) {
    || (t.frame.Some? && t.frame.value.role == SemanticCandidate)
    || (t.cause.Some? && IsSemanticRejection(t.cause.value))
  }

  datatype Ordering = Less | Equal | Greater

  function CompareInt(a: int, b: int): Ordering { if a < b then Less else if a == b then Equal else Greater }

  function Then(first: Ordering, second: Ordering): Ordering { if first == Equal then second else first }

  function Length(r: Range): nat { if r.end < r.start then 0 else r.end - r.start }

  /** `compare_failure_rank_at_progress`; `Greater` when the candidate is the better one. */
  function CompareRank(current: Range, progress: nat, specificity: nat, candidate: Range, candidateProgress: nat, candidateSpecificity: nat): Ordering {
    match (Length(current) > 0, Length(candidate) > 0)
    case (false, true) => Greater
    case (true, false) => Less
    case (true, true) =>
      Then(CompareInt(candidateProgress, progress),
           Then(CompareInt(candidateSpecificity, specificity),
                Then(CompareInt(candidate.start, current.start), CompareInt(Length(current), Length(candidate)))))
    case (false, false) => Then(CompareInt(candidateSpecificity, specificity), CompareInt(candidate.start, current.start))
  }

  function Progress(t: Trace): nat {
    if IsEventRestriction(t) then RootCause(t).failure.range.end else RootCause(t).failure.range.start
  }

  function Flag(b: bool): int { if b then 1 else 0 }

  /** `compare_failure_trace_rank`. */
  function Compare(current: Trace, candidate: Trace): Ordering {
    Then(CompareInt(Flag(IsDefaultFailure(candidate)), Flag(IsDefaultFailure(current))),
         Then(CompareRank(RootCause(current).failure.range, Progress(current), SpecificityOf(current),
                          RootCause(candidate).failure.range, Progress(candidate), SpecificityOf(candidate)),
              CompareInt(Flag(IsSemanticRejection(candidate)), Flag(IsSemanticRejection(current)))))
  }

  /** What the ranking looks at, each part so that more is better. */
  datatype Rank = Rank(default: int, visible: int, progress: int, specificity: int, start: int, narrow: int, semantic: int)

  function RankOf(t: Trace): Rank {
    var range := RootCause(t).failure.range;
    var visible := Length(range) > 0;
    Rank(Flag(IsDefaultFailure(t)), Flag(visible), if visible then Progress(t) else 0, SpecificityOf(t), range.start,
         if visible then -(Length(range) as int) else 0, Flag(IsSemanticRejection(t)))
  }

  /** Lexicographic. */
  predicate Below(a: Rank, b: Rank) {
    || a.default < b.default
    || (a.default == b.default
        && (|| a.visible < b.visible
            || (a.visible == b.visible
                && (|| a.progress < b.progress
                    || (a.progress == b.progress
                        && (|| a.specificity < b.specificity
                            || (a.specificity == b.specificity
                                && (|| a.start < b.start
                                    || (a.start == b.start
                                        && (|| a.narrow < b.narrow
                                            || (a.narrow == b.narrow && a.semantic < b.semantic)))))))))))
  }

  /** The comparison is that of the ranks, so it is a total preorder. */
  lemma ComparesRanks(current: Trace, candidate: Trace)
    ensures Compare(current, candidate) == Greater <==> Below(RankOf(current), RankOf(candidate))
    ensures Compare(current, candidate) == Less <==> Below(RankOf(candidate), RankOf(current))
    ensures Compare(current, candidate) == Equal <==> RankOf(current) == RankOf(candidate)
  {}

  predicate Better(a: Trace, b: Trace) { Compare(b, a) == Greater }

  /** Total, transitive, and mirrored. */
  lemma TotalPreorder(a: Trace, b: Trace, c: Trace)
    ensures Compare(a, a) == Equal
    ensures Better(a, b) <==> Compare(a, b) == Less
    ensures !(Better(a, b) && Better(b, a))
    ensures !Better(a, b) && !Better(b, c) ==> !Better(a, c)
    ensures Compare(a, b) == Equal && Compare(b, c) == Equal ==> Compare(a, c) == Equal
  {
    ComparesRanks(a, a);
    ComparesRanks(a, b);
    ComparesRanks(b, a);
    ComparesRanks(b, c);
    ComparesRanks(c, b);
    ComparesRanks(a, c);
    ComparesRanks(c, a);
  }

  // ------------------------------------------------------------------------ choosing

  /** `choose_failure_trace`. */
  function Choose(current: Option<Trace>, candidate: Option<Trace>): Option<Trace> {
    if current.None? then candidate
    else if candidate.None? then current
    else if Compare(current.value, candidate.value) == Greater then candidate
    else current
  }

  /** Choosing again and again, from nothing. */
  function Chosen(traces: seq<Option<Trace>>): Option<Trace> {
    if traces == [] then None else Choose(Chosen(traces[..|traces| - 1]), traces[|traces| - 1])
  }

  /** Trace `i` is a best one, and all before it are worse. */
  ghost predicate EarliestBest(traces: seq<Option<Trace>>, i: nat)
    requires i < |traces| && traces[i].Some?
  {
    && (forall j :: 0 <= j < |traces| && traces[j].Some? ==> !Better(traces[j].value, traces[i].value))
    && (forall j :: 0 <= j < i && traces[j].Some? ==> Better(traces[i].value, traces[j].value))
  }

  /** What is kept in the end is the earliest of the best; nothing only if there was nothing. */
  lemma {:induction false} ChosenIsEarliestBest(traces: seq<Option<Trace>>) returns (i: nat)
    ensures Chosen(traces).None? <==> forall j :: 0 <= j < |traces| ==> traces[j].None?
    ensures Chosen(traces).Some? ==> i < |traces| && traces[i] == Chosen(traces) && EarliestBest(traces, i)
    decreases |traces|
  {
    i := 0;
    if traces != [] {
      var last := |traces| - 1;
      var before := traces[..last];
      var k := ChosenIsEarliestBest(before);
      assert forall j :: 0 <= j < last ==> before[j] == traces[j];
      var candidate := traces[last];
      if candidate.None? {
        i := k;
      } else if Chosen(before).None? {
        i := last;
        TotalPreorder(candidate.value, candidate.value, candidate.value);
      } else {
        i := if Compare(traces[k].value, candidate.value) == Greater then last else k;
        TotalPreorder(candidate.value, candidate.value, candidate.value);
        forall j | 0 <= j < last && traces[j].Some? ensures !Better(traces[j].value, traces[i].value) && (i == last ==> Better(traces[i].value, traces[j].value)) {
          assert !Better(before[j].value, before[k].value);
          StillBetter(candidate.value, traces[k].value, traces[j].value);
        }
      }
    }
  }

  /** Better than something that is at least as good. */
  lemma StillBetter(a: Trace, b: Trace, c: Trace)
    requires !Better(c, b)
    ensures Better(a, b) ==> Better(a, c) && !Better(c, a)
  {
    TotalPreorder(a, b, c);
    TotalPreorder(c, b, a);
    TotalPreorder(a, c, b);
    TotalPreorder(b, c, a);
  }

  /** In whatever order failures come, what is kept ranks the same. */
  lemma {:induction false} OrderKeepsRank(traces: seq<Option<Trace>>, other: seq<Option<Trace>>)
    requires multiset(traces) == multiset(other)
    ensures Chosen(traces).Some? <==> Chosen(other).Some?
    ensures Chosen(traces).Some? ==> Compare(Chosen(traces).value, Chosen(other).value) == Equal
  {
    var i := ChosenIsEarliestBest(traces);
    var j := ChosenIsEarliestBest(other);
    forall k | 0 <= k < |traces| ensures traces[k] in other { assert traces[k] in multiset(other); }
    forall k | 0 <= k < |other| ensures other[k] in traces { assert other[k] in multiset(traces); }
    if Chosen(traces).Some? && Chosen(other).Some? {
      var a :| 0 <= a < |other| && other[a] == traces[i];
      var b :| 0 <= b < |traces| && traces[b] == other[j];
      ComparesRanks(traces[i].value, other[j].value);
      TotalPreorder(traces[i].value, other[j].value, traces[i].value);
    }
  }
}
