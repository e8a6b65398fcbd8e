/** Arithmetic chains: finding the operators of a text and choosing the one that becomes
    the root of its tree. */
module Arithmetic {
  import opened Text

  datatype Priority = Priority(after: seq<Priority>, before: seq<Priority>)

  datatype Operator = Operator(sign: string, priority: Priority)

  datatype Occurrence = Occurrence(operator: nat, start: nat, end: nat)

  datatype Ordering = Less | Equal | Greater

  function ComparePriority(left: Priority, right: Priority): Ordering {
    if left == right then Equal
    else if right in left.before || left in right.after || exists p :: p in left.before && p in right.after then Less
    else if right in left.after || left in right.before || exists p :: p in left.after && p in right.before then Greater
    else Equal
  }

  /** Operator `a` binds tighter than operator `b`. */
  predicate Tighter(operators: seq<Operator>, a: nat, b: nat)
    requires a < |operators| && b < |operators|
  {
    ComparePriority(operators[a].priority, operators[b].priority) == Less
  }

  /** The priorities of a catalog are layers: no two operators each bind tighter than the
      other, and not binding tighter carries over a third one. */
  ghost predicate Layered(operators: seq<Operator>) {
    forall a, b, c :: 0 <= a < |operators| && 0 <= b < |operators| && 0 <= c < |operators| ==>
      && !(Tighter(operators, a, b) && Tighter(operators, b, a))
      && (Tighter(operators, a, c) ==> Tighter(operators, a, b) || Tighter(operators, b, c))
  }

  /** Whatever the priorities, one that is greater than another has the other below it. */
  lemma GreaterMirrors(left: Priority, right: Priority)
    ensures ComparePriority(left, right) == Greater ==> ComparePriority(right, left) == Less
  {}

  // ---------------------------------------------------------------------- the scan

  predicate SignAt(sign: string, input: string, cursor: nat, end: nat)
    requires end <= |input|
  {
    sign != "" && cursor + |sign| <= end && input[cursor..cursor + |sign|] == sign
  }

  /** Length of the longest sign at `cursor`; zero when there is none. */
  function Longest(operators: seq<Operator>, input: string, cursor: nat, end: nat): (r: nat)
    requires end <= |input|
    ensures r > 0 ==> cursor + r <= end
  {
    if operators == [] then 0
    else
      var last := |operators| - 1;
      var before := Longest(operators[..last], input, cursor, end);
      if SignAt(operators[last].sign, input, cursor, end) && before < |operators[last].sign| then |operators[last].sign| else before
  }

  lemma {:induction false} LongestBounds(operators: seq<Operator>, input: string, cursor: nat, end: nat, i: nat)
    requires end <= |input| && i < |operators| && SignAt(operators[i].sign, input, cursor, end)
    ensures |operators[i].sign| <= Longest(operators, input, cursor, end)
  {
    var last := |operators| - 1;
    if i < last {
      assert operators[..last][i] == operators[i];
      LongestBounds(operators[..last], input, cursor, end, i);
    }
  }

  lemma {:induction false} LongestStands(operators: seq<Operator>, input: string, cursor: nat, end: nat) returns (i: nat)
    requires end <= |input| && Longest(operators, input, cursor, end) > 0
    ensures i < |operators| && SignAt(operators[i].sign, input, cursor, end)
    ensures |operators[i].sign| == Longest(operators, input, cursor, end)
  {
    var last := |operators| - 1;
    var before := Longest(operators[..last], input, cursor, end);
    if SignAt(operators[last].sign, input, cursor, end) && before < |operators[last].sign| { return last; }
    i := LongestStands(operators[..last], input, cursor, end);
  }

  /** The operators whose sign of that length stands at `cursor`. */
  function Standing(operators: seq<Operator>, input: string, cursor: nat, end: nat, length: nat, n: nat): (r: seq<Occurrence>)
    requires end <= |input| && n <= |operators|
    ensures forall k :: 0 <= k < |r| ==> r[k].operator < n && r[k].start == cursor && r[k].end == cursor + length
  {
    if n == 0 then []
    else
      Standing(operators, input, cursor, end, length, n - 1)
      + if |operators[n - 1].sign| == length && SignAt(operators[n - 1].sign, input, cursor, end)
        then [Occurrence(n - 1, cursor, cursor + length)] else []
  }

  predicate RegionStart(c: char) { c == '"' || c == '{' || c == '(' }

  /** Where the quoted text, variable or parenthesis that opens at `cursor` closes. */
  function RegionClose(input: string, cursor: nat, end: nat): (r: Option<nat>)
    requires cursor < end <= |input| && RegionStart(input[cursor])
    ensures r.Some? ==> cursor < r.value < end && input[r.value] in {'"', '}', ')'}
  {
    if input[cursor] == '"' then FindQuoteEnd(input, cursor + 1, end)
    else if input[cursor] == '{' then FindVariableEnd(input, cursor + 1, end)
    else FindParenthesisEnd(input, cursor + 1, end)
  }

  lemma RegionCloseLocal(input: string, cursor: nat, small: nat, large: nat)
    requires cursor < small <= large <= |input| && RegionStart(input[cursor])
    requires RegionClose(input, cursor, large).Some? && RegionClose(input, cursor, large).value < small
    ensures RegionClose(input, cursor, small) == RegionClose(input, cursor, large)
  {
    QuoteEndLocal(input, cursor + 1, small, large);
    VariableEndLocal(input, cursor + 1, small, large);
    ParenthesisEndLocal(input, cursor + 1, small, large);
  }

  /** One move of the cursor and the operators it passes; nothing for a region left open. */
  function Move(operators: seq<Operator>, input: string, cursor: nat, end: nat): (r: Option<(nat, seq<Occurrence>)>)
    requires cursor < end <= |input|
    ensures r.Some? ==> cursor < r.value.0 <= end && Passed(|operators|, cursor, r.value.0, r.value.1)
  {
    if RegionStart(input[cursor]) then
      (match RegionClose(input, cursor, end)
       case None => None
       case Some(close) => Some((close + 1, [])))
    else
      var length := Longest(operators, input, cursor, end);
      if length == 0 then Some((cursor + 1, []))
      else Some((cursor + length, Standing(operators, input, cursor, end, length, |operators|)))
  }

  /** Occurrences of the first `n` operators inside a range. */
  predicate Passed(n: nat, start: nat, end: nat, occurrences: seq<Occurrence>) {
    forall k :: 0 <= k < |occurrences| ==>
      start <= occurrences[k].start < occurrences[k].end <= end && occurrences[k].operator < n
  }

  /** The moves of a scan, by cursor. */
  type Moves = nat -> Option<(nat, seq<Occurrence>)>

  ghost predicate Advances(moves: Moves, n: nat, end: nat) {
    forall c: nat :: c < end && moves(c).Some? ==> c < moves(c).value.0 <= end && Passed(n, c, moves(c).value.0, moves(c).value.1)
  }

  function MovesOf(operators: seq<Operator>, input: string, end: nat): (moves: Moves)
    requires end <= |input|
    ensures Advances(moves, |operators|, end)
  {
    (c: nat) => if c < end then Move(operators, input, c, end) else None
  }

  /** Occurrences found so far, followed by those still to come. */
  function Resumed(found: seq<Occurrence>, rest: Option<seq<Occurrence>>): Option<seq<Occurrence>> {
    if rest.Some? then Some(found + rest.value) else None
  }

  /** What a scan passes from `cursor` on; nothing at all when a region is left open. */
  function Scan(moves: Moves, n: nat, cursor: nat, end: nat): (r: Option<seq<Occurrence>>)
    requires Advances(moves, n, end)
    ensures r.Some? ==> Passed(n, cursor, end, r.value)
    decreases end - cursor
  {
    if cursor >= end then Some([])
    else
      match moves(cursor)
      case None => None
      case Some((next, found)) => Resumed(found, Scan(moves, n, next, end))
  }

  /** The operators of a range, outside quotes, variables and parentheses. */
  function Occurrences(operators: seq<Operator>, input: string, range: Range): (r: seq<Occurrence>)
    requires range.Within(input)
    ensures Passed(|operators|, range.start, range.end, r)
  {
    match Scan(MovesOf(operators, input, range.end), |operators|, range.start, range.end)
    case None => []
    case Some(occurrences) => occurrences
  }

  method ScanStep(operators: seq<Operator>, input: string, cursor: nat, end: nat) returns (r: Option<(nat, seq<Occurrence>)>)
    requires cursor < end <= |input|
    ensures r == MovesOf(operators, input, end)(cursor)
  {
    if RegionStart(input[cursor]) {
      var close := RegionClose(input, cursor, end);
      if close.None? { return None; }
      return Some((close.value + 1, []));
    }
    var length := Longest(operators, input, cursor, end);
    if length > 0 { return Some((cursor + length, Standing(operators, input, cursor, end, length, |operators|))); }
    return Some((cursor + 1, []));
  }

  lemma ResumedTwice(a: seq<Occurrence>, b: seq<Occurrence>, rest: Option<seq<Occurrence>>)
    ensures Resumed(a, Resumed(b, rest)) == Resumed(a + b, rest)
  {
    if rest.Some? { assert a + (b + rest.value) == (a + b) + rest.value; }
  }

  method OperatorOccurrences(operators: seq<Operator>, input: string, range: Range) returns (occurrences: seq<Occurrence>)
    requires range.Within(input)
    ensures occurrences == Occurrences(operators, input, range)
  {
    occurrences := [];
    var cursor := range.start;
    ghost var moves, n := MovesOf(operators, input, range.end), |operators|;
    ghost var all := Scan(moves, n, cursor, range.end);
    assert all.Some? ==> [] + all.value == all.value;
    while cursor < range.end
      invariant all == Resumed(occurrences, Scan(moves, n, cursor, range.end))
      decreases range.end - cursor
    {
      var step := ScanStep(operators, input, cursor, range.end);
      if step.None? { return []; }
      ResumedTwice(occurrences, step.value.1, Scan(moves, n, step.value.0, range.end));
      occurrences := occurrences + step.value.1;
      cursor := step.value.0;
    }
    assert occurrences + [] == occurrences;
  }

  // ------------------------------------------------------------------ root candidates

  predicate Ranks(operators: seq<Operator>, a: nat, b: nat)
    requires a < |operators| && b < |operators|
  {
    || Tighter(operators, a, b)
    || (ComparePriority(operators[a].priority, operators[b].priority) == Equal && StringLess(operators[a].sign, operators[b].sign))
  }

  predicate Indices(operators: seq<Operator>, order: seq<nat>) {
    forall k :: 0 <= k < |order| ==> order[k] < |operators|
  }

  /** Loosest first. */
  predicate LoosestFirst(operators: seq<Operator>, order: seq<nat>)
    requires Indices(operators, order)
  {
    forall i, j :: 0 <= i < j < |order| ==> !Tighter(operators, order[i], order[j])
  }

  /** Sorted insertion into a descending order, in front of everything it does not rank below. */
  function Insert(operators: seq<Operator>, order: seq<nat>, index: nat): (r: seq<nat>)
    requires Indices(operators, order) && index < |operators|
    ensures Indices(operators, r)
  {
    if order == [] then [index]
    else if Ranks(operators, index, order[0]) then [order[0]] + Insert(operators, order[1..], index)
    else [index] + order
  }

  lemma {:induction false} InsertAdds(operators: seq<Operator>, order: seq<nat>, index: nat)
    requires Indices(operators, order) && index < |operators|
    ensures multiset(Insert(operators, order, index)) == multiset(order) + multiset{index}
  {
    if order != [] && Ranks(operators, index, order[0]) {
      InsertAdds(operators, order[1..], index);
      assert order == [order[0]] + order[1..];
    }
  }

  /** Everything in the order is at least as loose as what stands in front of it. */
  predicate Heads(operators: seq<Operator>, head: nat, order: seq<nat>)
    requires Indices(operators, order) && head < |operators|
  {
    forall k :: 0 <= k < |order| ==> !Tighter(operators, head, order[k])
  }

  lemma Headed(operators: seq<Operator>, head: nat, order: seq<nat>)
    requires Indices(operators, order) && head < |operators| && LoosestFirst(operators, order) && Heads(operators, head, order)
    ensures LoosestFirst(operators, [head] + order)
  {}

  lemma HeadsLooser(operators: seq<Operator>, head: nat, order: seq<nat>)
    requires Layered(operators) && Indices(operators, order) && head < |operators| && LoosestFirst(operators, order)
    requires order != [] && !Tighter(operators, head, order[0])
    ensures Heads(operators, head, order)
  {
    forall k | 0 <= k < |order| ensures !Tighter(operators, head, order[k]) {
      assert k > 0 ==> !Tighter(operators, order[0], order[k]);
    }
  }

  lemma {:induction false} HeadsInsert(operators: seq<Operator>, head: nat, order: seq<nat>, index: nat)
    requires Indices(operators, order) && head < |operators| && index < |operators|
    requires Heads(operators, head, order) && !Tighter(operators, head, index)
    ensures Heads(operators, head, Insert(operators, order, index))
  {
    var r := Insert(operators, order, index);
    InsertAdds(operators, order, index);
    forall k | 0 <= k < |r| ensures !Tighter(operators, head, r[k]) {
      assert r[k] in multiset(r);
      assert r[k] == index || r[k] in order;
    }
  }

  lemma {:induction false} InsertKeepsOrder(operators: seq<Operator>, order: seq<nat>, index: nat)
    requires Layered(operators) && Indices(operators, order) && LoosestFirst(operators, order) && index < |operators|
    ensures LoosestFirst(operators, Insert(operators, order, index))
  {
    if order != [] {
      if Ranks(operators, index, order[0]) {
        InsertKeepsOrder(operators, order[1..], index);
        assert !Tighter(operators, order[0], index);
        HeadsInsert(operators, order[0], order[1..], index);
        Headed(operators, order[0], Insert(operators, order[1..], index));
      } else {
        HeadsLooser(operators, index, order);
        Headed(operators, index, order);
      }
    }
  }

  /** The operators, loosest first (the ascending stable sort, reversed). */
  method OrderOperators(operators: seq<Operator>) returns (order: seq<nat>)
    ensures Indices(operators, order)
    ensures forall i: nat :: multiset(order)[i] == if i < |operators| then 1 else 0
    ensures Layered(operators) ==> LoosestFirst(operators, order)
  {
    order := [];
    var k := 0;
    while k < |operators|
      invariant 0 <= k <= |operators| && Indices(operators, order)
      invariant forall i: nat :: multiset(order)[i] == if i < k then 1 else 0
      invariant Layered(operators) ==> LoosestFirst(operators, order)
    {
      if Layered(operators) { InsertKeepsOrder(operators, order, k); }
      InsertAdds(operators, order, k);
      order := Insert(operators, order, k);
      k := k + 1;
    }
  }

  predicate SameLayer(operators: seq<Operator>, a: nat, b: nat)
    requires a < |operators| && b < |operators|
  {
    ComparePriority(operators[a].priority, operators[b].priority) == Equal
  }

  function Flatten(groups: seq<seq<nat>>): seq<nat> {
    if groups == [] then [] else Flatten(groups[..|groups| - 1]) + groups[|groups| - 1]
  }

  lemma {:induction false} FlattenMore(groups: seq<seq<nat>>, group: seq<nat>)
    ensures Flatten(groups + [group]) == Flatten(groups) + group
  {
    assert (groups + [group])[..|groups|] == groups;
  }

  lemma {:induction false} FlattenHolds(groups: seq<seq<nat>>, g: nat, x: nat)
    requires g < |groups| && x in groups[g]
    ensures x in Flatten(groups)
  {
    var last := |groups| - 1;
    if g < last {
      assert groups[..last][g] == groups[g];
      FlattenHolds(groups[..last], g, x);
    }
  }

  /** Each group is one layer, and every later group binds tighter. */
  ghost predicate Layers(operators: seq<Operator>, groups: seq<seq<nat>>) {
    && (forall g, x :: 0 <= g < |groups| && x in groups[g] ==> x < |operators|)
    && (forall g, x, y :: 0 <= g < |groups| && x in groups[g] && y in groups[g] ==> SameLayer(operators, x, y))
    && (forall g, h, x, y :: 0 <= g < h < |groups| && x in groups[g] && y in groups[h] ==> Tighter(operators, y, x))
  }

  lemma SameLayerIff(operators: seq<Operator>, a: nat, b: nat)
    requires a < |operators| && b < |operators|
    ensures SameLayer(operators, a, b) <==> !Tighter(operators, a, b) && !Tighter(operators, b, a)
  {
    GreaterMirrors(operators[a].priority, operators[b].priority);
  }

  /** Operators of one layer are interchangeable. */
  lemma LayerShared(operators: seq<Operator>, a: nat, b: nat, c: nat)
    requires Layered(operators) && a < |operators| && b < |operators| && c < |operators| && SameLayer(operators, a, b)
    ensures Tighter(operators, c, a) <==> Tighter(operators, c, b)
    ensures Tighter(operators, a, c) <==> Tighter(operators, b, c)
    ensures SameLayer(operators, a, c) <==> SameLayer(operators, b, c)
  {
    SameLayerIff(operators, a, b);
    SameLayerIff(operators, a, c);
    SameLayerIff(operators, b, c);
  }

  /** The operators in their order, cut where the layer changes. */
  method GroupOperators(operators: seq<Operator>, order: seq<nat>) returns (groups: seq<seq<nat>>)
    requires Indices(operators, order)
    ensures Flatten(groups) == order
    ensures Layered(operators) && LoosestFirst(operators, order) ==> Layers(operators, groups)
  {
    groups := [];
    var k := 0;
    while k < |order|
      invariant 0 <= k <= |order|
      invariant forall g :: 0 <= g < |groups| ==> groups[g] != []
      invariant Flatten(groups) == order[..k]
      invariant Layered(operators) && LoosestFirst(operators, order) ==> Layers(operators, groups)
    {
      var index, last := order[k], |groups| - 1;
      assert order[..k + 1] == order[..k] + [index];
      if groups != [] { FlattenHolds(groups, last, groups[last][0]); assert groups[last][0] in order[..k]; }
      if groups != [] && SameLayer(operators, groups[last][0], index) {
        if Layered(operators) && LoosestFirst(operators, order) { JoinLayer(operators, groups, index, groups[last][0]); }
        var joined := groups[..last] + [groups[last] + [index]];
        FlattenMore(groups[..last], groups[last] + [index]);
        groups := joined;
      } else {
        if Layered(operators) && LoosestFirst(operators, order) {
          if groups != [] {
            assert !Tighter(operators, groups[last][0], index);
            GreaterMirrors(operators[groups[last][0]].priority, operators[index].priority);
          }
          NewLayer(operators, groups, index, if groups == [] then index else groups[last][0]);
        }
        FlattenMore(groups, [index]);
        groups := groups + [[index]];
      }
      k := k + 1;
    }
    assert order[..k] == order;
  }

  /** The last group and its first operator. */
  predicate LastHead(operators: seq<Operator>, groups: seq<seq<nat>>, head: nat) {
    head < |operators| && groups != [] && groups[|groups| - 1] != [] && groups[|groups| - 1][0] == head
  }

  lemma JoinLayer(operators: seq<Operator>, groups: seq<seq<nat>>, index: nat, head: nat)
    requires Layered(operators) && Layers(operators, groups) && index < |operators|
    requires LastHead(operators, groups, head) && SameLayer(operators, head, index)
    ensures Layers(operators, groups[..|groups| - 1] + [groups[|groups| - 1] + [index]])
  {
    var last := |groups| - 1;
    var joined := groups[..last] + [groups[last] + [index]];
    assert head in groups[last];
    forall x | x in joined[last] ensures x < |operators| && SameLayer(operators, head, x) {}
    forall x, y | x in joined[last] && y in joined[last] ensures SameLayer(operators, x, y) {
      LayerShared(operators, head, x, y);
    }
    forall g, x, y | 0 <= g < last && x in joined[g] && y in joined[last] ensures Tighter(operators, y, x) {
      assert joined[g] == groups[g];
      LayerShared(operators, head, y, x);
    }
  }

  lemma NewLayer(operators: seq<Operator>, groups: seq<seq<nat>>, index: nat, head: nat)
    requires Layered(operators) && Layers(operators, groups) && index < |operators|
    requires groups != [] ==> LastHead(operators, groups, head) && Tighter(operators, index, head)
    ensures Layers(operators, groups + [[index]])
  {
    var last := |groups| - 1;
    SameLayerIff(operators, index, index);
    forall g, x | 0 <= g < |groups| && x in groups[g] ensures Tighter(operators, index, x) {
      assert head in groups[last];
      if g == last {
        LayerShared(operators, head, x, index);
      } else {
        assert Tighter(operators, head, x);
        assert !Tighter(operators, x, head);
      }
    }
  }

  /** Insertion into a sequence sorted by descending start, behind equal starts. */
  function InsertLatest(sorted: seq<Occurrence>, o: Occurrence): (r: seq<Occurrence>)
    ensures multiset(r) == multiset(sorted) + multiset{o}
  {
    if sorted == [] then [o]
    else if sorted[0].start < o.start then [o] + sorted
    else
      assert sorted == [sorted[0]] + sorted[1..];
      [sorted[0]] + InsertLatest(sorted[1..], o)
  }

  predicate LatestFirst(sorted: seq<Occurrence>) {
    forall i, j :: 0 <= i < j < |sorted| ==> sorted[i].start >= sorted[j].start
  }

  lemma {:induction false} InsertLatestBelow(sorted: seq<Occurrence>, o: Occurrence, limit: nat)
    requires o.start <= limit && forall k :: 0 <= k < |sorted| ==> sorted[k].start <= limit
    ensures forall k :: 0 <= k < |InsertLatest(sorted, o)| ==> InsertLatest(sorted, o)[k].start <= limit
  {
    var r := InsertLatest(sorted, o);
    forall k | 0 <= k < |r| ensures r[k].start <= limit {
      assert r[k] in multiset(r);
      assert r[k] == o || r[k] in sorted;
    }
  }

  lemma {:induction false} InsertLatestSorted(sorted: seq<Occurrence>, o: Occurrence)
    requires LatestFirst(sorted)
    ensures LatestFirst(InsertLatest(sorted, o))
  {
    if sorted != [] && sorted[0].start >= o.start {
      InsertLatestSorted(sorted[1..], o);
      InsertLatestBelow(sorted[1..], o, sorted[0].start);
    }
  }

  /** The occurrences of one group, latest first. */
  method GroupRoots(occurrences: seq<Occurrence>, group: seq<nat>) returns (matching: seq<Occurrence>)
    ensures LatestFirst(matching)
    ensures Drawn(occurrences, group, matching)
  {
    matching := [];
    var k := 0;
    while k < |occurrences|
      invariant 0 <= k <= |occurrences| && LatestFirst(matching)
      invariant Drawn(occurrences[..k], group, matching)
    {
      assert occurrences[..k + 1] == occurrences[..k] + [occurrences[k]];
      if occurrences[k].operator in group {
        InsertLatestSorted(matching, occurrences[k]);
        matching := InsertLatest(matching, occurrences[k]);
      }
      k := k + 1;
    }
    assert occurrences[..k] == occurrences;
  }

  /** Looser operators in front, and within a layer the later one. */
  ghost predicate RootOrder(operators: seq<Operator>, roots: seq<Occurrence>) {
    && (forall k :: 0 <= k < |roots| ==> roots[k].operator < |operators|)
    && (forall i, j :: 0 <= i < j < |roots| ==> RootedBefore(operators, roots[i], roots[j]))
  }

  predicate RootedBefore(operators: seq<Operator>, a: Occurrence, b: Occurrence)
    requires a.operator < |operators| && b.operator < |operators|
  {
    || Tighter(operators, b.operator, a.operator)
    || (SameLayer(operators, a.operator, b.operator) && a.start >= b.start)
  }

  /** Every occurrence is a candidate for the root, once; under layered priorities the
      candidates come loosest and latest first. */
  method RootCandidates(operators: seq<Operator>, input: string, range: Range) returns (roots: seq<Occurrence>)
    requires range.Within(input)
    ensures multiset(roots) == multiset(Occurrences(operators, input, range))
    ensures Layered(operators) ==> RootOrder(operators, roots)
  {
    var occurrences := OperatorOccurrences(operators, input, range);
    if occurrences == [] { return []; }
    var order := OrderOperators(operators);
    var groups := GroupOperators(operators, order);
    OnceNoRepeats(order);
    roots := DrawGroups(operators, occurrences, groups);
    AllDrawn(operators, occurrences, order, roots);
  }

  method DrawGroups(operators: seq<Operator>, occurrences: seq<Occurrence>, groups: seq<seq<nat>>) returns (roots: seq<Occurrence>)
    requires NoRepeats(Flatten(groups))
    ensures Drawn(occurrences, Flatten(groups), roots)
    ensures Layers(operators, groups) ==> RootOrder(operators, roots)
  {
    roots := [];
    var g := 0;
    while g < |groups|
      invariant 0 <= g <= |groups|
      invariant Drawn(occurrences, Flatten(groups[..g]), roots)
      invariant Layers(operators, groups) ==> RootOrder(operators, roots)
    {
      roots := AppendGroup(operators, occurrences, groups, g, roots);
      g := g + 1;
    }
    assert groups[..g] == groups;
  }

  method AppendGroup(operators: seq<Operator>, occurrences: seq<Occurrence>, groups: seq<seq<nat>>, g: nat, roots: seq<Occurrence>)
    returns (more: seq<Occurrence>)
    requires g < |groups| && NoRepeats(Flatten(groups)) && Drawn(occurrences, Flatten(groups[..g]), roots)
    ensures Drawn(occurrences, Flatten(groups[..g + 1]), more)
    ensures Layers(operators, groups) && RootOrder(operators, roots) ==> RootOrder(operators, more)
  {
    var matching := GroupRoots(occurrences, groups[g]);
    assert groups[..g + 1] == groups[..g] + [groups[g]];
    FlattenMore(groups[..g], groups[g]);
    FlattenNoRepeats(groups, g + 1);
    DrawGroup(occurrences, Flatten(groups[..g]), groups[g], roots, matching);
    if Layers(operators, groups) && RootOrder(operators, roots) {
      GroupFollows(operators, groups, g, occurrences, roots, matching);
    }
    return roots + matching;
  }

  /** Exactly the occurrences of these operators. */
  ghost predicate Drawn(occurrences: seq<Occurrence>, indices: seq<nat>, roots: seq<Occurrence>) {
    forall o :: multiset(roots)[o] == if o.operator in indices then multiset(occurrences)[o] else 0
  }

  predicate NoRepeats(indices: seq<nat>) { forall i, j :: 0 <= i < j < |indices| ==> indices[i] != indices[j] }

  lemma OnceNoRepeats(indices: seq<nat>)
    requires forall i: nat :: multiset(indices)[i] <= 1
    ensures NoRepeats(indices)
  {
    forall i, j | 0 <= i < j < |indices| ensures indices[i] != indices[j] {
      assert indices == indices[..j] + indices[j..];
      assert multiset(indices) == multiset(indices[..j]) + multiset(indices[j..]);
      assert indices[..j][i] == indices[i] && indices[j..][0] == indices[j];
      assert indices[i] in multiset(indices[..j]) && indices[j] in multiset(indices[j..]);
      assert multiset(indices)[indices[i]] <= 1;
    }
  }

  lemma {:induction false} FlattenNoRepeats(groups: seq<seq<nat>>, g: nat)
    requires g <= |groups| && NoRepeats(Flatten(groups))
    ensures NoRepeats(Flatten(groups[..g]))
    decreases |groups|
  {
    var last := |groups| - 1;
    if g <= last {
      var before := Flatten(groups[..last]);
      assert forall i :: 0 <= i < |before| ==> Flatten(groups)[i] == before[i];
      FlattenNoRepeats(groups[..last], g);
      assert groups[..last][..g] == groups[..g];
    } else {
      assert groups[..g] == groups;
    }
  }

  lemma DrawGroup(occurrences: seq<Occurrence>, indices: seq<nat>, group: seq<nat>, roots: seq<Occurrence>, matching: seq<Occurrence>)
    requires Drawn(occurrences, indices, roots) && Drawn(occurrences, group, matching) && NoRepeats(indices + group)
    ensures Drawn(occurrences, indices + group, roots + matching)
  {
    forall i, j | 0 <= i < |indices| && 0 <= j < |group| ensures indices[i] != group[j] {
      assert (indices + group)[i] == indices[i] && (indices + group)[|indices| + j] == group[j];
    }
  }

  lemma AllDrawn(operators: seq<Operator>, occurrences: seq<Occurrence>, order: seq<nat>, roots: seq<Occurrence>)
    requires forall k :: 0 <= k < |occurrences| ==> occurrences[k].operator < |operators|
    requires forall i: nat :: multiset(order)[i] == if i < |operators| then 1 else 0
    requires Drawn(occurrences, order, roots)
    ensures multiset(roots) == multiset(occurrences)
  {
    forall o ensures multiset(roots)[o] == multiset(occurrences)[o] {
      if o in multiset(occurrences) {
        assert o in occurrences;
        assert o.operator in multiset(order);
      }
    }
  }

  lemma GroupFollows(operators: seq<Operator>, groups: seq<seq<nat>>, g: nat, occurrences: seq<Occurrence>,
                     roots: seq<Occurrence>, matching: seq<Occurrence>)
    requires Layers(operators, groups) && g < |groups|
    requires RootOrder(operators, roots) && Drawn(occurrences, Flatten(groups[..g]), roots)
    requires LatestFirst(matching) && Drawn(occurrences, groups[g], matching)
    ensures RootOrder(operators, roots + matching)
  {
    var all := roots + matching;
    forall k | 0 <= k < |matching| ensures matching[k].operator in groups[g] { assert matching[k] in multiset(matching); }
    forall i, j | 0 <= i < |roots| && 0 <= j < |matching| ensures RootedBefore(operators, roots[i], matching[j]) {
      assert roots[i] in multiset(roots);
      var h := InSomeGroup(groups[..g], roots[i].operator);
      assert groups[..g][h] == groups[h];
    }
    forall i, j | 0 <= i < j < |all| ensures RootedBefore(operators, all[i], all[j]) {
      if j < |roots| { assert all[i] == roots[i] && all[j] == roots[j]; }
      else if i < |roots| { assert all[i] == roots[i] && all[j] == matching[j - |roots|]; }
      else { assert all[i] == matching[i - |roots|] && all[j] == matching[j - |roots|]; }
    }
  }

  lemma {:induction false} InSomeGroup(groups: seq<seq<nat>>, x: nat) returns (h: nat)
    requires x in Flatten(groups)
    ensures h < |groups| && x in groups[h]
  {
    var last := |groups| - 1;
    if x in groups[last] { return last; }
    h := InSomeGroup(groups[..last], x);
    assert groups[..last][h] == groups[h];
  }
}
