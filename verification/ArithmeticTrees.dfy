/** What comes of splitting an arithmetic text at its first root, again and again. */
module ArithmeticTrees {
  import opened Text
  import opened Arithmetic

  // ------------------------------------------------------------------------ locality

  /** Signs neither start nor end with a blank, and no two operators share one. */
  predicate PlainSigns(operators: seq<Operator>) {
    && (forall i :: 0 <= i < |operators| && operators[i].sign != "" ==>
          !Blank(operators[i].sign[0]) && !Blank(operators[i].sign[|operators[i].sign| - 1]))
    && (forall i, j :: 0 <= i < j < |operators| && operators[i].sign != "" ==> operators[i].sign != operators[j].sign)
  }

  /** Starts and ends on visible characters. */
  predicate Edged(input: string, start: nat, end: nat) {
    start < end <= |input| && !Blank(input[start]) && !Blank(input[end - 1])
  }

  lemma SignEdges(operators: seq<Operator>, input: string, cursor: nat, end: nat, i: nat)
    requires PlainSigns(operators) && end <= |input| && i < |operators| && SignAt(operators[i].sign, input, cursor, end)
    ensures Edged(input, cursor, cursor + |operators[i].sign|)
  {
    var sign := operators[i].sign;
    assert input[cursor..cursor + |sign|][0] == input[cursor];
    assert input[cursor..cursor + |sign|][|sign| - 1] == input[cursor + |sign| - 1];
  }

  /** Two operators never have their whole sign at one place, if the signs are as long. */
  lemma SignsDiffer(operators: seq<Operator>, input: string, cursor: nat, end: nat, i: nat, j: nat)
    requires PlainSigns(operators) && end <= |input| && i < j < |operators| && |operators[i].sign| == |operators[j].sign|
    ensures !(SignAt(operators[i].sign, input, cursor, end) && SignAt(operators[j].sign, input, cursor, end))
  {}

  lemma {:induction false} StandingSigns(operators: seq<Operator>, input: string, cursor: nat, end: nat, length: nat, n: nat, k: nat)
    requires end <= |input| && n <= |operators| && k < |Standing(operators, input, cursor, end, length, n)|
    ensures var i := Standing(operators, input, cursor, end, length, n)[k].operator;
            SignAt(operators[i].sign, input, cursor, end) && |operators[i].sign| == length
  {
    if k < |Standing(operators, input, cursor, end, length, n - 1)| {
      StandingSigns(operators, input, cursor, end, length, n - 1, k);
    }
  }

  lemma {:induction false} StandingAlone(operators: seq<Operator>, input: string, cursor: nat, end: nat, length: nat, n: nat)
    requires PlainSigns(operators) && end <= |input| && n <= |operators|
    ensures |Standing(operators, input, cursor, end, length, n)| <= 1
  {
    if n > 0 {
      StandingAlone(operators, input, cursor, end, length, n - 1);
      var before := Standing(operators, input, cursor, end, length, n - 1);
      if before != [] && |operators[n - 1].sign| == length {
        StandingSigns(operators, input, cursor, end, length, n - 1, 0);
        SignsDiffer(operators, input, cursor, end, before[0].operator, n - 1);
      }
    }
  }

  /** What a move passes: nothing, or one sign with visible edges that fills the move. */
  lemma MovePasses(operators: seq<Operator>, input: string, cursor: nat, end: nat)
    requires PlainSigns(operators) && cursor < end <= |input| && Move(operators, input, cursor, end).Some?
    ensures var (next, found) := Move(operators, input, cursor, end).value;
            && |found| <= 1 && (next == cursor + 1 || !Blank(input[next - 1]))
            && (found != [] ==> found[0].start == cursor && found[0].end == next && Edged(input, cursor, next))
  {
    if !RegionStart(input[cursor]) {
      var length := Longest(operators, input, cursor, end);
      if length > 0 {
        StandingAlone(operators, input, cursor, end, length, |operators|);
        var i := LongestStands(operators, input, cursor, end);
        SignEdges(operators, input, cursor, end, i);
      }
    }
  }

  lemma {:induction false} StandingLocal(operators: seq<Operator>, input: string, cursor: nat, small: nat, large: nat, length: nat, n: nat)
    requires cursor + length <= small <= large <= |input| && n <= |operators|
    ensures Standing(operators, input, cursor, small, length, n) == Standing(operators, input, cursor, large, length, n)
  {
    if n > 0 { StandingLocal(operators, input, cursor, small, large, length, n - 1); }
  }

  lemma {:induction false} LongestLocal(operators: seq<Operator>, input: string, cursor: nat, small: nat, large: nat)
    requires small <= large <= |input|
    requires Longest(operators, input, cursor, large) == 0 || cursor + Longest(operators, input, cursor, large) <= small
    ensures Longest(operators, input, cursor, small) == Longest(operators, input, cursor, large)
  {
    if Longest(operators, input, cursor, small) > 0 {
      var i := LongestStands(operators, input, cursor, small);
      LongestBounds(operators, input, cursor, large, i);
    }
    if Longest(operators, input, cursor, large) > 0 {
      var i := LongestStands(operators, input, cursor, large);
      LongestBounds(operators, input, cursor, small, i);
    }
  }

  /** A move that ends inside the smaller range is the same in both. */
  lemma MoveLocal(operators: seq<Operator>, input: string, cursor: nat, small: nat, large: nat)
    requires cursor < small <= large <= |input|
    requires Move(operators, input, cursor, large).Some? && Move(operators, input, cursor, large).value.0 <= small
    ensures Move(operators, input, cursor, small) == Move(operators, input, cursor, large)
  {
    if RegionStart(input[cursor]) {
      RegionCloseLocal(input, cursor, small, large);
    } else {
      LongestLocal(operators, input, cursor, small, large);
      var length := Longest(operators, input, cursor, large);
      if length > 0 { StandingLocal(operators, input, cursor, small, large, length, |operators|); }
    }
  }

  /** One sign behind the other, each with visible edges. */
  predicate Separate(input: string, start: nat, end: nat, os: seq<Occurrence>) {
    && (forall k :: 0 <= k < |os| ==> start <= os[k].start && os[k].end <= end && Edged(input, os[k].start, os[k].end))
    && (forall i, j :: 0 <= i < j < |os| ==> os[i].end <= os[j].start)
  }

  /** Every move passes at most one sign, and jumps only to behind visible text. */
  ghost predicate Tidy(input: string, moves: Moves, end: nat) {
    forall c: nat :: c < end <= |input| && moves(c).Some? ==> TidyMove(input, c, moves(c).value.0, moves(c).value.1, end)
  }

  predicate TidyMove(input: string, cursor: nat, next: nat, found: seq<Occurrence>, end: nat) {
    && cursor < next <= end <= |input| && |found| <= 1 && (next == cursor + 1 || !Blank(input[next - 1]))
    && (found != [] ==> found[0].start == cursor && found[0].end == next && Edged(input, cursor, next))
  }

  /** Moves that end inside the smaller range are the same in both. */
  ghost predicate Agree(moves: Moves, fewer: Moves, small: nat) {
    forall c: nat :: c < small && moves(c).Some? && moves(c).value.0 <= small ==> fewer(c) == moves(c)
  }

  /** Blanks are passed one by one. */
  ghost predicate StepsOver(input: string, moves: Moves, end: nat) {
    forall c: nat :: c < end <= |input| && Blank(input[c]) ==> moves(c) == Some((c + 1, []))
  }

  lemma MovesAreTidy(operators: seq<Operator>, input: string, end: nat)
    requires PlainSigns(operators) && end <= |input|
    ensures Tidy(input, MovesOf(operators, input, end), end) && StepsOver(input, MovesOf(operators, input, end), end)
  {
    forall c: nat | c < end && MovesOf(operators, input, end)(c).Some?
      ensures TidyMove(input, c, MovesOf(operators, input, end)(c).value.0, MovesOf(operators, input, end)(c).value.1, end)
    {
      MovePasses(operators, input, c, end);
    }
    forall c: nat | c < end && Blank(input[c]) ensures MovesOf(operators, input, end)(c) == Some((c + 1, [])) {
      BlankMove(operators, input, c, end);
    }
  }

  lemma BlankMove(operators: seq<Operator>, input: string, cursor: nat, end: nat)
    requires PlainSigns(operators) && cursor < end <= |input| && Blank(input[cursor])
    ensures Move(operators, input, cursor, end) == Some((cursor + 1, []))
  {
    if Longest(operators, input, cursor, end) > 0 {
      var i := LongestStands(operators, input, cursor, end);
      SignEdges(operators, input, cursor, end, i);
      assert false;
    }
  }

  lemma MovesAgree(operators: seq<Operator>, input: string, small: nat, large: nat)
    requires small <= large <= |input|
    ensures Agree(MovesOf(operators, input, large), MovesOf(operators, input, small), small)
  {
    forall c: nat | c < small && MovesOf(operators, input, large)(c).Some? && MovesOf(operators, input, large)(c).value.0 <= small
      ensures MovesOf(operators, input, small)(c) == MovesOf(operators, input, large)(c)
    {
      MoveLocal(operators, input, c, small, large);
    }
  }

  lemma {:induction false} ScanSeparate(input: string, moves: Moves, n: nat, cursor: nat, end: nat)
    requires Advances(moves, n, end) && Tidy(input, moves, end) && end <= |input| && Scan(moves, n, cursor, end).Some?
    ensures Separate(input, cursor, end, Scan(moves, n, cursor, end).value)
    decreases end - cursor
  {
    if cursor < end {
      var (next, found) := moves(cursor).value;
      assert TidyMove(input, cursor, next, found, end);
      ScanSeparate(input, moves, n, next, end);
    }
  }

  /** First of the remaining signs, or the end. */
  function Limit(os: seq<Occurrence>, k: nat, end: nat): nat
    requires k <= |os|
  {
    if k < |os| then os[k].start else end
  }

  /** A place right behind visible text, with blanks from there to sign `k`. */
  predicate CutsAt(input: string, os: seq<Occurrence>, k: nat, small: nat, end: nat) {
    && end <= |input| && k <= |os| && 0 < small <= Limit(os, k, end) <= end
    && Blanks(input, small, Limit(os, k, end)) && !Blank(input[small - 1])
  }

  /** Ending a scan at such a place finds the signs in front of it. */
  lemma {:induction false} ScanCut(input: string, moves: Moves, fewer: Moves, n: nat, cursor: nat, end: nat, small: nat,
                                   os: seq<Occurrence>, k: nat)
    requires Advances(moves, n, end) && Tidy(input, moves, end) && Advances(fewer, n, small) && Agree(moves, fewer, small)
    requires Scan(moves, n, cursor, end) == Some(os) && CutsAt(input, os, k, small, end)
    ensures Scan(fewer, n, cursor, small) == Some(os[..k])
    decreases end - cursor
  {
    ScanSeparate(input, moves, n, cursor, end);
    if cursor >= small {
      NoneBefore(input, cursor, end, small, os, k);
    } else {
      var (next, found) := moves(cursor).value;
      var rest := Scan(moves, n, next, end).value;
      CutPassed(input, cursor, next, end, small, os, found, rest, k);
      ScanCut(input, moves, fewer, n, next, end, small, rest, k - |found|);
      assert os[..k] == found + rest[..k - |found|];
    }
  }

  lemma NoneBefore(input: string, cursor: nat, end: nat, small: nat, os: seq<Occurrence>, k: nat)
    requires Separate(input, cursor, end, os) && CutsAt(input, os, k, small, end) && cursor >= small
    ensures k == 0
  {
    assert |os| > 0 ==> Edged(input, os[0].start, os[0].end);
  }

  lemma CutPassed(input: string, cursor: nat, next: nat, end: nat, small: nat, os: seq<Occurrence>, found: seq<Occurrence>,
                  rest: seq<Occurrence>, k: nat)
    requires TidyMove(input, cursor, next, found, end) && CutsAt(input, os, k, small, end) && cursor < small
    requires os == found + rest && Separate(input, cursor, end, os) && (forall i :: 0 <= i < |rest| ==> next <= rest[i].start)
    ensures next <= small && |found| <= k && CutsAt(input, rest, k - |found|, small, end)
  {
    if found != [] { assert os[0] == found[0]; }
    assert k >= |found|;
    if k < |os| { assert os[k] == rest[k - |found|]; }
  }

  lemma SuffixBehind(a: seq<Occurrence>, b: seq<Occurrence>, k: nat)
    requires |a| <= k < |a| + |b|
    ensures (a + b)[k] == b[k - |a|] && (a + b)[k + 1..] == b[k - |a| + 1..]
  {}

  /** A scan resumed behind sign `k` finds the signs behind it. */
  lemma {:induction false} ScanResumed(input: string, moves: Moves, n: nat, cursor: nat, end: nat, os: seq<Occurrence>, k: nat)
    requires Advances(moves, n, end) && Tidy(input, moves, end) && end <= |input| && Scan(moves, n, cursor, end) == Some(os) && k < |os|
    ensures Scan(moves, n, os[k].end, end) == Some(os[k + 1..])
    decreases end - cursor
  {
    var (next, found) := moves(cursor).value;
    var rest := Scan(moves, n, next, end).value;
    assert TidyMove(input, cursor, next, found, end) && os == found + rest;
    if k < |found| {
      assert os[1..] == rest && os[0] == found[0];
    } else {
      SuffixBehind(found, rest, k);
      ScanResumed(input, moves, n, next, end, rest, k - |found|);
    }
  }

  /** Blanks in front change nothing. */
  lemma {:induction false} ScanSkip(input: string, moves: Moves, n: nat, cursor: nat, start: nat, end: nat)
    requires Advances(moves, n, end) && StepsOver(input, moves, end) && cursor <= start <= end <= |input| && Blanks(input, cursor, start)
    ensures Scan(moves, n, cursor, end) == Scan(moves, n, start, end)
    decreases start - cursor
  {
    if cursor < start {
      ScanSkip(input, moves, n, cursor + 1, start, end);
      var rest := Scan(moves, n, cursor + 1, end);
      if rest.Some? { assert [] + rest.value == rest.value; }
    }
  }

  function LeftOf(input: string, range: Range, o: Occurrence): Range
    requires range.Within(input) && range.start <= o.start <= range.end
  {
    Trimmed(input, Range(range.start, o.start))
  }

  function RightOf(input: string, range: Range, o: Occurrence): Range
    requires range.Within(input) && range.start <= o.end <= range.end
  {
    Trimmed(input, Range(o.end, range.end))
  }

  /** Each side of an operator, taken by itself, has the operators it had in the whole. */
  lemma SidesScan(operators: seq<Operator>, input: string, range: Range, k: nat)
    requires PlainSigns(operators) && range.Within(input)
    requires k < |Occurrences(operators, input, range)|
    ensures var os := Occurrences(operators, input, range);
            var left, right := LeftOf(input, range, os[k]), RightOf(input, range, os[k]);
            && (left.start < left.end ==> Occurrences(operators, input, left) == os[..k])
            && (right.start < right.end ==> Occurrences(operators, input, right) == os[k + 1..])
  {
    LeftScan(operators, input, range, Occurrences(operators, input, range), k);
    RightScan(operators, input, range, Occurrences(operators, input, range), k);
  }

  lemma {:induction false} LeftScan(operators: seq<Operator>, input: string, range: Range, os: seq<Occurrence>, k: nat)
    requires PlainSigns(operators) && range.Within(input) && k < |os|
    requires Scan(MovesOf(operators, input, range.end), |operators|, range.start, range.end) == Some(os)
    ensures var left := LeftOf(input, range, os[k]); left.start < left.end ==> Occurrences(operators, input, left) == os[..k]
  {
    var left, n := LeftOf(input, range, os[k]), |operators|;
    if left.start < left.end {
      var moves, fewer := MovesOf(operators, input, range.end), MovesOf(operators, input, left.end);
      MovesAreTidy(operators, input, range.end);
      MovesAreTidy(operators, input, left.end);
      MovesAgree(operators, input, left.end, range.end);
      CutsBefore(input, range, left, os, k);
      ScanCut(input, moves, fewer, n, range.start, range.end, left.end, os, k);
      ScanSkip(input, fewer, n, range.start, left.start, left.end);
    }
  }

  lemma {:induction false} CutsBefore(input: string, range: Range, left: Range, os: seq<Occurrence>, k: nat)
    requires range.Within(input) && k < |os| && range.start <= os[k].start <= range.end
    requires left == Trimmed(input, Range(range.start, os[k].start)) && left.start < left.end
    ensures CutsAt(input, os, k, left.end, range.end)
  {}

  lemma {:induction false} RightScan(operators: seq<Operator>, input: string, range: Range, os: seq<Occurrence>, k: nat)
    requires PlainSigns(operators) && range.Within(input) && k < |os|
    requires Scan(MovesOf(operators, input, range.end), |operators|, range.start, range.end) == Some(os)
    ensures var right := RightOf(input, range, os[k]); right.start < right.end ==> Occurrences(operators, input, right) == os[k + 1..]
  {
    var right, n, behind := RightOf(input, range, os[k]), |operators|, os[k + 1..];
    if right.start < right.end {
      var moves, fewer := MovesOf(operators, input, range.end), MovesOf(operators, input, right.end);
      MovesAreTidy(operators, input, range.end);
      MovesAreTidy(operators, input, right.end);
      MovesAgree(operators, input, right.end, range.end);
      ScanResumed(input, moves, n, range.start, range.end, os, k);
      CutsBehind(input, range, os[k].end, right, behind);
      ScanCut(input, moves, fewer, n, os[k].end, range.end, right.end, behind, |behind|);
      ScanSkip(input, fewer, n, os[k].end, right.start, right.end);
    }
  }

  lemma {:induction false} CutsBehind(input: string, range: Range, start: nat, right: Range, os: seq<Occurrence>)
    requires range.Within(input) && start <= range.end && right == Trimmed(input, Range(start, range.end)) && right.start < right.end
    ensures CutsAt(input, os, |os|, right.end, range.end) && os[..|os|] == os
  {}

  // --------------------------------------------------------------------------- trees

  datatype Tree =
    | Operand(range: Range)
    | Operation(root: Occurrence, left: Tree, right: Tree)

  /** The loosest operator, and of several the last. */
  ghost predicate IsRoot(operators: seq<Operator>, os: seq<Occurrence>, o: Occurrence) {
    && o in os && (forall k :: 0 <= k < |os| ==> os[k].operator < |operators|)
    && forall k :: 0 <= k < |os| && os[k] != o ==> RootedBefore(operators, o, os[k])
  }

  /** The first root candidate is that operator. */
  lemma FirstCandidateIsRoot(operators: seq<Operator>, os: seq<Occurrence>, roots: seq<Occurrence>)
    requires multiset(roots) == multiset(os) && RootOrder(operators, roots) && roots != []
    ensures IsRoot(operators, os, roots[0])
  {
    assert roots[0] in multiset(os);
    forall k | 0 <= k < |os| ensures os[k].operator < |operators| && (os[k] != roots[0] ==> RootedBefore(operators, roots[0], os[k])) {
      assert os[k] in multiset(roots);
      var j :| 0 <= j < |roots| && roots[j] == os[k];
    }
  }

  /** The operators of each range of a text. */
  type Finder = Range -> seq<Occurrence>

  function FinderOf(operators: seq<Operator>, input: string): Finder {
    (range: Range) => if range.Within(input) then Occurrences(operators, input, range) else []
  }

  /** Operators lie apart in the range, and each side of one keeps those it has in the whole. */
  ghost predicate Local(input: string, n: nat, find: Finder) {
    forall range: Range {:trigger LocalRange(input, n, find, range)} :: range.Within(input) ==> LocalRange(input, n, find, range)
  }

  ghost predicate LocalRange(input: string, n: nat, find: Finder, range: Range)
    requires range.Within(input)
  {
    var os := find(range);
    && Separate(input, range.start, range.end, os)
    && (forall k :: 0 <= k < |os| ==> os[k].operator < n)
    && (forall k :: 0 <= k < |os| ==> LocalSides(input, find, range, os, k))
  }

  ghost predicate LocalSides(input: string, find: Finder, range: Range, os: seq<Occurrence>, k: nat)
    requires range.Within(input) && k < |os| && Separate(input, range.start, range.end, os)
  {
    var left, right := LeftOf(input, range, os[k]), RightOf(input, range, os[k]);
    && (left.start < left.end ==> find(left) == os[..k])
    && (right.start < right.end ==> find(right) == os[k + 1..])
  }

  /** Plain signs are found locally. */
  lemma SignsAreLocal(operators: seq<Operator>, input: string)
    requires PlainSigns(operators)
    ensures Local(input, |operators|, FinderOf(operators, input))
  {
    var find := FinderOf(operators, input);
    forall range: Range | range.Within(input) ensures LocalRange(input, |operators|, find, range) {
      OccurrencesSeparate(operators, input, range);
      forall k | 0 <= k < |find(range)| ensures LocalSides(input, find, range, find(range), k) {
        SidesScan(operators, input, range, k);
      }
    }
  }

  lemma OccurrencesSeparate(operators: seq<Operator>, input: string, range: Range)
    requires PlainSigns(operators) && range.Within(input)
    ensures Separate(input, range.start, range.end, Occurrences(operators, input, range))
  {
    MovesAreTidy(operators, input, range.end);
    if Scan(MovesOf(operators, input, range.end), |operators|, range.start, range.end).Some? {
      ScanSeparate(input, MovesOf(operators, input, range.end), |operators|, range.start, range.end);
    }
  }

  /** The tree that comes of splitting a text at its first root and both sides likewise. */
  ghost predicate SplitsInto(operators: seq<Operator>, input: string, find: Finder, range: Range, tree: Tree)
    requires range.Within(input)
    decreases tree
  {
    var os := find(range);
    match tree
    case Operand(r) => r == range && os == []
    case Operation(o, l, r) =>
      && IsRoot(operators, os, o) && range.start <= o.start < o.end <= range.end
      && var left, right := LeftOf(input, range, o), RightOf(input, range, o);
      left.start < left.end && right.start < right.end
      && SplitsInto(operators, input, find, left, l) && SplitsInto(operators, input, find, right, r)
  }

  datatype Item = Piece(range: Range) | Sign(occurrence: Occurrence)

  function InOrder(tree: Tree): seq<Item> {
    match tree
    case Operand(r) => [Piece(r)]
    case Operation(o, l, r) => InOrder(l) + [Sign(o)] + InOrder(r)
  }

  function PieceOf(input: string, gap: Range): Item {
    Piece(if gap.Within(input) then Trimmed(input, gap) else gap)
  }

  /** The text read from left to right: the trimmed pieces between its operators. */
  function Chain(input: string, start: nat, end: nat, os: seq<Occurrence>): (r: seq<Item>)
    ensures r != []
    decreases |os|
  {
    if os == [] then [PieceOf(input, Range(start, end))]
    else [PieceOf(input, Range(start, os[0].start)), Sign(os[0])] + Chain(input, os[0].end, end, os[1..])
  }

  predicate VisibleItem(item: Item) { item.Piece? ==> item.range.start < item.range.end }

  predicate AllVisible(items: seq<Item>) { forall k :: 0 <= k < |items| ==> VisibleItem(items[k]) }

  lemma AllVisibleConcat(a: seq<Item>, b: seq<Item>)
    ensures AllVisible(a + b) <==> AllVisible(a) && AllVisible(b)
  {
    forall k | 0 <= k < |b| ensures (a + b)[|a| + k] == b[k] {}
    if AllVisible(a + b) {
      forall k | 0 <= k < |b| ensures VisibleItem(b[k]) { assert VisibleItem((a + b)[|a| + k]); }
      forall k | 0 <= k < |a| ensures VisibleItem(a[k]) { assert (a + b)[k] == a[k]; }
    }
  }

  /** A chain splits at any of its operators. */
  lemma {:induction false} ChainSplits(input: string, start: nat, end: nat, os: seq<Occurrence>, k: nat)
    requires k < |os|
    ensures Chain(input, start, end, os)
         == Chain(input, start, os[k].start, os[..k]) + [Sign(os[k])] + Chain(input, os[k].end, end, os[k + 1..])
    decreases k
  {
    if k > 0 {
      var rest, before, o := os[1..], os[..k], os[k];
      assert rest[k - 1] == o && rest[..k - 1] == before[1..] && rest[k..] == os[k + 1..];
      ChainSplits(input, os[0].end, end, rest, k - 1);
      var lead := [PieceOf(input, Range(start, os[0].start)), Sign(os[0])];
      Regroup(lead, Chain(input, os[0].end, o.start, before[1..]), [Sign(o)], Chain(input, o.end, end, os[k + 1..]));
    }
  }

  lemma Regroup(a: seq<Item>, b: seq<Item>, c: seq<Item>, d: seq<Item>)
    ensures a + (b + c + d) == a + b + c + d
  {}

  lemma SeparateTail(input: string, start: nat, end: nat, os: seq<Occurrence>)
    requires Separate(input, start, end, os) && os != []
    ensures Separate(input, os[0].end, end, os[1..]) && start <= os[0].start < os[0].end <= end
  {
    assert Edged(input, os[0].start, os[0].end);
  }

  /** Blanks at either end of a chain of visible pieces change nothing. */
  lemma {:induction false} ChainWidens(input: string, start: nat, end: nat, from: nat, to: nat, os: seq<Occurrence>)
    requires from <= start <= end <= to <= |input| && Blanks(input, from, start) && Blanks(input, end, to)
    requires Separate(input, start, end, os)
    requires AllVisible(Chain(input, start, end, os)) || AllVisible(Chain(input, from, to, os))
    ensures Chain(input, from, to, os) == Chain(input, start, end, os)
    decreases |os|
  {
    if os == [] {
      PieceWidens(input, start, end, from, to);
    } else {
      var o, rest := os[0], os[1..];
      SeparateTail(input, start, end, os);
      PieceWidens(input, start, o.start, from, o.start);
      HeadVisible(PieceOf(input, Range(start, o.start)), o, Chain(input, o.end, end, rest));
      HeadVisible(PieceOf(input, Range(from, o.start)), o, Chain(input, o.end, to, rest));
      ChainWidens(input, o.end, end, o.end, to, rest);
    }
  }

  lemma HeadVisible(lead: Item, o: Occurrence, rest: seq<Item>)
    ensures AllVisible([lead, Sign(o)] + rest) ==> VisibleItem(lead) && AllVisible(rest)
  {
    AllVisibleConcat([lead, Sign(o)], rest);
    assert AllVisible([lead, Sign(o)]) ==> VisibleItem([lead, Sign(o)][0]);
  }

  lemma PieceWidens(input: string, start: nat, end: nat, from: nat, to: nat)
    requires from <= start <= end <= to <= |input| && Blanks(input, from, start) && Blanks(input, end, to)
    ensures VisibleItem(PieceOf(input, Range(start, end))) || VisibleItem(PieceOf(input, Range(from, to))) ==>
      PieceOf(input, Range(from, to)) == PieceOf(input, Range(start, end))
  {
    PieceGrows(input, start, end, from, to);
    PieceShrinks(input, start, end, from, to);
  }

  lemma PieceGrows(input: string, start: nat, end: nat, from: nat, to: nat)
    requires from <= start <= end <= to <= |input| && Blanks(input, from, start) && Blanks(input, end, to)
    ensures var narrow := Trimmed(input, Range(start, end)); narrow.start < narrow.end ==> Trimmed(input, Range(from, to)) == narrow
  {
    var narrow := Trimmed(input, Range(start, end));
    if narrow.start < narrow.end { TrimmedUnique(input, Range(from, to), narrow); }
  }

  lemma PieceShrinks(input: string, start: nat, end: nat, from: nat, to: nat)
    requires from <= start <= end <= to <= |input| && Blanks(input, from, start) && Blanks(input, end, to)
    ensures var wide := Trimmed(input, Range(from, to)); wide.start < wide.end ==> Trimmed(input, Range(start, end)) == wide
  {
    var wide := Trimmed(input, Range(from, to));
    if wide.start < wide.end { TrimmedUnique(input, Range(start, end), wide); }
  }

  /** Trimming a side keeps its operators inside and its chain as it is. */
  lemma {:induction false} SideNarrows(input: string, side: Range, os: seq<Occurrence>)
    requires side.Within(input) && Separate(input, side.start, side.end, os) && AllVisible(Chain(input, side.start, side.end, os))
    ensures var t := Trimmed(input, side); t.start < t.end && AllVisible(Chain(input, t.start, t.end, os))
  {
    var t := Trimmed(input, side);
    assert VisibleItem(Chain(input, side.start, side.end, os)[0]);
    forall k | 0 <= k < |os| ensures t.start <= os[k].start && os[k].end <= t.end && Edged(input, os[k].start, os[k].end) {
      assert Edged(input, os[k].start, os[k].end);
    }
    ChainWidens(input, t.start, t.end, side.start, side.end, os);
  }

  function Signs(tree: Tree): seq<Occurrence> {
    match tree
    case Operand(_) => []
    case Operation(o, l, r) => Signs(l) + [o] + Signs(r)
  }

  predicate LeftBelow(operators: seq<Operator>, p: Occurrence, o: Occurrence) {
    && p.operator < |operators| && o.operator < |operators|
    && (Tighter(operators, p.operator, o.operator) || SameLayer(operators, p.operator, o.operator))
  }

  predicate RightBelow(operators: seq<Operator>, p: Occurrence, o: Occurrence) {
    p.operator < |operators| && o.operator < |operators| && Tighter(operators, p.operator, o.operator)
  }

  /** Left of a root nothing binds looser, right of it everything binds tighter. */
  ghost predicate LeftAssociative(operators: seq<Operator>, tree: Tree) {
    match tree
    case Operand(_) => true
    case Operation(o, l, r) =>
      && LeftAssociative(operators, l) && LeftAssociative(operators, r)
      && (forall p :: p in Signs(l) ==> LeftBelow(operators, p, o))
      && (forall p :: p in Signs(r) ==> RightBelow(operators, p, o))
  }

  lemma RootOccurrence(os: seq<Occurrence>, o: Occurrence) returns (k: nat)
    requires o in os
    ensures k < |os| && os[k] == o
  {
    k :| 0 <= k < |os| && os[k] == o;
  }

  /** A split tree: where its root stands, and what lies on either side. */
  lemma SplitParts(operators: seq<Operator>, input: string, find: Finder, range: Range, tree: Tree) returns (k: nat, left: Range, right: Range)
    requires Local(input, |operators|, find) && range.Within(input) && SplitsInto(operators, input, find, range, tree) && tree.Operation?
    ensures k < |find(range)| && find(range)[k] == tree.root && range.start <= tree.root.start < tree.root.end <= range.end
    ensures left == LeftOf(input, range, tree.root) && right == RightOf(input, range, tree.root)
    ensures left.start < left.end && right.start < right.end
    ensures find(left) == find(range)[..k] && find(right) == find(range)[k + 1..]
    ensures SplitsInto(operators, input, find, left, tree.left) && SplitsInto(operators, input, find, right, tree.right)
    ensures IsRoot(operators, find(range), tree.root)
  {
    k := RootOccurrence(find(range), tree.root);
    left, right := LeftOf(input, range, tree.root), RightOf(input, range, tree.root);
    assert LocalRange(input, |operators|, find, range);
    assert LocalSides(input, find, range, find(range), k);
  }

  lemma FoundApart(input: string, n: nat, find: Finder, range: Range)
    requires Local(input, n, find) && range.Within(input)
    ensures Separate(input, range.start, range.end, find(range))
  {
    assert LocalRange(input, n, find, range);
  }

  lemma {:induction false} TreeIsVisible(operators: seq<Operator>, input: string, find: Finder, range: Range, tree: Tree)
    requires range.Within(input) && range.start < range.end && SplitsInto(operators, input, find, range, tree)
    ensures AllVisible(InOrder(tree))
    decreases tree
  {
    if tree.Operation? {
      TreeIsVisible(operators, input, find, LeftOf(input, range, tree.root), tree.left);
      TreeIsVisible(operators, input, find, RightOf(input, range, tree.root), tree.right);
      JoinVisible(InOrder(tree.left), tree.root, InOrder(tree.right));
    }
  }

  lemma TrimmedIsEdged(input: string, range: Range)
    requires range.Within(input)
    ensures var t := Trimmed(input, range); t.start < t.end ==> Edged(input, t.start, t.end)
  {}

  lemma JoinVisible(a: seq<Item>, o: Occurrence, b: seq<Item>)
    requires AllVisible(a) && AllVisible(b)
    ensures AllVisible(a + [Sign(o)] + b)
  {}

  /** The tree of a text reads as the text's chain. */
  lemma {:induction false} TreeReadsAsChain(operators: seq<Operator>, input: string, find: Finder, range: Range, tree: Tree)
    requires Local(input, |operators|, find) && range.Within(input) && Edged(input, range.start, range.end)
    requires SplitsInto(operators, input, find, range, tree)
    ensures InOrder(tree) == Chain(input, range.start, range.end, find(range))
    decreases tree
  {
    if tree.Operand? {
      TrimmedUnique(input, range, range);
    } else {
      var k, left, right := SplitParts(operators, input, find, range, tree);
      TrimmedIsEdged(input, Range(range.start, tree.root.start));
      TrimmedIsEdged(input, Range(tree.root.end, range.end));
      TreeReadsAsChain(operators, input, find, left, tree.left);
      TreeReadsAsChain(operators, input, find, right, tree.right);
      TreeIsVisible(operators, input, find, left, tree.left);
      TreeIsVisible(operators, input, find, right, tree.right);
      FoundApart(input, |operators|, find, left);
      FoundApart(input, |operators|, find, right);
      ChainJoins(input, range, left, right, find(range), k);
    }
  }

  lemma {:induction false} ChainJoins(input: string, range: Range, left: Range, right: Range, os: seq<Occurrence>, k: nat)
    requires range.Within(input) && k < |os| && range.start <= os[k].start < os[k].end <= range.end
    requires left == LeftOf(input, range, os[k]) && right == RightOf(input, range, os[k])
    requires Separate(input, left.start, left.end, os[..k]) && AllVisible(Chain(input, left.start, left.end, os[..k]))
    requires Separate(input, right.start, right.end, os[k + 1..]) && AllVisible(Chain(input, right.start, right.end, os[k + 1..]))
    ensures Chain(input, left.start, left.end, os[..k]) + [Sign(os[k])] + Chain(input, right.start, right.end, os[k + 1..])
         == Chain(input, range.start, range.end, os)
  {
    ChainWidens(input, left.start, left.end, range.start, os[k].start, os[..k]);
    ChainWidens(input, right.start, right.end, os[k].end, range.end, os[k + 1..]);
    ChainSplits(input, range.start, range.end, os, k);
  }

  /** Every operator is the root of the operators below it. */
  ghost predicate Rooted(operators: seq<Operator>, tree: Tree) {
    match tree
    case Operand(_) => true
    case Operation(o, l, r) => IsRoot(operators, Signs(tree), o) && Rooted(operators, l) && Rooted(operators, r)
  }

  lemma Parts(os: seq<Occurrence>, k: nat)
    requires k < |os|
    ensures os[..k] + [os[k]] + os[k + 1..] == os
  {}

  lemma {:induction false} TreeIsRooted(operators: seq<Operator>, input: string, find: Finder, range: Range, tree: Tree)
    requires Local(input, |operators|, find) && range.Within(input) && SplitsInto(operators, input, find, range, tree)
    ensures Signs(tree) == find(range) && Rooted(operators, tree)
    decreases tree
  {
    if tree.Operation? {
      var k, left, right := SplitParts(operators, input, find, range, tree);
      TreeIsRooted(operators, input, find, left, tree.left);
      TreeIsRooted(operators, input, find, right, tree.right);
      Parts(find(range), k);
    }
  }

  predicate Rising(os: seq<Occurrence>) { forall i, j :: 0 <= i < j < |os| ==> os[i].start < os[j].start }

  lemma RisingParts(a: seq<Occurrence>, o: Occurrence, b: seq<Occurrence>)
    requires Rising(a + [o] + b)
    ensures Rising(a) && Rising(b)
    ensures forall k :: 0 <= k < |a| ==> a[k].start < o.start
    ensures forall k :: 0 <= k < |b| ==> o.start < b[k].start
  {
    var os := a + [o] + b;
    assert os[|a|] == o;
    assert forall k :: 0 <= k < |a| ==> os[k] == a[k];
    assert forall k :: 0 <= k < |b| ==> os[|a| + 1 + k] == b[k];
  }

  lemma {:induction false} RootedIsLeftAssociative(operators: seq<Operator>, tree: Tree)
    requires Rooted(operators, tree) && Rising(Signs(tree))
    ensures LeftAssociative(operators, tree)
    decreases tree
  {
    if tree.Operation? {
      RisingParts(Signs(tree.left), tree.root, Signs(tree.right));
      RootedIsLeftAssociative(operators, tree.left);
      RootedIsLeftAssociative(operators, tree.right);
      var os := Signs(tree);
      forall p | p in Signs(tree.left) ensures LeftBelow(operators, p, tree.root) {
        var k := RootOccurrence(os, p);
        LeftOfRoot(operators, os, k, tree.root);
      }
      forall p | p in Signs(tree.right) ensures RightBelow(operators, p, tree.root) {
        var k := RootOccurrence(os, p);
        RightOfRoot(operators, os, k, tree.root);
      }
    }
  }

  /** Precedence and left associativity of the whole tree. */
  lemma {:induction false} TreeIsLeftAssociative(operators: seq<Operator>, input: string, find: Finder, range: Range, tree: Tree)
    requires Local(input, |operators|, find) && range.Within(input) && SplitsInto(operators, input, find, range, tree)
    ensures LeftAssociative(operators, tree)
  {
    TreeIsRooted(operators, input, find, range, tree);
    FoundApart(input, |operators|, find, range);
    SeparateRises(input, range.start, range.end, find(range));
    RootedIsLeftAssociative(operators, tree);
  }

  lemma SeparateRises(input: string, start: nat, end: nat, os: seq<Occurrence>)
    requires Separate(input, start, end, os)
    ensures Rising(os)
  {
    forall i, j | 0 <= i < j < |os| ensures os[i].start < os[j].start { assert Edged(input, os[i].start, os[i].end); }
  }

  lemma LeftOfRoot(operators: seq<Operator>, os: seq<Occurrence>, k: nat, o: Occurrence)
    requires k < |os| && os[k].start < o.start && IsRoot(operators, os, o)
    ensures LeftBelow(operators, os[k], o)
  {
    assert RootedBefore(operators, o, os[k]);
    var j := RootOccurrence(os, o);
    SameLayerIff(operators, os[k].operator, o.operator);
    SameLayerIff(operators, o.operator, os[k].operator);
  }

  lemma RightOfRoot(operators: seq<Operator>, os: seq<Occurrence>, k: nat, o: Occurrence)
    requires k < |os| && o.start < os[k].start && IsRoot(operators, os, o)
    ensures RightBelow(operators, os[k], o)
  {
    var j := RootOccurrence(os, o);
    assert RootedBefore(operators, o, os[k]);
  }

  lemma {:induction false} RootExists(operators: seq<Operator>, os: seq<Occurrence>) returns (o: Occurrence)
    requires Layered(operators) && os != [] && forall k :: 0 <= k < |os| ==> os[k].operator < |operators|
    requires forall i, j :: 0 <= i < j < |os| ==> os[i].start <= os[j].start
    ensures IsRoot(operators, os, o)
  {
    var last := |os| - 1;
    if last == 0 { return os[0]; }
    var before := RootExists(operators, os[..last]);
    var k := RootOccurrence(os[..last], before);
    assert os[k] == before;
    if Tighter(operators, os[last].operator, before.operator) {
      o := before;
    } else {
      o := os[last];
      forall j | 0 <= j < |os| && os[j] != o ensures RootedBefore(operators, o, os[j]) {
        assert os[..last][j] == os[j];
        if os[j] != before { assert RootedBefore(operators, before, os[j]); }
        NotTighter(operators, before.operator, os[j].operator);
        RootOver(operators, o.operator, before.operator, os[j].operator);
      }
    }
  }

  lemma NotTighter(operators: seq<Operator>, a: nat, b: nat)
    requires Layered(operators) && a < |operators| && b < |operators|
    ensures Tighter(operators, b, a) || SameLayer(operators, a, b) <==> !Tighter(operators, a, b)
  {
    SameLayerIff(operators, a, b);
  }

  /** Being at least as loose carries over a third operator. */
  lemma RootOver(operators: seq<Operator>, a: nat, b: nat, c: nat)
    requires Layered(operators) && a < |operators| && b < |operators| && c < |operators|
    requires !Tighter(operators, a, b) && !Tighter(operators, b, c)
    ensures Tighter(operators, c, a) || SameLayer(operators, a, c)
  {
    SameLayerIff(operators, a, c);
  }

  /** One root, and so one tree at most. */
  lemma RootIsUnique(operators: seq<Operator>, os: seq<Occurrence>, i: nat, j: nat)
    requires Layered(operators) && Rising(os) && i < |os| && j < |os|
    requires IsRoot(operators, os, os[i]) && IsRoot(operators, os, os[j])
    ensures os[i] == os[j]
  {
    NotTighter(operators, os[i].operator, os[j].operator);
    NotTighter(operators, os[j].operator, os[i].operator);
    assert os[i] != os[j] ==> RootedBefore(operators, os[i], os[j]) && RootedBefore(operators, os[j], os[i]);
  }

  lemma SameRoot(operators: seq<Operator>, input: string, find: Finder, range: Range, i: nat, j: nat)
    requires Layered(operators) && Local(input, |operators|, find) && range.Within(input) && i < |find(range)| && j < |find(range)|
    requires IsRoot(operators, find(range), find(range)[i]) && IsRoot(operators, find(range), find(range)[j])
    ensures find(range)[i] == find(range)[j]
  {
    FoundApart(input, |operators|, find, range);
    SeparateRises(input, range.start, range.end, find(range));
    RootIsUnique(operators, find(range), i, j);
  }

  lemma {:induction false} TreeIsUnique(operators: seq<Operator>, input: string, find: Finder, range: Range, tree: Tree, other: Tree)
    requires Layered(operators) && Local(input, |operators|, find) && range.Within(input)
    requires SplitsInto(operators, input, find, range, tree) && SplitsInto(operators, input, find, range, other)
    ensures tree == other
    decreases tree
  {
    if tree.Operation? && other.Operation? {
      var i, left, right := SplitParts(operators, input, find, range, tree);
      var j, left', right' := SplitParts(operators, input, find, range, other);
      SameRoot(operators, input, find, range, i, j);
      TreeIsUnique(operators, input, find, left, tree.left, other.left);
      TreeIsUnique(operators, input, find, right, tree.right, other.right);
    }
  }

  /** A text whose operators all have something on either side has a tree. */
  lemma {:induction false} TreeExists(operators: seq<Operator>, input: string, find: Finder, range: Range) returns (tree: Tree)
    requires Layered(operators) && Local(input, |operators|, find) && range.Within(input)
    requires AllVisible(Chain(input, range.start, range.end, find(range)))
    ensures SplitsInto(operators, input, find, range, tree)
    decreases range.end - range.start
  {
    var os := find(range);
    if os == [] { return Operand(range); }
    assert LocalRange(input, |operators|, find, range);
    var o := RootExists(operators, os);
    var k := RootOccurrence(os, o);
    assert LocalSides(input, find, range, os, k);
    var left, right := SidesVisible(input, range, os, k);
    var l := TreeExists(operators, input, find, left);
    var r := TreeExists(operators, input, find, right);
    tree := Operation(o, l, r);
  }

  lemma SeparateSides(input: string, start: nat, end: nat, os: seq<Occurrence>, k: nat)
    requires Separate(input, start, end, os) && k < |os|
    ensures Separate(input, start, os[k].start, os[..k]) && Separate(input, os[k].end, end, os[k + 1..])
  {}

  lemma SidesVisible(input: string, range: Range, os: seq<Occurrence>, k: nat) returns (left: Range, right: Range)
    requires range.Within(input) && Separate(input, range.start, range.end, os) && k < |os|
    requires AllVisible(Chain(input, range.start, range.end, os))
    ensures left == LeftOf(input, range, os[k]) && left.start < left.end && AllVisible(Chain(input, left.start, left.end, os[..k]))
    ensures right == RightOf(input, range, os[k]) && right.start < right.end && AllVisible(Chain(input, right.start, right.end, os[k + 1..]))
  {
    var o := os[k];
    left, right := LeftOf(input, range, o), RightOf(input, range, o);
    ChainSplits(input, range.start, range.end, os, k);
    var lc, rc := Chain(input, range.start, o.start, os[..k]), Chain(input, o.end, range.end, os[k + 1..]);
    AllVisibleConcat(lc + [Sign(o)], rc);
    AllVisibleConcat(lc, [Sign(o)]);
    SeparateSides(input, range.start, range.end, os, k);
    SideNarrows(input, Range(range.start, o.start), os[..k]);
    SideNarrows(input, Range(o.end, range.end), os[k + 1..]);
  }
}
