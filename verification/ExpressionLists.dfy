/** Splitting text into the pieces of an expression list, and what the delimiters say
    about the list as a whole. */
module ExpressionLists {
  import opened Text

  datatype Delimiter = Comma | And | Or | Nor

  /** How a list is evaluated: all of its children, or one picked at runtime. */
  datatype Conjunction = All | Any

  datatype RawList = RawList(pieces: seq<Range>, delimiters: seq<Delimiter>)

  predicate RegexWhitespace(c: char) {
    c == ' ' || c == '\t' || c == '\n' || c == '\U{000B}' || c == '\U{000C}' || c == '\r'
  }

  // --------------------------------------------------------------------- delimiters

  function WhitespaceEnd(input: string, cursor: nat, end: nat): (r: nat)
    requires cursor <= end <= |input|
    ensures cursor <= r <= end
    ensures forall k :: cursor <= k < r ==> RegexWhitespace(input[k])
    ensures r < end ==> !RegexWhitespace(input[r])
    decreases end - cursor
  {
    if cursor < end && RegexWhitespace(input[cursor]) then WhitespaceEnd(input, cursor + 1, end) else cursor
  }

  method SkipWhitespace(input: string, from: nat, end: nat) returns (cursor: nat)
    requires from <= end <= |input|
    ensures cursor == WhitespaceEnd(input, from, end)
  {
    cursor := from;
    while cursor < end
      invariant from <= cursor <= end
      invariant WhitespaceEnd(input, cursor, end) == WhitespaceEnd(input, from, end)
    {
      if !RegexWhitespace(input[cursor]) { break; }
      cursor := cursor + 1;
    }
  }

  predicate WordAt(input: string, start: nat, end: nat, word: string)
    requires end <= |input|
  {
    start + |word| <= end && forall k :: 0 <= k < |word| ==> AsciiLower(input[start + k]) == word[k]
  }

  function ListOperatorAt(input: string, start: nat, end: nat): (r: Option<(nat, Delimiter)>)
    requires end <= |input|
    ensures r.Some? ==> start < r.value.0 <= end && r.value.1 != Comma
  {
    if WordAt(input, start, end, "and") then Some((start + 3, And))
    else if WordAt(input, start, end, "nor") then Some((start + 3, Nor))
    else if WordAt(input, start, end, "or") then Some((start + 2, Or))
    else None
  }

  /** An operator word with whitespace right behind it. */
  function OperatorWordAt(input: string, start: nat, end: nat): (r: Option<(nat, Delimiter)>)
    requires end <= |input|
    ensures r.Some? ==> start < r.value.0 < end && r.value.1 != Comma && RegexWhitespace(input[r.value.0])
  {
    match ListOperatorAt(input, start, end)
    case None => None
    case Some((wordEnd, delimiter)) =>
      if wordEnd < end && RegexWhitespace(input[wordEnd]) then Some((wordEnd, delimiter)) else None
  }

  /** A comma absorbs the operator word after it only across whitespace. */
  function CommaDelimiter(input: string, comma: nat, end: nat): (r: (nat, Delimiter))
    requires comma < end <= |input|
    ensures comma < r.0 <= end
  {
    var wordStart := WhitespaceEnd(input, comma + 1, end);
    var word := OperatorWordAt(input, wordStart, end);
    if wordStart > comma + 1 && word.Some? then (WhitespaceEnd(input, word.value.0, end), word.value.1)
    else (wordStart, Comma)
  }

  function WordDelimiter(input: string, whitespace: nat, end: nat): (r: Option<(nat, Delimiter)>)
    requires whitespace < end <= |input|
    ensures r.Some? ==> whitespace < r.value.0 <= end && r.value.1 != Comma
  {
    var wordStart := WhitespaceEnd(input, whitespace, end);
    match OperatorWordAt(input, wordStart, end)
    case None => None
    case Some((wordEnd, delimiter)) => Some((WhitespaceEnd(input, wordEnd, end), delimiter))
  }

  // ---------------------------------------------------------------------- the split

  /** Position behind a nested region that opens at `cursor`; an unclosed one runs to the end. */
  function BehindRegion(close: Option<nat>, end: nat): nat {
    match close case Some(at) => at + 1 case None => end
  }

  datatype Event = Step(next: nat) | Cut(next: nat, delimiter: Delimiter)

  /** What the scan does at `cursor`. */
  function EventAt(input: string, cursor: nat, end: nat): (r: Event)
    requires cursor < end <= |input|
    ensures cursor < r.next <= end
  {
    var c := input[cursor];
    if c == '"' then Step(BehindRegion(FindQuoteEnd(input, cursor + 1, end), end))
    else if c == '{' then Step(BehindRegion(FindVariableEnd(input, cursor + 1, end), end))
    else if c == '(' then Step(BehindRegion(FindParenthesisEnd(input, cursor + 1, end), end))
    else if c == ',' then
      var (next, delimiter) := CommaDelimiter(input, cursor, end);
      Cut(next, delimiter)
    else if RegexWhitespace(c) then
      (match WordDelimiter(input, cursor, end)
       case Some((next, delimiter)) => Cut(next, delimiter)
       case None => Step(cursor + 1))
    else Step(cursor + 1)
  }

  /** The cuts of a text: where a piece ends, where the next begins, and the delimiter. */
  datatype CutPoint = CutPoint(pieceEnd: nat, next: nat, delimiter: Delimiter)

  function Cuts(input: string, cursor: nat, end: nat): (r: seq<CutPoint>)
    requires cursor <= end <= |input|
    ensures Ordered(r, cursor, end)
    decreases end - cursor
  {
    if cursor == end then []
    else match EventAt(input, cursor, end)
      case Step(next) => Cuts(input, next, end)
      case Cut(next, delimiter) => [CutPoint(cursor, next, delimiter)] + Cuts(input, next, end)
  }

  /** Cuts inside a range, one behind the other. */
  predicate Ordered(cuts: seq<CutPoint>, start: nat, end: nat) {
    && (forall k :: 0 <= k < |cuts| ==> start <= cuts[k].pieceEnd < cuts[k].next <= end)
    && (forall i, j :: 0 <= i < j < |cuts| ==> cuts[i].next <= cuts[j].pieceEnd)
  }

  /** The text between consecutive cuts, untrimmed. */
  function GapAt(range: Range, cuts: seq<CutPoint>, k: nat): (r: Range)
    requires range.start <= range.end && k <= |cuts| && Ordered(cuts, range.start, range.end)
    ensures range.start <= r.start <= r.end <= range.end
  {
    Range(if k == 0 then range.start else cuts[k - 1].next, if k == |cuts| then range.end else cuts[k].pieceEnd)
  }

  function PieceAt(input: string, range: Range, cuts: seq<CutPoint>, k: nat): Range
    requires range.Within(input) && k <= |cuts| && Ordered(cuts, range.start, range.end)
  {
    Trimmed(input, GapAt(range, cuts, k))
  }

  predicate Empty(r: Range) { r.start >= r.end }

  /** The first `n` pieces and delimiters of the text, none of them empty. */
  ghost predicate Collected(input: string, range: Range, cuts: seq<CutPoint>, pieces: seq<Range>, delimiters: seq<Delimiter>)
    requires range.Within(input) && Ordered(cuts, range.start, range.end)
  {
    && PiecesOf(input, range, cuts, pieces)
    && |delimiters| <= |cuts| && forall k :: 0 <= k < |delimiters| ==> delimiters[k] == cuts[k].delimiter
  }

  ghost predicate PiecesOf(input: string, range: Range, cuts: seq<CutPoint>, pieces: seq<Range>)
    requires range.Within(input) && Ordered(cuts, range.start, range.end)
  {
    |pieces| <= |cuts| + 1 && forall k :: 0 <= k < |pieces| ==> pieces[k] == PieceAt(input, range, cuts, k) && !Empty(pieces[k])
  }

  /** The split, stated by the cuts: nothing without a delimiter or with an empty piece,
      otherwise the pieces between the cuts. */
  ghost predicate SplitsInto(input: string, range: Range, r: Option<RawList>)
    requires range.Within(input)
  {
    var cuts := Cuts(input, range.start, range.end);
    if cuts == [] || exists k :: 0 <= k <= |cuts| && Empty(PieceAt(input, range, cuts, k)) then r == None
    else
      && r.Some? && |r.value.pieces| == |cuts| + 1 && |r.value.delimiters| == |cuts|
      && Collected(input, range, cuts, r.value.pieces, r.value.delimiters)
  }

  lemma {:induction false} CutsFrom(input: string, cursor: nat, end: nat, cuts: seq<CutPoint>, n: nat)
    requires cursor < end <= |input| && n <= |cuts| && Cuts(input, cursor, end) == cuts[n..]
    ensures var e := EventAt(input, cursor, end);
            && (e.Step? ==> Cuts(input, e.next, end) == cuts[n..])
            && (e.Cut? ==> n < |cuts| && cuts[n] == CutPoint(cursor, e.next, e.delimiter)
                           && Cuts(input, e.next, end) == cuts[n + 1..])
  {
    var e := EventAt(input, cursor, end);
    if e.Cut? {
      assert cuts[n..][0] == CutPoint(cursor, e.next, e.delimiter);
      assert cuts[n..][1..] == cuts[n + 1..];
    }
  }

  /** Trims a piece and appends it; an empty piece ends the split. */
  method PushPiece(input: string, start: nat, end: nat, pieces: seq<Range>, ghost range: Range, ghost cuts: seq<CutPoint>)
    returns (r: Option<seq<Range>>)
    requires range.Within(input) && Ordered(cuts, range.start, range.end) && |pieces| <= |cuts|
    requires GapAt(range, cuts, |pieces|) == Range(start, end)
    ensures r == if Empty(PieceAt(input, range, cuts, |pieces|)) then None
                 else Some(pieces + [PieceAt(input, range, cuts, |pieces|)])
  {
    var trimmed := Trimmed(input, Range(start, end));
    if trimmed.start >= trimmed.end { return None; }
    return Some(pieces + [trimmed]);
  }

  lemma {:induction false} CollectPiece(input: string, range: Range, cuts: seq<CutPoint>, pieces: seq<Range>, piece: Range)
    requires range.Within(input) && Ordered(cuts, range.start, range.end)
    requires PiecesOf(input, range, cuts, pieces) && |pieces| <= |cuts|
    requires piece == PieceAt(input, range, cuts, |pieces|) && !Empty(piece)
    ensures PiecesOf(input, range, cuts, pieces + [piece])
  {
    var more := pieces + [piece];
    assert more[|pieces|] == piece;
    forall k | 0 <= k < |pieces| ensures more[k] == PieceAt(input, range, cuts, k) && !Empty(more[k]) { assert more[k] == pieces[k]; }
  }

  lemma CollectDelimiter(input: string, range: Range, cuts: seq<CutPoint>, pieces: seq<Range>, delimiters: seq<Delimiter>)
    requires range.Within(input) && Ordered(cuts, range.start, range.end)
    requires Collected(input, range, cuts, pieces, delimiters) && |delimiters| < |cuts|
    ensures Collected(input, range, cuts, pieces, delimiters + [cuts[|delimiters|].delimiter])
  {}

  lemma {:induction false} DroppedPiece(input: string, range: Range, k: nat)
    requires range.Within(input)
    requires var cuts := Cuts(input, range.start, range.end); k <= |cuts| && Empty(PieceAt(input, range, cuts, k))
    ensures SplitsInto(input, range, None)
  {}

  /** The next piece, unless it is empty, which ends the split. */
  method AddPiece(input: string, start: nat, end: nat, pieces: seq<Range>, delimiters: seq<Delimiter>, ghost range: Range, ghost cuts: seq<CutPoint>)
    returns (r: Option<seq<Range>>)
    requires range.Within(input) && cuts == Cuts(input, range.start, range.end) && |pieces| <= |cuts|
    requires Collected(input, range, cuts, pieces, delimiters) && GapAt(range, cuts, |pieces|) == Range(start, end)
    ensures r.None? && cuts != [] ==> SplitsInto(input, range, None)
    ensures r.Some? ==> |r.value| == |pieces| + 1 && Collected(input, range, cuts, r.value, delimiters)
  {
    r := PushPiece(input, start, end, pieces, range, cuts);
    if r.None? {
      DroppedPiece(input, range, |pieces|);
    } else {
      CollectPiece(input, range, cuts, pieces, r.value[|pieces|]);
    }
  }

  method SplitExpressionList(input: string, range: Range) returns (r: Option<RawList>)
    requires range.Within(input)
    ensures SplitsInto(input, range, r)
  {
    var pieces, delimiters: seq<Delimiter> := [], [];
    var partStart, cursor := range.start, range.start;
    ghost var cuts := Cuts(input, range.start, range.end);
    while cursor < range.end
      invariant range.start <= partStart <= cursor <= range.end
      invariant |pieces| == |delimiters| <= |cuts|
      invariant Collected(input, range, cuts, pieces, delimiters)
      invariant Cuts(input, cursor, range.end) == cuts[|pieces|..]
      invariant partStart == GapAt(range, cuts, |pieces|).start
      decreases range.end - cursor
    {
      ghost var n := |pieces|;
      CutsFrom(input, cursor, range.end, cuts, n);
      var next, delimiter := ScanStep(input, cursor, range.end);
      if delimiter.Some? {
        var pushed := AddPiece(input, partStart, cursor, pieces, delimiters, range, cuts);
        if pushed.None? { return None; }
        CollectDelimiter(input, range, cuts, pushed.value, delimiters);
        pieces, delimiters := pushed.value, delimiters + [delimiter.value];
        partStart := next;
      }
      cursor := next;
    }
    assert cuts[|pieces|..] == [] && |pieces| == |cuts|;
    if delimiters == [] { return None; }
    var pushed := AddPiece(input, partStart, range.end, pieces, delimiters, range, cuts);
    if pushed.None? { return None; }
    return Some(RawList(pushed.value, delimiters));
  }

  /** The character dispatch of the scan. */
  method ScanStep(input: string, cursor: nat, end: nat) returns (next: nat, delimiter: Option<Delimiter>)
    requires cursor < end <= |input|
    ensures EventAt(input, cursor, end) == if delimiter.None? then Step(next) else Cut(next, delimiter.value)
  {
    next, delimiter := cursor + 1, None;
    var c := input[cursor];
    if c == '"' {
      next := BehindRegion(FindQuoteEnd(input, next, end), end);
    } else if c == '{' {
      next := BehindRegion(FindVariableEnd(input, next, end), end);
    } else if c == '(' {
      next := BehindRegion(FindParenthesisEnd(input, next, end), end);
    } else if c == ',' {
      var cut := CommaDelimiter(input, cursor, end);
      next, delimiter := cut.0, Some(cut.1);
    } else if RegexWhitespace(c) {
      var cut := WordDelimiter(input, cursor, end);
      if cut.Some? { next, delimiter := cut.value.0, Some(cut.value.1); }
    }
  }

  /** Pieces visible, in range, in order and apart; one more than there are delimiters. */
  predicate WellShaped(input: string, range: Range, raw: RawList)
    requires range.Within(input)
  {
    && |raw.pieces| == |raw.delimiters| + 1 >= 2
    && (forall k :: 0 <= k < |raw.pieces| ==> VisiblePiece(input, range, raw.pieces[k]))
    && (forall i, j :: 0 <= i < j < |raw.pieces| ==> raw.pieces[i].end < raw.pieces[j].start)
  }

  predicate VisiblePiece(input: string, range: Range, piece: Range)
    requires range.Within(input)
  {
    range.start <= piece.start < piece.end <= range.end && !Blank(input[piece.start]) && !Blank(input[piece.end - 1])
  }

  /** Every successful split has that shape. */
  lemma SplitShape(input: string, range: Range, r: Option<RawList>)
    requires range.Within(input) && SplitsInto(input, range, r) && r.Some?
    ensures WellShaped(input, range, r.value)
  {
    var cuts := Cuts(input, range.start, range.end);
    var pieces := r.value.pieces;
    forall k | 0 <= k < |pieces| ensures VisiblePiece(input, range, pieces[k]) { PieceVisible(input, range, cuts, k); }
    forall i, j | 0 <= i < j < |pieces| ensures pieces[i].end < pieces[j].start { PiecesApart(input, range, cuts, i, j); }
  }

  lemma PieceVisible(input: string, range: Range, cuts: seq<CutPoint>, k: nat)
    requires range.Within(input) && k <= |cuts| && Ordered(cuts, range.start, range.end)
    requires !Empty(PieceAt(input, range, cuts, k))
    ensures VisiblePiece(input, range, PieceAt(input, range, cuts, k))
  {}

  lemma PiecesApart(input: string, range: Range, cuts: seq<CutPoint>, i: nat, j: nat)
    requires range.Within(input) && i < j <= |cuts| && Ordered(cuts, range.start, range.end)
    ensures PieceAt(input, range, cuts, i).end < PieceAt(input, range, cuts, j).start
  {
    assert GapAt(range, cuts, i).end < GapAt(range, cuts, j).start;
  }

  // ------------------------------------------------------------------- conjunction

  /** Children start at increasing pieces, the first at piece 0, and there are two or more. */
  predicate Segmentation(starts: seq<nat>, pieces: nat) {
    && |starts| >= 2 && starts[0] == 0
    && (forall k :: 0 < k < |starts| ==> starts[k - 1] < starts[k])
    && starts[|starts| - 1] < pieces
  }

  /** The delimiters that separate children; a comma is silent. */
  predicate Explicit(raw: RawList, start: nat)
    requires 0 < start <= |raw.delimiters|
  {
    raw.delimiters[start - 1] != Comma
  }

  /** `Any` exactly when some boundary between children is explicit and every explicit one
      is an `or`. */
  predicate JoinedBy(raw: RawList, starts: seq<nat>, conjunction: Conjunction)
    requires forall k :: 1 <= k < |starts| ==> 0 < starts[k] <= |raw.delimiters|
  {
    conjunction == Any <==>
      && (exists k :: 1 <= k < |starts| && Explicit(raw, starts[k]))
      && (forall k :: 1 <= k < |starts| && Explicit(raw, starts[k]) ==> raw.delimiters[starts[k] - 1] == Or)
  }

  method ConjunctionForChildren(raw: RawList, starts: seq<nat>) returns (r: Conjunction)
    requires |starts| > 0 && forall k :: 1 <= k < |starts| ==> 0 < starts[k] <= |raw.delimiters|
    ensures JoinedBy(raw, starts, r)
  {
    var mode: Option<Conjunction> := None;
    var k := 1;
    while k < |starts|
      invariant 1 <= k <= |starts|
      invariant mode.None? <==> forall j :: 1 <= j < k ==> !Explicit(raw, starts[j])
      invariant mode == Some(Any) <==>
        && (exists j :: 1 <= j < k && Explicit(raw, starts[j]))
        && (forall j :: 1 <= j < k && Explicit(raw, starts[j]) ==> raw.delimiters[starts[j] - 1] == Or)
    {
      var delimiter := raw.delimiters[starts[k] - 1];
      if delimiter != Comma {
        assert Explicit(raw, starts[k]);
        var incoming := if delimiter == Or then Any else All;
        mode := Some(if mode.None? then incoming else if mode.value == incoming then mode.value else All);
      }
      k := k + 1;
    }
    r := if mode.Some? then mode.value else All;
  }
}
