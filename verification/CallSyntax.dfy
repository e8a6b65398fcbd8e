/** The text of a function call: its name, and its arguments between top-level commas. */
module CallSyntax {
  import opened Text
  import opened FunctionCalls

  /** Which names arguments may have. */
  datatype Policy = Policy(allowNamedArguments: bool, wideNamedArgumentNames: bool)

  /** Character classes of the language. */
  datatype Letters = Letters(alphabetic: char -> bool, numeric: char -> bool, white: char -> bool)

  datatype Call = Call(name: string, arguments: seq<Argument>, range: Range)

  // ------------------------------------------------------------------------- commas

  /** What the scan does at a character. */
  datatype Event = Fail | Skip(next: nat, depth: nat) | Comma(next: nat)

  function EventAt(input: string, cursor: nat, end: nat, depth: nat): (r: Event)
    requires cursor < end <= |input|
    ensures r != Fail ==> cursor < r.next <= end
    ensures r.Comma? ==> r.next == cursor + 1 && input[cursor] == ',' && depth == 0
    ensures r.Skip? ==> r.next == cursor + 1 || !Blank(input[r.next - 1])
  {
    var c := input[cursor];
    if c == '"' then Closing(FindQuoteEnd(input, cursor + 1, end), depth)
    else if c == '{' then Closing(FindVariableEnd(input, cursor + 1, end), depth)
    else if c == '(' then Skip(cursor + 1, depth + 1)
    else if c == ')' && depth > 0 then Skip(cursor + 1, depth - 1)
    else if c == ',' && depth == 0 then Comma(cursor + 1)
    else Skip(cursor + 1, depth)
  }

  function Closing(close: Option<nat>, depth: nat): Event {
    match close case None => Fail case Some(at) => Skip(at + 1, depth)
  }

  /** The events of a scan, by cursor and depth. */
  type Events = (nat, nat) -> Event

  ghost predicate Advances(events: Events, end: nat) {
    forall c: nat, d: nat :: c < end && events(c, d) != Fail ==>
      c < events(c, d).next <= end && (events(c, d).Comma? ==> events(c, d).next == c + 1)
  }

  function EventsOf(input: string, end: nat): (events: Events)
    requires end <= |input|
    ensures Advances(events, end)
  {
    (c: nat, d: nat) => if c < end then EventAt(input, c, end, d) else Fail
  }

  /** The commas outside quotes, variables and parentheses; nothing when one is left open. */
  function Commas(events: Events, cursor: nat, end: nat, depth: nat): (r: Option<seq<nat>>)
    requires Advances(events, end)
    ensures r.Some? ==> Increasing(r.value, cursor, end)
    decreases end - cursor
  {
    if cursor >= end then Some([])
    else
      match events(cursor, depth)
      case Fail => None
      case Skip(next, d) => Commas(events, next, end, d)
      case Comma(next) => Behind(cursor, Commas(events, next, end, 0))
  }

  predicate Increasing(commas: seq<nat>, start: nat, end: nat) {
    && (forall k :: 0 <= k < |commas| ==> start <= commas[k] < end)
    && (forall i, j :: 0 <= i < j < |commas| ==> commas[i] < commas[j])
  }

  function Behind(comma: nat, rest: Option<seq<nat>>): Option<seq<nat>> {
    if rest.Some? then Some([comma] + rest.value) else None
  }

  // ----------------------------------------------------------------------- arguments

  predicate WordCharacter(c: char) { c == '_' || 'a' <= c <= 'z' || 'A' <= c <= 'Z' || '0' <= c <= '9' }

  function WordEnd(text: string, from: nat): (r: nat)
    requires from <= |text|
    ensures from <= r <= |text|
    decreases |text| - from
  {
    if from < |text| && WordCharacter(text[from]) then WordEnd(text, from + 1) else from
  }

  function FindColon(text: string, from: nat): (r: Option<nat>)
    requires from <= |text|
    ensures r.Some? ==> from <= r.value < |text| && text[r.value] == ':' && forall k :: from <= k < r.value ==> text[k] != ':'
    decreases |text| - from
  {
    if from == |text| then None else if text[from] == ':' then Some(from) else FindColon(text, from + 1)
  }

  predicate NameFree(text: string) { forall k :: 0 <= k < |text| ==> text[k] !in {':', '(', ')', '{', '}', '"', ','} }

  /** Where the name of a named argument ends, at its colon. */
  function NameEnd(policy: Policy, text: string): (r: Option<nat>)
    ensures r.Some? ==> 0 < r.value < |text| && text[r.value] == ':'
  {
    if !policy.allowNamedArguments then None
    else if policy.wideNamedArgumentNames then
      var colon := FindColon(text, 0);
      if colon.Some? && colon.value > 0 && NameFree(text[..colon.value]) then colon else None
    else
      var end := WordEnd(text, 0);
      if 0 < end < |text| && text[end] == ':' then Some(end) else None
  }

  function TrimStart(white: char -> bool, s: string): string {
    if s != "" && white(s[0]) then TrimStart(white, s[1..]) else s
  }

  function TrimEnd(white: char -> bool, s: string): string {
    if s != "" && white(s[|s| - 1]) then TrimEnd(white, s[..|s| - 1]) else s
  }

  /** The argument with this visible text; a name counts only with a value. */
  function ArgumentAt(letters: Letters, policy: Policy, input: string, raw: Range): (a: Argument)
    requires raw.Within(input) && raw.start < raw.end
    ensures a.raw == raw && raw.start <= a.value.start < a.value.end <= raw.end
    ensures (a.kind == Named <==> a.name.Some?) && (a.kind == Unnamed ==> a.value == raw)
  {
    var name := NameEnd(policy, input[raw.start..raw.end]);
    var value := if name.Some? then Trimmed(input, Range(raw.start + name.value + 1, raw.end)) else raw;
    if name.Some? && value.start < value.end then
      Argument(Named, Some(TrimEnd(letters.white, TrimStart(letters.white, input[raw.start..raw.start + name.value]))), value, raw)
    else Argument(Unnamed, None, raw, raw)
  }

  /** `parsed_argument`: nothing for a blank piece. */
  function ParsedArgument(letters: Letters, policy: Policy, input: string, piece: Range): (r: Option<Argument>)
    requires piece.Within(input)
    ensures r.Some? ==> r.value.raw == Trimmed(input, piece)
    ensures r.None? <==> Trimmed(input, piece).start >= Trimmed(input, piece).end
  {
    var raw := Trimmed(input, piece);
    if raw.start >= raw.end then None else Some(ArgumentAt(letters, policy, input, raw))
  }

  /** How a piece becomes an argument. */
  type PieceParser = Range -> Option<Argument>

  function ParserOf(letters: Letters, policy: Policy, input: string): PieceParser {
    (piece: Range) => if piece.Within(input) then ParsedArgument(letters, policy, input, piece) else None
  }

  function Kept(a: Option<Argument>): seq<Argument> { if a.Some? then [a.value] else [] }

  /** The arguments between the commas, blank pieces left out. */
  function ArgumentsOf(parse: PieceParser, start: nat, end: nat, commas: seq<nat>): seq<Argument>
    decreases |commas|
  {
    if commas == [] then Kept(parse(Range(start, end)))
    else Kept(parse(Range(start, commas[0]))) + ArgumentsOf(parse, commas[0] + 1, end, commas[1..])
  }

  /** `split_arguments`, stated by the commas. */
  function Split(parse: PieceParser, input: string, range: Range): Option<seq<Argument>>
    requires range.Within(input)
  {
    if range.start == range.end then Some([]) else Remaining(parse, range.start, range.end, Commas(EventsOf(input, range.end), range.start, range.end, 0))
  }

  /** The arguments of the piece that began at `start` and of all behind it. */
  function Remaining(parse: PieceParser, start: nat, end: nat, commas: Option<seq<nat>>): Option<seq<Argument>> {
    if commas.None? then None else Some(ArgumentsOf(parse, start, end, commas.value))
  }

  function Joined(parts: seq<Argument>, rest: Option<seq<Argument>>): Option<seq<Argument>> {
    if rest.Some? then Some(parts + rest.value) else None
  }

  lemma CutPiece(parse: PieceParser, start: nat, comma: nat, end: nat, rest: Option<seq<nat>>)
    ensures Remaining(parse, start, end, Behind(comma, rest)) == Joined(Kept(parse(Range(start, comma))), Remaining(parse, comma + 1, end, rest))
  {
    if rest.Some? { assert ([comma] + rest.value)[1..] == rest.value; }
  }

  lemma JoinedTwice(a: seq<Argument>, b: seq<Argument>, rest: Option<seq<Argument>>)
    ensures Joined(a, Joined(b, rest)) == Joined(a + b, rest)
  {
    if rest.Some? { assert a + (b + rest.value) == (a + b) + rest.value; }
  }

  method SplitArguments(parse: PieceParser, input: string, range: Range) returns (r: Option<seq<Argument>>)
    requires range.Within(input)
    ensures r == Split(parse, input, range)
  {
    if range.start == range.end { return Some([]); }
    var parts: seq<Argument> := [];
    var start, cursor, depth := range.start, range.start, 0;
    ghost var events := EventsOf(input, range.end);
    ghost var all := Remaining(parse, start, range.end, Commas(events, cursor, range.end, depth));
    assert all.Some? ==> [] + all.value == all.value;
    while cursor < range.end
      invariant range.start <= start <= cursor <= range.end
      invariant all == Joined(parts, Remaining(parse, start, range.end, Commas(events, cursor, range.end, depth)))
      decreases range.end - cursor
    {
      var event := ScanCharacter(input, cursor, range.end, depth);
      match event {
        case Fail => return None;
        case Skip(next, d) => cursor, depth := next, d;
        case Comma(next) =>
          CutPiece(parse, start, cursor, range.end, Commas(events, next, range.end, 0));
          JoinedTwice(parts, Kept(parse(Range(start, cursor))), Remaining(parse, next, range.end, Commas(events, next, range.end, 0)));
          parts := Push(parts, parse(Range(start, cursor)));
          start, cursor := next, next;
      }
    }
    parts := Push(parts, parse(Range(start, range.end)));
    r := Some(parts);
  }

  method Push(parts: seq<Argument>, argument: Option<Argument>) returns (more: seq<Argument>)
    ensures more == parts + Kept(argument)
  {
    more := parts;
    if argument.Some? { more := more + [argument.value]; }
  }

  method ScanCharacter(input: string, cursor: nat, end: nat, depth: nat) returns (r: Event)
    requires cursor < end <= |input|
    ensures r == EventsOf(input, end)(cursor, depth)
  {
    var c := input[cursor];
    if c == '"' {
      r := Closing(FindQuoteEnd(input, cursor + 1, end), depth);
    } else if c == '{' {
      r := Closing(FindVariableEnd(input, cursor + 1, end), depth);
    } else if c == '(' {
      r := Skip(cursor + 1, depth + 1);
    } else if c == ')' && depth > 0 {
      r := Skip(cursor + 1, depth - 1);
    } else if c == ',' && depth == 0 {
      r := Comma(cursor + 1);
    } else {
      r := Skip(cursor + 1, depth);
    }
  }

  // -------------------------------------------------------------------- finest split

  /** Where the piece that is being scanned ends. */
  function PieceEnd(commas: seq<nat>, end: nat): nat { if commas == [] then end else commas[0] }

  lemma EventLocal(input: string, cursor: nat, small: nat, large: nat, depth: nat)
    requires cursor < small <= large <= |input| && EventAt(input, cursor, large, depth).Skip?
    requires EventAt(input, cursor, large, depth).next <= small
    ensures EventAt(input, cursor, small, depth) == EventAt(input, cursor, large, depth)
  {
    QuoteEndLocal(input, cursor + 1, small, large);
    VariableEndLocal(input, cursor + 1, small, large);
  }

  /** Skips that end inside the smaller range are the same in both. */
  ghost predicate Agree(events: Events, fewer: Events, small: nat) {
    forall c: nat, d: nat :: c < small && events(c, d).Skip? && events(c, d).next <= small ==> fewer(c, d) == events(c, d)
  }

  /** Only visible text is jumped over, and blanks are passed one by one. */
  ghost predicate Tidy(input: string, events: Events, end: nat) {
    forall c: nat, d: nat :: c < end <= |input| && events(c, d) != Fail ==> TidyEvent(input, c, d, events(c, d))
  }

  predicate TidyEvent(input: string, c: nat, d: nat, event: Event)
    requires c < |input| && event != Fail
  {
    && c < event.next <= |input| && (event.Skip? ==> event.next == c + 1 || !Blank(input[event.next - 1]))
    && (Blank(input[c]) ==> event == Skip(c + 1, d))
  }

  lemma EventsAreTidy(input: string, small: nat, large: nat)
    requires small <= large <= |input|
    ensures Tidy(input, EventsOf(input, large), large) && Agree(EventsOf(input, large), EventsOf(input, small), small)
    ensures forall c: nat, d: nat :: c < large && Blank(input[c]) ==> EventsOf(input, large)(c, d) != Fail
  {
    forall c: nat, d: nat | c < small && EventsOf(input, large)(c, d).Skip? && EventsOf(input, large)(c, d).next <= small
      ensures EventsOf(input, small)(c, d) == EventsOf(input, large)(c, d)
    {
      EventLocal(input, c, small, large, d);
    }
  }

  /** Taken by itself, a piece without its trailing blanks has no top-level comma. */
  lemma {:induction false} PieceAlone(input: string, events: Events, fewer: Events, cursor: nat, end: nat, depth: nat,
                                      commas: seq<nat>, small: nat)
    requires end <= |input| && Advances(events, end) && Advances(fewer, small) && Agree(events, fewer, small) && Tidy(input, events, end)
    requires Commas(events, cursor, end, depth) == Some(commas) && cursor <= small <= PieceEnd(commas, end)
    requires Blanks(input, small, PieceEnd(commas, end))
    ensures Commas(fewer, cursor, small, depth) == Some([])
    decreases end - cursor
  {
    if cursor < small {
      var event := events(cursor, depth);
      if event.Skip? {
        assert TidyEvent(input, cursor, depth, event);
        PieceAlone(input, events, fewer, event.next, end, event.depth, commas, small);
      }
    }
  }

  /** Blanks in front change nothing. */
  lemma {:induction false} SkipBlanks(input: string, events: Events, cursor: nat, start: nat, end: nat, depth: nat)
    requires cursor <= start <= end <= |input| && Blanks(input, cursor, start) && Advances(events, end) && Tidy(input, events, end)
    requires forall c: nat, d: nat :: c < end && Blank(input[c]) ==> events(c, d) != Fail
    ensures Commas(events, cursor, end, depth) == Commas(events, start, end, depth)
    decreases start - cursor
  {
    if cursor < start {
      assert TidyEvent(input, cursor, depth, events(cursor, depth));
      SkipBlanks(input, events, cursor + 1, start, end, depth);
    }
  }

  /** Trimming what is trimmed changes nothing. */
  lemma TrimmedTwice(input: string, piece: Range)
    requires piece.Within(input)
    ensures Trimmed(input, piece).start < Trimmed(input, piece).end ==> Trimmed(input, Trimmed(input, piece)) == Trimmed(input, piece)
  {
    var t := Trimmed(input, piece);
    if t.start < t.end { TrimmedUnique(input, t, t); }
  }

  /** What an argument is parsed from, without the blanks around it, gives it again. */
  ghost predicate Repeatable(input: string, parse: PieceParser) {
    forall piece: Range {:trigger parse(piece)} :: piece.Within(input) && parse(piece).Some? ==> RepeatsRaw(input, parse, piece)
  }

  ghost predicate RepeatsRaw(input: string, parse: PieceParser, piece: Range)
    requires piece.Within(input) && parse(piece).Some?
  {
    var raw := parse(piece).value.raw;
    raw == Trimmed(input, piece) && raw.start < raw.end && parse(raw) == parse(piece)
  }

  lemma ParserRepeats(letters: Letters, policy: Policy, input: string)
    ensures Repeatable(input, ParserOf(letters, policy, input))
  {
    var parse := ParserOf(letters, policy, input);
    forall piece: Range | piece.Within(input) && parse(piece).Some? ensures RepeatsRaw(input, parse, piece) {
      TrimmedTwice(input, piece);
    }
  }

  /** A piece that yields an argument yields the same one alone when it is split again. */
  lemma {:induction false} PieceSplitsAlone(parse: PieceParser, input: string, start: nat, end: nat, commas: seq<nat>)
    requires start <= end <= |input| && Commas(EventsOf(input, end), start, end, 0) == Some(commas) && Repeatable(input, parse)
    requires start <= PieceEnd(commas, end) <= end
    ensures var argument := parse(Range(start, PieceEnd(commas, end)));
            argument.Some? ==> argument.value.raw.Within(input) && Split(parse, input, argument.value.raw) == Some([argument.value])
  {
    var piece := Range(start, PieceEnd(commas, end));
    if parse(piece).Some? {
      assert RepeatsRaw(input, parse, piece);
      RawAlone(input, start, end, commas);
    }
  }

  lemma {:induction false} RawAlone(input: string, start: nat, end: nat, commas: seq<nat>)
    requires start <= PieceEnd(commas, end) <= end <= |input| && Commas(EventsOf(input, end), start, end, 0) == Some(commas)
    ensures var raw := Trimmed(input, Range(start, PieceEnd(commas, end)));
            raw.start < raw.end ==> Commas(EventsOf(input, raw.end), raw.start, raw.end, 0) == Some([])
  {
    var raw := Trimmed(input, Range(start, PieceEnd(commas, end)));
    if raw.start < raw.end {
      EventsAreTidy(input, raw.end, end);
      SkipBlanks(input, EventsOf(input, end), start, raw.start, end, 0);
      PieceAlone(input, EventsOf(input, end), EventsOf(input, raw.end), raw.start, end, 0, commas, raw.end);
    }
  }

  /** The piece that an argument was parsed from. */
  lemma {:induction false} PieceOf(parse: PieceParser, events: Events, start: nat, end: nat, commas: seq<nat>, a: Argument)
    returns (from: nat, rest: seq<nat>)
    requires start <= end && Advances(events, end) && Commas(events, start, end, 0) == Some(commas) && a in ArgumentsOf(parse, start, end, commas)
    ensures start <= from <= PieceEnd(rest, end) <= end && Commas(events, from, end, 0) == Some(rest)
    ensures parse(Range(from, PieceEnd(rest, end))) == Some(a)
    decreases |commas|
  {
    if a in Kept(parse(Range(start, PieceEnd(commas, end)))) { return start, commas; }
    CommasBehind(events, start, end, 0, commas);
    from, rest := PieceOf(parse, events, commas[0] + 1, end, commas[1..], a);
  }

  /** No argument can be split further: each, taken by itself, is its only argument. */
  lemma {:induction false} SplitIsFinest(parse: PieceParser, input: string, start: nat, end: nat, commas: seq<nat>, a: Argument)
    requires start <= end <= |input| && Commas(EventsOf(input, end), start, end, 0) == Some(commas) && Repeatable(input, parse)
    requires a in ArgumentsOf(parse, start, end, commas)
    ensures a.raw.Within(input) && start <= a.raw.start < a.raw.end <= end && Split(parse, input, a.raw) == Some([a])
  {
    var from, rest := PieceOf(parse, EventsOf(input, end), start, end, commas, a);
    PieceSplitsAlone(parse, input, from, end, rest);
    assert RepeatsRaw(input, parse, Range(from, PieceEnd(rest, end)));
  }

  /** Behind the first comma the scan begins anew. */
  lemma {:induction false} CommasBehind(events: Events, cursor: nat, end: nat, depth: nat, commas: seq<nat>)
    requires Advances(events, end) && Commas(events, cursor, end, depth) == Some(commas) && commas != []
    ensures Commas(events, commas[0] + 1, end, 0) == Some(commas[1..])
    decreases end - cursor
  {
    var event := events(cursor, depth);
    if event.Skip? { CommasBehind(events, event.next, end, event.depth, commas); }
  }

  // ----------------------------------------------------------------------------- call

  predicate NameStart(letters: Letters, c: char) { c == '_' || letters.alphabetic(c) }

  predicate NamePart(letters: Letters, c: char) { c == '_' || letters.alphabetic(c) || letters.numeric(c) }

  function NameLimit(letters: Letters, input: string, cursor: nat, end: nat): (r: nat)
    requires cursor <= end <= |input|
    ensures cursor <= r <= end
    decreases end - cursor
  {
    if cursor < end && NamePart(letters, input[cursor]) then NameLimit(letters, input, cursor + 1, end) else cursor
  }

  /** `parse_call_syntax`: a name right in front of a parenthesis that closes at one of the ends. */
  method ParseCallSyntax(letters: Letters, policy: Policy, input: string, range: Range, ends: seq<nat>) returns (r: Option<Call>)
    requires range.Within(input)
    ensures r == CallOf(ParserOf(letters, policy, input), letters, input, range, ends)
  {
    var head := ParseHead(letters, input, range);
    r := ParseArguments(ParserOf(letters, policy, input), input, range, ends, head);
  }

  method ParseArguments(parse: PieceParser, input: string, range: Range, ends: seq<nat>, head: Option<(nat, nat)>) returns (r: Option<Call>)
    requires head.Some? ==> range.start <= head.value.0 < head.value.1 <= |input|
    ensures r == CallFrom(parse, input, range, ends, head)
  {
    if head.None? || head.value.1 + 1 !in ends { return None; }
    var arguments := SplitArguments(parse, input, Range(head.value.0 + 1, head.value.1));
    r := Assembled(input, range, head.value.0, head.value.1, arguments);
  }

  method ParseHead(letters: Letters, input: string, range: Range) returns (r: Option<(nat, nat)>)
    requires range.Within(input)
    ensures r == CallHead(letters, input, range)
  {
    if range.start == range.end || !NameStart(letters, input[range.start]) { return None; }
    var cursor := ScanName(letters, input, range.start + 1, range.end);
    if cursor == range.end || input[cursor] != '(' { return None; }
    var close := FindParenthesisEnd(input, cursor + 1, range.end);
    r := if close.Some? then Some((cursor, close.value)) else None;
  }

  method ScanName(letters: Letters, input: string, from: nat, end: nat) returns (cursor: nat)
    requires from <= end <= |input|
    ensures cursor == NameLimit(letters, input, from, end)
  {
    cursor := from;
    while cursor < end
      invariant from <= cursor <= end
      invariant NameLimit(letters, input, cursor, end) == NameLimit(letters, input, from, end)
    {
      if !NamePart(letters, input[cursor]) { break; }
      cursor := cursor + 1;
    }
  }

  /** The parentheses behind the name at the start of a range. */
  function CallHead(letters: Letters, input: string, range: Range): (r: Option<(nat, nat)>)
    requires range.Within(input)
    ensures r.Some? ==> NamedHead(letters, input, range, r.value.0, r.value.1)
  {
    if range.start == range.end || !NameStart(letters, input[range.start]) then None
    else
      var paren := NameLimit(letters, input, range.start + 1, range.end);
      if paren == range.end || input[paren] != '(' then None
      else
        var close := FindParenthesisEnd(input, paren + 1, range.end);
        if close.Some? then Some((paren, close.value)) else None
  }

  predicate NamedHead(letters: Letters, input: string, range: Range, paren: nat, close: nat)
    requires range.Within(input)
  {
    range.start < paren < close < range.end && NameStart(letters, input[range.start]) && input[paren] == '(' && input[close] == ')'
  }

  /** The call at the start of a range. */
  function CallOf(parse: PieceParser, letters: Letters, input: string, range: Range, ends: seq<nat>): Option<Call>
    requires range.Within(input)
  {
    CallFrom(parse, input, range, ends, CallHead(letters, input, range))
  }

  function CallFrom(parse: PieceParser, input: string, range: Range, ends: seq<nat>, head: Option<(nat, nat)>): Option<Call>
    requires head.Some? ==> range.start <= head.value.0 < head.value.1 <= |input|
  {
    if head.None? || head.value.1 + 1 !in ends then None
    else Assembled(input, range, head.value.0, head.value.1, Split(parse, input, Range(head.value.0 + 1, head.value.1)))
  }

  function Assembled(input: string, range: Range, paren: nat, close: nat, arguments: Option<seq<Argument>>): Option<Call>
    requires range.start <= paren <= |input|
  {
    if arguments.None? then None else Some(Call(input[range.start..paren], arguments.value, Range(range.start, close + 1)))
  }

  /** A call spans from the range start to one of the ends, with a name in front of the
      parentheses and the arguments between them. */
  predicate CallShape(parse: PieceParser, letters: Letters, input: string, range: Range, ends: seq<nat>, call: Call)
    requires range.Within(input)
  {
    && call.range.start == range.start && call.range.end in ends && call.range.end <= range.end
    && call.name != "" && NameStart(letters, call.name[0]) && call.range.start + |call.name| + 1 < call.range.end
    && input[call.range.start..call.range.start + |call.name|] == call.name
    && Split(parse, input, Inner(call)) == Some(call.arguments)
  }

  lemma CallHasShape(parse: PieceParser, letters: Letters, input: string, range: Range, ends: seq<nat>)
    requires range.Within(input) && CallOf(parse, letters, input, range, ends).Some?
    ensures CallShape(parse, letters, input, range, ends, CallOf(parse, letters, input, range, ends).value)
  {
    var (paren, close) := CallHead(letters, input, range).value;
    assert NamedHead(letters, input, range, paren, close);
  }

  /** Between the parentheses. */
  function Inner(call: Call): Range
    requires call.range.start + |call.name| + 1 < call.range.end
  {
    Range(call.range.start + |call.name| + 1, call.range.end - 1)
  }

  /** Each argument lies inside the parentheses, and is its own only argument. */
  lemma ArgumentsAlone(letters: Letters, policy: Policy, input: string, inner: Range, arguments: seq<Argument>, a: Argument)
    requires inner.Within(input) && Split(ParserOf(letters, policy, input), input, inner) == Some(arguments) && a in arguments
    ensures inner.start <= a.raw.start < a.raw.end <= inner.end && Split(ParserOf(letters, policy, input), input, a.raw) == Some([a])
  {
    var commas := Commas(EventsOf(input, inner.end), inner.start, inner.end, 0).value;
    ParserRepeats(letters, policy, input);
    SplitIsFinest(ParserOf(letters, policy, input), input, inner.start, inner.end, commas, a);
  }
}
