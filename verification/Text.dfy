/** Source text shared by every parser: ranges, trimming and the closing-delimiter
    scanners. Text is a sequence of characters; positions are character positions. */
module Text {

  datatype Option<+T> = None | Some(value: T)

  datatype Range = Range(start: nat, end: nat) {
    predicate Within(input: string) { start <= end <= |input| }
  }

  /** Characters that Java's `String.trim` removes: everything up to the space. */
  predicate Blank(c: char) { c <= ' ' }

  predicate Blanks(input: string, start: nat, end: nat)
    requires end <= |input|
  {
    forall k :: start <= k < end ==> Blank(input[k])
  }

  /** Blank in the sense of `trim().is_empty()` for the given whitespace. */
  predicate BlankName(white: char -> bool, name: string) { forall k :: 0 <= k < |name| ==> white(name[k]) }

  predicate Capital(c: char) { 'A' <= c <= 'Z' }

  function AsciiLower(c: char): char { if Capital(c) then c + 32 as char else c }

  /** The order of strings, character by character. */
  predicate StringLess(a: string, b: string) {
    b != "" && (a == "" || a[0] < b[0] || (a[0] == b[0] && StringLess(a[1..], b[1..])))
  }

  function FirstVisible(s: string, from: nat): (r: nat)
    requires from <= |s|
    ensures from <= r <= |s|
    ensures forall k :: from <= k < r ==> Blank(s[k])
    ensures r < |s| ==> !Blank(s[r])
    decreases |s| - from
  {
    if from == |s| || !Blank(s[from]) then from else FirstVisible(s, from + 1)
  }

  function LastVisible(s: string, start: nat, end: nat): (r: nat)
    requires start <= end <= |s|
    ensures start <= r <= end
    ensures forall k :: r <= k < end ==> Blank(s[k])
    ensures start < r ==> !Blank(s[r - 1])
    decreases end
  {
    if end == start || !Blank(s[end - 1]) then end else LastVisible(s, start, end - 1)
  }

  /** The visible core of `input[range]`, in positions of `input`. */
  function Trimmed(input: string, range: Range): (r: Range)
    requires range.Within(input)
    ensures range.start <= r.start <= r.end <= range.end
    ensures forall k :: range.start <= k < r.start || r.end <= k < range.end ==> Blank(input[k])
    ensures r.start < r.end ==> !Blank(input[r.start]) && !Blank(input[r.end - 1])
  {
    var text := input[range.start..range.end];
    var start := FirstVisible(text, 0);
    var end := LastVisible(text, start, |text|);
    assert forall k :: 0 <= k < |text| ==> text[k] == input[range.start + k];
    assert forall k :: range.start <= k < range.end ==> input[k] == text[k - range.start];
    Range(range.start + start, range.start + end)
  }

  /** Trimming has only one answer when something visible is left. */
  lemma TrimmedUnique(input: string, range: Range, r: Range)
    requires range.Within(input)
    requires range.start <= r.start < r.end <= range.end
    requires forall k :: range.start <= k < r.start || r.end <= k < range.end ==> Blank(input[k])
    requires !Blank(input[r.start]) && !Blank(input[r.end - 1])
    ensures Trimmed(input, range) == r
  {
    var t := Trimmed(input, range);
    assert r.start < t.end;
    assert !(t.start < r.start);
    assert !(r.start < t.start);
    assert !(t.end < r.end);
    assert !(r.end < t.end);
  }

  /** Position of the quote closing a string. A doubled quote is an escape, and a
      quote between two `%` belongs to an embedded expression. */
  function FindQuoteEnd(input: string, cursor: nat, end: nat, inExpression: bool := false): (r: Option<nat>)
    requires end <= |input|
    ensures r.Some? ==> cursor <= r.value < end && input[r.value] == '"'
    decreases end - cursor
  {
    if cursor >= end then None
    else if input[cursor] == '"' && !inExpression then
      if cursor + 1 < |input| && input[cursor + 1] == '"'
      then FindQuoteEnd(input, cursor + 2, end, inExpression)
      else Some(cursor)
    else FindQuoteEnd(input, cursor + 1, end, (input[cursor] == '%') != inExpression)
  }

  function FindVariableEnd(input: string, cursor: nat, end: nat, depth: nat := 0): (r: Option<nat>)
    requires end <= |input|
    ensures r.Some? ==> cursor <= r.value < end && input[r.value] == '}'
    decreases end - cursor
  {
    if cursor >= end then None
    else if input[cursor] == '{' then FindVariableEnd(input, cursor + 1, end, depth + 1)
    else if input[cursor] == '}' then
      if depth == 0 then Some(cursor) else FindVariableEnd(input, cursor + 1, end, depth - 1)
    else FindVariableEnd(input, cursor + 1, end, depth)
  }

  function FindParenthesisEnd(input: string, cursor: nat, end: nat, depth: nat := 0): (r: Option<nat>)
    requires end <= |input|
    ensures r.Some? ==> cursor <= r.value < end && input[r.value] == ')'
    decreases end - cursor
  {
    if cursor >= end then None
    else if input[cursor] == '"' || input[cursor] == '{' then
      (match RegionEnd(input, cursor, end)
       case None => None
       case Some(close) => FindParenthesisEnd(input, close + 1, end, depth))
    else if input[cursor] == '(' then FindParenthesisEnd(input, cursor + 1, end, depth + 1)
    else if input[cursor] == ')' then
      if depth == 0 then Some(cursor) else FindParenthesisEnd(input, cursor + 1, end, depth - 1)
    else FindParenthesisEnd(input, cursor + 1, end, depth)
  }

  /** A closing quote found inside `small` is the one found inside `large`, and
      conversely: the scan never depends on where the range ends. */
  lemma {:induction false} QuoteEndLocal(input: string, cursor: nat, small: nat, large: nat, inExpression: bool := false)
    requires small <= large <= |input|
    ensures var s := FindQuoteEnd(input, cursor, small, inExpression);
            var l := FindQuoteEnd(input, cursor, large, inExpression);
            && (s.Some? ==> l == s)
            && (l.Some? && l.value < small ==> s == l)
    decreases small - cursor
  {
    if cursor < small {
      if input[cursor] == '"' && !inExpression {
        QuoteEndLocal(input, cursor + 2, small, large, inExpression);
      } else {
        QuoteEndLocal(input, cursor + 1, small, large, (input[cursor] == '%') != inExpression);
      }
    }
  }

  lemma {:induction false} VariableEndLocal(input: string, cursor: nat, small: nat, large: nat, depth: nat := 0)
    requires small <= large <= |input|
    ensures var s := FindVariableEnd(input, cursor, small, depth);
            var l := FindVariableEnd(input, cursor, large, depth);
            && (s.Some? ==> l == s)
            && (l.Some? && l.value < small ==> s == l)
    decreases small - cursor
  {
    if cursor < small {
      VariableEndLocal(input, cursor + 1, small, large, depth + 1);
      VariableEndLocal(input, cursor + 1, small, large, depth);
      if depth > 0 { VariableEndLocal(input, cursor + 1, small, large, depth - 1); }
    }
  }

  lemma {:induction false} ParenthesisEndLocal(input: string, cursor: nat, small: nat, large: nat, depth: nat := 0)
    requires small <= large <= |input|
    ensures var s := FindParenthesisEnd(input, cursor, small, depth);
            var l := FindParenthesisEnd(input, cursor, large, depth);
            && (s.Some? ==> l == s)
            && (l.Some? && l.value < small ==> s == l)
    decreases small - cursor
  {
    if cursor < small {
      if input[cursor] == '"' || input[cursor] == '{' {
        RegionEndLocal(input, cursor, small, large);
        var region := RegionEnd(input, cursor, large);
        if region.Some? && region.value < small { ParenthesisEndLocal(input, region.value + 1, small, large, depth); }
      } else if input[cursor] == '(' {
        ParenthesisEndLocal(input, cursor + 1, small, large, depth + 1);
      } else if input[cursor] == ')' {
        if depth > 0 { ParenthesisEndLocal(input, cursor + 1, small, large, depth - 1); }
      } else {
        ParenthesisEndLocal(input, cursor + 1, small, large, depth);
      }
    }
  }

  /** Where the quote or the variable at `cursor` closes. */
  function RegionEnd(input: string, cursor: nat, end: nat): (r: Option<nat>)
    requires cursor < |input| && end <= |input|
    ensures r.Some? ==> cursor < r.value < end
  {
    if input[cursor] == '"' then FindQuoteEnd(input, cursor + 1, end) else FindVariableEnd(input, cursor + 1, end)
  }

  lemma RegionEndLocal(input: string, cursor: nat, small: nat, large: nat)
    requires cursor < small <= large <= |input|
    ensures var s := RegionEnd(input, cursor, small);
            var l := RegionEnd(input, cursor, large);
            && (s.Some? ==> l == s)
            && (l.Some? && l.value < small ==> s == l)
  {
    QuoteEndLocal(input, cursor + 1, small, large);
    VariableEndLocal(input, cursor + 1, small, large);
  }
}
