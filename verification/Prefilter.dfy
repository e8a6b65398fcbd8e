/** The literal filters put in front of the pattern matcher, computed from a pattern
    tree: what a match starts with, ends with, contains and how long it is at least. */
module Prefilter {
  import opened Text
  import opened Patterns

  /** Text known so far; a terminal state has met a hole and grows no more. */
  datatype PrefixState = PrefixState(text: string, terminal: bool)

  const STATE_LIMIT := 256

  // ---------------------------------------------------------------- leading states

  function Leading(elements: seq<Element>): seq<PrefixState>
    decreases elements, 1
  {
    LeadFrom([PrefixState("", false)], elements)
  }

  function LeadFrom(states: seq<PrefixState>, elements: seq<Element>): seq<PrefixState>
    decreases elements, 0
  {
    if elements == [] then states
    else
      var next := LeadAll(states, elements[0]);
      if |next| > STATE_LIMIT then [PrefixState("", true)] else LeadFrom(next, elements[1..])
  }

  function LeadAll(states: seq<PrefixState>, element: Element): seq<PrefixState>
    decreases element, 1, |states|
  {
    if states == [] then [] else LeadOne(states[0], element) + LeadAll(states[1..], element)
  }

  function LeadOne(state: PrefixState, element: Element): seq<PrefixState>
    decreases element, 0
  {
    if state.terminal then [state]
    else match element
      case Literal(text) => [PrefixState(state.text + text, false)]
      case Regex | TypeExpr(_) => [PrefixState(state.text, true)]
      case Group(children) => Appended(state, Leading(children))
      case Optional(children) => [state] + Appended(state, Leading(children))
      case Choice(branches) => LeadBranches(state, branches)
      case ParseTag | ParseMark | Empty => [state]
  }

  function LeadBranches(state: PrefixState, branches: seq<Branch>): seq<PrefixState>
    decreases branches
  {
    if branches == [] then []
    else Appended(state, Leading(branches[0].elements)) + LeadBranches(state, branches[1..])
  }

  function Appended(parent: PrefixState, children: seq<PrefixState>): seq<PrefixState> {
    if children == [] then []
    else [PrefixState(parent.text + children[0].text, children[0].terminal)] + Appended(parent, children[1..])
  }

  method AppendPrefixStates(parent: PrefixState, children: seq<PrefixState>, output: seq<PrefixState>)
    returns (r: seq<PrefixState>)
    ensures r == output + Appended(parent, children)
  {
    r := output;
    var i := 0;
    while i < |children|
      invariant 0 <= i <= |children|
      invariant r + Appended(parent, children[i..]) == output + Appended(parent, children)
    {
      r := r + [PrefixState(parent.text + children[i].text, children[i].terminal)];
      i := i + 1;
    }
  }

  method LeadingPrefixStates(elements: seq<Element>) returns (states: seq<PrefixState>)
    ensures states == Leading(elements)
    decreases elements, 1
  {
    states := [PrefixState("", false)];
    var i := 0;
    while i < |elements|
      invariant 0 <= i <= |elements|
      invariant LeadFrom(states, elements[i..]) == Leading(elements)
    {
      assert elements[i..][0] == elements[i] && elements[i..][1..] == elements[i + 1..];
      var next := [];
      var j := 0;
      while j < |states|
        invariant 0 <= j <= |states|
        invariant next + LeadAll(states[j..], elements[i]) == LeadAll(states, elements[i])
      {
        assert states[j..][1..] == states[j + 1..];
        var added := LeadState(states[j], elements[i]);
        next := next + added;
        j := j + 1;
      }
      assert next == LeadAll(states, elements[i]);
      if |next| > STATE_LIMIT {
        return [PrefixState("", true)];
      }
      assert LeadFrom(states, elements[i..]) == LeadFrom(next, elements[i + 1..]);
      states := next;
      i := i + 1;
    }
  }

  /** The body of the inner loop: one state through one element. */
  method LeadState(state: PrefixState, element: Element) returns (added: seq<PrefixState>)
    ensures added == LeadOne(state, element)
    decreases element, 0
  {
    if state.terminal { return [state]; }
    match element {
      case Literal(text) => added := [PrefixState(state.text + text, false)];
      case Regex => added := [state.(terminal := true)];
      case TypeExpr(_) => added := [state.(terminal := true)];
      case Group(children) =>
        var inner := LeadingPrefixStates(children);
        added := AppendPrefixStates(state, inner, []);
      case Optional(children) =>
        var inner := LeadingPrefixStates(children);
        added := AppendPrefixStates(state, inner, [state]);
      case Choice(branches) => added := LeadChoice(state, branches);
      case ParseTag => added := [state];
      case ParseMark => added := [state];
      case Empty => added := [state];
    }
  }

  lemma StatesRegroup(a: seq<PrefixState>, b: seq<PrefixState>, c: seq<PrefixState>)
    ensures a + (b + c) == a + b + c
  {}

  lemma {:induction false} LeadBranchesStep(state: PrefixState, branches: seq<Branch>, i: nat)
    requires i < |branches|
    ensures LeadBranches(state, branches[i..]) == Appended(state, Leading(branches[i].elements)) + LeadBranches(state, branches[i + 1..])
  {
    assert branches[i..][0] == branches[i] && branches[i..][1..] == branches[i + 1..];
  }

  lemma {:induction false} TrailBranchesStep(state: PrefixState, branches: seq<Branch>, i: nat)
    requires i < |branches|
    ensures TrailBranches(state, branches[i..]) == Prepended(state, Trailing(branches[i].elements)) + TrailBranches(state, branches[i + 1..])
  {
    assert branches[i..][0] == branches[i] && branches[i..][1..] == branches[i + 1..];
  }

  method LeadChoice(state: PrefixState, branches: seq<Branch>) returns (added: seq<PrefixState>)
    ensures added == LeadBranches(state, branches)
    decreases branches
  {
    added := [];
    var i := 0;
    while i < |branches|
      invariant 0 <= i <= |branches|
      invariant added + LeadBranches(state, branches[i..]) == LeadBranches(state, branches)
    {
      LeadBranchesStep(state, branches, i);
      var inner := LeadingPrefixStates(branches[i].elements);
      StatesRegroup(added, Appended(state, inner), LeadBranches(state, branches[i + 1..]));
      added := AppendPrefixStates(state, inner, added);
      i := i + 1;
    }
  }

  // --------------------------------------------------------------- trailing states

  function Trailing(elements: seq<Element>): seq<PrefixState>
    decreases elements, 1
  {
    TrailFrom([PrefixState("", false)], elements)
  }

  function TrailFrom(states: seq<PrefixState>, elements: seq<Element>): seq<PrefixState>
    decreases elements, 0
  {
    if elements == [] then states
    else
      var last := |elements| - 1;
      var next := TrailAll(states, elements[last]);
      if |next| > STATE_LIMIT then [PrefixState("", true)] else TrailFrom(next, elements[..last])
  }

  function TrailAll(states: seq<PrefixState>, element: Element): seq<PrefixState>
    decreases element, 1, |states|
  {
    if states == [] then [] else TrailOne(states[0], element) + TrailAll(states[1..], element)
  }

  function TrailOne(state: PrefixState, element: Element): seq<PrefixState>
    decreases element, 0
  {
    if state.terminal then [state]
    else match element
      case Literal(text) => [PrefixState(text + state.text, false)]
      case Regex | TypeExpr(_) => [PrefixState(state.text, true)]
      case Group(children) => Prepended(state, Trailing(children))
      case Optional(children) => [state] + Prepended(state, Trailing(children))
      case Choice(branches) => TrailBranches(state, branches)
      case ParseTag | ParseMark | Empty => [state]
  }

  function TrailBranches(state: PrefixState, branches: seq<Branch>): seq<PrefixState>
    decreases branches
  {
    if branches == [] then []
    else Prepended(state, Trailing(branches[0].elements)) + TrailBranches(state, branches[1..])
  }

  function Prepended(parent: PrefixState, children: seq<PrefixState>): seq<PrefixState> {
    if children == [] then []
    else [PrefixState(children[0].text + parent.text, children[0].terminal)] + Prepended(parent, children[1..])
  }

  method PrependSuffixStates(parent: PrefixState, children: seq<PrefixState>, output: seq<PrefixState>)
    returns (r: seq<PrefixState>)
    ensures r == output + Prepended(parent, children)
  {
    r := output;
    var i := 0;
    while i < |children|
      invariant 0 <= i <= |children|
      invariant r + Prepended(parent, children[i..]) == output + Prepended(parent, children)
    {
      r := r + [PrefixState(children[i].text + parent.text, children[i].terminal)];
      i := i + 1;
    }
  }

  method TrailingSuffixStates(elements: seq<Element>) returns (states: seq<PrefixState>)
    ensures states == Trailing(elements)
    decreases elements, 1
  {
    states := [PrefixState("", false)];
    var i := |elements|;
    assert elements[..i] == elements;
    while i > 0
      invariant 0 <= i <= |elements|
      invariant TrailFrom(states, elements[..i]) == Trailing(elements)
    {
      i := i - 1;
      assert elements[..i + 1][i] == elements[i] && elements[..i + 1][..i] == elements[..i];
      var next := [];
      var j := 0;
      while j < |states|
        invariant 0 <= j <= |states|
        invariant next + TrailAll(states[j..], elements[i]) == TrailAll(states, elements[i])
      {
        assert states[j..][1..] == states[j + 1..];
        var added := TrailState(states[j], elements[i]);
        next := next + added;
        j := j + 1;
      }
      assert next == TrailAll(states, elements[i]);
      if |next| > STATE_LIMIT {
        return [PrefixState("", true)];
      }
      assert TrailFrom(states, elements[..i + 1]) == TrailFrom(next, elements[..i]);
      states := next;
    }
  }

  method TrailState(state: PrefixState, element: Element) returns (added: seq<PrefixState>)
    ensures added == TrailOne(state, element)
    decreases element, 0
  {
    if state.terminal { return [state]; }
    match element {
      case Literal(text) => added := [PrefixState(text + state.text, false)];
      case Regex => added := [state.(terminal := true)];
      case TypeExpr(_) => added := [state.(terminal := true)];
      case Group(children) =>
        var inner := TrailingSuffixStates(children);
        added := PrependSuffixStates(state, inner, []);
      case Optional(children) =>
        var inner := TrailingSuffixStates(children);
        added := PrependSuffixStates(state, inner, [state]);
      case Choice(branches) => added := TrailChoice(state, branches);
      case ParseTag => added := [state];
      case ParseMark => added := [state];
      case Empty => added := [state];
    }
  }

  method TrailChoice(state: PrefixState, branches: seq<Branch>) returns (added: seq<PrefixState>)
    ensures added == TrailBranches(state, branches)
    decreases branches
  {
    added := [];
    var i := 0;
    while i < |branches|
      invariant 0 <= i <= |branches|
      invariant added + TrailBranches(state, branches[i..]) == TrailBranches(state, branches)
    {
      TrailBranchesStep(state, branches, i);
      var inner := TrailingSuffixStates(branches[i].elements);
      StatesRegroup(added, Prepended(state, inner), TrailBranches(state, branches[i + 1..]));
      added := PrependSuffixStates(state, inner, added);
      i := i + 1;
    }
  }

  // -------------------------------------------------- required literals and length

  /** `str::trim`. */
  function Core(u: Unicode, s: string): (r: string)
    ensures |r| <= |s|
    ensures r != [] ==> !u.white(r[0]) && !u.white(r[|r| - 1])
    decreases |s|
  {
    if s == [] then []
    else if u.white(s[0]) then Core(u, s[1..])
    else if u.white(s[|s| - 1]) then Core(u, s[..|s| - 1])
    else s
  }

  function Required(u: Unicode, elements: seq<Element>): seq<seq<string>>
    decreases elements, 1
  {
    RequiredFrom(u, [[]], elements)
  }

  function RequiredFrom(u: Unicode, branches: seq<seq<string>>, elements: seq<Element>): seq<seq<string>>
    decreases elements, 0
  {
    if elements == [] then branches
    else
      var combined := Combined(branches, RequiredOne(u, elements[0]));
      if |combined| > STATE_LIMIT then [[]] else RequiredFrom(u, combined, elements[1..])
  }

  function RequiredOne(u: Unicode, element: Element): seq<seq<string>>
    decreases element, 0
  {
    match element
    case Literal(text) => var core := Core(u, text); if core == [] then [[]] else [[u.LowerAll(core)]]
    case Group(children) => Required(u, children)
    case Choice(branches) => RequiredBranches(u, branches)
    case Regex | TypeExpr(_) | Optional(_) | ParseTag | ParseMark | Empty => [[]]
  }

  function RequiredBranches(u: Unicode, branches: seq<Branch>): seq<seq<string>>
    decreases branches
  {
    if branches == [] then [] else Required(u, branches[0].elements) + RequiredBranches(u, branches[1..])
  }

  function Combined(branches: seq<seq<string>>, added: seq<seq<string>>): seq<seq<string>> {
    if branches == [] then [] else Extended(branches[0], added) + Combined(branches[1..], added)
  }

  function Extended(branch: seq<string>, added: seq<seq<string>>): seq<seq<string>> {
    if added == [] then [] else [branch + added[0]] + Extended(branch, added[1..])
  }

  method RequiredLiteralBranches(u: Unicode, elements: seq<Element>) returns (branches: seq<seq<string>>)
    ensures branches == Required(u, elements)
    decreases elements, 1
  {
    branches := [[]];
    var i := 0;
    while i < |elements|
      invariant 0 <= i <= |elements|
      invariant RequiredFrom(u, branches, elements[i..]) == Required(u, elements)
    {
      assert elements[i..][0] == elements[i] && elements[i..][1..] == elements[i + 1..];
      var elementBranches := RequiredByElement(u, elements[i]);
      var combined := CombineBranches(branches, elementBranches);
      assert RequiredFrom(u, branches, elements[i..])
          == if combined.None? then [[]] else RequiredFrom(u, combined.value, elements[i + 1..]);
      if combined.None? { return [[]]; }
      branches := combined.value;
      i := i + 1;
    }
  }

  /** The cross product, abandoned as soon as it has more than 256 branches. */
  method CombineBranches(branches: seq<seq<string>>, added: seq<seq<string>>) returns (r: Option<seq<seq<string>>>)
    ensures r == if |Combined(branches, added)| > STATE_LIMIT then None else Some(Combined(branches, added))
  {
    var combined: seq<seq<string>> := [];
    var j := 0;
    while j < |branches|
      invariant 0 <= j <= |branches| && |combined| <= STATE_LIMIT
      invariant combined + Combined(branches[j..], added) == Combined(branches, added)
    {
      assert branches[j..][1..] == branches[j + 1..];
      ghost var before := combined;
      var k := 0;
      while k < |added|
        invariant 0 <= k <= |added| && |combined| <= STATE_LIMIT
        invariant combined + Extended(branches[j], added[k..]) == before + Extended(branches[j], added)
      {
        combined := combined + [branches[j] + added[k]];
        if |combined| > STATE_LIMIT {
          assert |Combined(branches, added)| >= |before + Extended(branches[j], added)| > STATE_LIMIT;
          return None;
        }
        k := k + 1;
      }
      assert combined == before + Extended(branches[j], added);
      j := j + 1;
    }
    assert combined == Combined(branches, added);
    return Some(combined);
  }

  method RequiredByElement(u: Unicode, element: Element) returns (r: seq<seq<string>>)
    ensures r == RequiredOne(u, element)
    decreases element, 0
  {
    match element {
      case Literal(text) =>
        var core := Core(u, text);
        r := if core == [] then [[]] else [[u.LowerAll(core)]];
      case Group(children) => r := RequiredLiteralBranches(u, children);
      case Choice(branches) =>
        r := [];
        var i := 0;
        while i < |branches|
          invariant 0 <= i <= |branches|
          invariant r + RequiredBranches(u, branches[i..]) == RequiredBranches(u, branches)
        {
          assert branches[i..][1..] == branches[i + 1..];
          var inner := RequiredLiteralBranches(u, branches[i].elements);
          r := r + inner;
          i := i + 1;
        }
      case Regex => r := [[]];
      case TypeExpr(_) => r := [[]];
      case Optional(_) => r := [[]];
      case ParseTag => r := [[]];
      case ParseMark => r := [[]];
      case Empty => r := [[]];
    }
  }

  function Solid(s: string): nat {
    if s == [] then 0 else (if s[0] == ' ' then 0 else 1) + Solid(s[1..])
  }

  function MinimumLength(elements: seq<Element>): nat
    decreases elements, 1
  {
    if elements == [] then 0 else MinimumOne(elements[0]) + MinimumLength(elements[1..])
  }

  function MinimumOne(element: Element): nat
    decreases element, 0
  {
    match element
    case Literal(text) => Solid(text)
    case Group(children) => MinimumLength(children)
    case Choice(branches) => MinimumBranch(branches)
    case Regex | TypeExpr(_) | Optional(_) | ParseTag | ParseMark | Empty => 0
  }

  function MinimumBranch(branches: seq<Branch>): nat
    decreases branches
  {
    if branches == [] then 0
    else if |branches| == 1 then MinimumLength(branches[0].elements)
    else
      var first, rest := MinimumLength(branches[0].elements), MinimumBranch(branches[1..]);
      if first <= rest then first else rest
  }

  // --------------------------------------------------------- scanning for a literal

  function Reverse<T>(s: seq<T>): (r: seq<T>)
    ensures |r| == |s| && forall k :: 0 <= k < |s| ==> r[k] == s[|s| - 1 - k]
  {
    if s == [] then [] else Reverse(s[1..]) + [s[0]]
  }

  /** The prefix scan accepts what the matcher's own literal scan accepts at the start. */
  predicate Starts(u: Unicode, input: string, prefix: string) {
    MatchLiteral(u, input, Range(0, |input|), 0, prefix).Some?
  }

  /** The suffix scan is the prefix scan of the reversed text. */
  predicate Ends(u: Unicode, input: string, suffix: string) {
    Starts(u, Reverse(input), Reverse(suffix))
  }

  method StartsWithSkriptLiteral(u: Unicode, input: string, prefix: string) returns (r: bool)
    ensures r == Starts(u, input, prefix)
  {
    var cursor := 0;
    var i := 0;
    while i < |prefix|
      invariant 0 <= i <= |prefix| && 0 <= cursor <= |input|
      invariant MatchLiteral(u, input, Range(0, |input|), cursor, prefix[i..]).Some? == Starts(u, input, prefix)
    {
      var expected := prefix[i];
      assert prefix[i..][1..] == prefix[i + 1..];
      i := i + 1;
      if expected == ' ' {
        if cursor == 0 || cursor == |input| { continue; }
        if input[cursor] == ' ' {
          cursor := cursor + 1;
          continue;
        }
        if input[cursor - 1] == ' ' { continue; }
        return false;
      }
      if cursor == |input| || !u.Same(expected, input[cursor]) { return false; }
      cursor := cursor + 1;
    }
    return true;
  }

  method EndsWithSkriptLiteral(u: Unicode, input: string, suffix: string) returns (r: bool)
    ensures r == Ends(u, input, suffix)
  {
    ghost var mirror := Reverse(input);
    ghost var wanted := Reverse(suffix);
    var cursor := |input|;
    var i := |suffix|;
    while i > 0
      invariant 0 <= i <= |suffix| && 0 <= cursor <= |input|
      invariant MatchLiteral(u, mirror, Range(0, |mirror|), |input| - cursor, wanted[|suffix| - i..]).Some?
             == Ends(u, input, suffix)
    {
      i := i - 1;
      var expected := suffix[i];
      ghost var rest := wanted[|suffix| - i - 1..];
      assert rest[0] == expected && rest[1..] == wanted[|suffix| - i..];
      if expected == ' ' {
        if cursor == 0 || cursor == |input| { continue; }
        assert mirror[|input| - cursor] == input[cursor - 1] && mirror[|input| - cursor - 1] == input[cursor];
        if input[cursor - 1] == ' ' {
          cursor := cursor - 1;
          continue;
        }
        if input[cursor] == ' ' { continue; }
        return false;
      }
      if cursor == 0 || !u.Same(expected, input[cursor - 1]) { return false; }
      cursor := cursor - 1;
    }
    return true;
  }

  /** `contains_literal_ignore_case`: ASCII text takes a shortcut that never builds the
      lowercase input; other text looks in `lowercaseInput`. */
  predicate ContainsIgnoreCase(input: string, lowercaseInput: string, literal: string) {
    if literal == [] then true
    else if AllAscii(input) && AllAscii(literal) then
      exists i :: 0 <= i <= |input| && EqualsAt(input, literal, i)
    else Contains(lowercaseInput, literal)
  }

  predicate AllAscii(s: string) { forall k :: 0 <= k < |s| ==> Ascii(s[k]) }

  predicate EqualsAt(input: string, literal: string, i: nat) {
    i + |literal| <= |input| && forall k :: 0 <= k < |literal| ==> AsciiLower(input[i + k]) == AsciiLower(literal[k])
  }

  predicate Contains(s: string, part: string) {
    exists i :: 0 <= i <= |s| && OccursAt(s, part, i)
  }

  predicate OccursAt(s: string, part: string, i: nat) {
    i + |part| <= |s| && s[i..i + |part|] == part
  }

  predicate AllSpaces(s: string) { forall k :: 0 <= k < |s| ==> s[k] == ' ' }

  // ------------------------------------------------------------------ the filter

  datatype PatternPrefilter = PatternPrefilter(
    leftRecursive: bool,
    minimumInputLength: nat,
    leading: seq<PrefixState>,
    trailing: seq<PrefixState>,
    requiredLiteralBranches: seq<seq<string>>)

  function PrefilterOf(u: Unicode, elements: seq<Element>): PatternPrefilter {
    PatternPrefilter(SequenceStart(elements).0, MinimumLength(elements), Leading(elements), Trailing(elements),
                     Required(u, elements))
  }

  method NewPrefilter(u: Unicode, elements: seq<Element>) returns (p: PatternPrefilter)
    ensures p == PrefilterOf(u, elements)
  {
    var leading := LeadingPrefixStates(elements);
    var trailing := TrailingSuffixStates(elements);
    var required := RequiredLiteralBranches(u, elements);
    var leftRecursive, _ := FirstElementOf(elements);
    p := PatternPrefilter(leftRecursive, MinimumLength(elements), leading, trailing, required);
  }

  predicate MayStart(u: Unicode, states: seq<PrefixState>, input: string) {
    exists i :: 0 <= i < |states| && (AllSpaces(states[i].text) || Starts(u, input, states[i].text))
  }

  predicate MayEnd(u: Unicode, states: seq<PrefixState>, input: string) {
    exists i :: 0 <= i < |states| && (AllSpaces(states[i].text) || Ends(u, input, states[i].text))
  }

  predicate Accepts(u: Unicode, p: PatternPrefilter, input: string) {
    && |input| >= p.minimumInputLength
    && MayStart(u, p.leading, input)
    && MayEnd(u, p.trailing, input)
    && var lowercase := if AllAscii(input) then input else u.LowerAll(input);
       exists i :: 0 <= i < |p.requiredLiteralBranches| && ContainsEvery(input, lowercase, p.requiredLiteralBranches[i])
  }

  predicate ContainsEvery(input: string, lowercase: string, literals: seq<string>) {
    forall k :: 0 <= k < |literals| ==> ContainsIgnoreCase(input, lowercase, literals[k])
  }

  // -------------------------------------------------------------- left recursion

  /** Whether a sequence begins with a typed capture, and whether it can be empty. The
      second answer is only meaningful when the first is negative. */
  function SequenceStart(elements: seq<Element>): (bool, bool)
    decreases elements, 1
  {
    if elements == [] then (false, true)
    else
      var (typed, empty) := ElementStart(elements[0]);
      if typed then (true, false) else if !empty then (false, false) else SequenceStart(elements[1..])
  }

  function ElementStart(element: Element): (bool, bool)
    decreases element, 0
  {
    match element
    case TypeExpr(_) => (true, false)
    case Literal(_) | Regex => (false, false)
    case Group(children) => SequenceStart(children)
    case Optional(children) => (SequenceStart(children).0, true)
    case Choice(branches) => BranchesStart(branches)
    case ParseTag | ParseMark | Empty => (false, true)
  }

  function BranchesStart(branches: seq<Branch>): (bool, bool)
    decreases branches
  {
    if branches == [] then (false, false)
    else
      var (typed, empty) := SequenceStart(branches[0].elements);
      var (laterTyped, laterEmpty) := BranchesStart(branches[1..]);
      (typed || laterTyped, empty || laterEmpty)
  }

  method FirstElementOf(elements: seq<Element>) returns (beginsWithType: bool, canBeEmpty: bool)
    ensures (beginsWithType, canBeEmpty) == SequenceStart(elements)
    decreases elements, 1
  {
    canBeEmpty := true;
    var i := 0;
    while i < |elements|
      invariant 0 <= i <= |elements| && canBeEmpty
      invariant SequenceStart(elements[i..]) == SequenceStart(elements)
    {
      assert elements[i..][0] == elements[i] && elements[i..][1..] == elements[i + 1..];
      var typed, empty := StartOfElement(elements[i]);
      if typed { return true, false; }
      if !empty { return false, false; }
      canBeEmpty := canBeEmpty && empty;
      i := i + 1;
    }
    beginsWithType := false;
  }

  method StartOfElement(element: Element) returns (beginsWithType: bool, canBeEmpty: bool)
    ensures (beginsWithType, canBeEmpty) == ElementStart(element)
    decreases element, 0
  {
    match element {
      case TypeExpr(_) => beginsWithType, canBeEmpty := true, false;
      case Literal(_) => beginsWithType, canBeEmpty := false, false;
      case Regex => beginsWithType, canBeEmpty := false, false;
      case Group(children) => beginsWithType, canBeEmpty := FirstElementOf(children);
      case Optional(children) =>
        beginsWithType, canBeEmpty := FirstElementOf(children);
        canBeEmpty := true;
      case Choice(branches) =>
        beginsWithType, canBeEmpty := false, false;
        var i := 0;
        while i < |branches|
          invariant 0 <= i <= |branches|
          invariant var (typed, empty) := BranchesStart(branches[i..]);
                    (beginsWithType || typed, canBeEmpty || empty) == BranchesStart(branches)
        {
          assert branches[i..][1..] == branches[i + 1..];
          var branchType, branchEmpty := FirstElementOf(branches[i].elements);
          beginsWithType, canBeEmpty := beginsWithType || branchType, canBeEmpty || branchEmpty;
          i := i + 1;
        }
      case ParseTag => beginsWithType, canBeEmpty := false, true;
      case ParseMark => beginsWithType, canBeEmpty := false, true;
      case Empty => beginsWithType, canBeEmpty := false, true;
    }
  }
}
