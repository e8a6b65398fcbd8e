/** The trailing side of the prefilter is the leading side seen in a mirror. */
module PrefilterMirror {
  import opened Text
  import opened Patterns
  import opened Prefilter

  // ------------------------------------------------------------------- mirrors

  function Mirror(elements: seq<Element>): (r: seq<Element>)
    ensures |r| == |elements|
    decreases elements, 1
  {
    if elements == [] then [] else Mirror(elements[1..]) + [MirrorElement(elements[0])]
  }

  function MirrorElement(element: Element): Element
    decreases element, 0
  {
    match element
    case Literal(text) => Literal(Reverse(text))
    case Choice(branches) => Choice(MirrorBranches(branches))
    case Group(elements) => Group(Mirror(elements))
    case Optional(elements) => Optional(Mirror(elements))
    case Regex | TypeExpr(_) | ParseTag | ParseMark | Empty => element
  }

  function MirrorBranches(branches: seq<Branch>): (r: seq<Branch>)
    ensures |r| == |branches|
    ensures forall i :: 0 <= i < |branches| ==> r[i] == Branch(Mirror(branches[i].elements))
    decreases branches
  {
    if branches == [] then [] else [Branch(Mirror(branches[0].elements))] + MirrorBranches(branches[1..])
  }

  function MirrorPart(part: Part): Part {
    if part.Text? then Part.Text(Reverse(part.text)) else part
  }

  function MirrorParts(parts: seq<Part>): seq<Part> {
    if parts == [] then [] else MirrorParts(parts[1..]) + [MirrorPart(parts[0])]
  }

  function MirrorState(state: PrefixState): PrefixState {
    PrefixState(Reverse(state.text), state.terminal)
  }

  function MirrorStates(states: seq<PrefixState>): (r: seq<PrefixState>)
    ensures |r| == |states|
    ensures forall i :: 0 <= i < |states| ==> r[i] == MirrorState(states[i])
  {
    if states == [] then [] else [MirrorState(states[0])] + MirrorStates(states[1..])
  }

  lemma {:induction false} ReverseConcat<T>(a: seq<T>, b: seq<T>)
    ensures Reverse(a + b) == Reverse(b) + Reverse(a)
  {}

  lemma {:induction false} ReverseTwice<T>(s: seq<T>)
    ensures Reverse(Reverse(s)) == s
  {}

  lemma {:induction false} MirrorStatesConcat(a: seq<PrefixState>, b: seq<PrefixState>)
    ensures MirrorStates(a + b) == MirrorStates(a) + MirrorStates(b)
  {}

  lemma {:induction false} MirrorLast(elements: seq<Element>)
    requires elements != []
    ensures var last := |elements| - 1;
            Mirror(elements) == [MirrorElement(elements[last])] + Mirror(elements[..last])
    decreases |elements|
  {
    var last := |elements| - 1;
    if last == 0 {
      assert elements[..last] == [] && elements[1..] == [];
    } else {
      MirrorLast(elements[1..]);
      assert elements[1..][..last - 1] == elements[..last][1..];
    }
  }

  // ------------------------------------------------- trailing states = mirrored leading

  /** Element by element, the trailing states of a pattern are the leading states of its
      mirror image read backwards, the 256-state fallback included. */
  lemma {:induction false} TrailingIsMirroredLeading(elements: seq<Element>)
    ensures Trailing(elements) == MirrorStates(Leading(Mirror(elements)))
    decreases elements, 1
  {
    assert MirrorStates([PrefixState("", false)]) == [PrefixState("", false)];
    TrailFromMirrored([PrefixState("", false)], elements);
  }

  lemma {:induction false} TrailFromMirrored(states: seq<PrefixState>, elements: seq<Element>)
    ensures TrailFrom(MirrorStates(states), elements) == MirrorStates(LeadFrom(states, Mirror(elements)))
    decreases elements, 0, 2
  {
    if elements != [] {
      var last := |elements| - 1;
      MirrorLast(elements);
      TrailAllMirrored(states, elements[last]);
      var next := LeadAll(states, MirrorElement(elements[last]));
      assert Mirror(elements)[1..] == Mirror(elements[..last]);
      if |next| > STATE_LIMIT {
        assert MirrorStates([PrefixState("", true)]) == [PrefixState("", true)];
      } else {
        TrailFromMirrored(next, elements[..last]);
      }
    }
  }

  lemma {:induction false} TrailAllMirrored(states: seq<PrefixState>, element: Element)
    ensures TrailAll(MirrorStates(states), element) == MirrorStates(LeadAll(states, MirrorElement(element)))
    decreases element, 1, |states|
  {
    if states != [] {
      TrailOneMirrored(states[0], element);
      TrailAllMirrored(states[1..], element);
      assert MirrorStates(states)[1..] == MirrorStates(states[1..]);
      MirrorStatesConcat(LeadOne(states[0], MirrorElement(element)), LeadAll(states[1..], MirrorElement(element)));
    }
  }

  lemma {:induction false} TrailOneMirrored(state: PrefixState, element: Element)
    ensures TrailOne(MirrorState(state), element) == MirrorStates(LeadOne(state, MirrorElement(element)))
    decreases element, 0
  {
    if !state.terminal {
      match element
      case Literal(text) => ReverseConcat(state.text, Reverse(text)); ReverseTwice(text);
      case Group(children) =>
        TrailingIsMirroredLeading(children);
        PrependedMirrored(state, Leading(Mirror(children)));
      case Optional(children) =>
        TrailingIsMirroredLeading(children);
        PrependedMirrored(state, Leading(Mirror(children)));
        MirrorStatesConcat([state], Appended(state, Leading(Mirror(children))));
      case Choice(branches) => TrailBranchesMirrored(state, branches);
      case Regex | TypeExpr(_) | ParseTag | ParseMark | Empty =>
    }
  }

  lemma {:induction false} TrailBranchesMirrored(state: PrefixState, branches: seq<Branch>)
    ensures TrailBranches(MirrorState(state), branches) == MirrorStates(LeadBranches(state, MirrorBranches(branches)))
    decreases branches
  {
    if branches != [] {
      var children := branches[0].elements;
      TrailingIsMirroredLeading(children);
      PrependedMirrored(state, Leading(Mirror(children)));
      TrailBranchesMirrored(state, branches[1..]);
      assert MirrorBranches(branches)[1..] == MirrorBranches(branches[1..]);
      MirrorStatesConcat(Appended(state, Leading(Mirror(children))), LeadBranches(state, MirrorBranches(branches[1..])));
    }
  }

  lemma {:induction false} PrependedMirrored(state: PrefixState, children: seq<PrefixState>)
    ensures Prepended(MirrorState(state), MirrorStates(children)) == MirrorStates(Appended(state, children))
    decreases |children|
  {
    if children != [] {
      PrependedMirrored(state, children[1..]);
      ReverseConcat(state.text, children[0].text);
      assert MirrorStates(children)[1..] == MirrorStates(children[1..]);
    }
  }

  // ------------------------------------------------------------ mirrored expansions

  lemma {:induction false} MirrorPartsConcat(p: seq<Part>, q: seq<Part>)
    ensures MirrorParts(p + q) == MirrorParts(q) + MirrorParts(p)
    decreases |p|
  {
    if p == [] {
      assert p + q == q;
    } else {
      assert (p + q)[1..] == p[1..] + q;
      MirrorPartsConcat(p[1..], q);
    }
  }

  lemma {:induction false} ExpansionsConcatStep(a: seq<Element>, b: seq<Element>, first: seq<Part>, rest: seq<Part>, q: seq<Part>)
    requires a != [] && first in ElementExpansions(a[0]) && rest + q in Expansions(a[1..] + b)
    ensures (first + rest) + q in Expansions(a + b)
  {
    assert (a + b)[1..] == a[1..] + b;
    JoinExpansion(a + b, first, rest + q);
    assert (first + rest) + q == first + (rest + q);
  }

  lemma {:induction false} ExpansionsConcat(a: seq<Element>, b: seq<Element>, p: seq<Part>, q: seq<Part>)
    requires p in Expansions(a) && q in Expansions(b)
    ensures p + q in Expansions(a + b)
    decreases |a|
  {
    if a == [] {
      assert a + b == b && p + q == q;
    } else {
      var first, rest := SplitExpansion(a, p);
      ExpansionsConcat(a[1..], b, rest, q);
      ExpansionsConcatStep(a, b, first, rest, q);
    }
  }

  lemma {:induction false} SingleElementExpansion(element: Element, p: seq<Part>)
    requires p in ElementExpansions(element)
    ensures p in Expansions([element])
  {
    assert [element][1..] == [] && p == p + [];
    assert [] in Expansions([element][1..]);
  }

  /** The mirror image of an expansion is an expansion of the mirror image. */
  lemma {:induction false} MirroredExpansion(elements: seq<Element>, p: seq<Part>)
    requires p in Expansions(elements)
    ensures MirrorParts(p) in Expansions(Mirror(elements))
    decreases elements, 1
  {
    if elements != [] {
      var element, rest := elements[0], elements[1..];
      var a, b :| a in ElementExpansions(element) && b in Expansions(rest) && p == a + b;
      MirroredElementExpansion(element, a);
      MirroredExpansion(rest, b);
      SingleElementExpansion(MirrorElement(element), MirrorParts(a));
      ExpansionsConcat(Mirror(rest), [MirrorElement(element)], MirrorParts(b), MirrorParts(a));
      MirrorPartsConcat(a, b);
    }
  }

  lemma {:induction false} MirroredElementExpansion(element: Element, p: seq<Part>)
    requires p in ElementExpansions(element)
    ensures MirrorParts(p) in ElementExpansions(MirrorElement(element))
    decreases element, 0
  {
    match element
    case Literal(text) =>
      assert p == [Part.Text(text)] && p[1..] == [];
      assert MirrorParts(p) == [MirrorPart(p[0])];
    case Regex => assert p == [RegexHole] && p[1..] == [] && MirrorParts(p) == [RegexHole];
    case TypeExpr(nullable) => assert p == [TypeHole(nullable)] && p[1..] == [] && MirrorParts(p) == p;
    case ParseTag | ParseMark | Empty =>
    case Group(elements) => MirroredExpansion(elements, p);
    case Optional(elements) => if p in Expansions(elements) { MirroredExpansion(elements, p); }
    case Choice(branches) =>
      var i :| 0 <= i < |branches| && p in Expansions(branches[i].elements);
      MirroredExpansion(branches[i].elements, p);
      assert MirrorBranches(branches)[i].elements == Mirror(branches[i].elements);
  }
}
