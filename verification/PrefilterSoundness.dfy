/** When the prefilter may be trusted: it never drops a pattern that could match,
    exactly on inputs without surrounding blanks and literals without double spaces. */
module PrefilterSoundness {
  import opened Text
  import opened Patterns
  import opened Prefilter
  import opened PrefilterMirror

  // ---------------------------------------------------------------- leading states

  /** Literal text in front of the first hole. */
  function Opening(parts: seq<Part>): string {
    if parts == [] || parts[0].Hole() then "" else parts[0].text + Opening(parts[1..])
  }

  predicate HoleFree(parts: seq<Part>) { forall k :: 0 <= k < |parts| ==> parts[k].Text? }

  /** A finished state is a prefix of the opening text; an unfinished one is all of it. */
  predicate Covers(state: PrefixState, parts: seq<Part>) {
    if state.terminal then state.text <= Opening(parts) else HoleFree(parts) && state.text == Opening(parts)
  }

  lemma {:induction false} OpeningConcat(p: seq<Part>, q: seq<Part>)
    ensures Opening(p) <= Opening(p + q)
    ensures HoleFree(p) ==> Opening(p + q) == Opening(p) + Opening(q)
    decreases |p|
  {
    if p == [] {
      assert p + q == q;
    } else if p[0].Text? {
      assert (p + q)[1..] == p[1..] + q;
      OpeningConcat(p[1..], q);
    }
  }

  lemma {:induction false} AppendedHas(parent: PrefixState, children: seq<PrefixState>, child: PrefixState)
    requires child in children
    ensures PrefixState(parent.text + child.text, child.terminal) in Appended(parent, children)
    decreases |children|
  {
    if child != children[0] { AppendedHas(parent, children[1..], child); }
  }

  lemma {:induction false} LeadBranchesHas(state: PrefixState, branches: seq<Branch>, i: nat, child: PrefixState)
    requires i < |branches| && child in Leading(branches[i].elements)
    ensures PrefixState(state.text + child.text, child.terminal) in LeadBranches(state, branches)
    decreases |branches|
  {
    if i == 0 {
      AppendedHas(state, Leading(branches[0].elements), child);
    } else {
      LeadBranchesHas(state, branches[1..], i - 1, child);
    }
  }

  lemma {:induction false} LeadAllHas(states: seq<PrefixState>, element: Element, state: PrefixState, next: PrefixState)
    requires state in states && next in LeadOne(state, element)
    ensures next in LeadAll(states, element)
    decreases |states|
  {
    if state != states[0] { LeadAllHas(states[1..], element, state, next); }
  }

  lemma CoversConcat(state: PrefixState, p: seq<Part>, child: PrefixState, q: seq<Part>)
    requires Covers(state, p)
    requires !state.terminal ==> Covers(child, q)
    ensures Covers(if state.terminal then state else PrefixState(state.text + child.text, child.terminal), p + q)
  {
    OpeningConcat(p, q);
    if !state.terminal && child.terminal {
      assert (state.text + child.text) <= Opening(p) + Opening(q);
    }
  }

  /** Every expansion of a pattern is covered by one of its leading states. */
  lemma {:induction false} LeadingCovers(elements: seq<Element>, p: seq<Part>) returns (state: PrefixState)
    requires p in Expansions(elements)
    ensures state in Leading(elements) && Covers(state, p)
    decreases elements, 2
  {
    state := LeadFromCovers([PrefixState("", false)], elements, PrefixState("", false), [], p);
    assert [] + p == p;
  }

  lemma {:induction false} LeadFromCovers(states: seq<PrefixState>, elements: seq<Element>,
                                          state: PrefixState, p: seq<Part>, q: seq<Part>) returns (r: PrefixState)
    requires state in states && Covers(state, p) && q in Expansions(elements)
    ensures r in LeadFrom(states, elements) && Covers(r, p + q)
    decreases elements, 1
  {
    if elements == [] {
      r := state;
      assert p + q == p;
    } else {
      var next := LeadAll(states, elements[0]);
      if |next| > STATE_LIMIT {
        r := PrefixState("", true);
      } else {
        var a, b := SplitExpansion(elements, q);
        var grown := LeadOneCovers(state, elements[0], p, a);
        LeadAllHas(states, elements[0], state, grown);
        r := LeadFromCovers(next, elements[1..], grown, p + a, b);
        PartsRegroup(p, a, b);
      }
    }
  }

  lemma PartsRegroup(a: seq<Part>, b: seq<Part>, c: seq<Part>)
    ensures a + b + c == a + (b + c)
  {}

  lemma {:induction false} LeadOneCovers(state: PrefixState, element: Element, p: seq<Part>, a: seq<Part>)
    returns (r: PrefixState)
    requires Covers(state, p) && a in ElementExpansions(element)
    ensures r in LeadOne(state, element) && Covers(r, p + a)
    decreases element, 0
  {
    if state.terminal {
      r := state;
      CoversConcat(state, p, state, a);
      return;
    }
    match element
    case Literal(text) =>
      assert a == [Part.Text(text)] && a[1..] == [] && Opening(a) == text + Opening(a[1..]);
      r := PrefixState(state.text + text, false);
      CoversConcat(state, p, PrefixState(text, false), a);
    case Regex =>
      r := PrefixState(state.text, true);
      OpeningConcat(p, a);
    case TypeExpr(_) =>
      r := PrefixState(state.text, true);
      OpeningConcat(p, a);
    case ParseTag | ParseMark | Empty =>
      r := state;
      assert p + a == p;
    case Group(children) =>
      var child := LeadingCovers(children, a);
      AppendedHas(state, Leading(children), child);
      r := PrefixState(state.text + child.text, child.terminal);
      CoversConcat(state, p, child, a);
    case Optional(children) =>
      if a == [] {
        r := state;
        assert p + a == p;
      } else {
        var child := LeadingCovers(children, a);
        AppendedHas(state, Leading(children), child);
        r := PrefixState(state.text + child.text, child.terminal);
        CoversConcat(state, p, child, a);
      }
    case Choice(branches) =>
      var i :| 0 <= i < |branches| && a in Expansions(branches[i].elements);
      var child := LeadingCovers(branches[i].elements, a);
      LeadBranchesHas(state, branches, i, child);
      r := PrefixState(state.text + child.text, child.terminal);
      CoversConcat(state, p, child, a);
  }

  /** The trailing counterpart: a state of the pattern whose mirror image covers the
      mirrored expansion. */
  lemma TrailingCovers(elements: seq<Element>, p: seq<Part>) returns (state: PrefixState)
    requires p in Expansions(elements)
    ensures state in Trailing(elements) && Covers(MirrorState(state), MirrorParts(p))
  {
    MirroredExpansion(elements, p);
    var mirrored := LeadingCovers(Mirror(elements), MirrorParts(p));
    TrailingIsMirroredLeading(elements);
    var k :| 0 <= k < |Leading(Mirror(elements))| && Leading(Mirror(elements))[k] == mirrored;
    state := MirrorState(mirrored);
    assert MirrorStates(Leading(Mirror(elements)))[k] == state;
    ReverseTwice(mirrored.text);
  }

  // ------------------------------------------------- required literals and length

  predicate HasCoreOf(u: Unicode, literal: string, parts: seq<Part>) {
    exists k :: 0 <= k < |parts| && IsCoreOf(u, literal, parts[k])
  }

  predicate IsCoreOf(u: Unicode, literal: string, part: Part) {
    part.Text? && Core(u, part.text) != [] && literal == u.LowerAll(Core(u, part.text))
  }

  /** A branch that asks for nothing but literals of this expansion. */
  predicate AsksOnly(u: Unicode, branch: seq<string>, parts: seq<Part>) {
    forall l :: l in branch ==> HasCoreOf(u, l, parts)
  }

  lemma AsksOnlyConcat(u: Unicode, a: seq<string>, p: seq<Part>, b: seq<string>, q: seq<Part>)
    requires AsksOnly(u, a, p) && AsksOnly(u, b, q)
    ensures AsksOnly(u, a + b, p + q)
  {
    forall l | l in a + b ensures HasCoreOf(u, l, p + q) {
      if l in a {
        var k :| 0 <= k < |p| && IsCoreOf(u, l, p[k]);
        assert (p + q)[k] == p[k];
      } else {
        var k :| 0 <= k < |q| && IsCoreOf(u, l, q[k]);
        assert (p + q)[|p| + k] == q[k];
      }
    }
  }

  lemma {:induction false} ExtendedHas(branch: seq<string>, added: seq<seq<string>>, b: seq<string>)
    requires b in added
    ensures branch + b in Extended(branch, added)
    decreases |added|
  {
    if b != added[0] { ExtendedHas(branch, added[1..], b); }
  }

  lemma {:induction false} CombinedHas(branches: seq<seq<string>>, added: seq<seq<string>>, a: seq<string>, b: seq<string>)
    requires a in branches && b in added
    ensures a + b in Combined(branches, added)
    decreases |branches|
  {
    if a == branches[0] { ExtendedHas(a, added, b); } else { CombinedHas(branches[1..], added, a, b); }
  }

  lemma {:induction false} RequiredBranchesHas(u: Unicode, branches: seq<Branch>, i: nat, b: seq<string>)
    requires i < |branches| && b in Required(u, branches[i].elements)
    ensures b in RequiredBranches(u, branches)
    decreases |branches|
  {
    if i > 0 { RequiredBranchesHas(u, branches[1..], i - 1, b); }
  }

  /** Every expansion is served by a required branch made only of its own literals. */
  lemma {:induction false} RequiredCovers(u: Unicode, elements: seq<Element>, p: seq<Part>) returns (branch: seq<string>)
    requires p in Expansions(elements)
    ensures branch in Required(u, elements) && AsksOnly(u, branch, p)
    decreases elements, 2
  {
    branch := RequiredFromCovers(u, [[]], elements, [], [], p);
    assert [] + p == p;
  }

  lemma {:induction false} RequiredFromCovers(u: Unicode, branches: seq<seq<string>>, elements: seq<Element>,
                                              branch: seq<string>, p: seq<Part>, q: seq<Part>) returns (r: seq<string>)
    requires branch in branches && AsksOnly(u, branch, p) && q in Expansions(elements)
    ensures r in RequiredFrom(u, branches, elements) && AsksOnly(u, r, p + q)
    decreases elements, 1
  {
    if elements == [] {
      r := branch;
      assert p + q == p;
    } else {
      var a, b :| a in ElementExpansions(elements[0]) && b in Expansions(elements[1..]) && q == a + b;
      var combined := Combined(branches, RequiredOne(u, elements[0]));
      if |combined| > STATE_LIMIT {
        r := [];
      } else {
        var added := RequiredOneCovers(u, elements[0], a);
        CombinedHas(branches, RequiredOne(u, elements[0]), branch, added);
        AsksOnlyConcat(u, branch, p, added, a);
        r := RequiredFromCovers(u, combined, elements[1..], branch + added, p + a, b);
        assert p + q == (p + a) + b;
      }
    }
  }

  lemma {:induction false} RequiredOneCovers(u: Unicode, element: Element, a: seq<Part>) returns (r: seq<string>)
    requires a in ElementExpansions(element)
    ensures r in RequiredOne(u, element) && AsksOnly(u, r, a)
    decreases element, 0
  {
    match element
    case Literal(text) =>
      if Core(u, text) == [] {
        r := [];
      } else {
        r := [u.LowerAll(Core(u, text))];
        assert IsCoreOf(u, r[0], a[0]);
      }
    case Group(children) => r := RequiredCovers(u, children, a);
    case Choice(branches) =>
      var i :| 0 <= i < |branches| && a in Expansions(branches[i].elements);
      r := RequiredCovers(u, branches[i].elements, a);
      RequiredBranchesHas(u, branches, i, r);
    case Regex | TypeExpr(_) | Optional(_) | ParseTag | ParseMark | Empty => r := [];
  }

  function SolidParts(parts: seq<Part>): nat {
    if parts == [] then 0 else (if parts[0].Text? then Solid(parts[0].text) else 0) + SolidParts(parts[1..])
  }

  lemma {:induction false} SolidPartsConcat(p: seq<Part>, q: seq<Part>)
    ensures SolidParts(p + q) == SolidParts(p) + SolidParts(q)
    decreases |p|
  {
    if p == [] {
      assert p + q == q;
    } else {
      assert (p + q)[1..] == p[1..] + q;
      SolidPartsConcat(p[1..], q);
    }
  }

  /** Every expansion has at least the minimum number of non-space characters. */
  lemma {:induction false} MinimumLengthCovers(elements: seq<Element>, p: seq<Part>)
    requires p in Expansions(elements)
    ensures MinimumLength(elements) <= SolidParts(p)
    decreases elements, 1
  {
    if elements != [] {
      var a, b :| a in ElementExpansions(elements[0]) && b in Expansions(elements[1..]) && p == a + b;
      MinimumOneCovers(elements[0], a);
      MinimumLengthCovers(elements[1..], b);
      SolidPartsConcat(a, b);
    }
  }

  lemma {:induction false} MinimumOneCovers(element: Element, a: seq<Part>)
    requires a in ElementExpansions(element)
    ensures MinimumOne(element) <= SolidParts(a)
    decreases element, 0
  {
    match element
    case Literal(text) => assert a == [Part.Text(text)] && SolidParts(a) == Solid(text) + SolidParts(a[1..]);
    case Group(children) => MinimumLengthCovers(children, a);
    case Choice(branches) =>
      var i :| 0 <= i < |branches| && a in Expansions(branches[i].elements);
      MinimumLengthCovers(branches[i].elements, a);
      MinimumBranchBelow(branches, i);
    case Regex | TypeExpr(_) | Optional(_) | ParseTag | ParseMark | Empty =>
  }

  lemma {:induction false} MinimumBranchBelow(branches: seq<Branch>, i: nat)
    requires i < |branches|
    ensures MinimumBranch(branches) <= MinimumLength(branches[i].elements)
    decreases |branches|
  {
    if i > 0 { MinimumBranchBelow(branches[1..], i - 1); }
  }

  // --------------------------------------------------------------- left recursion

  /** Every choice offers a branch. */
  predicate Inhabited(elements: seq<Element>)
    decreases elements, 1
  {
    forall k :: 0 <= k < |elements| ==> InhabitedElement(elements[k])
  }

  predicate InhabitedElement(element: Element)
    decreases element, 0
  {
    match element
    case Choice(branches) => branches != [] && forall i :: 0 <= i < |branches| ==> Inhabited(branches[i].elements)
    case Group(children) => Inhabited(children)
    case Optional(children) => Inhabited(children)
    case _ => true
  }

  predicate StartsTyped(parts: seq<Part>) { parts != [] && parts[0].TypeHole? }

  lemma {:induction false} SomeExpansion(elements: seq<Element>) returns (p: seq<Part>)
    requires Inhabited(elements)
    ensures p in Expansions(elements)
    decreases elements, 1
  {
    if elements == [] {
      p := [];
    } else {
      assert InhabitedElement(elements[0]);
      assert Inhabited(elements[1..]);
      var a := SomeElementExpansion(elements[0]);
      var b := SomeExpansion(elements[1..]);
      JoinExpansion(elements, a, b);
      p := a + b;
    }
  }

  lemma {:induction false} SomeElementExpansion(element: Element) returns (p: seq<Part>)
    requires InhabitedElement(element)
    ensures p in ElementExpansions(element)
    decreases element, 0
  {
    match element
    case Literal(text) => p := [Part.Text(text)];
    case Regex => p := [RegexHole];
    case TypeExpr(nullable) => p := [TypeHole(nullable)];
    case Group(children) => p := SomeExpansion(children);
    case Choice(branches) =>
      p := SomeExpansion(branches[0].elements);
    case Optional(_) | ParseTag | ParseMark | Empty => p := [];
  }

  lemma {:induction false} EmptyStart(elements: seq<Element>)
    ensures SequenceStart(elements).1 ==> [] in Expansions(elements)
    ensures [] in Expansions(elements) && !SequenceStart(elements).0 ==> SequenceStart(elements).1
    decreases elements, 1
  {
    if elements != [] {
      EmptyElementStart(elements[0]);
      EmptyStart(elements[1..]);
      if SequenceStart(elements).1 {
        var none: seq<Part> := [];
        JoinExpansion(elements, none, none);
        assert none + none == none;
      }
    }
  }

  lemma {:induction false} EmptyElementStart(element: Element)
    ensures ElementStart(element).1 ==> [] in ElementExpansions(element)
    ensures [] in ElementExpansions(element) && !ElementStart(element).0 ==> ElementStart(element).1
    decreases element, 0
  {
    match element
    case Group(children) => EmptyStart(children);
    case Choice(branches) =>
      EmptyBranchesStart(branches);
      if [] in ElementExpansions(element) {
        var i :| 0 <= i < |branches| && [] in Expansions(branches[i].elements);
        EmptyStart(branches[i].elements);
        BranchStartBelow(branches, i);
      }
    case _ =>
  }

  lemma {:induction false} EmptyBranchesStart(branches: seq<Branch>)
    ensures BranchesStart(branches).1 ==> exists i :: 0 <= i < |branches| && [] in Expansions(branches[i].elements)
    decreases branches
  {
    if branches != [] {
      EmptyStart(branches[0].elements);
      EmptyBranchesStart(branches[1..]);
      if BranchesStart(branches[1..]).1 {
        var i :| 0 <= i < |branches[1..]| && [] in Expansions(branches[1..][i].elements);
        assert branches[1..][i] == branches[i + 1];
      }
    }
  }

  lemma {:induction false} BranchStartBelow(branches: seq<Branch>, i: nat)
    requires i < |branches|
    ensures SequenceStart(branches[i].elements).0 ==> BranchesStart(branches).0
    ensures SequenceStart(branches[i].elements).1 ==> BranchesStart(branches).1
    decreases |branches|
  {
    if i > 0 { BranchStartBelow(branches[1..], i - 1); }
  }

  lemma {:induction false} TypedStartFound(elements: seq<Element>, p: seq<Part>)
    requires p in Expansions(elements) && StartsTyped(p)
    ensures SequenceStart(elements).0
    decreases elements, 1
  {
    var a, b :| a in ElementExpansions(elements[0]) && b in Expansions(elements[1..]) && p == a + b;
    if a == [] {
      EmptyElementStart(elements[0]);
      TypedStartFound(elements[1..], b);
    } else {
      TypedElementStartFound(elements[0], a);
    }
  }

  lemma {:induction false} TypedElementStartFound(element: Element, p: seq<Part>)
    requires p in ElementExpansions(element) && StartsTyped(p)
    ensures ElementStart(element).0
    decreases element, 0
  {
    match element
    case Group(children) => TypedStartFound(children, p);
    case Optional(children) => TypedStartFound(children, p);
    case Choice(branches) =>
      var i :| 0 <= i < |branches| && p in Expansions(branches[i].elements);
      TypedStartFound(branches[i].elements, p);
      BranchStartBelow(branches, i);
    case _ =>
  }

  lemma {:induction false} TypedStartExists(elements: seq<Element>) returns (p: seq<Part>)
    requires Inhabited(elements) && SequenceStart(elements).0
    ensures p in Expansions(elements) && StartsTyped(p)
    decreases elements, 1
  {
    assert InhabitedElement(elements[0]) && Inhabited(elements[1..]);
    var a, b;
    if ElementStart(elements[0]).0 {
      a := TypedElementStartExists(elements[0]);
      b := SomeExpansion(elements[1..]);
    } else {
      EmptyElementStart(elements[0]);
      a := [];
      b := TypedStartExists(elements[1..]);
    }
    JoinExpansion(elements, a, b);
    p := a + b;
  }

  lemma {:induction false} TypedElementStartExists(element: Element) returns (p: seq<Part>)
    requires InhabitedElement(element) && ElementStart(element).0
    ensures p in ElementExpansions(element) && StartsTyped(p)
    decreases element, 0
  {
    match element
    case TypeExpr(nullable) => p := [TypeHole(nullable)];
    case Group(children) => p := TypedStartExists(children);
    case Optional(children) => p := TypedStartExists(children);
    case Choice(branches) =>
      var i := TypedBranch(branches);
      p := TypedStartExists(branches[i].elements);
  }

  lemma {:induction false} TypedBranch(branches: seq<Branch>) returns (i: nat)
    requires BranchesStart(branches).0
    ensures i < |branches| && SequenceStart(branches[i].elements).0
    decreases |branches|
  {
    if SequenceStart(branches[0].elements).0 {
      i := 0;
    } else {
      var later := TypedBranch(branches[1..]);
      i := later + 1;
    }
  }

  /** A pattern is flagged left recursive exactly when it can begin with a typed capture. */
  lemma {:induction false} LeftRecursiveExactly(u: Unicode, elements: seq<Element>)
    requires Inhabited(elements)
    ensures PrefilterOf(u, elements).leftRecursive <==> exists p :: p in Expansions(elements) && StartsTyped(p)
  {
    if SequenceStart(elements).0 { var p := TypedStartExists(elements); }
    if exists p :: p in Expansions(elements) && StartsTyped(p) {
      var p :| p in Expansions(elements) && StartsTyped(p);
      TypedStartFound(elements, p);
    }
  }

  /** Without that the flag can promise a start that no expansion has. */
  lemma LeftRecursiveNeedsBranches(u: Unicode)
    ensures var elements := [TypeExpr(false), Choice([])];
            PrefilterOf(u, elements).leftRecursive && Expansions(elements) == {}
  {
    var elements := [TypeExpr(false), Choice([])];
    assert elements[1..] == [Choice([])];
    assert ElementExpansions(Choice([])) == {};
    assert Expansions([Choice([])]) == {};
  }
}
