/** The main results about the prefilter: on which inputs and for which literals it can
    be trusted never to drop a pattern that could match. */
module PrefilterExactness {
  import opened Text
  import opened Patterns
  import opened Prefilter
  import opened PrefilterMirror
  import opened PrefilterSoundness

  // ------------------------------------------------------------------ case folding

  lemma SpaceIsAlone(u: Unicode, c: char)
    requires u.Valid()
    ensures u.Same(' ', c) <==> c == ' '
    ensures u.Same(c, ' ') <==> c == ' '
  {
    assert Ascii(' ');
    if u.lower(c) == u.lower(' ') {
      assert u.lower(c)[0] == ' ';
      assert Ascii(c);
    }
  }

  /** A blank never equals a visible character, whatever their case. */
  lemma BlankIsNotVisible(u: Unicode, blank: char, visible: char)
    requires u.Valid() && Blank(blank) && !Blank(visible)
    ensures !u.Same(blank, visible) && !u.Same(visible, blank)
  {
    assert Ascii(blank);
    assert u.lower(blank) == [blank];
    assert !Blank(u.lower(visible)[0]);
  }

  lemma {:induction false} LowerAllConcat(u: Unicode, a: string, b: string)
    ensures u.LowerAll(a + b) == u.LowerAll(a) + u.LowerAll(b)
    decreases |a|
  {
    if a == [] {
      assert a + b == b;
    } else {
      assert (a + b)[1..] == a[1..] + b;
      LowerAllConcat(u, a[1..], b);
    }
  }

  lemma {:induction false} LowerAllSame(u: Unicode, a: string, b: string)
    requires |a| == |b| && forall k :: 0 <= k < |a| ==> u.Same(a[k], b[k])
    ensures u.LowerAll(a) == u.LowerAll(b)
    decreases |a|
  {
    if a != [] {
      assert u.Same(a[0], b[0]);
      LowerAllSame(u, a[1..], b[1..]);
    }
  }

  lemma {:induction false} LowerAllNoCapital(u: Unicode, s: string)
    requires u.Valid()
    ensures forall k :: 0 <= k < |u.LowerAll(s)| ==> !Capital(u.LowerAll(s)[k])
    decreases |s|
  {
    if s != [] { LowerAllNoCapital(u, s[1..]); }
  }

  lemma {:induction false} LowerAllAscii(u: Unicode, s: string)
    requires u.Valid() && AllAscii(s)
    ensures |u.LowerAll(s)| == |s| && forall k :: 0 <= k < |s| ==> u.LowerAll(s)[k] == AsciiLower(s[k])
    decreases |s|
  {
    if s != [] {
      assert Ascii(s[0]);
      assert AllAscii(s[1..]);
      LowerAllAscii(u, s[1..]);
    }
  }

  /** Two ASCII texts, the second without capitals: comparing without case is comparing
      with the lowercase input. */
  lemma {:induction false} AsciiWindow(u: Unicode, input: string, literal: string, i: nat)
    requires u.Valid() && AllAscii(input)
    requires forall k :: 0 <= k < |literal| ==> !Capital(literal[k])
    ensures EqualsAt(input, literal, i) <==> OccursAt(u.LowerAll(input), literal, i)
  {
    LowerAllAscii(u, input);
    if i + |literal| <= |input| {
      var window := u.LowerAll(input)[i..i + |literal|];
      assert forall k :: 0 <= k < |literal| ==> window[k] == AsciiLower(input[i + k]);
      assert forall k :: 0 <= k < |literal| ==> AsciiLower(literal[k]) == literal[k];
    }
  }

  lemma NotAscii(s: string, literal: string)
    requires AllAscii(s) && !AllAscii(literal)
    ensures !Contains(s, literal)
  {
    var k :| 0 <= k < |literal| && !Ascii(literal[k]);
    forall i: nat | i <= |s| ensures !OccursAt(s, literal, i) {
      if i + |literal| <= |s| { assert Ascii(s[i..i + |literal|][k]); }
    }
  }

  /** The ASCII shortcut of the containment test answers what looking for the literal in
      the fully lowercased input would answer. */
  lemma {:induction false} AsciiShortcut(u: Unicode, input: string, text: string)
    requires u.Valid()
    ensures var literal := u.LowerAll(text);
            var lowercase := if AllAscii(input) then input else u.LowerAll(input);
            ContainsIgnoreCase(input, lowercase, literal) <==> Contains(u.LowerAll(input), literal)
  {
    var literal, lowered := u.LowerAll(text), u.LowerAll(input);
    if literal == [] {
      assert OccursAt(lowered, literal, 0);
    } else if AllAscii(input) {
      LowerAllAscii(u, input);
      if AllAscii(literal) {
        LowerAllNoCapital(u, text);
        forall i: nat { AsciiWindow(u, input, literal, i); }
        if Contains(lowered, literal) {
          var i :| 0 <= i <= |lowered| && OccursAt(lowered, literal, i);
          assert EqualsAt(input, literal, i);
        }
        if ContainsIgnoreCase(input, input, literal) {
          var i :| 0 <= i <= |input| && EqualsAt(input, literal, i);
          assert OccursAt(lowered, literal, i);
        }
      } else {
        NotAscii(input, literal);
        NotAscii(lowered, literal);
      }
    }
  }

  // --------------------------------------------------------------- literal scanning

  /** `text` lies over `input[i..j]`: every space of it either consumes an input space or
      sits at an end of the input or beside an input space. Unlike the scan this says
      the same thing read from either side. */
  ghost predicate Aligned(u: Unicode, input: string, text: string, i: nat, j: nat)
    decreases |text|
  {
    if text == [] then i == j <= |input|
    else if text[0] == ' ' then
      || (i < |input| && input[i] == ' ' && Aligned(u, input, text[1..], i + 1, j))
      || (i <= |input| && SpaceMaySkip(input, i) && Aligned(u, input, text[1..], i, j))
    else i < |input| && u.Same(text[0], input[i]) && Aligned(u, input, text[1..], i + 1, j)
  }

  predicate SpaceMaySkip(input: string, i: nat)
    requires i <= |input|
  {
    i == 0 || i == |input| || input[i] == ' ' || input[i - 1] == ' '
  }

  lemma {:induction false} ScanAligns(u: Unicode, input: string, i: nat, text: string, j: nat)
    requires i <= |input| && MatchLiteral(u, input, Range(0, |input|), i, text) == Some(j)
    ensures Aligned(u, input, text, i, j)
    decreases |text|
  {
    if text != [] {
      if text[0] == ' ' {
        if i == 0 || i == |input| || input[i] != ' ' {
          ScanAligns(u, input, i, text[1..], j);
        } else {
          ScanAligns(u, input, i + 1, text[1..], j);
        }
      } else {
        ScanAligns(u, input, i + 1, text[1..], j);
      }
    }
  }

  lemma {:induction false} AlignedConcat(u: Unicode, input: string, a: string, b: string, i: nat, m: nat, j: nat)
    requires Aligned(u, input, a, i, m) && Aligned(u, input, b, m, j)
    ensures Aligned(u, input, a + b, i, j)
    decreases |a|
  {
    if a == [] {
      assert a + b == b;
    } else {
      assert (a + b)[1..] == a[1..] + b;
      if i < |input| && Aligned(u, input, a[1..], i + 1, m) { AlignedConcat(u, input, a[1..], b, i + 1, m, j); }
      if Aligned(u, input, a[1..], i, m) { AlignedConcat(u, input, a[1..], b, i, m, j); }
    }
  }

  lemma {:induction false} AlignedInRange(u: Unicode, input: string, text: string, i: nat, j: nat)
    requires Aligned(u, input, text, i, j)
    ensures i <= j <= |input|
    decreases |text|
  {
    if text != [] {
      if i < |input| && Aligned(u, input, text[1..], i + 1, j) { AlignedInRange(u, input, text[1..], i + 1, j); }
      else { AlignedInRange(u, input, text[1..], i, j); }
    }
  }

  lemma {:induction false} AlignedOne(u: Unicode, input: string, c: char, i: nat, j: nat)
    requires i <= j <= |input|
    requires if c == ' ' then (j == i + 1 && input[i] == ' ') || (i == j && SpaceMaySkip(input, i))
                         else j == i + 1 && u.Same(c, input[i])
    ensures Aligned(u, input, [c], i, j)
  {
    assert [c][1..] == [];
    assert Aligned(u, input, [c][1..], j, j);
  }

  lemma {:induction false} AlignedMirror(u: Unicode, input: string, text: string, i: nat, j: nat)
    requires Aligned(u, input, text, i, j)
    ensures i <= j <= |input|
    ensures Aligned(u, Reverse(input), Reverse(text), |input| - j, |input| - i)
    decreases |text|
  {
    AlignedInRange(u, input, text, i, j);
    var n, mirror := |input|, Reverse(input);
    if text != [] {
      var next: nat;
      if text[0] == ' ' && !(i < n && input[i] == ' ' && Aligned(u, input, text[1..], i + 1, j)) {
        next := i;
      } else {
        next := i + 1;
        assert mirror[n - next] == input[i];
      }
      AlignedMirror(u, input, text[1..], next, j);
      AlignedOne(u, mirror, text[0], n - next, n - i);
      AlignedConcat(u, mirror, Reverse(text[1..]), [text[0]], n - j, n - next, n - i);
    }
  }

  /** The greedy scan from the front accepts any aligned text: it runs ahead of the
      alignment over spaces only. */
  lemma {:induction false} GreedyScan(u: Unicode, input: string, text: string, i: nat, j: nat, cursor: nat)
    requires u.Valid() && input != [] && input[0] != ' '
    requires Aligned(u, input, text, i, j)
    requires i <= cursor <= |input| && forall k :: i <= k < cursor ==> input[k] == ' '
    ensures MatchLiteral(u, input, Range(0, |input|), cursor, text).Some?
    decreases |text|
  {
    if text != [] {
      var rest := text[1..];
      if text[0] == ' ' {
        if i < |input| && input[i] == ' ' && Aligned(u, input, rest, i + 1, j) {
          if cursor == i {
            GreedyScan(u, input, rest, i + 1, j, cursor + 1);
          } else if cursor < |input| && input[cursor] == ' ' {
            GreedyScan(u, input, rest, i + 1, j, cursor + 1);
          } else {
            GreedyScan(u, input, rest, i + 1, j, cursor);
          }
        } else {
          if 0 < cursor < |input| && input[cursor] == ' ' {
            GreedyScan(u, input, rest, i, j, cursor + 1);
          } else {
            GreedyScan(u, input, rest, i, j, cursor);
          }
        }
      } else {
        SpaceIsAlone(u, text[0]);
        assert cursor == i;
        GreedyScan(u, input, rest, i + 1, j, cursor + 1);
      }
    }
  }

  /** The text can be aligned with the start of the input, or with its end. */
  ghost predicate AlignedAtStart(u: Unicode, input: string, text: string) { exists j: nat :: Aligned(u, input, text, 0, j) }

  ghost predicate AlignedAtEnd(u: Unicode, input: string, text: string) { exists i: nat :: Aligned(u, input, text, i, |input|) }

  /** Where no blank opens the input, the forward scan accepts a prefix exactly if it can be
      aligned with the start. */
  lemma StartsExactly(u: Unicode, input: string, prefix: string)
    requires u.Valid() && input != [] && input[0] != ' '
    ensures Starts(u, input, prefix) <==> AlignedAtStart(u, input, prefix)
  {
    if Starts(u, input, prefix) {
      ScanAligns(u, input, 0, prefix, MatchLiteral(u, input, Range(0, |input|), 0, prefix).value);
    }
    if AlignedAtStart(u, input, prefix) {
      var j: nat :| Aligned(u, input, prefix, 0, j);
      GreedyScan(u, input, prefix, 0, j, 0);
    }
  }

  /** Where no blank ends the input, the backward scan accepts a suffix exactly if it can be
      aligned with the end. */
  lemma EndsExactly(u: Unicode, input: string, suffix: string)
    requires u.Valid() && input != [] && input[|input| - 1] != ' '
    ensures Ends(u, input, suffix) <==> AlignedAtEnd(u, input, suffix)
  {
    StartsExactly(u, Reverse(input), Reverse(suffix));
    MirroredEnds(u, input, suffix);
  }

  lemma {:induction false} MirroredEnds(u: Unicode, input: string, suffix: string)
    ensures AlignedAtStart(u, Reverse(input), Reverse(suffix)) <==> AlignedAtEnd(u, input, suffix)
  {
    if AlignedAtStart(u, Reverse(input), Reverse(suffix)) {
      EndFromStart(u, Reverse(input), Reverse(suffix));
      ReverseTwice(input);
      ReverseTwice(suffix);
    }
    if AlignedAtEnd(u, input, suffix) {
      var i: nat :| Aligned(u, input, suffix, i, |input|);
      AlignedMirror(u, input, suffix, i, |input|);
    }
  }

  lemma {:induction false} EndFromStart(u: Unicode, input: string, text: string)
    requires AlignedAtStart(u, input, text)
    ensures AlignedAtEnd(u, Reverse(input), Reverse(text))
  {
    var j: nat :| Aligned(u, input, text, 0, j);
    AlignedMirror(u, input, text, 0, j);
  }

  // ----------------------------------------------------- what a matching expansion shows

  lemma {:induction false} MatchStarts(u: Unicode, input: string, complete: Range, parts: seq<Part>, from: nat, to: nat)
    requires complete.Within(input) && complete.start <= from <= complete.end
    requires PartsReach(u, input, complete, parts, from, to)
    ensures MatchLiteral(u, input, complete, from, Opening(parts)).Some?
    decreases |parts|
  {
    if parts != [] && parts[0].Text? {
      var mid: nat :| from <= mid <= complete.end
        && PartReaches(u, input, complete, parts[0], from, mid)
        && PartsReach(u, input, complete, parts[1..], mid, to);
      MatchStarts(u, input, complete, parts[1..], mid, to);
      MatchLiteralConcat(u, input, complete, from, parts[0].text, Opening(parts[1..]));
    }
  }

  lemma {:induction false} OpeningStops(p: seq<Part>, q: seq<Part>)
    requires !HoleFree(p)
    ensures Opening(p + q) == Opening(p)
    decreases |p|
  {
    if p[0].Text? {
      assert (p + q)[1..] == p[1..] + q;
      OpeningStops(p[1..], q);
    }
  }

  lemma {:induction false} MirrorHoleFree(parts: seq<Part>)
    ensures HoleFree(MirrorParts(parts)) <==> HoleFree(parts)
    decreases |parts|
  {
    if parts != [] {
      var later, last := MirrorParts(parts[1..]), MirrorPart(parts[0]);
      MirrorHoleFree(parts[1..]);
      assert parts == [parts[0]] + parts[1..];
      assert HoleFree(later + [last]) <==> HoleFree(later) && last.Text? by {
        assert (later + [last])[|later|] == last;
        assert forall k :: 0 <= k < |later| ==> (later + [last])[k] == later[k];
      }
    }
  }

  /** The opening of the mirrored expansion, one part at a time. */
  lemma {:induction false} MirrorOpening(parts: seq<Part>)
    requires parts != []
    ensures Opening(MirrorParts(parts)) == Opening(MirrorParts(parts[1..]))
                                         + (if HoleFree(parts[1..]) && parts[0].Text? then Reverse(parts[0].text) else [])
  {
    var later, last := MirrorParts(parts[1..]), [MirrorPart(parts[0])];
    MirrorHoleFree(parts[1..]);
    assert last[1..] == [] && Opening(last[1..]) == [];
    if HoleFree(parts[1..]) { OpeningConcat(later, last); } else { OpeningStops(later, last); }
  }

  /** The text after the last hole lies over the end of the input. */
  lemma {:induction false} MatchEnds(u: Unicode, input: string, parts: seq<Part>, from: nat) returns (i: nat)
    requires from <= |input|
    requires PartsReach(u, input, Range(0, |input|), parts, from, |input|)
    ensures from <= i <= |input| && (HoleFree(parts) ==> i == from)
    ensures Aligned(u, Reverse(input), Opening(MirrorParts(parts)), 0, |input| - i)
    decreases |parts|
  {
    var n := |input|;
    if parts == [] {
      i := from;
    } else {
      var complete := Range(0, n);
      var mid: nat :| from <= mid <= n
        && PartReaches(u, input, complete, parts[0], from, mid)
        && PartsReach(u, input, complete, parts[1..], mid, n);
      i := MatchEnds(u, input, parts[1..], mid);
      i := MatchEndsStep(u, input, parts, from, mid, i);
    }
  }

  lemma MatchEndsStep(u: Unicode, input: string, parts: seq<Part>, from: nat, mid: nat, later: nat) returns (i: nat)
    requires from <= mid <= later <= |input| && parts != []
    requires PartReaches(u, input, Range(0, |input|), parts[0], from, mid)
    requires HoleFree(parts[1..]) ==> later == mid
    requires Aligned(u, Reverse(input), Opening(MirrorParts(parts[1..])), 0, |input| - later)
    ensures from <= i <= |input| && (HoleFree(parts) ==> i == from)
    ensures Aligned(u, Reverse(input), Opening(MirrorParts(parts)), 0, |input| - i)
  {
    var opening := Opening(MirrorParts(parts[1..]));
    MirrorOpening(parts);
    if HoleFree(parts[1..]) && parts[0].Text? {
      MatchEndsText(u, input, parts[0].text, opening, from, mid);
      i := from;
    } else {
      assert opening + [] == opening;
      i := later;
    }
  }

  lemma {:induction false} MatchEndsText(u: Unicode, input: string, text: string, opening: string, from: nat, mid: nat)
    requires from <= mid <= |input| && PartReaches(u, input, Range(0, |input|), Part.Text(text), from, mid)
    requires Aligned(u, Reverse(input), opening, 0, |input| - mid)
    ensures Aligned(u, Reverse(input), opening + Reverse(text), 0, |input| - from)
  {
    ScanAligns(u, input, from, text, mid);
    AlignedMirror(u, input, text, from, mid);
    AlignedConcat(u, Reverse(input), opening, Reverse(text), 0, |input| - mid, |input| - from);
  }

  lemma {:induction false} SolidAtMost(u: Unicode, input: string, complete: Range, cursor: nat, text: string)
    requires complete.Within(input) && complete.start <= cursor <= complete.end
    ensures var r := MatchLiteral(u, input, complete, cursor, text);
            r.Some? ==> Solid(text) <= r.value - cursor
    decreases |text|
  {
    if text != [] {
      SolidAtMost(u, input, complete, cursor, text[1..]);
      if cursor < complete.end { SolidAtMost(u, input, complete, cursor + 1, text[1..]); }
    }
  }

  lemma {:induction false} SolidPartsAtMost(u: Unicode, input: string, complete: Range, parts: seq<Part>, from: nat, to: nat)
    requires complete.Within(input) && complete.start <= from <= complete.end
    requires PartsReach(u, input, complete, parts, from, to)
    ensures from <= to && SolidParts(parts) <= to - from
    decreases |parts|
  {
    if parts != [] {
      var mid: nat :| from <= mid <= complete.end
        && PartReaches(u, input, complete, parts[0], from, mid)
        && PartsReach(u, input, complete, parts[1..], mid, to);
      if parts[0].Text? { SolidAtMost(u, input, complete, from, parts[0].text); }
      SolidPartsAtMost(u, input, complete, parts[1..], mid, to);
    }
  }

  lemma {:induction false} PartsReachAt(u: Unicode, input: string, complete: Range, parts: seq<Part>, from: nat, to: nat, k: nat)
    returns (a: nat, b: nat)
    requires complete.Within(input) && complete.start <= from <= complete.end
    requires PartsReach(u, input, complete, parts, from, to) && k < |parts|
    ensures from <= a <= complete.end && PartReaches(u, input, complete, parts[k], a, b)
    decreases |parts|
  {
    var mid: nat :| from <= mid <= complete.end
      && PartReaches(u, input, complete, parts[0], from, mid)
      && PartsReach(u, input, complete, parts[1..], mid, to);
    if k == 0 { a, b := from, mid; } else { a, b := PartsReachAt(u, input, complete, parts[1..], mid, to, k - 1); }
  }

  // ------------------------------------------------------------ literals and spaces

  /** No two adjacent spaces. */
  predicate SingleSpacedText(s: string) { forall k :: 0 <= k < |s| - 1 ==> !(s[k] == ' ' && s[k + 1] == ' ') }

  predicate AllSingleSpaced(branches: seq<seq<string>>) {
    forall i, k :: 0 <= i < |branches| && 0 <= k < |branches[i]| ==> SingleSpacedText(branches[i][k])
  }

  /** No literal that the prefilter requires has two adjacent spaces. */
  predicate SingleSpaced(u: Unicode, elements: seq<Element>) { AllSingleSpaced(Required(u, elements)) }

  /** No literal outside options has two adjacent spaces inside. */
  predicate SingleSpacedPattern(u: Unicode, elements: seq<Element>)
    decreases elements, 1
  {
    forall k :: 0 <= k < |elements| ==> SingleSpacedElement(u, elements[k])
  }

  predicate SingleSpacedElement(u: Unicode, element: Element)
    decreases element, 0
  {
    match element
    case Literal(text) => SingleSpacedText(Core(u, text))
    case Group(children) => SingleSpacedPattern(u, children)
    case Choice(branches) => forall i :: 0 <= i < |branches| ==> SingleSpacedPattern(u, branches[i].elements)
    case _ => true
  }

  /** What is inside an option is never required, so its spaces do not matter. */
  lemma {:induction false} PatternIsSingleSpaced(u: Unicode, elements: seq<Element>)
    requires u.Valid() && SingleSpacedPattern(u, elements)
    ensures SingleSpaced(u, elements)
    decreases elements, 2
  {
    FromIsSingleSpaced(u, [[]], elements);
  }

  lemma {:induction false} FromIsSingleSpaced(u: Unicode, branches: seq<seq<string>>, elements: seq<Element>)
    requires u.Valid() && SingleSpacedPattern(u, elements) && AllSingleSpaced(branches)
    ensures AllSingleSpaced(RequiredFrom(u, branches, elements))
    decreases elements, 1
  {
    if elements != [] {
      assert SingleSpacedElement(u, elements[0]);
      ElementIsSingleSpaced(u, elements[0]);
      CombinedIsSingleSpaced(branches, RequiredOne(u, elements[0]));
      FromIsSingleSpaced(u, Combined(branches, RequiredOne(u, elements[0])), elements[1..]);
    }
  }

  lemma {:induction false} ElementIsSingleSpaced(u: Unicode, element: Element)
    requires u.Valid() && SingleSpacedElement(u, element)
    ensures AllSingleSpaced(RequiredOne(u, element))
    decreases element, 0
  {
    match element
    case Literal(text) => LowerAllSpacing(u, Core(u, text));
    case Group(children) => PatternIsSingleSpaced(u, children);
    case Choice(branches) => BranchesAreSingleSpaced(u, branches);
    case _ =>
  }

  lemma {:induction false} BranchesAreSingleSpaced(u: Unicode, branches: seq<Branch>)
    requires u.Valid() && forall i :: 0 <= i < |branches| ==> SingleSpacedPattern(u, branches[i].elements)
    ensures AllSingleSpaced(RequiredBranches(u, branches))
    decreases branches
  {
    if branches != [] {
      PatternIsSingleSpaced(u, branches[0].elements);
      BranchesAreSingleSpaced(u, branches[1..]);
    }
  }

  lemma {:induction false} CombinedIsSingleSpaced(branches: seq<seq<string>>, added: seq<seq<string>>)
    requires AllSingleSpaced(branches) && AllSingleSpaced(added)
    ensures AllSingleSpaced(Combined(branches, added))
    decreases |branches|
  {
    if branches != [] {
      ExtendedIsSingleSpaced(branches[0], added);
      CombinedIsSingleSpaced(branches[1..], added);
    }
  }

  lemma {:induction false} ExtendedIsSingleSpaced(branch: seq<string>, added: seq<seq<string>>)
    requires AllSingleSpaced([branch]) && AllSingleSpaced(added)
    ensures AllSingleSpaced(Extended(branch, added))
    decreases |added|
  {
    if added != [] {
      assert [branch][0] == branch;
      ExtendedIsSingleSpaced(branch, added[1..]);
    }
  }

  lemma {:induction false} CoreSplits(u: Unicode, s: string) returns (before: string, after: string)
    ensures s == before + Core(u, s) + after
    decreases |s|
  {
    if s == [] {
      before, after := [], [];
    } else if u.white(s[0]) {
      before, after := CoreSplits(u, s[1..]);
      before := [s[0]] + before;
    } else if u.white(s[|s| - 1]) {
      before, after := CoreSplits(u, s[..|s| - 1]);
      after := after + [s[|s| - 1]];
      assert s == s[..|s| - 1] + [s[|s| - 1]];
    } else {
      before, after := [], [];
    }
  }

  /** A single-spaced text that ends in a solid character is matched character by
      character, once something in front of it has been. */
  lemma {:induction false} SolidScan(u: Unicode, input: string, complete: Range, cursor: nat, text: string, previous: char)
    requires u.Valid() && complete.Within(input) && complete.start < cursor <= complete.end
    requires u.Same(previous, input[cursor - 1]) && SingleSpacedText([previous] + text)
    requires text != [] ==> text[|text| - 1] != ' '
    requires MatchLiteral(u, input, complete, cursor, text).Some?
    ensures MatchLiteral(u, input, complete, cursor, text) == Some(cursor + |text|)
    ensures forall k :: 0 <= k < |text| ==> u.Same(text[k], input[cursor + k])
    decreases |text|
  {
    if text != [] {
      var rest := text[1..];
      SpaceIsAlone(u, previous);
      assert ([previous] + text)[0] == previous && ([previous] + text)[1] == text[0];
      if text[0] == ' ' {
        assert ([previous] + text)[2] == text[1] == rest[0];
        assert cursor < complete.end && input[cursor] == ' ';
      }
      TailSingleSpaced(previous, text);
      SolidScan(u, input, complete, cursor + 1, rest, text[0]);
      forall k | 0 <= k < |text| ensures u.Same(text[k], input[cursor + k]) {
        if k > 0 { assert text[k] == rest[k - 1] && u.Same(rest[k - 1], input[cursor + 1 + (k - 1)]); }
      }
    }
  }

  lemma TailSingleSpaced(previous: char, text: string)
    requires text != [] && SingleSpacedText([previous] + text)
    ensures SingleSpacedText(text) && [text[0]] + text[1..] == text
  {
    forall k | 0 <= k < |text| - 1 ensures !(text[k] == ' ' && text[k + 1] == ' ') {
      assert ([previous] + text)[k + 1] == text[k] && ([previous] + text)[k + 2] == text[k + 1];
    }
  }

  lemma {:induction false} LowerAllContains(u: Unicode, input: string, from: nat, text: string)
    requires from + |text| <= |input| && forall k :: 0 <= k < |text| ==> u.Same(text[k], input[from + k])
    ensures Contains(u.LowerAll(input), u.LowerAll(text))
  {
    var middle := input[from..from + |text|];
    LowerAllSame(u, text, middle);
    assert input == input[..from] + middle + input[from + |text|..];
    LowerAllConcat(u, input[..from] + middle, input[from + |text|..]);
    LowerAllConcat(u, input[..from], middle);
    assert OccursAt(u.LowerAll(input), u.LowerAll(text), |u.LowerAll(input[..from])|);
  }

  lemma {:induction false} CoreScan(u: Unicode, input: string, complete: Range, start: nat, core: string)
    requires u.Valid() && complete.Within(input) && complete.start <= start <= complete.end
    requires core != [] && core[0] != ' ' && core[|core| - 1] != ' ' && SingleSpacedText(core)
    requires MatchLiteral(u, input, complete, start, core).Some?
    ensures Contains(u.LowerAll(input), u.LowerAll(core))
  {
    assert [core[0]] + core[1..] == core;
    SolidScan(u, input, complete, start + 1, core[1..], core[0]);
    forall k | 0 <= k < |core| ensures u.Same(core[k], input[start + k]) {
      if k > 0 { assert core[k] == core[1..][k - 1] && u.Same(core[1..][k - 1], input[start + 1 + (k - 1)]); }
    }
    LowerAllContains(u, input, start, core);
  }

  /** Where a single-spaced literal matches, the input contains its core. */
  lemma {:induction false} SingleSpacedContained(u: Unicode, input: string, complete: Range, from: nat, text: string)
    requires u.Valid() && complete.Within(input) && complete.start <= from <= complete.end
    requires MatchLiteral(u, input, complete, from, text).Some?
    requires SingleSpacedText(Core(u, text))
    ensures Contains(u.LowerAll(input), u.LowerAll(Core(u, text)))
  {
    var core := Core(u, text);
    if core == [] {
      assert OccursAt(u.LowerAll(input), [], 0);
    } else {
      var before, after := CoreSplits(u, text);
      MatchLiteralConcat(u, input, complete, from, before + core, after);
      MatchLiteralConcat(u, input, complete, from, before, core);
      CoreScan(u, input, complete, MatchLiteral(u, input, complete, from, before).value, core);
    }
  }

  // ----------------------------------------------------------------- main results

  ghost function VisibleCore(input: string): Range { Trimmed(input, Range(0, |input|)) }

  /** Nothing to trim, or nothing left after trimming. */
  ghost predicate TrimmedOrBlank(input: string) {
    var core := VisibleCore(input);
    core == Range(0, |input|) || core.start == core.end
  }

  lemma {:induction false} RequiredAccepted(u: Unicode, elements: seq<Element>, p: seq<Part>, input: string, complete: Range, from: nat, to: nat)
    requires u.Valid() && complete.Within(input) && complete.start <= from <= complete.end
    requires p in Expansions(elements) && PartsReach(u, input, complete, p, from, to)
    requires SingleSpaced(u, elements)
    ensures var lowercase := if AllAscii(input) then input else u.LowerAll(input);
            exists i :: 0 <= i < |Required(u, elements)| && ContainsEvery(input, lowercase, Required(u, elements)[i])
  {
    var lowercase := if AllAscii(input) then input else u.LowerAll(input);
    var branch := RequiredCovers(u, elements, p);
    var at :| 0 <= at < |Required(u, elements)| && Required(u, elements)[at] == branch;
    forall k | 0 <= k < |branch| ensures ContainsIgnoreCase(input, lowercase, branch[k]) {
      assert branch[k] in branch && HasCoreOf(u, branch[k], p);
      var i :| 0 <= i < |p| && IsCoreOf(u, branch[k], p[i]);
      var a, b := PartsReachAt(u, input, complete, p, from, to, i);
      LowerAllSpacing(u, Core(u, p[i].text));
      SingleSpacedContained(u, input, complete, a, p[i].text);
      AsciiShortcut(u, input, Core(u, p[i].text));
    }
    assert ContainsEvery(input, lowercase, Required(u, elements)[at]);
  }

  lemma {:induction false} StatesAccepted(u: Unicode, elements: seq<Element>, p: seq<Part>, input: string)
    requires u.Valid() && input != [] && !Blank(input[|input| - 1])
    requires p in Expansions(elements) && PartsReach(u, input, Range(0, |input|), p, 0, |input|)
    ensures MayStart(u, Leading(elements), input) && MayEnd(u, Trailing(elements), input)
  {
    StartAccepted(u, elements, p, input);
    EndAccepted(u, elements, p, input);
  }

  lemma {:induction false} StartAccepted(u: Unicode, elements: seq<Element>, p: seq<Part>, input: string)
    requires p in Expansions(elements) && PartsReach(u, input, Range(0, |input|), p, 0, |input|)
    ensures MayStart(u, Leading(elements), input)
  {
    var first := LeadingCovers(elements, p);
    MatchStarts(u, input, Range(0, |input|), p, 0, |input|);
    PrefixStarts(u, input, Opening(p), first.text);
    var i :| 0 <= i < |Leading(elements)| && Leading(elements)[i] == first;
  }

  lemma {:induction false} EndAccepted(u: Unicode, elements: seq<Element>, p: seq<Part>, input: string)
    requires u.Valid() && input != [] && !Blank(input[|input| - 1])
    requires p in Expansions(elements) && PartsReach(u, input, Range(0, |input|), p, 0, |input|)
    ensures MayEnd(u, Trailing(elements), input)
  {
    var last := TrailingCovers(elements, p);
    var from := MatchEnds(u, input, p, 0);
    var mirror := Reverse(input);
    GreedyScan(u, mirror, Opening(MirrorParts(p)), 0, |input| - from, 0);
    PrefixStarts(u, mirror, Opening(MirrorParts(p)), Reverse(last.text));
    var j :| 0 <= j < |Trailing(elements)| && Trailing(elements)[j] == last;
  }

  lemma PrefixStarts(u: Unicode, input: string, text: string, prefix: string)
    requires Starts(u, input, text) && prefix <= text
    ensures Starts(u, input, prefix)
  {
    assert text == prefix + text[|prefix|..];
    MatchLiteralConcat(u, input, Range(0, |input|), 0, prefix, text[|prefix|..]);
  }

  /** On text that needs no trimming the prefilter lets every matching pattern through whose
      required literals are single-spaced. */
  lemma TrimmedInputAccepted(u: Unicode, elements: seq<Element>, input: string)
    requires u.Valid() && SingleSpaced(u, elements)
    requires input != [] && VisibleCore(input) == Range(0, |input|)
    requires Matches(u, elements, input)
    ensures Accepts(u, PrefilterOf(u, elements), input)
  {
    var complete := Range(0, |input|);
    var p := WalkIsExpansion(u, input, complete, elements, 0, |input|);
    StatesAccepted(u, elements, p, input);
    RequiredAccepted(u, elements, p, input, complete, 0, |input|);
    MinimumLengthCovers(elements, p);
    SolidPartsAtMost(u, input, complete, p, 0, |input|);
  }

  lemma {:induction false} EmptyScan(u: Unicode, input: string, at: nat, text: string)
    requires at <= |input| && MatchLiteral(u, input, Range(at, at), at, text).Some?
    ensures AllSpaces(text) && Solid(text) == 0
    decreases |text|
  {
    if text != [] {
      EmptyScan(u, input, at, text[1..]);
      assert forall k :: 1 <= k < |text| ==> text[k] == text[1..][k - 1];
    }
  }

  lemma {:induction false} BlankLiteralIsEmpty(u: Unicode, text: string)
    requires u.Valid() && AllSpaces(text)
    ensures Core(u, text) == []
    decreases |text|
  {
    if text != [] { BlankLiteralIsEmpty(u, text[1..]); }
  }

  lemma {:induction false} EmptyParts(u: Unicode, input: string, at: nat, parts: seq<Part>)
    requires u.Valid() && at <= |input| && PartsReach(u, input, Range(at, at), parts, at, at)
    ensures forall k :: 0 <= k < |parts| && parts[k].Text? ==> AllSpaces(parts[k].text)
    ensures AllSpaces(Opening(parts)) && SolidParts(parts) == 0
    decreases |parts|
  {
    if parts != [] {
      if parts[0].Text? { EmptyScan(u, input, at, parts[0].text); }
      EmptyParts(u, input, at, parts[1..]);
      assert forall k :: 1 <= k < |parts| ==> parts[k] == parts[1..][k - 1];
    }
  }

  lemma {:induction false} MirrorBlankOpening(parts: seq<Part>)
    requires forall k :: 0 <= k < |parts| && parts[k].Text? ==> AllSpaces(parts[k].text)
    ensures AllSpaces(Opening(MirrorParts(parts)))
    decreases |parts|
  {
    if parts != [] {
      MirrorBlankOpening(parts[1..]);
      MirrorOpening(parts);
    }
  }

  /** So it does on blank text, whatever the literals. */
  lemma BlankInputAccepted(u: Unicode, elements: seq<Element>, input: string)
    requires u.Valid()
    requires VisibleCore(input).start == VisibleCore(input).end
    requires Matches(u, elements, input)
    ensures Accepts(u, PrefilterOf(u, elements), input)
  {
    var complete := VisibleCore(input);
    var p := WalkIsExpansion(u, input, complete, elements, complete.start, complete.end);
    EmptyParts(u, input, complete.start, p);
    MinimumLengthCovers(elements, p);

    var first := LeadingCovers(elements, p);
    var i :| 0 <= i < |Leading(elements)| && Leading(elements)[i] == first;
    assert AllSpaces(first.text);

    var last := TrailingCovers(elements, p);
    MirrorBlankOpening(p);
    var j :| 0 <= j < |Trailing(elements)| && Trailing(elements)[j] == last;
    assert AllSpaces(last.text) by {
      assert AllSpaces(Reverse(last.text));
      assert forall k :: 0 <= k < |last.text| ==> last.text[k] == Reverse(last.text)[|last.text| - 1 - k];
    }

    var branch := RequiredCovers(u, elements, p);
    if branch != [] {
      assert branch[0] in branch && HasCoreOf(u, branch[0], p);
      var k :| 0 <= k < |p| && IsCoreOf(u, branch[0], p[k]);
      BlankLiteralIsEmpty(u, p[k].text);
      assert false;
    }
    var k :| 0 <= k < |Required(u, elements)| && Required(u, elements)[k] == branch;
    assert ContainsEvery(input, if AllAscii(input) then input else u.LowerAll(input), Required(u, elements)[k]);
  }

  lemma {:induction false} SingleCharacterScan(u: Unicode, input: string, complete: Range, at: nat)
    requires complete.Within(input) && complete.start <= at < complete.end && input[at] != ' '
    ensures MatchLiteral(u, input, complete, at, [input[at]]) == Some(at + 1)
  {
    assert [input[at]][1..] == [];
    assert MatchLiteral(u, input, complete, at + 1, [input[at]][1..]) == Some(at + 1);
  }

  /** `c` followed, if anything is left, by a regex capture. */
  function OpenedBy(c: char): seq<Element> { [Literal([c]), Optional([Regex])] }

  /** `c` after a regex capture, if anything is in front. */
  function ClosedBy(c: char): seq<Element> { [Optional([Regex]), Literal([c])] }

  lemma {:induction false} GapReaches(u: Unicode, input: string, complete: Range, from: nat, to: nat)
    requires complete.Within(input) && complete.start <= from <= to <= complete.end
    ensures ElementReaches(u, input, complete, Optional([Regex]), from, to)
  {
    assert [Regex][1..] == [] && Reaches(u, input, complete, [Regex][1..], to, to);
    if from < to { assert ElementReaches(u, input, complete, [Regex][0], from, to); }
  }

  lemma {:induction false} TwoReach(u: Unicode, input: string, complete: Range, elements: seq<Element>, from: nat, mid: nat, to: nat)
    requires complete.Within(input) && complete.start <= from <= mid <= to <= complete.end && |elements| == 2
    requires ElementReaches(u, input, complete, elements[0], from, mid)
    requires ElementReaches(u, input, complete, elements[1], mid, to)
    ensures Reaches(u, input, complete, elements, from, to)
  {
    var rest := elements[1..];
    assert rest[0] == elements[1] && rest[1..] == [];
    assert Reaches(u, input, complete, rest[1..], to, to);
    assert Reaches(u, input, complete, rest, mid, to);
  }

  lemma ShortIsSingleSpaced(u: Unicode, c: char)
    requires u.Valid()
    ensures SingleSpaced(u, OpenedBy(c)) && SingleSpaced(u, ClosedBy(c))
  {
    assert SingleSpacedElement(u, Optional([Regex])) && SingleSpacedElement(u, Literal([c]));
    PatternIsSingleSpaced(u, OpenedBy(c));
    PatternIsSingleSpaced(u, ClosedBy(c));
  }

  lemma GapStates()
    ensures Leading([Regex]) == [PrefixState("", true)] && Trailing([Regex]) == [PrefixState("", true)]
  {
    assert [Regex][1..] == [] && [Regex][..0] == [];
  }

  lemma OpenedByLeading(c: char)
    ensures Leading(OpenedBy(c)) == [PrefixState([c], false), PrefixState([c], true)]
  {
    var elements, first := OpenedBy(c), PrefixState([c], false);
    GapStates();
    assert "" + [c] == [c] && [c] + "" == [c];
    assert LeadOne(PrefixState("", false), elements[0]) == [first];
    assert LeadAll([PrefixState("", false)], elements[0]) == [first];
    assert Appended(first, [PrefixState("", true)]) == [PrefixState([c], true)];
    assert LeadAll([first], elements[1]) == [first, PrefixState([c], true)];
    assert elements[1..] == [elements[1]] && elements[1..][1..] == [];
    assert LeadFrom([first], elements[1..]) == [first, PrefixState([c], true)];
  }

  lemma ClosedByTrailing(c: char)
    ensures Trailing(ClosedBy(c)) == [PrefixState([c], false), PrefixState([c], true)]
  {
    var elements, closed := ClosedBy(c), PrefixState([c], false);
    GapStates();
    assert "" + [c] == [c] && [c] + "" == [c];
    assert TrailOne(PrefixState("", false), elements[1]) == [closed];
    assert TrailAll([PrefixState("", false)], elements[1]) == [closed];
    assert Prepended(closed, [PrefixState("", true)]) == [PrefixState([c], true)];
    assert TrailAll([closed], elements[0]) == [closed, PrefixState([c], true)];
    assert elements[..1] == [elements[0]] && elements[..1][..0] == [];
    assert TrailFrom([closed], elements[..1]) == [closed, PrefixState([c], true)];
  }

  /** Leading blanks: the literal that opens the visible text is not found in front. */
  lemma LeadingBlankDrops(u: Unicode, input: string)
    requires u.Valid() && 0 < VisibleCore(input).start < VisibleCore(input).end
    ensures var elements := OpenedBy(input[VisibleCore(input).start]);
            Matches(u, elements, input) && !Accepts(u, PrefilterOf(u, elements), input)
  {
    var core := VisibleCore(input);
    var c := input[core.start];
    SingleCharacterScan(u, input, core, core.start);
    GapReaches(u, input, core, core.start + 1, core.end);
    TwoReach(u, input, core, OpenedBy(c), core.start, core.start + 1, core.end);
    OpenedByLeading(c);
    BlankIsNotVisible(u, input[0], c);
    assert !Starts(u, input, [c]);
  }

  /** Trailing blanks: the mirror image of the same. */
  lemma TrailingBlankDrops(u: Unicode, input: string)
    requires u.Valid() && VisibleCore(input).start < VisibleCore(input).end < |input|
    ensures var elements := ClosedBy(input[VisibleCore(input).end - 1]);
            Matches(u, elements, input) && !Accepts(u, PrefilterOf(u, elements), input)
  {
    TrailingBlankMatches(u, input);
    var c := input[VisibleCore(input).end - 1];
    ClosedByTrailing(c);
    BlankIsNotVisible(u, input[|input| - 1], c);
    assert Reverse([c]) == [c];
    assert !Ends(u, input, [c]);
  }

  lemma TrailingBlankMatches(u: Unicode, input: string)
    requires VisibleCore(input).start < VisibleCore(input).end
    ensures Matches(u, ClosedBy(input[VisibleCore(input).end - 1]), input)
  {
    var core := VisibleCore(input);
    SingleCharacterScan(u, input, core, core.end - 1);
    GapReaches(u, input, core, core.start, core.end - 1);
    TwoReach(u, input, core, ClosedBy(input[core.end - 1]), core.start, core.end - 1, core.end);
  }

  /** The prefilter drops no pattern whose required literals are single-spaced and that could
      match, exactly on inputs that need no trimming (or are blank altogether). */
  lemma PrefilterTrustedExactly(u: Unicode, input: string)
    requires u.Valid()
    ensures (forall elements :: SingleSpaced(u, elements) && Matches(u, elements, input)
                                ==> Accepts(u, PrefilterOf(u, elements), input))
       <==> TrimmedOrBlank(input)
  {
    var core := VisibleCore(input);
    if TrimmedOrBlank(input) {
      forall elements | SingleSpaced(u, elements) && Matches(u, elements, input)
        ensures Accepts(u, PrefilterOf(u, elements), input)
      {
        if core.start == core.end { BlankInputAccepted(u, elements, input); }
        else { TrimmedInputAccepted(u, elements, input); }
      }
    } else {
      if core.start > 0 {
        LeadingBlankDrops(u, input);
        ShortIsSingleSpaced(u, input[core.start]);
      } else {
        TrailingBlankDrops(u, input);
        ShortIsSingleSpaced(u, input[core.end - 1]);
      }
    }
  }

  // ------------------------------------------------------- literals with double spaces

  /** Every run of spaces cut down to one, or to none right after a space. */
  function Squeezed(s: string, afterSpace: bool): string {
    if s == [] then []
    else if s[0] == ' ' then (if afterSpace then [] else [' ']) + Squeezed(s[1..], true)
    else [s[0]] + Squeezed(s[1..], false)
  }

  lemma {:induction false} SqueezedShape(s: string, afterSpace: bool)
    ensures var r := Squeezed(s, afterSpace); SingleSpacedText(r) && (afterSpace && r != [] ==> r[0] != ' ')
    decreases |s|
  {
    if s != [] {
      var rest := Squeezed(s[1..], s[0] == ' ');
      SqueezedShape(s[1..], s[0] == ' ');
      assert Squeezed(s, afterSpace) == rest || Squeezed(s, afterSpace) == [s[0]] + rest;
      forall k | 0 <= k < |rest| ensures ([s[0]] + rest)[k + 1] == rest[k] {}
    }
  }

  /** A literal matches its own squeezed form inside a text: the spaces left over are
      beside one that was consumed. */
  lemma {:induction false} SqueezedScan(u: Unicode, input: string, at: nat, text: string, afterSpace: bool)
    requires 0 < at && at + |Squeezed(text, afterSpace)| < |input|
    requires input[at..at + |Squeezed(text, afterSpace)|] == Squeezed(text, afterSpace)
    requires input[at + |Squeezed(text, afterSpace)|] != ' '
    requires afterSpace ==> input[at - 1] == ' '
    ensures MatchLiteral(u, input, Range(0, |input|), at, text).Some?
    decreases |text|
  {
    if text != [] {
      var squeezed, space := Squeezed(text, afterSpace), text[0] == ' ';
      var rest := Squeezed(text[1..], space);
      SqueezedShape(text, afterSpace);
      if space && afterSpace {
        assert squeezed == rest;
        assert input[at] != ' ' by { if squeezed != [] { assert input[at] == squeezed[0]; } }
        SqueezedScan(u, input, at, text[1..], true);
      } else {
        assert squeezed == [text[0]] + rest;
        assert input[at] == squeezed[0] == text[0];
        assert input[at + 1..at + 1 + |rest|] == squeezed[1..] == rest;
        SqueezedScan(u, input, at + 1, text[1..], space);
      }
    }
  }

  lemma {:induction false} LowerAllVisible(u: Unicode, c: char)
    requires u.Valid()
    ensures c == ' ' ==> u.lower(c) == " "
    ensures c != ' ' ==> ' ' !in u.lower(c)
  {
    assert Ascii(' ');
    if ' ' in u.lower(c) {
      var k :| 0 <= k < |u.lower(c)| && u.lower(c)[k] == ' ';
      assert Blank(c) && Ascii(c);
    }
  }

  /** Lowercasing neither makes nor removes a double space. */
  lemma {:induction false} LowerAllSpacing(u: Unicode, s: string)
    requires u.Valid()
    ensures SingleSpacedText(u.LowerAll(s)) <==> SingleSpacedText(s)
    ensures s != [] ==> u.LowerAll(s) != [] && (u.LowerAll(s)[0] == ' ' <==> s[0] == ' ')
    decreases |s|
  {
    if s != [] {
      var first, rest, lowered := u.lower(s[0]), s[1..], u.LowerAll(s[1..]);
      LowerAllSpacing(u, rest);
      LowerAllVisible(u, s[0]);
      assert s == [s[0]] + rest;
      SpacingConcat([s[0]], rest);
      SpacingConcat(first, lowered);
      assert SingleSpacedText(first) && SingleSpacedText([s[0]]);
      assert first[|first| - 1] == ' ' <==> s[0] == ' ';
    }
  }

  lemma SpacingConcat(a: string, b: string)
    requires a != []
    ensures SingleSpacedText(a + b) <==>
      SingleSpacedText(a) && SingleSpacedText(b) && !(b != [] && a[|a| - 1] == ' ' && b[0] == ' ')
  {
    var whole := a + b;
    if SingleSpacedText(whole) {
      assert forall k :: 0 <= k < |a| ==> whole[k] == a[k];
      forall k | 0 <= k < |b| - 1 ensures !(b[k] == ' ' && b[k + 1] == ' ') {
        assert whole[|a| + k] == b[k] && whole[|a| + k + 1] == b[k + 1];
      }
      if b != [] { assert whole[|a| - 1] == a[|a| - 1] && whole[|a| - 1 + 1] == b[0]; }
    }
  }

  lemma ContainedIsSingleSpaced(s: string, part: string)
    requires Contains(s, part) && SingleSpacedText(s)
    ensures SingleSpacedText(part)
  {
    var i :| 0 <= i <= |s| && OccursAt(s, part, i);
    forall k | 0 <= k < |part| - 1 ensures !(part[k] == ' ' && part[k + 1] == ' ') {
      assert part[k] == s[i + k] && part[k + 1] == s[i + k + 1];
    }
  }

  /** A trimmed text that a literal matches although the required-literal test misses it. */
  function SqueezedInput(text: string): string { "x" + Squeezed(text, false) + "x" }

  lemma {:induction false} SqueezedInputMatches(u: Unicode, text: string)
    ensures var input := SqueezedInput(text);
            VisibleCore(input) == Range(0, |input|) && SingleSpacedText(input)
            && MatchLiteral(u, input, Range(0, |input|), 1, text).Some?
  {
    var squeezed, input := Squeezed(text, false), SqueezedInput(text);
    TrimmedUnique(input, Range(0, |input|), Range(0, |input|));
    SqueezedShape(text, false);
    SpacingConcat("x", squeezed);
    SpacingConcat("x" + squeezed, "x");
    assert input[1..1 + |squeezed|] == squeezed;
    SqueezedScan(u, input, 1, text, false);
  }

  /** Wherever a literal matches a trimmed text the required-literal test finds it,
      exactly when its core has no two adjacent spaces. */
  lemma {:induction false} RequiredLiteralTrustedExactly(u: Unicode, text: string)
    requires u.Valid()
    ensures (forall input: string, at: nat ::
               (VisibleCore(input) == Range(0, |input|) && at <= |input|
                && MatchLiteral(u, input, Range(0, |input|), at, text).Some?)
               ==> Contains(u.LowerAll(input), u.LowerAll(Core(u, text))))
       <==> SingleSpacedText(Core(u, text))
  {
    var core := Core(u, text);
    if SingleSpacedText(core) {
      forall input: string, at: nat | VisibleCore(input) == Range(0, |input|) && at <= |input|
                                      && MatchLiteral(u, input, Range(0, |input|), at, text).Some?
        ensures Contains(u.LowerAll(input), u.LowerAll(core))
      {
        SingleSpacedContained(u, input, Range(0, |input|), at, text);
      }
    } else {
      var input := SqueezedInput(text);
      SqueezedInputMatches(u, text);
      LowerAllSpacing(u, input);
      LowerAllSpacing(u, core);
      if Contains(u.LowerAll(input), u.LowerAll(core)) { ContainedIsSingleSpaced(u.LowerAll(input), u.LowerAll(core)); }
      assert !Contains(u.LowerAll(input), u.LowerAll(core));
    }
  }

  /** A whole pattern dropped that way: a double space in the pattern, one in the input. */
  lemma DoubleSpacePatternDropped(u: Unicode)
    requires u.Valid() && !u.white('a') && !u.white('b')
    ensures Matches(u, [Literal("a  b")], "a b")
    ensures !Accepts(u, PrefilterOf(u, [Literal("a  b")]), "a b")
  {
    var text, input, elements := "a  b", "a b", [Literal("a  b")];
    DoubleSpaceMatches(u);
    LoneLiteralRequired(u, text);
    LowerAllSpacing(u, input);
    LowerAllSpacing(u, text);
    assert text[1] == ' ' && text[2] == ' ';
    var literal := u.LowerAll(text);
    if Contains(u.LowerAll(input), literal) { ContainedIsSingleSpaced(u.LowerAll(input), literal); }
    AsciiShortcut(u, input, text);
    assert [literal][0] == literal;
  }

  lemma DoubleSpaceMatches(u: Unicode)
    ensures Matches(u, [Literal("a  b")], "a b")
  {
    var text, input, elements := "a  b", "a b", [Literal("a  b")];
    var complete := Range(0, 3);
    TrimmedUnique(input, complete, complete);
    assert text[1..] == "  b" && text[1..][1..] == " b" && " b"[1..] == "b" && "b"[1..] == "";
    assert MatchLiteral(u, input, complete, 2, "b") == Some(3) by {
      assert MatchLiteral(u, input, complete, 3, "") == Some(3);
    }
    assert MatchLiteral(u, input, complete, 1, "  b") == MatchLiteral(u, input, complete, 2, " b") == Some(3);
    assert MatchLiteral(u, input, complete, 0, text) == Some(3);
    assert elements[1..] == [] && Reaches(u, input, complete, elements[1..], 3, 3);
    assert ElementReaches(u, input, complete, elements[0], 0, 3);
  }

  lemma {:induction false} LoneLiteralRequired(u: Unicode, text: string)
    requires Core(u, text) == text != []
    ensures Required(u, [Literal(text)]) == [[u.LowerAll(text)]]
  {
    var literal, elements := u.LowerAll(text), [Literal(text)];
    assert RequiredOne(u, elements[0]) == [[literal]];
    var none: seq<string> := [];
    assert Extended(none, [[literal]]) == [[literal]] by { assert none + [literal] == [literal]; }
    assert Combined([none], [[literal]]) == [[literal]];
    assert elements[1..] == [];
    assert RequiredFrom(u, [[literal]], elements[1..]) == [[literal]];
    assert RequiredFrom(u, [none], elements) == [[literal]];
  }
}
