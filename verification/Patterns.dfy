/** Syntax pattern trees, their expansions into literals and holes, and the core of
    the pattern matcher: literal scanning and the element-by-element walk. */
module Patterns {
  import opened Text

  /** The parts of Unicode that matching consults. `lower` is the per-character
      lowercase mapping, `white` is the class that `str::trim` removes. */
  datatype Unicode = Unicode(lower: char -> string, white: char -> bool) {
    /** What every case table satisfies: lowercasing is never empty, is the usual one on
        ASCII, leaves no ASCII capital behind and introduces no blank. */
    ghost predicate Valid() {
      && white(' ')
      && (forall c :: lower(c) != [])
      && (forall c :: Ascii(c) ==> lower(c) == [AsciiLower(c)])
      && (forall c, k :: 0 <= k < |lower(c)| ==> !Capital(lower(c)[k]))
      && (forall c, k :: 0 <= k < |lower(c)| && Blank(lower(c)[k]) ==> Blank(c))
    }

    predicate Same(left: char, right: char) {
      left == right || lower(left) == lower(right)
    }

    function LowerAll(s: string): string {
      if s == [] then [] else lower(s[0]) + LowerAll(s[1..])
    }
  }

  predicate Ascii(c: char) { c < 128 as char }

  /** One branch of a choice; a record because it is itself a sequence of elements. */
  datatype Branch = Branch(elements: seq<Element>)

  datatype Element =
    | Literal(text: string)
    | Choice(branches: seq<Branch>)
    | Group(elements: seq<Element>)
    | Optional(elements: seq<Element>)
    | Regex
    | TypeExpr(nullable: bool)
    | ParseTag
    | ParseMark
    | Empty

  /** What is left of a pattern once every choice and option has been decided. */
  datatype Part = Text(text: string) | RegexHole | TypeHole(nullable: bool) {
    predicate Hole() { !Text? }
  }

  /** All ways of deciding the choices and options of a sequence of elements. */
  ghost function Expansions(elements: seq<Element>): set<seq<Part>>
    decreases elements, 1
  {
    if elements == [] then {[]}
    else set first, rest | first in ElementExpansions(elements[0]) && rest in Expansions(elements[1..]) :: first + rest
  }

  ghost function ElementExpansions(element: Element): set<seq<Part>>
    decreases element, 0
  {
    match element
    case Literal(text) => {[Text(text)]}
    case Choice(branches) => set i, p | 0 <= i < |branches| && p in Expansions(branches[i].elements) :: p
    case Group(elements) => Expansions(elements)
    case Optional(elements) => {[]} + Expansions(elements)
    case Regex => {[RegexHole]}
    case TypeExpr(nullable) => {[TypeHole(nullable)]}
    case ParseTag | ParseMark | Empty => {[]}
  }

  lemma {:induction false} JoinExpansion(elements: seq<Element>, first: seq<Part>, rest: seq<Part>)
    requires elements != []
    requires first in ElementExpansions(elements[0]) && rest in Expansions(elements[1..])
    ensures first + rest in Expansions(elements)
  {}

  lemma SplitExpansion(elements: seq<Element>, p: seq<Part>) returns (first: seq<Part>, rest: seq<Part>)
    requires elements != [] && p in Expansions(elements)
    ensures first in ElementExpansions(elements[0]) && rest in Expansions(elements[1..]) && p == first + rest
  {
    first, rest :| first in ElementExpansions(elements[0]) && rest in Expansions(elements[1..]) && p == first + rest;
  }

  /** Matches `literal` from `cursor`. A literal space is optional at either end of the
      complete range and next to an input space that is already there. */
  function MatchLiteral(u: Unicode, input: string, complete: Range, cursor: nat, literal: string): (r: Option<nat>)
    requires complete.Within(input) && complete.start <= cursor <= complete.end
    ensures r.Some? ==> cursor <= r.value <= complete.end
    decreases |literal|
  {
    if literal == [] then Some(cursor)
    else if literal[0] == ' ' then
      if cursor == complete.start || cursor == complete.end then MatchLiteral(u, input, complete, cursor, literal[1..])
      else if input[cursor] == ' ' then MatchLiteral(u, input, complete, cursor + 1, literal[1..])
      else if input[cursor - 1] == ' ' then MatchLiteral(u, input, complete, cursor, literal[1..])
      else None
    else if cursor < complete.end && u.Same(literal[0], input[cursor]) then
      MatchLiteral(u, input, complete, cursor + 1, literal[1..])
    else None
  }

  /** The matcher without hooks and limits: `elements` can take the cursor from `from`
      to `to`. A typed or regex capture may stop at any later position the environment
      offers; only a nullable typed capture may stay where it is. */
  ghost predicate Reaches(u: Unicode, input: string, complete: Range, elements: seq<Element>, from: nat, to: nat)
    requires complete.Within(input) && complete.start <= from <= complete.end
    decreases elements, 1
  {
    if elements == [] then from == to
    else exists mid: nat :: (
      && from <= mid <= complete.end
      && ElementReaches(u, input, complete, elements[0], from, mid)
      && Reaches(u, input, complete, elements[1..], mid, to))
  }

  ghost predicate ElementReaches(u: Unicode, input: string, complete: Range, element: Element, from: nat, to: nat)
    requires complete.Within(input) && complete.start <= from <= complete.end
    decreases element, 0
  {
    match element
    case Literal(text) => MatchLiteral(u, input, complete, from, text) == Some(to)
    case Choice(branches) => exists i :: 0 <= i < |branches| && Reaches(u, input, complete, branches[i].elements, from, to)
    case Group(elements) => Reaches(u, input, complete, elements, from, to)
    case Optional(elements) => from == to || Reaches(u, input, complete, elements, from, to)
    case Regex => from < to <= complete.end
    case TypeExpr(nullable) => from < to <= complete.end || (nullable && from == to)
    case ParseTag | ParseMark | Empty => from == to
  }

  /** The whole pattern consumes exactly the visible core of the input. */
  ghost predicate Matches(u: Unicode, elements: seq<Element>, input: string) {
    var core := Trimmed(input, Range(0, |input|));
    Reaches(u, input, core, elements, core.start, core.end)
  }

  /** The same walk over one expansion. */
  ghost predicate PartsReach(u: Unicode, input: string, complete: Range, parts: seq<Part>, from: nat, to: nat)
    requires complete.Within(input) && complete.start <= from <= complete.end
    decreases |parts|
  {
    if parts == [] then from == to
    else exists mid: nat :: (
      && from <= mid <= complete.end
      && PartReaches(u, input, complete, parts[0], from, mid)
      && PartsReach(u, input, complete, parts[1..], mid, to))
  }

  ghost predicate PartReaches(u: Unicode, input: string, complete: Range, part: Part, from: nat, to: nat)
    requires complete.Within(input) && complete.start <= from <= complete.end
  {
    match part
    case Text(text) => MatchLiteral(u, input, complete, from, text) == Some(to)
    case RegexHole => from < to <= complete.end
    case TypeHole(nullable) => from < to <= complete.end || (nullable && from == to)
  }

  lemma {:induction false} PartsReachInRange(u: Unicode, input: string, complete: Range, parts: seq<Part>, from: nat, to: nat)
    requires complete.Within(input) && complete.start <= from <= complete.end
    requires PartsReach(u, input, complete, parts, from, to)
    ensures from <= to <= complete.end
    decreases |parts|
  {
    if parts != [] {
      var mid: nat :| from <= mid <= complete.end
        && PartReaches(u, input, complete, parts[0], from, mid)
        && PartsReach(u, input, complete, parts[1..], mid, to);
      PartsReachInRange(u, input, complete, parts[1..], mid, to);
    }
  }

  lemma {:induction false} PartsReachConcat(u: Unicode, input: string, complete: Range,
                                            p: seq<Part>, q: seq<Part>, from: nat, mid: nat, to: nat)
    requires complete.Within(input) && complete.start <= from <= mid <= complete.end
    requires PartsReach(u, input, complete, p, from, mid)
    requires PartsReach(u, input, complete, q, mid, to)
    ensures PartsReach(u, input, complete, p + q, from, to)
    decreases |p|
  {
    if p == [] {
      assert p + q == q;
    } else {
      var next: nat :| from <= next <= complete.end
        && PartReaches(u, input, complete, p[0], from, next)
        && PartsReach(u, input, complete, p[1..], next, mid);
      PartsReachInRange(u, input, complete, p[1..], next, mid);
      PartsReachConcat(u, input, complete, p[1..], q, next, mid, to);
      assert (p + q)[1..] == p[1..] + q;
    }
  }

  lemma {:induction false} PartsReachSplit(u: Unicode, input: string, complete: Range,
                                           p: seq<Part>, q: seq<Part>, from: nat, to: nat) returns (mid: nat)
    requires complete.Within(input) && complete.start <= from <= complete.end
    requires PartsReach(u, input, complete, p + q, from, to)
    ensures from <= mid <= complete.end
    ensures PartsReach(u, input, complete, p, from, mid) && PartsReach(u, input, complete, q, mid, to)
    decreases |p|
  {
    if p == [] {
      assert p + q == q;
      mid := from;
    } else {
      assert (p + q)[1..] == p[1..] + q;
      var next: nat :| from <= next <= complete.end
        && PartReaches(u, input, complete, p[0], from, next)
        && PartsReach(u, input, complete, p[1..] + q, next, to);
      mid := PartsReachSplit(u, input, complete, p[1..], q, next, to);
    }
  }

  /** A walk decides every choice and option, so it follows one of the expansions. */
  lemma {:induction false} WalkIsExpansion(u: Unicode, input: string, complete: Range,
                                           elements: seq<Element>, from: nat, to: nat) returns (p: seq<Part>)
    requires complete.Within(input) && complete.start <= from <= complete.end
    requires Reaches(u, input, complete, elements, from, to)
    ensures p in Expansions(elements) && PartsReach(u, input, complete, p, from, to)
    decreases elements, 1
  {
    if elements == [] {
      p := [];
    } else {
      var element, rest := elements[0], elements[1..];
      var mid: nat :| from <= mid <= complete.end
        && ElementReaches(u, input, complete, element, from, mid)
        && Reaches(u, input, complete, rest, mid, to);
      var first := ElementWalkIsExpansion(u, input, complete, element, from, mid);
      var later := WalkIsExpansion(u, input, complete, rest, mid, to);
      PartsReachConcat(u, input, complete, first, later, from, mid, to);
      p := first + later;
    }
  }

  lemma {:induction false} ElementWalkIsExpansion(u: Unicode, input: string, complete: Range,
                                                  element: Element, from: nat, to: nat) returns (p: seq<Part>)
    requires complete.Within(input) && complete.start <= from <= complete.end
    requires ElementReaches(u, input, complete, element, from, to)
    ensures p in ElementExpansions(element) && PartsReach(u, input, complete, p, from, to)
    decreases element, 0
  {
    match element
    case Literal(text) => SinglePart(u, input, complete, Text(text), from, to); p := [Text(text)];
    case Regex => SinglePart(u, input, complete, RegexHole, from, to); p := [RegexHole];
    case TypeExpr(nullable) => SinglePart(u, input, complete, TypeHole(nullable), from, to); p := [TypeHole(nullable)];
    case ParseTag | ParseMark | Empty => p := [];
    case Group(elements) => p := WalkIsExpansion(u, input, complete, elements, from, to);
    case Optional(elements) =>
      if from == to { p := []; } else { p := WalkIsExpansion(u, input, complete, elements, from, to); }
    case Choice(branches) =>
      var i :| 0 <= i < |branches| && Reaches(u, input, complete, branches[i].elements, from, to);
      p := WalkIsExpansion(u, input, complete, branches[i].elements, from, to);
  }

  /** Conversely every expansion is a walk. */
  lemma {:induction false} ExpansionIsWalk(u: Unicode, input: string, complete: Range,
                                           elements: seq<Element>, p: seq<Part>, from: nat, to: nat)
    requires complete.Within(input) && complete.start <= from <= complete.end
    requires p in Expansions(elements) && PartsReach(u, input, complete, p, from, to)
    ensures Reaches(u, input, complete, elements, from, to)
    decreases elements, 1
  {
    if elements != [] {
      var element, rest := elements[0], elements[1..];
      var a, b :| a in ElementExpansions(element) && b in Expansions(rest) && p == a + b;
      var mid := PartsReachSplit(u, input, complete, a, b, from, to);
      ElementExpansionIsWalk(u, input, complete, element, a, from, mid);
      ExpansionIsWalk(u, input, complete, rest, b, mid, to);
    }
  }

  lemma {:induction false} ElementExpansionIsWalk(u: Unicode, input: string, complete: Range,
                                                  element: Element, p: seq<Part>, from: nat, to: nat)
    requires complete.Within(input) && complete.start <= from <= complete.end
    requires p in ElementExpansions(element) && PartsReach(u, input, complete, p, from, to)
    ensures ElementReaches(u, input, complete, element, from, to)
    decreases element, 0
  {
    match element
    case Literal(text) => SinglePart(u, input, complete, Text(text), from, to);
    case Regex => SinglePart(u, input, complete, RegexHole, from, to);
    case TypeExpr(nullable) => SinglePart(u, input, complete, TypeHole(nullable), from, to);
    case ParseTag | ParseMark | Empty =>
    case Group(elements) => ExpansionIsWalk(u, input, complete, elements, p, from, to);
    case Optional(elements) =>
      if p in Expansions(elements) { ExpansionIsWalk(u, input, complete, elements, p, from, to); }
    case Choice(branches) =>
      var i :| 0 <= i < |branches| && p in Expansions(branches[i].elements);
      ExpansionIsWalk(u, input, complete, branches[i].elements, p, from, to);
  }

  lemma {:induction false} SinglePart(u: Unicode, input: string, complete: Range, part: Part, from: nat, to: nat)
    requires complete.Within(input) && complete.start <= from <= complete.end
    ensures [part][1..] == []
    ensures PartsReach(u, input, complete, [part], from, to) <==> PartReaches(u, input, complete, part, from, to)
  {
    if PartReaches(u, input, complete, part, from, to) {
      assert PartsReach(u, input, complete, [part][1..], to, to);
    }
  }

  /** Literal matching composes over concatenation; in particular a literal that matches
      has every one of its prefixes matching from the same place. */
  lemma {:induction false} MatchLiteralConcat(u: Unicode, input: string, complete: Range, cursor: nat, a: string, b: string)
    requires complete.Within(input) && complete.start <= cursor <= complete.end
    ensures MatchLiteral(u, input, complete, cursor, a + b)
         == match MatchLiteral(u, input, complete, cursor, a)
            case None => None
            case Some(mid) => MatchLiteral(u, input, complete, mid, b)
    decreases |a|
  {
    if a == [] {
      assert a + b == b;
    } else {
      assert (a + b)[1..] == a[1..] + b;
      MatchLiteralConcat(u, input, complete, cursor, a[1..], b);
      if cursor < complete.end { MatchLiteralConcat(u, input, complete, cursor + 1, a[1..], b); }
    }
  }
}
