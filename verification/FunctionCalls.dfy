/** Function calls: binding arguments to parameters and handing the parsed children to
    the parameters that own them. */
module FunctionCalls {
  import opened Text
  import opened ExpressionLists
  import opened Expressions

  datatype Parameter = Parameter(name: string, parameterType: string, single: bool, optional: bool)

  datatype Definition = Definition(
    name: string,
    definitionId: string,
    registrationId: string,
    parameters: seq<Parameter>,
    returnType: Option<string>,
    returnsSingle: bool,
    allowsNamedArguments: bool)
  {
    predicate ListSignature() { |parameters| == 1 && !parameters[0].single }

    function ReturnMultiplicity(): Multiplicity { if returnsSingle then Single else Multiple }
  }

  datatype ArgumentKind = Named | Unnamed

  /** `raw` is the whole argument, `value` what follows the name. */
  datatype Argument = Argument(kind: ArgumentKind, name: Option<string>, value: Range, raw: Range)

  datatype MappedArgument = MappedArgument(suppliedName: Option<string>, values: seq<Range>)

  // ------------------------------------------------------------------------ binding

  /** `parameter_indexes`: the last parameter of that name. */
  function IndexOf(parameters: seq<Parameter>, name: string): (r: Option<nat>)
    ensures r.Some? ==> r.value < |parameters| && parameters[r.value].name == name
    ensures r.None? <==> forall i :: 0 <= i < |parameters| ==> parameters[i].name != name
  {
    if parameters == [] then None
    else
      var last := |parameters| - 1;
      if parameters[last].name == name then Some(last) else IndexOf(parameters[..last], name)
  }

  /** The parameter that a named argument declares; nothing for a positional one. */
  function Declared(parameters: seq<Parameter>, argument: Argument): (r: Option<nat>)
    ensures r.Some? ==> r.value < |parameters|
  {
    if NamesSomething(argument) then IndexOf(parameters, argument.name.value) else None
  }

  /** What a positional argument binds: an undeclared name is part of the value. */
  function PositionalValue(argument: Argument): Range {
    if argument.kind == Named then argument.raw else argument.value
  }

  predicate HasNames(arguments: seq<Argument>) { exists k :: 0 <= k < |arguments| && arguments[k].kind == Named }

  /** No name is given twice (`duplicate_named_argument` rejects such calls first). */
  predicate DistinctNames(arguments: seq<Argument>) {
    forall i, j :: 0 <= i < j < |arguments| && NamesSomething(arguments[i]) && NamesSomething(arguments[j])
      ==> arguments[i].name != arguments[j].name
  }

  predicate NamesSomething(argument: Argument) { argument.kind == Named && argument.name.Some? }

  predicate RequiredPresent(parameters: seq<Parameter>, mapped: seq<MappedArgument>)
    requires |parameters| == |mapped|
  {
    forall i :: 0 <= i < |parameters| ==> parameters[i].optional || mapped[i].values != []
  }

  /** `slots[k]` is the parameter that argument `k` went to. */
  ghost predicate Placed(parameters: seq<Parameter>, arguments: seq<Argument>, slots: seq<nat>, mapped: seq<MappedArgument>) {
    && |mapped| == |parameters| && |slots| == |arguments|
    && (forall k :: 0 <= k < |slots| ==> slots[k] < |parameters|)
    && (forall i, j :: 0 <= i < j < |slots| ==> slots[i] != slots[j])
    && (forall k :: 0 <= k < |slots| ==> Holds(parameters, arguments[k], slots[k], mapped[slots[k]]))
    && (forall p :: 0 <= p < |mapped| && p !in slots ==> mapped[p] == MappedArgument(None, []))
  }

  /** A parameter holding exactly this argument. */
  predicate Holds(parameters: seq<Parameter>, argument: Argument, slot: nat, m: MappedArgument) {
    var declared := Declared(parameters, argument);
    if declared.Some? then declared.value == slot && m == MappedArgument(argument.name, [argument.value])
    else m == MappedArgument(None, [PositionalValue(argument)])
  }

  /** Positional arguments go forward, skip no parameter that was free, and stay in front
      of the next declared name. */
  ghost predicate PositionalInOrder(parameters: seq<Parameter>, arguments: seq<Argument>, slots: seq<nat>)
    requires |slots| <= |arguments|
  {
    && (forall j :: 0 <= j < |slots| && Declared(parameters, arguments[j]).None? ==> GoesForward(parameters, arguments, slots, j))
    && (forall i: nat, j: nat :: i < |slots| && Declared(parameters, arguments[i]).None? && NextNamed(parameters, arguments, i, j)
          ==> slots[i] < Declared(parameters, arguments[j]).value)
  }

  ghost predicate GoesForward(parameters: seq<Parameter>, arguments: seq<Argument>, slots: seq<nat>, j: nat)
    requires j < |slots|
  {
    && (forall i :: 0 <= i < j ==> slots[i] < slots[j])
    && (forall p: nat :: p < slots[j] && Behind(slots[..j], p) ==> NamedSlot(parameters, arguments, |arguments|, p))
  }

  predicate Behind(slots: seq<nat>, p: nat) { forall i :: 0 <= i < |slots| ==> slots[i] < p }

  /** Argument `j` is the first declared name behind argument `i`. */
  predicate NextNamed(parameters: seq<Parameter>, arguments: seq<Argument>, i: nat, j: nat) {
    i < j < |arguments| && Declared(parameters, arguments[j]).Some?
    && forall k :: i < k < j ==> Declared(parameters, arguments[k]).None?
  }

  /** A way to bind the first arguments of a call: declared names go to their parameters, the
      other arguments forward to parameters that no name claims. */
  ghost predicate BindsFirst(parameters: seq<Parameter>, arguments: seq<Argument>, slots: seq<nat>) {
    && |slots| <= |arguments| && PositionalInOrder(parameters, arguments, slots)
    && forall k :: 0 <= k < |slots| ==> SlotFits(parameters, arguments, k, slots[k])
  }

  ghost predicate Binds(parameters: seq<Parameter>, arguments: seq<Argument>, slots: seq<nat>) {
    |slots| == |arguments| && BindsFirst(parameters, arguments, slots)
  }

  ghost predicate SlotFits(parameters: seq<Parameter>, arguments: seq<Argument>, k: nat, slot: nat)
    requires k < |arguments|
  {
    && slot < |parameters|
    && if Declared(parameters, arguments[k]).Some? then slot == Declared(parameters, arguments[k]).value
       else !NamedSlot(parameters, arguments, |arguments|, slot)
  }

  /** Every required parameter is bound. */
  ghost predicate RequiredBound(parameters: seq<Parameter>, slots: seq<nat>) {
    forall p :: 0 <= p < |parameters| ==> parameters[p].optional || p in slots
  }

  /** Some way to bind the call leaves no required parameter empty. */
  ghost predicate Bindable(parameters: seq<Parameter>, arguments: seq<Argument>) {
    exists slots :: Binds(parameters, arguments, slots) && RequiredBound(parameters, slots)
  }

  /** Two ways to bind a call agree on the next argument if they agree so far. */
  lemma SameSlot(parameters: seq<Parameter>, arguments: seq<Argument>, a: seq<nat>, b: seq<nat>, k: nat)
    requires BindsFirst(parameters, arguments, a) && BindsFirst(parameters, arguments, b) && k < |a| && k < |b| && a[..k] == b[..k]
    ensures a[k] <= b[k]
  {
    assert forall i :: 0 <= i < k ==> a[i] == a[..k][i] == b[i];
  }

  /** There is one way to bind a call at most, and one to bind its first arguments. */
  lemma {:induction false} BindsOnce(parameters: seq<Parameter>, arguments: seq<Argument>, a: seq<nat>, b: seq<nat>, k: nat)
    requires BindsFirst(parameters, arguments, a) && BindsFirst(parameters, arguments, b) && k <= |a| && k <= |b|
    ensures a[..k] == b[..k]
  {
    if k > 0 {
      BindsOnce(parameters, arguments, a, b, k - 1);
      SameSlot(parameters, arguments, a, b, k - 1);
      SameSlot(parameters, arguments, b, a, k - 1);
      assert a[..k] == a[..k - 1] + [a[k - 1]] && b[..k] == b[..k - 1] + [b[k - 1]];
    }
  }

  /** A finished binding decides whether the call can be bound at all. */
  lemma BindingDecides(parameters: seq<Parameter>, arguments: seq<Argument>, slots: seq<nat>)
    requires Binds(parameters, arguments, slots)
    ensures Bindable(parameters, arguments) <==> RequiredBound(parameters, slots)
  {
    if Bindable(parameters, arguments) {
      var all :| Binds(parameters, arguments, all) && RequiredBound(parameters, all);
      BindsOnce(parameters, arguments, slots, all, |arguments|);
      assert slots == slots[..|arguments|] == all[..|arguments|] == all;
    }
  }

  /** The whole call names its arguments, and every name is declared. */
  predicate AllDeclared(parameters: seq<Parameter>, arguments: seq<Argument>) {
    forall k :: 0 <= k < |arguments| ==> Declared(parameters, arguments[k]).Some?
  }

  method MapExactArguments(parameters: seq<Parameter>, arguments: seq<Argument>)
    returns (r: Option<seq<MappedArgument>>, ghost slots: seq<nat>)
    requires |arguments| <= |parameters| && DistinctNames(arguments)
    ensures r.Some? ==> Placed(parameters, arguments, slots, r.value) && RequiredPresent(parameters, r.value)
    ensures r.Some? ==> Binds(parameters, arguments, slots)
    ensures r.Some? <==> Bindable(parameters, arguments)
    ensures !HasNames(arguments) ==>
      (r.Some? <==> forall p :: |arguments| <= p < |parameters| ==> parameters[p].optional)
      && (r.Some? ==> forall k :: 0 <= k < |arguments| ==> slots[k] == k)
    ensures AllDeclared(parameters, arguments) ==>
      (r.Some? <==> forall p :: 0 <= p < |parameters| && !parameters[p].optional ==> NamedSlot(parameters, arguments, |arguments|, p))
  {
    var mapped := seq(|parameters|, (_: nat) => MappedArgument(None, []));
    if !HasNames(arguments) {
      r, slots := MapInOrder(parameters, arguments, mapped);
      InOrderDecides(parameters, arguments, slots);
      return;
    }
    mapped := BindNamed(parameters, arguments, mapped);
    r, slots := BindPositional(parameters, arguments, mapped);
  }

  /** Without names the first arguments fill the first parameters. */
  method MapInOrder(parameters: seq<Parameter>, arguments: seq<Argument>, empty: seq<MappedArgument>)
    returns (r: Option<seq<MappedArgument>>, ghost slots: seq<nat>)
    requires !HasNames(arguments) && |arguments| <= |parameters| == |empty|
    requires forall p :: 0 <= p < |empty| ==> empty[p] == MappedArgument(None, [])
    ensures r.Some? ==> Placed(parameters, arguments, slots, r.value) && RequiredPresent(parameters, r.value)
    ensures r.Some? <==> forall p :: |arguments| <= p < |parameters| ==> parameters[p].optional
    ensures InOrder(slots, |arguments|)
  {
    var mapped := empty;
    slots := [];
    var k := 0;
    while k < |arguments|
      invariant 0 <= k <= |arguments| && |mapped| == |parameters|
      invariant InOrder(slots, k)
      invariant forall p :: 0 <= p < k ==> mapped[p] == MappedArgument(None, [arguments[p].value])
      invariant forall p :: k <= p < |mapped| ==> mapped[p] == MappedArgument(None, [])
    {
      mapped := mapped[k := mapped[k].(values := mapped[k].values + [arguments[k].value])];
      slots := slots + [k];
      k := k + 1;
    }
    r := if RequiredPresent(parameters, mapped) then Some(mapped) else None;
  }

  ghost predicate InOrder(slots: seq<nat>, n: nat) { |slots| == n && forall k :: 0 <= k < n ==> slots[k] == k }

  lemma InOrderBinds(parameters: seq<Parameter>, arguments: seq<Argument>, slots: seq<nat>)
    requires !HasNames(arguments) && |arguments| <= |parameters| && InOrder(slots, |arguments|)
    ensures Binds(parameters, arguments, slots)
  {
    forall j | 0 <= j < |slots| ensures GoesForward(parameters, arguments, slots, j) {
      forall p: nat | p < j ensures !Behind(slots[..j], p) { assert slots[..j][p] == p; }
    }
  }

  lemma InOrderDecides(parameters: seq<Parameter>, arguments: seq<Argument>, slots: seq<nat>)
    requires !HasNames(arguments) && |arguments| <= |parameters| && InOrder(slots, |arguments|)
    ensures Binds(parameters, arguments, slots)
    ensures Bindable(parameters, arguments) <==> forall p :: |arguments| <= p < |parameters| ==> parameters[p].optional
    ensures AllDeclared(parameters, arguments) ==> |arguments| == 0
  {
    InOrderBinds(parameters, arguments, slots);
    BindingDecides(parameters, arguments, slots);
    forall p | 0 <= p < |parameters| ensures p in slots <==> p < |arguments| {
      if p < |arguments| { assert slots[p] == p; }
    }
    if |arguments| > 0 { assert Declared(parameters, arguments[0]).None?; }
  }

  /** After the first pass: the declared names hold their arguments, nothing else does. */
  ghost predicate NamedBound(parameters: seq<Parameter>, arguments: seq<Argument>, n: nat, mapped: seq<MappedArgument>) {
    && |mapped| == |parameters| && n <= |arguments|
    && (forall k :: 0 <= k < n && Declared(parameters, arguments[k]).Some? ==>
          mapped[Declared(parameters, arguments[k]).value] == MappedArgument(arguments[k].name, [arguments[k].value]))
    && (forall p :: 0 <= p < |mapped| && !NamedSlot(parameters, arguments, n, p) ==> mapped[p] == MappedArgument(None, []))
  }

  predicate NamedSlot(parameters: seq<Parameter>, arguments: seq<Argument>, n: nat, p: nat)
    requires n <= |arguments|
  {
    exists k :: 0 <= k < n && Declared(parameters, arguments[k]) == Some(p)
  }

  lemma DeclaredDistinct(parameters: seq<Parameter>, arguments: seq<Argument>, i: nat, j: nat)
    requires DistinctNames(arguments) && i < j < |arguments|
    requires Declared(parameters, arguments[i]).Some?
    ensures Declared(parameters, arguments[i]) != Declared(parameters, arguments[j])
  {}

  method BindNamed(parameters: seq<Parameter>, arguments: seq<Argument>, empty: seq<MappedArgument>) returns (mapped: seq<MappedArgument>)
    requires DistinctNames(arguments) && |empty| == |parameters|
    requires forall p :: 0 <= p < |empty| ==> empty[p] == MappedArgument(None, [])
    ensures NamedBound(parameters, arguments, |arguments|, mapped)
  {
    mapped := empty;
    var k := 0;
    while k < |arguments|
      invariant 0 <= k <= |arguments|
      invariant NamedBound(parameters, arguments, k, mapped)
    {
      var argument := arguments[k];
      if argument.name.Some? {
        var index := IndexOf(parameters, argument.name.value);
        if argument.kind == Named && index.Some? {
          var i := index.value;
          if NamedSlot(parameters, arguments, k, i) {
            var j :| 0 <= j < k && Declared(parameters, arguments[j]) == Some(i);
            DeclaredDistinct(parameters, arguments, j, k);
            assert false;
          }
          mapped := mapped[i := MappedArgument(argument.name, mapped[i].values + [argument.value])];
          assert forall p :: NamedSlot(parameters, arguments, k + 1, p) <==> NamedSlot(parameters, arguments, k, p) || p == i;
        }
      }
      if Declared(parameters, argument).None? {
        assert forall p :: NamedSlot(parameters, arguments, k + 1, p) <==> NamedSlot(parameters, arguments, k, p);
      }
      k := k + 1;
    }
  }

  /** First empty parameter in a range. */
  function FirstFree(mapped: seq<MappedArgument>, from: nat, end: nat): (r: Option<nat>)
    requires end <= |mapped|
    ensures r.Some? ==> from <= r.value < end && mapped[r.value].values == []
    ensures r.None? ==> forall p :: from <= p < end ==> mapped[p].values != []
    ensures r.Some? ==> forall p :: from <= p < r.value ==> mapped[p].values != []
    decreases end - from
  {
    if from >= end then None
    else if mapped[from].values == [] then Some(from)
    else FirstFree(mapped, from + 1, end)
  }

  /** The parameter of the next declared name. */
  function NextNamedSlot(parameters: seq<Parameter>, arguments: seq<Argument>, from: nat): (r: Option<nat>)
    requires from <= |arguments|
    ensures r.Some? ==> r.value < |parameters|
    decreases |arguments| - from
  {
    if from == |arguments| then None
    else if Declared(parameters, arguments[from]).Some? then Declared(parameters, arguments[from])
    else NextNamedSlot(parameters, arguments, from + 1)
  }

  lemma {:induction false} NextNamedSlotExists(parameters: seq<Parameter>, arguments: seq<Argument>, from: nat, i: nat) returns (j: nat)
    requires i < from <= |arguments| && NextNamedSlot(parameters, arguments, from).Some?
    requires forall k :: i < k < from ==> Declared(parameters, arguments[k]).None?
    ensures NextNamed(parameters, arguments, i, j) && Declared(parameters, arguments[j]) == NextNamedSlot(parameters, arguments, from)
    decreases |arguments| - from
  {
    if Declared(parameters, arguments[from]).Some? { j := from; } else { j := NextNamedSlotExists(parameters, arguments, from + 1, i); }
  }

  lemma {:induction false} NextNamedSlotIs(parameters: seq<Parameter>, arguments: seq<Argument>, from: nat, i: nat, j: nat)
    requires i < from <= j && NextNamed(parameters, arguments, i, j)
    ensures NextNamedSlot(parameters, arguments, from) == Declared(parameters, arguments[j])
    decreases j - from
  {
    if from < j { NextNamedSlotIs(parameters, arguments, from + 1, i, j); }
  }

  function Max(a: nat, b: nat): nat { if a < b then b else a }

  /** The cursor is right behind the furthest slot. */
  ghost predicate CursorAt(slots: seq<nat>, cursor: nat) {
    Behind(slots, cursor) && forall p: nat :: Behind(slots, p) ==> cursor <= p
  }

  lemma CursorStep(slots: seq<nat>, cursor: nat, slot: nat)
    requires CursorAt(slots, cursor)
    ensures CursorAt(slots + [slot], Max(cursor, slot + 1))
  {
    forall p: nat ensures Behind(slots + [slot], p) <==> Behind(slots, p) && slot < p { BehindLonger(slots, slot, p); }
    assert forall i :: 0 <= i < |slots| ==> slots[i] < cursor;
  }

  lemma BehindLonger(slots: seq<nat>, slot: nat, p: nat)
    ensures Behind(slots + [slot], p) <==> Behind(slots, p) && slot < p
  {
    var more := slots + [slot];
    if Behind(more, p) {
      assert more[|slots|] == slot;
      assert forall i :: 0 <= i < |slots| ==> more[i] == slots[i];
    }
  }

  /** The first arguments have a parameter each. */
  ghost predicate PlacedSoFar(parameters: seq<Parameter>, arguments: seq<Argument>, slots: seq<nat>, mapped: seq<MappedArgument>) {
    && |mapped| == |parameters| && |slots| <= |arguments|
    && (forall k :: 0 <= k < |slots| ==> slots[k] < |parameters| && Holds(parameters, arguments[k], slots[k], mapped[slots[k]]))
    && (forall i, j :: 0 <= i < j < |slots| ==> slots[i] != slots[j])
  }

  /** The declared names that follow have theirs already, and no other is taken. */
  ghost predicate RestNamed(parameters: seq<Parameter>, arguments: seq<Argument>, slots: seq<nat>, mapped: seq<MappedArgument>) {
    && |mapped| == |parameters| && |slots| <= |arguments|
    && (forall k :: |slots| <= k < |arguments| && Declared(parameters, arguments[k]).Some? ==>
          mapped[Declared(parameters, arguments[k]).value] == MappedArgument(arguments[k].name, [arguments[k].value]))
    && (forall p :: 0 <= p < |mapped| && mapped[p].values != [] ==> p in slots || NamedSlot(parameters, arguments, |arguments|, p))
    && (forall p :: 0 <= p < |mapped| && mapped[p].values == [] ==> mapped[p] == MappedArgument(None, []))
  }

  ghost predicate Progress(parameters: seq<Parameter>, arguments: seq<Argument>, slots: seq<nat>, mapped: seq<MappedArgument>, cursor: nat) {
    && CursorAt(slots, cursor)
    && PlacedSoFar(parameters, arguments, slots, mapped)
    && RestNamed(parameters, arguments, slots, mapped)
  }

  lemma DeclaredStep(parameters: seq<Parameter>, arguments: seq<Argument>, slots: seq<nat>, mapped: seq<MappedArgument>, cursor: nat)
    requires DistinctNames(arguments) && Progress(parameters, arguments, slots, mapped, cursor) && |slots| < |arguments|
    requires Declared(parameters, arguments[|slots|]).Some?
    ensures var next := Declared(parameters, arguments[|slots|]).value;
            Progress(parameters, arguments, slots + [next], mapped, Max(cursor, next + 1))
  {
    var k := |slots|;
    var next := Declared(parameters, arguments[k]).value;
    CursorStep(slots, cursor, next);
    DeclaredPlaced(parameters, arguments, slots, mapped);
    assert forall p :: p in slots ==> p in slots + [next];
  }

  lemma DeclaredPlaced(parameters: seq<Parameter>, arguments: seq<Argument>, slots: seq<nat>, mapped: seq<MappedArgument>)
    requires DistinctNames(arguments) && PlacedSoFar(parameters, arguments, slots, mapped) && |slots| < |arguments|
    requires RestNamed(parameters, arguments, slots, mapped)
    requires Declared(parameters, arguments[|slots|]).Some?
    ensures PlacedSoFar(parameters, arguments, slots + [Declared(parameters, arguments[|slots|]).value], mapped)
  {
    var k := |slots|;
    var next := Declared(parameters, arguments[k]).value;
    forall i | 0 <= i < k ensures slots[i] != next {
      assert Holds(parameters, arguments[i], slots[i], mapped[slots[i]]);
      if Declared(parameters, arguments[i]).Some? { DeclaredDistinct(parameters, arguments, i, k); }
    }
  }

  lemma FreeStep(parameters: seq<Parameter>, arguments: seq<Argument>, slots: seq<nat>, mapped: seq<MappedArgument>, cursor: nat, slot: nat)
    requires Progress(parameters, arguments, slots, mapped, cursor) && |slots| < |arguments|
    requires Declared(parameters, arguments[|slots|]).None?
    requires cursor <= slot < |mapped| && mapped[slot].values == []
    ensures Progress(parameters, arguments, slots + [slot],
                     mapped[slot := MappedArgument(mapped[slot].suppliedName, [PositionalValue(arguments[|slots|])])], slot + 1)
  {
    CursorStep(slots, cursor, slot);
    FreePlaced(parameters, arguments, slots, mapped, slot);
    FreeRest(parameters, arguments, slots, mapped, slot);
  }

  lemma FreePlaced(parameters: seq<Parameter>, arguments: seq<Argument>, slots: seq<nat>, mapped: seq<MappedArgument>, slot: nat)
    requires PlacedSoFar(parameters, arguments, slots, mapped) && RestNamed(parameters, arguments, slots, mapped)
    requires |slots| < |arguments| && Declared(parameters, arguments[|slots|]).None? && Behind(slots, slot)
    requires slot < |mapped| && mapped[slot].values == []
    ensures PlacedSoFar(parameters, arguments, slots + [slot],
                        mapped[slot := MappedArgument(mapped[slot].suppliedName, [PositionalValue(arguments[|slots|])])])
  {
    var more := slots + [slot];
    assert forall i :: 0 <= i < |slots| ==> more[i] == slots[i] && slots[i] < slot;
  }

  lemma FreeRest(parameters: seq<Parameter>, arguments: seq<Argument>, slots: seq<nat>, mapped: seq<MappedArgument>, slot: nat)
    requires RestNamed(parameters, arguments, slots, mapped)
    requires |slots| < |arguments| && slot < |mapped| && mapped[slot].values == []
    ensures RestNamed(parameters, arguments, slots + [slot],
                      mapped[slot := MappedArgument(mapped[slot].suppliedName, [PositionalValue(arguments[|slots|])])])
  {
    var more := slots + [slot];
    assert more[|slots|] == slot;
    assert forall p :: p in slots ==> p in more;
  }

  /** The order survives the next argument. */
  lemma {:induction false} OrderStep(parameters: seq<Parameter>, arguments: seq<Argument>, slots: seq<nat>, mapped: seq<MappedArgument>, cursor: nat, slot: nat)
    requires Progress(parameters, arguments, slots, mapped, cursor) && |slots| < |arguments|
    requires PositionalInOrder(parameters, arguments, slots)
    requires Declared(parameters, arguments[|slots|]).None? ==>
      && cursor <= slot < |mapped| && (forall p :: cursor <= p < slot ==> mapped[p].values != [])
      && var next := NextNamedSlot(parameters, arguments, |slots| + 1); next.Some? ==> slot < next.value
    ensures PositionalInOrder(parameters, arguments, slots + [slot])
  {
    var k, more := |slots|, slots + [slot];
    forall j | 0 <= j <= k && Declared(parameters, arguments[j]).None? ensures GoesForward(parameters, arguments, more, j) {
      if j < k {
        assert more[..j] == slots[..j] && GoesForward(parameters, arguments, slots, j);
      } else {
        ForwardStep(parameters, arguments, slots, mapped, cursor, slot);
      }
    }
    forall i: nat, j: nat | i < |more| && Declared(parameters, arguments[i]).None? && NextNamed(parameters, arguments, i, j)
      ensures more[i] < Declared(parameters, arguments[j]).value
    {
      if i == k { NextNamedSlotIs(parameters, arguments, k + 1, k, j); } else { assert more[i] == slots[i]; }
    }
  }

  lemma ForwardStep(parameters: seq<Parameter>, arguments: seq<Argument>, slots: seq<nat>, mapped: seq<MappedArgument>, cursor: nat, slot: nat)
    requires Progress(parameters, arguments, slots, mapped, cursor)
    requires cursor <= slot < |mapped| && forall p :: cursor <= p < slot ==> mapped[p].values != []
    ensures GoesForward(parameters, arguments, slots + [slot], |slots|)
  {
    var more := slots + [slot];
    assert more[..|slots|] == slots;
    forall p: nat | p < slot && Behind(slots, p) ensures NamedSlot(parameters, arguments, |arguments|, p) {
      assert cursor <= p && p !in slots;
    }
  }

  lemma AllPlaced(parameters: seq<Parameter>, arguments: seq<Argument>, slots: seq<nat>, mapped: seq<MappedArgument>, cursor: nat)
    requires Progress(parameters, arguments, slots, mapped, cursor) && |slots| == |arguments|
    ensures Placed(parameters, arguments, slots, mapped)
  {
    forall p | NamedSlot(parameters, arguments, |arguments|, p) ensures p in slots {
      var k :| 0 <= k < |arguments| && Declared(parameters, arguments[k]) == Some(p);
      assert Holds(parameters, arguments[k], slots[k], mapped[slots[k]]);
      assert slots[k] == p;
    }
  }

  lemma StartBinding(parameters: seq<Parameter>, arguments: seq<Argument>, named: seq<MappedArgument>)
    requires NamedBound(parameters, arguments, |arguments|, named)
    ensures Progress(parameters, arguments, [], named, 0) && PositionalInOrder(parameters, arguments, [])
  {
    forall p: nat | NamedSlot(parameters, arguments, |arguments|, p) ensures named[p].values != [] {
      var k :| 0 <= k < |arguments| && Declared(parameters, arguments[k]) == Some(p);
      assert named[p].values == [arguments[k].value];
    }
  }

  /** The first arguments are bound, in the only way there is. */
  ghost predicate Binding(parameters: seq<Parameter>, arguments: seq<Argument>, slots: seq<nat>, mapped: seq<MappedArgument>, cursor: nat) {
    Progress(parameters, arguments, slots, mapped, cursor) && BindsFirst(parameters, arguments, slots)
  }

  /** What a name claims is never empty. */
  lemma ClaimedIsFilled(parameters: seq<Parameter>, arguments: seq<Argument>, slots: seq<nat>, mapped: seq<MappedArgument>, p: nat)
    requires PlacedSoFar(parameters, arguments, slots, mapped) && RestNamed(parameters, arguments, slots, mapped)
    requires NamedSlot(parameters, arguments, |arguments|, p)
    ensures p < |mapped| && mapped[p].values != []
  {
    var k :| 0 <= k < |arguments| && Declared(parameters, arguments[k]) == Some(p);
    if k < |slots| { assert Holds(parameters, arguments[k], slots[k], mapped[slots[k]]); }
  }

  /** Where the next named parameter is, or the end of all. */
  function EndOf(parameters: seq<Parameter>, arguments: seq<Argument>, k: nat): (end: nat)
    requires k < |arguments|
    ensures end <= |parameters|
  {
    var next := NextNamedSlot(parameters, arguments, k + 1);
    if next.Some? then next.value else |parameters|
  }

  lemma DeclaredBinds(parameters: seq<Parameter>, arguments: seq<Argument>, slots: seq<nat>, mapped: seq<MappedArgument>, cursor: nat)
    requires DistinctNames(arguments) && Binding(parameters, arguments, slots, mapped, cursor) && |slots| < |arguments|
    requires Declared(parameters, arguments[|slots|]).Some?
    ensures var next := Declared(parameters, arguments[|slots|]).value;
            Binding(parameters, arguments, slots + [next], mapped, Max(cursor, next + 1))
  {
    DeclaredStep(parameters, arguments, slots, mapped, cursor);
    OrderStep(parameters, arguments, slots, mapped, cursor, Declared(parameters, arguments[|slots|]).value);
  }

  lemma {:induction false} FreeBinds(parameters: seq<Parameter>, arguments: seq<Argument>, slots: seq<nat>, mapped: seq<MappedArgument>, cursor: nat, slot: nat)
    requires Binding(parameters, arguments, slots, mapped, cursor) && |slots| < |arguments|
    requires Declared(parameters, arguments[|slots|]).None?
    requires FirstFree(mapped, cursor, EndOf(parameters, arguments, |slots|)) == Some(slot)
    ensures Binding(parameters, arguments, slots + [slot],
                    mapped[slot := MappedArgument(mapped[slot].suppliedName, [PositionalValue(arguments[|slots|])])], Max(cursor, slot + 1))
  {
    FreeStep(parameters, arguments, slots, mapped, cursor, slot);
    OrderStep(parameters, arguments, slots, mapped, cursor, slot);
    if NamedSlot(parameters, arguments, |arguments|, slot) { ClaimedIsFilled(parameters, arguments, slots, mapped, slot); }
  }

  /** An argument for which no parameter is free between the cursor and the next declared name
      leaves no way to bind the call. */
  lemma {:induction false} StuckBindsNothing(parameters: seq<Parameter>, arguments: seq<Argument>, slots: seq<nat>, mapped: seq<MappedArgument>, cursor: nat)
    requires Binding(parameters, arguments, slots, mapped, cursor) && |slots| < |arguments|
    requires Declared(parameters, arguments[|slots|]).None? && FirstFree(mapped, cursor, EndOf(parameters, arguments, |slots|)).None?
    ensures !Bindable(parameters, arguments)
  {
    forall all ensures !Binds(parameters, arguments, all) {
      if Binds(parameters, arguments, all) {
        BindsOnce(parameters, arguments, slots, all, |slots|);
        NextIsFree(parameters, arguments, all, |slots|, cursor, slots);
      }
    }
  }

  /** Any way to bind a call puts a positional argument where the search for one looks. */
  lemma NextIsFree(parameters: seq<Parameter>, arguments: seq<Argument>, all: seq<nat>, k: nat, cursor: nat, slots: seq<nat>)
    requires Binds(parameters, arguments, all) && k < |arguments| && Declared(parameters, arguments[k]).None?
    requires slots == all[..k] && CursorAt(slots, cursor)
    ensures cursor <= all[k] < EndOf(parameters, arguments, k) && Behind(slots, all[k])
    ensures !NamedSlot(parameters, arguments, |arguments|, all[k])
  {
    assert SlotFits(parameters, arguments, k, all[k]) && GoesForward(parameters, arguments, all, k);
    assert Behind(slots, all[k]) by { assert forall i :: 0 <= i < k ==> slots[i] == all[i]; }
    if NextNamedSlot(parameters, arguments, k + 1).Some? {
      var j := NextNamedSlotExists(parameters, arguments, k + 1, k);
      assert all[k] < Declared(parameters, arguments[j]).value;
    }
  }

  /** Binds one more argument, or finds that the call cannot be bound. */
  method BindNext(parameters: seq<Parameter>, arguments: seq<Argument>, mapped: seq<MappedArgument>, cursor: nat, ghost slots: seq<nat>, k: nat)
    returns (slot: Option<nat>, next: seq<MappedArgument>)
    requires DistinctNames(arguments) && Binding(parameters, arguments, slots, mapped, cursor) && k == |slots| < |arguments|
    ensures slot.None? ==> !Bindable(parameters, arguments) && Declared(parameters, arguments[k]).None?
    ensures slot.Some? ==> Binding(parameters, arguments, slots + [slot.value], next, Max(cursor, slot.value + 1))
  {
    next := mapped;
    slot := Declared(parameters, arguments[k]);
    if slot.Some? {
      DeclaredBinds(parameters, arguments, slots, mapped, cursor);
      return;
    }
    slot := FirstFree(mapped, cursor, EndOf(parameters, arguments, k));
    if slot.None? {
      StuckBindsNothing(parameters, arguments, slots, mapped, cursor);
      return;
    }
    FreeBinds(parameters, arguments, slots, mapped, cursor, slot.value);
    next := mapped[slot.value := MappedArgument(mapped[slot.value].suppliedName, [PositionalValue(arguments[k])])];
  }

  /** When all is bound, the required parameters are filled exactly if they are bound. */
  lemma AllBound(parameters: seq<Parameter>, arguments: seq<Argument>, slots: seq<nat>, mapped: seq<MappedArgument>, cursor: nat)
    requires Binding(parameters, arguments, slots, mapped, cursor) && |slots| == |arguments|
    ensures Placed(parameters, arguments, slots, mapped) && Binds(parameters, arguments, slots)
    ensures RequiredPresent(parameters, mapped) <==> Bindable(parameters, arguments)
    ensures AllDeclared(parameters, arguments) ==> forall p :: p in slots <==> NamedSlot(parameters, arguments, |arguments|, p)
  {
    AllPlaced(parameters, arguments, slots, mapped, cursor);
    BindingDecides(parameters, arguments, slots);
    forall p | p in slots ensures p < |mapped| && mapped[p].values != [] {
      var k :| 0 <= k < |slots| && slots[k] == p;
      assert Holds(parameters, arguments[k], slots[k], mapped[slots[k]]);
    }
    if AllDeclared(parameters, arguments) { DeclaredSlots(parameters, arguments, slots); }
  }

  lemma DeclaredSlots(parameters: seq<Parameter>, arguments: seq<Argument>, slots: seq<nat>)
    requires AllDeclared(parameters, arguments) && Binds(parameters, arguments, slots)
    ensures forall p :: p in slots <==> NamedSlot(parameters, arguments, |arguments|, p)
  {
    forall p ensures p in slots <==> NamedSlot(parameters, arguments, |arguments|, p) {
      if p in slots {
        var k :| 0 <= k < |slots| && slots[k] == p;
        assert SlotFits(parameters, arguments, k, slots[k]);
      }
      if NamedSlot(parameters, arguments, |arguments|, p) {
        var k :| 0 <= k < |arguments| && Declared(parameters, arguments[k]) == Some(p);
        assert SlotFits(parameters, arguments, k, slots[k]);
      }
    }
  }

  method BindPositional(parameters: seq<Parameter>, arguments: seq<Argument>, named: seq<MappedArgument>)
    returns (r: Option<seq<MappedArgument>>, ghost slots: seq<nat>)
    requires DistinctNames(arguments) && NamedBound(parameters, arguments, |arguments|, named)
    ensures r.Some? ==> Placed(parameters, arguments, slots, r.value) && RequiredPresent(parameters, r.value)
    ensures r.Some? ==> Binds(parameters, arguments, slots)
    ensures r.Some? <==> Bindable(parameters, arguments)
    ensures AllDeclared(parameters, arguments) ==>
      (r.Some? <==> forall p :: 0 <= p < |parameters| && !parameters[p].optional ==> NamedSlot(parameters, arguments, |arguments|, p))
  {
    var mapped := named;
    var cursor: nat := 0;
    slots := [];
    StartBinding(parameters, arguments, named);
    var k := 0;
    while k < |arguments|
      invariant 0 <= k == |slots| <= |arguments|
      invariant Binding(parameters, arguments, slots, mapped, cursor)
    {
      var slot;
      slot, mapped := BindNext(parameters, arguments, mapped, cursor, slots, k);
      if slot.None? { return None, []; }
      slots := slots + [slot.value];
      cursor := Max(cursor, slot.value + 1);
      k := k + 1;
    }
    AllBound(parameters, arguments, slots, mapped, cursor);
    BindingDecides(parameters, arguments, slots);
    r := if RequiredPresent(parameters, mapped) then Some(mapped) else None;
  }

  // -------------------------------------------------------------- order of the call

  /** The mapping of a call that only uses declared names, stated by the names alone. */
  ghost predicate MappedByName(parameters: seq<Parameter>, arguments: seq<Argument>, mapped: seq<MappedArgument>) {
    && |mapped| == |parameters|
    && (forall k :: 0 <= k < |arguments| && Declared(parameters, arguments[k]).Some? ==>
          mapped[Declared(parameters, arguments[k]).value] == MappedArgument(arguments[k].name, [arguments[k].value]))
    && (forall p :: 0 <= p < |mapped| && !NamedSlot(parameters, arguments, |arguments|, p) ==> mapped[p] == MappedArgument(None, []))
  }

  lemma DeclaredCallMapped(parameters: seq<Parameter>, arguments: seq<Argument>, slots: seq<nat>, mapped: seq<MappedArgument>)
    requires AllDeclared(parameters, arguments) && Placed(parameters, arguments, slots, mapped)
    ensures MappedByName(parameters, arguments, mapped)
  {
    forall k | 0 <= k < |arguments|
      ensures mapped[Declared(parameters, arguments[k]).value] == MappedArgument(arguments[k].name, [arguments[k].value])
    {
      assert Holds(parameters, arguments[k], slots[k], mapped[slots[k]]);
    }
    forall p | p in slots ensures NamedSlot(parameters, arguments, |arguments|, p) {
      var k :| 0 <= k < |slots| && slots[k] == p;
      assert Holds(parameters, arguments[k], slots[k], mapped[slots[k]]);
      assert Declared(parameters, arguments[k]) == Some(p);
    }
  }

  lemma SamePlaces(a: seq<Argument>, b: seq<Argument>, k: nat) returns (j: nat)
    requires multiset(a) == multiset(b) && k < |a|
    ensures j < |b| && b[j] == a[k]
  {
    assert a[k] in multiset(a);
    assert a[k] in b;
    j :| 0 <= j < |b| && b[j] == a[k];
  }

  lemma SameNamedSlots(parameters: seq<Parameter>, a: seq<Argument>, b: seq<Argument>, p: nat)
    requires multiset(a) == multiset(b) && NamedSlot(parameters, a, |a|, p)
    ensures NamedSlot(parameters, b, |b|, p)
  {
    var k :| 0 <= k < |a| && Declared(parameters, a[k]) == Some(p);
    var j := SamePlaces(a, b, k);
  }

  /** A call that only uses declared names binds the same way in any order: the same
      parameters are reached, so both succeed or neither, and the mappings are equal. */
  lemma NamedCallOrderIrrelevant(parameters: seq<Parameter>, a: seq<Argument>, b: seq<Argument>,
                                 mappedA: seq<MappedArgument>, mappedB: seq<MappedArgument>)
    requires multiset(a) == multiset(b) && AllDeclared(parameters, a)
    requires MappedByName(parameters, a, mappedA) && MappedByName(parameters, b, mappedB)
    ensures AllDeclared(parameters, b) && mappedA == mappedB
    ensures forall p :: NamedSlot(parameters, a, |a|, p) <==> NamedSlot(parameters, b, |b|, p)
  {
    forall k | 0 <= k < |b| ensures Declared(parameters, b[k]).Some? { var j := SamePlaces(b, a, k); }
    forall p ensures NamedSlot(parameters, a, |a|, p) <==> NamedSlot(parameters, b, |b|, p) {
      if NamedSlot(parameters, a, |a|, p) { SameNamedSlots(parameters, a, b, p); }
      if NamedSlot(parameters, b, |b|, p) { SameNamedSlots(parameters, b, a, p); }
    }
    forall p | 0 <= p < |mappedA| ensures mappedA[p] == mappedB[p] {
      if NamedSlot(parameters, a, |a|, p) {
        var k :| 0 <= k < |a| && Declared(parameters, a[k]) == Some(p);
        var j := SamePlaces(a, b, k);
      }
    }
  }

  // ---------------------------------------------------------------------- ownership

  /** Identities and names can be shown, parameters are not repeated, and an argument is
      omitted exactly when it has no children. */
  ghost predicate WellNamed(white: char -> bool, call: FunctionCall) {
    && !BlankName(white, call.name) && !BlankName(white, call.definitionId) && !BlankName(white, call.registrationId)
    && (forall k :: 0 <= k < |call.arguments| ==> ArgumentNamed(white, call.arguments[k]))
    && (forall i, j :: 0 <= i < j < |call.arguments| ==> call.arguments[i].parameterName != call.arguments[j].parameterName)
  }

  ghost predicate ArgumentNamed(white: char -> bool, a: FunctionArgument) {
    && !BlankName(white, a.parameterName)
    && (a.suppliedName.Some? ==> !BlankName(white, a.suppliedName.value) && !a.omitted)
    && (a.omitted <==> a.childCount == 0)
  }

  /** The arguments cut `0..end` into consecutive blocks. */
  ghost predicate Blocks(arguments: seq<FunctionArgument>, end: nat) {
    if arguments == [] then end == 0
    else
      var last := arguments[|arguments| - 1];
      last.childStart + last.childCount == end && Blocks(arguments[..|arguments| - 1], last.childStart)
  }

  /** What a call must look like to own `childCount` children. */
  ghost predicate Owned(white: char -> bool, call: FunctionCall, childCount: nat) {
    WellNamed(white, call) && Blocks(call.arguments, childCount)
  }

  lemma {:induction false} BlocksBound(arguments: seq<FunctionArgument>, end: nat, k: nat)
    requires Blocks(arguments, end) && k < |arguments|
    ensures arguments[k].childStart + arguments[k].childCount <= end
    decreases |arguments|
  {
    var n := |arguments| - 1;
    if k < n { BlocksBound(arguments[..n], arguments[n].childStart, k); }
  }

  /** `FunctionCall::validate_children`. An end that overflowed would lie behind the last
      child as well, so the overflow check needs no branch of its own. */
  method ValidateChildren(white: char -> bool, call: FunctionCall, childCount: nat) returns (ok: bool)
    ensures ok <==> Owned(white, call, childCount)
  {
    if BlankName(white, call.name) || BlankName(white, call.definitionId) || BlankName(white, call.registrationId) { return false; }
    var names: set<string> := {};
    var next: nat := 0;
    var k := 0;
    while k < |call.arguments|
      invariant 0 <= k <= |call.arguments| && next <= childCount
      invariant Blocks(call.arguments[..k], next)
      invariant names == set i | 0 <= i < k :: call.arguments[i].parameterName
      invariant forall i :: 0 <= i < k ==> ArgumentNamed(white, call.arguments[i])
      invariant forall i, j :: 0 <= i < j < k ==> call.arguments[i].parameterName != call.arguments[j].parameterName
    {
      var a := call.arguments[k];
      if BlankName(white, a.parameterName) || a.parameterName in names
         || (a.suppliedName.Some? && BlankName(white, a.suppliedName.value)) { return false; }
      var end := a.childStart + a.childCount;
      if a.childStart != next || end > childCount {
        if Blocks(call.arguments, childCount) { MisplacedBlock(call.arguments, childCount, k, next); }
        return false;
      }
      if a.omitted != (a.childCount == 0) || (a.omitted && a.suppliedName.Some?) { return false; }
      assert call.arguments[..k + 1][..k] == call.arguments[..k];
      names := names + {a.parameterName};
      next := end;
      k := k + 1;
    }
    assert call.arguments[..k] == call.arguments;
    if next != childCount && Blocks(call.arguments, childCount) { BlocksEnd(call.arguments, next, childCount); }
    return next == childCount;
  }

  lemma {:induction false} BlocksEnd(arguments: seq<FunctionArgument>, a: nat, b: nat)
    requires Blocks(arguments, a) && Blocks(arguments, b)
    ensures a == b
  {}

  /** A block that starts elsewhere, or runs past the end, spoils the whole call. */
  lemma {:induction false} MisplacedBlock(arguments: seq<FunctionArgument>, end: nat, k: nat, next: nat)
    requires Blocks(arguments, end) && k < |arguments| && Blocks(arguments[..k], next)
    ensures arguments[k].childStart == next && arguments[k].childStart + arguments[k].childCount <= end
    decreases |arguments|
  {
    var n := |arguments| - 1;
    BlocksBound(arguments, end, k);
    if k < n {
      assert arguments[..n][..k] == arguments[..k];
      MisplacedBlock(arguments[..n], arguments[n].childStart, k, next);
    } else {
      BlocksEnd(arguments[..k], next, arguments[k].childStart);
    }
  }

  predicate OwnsChild(a: FunctionArgument, child: nat) { a.childStart <= child < a.childStart + a.childCount }

  /** Every child has exactly one owner, and nothing else is owned. */
  lemma {:induction false} OneOwner(arguments: seq<FunctionArgument>, end: nat, child: nat)
    requires Blocks(arguments, end)
    ensures child < end <==> exists k :: 0 <= k < |arguments| && OwnsChild(arguments[k], child)
    ensures forall i, j :: 0 <= i < j < |arguments| ==> !(OwnsChild(arguments[i], child) && OwnsChild(arguments[j], child))
    decreases |arguments|
  {
    if arguments != [] {
      var n := |arguments| - 1;
      var before := arguments[..n];
      OneOwner(before, arguments[n].childStart, child);
      if exists k :: 0 <= k < n && OwnsChild(before[k], child) {
        var k :| 0 <= k < n && OwnsChild(before[k], child);
        assert arguments[k] == before[k];
      }
      forall i | 0 <= i < n ensures !(OwnsChild(arguments[i], child) && OwnsChild(arguments[n], child)) {
        assert arguments[i] == before[i];
      }
      forall i, j | 0 <= i < j < n ensures !(OwnsChild(arguments[i], child) && OwnsChild(arguments[j], child)) {
        assert arguments[i] == before[i] && arguments[j] == before[j];
      }
    }
  }

  // ------------------------------------------------------------------- building calls

  predicate IsExpressionList(node: Node) {
    || node.kind.List?
    || (node.kind.Grouped? && |node.children| == 1 && IsExpressionList(node.children[0]))
  }

  /** Strips the groups around a list. */
  function Ungrouped(node: Node): Node {
    if node.kind.Grouped? && |node.children| == 1 then Ungrouped(node.children[0]) else node
  }

  /** The children a plural parameter receives: the members of a flat `and` list, or the
      expression itself. Nested lists and `or` lists are refused. */
  function Flattened(node: Node): (r: Option<seq<Node>>)
  {
    if !IsExpressionList(node) then Some([node])
    else
      var list := Ungrouped(node);
      match list.kind
      case List(All) =>
        if exists i :: 0 <= i < |list.children| && IsExpressionList(list.children[i]) then None else Some(list.children)
      case List(Any) => None
      case _ => Some([list])
  }

  /** A list that fits a request has members, so flattening never leaves nothing. */
  lemma {:induction false} FlattenedNonempty(rel: Conversions, node: Node, expected: seq<ExpectedType>)
    requires rel.Fits(node, expected)
    ensures Flattened(node).Some? ==> Flattened(node).value != []
  {
    UngroupedFits(rel, node, expected);
  }

  lemma {:induction false} UngroupedFits(rel: Conversions, node: Node, expected: seq<ExpectedType>)
    requires rel.Fits(node, expected)
    ensures rel.Fits(Ungrouped(node), expected)
    decreases node
  {
    if node.kind.Grouped? { UngroupedFits(rel, node.children[0], expected); }
  }

  /** What a parameter takes from one parsed value. */
  function Taken(parameter: Parameter, node: Node): Option<seq<Node>> {
    if parameter.single then Some([node]) else Flattened(node)
  }

  /** The nodes taken from several parsed values, in order; nothing if one is refused. */
  function AllTaken(parameter: Parameter, parsed: seq<Node>): Option<seq<Node>> {
    if parsed == [] then Some([])
    else
      var last := |parsed| - 1;
      match (AllTaken(parameter, parsed[..last]), Taken(parameter, parsed[last]))
      case (Some(before), Some(nodes)) => Some(before + nodes)
      case _ => None
  }

  lemma {:induction false} TakenNext(parameter: Parameter, parsed: seq<Node>, node: Node)
    requires AllTaken(parameter, parsed).Some? && Taken(parameter, node).Some?
    ensures AllTaken(parameter, parsed + [node]) == Some(AllTaken(parameter, parsed).value + Taken(parameter, node).value)
  {
    assert (parsed + [node])[..|parsed|] == parsed;
  }

  predicate Mapped(parameters: seq<Parameter>, mapped: seq<MappedArgument>) {
    && |mapped| == |parameters|
    && forall p :: 0 <= p < |mapped| ==>
         mapped[p].suppliedName.Some? ==> mapped[p].suppliedName.value == parameters[p].name && mapped[p].values != []
  }

  /** Both ways of binding supply a name only together with a value, and only the
      parameter's own. */
  lemma PlacedIsMapped(parameters: seq<Parameter>, arguments: seq<Argument>, slots: seq<nat>, mapped: seq<MappedArgument>)
    requires Placed(parameters, arguments, slots, mapped)
    ensures Mapped(parameters, mapped)
  {
    forall p | 0 <= p < |mapped| && mapped[p].suppliedName.Some?
      ensures mapped[p].suppliedName.value == parameters[p].name && mapped[p].values != []
    {
      assert p in slots;
      var k :| 0 <= k < |slots| && slots[k] == p;
      assert Holds(parameters, arguments[k], slots[k], mapped[slots[k]]);
    }
  }

  /** The one binding of a list signature: all outer arguments are one expression list. */
  function MapListArguments(definition: Definition, arguments: seq<Argument>): (r: Option<seq<MappedArgument>>)
    requires definition.ListSignature()
    ensures r.Some? ==> Mapped(definition.parameters, r.value)
  {
    var parameter := definition.parameters[0];
    if HasNames(arguments) && !definition.allowsNamedArguments then None
    else if |arguments| > 1 && HasNames(arguments) then None
    else if |arguments| == 1 && arguments[0].kind == Named && arguments[0].name != Some(parameter.name) then None
    else if arguments == [] && !parameter.optional then None
    else if arguments == [] then Some([MappedArgument(None, [])])
    else
      Some([MappedArgument(if arguments[0].kind == Named then arguments[0].name else None,
                           [Range(arguments[0].value.start, arguments[|arguments| - 1].value.end)])])
  }

  predicate WellFormedDefinition(white: char -> bool, definition: Definition) {
    && !BlankName(white, definition.name) && !BlankName(white, definition.definitionId) && !BlankName(white, definition.registrationId)
    && (forall p :: 0 <= p < |definition.parameters| ==> !BlankName(white, definition.parameters[p].name))
    && (forall i, j :: 0 <= i < j < |definition.parameters| ==> definition.parameters[i].name != definition.parameters[j].name)
  }

  /** A parameter whose argument holds what it took from its parsed values, in their order. */
  ghost predicate Received(parameter: Parameter, m: MappedArgument, parsed: seq<Node>, a: FunctionArgument, children: seq<Node>) {
    && |parsed| == |m.values| && a.childStart + a.childCount <= |children|
    && AllTaken(parameter, parsed) == Some(children[a.childStart..a.childStart + a.childCount])
  }

  /** The arguments of the first parameters: consecutive blocks of children that hold what
      each parameter received. */
  ghost predicate ArgumentsBuilt(parameters: seq<Parameter>, mapped: seq<MappedArgument>, parsed: seq<seq<Node>>,
                                 arguments: seq<FunctionArgument>, children: seq<Node>) {
    && |arguments| == |parsed| <= |mapped| == |parameters| && Blocks(arguments, |children|)
    && forall p :: 0 <= p < |arguments| ==>
         && ArgumentFor(parameters[p], mapped[p], arguments[p])
         && Received(parameters[p], mapped[p], parsed[p], arguments[p], children)
  }

  /** A call built from a definition: its identity and an argument for each parameter. */
  ghost predicate BuiltFrom(definition: Definition, mapped: seq<MappedArgument>, parsed: seq<seq<Node>>, call: FunctionCall, children: seq<Node>) {
    && call.name == definition.name && call.definitionId == definition.definitionId && call.registrationId == definition.registrationId
    && |call.arguments| == |mapped| && ArgumentsBuilt(definition.parameters, mapped, parsed, call.arguments, children)
  }

  lemma {:induction false} ArgumentBuilt(parameters: seq<Parameter>, mapped: seq<MappedArgument>, parsed: seq<seq<Node>>, arguments: seq<FunctionArgument>,
                      children: seq<Node>, argument: FunctionArgument, values: seq<Node>, nodes: seq<Node>)
    requires ArgumentsBuilt(parameters, mapped, parsed, arguments, children) && |arguments| < |mapped|
    requires ArgumentFor(parameters[|arguments|], mapped[|arguments|], argument)
    requires argument.childStart == |children| && argument.childCount == |nodes|
    requires |values| == |mapped[|arguments|].values| && AllTaken(parameters[|arguments|], values) == Some(nodes)
    ensures ArgumentsBuilt(parameters, mapped, parsed + [values], arguments + [argument], children + nodes)
  {
    var n, more, every, all := |arguments|, arguments + [argument], parsed + [values], children + nodes;
    assert more[..n] == arguments;
    ReceivedLast(parameters[n], mapped[n], values, argument, children, nodes);
    forall q | 0 <= q < n ensures ArgumentFor(parameters[q], mapped[q], more[q]) && Received(parameters[q], mapped[q], every[q], more[q], all) {
      assert more[q] == arguments[q] && every[q] == parsed[q];
      ReceivedLater(parameters[q], mapped[q], parsed[q], arguments[q], children, nodes);
    }
  }

  lemma {:induction false} ReceivedLast(parameter: Parameter, m: MappedArgument, parsed: seq<Node>, a: FunctionArgument, children: seq<Node>, nodes: seq<Node>)
    requires a.childStart == |children| && a.childCount == |nodes| && |parsed| == |m.values| && AllTaken(parameter, parsed) == Some(nodes)
    ensures Received(parameter, m, parsed, a, children + nodes)
  {
    assert (children + nodes)[|children|..|children| + |nodes|] == nodes;
  }

  lemma ReceivedLater(parameter: Parameter, m: MappedArgument, parsed: seq<Node>, a: FunctionArgument, children: seq<Node>, more: seq<Node>)
    requires Received(parameter, m, parsed, a, children)
    ensures Received(parameter, m, parsed, a, children + more)
  {
    assert (children + more)[a.childStart..a.childStart + a.childCount] == children[a.childStart..a.childStart + a.childCount];
  }

  predicate ArgumentFor(parameter: Parameter, m: MappedArgument, a: FunctionArgument) {
    a.parameterName == parameter.name && a.suppliedName == m.suppliedName && a.omitted == (a.childCount == 0)
  }

  function ArgumentOf(parameter: Parameter, m: MappedArgument, start: nat, count: nat): (a: FunctionArgument)
    ensures ArgumentFor(parameter, m, a) && a.childStart == start && a.childCount == count
  {
    FunctionArgument(parameter.name, m.suppliedName, start, count, count == 0)
  }

  /** What a value of this parameter is parsed as. */
  function Wanted(parameter: Parameter): seq<ExpectedType> { [ExpectedType(parameter.parameterType, !parameter.single)] }

  ghost predicate AllFit(rel: Conversions, parameters: seq<Parameter>, parsed: seq<seq<Node>>) {
    |parsed| <= |parameters| && forall p, k :: 0 <= p < |parsed| && 0 <= k < |parsed[p]| ==> rel.Fits(parsed[p][k], Wanted(parameters[p]))
  }

  lemma {:induction false} AllFitNext(rel: Conversions, parameters: seq<Parameter>, parsed: seq<seq<Node>>, values: seq<Node>)
    requires AllFit(rel, parameters, parsed) && |parsed| < |parameters|
    requires forall k :: 0 <= k < |values| ==> rel.Fits(values[k], Wanted(parameters[|parsed|]))
    ensures AllFit(rel, parameters, parsed + [values])
  {}

  lemma {:induction false} TakenNonempty(rel: Conversions, parameter: Parameter, parsed: seq<Node>)
    requires parsed != [] && forall k :: 0 <= k < |parsed| ==> rel.Fits(parsed[k], Wanted(parameter))
    requires AllTaken(parameter, parsed).Some?
    ensures AllTaken(parameter, parsed).value != []
  {
    FlattenedNonempty(rel, parsed[|parsed| - 1], Wanted(parameter));
  }

  /** Every call that is built from a well-formed definition, whichever way its arguments
      were bound, passes the ownership check. */
  lemma BuiltCallIsOwned(white: char -> bool, rel: Conversions, definition: Definition, mapped: seq<MappedArgument>, parsed: seq<seq<Node>>,
                         call: FunctionCall, children: seq<Node>)
    requires WellFormedDefinition(white, definition) && Mapped(definition.parameters, mapped)
    requires AllFit(rel, definition.parameters, parsed) && BuiltFrom(definition, mapped, parsed, call, children)
    ensures Owned(white, call, |children|)
  {
    forall p | 0 <= p < |mapped| ensures ArgumentNamed(white, call.arguments[p]) {
      assert ArgumentFor(definition.parameters[p], mapped[p], call.arguments[p]);
      assert Received(definition.parameters[p], mapped[p], parsed[p], call.arguments[p], children);
      if mapped[p].suppliedName.Some? { TakenNonempty(rel, definition.parameters[p], parsed[p]); }
    }
    forall i, j | 0 <= i < j < |mapped| ensures call.arguments[i].parameterName != call.arguments[j].parameterName {
      assert ArgumentFor(definition.parameters[i], mapped[i], call.arguments[i]);
      assert ArgumentFor(definition.parameters[j], mapped[j], call.arguments[j]);
    }
  }
}
