/** Default values that come from the events of a context: a loop over the event classes
    that gathers what is found, what is unknown and what is excluded. */
module DefaultEventValues {
  import opened Text

  /** The two flags are unknown when absent. */
  datatype EventValue = EventValue(registrationId: string, contextDependent: Option<bool>, customValidator: Option<bool>)

  /** What a search among the values of an event gives; `abort` excludes the event. */
  datatype Matches = Matches(values: seq<EventValue>, unknown: bool, abort: Option<string>)

  /** The searches of one event: for past and future values that are distinct from the
      present ones, for direct values and for converted ones. */
  datatype Searches = Searches(past: Matches, future: Matches, direct: Matches, converted: Matches)

  datatype Descriptor = Descriptor(literal: Option<bool>, returnType: Option<string>, single: Option<bool>)

  datatype Payload = Payload(plural: bool, allowExpressions: bool, events: seq<string>)

  datatype Failure = Rejected | Unresolved

  datatype Outcome = Resolved(selected: seq<EventValue>) | Failed(failure: Failure)

  /** Nothing when the catalog cannot be asked about the event. */
  type Lookup = string -> Option<Searches>

  // ------------------------------------------------------------------ one event class

  predicate Usable(m: Matches) { m.abort.None? }

  predicate HasTimeState(s: Searches) {
    (Usable(s.past) && s.past.values != []) || (Usable(s.future) && s.future.values != [])
  }

  predicate UnknownTimeState(s: Searches) {
    (Usable(s.past) && s.past.unknown) || (Usable(s.future) && s.future.unknown)
  }

  /** Conversion is tried when nothing matches directly. */
  function Taken(s: Searches): Matches { if s.direct.values == [] then s.converted else s.direct }

  /** More than one value where one is needed. */
  predicate Ambiguous(s: Searches) { Usable(s.direct) && Usable(Taken(s)) && |Taken(s).values| > 1 }

  predicate Unknown(s: Searches) { Usable(s.direct) && (s.direct.unknown || (Usable(Taken(s)) && Taken(s).unknown)) }

  function Found(s: Searches): seq<EventValue> { if Usable(s.direct) && Usable(Taken(s)) then Taken(s).values else [] }

  predicate FindsSome(s: Searches) { Found(s) != [] }

  predicate Uncertain(v: EventValue) { v.contextDependent != Some(false) || v.customValidator != Some(false) }

  // ------------------------------------------------------------------------ all events

  function FoundIn(lookup: Lookup, events: seq<string>): seq<EventValue> {
    if events == [] then []
    else
      var last := lookup(events[|events| - 1]);
      FoundIn(lookup, events[..|events| - 1]) + if last.Some? then Found(last.value) else []
  }

  predicate Answers(lookup: Lookup, events: seq<string>) { forall k :: 0 <= k < |events| ==> lookup(events[k]).Some? }

  /** Some event of the list is like this. */
  predicate AnyEvent(lookup: Lookup, events: seq<string>, test: Searches -> bool) {
    exists k :: 0 <= k < |events| && lookup(events[k]).Some? && test(lookup(events[k]).value)
  }

  /** The outcome kind, stated by what there is among the events, in no order. */
  datatype Kind = KindResolved | KindFailed(failure: Failure)

  function KindOf(lookup: Lookup, events: seq<string>, needsTime: bool): Kind {
    if AnyEvent(lookup, events, Ambiguous) then KindFailed(Rejected)
    else if needsTime && !AnyEvent(lookup, events, HasTimeState) then
      if AnyEvent(lookup, events, UnknownTimeState) then KindFailed(Unresolved) else KindFailed(Rejected)
    else if AnyEvent(lookup, events, Unknown) || AnyEvent(lookup, events, HasUncertain) then KindFailed(Unresolved)
    else if AnyEvent(lookup, events, FindsSome) then KindResolved
    else KindFailed(Rejected)
  }

  predicate AnyUncertain(values: seq<EventValue>) { exists i :: 0 <= i < |values| && Uncertain(values[i]) }

  predicate HasUncertain(s: Searches) { AnyUncertain(Found(s)) }

  function Kinded(outcome: Outcome): Kind { if outcome.Resolved? then KindResolved else KindFailed(outcome.failure) }

  /** What stops the loop: an event that the catalog cannot be asked about, or an ambiguous one. */
  predicate Stops(lookup: Lookup, event: string) { lookup(event).None? || Ambiguous(lookup(event).value) }

  /** The first event that stops the loop decides; otherwise the events do together. */
  function StopOf(lookup: Lookup, events: seq<string>): (r: Option<nat>)
    ensures r.Some? ==> r.value < |events| && Stops(lookup, events[r.value]) && forall k :: 0 <= k < r.value ==> !Stops(lookup, events[k])
    ensures r.None? ==> forall k :: 0 <= k < |events| ==> !Stops(lookup, events[k])
  {
    if events == [] then None
    else
      var before := StopOf(lookup, events[..|events| - 1]);
      if before.Some? then before
      else if Stops(lookup, events[|events| - 1]) then Some(|events| - 1)
      else None
  }

  function LoopKind(lookup: Lookup, events: seq<string>, needsTime: bool): Kind {
    match StopOf(lookup, events)
    case Some(k) => if lookup(events[k]).None? then KindFailed(Unresolved) else KindFailed(Rejected)
    case None => KindOf(lookup, events, needsTime)
  }

  /** What the loop has gathered over the first events. */
  ghost predicate Gathered(lookup: Lookup, events: seq<string>, n: nat, needsTime: bool, selected: seq<EventValue>, unknown: bool,
                           hasTime: bool, unknownTime: bool)
    requires n <= |events|
  {
    var seen := events[..n];
    && (forall k :: 0 <= k < n ==> !Stops(lookup, events[k]))
    && selected == FoundIn(lookup, seen) && (unknown <==> AnyEvent(lookup, seen, Unknown))
    && (hasTime <==> !needsTime || AnyEvent(lookup, seen, HasTimeState))
    && (!hasTime ==> (unknownTime <==> AnyEvent(lookup, seen, UnknownTimeState)))
  }

  lemma SomeNext(lookup: Lookup, events: seq<string>, n: nat, test: Searches -> bool)
    requires n < |events| && lookup(events[n]).Some?
    ensures AnyEvent(lookup, events[..n + 1], test) <==> AnyEvent(lookup, events[..n], test) || test(lookup(events[n]).value)
  {
    var next := events[..n + 1];
    assert next[n] == events[n];
    assert forall k :: 0 <= k < n ==> next[k] == events[..n][k];
  }

  /** One event: its time states, then its values. */
  lemma GatherNext(lookup: Lookup, events: seq<string>, n: nat, needsTime: bool, selected: seq<EventValue>, unknown: bool,
                   hasTime: bool, unknownTime: bool, s: Searches, hasTime': bool, unknownTime': bool)
    requires n < |events| && lookup(events[n]) == Some(s) && !Ambiguous(s)
    requires Gathered(lookup, events, n, needsTime, selected, unknown, hasTime, unknownTime)
    requires hasTime' <==> hasTime || HasTimeState(s)
    requires !hasTime' ==> (unknownTime' <==> unknownTime || UnknownTimeState(s))
    ensures Gathered(lookup, events, n + 1, needsTime, selected + Found(s), unknown || Unknown(s), hasTime', unknownTime')
  {
    SomeNext(lookup, events, n, Unknown);
    SomeNext(lookup, events, n, HasTimeState);
    SomeNext(lookup, events, n, UnknownTimeState);
    assert events[..n + 1][..n] == events[..n];
  }

  lemma UncertainConcat(a: seq<EventValue>, b: seq<EventValue>)
    ensures AnyUncertain(a + b) <==> AnyUncertain(a) || AnyUncertain(b)
  {
    if AnyUncertain(a) {
      var i :| 0 <= i < |a| && Uncertain(a[i]);
      assert Uncertain((a + b)[i]);
    }
    if AnyUncertain(b) {
      var i :| 0 <= i < |b| && Uncertain(b[i]);
      assert Uncertain((a + b)[|a| + i]);
    }
  }

  lemma AnyNext(lookup: Lookup, events: seq<string>, test: Searches -> bool)
    requires events != [] && lookup(events[|events| - 1]).Some?
    ensures AnyEvent(lookup, events, test) <==>
      AnyEvent(lookup, events[..|events| - 1], test) || test(lookup(events[|events| - 1]).value)
  {
    assert events[..|events|] == events;
    SomeNext(lookup, events, |events| - 1, test);
  }

  /** The values found are those of the events. */
  lemma {:induction false} FoundFrom(lookup: Lookup, events: seq<string>)
    requires Answers(lookup, events)
    ensures AnyUncertain(FoundIn(lookup, events)) <==> AnyEvent(lookup, events, HasUncertain)
    ensures FoundIn(lookup, events) != [] <==> AnyEvent(lookup, events, FindsSome)
  {
    if events != [] {
      var before := events[..|events| - 1];
      FoundFrom(lookup, before);
      AnyNext(lookup, events, HasUncertain);
      AnyNext(lookup, events, FindsSome);
      UncertainConcat(FoundIn(lookup, before), Found(lookup(events[|events| - 1]).value));
    }
  }

  method TimeStates(s: Searches, has: bool, unknown: bool) returns (hasTime: bool, unknownTime: bool, excluded: seq<string>)
    requires !has
    ensures hasTime <==> HasTimeState(s)
    ensures !hasTime ==> (unknownTime <==> unknown || UnknownTimeState(s))
  {
    hasTime, unknownTime, excluded := has, unknown, [];
    if s.past.abort.Some? {
      excluded := [s.past.abort.value];
    } else {
      unknownTime, hasTime := unknownTime || s.past.unknown, s.past.values != [];
      if hasTime { return; }
    }
    if s.future.abort.Some? {
      excluded := excluded + [s.future.abort.value];
    } else {
      unknownTime, hasTime := unknownTime || s.future.unknown, s.future.values != [];
    }
  }

  /** The values of one event; ambiguous values end the search. */
  method TakeValues(s: Searches) returns (ambiguous: bool, unknown: bool, values: seq<EventValue>, excluded: seq<string>)
    ensures ambiguous <==> Ambiguous(s)
    ensures !ambiguous ==> (unknown <==> Unknown(s)) && values == Found(s)
  {
    ambiguous, unknown, values, excluded := false, false, [], [];
    if s.direct.abort.Some? {
      excluded := [s.direct.abort.value];
      return;
    }
    unknown := s.direct.unknown;
    if |s.direct.values| > 1 {
      ambiguous := true;
      return;
    }
    var taken := if s.direct.values == [] then s.converted else s.direct;
    if taken.abort.Some? {
      excluded := [taken.abort.value];
      return;
    }
    unknown := unknown || taken.unknown;
    if |taken.values| > 1 {
      ambiguous := true;
      return;
    }
    values := taken.values;
  }

  /** `static_shape` for a default that is no literal. */
  function StaticShape(payload: Payload, descriptor: Descriptor): Option<Failure> {
    if descriptor.literal == Some(true) || descriptor.returnType.None? || descriptor.single.None? then Some(Unresolved)
    else if !payload.plural && !descriptor.single.value then Some(Rejected)
    else None
  }

  /** `resolve_event_value`; the excluded events are reported with a resolution. */
  method ResolveEventValue(payload: Payload, descriptor: Descriptor, time: int, requireDistinct: bool, lookup: Lookup)
    returns (outcome: Outcome, exclusions: seq<string>)
    ensures StaticShape(payload, descriptor).Some? ==> outcome == Failed(StaticShape(payload, descriptor).value)
    ensures StaticShape(payload, descriptor).None? && (!payload.allowExpressions || payload.events == []) ==> outcome == Failed(Rejected)
    ensures StaticShape(payload, descriptor).None? && payload.allowExpressions && payload.events != [] ==>
      Kinded(outcome) == LoopKind(lookup, payload.events, time != 0 && requireDistinct)
    ensures outcome.Resolved? ==> outcome.selected == FoundIn(lookup, payload.events)
  {
    exclusions := [];
    var shape := StaticShape(payload, descriptor);
    if shape.Some? { return Failed(shape.value), exclusions; }
    if !payload.allowExpressions || payload.events == [] { return Failed(Rejected), exclusions; }
    var events := payload.events;
    var selected: seq<EventValue> := [];
    ghost var needsTime := time != 0 && requireDistinct;
    var unknown, hasTime, unknownTime := false, time == 0 || !requireDistinct, false;
    var k := 0;
    while k < |events|
      invariant 0 <= k <= |events| && Gathered(lookup, events, k, needsTime, selected, unknown, hasTime, unknownTime)
    {
      var found := lookup(events[k]);
      if found.None? {
        StopsAt(lookup, events, k);
        return Failed(Unresolved), exclusions;
      }
      var ambiguous, timed, untimed, more, values, excluded := ConsiderEvent(found.value, hasTime, unknownTime);
      exclusions := exclusions + excluded;
      if ambiguous {
        StopsAt(lookup, events, k);
        return Failed(Rejected), exclusions;
      }
      GatherNext(lookup, events, k, needsTime, selected, unknown, hasTime, unknownTime, found.value, timed, untimed);
      hasTime, unknownTime, unknown, selected := timed, untimed, unknown || more, selected + values;
      k := k + 1;
    }
    assert events[..k] == events;
    FoundFrom(lookup, events);
    outcome := Concluded(selected, unknown, hasTime, unknownTime);
  }

  /** The body of the loop. */
  method ConsiderEvent(s: Searches, has: bool, untimed: bool)
    returns (ambiguous: bool, hasTime: bool, unknownTime: bool, unknown: bool, values: seq<EventValue>, excluded: seq<string>)
    ensures ambiguous <==> Ambiguous(s)
    ensures hasTime <==> has || HasTimeState(s)
    ensures !hasTime ==> (unknownTime <==> untimed || UnknownTimeState(s))
    ensures !ambiguous ==> (unknown <==> Unknown(s)) && values == Found(s)
  {
    var first: seq<string> := [];
    hasTime, unknownTime := has, untimed;
    if !hasTime { hasTime, unknownTime, first := TimeStates(s, hasTime, unknownTime); }
    ambiguous, unknown, values, excluded := TakeValues(s);
    excluded := first + excluded;
  }

  function Concluded(selected: seq<EventValue>, unknown: bool, hasTime: bool, unknownTime: bool): Outcome {
    if !hasTime then Failed(if unknownTime then Unresolved else Rejected)
    else if unknown || AnyUncertain(selected) then Failed(Unresolved)
    else if selected == [] then Failed(Rejected)
    else Resolved(selected)
  }

  lemma {:induction false} StopsAt(lookup: Lookup, events: seq<string>, k: nat)
    requires k < |events| && Stops(lookup, events[k]) && forall j :: 0 <= j < k ==> !Stops(lookup, events[j])
    ensures StopOf(lookup, events) == Some(k)
  {}

  // ------------------------------------------------------------------- what it means

  /** A resolution is certain: there are values, nothing was unknown, no event was
      ambiguous, and every value is known to need no context and no validator. */
  lemma {:induction false} ResolutionIsCertain(lookup: Lookup, events: seq<string>, needsTime: bool)
    requires LoopKind(lookup, events, needsTime) == KindResolved
    ensures FoundIn(lookup, events) != [] && !AnyEvent(lookup, events, Unknown)
    ensures forall i :: 0 <= i < |FoundIn(lookup, events)| ==>
      FoundIn(lookup, events)[i].contextDependent == Some(false) && FoundIn(lookup, events)[i].customValidator == Some(false)
    ensures needsTime ==> AnyEvent(lookup, events, HasTimeState)
  {
    FoundFrom(lookup, events);
    var found := FoundIn(lookup, events);
    assert forall i :: 0 <= i < |found| ==> !Uncertain(found[i]);
  }

  lemma SomeShared(lookup: Lookup, events: seq<string>, other: seq<string>, test: Searches -> bool)
    requires multiset(events) == multiset(other) && AnyEvent(lookup, events, test)
    ensures AnyEvent(lookup, other, test)
  {
    var k :| 0 <= k < |events| && lookup(events[k]).Some? && test(lookup(events[k]).value);
    assert events[k] in multiset(other);
    var j :| 0 <= j < |other| && other[j] == events[k];
  }

  lemma SomePermuted(lookup: Lookup, events: seq<string>, other: seq<string>, test: Searches -> bool)
    requires multiset(events) == multiset(other)
    ensures AnyEvent(lookup, events, test) <==> AnyEvent(lookup, other, test)
  {
    if AnyEvent(lookup, events, test) { SomeShared(lookup, events, other, test); }
    if AnyEvent(lookup, other, test) { SomeShared(lookup, other, events, test); }
  }

  lemma KindPermuted(lookup: Lookup, events: seq<string>, other: seq<string>, needsTime: bool)
    requires multiset(events) == multiset(other)
    ensures KindOf(lookup, events, needsTime) == KindOf(lookup, other, needsTime)
  {
    SomePermuted(lookup, events, other, Ambiguous);
    SomePermuted(lookup, events, other, HasTimeState);
    SomePermuted(lookup, events, other, UnknownTimeState);
    SomePermuted(lookup, events, other, Unknown);
    SomePermuted(lookup, events, other, HasUncertain);
    SomePermuted(lookup, events, other, FindsSome);
  }

  predicate SomeMissing(lookup: Lookup, events: seq<string>) { exists k :: 0 <= k < |events| && lookup(events[k]).None? }

  /** Without both a missing and an ambiguous event, the order of the events is no matter. */
  lemma OrderKeepsKind(lookup: Lookup, events: seq<string>, other: seq<string>, needsTime: bool)
    requires multiset(events) == multiset(other)
    requires !(SomeMissing(lookup, events) && AnyEvent(lookup, events, Ambiguous))
    ensures LoopKind(lookup, events, needsTime) == LoopKind(lookup, other, needsTime)
  {
    KindPermuted(lookup, events, other, needsTime);
    SomePermuted(lookup, events, other, Ambiguous);
    if SomeMissing(lookup, events) { MissingPermuted(lookup, events, other); }
    if SomeMissing(lookup, other) { MissingPermuted(lookup, other, events); }
    LoopKindIs(lookup, events, needsTime);
    LoopKindIs(lookup, other, needsTime);
  }

  lemma MissingPermuted(lookup: Lookup, events: seq<string>, other: seq<string>)
    requires multiset(events) == multiset(other) && SomeMissing(lookup, events)
    ensures SomeMissing(lookup, other)
  {
    var k :| 0 <= k < |events| && lookup(events[k]).None?;
    assert events[k] in multiset(other);
    var j :| 0 <= j < |other| && other[j] == events[k];
  }

  lemma LoopKindIs(lookup: Lookup, events: seq<string>, needsTime: bool)
    requires !(SomeMissing(lookup, events) && AnyEvent(lookup, events, Ambiguous))
    ensures LoopKind(lookup, events, needsTime)
         == if SomeMissing(lookup, events) then KindFailed(Unresolved) else KindOf(lookup, events, needsTime)
  {
    var stop := StopOf(lookup, events);
    if SomeMissing(lookup, events) {
      var k :| 0 <= k < |events| && lookup(events[k]).None?;
      assert Stops(lookup, events[k]);
    }
  }

  /** With both, it is: either can be put in front. */
  lemma OrderDecidesKind(lookup: Lookup, events: seq<string>, needsTime: bool) returns (one: seq<string>, other: seq<string>)
    requires SomeMissing(lookup, events) && AnyEvent(lookup, events, Ambiguous)
    ensures multiset(one) == multiset(events) && multiset(other) == multiset(events)
    ensures LoopKind(lookup, one, needsTime) == KindFailed(Unresolved) && LoopKind(lookup, other, needsTime) == KindFailed(Rejected)
  {
    var i :| 0 <= i < |events| && lookup(events[i]).None?;
    var j :| 0 <= j < |events| && lookup(events[j]).Some? && Ambiguous(lookup(events[j]).value);
    one, other := Fronted(events, i), Fronted(events, j);
    StopsAt(lookup, one, 0);
    StopsAt(lookup, other, 0);
  }

  function Fronted(events: seq<string>, k: nat): (r: seq<string>)
    requires k < |events|
    ensures multiset(r) == multiset(events) && r != [] && r[0] == events[k]
  {
    assert events == events[..k] + [events[k]] + events[k + 1..];
    [events[k]] + events[..k] + events[k + 1..]
  }
}
