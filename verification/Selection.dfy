/** Selecting among candidates whose semantic effects must not outlive them: the loops of
    the effect and of the condition parser. The session holds a context, the environment an
    overlay; a semantic scope saves both, and a rejection brings both back. */
module Selection {
  import opened Text

  datatype Outcome = Accepted | Rejected | Failed

  /** Where a session stands. */
  datatype Stand<C, O> = Stand(context: C, overlay: O)

  /** What running a candidate from some stand comes to. */
  datatype Run<C, O> = Run(outcome: Outcome, stand: Stand<C, O>)

  /** `run(k, s)` is what candidate `k` does from `s`; `restricted` is the event test. */
  datatype Candidates<!C, !O> = Candidates(count: nat, run: (nat, Stand<C, O>) -> Run<C, O>, restricted: (nat, C) -> bool)

  /** Candidate `k` is allowed and accepted when it runs from the entry. */
  predicate Accepts<C, O>(cs: Candidates<C, O>, entry: Stand<C, O>, k: nat) {
    !cs.restricted(k, entry.context) && cs.run(k, entry).outcome == Accepted
  }

  predicate Fails<C, O>(cs: Candidates<C, O>, entry: Stand<C, O>, k: nat) {
    !cs.restricted(k, entry.context) && cs.run(k, entry).outcome == Failed
  }

  /** The first candidate that is accepted, run alone from the entry. */
  ghost predicate FirstAccepted<C, O>(cs: Candidates<C, O>, entry: Stand<C, O>, k: nat) {
    k < cs.count && Accepts(cs, entry, k) && forall j :: 0 <= j < k ==> !Accepts(cs, entry, j)
  }

  /** Selection as if only the first accepted candidate had run: its stand, or the entry. */
  ghost predicate RanAlone<C, O>(cs: Candidates<C, O>, entry: Stand<C, O>, selected: Option<nat>, stand: Stand<C, O>) {
    match selected
    case Some(k) => FirstAccepted(cs, entry, k) && stand == cs.run(k, entry).stand
    case None => (forall k :: 0 <= k < cs.count ==> !Accepts(cs, entry, k)) && stand == entry
  }

  /** The candidates up to `n`, none of which failed. */
  ghost predicate SelectedSoFar<C, O>(cs: Candidates<C, O>, entry: Stand<C, O>, n: nat, selected: Option<nat>) {
    match selected
    case Some(k) => k < n && FirstAccepted(cs, entry, k) && forall j :: 0 <= j < k ==> !Fails(cs, entry, j)
    case None => forall j :: 0 <= j < n ==> !Accepts(cs, entry, j) && !Fails(cs, entry, j)
  }

  /** Overlay while the loop runs: that of the selection, or the one it began with. */
  function Overlay<C, O>(cs: Candidates<C, O>, entry: Stand<C, O>, selected: Option<nat>): O {
    if selected.Some? then cs.run(selected.value, entry).stand.overlay else entry.overlay
  }

  class Session<C, O> {
    var context: C
    var overlay: O
    var saved: seq<Stand<C, O>>

    constructor (context: C, overlay: O)
      ensures Here() == Stand(context, overlay) && saved == []
    {
      this.context, this.overlay, saved := context, overlay, [];
    }

    function Here(): Stand<C, O> reads this { Stand(context, overlay) }

    method BeginSemantic()
      modifies this`saved
      ensures saved == old(saved) + [Here()]
    {
      saved := saved + [Here()];
    }

    method FinishSemantic(accepted: bool)
      requires saved != []
      modifies this
      ensures saved == old(saved)[..|old(saved)| - 1]
      ensures Here() == if accepted then old(Here()) else old(saved)[|old(saved)| - 1]
    {
      var last := saved[|saved| - 1];
      saved := saved[..|saved| - 1];
      if !accepted { context, overlay := last.context, last.overlay; }
    }

    /** One candidate inside its scope; its effects stay only if it is accepted and `wanted`. */
    method Attempt(cs: Candidates<C, O>, k: nat, wanted: bool) returns (outcome: Outcome, kept: Option<C>)
      modifies this
      ensures saved == old(saved) && outcome == cs.run(k, old(Here())).outcome
      ensures kept.Some? <==> outcome == Accepted && wanted
      ensures Here() == if kept.Some? then cs.run(k, old(Here())).stand else old(Here())
      ensures kept.Some? ==> kept.value == context
    {
      BeginSemantic();
      var result := cs.run(k, Here());
      context, overlay := result.stand.context, result.stand.overlay;
      var keep := result.outcome == Accepted && wanted;
      kept := if keep then Some(context) else None;
      FinishSemantic(keep);
      outcome := result.outcome;
    }

    /** The loop of `parse_effect_range_with_session`: every candidate is tried, so that all
        that match are known, but only the first that is accepted leaves a trace. */
    method SelectEffect(cs: Candidates<C, O>) returns (ok: bool, selected: Option<nat>, ghost failed: nat)
      modifies this
      ensures saved == old(saved)
      ensures ok ==> RanAlone(cs, old(Here()), selected, Here())
      ensures !ok ==> failed < cs.count && SelectedSoFar(cs, old(Here()), failed, selected)
      ensures !ok ==> Here() == Stand(old(context), Overlay(cs, old(Here()), selected))
      ensures !ok ==> Fails(cs, Stand(old(context), Overlay(cs, old(Here()), selected)), failed)
    {
      ghost var entry := Here();
      var initial, selectedContext: Option<C> := context, None;
      selected, failed := None, 0;
      var k := 0;
      while k < cs.count
        invariant 0 <= k <= cs.count && saved == old(saved) && initial == entry.context
        invariant SelectedSoFar(cs, entry, k, selected)
        invariant overlay == Overlay(cs, entry, selected)
        invariant selectedContext.Some? <==> selected.Some?
        invariant selected.Some? ==> selectedContext.value == cs.run(selected.value, entry).stand.context
      {
        context := initial;
        failed := k;
        if !cs.restricted(k, context) {
          var outcome, kept := Attempt(cs, k, selected.None?);
          if outcome == Failed { return false, selected, failed; }
          if kept.Some? { selected, selectedContext := Some(k), kept; }
        }
        k := k + 1;
      }
      context := if selectedContext.Some? then selectedContext.value else initial;
      ok := true;
    }

    /** The loop of `parse_condition_with_session`: it ends with the first acceptance. */
    method SelectCondition(cs: Candidates<C, O>) returns (ok: bool, selected: Option<nat>, ghost failed: nat)
      modifies this
      ensures saved == old(saved)
      ensures ok ==> RanAlone(cs, old(Here()), selected, Here())
      ensures !ok ==> selected.None? && Here() == old(Here())
      ensures !ok ==> failed < cs.count && SelectedSoFar(cs, old(Here()), failed, None) && Fails(cs, old(Here()), failed)
    {
      ghost var entry := Here();
      var initial, selectedContext: Option<C> := context, None;
      selected, failed := None, 0;
      var k := 0;
      while k < cs.count
        invariant 0 <= k <= cs.count && saved == old(saved) && initial == entry.context
        invariant SelectedSoFar(cs, entry, k, None) && overlay == entry.overlay && selectedContext.None? && selected.None?
      {
        context := initial;
        failed := k;
        if !cs.restricted(k, context) {
          var outcome, kept := Attempt(cs, k, true);
          if outcome == Failed { return false, None, failed; }
          if kept.Some? {
            selected, selectedContext := Some(k), kept;
            break;
          }
        }
        k := k + 1;
      }
      context := if selectedContext.Some? then selectedContext.value else initial;
      ok := true;
    }
  }

  /** Both loops leave the session in one place, whatever the candidates behind the
      selection would do: the selection and the stand are determined by the candidates up to
      the first that is accepted. */
  lemma SelectionIgnoresTheRest<C, O>(cs: Candidates<C, O>, other: Candidates<C, O>, entry: Stand<C, O>,
                                     selected: Option<nat>, stand: Stand<C, O>, selected': Option<nat>, stand': Stand<C, O>)
    requires RanAlone(cs, entry, selected, stand) && RanAlone(other, entry, selected', stand')
    requires selected.Some? ==> selected.value < other.count
    requires selected.None? ==> other.count == cs.count
    requires forall k :: 0 <= k < other.count && (selected.Some? ==> k <= selected.value) ==>
      cs.run(k, entry) == other.run(k, entry) && cs.restricted(k, entry.context) == other.restricted(k, entry.context)
    ensures selected' == selected && stand' == stand
  {
    if selected.Some? {
      assert Accepts(other, entry, selected.value);
      if selected'.Some? {
        assert selected'.value <= selected.value;
        assert selected'.value < selected.value ==> Accepts(cs, entry, selected'.value);
      }
    } else if selected'.Some? {
      assert Accepts(cs, entry, selected'.value);
    }
  }
}
