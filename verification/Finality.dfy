/** Finality never moves backwards, whatever the state and whatever the attestations. */
module Finality {
  import opened Containers
  import opened Slots
  import opened Bits
  import opened Window
  import opened Tallies
  import opened Justification

  /** When the scan panics and what it finds otherwise. */
  lemma {:induction false} AnyJustifiableExact(from: Slot, end: Slot, finalized: Slot)
    ensures AnyJustifiable(from, end, finalized).Panic? <==> from < end && from < finalized
    ensures AnyJustifiable(from, end, finalized).Panic? ==> AnyJustifiable(from, end, finalized).fault == BeforeFinalized
    ensures !AnyJustifiable(from, end, finalized).Err?
    ensures AnyJustifiable(from, end, finalized).Ok? ==>
              (AnyJustifiable(from, end, finalized).value <==>
               exists slot :: from <= slot < end && JustifiableAfter(slot, finalized))
    decreases end - from
  {
    if from < end && from >= finalized {
      if !JustifiableDistance(from - finalized) {
        AnyJustifiableExact(from + 1, end, finalized);
        assert !JustifiableAfter(from, finalized);
      } else {
        assert JustifiableAfter(from, finalized);
      }
    }
  }

  /** What it takes for the votes of an attestation to be tallied, and nothing else. */
  ghost predicate Countable(pre: State, p: Progress, data: AttestationData) {
    var source, target := data.source, data.target;
    && Marked(p.window, p.finalized.slot, source.slot)
    && !Marked(p.window, p.finalized.slot, target.slot)
    && target.slot <= Horizon(p.window, p.finalized.slot)
    && source.root != ZERO_ROOT && target.root != ZERO_ROOT
    && source.slot < target.slot < |pre.history|
    && pre.history[source.slot] == source.root
    && pre.history[target.slot] == target.root
    && JustifiableAfter(target.slot, pre.finalized.slot)
  }

  lemma CountedExact(pre: State, p: Progress, data: AttestationData)
    ensures Counted(pre, p, data) == Ok(true) <==> Countable(pre, p, data)
  {
    hide IsSlotJustified;
    LookupRefinesSet(p.window, p.finalized.slot, data.source.slot);
    LookupRefinesSet(p.window, p.finalized.slot, data.target.slot);
  }

  /** `next` is the first slot after `slot` that may be justified relative to `base`. */
  ghost predicate NextJustifiable(base: Slot, slot: Slot, next: Slot) {
    && slot < next && JustifiableAfter(next, base)
    && forall k :: slot < k < next ==> !JustifiableAfter(k, base)
  }

  /** The loop invariant that protects finality: once the loop has moved finality past the
      slot `base` it started from, the next justifiable slot is already justified. */
  ghost predicate Guarded(base: Slot, p: Progress) {
    && base <= p.finalized.slot
    && (base < p.finalized.slot ==>
          exists next :: NextJustifiable(base, p.finalized.slot, next) && Marked(p.window, p.finalized.slot, next))
  }

  /** An attestation whose source lies before the current finalized slot cannot finalize. */
  lemma OldSourceIsBlocked(pre: State, p: Progress, data: AttestationData) returns (k: Slot)
    requires Guarded(pre.finalized.slot, p)
    requires Countable(pre, p, data) && data.source.slot < p.finalized.slot
    ensures data.source.slot < k < data.target.slot && JustifiableAfter(k, pre.finalized.slot)
  {
    var base, f := pre.finalized.slot, p.finalized.slot;
    if base == f {
      k := f;
    } else {
      k :| NextJustifiable(base, f, k) && Marked(p.window, f, k);
      NextBeforeTarget(base, f, k, data.target.slot);
    }
  }

  lemma NextBeforeTarget(base: Slot, slot: Slot, next: Slot, target: Slot)
    requires NextJustifiable(base, slot, next) && slot < target && target != next
    requires JustifiableAfter(target, base)
    ensures next < target
  {
  }

  /** The three ways in which a step can succeed. */
  ghost predicate Skipped(pre: State, p: Progress, att: AggregatedAttestation, q: Progress) {
    Counted(pre, p, att.data) == Ok(false) && q == p
  }

  ghost predicate Recorded(pre: State, p: Progress, att: AggregatedAttestation, q: Progress) {
    && Countable(pre, p, att.data)
    && RowAfter(pre, p, att).Ok? && !Supermajority(RowAfter(pre, p, att).value, pre.validators)
    && q == p.(votes := p.votes[att.data.target.root := RowAfter(pre, p, att).value])
  }

  /** The attestation completes a supermajority for its target. */
  ghost predicate Justifies(pre: State, p: Progress, att: AggregatedAttestation) {
    && Countable(pre, p, att.data)
    && RowAfter(pre, p, att).Ok? && Supermajority(RowAfter(pre, p, att).value, pre.validators)
  }

  /** The progress after the target is marked, before finality is considered. */
  ghost function AfterMark(p: Progress, target: Checkpoint): Progress
    requires p.finalized.slot < target.slot <= Horizon(p.window, p.finalized.slot)
  {
    p.(justified := target,
       window := WithJustified(p.window, p.finalized.slot, target.slot, true).value,
       votes := p.votes - {target.root})
  }

  lemma StepCases(pre: State, index: map<Root, Slot>, p: Progress, att: AggregatedAttestation)
    requires Step(pre, index, p, att).Ok?
    ensures var q := Step(pre, index, p, att).value;
            Skipped(pre, p, att, q) || Recorded(pre, p, att, q) ||
            (Justifies(pre, p, att) && Step(pre, index, p, att) == Justify(pre, index, p, att.data.source, att.data.target))
  {
    CountedExact(pre, p, att.data);
  }

  /** The two ways in which a justification can succeed. */
  lemma JustifyCases(pre: State, index: map<Root, Slot>, p: Progress, att: AggregatedAttestation)
    requires Guarded(pre.finalized.slot, p) && Justifies(pre, p, att)
    requires Justify(pre, index, p, att.data.source, att.data.target).Ok?
    ensures var source, target := att.data.source, att.data.target;
            var q := Justify(pre, index, p, source, target).value;
            var m := AfterMark(p, target);
            || q == m
            || (&& p.finalized.slot <= source.slot
                && NextJustifiable(pre.finalized.slot, source.slot, target.slot)
                && Finalize(index, m, source) == Ok(q))
  {
    var source, target := att.data.source, att.data.target;
    var base := pre.finalized.slot;
    AnyJustifiableExact(source.slot + 1, target.slot, base);
    if !AnyJustifiable(source.slot + 1, target.slot, base).value {
      if source.slot < p.finalized.slot {
        var k := OldSourceIsBlocked(pre, p, att.data);
        assert false;
      }
      assert NextJustifiable(base, source.slot, target.slot) by {
        forall k | source.slot < k < target.slot ensures !JustifiableAfter(k, base) {}
      }
    }
  }

  lemma JustifyKeepsGuard(pre: State, index: map<Root, Slot>, p: Progress, att: AggregatedAttestation)
    requires Guarded(pre.finalized.slot, p) && Justifies(pre, p, att)
    requires Justify(pre, index, p, att.data.source, att.data.target).Ok?
    ensures var q := Justify(pre, index, p, att.data.source, att.data.target).value;
            Guarded(pre.finalized.slot, q) && p.finalized.slot <= q.finalized.slot
  {
    hide JustifiableAfter, Justify;
    var base, f := pre.finalized.slot, p.finalized.slot;
    var source, target := att.data.source, att.data.target;
    var q, m := Justify(pre, index, p, source, target).value, AfterMark(p, target);
    JustifyCases(pre, index, p, att);
    if q == m {
      if base < f {
        var next :| NextJustifiable(base, f, next) && Marked(p.window, f, next);
        MarkRefinesSet(p.window, f, target.slot, next);
      }
    } else {
      MarkRefinesSet(p.window, f, target.slot, target.slot);
      if f < source.slot { ShiftRefinesSet(m.window, f, source.slot - f, target.slot); }
      assert NextJustifiable(base, q.finalized.slot, target.slot) && Marked(q.window, q.finalized.slot, target.slot);
    }
  }

  /** One attestation keeps the guard and never lowers finality. */
  lemma StepKeepsGuard(pre: State, index: map<Root, Slot>, p: Progress, att: AggregatedAttestation)
    requires Guarded(pre.finalized.slot, p) && Step(pre, index, p, att).Ok?
    ensures Guarded(pre.finalized.slot, Step(pre, index, p, att).value)
    ensures p.finalized.slot <= Step(pre, index, p, att).value.finalized.slot
  {
    hide Step, Justify, Justifies, NextJustifiable, Countable, Counted;
    StepCases(pre, index, p, att);
    if Justifies(pre, p, att) && Step(pre, index, p, att) == Justify(pre, index, p, att.data.source, att.data.target) {
      JustifyKeepsGuard(pre, index, p, att);
    }
  }

  lemma {:induction false} RunKeepsGuard(pre: State, index: map<Root, Slot>, p: Progress, atts: seq<AggregatedAttestation>)
    requires Guarded(pre.finalized.slot, p) && Run(pre, index, p, atts).Ok?
    ensures Guarded(pre.finalized.slot, Run(pre, index, p, atts).value)
    ensures p.finalized.slot <= Run(pre, index, p, atts).value.finalized.slot
    decreases |atts|
  {
    if atts != [] {
      RunKeepsGuard(pre, index, p, atts[..|atts| - 1]);
      StepKeepsGuard(pre, index, Run(pre, index, p, atts[..|atts| - 1]).value, atts[|atts| - 1]);
    }
  }

  /** Which later slots are justified after a completed supermajority. */
  lemma JustificationMarks(pre: State, index: map<Root, Slot>, p: Progress, att: AggregatedAttestation, slot: Slot)
    requires Guarded(pre.finalized.slot, p) && Justifies(pre, p, att)
    requires Justify(pre, index, p, att.data.source, att.data.target).Ok?
    requires slot > Justify(pre, index, p, att.data.source, att.data.target).value.finalized.slot
    ensures var q := Justify(pre, index, p, att.data.source, att.data.target).value;
            Marked(q.window, q.finalized.slot, slot) <==> Marked(p.window, p.finalized.slot, slot) || slot == att.data.target.slot
  {
    hide JustifiableAfter, Justify;
    var source, target := att.data.source, att.data.target;
    var m := AfterMark(p, target);
    JustifyCases(pre, index, p, att);
    MarkRefinesSet(p.window, p.finalized.slot, target.slot, slot);
    if Justify(pre, index, p, source, target).value != m && p.finalized.slot < source.slot {
      ShiftRefinesSet(m.window, p.finalized.slot, source.slot - p.finalized.slot, slot);
    }
  }

  /** Which source, if any, a completed supermajority finalizes, and which tallies go. */
  lemma JustificationCheckpoints(pre: State, index: map<Root, Slot>, p: Progress, att: AggregatedAttestation)
    requires Guarded(pre.finalized.slot, p) && Justifies(pre, p, att)
    requires Justify(pre, index, p, att.data.source, att.data.target).Ok?
    ensures var source, target := att.data.source, att.data.target;
            var q := Justify(pre, index, p, source, target).value;
            && q.justified == target
            && q.finalized == (if NextJustifiable(pre.finalized.slot, source.slot, target.slot) then source else p.finalized)
            && target.root !in q.votes && q.votes.Keys <= p.votes.Keys
  {
    hide JustifiableAfter;
    var source, target := att.data.source, att.data.target;
    AnyJustifiableExact(source.slot + 1, target.slot, pre.finalized.slot);
    if NextJustifiable(pre.finalized.slot, source.slot, target.slot) {
      assert !AnyJustifiable(source.slot + 1, target.slot, pre.finalized.slot).value;
    } else {
      assert AnyJustifiable(source.slot + 1, target.slot, pre.finalized.slot).value;
    }
  }

  /** Everything that a completed supermajority does to the checkpoints and the window: the
      target becomes the justified checkpoint and the only newly justified slot, and its
      source is finalized exactly when no slot between the two could still be justified. */
  lemma JustificationExact(pre: State, index: map<Root, Slot>, p: Progress, att: AggregatedAttestation)
    requires Guarded(pre.finalized.slot, p) && Justifies(pre, p, att) && Step(pre, index, p, att).Ok?
    ensures var q, source, target := Step(pre, index, p, att).value, att.data.source, att.data.target;
            && q.justified == target
            && q.finalized == (if NextJustifiable(pre.finalized.slot, source.slot, target.slot) then source else p.finalized)
            && target.root !in q.votes && q.votes.Keys <= p.votes.Keys
            && forall slot: Slot :: slot > q.finalized.slot ==>
                 (Marked(q.window, q.finalized.slot, slot) <==> Marked(p.window, p.finalized.slot, slot) || slot == target.slot)
  {
    hide Justify, Marked, NextJustifiable, Counted, Countable;
    var q, target := Step(pre, index, p, att).value, att.data.target;
    JustifyingStep(pre, index, p, att);
    JustificationCheckpoints(pre, index, p, att);
    forall slot: Slot | slot > q.finalized.slot
      ensures Marked(q.window, q.finalized.slot, slot) <==> Marked(p.window, p.finalized.slot, slot) || slot == target.slot
    {
      JustificationMarks(pre, index, p, att, slot);
    }
  }

  lemma JustifyingStep(pre: State, index: map<Root, Slot>, p: Progress, att: AggregatedAttestation)
    requires Justifies(pre, p, att)
    ensures Step(pre, index, p, att) == Justify(pre, index, p, att.data.source, att.data.target)
  {
    CountedExact(pre, p, att.data);
  }

  /** Nothing else touches the checkpoints or the window. */
  lemma OnlySupermajoritiesJustify(pre: State, index: map<Root, Slot>, p: Progress, att: AggregatedAttestation)
    requires Step(pre, index, p, att).Ok? && !Justifies(pre, p, att)
    ensures var q := Step(pre, index, p, att).value;
            q.justified == p.justified && q.finalized == p.finalized && q.window == p.window && p.votes.Keys <= q.votes.Keys
  {
    StepCases(pre, index, p, att);
  }

  /** Finality never regresses: this holds of every state, reachable or not, and of every
      list of attestations that the loop gets through. */
  lemma FinalityNeverRegresses(pre: State, atts: seq<AggregatedAttestation>)
    requires AfterAttestations(pre, atts).Ok?
    ensures pre.finalized.slot <= AfterAttestations(pre, atts).value.finalized.slot
  {
    var votes := Unflatten(pre.tallyRoots, pre.tallyBits, pre.validators).value;
    RunKeepsGuard(pre, IndexFor(pre), Start(pre, votes), atts);
  }

  lemma RowPanicsExactly(pre: State, p: Progress, att: AggregatedAttestation)
    ensures RowAfter(pre, p, att).Panic? <==> Members(att.bits) == {}
    ensures RowAfter(pre, p, att).Panic? ==> RowAfter(pre, p, att).fault == NoParticipants
  {
    IndicesAreMembers(att.bits);
    SetAllAddsMembers(RowBefore(pre, p, att.data.target.root), Indices(att.bits));
  }

  lemma JustifyPanicsExactly(pre: State, index: map<Root, Slot>, p: Progress, att: AggregatedAttestation)
    requires Guarded(pre.finalized.slot, p) && Justifies(pre, p, att)
    ensures Justify(pre, index, p, att.data.source, att.data.target).Panic? <==>
            att.data.source.slot + 1 < pre.finalized.slot
    ensures Justify(pre, index, p, att.data.source, att.data.target).Panic? ==>
              Justify(pre, index, p, att.data.source, att.data.target).fault == BeforeFinalized
  {
    hide JustifiableAfter, AnyJustifiable, NextJustifiable;
    var source, target := att.data.source, att.data.target;
    AnyJustifiableExact(source.slot + 1, target.slot, pre.finalized.slot);
    MarkRefinesSet(p.window, p.finalized.slot, target.slot, source.slot);
  }

  /** A counted attestation names no participant, or it completes a supermajority although
      its source lies two or more slots before the finalized slot of the block's starting
      state. */
  ghost predicate PanicsOn(pre: State, p: Progress, att: AggregatedAttestation) {
    && Countable(pre, p, att.data)
    && (Members(att.bits) == {} || (Justifies(pre, p, att) && att.data.source.slot + 1 < pre.finalized.slot))
  }

  /** Exactly when an attestation trips an assertion instead of finishing, and which one. */
  lemma StepPanicsExactly(pre: State, index: map<Root, Slot>, p: Progress, att: AggregatedAttestation)
    requires Guarded(pre.finalized.slot, p)
    ensures Step(pre, index, p, att).Panic? <==> PanicsOn(pre, p, att)
    ensures Step(pre, index, p, att).Panic? ==>
              Step(pre, index, p, att).fault == if Members(att.bits) == {} then NoParticipants else BeforeFinalized
  {
    CountedExact(pre, p, att.data);
    CountedNeverPanics(pre, p, att.data);
    RowPanicsExactly(pre, p, att);
    if Justifies(pre, p, att) { JustifyPanicsExactly(pre, index, p, att); }
  }

  /** The target of an attestation that gets as far as the justifiability test lies after
      the current finalized slot, so that test cannot trip the assertion. */
  lemma CountedNeverPanics(pre: State, p: Progress, data: AttestationData)
    requires pre.finalized.slot <= p.finalized.slot
    ensures !Counted(pre, p, data).Panic?
  {
  }
}
