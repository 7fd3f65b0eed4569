/** The invariants that interlock inside attestation processing: where checkpoints point,
    what the window covers, and what a pending tally looks like. */
module Soundness {
  import opened Containers
  import opened Slots
  import opened Bits
  import opened Window
  import opened Justification
  import opened Finality

  /** Both checkpoints name a block of this chain, at the slot they claim, and the justified
      one is not before the finalized one. */
  ghost predicate CheckpointsSound(history: seq<Root>, p: Progress) {
    && p.finalized.slot <= p.justified.slot < |history|
    && history[p.finalized.slot] == p.finalized.root != ZERO_ROOT
    && history[p.justified.slot] == p.justified.root != ZERO_ROOT
    && Marked(p.window, p.finalized.slot, p.justified.slot)
  }

  /** The window answers for every slot of the history and for no other; only slots that
      hold a block are justified. */
  ghost predicate WindowSound(history: seq<Root>, p: Progress) {
    && Horizon(p.window, p.finalized.slot) == |history| - 1
    && forall slot :: p.finalized.slot < slot < |history| && Marked(p.window, p.finalized.slot, slot)
                      ==> history[slot] != ZERO_ROOT
  }

  /** Some unfinalized slot of the history holds this root. */
  ghost predicate Unfinalized(history: seq<Root>, finalized: Slot, root: Root) {
    exists slot :: finalized < slot < |history| && history[slot] == root
  }

  /** A pending tally is for a block that is not finalized, has one bit per validator, and
      has some votes but no supermajority. */
  ghost predicate TallySound(history: seq<Root>, validators: nat, finalized: Slot, root: Root, row: seq<bool>) {
    && root != ZERO_ROOT && Unfinalized(history, finalized, root)
    && |row| == validators && Members(row) != {} && !Supermajority(row, validators)
  }

  ghost predicate TalliesSound(history: seq<Root>, validators: nat, p: Progress) {
    forall root :: root in p.votes ==> TallySound(history, validators, p.finalized.slot, root, p.votes[root])
  }

  ghost predicate ProgressSound(pre: State, p: Progress) {
    && Guarded(pre.finalized.slot, p)
    && CheckpointsSound(pre.history, p)
    && WindowSound(pre.history, p)
    && TalliesSound(pre.history, pre.validators, p)
  }

  /** `root_to_slot` maps every root after `base` to its last slot. */
  ghost predicate IndexSound(history: seq<Root>, base: Slot, index: map<Root, Slot>) {
    && (forall slot :: base < slot < |history| ==> history[slot] in index)
    && (forall root :: root in index ==> base < index[root] < |history| && history[index[root]] == root)
    && (forall slot :: base < slot < |history| ==> slot <= index[history[slot]])
  }

  lemma {:induction false} SlotIndexSound(history: seq<Root>, base: Slot, end: nat)
    requires end <= |history|
    ensures IndexSound(history[..end], base, SlotIndex(history, base + 1, end))
  {
    if end > base + 1 {
      SlotIndexSound(history, base, end - 1);
      var before, after := history[..end - 1], history[..end];
      assert after == before + [history[end - 1]];
      var index, prior := SlotIndex(history, base + 1, end), SlotIndex(history, base + 1, end - 1);
      forall slot | base < slot < end ensures after[slot] in index && slot <= index[after[slot]] {
        if slot < end - 1 { assert before[slot] == after[slot]; }
      }
      forall root | root in index ensures base < index[root] < end && after[index[root]] == root {
        if root != history[end - 1] { assert before[prior[root]] == after[prior[root]]; }
      }
    }
  }

  lemma IndexForSound(pre: State)
    ensures IndexSound(pre.history, pre.finalized.slot, IndexFor(pre))
  {
    SlotIndexSound(pre.history, pre.finalized.slot, |pre.history|);
    assert pre.history[..|pre.history|] == pre.history;
  }

  /** The row that an attestation leaves behind. */
  lemma RowAfterSound(pre: State, p: Progress, att: AggregatedAttestation)
    requires TalliesSound(pre.history, pre.validators, p)
    requires RowAfter(pre, p, att).Ok?
    ensures |RowAfter(pre, p, att).value| == pre.validators
    ensures Members(RowAfter(pre, p, att).value) == Members(RowBefore(pre, p, att.data.target.root)) + Members(att.bits)
    ensures Members(RowAfter(pre, p, att).value) != {}
  {
    IndicesAreMembers(att.bits);
    SetAllAddsMembers(RowBefore(pre, p, att.data.target.root), Indices(att.bits));
  }

  lemma RecordedKeepsSound(pre: State, p: Progress, att: AggregatedAttestation, q: Progress)
    requires ProgressSound(pre, p) && Recorded(pre, p, att, q)
    ensures ProgressSound(pre, q)
  {
    RowAfterSound(pre, p, att);
    var target := att.data.target;
    assert Unfinalized(pre.history, p.finalized.slot, target.root);
    assert TallySound(pre.history, pre.validators, p.finalized.slot, target.root, q.votes[target.root]);
  }

  lemma MarkKeepsSound(pre: State, p: Progress, att: AggregatedAttestation)
    requires ProgressSound(pre, p) && Justifies(pre, p, att)
    ensures var m := AfterMark(p, att.data.target);
            CheckpointsSound(pre.history, m) && WindowSound(pre.history, m) && TalliesSound(pre.history, pre.validators, m)
  {
    var target, f := att.data.target, p.finalized.slot;
    forall slot: Slot
      ensures Marked(AfterMark(p, target).window, f, slot) <==> Marked(p.window, f, slot) || slot == target.slot
    {
      MarkRefinesSet(p.window, f, target.slot, slot);
    }
    MarkRefinesSet(p.window, f, target.slot, target.slot);
  }

  /** Moving finality forward cannot fail its consistency check and keeps the invariants. */
  lemma FinalizeKeepsSound(pre: State, index: map<Root, Slot>, m: Progress, source: Checkpoint)
    requires CheckpointsSound(pre.history, m) && WindowSound(pre.history, m)
    requires TalliesSound(pre.history, pre.validators, m)
    requires pre.finalized.slot <= m.finalized.slot <= source.slot < m.justified.slot
    requires pre.history[source.slot] == source.root != ZERO_ROOT
    requires IndexSound(pre.history, pre.finalized.slot, index)
    ensures Finalize(index, m, source).Ok?
    ensures var q := Finalize(index, m, source).value;
            CheckpointsSound(pre.history, q) && WindowSound(pre.history, q) && TalliesSound(pre.history, pre.validators, q)
  {
    var f, delta := m.finalized.slot, source.slot - m.finalized.slot;
    if delta > 0 {
      forall root | root in m.votes ensures root in index {
        assert Unfinalized(pre.history, f, root);
      }
      var q := Finalize(index, m, source).value;
      forall slot: Slot
        ensures Marked(q.window, source.slot, slot) <==> Marked(m.window, f, slot) || slot <= source.slot
      {
        ShiftRefinesSet(m.window, f, delta, slot);
      }
      ShiftRefinesSet(m.window, f, delta, m.justified.slot);
      forall root | root in q.votes
        ensures TallySound(pre.history, pre.validators, source.slot, root, q.votes[root])
      {
        assert TallySound(pre.history, pre.validators, f, root, m.votes[root]);
        assert source.slot < index[root] < |pre.history| && pre.history[index[root]] == root;
      }
    }
  }

  /** One attestation keeps every invariant. */
  lemma StepKeepsSound(pre: State, index: map<Root, Slot>, p: Progress, att: AggregatedAttestation)
    requires ProgressSound(pre, p) && IndexSound(pre.history, pre.finalized.slot, index)
    requires Step(pre, index, p, att).Ok?
    ensures ProgressSound(pre, Step(pre, index, p, att).value)
  {
    var q := Step(pre, index, p, att).value;
    StepKeepsGuard(pre, index, p, att);
    StepCases(pre, index, p, att);
    if Recorded(pre, p, att, q) {
      RecordedKeepsSound(pre, p, att, q);
    } else if !Skipped(pre, p, att, q) {
      JustifyCases(pre, index, p, att);
      MarkKeepsSound(pre, p, att);
      var m := AfterMark(p, att.data.target);
      if q != m { FinalizeKeepsSound(pre, index, m, att.data.source); }
    }
  }

  lemma {:induction false} RunKeepsSound(pre: State, index: map<Root, Slot>, p: Progress, atts: seq<AggregatedAttestation>)
    requires ProgressSound(pre, p) && IndexSound(pre.history, pre.finalized.slot, index)
    requires Run(pre, index, p, atts).Ok?
    ensures ProgressSound(pre, Run(pre, index, p, atts).value)
    decreases |atts|
  {
    if atts != [] {
      RunKeepsSound(pre, index, p, atts[..|atts| - 1]);
      StepKeepsSound(pre, index, Run(pre, index, p, atts[..|atts| - 1]).value, atts[|atts| - 1]);
    }
  }

  /** When one attestation makes the whole block fail: it speaks of a slot that the chain
      has not reached, or of a validator that does not exist. */
  ghost predicate Unanswerable(pre: State, p: Progress, att: AggregatedAttestation) {
    || att.data.source.slot >= |pre.history|
    || (Marked(p.window, p.finalized.slot, att.data.source.slot) && att.data.target.slot >= |pre.history|)
    || (Countable(pre, p, att.data) && exists id :: id in Members(att.bits) && id >= pre.validators)
  }

  lemma CountedFailsExactly(pre: State, p: Progress, data: AttestationData)
    requires WindowSound(pre.history, p)
    ensures Counted(pre, p, data).Err? <==>
            || data.source.slot >= |pre.history|
            || (Marked(p.window, p.finalized.slot, data.source.slot) && data.target.slot >= |pre.history|)
    ensures Counted(pre, p, data).Err? ==> Counted(pre, p, data).error == OutsideWindow
  {
    hide IsSlotJustified;
    LookupRefinesSet(p.window, p.finalized.slot, data.source.slot);
    LookupRefinesSet(p.window, p.finalized.slot, data.target.slot);
  }

  lemma RowFailsExactly(pre: State, p: Progress, att: AggregatedAttestation)
    requires TalliesSound(pre.history, pre.validators, p)
    ensures RowAfter(pre, p, att).Err? <==> exists id :: id in Members(att.bits) && id >= pre.validators
    ensures RowAfter(pre, p, att).Err? ==> RowAfter(pre, p, att).error == ValidatorOutOfRange
  {
    IndicesAreMembers(att.bits);
    var ids := Indices(att.bits);
    assert forall id :: id in ids <==> id in Elements(ids);
    SetAllAddsMembers(RowBefore(pre, p, att.data.target.root), ids);
  }

  /** Exactly when an attestation is an error, and which one. The checks that guard the
      bookkeeping (a root without a slot, a slot outside the history) never fire. */
  lemma StepFailsExactly(pre: State, index: map<Root, Slot>, p: Progress, att: AggregatedAttestation)
    requires ProgressSound(pre, p) && IndexSound(pre.history, pre.finalized.slot, index)
    ensures Step(pre, index, p, att).Err? <==> Unanswerable(pre, p, att)
    ensures Step(pre, index, p, att).Err? ==> Step(pre, index, p, att).error in {OutsideWindow, ValidatorOutOfRange}
  {
    CountedFailsExactly(pre, p, att.data);
    CountedExact(pre, p, att.data);
    CountedNeverPanics(pre, p, att.data);
    RowFailsExactly(pre, p, att);
    if Justifies(pre, p, att) { JustifyNeverFails(pre, index, p, att); }
  }

  lemma JustifyNeverFails(pre: State, index: map<Root, Slot>, p: Progress, att: AggregatedAttestation)
    requires ProgressSound(pre, p) && IndexSound(pre.history, pre.finalized.slot, index)
    requires Justifies(pre, p, att)
    ensures !Justify(pre, index, p, att.data.source, att.data.target).Err?
  {
    hide JustifiableAfter, AnyJustifiable, TallySound, Unfinalized;
    var source, target := att.data.source, att.data.target;
    MarkRefinesSet(p.window, p.finalized.slot, target.slot, target.slot);
    AnyJustifiableExact(source.slot + 1, target.slot, pre.finalized.slot);
    var m := AfterMark(p, target);
    MarkKeepsSound(pre, p, att);
    if source.slot > p.finalized.slot {
      FinalizeKeepsSound(pre, index, m, source);
    }
  }
}
