/** Attestation processing: tally votes, justify targets, finalize sources, slide the
    window and prune the tallies. The functions say what one attestation does; the
    method runs the loops and is proved to compute the same. */
module Justification {
  import opened Containers
  import opened Slots
  import opened Bits
  import opened Window
  import opened Tallies

  /** The variables carried from one attestation to the next. */
  datatype Progress = Progress(
    justified: Checkpoint, finalized: Checkpoint, window: seq<bool>, votes: Tallies)

  /** `root_to_slot`: the last slot below `end` at which each root of the history occurs,
      leaving out the slots before `start`. */
  function SlotIndex(history: seq<Root>, start: nat, end: nat): map<Root, Slot>
    requires end <= |history|
  {
    if end <= start then map[]
    else SlotIndex(history, start, end - 1)[history[end - 1] := end - 1]
  }

  /** Whether the votes of an attestation are tallied at all. */
  function Counted(pre: State, p: Progress, data: AttestationData): Outcome<bool> {
    var source, target := data.source, data.target;
    var sourceJustified :- IsSlotJustified(p.window, p.finalized.slot, source.slot);
    if !sourceJustified then Ok(false) else
    var targetJustified :- IsSlotJustified(p.window, p.finalized.slot, target.slot);
    if targetJustified then Ok(false)
    else if source.root == ZERO_ROOT || target.root == ZERO_ROOT then Ok(false)
    else if source.slot >= |pre.history| then Err(OutsideHistory)
    else if source.root != pre.history[source.slot] then Ok(false)
    else if target.slot >= |pre.history| then Err(OutsideHistory)
    else if target.root != pre.history[target.slot] then Ok(false)
    else if target.slot <= source.slot then Ok(false)
    else IsJustifiableAfter(target.slot, pre.finalized.slot)
  }

  /** The row of the target root before this attestation. */
  function RowBefore(pre: State, p: Progress, target: Root): seq<bool> {
    if target in p.votes then p.votes[target] else Zeros(pre.validators)
  }

  /** The row of the target root once the participants of the attestation are added. */
  function RowAfter(pre: State, p: Progress, att: AggregatedAttestation): Outcome<seq<bool>> {
    var ids :- ToValidatorIndices(att.bits);
    SetAll(RowBefore(pre, p, att.data.target.root), ids)
  }

  predicate Supermajority(row: seq<bool>, validators: nat) {
    3 * Count(row) >= 2 * validators
  }

  /** `(from..end).any(is_justifiable_after)`, stopping at the first hit or panic. */
  function AnyJustifiable(from: Slot, end: Slot, finalized: Slot): Outcome<bool>
    decreases end - from
  {
    if from >= end then Ok(false)
    else
      var hit :- IsJustifiableAfter(from, finalized);
      if hit then Ok(true) else AnyJustifiable(from + 1, end, finalized)
  }

  /** Move finality to `source`, sliding the window and dropping finalized tallies. */
  function Finalize(index: map<Root, Slot>, p: Progress, source: Checkpoint): Outcome<Progress> {
    if source.slot <= p.finalized.slot then Ok(p.(finalized := source))
    else
      var window :- ShiftWindow(p.window, source.slot - p.finalized.slot);
      if exists r :: r in p.votes && r !in index then Err(TallyWithoutSlot)
      else
        Ok(p.(finalized := source, window := window,
              votes := map r | r in p.votes && index[r] > source.slot :: p.votes[r]))
  }

  /** The target has its supermajority: mark it, drop its tally, and finalize the source
      unless some slot in between could still be justified. */
  function Justify(pre: State, index: map<Root, Slot>, p: Progress,
                   source: Checkpoint, target: Checkpoint): Outcome<Progress>
  {
    var window :- WithJustified(p.window, p.finalized.slot, target.slot, true);
    var blocked :- AnyJustifiable(source.slot + 1, target.slot, pre.finalized.slot);
    var q := p.(justified := target, window := window, votes := p.votes - {target.root});
    if blocked then Ok(q) else Finalize(index, q, source)
  }

  /** What one attestation does. */
  function Step(pre: State, index: map<Root, Slot>, p: Progress, att: AggregatedAttestation): Outcome<Progress> {
    var counted :- Counted(pre, p, att.data);
    if !counted then Ok(p)
    else
      var row :- RowAfter(pre, p, att);
      if Supermajority(row, pre.validators) then Justify(pre, index, p, att.data.source, att.data.target)
      else Ok(p.(votes := p.votes[att.data.target.root := row]))
  }

  /** What a list of attestations does, in order. */
  function Run(pre: State, index: map<Root, Slot>, p: Progress, atts: seq<AggregatedAttestation>): Outcome<Progress>
    decreases |atts|
  {
    if atts == [] then Ok(p)
    else
      var q :- Run(pre, index, p, atts[..|atts| - 1]);
      Step(pre, index, q, atts[|atts| - 1])
  }

  function Start(pre: State, votes: Tallies): Progress {
    Progress(pre.justified, pre.finalized, pre.window, votes)
  }

  function IndexFor(pre: State): map<Root, Slot> {
    SlotIndex(pre.history, pre.finalized.slot + 1, |pre.history|)
  }

  /** The state written back when the loop ends. */
  ghost function WriteBack(pre: State, p: Progress): State {
    pre.(justified := p.justified, finalized := p.finalized, window := p.window,
         tallyRoots := Listing(p.votes.Keys), tallyBits := FlattenSorted(p.votes))
  }

  /** `process_attestations` as a function. */
  ghost function AfterAttestations(pre: State, atts: seq<AggregatedAttestation>): Outcome<State> {
    if ZERO_ROOT in pre.tallyRoots then Err(ZeroTallyRoot)
    else
      var votes :- Unflatten(pre.tallyRoots, pre.tallyBits, pre.validators);
      var p :- Run(pre, IndexFor(pre), Start(pre, votes), atts);
      Ok(WriteBack(pre, p))
  }

  // The loops.

  /** Build `root_to_slot`, keeping the greater slot when a root occurs again. */
  method IndexSlots(history: seq<Root>, start: nat) returns (index: map<Root, Slot>)
    ensures index == SlotIndex(history, start, |history|)
  {
    index := map[];
    var i := start;
    while i < |history|
      invariant start <= i && (i <= |history| || i == start)
      invariant index == SlotIndex(history, start, if i <= |history| then i else |history|)
      invariant forall r :: r in index ==> index[r] < i
    {
      var root := history[i];
      if root in index {
        if i > index[root] { index := index[root := i]; }
      } else {
        index := index[root := i];
      }
      i := i + 1;
    }
  }

  /** Set one vote bit after the other. */
  method CastVotes(row: seq<bool>, ids: seq<ValidatorId>) returns (out: Outcome<seq<bool>>)
    ensures out == SetAll(row, ids)
  {
    var votes := row;
    for i := 0 to |ids|
      invariant SetAll(row, ids[..i]) == Ok(votes)
    {
      assert ids[..i + 1][..i] == ids[..i];
      if ids[i] >= |votes| {
        SetAllStopsEarly(row, ids, i + 1);
        return Err(ValidatorOutOfRange);
      }
      votes := votes[ids[i] := true];
    }
    assert ids[..|ids|] == ids;
    out := Ok(votes);
  }

  lemma {:induction false} SetAllStopsEarly(row: seq<bool>, ids: seq<ValidatorId>, k: nat)
    requires k <= |ids| && !SetAll(row, ids[..k]).Ok?
    ensures SetAll(row, ids) == SetAll(row, ids[..k])
    decreases |ids|
  {
    if k == |ids| {
      assert ids[..k] == ids;
    } else {
      assert ids[..|ids| - 1][..k] == ids[..k];
      SetAllStopsEarly(row, ids[..|ids| - 1], k);
    }
  }

  /** Look for a justifiable slot between source and target. */
  method ScanForJustifiable(from: Slot, end: Slot, finalized: Slot) returns (out: Outcome<bool>)
    ensures out == AnyJustifiable(from, end, finalized)
  {
    var slot := from;
    while slot < end
      invariant from <= slot
      invariant AnyJustifiable(from, end, finalized) == AnyJustifiable(slot, end, finalized)
    {
      var hit := IsJustifiableAfter(slot, finalized);
      if hit.IsFailure() { return hit; }
      if hit.value { return Ok(true); }
      slot := slot + 1;
    }
    out := Ok(false);
  }

  lemma {:induction false} RunStopsEarly(pre: State, index: map<Root, Slot>, p: Progress,
                                         atts: seq<AggregatedAttestation>, k: nat)
    requires k <= |atts| && !Run(pre, index, p, atts[..k]).Ok?
    ensures Run(pre, index, p, atts) == Run(pre, index, p, atts[..k])
    decreases |atts|
  {
    if k == |atts| {
      assert atts[..k] == atts;
    } else {
      assert atts[..|atts| - 1][..k] == atts[..k];
      RunStopsEarly(pre, index, p, atts[..|atts| - 1], k);
    }
  }

  /** The body of the `if 3 * count >= 2 * n` branch. */
  method JustifyTarget(pre: State, index: map<Root, Slot>, p: Progress,
                       source: Checkpoint, target: Checkpoint) returns (out: Outcome<Progress>)
    ensures out == Justify(pre, index, p, source, target)
  {
    var marked := WithJustified(p.window, p.finalized.slot, target.slot, true);
    if marked.IsFailure() { return marked.PropagateFailure(); }
    var blocked := ScanForJustifiable(source.slot + 1, target.slot, pre.finalized.slot);
    if blocked.IsFailure() { return blocked.PropagateFailure(); }
    var q := p.(justified := target, window := marked.value, votes := p.votes - {target.root});
    if blocked.value { return Ok(q); }
    if source.slot <= p.finalized.slot { return Ok(q.(finalized := source)); }
    var shifted := ShiftWindowByCopying(q.window, source.slot - q.finalized.slot);
    if shifted.IsFailure() { return shifted.PropagateFailure(); }
    if exists r :: r in q.votes && r !in index { return Err(TallyWithoutSlot); }
    out := Ok(q.(finalized := source, window := shifted.value,
                 votes := map r | r in q.votes && index[r] > source.slot :: q.votes[r]));
  }

  /** `process_attestations`. */
  method ProcessAttestations(pre: State, atts: seq<AggregatedAttestation>) returns (out: Outcome<State>)
    ensures out == AfterAttestations(pre, atts)
  {
    if ZERO_ROOT in pre.tallyRoots { return Err(ZeroTallyRoot); }
    var read := Unflatten(pre.tallyRoots, pre.tallyBits, pre.validators);
    if read.IsFailure() { return read.PropagateFailure(); }
    var index := IndexSlots(pre.history, pre.finalized.slot + 1);
    var loop := ProcessEach(pre, index, Start(pre, read.value), atts);
    if loop.IsFailure() { return loop.PropagateFailure(); }
    var p := loop.value;
    var roots := SortRoots(p.votes.Keys);
    ListingIsSorted(p.votes.Keys);
    assert forall r :: r in roots ==> r in Elements(roots);
    var bits := ConcatRows(roots, p.votes);
    out := Ok(pre.(justified := p.justified, finalized := p.finalized, window := p.window,
                   tallyRoots := roots, tallyBits := bits));
  }

  method ConcatRows(roots: seq<Root>, votes: Tallies) returns (bits: seq<bool>)
    requires forall r :: r in roots ==> r in votes
    ensures bits == Flatten(roots, votes)
  {
    bits := [];
    for i := 0 to |roots|
      invariant bits == Flatten(roots[..i], votes)
    {
      assert roots[..i + 1][..i] == roots[..i];
      bits := bits + votes[roots[i]];
    }
    assert roots[..|roots|] == roots;
  }

  /** The loop over the attestations of the block. */
  method ProcessEach(pre: State, index: map<Root, Slot>, start: Progress, atts: seq<AggregatedAttestation>)
    returns (out: Outcome<Progress>)
    ensures out == Run(pre, index, start, atts)
  {
    var p := start;
    for i := 0 to |atts|
      invariant Run(pre, index, start, atts[..i]) == Ok(p)
    {
      assert atts[..i + 1][..i] == atts[..i];
      var step := ProcessOne(pre, index, p, atts[i]);
      if step.IsFailure() {
        RunStopsEarly(pre, index, start, atts, i + 1);
        return step;
      }
      p := step.value;
    }
    assert atts[..|atts|] == atts;
    out := Ok(p);
  }

  method ProcessOne(pre: State, index: map<Root, Slot>, p: Progress, att: AggregatedAttestation)
    returns (out: Outcome<Progress>)
    ensures out == Step(pre, index, p, att)
  {
    var counted := Counted(pre, p, att.data);
    if counted.IsFailure() { return counted.PropagateFailure(); }
    if !counted.value { return Ok(p); }
    var target := att.data.target;
    var votes := p.votes;
    if target.root !in votes { votes := votes[target.root := Zeros(pre.validators)]; }
    var ids := ToValidatorIndices(att.bits);
    if ids.IsFailure() { return ids.PropagateFailure(); }
    var row := CastVotes(votes[target.root], ids.value);
    if row.IsFailure() { return row.PropagateFailure(); }
    votes := votes[target.root := row.value];
    assert votes == p.votes[target.root := row.value];
    if 3 * Count(row.value) >= 2 * pre.validators {
      assert p.(votes := votes).votes - {target.root} == p.votes - {target.root};
      out := JustifyTarget(pre, index, p.(votes := votes), att.data.source, target);
    } else {
      out := Ok(p.(votes := votes));
    }
  }
}
