/** What a validator votes for: target selection and the votes it signs. */
module Duties {
  import opened Containers
  import opened Slots
  import opened BlockTree
  import opened StateTransitions
  import opened StoreModel
  import opened Chain
  import opened Arrivals
  import opened Runs
  import opened StoreFacts
  import opened ForkChoiceStore

  const JUSTIFICATION_LOOKBACK_SLOTS: nat := 3

  /** The first loop of `get_attestation_target`: up to `steps` parents back while the block
      is later than the safe target. */
  function WalkBack(blocks: Blocks, target: Root, safeSlot: Slot, steps: nat): Outcome<Root>
    decreases steps
  {
    if steps == 0 then Ok(target)
    else if target !in blocks then Panic(MissingBlock)
    else if blocks[target].slot > safeSlot then WalkBack(blocks, blocks[target].parentRoot, safeSlot, steps - 1)
    else Ok(target)
  }

  /** The second loop: parents back until a slot that may be justified. */
  ghost function NearestJustifiable(blocks: Blocks, target: Root, finalized: Slot): Outcome<Root>
    requires WellFormed(blocks)
    decreases SlotOf(blocks, target), if target in blocks then 1 else 0
  {
    if target !in blocks then Panic(MissingBlock)
    else
      var hit :- IsJustifiableAfter(blocks[target].slot, finalized);
      if hit then Ok(target) else NearestJustifiable(blocks, blocks[target].parentRoot, finalized)
  }

  /** `get_attestation_target`. */
  ghost function TargetOf(s: View): Outcome<Checkpoint>
    requires WellFormed(s.blocks)
  {
    if s.safeTarget !in s.blocks then Panic(MissingBlock)
    else
      var point :- WalkBack(s.blocks, s.head, s.blocks[s.safeTarget].slot, JUSTIFICATION_LOOKBACK_SLOTS);
      var r :- NearestJustifiable(s.blocks, point, s.finalized.slot);
      if r in s.blocks then Ok(Checkpoint(r, s.blocks[r].slot)) else Panic(MissingBlock)
  }

  method GetAttestationTarget(store: Store) returns (out: Outcome<Checkpoint>)
    requires WellFormed(store.blocks)
    ensures out == TargetOf(store.Snapshot())
  {
    if store.safeTarget !in store.blocks { return Panic(MissingBlock); }
    var target := store.head;
    var safeSlot := store.blocks[store.safeTarget].slot;
    var left := JUSTIFICATION_LOOKBACK_SLOTS;
    while left > 0
      invariant WalkBack(store.blocks, store.head, safeSlot, JUSTIFICATION_LOOKBACK_SLOTS) ==
                WalkBack(store.blocks, target, safeSlot, left)
    {
      if target !in store.blocks { return Panic(MissingBlock); }
      if store.blocks[target].slot > safeSlot {
        target := store.blocks[target].parentRoot;
      } else {
        break;
      }
      left := left - 1;
    }
    assert WalkBack(store.blocks, store.head, safeSlot, JUSTIFICATION_LOOKBACK_SLOTS) == Ok(target);
    out := SeekJustifiable(store.blocks, target, store.finalized.slot);
  }

  method SeekJustifiable(blocks: Blocks, point: Root, finalized: Slot) returns (out: Outcome<Checkpoint>)
    requires WellFormed(blocks)
    ensures var r := NearestJustifiable(blocks, point, finalized);
            out == if r.Ok? then (if r.value in blocks then Ok(Checkpoint(r.value, blocks[r.value].slot)) else Panic(MissingBlock))
                   else r.PropagateFailure()
  {
    var target := point;
    while true
      invariant NearestJustifiable(blocks, target, finalized) == NearestJustifiable(blocks, point, finalized)
      decreases SlotOf(blocks, target), if target in blocks then 1 else 0
    {
      if target !in blocks { return Panic(MissingBlock); }
      var hit := IsJustifiableAfter(blocks[target].slot, finalized);
      if hit.IsFailure() { return hit.PropagateFailure(); }
      if hit.value { return Ok(Checkpoint(target, blocks[target].slot)); }
      target := blocks[target].parentRoot;
    }
  }

  /** The vote that every validator of the node casts. */
  ghost function VoteFor(s: View, slot: Slot): Outcome<seq<AttestationData>>
    requires WellFormed(s.blocks)
  {
    var target :- TargetOf(s);
    if target.slot < s.justified.slot || s.head !in s.blocks then Ok([])
    else Ok([AttestationData(slot, Checkpoint(s.head, s.blocks[s.head].slot), target, s.justified)])
  }

  /** The votes of the validators whose key signs, in order. */
  function SignedBy(ids: seq<ValidatorId>, canSign: ValidatorId -> bool, data: AttestationData): seq<Attestation> {
    if ids == [] then []
    else
      var last := ids[|ids| - 1];
      SignedBy(ids[..|ids| - 1], canSign, data) + if canSign(last) then [Attestation(last, data)] else []
  }

  lemma {:induction false} SignedByExact(ids: seq<ValidatorId>, canSign: ValidatorId -> bool, data: AttestationData, a: Attestation)
    ensures a in SignedBy(ids, canSign, data) <==> a.data == data && a.validatorId in ids && canSign(a.validatorId)
    decreases |ids|
  {
    if ids != [] {
      SignedByExact(ids[..|ids| - 1], canSign, data, a);
      assert ids == ids[..|ids| - 1] + [ids[|ids| - 1]];
    }
  }

  /** `create_attestations` as a function. */
  ghost function Created(s: View, slot: Slot, ids: seq<ValidatorId>, canSign: ValidatorId -> bool): Outcome<seq<Attestation>>
    requires WellFormed(s.blocks)
  {
    var vote :- VoteFor(s, slot);
    if vote == [] then Ok([]) else Ok(SignedBy(ids, canSign, vote[0]))
  }

  /** `create_attestations`. */
  method CreateAttestations(store: Store, slot: Slot, ids: seq<ValidatorId>, canSign: ValidatorId -> bool)
    returns (out: Outcome<seq<Attestation>>)
    requires WellFormed(store.blocks)
    ensures out == Created(store.Snapshot(), slot, ids, canSign)
  {
    var target := GetAttestationTarget(store);
    if target.IsFailure() { return target.PropagateFailure(); }
    if target.value.slot < store.justified.slot { return Ok([]); }
    if store.head !in store.blocks { return Ok([]); }
    var data := AttestationData(slot, Checkpoint(store.head, store.blocks[store.head].slot), target.value, store.justified);
    var votes := [];
    for i := 0 to |ids|
      invariant votes == SignedBy(ids[..i], canSign, data)
    {
      assert ids[..i + 1][..i] == ids[..i];
      if canSign(ids[i]) { votes := votes + [Attestation(ids[i], data)]; }
    }
    assert ids[..|ids|] == ids;
    out := Ok(votes);
  }

  lemma {:induction false} NearestIsStored(blocks: Blocks, target: Root, finalized: Slot)
    requires WellFormed(blocks) && NearestJustifiable(blocks, target, finalized).Ok?
    ensures var r := NearestJustifiable(blocks, target, finalized).value;
            && target in blocks && Descends(blocks, target, r) && r in blocks
            && JustifiableAfter(blocks[r].slot, finalized)
            && forall a :: Descends(blocks, target, a) && Descends(blocks, a, r) && a != r ==>
                 !JustifiableAfter(SlotOf(blocks, a), finalized)
    decreases SlotOf(blocks, target), if target in blocks then 1 else 0
  {
    hide JustifiableDistance;
    var parent, r := blocks[target].parentRoot, NearestJustifiable(blocks, target, finalized).value;
    if !JustifiableAfter(blocks[target].slot, finalized) {
      NearestIsStored(blocks, parent, finalized);
      forall a | Descends(blocks, target, a) && Descends(blocks, a, r) && a != r
        ensures !JustifiableAfter(SlotOf(blocks, a), finalized)
      {
        if a != target { assert Descends(blocks, parent, a); }
      }
    } else {
      forall a | Descends(blocks, target, a) && Descends(blocks, a, r) && a != r ensures false {
        DescendsFacts(blocks, target, a);
        DescendsFacts(blocks, a, r);
      }
    }
  }

  lemma VoteIsValid(env: Env, events: seq<Event>, s: View, slot: Slot, data: AttestationData)
    requires IsRun(env, events, s) && slot <= s.time / INTERVALS_PER_SLOT + 1
    requires WellFormed(s.blocks) && VoteFor(s, slot) == Ok([data])
    ensures Validate(s, data) == Ok(())
  {
    hide NearestJustifiable, WalkBack;
    RunCheckpointsGreatest(env, events, s);
    DescendsFacts(s.blocks, s.head, s.justified.root);
  }

  lemma {:induction false} AllSign(ids: seq<ValidatorId>, canSign: ValidatorId -> bool, data: AttestationData)
    requires forall id :: id in ids ==> canSign(id)
    ensures var votes := SignedBy(ids, canSign, data);
            |votes| == |ids| && forall i :: 0 <= i < |ids| ==> votes[i] == Attestation(ids[i], data)
  {
    if ids != [] {
      var init := ids[..|ids| - 1];
      assert forall id :: id in init ==> id in ids;
      AllSign(init, canSign, data);
    }
  }

  /** What a node votes for, and that it accepts its own votes: in every run, each vote it makes
      for a slot up to the next one names its head, its justified checkpoint as source and the
      target it selects, and passes the checks that it applies to votes from others. A
      validator votes exactly when its key signs and the target is not behind the source. */
  lemma OwnVotesAreValid(env: Env, events: seq<Event>, s: View, slot: Slot, ids: seq<ValidatorId>,
                         canSign: ValidatorId -> bool, votes: seq<Attestation>)
    requires IsRun(env, events, s) && slot <= s.time / INTERVALS_PER_SLOT + 1
    requires WellFormed(s.blocks) && Created(s, slot, ids, canSign) == Ok(votes)
    ensures TargetOf(s).Ok? && s.head in s.blocks
    ensures forall a :: a in votes ==>
              && Validate(s, a.data) == Ok(()) && a.data.slot == slot
              && a.data.head == Checkpoint(s.head, s.blocks[s.head].slot)
              && a.data.source == s.justified && a.data.target == TargetOf(s).value
    ensures forall id :: (exists a :: a in votes && a.validatorId == id) <==>
                         TargetOf(s).value.slot >= s.justified.slot && id in ids && canSign(id)
    ensures TargetOf(s).value.slot >= s.justified.slot && (forall id :: id in ids ==> canSign(id)) ==>
              |votes| == |ids| && forall i :: 0 <= i < |ids| ==> votes[i].validatorId == ids[i]
  {
    hide TargetOf;
    RunCheckpointsGreatest(env, events, s);
    DescendsFacts(s.blocks, s.head, s.justified.root);
    var vote := VoteFor(s, slot).value;
    if vote != [] {
      if forall id :: id in ids ==> canSign(id) { AllSign(ids, canSign, vote[0]); }
      var data := vote[0];
      VoteIsValid(env, events, s, slot, data);
      forall a ensures a in votes <==> a.data == data && a.validatorId in ids && canSign(a.validatorId) {
        SignedByExact(ids, canSign, data, a);
      }
      forall id | id in ids && canSign(id) ensures exists a :: a in votes && a.validatorId == id {
        assert Attestation(id, data) in votes;
      }
    }
  }

  /** k parents back. */
  ghost function Back(blocks: Blocks, r: Root, k: nat): Root
    decreases k
  {
    if k == 0 || r !in blocks then r else Back(blocks, blocks[r].parentRoot, k - 1)
  }

  /** Where the first loop stops when nothing is missing: at most three steps back, and no
      earlier than the first block that is not later than the safe target. */
  lemma {:induction false} WalkBackExact(blocks: Blocks, target: Root, safeSlot: Slot, steps: nat, floor: Root) returns (k: nat)
    requires WellFormed(blocks) && Descends(blocks, target, floor) && SlotOf(blocks, floor) <= safeSlot
    ensures k <= steps && WalkBack(blocks, target, safeSlot, steps) == Ok(Back(blocks, target, k))
    ensures Descends(blocks, target, Back(blocks, target, k)) && Descends(blocks, Back(blocks, target, k), floor)
    ensures k < steps ==> SlotOf(blocks, Back(blocks, target, k)) <= safeSlot
    ensures forall j :: 0 <= j < k ==> SlotOf(blocks, Back(blocks, target, j)) > safeSlot
    decreases steps
  {
    if steps == 0 || blocks[target].slot <= safeSlot {
      k := 0;
    } else {
      var parent := blocks[target].parentRoot;
      var rest := WalkBackExact(blocks, parent, safeSlot, steps - 1, floor);
      k := rest + 1;
      forall j | 0 <= j < k ensures SlotOf(blocks, Back(blocks, target, j)) > safeSlot {
        if j > 0 { assert Back(blocks, target, j) == Back(blocks, parent, j - 1); }
      }
    }
  }

  lemma {:induction false} NearestExists(blocks: Blocks, point: Root, floor: Root)
    requires WellFormed(blocks) && Descends(blocks, point, floor) && floor in blocks
    ensures NearestJustifiable(blocks, point, blocks[floor].slot).Ok?
    ensures Descends(blocks, NearestJustifiable(blocks, point, blocks[floor].slot).value, floor)
    decreases SlotOf(blocks, point)
  {
    hide Isqrt;
    DescendsFacts(blocks, point, floor);
    if point != floor && !JustifiableDistance(blocks[point].slot - blocks[floor].slot) {
      NearestExists(blocks, blocks[point].parentRoot, floor);
    }
  }

  /** Some ancestor of the block, or the block itself, may be justified. */
  ghost predicate HasJustifiable(blocks: Blocks, r: Root, finalized: Slot)
    requires WellFormed(blocks)
  {
    exists a :: Descends(blocks, r, a) && JustifiableAfter(SlotOf(blocks, a), finalized)
  }

  lemma {:induction false} SeekingExactly(blocks: Blocks, point: Root, finalized: Slot, anchor: Root)
    requires WellFormed(blocks) && Descends(blocks, point, anchor) && SlotOf(blocks, anchor) == 0
    ensures NearestJustifiable(blocks, point, finalized).Ok? <==> HasJustifiable(blocks, point, finalized)
    ensures !NearestJustifiable(blocks, point, finalized).Ok? ==>
              NearestJustifiable(blocks, point, finalized) == Panic(BeforeFinalized)
    decreases SlotOf(blocks, point)
  {
    hide Isqrt;
    DescendsFacts(blocks, point, anchor);
    if blocks[point].slot < finalized {
      forall a | Descends(blocks, point, a) ensures !JustifiableAfter(SlotOf(blocks, a), finalized) {
        DescendsFacts(blocks, point, a);
      }
    } else if JustifiableAfter(blocks[point].slot, finalized) {
      assert Descends(blocks, point, point);
    } else {
      SeekingExactly(blocks, blocks[point].parentRoot, finalized, anchor);
      NoneHereMeansEarlier(blocks, point, finalized);
    }
  }

  lemma NoneHereMeansEarlier(blocks: Blocks, point: Root, finalized: Slot)
    requires WellFormed(blocks) && point in blocks && blocks[point].parentRoot in blocks
    requires !JustifiableAfter(blocks[point].slot, finalized)
    ensures HasJustifiable(blocks, point, finalized) <==> HasJustifiable(blocks, blocks[point].parentRoot, finalized)
  {
    hide JustifiableAfter;
    var parent := blocks[point].parentRoot;
    forall a | a != point ensures Descends(blocks, point, a) <==> Descends(blocks, parent, a) {}
    if Descends(blocks, parent, point) { DescendsFacts(blocks, parent, point); }
  }

  /** Target selection in every run: the walk back from the head never leaves the store, the
      search after it succeeds exactly when some ancestor of the block where it stopped, or
      that block itself, may be justified, and otherwise it trips the assertion. */
  lemma TargetExact(env: Env, events: seq<Event>, s: View) returns (k: nat)
    requires IsRun(env, events, s) && WellFormed(s.blocks)
    ensures k <= 3
    ensures k < 3 ==> SlotOf(s.blocks, Back(s.blocks, s.head, k)) <= SlotOf(s.blocks, s.safeTarget)
    ensures forall j :: 0 <= j < k ==> SlotOf(s.blocks, Back(s.blocks, s.head, j)) > SlotOf(s.blocks, s.safeTarget)
    ensures TargetOf(s).Ok? <==> HasJustifiable(s.blocks, Back(s.blocks, s.head, k), s.finalized.slot)
    ensures !TargetOf(s).Ok? ==> TargetOf(s) == Panic(BeforeFinalized)
    ensures TargetOf(s).Ok? ==>
              var target := TargetOf(s).value;
              && target.root in s.blocks && s.blocks[target.root].slot == target.slot
              && Descends(s.blocks, Back(s.blocks, s.head, k), target.root) && JustifiableAfter(target.slot, s.finalized.slot)
  {
    hide JustifiableDistance, WalkBack, NearestJustifiable, Quiet, HasJustifiable, OnlyDelivered, Coherent, Greatest;
    RunCheckpointsGreatest(env, events, s);
    SafeTargetStored(env, events, s);
    RunInv(env, events, s);
    AnchorAtZero(env, s);
    var anchor := env.AnchorRoot();
    DescendsFacts(s.blocks, s.head, s.justified.root);
    EverythingDescendsFromAnchor(env, s, s.head);
    k := WalkBackExact(s.blocks, s.head, s.blocks[s.safeTarget].slot, JUSTIFICATION_LOOKBACK_SLOTS, anchor);
    var point := Back(s.blocks, s.head, k);
    SeekingExactly(s.blocks, point, s.finalized.slot, anchor);
    if NearestJustifiable(s.blocks, point, s.finalized.slot).Ok? { NearestIsStored(s.blocks, point, s.finalized.slot); }
  }

  lemma AnchorAtZero(env: Env, s: View)
    requires Inv(env, s)
    ensures SlotOf(s.blocks, env.AnchorRoot()) == 0
  {
    hide Transition, Reachable;
  }

  /** Target selection in full: if the head descends from the finalized block and the safe
      target is not before it, no lookup fails, and the target is the nearest justifiable
      ancestor of the block that the walk back stops at. */
  lemma TargetIsNearestJustifiable(env: Env, events: seq<Event>, s: View) returns (k: nat)
    requires IsRun(env, events, s) && WellFormed(s.blocks)
    requires Descends(s.blocks, s.head, s.finalized.root) && SlotOf(s.blocks, s.safeTarget) >= s.finalized.slot
    ensures k <= 3 && TargetOf(s).Ok?
    ensures k < 3 ==> SlotOf(s.blocks, Back(s.blocks, s.head, k)) <= SlotOf(s.blocks, s.safeTarget)
    ensures forall j :: 0 <= j < k ==> SlotOf(s.blocks, Back(s.blocks, s.head, j)) > SlotOf(s.blocks, s.safeTarget)
    ensures var point, target := Back(s.blocks, s.head, k), TargetOf(s).value;
            && target.root in s.blocks && s.blocks[target.root].slot == target.slot
            && Descends(s.blocks, point, target.root) && Descends(s.blocks, target.root, s.finalized.root)
            && JustifiableAfter(target.slot, s.finalized.slot)
            && forall a :: Descends(s.blocks, point, a) && Descends(s.blocks, a, target.root) && a != target.root ==>
                 !JustifiableAfter(SlotOf(s.blocks, a), s.finalized.slot)
  {
    hide JustifiableDistance, WalkBack, NearestJustifiable;
    RunCheckpointsGreatest(env, events, s);
    SafeTargetStored(env, events, s);
    k := WalkBackExact(s.blocks, s.head, s.blocks[s.safeTarget].slot, JUSTIFICATION_LOOKBACK_SLOTS, s.finalized.root);
    var point := Back(s.blocks, s.head, k);
    NearestExists(s.blocks, point, s.finalized.root);
    NearestIsStored(s.blocks, point, s.finalized.slot);
  }

  lemma SafeTargetStored(env: Env, events: seq<Event>, s: View)
    requires IsRun(env, events, s)
    ensures s.safeTarget in s.blocks
  {
    hide Transition, Reachable;
    RunInv(env, events, s);
    DescendsFacts(s.blocks, s.safeTarget, env.AnchorRoot());
  }
}
