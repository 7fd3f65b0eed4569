/** The sliding bit window of justified slots. Bit i answers for the slot i + 1 after the
    finalized one; everything up to the finalized slot counts as justified. */
module Window {
  import opened Containers
  import opened Slots
  import opened Bits

  function IsSlotJustified(window: seq<bool>, finalized: Slot, slot: Slot): Outcome<bool> {
    var index := JustifiedIndexAfter(slot, finalized);
    if index < 0 then Ok(true)
    else if index < |window| then Ok(window[index])
    else Err(OutsideWindow)
  }

  function WithJustified(window: seq<bool>, finalized: Slot, slot: Slot, value: bool): Outcome<seq<bool>> {
    var index := JustifiedIndexAfter(slot, finalized);
    if index < 0 then Ok(window)
    else if index < |window| then Ok(window[index := value])
    else Err(OutsideWindow)
  }

  function ShiftWindow(window: seq<bool>, delta: nat): Outcome<seq<bool>> {
    if delta <= |window| then Ok(window[delta..]) else Panic(ShiftOutOfBounds)
  }

  function ExtendToSlot(window: seq<bool>, finalized: Slot, slot: Slot): seq<bool> {
    var capacity := JustifiedIndexAfter(slot, finalized) + 1;
    if capacity <= 0 || capacity < |window| then window
    else window + Zeros(capacity - |window|)
  }

  /** `shift_window` copies the tail bit by bit into a fresh list. */
  method ShiftWindowByCopying(window: seq<bool>, delta: nat) returns (out: Outcome<seq<bool>>)
    ensures out == ShiftWindow(window, delta)
  {
    if delta == 0 {
      assert window[0..] == window;
      return Ok(window);
    }
    if delta > |window| { return Panic(ShiftOutOfBounds); }
    var bits := window[delta..];
    var output := Zeros(|bits|);
    for i := 0 to |bits|
      invariant |output| == |bits|
      invariant output[..i] == bits[..i]
    {
      output := output[i := bits[i]];
    }
    assert output == bits;
    out := Ok(output);
  }

  /** `extend_to_slot` copies the old bits into a longer list that starts all false. */
  method ExtendToSlotByCopying(window: seq<bool>, finalized: Slot, slot: Slot) returns (out: seq<bool>)
    ensures out == ExtendToSlot(window, finalized, slot)
  {
    var index := JustifiedIndexAfter(slot, finalized);
    if index < 0 { return window; }
    var capacity := index + 1;
    if capacity < |window| { return window; }
    out := Zeros(capacity);
    for i := 0 to |window|
      invariant |out| == capacity
      invariant out[..i] == window[..i]
      invariant forall k :: i <= k < capacity ==> !out[k]
    {
      out := out[i := window[i]];
    }
    assert out == window + Zeros(capacity - |window|);
  }

  // What the window means: a set of absolute slots and the range it can answer for.

  /** The slot is justified: it is finalized, or its bit is set. */
  ghost predicate Marked(window: seq<bool>, finalized: Slot, slot: Slot) {
    slot <= finalized || (slot - finalized - 1 < |window| && window[slot - finalized - 1])
  }

  /** The last slot that the window can answer for. */
  function Horizon(window: seq<bool>, finalized: Slot): Slot {
    finalized + |window|
  }

  /** A lookup answers whether the slot is justified, for every slot up to the horizon and
      for no other. */
  lemma LookupRefinesSet(window: seq<bool>, finalized: Slot, slot: Slot)
    ensures IsSlotJustified(window, finalized, slot) ==
            if slot <= Horizon(window, finalized) then Ok(Marked(window, finalized, slot)) else Err(OutsideWindow)
  {
  }

  /** Marking a slot justifies it and no other, and fails exactly past the horizon. */
  lemma MarkRefinesSet(window: seq<bool>, finalized: Slot, target: Slot, slot: Slot)
    ensures var w := WithJustified(window, finalized, target, true);
            if target > Horizon(window, finalized) then w == Err(OutsideWindow)
            else && w.Ok? && Horizon(w.value, finalized) == Horizon(window, finalized)
                 && (Marked(w.value, finalized, slot) <==> Marked(window, finalized, slot) || slot == target)
  {
  }

  /** Moving finality forward keeps every later answer and the horizon, justifies everything
      up to the new finality, and fails exactly when that lies past the horizon. */
  lemma ShiftRefinesSet(window: seq<bool>, finalized: Slot, delta: nat, slot: Slot)
    ensures var w := ShiftWindow(window, delta);
            if finalized + delta > Horizon(window, finalized) then w == Panic(ShiftOutOfBounds)
            else && w.Ok? && Horizon(w.value, finalized + delta) == Horizon(window, finalized)
                 && (Marked(w.value, finalized + delta, slot) <==> Marked(window, finalized, slot) || slot <= finalized + delta)
  {
  }

  /** Extending only moves the horizon: the new slots start unjustified. */
  lemma ExtendRefinesSet(window: seq<bool>, finalized: Slot, upTo: Slot, slot: Slot)
    ensures var w := ExtendToSlot(window, finalized, upTo);
            && Horizon(w, finalized) == (if upTo <= Horizon(window, finalized) then Horizon(window, finalized) else upTo)
            && (Marked(w, finalized, slot) <==> Marked(window, finalized, slot))
  {
  }
}
