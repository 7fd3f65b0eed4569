/** Parent walks as histories, and what adding a leaf does to them. */
module StoreTree {
  import opened Containers
  import opened BlockTree
  import opened StateTransitions

  /** The roots that lead to `r`, each at the index of its slot, with zeros in between. */
  ghost function HistoryOf(blocks: Blocks, r: Root): seq<Root>
    requires WellFormed(blocks)
    decreases SlotOf(blocks, r)
  {
    if r in blocks && blocks[r].parentRoot in blocks then
      var parent := blocks[r].parentRoot;
      HistoryOf(blocks, parent) + [parent] + EmptySlots(blocks[r].slot - blocks[parent].slot - 1)
    else []
  }

  /** Only a block of slot 0 has no stored parent. */
  ghost predicate Rooted(blocks: Blocks) {
    forall r {:trigger blocks[r].parentRoot} :: r in blocks && blocks[r].parentRoot !in blocks ==> blocks[r].slot == 0
  }

  lemma {:induction false} HistoryLength(blocks: Blocks, r: Root)
    requires WellFormed(blocks) && Rooted(blocks) && r in blocks
    ensures |HistoryOf(blocks, r)| == blocks[r].slot
    decreases SlotOf(blocks, r)
  {
    if blocks[r].parentRoot in blocks { HistoryLength(blocks, blocks[r].parentRoot); }
  }

  /** A non-zero entry of the history is an ancestor of that very slot. */
  lemma {:induction false} HistoryNamesAncestors(blocks: Blocks, r: Root, i: nat)
    requires WellFormed(blocks) && Rooted(blocks) && r in blocks
    requires i < |HistoryOf(blocks, r)| && HistoryOf(blocks, r)[i] != ZERO_ROOT
    ensures var a := HistoryOf(blocks, r)[i]; a != r && Descends(blocks, r, a) && a in blocks && blocks[a].slot == i
    decreases SlotOf(blocks, r)
  {
    var parent := blocks[r].parentRoot;
    HistoryLength(blocks, parent);
    var before := HistoryOf(blocks, parent);
    if i < |before| {
      HistoryNamesAncestors(blocks, parent, i);
      DescendsFacts(blocks, parent, before[i]);
    } else {
      assert i == |before|;
      assert Descends(blocks, parent, parent);
    }
  }

  /** Every proper ancestor is in the history at its slot. */
  lemma {:induction false} AncestorsAreInHistory(blocks: Blocks, r: Root, a: Root)
    requires WellFormed(blocks) && Rooted(blocks) && Descends(blocks, r, a) && a != r
    ensures a in blocks && blocks[a].slot < |HistoryOf(blocks, r)| && HistoryOf(blocks, r)[blocks[a].slot] == a
    decreases SlotOf(blocks, r)
  {
    var parent := blocks[r].parentRoot;
    HistoryLength(blocks, parent);
    DescendsFacts(blocks, parent, a);
    if a != parent { AncestorsAreInHistory(blocks, parent, a); }
  }

  /** `r` is new, is nobody's parent yet, and comes after its stored parent. */
  ghost predicate IsNewLeaf(blocks: Blocks, r: Root, b: Block) {
    && r != ZERO_ROOT && r !in blocks
    && (forall x {:trigger blocks[x].parentRoot} :: x in blocks ==> blocks[x].parentRoot != r)
    && b.parentRoot in blocks && blocks[b.parentRoot].slot < b.slot
  }

  lemma LeafKeepsWellFormed(blocks: Blocks, r: Root, b: Block)
    requires WellFormed(blocks) && IsNewLeaf(blocks, r, b)
    ensures WellFormed(blocks[r := b])
    ensures Rooted(blocks) ==> Rooted(blocks[r := b])
  {
  }

  lemma {:induction false} LeafKeepsDescends(blocks: Blocks, r: Root, b: Block, x: Root, a: Root)
    requires WellFormed(blocks) && IsNewLeaf(blocks, r, b) && WellFormed(blocks[r := b]) && x in blocks
    ensures Descends(blocks[r := b], x, a) <==> Descends(blocks, x, a)
    decreases SlotOf(blocks, x)
  {
    if blocks[x].parentRoot in blocks { LeafKeepsDescends(blocks, r, b, blocks[x].parentRoot, a); }
  }

  lemma {:induction false} LeafKeepsHistory(blocks: Blocks, r: Root, b: Block, x: Root)
    requires WellFormed(blocks) && IsNewLeaf(blocks, r, b) && WellFormed(blocks[r := b]) && x in blocks
    ensures HistoryOf(blocks[r := b], x) == HistoryOf(blocks, x)
    decreases SlotOf(blocks, x)
  {
    if blocks[x].parentRoot in blocks { LeafKeepsHistory(blocks, r, b, blocks[x].parentRoot); }
  }
}
