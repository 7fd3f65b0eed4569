/** The tree of known blocks and the votes on it. */
module BlockTree {
  import opened Containers
  import opened Bits

  type Blocks = map<Root, Block>

  type Votes = map<ValidatorId, AttestationData>

  /** No block is stored under the zero root, and parents come before their children. */
  ghost predicate WellFormed(blocks: Blocks) {
    && ZERO_ROOT !in blocks
    && forall r {:trigger blocks[r].parentRoot} ::
         r in blocks && blocks[r].parentRoot in blocks ==> blocks[blocks[r].parentRoot].slot < blocks[r].slot
  }

  ghost function SlotOf(blocks: Blocks, r: Root): nat {
    if r in blocks then blocks[r].slot else 0
  }

  /** The parent walk from `r` meets `a`; every stored block descends from itself. */
  ghost predicate Descends(blocks: Blocks, r: Root, a: Root)
    requires WellFormed(blocks)
    decreases SlotOf(blocks, r)
  {
    r in blocks && (r == a || (blocks[r].parentRoot in blocks && Descends(blocks, blocks[r].parentRoot, a)))
  }

  lemma {:induction false} DescendsFacts(blocks: Blocks, r: Root, a: Root)
    requires WellFormed(blocks) && Descends(blocks, r, a)
    ensures r in blocks && a in blocks
    ensures blocks[a].slot <= blocks[r].slot && (blocks[a].slot == blocks[r].slot ==> a == r)
    decreases SlotOf(blocks, r)
  {
    if r != a { DescendsFacts(blocks, blocks[r].parentRoot, a); }
  }

  lemma {:induction false} DescendsTransitive(blocks: Blocks, r: Root, a: Root, b: Root)
    requires WellFormed(blocks) && Descends(blocks, r, a) && Descends(blocks, a, b)
    ensures Descends(blocks, r, b)
    decreases SlotOf(blocks, r)
  {
    if r != a { DescendsTransitive(blocks, blocks[r].parentRoot, a, b); }
  }

  /** The ancestors of a block form a chain. */
  lemma {:induction false} AncestorsAreOrdered(blocks: Blocks, r: Root, a: Root, b: Root)
    requires WellFormed(blocks) && Descends(blocks, r, a) && Descends(blocks, r, b)
    ensures Descends(blocks, a, b) || Descends(blocks, b, a)
    decreases SlotOf(blocks, r)
  {
    if r != a && r != b { AncestorsAreOrdered(blocks, blocks[r].parentRoot, a, b); }
  }

  /** Two children of one block have no descendant in common. */
  lemma SiblingsAreDisjoint(blocks: Blocks, r: Root, a: Root, b: Root)
    requires WellFormed(blocks) && a in blocks && b in blocks && a != b
    requires blocks[a].parentRoot == blocks[b].parentRoot && blocks[a].parentRoot in blocks
    ensures !(Descends(blocks, r, a) && Descends(blocks, r, b))
  {
    if Descends(blocks, r, a) && Descends(blocks, r, b) {
      AncestorsAreOrdered(blocks, r, a, b);
      var upper, lower := if Descends(blocks, a, b) then b else a, if Descends(blocks, a, b) then a else b;
      DescendsFacts(blocks, blocks[lower].parentRoot, upper);
      assert false;
    }
  }

  /** The child of `a` through which `r` descends from it. */
  lemma {:induction false} ChildTowards(blocks: Blocks, r: Root, a: Root) returns (c: Root)
    requires WellFormed(blocks) && Descends(blocks, r, a) && r != a
    ensures c in blocks && blocks[c].parentRoot == a && Descends(blocks, r, c)
    decreases SlotOf(blocks, r)
  {
    var parent := blocks[r].parentRoot;
    if parent == a {
      c := r;
    } else {
      c := ChildTowards(blocks, parent, a);
      DescendsFacts(blocks, parent, c);
    }
  }

  /** The validators whose vote lies in the subtree of `b`. */
  ghost function Supporters(blocks: Blocks, votes: Votes, b: Root): set<ValidatorId>
    requires WellFormed(blocks)
  {
    set v | v in votes && Descends(blocks, votes[v].head.root, b)
  }

  ghost function Weight(blocks: Blocks, votes: Votes, b: Root): nat
    requires WellFormed(blocks)
  {
    |Supporters(blocks, votes, b)|
  }

  lemma SupportersNest(blocks: Blocks, votes: Votes, a: Root, b: Root)
    requires WellFormed(blocks) && Descends(blocks, b, a)
    ensures Supporters(blocks, votes, b) <= Supporters(blocks, votes, a)
    ensures Weight(blocks, votes, b) <= Weight(blocks, votes, a)
  {
    forall v | v in Supporters(blocks, votes, b) ensures v in Supporters(blocks, votes, a) {
      DescendsTransitive(blocks, votes[v].head.root, b, a);
    }
    CardinalityMonotone(Supporters(blocks, votes, b), Supporters(blocks, votes, a));
  }

  /** The blocks that the walk may choose from at `c`. */
  ghost function Children(blocks: Blocks, votes: Votes, minVotes: nat, c: Root): set<Root>
    requires WellFormed(blocks)
  {
    set r | r in blocks && blocks[r].parentRoot == c && Weight(blocks, votes, r) >= minVotes
  }

  /** Heavier, or as heavy and with the greater root. */
  predicate Beats(weightA: nat, a: Root, weightB: nat, b: Root) {
    weightA > weightB || (weightA == weightB && a > b)
  }

  ghost predicate IsBest(blocks: Blocks, votes: Votes, choices: set<Root>, r: Root)
    requires WellFormed(blocks)
  {
    && r in choices
    && forall x :: x in choices && x != r ==> Beats(Weight(blocks, votes, r), r, Weight(blocks, votes, x), x)
  }

  lemma {:induction false} BestExists(blocks: Blocks, votes: Votes, choices: set<Root>)
    requires WellFormed(blocks) && choices != {}
    ensures exists r :: IsBest(blocks, votes, choices, r)
    decreases |choices|
  {
    var x :| x in choices;
    var rest := choices - {x};
    assert forall y :: y in choices ==> y == x || y in rest;
    if rest == {} {
      assert IsBest(blocks, votes, choices, x);
    } else {
      BestExists(blocks, votes, rest);
      var r :| IsBest(blocks, votes, rest, r);
      if Beats(Weight(blocks, votes, r), r, Weight(blocks, votes, x), x) {
        assert IsBest(blocks, votes, choices, r);
      } else {
        assert IsBest(blocks, votes, choices, x);
      }
    }
  }

  lemma BestIsUnique(blocks: Blocks, votes: Votes, choices: set<Root>, a: Root, b: Root)
    requires WellFormed(blocks) && IsBest(blocks, votes, choices, a) && IsBest(blocks, votes, choices, b)
    ensures a == b
  {
  }

  ghost function Best(blocks: Blocks, votes: Votes, choices: set<Root>): (r: Root)
    requires WellFormed(blocks) && choices != {}
    ensures IsBest(blocks, votes, choices, r)
  {
    BestExists(blocks, votes, choices);
    var r :| IsBest(blocks, votes, choices, r);
    r
  }

  /** The blocks of a later slot than `c`, which bound how far a walk can go. */
  ghost function Later(blocks: Blocks, c: Root): set<Root> {
    set r | r in blocks && blocks[r].slot > SlotOf(blocks, c)
  }

  lemma LaterShrinks(blocks: Blocks, c: Root, child: Root)
    requires WellFormed(blocks) && c in blocks && child in blocks && blocks[child].parentRoot == c
    ensures |Later(blocks, child)| < |Later(blocks, c)|
  {
    assert child in Later(blocks, c) && child !in Later(blocks, child);
    CardinalityMonotone(Later(blocks, child), Later(blocks, c) - {child});
  }

  /** LMD-GHOST, declaratively: from `c`, keep moving to the best child that has enough
      votes, until there is none. */
  ghost function GhostHead(blocks: Blocks, votes: Votes, minVotes: nat, c: Root): (head: Root)
    requires WellFormed(blocks) && c in blocks
    ensures head in blocks
    decreases |Later(blocks, c)|
  {
    var children := Children(blocks, votes, minVotes, c);
    if children == {} then c
    else
      var best := Best(blocks, votes, children);
      LaterShrinks(blocks, c, best);
      GhostHead(blocks, votes, minVotes, best)
  }
}
