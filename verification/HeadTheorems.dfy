/** What the fork choice guarantees: majorities prevail, votes for the head are harmless,
    and the supermajority walk never has to choose. */
module HeadTheorems {
  import opened Containers
  import opened Bits
  import opened BlockTree

  lemma {:induction false} HeadDescendsFromStart(blocks: Blocks, votes: Votes, minVotes: nat, c: Root)
    requires WellFormed(blocks) && c in blocks
    ensures Descends(blocks, GhostHead(blocks, votes, minVotes, c), c)
    decreases |Later(blocks, c)|
  {
    var children := Children(blocks, votes, minVotes, c);
    if children != {} {
      var best := Best(blocks, votes, children);
      LaterShrinks(blocks, c, best);
      HeadDescendsFromStart(blocks, votes, minVotes, best);
      DescendsTransitive(blocks, GhostHead(blocks, votes, minVotes, best), best, c);
    }
  }

  /** The head in terms of weights and roots alone: it has no child with enough votes; every
      block on the path to it below the start has enough; and each of them outweighs every
      sibling that has enough, or is as heavy and has the greater root. */
  lemma {:induction false} HeadIsGreedy(blocks: Blocks, votes: Votes, minVotes: nat, c: Root)
    requires WellFormed(blocks) && c in blocks
    ensures var head := GhostHead(blocks, votes, minVotes, c);
            && (forall x :: x in blocks && blocks[x].parentRoot == head ==> Weight(blocks, votes, x) < minVotes)
            && (forall x :: OnPath(blocks, head, x, c) ==> Weight(blocks, votes, x) >= minVotes)
            && (forall x, y :: OnPath(blocks, head, x, c) && IsSibling(blocks, x, y) && Weight(blocks, votes, y) >= minVotes ==>
                  || Weight(blocks, votes, y) < Weight(blocks, votes, x)
                  || (Weight(blocks, votes, y) == Weight(blocks, votes, x) && y < x))
    decreases |Later(blocks, c)|
  {
    hide Weight;
    var head, children := GhostHead(blocks, votes, minVotes, c), Children(blocks, votes, minVotes, c);
    if children == {} {
      assert head == c;
      forall x | x in blocks && blocks[x].parentRoot == c ensures Weight(blocks, votes, x) < minVotes {
        assert x !in children;
      }
      forall x ensures !OnPath(blocks, c, x, c) {
        if OnPath(blocks, c, x, c) { DescendsFacts(blocks, c, x); DescendsFacts(blocks, x, c); }
      }
    } else {
      var best := Best(blocks, votes, children);
      LaterShrinks(blocks, c, best);
      HeadIsGreedy(blocks, votes, minVotes, best);
      HeadDescendsFromStart(blocks, votes, minVotes, best);
      forall x | OnPath(blocks, head, x, c) ensures x == best || OnPath(blocks, head, x, best) {
        PathGoesOn(blocks, head, best, c, x);
      }
    }
  }

  /** x lies on the way from c to the head, below c. */
  ghost predicate OnPath(blocks: Blocks, head: Root, x: Root, c: Root)
    requires WellFormed(blocks)
  {
    Descends(blocks, head, x) && Descends(blocks, x, c) && x != c
  }

  predicate IsSibling(blocks: Blocks, x: Root, y: Root) {
    x in blocks && y in blocks && x != y && blocks[x].parentRoot == blocks[y].parentRoot
  }

  /** Below c, the way to a descendant of a child of c goes through that child. */
  lemma PathGoesOn(blocks: Blocks, head: Root, child: Root, c: Root, x: Root)
    requires WellFormed(blocks) && Descends(blocks, head, child) && child in blocks && blocks[child].parentRoot == c && c in blocks
    requires Descends(blocks, head, x) && Descends(blocks, x, c) && x != c
    ensures Descends(blocks, x, child)
  {
    AncestorsAreOrdered(blocks, head, child, x);
    if Descends(blocks, child, x) && x != child {
      assert Descends(blocks, c, x);
      DescendsFacts(blocks, c, x);
      DescendsFacts(blocks, x, c);
    }
  }

  lemma SiblingWeights(blocks: Blocks, votes: Votes, a: Root, b: Root)
    requires WellFormed(blocks) && a in blocks && b in blocks && a != b
    requires blocks[a].parentRoot == blocks[b].parentRoot && blocks[a].parentRoot in blocks
    ensures Weight(blocks, votes, a) + Weight(blocks, votes, b) <= |votes|
  {
    var sa, sb := Supporters(blocks, votes, a), Supporters(blocks, votes, b);
    forall v | v in sa && v in sb ensures false { SiblingsAreDisjoint(blocks, votes[v].head.root, a, b); }
    CardinalityMonotone(sa + sb, votes.Keys);
    assert |sa + sb| == |sa| + |sb|;
  }

  /** One step of the walk when the child towards `b` outweighs every sibling. */
  lemma WalkTowards(blocks: Blocks, votes: Votes, minVotes: nat, c: Root, towards: Root)
    requires WellFormed(blocks) && c in blocks && towards in Children(blocks, votes, minVotes, c)
    requires forall x :: x in Children(blocks, votes, minVotes, c) && x != towards ==>
               Beats(Weight(blocks, votes, towards), towards, Weight(blocks, votes, x), x)
    ensures GhostHead(blocks, votes, minVotes, c) == GhostHead(blocks, votes, minVotes, towards)
    ensures |Later(blocks, towards)| < |Later(blocks, c)|
  {
    var children := Children(blocks, votes, minVotes, c);
    assert IsBest(blocks, votes, children, towards);
    BestIsUnique(blocks, votes, children, towards, Best(blocks, votes, children));
    LaterShrinks(blocks, c, towards);
  }

  /** If more than half of all votes lie in the subtree of a block below the start root, that
      block is on the path to the head. */
  lemma {:induction false} MajorityPrevails(blocks: Blocks, votes: Votes, minVotes: nat, c: Root, b: Root)
    requires WellFormed(blocks) && c in blocks && Descends(blocks, b, c)
    requires 2 * Weight(blocks, votes, b) > |votes| && Weight(blocks, votes, b) >= minVotes
    ensures Descends(blocks, GhostHead(blocks, votes, minVotes, c), b)
    decreases |Later(blocks, c)|
  {
    if b == c {
      HeadDescendsFromStart(blocks, votes, minVotes, c);
    } else {
      var towards := ChildTowards(blocks, b, c);
      SupportersNest(blocks, votes, towards, b);
      forall x | x in Children(blocks, votes, minVotes, c) && x != towards
        ensures Beats(Weight(blocks, votes, towards), towards, Weight(blocks, votes, x), x)
      {
        SiblingWeights(blocks, votes, towards, x);
      }
      WalkTowards(blocks, votes, minVotes, c, towards);
      MajorityPrevails(blocks, votes, minVotes, towards, b);
    }
  }

  /** How one changed vote, now for `head`, shifts the weights. */
  lemma VoteMoved(blocks: Blocks, votes: Votes, v: ValidatorId, data: AttestationData, b: Root)
    requires WellFormed(blocks)
    ensures Descends(blocks, data.head.root, b) ==>
              Weight(blocks, votes[v := data], b) >= Weight(blocks, votes, b)
    ensures !Descends(blocks, data.head.root, b) ==>
              Weight(blocks, votes[v := data], b) <= Weight(blocks, votes, b)
  {
    var before, after := Supporters(blocks, votes, b), Supporters(blocks, votes[v := data], b);
    if Descends(blocks, data.head.root, b) {
      CardinalityMonotone(before, after);
    } else {
      CardinalityMonotone(after, before);
    }
  }

  /** Moving any vote onto the head, or adding one there, leaves the head where it is. */
  lemma {:induction false} VotingForHeadKeepsIt(blocks: Blocks, votes: Votes, minVotes: nat, c: Root,
                                                v: ValidatorId, data: AttestationData)
    requires WellFormed(blocks) && c in blocks
    requires data.head.root == GhostHead(blocks, votes, minVotes, c)
    ensures GhostHead(blocks, votes[v := data], minVotes, c) == GhostHead(blocks, votes, minVotes, c)
    decreases |Later(blocks, c)|
  {
    var head, moved := data.head.root, votes[v := data];
    var children := Children(blocks, votes, minVotes, c);
    HeadDescendsFromStart(blocks, votes, minVotes, c);
    forall x | x in blocks && blocks[x].parentRoot == c && !Descends(blocks, head, x)
      ensures x in Children(blocks, moved, minVotes, c) ==> x in children
    {
      VoteMoved(blocks, votes, v, data, x);
    }
    if children == {} {
      forall x | x in blocks && blocks[x].parentRoot == c ensures !Descends(blocks, c, x) {
        if Descends(blocks, c, x) { DescendsFacts(blocks, c, x); }
      }
      assert Children(blocks, moved, minVotes, c) == {};
    } else {
      var best := Best(blocks, votes, children);
      WalkTowards(blocks, votes, minVotes, c, best);
      HeadDescendsFromStart(blocks, votes, minVotes, best);
      VoteMoved(blocks, votes, v, data, best);
      forall x | x in Children(blocks, moved, minVotes, c) && x != best
        ensures Beats(Weight(blocks, moved, best), best, Weight(blocks, moved, x), x)
      {
        SiblingsAreDisjoint(blocks, head, best, x);
        VoteMoved(blocks, votes, v, data, x);
      }
      WalkTowards(blocks, moved, minVotes, c, best);
      VotingForHeadKeepsIt(blocks, votes, minVotes, best, v, data);
    }
  }

  /** The threshold of the safe target: two thirds of the validators, rounded up. */
  function SafeThreshold(validators: nat): nat {
    (validators * 2 + 2) / 3
  }

  ghost predicate VotersBelow(votes: Votes, validators: nat) {
    forall v :: v in votes ==> v < validators
  }

  /** With a two-thirds threshold no block ever has two eligible children. */
  lemma SafeWalkNeverBranches(blocks: Blocks, votes: Votes, validators: nat, c: Root, a: Root, b: Root)
    requires WellFormed(blocks) && c in blocks && validators > 0 && VotersBelow(votes, validators)
    requires a in Children(blocks, votes, SafeThreshold(validators), c)
    requires b in Children(blocks, votes, SafeThreshold(validators), c)
    ensures a == b
  {
    if a != b {
      SiblingWeights(blocks, votes, a, b);
      BoundedSetSize(votes.Keys, validators);
      assert false;
    }
  }

  /** The safe target is the deepest block with two thirds of the votes: below the start
      root, having two thirds of the votes is the same as being on the path to it. */
  lemma SafeTargetExact(blocks: Blocks, votes: Votes, validators: nat, c: Root, d: Root)
    requires WellFormed(blocks) && c in blocks && validators > 0 && VotersBelow(votes, validators)
    requires Descends(blocks, d, c) && d != c
    ensures Weight(blocks, votes, d) >= SafeThreshold(validators) <==>
            Descends(blocks, GhostHead(blocks, votes, SafeThreshold(validators), c), d)
  {
    var minVotes := SafeThreshold(validators);
    if Weight(blocks, votes, d) >= minVotes {
      SupermajorityIsSafe(blocks, votes, validators, c, d);
    }
    if Descends(blocks, GhostHead(blocks, votes, minVotes, c), d) {
      PathHasThreshold(blocks, votes, minVotes, c, d);
    }
  }

  lemma {:induction false} SupermajorityIsSafe(blocks: Blocks, votes: Votes, validators: nat, c: Root, d: Root)
    requires WellFormed(blocks) && c in blocks && validators > 0 && VotersBelow(votes, validators)
    requires Descends(blocks, d, c) && Weight(blocks, votes, d) >= SafeThreshold(validators)
    ensures Descends(blocks, GhostHead(blocks, votes, SafeThreshold(validators), c), d)
    decreases |Later(blocks, c)|
  {
    var minVotes := SafeThreshold(validators);
    if d == c {
      HeadDescendsFromStart(blocks, votes, minVotes, c);
    } else {
      var towards := ChildTowards(blocks, d, c);
      SupportersNest(blocks, votes, towards, d);
      forall x | x in Children(blocks, votes, minVotes, c) ensures x == towards {
        SafeWalkNeverBranches(blocks, votes, validators, c, x, towards);
      }
      WalkTowards(blocks, votes, minVotes, c, towards);
      SupermajorityIsSafe(blocks, votes, validators, towards, d);
    }
  }

  /** Every block on the path from the start root to the head meets the threshold. */
  lemma {:induction false} PathHasThreshold(blocks: Blocks, votes: Votes, minVotes: nat, c: Root, d: Root)
    requires WellFormed(blocks) && c in blocks && Descends(blocks, d, c) && d != c
    requires Descends(blocks, GhostHead(blocks, votes, minVotes, c), d)
    ensures Weight(blocks, votes, d) >= minVotes
    decreases |Later(blocks, c)|
  {
    var head, children := GhostHead(blocks, votes, minVotes, c), Children(blocks, votes, minVotes, c);
    if children == {} {
      DescendsFacts(blocks, c, d);
      DescendsFacts(blocks, d, c);
      assert false;
    } else {
      var best := Best(blocks, votes, children);
      WalkTowards(blocks, votes, minVotes, c, best);
      HeadDescendsFromStart(blocks, votes, minVotes, best);
      if d != best {
        var towards := ChildTowards(blocks, d, c);
        DescendsTransitive(blocks, head, d, towards);
        if towards != best { SiblingsAreDisjoint(blocks, head, towards, best); }
        PathHasThreshold(blocks, votes, minVotes, best, d);
      }
    }
  }
}
