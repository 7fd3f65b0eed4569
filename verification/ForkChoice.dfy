/** The head computation: accumulate weights, link parents to children, walk greedily. */
module ForkChoice {
  import opened Containers
  import opened BlockTree

  function WeightAt(weights: map<Root, nat>, b: Root): nat {
    if b in weights then weights[b] else 0
  }

  /** Stage 1 for one vote: walk up from its head, adding one to every block above the
      slot of the start root. */
  method AddVoteWeight(blocks: Blocks, rootSlot: Slot, weights: map<Root, nat>, head: Root)
    returns (out: map<Root, nat>)
    requires WellFormed(blocks)
    ensures forall b :: WeightAt(out, b) == WeightAt(weights, b) +
              if b in blocks && blocks[b].slot > rootSlot && Descends(blocks, head, b) then 1 else 0
  {
    out := weights;
    if head !in blocks { return; }
    var curr, currSlot := head, blocks[head].slot;
    while currSlot > rootSlot
      invariant curr in blocks && currSlot == blocks[curr].slot
      invariant Descends(blocks, head, curr)
      invariant forall b :: WeightAt(out, b) == WeightAt(weights, b) +
                  if b in blocks && blocks[b].slot > rootSlot && Descends(blocks, head, b) && !Descends(blocks, curr, b)
                  then 1 else 0
      decreases currSlot
    {
      out := out[curr := WeightAt(out, curr) + 1];
      var parent := blocks[curr].parentRoot;
      if parent == ZERO_ROOT || parent !in blocks {
        forall b
          ensures Descends(blocks, curr, b) <==> b == curr
        {
        }
        return;
      }
      PassedOne(blocks, head, curr);
      curr, currSlot := parent, blocks[parent].slot;
    }
    forall b | Descends(blocks, curr, b) ensures b in blocks && blocks[b].slot <= rootSlot {
      DescendsFacts(blocks, curr, b);
    }
  }

  /** Stepping from `curr` to its parent passes exactly `curr`. */
  lemma PassedOne(blocks: Blocks, head: Root, curr: Root)
    requires WellFormed(blocks) && Descends(blocks, head, curr) && curr in blocks && blocks[curr].parentRoot in blocks
    ensures Descends(blocks, head, blocks[curr].parentRoot)
    ensures forall b :: Descends(blocks, curr, b) <==> b == curr || Descends(blocks, blocks[curr].parentRoot, b)
    ensures !Descends(blocks, blocks[curr].parentRoot, curr)
  {
    var parent := blocks[curr].parentRoot;
    assert Descends(blocks, parent, parent);
    DescendsTransitive(blocks, head, curr, parent);
    if Descends(blocks, parent, curr) {
      DescendsFacts(blocks, parent, curr);
    }
  }

  ghost function SupportersAmong(blocks: Blocks, votes: Votes, done: set<ValidatorId>, b: Root): set<ValidatorId>
    requires WellFormed(blocks)
  {
    set v | v in done && v in votes && Descends(blocks, votes[v].head.root, b)
  }

  /** Stage 1: the accumulated weight of every block above the start slot is the number of
      voters in its subtree, in whatever order the votes are visited. */
  method AccumulateWeights(blocks: Blocks, rootSlot: Slot, votes: Votes) returns (weights: map<Root, nat>)
    requires WellFormed(blocks)
    ensures forall b :: b in blocks && blocks[b].slot > rootSlot ==> WeightAt(weights, b) == Weight(blocks, votes, b)
    ensures forall b :: !(b in blocks && blocks[b].slot > rootSlot) ==> WeightAt(weights, b) == 0
  {
    weights := map[];
    var rest := votes.Keys;
    ghost var done: set<ValidatorId> := {};
    while rest != {}
      invariant done !! rest && done + rest == votes.Keys
      invariant forall b :: b in blocks && blocks[b].slot > rootSlot ==>
                  WeightAt(weights, b) == |SupportersAmong(blocks, votes, done, b)|
      invariant forall b :: !(b in blocks && blocks[b].slot > rootSlot) ==> WeightAt(weights, b) == 0
      decreases rest
    {
      var v :| v in rest;
      weights := AddVoteWeight(blocks, rootSlot, weights, votes[v].head.root);
      forall b: Root
        ensures |SupportersAmong(blocks, votes, done + {v}, b)| ==
                |SupportersAmong(blocks, votes, done, b)| + if Descends(blocks, votes[v].head.root, b) then 1 else 0
      {
        CountOne(blocks, votes, done, v, b);
      }
      rest, done := rest - {v}, done + {v};
    }
    forall b: Root ensures SupportersAmong(blocks, votes, done, b) == Supporters(blocks, votes, b) {}
  }

  lemma CountOne(blocks: Blocks, votes: Votes, done: set<ValidatorId>, v: ValidatorId, b: Root)
    requires WellFormed(blocks) && v in votes && v !in done
    ensures |SupportersAmong(blocks, votes, done + {v}, b)| ==
            |SupportersAmong(blocks, votes, done, b)| + if Descends(blocks, votes[v].head.root, b) then 1 else 0
  {
    if Descends(blocks, votes[v].head.root, b) {
      assert SupportersAmong(blocks, votes, done + {v}, b) == SupportersAmong(blocks, votes, done, b) + {v};
    } else {
      assert SupportersAmong(blocks, votes, done + {v}, b) == SupportersAmong(blocks, votes, done, b);
    }
  }

  /** Stage 2: link every block that has enough votes to its parent. */
  method LinkChildren(blocks: Blocks, weights: map<Root, nat>, minVotes: nat) returns (links: map<Root, seq<Root>>)
    ensures forall p :: p in links ==> links[p] != []
    ensures forall p, c :: (p in links && c in links[p]) <==>
              (c in blocks && blocks[c].parentRoot == p && p != ZERO_ROOT && WeightAt(weights, c) >= minVotes)
  {
    links := map[];
    var rest := blocks.Keys;
    while rest != {}
      invariant rest <= blocks.Keys
      invariant forall p :: p in links ==> links[p] != []
      invariant forall p, c :: (p in links && c in links[p]) <==>
                  (c in blocks && c !in rest && blocks[c].parentRoot == p && p != ZERO_ROOT && WeightAt(weights, c) >= minVotes)
      decreases rest
    {
      var r :| r in rest;
      var parent := blocks[r].parentRoot;
      if parent != ZERO_ROOT && WeightAt(weights, r) >= minVotes {
        var siblings := if parent in links then links[parent] else [];
        links := links[parent := siblings + [r]];
      }
      rest := rest - {r};
    }
  }

  /** `max_by` on weight and then root. */
  method HeaviestOf(weights: map<Root, nat>, choices: seq<Root>) returns (best: Root)
    requires choices != []
    ensures best in choices
    ensures forall x :: x in choices && x != best ==>
              WeightAt(weights, x) < WeightAt(weights, best) || (WeightAt(weights, x) == WeightAt(weights, best) && x < best)
  {
    best := choices[0];
    for i := 1 to |choices|
      invariant best in choices[..i]
      invariant forall x :: x in choices[..i] && x != best ==> Beats(WeightAt(weights, best), best, WeightAt(weights, x), x)
    {
      if !Beats(WeightAt(weights, best), best, WeightAt(weights, choices[i]), choices[i]) { best := choices[i]; }
    }
  }

  /** Stage 3: the greedy walk. */
  method GreedyWalk(blocks: Blocks, votes: Votes, minVotes: nat, root: Root,
                    weights: map<Root, nat>, links: map<Root, seq<Root>>) returns (head: Root)
    requires WellFormed(blocks) && root in blocks
    requires forall b :: b in blocks && blocks[b].slot > blocks[root].slot ==> WeightAt(weights, b) == Weight(blocks, votes, b)
    requires forall p :: p in links ==> links[p] != []
    requires forall p, c :: (p in links && c in links[p]) <==>
               (c in blocks && blocks[c].parentRoot == p && p != ZERO_ROOT && WeightAt(weights, c) >= minVotes)
    ensures head == GhostHead(blocks, votes, minVotes, root)
  {
    var curr := root;
    while true
      invariant curr in blocks && blocks[curr].slot >= blocks[root].slot
      invariant GhostHead(blocks, votes, minVotes, curr) == GhostHead(blocks, votes, minVotes, root)
      decreases |Later(blocks, curr)|
    {
      ghost var children := Children(blocks, votes, minVotes, curr);
      assert forall c :: c in children <==> curr in links && c in links[curr];
      if curr !in links {
        assert children == {};
        return curr;
      }
      assert links[curr][0] in children;
      var best := HeaviestOf(weights, links[curr]);
      assert IsBest(blocks, votes, children, best);
      BestIsUnique(blocks, votes, children, best, Best(blocks, votes, children));
      LaterShrinks(blocks, curr, best);
      curr := best;
    }
  }

  ghost predicate IsEarliest(blocks: Blocks, r: Root) {
    r in blocks && forall x :: x in blocks ==> blocks[r].slot <= blocks[x].slot
  }

  /** `get_fork_choice_head`: the three stages compute the declarative head. The zero root
      stands for some block of the earliest slot. */
  method GetForkChoiceHead(blocks: Blocks, root: Root, votes: Votes, minVotes: nat) returns (out: Outcome<Root>)
    requires WellFormed(blocks)
    ensures root in blocks ==> out == Ok(GhostHead(blocks, votes, minVotes, root))
    ensures root !in blocks && (root != ZERO_ROOT || blocks == map[]) ==> out == Panic(MissingBlock)
    ensures root == ZERO_ROOT && blocks != map[] ==>
              exists start :: IsEarliest(blocks, start) && out == Ok(GhostHead(blocks, votes, minVotes, start))
  {
    var start := root;
    if root == ZERO_ROOT {
      if blocks == map[] { return Panic(MissingBlock); }
      start := EarliestBlock(blocks);
    } else if root !in blocks {
      return Panic(MissingBlock);
    }
    var weights := AccumulateWeights(blocks, blocks[start].slot, votes);
    var links := LinkChildren(blocks, weights, minVotes);
    var head := GreedyWalk(blocks, votes, minVotes, start, weights, links);
    out := Ok(head);
  }

  method EarliestBlock(blocks: Blocks) returns (first: Root)
    requires blocks != map[]
    ensures IsEarliest(blocks, first)
  {
    var rest := blocks.Keys;
    assert rest == {} ==> blocks == map[];
    first :| first in rest;
    while rest != {}
      invariant first in blocks && rest <= blocks.Keys
      invariant forall x :: x in blocks && x !in rest ==> blocks[first].slot <= blocks[x].slot
      decreases rest
    {
      var r :| r in rest;
      if blocks[r].slot < blocks[first].slot { first := r; }
      rest := rest - {r};
    }
  }
}
