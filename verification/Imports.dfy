/** Importing a block into the store, and why the store's invariant survives it. */
module Imports {
  import opened Containers
  import opened StateTransitions
  import opened Chain
  import opened BlockTree
  import opened HeadTheorems
  import opened StoreTree
  import opened StoreModel

  /** The block can be applied to the stored state of its parent, with result `post`. */
  ghost predicate Importable(env: Env, s: View, b: Block, post: State) {
    && b in env.universe && b.parentRoot in s.states
    && Transition(env.h, s.states[b.parentRoot], b) == Ok(post)
  }

  lemma StoreIsRooted(env: Env, s: View)
    requires Coherent(env, s)
    ensures Rooted(s.blocks)
  {
    hide Transition, Reachable;
    forall r | r in s.blocks && r != env.AnchorRoot() ensures s.blocks[r].parentRoot in s.blocks {
      assert IsSuccessor(env.h, s.blocks, s.states, r);
    }
  }

  lemma ImportIsLeaf(env: Env, s: View, b: Block, post: State)
    requires Coherent(env, s) && Importable(env, s, b, post) && BlockRoot(env.h, b) !in s.blocks
    ensures IsNewLeaf(s.blocks, BlockRoot(env.h, b), b)
  {
    hide Transition, Reachable;
    var parent := b.parentRoot;
    assert StateFits(env, s.blocks, parent, s.states[parent]);
    TransitionKeepsSound(env.h, s.states[parent], b);
    forall x | x in s.blocks ensures s.blocks[x].parentRoot != BlockRoot(env.h, b) {
      if x == env.AnchorRoot() {
        assert s.blocks[x].parentRoot == ZERO_ROOT;
      } else {
        assert IsSuccessor(env.h, s.blocks, s.states, x);
      }
    }
  }

  lemma StoredAlready(env: Env, s: View, b: Block, post: State)
    requires Coherent(env, s) && Importable(env, s, b, post) && BlockRoot(env.h, b) in s.blocks
    ensures s.blocks[BlockRoot(env.h, b)] == b && s.states[BlockRoot(env.h, b)] == post
  {
    hide Transition, Reachable;
    var r := BlockRoot(env.h, b);
    assert BlockRoot(env.h, s.blocks[r]) == r;
    assert s.blocks[r] == b;
    assert ZERO_ROOT !in s.states;
    assert r != env.AnchorRoot();
    assert IsSuccessor(env.h, s.blocks, s.states, r);
  }

  lemma StoringAgain(s: View, anchor: Root, r: Root)
    requires r in s.blocks && r in s.states
    requires IsGreatest(s.blocks, anchor, s.justified, JustifiedPoints(s.states))
    requires IsGreatest(s.blocks, anchor, s.finalized, FinalizedPoints(s.states))
    ensures WithBlock(s, r, s.blocks[r], s.states[r]) == s
  {
    assert s.blocks[r := s.blocks[r]] == s.blocks && s.states[r := s.states[r]] == s.states;
    assert JustifiedPoints(s.states)[r] == s.states[r].justified && FinalizedPoints(s.states)[r] == s.states[r].finalized;
  }

  /** Importing a stored block again changes neither blocks, states nor checkpoints. */
  lemma ReimportChangesNothing(env: Env, s: View, b: Block, post: State)
    requires Inv(env, s) && Importable(env, s, b, post) && BlockRoot(env.h, b) in s.blocks
    ensures WithBlock(s, BlockRoot(env.h, b), b, post) == s
  {
    StoredAlready(env, s, b, post);
    StoringAgain(s, env.AnchorRoot(), BlockRoot(env.h, b));
  }

  lemma ImportFits(env: Env, s: View, b: Block, post: State)
    requires Coherent(env, s) && Importable(env, s, b, post) && BlockRoot(env.h, b) !in s.blocks
    ensures WellFormed(s.blocks[BlockRoot(env.h, b) := b])
    ensures StateFits(env, s.blocks[BlockRoot(env.h, b) := b], BlockRoot(env.h, b), post) && Sound(post)
  {
    var r, parent := BlockRoot(env.h, b), b.parentRoot;
    ImportIsLeaf(env, s, b, post);
    LeafKeepsWellFormed(s.blocks, r, b);
    assert StateFits(env, s.blocks, parent, s.states[parent]);
    TransitionKeepsSound(env.h, s.states[parent], b);
    LeafKeepsHistory(s.blocks, r, b, parent);
    assert post.header.(stateRoot := env.h.state(post)) == HeaderOf(env.h, b);
  }

  lemma StateStillFits(env: Env, blocks: Blocks, r: Root, b: Block, x: Root, st: State)
    requires WellFormed(blocks) && IsNewLeaf(blocks, r, b) && WellFormed(blocks[r := b])
    requires StateFits(env, blocks, x, st)
    ensures StateFits(env, blocks[r := b], x, st)
  {
    LeafKeepsHistory(blocks, r, b, x);
  }

  lemma ImportKeepsFit(env: Env, s: View, b: Block, post: State)
    requires Coherent(env, s) && Importable(env, s, b, post) && BlockRoot(env.h, b) !in s.blocks
    ensures WellFormed(s.blocks[BlockRoot(env.h, b) := b])
    ensures StatesFit(env, s.blocks[BlockRoot(env.h, b) := b], s.states[BlockRoot(env.h, b) := post])
  {
    var r := BlockRoot(env.h, b);
    var t := WithBlock(s, r, b, post);
    ImportIsLeaf(env, s, b, post);
    ImportFits(env, s, b, post);
    forall x | x in t.states ensures StateFits(env, t.blocks, x, t.states[x]) {
      if x != r {
        assert StateFits(env, s.blocks, x, s.states[x]);
        StateStillFits(env, s.blocks, r, b, x, s.states[x]);
      }
    }
  }

  /** A checkpoint of a sound stored state names a stored ancestor at its slot. */
  lemma CheckpointIsStored(env: Env, blocks: Blocks, r: Root, st: State, c: Checkpoint)
    requires WellFormed(blocks) && Rooted(blocks) && StateFits(env, blocks, r, st)
    requires c.slot < |st.history| && st.history[c.slot] == c.root != ZERO_ROOT
    ensures c.root in blocks && blocks[c.root].slot == c.slot && Descends(blocks, r, c.root)
  {
    HistoryNamesAncestors(blocks, r, c.slot);
  }

  lemma LeafKeepsSuccessor(h: Hasher, blocks: Blocks, states: map<Root, State>, r: Root, b: Block, post: State, x: Root)
    requires IsNewLeaf(blocks, r, b) && IsSuccessor(h, blocks, states, x)
    ensures IsSuccessor(h, blocks[r := b], states[r := post], x)
  {
    assert x != r && blocks[x].parentRoot != r;
  }

  lemma LeafKeepsSuccession(h: Hasher, anchor: Root, blocks: Blocks, states: map<Root, State>, r: Root, b: Block, post: State)
    requires AllSucceed(h, anchor, blocks, states) && IsNewLeaf(blocks, r, b)
    requires IsSuccessor(h, blocks[r := b], states[r := post], r)
    ensures AllSucceed(h, anchor, blocks[r := b], states[r := post])
  {
    hide IsSuccessor;
    var blocks', states' := blocks[r := b], states[r := post];
    forall x | x in blocks' && x != anchor ensures IsSuccessor(h, blocks', states', x) {
      if x != r {
        assert blocks[x].parentRoot != r;
        LeafKeepsSuccessor(h, blocks, states, r, b, post, x);
      }
    }
  }

  lemma LeafKeepsLinks(env: Env, s: View, b: Block, post: State)
    requires Linked(env, s.blocks, s.states) && Importable(env, s, b, post) && IsNewLeaf(s.blocks, BlockRoot(env.h, b), b)
    ensures Linked(env, s.blocks[BlockRoot(env.h, b) := b], s.states[BlockRoot(env.h, b) := post])
  {
    hide Transition, AllSucceed;
    var r := BlockRoot(env.h, b);
    assert b.parentRoot != r;
    assert IsSuccessor(env.h, s.blocks[r := b], s.states[r := post], r);
    LeafKeepsSuccession(env.h, env.AnchorRoot(), s.blocks, s.states, r, b, post);
    LeafKeepsKeys(env, s.blocks, b);
  }

  lemma LeafKeepsKeys(env: Env, blocks: Blocks, b: Block)
    requires KeyedByRoot(env, blocks) && b in env.universe
    ensures KeyedByRoot(env, blocks[BlockRoot(env.h, b) := b])
  {
    var blocks' := blocks[BlockRoot(env.h, b) := b];
    forall r | r in blocks' ensures BlockRoot(env.h, blocks'[r]) == r && blocks'[r] in env.universe {
      if r != BlockRoot(env.h, b) { assert BlockRoot(env.h, blocks[r]) == r; }
    }
  }

  lemma ImportKeepsGreatest(blocks: Blocks, anchor: Root, r: Root, b: Block, best: Checkpoint, c: Checkpoint,
                            points: map<Root, Checkpoint>)
    requires IsGreatest(blocks, anchor, best, points) && r !in points && r !in blocks
    requires c.slot > best.slot ==> c.root in blocks[r := b] && blocks[r := b][c.root].slot == c.slot
    ensures IsGreatest(blocks[r := b], anchor, if c.slot > best.slot then c else best, points[r := c])
  {
    var after := points[r := c];
    assert after[r] == c;
    if c.slot <= best.slot && best != Checkpoint(anchor, 0) {
      var x :| x in points && points[x] == best;
      assert x in after && after[x] == best;
    }
  }

  /** The checkpoints of the state that a block leads to name stored blocks. */
  lemma PostCheckpointsStored(env: Env, s: View, b: Block, post: State)
    requires Coherent(env, s) && Importable(env, s, b, post)
    ensures IsStored(s.blocks[BlockRoot(env.h, b) := b], post.justified) && IsStored(s.blocks[BlockRoot(env.h, b) := b], post.finalized)
  {
    var r := BlockRoot(env.h, b);
    var blocks := s.blocks[r := b];
    StoreIsRooted(env, s);
    PostFits(env, s, b, post);
    assert Rooted(blocks) by {
      if r !in s.blocks { ImportIsLeaf(env, s, b, post); LeafKeepsWellFormed(s.blocks, r, b); }
    }
    SoundIsWellKept(post);
    SoundCheckpointsNonzero(post);
    CheckpointIsStored(env, blocks, r, post, post.justified);
    CheckpointIsStored(env, blocks, r, post, post.finalized);
  }

  lemma PostFits(env: Env, s: View, b: Block, post: State)
    requires Coherent(env, s) && Importable(env, s, b, post)
    ensures var r := BlockRoot(env.h, b);
            && WellFormed(s.blocks[r := b]) && StateFits(env, s.blocks[r := b], r, post) && Sound(post)
            && (r in s.blocks ==> s.blocks[r := b] == s.blocks)
  {
    hide Transition, Reachable;
    var r := BlockRoot(env.h, b);
    if r in s.blocks {
      StoredAlready(env, s, b, post);
      assert s.blocks[r := b] == s.blocks;
      assert StateFits(env, s.blocks, r, s.states[r]);
      assert StateFits(env, s.blocks, b.parentRoot, s.states[b.parentRoot]);
      TransitionKeepsSound(env.h, s.states[b.parentRoot], b);
    } else {
      ImportFits(env, s, b, post);
    }
  }

  lemma SoundCheckpointsNonzero(st: State)
    requires Sound(st)
    ensures st.justified.root != ZERO_ROOT && st.finalized.root != ZERO_ROOT
  {
  }

  lemma ImportKeepsCheckpoints(s: View, anchor: Root, r: Root, b: Block, post: State)
    requires r !in s.states && s.blocks.Keys == s.states.Keys
    requires IsGreatest(s.blocks, anchor, s.justified, JustifiedPoints(s.states))
    requires IsGreatest(s.blocks, anchor, s.finalized, FinalizedPoints(s.states))
    requires var blocks := s.blocks[r := b];
             && post.justified.root in blocks && blocks[post.justified.root].slot == post.justified.slot
             && post.finalized.root in blocks && blocks[post.finalized.root].slot == post.finalized.slot
    ensures var t := WithBlock(s, r, b, post);
            && IsGreatest(t.blocks, anchor, t.justified, JustifiedPoints(t.states))
            && IsGreatest(t.blocks, anchor, t.finalized, FinalizedPoints(t.states))
  {
    var t := WithBlock(s, r, b, post);
    assert JustifiedPoints(t.states) == JustifiedPoints(s.states)[r := post.justified];
    assert FinalizedPoints(t.states) == FinalizedPoints(s.states)[r := post.finalized];
    ImportKeepsGreatest(s.blocks, anchor, r, b, s.justified, post.justified, JustifiedPoints(s.states));
    ImportKeepsGreatest(s.blocks, anchor, r, b, s.finalized, post.finalized, FinalizedPoints(s.states));
  }

  /** The part of coherence that does not speak of the head. */
  ghost predicate StoreOk(env: Env, s: View) {
    && env.Valid() && s.genesisTime == env.genesisTime
    && WellFormed(s.blocks) && Linked(env, s.blocks, s.states) && StatesFit(env, s.blocks, s.states)
    && IsStored(s.blocks, s.justified) && IsStored(s.blocks, s.finalized)
    && Descends(s.blocks, s.safeTarget, env.AnchorRoot())
  }

  /** The tree is in order once a new block is stored, and nothing in it is lost. */
  lemma NewBlockKeepsTree(env: Env, s: View, b: Block, post: State)
    requires Coherent(env, s) && Importable(env, s, b, post) && BlockRoot(env.h, b) !in s.blocks
    ensures var blocks, states := s.blocks[BlockRoot(env.h, b) := b], s.states[BlockRoot(env.h, b) := post];
            && WellFormed(blocks) && Linked(env, blocks, states) && StatesFit(env, blocks, states)
            && (forall x, a :: Descends(s.blocks, x, a) ==> Descends(blocks, x, a))
  {
    hide Transition, StatesFit;
    var r := BlockRoot(env.h, b);
    ImportKeepsFit(env, s, b, post);
    ImportIsLeaf(env, s, b, post);
    LeafKeepsLinks(env, s, b, post);
    forall x, a | Descends(s.blocks, x, a) ensures Descends(s.blocks[r := b], x, a) {
      DescentStays(s.blocks, r, b, x, a);
    }
  }

  lemma DescentStays(blocks: Blocks, r: Root, b: Block, x: Root, a: Root)
    requires WellFormed(blocks) && IsNewLeaf(blocks, r, b) && WellFormed(blocks[r := b]) && Descends(blocks, x, a)
    ensures Descends(blocks[r := b], x, a)
  {
    LeafKeepsDescends(blocks, r, b, x, a);
  }

  /** Everything but the head is in order once a block is stored. */
  lemma ImportKeepsStore(env: Env, s: View, b: Block, post: State)
    requires Coherent(env, s) && Importable(env, s, b, post)
    ensures StoreOk(env, WithBlock(s, BlockRoot(env.h, b), b, post))
    ensures Greatest(env, s) ==> Greatest(env, WithBlock(s, BlockRoot(env.h, b), b, post))
  {
    hide Transition, StatesFit, Linked, IsGreatest, Greatest;
    var r := BlockRoot(env.h, b);
    PostCheckpointsStored(env, s, b, post);
    StoredMatches(env, s, b, post);
    if r in s.blocks {
      assert s.blocks[r := b] == s.blocks && s.states[r := post] == s.states;
    } else {
      NewBlockKeepsTree(env, s, b, post);
    }
    if Greatest(env, s) { ImportKeepsGreatestPoints(env, s, b, post); }
  }

  lemma ImportKeepsGreatestPoints(env: Env, s: View, b: Block, post: State)
    requires s.blocks.Keys == s.states.Keys && Greatest(env, s)
    requires var r := BlockRoot(env.h, b); r in s.blocks ==> s.blocks[r] == b && s.states[r] == post
    requires IsStored(s.blocks[BlockRoot(env.h, b) := b], post.justified) && IsStored(s.blocks[BlockRoot(env.h, b) := b], post.finalized)
    ensures Greatest(env, WithBlock(s, BlockRoot(env.h, b), b, post))
  {
    var r := BlockRoot(env.h, b);
    if r in s.blocks { StoringAgain(s, env.AnchorRoot(), r); } else { ImportKeepsCheckpoints(s, env.AnchorRoot(), r, b, post); }
  }

  lemma VotesKeepStore(env: Env, s: View, t: View)
    requires StoreOk(env, s) && t == s.(known := t.known, recent := t.recent, head := t.head)
    ensures StoreOk(env, t) && (Greatest(env, s) ==> Greatest(env, t))
  {
  }

  lemma ImportedKeepsInv(env: Env, s: View, sb: SignedBlock, post: State)
    requires Coherent(env, s) && Importable(env, s, sb.block, post)
    ensures Upholds(env, s, Imported(env.h, s, sb, post))
  {
    hide Transition, Greatest, StatesFit, Linked;
    var t := WithBlock(s, BlockRoot(env.h, sb.block), sb.block, post);
    ImportKeepsStore(env, s, sb.block, post);
    CastBodyOnlyVotes(t, sb.block.body);
    var u := Imported(env.h, s, sb, post);
    VotesKeepStore(env, t, u);
    HeadDescendsFromStart(u.blocks, u.known, 0, u.justified.root);
  }

  /** A checkpoint is only ever replaced by one of a greater slot. */
  predicate Advances(a: Checkpoint, b: Checkpoint) {
    b == a || a.slot < b.slot
  }

  /** Nothing stored is lost or changed, and time and checkpoints only advance. */
  ghost predicate Grows(s: View, t: View) {
    && s.time <= t.time
    && (forall r :: r in s.blocks ==> r in t.blocks && t.blocks[r] == s.blocks[r])
    && (forall r :: r in s.states ==> r in t.states && t.states[r] == s.states[r])
    && Advances(s.justified, t.justified) && Advances(s.finalized, t.finalized)
  }

  lemma GrowsTransitive(s: View, t: View, u: View)
    requires Grows(s, t) && Grows(t, u)
    ensures Grows(s, u)
  {
  }

  lemma ImportGrows(env: Env, s: View, sb: SignedBlock, post: State)
    requires Coherent(env, s) && Importable(env, s, sb.block, post)
    ensures var t, r := Imported(env.h, s, sb, post), BlockRoot(env.h, sb.block);
            Upholds(env, s, t) && Grows(s, t) && t.blocks == s.blocks[r := sb.block] && t.states == s.states[r := post]
  {
    hide Coherent, Greatest, Importable, Imported;
    ImportedKeepsInv(env, s, sb, post);
    ImportedChanges(env.h, s, sb, post);
    StoredMatches(env, s, sb.block, post);
    StoringGrows(s, BlockRoot(env.h, sb.block), sb.block, post);
  }

  lemma StoredMatches(env: Env, s: View, b: Block, post: State)
    requires Coherent(env, s) && Importable(env, s, b, post)
    ensures s.blocks.Keys == s.states.Keys
    ensures var r := BlockRoot(env.h, b); r in s.blocks ==> s.blocks[r] == b && s.states[r] == post
  {
    if BlockRoot(env.h, b) in s.blocks { StoredAlready(env, s, b, post); }
  }

  lemma StoringGrows(s: View, r: Root, b: Block, post: State)
    requires s.blocks.Keys == s.states.Keys && (r in s.blocks ==> s.blocks[r] == b && s.states[r] == post)
    ensures Grows(s, WithBlock(s, r, b, post))
  {
  }

  /** One call of `process_block_internal`, whatever its result. */
  lemma ImportAlwaysGrows(env: Env, s: View, sb: SignedBlock)
    requires Coherent(env, s) && sb.block in env.universe
    ensures var (t, result) := AfterImport(env.h, s, sb);
            && Upholds(env, s, t) && Grows(s, t)
            && (result.Ok? ==> && t.blocks == s.blocks[BlockRoot(env.h, sb.block) := sb.block]
                               && t.states.Keys == s.states.Keys + {BlockRoot(env.h, sb.block)})
            && (!result.Ok? ==> t == s)
  {
    hide Transition, Coherent, Greatest, Imported;
    var parent := sb.block.parentRoot;
    if parent in s.states && Transition(env.h, s.states[parent], sb.block).Ok? {
      ImportGrows(env, s, sb, Transition(env.h, s.states[parent], sb.block).value);
    }
  }
}
