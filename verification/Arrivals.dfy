/** Blocks arriving in any order: the orphan queue, its drain, and what ends up stored. */
module Arrivals {
  import opened Containers
  import opened StateTransitions
  import opened StoreModel
  import opened Imports

  /** Orphans are queued under the root of their missing parent. */
  ghost predicate QueueShape(env: Env, queue: map<Root, seq<SignedBlock>>) {
    forall k :: k in queue ==> ListShape(env, k, queue[k])
  }

  ghost predicate ListShape(env: Env, parent: Root, list: seq<SignedBlock>) {
    forall i :: 0 <= i < |list| ==> list[i].block.parentRoot == parent && list[i].block in env.universe
  }

  lemma QueueKeepsInv(env: Env, s: View, queue: map<Root, seq<SignedBlock>>)
    requires Coherent(env, s)
    ensures Upholds(env, s, s.(queue := queue))
  {
  }

  lemma EnqueueKeepsShape(env: Env, queue: map<Root, seq<SignedBlock>>, sb: SignedBlock)
    requires QueueShape(env, queue) && sb.block in env.universe
    ensures QueueShape(env, Enqueue(queue, sb))
  {
  }

  // The order of import.

  /** Orphans of one parent wait in the order of their arrival. */
  lemma OrphansWaitInOrder(h: Hasher, s: View, sb: SignedBlock)
    requires BlockRoot(h, sb.block) !in s.blocks && sb.block.parentRoot !in s.states && sb.block.parentRoot != ZERO_ROOT
    ensures var (t, result) := AfterArrival(h, s, sb);
            && result == Err(ParentNotAvailable) && t == s.(queue := t.queue)
            && t.queue.Keys == s.queue.Keys + {sb.block.parentRoot}
            && forall k :: k in t.queue ==>
                 t.queue[k] == (if k in s.queue then s.queue[k] else []) + (if k == sb.block.parentRoot then [sb] else [])
  {
  }

  /** They are imported in that order. */
  lemma {:induction false} OrphansImportInOrder(h: Hasher, s: View, first: seq<SignedBlock>, second: seq<SignedBlock>, roots: seq<Root>)
    ensures var (t, more, result) := DrainList(h, s, first, roots);
            DrainList(h, s, first + second, roots) == if result.Panic? then (t, more, result) else DrainList(h, t, second, more)
    decreases |first|
  {
    hide AfterImport;
    if first == [] {
      assert first + second == second;
    } else {
      var (t, result) := AfterImport(h, s, first[0]);
      assert (first + second)[0] == first[0] && (first + second)[1..] == first[1..] + second;
      if !result.Panic? {
        OrphansImportInOrder(h, t, first[1..], second, if result.Ok? then roots + [BlockRoot(h, first[0].block)] else roots);
      }
    }
  }

  lemma {:induction false} DrainListPushes(h: Hasher, s: View, list: seq<SignedBlock>, below: seq<Root>, roots: seq<Root>)
    ensures var (t, more, result) := DrainList(h, s, list, roots);
            DrainList(h, s, list, below + roots) == (t, below + more, result)
    decreases |list|
  {
    hide AfterImport;
    if list != [] {
      var (t, result) := AfterImport(h, s, list[0]);
      if !result.Panic? {
        assert (below + roots) + [BlockRoot(h, list[0].block)] == below + (roots + [BlockRoot(h, list[0].block)]);
        DrainListPushes(h, t, list[1..], below, if result.Ok? then roots + [BlockRoot(h, list[0].block)] else roots);
      }
    }
  }

  /** The drain goes depth first: all that hangs below the roots on top of the stack is imported
      before the roots below them get their turn. */
  lemma {:induction false} DrainIsDepthFirst(h: Hasher, s: View, below: seq<Root>, top: seq<Root>)
    ensures var (t, result) := Drain(h, s, top);
            Drain(h, s, below + top) == if result.Panic? then (t, result) else Drain(h, t, below)
    decreases |s.queue|, |top|
  {
    hide DrainList;
    if top == [] {
      assert below + top == below;
    } else {
      var parent, rest := top[|top| - 1], top[..|top| - 1];
      assert (below + top)[|below + top| - 1] == parent && (below + top)[..|below + top| - 1] == below + rest;
      if parent !in s.queue {
        DrainIsDepthFirst(h, s, below, rest);
      } else {
        QueueShrinks(s.queue, parent);
        var popped := s.(queue := s.queue - {parent});
        DrainListPushes(h, popped, s.queue[parent], below, rest);
        var (t, more, result) := DrainList(h, popped, s.queue[parent], rest);
        if !result.Panic? { DrainIsDepthFirst(h, t, below, more); }
      }
    }
  }

  // Which delivered blocks are where.

  ghost predicate Listed(list: seq<SignedBlock>, d: Block) {
    exists i :: 0 <= i < |list| && list[i].block == d
  }

  ghost predicate Waiting(s: View, d: Block) {
    d.parentRoot in s.queue && Listed(s.queue[d.parentRoot], d)
  }

  ghost predicate Rejected(env: Env, s: View, d: Block) {
    d.parentRoot == ZERO_ROOT || (d.parentRoot in s.states && Transition(env.h, s.states[d.parentRoot], d).Err?)
  }

  /** Every delivered block is stored, rejected for good, waiting for its parent, or among
      the orphans being imported right now. */
  ghost predicate Accounted(env: Env, s: View, delivered: set<Block>, current: seq<SignedBlock>) {
    forall d :: d in delivered ==>
      BlockRoot(env.h, d) in s.blocks || Rejected(env, s, d) || Waiting(s, d) || Listed(current, d)
  }

  /** Nothing was stored or queued that was not delivered. */
  ghost predicate OnlyDelivered(env: Env, s: View, delivered: set<Block>) {
    && delivered <= env.universe
    && (forall r :: r in s.blocks && r != env.AnchorRoot() ==> s.blocks[r] in delivered)
    && (forall k, i :: k in s.queue && 0 <= i < |s.queue[k]| ==> s.queue[k][i].block in delivered)
  }

  /** A queue key whose block is stored is still on the stack. */
  ghost predicate OpenKeys(s: View, roots: seq<Root>) {
    && (forall k :: k in s.queue && k in s.states ==> k in roots)
    && (forall r :: r in roots ==> r in s.states)
  }

  ghost predicate Draining(env: Env, s: View, delivered: set<Block>, current: seq<SignedBlock>, roots: seq<Root>) {
    && Inv(env, s) && QueueShape(env, s.queue)
    && Accounted(env, s, delivered, current) && OnlyDelivered(env, s, delivered) && OpenKeys(s, roots)
  }

  /** Between calls nothing is in flight and no queued parent is stored. */
  ghost predicate Quiet(env: Env, s: View, delivered: set<Block>) {
    Draining(env, s, delivered, [], [])
  }

  lemma RejectionLasts(env: Env, s: View, t: View, d: Block)
    requires Grows(s, t) && Rejected(env, s, d)
    ensures Rejected(env, t, d)
  {
  }

  /** Importing the first orphan of the list takes it off the list. */
  lemma ImportAccounts(env: Env, s: View, delivered: set<Block>, list: seq<SignedBlock>, roots: seq<Root>)
    requires list != [] && Draining(env, s, delivered, list, roots)
    requires list[0].block.parentRoot in s.states && list[0].block in delivered
    ensures var (t, result) := AfterImport(env.h, s, list[0]);
            !result.Panic? ==>
              Draining(env, t, delivered, list[1..], if result.Ok? then roots + [BlockRoot(env.h, list[0].block)] else roots)
  {
    hide Transition, Coherent, Greatest, Imported;
    var sb := list[0];
    ImportAlwaysGrows(env, s, sb);
    var (t, result) := AfterImport(env.h, s, sb);
    if !result.Panic? {
      forall d | d in delivered
        ensures BlockRoot(env.h, d) in t.blocks || Rejected(env, t, d) || Waiting(t, d) || Listed(list[1..], d)
      {
        if Rejected(env, s, d) { RejectionLasts(env, s, t, d); }
        if Listed(list, d) && d != sb.block {
          var i :| 0 <= i < |list| && list[i].block == d;
          assert list[1..][i - 1].block == d;
        }
      }
    }
  }

  lemma {:induction false} DrainListAccounts(env: Env, s: View, delivered: set<Block>, list: seq<SignedBlock>, roots: seq<Root>)
    requires Draining(env, s, delivered, list, roots)
    requires forall i :: 0 <= i < |list| ==> list[i].block.parentRoot in s.states && list[i].block in delivered
    ensures var (t, more, result) := DrainList(env.h, s, list, roots);
            !result.Panic? ==> Draining(env, t, delivered, [], more)
    decreases |list|
  {
    hide Transition, Coherent, Greatest, AfterImport, Draining;
    DrainingFacts(env, s, delivered, list, roots);
    if list != [] {
      ImportAlwaysGrows(env, s, list[0]);
      ImportAccounts(env, s, delivered, list, roots);
      var (t, result) := AfterImport(env.h, s, list[0]);
      if !result.Panic? {
        DrainListAccounts(env, t, delivered, list[1..],
                          if result.Ok? then roots + [BlockRoot(env.h, list[0].block)] else roots);
      }
    }
  }

  lemma DrainingFacts(env: Env, s: View, delivered: set<Block>, list: seq<SignedBlock>, roots: seq<Root>)
    requires Draining(env, s, delivered, list, roots)
    ensures Inv(env, s) && QueueShape(env, s.queue) && delivered <= env.universe
  {
  }

  /** Taking the orphans of `parent` out of the queue puts them in flight. */
  lemma PopAccounts(env: Env, s: View, delivered: set<Block>, roots: seq<Root>)
    requires roots != [] && Draining(env, s, delivered, [], roots) && roots[|roots| - 1] in s.queue
    ensures var parent := roots[|roots| - 1];
            Draining(env, s.(queue := s.queue - {parent}), delivered, s.queue[parent], roots[..|roots| - 1])
    ensures var list := s.queue[roots[|roots| - 1]];
            forall i :: 0 <= i < |list| ==> list[i].block.parentRoot in s.states && list[i].block in delivered
  {
    hide Transition, Coherent, Greatest;
    var parent := roots[|roots| - 1];
    var t := s.(queue := s.queue - {parent});
    QueueKeepsInv(env, s, t.queue);
    forall d | d in delivered
      ensures BlockRoot(env.h, d) in t.blocks || Rejected(env, t, d) || Waiting(t, d) || Listed(s.queue[parent], d)
    {
      assert !Listed([], d);
    }
    assert parent in s.states && ListShape(env, parent, s.queue[parent]);
  }

  lemma {:induction false} DrainAccounts(env: Env, s: View, delivered: set<Block>, roots: seq<Root>)
    requires Draining(env, s, delivered, [], roots)
    ensures var (t, result) := Drain(env.h, s, roots); !result.Panic? ==> Quiet(env, t, delivered)
    decreases |s.queue|, |roots|
  {
    hide Transition, Coherent, Greatest, DrainList, Draining;
    DrainingFacts(env, s, delivered, [], roots);
    if roots != [] {
      var parent, rest := roots[|roots| - 1], roots[..|roots| - 1];
      if parent !in s.queue {
        SkipAccounts(env, s, delivered, roots);
        DrainAccounts(env, s, delivered, rest);
      } else {
        var popped := s.(queue := s.queue - {parent});
        PopAccounts(env, s, delivered, roots);
        QueueShrinks(s.queue, parent);
        DrainingFacts(env, popped, delivered, s.queue[parent], rest);
        DrainListAccounts(env, popped, delivered, s.queue[parent], rest);
        var (t, more, result) := DrainList(env.h, popped, s.queue[parent], rest);
        if !result.Panic? { DrainAccounts(env, t, delivered, more); }
      }
    }
  }

  lemma SkipAccounts(env: Env, s: View, delivered: set<Block>, roots: seq<Root>)
    requires roots != [] && Draining(env, s, delivered, [], roots) && roots[|roots| - 1] !in s.queue
    ensures Draining(env, s, delivered, [], roots[..|roots| - 1])
  {
    hide Transition, Coherent, Greatest;
    assert roots == roots[..|roots| - 1] + [roots[|roots| - 1]];
  }

  /** One call of `on_block`, whatever its result short of a crash. */
  lemma ArrivalAccounts(env: Env, s: View, delivered: set<Block>, sb: SignedBlock)
    requires Quiet(env, s, delivered) && sb.block in env.universe
    ensures var (t, result) := AfterArrival(env.h, s, sb); !result.Panic? ==> Quiet(env, t, delivered + {sb.block})
  {
    hide Transition, Coherent, Greatest, Drain, Imported;
    var root, parent := BlockRoot(env.h, sb.block), sb.block.parentRoot;
    var all := delivered + {sb.block};
    if root in s.blocks {
    } else if parent !in s.states && parent != ZERO_ROOT {
      QueueingAccounts(env, s, delivered, sb);
    } else {
      FirstImportAccounts(env, s, delivered, sb);
      var (t, result) := AfterImport(env.h, s, sb);
      if result.Ok? { DrainAccounts(env, t, all, [root]); }
    }
  }

  lemma QueueingAccounts(env: Env, s: View, delivered: set<Block>, sb: SignedBlock)
    requires Quiet(env, s, delivered) && sb.block in env.universe && sb.block.parentRoot !in s.states
    ensures Quiet(env, s.(queue := Enqueue(s.queue, sb)), delivered + {sb.block})
  {
    hide Transition, Coherent, Greatest;
    var t, all := s.(queue := Enqueue(s.queue, sb)), delivered + {sb.block};
    QueueKeepsInv(env, s, t.queue);
    EnqueueKeepsShape(env, s.queue, sb);
    forall d | d in all
      ensures BlockRoot(env.h, d) in t.blocks || Rejected(env, t, d) || Waiting(t, d) || Listed([], d)
    {
      var list := t.queue[sb.block.parentRoot];
      if d == sb.block {
        assert list[|list| - 1].block == d;
      } else if Waiting(s, d) && d.parentRoot == sb.block.parentRoot {
        var i :| 0 <= i < |s.queue[d.parentRoot]| && s.queue[d.parentRoot][i].block == d;
        assert list[i].block == d;
      }
    }
  }

  lemma FirstImportAccounts(env: Env, s: View, delivered: set<Block>, sb: SignedBlock)
    requires Quiet(env, s, delivered) && sb.block in env.universe
    requires sb.block.parentRoot in s.states || sb.block.parentRoot == ZERO_ROOT
    ensures var (t, result) := AfterImport(env.h, s, sb);
            !result.Panic? ==>
              Draining(env, t, delivered + {sb.block}, [], if result.Ok? then [BlockRoot(env.h, sb.block)] else [])
  {
    hide Transition, Coherent, Greatest, Imported;
    var all := delivered + {sb.block};
    if sb.block.parentRoot in s.states {
      assert [sb][0] == sb && [sb][1..] == [];
      assert Draining(env, s, all, [sb], []);
      ImportAccounts(env, s, all, [sb], []);
    }
  }
}
