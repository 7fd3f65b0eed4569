/** The two stages a vote goes through, over whole runs. */
module Pipeline {
  import opened Containers
  import opened Bits
  import opened BlockTree
  import opened StateTransitions
  import opened StoreModel
  import opened Runs

  /** The validators that have a vote in either stage. */
  ghost function Voters(s: View): set<ValidatorId> {
    s.known.Keys + s.recent.Keys
  }

  lemma {:induction false} CastEachKeepsVoters(s: View, ids: seq<ValidatorId>, data: AttestationData)
    ensures Voters(CastEach(s, ids, data)) == Voters(s) + Elements(ids)
  {
    if ids != [] {
      var init, last := ids[..|ids| - 1], ids[|ids| - 1];
      CastEachKeepsVoters(s, init, data);
      assert ids == init + [last];
      assert Elements(ids) == Elements(init) + {last};
      CastOnChainVoters(CastEach(s, init, data), last, data);
    }
  }

  lemma CastOnChainVoters(s: View, id: ValidatorId, data: AttestationData)
    ensures Voters(CastOnChain(s, id, data)) == Voters(s) + {id}
  {
  }

  lemma {:induction false} CastBodyKeepsVoters(s: View, body: seq<AggregatedAttestation>)
    ensures Voters(s) <= Voters(CastBody(s, body))
    ensures forall i :: 0 <= i < |body| ==> Members(body[i].bits) <= Voters(CastBody(s, body))
  {
    hide Members, CastEach, Voters, Elements;
    if body != [] {
      var init, last := body[..|body| - 1], body[|body| - 1];
      CastBodyKeepsVoters(s, init);
      CastEachKeepsVoters(CastBody(s, init), Indices(last.bits), last.data);
      IndicesAreMembers(last.bits);
      assert Voters(CastBody(s, body)) == Voters(CastBody(s, init)) + Members(last.bits);
      forall i | 0 <= i < |body| ensures Members(body[i].bits) <= Voters(CastBody(s, body)) {
        if i < |init| { assert init[i] == body[i]; }
      }
    }
  }

  lemma ImportKeepsVoters(h: Hasher, s: View, sb: SignedBlock)
    ensures Voters(s) <= Voters(AfterImport(h, s, sb).0)
  {
    hide Transition, GhostHead;
    if sb.block.parentRoot in s.states {
      var post := Transition(h, s.states[sb.block.parentRoot], sb.block);
      if post.Ok? { CastBodyKeepsVoters(WithBlock(s, BlockRoot(h, sb.block), sb.block, post.value), sb.block.body); }
    }
  }

  lemma {:induction false} DrainListKeepsVoters(h: Hasher, s: View, list: seq<SignedBlock>, roots: seq<Root>)
    ensures Voters(s) <= Voters(DrainList(h, s, list, roots).0)
    decreases |list|
  {
    hide AfterImport;
    if list != [] {
      ImportKeepsVoters(h, s, list[0]);
      var (t, result) := AfterImport(h, s, list[0]);
      if !result.Panic? {
        DrainListKeepsVoters(h, t, list[1..], if result.Ok? then roots + [BlockRoot(h, list[0].block)] else roots);
      }
    }
  }

  lemma {:induction false} DrainKeepsVoters(h: Hasher, s: View, roots: seq<Root>)
    ensures Voters(s) <= Voters(Drain(h, s, roots).0)
    decreases |s.queue|, |roots|
  {
    hide DrainList;
    if roots != [] {
      var parent, rest := roots[|roots| - 1], roots[..|roots| - 1];
      if parent !in s.queue {
        DrainKeepsVoters(h, s, rest);
      } else {
        QueueShrinks(s.queue, parent);
        var popped := s.(queue := s.queue - {parent});
        DrainListKeepsVoters(h, popped, s.queue[parent], rest);
        var (t, more, result) := DrainList(h, popped, s.queue[parent], rest);
        if !result.Panic? { DrainKeepsVoters(h, t, more); }
      }
    }
  }

  predicate AcceptsAt(k: nat) {
    k % INTERVALS_PER_SLOT == 3
  }

  /** What one interval does: it accepts the pending votes, or leaves them, and recomputes the
      safe target in the third interval of a slot only. */
  lemma IntervalExact(s: View, hasProposal: bool)
    ensures var t := AfterInterval(s, hasProposal);
            && t.time == s.time + 1 && t.genesisTime == s.genesisTime
            && if AcceptsAt(t.time) || (hasProposal && t.time % INTERVALS_PER_SLOT == 0)
               then t.recent == map[] && t.known == s.known + s.recent
               else t.recent == s.recent && t.known == s.known
    ensures AfterInterval(s, hasProposal).safeTarget == if (s.time + 1) % 4 == 2 then WithSafeTarget(s).safeTarget else s.safeTarget
  {
    hide WithAccepted, WithSafeTarget;
    AcceptVotesExact(s.(time := s.time + 1));
    SafeTargetVotesExact(s.(time := s.time + 1));
    SafeTargetIgnoresTime(s, s.time + 1);
  }

  lemma AcceptVotesExact(s: View)
    ensures var t := WithAccepted(s);
            t.time == s.time && t.genesisTime == s.genesisTime && t.recent == map[] && t.known == s.known + s.recent &&
            t.safeTarget == s.safeTarget
  {
    hide GhostHead, Anchored;
  }

  lemma SafeTargetVotesExact(s: View)
    ensures var t := WithSafeTarget(s);
            t.time == s.time && t.genesisTime == s.genesisTime && t.recent == s.recent && t.known == s.known
  {
    hide GhostHead, Anchored;
  }

  lemma {:induction false} TickKeepsVoters(s: View, target: nat, hasProposal: bool)
    ensures Voters(TickTo(s, target, hasProposal)) == Voters(s)
    decreases target - s.time
  {
    hide AfterInterval;
    if s.time < target {
      var signal := hasProposal && s.time + 1 == target;
      IntervalExact(s, signal);
      var t := AfterInterval(s, signal);
      TickKeepsVoters(t, target, hasProposal);
      assert Voters(t) == Voters(s);
    }
  }

  /** No event ever takes a validator's vote out of both stages, whatever its result. */
  lemma EventKeepsVoters(h: Hasher, s: View, e: Event)
    ensures Voters(s) <= Voters(After(h, s, e).0)
  {
    hide GhostHead, Anchored, Drain, AfterImport, TickTo;
    match e
    case Tick(time, hasProposal) =>
      TickKeepsVoters(s, TargetInterval(s, time), hasProposal);
    case Vote(id, data, fromBlock) =>
    case Arrive(signed) =>
      ImportKeepsVoters(h, s, signed);
      DrainKeepsVoters(h, AfterImport(h, s, signed).0, [BlockRoot(h, signed.block)]);
    case Propose(slot) =>
      TickKeepsVoters(s, TargetInterval(s, s.genesisTime + slot * SECONDS_PER_SLOT), true);
  }

  /** Over any run from any store, the set of validators with a vote never shrinks. */
  lemma {:induction false} VotersNeverShrink(h: Hasher, s: View, events: seq<Event>)
    requires Play(h, s, events).Ok?
    ensures Voters(s) <= Voters(Play(h, s, events).value)
    decreases |events|
  {
    hide After;
    if events != [] {
      VotersNeverShrink(h, s, events[..|events| - 1]);
      EventKeepsVoters(h, Play(h, s, events[..|events| - 1]).value, events[|events| - 1]);
    }
  }

  // How long a vote waits.

  /** Some interval after `from` and up to `until` is one in which votes are accepted. */
  ghost predicate AcceptsBetween(from: nat, until: nat) {
    exists k :: from < k <= until && AcceptsAt(k)
  }

  lemma FourIntervalsAccept(from: nat, until: nat)
    requires from + 4 <= until
    ensures AcceptsBetween(from, until)
  {
    var k := from + 1 + (3 - (from + 1) % 4 + 4) % 4;
    assert AcceptsAt(k);
  }

  lemma AcceptsStep(from: nat, until: nat)
    requires from < until
    ensures AcceptsBetween(from, until) <==> AcceptsAt(from + 1) || AcceptsBetween(from + 1, until)
  {
    if AcceptsBetween(from, until) && !AcceptsAt(from + 1) {
      var k :| from < k <= until && AcceptsAt(k);
      assert k > from + 1;
    }
  }

  /** Exactly what ticking without a proposal does to the votes: the pending ones are accepted
      if an accepting interval is passed, and everything stays as it is otherwise. */
  lemma {:induction false} TickVotesExact(s: View, target: nat)
    ensures TickTo(s, target, false).recent == if AcceptsBetween(s.time, target) then map[] else s.recent
    ensures TickTo(s, target, false).known == if AcceptsBetween(s.time, target) then s.known + s.recent else s.known
    ensures TickTo(s, target, false).time == if s.time >= target then s.time else target
    decreases target - s.time
  {
    hide AfterInterval, AcceptsBetween, AcceptsAt;
    if s.time < target {
      var t := AfterInterval(s, false);
      IntervalExact(s, false);
      TickVotesExact(t, target);
      AcceptsStep(s.time, target);
      assert t.known + map[] == t.known;
    } else {
      NothingBetween(s.time, target);
    }
  }

  lemma NothingBetween(from: nat, until: nat)
    requires until <= from
    ensures !AcceptsBetween(from, until)
  {
  }

  /** The event brings no new gossip vote of `id`, neither directly nor as a proposer's vote. */
  ghost predicate AddsNoPending(e: Event, id: ValidatorId) {
    match e
    case Tick(_, _) => true
    case Propose(_) => true
    case Vote(v, _, fromBlock) => v != id || fromBlock
    case Arrive(signed) => signed.proposerVote.validatorId != id
  }

  /** No orphan in the queue was proposed with a vote of `id`. */
  ghost predicate QueueFree(queue: map<Root, seq<SignedBlock>>, id: ValidatorId) {
    forall k, i :: k in queue && 0 <= i < |queue[k]| ==> queue[k][i].proposerVote.validatorId != id
  }

  /** The pending vote of `id` is one that was there before. */
  ghost predicate NothingNew(s: View, t: View, id: ValidatorId) {
    id in t.recent ==> id in s.recent && t.recent[id] == s.recent[id]
  }

  lemma {:induction false} CastEachAddsNothing(s: View, ids: seq<ValidatorId>, data: AttestationData, id: ValidatorId)
    ensures NothingNew(s, CastEach(s, ids, data), id)
  {
    if ids != [] { CastEachAddsNothing(s, ids[..|ids| - 1], data, id); }
  }

  lemma {:induction false} CastBodyAddsNothing(s: View, body: seq<AggregatedAttestation>, id: ValidatorId)
    ensures NothingNew(s, CastBody(s, body), id)
  {
    if body != [] {
      var init, last := body[..|body| - 1], body[|body| - 1];
      CastBodyAddsNothing(s, init, id);
      CastEachAddsNothing(CastBody(s, init), Indices(last.bits), last.data, id);
    }
  }

  lemma ImportAddsNothing(h: Hasher, s: View, sb: SignedBlock, id: ValidatorId)
    requires sb.proposerVote.validatorId != id
    ensures NothingNew(s, AfterImport(h, s, sb).0, id)
  {
    hide Transition, GhostHead, Anchored, CastBody;
    if sb.block.parentRoot in s.states {
      var post := Transition(h, s.states[sb.block.parentRoot], sb.block);
      if post.Ok? { CastBodyAddsNothing(WithBlock(s, BlockRoot(h, sb.block), sb.block, post.value), sb.block.body, id); }
    }
  }

  lemma {:induction false} DrainListAddsNothing(h: Hasher, s: View, list: seq<SignedBlock>, roots: seq<Root>, id: ValidatorId)
    requires forall i :: 0 <= i < |list| ==> list[i].proposerVote.validatorId != id
    ensures NothingNew(s, DrainList(h, s, list, roots).0, id)
    decreases |list|
  {
    hide AfterImport;
    if list != [] {
      ImportAddsNothing(h, s, list[0], id);
      var (t, result) := AfterImport(h, s, list[0]);
      if !result.Panic? {
        DrainListAddsNothing(h, t, list[1..], if result.Ok? then roots + [BlockRoot(h, list[0].block)] else roots, id);
      }
    }
  }

  lemma {:induction false} DrainAddsNothing(h: Hasher, s: View, roots: seq<Root>, id: ValidatorId)
    requires QueueFree(s.queue, id)
    ensures NothingNew(s, Drain(h, s, roots).0, id)
    ensures QueueFree(Drain(h, s, roots).0.queue, id) && Drain(h, s, roots).0.time == s.time
    decreases |s.queue|, |roots|
  {
    hide DrainList;
    if roots != [] {
      var parent, rest := roots[|roots| - 1], roots[..|roots| - 1];
      if parent !in s.queue {
        DrainAddsNothing(h, s, rest, id);
      } else {
        QueueShrinks(s.queue, parent);
        var popped := s.(queue := s.queue - {parent});
        DrainListAddsNothing(h, popped, s.queue[parent], rest, id);
        var (t, more, result) := DrainList(h, popped, s.queue[parent], rest);
        if !result.Panic? { DrainAddsNothing(h, t, more, id); }
      }
    }
  }

  lemma ArrivalAddsNothing(h: Hasher, s: View, sb: SignedBlock, id: ValidatorId)
    requires QueueFree(s.queue, id) && sb.proposerVote.validatorId != id
    ensures NothingNew(s, AfterArrival(h, s, sb).0, id)
    ensures QueueFree(AfterArrival(h, s, sb).0.queue, id) && AfterArrival(h, s, sb).0.time == s.time
  {
    hide AfterImport, Drain;
    ImportAddsNothing(h, s, sb, id);
    var (t, result) := AfterImport(h, s, sb);
    if result.Ok? { DrainAddsNothing(h, t, [BlockRoot(h, sb.block)], id); }
  }

  /** A vote that is still pending has seen no accepting interval. */
  lemma {:induction false} TickPendingOld(s: View, target: nat, hasProposal: bool, id: ValidatorId)
    requires id in TickTo(s, target, hasProposal).recent
    ensures id in s.recent && TickTo(s, target, hasProposal).recent[id] == s.recent[id]
    ensures !AcceptsBetween(s.time, TickTo(s, target, hasProposal).time) && s.time <= TickTo(s, target, hasProposal).time
    decreases target - s.time
  {
    hide AfterInterval;
    if s.time < target {
      var signal := hasProposal && s.time + 1 == target;
      IntervalExact(s, signal);
      TickPendingOld(AfterInterval(s, signal), target, hasProposal, id);
    }
  }

  lemma {:induction false} TickKeepsQueue(s: View, target: nat, hasProposal: bool)
    ensures TickTo(s, target, hasProposal).queue == s.queue
    decreases target - s.time
  {
    hide AfterInterval;
    if s.time < target {
      var signal := hasProposal && s.time + 1 == target;
      IntervalKeepsQueue(s, signal);
      TickKeepsQueue(AfterInterval(s, signal), target, hasProposal);
    }
  }

  lemma IntervalKeepsQueue(s: View, hasProposal: bool)
    ensures AfterInterval(s, hasProposal).queue == s.queue
  {
    hide GhostHead, Anchored;
  }

  lemma EventKeepsQueueFree(h: Hasher, s: View, e: Event, id: ValidatorId)
    requires AddsNoPending(e, id) && QueueFree(s.queue, id)
    ensures QueueFree(After(h, s, e).0.queue, id) && s.time <= After(h, s, e).0.time
  {
    hide GhostHead, Anchored, TickTo, AfterArrival;
    match e
    case Tick(time, hasProposal) =>
      TickKeepsQueue(s, TargetInterval(s, time), hasProposal);
    case Vote(v, data, fromBlock) =>
    case Arrive(signed) =>
      ArrivalAddsNothing(h, s, signed, id);
    case Propose(slot) =>
      TickKeepsQueue(s, TargetInterval(s, s.genesisTime + slot * SECONDS_PER_SLOT), true);
  }

  lemma EventPendingOld(h: Hasher, s: View, e: Event, id: ValidatorId)
    requires AddsNoPending(e, id) && QueueFree(s.queue, id) && id in After(h, s, e).0.recent
    ensures id in s.recent && After(h, s, e).0.recent[id] == s.recent[id]
    ensures !AcceptsBetween(s.time, After(h, s, e).0.time)
  {
    hide GhostHead, Anchored, TickTo, AfterArrival;
    match e
    case Tick(time, hasProposal) =>
      TickPendingOld(s, TargetInterval(s, time), hasProposal, id);
    case Vote(v, data, fromBlock) =>
    case Arrive(signed) =>
      ArrivalAddsNothing(h, s, signed, id);
    case Propose(slot) =>
      assert false;
  }

  lemma {:induction false} RunPendingOld(h: Hasher, s: View, events: seq<Event>, id: ValidatorId)
    requires Play(h, s, events).Ok? && QueueFree(s.queue, id)
    requires forall i :: 0 <= i < |events| ==> AddsNoPending(events[i], id)
    ensures var t := Play(h, s, events).value;
            && QueueFree(t.queue, id) && s.time <= t.time
            && (id in t.recent ==> id in s.recent && t.recent[id] == s.recent[id] && !AcceptsBetween(s.time, t.time))
    decreases |events|
  {
    hide After;
    if events != [] {
      var init, last := events[..|events| - 1], events[|events| - 1];
      var before := Play(h, s, init).value;
      RunPendingOld(h, s, init, id);
      EventKeepsQueueFree(h, before, last, id);
      if id in After(h, before, last).0.recent { EventPendingOld(h, before, last, id); }
    }
  }

  // Without any assumption on who votes when.

  /** Ticking past an accepting interval leaves no vote pending. */
  lemma TickEmpties(s: View, target: nat, hasProposal: bool)
    ensures var t := TickTo(s, target, hasProposal);
            s.time <= t.time && (AcceptsBetween(s.time, t.time) ==> t.recent == map[])
  {
    hide TickTo, AcceptsBetween;
    var t := TickTo(s, target, hasProposal);
    if AcceptsBetween(s.time, t.time) && t.recent != map[] {
      var id :| id in t.recent;
      TickPendingOld(s, target, hasProposal, id);
      assert false;
    }
  }

  lemma EventEmpties(h: Hasher, s: View, e: Event)
    ensures var t := After(h, s, e).0; s.time <= t.time && (AcceptsBetween(s.time, t.time) ==> t.recent == map[])
  {
    hide GhostHead, Anchored, TickTo, AfterImport, Drain, AcceptsBetween;
    NothingBetween(s.time, s.time);
    match e
    case Tick(time, hasProposal) =>
      TickEmpties(s, TargetInterval(s, time), hasProposal);
    case Vote(v, data, fromBlock) =>
    case Arrive(signed) =>
    case Propose(slot) =>
      TickEmpties(s, TargetInterval(s, s.genesisTime + slot * SECONDS_PER_SLOT), true);
  }

  lemma AcceptsSplits(a: nat, b: nat, c: nat)
    requires a <= b <= c && AcceptsBetween(a, c)
    ensures AcceptsBetween(a, b) || AcceptsBetween(b, c)
  {
    var k :| a < k <= c && AcceptsAt(k);
  }

  /** At some point after the start, and at most n events into it, the run passes through a
      store with nothing pending. */
  ghost predicate EmptiesBy(h: Hasher, s: View, events: seq<Event>, n: nat) {
    exists j :: 0 < j <= n && j <= |events| && Play(h, s, events[..j]).Ok? && Play(h, s, events[..j]).value.recent == map[]
  }

  lemma {:induction false} RunEmpties(h: Hasher, s: View, events: seq<Event>, n: nat)
    requires n <= |events| && Play(h, s, events[..n]).Ok?
    ensures s.time <= Play(h, s, events[..n]).value.time
    ensures AcceptsBetween(s.time, Play(h, s, events[..n]).value.time) ==> EmptiesBy(h, s, events, n)
    decreases n
  {
    hide After, AcceptsBetween;
    if n == 0 {
      assert events[..n] == [];
      NothingBetween(s.time, s.time);
    } else {
      assert events[..n][..n - 1] == events[..n - 1];
      var before, t := Play(h, s, events[..n - 1]).value, Play(h, s, events[..n]).value;
      RunEmpties(h, s, events, n - 1);
      EventEmpties(h, before, events[n - 1]);
      if AcceptsBetween(s.time, t.time) { AcceptsSplits(s.time, before.time, t.time); }
    }
  }

  /** Every run of four intervals, whoever votes and whatever arrives meanwhile, passes through
      a store in which no vote is pending and every earlier voter is counted. */
  lemma PendingStageEmpties(h: Hasher, s: View, events: seq<Event>) returns (j: nat)
    requires Play(h, s, events).Ok? && Play(h, s, events).value.time >= s.time + 4
    ensures 0 < j <= |events| && Play(h, s, events[..j]).Ok?
    ensures var t := Play(h, s, events[..j]).value; t.recent == map[] && Voters(s) <= t.known.Keys
  {
    hide Play, AcceptsBetween;
    assert events[..|events|] == events;
    FourIntervalsAccept(s.time, Play(h, s, events).value.time);
    RunEmpties(h, s, events, |events|);
    j :| 0 < j <= |events| && Play(h, s, events[..j]).Ok? && Play(h, s, events[..j]).value.recent == map[];
    VotersNeverShrink(h, s, events[..j]);
  }

  // What becomes of a single vote.

  /** A vote of `id` that is at least as late is pending. */
  predicate Pending(s: View, id: ValidatorId, slot: Slot) {
    id in s.recent && s.recent[id].slot >= slot
  }

  /** A vote of `id` that is at least as late counts. */
  predicate Counts(s: View, id: ValidatorId, slot: Slot) {
    id in s.known && s.known[id].slot >= slot
  }

  lemma {:induction false} CastEachKeepsVote(s: View, ids: seq<ValidatorId>, data: AttestationData, id: ValidatorId, slot: Slot)
    requires Pending(s, id, slot) || Counts(s, id, slot)
    ensures var t := CastEach(s, ids, data); Pending(t, id, slot) || Counts(t, id, slot)
  {
    if ids != [] { CastEachKeepsVote(s, ids[..|ids| - 1], data, id, slot); }
  }

  lemma {:induction false} CastBodyKeepsVote(s: View, body: seq<AggregatedAttestation>, id: ValidatorId, slot: Slot)
    requires Pending(s, id, slot) || Counts(s, id, slot)
    ensures var t := CastBody(s, body); Pending(t, id, slot) || Counts(t, id, slot)
  {
    hide Pending, Counts;
    if body != [] {
      var init, last := body[..|body| - 1], body[|body| - 1];
      CastBodyKeepsVote(s, init, id, slot);
      CastEachKeepsVote(CastBody(s, init), Indices(last.bits), last.data, id, slot);
    }
  }

  lemma ImportKeepsVote(h: Hasher, s: View, sb: SignedBlock, id: ValidatorId, slot: Slot)
    requires Pending(s, id, slot) || Counts(s, id, slot)
    ensures var t := AfterImport(h, s, sb).0; Pending(t, id, slot) || Counts(t, id, slot)
  {
    hide Transition, GhostHead, Anchored, CastBody;
    if sb.block.parentRoot in s.states {
      var post := Transition(h, s.states[sb.block.parentRoot], sb.block);
      if post.Ok? { CastBodyKeepsVote(WithBlock(s, BlockRoot(h, sb.block), sb.block, post.value), sb.block.body, id, slot); }
    }
  }

  lemma {:induction false} DrainListKeepsVote(h: Hasher, s: View, list: seq<SignedBlock>, roots: seq<Root>, id: ValidatorId, slot: Slot)
    requires Pending(s, id, slot) || Counts(s, id, slot)
    ensures var t := DrainList(h, s, list, roots).0; Pending(t, id, slot) || Counts(t, id, slot)
    decreases |list|
  {
    hide AfterImport, Pending, Counts;
    if list != [] {
      ImportKeepsVote(h, s, list[0], id, slot);
      var (t, result) := AfterImport(h, s, list[0]);
      if !result.Panic? {
        DrainListKeepsVote(h, t, list[1..], if result.Ok? then roots + [BlockRoot(h, list[0].block)] else roots, id, slot);
      }
    }
  }

  lemma {:induction false} DrainKeepsVote(h: Hasher, s: View, roots: seq<Root>, id: ValidatorId, slot: Slot)
    requires Pending(s, id, slot) || Counts(s, id, slot)
    ensures var t := Drain(h, s, roots).0; Pending(t, id, slot) || Counts(t, id, slot)
    decreases |s.queue|, |roots|
  {
    hide DrainList;
    if roots != [] {
      var parent, rest := roots[|roots| - 1], roots[..|roots| - 1];
      if parent !in s.queue {
        DrainKeepsVote(h, s, rest, id, slot);
      } else {
        QueueShrinks(s.queue, parent);
        var popped := s.(queue := s.queue - {parent});
        DrainListKeepsVote(h, popped, s.queue[parent], rest, id, slot);
        var (t, more, result) := DrainList(h, popped, s.queue[parent], rest);
        if !result.Panic? { DrainKeepsVote(h, t, more, id, slot); }
      }
    }
  }

  lemma {:induction false} TickAfterAccept(s: View, target: nat, hasProposal: bool)
    requires s.recent == map[]
    ensures var t := TickTo(s, target, hasProposal); t.known == s.known && t.recent == map[]
    decreases target - s.time
  {
    hide AfterInterval;
    if s.time < target {
      var signal := hasProposal && s.time + 1 == target;
      IntervalExact(s, signal);
      TickAfterAccept(AfterInterval(s, signal), target, hasProposal);
    }
  }

  lemma {:induction false} TickKeepsVote(s: View, target: nat, hasProposal: bool, id: ValidatorId, slot: Slot)
    requires Pending(s, id, slot)
    ensures var t := TickTo(s, target, hasProposal);
            (Counts(t, id, slot) && t.recent == map[]) || (Pending(t, id, slot) && !AcceptsBetween(s.time, t.time))
    decreases target - s.time
  {
    hide AfterInterval, AcceptsBetween, AcceptsAt;
    if s.time < target {
      var signal := hasProposal && s.time + 1 == target;
      IntervalExact(s, signal);
      var next := AfterInterval(s, signal);
      if next.recent == map[] {
        TickAfterAccept(next, target, hasProposal);
      } else {
        TickKeepsVote(next, target, hasProposal, id, slot);
        AcceptsStep(s.time, TickTo(next, target, hasProposal).time);
      }
    } else {
      NothingBetween(s.time, s.time);
    }
  }

  lemma EventKeepsVote(h: Hasher, s: View, e: Event, id: ValidatorId, slot: Slot)
    requires Pending(s, id, slot)
    ensures var t := After(h, s, e).0;
            Counts(t, id, slot) || (Pending(t, id, slot) && !AcceptsBetween(s.time, t.time))
  {
    hide GhostHead, Anchored, TickTo, AfterImport, Drain, AcceptsBetween;
    NothingBetween(s.time, s.time);
    match e
    case Tick(time, hasProposal) =>
      TickKeepsVote(s, TargetInterval(s, time), hasProposal, id, slot);
    case Vote(v, data, fromBlock) =>
    case Arrive(signed) =>
      ImportKeepsVote(h, s, signed, id, slot);
      DrainKeepsVote(h, AfterImport(h, s, signed).0, [BlockRoot(h, signed.block)], id, slot);
    case Propose(proposal) =>
      var target := TargetInterval(s, s.genesisTime + proposal * SECONDS_PER_SLOT);
      TickKeepsVote(s, target, true, id, slot);
      AcceptVotesExact(TickTo(s, target, true));
  }

  ghost predicate CountsBy(h: Hasher, s: View, events: seq<Event>, n: nat, id: ValidatorId, slot: Slot) {
    exists j :: 0 < j <= n && j <= |events| && Play(h, s, events[..j]).Ok? && Counts(Play(h, s, events[..j]).value, id, slot)
  }

  lemma {:induction false} RunKeepsVote(h: Hasher, s: View, events: seq<Event>, n: nat, id: ValidatorId, slot: Slot)
    requires Pending(s, id, slot) && n <= |events| && Play(h, s, events[..n]).Ok?
    ensures var t := Play(h, s, events[..n]).value;
            CountsBy(h, s, events, n, id, slot) || (Pending(t, id, slot) && !AcceptsBetween(s.time, t.time))
    decreases n
  {
    hide After, AcceptsBetween, Pending, Counts;
    if n == 0 {
      assert events[..n] == [];
      NothingBetween(s.time, s.time);
    } else {
      assert events[..n][..n - 1] == events[..n - 1];
      var before, t := Play(h, s, events[..n - 1]).value, Play(h, s, events[..n]).value;
      RunKeepsVote(h, s, events, n - 1, id, slot);
      RunEmpties(h, s, events, n - 1);
      if !CountsBy(h, s, events, n - 1, id, slot) {
        EventKeepsVote(h, before, events[n - 1], id, slot);
        EventEmpties(h, before, events[n - 1]);
        if AcceptsBetween(s.time, t.time) { AcceptsSplits(s.time, before.time, t.time); }
      }
    }
  }

  /** No vote is lost: within four intervals, whatever else happens, a vote of its validator
      that is at least as late counts towards the head. */
  lemma PendingVoteCounts(h: Hasher, s: View, events: seq<Event>, id: ValidatorId) returns (j: nat)
    requires Play(h, s, events).Ok? && id in s.recent && Play(h, s, events).value.time >= s.time + 4
    ensures 0 < j <= |events| && Play(h, s, events[..j]).Ok?
    ensures var t := Play(h, s, events[..j]).value; id in t.known && t.known[id].slot >= s.recent[id].slot
  {
    hide Play, AcceptsBetween;
    assert events[..|events|] == events;
    FourIntervalsAccept(s.time, Play(h, s, events).value.time);
    var slot := s.recent[id].slot;
    RunKeepsVote(h, s, events, |events|, id, slot);
    j :| 0 < j <= |events| && Play(h, s, events[..j]).Ok? && Counts(Play(h, s, events[..j]).value, id, slot);
  }

  // A validator that falls silent.

  /** A vote at least as late is pending or counts, and no earlier one is pending. */
  predicate Standing(s: View, id: ValidatorId, slot: Slot) {
    (Pending(s, id, slot) || Counts(s, id, slot)) && (id in s.recent ==> s.recent[id].slot >= slot)
  }

  lemma {:induction false} TickKeepsStanding(s: View, target: nat, hasProposal: bool, id: ValidatorId, slot: Slot)
    requires Standing(s, id, slot)
    ensures Standing(TickTo(s, target, hasProposal), id, slot)
    decreases target - s.time
  {
    hide AfterInterval;
    if s.time < target {
      var signal := hasProposal && s.time + 1 == target;
      IntervalExact(s, signal);
      TickKeepsStanding(AfterInterval(s, signal), target, hasProposal, id, slot);
    }
  }

  lemma EventKeepsStanding(h: Hasher, s: View, e: Event, id: ValidatorId, slot: Slot)
    requires Standing(s, id, slot) && AddsNoPending(e, id) && QueueFree(s.queue, id)
    ensures Standing(After(h, s, e).0, id, slot)
  {
    hide GhostHead, Anchored, TickTo, AfterImport, Drain;
    match e
    case Tick(time, hasProposal) =>
      TickKeepsStanding(s, TargetInterval(s, time), hasProposal, id, slot);
    case Vote(v, data, fromBlock) =>
    case Arrive(signed) =>
      ArrivalAddsNothing(h, s, signed, id);
      ImportKeepsVote(h, s, signed, id, slot);
      DrainKeepsVote(h, AfterImport(h, s, signed).0, [BlockRoot(h, signed.block)], id, slot);
    case Propose(proposal) =>
      var target := TargetInterval(s, s.genesisTime + proposal * SECONDS_PER_SLOT);
      TickKeepsStanding(s, target, true, id, slot);
      AcceptVotesExact(TickTo(s, target, true));
  }

  lemma {:induction false} RunKeepsStanding(h: Hasher, s: View, events: seq<Event>, id: ValidatorId, slot: Slot)
    requires Play(h, s, events).Ok? && QueueFree(s.queue, id) && Standing(s, id, slot)
    requires forall i :: 0 <= i < |events| ==> AddsNoPending(events[i], id)
    ensures Standing(Play(h, s, events).value, id, slot)
    decreases |events|
  {
    hide After, Standing, QueueFree, AddsNoPending;
    if events != [] {
      var init := events[..|events| - 1];
      RunKeepsStanding(h, s, init, id, slot);
      RunPendingOld(h, s, init, id);
      EventKeepsStanding(h, Play(h, s, init).value, events[|events| - 1], id, slot);
    }
  }

  /** If the validator sends no further vote, then after four intervals nothing of it is pending,
      and the vote that counts for it is at least as late as the one that was. */
  lemma PendingVotesAreAccepted(h: Hasher, s: View, events: seq<Event>, id: ValidatorId)
    requires Play(h, s, events).Ok? && id in s.recent && QueueFree(s.queue, id)
    requires forall i :: 0 <= i < |events| ==> AddsNoPending(events[i], id)
    requires Play(h, s, events).value.time >= s.time + 4
    ensures var t := Play(h, s, events).value;
            id !in t.recent && id in t.known && t.known[id].slot >= s.recent[id].slot
  {
    hide Play, AddsNoPending;
    var t := Play(h, s, events).value;
    FourIntervalsAccept(s.time, t.time);
    RunPendingOld(h, s, events, id);
    RunKeepsStanding(h, s, events, id, s.recent[id].slot);
  }

  // Which of several votes is kept.

  function CastAllByGossip(s: View, id: ValidatorId, votes: seq<AttestationData>): View {
    if votes == [] then s else CastByGossip(CastAllByGossip(s, id, votes[..|votes| - 1]), id, votes[|votes| - 1])
  }

  function CastAllOnChain(s: View, id: ValidatorId, votes: seq<AttestationData>): View {
    if votes == [] then s else CastOnChain(CastAllOnChain(s, id, votes[..|votes| - 1]), id, votes[|votes| - 1])
  }

  /** The first of the votes with the greatest slot. */
  ghost predicate IsLatest(votes: seq<AttestationData>, k: nat) {
    && k < |votes| && (forall i :: 0 <= i < |votes| ==> votes[i].slot <= votes[k].slot)
    && (forall i :: 0 <= i < k ==> votes[i].slot < votes[k].slot)
  }

  lemma LatestOfPrefix(votes: seq<AttestationData>, k: nat, j: nat)
    requires IsLatest(votes, k) && |votes| > 1 && IsLatest(votes[..|votes| - 1], j)
    ensures k == if votes[j].slot < votes[|votes| - 1].slot then |votes| - 1 else j
  {
    var init := votes[..|votes| - 1];
    assert forall i :: 0 <= i < |init| ==> init[i] == votes[i];
  }

  lemma {:induction false} LatestExists(votes: seq<AttestationData>) returns (k: nat)
    requires votes != []
    ensures IsLatest(votes, k)
  {
    if |votes| == 1 {
      k := 0;
    } else {
      var init := votes[..|votes| - 1];
      var j := LatestExists(init);
      assert forall i :: 0 <= i < |init| ==> init[i] == votes[i];
      k := if votes[j].slot < votes[|votes| - 1].slot then |votes| - 1 else j;
    }
  }

  /** Of all the votes that a validator gossips while none is pending, the pending stage holds
      the latest; of equally late ones the first. */
  lemma {:induction false} GossipKeepsLatest(s: View, id: ValidatorId, votes: seq<AttestationData>, k: nat)
    requires id !in s.recent && IsLatest(votes, k)
    ensures CastAllByGossip(s, id, votes) == s.(recent := s.recent[id := votes[k]])
    decreases |votes|
  {
    var init := votes[..|votes| - 1];
    if init == [] {
      assert k == 0 && CastAllByGossip(s, id, init) == s;
    } else {
      var j := LatestExists(init);
      LatestOfPrefix(votes, k, j);
      GossipKeepsLatest(s, id, init, j);
    }
  }

  /** Of all the votes that blocks carry for a validator without an accepted vote, the accepted
      stage holds the latest, and no pending vote remains that is not later still. */
  lemma {:induction false} ChainKeepsLatest(s: View, id: ValidatorId, votes: seq<AttestationData>, k: nat)
    requires id !in s.known && IsLatest(votes, k)
    ensures var t := CastAllOnChain(s, id, votes);
            && t.known == s.known[id := votes[k]]
            && t.recent == if id in s.recent && s.recent[id].slot <= votes[k].slot then s.recent - {id} else s.recent
    decreases |votes|
  {
    var init := votes[..|votes| - 1];
    if init == [] {
      assert k == 0 && CastAllOnChain(s, id, init) == s;
    } else {
      var j := LatestExists(init);
      LatestOfPrefix(votes, k, j);
      ChainKeepsLatest(s, id, init, j);
    }
  }

  // From gossip to weight.

  /** A valid gossip vote that is later than the validator's pending one counts, once votes are
      accepted, for its head block and for every ancestor of it, and for nothing else. */
  lemma GossipVoteCounts(s: View, id: ValidatorId, data: AttestationData, b: Root)
    requires Anchored(s) && Validate(s, data).Ok? && (id in s.recent ==> s.recent[id].slot < data.slot)
    ensures var t := WithAccepted(AfterAttestation(s, id, data, false).0);
            && t.blocks == s.blocks && t.known[id] == data && data.head.root in s.blocks
            && (id in Supporters(t.blocks, t.known, b) <==> Descends(s.blocks, data.head.root, b))
  {
    hide GhostHead, Descends;
    AcceptVotesExact(AfterAttestation(s, id, data, false).0);
  }

  /** One whole slot without a proposal, from the interval in which votes were accepted to the
      next such interval: the safe target is recomputed from the pending votes, and then
      they are accepted. */
  lemma SlotExact(s: View)
    requires AcceptsAt(s.time)
    ensures TickTo(s, s.time + 4, false) == WithAccepted(WithSafeTarget(s)).(time := s.time + 4)
  {
    hide WithSafeTarget, WithAccepted, TickTo, AfterInterval, AcceptsAt;
    UpToSafeTarget(s);
    var c := WithSafeTarget(s).(time := s.time + 3);
    var d := WithAccepted(WithSafeTarget(s)).(time := s.time + 4);
    AcceptIgnoresTime(WithSafeTarget(s), s.time + 3);
    PhasesFrom(s.time);
    PhaseOf(c);
    TickOnce(c, s.time + 4, d);
    TickDone(d, s.time + 4);
  }

  lemma PhasesFrom(time: nat)
    requires AcceptsAt(time)
    ensures (time + 1) % INTERVALS_PER_SLOT == 0 && (time + 2) % INTERVALS_PER_SLOT == 1
    ensures (time + 3) % INTERVALS_PER_SLOT == 2 && (time + 4) % INTERVALS_PER_SLOT == 3
  {
  }

  lemma UpToSafeTarget(s: View)
    requires AcceptsAt(s.time)
    ensures TickTo(s, s.time + 4, false) == TickTo(WithSafeTarget(s).(time := s.time + 3), s.time + 4, false)
  {
    hide WithSafeTarget, WithAccepted, TickTo, AfterInterval, AcceptsAt;
    var b := s.(time := s.time + 2);
    TwoIdleIntervals(s);
    PhasesFrom(s.time);
    PhaseOf(b);
    SafeTargetIgnoresTime(s, s.time + 2);
    TickOnce(b, s.time + 4, WithSafeTarget(s).(time := s.time + 3));
  }

  lemma TwoIdleIntervals(s: View)
    requires AcceptsAt(s.time)
    ensures TickTo(s, s.time + 4, false) == TickTo(s.(time := s.time + 2), s.time + 4, false)
  {
    hide WithSafeTarget, WithAccepted, TickTo, AfterInterval, AcceptsAt;
    var a := s.(time := s.time + 1);
    PhasesFrom(s.time);
    PhaseOf(s);
    TickOnce(s, s.time + 4, a);
    PhaseOf(a);
    TickOnce(a, s.time + 4, a.(time := s.time + 2));
  }

  lemma PhaseOf(s: View)
    ensures var phase, t := (s.time + 1) % INTERVALS_PER_SLOT, AfterInterval(s, false);
            && (phase == 0 || phase == 1 ==> t == s.(time := s.time + 1))
            && (phase == 2 ==> t == WithSafeTarget(s).(time := s.time + 1))
            && (phase == 3 ==> t == WithAccepted(s).(time := s.time + 1))
  {
    hide WithSafeTarget, WithAccepted;
    SafeTargetIgnoresTime(s, s.time + 1);
    AcceptIgnoresTime(s, s.time + 1);
  }

  lemma SafeTargetIgnoresTime(s: View, time: nat)
    ensures WithSafeTarget(s.(time := time)) == WithSafeTarget(s).(time := time)
  {
    hide GhostHead;
  }

  lemma AcceptIgnoresTime(s: View, time: nat)
    ensures WithAccepted(s.(time := time)) == WithAccepted(s).(time := time)
  {
    hide GhostHead;
  }

  lemma TickDone(s: View, target: nat)
    requires s.time >= target
    ensures TickTo(s, target, false) == s
  {
  }

  lemma TickOnce(s: View, target: nat, t: View)
    requires s.time < target && AfterInterval(s, false) == t
    ensures TickTo(s, target, false) == TickTo(t, target, false)
  {
  }

  // The clock.

  lemma {:induction false} TickTimeExact(s: View, target: nat, hasProposal: bool)
    ensures TickTo(s, target, hasProposal).time == if s.time >= target then s.time else target
    decreases target - s.time
  {
    hide AfterInterval;
    if s.time < target {
      var signal := hasProposal && s.time + 1 == target;
      IntervalExact(s, signal);
      TickTimeExact(AfterInterval(s, signal), target, hasProposal);
    }
  }

  /** The clock of the store shows the seconds since genesis, and never goes back; a tick up to
      genesis does nothing. */
  lemma ClockExact(s: View, seconds: nat, hasProposal: bool)
    ensures AfterTick(s, s.genesisTime + seconds, hasProposal).time == if seconds >= s.time then seconds else s.time
    ensures forall now: nat :: now <= s.genesisTime ==> AfterTick(s, now, hasProposal) == s
  {
    hide AfterInterval;
    TickTimeExact(s, seconds, hasProposal);
    assert (s.genesisTime + seconds - s.genesisTime) / 1 == seconds;
  }

  /** A proposal for a slot brings the clock to the four intervals of that slot, if it is not
      there yet, and leaves no vote pending. */
  lemma ProposalClockExact(s: View, slot: Slot)
    ensures AtProposal(s, slot).time == if 4 * slot >= s.time then 4 * slot else s.time
    ensures AtProposal(s, slot).recent == map[] && Voters(AtProposal(s, slot)) == Voters(s)
    ensures AtProposal(s, slot).known.Keys == Voters(s)
  {
    hide TickTo, WithAccepted;
    var target := TargetInterval(s, s.genesisTime + slot * SECONDS_PER_SLOT);
    assert target == 4 * slot;
    TickTimeExact(s, target, true);
    TickKeepsVoters(s, target, true);
    AcceptVotesExact(TickTo(s, target, true));
  }

  lemma {:induction false} LastIntervalHasProposal(s: View, target: nat)
    requires s.time < target
    ensures TickTo(s, target, true) == AfterInterval(TickTo(s, target - 1, false), true)
    decreases target - s.time
  {
    hide AfterInterval;
    if s.time + 1 < target {
      LastIntervalHasProposal(AfterInterval(s, false), target);
    }
  }

  /** Exactly what ticking with a proposal does to the votes: besides the accepting intervals
      that are passed, the first interval of a slot accepts them if the ticking ends there. */
  lemma TickWithProposalExact(s: View, target: nat)
    requires s.time < target
    ensures var accepts := AcceptsBetween(s.time, target) || target % 4 == 0;
            && TickTo(s, target, true).recent == (if accepts then map[] else s.recent)
            && TickTo(s, target, true).known == (if accepts then s.known + s.recent else s.known)
  {
    hide AfterInterval, TickTo, AcceptsBetween, WithSafeTarget;
    var last := TickTo(s, target - 1, false);
    LastIntervalHasProposal(s, target);
    TickVotesExact(s, target - 1);
    IntervalExact(last, true);
    AcceptsSnoc(s.time, target);
    NothingMore(last.known);
  }

  lemma NothingMore(known: Votes)
    ensures known + map[] == known
  {
  }

  lemma AcceptsSnoc(from: nat, until: nat)
    requires from < until
    ensures AcceptsBetween(from, until) <==> AcceptsBetween(from, until - 1) || AcceptsAt(until)
  {
    if AcceptsBetween(from, until) && !AcceptsAt(until) {
      var k :| from < k <= until && AcceptsAt(k);
      assert k <= until - 1;
    }
  }

  // Ticking in one go or in several.

  lemma {:induction false} TickToCompose(s: View, first: nat, second: nat, hasProposal: bool)
    requires first < second || (first == second && !hasProposal)
    ensures TickTo(TickTo(s, first, false), second, hasProposal) == TickTo(s, second, hasProposal)
    decreases first - s.time
  {
    hide AfterInterval;
    if s.time < first {
      TickToCompose(AfterInterval(s, false), first, second, hasProposal);
    }
  }

  lemma {:induction false} TickKeepsGenesisTime(s: View, target: nat, hasProposal: bool)
    ensures TickTo(s, target, hasProposal).genesisTime == s.genesisTime
    decreases target - s.time
  {
    hide AfterInterval;
    if s.time < target {
      var signal := hasProposal && s.time + 1 == target;
      IntervalExact(s, signal);
      TickKeepsGenesisTime(AfterInterval(s, signal), target, hasProposal);
    }
  }

  /** Ticking to one time and then to a later one is the same as ticking to the later one at
      once, with or without a proposal at the end. */
  lemma TicksCompose(s: View, first: nat, second: nat)
    requires first <= second
    ensures AfterTick(AfterTick(s, first, false), second, false) == AfterTick(s, second, false)
    ensures TargetInterval(s, first) < TargetInterval(s, second) ==>
              AfterTick(AfterTick(s, first, false), second, true) == AfterTick(s, second, true)
  {
    hide TickTo;
    TickKeepsGenesisTime(s, TargetInterval(s, first), false);
    TickToCompose(s, TargetInterval(s, first), TargetInterval(s, second), false);
    if TargetInterval(s, first) < TargetInterval(s, second) {
      TickToCompose(s, TargetInterval(s, first), TargetInterval(s, second), true);
    }
  }
}
