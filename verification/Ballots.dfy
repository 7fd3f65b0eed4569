/** What importing a block does to the votes of each validator, in terms of the attestations that
    the block carries. */
module Ballots {
  import opened Containers
  import opened Bits
  import opened BlockTree
  import opened StateTransitions
  import opened StoreModel

  /** Both maps say the same about the validator. */
  predicate SameVote(id: ValidatorId, a: Votes, b: Votes) {
    (id in a <==> id in b) && (id in a ==> a[id] == b[id])
  }

  /** The vote is the newer of the one in the map, if any, and `data`; the older stays on a tie. */
  predicate NewerVote(id: ValidatorId, before: Votes, data: AttestationData, after: Votes) {
    id in after && after[id] == if id in before && before[id].slot >= data.slot then before[id] else data
  }

  /** A pending vote survives exactly if it is later than `data`. */
  predicate OnlyLaterVote(id: ValidatorId, before: Votes, data: AttestationData, after: Votes) {
    && (id in after <==> id in before && before[id].slot > data.slot)
    && (id in after ==> after[id] == before[id])
  }

  ghost predicate NobodyNames(body: seq<AggregatedAttestation>, id: ValidatorId) {
    forall i :: 0 <= i < |body| ==> id !in Members(body[i].bits)
  }

  /** Of the attestations that name the validator, k is the first of the greatest slot. */
  ghost predicate LatestFor(body: seq<AggregatedAttestation>, id: ValidatorId, k: nat) {
    && k < |body| && id in Members(body[k].bits)
    && (forall i :: 0 <= i < |body| && id in Members(body[i].bits) ==> body[i].data.slot <= body[k].data.slot)
    && (forall i :: 0 <= i < k && id in Members(body[i].bits) ==> body[i].data.slot < body[k].data.slot)
  }

  /** What the votes of a body leave for the validator: nothing changes if it is not named;
      otherwise the latest of its votes counts, unless an accepted one is as late, and its
      pending vote is dropped unless that is later. */
  ghost predicate BodyLeaves(s: View, body: seq<AggregatedAttestation>, id: ValidatorId, t: View) {
    && (NobodyNames(body, id) ==> SameVote(id, s.known, t.known) && SameVote(id, s.recent, t.recent))
    && (forall k: nat :: LatestFor(body, id, k) ==>
          NewerVote(id, s.known, body[k].data, t.known) && OnlyLaterVote(id, s.recent, body[k].data, t.recent))
  }

  lemma {:induction false} LatestForExists(body: seq<AggregatedAttestation>, id: ValidatorId) returns (k: nat)
    requires !NobodyNames(body, id)
    ensures LatestFor(body, id, k)
  {
    hide Members;
    var n := |body| - 1;
    var init, last := body[..n], body[n];
    assert forall i :: 0 <= i < n ==> init[i] == body[i];
    if NobodyNames(init, id) {
      k := n;
      assert forall i :: 0 <= i < n ==> id !in Members(body[i].bits);
    } else {
      var j := LatestForExists(init, id);
      k := if id in Members(last.bits) && init[j].data.slot < last.data.slot then n else j;
    }
  }

  /** How the latest vote changes with one more attestation. */
  lemma LatestForNext(body: seq<AggregatedAttestation>, id: ValidatorId, k: nat)
    requires body != [] && LatestFor(body, id, k)
    ensures var n := |body| - 1;
            if id !in Members(body[n].bits) then k < n && LatestFor(body[..n], id, k)
            else if NobodyNames(body[..n], id) then k == n
            else k < n ==> LatestFor(body[..n], id, k) && body[n].data.slot <= body[k].data.slot
  {
    hide Members;
    var n := |body| - 1;
    var init := body[..n];
    assert forall i :: 0 <= i < n ==> init[i] == body[i];
    if k < n { assert id in Members(init[k].bits); }
  }

  lemma {:induction false} CastEachLeaves(s: View, ids: seq<ValidatorId>, data: AttestationData, id: ValidatorId)
    ensures var t := CastEach(s, ids, data);
            if id in ids then NewerVote(id, s.known, data, t.known) && OnlyLaterVote(id, s.recent, data, t.recent)
            else SameVote(id, s.known, t.known) && SameVote(id, s.recent, t.recent)
  {
    if ids != [] {
      var init := ids[..|ids| - 1];
      CastEachLeaves(s, init, data, id);
      assert ids == init + [ids[|ids| - 1]];
    }
  }

  lemma ParticipantsLeave(s: View, att: AggregatedAttestation, id: ValidatorId)
    ensures var t := CastEach(s, Indices(att.bits), att.data);
            if id in Members(att.bits) then NewerVote(id, s.known, att.data, t.known) && OnlyLaterVote(id, s.recent, att.data, t.recent)
            else SameVote(id, s.known, t.known) && SameVote(id, s.recent, t.recent)
  {
    hide Members, CastEach, NewerVote, OnlyLaterVote, SameVote;
    IndicesAreMembers(att.bits);
    assert id in Indices(att.bits) <==> id in Elements(Indices(att.bits));
    CastEachLeaves(s, Indices(att.bits), att.data, id);
  }

  /** Exactly what the votes of a body leave. */
  lemma {:induction false} BodyVotesExact(s: View, body: seq<AggregatedAttestation>, id: ValidatorId)
    ensures BodyLeaves(s, body, id, CastBody(s, body))
  {
    hide Members, CastEach;
    if body != [] {
      var n := |body| - 1;
      var init, last := body[..n], body[n];
      var mid, t := CastBody(s, init), CastBody(s, body);
      BodyVotesExact(s, init, id);
      ParticipantsLeave(mid, last, id);
      assert forall i :: 0 <= i < n ==> init[i] == body[i];
      if !NobodyNames(init, id) { var j := LatestForExists(init, id); OneMoreVote(s, body, id, j, mid, t); }
      forall k: nat | LatestFor(body, id, k)
        ensures NewerVote(id, s.known, body[k].data, t.known) && OnlyLaterVote(id, s.recent, body[k].data, t.recent)
      {
        LatestForNext(body, id, k);
        if NobodyNames(init, id) { assert k == n; }
      }
    }
  }

  /** One more attestation on top of others that name the validator. */
  lemma OneMoreVote(s: View, body: seq<AggregatedAttestation>, id: ValidatorId, j: nat, mid: View, t: View)
    requires body != [] && LatestFor(body[..|body| - 1], id, j)
    requires NewerVote(id, s.known, body[j].data, mid.known) && OnlyLaterVote(id, s.recent, body[j].data, mid.recent)
    requires var last := body[|body| - 1];
             if id in Members(last.bits) then NewerVote(id, mid.known, last.data, t.known) && OnlyLaterVote(id, mid.recent, last.data, t.recent)
             else SameVote(id, mid.known, t.known) && SameVote(id, mid.recent, t.recent)
    ensures forall k: nat :: LatestFor(body, id, k) ==>
              NewerVote(id, s.known, body[k].data, t.known) && OnlyLaterVote(id, s.recent, body[k].data, t.recent)
  {
    hide Members;
    var n := |body| - 1;
    var init, last := body[..n], body[n];
    assert forall i :: 0 <= i < n ==> init[i] == body[i];
    forall k: nat | LatestFor(body, id, k)
      ensures NewerVote(id, s.known, body[k].data, t.known) && OnlyLaterVote(id, s.recent, body[k].data, t.recent)
    {
      LatestForNext(body, id, k);
      if k < n { LatestForUnique(init, id, j, k); }
    }
  }

  lemma LatestForUnique(body: seq<AggregatedAttestation>, id: ValidatorId, j: nat, k: nat)
    requires LatestFor(body, id, j) && LatestFor(body, id, k)
    ensures j == k
  {
    hide Members;
  }

  /** Exactly what a successful import leaves for each validator: first the votes of the body,
      then the vote of the proposer, which waits among the pending ones unless one as late is
      there already. */
  lemma ImportVotesExact(h: Hasher, s: View, sb: SignedBlock, id: ValidatorId) returns (mid: View)
    requires AfterImport(h, s, sb).1.Ok?
    ensures BodyLeaves(s, sb.block.body, id, mid)
    ensures var t, vote := AfterImport(h, s, sb).0, sb.proposerVote;
            && SameVote(id, mid.known, t.known)
            && if id == vote.validatorId then NewerVote(id, mid.recent, vote.data, t.recent) else SameVote(id, mid.recent, t.recent)
  {
    hide Transition, GhostHead, Anchored, CastBody, BodyLeaves;
    var post := Transition(h, s.states[sb.block.parentRoot], sb.block).value;
    var u := WithBlock(s, BlockRoot(h, sb.block), sb.block, post);
    mid := CastBody(u, sb.block.body);
    BodyVotesExact(u, sb.block.body, id);
    LeavesSameVotes(s, u, sb.block.body, id, mid);
  }

  lemma LeavesSameVotes(s: View, u: View, body: seq<AggregatedAttestation>, id: ValidatorId, t: View)
    requires BodyLeaves(u, body, id, t) && u.known == s.known && u.recent == s.recent
    ensures BodyLeaves(s, body, id, t)
  {
    hide Members, LatestFor, NobodyNames;
  }
}
