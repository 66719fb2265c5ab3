/** What every interleaving of the `Idempotency-Key` steps keeps. */
module IdempotencySafety {
  import opened Prelude
  import opened Idempotency

  // ---- the invariant ----

  predicate SameSlot(s: State, a: nat, b: nat)
    requires a in s.requests && b in s.requests
  {
    s.requests[a].call.slot == s.requests[b].call.slot
  }

  predicate IsEffective(s: State, id: nat) {
    id in s.requests && Effective(s.requests[id].phase)
  }

  predicate IsHolding(s: State, id: nat) {
    id in s.requests && Holding(s.requests[id].phase)
  }

  predicate Owns(s: State, id: nat)
    requires id in s.requests
  {
    var slot := s.requests[id].call.slot;
    slot in s.table && slot in s.claimer && s.claimer[slot] == id
  }

  /** A purge more than the retention after a's claim came no later than b's claim. */
  ghost predicate Separated(s: State, a: nat, b: nat)
    requires a in s.requests && b in s.requests
  {
    exists p :: p in s.purges && s.requests[a].claimedAt + RETENTION < p <= s.requests[b].claimedAt
  }

  /** The row this request inserted was purged, and whatever is in the slot now came later. */
  ghost predicate Expired(s: State, id: nat)
    requires id in s.requests
  {
    var slot := s.requests[id].call.slot;
    exists p :: p in s.purges && s.requests[id].claimedAt + RETENTION < p
                && (slot in s.table ==> p <= s.table[slot].createdAt)
  }

  /** Every row describes the request that inserted it; a stored reply is that request's own 2xx. */
  predicate RowMatches(s: State, slot: Slot)
    requires slot in s.table
  {
    && slot in s.claimer
    && var id := s.claimer[slot];
    && var row := s.table[slot];
    && id in s.requests
    && var r := s.requests[id];
    && r.call == Call(slot, row.route, row.requestHash)
    && r.claimedAt == row.createdAt <= s.now
    && (Claimed(r.phase) || r.phase == Refused(DatabaseError))
    && (row.stored.Some? ==> Completed(r.phase) && Answer(r.phase) == row.stored)
  }

  ghost predicate Rows(s: State) {
    s.claimer.Keys == s.table.Keys && forall slot | slot in s.table :: RowMatches(s, slot)
  }

  ghost predicate Clock(s: State) {
    && (forall p | p in s.purges :: p <= s.now)
    && (forall id | id in s.requests && Claimed(s.requests[id].phase) :: s.requests[id].claimedAt <= s.now)
  }

  /** A request still at work on a slot owns its row, and the row has no reply yet. */
  ghost predicate Holders(s: State) {
    forall id | IsHolding(s, id) :: Owns(s, id) && s.table[s.requests[id].call.slot].stored.None?
  }

  ghost predicate Kept(s: State) {
    forall id | IsEffective(s, id) :: Owns(s, id) || Expired(s, id)
  }

  ghost predicate Spaced(s: State) {
    forall a, b | IsEffective(s, a) && IsEffective(s, b) && a != b && SameSlot(s, a, b) ::
      Separated(s, a, b) || Separated(s, b, a)
  }

  ghost predicate HasSource(s: State, id: nat, reply: Reply)
    requires id in s.requests
  {
    exists e :: e in s.requests && Completed(s.requests[e].phase) && Answer(s.requests[e].phase) == Some(reply)
                && s.requests[e].call == s.requests[id].call
  }

  ghost predicate Replays(s: State) {
    forall id | id in s.requests && s.requests[id].phase.Replayed? :: HasSource(s, id, s.requests[id].phase.reply)
  }

  ghost predicate Inv(s: State) {
    Rows(s) && Clock(s) && Holders(s) && Kept(s) && Spaced(s) && Replays(s)
  }

  // ---- the assumption: a purge finds no handler older than the retention ----

  ghost predicate Timely(s: State, tenantId: Option<string>) {
    forall id | IsHolding(s, id) && (tenantId.None? || s.requests[id].call.slot.scopeId == tenantId.value) ::
      s.now - RETENTION <= s.requests[id].claimedAt
  }

  ghost predicate AllTimely(s: State, steps: seq<Step>)
    decreases |steps|
  {
    steps == [] || ((steps[0].Purge? ==> Timely(s, steps[0].tenantId)) && AllTimely(Apply(s, steps[0]), steps[1..]))
  }

  predicate NoPurge(steps: seq<Step>) {
    forall i | 0 <= i < |steps| :: !steps[i].Purge?
  }

  // ---- every step keeps the invariant ----

  /** Effective requests only ever stop being effective, so the spacing of the others stands. */
  lemma SpacedFrame(s: State, t: State)
    requires Spaced(s) && s.purges <= t.purges
    requires forall id | IsEffective(t, id) ::
               IsEffective(s, id) && t.requests[id].call == s.requests[id].call
               && t.requests[id].claimedAt == s.requests[id].claimedAt
    ensures Spaced(t)
  {
    forall a, b | IsEffective(t, a) && IsEffective(t, b) && a != b && SameSlot(t, a, b)
      ensures Separated(t, a, b) || Separated(t, b, a)
    {
      assert IsEffective(s, a) && IsEffective(s, b) && SameSlot(s, a, b);
      assert forall p | p in s.purges :: p in t.purges;
    }
  }

  /** A request may move to phase p without touching the table. */
  ghost predicate MayMove(s: State, id: nat, p: Phase) {
    && id in s.requests
    && var q := s.requests[id].phase;
    && (Claimed(p) <==> Claimed(q))
    && (Effective(p) ==> Effective(q)) && (Holding(p) ==> Holding(q))
    && (Completed(q) ==> Completed(p) && Answer(p) == Answer(q))
    && (q == Refused(DatabaseError) ==> p == Refused(DatabaseError))
    && (p.Replayed? ==> HasSource(s, id, p.reply))
  }

  lemma MovedRows(s: State, id: nat, p: Phase)
    requires Rows(s) && Clock(s) && MayMove(s, id, p)
    ensures Rows(SetPhase(s, id, p)) && Clock(SetPhase(s, id, p))
  {
    var t := SetPhase(s, id, p);
    forall slot | slot in t.table ensures RowMatches(t, slot) {
      assert RowMatches(s, slot);
    }
  }

  lemma MovedKept(s: State, id: nat, p: Phase)
    requires Kept(s) && Holders(s) && MayMove(s, id, p)
    ensures Kept(SetPhase(s, id, p)) && Holders(SetPhase(s, id, p))
  {
    var t := SetPhase(s, id, p);
    forall i | IsEffective(t, i) ensures Owns(t, i) || Expired(t, i) {
      assert IsEffective(s, i);
    }
    forall i | IsHolding(t, i) ensures Owns(t, i) && t.table[t.requests[i].call.slot].stored.None? {
      assert IsHolding(s, i);
    }
  }

  lemma MovedReplays(s: State, id: nat, p: Phase)
    requires Replays(s) && MayMove(s, id, p)
    ensures Replays(SetPhase(s, id, p))
  {
    var t := SetPhase(s, id, p);
    forall r | r in t.requests && t.requests[r].phase.Replayed? ensures HasSource(t, r, t.requests[r].phase.reply) {
      var reply := t.requests[r].phase.reply;
      assert HasSource(s, r, reply);
      var e :| e in s.requests && Completed(s.requests[e].phase) && Answer(s.requests[e].phase) == Some(reply)
               && s.requests[e].call == s.requests[r].call;
      assert e in t.requests && Completed(t.requests[e].phase);
    }
  }

  /** Moving one request's phase forward, with the table untouched. */
  lemma PhaseKeeps(s: State, id: nat, p: Phase)
    requires Inv(s) && MayMove(s, id, p)
    ensures Inv(SetPhase(s, id, p))
  {
    MovedRows(s, id, p);
    MovedKept(s, id, p);
    MovedReplays(s, id, p);
    SpacedFrame(s, SetPhase(s, id, p));
  }

  lemma TickKeeps(s: State, elapsed: nat)
    requires Inv(s)
    ensures Inv(s.(now := s.now + elapsed))
  {
    var t := s.(now := s.now + elapsed);
    forall id | IsEffective(t, id) ensures Owns(t, id) || Expired(t, id) {
      assert IsEffective(s, id);
    }
    SpacedFrame(s, t);
    forall id | IsHolding(t, id) ensures Owns(t, id) && t.table[t.requests[id].call.slot].stored.None? {
      assert IsHolding(s, id);
    }
    forall id | id in t.requests && t.requests[id].phase.Replayed?
        ensures HasSource(t, id, t.requests[id].phase.reply) {
      assert HasSource(s, id, t.requests[id].phase.reply);
    }
  }

  /** Replays keep their source while every request keeps its call and its answer. */
  lemma ReplaysGrow(s: State, t: State)
    requires Replays(s)
    requires forall e | e in s.requests && Completed(s.requests[e].phase) ::
               e in t.requests && t.requests[e].call == s.requests[e].call && Completed(t.requests[e].phase)
               && Answer(t.requests[e].phase) == Answer(s.requests[e].phase)
    requires forall r | r in t.requests && t.requests[r].phase.Replayed? ::
               r in s.requests && s.requests[r] == t.requests[r]
    ensures Replays(t)
  {
    forall r | r in t.requests && t.requests[r].phase.Replayed? ensures HasSource(t, r, t.requests[r].phase.reply) {
      assert HasSource(s, r, t.requests[r].phase.reply);
      var e :| e in s.requests && Completed(s.requests[e].phase)
               && Answer(s.requests[e].phase) == Some(t.requests[r].phase.reply)
               && s.requests[e].call == s.requests[r].call;
      assert e in t.requests && Completed(t.requests[e].phase);
    }
  }

  lemma ArriveKeeps(s: State, id: nat, call: Call)
    requires Inv(s) && id !in s.requests
    ensures Inv(Apply(s, Arrive(id, call)))
  {
    var t := Apply(s, Arrive(id, call));
    forall i | IsEffective(t, i) ensures Owns(t, i) || Expired(t, i) {
      assert IsEffective(s, i);
    }
    SpacedFrame(s, t);
    forall i | IsHolding(t, i) ensures Owns(t, i) && t.table[t.requests[i].call.slot].stored.None? {
      assert IsHolding(s, i);
    }
    ReplaysGrow(s, t);
  }

  lemma ClaimedRows(s: State, id: nat, next: Phase)
    requires Rows(s) && At(s, id, Arrived) && s.requests[id].call.slot !in s.table
    requires next == Running || next == Refused(DatabaseError)
    ensures Rows(ClaimRow(s, id, next))
  {
    var t := ClaimRow(s, id, next);
    forall x | x in t.table ensures RowMatches(t, x) {
      if x in s.table {
        assert RowMatches(s, x);
      }
    }
  }

  /** Inserting into an empty slot: every earlier effective request of the slot must have expired. */
  lemma ClaimedKept(s: State, id: nat, next: Phase)
    requires Inv(s) && At(s, id, Arrived) && s.requests[id].call.slot !in s.table
    requires next == Running || next == Refused(DatabaseError)
    ensures Kept(ClaimRow(s, id, next))
  {
    var t := ClaimRow(s, id, next);
    var slot := s.requests[id].call.slot;
    forall i | IsEffective(t, i) ensures Owns(t, i) || Expired(t, i) {
      if i != id {
        assert IsEffective(s, i);
        if s.requests[i].call.slot == slot {
          assert Expired(s, i);
          var p :| p in s.purges && s.requests[i].claimedAt + RETENTION < p;
          assert p in t.purges && p <= t.table[slot].createdAt;
        }
      }
    }
  }

  lemma ClaimedSpaced(s: State, id: nat, next: Phase)
    requires Inv(s) && At(s, id, Arrived) && s.requests[id].call.slot !in s.table
    requires next == Running || next == Refused(DatabaseError)
    ensures Spaced(ClaimRow(s, id, next))
  {
    var t := ClaimRow(s, id, next);
    forall a, b | IsEffective(t, a) && IsEffective(t, b) && a != b && SameSlot(t, a, b)
      ensures Separated(t, a, b) || Separated(t, b, a)
    {
      if a != id && b != id {
        assert IsEffective(s, a) && IsEffective(s, b) && SameSlot(s, a, b);
      } else {
        var other := if a == id then b else a;
        assert IsEffective(s, other) && Expired(s, other);
        assert Separated(t, other, id);
      }
    }
  }

  lemma ClaimedHolders(s: State, id: nat, next: Phase)
    requires Clock(s) && Holders(s) && Replays(s) && At(s, id, Arrived) && s.requests[id].call.slot !in s.table
    requires next == Running || next == Refused(DatabaseError)
    ensures var t := ClaimRow(s, id, next); Clock(t) && Holders(t) && Replays(t)
  {
    var t := ClaimRow(s, id, next);
    forall i | IsHolding(t, i) ensures Owns(t, i) && t.table[t.requests[i].call.slot].stored.None? {
      if i != id {
        assert IsHolding(s, i);
      }
    }
    ReplaysGrow(s, t);
  }

  lemma ClaimKeeps(s: State, id: nat, next: Phase)
    requires Inv(s) && At(s, id, Arrived) && s.requests[id].call.slot !in s.table
    requires next == Running || next == Refused(DatabaseError)
    ensures Inv(ClaimRow(s, id, next))
  {
    ClaimedRows(s, id, next);
    ClaimedKept(s, id, next);
    ClaimedSpaced(s, id, next);
    ClaimedHolders(s, id, next);
  }

  lemma SavedRows(s: State, id: nat)
    requires Rows(s) && Clock(s) && Holders(s) && id in s.requests && s.requests[id].phase.Recording?
    ensures Rows(SaveStep(s, id, NoFault))
  {
    var t := SaveStep(s, id, NoFault);
    assert IsHolding(s, id);
    forall x | x in t.table ensures RowMatches(t, x) {
      assert RowMatches(s, x);
    }
  }

  lemma SavedKept(s: State, id: nat)
    requires Inv(s) && id in s.requests && s.requests[id].phase.Recording?
    ensures Kept(SaveStep(s, id, NoFault)) && Holders(SaveStep(s, id, NoFault))
  {
    var t := SaveStep(s, id, NoFault);
    assert IsHolding(s, id);
    forall i | IsEffective(t, i) ensures Owns(t, i) || Expired(t, i) {
      assert IsEffective(s, i);
    }
    forall i | IsHolding(t, i) ensures Owns(t, i) && t.table[t.requests[i].call.slot].stored.None? {
      assert IsHolding(s, i);
    }
  }

  lemma SavedClock(s: State, id: nat)
    requires Clock(s) && id in s.requests && s.requests[id].phase.Recording?
    ensures Clock(SaveStep(s, id, NoFault))
  {
  }

  lemma SavedReplays(s: State, id: nat)
    requires Spaced(s) && Replays(s) && id in s.requests && s.requests[id].phase.Recording?
    ensures Spaced(SaveStep(s, id, NoFault)) && Replays(SaveStep(s, id, NoFault))
  {
    SpacedFrame(s, SaveStep(s, id, NoFault));
    ReplaysGrow(s, SaveStep(s, id, NoFault));
  }

  /** Storing a 2xx, or deleting the row of a failure, by the request that owns it. */
  lemma SaveKeeps(s: State, id: nat, fault: Fault)
    requires Inv(s) && id in s.requests && s.requests[id].phase.Recording?
    ensures Inv(SaveStep(s, id, fault))
  {
    if fault.LostBefore? {
      PhaseKeeps(s, id, Recorded(s.requests[id].phase.reply));
    } else {
      assert SaveStep(s, id, fault) == SaveStep(s, id, NoFault);
      SavedRows(s, id);
      SavedKept(s, id);
      SavedClock(s, id);
      SavedReplays(s, id);
    }
  }

  lemma PurgeKeeps(s: State, tenantId: Option<string>)
    requires Inv(s) && Timely(s, tenantId)
    ensures Inv(PurgeStep(s, tenantId))
  {
    var t := PurgeStep(s, tenantId);
    forall slot | slot in t.table ensures RowMatches(t, slot) {
      assert RowMatches(s, slot);
    }
    forall i | IsEffective(t, i) ensures Owns(t, i) || Expired(t, i) {
      assert IsEffective(s, i);
      var slot := s.requests[i].call.slot;
      if Owns(s, i) && slot !in t.table {
        assert RowMatches(s, slot) && s.now in t.purges;
      }
    }
    SpacedFrame(s, t);
    forall i | IsHolding(t, i) ensures Owns(t, i) && t.table[t.requests[i].call.slot].stored.None? {
      assert IsHolding(s, i) && RowMatches(s, s.requests[i].call.slot);
    }
    ReplaysGrow(s, t);
  }

  lemma LookupKeeps(s: State, id: nat, fault: Fault)
    requires Inv(s) && At(s, id, Contended)
    ensures Inv(LookupStep(s, id, fault))
  {
    var call := s.requests[id].call;
    var p := if fault.NoFault? then Verdict(call, s.table) else Refused(DatabaseError);
    if p.Replayed? {
      assert RowMatches(s, call.slot);
      assert s.requests[s.claimer[call.slot]].call == call;
    }
    PhaseKeeps(s, id, p);
  }

  lemma ClaimStepKeeps(s: State, id: nat, fault: Fault)
    requires Inv(s) && At(s, id, Arrived)
    ensures Inv(ClaimStep(s, id, fault))
  {
    if fault.LostBefore? || s.requests[id].call.slot in s.table {
      PhaseKeeps(s, id, if fault.NoFault? then Contended else Refused(DatabaseError));
    } else {
      ClaimKeeps(s, id, if fault.LostAfter? then Refused(DatabaseError) else Running);
    }
  }

  lemma StepKeeps(s: State, step: Step)
    requires Inv(s) && (step.Purge? ==> Timely(s, step.tenantId))
    ensures Inv(Apply(s, step))
  {
    match step
    case Arrive(id, call) => if id !in s.requests { ArriveKeeps(s, id, call); }
    case Claim(id, fault) => if At(s, id, Arrived) { ClaimStepKeeps(s, id, fault); }
    case Lookup(id, fault) => if At(s, id, Contended) { LookupKeeps(s, id, fault); }
    case Respond(id, reply) => if At(s, id, Running) { PhaseKeeps(s, id, Recording(reply)); }
    case Save(id, fault) => if id in s.requests && s.requests[id].phase.Recording? { SaveKeeps(s, id, fault); }
    case Send(id) =>
      if id in s.requests && s.requests[id].phase.Recorded? { PhaseKeeps(s, id, Executed(s.requests[id].phase.reply)); }
    case Crash(id) =>
      if id in s.requests && InFlight(s.requests[id].phase) {
        PhaseKeeps(s, id, Crashed(Answer(s.requests[id].phase)));
      }
    case Purge(tenantId) => PurgeKeeps(s, tenantId);
    case Tick(elapsed) => TickKeeps(s, elapsed);
  }

  /** The invariant holds at the end of every run whose purges were timely. */
  lemma {:induction false} RunKeeps(s: State, steps: seq<Step>)
    requires Inv(s) && AllTimely(s, steps)
    ensures Inv(Exec(s, steps))
    decreases |steps|
  {
    if steps != [] {
      StepKeeps(s, steps[0]);
      RunKeeps(Apply(s, steps[0]), steps[1..]);
    }
  }
}
