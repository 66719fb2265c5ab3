/** The promises of the `Idempotency-Key` header, over whole runs. */
module IdempotencyTheorems {
  import opened Prelude
  import opened Idempotency
  import opened IdempotencySafety

  // ---- at most once ----

  lemma {:induction false} NoPurgeLeavesNone(s: State, steps: seq<Step>)
    requires NoPurge(steps)
    ensures AllTimely(s, steps) && Exec(s, steps).purges == s.purges
    decreases |steps|
  {
    if steps != [] {
      NoPurgeLeavesNone(Apply(s, steps[0]), steps[1..]);
    }
  }

  lemma HolderIsUnique(s: State, a: nat, b: nat)
    requires Inv(s) && IsHolding(s, a) && IsHolding(s, b) && SameSlot(s, a, b)
    ensures a == b
  {
  }

  /** Never two handlers at work on one slot, in any run whose purges are timely. */
  lemma MutualExclusion(steps: seq<Step>, a: nat, b: nat)
    requires AllTimely(Init(), steps)
    requires var s := Exec(Init(), steps); IsHolding(s, a) && IsHolding(s, b) && SameSlot(s, a, b)
    ensures a == b
  {
    RunKeeps(Init(), steps);
    HolderIsUnique(Exec(Init(), steps), a, b);
  }

  lemma UnpurgedIsUnique(s: State, a: nat, b: nat)
    requires Inv(s) && s.purges == {} && IsEffective(s, a) && IsEffective(s, b) && SameSlot(s, a, b)
    ensures a == b
  {
  }

  /** Without a purge, whatever fails or crashes, a slot sees one execution that did not report failure. */
  lemma AtMostOnce(steps: seq<Step>, a: nat, b: nat)
    requires NoPurge(steps)
    requires var s := Exec(Init(), steps); IsEffective(s, a) && IsEffective(s, b) && SameSlot(s, a, b)
    ensures a == b
  {
    NoPurgeLeavesNone(Init(), steps);
    RunKeeps(Init(), steps);
    UnpurgedIsUnique(Exec(Init(), steps), a, b);
  }

  function Gap(s: State, a: nat, b: nat): int
    requires a in s.requests && b in s.requests
  {
    if s.requests[a].claimedAt < s.requests[b].claimedAt then s.requests[b].claimedAt - s.requests[a].claimedAt
    else s.requests[a].claimedAt - s.requests[b].claimedAt
  }

  /** With timely purges, two executions of one slot that did not report failure were claimed over 24 hours apart. */
  lemma AtMostOncePerRetention(steps: seq<Step>, a: nat, b: nat)
    requires AllTimely(Init(), steps) && a != b
    requires var s := Exec(Init(), steps); IsEffective(s, a) && IsEffective(s, b) && SameSlot(s, a, b)
    ensures Gap(Exec(Init(), steps), a, b) > RETENTION
  {
    RunKeeps(Init(), steps);
    var s := Exec(Init(), steps);
    assert Separated(s, a, b) || Separated(s, b, a);
  }

  // ---- replays ----

  /** A replay repeats, in status and body, what some 2xx execution of the very same call answered. */
  lemma ReplayIsFaithful(steps: seq<Step>, id: nat) returns (source: nat)
    requires AllTimely(Init(), steps)
    requires var s := Exec(Init(), steps); id in s.requests && s.requests[id].phase.Replayed?
    ensures var s := Exec(Init(), steps);
            source in s.requests && Completed(s.requests[source].phase)
            && Answer(s.requests[source].phase) == Some(s.requests[id].phase.reply)
            && s.requests[source].call == s.requests[id].call
  {
    RunKeeps(Init(), steps);
    var s := Exec(Init(), steps);
    assert HasSource(s, id, s.requests[id].phase.reply);
    source :| source in s.requests && Completed(s.requests[source].phase)
              && Answer(s.requests[source].phase) == Some(s.requests[id].phase.reply)
              && s.requests[source].call == s.requests[id].call;
  }

  /** … and, as long as nothing was purged, of the only 2xx execution the slot ever had. */
  lemma ReplayOfTheOnlySuccess(steps: seq<Step>, id: nat, e: nat)
    requires NoPurge(steps)
    requires var s := Exec(Init(), steps);
             id in s.requests && s.requests[id].phase.Replayed? && e in s.requests && SameSlot(s, id, e)
             && Completed(s.requests[e].phase)
    ensures var s := Exec(Init(), steps);
            Answer(s.requests[e].phase) == Some(s.requests[id].phase.reply) && s.requests[e].call == s.requests[id].call
  {
    NoPurgeLeavesNone(Init(), steps);
    var source := ReplayIsFaithful(steps, id);
    AtMostOnce(steps, source, e);
  }

  lemma StoredStays(s: State, step: Step, slot: Slot)
    requires Inv(s) && !step.Purge? && slot in s.table && s.table[slot].stored.Some?
    ensures slot in Apply(s, step).table && Apply(s, step).table[slot] == s.table[slot]
  {
    if step.Save? && step.id in s.requests && s.requests[step.id].phase.Recording? {
      assert IsHolding(s, step.id);
    }
  }

  lemma {:induction false} StoredPersists(s: State, steps: seq<Step>, slot: Slot)
    requires Inv(s) && NoPurge(steps) && slot in s.table && s.table[slot].stored.Some?
    ensures slot in Exec(s, steps).table && Exec(s, steps).table[slot] == s.table[slot]
    decreases |steps|
  {
    if steps != [] {
      StepKeeps(s, steps[0]);
      StoredStays(s, steps[0], slot);
      StoredPersists(Apply(s, steps[0]), steps[1..], slot);
    }
  }

  lemma NothingStarts(s: State, step: Step, slot: Slot, id: nat)
    requires slot in s.table && id in Apply(s, step).requests && Apply(s, step).requests[id].call.slot == slot
    requires Claimed(Apply(s, step).requests[id].phase)
    ensures id in s.requests && s.requests[id].call.slot == slot && Claimed(s.requests[id].phase)
  {
  }

  lemma {:induction false} NothingMoreRuns(s: State, steps: seq<Step>, slot: Slot, id: nat)
    requires Inv(s) && NoPurge(steps) && slot in s.table && s.table[slot].stored.Some?
    requires var t := Exec(s, steps);
             id in t.requests && t.requests[id].call.slot == slot && Claimed(t.requests[id].phase)
    ensures id in s.requests && s.requests[id].call.slot == slot && Claimed(s.requests[id].phase)
    decreases |steps|
  {
    if steps != [] {
      StepKeeps(s, steps[0]);
      StoredStays(s, steps[0], slot);
      NothingMoreRuns(Apply(s, steps[0]), steps[1..], slot, id);
      NothingStarts(s, steps[0], slot, id);
    }
  }

  /** Once a reply is stored, every purge-free continuation runs no further handler for the slot; a repeat of the call
    * is answered with the stored reply, and a request of another route or body is refused. */
  lemma StoredSettlesTheSlot(s: State, steps: seq<Step>, slot: Slot, id: nat)
    requires Inv(s) && NoPurge(steps) && slot in s.table && s.table[slot].stored.Some?
    requires id in Exec(s, steps).requests && Exec(s, steps).requests[id].call.slot == slot
    ensures var t := Exec(s, steps);
            var r := t.requests[id];
            && (Claimed(r.phase) ==> id in s.requests && Claimed(s.requests[id].phase))
            && (At(t, id, Arrived) ==> At(Apply(t, Claim(id, NoFault)), id, Contended))
            && (At(t, id, Contended) ==>
                  At(Apply(t, Lookup(id, NoFault)), id,
                     if r.call == Call(slot, s.table[slot].route, s.table[slot].requestHash)
                     then Replayed(s.table[slot].stored.value) else Refused(UsedForDifferentRequest)))
  {
    StoredPersists(s, steps, slot);
    if Claimed(Exec(s, steps).requests[id].phase) {
      NothingMoreRuns(s, steps, slot, id);
    }
  }

  // ---- bystanders ----

  /** Contended, replayed, or refused for what the table said: this request lost the race. */
  predicate Bystander(p: Phase) {
    p.Contended? || p.Replayed? || (p.Refused? && p.why != DatabaseError)
  }

  function Actor(step: Step): Option<nat> {
    if step.Purge? || step.Tick? then None else Some(step.id)
  }

  lemma PhaseAdvances(s: State, step: Step, id: nat)
    requires id in s.requests
    ensures id in Apply(s, step).requests
    ensures Claimed(s.requests[id].phase) ==> Claimed(Apply(s, step).requests[id].phase)
    ensures s.requests[id].phase == Refused(DatabaseError) ==>
            Apply(s, step).requests[id].phase == Refused(DatabaseError)
  {
  }

  lemma {:induction false} RunAdvances(s: State, steps: seq<Step>, id: nat)
    requires id in s.requests && (Claimed(s.requests[id].phase) || s.requests[id].phase == Refused(DatabaseError))
    ensures id in Exec(s, steps).requests && !Bystander(Exec(s, steps).requests[id].phase)
    decreases |steps|
  {
    if steps != [] {
      PhaseAdvances(s, steps[0], id);
      RunAdvances(Apply(s, steps[0]), steps[1..], id);
    }
  }

  /** No step of this request changed the table. */
  ghost predicate HandsOff(s: State, steps: seq<Step>, id: nat)
    decreases |steps|
  {
    steps == [] ||
    (var t := Apply(s, steps[0]);
     && (Actor(steps[0]) == Some(id) ==> t.table == s.table && (id in t.requests ==> !Claimed(t.requests[id].phase)))
     && HandsOff(t, steps[1..], id))
  }

  lemma StepsOfABystander(s: State, step: Step)
    requires Actor(step).Some? && step.id in Apply(s, step).requests
    requires !Claimed(Apply(s, step).requests[step.id].phase)
    requires Apply(s, step).requests[step.id].phase != Refused(DatabaseError)
    ensures Apply(s, step).table == s.table
  {
  }

  /** A request that was told 409 or 422, or was replayed, never ran its handler and never changed the table. */
  lemma {:induction false} BystandersTouchNothing(s: State, steps: seq<Step>, id: nat)
    requires id in Exec(s, steps).requests && Bystander(Exec(s, steps).requests[id].phase)
    ensures HandsOff(s, steps, id)
    decreases |steps|
  {
    if steps != [] {
      var t := Apply(s, steps[0]);
      BystandersTouchNothing(t, steps[1..], id);
      if Actor(steps[0]) == Some(id) {
        if id in t.requests {
          if Claimed(t.requests[id].phase) || t.requests[id].phase == Refused(DatabaseError) {
            RunAdvances(t, steps[1..], id);
          }
          StepsOfABystander(s, steps[0]);
        }
      }
    }
  }

  // ---- failures free the key ----

  /** When a failed reply was saved, the slot is free and the next request to insert runs. */
  lemma FailureFreesTheKey(s: State, id: nat, fault: Fault, next: nat)
    requires Inv(s) && IsHolding(s, id) && s.requests[id].phase.Recording? && !s.requests[id].phase.reply.Succeeded()
    requires !fault.LostBefore? && next != id && At(s, next, Arrived) && SameSlot(s, id, next)
    ensures At(Apply(Apply(s, Save(id, fault)), Claim(next, NoFault)), next, Running)
    ensures Inv(Apply(Apply(s, Save(id, fault)), Claim(next, NoFault)))
  {
    StepKeeps(s, Save(id, fault));
    StepKeeps(Apply(s, Save(id, fault)), Claim(next, NoFault));
  }
}
