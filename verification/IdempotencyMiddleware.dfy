/** The middleware and the cleanup job as they act on the database, each method up to its next `await`. */
module IdempotencyMiddleware {
  import opened Prelude
  import opened Idempotency
  import opened IdempotencySafety

  lemma RemovedCount<K, V>(m: map<K, V>, gone: set<K>)
    requires gone <= m.Keys
    ensures |gone| == |m.Keys| - |(m - gone).Keys|
  {
    assert (m - gone).Keys == m.Keys - gone;
  }

  class Middleware {
    var now: int
    var table: map<Slot, Row>
    var requests: map<nat, Request>
    ghost var claimer: map<Slot, nat>
    ghost var purges: set<int>

    ghost function St(): State
      reads this
    {
      State(now, table, requests, claimer, purges)
    }

    constructor ()
      ensures St() == Init() && Inv(St())
    {
      now, table, requests, claimer, purges := 0, map[], map[], map[], {};
    }

    /** The checks before the first statement. */
    method Receive(id: nat, header: Option<string>, scopeId: Option<string>, route: string, requestHash: string)
      returns (admission: Admission)
      requires id !in requests
      modifies this
      ensures admission == Admit(header, scopeId)
      ensures St() == if admission.Admitted? then Apply(old(St()), Arrive(id, Call(admission.slot, route, requestHash)))
                      else old(St())
      ensures old(Inv(St())) ==> Inv(St())
    {
      ghost var before := St();
      if header.None? || header.value == "" {
        return PassThrough;
      }
      if !ValidKey(header.value) {
        return InvalidKey;
      }
      if scopeId.None? || scopeId.value == "" {
        return PassThrough;
      }
      var slot := Slot(scopeId.value, header.value);
      requests := requests[id := Request(Call(slot, route, requestHash), now, Arrived)];
      if Inv(before) {
        StepKeeps(before, Arrive(id, Call(slot, route, requestHash)));
      }
      return Admitted(slot);
    }

    method SetRequestPhase(id: nat, p: Phase)
      requires id in requests
      modifies this`requests
      ensures St() == SetPhase(old(St()), id, p)
    {
      requests := requests[id := requests[id].(phase := p)];
    }

    /** `INSERT … ON CONFLICT DO NOTHING`: the number of rows written. */
    method InsertRow(id: nat) returns (count: nat)
      requires id in requests
      modifies this
      ensures var slot := old(requests[id].call.slot);
              if slot in old(table) then count == 0 && St() == old(St())
              else count == 1 && St() == ClaimRow(old(St()), id, old(requests[id].phase))
    {
      var call := requests[id].call;
      if call.slot in table {
        return 0;
      }
      table := table[call.slot := Row(call.route, call.requestHash, now, None)];
      claimer := claimer[call.slot := id];
      requests := requests[id := requests[id].(claimedAt := now)];
      return 1;
    }

    /** The INSERT; the number of rows it wrote decides whether the handler runs. */
    method InsertKey(id: nat, fault: Fault)
      requires At(St(), id, Arrived)
      modifies this
      ensures St() == Apply(old(St()), Claim(id, fault))
      ensures old(Inv(St())) ==> Inv(St())
    {
      ghost var before := St();
      if fault.LostBefore? {
        SetRequestPhase(id, Refused(DatabaseError));
      } else {
        var claimed := InsertRow(id);
        if fault.LostAfter? {
          SetRequestPhase(id, Refused(DatabaseError));
        } else if claimed == 0 {
          SetRequestPhase(id, Contended);
        } else {
          SetRequestPhase(id, Running);
        }
      }
      if Inv(before) {
        StepKeeps(before, Claim(id, fault));
      }
    }

    /** What a request that inserted nothing is told. */
    method FindExisting(id: nat, fault: Fault)
      requires At(St(), id, Contended)
      modifies this
      ensures St() == Apply(old(St()), Lookup(id, fault))
      ensures old(Inv(St())) ==> Inv(St())
    {
      ghost var before := St();
      var call := requests[id].call;
      if !fault.NoFault? {
        SetRequestPhase(id, Refused(DatabaseError));
      } else if call.slot !in table {
        SetRequestPhase(id, Refused(RetryRequest));
      } else {
        var existing := table[call.slot];
        if existing.route != call.route || existing.requestHash != call.requestHash {
          SetRequestPhase(id, Refused(UsedForDifferentRequest));
        } else if existing.stored.None? {
          SetRequestPhase(id, Refused(StillInProgress));
        } else {
          SetRequestPhase(id, Replayed(existing.stored.value));
        }
      }
      if Inv(before) {
        StepKeeps(before, Lookup(id, fault));
      }
    }

    /** The handler calls `res.json`: the status and body are fixed, the save starts. */
    method Json(id: nat, reply: Reply)
      requires At(St(), id, Running)
      modifies this
      ensures St() == Apply(old(St()), Respond(id, reply))
      ensures old(Inv(St())) ==> Inv(St())
    {
      ghost var before := St();
      SetRequestPhase(id, Recording(reply));
      if Inv(before) {
        StepKeeps(before, Respond(id, reply));
      }
    }

    /** `.finally(() => json(body))`. */
    method SendReply(id: nat) returns (reply: Reply)
      requires id in requests && requests[id].phase.Recorded?
      modifies this
      ensures St() == Apply(old(St()), Send(id)) && requests[id].phase == Executed(reply)
      ensures old(Inv(St())) ==> Inv(St())
    {
      ghost var before := St();
      reply := requests[id].phase.reply;
      SetRequestPhase(id, Executed(reply));
      if Inv(before) {
        StepKeeps(before, Send(id));
      }
    }

    /** The replaced `res.json` records the outcome; its error is only logged. */
    method SaveOutcome(id: nat, fault: Fault)
      requires id in requests && requests[id].phase.Recording?
      modifies this
      ensures St() == Apply(old(St()), Save(id, fault))
      ensures old(Inv(St())) ==> Inv(St())
    {
      ghost var before := St();
      var slot, reply := requests[id].call.slot, requests[id].phase.reply;
      if !fault.LostBefore? && slot in table {
        if 200 <= reply.statusCode < 300 {
          table := table[slot := table[slot].(stored := Some(reply))];
        } else {
          table := table - {slot};
          claimer := claimer - {slot};
        }
      }
      SetRequestPhase(id, Recorded(reply));
      if Inv(before) {
        StepKeeps(before, Save(id, fault));
      }
    }

    /** `createdAt: { lt: now - 24 h }`, for one tenant or for all. */
    method FindStale(tenantId: Option<string>) returns (stale: set<Slot>)
      ensures stale == StaleSlots(St(), tenantId) && stale <= table.Keys
    {
      var cutoff := now - RETENTION;
      stale := set slot | slot in table && table[slot].createdAt < cutoff
                          && (tenantId.None? || slot.scopeId == tenantId.value);
    }

    /** `deleteMany`: the rows of these slots. */
    method DeleteRows(stale: set<Slot>) returns (count: nat)
      requires stale <= table.Keys
      modifies this`table, this`claimer
      ensures table == old(table) - stale && claimer == old(claimer) - stale
      ensures count == |old(table).Keys| - |table.Keys|
    {
      RemovedCount(table, stale);
      count := |stale|;
      table := table - stale;
      claimer := claimer - stale;
    }

    /** The idempotency part of the cleanup job. */
    method DeleteOldKeys(tenantId: Option<string>) returns (count: nat)
      modifies this
      ensures St() == Apply(old(St()), Purge(tenantId))
      ensures count == |old(table).Keys| - |table.Keys|
      ensures old(Inv(St()) && Timely(St(), tenantId)) ==> Inv(St())
    {
      if Inv(St()) && Timely(St(), tenantId) {
        PurgeKeeps(St(), tenantId);
      }
      var stale := FindStale(tenantId);
      count := DeleteRows(stale);
      purges := purges + {now};
    }
  }
}
