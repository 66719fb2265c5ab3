/** What each request is told and what each statement leaves in the table, read off the requests and rows themselves. */
module IdempotencyReplies {
  import opened Prelude
  import opened Idempotency
  import opened IdempotencySafety

  // ---- admission ----

  /** 8 to 255 letters, digits or `._:-`. */
  predicate WellFormed(key: string) {
    && 8 <= |key| <= 255
    && forall i | 0 <= i < |key| ::
         'a' <= key[i] <= 'z' || 'A' <= key[i] <= 'Z' || '0' <= key[i] <= '9'
         || key[i] == '.' || key[i] == '_' || key[i] == ':' || key[i] == '-'
  }

  /** A request takes part exactly with a well-formed key and a scope; a malformed key is refused in any case. */
  lemma AdmittedIff(header: Option<string>, scopeId: Option<string>)
    ensures forall scope, key :: Admit(header, scopeId) == Admitted(Slot(scope, key)) <==>
              header == Some(key) && scopeId == Some(scope) && WellFormed(key) && scope != ""
    ensures Admit(header, scopeId).InvalidKey? <==> header.Some? && header.value != "" && !WellFormed(header.value)
  {
    if header.Some? {
      assert ValidKey(header.value) <==> WellFormed(header.value) by {
        assert forall i | 0 <= i < |header.value| :: header.value[i] in "_.:-" <==>
                 header.value[i] == '_' || header.value[i] == '.' || header.value[i] == ':' || header.value[i] == '-';
      }
    }
  }

  // ---- the claim ----

  /** The first request of a slot runs, and its row describes it; a request that finds a row goes on to the lookup, and
    * leaves the table alone. A failing statement is told as one, and leaves either the same row or none. */
  lemma ClaimTold(s: State, id: nat, fault: Fault)
    requires At(s, id, Arrived)
    ensures var t := Apply(s, Claim(id, fault));
            var call := s.requests[id].call;
            && At(t, id, if !fault.NoFault? then Refused(DatabaseError)
                         else if call.slot in s.table then Contended else Running)
            && t.table == if call.slot in s.table || fault.LostBefore? then s.table
                          else s.table[call.slot := Row(call.route, call.requestHash, s.now, None)]
  {
  }

  // ---- the lookup ----

  /** While a handler is at work or its outcome is being saved, a repeat of its call is told that it is still in
    * progress, and a request of another route or body that the key was used for something else. */
  lemma ToldWhileInProgress(s: State, id: nat, holder: nat)
    requires Inv(s) && At(s, id, Contended) && IsHolding(s, holder) && SameSlot(s, id, holder)
    ensures At(Apply(s, Lookup(id, NoFault)), id,
               Refused(if s.requests[id].call == s.requests[holder].call
                       then StillInProgress else UsedForDifferentRequest))
  {
    assert Owns(s, holder) && RowMatches(s, s.requests[holder].call.slot);
  }

  /** The same while the row belongs to a request that died before its handler answered, or whose INSERT took effect
    * although it was reported lost: the key stays in progress. */
  lemma ToldAfterACrash(s: State, id: nat, owner: nat)
    requires Inv(s) && At(s, id, Contended) && owner in s.requests && Owns(s, owner) && SameSlot(s, id, owner)
    requires s.requests[owner].phase == Crashed(None) || s.requests[owner].phase == Refused(DatabaseError)
    ensures At(Apply(s, Lookup(id, NoFault)), id,
               Refused(if s.requests[id].call == s.requests[owner].call
                       then StillInProgress else UsedForDifferentRequest))
  {
    assert RowMatches(s, s.requests[owner].call.slot);
  }

  /** Once the row is gone, because the first request failed or the purge took it, the client is told to retry. */
  lemma ToldToRetry(s: State, id: nat)
    requires At(s, id, Contended) && s.requests[id].call.slot !in s.table
    ensures At(Apply(s, Lookup(id, NoFault)), id, Refused(RetryRequest))
  {
  }

  /** And with the reply stored, a repeat gets it and anything else is refused. */
  lemma ToldTheStoredReply(s: State, id: nat, owner: nat, reply: Reply)
    requires Inv(s) && At(s, id, Contended) && owner in s.requests && Owns(s, owner) && SameSlot(s, id, owner)
    requires s.table[s.requests[id].call.slot].stored == Some(reply)
    ensures At(Apply(s, Lookup(id, NoFault)), id,
               if s.requests[id].call == s.requests[owner].call
               then Replayed(reply) else Refused(UsedForDifferentRequest))
    ensures 200 <= reply.statusCode < 300
  {
    assert RowMatches(s, s.requests[owner].call.slot);
  }

  /** A database error reaches the client as one, and nobody else notices. */
  lemma ToldOfTheFault(s: State, id: nat, fault: Fault)
    requires At(s, id, Contended) && !fault.NoFault?
    ensures Apply(s, Lookup(id, fault)) == SetPhase(s, id, Refused(DatabaseError))
  {
  }

  // ---- the outcome ----

  /** Status codes 200 to 299 are stored with the reply; any other removes the row. Other slots stay as they are, and a
    * lost save leaves the row in progress. */
  lemma SavedByStatus(s: State, id: nat, fault: Fault, slot: Slot)
    requires Inv(s) && id in s.requests && s.requests[id].phase.Recording?
    ensures var t := Apply(s, Save(id, fault));
            var (call, reply) := (s.requests[id].call, s.requests[id].phase.reply);
            && (slot != call.slot ==>
                (slot in t.table <==> slot in s.table) && (slot in t.table ==> t.table[slot] == s.table[slot]))
            && (slot == call.slot && fault.LostBefore? ==>
                  slot in t.table && t.table[slot] == s.table[slot] && s.table[slot].stored.None?)
            && (slot == call.slot && !fault.LostBefore? && 200 <= reply.statusCode <= 299 ==>
                  slot in t.table && t.table[slot].stored == Some(reply)
                  && t.table[slot].route == call.route && t.table[slot].requestHash == call.requestHash)
            && (slot == call.slot && !fault.LostBefore? && (reply.statusCode < 200 || reply.statusCode > 299) ==>
                  slot !in t.table)
  {
    assert IsHolding(s, id) && Owns(s, id) && RowMatches(s, s.requests[id].call.slot);
  }

  /** The client of the first request gets what its handler answered, whatever became of the save. */
  lemma OwnReplyIsSent(s: State, id: nat, reply: Reply, fault: Fault)
    requires At(s, id, Running)
    ensures var t := Apply(Apply(Apply(s, Respond(id, reply)), Save(id, fault)), Send(id));
            At(t, id, Executed(reply))
  {
  }

  // ---- the purge ----

  /** Exactly the rows more than 24 hours old, of the given tenant or of all, are removed, whatever they hold. */
  lemma PurgeDeletesExactly(s: State, tenantId: Option<string>, slot: Slot)
    ensures var t := Apply(s, Purge(tenantId));
            && (slot in t.table <==>
                  slot in s.table
                  && !(s.table[slot].createdAt + 86_400_000 < s.now
                       && (tenantId == None || tenantId == Some(slot.scopeId))))
            && (slot in t.table ==> t.table[slot] == s.table[slot])
            && t.requests == s.requests && t.now == s.now
  {
  }
}
