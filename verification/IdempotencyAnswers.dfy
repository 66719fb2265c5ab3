/** Handlers that answer more than once. The replaced `res.json` saves at every call, so an error handler that answers
  * after the handler has deletes the row of a request that succeeded. */
module IdempotencyAnswers {
  import opened Prelude
  import opened Idempotency
  import opened IdempotencySafety
  import opened IdempotencyTheorems
  import opened IdempotencyPurge

  datatype Event = Base(step: Step) | AnswerAgain(id: nat, reply: Reply, fault: Fault)

  predicate Answered(s: State, id: nat) {
    id in s.requests
    && var p := s.requests[id].phase;
       p.Recording? || p.Recorded? || p.Executed?
  }

  /** A later call of `res.json` sends nothing more to the client, but it saves once more. */
  function Happen(s: State, e: Event): State {
    match e
    case Base(step) => Apply(s, step)
    case AnswerAgain(id, reply, fault) =>
      if Answered(s, id) && !fault.LostBefore? then SaveRow(s, s.requests[id].call.slot, reply) else s
  }

  function Play(s: State, events: seq<Event>): State
    decreases |events|
  {
    if events == [] then s else Play(Happen(s, events[0]), events[1..])
  }

  /** At most one request of a slot did not report failure. */
  ghost predicate Unique(s: State) {
    forall a, b | IsEffective(s, a) && IsEffective(s, b) && SameSlot(s, a, b) :: a == b
  }

  // ---- what uniqueness rests on ----

  /** Without purges, whoever succeeded, may succeed or is still saving owns the row of its slot. */
  ghost predicate Owners(s: State) {
    s.claimer.Keys == s.table.Keys && forall id | IsEffective(s, id) || IsHolding(s, id) :: Owns(s, id)
  }

  lemma OwnersAreUnique(s: State)
    requires Owners(s)
    ensures Unique(s)
  {
  }

  lemma MoveKeepsOwners(s: State, id: nat, p: Phase)
    requires Owners(s) && id in s.requests
    requires Effective(p) || Holding(p) ==> Effective(s.requests[id].phase) || Holding(s.requests[id].phase)
    ensures Owners(SetPhase(s, id, p))
  {
    var t := SetPhase(s, id, p);
    forall x | IsEffective(t, x) || IsHolding(t, x) ensures Owns(t, x) {
      assert IsEffective(s, x) || IsHolding(s, x);
    }
  }

  lemma ClaimKeepsOwners(s: State, id: nat, next: Phase)
    requires Owners(s) && At(s, id, Arrived) && s.requests[id].call.slot !in s.table
    ensures Owners(ClaimRow(s, id, next))
  {
    var t := ClaimRow(s, id, next);
    forall x | IsEffective(t, x) || IsHolding(t, x) ensures Owns(t, x) {
      if x != id {
        assert Owns(s, x);
      }
    }
  }

  lemma SaveKeepsOwners(s: State, id: nat, fault: Fault)
    requires Owners(s) && id in s.requests && s.requests[id].phase.Recording?
    ensures Owners(SaveStep(s, id, fault))
  {
    var t := SaveStep(s, id, fault);
    assert IsHolding(s, id) && Owns(s, id);
    forall x | IsEffective(t, x) || IsHolding(t, x) ensures Owns(t, x) {
      assert Owns(s, x);
    }
  }

  lemma ArriveKeepsOwners(s: State, id: nat, call: Call)
    requires Owners(s) && id !in s.requests
    ensures Owners(Apply(s, Arrive(id, call)))
  {
    var t := Apply(s, Arrive(id, call));
    forall x | IsEffective(t, x) || IsHolding(t, x) ensures Owns(t, x) {
      assert Owns(s, x);
    }
  }

  lemma StepKeepsOwners(s: State, step: Step)
    requires Owners(s) && !step.Purge?
    ensures Owners(Apply(s, step))
  {
    match step
    case Arrive(id, call) => if id !in s.requests { ArriveKeepsOwners(s, id, call); }
    case Claim(id, fault) =>
      if At(s, id, Arrived) {
        if fault.LostBefore? || s.requests[id].call.slot in s.table {
          MoveKeepsOwners(s, id, if fault.NoFault? then Contended else Refused(DatabaseError));
        } else {
          ClaimKeepsOwners(s, id, if fault.LostAfter? then Refused(DatabaseError) else Running);
        }
      }
    case Lookup(id, fault) =>
      if At(s, id, Contended) {
        var verdict := Verdict(s.requests[id].call, s.table);
        MoveKeepsOwners(s, id, if fault.NoFault? then verdict else Refused(DatabaseError));
      }
    case Respond(id, reply) => if At(s, id, Running) { MoveKeepsOwners(s, id, Recording(reply)); }
    case Save(id, fault) => if id in s.requests && s.requests[id].phase.Recording? { SaveKeepsOwners(s, id, fault); }
    case Send(id) =>
      if id in s.requests && s.requests[id].phase.Recorded? {
        MoveKeepsOwners(s, id, Executed(s.requests[id].phase.reply));
      }
    case Crash(id) =>
      if id in s.requests && InFlight(s.requests[id].phase) {
        MoveKeepsOwners(s, id, Crashed(Answer(s.requests[id].phase)));
      }
    case Tick(elapsed) =>
      assert forall x | IsEffective(Apply(s, step), x) || IsHolding(Apply(s, step), x) :: Owns(s, x);
  }

  lemma {:induction false} RunKeepsOwners(s: State, steps: seq<Step>)
    requires Owners(s) && NoPurge(steps)
    ensures Owners(Exec(s, steps))
    decreases |steps|
  {
    if steps != [] {
      StepKeepsOwners(s, steps[0]);
      RunKeepsOwners(Apply(s, steps[0]), steps[1..]);
    }
  }

  // ---- one more answer ----

  /** The answer deletes a row whose owner succeeded, may still succeed, or is still saving. */
  ghost predicate TakesARow(s: State, id: nat, reply: Reply, fault: Fault) {
    Answered(s, id) && !fault.LostBefore? && !reply.Succeeded()
    && var slot := s.requests[id].call.slot;
       slot in s.table && slot in s.claimer && (IsEffective(s, s.claimer[slot]) || IsHolding(s, s.claimer[slot]))
       && s.requests[s.claimer[slot]].call.slot == slot
  }

  lemma HarmlessAnswer(s: State, id: nat, reply: Reply, fault: Fault)
    requires Owners(s) && !TakesARow(s, id, reply, fault)
    ensures Owners(Happen(s, AnswerAgain(id, reply, fault)))
  {
    var t := Happen(s, AnswerAgain(id, reply, fault));
    forall x | IsEffective(t, x) || IsHolding(t, x) ensures Owns(t, x) {
      assert Owns(s, x);
    }
  }

  /** An effective request without a row: the next request of the slot makes it two. */
  lemma SecondEffective(s: State, id: nat) returns (steps: seq<Step>)
    requires IsEffective(s, id) && s.requests[id].call.slot !in s.table
    ensures NoPurge(steps) && !Unique(Exec(s, steps))
  {
    var n, route := FreshRequest(s);
    var t := s;
    steps, t := Then(s, [], s, Arrive(n, s.requests[id].call));
    steps, t := Then(s, steps, t, Claim(n, NoFault));
    assert IsEffective(t, id) && IsEffective(t, n) && SameSlot(t, id, n);
  }

  lemma LostRowBreaksUniqueness(s: State, id: nat) returns (steps: seq<Step>)
    requires (IsEffective(s, id) || IsHolding(s, id)) && s.requests[id].call.slot !in s.table
    ensures NoPurge(steps) && !Unique(Exec(s, steps))
  {
    if IsEffective(s, id) {
      steps := SecondEffective(s, id);
    } else {
      var prefix, n := FailureFreesAStranger(s, id);
      var rest := SecondEffective(Exec(s, prefix), n);
      ExecJoined(s, prefix, rest);
      steps := prefix + rest;
    }
  }

  /** One more answer leaves every purge-free continuation with at most one execution per slot if and only if it does
    * not delete the row of a request that succeeded, may still succeed, or is still saving. */
  lemma AnswerIsHarmlessIff(s: State, id: nat, reply: Reply, fault: Fault)
    requires Owners(s)
    ensures (forall steps | NoPurge(steps) :: Unique(Exec(Happen(s, AnswerAgain(id, reply, fault)), steps)))
            <==> !TakesARow(s, id, reply, fault)
  {
    var t := Happen(s, AnswerAgain(id, reply, fault));
    if TakesARow(s, id, reply, fault) {
      var owner := s.claimer[s.requests[id].call.slot];
      assert t.requests == s.requests && s.requests[owner].call.slot !in t.table;
      var steps := LostRowBreaksUniqueness(t, owner);
    } else {
      HarmlessAnswer(s, id, reply, fault);
      forall steps | NoPurge(steps) ensures Unique(Exec(t, steps)) {
        RunKeepsOwners(t, steps);
        OwnersAreUnique(Exec(t, steps));
      }
    }
  }

  // ---- over runs ----

  /** No purge, and no further answer that takes a row. */
  ghost predicate Harmless(s: State, events: seq<Event>)
    decreases |events|
  {
    events == [] ||
    ((match events[0]
      case Base(step) => !step.Purge?
      case AnswerAgain(id, reply, fault) => !TakesARow(s, id, reply, fault))
     && Harmless(Happen(s, events[0]), events[1..]))
  }

  lemma {:induction false} PlayKeepsOwners(s: State, events: seq<Event>)
    requires Owners(s) && Harmless(s, events)
    ensures Owners(Play(s, events))
    decreases |events|
  {
    if events != [] {
      match events[0] {
        case Base(step) => StepKeepsOwners(s, step);
        case AnswerAgain(id, reply, fault) => HarmlessAnswer(s, id, reply, fault);
      }
      PlayKeepsOwners(Happen(s, events[0]), events[1..]);
    }
  }

  /** At most once, in every purge-free run in which no further answer takes a row; in particular when every handler
    * answers once. */
  lemma AtMostOnceWithFurtherAnswers(events: seq<Event>, a: nat, b: nat)
    requires Harmless(Init(), events)
    requires var s := Play(Init(), events); IsEffective(s, a) && IsEffective(s, b) && SameSlot(s, a, b)
    ensures a == b
  {
    PlayKeepsOwners(Init(), events);
    OwnersAreUnique(Play(Init(), events));
  }

  lemma {:induction false} AnsweredOnceIsHarmless(s: State, events: seq<Event>)
    requires forall i | 0 <= i < |events| :: events[i].Base? && !events[i].step.Purge?
    ensures Harmless(s, events)
    decreases |events|
  {
    if events != [] {
      AnsweredOnceIsHarmless(Happen(s, events[0]), events[1..]);
    }
  }

  /** In every state, an error handler that answers after a stored success lets the next request with the key succeed
    * too. */
  lemma ErrorAfterSuccess(s: State, id: nat, error: Reply, reply: Reply) returns (steps: seq<Step>, n: nat)
    requires Owners(s) && Answered(s, id) && Completed(s.requests[id].phase) && !error.Succeeded() && reply.Succeeded()
    ensures var t := Exec(Happen(s, AnswerAgain(id, error, NoFault)), steps);
            && NoPurge(steps) && n != id && id in t.requests && n in t.requests && SameSlot(t, id, n)
            && Completed(t.requests[id].phase) && Completed(t.requests[n].phase)
  {
    assert IsEffective(s, id) && Owns(s, id);
    var u := Happen(s, AnswerAgain(id, error, NoFault));
    var route;
    n, route := FreshRequest(u);
    var t := u;
    steps, t := Then(u, [], u, Arrive(n, u.requests[id].call));
    steps, t := Then(u, steps, t, Claim(n, NoFault));
    steps, t := Then(u, steps, t, Respond(n, reply));
  }
}
