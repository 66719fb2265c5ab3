/** The nightly purge and handlers that outlive the retention: exactly when a purge is harmless, and what it breaks. */
module IdempotencyPurge {
  import opened Prelude
  import opened Idempotency
  import opened IdempotencySafety
  import opened IdempotencyTheorems

  // ---- runs, step by step ----

  lemma {:induction false} ExecJoined(s: State, xs: seq<Step>, ys: seq<Step>)
    ensures Exec(s, xs + ys) == Exec(Exec(s, xs), ys)
    decreases |xs|
  {
    if xs == [] {
      assert xs + ys == ys;
    } else {
      assert (xs + ys)[1..] == xs[1..] + ys;
      ExecJoined(Apply(s, xs[0]), xs[1..], ys);
    }
  }

  /** Extends a run by one step. */
  lemma Then(start: State, steps: seq<Step>, s: State, step: Step) returns (more: seq<Step>, t: State)
    requires Exec(start, steps) == s
    ensures more == steps + [step] && t == Apply(s, step) == Exec(start, more)
  {
    more, t := steps + [step], Apply(s, step);
    ExecJoined(start, steps, [step]);
    assert [step][1..] == [];
    assert Exec(s, [step]) == Exec(t, []);
  }

  // ---- requests that nobody has sent yet ----

  lemma {:induction false} AboveAll(requests: map<nat, Request>, ids: set<nat>) returns (n: nat)
    requires ids <= requests.Keys
    ensures forall id | id in ids :: id < n && |requests[id].call.route| < n
    decreases |ids|
  {
    if ids == {} {
      n := 0;
    } else {
      var id :| id in ids;
      var m := AboveAll(requests, ids - {id});
      n := m + id + |requests[id].call.route| + 1;
    }
  }

  lemma FreshRequest(s: State) returns (n: nat, route: string)
    ensures n !in s.requests && n + 1 !in s.requests
    ensures forall id | id in s.requests :: s.requests[id].call.route != route
  {
    n := AboveAll(s.requests, s.requests.Keys);
    route := seq(n, _ => 'x');
  }

  // ---- what a late handler breaks ----

  /** No two handlers at work on one slot. */
  ghost predicate OneHandler(s: State) {
    forall a, b | a in s.requests && b in s.requests && s.requests[a].phase.Running? && s.requests[b].phase.Running?
                  && SameSlot(s, a, b) :: a == b
  }

  /** … nor two that are at work or saving. */
  ghost predicate OneHolder(s: State) {
    forall a, b | IsHolding(s, a) && IsHolding(s, b) && SameSlot(s, a, b) :: a == b
  }

  predicate LostItsRow(s: State, id: nat) {
    IsHolding(s, id) && s.requests[id].call.slot !in s.table
  }

  /** The next request to arrive claims the slot under a handler that is still running. */
  lemma SecondHandler(s: State, id: nat) returns (steps: seq<Step>)
    requires LostItsRow(s, id) && s.requests[id].phase.Running?
    ensures NoPurge(steps) && !OneHandler(Exec(s, steps))
  {
    var n, route := FreshRequest(s);
    var call, t := s.requests[id].call, s;
    steps, t := Then(s, [], s, Arrive(n, call));
    steps, t := Then(s, steps, t, Claim(n, NoFault));
    assert t.requests[id].phase.Running? && t.requests[n].phase.Running? && SameSlot(t, id, n);
  }

  /** A late failure deletes the row of the request that claimed the slot in the meantime. */
  lemma FailureFreesAStranger(s: State, id: nat) returns (steps: seq<Step>, n: nat)
    requires LostItsRow(s, id) && s.requests[id].phase.Recording? && !s.requests[id].phase.reply.Succeeded()
    ensures NoPurge(steps) && LostItsRow(Exec(s, steps), n) && Exec(s, steps).requests[n].phase.Running?
  {
    var route, t;
    n, route := FreshRequest(s);
    t := s;
    steps, t := Then(s, [], s, Arrive(n, s.requests[id].call));
    steps, t := Then(s, steps, t, Claim(n, NoFault));
    steps, t := Then(s, steps, t, Save(id, NoFault));
  }

  /** A late success is stored in the row of the request that claimed the slot in the meantime. */
  lemma SuccessInAStrangersRow(s: State, id: nat, n: nat, route: string) returns (steps: seq<Step>, t: State)
    requires LostItsRow(s, id) && s.requests[id].phase.Recording? && s.requests[id].phase.reply.Succeeded()
    requires n !in s.requests
    ensures NoPurge(steps) && t == Exec(s, steps)
    ensures var slot := s.requests[id].call.slot;
            var call := Call(slot, route, "");
            && t.requests.Keys == s.requests.Keys + {n} && t.requests[n] == Request(call, s.now, Running)
            && (forall e | e in s.requests :: t.requests[e].call == s.requests[e].call)
            && slot in t.table && t.table[slot] == Row(route, "", s.now, Some(s.requests[id].phase.reply))
  {
    t := s;
    steps, t := Then(s, [], s, Arrive(n, Call(s.requests[id].call.slot, route, "")));
    steps, t := Then(s, steps, t, Claim(n, NoFault));
    steps, t := Then(s, steps, t, Save(id, NoFault));
  }

  lemma RepeatIsReplayed(s: State, m: nat, call: Call, reply: Reply) returns (steps: seq<Step>, t: State)
    requires m !in s.requests && call.slot in s.table
    requires s.table[call.slot].route == call.route && s.table[call.slot].requestHash == call.requestHash
    requires s.table[call.slot].stored == Some(reply)
    ensures NoPurge(steps) && t == Exec(s, steps)
    ensures t.requests == s.requests[m := Request(call, s.now, Replayed(reply))]
  {
    t := s;
    steps, t := Then(s, [], s, Arrive(m, call));
    steps, t := Then(s, steps, t, Claim(m, NoFault));
    steps, t := Then(s, steps, t, Lookup(m, NoFault));
  }

  /** … so a repeat of that request's call is replayed a reply that no execution of the call ever gave. */
  lemma ReplayWithoutSource(s: State, id: nat) returns (steps: seq<Step>)
    requires LostItsRow(s, id) && s.requests[id].phase.Recording? && s.requests[id].phase.reply.Succeeded()
    ensures NoPurge(steps) && !Replays(Exec(s, steps))
  {
    var n, route := FreshRequest(s);
    var prefix, t := SuccessInAStrangersRow(s, id, n, route);
    var call, m, reply := t.requests[n].call, n + 1, s.requests[id].phase.reply;
    var rest, u := RepeatIsReplayed(t, m, call, reply);
    ExecJoined(s, prefix, rest);
    steps := prefix + rest;
    forall e | e in u.requests && u.requests[e].call == call ensures e == n || e == m {
    }
    assert !HasSource(u, m, reply);
    assert u.requests[m].phase == Replayed(reply);
  }

  /** Whatever a handler without a row is doing, some purge-free continuation breaks a promise. */
  lemma LateHandlerBreaksAPromise(s: State, id: nat) returns (steps: seq<Step>)
    requires LostItsRow(s, id)
    ensures NoPurge(steps) && !(OneHandler(Exec(s, steps)) && Replays(Exec(s, steps)))
  {
    if s.requests[id].phase.Running? {
      steps := SecondHandler(s, id);
    } else if s.requests[id].phase.reply.Succeeded() {
      steps := ReplayWithoutSource(s, id);
    } else {
      var prefix, n := FailureFreesAStranger(s, id);
      var rest := SecondHandler(Exec(s, prefix), n);
      ExecJoined(s, prefix, rest);
      steps := prefix + rest;
    }
  }

  lemma HandlersAreHolders(s: State)
    ensures OneHolder(s) ==> OneHandler(s)
  {
    if OneHolder(s) {
      forall a, b | a in s.requests && b in s.requests && s.requests[a].phase.Running? && s.requests[b].phase.Running?
                    && SameSlot(s, a, b)
        ensures a == b
      {
        assert IsHolding(s, a) && IsHolding(s, b);
      }
    }
  }

  // ---- the exact condition ----

  /** A timely purge leaves every promise standing in every purge-free continuation. */
  lemma TimelyPurgeHonours(s: State, tenantId: Option<string>, steps: seq<Step>)
    requires Inv(s) && Timely(s, tenantId) && NoPurge(steps)
    ensures var t := Exec(PurgeStep(s, tenantId), steps); OneHolder(t) && OneHandler(t) && Replays(t)
  {
    var u := PurgeStep(s, tenantId);
    PurgeKeeps(s, tenantId);
    NoPurgeLeavesNone(u, steps);
    RunKeeps(u, steps);
    var t := Exec(u, steps);
    forall a, b | IsHolding(t, a) && IsHolding(t, b) && SameSlot(t, a, b) ensures a == b {
      HolderIsUnique(t, a, b);
    }
    HandlersAreHolders(t);
  }

  /** A purge that finds a handler older than the retention takes its row. */
  lemma UntimelyPurgeTakesARow(s: State, tenantId: Option<string>) returns (id: nat)
    requires Inv(s) && !Timely(s, tenantId)
    ensures LostItsRow(PurgeStep(s, tenantId), id)
  {
    id :| IsHolding(s, id) && (tenantId.None? || s.requests[id].call.slot.scopeId == tenantId.value)
          && s.requests[id].claimedAt < s.now - RETENTION;
    assert RowMatches(s, s.requests[id].call.slot);
  }

  /** In every state that can be reached by timely purges, the next purge finds no handler older than the retention if
    * and only if every purge-free continuation keeps both promises: one handler at a time, and replays of the call's
    * own 2xx. Counting a handler as at work until its save is done makes no difference. */
  lemma PurgeHonoursIffTimely(s: State, tenantId: Option<string>)
    requires Inv(s)
    ensures Timely(s, tenantId)
            <==> forall steps | NoPurge(steps) ::
                   var t := Exec(PurgeStep(s, tenantId), steps); OneHandler(t) && Replays(t)
    ensures Timely(s, tenantId)
            <==> forall steps | NoPurge(steps) ::
                   var t := Exec(PurgeStep(s, tenantId), steps); OneHolder(t) && Replays(t)
  {
    if Timely(s, tenantId) {
      forall steps | NoPurge(steps)
        ensures var t := Exec(PurgeStep(s, tenantId), steps); OneHolder(t) && OneHandler(t) && Replays(t)
      {
        TimelyPurgeHonours(s, tenantId, steps);
      }
    } else {
      var id := UntimelyPurgeTakesARow(s, tenantId);
      var steps := LateHandlerBreaksAPromise(PurgeStep(s, tenantId), id);
      HandlersAreHolders(Exec(PurgeStep(s, tenantId), steps));
    }
  }

  /** A purge keeps the invariant exactly when it finds no handler older than the retention. */
  lemma PurgeIsSafeIffTimely(s: State, tenantId: Option<string>)
    requires Inv(s)
    ensures Inv(PurgeStep(s, tenantId)) <==> Timely(s, tenantId)
  {
    if Timely(s, tenantId) {
      PurgeKeeps(s, tenantId);
    } else {
      var id :| IsHolding(s, id) && (tenantId.None? || s.requests[id].call.slot.scopeId == tenantId.value)
                && s.requests[id].claimedAt < s.now - RETENTION;
      assert RowMatches(s, s.requests[id].call.slot);
      assert IsHolding(PurgeStep(s, tenantId), id) && !Owns(PurgeStep(s, tenantId), id);
    }
  }

  /** A purge while request 0 is still running frees its slot for request 1. */
  lemma LatePurge(call: Call) returns (steps: seq<Step>, s: State)
    ensures Exec(Init(), steps) == s && s.now == RETENTION + 1 && call.slot !in s.table
    ensures s.requests == map[0 := Request(call, 0, Running)]
  {
    s := Init();
    steps, s := Then(Init(), [], s, Arrive(0, call));
    steps, s := Then(Init(), steps, s, Claim(0, NoFault));
    steps, s := Then(Init(), steps, s, Tick(RETENTION + 1));
    steps, s := Then(Init(), steps, s, Purge(None));
  }

  /** Then request 0 fails, and its save deletes the row of request 1, which is still running. */
  lemma LateSave(call: Call) returns (steps: seq<Step>, s: State)
    ensures Exec(Init(), steps) == s && s.now == RETENTION + 1 && call.slot !in s.table
    ensures s.requests.Keys == {0, 1} && s.requests[1] == Request(call, RETENTION + 1, Running)
  {
    steps, s := LatePurge(call);
    steps, s := Then(Init(), steps, s, Arrive(1, call));
    steps, s := Then(Init(), steps, s, Claim(1, NoFault));
    steps, s := Then(Init(), steps, s, Respond(0, Reply(500, "error")));
    steps, s := Then(Init(), steps, s, Save(0, NoFault));
  }

  /** So request 2 can claim the slot while request 1 runs. */
  lemma LateSecondClaim(call: Call) returns (steps: seq<Step>, s: State)
    ensures Exec(Init(), steps) == s && s.requests.Keys == {0, 1, 2}
    ensures s.requests[1] == Request(call, RETENTION + 1, Running)
    ensures s.requests[2] == Request(call, RETENTION + 2, Running)
  {
    steps, s := LateSave(call);
    steps, s := Then(Init(), steps, s, Tick(1));
    steps, s := Then(Init(), steps, s, Arrive(2, call));
    steps, s := Then(Init(), steps, s, Claim(2, NoFault));
  }

  /** A handler that outlives the retention lets two runs of one slot, claimed one tick apart, both succeed. */
  lemma LateHandlerBreaksIt() returns (steps: seq<Step>)
    ensures var s := Exec(Init(), steps);
            1 in s.requests && 2 in s.requests && SameSlot(s, 1, 2) && Gap(s, 1, 2) == 1
            && Completed(s.requests[1].phase) && Completed(s.requests[2].phase)
  {
    var call := Call(Slot("shop", "checkout-1"), "POST /checkout", "h");
    var s;
    steps, s := LateSecondClaim(call);
    steps, s := Then(Init(), steps, s, Respond(1, Reply(201, "order")));
    steps, s := Then(Init(), steps, s, Respond(2, Reply(201, "order")));
  }
}
