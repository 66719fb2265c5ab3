/** The `Idempotency-Key` protocol as a state machine.
  *
  * Every database statement and every reply is one step; the steps of all requests interleave freely. The machine keeps
  * the `idempotency_keys` table, the progress of every request ever seen, and two history variables that the program
  * does not have: which request inserted the row that a slot holds now, and the times at which rows were purged.
  */
module Idempotency {
  import opened Prelude

  /** The primary key of the table: a business (or shop) and the key its client chose. */
  datatype Slot = Slot(scopeId: string, key: string)

  datatype Call = Call(slot: Slot, route: string, requestHash: string)

  datatype Reply = Reply(statusCode: int, body: string) {
    predicate Succeeded() {
      200 <= statusCode < 300
    }
  }

  /** `statusCode` and `response` are null together: the row is "in progress" until a reply is stored. */
  datatype Row = Row(route: string, requestHash: string, createdAt: int, stored: Option<Reply>)

  datatype Refusal = RetryRequest | UsedForDifferentRequest | StillInProgress | DatabaseError

  datatype Phase =
    | Arrived                             // the INSERT has not run yet
    | Contended                           // the INSERT found a row; the lookup has not run yet
    | Running                             // this request inserted the row; its handler is at work
    | Recording(reply: Reply)             // the handler answered; the row is being updated or deleted
    | Recorded(reply: Reply)              // the save settled, well or badly; the reply is not sent yet
    | Executed(reply: Reply)              // the handler's own reply was sent
    | Replayed(reply: Reply)              // a stored reply was sent
    | Refused(why: Refusal)
    | Crashed(ended: Option<Reply>)       // the process died after claiming; `ended` is what the handler had answered

  datatype Request = Request(call: Call, claimedAt: int, phase: Phase)

  datatype State = State(
    now: int,
    table: map<Slot, Row>,
    requests: map<nat, Request>,
    claimer: map<Slot, nat>,              // history: the request that inserted the present row
    purges: set<int>)                     // history: when the cleanup ran

  /** A database statement can fail before or after it took effect. */
  datatype Fault = NoFault | LostBefore | LostAfter

  datatype Step =
    | Arrive(id: nat, call: Call)
    | Claim(id: nat, fault: Fault)
    | Lookup(id: nat, fault: Fault)
    | Respond(id: nat, reply: Reply)
    | Save(id: nat, fault: Fault)
    | Send(id: nat)
    | Crash(id: nat)
    | Purge(tenantId: Option<string>)
    | Tick(elapsed: nat)

  /** 24 hours, in milliseconds. */
  const RETENTION: int := 24 * 60 * 60 * 1000

  // ---- admission: which requests take part at all ----

  datatype Admission = PassThrough | InvalidKey | Admitted(slot: Slot)

  predicate KeyChar(c: char) {
    'A' <= c <= 'Z' || 'a' <= c <= 'z' || '0' <= c <= '9' || c in "_.:-"
  }

  predicate ValidKey(key: string) {
    8 <= |key| <= 255 && forall i | 0 <= i < |key| :: KeyChar(key[i])
  }

  /** An absent header, or an absent scope, leaves the request unprotected; the header is checked first. */
  function Admit(header: Option<string>, scopeId: Option<string>): Admission {
    if header.None? || header.value == "" then PassThrough
    else if !ValidKey(header.value) then InvalidKey
    else if scopeId.None? || scopeId.value == "" then PassThrough
    else Admitted(Slot(scopeId.value, header.value))
  }

  // ---- the steps ----

  predicate At(s: State, id: nat, p: Phase) {
    id in s.requests && s.requests[id].phase == p
  }

  function SetPhase(s: State, id: nat, p: Phase): State
    requires id in s.requests
  {
    s.(requests := s.requests[id := s.requests[id].(phase := p)])
  }

  function ClaimRow(s: State, id: nat, next: Phase): State
    requires id in s.requests
  {
    var call := s.requests[id].call;
    s.(table := s.table[call.slot := Row(call.route, call.requestHash, s.now, None)],
       claimer := s.claimer[call.slot := id],
       requests := s.requests[id := Request(call, s.now, next)])
  }

  /** `INSERT … ON CONFLICT DO NOTHING`. */
  function ClaimStep(s: State, id: nat, fault: Fault): State
    requires At(s, id, Arrived)
  {
    var slot := s.requests[id].call.slot;
    if fault.LostBefore? then SetPhase(s, id, Refused(DatabaseError))
    else if slot in s.table then SetPhase(s, id, if fault.LostAfter? then Refused(DatabaseError) else Contended)
    else ClaimRow(s, id, if fault.LostAfter? then Refused(DatabaseError) else Running)
  }

  /** What a request that lost the race is told. */
  function Verdict(call: Call, table: map<Slot, Row>): Phase {
    if call.slot !in table then Refused(RetryRequest)
    else
      var row := table[call.slot];
      if row.route != call.route || row.requestHash != call.requestHash then Refused(UsedForDifferentRequest)
      else if row.stored.None? then Refused(StillInProgress)
      else Replayed(row.stored.value)
  }

  function LookupStep(s: State, id: nat, fault: Fault): State
    requires At(s, id, Contended)
  {
    SetPhase(s, id, if fault.NoFault? then Verdict(s.requests[id].call, s.table) else Refused(DatabaseError))
  }

  /** The patched `res.json`: a 2xx is stored, anything else frees the key. A missing row makes both statements fail. */
  function SaveRow(s: State, slot: Slot, reply: Reply): State {
    if slot !in s.table then s
    else if reply.Succeeded() then s.(table := s.table[slot := s.table[slot].(stored := Some(reply))])
    else s.(table := s.table - {slot}, claimer := s.claimer - {slot})
  }

  /** The reply goes out whether or not the save worked. */
  function SaveStep(s: State, id: nat, fault: Fault): State
    requires id in s.requests && s.requests[id].phase.Recording?
  {
    var reply := s.requests[id].phase.reply;
    var saved := if fault.LostBefore? then s else SaveRow(s, s.requests[id].call.slot, reply);
    SetPhase(saved, id, Recorded(reply))
  }

  predicate Stale(s: State, slot: Slot, tenantId: Option<string>)
    requires slot in s.table
  {
    s.table[slot].createdAt < s.now - RETENTION && (tenantId.None? || slot.scopeId == tenantId.value)
  }

  function StaleSlots(s: State, tenantId: Option<string>): set<Slot> {
    set slot | slot in s.table && Stale(s, slot, tenantId)
  }

  /** The nightly `deleteMany`, for one tenant or for all. */
  function PurgeStep(s: State, tenantId: Option<string>): State {
    var stale := StaleSlots(s, tenantId);
    s.(table := s.table - stale, claimer := s.claimer - stale, purges := s.purges + {s.now})
  }

  /** The handler was started and its reply has not been sent. */
  predicate InFlight(p: Phase) {
    p.Running? || p.Recording? || p.Recorded?
  }

  /** What the handler answered, if it has. */
  function Answer(p: Phase): Option<Reply> {
    if p.Recording? || p.Recorded? || p.Executed? then Some(p.reply)
    else if p.Crashed? then p.ended
    else None
  }

  /** A step that its request is not ready for leaves the state as it is, so every sequence of steps is a run. */
  function Apply(s: State, step: Step): State {
    match step
    case Arrive(id, call) =>
      if id in s.requests then s else s.(requests := s.requests[id := Request(call, s.now, Arrived)])
    case Claim(id, fault) =>
      if At(s, id, Arrived) then ClaimStep(s, id, fault) else s
    case Lookup(id, fault) =>
      if At(s, id, Contended) then LookupStep(s, id, fault) else s
    case Respond(id, reply) =>
      if At(s, id, Running) then SetPhase(s, id, Recording(reply)) else s
    case Save(id, fault) =>
      if id in s.requests && s.requests[id].phase.Recording? then SaveStep(s, id, fault) else s
    case Send(id) =>
      if id in s.requests && s.requests[id].phase.Recorded? then SetPhase(s, id, Executed(s.requests[id].phase.reply))
      else s
    case Crash(id) =>
      if id in s.requests && InFlight(s.requests[id].phase) then SetPhase(s, id, Crashed(Answer(s.requests[id].phase)))
      else s
    case Purge(tenantId) => PurgeStep(s, tenantId)
    case Tick(elapsed) => s.(now := s.now + elapsed)
  }

  function Exec(s: State, steps: seq<Step>): State
    decreases |steps|
  {
    if steps == [] then s else Exec(Apply(s, steps[0]), steps[1..])
  }

  function Init(): State {
    State(0, map[], map[], map[], {})
  }

  // ---- reading a phase ----

  /** The request's handler was started. */
  predicate Claimed(p: Phase) {
    p.Running? || p.Recording? || p.Recorded? || p.Executed? || p.Crashed?
  }

  /** The handler, or the save that follows it, is still at work on the row. */
  predicate Holding(p: Phase) {
    p.Running? || p.Recording?
  }

  /** The handler ran and did not report failure: it succeeded, is still running, or died part-way. */
  predicate Effective(p: Phase) {
    Claimed(p) && (Answer(p).None? || Answer(p).value.Succeeded())
  }

  /** The handler answered 2xx. */
  predicate Completed(p: Phase) {
    Claimed(p) && Answer(p).Some? && Answer(p).value.Succeeded()
  }
}
