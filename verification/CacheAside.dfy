/** Readers that look in the cache, load from the database and fill the cache, interleaved with everything else that
  * happens: writes, deletions and evictions of keys, expiry, and failing cache calls.
  *
  * `getUserPermissions` reads two tables one after the other, and a report sends several queries, in any order; a
  * write may come between any two of them. `since` in a reader or an entry, and `past`, are history variables: when
  * its load began, and every version of the database.
  */
module CacheAside {
  import opened CacheKeys

  datatype UserRole = UserRole(tenantId: string, userId: string, roleId: string)
  datatype Grant = Grant(tenantId: string, roleId: string, permission: string)

  /** `reports` is what each of a report's queries would answer, per cache key: a report reads nothing that its key
    * leaves out (AnalyticsKeys.SharedKeyReadsAlike). */
  datatype Db = Db(userRoles: set<UserRole>, grants: set<Grant>, reports: map<CacheKey, seq<string>>)

  datatype Value = PermissionList(granted: set<Grant>) | ReportData(answers: map<nat, string>)

  datatype Version = Version(at: int, db: Db)

  datatype Entry = Entry(value: Value, expiresAt: int, since: int)

  datatype Reader =
    | Asked(key: CacheKey)
    | Missed(key: CacheKey)
    | HalfRead(key: CacheKey, roles: set<string>, since: int)   // the roles are read, their permissions are not
    | Partway(key: CacheKey, answers: map<nat, string>, since: int)   // some queries of a report are answered
    | Loaded(key: CacheKey, value: Value, since: int)
    | Returned(key: CacheKey, value: Value, at: int, since: int)
    | Failed                                                    // a database error reached the caller

  datatype State = State(now: int, past: seq<Version>, entries: map<CacheKey, Entry>, readers: map<nat, Reader>)

  datatype Step =
    | Ask(id: nat, key: CacheKey)
    | CacheGet(id: nat, ok: bool)
    | FirstRead(id: nat, ok: bool)
    | SecondRead(id: nat, ok: bool)
    | QueryRead(id: nat, query: nat, ok: bool)
    | CacheSet(id: nat, ok: bool)
    | Write(db: Db)
    | Drop(keys: set<CacheKey>)             // del, delByPattern, eviction, flush
    | Tick(elapsed: nat)

  // ---- what the database answers ----

  function RolesOf(db: Db, key: CacheKey): set<string>
    requires key.UserPermissions?
  {
    set r | r in db.userRoles && r.tenantId == key.tenantId && r.userId == key.userId :: r.roleId
  }

  function GrantsOf(db: Db, tenantId: string, roles: set<string>): set<Grant> {
    set g | g in db.grants && g.tenantId == tenantId && g.roleId in roles
  }

  /** The permissions assembled from a first read of one version and a second read of another. */
  function Combine(first: Db, second: Db, key: CacheKey): Value
    requires key.UserPermissions?
  {
    PermissionList(GrantsOf(second, key.tenantId, RolesOf(first, key)))
  }

  /** How many queries a report sends at most. */
  function Queries(key: CacheKey): (n: nat)
    ensures n >= 3
  {
    if !key.Analytics? then 3
    else if key.endpoint == "overview" then 12
    else if key.endpoint == "inventory" then 9
    else if key.endpoint == "customers" || key.endpoint == "revenue" then 6
    else if key.endpoint == "orders" then 4
    else 3
  }

  function AnswerTo(db: Db, key: CacheKey, query: nat): string {
    if key in db.reports && query < |db.reports[key]| then db.reports[key][query] else ""
  }

  function Answers(db: Db, key: CacheKey): map<nat, string> {
    map m: nat | m < Queries(key) :: AnswerTo(db, key, m)
  }

  function Direct(db: Db, key: CacheKey): Value {
    if key.UserPermissions? then Combine(db, db, key) else ReportData(Answers(db, key))
  }

  /** Seconds; unknown endpoints fall back to a minute. */
  function Ttl(key: CacheKey): int
    ensures 0 < Ttl(key) <= 300
  {
    if key.Analytics?
    then if key.endpoint == "overview" then 300 else if IsEndpoint(key.endpoint) then 180 else 60
    else 300
  }

  predicate Cacheable(key: CacheKey) {
    key.UserPermissions? || key.Analytics?
  }

  // ---- the steps ----

  function Current(s: State): Db
    requires s.past != []
  {
    s.past[|s.past| - 1].db
  }

  function SetReader(s: State, id: nat, r: Reader): State {
    s.(readers := s.readers[id := r])
  }

  function GetStep(s: State, id: nat, key: CacheKey, ok: bool): State {
    if ok && key in s.entries && s.now < s.entries[key].expiresAt
    then SetReader(s, id, Returned(key, s.entries[key].value, s.now, s.entries[key].since))
    else SetReader(s, id, Missed(key))
  }

  /** A user without roles has no permissions and needs no second query. */
  function FirstReadStep(s: State, id: nat, key: CacheKey, ok: bool): State
    requires s.past != []
  {
    if !ok then SetReader(s, id, Failed)
    else if key.UserPermissions? then
      var roles := RolesOf(Current(s), key);
      SetReader(s, id, if roles == {} then Loaded(key, PermissionList({}), s.now) else HalfRead(key, roles, s.now))
    else SetReader(s, id, Partway(key, map[], s.now))
  }

  /** The queries are answered one at a time, in whatever order; after the last one the report is complete. */
  function QueryStep(s: State, id: nat, r: Reader, query: nat, ok: bool): State
    requires s.past != [] && r.Partway?
  {
    var answers := r.answers[query := AnswerTo(Current(s), r.key, query)];
    SetReader(s, id, if !ok then Failed
                     else if forall m: nat | m < Queries(r.key) :: m in answers
                     then Loaded(r.key, ReportData(answers), r.since)
                     else Partway(r.key, answers, r.since))
  }

  function SecondReadStep(s: State, id: nat, r: Reader, ok: bool): State
    requires s.past != [] && r.HalfRead?
  {
    SetReader(s, id, if !ok then Failed
                     else Loaded(r.key, PermissionList(GrantsOf(Current(s), r.key.tenantId, r.roles)), r.since))
  }

  /** The value is returned whether or not the cache took it. */
  function SetStep(s: State, id: nat, r: Reader, ok: bool): State
    requires r.Loaded?
  {
    var filled := if ok then s.(entries := s.entries[r.key := Entry(r.value, s.now + Ttl(r.key), r.since)]) else s;
    SetReader(filled, id, Returned(r.key, r.value, s.now, r.since))
  }

  function Written(s: State, db: Db): State {
    s.(past := s.past + [Version(s.now, db)])
  }

  function Apply(s: State, step: Step): State
    requires s.past != []
    ensures Apply(s, step).past != []
  {
    match step
    case Ask(id, key) => if id !in s.readers && Cacheable(key) then SetReader(s, id, Asked(key)) else s
    case CacheGet(id, ok) =>
      if id in s.readers && s.readers[id].Asked? then GetStep(s, id, s.readers[id].key, ok) else s
    case FirstRead(id, ok) =>
      if id in s.readers && s.readers[id].Missed? then FirstReadStep(s, id, s.readers[id].key, ok) else s
    case SecondRead(id, ok) =>
      if id in s.readers && s.readers[id].HalfRead? then SecondReadStep(s, id, s.readers[id], ok) else s
    case QueryRead(id, query, ok) =>
      if id in s.readers && s.readers[id].Partway? && query < Queries(s.readers[id].key)
      then QueryStep(s, id, s.readers[id], query, ok) else s
    case CacheSet(id, ok) => if id in s.readers && s.readers[id].Loaded? then SetStep(s, id, s.readers[id], ok) else s
    case Write(db) => Written(s, db)
    case Drop(keys) => s.(entries := s.entries - keys)
    case Tick(elapsed) => s.(now := s.now + elapsed)
  }

  function Exec(s: State, steps: seq<Step>): State
    requires s.past != []
    ensures Exec(s, steps).past != []
    decreases |steps|
  {
    if steps == [] then s else Exec(Apply(s, steps[0]), steps[1..])
  }

  function Init(db: Db): State {
    State(0, [Version(0, db)], map[], map[])
  }

  // ---- the invariant ----

  /** Version i was current at time t. */
  predicate HeldAt(past: seq<Version>, i: nat, t: int)
    requires i < |past|
  {
    past[i].at <= t && (i + 1 < |past| ==> t <= past[i + 1].at)
  }

  /** Version j was current at some time from `since` to `upTo`. */
  predicate HeldWithin(past: seq<Version>, j: nat, since: int, upTo: int)
    requires j < |past|
  {
    past[j].at <= upTo && (j + 1 < |past| ==> since <= past[j + 1].at)
  }

  predicate Explains(past: seq<Version>, i: nat, j: nat, key: CacheKey, value: Value, since: int, upTo: int)
    requires key.UserPermissions?
  {
    && i <= j < |past| && HeldAt(past, i, since) && HeldWithin(past, j, since, upTo)
    && value == Combine(past[i].db, past[j].db, key)
  }

  predicate AnsweredBy(past: seq<Version>, i: nat, key: CacheKey, query: nat, answer: string, since: int, upTo: int) {
    i < |past| && HeldWithin(past, i, since, upTo) && answer == AnswerTo(past[i].db, key, query)
  }

  /** Some version that was current from `since` to `upTo` gave this answer. */
  ghost predicate Answered(past: seq<Version>, key: CacheKey, query: nat, answer: string, since: int, upTo: int) {
    exists i: nat :: AnsweredBy(past, i, key, query, answer, since, upTo)
  }

  ghost predicate AllAnswered(past: seq<Version>, key: CacheKey, answers: map<nat, string>, since: int, upTo: int) {
    forall m | m in answers :: m < Queries(key) && Answered(past, key, m, answers[m], since, upTo)
  }

  /** The value is what a load begun at `since` and finished by `upTo` read. */
  ghost predicate Explained(past: seq<Version>, key: CacheKey, value: Value, since: int, upTo: int) {
    since <= upTo
    && if key.UserPermissions? then exists i: nat, j: nat :: Explains(past, i, j, key, value, since, upTo)
       else value.ReportData? && (forall m: nat | m < Queries(key) :: m in value.answers)
            && AllAnswered(past, key, value.answers, since, upTo)
  }

  ghost predicate RolesRead(past: seq<Version>, key: CacheKey, roles: set<string>, since: int) {
    key.UserPermissions? && exists i: nat :: i < |past| && HeldAt(past, i, since) && roles == RolesOf(past[i].db, key)
  }

  ghost predicate ReaderOk(s: State, r: Reader, delay: int) {
    match r
    case Asked(key) => Cacheable(key)
    case Missed(key) => Cacheable(key)
    case HalfRead(key, roles, since) => since <= s.now && RolesRead(s.past, key, roles, since)
    case Partway(key, answers, since) =>
      key.Analytics? && since <= s.now && AllAnswered(s.past, key, answers, since, s.now)
    case Loaded(key, value, since) => Cacheable(key) && Explained(s.past, key, value, since, s.now)
    case Returned(key, value, at, since) =>
      at <= s.now && at - Ttl(key) - delay <= since && Explained(s.past, key, value, since, at)
    case Failed => true
  }

  /** An entry is explained up to the time it was set, which was at most `delay` after its load began. */
  ghost predicate EntryOk(s: State, key: CacheKey, e: Entry, delay: int) {
    var setAt := e.expiresAt - Ttl(key);
    setAt <= s.now && setAt - e.since <= delay && Explained(s.past, key, e.value, e.since, setAt)
  }

  predicate Ordered(s: State) {
    && s.past != [] && s.past[|s.past| - 1].at <= s.now
    && forall i, j | 0 <= i < j < |s.past| :: s.past[i].at <= s.past[j].at
  }

  ghost predicate Inv(s: State, delay: int) {
    && Ordered(s) && 0 <= delay
    && (forall key | key in s.entries :: EntryOk(s, key, s.entries[key], delay))
    && (forall id | id in s.readers :: ReaderOk(s, s.readers[id], delay))
  }

  predicate OnTime(s: State, step: Step, delay: int) {
    step.CacheSet? && step.id in s.readers && s.readers[step.id].Loaded? ==> s.now - s.readers[step.id].since <= delay
  }

  /** Every fill happens at most `delay` after its load began. */
  ghost predicate Prompt(s: State, steps: seq<Step>, delay: int)
    requires s.past != []
    decreases |steps|
  {
    steps == [] ||
    (OnTime(s, steps[0], delay) && Prompt(Apply(s, steps[0]), steps[1..], delay))
  }

  /** A later write, or a later deadline, does not change what an earlier load read. */
  lemma AnswersStand(s: State, db: Db, key: CacheKey, answers: map<nat, string>, since: int, upTo: int, later: int)
    requires Ordered(s) && AllAnswered(s.past, key, answers, since, upTo) && since <= upTo <= s.now && upTo <= later
    ensures AllAnswered(s.past + [Version(s.now, db)], key, answers, since, upTo)
    ensures AllAnswered(s.past, key, answers, since, later)
  {
    forall m | m in answers
      ensures Answered(s.past + [Version(s.now, db)], key, m, answers[m], since, upTo)
      ensures Answered(s.past, key, m, answers[m], since, later)
    {
      var i: nat :| AnsweredBy(s.past, i, key, m, answers[m], since, upTo);
      assert AnsweredBy(s.past + [Version(s.now, db)], i, key, m, answers[m], since, upTo);
      assert AnsweredBy(s.past, i, key, m, answers[m], since, later);
    }
  }

  lemma WriteExplains(s: State, db: Db, key: CacheKey, value: Value, since: int, upTo: int)
    requires Ordered(s) && Explained(s.past, key, value, since, upTo) && upTo <= s.now
    ensures Explained(s.past + [Version(s.now, db)], key, value, since, upTo)
  {
    if key.UserPermissions? {
      var i: nat, j: nat :| Explains(s.past, i, j, key, value, since, upTo);
      assert Explains(s.past + [Version(s.now, db)], i, j, key, value, since, upTo);
    } else {
      AnswersStand(s, db, key, value.answers, since, upTo, upTo);
    }
  }

  lemma LaterExplains(s: State, key: CacheKey, value: Value, since: int, upTo: int, later: int)
    requires Ordered(s) && Explained(s.past, key, value, since, upTo) && upTo <= s.now && upTo <= later
    ensures Explained(s.past, key, value, since, later)
  {
    if key.UserPermissions? {
      var i: nat, j: nat :| Explains(s.past, i, j, key, value, since, upTo);
      assert Explains(s.past, i, j, key, value, since, later);
    } else {
      AnswersStand(s, Current(s), key, value.answers, since, upTo, later);
    }
  }

  lemma WriteKeepsReader(s: State, db: Db, r: Reader, delay: int)
    requires Ordered(s) && ReaderOk(s, r, delay)
    ensures ReaderOk(Written(s, db), r, delay)
  {
    if r.HalfRead? {
      var t := Written(s, db);
      var i: nat :| i < |s.past| && HeldAt(s.past, i, r.since) && r.roles == RolesOf(s.past[i].db, r.key);
      assert HeldAt(t.past, i, r.since) && t.past[i] == s.past[i];
    } else if r.Partway? {
      AnswersStand(s, db, r.key, r.answers, r.since, s.now, s.now);
    } else if r.Loaded? {
      WriteExplains(s, db, r.key, r.value, r.since, s.now);
    } else if r.Returned? {
      WriteExplains(s, db, r.key, r.value, r.since, r.at);
    }
  }

  lemma WriteKeepsEntry(s: State, db: Db, key: CacheKey, e: Entry, delay: int)
    requires Ordered(s) && EntryOk(s, key, e, delay)
    ensures EntryOk(Written(s, db), key, e, delay)
  {
    WriteExplains(s, db, key, e.value, e.since, e.expiresAt - Ttl(key));
  }

  lemma WriteKeeps(s: State, db: Db, delay: int)
    requires Inv(s, delay)
    ensures Inv(Written(s, db), delay)
  {
    var t := Written(s, db);
    forall key | key in t.entries ensures EntryOk(t, key, t.entries[key], delay) {
      WriteKeepsEntry(s, db, key, s.entries[key], delay);
    }
    forall id | id in t.readers ensures ReaderOk(t, t.readers[id], delay) {
      WriteKeepsReader(s, db, s.readers[id], delay);
    }
  }

  lemma TickKeeps(s: State, elapsed: nat, delay: int)
    requires Inv(s, delay)
    ensures Inv(Apply(s, Tick(elapsed)), delay)
  {
    var t := Apply(s, Tick(elapsed));
    forall key | key in t.entries ensures EntryOk(t, key, t.entries[key], delay) {
      assert EntryOk(s, key, s.entries[key], delay);
    }
    forall id | id in t.readers ensures ReaderOk(t, t.readers[id], delay) {
      var r := s.readers[id];
      assert ReaderOk(s, r, delay);
      if r.Loaded? {
        LaterExplains(s, r.key, r.value, r.since, s.now, t.now);
      } else if r.Partway? {
        AnswersStand(s, Current(s), r.key, r.answers, r.since, s.now, t.now);
      }
    }
  }

  /** One reader moves on and at most its own key is filled. */
  lemma ReaderKeeps(s: State, t: State, id: nat, delay: int)
    requires Inv(s, delay) && t.now == s.now && t.past == s.past && id in t.readers
    requires forall x | x in t.readers && x != id :: x in s.readers && t.readers[x] == s.readers[x]
    requires ReaderOk(t, t.readers[id], delay)
    requires forall key | key in t.entries ::
               (key in s.entries && t.entries[key] == s.entries[key]) || EntryOk(t, key, t.entries[key], delay)
    ensures Inv(t, delay)
  {
    forall key | key in t.entries ensures EntryOk(t, key, t.entries[key], delay) {
      if key in s.entries && t.entries[key] == s.entries[key] {
        assert EntryOk(s, key, s.entries[key], delay);
      }
    }
    forall x | x in t.readers ensures ReaderOk(t, t.readers[x], delay) {
      if x != id {
        assert ReaderOk(s, s.readers[x], delay);
      }
    }
  }

  lemma ReadsExplain(s: State, id: nat, delay: int)
    requires Inv(s, delay) && id in s.readers
    ensures var r := s.readers[id];
            && (r.Missed? ==> ReaderOk(s, FirstReadStep(s, id, r.key, true).readers[id], delay))
            && (r.HalfRead? ==> ReaderOk(s, SecondReadStep(s, id, r, true).readers[id], delay))
            && (forall query: nat | r.Partway? && query < Queries(r.key) ::
                  ReaderOk(s, QueryStep(s, id, r, query, true).readers[id], delay))
  {
    var r := s.readers[id];
    var last := |s.past| - 1;
    assert ReaderOk(s, r, delay);
    if r.Missed? {
      var v := FirstReadStep(s, id, r.key, true).readers[id];
      assert HeldAt(s.past, last, s.now);
      if v.Loaded? {
        assert Explains(s.past, last, last, r.key, v.value, s.now, s.now);
      }
    } else if r.HalfRead? {
      var i: nat :| i < |s.past| && HeldAt(s.past, i, r.since) && r.roles == RolesOf(s.past[i].db, r.key);
      assert Explains(s.past, i, last, r.key, SecondReadStep(s, id, r, true).readers[id].value, r.since, s.now);
    } else if r.Partway? {
      forall query: nat | query < Queries(r.key)
          ensures ReaderOk(s, QueryStep(s, id, r, query, true).readers[id], delay) {
        assert AnsweredBy(s.past, last, r.key, query, AnswerTo(Current(s), r.key, query), r.since, s.now);
      }
    }
  }

  lemma EntryReturned(s: State, key: CacheKey, e: Entry, delay: int)
    requires Ordered(s) && EntryOk(s, key, e, delay) && s.now < e.expiresAt
    ensures ReaderOk(s, Returned(key, e.value, s.now, e.since), delay)
  {
    LaterExplains(s, key, e.value, e.since, e.expiresAt - Ttl(key), s.now);
  }

  lemma GetKeeps(s: State, id: nat, ok: bool, delay: int)
    requires Inv(s, delay) && id in s.readers && s.readers[id].Asked?
    ensures Inv(GetStep(s, id, s.readers[id].key, ok), delay)
  {
    var key := s.readers[id].key;
    assert ReaderOk(s, s.readers[id], delay);
    if ok && key in s.entries && s.now < s.entries[key].expiresAt {
      assert EntryOk(s, key, s.entries[key], delay);
      EntryReturned(s, key, s.entries[key], delay);
    }
    ReaderKeeps(s, GetStep(s, id, key, ok), id, delay);
  }

  lemma SetKeeps(s: State, id: nat, ok: bool, delay: int)
    requires Inv(s, delay) && id in s.readers && s.readers[id].Loaded? && s.now - s.readers[id].since <= delay
    ensures Inv(SetStep(s, id, s.readers[id], ok), delay)
  {
    assert ReaderOk(s, s.readers[id], delay);
    ReaderKeeps(s, SetStep(s, id, s.readers[id], ok), id, delay);
  }

  lemma DropKeeps(s: State, keys: set<CacheKey>, delay: int)
    requires Inv(s, delay)
    ensures Inv(Apply(s, Drop(keys)), delay)
  {
    var t := Apply(s, Drop(keys));
    forall key | key in t.entries ensures EntryOk(t, key, t.entries[key], delay) {
      assert EntryOk(s, key, s.entries[key], delay);
    }
    forall id | id in t.readers ensures ReaderOk(t, t.readers[id], delay) {
      assert ReaderOk(s, s.readers[id], delay);
    }
  }

  lemma StepKeeps(s: State, step: Step, delay: int)
    requires Inv(s, delay) && OnTime(s, step, delay)
    ensures Inv(Apply(s, step), delay)
  {
    match step
    case Ask(id, key) => if id !in s.readers && Cacheable(key) { ReaderKeeps(s, Apply(s, step), id, delay); }
    case CacheGet(id, ok) => if id in s.readers && s.readers[id].Asked? { GetKeeps(s, id, ok, delay); }
    case FirstRead(id, ok) =>
      if id in s.readers && s.readers[id].Missed? {
        ReadsExplain(s, id, delay);
        ReaderKeeps(s, Apply(s, step), id, delay);
      }
    case SecondRead(id, ok) =>
      if id in s.readers && s.readers[id].HalfRead? {
        ReadsExplain(s, id, delay);
        ReaderKeeps(s, Apply(s, step), id, delay);
      }
    case QueryRead(id, query, ok) =>
      if id in s.readers && s.readers[id].Partway? && query < Queries(s.readers[id].key) {
        ReadsExplain(s, id, delay);
        ReaderKeeps(s, Apply(s, step), id, delay);
      }
    case CacheSet(id, ok) => if id in s.readers && s.readers[id].Loaded? { SetKeeps(s, id, ok, delay); }
    case Write(db) => WriteKeeps(s, db, delay);
    case Drop(keys) => DropKeeps(s, keys, delay);
    case Tick(elapsed) => TickKeeps(s, elapsed, delay);
  }

  lemma {:induction false} RunKeeps(s: State, steps: seq<Step>, delay: int)
    requires Inv(s, delay) && Prompt(s, steps, delay)
    ensures Inv(Exec(s, steps), delay)
    decreases |steps|
  {
    if steps != [] {
      StepKeeps(s, steps[0], delay);
      RunKeeps(Apply(s, steps[0]), steps[1..], delay);
    }
  }

  // ---- bounded staleness ----

  /** Whatever was interleaved, a value returned at time T was read from versions of the database that were current no
    * earlier than T - TTL - delay, and no later than T. */
  lemma StalenessIsBounded(db: Db, steps: seq<Step>, delay: int, id: nat)
    requires 0 <= delay && Prompt(Init(db), steps, delay)
    requires var s := Exec(Init(db), steps); id in s.readers && s.readers[id].Returned?
    ensures var s := Exec(Init(db), steps);
            var r := s.readers[id];
            Ordered(s) && r.at - Ttl(r.key) - delay <= r.since <= r.at
                && Explained(s.past, r.key, r.value, r.since, r.at)
  {
    RunKeeps(Init(db), steps, delay);
    assert ReaderOk(Exec(Init(db), steps), Exec(Init(db), steps).readers[id], delay);
  }

  /** For a permission list: the first read exactly at `since`, the second between `since` and T. */
  lemma BoundedStaleness(db: Db, steps: seq<Step>, delay: int, id: nat) returns (i: nat, j: nat)
    requires 0 <= delay && Prompt(Init(db), steps, delay)
    requires var s := Exec(Init(db), steps);
             id in s.readers && s.readers[id].Returned? && s.readers[id].key.UserPermissions?
    ensures var s := Exec(Init(db), steps);
            var r := s.readers[id];
            && Ordered(s) && r.at - 300 - delay <= r.since <= r.at
            && i <= j < |s.past|
            && HeldAt(s.past, i, r.since) && HeldWithin(s.past, j, r.since, r.at)
            && r.value == Combine(s.past[i].db, s.past[j].db, r.key)
  {
    StalenessIsBounded(db, steps, delay, id);
    var s := Exec(Init(db), steps);
    var r := s.readers[id];
    i, j :| Explains(s.past, i, j, r.key, r.value, r.since, r.at);
  }

  /** For a report: each query's answer is that of some version in between. */
  lemma ReportsAreBounded(db: Db, steps: seq<Step>, delay: int, id: nat, query: nat) returns (i: nat)
    requires 0 <= delay && Prompt(Init(db), steps, delay)
    requires var s := Exec(Init(db), steps);
             id in s.readers && s.readers[id].Returned? && !s.readers[id].key.UserPermissions?
             && query < Queries(s.readers[id].key)
    ensures var s := Exec(Init(db), steps);
            var r := s.readers[id];
            && r.at - Ttl(r.key) - delay <= r.since <= r.at
            && i < |s.past| && HeldWithin(s.past, i, r.since, r.at)
            && r.value.ReportData? && query in r.value.answers
            && r.value.answers[query] == AnswerTo(s.past[i].db, r.key, query)
  {
    StalenessIsBounded(db, steps, delay, id);
    var s := Exec(Init(db), steps);
    var r := s.readers[id];
    i :| AnsweredBy(s.past, i, r.key, query, r.value.answers[query], r.since, r.at);
  }

  predicate SameAnswer(past: seq<Version>, key: CacheKey, m: nat, i: nat, j: nat)
    requires i < |past| && j < |past|
  {
    AnswerTo(past[i].db, key, m) == AnswerTo(past[j].db, key, m)
  }

  /** Between `since` and `upTo` no answer but that of `query` changes. */
  ghost predicate OnlyChanges(past: seq<Version>, key: CacheKey, query: nat, since: int, upTo: int) {
    forall i: nat, j: nat, m: nat | i < |past| && j < |past| && m < Queries(key) && m != query
                                    && HeldWithin(past, i, since, upTo) && HeldWithin(past, j, since, upTo) ::
      SameAnswer(past, key, m, i, j)
  }

  lemma AnswersOfOneVersion(past: seq<Version>, key: CacheKey, value: Value, query: nat, since: int, upTo: int)
    returns (k: nat)
    requires !key.UserPermissions? && Explained(past, key, value, since, upTo)
    requires query < Queries(key) && OnlyChanges(past, key, query, since, upTo)
    ensures k < |past| && HeldWithin(past, k, since, upTo) && value == Direct(past[k].db, key)
  {
    k :| AnsweredBy(past, k, key, query, value.answers[query], since, upTo);
    forall m: nat | m < Queries(key) ensures value.answers[m] == AnswerTo(past[k].db, key, m) {
      var i: nat :| AnsweredBy(past, i, key, m, value.answers[m], since, upTo);
      assert m != query ==> SameAnswer(past, key, m, i, k);
    }
    assert value.answers == Answers(past[k].db, key);
  }

  /** A report during which, of all that it reads, at most one query's answer changed is the direct answer of one of the
    * versions in between. */
  lemma ReportIsOneVersionIfOneQueryChanges(db: Db, steps: seq<Step>, delay: int, id: nat, query: nat) returns (k: nat)
    requires 0 <= delay && Prompt(Init(db), steps, delay)
    requires var s := Exec(Init(db), steps);
             id in s.readers && s.readers[id].Returned? && !s.readers[id].key.UserPermissions?
             && query < Queries(s.readers[id].key)
             && OnlyChanges(s.past, s.readers[id].key, query, s.readers[id].since, s.readers[id].at)
    ensures var s := Exec(Init(db), steps);
            var r := s.readers[id];
            && r.at - Ttl(r.key) - delay <= r.since <= r.at
            && k < |s.past| && HeldWithin(s.past, k, r.since, r.at) && r.value == Direct(s.past[k].db, r.key)
  {
    StalenessIsBounded(db, steps, delay, id);
    var s := Exec(Init(db), steps);
    var r := s.readers[id];
    k := AnswersOfOneVersion(s.past, r.key, r.value, query, r.since, r.at);
  }

  /** What was put into the cache is what every reader gets until its lifetime is over, whatever is written in between,
    * and not a moment longer: five minutes for permissions and the overview, three for the other reports, and one for
    * an endpoint that is not listed. A key that is dropped is a miss at once. So the staleness bound is reached. */
  lemma ServedForItsLifetime(s: State, id: nat, later: nat, db: Db, elapsed: nat, dropped: bool)
    requires s.past != [] && id in s.readers && s.readers[id].Loaded? && later !in s.readers
    requires Cacheable(s.readers[id].key)
    ensures var r := s.readers[id];
            var lifetime := if r.key.UserPermissions? || r.key.endpoint == "overview" then 300
                            else if r.key.endpoint in {"sales", "orders", "inventory", "customers", "revenue"} then 180
                            else 60;
            var filled := Apply(Apply(Apply(s, CacheSet(id, true)), Write(db)), Tick(elapsed));
            var asked := Apply(if dropped then Apply(filled, Drop({r.key})) else filled, Ask(later, r.key));
            var t := Apply(asked, CacheGet(later, true));
            && filled.readers[id] == Returned(r.key, r.value, s.now, r.since)
            && later in t.readers
            && t.readers[later] == if elapsed < lifetime && !dropped
                                   then Returned(r.key, r.value, s.now + elapsed, r.since) else Missed(r.key)
  {
  }
}
