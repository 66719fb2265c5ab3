/** When the two reads of `getUserPermissions` amount to one: exactly which writes between them are harmless. */
module TornReads {
  import opened CacheKeys
  import opened CacheAside

  /** What one write may change for a user: the user's roles, and the permissions of the roles the first read saw. */
  datatype Kind = Kind(roles: bool, grants: bool)

  /** A change of the user's roles with a change of those roles' permissions in the same write or a later one. */
  predicate RolesThenGrants(w: seq<Kind>) {
    exists a, b | 0 <= a <= b < |w| :: w[a].roles && w[b].grants
  }

  function FirstRoles(vs: seq<Db>, key: CacheKey): set<string>
    requires |vs| > 0 && key.UserPermissions?
  {
    RolesOf(vs[0], key)
  }

  /** The write from vs[m] to vs[m + 1] changes no more than its kind allows. */
  predicate StepFollows(vs: seq<Db>, w: seq<Kind>, key: CacheKey, m: nat)
    requires m < |w| && |vs| == |w| + 1 && key.UserPermissions?
  {
    && (w[m].roles || RolesOf(vs[m + 1], key) == RolesOf(vs[m], key))
    && (w[m].grants
        || GrantsOf(vs[m + 1], key.tenantId, FirstRoles(vs, key)) == GrantsOf(vs[m], key.tenantId, FirstRoles(vs, key)))
  }

  /** The database goes through the versions vs by writes of the kinds w. */
  predicate Follows(vs: seq<Db>, w: seq<Kind>, key: CacheKey)
    requires key.UserPermissions?
  {
    |vs| == |w| + 1 && forall m | 0 <= m < |w| :: StepFollows(vs, w, key, m)
  }

  /** The answer read from the first and the last version is the direct answer of one of them. */
  ghost predicate IsOneVersion(vs: seq<Db>, key: CacheKey)
    requires key.UserPermissions?
  {
    |vs| > 0 && exists k :: 0 <= k < |vs| && Combine(vs[0], vs[|vs| - 1], key) == Direct(vs[k], key)
  }

  // ---- harmless windows ----

  lemma FirstRoleWrite(w: seq<Kind>) returns (k: nat)
    ensures k <= |w| && (forall m | 0 <= m < k :: !w[m].roles) && (k < |w| ==> w[k].roles)
  {
    k := 0;
    while k < |w| && !w[k].roles
      invariant k <= |w| && forall m | 0 <= m < k :: !w[m].roles
    {
      k := k + 1;
    }
  }

  lemma {:induction false} RolesStand(vs: seq<Db>, w: seq<Kind>, key: CacheKey, k: nat)
    requires key.UserPermissions? && Follows(vs, w, key) && k <= |w| && forall m | 0 <= m < k :: !w[m].roles
    ensures RolesOf(vs[k], key) == FirstRoles(vs, key)
    decreases k
  {
    if k > 0 {
      RolesStand(vs, w, key, k - 1);
      assert StepFollows(vs, w, key, k - 1);
    }
  }

  lemma {:induction false} GrantsStand(vs: seq<Db>, w: seq<Kind>, key: CacheKey, k: nat)
    requires key.UserPermissions? && Follows(vs, w, key) && k <= |w| && forall m | k <= m < |w| :: !w[m].grants
    ensures GrantsOf(vs[k], key.tenantId, FirstRoles(vs, key)) == GrantsOf(vs[|w|], key.tenantId, FirstRoles(vs, key))
    decreases |w| - k
  {
    if k < |w| {
      GrantsStand(vs, w, key, k + 1);
      assert StepFollows(vs, w, key, k);
    }
  }

  /** The version to answer for is the last one before the roles change. */
  lemma HarmlessWindow(vs: seq<Db>, w: seq<Kind>, key: CacheKey) returns (k: nat)
    requires key.UserPermissions? && Follows(vs, w, key) && !RolesThenGrants(w)
    ensures k < |vs| && RolesOf(vs[k], key) == FirstRoles(vs, key)
    ensures GrantsOf(vs[k], key.tenantId, FirstRoles(vs, key)) == GrantsOf(vs[|w|], key.tenantId, FirstRoles(vs, key))
    ensures Combine(vs[0], vs[|vs| - 1], key) == Direct(vs[k], key)
  {
    k := FirstRoleWrite(w);
    assert forall m | k <= m < |w| :: !w[m].grants;
    RolesStand(vs, w, key, k);
    GrantsStand(vs, w, key, k);
  }

  // ---- harmful windows ----

  /** Content for a window whose write a changes the roles and whose write b, no earlier, the permissions: the user
    * stops being a clerk, and clerks may delete orders instead of reading them. */
  function Staged(key: CacheKey, a: nat, b: nat, m: nat): Db
    requires key.UserPermissions?
  {
    Db(if m <= a then {UserRole(key.tenantId, key.userId, "clerk")} else {},
       {Grant(key.tenantId, "clerk", if m <= b then "order:read" else "order:delete")}, map[])
  }

  function Stages(key: CacheKey, a: nat, b: nat, n: nat): (vs: seq<Db>)
    requires key.UserPermissions?
    ensures |vs| == n + 1 && forall m | 0 <= m <= n :: vs[m] == Staged(key, a, b, m)
  {
    seq(n + 1, m requires 0 <= m <= n => Staged(key, a, b, m))
  }

  lemma StagedAnswer(key: CacheKey, a: nat, b: nat, m: nat)
    requires key.UserPermissions?
    ensures RolesOf(Staged(key, a, b, m), key) == if m <= a then {"clerk"} else {}
    ensures var g := Grant(key.tenantId, "clerk", if m <= b then "order:read" else "order:delete");
            GrantsOf(Staged(key, a, b, m), key.tenantId, {"clerk"}) == {g}
  {
    var db := Staged(key, a, b, m);
    if m <= a {
      assert UserRole(key.tenantId, key.userId, "clerk") in db.userRoles;
      assert "clerk" in RolesOf(db, key);
    }
  }

  lemma HarmfulWindow(w: seq<Kind>, key: CacheKey, a: nat, b: nat)
    requires key.UserPermissions? && a <= b < |w| && w[a].roles && w[b].grants
    ensures var vs := Stages(key, a, b, |w|); Follows(vs, w, key) && !IsOneVersion(vs, key)
  {
    var n, vs := |w|, Stages(key, a, b, |w|);
    StagedAnswer(key, a, b, 0);
    StagedAnswer(key, a, b, n);
    forall m | 0 <= m < n ensures StepFollows(vs, w, key, m) {
      StagedAnswer(key, a, b, m);
      StagedAnswer(key, a, b, m + 1);
    }
    var g := Grant(key.tenantId, "clerk", "order:delete");
    assert Combine(vs[0], vs[n], key) == PermissionList({g});
    forall m | 0 <= m <= n ensures Direct(vs[m], key) != PermissionList({g}) {
      StagedAnswer(key, a, b, m);
      if m <= a {
        assert GrantsOf(vs[m], key.tenantId, {"clerk"}) == {Grant(key.tenantId, "clerk", "order:read")};
        assert g !in GrantsOf(vs[m], key.tenantId, {"clerk"});
      } else {
        assert g !in GrantsOf(vs[m], key.tenantId, {});
      }
    }
  }

  /** A window of writes is harmless for every content of the database if and only if no change of the user's roles in
    * it comes with, or before, a change of the permissions of those roles. */
  lemma WindowIsHarmlessIff(w: seq<Kind>, key: CacheKey)
    requires key.UserPermissions?
    ensures (forall vs | Follows(vs, w, key) :: IsOneVersion(vs, key)) <==> !RolesThenGrants(w)
  {
    if RolesThenGrants(w) {
      var a, b :| 0 <= a <= b < |w| && w[a].roles && w[b].grants;
      HarmfulWindow(w, key, a, b);
    } else {
      forall vs | Follows(vs, w, key) ensures IsOneVersion(vs, key) {
        var k := HarmlessWindow(vs, w, key);
      }
    }
  }

  // ---- over runs ----

  /** The database contents of the versions from i to j. */
  function Contents(past: seq<Version>, i: nat, j: nat): (vs: seq<Db>)
    requires i <= j < |past|
    ensures |vs| == j - i + 1 && forall m | 0 <= m <= j - i :: vs[m] == past[i + m].db
  {
    seq(j - i + 1, m requires 0 <= m <= j - i => past[i + m].db)
  }

  /** The list is the direct answer of version k, which was current within the staleness bound. */
  predicate AnswersFor(past: seq<Version>, r: Reader, k: nat)
    requires r.Returned?
  {
    k < |past| && HeldWithin(past, k, r.since, r.at) && r.value == Direct(past[k].db, r.key)
  }

  /** Version k has the roles of i and the permissions that those roles have in j. */
  predicate Between(past: seq<Version>, key: CacheKey, i: nat, k: nat, j: nat)
    requires i <= k <= j < |past| && key.UserPermissions?
  {
    var roles := RolesOf(past[i].db, key);
    RolesOf(past[k].db, key) == roles
    && GrantsOf(past[k].db, key.tenantId, roles) == GrantsOf(past[j].db, key.tenantId, roles)
  }

  lemma AnswersBetween(past: seq<Version>, r: Reader, i: nat, j: nat, k: nat)
    requires r.Returned? && r.key.UserPermissions? && i <= k <= j < |past|
    requires forall m, n | 0 <= m < n < |past| :: past[m].at <= past[n].at
    requires HeldAt(past, i, r.since) && HeldWithin(past, j, r.since, r.at)
    requires r.value == Combine(past[i].db, past[j].db, r.key)
    ensures Between(past, r.key, i, k, j) ==> AnswersFor(past, r, k)
  {
    assert past[k].at <= past[j].at;
    assert k + 1 < |past| ==> past[i + 1].at <= past[k + 1].at;
  }

  lemma HarmlessBetween(past: seq<Version>, key: CacheKey, i: nat, j: nat, w: seq<Kind>) returns (k: nat)
    requires key.UserPermissions? && i <= j < |past| && Follows(Contents(past, i, j), w, key) && !RolesThenGrants(w)
    ensures i <= k <= j && Between(past, key, i, k, j)
  {
    var vs := Contents(past, i, j);
    var m := HarmlessWindow(vs, w, key);
    assert vs[m] == past[i + m].db && vs[|w|] == past[j].db && vs[0] == past[i].db;
    k := i + m;
  }

  /** In every run, the versions i and j that a returned permission list was read from bound a window; whenever some
    * version in it has the roles of i and the permissions those roles have in j, and whenever the writes in it are
    * harmless, the list is the direct answer of a version within the staleness bound. */
  lemma OneVersionUnlessRolesThenGrants(db: Db, steps: seq<Step>, delay: int, id: nat) returns (i: nat, j: nat)
    requires 0 <= delay && Prompt(Init(db), steps, delay)
    requires var s := Exec(Init(db), steps);
             id in s.readers && s.readers[id].Returned? && s.readers[id].key.UserPermissions?
    ensures var s := Exec(Init(db), steps);
            var r := s.readers[id];
            && r.at - Ttl(r.key) - delay <= r.since <= r.at && i <= j < |s.past|
            && HeldAt(s.past, i, r.since) && HeldWithin(s.past, j, r.since, r.at)
            && r.value == Combine(s.past[i].db, s.past[j].db, r.key)
            && (forall k | i <= k <= j && Between(s.past, r.key, i, k, j) :: AnswersFor(s.past, r, k))
            && (forall w | Follows(Contents(s.past, i, j), w, r.key) && !RolesThenGrants(w) ::
                  exists k :: i <= k <= j && AnswersFor(s.past, r, k))
  {
    i, j := BoundedStaleness(db, steps, delay, id);
    RunKeeps(Init(db), steps, delay);
    var s := Exec(Init(db), steps);
    var r := s.readers[id];
    forall k | i <= k <= j ensures Between(s.past, r.key, i, k, j) ==> AnswersFor(s.past, r, k) {
      AnswersBetween(s.past, r, i, j, k);
    }
    forall w | Follows(Contents(s.past, i, j), w, r.key) && !RolesThenGrants(w)
      ensures exists k :: i <= k <= j && AnswersFor(s.past, r, k)
    {
      var k := HarmlessBetween(s.past, r.key, i, j, w);
    }
  }

  function Writes(vs: seq<Db>): seq<Step> {
    if vs == [] then [] else [Write(vs[0])] + Writes(vs[1..])
  }

  function Versions(vs: seq<Db>, at: int): (r: seq<Version>)
    ensures |r| == |vs| && forall m | 0 <= m < |vs| :: r[m] == Version(at, vs[m])
  {
    seq(|vs|, m requires 0 <= m < |vs| => Version(at, vs[m]))
  }

  lemma {:induction false} ExecJoined(s: State, xs: seq<Step>, ys: seq<Step>)
    requires s.past != []
    ensures Exec(s, xs + ys) == Exec(Exec(s, xs), ys)
    decreases |xs|
  {
    if xs == [] {
      assert xs + ys == ys;
    } else {
      assert (xs + ys)[1..] == xs[1..] + ys;
      ExecJoined(Apply(s, xs[0]), xs[1..], ys);
    }
  }

  lemma OneStep(s: State, a: Step)
    requires s.past != []
    ensures Exec(s, [a]) == Apply(s, a)
  {
    assert [a][1..] == [];
    assert Exec(s, [a]) == Exec(Apply(s, a), []);
  }

  lemma StepThen(s: State, a: Step, rest: seq<Step>)
    requires s.past != []
    ensures Exec(s, [a] + rest) == Exec(Apply(s, a), rest)
  {
    ExecJoined(s, [a], rest);
    OneStep(s, a);
  }

  lemma {:induction false} ExecWrites(s: State, vs: seq<Db>)
    requires s.past != []
    ensures Exec(s, Writes(vs)) == s.(past := s.past + Versions(vs, s.now))
    decreases |vs|
  {
    if vs == [] {
      assert s.past + [] == s.past;
    } else {
      StepThen(s, Write(vs[0]), Writes(vs[1..]));
      ExecWrites(Written(s, vs[0]), vs[1..]);
      assert s.past + [Version(s.now, vs[0])] + Versions(vs[1..], s.now) == s.past + Versions(vs, s.now);
    }
  }

  /** One reader, with all the writes between its two reads. */
  function ReadAround(key: CacheKey, vs: seq<Db>): seq<Step>
    requires |vs| > 0
  {
    [Ask(0, key), CacheGet(0, true), FirstRead(0, true)] + Writes(vs[1..]) + [SecondRead(0, true), CacheSet(0, true)]
  }

  lemma ThreeSteps(s: State, a: Step, b: Step, c: Step)
    requires s.past != []
    ensures Exec(s, [a, b, c]) == Apply(Apply(Apply(s, a), b), c)
  {
    assert [a, b, c][1..] == [b, c] && [b, c][1..] == [c] && [c][1..] == [];
    assert Exec(Apply(Apply(s, a), b), [c]) == Exec(Apply(Apply(Apply(s, a), b), c), []);
  }

  lemma TwoSteps(s: State, a: Step, b: Step)
    requires s.past != []
    ensures Exec(s, [a, b]) == Apply(Apply(s, a), b)
  {
    assert [a, b][1..] == [b] && [b][1..] == [];
    assert Exec(Apply(s, a), [b]) == Exec(Apply(Apply(s, a), b), []);
  }

  lemma FirstHalf(key: CacheKey, db: Db)
    requires key.UserPermissions? && RolesOf(db, key) != {}
    ensures Exec(Init(db), [Ask(0, key), CacheGet(0, true), FirstRead(0, true)])
            == State(0, [Version(0, db)], map[], map[0 := HalfRead(key, RolesOf(db, key), 0)])
  {
    ThreeSteps(Init(db), Ask(0, key), CacheGet(0, true), FirstRead(0, true));
  }

  lemma SecondHalf(key: CacheKey, s: State, roles: set<string>)
    requires key.UserPermissions? && s.past != [] && s.readers == map[0 := HalfRead(key, roles, s.now)]
    ensures var t := Exec(s, [SecondRead(0, true), CacheSet(0, true)]);
            && t.past == s.past
            && t.readers == map[0 := Returned(key, PermissionList(GrantsOf(Current(s), key.tenantId, roles)),
                                               s.now, s.now)]
  {
    TwoSteps(s, SecondRead(0, true), CacheSet(0, true));
  }

  lemma ReadAroundReturns(key: CacheKey, vs: seq<Db>)
    requires key.UserPermissions? && |vs| > 0 && RolesOf(vs[0], key) != {}
    ensures var s := Exec(Init(vs[0]), ReadAround(key, vs));
            && s.past == Versions(vs, 0)
            && s.readers == map[0 := Returned(key, Combine(vs[0], vs[|vs| - 1], key), 0, 0)]
  {
    var s0 := Init(vs[0]);
    var front, back := [Ask(0, key), CacheGet(0, true), FirstRead(0, true)], [SecondRead(0, true), CacheSet(0, true)];
    FirstHalf(key, vs[0]);
    var s1 := Exec(s0, front);
    ExecJoined(s0, front, Writes(vs[1..]));
    ExecWrites(s1, vs[1..]);
    assert s1.past + Versions(vs[1..], 0) == Versions(vs, 0);
    ExecJoined(s0, front + Writes(vs[1..]), back);
    SecondHalf(key, s1.(past := Versions(vs, 0)), RolesOf(vs[0], key));
  }

  /** The run that the staged content makes. */
  lemma TornBetween(w: seq<Kind>, key: CacheKey, a: nat, b: nat)
    requires key.UserPermissions? && a <= b < |w| && w[a].roles && w[b].grants
    ensures var vs := Stages(key, a, b, |w|);
            var s := Exec(Init(vs[0]), ReadAround(key, vs));
            && s.past == Versions(vs, 0)
            && 0 in s.readers && s.readers[0].Returned? && s.readers[0].key == key
                && s.readers[0].since == s.readers[0].at
            && forall m | 0 <= m < |s.past| :: s.readers[0].value != Direct(s.past[m].db, key)
  {
    HarmfulWindow(w, key, a, b);
    StagedAnswer(key, a, b, 0);
    ReadAroundReturns(key, Stages(key, a, b, |w|));
  }

  /** Every other window does harm: some run with exactly these kinds of writes between two reads at the same instant
    * returns permissions that no version of the database gives. */
  lemma HarmfulWindowsTear(w: seq<Kind>, key: CacheKey) returns (vs: seq<Db>)
    requires key.UserPermissions? && RolesThenGrants(w)
    ensures Follows(vs, w, key)
    ensures var s := Exec(Init(vs[0]), ReadAround(key, vs));
            && s.past == Versions(vs, 0)
            && 0 in s.readers && s.readers[0].Returned? && s.readers[0].key == key
                && s.readers[0].since == s.readers[0].at
            && forall m | 0 <= m < |s.past| :: s.readers[0].value != Direct(s.past[m].db, key)
  {
    var a, b :| 0 <= a <= b < |w| && w[a].roles && w[b].grants;
    vs := Stages(key, a, b, |w|);
    HarmfulWindow(w, key, a, b);
    TornBetween(w, key, a, b);
  }

  /** In particular a user who loses a role, and new permissions for that role a moment later: two separate writes of
    * the role endpoints, between the two reads, make a list that the database never held. */
  lemma TornRead() returns (db: Db, steps: seq<Step>)
    ensures var s := Exec(Init(db), steps);
            0 in s.readers && s.readers[0].Returned? && s.readers[0].key.UserPermissions? && |s.past| == 3
            && RolesOf(s.past[2].db, s.readers[0].key) == RolesOf(s.past[1].db, s.readers[0].key)
            && s.past[1].db.grants == s.past[0].db.grants
            && forall i | 0 <= i < |s.past| :: s.readers[0].value != Direct(s.past[i].db, s.readers[0].key)
  {
    var key := UserPermissions("t", "u");
    var vs := Stages(key, 0, 1, 2);
    db, steps := vs[0], ReadAround(key, vs);
    HarmfulWindow([Kind(true, false), Kind(false, true)], key, 0, 1);
    TornBetween([Kind(true, false), Kind(false, true)], key, 0, 1);
    StagedAnswer(key, 0, 1, 1);
    StagedAnswer(key, 0, 1, 2);
  }

  // ---- reports ----

  predicate Distinct(q: nat, r: nat, n: nat) {
    q < n && r < n && q != r
  }

  /** Two queries of the report whose answers some writes of the window may change. */
  predicate TwoChange(w: seq<set<nat>>, key: CacheKey) {
    exists a, b, q, r | 0 <= a <= b < |w| && q in w[a] && r in w[b] :: Distinct(q, r, Queries(key))
  }

  predicate AnswerStands(vs: seq<Db>, key: CacheKey, m: nat, query: nat)
    requires m + 1 < |vs|
  {
    AnswerTo(vs[m + 1], key, query) == AnswerTo(vs[m], key, query)
  }

  /** The database goes through vs by writes that change no more answers than w says. */
  ghost predicate ReportFollows(vs: seq<Db>, w: seq<set<nat>>, key: CacheKey) {
    |vs| == |w| + 1
    && forall m: nat, query: nat | m < |w| && query < Queries(key) && query !in w[m] :: AnswerStands(vs, key, m, query)
  }

  /** Which version answers which query. */
  predicate IsReading(ix: seq<nat>, vs: seq<Db>, key: CacheKey) {
    |ix| == Queries(key) && forall query | 0 <= query < |ix| :: ix[query] < |vs|
  }

  /** Version k would give every answer that was read. */
  predicate GivesAll(vs: seq<Db>, key: CacheKey, ix: seq<nat>, k: nat)
    requires IsReading(ix, vs, key)
  {
    k < |vs| && forall query | 0 <= query < |ix| :: AnswerTo(vs[ix[query]], key, query) == AnswerTo(vs[k], key, query)
  }

  ghost predicate ReportIsOneVersion(vs: seq<Db>, key: CacheKey, ix: seq<nat>)
    requires IsReading(ix, vs, key)
  {
    exists k: nat :: GivesAll(vs, key, ix, k)
  }

  lemma {:induction false} AnswerStandsThroughout(vs: seq<Db>, w: seq<set<nat>>, key: CacheKey, query: nat, k: nat)
    requires ReportFollows(vs, w, key) && query < Queries(key) && k < |vs| && forall m | 0 <= m < |w| :: query !in w[m]
    ensures AnswerTo(vs[k], key, query) == AnswerTo(vs[0], key, query)
    decreases k
  {
    if k > 0 {
      AnswerStandsThroughout(vs, w, key, query, k - 1);
      assert AnswerStands(vs, key, k - 1, query);
    }
  }

  /** With at most one query changing, the version that answered it answers for the whole report. */
  lemma HarmlessReportWindow(vs: seq<Db>, w: seq<set<nat>>, key: CacheKey, ix: seq<nat>) returns (k: nat)
    requires ReportFollows(vs, w, key) && !TwoChange(w, key) && IsReading(ix, vs, key)
    ensures GivesAll(vs, key, ix, k)
  {
    k := 0;
    var one: nat := Queries(key);
    if a, q: nat :| 0 <= a < |w| && q in w[a] && q < Queries(key) {
      k, one := ix[q], q;
      assert forall b, r: nat | 0 <= b < |w| && r in w[b] && r < Queries(key) :: r == q by {
        forall b, r: nat | 0 <= b < |w| && r in w[b] && r < Queries(key) ensures r == q {
          assert if a <= b then !Distinct(q, r, Queries(key)) else !Distinct(r, q, Queries(key));
        }
      }
    }
    forall query: nat | query < |ix| ensures AnswerTo(vs[ix[query]], key, query) == AnswerTo(vs[k], key, query) {
      if query != one {
        AnswerStandsThroughout(vs, w, key, query, ix[query]);
        AnswerStandsThroughout(vs, w, key, query, k);
      }
    }
  }

  /** Content whose answer to q changes in write a, and to r in write b. */
  function StagedAnswerTo(q: nat, r: nat, a: nat, b: nat, m: nat, query: nat): string {
    if query == q then if m <= a then "old" else "new"
    else if query == r then if m <= b then "old" else "new"
    else ""
  }

  function StagedReport(key: CacheKey, q: nat, r: nat, a: nat, b: nat, m: nat): (db: Db)
    ensures forall query: nat | query < Queries(key) :: AnswerTo(db, key, query) == StagedAnswerTo(q, r, a, b, m, query)
  {
    Db({}, {}, map[key := seq(Queries(key), query requires query >= 0 => StagedAnswerTo(q, r, a, b, m, query))])
  }

  function ReportStages(key: CacheKey, q: nat, r: nat, a: nat, b: nat, n: nat): (vs: seq<Db>)
    ensures |vs| == n + 1 && forall m | 0 <= m <= n :: vs[m] == StagedReport(key, q, r, a, b, m)
  {
    seq(n + 1, m requires 0 <= m <= n => StagedReport(key, q, r, a, b, m))
  }

  /** Query q is answered first, all others after the last write. */
  function FirstAndLast(q: nat, n: nat, total: nat): (ix: seq<nat>)
    ensures |ix| == total && forall query | 0 <= query < total :: ix[query] == if query == q then 0 else n
  {
    seq(total, query requires 0 <= query < total => if query == q then 0 else n)
  }

  lemma HarmfulReportWindow(w: seq<set<nat>>, key: CacheKey, q: nat, r: nat, a: nat, b: nat)
    requires a <= b < |w| && q in w[a] && r in w[b] && Distinct(q, r, Queries(key))
    ensures var vs, ix := ReportStages(key, q, r, a, b, |w|), FirstAndLast(q, |w|, Queries(key));
            ReportFollows(vs, w, key) && IsReading(ix, vs, key) && !ReportIsOneVersion(vs, key, ix)
  {
    var n, vs, ix := |w|, ReportStages(key, q, r, a, b, |w|), FirstAndLast(q, |w|, Queries(key));
    forall m: nat, query: nat | m < n && query < Queries(key) && query !in w[m]
        ensures AnswerStands(vs, key, m, query) {
      assert query == q ==> m != a;
      assert query == r ==> m != b;
    }
    forall k: nat | k < |vs| ensures !GivesAll(vs, key, ix, k) {
      assert "old"[0] != "new"[0];
      assert AnswerTo(vs[ix[q]], key, q) == "old" && AnswerTo(vs[ix[r]], key, r) == "new";
      assert AnswerTo(vs[k], key, q) == "old" ==> AnswerTo(vs[k], key, r) == "old";
    }
  }

  /** A window of writes is harmless to a report, whatever the database holds and in whatever order its queries run, if
    * and only if it changes the answer of at most one of them. */
  lemma ReportWindowIsHarmlessIff(w: seq<set<nat>>, key: CacheKey)
    ensures (forall vs, ix | ReportFollows(vs, w, key) && IsReading(ix, vs, key) :: ReportIsOneVersion(vs, key, ix))
            <==> !TwoChange(w, key)
  {
    if TwoChange(w, key) {
      var a, b, q, r :| 0 <= a <= b < |w| && q in w[a] && r in w[b] && Distinct(q, r, Queries(key));
      HarmfulReportWindow(w, key, q, r, a, b);
    } else {
      forall vs, ix | ReportFollows(vs, w, key) && IsReading(ix, vs, key) ensures ReportIsOneVersion(vs, key, ix) {
        var k := HarmlessReportWindow(vs, w, key, ix);
      }
    }
  }

  // ---- a run that tears a report ----

  /** The queries from m on, in order, without q. */
  function Rest(q: nat, m: nat, n: nat): seq<Step>
    decreases n - m
  {
    if m >= n then [] else (if m == q then [] else [QueryRead(0, m, true)]) + Rest(q, m + 1, n)
  }

  /** One report, with all the writes between query q and the others. */
  function ReportAround(key: CacheKey, q: nat, vs: seq<Db>): seq<Step>
    requires |vs| > 0
  {
    [Ask(0, key), CacheGet(0, true), FirstRead(0, true)] + [QueryRead(0, q, true)] + Writes(vs[1..])
    + (Rest(q, 0, Queries(key)) + [CacheSet(0, true)])
  }

  function MixedAnswer(first: Db, last: Db, key: CacheKey, q: nat, m: nat): string {
    if m == q then AnswerTo(first, key, m) else AnswerTo(last, key, m)
  }

  /** The answers to q, before the writes, and to the queries below n, after them. */
  function Mixed(first: Db, last: Db, key: CacheKey, q: nat, n: nat): map<nat, string>
    requires q < Queries(key) && n <= Queries(key)
  {
    map m: nat | m < Queries(key) && (m == q || m < n) :: MixedAnswer(first, last, key, q, m)
  }

  /** With q and the queries below m answered, none of n is left. */
  predicate Complete(q: nat, m: nat, n: nat) {
    m >= n || (m + 1 == n && q == m)
  }

  function After(key: CacheKey, first: Db, last: Db, q: nat, m: nat, at: int): Reader
    requires q < Queries(key) && m <= Queries(key)
  {
    var answers := Mixed(first, last, key, q, m);
    if Complete(q, m, Queries(key)) then Loaded(key, ReportData(answers), at) else Partway(key, answers, at)
  }

  lemma NextAnswer(s: State, key: CacheKey, first: Db, q: nat, m: nat)
    requires key.Analytics? && s.past != [] && q < Queries(key) && m < Queries(key) && m != q
    requires s.readers == map[0 := Partway(key, Mixed(first, Current(s), key, q, m), s.now)]
    ensures Apply(s, QueryRead(0, m, true)) == s.(readers := map[0 := After(key, first, Current(s), q, m + 1, s.now)])
  {
    var before, after := Mixed(first, Current(s), key, q, m), Mixed(first, Current(s), key, q, m + 1);
    assert before[m := AnswerTo(Current(s), key, m)] == after;
    if !Complete(q, m + 1, Queries(key)) {
      var open: nat := if m + 1 == q then m + 2 else m + 1;
      assert open < Queries(key) && open !in after;
    }
  }

  lemma RestUnfolds(s: State, q: nat, m: nat, n: nat)
    requires s.past != [] && m < n
    ensures m != q ==> Exec(s, Rest(q, m, n)) == Exec(Apply(s, QueryRead(0, m, true)), Rest(q, m + 1, n))
    ensures m == q ==> Exec(s, Rest(q, m, n)) == Exec(s, Rest(q, m + 1, n))
  {
    if m != q {
      StepThen(s, QueryRead(0, m, true), Rest(q, m + 1, n));
    } else {
      assert Rest(q, m, n) == Rest(q, m + 1, n);
    }
  }

  lemma {:induction false} NothingLeft(s: State, q: nat, m: nat, n: nat)
    requires s.past != [] && Complete(q, m, n)
    ensures Exec(s, Rest(q, m, n)) == s
    decreases n - m
  {
    if m < n {
      RestUnfolds(s, q, m, n);
      NothingLeft(s, q, m + 1, n);
    }
  }

  lemma RestSkips(s: State, key: CacheKey, first: Db, last: Db, q: nat, m: nat)
    requires key.Analytics? && s.past != [] && q < Queries(key) && m < Queries(key) && !Complete(q, m, Queries(key))
    requires Current(s) == last && s.readers == map[0 := Partway(key, Mixed(first, last, key, q, m), s.now)]
    ensures Exec(s, Rest(q, m, Queries(key)))
            == Exec(s.(readers := map[0 := After(key, first, last, q, m + 1, s.now)]), Rest(q, m + 1, Queries(key)))
  {
    RestUnfolds(s, q, m, Queries(key));
    if m == q {
      assert Mixed(first, last, key, q, m) == Mixed(first, last, key, q, m + 1);
      assert s.readers == map[0 := After(key, first, last, q, m + 1, s.now)];
    } else {
      NextAnswer(s, key, first, q, m);
    }
  }

  /** After one more query the report is complete, or the rest goes on. */
  lemma RestStep(s: State, key: CacheKey, first: Db, last: Db, q: nat, m: nat)
    requires key.Analytics? && s.past != [] && q < Queries(key) && m < Queries(key) && !Complete(q, m, Queries(key))
    requires Current(s) == last && s.readers == map[0 := Partway(key, Mixed(first, last, key, q, m), s.now)]
    ensures var n := Queries(key);
            Exec(s, Rest(q, m, n))
            == if Complete(q, m + 1, n)
                then s.(readers := map[0 := Loaded(key, ReportData(Mixed(first, last, key, q, n)), s.now)])
               else Exec(s.(readers := map[0 := Partway(key, Mixed(first, last, key, q, m + 1), s.now)]),
                   Rest(q, m + 1, n))
  {
    var n, t := Queries(key), s.(readers := map[0 := After(key, first, last, q, m + 1, s.now)]);
    RestSkips(s, key, first, last, q, m);
    if Complete(q, m + 1, n) {
      NothingLeft(t, q, m + 1, n);
      assert Mixed(first, last, key, q, m + 1) == Mixed(first, last, key, q, n);
    }
  }

  /** The report waits for the queries from m on. */
  predicate Asking(s: State, key: CacheKey, first: Db, last: Db, q: nat, m: nat) {
    && key.Analytics? && q < Queries(key) && m < Queries(key) && !Complete(q, m, Queries(key))
    && s.past != [] && Current(s) == last && s.readers == map[0 := Partway(key, Mixed(first, last, key, q, m), s.now)]
  }

  function Asked(s: State, key: CacheKey, first: Db, last: Db, q: nat, m: nat): State
    requires q < Queries(key) && m <= Queries(key)
  {
    s.(readers := map[0 := Partway(key, Mixed(first, last, key, q, m), s.now)])
  }

  lemma StillAsking(s: State, key: CacheKey, first: Db, last: Db, q: nat, m: nat)
    requires Asking(s, key, first, last, q, m) && !Complete(q, m + 1, Queries(key))
    ensures Asking(Asked(s, key, first, last, q, m + 1), key, first, last, q, m + 1)
  {
  }

  lemma {:induction false} RestAnswers(s: State, key: CacheKey, first: Db, last: Db, q: nat, m: nat)
    requires Asking(s, key, first, last, q, m)
    ensures Exec(s, Rest(q, m, Queries(key)))
            == s.(readers := map[0 := Loaded(key, ReportData(Mixed(first, last, key, q, Queries(key))), s.now)])
    decreases Queries(key) - m
  {
    if !Complete(q, m + 1, Queries(key)) {
      StillAsking(s, key, first, last, q, m);
      RestAnswers(Asked(s, key, first, last, q, m + 1), key, first, last, q, m + 1);
    }
    RestStep(s, key, first, last, q, m);
  }

  lemma SetReturns(s: State, key: CacheKey, value: Value)
    requires s.past != [] && s.readers == map[0 := Loaded(key, value, s.now)]
    ensures var t := Apply(s, CacheSet(0, true));
            t.past == s.past && t.readers == map[0 := Returned(key, value, s.now, s.now)]
  {
  }

  lemma SetAfter(s: State, steps: seq<Step>, key: CacheKey, value: Value)
    requires s.past != [] && Exec(s, steps) == s.(readers := map[0 := Loaded(key, value, s.now)])
    ensures var t := Exec(s, steps + [CacheSet(0, true)]);
            t.past == s.past && t.readers == map[0 := Returned(key, value, s.now, s.now)]
  {
    var u := s.(readers := map[0 := Loaded(key, value, s.now)]);
    ExecJoined(s, steps, [CacheSet(0, true)]);
    OneStep(u, CacheSet(0, true));
    SetReturns(u, key, value);
  }

  lemma FinishReport(s: State, key: CacheKey, first: Db, q: nat)
    requires key.Analytics? && s.past != [] && q < Queries(key)
    requires s.readers == map[0 := Partway(key, Mixed(first, Current(s), key, q, 0), s.now)]
    ensures var t := Exec(s, Rest(q, 0, Queries(key)) + [CacheSet(0, true)]);
            && t.past == s.past
            && t.readers
               == map[0 := Returned(key, ReportData(Mixed(first, Current(s), key, q, Queries(key))), s.now, s.now)]
  {
    RestAnswers(s, key, first, Current(s), q, 0);
    SetAfter(s, Rest(q, 0, Queries(key)), key, ReportData(Mixed(first, Current(s), key, q, Queries(key))));
  }

  lemma FirstQuery(key: CacheKey, db: Db, last: Db, q: nat)
    requires key.Analytics? && q < Queries(key)
    ensures Exec(Init(db), [Ask(0, key), CacheGet(0, true), FirstRead(0, true)] + [QueryRead(0, q, true)])
            == State(0, [Version(0, db)], map[], map[0 := Partway(key, Mixed(db, last, key, q, 0), 0)])
  {
    var front := [Ask(0, key), CacheGet(0, true), FirstRead(0, true)];
    ThreeSteps(Init(db), front[0], front[1], front[2]);
    var s := State(0, [Version(0, db)], map[], map[0 := Partway(key, map[], 0)]);
    assert Exec(Init(db), front) == s;
    ExecJoined(Init(db), front, [QueryRead(0, q, true)]);
    OneStep(s, QueryRead(0, q, true));
    var one: map<nat, string> := map[q := AnswerTo(db, key, q)];
    assert one == Mixed(db, last, key, q, 0);
    var other: nat := if q == 0 then 1 else 0;
    assert other < Queries(key) && other !in one;
    assert QueryStep(s, 0, s.readers[0], q, true) == s.(readers := map[0 := Partway(key, one, 0)]);
  }

  lemma ReportAroundReturns(key: CacheKey, q: nat, vs: seq<Db>)
    requires key.Analytics? && |vs| > 0 && q < Queries(key)
    ensures var s := Exec(Init(vs[0]), ReportAround(key, q, vs));
            && s.past == Versions(vs, 0)
            && s.readers == map[0 := Returned(key, ReportData(Mixed(vs[0], vs[|vs| - 1], key, q, Queries(key))), 0, 0)]
  {
    var s0, last := Init(vs[0]), vs[|vs| - 1];
    var front := [Ask(0, key), CacheGet(0, true), FirstRead(0, true)] + [QueryRead(0, q, true)];
    FirstQuery(key, vs[0], last, q);
    var s1 := Exec(s0, front);
    ExecJoined(s0, front, Writes(vs[1..]));
    ExecWrites(s1, vs[1..]);
    assert s1.past + Versions(vs[1..], 0) == Versions(vs, 0);
    ExecJoined(s0, front + Writes(vs[1..]), Rest(q, 0, Queries(key)) + [CacheSet(0, true)]);
    FinishReport(s1.(past := Versions(vs, 0)), key, vs[0], q);
  }

  lemma MixedIsNotGiven(vs: seq<Db>, key: CacheKey, q: nat, m: nat)
    requires m < |vs| && q < Queries(key)
    requires var ix := FirstAndLast(q, |vs| - 1, Queries(key)); IsReading(ix, vs, key) && !GivesAll(vs, key, ix, m)
    ensures Mixed(vs[0], vs[|vs| - 1], key, q, Queries(key)) != Answers(vs[m], key)
  {
    var n, ix := |vs| - 1, FirstAndLast(q, |vs| - 1, Queries(key));
    var mixed := Mixed(vs[0], vs[n], key, q, Queries(key));
    var query :| 0 <= query < |ix| && AnswerTo(vs[ix[query]], key, query) != AnswerTo(vs[m], key, query);
    assert mixed[query] == MixedAnswer(vs[0], vs[n], key, q, query) == AnswerTo(vs[ix[query]], key, query);
    assert Answers(vs[m], key)[query] == AnswerTo(vs[m], key, query);
  }

  lemma MixedIsNeverGiven(vs: seq<Db>, key: CacheKey, q: nat)
    requires |vs| > 0 && q < Queries(key)
    requires var ix := FirstAndLast(q, |vs| - 1, Queries(key));
             IsReading(ix, vs, key) && !ReportIsOneVersion(vs, key, ix)
    ensures forall m: nat | m < |vs| :: Mixed(vs[0], vs[|vs| - 1], key, q, Queries(key)) != Answers(vs[m], key)
  {
    forall m: nat | m < |vs| ensures Mixed(vs[0], vs[|vs| - 1], key, q, Queries(key)) != Answers(vs[m], key) {
      assert !GivesAll(vs, key, FirstAndLast(q, |vs| - 1, Queries(key)), m);
      MixedIsNotGiven(vs, key, q, m);
    }
  }

  /** Every harmful window tears a report in some run with exactly these changes between two of its queries, all at the
    * same instant: no version of the database gives what is returned. */
  lemma HarmfulWindowsTearReports(w: seq<set<nat>>, key: CacheKey) returns (vs: seq<Db>, q: nat)
    requires key.Analytics? && TwoChange(w, key)
    ensures ReportFollows(vs, w, key)
    ensures var s := Exec(Init(vs[0]), ReportAround(key, q, vs));
            && s.past == Versions(vs, 0)
            && 0 in s.readers && s.readers[0].Returned? && s.readers[0].key == key
                && s.readers[0].since == s.readers[0].at
            && forall m | 0 <= m < |s.past| :: s.readers[0].value != Direct(s.past[m].db, key)
  {
    var a, b, r;
    a, b, q, r :| 0 <= a <= b < |w| && q in w[a] && r in w[b] && Distinct(q, r, Queries(key));
    vs := ReportStages(key, q, r, a, b, |w|);
    HarmfulReportWindow(w, key, q, r, a, b);
    MixedIsNeverGiven(vs, key, q);
    ReportAroundReturns(key, q, vs);
  }
}
