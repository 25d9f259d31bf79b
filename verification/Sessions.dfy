/** Browser sessions and step-up (`auth.py`): the in-memory table, its copy on disk, and the
    two ways of earning a bounded elevation. `now` is the clock reading of one call. */
module Sessions {
  import opened PyText

  const MAX_AGE := 86400.0
  const STEP_UP_SECONDS := 300.0

  /** A session as it is stored. */
  datatype Row = Row(id: string, principalId: string, createdAt: real, lastActive: real,
                     stepUpUntil: Option<real>, stepUpPrincipal: Option<string>, authMethod: string)
  {
    predicate IsValid(now: real) { now - lastActive < MAX_AGE }

    predicate HasStepUp(principal: Option<string>, now: real) {
      && stepUpUntil.Some? && now < stepUpUntil.value
      && (principal.Some? ==> stepUpPrincipal == principal)
    }
  }

  type Table = map<string, Row>

  /** The table in memory and the table on disk. */
  datatype State = State(memory: Table, disk: Table)

  const EMPTY := State(map[], map[])

  // ---- operations on the state ----

  function Saved(memory: Table): State { State(memory, memory) }

  function NewRow(id: string, principal: string, authMethod: string, now: real): Row {
    Row(id, principal, now, now, None, None, authMethod)
  }

  function Created(st: State, id: string, principal: string, authMethod: string, now: real): State {
    Saved(st.memory[id := NewRow(id, principal, authMethod, now)])
  }

  /** The session if it is valid, touched in memory only; an expired one is dropped and the drop saved. */
  function Got(st: State, id: string, now: real): (Option<Row>, State) {
    if id !in st.memory then (None, st)
    else if st.memory[id].IsValid(now) then
      var row := st.memory[id].(lastActive := now);
      (Some(row), st.(memory := st.memory[id := row]))
    else (None, Saved(st.memory - {id}))
  }

  function Invalidated(st: State, id: string): State { Saved(st.memory - {id}) }

  function Granted(st: State, id: string, principal: Option<string>, duration: real, now: real): (Option<Row>, State) {
    var got := Got(st, id, now);
    if got.0.None? || (principal.Some? && got.0.value.principalId != principal.value) then (None, got.1)
    else
      var row := got.0.value.(stepUpUntil := Some(now + duration), stepUpPrincipal := Some(got.0.value.principalId));
      (Some(row), Saved(got.1.memory[id := row]))
  }

  /** A step-up by credential; `resolved` is the principal the credential belongs to, if any. */
  function SteppedUp(st: State, id: string, resolved: Option<string>, now: real): (Option<Row>, State) {
    var got := Got(st, id, now);
    if got.0.None? || resolved != Some(got.0.value.principalId) then (None, got.1)
    else Granted(got.1, id, Some(got.0.value.principalId), STEP_UP_SECONDS, now)
  }

  predicate FreshSignIn(authTime: Option<real>, now: real) {
    authTime.Some? && now - 120.0 <= authTime.value <= now + 30.0
  }

  /** A step-up by a fresh provider sign-in of the verified subject `sub`. */
  function SteppedUpByProvider(st: State, id: string, sub: string, resolved: Option<string>,
                               authTime: Option<real>, now: real): (Option<Row>, State) {
    var got := Got(st, id, now);
    if got.0.None? || sub == "" || !FreshSignIn(authTime, now) || resolved != Some(got.0.value.principalId)
    then (None, got.1)
    else Granted(got.1, id, Some(got.0.value.principalId), STEP_UP_SECONDS, now)
  }

  /** A new process reads the table from disk. */
  function Restarted(st: State): State { State(st.disk, st.disk) }

  // ---- the store ----

  class Session {
    var id: string
    var principalId: string
    var createdAt: real
    var lastActive: real
    var stepUpUntil: Option<real>
    var stepUpPrincipal: Option<string>
    var authMethod: string

    constructor (row: Row)
      ensures Stored() == row
    {
      id, principalId, createdAt, lastActive := row.id, row.principalId, row.createdAt, row.lastActive;
      stepUpUntil, stepUpPrincipal, authMethod := row.stepUpUntil, row.stepUpPrincipal, row.authMethod;
    }

    function Stored(): Row
      reads this
    {
      Row(id, principalId, createdAt, lastActive, stepUpUntil, stepUpPrincipal, authMethod)
    }

    method Touch(now: real)
      modifies this
      ensures Stored() == old(Stored()).(lastActive := now)
    {
      lastActive := now;
    }
  }

  class SessionStore {
    var sessions: map<string, Session>
    var disk: Table

    /** No two ids share a session object. */
    predicate Valid()
      reads this
    {
      forall a, b :: a in sessions && b in sessions && a != b ==> sessions[a] != sessions[b]
    }

    function Rows(): Table
      reads this, sessions.Values
    {
      map id | id in sessions :: sessions[id].Stored()
    }

    function Whole(): State
      reads this, sessions.Values
    {
      State(Rows(), disk)
    }

    constructor ()
      ensures Valid() && Whole() == EMPTY
    {
      sessions, disk := map[], map[];
    }

    method Save()
      modifies this`disk
      ensures disk == Rows()
    {
      disk := Rows();
    }

    method Create(principal: string, authMethod: string, now: real, id: string) returns (session: Session)
      requires Valid()
      modifies this
      ensures Valid() && fresh(session) && Whole() == Created(old(Whole()), id, principal, authMethod, now)
      ensures id in sessions && sessions[id] == session
    {
      session := new Session(NewRow(id, principal, authMethod, now));
      sessions := sessions[id := session];
      assert Rows() == old(Rows())[id := session.Stored()];
      Save();
    }

    method Get(id: string, now: real) returns (session: Session?)
      requires Valid()
      modifies this, sessions.Values
      ensures Valid() && (forall s :: s in sessions.Values ==> s in old(sessions.Values))
      ensures var r := Got(old(Whole()), id, now);
              Whole() == r.1 && (session == null <==> r.0.None?)
      ensures session != null ==> id in sessions && sessions[id] == session
    {
      if id in sessions {
        session := sessions[id];
        if session.Stored().IsValid(now) {
          session.Touch(now);
          assert Rows() == old(Rows())[id := session.Stored()];
          return;
        }
        sessions := sessions - {id};
        assert Rows() == old(Rows()) - {id};
        Save();
      }
      return null;
    }

    method Invalidate(id: string)
      requires Valid()
      modifies this
      ensures Valid() && Whole() == Invalidated(old(Whole()), id)
    {
      sessions := sessions - {id};
      assert Rows() == old(Rows()) - {id};
      Save();
    }

    method GrantStepUp(id: string, principal: Option<string>, duration: real, now: real) returns (session: Session?)
      requires Valid()
      modifies this, sessions.Values
      ensures Valid() && (forall s :: s in sessions.Values ==> s in old(sessions.Values))
      ensures var r := Granted(old(Whole()), id, principal, duration, now);
              Whole() == r.1 && (session == null <==> r.0.None?)
      ensures session != null ==> id in sessions && sessions[id] == session
    {
      ghost var got := Got(Whole(), id, now);
      session := Get(id, now);
      if session == null {
        return null;
      }
      assert session.Stored() == got.1.memory[id] == got.0.value;
      if principal.Some? && session.principalId != principal.value {
        return null;
      }
      Elevate(id, now + duration);
    }

    method Elevate(id: string, until: real)
      requires Valid() && id in sessions
      modifies this`disk, sessions[id]
      ensures Valid() && sessions == old(sessions)
      ensures var row := old(Rows())[id];
              Rows() == old(Rows())[id := row.(stepUpUntil := Some(until), stepUpPrincipal := Some(row.principalId))]
      ensures disk == Rows()
    {
      var session := sessions[id];
      session.stepUpUntil := Some(until);
      session.stepUpPrincipal := Some(session.principalId);
      assert Rows() == old(Rows())[id := session.Stored()];
      Save();
    }

    /** `_load` in a new process: fresh objects for the rows on disk. */
    method Load()
      requires Valid()
      modifies this`sessions
      ensures Valid() && fresh(sessions.Values) && Whole() == Restarted(old(Whole()))
    {
      sessions := map[];
      var todo := disk.Keys;
      while todo != {}
        invariant todo <= disk.Keys && sessions.Keys == disk.Keys - todo
        invariant Valid() && fresh(sessions.Values)
        invariant forall id :: id in sessions ==> sessions[id].Stored() == disk[id]
      {
        var id :| id in todo;
        var session := new Session(disk[id]);
        ghost var before := sessions.Values;
        sessions := sessions[id := session];
        assert sessions.Values <= before + {session};
        todo := todo - {id};
      }
      assert Rows() == disk;
    }

    method RequestStepUp(id: string, resolved: Option<string>, now: real) returns (session: Session?)
      requires Valid()
      modifies this, sessions.Values
      ensures Valid()
      ensures var r := SteppedUp(old(Whole()), id, resolved, now);
              Whole() == r.1 && (session == null <==> r.0.None?)
      ensures session != null ==> id in sessions && sessions[id] == session
    {
      session := Get(id, now);
      if session == null {
        return null;
      }
      assert Whole().memory[id] == session.Stored();
      if resolved != Some(session.principalId) {
        return null;
      }
      session := GrantStepUp(id, Some(session.principalId), STEP_UP_SECONDS, now);
    }

    method GrantOidcStepUp(id: string, sub: string, resolved: Option<string>, authTime: Option<real>, now: real)
      returns (session: Session?)
      requires Valid()
      modifies this, sessions.Values
      ensures Valid()
      ensures var r := SteppedUpByProvider(old(Whole()), id, sub, resolved, authTime, now);
              Whole() == r.1 && (session == null <==> r.0.None?)
      ensures session != null ==> id in sessions && sessions[id] == session
    {
      session := Get(id, now);
      if session == null || sub == "" {
        return null;
      }
      assert Whole().memory[id] == session.Stored();
      if authTime.None? || !(now - 120.0 <= authTime.value <= now + 30.0) {
        return null;
      }
      if resolved.None? {
        return null;
      }
      if resolved.value != session.principalId {
        return null;
      }
      session := GrantStepUp(id, Some(session.principalId), STEP_UP_SECONDS, now);
    }
  }

  // ---- whole runs ----

  datatype Op =
    | Login(id: string, principal: string, authMethod: string)
    | Use(id: string)
    | Logout(id: string)
    | StepUp(id: string, resolved: Option<string>)
    | ProviderStepUp(id: string, sub: string, resolved: Option<string>, authTime: Option<real>)
    | Restart

  datatype Call = Call(op: Op, now: real)

  function Step(st: State, call: Call): State {
    match call.op
    case Login(id, principal, authMethod) => Created(st, id, principal, authMethod, call.now)
    case Use(id) => Got(st, id, call.now).1
    case Logout(id) => Invalidated(st, id)
    case StepUp(id, resolved) => SteppedUp(st, id, resolved, call.now).1
    case ProviderStepUp(id, sub, resolved, authTime) => SteppedUpByProvider(st, id, sub, resolved, authTime, call.now).1
    case Restart => Restarted(st)
  }

  function Run(calls: seq<Call>): State {
    if calls == [] then EMPTY else Step(Run(calls[..|calls| - 1]), calls[|calls| - 1])
  }

  predicate Clocked(calls: seq<Call>) { forall i, j :: 0 <= i < j < |calls| ==> calls[i].now <= calls[j].now }

  /** The two rows agree on everything but how recently the session was used. */
  predicate Lags(disk: Row, memory: Row) {
    disk == memory.(lastActive := disk.lastActive) && disk.lastActive <= memory.lastActive
  }

  /** The disk holds the same sessions; only `lastActive` may be behind. */
  ghost predicate InStep(st: State) {
    && st.memory.Keys == st.disk.Keys
    && forall id :: id in st.memory ==> Lags(st.disk[id], st.memory[id])
  }

  ghost predicate UsedBy(st: State, now: real) {
    forall id :: id in st.memory ==> st.memory[id].lastActive <= now
  }

  lemma StepKeepsInStep(st: State, call: Call)
    requires InStep(st) && UsedBy(st, call.now)
    ensures InStep(Step(st, call)) && UsedBy(Step(st, call), call.now)
  {
    match call.op
    case Login(id, principal, authMethod) =>
    case Use(id) =>
    case Logout(id) =>
    case StepUp(id, resolved) =>
    case ProviderStepUp(id, sub, resolved, authTime) =>
    case Restart =>
  }

  /** In every run the disk copy equals the table in memory, but for `lastActive`. */
  lemma {:induction false} DiskKeepsUp(calls: seq<Call>)
    requires Clocked(calls)
    ensures InStep(Run(calls))
    ensures calls != [] ==> UsedBy(Run(calls), calls[|calls| - 1].now)
  {
    if calls != [] {
      var before, call := calls[..|calls| - 1], calls[|calls| - 1];
      DiskKeepsUp(before);
      assert UsedBy(Run(before), call.now);
      StepKeepsInStep(Run(before), call);
    }
  }

  /** A restart makes no session valid that was not, and changes no session's principal or elevation. */
  lemma RestartOnlyForgets(calls: seq<Call>, id: string, now: real)
    requires Clocked(calls) && id in Restarted(Run(calls)).memory
    ensures id in Run(calls).memory
    ensures var before, after := Run(calls).memory[id], Restarted(Run(calls)).memory[id];
            && (after.IsValid(now) ==> before.IsValid(now))
            && (Got(Restarted(Run(calls)), id, now).0.Some? ==> Got(Run(calls), id, now).0.Some?)
            && after.principalId == before.principalId
            && forall p, t :: after.HasStepUp(p, t) == before.HasStepUp(p, t)
  {
    DiskKeepsUp(calls);
  }

  /** The call verifies, for a live session of `principal`, a credential or a fresh sign-in
      of that same principal. */
  predicate Verifies(st: State, call: Call, id: string, principal: string) {
    && id in st.memory && call.now - st.memory[id].lastActive < 86400.0 && st.memory[id].principalId == principal
    && match call.op
       case StepUp(i, resolved) => i == id && resolved == Some(principal)
       case ProviderStepUp(i, sub, resolved, authTime) =>
         && i == id && sub != "" && resolved == Some(principal)
         && authTime.Some? && call.now - 120.0 <= authTime.value <= call.now + 30.0
       case _ => false
  }

  ghost predicate Elevates(calls: seq<Call>, k: nat, id: string, principal: string) {
    k < |calls| && Verifies(Run(calls[..k]), calls[k], id, principal)
  }

  /** Where a row after a step comes from, as far as its elevation goes. */
  lemma StepCases(st: State, call: Call, id: string)
    requires id in Step(st, call).memory
    ensures var row := Step(st, call).memory[id];
            || row.stepUpUntil == None
            || (call.op.Restart? && id in st.disk && row == st.disk[id])
            || (id in st.memory && row == st.memory[id].(lastActive := row.lastActive))
            || (Verifies(st, call, id, row.principalId)
                && row.stepUpUntil == Some(call.now + 300.0) && row.stepUpPrincipal == Some(row.principalId))
  {
    match call.op
    case Login(i, principal, authMethod) =>
    case Use(i) =>
    case Logout(i) =>
    case StepUp(i, resolved) =>
    case ProviderStepUp(i, sub, resolved, authTime) =>
    case Restart =>
  }

  /** Whatever elevation the row carries was earned by its own principal at call `k`. */
  ghost predicate Earned(calls: seq<Call>, id: string, row: Row) {
    row.stepUpUntil.Some? ==>
      && row.stepUpPrincipal == Some(row.principalId)
      && exists k: nat ::
           Elevates(calls, k, id, row.principalId) && row.stepUpUntil.value == calls[k].now + 300.0
  }

  lemma EarnedStays(calls: seq<Call>, call: Call, id: string, row: Row)
    requires Earned(calls, id, row)
    ensures Earned(calls + [call], id, row)
  {
    if row.stepUpUntil.Some? {
      var k: nat :| Elevates(calls, k, id, row.principalId) && row.stepUpUntil.value == calls[k].now + 300.0;
      assert (calls + [call])[..k] == calls[..k];
      assert Elevates(calls + [call], k, id, row.principalId);
    }
  }

  lemma StepEarns(before: seq<Call>, call: Call, st: State, id: string)
    requires st == Run(before)
    requires forall i :: i in st.memory ==> Earned(before, i, st.memory[i])
    requires forall i :: i in st.disk ==> Earned(before, i, st.disk[i])
    requires id in Step(st, call).memory
    ensures Earned(before + [call], id, Step(st, call).memory[id])
  {
    var row, calls := Step(st, call).memory[id], before + [call];
    StepCases(st, call, id);
    if row.stepUpUntil == None {
    } else if id in st.disk && row == st.disk[id] {
      EarnedStays(before, call, id, row);
    } else if id in st.memory && row == st.memory[id].(lastActive := row.lastActive) {
      EarnedStays(before, call, id, st.memory[id]);
    } else {
      assert calls[..|before|] == before && calls[|before|] == call;
      assert Elevates(calls, |before|, id, row.principalId);
    }
  }

  lemma StepDisk(st: State, call: Call)
    ensures Step(st, call).disk == st.disk || Step(st, call).disk == Step(st, call).memory
  {
  }

  lemma {:induction false} AllEarned(calls: seq<Call>)
    ensures forall id :: id in Run(calls).memory ==> Earned(calls, id, Run(calls).memory[id])
    ensures forall id :: id in Run(calls).disk ==> Earned(calls, id, Run(calls).disk[id])
  {
    if calls != [] {
      var before, call := calls[..|calls| - 1], calls[|calls| - 1];
      assert calls == before + [call];
      AllEarned(before);
      var st := Run(before);
      var after := Step(st, call);
      StepDisk(st, call);
      forall id | id in after.memory ensures Earned(calls, id, after.memory[id]) {
        StepEarns(before, call, st, id);
      }
      forall id | id in after.disk ensures Earned(calls, id, after.disk[id]) {
        if after.disk == st.disk { EarnedStays(before, call, id, st.disk[id]); }
      }
    }
  }

  /** In every run, a live elevation of a session was earned on that session, by its own
      principal, less than 300 seconds before. */
  lemma ElevationHasCause(calls: seq<Call>, id: string, principal: Option<string>, now: real)
    requires Clocked(calls) && (calls != [] ==> calls[|calls| - 1].now <= now)
    requires id in Run(calls).memory && Run(calls).memory[id].HasStepUp(principal, now)
    ensures var owner := Run(calls).memory[id].principalId;
            && (principal.Some? ==> principal.value == owner)
            && exists k: nat :: Elevates(calls, k, id, owner) && calls[k].now <= now < calls[k].now + 300.0
  {
    AllEarned(calls);
    assert Earned(calls, id, Run(calls).memory[id]);
  }

  lemma StepAddsOnlyLogins(st: State, call: Call, id: string)
    requires id !in st.memory && id !in st.disk && !(call.op.Login? && call.op.id == id)
    ensures id !in Step(st, call).memory && id !in Step(st, call).disk
  {
  }

  /** A logged-out or dropped session stays gone, restarts or not, until its id is issued again. */
  lemma {:induction false} GoneStaysGone(calls: seq<Call>, k: nat, id: string)
    requires k <= |calls|
    requires id !in Run(calls[..k]).memory && id !in Run(calls[..k]).disk
    requires forall i :: k <= i < |calls| ==> !(calls[i].op.Login? && calls[i].op.id == id)
    ensures id !in Run(calls).memory && id !in Run(calls).disk
  {
    if k == |calls| {
      assert calls[..k] == calls;
    } else {
      var before := calls[..|calls| - 1];
      assert before[..k] == calls[..k];
      GoneStaysGone(before, k, id);
      StepAddsOnlyLogins(Run(before), calls[|calls| - 1], id);
    }
  }

  // ---- how long a session lasts ----

  /** The call looks the session up. */
  predicate LooksUp(call: Call, id: string) {
    match call.op
    case Use(i) => i == id
    case StepUp(i, _) => i == id
    case ProviderStepUp(i, _, _, _) => i == id
    case _ => false
  }

  predicate Issues(call: Call, id: string) { call.op.Login? && call.op.id == id }

  /** Call `k` looks the session up and finds it live. */
  ghost predicate Finds(calls: seq<Call>, k: nat, id: string) {
    k < |calls| && LooksUp(calls[k], id) && Got(Run(calls[..k]), id, calls[k].now).0.Some?
  }

  /** Call `g` issues the session, or finds it live. */
  ghost predicate Renews(calls: seq<Call>, g: nat, id: string) {
    g < |calls| && (Issues(calls[g], id) || Finds(calls, g, id))
  }

  /** The row was last active when some call renewed the session. */
  ghost predicate Dated(calls: seq<Call>, id: string, row: Row) {
    exists g: nat :: Renews(calls, g, id) && row.lastActive == calls[g].now
  }

  lemma RenewsStays(calls: seq<Call>, call: Call, g: nat, id: string)
    requires Renews(calls, g, id)
    ensures Renews(calls + [call], g, id) && (calls + [call])[g] == calls[g]
  {
    assert (calls + [call])[..g] == calls[..g];
  }

  lemma DatedStays(calls: seq<Call>, call: Call, id: string, row: Row)
    requires Dated(calls, id, row)
    ensures Dated(calls + [call], id, row)
  {
    var g: nat :| Renews(calls, g, id) && row.lastActive == calls[g].now;
    RenewsStays(calls, call, g, id);
  }

  /** Where a row after a step comes from, as far as its last use goes. */
  lemma StepDates(st: State, call: Call, id: string)
    requires id in Step(st, call).memory
    ensures var row := Step(st, call).memory[id];
            || (id in st.memory && row.lastActive == st.memory[id].lastActive)
            || (id in st.disk && row.lastActive == st.disk[id].lastActive)
            || (row.lastActive == call.now
                && (Issues(call, id) || (LooksUp(call, id) && Got(st, id, call.now).0.Some?)))
  {
  }

  lemma StepKeepsDated(before: seq<Call>, call: Call, st: State, id: string)
    requires st == Run(before) && id in Step(st, call).memory
    requires forall i :: i in st.memory ==> Dated(before, i, st.memory[i])
    requires forall i :: i in st.disk ==> Dated(before, i, st.disk[i])
    ensures Dated(before + [call], id, Step(st, call).memory[id])
  {
    var row, calls := Step(st, call).memory[id], before + [call];
    StepDates(st, call, id);
    if id in st.memory && row.lastActive == st.memory[id].lastActive {
      DatedStays(before, call, id, st.memory[id]);
    } else if id in st.disk && row.lastActive == st.disk[id].lastActive {
      DatedStays(before, call, id, st.disk[id]);
    } else {
      assert calls[..|before|] == before && calls[|before|] == call;
      assert Renews(calls, |before|, id);
    }
  }

  lemma {:induction false} AllDated(calls: seq<Call>)
    ensures forall id :: id in Run(calls).memory ==> Dated(calls, id, Run(calls).memory[id])
    ensures forall id :: id in Run(calls).disk ==> Dated(calls, id, Run(calls).disk[id])
  {
    if calls != [] {
      var before, call := calls[..|calls| - 1], calls[|calls| - 1];
      assert calls == before + [call];
      AllDated(before);
      var st := Run(before);
      var after := Step(st, call);
      StepDisk(st, call);
      forall id | id in after.memory ensures Dated(calls, id, after.memory[id]) {
        StepKeepsDated(before, call, st, id);
      }
      forall id | id in after.disk ensures Dated(calls, id, after.disk[id]) {
        if after.disk == st.disk { DatedStays(before, call, id, st.disk[id]); }
      }
    }
  }

  /** In every run, a session found live was issued, or last found live, less than a day before. */
  lemma FoundWithinADay(calls: seq<Call>, k: nat, id: string)
    requires Clocked(calls) && Finds(calls, k, id)
    ensures exists g: nat :: g < k && Renews(calls, g, id) && calls[g].now <= calls[k].now < calls[g].now + 86400.0
  {
    var before := calls[..k];
    AllDated(before);
    var g: nat :| Renews(before, g, id) && Run(before).memory[id].lastActive == before[g].now;
    assert calls[..g] == before[..g];
    assert Renews(calls, g, id);
  }

  /** Nothing from `g` on ends or restarts. */
  predicate Undisturbed(calls: seq<Call>, g: nat, k: nat, id: string) {
    forall j :: g < j < k && j < |calls| ==> !calls[j].op.Restart? && calls[j].op != Logout(id)
  }

  lemma RenewedRow(calls: seq<Call>, g: nat, id: string)
    requires Renews(calls, g, id)
    ensures var st := Run(calls[..g + 1]); id in st.memory && st.memory[id].lastActive == calls[g].now
  {
    assert calls[..g + 1][..g] == calls[..g];
  }

  lemma StepKeepsLive(st: State, call: Call, id: string, since: real)
    requires id in st.memory && since <= st.memory[id].lastActive <= call.now < since + 86400.0
    requires !call.op.Restart? && call.op != Logout(id)
    ensures id in Step(st, call).memory && since <= Step(st, call).memory[id].lastActive <= call.now
    ensures LooksUp(call, id) ==> Got(st, id, call.now).0.Some?
  {
  }

  lemma {:induction false} StaysLive(calls: seq<Call>, g: nat, m: nat, id: string, now: real)
    requires Clocked(calls) && Renews(calls, g, id) && g < m <= |calls| && Undisturbed(calls, g, m, id)
    requires forall j :: g <= j < m ==> calls[j].now <= now
    requires now < calls[g].now + 86400.0
    ensures var st := Run(calls[..m]);
            id in st.memory && calls[g].now <= st.memory[id].lastActive <= calls[m - 1].now
  {
    if m == g + 1 {
      RenewedRow(calls, g, id);
    } else {
      StaysLive(calls, g, m - 1, id, now);
      assert calls[..m][..m - 1] == calls[..m - 1];
      StepKeepsLive(Run(calls[..m - 1]), calls[m - 1], id, calls[g].now);
    }
  }

  /** A session that was issued, or found live, is found by every look-up within a day of that,
      unless it is logged out or the process starts again in between. */
  lemma LiveForADay(calls: seq<Call>, g: nat, k: nat, id: string)
    requires Clocked(calls) && Renews(calls, g, id) && g < k < |calls| && Undisturbed(calls, g, k, id)
    requires LooksUp(calls[k], id) && calls[k].now < calls[g].now + 86400.0
    ensures Finds(calls, k, id)
  {
    StaysLive(calls, g, k, id, calls[k].now);
  }

  /** A plain look-up writes to disk only when it drops a session; one that finds nothing leaves
      the id neither in memory nor on disk. */
  lemma LookUpWrites(calls: seq<Call>, k: nat, id: string)
    requires Clocked(calls) && k < |calls| && LooksUp(calls[k], id)
    ensures calls[k].op.Use? && Finds(calls, k, id) ==> Run(calls[..k + 1]).disk == Run(calls[..k]).disk
    ensures !Finds(calls, k, id) ==> id !in Run(calls[..k + 1]).memory && id !in Run(calls[..k + 1]).disk
  {
    assert calls[..k + 1][..k] == calls[..k];
    DiskKeepsUp(calls[..k]);
  }

  // ---- whose session it is ----

  /** Some call issued the session to the row's principal, by its method of signing in. */
  ghost predicate Issued(calls: seq<Call>, id: string, row: Row) {
    exists g: nat :: g < |calls| && calls[g] == Call(Login(id, row.principalId, row.authMethod), row.createdAt)
  }

  lemma IssuedStays(calls: seq<Call>, call: Call, id: string, row: Row)
    requires Issued(calls, id, row)
    ensures Issued(calls + [call], id, row)
  {
    var g: nat :| g < |calls| && calls[g] == Call(Login(id, row.principalId, row.authMethod), row.createdAt);
    assert (calls + [call])[g] == calls[g];
  }

  predicate SameIssue(a: Row, b: Row) {
    a.id == b.id && a.principalId == b.principalId && a.authMethod == b.authMethod && a.createdAt == b.createdAt
  }

  lemma StepIssues(st: State, call: Call, id: string)
    requires id in Step(st, call).memory
    ensures var row := Step(st, call).memory[id];
            || (id in st.memory && SameIssue(row, st.memory[id]))
            || (id in st.disk && SameIssue(row, st.disk[id]))
            || (row.id == id && call == Call(Login(id, row.principalId, row.authMethod), row.createdAt))
  {
    match call.op
    case Login(i, principal, authMethod) =>
    case Use(i) =>
    case Logout(i) =>
    case StepUp(i, resolved) =>
    case ProviderStepUp(i, sub, resolved, authTime) =>
    case Restart =>
  }

  /** In every run, each session belongs to the principal it was issued to. */
  lemma {:induction false} SessionsAreIssued(calls: seq<Call>)
    ensures forall id :: id in Run(calls).memory ==>
              Run(calls).memory[id].id == id && Issued(calls, id, Run(calls).memory[id])
    ensures forall id :: id in Run(calls).disk ==>
              Run(calls).disk[id].id == id && Issued(calls, id, Run(calls).disk[id])
  {
    if calls != [] {
      var before, call := calls[..|calls| - 1], calls[|calls| - 1];
      assert calls == before + [call];
      SessionsAreIssued(before);
      var st := Run(before);
      var after := Step(st, call);
      StepDisk(st, call);
      forall id | id in after.memory ensures after.memory[id].id == id && Issued(calls, id, after.memory[id]) {
        StepKeepsIssued(before, call, st, id);
      }
      forall id | id in after.disk ensures after.disk[id].id == id && Issued(calls, id, after.disk[id]) {
        if after.disk == st.disk { IssuedStays(before, call, id, st.disk[id]); }
      }
    }
  }

  lemma StepKeepsIssued(before: seq<Call>, call: Call, st: State, id: string)
    requires st == Run(before) && id in Step(st, call).memory
    requires forall i :: i in st.memory ==> st.memory[i].id == i && Issued(before, i, st.memory[i])
    requires forall i :: i in st.disk ==> st.disk[i].id == i && Issued(before, i, st.disk[i])
    ensures Step(st, call).memory[id].id == id && Issued(before + [call], id, Step(st, call).memory[id])
  {
    var row, calls := Step(st, call).memory[id], before + [call];
    StepIssues(st, call, id);
    if id in st.memory && SameIssue(row, st.memory[id]) {
      IssuedStays(before, call, id, st.memory[id]);
    } else if id in st.disk && SameIssue(row, st.disk[id]) {
      IssuedStays(before, call, id, st.disk[id]);
    } else {
      assert calls[|before|] == call;
    }
  }

  // ---- what an elevation is good for ----

  /** Nothing after `k` issues the id again or logs it out. */
  predicate NotReissued(calls: seq<Call>, k: nat, id: string) {
    forall j :: k < j < |calls| ==> !Issues(calls[j], id) && calls[j].op != Logout(id)
  }

  /** Wherever the session is held, its own principal's elevation lasts at least until then. */
  ghost predicate Elevated(table: Table, id: string, principal: string, until: real) {
    id in table ==>
      && table[id].principalId == principal && table[id].stepUpPrincipal == Some(principal)
      && table[id].stepUpUntil.Some? && table[id].stepUpUntil.value >= until
  }

  lemma StepElevates(st: State, call: Call, id: string, principal: string)
    requires Verifies(st, call, id, principal)
    ensures id in Step(st, call).memory && Step(st, call).disk == Step(st, call).memory
    ensures Elevated(Step(st, call).memory, id, principal, call.now + 300.0)
  {
  }

  lemma StepKeepsElevated(st: State, call: Call, id: string, principal: string, until: real)
    requires Elevated(st.memory, id, principal, until) && Elevated(st.disk, id, principal, until)
    requires until <= call.now + 300.0 && !Issues(call, id) && call.op != Logout(id)
    ensures Elevated(Step(st, call).memory, id, principal, until)
    ensures Elevated(Step(st, call).disk, id, principal, until)
  {
    StepDisk(st, call);
  }

  lemma {:induction false} ElevationStays(calls: seq<Call>, k: nat, m: nat, id: string, principal: string)
    requires Clocked(calls) && Elevates(calls, k, id, principal) && k < m <= |calls| && NotReissued(calls, k, id)
    ensures var st := Run(calls[..m]);
            && Elevated(st.memory, id, principal, calls[k].now + 300.0)
            && Elevated(st.disk, id, principal, calls[k].now + 300.0)
  {
    assert calls[..m][..m - 1] == calls[..m - 1];
    if m == k + 1 {
      StepElevates(Run(calls[..k]), calls[k], id, principal);
    } else {
      ElevationStays(calls, k, m - 1, id, principal);
      StepKeepsElevated(Run(calls[..m - 1]), calls[m - 1], id, principal, calls[k].now + 300.0);
    }
  }

  /** A verified step-up elevates its session, for its own principal, for 300 seconds, restarts or
      not, unless the session is logged out, dropped or issued anew. */
  lemma ElevationLasts(calls: seq<Call>, k: nat, id: string, principal: string, now: real)
    requires Clocked(calls) && Elevates(calls, k, id, principal) && NotReissued(calls, k, id)
    requires id in Run(calls).memory && now < calls[k].now + 300.0
    ensures Run(calls).memory[id].HasStepUp(None, now) && Run(calls).memory[id].HasStepUp(Some(principal), now)
    ensures forall other :: other != principal ==> !Run(calls).memory[id].HasStepUp(Some(other), now)
  {
    assert calls[..|calls|] == calls;
    ElevationStays(calls, k, |calls|, id, principal);
  }
}
