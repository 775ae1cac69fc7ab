/** The session state machine. */
module SessionFsm {

  datatype State = Active | WaitingForHuman | Completed | Expired

  const VALID_TRANSITIONS: map<State, seq<State>> :=
    map[
      Active := [WaitingForHuman, Completed, Expired],
      WaitingForHuman := [Active, Completed]
    ]

  predicate Allowed(from: State, to: State) {
    from in VALID_TRANSITIONS && to in VALID_TRANSITIONS[from]
  }

  predicate Terminal(s: State) {
    s.Completed? || s.Expired?
  }

  /** The states without a way out, and the one pair of live states without an edge. */
  lemma TransitionTable(from: State, to: State)
    ensures (forall s :: !Allowed(from, s)) <==> Terminal(from)
    ensures !Terminal(from) && from != to ==>
              (Allowed(from, to) <==> !(from == WaitingForHuman && to == Expired))
    ensures !Allowed(from, from)
  {
    assert from.Active? ==> Allowed(from, Completed);
    assert from.WaitingForHuman? ==> Allowed(from, Completed);
  }
}

/** The session table and the repository's operations on it. */
module SessionStore {
  import opened Common
  import opened SessionFsm

  type Id = nat
  type Tenant = nat

  datatype Session = Session(id: Id, tenant: Tenant, state: State, version: nat, expiresAt: int)

  type Table = map<Id, Session>

  datatype SessionError =
    | NotFound
    | OptimisticLock
    | InvalidTransition(from: State, to: State)
    | Rejected

  /** Every row is filed under its own identifier. */
  ghost predicate Keyed(t: Table) {
    forall id :: id in t ==> t[id].id == id
  }

  /** The row the UPDATE statement matches: identifier, tenant and version, but not the state. */
  predicate Matches(t: Table, tenant: Tenant, id: Id, version: int) {
    id in t && t[id].tenant == tenant && t[id].version == version
  }

  /** The table after `Transition`, and its answer. */
  function Updated(t: Table, tenant: Tenant, id: Id, from: State, to: State, version: int):
    (r: (Table, Result<nat, SessionError>))
  {
    if !Allowed(from, to) then (t, Err(InvalidTransition(from, to)))
    else if !Matches(t, tenant, id, version) then (t, Err(OptimisticLock))
    else (t[id := t[id].(state := to, version := t[id].version + 1)], Ok(t[id].version + 1))
  }

  /** A taken identifier, an expiry not after `now`, or an unknown tenant or user is refused. */
  predicate Insertable(t: Table, s: Session, now: int, writing: Writing) {
    s.id !in t && now < s.expiresAt && !writing.Refused?
  }

  /** The table after `Create`, and its answer; `writing` is Refused if tenant or user are unknown. */
  function Inserted(t: Table, s: Session, now: int, writing: Writing): (r: (Table, Result<(), SessionError>)) {
    (if Insertable(t, s, now, writing) then t[s.id := s] else t,
     if Insertable(t, s, now, writing) && writing.Written? then Ok(()) else Err(Rejected))
  }

  /** `Create` stores the session exactly if its identifier is free, its expiry lies ahead and nothing is refused. */
  lemma CreatesIff(t: Table, s: Session, now: int, writing: Writing)
    ensures var (rows, r) := Inserted(t, s, now, writing);
            && (s.id !in t && s.expiresAt > now && writing != Refused ==> rows == t[s.id := s])
            && (s.id in t || s.expiresAt <= now || writing == Refused ==> rows == t)
            && (r.Ok? <==> s.id !in t && s.expiresAt > now && writing == Written)
  {
  }

  /** `Transition` commits exactly for the tenant's own row at the named version, and changes nothing else. */
  lemma CommitsIff(t: Table, tenant: Tenant, id: Id, from: State, to: State, version: int)
    ensures var (rows, r) := Updated(t, tenant, id, from, to, version);
            && (r.Ok? <==> Allowed(from, to) && id in t && t[id].tenant == tenant && t[id].version == version)
            && (r.Err? ==> rows == t && (r.error == InvalidTransition(from, to) || r.error == OptimisticLock))
            && (r.Err? && r.error == OptimisticLock <==> r.Err? && Allowed(from, to))
            && (r.Ok? ==>
                  && r.value == version + 1 && rows.Keys == t.Keys
                  && rows[id] == Session(t[id].id, t[id].tenant, to, version + 1, t[id].expiresAt)
                  && forall x :: x in t && x != id ==> rows[x] == t[x])
  {
  }

  predicate Overdue(s: Session, now: int) {
    s.expiresAt < now && (s.state.Active? || s.state.WaitingForHuman?)
  }

  class SessionRepository {
    var rows: Table

    constructor ()
      ensures rows == map[]
    {
      rows := map[];
    }

    method Create(tenant: Tenant, s: Session, now: int, writing: Writing) returns (r: Result<(), SessionError>)
      modifies this
      ensures (rows, r) == Inserted(old(rows), s.(tenant := tenant), now, writing)
    {
      if s.id in rows || s.expiresAt <= now || writing.Refused? {
        return Err(Rejected);
      }
      rows := rows[s.id := s.(tenant := tenant)];
      return if writing.Written? then Ok(()) else Err(Rejected);
    }

    method GetByID(tenant: Tenant, id: Id) returns (r: Result<Session, SessionError>)
      ensures id in rows && rows[id].tenant == tenant ==> r == Ok(rows[id])
      ensures !(id in rows && rows[id].tenant == tenant) ==> r == Err(NotFound)
    {
      if id in rows && rows[id].tenant == tenant {
        return Ok(rows[id]);
      }
      return Err(NotFound);
    }

    method Transition(tenant: Tenant, id: Id, from: State, to: State, version: int)
      returns (r: Result<nat, SessionError>)
      modifies this
      ensures (rows, r) == Updated(old(rows), tenant, id, from, to, version)
    {
      if !Allowed(from, to) {
        return Err(InvalidTransition(from, to));
      }
      if id in rows && rows[id].tenant == tenant && rows[id].version == version {
        var newVersion := rows[id].version + 1;
        rows := rows[id := rows[id].(state := to, version := newVersion)];
        return Ok(newVersion);
      }
      return Err(OptimisticLock);
    }

    /** Every overdue session of every tenant, once each, in no particular order. */
    method ListExpired(now: int) returns (listed: seq<Session>)
      requires Keyed(rows)
      ensures forall s :: s in listed <==> s.id in rows && rows[s.id] == s && Overdue(s, now)
      ensures forall i, j :: 0 <= i < j < |listed| ==> listed[i].id != listed[j].id
    {
      listed := [];
      var rest := rows.Keys;
      while rest != {}
        invariant rest <= rows.Keys
        invariant forall s :: s in listed <==> s.id in rows.Keys - rest && rows[s.id] == s && Overdue(s, now)
        invariant forall i, j :: 0 <= i < j < |listed| ==> listed[i].id != listed[j].id
        decreases rest
      {
        var id :| id in rest;
        if Overdue(rows[id], now) {
          assert forall s :: s in listed ==> s.id != id;
          listed := listed + [rows[id]];
        }
        rest := rest - {id};
      }
    }
  }
}

/** Clients that read a row, act, and later pass that snapshot's state and version to `Transition`. */
module SessionProtocol {
  import opened Common
  import opened SessionFsm
  import opened SessionStore

  /** `slot` names the place where a client keeps what it read. */
  datatype Op =
    | Create(slot: nat, session: Session, now: int, writing: Writing)
    | Read(slot: nat, id: Id)
    | Move(slot: nat, to: State)

  /** `past[id]` lists the states the row has had, oldest first; `first[id]` is its initial version. */
  datatype Config = Config(rows: Table, held: map<nat, Session>, first: map<Id, nat>, past: map<Id, seq<State>>)

  const START: Config := Config(map[], map[], map[], map[])

  /** The answer to `Move(slot, to)`. */
  ghost function Answer(c: Config, slot: nat, to: State): Result<nat, SessionError>
    requires slot in c.held
  {
    var s := c.held[slot];
    Updated(c.rows, s.tenant, s.id, s.state, to, s.version).1
  }

  ghost function Step(c: Config, op: Op): Config {
    match op
    case Create(slot, s, now, writing) =>
      var (rows, answer) := Inserted(c.rows, s, now, writing);
      if !Insertable(c.rows, s, now, writing) then c
      else
        Config(rows, if answer.Ok? then c.held[slot := s] else c.held,
               c.first[s.id := s.version], c.past[s.id := [s.state]])
    case Read(slot, id) =>
      if id in c.rows then c.(held := c.held[slot := c.rows[id]]) else c
    case Move(slot, to) =>
      if slot !in c.held || Answer(c, slot, to).Err? then c
      else
        var s := c.held[slot];
        c.(rows := Updated(c.rows, s.tenant, s.id, s.state, to, s.version).0,
           past := if s.id in c.past then c.past[s.id := c.past[s.id] + [to]] else c.past)
  }

  ghost function Exec(ops: seq<Op>): Config {
    if ops == [] then START else Step(Exec(ops[..|ops| - 1]), ops[|ops| - 1])
  }

  /** Each state follows the one before by an edge of the state machine. */
  ghost predicate FollowsFsm(states: seq<State>) {
    forall i, k :: 0 <= i < |states| && k == i + 1 < |states| ==> Allowed(states[i], states[k])
  }

  /** The row's version counts its commits, and its state is the last it was moved to. */
  ghost predicate RowMatchesPast(c: Config, id: Id)
    requires id in c.rows && id in c.first && id in c.past
  {
    && c.past[id] != []
    && c.rows[id].version == c.first[id] + |c.past[id]| - 1
    && c.rows[id].state == c.past[id][|c.past[id]| - 1]
  }

  /** A snapshot agrees with what the row was when it had that version. */
  ghost predicate SnapshotMatchesPast(c: Config, s: Session) {
    && s.id in c.past && s.id in c.first && s.id in c.rows
    && s.tenant == c.rows[s.id].tenant
    && c.first[s.id] <= s.version < c.first[s.id] + |c.past[s.id]|
    && s.state == c.past[s.id][s.version - c.first[s.id]]
  }

  ghost predicate Consistent(c: Config) {
    && Keyed(c.rows)
    && c.rows.Keys == c.first.Keys == c.past.Keys
    && (forall id :: id in c.rows ==> RowMatchesPast(c, id) && FollowsFsm(c.past[id]))
    && (forall slot :: slot in c.held ==> SnapshotMatchesPast(c, c.held[slot]))
  }

  /** The UPDATE compares versions only; since versions determine states, the states agree too. */
  lemma MatchingVersionMeansCurrent(c: Config, slot: nat)
    requires Consistent(c) && slot in c.held
    requires Matches(c.rows, c.held[slot].tenant, c.held[slot].id, c.held[slot].version)
    ensures c.held[slot].state == c.rows[c.held[slot].id].state
  {
  }

  lemma StepKeepsConsistent(c: Config, op: Op)
    requires Consistent(c)
    ensures Consistent(Step(c, op))
  {
    match op
    case Create(slot, s, now, writing) => CreateKeepsConsistent(c, slot, s, now, writing);
    case Read(_, _) =>
    case Move(slot, to) =>
      if slot in c.held && Answer(c, slot, to).Ok? {
        MatchingVersionMeansCurrent(c, slot);
        MoveKeepsConsistent(c, slot, to);
      }
  }

  /** The configuration after row `s` has been added, and kept in `slot` if the caller was told so. */
  ghost function Added(c: Config, slot: nat, s: Session, told: bool): Config {
    Config(c.rows[s.id := s], if told then c.held[slot := s] else c.held,
           c.first[s.id := s.version], c.past[s.id := [s.state]])
  }

  lemma AddedRowMatchesPast(c: Config, slot: nat, s: Session, told: bool, x: Id)
    requires Consistent(c) && s.id !in c.rows && (x in c.rows || x == s.id)
    ensures RowMatchesPast(Added(c, slot, s, told), x) && FollowsFsm(Added(c, slot, s, told).past[x])
  {
    if x in c.rows {
      assert RowMatchesPast(c, x);
    }
  }

  lemma AddedSnapshotMatchesPast(c: Config, slot: nat, s: Session, told: bool, snapshot: Session)
    requires Consistent(c) && s.id !in c.rows && (SnapshotMatchesPast(c, snapshot) || snapshot == s)
    ensures SnapshotMatchesPast(Added(c, slot, s, told), snapshot)
  {
  }

  lemma CreateKeepsConsistent(c: Config, slot: nat, s: Session, now: int, writing: Writing)
    requires Consistent(c)
    ensures Consistent(Step(c, Create(slot, s, now, writing)))
  {
    if Insertable(c.rows, s, now, writing) {
      var c' := Added(c, slot, s, writing.Written?);
      assert Step(c, Create(slot, s, now, writing)) == c';
      forall id | id in c'.rows ensures RowMatchesPast(c', id) && FollowsFsm(c'.past[id]) {
        AddedRowMatchesPast(c, slot, s, writing.Written?, id);
      }
      forall k | k in c'.held ensures SnapshotMatchesPast(c', c'.held[k]) {
        assert c'.held[k] == s || (k in c.held && c'.held[k] == c.held[k]);
        AddedSnapshotMatchesPast(c, slot, s, writing.Written?, c'.held[k]);
      }
    }
  }

  /** The configuration after row `id` has been moved to `to`. */
  ghost function Moved(c: Config, id: Id, to: State): Config
    requires id in c.rows && id in c.past
  {
    c.(rows := c.rows[id := c.rows[id].(state := to, version := c.rows[id].version + 1)],
       past := c.past[id := c.past[id] + [to]])
  }

  lemma MovedRowMatchesPast(c: Config, id: Id, to: State, x: Id)
    requires Consistent(c) && id in c.rows && x in c.rows && Allowed(c.rows[id].state, to)
    ensures RowMatchesPast(Moved(c, id, to), x) && FollowsFsm(Moved(c, id, to).past[x])
  {
    assert RowMatchesPast(c, x);
  }

  lemma MovedSnapshotMatchesPast(c: Config, id: Id, to: State, s: Session)
    requires Consistent(c) && id in c.rows && SnapshotMatchesPast(c, s)
    ensures SnapshotMatchesPast(Moved(c, id, to), s)
  {
  }

  lemma MoveIsMoved(c: Config, slot: nat, to: State)
    requires Consistent(c) && slot in c.held && Answer(c, slot, to).Ok?
    ensures c.held[slot].id in c.rows && c.held[slot].id in c.past
    ensures Step(c, Move(slot, to)) == Moved(c, c.held[slot].id, to)
  {
  }

  lemma MoveKeepsConsistent(c: Config, slot: nat, to: State)
    requires Consistent(c) && slot in c.held && Answer(c, slot, to).Ok?
    requires Allowed(c.rows[c.held[slot].id].state, to)
    ensures Consistent(Step(c, Move(slot, to)))
  {
    var id := c.held[slot].id;
    var c' := Moved(c, id, to);
    MoveIsMoved(c, slot, to);
    forall k | k in c'.held ensures SnapshotMatchesPast(c', c'.held[k]) {
      MovedSnapshotMatchesPast(c, id, to, c.held[k]);
    }
    forall x | x in c'.rows ensures RowMatchesPast(c', x) && FollowsFsm(c'.past[x]) {
      MovedRowMatchesPast(c, id, to, x);
    }
  }

  /**
   * In every interleaving: each row's states follow the state machine from the row's actual current
   * state, and its version is the initial one plus the number of commits.
   */
  lemma {:induction false} EveryRunIsConsistent(ops: seq<Op>)
    ensures Consistent(Exec(ops))
  {
    if ops != [] {
      EveryRunIsConsistent(ops[..|ops| - 1]);
      StepKeepsConsistent(Exec(ops[..|ops| - 1]), ops[|ops| - 1]);
    }
  }

  /** Operation `i` of the run is a `Move` of session `id` that commits. */
  ghost predicate CommitsAt(ops: seq<Op>, i: nat, id: Id) {
    && i < |ops| && ops[i].Move?
    && var c := Exec(ops[..i]);
       ops[i].slot in c.held && c.held[ops[i].slot].id == id && Answer(c, ops[i].slot, ops[i].to).Ok?
  }

  /** The version of the snapshot used by operation `i`. */
  ghost function VersionUsed(ops: seq<Op>, i: nat, id: Id): nat
    requires CommitsAt(ops, i, id)
  {
    Exec(ops[..i]).held[ops[i].slot].version
  }

  lemma StepMovesForward(c: Config, op: Op, id: Id)
    requires Consistent(c) && id in c.rows
    ensures var c' := Step(c, op);
            && id in c'.rows && c'.rows[id].tenant == c.rows[id].tenant
            && (c'.rows[id] == c.rows[id] || c'.rows[id].version == c.rows[id].version + 1)
            && (Terminal(c.rows[id].state) ==> c'.rows[id] == c.rows[id])
  {
    match op
    case Create(_, _, _, _) =>
    case Read(_, _) =>
    case Move(slot, to) =>
      if slot in c.held && Answer(c, slot, to).Ok? {
        MatchingVersionMeansCurrent(c, slot);
      }
  }

  /** Rows are never removed, versions never fall, and an unchanged version means an unchanged row. */
  lemma {:induction false} RunMovesForward(ops: seq<Op>, i: nat, id: Id)
    requires i <= |ops| && id in Exec(ops[..i]).rows
    ensures id in Exec(ops).rows
    ensures var before, after := Exec(ops[..i]).rows[id], Exec(ops).rows[id];
            && (after == before || after.version > before.version)
            && (Terminal(before.state) ==> after == before)
    decreases |ops|
  {
    if i < |ops| {
      var front := ops[..|ops| - 1];
      assert front[..i] == ops[..i];
      RunMovesForward(front, i, id);
      EveryRunIsConsistent(front);
      StepMovesForward(Exec(front), ops[|ops| - 1], id);
    } else {
      assert ops[..i] == ops;
    }
  }

  /** Completed and Expired are absorbing: no continuation of the run changes the row. */
  lemma TerminalIsAbsorbing(ops: seq<Op>, more: seq<Op>, id: Id)
    requires id in Exec(ops).rows && Terminal(Exec(ops).rows[id].state)
    ensures id in Exec(ops + more).rows && Exec(ops + more).rows[id] == Exec(ops).rows[id]
  {
    assert (ops + more)[..|ops|] == ops;
    RunMovesForward(ops + more, |ops|, id);
  }

  /** Of all the commits to a row, no two use snapshots of the same version. */
  lemma OneCommitPerSnapshot(ops: seq<Op>, i: nat, j: nat, id: Id)
    requires i < j && CommitsAt(ops, i, id) && CommitsAt(ops, j, id)
    ensures VersionUsed(ops, i, id) < VersionUsed(ops, j, id)
  {
    EveryRunIsConsistent(ops[..i]);
    var after := ops[..i + 1];
    assert after[..i] == ops[..i] && after[i] == ops[i];
    assert Exec(after) == Step(Exec(ops[..i]), ops[i]);
    assert ops[..j][..i + 1] == after;
    RunMovesForward(ops[..j], i + 1, id);
  }

  /**
   * The version check alone does not protect the state machine. With a matching version, a caller
   * naming the state `from` can only ever commit allowed edges exactly when `from` is the row's own
   * state or a terminal one.
   */
  lemma ForgedStateSafeIff(t: Table, id: Id, from: State)
    requires id in t
    ensures (forall to :: var r := Updated(t, t[id].tenant, id, from, to, t[id].version);
                          r.1.Ok? ==> Allowed(t[id].state, to))
            <==> from == t[id].state || Terminal(from)
  {
    var s := t[id].state;
    if from != s && !Terminal(from) {
      var to := if from.Active? && s.WaitingForHuman? then Expired
                else if from.WaitingForHuman? && s.Active? then Active
                else Completed;
      assert Updated(t, t[id].tenant, id, from, to, t[id].version).1.Ok? && !Allowed(s, to);
    }
  }

  /** A session that waits for a human can be expired by a caller that says it is active. */
  lemma ForgedExpiry(tenant: Tenant, id: Id, version: nat, expiresAt: int)
    ensures var row := Session(id, tenant, WaitingForHuman, version, expiresAt);
            && Updated(map[id := row], tenant, id, Active, Expired, version)
               == (map[id := row.(state := Expired, version := version + 1)], Ok(version + 1))
            && !Allowed(WaitingForHuman, Expired)
  {
    assert Allowed(Active, Expired);
    var row := Session(id, tenant, WaitingForHuman, version, expiresAt);
    var moved := row.(state := Expired, version := version + 1);
    assert map[id := row][id := moved] == map[id := moved];
  }
}
