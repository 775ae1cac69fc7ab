/** The periodic sweep that expires overdue sessions while other clients keep working. */
module ExpirySweep {
  import opened Common
  import opened SessionFsm
  import opened SessionStore

  /** What another client can do to the table: any insertion, any call of `Transition`. */
  datatype Call =
    | Insertion(session: Session, now: int, writing: Writing)
    | Attempt(tenant: Tenant, id: Id, from: State, to: State, version: int)

  function AfterCall(t: Table, call: Call): Table {
    match call
    case Insertion(s, now, writing) => Inserted(t, s, now, writing).0
    case Attempt(tenant, id, from, to, version) => Updated(t, tenant, id, from, to, version).0
  }

  function AfterCalls(t: Table, calls: seq<Call>): Table {
    if calls == [] then t else AfterCall(AfterCalls(t, calls[..|calls| - 1]), calls[|calls| - 1])
  }

  /** The row still exists for the same tenant, and is unchanged or has a higher version. */
  ghost predicate Onward(s: Session, t: Table) {
    && s.id in t && t[s.id].tenant == s.tenant
    && (t[s.id] == s || t[s.id].version > s.version)
  }

  lemma {:induction false} CallsMoveOnward(s: Session, t: Table, calls: seq<Call>)
    requires Onward(s, t)
    ensures Onward(s, AfterCalls(t, calls))
  {
    if calls != [] {
      CallsMoveOnward(s, t, calls[..|calls| - 1]);
    }
  }

  /** The table just before and just after the sweep's `Transition` of one session. */
  datatype Turn = Turn(before: Table, after: Table)

  /**
   * The session is moved to Expired if it still is what was listed; otherwise its version has changed
   * since and the sweep leaves the table alone.
   */
  ghost predicate Settled(s: Session, turn: Turn) {
    && s.id in turn.before
    && if turn.before[s.id] == s
       then turn.after == turn.before[s.id := s.(state := Expired, version := s.version + 1)]
       else turn.before[s.id].version > s.version && turn.after == turn.before
  }

  /** The table as the sweep left it after its last turn. */
  ghost function Latest(start: Table, turns: seq<Turn>): Table {
    if turns == [] then start else turns[|turns| - 1].after
  }

  /** The sweep's turns so far: each settles the next listed session, found active when it was listed. */
  ghost predicate Sweeping(start: Table, listed: seq<Session>, others: nat -> seq<Call>, turns: seq<Turn>) {
    && |turns| <= |listed|
    && (turns != [] ==>
          var i := |turns| - 1;
          && listed[i].state.Active?
          && turns[i].before == AfterCalls(Latest(start, turns[..i]), others(i))
          && Settled(listed[i], turns[i])
          && Sweeping(start, listed, others, turns[..i]))
  }

  /** The sweep settles every session before the first that was waiting for a human, and stops there. */
  ghost predicate SweepHistory(start: Table, listed: seq<Session>, others: nat -> seq<Call>, turns: seq<Turn>,
                               end: Table, r: Result<(), SessionError>) {
    && Sweeping(start, listed, others, turns)
    && if |turns| < |listed| then
         && listed[|turns|].state.WaitingForHuman?
         && r == Err(InvalidTransition(WaitingForHuman, Expired))
         && end == AfterCalls(Latest(start, turns), others(|turns|))
       else
         r == Ok(()) && end == Latest(start, turns)
  }

  /** What `Transition` to Expired does to a session listed earlier. */
  lemma TurnSettles(s: Session, before: Table)
    requires Onward(s, before) && Overdue(s, s.expiresAt + 1)
    ensures var (after, answer) := Updated(before, s.tenant, s.id, s.state, Expired, s.version);
            && (s.state.Active? ==> Settled(s, Turn(before, after)) && (answer.Ok? || answer.error == OptimisticLock))
            && (s.state.WaitingForHuman? ==>
                  after == before && answer == Err(InvalidTransition(WaitingForHuman, Expired)))
            && forall x :: Onward(x, before) ==> Onward(x, after)
  {
  }

  lemma ExtendSweep(start: Table, listed: seq<Session>, others: nat -> seq<Call>, turns: seq<Turn>, turn: Turn)
    requires Sweeping(start, listed, others, turns) && |turns| < |listed|
    requires listed[|turns|].state.Active? && Settled(listed[|turns|], turn)
    requires turn.before == AfterCalls(Latest(start, turns), others(|turns|))
    ensures Sweeping(start, listed, others, turns + [turn])
  {
    assert (turns + [turn])[..|turns|] == turns;
  }

  /** `listed` is what `ListExpired` returned on table `t`. */
  ghost predicate ListedFrom(t: Table, now: int, listed: seq<Session>) {
    && (forall s :: s in listed <==> s.id in t && t[s.id] == s && Overdue(s, now))
    && (forall i, j :: 0 <= i < j < |listed| ==> listed[i].id != listed[j].id)
  }

  class ExpireSessionsWorker {
    const sessions: SessionRepository

    constructor (sessions: SessionRepository)
      ensures this.sessions == sessions
    {
      this.sessions := sessions;
    }

    /** Other clients' calls, made against the shared table. */
    method Interfere(calls: seq<Call>)
      modifies sessions
      ensures sessions.rows == AfterCalls(old(sessions.rows), calls)
    {
      for i := 0 to |calls|
        invariant sessions.rows == AfterCalls(old(sessions.rows), calls[..i])
      {
        assert calls[..i + 1][..i] == calls[..i];
        sessions.rows := AfterCall(sessions.rows, calls[i]);
      }
      assert calls[..|calls|] == calls;
    }

    /** `others(i)` is what other clients do just before the sweep's `i`-th `Transition`. */
    method Work(now: int, others: nat -> seq<Call>)
      returns (r: Result<(), SessionError>, ghost listed: seq<Session>, ghost turns: seq<Turn>)
      requires Keyed(sessions.rows)
      modifies sessions
      ensures ListedFrom(old(sessions.rows), now, listed)
      ensures SweepHistory(old(sessions.rows), listed, others, turns, sessions.rows, r)
    {
      ghost var start := sessions.rows;
      var expired := sessions.ListExpired(now);
      listed, turns := expired, [];
      for i := 0 to |expired|
        invariant listed == expired && |turns| == i
        invariant forall s :: s in listed ==> Onward(s, sessions.rows)
        invariant Sweeping(start, listed, others, turns) && sessions.rows == Latest(start, turns)
      {
        var s := expired[i];
        assert s in listed;
        forall x | x in listed ensures Onward(x, AfterCalls(sessions.rows, others(i))) {
          CallsMoveOnward(x, sessions.rows, others(i));
        }
        Interfere(others(i));
        ghost var before := sessions.rows;
        TurnSettles(s, before);
        var answer := sessions.Transition(s.tenant, s.id, s.state, Expired, s.version);
        if answer.Err? && answer.error != OptimisticLock {
          r := Err(answer.error);
          return;
        }
        ExtendSweep(start, listed, others, turns, Turn(before, sessions.rows));
        turns := turns + [Turn(before, sessions.rows)];
      }
      r := Ok(());
    }
  }

  /** Left undisturbed, the sweep has expired the sessions it reached and no others. */
  lemma {:induction false} UndisturbedTurns(start: Table, listed: seq<Session>, turns: seq<Turn>, j: nat)
    requires Sweeping(start, listed, i => [], turns)
    requires forall s :: s in listed ==> s.id in start && start[s.id] == s
    requires forall i, j :: 0 <= i < j < |listed| ==> listed[i].id != listed[j].id
    requires j < |listed|
    ensures var t := Latest(start, turns);
            && listed[j].id in t
            && t[listed[j].id] == if j < |turns| then listed[j].(state := Expired, version := listed[j].version + 1)
                                  else listed[j]
  {
    assert listed[j] in listed;
    if turns != [] {
      var i := |turns| - 1;
      UndisturbedTurns(start, listed, turns[..i], j);
      UndisturbedTurns(start, listed, turns[..i], i);
    }
  }

  /** Whatever others do, every turn met its session as listed or left the changed row alone. */
  lemma {:induction false} EveryTurnSettled(start: Table, listed: seq<Session>, others: nat -> seq<Call>,
                                            turns: seq<Turn>, i: nat)
    requires Sweeping(start, listed, others, turns) && i < |turns|
    ensures listed[i].state.Active? && Settled(listed[i], turns[i])
    ensures turns[i].before == AfterCalls(Latest(start, turns[..i]), others(i))
  {
    var last := |turns| - 1;
    if i < last {
      EveryTurnSettled(start, listed, others, turns[..last], i);
      assert turns[..last][..i] == turns[..i];
    }
  }

  /**
   * Left undisturbed, the sweep expires everything it listed exactly when nothing it listed was waiting
   * for a human; otherwise the first such session and all after it keep their rows.
   */
  lemma SweepCompleteIff(start: Table, listed: seq<Session>, turns: seq<Turn>, end: Table, r: Result<(), SessionError>)
    requires SweepHistory(start, listed, i => [], turns, end, r)
    requires forall s :: s in listed ==> s.id in start && start[s.id] == s
    requires forall i, j :: 0 <= i < j < |listed| ==> listed[i].id != listed[j].id
    ensures (forall j :: 0 <= j < |listed| ==> listed[j].id in end && end[listed[j].id].state == Expired)
            <==> forall j :: 0 <= j < |listed| ==> listed[j].state == Active
    ensures forall j :: |turns| <= j < |listed| ==> listed[j].id in end && end[listed[j].id] == listed[j]
  {
    forall i | 0 <= i < |turns| ensures listed[i].state.Active? {
      EveryTurnSettled(start, listed, i => [], turns, i);
    }
    forall j | 0 <= j < |listed|
      ensures listed[j].id in end
      ensures end[listed[j].id] == if j < |turns| then listed[j].(state := Expired, version := listed[j].version + 1)
                                   else listed[j]
    {
      UndisturbedTurns(start, listed, turns, j);
    }
  }

  /** Whatever others do, the sweep succeeds exactly when nothing it listed was waiting for a human. */
  lemma SweepSucceedsIff(start: Table, listed: seq<Session>, others: nat -> seq<Call>, turns: seq<Turn>, end: Table,
                         r: Result<(), SessionError>)
    requires SweepHistory(start, listed, others, turns, end, r)
    ensures r.Ok? <==> forall j :: 0 <= j < |listed| ==> listed[j].state == Active
  {
    forall i | 0 <= i < |turns| ensures listed[i].state.Active? {
      EveryTurnSettled(start, listed, others, turns, i);
    }
  }

  /** A session that waits for a human, if listed first, keeps an active one from being expired. */
  lemma WaitingSessionBlocks(waiting: Session, active: Session, turns: seq<Turn>, end: Table,
                             r: Result<(), SessionError>)
    requires waiting.state.WaitingForHuman? && active.state.Active? && waiting.id != active.id
    requires SweepHistory(map[waiting.id := waiting, active.id := active], [waiting, active], i => [], turns, end, r)
    ensures r == Err(InvalidTransition(WaitingForHuman, Expired))
    ensures active.id in end && end[active.id] == active
  {
    var start, listed := map[waiting.id := waiting, active.id := active], [waiting, active];
    SweepCompleteIff(start, listed, turns, end, r);
    if turns != [] {
      EveryTurnSettled(start, listed, i => [], turns, 0);
    }
    assert listed[1] == active;
  }

  /** A session is listed only when its expiry has passed and it has not ended. */
  lemma ListedIsOverdue(t: Table, now: int, listed: seq<Session>, s: Session)
    requires ListedFrom(t, now, listed)
    ensures s in listed <==>
              && s.id in t && t[s.id] == s && s.expiresAt < now
              && s.state != Completed && s.state != Expired
  {
  }

  /** Whatever others do, a turn of the sweep changes no row but that of a session whose expiry had passed. */
  lemma TurnTouchesOnlyOverdue(start: Table, now: int, listed: seq<Session>, others: nat -> seq<Call>,
                               turns: seq<Turn>, i: nat, id: Id)
    requires ListedFrom(start, now, listed) && Sweeping(start, listed, others, turns) && i < |turns|
    ensures id in turns[i].before && (id !in turns[i].after || turns[i].after[id] != turns[i].before[id]) ==>
              id in start && start[id].expiresAt < now && start[id].state == Active
  {
    EveryTurnSettled(start, listed, others, turns, i);
    assert listed[i] in listed;
  }

  /** A session whose expiry is still ahead is left alone. */
  lemma {:induction false} UnexpiredUntouched(start: Table, now: int, listed: seq<Session>, turns: seq<Turn>, id: Id)
    requires ListedFrom(start, now, listed) && Sweeping(start, listed, i => [], turns)
    requires id in start && start[id].expiresAt >= now
    ensures id in Latest(start, turns) && Latest(start, turns)[id] == start[id]
  {
    if turns != [] {
      var i := |turns| - 1;
      UnexpiredUntouched(start, now, listed, turns[..i], id);
      EveryTurnSettled(start, listed, i => [], turns, i);
      assert listed[i] in listed;
    }
  }
}
