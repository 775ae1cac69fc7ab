/** Runs of reply jobs on the message table: attempts of different jobs interleave and may stop anywhere. */
module ReplyProtocol {
  import opened Common
  import Fsm = SessionFsm
  import Store = SessionStore
  import opened Messages
  import Log = AtLeastOnce

  datatype Job = Job(id: int, tenant: Tenant, session: SessionId)

  datatype Reply = Reply(content: string, tokens: int)

  type JobKey = (Tenant, int)

  function KeyOf(job: Job): JobKey {
    (job.tenant, job.id)
  }

  function ReplyMessage(job: Job, reply: Reply, chunkIds: seq<nat>): Message {
    Message(job.session, job.tenant, Assistant, reply.content, Some(reply.tokens), Some(job.id), chunkIds)
  }

  /** The keys of the replies in the table, oldest first. */
  ghost function ReplyKeys(rows: seq<Message>): seq<JobKey> {
    if rows == [] then []
    else
      var m := rows[|rows| - 1];
      ReplyKeys(rows[..|rows| - 1]) + if m.jobId.Some? then [(m.tenant, m.jobId.value)] else []
  }

  lemma {:induction false} ReplyKeysFind(rows: seq<Message>, tenant: Tenant, job: int)
    ensures (tenant, job) in ReplyKeys(rows)
            <==> exists m :: m in rows && m.tenant == tenant && m.jobId == Some(job)
  {
    if rows != [] {
      var front := rows[..|rows| - 1];
      ReplyKeysFind(front, tenant, job);
      assert rows == front + [rows[|rows| - 1]];
    }
  }

  ghost predicate Replied(rows: seq<Message>, job: Job) {
    KeyOf(job) in ReplyKeys(rows)
  }

  ghost predicate Ended(table: Store.Table, job: Job) {
    && job.session in table && table[job.session].tenant == job.tenant
    && Fsm.Terminal(table[job.session].state)
  }

  /** The job has no reply yet, and its session exists and has not ended. */
  ghost predicate Wanted(rows: seq<Message>, table: Store.Table, job: Job) {
    && !Replied(rows, job)
    && job.session in table && table[job.session].tenant == job.tenant
    && !Ended(table, job)
  }

  /** Said on the rows: no reply to the job, and a session of its tenant that is active or waits for a human. */
  lemma WantedIff(rows: seq<Message>, table: Store.Table, job: Job)
    ensures Wanted(rows, table, job)
            <==> && (forall m :: m in rows ==> m.tenant != job.tenant || m.jobId != Some(job.id))
                 && job.session in table && table[job.session].tenant == job.tenant
                 && (table[job.session].state == Fsm.Active || table[job.session].state == Fsm.WaitingForHuman)
  {
    ReplyKeysFind(rows, job.tenant, job.id);
  }

  /** An attempt in flight: past the check, or holding the model's answer. */
  datatype Stage = Cleared(job: Job) | Answered(job: Job, reply: Reply, chunkIds: seq<nat>)

  /** The message table, the attempts in flight, the model's answers and those that were never stored. */
  datatype State = State(rows: seq<Message>, inFlight: map<nat, Stage>, answered: seq<JobKey>, unsaved: seq<JobKey>)

  /** `Post` is a message that belongs to no job; `table` is what the check sees of the sessions. */
  datatype Op =
    | Check(attempt: nat, job: Job, table: Store.Table)
    | Answer(attempt: nat, reply: Reply, chunkIds: seq<nat>)
    | Save(attempt: nat)
    | Stop(attempt: nat)
    | Post(message: Message)

  ghost function Step(s: State, op: Op): State {
    match op
    case Check(a, job, table) =>
      if a in s.inFlight || !Wanted(s.rows, table, job) then s
      else s.(inFlight := s.inFlight[a := Cleared(job)])
    case Answer(a, reply, chunkIds) =>
      if a in s.inFlight && s.inFlight[a].Cleared? then
        var job := s.inFlight[a].job;
        s.(inFlight := s.inFlight[a := Answered(job, reply, chunkIds)], answered := s.answered + [KeyOf(job)])
      else s
    case Save(a) =>
      if a in s.inFlight && s.inFlight[a].Answered? then
        var t := s.inFlight[a];
        s.(rows := s.rows + [ReplyMessage(t.job, t.reply, t.chunkIds)], inFlight := s.inFlight - {a})
      else s
    case Stop(a) =>
      if a !in s.inFlight then s
      else s.(inFlight := s.inFlight - {a},
              unsaved := s.unsaved + if s.inFlight[a].Answered? then [KeyOf(s.inFlight[a].job)] else [])
    case Post(m) =>
      s.(rows := s.rows + [m.(jobId := None)])
  }

  ghost function Exec(s: State, ops: seq<Op>): State {
    if ops == [] then s else Step(Exec(s, ops[..|ops| - 1]), ops[|ops| - 1])
  }

  ghost predicate Working(s: State, key: JobKey) {
    exists a :: a in s.inFlight && KeyOf(s.inFlight[a].job) == key
  }

  /** No attempt begins while another attempt of the same job is in flight. */
  ghost predicate Serial(s: State, ops: seq<Op>) {
    forall i :: 0 <= i < |ops| && ops[i].Check? ==> !Working(Exec(s, ops[..i]), KeyOf(ops[i].job))
  }

  ghost function PhaseOf(t: Stage): Log.Phase<JobKey> {
    if t.Cleared? then Log.Cleared(KeyOf(t.job)) else Log.Acted(KeyOf(t.job))
  }

  /** The accounts of a state: answers are acts, replies in the table are records. */
  ghost function LedgerOf(s: State): Log.Ledger<JobKey> {
    Log.Ledger(map a | a in s.inFlight :: PhaseOf(s.inFlight[a]), s.answered, ReplyKeys(s.rows), s.unsaved)
  }

  /** What a step is in the ledger's terms, if it is anything. */
  ghost function Entry(s: State, op: Op): Option<Log.Op<JobKey>> {
    match op
    case Check(a, job, table) => if Wanted(s.rows, table, job) then Some(Log.Begin(a, KeyOf(job))) else None
    case Answer(a, _, _) => Some(Log.Act(a))
    case Save(a) => Some(Log.Record(a))
    case Stop(a) => Some(Log.Stop(a))
    case Post(_) => None
  }

  lemma ReplyKeysAppend(rows: seq<Message>, m: Message)
    ensures ReplyKeys(rows + [m]) == ReplyKeys(rows) + if m.jobId.Some? then [(m.tenant, m.jobId.value)] else []
  {
    assert (rows + [m])[..|rows|] == rows;
  }

  lemma SaveIsEntry(s: State, a: nat)
    ensures LedgerOf(Step(s, Save(a))) == Log.Step(LedgerOf(s), Log.Record(a))
  {
    if a in s.inFlight && s.inFlight[a].Answered? {
      ReplyKeysAppend(s.rows, ReplyMessage(s.inFlight[a].job, s.inFlight[a].reply, s.inFlight[a].chunkIds));
    }
  }

  lemma PostIsNoEntry(s: State, m: Message)
    ensures LedgerOf(Step(s, Post(m))) == LedgerOf(s)
  {
    ReplyKeysAppend(s.rows, m.(jobId := None));
    assert ReplyKeys(s.rows) + [] == ReplyKeys(s.rows);
  }

  lemma StepIsEntry(s: State, op: Op)
    ensures LedgerOf(Step(s, op))
         == if Entry(s, op).Some? then Log.Step(LedgerOf(s), Entry(s, op).value) else LedgerOf(s)
  {
    match op
    case Check(a, job, _) =>
    case Answer(a, _, _) =>
    case Save(a) => SaveIsEntry(s, a);
    case Stop(a) =>
    case Post(m) => PostIsNoEntry(s, m);
  }

  lemma WorkingIsBusy(s: State, key: JobKey)
    ensures Working(s, key) <==> Log.Busy(LedgerOf(s), key)
  {
    var l := LedgerOf(s);
    assert forall a :: a in s.inFlight ==> l.inFlight[a].key == KeyOf(s.inFlight[a].job);
  }

  /** Per job: answers are replies, plus answers never stored, plus one still to be stored; replies are at most one. */
  ghost predicate Accounted(s: State) {
    Log.Balanced(LedgerOf(s))
  }

  /** A run in the ledger's terms. */
  ghost function Entries(s: State, ops: seq<Op>): seq<Log.Op<JobKey>> {
    if ops == [] then []
    else
      var front := ops[..|ops| - 1];
      Log.Extended(Entries(s, front), Entry(Exec(s, front), ops[|ops| - 1]))
  }

  lemma SerialFront(s: State, front: seq<Op>, op: Op)
    requires Serial(s, front + [op])
    ensures Serial(s, front)
    ensures op.Check? ==> !Working(Exec(s, front), KeyOf(op.job))
  {
    var ops := front + [op];
    assert ops[..|front|] == front && ops[|front|] == op;
    forall i | 0 <= i < |front| && front[i].Check? ensures !Working(Exec(s, front[..i]), KeyOf(front[i].job)) {
      assert ops[..i] == front[..i] && ops[i] == front[i];
    }
  }

  lemma {:induction false} LedgerOfRun(s: State, ops: seq<Op>)
    ensures LedgerOf(Exec(s, ops)) == Log.Exec(LedgerOf(s), Entries(s, ops))
  {
    if ops != [] {
      var front := ops[..|ops| - 1];
      LedgerOfRun(s, front);
      StepIsEntry(Exec(s, front), ops[|ops| - 1]);
      Log.ExtendRun(LedgerOf(s), Entries(s, front), Entry(Exec(s, front), ops[|ops| - 1]));
    }
  }

  /** A check that overlaps with no attempt of its job begins one that overlaps with none in the accounts. */
  lemma EntryIsFree(s: State, op: Op)
    requires op.Check? ==> !Working(s, KeyOf(op.job))
    ensures var e := Entry(s, op); e.Some? && e.value.Begin? ==> !Log.Busy(LedgerOf(s), e.value.key)
  {
    if op.Check? {
      WorkingIsBusy(s, KeyOf(op.job));
    }
  }

  lemma {:induction false} SerialLedger(s: State, ops: seq<Op>)
    requires Serial(s, ops)
    ensures Log.Serial(LedgerOf(s), Entries(s, ops))
  {
    if ops != [] {
      var front, op := ops[..|ops| - 1], ops[|ops| - 1];
      assert ops == front + [op];
      SerialFront(s, front, op);
      SerialLedger(s, front);
      LedgerOfRun(s, front);
      EntryIsFree(Exec(s, front), op);
      Log.ExtendRun(LedgerOf(s), Entries(s, front), Entry(Exec(s, front), op));
    }
  }

  /** Runs on the table are runs of the ledger, and serial runs are serial ones. */
  lemma RunIsLedgerRun(s: State, ops: seq<Op>)
    ensures LedgerOf(Exec(s, ops)) == Log.Exec(LedgerOf(s), Entries(s, ops))
    ensures Serial(s, ops) ==> Log.Serial(LedgerOf(s), Entries(s, ops))
  {
    LedgerOfRun(s, ops);
    if Serial(s, ops) {
      SerialLedger(s, ops);
    }
  }

  lemma RunsAreAccounted(s: State, ops: seq<Op>)
    requires Accounted(s) && Serial(s, ops)
    ensures Accounted(Exec(s, ops))
  {
    RunIsLedgerRun(s, ops);
    Log.SerialRunsBalance(LedgerOf(s), Entries(s, ops));
  }

  ghost function Idle(rows: seq<Message>, answered: seq<JobKey>, unsaved: seq<JobKey>): State {
    State(rows, map[], answered, unsaved)
  }

  /** A table without replies, whatever other messages it holds. */
  lemma FreshIsAccounted(rows: seq<Message>)
    requires ReplyKeys(rows) == []
    ensures Accounted(Idle(rows, [], []))
  {
    assert LedgerOf(Idle(rows, [], [])) == Log.Ledger(map[], [], [], []);
    Log.EmptyIsBalanced<JobKey>();
  }

  /** No two messages carry the same job of the same tenant. */
  ghost predicate UniqueReplies(rows: seq<Message>) {
    forall i, j :: 0 <= i < j < |rows| && rows[i].jobId.Some? ==>
      rows[i].jobId != rows[j].jobId || rows[i].tenant != rows[j].tenant
  }

  lemma {:induction false} CountedOnceIsUnique(rows: seq<Message>)
    requires forall key :: Count(ReplyKeys(rows), key) <= 1
    ensures UniqueReplies(rows)
  {
    if rows != [] {
      var front, last := rows[..|rows| - 1], rows[|rows| - 1];
      assert rows == front + [last];
      ReplyKeysAppend(front, last);
      if last.jobId.Some? {
        var key := (last.tenant, last.jobId.value);
        forall k ensures Count(ReplyKeys(front), k) <= 1 && (k == key ==> Count(ReplyKeys(front), k) == 0) {
          Log.CountAppend(ReplyKeys(front), key, k);
          assert Count(ReplyKeys(rows), k) <= 1;
        }
        Log.CountZeroIff(ReplyKeys(front), key);
        ReplyKeysFind(front, last.tenant, last.jobId.value);
        assert forall i :: 0 <= i < |front| ==> front[i] in front;
      } else {
        assert ReplyKeys(front) + [] == ReplyKeys(front);
      }
      CountedOnceIsUnique(front);
    }
  }

  /** Over any interleaving in which attempts of one job do not overlap, each job has at most one reply. */
  lemma AtMostOneReply(rows: seq<Message>, ops: seq<Op>)
    requires ReplyKeys(rows) == [] && Serial(Idle(rows, [], []), ops)
    ensures Accounted(Exec(Idle(rows, [], []), ops))
    ensures UniqueReplies(Exec(Idle(rows, [], []), ops).rows)
  {
    FreshIsAccounted(rows);
    RunsAreAccounted(Idle(rows, [], []), ops);
    AccountedIsUnique(Exec(Idle(rows, [], []), ops));
  }

  /** And per job, the model's answers are its replies, those never stored and one still to be stored. */
  lemma AnswersAccounted(rows: seq<Message>, ops: seq<Op>, key: JobKey)
    requires ReplyKeys(rows) == [] && Serial(Idle(rows, [], []), ops)
    ensures var s := Exec(Idle(rows, [], []), ops);
            && Count(ReplyKeys(s.rows), key) <= 1
            && Count(s.answered, key)
               == Count(ReplyKeys(s.rows), key) + Count(s.unsaved, key) + Log.Pending(LedgerOf(s), key)
  {
    AtMostOneReply(rows, ops);
    assert Log.KeyBalanced(LedgerOf(Exec(Idle(rows, [], []), ops)), key);
  }

  lemma AccountedIsUnique(s: State)
    requires Accounted(s)
    ensures UniqueReplies(s.rows)
  {
    forall key ensures Count(ReplyKeys(s.rows), key) <= 1 {
      assert Log.KeyBalanced(LedgerOf(s), key);
    }
    CountedOnceIsUnique(s.rows);
  }

  /** Operation `j` of the run is an answer for the job. */
  ghost predicate AnswersAt(s: State, ops: seq<Op>, j: nat, key: JobKey) {
    && j < |ops| && ops[j].Answer?
    && var before := Exec(s, ops[..j]);
       && ops[j].attempt in before.inFlight && before.inFlight[ops[j].attempt].Cleared?
       && KeyOf(before.inFlight[ops[j].attempt].job) == key
  }

  lemma StepKeepsReplies(s: State, op: Op, key: JobKey)
    requires key in ReplyKeys(s.rows)
    ensures key in ReplyKeys(Step(s, op).rows)
  {
    match op
    case Check(_, _, _) =>
    case Answer(_, _, _) =>
    case Save(a) =>
      if a in s.inFlight && s.inFlight[a].Answered? {
        ReplyKeysAppend(s.rows, ReplyMessage(s.inFlight[a].job, s.inFlight[a].reply, s.inFlight[a].chunkIds));
      }
    case Stop(_) =>
    case Post(m) => ReplyKeysAppend(s.rows, m.(jobId := None));
  }

  lemma {:induction false} RepliesStay(s: State, ops: seq<Op>, i: nat, key: JobKey)
    requires i <= |ops| && key in ReplyKeys(Exec(s, ops[..i]).rows)
    ensures key in ReplyKeys(Exec(s, ops).rows)
    decreases |ops|
  {
    if i < |ops| {
      var front, op := ops[..|ops| - 1], ops[|ops| - 1];
      assert front[..i] == ops[..i];
      RepliesStay(s, front, i, key);
      StepKeepsReplies(Exec(s, front), op, key);
    } else {
      assert ops[..i] == ops;
    }
  }

  /** Once the table holds a job's reply, the model never answers for that job again. */
  lemma NoAnswerOnceReplied(s: State, ops: seq<Op>, i: nat, j: nat, key: JobKey)
    requires Accounted(s) && Serial(s, ops)
    requires i <= j && j <= |ops| && key in ReplyKeys(Exec(s, ops[..i]).rows)
    ensures !AnswersAt(s, ops, j, key)
  {
    var front := ops[..j];
    assert forall k :: 0 <= k < j ==> front[..k] == ops[..k];
    assert front[..i] == ops[..i];
    RepliesStay(s, front, i, key);
    RunsAreAccounted(s, front);
    assert Log.KeyBalanced(LedgerOf(Exec(s, front)), key);
    WorkingIsBusy(Exec(s, front), key);
  }

  lemma {:induction false} ExecAppend(s: State, xs: seq<Op>, ys: seq<Op>)
    ensures Exec(s, xs + ys) == Exec(Exec(s, xs), ys)
  {
    if ys == [] {
      assert xs + ys == xs;
    } else {
      assert (xs + ys)[..|xs + ys| - 1] == xs + ys[..|ys| - 1];
      ExecAppend(s, xs, ys[..|ys| - 1]);
    }
  }

  lemma SerialAppend(s: State, xs: seq<Op>, ys: seq<Op>)
    requires Serial(s, xs) && Serial(Exec(s, xs), ys)
    ensures Serial(s, xs + ys)
  {
    forall i | 0 <= i < |xs + ys| && (xs + ys)[i].Check?
      ensures !Working(Exec(s, (xs + ys)[..i]), KeyOf((xs + ys)[i].job))
    {
      if i < |xs| {
        assert (xs + ys)[..i] == xs[..i];
      } else {
        assert (xs + ys)[..i] == xs + ys[..i - |xs|];
        ExecAppend(s, xs, ys[..i - |xs|]);
      }
    }
  }

  lemma ExecOne(s: State, op: Op)
    ensures Exec(s, [op]) == Step(s, op)
  {
    assert [op][..0] == [];
  }

  lemma ExecSnoc(s: State, ops: seq<Op>, op: Op)
    ensures Exec(s, ops + [op]) == Step(Exec(s, ops), op)
  {
    assert (ops + [op])[..|ops|] == ops;
  }

  lemma ExecSix(s: State, a: Op, b: Op, c: Op, d: Op, e: Op, f: Op)
    ensures Exec(s, [a] + [b] + [c] + [d] + [e] + [f]) == Step(Step(Step(Step(Step(Step(s, a), b), c), d), e), f)
  {
    ExecOne(s, a);
    ExecSnoc(s, [a], b);
    ExecSnoc(s, [a] + [b], c);
    ExecSnoc(s, [a] + [b] + [c], d);
    ExecSnoc(s, [a] + [b] + [c] + [d], e);
    ExecSnoc(s, [a] + [b] + [c] + [d] + [e], f);
  }

  /** Two attempts of one job that both pass the check before either has stored its reply. */
  ghost function Overlap(job: Job, table: Store.Table, x: Reply, y: Reply): seq<Op> {
    [Check(0, job, table)] + [Check(1, job, table)] + [Answer(0, x, [])] + [Answer(1, y, [])] + [Save(0)] + [Save(1)]
  }

  /** Both replies end up in the table. */
  lemma OverlapRepliesTwice(rows: seq<Message>, job: Job, table: Store.Table, x: Reply, y: Reply)
    requires Wanted(rows, table, job)
    ensures var end := Exec(Idle(rows, [], []), Overlap(job, table, x, y));
            && end.rows == rows + [ReplyMessage(job, x, []), ReplyMessage(job, y, [])]
            && !UniqueReplies(end.rows)
  {
    var key := KeyOf(job);
    ExecSix(Idle(rows, [], []), Check(0, job, table), Check(1, job, table),
            Answer(0, x, []), Answer(1, y, []), Save(0), Save(1));
    var s2 := State(rows, map[0 := Cleared(job), 1 := Cleared(job)], [], []);
    assert Step(Step(Idle(rows, [], []), Check(0, job, table)), Check(1, job, table)) == s2;
    var s4 := State(rows, map[0 := Answered(job, x, []), 1 := Answered(job, y, [])], [key, key], []);
    assert Step(Step(s2, Answer(0, x, [])), Answer(1, y, [])) == s4;
    BothSaved(rows, job, x, y);
  }

  lemma BothSaved(rows: seq<Message>, job: Job, x: Reply, y: Reply)
    ensures var key := KeyOf(job);
            var s := State(rows, map[0 := Answered(job, x, []), 1 := Answered(job, y, [])], [key, key], []);
            var end := Step(Step(s, Save(0)), Save(1)).rows;
            && end == rows + [ReplyMessage(job, x, []), ReplyMessage(job, y, [])]
            && !UniqueReplies(end)
  {
    var end := rows + [ReplyMessage(job, x, []), ReplyMessage(job, y, [])];
    assert end[|rows|] == ReplyMessage(job, x, []) && end[|rows| + 1] == ReplyMessage(job, y, []);
  }

  /** The steps by which an attempt finishes, with `reply` if it has no answer yet. */
  ghost function Finish(s: State, a: nat, reply: Reply): seq<Op>
    requires a in s.inFlight
  {
    (if s.inFlight[a].Cleared? then [Answer(a, reply, [])] else []) + [Save(a)]
  }

  /** Any attempt in flight can finish, which stores a reply and disturbs no other attempt. */
  lemma FinishReplies(s: State, a: nat, reply: Reply)
    requires a in s.inFlight
    ensures var key, end := KeyOf(s.inFlight[a].job), Exec(s, Finish(s, a, reply));
            ReplyKeys(end.rows) == ReplyKeys(s.rows) + [key] && end.inFlight == s.inFlight - {a}
  {
    var answered := if s.inFlight[a].Cleared? then Step(s, Answer(a, reply, [])) else s;
    if s.inFlight[a].Cleared? {
      ExecOne(s, Answer(a, reply, []));
      ExecSnoc(s, [Answer(a, reply, [])], Save(a));
    } else {
      assert Finish(s, a, reply) == [Save(a)];
      ExecOne(s, Save(a));
    }
    var t := answered.inFlight[a];
    ReplyKeysAppend(answered.rows, ReplyMessage(t.job, t.reply, t.chunkIds));
  }

  /** Every run from here on, if no further attempts of a job overlap, leaves the job with at most one reply. */
  ghost predicate SafeFor(s: State, key: JobKey) {
    forall ops :: Serial(s, ops) ==> Count(ReplyKeys(Exec(s, ops).rows), key) <= 1
  }

  lemma NoChecksSerial(s: State, ops: seq<Op>)
    requires forall i :: 0 <= i < |ops| ==> !ops[i].Check?
    ensures Serial(s, ops)
  {
  }

  lemma FinishBoth(s: State, a: nat, b: nat, reply: Reply) returns (ops: seq<Op>)
    requires a in s.inFlight && b in s.inFlight && a != b
    requires KeyOf(s.inFlight[a].job) == KeyOf(s.inFlight[b].job)
    ensures Serial(s, ops)
    ensures var key := KeyOf(s.inFlight[a].job); ReplyKeys(Exec(s, ops).rows) == ReplyKeys(s.rows) + [key] + [key]
  {
    var first := Finish(s, a, reply);
    FinishReplies(s, a, reply);
    var t := Exec(s, first);
    var second := Finish(t, b, reply);
    FinishReplies(t, b, reply);
    ExecAppend(s, first, second);
    ops := first + second;
    NoChecksSerial(s, ops);
  }

  lemma UnsafeBy(s: State, ops: seq<Op>, key: JobKey)
    requires Serial(s, ops) && Count(ReplyKeys(Exec(s, ops).rows), key) >= 2
    ensures !SafeFor(s, key)
  {
  }

  /** Two attempts of one job in flight can both store their replies, without any further attempt. */
  lemma TwoInFlightUnsafe(s: State, a: nat, b: nat)
    requires a in s.inFlight && b in s.inFlight && a != b
    requires KeyOf(s.inFlight[a].job) == KeyOf(s.inFlight[b].job)
    ensures !SafeFor(s, KeyOf(s.inFlight[a].job))
  {
    var ops := FinishBoth(s, a, b, Reply("", 0));
    Log.CountTwice(ReplyKeys(s.rows), KeyOf(s.inFlight[a].job));
    UnsafeBy(s, ops, KeyOf(s.inFlight[a].job));
  }

  /** Starting an attempt is safe exactly when no attempt of the job is in flight. */
  lemma StartIsSafeIff(s: State, a: nat, job: Job, table: Store.Table)
    requires Accounted(s) && a !in s.inFlight && Wanted(s.rows, table, job)
    ensures SafeFor(Step(s, Check(a, job, table)), KeyOf(job)) <==> !Working(s, KeyOf(job))
  {
    var t := Step(s, Check(a, job, table));
    if Working(s, KeyOf(job)) {
      var b :| b in s.inFlight && KeyOf(s.inFlight[b].job) == KeyOf(job);
      assert t.inFlight[b] == s.inFlight[b];
      TwoInFlightUnsafe(t, a, b);
    } else {
      StartStaysAccounted(s, a, job, table);
      forall ops | Serial(t, ops) ensures Count(ReplyKeys(Exec(t, ops).rows), KeyOf(job)) <= 1 {
        RunsAreAccounted(t, ops);
        assert Log.KeyBalanced(LedgerOf(Exec(t, ops)), KeyOf(job));
      }
    }
  }

  lemma StartStaysAccounted(s: State, a: nat, job: Job, table: Store.Table)
    requires Accounted(s) && !Working(s, KeyOf(job))
    ensures Accounted(Step(s, Check(a, job, table)))
  {
    StepIsEntry(s, Check(a, job, table));
    WorkingIsBusy(s, KeyOf(job));
    Log.StepKeepsBalance(LedgerOf(s), Log.Begin(a, KeyOf(job)));
  }

  /** A job that has its reply can get another one exactly while an attempt of it is in flight. */
  lemma RepliedAgainIff(s: State, key: JobKey)
    requires key in ReplyKeys(s.rows)
    ensures (exists ops :: Count(ReplyKeys(Exec(s, ops).rows), key) > Count(ReplyKeys(s.rows), key))
            <==> Working(s, key)
  {
    WorkingIsBusy(s, key);
    if Working(s, key) {
      var a :| a in s.inFlight && KeyOf(s.inFlight[a].job) == key;
      FinishReplies(s, a, Reply("", 0));
      Log.CountAppend(ReplyKeys(s.rows), key, key);
    } else {
      forall ops ensures Count(ReplyKeys(Exec(s, ops).rows), key) == Count(ReplyKeys(s.rows), key) {
        RunIsLedgerRun(s, ops);
        Log.NoRecordWithoutAttempt(LedgerOf(s), Entries(s, ops), key);
      }
    }
  }

  /** The steps of one attempt on its own: the check, perhaps an answer, and how it ended. */
  ghost function AttemptOps(job: Job, table: Store.Table, answer: Option<(Reply, seq<nat>)>, saved: bool): seq<Op> {
    [Check(0, job, table)]
    + (if answer.Some? then [Answer(0, answer.value.0, answer.value.1)] else [])
    + [if saved then Save(0) else Stop(0)]
  }

  /** What such an attempt leaves, whatever happened before. */
  lemma AttemptRun(rows: seq<Message>, answered: seq<JobKey>, unsaved: seq<JobKey>,
                   job: Job, table: Store.Table, answer: Option<(Reply, seq<nat>)>, saved: bool)
    requires answer.Some? ==> Wanted(rows, table, job)
    requires saved ==> answer.Some?
    ensures Serial(Idle(rows, answered, unsaved), AttemptOps(job, table, answer, saved))
    ensures Exec(Idle(rows, answered, unsaved), AttemptOps(job, table, answer, saved))
         == Idle(rows + (if saved then [ReplyMessage(job, answer.value.0, answer.value.1)] else []),
                 answered + (if answer.Some? then [KeyOf(job)] else []),
                 unsaved + (if answer.Some? && !saved then [KeyOf(job)] else []))
  {
    var s := Idle(rows, answered, unsaved);
    var ops := AttemptOps(job, table, answer, saved);
    var check := [Check(0, job, table)];
    var end := if saved then Save(0) else Stop(0);
    ExecOne(s, check[0]);
    assert ops[..0] == [];
    if answer.Some? {
      var act := Answer(0, answer.value.0, answer.value.1);
      assert ops == check + [act] + [end];
      ExecAppend(s, check, [act]);
      ExecOne(Exec(s, check), act);
      ExecAppend(s, check + [act], [end]);
      ExecOne(Exec(s, check + [act]), end);
    } else {
      assert ops == check + [end];
      ExecAppend(s, check, [end]);
      ExecOne(Exec(s, check), end);
    }
  }
}

/** Runs of tool jobs on the audit table: attempts for different keys interleave and may stop anywhere. */
module ToolProtocol {
  import opened Common
  import Store = SessionStore
  import Log = AtLeastOnce

  datatype Kind = Read | Draft | Write

  type Key = string

  datatype Job = Job(tenant: Store.Tenant, session: Store.Id, tool: string, key: Key, confidence: real)

  /** The registered tools, and the confidence below which a human is asked. */
  datatype Policy = Policy(tools: map<string, Kind>, threshold: real)

  predicate IsWrite(p: Policy, job: Job) {
    job.tool in p.tools && p.tools[job.tool].Write?
  }

  /** A write that the model is too unsure of to carry out. */
  predicate NeedsHuman(p: Policy, job: Job) {
    IsWrite(p, job) && job.confidence < p.threshold
  }

  /** A write that goes ahead if it has not been audited before. */
  predicate GoesAhead(p: Policy, job: Job) {
    IsWrite(p, job) && job.confidence >= p.threshold
  }

  /** Every write either goes ahead or needs a human, and more confidence never takes it back to a human. */
  lemma MoreConfidenceGoesAhead(p: Policy, job: Job, confidence: real)
    requires confidence >= job.confidence
    ensures GoesAhead(p, job) ==> GoesAhead(p, job.(confidence := confidence))
    ensures NeedsHuman(p, job.(confidence := confidence)) ==> NeedsHuman(p, job)
    ensures IsWrite(p, job) ==> (GoesAhead(p, job) <==> !NeedsHuman(p, job))
    ensures IsWrite(p, job) && job.confidence == p.threshold ==> GoesAhead(p, job)
  {
  }

  /** An attempt in flight: past the check, or past the execution. */
  datatype Stage = Cleared(job: Job) | Executed(job: Job)

  /** The audit table's keys, the attempts in flight, the executions and those that were never audited. */
  datatype State = State(audited: seq<Key>, inFlight: map<nat, Stage>, executed: seq<Key>, unaudited: seq<Key>)

  datatype Op =
    | Check(attempt: nat, job: Job)
    | Execute(attempt: nat)
    | Audit(attempt: nat)
    | Stop(attempt: nat)

  ghost function Step(p: Policy, s: State, op: Op): State {
    match op
    case Check(a, job) =>
      if a in s.inFlight || !GoesAhead(p, job) || job.key in s.audited then s
      else s.(inFlight := s.inFlight[a := Cleared(job)])
    case Execute(a) =>
      if a in s.inFlight && s.inFlight[a].Cleared? then
        var job := s.inFlight[a].job;
        s.(inFlight := s.inFlight[a := Executed(job)], executed := s.executed + [job.key])
      else s
    case Audit(a) =>
      if a in s.inFlight && s.inFlight[a].Executed? then
        s.(audited := s.audited + [s.inFlight[a].job.key], inFlight := s.inFlight - {a})
      else s
    case Stop(a) =>
      if a !in s.inFlight then s
      else s.(inFlight := s.inFlight - {a},
              unaudited := s.unaudited + if s.inFlight[a].Executed? then [s.inFlight[a].job.key] else [])
  }

  ghost function Exec(p: Policy, s: State, ops: seq<Op>): State {
    if ops == [] then s else Step(p, Exec(p, s, ops[..|ops| - 1]), ops[|ops| - 1])
  }

  ghost predicate Working(s: State, key: Key) {
    exists a :: a in s.inFlight && s.inFlight[a].job.key == key
  }

  /** No attempt begins while another attempt for the same key is in flight. */
  ghost predicate Serial(p: Policy, s: State, ops: seq<Op>) {
    forall i :: 0 <= i < |ops| && ops[i].Check? ==> !Working(Exec(p, s, ops[..i]), ops[i].job.key)
  }

  ghost function PhaseOf(t: Stage): Log.Phase<Key> {
    if t.Cleared? then Log.Cleared(t.job.key) else Log.Acted(t.job.key)
  }

  ghost function LedgerOf(s: State): Log.Ledger<Key> {
    Log.Ledger(map a | a in s.inFlight :: PhaseOf(s.inFlight[a]), s.executed, s.audited, s.unaudited)
  }

  /** What a step is in the ledger's terms, if it is anything. */
  ghost function Entry(p: Policy, op: Op): Option<Log.Op<Key>> {
    match op
    case Check(a, job) => if GoesAhead(p, job) then Some(Log.Begin(a, job.key)) else None
    case Execute(a) => Some(Log.Act(a))
    case Audit(a) => Some(Log.Record(a))
    case Stop(a) => Some(Log.Stop(a))
  }

  lemma StepIsEntry(p: Policy, s: State, op: Op)
    ensures LedgerOf(Step(p, s, op))
         == if Entry(p, op).Some? then Log.Step(LedgerOf(s), Entry(p, op).value) else LedgerOf(s)
  {
    match op
    case Check(_, _) =>
    case Execute(_) =>
    case Audit(_) =>
    case Stop(_) =>
  }

  lemma WorkingIsBusy(s: State, key: Key)
    ensures Working(s, key) <==> Log.Busy(LedgerOf(s), key)
  {
    var l := LedgerOf(s);
    assert forall a :: a in s.inFlight ==> l.inFlight[a].key == s.inFlight[a].job.key;
  }

  /**
   * Per key: executions are audit rows, plus executions of attempts that stopped before the audit write, plus
   * one still to be audited; audit rows are at most one.
   */
  ghost predicate Accounted(s: State) {
    Log.Balanced(LedgerOf(s))
  }

  /** A run in the ledger's terms. */
  ghost function Entries(p: Policy, ops: seq<Op>): seq<Log.Op<Key>> {
    if ops == [] then []
    else
      Log.Extended(Entries(p, ops[..|ops| - 1]), Entry(p, ops[|ops| - 1]))
  }

  lemma SerialFront(p: Policy, s: State, front: seq<Op>, op: Op)
    requires Serial(p, s, front + [op])
    ensures Serial(p, s, front)
    ensures op.Check? ==> !Working(Exec(p, s, front), op.job.key)
  {
    var ops := front + [op];
    assert ops[..|front|] == front && ops[|front|] == op;
    forall i | 0 <= i < |front| && front[i].Check? ensures !Working(Exec(p, s, front[..i]), front[i].job.key) {
      assert ops[..i] == front[..i] && ops[i] == front[i];
    }
  }

  lemma {:induction false} LedgerOfRun(p: Policy, s: State, ops: seq<Op>)
    ensures LedgerOf(Exec(p, s, ops)) == Log.Exec(LedgerOf(s), Entries(p, ops))
  {
    if ops != [] {
      var front := ops[..|ops| - 1];
      LedgerOfRun(p, s, front);
      StepIsEntry(p, Exec(p, s, front), ops[|ops| - 1]);
      Log.ExtendRun(LedgerOf(s), Entries(p, front), Entry(p, ops[|ops| - 1]));
    }
  }

  /** A check that overlaps with no attempt for its key begins one that overlaps with none in the accounts. */
  lemma EntryIsFree(p: Policy, s: State, op: Op)
    requires op.Check? ==> !Working(s, op.job.key)
    ensures var e := Entry(p, op); e.Some? && e.value.Begin? ==> !Log.Busy(LedgerOf(s), e.value.key)
  {
    if op.Check? {
      WorkingIsBusy(s, op.job.key);
    }
  }

  lemma {:induction false} SerialLedger(p: Policy, s: State, ops: seq<Op>)
    requires Serial(p, s, ops)
    ensures Log.Serial(LedgerOf(s), Entries(p, ops))
  {
    if ops != [] {
      var front, op := ops[..|ops| - 1], ops[|ops| - 1];
      assert ops == front + [op];
      SerialFront(p, s, front, op);
      SerialLedger(p, s, front);
      LedgerOfRun(p, s, front);
      EntryIsFree(p, Exec(p, s, front), op);
      Log.ExtendRun(LedgerOf(s), Entries(p, front), Entry(p, op));
    }
  }

  /** Runs on the tables are runs of the ledger, and serial runs are serial ones. */
  lemma RunIsLedgerRun(p: Policy, s: State, ops: seq<Op>)
    ensures LedgerOf(Exec(p, s, ops)) == Log.Exec(LedgerOf(s), Entries(p, ops))
    ensures Serial(p, s, ops) ==> Log.Serial(LedgerOf(s), Entries(p, ops))
  {
    LedgerOfRun(p, s, ops);
    if Serial(p, s, ops) {
      SerialLedger(p, s, ops);
    }
  }

  lemma RunsAreAccounted(p: Policy, s: State, ops: seq<Op>)
    requires Accounted(s) && Serial(p, s, ops)
    ensures Accounted(Exec(p, s, ops))
  {
    RunIsLedgerRun(p, s, ops);
    Log.SerialRunsBalance(LedgerOf(s), Entries(p, ops));
  }

  ghost function Idle(audited: seq<Key>, executed: seq<Key>, unaudited: seq<Key>): State {
    State(audited, map[], executed, unaudited)
  }

  lemma FreshIsAccounted()
    ensures Accounted(Idle([], [], []))
  {
    assert LedgerOf(Idle([], [], [])) == Log.Ledger(map[], [], [], []);
    Log.EmptyIsBalanced<Key>();
  }

  /** Over any interleaving in which attempts for one key do not overlap, from empty tables. */
  lemma ExecutionsAccounted(p: Policy, ops: seq<Op>, key: Key)
    requires Serial(p, Idle([], [], []), ops)
    ensures var s := Exec(p, Idle([], [], []), ops);
            && Count(s.audited, key) <= 1
            && Count(s.executed, key)
               == Count(s.audited, key) + Count(s.unaudited, key) + Log.Pending(LedgerOf(s), key)
  {
    FreshIsAccounted();
    RunsAreAccounted(p, Idle([], [], []), ops);
    assert Log.KeyBalanced(LedgerOf(Exec(p, Idle([], [], []), ops)), key);
  }

  /** Operation `j` of the run executes a tool under the key. */
  ghost predicate ExecutesAt(p: Policy, s: State, ops: seq<Op>, j: nat, key: Key) {
    && j < |ops| && ops[j].Execute?
    && var before := Exec(p, s, ops[..j]);
       && ops[j].attempt in before.inFlight && before.inFlight[ops[j].attempt].Cleared?
       && before.inFlight[ops[j].attempt].job.key == key
  }

  lemma {:induction false} AuditRowsStay(p: Policy, s: State, ops: seq<Op>, i: nat, key: Key)
    requires i <= |ops| && key in Exec(p, s, ops[..i]).audited
    ensures key in Exec(p, s, ops).audited
    decreases |ops|
  {
    if i < |ops| {
      var front := ops[..|ops| - 1];
      assert front[..i] == ops[..i];
      AuditRowsStay(p, s, front, i, key);
    } else {
      assert ops[..i] == ops;
    }
  }

  /** Once a key has its audit row, nothing is executed under it again. */
  lemma NoExecutionOnceAudited(p: Policy, s: State, ops: seq<Op>, i: nat, j: nat, key: Key)
    requires Accounted(s) && Serial(p, s, ops)
    requires i <= j && j <= |ops| && key in Exec(p, s, ops[..i]).audited
    ensures !ExecutesAt(p, s, ops, j, key)
  {
    var front := ops[..j];
    assert forall k :: 0 <= k < j ==> front[..k] == ops[..k];
    assert front[..i] == ops[..i];
    AuditRowsStay(p, s, front, i, key);
    RunsAreAccounted(p, s, front);
    assert Log.KeyBalanced(LedgerOf(Exec(p, s, front)), key);
    WorkingIsBusy(Exec(p, s, front), key);
  }

  lemma {:induction false} ExecAppend(p: Policy, s: State, xs: seq<Op>, ys: seq<Op>)
    ensures Exec(p, s, xs + ys) == Exec(p, Exec(p, s, xs), ys)
  {
    if ys == [] {
      assert xs + ys == xs;
    } else {
      assert (xs + ys)[..|xs + ys| - 1] == xs + ys[..|ys| - 1];
      ExecAppend(p, s, xs, ys[..|ys| - 1]);
    }
  }

  lemma SerialAppend(p: Policy, s: State, xs: seq<Op>, ys: seq<Op>)
    requires Serial(p, s, xs) && Serial(p, Exec(p, s, xs), ys)
    ensures Serial(p, s, xs + ys)
  {
    forall i | 0 <= i < |xs + ys| && (xs + ys)[i].Check?
      ensures !Working(Exec(p, s, (xs + ys)[..i]), (xs + ys)[i].job.key)
    {
      if i < |xs| {
        assert (xs + ys)[..i] == xs[..i];
      } else {
        assert (xs + ys)[..i] == xs + ys[..i - |xs|];
        ExecAppend(p, s, xs, ys[..i - |xs|]);
      }
    }
  }

  lemma ExecOne(p: Policy, s: State, op: Op)
    ensures Exec(p, s, [op]) == Step(p, s, op)
  {
    assert [op][..0] == [];
  }

  lemma ExecSnoc(p: Policy, s: State, ops: seq<Op>, op: Op)
    ensures Exec(p, s, ops + [op]) == Step(p, Exec(p, s, ops), op)
  {
    assert (ops + [op])[..|ops|] == ops;
  }

  /** The steps by which an attempt finishes. */
  ghost function Finish(s: State, a: nat): seq<Op>
    requires a in s.inFlight
  {
    (if s.inFlight[a].Cleared? then [Execute(a)] else []) + [Audit(a)]
  }

  /** Any attempt in flight can finish, which writes an audit row and disturbs no other attempt. */
  lemma FinishAudits(p: Policy, s: State, a: nat)
    requires a in s.inFlight
    ensures var key, end := s.inFlight[a].job.key, Exec(p, s, Finish(s, a));
            && end.audited == s.audited + [key]
            && end.executed == AppendIf(s.executed, s.inFlight[a].Cleared?, key)
            && end.inFlight == s.inFlight - {a}
  {
    if s.inFlight[a].Cleared? {
      ExecOne(p, s, Execute(a));
      ExecSnoc(p, s, [Execute(a)], Audit(a));
    } else {
      assert Finish(s, a) == [Audit(a)];
      ExecOne(p, s, Audit(a));
    }
  }

  /** Every run from here on, if no further attempts for a key overlap, leaves the key with at most one audit row. */
  ghost predicate SafeFor(p: Policy, s: State, key: Key) {
    forall ops :: Serial(p, s, ops) ==> Count(Exec(p, s, ops).audited, key) <= 1
  }

  lemma NoChecksSerial(p: Policy, s: State, ops: seq<Op>)
    requires forall i :: 0 <= i < |ops| ==> !ops[i].Check?
    ensures Serial(p, s, ops)
  {
  }

  lemma FinishBoth(p: Policy, s: State, a: nat, b: nat) returns (ops: seq<Op>)
    requires a in s.inFlight && b in s.inFlight && a != b
    requires s.inFlight[a].job.key == s.inFlight[b].job.key
    ensures Serial(p, s, ops)
    ensures var key := s.inFlight[a].job.key; Exec(p, s, ops).audited == s.audited + [key] + [key]
  {
    var first := Finish(s, a);
    FinishAudits(p, s, a);
    var t := Exec(p, s, first);
    var second := Finish(t, b);
    FinishAudits(p, t, b);
    ExecAppend(p, s, first, second);
    ops := first + second;
    NoChecksSerial(p, s, ops);
  }

  lemma UnsafeBy(p: Policy, s: State, ops: seq<Op>, key: Key)
    requires Serial(p, s, ops) && Count(Exec(p, s, ops).audited, key) >= 2
    ensures !SafeFor(p, s, key)
  {
  }

  /** Two attempts for one key in flight can both write their audit rows, without any further attempt. */
  lemma TwoInFlightUnsafe(p: Policy, s: State, a: nat, b: nat)
    requires a in s.inFlight && b in s.inFlight && a != b
    requires s.inFlight[a].job.key == s.inFlight[b].job.key
    ensures !SafeFor(p, s, s.inFlight[a].job.key)
  {
    var ops := FinishBoth(p, s, a, b);
    Log.CountTwice(s.audited, s.inFlight[a].job.key);
    UnsafeBy(p, s, ops, s.inFlight[a].job.key);
  }

  /** Starting an attempt is safe exactly when no attempt for the key is in flight. */
  lemma StartIsSafeIff(p: Policy, s: State, a: nat, job: Job)
    requires Accounted(s) && a !in s.inFlight && GoesAhead(p, job) && job.key !in s.audited
    ensures SafeFor(p, Step(p, s, Check(a, job)), job.key) <==> !Working(s, job.key)
  {
    var t := Step(p, s, Check(a, job));
    if Working(s, job.key) {
      var b :| b in s.inFlight && s.inFlight[b].job.key == job.key;
      assert t.inFlight[b] == s.inFlight[b];
      TwoInFlightUnsafe(p, t, a, b);
    } else {
      StartStaysAccounted(p, s, a, job);
      forall ops | Serial(p, t, ops) ensures Count(Exec(p, t, ops).audited, job.key) <= 1 {
        RunsAreAccounted(p, t, ops);
        assert Log.KeyBalanced(LedgerOf(Exec(p, t, ops)), job.key);
      }
    }
  }

  lemma StartStaysAccounted(p: Policy, s: State, a: nat, job: Job)
    requires Accounted(s) && !Working(s, job.key)
    ensures Accounted(Step(p, s, Check(a, job)))
  {
    StepIsEntry(p, s, Check(a, job));
    WorkingIsBusy(s, job.key);
    Log.StepKeepsBalance(LedgerOf(s), Log.Begin(a, job.key));
  }

  /** A key that has its audit row can get another one exactly while an attempt for it is in flight. */
  lemma AuditedAgainIff(p: Policy, s: State, key: Key)
    requires key in s.audited
    ensures (exists ops :: Count(Exec(p, s, ops).audited, key) > Count(s.audited, key)) <==> Working(s, key)
  {
    WorkingIsBusy(s, key);
    if Working(s, key) {
      var a :| a in s.inFlight && s.inFlight[a].job.key == key;
      FinishAudits(p, s, a);
      Log.CountAppend(s.audited, key, key);
    } else {
      forall ops ensures Count(Exec(p, s, ops).audited, key) == Count(s.audited, key) {
        RunIsLedgerRun(p, s, ops);
        Log.NoRecordWithoutAttempt(LedgerOf(s), Entries(p, ops), key);
      }
    }
  }

  /** Two attempts for one key that both pass the check before either is audited: the tool runs twice. */
  lemma OverlapExecutesTwice(p: Policy, job: Job)
    requires GoesAhead(p, job)
    ensures var ops := [Check(0, job)] + [Check(1, job)] + [Execute(0)] + [Execute(1)] + [Audit(0)] + [Audit(1)];
            Exec(p, Idle([], [], []), ops) == Idle([job.key, job.key], [job.key, job.key], [])
  {
    var s := Idle([], [], []);
    var checked := [Check(0, job)] + [Check(1, job)];
    var executed := checked + [Execute(0)] + [Execute(1)];
    ExecOne(p, s, Check(0, job));
    ExecSnoc(p, s, [Check(0, job)], Check(1, job));
    assert Exec(p, s, checked) == s.(inFlight := map[0 := Cleared(job), 1 := Cleared(job)]);
    ExecSnoc(p, s, checked, Execute(0));
    ExecSnoc(p, s, checked + [Execute(0)], Execute(1));
    assert Exec(p, s, executed) == s.(inFlight := map[0 := Executed(job), 1 := Executed(job)],
                                      executed := [job.key, job.key]);
    ExecSnoc(p, s, executed, Audit(0));
    ExecSnoc(p, s, executed + [Audit(0)], Audit(1));
  }

  /** The steps of one attempt on its own: the check, perhaps the execution, and how it ended. */
  ghost function AttemptOps(job: Job, acted: bool, audited: bool): seq<Op> {
    [Check(0, job)] + (if acted then [Execute(0)] else []) + [if audited then Audit(0) else Stop(0)]
  }

  /** What such an attempt leaves, whatever happened before. */
  lemma AttemptRun(p: Policy, audited: seq<Key>, executed: seq<Key>, unaudited: seq<Key>,
                   job: Job, acted: bool, recorded: bool)
    requires acted ==> GoesAhead(p, job) && job.key !in audited
    requires recorded ==> acted
    ensures Serial(p, Idle(audited, executed, unaudited), AttemptOps(job, acted, recorded))
    ensures Exec(p, Idle(audited, executed, unaudited), AttemptOps(job, acted, recorded))
         == Idle(AppendIf(audited, recorded, job.key),
                 AppendIf(executed, acted, job.key),
                 AppendIf(unaudited, acted && !recorded, job.key))
  {
    var s := Idle(audited, executed, unaudited);
    var ops := AttemptOps(job, acted, recorded);
    var check := [Check(0, job)];
    var end := if recorded then Audit(0) else Stop(0);
    ExecOne(p, s, check[0]);
    assert ops[..0] == [];
    if acted {
      assert ops == check + [Execute(0)] + [end];
      ExecAppend(p, s, check, [Execute(0)]);
      ExecOne(p, Exec(p, s, check), Execute(0));
      ExecAppend(p, s, check + [Execute(0)], [end]);
      ExecOne(p, Exec(p, s, check + [Execute(0)]), end);
    } else {
      assert ops == check + [end];
      ExecAppend(p, s, check, [end]);
      ExecOne(p, Exec(p, s, check), end);
    }
  }
}
