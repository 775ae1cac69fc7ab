/** The worker that produces assistant replies. */
module ResponseWorker {
  import opened Common
  import Fsm = SessionFsm
  import Store = SessionStore
  import opened Messages
  import Regex
  import Sanitizer
  import opened ReplyProtocol

  /** One turn of the conversation as the model sees it. */
  datatype Turn = Turn(role: Role, content: string)

  datatype Context = Context(block: string, chunkIds: seq<nat>)

  /** How the systems around the worker behave during one attempt. */
  datatype World = World(
    checkFails: bool,
    sessionFails: bool,
    historyFails: bool,
    retrieve: Option<string -> Result<Context, string>>,
    prompt: Result<string, string>,
    generate: seq<Turn> -> Result<Reply, string>,
    saving: Writing)

  /** What happens to the tables between and during attempts that do not overlap. */
  datatype Event = Attempt(job: Job, world: World) | Posted(message: Message) | SessionsChange(table: Store.Table)

  const HISTORY_BUDGET := 4096

  /** Prompt and context, each if there is one. */
  ghost function Lead(prompt: string, context: string): seq<Turn> {
    (if prompt != "" then [Turn(System, prompt)] else [])
    + (if context != "" then [Turn(System, context)] else [])
  }

  /** The request: prompt and context first if there are any, then the window with user turns sanitized. */
  ghost function Request(prompt: string, context: string, window: seq<Message>): seq<Turn> {
    Lead(prompt, context) + Turns(window)
  }

  ghost function Turns(window: seq<Message>): seq<Turn> {
    seq(|window|, i requires 0 <= i < |window| => TurnOf(window[i]))
  }

  ghost function TurnOf(m: Message): Turn {
    Turn(m.role, if m.role.User? then Sanitizer.Sanitized(m.content) else m.content)
  }

  /** The request turn by turn. User turns without a match are the source text; others are clean, see below. */
  lemma RequestFields(prompt: string, context: string, window: seq<Message>)
    ensures var request := Request(prompt, context, window);
            var p, c := if prompt == "" then 0 else 1, if context == "" then 0 else 1;
            && |request| == p + c + |window|
            && (prompt != "" ==> request[0].role == System && request[0].content == prompt)
            && (context != "" ==> request[p].role == System && request[p].content == context)
    ensures forall i :: 0 <= i < |window| ==> TurnFits(window[i], TurnAfterLead(prompt, context, window, i))
  {
    forall i | 0 <= i < |window| ensures TurnFits(window[i], TurnAfterLead(prompt, context, window, i)) {
      TurnsAt(window, i);
      TurnFitsMessage(window[i]);
    }
  }

  /** The turn that stands for message `i` of the window. */
  ghost function TurnAfterLead(prompt: string, context: string, window: seq<Message>, i: nat): Turn
    requires i < |window|
  {
    var request := Request(prompt, context, window);
    request[|request| - |window| + i]
  }

  /** Same role; verbatim, unless it is a user message in which an expression matches. */
  ghost predicate TurnFits(m: Message, t: Turn) {
    && t.role == m.role
    && (!m.role.User? || !Sanitizer.Injected(m.content) ==> t.content == m.content)
  }

  lemma TurnFitsMessage(m: Message)
    ensures TurnFits(m, TurnOf(m))
  {
    if m.role.User? {
      Sanitizer.SanitizeFixesIff(m.content);
    }
  }

  lemma LeadHasNoUsers(prompt: string, context: string)
    ensures forall i :: 0 <= i < |Lead(prompt, context)| ==> Lead(prompt, context)[i].role == System
  {
  }

  /** A user turn of the request lies past the lead. */
  lemma PastLead(lead: seq<Turn>, turns: seq<Turn>, t: nat) returns (n: nat)
    requires t < |lead + turns| && (lead + turns)[t].role.User?
    requires forall i :: 0 <= i < |lead| ==> lead[i].role == System
    ensures n < |turns| && turns[n] == (lead + turns)[t]
  {
    n := t - |lead|;
  }

  lemma TurnsAt(window: seq<Message>, n: nat)
    requires n < |window|
    ensures Turns(window)[n] == TurnOf(window[n])
  {
  }

  lemma UserTurnIsClean(m: Message, k: nat, i: nat, j: nat)
    requires m.role.User? && k < 5
    ensures i <= j <= |TurnOf(m).content| ==> !Regex.Matches(Sanitizer.Expression(k), TurnOf(m).content[i..j])
  {
    Sanitizer.SanitizedIsClean(m.content, k, i, j);
  }

  /** No stretch of a user turn the model sees matches an injection pattern. */
  lemma UserTurnsAreClean(prompt: string, context: string, window: seq<Message>, t: Turn, k: nat, i: nat, j: nat)
    requires k < 5
    ensures t in Request(prompt, context, window) && t.role.User? && i <= j <= |t.content| ==>
              !Regex.Matches(Sanitizer.Expression(k), t.content[i..j])
  {
    if t in Request(prompt, context, window) && t.role.User? {
      LeadHasNoUsers(prompt, context);
      var p :| 0 <= p < |Request(prompt, context, window)| && Request(prompt, context, window)[p] == t;
      var n := PastLead(Lead(prompt, context), Turns(window), p);
      TurnsAt(window, n);
      UserTurnIsClean(window[n], k, i, j);
    }
  }

  /** The context retrieved for the newest user turn; none if there is nothing to ask or retrieval fails. */
  ghost function ContextFor(world: World, window: seq<Message>): Context {
    var query := NewestUserContent(window);
    if world.retrieve.Some? && query != "" && world.retrieve.value(query).Ok?
       && world.retrieve.value(query).value.chunkIds != []
    then world.retrieve.value(query).value
    else Context("", [])
  }

  /** The retriever is asked about the newest user turn, and only what it finds becomes context. */
  lemma ContextIs(world: World, window: seq<Message>, k: nat)
    requires k < |window| && window[k].role.User?
    requires forall i :: k < i < |window| ==> !window[i].role.User?
    ensures world.retrieve.None? || window[k].content == "" ==> ContextFor(world, window) == Context("", [])
    ensures world.retrieve.Some? && window[k].content != "" ==>
              match world.retrieve.value(window[k].content)
              case Err(_) => ContextFor(world, window) == Context("", [])
              case Ok(found) => ContextFor(world, window) == if found.chunkIds == [] then Context("", []) else found
  {
    NewestUserIs(window, k);
  }

  /** `asked` is the request for the window of the job's session, and `chunkIds` are its citations. */
  ghost predicate IsRequestFor(rows: seq<Message>, job: Job, world: World, asked: seq<Turn>, chunkIds: seq<nat>)
    requires world.prompt.Ok?
  {
    exists window ::
      && IsWindow(SessionHistory(rows, job.tenant, job.session), HISTORY_BUDGET, window)
      && asked == Request(world.prompt.value, ContextFor(world, window).block, window)
      && chunkIds == ContextFor(world, window).chunkIds
  }

  /** The request is determined by the stored messages and the world. */
  lemma RequestUnique(rows: seq<Message>, job: Job, world: World, a: seq<Turn>, b: seq<Turn>, m: seq<nat>, n: seq<nat>)
    requires world.prompt.Ok?
    requires IsRequestFor(rows, job, world, a, m) && IsRequestFor(rows, job, world, b, n)
    ensures a == b && m == n
  {
    var history := SessionHistory(rows, job.tenant, job.session);
    var v :| IsWindow(history, HISTORY_BUDGET, v)
             && a == Request(world.prompt.value, ContextFor(world, v).block, v) && m == ContextFor(world, v).chunkIds;
    var w :| IsWindow(history, HISTORY_BUDGET, w)
             && b == Request(world.prompt.value, ContextFor(world, w).block, w) && n == ContextFor(world, w).chunkIds;
    WindowUnique(history, HISTORY_BUDGET, v, w);
  }

  /** The window has four thousand and ninety-six tokens. */
  lemma WindowOf4096(rows: seq<Message>, job: Job, world: World, asked: seq<Turn>, chunkIds: seq<nat>)
    returns (window: seq<Message>)
    requires world.prompt.Ok? && IsRequestFor(rows, job, world, asked, chunkIds)
    ensures IsWindow(SessionHistory(rows, job.tenant, job.session), 4096, window)
    ensures asked == Request(world.prompt.value, ContextFor(world, window).block, window)
  {
    window :|
      && IsWindow(SessionHistory(rows, job.tenant, job.session), HISTORY_BUDGET, window)
      && asked == Request(world.prompt.value, ContextFor(world, window).block, window)
      && chunkIds == ContextFor(world, window).chunkIds;
  }

  lemma RequestFor(rows: seq<Message>, job: Job, world: World, window: seq<Message>)
    requires world.prompt.Ok?
    requires IsWindow(SessionHistory(rows, job.tenant, job.session), HISTORY_BUDGET, window)
    ensures var context := ContextFor(world, window);
            IsRequestFor(rows, job, world, Request(world.prompt.value, context.block, window), context.chunkIds)
  {
  }

  /** Nothing the worker reads before it asks the model fails. */
  predicate Readable(world: World) {
    !world.checkFails && !world.sessionFails && !world.historyFails && world.prompt.Ok?
  }

  class GenerateResponseWorker {
    const messages: MessageRepository
    const sessions: Store.SessionRepository

    constructor (messages: MessageRepository, sessions: Store.SessionRepository)
      ensures this.messages == messages && this.sessions == sessions
    {
      this.messages := messages;
      this.sessions := sessions;
    }

    method BuildTurns(window: seq<Message>) returns (turns: seq<Turn>)
      ensures turns == Turns(window)
    {
      turns := [];
      for i := 0 to |window|
        invariant |turns| == i && forall k :: 0 <= k < i ==> turns[k] == TurnOf(window[k])
      {
        var content := window[i].content;
        if window[i].role.User? {
          content := Sanitizer.SanitizeInput(content);
        }
        turns := turns + [Turn(window[i].role, content)];
      }
    }

    method BuildRequest(prompt: string, context: string, window: seq<Message>) returns (request: seq<Turn>)
      ensures request == Request(prompt, context, window)
    {
      request := [];
      if prompt != "" {
        request := request + [Turn(System, prompt)];
      }
      if context != "" {
        request := request + [Turn(System, context)];
      }
      var turns := BuildTurns(window);
      request := request + turns;
    }

    /** Asks the retriever about the newest user turn; failure to retrieve is not an error. */
    method RetrieveContext(window: seq<Message>, world: World) returns (context: Context)
      ensures context == ContextFor(world, window)
    {
      context := Context("", []);
      if world.retrieve.Some? {
        var query := LastUserMessage(window);
        if query != "" {
          var answer := world.retrieve.value(query);
          if answer.Ok? && answer.value.chunkIds != [] {
            context := answer.value;
          }
        }
      }
    }

    /** The checks made first; `done` is the answer if the attempt ends with them. */
    method CheckJob(job: Job, world: World) returns (done: Option<Result<(), string>>)
      ensures done.None? <==>
                Wanted(messages.rows, sessions.rows, job) && !world.checkFails && !world.sessionFails
      ensures done.Some? && done.value.Ok? <==>
                !world.checkFails
                && (Replied(messages.rows, job) || (!world.sessionFails && Ended(sessions.rows, job)))
    {
      ReplyKeysFind(messages.rows, job.tenant, job.id);
      if world.checkFails {
        return Some(Err("check"));
      }
      var existing := messages.GetByJobID(job.tenant, job.id);
      if existing.Some? {
        return Some(Ok(()));
      }
      if world.sessionFails {
        return Some(Err("session"));
      }
      var session := sessions.GetByID(job.tenant, job.session);
      if session.Err? {
        return Some(Err("session not found"));
      }
      if session.value.state == Fsm.Completed || session.value.state == Fsm.Expired {
        return Some(Ok(()));
      }
      return None;
    }

    /** What is put to the model. */
    method Prepare(job: Job, world: World) returns (r: Result<(seq<Turn>, seq<nat>), string>)
      ensures r.Ok? <==> !world.historyFails && world.prompt.Ok?
      ensures r.Ok? ==> IsRequestFor(messages.rows, job, world, r.value.0, r.value.1)
    {
      if world.historyFails {
        return Err("history");
      }
      var window := messages.ListForSession(job.tenant, job.session, HISTORY_BUDGET);
      var context := RetrieveContext(window, world);
      if world.prompt.Err? {
        return Err(world.prompt.error);
      }
      var request := BuildRequest(world.prompt.value, context.block, window);
      RequestFor(messages.rows, job, world, window);
      return Ok((request, context.chunkIds));
    }

    /**
     * One attempt. `asked` is the request sent to the model with the citations that go with it, if one was
     * sent; `acted` says whether the model answered, `recorded` whether the answer was stored.
     */
    method Work(job: Job, world: World)
      returns (r: Result<(), string>, ghost asked: Option<(seq<Turn>, seq<nat>)>,
               ghost acted: bool, ghost recorded: bool)
      modifies messages
      // The model is asked exactly when the job still needs its reply and the inputs can be read.
      ensures asked.Some? <==> Wanted(old(messages.rows), sessions.rows, job) && Readable(world)
      ensures asked.Some? ==> IsRequestFor(old(messages.rows), job, world, asked.value.0, asked.value.1)
      ensures acted <==> asked.Some? && world.generate(asked.value.0).Ok?
      ensures recorded <==> acted && !world.saving.Refused?
      // The only change is one assistant message with the job's key, the model's answer and its citations.
      ensures messages.rows ==
                old(messages.rows)
                + if recorded then [ReplyMessage(job, world.generate(asked.value.0).value, asked.value.1)] else []
      ensures recorded ==>
                var m, reply := messages.rows[|old(messages.rows)|], world.generate(asked.value.0).value;
                && m.session == job.session && m.tenant == job.tenant && m.role == Assistant
                && m.content == reply.content && m.tokenCount == Some(reply.tokens)
                && m.jobId == Some(job.id) && m.citations == asked.value.1
      ensures r.Ok? <==>
                || (recorded && world.saving.Written?)
                || (!world.checkFails
                    && (Replied(old(messages.rows), job) || (!world.sessionFails && Ended(sessions.rows, job))))
      // Whatever earlier attempts have answered and lost, the attempt is a run of the protocol.
      ensures forall answered, unsaved ::
                Exec(Idle(old(messages.rows), answered, unsaved),
                     AttemptOps(job, sessions.rows, AnswerOf(world, asked, acted), recorded))
                == Idle(messages.rows,
                        answered + (if acted then [KeyOf(job)] else []),
                        unsaved + (if acted && !recorded then [KeyOf(job)] else []))
    {
      asked, acted, recorded := None, false, false;
      ghost var start := messages.rows;
      var done := CheckJob(job, world);
      if done.Some? {
        AttemptRuns(start, job, sessions.rows, None, false);
        return done.value, asked, acted, recorded;
      }
      var prepared := Prepare(job, world);
      if prepared.Err? {
        AttemptRuns(start, job, sessions.rows, None, false);
        return Err(prepared.error), asked, acted, recorded;
      }
      asked := Some(prepared.value);
      var reply := world.generate(prepared.value.0);
      if reply.Err? {
        AttemptRuns(start, job, sessions.rows, None, false);
        return Err(reply.error), asked, acted, recorded;
      }
      acted, recorded := true, !world.saving.Refused?;
      var ok := messages.Create(job.tenant, ReplyMessage(job, reply.value, prepared.value.1), world.saving);
      AttemptRuns(start, job, sessions.rows, AnswerOf(world, asked, acted), recorded);
      return if ok then Ok(()) else Err("save"), asked, acted, recorded;
    }

    /**
     * The job queue among other events: attempts of any jobs, each as often as it likes, messages of other
     * origin, and changes to the sessions. `steps` is the run of the protocol the events amount to.
     */
    method Serve(events: seq<Event>)
      returns (ghost steps: seq<Op>, ghost answered: seq<JobKey>, ghost unsaved: seq<JobKey>)
      requires ReplyKeys(messages.rows) == []
      modifies messages, sessions
      ensures Serial(Idle(old(messages.rows), [], []), steps)
      ensures Exec(Idle(old(messages.rows), [], []), steps) == Idle(messages.rows, answered, unsaved)
      ensures UniqueReplies(messages.rows)
      ensures forall key :: Count(answered, key) == Count(ReplyKeys(messages.rows), key) + Count(unsaved, key)
    {
      steps, answered, unsaved := [], [], [];
      ghost var start := Idle(messages.rows, [], []);
      for i := 0 to |events|
        invariant Serial(start, steps) && Exec(start, steps) == Idle(messages.rows, answered, unsaved)
      {
        ghost var more;
        more, answered, unsaved := Handle(events[i], answered, unsaved);
        SerialAppend(start, steps, more);
        ExecAppend(start, steps, more);
        steps := steps + more;
      }
      AtMostOneReply(old(messages.rows), steps);
      forall key ensures Count(answered, key) == Count(ReplyKeys(messages.rows), key) + Count(unsaved, key) {
        AnswersAccounted(old(messages.rows), steps, key);
      }
    }

    /** One event, as a serial run of the protocol from the tables before it to the tables after it. */
    method Handle(e: Event, ghost answered: seq<JobKey>, ghost unsaved: seq<JobKey>)
      returns (ghost steps: seq<Op>, ghost answered': seq<JobKey>, ghost unsaved': seq<JobKey>)
      modifies messages, sessions
      ensures Serial(Idle(old(messages.rows), answered, unsaved), steps)
      ensures Exec(Idle(old(messages.rows), answered, unsaved), steps) == Idle(messages.rows, answered', unsaved')
    {
      steps, answered', unsaved' := [], answered, unsaved;
      ghost var start := Idle(messages.rows, answered, unsaved);
      match e
      case SessionsChange(table) =>
        sessions.rows := table;
      case Posted(m) =>
        var _ := messages.Create(m.tenant, m.(jobId := None), Written);
        steps := [Post(m)];
        ExecOne(start, Post(m));
      case Attempt(job, world) =>
        var r, asked, acted, recorded := Work(job, world);
        ghost var answer := AnswerOf(world, asked, acted);
        steps := AttemptOps(job, sessions.rows, answer, recorded);
        AttemptRun(start.rows, answered, unsaved, job, sessions.rows, answer, recorded);
        answered' := answered + (if acted then [KeyOf(job)] else []);
        unsaved' := unsaved + (if acted && !recorded then [KeyOf(job)] else []);
    }
  }

  /** The model's answer in an attempt, with its citations. */
  ghost function AnswerOf(world: World, asked: Option<(seq<Turn>, seq<nat>)>, acted: bool): Option<(Reply, seq<nat>)>
    requires acted ==> asked.Some? && world.generate(asked.value.0).Ok?
  {
    if acted then Some((world.generate(asked.value.0).value, asked.value.1)) else None
  }

  lemma AttemptRuns(rows: seq<Message>, job: Job, table: Store.Table, answer: Option<(Reply, seq<nat>)>, saved: bool)
    requires answer.Some? ==> Wanted(rows, table, job)
    requires saved ==> answer.Some?
    ensures forall answered, unsaved ::
              Exec(Idle(rows, answered, unsaved), AttemptOps(job, table, answer, saved))
              == Idle(rows + (if saved then [ReplyMessage(job, answer.value.0, answer.value.1)] else []),
                      answered + (if answer.Some? then [KeyOf(job)] else []),
                      unsaved + (if answer.Some? && !saved then [KeyOf(job)] else []))
  {
    forall answered, unsaved
      ensures Exec(Idle(rows, answered, unsaved), AttemptOps(job, table, answer, saved))
              == Idle(rows + (if saved then [ReplyMessage(job, answer.value.0, answer.value.1)] else []),
                      answered + (if answer.Some? then [KeyOf(job)] else []),
                      unsaved + (if answer.Some? && !saved then [KeyOf(job)] else []))
    {
      AttemptRun(rows, answered, unsaved, job, table, answer, saved);
    }
  }
}

/** The worker that executes tools. */
module ToolWorker {
  import opened Common
  import Fsm = SessionFsm
  import Store = SessionStore
  import opened ToolProtocol

  datatype WorkError = UnknownTool | Failed(step: string) | Session(error: Store.SessionError)

  /** How the systems around the worker behave during one attempt; `dies` stops it right after a success. */
  datatype World = World(checkFails: bool, execute: Result<string, string>, dies: bool, logging: Writing)

  /** The audit table's keys, and the keys under which a write tool was carried out. */
  class Outside {
    var audited: seq<Key>
    var executed: seq<Key>

    constructor ()
      ensures audited == [] && executed == []
    {
      audited, executed := [], [];
    }
  }

  class ExecuteToolWorker {
    const policy: Policy
    const outside: Outside
    const sessions: Store.SessionRepository

    constructor (policy: Policy, outside: Outside, sessions: Store.SessionRepository)
      ensures this.policy == policy && this.outside == outside && this.sessions == sessions
    {
      this.policy, this.outside, this.sessions := policy, outside, sessions;
    }

    /** Low confidence in a write tool: the session waits for a human and nothing is executed. */
    method Escalate(job: Job) returns (r: Result<(), WorkError>)
      modifies sessions
      ensures (sessions.rows, r) == Escalation(old(sessions.rows), job)
    {
      var s := sessions.GetByID(job.tenant, job.session);
      if s.Err? {
        return Err(Session(s.error));
      }
      var answer :=
        sessions.Transition(job.tenant, job.session, s.value.state, Fsm.WaitingForHuman, s.value.version);
      if answer.Err? && answer.error != Store.OptimisticLock {
        return Err(Session(answer.error));
      }
      return Ok(());
    }

    /** One attempt; `acted` says whether a write tool was carried out, `recorded` whether it was audited. */
    method Work(job: Job, world: World) returns (r: Result<(), WorkError>, ghost acted: bool, ghost recorded: bool)
      modifies outside, sessions
      // The session changes only for a write that needs a human, and then nothing is executed.
      ensures NeedsHuman(policy, job) ==> (sessions.rows, r) == Escalation(old(sessions.rows), job)
      ensures !NeedsHuman(policy, job) ==> sessions.rows == old(sessions.rows)
      // In particular: only registered writes of enough confidence run, and the others park an active session.
      ensures acted ==>
                job.tool in policy.tools && policy.tools[job.tool] == Write && job.confidence >= policy.threshold
      ensures job.tool in policy.tools && policy.tools[job.tool] == Write && job.confidence < policy.threshold ==>
                && outside.executed == old(outside.executed) && outside.audited == old(outside.audited)
                && (ActiveSession(old(sessions.rows), job) ==>
                      r == Ok(()) && sessions.rows.Keys == old(sessions.rows).Keys
                      && sessions.rows[job.session].state == Fsm.WaitingForHuman
                      && sessions.rows[job.session].version == old(sessions.rows)[job.session].version + 1)
      // A write runs exactly when it goes ahead and its key has no audit row.
      ensures acted <==>
                GoesAhead(policy, job) && job.key !in old(outside.audited) && !world.checkFails && world.execute.Ok?
      ensures recorded <==> acted && !world.dies && !world.logging.Refused?
      ensures GoesAhead(policy, job) ==>
                (r.Ok? <==> (recorded && world.logging.Written?)
                            || (!world.checkFails && job.key in old(outside.audited)))
      ensures !IsWrite(policy, job) ==> (r.Ok? <==> job.tool in policy.tools && world.execute.Ok?)
      // Whatever earlier attempts have left without an audit row, the attempt is a run of the protocol.
      ensures forall unaudited ::
                Exec(policy, Idle(old(outside.audited), old(outside.executed), unaudited),
                     AttemptOps(job, acted, recorded))
                == Idle(outside.audited, outside.executed, AppendIf(unaudited, acted && !recorded, job.key))
      ensures outside.executed == AppendIf(old(outside.executed), acted, job.key)
      ensures outside.audited == AppendIf(old(outside.audited), recorded, job.key)
    {
      acted, recorded := false, false;
      if !GoesAhead(policy, job) {
        AttemptRuns(policy, outside.audited, outside.executed, job, false, false);
      }
      if job.tool !in policy.tools {
        return Err(UnknownTool), acted, recorded;
      }
      var kind := policy.tools[job.tool];
      if kind != Write {
        if world.execute.Err? {
          return Err(Failed(world.execute.error)), acted, recorded;
        }
        return Ok(()), acted, recorded;
      }
      if job.confidence < policy.threshold {
        if ActiveSession(sessions.rows, job) {
          EscalationParksActive(sessions.rows, job);
        }
        r := Escalate(job);
        return r, acted, recorded;
      }
      r, acted, recorded := RunWrite(job, world);
    }

    /** A write that goes ahead: is it audited, execute it, audit it. */
    method RunWrite(job: Job, world: World) returns (r: Result<(), WorkError>, ghost acted: bool, ghost recorded: bool)
      requires GoesAhead(policy, job)
      modifies outside
      ensures acted <==> job.key !in old(outside.audited) && !world.checkFails && world.execute.Ok?
      ensures recorded <==> acted && !world.dies && !world.logging.Refused?
      ensures outside.executed == AppendIf(old(outside.executed), acted, job.key)
      ensures outside.audited == AppendIf(old(outside.audited), recorded, job.key)
      ensures r.Ok? <==> (recorded && world.logging.Written?) || (!world.checkFails && job.key in old(outside.audited))
      ensures forall unaudited ::
                Exec(policy, Idle(old(outside.audited), old(outside.executed), unaudited),
                     AttemptOps(job, acted, recorded))
                == Idle(outside.audited, outside.executed, AppendIf(unaudited, acted && !recorded, job.key))
    {
      acted := job.key !in outside.audited && !world.checkFails && world.execute.Ok?;
      recorded := acted && !world.dies && !world.logging.Refused?;
      AttemptRuns(policy, outside.audited, outside.executed, job, acted, recorded);
      if world.checkFails {
        return Err(Failed("check")), acted, recorded;
      }
      if job.key in outside.audited {
        return Ok(()), acted, recorded;
      }
      if world.execute.Err? {
        return Err(Failed(world.execute.error)), acted, recorded;
      }
      outside.executed := outside.executed + [job.key];
      if world.dies || world.logging.Refused? {
        return Err(Failed("audit")), acted, recorded;
      }
      outside.audited := outside.audited + [job.key];
      return if world.logging.Written? then Ok(()) else Err(Failed("audit")), acted, recorded;
    }

    /**
     * The job queue: attempts one after the other, for any keys, each as often as it likes. `steps` is the run of
     * the protocol they amount to; `unaudited` lists the keys of executions whose audit row was never written.
     */
    method Serve(queue: seq<(Job, World)>) returns (ghost steps: seq<Op>, ghost unaudited: seq<Key>)
      requires outside.audited == [] && outside.executed == []
      modifies outside, sessions
      ensures Serial(policy, Idle([], [], []), steps)
      ensures Exec(policy, Idle([], [], []), steps) == Idle(outside.audited, outside.executed, unaudited)
      ensures forall key ::
                && Count(outside.audited, key) <= 1
                && Count(outside.executed, key) == Count(outside.audited, key) + Count(unaudited, key)
    {
      steps, unaudited := [], [];
      ghost var start := Idle([], [], []);
      for i := 0 to |queue|
        invariant Serial(policy, start, steps)
        invariant Exec(policy, start, steps) == Idle(outside.audited, outside.executed, unaudited)
      {
        ghost var audited, executed := outside.audited, outside.executed;
        var job, world := queue[i].0, queue[i].1;
        var r, acted, recorded := Work(job, world);
        ghost var attempt := AttemptOps(job, acted, recorded);
        AttemptRun(policy, audited, executed, unaudited, job, acted, recorded);
        SerialAppend(policy, start, steps, attempt);
        ExecAppend(policy, start, steps, attempt);
        steps := steps + attempt;
        unaudited := AppendIf(unaudited, acted && !recorded, job.key);
      }
      forall key
        ensures Count(outside.audited, key) <= 1
        ensures Count(outside.executed, key) == Count(outside.audited, key) + Count(unaudited, key)
      {
        ExecutionsAccounted(policy, steps, key);
      }
    }
  }

  lemma AttemptRuns(p: Policy, audited: seq<Key>, executed: seq<Key>, job: Job, acted: bool, recorded: bool)
    requires acted ==> GoesAhead(p, job) && job.key !in audited
    requires recorded ==> acted
    ensures forall unaudited ::
              Exec(p, Idle(audited, executed, unaudited), AttemptOps(job, acted, recorded))
              == Idle(AppendIf(audited, recorded, job.key),
                      AppendIf(executed, acted, job.key),
                      AppendIf(unaudited, acted && !recorded, job.key))
  {
    forall unaudited
      ensures Exec(p, Idle(audited, executed, unaudited), AttemptOps(job, acted, recorded))
              == Idle(AppendIf(audited, recorded, job.key),
                      AppendIf(executed, acted, job.key),
                      AppendIf(unaudited, acted && !recorded, job.key))
    {
      AttemptRun(p, audited, executed, unaudited, job, acted, recorded);
    }
  }

  ghost predicate ActiveSession(table: Store.Table, job: Job) {
    job.session in table && table[job.session].tenant == job.tenant && table[job.session].state == Fsm.Active
  }

  /** The session table after asking for a human, and the answer; losing the race for the row is no error. */
  function Escalation(table: Store.Table, job: Job): (Store.Table, Result<(), WorkError>) {
    if !(job.session in table && table[job.session].tenant == job.tenant) then (table, Err(Session(Store.NotFound)))
    else
      var s := table[job.session];
      var (rows, answer) := Store.Updated(table, job.tenant, job.session, s.state, Fsm.WaitingForHuman, s.version);
      (rows, if answer.Err? && answer.error != Store.OptimisticLock then Err(Session(answer.error)) else Ok(()))
  }

  /**
   * A session that is there is left waiting for a human exactly if it was active; in any other state
   * it keeps its row and the job is told that the transition is not allowed.
   */
  lemma EscalationParksActive(table: Store.Table, job: Job)
    requires job.session in table && table[job.session].tenant == job.tenant
    ensures var s := table[job.session];
            var (rows, r) := Escalation(table, job);
            if s.state.Active?
            then r == Ok(())
                 && rows == table[job.session := s.(state := Fsm.WaitingForHuman, version := s.version + 1)]
            else rows == table && r == Err(Session(Store.InvalidTransition(s.state, Fsm.WaitingForHuman)))
  {
    Fsm.TransitionTable(table[job.session].state, Fsm.WaitingForHuman);
    assert Fsm.Allowed(Fsm.Active, Fsm.WaitingForHuman);
  }
}
