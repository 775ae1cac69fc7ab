/** Accounts of what each subscriber was sent, got and lost, over whole runs. */
module BroadcastLedger {
  import opened BroadcastModel

  ghost predicate Live(h: Hub, c: ChannelId) {
    !h.panicked && c in h.chans && !h.chans[c].closed
  }

  /** The operation publishes to the session of a channel that is subscribed. */
  ghost predicate Addresses(h: Hub, op: Op, c: ChannelId) {
    op.Publish? && Live(h, c) && h.chans[c].session == op.session
  }

  /** What was published to the channel's session while the channel was subscribed, in order. */
  ghost function Published(ops: seq<Op>, c: ChannelId): seq<Message> {
    if ops == [] then []
    else
      var front, op := ops[..|ops| - 1], ops[|ops| - 1];
      Published(front, c) + if Addresses(Exec(front), op, c) then [op.msg] else []
  }

  ghost function BufferOf(h: Hub, c: ChannelId): seq<Message> {
    if c in h.chans then h.chans[c].buffer else []
  }

  /** What the operation takes from the channel: its oldest message, for a receive that finds one. */
  ghost function Taken(h: Hub, op: Op, c: ChannelId): seq<Message> {
    if op == Receive(c) && !h.panicked && BufferOf(h, c) != [] then [BufferOf(h, c)[0]] else []
  }

  /** What the subscriber has taken from the channel, in order. */
  ghost function Received(ops: seq<Op>, c: ChannelId): seq<Message> {
    if ops == [] then []
    else
      var front, op := ops[..|ops| - 1], ops[|ops| - 1];
      Received(front, c) + Taken(Exec(front), op, c)
  }

  ghost function Buffered(ops: seq<Op>, c: ChannelId): seq<Message> {
    BufferOf(Exec(ops), c)
  }

  /** Received or waiting to be. */
  ghost function Accepted(ops: seq<Op>, c: ChannelId): seq<Message> {
    Received(ops, c) + Buffered(ops, c)
  }

  /** Published to the channel and yet not accepted at that step, in order. */
  ghost function Lost(ops: seq<Op>, c: ChannelId): seq<Message> {
    if ops == [] then []
    else
      var front, op := ops[..|ops| - 1], ops[|ops| - 1];
      Lost(front, c)
      + if Addresses(Exec(front), op, c) && Accepted(ops, c) == Accepted(front, c) then [op.msg] else []
  }

  /** The first sequence is obtained from the second by leaving elements out. */
  ghost predicate Subsequence<T>(a: seq<T>, b: seq<T>) {
    if a == [] then true
    else if b == [] then false
    else
      || Subsequence(a, b[..|b| - 1])
      || (a[|a| - 1] == b[|b| - 1] && Subsequence(a[..|a| - 1], b[..|b| - 1]))
  }

  lemma SubsequenceAppend<T>(a: seq<T>, b: seq<T>, x: T)
    requires Subsequence(a, b)
    ensures Subsequence(a + [x], b + [x]) && Subsequence(a, b + [x])
  {
    assert (a + [x])[..|a|] == a && (b + [x])[..|b|] == b;
  }

  /** One step moves messages into the buffer or out of it, and loses none that it held. */
  lemma BufferStep(h: Hub, op: Op, c: ChannelId)
    requires Registered(h)
    ensures Taken(h, op, c) + BufferOf(Step(h, op), c)
         == BufferOf(h, c) + if Addresses(h, op, c) && |BufferOf(h, c)| < CAPACITY then [op.msg] else []
  {
    var b := BufferOf(h, c);
    if Taken(h, op, c) != [] {
      assert b == [b[0]] + b[1..];
    } else if op.Publish? && !h.panicked && c in h.chans {
      assert c in Subscribers(h.subs, op.session) <==> Addresses(h, op, c);
    }
  }

  lemma Regroup<T>(r: seq<T>, t: seq<T>, after: seq<T>, before: seq<T>, more: seq<T>)
    requires t + after == before + more
    ensures (r + t) + after == (r + before) + more
  {
    assert (r + t) + after == r + (t + after);
  }

  /** How one step changes what a channel has accepted. */
  lemma AcceptedStep(ops: seq<Op>, c: ChannelId)
    requires ops != []
    ensures var front, op := ops[..|ops| - 1], ops[|ops| - 1];
            Accepted(ops, c) == Accepted(front, c)
              + if Addresses(Exec(front), op, c) && |Buffered(front, c)| < CAPACITY then [op.msg] else []
  {
    var front, op := ops[..|ops| - 1], ops[|ops| - 1];
    var h := Exec(front);
    EveryRunIsRegistered(front);
    BufferStep(h, op, c);
    var more := if Addresses(h, op, c) && |BufferOf(h, c)| < CAPACITY then [op.msg] else [];
    assert Received(ops, c) == Received(front, c) + Taken(h, op, c);
    assert Buffered(ops, c) == BufferOf(Step(h, op), c);
    Regroup(Received(front, c), Taken(h, op, c), BufferOf(Step(h, op), c), BufferOf(h, c), more);
  }

  /** `all` consists of the messages in `kept`, in order, and those in `lost`. */
  ghost predicate Splits(all: seq<Message>, kept: seq<Message>, lost: seq<Message>) {
    && Subsequence(kept, all)
    && multiset(all) == multiset(kept) + multiset(lost)
    && |all| == |kept| + |lost|
  }

  lemma SplitsAppend(all: seq<Message>, kept: seq<Message>, lost: seq<Message>, m: Message)
    requires Splits(all, kept, lost)
    ensures Splits(all + [m], kept + [m], lost) && Splits(all + [m], kept, lost + [m])
  {
    SubsequenceAppend(kept, all, m);
  }

  /**
   * In every run, what a subscriber has received or can still receive is an in-order subsequence of what
   * was published to its session while it was subscribed, and the rest was lost.
   */
  lemma {:induction false} LedgerBalances(ops: seq<Op>, c: ChannelId)
    ensures Splits(Published(ops, c), Accepted(ops, c), Lost(ops, c))
  {
    if ops != [] {
      var front, op := ops[..|ops| - 1], ops[|ops| - 1];
      LedgerBalances(front, c);
      SplitsAppend(Published(front, c), Accepted(front, c), Lost(front, c), if op.Publish? then op.msg else "");
      if Addresses(Exec(front), op, c) {
        LostStep(ops, c);
      } else {
        UnaddressedStep(ops, c);
      }
    }
  }

  lemma UnaddressedStep(ops: seq<Op>, c: ChannelId)
    requires ops != [] && !Addresses(Exec(ops[..|ops| - 1]), ops[|ops| - 1], c)
    ensures Published(ops, c) == Published(ops[..|ops| - 1], c)
    ensures Accepted(ops, c) == Accepted(ops[..|ops| - 1], c)
    ensures Lost(ops, c) == Lost(ops[..|ops| - 1], c)
  {
    AcceptedStep(ops, c);
    assert Accepted(ops[..|ops| - 1], c) + [] == Accepted(ops[..|ops| - 1], c);
    assert Published(ops[..|ops| - 1], c) + [] == Published(ops[..|ops| - 1], c);
    assert Lost(ops[..|ops| - 1], c) + [] == Lost(ops[..|ops| - 1], c);
  }

  lemma LostStep(ops: seq<Op>, c: ChannelId)
    requires ops != [] && Addresses(Exec(ops[..|ops| - 1]), ops[|ops| - 1], c)
    ensures var front, op := ops[..|ops| - 1], ops[|ops| - 1];
            if |Buffered(front, c)| < CAPACITY
            then Accepted(ops, c) == Accepted(front, c) + [op.msg] && Lost(ops, c) == Lost(front, c)
            else Accepted(ops, c) == Accepted(front, c) && Lost(ops, c) == Lost(front, c) + [op.msg]
  {
    AcceptedStep(ops, c);
    var front, op := ops[..|ops| - 1], ops[|ops| - 1];
    assert |Accepted(front, c) + [op.msg]| == |Accepted(front, c)| + 1;
  }

  /** A publication is lost on a subscriber exactly when it then has sixteen messages unread. */
  lemma LostIffFull(ops: seq<Op>, c: ChannelId)
    requires ops != [] && Addresses(Exec(ops[..|ops| - 1]), ops[|ops| - 1], c)
    ensures Lost(ops, c) != Lost(ops[..|ops| - 1], c) <==> |Buffered(ops[..|ops| - 1], c)| == CAPACITY
  {
    LostStep(ops, c);
    EveryRunIsRegistered(ops[..|ops| - 1]);
  }

  /** A subscription followed by publications to its session that nobody reads. */
  ghost function Unread(c: ChannelId, s: SessionId, msgs: seq<Message>): seq<Op> {
    if msgs == [] then [Subscribe(c, s)]
    else Unread(c, s, msgs[..|msgs| - 1]) + [Publish(s, msgs[|msgs| - 1])]
  }

  /** One subscriber of session `s` with this buffer, and nothing else. */
  ghost function Lone(c: ChannelId, s: SessionId, buffer: seq<Message>): Hub {
    Hub(map[s := {c}], map[c := Channel(s, buffer, false)], false)
  }

  lemma LonePublish(c: ChannelId, s: SessionId, buffer: seq<Message>, msg: Message)
    ensures Step(Lone(c, s, buffer), Publish(s, msg)) == Lone(c, s, Offered(Channel(s, buffer, false), msg).buffer)
  {
    var h := Lone(c, s, buffer);
    var after := Step(h, Publish(s, msg));
    assert after.chans.Keys == {c} && after.chans[c] == Offered(h.chans[c], msg);
    assert after.chans == map[c := Offered(h.chans[c], msg)];
  }

  /** The first sixteen messages. */
  function FirstSixteen(msgs: seq<Message>): seq<Message> {
    if |msgs| <= 16 then msgs else msgs[..16]
  }

  lemma OfferedKeepsSixteen(s: SessionId, front: seq<Message>, msg: Message)
    ensures Offered(Channel(s, FirstSixteen(front), false), msg).buffer == FirstSixteen(front + [msg])
  {
  }

  /** The first sixteen unread messages are kept, every further one is lost. */
  lemma {:induction false} SixteenAreKept(c: ChannelId, s: SessionId, msgs: seq<Message>)
    ensures Exec(Unread(c, s, msgs)) == Lone(c, s, FirstSixteen(msgs))
  {
    var ops := Unread(c, s, msgs);
    if msgs == [] {
      assert ops[..0] == [] && Exec(ops) == Step(START, Subscribe(c, s));
      assert Subscribers(START.subs, s) + {c} == {c};
      assert Exec(ops).subs == map[s := {c}];
      assert Exec(ops).chans == map[c := Channel(s, [], false)];
    } else {
      var front, msg := msgs[..|msgs| - 1], msgs[|msgs| - 1];
      SixteenAreKept(c, s, front);
      assert ops[..|ops| - 1] == Unread(c, s, front) && ops[|ops| - 1] == Publish(s, msg);
      LonePublish(c, s, FirstSixteen(front), msg);
      OfferedKeepsSixteen(s, front, msg);
      assert front + [msg] == msgs;
    }
  }

  /** The operation concerns session `s` in state `h`. */
  ghost predicate Concerns(h: Hub, op: Op, s: SessionId) {
    match op
    case Subscribe(c, t) => t == s && c !in h.chans
    case Publish(t, _) => t == s
    case Receive(c) => c in h.chans && h.chans[c].session == s
    case Cancel(c) => c in h.chans && h.chans[c].session == s
  }

  /** The run with every operation on other sessions left out. */
  ghost function Projected(ops: seq<Op>, s: SessionId): seq<Op> {
    if ops == [] then []
    else
      var front, op := ops[..|ops| - 1], ops[|ops| - 1];
      Projected(front, s) + if Concerns(Exec(front), op, s) then [op] else []
  }

  /** The states agree on session `s`, and the second knows no other session. */
  ghost predicate AgreeOn(h: Hub, h': Hub, s: SessionId) {
    && !h.panicked && !h'.panicked
    && Subscribers(h.subs, s) == Subscribers(h'.subs, s)
    && (forall c :: c in h'.chans <==> c in h.chans && h.chans[c].session == s)
    && (forall c :: c in h'.chans ==> h'.chans[c] == h.chans[c])
  }

  lemma PublishAgrees(h: Hub, h': Hub, t: SessionId, msg: Message, s: SessionId)
    requires AgreeOn(h, h', s) && Registered(h) && Registered(h')
    requires !Step(h, Publish(t, msg)).panicked
    ensures AgreeOn(Step(h, Publish(t, msg)), if t == s then Step(h', Publish(t, msg)) else h', s)
  {
    forall c | c in h'.chans ensures c in Subscribers(h.subs, t) ==> t == s && c in Subscribers(h'.subs, t) {
      assert h.chans[c].session == s;
    }
  }

  lemma ConcernedStepAgrees(h: Hub, h': Hub, op: Op, s: SessionId)
    requires AgreeOn(h, h', s) && Registered(h) && Registered(h')
    requires Concerns(h, op, s) && !Step(h, op).panicked
    ensures AgreeOn(Step(h, op), Step(h', op), s)
  {
    if op.Publish? {
      PublishAgrees(h, h', op.session, op.msg, s);
    }
  }

  lemma OtherStepAgrees(h: Hub, h': Hub, op: Op, s: SessionId)
    requires AgreeOn(h, h', s) && Registered(h) && Registered(h')
    requires !Concerns(h, op, s) && !Step(h, op).panicked
    ensures AgreeOn(Step(h, op), h', s)
  {
    if op.Publish? {
      PublishAgrees(h, h', op.session, op.msg, s);
    }
  }

  /** Other sessions have no effect: without their operations the session's channels are the same. */
  lemma {:induction false} SessionsAreIsolated(ops: seq<Op>, s: SessionId)
    requires !Exec(ops).panicked
    ensures AgreeOn(Exec(ops), Exec(Projected(ops, s)), s)
  {
    if ops != [] {
      var front, op := ops[..|ops| - 1], ops[|ops| - 1];
      SessionsAreIsolated(front, s);
      EveryRunIsRegistered(front);
      EveryRunIsRegistered(Projected(front, s));
      if Concerns(Exec(front), op, s) {
        ConcernedStepAgrees(Exec(front), Exec(Projected(front, s)), op, s);
        assert Projected(ops, s)[..|Projected(ops, s)| - 1] == Projected(front, s);
      } else {
        OtherStepAgrees(Exec(front), Exec(Projected(front, s)), op, s);
        assert Projected(ops, s) == Projected(front, s);
      }
    }
  }
}

/** The broadcaster with its map of sets of channels. */
module MemoryBroadcast {
  import opened Common
  import opened BroadcastModel

  /** A publication reaches open channels only, so it offers the message to every subscriber. */
  lemma PublishStep(h: Hub, session: SessionId, msg: Message)
    requires Registered(h) && !h.panicked
    ensures Registered(Step(h, BroadcastModel.Publish(session, msg)))
    ensures var to := Subscribers(h.subs, session);
            && to <= h.chans.Keys
            && Step(h, BroadcastModel.Publish(session, msg))
               == h.(chans := map c | c in h.chans :: if c in to then Offered(h.chans[c], msg) else h.chans[c])
  {
    StepKeepsRegistered(h, BroadcastModel.Publish(session, msg));
  }

  /** The loop over the subscribers, in any order. */
  method OfferAll(chans: map<ChannelId, Channel>, to: set<ChannelId>, msg: Message) returns (r: map<ChannelId, Channel>)
    requires to <= chans.Keys
    ensures r == map c | c in chans :: if c in to then Offered(chans[c], msg) else chans[c]
  {
    r := chans;
    var rest := to;
    while rest != {}
      invariant rest <= to && r.Keys == chans.Keys
      invariant forall c :: c in r ==> r[c] == if c in to - rest then Offered(chans[c], msg) else chans[c]
      decreases rest
    {
      var c :| c in rest;
      if |r[c].buffer| < CAPACITY {
        r := r[c := r[c].(buffer := r[c].buffer + [msg])];
      }
      rest := rest - {c};
    }
  }

  class MemoryBroadcaster {
    var subs: map<SessionId, set<ChannelId>>
    var chans: map<ChannelId, Channel>
    var panicked: bool

    constructor ()
      ensures View() == START
    {
      subs, chans, panicked := map[], map[], false;
    }

    ghost function View(): Hub
      reads this
    {
      Hub(subs, chans, panicked)
    }

    ghost predicate Valid()
      reads this
    {
      Registered(View()) && !panicked
    }

    method Publish(session: SessionId, msg: Message)
      requires Valid()
      modifies this`chans
      ensures Valid() && View() == Step(old(View()), BroadcastModel.Publish(session, msg))
    {
      PublishStep(View(), session, msg);
      chans := OfferAll(chans, if session in subs then subs[session] else {}, msg);
    }

    /** Opens a channel and registers it; `c` stands for the identity of the channel made. */
    method Subscribe(session: SessionId, c: ChannelId)
      requires Valid() && c !in chans
      modifies this
      ensures Valid() && View() == Step(old(View()), BroadcastModel.Subscribe(c, session))
    {
      StepKeepsRegistered(View(), BroadcastModel.Subscribe(c, session));
      ghost var before := View();
      if session !in subs {
        subs := subs[session := {}];
      }
      subs := subs[session := subs[session] + {c}];
      assert subs == before.subs[session := Subscribers(before.subs, session) + {c}];
      chans := chans[c := Channel(session, [], false)];
    }

    /** The cancel function of channel `c`; calling it again closes a closed channel. */
    method Cancel(c: ChannelId)
      requires Valid() && c in chans
      modifies this
      ensures View() == Step(old(View()), BroadcastModel.Cancel(c))
      ensures panicked <==> old(chans)[c].closed
      ensures !panicked ==> Valid()
    {
      StepKeepsRegistered(View(), BroadcastModel.Cancel(c));
      var session := chans[c].session;
      if session in subs {
        subs := subs[session := subs[session] - {c}];
      }
      if session !in subs || subs[session] == {} {
        subs := subs - {session};
      }
      if chans[c].closed {
        panicked := true;
        return;
      }
      chans := chans[c := chans[c].(closed := true)];
    }

    /** What the subscriber does: takes the oldest message, if there is one. */
    method Receive(c: ChannelId) returns (msg: Option<Message>)
      requires Valid() && c in chans
      modifies this`chans
      ensures Valid() && View() == Step(old(View()), BroadcastModel.Receive(c))
      ensures msg == if old(chans)[c].buffer == [] then None else Some(old(chans)[c].buffer[0])
    {
      StepKeepsRegistered(View(), BroadcastModel.Receive(c));
      if chans[c].buffer == [] {
        return None;
      }
      msg := Some(chans[c].buffer[0]);
      chans := chans[c := chans[c].(buffer := chans[c].buffer[1..])];
    }
  }
}
