/** The broadcaster as a state machine: every lock-protected call and every receive is one step. */
module BroadcastModel {

  type SessionId = nat
  type ChannelId = nat
  type Message = string

  const CAPACITY := 16

  datatype Channel = Channel(session: SessionId, buffer: seq<Message>, closed: bool)

  /** `panicked` records a close of a closed channel or a send on one; nothing happens after that. */
  datatype Hub = Hub(subs: map<SessionId, set<ChannelId>>, chans: map<ChannelId, Channel>, panicked: bool)

  const START: Hub := Hub(map[], map[], false)

  datatype Op =
    | Subscribe(c: ChannelId, session: SessionId)
    | Publish(session: SessionId, msg: Message)
    | Receive(c: ChannelId)
    | Cancel(c: ChannelId)

  function Subscribers(subs: map<SessionId, set<ChannelId>>, s: SessionId): set<ChannelId> {
    if s in subs then subs[s] else {}
  }

  /** A non-blocking send: a full buffer loses the message. */
  function Offered(ch: Channel, msg: Message): Channel {
    if |ch.buffer| < CAPACITY then ch.(buffer := ch.buffer + [msg]) else ch
  }

  ghost function Step(h: Hub, op: Op): Hub {
    if h.panicked then h
    else
      match op
      case Subscribe(c, s) =>
        if c in h.chans then h
        else Hub(h.subs[s := Subscribers(h.subs, s) + {c}], h.chans[c := Channel(s, [], false)], false)
      case Publish(s, msg) =>
        var to := Subscribers(h.subs, s);
        if exists c :: c in to && c in h.chans && h.chans[c].closed then h.(panicked := true)
        else h.(chans := map c | c in h.chans :: if c in to then Offered(h.chans[c], msg) else h.chans[c])
      case Receive(c) =>
        if c in h.chans && h.chans[c].buffer != [] then
          h.(chans := h.chans[c := h.chans[c].(buffer := h.chans[c].buffer[1..])])
        else h
      case Cancel(c) =>
        if c !in h.chans then h
        else
          var s := h.chans[c].session;
          var left := Subscribers(h.subs, s) - {c};
          var subs := if left == {} then h.subs - {s} else h.subs[s := left];
          if h.chans[c].closed then h.(subs := subs, panicked := true)
          else h.(subs := subs, chans := h.chans[c := h.chans[c].(closed := true)])
  }

  ghost function Exec(ops: seq<Op>): Hub {
    if ops == [] then START else Step(Exec(ops[..|ops| - 1]), ops[|ops| - 1])
  }

  /** The registry lists exactly the open channels, under their own session, and no empty set. */
  ghost predicate Registered(h: Hub) {
    && (forall s :: s in h.subs ==> h.subs[s] != {})
    && (forall s, c :: s in h.subs && c in h.subs[s] ==>
          c in h.chans && h.chans[c].session == s && !h.chans[c].closed)
    && (forall c :: c in h.chans && !h.chans[c].closed ==> c in Subscribers(h.subs, h.chans[c].session))
    && (forall c :: c in h.chans ==> |h.chans[c].buffer| <= CAPACITY)
  }

  lemma CancelKeepsRegistered(h: Hub, c: ChannelId)
    requires Registered(h)
    ensures Registered(Step(h, Cancel(c)))
  {
    if c in h.chans && h.chans[c].closed {
      var s := h.chans[c].session;
      assert c !in Subscribers(h.subs, s);
    }
  }

  lemma StepKeepsRegistered(h: Hub, op: Op)
    requires Registered(h)
    ensures Registered(Step(h, op))
  {
    match op
    case Subscribe(_, _) =>
    case Publish(_, _) =>
    case Receive(_) =>
    case Cancel(c) => CancelKeepsRegistered(h, c);
  }

  lemma {:induction false} EveryRunIsRegistered(ops: seq<Op>)
    ensures Registered(Exec(ops))
  {
    if ops != [] {
      EveryRunIsRegistered(ops[..|ops| - 1]);
      StepKeepsRegistered(Exec(ops[..|ops| - 1]), ops[|ops| - 1]);
    }
  }

  /** Operation `i` cancels a channel that exists by then. */
  ghost predicate CancelsAt(ops: seq<Op>, i: nat, c: ChannelId) {
    i < |ops| && ops[i] == Cancel(c) && c in Exec(ops[..i]).chans
  }

  ghost predicate BothCancel(ops: seq<Op>, i: nat, j: nat, c: ChannelId) {
    i < j && CancelsAt(ops, i, c) && CancelsAt(ops, j, c)
  }

  ghost predicate CancelledTwice(ops: seq<Op>) {
    exists i: nat, j: nat, c :: BothCancel(ops, i, j, c)
  }

  lemma CancelsAtPrefix(ops: seq<Op>, n: nat, i: nat, c: ChannelId)
    requires i < n <= |ops|
    ensures CancelsAt(ops[..n], i, c) <==> CancelsAt(ops, i, c)
  {
    assert ops[..n][..i] == ops[..i];
  }

  lemma {:induction false} ChannelsRemain(ops: seq<Op>, i: nat, c: ChannelId)
    requires i <= |ops| && c in Exec(ops[..i]).chans
    ensures c in Exec(ops).chans
    decreases |ops|
  {
    if i < |ops| {
      var front := ops[..|ops| - 1];
      assert front[..i] == ops[..i];
      ChannelsRemain(front, i, c);
    } else {
      assert ops[..i] == ops;
    }
  }

  lemma StepClosesIffCancel(h: Hub, op: Op, c: ChannelId)
    requires !Step(h, op).panicked
    ensures c in h.chans ==> c in Step(h, op).chans
    ensures c in h.chans ==> (Step(h, op).chans[c].closed <==> h.chans[c].closed || op == Cancel(c))
    ensures c !in h.chans && c in Step(h, op).chans ==> op.Subscribe? && !Step(h, op).chans[c].closed
  {
  }

  /** Without a panic, a channel is closed exactly when it has been cancelled. */
  lemma {:induction false} ClosedIffCancelled(ops: seq<Op>, c: ChannelId)
    requires !Exec(ops).panicked
    ensures c in Exec(ops).chans ==>
              (Exec(ops).chans[c].closed <==> exists i: nat :: CancelsAt(ops, i, c))
    ensures c !in Exec(ops).chans ==> forall i: nat :: !CancelsAt(ops, i, c)
  {
    if ops != [] {
      var n := |ops| - 1;
      var front := ops[..n];
      ClosedIffCancelled(front, c);
      forall i: nat | i < n ensures CancelsAt(front, i, c) <==> CancelsAt(ops, i, c) {
        CancelsAtPrefix(ops, n, i, c);
      }
      assert CancelsAt(ops, n, c) <==> ops[n] == Cancel(c) && c in Exec(front).chans;
      StepClosesIffCancel(Exec(front), ops[n], c);
      if i: nat :| CancelsAt(front, i, c) {
        assert CancelsAt(ops, i, c) && front[..i] == ops[..i];
        ChannelsRemain(front, i, c);
      }
    }
  }

  lemma BothCancelPrefix(ops: seq<Op>, n: nat, i: nat, j: nat, c: ChannelId)
    requires i < j < n <= |ops|
    ensures BothCancel(ops[..n], i, j, c) <==> BothCancel(ops, i, j, c)
  {
    CancelsAtPrefix(ops, n, i, c);
    CancelsAtPrefix(ops, n, j, c);
  }

  /** The broadcaster panics exactly when some cancel function is called a second time. */
  lemma {:induction false} PanicsIffCancelledTwice(ops: seq<Op>)
    ensures Exec(ops).panicked <==> CancelledTwice(ops)
  {
    if ops != [] {
      PanicsIffCancelledTwice(ops[..|ops| - 1]);
      if Exec(ops).panicked {
        PanicIsSecondCancel(ops);
      }
      if CancelledTwice(ops) {
        TwiceMeansPanic(ops);
      }
    }
  }

  lemma TwiceMeansPanic(ops: seq<Op>)
    requires ops != [] && CancelledTwice(ops)
    requires CancelledTwice(ops[..|ops| - 1]) ==> Exec(ops[..|ops| - 1]).panicked
    ensures Exec(ops).panicked
  {
    var n := |ops| - 1;
    var i: nat, j: nat, c :| BothCancel(ops, i, j, c);
    if j < n {
      BothCancelPrefix(ops, n, i, j, c);
    } else {
      SecondCancelPanics(ops, i, c);
    }
  }

  lemma SecondCancelPanics(ops: seq<Op>, i: nat, c: ChannelId)
    requires i < |ops| - 1 && BothCancel(ops, i, |ops| - 1, c)
    ensures Exec(ops).panicked
  {
    var front := ops[..|ops| - 1];
    CancelsAtPrefix(ops, |ops| - 1, i, c);
    if !Exec(front).panicked {
      ClosedIffCancelled(front, c);
    }
  }

  /** Only a cancel of a closed channel panics, and that channel was closed by an earlier cancel. */
  lemma PanicIsSecondCancel(ops: seq<Op>)
    requires ops != [] && Exec(ops).panicked
    requires Exec(ops[..|ops| - 1]).panicked ==> CancelledTwice(ops[..|ops| - 1])
    ensures CancelledTwice(ops)
  {
    var n := |ops| - 1;
    var front := ops[..n];
    if Exec(front).panicked {
      var i: nat, j: nat, c :| BothCancel(front, i, j, c);
      BothCancelPrefix(ops, n, i, j, c);
    } else {
      EveryRunIsRegistered(front);
      PanickingStep(Exec(front), ops[n]);
      var c := ops[n].c;
      ClosedIffCancelled(front, c);
      var i: nat :| CancelsAt(front, i, c);
      CancelsAtPrefix(ops, n, i, c);
      assert BothCancel(ops, i, n, c);
    }
  }

  lemma PanickingStep(h: Hub, op: Op)
    requires Registered(h) && !h.panicked && Step(h, op).panicked
    ensures op.Cancel? && op.c in h.chans && h.chans[op.c].closed
  {
  }

  /** The shortest such run. */
  lemma SecondCancelExample(c: ChannelId, s: SessionId)
    ensures Exec([Subscribe(c, s), Cancel(c), Cancel(c)]).panicked
  {
    var ops := [Subscribe(c, s), Cancel(c), Cancel(c)];
    assert ops[..1] == [Subscribe(c, s)] && ops[..2] == [Subscribe(c, s), Cancel(c)];
    assert ops[..2][..1] == ops[..1] && ops[..1][..0] == [];
    assert Exec(ops[..1]) == Step(START, Subscribe(c, s));
    assert Exec(ops[..2]) == Step(Exec(ops[..1]), Cancel(c));
  }
}
