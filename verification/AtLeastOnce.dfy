/**
 * The pattern both job workers follow: check for a record, act, write the record. Attempts may stop
 * anywhere and be retried; attempts for different keys interleave freely.
 */
module AtLeastOnce {
  import opened Common

  /** An attempt in flight: past the check, or past the action as well. */
  datatype Phase<K> = Cleared(key: K) | Acted(key: K)

  datatype Op<K> =
    | Begin(attempt: nat, key: K)
    | Act(attempt: nat)
    | Record(attempt: nat)
    | Stop(attempt: nat)

  /** `acts` and `records` list what happened, in order; `lost` lists actions whose record was never written. */
  datatype Ledger<K> = Ledger(inFlight: map<nat, Phase<K>>, acts: seq<K>, records: seq<K>, lost: seq<K>)

  ghost function Step<K>(l: Ledger<K>, op: Op<K>): Ledger<K> {
    match op
    case Begin(a, k) =>
      if a in l.inFlight || k in l.records then l else l.(inFlight := l.inFlight[a := Cleared(k)])
    case Act(a) =>
      if a in l.inFlight && l.inFlight[a].Cleared? then
        var k := l.inFlight[a].key;
        l.(inFlight := l.inFlight[a := Acted(k)], acts := l.acts + [k])
      else l
    case Record(a) =>
      if a in l.inFlight && l.inFlight[a].Acted? then
        l.(inFlight := l.inFlight - {a}, records := l.records + [l.inFlight[a].key])
      else l
    case Stop(a) =>
      if a !in l.inFlight then l
      else l.(inFlight := l.inFlight - {a},
              lost := l.lost + if l.inFlight[a].Acted? then [l.inFlight[a].key] else [])
  }

  ghost function Exec<K>(l: Ledger<K>, ops: seq<Op<K>>): Ledger<K> {
    if ops == [] then l else Step(Exec(l, ops[..|ops| - 1]), ops[|ops| - 1])
  }

  ghost predicate Busy<K>(l: Ledger<K>, k: K) {
    exists a :: a in l.inFlight && l.inFlight[a].key == k
  }

  /** No attempt begins while another attempt for the same key is in flight. */
  ghost predicate Serial<K>(l: Ledger<K>, ops: seq<Op<K>>) {
    forall i :: 0 <= i < |ops| && ops[i].Begin? ==> !Busy(Exec(l, ops[..i]), ops[i].key)
  }

  /** One if an attempt for the key has acted and not yet recorded. */
  ghost function Pending<K>(l: Ledger<K>, k: K): nat {
    if exists a :: a in l.inFlight && l.inFlight[a] == Acted(k) then 1 else 0
  }

  ghost predicate KeyBalanced<K>(l: Ledger<K>, k: K) {
    && Count(l.acts, k) == Count(l.records, k) + Count(l.lost, k) + Pending(l, k)
    && Count(l.records, k) <= 1
    && (k in l.records ==> !Busy(l, k))
  }

  ghost predicate Balanced<K(!new)>(l: Ledger<K>) {
    && (forall a, b :: a in l.inFlight && b in l.inFlight && a != b ==> l.inFlight[a].key != l.inFlight[b].key)
    && forall k :: KeyBalanced(l, k)
  }

  const EMPTY: Ledger<string> := Ledger(map[], [], [], [])

  lemma CountAppend<K>(s: seq<K>, x: K, k: K)
    ensures Count(s + [x], k) == Count(s, k) + if x == k then 1 else 0
  {
    assert (s + [x])[..|s|] == s;
  }

  lemma CountTwice<K>(s: seq<K>, k: K)
    ensures Count(s + [k] + [k], k) >= 2
  {
    CountAppend(s, k, k);
    CountAppend(s + [k], k, k);
  }

  lemma {:induction false} CountZeroIff<K>(s: seq<K>, k: K)
    ensures Count(s, k) == 0 <==> k !in s
  {
    if s != [] {
      CountZeroIff(s[..|s| - 1], k);
      assert s == s[..|s| - 1] + [s[|s| - 1]];
    }
  }

  /** Where every account starts: nothing in flight and nothing done. */
  lemma EmptyIsBalanced<K(!new)>()
    ensures Balanced<K>(Ledger(map[], [], [], []))
  {
    forall k: K ensures KeyBalanced<K>(Ledger(map[], [], [], []), k) {
    }
  }

  /** An attempt in flight is the only one for its key, so it alone decides what is pending. */
  lemma SoleAttempt<K(!new)>(l: Ledger<K>, a: nat)
    requires Balanced(l) && a in l.inFlight
    ensures Pending(l, l.inFlight[a].key) == if l.inFlight[a].Acted? then 1 else 0
    ensures l.inFlight[a].key !in l.records
  {
    var k := l.inFlight[a].key;
    assert KeyBalanced(l, k);
    if l.inFlight[a].Acted? {
      assert l.inFlight[a] == Acted(k);
    }
  }

  lemma BeginKeepsBalance<K(!new)>(l: Ledger<K>, a: nat, key: K, k: K)
    requires Balanced(l) && !Busy(l, key)
    ensures KeyBalanced(Step(l, Begin(a, key)), k)
  {
    assert KeyBalanced(l, k);
    var l' := Step(l, Begin(a, key));
    if l' != l {
      assert forall b :: b in l.inFlight ==> b in l'.inFlight && l'.inFlight[b] == l.inFlight[b];
      assert l'.inFlight[a] == Cleared(key);
    }
  }

  lemma ActKeepsBalance<K(!new)>(l: Ledger<K>, a: nat, k: K)
    requires Balanced(l) && a in l.inFlight && l.inFlight[a].Cleared?
    ensures KeyBalanced(Step(l, Act(a)), k)
  {
    assert KeyBalanced(l, k);
    SoleAttempt(l, a);
    var key := l.inFlight[a].key;
    var l' := Step(l, Act(a));
    CountAppend(l.acts, key, k);
    assert l'.inFlight[a] == Acted(key);
    assert forall b :: b in l.inFlight && b != a ==> l'.inFlight[b] == l.inFlight[b];
  }

  lemma WithoutAttempt<K(!new)>(l: Ledger<K>, l': Ledger<K>, a: nat, k: K)
    requires Balanced(l) && a in l.inFlight && l'.inFlight == l.inFlight - {a}
    ensures Pending(l', k) == if k == l.inFlight[a].key then 0 else Pending(l, k)
    ensures Busy(l', k) ==> Busy(l, k) && k != l.inFlight[a].key
  {
    assert forall b :: b in l'.inFlight ==> b in l.inFlight && l.inFlight[b] == l'.inFlight[b];
    assert forall b :: b in l.inFlight && b != a ==> b in l'.inFlight && l.inFlight[b] == l'.inFlight[b];
  }

  lemma EndKeepsBalance<K(!new)>(l: Ledger<K>, a: nat, op: Op<K>, k: K)
    requires Balanced(l) && a in l.inFlight
    requires op == Stop(a) || (op == Record(a) && l.inFlight[a].Acted?)
    ensures KeyBalanced(Step(l, op), k)
  {
    assert KeyBalanced(l, k);
    SoleAttempt(l, a);
    var key := l.inFlight[a].key;
    WithoutAttempt(l, Step(l, op), a, k);
    CountAppend(l.records, key, k);
    CountAppend(l.lost, key, k);
    CountZeroIff(l.records, key);
    assert l.lost + [] == l.lost;
  }

  lemma StepKeepsBalance<K(!new)>(l: Ledger<K>, op: Op<K>)
    requires Balanced(l)
    requires op.Begin? ==> !Busy(l, op.key)
    ensures Balanced(Step(l, op))
  {
    if Step(l, op) != l {
      forall k ensures KeyBalanced(Step(l, op), k) {
        match op
        case Begin(a, key) => BeginKeepsBalance(l, a, key, k);
        case Act(a) => ActKeepsBalance(l, a, k);
        case Record(a) => EndKeepsBalance(l, a, op, k);
        case Stop(a) => EndKeepsBalance(l, a, op, k);
      }
    }
  }

  /**
   * However attempts stop and are retried, each key has at most one record, and its actions are its
   * records plus those of attempts that stopped after acting or have still to record.
   */
  lemma {:induction false} SerialRunsBalance<K(!new)>(l: Ledger<K>, ops: seq<Op<K>>)
    requires Balanced(l) && Serial(l, ops)
    ensures Balanced(Exec(l, ops))
  {
    if ops != [] {
      var front := ops[..|ops| - 1];
      assert forall i :: 0 <= i < |front| ==> front[..i] == ops[..i];
      SerialRunsBalance(l, front);
      StepKeepsBalance(Exec(l, front), ops[|ops| - 1]);
    }
  }

  lemma ExecSnoc<K>(l: Ledger<K>, ops: seq<Op<K>>, op: Op<K>)
    ensures Exec(l, ops + [op]) == Step(Exec(l, ops), op)
  {
    assert (ops + [op])[..|ops|] == ops;
  }

  lemma SerialSnoc<K>(l: Ledger<K>, ops: seq<Op<K>>, op: Op<K>)
    requires Serial(l, ops) && (op.Begin? ==> !Busy(Exec(l, ops), op.key))
    ensures Serial(l, ops + [op])
  {
    forall i | 0 <= i <= |ops| && (ops + [op])[i].Begin?
      ensures !Busy(Exec(l, (ops + [op])[..i]), (ops + [op])[i].key)
    {
      assert (ops + [op])[..i] == ops[..i];
      assert ops[..|ops|] == ops;
    }
  }

  ghost function Extended<K>(ops: seq<Op<K>>, e: Option<Op<K>>): seq<Op<K>> {
    if e.Some? then ops + [e.value] else ops
  }

  lemma ExtendRun<K>(l: Ledger<K>, ops: seq<Op<K>>, e: Option<Op<K>>)
    ensures Exec(l, Extended(ops, e)) == if e.Some? then Step(Exec(l, ops), e.value) else Exec(l, ops)
    ensures Serial(l, ops) && (e.Some? && e.value.Begin? ==> !Busy(Exec(l, ops), e.value.key))
            ==> Serial(l, Extended(ops, e))
  {
    if e.Some? {
      ExecSnoc(l, ops, e.value);
      if Serial(l, ops) && (e.value.Begin? ==> !Busy(Exec(l, ops), e.value.key)) {
        SerialSnoc(l, ops, e.value);
      }
    }
  }

  /** Once a key has a record it is never acted on again. */
  lemma {:induction false} NoActAfterRecord<K(!new)>(l: Ledger<K>, ops: seq<Op<K>>, k: K)
    requires Balanced(l) && Serial(l, ops) && k in l.records
    ensures k in Exec(l, ops).records && Count(Exec(l, ops).acts, k) == Count(l.acts, k)
  {
    if ops != [] {
      var front, op := ops[..|ops| - 1], ops[|ops| - 1];
      assert forall i :: 0 <= i < |front| ==> front[..i] == ops[..i];
      NoActAfterRecord(l, front, k);
      SerialRunsBalance(l, front);
      var before := Exec(l, front);
      assert KeyBalanced(before, k);
      if op.Act? && op.attempt in before.inFlight {
        CountAppend(before.acts, before.inFlight[op.attempt].key, k);
      }
    }
  }

  /** With no attempt left for a recorded key, nothing more is recorded under it. */
  lemma {:induction false} NoRecordWithoutAttempt<K>(l: Ledger<K>, ops: seq<Op<K>>, k: K)
    requires k in l.records && !Busy(l, k)
    ensures k in Exec(l, ops).records && !Busy(Exec(l, ops), k)
    ensures Count(Exec(l, ops).records, k) == Count(l.records, k)
  {
    if ops != [] {
      var front, op := ops[..|ops| - 1], ops[|ops| - 1];
      NoRecordWithoutAttempt(l, front, k);
      var before, after := Exec(l, front), Exec(l, ops);
      forall b | b in after.inFlight ensures after.inFlight[b].key != k {
        assert b in before.inFlight ==> before.inFlight[b].key != k;
      }
      if op.Record? && op.attempt in before.inFlight {
        CountAppend(before.records, before.inFlight[op.attempt].key, k);
      }
    }
  }

  /** The steps by which attempt `a` finishes. */
  ghost function Finish<K>(l: Ledger<K>, a: nat): seq<Op<K>>
    requires a in l.inFlight
  {
    (if l.inFlight[a].Cleared? then [Act(a)] else []) + [Record(a)]
  }

  lemma FinishRecords<K>(l: Ledger<K>, a: nat)
    requires a in l.inFlight
    ensures Exec(l, Finish(l, a)).records == l.records + [l.inFlight[a].key]
  {
    var ops := Finish(l, a);
    assert ops[..0] == [];
    if |ops| == 2 {
      assert ops[..1] == [Act(a)] && ops[..1][..0] == [];
      assert Exec(l, ops[..1]) == Step(l, Act(a));
    }
  }

  /** Once a key is recorded, it can be recorded again exactly while another attempt for it is in flight. */
  lemma RecordedAgainIff<K>(l: Ledger<K>, k: K)
    requires k in l.records
    ensures (exists ops :: Count(Exec(l, ops).records, k) > Count(l.records, k)) <==> Busy(l, k)
  {
    if Busy(l, k) {
      var a :| a in l.inFlight && l.inFlight[a].key == k;
      FinishRecords(l, a);
      CountAppend(l.records, k, k);
    } else {
      forall ops ensures Count(Exec(l, ops).records, k) == Count(l.records, k) {
        NoRecordWithoutAttempt(l, ops, k);
      }
    }
  }

  /** Two attempts for one key that both begin before either has recorded. */
  ghost function Overlap(k: string): seq<Op<string>> {
    [Begin(0, k)] + [Begin(1, k)] + [Act(0)] + [Act(1)] + [Record(0)] + [Record(1)]
  }

  lemma OverlapIsNotSerial(k: string)
    ensures !Serial(EMPTY, Overlap(k))
  {
    var ops := Overlap(k);
    assert ops[..1] == [] + [Begin(0, k)] && ops[1] == Begin(1, k);
    ExecSnoc(EMPTY, [], Begin(0, k));
    assert Exec(EMPTY, ops[..1]).inFlight[0] == Cleared(k);
  }

  /** Overlapping attempts for one key can act twice and leave two records. */
  lemma OverlapRecordsTwice(k: string)
    ensures Exec(EMPTY, Overlap(k)).acts == [k, k] && Exec(EMPTY, Overlap(k)).records == [k, k]
    ensures !Serial(EMPTY, Overlap(k))
  {
    OverlapIsNotSerial(k);
    var begun := [Begin(0, k)] + [Begin(1, k)];
    var acted := begun + [Act(0)] + [Act(1)];
    assert [] + [Begin(0, k)] == [Begin(0, k)];
    ExecSnoc(EMPTY, [], Begin(0, k));
    ExecSnoc(EMPTY, [Begin(0, k)], Begin(1, k));
    assert Exec(EMPTY, begun) == Ledger(map[0 := Cleared(k), 1 := Cleared(k)], [], [], []);
    ExecSnoc(EMPTY, begun, Act(0));
    ExecSnoc(EMPTY, begun + [Act(0)], Act(1));
    assert Exec(EMPTY, acted) == Ledger(map[0 := Acted(k), 1 := Acted(k)], [k, k], [], []);
    ExecSnoc(EMPTY, acted, Record(0));
    ExecSnoc(EMPTY, acted + [Record(0)], Record(1));
  }
}
