/** The message table and the token-bounded window over a session's history. */
module Messages {
  import opened Common

  type Tenant = nat
  type SessionId = nat

  datatype Role = User | Assistant | System

  /** `tokenCount` and `jobId` are null columns for some rows. */
  datatype Message = Message(session: SessionId, tenant: Tenant, role: Role, content: string,
                             tokenCount: Option<int>, jobId: Option<int>, citations: seq<nat>)

  predicate Belongs(m: Message, tenant: Tenant, session: SessionId) {
    m.session == session && m.tenant == tenant
  }

  /** The rows of one session, in the order of the table. */
  function SessionHistory(rows: seq<Message>, tenant: Tenant, session: SessionId): seq<Message> {
    if rows == [] then []
    else
      SessionHistory(rows[..|rows| - 1], tenant, session)
      + (if Belongs(rows[|rows| - 1], tenant, session) then [rows[|rows| - 1]] else [])
  }

  /** A new row is added at the end of its own session's history, and of no other. */
  lemma HistoryGrows(rows: seq<Message>, m: Message, tenant: Tenant, session: SessionId)
    ensures SessionHistory([], tenant, session) == []
    ensures SessionHistory(rows + [m], tenant, session)
         == AppendIf(SessionHistory(rows, tenant, session), m.session == session && m.tenant == tenant, m)
  {
    assert (rows + [m])[..|rows|] == rows;
    assert SessionHistory(rows, tenant, session) + [] == SessionHistory(rows, tenant, session);
  }

  function Reversed<T>(s: seq<T>): seq<T> {
    seq(|s|, i requires 0 <= i < |s| => s[|s| - 1 - i])
  }

  /** Messages without a count are free. */
  ghost function Cost(m: Message): int {
    if m.tokenCount.Some? then m.tokenCount.value else 0
  }

  ghost function Tokens(ms: seq<Message>): int {
    if ms == [] then 0 else Cost(ms[0]) + Tokens(ms[1..])
  }

  /** Counted tokens add up; a message without a count adds nothing. */
  lemma {:induction false} TokensAddUp(ms: seq<Message>, more: seq<Message>)
    ensures Tokens(ms + more) == Tokens(ms) + Tokens(more)
    ensures |ms| == 1 ==> Tokens(ms) == match ms[0].tokenCount case None => 0 case Some(n) => n
  {
    if ms == [] {
      assert ms + more == more;
    } else {
      assert (ms + more)[1..] == ms[1..] + more;
      TokensAddUp(ms[1..], more);
    }
  }

  /** No suffix costs more than the budget. */
  ghost predicate Affordable(ms: seq<Message>, budget: int) {
    forall k :: 0 <= k <= |ms| ==> Tokens(ms[k..]) <= budget
  }

  /** The longest affordable suffix; with a budget of zero or less, the whole history. */
  ghost predicate IsWindow(history: seq<Message>, maxTokens: int, w: seq<Message>) {
    if maxTokens <= 0 then w == history
    else
      && |w| <= |history| && w == history[|history| - |w|..]
      && Affordable(w, maxTokens)
      && forall k :: 0 <= k < |history| - |w| ==> !Affordable(history[k..], maxTokens)
  }

  /** Any two windows of the same history and budget are the same. */
  lemma WindowUnique(history: seq<Message>, maxTokens: int, a: seq<Message>, b: seq<Message>)
    requires IsWindow(history, maxTokens, a) && IsWindow(history, maxTokens, b)
    ensures a == b
  {
    if maxTokens > 0 {
      assert Affordable(history[|history| - |a|..], maxTokens);
      assert Affordable(history[|history| - |b|..], maxTokens);
    }
  }

  ghost function Newest(history: seq<Message>, n: nat): seq<Message>
    requires n <= |history|
  {
    history[|history| - n..]
  }

  /** One message more is affordable exactly when the whole of it is within the budget. */
  lemma OneMore(history: seq<Message>, n: nat, budget: int)
    requires n < |history| && Affordable(Newest(history, n), budget)
    ensures Tokens(Newest(history, n)) <= budget
    ensures Tokens(Newest(history, n + 1)) == Cost(history[|history| - 1 - n]) + Tokens(Newest(history, n))
    ensures Tokens(Newest(history, n + 1)) <= budget ==> Affordable(Newest(history, n + 1), budget)
  {
    var ms, more := Newest(history, n), Newest(history, n + 1);
    assert ms[0..] == ms && more[0..] == more && more[1..] == ms;
    forall k | 1 <= k <= n + 1 ensures Tokens(more[k..]) <= budget {
      assert more[k..] == ms[k - 1..];
    }
  }

  /** What the scan establishes when it meets the first message it cannot afford. */
  lemma StopsAtWindow(history: seq<Message>, maxTokens: int, n: nat)
    requires maxTokens > 0 && n <= |history|
    requires Affordable(Newest(history, n), maxTokens)
    requires n < |history| ==> Tokens(Newest(history, n + 1)) > maxTokens
    ensures IsWindow(history, maxTokens, Newest(history, n))
  {
    forall k | 0 <= k < |history| - n ensures !Affordable(history[k..], maxTokens) {
      assert history[k..][|history| - n - 1 - k..] == history[|history| - n - 1..];
    }
  }

  lemma ReversedPrefix(history: seq<Message>, n: nat)
    requires n <= |history|
    ensures Reversed(Reversed(history)[..n]) == Newest(history, n)
  {
  }

  class MessageRepository {
    /** Oldest first. */
    var rows: seq<Message>

    constructor ()
      ensures rows == []
    {
      rows := [];
    }

    /** `writing` is Refused for an unknown session or tenant, among other reasons. */
    method Create(tenant: Tenant, m: Message, writing: Writing) returns (ok: bool)
      modifies this
      ensures rows == old(rows) + if writing.Refused? then [] else [m.(tenant := tenant)]
      ensures ok <==> writing.Written?
    {
      if writing.Refused? {
        return false;
      }
      rows := rows + [m.(tenant := tenant)];
      return writing.Written?;
    }

    method GetByJobID(tenant: Tenant, jobId: int) returns (r: Option<Message>)
      ensures r.Some? ==> r.value in rows && r.value.tenant == tenant && r.value.jobId == Some(jobId)
      ensures r.None? ==> forall m :: m in rows ==> !(m.tenant == tenant && m.jobId == Some(jobId))
    {
      for i := 0 to |rows|
        invariant forall k :: 0 <= k < i ==> !(rows[k].tenant == tenant && rows[k].jobId == Some(jobId))
      {
        if rows[i].tenant == tenant && rows[i].jobId == Some(jobId) {
          return Some(rows[i]);
        }
      }
      return None;
    }

    /** Rows are read newest first until the budget runs out, then put back in order. */
    method ListForSession(tenant: Tenant, session: SessionId, maxTokens: int) returns (msgs: seq<Message>)
      ensures IsWindow(SessionHistory(rows, tenant, session), maxTokens, msgs)
    {
      ghost var history := SessionHistory(rows, tenant, session);
      var newestFirst := ReadNewestFirst(Reversed(SessionHistory(rows, tenant, session)), maxTokens, history);
      var buffer := new Message[|newestFirst|](i requires 0 <= i < |newestFirst| => newestFirst[i]);
      assert buffer[..] == newestFirst;
      ReverseInPlace(buffer);
      ReversedPrefix(history, |newestFirst|);
      msgs := buffer[..];
    }
  }

  /** The scan over the rows, which come newest first. */
  method ReadNewestFirst(found: seq<Message>, maxTokens: int, ghost history: seq<Message>) returns (msgs: seq<Message>)
    requires found == Reversed(history)
    ensures |msgs| <= |history| && msgs == found[..|msgs|]
    ensures IsWindow(history, maxTokens, Newest(history, |msgs|))
  {
    msgs := [];
    var unlimited := maxTokens <= 0;
    var budget := maxTokens;
    for i := 0 to |found|
      invariant |msgs| == i && msgs == found[..i]
      invariant !unlimited ==> Affordable(Newest(history, i), maxTokens)
      invariant !unlimited ==> budget == maxTokens - Tokens(Newest(history, i))
    {
      var m := found[i];
      if !unlimited {
        OneMore(history, i, maxTokens);
      }
      if !unlimited && m.tokenCount.Some? {
        budget := budget - m.tokenCount.value;
        if budget < 0 {
          StopsAtWindow(history, maxTokens, i);
          return;
        }
      }
      msgs := msgs + [m];
    }
    if !unlimited {
      StopsAtWindow(history, maxTokens, |history|);
    }
  }

  /** Swaps the ends and works inwards. */
  method ReverseInPlace(a: array<Message>)
    modifies a
    ensures a[..] == Reversed(old(a[..]))
  {
    var i, j := 0, a.Length - 1;
    while i < j
      invariant 0 <= i <= j + 1 && j == a.Length - 1 - i
      invariant forall k :: i <= k <= j ==> a[k] == old(a[k])
      invariant forall k :: 0 <= k < a.Length && !(i <= k <= j) ==> a[k] == old(a[a.Length - 1 - k])
    {
      a[i], a[j] := a[j], a[i];
      i, j := i + 1, j - 1;
    }
  }

  /** The content of the newest user turn, or the empty string. */
  ghost function NewestUserContent(history: seq<Message>): string {
    if history == [] then ""
    else if history[|history| - 1].role.User? then history[|history| - 1].content
    else NewestUserContent(history[..|history| - 1])
  }

  lemma {:induction false} NewestUserIs(history: seq<Message>, k: nat)
    requires k < |history| && history[k].role.User?
    requires forall i :: k < i < |history| ==> !history[i].role.User?
    ensures NewestUserContent(history) == history[k].content
  {
    if k < |history| - 1 {
      NewestUserIs(history[..|history| - 1], k);
    }
  }

  method LastUserMessage(history: seq<Message>) returns (content: string)
    ensures content == NewestUserContent(history)
  {
    var i := |history|;
    assert history[..i] == history;
    while i > 0
      invariant 0 <= i <= |history|
      invariant NewestUserContent(history[..i]) == NewestUserContent(history)
    {
      assert history[..i][..i - 1] == history[..i - 1];
      if history[i - 1].role.User? {
        return history[i - 1].content;
      }
      i := i - 1;
    }
    return "";
  }

  /** If the newest message is a user turn without a count, every window asks about exactly that turn. */
  lemma NewestTurnSurvives(history: seq<Message>, maxTokens: int, w: seq<Message>)
    requires IsWindow(history, maxTokens, w)
    requires history != [] && history[|history| - 1].role.User? && history[|history| - 1].tokenCount.None?
    ensures NewestUserContent(w) == history[|history| - 1].content
  {
    var last := |history| - 1;
    assert Affordable(history[last..], Max(maxTokens, 0)) by {
      assert history[last..][1..] == [] && history[last..][0..] == history[last..];
      assert forall k :: 0 <= k <= 1 ==> Tokens(history[last..][k..]) == 0;
    }
  }

  lemma InsideWindow(history: seq<Message>, maxTokens: int, w: seq<Message>, k: nat)
    requires IsWindow(history, maxTokens, w) && maxTokens > 0
    requires |history| - |w| <= k <= |history|
    ensures Tokens(history[k..]) <= maxTokens
  {
    assert w[k - (|history| - |w|)..] == history[k..];
  }

  /**
   * The window is cut by the first unaffordable message, seen from the newest: everything older is
   * dropped too, even messages that cost nothing.
   */
  lemma OlderFreeMessagesAreDropped(history: seq<Message>, maxTokens: int, w: seq<Message>, k: nat)
    requires IsWindow(history, maxTokens, w) && maxTokens > 0
    requires k <= |history| && Tokens(history[k..]) > maxTokens
    ensures |w| < |history| - k
  {
    if |w| >= |history| - k {
      InsideWindow(history, maxTokens, w, k);
    }
  }

  /** A history none of whose suffixes costs more than the budget is returned whole, as is any if there is no budget. */
  lemma WindowIsWhole(history: seq<Message>, maxTokens: int, w: seq<Message>)
    requires IsWindow(history, maxTokens, w)
    requires maxTokens <= 0 || forall k :: 0 <= k <= |history| ==> Tokens(history[k..]) <= maxTokens
    ensures w == history
  {
    if maxTokens > 0 {
      assert history[0..] == history;
      assert Affordable(history[0..], maxTokens);
    }
  }

  /** The message just before the window is the one that would exceed the budget. */
  lemma WindowIsLongest(history: seq<Message>, maxTokens: int, w: seq<Message>)
    requires IsWindow(history, maxTokens, w) && |w| < |history|
    ensures maxTokens > 0 && Tokens(history[|history| - |w| - 1..]) > maxTokens
  {
    var n := |w|;
    assert w == Newest(history, n);
    OneMore(history, n, maxTokens);
    assert !Affordable(history[|history| - n - 1..], maxTokens);
  }
}
