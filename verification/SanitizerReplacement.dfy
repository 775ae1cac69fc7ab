/** Replacing every match from left to right, for any matcher that finds the leftmost match. */
module Replacement {
  import opened Common
  import opened Regex
  import opened PhraseCheck

  /** A set of strings, and a way to find the next member in a text. */
  datatype Pattern = Pattern(language: string -> bool, find: (string, nat) -> Option<Span>)

  /** `Occurs` at position `i`: some string of the language starts there. */
  predicate StartsAt(p: Pattern, s: string, i: nat) {
    exists j :: i <= j <= |s| && p.language(s[i..j])
  }

  predicate Occurs(p: Pattern, s: string) {
    exists i :: 0 <= i <= |s| && StartsAt(p, s, i)
  }

  ghost predicate FoundIn(p: Pattern, s: string, from: nat, span: Span) {
    from <= span.start <= span.end <= |s| && p.language(s[span.start..span.end])
  }

  /** `find` returns the leftmost match; which of its ends it prefers is left open. */
  ghost predicate FindsLeftmost(p: Pattern) {
    forall s, from: nat | from <= |s| ::
      match p.find(s, from)
      case None => forall i :: from <= i <= |s| ==> !StartsAt(p, s, i)
      case Some(span) => FoundIn(p, s, from, span) && forall i :: from <= i < span.start ==> !StartsAt(p, s, i)
  }

  ghost predicate Replaceable(p: Pattern) {
    && (forall s :: p.language(s) ==> PhraseText(s))
    && FindsLeftmost(p)
  }

  /** The text from `from` on, with each match found from left to right replaced by `placeholder`. */
  function ReplaceFrom(p: Pattern, s: string, placeholder: string, from: nat): string
    requires Replaceable(p) && from <= |s|
    decreases |s| - from
  {
    match p.find(s, from)
    case None => s[from..]
    case Some(span) =>
      assert FoundIn(p, s, from, span) && PhraseText(s[span.start..span.end]);
      s[from..span.start] + placeholder + ReplaceFrom(p, s, placeholder, span.end)
  }

  method ReplaceAllLiteralString(p: Pattern, s: string, placeholder: string) returns (r: string)
    requires Replaceable(p)
    ensures r == ReplaceFrom(p, s, placeholder, 0)
  {
    r := [];
    var pos := 0;
    while true
      invariant pos <= |s|
      invariant r + ReplaceFrom(p, s, placeholder, pos) == ReplaceFrom(p, s, placeholder, 0)
      decreases |s| - pos
    {
      var found := p.find(s, pos);
      if found.None? {
        r := r + s[pos..];
        return;
      }
      var span := found.value;
      FoundMovesOn(p, s, pos);
      var copied := s[pos..span.start] + placeholder;
      assert ReplaceFrom(p, s, placeholder, pos) == copied + ReplaceFrom(p, s, placeholder, span.end);
      assert r + (copied + ReplaceFrom(p, s, placeholder, span.end))
          == r + copied + ReplaceFrom(p, s, placeholder, span.end);
      r := r + copied;
      pos := span.end;
    }
  }

  lemma FoundMovesOn(p: Pattern, s: string, from: nat)
    requires Replaceable(p) && from <= |s| && p.find(s, from).Some?
    ensures var span := p.find(s, from).value;
            from <= span.start < span.end <= |s| && PhraseText(s[span.start..span.end])
  {
    assert FoundIn(p, s, from, p.find(s, from).value);
  }

  const PLACEHOLDER := "[filtered]"

  lemma OccursInPart(q: Pattern, s: string, a: nat, b: nat)
    requires a <= b <= |s| && Occurs(q, s[a..b])
    ensures Occurs(q, s)
  {
    var i :| 0 <= i <= b - a && StartsAt(q, s[a..b], i);
    var j :| i <= j <= b - a && q.language(s[a..b][i..j]);
    SliceOfSlice(s, a, b, i, j);
    assert StartsAt(q, s, a + i);
  }

  /** A phrase inside text around a placeholder lies before it or after it. */
  lemma PhraseAvoidsPlaceholder(s: string, n: nat, i: nat, j: nat)
    requires n + 10 <= |s| && s[n..n + 10] == PLACEHOLDER
    requires i <= j <= |s| && PhraseText(s[i..j])
    ensures j <= n || i >= n + 10
  {
    assert forall m :: 0 <= m < 10 ==> !In(Space, PLACEHOLDER[m]);
    assert forall m :: n <= m < n + 10 ==> s[m] == s[n..n + 10][m - n] && !In(Space, s[m]);
    assert s[n] == '[' && s[n + 9] == ']';
    assert forall k :: i <= k < j ==> s[k] == s[i..j][k - i];
    var k :| 0 <= k < j - i && In(Space, s[i..j][k]);
    assert In(Space, s[i + k]);
  }

  /** No match reaches across a placeholder: it lies before it or after it. */
  lemma MatchAvoidsPlaceholder(q: Pattern, before: string, after: string)
    requires Replaceable(q) && Occurs(q, before + PLACEHOLDER + after)
    ensures Occurs(q, before) || Occurs(q, after)
  {
    var s, n := before + PLACEHOLDER + after, |before|;
    var i :| 0 <= i <= |s| && StartsAt(q, s, i);
    var j :| i <= j <= |s| && q.language(s[i..j]);
    PhraseAvoidsPlaceholder(s, n, i, j);
    if j <= n {
      assert s[i..j] == before[i..j];
      assert StartsAt(q, before, i);
    } else {
      assert s[i..j] == after[i - n - 10..j - n - 10];
      assert StartsAt(q, after, i - n - 10);
    }
  }

  /** Replacement introduces no match of any pattern of this kind. */
  lemma {:induction false} ReplaceIntroducesNothing(p: Pattern, q: Pattern, s: string, from: nat)
    requires Replaceable(p) && Replaceable(q) && from <= |s|
    requires Occurs(q, ReplaceFrom(p, s, PLACEHOLDER, from))
    ensures Occurs(q, s)
    decreases |s| - from
  {
    match p.find(s, from)
    case None =>
      assert s[from..] == s[from..|s|];
      OccursInPart(q, s, from, |s|);
    case Some(span) =>
      assert FoundIn(p, s, from, span) && PhraseText(s[span.start..span.end]);
      MatchAvoidsPlaceholder(q, s[from..span.start], ReplaceFrom(p, s, PLACEHOLDER, span.end));
      if Occurs(q, s[from..span.start]) {
        OccursInPart(q, s, from, span.start);
      } else {
        ReplaceIntroducesNothing(p, q, s, span.end);
      }
  }

  /** Text in which no match starts contains none. */
  lemma GapIsClean(p: Pattern, s: string, from: nat, to: nat)
    requires Replaceable(p) && from <= to <= |s|
    requires forall i :: from <= i < to ==> !StartsAt(p, s, i)
    ensures !Occurs(p, s[from..to])
  {
    forall i, j | 0 <= i <= j <= to - from ensures !p.language(s[from..to][i..j]) {
      SliceOfSlice(s, from, to, i, j);
      if i < to - from {
        assert !StartsAt(p, s, from + i);
      } else {
        assert !PhraseText(s[from..to][i..j]);
      }
    }
  }

  /** Replacement leaves no match of the pattern replaced. */
  lemma {:induction false} ReplaceRemovesAll(p: Pattern, s: string, from: nat)
    requires Replaceable(p) && from <= |s|
    ensures !Occurs(p, ReplaceFrom(p, s, PLACEHOLDER, from))
    decreases |s| - from
  {
    match p.find(s, from)
    case None =>
      GapIsClean(p, s, from, |s|);
      assert s[from..] == s[from..|s|];
    case Some(span) =>
      assert FoundIn(p, s, from, span) && PhraseText(s[span.start..span.end]);
      GapIsClean(p, s, from, span.start);
      ReplaceRemovesAll(p, s, span.end);
      if Occurs(p, ReplaceFrom(p, s, PLACEHOLDER, from)) {
        MatchAvoidsPlaceholder(p, s[from..span.start], ReplaceFrom(p, s, PLACEHOLDER, span.end));
      }
  }

  /** Opening brackets in a string; replacement only ever adds some. */
  ghost function Openings(s: string): nat {
    Count(s, '[')
  }

  lemma {:induction false} OpeningsConcat(a: string, b: string)
    ensures Openings(a + b) == Openings(a) + Openings(b)
  {
    if b == [] {
      assert a + b == a;
    } else {
      var front := b[..|b| - 1];
      assert (a + b)[..|a + b| - 1] == a + front;
      OpeningsConcat(a, front);
    }
  }

  lemma {:induction false} NoOpenings(s: string)
    requires forall i :: 0 <= i < |s| ==> !Bracket(s[i])
    ensures Openings(s) == 0
  {
    if s != [] {
      NoOpenings(s[..|s| - 1]);
    }
  }

  lemma PlaceholderOpens()
    ensures Openings(PLACEHOLDER) == 1
  {
    assert PLACEHOLDER == "[" + "filtered" + "]";
    OpeningsConcat("[" + "filtered", "]");
    OpeningsConcat("[", "filtered");
    NoOpenings("filtered");
  }

  lemma ReplacedPieceOpens(before: string, matched: string, after: string, after': string)
    requires Openings(matched) == 0 && Openings(after') >= Openings(after)
    ensures Openings(before + PLACEHOLDER + after') > Openings(before + matched + after)
  {
    PlaceholderOpens();
    OpeningsConcat(before, PLACEHOLDER);
    OpeningsConcat(before + PLACEHOLDER, after');
    OpeningsConcat(before, matched);
    OpeningsConcat(before + matched, after);
  }

  /** Each replacement adds one opening bracket, so a replaced text is a different text. */
  lemma {:induction false} ReplaceAddsOpenings(p: Pattern, s: string, from: nat)
    requires Replaceable(p) && from <= |s|
    ensures Openings(ReplaceFrom(p, s, PLACEHOLDER, from)) >= Openings(s[from..])
    ensures p.find(s, from).Some? ==> Openings(ReplaceFrom(p, s, PLACEHOLDER, from)) > Openings(s[from..])
    decreases |s| - from
  {
    if p.find(s, from).Some? {
      var Span(a, b) := p.find(s, from).value;
      assert FoundIn(p, s, from, Span(a, b)) && PhraseText(s[a..b]);
      ReplaceAddsOpenings(p, s, b);
      NoOpenings(s[a..b]);
      ReplacedPieceOpens(s[from..a], s[a..b], s[b..], ReplaceFrom(p, s, PLACEHOLDER, b));
      assert s[from..] == s[from..a] + s[a..b] + s[b..];
    }
  }

  /** Replacement leaves a text alone exactly when the pattern does not occur in it. */
  lemma ReplaceFixesIff(p: Pattern, s: string)
    requires Replaceable(p)
    ensures !Occurs(p, s) ==> ReplaceFrom(p, s, PLACEHOLDER, 0) == s
    ensures Occurs(p, s) ==> Openings(ReplaceFrom(p, s, PLACEHOLDER, 0)) > Openings(s)
    ensures Openings(ReplaceFrom(p, s, PLACEHOLDER, 0)) >= Openings(s)
  {
    ReplaceAddsOpenings(p, s, 0);
    assert s[0..] == s;
    match p.find(s, 0)
    case None => assert forall i: nat :: 0 <= i <= |s| ==> !StartsAt(p, s, i);
    case Some(span) =>
      assert FoundIn(p, s, 0, span);
      assert StartsAt(p, s, span.start);
  }

  ghost predicate AllReplaceable(ps: seq<Pattern>) {
    forall i :: 0 <= i < |ps| ==> Replaceable(ps[i])
  }

  /** The text after the patterns have been replaced, one after the other. */
  ghost function Filtered(ps: seq<Pattern>, s: string): string
    requires AllReplaceable(ps)
  {
    if ps == [] then s else ReplaceFrom(ps[|ps| - 1], Filtered(ps[..|ps| - 1], s), PLACEHOLDER, 0)
  }

  ghost predicate Clean(ps: seq<Pattern>, s: string) {
    forall i :: 0 <= i < |ps| ==> !Occurs(ps[i], s)
  }

  /** Later replacements bring back no match of an earlier pattern. */
  lemma {:induction false} FilteredIsClean(ps: seq<Pattern>, s: string)
    requires AllReplaceable(ps)
    ensures Clean(ps, Filtered(ps, s))
  {
    if ps != [] {
      var front, last := ps[..|ps| - 1], ps[|ps| - 1];
      var before := Filtered(front, s);
      FilteredIsClean(front, s);
      ReplaceRemovesAll(last, before, 0);
      forall i | 0 <= i < |front| ensures !Occurs(ps[i], Filtered(ps, s)) {
        assert !Occurs(front[i], before);
        if Occurs(ps[i], Filtered(ps, s)) {
          ReplaceIntroducesNothing(last, ps[i], before, 0);
        }
      }
    }
  }

  /** The first pattern that occurs changes the text, and nothing later changes it back. */
  lemma {:induction false} FilteredFixesIff(ps: seq<Pattern>, s: string)
    requires AllReplaceable(ps)
    ensures Openings(Filtered(ps, s)) >= Openings(s)
    ensures Clean(ps, s) ==> Filtered(ps, s) == s
    ensures !Clean(ps, s) ==> Openings(Filtered(ps, s)) > Openings(s)
  {
    if ps != [] {
      var front, last := ps[..|ps| - 1], ps[|ps| - 1];
      FilteredFixesIff(front, s);
      ReplaceFixesIff(last, Filtered(front, s));
      assert Clean(ps, s) <==> Clean(front, s) && !Occurs(last, s);
    }
  }

  method ReplaceEach(ps: seq<Pattern>, input: string) returns (r: string)
    requires AllReplaceable(ps)
    ensures r == Filtered(ps, input)
  {
    r := input;
    for i := 0 to |ps|
      invariant r == Filtered(ps[..i], input)
    {
      r := ReplaceAllLiteralString(ps[i], r, PLACEHOLDER);
      assert ps[..i + 1][..i] == ps[..i];
    }
    assert ps[..|ps|] == ps;
  }
}
