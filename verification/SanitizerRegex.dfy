/** The fragment of regular expressions the sanitizer uses, with case folding switched on. */
module Regex {
  import opened Common

  /** `Space` is `\s`, `Word` is `\w`. */
  datatype Class = Space | Word

  datatype Re =
    | Text(text: string)
    | Plus(class_: Class)
    | Cat(left: Re, right: Re)
    | Alt(left: Re, right: Re)
    | Opt(body: Re)

  /** Simple case folding, as far as it reaches ASCII: U+017F folds to s and U+212A to k. */
  function Fold(c: char): char {
    if 'A' <= c <= 'Z' then (c as int + 32) as char
    else if c == '\U{17F}' then 's'
    else if c == '\U{212A}' then 'k'
    else c
  }

  predicate In(cls: Class, c: char) {
    match cls
    case Space => c == ' ' || c == '\t' || c == '\n' || c == '\U{C}' || c == '\r'
    case Word => 'a' <= Fold(c) <= 'z' || '0' <= c <= '9' || c == '_'
  }

  predicate SameFolded(a: string, b: string) {
    |a| == |b| && forall i :: 0 <= i < |a| ==> Fold(a[i]) == Fold(b[i])
  }

  /** The strings an expression stands for. */
  predicate Matches(re: Re, s: string) {
    match re
    case Text(t) => SameFolded(t, s)
    case Plus(cls) => s != [] && forall i :: 0 <= i < |s| ==> In(cls, s[i])
    case Cat(l, r) => exists k :: 0 <= k <= |s| && Matches(l, s[..k]) && Matches(r, s[k..])
    case Alt(l, r) => Matches(l, s) || Matches(r, s)
    case Opt(b) => s == [] || Matches(b, s)
  }

  /** End of the longest stretch of the class from position `i`. */
  function RunEnd(cls: Class, s: string, i: nat): (e: nat)
    requires i <= |s|
    ensures i <= e <= |s|
    ensures forall k :: i <= k < e ==> In(cls, s[k])
    ensures e < |s| ==> !In(cls, s[e])
    decreases |s| - i
  {
    if i < |s| && In(cls, s[i]) then RunEnd(cls, s, i + 1) else i
  }

  predicate Within(r: seq<nat>, lo: nat, hi: nat) {
    forall k :: 0 <= k < |r| ==> lo <= r[k] <= hi
  }

  /** e, e-1, .., i+1 */
  function Downward(i: nat, e: nat): (r: seq<nat>)
    requires i <= e
    ensures Within(r, i, e)
    ensures forall j :: j in r <==> i < j <= e
  {
    if i == e then [] else [e] + Downward(i, e - 1)
  }

  /**
   * Where a match starting at `i` can end, in the order a leftmost-first matcher tries them: greedy
   * repetition and option first, left alternative first.
   */
  function Ends(re: Re, s: string, i: nat): (r: seq<nat>)
    requires i <= |s|
    ensures Within(r, i, |s|)
    decreases re, 0
  {
    match re
    case Text(t) => if i + |t| <= |s| && SameFolded(t, s[i..i + |t|]) then [i + |t|] else []
    case Plus(cls) => Downward(i, RunEnd(cls, s, i))
    case Cat(l, rr) => Continue(rr, s, i, Ends(l, s, i))
    case Alt(l, rr) => Ends(l, s, i) + Ends(rr, s, i)
    case Opt(b) => Ends(b, s, i) + [i]
  }

  function Continue(re: Re, s: string, i: nat, starts: seq<nat>): (r: seq<nat>)
    requires i <= |s| && Within(starts, i, |s|)
    ensures Within(r, i, |s|)
    decreases re, 1, |starts|
  {
    if starts == [] then [] else Ends(re, s, starts[0]) + Continue(re, s, i, starts[1..])
  }

  lemma {:induction false} ContinueSound(re: Re, s: string, i: nat, starts: seq<nat>, j: nat) returns (k: nat)
    requires i <= |s| && Within(starts, i, |s|)
    requires j in Continue(re, s, i, starts)
    ensures k in starts && i <= k <= |s| && j in Ends(re, s, k)
    decreases |starts|
  {
    if j in Ends(re, s, starts[0]) {
      k := starts[0];
    } else {
      k := ContinueSound(re, s, i, starts[1..], j);
    }
  }

  lemma {:induction false} ContinueComplete(re: Re, s: string, i: nat, starts: seq<nat>, k: nat, j: nat)
    requires i <= |s| && Within(starts, i, |s|)
    requires k in starts && k <= |s| && j in Ends(re, s, k)
    ensures j in Continue(re, s, i, starts)
    decreases |starts|
  {
    if k != starts[0] {
      ContinueComplete(re, s, i, starts[1..], k, j);
    }
  }

  /** The matcher offers only ends of strings in the language. */
  lemma {:induction false} EndsSound(re: Re, s: string, i: nat, j: nat)
    requires i <= |s| && j in Ends(re, s, i)
    ensures i <= j <= |s| && Matches(re, s[i..j])
    decreases re
  {
    match re
    case Text(_) =>
    case Plus(_) =>
    case Alt(l, r) =>
      if j in Ends(l, s, i) { EndsSound(l, s, i, j); } else { EndsSound(r, s, i, j); }
    case Opt(b) =>
      if j in Ends(b, s, i) { EndsSound(b, s, i, j); }
    case Cat(l, r) =>
      var k := ContinueSound(r, s, i, Ends(l, s, i), j);
      EndsSound(l, s, i, k);
      EndsSound(r, s, k, j);
      SlicesMatch(l, r, s, i, k, j);
  }

  lemma SlicesMatch(l: Re, r: Re, s: string, i: nat, k: nat, j: nat)
    requires i <= k <= j <= |s| && Matches(l, s[i..k]) && Matches(r, s[k..j])
    ensures Matches(Cat(l, r), s[i..j])
  {
    SplitSlice(s, i, k, j);
    CatMatches(l, r, s[i..j], k - i);
  }

  lemma CatMatches(l: Re, r: Re, s: string, k: nat)
    requires k <= |s| && Matches(l, s[..k]) && Matches(r, s[k..])
    ensures Matches(Cat(l, r), s)
  {
  }

  lemma CharactersEnd(re: Re, s: string, i: nat, j: nat)
    requires re.Text? || re.Plus?
    requires i <= j <= |s| && Matches(re, s[i..j])
    ensures j in Ends(re, s, i)
  {
    if re.Plus? {
      assert forall k :: i <= k < j ==> s[i..j][k - i] == s[k];
    }
  }

  lemma CatSplits(l: Re, r: Re, s: string, i: nat, j: nat) returns (k: nat)
    requires i <= j <= |s| && Matches(Cat(l, r), s[i..j])
    ensures i <= k <= j && Matches(l, s[i..k]) && Matches(r, s[k..j])
  {
    var n :| 0 <= n <= j - i && Matches(l, s[i..j][..n]) && Matches(r, s[i..j][n..]);
    k := i + n;
    SplitSlice(s, i, k, j);
  }

  /** The matcher offers the end of every string in the language. */
  lemma {:induction false} EndsComplete(re: Re, s: string, i: nat, j: nat)
    requires i <= j <= |s| && Matches(re, s[i..j])
    ensures j in Ends(re, s, i)
    decreases re
  {
    match re
    case Text(_) => CharactersEnd(re, s, i, j);
    case Plus(_) => CharactersEnd(re, s, i, j);
    case Alt(l, r) =>
      if Matches(l, s[i..j]) { EndsComplete(l, s, i, j); } else { EndsComplete(r, s, i, j); }
    case Opt(b) =>
      if i < j { EndsComplete(b, s, i, j); }
    case Cat(l, r) =>
      var k := CatSplits(l, r, s, i, j);
      EndsComplete(l, s, i, k);
      EndsComplete(r, s, k, j);
      CatEnds(l, r, s, i, k, j);
  }

  lemma CatEnds(l: Re, r: Re, s: string, i: nat, k: nat, j: nat)
    requires i <= k <= |s| && k in Ends(l, s, i) && j in Ends(r, s, k)
    ensures j in Ends(Cat(l, r), s, i)
  {
    ContinueComplete(r, s, i, Ends(l, s, i), k, j);
  }

  lemma SplitSlice(s: string, i: nat, k: nat, j: nat)
    requires i <= k <= j <= |s|
    ensures s[i..j][..k - i] == s[i..k] && s[i..j][k - i..] == s[k..j]
  {
  }

  datatype Span = Span(start: nat, end: nat)

  /** The leftmost match at or after `from`, with the end the matcher tries first. */
  function Find(re: Re, s: string, from: nat): Option<Span>
    decreases |s| - from
  {
    if from > |s| then None
    else
      var ends := Ends(re, s, from);
      if ends != [] then Some(Span(from, ends[0])) else Find(re, s, from + 1)
  }

  predicate MatchesAt(re: Re, s: string, from: nat, span: Span) {
    from <= span.start <= span.end <= |s| && Matches(re, s[span.start..span.end])
  }

  lemma FirstEndSound(re: Re, s: string, i: nat)
    requires i <= |s| && Ends(re, s, i) != []
    ensures MatchesAt(re, s, i, Span(i, Ends(re, s, i)[0]))
  {
    EndsSound(re, s, i, Ends(re, s, i)[0]);
  }

  lemma {:induction false} FindSound(re: Re, s: string, from: nat)
    ensures Find(re, s, from).Some? ==> MatchesAt(re, s, from, Find(re, s, from).value)
    decreases |s| - from
  {
    if from <= |s| {
      if Ends(re, s, from) != [] {
        FirstEndSound(re, s, from);
      } else {
        FindSound(re, s, from + 1);
      }
    }
  }

  lemma {:induction false} FindLeftmost(re: Re, s: string, from: nat, i: nat, j: nat)
    requires from <= i <= j <= |s| && Matches(re, s[i..j])
    ensures Find(re, s, from).Some? && Find(re, s, from).value.start <= i
    decreases |s| - from
  {
    EndsComplete(re, s, i, j);
    if Ends(re, s, from) == [] {
      FindLeftmost(re, s, from + 1, i, j);
    }
  }

  /** Concatenation of several expressions. */
  function Concat(parts: seq<Re>): Re
    requires parts != []
  {
    if |parts| == 1 then parts[0] else Cat(parts[0], Concat(parts[1..]))
  }
}

/** What makes a pattern safe to replace, checked on its syntax. */
module PhraseCheck {
  import opened Regex

  predicate Bracket(c: char) {
    c == '[' || c == ']'
  }

  /** A string without brackets that has white space in it, and so is not empty. */
  predicate PhraseText(s: string) {
    && (forall i :: 0 <= i < |s| ==> !Bracket(s[i]))
    && (exists i :: 0 <= i < |s| && In(Space, s[i]))
  }

  /** No string of the language contains a bracket. */
  predicate BracketFree(re: Re) {
    match re
    case Text(t) => forall i :: 0 <= i < |t| ==> !Bracket(t[i])
    case Plus(_) => true
    case Cat(l, r) => BracketFree(l) && BracketFree(r)
    case Alt(l, r) => BracketFree(l) && BracketFree(r)
    case Opt(b) => BracketFree(b)
  }

  /** Every string of the language contains white space. */
  predicate NeedsSpace(re: Re) {
    match re
    case Text(_) => false
    case Plus(cls) => cls.Space?
    case Cat(l, r) => NeedsSpace(l) || NeedsSpace(r)
    case Alt(l, r) => NeedsSpace(l) && NeedsSpace(r)
    case Opt(_) => false
  }

  lemma {:induction false} BracketFreeMatches(re: Re, s: string)
    requires BracketFree(re) && Matches(re, s)
    ensures forall i :: 0 <= i < |s| ==> !Bracket(s[i])
  {
    match re
    case Text(_) =>
    case Plus(_) =>
    case Alt(l, r) =>
      if Matches(l, s) { BracketFreeMatches(l, s); } else { BracketFreeMatches(r, s); }
    case Opt(b) =>
      if s != [] { BracketFreeMatches(b, s); }
    case Cat(l, r) =>
      var k :| 0 <= k <= |s| && Matches(l, s[..k]) && Matches(r, s[k..]);
      BracketFreeMatches(l, s[..k]);
      BracketFreeMatches(r, s[k..]);
      assert s == s[..k] + s[k..];
  }

  lemma {:induction false} SpacedMatches(re: Re, s: string)
    requires NeedsSpace(re) && Matches(re, s)
    ensures exists i :: 0 <= i < |s| && In(Space, s[i])
  {
    match re
    case Plus(_) =>
      assert In(Space, s[0]);
    case Alt(l, r) =>
      if Matches(l, s) { SpacedMatches(l, s); } else { SpacedMatches(r, s); }
    case Cat(l, r) =>
      var k :| 0 <= k <= |s| && Matches(l, s[..k]) && Matches(r, s[k..]);
      if NeedsSpace(l) {
        SpacedMatches(l, s[..k]);
        var i :| 0 <= i < k && In(Space, s[..k][i]);
        assert In(Space, s[i]);
      } else {
        SpacedMatches(r, s[k..]);
        var i :| 0 <= i < |s| - k && In(Space, s[k..][i]);
        assert In(Space, s[k + i]);
      }
  }

  predicate Phrase(re: Re) {
    BracketFree(re) && NeedsSpace(re)
  }

  lemma PhraseMatches(re: Re, s: string)
    requires Phrase(re) && Matches(re, s)
    ensures PhraseText(s)
  {
    BracketFreeMatches(re, s);
    SpacedMatches(re, s);
  }

  /** A concatenation is a phrase if no part has brackets and one of them is a stretch of white space. */
  lemma {:induction false} ConcatPhrase(parts: seq<Re>)
    requires parts != []
    requires forall i :: 0 <= i < |parts| ==> BracketFree(parts[i])
    ensures BracketFree(Concat(parts))
    ensures (exists i :: 0 <= i < |parts| && parts[i] == Plus(Space)) ==> NeedsSpace(Concat(parts))
  {
    if |parts| > 1 {
      ConcatPhrase(parts[1..]);
      assert forall i :: 0 < i < |parts| ==> parts[i] == parts[1..][i - 1];
    }
  }
}
