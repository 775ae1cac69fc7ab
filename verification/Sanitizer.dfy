/** The prompt sanitizer: five patterns, replaced in turn. */
module Sanitizer {
  import opened Regex
  import opened PhraseCheck
  import opened Replacement

  const SPACES := Plus(Space)
  const WORDS := Plus(Word)

  function Instructions(): Re {
    Cat(Text("instruction"), Opt(Text("s")))
  }

  function OptionalAll(): Re {
    Opt(Cat(Text("all"), SPACES))
  }

  function IgnoreParts(): seq<Re> {
    [Text("ignore"), SPACES, OptionalAll(), Alt(Text("previous"), Alt(Text("prior"), Text("above"))), SPACES,
     Instructions()]
  }

  function AllInstructionsParts(): seq<Re> {
    [Text("all"), SPACES, Instructions()]
  }

  function ForgetParts(): seq<Re> {
    [Text("forget"), SPACES, Alt(Text("everything"), Concat(AllInstructionsParts()))]
  }

  function YouAreNowParts(): seq<Re> {
    [Text("you"), SPACES, Text("are"), SPACES, Text("now"), SPACES, WORDS]
  }

  function DisregardParts(): seq<Re> {
    [Text("disregard"), SPACES, OptionalAll(), Alt(Text("previous"), Text("prior")), SPACES, Instructions()]
  }

  function IfYouAreParts(): seq<Re> {
    [Text("if"), SPACES, Text("you"), SPACES, Text("are")]
  }

  function ActAsParts(): seq<Re> {
    [Text("act"), SPACES, Text("as"), SPACES, Alt(Concat(IfYouAreParts()), Text("a")), SPACES, WORDS]
  }

  function Ignore(): (re: Re)
    ensures Phrase(re)
  {
    assert IgnoreParts()[1] == Plus(Space);
    ConcatPhrase(IgnoreParts());
    Concat(IgnoreParts())
  }

  function Forget(): (re: Re)
    ensures Phrase(re)
  {
    assert ForgetParts()[1] == Plus(Space);
    ConcatPhrase(ForgetParts());
    Concat(ForgetParts())
  }

  function YouAreNow(): (re: Re)
    ensures Phrase(re)
  {
    assert YouAreNowParts()[1] == Plus(Space);
    ConcatPhrase(YouAreNowParts());
    Concat(YouAreNowParts())
  }

  function Disregard(): (re: Re)
    ensures Phrase(re)
  {
    assert DisregardParts()[1] == Plus(Space);
    ConcatPhrase(DisregardParts());
    Concat(DisregardParts())
  }

  function ActAs(): (re: Re)
    ensures Phrase(re)
  {
    assert ActAsParts()[1] == Plus(Space);
    ConcatPhrase(ActAsParts());
    Concat(ActAsParts())
  }

  function PatternOf(re: Re): Pattern {
    Pattern(s => Matches(re, s), (s, from: nat) => Find(re, s, from))
  }

  lemma PatternReplaceable(re: Re)
    requires Phrase(re)
    ensures Replaceable(PatternOf(re))
  {
    var p := PatternOf(re);
    forall s | p.language(s) ensures PhraseText(s) {
      PhraseMatches(re, s);
    }
    forall s, from: nat | from <= |s|
      ensures match p.find(s, from)
              case None => forall i :: from <= i <= |s| ==> !StartsAt(p, s, i)
              case Some(span) => FoundIn(p, s, from, span) && forall i :: from <= i < span.start ==> !StartsAt(p, s, i)
    {
      FindSound(re, s, from);
      forall i, j | from <= i <= j <= |s| && p.language(s[i..j])
        ensures p.find(s, from).Some? && p.find(s, from).value.start <= i
      {
        FindLeftmost(re, s, from, i, j);
      }
    }
  }

  /** The expressions in the order in which they are replaced. */
  function Expression(k: nat): (re: Re)
    requires k < 5
    ensures Phrase(re)
  {
    match k
    case 0 => Ignore()
    case 1 => Forget()
    case 2 => YouAreNow()
    case 3 => Disregard()
    case _ => ActAs()
  }

  lemma ExpressionsReplaceable()
    ensures forall k :: 0 <= k < 5 ==> Replaceable(PatternOf(Expression(k)))
  {
    forall k | 0 <= k < 5 ensures Replaceable(PatternOf(Expression(k))) {
      PatternReplaceable(Expression(k));
    }
  }

  function InjectionPatterns(): (ps: seq<Pattern>)
    ensures |ps| == 5 && forall k :: 0 <= k < 5 ==> ps[k] == PatternOf(Expression(k))
    ensures AllReplaceable(ps)
  {
    ExpressionsReplaceable();
    seq(5, k requires 0 <= k < 5 => PatternOf(Expression(k)))
  }

  ghost function Sanitized(s: string): string {
    Filtered(InjectionPatterns(), s)
  }

  method SanitizeInput(input: string) returns (r: string)
    ensures r == Sanitized(input)
  {
    r := ReplaceEach(InjectionPatterns(), input);
  }

  lemma SanitizedClean(s: string)
    ensures Clean(InjectionPatterns(), Sanitized(s))
  {
    FilteredIsClean(InjectionPatterns(), s);
  }

  /** No stretch of sanitized text matches any of the five expressions. */
  lemma SanitizedIsClean(s: string, k: nat, i: nat, j: nat)
    requires k < 5
    ensures i <= j <= |Sanitized(s)| ==> !Matches(Expression(k), Sanitized(s)[i..j])
  {
    SanitizedClean(s);
    OccursIff(Expression(k), Sanitized(s));
    assert !Occurs(InjectionPatterns()[k], Sanitized(s));
  }

  /** Some stretch of the text matches the expression. */
  ghost predicate MatchesWithin(re: Re, s: string) {
    exists i, j :: 0 <= i <= j <= |s| && Matches(re, s[i..j])
  }

  lemma OccursIff(re: Re, s: string)
    ensures Occurs(PatternOf(re), s) <==> MatchesWithin(re, s)
  {
    if MatchesWithin(re, s) {
      var i, j :| 0 <= i <= j <= |s| && Matches(re, s[i..j]);
      assert PatternOf(re).language(s[i..j]) && StartsAt(PatternOf(re), s, i);
    }
    if Occurs(PatternOf(re), s) {
      var i :| 0 <= i <= |s| && StartsAt(PatternOf(re), s, i);
      var j :| i <= j <= |s| && PatternOf(re).language(s[i..j]);
      assert Matches(re, s[i..j]);
    }
  }

  /** Some stretch of the text matches one of the five expressions. */
  ghost predicate Injected(s: string) {
    exists k :: 0 <= k < 5 && MatchesWithin(Expression(k), s)
  }

  lemma InjectedIff(s: string)
    ensures Injected(s) <==> !Clean(InjectionPatterns(), s)
  {
    forall k | 0 <= k < 5 ensures Occurs(InjectionPatterns()[k], s) <==> MatchesWithin(Expression(k), s) {
      OccursIff(Expression(k), s);
    }
  }

  /** Text is left unchanged exactly when nothing in it matches. */
  lemma SanitizeFixesIff(s: string)
    ensures Sanitized(s) == s <==> !Injected(s)
  {
    InjectedIff(s);
    FilteredFixesIff(InjectionPatterns(), s);
  }

  lemma SanitizeIdempotent(s: string)
    ensures Sanitized(Sanitized(s)) == Sanitized(s)
  {
    SanitizedClean(s);
    InjectedIff(Sanitized(s));
    SanitizeFixesIff(Sanitized(s));
  }

  /** Text around a matched phrase is always changed. */
  lemma PhrasesAreFiltered(k: nat, before: string, phrase: string, after: string)
    requires k < 5 && Matches(Expression(k), phrase)
    ensures Sanitized(before + phrase + after) != before + phrase + after
  {
    var s := before + phrase + after;
    assert s[|before|..|before| + |phrase|] == phrase;
    assert MatchesWithin(Expression(k), s);
    SanitizeFixesIff(s);
  }
}
