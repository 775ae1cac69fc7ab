/** Which match is replaced: for the five expressions the matcher's first choice is the longest one. */
module SanitizerSearch {
  import opened Common
  import opened Regex
  import opened PhraseCheck
  import opened Replacement
  import opened Sanitizer
  import opened Phrases

  predicate Falling(r: seq<nat>) {
    forall a, b :: 0 <= a < b < |r| ==> r[a] >= r[b]
  }

  /** The ends offered come in falling order, so the first is the longest match. */
  ghost predicate Descends(re: Re) {
    forall s, i: nat :: i <= |s| ==> Falling(Ends(re, s, i))
  }

  ghost predicate Single(re: Re) {
    forall s, i: nat :: i <= |s| ==> |Ends(re, s, i)| <= 1
  }

  ghost predicate NoBlankStart(re: Re) {
    forall s, i: nat :: i < |s| && In(Space, s[i]) ==> Ends(re, s, i) == []
  }

  /** The two never match at the same place. */
  ghost predicate Exclusive(l: Re, r: Re) {
    forall s, i: nat :: i <= |s| ==> Ends(l, s, i) == [] || Ends(r, s, i) == []
  }

  lemma TextEnds(t: string)
    ensures Single(Text(t))
    ensures t != "" && 'a' <= t[0] <= 'z' ==> NoBlankStart(Text(t))
  {
    if t != "" && 'a' <= t[0] <= 'z' {
      forall s, i: nat | i < |s| && In(Space, s[i]) ensures Ends(Text(t), s, i) == [] {
        if i + |t| <= |s| {
          assert s[i..i + |t|][0] == s[i];
        }
      }
    }
  }

  /** Words that differ in a letter both of them have. */
  lemma TextsExclusive(x: string, y: string, p: nat)
    requires p < |x| && p < |y| && Fold(x[p]) != Fold(y[p])
    ensures Exclusive(Text(x), Text(y))
  {
    forall s, i: nat | i <= |s| ensures Ends(Text(x), s, i) == [] || Ends(Text(y), s, i) == [] {
      if i + |x| <= |s| && i + |y| <= |s| {
        assert s[i..i + |x|][p] == s[i + p] == s[i..i + |y|][p];
      }
    }
  }

  lemma ContinueOne(re: Re, s: string, i: nat, k: nat)
    requires i <= k <= |s|
    ensures Continue(re, s, i, [k]) == Ends(re, s, k)
  {
    assert [k][1..] == [];
  }

  lemma CatEndsAre(l: Re, r: Re, s: string, i: nat)
    requires i <= |s| && |Ends(l, s, i)| <= 1
    ensures Ends(Cat(l, r), s, i) == if Ends(l, s, i) == [] then [] else Ends(r, s, Ends(l, s, i)[0])
  {
    if Ends(l, s, i) != [] {
      assert Ends(l, s, i) == [Ends(l, s, i)[0]];
      ContinueOne(r, s, i, Ends(l, s, i)[0]);
    }
  }

  lemma AfterSingle(l: Re, r: Re)
    requires Single(l)
    ensures Descends(r) ==> Descends(Cat(l, r))
    ensures Single(r) ==> Single(Cat(l, r))
    ensures NoBlankStart(l) ==> NoBlankStart(Cat(l, r))
    ensures forall x :: Exclusive(x, l) ==> Exclusive(x, Cat(l, r))
  {
    forall s, i: nat | i <= |s|
      ensures Ends(Cat(l, r), s, i) == if Ends(l, s, i) == [] then [] else Ends(r, s, Ends(l, s, i)[0])
    {
      CatEndsAre(l, r, s, i);
    }
  }

  lemma {:induction false} ContinueNone(re: Re, s: string, i: nat, xs: seq<nat>)
    requires i <= |s| && Within(xs, i, |s|)
    requires forall n :: 0 <= n < |xs| ==> Ends(re, s, xs[n]) == []
    ensures Continue(re, s, i, xs) == []
    decreases |xs|
  {
    if xs != [] {
      ContinueNone(re, s, i, xs[1..]);
      assert Ends(re, s, xs[0]) == [];
    }
  }

  /** If nothing can follow at the other places, only the first one counts. */
  lemma ContinueFirst(re: Re, s: string, i: nat, xs: seq<nat>)
    requires i <= |s| && Within(xs, i, |s|) && xs != []
    requires forall n :: 1 <= n < |xs| ==> Ends(re, s, xs[n]) == []
    ensures Continue(re, s, i, xs) == Ends(re, s, xs[0])
  {
    ContinueNone(re, s, i, xs[1..]);
    assert Ends(re, s, xs[0]) + [] == Ends(re, s, xs[0]);
  }

  lemma {:induction false} DownwardAt(i: nat, e: nat, n: nat)
    requires i <= e && n < |Downward(i, e)|
    ensures Downward(i, e)[n] == e - n
  {
    if n > 0 {
      DownwardAt(i, e - 1, n - 1);
    }
  }

  /** So it is with the ends of white space, if what follows does not begin with white space. */
  lemma ContinueBlanks(r: Re, s: string, i: nat, j: nat, e: nat)
    requires i <= j <= e <= |s| && NoBlankStart(r)
    requires forall k :: j <= k < e ==> In(Space, s[k])
    ensures Continue(r, s, i, Downward(j, e)) == if j == e then [] else Ends(r, s, e)
  {
    var xs := Downward(j, e);
    if j < e {
      DownwardAt(j, e, 0);
      forall n | 1 <= n < |xs| ensures Ends(r, s, xs[n]) == [] {
        DownwardAt(j, e, n);
        assert xs[n] in xs && In(Space, s[e - n]);
      }
      ContinueFirst(r, s, i, xs);
    }
  }

  lemma AfterBlanks(r: Re)
    requires NoBlankStart(r)
    ensures Descends(r) ==> Descends(Cat(SPACES, r))
    ensures Single(r) ==> Single(Cat(SPACES, r))
  {
    forall s, i: nat | i <= |s|
      ensures var e := RunEnd(Space, s, i); Ends(Cat(SPACES, r), s, i) == if i == e then [] else Ends(r, s, e)
    {
      ContinueBlanks(r, s, i, i, RunEnd(Space, s, i));
    }
  }

  lemma AltEndsAre(l: Re, r: Re, s: string, i: nat)
    requires i <= |s| && Exclusive(l, r)
    ensures Ends(Alt(l, r), s, i) == if Ends(l, s, i) == [] then Ends(r, s, i) else Ends(l, s, i)
  {
    assert Ends(l, s, i) + [] == Ends(l, s, i) && [] + Ends(r, s, i) == Ends(r, s, i);
  }

  lemma EitherSingle(l: Re, r: Re)
    requires Exclusive(l, r)
    ensures Single(l) && Single(r) ==> Single(Alt(l, r))
    ensures Descends(l) && Descends(r) ==> Descends(Alt(l, r))
    ensures NoBlankStart(l) && NoBlankStart(r) ==> NoBlankStart(Alt(l, r))
  {
    forall s, i: nat | i <= |s| && Single(l) && Single(r) ensures |Ends(Alt(l, r), s, i)| <= 1 {
      AltEndsAre(l, r, s, i);
    }
    forall s, i: nat | i <= |s| && Descends(l) && Descends(r) ensures Falling(Ends(Alt(l, r), s, i)) {
      AltEndsAre(l, r, s, i);
    }
    forall s, i: nat | i < |s| && In(Space, s[i]) && NoBlankStart(l) && NoBlankStart(r)
      ensures Ends(Alt(l, r), s, i) == []
    {
      AltEndsAre(l, r, s, i);
    }
  }

  lemma ExclusiveWithBoth(x: Re, l: Re, r: Re)
    requires Exclusive(x, l) && Exclusive(x, r)
    ensures Exclusive(x, Alt(l, r))
  {
    forall s, i: nat | i <= |s| ensures Ends(x, s, i) == [] || Ends(Alt(l, r), s, i) == [] {
      assert [] + [] == Ends(l, s, i) + Ends(r, s, i) || Ends(x, s, i) == [];
    }
  }

  lemma {:induction false} ContinueAppend(re: Re, s: string, i: nat, xs: seq<nat>, k: nat)
    requires i <= k <= |s| && Within(xs, i, |s|)
    ensures Within(xs + [k], i, |s|)
    ensures Continue(re, s, i, xs + [k]) == Continue(re, s, i, xs) + Ends(re, s, k)
    decreases |xs|
  {
    if xs == [] {
      assert xs + [k] == [k];
      ContinueOne(re, s, i, k);
    } else {
      assert (xs + [k])[1..] == xs[1..] + [k];
      ContinueAppend(re, s, i, xs[1..], k);
    }
  }

  /** "all" and white space, if they are there, and then something that does not begin like that. */
  lemma OptionalAllEnds(r: Re, s: string, i: nat)
    requires i <= |s| && NoBlankStart(r) && Exclusive(Text("all"), r)
    ensures var e := if Ends(Text("all"), s, i) == [] then i else RunEnd(Space, s, i + 3);
            Ends(Cat(OptionalAll(), r), s, i) == Ends(r, s, e) || Ends(Cat(OptionalAll(), r), s, i) == []
  {
    var c := Cat(Text("all"), SPACES);
    TextEnds("all");
    CatEndsAre(Text("all"), SPACES, s, i);
    ContinueAppend(r, s, i, Ends(c, s, i), i);
    if Ends(Text("all"), s, i) == [] {
      assert [] + Ends(r, s, i) == Ends(r, s, i);
    } else {
      ContinueBlanks(r, s, i, i + 3, RunEnd(Space, s, i + 3));
      assert Continue(r, s, i, Ends(c, s, i)) + [] == Continue(r, s, i, Ends(c, s, i));
    }
  }

  lemma AfterOptionalAll(r: Re)
    requires NoBlankStart(r) && Exclusive(Text("all"), r)
    ensures Descends(r) ==> Descends(Cat(OptionalAll(), r))
    ensures NoBlankStart(Cat(OptionalAll(), r))
  {
    TextEnds("all");
    forall s, i: nat | i <= |s| && Descends(r) ensures Falling(Ends(Cat(OptionalAll(), r), s, i)) {
      OptionalAllEnds(r, s, i);
    }
    forall s, i: nat | i < |s| && In(Space, s[i]) ensures Ends(Cat(OptionalAll(), r), s, i) == [] {
      OptionalAllEnds(r, s, i);
    }
  }

  lemma DownwardFalls(i: nat, e: nat)
    requires i <= e
    ensures Falling(Downward(i, e))
  {
    forall n | 0 <= n < |Downward(i, e)| ensures Downward(i, e)[n] == e - n {
      DownwardAt(i, e, n);
    }
  }

  lemma WordsDescend()
    ensures Descends(WORDS) && NoBlankStart(WORDS)
  {
    forall s, i: nat | i <= |s| ensures Falling(Ends(WORDS, s, i)) {
      DownwardFalls(i, RunEnd(Word, s, i));
    }
  }

  lemma OptionalTextDescends(t: string)
    ensures Descends(Opt(Text(t)))
  {
    forall s, i: nat | i <= |s| ensures Falling(Ends(Opt(Text(t)), s, i)) {
      assert Ends(Opt(Text(t)), s, i) == Ends(Text(t), s, i) + [i];
    }
  }

  lemma InstructionsDescend()
    ensures Descends(Instructions()) && NoBlankStart(Instructions())
  {
    TextEnds("instruction");
    OptionalTextDescends("s");
    AfterSingle(Text("instruction"), Opt(Text("s")));
  }

  /** The tail of the first and fourth expressions: the word, white space, "instruction(s)". */
  lemma InstructionsAfter(which: Re)
    requires Single(which) && NoBlankStart(which) && Exclusive(Text("all"), which)
    ensures var r := Cat(which, Cat(SPACES, Instructions()));
            Descends(Cat(SPACES, Cat(OptionalAll(), r)))
  {
    var r := Cat(which, Cat(SPACES, Instructions()));
    InstructionsDescend();
    AfterBlanks(Instructions());
    AfterSingle(which, Cat(SPACES, Instructions()));
    AfterOptionalAll(r);
    AfterBlanks(Cat(OptionalAll(), r));
  }

  lemma PriorOrAboveSingle()
    ensures var two := Alt(Text("prior"), Text("above")); Single(two) && NoBlankStart(two)
  {
    TextEnds("prior");
    TextEnds("above");
    TextsExclusive("prior", "above", 0);
    EitherSingle(Text("prior"), Text("above"));
  }

  lemma PriorOrAboveExclusive()
    ensures Exclusive(Text("all"), Alt(Text("prior"), Text("above")))
    ensures Exclusive(Text("previous"), Alt(Text("prior"), Text("above")))
  {
    TextsExclusive("previous", "prior", 2);
    TextsExclusive("previous", "above", 0);
    ExclusiveWithBoth(Text("previous"), Text("prior"), Text("above"));
    TextsExclusive("all", "prior", 0);
    TextsExclusive("all", "above", 1);
    ExclusiveWithBoth(Text("all"), Text("prior"), Text("above"));
  }

  lemma EarlierSingle()
    ensures var which := Alt(Text("previous"), Alt(Text("prior"), Text("above")));
            Single(which) && NoBlankStart(which) && Exclusive(Text("all"), which)
  {
    var two := Alt(Text("prior"), Text("above"));
    PriorOrAboveSingle();
    PriorOrAboveExclusive();
    TextEnds("previous");
    EitherSingle(Text("previous"), two);
    TextsExclusive("all", "previous", 0);
    ExclusiveWithBoth(Text("all"), Text("previous"), two);
  }

  lemma IgnoreDescends()
    ensures Descends(Ignore())
  {
    var which := Alt(Text("previous"), Alt(Text("prior"), Text("above")));
    EarlierSingle();
    InstructionsAfter(which);
    TextEnds("ignore");
    AfterSingle(Text("ignore"), Cat(SPACES, Cat(OptionalAll(), Cat(which, Cat(SPACES, Instructions())))));
    ConcatSix(IgnoreParts());
  }

  lemma PreviousOrPriorSingle()
    ensures var which := Alt(Text("previous"), Text("prior"));
            Single(which) && NoBlankStart(which) && Exclusive(Text("all"), which)
  {
    TextEnds("previous");
    TextEnds("prior");
    TextsExclusive("previous", "prior", 2);
    TextsExclusive("all", "previous", 0);
    TextsExclusive("all", "prior", 0);
    EitherSingle(Text("previous"), Text("prior"));
    ExclusiveWithBoth(Text("all"), Text("previous"), Text("prior"));
  }

  lemma DisregardDescends()
    ensures Descends(Disregard())
  {
    var which := Alt(Text("previous"), Text("prior"));
    PreviousOrPriorSingle();
    InstructionsAfter(which);
    TextEnds("disregard");
    AfterSingle(Text("disregard"), Cat(SPACES, Cat(OptionalAll(), Cat(which, Cat(SPACES, Instructions())))));
    ConcatSix(DisregardParts());
  }

  lemma ConcatFirst(p: seq<Re>)
    requires |p| > 1
    ensures Concat(p) == Cat(p[0], Concat(p[1..]))
  {
  }

  lemma ConcatThree(p: seq<Re>)
    requires |p| == 3
    ensures Concat(p) == Cat(p[0], Cat(p[1], p[2]))
  {
    ConcatFirst(p);
    ConcatFirst(p[1..]);
    assert Concat(p[1..][1..]) == p[2];
  }

  lemma ConcatSix(p: seq<Re>)
    requires |p| == 6
    ensures Concat(p) == Cat(p[0], Cat(p[1], Cat(p[2], Cat(p[3], Cat(p[4], p[5])))))
  {
    ConcatFirst(p);
    ConcatFirst(p[1..]);
    assert p[1..][1..] == p[2..] && p[2..][1..] == p[3..];
    ConcatFirst(p[2..]);
    ConcatThree(p[3..]);
  }

  lemma ConcatSeven(p: seq<Re>)
    requires |p| == 7
    ensures Concat(p) == Cat(p[0], Cat(p[1], Cat(p[2], Cat(p[3], Cat(p[4], Cat(p[5], p[6]))))))
  {
    ConcatFirst(p);
    ConcatSix(p[1..]);
  }

  lemma AllInstructionsDescend()
    ensures var all := Concat(AllInstructionsParts());
            Descends(all) && NoBlankStart(all) && Exclusive(Text("everything"), all)
  {
    InstructionsDescend();
    AfterBlanks(Instructions());
    TextEnds("all");
    TextsExclusive("everything", "all", 0);
    AfterSingle(Text("all"), Cat(SPACES, Instructions()));
    ConcatThree(AllInstructionsParts());
  }

  lemma ForgetDescends()
    ensures Descends(Forget())
  {
    var what := Alt(Text("everything"), Concat(AllInstructionsParts()));
    AllInstructionsDescend();
    TextEnds("everything");
    EitherSingle(Text("everything"), Concat(AllInstructionsParts()));
    AfterBlanks(what);
    TextEnds("forget");
    AfterSingle(Text("forget"), Cat(SPACES, what));
    ConcatThree(ForgetParts());
  }

  lemma YouAreNowDescends()
    ensures Descends(YouAreNow())
  {
    TextEnds("you");
    TextEnds("are");
    TextEnds("now");
    WordsDescend();
    AfterBlanks(WORDS);
    var now := Cat(Text("now"), Cat(SPACES, WORDS));
    AfterSingle(Text("now"), Cat(SPACES, WORDS));
    AfterBlanks(now);
    var are := Cat(Text("are"), Cat(SPACES, now));
    AfterSingle(Text("are"), Cat(SPACES, now));
    AfterBlanks(are);
    AfterSingle(Text("you"), Cat(SPACES, are));
    ConcatSeven(YouAreNowParts());
  }

  lemma IfYouAreSingle()
    ensures Single(Concat(IfYouAreParts())) && NoBlankStart(Concat(IfYouAreParts()))
    ensures Exclusive(Concat(IfYouAreParts()), Text("a"))
  {
    TextEnds("if");
    TextEnds("you");
    TextEnds("are");
    AfterBlanks(Text("are"));
    var you := Cat(Text("you"), Cat(SPACES, Text("are")));
    AfterSingle(Text("you"), Cat(SPACES, Text("are")));
    AfterBlanks(you);
    AfterSingle(Text("if"), Cat(SPACES, you));
    TextsExclusive("a", "if", 0);
    var p := IfYouAreParts();
    assert p[1..][1..] == p[2..];
    ConcatThree(p[2..]);
  }

  lemma ActAsDescends()
    ensures Descends(ActAs())
  {
    var which := Alt(Concat(IfYouAreParts()), Text("a"));
    TextEnds("act");
    TextEnds("as");
    TextEnds("a");
    IfYouAreSingle();
    EitherSingle(Concat(IfYouAreParts()), Text("a"));
    WordsDescend();
    AfterBlanks(WORDS);
    var tail := Cat(which, Cat(SPACES, WORDS));
    AfterSingle(which, Cat(SPACES, WORDS));
    AfterBlanks(tail);
    var as_ := Cat(Text("as"), Cat(SPACES, tail));
    AfterSingle(Text("as"), Cat(SPACES, tail));
    AfterBlanks(as_);
    AfterSingle(Text("act"), Cat(SPACES, as_));
    ConcatSeven(ActAsParts());
  }

  lemma ExpressionsDescend(k: nat)
    requires k < 5
    ensures Descends(Expression(k))
  {
    match k
    case 0 => IgnoreDescends();
    case 1 => ForgetDescends();
    case 2 => YouAreNowDescends();
    case 3 => DisregardDescends();
    case _ => ActAsDescends();
  }

  /** The span matches, nothing matches further to the left, and nothing longer matches from there. */
  ghost predicate LeftmostLongest(re: Re, s: string, from: nat, span: Span) {
    && MatchesAt(re, s, from, span)
    && forall i: nat, j: nat {:trigger s[i..j]} :: from <= i <= j <= |s| && Matches(re, s[i..j]) ==>
         i > span.start || (i == span.start && j <= span.end)
  }

  ghost predicate NoneFrom(re: Re, s: string, from: nat) {
    forall i, j :: from <= i <= j <= |s| ==> !Matches(re, s[i..j])
  }

  /** What the search finds, said without the matcher. */
  lemma FindIff(re: Re, s: string, from: nat)
    requires Descends(re) && from <= |s|
    ensures match Find(re, s, from)
            case Some(span) => forall x :: LeftmostLongest(re, s, from, x) <==> x == span
            case None => NoneFrom(re, s, from)
  {
    if Find(re, s, from).Some? {
      FoundIsLeftmostLongest(re, s, from);
      forall x | LeftmostLongest(re, s, from, x) ensures x == Find(re, s, from).value {
        LeftmostLongestUnique(re, s, from, x, Find(re, s, from).value);
      }
    }
    forall i, j | from <= i <= j <= |s| && Matches(re, s[i..j]) ensures Find(re, s, from).Some? {
      FindLeftmost(re, s, from, i, j);
    }
  }

  lemma FoundIsLeftmostLongest(re: Re, s: string, from: nat)
    requires Descends(re) && from <= |s| && Find(re, s, from).Some?
    ensures LeftmostLongest(re, s, from, Find(re, s, from).value)
  {
    FindSound(re, s, from);
    forall i: nat, j: nat | from <= i <= j <= |s| && Matches(re, s[i..j])
      ensures var span := Find(re, s, from).value; i > span.start || (i == span.start && j <= span.end)
    {
      FindLeftmost(re, s, from, i, j);
      if i == Find(re, s, from).value.start {
        FindLongest(re, s, from, j);
      }
    }
  }

  lemma LeftmostLongestUnique(re: Re, s: string, from: nat, x: Span, y: Span)
    requires LeftmostLongest(re, s, from, x) && LeftmostLongest(re, s, from, y)
    ensures x == y
  {
    assert s[x.start..x.end] == s[x.start..x.end] && s[y.start..y.end] == s[y.start..y.end];
  }

  lemma {:induction false} FindTakesFirst(re: Re, s: string, from: nat)
    requires Find(re, s, from).Some?
    ensures var span := Find(re, s, from).value;
            span.start <= |s| && Ends(re, s, span.start) != [] && span.end == Ends(re, s, span.start)[0]
    decreases |s| - from
  {
    if Ends(re, s, from) == [] {
      FindTakesFirst(re, s, from + 1);
    }
  }

  lemma FindLongest(re: Re, s: string, from: nat, j: nat)
    requires Descends(re) && Find(re, s, from).Some?
    requires Find(re, s, from).value.start <= j <= |s|
    requires Matches(re, s[Find(re, s, from).value.start..j])
    ensures j <= Find(re, s, from).value.end
  {
    FindTakesFirst(re, s, from);
    EndsComplete(re, s, Find(re, s, from).value.start, j);
  }

  /** The text from `from` on with the matches of the expression replaced. */
  ghost function Replaced(re: Re, s: string, from: nat): string
    requires Phrase(re) && from <= |s|
  {
    PatternReplaceable(re);
    ReplaceFrom(PatternOf(re), s, PLACEHOLDER, from)
  }

  lemma NoneLeft(re: Re, s: string, from: nat)
    requires Phrase(re) && from <= |s| && NoneFrom(re, s, from)
    ensures Replaced(re, s, from) == s[from..]
  {
    FindSound(re, s, from);
  }

  /** The leftmost, longest match is replaced, and then the rest of the text. */
  lemma FirstReplaced(re: Re, s: string, from: nat, span: Span)
    requires Phrase(re) && Descends(re) && from <= |s| && LeftmostLongest(re, s, from, span)
    ensures Replaced(re, s, from) == s[from..span.start] + "[filtered]" + Replaced(re, s, span.end)
  {
    FindIff(re, s, from);
    assert Find(re, s, from) == Some(span);
  }

  lemma EmptyRest(re: Re, s: string)
    requires Phrase(re)
    ensures NoneFrom(re, s, |s|)
  {
    forall i, j | |s| <= i <= j <= |s| ensures !Matches(re, s[i..j]) {
      if Matches(re, s[i..j]) {
        PhraseMatches(re, s[i..j]);
      }
    }
  }

  lemma WholeIsLeftmostLongest(re: Re, s: string)
    requires Matches(re, s)
    ensures LeftmostLongest(re, s, 0, Span(0, |s|))
  {
    assert s[0..|s|] == s;
  }

  /** A text that is one whole match is replaced as a whole. */
  lemma WholeMatchReplaced(re: Re, s: string)
    requires Phrase(re) && Descends(re) && Matches(re, s)
    ensures Replaced(re, s, 0) == "[filtered]"
  {
    WholeIsLeftmostLongest(re, s);
    FirstReplaced(re, s, 0, Span(0, |s|));
    EmptyRest(re, s);
    NoneLeft(re, s, |s|);
  }

  lemma NoMatchKept(re: Re, s: string)
    requires Phrase(re) && !MatchesWithin(re, s)
    ensures Replaced(re, s, 0) == s
  {
    NoneLeft(re, s, 0);
    assert s[0..] == s;
  }

  predicate NoBlanks(s: string) {
    forall i :: 0 <= i < |s| ==> !In(Space, s[i])
  }

  lemma NoBlanksKept(re: Re, s: string)
    requires Phrase(re) && NoBlanks(s)
    ensures Replaced(re, s, 0) == s
  {
    forall i, j | 0 <= i <= j <= |s| ensures !Matches(re, s[i..j]) {
      if Matches(re, s[i..j]) {
        PhraseMatches(re, s[i..j]);
      }
    }
    NoMatchKept(re, s);
  }

  ghost predicate AllPhrases(res: seq<Re>) {
    forall i :: 0 <= i < |res| ==> Phrase(res[i])
  }

  /** The text after the expressions have been replaced, the first one first. */
  ghost function Stage(res: seq<Re>, s: string): string
    requires AllPhrases(res)
  {
    if res == [] then s else Replaced(res[|res| - 1], Stage(res[..|res| - 1], s), 0)
  }

  lemma {:induction false} StageIsFiltered(res: seq<Re>, ps: seq<Pattern>, s: string)
    requires AllPhrases(res) && AllReplaceable(ps)
    requires |ps| == |res| && forall i :: 0 <= i < |res| ==> ps[i] == PatternOf(res[i])
    ensures Stage(res, s) == Filtered(ps, s)
  {
    if res != [] {
      StageIsFiltered(res[..|res| - 1], ps[..|ps| - 1], s);
    }
  }

  ghost function Expressions(): (res: seq<Re>)
    ensures |res| == 5 && AllPhrases(res) && forall k :: 0 <= k < 5 ==> res[k] == Expression(k)
  {
    seq(5, k requires 0 <= k < 5 => Expression(k))
  }

  /** The five expressions are replaced one after the other, in the order in which they are listed. */
  lemma SanitizedIsStage(s: string)
    ensures Sanitized(s) == Stage(Expressions(), s)
  {
    StageIsFiltered(Expressions(), InjectionPatterns(), s);
  }

  /** Expressions that do not occur leave the text alone. */
  lemma {:induction false} StageUnchanged(res: seq<Re>, s: string)
    requires AllPhrases(res) && forall i :: 0 <= i < |res| ==> !MatchesWithin(res[i], s)
    ensures Stage(res, s) == s
  {
    if res != [] {
      StageUnchanged(res[..|res| - 1], s);
      NoMatchKept(res[|res| - 1], s);
    }
  }

  /** Once there is no white space left, the later expressions change nothing. */
  lemma {:induction false} StagesKeep(res: seq<Re>, n: nat, s: string)
    requires AllPhrases(res) && n <= |res| && NoBlanks(Stage(res[..n], s))
    ensures Stage(res, s) == Stage(res[..n], s)
    decreases |res|
  {
    if n < |res| {
      var front := res[..|res| - 1];
      assert front[..n] == res[..n];
      StagesKeep(front, n, s);
      NoBlanksKept(res[|res| - 1], Stage(front, s));
    } else {
      assert res[..n] == res;
    }
  }

  lemma StageOfMatch(res: seq<Re>, k: nat, s: string)
    requires AllPhrases(res) && k < |res| && Matches(res[k], s) && Descends(res[k])
    requires forall i :: 0 <= i < k ==> !MatchesWithin(res[i], s)
    ensures Stage(res, s) == "[filtered]"
  {
    StageUnchanged(res[..k], s);
    WholeMatchReplaced(res[k], s);
    StageStep(res, k, s);
    PlaceholderHasNoBlanks(Stage(res[..k + 1], s));
    StagesKeep(res, k + 1, s);
  }

  lemma StageStep(res: seq<Re>, k: nat, s: string)
    requires AllPhrases(res) && k < |res|
    ensures Stage(res[..k + 1], s) == Replaced(res[k], Stage(res[..k], s), 0)
  {
    assert res[..k + 1][..k] == res[..k] && res[..k + 1][k] == res[k];
  }

  lemma PlaceholderHasNoBlanks(t: string)
    requires t == "[filtered]"
    ensures NoBlanks(t)
  {
  }

  /** A text that is one phrase, and nothing an earlier expression matches in, becomes the placeholder. */
  lemma PhraseAlone(k: nat, s: string)
    requires k < 5 && Matches(Expression(k), s)
    requires forall n :: 0 <= n < k ==> !MatchesWithin(Expression(n), s)
    ensures Sanitized(s) == "[filtered]"
  {
    ExpressionsDescend(k);
    StageOfMatch(Expressions(), k, s);
    SanitizedIsStage(s);
  }

  /** Whatever cases and white space: a text that is the first phrase becomes the placeholder. */
  lemma IgnoreIsFiltered(p: seq<string>)
    requires IgnorePieces(p)
    ensures Sanitized(Joined(p)) == "[filtered]"
  {
    IgnorePhrase(Joined(p));
    PhraseAlone(0, Joined(p));
  }

  lemma CapitalsAreSpelt()
    ensures IgnorePieces(["IgNORE", " \t", "All ", "PREVIOUS", "\n", "In\U{17F}tructions"])
  {
  }

  /** The five expressions in their order, by the phrases they stand for. */
  lemma ExpressionsAre(s: string)
    ensures Matches(Expression(0), s) <==> exists p :: IgnorePieces(p) && Joined(p) == s
    ensures Matches(Expression(1), s) <==> exists p :: ForgetPieces(p) && Joined(p) == s
    ensures Matches(Expression(2), s) <==> exists p :: YouAreNowPieces(p) && Joined(p) == s
    ensures Matches(Expression(3), s) <==> exists p :: DisregardPieces(p) && Joined(p) == s
    ensures Matches(Expression(4), s) <==> exists p :: ActAsPieces(p) && Joined(p) == s
  {
    IgnorePhrase(s);
    ForgetPhrase(s);
    YouAreNowPhrase(s);
    DisregardPhrase(s);
    ActAsPhrase(s);
  }
}
