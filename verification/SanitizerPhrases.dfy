/** The phrases that the five expressions stand for, said by characters. */
module Phrases {
  import opened Regex
  import opened Sanitizer

  function Joined(pieces: seq<string>): string {
    if pieces == [] then "" else pieces[0] + Joined(pieces[1..])
  }

  /** Piece by piece, the text fits the parts of a concatenation. */
  predicate Fits(parts: seq<Re>, pieces: seq<string>) {
    |parts| == |pieces| && forall i :: 0 <= i < |parts| ==> Matches(parts[i], pieces[i])
  }

  lemma FitsThree(parts: seq<Re>, p: seq<string>)
    requires |parts| == |p| == 3
    ensures Fits(parts, p) <==> Matches(parts[0], p[0]) && Matches(parts[1], p[1]) && Matches(parts[2], p[2])
  {
  }

  lemma FitsSix(parts: seq<Re>, p: seq<string>)
    requires |parts| == |p| == 6
    ensures Fits(parts, p) <==> Fits(parts[..3], p[..3]) && Fits(parts[3..], p[3..])
    ensures Fits(parts, p) <==>
              && Matches(parts[0], p[0]) && Matches(parts[1], p[1]) && Matches(parts[2], p[2])
              && Matches(parts[3], p[3]) && Matches(parts[4], p[4]) && Matches(parts[5], p[5])
  {
    FitsThree(parts[..3], p[..3]);
    FitsThree(parts[3..], p[3..]);
  }

  lemma FitsSeven(parts: seq<Re>, p: seq<string>)
    requires |parts| == |p| == 7
    ensures Fits(parts, p) <==>
              && Matches(parts[0], p[0]) && Matches(parts[1], p[1]) && Matches(parts[2], p[2])
              && Matches(parts[3], p[3]) && Matches(parts[4], p[4]) && Matches(parts[5], p[5])
              && Matches(parts[6], p[6])
  {
    FitsSix(parts[..6], p[..6]);
  }

  lemma {:induction false} FitsMatches(parts: seq<Re>, pieces: seq<string>)
    requires parts != [] && Fits(parts, pieces)
    ensures Matches(Concat(parts), Joined(pieces))
  {
    if |parts| == 1 {
      assert Joined(pieces[1..]) == "" && pieces[0] + "" == pieces[0];
    } else {
      FitsMatches(parts[1..], pieces[1..]);
      var s, k := Joined(pieces), |pieces[0]|;
      assert s[..k] == pieces[0] && s[k..] == Joined(pieces[1..]);
      CatMatches(parts[0], Concat(parts[1..]), s, k);
    }
  }

  lemma JoinedCons(head: string, rest: seq<string>)
    ensures Joined([head] + rest) == head + Joined(rest)
  {
    assert ([head] + rest)[1..] == rest;
  }

  lemma FitsCons(re: Re, parts: seq<Re>, head: string, rest: seq<string>)
    requires Matches(re, head) && Fits(parts, rest)
    ensures Fits([re] + parts, [head] + rest)
  {
  }

  lemma {:induction false} MatchesFits(parts: seq<Re>, s: string) returns (pieces: seq<string>)
    requires parts != [] && Matches(Concat(parts), s)
    ensures Fits(parts, pieces) && Joined(pieces) == s
  {
    if |parts| == 1 {
      pieces := [s];
      JoinedCons(s, []);
      assert s + "" == s;
    } else {
      var k :| 0 <= k <= |s| && Matches(parts[0], s[..k]) && Matches(Concat(parts[1..]), s[k..]);
      var rest := MatchesFits(parts[1..], s[k..]);
      pieces := [s[..k]] + rest;
      JoinedCons(s[..k], rest);
      FitsCons(parts[0], parts[1..], s[..k], rest);
      assert [parts[0]] + parts[1..] == parts && s[..k] + s[k..] == s;
    }
  }

  lemma ConcatIff(parts: seq<Re>, s: string)
    requires parts != []
    ensures Matches(Concat(parts), s) <==> exists p :: Fits(parts, p) && Joined(p) == s
  {
    if Matches(Concat(parts), s) {
      var p := MatchesFits(parts, s);
    }
    forall p | Fits(parts, p) && Joined(p) == s ensures Matches(Concat(parts), s) {
      FitsMatches(parts, p);
    }
  }

  /** Space, tab, newline, form feed or carriage return. */
  predicate BlankChar(c: char) {
    c == ' ' || c == '\t' || c == '\n' || c == '\U{C}' || c == '\r'
  }

  /** A non-empty stretch of white space. */
  predicate Blank(w: string) {
    w != [] && forall i :: 0 <= i < |w| ==> BlankChar(w[i])
  }

  /** A letter of either case, a digit, an underscore, or one of the two characters that fold to a letter. */
  predicate WordChar(c: char) {
    || 'a' <= c <= 'z' || 'A' <= c <= 'Z' || '0' <= c <= '9' || c == '_'
    || c == '\U{17F}' || c == '\U{212A}'
  }

  predicate WordText(w: string) {
    w != [] && forall i :: 0 <= i < |w| ==> WordChar(w[i])
  }

  /** `d` is the small letter `c`, its capital, or a long s or Kelvin sign where those are meant. */
  predicate Spells(c: char, d: char) {
    d == c || c as int - d as int == 32 || (c == 's' && d == '\U{17F}') || (c == 'k' && d == '\U{212A}')
  }

  /** The word, in any mixture of cases. */
  predicate Says(word: string, s: string) {
    |s| == |word| && forall i :: 0 <= i < |word| ==> Spells(word[i], s[i])
  }

  predicate Small(word: string) {
    forall i :: 0 <= i < |word| ==> 'a' <= word[i] <= 'z'
  }

  /** Case folding identifies a small letter with exactly the characters that spell it. */
  lemma FoldSpells(c: char, d: char)
    requires 'a' <= c <= 'z'
    ensures Fold(c) == Fold(d) <==> Spells(c, d)
  {
  }

  lemma TextIff(word: string, s: string)
    requires Small(word)
    ensures Matches(Text(word), s) <==> Says(word, s)
  {
    if |word| == |s| {
      forall i | 0 <= i < |word| ensures Fold(word[i]) == Fold(s[i]) <==> Spells(word[i], s[i]) {
        FoldSpells(word[i], s[i]);
      }
    }
  }

  lemma BlankIff(w: string)
    ensures Matches(SPACES, w) <==> Blank(w)
  {
    assert forall i :: 0 <= i < |w| ==> (In(Space, w[i]) <==> BlankChar(w[i]));
  }

  lemma WordIff(w: string)
    ensures Matches(WORDS, w) <==> WordText(w)
  {
    forall i | 0 <= i < |w| ensures In(Word, w[i]) <==> WordChar(w[i]) {
    }
  }

  predicate SaysInstructions(s: string) {
    Says("instruction", s) || Says("instructions", s)
  }

  /** Nothing, or the word "all" and white space. */
  predicate SaysAllOrNothing(s: string) {
    s == "" || (|s| > 3 && Says("all", s[..3]) && Blank(s[3..]))
  }

  lemma SaysConcat(x: string, y: string, s: string)
    ensures Says(x + y, s) <==> |s| == |x| + |y| && Says(x, s[..|x|]) && Says(y, s[|x|..])
  {
    if |s| == |x| + |y| {
      assert forall i :: 0 <= i < |x| ==> (x + y)[i] == x[i] && s[..|x|][i] == s[i];
      assert forall i :: 0 <= i < |y| ==> (x + y)[|x| + i] == y[i] && s[|x|..][i] == s[|x| + i];
      if Says(x, s[..|x|]) && Says(y, s[|x|..]) {
        forall i | 0 <= i < |s| ensures Spells((x + y)[i], s[i]) {
          assert i >= |x| ==> (x + y)[i] == y[i - |x|] && s[|x|..][i - |x|] == s[i];
        }
      }
    }
  }

  lemma InstructionsIff(s: string)
    ensures Matches(Instructions(), s) <==> SaysInstructions(s)
  {
    var word, plural := Text("instruction"), Opt(Text("s"));
    assert "instruction" + "s" == "instructions";
    SaysConcat("instruction", "s", s);
    if Matches(Instructions(), s) {
      var k :| 0 <= k <= |s| && Matches(word, s[..k]) && Matches(plural, s[k..]);
      TextIff("instruction", s[..k]);
      TextIff("s", s[k..]);
      assert k == 11;
      assert s[k..] == "" || Matches(Text("s"), s[k..]);
      assert s[k..] == "" ==> s[..k] == s;
    }
    if Says("instruction", s) {
      assert s[..11] == s && s[11..] == "";
      TextIff("instruction", s[..11]);
      CatMatches(word, plural, s, 11);
    }
    if Says("instructions", s) {
      TextIff("instruction", s[..11]);
      TextIff("s", s[11..]);
      CatMatches(word, plural, s, 11);
    }
  }

  lemma OptionalAllIff(s: string)
    ensures Matches(OptionalAll(), s) <==> SaysAllOrNothing(s)
  {
    if s != "" && Matches(OptionalAll(), s) {
      assert Matches(Cat(Text("all"), SPACES), s);
      var k :| 0 <= k <= |s| && Matches(Text("all"), s[..k]) && Matches(SPACES, s[k..]);
      TextIff("all", s[..k]);
      BlankIff(s[k..]);
    }
    if |s| > 3 && Says("all", s[..3]) && Blank(s[3..]) {
      TextIff("all", s[..3]);
      BlankIff(s[3..]);
      CatMatches(Text("all"), SPACES, s, 3);
      assert Matches(Cat(Text("all"), SPACES), s);
    }
  }

  lemma AltIff(l: Re, r: Re, s: string)
    ensures Matches(Alt(l, r), s) <==> Matches(l, s) || Matches(r, s)
  {
  }

  lemma EarlierIff(s: string)
    ensures Matches(Alt(Text("previous"), Alt(Text("prior"), Text("above"))), s)
            <==> Says("previous", s) || Says("prior", s) || Says("above", s)
  {
    TextIff("previous", s);
    TextIff("prior", s);
    TextIff("above", s);
    AltIff(Text("prior"), Text("above"), s);
  }

  /** The pieces of the first phrase: "ignore", "all" if it is there, one of three words, "instruction(s)". */
  predicate IgnorePieces(p: seq<string>) {
    && |p| == 6
    && Says("ignore", p[0]) && Blank(p[1]) && SaysAllOrNothing(p[2])
    && (Says("previous", p[3]) || Says("prior", p[3]) || Says("above", p[3]))
    && Blank(p[4]) && SaysInstructions(p[5])
  }

  lemma IgnoreFits(p: seq<string>)
    ensures Fits(IgnoreParts(), p) <==> IgnorePieces(p)
  {
    if |p| == 6 {
      TextIff("ignore", p[0]);
      BlankIff(p[1]);
      OptionalAllIff(p[2]);
      EarlierIff(p[3]);
      BlankIff(p[4]);
      InstructionsIff(p[5]);
      FitsSix(IgnoreParts(), p);
    }
  }

  /** What each expression stands for, in any case and with any white space. */
  lemma IgnorePhrase(s: string)
    ensures Matches(Ignore(), s) <==> exists p :: IgnorePieces(p) && Joined(p) == s
  {
    ConcatIff(IgnoreParts(), s);
    forall p ensures Fits(IgnoreParts(), p) <==> IgnorePieces(p) {
      IgnoreFits(p);
    }
  }

  predicate AllInstructionsPieces(p: seq<string>) {
    |p| == 3 && Says("all", p[0]) && Blank(p[1]) && SaysInstructions(p[2])
  }

  /** "forget everything", or "forget all instruction(s)". */
  ghost predicate ForgetPieces(p: seq<string>) {
    && |p| == 3
    && Says("forget", p[0]) && Blank(p[1])
    && (Says("everything", p[2]) || exists q :: AllInstructionsPieces(q) && Joined(q) == p[2])
  }

  lemma AllInstructionsIff(s: string)
    ensures Matches(Concat(AllInstructionsParts()), s) <==> exists q :: AllInstructionsPieces(q) && Joined(q) == s
  {
    ConcatIff(AllInstructionsParts(), s);
    forall q ensures Fits(AllInstructionsParts(), q) <==> AllInstructionsPieces(q) {
      if |q| == 3 {
        TextIff("all", q[0]);
        BlankIff(q[1]);
        InstructionsIff(q[2]);
        FitsThree(AllInstructionsParts(), q);
      }
    }
  }

  lemma ForgetFits(p: seq<string>)
    ensures Fits(ForgetParts(), p) <==> ForgetPieces(p)
  {
    if |p| == 3 {
      TextIff("forget", p[0]);
      BlankIff(p[1]);
      TextIff("everything", p[2]);
      AllInstructionsIff(p[2]);
      AltIff(Text("everything"), Concat(AllInstructionsParts()), p[2]);
      FitsThree(ForgetParts(), p);
    }
  }

  lemma ForgetPhrase(s: string)
    ensures Matches(Forget(), s) <==> exists p :: ForgetPieces(p) && Joined(p) == s
  {
    ConcatIff(ForgetParts(), s);
    forall p ensures Fits(ForgetParts(), p) <==> ForgetPieces(p) {
      ForgetFits(p);
    }
  }

  /** "you are now" and a word. */
  predicate YouAreNowPieces(p: seq<string>) {
    && |p| == 7
    && Says("you", p[0]) && Blank(p[1]) && Says("are", p[2]) && Blank(p[3]) && Says("now", p[4])
    && Blank(p[5]) && WordText(p[6])
  }

  lemma YouAreNowFits(p: seq<string>)
    ensures Fits(YouAreNowParts(), p) <==> YouAreNowPieces(p)
  {
    if |p| == 7 {
      TextIff("you", p[0]);
      BlankIff(p[1]);
      TextIff("are", p[2]);
      BlankIff(p[3]);
      TextIff("now", p[4]);
      BlankIff(p[5]);
      WordIff(p[6]);
      FitsSeven(YouAreNowParts(), p);
    }
  }

  lemma YouAreNowPhrase(s: string)
    ensures Matches(YouAreNow(), s) <==> exists p :: YouAreNowPieces(p) && Joined(p) == s
  {
    ConcatIff(YouAreNowParts(), s);
    forall p ensures Fits(YouAreNowParts(), p) <==> YouAreNowPieces(p) {
      YouAreNowFits(p);
    }
  }

  /** "disregard", "all" if it is there, "previous" or "prior", "instruction(s)". */
  predicate DisregardPieces(p: seq<string>) {
    && |p| == 6
    && Says("disregard", p[0]) && Blank(p[1]) && SaysAllOrNothing(p[2])
    && (Says("previous", p[3]) || Says("prior", p[3]))
    && Blank(p[4]) && SaysInstructions(p[5])
  }

  lemma DisregardFits(p: seq<string>)
    ensures Fits(DisregardParts(), p) <==> DisregardPieces(p)
  {
    if |p| == 6 {
      TextIff("disregard", p[0]);
      BlankIff(p[1]);
      OptionalAllIff(p[2]);
      TextIff("previous", p[3]);
      TextIff("prior", p[3]);
      BlankIff(p[4]);
      AltIff(Text("previous"), Text("prior"), p[3]);
      InstructionsIff(p[5]);
      FitsSix(DisregardParts(), p);
    }
  }

  lemma DisregardPhrase(s: string)
    ensures Matches(Disregard(), s) <==> exists p :: DisregardPieces(p) && Joined(p) == s
  {
    ConcatIff(DisregardParts(), s);
    forall p ensures Fits(DisregardParts(), p) <==> DisregardPieces(p) {
      DisregardFits(p);
    }
  }

  predicate IfYouArePieces(p: seq<string>) {
    |p| == 5 && Says("if", p[0]) && Blank(p[1]) && Says("you", p[2]) && Blank(p[3]) && Says("are", p[4])
  }

  /** "act as", then "a" or "if you are", then a word. */
  ghost predicate ActAsPieces(p: seq<string>) {
    && |p| == 7
    && Says("act", p[0]) && Blank(p[1]) && Says("as", p[2]) && Blank(p[3])
    && (Says("a", p[4]) || exists q :: IfYouArePieces(q) && Joined(q) == p[4])
    && Blank(p[5]) && WordText(p[6])
  }

  lemma IfYouAreFits(q: seq<string>)
    ensures Fits(IfYouAreParts(), q) <==> IfYouArePieces(q)
  {
    if |q| == 5 {
      TextIff("if", q[0]);
      BlankIff(q[1]);
      TextIff("you", q[2]);
      BlankIff(q[3]);
      TextIff("are", q[4]);
    }
  }

  lemma IfYouAreIff(s: string)
    ensures Matches(Concat(IfYouAreParts()), s) <==> exists q :: IfYouArePieces(q) && Joined(q) == s
  {
    ConcatIff(IfYouAreParts(), s);
    forall q ensures Fits(IfYouAreParts(), q) <==> IfYouArePieces(q) {
      IfYouAreFits(q);
    }
  }

  lemma ActAsFits(p: seq<string>)
    ensures Fits(ActAsParts(), p) <==> ActAsPieces(p)
  {
    if |p| == 7 {
      TextIff("act", p[0]);
      BlankIff(p[1]);
      TextIff("as", p[2]);
      BlankIff(p[3]);
      IfYouAreIff(p[4]);
      TextIff("a", p[4]);
      BlankIff(p[5]);
      WordIff(p[6]);
      AltIff(Concat(IfYouAreParts()), Text("a"), p[4]);
      FitsSeven(ActAsParts(), p);
    }
  }

  lemma ActAsPhrase(s: string)
    ensures Matches(ActAs(), s) <==> exists p :: ActAsPieces(p) && Joined(p) == s
  {
    ConcatIff(ActAsParts(), s);
    forall p ensures Fits(ActAsParts(), p) <==> ActAsPieces(p) {
      ActAsFits(p);
    }
  }
}
