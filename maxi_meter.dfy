/** The quiz of App.jsx: five questions, a score, a final "maxi score" with
    a bonus for a web3-looking handle, and a rank title for it. The rules
    are functions; the component's state and handlers are the class App. */
module MaxiMeter {
  import opened Wrappers
  import opened TiltMath

  // ---------------------------------------------------------------------
  // Questions and ranks
  // ---------------------------------------------------------------------

  /** The `correct` option index of each entry of QUIZ_DATA, in order. */
  const CorrectOption: seq<nat> := [1, 1, 0, 0, 1]

  /** Every question offers four options. */
  const OptionCount: nat := 4

  /** Each question's correct index names one of its options, so every
      question can be answered correctly. */
  lemma CorrectOptionsExist()
    ensures |CorrectOption| == 5
    ensures forall i :: 0 <= i < |CorrectOption| ==> CorrectOption[i] < OptionCount
  {
  }

  /** One entry of RANKS (its description text is left out). */
  datatype Rank = Rank(max: int, title: string)

  const Ranks: seq<Rank> := [
    Rank(40, "Townie Tourist"),
    Rank(75, "Fast Local Pro"),
    Rank(100, "Mumbai Eth-Lord")
  ]

  /** ranks.find(r => score <= r.max): the first rank whose max is at least
      the score, if there is one. */
  function FindRank(ranks: seq<Rank>, score: int): (r: Option<Rank>)
    ensures r.None? <==> forall j :: 0 <= j < |ranks| ==> ranks[j].max < score
    ensures r.Some? ==> exists i :: 0 <= i < |ranks| && ranks[i] == r.value && FirstCovering(ranks, score, i)
  {
    if ranks == [] then None
    else if score <= ranks[0].max then
      assert FirstCovering(ranks, score, 0);
      Some(ranks[0])
    else
      var rest := FindRank(ranks[1..], score);
      if rest.Some? then
        var i :| 0 <= i < |ranks[1..]| && ranks[1..][i] == rest.value && FirstCovering(ranks[1..], score, i);
        assert FirstCovering(ranks, score, i + 1);
        rest
      else
        rest
  }

  /** Entry i covers the score and no earlier entry does. */
  predicate FirstCovering(ranks: seq<Rank>, score: int, i: nat)
    requires i < |ranks|
  {
    score <= ranks[i].max && forall j :: 0 <= j < i ==> ranks[j].max < score
  }

  /** On the RANKS table the search picks the band the score falls in, and
      finds nothing above 100. */
  lemma FindRankBands(score: int)
    ensures FindRank(Ranks, score) ==
      if score <= 40 then Some(Ranks[0])
      else if score <= 75 then Some(Ranks[1])
      else if score <= 100 then Some(Ranks[2])
      else None
  {
    var r := FindRank(Ranks, score);
    if r.Some? {
      var i :| 0 <= i < |Ranks| && Ranks[i] == r.value && FirstCovering(Ranks, score, i);
      assert i == 0 || i == 1 || i == 2;
    }
  }

  /** getRank(score), falling back to the last rank above 100. */
  function GetRank(score: int): (r: Rank)
    ensures r in Ranks
    ensures r.title == if score <= 40 then "Townie Tourist"
                       else if score <= 75 then "Fast Local Pro"
                       else "Mumbai Eth-Lord"
  {
    FindRankBands(score);
    match FindRank(Ranks, score)
    case Some(r) => r
    case None => Ranks[2]
  }

  // ---------------------------------------------------------------------
  // Final score
  // ---------------------------------------------------------------------

  /** Math.round(25 + (isWeb3Native ? 25 : 0) + (score / QUIZ_DATA.length) * 50). */
  function FinalScore(score: int, isWeb3Native: bool): int {
    Nearest(25.0 + (if isWeb3Native then 25.0 else 0.0)
             + (score as real / |CorrectOption| as real) * 50.0)
  }

  /** With five questions each correct answer is worth exactly 10 points. */
  lemma FinalScoreFormula(score: int, isWeb3Native: bool)
    ensures FinalScore(score, isWeb3Native) == 25 + (if isWeb3Native then 25 else 0) + 10 * score
  {
    var n := 25 + (if isWeb3Native then 25 else 0) + 10 * score;
    assert 25.0 + (if isWeb3Native then 25.0 else 0.0)
           + (score as real / |CorrectOption| as real) * 50.0 == n as real;
  }

  /** Any score a finished quiz can have gives a final score in [25, 100];
      the bonus alone lifts it to at least 50. */
  lemma FinalScoreRange(score: int, isWeb3Native: bool)
    requires 0 <= score <= |CorrectOption|
    ensures 25 <= FinalScore(score, isWeb3Native) <= 100
    ensures isWeb3Native ==> 50 <= FinalScore(score, isWeb3Native)
  {
    FinalScoreFormula(score, isWeb3Native);
  }

  // ---------------------------------------------------------------------
  // Handle classification
  // ---------------------------------------------------------------------

  /** toLowerCase on one character, for the ASCII letters. */
  function LowerChar(c: char): char {
    if 'A' <= c <= 'Z' then (c as int + 32) as char else c
  }

  function ToLower(s: string): (r: string)
    ensures |r| == |s|
    ensures forall i :: 0 <= i < |s| ==> r[i] == LowerChar(s[i])
  {
    seq(|s|, i requires 0 <= i < |s| => LowerChar(s[i]))
  }

  predicate StartsWith(s: string, p: string) {
    |p| <= |s| && s[..|p|] == p
  }

  predicate EndsWith(s: string, p: string) {
    |p| <= |s| && s[|s| - |p|..] == p
  }

  /** The handle ends with ".eth" or starts with "0x", ignoring case. */
  predicate IsWeb3Handle(handle: string) {
    EndsWith(ToLower(handle), ".eth") || StartsWith(ToLower(handle), "0x")
  }

  /** The same test, one character at a time: what case-insensitive means. */
  lemma IsWeb3HandleIff(h: string)
    ensures IsWeb3Handle(h) <==>
      (|h| >= 4 && h[|h| - 4] == '.' && LowerChar(h[|h| - 3]) == 'e'
                && LowerChar(h[|h| - 2]) == 't' && LowerChar(h[|h| - 1]) == 'h')
      || (|h| >= 2 && h[0] == '0' && LowerChar(h[1]) == 'x')
  {
    var l := ToLower(h);
    if |h| >= 4 {
      var tail := l[|l| - 4..];
      assert tail == [l[|l| - 4], l[|l| - 3], l[|l| - 2], l[|l| - 1]];
    }
    if |h| >= 2 {
      var head := l[..2];
      assert head == [l[0], l[1]];
    }
  }

  /** Lowering the handle first does not change the verdict. */
  lemma IsWeb3HandleCaseBlind(h: string)
    ensures IsWeb3Handle(ToLower(h)) == IsWeb3Handle(h)
  {
    assert ToLower(ToLower(h)) == ToLower(h);
  }

  // ---------------------------------------------------------------------
  // The component
  // ---------------------------------------------------------------------

  /** The three screens. */
  datatype Step = Landing | Quiz | Result

  class App {
    var step: Step
    var handle: string
    var customAvatar: string
    var isWeb3Native: bool
    var currentQuestion: nat
    var score: nat
    var showFact: bool
    var lastAnswerCorrect: bool
    var finalScore: int

    /** QUIZ_DATA[currentQuestion] always exists. */
    ghost predicate Valid()
      reads this
    {
      currentQuestion < |CorrectOption|
    }

    /** At most one point per question answered so far: the questions before
        the current one, and the current one once its fact is showing. */
    ghost predicate ScoreBounded()
      reads this
    {
      score <= currentQuestion + (if showFact then 1 else 0)
    }

    /** The initial useState values. */
    constructor ()
      ensures Valid() && ScoreBounded()
      ensures step == Landing && handle == "" && customAvatar == ""
      ensures !isWeb3Native && currentQuestion == 0 && score == 0
      ensures !showFact && !lastAnswerCorrect && finalScore == 0
    {
      step := Landing;
      handle := "";
      customAvatar := "";
      isWeb3Native := false;
      currentQuestion := 0;
      score := 0;
      showFact := false;
      lastAnswerCorrect := false;
      finalScore := 0;
    }

    /** The handle input's onChange. */
    method SetHandle(text: string)
      modifies this`handle
      ensures handle == text
    {
      handle := text;
    }

    /** handleStart: an empty handle is ignored; otherwise classify it and
        open the quiz. */
    method HandleStart()
      modifies this`isWeb3Native, this`step
      ensures handle == "" ==> unchanged(this)
      ensures handle != "" ==> isWeb3Native == IsWeb3Handle(handle) && step == Quiz
    {
      if handle == "" {
        return;
      }
      isWeb3Native := IsWeb3Handle(handle);
      step := Quiz;
    }

    /** handleAnswer(index): one point exactly for the correct option; the
        fact is shown either way. Answering only while no fact is shown (the
        options are disabled otherwise) keeps the score bounded. */
    method HandleAnswer(index: int)
      requires Valid()
      modifies this`lastAnswerCorrect, this`score, this`showFact
      ensures showFact
      ensures lastAnswerCorrect <==> index == CorrectOption[currentQuestion]
      ensures score == if lastAnswerCorrect then old(score) + 1 else old(score)
      ensures !old(showFact) && old(ScoreBounded()) ==> ScoreBounded()
    {
      var isCorrect := index == CorrectOption[currentQuestion];
      lastAnswerCorrect := isCorrect;
      if isCorrect {
        score := score + 1;
      }
      showFact := true;
    }

    /** nextStep: the next question, or on the last one the final score and
        the result screen. */
    method NextStep()
      requires Valid()
      modifies this`currentQuestion, this`showFact, this`finalScore, this`step
      ensures Valid()
      ensures old(currentQuestion) < |CorrectOption| - 1 ==>
        && currentQuestion == old(currentQuestion) + 1 && !showFact
        && finalScore == old(finalScore) && step == old(step)
      ensures old(currentQuestion) == |CorrectOption| - 1 ==>
        && finalScore == FinalScore(score, isWeb3Native) && step == Result
        && currentQuestion == old(currentQuestion) && showFact == old(showFact)
      ensures old(ScoreBounded()) ==> ScoreBounded()
      ensures old(ScoreBounded()) && old(currentQuestion) == |CorrectOption| - 1 ==> 25 <= finalScore <= 100
    {
      if currentQuestion != |CorrectOption| - 1 {
        currentQuestion := currentQuestion + 1;
        showFact := false;
      } else {
        finalScore := FinalScore(score, isWeb3Native);
        if score <= |CorrectOption| {
          FinalScoreRange(score, isWeb3Native);
        }
        step := Result;
      }
    }

    /** reset: back to the landing screen with a fresh quiz; the web3 flag
        and the last answer's verdict are kept. */
    method Reset()
      modifies this`step, this`handle, this`customAvatar, this`currentQuestion,
               this`score, this`showFact, this`finalScore
      ensures Valid() && ScoreBounded()
      ensures step == Landing && handle == "" && customAvatar == ""
      ensures currentQuestion == 0 && score == 0 && !showFact && finalScore == 0
      ensures isWeb3Native == old(isWeb3Native) && lastAnswerCorrect == old(lastAnswerCorrect)
    {
      step := Landing;
      handle := "";
      customAvatar := "";
      currentQuestion := 0;
      score := 0;
      showFact := false;
      finalScore := 0;
    }
  }
}
