/**
 * The quiz generator (js/Script.js:241-324): the score shown when every
 * question is answered, and the session state that doQuiz, ansQ and clearQuiz
 * share through the module-level variables _qAnswered, _qCorrect, _qTotal and
 * _qExps. The question cards on screen, with their enabled or disabled option
 * buttons, are part of that state too, because ansQ can only be reached by
 * clicking an enabled button.
 */
module Quiz {
  import opened Wrappers
  import opened Json
  import opened Text
  import opened Rounding
  import opened Extract

  /** The three feedback lines of the score banner. */
  datatype Tier = Excellent | GoodEffort | KeepStudying

  /** The banner: "You scored correct/total (percent%)" and its tier. */
  datatype Score = Score(correct: nat, total: nat, percent: int, tier: Tier)

  /** Math.round(correct / total * 100), the nearest whole percentage with halves rounded up. */
  function Percent(correct: nat, total: nat): (pct: int)
    requires total > 0
    ensures total * (2 * pct - 1) <= 200 * correct < total * (2 * pct + 1)
  {
    RoundDiv(100 * correct, total)
  }

  /** A quiz percentage lies between 0 and 100. */
  lemma PercentRange(correct: nat, total: nat)
    requires 0 < total && correct <= total
    ensures 0 <= Percent(correct, total) <= 100
  {
    RoundDivBetween(100 * correct, total, 0, 100);
  }

  /** The banner's feedback line: 80 and up, 60 up to 79, below 60. */
  function TierOf(pct: int): (t: Tier)
    ensures t == Excellent <==> 80 <= pct
    ensures t == GoodEffort <==> 60 <= pct < 80
    ensures t == KeepStudying <==> pct < 60
  {
    if pct >= 80 then Excellent else if pct >= 60 then GoodEffort else KeepStudying
  }

  /** The banner for `correct` right answers out of `total`. */
  function ScoreOf(correct: nat, total: nat): (s: Score)
    requires total > 0
    ensures s.correct == correct && s.total == total
    ensures s.percent == Percent(correct, total) && s.tier == TierOf(s.percent)
  {
    var pct := Percent(correct, total);
    Score(correct, total, pct, TierOf(pct))
  }

  /** The tiers in order, from the bottom one up. */
  function Rank(t: Tier): nat
  {
    match t
    case KeepStudying => 0
    case GoodEffort => 1
    case Excellent => 2
  }

  /** A higher percentage never earns a lower tier. */
  lemma TierMonotone(p: int, q: int)
    requires p <= q
    ensures Rank(TierOf(p)) <= Rank(TierOf(q))
  {
  }

  /** One more right answer never lowers the banner. */
  lemma ScoreMonotone(correct: nat, total: nat)
    requires total > 0 && correct < total
    ensures Percent(correct, total) <= Percent(correct + 1, total)
    ensures Rank(ScoreOf(correct, total).tier) <= Rank(ScoreOf(correct + 1, total).tier)
  {
    RoundDivMonotone(100 * correct, 100 * (correct + 1), total);
    TierMonotone(Percent(correct, total), Percent(correct + 1, total));
  }

  /**
   * The top tier needs a percentage of 80 after rounding, that is, at least 79.5%
   * before it: 200 * correct >= 159 * total.
   */
  lemma ExcellentThreshold(correct: nat, total: nat)
    requires total > 0
    ensures ScoreOf(correct, total).tier == Excellent <==> 200 * correct >= 159 * total
  {
    var pct := Percent(correct, total);
    if pct >= 80 {
      MulMonotone(total, 159, 2 * pct - 1);
    } else {
      MulMonotone(total, 2 * pct + 1, 159);
    }
  }

  /** The middle tier or better needs at least 59.5% before rounding: 200 * correct >= 119 * total. */
  lemma GoodEffortThreshold(correct: nat, total: nat)
    requires total > 0
    ensures ScoreOf(correct, total).tier != KeepStudying <==> 200 * correct >= 119 * total
  {
    var pct := Percent(correct, total);
    if pct >= 60 {
      MulMonotone(total, 119, 2 * pct - 1);
    } else {
      MulMonotone(total, 2 * pct + 1, 119);
    }
  }

  /** Four, three and two out of five land in the three tiers. */
  lemma ScoreExamples()
    ensures ScoreOf(4, 5) == Score(4, 5, 80, Excellent)
    ensures ScoreOf(3, 5) == Score(3, 5, 60, GoodEffort)
    ensures ScoreOf(2, 5) == Score(2, 5, 40, KeepStudying)
  {
    RoundDivWhole(80, 5);
    RoundDivWhole(60, 5);
    RoundDivWhole(40, 5);
  }

  /** A perfect quiz scores 100% in the top tier. */
  lemma PerfectScore(total: nat)
    requires total > 0
    ensures ScoreOf(total, total).percent == 100 && ScoreOf(total, total).tier == Excellent
  {
    RoundDivWhole(100, total);
    assert 100 * total == total * 100;
  }

  /** The state of a question card's option buttons. */
  datatype Mark =
    | Unanswered   // every option enabled
    | Right        // answered with the correct option; all options disabled
    | Wrong        // answered with another option; all options disabled

  /**
   * One rendered question: how many option buttons it has, the index each
   * button passes to ansQ as `cor`, and its buttons' state.
   */
  datatype QuizCard = QuizCard(options: nat, key: Option<int>, mark: Mark)

  function CountAnswered(cards: seq<QuizCard>): nat
  {
    if cards == [] then 0 else (if cards[0].mark != Unanswered then 1 else 0) + CountAnswered(cards[1..])
  }

  function CountRight(cards: seq<QuizCard>): nat
  {
    if cards == [] then 0 else (if cards[0].mark == Right then 1 else 0) + CountRight(cards[1..])
  }

  /** Right answers are answers, and no card is answered twice. */
  lemma {:induction false} CountBounds(cards: seq<QuizCard>)
    ensures CountRight(cards) <= CountAnswered(cards) <= |cards|
  {
    if cards != [] { CountBounds(cards[1..]); }
  }

  /** Every card is answered exactly when the answered count reaches the number of cards. */
  lemma {:induction false} AllAnswered(cards: seq<QuizCard>)
    ensures CountAnswered(cards) == |cards| <==> forall i :: 0 <= i < |cards| ==> cards[i].mark != Unanswered
  {
    if cards != [] {
      AllAnswered(cards[1..]);
      CountBounds(cards[1..]);
      if cards[0].mark != Unanswered {
        forall i | 0 < i < |cards| && cards[1..][i - 1].mark != Unanswered ensures cards[i].mark != Unanswered {
          assert cards[i] == cards[1..][i - 1];
        }
      }
    }
  }

  /** Answering an open card adds one answer, and one right answer when the mark is Right. */
  lemma {:induction false} MarkCounts(cards: seq<QuizCard>, i: nat, m: Mark)
    requires i < |cards| && cards[i].mark == Unanswered && m != Unanswered
    ensures CountAnswered(cards[i := cards[i].(mark := m)]) == CountAnswered(cards) + 1
    ensures CountRight(cards[i := cards[i].(mark := m)]) == CountRight(cards) + (if m == Right then 1 else 0)
  {
    var updated := cards[i := cards[i].(mark := m)];
    if i > 0 {
      assert updated[1..] == cards[1..][i - 1 := cards[i].(mark := m)];
      MarkCounts(cards[1..], i - 1, m);
    } else {
      assert updated[1..] == cards[1..];
    }
  }

  /** `q.exp || ''` for a question that is not null. */
  function Explanation(q: Json): (e: Json)
    ensures Truthy(Get(Some(q), "exp")) ==> e == Get(Some(q), "exp").value
    ensures !Truthy(Get(Some(q), "exp")) ==> e == JString("")
  {
    var exp := Get(Some(q), "exp");
    if Truthy(exp) then exp.value else JString("")
  }

  /**
   * The `cor` argument the rendered buttons pass: the number in `q.c` when it is
   * a whole number. A number with a fraction, a boolean, null or a missing field
   * compares unequal to every option index and names no button, which is what
   * `None` stands for. Strings, arrays and objects are pasted into the onclick
   * text and evaluated there; the model treats them as `None` too.
   */
  function KeyOf(q: Json): (k: Option<int>)
    ensures k.Some? ==> Get(Some(q), "c") == Some(JNumber(k.value as real))
    ensures forall i: int :: Get(Some(q), "c") == Some(JNumber(i as real)) ==> k == Some(i)
  {
    match Get(Some(q), "c")
    case Some(JNumber(n)) => if n.Floor as real == n then Some(n.Floor) else None
    case _ => None
  }

  /** The card `q.o.map(...)` renders, or `None` when `q.o` is not an array and the call throws. */
  function CardOf(q: Json): (c: Option<QuizCard>)
    ensures c.Some? <==> Get(Some(q), "o").Some? && Get(Some(q), "o").value.JArray?
    ensures c.Some? ==> c.value == QuizCard(|Get(Some(q), "o").value.items|, KeyOf(q), Unanswered)
  {
    match Get(Some(q), "o")
    case Some(JArray(opts)) => Some(QuizCard(|opts|, KeyOf(q), Unanswered))
    case _ => None
  }

  predicate Renderable(questions: seq<Json>)
  {
    forall i :: 0 <= i < |questions| ==> CardOf(questions[i]).Some?
  }

  /** What the asynchronous half of doQuiz leaves behind: _qTotal, _qExps and the cards on screen. */
  datatype Generated = Generated(total: nat, exps: seq<Json>, cards: seq<QuizCard>)

  /**
   * The part of doQuiz after callClaude settles (`None` when it threw). Once the
   * array is found _qTotal is set; `q.exp` of a null question throws before
   * _qExps is assigned, and a question whose `o` is not an array throws while the
   * cards are rendered. Every throw ends in the failure message, so no card stays.
   */
  function Generate(reply: Option<string>, parse: string -> Option<Json>): (g: Generated)
    ensures g.cards != [] <==>
      reply.Some? && ExtractArray(reply.value, parse).Ok?
      && JNull !in ExtractArray(reply.value, parse).value && Renderable(ExtractArray(reply.value, parse).value)
    ensures g.total != 0 <==> reply.Some? && ExtractArray(reply.value, parse).Ok?
    ensures g.total != 0 ==> g.total == |ExtractArray(reply.value, parse).value|
    ensures g.cards != [] ==> |g.cards| == g.total == |g.exps|
    ensures forall i :: 0 <= i < |g.cards| ==> g.cards[i].mark == Unanswered
    ensures g.cards != [] ==>
      var questions := ExtractArray(reply.value, parse).value;
      |questions| == |g.cards| &&
      forall i :: 0 <= i < |questions| ==>
        Some(g.cards[i]) == CardOf(questions[i]) && g.exps[i] == Explanation(questions[i])
  {
    if reply.None? then Generated(0, [], [])
    else
      match ExtractArray(reply.value, parse)
      case Err(_) => Generated(0, [], [])
      case Ok(questions) =>
        if JNull in questions then Generated(|questions|, [], [])
        else
          var exps := seq(|questions|, i requires 0 <= i < |questions| => Explanation(questions[i]));
          if Renderable(questions) then
            Generated(|questions|, exps, seq(|questions|, i requires 0 <= i < |questions| => CardOf(questions[i]).value))
          else Generated(|questions|, exps, [])
  }

  /** What a click on an option button comes to. */
  datatype Outcome =
    | Ignored    // no such button, or it is disabled
    | Threw      // `opts[cor]` is undefined: the handler stops after counting the answer
    | Answered(right: bool, explanation: Option<Json>, score: Option<Score>)

  /** The quiz panel's state. */
  class QuizSession {
    var answered: nat       // _qAnswered
    var correct: nat        // _qCorrect
    var total: nat          // _qTotal
    var exps: seq<Json>     // _qExps
    var cards: seq<QuizCard>
    var pending: bool       // a request is in flight and the generate button is disabled

    /** The counters agree with the cards on screen. */
    predicate Valid()
      reads this
    {
      answered == CountAnswered(cards) && correct == CountRight(cards)
      && (cards != [] ==> |cards| == total == |exps|)
      && (pending ==> cards == [] && total == 0 && exps == [])
    }

    /** The page as loaded (js/Script.js:241). */
    constructor()
      ensures Valid()
      ensures answered == 0 && correct == 0 && total == 0 && exps == [] && cards == [] && !pending
    {
      answered, correct, total, exps, cards, pending := 0, 0, 0, [], [], false;
    }

    /**
     * The synchronous half of doQuiz: a blank topic only shows a toast; otherwise
     * the counters and the list are reset and the request goes out.
     */
    method StartQuiz(topic: string) returns (started: bool)
      requires Valid()
      modifies this
      ensures Valid()
      ensures started <==> Trim(topic) != [] && !old(pending)
      ensures started ==> answered == 0 && correct == 0 && total == 0 && exps == [] && cards == [] && pending
      ensures !started ==> unchanged(this)
    {
      if pending || Trim(topic) == [] {
        return false;
      }
      answered, correct, total, exps, cards, pending := 0, 0, 0, [], [], true;
      return true;
    }

    /** The asynchronous half of doQuiz, when callClaude settles with `reply`. */
    method FinishQuiz(reply: Option<string>, parse: string -> Option<Json>) returns (ready: bool)
      requires Valid() && pending
      modifies this
      ensures Valid()
      ensures !pending && answered == 0 && correct == 0
      ensures total == Generate(reply, parse).total && exps == Generate(reply, parse).exps
      ensures cards == Generate(reply, parse).cards
      ensures ready <==> cards != []
    {
      var g := Generate(reply, parse);
      total, exps, cards, pending := g.total, g.exps, g.cards, false;
      CountsOfOpen(cards);
      ready := cards != [];
    }

    /** clearQuiz: the list is emptied and the counters reset; a request in flight carries on. */
    method ClearQuiz()
      requires Valid()
      modifies this
      ensures Valid()
      ensures answered == 0 && correct == 0 && total == 0 && exps == [] && cards == []
      ensures pending == old(pending)
    {
      answered, correct, total, exps, cards := 0, 0, 0, [], [];
    }

    /** ansQ, reached by clicking option `sel` of card `idx`. */
    method Answer(idx: int, sel: int) returns (o: Outcome)
      requires Valid()
      modifies this
      ensures Valid()
      ensures total == old(total) && exps == old(exps) && pending == old(pending)
      ensures o == Ignored <==>
        !(0 <= idx < |old(cards)| && 0 <= sel < old(cards)[idx].options && old(cards)[idx].mark == Unanswered)
      ensures o == Ignored ==> unchanged(this)
      ensures o != Ignored ==>
        var card := old(cards)[idx];
        var right := card.key == Some(sel);
        answered == old(answered) + 1 && correct == old(correct) + (if right then 1 else 0)
        && cards == old(cards)[idx := card.(mark := if right then Right else Wrong)]
        && (o == Threw <==> !right && !(card.key.Some? && 0 <= card.key.value < card.options))
        && (o.Answered? ==>
              o.right == right
              && o.explanation == (if Truthy(Some(exps[idx])) then Some(exps[idx]) else None)
              && (o.score.Some? <==> answered == total)
              && (o.score.Some? ==> o.score.value == ScoreOf(correct, total)))
    {
      if !(0 <= idx < |cards| && 0 <= sel < cards[idx].options && cards[idx].mark == Unanswered) {
        return Ignored;
      }
      var card := cards[idx];
      var right := card.key == Some(sel);
      var mark := if right then Right else Wrong;
      MarkCounts(cards, idx, mark);
      cards := cards[idx := card.(mark := mark)];
      answered := answered + 1;
      if right {
        correct := correct + 1;
      }
      if !right && !(card.key.Some? && 0 <= card.key.value < card.options) {
        return Threw;
      }
      var explanation := if Truthy(Some(exps[idx])) then Some(exps[idx]) else None;
      var score := if answered == total then Some(ScoreOf(correct, total)) else None;
      return Answered(right, explanation, score);
    }
  }

  /** Freshly rendered cards are all open. */
  lemma {:induction false} CountsOfOpen(cards: seq<QuizCard>)
    requires forall i :: 0 <= i < |cards| ==> cards[i].mark == Unanswered
    ensures CountAnswered(cards) == 0 && CountRight(cards) == 0
  {
    if cards != [] { CountsOfOpen(cards[1..]); }
  }

  /**
   * In every valid session the counters stay in bounds, and the score appears
   * exactly when the cards on screen are all answered.
   */
  lemma SessionBounds(answered: nat, correct: nat, total: nat, exps: seq<Json>, cards: seq<QuizCard>)
    requires answered == CountAnswered(cards) && correct == CountRight(cards)
    requires cards != [] ==> |cards| == total == |exps|
    ensures correct <= answered
    ensures cards != [] ==> answered <= total
    ensures cards != [] ==>
      (answered == total <==> forall i :: 0 <= i < |cards| ==> cards[i].mark != Unanswered)
  {
    CountBounds(cards);
    AllAnswered(cards);
  }
}
