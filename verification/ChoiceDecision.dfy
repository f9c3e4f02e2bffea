/** The decision a caller takes from a choice answer: a fold with a tie tolerance, and the
    simple rule it comes down to for every validated response. */
module ChoiceDecision {
  import opened Tables
  import opened Classifier

  datatype Decision = Selected(option: string, probability: real) | Abstained

  /** `entry` outranks a probability: it lies clearly above it, or the two cannot be told apart and
      `entry` is what the provider picked. */
  predicate Beats(chosen: string, entry: OptionProbability, other: real) {
    || entry.probability > other + TIE_EPSILON
    || (Abs(entry.probability - other) <= TIE_EPSILON && entry.id == chosen)
  }

  function ProbabilityOf(options: seq<OptionProbability>, id: string): real {
    if options == [] then 0.0
    else if options[0].id == id then options[0].probability
    else ProbabilityOf(options[1..], id)
  }

  /** The fold over the options other than the abstain option. */
  function Best(chosen: string, options: seq<OptionProbability>, abstain: Option<string>)
    : Option<OptionProbability>
  {
    if options == [] then None
    else
      var best := Best(chosen, options[..|options| - 1], abstain);
      var entry := options[|options| - 1];
      if abstain == Some(entry.id) then best
      else if best.Some? && !Beats(chosen, entry, best.value.probability) then best
      else Some(entry)
  }

  function DecideAnswer(answer: AnswerValue, abstain: Option<string>, minimum: real): Option<Decision> {
    if !answer.ChoiceAnswer? then None
    else
      var best := Best(answer.chosen, answer.options, abstain);
      if best.Some? && best.value.probability >= minimum
         && (abstain.None? || Beats(answer.chosen, best.value, ProbabilityOf(answer.options, abstain.value)))
      then Some(Selected(best.value.id, best.value.probability))
      else Some(Abstained)
  }

  /** The first answer reported under a question id. */
  function AnswerTo(answers: seq<Answer>, questionId: string): Option<AnswerValue> {
    if answers == [] then None
    else if answers[0].questionId == questionId then Some(answers[0].value)
    else AnswerTo(answers[1..], questionId)
  }

  function DecideChoice(answers: seq<Answer>, questionId: string, abstain: Option<string>, minimum: real)
    : Option<Decision>
  {
    var answer := AnswerTo(answers, questionId);
    if answer.None? then None else DecideAnswer(answer.value, abstain, minimum)
  }

  lemma {:induction false} ProbabilityOfId(options: seq<OptionProbability>, id: string)
    ensures (exists i :: 0 <= i < |options| && options[i].id == id
                         && ProbabilityOf(options, id) == options[i].probability)
         || ((forall i | 0 <= i < |options| :: options[i].id != id) && ProbabilityOf(options, id) == 0.0)
  {
    if options != [] && options[0].id != id {
      ProbabilityOfId(options[1..], id);
      if exists i :: 0 <= i < |options[1..]| && options[1..][i].id == id
                     && ProbabilityOf(options[1..], id) == options[1..][i].probability {
        var i :| 0 <= i < |options[1..]| && options[1..][i].id == id
                 && ProbabilityOf(options[1..], id) == options[1..][i].probability;
        assert options[i + 1].id == id;
      } else {
        forall i | 0 <= i < |options|
          ensures options[i].id != id
        {
          assert i > 0 ==> options[i] == options[1..][i - 1];
        }
      }
    }
  }

  /** Entry `c` carries the chosen id alone and leads every other within the tolerance. */
  ghost predicate Leads(chosen: string, options: seq<OptionProbability>, c: int) {
    && 0 <= c < |options| && options[c].id == chosen
    && Distinct(IdsOf(options))
    && (forall j | 0 <= j < |options| ::
          InRange(options[j].probability) && options[c].probability >= options[j].probability - TIE_EPSILON)
  }

  /** Once the fold has passed the chosen option it stays there. */
  lemma {:induction false} BestIsChosen(chosen: string, options: seq<OptionProbability>, abstain: Option<string>,
                                        c: int, n: nat)
    requires Leads(chosen, options, c) && n <= |options|
    ensures var best := Best(chosen, options[..n], abstain);
            && (best.Some? ==> exists j :: 0 <= j < n && best.value == options[j] && abstain != Some(options[j].id))
            && (c < n && abstain != Some(chosen) ==> best == Some(options[c]))
  {
    if n > 0 {
      BestIsChosen(chosen, options, abstain, c, n - 1);
      assert options[..n][..n - 1] == options[..n - 1];
      var best := Best(chosen, options[..n - 1], abstain);
      if c < n - 1 {
        assert IdsOf(options)[c] != IdsOf(options)[n - 1];
      }
      if best.Some? {
        var j :| 0 <= j < n - 1 && best.value == options[j];
        assert options[c].probability >= options[j].probability - TIE_EPSILON;
      }
    }
  }

  lemma AnswerRule(q: Question, a: Answer, abstain: Option<string>, minimum: real)
    requires Fits(q, a) && q.kind.Choice? && WellFormedKind(q.kind)
    ensures var p := ProbabilityOf(a.value.options, a.value.chosen);
            DecideAnswer(a.value, abstain, minimum)
            == Some(if abstain != Some(a.value.chosen) && p >= minimum
                    then Selected(a.value.chosen, p) else Abstained)
  {
    var chosen, options := a.value.chosen, a.value.options;
    assert forall j | 0 <= j < |options| :: ProbabilitiesOf(options)[j] == options[j].probability;
    var c :| 0 <= c < |options| && options[c].id == chosen
      && forall j | 0 <= j < |options| :: options[c].probability >= options[j].probability - TIE_EPSILON;
    assert IdsOf(options) == OptionIds(q.kind.options);
    assert Leads(chosen, options, c);
    ChosenProbability(chosen, options, c);
    RuleForLeader(chosen, options, a.value.confidence, abstain, minimum, c);
  }

  lemma ChosenProbability(chosen: string, options: seq<OptionProbability>, c: int)
    requires Leads(chosen, options, c)
    ensures ProbabilityOf(options, chosen) == options[c].probability
  {
    ProbabilityOfId(options, chosen);
    forall i | 0 <= i < |options| && options[i].id == chosen
      ensures i == c
    {
      assert IdsOf(options)[i] == IdsOf(options)[c];
    }
  }

  lemma RuleForLeader(chosen: string, options: seq<OptionProbability>, confidence: Option<real>,
                      abstain: Option<string>, minimum: real, c: int)
    requires Leads(chosen, options, c)
    ensures DecideAnswer(ChoiceAnswer(chosen, options, confidence), abstain, minimum)
            == Some(if abstain != Some(chosen) && options[c].probability >= minimum
                    then Selected(chosen, options[c].probability) else Abstained)
  {
    BestIsChosen(chosen, options, abstain, c, |options|);
    assert options[..|options|] == options;
    if abstain.Some? {
      ProbabilityOfId(options, abstain.value);
      if abstain.value == chosen {
        ChosenProbability(chosen, options, c);
      }
    }
  }

  lemma {:induction false} AnswerAt(questions: seq<Question>, answers: seq<Answer>, i: nat)
    requires Distinct(QuestionIds(questions)) && |answers| == |questions| && i < |questions|
    requires forall j | 0 <= j < |questions| :: answers[j].questionId == questions[j].id
    ensures AnswerTo(answers, questions[i].id) == Some(answers[i].value)
  {
    var ids := QuestionIds(questions);
    assert ids[0] == questions[0].id && ids[i] == questions[i].id;
    if i > 0 {
      var rest := questions[1..];
      assert forall j | 0 <= j < |rest| :: QuestionIds(rest)[j] == ids[j + 1];
      AnswerAt(rest, answers[1..], i - 1);
    }
  }

  /** For every validated response the tolerant fold is a simple rule: the chosen option is
      selected exactly when it is not the abstain option and reaches the minimum. */
  lemma DecisionRule(questions: seq<Question>, answers: seq<Answer>, i: nat, abstain: Option<string>, minimum: real)
    requires WellFormed(questions) && |answers| == |questions|
    requires forall j | 0 <= j < |questions| :: Fits(questions[j], answers[j])
    requires i < |questions| && questions[i].kind.Choice?
    ensures answers[i].value.ChoiceAnswer?
    ensures var answer := answers[i].value;
            var p := ProbabilityOf(answer.options, answer.chosen);
            DecideChoice(answers, questions[i].id, abstain, minimum)
            == Some(if abstain != Some(answer.chosen) && p >= minimum
                    then Selected(answer.chosen, p) else Abstained)
  {
    AnswerAt(questions, answers, i);
    hide DecideAnswer;
    AnswerRule(questions[i], answers[i], abstain, minimum);
  }

  /** No decision exactly for a question without a choice answer. */
  lemma UndecidedExactlyWhen(questions: seq<Question>, answers: seq<Answer>, i: nat, abstain: Option<string>,
                             minimum: real)
    requires WellFormed(questions) && |answers| == |questions| && i < |questions|
    requires forall j | 0 <= j < |questions| :: Fits(questions[j], answers[j])
    ensures DecideChoice(answers, questions[i].id, abstain, minimum).None? <==> !questions[i].kind.Choice?
  {
    AnswerAt(questions, answers, i);
  }
}
