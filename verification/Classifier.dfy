/** Classification answers: reading a reply, validating answers and deciding a choice.
    Floating point numbers are modelled as reals. */
module Classifier {
  import opened Tables

  const PROBABILITY_EPSILON := 0.000001
  const TIE_EPSILON := 0.000000001

  datatype ChoiceOption = ChoiceOption(id: string, criterion: string)

  datatype QuestionKind =
    | Noul
    | Choice(options: seq<ChoiceOption>)
    | Score(levels: seq<string>)

  datatype Question = Question(id: string, instructions: string, kind: QuestionKind)

  datatype OptionProbability = OptionProbability(id: string, probability: real)

  datatype AnswerValue =
    | NoulAnswer(probability: real)
    | ChoiceAnswer(chosen: string, options: seq<OptionProbability>, confidence: Option<real>)
    | ScoreAnswer(value: real, levels: seq<real>, confidence: Option<real>)

  datatype Answer = Answer(questionId: string, value: AnswerValue)

  datatype Json = Number(number: real) | Object(fields: map<string, Json>) | OtherJson

  datatype ModelError = InvalidRequest | ProviderFailure

  // ---- Numbers ------------------------------------------------------------------

  function Abs(x: real): real {
    if x < 0.0 then -x else x
  }

  function Sum(values: seq<real>): real {
    if values == [] then 0.0 else Sum(values[..|values| - 1]) + values[|values| - 1]
  }

  /** The probability-weighted level index. */
  function ExpectedLevel(values: seq<real>): real {
    if values == [] then 0.0
    else ExpectedLevel(values[..|values| - 1]) + (|values| - 1) as real * values[|values| - 1]
  }

  predicate InRange(value: real) {
    0.0 <= value <= 1.0
  }

  predicate InTolerance(value: real) {
    -PROBABILITY_EPSILON <= value <= 1.0 + PROBABILITY_EPSILON
  }

  function Clamped(value: real): real {
    if value < 0.0 then 0.0 else if value > 1.0 then 1.0 else value
  }

  function CheckProbability(value: real): Result<real, ModelError> {
    if InTolerance(value) then Ok(Clamped(value)) else Err(ProviderFailure)
  }

  function Clamps(values: seq<real>): (r: seq<real>) {
    seq(|values|, i requires 0 <= i < |values| => Clamped(values[i]))
  }

  function Scaled(values: seq<real>, total: real): seq<real>
    requires total > 0.0
  {
    seq(|values|, i requires 0 <= i < |values| => values[i] / total)
  }

  function Normalise(values: seq<real>, maxError: Option<real>): Result<seq<real>, ModelError> {
    var total := Sum(values);
    :- Need(total > PROBABILITY_EPSILON, ProviderFailure);
    :- Need(maxError.None? || Abs(total - 1.0) <= maxError.value, ProviderFailure);
    Ok(Scaled(values, total))
  }

  // ---- Requests -----------------------------------------------------------------

  predicate Distinct(keys: seq<string>) {
    forall i, j | 0 <= i < j < |keys| :: keys[i] != keys[j]
  }

  function OptionIds(options: seq<ChoiceOption>): seq<string> {
    seq(|options|, i requires 0 <= i < |options| => options[i].id)
  }

  function QuestionIds(questions: seq<Question>): seq<string> {
    seq(|questions|, i requires 0 <= i < |questions| => questions[i].id)
  }

  predicate WellFormedKind(kind: QuestionKind) {
    match kind
    case Noul => true
    case Choice(options) =>
      options != [] && Distinct(OptionIds(options)) && (forall i | 0 <= i < |options| :: options[i].id != "")
    case Score(levels) => |levels| >= 2
  }

  /** What every provider relies on. */
  predicate WellFormed(questions: seq<Question>) {
    && questions != []
    && Distinct(QuestionIds(questions))
    && (forall i | 0 <= i < |questions| :: questions[i].id != "" && WellFormedKind(questions[i].kind))
  }

  method DistinctIds(keys: seq<string>) returns (ok: bool)
    ensures ok <==> Distinct(keys) && forall i | 0 <= i < |keys| :: keys[i] != ""
  {
    var seen: set<string> := {};
    for i := 0 to |keys|
      invariant Distinct(keys[..i]) && forall j | 0 <= j < i :: keys[j] != ""
      invariant forall k :: k in seen <==> k in keys[..i]
    {
      if keys[i] == "" || keys[i] in seen {
        ghost var j := if keys[i] == "" then i else IndexIn(keys[..i], keys[i]);
        assert keys[j] == keys[i];
        return false;
      }
      seen := seen + {keys[i]};
      assert keys[..i + 1] == keys[..i] + [keys[i]];
    }
    assert keys[..|keys|] == keys;
    return true;
  }

  ghost function IndexIn(keys: seq<string>, key: string): (i: nat)
    requires key in keys
    ensures i < |keys| && keys[i] == key
  {
    var i :| 0 <= i < |keys| && keys[i] == key; i
  }

  method ValidateKind(kind: QuestionKind) returns (ok: bool)
    ensures ok <==> WellFormedKind(kind)
  {
    match kind {
      case Noul =>
        return true;
      case Choice(options) =>
        var ids := OptionIds(options);
        var distinct := DistinctIds(ids);
        assert forall i | 0 <= i < |options| :: options[i].id == ids[i];
        return options != [] && distinct;
      case Score(levels) =>
        return |levels| >= 2;
    }
  }

  method ValidateRequest(questions: seq<Question>) returns (ok: bool)
    ensures ok <==> WellFormed(questions)
  {
    if questions == [] {
      return false;
    }
    ghost var ids := QuestionIds(questions);
    var seen: set<string> := {};
    for i := 0 to |questions|
      invariant Distinct(ids[..i])
      invariant forall k :: k in seen <==> k in ids[..i]
      invariant forall j | 0 <= j < i :: questions[j].id != "" && WellFormedKind(questions[j].kind)
    {
      var q := questions[i];
      assert ids[i] == q.id;
      if q.id == "" || q.id in seen {
        ghost var j := if q.id == "" then i else IndexIn(ids[..i], q.id);
        assert ids[j] == ids[i];
        return false;
      }
      seen := seen + {q.id};
      var wellFormed := ValidateKind(q.kind);
      if !wellFormed {
        return false;
      }
      assert ids[..i + 1] == ids[..i] + [ids[i]];
    }
    assert ids[..|questions|] == ids;
    return true;
  }

  // ---- Distributions ------------------------------------------------------------

  /** The numbers a reply states for `keys`, in their order. */
  function Stated(keys: seq<string>, reported: map<string, real>): seq<real>
    requires forall i | 0 <= i < |keys| :: keys[i] in reported
  {
    seq(|keys|, i requires 0 <= i < |keys| => reported[keys[i]])
  }

  /** Exactly the requested keys, each once and a probability, with an acceptable sum. */
  ghost predicate Reports(keys: seq<string>, reported: map<string, real>, maxError: Option<real>) {
    && Distinct(keys)
    && (forall i | 0 <= i < |keys| :: keys[i] in reported && InTolerance(reported[keys[i]]))
    && (forall k <- reported.Keys :: k in keys)
    && Normalise(Clamps(Stated(keys, reported)), maxError).Ok?
  }

  ghost function Distribution(keys: seq<string>, reported: map<string, real>): seq<real>
    requires Reports(keys, reported, None)
  {
    var values := Clamps(Stated(keys, reported));
    Scaled(values, Sum(values))
  }

  lemma ReportsWeaken(keys: seq<string>, reported: map<string, real>, maxError: Option<real>)
    requires Reports(keys, reported, maxError)
    ensures Reports(keys, reported, None)
  {
  }

  /** One removal: what is left are the keys not taken yet. */
  ghost predicate Taken(keys: seq<string>, i: nat, reported: map<string, real>, rest: map<string, real>,
                        values: seq<real>)
    requires i <= |keys|
  {
    && |values| == i
    && Distinct(keys[..i])
    && (forall j | 0 <= j < i :: keys[j] in reported && InTolerance(reported[keys[j]])
                                 && values[j] == Clamped(reported[keys[j]]))
    && (forall k :: k in rest <==> k in reported && k !in keys[..i])
    && (forall k <- rest.Keys :: rest[k] == reported[k])
  }

  lemma TakeMissing(keys: seq<string>, i: nat, reported: map<string, real>, rest: map<string, real>,
                    values: seq<real>, maxError: Option<real>)
    requires i < |keys| && Taken(keys, i, reported, rest, values)
    requires keys[i] !in rest || !InTolerance(rest[keys[i]])
    ensures !Reports(keys, reported, maxError)
  {
    if keys[i] in reported && keys[i] !in rest {
      var j :| 0 <= j < i && keys[..i][j] == keys[i];
      assert keys[j] == keys[i];
    }
  }

  lemma TakeNext(keys: seq<string>, i: nat, reported: map<string, real>, rest: map<string, real>,
                 values: seq<real>)
    requires i < |keys| && Taken(keys, i, reported, rest, values)
    requires keys[i] in rest && InTolerance(rest[keys[i]])
    ensures Taken(keys, i + 1, reported, rest - {keys[i]}, values + [Clamped(rest[keys[i]])])
  {
    assert keys[..i + 1] == keys[..i] + [keys[i]];
  }

  lemma TakeAll(keys: seq<string>, reported: map<string, real>, rest: map<string, real>,
                values: seq<real>, maxError: Option<real>)
    requires Taken(keys, |keys|, reported, rest, values)
    ensures rest.Keys != {} ==> !Reports(keys, reported, maxError)
    ensures rest.Keys == {} ==> (Reports(keys, reported, maxError) <==> Normalise(values, maxError).Ok?)
    ensures values == Clamps(Stated(keys, reported))
  {
    assert keys[..|keys|] == keys;
    assert values == Clamps(Stated(keys, reported));
    if rest.Keys != {} {
      var k :| k in rest.Keys;
      assert k in reported.Keys && k !in keys;
    }
  }

  method ChoiceProbabilities(options: seq<ChoiceOption>, reported: map<string, real>, maxError: Option<real>)
    returns (r: Result<seq<OptionProbability>, ModelError>)
    ensures r.Ok? <==> Reports(OptionIds(options), reported, maxError)
    ensures r.Ok? ==> Reports(OptionIds(options), reported, None)
                      && r.value == Labelled(OptionIds(options), Distribution(OptionIds(options), reported))
  {
    ghost var keys := OptionIds(options);
    var rest := reported;
    var values: seq<real> := [];
    for i := 0 to |options|
      invariant Taken(keys, i, reported, rest, values)
    {
      var id := options[i].id;
      if id !in rest || !InTolerance(rest[id]) {
        TakeMissing(keys, i, reported, rest, values, maxError);
        return Err(ProviderFailure);
      }
      TakeNext(keys, i, reported, rest, values);
      values := values + [Clamped(rest[id])];
      rest := rest - {id};
    }
    TakeAll(keys, reported, rest, values, maxError);
    if rest.Keys != {} {
      return Err(ProviderFailure);
    }
    var scaled := Normalise(values, maxError);
    if scaled.Err? {
      return Err(ProviderFailure);
    }
    ReportsWeaken(keys, reported, maxError);
    return Ok(Labelled(OptionIds(options), scaled.value));
  }

  function Labelled(keys: seq<string>, values: seq<real>): seq<OptionProbability>
    requires |values| == |keys|
  {
    seq(|keys|, i requires 0 <= i < |keys| => OptionProbability(keys[i], values[i]))
  }

  // Score levels are named "0", "1", and so on.

  function Digit(d: nat): char
    requires d < 10
  {
    "0123456789"[d]
  }

  function Decimal(n: nat): (s: string)
    ensures s != ""
  {
    (if n < 10 then "" else Decimal(n / 10)) + [Digit(n % 10)]
  }

  lemma {:induction false} DecimalInjective(m: nat, n: nat)
    requires Decimal(m) == Decimal(n)
    ensures m == n
  {
    var s := Decimal(m);
    var t := Decimal(n);
    assert s[|s| - 1] == Digit(m % 10) && t[|t| - 1] == Digit(n % 10);
    assert s[..|s| - 1] == (if m < 10 then "" else Decimal(m / 10));
    assert t[..|t| - 1] == (if n < 10 then "" else Decimal(n / 10));
    if m >= 10 && n >= 10 {
      DecimalInjective(m / 10, n / 10);
    }
  }

  function LevelKeys(count: nat): (keys: seq<string>)
    ensures Distinct(keys)
  {
    var keys := seq(count, i requires 0 <= i => Decimal(i));
    assert Distinct(keys) by {
      forall i, j | 0 <= i < j < count
        ensures keys[i] != keys[j]
      {
        if keys[i] == keys[j] {
          DecimalInjective(i, j);
        }
      }
    }
    keys
  }

  method ScoreProbabilities(count: nat, reported: map<string, real>, maxError: Option<real>)
    returns (r: Result<seq<real>, ModelError>)
    ensures r.Ok? <==> Reports(LevelKeys(count), reported, maxError)
    ensures r.Ok? ==> Reports(LevelKeys(count), reported, None)
                      && r.value == Distribution(LevelKeys(count), reported)
  {
    ghost var keys := LevelKeys(count);
    var rest := reported;
    var values: seq<real> := [];
    for level := 0 to count
      invariant Taken(keys, level, reported, rest, values)
    {
      var key := Decimal(level);
      if key !in rest || !InTolerance(rest[key]) {
        TakeMissing(keys, level, reported, rest, values, maxError);
        return Err(ProviderFailure);
      }
      TakeNext(keys, level, reported, rest, values);
      values := values + [Clamped(rest[key])];
      rest := rest - {key};
    }
    TakeAll(keys, reported, rest, values, maxError);
    if rest.Keys != {} {
      return Err(ProviderFailure);
    }
    var scaled := Normalise(values, maxError);
    if scaled.Err? {
      return Err(ProviderFailure);
    }
    ReportsWeaken(keys, reported, maxError);
    return Ok(scaled.value);
  }

  // ---- The most probable option -------------------------------------------------

  /** `i` is the first index of the largest value. */
  ghost predicate FirstLargest(values: seq<real>, i: int) {
    && 0 <= i < |values|
    && (forall j | 0 <= j < |values| :: values[j] <= values[i])
    && (forall j | 0 <= j < i :: values[j] < values[i])
  }

  function ProbabilitiesOf(options: seq<OptionProbability>): seq<real> {
    seq(|options|, i requires 0 <= i < |options| => options[i].probability)
  }

  method MostProbable(options: seq<OptionProbability>) returns (chosen: string)
    ensures options == [] ==> chosen == ""
    ensures options != [] ==>
              exists i :: FirstLargest(ProbabilitiesOf(options), i) && options[i].id == chosen
  {
    var best: Option<nat> := None;
    for i := 0 to |options|
      invariant best.None? <==> i == 0
      invariant best.Some? ==> best.value < i && FirstLargest(ProbabilitiesOf(options)[..i], best.value)
    {
      ghost var before := ProbabilitiesOf(options)[..i];
      assert ProbabilitiesOf(options)[..i + 1] == before + [options[i].probability];
      if best.None? || options[i].probability > options[best.value].probability {
        best := Some(i);
      }
    }
    assert ProbabilitiesOf(options)[..|options|] == ProbabilitiesOf(options);
    return if best.Some? then options[best.value].id else "";
  }

  // ---- Validation ---------------------------------------------------------------

  function Largest(values: seq<real>): (r: real)
    ensures r >= 0.0
    ensures forall i | 0 <= i < |values| :: values[i] <= r
    ensures r == 0.0 || exists i :: 0 <= i < |values| && values[i] == r
  {
    if values == [] then 0.0
    else
      var earlier := Largest(values[..|values| - 1]);
      var last := values[|values| - 1];
      if last > earlier then last else earlier
  }

  ghost predicate IsDistribution(values: seq<real>) {
    && (forall i | 0 <= i < |values| :: InRange(values[i]))
    && Abs(Sum(values) - 1.0) <= PROBABILITY_EPSILON
  }

  predicate ConfidenceOk(confidence: Option<real>) {
    confidence.None? || InRange(confidence.value)
  }

  /** `chosen` labels an option whose probability is within the tie tolerance of the largest. */
  ghost predicate ChosenLeads(chosen: string, options: seq<OptionProbability>) {
    exists i :: 0 <= i < |options| && options[i].id == chosen
                && forall j | 0 <= j < |options| :: options[i].probability >= options[j].probability - TIE_EPSILON
  }

  function IdsOf(options: seq<OptionProbability>): seq<string> {
    seq(|options|, i requires 0 <= i < |options| => options[i].id)
  }

  ghost predicate Fits(q: Question, a: Answer) {
    && a.questionId == q.id
    && match (q.kind, a.value)
       case (Noul, NoulAnswer(p)) => InRange(p)
       case (Choice(options), ChoiceAnswer(chosen, probabilities, confidence)) =>
         && IdsOf(probabilities) == OptionIds(options)
         && IsDistribution(ProbabilitiesOf(probabilities))
         && ChosenLeads(chosen, probabilities)
         && ConfidenceOk(confidence)
       case (Score(levels), ScoreAnswer(value, probabilities, confidence)) =>
         && |probabilities| == |levels|
         && IsDistribution(probabilities)
         && Abs(value - ExpectedLevel(probabilities)) <= PROBABILITY_EPSILON
         && ConfidenceOk(confidence)
       case (_, _) => false
  }

  method AllInRange(values: seq<real>) returns (ok: bool)
    ensures ok <==> forall i | 0 <= i < |values| :: InRange(values[i])
  {
    for i := 0 to |values|
      invariant forall j | 0 <= j < i :: InRange(values[j])
    {
      if !InRange(values[i]) {
        return false;
      }
    }
    return true;
  }

  /** Leading every option is the same as reaching the largest probability. */
  lemma LeadsByLargest(chosen: string, options: seq<OptionProbability>)
    requires forall i | 0 <= i < |options| :: InRange(options[i].probability)
    ensures ChosenLeads(chosen, options)
       <==> exists i :: 0 <= i < |options| && options[i].id == chosen
                        && options[i].probability >= Largest(ProbabilitiesOf(options)) - TIE_EPSILON
  {
    var max := Largest(ProbabilitiesOf(options));
    forall i | 0 <= i < |options|
      ensures options[i].probability >= max - TIE_EPSILON
         <==> forall j | 0 <= j < |options| :: options[i].probability >= options[j].probability - TIE_EPSILON
    {
      assert forall j | 0 <= j < |options| :: ProbabilitiesOf(options)[j] == options[j].probability;
    }
  }

  method ValidateChoice(options: seq<ChoiceOption>, chosen: string, probabilities: seq<OptionProbability>,
                        confidence: Option<real>) returns (ok: bool)
    ensures ok <==> && IdsOf(probabilities) == OptionIds(options)
                    && IsDistribution(ProbabilitiesOf(probabilities))
                    && ChosenLeads(chosen, probabilities)
                    && ConfidenceOk(confidence)
  {
    if IdsOf(probabilities) != OptionIds(options) {
      return false;
    }
    var values := ProbabilitiesOf(probabilities);
    var inRange := AllInRange(values);
    if !inRange || Abs(Sum(values) - 1.0) > PROBABILITY_EPSILON {
      return false;
    }
    var max := Largest(values);
    var leads := exists i :: 0 <= i < |probabilities| && probabilities[i].id == chosen
                             && probabilities[i].probability >= max - TIE_EPSILON;
    assert forall i | 0 <= i < |probabilities| :: values[i] == probabilities[i].probability;
    LeadsByLargest(chosen, probabilities);
    if !leads {
      return false;
    }
    return ConfidenceOk(confidence);
  }

  method ValidateAnswers(questions: seq<Question>, answers: seq<Answer>) returns (ok: bool)
    ensures ok <==> |answers| == |questions| && forall i | 0 <= i < |questions| :: Fits(questions[i], answers[i])
  {
    if |answers| != |questions| {
      return false;
    }
    for i := 0 to |questions|
      invariant forall j | 0 <= j < i :: Fits(questions[j], answers[j])
    {
      if answers[i].questionId != questions[i].id {
        return false;
      }
      var fits := false;
      match (questions[i].kind, answers[i].value) {
        case (Noul, NoulAnswer(p)) =>
          fits := InRange(p);
        case (Choice(options), ChoiceAnswer(chosen, probabilities, confidence)) =>
          fits := ValidateChoice(options, chosen, probabilities, confidence);
        case (Score(levels), ScoreAnswer(value, probabilities, confidence)) =>
          var inRange := AllInRange(probabilities);
          fits := && |probabilities| == |levels| && inRange
                  && Abs(Sum(probabilities) - 1.0) <= PROBABILITY_EPSILON
                  && Abs(value - ExpectedLevel(probabilities)) <= PROBABILITY_EPSILON
                  && ConfidenceOk(confidence);
        case (_, _) =>
      }
      if !fits {
        return false;
      }
    }
    return true;
  }

  // ---- Reading a reply ----------------------------------------------------------

  predicate IsNumberMap(raw: Json) {
    raw.Object? && forall k <- raw.fields.Keys :: raw.fields[k].Number?
  }

  function NumberMap(raw: Json): map<string, real>
    requires IsNumberMap(raw)
  {
    map k | k in raw.fields :: raw.fields[k].number
  }

  /** The keys of a distribution question. */
  function KeysOf(kind: QuestionKind): seq<string> {
    match kind
    case Noul => []
    case Choice(options) => OptionIds(options)
    case Score(levels) => LevelKeys(|levels|)
  }

  /** The reply states something usable for this kind of question. */
  ghost predicate Legible(kind: QuestionKind, raw: Json) {
    if kind.Noul? then raw.Number? && InTolerance(raw.number)
    else IsNumberMap(raw) && Reports(KeysOf(kind), NumberMap(raw), None)
  }

  /** `value` is what the reply states: exact ids in order, the stated numbers rescaled, and the
      first largest clamped number chosen. */
  ghost predicate Reads(kind: QuestionKind, raw: Json, value: AnswerValue) {
    && Legible(kind, raw)
    && match kind
       case Noul => value == NoulAnswer(Clamped(raw.number))
       case Choice(options) =>
         var keys := OptionIds(options);
         && value.ChoiceAnswer? && value.confidence.None?
         && value.options == Labelled(keys, Distribution(keys, NumberMap(raw)))
         && exists i :: FirstLargest(Clamps(Stated(keys, NumberMap(raw))), i) && value.chosen == keys[i]
       case Score(levels) =>
         var values := Distribution(LevelKeys(|levels|), NumberMap(raw));
         value == ScoreAnswer(ExpectedLevel(values), values, None)
  }

  method ReadAnswer(kind: QuestionKind, raw: Json) returns (r: Result<AnswerValue, ModelError>)
    ensures r.Ok? <==> Legible(kind, raw)
    ensures r.Ok? ==> Reads(kind, raw, r.value)
  {
    match kind {
      case Noul =>
        if !raw.Number? {
          return Err(ProviderFailure);
        }
        var probability := CheckProbability(raw.number);
        return if probability.Ok? then Ok(NoulAnswer(probability.value)) else Err(ProviderFailure);
      case Choice(options) =>
        if !IsNumberMap(raw) {
          return Err(ProviderFailure);
        }
        var probabilities := ChoiceProbabilities(options, NumberMap(raw), None);
        if probabilities.Err? {
          return Err(ProviderFailure);
        }
        var chosen := MostProbable(probabilities.value);
        ChosenIsFirstLargest(OptionIds(options), NumberMap(raw));
        return Ok(ChoiceAnswer(chosen, probabilities.value, None));
      case Score(levels) =>
        if !IsNumberMap(raw) {
          return Err(ProviderFailure);
        }
        var probabilities := ScoreProbabilities(|levels|, NumberMap(raw), None);
        if probabilities.Err? {
          return Err(ProviderFailure);
        }
        return Ok(ScoreAnswer(ExpectedLevel(probabilities.value), probabilities.value, None));
    }
  }

  /** A reply is accepted exactly when it names every question once, nothing else, and each
      value is legible. */
  ghost predicate Answerable(questions: seq<Question>, fields: map<string, Json>) {
    && Distinct(QuestionIds(questions))
    && (forall i | 0 <= i < |questions| ::
          questions[i].id in fields && Legible(questions[i].kind, fields[questions[i].id]))
    && (forall k <- fields.Keys :: k in QuestionIds(questions))
  }

  /** The first `i` questions are answered and `rest` is what the reply still holds. */
  ghost predicate ReadSoFar(questions: seq<Question>, fields: map<string, Json>, i: nat,
                            rest: map<string, Json>, answers: seq<Answer>)
    requires i <= |questions|
  {
    && |answers| == i
    && Distinct(QuestionIds(questions)[..i])
    && (forall k :: k in rest <==> k in fields && k !in QuestionIds(questions)[..i])
    && (forall k <- rest.Keys :: rest[k] == fields[k])
    && (forall j | 0 <= j < i ::
          && questions[j].id in fields && answers[j].questionId == questions[j].id
          && Reads(questions[j].kind, fields[questions[j].id], answers[j].value))
  }

  lemma ReadMissing(questions: seq<Question>, fields: map<string, Json>, i: nat,
                    rest: map<string, Json>, answers: seq<Answer>)
    requires i < |questions| && ReadSoFar(questions, fields, i, rest, answers)
    requires questions[i].id !in rest || !Legible(questions[i].kind, rest[questions[i].id])
    ensures !Answerable(questions, fields)
  {
    hide Legible, Reads;
    var ids := QuestionIds(questions);
    if questions[i].id !in rest && questions[i].id in fields {
      var j := IndexIn(ids[..i], ids[i]);
      assert ids[j] == ids[i];
    }
  }

  lemma ReadNext(questions: seq<Question>, fields: map<string, Json>, i: nat,
                 rest: map<string, Json>, answers: seq<Answer>, value: AnswerValue)
    requires i < |questions| && ReadSoFar(questions, fields, i, rest, answers)
    requires questions[i].id in rest && Reads(questions[i].kind, rest[questions[i].id], value)
    ensures ReadSoFar(questions, fields, i + 1, rest - {questions[i].id}, answers + [Answer(questions[i].id, value)])
  {
    hide Legible, Reads;
    var ids := QuestionIds(questions);
    assert ids[..i + 1] == ids[..i] + [questions[i].id];
  }

  lemma ReadAll(questions: seq<Question>, fields: map<string, Json>, rest: map<string, Json>, answers: seq<Answer>)
    requires ReadSoFar(questions, fields, |questions|, rest, answers)
    ensures rest.Keys == {} <==> Answerable(questions, fields)
  {
    hide Clamped, Clamps, Distribution, FirstLargest, Stated, Labelled, Normalise, ExpectedLevel;
    var ids := QuestionIds(questions);
    assert ids[..|questions|] == ids;
    assert forall j | 0 <= j < |questions| :: Legible(questions[j].kind, fields[questions[j].id]);
    hide Legible, Reads;
    if rest.Keys != {} {
      var k :| k in rest.Keys;
      assert k in fields.Keys && k !in ids;
    }
  }

  /** The final validation never refuses what was read: acceptance depends on the reply alone. */
  method ParseReply(questions: seq<Question>, reply: Json) returns (r: Result<seq<Answer>, ModelError>)
    ensures r.Ok? <==> reply.Object? && Answerable(questions, reply.fields)
    ensures r.Ok? ==>
              && |r.value| == |questions|
              && forall i | 0 <= i < |questions| ::
                   && Fits(questions[i], r.value[i])
                   && questions[i].id in reply.fields
                   && Reads(questions[i].kind, reply.fields[questions[i].id], r.value[i].value)
  {
    hide Fits, Reads, Legible, Answerable;
    if !reply.Object? {
      return Err(ProviderFailure);
    }
    var rest := reply.fields;
    var answers: seq<Answer> := [];
    for i := 0 to |questions|
      invariant ReadSoFar(questions, reply.fields, i, rest, answers)
    {
      var q := questions[i];
      if q.id !in rest {
        ReadMissing(questions, reply.fields, i, rest, answers);
        return Err(ProviderFailure);
      }
      var value := ReadAnswer(q.kind, rest[q.id]);
      if value.Err? {
        ReadMissing(questions, reply.fields, i, rest, answers);
        return Err(ProviderFailure);
      }
      ReadNext(questions, reply.fields, i, rest, answers, value.value);
      rest := rest - {q.id};
      answers := answers + [Answer(q.id, value.value)];
    }
    ReadAll(questions, reply.fields, rest, answers);
    if rest.Keys != {} {
      return Err(ProviderFailure);
    }
    ReadsFit(questions, reply.fields, answers);
    var valid := ValidateAnswers(questions, answers);
    if !valid {
      return Err(ProviderFailure);
    }
    return Ok(answers);
  }

  // ---- What was read always validates -------------------------------------------

  lemma Divides(a: real, b: real, total: real)
    requires total > 0.0
    ensures a / total + b / total == (a + b) / total
    ensures a < b <==> a / total < b / total
  {
    assert a == (a / total) * total && b == (b / total) * total;
    assert a + b == (a / total + b / total) * total;
  }

  lemma {:induction false} SumScaled(values: seq<real>, total: real)
    requires total > 0.0
    ensures Sum(Scaled(values, total)) == Sum(values) / total
  {
    if values != [] {
      var earlier := values[..|values| - 1];
      SumScaled(earlier, total);
      assert Scaled(values, total)[..|values| - 1] == Scaled(earlier, total);
      Divides(Sum(earlier), values[|values| - 1], total);
    }
  }

  lemma {:induction false} SumBounds(values: seq<real>)
    requires forall i | 0 <= i < |values| :: values[i] >= 0.0
    ensures Sum(values) >= 0.0 && forall i | 0 <= i < |values| :: values[i] <= Sum(values)
  {
    if values != [] {
      SumBounds(values[..|values| - 1]);
    }
  }

  lemma ScaledIsOne(values: seq<real>)
    requires Sum(values) > 0.0 && forall i | 0 <= i < |values| :: values[i] >= 0.0
    ensures var scaled := Scaled(values, Sum(values)); IsDistribution(scaled) && Sum(scaled) == 1.0
  {
    var total := Sum(values);
    SumScaled(values, total);
    SumBounds(values);
    Share(total, total);
    hide Sum;
    forall i | 0 <= i < |values|
      ensures InRange(Scaled(values, total)[i])
    {
      Share(values[i], total);
    }
  }

  lemma DistributionIsOne(keys: seq<string>, reported: map<string, real>)
    requires Reports(keys, reported, None)
    ensures |Distribution(keys, reported)| == |keys|
    ensures IsDistribution(Distribution(keys, reported)) && Sum(Distribution(keys, reported)) == 1.0
  {
    hide Sum, IsDistribution;
    ScaledIsOne(Clamps(Stated(keys, reported)));
  }

  lemma Share(part: real, total: real)
    requires 0.0 <= part <= total && total > 0.0
    ensures 0.0 <= part / total <= 1.0 && total / total == 1.0
  {
    Divides(part, total, total);
    Divides(total, part, total);
    Divides(part, 0.0, total);
  }

  lemma ScalingKeepsOrder(values: seq<real>, total: real, i: int)
    requires total > 0.0
    ensures FirstLargest(Scaled(values, total), i) <==> FirstLargest(values, i)
  {
    if 0 <= i < |values| {
      forall j | 0 <= j < |values|
        ensures values[j] <= values[i] <==> Scaled(values, total)[j] <= Scaled(values, total)[i]
        ensures values[j] < values[i] <==> Scaled(values, total)[j] < Scaled(values, total)[i]
      {
        Divides(values[i], values[j], total);
        Divides(values[j], values[i], total);
      }
    }
  }

  /** The first largest probability is the first largest clamped number. */
  lemma ChosenIsFirstLargest(keys: seq<string>, reported: map<string, real>)
    requires Reports(keys, reported, None)
    ensures var values := Distribution(keys, reported);
            && keys != []
            && IdsOf(Labelled(keys, values)) == keys && ProbabilitiesOf(Labelled(keys, values)) == values
            && forall i :: FirstLargest(values, i) <==> FirstLargest(Clamps(Stated(keys, reported)), i)
  {
    var values := Clamps(Stated(keys, reported));
    forall i
      ensures FirstLargest(Scaled(values, Sum(values)), i) <==> FirstLargest(values, i)
    {
      ScalingKeepsOrder(values, Sum(values), i);
    }
  }

  lemma ChoiceReadFits(keys: seq<string>, reported: map<string, real>, chosen: string, i: int)
    requires Reports(keys, reported, None)
    requires FirstLargest(Clamps(Stated(keys, reported)), i) && chosen == keys[i]
    ensures var options := Labelled(keys, Distribution(keys, reported));
            && IdsOf(options) == keys && IsDistribution(ProbabilitiesOf(options)) && ChosenLeads(chosen, options)
  {
    DistributionIsOne(keys, reported);
    ChosenIsFirstLargest(keys, reported);
    hide Distribution, IsDistribution, Reports, Stated, Clamps;
    var values := Distribution(keys, reported);
    var options := Labelled(keys, values);
    assert FirstLargest(values, i);
    assert forall j | 0 <= j < |keys| :: options[j].probability == values[j];
    assert options[i].id == chosen;
  }

  /** Whatever was read from a reply passes the final validation. */
  lemma ReadFits(q: Question, raw: Json, value: AnswerValue)
    requires Reads(q.kind, raw, value)
    ensures Fits(q, Answer(q.id, value))
  {
    hide Distribution, IsDistribution, ChosenLeads, Normalise, Sum, ExpectedLevel;
    match q.kind
    case Noul =>
    case Choice(options) =>
      var keys := OptionIds(options);
      var i :| FirstLargest(Clamps(Stated(keys, NumberMap(raw))), i) && value.chosen == keys[i];
      ChoiceReadFits(keys, NumberMap(raw), value.chosen, i);
    case Score(levels) =>
      DistributionIsOne(LevelKeys(|levels|), NumberMap(raw));
  }

  lemma ReadsFit(questions: seq<Question>, fields: map<string, Json>, answers: seq<Answer>)
    requires |answers| == |questions|
    requires forall i | 0 <= i < |questions| ::
               && questions[i].id in fields && answers[i].questionId == questions[i].id
               && Reads(questions[i].kind, fields[questions[i].id], answers[i].value)
    ensures forall i | 0 <= i < |questions| :: Fits(questions[i], answers[i])
  {
    hide Fits, Reads;
    forall i | 0 <= i < |questions|
      ensures Fits(questions[i], answers[i])
    {
      ReadFits(questions[i], fields[questions[i].id], answers[i].value);
    }
  }

  // ---- Which number wins --------------------------------------------------------

  /** The chosen option states the largest number, first among equals, exactly when the first
      option that states 1 or more, if any, states the largest number. */
  lemma ChosenStatesLargestWhen(keys: seq<string>, reported: map<string, real>, i: int)
    requires Reports(keys, reported, None)
    requires FirstLargest(Clamps(Stated(keys, reported)), i)
    ensures var stated := Stated(keys, reported);
            FirstLargest(stated, i)
            <==> forall k | FirstFull(stated, k) :: forall j | 0 <= j < |stated| :: stated[j] <= stated[k]
  {
    var stated := Stated(keys, reported);
    var values := Clamps(stated);
    var positive := SumPositive(values);
    hide Sum, Stated;
    ClampedFirst(stated, i);
  }

  /** `k` is the first index that states 1 or more. */
  ghost predicate FirstFull(stated: seq<real>, k: int) {
    0 <= k < |stated| && stated[k] >= 1.0 && forall j | 0 <= j < k :: stated[j] < 1.0
  }

  lemma ClampedFirst(stated: seq<real>, i: int)
    requires FirstLargest(Clamps(stated), i) && Clamps(stated)[i] > 0.0
    ensures FirstLargest(stated, i)
       <==> forall k | FirstFull(stated, k) :: forall j | 0 <= j < |stated| :: stated[j] <= stated[k]
  {
    var values := Clamps(stated);
    forall j | 0 <= j < |stated|
      ensures values[j] == Clamped(stated[j])
    {
    }
    if stated[i] >= 1.0 {
      assert FirstFull(stated, i);
      assert forall k | FirstFull(stated, k) :: k == i;
    } else {
      assert forall k :: !FirstFull(stated, k);
    }
  }

  /** A positive sum has a positive term. */
  lemma {:induction false} SumPositive(values: seq<real>) returns (i: nat)
    requires Sum(values) > 0.0
    ensures i < |values| && values[i] > 0.0
  {
    i := |values| - 1;
    if values[i] <= 0.0 {
      i := SumPositive(values[..i]);
    }
  }

  /** Two numbers just above 1 clamp to a tie, and the smaller one is chosen. */
  lemma SmallerNumberChosen()
    ensures var keys := ["a", "b"];
            var reported := map["a" := 1.0000001, "b" := 1.0000009];
            && Reports(keys, reported, None)
            && FirstLargest(Clamps(Stated(keys, reported)), 0)
            && reported["a"] < reported["b"]
  {
    var keys := ["a", "b"];
    var reported := map["a" := 1.0000001, "b" := 1.0000009];
    var values := Clamps(Stated(keys, reported));
    assert values == [1.0, 1.0];
    assert [1.0, 1.0][..1] == [1.0];
    assert Sum([1.0]) == 1.0;
    assert Sum(values) == 2.0;
  }

  // ---- What sums and scores compute ---------------------------------------------

  function Zeros(n: nat): seq<real> {
    seq(n, _ => 0.0)
  }

  lemma {:induction false} ZerosAreNothing(n: nat)
    ensures Sum(Zeros(n)) == 0.0 && ExpectedLevel(Zeros(n)) == 0.0
  {
    if n > 0 {
      assert Zeros(n)[..n - 1] == Zeros(n - 1);
      ZerosAreNothing(n - 1);
    }
  }

  /** Both are linear: a change at one level counts once in the sum, and by its level in the score. */
  lemma {:induction false} LevelsAreWeighted(values: seq<real>, k: nat, value: real)
    requires k < |values|
    ensures Sum(values[k := value]) == Sum(values) + value - values[k]
    ensures ExpectedLevel(values[k := value]) == ExpectedLevel(values) + k as real * (value - values[k])
  {
    var last := |values| - 1;
    if k == last {
      assert values[k := value][..last] == values[..last];
    } else {
      assert values[k := value][..last] == values[..last][k := value];
      LevelsAreWeighted(values[..last], k, value);
    }
  }

  /** Certainty on level k scores k. */
  lemma CertainLevelScores(n: nat, k: nat)
    requires k < n
    ensures Sum(Zeros(n)[k := 1.0]) == 1.0 && ExpectedLevel(Zeros(n)[k := 1.0]) == k as real
  {
    ZerosAreNothing(n);
    LevelsAreWeighted(Zeros(n), k, 1.0);
  }

  /** A score lies between the least and the greatest level. */
  lemma {:induction false} ScoreIsBetweenLevels(values: seq<real>)
    requires forall i | 0 <= i < |values| :: values[i] >= 0.0
    ensures 0.0 <= ExpectedLevel(values)
    ensures values != [] ==> ExpectedLevel(values) <= (|values| - 1) as real * Sum(values)
  {
    if values != [] {
      var earlier, n := values[..|values| - 1], |values| - 1;
      ScoreIsBetweenLevels(earlier);
      SumBounds(earlier);
      assert n as real * values[n] >= 0.0;
      if earlier != [] {
        assert (n - 1) as real * Sum(earlier) <= n as real * Sum(earlier);
      }
      assert n as real * Sum(values) == n as real * Sum(earlier) + n as real * values[n];
    }
  }

  /** A score read from a reply is between 0 and the greatest level. */
  lemma ReadScoreIsBetweenLevels(levels: nat, reported: map<string, real>)
    requires Reports(LevelKeys(levels), reported, None) && levels > 0
    ensures 0.0 <= ExpectedLevel(Distribution(LevelKeys(levels), reported)) <= (levels - 1) as real
  {
    DistributionIsOne(LevelKeys(levels), reported);
    hide Reports, Distribution;
    ScoreIsBetweenLevels(Distribution(LevelKeys(levels), reported));
  }

  /** A reply that states a proper distribution is read back unchanged, under every sum tolerance. */
  lemma ProperDistributionReadsBack(keys: seq<string>, reported: map<string, real>, maxError: Option<real>)
    requires Distinct(keys) && (forall k <- reported.Keys :: k in keys)
    requires forall i | 0 <= i < |keys| :: keys[i] in reported && 0.0 <= reported[keys[i]] <= 1.0
    requires Sum(Stated(keys, reported)) == 1.0 && (maxError.Some? ==> maxError.value >= 0.0)
    ensures Reports(keys, reported, maxError) && Reports(keys, reported, None)
    ensures Distribution(keys, reported) == Stated(keys, reported)
  {
    var stated := Stated(keys, reported);
    assert Clamps(stated) == stated;
    forall i | 0 <= i < |stated|
      ensures stated[i] / 1.0 == stated[i]
    {
    }
    assert Scaled(stated, 1.0) == stated;
  }

  /** Numbers are read within a millionth outside the unit interval, and no further. */
  lemma ToleranceIsAMillionth(value: real)
    ensures CheckProbability(value).Ok? <==> -0.000001 <= value <= 1.000001
    ensures CheckProbability(value).Ok? ==>
              && InRange(CheckProbability(value).value)
              && (InRange(value) ==> CheckProbability(value).value == value)
              && forall p | InRange(p) :: Abs(CheckProbability(value).value - value) <= Abs(p - value)
  {
  }
}
