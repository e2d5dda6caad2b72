/**
 * The decision and response logic of the back end's POST /predict route
 * (predict in backend/app.py). The fitted vectoriser and classifier are one
 * opaque parameter from the cleaned text to the class probabilities, and the
 * class names are a parameter too; every exception the handler's catch-all
 * turns into a 500 answer is a `Fault`.
 */
module Prediction {
  import opened Wrappers
  import opened Json
  import Cleaning

  /** The path the handler is registered on. */
  const PredictRoute: string := "/predict"

  /** seuil_confiance: below it the answer is the neutral label. */
  const ConfidenceThreshold: real := 0.70

  const Neutre: string := "neutre"

  const MissingTexteMessage: string := "La clé 'texte' est manquante dans la requête JSON."

  /** The start of the error text of a 500 answer; str(e) follows. */
  const ErrorPrefix: string := "Une erreur est survenue: "

  /** The exceptions that reach the catch-all. */
  datatype Fault =
    | BodyNotJson           // request.get_json() raised
    | NotIterable           // `'texte' in data` on null, a boolean or a number
    | NotSubscriptable      // data['texte'] on a string or a list
    | TexteNotString        // .lower() on a 'texte' value that is not a string
    | ClassifierFailed      // vectorizer.transform or model.predict_proba raised
    | EmptyProbabilities    // argmax of an empty vector
    | ClassIndexOutOfRange  // model.classes_[argmax] out of range
    | NoSecondProbability   // probabilities[1] out of range

  /** The fields of a successful answer. */
  datatype Prediction = Prediction(
    texteOriginal: string,
    predictionFinale: string,
    predictionBinaireBrute: string,
    confiance: real,
    negatif: real,
    positif: real)

  datatype Response = Ok(prediction: Prediction) | MissingTexte | Crash(fault: Fault)

  /** The HTTP status of an answer. */
  function Status(r: Response): (code: int)
    ensures code == 200 <==> r.Ok?
    ensures code == 400 <==> r.MissingTexte?
    ensures code == 500 <==> r.Crash?
  {
    match r
    case Ok(_) => 200
    case MissingTexte => 400
    case Crash(_) => 500
  }

  /** The JSON body jsonify builds; `exceptionText` stands for str(e). */
  function Payload(r: Response, exceptionText: Fault -> string): Json {
    match r
    case Ok(p) =>
      JObj(map[
        "texte_original" := JStr(p.texteOriginal),
        "prediction_finale" := JStr(p.predictionFinale),
        "prediction_binaire_brute" := JStr(p.predictionBinaireBrute),
        "confiance" := JNum(p.confiance),
        "details_probabilites" := JObj(map["negatif" := JNum(p.negatif), "positif" := JNum(p.positif)])])
    case MissingTexte => JObj(map["error" := JStr(MissingTexteMessage)])
    case Crash(f) => JObj(map["error" := JStr(ErrorPrefix + exceptionText(f))])
  }

  /** p occurs in s starting at index i. */
  predicate OccursAt(s: string, p: string, i: int) {
    0 <= i && i + |p| <= |s| && s[i..i + |p|] == p
  }

  lemma OccursShift(s: string, p: string)
    requires s != []
    ensures forall i :: 1 <= i ==> (OccursAt(s, p, i) <==> OccursAt(s[1..], p, i - 1))
    ensures forall j :: OccursAt(s[1..], p, j) ==> OccursAt(s, p, j + 1)
  {
    forall i | 1 <= i ensures OccursAt(s, p, i) <==> OccursAt(s[1..], p, i - 1) {
      if i + |p| <= |s| {
        var here, there := s[i..i + |p|], s[1..][i - 1..i - 1 + |p|];
        assert |here| == |there|;
        assert forall j :: 0 <= j < |here| ==> here[j] == there[j];
        assert here == there;
      }
    }
  }

  /** Python's `p in s` on strings: p occurs in s as a contiguous piece. */
  function Contains(s: string, p: string): (b: bool)
    ensures b <==> exists i :: OccursAt(s, p, i)
    decreases |s|
  {
    if |s| < |p| then false
    else if s[..|p|] == p then assert OccursAt(s, p, 0); true
    else
      OccursShift(s, p);
      Contains(s[1..], p)
  }

  /** numpy's argmax: the first index at which the vector reaches its maximum. */
  function ArgMax(ps: seq<real>): (k: nat)
    requires ps != []
    ensures k < |ps|
    ensures forall j :: 0 <= j < |ps| ==> ps[j] <= ps[k]
    ensures forall j :: 0 <= j < k ==> ps[j] < ps[k]
  {
    if |ps| == 1 then 0
    else
      var k := ArgMax(ps[..|ps| - 1]);
      if ps[|ps| - 1] > ps[k] then |ps| - 1 else k
  }

  /** Python's max over the vector. */
  function Max(ps: seq<real>): (m: real)
    requires ps != []
    ensures m in ps
    ensures forall j :: 0 <= j < |ps| ==> ps[j] <= m
  {
    if |ps| == 1 then ps[0]
    else
      var m := Max(ps[1..]);
      assert forall j :: 1 <= j < |ps| ==> ps[j] == ps[1..][j - 1];
      if ps[0] > m then ps[0] else m
  }

  /** The three values computed from the probabilities. */
  datatype Decision = Decision(finale: string, brute: string, confiance: real)

  /** The label decision: arg-max class, maximum as confidence, 'neutre' below the threshold. */
  function Decide(ps: seq<real>, classes: seq<string>): (r: Result<Decision, Fault>)
    ensures ps == [] ==> r == Failure(EmptyProbabilities)
    ensures ps != [] && ArgMax(ps) >= |classes| ==> r == Failure(ClassIndexOutOfRange)
    ensures r.Success? <==> ps != [] && ArgMax(ps) < |classes|
    ensures r.Success? ==>
      && r.value.brute == classes[ArgMax(ps)]
      && r.value.confiance in ps
      && (forall j :: 0 <= j < |ps| ==> ps[j] <= r.value.confiance)
      && (r.value.confiance < ConfidenceThreshold ==> r.value.finale == Neutre)
      && (r.value.confiance >= ConfidenceThreshold ==> r.value.finale == r.value.brute)
  {
    if ps == [] then Failure(EmptyProbabilities)
    else
      var k := ArgMax(ps);
      if k >= |classes| then Failure(ClassIndexOutOfRange)
      else
        var brute := classes[k];
        var confidence := Max(ps);
        var finale := if confidence < ConfidenceThreshold then Neutre else brute;
        Success(Decision(finale, brute, confidence))
  }

  /** The confidence is the probability of the class that was picked. */
  lemma ConfidenceOfPickedClass(ps: seq<real>, classes: seq<string>)
    requires Decide(ps, classes).Success?
    ensures Decide(ps, classes).value.confiance == ps[ArgMax(ps)]
  {
    var k := ArgMax(ps);
    var m := Decide(ps, classes).value.confiance;
    var j :| 0 <= j < |ps| && ps[j] == m;
  }

  /** When no class is itself called 'neutre', the final label is 'neutre' exactly below the threshold. */
  lemma NeutreIffLowConfidence(ps: seq<real>, classes: seq<string>)
    requires Neutre !in classes
    requires Decide(ps, classes).Success?
    ensures var d := Decide(ps, classes).value;
      (d.finale == Neutre <==> d.confiance < ConfidenceThreshold)
      && (d.finale != Neutre ==> d.finale == classes[ArgMax(ps)])
  {
    assert classes[ArgMax(ps)] in classes;
  }

  /** Everything after the 'texte' lookup: clean, classify, decide, build the answer. */
  function Classify(texte: string, stopWords: set<string>, classify: string -> Option<seq<real>>,
                    classes: seq<string>): Response
  {
    match classify(Cleaning.Cleaned(texte, stopWords))
    case None => Crash(ClassifierFailed)
    case Some(ps) =>
      match Decide(ps, classes)
      case Failure(f) => Crash(f)
      case Success(d) =>
        if |ps| < 2 then Crash(NoSecondProbability)
        else Ok(Prediction(texte, d.finale, d.brute, d.confiance, ps[0], ps[1]))
  }

  /**
   * The handler. `body` is None when request.get_json() raises; Python's `in`
   * and indexing behave as they do on each JSON type.
   */
  function Predict(body: Option<Json>, stopWords: set<string>, classify: string -> Option<seq<real>>,
                   classes: seq<string>): Response
  {
    match body
    case None => Crash(BodyNotJson)
    case Some(data) =>
      match data
      case JNull => Crash(NotIterable)
      case JBool(_) => Crash(NotIterable)
      case JNum(_) => Crash(NotIterable)
      case JStr(s) => if Contains(s, "texte") then Crash(NotSubscriptable) else MissingTexte
      case JArr(items) => if JStr("texte") in items then Crash(NotSubscriptable) else MissingTexte
      case JObj(fields) =>
        if "texte" !in fields then MissingTexte
        else
          match fields["texte"]
          case JStr(texte) => Classify(texte, stopWords, classify, classes)
          case _ => Crash(TexteNotString)
  }

  // ---------------------------------------------------------------------------
  // What the handler promises

  /** An object without 'texte' gets a 400 whose body is only the fixed error. */
  lemma MissingKeyIsBadRequest(fields: map<string, Json>, stopWords: set<string>,
                               classify: string -> Option<seq<real>>, classes: seq<string>,
                               exceptionText: Fault -> string)
    requires "texte" !in fields
    ensures var r := Predict(Some(JObj(fields)), stopWords, classify, classes);
      && Status(r) == 400
      && Payload(r, exceptionText) == JObj(map["error" := JStr(MissingTexteMessage)])
  {}

  /** Every answer other than 200 carries an 'error' field and no classification. */
  lemma ErrorAnswersCarryNoLabel(r: Response, exceptionText: Fault -> string)
    ensures var p := Payload(r, exceptionText);
      && p.JObj?
      && (Status(r) != 200 <==> "error" in p.fields)
      && (Status(r) != 200 ==> p.fields.Keys == {"error"} && p.fields["error"].JStr?)
      && (Status(r) == 200 <==> "prediction_finale" in p.fields)
  {}

  /** A 200 answer comes only from an object whose 'texte' is a string, and echoes that string. */
  lemma OkOnlyForTexteString(body: Option<Json>, stopWords: set<string>,
                             classify: string -> Option<seq<real>>, classes: seq<string>)
    requires Predict(body, stopWords, classify, classes).Ok?
    ensures body.Some? && body.value.JObj? && "texte" in body.value.fields
    ensures body.value.fields["texte"] == JStr(Predict(body, stopWords, classify, classes).prediction.texteOriginal)
  {
    match body.value
    case JStr(s) =>
    case JArr(items) =>
    case JObj(fields) =>
  }

  /**
   * For an object whose 'texte' is the string t, the answer is 200 exactly when
   * the classifier returns at least two probabilities and the arg-max names a
   * class; then the fields are the decision on those probabilities.
   */
  lemma TexteAnswer(t: string, fields: map<string, Json>, stopWords: set<string>,
                    classify: string -> Option<seq<real>>, classes: seq<string>)
    requires "texte" in fields && fields["texte"] == JStr(t)
    ensures var r := Predict(Some(JObj(fields)), stopWords, classify, classes);
      var ps := classify(Cleaning.Cleaned(t, stopWords));
      && (r.Ok? <==> ps.Some? && |ps.value| >= 2 && ArgMax(ps.value) < |classes|)
      && (r.Ok? ==>
        && r.prediction.texteOriginal == t
        && r.prediction.predictionBinaireBrute == classes[ArgMax(ps.value)]
        && r.prediction.confiance == ps.value[ArgMax(ps.value)]
        && (r.prediction.confiance < ConfidenceThreshold ==> r.prediction.predictionFinale == Neutre)
        && (r.prediction.confiance >= ConfidenceThreshold ==>
              r.prediction.predictionFinale == r.prediction.predictionBinaireBrute)
        && r.prediction.negatif == ps.value[0]
        && r.prediction.positif == ps.value[1])
  {
    var ps := classify(Cleaning.Cleaned(t, stopWords));
    if ps.Some? && Decide(ps.value, classes).Success? {
      ConfidenceOfPickedClass(ps.value, classes);
    }
  }
}
