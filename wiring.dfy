/**
 * How the pieces meet: the front end's default URL through the development
 * proxy reaches the back end's route, the body it sends always carries
 * 'texte', and the back end's answer decides what the form shows.
 */
module Wiring {
  import opened Wrappers
  import opened Json
  import Prediction
  import Frontend
  import DevProxy

  /** With VITE_API_URL unset or empty, the proxied URL is exactly the back end's route. */
  lemma DefaultUrlReachesRoute(viteApiUrl: Option<string>)
    requires viteApiUrl.None? || viteApiUrl.value == ""
    ensures DevProxy.Rewrite(Frontend.ApiUrl(viteApiUrl)) == Prediction.PredictRoute
  {
    DevProxy.RewriteUndoesPrefix("/predict");
    assert Frontend.ApiUrl(viteApiUrl) == DevProxy.ProxyPrefix + "/predict";
  }

  /**
   * The body the form sends never gets the 400 answer nor a lookup fault: it
   * is either classified, echoing the sent text, or fails in the classifier
   * steps.
   */
  lemma SentBodyHasTexte(req: Frontend.Request, stopWords: set<string>,
                         classify: string -> Option<seq<real>>, classes: seq<string>)
    ensures var r := Prediction.Predict(Some(Frontend.RequestBody(req)), stopWords, classify, classes);
      && !r.MissingTexte?
      && (r.Ok? ==> r.prediction.texteOriginal == req.texte)
      && (r.Crash? ==> r.fault in {Prediction.ClassifierFailed, Prediction.EmptyProbabilities,
                                    Prediction.ClassIndexOutOfRange, Prediction.NoSecondProbability})
  {
    var fields := map["texte" := JStr(req.texte)];
    assert Frontend.RequestBody(req) == JObj(fields);
    assert "texte" in fields && fields["texte"] == JStr(req.texte);
  }

  /** response.json() on a back-end body, read as the two fields the form uses. */
  function ReadAnswer(body: Json): Option<Frontend.ApiResponse> {
    if body.JObj? && "prediction_finale" in body.fields && "confiance" in body.fields
       && body.fields["prediction_finale"].JStr? && body.fields["confiance"].JNum?
    then Some(Frontend.ApiResponse(body.fields["prediction_finale"].s, body.fields["confiance"].n))
    else None
  }

  /** What the form's outcome step receives when the back end answers r. */
  function Delivered(r: Prediction.Response, statusText: string, exceptionText: Prediction.Fault -> string): Frontend.Outcome {
    Frontend.Responded(Prediction.Status(r), statusText, ReadAnswer(Prediction.Payload(r, exceptionText)))
  }

  /** The form shows a result exactly for a 200 answer, and then the answer's label and confidence. */
  lemma FormShowsOnlyClassifications(r: Prediction.Response, statusText: string,
                                     exceptionText: Prediction.Fault -> string)
    ensures Frontend.Delivers(Delivered(r, statusText, exceptionText)) <==> r.Ok?
    ensures r.Ok? ==>
      Delivered(r, statusText, exceptionText).data
        == Some(Frontend.ApiResponse(r.prediction.predictionFinale, r.prediction.confiance))
  {}

  /** With the classes negatif and positif, the label is grey exactly when the confidence is below 0.70. */
  lemma GreyExactlyWhenUnsure(ps: seq<real>)
    requires Prediction.Decide(ps, ["negatif", "positif"]).Success?
    ensures var d := Prediction.Decide(ps, ["negatif", "positif"]).value;
      Frontend.LabelColour(d.finale) == "#95A5A6" <==> d.confiance < Prediction.ConfidenceThreshold
  {
    var classes := ["negatif", "positif"];
    var d := Prediction.Decide(ps, classes).value;
    assert d.brute in classes;
    assert Prediction.Neutre != "negatif" && Prediction.Neutre != "positif";
  }
}
