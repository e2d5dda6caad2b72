/**
 * The analysis form of the front end (App in frontend/src/App.tsx): four
 * pieces of React state and the click handler handleAnalyse. The handler is
 * split at its `await` into a submit step, which validates the text and sends
 * the request, and an outcome step, which receives how the fetch ended as an
 * abstract event.
 */
module Frontend {
  import opened Wrappers
  import opened Json

  const ValidationMessage: string := "Veuillez entrer du texte avant d'analyser."

  const UnreachableMessage: string :=
    "Impossible de contacter l'API. " + "Assurez-vous que le serveur backend est bien lancé."

  /** The base used when VITE_API_URL is unset or empty. */
  const DefaultApiBase: string := "/api"

  /** The fields of the answer the form reads (ApiResponse). */
  datatype ApiResponse = ApiResponse(predictionFinale: string, confiance: real)

  /** A POST with header Content-Type: application/json to url, whose body is {"texte": texte}. */
  datatype Request = Request(url: string, texte: string)

  /** How the awaited fetch ends. */
  datatype Outcome =
    | Responded(status: int, statusText: string, data: Option<ApiResponse>)  // data is None when response.json() rejects
    | TransportFailed                                                       // fetch itself rejects

  /** response.ok: the status is in the range 200-299. */
  predicate IsOk(status: int) {
    200 <= status <= 299
  }

  /** The outcomes after which the form shows a result. */
  predicate Delivers(o: Outcome) {
    o.Responded? && IsOk(o.status) && o.data.Some?
  }

  /** The message of the Error thrown for a response that is not ok. */
  function ServerErrorMessage(statusText: string): string {
    "Erreur du serveur: " + statusText
  }

  /** JSON.stringify({ texte: texte }), the request body. */
  function RequestBody(req: Request): Json {
    JObj(map["texte" := JStr(req.texte)])
  }

  // ---------------------------------------------------------------------------
  // Derived values

  /** `${import.meta.env.VITE_API_URL || '/api'}/predict`: an unset or empty variable selects '/api'. */
  function ApiUrl(viteApiUrl: Option<string>): (url: string)
    ensures viteApiUrl.Some? && viteApiUrl.value != "" ==> url == viteApiUrl.value + "/predict"
    ensures viteApiUrl.None? || viteApiUrl.value == "" ==> url == "/api/predict"
    ensures |url| >= 8 && url[|url| - 8..] == "/predict"
  {
    var base := if viteApiUrl.Some? && viteApiUrl.value != "" then viteApiUrl.value else DefaultApiBase;
    base + "/predict"
  }

  /** The colour of the label in the result panel. */
  function LabelColour(finale: string): (colour: string)
    ensures colour == "#1ABC9C" <==> finale == "positif"
    ensures colour == "#E74C3C" <==> finale == "negatif"
    ensures colour == "#95A5A6" <==> finale != "positif" && finale != "negatif"
  {
    if finale == "positif" then "#1ABC9C" else if finale == "negatif" then "#E74C3C" else "#95A5A6"
  }

  // ---------------------------------------------------------------------------
  // String.prototype.trim

  /** The WhiteSpace and LineTerminator characters of JavaScript, which trim() removes. */
  predicate IsJsSpace(c: char) {
    var n := c as int;
    (9 <= n <= 13) || n == 32 || n == 0xA0 || n == 0x1680 || (0x2000 <= n <= 0x200A)
    || n == 0x2028 || n == 0x2029 || n == 0x202F || n == 0x205F || n == 0x3000 || n == 0xFEFF
  }

  function TrimStart(s: string): (r: string)
    ensures |r| <= |s| && r == s[|s| - |r|..]
    ensures forall i :: 0 <= i < |s| - |r| ==> IsJsSpace(s[i])
    ensures r != [] ==> !IsJsSpace(r[0])
  {
    if s != [] && IsJsSpace(s[0]) then TrimStart(s[1..]) else s
  }

  function TrimEnd(s: string): (r: string)
    ensures |r| <= |s| && r == s[..|r|]
    ensures forall i :: |r| <= i < |s| ==> IsJsSpace(s[i])
    ensures r != [] ==> !IsJsSpace(r[|r| - 1])
  {
    if s != [] && IsJsSpace(s[|s| - 1]) then TrimEnd(s[..|s| - 1]) else s
  }

  /** s.trim(). */
  function Trim(s: string): string {
    TrimEnd(TrimStart(s))
  }

  /** The trimmed text is empty exactly when every character is JavaScript whitespace. */
  lemma TrimEmptyIffBlank(s: string)
    ensures Trim(s) == "" <==> forall i :: 0 <= i < |s| ==> IsJsSpace(s[i])
  {
    var u := TrimStart(s);
    if Trim(s) == "" {
      assert u == [];
    } else {
      var k := |s| - |u|;
      assert u != [] && s[k] == u[0];
    }
  }

  // ---------------------------------------------------------------------------
  // The component's state

  class AnalyseForm {
    var texte: string
    var resultat: Option<ApiResponse>
    var isLoading: bool
    var error: Option<string>
    /** import.meta.env.VITE_API_URL, fixed when the application is built. */
    const viteApiUrl: Option<string>

    /** While a request is in flight, neither a result nor an error is held. */
    ghost predicate Valid()
      reads this
    {
      isLoading ==> resultat.None? && error.None?
    }

    /** The initial values of the four useState calls. */
    constructor (viteApiUrl: Option<string>)
      ensures Valid()
      ensures texte == "" && resultat.None? && !isLoading && error.None?
      ensures this.viteApiUrl == viteApiUrl
    {
      texte := "";
      resultat := None;
      isLoading := false;
      error := None;
      this.viteApiUrl := viteApiUrl;
    }

    /** The textarea's onChange: only the text changes. */
    method SetTexte(value: string)
      requires Valid()
      modifies this
      ensures Valid()
      ensures texte == value
      ensures resultat == old(resultat) && isLoading == old(isLoading) && error == old(error)
    {
      texte := value;
    }

    /** The button's disabled attribute. */
    function ButtonDisabled(): (disabled: bool)
      reads this
      ensures disabled <==> isLoading
    {
      isLoading
    }

    /** A click on the button: a disabled button does nothing, otherwise handleAnalyse runs. */
    method Click() returns (sent: Option<Request>)
      requires Valid()
      modifies this
      ensures Valid()
      ensures texte == old(texte)
      ensures old(ButtonDisabled()) ==> sent.None? && unchanged(this)
      ensures !old(ButtonDisabled()) && Trim(texte) == "" ==>
        sent.None? && error == Some(ValidationMessage) && resultat == old(resultat) && !isLoading
      ensures !old(ButtonDisabled()) && Trim(texte) != "" ==>
        sent == Some(Request(ApiUrl(viteApiUrl), texte)) && isLoading && error.None? && resultat.None?
    {
      if ButtonDisabled() {
        sent := None;
      } else {
        sent := HandleAnalyse();
      }
    }

    /**
     * handleAnalyse up to its `await`: validate, then set the loading flag, clear
     * the error and the result, and send the untrimmed text. Only the button,
     * disabled while loading, calls it.
     */
    method HandleAnalyse() returns (sent: Option<Request>)
      requires Valid() && !isLoading
      modifies this
      ensures Valid()
      ensures texte == old(texte)
      ensures Trim(texte) == "" ==>
        && sent.None?
        && error == Some(ValidationMessage)
        && resultat == old(resultat)
        && !isLoading
      ensures Trim(texte) != "" ==>
        && sent == Some(Request(ApiUrl(viteApiUrl), texte))
        && isLoading
        && error.None?
        && resultat.None?
    {
      var trimmed := Trim(texte);
      if |trimmed| == 0 {
        error := Some(ValidationMessage);
        sent := None;
      } else {
        var req := Send();
        sent := Some(req);
      }
    }

    /** The part of handleAnalyse before the fetch for a non-blank text. */
    method Send() returns (req: Request)
      requires Valid()
      modifies this
      ensures Valid() && isLoading && error.None? && resultat.None?
      ensures texte == old(texte)
      ensures req == Request(ApiUrl(viteApiUrl), texte)
    {
      isLoading := true;
      error := None;
      resultat := None;
      var apiUrl := ApiUrl(viteApiUrl);
      req := Request(apiUrl, texte);
    }

    /**
     * handleAnalyse after its `await`: the try block stores the parsed answer,
     * every failure lands in the catch, which stores one fixed message, and the
     * finally block clears the loading flag.
     */
    method Settle(outcome: Outcome)
      requires Valid() && isLoading
      modifies this
      ensures Valid() && !isLoading && texte == old(texte)
      ensures Delivers(outcome) ==> resultat == outcome.data && error.None?
      ensures !Delivers(outcome) ==> error == Some(UnreachableMessage) && resultat.None?
      ensures resultat.None? || error.None?
      ensures outcome.Responded? ==> error != Some(ServerErrorMessage(outcome.statusText))
    {
      var caught := false;
      match outcome {
        case TransportFailed =>
          caught := true;
        case Responded(status, statusText, data) =>
          assert UnreachableMessage[0] == 'I' && ServerErrorMessage(statusText)[0] == 'E';
          if !IsOk(status) {
            caught := true;  // the thrown ServerErrorMessage(statusText) is never read by the catch block
          } else if data.None? {
            caught := true;
          } else {
            resultat := data;
          }
      }
      if caught {
        error := Some(UnreachableMessage);
      }
      isLoading := false;
    }
  }

  /** A form whose request for some non-blank text is in flight. */
  method Submitted() returns (form: AnalyseForm)
    ensures fresh(form) && form.Valid() && form.isLoading
  {
    var filled := "a";
    assert Trim(filled) == filled by { assert !IsJsSpace(filled[0]); }
    form := new AnalyseForm(None);
    form.SetTexte(filled);
    var sent := form.Click();
  }

  /** A form that has shown the answer data after one successful request. */
  method ShowResult(data: ApiResponse) returns (form: AnalyseForm)
    ensures fresh(form) && form.Valid()
    ensures form.resultat == Some(data) && !form.isLoading
  {
    form := Submitted();
    form.Settle(Responded(200, "OK", Some(data)));
  }

  /** After a result is shown, submitting blank text shows the validation error beside the old result. */
  method ValidationKeepsResult(data: ApiResponse) returns (form: AnalyseForm)
    ensures form.resultat == Some(data) && form.error == Some(ValidationMessage)
  {
    var blank := " ";
    assert Trim(blank) == "" by { assert IsJsSpace(blank[0]) && blank[1..] == ""; }
    form := ShowResult(data);
    form.SetTexte(blank);
    var sent := form.Click();
  }
}
