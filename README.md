# Sentiment form: a verified model of its three pieces of logic

The application is a single-page form that sends a French text to a small
Flask service and shows the sentiment it returns. Around the glue code there
are three pieces of logic with precise behaviour. This project models each of
them in Dafny and proves what they promise.

- **The text normaliser** `nettoyer_texte_v2` (module `Cleaning`). It
  lower-cases the text and turns every character of Python's
  `string.punctuation` except the apostrophe into a space. It does this in a
  loop that rebinds the text once per punctuation character, modelled as the
  method `NettoyerTexte` with a `for` loop. It then splits on whitespace,
  drops the French stop words and joins the remaining words with single
  spaces; these steps are functions. The stop-word set is a parameter.
- **The label decision of `predict`** (module `Prediction`). The handler is
  the function `Predict`, which looks up `'texte'`; `Classify` does the rest
  (clean, classify, decide, build the reply). Together they give the
  route's whole reply: how Python's `in` and indexing behave on each JSON
  type, the 400 reply when `'texte'` is missing, the arg-max and maximum over
  the class probabilities, the 0.70 threshold that gives `'neutre'`, the reply
  record, and every exception that reaches the catch-all and gives a 500
  (`Fault`). The vectoriser and classifier together are one parameter: a
  function from the cleaned text to the probability vector, where `None`
  means it raised. The class names are a parameter too.
- **The form's request cycle** `handleAnalyse` (module `Frontend`). It is a
  class `AnalyseForm` with the four React state fields `texte`, `resultat`,
  `isLoading` and `error`. `handleAnalyse` is split at its `await` into two
  methods: `HandleAnalyse`, which validates and, for non-blank text, hands
  over to `Send` to set the fields and return the request, and `Settle`, which
  takes how the fetch ended as an event (`Outcome`). Also modelled: the
  endpoint URL, the `disabled` flag of the button (a click on a disabled
  button does nothing: `Click`) and the colour of the label.
- **The development proxy rewrite** `path.replace(/^\/api/, '')` (module
  `DevProxy`).

Module `Wiring` connects these pieces. It proves four things. With the
default base URL, the proxied path is the route `/predict`. The body the form
sends always has `texte`. The form shows a result exactly when the back end
answers 200. With the classes `negatif` and `positif`, the label is drawn in
grey exactly when the confidence is below 0.70.

Some facts of the code, modelled as written:

- The request body's only key is `texte`. The label the back end returns is
  a class name of the model or `neutre`; the front end colours `positif` and
  `negatif` and draws every other label in grey.
- A response whose status is not ok gets the same fixed message as a network
  failure. The status text goes into the thrown error, which is never shown.
- A result and an error are never both held after the response step
  (`Settle`). A validation failure, though, leaves a previous result on
  screen beside the validation error (`Frontend.ValidationKeepsResult`).
- The proxy only strips one leading `/api`, and it ignores path segments.
- A JSON array or string body without `"texte"` gets the 400 reply, because
  Python's `in` works on those types too.

Character classes: `Cleaning.IsSpace` is exactly the set of characters Python
treats as whitespace in `str.split()`. `Frontend.IsJsSpace` is the set that
JavaScript's `trim()` removes. `Cleaning.Lower` lower-cases ASCII, the
Latin-1 capitals, Œ and Ÿ.

## Model

| member | source | states |
|---|---|---|
| `Cleaning.NettoyerTexte` | backend/app.py:42-49 | the loop over the punctuation characters followed by split, filter and join returns exactly `Cleaned(texte, stopWords)` |
| `Cleaning.ReplaceEachAt` | backend/app.py:44-45 | replacing each character of a list by a space, in turn, turns exactly the characters of the list into spaces and leaves every other character at its place |
| `Cleaning.Lower` | backend/app.py:43 | lowering yields no capital, leaves non-capitals alone, and never turns a capital into whitespace or punctuation |
| `Cleaning.DeleteChar` | backend/app.py:40 | a character is in the result of `replace("'", "")` exactly when it is in the input and is not the apostrophe |
| `Cleaning.DeleteCharKeepsOrder` | backend/app.py:40 | the result of `replace("'", "")` is a subsequence of the input, so the other characters keep their order |
| `Cleaning.DeleteCharKeepsCounts` | backend/app.py:40 | the result of `replace("'", "")` has no apostrophe and every other character exactly as often as the input |
| `Cleaning.PunctuationLiteral` | backend/app.py:40 | the modelled `string.punctuation` equals Python's literal value of `string.punctuation`, the 32 ASCII punctuation characters in code order, character for character |
| `Cleaning.PunctuationFacts` | backend/app.py:40 | the characters to remove are exactly those of `string.punctuation` other than `'` |
| `Cleaning.Split` | backend/app.py:46 | every piece `split()` returns is a non-empty run without whitespace |
| `Cleaning.SplitSkipsSpace` | backend/app.py:46 | whitespace in front of a text does not change what `split()` returns |
| `Cleaning.SplitSeparator` | backend/app.py:44-46 | `split()` treats any run of whitespace, such as the double space that replacing a punctuation mark next to a space leaves, exactly like one space, so the words keep their input order |
| `Cleaning.Filter` | backend/app.py:47 | the kept words are an order-preserving subsequence of the input, contain no stop word, and keep every non-stop word as often as the input has it |
| `Cleaning.SplitJoin` | backend/app.py:46-48 | `split()` gives back the word list that `" ".join` joined |
| `Cleaning.CleanedChars` | backend/app.py:40-45 | no character of `string.punctuation` other than `'` is in the output, and no output character changes when lowered |
| `Cleaning.ApostrophesKept` | backend/app.py:43-45 | every apostrophe of the input is still at its place in the text that gets split |
| `Cleaning.ApostrophesSurvive` | backend/app.py:42-49 | when no stop word contains an apostrophe, the output has as many apostrophes as the input |
| `Cleaning.CleanedSingleSpaced` | backend/app.py:46-48 | the output has no leading or trailing whitespace, and words are separated by exactly one `' '` |
| `Cleaning.CleanedWords` | backend/app.py:46-48 | the output's word list is exactly the stop-word-filtered split of the normalised input, in input order; each word is lower-case and not a stop word |
| `Cleaning.CleanedEmpty` | backend/app.py:42-49 | the output is `""` if and only if every word of the split is a stop word |
| `Cleaning.BlankCleansToEmpty` | backend/app.py:42-49 | an input made only of whitespace and of punctuation other than the apostrophe yields `""` (an apostrophe survives cleaning) |
| `Cleaning.CleanedOfLowered` | backend/app.py:43 | lower-casing the input first does not change the output, so stop words are matched without regard to case |
| `Cleaning.CleanedIdempotent` | backend/app.py:42-49 | cleaning a cleaned text returns it unchanged |
| `Prediction.Contains` | backend/app.py:65 | Python's `in` on strings is true exactly when the pattern occurs at some index |
| `Prediction.ArgMax` | backend/app.py:82 | the index is in range, its value is the maximum, and no earlier index reaches it |
| `Prediction.Max` | backend/app.py:85 | the value is an element of the vector and no element exceeds it |
| `Prediction.Decide` | backend/app.py:79-92 | empty vector and out-of-range arg-max fail; otherwise the raw class is the arg-max class, the confidence is the maximum, below 0.70 the label is `'neutre'`, else the raw class |
| `Prediction.ConfidenceOfPickedClass` | backend/app.py:82-85 | the confidence is the probability of the class that was picked |
| `Prediction.NeutreIffLowConfidence` | backend/app.py:88-92 | when no class is named `'neutre'`, the label is `'neutre'` if and only if the confidence is below 0.70, and otherwise it is the arg-max class |
| `Prediction.MissingKeyIsBadRequest` | backend/app.py:65-66 | an object without `'texte'` gets status 400 and a body holding only the fixed error |
| `Prediction.ErrorAnswersCarryNoLabel` | backend/app.py:66-108 | a non-200 body has only an `'error'` field; a 200 body has `'prediction_finale'` and no `'error'` |
| `Prediction.OkOnlyForTexteString` | backend/app.py:62-71 | a 200 reply comes only from a JSON object whose `'texte'` is a string, and echoes that string |
| `Prediction.TexteAnswer` | backend/app.py:68-104 | for a string `'texte'`: 200 exactly when the classifier gives at least two probabilities and the arg-max names a class; then the reply holds the arg-max class, the maximum, the threshold rule and both probabilities |
| `Frontend.TrimEmptyIffBlank` | frontend/src/App.tsx:107 | `trim()` gives `""` exactly when every character is JavaScript whitespace |
| `Frontend.AnalyseForm.constructor` | frontend/src/App.tsx:99-102 | empty text, no result, not loading, no error |
| `Frontend.AnalyseForm.SetTexte` | frontend/src/App.tsx:154 | editing changes the text and nothing else |
| `Frontend.AnalyseForm.Click` | frontend/src/App.tsx:157 | a click while disabled changes nothing and sends nothing; otherwise it has the effect of `handleAnalyse` |
| `Frontend.AnalyseForm.HandleAnalyse` | frontend/src/App.tsx:107-126 | blank text: validation message, no request, loading flag and previous result untouched; otherwise loading, error and result cleared, and one request with the untrimmed text to `ApiUrl` |
| `Frontend.AnalyseForm.Send` | frontend/src/App.tsx:112-126 | for non-blank text: loading set, error and result cleared, text untouched, and the request goes to `ApiUrl` with the untrimmed text |
| `Frontend.AnalyseForm.Settle` | frontend/src/App.tsx:128-142 | ok response with parsed data: result stored, error stays null; every failure: the single fixed message, never the thrown status text; loading cleared; never both a result and an error |
| `Frontend.ValidationKeepsResult` | frontend/src/App.tsx:107-110 | after a shown result, a blank submit leaves the result and the validation error together |
| `DevProxy.Rewrite` | frontend/vite.config.ts:17 | a path starting with `/api` is the prefix followed by the result; any other path is unchanged |
| `DevProxy.RewriteUndoesPrefix` | frontend/vite.config.ts:17 | rewriting `"/api" + p` gives `p`, even when `p` starts with `/api` again |
| `DevProxy.RewriteDropsFour` | frontend/vite.config.ts:17 | with the prefix present the result is the input less its first four characters |
| `DevProxy.RewriteExamples` | frontend/vite.config.ts:16-17 | `/api/predict` becomes `/predict`, `/api/api/x` becomes `/api/x`, `/apix` becomes `x`, `/predict` stays |
| `DevProxy.RewriteNotIdempotent` | frontend/vite.config.ts:17 | a second rewrite can strip another `/api` |
| `Wiring.DefaultUrlReachesRoute` | frontend/vite.config.ts:16-17 | with `VITE_API_URL` unset or empty, the proxied URL is the back end's route `/predict` |
| `Wiring.SentBodyHasTexte` | frontend/src/App.tsx:125 | the body the form sends never gets the 400 reply nor a lookup fault; a 200 reply echoes the sent text |
| `Wiring.FormShowsOnlyClassifications` | frontend/src/App.tsx:128-134 | the form stores a result exactly for a 200 reply, and then the reply's label and confidence |
| `Wiring.GreyExactlyWhenUnsure` | frontend/src/App.tsx:170 | with classes `negatif` and `positif`, the label is grey exactly when the confidence is below 0.70 |

## Left out

- Python's full `str.lower()`: characters outside ASCII, Latin-1, Œ and Ÿ are left unchanged, and the mappings that change a text's length (such as `İ`) are not modelled.
- The NLTK stop-word list, its download and its contents: the stop words are a parameter, because they are external data.
- `joblib.load`, `vectorizer.transform` and `model.predict_proba`: they are foreign machine-learning code. A parameter stands for them.
- Floating point: probabilities and the threshold are exact reals, so NaN ordering and rounding are not modelled. The `float(...)` conversions and the `Math.round(confiance * 100)` percentage display are left out for the same reason.
- The wording of `str(e)` in a 500 reply: a parameter `exceptionText` supplies it after the fixed prefix.
- Flask set-up, the `/` route, CORS and `app.run`, and the Vite plugins, `target` and `changeOrigin`: they are framework and build configuration.
- `fetch`, `response.json()`, `console.error` and React's state runtime: they are I/O. Events and field updates stand for them, and so React's batching of state updates is not modelled.
- Frontend.AnalyseForm.HandleAnalyse: it requires `!isLoading`, because the only caller is the button, and the button is disabled while loading. `Click` models a click on the disabled button.
- Wiring.ReadAnswer: a parsed JSON body not shaped like `ApiResponse` is mapped to `None`, which `Settle` treats like a failed `response.json()` and answers with the error message. The code instead stores such a body as `resultat` with no error, and a JSON `null` body leaves neither a result nor an error, because TypeScript does not check the shape at run time. `Frontend.Outcome` cannot express an ok response whose JSON is not an `ApiResponse`. The back end never sends one: a 200 body always has both fields, and the data of other statuses is not read.
- The JSON round trip between `JSON.stringify` and `request.get_json()` is taken to be lossless.
- All rendering other than the disabled flag and the label colour, including the styles, the button caption and the loading indicator.
