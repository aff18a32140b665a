# Entry list of the AI text-processing interface, in Dafny

The `App` component of this React application keeps a draft text, an
ordered list of submitted entries (`text`, `detectedLanguage`, `summary`,
`translation`), the target language chosen in a `<select>` (initially
`en`), the last detected language and one global "summarisable" flag. Three
handlers change that state with the help of the browser's AI provider
(`navigator.ai`):

- **send** ignores a draft that trims to nothing. Otherwise it appends the
  untrimmed draft as a new entry and clears the draft. When language
  detection succeeds, the entry records the language, the global detected
  language is set, and the flag is set to "English and strictly longer than
  150 UTF-16 code units". When detection fails the entry is still appended,
  with an empty language, and the global values are left alone.
- **summarize(i)** stores the provider's summary in entry `i`.
- **translate(i)** asks for entry `i`'s text in the currently selected
  language, and stores the first translation returned in entry `i`.

A rejected provider call leaves the list untouched. A translate answer with
no translations at all makes `translations[0].text` throw inside the same
`try`, so it leaves the list untouched too. The page shows "Summarize" for
an entry exactly when the global flag is set and that entry has no summary
yet.

Layout:

- `wrappers.dfy`: `Option`, the outcome of a provider call.
- `js_string.dfy`: the JavaScript string semantics the handlers depend on.
  `Trim` strips the ECMAScript white-space and line-terminator code points.
  `Utf16Length` is the `length` property of a string without lone
  surrogates, where a character outside the Basic Multilingual Plane counts
  twice.
- `app_model.dfy`: the state as a value (`State`, `Entry`) and one
  transition function per handler (`Change`, `SelectLanguage`, `Send`,
  `Summarize`, `Translate`). Each function's `ensures` states what the
  handler promises. It also holds a reachability invariant `Inv`, its
  preservation by every transition and by any run of interactions, the
  append-only property of the list, and concrete scenarios.
- `app_component.dfy`: the component as a class `App`. Its five fields are
  the five `useState` hooks, and it has one method per handler. Each method
  updates the fields step by step as the handler does. Each is proved to
  leave the fields equal to the matching transition (`Change`,
  `SelectLanguage`, `Send`, `Summarize` or `Translate`) applied to the old
  state and the provider's answer, and to keep `Inv`.

Provider calls are parameters. `Detector`, `Summarizer` and `Translator`
are total functions from the request to `Option` of the response, and
`None` is a rejected promise. A browser without `navigator.ai` behaves the
same way, because the call then throws inside the `try`. Because the
translator is applied to `TranslateRequest(text, language)`, the model
records that the request carries the shared selection as its target.

Some behaviours of the code are worth spelling out:

- The length test is strict, `text.length > 150`. `SummarizableBoundary`
  pins the boundary: 150 code units are not enough, 151 are.
- The flag is a single global value, not a per-entry rule. Once any long
  English text is submitted, the button is offered on every entry without a
  summary, including short non-English ones
  (`LongEnglishSendOffersEveryEntry`, `GlobalFlagOffersShortEntries`). Each
  later successful detection recomputes the flag from the text just sent. A
  failed detection leaves it as it was.
- The component keeps no busy flag, entry ids or per-entry error field. It
  has no delete operation, no "too short" or "no target" check and no prompt
  to choose a language, so none of these is modelled.

## Model

| member | source | states |
|---|---|---|
| `JsString.SkipForward` | src/App.jsx:28 | the scan from `i` stops at the first non-whitespace character, or at the end, having passed only whitespace |
| `JsString.SkipBackward` | src/App.jsx:28 | the backward scan from `j` stops just after the last non-whitespace character, or at 0, having passed only whitespace |
| `JsString.TrimStart` | src/App.jsx:28 | the result is a suffix of the input, everything dropped is whitespace, and it does not start with whitespace |
| `JsString.TrimEnd` | src/App.jsx:28 | the result is a prefix of the input, everything dropped is whitespace, and it does not end with whitespace |
| `JsString.TrimIsMiddle` | src/App.jsx:28 | `trim()` is the contiguous middle part of the input that starts where the leading whitespace ends; only whitespace lies before and after it (and, by `Trim`'s contract, it neither starts nor ends with whitespace) |
| `JsString.TrimEmptyIffAllWhitespace` | src/App.jsx:28 | `trim()` returns the empty string exactly when every character of the input is whitespace |
| `JsString.IsBlank` | src/App.jsx:28 | the test `text.trim() === ''` holds exactly when every character of the draft is whitespace, so in particular for the empty draft |
| `JsString.Utf16Length` | src/App.jsx:37 | `length` of a single character is 1 inside the BMP and 2 outside it; in general it lies between the character count and twice it, equals the count iff every character is in the BMP, and twice the count iff none is |
| `JsString.Utf16LengthConcat` | src/App.jsx:37 | `length` is additive over concatenation, so with the single-character case it is the sum over the characters |
| `AppModel.Summarizable` | src/App.jsx:37 | the flag's condition: it only holds for `en` text of more than 75 characters, and holds for every `en` text of more than 150 characters |
| `AppModel.SummarizeButtonShown` | src/App.jsx:98 | the button is hidden while the flag is off; while it is on, the button is shown exactly when the entry's summary is empty |
| `AppModel.TranslationRequest` | src/App.jsx:63-66 | the request carries the entry's text and the selected language as target, which in a reachable state is one of the six options |
| `AppModel.FirstTranslation` | src/App.jsx:68 | `translations[0].text` exists iff the list of translations is non-empty, and is then the first translation's text |
| `AppModel.Change` | src/App.jsx:22-24 | the draft becomes the text area's value and nothing else changes |
| `AppModel.SelectLanguage` | src/App.jsx:109-119 | the target language becomes the chosen option, which is one of en, pt, es, ru, tr, fr, and nothing else changes |
| `AppModel.Send` | src/App.jsx:27-44 | a blank draft changes nothing. Otherwise exactly one entry is appended at the end, with the untrimmed draft as its text and empty summary and translation, earlier entries are kept in order, the draft is cleared and the language selection is kept. On successful detection the entry and the global language take the detected language, and the flag is set iff it is `en` and the draft is longer than 150 code units. On failure the entry's language is empty and the global language and the flag are unchanged |
| `AppModel.Summarize` | src/App.jsx:47-57 | a rejected call changes nothing. A successful one changes only entry `index`'s summary, to the returned summary, and keeps the length, every other entry and every other state variable |
| `AppModel.Translate` | src/App.jsx:60-73 | the request is the entry's text with the shared language as its target. A rejected call, or an answer with no translations, changes nothing. Otherwise only entry `index`'s translation changes, to the first translation's text, and everything else is kept |
| `AppModel.InitialInv` | src/App.jsx:5-9 | the initial state (empty draft and list, `en`, no detection, flag off) satisfies the invariant |
| `AppModel.ChangePreservesInv` | src/App.jsx:22-24 | editing the draft keeps the invariant |
| `AppModel.SelectLanguagePreservesInv` | src/App.jsx:111-119 | choosing an option keeps the target language among the six options |
| `AppModel.SendPreservesInv` | src/App.jsx:27-44 | sending keeps the invariant: no entry has a blank text, and a set flag comes with a global `en` detection and an entry that is English and longer than 150 code units |
| `AppModel.SummarizePreservesInv` | src/App.jsx:47-57 | summarizing keeps the invariant |
| `AppModel.TranslatePreservesInv` | src/App.jsx:60-73 | translating keeps the invariant |
| `AppModel.StepPreservesInv` | src/App.jsx:22-73 | every interaction the page can produce keeps the invariant; Summarize is only offered on an entry whose button is shown |
| `AppModel.RunPreservesInv` | src/App.jsx:5-73 | any sequence of interactions keeps the invariant, so every reachable state satisfies it |
| `AppModel.StepExtends` | src/App.jsx:42 | one interaction never removes or reorders entries, and never changes an entry's text or detected language |
| `AppModel.RunExtends` | src/App.jsx:42-68 | the list is append-only over any sequence of interactions, and the text and detected language of each entry are fixed once it is in the list |
| `AppModel.SummarizeButtonNeedsLongEnglishEntry` | src/App.jsx:98 | in a reachable state the Summarize button is only shown while some entry is English and longer than 150 code units |
| `AppModel.SummaryHidesButton` | src/App.jsx:98 | a non-empty summary hides that entry's Summarize button and leaves every other entry's button as it was |
| `AppModel.SummarizableBoundary` | src/App.jsx:37 | English text of exactly 150 code units is not summarisable, 151 is, and French text of 151 is not |
| `AppModel.AstralCharactersCountTwice` | src/App.jsx:37 | 76 characters outside the BMP already exceed 150 code units |
| `AppModel.SubmitHelloScenario` | src/App.jsx:27-44 | submitting "Hello" detected as `en` yields the single entry ("Hello", "en", "", ""), not summarisable, with the draft cleared |
| `AppModel.LongEnglishSubmitScenario` | src/App.jsx:27-44 | submitting any non-blank English text longer than 150 code units yields one entry and sets the flag, so the button is shown |
| `AppModel.SummarizeThenTranslateScenario` | src/App.jsx:47-73 | the summary fills in and hides the button; after choosing `fr` the translate request targets `fr` and its answer is stored |
| `AppModel.LettersScenario` | src/App.jsx:27-44 | typing any run of more than 150 letters and sending it, detected as `en`, gives the single entry with that text and sets the flag |
| `AppModel.MixedTextIsSummarizable` | src/App.jsx:37 | 100 letters followed by 26 emoji, 126 characters, are 152 code units long and so pass the length test |
| `AppModel.SubmitHolaScenario` | src/App.jsx:27-44 | submitting "Hola" detected as `es` yields the single entry ("Hola", "es", "", "") with the flag off |
| `AppModel.LongEnglishSendOffersEveryEntry` | src/App.jsx:98 | after sending a long English text, every earlier entry without a summary is kept and is offered the Summarize button, whatever its own language and length |
| `AppModel.GlobalFlagOffersShortEntries` | src/App.jsx:98 | after the "Hola" entry detected as `es` (see `SubmitHolaScenario`), any long English submission offers the button on that entry, which the rule itself does not call summarisable |
| `AppComponent.App.constructor` | src/App.jsx:5-9 | the fields start as the five `useState` initial values and satisfy the invariant |
| `AppComponent.App.HandleChange` | src/App.jsx:22-24 | the new state is `Change` of the old one; the invariant is kept |
| `AppComponent.App.HandleSelectLanguage` | src/App.jsx:109-119 | the new state is `SelectLanguage` of the old one; the invariant is kept |
| `AppComponent.App.HandleSend` | src/App.jsx:27-44 | the new state is `Send` of the old one; on a non-blank draft the old list plus one entry, with the draft cleared; the invariant is kept |
| `AppComponent.App.HandleSummarize` | src/App.jsx:47-57 | the new state is `Summarize` of the old one; the invariant is kept |
| `AppComponent.App.HandleTranslate` | src/App.jsx:60-73 | the request sent is the entry's text with the selected language; the new state is `Translate` of the old one; the invariant is kept |
| `AppComponent.App.ShowsSummarizeButton` | src/App.jsx:98 | the button is shown iff the flag is set and the entry has no summary, and then some entry is English and longer than 150 code units |

## Left out

- The provider itself (`navigator.ai.detectLanguage`, `summarize`, `translate`) and the availability check in the `useEffect` at src/App.jsx:12-18. The provider is an opaque browser API, so its answers are parameters, and the check only logs.
- Asynchrony. Each handler is one atomic step. In the code, a handler reads `output` before it awaits, so two overlapping calls can overwrite each other's update to the list. That lost update is not modelled.
- Aliasing of entry objects. `[...output]` is a shallow copy, so `updatedOutput[index].summary = …` also changes the entry object in the previous list. Entries are values here. The state after each single step is the same.
- Malformed provider answers. A response that lacks its `language` or `summary` field would store `undefined`; here those fields are always strings.
- Handler calls with an index outside the list. The handlers read `output[index]` outside their `try`, and the only callers are the per-entry buttons, so the handlers require a valid index.
- Rendering, class names and `console` logging (src/App.jsx:75-134), except the Summarize-button rule at line 98. The summary and translation paragraphs (lines 106 and 128) are only views of the stored strings.
- Lone surrogates. Strings are sequences of Unicode scalar values, so a JavaScript string holding an unpaired surrogate, which `length` counts as one unit, is not represented.
- src/LandingPage.jsx and src/MyComponent.jsx. One is a screen toggle that renders `App`, and the other only displays environment tokens.
