/** The state of the `App` component and what each of its handlers does to
    it, as values. Every handler is one atomic step from one `State` to the
    next; the answer of the browser's AI provider is a parameter. */
module AppModel {
  import opened Wrappers
  import opened JsString

  /** One item of the `output` list. An empty string stands for a field the
      provider has not filled in (the component initialises them with `''`). */
  datatype Entry = Entry(text: string, detectedLanguage: string, summary: string, translation: string)

  /** The five pieces of component state, in declaration order. */
  datatype State = State(
    text: string,
    output: seq<Entry>,
    language: string,
    detectedLanguage: string,
    isSummarizable: bool)

  /** What the provider answers. `None` is a rejected call, which also
      covers a browser whose `navigator.ai` is undefined: the call then
      throws inside the same `try`. */
  datatype Detection = Detection(language: string)
  datatype SummaryResponse = SummaryResponse(summary: string)
  datatype TranslateRequest = TranslateRequest(text: string, targetLanguage: string)
  datatype Translation = Translation(text: string)
  datatype TranslateResponse = TranslateResponse(translations: seq<Translation>)

  type Detector = string -> Option<Detection>
  type Summarizer = string -> Option<SummaryResponse>
  type Translator = TranslateRequest -> Option<TranslateResponse>

  /** The options of the target-language `<select>`, in display order. */
  const TARGET_LANGUAGES: seq<string> := ["en", "pt", "es", "ru", "tr", "fr"]

  /** The state the component starts with. */
  const INITIAL: State := State("", [], "en", "", false)

  /** The rule that sets the global summarisable flag after a detection:
      English, and strictly more than 150 UTF-16 code units. */
  predicate Summarizable(language: string, text: string)
    ensures Summarizable(language, text) ==> language == "en" && |text| > 75
    ensures language == "en" && |text| > 150 ==> Summarizable(language, text)
  {
    language == "en" && Utf16Length(text) > 150
  }

  /** Whether the "Summarize" button is rendered for entry `e`. */
  predicate SummarizeButtonShown(isSummarizable: bool, e: Entry)
    ensures !isSummarizable ==> !SummarizeButtonShown(isSummarizable, e)
    ensures isSummarizable ==> (SummarizeButtonShown(isSummarizable, e) <==> |e.summary| == 0)
  {
    isSummarizable && e.summary == ""
  }

  /** `translations[0].text`, which throws inside the handler's `try`
      when the provider returns no translation at all. */
  function FirstTranslation(response: TranslateResponse): (r: Option<string>)
    ensures r.Some? <==> |response.translations| > 0
    ensures r.Some? ==> r.value == response.translations[0].text
  {
    if |response.translations| == 0 then None else Some(response.translations[0].text)
  }

  /** `handleChange`: the draft becomes what the text area holds. */
  function Change(s: State, value: string): (r: State)
    ensures r.text == value
    ensures r.(text := s.text) == s
  {
    s.(text := value)
  }

  /** The `<select>` handler: the shared target language becomes `code`. */
  function SelectLanguage(s: State, code: string): (r: State)
    requires code in TARGET_LANGUAGES
    ensures r.language == code && r.language in TARGET_LANGUAGES
    ensures r.(language := s.language) == s
  {
    s.(language := code)
  }

  /** `handleSend`: a blank draft changes nothing; otherwise the untrimmed
      draft is appended as a new entry, whether or not detection succeeded,
      and the draft is cleared. Only a successful detection touches the
      global detected language and the summarisable flag. */
  function Send(s: State, detect: Detector): (r: State)
    ensures IsBlank(s.text) ==> r == s
    ensures !IsBlank(s.text) ==>
      && |r.output| == |s.output| + 1
      && r.output[..|s.output|] == s.output
      && r.output[|s.output|].text == s.text
      && r.output[|s.output|].summary == ""
      && r.output[|s.output|].translation == ""
      && r.text == ""
      && r.language == s.language
    ensures !IsBlank(s.text) && detect(s.text).Some? ==>
      var language := detect(s.text).value.language;
      && r.output[|s.output|].detectedLanguage == language
      && r.detectedLanguage == language
      && (r.isSummarizable <==> language == "en" && Utf16Length(s.text) > 150)
    ensures !IsBlank(s.text) && detect(s.text).None? ==>
      && r.output[|s.output|].detectedLanguage == ""
      && r.detectedLanguage == s.detectedLanguage
      && r.isSummarizable == s.isSummarizable
  {
    if IsBlank(s.text) then s
    else
      var detection := detect(s.text);
      var entry := Entry(s.text, if detection.Some? then detection.value.language else "", "", "");
      var detected :=
        if detection.Some? then
          s.(detectedLanguage := detection.value.language,
             isSummarizable := Summarizable(detection.value.language, s.text))
        else s;
      detected.(output := s.output + [entry], text := "")
  }

  /** `handleSummarize(index)`: on success only the summary of entry
      `index` changes; on failure nothing does. */
  function Summarize(s: State, index: nat, summarize: Summarizer): (r: State)
    requires index < |s.output|
    ensures summarize(s.output[index].text).None? ==> r == s
    ensures summarize(s.output[index].text).Some? ==>
      && |r.output| == |s.output|
      && r.output[index] == s.output[index].(summary := summarize(s.output[index].text).value.summary)
      && (forall k :: 0 <= k < |s.output| && k != index ==> r.output[k] == s.output[k])
      && r.(output := s.output) == s
  {
    match summarize(s.output[index].text)
    case None => s
    case Some(response) =>
      s.(output := s.output[index := s.output[index].(summary := response.summary)])
  }

  /** The request `handleTranslate(index)` sends: the entry's text and the
      shared target language, whatever it is at the time of the call. */
  function TranslationRequest(s: State, index: nat): (r: TranslateRequest)
    requires index < |s.output|
    ensures r.text == s.output[index].text && r.targetLanguage == s.language
    ensures Inv(s) ==> r.targetLanguage in TARGET_LANGUAGES
  {
    TranslateRequest(s.output[index].text, s.language)
  }

  /** `handleTranslate(index)`: when the call succeeds with at least one
      translation, only the translation of entry `index` changes, to the
      first one; otherwise nothing does. */
  function Translate(s: State, index: nat, translate: Translator): (r: State)
    requires index < |s.output|
    ensures
      var response := translate(TranslateRequest(s.output[index].text, s.language));
      response.None? || |response.value.translations| == 0 ==> r == s
    ensures
      var response := translate(TranslateRequest(s.output[index].text, s.language));
      response.Some? && |response.value.translations| > 0 ==>
      && |r.output| == |s.output|
      && r.output[index] == s.output[index].(translation := response.value.translations[0].text)
      && (forall k :: 0 <= k < |s.output| && k != index ==> r.output[k] == s.output[k])
      && r.(output := s.output) == s
  {
    match translate(TranslationRequest(s, index))
    case None => s
    case Some(response) =>
      match FirstTranslation(response)
      case None => s
      case Some(translation) =>
        s.(output := s.output[index := s.output[index].(translation := translation)])
  }

  /** What holds of every state the component can reach: the selected
      language is one of the options, no entry has a blank text, and the
      flag is only ever set together with an English detection of an entry
      that is long enough. */
  ghost predicate Inv(s: State)
  {
    && s.language in TARGET_LANGUAGES
    && (forall k :: 0 <= k < |s.output| ==> !IsBlank(s.output[k].text))
    && (s.isSummarizable ==>
          && s.detectedLanguage == "en"
          && exists k :: 0 <= k < |s.output| && Summarizable(s.output[k].detectedLanguage, s.output[k].text))
  }

  lemma InitialInv()
    ensures Inv(INITIAL)
  {
  }

  lemma ChangePreservesInv(s: State, value: string)
    requires Inv(s)
    ensures Inv(Change(s, value))
  {
  }

  lemma SelectLanguagePreservesInv(s: State, code: string)
    requires Inv(s) && code in TARGET_LANGUAGES
    ensures Inv(SelectLanguage(s, code))
  {
  }

  lemma SendPreservesInv(s: State, detect: Detector)
    requires Inv(s)
    ensures Inv(Send(s, detect))
  {
    var r := Send(s, detect);
    if !IsBlank(s.text) {
      var n := |s.output|;
      assert forall k :: 0 <= k < n ==> r.output[k] == s.output[k] by {
        assert forall k :: 0 <= k < n ==> r.output[..n][k] == r.output[k];
      }
      if r.isSummarizable {
        if detect(s.text).Some? {
          assert Summarizable(r.output[n].detectedLanguage, r.output[n].text);
        } else {
          var k :| 0 <= k < n && Summarizable(s.output[k].detectedLanguage, s.output[k].text);
          assert r.output[k] == s.output[k];
        }
      }
    }
  }

  /** Entries keep their texts and detected languages, slot by slot. */
  ghost predicate SameSubmissions(a: seq<Entry>, b: seq<Entry>)
  {
    && |a| == |b|
    && forall k :: 0 <= k < |a| ==> a[k].text == b[k].text && a[k].detectedLanguage == b[k].detectedLanguage
  }

  /** A state whose entries were only annotated (summary or translation)
      keeps the invariant. */
  lemma AnnotatePreservesInv(s: State, r: State)
    requires Inv(s)
    requires SameSubmissions(s.output, r.output)
    requires r.(output := s.output) == s
    ensures Inv(r)
  {
    if r.isSummarizable {
      var k :| 0 <= k < |s.output| && Summarizable(s.output[k].detectedLanguage, s.output[k].text);
      assert Summarizable(r.output[k].detectedLanguage, r.output[k].text);
    }
  }

  lemma SummarizePreservesInv(s: State, index: nat, summarize: Summarizer)
    requires Inv(s) && index < |s.output|
    ensures Inv(Summarize(s, index, summarize))
  {
    var r := Summarize(s, index, summarize);
    var response := summarize(s.output[index].text);
    if response.Some? {
      assert r.output == s.output[index := s.output[index].(summary := response.value.summary)];
      AnnotatePreservesInv(s, r);
    }
  }

  lemma TranslatePreservesInv(s: State, index: nat, translate: Translator)
    requires Inv(s) && index < |s.output|
    ensures Inv(Translate(s, index, translate))
  {
    var r := Translate(s, index, translate);
    var response := translate(TranslationRequest(s, index));
    if response.Some? && |response.value.translations| > 0 {
      assert r.output == s.output[index := s.output[index].(translation := response.value.translations[0].text)];
      AnnotatePreservesInv(s, r);
    }
  }

  /** One user interaction with the component, with the provider's answer
      to the call it makes, if any. */
  datatype Action =
    | Edit(value: string)
    | Choose(code: string)
    | Submit(detect: Detector)
    | SummarizeAt(index: nat, summarize: Summarizer)
    | TranslateAt(index: nat, translate: Translator)

  /** The interactions the rendered page can produce: the per-entry buttons
      exist only for existing entries, the Summarize button only where the
      render rule shows it, and the `<select>` offers only its options. */
  predicate Enabled(s: State, a: Action)
  {
    match a
    case Choose(code) => code in TARGET_LANGUAGES
    case SummarizeAt(index, _) => index < |s.output| && SummarizeButtonShown(s.isSummarizable, s.output[index])
    case TranslateAt(index, _) => index < |s.output|
    case _ => true
  }

  function Step(s: State, a: Action): State
    requires Enabled(s, a)
  {
    match a
    case Edit(value) => Change(s, value)
    case Choose(code) => SelectLanguage(s, code)
    case Submit(detect) => Send(s, detect)
    case SummarizeAt(index, summarize) => Summarize(s, index, summarize)
    case TranslateAt(index, translate) => Translate(s, index, translate)
  }

  predicate Admissible(s: State, actions: seq<Action>)
    decreases |actions|
  {
    actions == [] || (Enabled(s, actions[0]) && Admissible(Step(s, actions[0]), actions[1..]))
  }

  /** The state after handling `actions` one after the other. */
  function Run(s: State, actions: seq<Action>): State
    requires Admissible(s, actions)
    decreases |actions|
  {
    if actions == [] then s else Run(Step(s, actions[0]), actions[1..])
  }

  lemma StepPreservesInv(s: State, a: Action)
    requires Inv(s) && Enabled(s, a)
    ensures Inv(Step(s, a))
  {
    match a
    case Edit(value) => ChangePreservesInv(s, value);
    case Choose(code) => SelectLanguagePreservesInv(s, code);
    case Submit(detect) => SendPreservesInv(s, detect);
    case SummarizeAt(index, summarize) => SummarizePreservesInv(s, index, summarize);
    case TranslateAt(index, translate) => TranslatePreservesInv(s, index, translate);
  }

  /** Every state reachable from the initial one satisfies `Inv`. */
  lemma {:induction false} RunPreservesInv(s: State, actions: seq<Action>)
    requires Inv(s) && Admissible(s, actions)
    ensures Inv(Run(s, actions))
    decreases |actions|
  {
    if actions != [] {
      StepPreservesInv(s, actions[0]);
      RunPreservesInv(Step(s, actions[0]), actions[1..]);
    }
  }

  /** `b` keeps every entry of `a`, in the same slot, with the same text and
      detected language. */
  ghost predicate Extends(a: seq<Entry>, b: seq<Entry>)
  {
    && |a| <= |b|
    && forall k :: 0 <= k < |a| ==> b[k].text == a[k].text && b[k].detectedLanguage == a[k].detectedLanguage
  }

  lemma StepExtends(s: State, a: Action)
    requires Enabled(s, a)
    ensures Extends(s.output, Step(s, a).output)
  {
    if a.Submit? && !IsBlank(s.text) {
      var r := Send(s, a.detect);
      assert forall k :: 0 <= k < |s.output| ==> r.output[k] == r.output[..|s.output|][k];
    }
  }

  /** The list only grows: no interaction removes, reorders or resubmits an
      entry, and an entry's text and detected language never change once it
      is in the list. */
  lemma {:induction false} RunExtends(s: State, actions: seq<Action>)
    requires Admissible(s, actions)
    ensures Extends(s.output, Run(s, actions).output)
    decreases |actions|
  {
    if actions != [] {
      StepExtends(s, actions[0]);
      RunExtends(Step(s, actions[0]), actions[1..]);
    }
  }

  /** In a reachable state the Summarize button is only ever shown while
      some entry is English and longer than 150 code units. */
  lemma SummarizeButtonNeedsLongEnglishEntry(s: State, index: nat)
    requires Inv(s) && index < |s.output|
    requires SummarizeButtonShown(s.isSummarizable, s.output[index])
    ensures exists k :: 0 <= k < |s.output| && Summarizable(s.output[k].detectedLanguage, s.output[k].text)
  {
  }

  /** A non-empty summary removes that entry's Summarize button and leaves
      every other entry's button as it was. */
  lemma SummaryHidesButton(s: State, index: nat, summarize: Summarizer)
    requires index < |s.output|
    requires summarize(s.output[index].text).Some? && summarize(s.output[index].text).value.summary != ""
    ensures
      var r := Summarize(s, index, summarize);
      && !SummarizeButtonShown(r.isSummarizable, r.output[index])
      && forall k :: 0 <= k < |s.output| && k != index ==>
           SummarizeButtonShown(r.isSummarizable, r.output[k]) == SummarizeButtonShown(s.isSummarizable, s.output[k])
  {
  }

  /** `n` copies of the letter `a`: a text of `n` code units. */
  function Letters(n: nat): (s: string)
    ensures |s| == n && Utf16Length(s) == n
  {
    seq(n, _ => 'a')
  }

  /** Exactly 150 code units of English is not summarisable; 151 is. */
  lemma SummarizableBoundary()
    ensures !Summarizable("en", Letters(150))
    ensures Summarizable("en", Letters(151))
    ensures !Summarizable("fr", Letters(151))
  {
  }

  /** A character outside the Basic Multilingual Plane counts twice: 76
      such characters already make a summarisable English text. */
  lemma AstralCharactersCountTwice()
    ensures Summarizable("en", seq(76, _ => '\U{1F600}'))
  {
    var s := seq(76, _ => '\U{1F600}');
    assert forall k :: 0 <= k < |s| ==> s[k] as int >= 0x10000;
  }

  /** Provider stubs for the scenarios below. */
  function AnswerEnglish(text: string): Option<Detection> { Some(Detection("en")) }
  function AnswerSpanish(text: string): Option<Detection> { Some(Detection("es")) }
  function AnswerSummary(text: string): Option<SummaryResponse> { Some(SummaryResponse("Many a.")) }
  function AnswerFrenchOnly(request: TranslateRequest): Option<TranslateResponse>
  {
    if request.targetLanguage == "fr" then Some(TranslateResponse([Translation("Beaucoup de a.")])) else None
  }

  /** Submitting "Hello" that the provider detects as English appends one
      entry showing that language, leaves it unsummarisable and clears the
      draft. */
  lemma SubmitHelloScenario()
    ensures
      var r := Send(Change(INITIAL, "Hello"), AnswerEnglish);
      && r.output == [Entry("Hello", "en", "", "")]
      && r.detectedLanguage == "en"
      && !r.isSummarizable
      && r.text == ""
  {
    var s0 := Change(INITIAL, "Hello");
    var r := Send(s0, AnswerEnglish);
    assert r.output[0] == Entry("Hello", "en", "", "");
  }

  /** Submitting any non-blank English text longer than 150 code units
      (200 letters, say) yields one entry and sets the flag, so the entry
      is offered the Summarize button. */
  lemma LongEnglishSubmitScenario(t: string)
    requires !IsBlank(t) && Utf16Length(t) > 150
    ensures
      var s1 := Send(Change(INITIAL, t), AnswerEnglish);
      && s1 == State("", [Entry(t, "en", "", "")], "en", "en", true)
      && SummarizeButtonShown(s1.isSummarizable, s1.output[0])
  {
    var s1 := Send(Change(INITIAL, t), AnswerEnglish);
    assert s1.output[0] == Entry(t, "en", "", "");
  }

  /** Continuing from there: the summary fills in and hides the button, and
      a translation requested after choosing French is asked for, and
      stored, in French. */
  lemma SummarizeThenTranslateScenario(t: string)
    ensures
      var s1 := State("", [Entry(t, "en", "", "")], "en", "en", true);
      var s2 := Summarize(s1, 0, AnswerSummary);
      var s3 := SelectLanguage(s2, "fr");
      var s4 := Translate(s3, 0, AnswerFrenchOnly);
      && s2.output == [Entry(t, "en", "Many a.", "")]
      && !SummarizeButtonShown(s2.isSummarizable, s2.output[0])
      && TranslationRequest(s3, 0) == TranslateRequest(t, "fr")
      && s4 == State("", [Entry(t, "en", "Many a.", "Beaucoup de a.")], "fr", "en", true)
  {
    var s1 := State("", [Entry(t, "en", "", "")], "en", "en", true);
    var s2 := Summarize(s1, 0, AnswerSummary);
    assert s2.output[0] == Entry(t, "en", "Many a.", "");
    var s3 := SelectLanguage(s2, "fr");
    var s4 := Translate(s3, 0, AnswerFrenchOnly);
    assert s4.output[0] == Entry(t, "en", "Many a.", "Beaucoup de a.");
  }

  /** `LongEnglishSubmitScenario` for a text of more than 150 letters. */
  lemma LettersScenario(n: nat)
    requires n > 150
    ensures Send(Change(INITIAL, Letters(n)), AnswerEnglish) == State("", [Entry(Letters(n), "en", "", "")], "en", "en", true)
  {
    var t := Letters(n);
    assert t[0] == 'a';
    LongEnglishSubmitScenario(t);
  }

  /** `n` copies of an emoji outside the Basic Multilingual Plane. */
  function Emoji(n: nat): (s: string)
    ensures |s| == n && Utf16Length(s) == 2 * n
  {
    var s := seq(n, _ => '\U{1F600}');
    assert forall k :: 0 <= k < |s| ==> s[k] as int >= 0x10000;
    s
  }

  /** Mixed text counts code units, not characters: 100 letters and 26
      emoji are 126 characters but 152 code units, so they are summarisable
      in English. */
  lemma MixedTextIsSummarizable()
    ensures Utf16Length(Letters(100) + Emoji(26)) == 152
    ensures Summarizable("en", Letters(100) + Emoji(26))
  {
    Utf16LengthConcat(Letters(100), Emoji(26));
  }

  /** Submitting "Hola" detected as Spanish: one entry, flag off. */
  lemma SubmitHolaScenario()
    ensures Send(Change(INITIAL, "Hola"), AnswerSpanish) == State("", [Entry("Hola", "es", "", "")], "en", "es", false)
  {
    var s0 := Change(INITIAL, "Hola");
    var s1 := Send(s0, AnswerSpanish);
    assert s1.output[0] == Entry("Hola", "es", "", "");
  }

  /** The summarisable flag is one flag for the whole list: sending a long
      English text offers the Summarize button on every earlier entry that
      has no summary, whatever its own language and length. */
  lemma LongEnglishSendOffersEveryEntry(s: State, t: string)
    requires !IsBlank(t) && Utf16Length(t) > 150
    ensures
      var r := Send(Change(s, t), AnswerEnglish);
      forall k :: 0 <= k < |s.output| && s.output[k].summary == "" ==>
        r.output[k] == s.output[k] && SummarizeButtonShown(r.isSummarizable, r.output[k])
  {
    var r := Send(Change(s, t), AnswerEnglish);
    assert forall k :: 0 <= k < |s.output| ==> r.output[k] == r.output[..|s.output|][k];
  }

  /** In particular, after "Hola" detected as Spanish, a long English text
      makes the button appear on the Spanish entry, which the rule itself
      would not call summarisable. */
  lemma GlobalFlagOffersShortEntries(t: string)
    requires !IsBlank(t) && Utf16Length(t) > 150
    ensures
      var s1 := State("", [Entry("Hola", "es", "", "")], "en", "es", false);
      var s2 := Send(Change(s1, t), AnswerEnglish);
      && !Summarizable(s1.output[0].detectedLanguage, s1.output[0].text)
      && s2.output[0] == s1.output[0]
      && SummarizeButtonShown(s2.isSummarizable, s2.output[0])
  {
    var s1 := State("", [Entry("Hola", "es", "", "")], "en", "es", false);
    LongEnglishSendOffersEveryEntry(s1, t);
  }
}
