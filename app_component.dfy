/** The `App` component as an object: its five state variables are fields
    and each event handler is a method that updates them in one step. */
module AppComponent {
  import opened Wrappers
  import opened JsString
  import opened AppModel

  class App {
    var text: string
    var output: seq<Entry>
    var language: string
    var detectedLanguage: string
    var isSummarizable: bool

    /** The current state as a value. */
    function Snapshot(): State
      reads this
    {
      State(text, output, language, detectedLanguage, isSummarizable)
    }

    ghost predicate Valid()
      reads this
    {
      Inv(Snapshot())
    }

    /** The initial values of the five `useState` hooks. */
    constructor ()
      ensures Valid() && Snapshot() == INITIAL
    {
      text := "";
      output := [];
      language := "en";
      detectedLanguage := "";
      isSummarizable := false;
    }

    /** `handleChange`. */
    method HandleChange(value: string)
      requires Valid()
      modifies this
      ensures Valid() && Snapshot() == Change(old(Snapshot()), value)
    {
      ChangePreservesInv(Snapshot(), value);
      text := value;
    }

    /** The `<select>`'s `onChange`, given the chosen option's value. */
    method HandleSelectLanguage(code: string)
      requires Valid() && code in TARGET_LANGUAGES
      modifies this
      ensures Valid() && Snapshot() == SelectLanguage(old(Snapshot()), code)
    {
      SelectLanguagePreservesInv(Snapshot(), code);
      language := code;
    }

    /** `handleSend`, with `detect` answering `detectLanguage`. */
    method HandleSend(detect: Detector)
      requires Valid()
      modifies this
      ensures Valid() && Snapshot() == Send(old(Snapshot()), detect)
      ensures !IsBlank(old(text)) ==> |output| == |old(output)| + 1 && output[..|old(output)|] == old(output) && text == ""
    {
      ghost var next := Send(Snapshot(), detect);
      SendPreservesInv(Snapshot(), detect);
      assert Inv(next);
      if IsBlank(text) {
        return;
      }
      var newOutput := Entry(text, "", "", "");
      var detection := detect(text);
      if detection.Some? {
        newOutput := newOutput.(detectedLanguage := detection.value.language);
        detectedLanguage := detection.value.language;
        isSummarizable := detection.value.language == "en" && Utf16Length(text) > 150;
      }
      output := output + [newOutput];
      text := "";
      assert Snapshot() == next;
      assert Inv(Snapshot());
    }

    /** `handleSummarize(index)`, with `summarize` answering the provider's
        `summarize`. */
    method HandleSummarize(index: nat, summarize: Summarizer)
      requires Valid() && index < |output|
      modifies this
      ensures Valid() && Snapshot() == Summarize(old(Snapshot()), index, summarize)
    {
      SummarizePreservesInv(Snapshot(), index, summarize);
      var toSummarize := output[index].text;
      var summaryResponse := summarize(toSummarize);
      if summaryResponse.Some? {
        var updatedOutput := output;
        updatedOutput := updatedOutput[index := updatedOutput[index].(summary := summaryResponse.value.summary)];
        output := updatedOutput;
      }
    }

    /** `handleTranslate(index)`, with `translate` answering the provider's
        `translate`. Returns the request that was sent. */
    method HandleTranslate(index: nat, translate: Translator) returns (request: TranslateRequest)
      requires Valid() && index < |output|
      modifies this
      ensures request == TranslateRequest(old(output)[index].text, old(language))
      ensures Valid() && Snapshot() == Translate(old(Snapshot()), index, translate)
    {
      TranslatePreservesInv(Snapshot(), index, translate);
      var toTranslate := output[index].text;
      request := TranslateRequest(toTranslate, language);
      var translationResponse := translate(request);
      if translationResponse.Some? && |translationResponse.value.translations| > 0 {
        var updatedOutput := output;
        updatedOutput := updatedOutput[index := updatedOutput[index].(translation := translationResponse.value.translations[0].text)];
        output := updatedOutput;
      }
    }

    /** Whether entry `index` is rendered with a Summarize button: it is
        exactly the render rule, and it can only hold while some entry of
        the list is English and longer than 150 code units. */
    method ShowsSummarizeButton(index: nat) returns (shown: bool)
      requires Valid() && index < |output|
      ensures shown == SummarizeButtonShown(isSummarizable, output[index])
      ensures shown ==> exists k :: 0 <= k < |output| && Summarizable(output[k].detectedLanguage, output[k].text)
    {
      shown := isSummarizable && output[index].summary == "";
    }
  }
}
