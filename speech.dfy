/** The `/speak` endpoint of the synthesis service (tts.py): the decision taken on a
    request before the model is called, and the lifecycle of the generated file in
    the `XTTS_outputs` folder. */
module Speech {
  import opened Outcomes
  import opened Strings
  import opened Json
  import opened Folders

  const ModelFailedMessage := "TTS model failed to load. Check logs for details."
  const InvalidJsonMessage := "Invalid JSON"
  const TextRequiredMessage := "Text is required"
  const GenderMessage := "chosen_SPEAKER must be 'male' or 'female'"

  /** The hard-coded voice roster. */
  const MaleSpeakers: seq<string> := ["Marcos Rudaski", "Luis Moray"]
  const FemaleSpeakers: seq<string> := ["Ana Florence"]

  /** The languages the synthesis model is asked to speak; each maps to itself. */
  const LanguageMap: map<string, string> := map[
    "en" := "en", "es" := "es", "fr" := "fr", "de" := "de", "it" := "it",
    "pt" := "pt", "pl" := "pl", "tr" := "tr", "ru" := "ru", "nl" := "nl",
    "cs" := "cs", "ar" := "ar", "zh-cn" := "zh-cn", "ja" := "ja",
    "hu" := "hu", "ko" := "ko"
  ]
  const DefaultLanguage := "en"

  /** What the language detector did with the text: named a code, or raised. */
  datatype Detection = Detected(code: string) | DetectionFailed

  /** The outcome of validating a request: an error reply, or a synthesis job. */
  datatype Decision =
    | Reject(status: int, message: string)
    | Synthesize(text: string, speaker: string, language: string)

  /** The language handed to the model: an allow-listed detected code, else English. */
  function MapLanguage(detection: Detection): (language: string)
    ensures language in LanguageMap
    ensures detection.Detected? && detection.code in LanguageMap ==> language == detection.code
    ensures !(detection.Detected? && detection.code in LanguageMap) ==> language == "en"
  {
    match detection
    case Detected(code) => if code in LanguageMap then LanguageMap[code] else DefaultLanguage
    case DetectionFailed => DefaultLanguage
  }

  /** `data.get("text", "")`: an absent text reads as the empty string. */
  function TextField(fields: map<string, Value>): (v: Value)
    ensures "text" in fields ==> v == fields["text"]
    ensures "text" !in fields ==> v == Str("")
  {
    Get(fields, "text", Str(""))
  }

  /** `data.get("chosen_SPEAKER", "")`: an absent selector reads as the empty string. */
  function GenderField(fields: map<string, Value>): (v: Value)
    ensures "chosen_SPEAKER" in fields ==> v == fields["chosen_SPEAKER"]
    ensures "chosen_SPEAKER" !in fields ==> v == Str("")
  {
    Get(fields, "chosen_SPEAKER", Str(""))
  }

  /** The gender selector after `.strip().lower()`: as long as the stripped selector. */
  function NormalGender(raw: string): (gender: string)
    ensures |gender| == |Strip(raw)|
  {
    Lower(Strip(raw))
  }

  /** The selector matches a lower-case word such as "male" or "female" exactly
      when, once surrounding whitespace is removed, it spells that word in some mix
      of ASCII cases. */
  lemma GenderSelectorIgnoresCase(raw: string, word: string)
    requires forall i | 0 <= i < |word| :: !IsUpper(word[i])
    ensures NormalGender(raw) == word <==> CaseVariant(Strip(raw), word)
  {
    LowerIsCaseFold(Strip(raw), word);
  }

  /** The checks on the two string fields (tts.py lines 66-75): `rawText` and
      `rawGender` as they came in the body, before `.strip()` and `.lower()`. */
  function CheckFields(rawText: string, rawGender: string, detection: Detection): (r: Decision)
    ensures r.Reject? <==> AllSpace(rawText) || !(NormalGender(rawGender) in {"male", "female"})
    ensures r.Reject? ==> r.status == 400
    ensures AllSpace(rawText) ==> r.message == TextRequiredMessage
    ensures r.Synthesize? ==> r.text == Strip(rawText) && r.text != ""
    ensures r.Synthesize? ==> r.speaker == (if NormalGender(rawGender) == "male" then "Marcos Rudaski" else "Ana Florence")
    ensures r.Synthesize? ==> r.language == MapLanguage(detection)
  {
    var text := Strip(rawText);
    var gender := NormalGender(rawGender);
    if text == "" then Reject(400, TextRequiredMessage)
    else if gender != "male" && gender != "female" then Reject(400, GenderMessage)
    else
      var speaker := if gender == "male" then MaleSpeakers[0] else FemaleSpeakers[0];
      Synthesize(text, speaker, MapLanguage(detection))
  }

  /** Everything `generate_speech` decides before it calls the model: the checks in
      their fixed order, the voice, and the language. `loaded` is whether the model
      loaded at startup, `body` what `request.get_json()` returned, and `detection`
      the detector's outcome on the stripped text. */
  function Decide(loaded: bool, body: Option<Value>, detection: Detection): (r: Decision)
    ensures !loaded ==> r == Reject(500, ModelFailedMessage)
    ensures loaded && (body.None? || !Truthy(body.value)) ==> r == Reject(400, InvalidJsonMessage)
    ensures r.Reject? ==> r.status == 400 || r.status == 500
    ensures r.Synthesize? ==>
      && loaded && body.Some? && body.value.Dict?
      && TextField(body.value.fields).Str?
      && r.text == Strip(TextField(body.value.fields).s) && r.text != ""
    ensures r.Synthesize? ==> r.speaker == MaleSpeakers[0] || r.speaker == FemaleSpeakers[0]
    ensures r.Synthesize? ==> r.speaker != MaleSpeakers[1]
    ensures r.Synthesize? ==> r.language in LanguageMap
  {
    if !loaded then Reject(500, ModelFailedMessage)
    else if body.None? || !Truthy(body.value) then Reject(400, InvalidJsonMessage)
    else if !body.value.Dict? then Reject(500, NoAttributeMessage(body.value, "get"))
    else
      var rawText := TextField(body.value.fields);
      if !rawText.Str? then Reject(500, NoAttributeMessage(rawText, "strip"))
      else
        var rawGender := GenderField(body.value.fields);
        if !rawGender.Str? then Reject(500, NoAttributeMessage(rawGender, "strip"))
        else CheckFields(rawText.s, rawGender.s, detection)
  }

  /** A loaded model and a non-empty object whose `text` and `chosen_SPEAKER` are
      strings (or absent) lead to the field checks on exactly those strings. */
  lemma DecideReachesFieldChecks(fields: map<string, Value>, text: string, gender: string, detection: Detection)
    requires fields != map[]
    requires TextField(fields) == Str(text) && GenderField(fields) == Str(gender)
    ensures Decide(true, Some(Dict(fields)), detection) == CheckFields(text, gender, detection)
  {
    var body := Some(Dict(fields));
    assert !(body.None? || !Truthy(body.value));
    assert body.value.Dict? && body.value.fields == fields;
  }

  /** A field that is present but not a string makes `.strip()` raise, which the
      handler reports as a server error, not a client error. A bad `text` wins over
      a bad gender; a bad gender wins over blank text. */
  lemma NonStringFieldIsServerError(fields: map<string, Value>, detection: Detection)
    requires fields != map[]
    requires !TextField(fields).Str? || !GenderField(fields).Str?
    ensures Decide(true, Some(Dict(fields)), detection) == Reject(500,
      if !TextField(fields).Str? then NoAttributeMessage(TextField(fields), "strip")
      else NoAttributeMessage(GenderField(fields), "strip"))
  {
    var body := Some(Dict(fields));
    assert !(body.None? || !Truthy(body.value));
    assert body.value.Dict? && body.value.fields == fields;
  }

  /** A truthy body that is not an object has no `.get`, which raises; the handler
      reports that as a server error naming the body's type. */
  lemma NonObjectBodyIsServerError(v: Value, detection: Detection)
    requires Truthy(v) && !v.Dict?
    ensures Decide(true, Some(v), detection) == Reject(500, NoAttributeMessage(v, "get"))
  {
  }

  /** A body without `text` (and with a string or absent selector) reads the text
      as "" and is refused as blank. */
  lemma MissingTextIsRequired(fields: map<string, Value>, detection: Detection)
    requires fields != map[] && "text" !in fields && GenderField(fields).Str?
    ensures Decide(true, Some(Dict(fields)), detection) == Reject(400, TextRequiredMessage)
  {
    BlankTextReportedFirst(fields, "", GenderField(fields).s, detection);
  }

  /** A body with non-blank text but no `chosen_SPEAKER` reads the selector as "",
      which is neither gender. */
  lemma MissingGenderRejected(fields: map<string, Value>, text: string, detection: Detection)
    requires TextField(fields) == Str(text) && !AllSpace(text) && "chosen_SPEAKER" !in fields
    ensures Decide(true, Some(Dict(fields)), detection) == Reject(400, GenderMessage)
  {
    assert NormalGender("") == "";
    InvalidGenderRejected(fields, text, "", detection);
  }

  /** A request goes on to synthesis exactly when the model is loaded, the body is a
      non-empty object, both fields are strings (or absent), the stripped text is not
      blank and the normalised gender is "male" or "female"; the job then carries the
      stripped text, the first voice listed for that gender and the mapped language. */
  lemma SynthesizesIff(loaded: bool, fields: map<string, Value>, detection: Detection)
    ensures Decide(loaded, Some(Dict(fields)), detection).Synthesize? <==>
      && loaded && fields != map[]
      && TextField(fields).Str? && GenderField(fields).Str?
      && Strip(TextField(fields).s) != ""
      && NormalGender(GenderField(fields).s) in {"male", "female"}
    ensures Decide(loaded, Some(Dict(fields)), detection).Synthesize? ==>
      Decide(loaded, Some(Dict(fields)), detection) == Synthesize(
        Strip(TextField(fields).s),
        if NormalGender(GenderField(fields).s) == "male" then "Marcos Rudaski" else "Ana Florence",
        MapLanguage(detection))
  {
    if loaded && fields != map[] {
      if TextField(fields).Str? && GenderField(fields).Str? {
        var text, gender := TextField(fields).s, GenderField(fields).s;
        DecideReachesFieldChecks(fields, text, gender, detection);
      } else {
        NonStringFieldIsServerError(fields, detection);
      }
    }
  }

  /** Blank text is reported before an invalid gender is looked at. */
  lemma BlankTextReportedFirst(fields: map<string, Value>, text: string, gender: string, detection: Detection)
    requires fields != map[]
    requires TextField(fields) == Str(text) && GenderField(fields) == Str(gender)
    requires AllSpace(text)
    ensures Decide(true, Some(Dict(fields)), detection) == Reject(400, TextRequiredMessage)
  {
    DecideReachesFieldChecks(fields, text, gender, detection);
  }

  /** Any gender other than "male" or "female", once stripped and lower-cased, is a client error. */
  lemma InvalidGenderRejected(fields: map<string, Value>, text: string, gender: string, detection: Detection)
    requires TextField(fields) == Str(text) && GenderField(fields) == Str(gender)
    requires !AllSpace(text)
    requires NormalGender(gender) != "male" && NormalGender(gender) != "female"
    ensures Decide(true, Some(Dict(fields)), detection) == Reject(400, GenderMessage)
  {
    assert "text" in fields;
    DecideReachesFieldChecks(fields, text, gender, detection);
  }

  /** The language handed to the model is always on the allow-list, and a
      detected code on the allow-list is used unchanged. */
  lemma LanguageIsAllowListed(detection: Detection)
    ensures MapLanguage(detection) in LanguageMap
    ensures LanguageMap[MapLanguage(detection)] == MapLanguage(detection)
  {
  }

  // The examples take their literals as parameters pinned by `requires`: stated
  // on literals directly, the solver unfolds every string function on them.

  /** The selector is compared after stripping and lower-casing. */
  lemma PaddedCapitalisedFemale(gender: string)
    requires gender == " Female\n"
    ensures NormalGender(gender) == "female"
  {
    assert TrimStart(gender) == TrimStart(gender[1..]) == "Female\n";
    assert TrimEnd("Female\n") == TrimEnd("Female") == "Female";
    assert Lower("Female") == "female";
  }

  lemma HolaMundoIsStripped(text: string)
    requires text == "Hola mundo"
    ensures Strip(text) == text
  {
    assert TrimStart(text) == text;
    assert TrimEnd(text) == text;
  }

  /** Text that is already stripped and a selector that normalises to "female"
      give a job for the female voice on that very text. */
  lemma FemaleSelected(text: string, gender: string, detection: Detection)
    requires Strip(text) == text != ""
    requires NormalGender(gender) == "female"
    ensures CheckFields(text, gender, detection) == Synthesize(text, FemaleSpeakers[0], MapLanguage(detection))
  {
  }

  /** The worked example: Spanish text with a padded, capitalised female selector. */
  lemma SpanishFemaleExample(fields: map<string, Value>, text: string, gender: string, language: string)
    requires text == "Hola mundo" && gender == " Female\n" && language == "es"
    requires fields == map["text" := Str(text), "chosen_SPEAKER" := Str(gender)]
    ensures Decide(true, Some(Dict(fields)), Detected(language)) == Synthesize("Hola mundo", "Ana Florence", "es")
  {
    assert TextField(fields) == Str(text) && GenderField(fields) == Str(gender);
    SpanishFemaleFields(text, gender, language);
    DecideReachesFieldChecks(fields, text, gender, Detected(language));
  }

  /** The field checks of the worked example. */
  lemma SpanishFemaleFields(text: string, gender: string, language: string)
    requires text == "Hola mundo" && gender == " Female\n" && language == "es"
    ensures CheckFields(text, gender, Detected(language)) == Synthesize("Hola mundo", "Ana Florence", "es")
  {
    PaddedCapitalisedFemale(gender);
    HolaMundoIsStripped(text);
    FemaleSelected(text, gender, Detected(language));
    assert language in LanguageMap && LanguageMap[language] == language;
  }

  /** An empty text with the male selector is rejected. */
  lemma EmptyTextExample(fields: map<string, Value>)
    requires fields == map["text" := Str(""), "chosen_SPEAKER" := Str("male")]
    ensures Decide(true, Some(Dict(fields)), DetectionFailed) == Reject(400, TextRequiredMessage)
  {
    assert "text" in fields;
    assert TextField(fields) == Str("") && GenderField(fields) == Str("male");
    BlankTextReportedFirst(fields, "", "male", DetectionFailed);
  }

  /** The arguments of the `tts_to_file` call. */
  datatype SynthesisCall = SynthesisCall(text: string, path: string, speaker: string, language: string)

  /** What `/speak` sends back: a JSON error with its status, or the generated file. */
  datatype Reply =
    | JsonError(status: int, error: string)
    | WavFile(path: string, mimetype: string, downloadName: string)

  const WavMimetype := "audio/wav"
  const DownloadName := "speech.wav"

  /** The `XTTS_outputs` folder, as the set of names of the files in it. */
  class OutputFolder {
    var files: set<string>

    constructor (existing: set<string>)
      ensures files == existing
    {
      files := existing;
    }

    /** The part of `generate_speech` after validation: have the model write the
        audio under a fresh name and reply with that file, or with the exception's
        message. `fileId` is what `uuid4()` returned and `synthesize` the model's
        `tts_to_file`, which writes the file or raises. */
    method Fulfil(d: Decision, fileId: string, synthesize: SynthesisCall -> Attempt<()>)
      returns (reply: Reply)
      modifies this
      ensures d.Reject? ==> reply == JsonError(d.status, d.message) && files == old(files)
      ensures d.Synthesize? ==>
        var call := SynthesisCall(d.text, WavName(fileId), d.speaker, d.language);
        match synthesize(call)
        case Raised(message) =>
          reply == JsonError(500, message) && files == old(files)
        case Returned(_) =>
          && reply == WavFile(WavName(fileId), WavMimetype, DownloadName)
          && files == old(files) + {WavName(fileId)}
      ensures reply.WavFile? ==> reply.path == WavName(fileId) && files == old(files) + {WavName(fileId)}
      ensures reply.JsonError? ==> files == old(files)
    {
      if d.Reject? {
        return JsonError(d.status, d.message);
      }
      var path := WavName(fileId);
      var outcome := synthesize(SynthesisCall(d.text, path, d.speaker, d.language));
      match outcome
      case Raised(message) =>
        reply := JsonError(500, message);
      case Returned(_) =>
        files := files + {path};
        reply := WavFile(path, WavMimetype, DownloadName);
    }

    /** `generate_speech`: validate the request, then synthesize. */
    method GenerateSpeech(loaded: bool, body: Option<Value>, detection: Detection, fileId: string,
                          synthesize: SynthesisCall -> Attempt<()>) returns (reply: Reply)
      modifies this
      ensures var d := Decide(loaded, body, detection);
        d.Reject? ==> reply == JsonError(d.status, d.message) && files == old(files)
      ensures var d := Decide(loaded, body, detection);
        d.Synthesize? ==>
          var call := SynthesisCall(d.text, WavName(fileId), d.speaker, d.language);
          match synthesize(call)
          case Raised(message) =>
            reply == JsonError(500, message) && files == old(files)
          case Returned(_) =>
            && reply == WavFile(WavName(fileId), WavMimetype, DownloadName)
            && files == old(files) + {WavName(fileId)}
      ensures reply.WavFile? ==> reply.path == WavName(fileId) && files == old(files) + {WavName(fileId)}
      ensures reply.JsonError? ==> files == old(files)
    {
      var d := Decide(loaded, body, detection);
      reply := Fulfil(d, fileId, synthesize);
    }

    /** The close callback of a file reply: remove the file. */
    method Cleanup(path: string)
      modifies this
      ensures files == old(files) - {path}
    {
      files := files - {path};
    }

    /** One decided request served to the end: a file reply is removed once it
        has been sent, so a request whose UUID names no existing file leaves the
        folder as it found it, whatever the outcome. */
    method Serve(d: Decision, fileId: string, synthesize: SynthesisCall -> Attempt<()>)
      returns (reply: Reply)
      modifies this
      ensures reply.WavFile? <==> d.Synthesize? && synthesize(SynthesisCall(d.text, WavName(fileId), d.speaker, d.language)).Returned?
      ensures reply.WavFile? ==> reply.path == WavName(fileId)
      ensures files <= old(files)
      ensures files == if reply.WavFile? then old(files) - {WavName(fileId)} else old(files)
      ensures WavName(fileId) !in old(files) ==> files == old(files)
    {
      ghost var before := files;
      var path := WavName(fileId);
      reply := Fulfil(d, fileId, synthesize);
      if reply.WavFile? {
        assert files == before + {path};
        Cleanup(reply.path);
        assert files == (before + {path}) - {path};
      }
    }
  }
}
