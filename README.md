# Speech services: request handling, verified

This project models, in Dafny, the request-handling logic of two small HTTP services
that wrap pretrained speech models:

- the **synthesis service** (`tts.py`): `POST /speak` takes a JSON body with `text` and
  `chosen_SPEAKER`, checks the model is loaded, validates the body in a fixed order,
  picks a voice from a hard-coded roster, maps the detected language onto an
  allow-list (falling back to English), has the model write a WAV file into the
  `XTTS_outputs` folder under a fresh UUID name, sends it, and deletes it when the
  response is closed;
- the **transcription service** (`stt.py`): `POST /transcribe` takes a multipart
  upload, rejects a missing file or an empty file name, saves the upload into
  `Whisper_outputs` under a fresh UUID name, picks the most probable language from
  Whisper's probability dict (first maximal key wins), transcribes in that language,
  removes the file, and replies with `{text, language, confidence}` or `{error}`,
  always with status 200 once the upload was accepted.

Every library call is an input of the model: whether the synthesis model loaded, what
`request.get_json()` returned, the outcome of `langdetect.detect`, the outcome of
`tts_to_file`, the UUID, the outcome of loading the audio plus `detect_language`, and
the outcome of Whisper's `transcribe`. An outcome that may raise is an `Attempt`
(`Returned(value)` or `Raised(message)`, the message being `str(e)`), except for
`langdetect.detect`: its outcome is a `Detection` (`Detected(code)` or
`DetectionFailed`), which carries no message because the bare `except:` around it
discards the exception.

Files:

- `outcomes.dfy` — `Option` and `Attempt`.
- `folders.dfy` — `WavName`, the `<uuid>.wav` name both services give the files they write.
- `strings.dfy` — Python's `str.strip()` and `str.lower()` on ASCII, with `Strip`
  proved equal to an independent description (the infix between leading and trailing
  whitespace that neither starts nor ends with whitespace) and idempotent, and `Lower`
  proved to accept exactly the mixed-case spellings of a lower-case word.
- `json.dfy` — a parsed JSON value as Python sees it: truthiness, `type(v).__name__`,
  `dict.get`, and the `AttributeError` message `'<type>' object has no attribute '<name>'`.
- `speech.dfy` — `Decide` (everything `generate_speech` decides before calling the
  model, as a function) and the class `OutputFolder` (the output folder as a set of
  file names, with `Fulfil`, the part of the handler after validation,
  `GenerateSpeech`, the whole handler, the close callback `Cleanup`, and `Serve`, a
  decided request followed by its close callback).
- `transcription.dfy` — `ArgMax` (Python's `max(probs, key=probs.get)`),
  `TranscribeAudio`, `Respond` (the reply of `api_transcribe` as a function) and the
  class `ScratchFolder` with `ApiTranscribe`.

Three behaviours of the code worth stating:

- A field that is present but not a string (a number, `null`, a list, ...) makes
  `.strip()` raise `AttributeError`, which the handler's `except Exception` turns into
  a 500 carrying the exception message, not a 400. Because the gender is stripped on
  line 67 before the text is checked on line 69, a blank text together with a
  non-string gender gives that 500, not "Text is required".
- A truthy JSON body that is not an object (a list, a string, a number, `true`) makes
  `data.get` raise, which also gives a 500 naming the body's type.
- The language tie-break: `max` keeps the first maximal key in the dict's iteration
  order.

## Model

| member | source | states |
|---|---|---|
| `Strings.TrimStart` | tts.py:66-67 | the result is a suffix of the input, every dropped character is whitespace, and the result does not start with whitespace |
| `Strings.TrimEnd` | tts.py:66-67 | the result is a prefix of the input, every dropped character is whitespace, and the result does not end with whitespace |
| `Strings.Strip` | tts.py:66-67 | `.strip()` leaves no whitespace at either end, and leaves the empty string exactly when the input is all whitespace |
| `Strings.StripIsInfix` | tts.py:66-67 | what `.strip()` leaves is the infix of the input between its leading and trailing whitespace |
| `Strings.TightInfixUnique` | tts.py:66-67 | two infixes of the same string that have only whitespace around them and neither begin nor end with whitespace are equal |
| `Strings.StripUnique` | tts.py:66-67 | any infix obtained by removing only surrounding whitespace that does not begin or end with whitespace is exactly `Strip`'s result |
| `Strings.StripIdempotent` | tts.py:66 | stripping the already stripped text changes nothing |
| `Strings.LowerChar` | tts.py:67 | an ASCII upper-case letter becomes the lower-case letter 32 code points on, any other character is kept, and no upper-case letter comes out |
| `Strings.Lower` | tts.py:67 | `.lower()` keeps the length and leaves no upper-case ASCII letter |
| `Strings.LowerIsCaseFold` | tts.py:67 | lower-casing yields a given lower-case word exactly when the input spells that word in some mix of cases |
| `Json.FalsyValues` | tts.py:63 | `not data` holds exactly for `None`, `False`, `0`, `0.0`, `""`, `[]` and `{}` |
| `Json.TypeName` | tts.py:123-125 | the type name in an exception message is `dict`, `str` or `list` exactly for a value of that kind |
| `Json.NoAttributeMessage` | tts.py:123-125 | the `AttributeError` text carries the value's type name after the opening quote and the attribute name before the closing quote |
| `Json.Get` | tts.py:66-67 | `dict.get(key, default)` gives the stored value for a present key and the default for an absent one |
| `Folders.WavName` | tts.py:93-94 | the file name is the UUID followed by `.wav` |
| `Folders.WavNameInjective` | tts.py:93-94 | different UUIDs give different file names |
| `Speech.MapLanguage` | tts.py:78-90 | the language is always an allow-list key; an allow-listed detected code is used as is; any other code, or a detector failure, gives `en` |
| `Speech.TextField` | tts.py:66 | the text is the body's `text` value, or `""` when there is none |
| `Speech.GenderField` | tts.py:67 | the selector is the body's `chosen_SPEAKER` value, or `""` when there is none |
| `Speech.NormalGender` | tts.py:67 | the normalised selector is as long as the stripped one |
| `Speech.GenderSelectorIgnoresCase` | tts.py:67-71 | the selector normalises to a lower-case word such as `male` or `female` exactly when, stripped, it spells that word in some mix of ASCII cases |
| `Speech.CheckFields` | tts.py:66-75 | with both fields strings: rejected (400) exactly when the stripped text is blank or the normalised gender is not `male`/`female`, the blank text reported first; otherwise the job carries the stripped text, `Marcos Rudaski` for male or `Ana Florence` for female, and the mapped language |
| `Speech.Decide` | tts.py:58-90 | no model: 500 with the fixed message whatever the body; missing or falsy body (including `{}`): 400 "Invalid JSON"; every rejection is 400 or 500; a synthesis job has non-blank stripped text, one of the two first-listed voices (never `Luis Moray`) and an allow-listed language |
| `Speech.SynthesizesIff` | tts.py:58-90 | a request goes to synthesis if and only if the model is loaded, the body is a non-empty object, both fields are strings or absent, the stripped text is non-blank and the normalised gender is `male` or `female`; the job is then exactly (stripped text, first voice of that gender, mapped language) |
| `Speech.BlankTextReportedFirst` | tts.py:69-72 | blank text gives 400 "Text is required" whatever the (string) gender is |
| `Speech.InvalidGenderRejected` | tts.py:67-72 | non-blank text with a gender that is neither `male` nor `female` after strip and lower gives 400 with the fixed gender message |
| `Speech.NonStringFieldIsServerError` | tts.py:66-67 | a non-string `text` or `chosen_SPEAKER` gives 500 with the `AttributeError` message for `.strip()`, the text field's error taking precedence |
| `Speech.NonObjectBodyIsServerError` | tts.py:62-66 | a truthy body that is not an object (list, string, number, `true`) gives 500 with `'<type>' object has no attribute 'get'` |
| `Speech.MissingTextIsRequired` | tts.py:66-70 | a non-empty object without `text`, and with a string or absent `chosen_SPEAKER`, gives 400 "Text is required" |
| `Speech.MissingGenderRejected` | tts.py:66-72 | non-blank text without `chosen_SPEAKER` gives 400 with the gender message |
| `Speech.DecideReachesFieldChecks` | tts.py:62-67 | a loaded model with a non-empty object body whose two fields are strings reaches the field checks with exactly those strings |
| `Speech.LanguageIsAllowListed` | tts.py:80-86 | the language handed to the model is on the allow-list and the allow-list maps it to itself |
| `Speech.PaddedCapitalisedFemale` | tts.py:67 | the selector `" Female\n"` normalises to `female` |
| `Speech.HolaMundoIsStripped` | tts.py:66 | `"Hola mundo"` is left unchanged by `.strip()` |
| `Speech.FemaleSelected` | tts.py:69-75 | already stripped non-blank text with a selector that normalises to `female` gives a job for `Ana Florence` on that text with the mapped language |
| `Speech.SpanishFemaleFields` | tts.py:66-90 | the field checks on `"Hola mundo"` and `" Female\n"` with `es` detected give the job (`Hola mundo`, `Ana Florence`, `es`) |
| `Speech.SpanishFemaleExample` | tts.py:58-90 | `{"text": "Hola mundo", "chosen_SPEAKER": " Female\n"}` detected as `es` is synthesised as `es` with `Ana Florence` |
| `Speech.EmptyTextExample` | tts.py:69-70 | `{"text": "", "chosen_SPEAKER": "male"}` gives 400 "Text is required" |
| `Speech.OutputFolder.constructor` | tts.py:51 | the folder starts with whatever files it already holds |
| `Speech.OutputFolder.Fulfil` | tts.py:92-125 | after validation: a rejection is replied as is with the folder untouched; otherwise the model is called with the decided text, voice and language and the `<uuid>.wav` path; if it raises, 500 with its message and the folder unchanged; if it returns, the reply is that file as `audio/wav` named `speech.wav` and the folder gains exactly that file |
| `Speech.OutputFolder.GenerateSpeech` | tts.py:58-125 | a rejected request replies with the decision's status and message and leaves the folder alone; otherwise the model is called with the stripped text, the output path, the chosen voice and the mapped language; if it raises, 500 with its message and the folder unchanged; if it returns, the reply is that file as `audio/wav` named `speech.wav` and the folder gains exactly that file |
| `Speech.OutputFolder.Cleanup` | tts.py:113-119 | the close callback removes the file and nothing else |
| `Speech.OutputFolder.Serve` | tts.py:92-121 | a decided request followed by its close callback ends in a file reply exactly when synthesis was decided and the model returned; after a file reply the folder is exactly the old one without that file, after any other reply it is unchanged; so it never gains a file, and a UUID that names no existing file leaves it as it was |
| `Transcription.ArgMax` | stt.py:35 | the chosen entry has a probability at least every other one, and every earlier entry a strictly smaller one (ties go to the first key) |
| `Transcription.FirstMaximalUnique` | stt.py:35 | at most one entry is first maximal; with `ArgMax`, exactly one in a non-empty dict, so the chosen language is determined by the dict |
| `Transcription.Lookup` | stt.py:36 | `probs[key]` is absent exactly when no entry has that key, and a found value is stored under that key |
| `Transcription.LookupAt` | stt.py:36 | looking up the key of a dict entry gives that entry's probability |
| `Transcription.TranscribeAudio` | stt.py:26-51 | a failure to load or detect gives only the exception message; an empty dict gives `max()`'s error; otherwise transcription is requested in the first maximal language, and the result is either only the exception message or (text, that language, its probability) |
| `Transcription.ConfidenceIsProbability` | stt.py:34-48 | the reported confidence is `probs[language]` for the reported language and is at least every probability in the dict |
| `Transcription.Respond` | stt.py:54-74 | status 400 exactly when the file is missing ("No file uploaded", checked first) or has an empty name ("Empty filename"); otherwise status 200 with the transcription result, error or not |
| `Transcription.ScratchFolder.constructor` | stt.py:23 | the folder starts with whatever files it already holds |
| `Transcription.ScratchFolder.ApiTranscribe` | stt.py:54-74 | the reply is `Respond`'s; an accepted upload's temporary file is saved and then removed whatever the outcome, a rejected request touches nothing, and the folder is unchanged when the UUID names no existing file |

## Left out

- Model loading and inference (torch safe globals, `TTS(...)`, `whisper.load_model`, audio loading, padding, mel spectrograms, the internals of `tts_to_file` and `transcribe`): foreign library calls, modelled only by their outcomes.
- `langdetect.detect`: a statistical heuristic; only its outcome (a code, or an exception) is an input.
- Floating point: probabilities are `real`s used only for comparison; NaN, which Python's `max` would treat specially, does not occur in the model.
- Flask plumbing: routing, CORS, `send_file` streaming, the `call_on_close` mechanism itself and HTTP serialisation. `get_json` parsing is not modelled: the body is what it returned, `None` standing for "no JSON"; a parse or content-type error raised inside the handler would fall into its 500 branch.
- Environment and start-up: `COQUI_TOS_AGREED`, `PORT`, `os.makedirs`, and the `print` logging.
- UUID generation: the UUID is an input; that it names no existing file is needed only for the "folder unchanged" statements, which say so.
- Directory prefixes: folder contents are file names (`<uuid>.wav`), without the `XTTS_outputs/` or `Whisper_outputs/` prefix.
- Uploaded file contents: an upload is reduced to its file name; the audio reaches the model only through the detection and transcription outcomes.
- Concurrency: requests sharing one model instance and one folder are not modelled; each method is one request in isolation.
- Strings.Strip: strips ASCII whitespace only (`\t \n \v \f \r`, 0x1C-0x1F, space); Python also strips non-ASCII whitespace such as U+00A0, so `" male"` is accepted by the code but not by the model.
- Lower-casing covers ASCII letters only. For the comparison with `male` and `female` this is exact, since no non-ASCII character lower-cases to one of their letters, but the text itself is never lower-cased anyway.
- Speech.OutputFolder.GenerateSpeech: a `tts_to_file` that raises is assumed to leave no file behind; a partially written file would stay in the folder, since no cleanup is registered on that path.
- Speech.OutputFolder.Cleanup: a failing `os.remove` is only logged by the code and may leave the file; the model always removes it.
- Transcription.ScratchFolder.ApiTranscribe: an exception from `save` or `os.remove` (not caught by the code) is not modelled.
- The text of `max()`'s `ValueError` on an empty dict differs between Python versions; the model uses the older one.
