/** The `/transcribe` endpoint of the transcription service (stt.py): upload
    validation, the choice of the most probable language, the shaping of the
    result, and the temporary file in the `Whisper_outputs` folder. */
module Transcription {
  import opened Outcomes
  import opened Folders

  const NoFileMessage := "No file uploaded"
  const EmptyFilenameMessage := "Empty filename"
  /** `str(e)` for the `ValueError` that `max()` raises on an empty dict. */
  const EmptyMaxMessage := "max() arg is an empty sequence"

  /** The language probabilities returned by Whisper's `detect_language`: a dict,
      written as its entries in iteration order. */
  type Probs = seq<(string, real)>

  /** Dict keys are distinct. */
  predicate DistinctKeys(probs: Probs) {
    forall i, j | 0 <= i < j < |probs| :: probs[i].0 != probs[j].0
  }

  /** Entry `k` has a largest probability, and every entry before it a strictly smaller one. */
  ghost predicate IsFirstMaximal(probs: Probs, k: int) {
    && 0 <= k < |probs|
    && (forall j | 0 <= j < |probs| :: probs[j].1 <= probs[k].1)
    && (forall j | 0 <= j < k :: probs[j].1 < probs[k].1)
  }

  /** `max(probs, key=probs.get)`: a left-to-right scan that replaces the current
      best only with a strictly larger probability. */
  function ArgMax(probs: Probs): (k: nat)
    requires |probs| > 0
    ensures IsFirstMaximal(probs, k)
  {
    if |probs| == 1 then 0
    else
      var last := |probs| - 1;
      var k := ArgMax(probs[..last]);
      if probs[last].1 > probs[k].1 then last else k
  }

  /** At most one entry is the first maximal one. */
  lemma FirstMaximalUnique(probs: Probs, i: int, j: int)
    requires IsFirstMaximal(probs, i) && IsFirstMaximal(probs, j)
    ensures i == j
  {
    // Both hold the maximum; whichever came first would be strictly below it.
    assert probs[i].1 == probs[j].1;
  }

  /** `probs[key]`, the value stored under `key`. */
  function Lookup(probs: Probs, key: string): (r: Option<real>)
    ensures r.None? <==> forall i | 0 <= i < |probs| :: probs[i].0 != key
    ensures r.Some? ==> exists i | 0 <= i < |probs| :: probs[i] == (key, r.value)
  {
    if probs == [] then None
    else if probs[0].0 == key then Some(probs[0].1)
    else
      var r := Lookup(probs[1..], key);
      assert forall i | 1 <= i < |probs| :: probs[i] == probs[1..][i - 1];
      r
  }

  /** In a dict, looking up the key of an entry gives that entry's value. */
  lemma {:induction false} LookupAt(probs: Probs, k: int)
    requires DistinctKeys(probs) && 0 <= k < |probs|
    ensures Lookup(probs, probs[k].0) == Some(probs[k].1)
  {
    if k > 0 {
      assert probs[0].0 != probs[k].0;
      assert probs[1..][k - 1] == probs[k];
      LookupAt(probs[1..], k - 1);
    }
  }

  /** The arguments of the `model.transcribe` call that matter: the file and the language. */
  datatype WhisperCall = WhisperCall(path: string, language: string)

  /** The dict `transcribe_audio` returns: the three result fields, or only `error`. */
  datatype Body =
    | Transcript(text: string, language: string, confidence: real)
    | Failure(error: string)

  /** `transcribe_audio(path)`. `detection` is what loading the audio and
      `detect_language` produced, `transcribe` the model's `transcribe`, which
      yields the recognised text or raises. Every exception becomes `Failure`. */
  function TranscribeAudio(path: string, detection: Attempt<Probs>,
                           transcribe: WhisperCall -> Attempt<string>): (r: Body)
    ensures detection.Raised? ==> r == Failure(detection.message)
    ensures detection == Returned([]) ==> r == Failure(EmptyMaxMessage)
    ensures detection.Returned? ==>
      forall k | IsFirstMaximal(detection.value, k) ::
        var (language, confidence) := detection.value[k];
        match transcribe(WhisperCall(path, language))
        case Raised(message) => r == Failure(message)
        case Returned(text) => r == Transcript(text, language, confidence)
  {
    match detection
    case Raised(message) => Failure(message)
    case Returned(probs) =>
      if probs == [] then Failure(EmptyMaxMessage)
      else
        var k := ArgMax(probs);
        var (language, confidence) := probs[k];
        match transcribe(WhisperCall(path, language))
        case Raised(message) => Failure(message)
        case Returned(text) => Transcript(text, language, confidence)
  }

  /** The reported confidence is the probability the dict holds for the reported
      language, and that probability is at least every other one in the dict. */
  lemma ConfidenceIsProbability(path: string, probs: Probs, transcribe: WhisperCall -> Attempt<string>)
    requires DistinctKeys(probs)
    ensures var r := TranscribeAudio(path, Returned(probs), transcribe);
      r.Transcript? ==>
        && Lookup(probs, r.language) == Some(r.confidence)
        && (forall j | 0 <= j < |probs| :: probs[j].1 <= r.confidence)
  {
    if probs != [] {
      LookupAt(probs, ArgMax(probs));
    }
  }

  /** An upload in the multipart form, reduced to its file name. */
  datatype Upload = Upload(filename: string)

  /** The JSON reply and its status. */
  datatype Reply = Reply(status: int, body: Body)

  /** The request carries a file with a non-empty name. */
  predicate Accepted(upload: Option<Upload>) {
    upload.Some? && upload.value.filename != ""
  }

  /** `api_transcribe` as a function of its inputs: the two upload checks in order,
      and otherwise the transcription result, with status 200 even when it is an error. */
  function Respond(upload: Option<Upload>, path: string, detection: Attempt<Probs>,
                   transcribe: WhisperCall -> Attempt<string>): (r: Reply)
    ensures r.status == 400 <==> !Accepted(upload)
    ensures r.status == 200 <==> Accepted(upload)
    ensures upload.None? ==> r.body == Failure(NoFileMessage)
    ensures upload.Some? && upload.value.filename == "" ==> r.body == Failure(EmptyFilenameMessage)
    ensures Accepted(upload) ==> r.body == TranscribeAudio(path, detection, transcribe)
  {
    if upload.None? then Reply(400, Failure(NoFileMessage))
    else if upload.value.filename == "" then Reply(400, Failure(EmptyFilenameMessage))
    else Reply(200, TranscribeAudio(path, detection, transcribe))
  }

  /** The `Whisper_outputs` folder, as the set of names of the files in it. */
  class ScratchFolder {
    var files: set<string>

    constructor (existing: set<string>)
      ensures files == existing
    {
      files := existing;
    }

    /** `api_transcribe`: validate the upload, save it under the name made from
        `fileId` (what `uuid4()` returned), transcribe it, remove it, reply. */
    method ApiTranscribe(upload: Option<Upload>, fileId: string, detection: Attempt<Probs>,
                         transcribe: WhisperCall -> Attempt<string>) returns (reply: Reply)
      modifies this
      ensures reply == Respond(upload, WavName(fileId), detection, transcribe)
      ensures files == if Accepted(upload) then old(files) - {WavName(fileId)} else old(files)
      ensures WavName(fileId) !in old(files) ==> files == old(files)
    {
      var path := WavName(fileId);
      if !Accepted(upload) {
        return Respond(upload, path, detection, transcribe);
      }
      files := files + {path};  // uploaded_file.save(input_path)
      assert path in files;     // the model reads a file that exists
      reply := Respond(upload, path, detection, transcribe);
      files := files - {path};  // os.remove(input_path)
    }
  }
}
