/** The naming of the files both services write: a generated UUID with the `.wav`
    extension, inside the service's own folder. */
module Folders {

  /** `f"{file_id}.wav"`, the name of the file written for a generated UUID
      (the folder prefix is left out). */
  function WavName(fileId: string): (name: string)
    ensures |name| == |fileId| + 4
    ensures name[..|fileId|] == fileId && name[|fileId|..] == ".wav"
  {
    fileId + ".wav"
  }

  /** Different UUIDs name different files. */
  lemma WavNameInjective(a: string, b: string)
    requires WavName(a) == WavName(b)
    ensures a == b
  {
    assert a == WavName(a)[..|a|];
  }
}
