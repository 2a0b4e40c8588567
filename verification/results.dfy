/** The outcomes of the pipeline: a value, or the failure that stopped it. */
module Results {
  import opened Sanitizer

  datatype Option<T> = None | Some(value: T)

  /** Every failure names the key of the sentence it belongs to. */
  datatype Failure =
    | SynthesisFailure(key: Key, status: int)  // the backend answered with a status other than 200
    | DecodeFailure(key: Key)                  // the audio bytes are not a readable WAV file
    | MissingKey(key: Key)                     // assembly found no clip for a sentence

  datatype Result<T> = Ok(value: T) | Err(error: Failure)
}
