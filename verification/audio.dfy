/** Audio as the pipeline sees it: raw bytes on the wire and in the cache,
    and decoded clips that can be concatenated.

    A clip is a sequence of frames of one millisecond each, which is the unit
    in which pydub measures and slices a segment; what a frame holds is not
    looked at, so it is left as an integer.
 */
module Audio {
  import opened Results

  newtype byte = b: int | 0 <= b < 256

  /** A WAV file as bytes. */
  type Bytes = seq<byte>

  /** The audio of one millisecond. */
  type Frame = int

  type Clip = seq<Frame>

  /** The pause after every sentence, in milliseconds (main.py:35). */
  const SilenceMs: nat := 400

  /** A silent segment lasting `ms` milliseconds: `ms` silent frames. */
  function Silent(ms: nat): (c: Clip)
    ensures |c| == ms
    ensures forall i :: 0 <= i < ms ==> c[i] == 0
  {
    if ms == 0 then [] else Silent(ms - 1) + [0]
  }

  /** The pause inserted after every sentence (main.py:35). */
  const Silence: Clip := Silent(SilenceMs)

  /** Reading a WAV segment from bytes (main.py:72-73): None when the bytes are not
      a readable WAV file.  The codec itself is not part of this model. */
  type Decoder = Bytes -> Option<Clip>
}
