# Sentence-to-narration pipeline of tslmy/tts, in Dafny

The service turns an article into one WAV narration. The text is split into
sentences. Each sentence is sanitized into a key, and that key is looked up in
a Redis cache. On a miss, the key is sent to a text-to-speech backend and the
answer is cached. The answers are gathered into a map from key to decoded
clip. Finally the clips are laid end to end in sentence order, with a 400 ms
pause after each one.

This project models that deterministic core of `main.py` and proves what it
promises:

- the sanitizer's rewrite and its idempotence;
- cache-aside correctness for one sentence;
- the contents of the key→clip map and the accounting of backend calls for
  one batch;
- order, layout and length of the assembled narration;
- the fact that assembly never misses a key of the map built for the same
  text.

Files, one module each:

- `sanitizer.dfy` (`Sanitizer`): `sanitize`.
- `results.dfy` (`Results`): `Option`, `Result` and the failures. Each
  failure names the key of its sentence.
- `audio.dfy` (`Audio`): bytes, clips and the 400 ms silence. A clip is a
  sequence of one-millisecond frames. pydub measures and slices segments in
  the same unit.
- `cache.dfy` (`SentenceCache`): `getAudioForSentence` and
  `generateAudioForSentence`. The Redis store is an immutable
  `map<Key, Bytes>` that is threaded through the steps. The backend is a
  total function from key to `Response(status, body)`. Decoding is a
  function from bytes to `Option<Clip>`.
- `blob.dfy` (`Blob`): `getAudioForBlob`. This covers the fan-out, `gather`
  and the dict comprehension.
- `assembly.dfy` (`Assembly`): `combineSegmentsForBlobIntoWav`.
- `pipeline.dfy` (`Pipeline`): the two calls of the `tts` route that connect
  map construction to assembly.

Behaviour of the code that the model keeps:

- On a miss, the bytes are stored (main.py:70) before they are decoded
  (main.py:73). A 200 answer whose body does not decode therefore fails its
  sentence but stays in the cache. Every later request for that key then
  fails the same way, without a backend call (`UndecodableBodyStaysCached`).
- `sanitize` is annotated `-> str`, but it returns the UTF-8 bytes of the
  rewritten text. On text without lone surrogates UTF-8 encoding is
  injective, so the model uses the rewritten text itself as the key.
- `sanitize` is not injective. `"a\nb"` and `"a. b"` get the same key, so
  they share one cache entry and one clip (`SanitizeMergesNewline`).
- A non-200 answer trips the `assert` at main.py:56. The model turns that
  into `SynthesisFailure(key, status)`, and nothing is cached.

- The key→clip map keeps the last answer for a duplicate key, as the dict
  comprehension does (main.py:93).

## Model

| member | source | states |
|---|---|---|
| `Sanitizer.Sanitize` | main.py:77-78 | The key holds no newline, and its length is the sentence's length plus the number of newlines in it: each newline grew into two characters. |
| `Sanitizer.SanitizeAt` | main.py:78 | The rewrite is local to each character: the text before position i, the character at i and the text after it are rewritten separately and laid end to end, so a newline at i becomes exactly ". " at the matching place in the key. |
| `Sanitizer.SanitizeAppend` | main.py:78 | Sanitizing a concatenation is the concatenation of the sanitized parts. |
| `Sanitizer.SanitizeFixedPoint` | main.py:78 | Sanitizing leaves a text unchanged if and only if it contains no newline. |
| `Sanitizer.SanitizeIdempotent` | main.py:78 | Sanitizing a key again gives the same key. |
| `Sanitizer.SanitizeMergesNewline` | main.py:78 | Two different sentences, one with a newline and one with ". " in its place, get the same key. |
| `Audio.Silent` | main.py:35 | The silence of n milliseconds is n frames, all silent. |
| `SentenceCache.DecodeFor` | main.py:72-73 | Decoding succeeds exactly when the decoder accepts the bytes, and then returns the key with the decoded clip; otherwise it is a decode failure for that key. |
| `SentenceCache.Synthesize` | main.py:48-59 | The cache-less reference path: the post of main.py:48-59 followed by the decoding of main.py:72-73. `GetAudioForSentence` does not call it; `CacheIsTransparent` compares the two. Synthesis succeeds exactly when the backend answers 200 with a body that decodes, and then returns the key with that clip. A non-200 answer is a synthesis failure carrying the status; a 200 body that does not decode is a decode failure. |
| `SentenceCache.GetAudioForSentence` | main.py:62-74 | A hit makes no backend call and leaves the store unchanged. A miss makes exactly one call, with the key. Only the key's own entry can be added, and no existing entry changes. The key ends up cached if and only if it was cached already or the backend answered 200, and a newly cached entry is that answer's body. The answer is the key unchanged with the decoding of its cached bytes, a decode failure when those bytes do not decode, or a synthesis failure carrying the backend's status when nothing was cached. |
| `SentenceCache.CacheIsTransparent` | main.py:62-74 | When every cache entry is what the backend answers for its key, the cached path answers exactly as a fresh synthesis would, and the cache keeps agreeing with the backend. |
| `SentenceCache.SecondRequestHits` | main.py:64-66 | After a successful step, asking for the same key again makes no backend call, even to a backend that now answers differently. The store stays the same and the answer is the same. |
| `SentenceCache.UndecodableBodyStaysCached` | main.py:66-73 | A 200 body that does not decode fails the step with a decode failure but is cached, and a later request for the key fails the same way without a backend call. |
| `Blob.RunAll` | main.py:88-92 | There is one answer per sentence, in input order. The store only grows, and only with 200 bodies from the backend. Each answer is the one its sentence's key has in the final store. |
| `Blob.Gather` | main.py:92 | Gathering succeeds exactly when every answer succeeded, and then keeps all values in launch order. Otherwise it fails with the failure of the first answer, in launch order, that failed. |
| `Blob.ToMap` | main.py:93 | The dict has exactly the keys of the pairs. A key's value is the clip of the last pair with that key, and every entry comes from some pair. |
| `Blob.GetAudioForBlob` | main.py:81-94 | The batch succeeds exactly when every sentence's key ends up cached with decodable bytes. The map's keys are exactly the sanitized sentences, each mapped to the decoding of the bytes cached for it. A failure is that of the first sentence, in input order, whose key is not cached with decodable bytes: a decode failure when its bytes are cached, otherwise a synthesis failure with the backend's status. The store only grows, only with 200 bodies, and only with keys of the text. A key not cached at the start that the backend answers with 200 ends up cached with that body, whether or not the batch succeeds. |
| `Blob.GatherOutcome` | main.py:92 | Gathering the batch's answers succeeds exactly when every key is cached with decodable bytes, and a failure is that of the first sentence whose key is not: a decode failure when its bytes are cached, otherwise a synthesis failure with the backend's status. |
| `Blob.BlobBackendCalls` | main.py:64-92 | The set of keys sent to the backend is exactly the set of the text's keys that were not cached at the start. A key is sent twice only if the backend refused it. A successful batch sends each missing key exactly once. |
| `Blob.BlobFailsOnRefusedSentence` | main.py:55-92 | A sentence whose key is not cached and that the backend refuses makes the whole batch fail. |
| `Blob.BlobAnswersAgreeWithMap` | main.py:88-93 | On success, each sentence's own answer is its key with the clip the map holds for that key, so duplicate sentences lose nothing to last-write-wins. |
| `Blob.AllCachedMakesNoCalls` | main.py:64-66 | When every key of the text is cached, the batch makes no backend call and leaves the store unchanged. |
| `Blob.SecondBatchServedFromCache` | main.py:81-94 | After a successful batch, the same text is served from the cache alone. There is no backend call, even to a backend that now answers differently, the store stays the same and the map is equal. |
| `Assembly.ClipsFor` | main.py:99-100 | The i-th looked-up clip is the map's clip for the i-th sentence's key. |
| `Assembly.Playlist` | main.py:98-101 | The assembled clip is as long as all clips together plus 400 ms per sentence. |
| `Assembly.PlaylistLayout` | main.py:98-101 | The i-th clip appears intact at its offset, which is the length of all earlier clips plus 400 ms per earlier sentence, and is followed by the 400 ms silence. So the output keeps input order and drops or mixes nothing. |
| `Assembly.PlaylistStep` | main.py:101 | One turn of the loop appends the next sentence's clip and then the silence. |
| `Assembly.CombineSegmentsForBlob` | main.py:97-102 | Assembly succeeds if and only if every sentence's key is in the map. It then returns the in-order playlist of their clips, with the length formula, and the empty clip for no sentences. Otherwise it fails on the first sentence whose key is missing (the `KeyError`). |
| `Pipeline.MapCoversAssembly` | main.py:88-100 | The map built for a text contains every key that assembly of the same text looks up. |
| `Pipeline.Narrate` | main.py:122-124 | Narration never fails on a missing key. It succeeds exactly when every sentence is cached with decodable bytes. It then returns the cached clip of each sentence followed by the pause, in input order, with the summed length. A failure is the failure of building the map. The store only grows; the store it leaves and the backend calls it makes are exactly those of building the map for the text. |
| `Blob.MissingAnsweredKeysCached` | main.py:64-70 | Once every sentence has answered, a key that was not cached at the start and that the backend answers with 200 is cached with that body. |
| `Pipeline.TwoSentenceNarration` | main.py:97-102 | Clips of 1 s and 2 s give the first clip, a pause, the second clip and a pause: 3.8 s in all. |

## Left out

- Article download and parsing (`getTextFromUrl`, main.py:38-45): network I/O.
- Sentence splitting by TextBlob (main.py:120): an external library. The sentences are an input sequence of strings.
- Failure payloads: a failure carries the key of its sentence so that contracts can name it. The code raises a bare `AssertionError` or pydub's exception, which carries no key.
- An unreachable cache and network errors: there is no failure kind for either.
- The `UnicodeEncodeError` that `.encode('utf-8')` (main.py:78, reached from main.py:89) raises for a sentence holding a lone surrogate: a Dafny string cannot hold one, so this error path, which aborts the batch before any request, is not modelled.
- The HTTP POST of `generateAudioForSentence` (main.py:48-59): the backend is a total function from key to status and body. A connection error or timeout is not modelled separately.
- Python's `-O` flag, which strips the status `assert` at main.py:56: the model always treats a non-200 answer as a failure.
- Redis configuration and environment variables (main.py:14-32): the store is a map. A store that cannot be reached is not modelled.
- Concurrency of `asyncio.gather` (main.py:86-92): the units run one after another in input order, each seeing the store the previous one left. The following are therefore not modelled:
  - races between concurrent first writers of the same key;
  - a failure that completes first while an earlier sentence is still running;
  - the closing of the client session cutting off in-flight siblings after a failure.
- Blob.BlobBackendCalls: "a key is sent at most once" holds under the sequential schedule. With concurrent units, two occurrences of one key may both miss the cache.
- WAV decoding, frame rates and channel mixing in pydub (main.py:72-73), and `convertSegmentToWavBytes` (main.py:105-111): clips are abstract sequences of millisecond frames. Decoding is an abstract function that may fail.
- The Sanic route's request parsing, logging and response framing (main.py:114-130): transport shell.
