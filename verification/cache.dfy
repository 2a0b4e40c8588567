/** The cache-aside step for one sentence, `getAudioForSentence`
    (main.py:62-74), with the synthesis call it falls back to,
    `generateAudioForSentence` (main.py:48-59).

    The Redis store is a map from key to the cached WAV bytes.  The TTS
    backend is a function from the request body to the response; the HTTP
    exchange itself is not part of this model.  Every step reports the store
    it leaves behind and the keys it sent to the backend, because the store
    outlives a failed step.
 */
module SentenceCache {
  import opened Sanitizer
  import opened Results
  import opened Audio

  type Store = map<Key, Bytes>

  datatype Response = Response(status: int, body: Bytes)

  /** The TTS service the key is posted to (main.py:55-58). */
  type Backend = Key -> Response

  /** What one unit of work leaves behind: the store, the keys it posted to
      the backend in order, and its answer. */
  datatype Step<T> = Step(store: Store, calls: seq<Key>, result: T)

  /** No cached entry is dropped or rewritten: the store only grows. */
  ghost predicate Extends(before: Store, after: Store)
  {
    forall k :: k in before ==> k in after && after[k] == before[k]
  }

  /** Every cached entry is what the backend answers for its key. */
  ghost predicate Agrees(store: Store, backend: Backend)
  {
    forall k :: k in store ==> backend(k).status == 200 && backend(k).body == store[k]
  }

  /** What the answer for `key` must be, given the store after the step: the
      key unchanged with the decoding of its cached bytes; a decode failure
      when the cached bytes do not decode; a synthesis failure carrying the
      backend's status when nothing was cached because the backend refused. */
  predicate Answers(r: Result<(Key, Clip)>, key: Key, store: Store, backend: Backend, decode: Decoder)
  {
    && (r.Ok? <==> key in store && decode(store[key]).Some?)
    && (r.Ok? ==> r.value == (key, decode(store[key]).value))
    && (r.Err? ==> r.error == FailureFor(key, store, backend))
    && (r.Err? && key !in store ==> backend(key).status != 200)
  }

  /** The failure of a step for `key` that left `store` behind: the cached
      bytes did not decode, or nothing was cached because the backend refused
      with its status. */
  function FailureFor(key: Key, store: Store, backend: Backend): Failure
  {
    if key in store then DecodeFailure(key) else SynthesisFailure(key, backend(key).status)
  }

  /** Converting the bytes to a segment (main.py:72-74). */
  function DecodeFor(key: Key, bytes: Bytes, decode: Decoder): (r: Result<(Key, Clip)>)
    ensures r.Ok? <==> decode(bytes).Some?
    ensures r.Ok? ==> r.value == (key, decode(bytes).value)
    ensures r.Err? ==> r.error == DecodeFailure(key)
  {
    match decode(bytes)
    case Some(clip) => Ok((key, clip))
    case None => Err(DecodeFailure(key))
  }

  /** Synthesis without a cache: post the key, insist on status 200, decode
      the body.  The reference the cached path is compared with. */
  function Synthesize(key: Key, backend: Backend, decode: Decoder): (r: Result<(Key, Clip)>)
    ensures r.Ok? <==> backend(key).status == 200 && decode(backend(key).body).Some?
    ensures r.Ok? ==> r.value == (key, decode(backend(key).body).value)
    ensures backend(key).status != 200 ==> r == Err(SynthesisFailure(key, backend(key).status))
    ensures backend(key).status == 200 && r.Err? ==> r.error == DecodeFailure(key)
  {
    var resp := backend(key);
    if resp.status != 200 then Err(SynthesisFailure(key, resp.status))
    else DecodeFor(key, resp.body, decode)
  }

  /** Look the key up; on a miss call the backend once and store its body
      before decoding; answer with the key and the decoded clip. */
  function GetAudioForSentence(store: Store, key: Key, backend: Backend, decode: Decoder)
    : (s: Step<Result<(Key, Clip)>>)
    // a hit makes no call and leaves the store alone; a miss makes exactly one call, with the key
    ensures key in store ==> s.calls == [] && s.store == store
    ensures key !in store ==> s.calls == [key]
    // nothing but the key's own entry can change, and an existing entry never does
    ensures Extends(store, s.store) && s.store.Keys <= store.Keys + {key}
    // a miss stores exactly what a 200 response carried, and nothing otherwise
    ensures key in s.store <==> key in store || backend(key).status == 200
    ensures key !in store && key in s.store ==> s.store[key] == backend(key).body
    // the answer is determined by what the step leaves cached for the key
    ensures Answers(s.result, key, s.store, backend, decode)
  {
    if key in store then
      Step(store, [], DecodeFor(key, store[key], decode))
    else
      var resp := backend(key);
      if resp.status != 200 then
        Step(store, [key], Err(SynthesisFailure(key, resp.status)))
      else
        Step(store[key := resp.body], [key], DecodeFor(key, resp.body, decode))
  }

  /** When the cache only holds what the backend would answer, the cached
      path answers exactly as a fresh synthesis would, and the cache keeps
      agreeing with the backend. */
  lemma CacheIsTransparent(store: Store, key: Key, backend: Backend, decode: Decoder)
    requires Agrees(store, backend)
    ensures GetAudioForSentence(store, key, backend, decode).result == Synthesize(key, backend, decode)
    ensures Agrees(GetAudioForSentence(store, key, backend, decode).store, backend)
  {
  }

  /** Once a key has been answered, asking again hits the cache: no backend
      call, even to a backend that now answers differently, and the same clip. */
  lemma SecondRequestHits(store: Store, key: Key, first: Backend, second: Backend, decode: Decoder)
    requires GetAudioForSentence(store, key, first, decode).result.Ok?
    ensures var s1 := GetAudioForSentence(store, key, first, decode);
            var s2 := GetAudioForSentence(s1.store, key, second, decode);
            s2.calls == [] && s2.store == s1.store && s2.result == s1.result
  {
  }

  /** A 200 response whose body does not decode fails the step but stays in
      the cache, because the bytes are stored before they are decoded; every
      later request for the key then fails the same way without a call. */
  lemma UndecodableBodyStaysCached(store: Store, key: Key, backend: Backend, decode: Decoder, later: Backend)
    requires key !in store
    requires backend(key).status == 200 && decode(backend(key).body).None?
    ensures var s1 := GetAudioForSentence(store, key, backend, decode);
            && s1.result == Err(DecodeFailure(key))
            && key in s1.store && s1.store[key] == backend(key).body
            && var s2 := GetAudioForSentence(s1.store, key, later, decode);
               s2.calls == [] && s2.result == Err(DecodeFailure(key))
  {
  }
}
