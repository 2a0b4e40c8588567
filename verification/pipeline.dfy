/** The sentence pipeline of the `tts` route (main.py:122-124) without its
    transport: build the map from key to clip for the sentences of the text,
    then assemble the clips in input order.
 */
module Pipeline {
  import opened Sanitizer
  import opened Results
  import opened Audio
  import opened SentenceCache
  import opened Blob
  import opened Assembly

  /** The map built for a text covers every sentence of it, so assembly never
      looks up a key that is not there. */
  lemma MapCoversAssembly(store: Store, sentences: seq<Sentence>, backend: Backend, decode: Decoder)
    requires GetAudioForBlob(store, sentences, backend, decode).result.Ok?
    ensures AllKeysPresent(GetAudioForBlob(store, sentences, backend, decode).result.value, sentences)
  {
    var m := GetAudioForBlob(store, sentences, backend, decode).result.value;
    forall i | 0 <= i < |sentences|
      ensures Sanitize(sentences[i]) in m
    {
      assert Sanitize(sentences[i]) in KeysOf(sentences);
    }
  }

  /** The decodings of the bytes cached for the sentences, in input order. */
  function CachedClips(store: Store, sentences: seq<Sentence>, decode: Decoder): (clips: seq<Clip>)
    requires forall i :: 0 <= i < |sentences| ==> Cached(store, Sanitize(sentences[i]), decode)
    ensures |clips| == |sentences|
    ensures forall i :: 0 <= i < |sentences| ==>
              Cached(store, Sanitize(sentences[i]), decode) && decode(store[Sanitize(sentences[i])]) == Some(clips[i])
  {
    if |sentences| == 0 then []
    else
      var init := sentences[..|sentences| - 1];
      assert forall i :: 0 <= i < |init| ==> init[i] == sentences[i];
      assert Cached(store, Sanitize(sentences[|sentences| - 1]), decode);
      CachedClips(store, init, decode) + [decode(store[Sanitize(sentences[|sentences| - 1])]).value]
  }

  /** Narration of one text: the store and backend calls of the fan-out, and
      either the assembled clip or the failure of the first sentence that
      failed.  Assembly itself never fails. */
  method Narrate(store: Store, sentences: seq<Sentence>, backend: Backend, decode: Decoder)
    returns (after: Store, calls: seq<Key>, r: Result<Clip>)
    // the store and the backend calls are those of the fan-out over the sentences
    ensures after == GetAudioForBlob(store, sentences, backend, decode).store
    ensures calls == GetAudioForBlob(store, sentences, backend, decode).calls
    ensures Extends(store, after)
    ensures r.Err? ==> !r.error.MissingKey?
    ensures r.Err? ==> GetAudioForBlob(store, sentences, backend, decode).result == Err(r.error)
    ensures r.Ok? <==> forall i :: 0 <= i < |sentences| ==> Cached(after, Sanitize(sentences[i]), decode)
    // the narration is the cached clip of every sentence, each followed by the pause, in input order
    ensures r.Ok? ==> r.value == Playlist(CachedClips(after, sentences, decode))
    ensures r.Ok? ==> |r.value| == TotalLength(CachedClips(after, sentences, decode)) + |sentences| * SilenceMs
  {
    var b := GetAudioForBlob(store, sentences, backend, decode);
    after, calls := b.store, b.calls;
    if b.result.Err? {
      return after, calls, Err(b.result.error);
    }
    MapCoversAssembly(store, sentences, backend, decode);
    AssembledClipsAreCached(b.result.value, after, sentences, decode);
    r := CombineSegmentsForBlob(b.result.value, sentences);
  }

  /** The clips assembly picks from a map whose entries are decodings of
      cached bytes are the cached clips of the sentences. */
  lemma AssembledClipsAreCached(m: map<Key, Clip>, store: Store, sentences: seq<Sentence>, decode: Decoder)
    requires AllKeysPresent(m, sentences)
    requires forall k :: k in m ==> k in store && decode(store[k]) == Some(m[k])
    ensures forall i :: 0 <= i < |sentences| ==> Cached(store, Sanitize(sentences[i]), decode)
    ensures ClipsFor(m, sentences) == CachedClips(store, sentences, decode)
  {
    assert forall i :: 0 <= i < |sentences| ==> Cached(store, Sanitize(sentences[i]), decode) by {
      forall i | 0 <= i < |sentences|
        ensures Cached(store, Sanitize(sentences[i]), decode)
      {
        assert Sanitize(sentences[i]) in m;
      }
    }
  }

  /** Two sentences whose clips last one and two seconds give a narration of
      3.8 seconds: the first clip, a pause, the second clip, a pause. */
  lemma TwoSentenceNarration(first: Clip, second: Clip)
    requires |first| == 1000 && |second| == 2000
    ensures Playlist([first, second]) == first + Silence + second + Silence
    ensures |Playlist([first, second])| == 3800
  {
    assert [first, second][..1] == [first];
    assert [first][..0] == [];
  }
}
