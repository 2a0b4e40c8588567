/** The fan-out over all sentences of a text, `getAudioForBlob`
    (main.py:81-94): one unit of work per sentence, the answers gathered in
    the order the units were launched, then folded into a dictionary from key
    to clip in which a later answer for the same key overwrites an earlier one.

    The units run concurrently in the source.  Here they run one after the
    other in input order, each seeing the store the previous one left, which
    is the schedule in which every unit finishes before the next one starts.
 */
module Blob {
  import opened Sanitizer
  import opened Results
  import opened Audio
  import opened SentenceCache

  /** The keys of all sentences of the text. */
  function KeysOf(sentences: seq<Sentence>): set<Key>
  {
    set i | 0 <= i < |sentences| :: Sanitize(sentences[i])
  }

  /** `key` is cached with bytes that decode. */
  predicate Cached(store: Store, key: Key, decode: Decoder)
  {
    key in store && decode(store[key]).Some?
  }

  lemma KeysOfSnoc(sentences: seq<Sentence>)
    requires |sentences| > 0
    ensures KeysOf(sentences) == KeysOf(sentences[..|sentences| - 1]) + {Sanitize(sentences[|sentences| - 1])}
  {
    var init := sentences[..|sentences| - 1];
    forall k | k in KeysOf(sentences)
      ensures k in KeysOf(init) + {Sanitize(sentences[|sentences| - 1])}
    {
      var i :| 0 <= i < |sentences| && Sanitize(sentences[i]) == k;
      if i < |init| {
        assert init[i] == sentences[i];
      }
    }
    forall k | k in KeysOf(init)
      ensures k in KeysOf(sentences)
    {
      var i :| 0 <= i < |init| && Sanitize(init[i]) == k;
      assert init[i] == sentences[i];
    }
  }

  /** Every entry of `store` that is not in `initial` is the body of a 200
      answer of the backend for its key. */
  ghost predicate OnlyBackendAnswersAdded(initial: Store, store: Store, backend: Backend)
  {
    forall k :: k in store ==> k in initial || (backend(k).status == 200 && store[k] == backend(k).body)
  }

  /** Runs the unit of work of every sentence in input order, threading the
      store, and lists their answers in input order. */
  function RunAll(store: Store, sentences: seq<Sentence>, backend: Backend, decode: Decoder)
    : (f: Step<seq<Result<(Key, Clip)>>>)
    ensures |f.result| == |sentences|
    ensures Extends(store, f.store)
    ensures OnlyBackendAnswersAdded(store, f.store, backend)
    // each answer is the one its sentence's key has in the final store
    ensures forall i :: 0 <= i < |sentences| ==> Answers(f.result[i], Sanitize(sentences[i]), f.store, backend, decode)
    decreases |sentences|
  {
    if |sentences| == 0 then Step(store, [], [])
    else
      var prev := RunAll(store, sentences[..|sentences| - 1], backend, decode);
      var s := GetAudioForSentence(prev.store, Sanitize(sentences[|sentences| - 1]), backend, decode);
      AnswersPersist(prev.store, sentences[..|sentences| - 1], prev.result, Sanitize(sentences[|sentences| - 1]), s.store, backend, decode);
      Step(s.store, prev.calls + s.calls, prev.result + [s.result])
  }

  /** Answers given against one store still hold after one more step adds at
      most the entry of `key`, and adds it only for a 200 answer. */
  lemma AnswersPersist(store: Store, sentences: seq<Sentence>, results: seq<Result<(Key, Clip)>>,
                       key: Key, after: Store, backend: Backend, decode: Decoder)
    requires |results| == |sentences|
    requires forall i :: 0 <= i < |sentences| ==> Answers(results[i], Sanitize(sentences[i]), store, backend, decode)
    requires Extends(store, after) && after.Keys <= store.Keys + {key}
    requires key in after <==> key in store || backend(key).status == 200
    ensures forall i :: 0 <= i < |sentences| ==> Answers(results[i], Sanitize(sentences[i]), after, backend, decode)
  {
    forall i | 0 <= i < |sentences|
      ensures Answers(results[i], Sanitize(sentences[i]), after, backend, decode)
    {
      var k := Sanitize(sentences[i]);
      if k !in store {
        assert k !in after;
      }
    }
  }

  /** Gathering the units (main.py:92): all answers in launch order, or the first failure in
      launch order. */
  function Gather<T>(rs: seq<Result<T>>): (r: Result<seq<T>>)
    ensures r.Ok? <==> forall i :: 0 <= i < |rs| ==> rs[i].Ok?
    ensures r.Ok? ==> |r.value| == |rs| && forall i :: 0 <= i < |rs| ==> rs[i].value == r.value[i]
    ensures r.Err? ==> exists i :: 0 <= i < |rs| && rs[i].Err? && rs[i].error == r.error
                                   && forall j :: 0 <= j < i ==> rs[j].Ok?
  {
    if |rs| == 0 then Ok([])
    else
      match rs[0]
      case Err(e) => Err(e)
      case Ok(v) =>
        match Gather(rs[1..])
        case Ok(vs) => Ok([v] + vs)
        case Err(e) =>
          assert exists i :: 0 <= i < |rs[1..]| && rs[1..][i].Err? && rs[1..][i].error == e
                             && forall j :: 0 <= j < i ==> rs[1..][j].Ok?;
          var i :| 0 <= i < |rs[1..]| && rs[1..][i].Err? && rs[1..][i].error == e
                   && forall j :: 0 <= j < i ==> rs[1..][j].Ok?;
          assert rs[i + 1] == rs[1..][i];
          assert forall j :: 1 <= j < i + 1 ==> rs[j] == rs[1..][j - 1];
          Err(e)
  }

  /** Position `i` holds the last pair with its key. */
  predicate LastOccurrence(pairs: seq<(Key, Clip)>, i: nat)
    requires i < |pairs|
  {
    forall j :: i < j < |pairs| ==> pairs[j].0 != pairs[i].0
  }

  /** The dict comprehension of main.py:93: the keys of all pairs, each
      mapped to the clip of its last pair. */
  function ToMap(pairs: seq<(Key, Clip)>): (m: map<Key, Clip>)
    ensures m.Keys == set i | 0 <= i < |pairs| :: pairs[i].0
    ensures forall i :: 0 <= i < |pairs| && LastOccurrence(pairs, i) ==> m[pairs[i].0] == pairs[i].1
    ensures forall k :: k in m ==> (k, m[k]) in pairs
  {
    if |pairs| == 0 then map[]
    else
      var init := pairs[..|pairs| - 1];
      var last := pairs[|pairs| - 1];
      var m := ToMap(init)[last.0 := last.1];
      assert pairs == init + [last];
      SnocPairKeys(init, last);
      SnocEntries(init, last, ToMap(init), m);
      SnocLastWins(init, last, ToMap(init));
      m
  }

  /** The keys of the pairs after one more pair. */
  lemma SnocPairKeys(init: seq<(Key, Clip)>, last: (Key, Clip))
    ensures (set i | 0 <= i < |init + [last]| :: (init + [last])[i].0)
            == (set i | 0 <= i < |init| :: init[i].0) + {last.0}
  {
    var pairs := init + [last];
    assert forall i :: 0 <= i < |init| ==> init[i] == pairs[i];
    assert pairs[|init|] == last;
  }

  /** Entering one more pair keeps every entry one of the pairs. */
  lemma SnocEntries(init: seq<(Key, Clip)>, last: (Key, Clip), m0: map<Key, Clip>, m: map<Key, Clip>)
    requires forall k :: k in m0 ==> (k, m0[k]) in init
    requires m == m0[last.0 := last.1]
    ensures forall k :: k in m ==> (k, m[k]) in init + [last]
  {
    forall k | k in m
      ensures (k, m[k]) in init + [last]
    {
      if k != last.0 {
        assert (k, m[k]) in init;
      } else {
        assert (init + [last])[|init|] == last;
      }
    }
  }

  /** Entering one more pair keeps every last pair's clip. */
  lemma SnocLastWins(init: seq<(Key, Clip)>, last: (Key, Clip), m0: map<Key, Clip>)
    requires forall i :: 0 <= i < |init| && LastOccurrence(init, i) ==> init[i].0 in m0 && m0[init[i].0] == init[i].1
    ensures var pairs := init + [last];
            var m := m0[last.0 := last.1];
            forall i :: 0 <= i < |pairs| && LastOccurrence(pairs, i) ==> pairs[i].0 in m && m[pairs[i].0] == pairs[i].1
  {
    var pairs := init + [last];
    var m := m0[last.0 := last.1];
    forall i | 0 <= i < |pairs| && LastOccurrence(pairs, i)
      ensures pairs[i].0 in m && m[pairs[i].0] == pairs[i].1
    {
      if i < |init| {
        assert init[i] == pairs[i];
        assert pairs[|init|] == last;
        assert LastOccurrence(init, i) by {
          forall j | i < j < |init|
            ensures init[j].0 != init[i].0
          {
            assert init[j] == pairs[j];
          }
        }
      }
    }
  }

  /** The whole fan-out: the store it leaves, the keys it posted to the
      backend, and either the map from key to clip or the failure of the
      first sentence, in input order, that failed. */
  function GetAudioForBlob(store: Store, sentences: seq<Sentence>, backend: Backend, decode: Decoder)
    : (b: Step<Result<map<Key, Clip>>>)
    ensures Extends(store, b.store)
    ensures OnlyBackendAnswersAdded(store, b.store, backend)
    // only keys of the text are added
    ensures b.store.Keys <= store.Keys + KeysOf(sentences)
    // the batch succeeds exactly when every sentence ends up cached with decodable bytes
    ensures b.result.Ok? <==> forall i :: 0 <= i < |sentences| ==> Cached(b.store, Sanitize(sentences[i]), decode)
    // the map has exactly the sanitized sentences as keys ...
    ensures b.result.Ok? ==> b.result.value.Keys == KeysOf(sentences)
    // ... each mapped to the decoding of the bytes cached for it
    ensures b.result.Ok? ==> forall k :: k in b.result.value ==>
              k in b.store && decode(b.store[k]) == Some(b.result.value[k])
    // a key missing at the start that the backend answers with 200 ends up cached with that body
    ensures forall i :: 0 <= i < |sentences| && Sanitize(sentences[i]) !in store
                        && backend(Sanitize(sentences[i])).status == 200 ==>
              Sanitize(sentences[i]) in b.store
              && b.store[Sanitize(sentences[i])] == backend(Sanitize(sentences[i])).body
    // a failure is the failure of the first sentence, in input order, that is not cached with decodable bytes
    ensures b.result.Err? ==>
              exists i :: && 0 <= i < |sentences|
                          && !Cached(b.store, Sanitize(sentences[i]), decode)
                          && b.result.error == FailureFor(Sanitize(sentences[i]), b.store, backend)
                          && (forall j :: 0 <= j < i ==> Cached(b.store, Sanitize(sentences[j]), decode))
  {
    var f := RunAll(store, sentences, backend, decode);
    GatherOutcome(f.result, sentences, f.store, backend, decode);
    MissingAnsweredKeysCached(f.result, sentences, store, f.store, backend, decode);
    RunAllAddsOnlyTextKeys(store, sentences, backend, decode);
    match Gather(f.result)
    case Ok(pairs) =>
      var m := ToMap(pairs);
      MapIsCached(pairs, sentences, f.store, backend, decode);
      Step(f.store, f.calls, Ok(m))
    case Err(e) => Step(f.store, f.calls, Err(e))
  }

  /** Gathering the answers succeeds exactly when every key is cached with
      decodable bytes, and a failure is that of the first sentence whose key
      is not. */
  lemma GatherOutcome(results: seq<Result<(Key, Clip)>>, sentences: seq<Sentence>,
                      store: Store, backend: Backend, decode: Decoder)
    requires |results| == |sentences|
    requires forall i :: 0 <= i < |sentences| ==> Answers(results[i], Sanitize(sentences[i]), store, backend, decode)
    ensures Gather(results).Ok? <==> forall i :: 0 <= i < |sentences| ==> Cached(store, Sanitize(sentences[i]), decode)
    ensures Gather(results).Err? ==>
              exists i :: && 0 <= i < |sentences|
                          && !Cached(store, Sanitize(sentences[i]), decode)
                          && Gather(results).error == FailureFor(Sanitize(sentences[i]), store, backend)
                          && (forall j :: 0 <= j < i ==> Cached(store, Sanitize(sentences[j]), decode))
  {
    var g := Gather(results);
    if g.Err? {
      var i :| 0 <= i < |results| && results[i].Err? && results[i].error == g.error
               && forall j :: 0 <= j < i ==> results[j].Ok?;
      assert Answers(results[i], Sanitize(sentences[i]), store, backend, decode);
    }
  }

  /** A key that was not cached at the start and that the backend answers
      with 200 is cached with that body once its sentence has answered. */
  lemma MissingAnsweredKeysCached(results: seq<Result<(Key, Clip)>>, sentences: seq<Sentence>,
                                  initial: Store, store: Store, backend: Backend, decode: Decoder)
    requires |results| == |sentences|
    requires forall i :: 0 <= i < |sentences| ==> Answers(results[i], Sanitize(sentences[i]), store, backend, decode)
    requires OnlyBackendAnswersAdded(initial, store, backend)
    ensures forall i :: 0 <= i < |sentences| && Sanitize(sentences[i]) !in initial
                        && backend(Sanitize(sentences[i])).status == 200 ==>
              Sanitize(sentences[i]) in store
              && store[Sanitize(sentences[i])] == backend(Sanitize(sentences[i])).body
  {
    forall i | 0 <= i < |sentences| && Sanitize(sentences[i]) !in initial
               && backend(Sanitize(sentences[i])).status == 200
      ensures Sanitize(sentences[i]) in store
    {
      assert Answers(results[i], Sanitize(sentences[i]), store, backend, decode);
    }
  }

  /** The map built from the gathered pairs has the sanitized sentences as
      keys, each mapped to the decoding of its cached bytes. */
  lemma MapIsCached(pairs: seq<(Key, Clip)>, sentences: seq<Sentence>,
                    store: Store, backend: Backend, decode: Decoder)
    requires |pairs| == |sentences|
    requires forall i :: 0 <= i < |sentences| ==> Answers(Ok(pairs[i]), Sanitize(sentences[i]), store, backend, decode)
    ensures ToMap(pairs).Keys == KeysOf(sentences)
    ensures forall k :: k in ToMap(pairs) ==> k in store && decode(store[k]) == Some(ToMap(pairs)[k])
  {
    var m := ToMap(pairs);
    assert forall i :: 0 <= i < |sentences| ==> pairs[i].0 == Sanitize(sentences[i]) by {
      forall i | 0 <= i < |sentences|
        ensures pairs[i].0 == Sanitize(sentences[i])
      {
        assert Answers(Ok(pairs[i]), Sanitize(sentences[i]), store, backend, decode);
      }
    }
    PairKeysAreKeysOf(pairs, sentences);
    forall k | k in m
      ensures k in store && decode(store[k]) == Some(m[k])
    {
      var i :| 0 <= i < |pairs| && pairs[i] == (k, m[k]);
      assert Answers(Ok(pairs[i]), Sanitize(sentences[i]), store, backend, decode);
    }
  }

  /** Pairs keyed by the sanitized sentences have the text's keys. */
  lemma PairKeysAreKeysOf(pairs: seq<(Key, Clip)>, sentences: seq<Sentence>)
    requires |pairs| == |sentences|
    requires forall i :: 0 <= i < |sentences| ==> pairs[i].0 == Sanitize(sentences[i])
    ensures (set i | 0 <= i < |pairs| :: pairs[i].0) == KeysOf(sentences)
  {
  }

  /** The fold caches nothing but keys of the text. */
  lemma RunAllAddsOnlyTextKeys(store: Store, sentences: seq<Sentence>, backend: Backend, decode: Decoder)
    ensures RunAll(store, sentences, backend, decode).store.Keys <= store.Keys + KeysOf(sentences)
  {
    RunAllCalls(store, sentences, backend, decode);
  }

  /** The bookkeeping of backend calls for a run from `initial`, over a text
      whose keys are `keys`, that posted `calls` and left `after`: only
      missing keys of the text are posted, every one of them is, nothing but
      posted keys is added, a key answered with 200 ends up cached, and a key
      is posted twice only when the backend refused it. */
  ghost predicate CallsAccounted(initial: Store, keys: set<Key>, calls: seq<Key>, after: Store, backend: Backend)
  {
    && (forall c :: c in calls ==> c !in initial && c in keys)
    && (forall k :: k in after ==> k in initial || k in calls)
    && (forall k :: k in keys && k !in initial ==> k in calls)
    && (forall c :: c in calls && backend(c).status == 200 ==> c in after)
    && (forall j1, j2 :: 0 <= j1 < j2 < |calls| && calls[j1] == calls[j2] ==> backend(calls[j1]).status != 200)
  }

  /** One more step of the fold, for `key`, keeps the bookkeeping. */
  lemma CallsStep(initial: Store, keys: set<Key>, calls: seq<Key>, mid: Store,
                  key: Key, more: seq<Key>, after: Store, backend: Backend)
    requires CallsAccounted(initial, keys, calls, mid, backend)
    requires initial.Keys <= mid.Keys
    requires key in mid ==> more == [] && after == mid
    requires key !in mid ==> more == [key]
    requires mid.Keys <= after.Keys <= mid.Keys + {key}
    requires key in after <==> key in mid || backend(key).status == 200
    ensures CallsAccounted(initial, keys + {key}, calls + more, after, backend)
  {
    if key !in mid {
      var all := calls + more;
      forall j1, j2 | 0 <= j1 < j2 < |all| && all[j1] == all[j2]
        ensures backend(all[j1]).status != 200
      {
        if j2 == |calls| {
          assert all[j1] == calls[j1];
        } else {
          assert all[j1] == calls[j1] && all[j2] == calls[j2];
        }
      }
    } else {
      assert calls + more == calls;
    }
  }

  /** The fold keeps the bookkeeping of backend calls. */
  lemma {:induction false} RunAllCalls(store: Store, sentences: seq<Sentence>, backend: Backend, decode: Decoder)
    ensures var f := RunAll(store, sentences, backend, decode);
            CallsAccounted(store, KeysOf(sentences), f.calls, f.store, backend)
    decreases |sentences|
  {
    if |sentences| > 0 {
      var init := sentences[..|sentences| - 1];
      var key := Sanitize(sentences[|sentences| - 1]);
      RunAllCalls(store, init, backend, decode);
      var prev := RunAll(store, init, backend, decode);
      var s := GetAudioForSentence(prev.store, key, backend, decode);
      KeysOfSnoc(sentences);
      CallsStep(store, KeysOf(init), prev.calls, prev.store, key, s.calls, s.store, backend);
    }
  }

  lemma CalledSet(calls: seq<Key>, keys: set<Key>, cached: set<Key>)
    requires forall c :: c in calls ==> c !in cached && c in keys
    requires forall k :: k in keys && k !in cached ==> k in calls
    ensures (set j | 0 <= j < |calls| :: calls[j]) == keys - cached
  {
    var called := set j | 0 <= j < |calls| :: calls[j];
    forall k | k in keys - cached
      ensures k in called
    {
      var j :| 0 <= j < |calls| && calls[j] == k;
    }
  }

  /** Every key posted from `initial` that ends up cached in `after` was
      answered with 200. */
  lemma CachedCallsAnswered(calls: seq<Key>, initial: Store, after: Store, keys: set<Key>, backend: Backend)
    requires forall c :: c in calls ==> c !in initial && c in keys
    requires keys <= after.Keys
    requires OnlyBackendAnswersAdded(initial, after, backend)
    ensures forall j :: 0 <= j < |calls| ==> backend(calls[j]).status == 200
  {
    forall j | 0 <= j < |calls|
      ensures backend(calls[j]).status == 200
    {
      assert calls[j] in calls;
    }
  }

  /** The backend is asked only for keys of the text that were not cached
      when the batch started, every such key is asked for, and a key is
      asked for twice only when the backend refused it; a batch that
      succeeds therefore asks for each missing key exactly once. */
  lemma BlobBackendCalls(store: Store, sentences: seq<Sentence>, backend: Backend, decode: Decoder)
    ensures var b := GetAudioForBlob(store, sentences, backend, decode);
      && (set j | 0 <= j < |b.calls| :: b.calls[j]) == KeysOf(sentences) - store.Keys
      && (forall j1, j2 :: 0 <= j1 < j2 < |b.calls| && b.calls[j1] == b.calls[j2] ==> backend(b.calls[j1]).status != 200)
      && (b.result.Ok? ==> forall j1, j2 :: 0 <= j1 < j2 < |b.calls| ==> b.calls[j1] != b.calls[j2])
  {
    RunAllCalls(store, sentences, backend, decode);
    var b := GetAudioForBlob(store, sentences, backend, decode);
    var f := RunAll(store, sentences, backend, decode);
    assert b.calls == f.calls && b.store == f.store;
    CalledSet(b.calls, KeysOf(sentences), store.Keys);
    if b.result.Ok? {
      assert KeysOf(sentences) <= b.store.Keys;
      CachedCallsAnswered(b.calls, store, b.store, KeysOf(sentences), backend);
    }
  }

  /** A sentence whose key is not cached and that the backend refuses makes
      the whole batch fail. */
  lemma BlobFailsOnRefusedSentence(store: Store, sentences: seq<Sentence>, backend: Backend, decode: Decoder, i: nat)
    requires i < |sentences|
    requires Sanitize(sentences[i]) !in store && backend(Sanitize(sentences[i])).status != 200
    ensures GetAudioForBlob(store, sentences, backend, decode).result.Err?
  {
    var b := GetAudioForBlob(store, sentences, backend, decode);
    assert !Cached(b.store, Sanitize(sentences[i]), decode);
  }

  /** On success every sentence's own unit answered with its key and the
      clip the map holds for it, so the last-write-wins fold loses nothing:
      duplicate sentences all received the same clip. */
  lemma BlobAnswersAgreeWithMap(store: Store, sentences: seq<Sentence>, backend: Backend, decode: Decoder)
    requires GetAudioForBlob(store, sentences, backend, decode).result.Ok?
    ensures var m := GetAudioForBlob(store, sentences, backend, decode).result.value;
            var rs := RunAll(store, sentences, backend, decode).result;
            forall i :: 0 <= i < |sentences| ==>
              Sanitize(sentences[i]) in m && rs[i] == Ok((Sanitize(sentences[i]), m[Sanitize(sentences[i])]))
  {
    var b := GetAudioForBlob(store, sentences, backend, decode);
    var f := RunAll(store, sentences, backend, decode);
    forall i | 0 <= i < |sentences|
      ensures Sanitize(sentences[i]) in b.result.value
      ensures f.result[i] == Ok((Sanitize(sentences[i]), b.result.value[Sanitize(sentences[i])]))
    {
      assert Cached(b.store, Sanitize(sentences[i]), decode);
      assert Sanitize(sentences[i]) in KeysOf(sentences);
    }
  }

  /** When every key of the text is already cached, the batch makes no
      backend call and leaves the store as it was. */
  lemma {:induction false} AllCachedMakesNoCalls(store: Store, sentences: seq<Sentence>, backend: Backend, decode: Decoder)
    requires KeysOf(sentences) <= store.Keys
    ensures RunAll(store, sentences, backend, decode).calls == []
    ensures RunAll(store, sentences, backend, decode).store == store
    decreases |sentences|
  {
    if |sentences| > 0 {
      KeysOfSnoc(sentences);
      AllCachedMakesNoCalls(store, sentences[..|sentences| - 1], backend, decode);
    }
  }

  /** A successful batch's map is determined by the text and the store it leaves. */
  lemma MapDeterminedByStore(m1: map<Key, Clip>, m2: map<Key, Clip>, store: Store, sentences: seq<Sentence>, decode: Decoder)
    requires m1.Keys == KeysOf(sentences) && m2.Keys == KeysOf(sentences)
    requires forall k :: k in m1 ==> k in store && decode(store[k]) == Some(m1[k])
    requires forall k :: k in m2 ==> k in store && decode(store[k]) == Some(m2[k])
    ensures m1 == m2
  {
    forall k | k in m1
      ensures m1[k] == m2[k]
    {
      assert decode(store[k]) == Some(m2[k]);
    }
  }

  /** Asking again for a text whose batch succeeded is served from the cache
      alone: no backend call, even to a backend that now answers differently,
      the store unchanged and the same map. */
  lemma SecondBatchServedFromCache(store: Store, sentences: seq<Sentence>, first: Backend, second: Backend, decode: Decoder)
    requires GetAudioForBlob(store, sentences, first, decode).result.Ok?
    ensures var b1 := GetAudioForBlob(store, sentences, first, decode);
            var b2 := GetAudioForBlob(b1.store, sentences, second, decode);
            b2.calls == [] && b2.store == b1.store && b2.result == b1.result
  {
    var b1 := GetAudioForBlob(store, sentences, first, decode);
    assert KeysOf(sentences) <= b1.store.Keys by {
      forall k | k in KeysOf(sentences)
        ensures k in b1.store
      {
        var i :| 0 <= i < |sentences| && Sanitize(sentences[i]) == k;
        assert Cached(b1.store, Sanitize(sentences[i]), decode);
      }
    }
    AllCachedMakesNoCalls(b1.store, sentences, second, decode);
    var b2 := GetAudioForBlob(b1.store, sentences, second, decode);
    assert b2.result.Ok?;
    MapDeterminedByStore(b1.result.value, b2.result.value, b1.store, sentences, decode);
  }
}
