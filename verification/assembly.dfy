/** The assembler, `combineSegmentsForBlobIntoWav` (main.py:97-102): starting
    from the empty clip, every sentence in input order contributes the clip
    the map holds for its key followed by the 400 ms pause.
 */
module Assembly {
  import opened Sanitizer
  import opened Results
  import opened Audio

  /** Every sentence of the text has a clip in the map. */
  predicate AllKeysPresent(m: map<Key, Clip>, sentences: seq<Sentence>)
  {
    forall i :: 0 <= i < |sentences| ==> Sanitize(sentences[i]) in m
  }

  /** The clips of the sentences, in input order. */
  function ClipsFor(m: map<Key, Clip>, sentences: seq<Sentence>): (clips: seq<Clip>)
    requires AllKeysPresent(m, sentences)
    ensures |clips| == |sentences|
    ensures forall i :: 0 <= i < |sentences| ==> clips[i] == m[Sanitize(sentences[i])]
  {
    if |sentences| == 0 then []
    else ClipsFor(m, sentences[..|sentences| - 1]) + [m[Sanitize(sentences[|sentences| - 1])]]
  }

  /** The summed length of the clips, in milliseconds. */
  function TotalLength(clips: seq<Clip>): nat
  {
    if |clips| == 0 then 0 else TotalLength(clips[..|clips| - 1]) + |clips[|clips| - 1]|
  }

  /** Every clip followed by the pause, laid end to end in order. */
  function Playlist(clips: seq<Clip>): (p: Clip)
    ensures |p| == TotalLength(clips) + |clips| * SilenceMs
  {
    if |clips| == 0 then [] else Playlist(clips[..|clips| - 1]) + (clips[|clips| - 1] + Silence)
  }

  /** Where the `i`-th clip starts in the playlist. */
  function Offset(clips: seq<Clip>, i: nat): nat
    requires i <= |clips|
  {
    TotalLength(clips[..i]) + i * SilenceMs
  }

  /** The `i`-th clip sits at its offset, intact and followed by the pause:
      the playlist keeps the order of the clips and loses or mixes nothing. */
  lemma {:induction false} PlaylistLayout(clips: seq<Clip>, i: nat)
    requires i < |clips|
    ensures Offset(clips, i) + |clips[i]| + SilenceMs <= |Playlist(clips)|
    ensures Playlist(clips)[Offset(clips, i)..Offset(clips, i) + |clips[i]|] == clips[i]
    ensures Playlist(clips)[Offset(clips, i) + |clips[i]|..Offset(clips, i) + |clips[i]| + SilenceMs] == Silence
    decreases |clips|
  {
    var init := clips[..|clips| - 1];
    var p := Playlist(clips);
    assert p == Playlist(init) + (clips[|clips| - 1] + Silence);
    if i == |clips| - 1 {
      assert clips[..i] == init;
    } else {
      PlaylistLayout(init, i);
      assert init[..i] == clips[..i];
      assert init[i] == clips[i];
      var q := Playlist(init);
      var o := Offset(clips, i);
      assert p[..|q|] == q;
      assert p[o..o + |clips[i]|] == q[o..o + |clips[i]|];
      assert p[o + |clips[i]|..o + |clips[i]| + SilenceMs] == q[o + |clips[i]|..o + |clips[i]| + SilenceMs];
    }
  }

  /** One turn of the assembly loop appends the next clip and the pause. */
  lemma PlaylistStep(m: map<Key, Clip>, sentences: seq<Sentence>, i: nat)
    requires i < |sentences|
    requires AllKeysPresent(m, sentences[..i]) && Sanitize(sentences[i]) in m
    ensures AllKeysPresent(m, sentences[..i + 1])
    ensures Playlist(ClipsFor(m, sentences[..i + 1]))
         == Playlist(ClipsFor(m, sentences[..i])) + (m[Sanitize(sentences[i])] + Silence)
  {
    var next := sentences[..i + 1];
    assert next[..i] == sentences[..i];
    assert AllKeysPresent(m, next) by {
      forall j | 0 <= j < |next|
        ensures Sanitize(next[j]) in m
      {
        if j < i {
          assert next[j] == sentences[..i][j];
        }
      }
    }
    var clips := ClipsFor(m, next);
    assert clips[..i] == ClipsFor(m, sentences[..i]);
  }

  /** The loop of the source: a missing key is the `KeyError` it would raise. */
  method CombineSegmentsForBlob(m: map<Key, Clip>, sentences: seq<Sentence>) returns (r: Result<Clip>)
    ensures |sentences| == 0 ==> r == Ok([])
    ensures r.Ok? <==> AllKeysPresent(m, sentences)
    ensures r.Ok? ==> r.value == Playlist(ClipsFor(m, sentences))
    ensures r.Ok? ==> |r.value| == TotalLength(ClipsFor(m, sentences)) + |sentences| * SilenceMs
    ensures r.Err? ==> exists i :: && 0 <= i < |sentences|
                                    && Sanitize(sentences[i]) !in m
                                    && r.error == MissingKey(Sanitize(sentences[i]))
                                    && AllKeysPresent(m, sentences[..i])
  {
    var playlist: Clip := [];
    var i := 0;
    while i < |sentences|
      invariant 0 <= i <= |sentences|
      invariant AllKeysPresent(m, sentences[..i])
      invariant playlist == Playlist(ClipsFor(m, sentences[..i]))
    {
      var key := Sanitize(sentences[i]);
      if key !in m {
        return Err(MissingKey(key));
      }
      PlaylistStep(m, sentences, i);
      playlist := playlist + (m[key] + Silence);
      i := i + 1;
    }
    assert sentences[..i] == sentences;
    return Ok(playlist);
  }
}
