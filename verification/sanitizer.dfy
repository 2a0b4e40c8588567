/** The sanitizer: the canonical form of a sentence that is used both as the
    cache key and as the body of the synthesis request (main.py:77-78).

    Every newline of the sentence text is replaced by ". ".  The UTF-8
    encoding that follows the rewrite is modelled as the identity, so a key
    is the rewritten text itself: a Dafny string holds only Unicode scalar
    values, on which the encoding is total and injective.
 */
module Sanitizer {

  /** One sentence as handed over by the sentence splitter. */
  type Sentence = string

  /** A sanitized sentence: cache key and synthesis payload at once. */
  type Key = string

  /** What one character of the input becomes in the output. */
  function Expand(c: char): string
  {
    if c == '\n' then ". " else [c]
  }

  /** The number of newline characters in `s`. */
  function CountNewlines(s: string): nat
  {
    if |s| == 0 then 0 else (if s[0] == '\n' then 1 else 0) + CountNewlines(s[1..])
  }

  predicate NewlineFree(s: string)
  {
    forall i :: 0 <= i < |s| ==> s[i] != '\n'
  }

  /** Replaces every newline by ". ", scanning from the left (main.py:78). */
  function Sanitize(s: Sentence): (k: Key)
    ensures NewlineFree(k)
    ensures |k| == |s| + CountNewlines(s)
  {
    if |s| == 0 then [] else Expand(s[0]) + Sanitize(s[1..])
  }

  /** Sanitizing distributes over concatenation. */
  lemma {:induction false} SanitizeAppend(a: string, b: string)
    ensures Sanitize(a + b) == Sanitize(a) + Sanitize(b)
    decreases |a|
  {
    if |a| == 0 {
      assert a + b == b;
    } else {
      assert (a + b)[1..] == a[1..] + b;
      SanitizeAppend(a[1..], b);
    }
  }

  /** Each character is rewritten in place: the text before position `i`,
      the character at `i` and the text after it are sanitized separately and
      laid end to end, so a newline at `i` becomes exactly ". " there. */
  lemma SanitizeAt(s: string, i: nat)
    requires i < |s|
    ensures Sanitize(s) == Sanitize(s[..i]) + Expand(s[i]) + Sanitize(s[i + 1..])
    ensures s[i] == '\n' ==> Sanitize(s)[|Sanitize(s[..i])|..|Sanitize(s[..i])| + 2] == ". "
  {
    assert s == s[..i] + ([s[i]] + s[i + 1..]);
    SanitizeAppend(s[..i], [s[i]] + s[i + 1..]);
    SanitizeAppend([s[i]], s[i + 1..]);
    assert [s[i]][1..] == [];
  }

  /** Sanitizing leaves a text unchanged exactly when it holds no newline. */
  lemma {:induction false} SanitizeFixedPoint(s: string)
    ensures Sanitize(s) == s <==> NewlineFree(s)
    decreases |s|
  {
    if |s| > 0 && NewlineFree(s) {
      assert NewlineFree(s[1..]) by {
        forall i | 0 <= i < |s[1..]|
          ensures s[1..][i] != '\n'
        {
          assert s[1..][i] == s[i + 1];
        }
      }
      SanitizeFixedPoint(s[1..]);
      assert s == [s[0]] + s[1..];
    }
  }

  /** Applying the sanitizer twice gives the same key as applying it once. */
  lemma SanitizeIdempotent(s: string)
    ensures Sanitize(Sanitize(s)) == Sanitize(s)
  {
    SanitizeFixedPoint(Sanitize(s));
  }

  /** The sanitizer is not injective: a newline and a literal ". " in the same
      place give the same key, so such sentences share a cache entry and a clip. */
  lemma SanitizeMergesNewline(a: string, b: string)
    ensures a + "\n" + b != a + ". " + b
    ensures Sanitize(a + "\n" + b) == Sanitize(a + ". " + b)
  {
    assert |a + "\n" + b| != |a + ". " + b|;
    assert Sanitize("\n") == ". " by {
      assert "\n"[1..] == [];
    }
    assert Sanitize(". ") == ". " by {
      assert ". "[1..] == " " && " "[1..] == [];
    }
    SanitizeAppend(a + "\n", b);
    SanitizeAppend(a, "\n");
    SanitizeAppend(a + ". ", b);
    SanitizeAppend(a, ". ");
  }
}
