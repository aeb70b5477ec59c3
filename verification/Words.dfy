/**
 * The token pipeline of node.py: `filter_words`, the normalisation
 * `word.lower().strip()`, `WordTransformer.word_transformer` and the list
 * comprehension inside `node_sum_sent`.
 *
 * The NLTK tokenizer, the WordNet lemmatizer and the NLTK stop-word list are
 * parameters. Letters, case and white space are those of ASCII.
 */
module Words {
  /** `string.punctuation`. */
  const Punctuation: set<char> := {
    '!', '"', '#', '$', '%', '&', '\'', '(', ')', '*', '+', ',', '-', '.', '/', ':', ';', '<', '=', '>',
    '?', '@', '[', '\\', ']', '^', '_', '`', '{', '|', '}', '~'
  }

  /** Membership in `punctuation_set = set(punctuation)`, whose elements are the one-character strings of `Punctuation`. */
  predicate InPunctuationSet(word: string) {
    |word| == 1 && word[0] in Punctuation
  }

  predicate IsLetter(ch: char) {
    'a' <= ch <= 'z' || 'A' <= ch <= 'Z'
  }

  /** `str.isalpha`: non-empty and letters only. */
  predicate IsAlpha(w: string) {
    |w| > 0 && forall k :: 0 <= k < |w| ==> IsLetter(w[k])
  }

  /** `filter_words(word, abandoned_words)` (node.py:104-112), with the stop words as a parameter. */
  predicate FilterWords(word: string, abandoned: set<string>, stopWords: set<string>) {
    word != ""
    && !InPunctuationSet(word)
    && word !in stopWords
    && |word| > 2
    && word !in abandoned
    && IsAlpha(word)
  }

  /**
   * A token is kept exactly when it has more than two characters, all of them
   * letters, and is neither a stop word nor abandoned: the emptiness and
   * punctuation tests never decide anything on their own.
   */
  lemma FilterWordsMeaning(word: string, abandoned: set<string>, stopWords: set<string>)
    ensures FilterWords(word, abandoned, stopWords)
            <==> |word| > 2 && IsAlpha(word) && word !in stopWords && word !in abandoned
  {
  }

  /** The cases of tests/test_node.py:70-75. */
  lemma FilterWordsExamples(stopWords: set<string>)
    requires "hello" !in stopWords
    ensures FilterWords("hello", {"example"}, stopWords)
    ensures !FilterWords("a", {"example"}, stopWords)
    ensures !FilterWords("!", {"example"}, stopWords)
    ensures !FilterWords("example", {"example"}, stopWords)
  {
  }

  predicate IsUpper(ch: char) {
    'A' <= ch <= 'Z'
  }

  function LowerChar(ch: char): char {
    if IsUpper(ch) then (ch as int + 32) as char else ch
  }

  /** `str.lower`. */
  function Lower(w: string): (r: string)
    ensures |r| == |w| && forall k :: 0 <= k < |w| ==> r[k] == LowerChar(w[k])
  {
    if w == [] then [] else [LowerChar(w[0])] + Lower(w[1..])
  }

  /** The characters `str.isspace` accepts: space, tab to carriage return, and the four separators 0x1C-0x1F. */
  predicate IsSpace(ch: char) {
    ch == ' ' || 9 <= ch as int <= 13 || 28 <= ch as int <= 31
  }

  function StripStart(w: string): (r: string)
    ensures |r| <= |w| && r == w[|w| - |r|..]
    ensures r == [] || !IsSpace(r[0])
  {
    if w != [] && IsSpace(w[0]) then StripStart(w[1..]) else w
  }

  function StripEnd(w: string): (r: string)
    ensures |r| <= |w| && r == w[..|r|]
    ensures r == [] || !IsSpace(r[|r| - 1])
  {
    if w != [] && IsSpace(w[|w| - 1]) then StripEnd(w[..|w| - 1]) else w
  }

  /** `str.strip()`. */
  function Strip(w: string): string {
    StripEnd(StripStart(w))
  }

  /** `word.lower().strip()`. */
  function Normalize(w: string): string {
    Strip(Lower(w))
  }

  /** `WordTransformer.word_transformer` (node.py:118-121) over a lemmatizer; the `lru_cache` changes no result. */
  function WordTransformer(lemmatize: string -> string, w: string): string {
    lemmatize(Normalize(w))
  }

  /**
   * The list comprehension of `node_sum_sent` (node.py:129-133): a word is kept when
   * its normalised form passes `filter_words`, and what is kept is the transformer
   * applied to the word as the tokenizer gave it.
   */
  function SentenceTokens(words: seq<string>, abandoned: set<string>, stopWords: set<string>,
                          transform: string -> string): (r: seq<string>)
    ensures |r| <= |words|
  {
    if words == [] then []
    else
      (if FilterWords(Normalize(words[0]), abandoned, stopWords) then [transform(words[0])] else [])
      + SentenceTokens(words[1..], abandoned, stopWords, transform)
  }

  lemma LowerCharNotUpper(ch: char)
    ensures !IsUpper(LowerChar(ch))
  {
  }

  /** Lower-casing leaves nothing to lower-case. */
  lemma LowerHasNoUpper(w: string)
    ensures forall k :: 0 <= k < |Lower(w)| ==> !IsUpper(Lower(w)[k])
  {
    forall k | 0 <= k < |w| ensures !IsUpper(Lower(w)[k]) {
      LowerCharNotUpper(w[k]);
    }
  }

  lemma {:induction false} LowerOfLowered(w: string)
    requires forall k :: 0 <= k < |w| ==> !IsUpper(w[k])
    ensures Lower(w) == w
  {
  }

  /** Stripping takes a slice of the word. */
  lemma StripIsSlice(w: string)
    ensures var i := |w| - |StripStart(w)|;
            i + |Strip(w)| <= |w| && Strip(w) == w[i..i + |Strip(w)|]
  {
  }

  /** Stripping a word that neither starts nor ends with white space changes nothing. */
  lemma StripStable(w: string)
    requires w == [] || (!IsSpace(w[0]) && !IsSpace(w[|w| - 1]))
    ensures Strip(w) == w
  {
  }

  lemma NoUpperInSlice(w: string, i: nat, j: nat)
    requires i <= j <= |w| && forall k :: 0 <= k < |w| ==> !IsUpper(w[k])
    ensures forall k :: 0 <= k < j - i ==> !IsUpper(w[i..j][k])
  {
    forall k | 0 <= k < j - i ensures !IsUpper(w[i..j][k]) {
      assert w[i..j][k] == w[i + k];
    }
  }

  /** A normalised word has no upper-case letter. */
  lemma NormalizedHasNoUpper(w: string)
    ensures forall k :: 0 <= k < |Normalize(w)| ==> !IsUpper(Normalize(w)[k])
  {
    var low := Lower(w);
    LowerHasNoUpper(w);
    StripIsSlice(low);
    var i := |low| - |StripStart(low)|;
    NoUpperInSlice(low, i, i + |Strip(low)|);
  }

  /** A normalised word neither starts nor ends with white space. */
  lemma NormalizedIsStripped(w: string)
    ensures var n := Normalize(w); n == [] || (!IsSpace(n[0]) && !IsSpace(n[|n| - 1]))
  {
    var a := StripStart(Lower(w));
    var n := StripEnd(a);
    assert n != [] ==> n[0] == a[0];
  }

  /** Normalising twice is normalising once. */
  lemma NormalizeIdempotent(w: string)
    ensures Normalize(Normalize(w)) == Normalize(w)
  {
    var n := Normalize(w);
    NormalizedHasNoUpper(w);
    LowerOfLowered(n);
    NormalizedIsStripped(w);
    StripStable(n);
  }

  /**
   * The lemmatizer only ever sees normalised words, so a word and its normalised
   * form are transformed alike: the result is a function of `word.lower().strip()`.
   */
  lemma WordTransformerNormalizes(lemmatize: string -> string, w: string)
    ensures WordTransformer(lemmatize, Normalize(w)) == WordTransformer(lemmatize, w)
  {
    NormalizeIdempotent(w);
  }

  /**
   * With the identity as lemmatizer the transformer is `Normalize` (`WordTransformer(x => x, w)`
   * is `Normalize(w)`), and then every token handed to `node_sum` is a word that passes
   * `filter_words`: the filter tests the normalised word, and that is what the
   * transformer returns.
   */
  lemma {:induction false} SentenceTokensFiltered(words: seq<string>, abandoned: set<string>, stopWords: set<string>, k: nat)
    requires k < |SentenceTokens(words, abandoned, stopWords, Normalize)|
    ensures FilterWords(SentenceTokens(words, abandoned, stopWords, Normalize)[k], abandoned, stopWords)
    decreases |words|
  {
    var rest := SentenceTokens(words[1..], abandoned, stopWords, Normalize);
    var r := SentenceTokens(words, abandoned, stopWords, Normalize);
    if FilterWords(Normalize(words[0]), abandoned, stopWords) {
      assert r == [Normalize(words[0])] + rest;
      if k > 0 {
        SentenceTokensFiltered(words[1..], abandoned, stopWords, k - 1);
        assert r[k] == rest[k - 1];
      }
    } else {
      assert r == rest;
      SentenceTokensFiltered(words[1..], abandoned, stopWords, k);
    }
  }

  lemma AppendAssoc<T>(a: seq<T>, b: seq<T>, c: seq<T>)
    ensures a + (b + c) == (a + b) + c
  {
  }

  /**
   * The comprehension keeps order: the tokens of two runs of words are the tokens
   * of the first run followed by those of the second, whatever the transformer.
   */
  lemma {:induction false} SentenceTokensConcat(xs: seq<string>, ys: seq<string>, abandoned: set<string>,
                                                stopWords: set<string>, transform: string -> string)
    ensures SentenceTokens(xs + ys, abandoned, stopWords, transform)
            == SentenceTokens(xs, abandoned, stopWords, transform) + SentenceTokens(ys, abandoned, stopWords, transform)
    decreases |xs|
  {
    if xs == [] {
      assert xs + ys == ys;
    } else {
      var rest := xs[1..] + ys;
      assert (xs + ys)[0] == xs[0] && (xs + ys)[1..] == rest;
      SentenceTokensConcat(xs[1..], ys, abandoned, stopWords, transform);
      var a, b := SentenceTokens(xs[1..], abandoned, stopWords, transform), SentenceTokens(ys, abandoned, stopWords, transform);
      if FilterWords(Normalize(xs[0]), abandoned, stopWords) {
        AppendAssoc([transform(xs[0])], a, b);
      }
    }
  }

  /**
   * A token reaches `node_sum` exactly when some tokenized word's normalised form
   * passes `filter_words` and the transformer turns that word into the token.
   */
  lemma {:induction false} SentenceTokensMember(words: seq<string>, abandoned: set<string>, stopWords: set<string>,
                                                transform: string -> string, t: string)
    ensures t in SentenceTokens(words, abandoned, stopWords, transform)
            <==> exists i :: 0 <= i < |words| && FilterWords(Normalize(words[i]), abandoned, stopWords) && t == transform(words[i])
    decreases |words|
  {
    if words != [] {
      SentenceTokensMember(words[1..], abandoned, stopWords, transform, t);
      if exists i :: 0 <= i < |words| && FilterWords(Normalize(words[i]), abandoned, stopWords) && t == transform(words[i]) {
        var i :| 0 <= i < |words| && FilterWords(Normalize(words[i]), abandoned, stopWords) && t == transform(words[i]);
        if i > 0 {
          assert words[1..][i - 1] == words[i];
        }
      }
      if exists i :: 0 <= i < |words| - 1 && FilterWords(Normalize(words[1..][i]), abandoned, stopWords) && t == transform(words[1..][i]) {
        var i :| 0 <= i < |words| - 1 && FilterWords(Normalize(words[1..][i]), abandoned, stopWords) && t == transform(words[1..][i]);
        assert words[i + 1] == words[1..][i];
      }
    }
  }

  /** When every word passes the filter, the tokens are the transformed words, one per word and in order. */
  lemma {:induction false} SentenceTokensAllKept(words: seq<string>, abandoned: set<string>, stopWords: set<string>,
                                                 transform: string -> string)
    requires forall k :: 0 <= k < |words| ==> FilterWords(Normalize(words[k]), abandoned, stopWords)
    ensures var r := SentenceTokens(words, abandoned, stopWords, transform);
            |r| == |words| && forall k :: 0 <= k < |words| ==> r[k] == transform(words[k])
    decreases |words|
  {
    if words != [] {
      SentenceTokensAllKept(words[1..], abandoned, stopWords, transform);
      assert FilterWords(Normalize(words[0]), abandoned, stopWords);
    }
  }

  lemma LowerCharOfLetter(ch: char)
    requires IsLetter(ch)
    ensures IsLetter(LowerChar(ch)) && !IsSpace(LowerChar(ch))
  {
  }

  /** Lower-casing an alphabetic word gives an alphabetic word. */
  lemma LowerOfAlpha(w: string)
    requires IsAlpha(w)
    ensures IsAlpha(Lower(w))
  {
    forall k | 0 <= k < |w| ensures IsLetter(Lower(w)[k]) {
      LowerCharOfLetter(w[k]);
    }
  }

  /**
   * An alphabetic word of more than two letters whose lower-cased form is neither
   * a stop word nor abandoned normalises to that form and is kept: tests/test_node.py:78-87
   * relies on this for "Hello" and "world".
   */
  lemma AlphaWordKept(w: string, abandoned: set<string>, stopWords: set<string>)
    requires |w| > 2 && IsAlpha(w) && Lower(w) !in stopWords && Lower(w) !in abandoned
    ensures Normalize(w) == Lower(w) && FilterWords(Normalize(w), abandoned, stopWords)
  {
    var low := Lower(w);
    LowerOfAlpha(w);
    LowerCharOfLetter(w[0]);
    LowerCharOfLetter(w[|w| - 1]);
    StripStable(low);
    FilterWordsMeaning(low, abandoned, stopWords);
  }
}
