/**
 * The WordPiece tokenizer over a built vocabulary: splitting a sentence into
 * words and each word, greedily and longest match first, into vocabulary
 * pieces, and mapping tokens to their ids.
 */
module WordpieceTokenizers {
  import opened Wrappers
  import opened JavaStrings
  import opened WordpieceSpec
  import opened Vocabularies

  class WordpieceTokenizer {
    /** The token emitted for a word that is too long or cannot be segmented. */
    const unknown: string
    /** Words longer than this many chars are emitted as `unknown`. */
    const maxInputChars: Int32
    const vocabulary: Vocabulary

    constructor (vocabulary: Vocabulary, unknown: string, maxInputChars: Int32)
      ensures this.vocabulary == vocabulary && this.unknown == unknown && this.maxInputChars == maxInputChars
    {
      this.unknown := unknown;
      this.maxInputChars := maxInputChars;
      this.vocabulary := vocabulary;
    }

    /**
     * `tokenize`: the words of the trimmed sentence, each replaced by its
     * greedy longest-match segmentation, or by `unknown` when it is longer
     * than `maxInputChars` or some position in it has no vocabulary piece.
     */
    method Tokenize(sentence: string) returns (outputTokens: seq<string>)
      requires vocabulary.Valid()
      ensures outputTokens == WordpieceSpec.Tokenize(vocabulary.tokens.Keys, unknown, maxInputChars, sentence)
    {
      ghost var vocab := vocabulary.tokens.Keys;
      outputTokens := [];
      var strings := Split(Trim(sentence));
      assert strings == Words(sentence);
      for w := 0 to |strings|
        invariant outputTokens == TokenizeWords(vocab, unknown, maxInputChars, strings[..w])
      {
        var wordTokens := TokenizeWord(strings[w]);
        TokenizeWordsSnoc(vocab, unknown, maxInputChars, strings, w);
        outputTokens := outputTokens + wordTokens;
      }
      assert strings[..|strings|] == strings;
    }

    /**
     * The body of `tokenize`'s loop over words: what one word contributes.
     * The "too many sub-tokens" exception cannot be reached: a word of at
     * most `maxInputChars` chars has at most that many pieces.
     */
    method TokenizeWord(token: string) returns (wordTokens: seq<string>)
      requires vocabulary.Valid()
      ensures wordTokens == WordTokens(vocabulary.tokens.Keys, unknown, maxInputChars, token)
    {
      var chars := token;
      if |chars| > maxInputChars {
        return [unknown];
      }
      ghost var vocab := vocabulary.tokens.Keys;
      var isBad := false;
      var start := 0;
      var subTokens: seq<string> := [];
      SegmentBegin(vocab, chars);
      while start < |chars|
        invariant 0 <= start <= |chars|
        invariant !isBad && |subTokens| <= start
        invariant Segment(vocab, chars, 0) == Prepend(subTokens, Segment(vocab, chars, start))
      {
        var end, currentSubString := LongestSubString(chars, start);
        if currentSubString.None? {
          SegmentStuck(vocab, chars, subTokens, start);
          isBad := true;
          break;
        }
        SegmentAdvance(vocab, chars, subTokens, start, end);
        subTokens := subTokens + [currentSubString.value];
        assert |subTokens| <= maxInputChars;
        start := end;
      }
      if isBad {
        wordTokens := [unknown];
      } else {
        assert subTokens + [] == subTokens;
        wordTokens := subTokens;
      }
    }

    /**
     * The inner loop of `tokenize`: from `end = |chars|` down, the first
     * candidate `chars[start..end]` (marked with "##" past the word's first
     * char) the vocabulary contains, or None if there is none.
     */
    method LongestSubString(chars: string, start: nat) returns (end: nat, currentSubString: Option<string>)
      requires vocabulary.Valid() && start < |chars|
      ensures currentSubString.None? <==> LongestMatch(vocabulary.tokens.Keys, chars, start, |chars|).None?
      ensures currentSubString.Some? ==>
        && LongestMatch(vocabulary.tokens.Keys, chars, start, |chars|) == Some(end)
        && currentSubString.value == Piece(chars, start, end)
    {
      ghost var vocab := vocabulary.tokens.Keys;
      end := |chars|;
      currentSubString := None;
      while start < end
        invariant start <= end <= |chars|
        invariant LongestMatch(vocab, chars, start, |chars|) == LongestMatch(vocab, chars, start, end)
        invariant currentSubString.None?
      {
        var subString := chars[start..end];
        if start > 0 {
          subString := "##" + subString;
        }
        assert subString == Piece(chars, start, end);
        if vocabulary.Contains(subString) {
          currentSubString := Some(subString);
          return;
        }
        LongestMatchShorter(vocab, chars, start, end);
        end := end - 1;
      }
    }

    /**
     * `tokenToIds`: the index of every token in turn. A lookup that throws
     * aborts the whole conversion; the first such token decides the error.
     */
    method TokenToIds(tokens: seq<string>) returns (r: Result<array<int>, VocabError>)
      requires vocabulary.Valid()
      ensures r.Success? <==> forall i :: 0 <= i < |tokens| ==> vocabulary.GetIndex(tokens[i]).Success?
      ensures r.Success? ==>
        && fresh(r.value) && r.value.Length == |tokens|
        && forall i :: 0 <= i < |tokens| ==> r.value[i] == vocabulary.GetIndex(tokens[i]).value
      ensures r.Failure? ==> exists k :: 0 <= k < |tokens| && vocabulary.GetIndex(tokens[k]) == Failure(r.error) &&
                                           forall i :: 0 <= i < k ==> vocabulary.GetIndex(tokens[i]).Success?
    {
      var idArray := new int[|tokens|];
      for i := 0 to |tokens|
        invariant forall j :: 0 <= j < i ==> vocabulary.GetIndex(tokens[j]).Success?
        invariant forall j :: 0 <= j < i ==> idArray[j] == vocabulary.GetIndex(tokens[j]).value
      {
        var index := vocabulary.GetIndex(tokens[i]);
        if index.Failure? {
          return Failure(index.error);
        }
        idArray[i] := index.value;
      }
      return Success(idArray);
    }
  }
}
