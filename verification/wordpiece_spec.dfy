/**
 * Greedy longest-match-first WordPiece segmentation, as pure functions over a
 * vocabulary given as the set of strings it contains, with the properties the
 * tokenizer promises proved about them.
 */
module WordpieceSpec {
  import opened Wrappers
  import opened JavaStrings

  /** The mark put in front of every piece that does not start its word. */
  const ContinuationMarker: string := "##"

  /** The candidate looked up for `word[start..end]`: marked unless it starts the word. */
  function Piece(word: string, start: nat, end: nat): string
    requires start <= end <= |word|
  {
    if start > 0 then ContinuationMarker + word[start..end] else word[start..end]
  }

  /**
   * The inner search of the tokenizer: trying `end`, `end - 1`, ... down to
   * `start + 1`, the first (so the longest) candidate the vocabulary contains.
   */
  function LongestMatch(vocab: set<string>, word: string, start: nat, end: nat): (r: Option<nat>)
    requires start <= end <= |word|
    ensures r.Some? ==> start < r.value <= end && Piece(word, start, r.value) in vocab
    ensures r.Some? ==> forall e :: r.value < e <= end ==> Piece(word, start, e) !in vocab
    ensures r.None? ==> forall e :: start < e <= end ==> Piece(word, start, e) !in vocab
    decreases end - start
  {
    if start == end then None
    else if Piece(word, start, end) in vocab then Some(end)
    else LongestMatch(vocab, word, start, end - 1)
  }

  /**
   * The pieces of `word[start..]` under repeated longest matching, or None when
   * some cursor reached on the way has no candidate in the vocabulary.
   */
  function Segment(vocab: set<string>, word: string, start: nat): Option<seq<string>>
    requires start <= |word|
    decreases |word| - start
  {
    if start == |word| then Some([])
    else
      match LongestMatch(vocab, word, start, |word|)
      case None => None
      case Some(end) =>
        match Segment(vocab, word, end)
        case None => None
        case Some(rest) => Some([Piece(word, start, end)] + rest)
  }

  /** What one whitespace-delimited word contributes to the output. */
  function WordTokens(vocab: set<string>, unknown: string, maxInputChars: int, word: string): seq<string>
  {
    if |word| > maxInputChars then [unknown]
    else
      match Segment(vocab, word, 0)
      case None => [unknown]
      case Some(pieces) => pieces
  }

  /** The in-order concatenation of what each word contributes. */
  function TokenizeWords(vocab: set<string>, unknown: string, maxInputChars: int, words: seq<string>): seq<string>
  {
    if |words| == 0 then []
    else
      TokenizeWords(vocab, unknown, maxInputChars, words[..|words| - 1])
        + WordTokens(vocab, unknown, maxInputChars, words[|words| - 1])
  }

  /** The words of a sentence: `sentence.trim().split(" ")`. */
  function Words(sentence: string): seq<string>
  {
    Split(Trim(sentence))
  }

  /** The whole tokenization of a sentence. */
  function Tokenize(vocab: set<string>, unknown: string, maxInputChars: int, sentence: string): seq<string>
  {
    TokenizeWords(vocab, unknown, maxInputChars, Words(sentence))
  }

  // ---------------------------------------------------------------------------
  // Decoding: the partner of segmentation.
  // ---------------------------------------------------------------------------

  /** A continuation piece with its marker removed. */
  function Unmark(piece: string): string
  {
    if |piece| >= |ContinuationMarker| && piece[..|ContinuationMarker|] == ContinuationMarker
    then piece[|ContinuationMarker|..]
    else piece
  }

  /** The continuation pieces, unmarked and concatenated. */
  function JoinContinuations(pieces: seq<string>): string
  {
    if |pieces| == 0 then "" else Unmark(pieces[0]) + JoinContinuations(pieces[1..])
  }

  /** The word a piece list stands for: the first piece as it is, then the unmarked rest. */
  function Detokenize(pieces: seq<string>): string
  {
    if |pieces| == 0 then "" else pieces[0] + JoinContinuations(pieces[1..])
  }

  // ---------------------------------------------------------------------------
  // Properties of one word's segmentation.
  // ---------------------------------------------------------------------------

  /**
   * Every successful segmentation of `word[start..]` consists of pieces the
   * vocabulary contains, each consuming at least one char, so there are at
   * most as many pieces as chars.
   */
  lemma {:induction false} SegmentSound(vocab: set<string>, word: string, start: nat)
    requires start <= |word|
    requires Segment(vocab, word, start).Some?
    ensures forall p :: p in Segment(vocab, word, start).value ==> p in vocab
    ensures |Segment(vocab, word, start).value| <= |word| - start
    ensures start < |word| ==> |Segment(vocab, word, start).value| >= 1
    decreases |word| - start
  {
    if start < |word| {
      var end := LongestMatch(vocab, word, start, |word|).value;
      SegmentSound(vocab, word, end);
    }
  }

  /** A continuation piece: the marker followed by at least one char. */
  predicate Marked(piece: string)
  {
    |piece| > |ContinuationMarker| && piece[..|ContinuationMarker|] == ContinuationMarker
  }

  lemma PieceMarked(word: string, start: nat, end: nat)
    requires 0 < start < end <= |word|
    ensures Marked(Piece(word, start, end))
  {
    assert Piece(word, start, end) == ContinuationMarker + word[start..end];
  }

  /**
   * Every piece after the cursor's first is a marked continuation piece; so
   * is the first one when the cursor is not at the start of the word.
   */
  lemma {:induction false} SegmentContinuationsMarked(vocab: set<string>, word: string, start: nat)
    requires start <= |word|
    requires Segment(vocab, word, start).Some?
    ensures var pieces := Segment(vocab, word, start).value;
      forall k :: 0 <= k < |pieces| && (k > 0 || start > 0) ==> Marked(pieces[k])
    decreases |word| - start
  {
    if start < |word| {
      var end := LongestMatch(vocab, word, start, |word|).value;
      SegmentContinuationsMarked(vocab, word, end);
      var rest := Segment(vocab, word, end).value;
      var pieces := Segment(vocab, word, start).value;
      assert pieces == [Piece(word, start, end)] + rest;
      if start > 0 {
        PieceMarked(word, start, end);
      }
      forall k | 0 < k < |pieces|
        ensures Marked(pieces[k])
      {
        assert pieces[k] == rest[k - 1];
      }
    }
  }

  /** Unmarking and concatenating the pieces of `word[start..]` (start > 0) gives `word[start..]` back. */
  lemma {:induction false} JoinSegmentFrom(vocab: set<string>, word: string, start: nat)
    requires 0 < start <= |word|
    requires Segment(vocab, word, start).Some?
    ensures JoinContinuations(Segment(vocab, word, start).value) == word[start..]
    decreases |word| - start
  {
    if start < |word| {
      var end := LongestMatch(vocab, word, start, |word|).value;
      var rest := Segment(vocab, word, end).value;
      JoinSegmentFrom(vocab, word, end);
      var piece := Piece(word, start, end);
      assert piece == ContinuationMarker + word[start..end];
      assert Unmark(piece) == word[start..end];
      assert Segment(vocab, word, start).value == [piece] + rest;
      assert ([piece] + rest)[1..] == rest;
      assert word[start..] == word[start..end] + word[end..];
    }
  }

  /**
   * The first piece of a whole word's segmentation is the unmarked longest
   * prefix of the word that the vocabulary contains.
   */
  lemma FirstPieceLongestPrefix(vocab: set<string>, word: string)
    requires |word| > 0
    requires Segment(vocab, word, 0).Some?
    ensures var first := Segment(vocab, word, 0).value[0];
      && 0 < |first| <= |word| && first == word[..|first|] && first in vocab
      && forall e :: |first| < e <= |word| ==> word[..e] !in vocab
  {
    var end := LongestMatch(vocab, word, 0, |word|).value;
    assert Segment(vocab, word, 0).value[0] == Piece(word, 0, end) == word[..end];
    forall e | end < e <= |word|
      ensures word[..e] !in vocab
    {
      assert Piece(word, 0, e) == word[..e];
    }
  }

  /** Detokenizing the segmentation of a whole word gives the word back. */
  lemma {:induction false} SegmentRoundTrip(vocab: set<string>, word: string)
    requires Segment(vocab, word, 0).Some?
    ensures Detokenize(Segment(vocab, word, 0).value) == word
  {
    if |word| > 0 {
      var end := LongestMatch(vocab, word, 0, |word|).value;
      var rest := Segment(vocab, word, end).value;
      var pieces := Segment(vocab, word, 0).value;
      assert pieces == [word[..end]] + rest;
      assert pieces[1..] == rest;
      if end < |word| {
        JoinSegmentFrom(vocab, word, end);
      } else {
        assert rest == [];
      }
      assert word == word[..end] + word[end..];
    }
  }

  /**
   * Segmentation fails only because some cursor position in the word has no
   * candidate of any length in the vocabulary.
   */
  lemma {:induction false} SegmentFailure(vocab: set<string>, word: string, start: nat)
    requires start <= |word|
    requires Segment(vocab, word, start).None?
    ensures exists cursor :: start <= cursor < |word| && LongestMatch(vocab, word, cursor, |word|).None?
    decreases |word| - start
  {
    if LongestMatch(vocab, word, start, |word|).Some? {
      var end := LongestMatch(vocab, word, start, |word|).value;
      SegmentFailure(vocab, word, end);
    }
  }

  /** The one-char candidate at position `c` is in the vocabulary. */
  predicate CharKnownAt(vocab: set<string>, word: string, c: nat)
    requires c < |word|
  {
    Piece(word, c, c + 1) in vocab
  }

  /** When every single char is a candidate at its own position, segmentation cannot fail. */
  lemma {:induction false} SegmentSucceedsOnKnownChars(vocab: set<string>, word: string, start: nat)
    requires start <= |word|
    requires forall c :: start <= c < |word| ==> CharKnownAt(vocab, word, c)
    ensures Segment(vocab, word, start).Some?
    decreases |word| - start
  {
    if start < |word| {
      assert CharKnownAt(vocab, word, start);
      assert LongestMatch(vocab, word, start, |word|).Some?;
      var end := LongestMatch(vocab, word, start, |word|).value;
      SegmentSucceedsOnKnownChars(vocab, word, end);
    }
  }

  // ---------------------------------------------------------------------------
  // Segmenting cursor by cursor, as the tokenizer's loop does.
  // ---------------------------------------------------------------------------

  /** `done` followed by the pieces of a segmentation, if there is one. */
  function Prepend(done: seq<string>, r: Option<seq<string>>): (p: Option<seq<string>>)
    ensures p.Some? <==> r.Some?
  {
    match r
    case None => None
    case Some(rest) => Some(done + rest)
  }

  lemma SegmentBegin(vocab: set<string>, word: string)
    ensures Segment(vocab, word, 0) == Prepend([], Segment(vocab, word, 0))
  {
    if Segment(vocab, word, 0).Some? {
      assert [] + Segment(vocab, word, 0).value == Segment(vocab, word, 0).value;
    }
  }

  /**
   * With the pieces `done` emitted before cursor `start`, emitting the longest
   * match at `start` and moving the cursor to its end keeps the segmentation
   * of the whole word the same.
   */
  lemma SegmentAdvance(vocab: set<string>, word: string, done: seq<string>, start: nat, end: nat)
    requires start <= |word|
    requires Segment(vocab, word, 0) == Prepend(done, Segment(vocab, word, start))
    requires LongestMatch(vocab, word, start, |word|) == Some(end)
    ensures Segment(vocab, word, 0) == Prepend(done + [Piece(word, start, end)], Segment(vocab, word, end))
  {
    var piece := Piece(word, start, end);
    match Segment(vocab, word, end)
    case None =>
    case Some(rest) =>
      assert Segment(vocab, word, start) == Some([piece] + rest);
      assert done + ([piece] + rest) == (done + [piece]) + rest;
  }

  /** A cursor with no match makes the whole word fail to segment. */
  lemma SegmentStuck(vocab: set<string>, word: string, done: seq<string>, start: nat)
    requires start < |word|
    requires Segment(vocab, word, 0) == Prepend(done, Segment(vocab, word, start))
    requires LongestMatch(vocab, word, start, |word|).None?
    ensures Segment(vocab, word, 0).None?
  {
  }

  /** One failed candidate: the search goes on with the next shorter one. */
  lemma LongestMatchShorter(vocab: set<string>, word: string, start: nat, end: nat)
    requires start < end <= |word| && Piece(word, start, end) !in vocab
    ensures LongestMatch(vocab, word, start, end) == LongestMatch(vocab, word, start, end - 1)
  {
  }

  // ---------------------------------------------------------------------------
  // Properties of a word's contribution and of whole sentences.
  // ---------------------------------------------------------------------------

  /**
   * A word contributes the single placeholder when it is too long or cannot
   * be segmented, and otherwise exactly its pieces, which are all in the
   * vocabulary and detokenize to the word.
   */
  lemma WordTokensCases(vocab: set<string>, unknown: string, maxInputChars: int, word: string)
    ensures var r := WordTokens(vocab, unknown, maxInputChars, word);
      && (|word| > maxInputChars ==> r == [unknown])
      && (|word| <= maxInputChars && Segment(vocab, word, 0).None? ==> r == [unknown])
      && (|word| <= maxInputChars && Segment(vocab, word, 0).Some? ==>
            r == Segment(vocab, word, 0).value && Detokenize(r) == word
            && |r| <= |word| && forall p :: p in r ==> p in vocab)
  {
    if |word| <= maxInputChars && Segment(vocab, word, 0).Some? {
      SegmentSound(vocab, word, 0);
      SegmentRoundTrip(vocab, word);
    }
  }

  /** With a non-negative char limit, an empty word (two spaces in a row, a blank sentence) contributes nothing. */
  lemma EmptyWordContributesNothing(vocab: set<string>, unknown: string, maxInputChars: int)
    requires maxInputChars >= 0
    ensures WordTokens(vocab, unknown, maxInputChars, "") == []
  {
  }

  /** Every emitted token is either in the vocabulary or the placeholder. */
  lemma {:induction false} TokenizeWordsKnown(vocab: set<string>, unknown: string, maxInputChars: int, words: seq<string>)
    ensures forall t :: t in TokenizeWords(vocab, unknown, maxInputChars, words) ==> t in vocab || t == unknown
  {
    if |words| > 0 {
      TokenizeWordsKnown(vocab, unknown, maxInputChars, words[..|words| - 1]);
      var word := words[|words| - 1];
      if |word| <= maxInputChars && Segment(vocab, word, 0).Some? {
        SegmentSound(vocab, word, 0);
      }
    }
  }

  /** Tokenizing a sequence of words distributes over concatenation of the words. */
  lemma {:induction false} TokenizeWordsAppend(vocab: set<string>, unknown: string, maxInputChars: int, front: seq<string>, back: seq<string>)
    ensures TokenizeWords(vocab, unknown, maxInputChars, front + back)
      == TokenizeWords(vocab, unknown, maxInputChars, front) + TokenizeWords(vocab, unknown, maxInputChars, back)
    decreases |back|
  {
    if |back| > 0 {
      var init := back[..|back| - 1];
      assert (front + back)[..|front + back| - 1] == front + init;
      assert (front + back)[|front + back| - 1] == back[|back| - 1];
      TokenizeWordsAppend(vocab, unknown, maxInputChars, front, init);
    } else {
      assert front + back == front;
    }
  }

  /** One more word: its tokens follow those of the words before it. */
  lemma TokenizeWordsSnoc(vocab: set<string>, unknown: string, maxInputChars: int, words: seq<string>, w: nat)
    requires w < |words|
    ensures TokenizeWords(vocab, unknown, maxInputChars, words[..w + 1])
      == TokenizeWords(vocab, unknown, maxInputChars, words[..w]) + WordTokens(vocab, unknown, maxInputChars, words[w])
  {
    assert words[..w + 1][..w] == words[..w];
  }

  /** Every token of a tokenized sentence is either in the vocabulary or the placeholder. */
  lemma TokenizeKnown(vocab: set<string>, unknown: string, maxInputChars: int, sentence: string)
    ensures forall t :: t in Tokenize(vocab, unknown, maxInputChars, sentence) ==> t in vocab || t == unknown
  {
    TokenizeWordsKnown(vocab, unknown, maxInputChars, Words(sentence));
  }

  /** A sentence of trimmable chars only tokenizes to nothing when the char limit is non-negative. */
  lemma TokenizeBlank(vocab: set<string>, unknown: string, maxInputChars: int, sentence: string)
    requires maxInputChars >= 0
    requires forall k :: 0 <= k < |sentence| ==> IsTrimmable(sentence[k])
    ensures Tokenize(vocab, unknown, maxInputChars, sentence) == []
  {
    TrimAllTrimmable(sentence);
    assert Words(sentence) == [""];
    assert [""][..0] == [];
    assert Segment(vocab, "", 0) == Some([]);
    assert WordTokens(vocab, unknown, maxInputChars, "") == [];
    assert TokenizeWords(vocab, unknown, maxInputChars, [""])
      == TokenizeWords(vocab, unknown, maxInputChars, []) + WordTokens(vocab, unknown, maxInputChars, "");
  }

  // ---------------------------------------------------------------------------
  // The two scenarios around the word "maker".
  // ---------------------------------------------------------------------------

  /** With "make" and "##r" known (but neither "maker" nor "##ker"), "maker" splits into two pieces. */
  lemma MakerSplits()
    ensures WordTokens({"make", "##r", "[UNK]"}, "[UNK]", 200, "maker") == ["make", "##r"]
  {
    var vocab := {"make", "##r", "[UNK]"};
    var word := "maker";
    assert Piece(word, 0, 5) == "maker" && Piece(word, 0, 4) == "make";
    assert LongestMatch(vocab, word, 0, 5) == Some(4);
    assert Piece(word, 4, 5) == "##r";
    assert LongestMatch(vocab, word, 4, 5) == Some(5);
    assert Segment(vocab, word, 5) == Some([]);
    assert Segment(vocab, word, 4) == Some(["##r"] + []);
  }

  /** Without "##r", the piece "make" is found but "r" cannot be matched, so the whole word is unknown. */
  lemma MakerUnknown()
    ensures WordTokens({"make", "[UNK]"}, "[UNK]", 200, "maker") == ["[UNK]"]
  {
    var vocab := {"make", "[UNK]"};
    var word := "maker";
    assert Piece(word, 0, 5) == "maker" && Piece(word, 0, 4) == "make";
    assert LongestMatch(vocab, word, 0, 5) == Some(4);
    assert Piece(word, 4, 5) == "##r";
    assert LongestMatch(vocab, word, 4, 4) == None;
    assert LongestMatch(vocab, word, 4, 5) == None;
  }
}
