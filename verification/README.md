# WordPiece vocabulary and tokenizer, modelled in Dafny

This project models the text front end of onnx-java-quickstart, which turns a sentence into the token ids a BERT-style ONNX model expects. It has two parts.

- **`Vocabulary`** is built from a `Builder` configuration: accumulated sentences, reserved tokens, an optional unknown token, `minFrequency` and `maxTokens`.
  - It counts every token, saturating at `Integer.MAX_VALUE`, and numbers the tokens in first-seen order.
  - The reserved tokens, the unknown token among them, are pinned to the maximal frequency and appended after the sentence tokens.
  - Pruning drops rare tokens and then keeps the `maxTokens` most frequent ones. If anything was pruned, the indices are re-densified in their original order.
  - The lookups `contains`, `getToken`, `getIndex` and `size` read the result. Its invariant is that the index list is the exact inverse of the token map, dense over `0..size-1`.
- **`WordpieceTokenizer`** trims the sentence and splits it on single spaces.
  - A word longer than `maxInputChars` becomes the unknown placeholder.
  - Otherwise the word is cut greedily, longest match first, into vocabulary pieces. Every piece after the first carries the `##` marker.
  - A word with a position that matches nothing becomes the placeholder as a whole.
  - `tokenToIds` maps tokens through `getIndex`.

Modules:

| module | file | what it holds |
|---|---|---|
| `Wrappers` | `wrappers.dfy` | `Option` and `Result` |
| `JavaStrings` | `java_strings.dfy` | `String.trim()` and `String.split(" ")` |
| `VocabularySpec` | `vocabulary_spec.dfy` | the builder record, and what counting, ordering and pruning must produce, as functions and predicates with lemmas |
| `Vocabularies` | `vocabulary.dfy` | the `Vocabulary` class (its construction methods are imperative, its lookups are functions), `build()`, and the list constructor |
| `WordpieceSpec` | `wordpiece_spec.dfy` | greedy segmentation as functions, with soundness, greediness, round trip and failure lemmas |
| `WordpieceTokenizers` | `wordpiece_tokenizer.dfy` | the `WordpieceTokenizer` class, whose loops are proved equal to `WordpieceSpec` |

Where the source leaves a choice open, the model leaves it open too:
- the iteration order of the reserved-token set and of the concurrent hash map;
- which tokens survive a frequency tie at the `maxTokens` cut.

The loops pick with `:|`, and the contracts hold for every choice.

## Model

| member | source | states |
|---|---|---|
| Vocabularies.Vocabulary.constructor | src/main/java/Vocabulary.java:35-58 | the index list is the exact inverse of the token map; the reserved set gains the unknown token; every kept token has its configured frequency; the kept tokens are what pruning allows; indices follow first-seen order; unpruned, the list is the distinct sentence tokens then the unseen reserved tokens |
| Vocabularies.Vocabulary.CollectTokens | src/main/java/Vocabulary.java:42-52 | after the two adding passes and pruning, the map is what the configuration prescribes and `pruned` is reported exactly when pruning applied; unpruned, the map is listed by the first-seen order |
| Vocabularies.Vocabulary.AddSentences | src/main/java/Vocabulary.java:42-46 | the map equals adding every sentence token in order, one `addToken` at a time |
| Vocabularies.Vocabulary.AddReservedTokens | src/main/java/Vocabulary.java:47-50 | in any iteration order, the map holds the sentence tokens plus all reserved ones; reserved tokens have the maximal frequency, others their saturated counts; listed by index they are the first-seen tokens then the reserved tokens not seen in a sentence |
| Vocabularies.Vocabulary.AddToken | src/main/java/Vocabulary.java:60-79 | the new map is one application of the `addToken` rule (see `AddedIndexRule`) |
| Vocabularies.Vocabulary.PruneTokens | src/main/java/Vocabulary.java:90-116 | removes exactly the tokens below `minFrequency` (when above 1); when more than `maxSize` remain (and `maxSize` > 0), keeps `maxSize` of them, none less frequent than a removed one; the result says whether either step applied |
| Vocabularies.Vocabulary.DropRareTokens | src/main/java/Vocabulary.java:93-100 | with `minFrequency` > 1, the map becomes exactly its entries of frequency at least `minFrequency`, unchanged |
| Vocabularies.Vocabulary.DropLeastFrequent | src/main/java/Vocabulary.java:103-114 | when more than `maxSize` > 0 tokens remain, keeps `maxSize` of the entries unchanged, none less frequent than a removed one |
| Vocabularies.Vocabulary.InitializeIndexToTokenKeepingIndices | src/main/java/Vocabulary.java:123-128 | given the order the indices already describe, the index list becomes that order and the vocabulary is valid |
| Vocabularies.Vocabulary.SortedByIndex | src/main/java/Vocabulary.java:137-142 | lists every token once, by ascending original index |
| Vocabularies.Vocabulary.InitializeIndexToTokenReplacingIndices | src/main/java/Vocabulary.java:136-146 | the vocabulary becomes valid with indices `0..size-1`; keys and frequencies are unchanged; the relative order of indices is preserved; already dense indices are left as they were |
| Vocabularies.Vocabulary.Contains | src/main/java/Vocabulary.java:150-152 | true exactly when some index maps to the token |
| Vocabularies.Vocabulary.Size | src/main/java/Vocabulary.java:180-182 | the number of tokens equals the length of the index list |
| Vocabularies.Vocabulary.GetToken | src/main/java/Vocabulary.java:156-161 | in range, the token whose index is the argument; out of range, the unknown token (possibly none) |
| Vocabularies.Vocabulary.GetIndex | src/main/java/Vocabulary.java:165-176 | a contained token's own index, round-tripping through `GetToken`; otherwise the unknown token's index, or an error when no unknown token is set or it is absent from the map |
| Vocabularies.Vocabulary.IndexRoundTrip | src/main/java/Vocabulary.java:156-176 | every index in range round-trips through `getToken` then `getIndex` |
| Vocabularies.FromTokens | src/main/java/Vocabulary.java:26-28 | the vocabulary of one token list has no unknown token and no reserved tokens, lists its distinct tokens in first-seen order with their occurrence counts (saturated at `Integer.MAX_VALUE`) as frequencies; each token round-trips through `getIndex` and `getToken`, and `getIndex` of any other token fails with `UndefinedToken` |
| Vocabularies.Build | src/main/java/Vocabulary.java:398-404 | fails with an invalid-configuration error exactly on the guard as written; otherwise yields a fresh vocabulary with everything the constructor promises: valid, the reserved set with the unknown token, the configured frequencies, the kept tokens pruning allows, first-seen order, and when unpruned the exact index list |
| Vocabularies.BuildChecked | src/main/java/Vocabulary.java:398-404 | the guard counting the unknown token; an accepted configuration yields everything the constructor promises, keeps every reserved token, and so with an unknown token set every `getIndex` succeeds |
| VocabularySpec.NewBuilder | src/main/java/Vocabulary.java:196-202 | a fresh builder has no sentences, no reserved tokens, no unknown token, and both limits disabled |
| VocabularySpec.AllReserved | src/main/java/Vocabulary.java:37-41 | the reserved tokens include the configured ones and, when set, the unknown token |
| VocabularySpec.NextFrequency | src/main/java/Vocabulary.java:72-76 | one more occurrence: a reserved token's frequency becomes `Integer.MAX_VALUE`; any other grows by one unless it is already at that maximum |
| VocabularySpec.Added | src/main/java/Vocabulary.java:60-79 | one `addToken`: an absent token enters with index `size()` and frequency 0, then its frequency takes one `NextFrequency` step (see `AddedIndexRule`) |
| VocabularySpec.AddedAll | src/main/java/Vocabulary.java:42-46 | `addToken` applied to each token of a sequence in order, starting from a given map |
| VocabularySpec.AddedIndexRule | src/main/java/Vocabulary.java:60-79 | a new token gets the number of tokens already present as its index; a repeated token keeps its index and only its frequency changes; no other entry changes |
| VocabularySpec.AddedKeepsInverse | src/main/java/Vocabulary.java:60-79 | adding a token keeps the map and its index list exact inverses, appending a new token at the end |
| VocabularySpec.AddedAllKeys | src/main/java/Vocabulary.java:42-46 | the keys after adding a sequence are the old keys plus its elements |
| VocabularySpec.AddedAllFirstSeen | src/main/java/Vocabulary.java:42-46 | after the sentence pass, the tokens listed by index are the distinct tokens in first-seen order |
| VocabularySpec.AddedAllFrequency | src/main/java/Vocabulary.java:72-76 | a reserved token has frequency `Integer.MAX_VALUE`; any other has its occurrence count saturated at that maximum |
| VocabularySpec.ReservedPassStep | src/main/java/Vocabulary.java:48-50 | adding one more reserved token keeps the pass invariant: contents, frequencies, exact inverse, and new reserved tokens appended after the sentence tokens |
| VocabularySpec.ReservedPassDone | src/main/java/Vocabulary.java:47-50 | once every reserved token is added, the map holds sentence and reserved tokens, listed as first-seen tokens followed by unseen reserved ones |
| VocabularySpec.InverseFollowsFirstSeen | src/main/java/Vocabulary.java:42-50 | a map listed by an order that starts with the first-seen tokens has distinct indices, numbers sentence tokens in first-seen order, and places every other token after them |
| VocabularySpec.OrderPreservedFollowsFirstSeen | src/main/java/Vocabulary.java:136-146 | removing tokens and renumbering in the same relative order keeps first-seen order |
| VocabularySpec.Renumbered | src/main/java/Vocabulary.java:143-145 | renumbering the sorted tokens by position makes the index list an exact inverse, keeps keys, frequencies and the relative order of indices, and is the identity on dense indices |
| VocabularySpec.AboveMinFrequency | src/main/java/Vocabulary.java:93-100 | with `minFrequency` > 1, the entries whose frequency is at least `minFrequency`, unchanged; otherwise the whole map |
| VocabularySpec.KeepsMostFrequent | src/main/java/Vocabulary.java:103-114 | what the `maxSize` cut may leave: with `maxSize` > 0 and more entries than that, exactly `maxSize` unchanged entries, none less frequent than a dropped one (ties open); otherwise the whole map |
| VocabularySpec.Pruned | src/main/java/Vocabulary.java:91-115 | the value `pruneTokens` returns for a configuration: `minFrequency` > 1, or `maxTokens` > 0 and more than `maxTokens` tokens pass the `minFrequency` step |
| VocabularySpec.SortStep | src/main/java/Vocabulary.java:137-142 | moving a token of least index to the end of the sorted list keeps that list ascending by index, below every index still to do, and keeps every token in exactly one of the two parts |
| VocabularySpec.SortedDenseIsIdentity | src/main/java/Vocabulary.java:136-146 | when indices are already `0..size-1`, the token at sorted position `k` has index `k` |
| VocabularySpec.PruningMatchesConfiguration | src/main/java/Vocabulary.java:90-116 | pruning the full token map leaves what the configuration allows, and `pruned` holds exactly when `minFrequency` > 1 or the `maxTokens` cut applies |
| VocabularySpec.PrunedFromBuilder | src/main/java/Vocabulary.java:52-57 | the map after pruning has configured frequencies, allowed tokens, first-seen order and distinct indices, and equals the unpruned map when nothing was pruned |
| VocabularySpec.RenumberedFromBuilder | src/main/java/Vocabulary.java:53-54 | re-densifying keeps all of that |
| VocabularySpec.SizeWithinMaxTokens | src/main/java/Vocabulary.java:103-114 | with `maxTokens` > 0, the kept tokens number at most `maxTokens` |
| VocabularySpec.ReservedAreCandidates | src/main/java/Vocabulary.java:93-100 | the `minFrequency` step never removes a reserved token |
| VocabularySpec.BuildRejects | src/main/java/Vocabulary.java:399 | the guard as written: `maxTokens` > 0 and fewer than the configured reserved tokens, the unknown token not counted |
| VocabularySpec.ReservedTokensSurvive | src/main/java/Vocabulary.java:398-403 | under the guard that counts the unknown token, every reserved token survives the `maxTokens` cut |
| VocabularySpec.BuildGuardMissesUnknownToken | src/main/java/Vocabulary.java:399 | the guard as written accepts one reserved token plus an unknown token with `maxTokens` 1, and then no allowed outcome keeps both |
| JavaStrings.TrimStart | src/main/java/WordpieceTokenizer.java:37 | drops exactly the leading chars up to U+0020 |
| JavaStrings.TrimEnd | src/main/java/WordpieceTokenizer.java:37 | drops exactly the trailing chars up to U+0020 |
| JavaStrings.Trim | src/main/java/WordpieceTokenizer.java:37 | the result neither starts nor ends with a char up to U+0020 |
| JavaStrings.TrimIsInfix | src/main/java/WordpieceTokenizer.java:37 | the trimmed string is a contiguous part of the input, with only trimmable chars cut on either side |
| JavaStrings.TrimAllTrimmable | src/main/java/WordpieceTokenizer.java:37 | a string of trimmable chars trims to the empty string |
| JavaStrings.SplitAll | src/main/java/WordpieceTokenizer.java:37 | cutting at every space gives at least one piece, none containing a space |
| JavaStrings.SplitAllJoin | src/main/java/WordpieceTokenizer.java:37 | joining those pieces with spaces gives the input back |
| JavaStrings.DropTrailingEmpty | src/main/java/WordpieceTokenizer.java:37 | removes exactly the trailing empty strings |
| JavaStrings.Split | src/main/java/WordpieceTokenizer.java:37 | `split(" ")`: a string without a space is its own only piece (so `""` gives `[""]`); otherwise the raw pieces with the trailing empty ones dropped; no piece contains a space |
| JavaStrings.SplitAllNoSpace | src/main/java/WordpieceTokenizer.java:37 | a string without a space is its own only raw piece |
| JavaStrings.SplitTrimmed | src/main/java/WordpieceTokenizer.java:37 | on a trimmed string, `split(" ")` drops nothing: the words have no spaces and rejoin to the string |
| WordpieceSpec.LongestMatch | src/main/java/WordpieceTokenizer.java:49-64 | the chosen end gives a candidate the vocabulary contains, and no longer candidate is contained; none is found only when no candidate of any length is contained |
| WordpieceSpec.Piece | src/main/java/WordpieceTokenizer.java:51-56 | the candidate for `word[start..end]`: the plain substring at the start of the word, `"##"` followed by it elsewhere |
| WordpieceSpec.Segment | src/main/java/WordpieceTokenizer.java:48-74 | from a cursor, the longest match's piece followed by the segmentation from its end; none as soon as a cursor has no match |
| WordpieceSpec.WordTokens | src/main/java/WordpieceTokenizer.java:39-79 | one word's output: `[unknown]` when longer than `maxInputChars` or unsegmentable, its pieces otherwise |
| WordpieceSpec.TokenizeWords | src/main/java/WordpieceTokenizer.java:38-80 | the words' outputs concatenated in order |
| WordpieceSpec.Words | src/main/java/WordpieceTokenizer.java:37 | the words of a sentence: `sentence.trim().split(" ")` |
| WordpieceSpec.Tokenize | src/main/java/WordpieceTokenizer.java:33-82 | `tokenize`: the outputs of the words of the trimmed, split sentence |
| WordpieceSpec.SegmentSound | src/main/java/WordpieceTokenizer.java:48-74 | every piece is in the vocabulary; there are at most as many pieces as chars, and at least one for a non-empty word |
| WordpieceSpec.SegmentContinuationsMarked | src/main/java/WordpieceTokenizer.java:52-56 | every piece after the first of a word starts with `##` and has content after it |
| WordpieceSpec.JoinSegmentFrom | src/main/java/WordpieceTokenizer.java:52-73 | the continuation pieces of a tail, unmarked and concatenated, give that tail |
| WordpieceSpec.FirstPieceLongestPrefix | src/main/java/WordpieceTokenizer.java:49-64 | the first piece is the unmarked longest prefix in the vocabulary |
| WordpieceSpec.SegmentRoundTrip | src/main/java/WordpieceTokenizer.java:48-74 | detokenizing a segmentation (first piece as is, the rest unmarked) gives the word back |
| WordpieceSpec.SegmentFailure | src/main/java/WordpieceTokenizer.java:65-68 | segmentation fails only at a cursor where no candidate of any length is in the vocabulary |
| WordpieceSpec.SegmentSucceedsOnKnownChars | src/main/java/WordpieceTokenizer.java:48-74 | when every single-char candidate is known, segmentation succeeds |
| WordpieceSpec.SegmentAdvance | src/main/java/WordpieceTokenizer.java:69-73 | emitting the longest match and moving the cursor to its end keeps the whole word's segmentation |
| WordpieceSpec.SegmentStuck | src/main/java/WordpieceTokenizer.java:65-68 | a cursor without a match makes the whole word fail |
| WordpieceSpec.LongestMatchShorter | src/main/java/WordpieceTokenizer.java:57-63 | a rejected candidate leaves the search to the next shorter one |
| WordpieceSpec.WordTokensCases | src/main/java/WordpieceTokenizer.java:40-79 | a too-long or unsegmentable word contributes exactly `[unknown]`; otherwise exactly its pieces, which are in the vocabulary, number at most its length and detokenize to it |
| WordpieceSpec.EmptyWordContributesNothing | src/main/java/WordpieceTokenizer.java:44-48 | with `maxInputChars` ≥ 0, an empty word contributes nothing |
| WordpieceSpec.TokenizeWordsKnown | src/main/java/WordpieceTokenizer.java:38-80 | every emitted token is in the vocabulary or is the placeholder |
| WordpieceSpec.TokenizeWordsAppend | src/main/java/WordpieceTokenizer.java:38-80 | the output for a word list is the in-order concatenation of the outputs for its parts |
| WordpieceSpec.TokenizeKnown | src/main/java/WordpieceTokenizer.java:33-82 | every token of a tokenized sentence is in the vocabulary or is the placeholder |
| WordpieceSpec.TokenizeBlank | src/main/java/WordpieceTokenizer.java:37-38 | a sentence of blanks only tokenizes to nothing when `maxInputChars` ≥ 0 |
| WordpieceSpec.MakerSplits | src/main/java/WordpieceTokenizer.java:48-79 | with `make` and `##r` known, `maker` becomes `make`, `##r` |
| WordpieceSpec.MakerUnknown | src/main/java/WordpieceTokenizer.java:48-79 | without `##r`, the partial piece `make` is discarded and `maker` becomes the placeholder |
| WordpieceTokenizers.WordpieceTokenizer.constructor | src/main/java/WordpieceTokenizer.java:19-23 | stores the vocabulary, the placeholder and the char limit |
| WordpieceTokenizers.WordpieceTokenizer.Tokenize | src/main/java/WordpieceTokenizer.java:33-82 | the output is exactly `WordpieceSpec.Tokenize` over the vocabulary's tokens, so every lemma above applies to it |
| WordpieceTokenizers.WordpieceTokenizer.TokenizeWord | src/main/java/WordpieceTokenizer.java:39-79 | one word's contribution is exactly `WordTokens`; the too-many-sub-tokens exception is proved unreachable |
| WordpieceTokenizers.WordpieceTokenizer.LongestSubString | src/main/java/WordpieceTokenizer.java:49-64 | the inner search returns the longest contained candidate at the cursor and its end, or none exactly when `LongestMatch` finds none |
| WordpieceTokenizers.WordpieceTokenizer.TokenToIds | src/main/java/WordpieceTokenizer.java:25-31 | succeeds exactly when every lookup succeeds, with an array as long as the input whose element `i` is `getIndex(tokens[i])`; otherwise fails with the error of the first failing token |

## Left out

- File loading (`addFromTextFile`, `readLines`, `addFromCustomizedFile`, src/main/java/Vocabulary.java:300-391) is file and URL I/O with a caller-supplied parser. The builder takes its sentences directly.
- The fluent setters of `Builder` (src/main/java/Vocabulary.java:212-283) are record updates on `VocabularySpec.Builder`. This includes `optUnknownToken()`, whose default is `"<unk>"`.
- src/main/java/OnnxServe.java is not part of this model: it holds the ONNX Runtime session, the tensors, float outputs and file paths.
- src/main/java/IVocabulary.java is an interface with no logic. Its promises appear as the contracts of the lookup functions.
- Concurrency of `ConcurrentHashMap` is not modelled; the map is single-threaded. Its iteration order, and that of the reserved-token `HashSet`, is a nondeterministic choice.
- The Java constructor adds the unknown token to the builder's own reserved set, which it shares with the builder. Building the same builder a second time therefore sees the unknown token in the guard. The model does not mutate the builder: each build starts from the configuration as given.
- `pruneTokens` is one Java method. Here its two steps are the helper methods `DropRareTokens` and `DropLeastFrequent`, which `PruneTokens` calls under the same conditions.
- `pruneTokens` sorts by descending frequency and removes everything after `maxSize`. The model removes a least frequent token until `maxSize` remain. Both keep `maxSize` tokens, none less frequent than a removed one. Which tied tokens survive is left open in both.
- `initializeIndexToTokenReplacingIndices` sorts with a stream. The model sorts with a selection loop that has the same result.
- Indices, ids and `getToken`'s `long` argument are unbounded integers. Every index is below the map size, so no `long`-to-`int` cast can truncate.
- Null sentences, null tokens and null reserved tokens are not modelled. The unknown token is an `Option`, and null return values are `None`.
- The `IllegalStateException` of `getIndex` with no unknown token is the error `UndefinedToken`. The `NullPointerException` raised when the unknown token was pruned away is `MissingUnknownEntry`. `tokenToIds` propagates either one as its failure.
- Strings are sequences of Dafny `char`. A Java string counts a character outside the Basic Multilingual Plane as two UTF-16 units, so the `maxInputChars` comparison and the piece boundaries can differ for such characters.
- `tokenize` is one Java method with the inner search and the per-word work written inline. Here it is three methods, `Tokenize`, `TokenizeWord` and `LongestSubString`, with the same loops. The reused `StringBuilder` and `subTokens` list are local values built afresh.
- VocabularySpec.ReservedTokensSurvive: assumes fewer than `Integer.MAX_VALUE` sentence tokens in all. Otherwise an ordinary token could count up to the pinned maximum, tie with the reserved tokens, and be kept in place of one.
- Vocabularies.BuildChecked: promises that reserved tokens survive only under that same bound.

## Findings

| source | as written | input that shows it | evidently intended | confidence | as-written member | corrected member |
|---|---|---|---|---|---|---|
| src/main/java/Vocabulary.java:399 | `build()` compares `maxTokens` with the reserved tokens before the constructor adds the unknown token to them (line 40) | reserved tokens `{"[CLS]"}`, unknown token `"[UNK]"`, `maxTokens` 1: the guard passes, two tokens are pinned, and the cut must drop one of them, possibly the unknown token, after which `getIndex` of any absent token fails | count the unknown token among the reserved ones, so an accepted configuration keeps every reserved token | not executed | Vocabularies.Build, VocabularySpec.BuildGuardMissesUnknownToken | Vocabularies.BuildChecked, VocabularySpec.ReservedTokensSurvive |
