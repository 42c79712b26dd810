/**
 * The vocabulary object: a token map and its index list, built once from a
 * builder's configuration and read-only afterwards.
 */
module Vocabularies {
  import opened Wrappers
  import opened VocabularySpec

  /** The exceptions the vocabulary throws. */
  datatype VocabError =
    | UndefinedToken        // getIndex: the token is absent and there is no unknown token
    | MissingUnknownEntry   // getIndex: the unknown token is set but was pruned away (a null dereference)
    | InvalidConfiguration  // build: maxTokens is smaller than the number of reserved tokens

  class Vocabulary {
    var tokens: TokenMap
    var indexToToken: seq<string>
    const reservedTokens: set<string>
    const unknownToken: Option<string>

    /** The index list is the exact inverse of the token map, dense over 0..size-1. */
    ghost predicate Valid()
      reads this
    {
      Inverse(tokens, indexToToken)
    }

    /**
     * Builds the vocabulary from the builder's configuration: the sentence
     * tokens in first-seen order, then the reserved tokens not seen there,
     * then pruning and, if anything was pruned, re-densified indices.
     */
    constructor (builder: Builder)
      ensures Valid()
      ensures reservedTokens == AllReserved(builder) && unknownToken == builder.unknownToken
      ensures BuiltFrom(builder, tokens)
      ensures !Pruned(builder) ==> UnprunedOrder(indexToToken, FirstSeen(Flatten(builder.sentences)), AllReserved(builder))
    {
      reservedTokens := AllReserved(builder);
      unknownToken := builder.unknownToken;
      tokens := map[];
      indexToToken := [];
      new;
      var pruned, order := CollectTokens(builder);
      ghost var kept := tokens;
      if pruned {
        InitializeIndexToTokenReplacingIndices();
        RenumberedFromBuilder(builder, kept, tokens);
      } else {
        InitializeIndexToTokenKeepingIndices(order);
      }
    }

    /**
     * The counting part of the constructor: the sentence pass, the reserved
     * pass and pruning. When nothing was pruned, `order` lists the tokens by
     * their indices.
     */
    method CollectTokens(builder: Builder) returns (pruned: bool, ghost order: seq<string>)
      requires tokens == map[] && reservedTokens == AllReserved(builder)
      modifies this`tokens
      ensures BuiltFrom(builder, tokens) && IndicesDistinct(tokens)
      ensures pruned == Pruned(builder)
      ensures !pruned ==> Inverse(tokens, order) && UnprunedOrder(order, FirstSeen(Flatten(builder.sentences)), reservedTokens)
    {
      AddSentences(builder.sentences);
      order := AddReservedTokens(Flatten(builder.sentences));
      ghost var added := tokens;
      pruned := PruneTokens(builder.minFrequency, builder.maxTokens);
      PrunedFromBuilder(builder, added, order, tokens);
    }

    /** The sentence pass of the constructor: every token of every sentence, in order. */
    method AddSentences(sentences: seq<seq<string>>)
      requires tokens == map[]
      modifies this`tokens
      ensures tokens == AddedAll(map[], reservedTokens, Flatten(sentences))
    {
      for i := 0 to |sentences|
        invariant tokens == AddedAll(map[], reservedTokens, Flatten(sentences[..i]))
      {
        var sentence := sentences[i];
        ghost var before := Flatten(sentences[..i]);
        assert before + sentence[..0] == before;
        for j := 0 to |sentence|
          invariant tokens == AddedAll(map[], reservedTokens, before + sentence[..j])
        {
          AddedAllSnoc(map[], reservedTokens, before, sentence, j);
          AddToken(sentence[j]);
        }
        FlattenSnoc(sentences, i);
      }
      assert sentences[..|sentences|] == sentences;
    }

    /**
     * The reserved pass of the constructor: every reserved token is added
     * (in the set's iteration order); those not seen in a sentence are
     * appended after all sentence tokens, with the pinned frequency.
     */
    method AddReservedTokens(ghost flat: seq<string>) returns (ghost order: seq<string>)
      requires tokens == AddedAll(map[], reservedTokens, flat)
      modifies this`tokens
      ensures Inverse(tokens, order)
      ensures UnprunedOrder(order, FirstSeen(flat), reservedTokens)
      ensures tokens.Keys == Elements(flat) + reservedTokens
      ensures forall t :: t in tokens ==>
        tokens[t].frequency == if t in reservedTokens then IntMax else Min(Count(flat, t), IntMax)
    {
      ghost var firstSeen := FirstSeen(flat);
      ghost var seen := Elements(flat);
      ReservedPassStart(reservedTokens, flat);
      order := firstSeen;
      var todo := reservedTokens;
      while todo != {}
        invariant ReservedPass(tokens, order, flat, firstSeen, seen, reservedTokens, todo)
        decreases todo
      {
        var t :| t in todo;
        ReservedPassStep(tokens, order, flat, firstSeen, seen, reservedTokens, todo, t);
        order := if t in tokens then order else order + [t];
        AddToken(t);
        todo := todo - {t};
      }
      ReservedPassDone(tokens, order, flat, reservedTokens);
    }

    /** `addToken`: records one occurrence of `token`. */
    method AddToken(token: string)
      modifies this`tokens
      ensures tokens == Added(old(tokens), reservedTokens, token)
    {
      var index := |tokens|;
      var info := if token in tokens then tokens[token] else TokenInfo(0, index);
      if token in reservedTokens {
        info := info.(frequency := IntMax);
      } else if info.frequency < IntMax {
        info := info.(frequency := info.frequency + 1);
      }
      tokens := tokens[token := info];
    }

    /**
     * `pruneTokens`: drops the tokens below `minFrequency` (when above 1), then
     * keeps only `maxSize` of the most frequent ones (when the cut applies).
     */
    method PruneTokens(minFrequency: int, maxSize: int) returns (pruned: bool)
      modifies this`tokens
      ensures KeepsMostFrequent(AboveMinFrequency(old(tokens), minFrequency), tokens, maxSize)
      ensures pruned == (minFrequency > 1 || (maxSize > 0 && |AboveMinFrequency(old(tokens), minFrequency)| > maxSize))
    {
      pruned := false;
      if minFrequency > 1 {
        DropRareTokens(minFrequency);
        pruned := true;
      }
      if maxSize > 0 && |tokens| > maxSize {
        DropLeastFrequent(maxSize);
        pruned := true;
      }
    }

    /** The first step of `pruneTokens`: removes every token below `minFrequency`. */
    method DropRareTokens(minFrequency: int)
      requires minFrequency > 1
      modifies this`tokens
      ensures tokens == AboveMinFrequency(old(tokens), minFrequency)
    {
      var todo := tokens.Keys;
      while todo != {}
        invariant todo <= tokens.Keys
        invariant forall t :: t in tokens <==> t in old(tokens) && (t in todo || old(tokens)[t].frequency >= minFrequency)
        invariant forall t :: t in tokens ==> tokens[t] == old(tokens)[t]
        decreases todo
      {
        var t :| t in todo;
        if tokens[t].frequency < minFrequency {
          tokens := tokens - {t};
        }
        todo := todo - {t};
      }
    }

    /** The second step of `pruneTokens`: cuts the tokens down to the `maxSize` most frequent. */
    method DropLeastFrequent(maxSize: int)
      requires 0 < maxSize < |tokens|
      modifies this`tokens
      ensures KeepsMostFrequent(old(tokens), tokens, maxSize)
    {
      ghost var above := tokens;
      while |tokens| > maxSize
        invariant CutSoFar(above, tokens, maxSize)
        decreases |tokens|
      {
        LeastExists(Frequencies(tokens), tokens.Keys);
        var t :| t in tokens && forall u :: u in tokens ==> tokens[t].frequency <= tokens[u].frequency;
        CutStep(above, tokens, maxSize, t);
        tokens := tokens - {t};
      }
      CutDone(above, tokens, maxSize);
    }

    /**
     * `initializeIndexToTokenKeepingIndices`: nothing was pruned, so the indices
     * are already dense and the index list is filled from them.
     */
    method InitializeIndexToTokenKeepingIndices(ghost order: seq<string>)
      requires Inverse(tokens, order)
      modifies this`indexToToken
      ensures indexToToken == order
      ensures Valid()
    {
      indexToToken := seq(|tokens|, _ => "");
      var todo := tokens.Keys;
      while todo != {}
        invariant todo <= tokens.Keys
        invariant |indexToToken| == |order|
        invariant forall i :: 0 <= i < |order| && order[i] !in todo ==> indexToToken[i] == order[i]
        decreases todo
      {
        var t :| t in todo;
        indexToToken := indexToToken[tokens[t].index := t];
        todo := todo - {t};
      }
    }

    /** The tokens listed by ascending index (the sorted stream of the re-densifying step). */
    method SortedByIndex() returns (sorted: seq<string>)
      requires IndicesDistinct(tokens)
      ensures ListsByIndex(tokens, sorted)
    {
      var m := tokens;
      sorted := [];
      var todo := m.Keys;
      while todo != {}
        invariant SortedSoFar(m, sorted, todo)
        decreases todo
      {
        var indices := Indices(m);
        LeastExists(indices, todo);
        var t :| t in todo && forall u :: u in todo ==> indices[t] <= indices[u];
        SortStep(m, sorted, todo, t);
        sorted := sorted + [t];
        todo := todo - {t};
      }
      SortDone(m, sorted);
    }

    /**
     * `initializeIndexToTokenReplacingIndices`: lists the remaining tokens by
     * their original index and renumbers them 0..size-1 in that order.
     */
    method InitializeIndexToTokenReplacingIndices()
      requires IndicesDistinct(tokens)
      modifies this`tokens, this`indexToToken
      ensures Valid() && Renumbering(old(tokens), tokens)
    {
      var sorted := SortedByIndex();
      indexToToken := sorted;
      for i := 0 to |sorted|
        invariant indexToToken == sorted
        invariant RenumberedUpTo(old(tokens), sorted, tokens, i)
      {
        var t := sorted[i];
        RenumberStep(old(tokens), sorted, tokens, i);
        tokens := tokens[t := tokens[t].(index := i)];
      }
      Renumbered(old(tokens), sorted, tokens);
    }

    /** `contains`: whether some index maps to the token. */
    function Contains(token: string): (b: bool)
      reads this
      requires Valid()
      ensures b <==> token in indexToToken
    {
      token in tokens
    }

    /** `size`: the number of tokens, which is also the length of the index list. */
    function Size(): (n: nat)
      reads this
      requires Valid()
      ensures n == |indexToToken|
    {
      |tokens|
    }

    /**
     * `getToken`: the token holding `index`, or the unknown token (possibly
     * absent) when `index` is out of range; never an error.
     */
    function GetToken(index: int): (r: Option<string>)
      reads this
      requires Valid()
      ensures 0 <= index < Size() ==> r.Some? && r.value in tokens && tokens[r.value].index == index
      ensures !(0 <= index < Size()) ==> r == unknownToken
    {
      if index < 0 || index >= |indexToToken| then unknownToken else Some(indexToToken[index])
    }

    /**
     * `getIndex`: the token's own index; for an absent token the unknown
     * token's index, and an error when there is no unknown token or it was
     * pruned away. Every contained token round-trips through `getToken`.
     */
    function GetIndex(token: string): (r: Result<int, VocabError>)
      reads this
      requires Valid()
      ensures r.Success? ==> 0 <= r.value < Size()
      ensures Contains(token) ==> r.Success? && GetToken(r.value) == Some(token)
      ensures !Contains(token) && unknownToken.None? ==> r == Failure(UndefinedToken)
      ensures !Contains(token) && unknownToken.Some? && Contains(unknownToken.value) ==>
        r.Success? && GetToken(r.value) == unknownToken
      ensures !Contains(token) && unknownToken.Some? && !Contains(unknownToken.value) ==>
        r == Failure(MissingUnknownEntry)
    {
      if token in tokens then Success(tokens[token].index)
      else if unknownToken.Some? then
        if unknownToken.value in tokens then Success(tokens[unknownToken.value].index)
        else Failure(MissingUnknownEntry)
      else Failure(UndefinedToken)
    }

    /** Every index in range round-trips through `getToken` and back. */
    lemma IndexRoundTrip(index: int)
      requires Valid() && 0 <= index < Size()
      ensures GetToken(index).Some? && GetIndex(GetToken(index).value) == Success(index)
    {
    }
  }

  /**
   * `new Vocabulary(tokens)`: a vocabulary of one sentence, with no reserved
   * tokens, no unknown token and no pruning, lists the distinct tokens in
   * first-seen order with their counted frequencies; each of them
   * round-trips through `getIndex` and `getToken`, and any other token is an
   * error.
   */
  method FromTokens(ts: seq<string>) returns (v: Vocabulary)
    ensures v.Valid() && v.indexToToken == FirstSeen(ts)
    ensures forall t :: t in ts ==> v.Contains(t) && v.GetIndex(t).Success? && v.GetToken(v.GetIndex(t).value) == Some(t)
    ensures v.unknownToken == None && v.reservedTokens == {}
    ensures forall t :: t in v.tokens ==> v.tokens[t].frequency == Min(Count(ts, t), IntMax)
    ensures forall t :: t !in ts ==> v.GetIndex(t) == Failure(UndefinedToken)
  {
    var b := NewBuilder().(sentences := [ts]);
    v := new Vocabulary(b);
    assert Flatten(b.sentences) == ts by {
      assert b.sentences[..0] == [];
    }
    assert !Pruned(b);
    assert UnprunedOrder(v.indexToToken, FirstSeen(ts), {});
    FirstSeenElements(ts);
    forall t | t in ts
      ensures v.Contains(t) && v.GetIndex(t).Success? && v.GetToken(v.GetIndex(t).value) == Some(t)
    {
      assert t in Elements(ts);
      assert v.Contains(t);
    }
    forall t | t !in ts
      ensures v.GetIndex(t) == Failure(UndefinedToken)
    {
      assert t !in Elements(ts);
      assert !v.Contains(t);
    }
  }

  /**
   * `build()` as written: rejects a configuration only on the guard that
   * ignores the unknown token; otherwise it is the constructor, with all the
   * constructor promises.
   */
  method Build(builder: Builder) returns (r: Result<Vocabulary, VocabError>)
    ensures r.Failure? <==> BuildRejects(builder)
    ensures r.Failure? ==> r.error == InvalidConfiguration
    ensures r.Success? ==> fresh(r.value) && r.value.Valid() && PrunedAsConfigured(builder, r.value.tokens.Keys)
    ensures r.Success? ==>
      && r.value.reservedTokens == AllReserved(builder) && r.value.unknownToken == builder.unknownToken
      && BuiltFrom(builder, r.value.tokens)
      && (!Pruned(builder) ==>
            UnprunedOrder(r.value.indexToToken, FirstSeen(Flatten(builder.sentences)), AllReserved(builder)))
  {
    if builder.maxTokens > 0 && builder.maxTokens < |builder.reservedTokens| {
      return Failure(InvalidConfiguration);
    }
    var v := new Vocabulary(builder);
    return Success(v);
  }

  /**
   * `build()` with the guard counting the unknown token: a vocabulary it
   * accepts keeps every reserved token, so every lookup with an unknown token
   * configured succeeds.
   */
  method BuildChecked(builder: Builder) returns (r: Result<Vocabulary, VocabError>)
    ensures r.Failure? <==> BuildRejectsChecked(builder)
    ensures r.Failure? ==> r.error == InvalidConfiguration
    ensures r.Success? ==> fresh(r.value) && r.value.Valid() && PrunedAsConfigured(builder, r.value.tokens.Keys)
    ensures r.Success? ==>
      && r.value.reservedTokens == AllReserved(builder) && r.value.unknownToken == builder.unknownToken
      && BuiltFrom(builder, r.value.tokens)
      && (!Pruned(builder) ==>
            UnprunedOrder(r.value.indexToToken, FirstSeen(Flatten(builder.sentences)), AllReserved(builder)))
    ensures r.Success? && |Flatten(builder.sentences)| < IntMax ==>
      && AllReserved(builder) <= r.value.tokens.Keys
      && (builder.unknownToken.Some? ==> forall t :: r.value.GetIndex(t).Success?)
  {
    if builder.maxTokens > 0 && builder.maxTokens < |AllReserved(builder)| {
      return Failure(InvalidConfiguration);
    }
    var v := new Vocabulary(builder);
    if |Flatten(builder.sentences)| < IntMax {
      ReservedTokensSurvive(builder, v.tokens.Keys);
    }
    return Success(v);
  }
}
