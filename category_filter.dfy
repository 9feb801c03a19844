/** The word cloud of one category: the entries of the dataset whose video is
    of that category, their comment tokens counted, and the counts written
    out as the text the cloud is drawn from. */
module CategoryFilter {
  import opened Wrappers
  import opened PyStr
  import opened PyDict
  import opened CommentJoin
  import opened TokenCounts

  /** The keys among `keys` whose entry is of category `cat`, in order. */
  function FilterKeys(d: Dataset, cat: string, keys: seq<string>): seq<string> {
    if keys == [] then []
    else
      var k := keys[|keys| - 1];
      FilterKeys(d, cat, keys[..|keys| - 1]) +
        (if k in d.items && d.items[k].video.categoryId == cat then [k] else [])
  }

  /** The filtered keys are the listed keys of the category, each once when
      the keys are distinct. */
  lemma {:induction false} FilterKeysSpec(d: Dataset, cat: string, keys: seq<string>)
    ensures forall k :: k in FilterKeys(d, cat, keys) <==>
      (k in keys && k in d.items && d.items[k].video.categoryId == cat)
    ensures (forall i, j :: 0 <= i < j < |keys| ==> keys[i] != keys[j]) ==>
      forall i, j :: 0 <= i < j < |FilterKeys(d, cat, keys)| ==> FilterKeys(d, cat, keys)[i] != FilterKeys(d, cat, keys)[j]
  {
    if keys != [] {
      var init := keys[..|keys| - 1];
      FilterKeysSpec(d, cat, init);
      assert keys == init + [keys[|keys| - 1]];
    }
  }

  /** The dict comprehension that keeps the entries of category `cat`, in
      dataset order. */
  function FilterByCategory(d: Dataset, cat: string): Dataset {
    Dict(FilterKeys(d, cat, d.order),
         map k | k in d.items && d.items[k].video.categoryId == cat :: d.items[k])
  }

  /** The filtered dataset is a dataset holding exactly the entries of
      category `cat`, unchanged. */
  lemma FilterByCategorySpec(d: Dataset, cat: string)
    requires d.Valid()
    ensures FilterByCategory(d, cat).Valid()
    ensures forall k :: k in FilterByCategory(d, cat).items <==>
      (k in d.items && d.items[k].video.categoryId == cat)
    ensures forall k :: k in FilterByCategory(d, cat).items ==> FilterByCategory(d, cat).items[k] == d.items[k]
  {
    FilterKeysSpec(d, cat, d.order);
  }

  /** Datasets that agree on the entries under `keys` have the same tokens
      there. */
  lemma {:induction false} TokensOfAgree(d: Dataset, e: Dataset, keys: seq<string>)
    requires forall i :: 0 <= i < |keys| ==>
      keys[i] in d.items && keys[i] in e.items && d.items[keys[i]] == e.items[keys[i]]
    ensures TokensOf(d, keys) == TokensOf(e, keys)
  {
    if keys != [] {
      TokensOfAgree(d, e, keys[..|keys| - 1]);
    }
  }

  /** The tokens a category's cloud counts are the comment tokens of the
      entries of that category, in dataset order. */
  lemma FilteredTokens(d: Dataset, cat: string)
    requires d.Valid()
    ensures AllTokens(FilterByCategory(d, cat)) == TokensOf(d, FilterKeys(d, cat, d.order))
  {
    var f := FilterByCategory(d, cat);
    FilterByCategorySpec(d, cat);
    TokensOfAgree(f, d, f.order);
  }

  /** The body of `wordcloud_for_specific_category_id` up to the drawing:
      `None` for the early return when no entry is of the category, and
      otherwise the text the cloud is drawn from. */
  method WordcloudForCategory(d: Dataset, cat: string) returns (text: Option<string>)
    requires d.Valid()
    ensures text.None? <==> forall k :: k in d.items ==> d.items[k].video.categoryId != cat
    ensures text.Some? ==> text.value == CountsText(Tally(TokensOf(d, FilterKeys(d, cat, d.order))))
    ensures text.Some? ==> Tally(SplitWhitespace(text.value)) == Tally(TokensOf(d, FilterKeys(d, cat, d.order)))
  {
    var relevant := FilterByCategory(d, cat);
    FilterByCategorySpec(d, cat);
    if |relevant.order| == 0 {
      return None;
    }
    assert relevant.order[0] in relevant.items;
    var wordCounts := GetTokenCounts(relevant);
    TallySpec(AllTokens(relevant));
    var countsText := CountsToText(wordCounts);
    FilteredTokens(d, cat);
    TokensOfCountsRoundTrip(d, FilterKeys(d, cat, d.order));
    return Some(countsText);
  }
}
