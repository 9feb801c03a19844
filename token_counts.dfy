/** The word-cloud helpers `get_token_counts` and `counts_to_text`: how often
    each whitespace-separated token occurs in the comments of a dataset, and
    that tally written back out as a text in which every token is repeated
    as often as it was counted. */
module TokenCounts {
  import opened PyStr
  import opened PyDict
  import opened CommentJoin

  /** The distinct elements of `ts`, in order of first occurrence. */
  function FirstOccurrences(ts: seq<string>): seq<string> {
    if ts == [] then []
    else
      var seen := FirstOccurrences(ts[..|ts| - 1]);
      var w := ts[|ts| - 1];
      if w in seen then seen else seen + [w]
  }

  /** `FirstOccurrences` holds every element of `ts` once. */
  lemma {:induction false} FirstOccurrencesSpec(ts: seq<string>)
    ensures forall w :: w in FirstOccurrences(ts) <==> w in ts
    ensures forall i, j :: 0 <= i < j < |FirstOccurrences(ts)| ==> FirstOccurrences(ts)[i] != FirstOccurrences(ts)[j]
  {
    if ts != [] {
      var init := ts[..|ts| - 1];
      FirstOccurrencesSpec(init);
      assert ts == init + [ts[|ts| - 1]];
    }
  }

  /** One token counted: a token seen before has its count raised by one,
      a new token is added with count one. */
  function Bump(counts: Dict<int>, w: string): Dict<int> {
    counts.Put(w, if w in counts.items then counts.items[w] + 1 else 1)
  }

  /** The token counts of `ts`, counted one token after the other. */
  function Tally(ts: seq<string>): Dict<int> {
    if ts == [] then Empty() else Bump(Tally(ts[..|ts| - 1]), ts[|ts| - 1])
  }

  /** The tally counts every token exactly as often as it occurs, holds no
      other key, and lists its keys in order of first occurrence. */
  lemma {:induction false} TallySpec(ts: seq<string>)
    ensures Tally(ts).Valid()
    ensures forall w :: w in Tally(ts).items <==> w in ts
    ensures forall w :: w in Tally(ts).items ==> Tally(ts).items[w] == multiset(ts)[w]
    ensures Tally(ts).order == FirstOccurrences(ts)
  {
    if ts != [] {
      var init := ts[..|ts| - 1];
      TallySpec(init);
      BumpKeeps(Tally(init), init, ts[|ts| - 1]);
      assert ts == init + [ts[|ts| - 1]];
    }
  }

  /** Counting one more token keeps the counts exact. */
  lemma BumpKeeps(c: Dict<int>, ts: seq<string>, w: string)
    requires c.Valid()
    requires forall v :: v in c.items <==> v in ts
    requires forall v :: v in c.items ==> c.items[v] == multiset(ts)[v]
    requires c.order == FirstOccurrences(ts)
    ensures Bump(c, w).Valid()
    ensures forall v :: v in Bump(c, w).items <==> v in ts + [w]
    ensures forall v :: v in Bump(c, w).items ==> Bump(c, w).items[v] == multiset(ts + [w])[v]
    ensures Bump(c, w).order == FirstOccurrences(ts + [w])
  {
    assert (ts + [w])[..|ts|] == ts;
    assert multiset(ts + [w]) == multiset(ts) + multiset{w};
  }

  /** One more token is one more step of the tally. */
  lemma TallySnoc(ts: seq<string>, w: string)
    ensures Tally(ts + [w]) == Bump(Tally(ts), w)
  {
    assert (ts + [w])[..|ts|] == ts;
  }

  /** The tokens of the comments, comment by comment, each split as
      `str.split()` does. */
  function CommentTokens(cs: seq<Comment>): seq<string> {
    if cs == [] then []
    else CommentTokens(cs[..|cs| - 1]) + SplitWhitespace(cs[|cs| - 1].text)
  }

  /** The tokens of the comments of the entries under `keys`, in that order. */
  function TokensOf(d: Dataset, keys: seq<string>): seq<string> {
    if keys == [] then []
    else
      var k := keys[|keys| - 1];
      TokensOf(d, keys[..|keys| - 1]) + (if k in d.items then CommentTokens(d.items[k].comments) else [])
  }

  /** Every token of every comment of the dataset, entries in dataset order. */
  function AllTokens(d: Dataset): seq<string> {
    TokensOf(d, d.order)
  }

  /** `get_token_counts(data_entries)`: the loop over the entries, in
      dataset order. */
  method GetTokenCounts(d: Dataset) returns (counts: Dict<int>)
    requires d.Valid()
    ensures counts == Tally(AllTokens(d))
  {
    counts := Empty();
    for i := 0 to |d.order|
      invariant counts == Tally(TokensOf(d, d.order[..i]))
    {
      var videoId := d.order[i];
      var entry := d.items[videoId];
      counts := CountComments(counts, entry.comments, TokensOf(d, d.order[..i]));
      TokensOfStep(d, d.order, i);
    }
    assert d.order[..|d.order|] == d.order;
  }

  /** The middle loop of `get_token_counts`: the comments of one entry, in
      order, counted on top of the counts of the tokens `seen` so far. */
  method CountComments(counts: Dict<int>, comments: seq<Comment>, ghost seen: seq<string>) returns (r: Dict<int>)
    requires counts == Tally(seen)
    ensures r == Tally(seen + CommentTokens(comments))
  {
    r := counts;
    assert seen + CommentTokens(comments[..0]) == seen;
    for j := 0 to |comments|
      invariant r == Tally(seen + CommentTokens(comments[..j]))
    {
      var commentSplit := SplitWhitespace(comments[j].text);
      r := CountWords(r, commentSplit, seen + CommentTokens(comments[..j]));
      CommentTokensStep(seen, comments, j);
    }
    assert comments[..|comments|] == comments;
  }

  /** The inner loop of `get_token_counts`: the words of one comment, in
      order, counted on top of the counts of the tokens `seen` so far. */
  method CountWords(counts: Dict<int>, words: seq<string>, ghost seen: seq<string>) returns (r: Dict<int>)
    requires counts == Tally(seen)
    ensures r == Tally(seen + words)
  {
    r := counts;
    assert seen + words[..0] == seen;
    for k := 0 to |words|
      invariant r == Tally(seen + words[..k])
    {
      var word := words[k];
      TallyStep(seen, words, k);
      if word in r.items {
        r := r.Put(word, r.items[word] + 1);
      } else {
        r := r.Put(word, 1);
      }
    }
    assert words[..|words|] == words;
  }

  /** The tally after one more word. */
  lemma TallyStep(seen: seq<string>, words: seq<string>, k: int)
    requires 0 <= k < |words|
    ensures Tally(seen + words[..k + 1]) == Bump(Tally(seen + words[..k]), words[k])
  {
    TallySnoc(seen + words[..k], words[k]);
    assert seen + words[..k + 1] == (seen + words[..k]) + [words[k]];
  }

  /** The tokens after one more comment. */
  lemma CommentTokensStep(seen: seq<string>, cs: seq<Comment>, j: int)
    requires 0 <= j < |cs|
    ensures seen + CommentTokens(cs[..j]) + SplitWhitespace(cs[j].text) == seen + CommentTokens(cs[..j + 1])
  {
    assert cs[..j + 1][..j] == cs[..j];
  }

  /** The tokens after the comments of one more entry. */
  lemma TokensOfStep(d: Dataset, keys: seq<string>, i: int)
    requires 0 <= i < |keys| && keys[i] in d.items
    ensures TokensOf(d, keys[..i]) + CommentTokens(d.items[keys[i]].comments) == TokensOf(d, keys[..i + 1])
  {
    assert keys[..i + 1][..i] == keys[..i];
  }

  /** `[w] * n`: `n` copies of `w`, none for a count below one. */
  function Repeat(w: string, n: int): (r: seq<string>)
    ensures |r| == if n < 0 then 0 else n
    ensures forall k :: 0 <= k < |r| ==> r[k] == w
  {
    if n <= 0 then [] else Repeat(w, n - 1) + [w]
  }

  /** The tokens of the keys `keys`, each repeated as often as it is counted. */
  function ExpandKeys(counts: Dict<int>, keys: seq<string>): seq<string> {
    if keys == [] then []
    else
      var k := keys[|keys| - 1];
      ExpandKeys(counts, keys[..|keys| - 1]) + (if k in counts.items then Repeat(k, counts.items[k]) else [])
  }

  /** The list `counts_to_text` builds: every token, in dictionary order,
      repeated as often as it is counted. */
  function Expand(counts: Dict<int>): seq<string> {
    ExpandKeys(counts, counts.order)
  }

  /** The text `counts_to_text` returns: that list joined with single spaces. */
  function CountsText(counts: Dict<int>): string {
    Join(Expand(counts), " ")
  }

  /** `counts_to_text(counts)`. */
  method CountsToText(counts: Dict<int>) returns (text: string)
    requires counts.Valid()
    ensures text == CountsText(counts)
  {
    var strList: seq<string> := [];
    for i := 0 to |counts.order|
      invariant strList == ExpandKeys(counts, counts.order[..i])
    {
      var token := counts.order[i];
      assert counts.order[..i + 1][..i] == counts.order[..i];
      if token in counts.items {
        var tokenCount := counts.items[token];
        ghost var before := strList;
        for j := 0 to if tokenCount < 0 then 0 else tokenCount
          invariant strList == before + Repeat(token, j)
        {
          strList := strList + [token];
        }
      }
    }
    assert counts.order[..|counts.order|] == counts.order;
    text := Join(strList, " ");
  }

  /** In the expansion, a listed key occurs as often as it is counted (none
      for a count below one) and nothing else occurs. */
  lemma {:induction false} ExpandKeysCount(counts: Dict<int>, keys: seq<string>, w: string)
    requires forall i, j :: 0 <= i < j < |keys| ==> keys[i] != keys[j]
    ensures multiset(ExpandKeys(counts, keys))[w] ==
      if w in keys && w in counts.items && counts.items[w] > 0 then counts.items[w] else 0
  {
    if keys != [] {
      var init, k := keys[..|keys| - 1], keys[|keys| - 1];
      ExpandKeysCount(counts, init, w);
      assert keys == init + [k];
      if k in counts.items {
        RepeatCount(k, counts.items[k], w);
      }
    }
  }

  lemma {:induction false} RepeatCount(k: string, n: int, w: string)
    ensures multiset(Repeat(k, n))[w] == if w == k && n > 0 then n else 0
  {
    if n > 0 {
      RepeatCount(k, n - 1, w);
    }
  }

  /** Expanding a tally gives back the tokens it was tallied from, up to
      order. */
  lemma ExpandTallyPermutes(ts: seq<string>)
    ensures multiset(Expand(Tally(ts))) == multiset(ts)
  {
    var t := Tally(ts);
    TallySpec(ts);
    forall w ensures multiset(Expand(t))[w] == multiset(ts)[w] {
      ExpandKeysCount(t, t.order, w);
    }
  }

  /** The expansion of keys that are all counted at least once lists the
      keys, in order, as its first occurrences. */
  lemma {:induction false} FirstOccurrencesOfExpand(counts: Dict<int>, keys: seq<string>)
    requires forall i, j :: 0 <= i < j < |keys| ==> keys[i] != keys[j]
    requires forall i :: 0 <= i < |keys| ==> keys[i] in counts.items && counts.items[keys[i]] > 0
    ensures FirstOccurrences(ExpandKeys(counts, keys)) == keys
  {
    if keys != [] {
      var init, k := keys[..|keys| - 1], keys[|keys| - 1];
      assert keys == init + [k];
      FirstOccurrencesOfExpand(counts, init);
      var a := ExpandKeys(counts, init);
      assert ExpandKeys(counts, keys) == a + Repeat(k, counts.items[k]);
      assert k !in init;
      ExpandKeysCount(counts, init, k);
      assert multiset(a)[k] == 0;
      FirstOccurrencesOfRepeat(a, k, counts.items[k]);
    }
  }

  /** Appending copies of a new element adds it once to the first
      occurrences. */
  lemma {:induction false} FirstOccurrencesOfRepeat(a: seq<string>, k: string, n: int)
    requires k !in a && n > 0
    ensures FirstOccurrences(a + Repeat(k, n)) == FirstOccurrences(a) + [k]
  {
    FirstOccurrencesSpec(a);
    if n == 1 {
      assert a + Repeat(k, n) == a + [k];
      assert (a + [k])[..|a|] == a;
    } else {
      FirstOccurrencesOfRepeat(a, k, n - 1);
      var b := a + Repeat(k, n - 1);
      assert a + Repeat(k, n) == b + [k];
      assert (b + [k])[..|b|] == b;
    }
  }

  /** The sum of the counts of the keys `keys`. */
  function CountsTotal(counts: Dict<int>, keys: seq<string>): int {
    if keys == [] then 0
    else
      var k := keys[|keys| - 1];
      CountsTotal(counts, keys[..|keys| - 1]) + (if k in counts.items then counts.items[k] else 0)
  }

  /** With no negative count, the expansion is as long as the counts sum to. */
  lemma {:induction false} ExpandKeysLength(counts: Dict<int>, keys: seq<string>)
    requires forall k :: k in counts.items ==> counts.items[k] >= 0
    ensures |ExpandKeys(counts, keys)| == CountsTotal(counts, keys)
  {
    if keys != [] {
      ExpandKeysLength(counts, keys[..|keys| - 1]);
    }
  }

  /** The counts of some tokens sum to the number of tokens. */
  lemma TallyTotal(ts: seq<string>)
    ensures CountsTotal(Tally(ts), Tally(ts).order) == |ts|
  {
    TallySpec(ts);
    ExpandKeysLength(Tally(ts), Tally(ts).order);
    ExpandTallyPermutes(ts);
    assert |multiset(Expand(Tally(ts)))| == |multiset(ts)|;
  }

  /** Tallying the expansion of a tally gives the tally back. */
  lemma TallyOfExpand(ts: seq<string>)
    ensures Tally(Expand(Tally(ts))) == Tally(ts)
  {
    var e := Expand(Tally(ts));
    TallySpec(ts);
    TallySpec(e);
    ExpandTallyPermutes(ts);
    TallyItemsOfPermutation(e, ts);
    FirstOccurrencesOfExpandTally(ts);
  }

  /** Tokens that are the same up to order have the same counts. */
  lemma TallyItemsOfPermutation(a: seq<string>, b: seq<string>)
    requires multiset(a) == multiset(b)
    ensures Tally(a).items == Tally(b).items
  {
    TallySpec(a);
    TallySpec(b);
    forall w ensures w in Tally(a).items <==> w in Tally(b).items {
      assert w in a <==> w in multiset(a);
      assert w in b <==> w in multiset(b);
    }
  }

  /** The expansion of a tally first lists its tokens in the tally's order. */
  lemma FirstOccurrencesOfExpandTally(ts: seq<string>)
    ensures FirstOccurrences(Expand(Tally(ts))) == Tally(ts).order
  {
    var t := Tally(ts);
    TallySpec(ts);
    FirstOccurrencesSpec(ts);
    forall i | 0 <= i < |t.order| ensures t.order[i] in t.items && t.items[t.order[i]] > 0 {
      assert t.order[i] in ts;
    }
    FirstOccurrencesOfExpand(t, t.order);
  }

  /** The words of the text `counts_to_text` makes of a tally are tallied
      back to that tally: the text carries the counts, in order, and
      nothing else. */
  lemma CountsTextRoundTrip(ts: seq<string>)
    requires forall i :: 0 <= i < |ts| ==> IsToken(ts[i])
    ensures Tally(SplitWhitespace(CountsText(Tally(ts)))) == Tally(ts)
  {
    var e := Expand(Tally(ts));
    ExpandTallyPermutes(ts);
    forall i | 0 <= i < |e| ensures IsToken(e[i]) {
      assert e[i] in multiset(ts);
    }
    SplitWhitespaceOfJoin(e);
    TallyOfExpand(ts);
  }

  /** Every token of some comments is a token `str.split()` can return. */
  lemma {:induction false} CommentTokensAreTokens(cs: seq<Comment>)
    ensures forall i :: 0 <= i < |CommentTokens(cs)| ==> IsToken(CommentTokens(cs)[i])
  {
    if cs != [] {
      var init := cs[..|cs| - 1];
      CommentTokensAreTokens(init);
      var a, b := CommentTokens(init), SplitWhitespace(cs[|cs| - 1].text);
      forall i | 0 <= i < |a + b| ensures IsToken((a + b)[i]) {
        if i < |a| {
          assert (a + b)[i] == a[i];
        } else {
          assert (a + b)[i] == b[i - |a|];
        }
      }
    }
  }

  /** Every token of the entries under `keys` is a token `str.split()` can
      return. */
  lemma {:induction false} TokensOfAreTokens(d: Dataset, keys: seq<string>)
    ensures forall i :: 0 <= i < |TokensOf(d, keys)| ==> IsToken(TokensOf(d, keys)[i])
  {
    if keys != [] {
      var k := keys[|keys| - 1];
      TokensOfAreTokens(d, keys[..|keys| - 1]);
      var a := TokensOf(d, keys[..|keys| - 1]);
      var b := if k in d.items then CommentTokens(d.items[k].comments) else [];
      if k in d.items {
        CommentTokensAreTokens(d.items[k].comments);
      }
      forall i | 0 <= i < |a + b| ensures IsToken((a + b)[i]) {
        if i < |a| {
          assert (a + b)[i] == a[i];
        } else {
          assert (a + b)[i] == b[i - |a|];
        }
      }
    }
  }

  /** The counts of the comments under `keys` survive being written out:
      splitting the text and counting again gives the same counts. */
  lemma TokensOfCountsRoundTrip(d: Dataset, keys: seq<string>)
    ensures Tally(SplitWhitespace(CountsText(Tally(TokensOf(d, keys))))) == Tally(TokensOf(d, keys))
  {
    TokensOfAreTokens(d, keys);
    CountsTextRoundTrip(TokensOf(d, keys));
  }

  /** The same for the counts `get_token_counts` makes of a whole dataset. */
  lemma AllTokensCountsRoundTrip(d: Dataset)
    ensures Tally(SplitWhitespace(CountsText(Tally(AllTokens(d))))) == Tally(AllTokens(d))
  {
    TokensOfCountsRoundTrip(d, d.order);
  }

  /** The empty tally is written as the empty text. */
  lemma CountsTextOfEmpty()
    ensures CountsText(Empty()) == ""
  {
  }

  /** The example `counts_to_text` documents. */
  lemma CountsTextExample()
    ensures CountsText(Dict(["hello", "hey", "apple"], map["hello" := 2, "hey" := 1, "apple" := 2]))
      == "hello hello hey apple apple"
  {
    var c := Dict(["hello", "hey", "apple"], map["hello" := 2, "hey" := 1, "apple" := 2]);
    ExampleExpanded();
    ExampleJoined();
  }

  lemma ExampleExpanded()
    ensures Expand(Dict(["hello", "hey", "apple"], map["hello" := 2, "hey" := 1, "apple" := 2]))
      == ["hello", "hello", "hey", "apple", "apple"]
  {
    var c := Dict(["hello", "hey", "apple"], map["hello" := 2, "hey" := 1, "apple" := 2]);
    assert c.order[..2] == ["hello", "hey"];
    assert c.order[..2][..1] == ["hello"];
    assert ["hello"][..0] == [];
    assert Repeat("hello", 2) == ["hello", "hello"];
    assert Repeat("hey", 1) == ["hey"];
    assert Repeat("apple", 2) == ["apple", "apple"];
    assert ExpandKeys(c, ["hello"]) == ["hello", "hello"];
    assert ExpandKeys(c, ["hello", "hey"]) == ["hello", "hello", "hey"];
  }

  lemma ExampleJoined()
    ensures Join(["hello", "hello", "hey", "apple", "apple"], " ") == "hello hello hey apple apple"
  {
    JoinFive("hello", "hello", "hey", "apple", "apple", " ");
  }
}
