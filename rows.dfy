/** The shape shared by the table readers: parse the lines of a file one by
    one, the first failure ending the read, and collect the parsed rows into
    a dictionary keyed by their first field. */
module Rows {
  import opened Wrappers

  /** Every element parsed by `parse`, in order, stopping at the first
      failure, as a loop over the lines of a file does. */
  function Traverse<A, B>(xs: seq<A>, parse: A --> Result<B, Fault>): Result<seq<B>, Fault>
    requires forall i :: 0 <= i < |xs| ==> parse.requires(xs[i])
  {
    if xs == [] then Success([])
    else
      match Traverse(xs[..|xs| - 1], parse)
      case Failure(e) => Failure(e)
      case Success(done) =>
        match parse(xs[|xs| - 1])
        case Failure(e) => Failure(e)
        case Success(y) => Success(done + [y])
  }

  /** The parses are there exactly when every element parses, and then they
      are the elements' parses, one for one; otherwise the fault is that of
      the first element that fails. */
  lemma {:induction false} TraverseSpec<A, B>(xs: seq<A>, parse: A --> Result<B, Fault>)
    requires forall i :: 0 <= i < |xs| ==> parse.requires(xs[i])
    ensures Traverse(xs, parse).Success? <==> forall i :: 0 <= i < |xs| ==> parse(xs[i]).Success?
    ensures Traverse(xs, parse).Failure? ==>
      exists i :: FirstFailure(xs, parse, i) && Traverse(xs, parse).error == parse(xs[i]).error
    ensures Traverse(xs, parse).Success? ==>
      |Traverse(xs, parse).value| == |xs| &&
      forall i :: 0 <= i < |xs| ==> Traverse(xs, parse).value[i] == parse(xs[i]).value
  {
    if xs != [] {
      var init := xs[..|xs| - 1];
      TraverseSpec(init, parse);
      assert forall i :: 0 <= i < |init| ==> init[i] == xs[i];
      if Traverse(init, parse).Failure? {
        var i :| FirstFailure(init, parse, i) && Traverse(init, parse).error == parse(init[i]).error;
        assert FirstFailure(xs, parse, i);
      } else if parse(xs[|xs| - 1]).Failure? {
        assert FirstFailure(xs, parse, |xs| - 1);
      }
    }
  }

  /** Element `i` is the first that fails to parse. */
  predicate FirstFailure<A, B>(xs: seq<A>, parse: A --> Result<B, Fault>, i: int)
    requires forall i :: 0 <= i < |xs| ==> parse.requires(xs[i])
  {
    0 <= i < |xs| && parse(xs[i]).Failure? && forall j :: 0 <= j < i ==> parse(xs[j]).Success?
  }

  /** One more element: its parse is appended, or its failure ends the read. */
  lemma TraverseStep<A, B>(xs: seq<A>, parse: A --> Result<B, Fault>, n: nat)
    requires forall i :: 0 <= i < |xs| ==> parse.requires(xs[i])
    requires n < |xs| && Traverse(xs[..n], parse).Success?
    ensures parse(xs[n]).Success? ==>
      Traverse(xs[..n + 1], parse) == Success(Traverse(xs[..n], parse).value + [parse(xs[n]).value])
    ensures parse(xs[n]).Failure? ==> Traverse(xs, parse) == Failure(parse(xs[n]).error)
  {
    assert xs[..n + 1][..n] == xs[..n];
    if parse(xs[n]).Failure? {
      TraverseFailureSticks(xs, parse, n + 1);
    }
  }

  /** Once a prefix fails to parse, the whole fails with the same fault. */
  lemma {:induction false} TraverseFailureSticks<A, B>(xs: seq<A>, parse: A --> Result<B, Fault>, n: nat)
    requires forall i :: 0 <= i < |xs| ==> parse.requires(xs[i])
    requires n <= |xs|
    requires Traverse(xs[..n], parse).Failure?
    ensures Traverse(xs, parse) == Traverse(xs[..n], parse)
    decreases |xs| - n
  {
    if n < |xs| {
      assert xs[..n + 1][..n] == xs[..n];
      TraverseFailureSticks(xs, parse, n + 1);
    } else {
      assert xs[..n] == xs;
    }
  }

  /** `dict(pairs)`: each pair assigned in turn, so the last pair for a key wins. */
  function FromPairs<V>(pairs: seq<(string, V)>): map<string, V> {
    if pairs == [] then map[]
    else
      var last := pairs[|pairs| - 1];
      FromPairs(pairs[..|pairs| - 1])[last.0 := last.1]
  }

  /** The keys are exactly the keys of the pairs. */
  lemma {:induction false} FromPairsKeys<V>(pairs: seq<(string, V)>)
    ensures forall k :: k in FromPairs(pairs) <==> exists i :: 0 <= i < |pairs| && pairs[i].0 == k
  {
    if pairs != [] {
      var init := pairs[..|pairs| - 1];
      FromPairsKeys(init);
      assert forall i :: 0 <= i < |init| ==> init[i] == pairs[i];
    }
  }

  /** A key is mapped to the value of its last pair. */
  lemma {:induction false} FromPairsLastWins<V>(pairs: seq<(string, V)>, i: nat)
    requires i < |pairs|
    requires forall j :: i < j < |pairs| ==> pairs[j].0 != pairs[i].0
    ensures pairs[i].0 in FromPairs(pairs) && FromPairs(pairs)[pairs[i].0] == pairs[i].1
  {
    if i < |pairs| - 1 {
      var init := pairs[..|pairs| - 1];
      assert init[i] == pairs[i];
      FromPairsLastWins(init, i);
    }
  }

  /** The dictionary read from the lines of a file with a header line: the
      header is skipped, every other line is parsed into a key and a value,
      and the first line that does not parse ends the read with its fault. */
  function KeyedTable<V>(lines: seq<string>, parse: string --> Result<(string, V), Fault>): Result<map<string, V>, Fault>
    requires forall i :: 1 <= i < |lines| ==> parse.requires(lines[i])
  {
    if lines == [] then Success(map[])
    else
      match Traverse(lines[1..], parse)
      case Failure(e) => Failure(e)
      case Success(rows) => Success(FromPairs(rows))
  }

  /** The table is built exactly when every line after the header parses;
      otherwise the fault is that of the first line that does not. */
  lemma KeyedTableSucceeds<V>(lines: seq<string>, parse: string --> Result<(string, V), Fault>)
    requires forall i :: 1 <= i < |lines| ==> parse.requires(lines[i])
    ensures KeyedTable(lines, parse).Success? <==> forall i :: 1 <= i < |lines| ==> parse(lines[i]).Success?
    ensures KeyedTable(lines, parse).Failure? ==>
      exists i :: 1 <= i < |lines| && parse(lines[i]).Failure? && KeyedTable(lines, parse).error == parse(lines[i]).error
  {
    if lines != [] {
      var data := lines[1..];
      assert forall i :: 0 <= i < |data| ==> data[i] == lines[i + 1];
      TraverseSpec(data, parse);
      if Traverse(data, parse).Failure? {
        var i :| FirstFailure(data, parse, i) && Traverse(data, parse).error == parse(data[i]).error;
        assert parse(lines[i + 1]).Failure?;
      }
    }
  }

  /** The keys of a built table are the keys of the lines after the header. */
  lemma KeyedTableKeys<V>(lines: seq<string>, parse: string --> Result<(string, V), Fault>, key: string)
    requires forall i :: 1 <= i < |lines| ==> parse.requires(lines[i])
    requires KeyedTable(lines, parse).Success?
    ensures key in KeyedTable(lines, parse).value <==>
      exists i :: 1 <= i < |lines| && parse(lines[i]).Success? && parse(lines[i]).value.0 == key
  {
    if lines != [] {
      var data := lines[1..];
      assert forall i :: 0 <= i < |data| ==> data[i] == lines[i + 1];
      TraverseSpec(data, parse);
      var rows := Traverse(data, parse).value;
      FromPairsKeys(rows);
      if key in FromPairs(rows) {
        var i :| 0 <= i < |rows| && rows[i].0 == key;
        assert parse(lines[i + 1]).value.0 == key;
      }
      if exists i :: 1 <= i < |lines| && parse(lines[i]).Success? && parse(lines[i]).value.0 == key {
        var i :| 1 <= i < |lines| && parse(lines[i]).Success? && parse(lines[i]).value.0 == key;
        assert rows[i - 1].0 == key;
      }
    }
  }

  /** In a built table, a key maps to the value of the last line that has it. */
  lemma KeyedTableLastWins<V>(lines: seq<string>, parse: string --> Result<(string, V), Fault>, i: nat)
    requires forall i :: 1 <= i < |lines| ==> parse.requires(lines[i])
    requires KeyedTable(lines, parse).Success?
    requires 1 <= i < |lines| && parse(lines[i]).Success?
    requires forall j :: i < j < |lines| && parse(lines[j]).Success? ==> parse(lines[j]).value.0 != parse(lines[i]).value.0
    ensures parse(lines[i]).value.0 in KeyedTable(lines, parse).value
    ensures KeyedTable(lines, parse).value[parse(lines[i]).value.0] == parse(lines[i]).value.1
  {
    var data := lines[1..];
    assert forall i :: 0 <= i < |data| ==> data[i] == lines[i + 1];
    TraverseSpec(data, parse);
    var rows := Traverse(data, parse).value;
    forall j | i - 1 < j < |rows| ensures rows[j].0 != rows[i - 1].0 {
      assert rows[j] == parse(lines[j + 1]).value;
    }
    FromPairsLastWins(rows, i - 1);
  }

  /** The state after feeding the elements one by one to `step`, starting
      from `init`; the first failing step ends the run with its fault. The
      context `ctx` is handed to every step unchanged. */
  function Fold<C, S, X>(ctx: C, init: S, xs: seq<X>, step: (C, S, X) -> Result<S, Fault>): Result<S, Fault> {
    if xs == [] then Success(init)
    else
      match Fold(ctx, init, xs[..|xs| - 1], step)
      case Failure(e) => Failure(e)
      case Success(s) => step(ctx, s, xs[|xs| - 1])
  }

  /** One more element is one more step. */
  lemma FoldSnoc<C, S, X>(ctx: C, init: S, xs: seq<X>, x: X, step: (C, S, X) -> Result<S, Fault>)
    ensures Fold(ctx, init, xs + [x], step) ==
      match Fold(ctx, init, xs, step)
      case Failure(e) => Failure(e)
      case Success(s) => step(ctx, s, x)
  {
    assert (xs + [x])[..|xs|] == xs;
  }

  /** Once a run has failed, more elements do not change its fault. */
  lemma {:induction false} FoldFailureSticks<C, S, X>(ctx: C, init: S, xs: seq<X>, ys: seq<X>, step: (C, S, X) -> Result<S, Fault>)
    requires Fold(ctx, init, xs, step).Failure?
    ensures Fold(ctx, init, xs + ys, step) == Fold(ctx, init, xs, step)
  {
    if ys != [] {
      var front := ys[..|ys| - 1];
      FoldFailureSticks(ctx, init, xs, front, step);
      assert xs + ys == (xs + front) + [ys[|ys| - 1]];
      FoldSnoc(ctx, init, xs + front, ys[|ys| - 1], step);
    } else {
      assert xs + ys == xs;
    }
  }

  /** The parses of the elements that parse, in order; the others are
      skipped. */
  function Collect<A, B>(xs: seq<A>, parse: A --> Option<B>): seq<B>
    requires forall i :: 0 <= i < |xs| ==> parse.requires(xs[i])
  {
    if xs == [] then []
    else
      Collect(xs[..|xs| - 1], parse) + match parse(xs[|xs| - 1]) case None => [] case Some(y) => [y]
  }

  /** Elements are parsed independently: collecting two runs is collecting
      the first and then the second. */
  lemma {:induction false} CollectAppend<A, B>(xs: seq<A>, ys: seq<A>, parse: A --> Option<B>)
    requires forall i :: 0 <= i < |xs| ==> parse.requires(xs[i])
    requires forall i :: 0 <= i < |ys| ==> parse.requires(ys[i])
    ensures Collect(xs + ys, parse) == Collect(xs, parse) + Collect(ys, parse)
  {
    if ys != [] {
      var front := ys[..|ys| - 1];
      CollectAppend(xs, front, parse);
      assert (xs + ys)[..|xs + ys| - 1] == xs + front;
    } else {
      assert xs + ys == xs;
    }
  }

  /** A single element contributes its parse, or nothing. */
  lemma CollectOne<A, B>(x: A, parse: A --> Option<B>)
    requires parse.requires(x)
    ensures Collect([x], parse) == match parse(x) case None => [] case Some(y) => [y]
  {
    assert [x][..0] == [];
  }

  /** Folding over what the elements from `lo` up to `n` inclusive parse to
      is folding over what those before `n` parse to and then, when element
      `n` parses, one more step. */
  lemma CollectFoldStep<C, S, A, B>(ctx: C, init: S, xs: seq<A>, lo: nat, n: nat, parse: A --> Option<B>, step: (C, S, B) -> Result<S, Fault>)
    requires forall i :: lo <= i < |xs| ==> parse.requires(xs[i])
    requires lo <= n < |xs|
    ensures Fold(ctx, init, Collect(xs[lo..n + 1], parse), step) ==
      match parse(xs[n])
      case None => Fold(ctx, init, Collect(xs[lo..n], parse), step)
      case Some(y) =>
        match Fold(ctx, init, Collect(xs[lo..n], parse), step)
        case Failure(e) => Failure(e)
        case Success(s) => step(ctx, s, y)
  {
    assert xs[lo..n + 1] == xs[lo..n] + [xs[n]];
    CollectAppend(xs[lo..n], [xs[n]], parse);
    CollectOne(xs[n], parse);
    if parse(xs[n]).Some? {
      FoldSnoc(ctx, init, Collect(xs[lo..n], parse), parse(xs[n]).value, step);
    } else {
      assert Collect(xs[lo..n], parse) + [] == Collect(xs[lo..n], parse);
    }
  }

  /** Once what the elements from `lo` up to `n` parse to fails to fold,
      the whole run from `lo` fails with the same fault. */
  lemma CollectFoldFailureSticks<C, S, A, B>(ctx: C, init: S, xs: seq<A>, lo: nat, n: nat, parse: A --> Option<B>, step: (C, S, B) -> Result<S, Fault>)
    requires forall i :: lo <= i < |xs| ==> parse.requires(xs[i])
    requires lo <= n <= |xs|
    requires Fold(ctx, init, Collect(xs[lo..n], parse), step).Failure?
    ensures Fold(ctx, init, Collect(xs[lo..|xs|], parse), step) == Fold(ctx, init, Collect(xs[lo..n], parse), step)
  {
    assert xs[lo..|xs|] == xs[lo..n] + xs[n..];
    CollectAppend(xs[lo..n], xs[n..], parse);
    FoldFailureSticks(ctx, init, Collect(xs[lo..n], parse), Collect(xs[n..], parse), step);
  }
}
