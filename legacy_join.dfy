/** The older `parse_comments_data` of `preprocessing_helpers.py`: the same
    join, except that comment texts are kept as read and a video whose
    category is unknown is a `KeyError` for the category id instead of being
    skipped. */
module LegacyJoin {
  import opened Wrappers
  import opened PyDict
  import opened CsvLine
  import opened Tables
  import opened Rows
  import opened CommentJoin

  /** One comments row folded into the dataset, the older way. */
  function LegacyStep(ctx: Lookup, d: Dataset, r: CommentRow): Result<Dataset, Fault> {
    var c := RawComment(r);
    if r.videoId in d.items then
      var e := d.items[r.videoId];
      Success(d.Put(r.videoId, e.(comments := e.comments + [c])))
    else if r.videoId !in ctx.videos then Failure(KeyError(r.videoId))
    else
      var v := ctx.videos[r.videoId];
      if v.categoryId !in ctx.categories then Failure(KeyError(v.categoryId))
      else Success(d.Put(r.videoId, Entry(v, ctx.categories[v.categoryId], [c])))
  }

  /** The rows folded into the empty dataset, the older way. */
  function LegacyJoinRows(ctx: Lookup, rows: seq<CommentRow>): Result<Dataset, Fault> {
    Fold(ctx, Empty(), rows, LegacyStep)
  }

  /** The fault a row that is not kept raises: its video id when the video
      is unknown, its category id otherwise. */
  function Missing(ctx: Lookup, r: CommentRow): Fault {
    if r.videoId !in ctx.videos then KeyError(r.videoId)
    else KeyError(ctx.videos[r.videoId].categoryId)
  }

  /** Row `i` is the first whose video is not kept. */
  predicate FirstNotKept(ctx: Lookup, rows: seq<CommentRow>, i: int) {
    0 <= i < |rows| && !Kept(ctx, rows[i].videoId) &&
    forall j :: 0 <= j < i ==> Kept(ctx, rows[j].videoId)
  }

  /** The older join's entry of a kept video, given all the rows. */
  function LegacyEntryFor(ctx: Lookup, rows: seq<CommentRow>, vid: string): Entry
    requires Kept(ctx, vid)
  {
    var v := ctx.videos[vid];
    Entry(v, ctx.categories[v.categoryId], RawCommentsFor(rows, vid))
  }

  /** What the older join's dataset of the rows is: like `Describes`, but
      with the comment texts as read. */
  ghost predicate LegacyDescribes(ctx: Lookup, rows: seq<CommentRow>, d: Dataset) {
    && d.Valid()
    && d.order == KeptIds(ctx, rows)
    && forall vid :: vid in d.items ==>
         (Kept(ctx, vid) && d.items[vid] == LegacyEntryFor(ctx, rows, vid))
  }

  /** The older join succeeds exactly when every row's video is known and of
      a known category; otherwise the first row that is not raises its
      `KeyError`. */
  lemma {:induction false} LegacyJoinRowsSucceeds(ctx: Lookup, rows: seq<CommentRow>)
    ensures LegacyJoinRows(ctx, rows).Success? <==> forall i :: 0 <= i < |rows| ==> Kept(ctx, rows[i].videoId)
    ensures LegacyJoinRows(ctx, rows).Failure? ==>
      exists i :: FirstNotKept(ctx, rows, i) && LegacyJoinRows(ctx, rows).error == Missing(ctx, rows[i])
  {
    if rows != [] {
      var init, r := rows[..|rows| - 1], rows[|rows| - 1];
      LegacyJoinRowsSucceeds(ctx, init);
      assert rows == init + [r];
      if LegacyJoinRows(ctx, init).Failure? {
        LegacyFailedBefore(ctx, init, r);
      } else {
        LegacySucceededBefore(ctx, init, r);
      }
    }
  }

  /** Once the older join has failed, a row more fails it with the same
      fault, that of the first row not kept. */
  lemma LegacyFailedBefore(ctx: Lookup, rows: seq<CommentRow>, r: CommentRow)
    requires LegacyJoinRows(ctx, rows).Failure?
    requires exists i :: FirstNotKept(ctx, rows, i) && LegacyJoinRows(ctx, rows).error == Missing(ctx, rows[i])
    ensures LegacyJoinRows(ctx, rows + [r]).Failure?
    ensures !forall i :: 0 <= i < |rows + [r]| ==> Kept(ctx, (rows + [r])[i].videoId)
    ensures exists i :: FirstNotKept(ctx, rows + [r], i) && LegacyJoinRows(ctx, rows + [r]).error == Missing(ctx, (rows + [r])[i])
  {
    FoldSnoc(ctx, Empty(), rows, r, LegacyStep);
    var i :| FirstNotKept(ctx, rows, i) && LegacyJoinRows(ctx, rows).error == Missing(ctx, rows[i]);
    FirstNotKeptSnoc(ctx, rows, r, i);
  }

  /** After a successful older join, a row more succeeds exactly when its
      video is kept, and otherwise fails with its own fault. */
  lemma LegacySucceededBefore(ctx: Lookup, rows: seq<CommentRow>, r: CommentRow)
    requires LegacyJoinRows(ctx, rows).Success?
    requires forall i :: 0 <= i < |rows| ==> Kept(ctx, rows[i].videoId)
    ensures LegacyJoinRows(ctx, rows + [r]).Success? <==> forall i :: 0 <= i < |rows + [r]| ==> Kept(ctx, (rows + [r])[i].videoId)
    ensures LegacyJoinRows(ctx, rows + [r]).Failure? ==>
      FirstNotKept(ctx, rows + [r], |rows|) && LegacyJoinRows(ctx, rows + [r]).error == Missing(ctx, (rows + [r])[|rows|])
  {
    FoldSnoc(ctx, Empty(), rows, r, LegacyStep);
    LegacyJoinRowsDescribes(ctx, rows);
    LegacyStepFails(ctx, rows, r, LegacyJoinRows(ctx, rows).value);
    FirstNotKeptLast(ctx, rows, r);
  }

  /** The first row not kept stays the first when a row is added. */
  lemma FirstNotKeptSnoc(ctx: Lookup, rows: seq<CommentRow>, r: CommentRow, i: int)
    requires FirstNotKept(ctx, rows, i)
    ensures FirstNotKept(ctx, rows + [r], i) && (rows + [r])[i] == rows[i]
    ensures !forall j :: 0 <= j < |rows| + 1 ==> Kept(ctx, (rows + [r])[j].videoId)
  {
    assert (rows + [r])[i] == rows[i];
  }

  /** When every earlier row is kept, an added row is kept too or is the
      first that is not. */
  lemma FirstNotKeptLast(ctx: Lookup, rows: seq<CommentRow>, r: CommentRow)
    requires forall j :: 0 <= j < |rows| ==> Kept(ctx, rows[j].videoId)
    ensures Kept(ctx, r.videoId) <==> forall j :: 0 <= j < |rows| + 1 ==> Kept(ctx, (rows + [r])[j].videoId)
    ensures !Kept(ctx, r.videoId) ==> FirstNotKept(ctx, rows + [r], |rows|)
  {
    assert (rows + [r])[|rows|] == r;
    assert forall j :: 0 <= j < |rows| ==> (rows + [r])[j] == rows[j];
  }

  /** On the dataset of earlier rows, a step of the older join fails exactly
      when the row's video is not kept, with that row's `KeyError`. */
  lemma LegacyStepFails(ctx: Lookup, rows: seq<CommentRow>, r: CommentRow, d: Dataset)
    requires LegacyDescribes(ctx, rows, d)
    ensures LegacyStep(ctx, d, r).Success? <==> Kept(ctx, r.videoId)
    ensures LegacyStep(ctx, d, r).Failure? ==> LegacyStep(ctx, d, r).error == Missing(ctx, r)
  {
  }

  /** A successful older join yields exactly the dataset `LegacyDescribes`
      specifies. */
  lemma {:induction false} LegacyJoinRowsDescribes(ctx: Lookup, rows: seq<CommentRow>)
    ensures LegacyJoinRows(ctx, rows).Success? ==> LegacyDescribes(ctx, rows, LegacyJoinRows(ctx, rows).value)
  {
    if rows != [] {
      var init, r := rows[..|rows| - 1], rows[|rows| - 1];
      LegacyJoinRowsDescribes(ctx, init);
      assert rows == init + [r];
      FoldSnoc(ctx, Empty(), init, r, LegacyStep);
      if LegacyJoinRows(ctx, init).Success? && LegacyJoinRows(ctx, rows).Success? {
        LegacyStepDescribes(ctx, init, r, LegacyJoinRows(ctx, init).value);
      }
    }
  }

  /** One step of the older join keeps its description. */
  lemma LegacyStepDescribes(ctx: Lookup, rows: seq<CommentRow>, r: CommentRow, d: Dataset)
    requires LegacyDescribes(ctx, rows, d)
    requires LegacyStep(ctx, d, r).Success?
    ensures LegacyDescribes(ctx, rows + [r], LegacyStep(ctx, d, r).value)
  {
    var d' := LegacyStep(ctx, d, r).value;
    KeptIdsSpec(ctx, rows);
    KeptIdsSnoc(ctx, rows, r);
    forall w | w in d'.items ensures Kept(ctx, w) && d'.items[w] == LegacyEntryFor(ctx, rows + [r], w) {
      LegacyStepEntry(ctx, rows, r, d, w);
    }
  }

  /** After a step of the older join, each entry of the dataset is the
      entry of its video given the rows and the new one. */
  lemma LegacyStepEntry(ctx: Lookup, rows: seq<CommentRow>, r: CommentRow, d: Dataset, w: string)
    requires LegacyDescribes(ctx, rows, d)
    requires LegacyStep(ctx, d, r).Success? && w in LegacyStep(ctx, d, r).value.items
    ensures Kept(ctx, w) && LegacyStep(ctx, d, r).value.items[w] == LegacyEntryFor(ctx, rows + [r], w)
  {
    if w == r.videoId {
      LegacyStepEntryOfRow(ctx, rows, r, d);
    } else {
      var raw := RawCommentsFor(rows, w);
      RawCommentsForSnoc(rows, r, w);
      assert raw + [] == raw;
      assert w in d.items && LegacyStep(ctx, d, r).value.items[w] == d.items[w];
    }
  }

  /** The entry of the row's own video gets the row's comment, as read. */
  lemma LegacyStepEntryOfRow(ctx: Lookup, rows: seq<CommentRow>, r: CommentRow, d: Dataset)
    requires LegacyDescribes(ctx, rows, d)
    requires LegacyStep(ctx, d, r).Success? && r.videoId in LegacyStep(ctx, d, r).value.items
    ensures Kept(ctx, r.videoId) && LegacyStep(ctx, d, r).value.items[r.videoId] == LegacyEntryFor(ctx, rows + [r], r.videoId)
  {
    var vid := r.videoId;
    RawCommentsForSnoc(rows, r, vid);
    if vid !in d.items {
      KeptIdsSpec(ctx, rows);
      RawCommentsForAbsent(rows, vid);
      assert [] + [RawComment(r)] == [RawComment(r)];
    }
  }

  /** The dataset with every comment text preprocessed. */
  function Cleaned(d: Dataset): Dataset {
    Dict(d.order, map vid | vid in d.items :: d.items[vid].(comments := Preprocessed(d.items[vid].comments)))
  }

  /** Wherever the older join succeeds, the current one succeeds too, on the
      same videos in the same order, and differs only in having preprocessed
      the comment texts. */
  lemma LegacyThenCurrent(ctx: Lookup, rows: seq<CommentRow>)
    requires LegacyJoinRows(ctx, rows).Success?
    ensures JoinRows(ctx, rows) == Success(Cleaned(LegacyJoinRows(ctx, rows).value))
  {
    var legacy := LegacyJoinRows(ctx, rows).value;
    LegacyJoinRowsSucceeds(ctx, rows);
    LegacyJoinRowsDescribes(ctx, rows);
    JoinRowsSucceeds(ctx, rows);
    JoinRowsDescribes(ctx, rows);
    var d := JoinRows(ctx, rows).value;
    var c := Cleaned(legacy);
    assert Describes(ctx, rows, c) by {
      forall vid | vid in c.items ensures Kept(ctx, vid) && c.items[vid] == EntryFor(ctx, rows, vid) {
      }
    }
    DescribesUnique(ctx, rows, d, c);
  }

  /** The dataset the older `parse_comments_data` returns for the lines of
      the comments file. */
  function LegacyCommentsData(ctx: Lookup, lines: seq<string>): Result<Dataset, Fault>
    requires forall i :: 1 <= i < |lines| ==> IsSingleLine(lines[i])
  {
    if lines == [] then Success(Empty()) else LegacyJoinRows(ctx, CommentRows(lines[1..]))
  }

  /** The older `parse_comments_data(videos_data, categories_data,
      comments_file)`, reading the file's lines one by one. */
  method LegacyParseCommentsData(videos: map<string, VideoInfo>, categories: map<string, string>, lines: seq<string>)
    returns (r: Result<Dataset, Fault>)
    requires forall i :: 1 <= i < |lines| ==> IsSingleLine(lines[i])
    ensures r == LegacyCommentsData(Lookup(videos, categories), lines)
  {
    ghost var ctx := Lookup(videos, categories);
    if lines == [] {
      return Success(Empty());
    }
    var allData: Dataset := Empty();
    var i := 1;
    while i < |lines|
      invariant 1 <= i <= |lines|
      invariant Fold(ctx, Empty(), RowsBefore(lines, i), LegacyStep) == Success(allData)
    {
      var parsed := ParseCommentLine(lines[i]);
      JoinLinesStep(ctx, lines, i, LegacyStep);
      if parsed.Some? {
        var joined := LegacyJoinRow(videos, categories, allData, parsed.value);
        if joined.Failure? {
          JoinLinesFailureSticks(ctx, lines, i + 1, LegacyStep);
          RowsBeforeEnd(lines);
          return joined;
        }
        allData := joined.value;
      }
      i := i + 1;
    }
    RowsBeforeEnd(lines);
    return Success(allData);
  }

  /** The body of the loop of the older `parse_comments_data` for one row
      read. */
  method LegacyJoinRow(videos: map<string, VideoInfo>, categories: map<string, string>, allData: Dataset, row: CommentRow)
    returns (r: Result<Dataset, Fault>)
    ensures r == LegacyStep(Lookup(videos, categories), allData, row)
  {
    var comment := Comment(row.text, row.likes, row.replies);
    if row.videoId in allData.items {
      var e := allData.items[row.videoId];
      r := Success(allData.Put(row.videoId, e.(comments := e.comments + [comment])));
    } else if row.videoId !in videos {
      r := Failure(KeyError(row.videoId));
    } else if videos[row.videoId].categoryId !in categories {
      r := Failure(KeyError(videos[row.videoId].categoryId));
    } else {
      var v := videos[row.videoId];
      r := Success(allData.Put(row.videoId, Entry(v, categories[v.categoryId], [comment])));
    }
  }
}
