/** `parse_comments_data`: the comments file joined with the videos table and
    the category names into one dataset entry per video, in the order in
    which the videos are first commented on. */
module CommentJoin {
  import opened Wrappers
  import opened PyDict
  import opened CsvLine
  import opened Normalize
  import opened Tables
  import opened Rows

  /** One entry of a video's `comments` list. */
  datatype Comment = Comment(text: string, likes: string, replies: string)

  /** One video of the dataset: its fields from the videos table, the name of
      its category and its comments, in file order. */
  datatype Entry = Entry(video: VideoInfo, categoryName: string, comments: seq<Comment>)

  /** The dataset, keyed by video id, in insertion order. */
  type Dataset = Dict<Entry>

  /** The two tables the join looks ids up in. */
  datatype Lookup = Lookup(videos: map<string, VideoInfo>, categories: map<string, string>)

  /** The four leading fields of a comments row, as read. */
  datatype CommentRow = CommentRow(videoId: string, text: string, likes: string, replies: string)

  /** The fields of a split comments row; fewer than four is a row the join
      skips. */
  function CommentRecord(f: seq<string>): (r: Option<CommentRow>)
    ensures r.None? <==> |f| < 4
    ensures r.Some? ==> [r.value.videoId, r.value.text, r.value.likes, r.value.replies] == f[..4]
  {
    if |f| < 4 then None else Some(CommentRow(f[0], f[1], f[2], f[3]))
  }

  /** One data line of the comments file: stripped and split. Every failure
      (an empty line, too few fields) is caught and the line skipped. */
  function ParseCommentLine(line: string): Option<CommentRow>
    requires IsSingleLine(line)
  {
    match SeparateCsvLine(RemoveWhitespace(line))
    case Failure(_) => None
    case Success(f) => CommentRecord(f)
  }

  /** A line is skipped exactly when, once stripped, it is empty or holds
      fewer than four fields. */
  lemma ParseCommentLineSkips(line: string)
    requires IsSingleLine(line)
    ensures ParseCommentLine(line).None? <==>
      RemoveWhitespace(line) == [] || |SeparateCsvLine(RemoveWhitespace(line)).value| < 4
  {
  }

  /** Reading back a row written with the excel dialect gives its first four
      fields. */
  lemma ParseWrittenCommentLine(fields: seq<string>, quoted: seq<bool>)
    requires |fields| >= 4 && Writable(fields, quoted)
    requires IsStripped(WriteRow(fields, quoted))
    ensures IsSingleLine(WriteRow(fields, quoted)) &&
      ParseCommentLine(WriteRow(fields, quoted)) == Some(CommentRow(fields[0], fields[1], fields[2], fields[3]))
  {
    RoundTrip(fields, quoted);
    RemoveWhitespaceOfStripped(WriteRow(fields, quoted));
  }

  /** The rows of the lines that parse, in order. */
  function CommentRows(lines: seq<string>): seq<CommentRow>
    requires forall i :: 0 <= i < |lines| ==> IsSingleLine(lines[i])
  {
    Collect(lines, ParseCommentLine)
  }

  /** The comment a row contributes, its text as read. */
  function RawComment(r: CommentRow): Comment {
    Comment(r.text, r.likes, r.replies)
  }

  /** The comments with their texts preprocessed. */
  function Preprocessed(cs: seq<Comment>): seq<Comment> {
    seq(|cs|, k requires 0 <= k < |cs| => CleanComment(cs[k]))
  }

  /** A comment with its text preprocessed. */
  function CleanComment(c: Comment): Comment {
    c.(text := PreprocessString(c.text))
  }

  /** The comments of the rows for video `vid`, in row order, texts as read. */
  function RawCommentsFor(rows: seq<CommentRow>, vid: string): seq<Comment> {
    if rows == [] then []
    else
      var last := rows[|rows| - 1];
      RawCommentsFor(rows[..|rows| - 1], vid) + (if last.videoId == vid then [RawComment(last)] else [])
  }

  /** A video the join keeps: known, and of a known category. */
  predicate Kept(ctx: Lookup, vid: string) {
    vid in ctx.videos && ctx.videos[vid].categoryId in ctx.categories
  }

  /** The ids of the rows whose video is kept, each once, in order of first
      appearance. */
  function KeptIds(ctx: Lookup, rows: seq<CommentRow>): seq<string> {
    if rows == [] then []
    else
      var ids := KeptIds(ctx, rows[..|rows| - 1]);
      var vid := rows[|rows| - 1].videoId;
      if Kept(ctx, vid) && vid !in ids then ids + [vid] else ids
  }

  /** `KeptIds` lists exactly the kept videos some row is about, each once. */
  lemma {:induction false} KeptIdsSpec(ctx: Lookup, rows: seq<CommentRow>)
    ensures forall vid :: vid in KeptIds(ctx, rows) <==>
      Kept(ctx, vid) && exists i :: 0 <= i < |rows| && rows[i].videoId == vid
    ensures forall i, j :: 0 <= i < j < |KeptIds(ctx, rows)| ==> KeptIds(ctx, rows)[i] != KeptIds(ctx, rows)[j]
  {
    if rows != [] {
      var init := rows[..|rows| - 1];
      KeptIdsSpec(ctx, init);
      assert forall i :: 0 <= i < |init| ==> init[i] == rows[i];
    }
  }

  /** The dataset entry of a kept video, given all the rows. */
  function EntryFor(ctx: Lookup, rows: seq<CommentRow>, vid: string): Entry
    requires Kept(ctx, vid)
  {
    var v := ctx.videos[vid];
    Entry(v, ctx.categories[v.categoryId], Preprocessed(RawCommentsFor(rows, vid)))
  }

  /** What the joined dataset of the rows is: one entry per kept video, in
      order of first appearance, holding the video's fields, its category's
      name and the preprocessed comments of all its rows in row order. */
  ghost predicate Describes(ctx: Lookup, rows: seq<CommentRow>, d: Dataset) {
    && d.Valid()
    && d.order == KeptIds(ctx, rows)
    && forall vid :: vid in d.items ==> Kept(ctx, vid) && d.items[vid] == EntryFor(ctx, rows, vid)
  }

  /** One comments row folded into the dataset: a known video gets the
      comment appended; an unknown video is a `KeyError`; a video whose
      category is unknown is skipped; any other video gets a new entry. */
  function Step(ctx: Lookup, d: Dataset, r: CommentRow): Result<Dataset, Fault> {
    var c := CleanComment(RawComment(r));
    if r.videoId in d.items then
      var e := d.items[r.videoId];
      Success(d.Put(r.videoId, e.(comments := e.comments + [c])))
    else if r.videoId !in ctx.videos then Failure(KeyError(r.videoId))
    else
      var v := ctx.videos[r.videoId];
      if v.categoryId !in ctx.categories then Success(d)
      else Success(d.Put(r.videoId, Entry(v, ctx.categories[v.categoryId], [c])))
  }

  /** The rows folded into the empty dataset. */
  function JoinRows(ctx: Lookup, rows: seq<CommentRow>): Result<Dataset, Fault> {
    Fold(ctx, Empty(), rows, Step)
  }

  /** Row `i` is the first whose video is not in the videos table. */
  predicate FirstUnknown(ctx: Lookup, rows: seq<CommentRow>, i: int) {
    0 <= i < |rows| && rows[i].videoId !in ctx.videos &&
    forall j :: 0 <= j < i ==> rows[j].videoId in ctx.videos
  }

  /** The join succeeds exactly when every row's video is in the videos
      table; otherwise it fails with a `KeyError` for the first row's video
      that is not. */
  lemma {:induction false} JoinRowsSucceeds(ctx: Lookup, rows: seq<CommentRow>)
    ensures JoinRows(ctx, rows).Success? <==> forall i :: 0 <= i < |rows| ==> rows[i].videoId in ctx.videos
    ensures JoinRows(ctx, rows).Failure? ==>
      exists i :: FirstUnknown(ctx, rows, i) && JoinRows(ctx, rows).error == KeyError(rows[i].videoId)
  {
    if rows != [] {
      var init, r := rows[..|rows| - 1], rows[|rows| - 1];
      JoinRowsSucceeds(ctx, init);
      assert rows == init + [r];
      FoldSnoc(ctx, Empty(), init, r, Step);
      assert forall i :: 0 <= i < |init| ==> init[i] == rows[i];
      if JoinRows(ctx, init).Failure? {
        var i :| FirstUnknown(ctx, init, i) && JoinRows(ctx, init).error == KeyError(init[i].videoId);
        assert FirstUnknown(ctx, rows, i);
      } else {
        var d := JoinRows(ctx, init).value;
        JoinRowsDescribes(ctx, init);
        if r.videoId in d.items {
          assert Kept(ctx, r.videoId);
        } else if r.videoId !in ctx.videos {
          assert FirstUnknown(ctx, rows, |rows| - 1);
        }
      }
    }
  }

  /** A successful join yields exactly the dataset `Describes` specifies. */
  lemma {:induction false} JoinRowsDescribes(ctx: Lookup, rows: seq<CommentRow>)
    ensures JoinRows(ctx, rows).Success? ==> Describes(ctx, rows, JoinRows(ctx, rows).value)
  {
    if rows != [] {
      var init, r := rows[..|rows| - 1], rows[|rows| - 1];
      JoinRowsDescribes(ctx, init);
      assert rows == init + [r];
      FoldSnoc(ctx, Empty(), init, r, Step);
      if JoinRows(ctx, init).Success? && JoinRows(ctx, rows).Success? {
        StepDescribes(ctx, init, r, JoinRows(ctx, init).value);
      }
    }
  }

  /** One step keeps the description: from the dataset of some rows, a
      successful step gives the dataset of those rows and one more. */
  lemma StepDescribes(ctx: Lookup, rows: seq<CommentRow>, r: CommentRow, d: Dataset)
    requires Describes(ctx, rows, d)
    requires Step(ctx, d, r).Success?
    ensures Describes(ctx, rows + [r], Step(ctx, d, r).value)
  {
    var d' := Step(ctx, d, r).value;
    KeptIdsSpec(ctx, rows);
    KeptIdsSnoc(ctx, rows, r);
    forall w | w in d'.items ensures Kept(ctx, w) && d'.items[w] == EntryFor(ctx, rows + [r], w) {
      StepEntry(ctx, rows, r, d, w);
    }
  }

  /** After a step, each entry of the dataset is the entry of its video
      given the rows and the new one. */
  lemma StepEntry(ctx: Lookup, rows: seq<CommentRow>, r: CommentRow, d: Dataset, w: string)
    requires Describes(ctx, rows, d)
    requires Step(ctx, d, r).Success? && w in Step(ctx, d, r).value.items
    ensures Kept(ctx, w) && Step(ctx, d, r).value.items[w] == EntryFor(ctx, rows + [r], w)
  {
    if w == r.videoId {
      StepEntryOfRow(ctx, rows, r, d);
    } else {
      StepEntryOfOther(ctx, rows, r, d, w);
    }
  }

  /** The entry of the row's own video gets the row's comment, preprocessed. */
  lemma StepEntryOfRow(ctx: Lookup, rows: seq<CommentRow>, r: CommentRow, d: Dataset)
    requires Describes(ctx, rows, d)
    requires Step(ctx, d, r).Success? && r.videoId in Step(ctx, d, r).value.items
    ensures Kept(ctx, r.videoId) && Step(ctx, d, r).value.items[r.videoId] == EntryFor(ctx, rows + [r], r.videoId)
  {
    var vid := r.videoId;
    var raw := RawCommentsFor(rows, vid);
    RawCommentsForSnoc(rows, r, vid);
    PreprocessedSnoc(raw, RawComment(r));
    if vid !in d.items {
      KeptIdsSpec(ctx, rows);
      RawCommentsForAbsent(rows, vid);
      assert Preprocessed(raw) == [];
    }
  }

  /** The entries of the other videos are left as they are. */
  lemma StepEntryOfOther(ctx: Lookup, rows: seq<CommentRow>, r: CommentRow, d: Dataset, w: string)
    requires Describes(ctx, rows, d)
    requires Step(ctx, d, r).Success? && w in Step(ctx, d, r).value.items && w != r.videoId
    ensures Kept(ctx, w) && Step(ctx, d, r).value.items[w] == EntryFor(ctx, rows + [r], w)
  {
    var raw := RawCommentsFor(rows, w);
    RawCommentsForSnoc(rows, r, w);
    assert raw + [] == raw;
    assert w in d.items && Step(ctx, d, r).value.items[w] == d.items[w];
  }

  /** One more row adds its video to the kept ids when it is kept and not
      yet listed. */
  lemma KeptIdsSnoc(ctx: Lookup, rows: seq<CommentRow>, r: CommentRow)
    ensures KeptIds(ctx, rows + [r]) ==
      if Kept(ctx, r.videoId) && r.videoId !in KeptIds(ctx, rows) then KeptIds(ctx, rows) + [r.videoId]
      else KeptIds(ctx, rows)
  {
    assert (rows + [r])[..|rows|] == rows;
  }

  /** One more row adds its comment to its own video's comments and to no
      other's. */
  lemma RawCommentsForSnoc(rows: seq<CommentRow>, r: CommentRow, w: string)
    ensures RawCommentsFor(rows + [r], w) ==
      RawCommentsFor(rows, w) + (if r.videoId == w then [RawComment(r)] else [])
  {
    assert (rows + [r])[..|rows|] == rows;
  }

  lemma PreprocessedSnoc(cs: seq<Comment>, c: Comment)
    ensures Preprocessed(cs + [c]) == Preprocessed(cs) + [CleanComment(c)]
  {
    var a, b := Preprocessed(cs + [c]), Preprocessed(cs) + [CleanComment(c)];
    assert |a| == |b|;
    forall k | 0 <= k < |a| ensures a[k] == b[k] {
      if k < |cs| { assert (cs + [c])[k] == cs[k]; }
    }
  }

  /** A video no row is about has no comments. */
  lemma {:induction false} RawCommentsForAbsent(rows: seq<CommentRow>, vid: string)
    requires forall i :: 0 <= i < |rows| ==> rows[i].videoId != vid
    ensures RawCommentsFor(rows, vid) == []
  {
    if rows != [] {
      var init := rows[..|rows| - 1];
      assert forall i :: 0 <= i < |init| ==> init[i] == rows[i];
      RawCommentsForAbsent(init, vid);
    }
  }

  /** `Describes` pins the dataset down: two datasets it admits are equal. */
  lemma DescribesUnique(ctx: Lookup, rows: seq<CommentRow>, d1: Dataset, d2: Dataset)
    requires Describes(ctx, rows, d1) && Describes(ctx, rows, d2)
    ensures d1 == d2
  {
    assert d1.items.Keys == d2.items.Keys;
    assert d1.items == d2.items;
  }

  /** A video some row is about has at least one comment. */
  lemma {:induction false} RawCommentsForMentioned(rows: seq<CommentRow>, vid: string, i: int)
    requires 0 <= i < |rows| && rows[i].videoId == vid
    ensures RawCommentsFor(rows, vid) != []
  {
    var init := rows[..|rows| - 1];
    if i < |rows| - 1 {
      assert init[i] == rows[i];
      RawCommentsForMentioned(init, vid, i);
    }
  }

  /** Every entry of the joined dataset holds at least one comment. */
  lemma EntriesHaveComments(ctx: Lookup, rows: seq<CommentRow>, d: Dataset)
    requires Describes(ctx, rows, d)
    ensures forall vid :: vid in d.items ==> d.items[vid].comments != []
  {
    KeptIdsSpec(ctx, rows);
    forall vid | vid in d.items ensures d.items[vid].comments != [] {
      var i :| 0 <= i < |rows| && rows[i].videoId == vid;
      RawCommentsForMentioned(rows, vid, i);
    }
  }

  /** The dataset `parse_comments_data` returns for the lines of the comments
      file: the header line is skipped and so is every line that does not
      parse, and the rows left are joined. */
  function CommentsData(ctx: Lookup, lines: seq<string>): Result<Dataset, Fault>
    requires forall i :: 1 <= i < |lines| ==> IsSingleLine(lines[i])
  {
    if lines == [] then Success(Empty()) else JoinRows(ctx, CommentRows(lines[1..]))
  }

  /** The rows read from the data lines before line `n` (line 0 is the
      header). */
  function RowsBefore(lines: seq<string>, n: nat): seq<CommentRow>
    requires forall i :: 1 <= i < |lines| ==> IsSingleLine(lines[i])
    requires 1 <= n <= |lines|
  {
    CommentRows(lines[1..n])
  }

  /** Reading data line `n` of the comments file (line 0 is the header)
      adds one step to the fold when the line parses, and nothing otherwise. */
  lemma JoinLinesStep(ctx: Lookup, lines: seq<string>, n: nat, step: (Lookup, Dataset, CommentRow) -> Result<Dataset, Fault>)
    requires forall i :: 1 <= i < |lines| ==> IsSingleLine(lines[i])
    requires 1 <= n < |lines|
    ensures Fold(ctx, Empty(), RowsBefore(lines, n + 1), step) ==
      match ParseCommentLine(lines[n])
      case None => Fold(ctx, Empty(), RowsBefore(lines, n), step)
      case Some(row) =>
        match Fold(ctx, Empty(), RowsBefore(lines, n), step)
        case Failure(e) => Failure(e)
        case Success(d) => step(ctx, d, row)
  {
    CollectFoldStep(ctx, Empty(), lines, 1, n, ParseCommentLine, step);
  }

  /** Once the data lines read so far fail to join, the whole file fails
      with the same fault. */
  lemma JoinLinesFailureSticks(ctx: Lookup, lines: seq<string>, n: nat, step: (Lookup, Dataset, CommentRow) -> Result<Dataset, Fault>)
    requires forall i :: 1 <= i < |lines| ==> IsSingleLine(lines[i])
    requires 1 <= n <= |lines|
    requires Fold(ctx, Empty(), RowsBefore(lines, n), step).Failure?
    ensures Fold(ctx, Empty(), RowsBefore(lines, |lines|), step) == Fold(ctx, Empty(), RowsBefore(lines, n), step)
  {
    CollectFoldFailureSticks(ctx, Empty(), lines, 1, n, ParseCommentLine, step);
  }

  /** The rows read before the end of the file are all the rows of its data
      lines. */
  lemma RowsBeforeEnd(lines: seq<string>)
    requires forall i :: 1 <= i < |lines| ==> IsSingleLine(lines[i])
    requires 1 <= |lines|
    ensures RowsBefore(lines, |lines|) == CommentRows(lines[1..])
  {
    assert lines[1..|lines|] == lines[1..];
  }

  /** The dataset of the lines of the comments file: it is built exactly
      when every row read has a known video, and it is then the dataset
      `Describes` specifies for those rows; otherwise the fault is a
      `KeyError` for the first unknown video. */
  lemma CommentsDataSpec(ctx: Lookup, lines: seq<string>)
    requires forall i :: 1 <= i < |lines| ==> IsSingleLine(lines[i])
    ensures var rows := if lines == [] then [] else CommentRows(lines[1..]);
      && (CommentsData(ctx, lines).Success? <==> forall i :: 0 <= i < |rows| ==> rows[i].videoId in ctx.videos)
      && (CommentsData(ctx, lines).Failure? ==>
            exists i :: FirstUnknown(ctx, rows, i) && CommentsData(ctx, lines).error == KeyError(rows[i].videoId))
      && (CommentsData(ctx, lines).Success? ==> Describes(ctx, rows, CommentsData(ctx, lines).value))
  {
    var rows := if lines == [] then [] else CommentRows(lines[1..]);
    JoinRowsSucceeds(ctx, rows);
    JoinRowsDescribes(ctx, rows);
  }

  /** `parse_comments_data(videos_data, categories_data, comments_file)`,
      reading the file's lines one by one. */
  method ParseCommentsData(videos: map<string, VideoInfo>, categories: map<string, string>, lines: seq<string>)
    returns (r: Result<Dataset, Fault>)
    requires forall i :: 1 <= i < |lines| ==> IsSingleLine(lines[i])
    ensures r == CommentsData(Lookup(videos, categories), lines)
  {
    ghost var ctx := Lookup(videos, categories);
    if lines == [] {
      return Success(Empty());
    }
    var allData: Dataset := Empty();
    var i := 1;
    while i < |lines|
      invariant 1 <= i <= |lines|
      invariant Fold(ctx, Empty(), RowsBefore(lines, i), Step) == Success(allData)
    {
      var parsed := ParseCommentLine(lines[i]);
      JoinLinesStep(ctx, lines, i, Step);
      if parsed.Some? {
        var joined := JoinRow(videos, categories, allData, parsed.value);
        if joined.Failure? {
          JoinLinesFailureSticks(ctx, lines, i + 1, Step);
          RowsBeforeEnd(lines);
          return joined;
        }
        allData := joined.value;
      }
      i := i + 1;
    }
    RowsBeforeEnd(lines);
    return Success(allData);
  }

  /** The body of the loop of `parse_comments_data` for one row read. */
  method JoinRow(videos: map<string, VideoInfo>, categories: map<string, string>, allData: Dataset, row: CommentRow)
    returns (r: Result<Dataset, Fault>)
    ensures r == Step(Lookup(videos, categories), allData, row)
  {
    var comment := CleanComment(RawComment(row));
    if row.videoId in allData.items {
      var e := allData.items[row.videoId];
      r := Success(allData.Put(row.videoId, e.(comments := e.comments + [comment])));
    } else if row.videoId !in videos {
      r := Failure(KeyError(row.videoId));
    } else {
      var catId := videos[row.videoId].categoryId;
      if catId in categories {
        var v := videos[row.videoId];
        r := Success(allData.Put(row.videoId, Entry(v, categories[v.categoryId], [comment])));
      } else {
        r := Success(allData);
      }
    }
  }
}
