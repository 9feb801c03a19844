/** The two lookup tables the join needs: the videos table read from the
    videos CSV file (`extract_video_data`) and the category names read from
    the categories JSON file (`extract_categories_data`). */
module Tables {
  import opened Wrappers
  import opened PyStr
  import opened CsvLine
  import opened Normalize
  import opened Rows

  /** What `extract_video_data` keeps of one row, keyed by the video id. */
  datatype VideoInfo = VideoInfo(
    title: string, channelTitle: string, categoryId: string, tags: string,
    views: string, likes: string, dislikes: string, commentTotal: string,
    thumbnailLink: string, date: string)

  /** The eleven leading fields of a videos row, in file order. */
  function VideoFields(id: string, v: VideoInfo): (fields: seq<string>)
    ensures |fields| == 11 && fields[0] == id
  {
    [id, v.title, v.channelTitle, v.categoryId, v.tags, v.views, v.likes,
     v.dislikes, v.commentTotal, v.thumbnailLink, v.date]
  }

  /** One data line of the videos file: strip it, split it, and read the
      first eleven fields; too few fields is an `IndexError`. */
  function ParseVideoLine(line: string): (r: Result<(string, VideoInfo), Fault>)
    requires IsSingleLine(line)
    ensures r.Failure? ==> r.error == IndexError
  {
    match SeparateCsvLine(RemoveWhitespace(line))
    case Failure(e) => Failure(e)
    case Success(f) => VideoRecord(f)
  }

  /** The id and the fields of a split videos row; a row with fewer than
      eleven fields is an `IndexError`. */
  function VideoRecord(f: seq<string>): (r: Result<(string, VideoInfo), Fault>)
    ensures r.Failure? <==> |f| < 11
    ensures r.Failure? ==> r.error == IndexError
  {
    if |f| < 11 then Failure(IndexError)
    else Success((f[0], VideoInfo(f[1], f[2], f[3], f[4], f[5], f[6], f[7], f[8], f[9], f[10])))
  }

  /** Reading the record of a row gives back its id and fields, whatever
      extra fields follow the eleventh. */
  lemma VideoRecordOfFields(id: string, v: VideoInfo, extra: seq<string>)
    ensures VideoRecord(VideoFields(id, v) + extra) == Success((id, v))
  {
  }

  /** A line fails to parse exactly when, once stripped, it is empty or holds
      fewer than eleven fields. */
  lemma ParseVideoLineFails(line: string)
    requires IsSingleLine(line)
    ensures ParseVideoLine(line).Failure? <==>
        RemoveWhitespace(line) == [] || |SeparateCsvLine(RemoveWhitespace(line)).value| < 11
  {
  }

  /** Reading back a row written with the excel dialect gives its id and
      fields, whatever extra fields follow the eleventh. */
  lemma ParseWrittenVideoLine(id: string, v: VideoInfo, extra: seq<string>, quoted: seq<bool>)
    requires Writable(VideoFields(id, v) + extra, quoted)
    requires IsStripped(WriteRow(VideoFields(id, v) + extra, quoted))
    ensures IsSingleLine(WriteRow(VideoFields(id, v) + extra, quoted)) &&
      ParseVideoLine(WriteRow(VideoFields(id, v) + extra, quoted)) == Success((id, v))
  {
    var fields := VideoFields(id, v) + extra;
    var line := WriteRow(fields, quoted);
    RoundTrip(fields, quoted);
    RemoveWhitespaceOfStripped(line);
    VideoRecordOfFields(id, v, extra);
  }

  /** The table `extract_video_data` builds from the lines of the videos
      file. */
  function VideoTable(lines: seq<string>): Result<map<string, VideoInfo>, Fault>
    requires forall i :: 1 <= i < |lines| ==> IsSingleLine(lines[i])
  {
    KeyedTable(lines, ParseVideoLine)
  }

  /** The videos table is built exactly when every data line parses, and
      otherwise the read fails with an `IndexError`; its keys are then the
      ids of the data lines. */
  lemma VideoTableSpec(lines: seq<string>)
    requires forall i :: 1 <= i < |lines| ==> IsSingleLine(lines[i])
    ensures VideoTable(lines).Success? <==> forall i :: 1 <= i < |lines| ==> ParseVideoLine(lines[i]).Success?
    ensures VideoTable(lines).Failure? ==> VideoTable(lines).error == IndexError
    ensures VideoTable(lines).Success? ==> forall id :: id in VideoTable(lines).value <==>
      exists i :: 1 <= i < |lines| && ParseVideoLine(lines[i]).Success? && ParseVideoLine(lines[i]).value.0 == id
  {
    KeyedTableSucceeds(lines, ParseVideoLine);
    if VideoTable(lines).Success? {
      forall id ensures id in VideoTable(lines).value <==>
        exists i :: 1 <= i < |lines| && ParseVideoLine(lines[i]).Success? && ParseVideoLine(lines[i]).value.0 == id
      {
        KeyedTableKeys(lines, ParseVideoLine, id);
      }
    }
  }

  /** A data line whose id no later data line repeats gives that id's
      entry of the videos table. */
  lemma VideoTableLastWins(lines: seq<string>, i: nat)
    requires forall i :: 1 <= i < |lines| ==> IsSingleLine(lines[i])
    requires VideoTable(lines).Success?
    requires 1 <= i < |lines| && ParseVideoLine(lines[i]).Success?
    requires forall j :: i < j < |lines| && ParseVideoLine(lines[j]).Success? ==>
      ParseVideoLine(lines[j]).value.0 != ParseVideoLine(lines[i]).value.0
    ensures ParseVideoLine(lines[i]).value.0 in VideoTable(lines).value
    ensures VideoTable(lines).value[ParseVideoLine(lines[i]).value.0] == ParseVideoLine(lines[i]).value.1
  {
    KeyedTableLastWins(lines, ParseVideoLine, i);
  }

  /** `extract_video_data(videos_file)`, reading the file's lines one by one. */
  method ExtractVideoData(lines: seq<string>) returns (r: Result<map<string, VideoInfo>, Fault>)
    requires forall i :: 1 <= i < |lines| ==> IsSingleLine(lines[i])
    ensures r == VideoTable(lines)
  {
    if lines == [] {
      return Success(map[]);
    }
    ghost var data := lines[1..];
    var table: map<string, VideoInfo> := map[];
    ghost var rows: seq<(string, VideoInfo)> := [];
    var i := 1;
    while i < |lines|
      invariant 1 <= i <= |lines|
      invariant Traverse(data[..i - 1], ParseVideoLine) == Success(rows)
      invariant table == FromPairs(rows)
    {
      var parsed := ParseVideoLine(lines[i]);
      assert data[i - 1] == lines[i];
      TraverseStep(data, ParseVideoLine, i - 1);
      if parsed.Failure? {
        return Failure(parsed.error);
      }
      var row := parsed.value;
      table := table[row.0 := row.1];
      rows := rows + [row];
      assert FromPairs(rows) == FromPairs(rows[..|rows| - 1])[row.0 := row.1];
      i := i + 1;
    }
    assert data[..i - 1] == data;
    r := Success(table);
  }

  /** `extract_categories_data(categories_file)` over the decoded `items`
      array, each item given as its id and its snippet's title: the names are
      keyed by id, the last item for an id winning. */
  method ExtractCategoriesData(items: seq<(string, string)>) returns (categories: map<string, string>)
    ensures categories == FromPairs(items)
    ensures forall id :: id in categories <==> exists i :: 0 <= i < |items| && items[i].0 == id
  {
    categories := map[];
    for i := 0 to |items|
      invariant categories == FromPairs(items[..i])
    {
      assert items[..i + 1][..i] == items[..i];
      categories := categories[items[i].0 := items[i].1];
    }
    assert items[..|items|] == items;
    FromPairsKeys(items);
  }
}
