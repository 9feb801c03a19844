# YouTube comments pipeline: extraction, join and word-cloud counts

This project models the core of a small Python NLP pipeline over the YouTube
trending-videos data set, and proves properties of that model.

- **The extraction step** (`main/extract_helpers.py`) reads three inputs:
  - a videos CSV file, one video per line;
  - a categories JSON file;
  - a comments CSV file.

  It builds a dataset keyed by video id. Each entry holds the video's fields,
  its category name and the list of its comments. Each comment keeps its
  text, normalised by stripping and by deleting newlines, and its like and
  reply counts.
- **The older extraction** (`main/preprocessing_helpers.py`) does the same
  join, with two differences. It keeps the comment texts as read. It raises
  `KeyError` for a video whose category is unknown, where the newer one skips
  that video.
- **The word-cloud scripts** (`main/wordcloud_by_category.py` and its copy
  `main/wordclouds.py`) do three things:
  - keep the entries of one category;
  - count every whitespace-separated token of their comments;
  - write the counts back out as a text, each token repeated as often as it
    was counted.

  That text is what the cloud is drawn from.

## How the model works

- **Files and lines.** A file is a sequence of lines, each without its line
  terminator.
- **Python behaviour modelled exactly.**
  - The CSV splitter is Python's `csv` reader in the excel dialect. It is
    modelled as the reader's state machine over one line (`CsvLine.Scan`).
  - Python's `dict` keeps insertion order, and the word-cloud text depends on
    that order. It is modelled as an order sequence plus a map
    (`PyDict.Dict`).
  - Python's `str.strip`, `str.replace`, `str.split()` and `str.join` are
    modelled in `PyStr`.
- **Exceptions.** An exception the source raises becomes a `Failure` value:
  `IndexError` or `KeyError(key)`. An exception the source catches and
  skips becomes a row the model skips.
- **Loops as methods.** Each loop of the source is an imperative method,
  for example `Tables.ExtractVideoData`, `CommentJoin.ParseCommentsData` and
  `TokenCounts.GetTokenCounts`. A nested loop is one method per loop level
  (`GetTokenCounts`, `CountComments`, `CountWords`), and the body of the
  comments loop is its own method (`CommentJoin.JoinRow`). Each method is
  proved equal to a specification function, and the lemmas state what that
  function means.
  - **The join.** The dataset has one entry per kept video. A video is kept
    when it is known and its category is known. Entries come in order of
    first mention. Each entry holds the video's comments in file order.
    `CommentJoin.Describes` states this, and `CommentJoin.DescribesUnique`
    shows it leaves only one possible dataset.
  - **The counts.** The token counts are exactly the multiplicities of the
    tokens, in order of first occurrence.
  - **The counts text.** Splitting the counts text and counting again gives
    the same counts back.

## Model

| member | source | states |
|---|---|---|
| CsvLine.SeparateCsvLine | main/extract_helpers.py:164-178 | splitting a single line fails exactly on the empty line, with `IndexError` (no first row); otherwise it yields at least one field |
| CsvLine.SeparateCsvLineFieldCount | main/extract_helpers.py:164-178 | a line has at most one field more than it has commas |
| CsvLine.ScanUnquoted | main/extract_helpers.py:164-178 | with no quote ahead, the reader cuts the rest of the line at every comma, the first piece completing the field under way |
| CsvLine.ScanEscaped | main/extract_helpers.py:164-178 | inside quotes, a field written with its quotes doubled and a closing quote reads back as the field itself |
| CsvLine.ScanPlain | main/extract_helpers.py:164-178 | outside quotes, a field without commas and quotes is read as it stands |
| CsvLine.SeparateUnquotedLine | main/extract_helpers.py:164-178 | a non-empty line without quotes splits into exactly its comma-separated pieces, one more than its commas, and joining them with commas gives the line back |
| CsvLine.RoundTrip | main/extract_helpers.py:164-178 | a row written with the excel dialect, each field quoted or plain, is a single line that splits back into exactly its fields |
| CsvLine.WrittenField | main/extract_helpers.py:164-178 | the writer writes each field on its own, in quotes or as it is |
| CsvLine.SimpleExample | main/extract_helpers_test.py:6-10 | `'hello,world,123,456'` splits into the four plain fields |
| CsvLine.ComplexExample | main/extract_helpers_test.py:12-16 | a quoted field keeps its comma |
| CsvLine.MultipleExample | main/extract_helpers_test.py:18-22 | two quoted fields keep their commas; the same cases appear in test/preprocessing_helpers_test.py |
| CsvLine.JoinSingleLine | main/extract_helpers.py:176 | joining single-line pieces with a single-line separator gives a single line, the splitter's input condition |
| PyStr.Replace | main/extract_helpers.py:219-220 | `str.replace` leaves a string that lacks the pattern's first character unchanged; deleting a pattern only removes characters |
| PyStr.ReplaceCharRemovesIt | main/extract_helpers.py:219 | deleting every `"\n"` leaves none behind |
| PyStr.SplitWhitespace | main/wordcloud_by_category.py:85 | every element of `str.split()` is a non-empty run with no whitespace |
| PyStr.SplitWhitespaceOfJoin | main/wordcloud_by_category.py:115 | splitting on whitespace undoes joining such tokens with single spaces |
| PyStr.SplitOnPieces | main/extract_helpers.py:164-178 | `s.split(c)` has one piece more than `s` has separators, and no piece holds one |
| PyStr.JoinSplitOn | main/extract_helpers.py:164-178 | joining the pieces of `s.split(c)` with `c` gives `s` back |
| PyStr.SplitOnJoin | main/extract_helpers.py:164-178 | splitting on `c` undoes joining separator-free pieces with `c` |
| PyStr.LeadingSpacesAt | main/extract_helpers.py:203-209 | a run of whitespace at the start that is followed by the end or by a non-whitespace character is exactly what `strip` removes in front |
| PyStr.TrailingSpacesAt | main/extract_helpers.py:203-209 | a run of whitespace at the end that is preceded by the start or by a non-whitespace character is exactly what `strip` removes behind |
| Normalize.RemoveWhitespace | main/extract_helpers.py:203-209 | the result of `strip` is the slice of the input after its leading whitespace, with nothing but whitespace after it, and neither starts nor ends with whitespace |
| Normalize.SpacesDoNotMeet | main/extract_helpers.py:203-209 | unless the text is all whitespace, its leading and its trailing whitespace do not overlap |
| Normalize.StripUnique | main/extract_helpers.py:203-209 | whitespace around a stripped string is exactly what `strip` removes |
| Normalize.LeadingSpacesOfPadded | main/extract_helpers.py:203-209 | whitespace in front of text that starts with a non-whitespace character is exactly the leading whitespace |
| Normalize.TrailingSpacesOfPadded | main/extract_helpers.py:203-209 | whitespace after text that ends with a non-whitespace character is exactly the trailing whitespace |
| Normalize.RemoveWhitespaceOfStripped | main/extract_helpers.py:203-209 | a string with no whitespace at either end is its own stripped form |
| Normalize.RemoveWhitespaceIdempotent | main/extract_helpers.py:203-209 | stripping twice is stripping once |
| Normalize.RemoveWhitespaceExample | main/extract_helpers_test.py:26-30 | `"      hello world "` strips to `"hello world"` |
| Normalize.RemoveNewlinesSpec | main/extract_helpers.py:212-221 | no newline character survives; text with neither a newline nor a backslash is unchanged |
| Normalize.RemoveNewlinesExample | main/extract_helpers_test.py:32-36 | `"hello world\n"` becomes `"hello world"` |
| Normalize.RemoveNewlinesOfTrailingNewline | main/extract_helpers.py:212-221 | a trailing newline character is all that is deleted from text with no other newline and no backslash |
| Normalize.RemoveNewlinesOfEscapedEnd | main/extract_helpers.py:212-221 | a trailing backslash-n is all that is deleted from text with no newline and no backslash |
| Normalize.ReplaceBeforePattern | main/extract_helpers.py:219-220 | text without the pattern's first character, followed by the pattern, loses just the pattern |
| Normalize.RemoveNewlinesNotIdempotent | main/extract_helpers.py:219-220 | deleting the two-character sequence `\n` can create a new one, so a second pass changes the text again |
| Normalize.PreprocessStringHasNoNewline | main/extract_helpers.py:184-200 | preprocessed text holds no newline character |
| Normalize.PreprocessStringNotIdempotent | main/extract_helpers.py:184-200 | preprocessing strips before it deletes, so a deleted trailing `\n` can expose whitespace that a second pass strips |
| Normalize.PreprocessStringIdempotentWithoutBackslash | main/extract_helpers.py:184-200 | on text without a backslash, preprocessing gives stripped text and a second pass changes nothing |
| Normalize.ReplaceCharAppend | main/extract_helpers.py:219 | deleting a character from a string with one more character appended deletes it from the prefix and keeps the appended one unless it is that character |
| Normalize.ReplaceCharPrepend | main/extract_helpers.py:219 | deleting a character from a string with one more character in front deletes it from the rest and keeps the front one unless it is that character |
| Normalize.RemoveNewlineCharsKeepsStripped | main/extract_helpers.py:197-199 | deleting newlines from stripped text without backslashes leaves it stripped |
| PyDict.Dict.Put | main/extract_helpers.py:156 | assignment to a key keeps the dict well formed; an existing key keeps its place, a new key goes last |
| Rows.TraverseSpec | main/extract_helpers.py:24-55 | reading the data lines in turn succeeds exactly when every line parses, gives one row per line, and otherwise fails with the first bad line's error |
| Rows.TraverseStep | main/extract_helpers.py:24-55 | while every line so far has parsed, one more line adds its row, or ends the read with that line's error |
| Rows.TraverseFailureSticks | main/extract_helpers.py:24-55 | once the lines read so far fail, the whole read fails with the same error |
| Rows.KeyedTableSucceeds | main/extract_helpers.py:24-55 | a table read from lines is built exactly when every data line parses, and otherwise fails with the error of some data line |
| Rows.KeyedTableKeys | main/extract_helpers.py:43-54 | a built table's keys are exactly the keys of the data lines |
| Rows.FoldSnoc | main/extract_helpers.py:126-158 | one more row after a successful join is one more step; after a failed one, the same failure |
| Rows.FoldFailureSticks | main/extract_helpers.py:138 | once the join has raised, no later row changes the outcome |
| Rows.CollectAppend | main/extract_helpers.py:108-124 | the rows read from two runs of lines are the rows of the first run then those of the second |
| Rows.FromPairsKeys | main/extract_helpers.py:43-54 | the table built by keyed assignment has exactly the keys assigned |
| Rows.FromPairsLastWins | main/extract_helpers.py:43-54 | a key holds the value of its last assignment |
| Rows.KeyedTableLastWins | main/extract_helpers.py:24-55 | in a table read from lines, a key holds the row of the last data line that has it |
| Rows.CollectFoldStep | main/extract_helpers.py:108-124 | folding the rows of one more line adds one step when the line parses, and nothing otherwise |
| Rows.CollectFoldFailureSticks | main/extract_helpers.py:108-158 | once the rows read so far fail to fold, the rows of the whole file fail with the same fault |
| Tables.VideoRecord | main/extract_helpers.py:30-41 | a row with fewer than eleven fields is an `IndexError`; otherwise the first eleven fields are read in order |
| Tables.VideoRecordOfFields | main/extract_helpers.py:30-54 | reading a row made of a video's id and ten fields, plus any extra fields, gives back that id and those fields |
| Tables.ParseVideoLineFails | main/extract_helpers.py:29-41 | a videos line fails exactly when, once stripped, it is empty or has fewer than eleven fields |
| Tables.ParseWrittenVideoLine | main/extract_helpers.py:29-41 | a videos row written with the excel dialect reads back as the same id and fields |
| Tables.VideoTableSpec | main/extract_helpers.py:8-55 | the videos table is built exactly when every data line (the header skipped) parses, else `IndexError`; its keys are exactly the ids of the data lines |
| Tables.VideoTableLastWins | main/extract_helpers.py:43-54 | an id's entry is the one of the last data line with that id |
| Tables.ExtractVideoData | main/extract_helpers.py:8-55 | the loop over the file's lines computes the videos table |
| Tables.ExtractCategoriesData | main/extract_helpers.py:58-76 | the category names are keyed by id, one key per id in the items array, the last item for an id winning |
| CommentJoin.CommentRecord | main/extract_helpers.py:115-124 | a comments row is skipped exactly when it has fewer than four fields; otherwise its first four fields are read in order |
| CommentJoin.ParseCommentLineSkips | main/extract_helpers.py:114-124 | a comments line is skipped exactly when, once stripped, it is empty or has fewer than four fields |
| CommentJoin.ParseWrittenCommentLine | main/extract_helpers.py:114-124 | a comments row written with the excel dialect reads back as its first four fields |
| CommentJoin.KeptIdsSpec | main/extract_helpers.py:133-156 | the dataset's keys are exactly the kept videos some row is about, each once, in order of first mention |
| CommentJoin.JoinRowsSucceeds | main/extract_helpers.py:133-140 | the join succeeds exactly when every row's video is in the videos table; otherwise it raises `KeyError` for the first row whose video is not |
| CommentJoin.JoinRowsDescribes | main/extract_helpers.py:107-158 | a successful join has one entry per kept video, in order of first mention, holding the video's fields, its category name and its preprocessed comments in file order |
| CommentJoin.StepDescribes | main/extract_helpers.py:126-156 | one more row keeps that description: appended to an existing entry, skipped for an unknown category, or added as a new entry |
| CommentJoin.StepEntry | main/extract_helpers.py:126-156 | after one more row, every entry is the entry of its video given the rows so far and the new one |
| CommentJoin.StepEntryOfRow | main/extract_helpers.py:126-156 | the row's own video gets the row's comment, preprocessed, appended to its comments or as its first comment |
| CommentJoin.StepEntryOfOther | main/extract_helpers.py:126-156 | the entries of the other videos are unchanged |
| CommentJoin.KeptIdsSnoc | main/extract_helpers.py:133-156 | one more row adds its video to the keys when it is kept and not yet a key |
| CommentJoin.RawCommentsForSnoc | main/extract_helpers.py:133-134 | one more row adds its comment to its own video's comments and to no other's |
| CommentJoin.PreprocessedSnoc | main/extract_helpers.py:126-131 | preprocessing the comments one more comment at a time preprocesses the new one |
| CommentJoin.RawCommentsForAbsent | main/extract_helpers.py:133-156 | a video no row is about has no comments |
| CommentJoin.DescribesUnique | main/extract_helpers.py:107-158 | the description fixes the dataset: two datasets that meet it are equal |
| CommentJoin.EntriesHaveComments | main/extract_helpers.py:133-156 | every entry of the joined dataset holds at least one comment, since an entry is only created with the comment of its first row |
| CommentJoin.RawCommentsForMentioned | main/extract_helpers.py:133-134 | a video some row is about has at least one comment |
| CommentJoin.JoinLinesStep | main/extract_helpers.py:108-124 | one more data line (the header skipped): a line that does not parse leaves the join as it was, one that parses is one more row |
| CommentJoin.JoinLinesFailureSticks | main/extract_helpers.py:138 | once the lines read so far raise, the whole file raises the same `KeyError` |
| CommentJoin.CommentsDataSpec | main/extract_helpers.py:79-158 | the dataset of the file (header skipped, unreadable lines skipped) is built exactly when every parsed row's video is known, and then meets the description |
| CommentJoin.ParseCommentsData | main/extract_helpers.py:79-158 | the loop over the file's lines computes that dataset or that `KeyError` |
| CommentJoin.JoinRow | main/extract_helpers.py:126-156 | the loop body for one parsed row is proved equal to `CommentJoin.Step`, the join step whose meaning `StepDescribes` states; it is not a second definition of the step |
| LegacyJoin.LegacyJoinRowsSucceeds | main/preprocessing_helpers.py:131-149 | the older join succeeds exactly when every row's video is known and of a known category; otherwise the first other row raises `KeyError` for its video id or its category id |
| LegacyJoin.LegacyFailedBefore | main/preprocessing_helpers.py:131-149 | once the older join has raised, one more row leaves the same `KeyError`, that of the first row not kept |
| LegacyJoin.LegacySucceededBefore | main/preprocessing_helpers.py:131-149 | after a successful older join, one more row succeeds exactly when its video is kept, and otherwise raises its own `KeyError` |
| LegacyJoin.FirstNotKeptSnoc | main/preprocessing_helpers.py:131-149 | the first row not kept stays the first when a row is added |
| LegacyJoin.FirstNotKeptLast | main/preprocessing_helpers.py:131-149 | when every earlier row is kept, an added row is kept too or is the first that is not |
| LegacyJoin.LegacyStepFails | main/preprocessing_helpers.py:134-149 | a new video fails with `KeyError` for its id when unknown, for its category id when that is unknown |
| LegacyJoin.LegacyJoinRowsDescribes | main/preprocessing_helpers.py:107-151 | a successful older join has one entry per video in order of first mention, with its comments as read, in file order |
| LegacyJoin.LegacyStepDescribes | main/preprocessing_helpers.py:125-149 | one more row keeps that description |
| LegacyJoin.LegacyStepEntry | main/preprocessing_helpers.py:125-149 | after one more row, every entry is the entry of its video given the rows so far and the new one |
| LegacyJoin.LegacyStepEntryOfRow | main/preprocessing_helpers.py:125-149 | the row's own video gets the row's comment, as read |
| LegacyJoin.LegacyThenCurrent | main/preprocessing_helpers.py:79-151 | wherever the older join succeeds, the newer one succeeds with the same videos in the same order, differing only in preprocessed comment texts |
| LegacyJoin.LegacyParseCommentsData | main/preprocessing_helpers.py:79-151 | the older loop over the file's lines computes the older dataset or its `KeyError` |
| LegacyJoin.LegacyJoinRow | main/preprocessing_helpers.py:125-149 | the older loop body for one parsed row is proved equal to `LegacyJoin.LegacyStep`, whose meaning `LegacyStepDescribes` and `LegacyStepFails` state |
| TokenCounts.FirstOccurrencesSpec | main/wordcloud_by_category.py:86-90 | the order of first occurrence lists every token once |
| TokenCounts.TallySpec | main/wordcloud_by_category.py:70-91 | the counts hold exactly the tokens seen, each counted as often as it occurs, keys in order of first occurrence |
| TokenCounts.TallySnoc | main/wordcloud_by_category.py:87-90 | one more token raises its count by one, or adds it with count one |
| TokenCounts.BumpKeeps | main/wordcloud_by_category.py:87-90 | counting one more token keeps the counts exact: the same keys plus the token, its count one more, the order of first occurrence kept |
| TokenCounts.GetTokenCounts | main/wordcloud_by_category.py:70-91 | the nested loops over entries, comments and words count every token of every comment, entries in dataset order |
| TokenCounts.CountComments | main/wordcloud_by_category.py:81-90 | the loop over one entry's comments adds the tokens of those comments, in order, to the counts so far |
| TokenCounts.CountWords | main/wordcloud_by_category.py:86-90 | the loop over one comment's words adds those words, in order, to the counts so far |
| TokenCounts.Repeat | main/wordcloud_by_category.py:113-114 | `range(n)` appends the token `n` times, none when `n` is below one |
| TokenCounts.CountsToText | main/wordcloud_by_category.py:94-115 | given a well-formed dict, the loops write every token, in dict order, as many times as counted, joined by single spaces |
| TokenCounts.ExpandKeysCount | main/wordcloud_by_category.py:110-115 | in the written list, each key occurs exactly as often as its positive count, and nothing else occurs |
| TokenCounts.RepeatCount | main/wordcloud_by_category.py:113-114 | the repeated list holds the token exactly `n` times |
| TokenCounts.ExpandTallyPermutes | main/wordcloud_by_category.py:94-115 | writing out the counts of some tokens gives those tokens back, up to order |
| TokenCounts.TallyTotal | main/wordcloud_by_category.py:70-91 | the counts sum to the number of tokens counted |
| TokenCounts.ExpandKeysLength | main/wordcloud_by_category.py:110-115 | with no negative count, the written list has as many tokens as the counts sum to |
| TokenCounts.FirstOccurrencesOfExpand | main/wordcloud_by_category.py:110-115 | the written list first lists the keys in dict order |
| TokenCounts.FirstOccurrencesOfRepeat | main/wordcloud_by_category.py:113-114 | repeating a new token adds it once to the order of first occurrence |
| TokenCounts.FirstOccurrencesOfExpandTally | main/wordcloud_by_category.py:94-115 | the text of counts lists its tokens first in the order of the counts |
| TokenCounts.TallyItemsOfPermutation | main/wordcloud_by_category.py:70-91 | token lists that are the same up to order have the same counts |
| TokenCounts.TallyOfExpand | main/wordcloud_by_category.py:70-115 | counting the written-out counts gives the counts back, order included |
| TokenCounts.CountsTextRoundTrip | main/wordcloud_by_category.py:70-115 | the text is a faithful encoding of the counts: splitting and counting it again gives the same counts, in the same order |
| TokenCounts.CommentTokensAreTokens | main/wordcloud_by_category.py:83-85 | every token taken from the comments is non-empty and holds no whitespace, as `str.split()` gives |
| TokenCounts.TokensOfAreTokens | main/wordcloud_by_category.py:80-85 | the same for the tokens of the comments of any entries |
| TokenCounts.TokensOfCountsRoundTrip | main/wordcloud_by_category.py:70-115 | the counts of the comments of any entries survive being written out: splitting the text and counting again gives the same counts, in the same order |
| TokenCounts.AllTokensCountsRoundTrip | main/wordcloud_by_category.py:70-115 | the same for the counts `get_token_counts` makes of a whole dataset |
| TokenCounts.CountsTextOfEmpty | main/wordcloud_by_category.py:94-115 | no counts give the empty text |
| TokenCounts.CountsTextExample | main/wordcloud_by_category.py:102-105 | `{"hello": 2, "hey": 1, "apple": 2}` gives `"hello hello hey apple apple"` |
| TokenCounts.ExampleExpanded | main/wordcloud_by_category.py:102-105 | the example's list of repeated tokens |
| TokenCounts.ExampleJoined | main/wordcloud_by_category.py:102-105 | the example's list joined with spaces |
| CategoryFilter.FilterKeysSpec | main/wordcloud_by_category.py:55 | the kept keys are exactly the listed keys whose entry has the category, each once |
| CategoryFilter.FilterByCategorySpec | main/wordcloud_by_category.py:55 | the filtered dict holds exactly the entries of the category, unchanged |
| CategoryFilter.FilteredTokens | main/wordcloud_by_category.py:55-62 | the tokens counted for a category are the comment tokens of its entries, in dataset order |
| CategoryFilter.TokensOfAgree | main/wordcloud_by_category.py:70-91 | the tokens of the entries under some keys depend only on those entries |
| CategoryFilter.WordcloudForCategory | main/wordcloud_by_category.py:41-63 | the early return happens exactly when no entry has the category; otherwise the text is the counts text of that category's comment tokens, and splitting and counting that text gives those tokens' counts back (same code in main/wordclouds.py:48-67) |

## Left out

- File handles, `open` and `json.load`/`json.dump` are left out. A file is
  given as its sequence of lines. The categories JSON is given as the list
  of `(id, snippet title)` pairs of its `items` array.
- The command-line scripts are left out: `main/extract.py`,
  `preprocessing.py` and argument parsing.
- The `print` warnings and progress messages are left out.
- CsvLine.SeparateCsvLine: requires a line with no line-break character and
  no NUL. Input lines come from iterating a file, so a data line holds no
  line break. Lines with other `str.splitlines` boundaries, a NUL character
  (rejected by the csv reader of the Python versions the source targets) or
  a field over the csv field-size limit are not modelled.
- The dataset is modelled as the in-memory dict. Its JSON round trip through
  the intermediate file is left out.
- `main/sentiments.py` and `main/analysis.py` are not part of this model.
- The word-cloud drawing is not part of this model: `generate_wordcloud` and
  `main/wordcloud_helper.py`.
- `main/video_list.py` is left out. It is a script that sorts the videos and
  prints them.
- CategoryFilter.WordcloudForCategory: stops before the output file name.
  That name looks the category up in a table read at module load, which
  raises `KeyError` for an unknown category id. The lookup and that error
  are not modelled.
- `handle_punctuation` is left out. It uses regular expressions and nothing
  in the pipeline calls it.
- Comment `likes` and `replies` and the video fields are kept as the strings
  read. No modelled function converts them to numbers; `main/video_list.py:20`
  does (it sorts by `int` of the category id and of the views), and that
  script is left out.
- Duplicate code is modelled once:
  - the videos table, the categories table and the splitter of
    `main/preprocessing_helpers.py` are identical to those of
    `main/extract_helpers.py`;
  - `get_token_counts` and `counts_to_text` of `main/wordclouds.py` are
    identical to those of `main/wordcloud_by_category.py`;
  - `main/wordcloud_by_id.py:35-51` repeats the same counting and writing
    inline for the comments of one video: the count loops are
    `TokenCounts.CountComments` started from empty counts, and the writing is
    `TokenCounts.CountsToText`. Its selection of that one video
    (`main/wordcloud_by_id.py:26`) is the counterpart of the category
    selection `CategoryFilter.FilterByCategory`. The script's argument
    parsing, its prints and its call to `generate_wordcloud` are left out.
