/** `separate_csv_line`: one line of CSV text split into its fields the way
    Python's `csv.reader` does in its default `excel` dialect (delimiter `,`,
    quote character `"`, a doubled quote inside a quoted field standing for
    one quote, not strict). The reader's states inside one record are those
    of CPython's `_csv` module; the escape character, `skipinitialspace` and
    the other dialects are not used by the pipeline. */
module CsvLine {
  import opened Wrappers
  import opened PyStr

  /** What the splitter is given: one line, holding no character at which
      `str.splitlines()` would break it and no NUL. */
  predicate IsSingleLine(s: string) {
    forall k :: 0 <= k < |s| ==> !IsLineBreak(s[k]) && s[k] != '\0'
  }

  /** Where the reader is inside the current field. */
  datatype ReaderState = StartField | InField | InQuotedField | QuoteInQuotedField

  /** The reader between two characters: its state, the fields it has
      finished and what it has collected of the current one. */
  datatype Reader = Reader(state: ReaderState, done: seq<string>, field: string)

  /** One character read in `state`: the excel dialect's transition table
      (comma delimiter, double-quote quote character, doubled quotes). */
  function Feed(state: ReaderState, c: char, done: seq<string>, field: string): (r: Reader)
    ensures |r.done| >= |done|
  {
    match state
    case StartField =>
      if c == '"' then Reader(InQuotedField, done, field)
      else if c == ',' then Reader(StartField, done + [field], [])
      else Reader(InField, done, field + [c])
    case InField =>
      if c == ',' then Reader(StartField, done + [field], [])
      else Reader(InField, done, field + [c])
    case InQuotedField =>
      if c == '"' then Reader(QuoteInQuotedField, done, field)
      else Reader(InQuotedField, done, field + [c])
    case QuoteInQuotedField =>
      // a doubled quote stands for one; after a closing quote a comma ends
      // the field and any other character continues it unquoted
      if c == '"' then Reader(InQuotedField, done, field + [c])
      else if c == ',' then Reader(StartField, done + [field], [])
      else Reader(InField, done, field + [c])
  }

  /** Feeds the characters in `rest` to a reader in `state` that has already
      finished the fields `done` and collected `field` of the current one,
      then ends the line. The end of the line closes the current field in
      every state: an unterminated quoted field is kept as it stands, since
      the reader is not strict. */
  function Scan(rest: string, state: ReaderState, done: seq<string>, field: string): (fields: seq<string>)
    ensures |fields| > |done|
    decreases |rest|
  {
    if rest == [] then done + [field]
    else
      var r := Feed(state, rest[0], done, field);
      Scan(rest[1..], r.state, r.done, r.field)
  }

  /** `separate_csv_line(s)`: `list(csv.reader(s.splitlines()))[0]`. The empty
      line has no lines, so the reader yields no record and indexing the
      empty list raises `IndexError`; any other line yields at least one
      field, and at most one more than it has commas. */
  function SeparateCsvLine(s: string): (r: Result<seq<string>, Fault>)
    requires IsSingleLine(s)
    ensures r.Failure? <==> s == []
    ensures r.Failure? ==> r.error == IndexError
    ensures r.Success? ==> 1 <= |r.value|
  {
    if s == [] then Failure(IndexError) else Success(Scan(s, StartField, [], []))
  }

  /** Only a comma outside quotes ends a field, so the reader finishes at most
      one field per comma, plus the one the end of the line closes. */
  lemma {:induction false} ScanFieldCount(rest: string, state: ReaderState, done: seq<string>, field: string)
    ensures |Scan(rest, state, done, field)| <= |done| + 1 + multiset(rest)[',']
    decreases |rest|
  {
    if rest != [] {
      var c, more := rest[0], rest[1..];
      assert multiset(rest) == multiset([c]) + multiset(more) by {
        assert rest == [c] + more;
      }
      match state
      case StartField =>
        if c == '"' { ScanFieldCount(more, InQuotedField, done, field); }
        else if c == ',' { ScanFieldCount(more, StartField, done + [field], []); }
        else { ScanFieldCount(more, InField, done, field + [c]); }
      case InField =>
        if c == ',' { ScanFieldCount(more, StartField, done + [field], []); }
        else { ScanFieldCount(more, InField, done, field + [c]); }
      case InQuotedField =>
        if c == '"' { ScanFieldCount(more, QuoteInQuotedField, done, field); }
        else { ScanFieldCount(more, InQuotedField, done, field + [c]); }
      case QuoteInQuotedField =>
        if c == '"' { ScanFieldCount(more, InQuotedField, done, field + [c]); }
        else if c == ',' { ScanFieldCount(more, StartField, done + [field], []); }
        else { ScanFieldCount(more, InField, done, field + [c]); }
    }
  }

  /** A line has at most one field more than it has commas. */
  lemma SeparateCsvLineFieldCount(s: string)
    requires IsSingleLine(s) && s != []
    ensures |SeparateCsvLine(s).value| <= multiset(s)[','] + 1
  {
    ScanFieldCount(s, StartField, [], []);
  }

  // ---------------------------------------------------------------------
  // Lines without quotes

  /** With no quote ahead, the reader cuts at every comma. */
  lemma {:induction false} ScanUnquoted(rest: string, state: ReaderState, done: seq<string>, field: string)
    requires state == StartField || state == InField
    requires '"' !in rest
    ensures var pieces := SplitOn(rest, ',');
      Scan(rest, state, done, field) == done + [field + pieces[0]] + pieces[1..]
    decreases |rest|
  {
    if rest != [] {
      var c, more := rest[0], rest[1..];
      assert '"' !in more;
      ScanOutside(rest, state, done, field);
      var tail := SplitOn(more, ',');
      if c == ',' {
        ScanUnquoted(more, StartField, done + [field], []);
        CommaPieces(done, field, tail);
      } else {
        ScanUnquoted(more, InField, done, field + [c]);
        CharPieces(done, field, c, tail);
      }
    } else {
      assert field + [] == field;
    }
  }

  /** One character other than a quote read outside quotes: a comma ends the
      field, anything else is kept. */
  lemma ScanOutside(rest: string, state: ReaderState, done: seq<string>, field: string)
    requires state == StartField || state == InField
    requires rest != [] && rest[0] != '"'
    ensures Scan(rest, state, done, field) ==
      if rest[0] == ',' then Scan(rest[1..], StartField, done + [field], [])
      else Scan(rest[1..], InField, done, field + [rest[0]])
  {
  }

  /** The fields after a comma, as the pieces of the line after it. */
  lemma CommaPieces(done: seq<string>, field: string, tail: seq<string>)
    requires tail != []
    ensures done + [field] + [[] + tail[0]] + tail[1..] == done + [field + []] + ([[]] + tail)[1..]
  {
    assert [] + tail[0] == tail[0];
    assert [[] + tail[0]] + tail[1..] == tail;
    assert field + [] == field;
  }

  /** The fields after a kept character, as the pieces of the line from it. */
  lemma CharPieces(done: seq<string>, field: string, c: char, tail: seq<string>)
    requires tail != []
    ensures done + [field + [c] + tail[0]] + tail[1..] == done + [field + ([c] + tail[0])] + tail[1..]
  {
    assert field + [c] + tail[0] == field + ([c] + tail[0]);
  }

  /** A non-empty line without quotes splits into exactly its comma-separated
      pieces: one more than it has commas, and joining them with commas gives
      the line back. */
  lemma SeparateUnquotedLine(s: string)
    requires IsSingleLine(s) && s != [] && '"' !in s
    ensures SeparateCsvLine(s) == Success(SplitOn(s, ','))
    ensures |SeparateCsvLine(s).value| == multiset(s)[','] + 1
    ensures Join(SeparateCsvLine(s).value, ",") == s
  {
    SeparateUnquotedSplits(s);
    SplitOnPieces(s, ',');
    JoinSplitOn(s, ',');
  }

  /** The reader gives the comma-separated pieces of a line without quotes. */
  lemma SeparateUnquotedSplits(s: string)
    requires IsSingleLine(s) && s != [] && '"' !in s
    ensures SeparateCsvLine(s) == Success(SplitOn(s, ','))
  {
    ScanUnquoted(s, StartField, [], []);
    FirstPieceFromStart(SplitOn(s, ','));
  }

  /** The pieces read from the start of a line, with nothing done before. */
  lemma FirstPieceFromStart(pieces: seq<string>)
    requires pieces != []
    ensures [] + [[] + pieces[0]] + pieces[1..] == pieces
  {
    assert [] + pieces[0] == pieces[0];
  }

  /** Every character of `Join(parts, sep)` comes from a part or from `sep`. */
  lemma {:induction false} JoinKeepsOut(parts: seq<string>, sep: string, c: char)
    requires c !in sep
    requires forall k :: 0 <= k < |parts| ==> c !in parts[k]
    ensures c !in Join(parts, sep)
  {
    if |parts| > 1 {
      JoinKeepsOut(parts[1..], sep, c);
    }
  }

  lemma {:induction false} JoinSingleLine(parts: seq<string>, sep: string)
    requires IsSingleLine(sep)
    requires forall k :: 0 <= k < |parts| ==> IsSingleLine(parts[k])
    ensures IsSingleLine(Join(parts, sep))
  {
    if |parts| > 1 {
      JoinSingleLine(parts[1..], sep);
      var rest := Join(parts[1..], sep);
      assert Join(parts, sep) == parts[0] + sep + rest;
      forall k | 0 <= k < |Join(parts, sep)|
        ensures !IsLineBreak(Join(parts, sep)[k]) && Join(parts, sep)[k] != '\0'
      {
        if k < |parts[0]| {
        } else if k < |parts[0]| + |sep| {
          assert Join(parts, sep)[k] == sep[k - |parts[0]|];
        } else {
          assert Join(parts, sep)[k] == rest[k - |parts[0]| - |sep|];
        }
      }
    }
  }

  // ---------------------------------------------------------------------
  // Quoted fields

  /** A field inside double quotes, with every quote in it doubled: how
      `csv.writer` writes a field in the `excel` dialect when it quotes it. */
  function Quote(f: string): string {
    "\"" + Escape(f) + "\""
  }

  function Escape(f: string): string {
    if f == [] then []
    else (if f[0] == '"' then "\"\"" else [f[0]]) + Escape(f[1..])
  }

  /** A row written field by field, each field in quotes or not as `quoted`
      says, and joined by commas. */
  function WriteRow(fields: seq<string>, quoted: seq<bool>): (line: string)
    requires |quoted| == |fields|
  {
    Join(WriteFields(fields, quoted), ",")
  }

  function WriteFields(fields: seq<string>, quoted: seq<bool>): (written: seq<string>)
    requires |quoted| == |fields|
    ensures |written| == |fields|
  {
    if fields == [] then []
    else [if quoted[0] then Quote(fields[0]) else fields[0]] + WriteFields(fields[1..], quoted[1..])
  }

  /** Each field is written on its own: quoted when `quoted` says so, as it
      is otherwise. */
  lemma {:induction false} WrittenField(fields: seq<string>, quoted: seq<bool>, k: nat)
    requires |quoted| == |fields| && k < |fields|
    ensures WriteFields(fields, quoted)[k] == if quoted[k] then Quote(fields[k]) else fields[k]
  {
    if k > 0 {
      WrittenField(fields[1..], quoted[1..], k - 1);
    }
  }

  /** A field may be left unquoted only when it holds no comma and no quote. */
  predicate Writable(fields: seq<string>, quoted: seq<bool>) {
    && |quoted| == |fields|
    && forall k :: 0 <= k < |fields| ==>
         IsSingleLine(fields[k]) && (!quoted[k] ==> ',' !in fields[k] && '"' !in fields[k])
  }

  /** Inside quotes, the reader takes an escaped field back to the original
      and stops at the closing quote. */
  lemma {:induction false} ScanEscaped(f: string, rest: string, done: seq<string>, field: string)
    ensures Scan(Escape(f) + "\"" + rest, InQuotedField, done, field)
         == Scan(rest, QuoteInQuotedField, done, field + f)
  {
    if f == [] {
      ScanClosingQuote(rest, done, field);
    } else {
      var c := f[0];
      EscapeFirst(f, rest);
      ScanEscapedChar(c, Escape(f[1..]) + "\"" + rest, done, field);
      ScanEscaped(f[1..], rest, done, field + [c]);
      AppendFirstChar(field, f);
    }
  }

  /** Inside quotes, a quote right away ends the escaped part of the field. */
  lemma ScanClosingQuote(rest: string, done: seq<string>, field: string)
    ensures Scan(Escape([]) + "\"" + rest, InQuotedField, done, field)
         == Scan(rest, QuoteInQuotedField, done, field + [])
  {
    assert Escape([]) + "\"" + rest == ['"'] + rest;
    ScanInQuotes('"', rest, done, field);
    assert field + [] == field;
  }

  /** Appending a nonempty string is appending its first character and then
      the others. */
  lemma AppendFirstChar(field: string, f: string)
    requires f != []
    ensures field + [f[0]] + f[1..] == field + f
  {
  }

  /** The escaped form of a nonempty field starts with its first character,
      doubled when it is a quote. */
  lemma EscapeFirst(f: string, rest: string)
    requires f != []
    ensures Escape(f) + "\"" + rest == EscapedChar(f[0]) + (Escape(f[1..]) + "\"" + rest)
  {
  }

  /** One character as the excel dialect writes it inside quotes. */
  function EscapedChar(c: char): string {
    if c == '"' then "\"\"" else [c]
  }

  /** Inside quotes, the reader takes one escaped character back to the
      character. */
  lemma ScanEscapedChar(c: char, after: string, done: seq<string>, field: string)
    ensures Scan(EscapedChar(c) + after, InQuotedField, done, field) == Scan(after, InQuotedField, done, field + [c])
  {
    if c == '"' {
      assert EscapedChar(c) + after == ['"'] + (['"'] + after);
      ScanInQuotes('"', ['"'] + after, done, field);
      ScanDoubledQuote(after, done, field);
    } else {
      ScanInQuotes(c, after, done, field);
    }
  }

  /** One character read inside quotes: a quote may close the field, any
      other character is kept. */
  lemma ScanInQuotes(c: char, more: string, done: seq<string>, field: string)
    ensures Scan([c] + more, InQuotedField, done, field) ==
      if c == '"' then Scan(more, QuoteInQuotedField, done, field)
      else Scan(more, InQuotedField, done, field + [c])
  {
    assert ([c] + more)[0] == c && ([c] + more)[1..] == more;
  }

  /** A quote right after a quote inside quotes stands for one quote. */
  lemma ScanDoubledQuote(more: string, done: seq<string>, field: string)
    ensures Scan(['"'] + more, QuoteInQuotedField, done, field) == Scan(more, InQuotedField, done, field + ['"'])
  {
    assert (['"'] + more)[0] == '"' && (['"'] + more)[1..] == more;
  }

  /** Outside quotes, a field without commas and quotes is taken as it is. */
  lemma {:induction false} ScanPlain(f: string, rest: string, state: ReaderState, done: seq<string>, field: string)
    requires state == StartField || state == InField
    requires ',' !in f && '"' !in f
    ensures Scan(f + rest, state, done, field)
         == Scan(rest, if f == [] then state else InField, done, field + f)
    decreases |f|
  {
    if f == [] {
      assert f + rest == rest && field + f == field;
    } else {
      var c := f[0];
      assert (f + rest)[0] == c && (f + rest)[1..] == f[1..] + rest;
      assert Scan(f + rest, state, done, field) == Scan(f[1..] + rest, InField, done, field + [c]);
      ScanPlain(f[1..], rest, InField, done, field + [c]);
      assert field + [c] + f[1..] == field + f;
    }
  }

  /** The reader closes a field the same way in each of these states when the
      line ends or a comma follows. */
  lemma ScanFieldEnd(rest: string, state: ReaderState, done: seq<string>, field: string)
    requires state != InQuotedField
    requires rest == [] || rest[0] == ','
    ensures Scan(rest, state, done, field)
         == if rest == [] then done + [field] else Scan(rest[1..], StartField, done + [field], [])
  {
  }

  lemma {:induction false} ScanRow(fields: seq<string>, quoted: seq<bool>, done: seq<string>)
    requires |fields| >= 1 && Writable(fields, quoted)
    ensures Scan(WriteRow(fields, quoted), StartField, done, []) == done + fields
  {
    var f := fields[0];
    var rest := if |fields| == 1 then [] else "," + WriteRow(fields[1..], quoted[1..]);
    WriteRowFirst(fields, quoted);
    var fieldEnd := if quoted[0] then QuoteInQuotedField else if f == [] then StartField else InField;
    ScanFirstField(f, quoted[0], rest, done);
    ScanFieldEnd(rest, fieldEnd, done, f);
    if |fields| > 1 {
      assert rest[1..] == WriteRow(fields[1..], quoted[1..]);
      ScanRow(fields[1..], quoted[1..], done + [f]);
      AppendFirst(done, fields);
    }
  }

  /** A row is written as its first field and then, when more follow, a
      comma and the row of the others. */
  lemma WriteRowFirst(fields: seq<string>, quoted: seq<bool>)
    requires |fields| >= 1 && |quoted| == |fields|
    ensures WriteRow(fields, quoted) ==
      (if quoted[0] then Quote(fields[0]) else fields[0]) +
      (if |fields| == 1 then [] else "," + WriteRow(fields[1..], quoted[1..]))
  {
    var written := WriteFields(fields, quoted);
    assert written[1..] == WriteFields(fields[1..], quoted[1..]);
    if |fields| > 1 {
      assert written[0] + "," + Join(written[1..], ",") == written[0] + ("," + Join(written[1..], ","));
    } else {
      assert written[0] + [] == written[0];
    }
  }

  lemma AppendFirst(done: seq<string>, fields: seq<string>)
    requires |fields| >= 1
    ensures done + [fields[0]] + fields[1..] == done + fields
  {
    assert fields == [fields[0]] + fields[1..];
  }

  lemma ScanFirstField(f: string, quoted: bool, rest: string, done: seq<string>)
    requires !quoted ==> ',' !in f && '"' !in f
    ensures Scan((if quoted then Quote(f) else f) + rest, StartField, done, [])
         == Scan(rest, if quoted then QuoteInQuotedField else if f == [] then StartField else InField, done, f)
  {
    assert [] + f == f;
    if quoted {
      var line := Quote(f) + rest;
      assert line == "\"" + (Escape(f) + "\"" + rest);
      assert line[0] == '"' && line[1..] == Escape(f) + "\"" + rest;
      ScanEscaped(f, rest, done, []);
    } else {
      ScanPlain(f, rest, StartField, done, []);
    }
  }

  lemma {:induction false} EscapeSingleLine(f: string)
    requires IsSingleLine(f)
    ensures IsSingleLine(Escape(f))
  {
    if f != [] {
      EscapeSingleLine(f[1..]);
    }
  }

  /** Whatever fields a row holds, writing it with quotes around (at least)
      every field that contains a comma or a quote, doubling the quotes
      inside, gives a line the splitter reads back as the same fields. The
      one row that does not come back is a single empty field left unquoted:
      it is written as the empty line. */
  lemma RoundTrip(fields: seq<string>, quoted: seq<bool>)
    requires |fields| >= 1 && Writable(fields, quoted)
    requires |fields| > 1 || fields[0] != [] || quoted[0]
    ensures IsSingleLine(WriteRow(fields, quoted))
    ensures SeparateCsvLine(WriteRow(fields, quoted)) == Success(fields)
  {
    var written := WriteFields(fields, quoted);
    forall k | 0 <= k < |written| ensures IsSingleLine(written[k]) {
      WrittenField(fields, quoted, k);
      EscapeSingleLine(fields[k]);
    }
    JoinSingleLine(written, ",");
    ScanRow(fields, quoted, []);
    assert [] + fields == fields;
    if |fields| > 1 {
      assert WriteRow(fields, quoted) == written[0] + "," + Join(written[1..], ",");
    } else {
      assert WriteRow(fields, quoted) == written[0];
    }
  }

  lemma {:induction false} EscapePlain(f: string)
    requires '"' !in f
    ensures Escape(f) == f
  {
    if f != [] {
      EscapePlain(f[1..]);
    }
  }

  // The rows of the unit tests (main/extract_helpers_test.py), as a writer
  // quoting only the fields with commas would write them. Each fact about a
  // literal gets its own small lemma.

  lemma SimpleFieldsWritable()
    ensures Writable(["hello", "world", "123", "456"], [false, false, false, false])
  {
    assert IsSingleLine("hello") && IsSingleLine("world");
    assert IsSingleLine("123") && IsSingleLine("456");
  }

  lemma SimpleFieldsWritten()
    ensures WriteFields(["hello", "world", "123", "456"], [false, false, false, false]) == ["hello", "world", "123", "456"]
  {
    WriteFieldsFour("hello", "world", "123", "456", false, false, false, false);
  }

  /** Four fields written: each on its own. */
  lemma WriteFieldsFour(a: string, b: string, c: string, d: string, qa: bool, qb: bool, qc: bool, qd: bool)
    ensures WriteFields([a, b, c, d], [qa, qb, qc, qd]) ==
      [if qa then Quote(a) else a, if qb then Quote(b) else b,
       if qc then Quote(c) else c, if qd then Quote(d) else d]
  {
    var fields, quoted := [a, b, c, d], [qa, qb, qc, qd];
    WrittenField(fields, quoted, 0);
    WrittenField(fields, quoted, 1);
    WrittenField(fields, quoted, 2);
    WrittenField(fields, quoted, 3);
  }

  lemma SimpleLineJoined()
    ensures Join(["hello", "world", "123", "456"], ",") == "hello,world,123,456"
  {
    JoinFour("hello", "world", "123", "456", ",");
  }

  lemma HelloWorldQuoted()
    ensures Quote("hello,world") == "\"hello,world\""
  {
    EscapePlain("hello,world");
    HelloWorldInQuotes();
  }

  lemma HelloWorldInQuotes()
    ensures "\"" + "hello,world" + "\"" == "\"hello,world\""
  {
  }

  lemma ComplexFieldsWritable()
    ensures Writable(["hello,world", "123", "456", "789"], [true, false, false, false])
  {
    assert IsSingleLine("hello,world");
    assert IsSingleLine("123") && IsSingleLine("456") && IsSingleLine("789");
  }

  lemma ComplexFieldsWritten()
    ensures WriteFields(["hello,world", "123", "456", "789"], [true, false, false, false])
         == ["\"hello,world\"", "123", "456", "789"]
  {
    WriteFieldsFour("hello,world", "123", "456", "789", true, false, false, false);
    HelloWorldQuoted();
  }

  lemma ComplexLineJoined()
    ensures Join(["\"hello,world\"", "123", "456", "789"], ",") == "\"hello,world\",123,456,789"
  {
    JoinFour("\"hello,world\"", "123", "456", "789", ",");
  }

  lemma HiHeyQuoted()
    ensures Quote("hi,hey") == "\"hi,hey\""
  {
    EscapePlain("hi,hey");
    HiHeyInQuotes();
  }

  lemma HiHeyInQuotes()
    ensures "\"" + "hi,hey" + "\"" == "\"hi,hey\""
  {
  }

  lemma HaHiHeQuoted()
    ensures Quote("ha,hi,he") == "\"ha,hi,he\""
  {
    EscapePlain("ha,hi,he");
    HaHiHeInQuotes();
  }

  lemma HaHiHeInQuotes()
    ensures "\"" + "ha,hi,he" + "\"" == "\"ha,hi,he\""
  {
  }

  lemma MultipleFieldsWritable()
    ensures Writable(["hi,hey", "123", "ha,hi,he", "456"], [true, false, true, false])
  {
    assert IsSingleLine("hi,hey") && IsSingleLine("ha,hi,he");
    assert IsSingleLine("123") && IsSingleLine("456");
  }

  lemma MultipleFieldsWritten()
    ensures WriteFields(["hi,hey", "123", "ha,hi,he", "456"], [true, false, true, false])
         == ["\"hi,hey\"", "123", "\"ha,hi,he\"", "456"]
  {
    WriteFieldsFour("hi,hey", "123", "ha,hi,he", "456", true, false, true, false);
    HiHeyQuoted();
    HaHiHeQuoted();
  }

  lemma MultipleLineJoined()
    ensures Join(["\"hi,hey\"", "123", "\"ha,hi,he\"", "456"], ",") == "\"hi,hey\",123,\"ha,hi,he\",456"
  {
    JoinFour("\"hi,hey\"", "123", "\"ha,hi,he\"", "456", ",");
  }

  /** The first unit test: a line without quotes. */
  lemma SimpleExample()
    ensures SeparateCsvLine("hello,world,123,456") == Success(["hello", "world", "123", "456"])
  {
    SimpleFieldsWritable();
    SimpleFieldsWritten();
    SimpleLineJoined();
    RoundTrip(["hello", "world", "123", "456"], [false, false, false, false]);
  }

  /** The second unit test: a quoted field holding a comma. */
  lemma ComplexExample()
    ensures SeparateCsvLine("\"hello,world\",123,456,789") == Success(["hello,world", "123", "456", "789"])
  {
    ComplexFieldsWritable();
    ComplexFieldsWritten();
    ComplexLineJoined();
    RoundTrip(["hello,world", "123", "456", "789"], [true, false, false, false]);
  }

  /** The third unit test and the doc comment's second example: two quoted
      fields with commas. */
  lemma MultipleExample()
    ensures SeparateCsvLine("\"hi,hey\",123,\"ha,hi,he\",456") == Success(["hi,hey", "123", "ha,hi,he", "456"])
  {
    MultipleFieldsWritable();
    MultipleFieldsWritten();
    MultipleLineJoined();
    RoundTrip(["hi,hey", "123", "ha,hi,he", "456"], [true, false, true, false]);
  }
}
