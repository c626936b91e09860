/**
 * The table file `tracker.csv` as a value: absent (None) or its characters.
 * Models file_has_header, ensure_header, add_entry_cli and list_entries.
 * Whether the program may open a file for writing (`fopen` mode "w", which
 * creates the table or the temporary copy) is the parameter `canWrite`;
 * whether it may open the table for appending (mode "a") is `canAppend`.
 * The clock's date and the rendered amount are inputs.
 */
module Store {
  import opened Wrappers
  import opened CText
  import opened Record

  /** The header line's text, compared against the first line of the table. */
  const Header: string := "date,category,description,amount"
  /** The header line as written to the file. */
  const HeaderLine: string := Header + "\n"

  /** The header is 32 characters long and stays on one line. */
  lemma HeaderFacts()
    ensures |Header| == 32
    ensures OnOneLine(Header)
  {
    assert '\r' !in Header;
    assert '\n' !in Header;
    assert '\0' !in Header;
  }

  /** The header names the four fields of a record line. */
  lemma HeaderFields()
    ensures Header == "date" + "," + "category" + "," + "description" + "," + "amount"
  {
  }

  /**
   * file_has_header on an open file holding `s`: the first fgets line,
   * trimmed at its first CR or LF, is exactly the header. An empty file has
   * no first line and no header.
   */
  predicate FileHasHeader(s: string)
  {
    s != [] && Trimmed(FirstLine(s)) == Header
  }

  /** The file has the header iff its text up to the first CR, LF (or NUL) is exactly the header. */
  lemma FileHasHeaderIff(s: string)
    ensures FileHasHeader(s) == (Trimmed(s) == Header)
  {
    HeaderFacts();
    TrimmedFirstLine(s, Header);
  }

  /** A file with the header begins with the header text. */
  lemma FileHasHeaderStarts(s: string)
    requires FileHasHeader(s)
    ensures StartsWithHeader(s)
  {
    FileHasHeaderIff(s);
    var k := CSpan(s, LineStops);
    assert s[..k] == Header;
  }

  /** Any text after the header line leaves the header detectable. */
  lemma HeaderLineHasHeader(rest: string)
    ensures FileHasHeader(HeaderLine + rest)
  {
    HeaderFacts();
    TrimmedAt(Header, "\n" + rest);
    assert HeaderLine + rest == Header + ("\n" + rest);
    FileHasHeaderIff(HeaderLine + rest);
  }

  /**
   * The table after a successful ensure_header: created as the header line
   * alone, kept as it is when it has the header, and otherwise rewritten as
   * the header line followed by every original character.
   */
  function WithHeader(file: Option<string>): string
  {
    match file
    case None => HeaderLine
    case Some(s) => if FileHasHeader(s) then s else HeaderLine + s
  }

  /**
   * What ensure_header does: the table afterwards and whether the
   * "header rewrite" failure was reported, or the fatal failure to create it.
   */
  datatype Ensured = Ensured(file: Option<string>, rewriteFailed: bool) | CreateFailed

  /**
   * ensure_header: an absent file that cannot be created ends the program;
   * a present file lacking the header that cannot be rewritten is left as it
   * is, and the failure is reported.
   */
  function Ensure(file: Option<string>, canWrite: bool): Ensured
  {
    if canWrite then Ensured(Some(WithHeader(file)), false)
    else if file.None? then CreateFailed
    else Ensured(file, !FileHasHeader(file.value))
  }

  /**
   * The rewrite failure is reported exactly when an existing file lacks the
   * header and cannot be rewritten; the file is then left as it was.
   */
  lemma RewriteFailureReported(file: Option<string>, canWrite: bool)
    ensures var e := Ensure(file, canWrite);
      (e.Ensured? && e.rewriteFailed) <==> (!canWrite && file.Some? && !FileHasHeader(file.value))
    ensures var e := Ensure(file, canWrite);
      e.Ensured? && e.rewriteFailed ==> e.file == file
  {
  }

  /** After ensure_header the file has the header, and the old contents are kept verbatim at its end. */
  lemma WithHeaderHasHeader(file: Option<string>)
    ensures FileHasHeader(WithHeader(file))
    ensures file.Some? ==> exists k :: 0 <= k <= |HeaderLine| && WithHeader(file) == HeaderLine[..k] + file.value
  {
    match file
    case None =>
      HeaderLineHasHeader([]);
      assert HeaderLine + [] == HeaderLine;
    case Some(s) =>
      if FileHasHeader(s) {
        assert WithHeader(file) == HeaderLine[..0] + s;
      } else {
        HeaderLineHasHeader(s);
        assert WithHeader(file) == HeaderLine[..|HeaderLine|] + s;
      }
  }

  /** ensure_header is idempotent: a second call changes nothing. */
  lemma EnsureHeaderIdempotent(file: Option<string>, canWrite: bool)
    requires Ensure(file, canWrite).Ensured?
    ensures Ensure(Ensure(file, canWrite).file, canWrite) == Ensure(file, canWrite)
  {
    if canWrite {
      WithHeaderHasHeader(file);
    }
  }

  /**
   * ensure_header as the program runs it: the comparison, then a copy of the
   * old file character by character after the header line.
   */
  method EnsureHeader(file: Option<string>, canWrite: bool) returns (r: Ensured)
    ensures r == Ensure(file, canWrite)
  {
    if file.None? {
      if !canWrite {
        return CreateFailed;
      }
      return Ensured(Some(HeaderLine), false);
    }
    var s := file.value;
    if FileHasHeader(s) {
      return Ensured(file, false);
    }
    if !canWrite {
      return Ensured(file, true);
    }
    var copy := HeaderLine;
    var i := 0;
    while i < |s|
      invariant 0 <= i <= |s|
      invariant copy == HeaderLine + s[..i]
    {
      copy := copy + [s[i]];
      i := i + 1;
    }
    assert s[..i] == s;
    return Ensured(Some(copy), false);
  }

  /** The outcome of add_entry_cli: the line appended, or why nothing was. */
  datatype AddStatus = Appended(line: string) | AppendFailed | HeaderCreateFailed

  /** The file after add_entry_cli, whether ensure_header reported a failed rewrite, and the outcome of the append. */
  datatype AddResult = AddResult(file: Option<string>, rewriteFailed: bool, status: AddStatus)

  /**
   * add_entry_cli: ensure the header, then append the record line to the
   * file as ensure_header left it; the append fails (status 1) when the
   * file cannot be opened for appending. A failed header rewrite does not
   * stop the append.
   */
  function Add(file: Option<string>, canWrite: bool, canAppend: bool, date: string, amount: string,
               category: Option<string>, desc: Option<string>): AddResult
  {
    match Ensure(file, canWrite)
    case CreateFailed => AddResult(file, false, HeaderCreateFailed)
    case Ensured(f, rewriteFailed) =>
      if !canAppend then AddResult(f, rewriteFailed, AppendFailed)
      else
        var line := RecordLine(date, category, desc, amount);
        AddResult(Some(f.GetOr([]) + line), rewriteFailed, Appended(line))
  }

  /**
   * The copy of a free-text field add_entry_cli stores: snprintf into a
   * buffer of `size`, then sanitize_commas on that buffer in place.
   */
  method CopyAndSanitize(text: CString, size: nat) returns (stored: string)
    requires size >= 1
    ensures stored == StoredField(text, size)
  {
    var buf := Snprintf(text, size);
    ghost var t := Truncated(text, size);
    ghost var pad := seq(size - |t|, _ => '\0');
    assert '\0' !in t;
    CStringOfPadded(t, pad);
    SanitizeCommas(buf);
    SanitizeKeeps(t, '\0');
    assert buf[..] == Sanitize(t) + pad;
    CStringOfPadded(Sanitize(t), pad);
    stored := CStringOf(buf[..]);
  }

  /**
   * add_entry_cli as the program runs it: ensure_header, then the category
   * (or "uncat") and the description copied and sanitised, written as one
   * line at the end of the file.
   */
  method AddEntry(file: Option<string>, canWrite: bool, canAppend: bool, date: string, amount: string,
                  category: Option<CString>, desc: Option<CString>) returns (r: AddResult)
    ensures r == Add(file, canWrite, canAppend, date, amount, category, desc)
  {
    var ensured := EnsureHeader(file, canWrite);
    if ensured.CreateFailed? {
      return AddResult(file, false, HeaderCreateFailed);
    }
    if !canAppend {
      return AddResult(ensured.file, ensured.rewriteFailed, AppendFailed);
    }
    var catText: CString := if category.Some? then category.value else DefaultCategory;
    var descText: CString := if desc.Some? then desc.value else "";
    var catStored := CopyAndSanitize(catText, CategoryBufSize);
    var descStored := CopyAndSanitize(descText, DescriptionBufSize);
    var line := date + "," + catStored + "," + descStored + "," + amount + "\n";
    return AddResult(Some(ensured.file.GetOr([]) + line), ensured.rewriteFailed, Appended(line));
  }

  /** What list_entries shows: "No entries yet.", nothing at all, or a table of rows. */
  datatype Listing = NoEntries | Silent | Table(rows: seq<Row>)

  /** `strncmp(line, header, 32) == 0`: the line starts with the 32 header characters. */
  predicate StartsWithHeader(line: string)
  {
    |line| >= |Header| && line[..|Header|] == Header
  }

  /** The row one line contributes: its record, or nothing when it is skipped. */
  function RowOf(line: string): seq<Row>
  {
    match ParseLine(line)
    case Some(row) => [row]
    case None => []
  }

  /** The rows of the lines that parse, in file order. */
  function Parsed(lines: seq<string>): seq<Row>
  {
    if lines == [] then [] else RowOf(lines[0]) + Parsed(lines[1..])
  }

  /** The rows read from `s` line by line. */
  function Rows(s: string): seq<Row>
  {
    Parsed(Lines(s))
  }

  /**
   * list_entries: an absent file shows "No entries yet."; an empty file
   * shows nothing; otherwise the first line is skipped when it starts with
   * the header, and every line that parses is a row.
   */
  function ListingOf(file: Option<string>): Listing
  {
    match file
    case None => NoEntries
    case Some(s) =>
      if s == [] then Silent
      else
        var first := FirstLine(s);
        Table(Rows(if StartsWithHeader(first) then s[|first|..] else s))
  }

  /** One fgets: the rows of `t` are those of its first line, then those of the rest. */
  lemma RowsStep(t: string)
    requires t != []
    ensures var k := ReadLen(t, ReadCap);
      Rows(t) == RowOf(t[..k]) + Rows(t[k..])
  {
  }

  /** The `while (fgets(...))` loop of list_entries over the unread part of the file. */
  method ReadRows(input: string) returns (rows: seq<Row>)
    ensures rows == Rows(input)
  {
    var unread := input;
    rows := [];
    while unread != []
      invariant Rows(input) == rows + Rows(unread)
      decreases |unread|
    {
      var row, used := ReadRow(unread);
      assert rows + (row + Rows(unread[used..])) == (rows + row) + Rows(unread[used..]);
      rows := rows + row;
      unread := unread[used..];
    }
  }

  /** One turn of the listing loop: an fgets read of `used` characters and the row it yields, if any. */
  method ReadRow(unread: string) returns (row: seq<Row>, used: nat)
    requires unread != []
    ensures 0 < used <= |unread|
    ensures Rows(unread) == row + Rows(unread[used..])
  {
    used := ReadLen(unread, ReadCap);
    RowsStep(unread);
    var parsed := ParseLine(unread[..used]);
    row := if parsed.Some? then [parsed.value] else [];
  }

  /** list_entries as the program runs it: the header check, then the read loop. */
  method ListEntries(file: Option<string>) returns (r: Listing)
    ensures r == ListingOf(file)
    ensures file.None? <==> r == NoEntries
    ensures file == Some([]) <==> r == Silent
  {
    if file.None? {
      return NoEntries;
    }
    var s := file.value;
    if s == [] {
      return Silent;
    }
    var pos := ReadLen(s, ReadCap);
    if !StartsWithHeader(s[..pos]) {
      pos := 0;
    }
    var rows := ReadRows(s[pos..]);
    return Table(rows);
  }

  /** Reading two runs of lines gives the rows of the first run, then those of the second. */
  lemma {:induction false} ParsedAppend(a: seq<string>, b: seq<string>)
    ensures Parsed(a + b) == Parsed(a) + Parsed(b)
  {
    if a != [] {
      var x := RowOf(a[0]);
      assert (a + b)[0] == a[0];
      assert (a + b)[1..] == a[1..] + b;
      assert Parsed(a + b) == x + Parsed(a[1..] + b);
      ParsedAppend(a[1..], b);
      assert Parsed(a) == x + Parsed(a[1..]);
      assert x + (Parsed(a[1..]) + Parsed(b)) == (x + Parsed(a[1..])) + Parsed(b);
    } else {
      assert a + b == b;
    }
  }

  /** Rows of text that ends with a line break, then more text, are the rows of each in turn. */
  lemma RowsAppend(a: string, b: string)
    requires a == [] || a[|a| - 1] == '\n'
    ensures Rows(a + b) == Rows(a) + Rows(b)
  {
    LinesAppend(a, b);
    ParsedAppend(Lines(a), Lines(b));
  }

  /**
   * list_entries skips the first line iff the file starts with the 32
   * header characters, whatever follows them on that line.
   */
  lemma ListSkipsIffPrefix(s: string)
    ensures StartsWithHeader(FirstLine(s)) == StartsWithHeader(s)
  {
    HeaderFacts();
    var k := ReadLen(s, ReadCap);
    if StartsWithHeader(s) {
      assert forall i :: 0 <= i < |Header| ==> s[i] == Header[i] && s[i] !in LineStops;
      assert k >= |Header|;
      assert FirstLine(s)[..|Header|] == s[..|Header|];
    }
  }

  /** The header line ensure_header writes is read as one fgets line. */
  lemma HeaderLineFirst(rest: string)
    ensures FirstLine(HeaderLine + rest) == HeaderLine
    ensures StartsWithHeader(HeaderLine)
  {
    HeaderFacts();
    ReadLenLine(Header, rest, ReadCap);
    assert HeaderLine + rest == Header + "\n" + rest;
    assert (HeaderLine + rest)[..|HeaderLine|] == HeaderLine;
    assert HeaderLine[..|Header|] == Header;
  }

  /**
   * When ensure_header prepends the header, the old contents are listed in
   * full, the old first line included.
   */
  lemma EnsureHeaderKeepsData(s: string)
    requires !FileHasHeader(s)
    ensures ListingOf(Some(WithHeader(Some(s)))) == Table(Rows(s))
  {
    HeaderLineFirst(s);
    var w := HeaderLine + s;
    assert w[|HeaderLine|..] == s;
  }

  /**
   * On a non-empty file that does not start with the header text, listing
   * before and after ensure_header shows the same rows.
   */
  lemma EnsureHeaderKeepsListing(s: string)
    requires s != [] && !StartsWithHeader(s)
    ensures ListingOf(Some(WithHeader(Some(s)))) == ListingOf(Some(s))
  {
    if FileHasHeader(s) {
      FileHasHeaderStarts(s);
    }
    EnsureHeaderKeepsData(s);
    ListSkipsIffPrefix(s);
  }

  /**
   * The two header checks disagree on a first line that starts with the
   * header text and goes on: ensure_header does not accept it as the
   * header, list_entries skips it as if it were.
   */
  lemma HeaderChecksDisagree(extra: string)
    requires extra != [] && extra[0] !in LineStops
    ensures !FileHasHeader(Header + extra)
    ensures StartsWithHeader(FirstLine(Header + extra))
  {
    HeaderFacts();
    var s := Header + extra;
    FileHasHeaderIff(s);
    assert forall i :: 0 <= i < |Header| ==> s[i] == Header[i];
    assert s[|Header|] == extra[0];
    assert CSpan(s, LineStops) > |Header|;
    ListSkipsIffPrefix(s);
    assert s[..|Header|] == Header;
  }

  /** The header text followed by more text on one line is read as one record-shaped line. */
  lemma LookalikeLine(x: string)
    requires x != [] && ',' !in x && OnOneLine(x)
    ensures ParseLine(Header + x + "\n") == Some(Row("date", "category", "description", "amount" + x))
  {
    HeaderFields();
    var amountX := "amount" + x;
    assert OnOneLine("amount");
    OnOneLineConcat("amount", x);
    assert ',' !in "amount";
    assert ',' !in amountX;
    assert Header + x + "\n" == "date" + "," + "category" + "," + "description" + "," + amountX + "\n";
    ParseFourFields("date", "category", "description", amountX, "\n");
  }

  /**
   * A one-line file whose line is the header text followed by more text
   * lists no rows; after ensure_header prepends a real header, that line is
   * listed as a record with the column names as its fields.
   */
  lemma LookalikeHeaderBecomesRow(x: string)
    requires x != [] && ',' !in x && OnOneLine(x) && |x| < 900
    ensures ListingOf(Some(Header + x + "\n")) == Table([])
    ensures ListingOf(Some(WithHeader(Some(Header + x + "\n"))))
         == Table([Row("date", "category", "description", "amount" + x)])
  {
    HeaderFacts();
    var body := Header + x;
    var s := body + "\n";
    OnOneLineConcat(Header, x);
    assert '\n' !in body;
    HeaderChecksDisagree(x + "\n");
    assert Header + (x + "\n") == s;
    ReadLenLine(body, [], ReadCap);
    assert body + "\n" + [] == s;
    assert FirstLine(s) == s;
    assert s[|s|..] == [];
    assert Rows([]) == [];
    EnsureHeaderKeepsData(s);
    LinesOfOneLine(body);
    LookalikeLine(x);
    assert Rows(s) == Parsed([s]);
  }

  /** The file is absent, empty, or its last line is terminated. */
  predicate EndsWithLineBreak(file: Option<string>)
  {
    file.None? || file.value == [] || file.value[|file.value| - 1] == '\n'
  }

  /** Text that cannot break the written line apart or end it early. */
  predicate RecordFieldsFit(date: string, amount: string, category: Option<string>, desc: Option<string>)
  {
    date != [] && ',' !in date && OnOneLine(date) &&
    amount != [] && ',' !in amount && OnOneLine(amount) &&
    category.GetOr(DefaultCategory) != [] && OnOneLine(category.GetOr(DefaultCategory)) &&
    desc.GetOr("") != [] && OnOneLine(desc.GetOr(""))
  }

  /** A record line with fitting fields is one line, at most `|date| + |amount| + 898` characters long. */
  lemma RecordLineShape(date: string, amount: string, category: Option<string>, desc: Option<string>)
    requires RecordFieldsFit(date, amount, category, desc)
    ensures var line := RecordLine(date, category, desc, amount);
      |line| <= |date| + |amount| + 898 &&
      line[|line| - 1] == '\n' && OnOneLine(line[..|line| - 1])
  {
    var c := StoredCategory(category);
    var d := StoredDescription(desc);
    StoredFieldOnOneLine(category.GetOr(DefaultCategory), CategoryBufSize);
    StoredFieldOnOneLine(desc.GetOr(""), DescriptionBufSize);
    OnOneLineFour(date, c, d, amount);
    var body := date + "," + c + "," + d + "," + amount;
    assert RecordLine(date, category, desc, amount) == body + "\n";
    assert (body + "\n")[..|body|] == body;
  }

  /** Text that stays on one line has no LF in it. */
  lemma OnOneLineNoBreak(s: string)
    requires OnOneLine(s)
    ensures '\n' !in s
  {
  }

  /** A single short line that parses to a row reads back as exactly that row. */
  lemma RowsOfOneLine(body: string, row: Row)
    requires '\n' !in body && |body| < ReadCap
    requires ParseLine(body + "\n") == Some(row)
    ensures Rows(body + "\n") == [row]
  {
    LinesOfOneLine(body);
    assert Parsed([body + "\n"]) == RowOf(body + "\n") + Parsed([]);
  }

  /** Appending text after a first line that ends with LF leaves that first line as it was. */
  lemma FirstLineAppend(w: string, t: string)
    requires w != [] && w[|w| - 1] == '\n'
    ensures FirstLine(w + t) == FirstLine(w)
    ensures var k := |FirstLine(w)|; (w + t)[k..] == w[k..] + t
  {
    ReadLenAppend(w, t, ReadCap);
  }

  /** A file that starts with the header lists the rows of everything after its first line. */
  lemma ListingOfHeadered(s: string)
    requires StartsWithHeader(s)
    ensures ListingOf(Some(s)) == Table(Rows(s[|FirstLine(s)|..]))
  {
    HeaderFacts();
    ListSkipsIffPrefix(s);
  }

  /** Appending a line to a file that starts with the header and ends with LF lists that line's rows after the old ones. */
  lemma AppendedLineListed(w: string, line: string)
    requires StartsWithHeader(w) && w[|w| - 1] == '\n'
    ensures ListingOf(Some(w)).Table?
    ensures ListingOf(Some(w + line)) == Table(ListingOf(Some(w)).rows + Rows(line))
  {
    HeaderFacts();
    FirstLineAppend(w, line);
    var k := |FirstLine(w)|;
    assert (w + line)[..|Header|] == w[..|Header|];
    ListingOfHeadered(w);
    ListingOfHeadered(w + line);
    RowsAppend(w[k..], line);
  }

  /** A file that has the header and ends with LF is one that ensure_header may keep as it is. */
  lemma KeptFileEndsWithLineBreak(s: string)
    requires EndsWithLineBreak(Some(s)) && FileHasHeader(s)
    ensures s != [] && StartsWithHeader(s) && s[|s| - 1] == '\n'
  {
    assert s != [];
    assert s[|s| - 1] == '\n';
    FileHasHeaderStarts(s);
  }

  /** The header line put before a file makes a text that starts with the header and ends as the file did, or with LF. */
  lemma PrefixedFileEndsWithLineBreak(s: string)
    requires EndsWithLineBreak(Some(s))
    ensures var w := HeaderLine + s; w != [] && StartsWithHeader(w) && w[|w| - 1] == '\n'
  {
    HeaderFacts();
    var w := HeaderLine + s;
    assert w[..|Header|] == Header;
    assert s != [] ==> w[|w| - 1] == s[|s| - 1];
  }

  /** ensure_header leaves a file that ends with LF (or is empty or absent) starting with the header and ending with LF. */
  lemma WithHeaderEndsWithLineBreak(file: Option<string>)
    requires EndsWithLineBreak(file)
    ensures var w := WithHeader(file); w != [] && StartsWithHeader(w) && w[|w| - 1] == '\n'
  {
    match file
    case None =>
      PrefixedFileEndsWithLineBreak([]);
      assert HeaderLine + [] == HeaderLine;
    case Some(s) =>
      if FileHasHeader(s) {
        assert WithHeader(file) == s;
        KeptFileEndsWithLineBreak(s);
      } else {
        assert WithHeader(file) == HeaderLine + s;
        PrefixedFileEndsWithLineBreak(s);
      }
  }

  /** A record line whose fields fit reads back as exactly one row with the stored fields. */
  lemma RecordLineRows(date: string, amount: string, category: Option<string>, desc: Option<string>)
    requires RecordFieldsFit(date, amount, category, desc)
    requires |date| + |amount| <= 124
    ensures Rows(RecordLine(date, category, desc, amount))
         == [Row(date, StoredCategory(category), StoredDescription(desc), amount)]
  {
    var line := RecordLine(date, category, desc, amount);
    RecordLineShape(date, amount, category, desc);
    RecordLineRoundTrip(date, category, desc, amount);
    var body := line[..|line| - 1];
    assert line == body + "\n";
    OnOneLineNoBreak(body);
    RowsOfOneLine(body, Row(date, StoredCategory(category), StoredDescription(desc), amount));
  }

  /** When files can be written and appended to, add_entry_cli appends the record line to the file as ensure_header left it. */
  lemma AddWritable(file: Option<string>, date: string, amount: string,
                    category: Option<string>, desc: Option<string>)
    ensures var line := RecordLine(date, category, desc, amount);
      Add(file, true, true, date, amount, category, desc) == AddResult(Some(WithHeader(file) + line), false, Appended(line))
  {
  }

  /**
   * A file without the header that cannot be rewritten still gets the
   * record appended when it can be opened for appending: the failed
   * rewrite is reported and the record lands in the header-less file.
   */
  lemma AppendAfterFailedRewrite(s: string, date: string, amount: string,
                                 category: Option<string>, desc: Option<string>)
    requires !FileHasHeader(s)
    ensures var line := RecordLine(date, category, desc, amount);
      Add(Some(s), false, true, date, amount, category, desc) == AddResult(Some(s + line), true, Appended(line))
  {
    RewriteFailureReported(Some(s), false);
  }

  /**
   * Appending a record to a file whose last line is terminated adds exactly
   * that record, at the end, to what list_entries shows; the record reads
   * back with its stored (truncated, sanitised) category and description.
   */
  lemma AddedRecordIsListed(file: Option<string>, date: string, amount: string,
                            category: Option<string>, desc: Option<string>)
    requires EndsWithLineBreak(file)
    requires RecordFieldsFit(date, amount, category, desc)
    requires |date| + |amount| <= 124
    ensures var before := ListingOf(Some(WithHeader(file)));
      var after := Add(file, true, true, date, amount, category, desc);
      before.Table? && after.status.Appended? &&
      ListingOf(after.file)
        == Table(before.rows + [Row(date, StoredCategory(category), StoredDescription(desc), amount)])
  {
    var w := WithHeader(file);
    var line := RecordLine(date, category, desc, amount);
    WithHeaderEndsWithLineBreak(file);
    AppendedLineListed(w, line);
    assert Rows(line) == [Row(date, StoredCategory(category), StoredDescription(desc), amount)] by {
      RecordLineRows(date, amount, category, desc);
    }
    AddWritable(file, date, amount, category, desc);
  }

  /** A file holding just the header text, without a line break, passes the exact header check. */
  lemma HeaderAloneHasHeader()
    ensures WithHeader(Some(Header)) == Header
  {
    HeaderFacts();
    TrimmedAt(Header, []);
    assert Header + [] == Header;
    FileHasHeaderIff(Header);
  }

  /** A one-line file that starts with the header text lists nothing, whatever follows on that line. */
  lemma HeaderPrefixedLineHidden(rest: string)
    requires OnOneLine(rest) && |rest| < ReadCap - |Header|
    ensures ListingOf(Some(Header + rest + "\n")) == Table([])
  {
    HeaderFacts();
    var body := Header + rest;
    OnOneLineConcat(Header, rest);
    OnOneLineNoBreak(body);
    var s := body + "\n";
    ReadLenLine(body, [], ReadCap);
    assert s == body + "\n" + [];
    assert FirstLine(s) == s;
    assert s[..|Header|] == Header;
    assert s[|s|..] == [];
    assert Rows([]) == [];
  }

  /**
   * A file holding only the header text, with no line break after it, is
   * accepted as having the header; the record appended to it lands on the
   * header's line, which list_entries skips, so the record is never listed.
   */
  lemma UnterminatedHeaderHidesRecord(date: string, amount: string,
                                      category: Option<string>, desc: Option<string>)
    requires RecordFieldsFit(date, amount, category, desc)
    requires |date| + |amount| <= 90
    ensures var after := Add(Some(Header), true, true, date, amount, category, desc);
      after.file == Some(Header + RecordLine(date, category, desc, amount)) &&
      ListingOf(after.file) == Table([])
  {
    var line := RecordLine(date, category, desc, amount);
    assert Add(Some(Header), true, true, date, amount, category, desc).file == Some(Header + line) by {
      HeaderAloneHasHeader();
      AddWritable(Some(Header), date, amount, category, desc);
    }
    assert ListingOf(Some(Header + line)) == Table([]) by {
      HeaderFacts();
      RecordLineShape(date, amount, category, desc);
      var rest := line[..|line| - 1];
      assert Header + line == Header + rest + "\n";
      HeaderPrefixedLineHidden(rest);
    }
  }
}
