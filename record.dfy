/**
 * The record codec of the tracker: comma sanitisation of the free-text
 * fields, the `date,category,description,amount` line that add_entry_cli
 * writes, and the four-token split list_entries applies to each line.
 */
module Record {
  import opened Wrappers
  import opened CText

  /** A listed record: the four tokens of a table line (the amount stays text). */
  datatype Row = Row(date: string, category: string, description: string, amount: string)

  /** Size of the category buffer `cat_s`. */
  const CategoryBufSize: nat := 128
  /** Size of the description buffer `desc_s`. */
  const DescriptionBufSize: nat := 768
  /** The category stored when none is given. */
  const DefaultCategory: string := "uncat"

  /** The field delimiter, as the one-character set strtok is given. */
  const Comma: set<char> := {','}

  function SanitizeChar(c: char): char
  {
    if c == ',' then ' ' else c
  }

  /** The string sanitize_commas leaves behind: every comma replaced by a space. */
  function Sanitize(s: string): (r: string)
    ensures |r| == |s|
    ensures forall i :: 0 <= i < |s| ==> r[i] == if s[i] == ',' then ' ' else s[i]
  {
    if s == [] then [] else [SanitizeChar(s[0])] + Sanitize(s[1..])
  }

  /** Sanitised text holds no comma, so it cannot split a line. */
  lemma SanitizeNoComma(s: string)
    ensures ',' !in Sanitize(s)
  {
    var r := Sanitize(s);
    assert forall i :: 0 <= i < |r| ==> r[i] != ',';
  }

  /** Sanitising twice is sanitising once. */
  lemma SanitizeIdempotent(s: string)
    ensures Sanitize(Sanitize(s)) == Sanitize(s)
  {
    SanitizeNoComma(s);
    SanitizeCommaFree(Sanitize(s));
  }

  /** Text without commas is left as it is. */
  lemma SanitizeCommaFree(s: string)
    requires ',' !in s
    ensures Sanitize(s) == s
  {
  }

  /** Sanitising keeps every character other than a comma where it was. */
  lemma SanitizeKeeps(s: string, c: char)
    requires c != ',' && c != ' '
    ensures (c in Sanitize(s)) == (c in s)
  {
    var r := Sanitize(s);
    if c in r {
      var i :| 0 <= i < |r| && r[i] == c;
      assert s[i] == c;
    }
    if c in s {
      var i :| 0 <= i < |s| && s[i] == c;
      assert r[i] == c;
    }
  }

  /**
   * sanitize_commas on a NUL-terminated buffer: the C string it holds is
   * sanitised in place; nothing from its NUL onwards is touched.
   */
  method SanitizeCommas(a: array<char>)
    requires '\0' in a[..]
    modifies a
    ensures a[..] == Sanitize(CStringOf(old(a[..]))) + old(a[..])[CLen(old(a[..]))..]
  {
    ghost var s := a[..];
    ghost var n := CLen(s);
    assert n < a.Length;
    var i := 0;
    while a[i] != '\0'
      invariant 0 <= i <= n
      invariant forall k :: 0 <= k < i ==> a[k] == SanitizeChar(s[k])
      invariant forall k :: i <= k < a.Length ==> a[k] == s[k]
      decreases n - i
    {
      if a[i] == ',' {
        a[i] := ' ';
      }
      i := i + 1;
    }
    assert i == n;
    var want := Sanitize(CStringOf(s)) + s[n..];
    assert |want| == a.Length;
    forall k | 0 <= k < a.Length
      ensures a[k] == want[k]
    {
      if k < n {
        assert want[k] == Sanitize(s[..n])[k];
      }
    }
    assert a[..] == want;
  }

  /** A free-text field as it is stored: cut to fit its buffer, then sanitised. */
  function StoredField(s: string, size: nat): (r: string)
    requires size >= 1
    ensures |r| == Min(|s|, size - 1)
    ensures ',' !in r
    ensures forall i :: 0 <= i < |r| ==> r[i] == SanitizeChar(s[i])
  {
    SanitizeNoComma(Truncated(s, size));
    Sanitize(Truncated(s, size))
  }

  /** The stored category: "uncat" when absent, at most 127 characters, no comma. */
  function StoredCategory(category: Option<string>): string
  {
    StoredField(category.GetOr(DefaultCategory), CategoryBufSize)
  }

  /** The stored description: empty when absent, at most 767 characters, no comma. */
  function StoredDescription(desc: Option<string>): string
  {
    StoredField(desc.GetOr(""), DescriptionBufSize)
  }

  /**
   * The line add_entry_cli appends, `date,cat,desc,amount` and LF; `amount`
   * is the `%.2f` rendering of the parsed amount.
   */
  function RecordLine(date: string, category: Option<string>, desc: Option<string>, amount: string): string
  {
    date + "," + StoredCategory(category) + "," + StoredDescription(desc) + "," + amount + "\n"
  }

  /** Neither field text nor the date nor the amount is allowed to end the line early. */
  predicate OnOneLine(s: string)
  {
    forall i :: 0 <= i < |s| ==> s[i] !in LineStops
  }

  /** Four comma-free pieces joined by commas hold exactly three commas. */
  lemma ThreeCommas(a: string, b: string, c: string, d: string)
    requires ',' !in a && ',' !in b && ',' !in c && ',' !in d
    ensures multiset(a + "," + b + "," + c + "," + d + "\n")[','] == 3
  {
    var line := a + "," + b + "," + c + "," + d + "\n";
    assert line == a + [','] + b + [','] + c + [','] + d + ['\n'];
    assert multiset(a)[','] == 0 && multiset(b)[','] == 0;
    assert multiset(c)[','] == 0 && multiset(d)[','] == 0;
  }

  /**
   * The category and description are stored truncated to their buffers and
   * comma-free, so a written line has exactly three commas whenever the
   * date and the amount text have none.
   */
  lemma RecordLineCommas(date: string, category: Option<string>, desc: Option<string>, amount: string)
    requires ',' !in date && ',' !in amount
    ensures |StoredCategory(category)| == Min(|category.GetOr(DefaultCategory)|, CategoryBufSize - 1)
    ensures |StoredDescription(desc)| == Min(|desc.GetOr("")|, DescriptionBufSize - 1)
    ensures category.None? ==> StoredCategory(category) == DefaultCategory
    ensures multiset(RecordLine(date, category, desc, amount))[','] == 3
  {
    if category.None? {
      DefaultCategoryStored();
    }
    var c := StoredCategory(category);
    var d := StoredDescription(desc);
    assert multiset(RecordLine(date, category, desc, amount))[','] == 3 by {
      assert ',' !in c && ',' !in d;
      ThreeCommas(date, c, d, amount);
    }
  }

  /** Without a category the record stores "uncat". */
  lemma DefaultCategoryStored()
    ensures StoredCategory(None) == DefaultCategory
  {
    var t := Truncated(DefaultCategory, CategoryBufSize);
    assert t == DefaultCategory;
    assert ',' !in DefaultCategory;
    SanitizeCommaFree(DefaultCategory);
  }

  /**
   * What list_entries takes from one line read from the table: the line is
   * cut at its first CR or LF, then four strtok calls on "," give the date,
   * category, description and amount; if any of them finds nothing the line
   * is skipped.
   */
  function ParseLine(line: string): Option<Row>
  {
    var ts := TakeTokens(Trimmed(line), Comma, 4);
    if |ts| < 4 then None else Some(Row(ts[0], ts[1], ts[2], ts[3]))
  }

  /**
   * A line is listed iff it has at least four non-empty comma-separated
   * fields; the record is its first four, and any further fields are ignored.
   */
  lemma ParseLineByFields(line: string)
    ensures var fs := NonEmpty(Split(Trimmed(line), ','));
      ParseLine(line) == if |fs| < 4 then None else Some(Row(fs[0], fs[1], fs[2], fs[3]))
  {
    TokensAreNonEmptyFields(Trimmed(line), ',');
    TakeTokensPrefix(Trimmed(line), Comma, 4);
  }

  /** Two texts that stay on one line stay on one line together. */
  lemma OnOneLineConcat(x: string, y: string)
    requires OnOneLine(x) && OnOneLine(y)
    ensures OnOneLine(x + y)
  {
    assert forall i :: |x| <= i < |x + y| ==> (x + y)[i] == y[i - |x|];
  }

  /** A line whose text stays on one line and ends at `tail` is trimmed to that text. */
  lemma TrimmedAt(body: string, tail: string)
    requires OnOneLine(body)
    requires tail == [] || tail[0] in LineStops
    ensures Trimmed(body + tail) == body
  {
    var line := body + tail;
    assert forall i :: 0 <= i < |body| ==> line[i] == body[i];
    CSpanUnique(line, LineStops, |body|);
    assert line[..|body|] == body;
  }

  /** Four comma-separated, comma-free fields split back into those four fields. */
  lemma SplitFour(a: string, b: string, c: string, d: string)
    requires ',' !in a && ',' !in b && ',' !in c && ',' !in d
    ensures Split(a + "," + b + "," + c + "," + d, ',') == [a, b, c, d]
  {
    var bcd := b + [','] + c + [','] + d;
    calc {
      Split(a + "," + b + "," + c + "," + d, ',');
      { CommaJoinFirst(a, b, c, d); }
      Split(a + [','] + bcd, ',');
      { SplitCons(a, ',', bcd); }
      [a] + Split(bcd, ',');
      { SplitThree(b, c, d); }
      [a] + [b, c, d];
    }
  }

  /** The record text is its first field, a comma, and the rest. */
  lemma CommaJoinFirst(a: string, b: string, c: string, d: string)
    ensures a + "," + b + "," + c + "," + d == a + [','] + (b + [','] + c + [','] + d)
  {
    assert "," == [','];
  }

  /** Three comma-separated, comma-free fields split back into those three fields. */
  lemma SplitThree(b: string, c: string, d: string)
    requires ',' !in b && ',' !in c && ',' !in d
    ensures Split(b + [','] + c + [','] + d, ',') == [b, c, d]
  {
    var cd := c + [','] + d;
    assert b + [','] + c + [','] + d == b + [','] + cd;
    SplitTwo(c, d);
    SplitCons(b, ',', cd);
  }

  /** Two comma-separated, comma-free fields split back into those two fields. */
  lemma SplitTwo(c: string, d: string)
    requires ',' !in c && ',' !in d
    ensures Split(c + [','] + d, ',') == [c, d]
  {
    SplitNone(d, ',');
    SplitCons(c, ',', d);
  }

  /** Four fields that stay on one line, joined by commas, stay on one line. */
  lemma OnOneLineFour(a: string, b: string, c: string, d: string)
    requires OnOneLine(a) && OnOneLine(b) && OnOneLine(c) && OnOneLine(d)
    ensures OnOneLine(a + "," + b + "," + c + "," + d)
  {
    assert OnOneLine(",");
    OnOneLineConcat(a, ",");
    OnOneLineConcat(a + ",", b);
    OnOneLineConcat(a + "," + b, ",");
    OnOneLineConcat(a + "," + b + ",", c);
    OnOneLineConcat(a + "," + b + "," + c, ",");
    OnOneLineConcat(a + "," + b + "," + c + ",", d);
  }

  /** Four comma-free, non-empty fields on one line are read back as they are. */
  lemma ParseFourFields(a: string, b: string, c: string, d: string, tail: string)
    requires a != [] && b != [] && c != [] && d != []
    requires ',' !in a && ',' !in b && ',' !in c && ',' !in d
    requires OnOneLine(a) && OnOneLine(b) && OnOneLine(c) && OnOneLine(d)
    requires tail == [] || tail[0] in LineStops
    ensures ParseLine(a + "," + b + "," + c + "," + d + tail) == Some(Row(a, b, c, d))
  {
    var body := a + "," + b + "," + c + "," + d;
    OnOneLineFour(a, b, c, d);
    TrimmedAt(body, tail);
    SplitFour(a, b, c, d);
    NonEmptyCons(a, [b, c, d]);
    NonEmptyCons(b, [c, d]);
    NonEmptyCons(c, [d]);
    NonEmptyCons(d, []);
    assert NonEmpty([a, b, c, d]) == [a, b, c, d];
    ParseLineByFields(body + tail);
  }

  /** A stored field keeps the line intact when the text given for it does. */
  lemma StoredFieldOnOneLine(s: string, size: nat)
    requires size >= 2 && s != [] && OnOneLine(s)
    ensures StoredField(s, size) != [] && OnOneLine(StoredField(s, size))
  {
  }

  /**
   * Writing a record and reading its line back gives the date, the stored
   * category, the stored description and the amount text, provided every
   * one of them is non-empty and stays on one line.
   */
  lemma RecordLineRoundTrip(date: string, category: Option<string>, desc: Option<string>, amount: string)
    requires date != [] && ',' !in date && OnOneLine(date)
    requires amount != [] && ',' !in amount && OnOneLine(amount)
    requires category.GetOr(DefaultCategory) != [] && OnOneLine(category.GetOr(DefaultCategory))
    requires desc.GetOr("") != [] && OnOneLine(desc.GetOr(""))
    ensures ParseLine(RecordLine(date, category, desc, amount))
         == Some(Row(date, StoredCategory(category), StoredDescription(desc), amount))
  {
    var c := StoredCategory(category);
    var d := StoredDescription(desc);
    StoredFieldOnOneLine(category.GetOr(DefaultCategory), CategoryBufSize);
    StoredFieldOnOneLine(desc.GetOr(""), DescriptionBufSize);
    ParseFourFields(date, c, d, amount, "\n");
  }

  /**
   * A record written with an empty description has an empty field, which
   * strtok skips: the line yields only three tokens and is never listed.
   */
  lemma EmptyDescriptionIsLost(date: string, category: Option<string>, amount: string)
    requires date != [] && ',' !in date && OnOneLine(date)
    requires amount != [] && ',' !in amount && OnOneLine(amount)
    requires category.GetOr(DefaultCategory) != [] && OnOneLine(category.GetOr(DefaultCategory))
    ensures ParseLine(RecordLine(date, category, Some(""), amount)) == None
  {
    var c := StoredCategory(category);
    StoredFieldOnOneLine(category.GetOr(DefaultCategory), CategoryBufSize);
    var body := date + "," + c + "," + [] + "," + amount;
    assert RecordLine(date, category, Some(""), amount) == body + "\n" by {
      assert StoredDescription(Some("")) == [];
    }
    assert NonEmpty(Split(Trimmed(body + "\n"), ',')) == [date, c, amount] by {
      OnOneLineFour(date, c, [], amount);
      TrimmedAt(body, "\n");
      SplitFour(date, c, [], amount);
      NonEmptyDropsOne(date, c, amount);
    }
    ParseLineByFields(body + "\n");
  }

  /** Of four fields with an empty third one, only the other three are non-empty. */
  lemma NonEmptyDropsOne(a: string, b: string, d: string)
    requires a != [] && b != [] && d != []
    ensures NonEmpty([a, b, [], d]) == [a, b, d]
  {
    NonEmptyCons(a, [b, [], d]);
    NonEmptyCons(b, [[], d]);
    NonEmptyCons([], [d]);
    NonEmptyCons(d, []);
    assert [a, b, [], d] == [a] + [b, [], d];
    assert [b, [], d] == [b] + [[], d];
    assert [[], d] == [[]] + [d];
    assert [d] == [d] + [];
  }
}
