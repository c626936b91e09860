/**
 * The command layer of the tracker (src/main.c): `join_args`, the amount
 * check, the interactive shell and `main`'s dispatch of `add` and `list`.
 * The outside world is a value: the data file, the text on standard input,
 * and an environment that fixes the date, whether files can be opened for
 * writing, and how `strtod`/`%.2f` treat the amount text.
 */
module Commands {
  import opened Wrappers
  import opened CText
  import opened Record
  import opened Store

  /** Size of the `desc` buffer `main` joins the description words into. */
  const JoinBufSize: nat := 800

  // ---------------------------------------------------------------------
  // join_args
  // ---------------------------------------------------------------------

  /** The arguments join_args joins: argv[start..], none when start is past the end. */
  function ArgsFrom(argv: seq<CString>, start: nat): seq<CString>
  {
    if start < |argv| then argv[start..] else []
  }

  /** Words separated by single spaces: no separator before the first word or after the last. */
  function Joined(xs: seq<string>): string
  {
    if xs == [] then [] else if |xs| == 1 then xs[0] else xs[0] + " " + Joined(xs[1..])
  }

  /** Adding a word at the end adds one separator and the word. */
  lemma {:induction false} JoinedSnoc(xs: seq<string>, x: string)
    ensures Joined(xs + [x]) == if xs == [] then x else Joined(xs) + " " + x
  {
    if |xs| >= 2 {
      calc {
        Joined(xs + [x]);
        { assert (xs + [x])[1..] == xs[1..] + [x]; }
        xs[0] + " " + Joined(xs[1..] + [x]);
        { JoinedSnoc(xs[1..], x); }
        xs[0] + " " + (Joined(xs[1..]) + " " + x);
        Joined(xs) + " " + x;
      }
    } else if |xs| == 1 {
      assert (xs + [x])[1..] == [x];
    }
  }

  /** Joining NUL-free words gives a NUL-free text. */
  lemma {:induction false} JoinedCString(xs: seq<CString>)
    ensures '\0' !in Joined(xs)
  {
    if |xs| >= 2 {
      JoinedCString(xs[1..]);
    }
  }

  /** The words can be recovered by splitting on the separator when no word contains it. */
  lemma {:induction false} JoinedSplit(xs: seq<string>)
    requires xs != []
    requires forall k :: 0 <= k < |xs| ==> ' ' !in xs[k]
    ensures Split(Joined(xs), ' ') == xs
  {
    if |xs| == 1 {
      SplitNone(xs[0], ' ');
    } else {
      JoinedSplit(xs[1..]);
      SplitCons(xs[0], ' ', Joined(xs[1..]));
      assert xs == [xs[0]] + xs[1..];
    }
  }

  /** Re-tokenising joined words on spaces gives back the non-empty words. */
  lemma JoinedTokens(xs: seq<string>)
    requires xs != []
    requires forall k :: 0 <= k < |xs| ==> ' ' !in xs[k]
    ensures Tokens(Joined(xs), {' '}) == NonEmpty(xs)
  {
    JoinedSplit(xs);
    TokensAreNonEmptyFields(Joined(xs), ' ');
  }

  /** The joined text ends with the last word: there is no trailing separator. */
  lemma JoinedEnds(xs: seq<string>)
    requires xs != []
    ensures var j := Joined(xs); var w := xs[|xs| - 1];
      |w| <= |j| && j[|j| - |w|..] == w
  {
    var init := xs[..|xs| - 1];
    assert xs == init + [xs[|xs| - 1]];
    JoinedSnoc(init, xs[|xs| - 1]);
  }

  /**
   * What the loop of join_args would have written after the arguments
   * argv[start..i] if the buffer were unbounded: each argument, followed by
   * a space unless it is the last of argv.
   */
  function Pieces(argv: seq<CString>, start: nat, i: nat): string
    requires i <= |argv|
    decreases i
  {
    if i <= start then [] else Pieces(argv, start, i - 1) + argv[i - 1] + (if i < |argv| then " " else "")
  }

  /** The unbounded text is the join of the arguments so far, plus a space while more follow. */
  lemma {:induction false} PiecesJoined(argv: seq<CString>, start: nat, i: nat)
    requires start < i <= |argv|
    ensures Pieces(argv, start, i) == Joined(argv[start..i]) + (if i < |argv| then " " else "")
    decreases i
  {
    if i == start + 1 {
      assert argv[start..i] == [argv[start]];
    } else {
      PiecesJoined(argv, start, i - 1);
      PiecesJoinedStep(argv, start, i);
    }
  }

  /** One more argument extends the join by a space and that argument. */
  lemma PiecesJoinedStep(argv: seq<CString>, start: nat, i: nat)
    requires start + 1 < i <= |argv|
    requires Pieces(argv, start, i - 1) == Joined(argv[start..i - 1]) + " "
    ensures Pieces(argv, start, i) == Joined(argv[start..i]) + (if i < |argv| then " " else "")
  {
    var init, x := argv[start..i - 1], argv[i - 1];
    assert argv[start..i] == init + [x];
    JoinedSnoc(init, x);
  }

  /** After the last argument the unbounded text is exactly the join of argv[start..]. */
  lemma PiecesAll(argv: seq<CString>, start: nat)
    requires start < |argv|
    ensures Pieces(argv, start, |argv|) == Joined(argv[start..])
  {
    PiecesJoined(argv, start, |argv|);
    assert argv[start..|argv|] == argv[start..];
  }

  /** The unbounded text holds no NUL. */
  lemma {:induction false} PiecesCString(argv: seq<CString>, start: nat, i: nat)
    requires i <= |argv|
    ensures '\0' !in Pieces(argv, start, i)
    decreases i
  {
    if i > start {
      PiecesCString(argv, start, i - 1);
    }
  }

  /**
   * The buffer holds the text `text` cut to fit (at most Length - 1
   * characters), its NUL, and beyond that what the buffer held at first.
   */
  predicate Holds(b: seq<char>, text: string, first: seq<char>)
    requires |first| >= 1
  {
    var q := Truncated(text, |first|);
    |q| < |first| && b == q + ['\0'] + first[|q| + 1..]
  }

  /** A buffer that holds a NUL-free text has it as its C string. */
  lemma HoldsLen(b: seq<char>, text: string, first: seq<char>)
    requires |first| >= 1 && Holds(b, text, first) && '\0' !in text
    ensures '\0' in b && CLen(b) == |Truncated(text, |first|)|
  {
    var q := Truncated(text, |first|);
    TruncatedIsPrefix(text, |first|);
    assert '\0' !in q by {
      assert forall j :: 0 <= j < |q| ==> q[j] == text[j];
    }
    assert b[|q|] == '\0';
    CStringOfPadded(q, ['\0'] + first[|q| + 1..]);
  }

  /** strncat with the room join_args passes keeps the buffer holding the text extended by `src`. */
  lemma HoldsAfterCat(b: seq<char>, b': seq<char>, text: string, src: CString, first: seq<char>)
    requires |first| >= 1 && Holds(b, text, first)
    requires var len := |Truncated(text, |first|)|;
      var m := Min(|src|, |first| - len - 1);
      len + m + 1 <= |b| &&
      b' == b[..len] + src[..m] + ['\0'] + b[len + m + 1..]
    ensures Holds(b', text + src, first)
  {
    var q := Truncated(text, |first|);
    var m := Min(|src|, |first| - |q| - 1);
    TruncatedAppend(text, src, |first|);
    assert b[..|q|] == q;
    assert b[|q| + m + 1..] == first[|q| + m + 1..];
  }

  /**
   * `strncat(buf, src, bufsz - strlen(buf) - 1)`: append as much of `src`
   * as still fits before the last slot of the buffer.
   */
  method CatBounded(buf: array<char>, src: CString, ghost text: string, ghost first: seq<char>)
    requires |first| >= 1 && buf.Length == |first|
    requires Holds(buf[..], text, first) && '\0' !in text
    modifies buf
    ensures Holds(buf[..], text + src, first)
  {
    var len := StrLen(buf);
    HoldsLen(buf[..], text, first);
    ghost var b := buf[..];
    StrNCat(buf, src, buf.Length - len - 1);
    HoldsAfterCat(b, buf[..], text, src, first);
  }

  /**
   * `join_args(buf, bufsz, argc, argv, start)`: the buffer ends up holding
   * the arguments from `start` on, joined by single spaces and cut to at
   * most bufsz - 1 characters; nothing past the terminating NUL is written.
   */
  method JoinArgs(buf: array<char>, argv: seq<CString>, start: nat)
    requires buf.Length >= 1
    modifies buf
    ensures Holds(buf[..], Joined(ArgsFrom(argv, start)), old(buf[..]))
  {
    ghost var first := buf[..];
    buf[0] := '\0';
    assert Holds(buf[..], [], first) by {
      assert Truncated([], |first|) == [];
      assert buf[..] == [] + ['\0'] + first[1..];
    }
    if start < |argv| {
      JoinLoop(buf, argv, start, first);
    }
  }

  /** The loop of join_args over argv[start..], started on an emptied buffer. */
  method JoinLoop(buf: array<char>, argv: seq<CString>, start: nat, ghost first: seq<char>)
    requires start < |argv| && |first| >= 1 && buf.Length == |first|
    requires Holds(buf[..], [], first)
    modifies buf
    ensures Holds(buf[..], Joined(argv[start..]), first)
  {
    var i := start;
    while i < |argv|
      invariant start <= i <= |argv|
      invariant Holds(buf[..], Pieces(argv, start, i), first)
    {
      JoinStep(buf, argv, start, i, first);
      i := i + 1;
    }
    PiecesAll(argv, start);
  }

  /** One iteration of join_args: append argv[i], then a space unless it is the last argument. */
  method JoinStep(buf: array<char>, argv: seq<CString>, start: nat, i: nat, ghost first: seq<char>)
    requires start <= i < |argv| && |first| >= 1 && buf.Length == |first|
    requires Holds(buf[..], Pieces(argv, start, i), first)
    modifies buf
    ensures Holds(buf[..], Pieces(argv, start, i + 1), first)
  {
    ghost var text := Pieces(argv, start, i);
    PiecesCString(argv, start, i + 1);
    assert Pieces(argv, start, i + 1) == text + argv[i] + (if i + 1 < |argv| then " " else "");
    CatBounded(buf, argv[i], text, first);
    if i + 1 < |argv| {
      CatBounded(buf, " ", text + argv[i], first);
    } else {
      assert text + argv[i] == text + argv[i] + "";
    }
  }

  /** The C string join_args leaves: a prefix of the joined arguments, at most bufsz - 1 long. */
  lemma JoinArgsResult(b: seq<char>, argv: seq<CString>, start: nat, first: seq<char>)
    requires |first| >= 1 && Holds(b, Joined(ArgsFrom(argv, start)), first)
    ensures var j := Joined(ArgsFrom(argv, start)); var r := CStringOf(b);
      r == Truncated(j, |first|) && |r| == Min(|j|, |first| - 1) && r == j[..|r|]
    ensures start >= |argv| ==> CStringOf(b) == []
  {
    var j := Joined(ArgsFrom(argv, start));
    JoinedCString(ArgsFrom(argv, start));
    HoldsLen(b, j, first);
    TruncatedIsPrefix(j, |first|);
  }

  /** Cutting to a larger size and then to a smaller one is cutting to the smaller one. */
  lemma TruncatedTwice(s: string, big: nat, small: nat)
    requires 1 <= small <= big
    ensures Truncated(Truncated(s, big), small) == Truncated(s, small)
  {
    TruncatedIsPrefix(s, big);
    TruncatedIsPrefix(s, small);
    var t := Truncated(s, big);
    if |t| >= small {
      assert t[..small - 1] == s[..small - 1];
    }
  }

  /**
   * The 800-character join buffer never shortens the stored description:
   * add_entry_cli keeps at most 767 characters of it anyway.
   */
  lemma JoinBufferInvisible(date: string, category: Option<string>, words: string, amount: string)
    ensures RecordLine(date, category, Some(Truncated(words, JoinBufSize)), amount)
         == RecordLine(date, category, Some(words), amount)
  {
    TruncatedTwice(words, JoinBufSize, DescriptionBufSize);
  }

  // ---------------------------------------------------------------------
  // The amount check
  // ---------------------------------------------------------------------

  /** The character at `i` of a C string, its terminating NUL at `i == |s|`. */
  function CAt(s: string, i: nat): char
    requires i <= |s|
  {
    if i < |s| then s[i] else '\0'
  }

  /**
   * The check `amt == 0 && (s[0] != '0' && s[1] != '\0')` of both `add`
   * paths, where `isZero` is whether strtod read the text as zero. The
   * second character is read only after the first was found not to be
   * '0', and only a non-empty text has one.
   */
  function AmountRejected(s: string, isZero: bool): (r: bool)
    requires s != []
    ensures r <==> isZero && s[0] != '0' && |s| >= 2 && s[1] != '\0'
  {
    isZero && (CAt(s, 0) != '0' && CAt(s, 1) != '\0')
  }

  /**
   * What the check lets through: "abc" (read as zero) is refused, but a
   * one-character text such as "x", and any text starting with '0' such as
   * "0abc", are accepted as a zero amount; "-0" is refused.
   */
  lemma AmountExamples()
    ensures AmountRejected("abc", true)
    ensures !AmountRejected("x", true)
    ensures !AmountRejected("0abc", true)
    ensures AmountRejected("-0", true)
    ensures forall s: string :: s != [] ==> !AmountRejected(s, false)
  {
  }

  // ---------------------------------------------------------------------
  // Environment, events and outcomes
  // ---------------------------------------------------------------------

  /**
   * What the model takes from outside: today's date, whether a file can be
   * opened for writing (creating the table or its temporary copy), whether
   * the table can be opened for appending, whether strtod reads a text as
   * zero, and how a text is printed back by `%.2f` after strtod.
   */
  datatype Env = Env(date: string, canWrite: bool, canAppend: bool, isZero: string -> bool, render: string -> string)

  /** What the program reports, in order (the layout of the printed text is not modelled). */
  datatype Event =
    | Listed(listing: Listing)
    | Added(status: AddStatus)
    | UsageShown
    | InvalidAmount
    | UnknownCommand
    | HeaderCreateError
    | HeaderRewriteError

  /** The `perror("header rewrite")` report ensure_header makes when it cannot rewrite the file. */
  function RewriteReport(failed: bool): seq<Event>
  {
    if failed then [HeaderRewriteError] else []
  }

  /** The reports of one `add`: the rewrite failure, if any, then the outcome of the append. */
  function AddReports(res: AddResult): seq<Event>
  {
    RewriteReport(res.rewriteFailed) + [Added(res.status)]
  }

  /** The file at exit, the reports, and the exit status. */
  datatype Outcome = Outcome(file: Option<string>, events: seq<Event>, status: int)

  /** Reports made before the rest of a run. */
  function Prepend(evs: seq<Event>, o: Outcome): Outcome
  {
    Outcome(o.file, evs + o.events, o.status)
  }

  // ---------------------------------------------------------------------
  // The interactive shell
  // ---------------------------------------------------------------------

  const Space: set<char> := {' '}

  /** A shell line, as interactive_shell tells its commands apart. */
  datatype Command =
    | Blank
    | Quit
    | ListCmd
    | AddCmd(amount: string, category: string, rest: string)
    | AddMissing
    | UnknownCmd

  /**
   * The tokenising of one trimmed shell line: the command word and, for
   * `add`, what follows it (see ParseAdd).
   */
  function ParseCommand(line: string): (c: Command)
    ensures c.AddCmd? ==> c.amount != [] && c.category != [] && c.rest != []
    ensures line == [] ==> c == Blank
  {
    if line == [] then Blank
    else
      var cmd := StrTok(line, Space);
      if cmd.token.None? then Blank
      else if cmd.token.value == "quit" || cmd.token.value == "exit" then Quit
      else if cmd.token.value == "list" then ListCmd
      else if cmd.token.value == "add" then ParseAdd(cmd.rest)
      else UnknownCmd
  }

  /**
   * The arguments of an interactive `add`: the amount and category words,
   * then the whole remainder after the category's delimiter
   * (`strtok(NULL, "")`) as the description.
   */
  function ParseAdd(rest: string): (c: Command)
    ensures c.AddCmd? || c == AddMissing
    ensures c.AddCmd? ==> c.amount != [] && c.category != [] && c.rest != []
  {
    var a := StrTok(rest, Space);
    var c := StrTok(a.rest, Space);
    var r := StrTok(c.rest, {});
    if a.token.None? || c.token.None? || r.token.None? then AddMissing
    else AddCmd(a.token.value, c.token.value, r.token.value)
  }

  /** A line whose first word is `add` is parsed by ParseAdd on what follows that word. */
  lemma ParseCommandAdd(line: string, rest: string)
    requires StrTok(line, Space) == Tok(Some("add"), rest)
    ensures ParseCommand(line) == ParseAdd(rest)
  {
  }

  /** strtok returns pieces of its input: a character absent from the input is absent from them. */
  lemma StrTokWithin(s: string, delims: set<char>, ch: char)
    requires ch !in s
    ensures var t := StrTok(s, delims);
      ch !in t.rest && (t.token.Some? ==> ch !in t.token.value)
  {
    var from := s[Span(s, delims)..];
    assert forall j :: 0 <= j < |from| ==> from[j] in s;
  }

  /** The words of a command parsed from a NUL-free line are NUL-free. */
  lemma ParseCommandCStrings(line: string)
    requires '\0' !in line
    ensures var c := ParseCommand(line);
      c.AddCmd? ==> '\0' !in c.category && '\0' !in c.rest
  {
    if line != [] {
      var cmd := StrTok(line, Space);
      StrTokWithin(line, Space, '\0');
      if cmd.token.Some? {
        var a := StrTok(cmd.rest, Space);
        StrTokWithin(cmd.rest, Space, '\0');
        var c := StrTok(a.rest, Space);
        StrTokWithin(a.rest, Space, '\0');
        StrTokWithin(c.rest, {}, '\0');
      }
    }
  }

  /** A word followed by a space is strtok's next token; the scan resumes after the space. */
  lemma StrTokWord(w: string, rest: string)
    requires w != [] && ' ' !in w
    ensures StrTok(w + " " + rest, Space) == Tok(Some(w), rest)
  {
    var s := w + " " + rest;
    StrTokOnField(s, Space);
    CSpanUnique(s, Space, |w|);
    assert s[..|w|] == w;
    assert s[|w| + 1..] == rest;
  }

  /** A last word with nothing after it is strtok's last token. */
  lemma StrTokLastWord(w: string)
    requires w != [] && ' ' !in w
    ensures StrTok(w, Space) == Tok(Some(w), [])
  {
    StrTokOnField(w, Space);
    CSpanUnique(w, Space, |w|);
    assert w[..|w|] == w;
  }

  /** `strtok(NULL, "")` takes everything that is left, spaces included. */
  lemma StrTokRemainder(r: string)
    ensures StrTok(r, {}) == if r == [] then Tok(None, []) else Tok(Some(r), [])
  {
    if r != [] {
      StrTokOnField(r, {});
      CSpanUnique(r, {}, |r|);
      assert r[..|r|] == r;
    }
  }

  /**
   * An interactive `add` takes the amount and category words, and the raw
   * rest of the line as the description, spaces and commas included.
   */
  lemma ShellAddTakesRemainder(amount: string, category: string, rest: string)
    requires amount != [] && ' ' !in amount
    requires category != [] && ' ' !in category
    requires rest != []
    ensures ParseCommand("add " + amount + " " + category + " " + rest) == AddCmd(amount, category, rest)
  {
    var args := amount + " " + (category + " " + rest);
    assert "add " + amount + " " + category + " " + rest == "add" + " " + args;
    StrTokWord("add", args);
    ParseCommandAdd("add" + " " + args, args);
    StrTokWord(amount, category + " " + rest);
    StrTokWord(category, rest);
    StrTokRemainder(rest);
  }

  /**
   * An interactive `add` without a description is answered with the usage
   * text, even when a space follows the category.
   */
  lemma ShellAddWithoutDescription(amount: string, category: string, tail: string)
    requires amount != [] && ' ' !in amount
    requires category != [] && ' ' !in category
    requires tail == "" || tail == " "
    ensures ParseCommand("add " + amount + " " + category + tail) == AddMissing
  {
    var args := amount + " " + (category + tail);
    assert "add " + amount + " " + category + tail == "add" + " " + args;
    StrTokWord("add", args);
    ParseCommandAdd("add" + " " + args, args);
    StrTokWord(amount, category + tail);
    if tail == "" {
      assert category + tail == category;
      StrTokLastWord(category);
    } else {
      assert category + tail == category + " " + [];
      StrTokWord(category, []);
    }
    StrTokRemainder([]);
  }

  /** A run of space characters, possibly empty. */
  predicate Spaces(s: string)
  {
    forall j :: 0 <= j < |s| ==> s[j] == ' '
  }

  /**
   * strtok on " " skips any run of spaces, takes the word after it, and
   * resumes one character after the word (past the space that ends it).
   */
  lemma {:induction false} StrTokAfterSpaces(sp: string, w: string, tail: string)
    requires Spaces(sp) && w != [] && ' ' !in w
    requires tail == [] || tail[0] == ' '
    ensures StrTok(sp + w + tail, Space) == Tok(Some(w), if tail == [] then [] else tail[1..])
    decreases |sp|
  {
    if sp == [] {
      assert sp + w + tail == w + tail;
      StrTokWordThen(w, tail);
    } else {
      var s := sp + w + tail;
      assert s[0] == ' ';
      StrTokSkips(s, Space);
      assert s[1..] == sp[1..] + w + tail;
      StrTokAfterSpaces(sp[1..], w, tail);
    }
  }

  /** strtok on " " takes a word ended by a space or by the end of the text. */
  lemma StrTokWordThen(w: string, tail: string)
    requires w != [] && ' ' !in w
    requires tail == [] || tail[0] == ' '
    ensures StrTok(w + tail, Space) == Tok(Some(w), if tail == [] then [] else tail[1..])
  {
    if tail == [] {
      assert w + tail == w;
      StrTokLastWord(w);
    } else {
      assert w + tail == w + " " + tail[1..];
      StrTokWord(w, tail[1..]);
    }
  }

  /**
   * The arguments of an interactive `add`, however they are spaced: after
   * the amount and the category words, the description is everything past
   * the one space that ends the category, and the usage message is shown
   * exactly when nothing is left there. A line ending in two spaces after
   * the category therefore stores a one-space description.
   */
  lemma ParseAddSpaced(sp1: string, amount: string, sp2: string, category: string, tail: string)
    requires Spaces(sp1) && amount != [] && ' ' !in amount
    requires Spaces(sp2) && sp2 != [] && category != [] && ' ' !in category
    requires tail == [] || tail[0] == ' '
    ensures ParseAdd(sp1 + amount + sp2 + category + tail)
         == if |tail| >= 2 then AddCmd(amount, category, tail[1..]) else AddMissing
  {
    var r := if tail == [] then [] else tail[1..];
    AmountWordSpaced(sp1, amount, sp2, category, tail);
    StrTokAfterSpaces(sp2[1..], category, tail);
    ParseAddSteps(sp1 + amount + sp2 + category + tail, amount, sp2[1..] + category + tail, category, r);
  }

  /** The amount word is strtok's first token of the `add` arguments; the scan resumes one space after it. */
  lemma AmountWordSpaced(sp1: string, amount: string, sp2: string, category: string, tail: string)
    requires Spaces(sp1) && amount != [] && ' ' !in amount
    requires Spaces(sp2) && sp2 != []
    ensures StrTok(sp1 + amount + sp2 + category + tail, Space) == Tok(Some(amount), sp2[1..] + category + tail)
  {
    var after := sp2 + category + tail;
    assert sp1 + amount + sp2 + category + tail == sp1 + amount + after;
    StrTokAfterSpaces(sp1, amount, after);
    assert after[1..] == sp2[1..] + category + tail;
  }

  /** ParseAdd after two strtok calls on " " that found the amount and the category. */
  lemma ParseAddSteps(rest: string, amount: string, afterAmount: string, category: string, r: string)
    requires StrTok(rest, Space) == Tok(Some(amount), afterAmount)
    requires StrTok(afterAmount, Space) == Tok(Some(category), r)
    ensures ParseAdd(rest) == if r == [] then AddMissing else AddCmd(amount, category, r)
  {
    StrTokRemainder(r);
  }

  /**
   * The arguments of `add` are its first two words: fewer than two words
   * give the usage message, and a parsed command carries the first two.
   */
  lemma ParseAddByTokens(rest: string)
    ensures var ts := Tokens(rest, Space);
      |ts| < 2 ==> ParseAdd(rest) == AddMissing
    ensures var ts := Tokens(rest, Space); var c := ParseAdd(rest);
      c.AddCmd? ==> |ts| >= 2 && c.amount == ts[0] && c.category == ts[1]
  {
    var a := StrTok(rest, Space);
    TokensStep(rest, Space);
    if a.token.Some? {
      TokensStep(a.rest, Space);
    }
  }

  /**
   * A shell line is told apart by its first space-delimited word: none is a
   * blank line, `quit`/`exit` stop, `list` lists, `add` parses what
   * follows, and any other word is unknown.
   */
  lemma ParseCommandByTokens(line: string)
    ensures var ts := Tokens(line, Space);
      ParseCommand(line)
        == if ts == [] then Blank
           else if ts[0] == "quit" || ts[0] == "exit" then Quit
           else if ts[0] == "list" then ListCmd
           else if ts[0] == "add" then ParseAdd(StrTok(line, Space).rest)
           else UnknownCmd
    ensures var ts := Tokens(line, Space);
      ts != [] ==> Tokens(StrTok(line, Space).rest, Space) == ts[1..]
  {
    TokensStep(line, Space);
    if line == [] {
      assert StrTok(line, Space).token.None?;
    }
  }

  /**
   * An `add` with fewer than two words after it shows the usage message;
   * one that is carried out takes the second and third words of the line
   * as its amount and category.
   */
  lemma ShellAddByWords(line: string)
    requires Tokens(line, Space) != [] && Tokens(line, Space)[0] == "add"
    ensures var ts := Tokens(line, Space);
      |ts| < 3 ==> ParseCommand(line) == AddMissing
    ensures var ts := Tokens(line, Space); var c := ParseCommand(line);
      c.AddCmd? ==> |ts| >= 3 && c.amount == ts[1] && c.category == ts[2]
  {
    ParseCommandByTokens(line);
    ParseAddByTokens(StrTok(line, Space).rest);
  }

  /**
   * An `add` line with any spacing: the description is the raw text after
   * the space that ends the category, and the usage is shown exactly when
   * there is none.
   */
  lemma ShellAddSpaced(sp0: string, sp1: string, amount: string, sp2: string, category: string, tail: string)
    requires Spaces(sp0) && Spaces(sp1) && sp1 != [] && amount != [] && ' ' !in amount
    requires Spaces(sp2) && sp2 != [] && category != [] && ' ' !in category
    requires tail == [] || tail[0] == ' '
    ensures ParseCommand(sp0 + "add" + sp1 + amount + sp2 + category + tail)
         == if |tail| >= 2 then AddCmd(amount, category, tail[1..]) else AddMissing
  {
    var args := sp1[1..] + amount + sp2 + category + tail;
    var line := sp0 + "add" + sp1 + amount + sp2 + category + tail;
    assert line == sp0 + "add" + (" " + args);
    assert (" " + args)[1..] == args;
    StrTokAfterSpaces(sp0, "add", " " + args);
    assert line != [];
    ParseCommandAdd(line, args);
    ParseAddSpaced(sp1[1..], amount, sp2, category, tail);
  }

  /** One step of the shell: carry on with a new file state, or stop with an exit status. */
  datatype Step =
    | Continue(file: Option<string>, events: seq<Event>)
    | Stop(file: Option<string>, events: seq<Event>, status: int)

  /**
   * What interactive_shell does with one trimmed line. An add whose
   * header rewrite must create the file and cannot ends the program with
   * status 1 (`exit(1)` in ensure_header); an append that fails is
   * reported and the shell goes on.
   */
  function ShellStep(line: string, file: Option<string>, env: Env): Step
  {
    match ParseCommand(line)
    case Blank => Continue(file, [])
    case Quit => Stop(file, [], 0)
    case ListCmd => Continue(file, [Listed(ListingOf(file))])
    case AddMissing => Continue(file, [UsageShown])
    case UnknownCmd => Continue(file, [UnknownCommand])
    case AddCmd(a, c, r) =>
      if AmountRejected(a, env.isZero(a)) then Continue(file, [InvalidAmount])
      else
        var res := Add(file, env.canWrite, env.canAppend, env.date, env.render(a), Some(c), Some(r));
        if res.status.HeaderCreateFailed? then Stop(res.file, AddReports(res), 1)
        else Continue(res.file, AddReports(res))
  }

  /** The shell loop over what is left of standard input: one fgets read per step, until end of input. */
  function ShellLoop(input: string, file: Option<string>, env: Env): Outcome
    decreases |input|
  {
    if input == [] then Outcome(file, [], 0)
    else
      var chunk := FirstLine(input);
      match ShellStep(Trimmed(chunk), file, env)
      case Stop(f, evs, st) => Outcome(f, evs, st)
      case Continue(f, evs) => Prepend(evs, ShellLoop(input[|chunk|..], f, env))
  }

  /** interactive_shell: ensure the header (fatal if the file cannot be created), then the loop. */
  function Shell(input: string, file: Option<string>, env: Env): Outcome
  {
    match Ensure(file, env.canWrite)
    case CreateFailed => Outcome(file, [HeaderCreateError], 1)
    case Ensured(f, rewriteFailed) => Prepend(RewriteReport(rewriteFailed), ShellLoop(input, f, env))
  }

  /** A trimmed line holds no NUL: trimming stops at the first one. */
  lemma TrimmedCString(s: string)
    ensures '\0' !in Trimmed(s)
  {
    var t := Trimmed(s);
    assert forall j :: 0 <= j < |t| ==> t[j] == s[j] && s[j] !in LineStops;
  }

  /** interactive_shell's handling of one line, with the file operations as methods. */
  method RunShellStep(line: CString, file: Option<string>, env: Env) returns (step: Step)
    ensures step == ShellStep(line, file, env)
  {
    ParseCommandCStrings(line);
    match ParseCommand(line)
    case Blank =>
      step := Continue(file, []);
    case Quit =>
      step := Stop(file, [], 0);
    case ListCmd =>
      var listing := ListEntries(file);
      step := Continue(file, [Listed(listing)]);
    case AddMissing =>
      step := Continue(file, [UsageShown]);
    case UnknownCmd =>
      step := Continue(file, [UnknownCommand]);
    case AddCmd(a, c, r) =>
      if AmountRejected(a, env.isZero(a)) {
        step := Continue(file, [InvalidAmount]);
      } else {
        var res := AddEntry(file, env.canWrite, env.canAppend, env.date, env.render(a), Some(c), Some(r));
        if res.status.HeaderCreateFailed? {
          step := Stop(res.file, AddReports(res), 1);
        } else {
          step := Continue(res.file, AddReports(res));
        }
      }
  }

  /** One turn of the shell loop, in terms of the step taken on the first line. */
  lemma ShellLoopUnfold(input: string, file: Option<string>, env: Env, step: Step)
    requires input != [] && step == ShellStep(Trimmed(FirstLine(input)), file, env)
    ensures |FirstLine(input)| > 0
    ensures ShellLoop(input, file, env)
         == if step.Stop? then Outcome(step.file, step.events, step.status)
            else Prepend(step.events, ShellLoop(input[|FirstLine(input)|..], step.file, env))
  {
  }

  /**
   * interactive_shell: ensure the header, then read standard input one
   * fgets call at a time until end of input, `quit`/`exit`, or a fatal
   * header failure.
   */
  method RunShell(input: string, file: Option<string>, env: Env) returns (o: Outcome)
    ensures o == Shell(input, file, env)
  {
    var ensured := EnsureHeader(file, env.canWrite);
    if ensured.CreateFailed? {
      return Outcome(file, [HeaderCreateError], 1);
    }
    o := RunShellLoop(input, ensured.file, env);
    o := Prepend(RewriteReport(ensured.rewriteFailed), o);
  }

  /** The read-dispatch loop of interactive_shell, over what is left of standard input. */
  method RunShellLoop(input: string, file: Option<string>, env: Env) returns (o: Outcome)
    ensures o == ShellLoop(input, file, env)
  {
    var f := file;
    var events: seq<Event> := [];
    var unread := input;
    while unread != []
      invariant ShellLoop(input, file, env) == Prepend(events, ShellLoop(unread, f, env))
      decreases |unread|
    {
      var step, used := ShellTurn(unread, f, env);
      if step.Stop? {
        return Outcome(step.file, events + step.events, step.status);
      }
      PrependTwice(events, step.events, ShellLoop(unread[used..], step.file, env));
      events := events + step.events;
      f := step.file;
      unread := unread[used..];
    }
    o := Outcome(f, events, 0);
  }

  /** Reports prepended one batch after another read as one batch. */
  lemma PrependTwice(first: seq<Event>, second: seq<Event>, o: Outcome)
    ensures Prepend(first, Prepend(second, o)) == Prepend(first + second, o)
  {
    assert first + (second + o.events) == (first + second) + o.events;
  }

  /** One turn of the loop: one fgets read of `used` characters, trimmed and handled. */
  method ShellTurn(unread: string, file: Option<string>, env: Env) returns (step: Step, used: nat)
    requires unread != []
    ensures 0 < used <= |unread|
    ensures ShellLoop(unread, file, env)
         == if step.Stop? then Outcome(step.file, step.events, step.status)
            else Prepend(step.events, ShellLoop(unread[used..], step.file, env))
  {
    var chunk := FirstLine(unread);
    TrimmedCString(chunk);
    step := RunShellStep(Trimmed(chunk), file, env);
    ShellLoopUnfold(unread, file, env, step);
    used := |chunk|;
  }

  /** A `quit` or `exit` line ends the shell at once, with status 0 and nothing more read. */
  lemma ShellQuitStops(input: string, file: Option<string>, env: Env, word: string)
    requires word == "quit" || word == "exit"
    requires input != [] && Trimmed(FirstLine(input)) == word
    ensures ShellLoop(input, file, env) == Outcome(file, [], 0)
  {
    StrTokLastWord(word);
  }

  /** An `add` without a description reports the usage and the shell goes on with the file unchanged. */
  lemma ShellUsageContinues(amount: string, category: string, file: Option<string>, env: Env)
    requires amount != [] && ' ' !in amount
    requires category != [] && ' ' !in category
    ensures ShellStep("add " + amount + " " + category, file, env) == Continue(file, [UsageShown])
  {
    ShellAddWithoutDescription(amount, category, "");
    assert "add " + amount + " " + category + "" == "add " + amount + " " + category;
  }

  /** A line of spaces only, like an empty line, is skipped. */
  lemma ShellSkipsBlank(line: string, file: Option<string>, env: Env)
    requires forall j :: 0 <= j < |line| ==> line[j] == ' '
    ensures ShellStep(line, file, env) == Continue(file, [])
  {
    if line != [] {
      var n := Span(line, Space);
      assert n == |line| by {
        SpanAll(line, Space);
      }
    }
  }

  /** Span over a string made only of delimiters covers all of it. */
  lemma {:induction false} SpanAll(s: string, delims: set<char>)
    requires forall j :: 0 <= j < |s| ==> s[j] in delims
    ensures Span(s, delims) == |s|
  {
    if s != [] {
      SpanAll(s[1..], delims);
    }
  }

  // ---------------------------------------------------------------------
  // main
  // ---------------------------------------------------------------------

  /**
   * The amount check of `main` reads argv[2][1] after seeing argv[2][0]
   * is not '0'; for an empty argv[2] that read is past the string.
   */
  predicate AmountReadable(argv: seq<CString>)
  {
    |argv| >= 5 && argv[1] == "add" ==> argv[2] != []
  }

  /**
   * What `main` does with its arguments: no argument starts the shell;
   * `add` needs an amount, a category and at least one description word,
   * joins the description words into an 800-character buffer and appends
   * the record (status 0, or 1 when appending fails); `list` prints the
   * entries (status 0); anything else is an unknown command (status 1).
   */
  function Program(argv: seq<CString>, input: string, file: Option<string>, env: Env): Outcome
    requires |argv| >= 1 && AmountReadable(argv)
  {
    if |argv| == 1 then Shell(input, file, env)
    else if argv[1] == "add" then
      if |argv| < 5 then Outcome(file, [UsageShown], 1)
      else if AmountRejected(argv[2], env.isZero(argv[2])) then Outcome(file, [InvalidAmount], 1)
      else
        var desc := Truncated(Joined(argv[4..]), JoinBufSize);
        var res := Add(file, env.canWrite, env.canAppend, env.date, env.render(argv[2]), Some(argv[3]), Some(desc));
        Outcome(res.file, AddReports(res), if res.status.Appended? then 0 else 1)
    else if argv[1] == "list" then Outcome(file, [Listed(ListingOf(file))], 0)
    else Outcome(file, [UnknownCommand], 1)
  }

  /** `main`, with join_args filling a fresh 800-character buffer. */
  method RunMain(argv: seq<CString>, input: string, file: Option<string>, env: Env) returns (o: Outcome)
    requires |argv| >= 1 && AmountReadable(argv)
    ensures o == Program(argv, input, file, env)
  {
    if |argv| == 1 {
      o := RunShell(input, file, env);
      return;
    }
    if argv[1] == "add" {
      if |argv| < 5 {
        return Outcome(file, [UsageShown], 1);
      }
      if AmountRejected(argv[2], env.isZero(argv[2])) {
        return Outcome(file, [InvalidAmount], 1);
      }
      var buf := new char[JoinBufSize];
      ghost var first := buf[..];
      JoinArgs(buf, argv, 4);
      JoinArgsResult(buf[..], argv, 4, first);
      var desc := CStringOf(buf[..]);
      var res := AddEntry(file, env.canWrite, env.canAppend, env.date, env.render(argv[2]), Some(argv[3]), Some(desc));
      o := Outcome(res.file, AddReports(res), if res.status.Appended? then 0 else 1);
    } else if argv[1] == "list" {
      var listing := ListEntries(file);
      o := Outcome(file, [Listed(listing)], 0);
    } else {
      o := Outcome(file, [UnknownCommand], 1);
    }
  }

  /** `add` with fewer than three words after it prints the usage, exits with 1 and leaves the file alone. */
  lemma CliAddNeedsThreeWords(argv: seq<CString>, input: string, file: Option<string>, env: Env)
    requires 2 <= |argv| < 5 && argv[1] == "add"
    ensures Program(argv, input, file, env) == Outcome(file, [UsageShown], 1)
  {
  }

  /** `list` and an unknown command never change the file. */
  lemma CliReadOnlyCommands(argv: seq<CString>, input: string, file: Option<string>, env: Env)
    requires |argv| >= 2 && argv[1] != "add"
    ensures var o := Program(argv, input, file, env);
      o.file == file && (o.status == 0 <==> argv[1] == "list")
  {
  }

  /**
   * A command-line `add` that passes the amount check appends one record
   * whose description is all the words from argv[4] on, joined by single
   * spaces (cut to 767 characters as the record stores it).
   */
  lemma CliAddAppendsJoinedWords(argv: seq<CString>, input: string, file: Option<string>, env: Env)
    requires |argv| >= 5 && argv[1] == "add" && argv[2] != []
    requires !AmountRejected(argv[2], env.isZero(argv[2]))
    requires env.canWrite && env.canAppend
    ensures var line := RecordLine(env.date, Some(argv[3]), Some(Joined(argv[4..])), env.render(argv[2]));
      Program(argv, input, file, env) == Outcome(Some(WithHeader(file) + line), [Added(Appended(line))], 0)
  {
    var words := Joined(argv[4..]);
    AddWritable(file, env.date, env.render(argv[2]), Some(argv[3]), Some(Truncated(words, JoinBufSize)));
    JoinBufferInvisible(env.date, Some(argv[3]), words, env.render(argv[2]));
  }

  /** An interactive `add` that passes the amount check appends its record and the shell goes on. */
  lemma ShellAddStep(line: string, file: Option<string>, env: Env)
    requires ParseCommand(line).AddCmd?
    requires var c := ParseCommand(line); !AmountRejected(c.amount, env.isZero(c.amount))
    requires env.canWrite && env.canAppend
    ensures var c := ParseCommand(line);
      var rec := RecordLine(env.date, Some(c.category), Some(c.rest), env.render(c.amount));
      ShellStep(line, file, env) == Continue(Some(WithHeader(file) + rec), [Added(Appended(rec))])
  {
    var c := ParseCommand(line);
    var rec := RecordLine(env.date, Some(c.category), Some(c.rest), env.render(c.amount));
    AddWritable(file, env.date, env.render(c.amount), Some(c.category), Some(c.rest));
    var res := Add(file, env.canWrite, env.canAppend, env.date, env.render(c.amount), Some(c.category), Some(c.rest));
    assert AddReports(res) == [Added(Appended(rec))];
  }

  /**
   * For a one-word description the interactive and the command-line `add`
   * append the same record.
   */
  lemma ShellAndCliAddAgree(amount: CString, category: CString, word: CString,
                            prog: CString, file: Option<string>, env: Env)
    requires amount != [] && ' ' !in amount
    requires category != [] && ' ' !in category
    requires word != []
    requires !AmountRejected(amount, env.isZero(amount))
    requires env.canWrite && env.canAppend
    ensures var cli := Program([prog, "add", amount, category, word], [], file, env);
      ShellStep("add " + amount + " " + category + " " + word, file, env) == Continue(cli.file, cli.events)
  {
    var line := "add " + amount + " " + category + " " + word;
    ShellAddTakesRemainder(amount, category, word);
    ShellAddStep(line, file, env);
    CliOneWordAdd(amount, category, word, prog, file, env);
  }

  /** A command-line `add` with a one-word description stores that word as the description. */
  lemma CliOneWordAdd(amount: CString, category: CString, word: CString,
                      prog: CString, file: Option<string>, env: Env)
    requires amount != []
    requires !AmountRejected(amount, env.isZero(amount))
    requires env.canWrite && env.canAppend
    ensures var rec := RecordLine(env.date, Some(category), Some(word), env.render(amount));
      Program([prog, "add", amount, category, word], [], file, env)
        == Outcome(Some(WithHeader(file) + rec), [Added(Appended(rec))], 0)
  {
    var argv: seq<CString> := [prog, "add", amount, category, word];
    assert argv[4..] == [word];
    assert Joined(argv[4..]) == word;
    CliAddAppendsJoinedWords(argv, [], file, env);
  }

  /**
   * When the data file lacks the header and cannot be rewritten, a
   * command-line `add` reports the failed rewrite and then goes on with the
   * append: if the file can be appended to, the record is added to the
   * header-less file and the exit status is 0; otherwise the append failure
   * is reported too, the file is left as it was, and the status is 1.
   */
  lemma CliAddReportsRewriteFailure(argv: seq<CString>, input: string, s: string, env: Env)
    requires |argv| >= 5 && argv[1] == "add" && argv[2] != []
    requires !AmountRejected(argv[2], env.isZero(argv[2]))
    requires !env.canWrite && !FileHasHeader(s)
    ensures var line := RecordLine(env.date, Some(argv[3]), Some(Joined(argv[4..])), env.render(argv[2]));
      Program(argv, input, Some(s), env)
        == if env.canAppend then Outcome(Some(s + line), [HeaderRewriteError, Added(Appended(line))], 0)
           else Outcome(Some(s), [HeaderRewriteError, Added(AppendFailed)], 1)
  {
    var words := Joined(argv[4..]);
    RewriteFailureReported(Some(s), false);
    JoinBufferInvisible(env.date, Some(argv[3]), words, env.render(argv[2]));
    if env.canAppend {
      AppendAfterFailedRewrite(s, env.date, env.render(argv[2]), Some(argv[3]), Some(Truncated(words, JoinBufSize)));
    }
  }

  /**
   * When the data file lacks the header and cannot be rewritten, the shell
   * reports the failed rewrite once, before it reads any line, and runs on
   * the file as it was.
   */
  lemma ShellReportsRewriteFailure(input: string, s: string, env: Env)
    requires !env.canWrite && !FileHasHeader(s)
    ensures Shell(input, Some(s), env) == Prepend([HeaderRewriteError], ShellLoop(input, Some(s), env))
  {
    RewriteFailureReported(Some(s), false);
  }
}
