# Expense tracker: a verified model of `src/main.c`

The tracker is a small C command-line program. It keeps expense records in
one CSV file, `tracker.csv`. The file starts with the header
`date,category,description,amount`, and every later line is one record. The
program is used in two ways:

- `tracker add <amount> <category> <description words...>` appends a record,
  and `tracker list` prints the records.
- With no arguments, it runs an interactive shell that reads `add`, `list`
  and `quit`/`exit` lines from standard input.

This project models the program's core in Dafny and proves properties of
that model. The modules follow the program's structure:

- `Wrappers` (`wrappers.dfy`) holds the `Option` type.
- `CText` (`ctext.dfy`) models the C library calls the core relies on:
  - C strings (text without NUL);
  - `strlen`, `strncat` and `snprintf("%s")` on character arrays;
  - `strcspn(buf, "\r\n")` trimming;
  - `fgets` with a 1024-byte buffer: each read takes up to 1023 characters, or up to and including the first LF;
  - `strtok` with glibc's behaviour.

  It also defines a reference field split (`Split`) that the tokenising is
  proved against.
- `Record` (`record.dfy`) covers record lines:
  - `sanitize_commas`, as an in-place loop over a character array;
  - the 128- and 768-byte buffers that cut the category and description;
  - the line `add_entry_cli` writes;
  - the four-token parse `list_entries` performs.
- `Store` (`store.dfy`) covers the data file, modelled as
  `Option<string>` (`None` means the file does not exist):
  - `file_has_header`;
  - `ensure_header` with its copy loop;
  - `add_entry_cli`;
  - `list_entries`, with its read loop.

  The result of `list_entries` is a `Listing`:
  - `NoEntries` means "No entries yet.";
  - `Silent` is an empty file, which prints nothing;
  - `Table(rows)` holds the rows that were printed.
- `Commands` (`commands.dfy`) covers the command layer:
  - `join_args`, as a loop of bounded `strncat` calls into an array;
  - the amount check;
  - the interactive shell, as a loop over standard input;
  - `main`.

The outside world is passed in as values:

- the data file;
- the text on standard input;
- an `Env` that gives:
  - today's date;
  - whether a file can be opened with mode "w" (`canWrite`: creating the table, or the temporary copy when the header is added);
  - whether the table can be opened with mode "a" (`canAppend`);
  - whether `strtod` reads a text as zero;
  - how `%.2f` prints the amount.

What the program prints is modelled as a sequence of `Event`s, together with
the exit status. The layout of the printed text is not modelled.

The model follows the code as written, including these behaviours a user
would not expect:

- **Two header checks.** `ensure_header` accepts a first line only when,
  after trimming, it equals the header exactly (line 24). `list_entries`
  skips any first line that starts with the 32 header characters (`strncmp`,
  line 91).
  - `HeaderChecksDisagree` shows the two checks disagree.
  - `LookalikeHeaderBecomesRow` shows how this makes a line appear in the
    listing after a rewrite.
- **Empty file.** An absent file lists as "No entries yet.", but an existing
  empty file prints nothing and returns at line 90 (`Silent`).
- **Record parsing.** A table line is read with `strtok` on commas, not
  split into fields:
  - empty fields vanish;
  - a line with fewer than four non-empty fields is skipped;
  - text after the fourth field is ignored.

  `ParseLineByFields` and `EmptyDescriptionIsLost` state this.
- **Shell tokenising.** The shell splits on the space character only, not on
  tabs. The description is the raw rest of the line after the one space
  that ends the category. So an `add` line ending in two spaces after the
  category stores a one-space description (`ParseAddSpaced`).
- **Date format.** `today_iso` writes `YYYY-MM-DD`, 10 characters. The model
  takes the date as an input.
- **Header rewrite.** The rewrite goes through a temporary file, then
  `remove` and `rename`; it is not atomic. The model treats it as one step.

## Model

| member | source | states |
|---|---|---|
| `CText.Snprintf` | src/main.c:75-76 | `snprintf(buf, size, "%s", s)` leaves the first `min(|s|, size-1)` characters of `s`, then a NUL |
| `CText.StrLen` | src/main.c:64 | `strlen` returns the index of the first NUL |
| `CText.StrNCat` | src/main.c:64-65 | `strncat` copies `min(|src|, n)` characters over the terminator, writes a NUL after them, and leaves every other cell unchanged |
| `CText.ReadLen` | src/main.c:102 | one `fgets` read of at most 1023 characters: it is non-empty on non-empty input, and it ends at the first LF, at the cap, or at the end of the input |
| `CText.LinesConcat` | src/main.c:102-114 | the successive `fgets` reads put back together give the whole file, and each read has 1 to 1023 characters |
| `CText.LinesAppend` | src/main.c:102-114 | after a text that ends with LF, the reads of an appended text are the appended text's own reads |
| `CText.TrimmedFirstLine` | src/main.c:21-24 | comparing the trimmed first `fgets` read with a text shorter than 1023 characters is the same as comparing the trimmed whole file with it |
| `CText.StrTok` | src/main.c:106-109 | a token is non-empty and strictly shortens what is left; when there is no token, nothing is left |
| `CText.Lines` | src/main.c:102-114 | the reads of the `while (fgets(...))` loop; what they are is `CText.LinesConcat` and `CText.LinesAppend` |
| `CText.TakeTokens` | src/main.c:106-109 | up to `n` successive `strtok` calls; which tokens they give is `CText.TakeTokensPrefix` |
| `CText.TakeTokensPrefix` | src/main.c:106-109 | `n` successive `strtok` calls return the first `n` tokens, or all of them if there are fewer |
| `CText.TokensAreNonEmptyFields` | src/main.c:106-110 | `strtok` on one delimiter returns exactly the non-empty fields of the reference split, in order |
| `CText.Trimmed` | src/main.c:23 | the trimmed line is the start of the buffer up to, not including, the first CR, LF or NUL |
| `CText.FirstLine` | src/main.c:21 | the first `fgets` read is a non-empty start of a non-empty stream, at most 1023 characters, with no LF before its last character |
| `CText.Tokens` | src/main.c:106-109 | every token `strtok` returns is non-empty, and an empty string has none (which ones they are is `CText.TokensAreNonEmptyFields`) |
| `Record.Sanitize` | src/main.c:56-58 | same length; every comma becomes a space and every other character is kept |
| `Record.SanitizeNoComma` | src/main.c:56-58 | sanitised text contains no comma |
| `Record.SanitizeIdempotent` | src/main.c:56-58 | sanitising twice equals sanitising once |
| `Record.SanitizeCommaFree` | src/main.c:56-58 | text without commas is left as it is |
| `Record.SanitizeKeeps` | src/main.c:56-58 | any character other than comma and space occurs in the output exactly when it occurs in the input |
| `Record.SanitizeCommas` | src/main.c:56-58 | the in-place loop sanitises the C string in the array and leaves the cells after its NUL unchanged |
| `Record.StoredField` | src/main.c:75-78 | a stored field has length `min(|text|, size-1)`, contains no comma, and is the sanitised start of the text |
| `Record.StoredCategory` | src/main.c:75-78 | the category as stored; its length, the "uncat" default and the absence of commas are `Record.RecordLineCommas` and `Record.StoredField` |
| `Record.StoredDescription` | src/main.c:75-78 | the description as stored; its length and the absence of commas are `Record.RecordLineCommas` and `Record.StoredField` |
| `Record.RecordLine` | src/main.c:79 | the line appended; its three commas are `Record.RecordLineCommas`, and reading it back is `Record.RecordLineRoundTrip` |
| `Record.RecordLineCommas` | src/main.c:75-79 | the category is at most 127 characters and the description at most 767; a missing category is stored as "uncat"; when the date and the amount text hold no comma, a written line has exactly three commas |
| `Record.DefaultCategoryStored` | src/main.c:75 | without a category, the record stores "uncat" |
| `Record.ParseLine` | src/main.c:104-110 | what the listing takes from one line; its meaning is `Record.ParseLineByFields` |
| `Record.ParseLineByFields` | src/main.c:104-110 | a line parses to a row exactly when the trimmed line has at least four non-empty comma fields; the row is the first four of them |
| `Record.ParseFourFields` | src/main.c:104-110 | four comma-free, non-empty fields on one line are read back as they are, when the line ends there or at a CR, LF or NUL |
| `Record.RecordLineRoundTrip` | src/main.c:104-110 | a line written at line 79 from non-empty one-line fields (date and amount comma-free) parses back as the date, the stored category, the stored description and the amount |
| `Record.EmptyDescriptionIsLost` | src/main.c:106-110 | a record written with an empty description has only three tokens, so the listing skips it |
| `Store.FileHasHeader` | src/main.c:16-27 | `file_has_header`; its meaning is `Store.FileHasHeaderIff` |
| `Store.FileHasHeaderIff` | src/main.c:16-27 | the header check holds exactly when the file is non-empty and its text, up to the first CR, LF or NUL, is exactly the header |
| `Store.FileHasHeaderStarts` | src/main.c:24 | a file that passes the exact check starts with the 32 header characters |
| `Store.WithHeader` | src/main.c:29-53 | the file after a successful `ensure_header`; its properties are `Store.WithHeaderHasHeader`, `Store.EnsureHeaderKeepsData` and `Store.EnsureHeaderKeepsListing` |
| `Store.Ensure` | src/main.c:29-53 | `ensure_header` with its failures; its properties are `Store.EnsureHeaderIdempotent` and `Store.RewriteFailureReported` |
| `Store.WithHeaderHasHeader` | src/main.c:29-53 | after `ensure_header` the file passes the header check, and it is some prefix of the header line followed by the old contents |
| `Store.EnsureHeaderIdempotent` | src/main.c:29-53 | running `ensure_header` twice leaves the same result as running it once |
| `Store.EnsureHeader` | src/main.c:29-53 | the procedure, including its copy loop, matches `Ensure`: an absent file is created with the header, or creation fails (exit 1); a file without the header gets the header line in front of its verbatim contents, or is left alone with the rewrite failure reported when it cannot be rewritten |
| `Store.RewriteFailureReported` | src/main.c:39-45 | the "header rewrite" failure is reported exactly when an existing file lacks the header and cannot be rewritten, and the file is then left as it was |
| `Store.Add` | src/main.c:69-83 | `add_entry_cli`; that the record then reads back at the end of the listing is `Store.AddedRecordIsListed`, and that a failed rewrite still lets the record be appended is `Store.AppendAfterFailedRewrite` |
| `Store.CopyAndSanitize` | src/main.c:75-78 | `snprintf` into a fixed buffer followed by `sanitize_commas` yields the stored field |
| `Store.AddEntry` | src/main.c:69-83 | `add_entry_cli` matches `Add`: ensure the header (possibly fatal, possibly reporting a failed rewrite), then, independently of how the rewrite went, append the record line, or report the append failure |
| `Store.ListingOf` | src/main.c:85-119 | `list_entries`; its cases are `Store.ListEntries`, `Store.ListSkipsIffPrefix` and `Store.AddedRecordIsListed` |
| `Store.ReadRows` | src/main.c:102-114 | the read loop collects exactly the rows of the lines it reads |
| `Store.ListEntries` | src/main.c:85-119 | `list_entries` matches `ListingOf`: "No entries yet." exactly when the file is absent, and nothing printed exactly when it is empty |
| `Store.RowsAppend` | src/main.c:102-114 | after text that ends with LF, the rows of an appended text follow the rows of the old text |
| `Store.ListSkipsIffPrefix` | src/main.c:89-97 | the first line is skipped exactly when the file starts with the 32 header characters |
| `Store.EnsureHeaderKeepsData` | src/main.c:39-51 | prepending the header to a file that lacks it lists exactly the rows of the old file, first line included |
| `Store.EnsureHeaderKeepsListing` | src/main.c:39-51 | `ensure_header` never changes what `list` shows for a non-empty file that does not start with the header text |
| `Store.HeaderPrefixedLineHidden` | src/main.c:89-97 | a one-line file whose line starts with the header text and is at most 1022 characters long, LF not counted, lists no rows, whatever else is on that line |
| `Store.HeaderChecksDisagree` | src/main.c:91 | a first line that starts with the header text but goes on fails the exact check, yet the listing skips it |
| `Store.LookalikeHeaderBecomesRow` | src/main.c:85-97 | a file whose only line is the header text followed by `x` lists no rows; after `ensure_header` the same line is listed as the row `(date, category, description, amount+x)` |
| `Store.AddedRecordIsListed` | src/main.c:69-83 | adding a record to a file whose last line ends with LF lists the rows of the file as `ensure_header` left it, followed by the new record; for a file whose first line only looks like the header, those rows include that first line, which the original file did not list (see `Store.LookalikeHeaderBecomesRow`) |
| `Store.AppendAfterFailedRewrite` | src/main.c:69-73 | when a file lacks the header and cannot be rewritten but can be appended to, the failed rewrite is reported and the record line is still appended to the unchanged, header-less contents |
| `Store.UnterminatedHeaderHidesRecord` | src/main.c:89-96 | a file holding only the header text without LF passes the exact check; the appended record lands on the header's line and is never listed |
| `Commands.Joined` | src/main.c:61-67 | words joined by single spaces; that the words come back from it is `Commands.JoinedSplit` and `Commands.JoinedTokens` |
| `Commands.JoinedSplit` | src/main.c:61-67 | splitting the joined words on spaces gives back the words, when no word contains a space |
| `Commands.JoinedTokens` | src/main.c:61-67 | re-tokenising the joined words on spaces gives the non-empty words |
| `Commands.JoinedEnds` | src/main.c:65 | the joined text ends with the last word: no separator follows it |
| `Commands.CatBounded` | src/main.c:64 | `strncat(buf, s, bufsz - strlen(buf) - 1)` appends what still fits and keeps one slot for the NUL |
| `Commands.JoinStep` | src/main.c:63-66 | one iteration appends argv[i], then a space unless argv[i] is the last argument |
| `Commands.JoinArgs` | src/main.c:61-67 | the buffer holds the arguments from `start` on, joined by single spaces and cut to `bufsz-1` characters, then a NUL; the cells after the NUL are unchanged |
| `Commands.JoinArgsResult` | src/main.c:61-67 | the resulting C string is a prefix of the joined words, of length `min(|joined|, bufsz-1)`, and it is empty when `start >= argc` |
| `Commands.JoinBufferInvisible` | src/main.c:182-184 | the 800-byte join buffer never changes the record, because `add_entry_cli` keeps only 767 characters of the description |
| `Commands.AmountRejected` | src/main.c:152-155 | rejected exactly when `strtod` read zero, the first character is not '0', and the text has at least two characters |
| `Commands.AmountExamples` | src/main.c:177-180 | "abc" and "-0" are refused; "x" and "0abc" are accepted as zero; a non-zero amount is never refused |
| `Commands.ParseCommand` | src/main.c:133-147 | an empty line is blank; an `add` command always carries a non-empty amount, category and description (what each command is, in terms of the line's words, is `Commands.ParseCommandByTokens`) |
| `Commands.ParseCommandByTokens` | src/main.c:137-159 | a line is told apart by its first space-delimited word: no word is blank, `quit`/`exit` stop, `list` lists, `add` parses the rest of the line, any other word is unknown; the words after the first are the words of that rest |
| `Commands.ParseAdd` | src/main.c:145-150 | the arguments of `add` either are all present and non-empty or produce the usage message (when each happens is `Commands.ParseAddByTokens` and `Commands.ParseAddSpaced`) |
| `Commands.ParseAddByTokens` | src/main.c:145-150 | fewer than two words give the usage message; a parsed `add` takes the first two words as amount and category |
| `Commands.StrTokAfterSpaces` | src/main.c:145-146 | `strtok(..., " ")` skips any run of spaces, returns the next word, and resumes one character past it |
| `Commands.ParseAddSpaced` | src/main.c:145-150 | with any spacing between the amount and the category, the description is the raw text after the one space that ends the category, and the usage is shown exactly when that text is empty |
| `Commands.ShellAddByWords` | src/main.c:144-150 | an `add` line with fewer than three words shows the usage; an `add` that is carried out takes the second and third words as amount and category |
| `Commands.ShellAddSpaced` | src/main.c:137-150 | an `add` line with any spacing takes the raw text after the space ending the category as the description, and shows the usage exactly when there is none |
| `Commands.StrTokRemainder` | src/main.c:147 | `strtok(NULL, "")` returns everything that is left, or NULL when nothing is |
| `Commands.ShellAddTakesRemainder` | src/main.c:144-147 | `add <amount> <category> <rest>` takes `rest` verbatim, spaces and commas included |
| `Commands.ShellAddWithoutDescription` | src/main.c:145-150 | `add <amount> <category>`, with or without a trailing space, gives the usage message |
| `Commands.ShellStep` | src/main.c:137-160 | the handling of one shell line; its cases are `Commands.ShellQuitStops`, `Commands.ShellUsageContinues`, `Commands.ShellSkipsBlank` and `Commands.ShellAddStep` |
| `Commands.ShellLoop` | src/main.c:129-161 | the shell loop over standard input; one turn of it is `Commands.ShellTurn` |
| `Commands.Shell` | src/main.c:121-162 | `interactive_shell`; its rewrite report is `Commands.ShellReportsRewriteFailure` |
| `Commands.RunShellStep` | src/main.c:137-160 | handling one line matches `ShellStep`: quit/exit stop; `list` lists; `add` with a missing part shows usage and an invalid amount is reported (both continue); a fatal header failure stops with status 1 |
| `Commands.ShellTurn` | src/main.c:130-134 | one turn consumes one non-empty `fgets` read and advances the shell loop by exactly that step |
| `Commands.RunShellLoop` | src/main.c:129-161 | the loop over standard input matches `ShellLoop`: it ends at end of input with status 0, or at the first stopping line |
| `Commands.RunShell` | src/main.c:121-162 | `interactive_shell` matches `Shell`: it ensures the header first (fatal on failure, reported when the rewrite fails), then runs the loop |
| `Commands.ShellReportsRewriteFailure` | src/main.c:126 | when the file lacks the header and cannot be rewritten, the shell reports the failed rewrite once, before reading any line, and runs on the unchanged file |
| `Commands.ShellQuitStops` | src/main.c:140-141 | a `quit` or `exit` line ends the shell with status 0, no report, and the file unchanged |
| `Commands.ShellUsageContinues` | src/main.c:148-150 | an `add` without a description reports the usage and the shell continues with the file unchanged |
| `Commands.ShellSkipsBlank` | src/main.c:134-138 | a line of spaces, like an empty line, is skipped without a report |
| `Commands.ShellAddStep` | src/main.c:152-157 | an interactive `add` that passes the amount check appends its record to the file `ensure_header` left, and the shell continues |
| `Commands.Program` | src/main.c:164-192 | `main`; its cases are `Commands.CliAddNeedsThreeWords`, `Commands.CliReadOnlyCommands`, `Commands.CliAddAppendsJoinedWords` and `Commands.CliAddReportsRewriteFailure` |
| `Commands.RunMain` | src/main.c:164-192 | `main` matches `Program`: no argument runs the shell; `add` checks its argument count and then the amount, joins `argv[4..]` into 800 bytes, and appends (exit 0, or 1 on failure); `list` exits 0; anything else is unknown (exit 1) |
| `Commands.CliAddNeedsThreeWords` | src/main.c:173-176 | `add` with fewer than three words after it prints the usage, exits with 1, and leaves the file alone |
| `Commands.CliReadOnlyCommands` | src/main.c:185-191 | `list` and unknown commands never change the file; only `list` exits with 0 |
| `Commands.CliAddAppendsJoinedWords` | src/main.c:172-184 | a command-line `add` that passes the check appends one record whose description is the words from `argv[4]` on, joined by single spaces |
| `Commands.CliAddReportsRewriteFailure` | src/main.c:172-184 | when the file lacks the header and cannot be rewritten, a command-line `add` reports the failed rewrite and then goes on: if the file can be appended to, the record is appended to the header-less file and the exit status is 0; otherwise the failed append is reported too, the exit status is 1 and the file is left alone |
| `Commands.CliOneWordAdd` | src/main.c:182-184 | with a single description word, the stored description is that word |
| `Commands.ShellAndCliAddAgree` | src/main.c:157 | for a one-word description, the interactive and the command-line `add` write the same record and leave the same file |

## Left out

- Everything outside `src/main.c`, in particular the plotting script, is not part of this model.
- `today_iso` reads the clock. The date is an input (`Env.date`), and its format is not checked.
- `strtod` and `%.2f` are abstract:
  - `Env.isZero` says whether `strtod` reads a text as zero;
  - `Env.render` gives the text `%.2f` prints for the amount.

  So the two-decimal rounding is not modelled. The floating-point running
  total of `list_entries` is not modelled either.
- Printed text is modelled as `Event`s. Its layout, the banner, the prompt and the column widths are not modelled.
- The copy loop in `ensure_header` stores `fgetc`'s result in a `char`. It is modelled as a verbatim copy:
  - Where `char` is signed, a 0xFF byte would end the copy early.
  - Where it is unsigned, the loop would never end.

  Neither case is modelled.
- `remove` and `rename` are treated as one step. The temporary file `tracker.tmp.csv`, failures of either call and other processes touching the file are not modelled.
- Whether a file can be opened is two flags: `Env.canWrite` for mode "w" (creating the table, or the temporary copy when the header is added) and `Env.canAppend` for mode "a". Each flag holds for the whole run. Opening an existing file for reading never fails in the model. Read errors in `fgets`, `ftell` and `fseek` are not modelled.
- Characters are Dafny `char`s. Bytes, encodings and multi-byte characters are not modelled.
- `Commands.RunMain` requires `argv[2]` to be non-empty for `add` with five or more arguments. On an empty `argv[2]`, the amount check reads past the string's terminator, which is undefined behaviour.
- `Commands.RunMain` requires `argc >= 1`.
- `Store.AddedRecordIsListed` is stated only when:
  - the date and the amount text are at most 124 characters together;
  - the fields are non-empty and on one line.

  The rest of the line (the stored category and description, three commas and the LF) is at most 898 characters, so the record line then fits in one 1023-character `fgets` read. A longer line is split into several reads, which this lemma does not cover.
- `Store.LookalikeHeaderBecomesRow` is stated only when the text `x` after the header is shorter than 900 characters, well inside one `fgets` read.
- `Store.UnterminatedHeaderHidesRecord` is stated only when the date and the amount text are at most 90 characters together, so that the 32-character header and the record line fit in one `fgets` read.
- `Commands.ShellAddWithoutDescription` covers only two tails after the category: none, or one space. Every other `add` line is covered by `Commands.ShellAddByWords` (too few words) and `Commands.ShellAddSpaced` (any spacing).
