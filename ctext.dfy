/**
 * The C library string and stream primitives the tracker relies on, stated
 * over character sequences: strspn/strcspn, the line cut
 * `buf[strcspn(buf, "\r\n")] = 0`, fgets into a LINE_MAX_LEN buffer, and
 * strtok. A reference `Split` on a single delimiter is given beside strtok so
 * that what strtok drops can be stated.
 */
module CText {
  import opened Wrappers

  /** A C string: no NUL inside (the NUL ends it). */
  type CString = s: string | '\0' !in s

  /** LINE_MAX_LEN, the size of every line buffer. */
  const LineMaxLen: nat := 1024

  /** The most characters one fgets into a LINE_MAX_LEN buffer can return. */
  const ReadCap: nat := LineMaxLen - 1

  /** The characters that end a line once it is trimmed: CR, LF, or the NUL ending the C string. */
  const LineStops: set<char> := {'\r', '\n', '\0'}

  function Min(a: int, b: int): int { if a < b then a else b }

  /** strcspn: length of the longest prefix of `s` holding no character of `delims`. */
  function CSpan(s: string, delims: set<char>): (k: nat)
    ensures k <= |s|
    ensures forall i :: 0 <= i < k ==> s[i] !in delims
    ensures k < |s| ==> s[k] in delims
  {
    if s == [] || s[0] in delims then 0 else 1 + CSpan(s[1..], delims)
  }

  /** strspn: length of the longest prefix of `s` made only of characters of `delims`. */
  function Span(s: string, delims: set<char>): (k: nat)
    ensures k <= |s|
    ensures forall i :: 0 <= i < k ==> s[i] in delims
    ensures k < |s| ==> s[k] !in delims
  {
    if s == [] || s[0] !in delims then 0 else 1 + Span(s[1..], delims)
  }

  /** The two clauses of CSpan's contract determine its value. */
  lemma CSpanUnique(s: string, delims: set<char>, k: nat)
    requires k <= |s|
    requires forall i :: 0 <= i < k ==> s[i] !in delims
    requires k < |s| ==> s[k] in delims
    ensures CSpan(s, delims) == k
  {
  }

  /** strlen of a buffer: the characters before its first NUL. */
  function CLen(buf: string): nat
  {
    CSpan(buf, {'\0'})
  }

  /** The C string a buffer holds. */
  function CStringOf(buf: string): (r: CString)
    ensures |r| <= |buf| && r == buf[..|r|]
    ensures |r| < |buf| ==> buf[|r|] == '\0'
  {
    buf[..CLen(buf)]
  }

  /** What `snprintf(buf, size, "%s", s)` leaves as the C string in `buf`. */
  function Truncated(s: string, size: nat): string
    requires size >= 1
  {
    if |s| < size then s else s[..size - 1]
  }

  /**
   * `snprintf(buf, size, "%s", s)` into a fresh buffer of `size` characters;
   * what lies after the terminating NUL is not modelled and holds NULs.
   */
  method Snprintf(s: CString, size: nat) returns (buf: array<char>)
    requires size >= 1
    ensures fresh(buf) && buf.Length == size
    ensures buf[..] == Truncated(s, size) + seq(size - |Truncated(s, size)|, _ => '\0')
  {
    var t := Truncated(s, size);
    buf := new char[size](i => if 0 <= i < |t| then t[i] else '\0');
  }

  /** A NUL-free text followed by a NUL is the C string it spells. */
  lemma CStringOfPadded(x: string, pad: string)
    requires '\0' !in x
    requires pad != [] && pad[0] == '\0'
    ensures CStringOf(x + pad) == x
  {
    var b := x + pad;
    assert forall i :: 0 <= i < |x| ==> b[i] == x[i];
    CSpanUnique(b, {'\0'}, |x|);
    assert b[..|x|] == x;
  }

  /** `strlen(buf)`: scans for the terminating NUL. */
  method StrLen(buf: array<char>) returns (n: nat)
    requires '\0' in buf[..]
    ensures n == CLen(buf[..]) && n < buf.Length
  {
    ghost var k := CLen(buf[..]);
    assert k < buf.Length by {
      var j :| 0 <= j < buf.Length && buf[j] == '\0';
      assert buf[..][j] == '\0';
    }
    n := 0;
    while buf[n] != '\0'
      invariant n <= k
      decreases k - n
    {
      n := n + 1;
    }
  }

  /**
   * `strncat(buf, src, n)`: copies at most `n` characters of `src` over the
   * terminating NUL of `buf` and writes a new NUL after them; the rest of
   * the buffer is untouched.
   */
  method StrNCat(buf: array<char>, src: CString, n: nat)
    requires '\0' in buf[..] && CLen(buf[..]) + n < buf.Length
    modifies buf
    ensures var len := CLen(old(buf[..]));
      var m := Min(|src|, n);
      buf[..] == old(buf[..])[..len] + src[..m] + ['\0'] + old(buf[..])[len + m + 1..]
  {
    ghost var before := buf[..];
    var len := StrLen(buf);
    assert len == CLen(before);
    var i := 0;
    while i < n && i < |src|
      invariant 0 <= i <= Min(|src|, n)
      invariant forall j :: 0 <= j < len ==> buf[j] == before[j]
      invariant forall j :: 0 <= j < i ==> buf[len + j] == src[j]
      invariant forall j :: len + i <= j < buf.Length ==> buf[j] == before[j]
    {
      buf[len + i] := src[i];
      i := i + 1;
    }
    assert i == Min(|src|, n);
    buf[len + i] := '\0';
    Spliced(buf[..], before, len, src[..i]);
  }

  /** A buffer that agrees with `before` except for `piece` and a NUL written at `at` is that splice. */
  lemma Spliced(after: string, before: string, at: nat, piece: string)
    requires |after| == |before| && at + |piece| < |before|
    requires forall j :: 0 <= j < at ==> after[j] == before[j]
    requires forall j :: 0 <= j < |piece| ==> after[at + j] == piece[j]
    requires after[at + |piece|] == '\0'
    requires forall j :: at + |piece| < j < |after| ==> after[j] == before[j]
    ensures after == before[..at] + piece + ['\0'] + before[at + |piece| + 1..]
  {
    var want := before[..at] + piece + ['\0'] + before[at + |piece| + 1..];
    assert forall j :: at <= j < at + |piece| ==> after[j] == piece[j - at] == want[j];
  }

  /** What snprintf keeps is the start of the text, as much of it as fits before the NUL. */
  lemma TruncatedIsPrefix(s: string, size: nat)
    requires size >= 1
    ensures var t := Truncated(s, size); |t| == Min(|s|, size - 1) && t == s[..|t|]
  {
  }

  /** Truncating after an append is appending what still fits after truncating. */
  lemma TruncatedAppend(a: string, b: string, size: nat)
    requires size >= 1
    ensures Truncated(a + b, size)
         == Truncated(a, size) + b[..Min(|b|, size - 1 - |Truncated(a, size)|)]
  {
    if |a| >= size {
      assert (a + b)[..size - 1] == a[..size - 1];
    } else if |a + b| >= size {
      assert (a + b)[..size - 1] == a + b[..size - 1 - |a|];
    } else {
      assert b[..|b|] == b;
    }
  }

  /** The C string left by `buf[strcspn(buf, "\r\n")] = 0`: everything before the first CR, LF or NUL. */
  function Trimmed(s: string): (r: string)
    ensures |r| <= |s| && r == s[..|r|]
    ensures forall i :: 0 <= i < |r| ==> r[i] !in LineStops
    ensures |r| < |s| ==> s[|r|] in LineStops
  {
    s[..CSpan(s, LineStops)]
  }

  /**
   * The number of characters one `fgets` with room for `cap` characters
   * consumes from the unread input `s`: up to and including the first LF,
   * but never more than `cap`.
   */
  function ReadLen(s: string, cap: nat): (k: nat)
    requires cap > 0
    ensures k <= |s| && k <= cap
    ensures s != [] ==> k > 0
    ensures forall i :: 0 <= i < k - 1 ==> s[i] != '\n'
    ensures 0 < k ==> k == |s| || k == cap || s[k - 1] == '\n'
  {
    if s == [] then 0
    else if s[0] == '\n' || cap == 1 then 1
    else 1 + ReadLen(s[1..], cap - 1)
  }

  /** What the first `fgets(buf, LINE_MAX_LEN, f)` on a stream holding `s` stores in `buf`. */
  function FirstLine(s: string): (r: string)
    ensures |r| <= |s| && |r| <= ReadCap && r == s[..|r|]
    ensures s != [] ==> r != []
    ensures forall i :: 0 <= i < |r| - 1 ==> r[i] != '\n'
  {
    s[..ReadLen(s, ReadCap)]
  }

  /** The successive strings `fgets(buf, LINE_MAX_LEN, f)` returns until end of file. */
  function Lines(s: string): seq<string>
    decreases |s|
  {
    if s == [] then []
    else
      var k := ReadLen(s, ReadCap);
      [s[..k]] + Lines(s[k..])
  }

  /** The lines put back together. */
  function Concat(ls: seq<string>): string
  {
    if ls == [] then [] else ls[0] + Concat(ls[1..])
  }

  /** Reading a stream line by line loses nothing: the lines put back together are the stream. */
  lemma {:induction false} LinesConcat(s: string)
    ensures Concat(Lines(s)) == s
    ensures forall l :: l in Lines(s) ==> 0 < |l| <= ReadCap
    decreases |s|
  {
    if s != [] {
      var k := ReadLen(s, ReadCap);
      LinesConcat(s[k..]);
      assert Lines(s) == [s[..k]] + Lines(s[k..]);
      assert s[..k] + s[k..] == s;
    }
  }

  /** A read that starts in text ending with LF stops inside that text. */
  lemma {:induction false} ReadLenAppend(a: string, b: string, cap: nat)
    requires cap > 0
    requires a != [] && a[|a| - 1] == '\n'
    ensures ReadLen(a + b, cap) == ReadLen(a, cap)
    decreases |a|
  {
    if a[0] == '\n' || cap == 1 {
    } else {
      assert |a| > 1;
      assert (a + b)[1..] == a[1..] + b;
      ReadLenAppend(a[1..], b, cap - 1);
    }
  }

  /** Reading text that ends with LF, then more text, yields the lines of each in turn. */
  lemma {:induction false} LinesAppend(a: string, b: string)
    requires a == [] || a[|a| - 1] == '\n'
    ensures Lines(a + b) == Lines(a) + Lines(b)
    decreases |a|
  {
    if a == [] {
      assert a + b == b;
    } else {
      var k := ReadLen(a, ReadCap);
      var x, y := a[..k], a[k..];
      calc {
        Lines(a + b);
        { assert a + b == x + (y + b); }
        Lines(x + (y + b));
        { assert a == x + y;
          assert a + b == x + (y + b);
          ReadLenAppend(a, b, ReadCap);
          LinesAppend(y, b);
          LinesAppendStep(x, y, b); }
        Lines(x + y) + Lines(b);
        { assert a == x + y; }
        Lines(a) + Lines(b);
      }
    }
  }

  /** Reading `x + y + b`, where the first read takes exactly `x`, goes on as reading `y + b`. */
  lemma LinesAppendStep(x: string, y: string, b: string)
    requires x != [] && ReadLen(x + y, ReadCap) == |x| && ReadLen(x + (y + b), ReadCap) == |x|
    requires Lines(y + b) == Lines(y) + Lines(b)
    ensures Lines(x + (y + b)) == Lines(x + y) + Lines(b)
  {
    calc {
      Lines(x + (y + b));
      { LinesCons(x, y + b); }
      [x] + Lines(y + b);
      [x] + (Lines(y) + Lines(b));
      ([x] + Lines(y)) + Lines(b);
      { LinesCons(x, y); }
      Lines(x + y) + Lines(b);
    }
  }

  /** A first read that takes exactly `x` makes `x` the first line. */
  lemma LinesCons(x: string, y: string)
    requires x != [] && ReadLen(x + y, ReadCap) == |x|
    ensures Lines(x + y) == [x] + Lines(y)
  {
    assert (x + y)[..|x|] == x;
    assert (x + y)[|x|..] == y;
  }

  /** A line that fits in the buffer is read whole, through its LF. */
  lemma {:induction false} ReadLenLine(body: string, rest: string, cap: nat)
    requires '\n' !in body && |body| < cap
    ensures ReadLen(body + "\n" + rest, cap) == |body| + 1
    decreases |body|
  {
    var s := body + "\n" + rest;
    if body == [] {
      assert s[0] == '\n';
    } else {
      assert s[0] == body[0];
      assert s[1..] == body[1..] + "\n" + rest;
      ReadLenLine(body[1..], rest, cap - 1);
    }
  }

  /** A single short line is read by one fgets. */
  lemma LinesOfOneLine(body: string)
    requires '\n' !in body && |body| < ReadCap
    ensures Lines(body + "\n") == [body + "\n"]
  {
    ReadLenLine(body, [], ReadCap);
    assert body + "\n" + [] == body + "\n";
    var s := body + "\n";
    assert s[..|s|] == s && s[|s|..] == [];
  }

  /**
   * Comparing the trimmed first fgets line with a short string is the same as
   * comparing the first line of the whole stream: a first line cut at 1023
   * characters is too long to equal it either way.
   */
  lemma TrimmedFirstLine(s: string, t: string)
    requires |t| < ReadCap
    ensures (Trimmed(FirstLine(s)) == t) == (Trimmed(s) == t)
  {
    var k := ReadLen(s, ReadCap);
    var c := CSpan(s, LineStops);
    var line := s[..k];
    if c < k {
      CSpanUnique(line, LineStops, c);
      assert Trimmed(line) == Trimmed(s);
    } else {
      assert forall i :: 0 <= i < k ==> line[i] == s[i] && s[i] !in LineStops;
      CSpanUnique(line, LineStops, k);
      assert Trimmed(line) == line;
      if k < |s| {
        assert s[k - 1] !in LineStops;
        assert k == ReadCap;
        assert |Trimmed(s)| >= k;
      } else {
        assert line == s;
      }
    }
  }

  /** The outcome of one strtok call: the token found, if any, and the unread rest of the buffer. */
  datatype Tok = Tok(token: Option<string>, rest: string)

  /**
   * One `strtok` call on the unread part `s` of the buffer: skip leading
   * delimiters; at the end of the string there is no token; otherwise the
   * token runs to the next delimiter, which is overwritten by the NUL so the
   * scan resumes just after it.
   */
  function StrTok(s: string, delims: set<char>): (t: Tok)
    ensures t.token.None? ==> t.rest == []
    ensures t.token.Some? ==> t.token.value != [] && |t.rest| < |s|
  {
    var from := s[Span(s, delims)..];
    if from == [] then Tok(None, [])
    else
      var e := CSpan(from, delims);
      Tok(Some(from[..e]), if e < |from| then from[e + 1..] else [])
  }

  /** All the tokens successive strtok calls return from `s`. */
  function Tokens(s: string, delims: set<char>): (ts: seq<string>)
    ensures forall k :: 0 <= k < |ts| ==> ts[k] != []
    ensures s == [] ==> ts == []
    decreases |s|
  {
    var t := StrTok(s, delims);
    if t.token.None? then [] else [t.token.value] + Tokens(t.rest, delims)
  }

  /** One step of Tokens: the token strtok finds, then the tokens of what is left. */
  lemma TokensStep(s: string, delims: set<char>)
    ensures var t := StrTok(s, delims);
      Tokens(s, delims) == if t.token.None? then [] else [t.token.value] + Tokens(t.rest, delims)
  {
  }

  /**
   * The tokens `n` successive strtok calls return, stopping at the first
   * call that finds none (every later call finds none either).
   */
  function TakeTokens(s: string, delims: set<char>, n: nat): seq<string>
    decreases n
  {
    if n == 0 then []
    else
      var t := StrTok(s, delims);
      if t.token.None? then [] else [t.token.value] + TakeTokens(t.rest, delims, n - 1)
  }

  /** `n` strtok calls see the first `n` tokens of the string, or all of them if there are fewer. */
  lemma {:induction false} TakeTokensPrefix(s: string, delims: set<char>, n: nat)
    ensures var ts := Tokens(s, delims);
      TakeTokens(s, delims, n) == ts[..Min(n, |ts|)]
    decreases n
  {
    var t := StrTok(s, delims);
    TokensStep(s, delims);
    if n > 0 && t.token.Some? {
      var ts := Tokens(s, delims);
      var rs := Tokens(t.rest, delims);
      assert ts == [t.token.value] + rs;
      TakeTokensPrefix(t.rest, delims, n - 1);
      assert TakeTokens(s, delims, n) == [t.token.value] + rs[..Min(n - 1, |rs|)];
    }
  }

  /** The fields of `s` between occurrences of `c`, empty fields included (reference definition). */
  function Split(s: string, c: char): (parts: seq<string>)
    decreases |s|
    ensures |parts| >= 1
  {
    var i := CSpan(s, {c});
    if i == |s| then [s] else [s[..i]] + Split(s[i + 1..], c)
  }

  /** The non-empty members of `xs`, in order. */
  function NonEmpty(xs: seq<string>): seq<string>
  {
    if xs == [] then []
    else (if xs[0] == [] then [] else [xs[0]]) + NonEmpty(xs[1..])
  }

  /** A string without the delimiter is a single field. */
  lemma SplitNone(s: string, c: char)
    requires c !in s
    ensures Split(s, c) == [s]
  {
    CSpanUnique(s, {c}, |s|);
  }

  /** The first delimiter ends the first field. */
  lemma SplitCons(a: string, c: char, b: string)
    requires c !in a
    ensures Split(a + [c] + b, c) == [a] + Split(b, c)
  {
    var s := a + [c] + b;
    CSpanUnique(s, {c}, |a|);
    assert s[..|a|] == a;
    assert s[|a| + 1..] == b;
  }

  /** A leading delimiter does not change what strtok returns. */
  lemma StrTokSkips(s: string, delims: set<char>)
    requires s != [] && s[0] in delims
    ensures StrTok(s, delims) == StrTok(s[1..], delims)
  {
    var n := Span(s[1..], delims);
    assert forall i :: 0 <= i < 1 + n ==> s[i] in delims;
    assert Span(s, delims) == 1 + n;
    assert s[1 + n..] == s[1..][n..];
  }

  /** On a string that does not start with a delimiter, strtok takes the first field. */
  lemma StrTokOnField(s: string, delims: set<char>)
    requires s != [] && s[0] !in delims
    ensures var e := CSpan(s, delims);
      StrTok(s, delims) == Tok(Some(s[..e]), if e < |s| then s[e + 1..] else [])
  {
    assert Span(s, delims) == 0;
    assert s[0..] == s;
  }

  /** A field starting the string is strtok's first token. */
  lemma TokensOnField(s: string, c: char)
    requires s != [] && s[0] != c
    ensures var e := CSpan(s, {c});
      Tokens(s, {c}) == [s[..e]] + (if e < |s| then Tokens(s[e + 1..], {c}) else [])
  {
    var e := CSpan(s, {c});
    StrTokOnField(s, {c});
    var t := StrTok(s, {c});
    assert Tokens(s, {c}) == [s[..e]] + Tokens(t.rest, {c});
    if e == |s| {
      assert t.rest == [];
      assert StrTok([], {c}).token.None?;
    }
  }

  /** One step of NonEmpty. */
  lemma NonEmptyCons(x: string, xs: seq<string>)
    ensures NonEmpty([x] + xs) == (if x == [] then [] else [x]) + NonEmpty(xs)
  {
    assert ([x] + xs)[1..] == xs;
  }

  /**
   * strtok on a single delimiter returns exactly the non-empty fields of the
   * string: runs of delimiters collapse, and empty fields vanish.
   */
  lemma {:induction false} TokensAreNonEmptyFields(s: string, c: char)
    ensures Tokens(s, {c}) == NonEmpty(Split(s, c))
    decreases |s|
  {
    if s == [] {
      assert Split(s, c) == [[]];
      NonEmptyCons([], []);
    } else if s[0] == c {
      TokensAreNonEmptyFields(s[1..], c);
      assert s == [c] + s[1..];
      TokensLeadingDelimiter(c, s[1..]);
    } else {
      var e := CSpan(s, {c});
      if e == |s| {
        assert c !in s;
        TokensSingleField(s, c);
      } else {
        var w, rest := s[..e], s[e + 1..];
        TokensAreNonEmptyFields(rest, c);
        assert s == w + [c] + rest;
        TokensLeadingField(w, c, rest);
      }
    }
  }

  /** A leading delimiter changes neither the tokens nor the non-empty fields. */
  lemma TokensLeadingDelimiter(c: char, rest: string)
    requires Tokens(rest, {c}) == NonEmpty(Split(rest, c))
    ensures Tokens([c] + rest, {c}) == NonEmpty(Split([c] + rest, c))
  {
    calc {
      Tokens([c] + rest, {c});
      { TokensOfDelimiter(c, rest); }
      Tokens(rest, {c});
      NonEmpty(Split(rest, c));
      { NonEmptyCons([], Split(rest, c)); }
      NonEmpty([[]] + Split(rest, c));
      { assert [c] + rest == [] + [c] + rest;
        SplitCons([], c, rest); }
      NonEmpty(Split([c] + rest, c));
    }
  }

  /** strtok skips a leading delimiter. */
  lemma TokensOfDelimiter(c: char, rest: string)
    ensures Tokens([c] + rest, {c}) == Tokens(rest, {c})
  {
    var s := [c] + rest;
    assert s[1..] == rest;
    StrTokSkips(s, {c});
    TokensStep(s, {c});
    TokensStep(rest, {c});
  }

  /** A text without the delimiter is its own only token and only field. */
  lemma TokensSingleField(s: string, c: char)
    requires s != [] && c !in s
    ensures Tokens(s, {c}) == NonEmpty(Split(s, c)) == [s]
  {
    calc {
      Tokens(s, {c});
      { TokensOnField(s, c);
        CSpanUnique(s, {c}, |s|);
        assert s[..|s|] == s; }
      [s];
      { NonEmptyCons(s, []);
        assert NonEmpty([]) == []; }
      NonEmpty([s]);
      { SplitNone(s, c); }
      NonEmpty(Split(s, c));
    }
  }

  /** A leading non-empty field is the first token and the first non-empty field. */
  lemma TokensLeadingField(w: string, c: char, rest: string)
    requires w != [] && c !in w
    requires Tokens(rest, {c}) == NonEmpty(Split(rest, c))
    ensures Tokens(w + [c] + rest, {c}) == NonEmpty(Split(w + [c] + rest, c))
  {
    var s := w + [c] + rest;
    calc {
      Tokens(s, {c});
      { TokensOfField(w, c, rest); }
      [w] + Tokens(rest, {c});
      [w] + NonEmpty(Split(rest, c));
      { NonEmptyCons(w, Split(rest, c)); }
      NonEmpty([w] + Split(rest, c));
      { SplitCons(w, c, rest); }
      NonEmpty(Split(s, c));
    }
  }

  /** A leading field ended by the delimiter is the first token. */
  lemma TokensOfField(w: string, c: char, rest: string)
    requires w != [] && c !in w
    ensures Tokens(w + [c] + rest, {c}) == [w] + Tokens(rest, {c})
  {
    var s := w + [c] + rest;
    assert s[0] == w[0];
    TokensOnField(s, c);
    CSpanUnique(s, {c}, |w|);
    assert s[..|w|] == w;
    assert s[|w| + 1..] == rest;
  }

  /** When strtok finds nothing, every later call finds nothing too. */
  lemma TokensAfterNone(s: string, delims: set<char>)
    requires StrTok(s, delims).token.None?
    ensures Tokens(StrTok(s, delims).rest, delims) == []
  {
    assert StrTok([], delims).token.None?;
  }
}
