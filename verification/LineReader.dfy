/**
 Reading commands: next_cmd cuts the input into lines in a buffer that grows by BUFSIZ, and
 splitline cuts a line into words in an argument array that grows likewise.  Both undo printing.
 Input is free of NUL characters.
 */
module LineReader {
  import opened Wrappers

  const BUFSIZ: nat := 8192
  const SPOTS: nat := BUFSIZ / 8  // argument slots per BUFSIZ bytes

  // ---- lines --------------------------------------------------------------------------

  /** The index of the first newline from i on, or the length. */
  function LineEnd(input: string, i: nat): (e: nat)
    requires i <= |input|
    ensures i <= e <= |input| && (forall j :: i <= j < e ==> input[j] != '\n') && (e < |input| ==> input[e] == '\n')
    decreases |input| - i
  {
    if i == |input| || input[i] == '\n' then i else LineEnd(input, i + 1)
  }

  /** What is left to read after the line that starts at i. */
  function AfterLine(input: string, i: nat): (r: nat)
    requires i < |input|
    ensures i < r <= |input|
  {
    var e := LineEnd(input, i);
    if e < |input| then e + 1 else e
  }

  /** The lines that repeated next_cmd returns from position i on, until it returns NULL. */
  function LinesFrom(input: string, i: nat): seq<string>
    requires i <= |input|
    decreases |input| - i
  {
    if i == |input| then [] else [input[i..LineEnd(input, i)]] + LinesFrom(input, AfterLine(input, i))
  }

  function Unlines(lines: seq<string>): string
    decreases |lines|
  {
    if lines == [] then "" else lines[0] + "\n" + Unlines(lines[1..])
  }

  predicate NoNewline(s: string) { forall i :: 0 <= i < |s| ==> s[i] != '\n' }

  lemma LineEndIs(input: string, i: nat, e: nat)
    requires i <= e <= |input| && (forall j :: i <= j < e ==> input[j] != '\n') && (e < |input| ==> input[e] == '\n')
    ensures LineEnd(input, i) == e
  {
  }

  lemma OneLine(read: string, line: string, rest: string)
    requires NoNewline(line)
    ensures var input := read + line + "\n" + rest;
            && LineEnd(input, |read|) == |read| + |line| && input[|read|..|read| + |line|] == line
            && AfterLine(input, |read|) == |read + line + "\n"|
  {
    var input := read + line + "\n" + rest;
    forall j | |read| <= j < |read| + |line| ensures input[j] == line[j - |read|] {
    }
    LineEndIs(input, |read|, |read| + |line|);
  }

  /** Reading gives back the lines that were printed, behind any text already read. */
  lemma {:induction false} LinesOfUnlines(read: string, lines: seq<string>)
    requires forall k :: 0 <= k < |lines| ==> NoNewline(lines[k])
    ensures LinesFrom(read + Unlines(lines), |read|) == lines
    decreases |lines|
  {
    if lines != [] {
      var line, rest := lines[0], Unlines(lines[1..]);
      assert read + Unlines(lines) == read + line + "\n" + rest;
      OneLine(read, line, rest);
      LinesOfUnlines(read + line + "\n", lines[1..]);
    }
  }

  lemma CutLine(input: string, i: nat)
    requires i < |input|
    ensures var e, r := LineEnd(input, i), AfterLine(input, i);
            input[i..e] + (if e < |input| then "\n" else "") + input[r..] == input[i..]
  {
  }

  /** Nothing is lost: the lines put together again are the input, with the final newline supplied
      where the last line had none. */
  lemma {:induction false} UnlinesOfLines(input: string, i: nat)
    requires i <= |input|
    ensures Unlines(LinesFrom(input, i)) == input[i..] + if i < |input| && input[|input| - 1] != '\n' then "\n" else ""
    decreases |input| - i
  {
    if i < |input| {
      var e, r := LineEnd(input, i), AfterLine(input, i);
      UnlinesOfLines(input, r);
      CutLine(input, i);
      var line, more := input[i..e], LinesFrom(input, r);
      assert ([line] + more)[1..] == more;
      assert Unlines(LinesFrom(input, i)) == line + "\n" + Unlines(more);
    }
  }

  /** realloc. */
  method Grow<T>(block: array<T>, size: nat, filler: T) returns (bigger: array<T>)
    requires size >= block.Length
    ensures fresh(bigger) && bigger.Length == size
    ensures forall j :: 0 <= j < block.Length ==> bigger[j] == block[j]
  {
    bigger := new T[size](_ => filler);
    for j := 0 to block.Length
      invariant forall k :: 0 <= k < j ==> bigger[k] == block[k]
    {
      bigger[j] := block[j];
    }
  }

  /** next_cmd: the string in the buffer and the reading position afterwards; None for NULL.  Every
      write, the terminator's included, falls inside the buffer. */
  method NextCmd(input: string, start: nat) returns (line: Option<string>, next: nat)
    requires start <= |input|
    ensures line == None <==> start == |input|
    ensures start == |input| ==> next == start
    ensures start < |input| ==> line == Some(input[start..LineEnd(input, start)]) && next == AfterLine(input, start)
  {
    var buf := new char[0];
    var pos := 0;
    next := start;
    var newline := false;
    while next < |input| && !newline
      invariant start <= next <= |input| && pos <= LineEnd(input, start) - start && fresh(buf)
      invariant if newline then next == start + pos + 1 && start + pos == LineEnd(input, start) < |input|
                else next == start + pos
      invariant pos < buf.Length || (pos == 0 && next == start && !newline)
      invariant pos <= buf.Length && forall j :: 0 <= j < pos ==> buf[j] == input[start + j]
      decreases |input| - next, !newline
    {
      var c := input[next];
      next := next + 1;
      if pos + 1 >= buf.Length {
        buf := Grow(buf, buf.Length + BUFSIZ, '\0');
      }
      if c == '\n' {
        newline := true;
        LineEndIs(input, start, start + pos);
      } else {
        buf[pos] := c;
        pos := pos + 1;
      }
    }
    if !newline && pos == 0 {
      return None, next;
    }
    buf[pos] := '\0';
    if !newline {
      LineEndIs(input, start, |input|);
    }
    assert buf[..pos] == input[start..LineEnd(input, start)];
    line := Some(buf[..pos]);
  }

  // ---- words --------------------------------------------------------------------------

  predicate IsDelim(c: char) { c == ' ' || c == '\t' }

  /** The index of the first character from i on that is not a blank. */
  function SkipBlanks(line: string, i: nat): (r: nat)
    requires i <= |line|
    ensures i <= r <= |line| && (r < |line| ==> !IsDelim(line[r]))
    decreases |line| - i
  {
    if i == |line| || !IsDelim(line[i]) then i else SkipBlanks(line, i + 1)
  }

  /** The end of the word that reaches to i at least. */
  function WordEnd(line: string, i: nat): (r: nat)
    requires i <= |line|
    ensures i <= r <= |line| && (r < |line| ==> IsDelim(line[r]))
    decreases |line| - i
  {
    if i == |line| || IsDelim(line[i]) then i else WordEnd(line, i + 1)
  }

  /** The words from position i on. */
  function WordsFrom(line: string, i: nat): seq<string>
    requires i <= |line|
    decreases |line| - i
  {
    var start := SkipBlanks(line, i);
    if start == |line| then [] else [line[start..WordEnd(line, start)]] + WordsFrom(line, WordEnd(line, start))
  }

  /** Non-empty, without spaces and tabs. */
  predicate IsWord(w: string) { w != "" && forall i :: 0 <= i < |w| ==> w[i] != ' ' && w[i] != '\t' }

  predicate BlankBetween(line: string, from: nat, to: nat) {
    from <= to <= |line| && forall j :: from <= j < to ==> line[j] == ' ' || line[j] == '\t'
  }

  predicate StandsAt(line: string, start: nat, w: string) {
    start + |w| <= |line| && forall j :: start <= j < start + |w| ==> line[j] == w[j - start]
  }

  /** Where the gap before word k begins. */
  function GapStart(i: nat, words: seq<string>, starts: seq<nat>, k: nat): nat
    requires |starts| == |words| && k <= |words|
  {
    if k == 0 then i else starts[k - 1] + |words[k - 1]|
  }

  /** From position i on, the line consists of the words, at the given places, and runs of blanks
      between them; only the first and the last run may be empty. */
  predicate LaidOut(line: string, i: nat, words: seq<string>, starts: seq<nat>) {
    && |starts| == |words|
    && (forall k :: 0 <= k < |words| ==> Placed(line, i, words, starts, k))
    && BlankBetween(line, GapStart(i, words, starts, |words|), |line|)
  }

  /** Word k and the gap before it. */
  predicate Placed(line: string, i: nat, words: seq<string>, starts: seq<nat>, k: nat)
    requires k < |words| == |starts|
  {
    && IsWord(words[k]) && StandsAt(line, starts[k], words[k])
    && BlankBetween(line, GapStart(i, words, starts, k), starts[k])
    && (k > 0 ==> GapStart(i, words, starts, k) < starts[k])
  }

  lemma {:induction false} SkipBlanksIs(line: string, i: nat, r: nat)
    requires BlankBetween(line, i, r) && (r < |line| ==> !IsDelim(line[r]))
    ensures SkipBlanks(line, i) == r
    decreases r - i
  {
    if i < r {
      SkipBlanksIs(line, i + 1, r);
    }
  }

  lemma {:induction false} WordEndIs(line: string, i: nat, r: nat)
    requires i <= r <= |line| && (forall j :: i <= j < r ==> !IsDelim(line[j])) && (r < |line| ==> IsDelim(line[r]))
    ensures WordEnd(line, i) == r
    decreases r - i
  {
    if i < r {
      WordEndIs(line, i + 1, r);
    }
  }

  lemma {:induction false} SkipsBlanks(line: string, i: nat)
    requires i <= |line|
    ensures BlankBetween(line, i, SkipBlanks(line, i))
    decreases |line| - i
  {
    if i < |line| && IsDelim(line[i]) {
      SkipsBlanks(line, i + 1);
    }
  }

  lemma {:induction false} SpansWord(line: string, i: nat)
    requires i <= |line|
    ensures forall j :: i <= j < WordEnd(line, i) ==> !IsDelim(line[j])
    decreases |line| - i
  {
    if i < |line| && !IsDelim(line[i]) {
      SpansWord(line, i + 1);
    }
  }

  /** The first word comes off. */
  lemma TakeWord(line: string, from: nat, start: nat, w: string)
    requires BlankBetween(line, from, start) && StandsAt(line, start, w) && IsWord(w)
    requires start + |w| == |line| || IsDelim(line[start + |w|])
    ensures WordsFrom(line, from) == [w] + WordsFrom(line, start + |w|)
  {
    assert line[start] == w[0];
    SkipBlanksIs(line, from, start);
    WordEndIs(line, start, start + |w|);
    assert line[start..start + |w|] == w;
  }

  lemma NoWordsLeft(line: string, from: nat)
    requires BlankBetween(line, from, |line|)
    ensures WordsFrom(line, from) == []
  {
    SkipBlanksIs(line, from, |line|);
  }

  /** What follows word k of a layout is a blank, unless it is the end of the line. */
  lemma BlankAfter(line: string, i: nat, words: seq<string>, starts: seq<nat>, k: nat)
    requires LaidOut(line, i, words, starts) && k < |words|
    ensures GapStart(i, words, starts, k + 1) <= |line|
    ensures GapStart(i, words, starts, k + 1) == |line| || IsDelim(line[GapStart(i, words, starts, k + 1)])
  {
    assert Placed(line, i, words, starts, k);
    if k + 1 < |words| {
      assert Placed(line, i, words, starts, k + 1);
    }
  }

  /** From the gap before word k on, the words are those from k on. */
  lemma {:induction false} SplitLayoutFrom(line: string, i: nat, words: seq<string>, starts: seq<nat>, k: nat, gap: nat)
    requires LaidOut(line, i, words, starts) && k <= |words| && gap == GapStart(i, words, starts, k) <= |line|
    ensures WordsFrom(line, gap) == words[k..]
    decreases |words| - k
  {
    if k == |words| {
      NoWordsLeft(line, gap);
    } else {
      assert Placed(line, i, words, starts, k);
      var end := starts[k] + |words[k]|;
      BlankAfter(line, i, words, starts, k);
      TakeWord(line, gap, starts[k], words[k]);
      SplitLayoutFrom(line, i, words, starts, k + 1, end);
      assert words[k..] == [words[k]] + words[k + 1..];
    }
  }

  lemma {:induction false} LayoutOfWords(line: string, i: nat) returns (starts: seq<nat>)
    requires i <= |line|
    ensures LaidOut(line, i, WordsFrom(line, i), starts)
    ensures starts != [] ==> starts[0] == SkipBlanks(line, i)
    decreases |line| - i
  {
    var start := SkipBlanks(line, i);
    SkipsBlanks(line, i);
    starts := [];
    if start < |line| {
      var end := WordEnd(line, start);
      SpansWord(line, start);
      var more := LayoutOfWords(line, end);
      starts := [start] + more;
      LayoutExtend(line, i, start, end, WordsFrom(line, end), more);
    }
  }

  lemma LayoutExtend(line: string, i: nat, start: nat, end: nat, words: seq<string>, starts: seq<nat>)
    requires BlankBetween(line, i, start) && start < end <= |line| && IsWord(line[start..end])
    requires LaidOut(line, end, words, starts) && (starts != [] ==> end < starts[0])
    ensures LaidOut(line, i, [line[start..end]] + words, [start] + starts)
  {
    var words', starts' := [line[start..end]] + words, [start] + starts;
    forall k | 0 <= k < |words'| ensures Placed(line, i, words', starts', k) {
      if k > 0 {
        assert words'[k] == words[k - 1] && starts'[k] == starts[k - 1];
        assert Placed(line, end, words, starts, k - 1);
        assert GapStart(i, words', starts', k) == GapStart(end, words, starts, k - 1);
      }
    }
  }

  /** splitline, exactly: a line splits into the given words if and only if it consists of those words
      separated by non-empty runs of blanks. */
  lemma SplitsIff(line: string, words: seq<string>)
    ensures WordsFrom(line, 0) == words <==> exists starts :: LaidOut(line, 0, words, starts)
  {
    if WordsFrom(line, 0) == words {
      var starts := LayoutOfWords(line, 0);
    }
    if starts :| LaidOut(line, 0, words, starts) {
      assert |words| > 0 ==> Placed(line, 0, words, starts, 0);
      SplitLayoutFrom(line, 0, words, starts, 0, 0);
    }
  }

  /** splitline: the words, then NULL, in an array with room for both. */
  method Splitline(line: string) returns (args: array<Option<string>>, argnum: nat)
    ensures argnum == |WordsFrom(line, 0)| < args.Length && args[argnum] == None
    ensures forall k :: 0 <= k < argnum ==> args[k] == Some(WordsFrom(line, 0)[k])
  {
    args := new Option<string>[SPOTS](_ => None);
    argnum := 0;
    var cp := 0;
    ghost var all := WordsFrom(line, 0);
    while cp < |line|
      invariant cp <= |line| && argnum < args.Length && fresh(args)
      invariant argnum <= |all| && all[argnum..] == WordsFrom(line, cp)
      invariant forall k :: 0 <= k < argnum ==> args[k] == Some(all[k])
    {
      cp := SkipBlanksFrom(line, cp);
      if cp == |line| {
        break;
      }
      args := MakeRoom(args, argnum);
      var word;
      word, cp := ReadWord(line, cp);
      HeadAndTail(all, argnum, word, WordsFrom(line, cp));
      args[argnum] := Some(word);
      argnum := argnum + 1;
    }
    args[argnum] := None;
  }

  /** Room for one more word and the NULL behind it. */
  method MakeRoom(args: array<Option<string>>, argnum: nat) returns (roomy: array<Option<string>>)
    requires argnum < args.Length
    ensures roomy == args || fresh(roomy)
    ensures argnum + 1 < roomy.Length && forall k :: 0 <= k < argnum ==> roomy[k] == args[k]
  {
    roomy := args;
    if argnum + 1 >= args.Length {
      roomy := Grow(args, args.Length + SPOTS, None);
    }
  }

  lemma HeadAndTail(all: seq<string>, n: nat, head: string, tail: seq<string>)
    requires n <= |all| && all[n..] == [head] + tail
    ensures n < |all| && all[n] == head && all[n + 1..] == tail
  {
    assert all[n] == all[n..][0];
    assert all[n + 1..] == all[n..][1..];
  }

  /** The loop over leading blanks. */
  method SkipBlanksFrom(line: string, from: nat) returns (cp: nat)
    requires from <= |line|
    ensures cp == SkipBlanks(line, from)
    ensures WordsFrom(line, cp) == WordsFrom(line, from)
  {
    cp := from;
    while cp < |line| && IsDelim(line[cp])
      invariant from <= cp <= |line| && SkipBlanks(line, cp) == SkipBlanks(line, from)
    {
      cp := cp + 1;
    }
  }

  /** The loop to the end of a word, and newstr's copy. */
  method ReadWord(line: string, start: nat) returns (word: string, cp: nat)
    requires start < |line| && !IsDelim(line[start])
    ensures start < cp <= |line| && WordsFrom(line, start) == [word] + WordsFrom(line, cp)
  {
    cp := start + 1;
    while cp < |line| && !IsDelim(line[cp])
      invariant start < cp <= |line| && WordEnd(line, cp) == WordEnd(line, start)
    {
      cp := cp + 1;
    }
    word := line[start..cp];
  }
}
