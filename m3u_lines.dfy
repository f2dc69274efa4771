/** The line splitter of the playlist engine (readAllLines in
    src/middleware/m3u.cpp) together with the directive constants and the
    prefix test that the assembler and classifier share. */
module M3uLines {

  const LF: char := '\n'
  const CR: char := '\r'

  // The directive constants of m3u.cpp, byte for byte.
  const ExtStr: string := "#EXT"
  const ExtM3uStr: string := "#EXTM3U"
  const ExtEncStr: string := "#EXTENC:"
  const ExtInfStr: string := "#EXTINF:"
  const ExtXMediaStr: string := "#EXT-X-MEDIA:"
  const ExtXStreamInfStr: string := "#EXT-X-STREAM-INF:"

  /** The end-of-line string the serialisers use by default. */
  const SerializeEndOfLine: string := "\n"

  /** std::string::substr(0, n): the first n characters, or all of s when it is shorter. */
  function Head(s: string, n: nat): (r: string)
    ensures |r| == if n <= |s| then n else |s|
  {
    if n <= |s| then s[..n] else s
  }

  /** isExtType(line, base): the first |base| characters of line are base. */
  predicate IsExtType(line: string, base: string)
  {
    Head(line, |base|) == base
  }

  /** The substr comparison of isExtType is exactly a prefix test. */
  lemma {:induction false} IsExtTypeIsPrefix(line: string, base: string)
    ensures IsExtType(line, base) <==> |base| <= |line| && line[..|base|] == base
  {
    if |base| > |line| {
      assert |Head(line, |base|)| < |base|;
    }
  }

  /** A line that starts with a longer directive string starts with every
      prefix of it: each #EXT... constant implies the generic "#EXT". */
  lemma {:induction false} IsExtTypeMonotone(line: string, base: string, shorter: string)
    requires IsExtType(line, base)
    requires |shorter| <= |base| && base[..|shorter|] == shorter
    ensures IsExtType(line, shorter)
  {
    IsExtTypeIsPrefix(line, base);
    IsExtTypeIsPrefix(line, shorter);
    assert line[..|shorter|] == line[..|base|][..|shorter|];
  }

  /** omw::peekNewLine, as the engine assumes it: 2 for CR LF, 1 for a lone
      LF or CR, 0 for any other character. */
  function PeekNewLine(s: string, i: nat): (n: nat)
    requires i < |s|
    ensures n <= 2
    ensures n == 2 ==> i + 1 < |s| && s[i] == CR && s[i + 1] == LF
    ensures n == 0 <==> s[i] != CR && s[i] != LF
  {
    if s[i] == CR && i + 1 < |s| && s[i + 1] == LF then 2
    else if s[i] == CR || s[i] == LF then 1
    else 0
  }

  predicate IsTerminator(c: char)
  {
    c == CR || c == LF
  }

  /** The index of the first CR or LF at or after i, |s| when there is none. */
  function LineEnd(s: string, i: nat): (k: nat)
    requires i <= |s|
    ensures i <= k <= |s|
    ensures k < |s| ==> IsTerminator(s[k])
    decreases |s| - i
  {
    if i == |s| || IsTerminator(s[i]) then i else LineEnd(s, i + 1)
  }

  /** No terminator lies between i and LineEnd(s, i). */
  lemma {:induction false} LineEndClean(s: string, i: nat)
    requires i <= |s|
    ensures forall j :: i <= j < LineEnd(s, i) ==> !IsTerminator(s[j])
    decreases |s| - i
  {
    if i < |s| && !IsTerminator(s[i]) {
      LineEndClean(s, i + 1);
    }
  }

  /** The first terminator at or after i is at k. */
  lemma {:induction false} LineEndAt(s: string, i: nat, k: nat)
    requires i <= k <= |s|
    requires forall j :: i <= j < k ==> !IsTerminator(s[j])
    requires k < |s| ==> IsTerminator(s[k])
    ensures LineEnd(s, i) == k
  {
    LineEndClean(s, i);
  }

  /** The first terminator of a suffix, counted in the whole buffer. */
  lemma {:induction false} LineEndDrop(s: string, d: nat, j: nat)
    requires d + j <= |s|
    ensures LineEnd(s[d..], j) + d == LineEnd(s, d + j)
    decreases |s| - d - j
  {
    if d + j < |s| {
      assert s[d..][j] == s[d + j];
      if !IsTerminator(s[d + j]) {
        LineEndDrop(s, d, j + 1);
      }
    }
  }

  /** The terminator test of a suffix, read in the whole buffer. */
  lemma {:induction false} PeekDrop(s: string, d: nat, k: nat)
    requires d + k < |s|
    ensures PeekNewLine(s[d..], k) == PeekNewLine(s, d + k)
  {
    assert s[d..][k] == s[d + k];
    assert d + k + 1 < |s| ==> s[d..][k + 1] == s[d + k + 1];
  }

  /** The pieces between line terminators, in order; always at least one
      (possibly empty) piece. */
  function Pieces(s: string): (ps: seq<string>)
    ensures |ps| >= 1
    decreases |s|
  {
    var k := LineEnd(s, 0);
    if k == |s| then [s]
    else [s[..k]] + Pieces(s[k + PeekNewLine(s, k)..])
  }

  /** Pieces unfolded once, for a buffer whose first line ends in a terminator. */
  lemma {:induction false} PiecesStep(s: string)
    requires LineEnd(s, 0) < |s|
    ensures Pieces(s) == [s[..LineEnd(s, 0)]] + Pieces(s[LineEnd(s, 0) + PeekNewLine(s, LineEnd(s, 0))..])
  {
  }

  /** Pieces unfolded once, at the first terminator k of width n. */
  lemma {:induction false} PiecesBreakAt(s: string, k: nat, n: nat)
    requires k < |s| && LineEnd(s, 0) == k && n == PeekNewLine(s, k)
    ensures Pieces(s) == [s[..k]] + Pieces(s[k + n..])
  {
  }

  lemma {:induction false} ConsEq(x: string, xs: seq<string>, y: string, ys: seq<string>)
    requires x == y && xs == ys
    ensures [x] + xs == [y] + ys
  {
  }

  /** Pieces unfolded once, for a buffer without a terminator. */
  lemma {:induction false} PiecesEnd(s: string)
    requires LineEnd(s, 0) == |s|
    ensures Pieces(s) == [s]
  {
  }

  /** The lines of a buffer: none for the empty buffer, else the pieces. */
  function Lines(s: string): seq<string>
  {
    if |s| == 0 then [] else Pieces(s)
  }

  /** readAllLines: appends each ordinary character to the last line and
      opens a new line at each terminator, skipping the LF of a CR LF. */
  method ReadAllLines(s: string) returns (lines: seq<string>)
    ensures lines == Lines(s)
  {
    lines := [];
    var p := 0;
    ghost var start := 0;
    ghost var done: seq<string> := [];
    if p < |s| {
      lines := lines + [""];
      ReadStart(s);
    }
    while p < |s|
      invariant 0 <= p <= |s|
      invariant |s| == 0 ==> lines == []
      invariant |s| > 0 ==> ReadInv(s, lines, done, start, p)
    {
      lines, p, done, start := ReadStep(s, lines, p, done, start);
    }
    if |s| > 0 {
      ReadEnd(s, lines, done, start);
    }
  }

  /** One turn of the loop of readAllLines at position p: an ordinary
      character extends the last line, a terminator opens a new one and a
      CR LF is stepped over as one. */
  method ReadStep(s: string, lines: seq<string>, p: nat, ghost done: seq<string>, ghost start: nat)
    returns (lines': seq<string>, p': nat, ghost done': seq<string>, ghost start': nat)
    requires p < |s| && ReadInv(s, lines, done, start, p)
    ensures p < p' <= |s| && ReadInv(s, lines', done', start', p')
  {
    var nnlc := PeekNewLine(s, p);
    if nnlc == 0 {
      ReadChar(s, lines, done, start, p);
      lines' := lines[..|lines| - 1] + [lines[|lines| - 1] + [s[p]]];
      p', done', start' := p + 1, done, start;
    } else {
      lines' := lines + [""];
      p' := p;
      if nnlc > 1 {
        p' := p' + 1;
      }
      p' := p' + 1;
      ReadBreak(s, lines, done, start, p, p');
      done', start' := done + [s[start..p]], p';
    }
  }

  /** The state of readAllLines at position p: the finished lines are the
      first pieces, and the last line holds the text since start. */
  ghost predicate ReadInv(s: string, lines: seq<string>, done: seq<string>, start: nat, p: nat)
  {
    start <= p <= |s| && p <= LineEnd(s, start) &&
    lines == done + [s[start..p]] &&
    Pieces(s) == done + Pieces(s[start..])
  }

  lemma {:induction false} ReadStart(s: string)
    ensures ReadInv(s, [""], [], 0, 0)
  {
    assert s[0..] == s;
  }

  /** An ordinary character extends the last line. */
  lemma {:induction false} ReadChar(s: string, lines: seq<string>, done: seq<string>, start: nat, p: nat)
    requires ReadInv(s, lines, done, start, p) && p < |s| && PeekNewLine(s, p) == 0
    ensures ReadInv(s, lines[..|lines| - 1] + [lines[|lines| - 1] + [s[p]]], done, start, p + 1)
  {
    assert s[start..p + 1] == s[start..p] + [s[p]];
    assert lines[..|lines| - 1] == done;
  }

  /** A terminator finishes the last line and opens an empty one after it. */
  lemma {:induction false} ReadBreak(s: string, lines: seq<string>, done: seq<string>, start: nat, p: nat, q: nat)
    requires ReadInv(s, lines, done, start, p) && p < |s| && PeekNewLine(s, p) > 0
    requires q == p + PeekNewLine(s, p)
    ensures ReadInv(s, lines + [""], done + [s[start..p]], q, q)
  {
    var n := PeekNewLine(s, p);
    var t := s[start..];
    var k := p - start;
    LineEndClean(s, start);
    assert LineEnd(s, start) == p;
    LineEndDrop(s, start, 0);
    PeekDrop(s, start, k);
    PiecesBreakAt(t, k, n);
    assert t[..k] == s[start..p];
    assert t[k + n..] == s[p + n..];
    ConsEq(t[..k], Pieces(t[k + n..]), s[start..p], Pieces(s[p + n..]));
    ShiftLine(Pieces(s), done, s[start..p], Pieces(s[p + n..]));
    assert s[q..q] == "";
    assert lines + [""] == (done + [s[start..p]]) + [s[q..q]];
    assert Pieces(s) == (done + [s[start..p]]) + Pieces(s[q..]);
    assert q <= LineEnd(s, q);
  }

  lemma {:induction false} ShiftLine(ps: seq<string>, done: seq<string>, line: string, rest: seq<string>)
    requires ps == done + ([line] + rest)
    ensures ps == (done + [line]) + rest
  {
  }

  /** At the end of the buffer the last line is the last piece. */
  lemma {:induction false} ReadEnd(s: string, lines: seq<string>, done: seq<string>, start: nat)
    requires ReadInv(s, lines, done, start, |s|) && |s| > 0
    ensures lines == Lines(s)
  {
    LineEndDrop(s, start, 0);
    PiecesEnd(s[start..]);
    assert s[start..|s|] == s[start..];
  }

  // ---------------------------------------------------------------------------
  // Properties of the splitter
  // ---------------------------------------------------------------------------

  /** The number of line terminators, a CR LF counting once. */
  function Terminators(s: string): nat
    decreases |s|
  {
    if |s| == 0 then 0
    else if IsTerminator(s[0]) then 1 + Terminators(s[PeekNewLine(s, 0)..])
    else Terminators(s[1..])
  }

  predicate NoTerminator(line: string)
  {
    forall k :: 0 <= k < |line| ==> !IsTerminator(line[k])
  }

  /** Two texts without terminators make one without. */
  lemma {:induction false} NoTerminatorConcat(a: string, b: string)
    requires NoTerminator(a) && NoTerminator(b)
    ensures NoTerminator(a + b)
  {
    assert forall k :: 0 <= k < |a + b| ==> (a + b)[k] == if k < |a| then a[k] else b[k - |a|];
  }

  /** Each terminator is counted once across the first line and what follows it. */
  lemma {:induction false} TerminatorsAfterLine(s: string)
    ensures LineEnd(s, 0) == |s| ==> Terminators(s) == 0
    ensures LineEnd(s, 0) < |s| ==>
      Terminators(s) == 1 + Terminators(s[LineEnd(s, 0) + PeekNewLine(s, LineEnd(s, 0))..])
    decreases |s|
  {
    if |s| > 0 && !IsTerminator(s[0]) {
      var k := LineEnd(s, 0);
      LineEndDrop(s, 1, 0);
      TerminatorsAfterLine(s[1..]);
      if k < |s| {
        PeekDrop(s, 1, k - 1);
        assert s[1..][k - 1 + PeekNewLine(s, k)..] == s[k + PeekNewLine(s, k)..];
      }
    }
  }

  /** A buffer has one more piece than terminators. */
  lemma {:induction false} PiecesCount(s: string)
    ensures |Pieces(s)| == Terminators(s) + 1
    decreases |s|
  {
    var k := LineEnd(s, 0);
    TerminatorsAfterLine(s);
    if k < |s| {
      PiecesStep(s);
      PiecesCount(s[k + PeekNewLine(s, k)..]);
    } else {
      PiecesEnd(s);
    }
  }

  /** No piece holds a CR or an LF. */
  lemma {:induction false} PiecesClean(s: string)
    ensures forall j :: 0 <= j < |Pieces(s)| ==> NoTerminator(Pieces(s)[j])
    decreases |s|
  {
    var k := LineEnd(s, 0);
    LineEndClean(s, 0);
    assert NoTerminator(s[..k]);
    if k < |s| {
      PiecesStep(s);
      PiecesClean(s[k + PeekNewLine(s, k)..]);
    } else {
      PiecesEnd(s);
    }
  }

  /** Line splitting: no line for the empty buffer, terminators + 1 lines
      otherwise, and no line contains a CR or an LF. */
  lemma {:induction false} LinesShape(s: string)
    ensures |s| == 0 ==> Lines(s) == []
    ensures |s| > 0 ==> |Lines(s)| == Terminators(s) + 1
    ensures forall j :: 0 <= j < |Lines(s)| ==> NoTerminator(Lines(s)[j])
  {
    PiecesCount(s);
    PiecesClean(s);
  }

  /** A buffer that ends in a terminator ends in an empty piece. */
  lemma {:induction false} PiecesLast(s: string)
    requires |s| > 0 && IsTerminator(s[|s| - 1])
    ensures |Pieces(s)| >= 2 && Pieces(s)[|Pieces(s)| - 1] == ""
    decreases |s|
  {
    var k := LineEnd(s, 0);
    LineEndClean(s, 0);
    assert k < |s|;
    var n := PeekNewLine(s, k);
    var tail := s[k + n..];
    PiecesBreakAt(s, k, n);
    if |tail| == 0 {
      PiecesEnd(tail);
    } else {
      assert tail[|tail| - 1] == s[|s| - 1];
      PiecesLast(tail);
    }
    LastOfCons(s[..k], Pieces(tail));
  }

  lemma {:induction false} LastOfCons(x: string, ps: seq<string>)
    requires |ps| >= 1
    ensures |[x] + ps| == |ps| + 1 && ([x] + ps)[|ps|] == ps[|ps| - 1]
  {
  }

  /** A trailing terminator yields a final empty line. */
  lemma {:induction false} TrailingTerminator(s: string)
    requires |s| > 0 && IsTerminator(s[|s| - 1])
    ensures |Lines(s)| >= 2 && Lines(s)[|Lines(s)| - 1] == ""
  {
    PiecesLast(s);
  }

  // ---------------------------------------------------------------------------
  // Re-splitting LF-terminated text
  // ---------------------------------------------------------------------------

  /** Each line followed by eol, in order. */
  function Terminated(lines: seq<string>, eol: string): string
  {
    if |lines| == 0 then "" else lines[0] + eol + Terminated(lines[1..], eol)
  }

  /** One line, terminated. */
  lemma {:induction false} TerminatedSingle(x: string, eol: string)
    ensures Terminated([x], eol) == x + eol
  {
    assert [x][1..] == [];
  }

  /** Two lines, each terminated. */
  lemma {:induction false} TerminatedPair(x: string, y: string, eol: string)
    ensures Terminated([x, y], eol) == x + eol + y + eol
  {
    assert [x, y][1..] == [y];
    TerminatedSingle(y, eol);
    assert Terminated([x, y], eol) == x + eol + (y + eol);
  }

  /** An LF-terminated line without terminators splits off as the first piece. */
  lemma {:induction false} PiecesLineLF(line: string, rest: string)
    requires NoTerminator(line)
    ensures Pieces(line + "\n" + rest) == [line] + Pieces(rest)
  {
    var s := line + "\n" + rest;
    assert s[|line|] == LF;
    assert forall j :: 0 <= j < |line| ==> s[j] == line[j];
    LineEndAt(s, 0, |line|);
    assert PeekNewLine(s, |line|) == 1;
    PiecesStep(s);
    assert s[..|line|] == line;
    assert s[|line| + 1..] == rest;
  }

  /** Splitting LF-terminated lines gives the lines back, and a final empty
      line for the last LF. */
  lemma {:induction false} LinesOfTerminated(lines: seq<string>)
    requires forall j :: 0 <= j < |lines| ==> NoTerminator(lines[j])
    ensures Pieces(Terminated(lines, "\n")) == lines + [""]
    decreases |lines|
  {
    if |lines| == 0 {
      PiecesEnd("");
    } else {
      var tail := lines[1..];
      assert forall j :: 0 <= j < |tail| ==> tail[j] == lines[j + 1];
      LinesOfTerminated(tail);
      TerminatedConsLF(lines[0], tail);
      assert lines == [lines[0]] + tail;
    }
  }

  /** One more line in front of LF-terminated lines that split back. */
  lemma {:induction false} TerminatedConsLF(line: string, tail: seq<string>)
    requires NoTerminator(line)
    requires Pieces(Terminated(tail, "\n")) == tail + [""]
    ensures Pieces(Terminated([line] + tail, "\n")) == [line] + tail + [""]
  {
    var rest := Terminated(tail, "\n");
    assert ([line] + tail)[0] == line && ([line] + tail)[1..] == tail;
    assert Terminated([line] + tail, "\n") == line + "\n" + rest;
    PiecesLineLF(line, rest);
    assert [line] + (tail + [""]) == [line] + tail + [""];
  }
}
