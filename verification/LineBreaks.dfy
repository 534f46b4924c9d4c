/** Python's `str.splitlines`, and the line ends that reading a program's output as text changes. */
module LineBreaks {

  /** What ends a line for `splitlines`; a carriage return takes a following line feed with it. */
  predicate IsBreak(c: char) {
    || '\n' <= c <= '\r' || '\U{1C}' <= c <= '\U{1E}' || c == '\U{85}' || '\U{2028}' <= c <= '\U{2029}'
  }

  lemma BreaksAre(c: char)
    ensures IsBreak(c) <==> c in {'\n', '\U{B}', '\U{C}', '\r', '\U{1C}', '\U{1D}', '\U{1E}', '\U{85}',
                                  '\U{2028}', '\U{2029}'}
  {
  }

  predicate Whole(s: string) { forall i :: 0 <= i < |s| ==> !IsBreak(s[i]) }

  function LineLength(text: string): (n: nat)
    ensures n <= |text| && Whole(text[..n]) && (n < |text| ==> IsBreak(text[n]))
  {
    if text == "" || IsBreak(text[0]) then 0 else
      var n := LineLength(text[1..]);
      assert text[..n + 1] == [text[0]] + text[1..][..n];
      n + 1
  }

  /** How long the break at the start of the text is. */
  function BreakLength(text: string): (n: nat)
    requires text != ""
    ensures 1 <= n <= |text|
  {
    if text[0] == '\r' && |text| > 1 && text[1] == '\n' then 2 else 1
  }

  /** `str.splitlines`. */
  function Cut(text: string): seq<string>
    decreases |text|
  {
    if text == "" then [] else
      var k := LineLength(text);
      if k == |text| then [text] else [text[..k]] + Cut(text[k..][BreakLength(text[k..])..])
  }

  lemma {:induction false} LengthOfLine(line: string, rest: string)
    requires Whole(line)
    ensures LineLength(line + rest) == |line| + LineLength(rest)
  {
    if line == "" {
      assert line + rest == rest;
    } else {
      LengthOfLine(line[1..], rest);
      assert (line + rest)[1..] == line[1..] + rest;
    }
  }

  lemma {:induction false} CutsAreWhole(text: string)
    ensures forall i :: 0 <= i < |Cut(text)| ==> Whole(Cut(text)[i])
    decreases |text|
  {
    if text != "" {
      var k := LineLength(text);
      if k == |text| {
        assert text[..k] == text;
      } else {
        CutsAreWhole(text[k..][BreakLength(text[k..])..]);
      }
    }
  }

  /** A separator, as it stands before the rest of a text: a carriage return takes a following line
      feed with it. */
  predicate Ends(end: string, rest: string) {
    || end == "\r\n"
    || (|end| == 1 && IsBreak(end[0]) && !(end == "\r" && rest != "" && rest[0] == '\n'))
  }

  lemma CutFirst(line: string, tail: string)
    requires Whole(line) && tail != "" && IsBreak(tail[0])
    ensures Cut(line + tail) == [line] + Cut(tail[BreakLength(tail)..])
  {
    LengthOfLine(line, tail);
    assert (line + tail)[..|line|] == line && (line + tail)[|line|..] == tail;
  }

  /** A whole line and its end are one line of the text. */
  lemma CutLine(line: string, end: string, rest: string)
    requires Whole(line) && Ends(end, rest)
    ensures Cut(line + (end + rest)) == [line] + Cut(rest)
  {
    var tail := end + rest;
    assert tail[0] == end[0] && (|tail| > 1 ==> tail[1] == if |end| == 1 then rest[0] else end[1]);
    assert tail[|end|..] == rest;
    CutFirst(line, tail);
  }

  lemma CutWhole(line: string)
    requires Whole(line) && line != ""
    ensures Cut(line) == [line]
  {
    LengthOfLine(line, "");
    assert line + "" == line && LineLength("") == 0;
  }

  /** A text is its first line, the separator and the rest. */
  lemma Split(text: string) returns (line: string, end: string, rest: string)
    requires LineLength(text) < |text|
    ensures text == line + (end + rest) && Whole(line) && Ends(end, rest)
  {
    var k := LineLength(text);
    var tail := text[k..];
    var b := BreakLength(tail);
    line, end, rest := text[..k], tail[..b], tail[b..];
    assert tail == end + rest;
  }

  lemma Prepend<T>(a: seq<T>, b: seq<T>, c: seq<T>)
    ensures a + (b + c) == (a + b) + c
  {
  }

  /** A line without separators in front of a text only lengthens its first line. */
  lemma CutAfter(start: string, text: string)
    requires Whole(start) && text != ""
    ensures Cut(text) != [] && Cut(start + text) == [start + Cut(text)[0]] + Cut(text)[1..]
  {
    if LineLength(text) == |text| {
      assert text[..|text|] == text;
      CutWhole(text);
      CutWhole(start + text);
    } else {
      var line, end, rest := Split(text);
      CutLine(line, end, rest);
      CutLine(start + line, end, rest);
      Prepend(start, line, end + rest);
    }
  }

  lemma Regroup(line: string, end: string, tail: string, more: string)
    ensures (line + (end + tail)) + more == line + (end + (tail + more))
  {
  }

  lemma CutEnd(line: string, end: string, rest: string)
    requires Whole(line) && Ends(end, rest) && Ends(end, "")
    ensures Cut(line + (end + rest)) == Cut(line + end) + Cut(rest)
  {
    CutLine(line, end, rest);
    CutLine(line, end, "");
    assert end + "" == end;
  }

  /** A line feed ends what came before it. */
  lemma {:induction false} CutConcat(x: string, feed: string, rest: string)
    requires feed == "\n"
    ensures Cut(x + (feed + rest)) == Cut(x + feed) + Cut(rest)
    decreases |x|
  {
    if LineLength(x) == |x| {
      assert x[..|x|] == x;
      CutEnd(x, feed, rest);
    } else {
      var line, end, tail := Split(x);
      Regroup(line, end, tail, feed + rest);
      Regroup(line, end, tail, feed);
      if Ends(end, tail + feed) {
        CutInside(line, end, tail, feed, rest);
        CutConcat(tail, feed, rest);
        Prepend([line], Cut(tail + feed), Cut(rest));
      } else {
        JoinFeed(end, tail, feed);
        JoinFeed(end, tail, feed + rest);
        CutEnd(line, end + feed, rest);
        Prepend(end, feed, rest);
      }
    }
  }

  lemma CutInside(line: string, end: string, tail: string, feed: string, rest: string)
    requires Whole(line) && feed != "" && Ends(end, tail + feed)
    ensures Cut(line + (end + (tail + (feed + rest)))) == [line] + Cut(tail + (feed + rest))
    ensures Cut(line + (end + (tail + feed))) == [line] + Cut(tail + feed)
  {
    assert (tail + (feed + rest))[0] == (tail + feed)[0];
    CutLine(line, end, tail + (feed + rest));
    CutLine(line, end, tail + feed);
  }

  lemma SameEnds(end: string, rest: string, more: string)
    requires rest != ""
    ensures Ends(end, rest + more) == Ends(end, rest)
  {
    assert (rest + more)[0] == rest[0];
  }

  /** Only a carriage return at the very end joins the line feed after it. */
  lemma JoinFeed(end: string, tail: string, more: string)
    requires Ends(end, tail) && more != "" && !Ends(end, tail + more)
    ensures tail == "" && end == "\r" && end + (tail + more) == end + more && more[0] == '\n'
    ensures end + [more[0]] == "\r\n"
  {
    if tail != "" { SameEnds(end, tail, more); }
  }

  /** Lines as a program prints them. */
  function TextOf(lines: seq<string>): string {
    if lines == [] then "" else lines[0] + ("\n" + TextOf(lines[1..]))
  }

  /** What `splitlines` makes of each printed line, one after the other. */
  function Pieces(lines: seq<string>): seq<string> {
    if lines == [] then [] else Cut(lines[0] + "\n") + Pieces(lines[1..])
  }

  lemma {:induction false} CutText(lines: seq<string>)
    ensures Cut(TextOf(lines)) == Pieces(lines)
  {
    if lines != [] {
      CutText(lines[1..]);
      CutConcat(lines[0], "\n", TextOf(lines[1..]));
    }
  }

  lemma {:induction false} PiecesConcat(a: seq<string>, b: seq<string>)
    ensures Pieces(a + b) == Pieces(a) + Pieces(b)
  {
    if a == [] {
      assert a + b == b;
    } else {
      PiecesConcat(a[1..], b);
      assert (a + b)[0] == a[0] && (a + b)[1..] == a[1..] + b;
      Prepend(Cut(a[0] + "\n"), Pieces(a[1..]), Pieces(b));
    }
  }

  /** Reading output as text turns every carriage return, with a line feed after it or not, into a
      line feed. */
  function AsText(output: string): string {
    if output == "" then ""
    else if output[0] == '\r' then "\n" + AsText(output[BreakLength(output)..])
    else [output[0]] + AsText(output[1..])
  }

  lemma {:induction false} AsTextLine(line: string, rest: string)
    requires Whole(line)
    ensures AsText(line + rest) == line + AsText(rest)
  {
    if line == "" {
      assert line + rest == rest;
    } else {
      AsTextLine(line[1..], rest);
      assert (line + rest)[1..] == line[1..] + rest;
      assert [line[0]] + line[1..] == line;
    }
  }

  /** That changes no line. */
  lemma {:induction false} CutAsText(output: string)
    ensures Cut(AsText(output)) == Cut(output)
    decreases |output|
  {
    var k := LineLength(output);
    var line, tail := output[..k], output[k..];
    assert output == line + tail;
    AsTextLine(line, tail);
    if tail != "" {
      var rest := tail[BreakLength(tail)..];
      CutAsText(rest);
      CutFirst(line, tail);
      var b := AsText(tail)[0];
      assert AsText(tail) == [b] + AsText(rest);
      CutFirst(line, AsText(tail));
      assert AsText(tail)[1..] == AsText(rest);
    }
  }
}
