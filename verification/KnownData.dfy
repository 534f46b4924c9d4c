/** The known-data scanner of `scripts/check_client_identifiers.py` and the builder of its list,
    `scripts/build_client_data_list.py`: tokenizer, digests, sliding windows, and what the two
    programs promise each other. */
module KnownData {
  import opened Sequences

  const NGRAM_WORDS: nat := 8
  const MIN_REAL_WORDS: nat := 3

  // ------------------------------------------------------------ words and lines

  predicate IsWordChar(c: char) { 'a' <= c <= 'z' || '0' <= c <= '9' }

  predicate IsWord(w: string) { w != "" && forall i :: 0 <= i < |w| ==> IsWordChar(w[i]) }

  function WordLength(s: string): (n: nat)
    ensures n <= |s|
  {
    if s == "" || !IsWordChar(s[0]) then 0 else 1 + WordLength(s[1..])
  }

  /** The maximal runs of letters and digits of a line in lower case (`[a-z0-9]+`). */
  function Words(line: string): seq<string>
    decreases |line|
  {
    if line == "" then []
    else if !IsWordChar(line[0]) then Words(line[1..])
    else [line[..WordLength(line)]] + Words(line[WordLength(line)..])
  }

  /** `str.split("\n")`. */
  function SplitLines(text: string): (lines: seq<string>)
    ensures lines != []
  {
    if text == "" then [""]
    else if text[0] == '\n' then [""] + SplitLines(text[1..])
    else var rest := SplitLines(text[1..]); [[text[0]] + rest[0]] + rest[1..]
  }

  /** `str.lower`, character by character; a character may become several. */
  datatype Casing = Casing(fold: char -> string) {

    function Lower(text: string): string {
      if text == "" then "" else fold(text[0]) + Lower(text[1..])
    }

    /** What is used of it: line breaks stay and none appear, and ASCII letters and digits become
        the lower-case letter or the digit. */
    ghost predicate Valid() {
      && fold('\n') == "\n"
      && (forall c: char :: c != '\n' ==> '\n' !in fold(c))
      && (forall c: char :: IsWordChar(c) ==> fold(c) == [c])
      && (forall c: char :: 'A' <= c <= 'Z' ==> fold(c) == ['a' + (c - 'A')])
    }
  }

  datatype Tagged = Tagged(word: string, line: nat)

  function TagAll(words: seq<string>, line: nat): (r: seq<Tagged>)
    ensures |r| == |words| && forall i :: 0 <= i < |r| ==> r[i] == Tagged(words[i], line)
  {
    seq(|words|, i requires 0 <= i < |words| => Tagged(words[i], line))
  }

  /** The words of each line, tagged with line numbers from `first` on. */
  function TaggedFrom(lines: seq<string>, first: nat): seq<Tagged> {
    if lines == [] then [] else TagAll(Words(lines[0]), first) + TaggedFrom(lines[1..], first + 1)
  }

  function NormalizedWords(casing: Casing, text: string): seq<Tagged> {
    TaggedFrom(SplitLines(casing.Lower(text)), 1)
  }

  lemma TaggedStep(found: seq<Tagged>, lines: seq<string>, k: nat)
    requires k < |lines|
    ensures found + TaggedFrom(lines[k..], k + 1)
         == found + TagAll(Words(lines[k]), k + 1) + TaggedFrom(lines[k + 1..], k + 2)
  {
    assert lines[k..][1..] == lines[k + 1..];
  }

  /** `normalized_words`, as the loop over the lines. */
  method ReadWords(casing: Casing, text: string) returns (found: seq<Tagged>)
    ensures found == NormalizedWords(casing, text)
  {
    var lines := SplitLines(casing.Lower(text));
    found := [];
    for k := 0 to |lines|
      invariant found + TaggedFrom(lines[k..], k + 1) == NormalizedWords(casing, text)
    {
      TaggedStep(found, lines, k);
      found := found + TagAll(Words(lines[k]), k + 1);
    }
    assert found + [] == found;
  }

  function PlainWords(words: seq<Tagged>): seq<string> {
    seq(|words|, i requires 0 <= i < |words| => words[i].word)
  }

  /** `words_of`. */
  function WordsOf(casing: Casing, text: string): seq<string> {
    PlainWords(NormalizedWords(casing, text))
  }

  lemma {:induction false} WordsAreWords(line: string)
    ensures forall i :: 0 <= i < |Words(line)| ==> IsWord(Words(line)[i])
    decreases |line|
  {
    if line != "" {
      if IsWordChar(line[0]) {
        RunOfWordChars(line);
        WordsAreWords(line[WordLength(line)..]);
      } else {
        WordsAreWords(line[1..]);
      }
    }
  }

  lemma {:induction false} RunOfWordChars(s: string)
    ensures forall i :: 0 <= i < WordLength(s) ==> IsWordChar(s[i])
  {
    if s != "" && IsWordChar(s[0]) {
      RunOfWordChars(s[1..]);
      assert forall i :: 0 < i < |s| ==> s[i] == s[1..][i - 1];
    }
  }

  /** Every tagged word is a word of its line, and line numbers are in range. */
  ghost predicate OnTheirLines(lines: seq<string>, first: nat, ws: seq<Tagged>) {
    forall i :: 0 <= i < |ws| ==> first <= ws[i].line < first + |lines|
                                  && ws[i].word in Words(lines[ws[i].line - first]) && IsWord(ws[i].word)
  }

  /** Line numbers never decrease. */
  ghost predicate LinesInOrder(ws: seq<Tagged>) {
    forall i, j :: 0 <= i <= j < |ws| ==> ws[i].line <= ws[j].line
  }

  lemma {:induction false} TagsInOrder(lines: seq<string>, first: nat)
    ensures OnTheirLines(lines, first, TaggedFrom(lines, first)) && LinesInOrder(TaggedFrom(lines, first))
  {
    if lines != [] {
      TagsInOrder(lines[1..], first + 1);
      WordsAreWords(lines[0]);
      var head, rest := TagAll(Words(lines[0]), first), TaggedFrom(lines[1..], first + 1);
      var ws := head + rest;
      forall i | 0 <= i < |ws|
        ensures first <= ws[i].line < first + |lines|
                && ws[i].word in Words(lines[ws[i].line - first]) && IsWord(ws[i].word)
      {
        if i < |head| {
          assert head[i].word == Words(lines[0])[i];
        } else {
          var t := rest[i - |head|];
          assert lines[1..][t.line - (first + 1)] == lines[t.line - first];
        }
      }
      forall i, j | 0 <= i <= j < |ws| ensures ws[i].line <= ws[j].line {
        if i < |head| <= j { assert rest[j - |head|].line >= first + 1; }
      }
    }
  }

  // ------------------------------------------------------------ what cannot hide a run

  /** A line in pieces: a separator and a word, over and over, then a last separator. */
  datatype Piece = Piece(separator: string, word: string)
  datatype Line = Line(pieces: seq<Piece>, tail: string)

  predicate IsAsciiWord(w: string) {
    w != "" && forall i :: 0 <= i < |w| ==> 'a' <= w[i] <= 'z' || 'A' <= w[i] <= 'Z' || '0' <= w[i] <= '9'
  }

  predicate IsLowerOrDigit(c: char) { 'a' <= c <= 'z' || '0' <= c <= '9' }

  /** No line break, and nothing that becomes a letter or a digit. */
  predicate Separates(casing: Casing, s: string) {
    forall i :: 0 <= i < |s| ==>
      s[i] != '\n' && forall k :: 0 <= k < |casing.fold(s[i])| ==> !IsLowerOrDigit(casing.fold(s[i])[k])
  }

  predicate WellSeparated(casing: Casing, line: Line) {
    && Separates(casing, line.tail)
    && forall i :: 0 <= i < |line.pieces| ==>
         && IsAsciiWord(line.pieces[i].word) && Separates(casing, line.pieces[i].separator)
         && (i > 0 ==> casing.Lower(line.pieces[i].separator) != "")
  }

  function Written(line: Line): string
    decreases |line.pieces|
  {
    if line.pieces == [] then line.tail else
      line.pieces[0].separator + line.pieces[0].word + Written(Line(line.pieces[1..], line.tail))
  }

  function LowerWords(casing: Casing, line: Line): seq<string> {
    seq(|line.pieces|, i requires 0 <= i < |line.pieces| => casing.Lower(line.pieces[i].word))
  }

  lemma {:induction false} LowerConcat(casing: Casing, a: string, b: string)
    ensures casing.Lower(a + b) == casing.Lower(a) + casing.Lower(b)
  {
    if a == "" {
      assert a + b == b;
    } else {
      LowerConcat(casing, a[1..], b);
      assert (a + b)[1..] == a[1..] + b;
    }
  }

  lemma {:induction false} LowerWord(casing: Casing, w: string)
    requires casing.Valid() && forall i :: 0 <= i < |w| ==> IsWordChar(w[i]) || 'A' <= w[i] <= 'Z'
    ensures |casing.Lower(w)| == |w| && forall i :: 0 <= i < |w| ==> IsWordChar(casing.Lower(w)[i])
  {
    if w != "" {
      LowerWord(casing, w[1..]);
      assert |casing.fold(w[0])| == 1 && IsWordChar(casing.fold(w[0])[0]);
    }
  }

  lemma {:induction false} LowerSeparator(casing: Casing, s: string)
    requires casing.Valid() && Separates(casing, s)
    ensures forall i :: 0 <= i < |casing.Lower(s)| ==> !IsWordChar(casing.Lower(s)[i])
    ensures '\n' !in casing.Lower(s)
  {
    if s != "" { LowerSeparator(casing, s[1..]); }
  }

  lemma {:induction false} SkipSeparator(s: string, rest: string)
    requires forall i :: 0 <= i < |s| ==> !IsWordChar(s[i])
    ensures Words(s + rest) == Words(rest)
  {
    if s == "" {
      assert s + rest == rest;
    } else {
      SkipSeparator(s[1..], rest);
      assert (s + rest)[1..] == s[1..] + rest;
    }
  }

  lemma {:induction false} LengthOfWord(w: string, rest: string)
    requires forall i :: 0 <= i < |w| ==> IsWordChar(w[i])
    requires rest == "" || !IsWordChar(rest[0])
    ensures WordLength(w + rest) == |w|
  {
    if w == "" {
      assert w + rest == rest;
    } else {
      LengthOfWord(w[1..], rest);
      assert (w + rest)[1..] == w[1..] + rest;
    }
  }

  lemma TakeWord(w: string, rest: string)
    requires IsWord(w) && (rest == "" || !IsWordChar(rest[0]))
    ensures Words(w + rest) == [w] + Words(rest)
  {
    LengthOfWord(w, rest);
    assert (w + rest)[0] == w[0] && (w + rest)[..|w|] == w && (w + rest)[|w|..] == rest;
  }

  /** However its words are separated and cased, a written line reads as its words. */
  lemma {:induction false} WordsOfWritten(casing: Casing, line: Line)
    requires casing.Valid() && WellSeparated(casing, line)
    ensures Words(casing.Lower(Written(line))) == LowerWords(casing, line)
    ensures '\n' !in casing.Lower(Written(line))
    decreases |line.pieces|
  {
    if line.pieces == [] {
      LowerSeparator(casing, line.tail);
      SkipSeparator(casing.Lower(line.tail), "");
      assert casing.Lower(line.tail) + "" == casing.Lower(line.tail);
    } else {
      var p, next := line.pieces[0], Line(line.pieces[1..], line.tail);
      LowerWritten(casing, line);
      LowerSeparator(casing, p.separator);
      LowerWord(casing, p.word);
      WordsOfWritten(casing, next);
      RestStartsApart(casing, next);
      ReadPiece(casing.Lower(p.separator), casing.Lower(p.word), casing.Lower(Written(next)));
      LowerWordsFirst(casing, line);
    }
  }

  lemma LowerWordsFirst(casing: Casing, line: Line)
    requires line.pieces != []
    ensures LowerWords(casing, line)
         == [casing.Lower(line.pieces[0].word)] + LowerWords(casing, Line(line.pieces[1..], line.tail))
  {
  }

  lemma LowerWritten(casing: Casing, line: Line)
    requires line.pieces != []
    ensures casing.Lower(Written(line))
         == casing.Lower(line.pieces[0].separator)
            + (casing.Lower(line.pieces[0].word) + casing.Lower(Written(Line(line.pieces[1..], line.tail))))
  {
    var p, rest := line.pieces[0], Written(Line(line.pieces[1..], line.tail));
    LowerConcat(casing, p.separator + p.word, rest);
    LowerConcat(casing, p.separator, p.word);
  }

  lemma ReadPiece(separator: string, w: string, rest: string)
    requires forall i :: 0 <= i < |separator| ==> !IsWordChar(separator[i])
    requires IsWord(w) && (rest == "" || !IsWordChar(rest[0]))
    ensures Words(separator + (w + rest)) == [w] + Words(rest)
  {
    SkipSeparator(separator, w + rest);
    TakeWord(w, rest);
  }

  lemma RestStartsApart(casing: Casing, line: Line)
    requires casing.Valid() && Separates(casing, line.tail)
    requires forall i :: 0 <= i < |line.pieces| ==> Separates(casing, line.pieces[i].separator)
    requires line.pieces != [] ==> casing.Lower(line.pieces[0].separator) != ""
    ensures var s := casing.Lower(Written(line)); s == "" || !IsWordChar(s[0])
  {
    if line.pieces == [] {
      LowerSeparator(casing, line.tail);
    } else {
      var p := line.pieces[0];
      LowerSeparator(casing, p.separator);
      LowerWritten(casing, line);
    }
  }

  /** `"\n".join(lines)`. */
  function JoinLines(lines: seq<string>): string {
    if lines == [] then "" else if |lines| == 1 then lines[0] else lines[0] + "\n" + JoinLines(lines[1..])
  }

  lemma {:induction false} SplitOne(line: string, rest: string)
    requires '\n' !in line
    ensures SplitLines(line + "\n" + rest) == [line] + SplitLines(rest)
    ensures SplitLines(line) == [line]
  {
    if line == "" {
      assert line + "\n" + rest == "\n" + rest && ("\n" + rest)[1..] == rest;
    } else {
      SplitOne(line[1..], rest);
      assert (line + "\n" + rest)[1..] == line[1..] + "\n" + rest;
      assert [line[0]] + line[1..] == line;
    }
  }

  lemma {:induction false} SplitJoined(lines: seq<string>)
    requires lines != [] && forall i :: 0 <= i < |lines| ==> '\n' !in lines[i]
    ensures SplitLines(JoinLines(lines)) == lines
  {
    SplitOne(lines[0], JoinLines(lines[1..]));
    if |lines| > 1 { SplitJoined(lines[1..]); }
  }

  function LowerAll(casing: Casing, lines: seq<string>): seq<string> {
    seq(|lines|, i requires 0 <= i < |lines| => casing.Lower(lines[i]))
  }

  lemma {:induction false} LowerJoined(casing: Casing, lines: seq<string>)
    requires casing.Valid()
    ensures casing.Lower(JoinLines(lines)) == JoinLines(LowerAll(casing, lines))
  {
    if |lines| > 1 {
      LowerJoined(casing, lines[1..]);
      LowerConcat(casing, lines[0] + "\n", JoinLines(lines[1..]));
      LowerConcat(casing, lines[0], "\n");
      assert casing.Lower("\n") == "\n";
      assert LowerAll(casing, lines)[1..] == LowerAll(casing, lines[1..]);
    }
  }

  lemma {:induction false} BreaksStay(casing: Casing, s: string)
    requires casing.Valid()
    ensures '\n' in s <==> '\n' in casing.Lower(s)
  {
    if s != "" {
      BreaksStay(casing, s[1..]);
      assert s == [s[0]] + s[1..];
      assert '\n' in casing.fold(s[0]) <==> s[0] == '\n';
    }
  }

  /** Joined lines read as the words of each line, tagged with its place. */
  lemma WordsOfJoined(casing: Casing, lines: seq<string>)
    requires casing.Valid() && lines != [] && forall i :: 0 <= i < |lines| ==> '\n' !in lines[i]
    ensures NormalizedWords(casing, JoinLines(lines)) == TaggedFrom(LowerAll(casing, lines), 1)
  {
    LowerJoined(casing, lines);
    forall i | 0 <= i < |lines| ensures '\n' !in LowerAll(casing, lines)[i] { BreaksStay(casing, lines[i]); }
    SplitJoined(LowerAll(casing, lines));
  }

  function WrittenAll(lines: seq<Line>): seq<string> {
    seq(|lines|, i requires 0 <= i < |lines| => Written(lines[i]))
  }

  /** The words of each written line in lower case, tagged with its number. */
  function Read(casing: Casing, lines: seq<Line>, first: nat): seq<Tagged> {
    if lines == [] then [] else TagAll(LowerWords(casing, lines[0]), first) + Read(casing, lines[1..], first + 1)
  }

  lemma {:induction false} TaggedWritten(casing: Casing, lines: seq<Line>, first: nat)
    requires casing.Valid() && forall i :: 0 <= i < |lines| ==> WellSeparated(casing, lines[i])
    ensures TaggedFrom(LowerAll(casing, WrittenAll(lines)), first) == Read(casing, lines, first)
  {
    if lines != [] {
      WordsOfWritten(casing, lines[0]);
      TaggedWritten(casing, lines[1..], first + 1);
      assert LowerAll(casing, WrittenAll(lines))[1..] == LowerAll(casing, WrittenAll(lines[1..]));
    }
  }

  /** Only words and lines matter: the scanner reads a text as its lower-case words and their
      lines, whatever separates the words and whatever case their letters have. */
  lemma SeparatorsDoNotMatter(casing: Casing, lines: seq<Line>)
    requires casing.Valid() && lines != [] && forall i :: 0 <= i < |lines| ==> WellSeparated(casing, lines[i])
    ensures NormalizedWords(casing, JoinLines(WrittenAll(lines))) == Read(casing, lines, 1)
  {
    forall i | 0 <= i < |lines| ensures '\n' !in WrittenAll(lines)[i] {
      WordsOfWritten(casing, lines[i]);
      BreaksStay(casing, Written(lines[i]));
    }
    WordsOfJoined(casing, WrittenAll(lines));
    TaggedWritten(casing, lines, 1);
  }

  // ------------------------------------------------------------ digests and windows

  /** blake2b, taken to be free of collisions: a digest is its salt and text, wrapped. */
  datatype Digest = Blake2b(salt: string, text: string)

  function JoinSpace(words: seq<string>): string {
    if words == [] then "" else if |words| == 1 then words[0] else words[0] + " " + JoinSpace(words[1..])
  }

  function DigestOf(salt: string, words: seq<string>): Digest { Blake2b(salt, JoinSpace(words)) }

  ghost predicate AllWords(run: seq<string>) { forall i :: 0 <= i < |run| ==> IsWord(run[i]) }

  lemma {:induction false} WordsOfJoin(run: seq<string>)
    requires AllWords(run)
    ensures Words(JoinSpace(run)) == run
  {
    if |run| == 1 {
      TakeWord(run[0], "");
      assert run[0] + "" == run[0];
    } else if |run| > 1 {
      WordsOfJoin(run[1..]);
      SkipSeparator(" ", JoinSpace(run[1..]));
      TakeWord(run[0], " " + JoinSpace(run[1..]));
      assert JoinSpace(run) == run[0] + (" " + JoinSpace(run[1..]));
    }
  }

  /** Different runs of words have different digests: words never hold the joining space. */
  lemma DigestsDiffer(salt: string, a: seq<string>, b: seq<string>)
    requires AllWords(a) && AllWords(b) && DigestOf(salt, a) == DigestOf(salt, b)
    ensures a == b
  {
    WordsOfJoin(a);
    WordsOfJoin(b);
  }

  function Window(words: seq<string>, i: nat, size: nat): (r: seq<string>)
    requires i + size <= |words|
    ensures |r| == size && forall k :: 0 <= k < size ==> r[k] == words[i + k]
  {
    words[i..i + size]
  }

  datatype Hit = Hit(line: nat, size: nat)

  datatype KnownList = KnownList(salt: string, lengths: seq<nat>, digests: set<Digest>,
                                 exceptions: set<(string, Digest)>) {

    ghost predicate Valid() { forall k :: 0 <= k < |lengths| ==> lengths[k] > 0 }

    /** The test inside the loops of `find`. */
    predicate Reports(words: seq<Tagged>, path: string, i: nat, size: nat)
      requires size > 0 && i + size <= |words|
    {
      var code := DigestOf(salt, Window(PlainWords(words), i, size));
      && code in digests
      && (path, code) !in exceptions
      && (size >= NGRAM_WORDS || words[i].line == words[i + size - 1].line)
    }

    /** The hits of one size among the first `n` windows. */
    function HitsOfSize(words: seq<Tagged>, path: string, size: nat, n: nat): seq<Hit>
      requires size > 0 && (n > 0 ==> n - 1 + size <= |words|)
    {
      if n == 0 then [] else
        HitsOfSize(words, path, size, n - 1)
        + if Reports(words, path, n - 1, size) then [Hit(words[n - 1].line, size)] else []
    }

    /** The hits of the first `k` sizes. */
    function Hits(words: seq<Tagged>, path: string, k: nat): seq<Hit>
      requires Valid() && k <= |lengths|
    {
      if k == 0 then [] else
        Hits(words, path, k - 1) + HitsOfSize(words, path, lengths[k - 1], Windows(words, lengths[k - 1]))
    }

    /** `KnownData.find`: sizes outside, windows inside. */
    method Find(casing: Casing, text: string, path: string) returns (hits: seq<Hit>)
      requires Valid()
      ensures hits == Hits(NormalizedWords(casing, text), path, |lengths|)
    {
      var words := ReadWords(casing, text);
      hits := [];
      for k := 0 to |lengths|
        invariant hits == Hits(words, path, k)
      {
        var more := FindSize(words, path, lengths[k]);
        hits := hits + more;
      }
    }

    method FindSize(words: seq<Tagged>, path: string, size: nat) returns (hits: seq<Hit>)
      requires size > 0
      ensures hits == HitsOfSize(words, path, size, Windows(words, size))
    {
      hits := [];
      var plain := PlainWords(words);
      for i := 0 to Windows(words, size)
        invariant hits == HitsOfSize(words, path, size, i)
      {
        var code := DigestOf(salt, Window(plain, i, size));
        if code !in digests || (path, code) in exceptions { continue; }
        if size >= NGRAM_WORDS || words[i].line == words[i + size - 1].line {
          hits := hits + [Hit(words[i].line, size)];
        }
      }
    }
  }

  function Windows(words: seq<Tagged>, size: nat): nat {
    if size <= |words| then |words| - size + 1 else 0
  }

  /** Window `i` is reported and gives this hit. */
  ghost predicate HitAt(known: KnownList, words: seq<Tagged>, path: string, h: Hit, i: nat) {
    h.size > 0 && i + h.size <= |words| && known.Reports(words, path, i, h.size) && h.line == words[i].line
  }

  lemma {:induction false} HitOfSize(known: KnownList, words: seq<Tagged>, path: string, size: nat, n: nat, h: Hit)
    requires size > 0 && (n > 0 ==> n - 1 + size <= |words|)
    ensures h in known.HitsOfSize(words, path, size, n)
       <==> h.size == size && exists i: nat :: i < n && HitAt(known, words, path, h, i)
  {
    if n > 0 {
      HitOfSize(known, words, path, size, n - 1, h);
      assert HitAt(known, words, path, Hit(words[n - 1].line, size), n - 1)
        <==> known.Reports(words, path, n - 1, size);
    }
  }

  /** `find` returns the hits of the reported windows of the listed sizes, and no others. */
  lemma {:induction false} HitIn(known: KnownList, words: seq<Tagged>, path: string, k: nat, h: Hit)
    requires known.Valid() && k <= |known.lengths|
    ensures h in known.Hits(words, path, k)
       <==> h.size in known.lengths[..k] && exists i: nat :: HitAt(known, words, path, h, i)
  {
    if k > 0 {
      var size := known.lengths[k - 1];
      HitIn(known, words, path, k - 1, h);
      HitOfSize(known, words, path, size, Windows(words, size), h);
      assert known.lengths[..k] == known.lengths[..k - 1] + [size];
      assert forall i: nat :: h.size == size && HitAt(known, words, path, h, i) ==> i < Windows(words, size);
    }
  }

  // ------------------------------------------------------------ the builder

  /** What the owner's machine feeds the builder. */
  datatype Inputs = Inputs(tokens: seq<string>, clientTexts: seq<string>, standardTexts: seq<string>,
                           allowPhrases: seq<string>)

  /** All runs of eight words (`runs`). */
  ghost function Runs(words: seq<string>): set<seq<string>> {
    set i: nat | i <= |words| - NGRAM_WORDS :: Window(words, i, NGRAM_WORDS)
  }

  ghost function RunsOf(casing: Casing, texts: seq<string>): set<seq<string>> {
    if texts == [] then {} else Runs(WordsOf(casing, texts[0])) + RunsOf(casing, texts[1..])
  }

  predicate IsReal(w: string) { |w| > 1 && forall i :: 0 <= i < |w| ==> !('0' <= w[i] <= '9') }

  function RealWords(run: seq<string>): nat {
    if run == [] then 0 else
      var last := |run| - 1;
      RealWords(run[..last]) + if IsReal(run[last]) then 1 else 0
  }

  predicate IsWording(run: seq<string>) { RealWords(run) >= MIN_REAL_WORDS }

  ghost function TokenRuns(casing: Casing, tokens: seq<string>): set<seq<string>> {
    set t | t in tokens && WordsOf(casing, t) != [] :: WordsOf(casing, t)
  }

  /** The runs that `build` lists: every token's words, and every client run that is wording and
      is neither a standard's nor allowed. */
  ghost function Listed(casing: Casing, inputs: Inputs): set<seq<string>> {
    TokenRuns(casing, inputs.tokens)
    + set r | r in RunsOf(casing, inputs.clientTexts) - RunsOf(casing, inputs.standardTexts)
                   - RunsOf(casing, inputs.allowPhrases) && IsWording(r)
  }

  /** The places of a run that hold a word of two letters or more. */
  ghost function RealAt(run: seq<string>): set<nat> {
    set i: nat | i < |run| && |run[i]| >= 2 && forall k :: 0 <= k < |run[i]| ==> run[i][k] < '0' || run[i][k] > '9'
  }

  lemma {:induction false} RealWordsCounted(run: seq<string>)
    ensures RealWords(run) == |RealAt(run)|
  {
    if run == [] {
      assert RealAt(run) == {};
    } else {
      var n := |run| - 1;
      RealWordsCounted(run[..n]);
      OneMoreReal(run, n);
    }
  }

  lemma OneMoreReal(run: seq<string>, n: nat)
    requires |run| == n + 1
    ensures |RealAt(run)| == |RealAt(run[..n])| + if IsReal(run[n]) then 1 else 0
  {
    var before := RealAt(run[..n]);
    assert n !in before;
    assert RealAt(run) == if IsReal(run[n]) then before + {n} else before;
  }

  /** The words from place `i` on begin with the run. */
  ghost predicate BeginsAt(words: seq<string>, i: nat, run: seq<string>) { i <= |words| && run <= words[i..] }

  /** The run stands somewhere in one of the texts. */
  ghost predicate Occurs(casing: Casing, texts: seq<string>, run: seq<string>) {
    exists t, i: nat :: t in texts && BeginsAt(WordsOf(casing, t), i, run)
  }

  lemma RunBegins(words: seq<string>, run: seq<string>)
    ensures run in Runs(words) <==> |run| == 8 && exists i: nat :: BeginsAt(words, i, run)
  {
    if i: nat :| i <= |words| - 8 && Window(words, i, 8) == run {
      assert words[i..][..8] == words[i..i + 8];
      assert BeginsAt(words, i, run);
    }
    if i: nat :| BeginsAt(words, i, run) && |run| == 8 {
      assert words[i..][..8] == words[i..i + 8];
      assert Window(words, i, 8) == run;
    }
  }

  lemma {:induction false} RunsOccur(casing: Casing, texts: seq<string>, run: seq<string>)
    ensures run in RunsOf(casing, texts) <==> |run| == 8 && Occurs(casing, texts, run)
  {
    if texts != [] {
      RunBegins(WordsOf(casing, texts[0]), run);
      RunsOccur(casing, texts[1..], run);
      OccursFirst(casing, texts, run);
    }
  }

  lemma OccursFirst(casing: Casing, texts: seq<string>, run: seq<string>)
    requires texts != []
    ensures Occurs(casing, texts, run)
       <==> Occurs(casing, texts[1..], run) || exists i: nat :: BeginsAt(WordsOf(casing, texts[0]), i, run)
  {
    if t, i: nat :| t in texts && BeginsAt(WordsOf(casing, t), i, run) {
      if t != texts[0] { assert t in texts[1..]; }
    }
    if i: nat :| BeginsAt(WordsOf(casing, texts[0]), i, run) { assert texts[0] in texts; }
  }

  /** Listed are the words of every token that has any, and the runs of eight words that stand in a
      client text, in no standard and in no allowed phrase, with at least three words of two letters
      or more and no digit. */
  lemma ListedMeans(casing: Casing, inputs: Inputs, run: seq<string>)
    ensures run in Listed(casing, inputs)
       <==> || (run != [] && exists t :: t in inputs.tokens && WordsOf(casing, t) == run)
            || (&& |run| == 8 && Occurs(casing, inputs.clientTexts, run)
                && !Occurs(casing, inputs.standardTexts, run) && !Occurs(casing, inputs.allowPhrases, run)
                && |RealAt(run)| >= 3)
  {
    RunsOccur(casing, inputs.clientTexts, run);
    RunsOccur(casing, inputs.standardTexts, run);
    RunsOccur(casing, inputs.allowPhrases, run);
    RealWordsCounted(run);
  }

  ghost function Least(s: set<nat>): (m: nat)
    requires s != {}
    ensures m in s && forall n :: n in s ==> m <= n
  {
    var some: nat :| some in s;
    SomeLeast(s, some);
    var m: nat :| m in s && forall n :: n in s ==> m <= n;
    m
  }

  /** `sorted` on a set of numbers. */
  ghost function Ascending(s: set<nat>): (r: seq<nat>)
    ensures forall n :: n in r <==> n in s
  {
    if s == {} then [] else [Least(s)] + Ascending(s - {Least(s)})
  }

  lemma {:induction false} AscendingIncreases(s: set<nat>)
    ensures Increasing(Ascending(s))
  {
    if s != {} {
      var rest := Ascending(s - {Least(s)});
      AscendingIncreases(s - {Least(s)});
      assert forall i :: 0 <= i < |rest| ==> rest[i] in rest;
    }
  }

  lemma {:induction false} SomeLeast(s: set<nat>, m: nat)
    requires m in s
    ensures exists least: nat :: least in s && forall n :: n in s ==> least <= n
    decreases m
  {
    if n: nat :| n in s && n < m { SomeLeast(s, n); }
  }

  /** `build`, with the exceptions the scanner loads beside it. */
  ghost function Build(casing: Casing, inputs: Inputs, salt: string, exceptions: set<(string, Digest)>): KnownList {
    var listed := Listed(casing, inputs);
    KnownList(salt, Ascending(set r | r in listed :: |r|), set r | r in listed :: DigestOf(salt, r), exceptions)
  }

  lemma WordsOfAreWords(casing: Casing, text: string)
    ensures AllWords(WordsOf(casing, text)) && LinesInOrder(NormalizedWords(casing, text))
  {
    TagsInOrder(SplitLines(casing.Lower(text)), 1);
  }

  lemma {:induction false} RunsAreWords(casing: Casing, texts: seq<string>, r: seq<string>)
    requires r in RunsOf(casing, texts)
    ensures AllWords(r) && |r| == NGRAM_WORDS
  {
    if r in Runs(WordsOf(casing, texts[0])) {
      WordsOfAreWords(casing, texts[0]);
    } else {
      RunsAreWords(casing, texts[1..], r);
    }
  }

  lemma ListedAreWords(casing: Casing, inputs: Inputs, r: seq<string>)
    requires r in Listed(casing, inputs)
    ensures AllWords(r) && r != []
  {
    if r in TokenRuns(casing, inputs.tokens) {
      var t :| t in inputs.tokens && WordsOf(casing, t) == r;
      WordsOfAreWords(casing, t);
    } else {
      RunsAreWords(casing, inputs.clientTexts, r);
    }
  }

  /** A run of words has a listed digest exactly when it is listed. */
  lemma DigestListed(casing: Casing, inputs: Inputs, salt: string, exceptions: set<(string, Digest)>, run: seq<string>)
    requires AllWords(run)
    ensures DigestOf(salt, run) in Build(casing, inputs, salt, exceptions).digests <==> run in Listed(casing, inputs)
  {
    if DigestOf(salt, run) in Build(casing, inputs, salt, exceptions).digests {
      var r :| r in Listed(casing, inputs) && DigestOf(salt, r) == DigestOf(salt, run);
      ListedAreWords(casing, inputs, r);
      DigestsDiffer(salt, run, r);
    }
  }

  /** The lengths that `build` writes are the lengths of the listed runs, ascending, none zero. */
  lemma BuiltLengths(casing: Casing, inputs: Inputs, salt: string, exceptions: set<(string, Digest)>)
    ensures var known := Build(casing, inputs, salt, exceptions);
            && known.Valid() && Increasing(known.lengths)
            && forall n :: n in known.lengths <==> exists r :: r in Listed(casing, inputs) && |r| == n
  {
    var known := Build(casing, inputs, salt, exceptions);
    AscendingIncreases(set r | r in Listed(casing, inputs) :: |r|);
    forall k | 0 <= k < |known.lengths| ensures known.lengths[k] > 0 {
      assert known.lengths[k] in known.lengths;
      var r :| r in Listed(casing, inputs) && |r| == known.lengths[k];
      ListedAreWords(casing, inputs, r);
    }
  }

  /** All the words of the window are on one line. */
  ghost predicate OnOneLine(words: seq<Tagged>, i: nat, size: nat)
    requires i + size <= |words|
  {
    forall k :: i <= k < i + size ==> words[k].line == words[i].line
  }

  lemma EndsOnOneLine(words: seq<Tagged>, i: nat, size: nat)
    requires LinesInOrder(words) && size > 0 && i + size <= |words|
    ensures OnOneLine(words, i, size) <==> words[i].line == words[i + size - 1].line
  {
  }

  /** What the two programs are for: the words of window `i` are a listed run, not excepted for this
      path, and long enough or all on one line. */
  ghost predicate Known(casing: Casing, inputs: Inputs, salt: string, exceptions: set<(string, Digest)>,
                        words: seq<Tagged>, path: string, i: nat, size: nat)
    requires i + size <= |words|
  {
    var run := Window(PlainWords(words), i, size);
    && run in Listed(casing, inputs)
    && (path, DigestOf(salt, run)) !in exceptions
    && (size >= NGRAM_WORDS || OnOneLine(words, i, size))
  }

  lemma WindowAgrees(casing: Casing, inputs: Inputs, salt: string, exceptions: set<(string, Digest)>,
                     text: string, path: string, i: nat, size: nat)
    requires size > 0 && i + size <= |NormalizedWords(casing, text)|
    ensures Build(casing, inputs, salt, exceptions).Reports(NormalizedWords(casing, text), path, i, size)
       <==> Known(casing, inputs, salt, exceptions, NormalizedWords(casing, text), path, i, size)
  {
    var words := NormalizedWords(casing, text);
    WordsOfAreWords(casing, text);
    assert AllWords(Window(PlainWords(words), i, size));
    DigestListed(casing, inputs, salt, exceptions, Window(PlainWords(words), i, size));
    EndsOnOneLine(words, i, size);
  }

  /** Builder and scanner agree: over a built list, `find` reports a hit exactly when some window
      of that many words, starting on that line, is known. */
  lemma BuilderScannerAgree(casing: Casing, inputs: Inputs, salt: string, exceptions: set<(string, Digest)>,
                            text: string, path: string, h: Hit)
    ensures Build(casing, inputs, salt, exceptions).Valid()
    ensures var known := Build(casing, inputs, salt, exceptions);
            var words := NormalizedWords(casing, text);
            h in known.Hits(words, path, |known.lengths|)
            <==> exists i: nat :: h.size > 0 && i + h.size <= |words| && words[i].line == h.line
                   && Known(casing, inputs, salt, exceptions, words, path, i, h.size)
  {
    BuiltLengths(casing, inputs, salt, exceptions);
    var known := Build(casing, inputs, salt, exceptions);
    var words := NormalizedWords(casing, text);
    HitIn(known, words, path, |known.lengths|, h);
    assert known.lengths[..|known.lengths|] == known.lengths;
    if i: nat :| HitAt(known, words, path, h, i) {
      WindowAgrees(casing, inputs, salt, exceptions, text, path, i, h.size);
    }
    if i: nat :| h.size > 0 && i + h.size <= |words| && words[i].line == h.line
                 && Known(casing, inputs, salt, exceptions, words, path, i, h.size)
    {
      WindowAgrees(casing, inputs, salt, exceptions, text, path, i, h.size);
      assert HitAt(known, words, path, h, i);
      assert |Window(PlainWords(words), i, h.size)| == h.size;
    }
  }

  // ------------------------------------------------------------ nothing hides a run

  function Small(c: char): char { if 'A' <= c <= 'Z' then 'a' + (c - 'A') else c }

  /** The same words in the same order, letters in any case. */
  ghost predicate SameWords(a: Line, b: Line) {
    && |a.pieces| == |b.pieces|
    && forall k :: 0 <= k < |a.pieces| ==> SameLetters(a.pieces[k].word, b.pieces[k].word)
  }

  ghost predicate SameLetters(v: string, w: string) {
    |v| == |w| && forall i :: 0 <= i < |v| ==> Small(v[i]) == Small(w[i])
  }

  lemma {:induction false} SameLower(casing: Casing, v: string, w: string)
    requires casing.Valid() && IsAsciiWord(v) && IsAsciiWord(w) && SameLetters(v, w)
    ensures casing.Lower(v) == casing.Lower(w)
  {
    assert casing.fold(v[0]) == [Small(v[0])] && casing.fold(w[0]) == [Small(w[0])];
    if |v| > 1 {
      SameLower(casing, v[1..], w[1..]);
    }
  }

  lemma SameLine(casing: Casing, a: Line, b: Line)
    requires casing.Valid() && WellSeparated(casing, a) && WellSeparated(casing, b) && SameWords(a, b)
    ensures LowerWords(casing, a) == LowerWords(casing, b)
  {
    forall k | 0 <= k < |a.pieces| ensures casing.Lower(a.pieces[k].word) == casing.Lower(b.pieces[k].word) {
      SameLower(casing, a.pieces[k].word, b.pieces[k].word);
    }
  }

  lemma {:induction false} SameRead(casing: Casing, a: seq<Line>, b: seq<Line>, first: nat)
    requires |a| == |b| && forall i :: 0 <= i < |a| ==> LowerWords(casing, a[i]) == LowerWords(casing, b[i])
    ensures Read(casing, a, first) == Read(casing, b, first)
  {
    if a != [] { SameRead(casing, a[1..], b[1..], first + 1); }
  }

  /** Other separators, or other case, between and in the same words of each line change no hit. */
  lemma SameWordsSameHits(known: KnownList, casing: Casing, a: seq<Line>, b: seq<Line>, path: string)
    requires known.Valid() && casing.Valid() && |a| == |b| > 0
    requires forall i :: 0 <= i < |a| ==>
               WellSeparated(casing, a[i]) && WellSeparated(casing, b[i]) && SameWords(a[i], b[i])
    ensures known.Hits(NormalizedWords(casing, JoinLines(WrittenAll(a))), path, |known.lengths|)
         == known.Hits(NormalizedWords(casing, JoinLines(WrittenAll(b))), path, |known.lengths|)
  {
    SeparatorsDoNotMatter(casing, a);
    SeparatorsDoNotMatter(casing, b);
    forall i | 0 <= i < |a| ensures LowerWords(casing, a[i]) == LowerWords(casing, b[i]) {
      SameLine(casing, a[i], b[i]);
    }
    SameRead(casing, a, b, 1);
  }

  // ------------------------------------------------------------ reports on added lines

  /** An added line: its number in the new file and its text. */
  datatype Row = Row(lineno: nat, text: string)

  datatype Report = Report(lineno: nat, size: nat)

  function Texts(rows: seq<Row>): seq<string> {
    seq(|rows|, i requires 0 <= i < |rows| => rows[i].text)
  }

  /** The added lines of one path, read as one text. */
  function JoinedWords(casing: Casing, rows: seq<Row>): seq<Tagged> {
    NormalizedWords(casing, JoinLines(Texts(rows)))
  }

  ghost predicate OnRows(hits: seq<Hit>, rows: seq<Row>) {
    forall j :: 0 <= j < |hits| ==> 1 <= hits[j].line <= |rows|
  }

  /** Every hit, moved to the number of the added line it starts on. */
  ghost function Located(rows: seq<Row>, hits: seq<Hit>): seq<Report>
    requires OnRows(hits, rows)
  {
    seq(|hits|, j requires 0 <= j < |hits| => Report(rows[hits[j].line - 1].lineno, hits[j].size))
  }

  ghost predicate WholeLines(rows: seq<Row>) { forall i :: 0 <= i < |rows| ==> '\n' !in rows[i].text }

  /** A word of the joined rows stands on row `line - 1`. */
  lemma WordsOnRows(casing: Casing, rows: seq<Row>, i: nat)
    requires casing.Valid() && rows != [] && WholeLines(rows) && i < |JoinedWords(casing, rows)|
    ensures var w := JoinedWords(casing, rows)[i];
            1 <= w.line <= |rows| && w.word in Words(casing.Lower(rows[w.line - 1].text))
  {
    WordsOfJoined(casing, Texts(rows));
    TagsInOrder(LowerAll(casing, Texts(rows)), 1);
  }

  lemma HitsOnRows(known: KnownList, casing: Casing, rows: seq<Row>, path: string)
    requires known.Valid() && casing.Valid() && rows != [] && WholeLines(rows)
    ensures OnRows(known.Hits(JoinedWords(casing, rows), path, |known.lengths|), rows)
  {
    var words := JoinedWords(casing, rows);
    var hits := known.Hits(words, path, |known.lengths|);
    forall j | 0 <= j < |hits| ensures 1 <= hits[j].line <= |rows| {
      HitIn(known, words, path, |known.lengths|, hits[j]);
      var i: nat :| HitAt(known, words, path, hits[j], i);
      WordsOnRows(casing, rows, i);
    }
  }

  /** The known-data part of `scan` for one path. */
  method ScanRows(known: KnownList, casing: Casing, rows: seq<Row>, path: string) returns (reports: seq<Report>)
    requires known.Valid() && casing.Valid() && rows != [] && WholeLines(rows)
    ensures OnRows(known.Hits(JoinedWords(casing, rows), path, |known.lengths|), rows)
    ensures reports == Located(rows, known.Hits(JoinedWords(casing, rows), path, |known.lengths|))
  {
    var hits := known.Find(casing, JoinLines(Texts(rows)), path);
    HitsOnRows(known, casing, rows, path);
    reports := [];
    for j := 0 to |hits|
      invariant |reports| == j
      invariant forall m :: 0 <= m < j ==> reports[m] == Report(rows[hits[m].line - 1].lineno, hits[m].size)
    {
      reports := reports + [Report(rows[hits[j].line - 1].lineno, hits[j].size)];
    }
  }

  /** A reported window `i` of the joined rows begins with a word of row `k`, and the report
      carries that row's line number. */
  ghost predicate StartsIn(known: KnownList, casing: Casing, rows: seq<Row>, path: string, rep: Report,
                           i: nat, k: nat)
  {
    var words := JoinedWords(casing, rows);
    && rep.size > 0 && i + rep.size <= |words| && known.Reports(words, path, i, rep.size)
    && k < |rows| && words[i].line == k + 1 && words[i].word in Words(casing.Lower(rows[k].text))
    && rep.lineno == rows[k].lineno
  }

  lemma ReportOfHit(known: KnownList, casing: Casing, rows: seq<Row>, path: string, h: Hit) returns (i: nat)
    requires known.Valid() && casing.Valid() && rows != [] && WholeLines(rows)
    requires h in known.Hits(JoinedWords(casing, rows), path, |known.lengths|)
    ensures h.size in known.lengths && 1 <= h.line <= |rows|
    ensures StartsIn(known, casing, rows, path, Report(rows[h.line - 1].lineno, h.size), i, h.line - 1)
  {
    var words := JoinedWords(casing, rows);
    assert known.lengths[..|known.lengths|] == known.lengths;
    HitIn(known, words, path, |known.lengths|, h);
    i :| HitAt(known, words, path, h, i);
    WordsOnRows(casing, rows, i);
  }

  lemma HitOfReport(known: KnownList, casing: Casing, rows: seq<Row>, path: string, rep: Report, i: nat, k: nat)
    requires known.Valid() && rep.size in known.lengths && StartsIn(known, casing, rows, path, rep, i, k)
    ensures Hit(k + 1, rep.size) in known.Hits(JoinedWords(casing, rows), path, |known.lengths|)
  {
    assert known.lengths[..|known.lengths|] == known.lengths;
    HitIn(known, JoinedWords(casing, rows), path, |known.lengths|, Hit(k + 1, rep.size));
    assert HitAt(known, JoinedWords(casing, rows), path, Hit(k + 1, rep.size), i);
  }

  lemma InLocated(rows: seq<Row>, hits: seq<Hit>, rep: Report)
    requires OnRows(hits, rows)
    ensures rep in Located(rows, hits)
       <==> exists h :: h in hits && 1 <= h.line <= |rows| && rep == Report(rows[h.line - 1].lineno, h.size)
  {
    if h :| h in hits && 1 <= h.line <= |rows| && rep == Report(rows[h.line - 1].lineno, h.size) {
      var j :| 0 <= j < |hits| && hits[j] == h;
      assert Located(rows, hits)[j] == rep;
    }
  }

  /** The reports are exactly the reported windows, each at the number of the added line its first
      word stands on. */
  lemma ReportedWhereItStarts(known: KnownList, casing: Casing, rows: seq<Row>, path: string, rep: Report)
    requires known.Valid() && casing.Valid() && rows != [] && WholeLines(rows)
    ensures OnRows(known.Hits(JoinedWords(casing, rows), path, |known.lengths|), rows)
    ensures rep in Located(rows, known.Hits(JoinedWords(casing, rows), path, |known.lengths|))
       <==> rep.size in known.lengths && exists i: nat, k: nat :: StartsIn(known, casing, rows, path, rep, i, k)
  {
    HitsOnRows(known, casing, rows, path);
    var words := JoinedWords(casing, rows);
    var hits := known.Hits(words, path, |known.lengths|);
    InLocated(rows, hits, rep);
    if h :| h in hits && 1 <= h.line <= |rows| && rep == Report(rows[h.line - 1].lineno, h.size) {
      var i := ReportOfHit(known, casing, rows, path, h);
    }
    if i: nat, k: nat :| rep.size in known.lengths && StartsIn(known, casing, rows, path, rep, i, k) {
      HitOfReport(known, casing, rows, path, rep, i, k);
    }
  }
}
